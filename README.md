# snweb routing and sessions, modelled in Dafny

This project models the two stateful parts of the `snweb` Go web package:

- **The route table and path matcher** (`routing.go`). `RoutedHandler.AddRoute` compiles a
  `/`-separated URL pattern into one `PathElement` per part. A part that starts with `:` becomes a
  VARIABLE element named by the rest of the part; every other part becomes an EXACT element. The
  route is then appended to the table. `RoutedHandler.FindMatchingRoute` splits a URL the same way
  and scans the routes in registration order. It skips a route whose segment count differs and
  stops examining a route at its first EXACT segment that differs from the URL's part. VARIABLE
  segments always match and are recorded into a `MatchingRoute`. The first route that matches in
  full wins. One `MatchingRoute` is shared by every candidate of a lookup, so captures made by a
  candidate that later failed stay in the result.
- **The session store** (`session_manager.go`). A map from session id to `Session`.
  `InitSession` stores a session under a freshly generated id. `ClearSession` deletes the session
  named by the request's `SID` cookie. `GetSessionForRequest` returns the stored session, or a fresh
  anonymous one when there is no cookie or the id is unknown. `IsLoggedIn` and `GetUserRenderInfo`
  report on the user payload.

Files:

- `wrappers.dfy`: `Option`, used for Go's nil maps, nil interfaces, nil handlers and absent cookies.
- `go_strings.dfy`: `strings.Split` with a one-character separator, with the Go behaviour that
  matters here: empty parts are kept and `""` splits into `[""]`. Also `strings.Join` and
  `strings.HasPrefix`. Lemmas: the part count, separator-free parts, and the round trip in both
  directions.
- `routing.dfy`: the data model, pattern compilation, the matching algorithm as functions `Scan`
  (the inner loop) and `FindFrom` (the outer loop), the class `RoutedHandler` whose methods are
  proved against those functions, and lemmas relating the algorithm to a declarative meaning
  (`RouteMatches`, `CapturedAt`, `LastVariable`).
- `sessions.dfy`: `Session`, `UserRenderInfo`, `GenerateSid`, and the class `SessionStore` with the
  invariant that every key is the `Sid` of the session stored under it.

Modelling choices:

- Handlers are opaque and are identified by a `nat`. The user payload (`interface{}`) is a type
  parameter `U`, and Go's nil is `None`.
- `MatchingRoute` is a value. `AddPathParam` returns the updated value, and `FindMatchingRoute`
  keeps one local `matchingRoute` across all candidates, as the Go code allocates it once before
  the loop. The labelled `continue Loop` is kept as a labelled `continue` in Dafny.
- `PathParams` is `Option<map<string, string>>`: it stays `None` (nil) until the first capture.
  `Handler` is `Option<Handler>`, set only when a route matches.
- The `SID` cookie of a request is `Option<string>`: `None` when the request carries no such cookie.
  `InitSession` returns the id it would write as the `SID` cookie, instead of writing it.
- The random id is an input of `InitSession`: `None` when reading the random source fails, else the
  encoded text. `GenerateSid` turns a failure into the empty id, and `InitSession` then stores the
  session under the key `""`, as the Go code does.
- Strings are sequences of characters where Go uses bytes. The separator `/` and the marker `:` are
  ASCII, so splitting and prefix tests agree on both views.

The lemma `CaptureLeakExample` shows the shared-capture behaviour on concrete routes. Register
`/:id/edit` and then `/:user/view`, and look up `/7/view`. The second route matches, and the result
binds both `id` and `user` to `7`. `CapturesAccumulate` states the general rule for names: the returned
names are exactly those captured while examining routes up to the matched one. `LastCaptureWins`
states it for values: each name maps to the URL part of its last capture over those routes, so a
failed candidate's value survives unless a later route captures the same name again.

## Model

| member | source | states |
|---|---|---|
| `GoStrings.Split` | routing.go:78 | splitting always yields at least one part |
| `GoStrings.SplitCount` | routing.go:78 | the number of parts is the number of separators plus one |
| `GoStrings.SplitPartsFree` | routing.go:78 | no part contains the separator |
| `GoStrings.JoinSplit` | routing.go:78 | joining the parts with the separator gives back the string |
| `GoStrings.SplitJoin` | routing.go:95 | splitting a join of separator-free parts gives back the parts |
| `Routing.MatchingRoute.AddPathParam` | routing.go:57-62 | the map exists afterwards, binds the name to the value, keeps every other binding and the handler |
| `Routing.CompileSegment` | routing.go:82-86 | a part is VARIABLE iff it starts with `:`, with the part minus the marker as its name; otherwise EXACT with the whole part |
| `Routing.CompilePattern` | routing.go:78-87 | one element per `/`-separated part, each the compiled form of its part |
| `Routing.CompileLength` | routing.go:78-87 | a compiled pattern has one element per `/` plus one, empty leading and trailing parts included |
| `Routing.CompileRoundTrip` | routing.go:78-87 | writing the compiled elements back (`:` before variables) and joining with `/` gives back the pattern |
| `Routing.CompileRootExample` | routing.go:78-87 | `/` compiles to two EXACT elements with empty values |
| `Routing.CompileProjectExample` | routing.go:78-87 | `/project/:projectId` compiles to EXACT `""`, EXACT `project`, VARIABLE `projectId` |
| `Routing.Scan` | routing.go:105-112 | the segment loop never sets the handler and never removes a captured name |
| `Routing.FindFrom` | routing.go:99-116 | a search from a route on that succeeds returns the handler of one of the routes from there on, and keeps every name captured before it |
| `Routing.FindRoute` | routing.go:93-117 | a successful lookup's handler is the handler of a registered route |
| `Routing.ScanSucceeds` | routing.go:105-112 | the segment loop runs to the end iff every remaining segment is VARIABLE or equal to the URL part |
| `Routing.ScanKeys` | routing.go:105-111 | after the segment loop the names bound are the earlier ones plus every variable reached before the first mismatch; the map stays nil iff it was nil and nothing was captured |
| `Routing.ScanKeeps` | routing.go:105-111 | a bound name that is not a variable further on keeps its value |
| `Routing.ScanBinds` | routing.go:105-111 | on a matching route each variable ends bound to the URL part at its last occurrence |
| `Routing.ScanKeepsUntil` | routing.go:105-111 | a bound name that the segment loop does not capture again before its first mismatch keeps its value |
| `Routing.ScanLastCapture` | routing.go:105-111 | after the segment loop a name is bound to the URL part at its last capture, whether or not the route matched in full |
| `Routing.SkipRoute` | routing.go:101-108 | a route that does not match passes the search on to the next route, with the captures it made |
| `Routing.FindFromNone` | routing.go:99-116 | the search from a route on fails iff no route from there on matches |
| `Routing.FindFromFirst` | routing.go:99-115 | the search from a route on returns the handler of the first matching route from there on |
| `Routing.FindFromKeys` | routing.go:96-114 | the names returned are those captured by every route examined up to the match |
| `Routing.FindFromBinds` | routing.go:105-114 | the matched route's variables are bound to their URL parts, whatever earlier candidates left |
| `Routing.FindFromKeeps` | routing.go:96-114 | a bound name that no route examined up to the match captures again keeps its value in the result |
| `Routing.FindFromLastCapture` | routing.go:96-114 | in the result a name maps to the URL part of its last capture over the routes examined up to the match |
| `Routing.FindFromAppend` | routing.go:99-115 | routes after a successful match do not affect the result |
| `Routing.NoMatchIff` | routing.go:99-116 | a lookup returns nil iff no route has the URL's segment count and equal EXACT segments |
| `Routing.FirstMatchWins` | routing.go:99-115 | a lookup returns the handler of the lowest-index matching route |
| `Routing.LaterRoutesIgnored` | routing.go:113-114 | registering more routes does not change a lookup that already succeeds |
| `Routing.MatchedRouteBinds` | routing.go:105-111 | each variable name of the matched route maps to the URL part at its last position; later duplicates overwrite earlier ones |
| `Routing.CapturesAccumulate` | routing.go:96-111 | the returned names are exactly those captured while examining routes up to the match, failed candidates included; `PathParams` is nil iff nothing was captured |
| `Routing.LastCaptureWins` | routing.go:96-111 | a lookup binds each captured name to the URL part of its last capture over routes 0 to the match; a failed candidate's value survives unless a later route captures that name again |
| `Routing.RootExample` | routing_test.go:17-25 | with `/` and `/project/:projectId` registered, `/` yields the first handler and no parameters |
| `Routing.ProjectExample` | routing_test.go:27-35 | with the same routes, `/project/1` yields the second handler with `projectId = 1` |
| `Routing.CaptureLeakExample` | routing.go:96-111 | looking up `/7/view` in `/:id/edit` then `/:user/view` returns the second handler with both `id` and `user` bound |
| `Routing.TestRoute` | routing_test.go:9-37 | registering `/` then `/project/:projectId` and looking up `/` and `/project/1` yields the first handler with nil parameters, then the second handler with exactly `projectId = 1` |
| `Routing.RoutedHandler.constructor` | routing.go:31-34 | a new router has no routes |
| `Routing.RoutedHandler.AddRoute` | routing.go:73-91 | exactly one route, the compiled pattern with its handler, is appended; earlier routes are unchanged and in order; the error is always nil |
| `Routing.RoutedHandler.FindMatchingRoute` | routing.go:93-117 | the result is the one the scan with a shared capture map defines (`FindRoute`), whose properties are the lemmas above |
| `Sessions.Session.IsLoggedIn` | session_manager.go:30-32 | a session is logged in iff its user payload is non-nil; its consequences are stated by `GetUserRenderInfo`, `Anonymous` and `GetSessionForRequest` |
| `Sessions.Session.GetUserRenderInfo` | session_manager.go:30-43 | `LoggedIn` equals `IsLoggedIn()`, i.e. the user is non-nil; `Details` is the user when logged in and nil otherwise |
| `Sessions.Anonymous` | session_manager.go:82 | a fresh session has an empty id and is not logged in |
| `Sessions.GenerateSid` | session_manager.go:70-76 | the id is empty iff reading the random source failed (or gave empty text); otherwise it is the encoded value |
| `Sessions.SessionStore.constructor` | session_manager.go:13-17 | the store starts empty and satisfies the key-equals-id invariant |
| `Sessions.SessionStore.InitSession` | session_manager.go:49-58 | the generated id now maps to a session with that id and the given user, any old entry under it is overwritten, all other keys are unchanged, the invariant is kept, and a lookup by the id returns the new session |
| `Sessions.SessionStore.ClearSession` | session_manager.go:60-68 | with a cookie its key is removed and all other entries are unchanged; without one the store is unchanged; either way a lookup with that cookie is then anonymous |
| `Sessions.SessionStore.GetSessionForRequest` | session_manager.go:78-93 | with a cookie naming a stored id it returns that session, whose id is the cookie's value; otherwise a fresh anonymous session; only a stored session can be logged in |
| `Sessions.SessionLifecycle` | session_manager.go:49-93 | init, lookup, clear, lookup, clear: the user is found, then the session is anonymous, and the second clear changes nothing |

## Left out

- `ServeHTTP` and `recoverPanic` (routing.go:119-159): writing HTTP responses, translating panics
  with `defer`/`recover`, the favicon shortcut and the 404 response are transport and exception
  handling. The `PanicHandler` field of `RoutedHandler` is left out with them.
- `HttpContext` (routing.go:36-41): the per-request context that `ServeHTTP` builds from the request,
  the response writer, the session and the path parameters; it is left out with `ServeHTTP`.
- `QueryParam` (routing.go:43-45): a wrapper over `net/url` query parsing.
- The `String()` formatters (routing.go:15-23, 69-71): debug output only.
- Cookie construction and `SetCookie`, including `MaxAge` and `Path` (session_manager.go:56-57, 67,
  95-98): `net/http` plumbing. The cookie a request carries is an input; the one `InitSession` sets
  is returned as its value.
- `crypto/rand` and `base64.URLEncoding` inside `generateSid` (session_manager.go:71-75): randomness
  and library encoding. Their outcome is an input. A successful read always encodes 32 bytes into
  44 characters, so the id is then never empty; the model does not capture that length.
- The unsynchronised concurrent access to the global `sessionMap` (session_manager.go:13-17): the
  store is modelled as one object used sequentially.
- The `Created` timestamp of `Session`: `InitSession` never sets it.
- The unused `SessionManagerService` struct (session_manager.go:45-47).
- Pointer identity of `*Session` and `*MatchingRoute`: values are modelled instead. A handler that
  updates a session through the pointer it received, changing the stored session, is not modelled.
- A non-nil interface holding a nil pointer counts as logged in under Go's rules. The model has only
  `None` and `Some` for the user payload.
- The package qualifier `session.Session` used in routing.go is read as the `Session` type of
  session_manager.go.
