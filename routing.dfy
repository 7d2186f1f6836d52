/**
 * The route table and path matcher of the `snweb` router (routing.go).
 *
 * A URL pattern such as `/project/:projectId` is compiled into one path
 * element per `/`-separated part; a part starting with `:` is a variable.
 * A URL is matched by scanning the routes in registration order; the first
 * route whose segment count agrees and whose exact segments all equal the
 * URL's parts wins. Captures are recorded into ONE matching-route value
 * shared by every candidate examined, so the captures a candidate made
 * before failing on a literal stay in the result.
 */
module Routing {
  import opened Wrappers
  import opened GoStrings

  /** Handlers are opaque; a handler is identified by a number. */
  type Handler = nat

  const Separator: char := '/'
  const VariableMarker: char := ':'

  datatype PathElementType = Exact | Variable

  datatype PathElement = PathElement(val: string, kind: PathElementType)

  datatype Route = Route(path: seq<PathElement>, handler: Handler)

  /** The keys of a path-parameter map; a nil map has none. */
  function ParamKeys(params: Option<map<string, string>>): (keys: set<string>)
  {
    if params.None? then {} else params.value.Keys
  }

  /** The result of a lookup: `pathParams` stays nil until a first capture,
      `handler` stays nil until a route has matched. */
  datatype MatchingRoute = MatchingRoute(pathParams: Option<map<string, string>>, handler: Option<Handler>)
  {
    /** Records `name = value`, allocating the map on first use. */
    function AddPathParam(name: string, value: string): (r: MatchingRoute)
      ensures r.handler == handler
      ensures r.pathParams.Some? && r.pathParams.value.Keys == ParamKeys(pathParams) + {name}
      ensures r.pathParams.value[name] == value
      ensures forall n :: n in ParamKeys(pathParams) && n != name ==>
                r.pathParams.value[n] == pathParams.value[n]
    {
      var params := if pathParams.None? then map[] else pathParams.value;
      MatchingRoute(Some(params[name := value]), handler)
    }
  }

  const NoMatchYet: MatchingRoute := MatchingRoute(None, None)

  // ---------------------------------------------------------------------
  // Compilation of patterns
  // ---------------------------------------------------------------------

  /** One part of a pattern: `:name` is the variable `name`, anything else
      is matched exactly. */
  function CompileSegment(part: string): (e: PathElement)
    ensures e.kind == Variable <==> HasPrefix(part, VariableMarker)
    ensures e.kind == Variable ==> part == [VariableMarker] + e.val
    ensures e.kind == Exact ==> e.val == part
  {
    if HasPrefix(part, VariableMarker) then PathElement(part[1..], Variable)
    else PathElement(part, Exact)
  }

  /** The pattern text an element was compiled from. */
  function SegmentText(e: PathElement): (text: string)
  {
    if e.kind == Variable then [VariableMarker] + e.val else e.val
  }

  /** The `/`-separated parts of a pattern or URL (`strings.Split(s, "/")`). */
  function UrlParts(s: string): (parts: seq<string>)
  {
    Split(s, Separator)
  }

  /** The path a pattern compiles to: one element per `/`-separated part. */
  function CompilePattern(urlPattern: string): (path: seq<PathElement>)
    ensures |path| == |UrlParts(urlPattern)|
    ensures forall k :: 0 <= k < |path| ==> path[k] == CompileSegment(UrlParts(urlPattern)[k])
  {
    var parts := UrlParts(urlPattern);
    seq(|parts|, k requires 0 <= k < |parts| => CompileSegment(parts[k]))
  }

  /** The pattern text of a whole path. */
  function PathText(path: seq<PathElement>): (parts: seq<string>)
    ensures |parts| == |path|
    ensures forall k :: 0 <= k < |path| ==> parts[k] == SegmentText(path[k])
  {
    seq(|path|, k requires 0 <= k < |path| => SegmentText(path[k]))
  }

  /** A pattern has one element per separator plus one. */
  lemma CompileLength(urlPattern: string)
    ensures |CompilePattern(urlPattern)| == multiset(urlPattern)[Separator] + 1
  {
    SplitCount(urlPattern, Separator);
  }

  /** Writing the compiled path back out gives the original pattern. */
  lemma CompileRoundTrip(urlPattern: string)
    ensures Join(PathText(CompilePattern(urlPattern)), Separator) == urlPattern
  {
    var parts := UrlParts(urlPattern);
    var text := PathText(CompilePattern(urlPattern));
    assert text == parts;
    JoinSplit(urlPattern, Separator);
  }

  /** Splits a literal URL by recognising it as the join of its parts. */
  lemma SplitLiteral(parts: seq<string>, url: string)
    requires |parts| >= 1 && url == Join(parts, Separator)
    requires forall k :: 0 <= k < |parts| ==> Separator !in parts[k]
    ensures UrlParts(url) == parts
  {
    SplitJoin(parts, Separator);
  }

  /** `/` compiles to two exact elements with empty text. */
  lemma CompileRootExample()
    ensures CompilePattern("/") == [PathElement("", Exact), PathElement("", Exact)]
  {
  }

  /** `/project/:projectId` compiles to two exact elements and a variable. */
  lemma CompileProjectExample()
    ensures CompilePattern("/project/:projectId")
         == [PathElement("", Exact), PathElement("project", Exact), PathElement("projectId", Variable)]
  {
    SplitLiteral(["", "project", ":projectId"], "/project/:projectId");
    assert CompileSegment(":projectId") == PathElement("projectId", Variable);
  }

  // ---------------------------------------------------------------------
  // Matching: declarative meaning
  // ---------------------------------------------------------------------

  /** A variable matches any part; an exact element only its own text. */
  predicate SegmentMatches(e: PathElement, part: string)
  {
    e.kind == Variable || e.val == part
  }

  /** A route matches a URL's parts when it has as many segments and each
      segment matches. */
  predicate RouteMatches(path: seq<PathElement>, parts: seq<string>)
  {
    |path| == |parts| && forall i :: 0 <= i < |parts| ==> SegmentMatches(path[i], parts[i])
  }

  /** Examining a candidate route captures `name` at position `i` when the
      element there is the variable `name` and every earlier segment matched. */
  predicate CapturedAt(path: seq<PathElement>, parts: seq<string>, i: int, name: string)
  {
    && |path| == |parts|
    && 0 <= i < |parts|
    && path[i] == PathElement(name, Variable)
    && forall i' :: 0 <= i' < i ==> SegmentMatches(path[i'], parts[i'])
  }

  /** Position `c` holds the last occurrence of its variable in the path. */
  predicate LastVariable(path: seq<PathElement>, c: int)
  {
    && 0 <= c < |path|
    && path[c].kind == Variable
    && forall c' :: c < c' < |path| ==> path[c'] != path[c]
  }

  // ---------------------------------------------------------------------
  // Matching: the algorithm of FindMatchingRoute as functions
  // ---------------------------------------------------------------------

  /** The inner loop from position `i` on: stops at the first literal
      mismatch (false) or reaches the end (true), adding a capture for
      every variable passed. */
  function Scan(path: seq<PathElement>, parts: seq<string>, i: nat, acc: MatchingRoute): (r: (bool, MatchingRoute))
    requires |path| == |parts| && i <= |parts|
    ensures r.1.handler == acc.handler
    ensures ParamKeys(acc.pathParams) <= ParamKeys(r.1.pathParams)
    decreases |parts| - i
  {
    if i == |parts| then (true, acc)
    else if parts[i] != path[i].val && path[i].kind != Variable then (false, acc)
    else
      Scan(path, parts, i + 1,
           if path[i].kind == Variable then acc.AddPathParam(path[i].val, parts[i]) else acc)
  }

  /** The outer loop from route `j` on, with the captures `acc` made so far. */
  function FindFrom(routes: seq<Route>, parts: seq<string>, j: nat, acc: MatchingRoute): (r: Option<MatchingRoute>)
    requires j <= |routes|
    ensures r.Some? ==> exists k :: j <= k < |routes| && r.value.handler == Some(routes[k].handler)
    ensures r.Some? ==> ParamKeys(acc.pathParams) <= ParamKeys(r.value.pathParams)
    decreases |routes| - j
  {
    if j == |routes| then None
    else if |parts| != |routes[j].path| then FindFrom(routes, parts, j + 1, acc)
    else
      var scan := Scan(routes[j].path, parts, 0, acc);
      if scan.0 then Some(scan.1.(handler := Some(routes[j].handler)))
      else FindFrom(routes, parts, j + 1, scan.1)
  }

  /** What FindMatchingRoute returns for `url`. */
  function FindRoute(routes: seq<Route>, url: string): (r: Option<MatchingRoute>)
    ensures r.Some? ==> exists k :: 0 <= k < |routes| && r.value.handler == Some(routes[k].handler)
  {
    FindFrom(routes, UrlParts(url), 0, NoMatchYet)
  }

  // ---------------------------------------------------------------------
  // Lemmas about Scan
  // ---------------------------------------------------------------------

  /** The inner loop runs to the end exactly when every remaining segment matches. */
  lemma {:induction false} ScanSucceeds(path: seq<PathElement>, parts: seq<string>, i: nat, acc: MatchingRoute)
    requires |path| == |parts| && i <= |parts|
    ensures Scan(path, parts, i, acc).0 <==> forall k :: i <= k < |parts| ==> SegmentMatches(path[k], parts[k])
    decreases |parts| - i
  {
    if i < |parts| && SegmentMatches(path[i], parts[i]) {
      var acc' := if path[i].kind == Variable then acc.AddPathParam(path[i].val, parts[i]) else acc;
      ScanSucceeds(path, parts, i + 1, acc');
    }
  }

  /** The keys after the inner loop are the earlier keys plus the names
      captured from position `i` on; the map stays nil when it was nil and
      nothing was captured. */
  lemma {:induction false} ScanKeys(path: seq<PathElement>, parts: seq<string>, i: nat, acc: MatchingRoute)
    requires |path| == |parts| && i <= |parts|
    requires forall k :: 0 <= k < i ==> SegmentMatches(path[k], parts[k])
    ensures forall name :: name in ParamKeys(Scan(path, parts, i, acc).1.pathParams) <==>
              name in ParamKeys(acc.pathParams) || exists c :: i <= c && CapturedAt(path, parts, c, name)
    ensures Scan(path, parts, i, acc).1.pathParams.None? <==>
              acc.pathParams.None? && forall c, name :: i <= c ==> !CapturedAt(path, parts, c, name)
    decreases |parts| - i
  {
    if i < |parts| && SegmentMatches(path[i], parts[i]) {
      var acc' := if path[i].kind == Variable then acc.AddPathParam(path[i].val, parts[i]) else acc;
      ScanKeys(path, parts, i + 1, acc');
      if path[i].kind == Variable {
        assert CapturedAt(path, parts, i, path[i].val);
      } else {
        forall name ensures !CapturedAt(path, parts, i, name) { }
      }
    } else if i < |parts| {
      forall c, name | i <= c ensures !CapturedAt(path, parts, c, name) { }
    }
  }

  /** A name bound in `acc` and not a variable anywhere from position `i`
      on keeps its value through the inner loop. */
  lemma {:induction false} ScanKeeps(path: seq<PathElement>, parts: seq<string>, i: nat, acc: MatchingRoute, name: string)
    requires |path| == |parts| && i <= |parts|
    requires name in ParamKeys(acc.pathParams)
    requires forall c :: i <= c < |path| ==> path[c] != PathElement(name, Variable)
    ensures name in ParamKeys(Scan(path, parts, i, acc).1.pathParams)
    ensures Scan(path, parts, i, acc).1.pathParams.value[name] == acc.pathParams.value[name]
    decreases |parts| - i
  {
    if i < |parts| && SegmentMatches(path[i], parts[i]) {
      var acc' := if path[i].kind == Variable then acc.AddPathParam(path[i].val, parts[i]) else acc;
      ScanKeeps(path, parts, i + 1, acc', name);
    }
  }

  /** On a route that matches, the inner loop leaves every variable bound
      to the part at its last occurrence. */
  lemma {:induction false} ScanBinds(path: seq<PathElement>, parts: seq<string>, i: nat, acc: MatchingRoute, c: nat)
    requires RouteMatches(path, parts) && i <= c
    requires LastVariable(path, c)
    ensures path[c].val in ParamKeys(Scan(path, parts, i, acc).1.pathParams)
    ensures Scan(path, parts, i, acc).1.pathParams.value[path[c].val] == parts[c]
    decreases |parts| - i
  {
    var acc' := if path[i].kind == Variable then acc.AddPathParam(path[i].val, parts[i]) else acc;
    assert SegmentMatches(path[i], parts[i]);
    if i == c {
      ScanKeeps(path, parts, i + 1, acc', path[c].val);
    } else {
      ScanBinds(path, parts, i + 1, acc', c);
    }
  }

  /** A bound name that the inner loop does not capture again from
      position `i` on keeps its value; unlike `ScanKeeps`, variables past
      the first mismatch do not matter. */
  lemma {:induction false} ScanKeepsUntil(path: seq<PathElement>, parts: seq<string>, i: nat, acc: MatchingRoute, name: string)
    requires |path| == |parts| && i <= |parts|
    requires forall k :: 0 <= k < i ==> SegmentMatches(path[k], parts[k])
    requires name in ParamKeys(acc.pathParams)
    requires forall c :: i <= c ==> !CapturedAt(path, parts, c, name)
    ensures name in ParamKeys(Scan(path, parts, i, acc).1.pathParams)
    ensures Scan(path, parts, i, acc).1.pathParams.value[name] == acc.pathParams.value[name]
    decreases |parts| - i
  {
    if i < |parts| && SegmentMatches(path[i], parts[i]) {
      assert !CapturedAt(path, parts, i, name);
      var acc' := if path[i].kind == Variable then acc.AddPathParam(path[i].val, parts[i]) else acc;
      ScanKeepsUntil(path, parts, i + 1, acc', name);
    }
  }

  /** The inner loop leaves a name bound to the part at its last capture,
      whether or not the route goes on to match. */
  lemma {:induction false} ScanLastCapture(path: seq<PathElement>, parts: seq<string>, i: nat, acc: MatchingRoute, c0: nat, name: string)
    requires i <= c0 && CapturedAt(path, parts, c0, name)
    requires forall c :: c0 < c ==> !CapturedAt(path, parts, c, name)
    ensures name in ParamKeys(Scan(path, parts, i, acc).1.pathParams)
    ensures Scan(path, parts, i, acc).1.pathParams.value[name] == parts[c0]
    decreases c0 - i
  {
    assert SegmentMatches(path[i], parts[i]);
    var acc' := if path[i].kind == Variable then acc.AddPathParam(path[i].val, parts[i]) else acc;
    if i == c0 {
      ScanKeepsUntil(path, parts, i + 1, acc', name);
    } else {
      ScanLastCapture(path, parts, i + 1, acc', c0, name);
    }
  }

  // ---------------------------------------------------------------------
  // Lemmas about FindFrom
  // ---------------------------------------------------------------------

  /** A candidate whose segments do not all match moves the search on,
      keeping the captures it made. */
  lemma SkipRoute(routes: seq<Route>, parts: seq<string>, j: nat, acc: MatchingRoute)
    requires j < |routes| && !RouteMatches(routes[j].path, parts)
    ensures |routes[j].path| == |parts| ==>
              FindFrom(routes, parts, j, acc) == FindFrom(routes, parts, j + 1, Scan(routes[j].path, parts, 0, acc).1)
    ensures |routes[j].path| != |parts| ==>
              FindFrom(routes, parts, j, acc) == FindFrom(routes, parts, j + 1, acc)
  {
    if |routes[j].path| == |parts| {
      ScanSucceeds(routes[j].path, parts, 0, acc);
    }
  }

  /** The search from route `j` fails exactly when no route from `j` on matches. */
  lemma {:induction false} FindFromNone(routes: seq<Route>, parts: seq<string>, j: nat, acc: MatchingRoute)
    requires j <= |routes|
    ensures FindFrom(routes, parts, j, acc).None? <==>
              forall k :: j <= k < |routes| ==> !RouteMatches(routes[k].path, parts)
    decreases |routes| - j
  {
    if j < |routes| {
      if |parts| == |routes[j].path| {
        var scan := Scan(routes[j].path, parts, 0, acc);
        ScanSucceeds(routes[j].path, parts, 0, acc);
        FindFromNone(routes, parts, j + 1, scan.1);
      } else {
        FindFromNone(routes, parts, j + 1, acc);
      }
    }
  }

  /** The search from route `j` returns the handler of the first route from
      `j` on that matches. */
  lemma {:induction false} FindFromFirst(routes: seq<Route>, parts: seq<string>, j: nat, acc: MatchingRoute, k: nat)
    requires j <= k < |routes| && RouteMatches(routes[k].path, parts)
    requires forall k' :: j <= k' < k ==> !RouteMatches(routes[k'].path, parts)
    ensures FindFrom(routes, parts, j, acc).Some?
    ensures FindFrom(routes, parts, j, acc).value.handler == Some(routes[k].handler)
    decreases k - j
  {
    if j == k {
      ScanSucceeds(routes[j].path, parts, 0, acc);
    } else {
      SkipRoute(routes, parts, j, acc);
      var acc' := if |routes[j].path| == |parts| then Scan(routes[j].path, parts, 0, acc).1 else acc;
      FindFromFirst(routes, parts, j + 1, acc', k);
    }
  }

  /** The keys returned are those of `acc` plus every name captured while
      examining routes `j` to `k`, the failed candidates included. */
  lemma {:induction false} FindFromKeys(routes: seq<Route>, parts: seq<string>, j: nat, acc: MatchingRoute, k: nat)
    requires j <= k < |routes| && RouteMatches(routes[k].path, parts)
    requires forall k' :: j <= k' < k ==> !RouteMatches(routes[k'].path, parts)
    ensures FindFrom(routes, parts, j, acc).Some?
    ensures forall name :: name in ParamKeys(FindFrom(routes, parts, j, acc).value.pathParams) <==>
              name in ParamKeys(acc.pathParams) ||
              exists k', c :: j <= k' <= k && CapturedAt(routes[k'].path, parts, c, name)
    ensures FindFrom(routes, parts, j, acc).value.pathParams.None? <==>
              acc.pathParams.None? &&
              forall k', c, name :: j <= k' <= k ==> !CapturedAt(routes[k'].path, parts, c, name)
    decreases k - j
  {
    FindFromFirst(routes, parts, j, acc, k);
    if |routes[j].path| == |parts| {
      ScanKeys(routes[j].path, parts, 0, acc);
    } else {
      forall c, name ensures !CapturedAt(routes[j].path, parts, c, name) { }
    }
    if j == k {
      ScanSucceeds(routes[j].path, parts, 0, acc);
    } else {
      SkipRoute(routes, parts, j, acc);
      var acc' := if |routes[j].path| == |parts| then Scan(routes[j].path, parts, 0, acc).1 else acc;
      FindFromKeys(routes, parts, j + 1, acc', k);
    }
  }

  /** Every variable of the matched route is bound to the part at its last
      occurrence, whatever earlier candidates captured. */
  lemma {:induction false} FindFromBinds(routes: seq<Route>, parts: seq<string>, j: nat, acc: MatchingRoute, k: nat, c: nat)
    requires j <= k < |routes| && RouteMatches(routes[k].path, parts)
    requires forall k' :: j <= k' < k ==> !RouteMatches(routes[k'].path, parts)
    requires LastVariable(routes[k].path, c)
    ensures FindFrom(routes, parts, j, acc).Some?
    ensures routes[k].path[c].val in ParamKeys(FindFrom(routes, parts, j, acc).value.pathParams)
    ensures FindFrom(routes, parts, j, acc).value.pathParams.value[routes[k].path[c].val] == parts[c]
    decreases k - j
  {
    FindFromFirst(routes, parts, j, acc, k);
    if j == k {
      ScanSucceeds(routes[j].path, parts, 0, acc);
      ScanBinds(routes[j].path, parts, 0, acc, c);
    } else {
      SkipRoute(routes, parts, j, acc);
      var acc' := if |routes[j].path| == |parts| then Scan(routes[j].path, parts, 0, acc).1 else acc;
      FindFromBinds(routes, parts, j + 1, acc', k, c);
    }
  }

  /** A bound name that no route from `j` up to the match captures again
      keeps its value in the result. */
  lemma {:induction false} FindFromKeeps(routes: seq<Route>, parts: seq<string>, j: nat, acc: MatchingRoute, k: nat, name: string)
    requires j <= k < |routes| && RouteMatches(routes[k].path, parts)
    requires forall k' :: j <= k' < k ==> !RouteMatches(routes[k'].path, parts)
    requires name in ParamKeys(acc.pathParams)
    requires forall k', c :: j <= k' <= k ==> !CapturedAt(routes[k'].path, parts, c, name)
    ensures FindFrom(routes, parts, j, acc).Some?
    ensures name in ParamKeys(FindFrom(routes, parts, j, acc).value.pathParams)
    ensures FindFrom(routes, parts, j, acc).value.pathParams.value[name] == acc.pathParams.value[name]
    decreases k - j
  {
    FindFromFirst(routes, parts, j, acc, k);
    if |routes[j].path| == |parts| {
      ScanKeepsUntil(routes[j].path, parts, 0, acc, name);
    }
    if j == k {
      ScanSucceeds(routes[j].path, parts, 0, acc);
    } else {
      SkipRoute(routes, parts, j, acc);
      var acc' := if |routes[j].path| == |parts| then Scan(routes[j].path, parts, 0, acc).1 else acc;
      FindFromKeeps(routes, parts, j + 1, acc', k, name);
    }
  }

  /** A name's value in the result is the part at its last capture among the
      routes examined from `j` up to the match, a failed candidate's capture
      included. */
  lemma {:induction false} FindFromLastCapture(routes: seq<Route>, parts: seq<string>, j: nat, acc: MatchingRoute,
                                              k: nat, k0: nat, c0: nat, name: string)
    requires j <= k0 <= k < |routes| && RouteMatches(routes[k].path, parts)
    requires forall k' :: j <= k' < k ==> !RouteMatches(routes[k'].path, parts)
    requires CapturedAt(routes[k0].path, parts, c0, name)
    requires forall c :: c0 < c ==> !CapturedAt(routes[k0].path, parts, c, name)
    requires forall k', c :: k0 < k' <= k ==> !CapturedAt(routes[k'].path, parts, c, name)
    ensures FindFrom(routes, parts, j, acc).Some?
    ensures name in ParamKeys(FindFrom(routes, parts, j, acc).value.pathParams)
    ensures FindFrom(routes, parts, j, acc).value.pathParams.value[name] == parts[c0]
    decreases k0 - j
  {
    FindFromFirst(routes, parts, j, acc, k);
    var acc' := if |routes[j].path| == |parts| then Scan(routes[j].path, parts, 0, acc).1 else acc;
    if j < k0 {
      SkipRoute(routes, parts, j, acc);
      FindFromLastCapture(routes, parts, j + 1, acc', k, k0, c0, name);
    } else {
      ScanLastCapture(routes[j].path, parts, 0, acc, c0, name);
      if j == k {
        ScanSucceeds(routes[j].path, parts, 0, acc);
      } else {
        SkipRoute(routes, parts, j, acc);
        FindFromKeeps(routes, parts, j + 1, acc', k, name);
      }
    }
  }

  /** Routes after the first match are never examined. */
  lemma {:induction false} FindFromAppend(routes: seq<Route>, extra: seq<Route>, parts: seq<string>, j: nat, acc: MatchingRoute)
    requires j <= |routes| && FindFrom(routes, parts, j, acc).Some?
    ensures FindFrom(routes + extra, parts, j, acc) == FindFrom(routes, parts, j, acc)
    decreases |routes| - j
  {
    assert (routes + extra)[j] == routes[j];
    if |parts| == |routes[j].path| {
      var scan := Scan(routes[j].path, parts, 0, acc);
      if !scan.0 {
        FindFromAppend(routes, extra, parts, j + 1, scan.1);
      }
    } else {
      FindFromAppend(routes, extra, parts, j + 1, acc);
    }
  }

  // ---------------------------------------------------------------------
  // Properties of a lookup
  // ---------------------------------------------------------------------

  /** A lookup finds nothing exactly when no route matches the URL. */
  lemma NoMatchIff(routes: seq<Route>, url: string)
    ensures FindRoute(routes, url).None? <==>
              forall k :: 0 <= k < |routes| ==> !RouteMatches(routes[k].path, UrlParts(url))
  {
    FindFromNone(routes, UrlParts(url), 0, NoMatchYet);
  }

  /** First match wins: the handler returned is that of the lowest-index
      matching route. */
  lemma FirstMatchWins(routes: seq<Route>, url: string, k: nat)
    requires k < |routes| && RouteMatches(routes[k].path, UrlParts(url))
    requires forall k' :: 0 <= k' < k ==> !RouteMatches(routes[k'].path, UrlParts(url))
    ensures FindRoute(routes, url).Some?
    ensures FindRoute(routes, url).value.handler == Some(routes[k].handler)
  {
    FindFromFirst(routes, UrlParts(url), 0, NoMatchYet, k);
  }

  /** Registering more routes does not change a lookup that already
      succeeds. */
  lemma LaterRoutesIgnored(routes: seq<Route>, extra: seq<Route>, url: string)
    requires FindRoute(routes, url).Some?
    ensures FindRoute(routes + extra, url) == FindRoute(routes, url)
  {
    FindFromAppend(routes, extra, UrlParts(url), 0, NoMatchYet);
  }

  /** The matched route's variables are bound to the URL's parts, a later
      occurrence of a name overriding an earlier one. */
  lemma MatchedRouteBinds(routes: seq<Route>, url: string, k: nat, c: nat)
    requires k < |routes| && RouteMatches(routes[k].path, UrlParts(url))
    requires forall k' :: 0 <= k' < k ==> !RouteMatches(routes[k'].path, UrlParts(url))
    requires LastVariable(routes[k].path, c)
    ensures FindRoute(routes, url).Some?
    ensures routes[k].path[c].val in ParamKeys(FindRoute(routes, url).value.pathParams)
    ensures FindRoute(routes, url).value.pathParams.value[routes[k].path[c].val] == UrlParts(url)[c]
  {
    FindFromBinds(routes, UrlParts(url), 0, NoMatchYet, k, c);
  }

  /** Captures accumulate across candidates: the parameter names returned
      are all those captured while examining routes 0 to `k`, including the
      candidates that then failed on a literal; the map is nil exactly when
      nothing was captured. */
  lemma CapturesAccumulate(routes: seq<Route>, url: string, k: nat)
    requires k < |routes| && RouteMatches(routes[k].path, UrlParts(url))
    requires forall k' :: 0 <= k' < k ==> !RouteMatches(routes[k'].path, UrlParts(url))
    ensures FindRoute(routes, url).Some?
    ensures var parts, m := UrlParts(url), FindRoute(routes, url).value;
      && (forall name :: name in ParamKeys(m.pathParams) <==>
            exists k', c :: 0 <= k' <= k && CapturedAt(routes[k'].path, parts, c, name))
      && (m.pathParams.None? <==>
            forall k', c, name :: 0 <= k' <= k ==> !CapturedAt(routes[k'].path, parts, c, name))
  {
    FindFromKeys(routes, UrlParts(url), 0, NoMatchYet, k);
  }

  /** Each returned name maps to the URL part of its last capture, counted
      over every route examined up to the match: a failed candidate's
      capture survives unless a later candidate or the matched route
      captures the same name again. */
  lemma LastCaptureWins(routes: seq<Route>, url: string, k: nat, k0: nat, c0: nat, name: string)
    requires k0 <= k < |routes| && RouteMatches(routes[k].path, UrlParts(url))
    requires forall k' :: 0 <= k' < k ==> !RouteMatches(routes[k'].path, UrlParts(url))
    requires CapturedAt(routes[k0].path, UrlParts(url), c0, name)
    requires forall c :: c0 < c ==> !CapturedAt(routes[k0].path, UrlParts(url), c, name)
    requires forall k', c :: k0 < k' <= k ==> !CapturedAt(routes[k'].path, UrlParts(url), c, name)
    ensures FindRoute(routes, url).Some?
    ensures name in ParamKeys(FindRoute(routes, url).value.pathParams)
    ensures FindRoute(routes, url).value.pathParams.value[name] == UrlParts(url)[c0]
  {
    FindFromLastCapture(routes, UrlParts(url), 0, NoMatchYet, k, k0, c0, name);
  }

  /** The routes registered by the router's own test. */
  function ExampleRoutes(h1: Handler, h2: Handler): seq<Route>
  {
    [Route(CompilePattern("/"), h1), Route(CompilePattern("/project/:projectId"), h2)]
  }

  lemma ExampleRoutesPaths(h1: Handler, h2: Handler)
    ensures ExampleRoutes(h1, h2)[0].path == [PathElement("", Exact), PathElement("", Exact)]
    ensures ExampleRoutes(h1, h2)[1].path
         == [PathElement("", Exact), PathElement("project", Exact), PathElement("projectId", Variable)]
  {
    CompileRootExample();
    CompileProjectExample();
  }

  /** With `/` then `/project/:projectId` registered, `/` finds the first
      handler and captures nothing. */
  lemma RootExample(h1: Handler, h2: Handler)
    ensures FindRoute(ExampleRoutes(h1, h2), "/") == Some(MatchingRoute(None, Some(h1)))
  {
    CompileRootExample();
    SplitLiteral(["", ""], "/");
  }

  /** With the same routes, `/project/1` finds the second handler with
      `projectId = 1`. */
  lemma ProjectExample(h1: Handler, h2: Handler)
    ensures FindRoute(ExampleRoutes(h1, h2), "/project/1")
         == Some(MatchingRoute(Some(map["projectId" := "1"]), Some(h2)))
  {
    SplitLiteral(["", "project", "1"], "/project/1");
    ProjectSearch(h1, h2);
  }

  lemma ProjectSearch(h1: Handler, h2: Handler)
    ensures FindFrom(ExampleRoutes(h1, h2), ["", "project", "1"], 0, NoMatchYet)
         == Some(MatchingRoute(Some(map["projectId" := "1"]), Some(h2)))
  {
    ExampleRoutesPaths(h1, h2);
    var routes, parts := ExampleRoutes(h1, h2), ["", "project", "1"];
    var path := routes[1].path;
    var bound := NoMatchYet.AddPathParam("projectId", "1");
    assert bound == MatchingRoute(Some(map["projectId" := "1"]), None);
    assert Scan(path, parts, 2, NoMatchYet) == (true, bound);
    assert Scan(path, parts, 0, NoMatchYet) == Scan(path, parts, 2, NoMatchYet);
  }

  /** Two routes on which a capture leaks. */
  function LeakRoutes(h1: Handler, h2: Handler): seq<Route>
  {
    [Route(CompilePattern("/:id/edit"), h1), Route(CompilePattern("/:user/view"), h2)]
  }

  lemma LeakRoutesPaths(h1: Handler, h2: Handler)
    ensures LeakRoutes(h1, h2)[0].path == [PathElement("", Exact), PathElement("id", Variable), PathElement("edit", Exact)]
    ensures LeakRoutes(h1, h2)[1].path == [PathElement("", Exact), PathElement("user", Variable), PathElement("view", Exact)]
  {
    CompileIdEdit();
    CompileUserView();
  }

  lemma CompileIdEdit()
    ensures CompilePattern("/:id/edit") == [PathElement("", Exact), PathElement("id", Variable), PathElement("edit", Exact)]
  {
    SplitLiteral(["", ":id", "edit"], "/:id/edit");
    assert CompileSegment(":id") == PathElement("id", Variable);
  }

  lemma CompileUserView()
    ensures CompilePattern("/:user/view") == [PathElement("", Exact), PathElement("user", Variable), PathElement("view", Exact)]
  {
    SplitLiteral(["", ":user", "view"], "/:user/view");
    assert CompileSegment(":user") == PathElement("user", Variable);
  }

  /** A capture from a failed candidate leaks into a later match:
      `/:id/edit` fails on `/7/view` after capturing `id`, and the result
      for `/:user/view` carries both names. */
  lemma CaptureLeakExample(h1: Handler, h2: Handler)
    ensures FindRoute(LeakRoutes(h1, h2), "/7/view")
         == Some(MatchingRoute(Some(map["id" := "7", "user" := "7"]), Some(h2)))
  {
    SplitLiteral(["", "7", "view"], "/7/view");
    LeakSearch(h1, h2);
  }

  lemma LeakSearch(h1: Handler, h2: Handler)
    ensures FindFrom(LeakRoutes(h1, h2), ["", "7", "view"], 0, NoMatchYet)
         == Some(MatchingRoute(Some(map["id" := "7", "user" := "7"]), Some(h2)))
  {
    LeakRoutesPaths(h1, h2);
    var routes, parts := LeakRoutes(h1, h2), ["", "7", "view"];
    var first := NoMatchYet.AddPathParam("id", "7");
    var both := first.AddPathParam("user", "7");
    LeakScans(routes[0].path, routes[1].path, parts, first, both);
  }

  lemma LeakScans(edit: seq<PathElement>, view: seq<PathElement>, parts: seq<string>, first: MatchingRoute, both: MatchingRoute)
    requires edit == [PathElement("", Exact), PathElement("id", Variable), PathElement("edit", Exact)]
    requires view == [PathElement("", Exact), PathElement("user", Variable), PathElement("view", Exact)]
    requires parts == ["", "7", "view"]
    requires first == NoMatchYet.AddPathParam("id", "7") && both == first.AddPathParam("user", "7")
    ensures Scan(edit, parts, 0, NoMatchYet) == (false, first)
    ensures Scan(view, parts, 0, first) == (true, both)
    ensures both == MatchingRoute(Some(map["id" := "7", "user" := "7"]), None)
  {
    assert Scan(edit, parts, 2, first) == (false, first);
    assert Scan(edit, parts, 0, NoMatchYet) == Scan(edit, parts, 2, first);
    assert Scan(view, parts, 2, both) == (true, both);
    assert Scan(view, parts, 0, first) == Scan(view, parts, 2, both);
  }

  // ---------------------------------------------------------------------
  // The route table
  // ---------------------------------------------------------------------

  /** `RoutedHandler`: the registered routes, in registration order. */
  class RoutedHandler {
    var routes: seq<Route>

    constructor ()
      ensures routes == []
    {
      routes := [];
    }

    /** Compiles `urlPattern` and appends the route; never rejects a pattern. */
    method AddRoute(urlPattern: string, handler: Handler) returns (err: Option<string>)
      modifies this
      ensures routes == old(routes) + [Route(CompilePattern(urlPattern), handler)]
      ensures err == None
    {
      var parts := UrlParts(urlPattern);
      var path: seq<PathElement> := [];
      for i := 0 to |parts|
        invariant |path| == i
        invariant forall k :: 0 <= k < i ==> path[k] == CompileSegment(parts[k])
      {
        if HasPrefix(parts[i], VariableMarker) {
          path := path + [PathElement(parts[i][1..], Variable)];
        } else {
          path := path + [PathElement(parts[i], Exact)];
        }
      }
      assert path == CompilePattern(urlPattern);
      routes := routes + [Route(path, handler)];
      err := None;
    }

    /** Scans the routes in order with one shared matching route; returns
        the first full match, or nothing. */
    method FindMatchingRoute(url: string) returns (r: Option<MatchingRoute>)
      ensures r == FindRoute(routes, url)
    {
      var urlParts := UrlParts(url);
      var matchingRoute := NoMatchYet;
      label Loop:
      for j := 0 to |routes|
        invariant FindRoute(routes, url) == FindFrom(routes, urlParts, j, matchingRoute)
      {
        var v := routes[j];
        if |urlParts| != |v.path| {
          continue;
        }
        ghost var before := matchingRoute;
        for ind := 0 to |urlParts|
          invariant Scan(v.path, urlParts, 0, before) == Scan(v.path, urlParts, ind, matchingRoute)
        {
          if urlParts[ind] != v.path[ind].val && v.path[ind].kind != Variable {
            continue Loop;
          }
          if v.path[ind].kind == Variable {
            matchingRoute := matchingRoute.AddPathParam(v.path[ind].val, urlParts[ind]);
          }
        }
        matchingRoute := matchingRoute.(handler := Some(v.handler));
        return Some(matchingRoute);
      }
      return None;
    }
  }

  /** The router's own test, restated as assertions about the route table:
      `/` and `/project/:projectId` are registered, then `/` and
      `/project/1` are looked up. */
  method TestRoute() returns (root: Option<MatchingRoute>, project: Option<MatchingRoute>)
    ensures root == Some(MatchingRoute(None, Some(1)))
    ensures project == Some(MatchingRoute(Some(map["projectId" := "1"]), Some(2)))
  {
    var rh := new RoutedHandler();
    var _ := rh.AddRoute("/", 1);
    var _ := rh.AddRoute("/project/:projectId", 2);
    assert rh.routes == ExampleRoutes(1, 2);
    RootExample(1, 2);
    ProjectExample(1, 2);
    root := rh.FindMatchingRoute("/");
    project := rh.FindMatchingRoute("/project/1");
  }
}
