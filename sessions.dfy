/**
 * The server-side session store of `snweb` (session_manager.go).
 *
 * A process-wide map from session id to session. A request names its
 * session through the `SID` cookie; here the cookie is its value, or
 * `None` when the request has no such cookie. The random id drawn by
 * `generateSid` is an input: `None` when reading the random source
 * failed, else its URL-safe encoding.
 */
module Sessions {
  import opened Wrappers

  /** A session; `user` is the opaque user payload, `None` for Go's nil. */
  datatype Session<U> = Session(sid: string, user: Option<U>)
  {
    predicate IsLoggedIn()
    {
      user.Some?
    }

    /** The view of the user a page renders from. */
    function GetUserRenderInfo(): (info: UserRenderInfo<U>)
      ensures info.loggedIn == IsLoggedIn()
      ensures info.details == (if IsLoggedIn() then user else None)
      ensures info.loggedIn <==> info.details.Some?
    {
      if user.None? then UserRenderInfo(false, None)
      else UserRenderInfo(true, user)
    }
  }

  datatype UserRenderInfo<U> = UserRenderInfo(loggedIn: bool, details: Option<U>)

  /** What `new(Session)` yields: no id, no user. */
  function Anonymous<U>(): (s: Session<U>)
    ensures !s.IsLoggedIn() && s.sid == ""
  {
    Session("", None)
  }

  /** `generateSid`: the encoded random bytes, or the empty string when the
      random source could not be read. */
  function GenerateSid(randomSid: Option<string>): (sid: string)
    ensures sid == "" <==> randomSid.None? || randomSid.value == ""
    ensures randomSid.Some? ==> sid == randomSid.value
  {
    if randomSid.None? then "" else randomSid.value
  }

  /** Every key of the store is the id of the session stored under it. */
  ghost predicate KeysAreSids<U>(sessions: map<string, Session<U>>)
  {
    forall sid :: sid in sessions ==> sessions[sid].sid == sid
  }

  /** The store `sessionMap`. */
  class SessionStore<U> {
    var sessionMap: map<string, Session<U>>

    ghost predicate Valid()
      reads this
    {
      KeysAreSids(sessionMap)
    }

    constructor ()
      ensures Valid() && sessionMap == map[]
    {
      sessionMap := map[];
    }

    /** `InitSession`: stores a new session for `userInfo` under a generated
        id, overwriting any session already stored under that id, and
        returns the id, which is the value of the `SID` cookie it sets. */
    method InitSession(randomSid: Option<string>, userInfo: Option<U>) returns (cookieValue: string)
      requires Valid()
      modifies this
      ensures Valid()
      ensures cookieValue == GenerateSid(randomSid)
      ensures sessionMap == old(sessionMap)[cookieValue := Session(cookieValue, userInfo)]
      ensures GetSessionForRequest(Some(cookieValue)) == Session(cookieValue, userInfo)
      ensures GetSessionForRequest(Some(cookieValue)).IsLoggedIn() <==> userInfo.Some?
    {
      var generatedSid := GenerateSid(randomSid);
      var session := Session(generatedSid, userInfo);
      sessionMap := sessionMap[generatedSid := session];
      cookieValue := session.sid;
    }

    /** `ClearSession`: with a `SID` cookie, removes the session it names
        (if any); without one, does nothing. */
    method ClearSession(cookie: Option<string>)
      requires Valid()
      modifies this
      ensures Valid()
      ensures cookie.None? ==> sessionMap == old(sessionMap)
      ensures cookie.Some? ==> sessionMap == old(sessionMap) - {cookie.value}
      ensures GetSessionForRequest(cookie) == Anonymous()
    {
      if cookie.None? {
        return;
      }
      sessionMap := sessionMap - {cookie.value};
    }

    /** `GetSessionForRequest`: the session the cookie names, or a fresh
        anonymous session when there is no cookie or the id is unknown. */
    function GetSessionForRequest(cookie: Option<string>): (session: Session<U>)
      reads this
      ensures cookie.Some? && cookie.value in sessionMap ==> session == sessionMap[cookie.value]
      ensures cookie.None? || cookie.value !in sessionMap ==> session == Anonymous()
      ensures session.IsLoggedIn() ==> cookie.Some? && cookie.value in sessionMap
      ensures Valid() && cookie.Some? && cookie.value in sessionMap ==> session.sid == cookie.value
    {
      if cookie.None? then Anonymous()
      else if cookie.value in sessionMap then sessionMap[cookie.value]
      else Anonymous()
    }
  }

  /** A request's session lifecycle: log in, look up, log out, look up,
      log out again. */
  method SessionLifecycle<U>(store: SessionStore<U>, randomSid: Option<string>, user: U)
    requires store.Valid()
    modifies store
    ensures store.Valid()
    ensures store.sessionMap == old(store.sessionMap) - {GenerateSid(randomSid)}
  {
    var sid := store.InitSession(randomSid, Some(user));
    var session := store.GetSessionForRequest(Some(sid));
    assert session.IsLoggedIn() && session.user == Some(user);
    store.ClearSession(Some(sid));
    var after := store.GetSessionForRequest(Some(sid));
    assert !after.IsLoggedIn();
    ghost var cleared := store.sessionMap;
    store.ClearSession(Some(sid));
    assert store.sessionMap == cleared;
  }
}
