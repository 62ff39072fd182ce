/**
 * The web panel's `SessionManager`: a table of logged-in sessions keyed by an opaque id,
 * each with the time it was last used. A session stays valid while it is used more often
 * than the timeout (sliding expiry); an expired session is dropped when it is next
 * checked, or by the periodic sweep.
 */
module Sessions {
  import opened Wrappers

  /** Who a session belongs to and what they may do (null when the user entry holds a null permission). */
  datatype SessionData = SessionData(username: string, permission: Option<string>)

  /** Timeouts are configured in minutes and kept in milliseconds. */
  const MillisPerMinute: int := 60 * 1000

  /**
   * The one expiry boundary of the manager: a session last used at `last` is still
   * live at `now` when less than `timeout` milliseconds have passed.
   */
  predicate Live(last: int, timeout: int, now: int) {
    now - last < timeout
  }

  /** The manager's two maps, as values: the session data and the last access time of each id. */
  datatype Table = Table(sessions: map<string, SessionData>, lastAccess: map<string, int>) {
    /** Both maps hold the same ids. */
    predicate Aligned() {
      sessions.Keys == lastAccess.Keys
    }

    /** The id is known to both maps and has not expired at `now`. */
    predicate Admits(id: string, timeout: int, now: int) {
      id in sessions && id in lastAccess && Live(lastAccess[id], timeout, now)
    }
  }

  /** `createSession`: the new id maps to the user's data, last used now. */
  function Create(t: Table, username: string, permission: Option<string>, id: string, now: int): (r: Table)
    ensures t.Aligned() ==> r.Aligned()
  {
    Table(t.sessions[id := SessionData(username, permission)], t.lastAccess[id := now])
  }

  /**
   * `isValidSession`: the verdict, and the table afterwards. A live session has its
   * access time moved to now; a known but expired one is removed from both maps.
   */
  function Check(t: Table, timeout: int, id: Option<string>, now: int): (bool, Table) {
    if id.None? || id.value !in t.sessions || id.value !in t.lastAccess then (false, t)
    else if Live(t.lastAccess[id.value], timeout, now) then (true, Table(t.sessions, t.lastAccess[id.value := now]))
    else (false, Table(t.sessions - {id.value}, t.lastAccess - {id.value}))
  }

  /** `getSessionData`: the session's data exactly when the check admits it. */
  function Lookup(t: Table, timeout: int, id: Option<string>, now: int): (r: (Option<SessionData>, Table))
    ensures r.0.Some? <==> Check(t, timeout, id, now).0
    ensures r.0.Some? ==> id.Some? && id.value in t.sessions && r.0.value == t.sessions[id.value]
    ensures r.1 == Check(t, timeout, id, now).1
  {
    var (valid, t') := Check(t, timeout, id, now);
    if valid then (Some(t'.sessions[id.value]), t') else (None, t')
  }

  /** `removeSession`: a null id changes nothing; otherwise the id leaves both maps. */
  function Remove(t: Table, id: Option<string>): (r: Table)
    ensures t.Aligned() ==> r.Aligned()
  {
    if id.None? then t else Table(t.sessions - {id.value}, t.lastAccess - {id.value})
  }

  /** The ids whose last access is `timeout` or more milliseconds before `now`. */
  function Expired(lastAccess: map<string, int>, timeout: int, now: int): (r: set<string>)
    ensures r <= lastAccess.Keys
  {
    set id | id in lastAccess && !Live(lastAccess[id], timeout, now)
  }

  /** One pass of `cleanupExpiredSessions` at `now`. */
  function Sweep(t: Table, timeout: int, now: int): (r: Table)
    ensures t.Aligned() ==> r.Aligned()
  {
    var stale := Expired(t.lastAccess, timeout, now);
    Table(t.sessions - stale, t.lastAccess - stale)
  }

  /** A check keeps the two maps aligned and touches no other id. */
  lemma CheckFrame(t: Table, timeout: int, id: Option<string>, now: int, other: string)
    requires id.None? || other != id.value
    ensures t.Aligned() ==> Check(t, timeout, id, now).1.Aligned()
    ensures var t' := Check(t, timeout, id, now).1;
      (other in t'.sessions <==> other in t.sessions) && (other in t'.lastAccess <==> other in t.lastAccess) &&
      (other in t.sessions ==> t'.sessions[other] == t.sessions[other]) &&
      (other in t.lastAccess ==> t'.lastAccess[other] == t.lastAccess[other])
  {
  }

  /** The verdict of a check is exactly the live-session test. */
  lemma CheckVerdict(t: Table, timeout: int, id: Option<string>, now: int)
    ensures Check(t, timeout, id, now).0 <==> id.Some? && t.Admits(id.value, timeout, now)
  {
  }

  /**
   * Sliding expiry: once admitted at `now`, the session stays admitted exactly while
   * later checks come less than `timeout` after `now`, whenever it was last used before.
   */
  lemma CheckSlides(t: Table, timeout: int, id: string, now: int, later: int)
    requires Check(t, timeout, Some(id), now).0
    ensures Check(Check(t, timeout, Some(id), now).1, timeout, Some(id), later).0 <==> later - now < timeout
  {
  }

  /** A rejected id stays rejected at every later time (until it is created again). */
  lemma RejectionSticks(t: Table, timeout: int, id: string, now: int, later: int)
    requires t.Aligned()
    requires !Check(t, timeout, Some(id), now).0
    requires now <= later
    ensures !Check(Check(t, timeout, Some(id), now).1, timeout, Some(id), later).0
  {
  }

  /** A new session is admitted exactly until `timeout` milliseconds after its creation. */
  lemma CreateThenCheck(t: Table, timeout: int, username: string, permission: Option<string>, id: string, now: int, later: int)
    ensures var r := Lookup(Create(t, username, permission, id, now), timeout, Some(id), later);
      (r.0.Some? <==> later - now < timeout) &&
      (r.0.Some? ==> r.0.value == SessionData(username, permission))
  {
  }

  /** Creating a session changes no verdict about any other id. */
  lemma CreateKeepsOthers(t: Table, timeout: int, username: string, permission: Option<string>, id: string, now: int, other: string, later: int)
    requires other != id
    ensures Check(Create(t, username, permission, id, now), timeout, Some(other), later).0 == Check(t, timeout, Some(other), later).0
  {
  }

  /** After removal the id is rejected, and every other id keeps its verdict. */
  lemma RemoveThenCheck(t: Table, timeout: int, id: string, other: string, now: int)
    ensures !Check(Remove(t, Some(id)), timeout, Some(id), now).0
    ensures other != id ==> Check(Remove(t, Some(id)), timeout, Some(other), now).0 == Check(t, timeout, Some(other), now).0
  {
  }

  /**
   * The sweep and the lazy check share one boundary: a sweep at `now` removes exactly
   * the sessions the check would reject at `now`, so no verdict at `now` changes.
   */
  lemma SweepAgreesWithCheck(t: Table, timeout: int, now: int, id: string)
    requires t.Aligned()
    ensures id in Sweep(t, timeout, now).sessions <==> t.Admits(id, timeout, now)
    ensures Check(Sweep(t, timeout, now), timeout, Some(id), now).0 == Check(t, timeout, Some(id), now).0
  {
  }

  /** A session that survives the sweep keeps its data and its access time. */
  lemma SweepKeepsSurvivors(t: Table, timeout: int, now: int, id: string)
    requires id in Sweep(t, timeout, now).sessions
    ensures Sweep(t, timeout, now).sessions[id] == t.sessions[id]
    ensures id in t.lastAccess ==> Sweep(t, timeout, now).lastAccess[id] == t.lastAccess[id]
  {
  }

  class SessionManager {
    /** Session id -> who is logged in. */
    var sessions: map<string, SessionData>
    /** Session id -> the time of its last successful use, in milliseconds. */
    var lastAccess: map<string, int>
    /** The sliding-expiry timeout, in milliseconds. */
    var sessionTimeout: int

    ghost predicate Valid()
      reads this
    {
      sessions.Keys == lastAccess.Keys
    }

    function Current(): Table
      reads this
    {
      Table(sessions, lastAccess)
    }

    /** A manager with no sessions and a timeout of `minutes` minutes. */
    constructor (minutes: int)
      ensures sessions == map[] && lastAccess == map[]
      ensures sessionTimeout == minutes * MillisPerMinute
      ensures Valid()
    {
      sessions := map[];
      lastAccess := map[];
      sessionTimeout := minutes * MillisPerMinute;
    }

    /**
     * `createSession`: `id` stands for the random UUID the manager draws; the
     * session is stored under it with the current time.
     */
    method CreateSession(username: string, permission: Option<string>, id: string, now: int) returns (sessionId: string)
      requires Valid()
      modifies this
      ensures Valid() && sessionTimeout == old(sessionTimeout)
      ensures sessionId == id
      ensures Current() == Create(old(Current()), username, permission, id, now)
    {
      sessions := sessions[id := SessionData(username, permission)];
      lastAccess := lastAccess[id := now];
      sessionId := id;
    }

    /** `isValidSession`. */
    method IsValidSession(id: Option<string>, now: int) returns (valid: bool)
      requires Valid()
      modifies this
      ensures Valid() && sessionTimeout == old(sessionTimeout)
      ensures (valid, Current()) == Check(old(Current()), sessionTimeout, id, now)
    {
      if id.None? || id.value !in sessions || id.value !in lastAccess {
        return false;
      }
      var sid := id.value;
      var last := lastAccess[sid];
      valid := now - last < sessionTimeout;
      if valid {
        lastAccess := lastAccess[sid := now];
      } else {
        sessions := sessions - {sid};
        lastAccess := lastAccess - {sid};
      }
    }

    /** `getSessionData`: checks the session, then reads its data. */
    method GetSessionData(id: Option<string>, now: int) returns (data: Option<SessionData>)
      requires Valid()
      modifies this
      ensures Valid() && sessionTimeout == old(sessionTimeout)
      ensures (data, Current()) == Lookup(old(Current()), sessionTimeout, id, now)
    {
      var valid := IsValidSession(id, now);
      if !valid {
        return None;
      }
      data := Some(sessions[id.value]);
    }

    /** `removeSession`. */
    method RemoveSession(id: Option<string>)
      requires Valid()
      modifies this
      ensures Valid() && sessionTimeout == old(sessionTimeout)
      ensures Current() == Remove(old(Current()), id)
    {
      if id.None? {
        return;
      }
      sessions := sessions - {id.value};
      lastAccess := lastAccess - {id.value};
    }

    /** `setSessionTimeout`: the sessions themselves are untouched. */
    method SetSessionTimeout(minutes: int)
      modifies this
      ensures sessionTimeout == minutes * MillisPerMinute
      ensures sessions == old(sessions) && lastAccess == old(lastAccess)
    {
      sessionTimeout := minutes * MillisPerMinute;
    }

    /**
     * One pass of the cleanup thread's loop at time `now`: every entry of the
     * last-access map is visited once, in no particular order, and removed from both
     * maps when it has expired.
     */
    method CleanupPass(now: int)
      requires Valid()
      modifies this
      ensures Valid() && sessionTimeout == old(sessionTimeout)
      ensures Current() == Sweep(old(Current()), sessionTimeout, now)
    {
      ghost var stale := Expired(lastAccess, sessionTimeout, now);
      var pending := lastAccess.Keys;
      ghost var done: set<string> := {};
      while pending != {}
        invariant pending <= old(lastAccess).Keys && done == old(lastAccess).Keys - pending
        invariant sessions == old(sessions) - stale * done
        invariant lastAccess == old(lastAccess) - stale * done
        invariant sessionTimeout == old(sessionTimeout)
        decreases pending
      {
        var id :| id in pending;
        var last := lastAccess[id];
        if now - last >= sessionTimeout {
          assert stale * (done + {id}) == stale * done + {id};
          sessions := sessions - {id};
          lastAccess := lastAccess - {id};
        } else {
          assert stale * (done + {id}) == stale * done;
        }
        pending := pending - {id};
        done := done + {id};
      }
      assert stale * done == stale;
    }
  }
}
