/** The session cache of the MCP server, one operation at a time. */
module SessionCache {
  import opened Wrappers

  type Uuid = nat

  /** Nanoseconds on the monotonic clock. */
  type Instant = nat

  const SECOND: nat := 1_000_000_000
  const TTL: nat := 30 * 60 * SECOND
  const INTERVAL: nat := 5 * 60 * SECOND

  datatype Cached = Cached(sandbox: Uuid, accessed: Instant)

  type Sessions = map<string, Cached>

  /** `now.duration_since(accessed)`, which is zero for an access after `now`. */
  function Idle(now: Instant, accessed: Instant): nat {
    if accessed <= now then now - accessed else 0
  }

  predicate Stale(now: Instant, accessed: Instant) { Idle(now, accessed) >= TTL }

  function Lookup(m: Sessions, key: string): Option<Uuid> {
    if key in m then Some(m[key].sandbox) else None
  }

  function Touch(m: Sessions, key: string, now: Instant): Sessions {
    if key in m then m[key := m[key].(accessed := now)] else m
  }

  function Retain(m: Sessions, now: Instant): Sessions {
    map key | key in m && !Stale(now, m[key].accessed) :: m[key]
  }

  class SessionManager {
    var sessions: Sessions

    constructor ()
      ensures sessions == map[]
    {
      sessions := map[];
    }

    method Get(sessionId: string, now: Instant) returns (r: Option<Uuid>)
      modifies this
      ensures r == Lookup(old(sessions), sessionId)
      ensures sessions == Touch(old(sessions), sessionId, now)
    {
      if sessionId !in sessions { return None; }
      sessions := sessions[sessionId := sessions[sessionId].(accessed := now)];
      r := Some(sessions[sessionId].sandbox);
    }

    /** The time stamp is an argument of the insertion: it is taken before the entry is locked. */
    method Set(sessionId: string, sandboxId: Uuid, stamped: Instant)
      modifies this
      ensures sessions == old(sessions)[sessionId := Cached(sandboxId, stamped)]
    {
      sessions := sessions[sessionId := Cached(sandboxId, stamped)];
    }

    method Remove(sessionId: string) returns (r: Option<Uuid>)
      modifies this
      ensures r == Lookup(old(sessions), sessionId)
      ensures sessions == old(sessions) - {sessionId}
    {
      r := Lookup(sessions, sessionId);
      sessions := sessions - {sessionId};
    }

    method Clear()
      modifies this
      ensures sessions == map[]
    {
      sessions := map[];
    }

    /** `outcome` is what the DSB server answers if it is asked for a new sandbox. */
    method ResolveOrCreate(sessionId: string, outcome: Result<Uuid, string>, now: Instant)
      returns (r: Result<Uuid, string>)
      modifies this
      ensures sessionId in old(sessions) ==>
                r == Ok(old(sessions)[sessionId].sandbox) && sessions == Touch(old(sessions), sessionId, now)
      ensures sessionId !in old(sessions) ==> r == outcome
      ensures sessionId !in old(sessions) && outcome.Ok? ==>
                sessions == old(sessions)[sessionId := Cached(outcome.value, now)]
      ensures sessionId !in old(sessions) && outcome.Err? ==> sessions == old(sessions)
    {
      if sessionId in sessions {
        sessions := sessions[sessionId := sessions[sessionId].(accessed := now)];
        return Ok(sessions[sessionId].sandbox);
      }
      if outcome.Err? { return outcome; }
      sessions := sessions[sessionId := Cached(outcome.value, now)];
      r := outcome;
    }

    /** One tick of the cleanup task: entries are visited one by one and counted when dropped. */
    method Sweep(now: Instant) returns (evicted: nat)
      modifies this
      ensures sessions == Retain(old(sessions), now)
      ensures evicted + |sessions| == |old(sessions)|
    {
      ghost var before := sessions;
      var todo := sessions.Keys;
      evicted := 0;
      while todo != {}
        invariant todo <= sessions.Keys <= before.Keys
        invariant forall key | key in sessions :: sessions[key] == before[key]
        invariant forall key | key in before && key !in todo ::
                    key in sessions <==> !Stale(now, before[key].accessed)
        invariant evicted + |sessions| == |before|
        decreases todo
      {
        var key :| key in todo;
        todo := todo - {key};
        if Stale(now, sessions[key].accessed) {
          RemoveOne(sessions, key);
          sessions := sessions - {key};
          evicted := evicted + 1;
        }
      }
    }
  }

  lemma RemoveOne<K, V>(m: map<K, V>, k: K)
    requires k in m
    ensures |m - {k}| == |m| - 1
  {
    assert (m - {k}).Keys == m.Keys - {k};
    assert |(m - {k}).Keys| == |m - {k}| && |m.Keys| == |m|;
  }
}
