/** The service, one call at a time. */
module SshService {
  import opened SshRecords
  import opened Wrappers

  datatype ServiceError =
    | SandboxNotFound(sandbox: Uuid)
    | SandboxNotRunning(sandbox: Uuid)
    | SessionNotFound(id: Uuid)
    | DatabaseError

  /** What the sandbox service says, if there is one. */
  datatype SandboxCheck = Unchecked | Missing | Found(running: bool)

  type Outcome = Result<(), ServiceError>

  /** The sessions for which some call of a phase succeeded. */
  function EndedIds(listed: seq<SshSession>, outcomes: seq<Outcome>): set<Uuid>
    requires |outcomes| <= |listed|
  {
    set i | 0 <= i < |outcomes| && outcomes[i].Ok? :: listed[i].who.id
  }

  function Listed(q: Result<seq<SshSession>, ServiceError>): seq<SshSession> {
    if q.Ok? then q.value else []
  }

  function Ended(q: Result<seq<SshSession>, ServiceError>, outcomes: seq<Outcome>): set<Uuid>
    requires |outcomes| == |Listed(q)|
  {
    EndedIds(Listed(q), outcomes)
  }

  /** One outcome per listed session: it is missing, or its write failed, or it was terminated. */
  predicate Attempted(rows: Rows, listed: seq<SshSession>, outcomes: seq<Outcome>) {
    && |outcomes| == |listed|
    && forall i | 0 <= i < |listed| ::
         if listed[i].who.id in rows then outcomes[i] in {Ok(()), Err(DatabaseError)}
         else outcomes[i] == Err(SessionNotFound(listed[i].who.id))
  }

  /** `now` is `was` after a termination at some moment of the given interval. */
  predicate TerminatedFrom(was: SshSession, now: SshSession, reason: string, from: Time, to: Time) {
    && now.disconnectedAt.Some? && from <= now.disconnectedAt.value <= now.updatedAt <= to
    && now == Close(was, now.disconnectedAt.value)
              .(state := Terminated, terminationReason := Some(reason), updatedAt := now.updatedAt)
  }

  /** What a call on one session amounts to, with its two clock readings and the time of writing. */
  predicate CallDone(before: Rows, after: Rows, id: Uuid, call: Call, first: Time, second: Time, written: Time, r: Outcome) {
    && first <= second <= written
    && (id !in before ==> r == Err(SessionNotFound(id)) && after == before)
    && (id in before ==>
          var edited := Edited(call, before[id], first, second);
          if edited == None then r == Ok(()) && after == before
          else
            || (r == Ok(()) && after == WriteRow(before, edited.value, written))
            || (r == Err(DatabaseError) && after == before))
  }

  /** The fields that a termination sets, and those that it leaves alone. */
  lemma TerminatedFields(was: SshSession, now: SshSession, reason: string, from: Time, to: Time)
    requires TerminatedFrom(was, now, reason, from, to)
    ensures now.state == Terminated && now.terminationReason == Some(reason)
    ensures now.disconnectedAt.Some? && from <= now.disconnectedAt.value <= now.updatedAt <= to
    ensures now.durationSeconds == Some(DurationBetween(was.connectedAt, now.disconnectedAt.value))
    ensures now.who == was.who && now.pty == was.pty && now.connectedAt == was.connectedAt
    ensures now.lastActivityAt == was.lastActivityAt && now.createdAt == was.createdAt
    ensures now.bytesSent == was.bytesSent && now.bytesReceived == was.bytesReceived
  {}

  /** What no call changes. */
  predicate SameOrigin(a: SshSession, b: SshSession) {
    a.who == b.who && a.connectedAt == b.connectedAt && a.createdAt == b.createdAt
  }

  predicate SameTraffic(a: SshSession, b: SshSession) {
    a.lastActivityAt == b.lastActivityAt && a.bytesSent == b.bytesSent && a.bytesReceived == b.bytesReceived
  }

  predicate SameClosing(a: SshSession, b: SshSession) {
    a.disconnectedAt == b.disconnectedAt && a.durationSeconds == b.durationSeconds
  }

  /** The record of a session after a call that succeeded, field by field. */
  lemma CallFields(before: Rows, after: Rows, id: Uuid, call: Call, first: Time, second: Time, written: Time)
    requires CallDone(before, after, id, call, first, second, written, Ok(()))
    requires id in before && before[id].who.id == id
    ensures after.Keys == before.Keys && forall k | k in before && k != id :: after[k] == before[k]
    ensures SameOrigin(after[id], before[id])
    ensures var (a, b) := (after[id], before[id]);
            match call
            case MarkActive(pty) =>
              && a.state == Active && a.pty == pty && a.updatedAt == written
              && SameTraffic(a, b) && SameClosing(a, b) && a.terminationReason == b.terminationReason
            case UpdateActivity(sent, received) =>
              && a.lastActivityAt == first && a.bytesSent == sent && a.bytesReceived == received && a.updatedAt == written
              && a.state == b.state && a.pty == b.pty && SameClosing(a, b) && a.terminationReason == b.terminationReason
            case Disconnect =>
              if b.state == Disconnected || b.state == Terminated || b.state == Error then a == b
              else
                && a.state == Disconnected && a.disconnectedAt == Some(first) && a.updatedAt == written
                && a.durationSeconds == Some(DurationBetween(b.connectedAt, first))
                && a.pty == b.pty && SameTraffic(a, b) && a.terminationReason == b.terminationReason
            case Terminate(reason) =>
              && a.state == Terminated && a.disconnectedAt == Some(first) && a.updatedAt == written
              && a.durationSeconds == Some(DurationBetween(b.connectedAt, first))
              && a.terminationReason == Some(reason) && a.pty == b.pty && SameTraffic(a, b)
  {}

  /** Exactly the rows of `ids` have been terminated, each at some moment of the interval. */
  ghost predicate PhaseDone(was: Rows, now: Rows, ids: set<Uuid>, reason: string, from: Time, to: Time) {
    && now.Keys == was.Keys
    && forall id | id in was ::
         if id in ids then TerminatedFrom(was[id], now[id], reason, from, to) else now[id] == was[id]
  }

  /** A second termination overwrites the first one entirely. */
  lemma PhaseGrows(was: Rows, mid: Rows, now: Rows, ids: set<Uuid>, more: set<Uuid>, reason: string, t: Time, u: Time, v: Time)
    requires t <= u <= v
    requires PhaseDone(was, mid, ids, reason, t, u) && PhaseDone(mid, now, more, reason, u, v)
    ensures PhaseDone(was, now, ids + more, reason, t, v)
  {
    forall id | id in was
      ensures if id in ids + more then TerminatedFrom(was[id], now[id], reason, t, v) else now[id] == was[id]
    {}
  }

  const IDLE_TIMEOUT := "Idle timeout"
  const CONNECT_TIMEOUT := "Connection timeout - stuck in connecting state"
  const SANDBOX_GONE := "Sandbox no longer running"

  lemma EndedGrows(listed: seq<SshSession>, outcomes: seq<Outcome>, outcome: Outcome)
    requires |outcomes| < |listed|
    ensures EndedIds(listed, outcomes + [outcome])
         == EndedIds(listed, outcomes) + (if outcome.Ok? then {listed[|outcomes|].who.id} else {})
  {
    var more := outcomes + [outcome];
    forall id | id in EndedIds(listed, outcomes) ensures id in EndedIds(listed, more) {
      var i :| 0 <= i < |outcomes| && outcomes[i].Ok? && listed[i].who.id == id;
      assert more[i] == outcomes[i];
    }
    if outcome.Ok? { assert more[|outcomes|].Ok?; }
  }

  /** Where no write failed, a phase terminated exactly the listed sessions that exist. */
  lemma EndedWithoutFailures(rows: Rows, listed: seq<SshSession>, outcomes: seq<Outcome>)
    requires Attempted(rows, listed, outcomes) && Err(DatabaseError) !in outcomes
    ensures forall id :: id in EndedIds(listed, outcomes) <==> id in rows && exists r :: r in listed && r.who.id == id
  {
    forall id ensures id in EndedIds(listed, outcomes) <==> id in rows && exists r :: r in listed && r.who.id == id {
      if id in EndedIds(listed, outcomes) {
        var i :| 0 <= i < |outcomes| && outcomes[i].Ok? && listed[i].who.id == id;
        assert listed[i] in listed;
      }
      if id in rows && exists r :: r in listed && r.who.id == id {
        var i :| 0 <= i < |listed| && listed[i].who.id == id;
        assert outcomes[i] in outcomes;
        assert outcomes[i].Ok?;
      }
    }
  }

  class SshSessionService {
    var rows: Rows
    var clock: Time

    predicate Keyed()
      reads this
    {
      forall id | id in rows :: rows[id].who.id == id
    }

    constructor ()
      ensures rows == map[] && Keyed()
    {
      rows, clock := map[], 0;
    }

    method Now() returns (t: Time)
      modifies `clock
      ensures t == clock >= old(clock)
    {
      var elapsed: nat :| true;
      clock := clock + elapsed;
      t := clock;
    }

    method CreateSession(who: Identity, sandbox: SandboxCheck) returns (r: Result<SshSession, ServiceError>)
      requires Keyed() && who.id !in rows
      modifies `rows, `clock
      ensures Keyed() && clock >= old(clock)
      ensures sandbox.Missing? ==> r == Err(SandboxNotFound(who.sandboxId))
      ensures sandbox == Found(false) ==> r == Err(SandboxNotRunning(who.sandboxId))
      ensures r.Ok? ==> r.value == NewSession(who, clock) && rows == old(rows)[who.id := r.value]
      ensures r.Ok? ==>
                && r.value.who == who && r.value.state == Connecting && r.value.pty == Pty(None, None, None, None, None)
                && r.value.connectedAt == r.value.lastActivityAt == r.value.createdAt == r.value.updatedAt == clock
                && r.value.bytesSent == r.value.bytesReceived == 0
                && r.value.disconnectedAt == None && r.value.durationSeconds == None && r.value.terminationReason == None
      ensures r.Err? ==> rows == old(rows)
      ensures sandbox.Unchecked? || sandbox == Found(true) ==> r.Ok? || r == Err(DatabaseError)
    {
      if sandbox.Missing? { return Err(SandboxNotFound(who.sandboxId)); }
      if sandbox.Found? && !sandbox.running { return Err(SandboxNotRunning(who.sandboxId)); }
      var now := Now();
      var session := NewSession(who, now);
      var stored := StoreAnswers();
      if !stored { return Err(DatabaseError); }
      rows := rows[who.id := session];
      r := Ok(session);
    }

    /** The stored record is found under the id that it carries. */
    method GetSession(id: Uuid) returns (r: Result<SshSession, ServiceError>)
      requires Keyed()
      ensures r.Ok? ==> r.value.who.id == id
      ensures r == if id in rows then Ok(rows[id]) else Err(SessionNotFound(id))
    {
      if id in rows { r := Ok(rows[id]); } else { r := Err(SessionNotFound(id)); }
    }

    /** The database may fail at any statement. */
    method StoreAnswers() returns (ok: bool) {
      ok := *;
    }

    method UpdateRow(session: SshSession) returns (r: Outcome)
      modifies `rows, `clock
      ensures clock >= old(clock)
      ensures r == Ok(()) || r == Err(DatabaseError)
      ensures rows == if r.Ok? then WriteRow(old(rows), session, clock) else old(rows)
    {
      var now := Now();
      var stored := StoreAnswers();
      if !stored { return Err(DatabaseError); }
      rows := WriteRow(rows, session, now);
      r := Ok(());
    }

    method MarkSessionActive(id: Uuid, pty: Pty) returns (r: Outcome, ghost first: Time)
      requires Keyed()
      modifies `rows, `clock
      ensures Keyed() && old(clock) <= first
      ensures CallDone(old(rows), rows, id, MarkActive(pty), first, first, clock, r)
    {
      first := clock;
      var got := GetSession(id);
      if got.Err? { return Err(got.error), first; }
      var session := got.value;
      session := session.(state := Active);
      session := session.(pty := pty);
      var t := Now();
      first := t;
      session := session.(updatedAt := t);
      r := UpdateRow(session);
    }

    method UpdateSessionActivity(id: Uuid, sent: int, received: int)
      returns (r: Outcome, ghost first: Time, ghost second: Time)
      requires Keyed()
      modifies `rows, `clock
      ensures Keyed() && old(clock) <= first
      ensures CallDone(old(rows), rows, id, UpdateActivity(sent, received), first, second, clock, r)
    {
      first, second := clock, clock;
      var got := GetSession(id);
      if got.Err? { return Err(got.error), first, second; }
      var session := got.value;
      var t := Now();
      session := session.(lastActivityAt := t);
      session := session.(bytesSent := sent, bytesReceived := received);
      var u := Now();
      session := session.(updatedAt := u);
      first, second := t, u;
      r := UpdateRow(session);
    }

    method DisconnectSession(id: Uuid) returns (r: Outcome, ghost first: Time, ghost second: Time)
      requires Keyed()
      modifies `rows, `clock
      ensures Keyed() && old(clock) <= first
      ensures CallDone(old(rows), rows, id, Disconnect, first, second, clock, r)
    {
      first, second := clock, clock;
      var got := GetSession(id);
      if got.Err? { return Err(got.error), first, second; }
      var session := got.value;
      if IsTerminal(session.state) { return Ok(()), first, second; }
      session := session.(state := Disconnected);
      var t := Now();
      session := session.(disconnectedAt := Some(t));
      var u := Now();
      session := session.(updatedAt := u);
      var duration := session.disconnectedAt.value - session.connectedAt;
      session := session.(durationSeconds := Some(AsI32(WholeSeconds(duration))));
      first, second := t, u;
      r := UpdateRow(session);
    }

    method TerminateSession(id: Uuid, reason: string)
      returns (r: Outcome, ghost first: Time, ghost second: Time)
      requires Keyed()
      modifies `rows, `clock
      ensures Keyed() && old(clock) <= first
      ensures CallDone(old(rows), rows, id, Terminate(reason), first, second, clock, r)
    {
      first, second := clock, clock;
      var got := GetSession(id);
      if got.Err? { return Err(got.error), first, second; }
      var session := got.value;
      session := session.(state := Terminated);
      var t := Now();
      session := session.(disconnectedAt := Some(t));
      session := session.(terminationReason := Some(reason));
      var u := Now();
      session := session.(updatedAt := u);
      var duration := session.disconnectedAt.value - session.connectedAt;
      session := session.(durationSeconds := Some(AsI32(WholeSeconds(duration))));
      first, second := t, u;
      r := UpdateRow(session);
    }

    /** A termination whose outcome is only logged: its effect on every row. */
    method TryTerminate(id: Uuid, reason: string) returns (r: Outcome)
      requires Keyed()
      modifies `rows, `clock
      ensures Keyed() && clock >= old(clock)
      ensures id !in old(rows) ==> r == Err(SessionNotFound(id))
      ensures id in old(rows) ==> r in {Ok(()), Err(DatabaseError)}
      ensures PhaseDone(old(rows), rows, if r.Ok? then {id} else {}, reason, old(clock), clock)
    {
      ghost var first, second;
      r, first, second := TerminateSession(id, reason);
    }

    /** One phase of the cleanup: every listed session is attempted, failures notwithstanding. */
    method TerminateListed(query: Result<seq<SshSession>, ServiceError>, reason: string)
      returns (ghost outcomes: seq<Outcome>)
      requires Keyed()
      modifies `rows, `clock
      ensures Keyed() && clock >= old(clock)
      ensures Attempted(old(rows), Listed(query), outcomes)
      ensures PhaseDone(old(rows), rows, Ended(query, outcomes), reason, old(clock), clock)
    {
      outcomes := [];
      if query.Err? { return; }
      var listed := query.value;
      for i := 0 to |listed|
        invariant Keyed() && clock >= old(clock) && |outcomes| == i
        invariant Attempted(old(rows), listed[..i], outcomes)
        invariant PhaseDone(old(rows), rows, EndedIds(listed, outcomes), reason, old(clock), clock)
      {
        var id := listed[i].who.id;
        ghost var before, from, ended := rows, clock, EndedIds(listed, outcomes);
        var outcome := TryTerminate(id, reason);
        PhaseGrows(old(rows), before, rows, ended, if outcome.Ok? then {id} else {}, reason, old(clock), from, clock);
        EndedGrows(listed, outcomes, outcome);
        outcomes := outcomes + [outcome];
      }
      assert listed[..|listed|] == listed;
    }

    /**
     One pass of the cleanup task over whatever the three queries return. A query may fail, list a
     session twice, or list one that no longer exists; every single write may fail.
     */
    method CleanupPass(stale: Result<seq<SshSession>, ServiceError>, stuck: Result<seq<SshSession>, ServiceError>,
                       orphaned: Result<seq<SshSession>, ServiceError>)
      returns (ghost idle: seq<Outcome>, ghost connecting: seq<Outcome>, ghost gone: seq<Outcome>)
      requires Keyed()
      modifies `rows, `clock
      ensures Keyed() && clock >= old(clock) && rows.Keys == old(rows.Keys)
      ensures Attempted(old(rows), Listed(stale), idle)
      ensures Attempted(old(rows), Listed(stuck), connecting)
      ensures Attempted(old(rows), Listed(orphaned), gone)
      ensures forall id | id in rows ::
                if id in Ended(orphaned, gone) then
                  TerminatedFrom(old(rows)[id], rows[id], "Sandbox no longer running", old(clock), clock)
                else if id in Ended(stuck, connecting) then
                  TerminatedFrom(old(rows)[id], rows[id], "Connection timeout - stuck in connecting state", old(clock), clock)
                else if id in Ended(stale, idle) then
                  TerminatedFrom(old(rows)[id], rows[id], "Idle timeout", old(clock), clock)
                else rows[id] == old(rows)[id]
    {
      idle := TerminateListed(stale, IDLE_TIMEOUT);
      connecting := TerminateListed(stuck, CONNECT_TIMEOUT);
      gone := TerminateListed(orphaned, SANDBOX_GONE);
    }
  }
}
