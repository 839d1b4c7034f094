/** SSH session records and the service calls that edit them. */
module SshRecords {
  import opened Wrappers

  type Uuid = nat

  /** Nanoseconds on the clock shared by the server and its database. */
  type Time = int

  const SECOND: int := 1_000_000_000
  const I32_RANGE: int := 0x1_0000_0000

  datatype SshState = Connecting | Active | Disconnected | Terminated | Error

  predicate IsTerminal(s: SshState) { s.Disconnected? || s.Terminated? || s.Error? }

  datatype AuthMethod = ApiKey | Certificate

  /** Who is connected to what, since when: fixed at creation. */
  datatype Identity = Identity(
    id: Uuid, sandboxId: Uuid, clientIp: string, sshVersion: Option<string>, authMethod: AuthMethod)

  datatype Pty = Pty(
    sshSessionId: Option<string>, execId: Option<string>, term: Option<string>, rows: Option<int>, cols: Option<int>)

  const NO_PTY := Pty(None, None, None, None, None)

  datatype SshSession = SshSession(
    who: Identity, pty: Pty, state: SshState,
    connectedAt: Time, disconnectedAt: Option<Time>, lastActivityAt: Time,
    bytesSent: int, bytesReceived: int,
    durationSeconds: Option<int>, terminationReason: Option<string>,
    createdAt: Time, updatedAt: Time)

  /** `TimeDelta::num_seconds`: whole seconds, rounded toward zero. */
  function WholeSeconds(d: int): int { if d >= 0 then d / SECOND else -((-d) / SECOND) }

  /** The cast `as i32`: the low 32 bits, read as a signed number. */
  function AsI32(n: int): int { (n + I32_RANGE / 2) % I32_RANGE - I32_RANGE / 2 }

  function DurationBetween(from: Time, to: Time): int { AsI32(WholeSeconds(to - from)) }

  function NewSession(who: Identity, now: Time): SshSession {
    SshSession(who, NO_PTY, Connecting, now, None, now, 0, 0, None, None, now, now)
  }

  datatype Call =
    | MarkActive(pty: Pty)
    | UpdateActivity(sent: int, received: int)
    | Disconnect
    | Terminate(reason: string)

  function Close(r: SshSession, at: Time): SshSession {
    r.(disconnectedAt := Some(at), durationSeconds := Some(DurationBetween(r.connectedAt, at)))
  }

  /**
   What a call makes of the record it has read. `first` and `second` are the clock readings in the
   order in which the call takes them; `None` means that the call leaves the record alone.
   */
  function Edited(call: Call, r: SshSession, first: Time, second: Time): Option<SshSession> {
    match call
    case MarkActive(pty) => Some(r.(state := Active, pty := pty, updatedAt := first))
    case UpdateActivity(sent, received) =>
      Some(r.(lastActivityAt := first, bytesSent := sent, bytesReceived := received, updatedAt := second))
    case Disconnect =>
      if IsTerminal(r.state) then None else Some(Close(r, first).(state := Disconnected, updatedAt := second))
    case Terminate(reason) =>
      Some(Close(r, first).(state := Terminated, terminationReason := Some(reason), updatedAt := second))
  }

  type Rows = map<Uuid, SshSession>

  /** The store's UPDATE: no row, no effect; `created_at` is kept and `updated_at` is the statement's time stamp. */
  function WriteRow(rows: Rows, r: SshSession, stamp: Time): Rows {
    if r.who.id in rows then rows[r.who.id := r.(createdAt := rows[r.who.id].createdAt, updatedAt := stamp)] else rows
  }

  predicate BulkHits(r: SshSession, sandbox: Uuid) {
    r.who.sandboxId == sandbox && (r.state.Connecting? || r.state.Active?)
  }

  /** What the store's bulk UPDATE for a deleted sandbox does to a row; it does not compute a duration. */
  function BulkRow(r: SshSession, sandbox: Uuid, stamp: Time): SshSession {
    if BulkHits(r, sandbox) then
      r.(state := Terminated, disconnectedAt := Some(stamp), terminationReason := Some("Sandbox deleted"), updatedAt := stamp)
    else r
  }

  // ---------- durations ----------

  /** The stored duration is the true span exactly while the span is below 2^31 seconds. */
  lemma DurationTrueIff(from: Time, to: Time)
    requires from <= to
    ensures DurationBetween(from, to) == (to - from) / SECOND <==> (to - from) / SECOND < I32_RANGE / 2
  {}

  /** Seconds are 10^9 ns, the rest is dropped, and the result wraps into 32 bits. */
  lemma DurationLaws(from: Time, to: Time)
    requires from <= to
    ensures exists seconds: int ::
              && seconds * 1_000_000_000 <= to - from < (seconds + 1) * 1_000_000_000
              && DurationBetween(from, to) % 4_294_967_296 == seconds % 4_294_967_296
              && -2_147_483_648 <= DurationBetween(from, to) <= 2_147_483_647
  {
    var seconds := (to - from) / SECOND;
    assert seconds * 1_000_000_000 <= to - from < (seconds + 1) * 1_000_000_000;
    WrapLaws(seconds);
  }

  lemma WrapLaws(n: int)
    ensures AsI32(n) % 4_294_967_296 == n % 4_294_967_296 && -2_147_483_648 <= AsI32(n) <= 2_147_483_647
  {}

  lemma SecondsMonotone(a: int, b: int)
    requires 0 <= a <= b
    ensures a / SECOND <= b / SECOND
  {}

  // ---------- what a record always satisfies ----------

  /** The facts that hold of every copy of a record, stored or on its way to the store. */
  predicate CopyInv(r: SshSession, now: Time) {
    && r.connectedAt == r.createdAt <= r.lastActivityAt <= now
    && !r.state.Error?
    && (r.state.Connecting? ==> r.pty == NO_PTY && r.disconnectedAt == None && r.terminationReason == None)
    && (r.state.Disconnected? || r.state.Terminated? ==> r.disconnectedAt.Some?)
    && (r.state.Terminated? ==> r.terminationReason.Some?)
    && (r.disconnectedAt.Some? ==> r.connectedAt <= r.disconnectedAt.value <= now)
    && (r.durationSeconds.Some? ==> r.disconnectedAt.Some?)
    && (r.state.Disconnected? ==> DurationExact(r))
  }

  /** The stored record: besides, its creation and its end are not later than its last update. */
  predicate RowInv(r: SshSession, now: Time) {
    && CopyInv(r, now) && r.createdAt <= r.updatedAt <= now
    && (r.disconnectedAt.Some? ==> r.disconnectedAt.value <= r.updatedAt)
  }

  /** The last activity is not later than the last update. */
  predicate ActivityRecorded(r: SshSession) { r.lastActivityAt <= r.updatedAt }

  /** The duration is present with the end of the session and is their difference. */
  predicate DurationExact(r: SshSession) {
    && (r.durationSeconds.Some? <==> r.disconnectedAt.Some?)
    && (r.disconnectedAt.Some? ==> r.durationSeconds == Some(DurationBetween(r.connectedAt, r.disconnectedAt.value)))
  }

  lemma EditedInv(call: Call, r: SshSession, first: Time, second: Time)
    requires CopyInv(r, first) && first <= second && Edited(call, r, first, second).Some?
    ensures var e := Edited(call, r, first, second).value;
            CopyInv(e, second) && e.who == r.who && e.connectedAt == r.connectedAt && (DurationExact(r) ==> DurationExact(e))
  {}

  /** The row's fields after the bulk statement, one by one. */
  lemma BulkFields(r: SshSession, sandbox: Uuid, stamp: Time)
    ensures var b := BulkRow(r, sandbox, stamp);
            && b.who == r.who && b.pty == r.pty && b.connectedAt == r.connectedAt && b.lastActivityAt == r.lastActivityAt
            && b.bytesSent == r.bytesSent && b.bytesReceived == r.bytesReceived
            && b.durationSeconds == r.durationSeconds && b.createdAt == r.createdAt
            && if r.who.sandboxId == sandbox && (r.state == Connecting || r.state == Active) then
                 && b.state == Terminated && b.disconnectedAt == Some(stamp)
                 && b.terminationReason == Some("Sandbox deleted") && b.updatedAt == stamp
               else b == r
  {}

  /**
   The bulk statement keeps the duration exact for a row if and only if it does not hit the row, or the
   row was closed before and reopened, with the same number of seconds up to the earlier end.
   */
  lemma BulkKeepsDurationIff(r: SshSession, sandbox: Uuid, stamp: Time)
    requires DurationExact(r)
    ensures DurationExact(BulkRow(r, sandbox, stamp)) <==>
            || !BulkHits(r, sandbox)
            || (r.disconnectedAt.Some? &&
                DurationBetween(r.connectedAt, r.disconnectedAt.value) == DurationBetween(r.connectedAt, stamp))
  {}
}
