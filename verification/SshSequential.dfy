/** Calls that do not overlap: one record under a sequence of whole calls. */
module SshSequential {
  import opened SshRecords
  import opened SshService
  import opened Wrappers

  /** A call with the moments at which it reads the clock and at which the row is written. */
  datatype Timed = Timed(call: Call, first: Time, second: Time, written: Time)

  function Called(r: SshSession, t: Timed): SshSession {
    match Edited(t.call, r, t.first, t.second)
    case None => r
    case Some(e) => e.(updatedAt := t.written)
  }

  /** A call of the service that succeeds does this to its session, and nothing to others. */
  lemma ServiceCallIsCalled(before: Rows, after: Rows, id: Uuid, t: Timed, r: Outcome)
    requires CallDone(before, after, id, t.call, t.first, t.second, t.written, r)
    requires id in before && before[id].who.id == id && r.Ok?
    ensures after == before[id := Called(before[id], t)]
  {}

  ghost function AfterCalls(r: SshSession, calls: seq<Timed>): SshSession
    decreases calls
  {
    if calls == [] then r else AfterCalls(Called(r, calls[0]), calls[1..])
  }

  /** The clock does not run backwards. */
  ghost predicate InOrder(now: Time, calls: seq<Timed>)
    decreases calls
  {
    calls == [] || (now <= calls[0].first <= calls[0].second <= calls[0].written && InOrder(calls[0].written, calls[1..]))
  }

  ghost predicate NeverReopens(r: SshSession, calls: seq<Timed>)
    decreases calls
  {
    calls == [] || (!(calls[0].call.MarkActive? && IsTerminal(r.state)) && NeverReopens(Called(r, calls[0]), calls[1..]))
  }

  ghost predicate EndsBefore(calls: seq<Timed>, end: Time) { forall t | t in calls :: t.written < end }

  function Rank(s: SshState): nat {
    match s
    case Connecting => 0
    case Active => 1
    case Disconnected => 2
    case Terminated => 3
    case Error => 4
  }

  /** A single call lowers the rank if and only if it marks a closed session active. */
  lemma RankFallsIff(r: SshSession, t: Timed)
    requires !r.state.Error?
    ensures Rank(Called(r, t).state) < Rank(r.state) <==> t.call.MarkActive? && IsTerminal(r.state)
  {}

  predicate NoShorter(a: Option<int>, b: Option<int>) { a.Some? ==> b.Some? && a.value <= b.value }

  lemma CalledInv(r: SshSession, t: Timed, now: Time)
    requires RowInv(r, now) && DurationExact(r) && now <= t.first <= t.second <= t.written
    ensures RowInv(Called(r, t), t.written) && DurationExact(Called(r, t)) && Called(r, t).connectedAt == r.connectedAt
  {
    if Edited(t.call, r, t.first, t.second).Some? { EditedInv(t.call, r, t.first, t.second); }
  }

  lemma DurationGrows(r: SshSession, t: Timed, now: Time)
    requires RowInv(r, now) && DurationExact(r) && now <= t.first <= t.second <= t.written
    requires t.written < r.connectedAt + I32_RANGE / 2 * SECOND
    ensures NoShorter(r.durationSeconds, Called(r, t).durationSeconds)
  {
    var c := Called(r, t);
    if r.disconnectedAt.Some? && c.disconnectedAt.Some? && c.disconnectedAt != r.disconnectedAt {
      var a, b := r.disconnectedAt.value - r.connectedAt, t.first - r.connectedAt;
      SecondsMonotone(a, b);
      DurationTrueIff(r.connectedAt, r.disconnectedAt.value);
      DurationTrueIff(r.connectedAt, t.first);
    }
  }

  /**
   Along any sequence of whole calls the duration never shrinks and is the true span in seconds, as
   long as the session is younger than 2^31 seconds; and if no closed session is marked active, the
   rank never falls.
   */
  lemma {:induction false} CallsMoveForward(r: SshSession, calls: seq<Timed>, now: Time)
    requires RowInv(r, now) && DurationExact(r) && InOrder(now, calls)
    ensures DurationExact(AfterCalls(r, calls)) && AfterCalls(r, calls).connectedAt == r.connectedAt
    ensures NeverReopens(r, calls) ==> Rank(r.state) <= Rank(AfterCalls(r, calls).state)
    ensures EndsBefore(calls, r.connectedAt + I32_RANGE / 2 * SECOND) ==>
              NoShorter(r.durationSeconds, AfterCalls(r, calls).durationSeconds)
    decreases calls
  {
    if calls != [] {
      var t, c := calls[0], Called(r, calls[0]);
      assert t in calls && forall u | u in calls[1..] :: u in calls;
      RankFallsIff(r, t);
      CalledInv(r, t, now);
      if EndsBefore(calls, r.connectedAt + I32_RANGE / 2 * SECOND) { DurationGrows(r, t, now); }
      CallsMoveForward(c, calls[1..], t.written);
    }
  }

  /** A closed record tells the true length of the session exactly while that is below 2^31 seconds. */
  lemma StoredDurationTrueIff(r: SshSession, now: Time)
    requires RowInv(r, now) && DurationExact(r) && r.disconnectedAt.Some?
    ensures r.durationSeconds == Some((r.disconnectedAt.value - r.connectedAt) / SECOND)
            <==> (r.disconnectedAt.value - r.connectedAt) / SECOND < I32_RANGE / 2
  {
    DurationTrueIff(r.connectedAt, r.disconnectedAt.value);
  }
}
