/**
 When overlapping calls behave like whole calls. A call that nobody disturbs between its reading and
 its writing is a whole call. That calls on a session never overlap is exactly what makes its record the
 outcome of the calls written, what keeps its state moving forward, and what keeps its duration growing.
 */
module SshOverlap {
  import opened SshInterleaving
  import opened SshRecords
  import opened SshSequential
  import opened Wrappers

  // ---------- one call ----------

  /** The task has read this session and means to write it. */
  predicate Serves(s: State, t: TaskId, id: Uuid) {
    t in s.tasks && s.tasks[t].Calling? && s.tasks[t].copy.who.id == id
  }

  /** Its copy is what the store has, if the store still has the session. */
  predicate Current(s: State, t: TaskId, id: Uuid)
    requires Serves(s, t, id)
  {
    id in s.rows ==> s.rows[id] == s.tasks[t].copy
  }

  /** The step may change the stored record of this session. */
  predicate Touches(s: State, step: Step, id: Uuid) {
    match step
    case Write(t) => Serves(s, t, id)
    case HitRow(_, hit) => hit == id
    case _ => false
  }

  lemma CurrentStep(s: State, step: Step, t: TaskId, id: Uuid)
    requires Inv(s) && Enabled(s, step) && Serves(s, t, id) && Current(s, t, id) && !Touches(s, step, id)
    ensures Serves(Apply(s, step), t, id) ==> Current(Apply(s, step), t, id)
  {
    assert TaskOk(s, s.tasks[t]);
    if step.Create? { assert step.who.id != id; }
  }

  /** What a finished call amounts to, with the moments at which it read the clock. */
  function WholeCall(pc: Pc): Timed
    requires pc.Calling? && |pc.clock| == 3
  {
    Timed(pc.call, pc.clock[0], pc.clock[1], pc.clock[2])
  }

  /** The write of a call whose copy is current does what the whole call does. */
  lemma CurrentWrite(s: State, t: TaskId, id: Uuid)
    requires Inv(s) && Enabled(s, Write(t)) && Serves(s, t, id) && id in s.rows && Current(s, t, id)
    ensures Apply(s, Write(t)).rows == s.rows[id := Called(s.rows[id], WholeCall(s.tasks[t]))]
  {
    var pc := s.tasks[t];
    assert TaskOk(s, pc);
    EditedInv(pc.call, pc.copy, pc.clock[0], pc.clock[1]);
  }

  /** Until the task ends, its session is not touched and the task is not stopped. */
  ghost predicate Undisturbed(s: State, steps: seq<Step>, t: TaskId, id: Uuid)
    requires Runs(s, steps)
    decreases steps
  {
    steps == [] || (!Touches(s, steps[0], id) && steps[0] != Stop(t) && Undisturbed(Apply(s, steps[0]), steps[1..], t, id))
  }

  lemma {:induction false} UndisturbedCopy(s: State, steps: seq<Step>, t: TaskId, id: Uuid)
    requires Inv(s) && Runs(s, steps) && Undisturbed(s, steps, t, id)
    requires Serves(s, t, id) ==> Current(s, t, id)
    ensures Inv(Final(s, steps))
    ensures Serves(Final(s, steps), t, id) ==> Current(Final(s, steps), t, id)
    decreases steps
  {
    if steps != [] {
      InvStep(s, steps[0]);
      if Serves(s, t, id) { CurrentStep(s, steps[0], t, id); } else { assert ReadsCurrent(s, steps[0], t, id); }
      UndisturbedCopy(Apply(s, steps[0]), steps[1..], t, id);
    }
  }

  /** A task that begins to serve a session reads the stored record. */
  ghost predicate ReadsCurrent(s: State, step: Step, t: TaskId, id: Uuid)
    requires Enabled(s, step)
  {
    Serves(Apply(s, step), t, id) ==> Current(Apply(s, step), t, id)
  }

  /**
   A call that nobody disturbs is a whole call: its write applies the call to the stored record, and it
   lowers the rank if and only if it marks a closed session active. Other sessions may do anything.
   */
  lemma UndisturbedCallIsWhole(start: Time, before: seq<Step>, read: Step, steps: seq<Step>, id: Uuid)
    requires Runs(Init(start), before) && read.Read? && read.id == id && Enabled(Final(Init(start), before), read)
    requires Runs(Apply(Final(Init(start), before), read), steps)
    requires Undisturbed(Apply(Final(Init(start), before), read), steps, read.task, id)
    requires var s := Final(Apply(Final(Init(start), before), read), steps);
             Enabled(s, Write(read.task)) && Serves(s, read.task, id) && id in s.rows
    ensures var s := Final(Apply(Final(Init(start), before), read), steps);
            var s' := Apply(s, Write(read.task));
            && s'.rows == s.rows[id := Called(s.rows[id], WholeCall(s.tasks[read.task]))]
            && (Rank(s'.rows[id].state) < Rank(s.rows[id].state) <==>
                s.tasks[read.task].call.MarkActive? && IsTerminal(s.rows[id].state))
  {
    var s0 := Final(Init(start), before);
    InvRun(Init(start), before);
    InvStep(s0, read);
    UndisturbedCopy(Apply(s0, read), steps, read.task, id);
    var s := Final(Apply(s0, read), steps);
    CurrentWrite(s, read.task, id);
    assert RowOk(s, id, s.rows[id]);
    RankFallsIff(s.rows[id], WholeCall(s.tasks[read.task]));
  }

  /**
   A write undoes a termination if and only if its call marks the session active, disconnects it, or
   reports activity from a copy that was read before the termination.
   */
  lemma WriteUndoesTerminationIff(s: State, t: TaskId, id: Uuid)
    requires Inv(s) && Enabled(s, Write(t)) && Serves(s, t, id) && id in s.rows && s.rows[id].state.Terminated?
    ensures !Apply(s, Write(t)).rows[id].state.Terminated? <==>
            var pc := s.tasks[t];
            pc.call.MarkActive? || pc.call.Disconnect? || (pc.call.UpdateActivity? && !pc.copy.state.Terminated?)
  {
    assert TaskOk(s, s.tasks[t]);
  }

  // ---------- runs without overlap ----------

  /** The task is a call on this session, or a bulk statement that has yet to visit its row. */
  predicate Holds(pc: Pc, id: Uuid) {
    match pc
    case Calling(_, copy, _) => copy.who.id == id
    case Bulk(_, _, targets) => id in targets
  }

  function Holders(s: State, id: Uuid): set<TaskId> { set t | t in s.tasks && Holds(s.tasks[t], id) }

  ghost predicate AtMost(s: State, k: nat) { forall id :: |Holders(s, id)| <= k }

  /** At most `k` calls on one session at a time. */
  ghost predicate Limited(s: State, steps: seq<Step>, k: nat)
    requires Runs(s, steps)
    decreases steps
  {
    AtMost(s, k) && (steps == [] || Limited(Apply(s, steps[0]), steps[1..], k))
  }

  lemma {:induction false} LimitedMore(s: State, steps: seq<Step>, k: nat, m: nat)
    requires Runs(s, steps) && Limited(s, steps, k) && k <= m
    ensures Limited(s, steps, m)
    decreases steps
  {
    assert forall id :: |Holders(s, id)| <= k <= m;
    if steps != [] { LimitedMore(Apply(s, steps[0]), steps[1..], k, m); }
  }

  lemma OnlyHolder(s: State, id: Uuid, t: TaskId, u: TaskId)
    requires AtMost(s, 1) && t in Holders(s, id) && u in Holders(s, id)
    ensures t == u
  {
    if t != u {
      assert {t, u} <= Holders(s, id);
      SubsetSize({t, u}, Holders(s, id));
      assert false;
    }
  }

  lemma {:induction false} SubsetSize<T>(a: set<T>, b: set<T>)
    requires a <= b
    ensures |a| <= |b|
    decreases a
  {
    if a != {} {
      var x :| x in a;
      SubsetSize(a - {x}, b - {x});
    }
  }

  ghost predicate AllCurrent(s: State) {
    forall t, id | Serves(s, t, id) :: Current(s, t, id)
  }

  lemma AllCurrentStep(s: State, step: Step)
    requires Inv(s) && AllCurrent(s) && AtMost(s, 1) && Enabled(s, step)
    ensures AllCurrent(Apply(s, step))
  {
    var s' := Apply(s, step);
    forall t, id | Serves(s', t, id) ensures Current(s', t, id) {
      if Serves(s, t, id) {
        if Touches(s, step, id) {
          assert t in Holders(s, id) && step.task in Holders(s, id);
          OnlyHolder(s, id, t, step.task);
        } else {
          CurrentStep(s, step, t, id);
        }
      }
    }
  }

  lemma {:induction false} SerialRun(s: State, steps: seq<Step>)
    requires Inv(s) && AllCurrent(s) && Runs(s, steps) && Limited(s, steps, 1)
    ensures Inv(Final(s, steps)) && AllCurrent(Final(s, steps))
    decreases steps
  {
    if steps != [] {
      InvStep(s, steps[0]);
      AllCurrentStep(s, steps[0]);
      SerialRun(Apply(s, steps[0]), steps[1..]);
    }
  }

  lemma OthersUnchanged(s: State, step: Step, id: Uuid)
    requires Inv(s) && Enabled(s, step) && !Touches(s, step, id) && id in s.rows && id in Apply(s, step).rows
    ensures Apply(s, step).rows[id] == s.rows[id]
  {
    assert RowOk(s, id, s.rows[id]);
    if step.Write? {
      var pc := s.tasks[step.task];
      assert TaskOk(s, pc);
      EditedInv(pc.call, pc.copy, pc.clock[0], pc.clock[1]);
    }
  }

  // ---------- they do what their writes say, one whole call after the other ----------

  /** What happens to a record: a call is written, or a bulk statement hits. */
  datatype Event = Wrote(call: Timed) | Hit(sandbox: Uuid, stamp: Time)

  function After(r: SshSession, e: Event): SshSession {
    match e
    case Wrote(t) => Called(r, t)
    case Hit(sandbox, stamp) => BulkRow(r, sandbox, stamp)
  }

  function Replay(r: SshSession, events: seq<Event>): SshSession
    decreases events
  {
    if events == [] then r else Replay(After(r, events[0]), events[1..])
  }

  /** The event that this step is for the record of this session. */
  function EventOf(s: State, step: Step, id: Uuid): Option<Event>
    requires Enabled(s, step)
  {
    if id !in s.rows then None
    else match step
      case Write(t) => if Serves(s, t, id) then Some(Wrote(WholeCall(s.tasks[t]))) else None
      case HitRow(t, hit) =>
        if hit == id && BulkHits(s.rows[id], s.tasks[t].sandbox) then Some(Hit(s.tasks[t].sandbox, s.tasks[t].stamp)) else None
      case _ => None
  }

  function Prepend<T>(first: Option<T>, rest: seq<T>): seq<T> { if first.Some? then [first.value] + rest else rest }

  /** The events of a run for one session, in the order in which they happen. */
  ghost function Events(s: State, steps: seq<Step>, id: Uuid): seq<Event>
    requires Runs(s, steps)
    decreases steps
  {
    if steps == [] then [] else Prepend(EventOf(s, steps[0], id), Events(Apply(s, steps[0]), steps[1..], id))
  }

  /** The stored record becomes what the written calls and the hits, each applied as a whole, make of it. */
  ghost predicate Replayed(s: State, steps: seq<Step>, id: Uuid)
    requires Runs(s, steps)
  {
    id in s.rows && id in Final(s, steps).rows ==> Final(s, steps).rows[id] == Replay(s.rows[id], Events(s, steps, id))
  }

  lemma SerialStepIsEvent(s: State, step: Step, id: Uuid)
    requires Inv(s) && AllCurrent(s) && Enabled(s, step) && id in s.rows && id in Apply(s, step).rows
    ensures Apply(s, step).rows[id] == Replay(s.rows[id], Prepend(EventOf(s, step, id), []))
  {
    if !Touches(s, step, id) {
      OthersUnchanged(s, step, id);
    } else if step.Write? {
      CurrentWrite(s, step.task, id);
    }
  }

  /** A deleted session does not come back. */
  lemma {:induction false} StaysGone(s: State, steps: seq<Step>, id: Uuid)
    requires Runs(s, steps) && id !in s.rows && id in s.born
    ensures id !in Final(s, steps).rows
    decreases steps
  {
    if steps != [] { StaysGone(Apply(s, steps[0]), steps[1..], id); }
  }

  lemma {:induction false} SerialRunIsReplayed(s: State, steps: seq<Step>, id: Uuid)
    requires Inv(s) && AllCurrent(s) && Runs(s, steps) && Limited(s, steps, 1)
    ensures Replayed(s, steps, id)
    decreases steps
  {
    if steps != [] && id in s.rows {
      var s', rest := Apply(s, steps[0]), steps[1..];
      assert RowOk(s, id, s.rows[id]);
      InvStep(s, steps[0]);
      AllCurrentStep(s, steps[0]);
      if id in s'.rows {
        SerialStepIsEvent(s, steps[0], id);
        SerialRunIsReplayed(s', rest, id);
      } else {
        StaysGone(s', rest, id);
      }
    }
  }

  function Wrotes(calls: seq<Timed>): seq<Event>
    decreases calls
  {
    if calls == [] then [] else [Wrote(calls[0])] + Wrotes(calls[1..])
  }

  /** The calls that this step writes for a session without bulk statements: none or one. */
  lemma SerialStepIsCall(s: State, step: Step, id: Uuid) returns (calls: seq<Timed>)
    requires Inv(s) && AllCurrent(s) && Enabled(s, step) && id in s.rows && id in Apply(s, step).rows
    requires s.rows[id].who.sandboxId !in s.bulked
    ensures |calls| <= 1 && EventOf(s, step, id) == if calls == [] then None else Some(Wrote(calls[0]))
    ensures var (r, r') := (s.rows[id], Apply(s, step).rows[id]);
            && (calls == [] ==> r' == r)
            && (calls != [] ==> r.updatedAt <= calls[0].first <= calls[0].second <= calls[0].written == r'.updatedAt
                                && r' == Called(r, calls[0]))
            && r'.who == r.who
  {
    calls := [];
    if !Touches(s, step, id) {
      OthersUnchanged(s, step, id);
    } else {
      assert TaskOk(s, s.tasks[step.task]);
      if step.Write? {
        CurrentWrite(s, step.task, id);
        calls := [WholeCall(s.tasks[step.task])];
      }
    }
  }

  lemma {:induction false} BulkedGrows(s: State, steps: seq<Step>)
    requires Runs(s, steps)
    ensures s.bulked <= Final(s, steps).bulked
    decreases steps
  {
    if steps != [] { BulkedGrows(Apply(s, steps[0]), steps[1..]); }
  }

  /**
   Without overlap and bulk statements the record is the outcome of exactly the calls written, as whole
   calls in the order of time: what holds along sequences of whole calls holds along the run.
   */
  lemma {:induction false} SerialRunIsCalls(s: State, steps: seq<Step>, id: Uuid) returns (calls: seq<Timed>)
    requires Inv(s) && AllCurrent(s) && Runs(s, steps) && Limited(s, steps, 1)
    requires id in s.rows && id in Final(s, steps).rows && s.rows[id].who.sandboxId !in Final(s, steps).bulked
    ensures Events(s, steps, id) == Wrotes(calls) && InOrder(s.rows[id].updatedAt, calls)
    ensures Final(s, steps).rows[id] == AfterCalls(s.rows[id], calls)
    decreases steps
  {
    calls := [];
    if steps != [] {
      var s', rest := Apply(s, steps[0]), steps[1..];
      BulkedGrows(s, steps);
      BulkedGrows(s', rest);
      assert RowOk(s, id, s.rows[id]);
      InvStep(s, steps[0]);
      AllCurrentStep(s, steps[0]);
      if id !in s'.rows { StaysGone(s', rest, id); }
      var first := SerialStepIsCall(s, steps[0], id);
      var later := SerialRunIsCalls(s', rest, id);
      calls := first + later;
      assert first != [] ==> calls[0] == first[0] && calls[1..] == later;
      assert first == [] ==> calls == later;
    }
  }

  // ---------- and they alone move forward ----------

  /** The step marks this session active although it is closed. */
  predicate Reopens(s: State, step: Step, id: Uuid) {
    step.Write? && Serves(s, step.task, id) && s.tasks[step.task].call.MarkActive?
    && id in s.rows && IsTerminal(s.rows[id].state)
  }

  ghost predicate FallsOnlyReopening(s: State, step: Step)
    requires Enabled(s, step)
  {
    forall id | id in s.rows && id in Apply(s, step).rows && Rank(Apply(s, step).rows[id].state) < Rank(s.rows[id].state) ::
      Reopens(s, step, id)
  }

  ghost predicate MovesForward(s: State, steps: seq<Step>)
    requires Runs(s, steps)
    decreases steps
  {
    steps == [] || (FallsOnlyReopening(s, steps[0]) && MovesForward(Apply(s, steps[0]), steps[1..]))
  }

  lemma SerialStepMovesForward(s: State, step: Step)
    requires Inv(s) && AllCurrent(s) && Enabled(s, step)
    ensures FallsOnlyReopening(s, step)
  {
    var s' := Apply(s, step);
    forall id | id in s.rows && id in s'.rows ensures Rank(s'.rows[id].state) < Rank(s.rows[id].state) ==> Reopens(s, step, id) {
      assert RowOk(s, id, s.rows[id]);
      if !Touches(s, step, id) {
        OthersUnchanged(s, step, id);
      } else if step.Write? {
        CurrentWrite(s, step.task, id);
        RankFallsIff(s.rows[id], WholeCall(s.tasks[step.task]));
      }
    }
  }

  lemma {:induction false} SerialRunMovesForward(s: State, steps: seq<Step>)
    requires Inv(s) && AllCurrent(s) && Runs(s, steps) && Limited(s, steps, 1)
    ensures MovesForward(s, steps)
    decreases steps
  {
    if steps != [] {
      SerialStepMovesForward(s, steps[0]);
      InvStep(s, steps[0]);
      AllCurrentStep(s, steps[0]);
      SerialRunMovesForward(Apply(s, steps[0]), steps[1..]);
    }
  }

  lemma TwoTasks(s: State)
    requires s.tasks.Keys <= {1, 2}
    ensures AtMost(s, 2)
  {
    forall id ensures |Holders(s, id)| <= 2 {
      SubsetSize(Holders(s, id), {1, 2});
    }
  }

  /** One step more, with the two tasks 1 and 2 only. */
  lemma {:induction false} StepOn(s: State, steps: seq<Step>, step: Step)
    requires Runs(s, steps) && Limited(s, steps, 2) && Enabled(Final(s, steps), step)
    requires Apply(Final(s, steps), step).tasks.Keys <= {1, 2}
    ensures Runs(s, steps + [step]) && Limited(s, steps + [step], 2)
    ensures Final(s, steps + [step]) == Apply(Final(s, steps), step)
    ensures !FallsOnlyReopening(Final(s, steps), step) ==> !MovesForward(s, steps + [step])
    ensures !KeepsDurations(Final(s, steps), step) ==> !NeverShortens(s, steps + [step])
    decreases steps
  {
    if steps == [] {
      assert [] + [step] == [step] && [step][1..] == [];
      TwoTasks(Apply(s, step));
      assert Limited(Apply(s, step), [], 2);
    } else {
      assert (steps + [step])[1..] == steps[1..] + [step];
      StepOn(Apply(s, steps[0]), steps[1..], step);
    }
  }

  lemma {:induction false} EventsOn(s: State, steps: seq<Step>, step: Step, id: Uuid)
    requires Runs(s, steps) && Enabled(Final(s, steps), step) && Runs(s, steps + [step])
    ensures Events(s, steps + [step], id) == Events(s, steps, id) + Prepend(EventOf(Final(s, steps), step, id), [])
    decreases steps
  {
    if steps == [] {
      assert [] + [step] == [step] && [step][1..] == [];
    } else {
      assert (steps + [step])[1..] == steps[1..] + [step];
      EventsOn(Apply(s, steps[0]), steps[1..], step, id);
    }
  }

  /** The task reads the clock three times in a row, and is ready to write. */
  lemma ReadsClocks(s: State, before: seq<Step>, t: TaskId, id: Uuid) returns (steps: seq<Step>)
    requires Runs(s, before) && Limited(s, before, 2)
    requires var f := Final(s, before);
             && f.tasks.Keys <= {1, 2} && t in f.tasks && f.tasks[t].Calling? && f.tasks[t].clock == []
             && Edited(f.tasks[t].call, f.tasks[t].copy, f.now, f.now).Some?
    ensures Runs(s, steps) && Limited(s, steps, 2) && Events(s, steps, id) == Events(s, before, id)
    ensures var f := Final(s, before);
            Final(s, steps) == f.(tasks := f.tasks[t := f.tasks[t].(clock := [f.now, f.now, f.now])])
  {
    var f := Final(s, before);
    steps := before;
    assert seq(0, _ => f.now) == [] && f.tasks[t].(clock := []) == f.tasks[t] && f.tasks[t := f.tasks[t]] == f.tasks;
    for i := 0 to 3
      invariant Runs(s, steps) && Limited(s, steps, 2) && Events(s, steps, id) == Events(s, before, id)
      invariant Final(s, steps) == f.(tasks := f.tasks[t := f.tasks[t].(clock := seq(i, _ => f.now))])
    {
      StepOn(s, steps, Clock(t));
      EventsOn(s, steps, Clock(t), id);
      steps := steps + [Clock(t)];
      assert seq(i, _ => f.now) + [f.now] == seq(i + 1, _ => f.now);
    }
    assert seq(3, _ => f.now) == [f.now, f.now, f.now];
  }

  /** Task 1 has read the open session of `id` to report activity, and has done nothing else yet. */
  predicate HeartbeatPending(s: State, id: Uuid) {
    s.tasks.Keys == {1} && Serves(s, 1, id) && s.tasks[1].clock == []
    && s.tasks[1].call.UpdateActivity? && s.tasks[1].copy.state.Connecting? && id in s.rows
  }

  /** Two calls have read the new session. */
  lemma BothHaveRead(who: Identity, one: Call, two: Call) returns (steps: seq<Step>)
    ensures Runs(Init(0), steps) && Limited(Init(0), steps, 2)
    ensures Final(Init(0), steps) == Init(0).(
              rows := map[who.id := NewSession(who, 0)], born := map[who.id := NewSession(who, 0)],
              tasks := map[1 := Calling(one, NewSession(who, 0), []), 2 := Calling(two, NewSession(who, 0), [])])
  {
    var s := Init(0);
    TwoTasks(s);
    steps := [];
    assert Final(s, steps) == s;
    StepOn(s, steps, Create(who, 0));
    steps := steps + [Create(who, 0)];
    StepOn(s, steps, Read(1, one, who.id));
    steps := steps + [Read(1, one, who.id)];
    StepOn(s, steps, Read(2, two, who.id));
    steps := steps + [Read(2, two, who.id)];
  }

  /** Meanwhile task 2 terminates the session. */
  lemma TerminatedMeanwhile(who: Identity, reason: string) returns (steps: seq<Step>)
    ensures Runs(Init(0), steps) && Limited(Init(0), steps, 2)
    ensures var s := Final(Init(0), steps); HeartbeatPending(s, who.id) && s.rows[who.id].state == Terminated
  {
    var s := Init(0);
    steps := BothHaveRead(who, UpdateActivity(7, 9), Terminate(reason));
    steps := ReadsClocks(s, steps, 2, who.id);
    StepOn(s, steps, Write(2));
    steps := steps + [Write(2)];
  }

  /** A heartbeat that read the record before a termination and writes after it undoes the termination. */
  lemma StaleWriteUndoesTermination(who: Identity, reason: string) returns (before: seq<Step>, last: Step)
    ensures Runs(Init(0), before) && Limited(Init(0), before, 2) && who.id in Final(Init(0), before).rows
    ensures Final(Init(0), before).rows[who.id].state == Terminated
    ensures Enabled(Final(Init(0), before), last) && last.Write?
    ensures Apply(Final(Init(0), before), last).rows[who.id].state == Connecting
    ensures Apply(Final(Init(0), before), last).tasks.Keys <= {1, 2}
  {
    var s, id := Init(0), who.id;
    before := TerminatedMeanwhile(who, reason);
    InvRun(s, before);
    before := ReadsClocks(s, before, 1, id);
    last := Write(1);
  }

  /**
   In all runs with at most `k` calls on one session at a time, states fall back only where a closed
   session is marked active, if and only if `k` is at most one: calls on one session must not overlap.
   */
  lemma MovesForwardIff(k: nat)
    ensures (forall start, steps | Runs(Init(start), steps) && Limited(Init(start), steps, k) :: MovesForward(Init(start), steps))
            <==> k <= 1
  {
    if k <= 1 {
      forall start, steps | Runs(Init(start), steps) && Limited(Init(start), steps, k) ensures MovesForward(Init(start), steps) {
        LimitedMore(Init(start), steps, k, 1);
        SerialRunMovesForward(Init(start), steps);
      }
    } else {
      var before, last := StaleWriteUndoesTermination(SOMEONE, "");
      assert !FallsOnlyReopening(Final(Init(0), before), last);
      StepOn(Init(0), before, last);
      LimitedMore(Init(0), before + [last], 2, k);
    }
  }

  // ---------- the order of the writes tells the record ----------

  /** The pending heartbeat writes its old copy; as a whole call it would leave the session terminated. */
  lemma LateHeartbeat(s: State, id: Uuid) returns (steps: seq<Step>)
    requires Inv(s) && HeartbeatPending(s, id) && s.rows[id].state == Terminated
    ensures Runs(s, steps) && Limited(s, steps, 2) && !Replayed(s, steps, id)
  {
    TwoTasks(s);
    steps := ReadsClocks(s, [], 1, id);
    StepOn(s, steps, Write(1));
    EventsOn(s, steps, Write(1), id);
    ghost var heartbeat := WholeCall(Final(s, steps).tasks[1]);
    steps := steps + [Write(1)];
    assert Events(s, steps, id) == [Wrote(heartbeat)] && [Wrote(heartbeat)][1..] == [];
    assert Replay(s.rows[id], [Wrote(heartbeat)]) == Called(s.rows[id], heartbeat);
  }

  /** The run from `Init(start)` through `before` and on through `after` keeps the limit. */
  ghost predicate TwoParts(start: Time, before: seq<Step>, after: seq<Step>, k: nat) {
    && Runs(Init(start), before) && Limited(Init(start), before, k)
    && Runs(Final(Init(start), before), after) && Limited(Final(Init(start), before), after, k)
  }

  /**
   In all runs with at most `k` calls on one session at a time, between any two moments, each record
   becomes what the calls written in between make of it as whole calls in that order, if and only if
   `k` is at most one.
   */
  lemma RunsAreReplayedIff(k: nat)
    ensures (forall start, before, after, id | TwoParts(start, before, after, k) ::
               Replayed(Final(Init(start), before), after, id))
            <==> k <= 1
  {
    if k <= 1 {
      forall start, before, after, id | TwoParts(start, before, after, k)
        ensures Replayed(Final(Init(start), before), after, id)
      {
        LimitedMore(Init(start), before, k, 1);
        LimitedMore(Final(Init(start), before), after, k, 1);
        SerialRun(Init(start), before);
        SerialRunIsReplayed(Final(Init(start), before), after, id);
      }
    } else {
      var before := TerminatedMeanwhile(SOMEONE, "");
      var s := Final(Init(0), before);
      InvRun(Init(0), before);
      var after := LateHeartbeat(s, SOMEONE.id);
      LimitedMore(Init(0), before, 2, k);
      LimitedMore(s, after, 2, k);
      assert TwoParts(0, before, after, k) && !Replayed(s, after, SOMEONE.id);
    }
  }

  // ---------- and keeps its durations ----------

  /** No duration shrinks, for sessions without bulk statements that are younger than 2^31 seconds. */
  ghost predicate KeepsDurations(s: State, step: Step)
    requires Enabled(s, step)
  {
    var s' := Apply(s, step);
    forall id | id in s.rows && id in s'.rows && s.rows[id].who.sandboxId !in s.bulked
                && s.now < s.rows[id].connectedAt + I32_RANGE / 2 * SECOND ::
      NoShorter(s.rows[id].durationSeconds, s'.rows[id].durationSeconds)
  }

  ghost predicate NeverShortens(s: State, steps: seq<Step>)
    requires Runs(s, steps)
    decreases steps
  {
    steps == [] || (KeepsDurations(s, steps[0]) && NeverShortens(Apply(s, steps[0]), steps[1..]))
  }

  lemma SerialStepKeepsDurations(s: State, step: Step)
    requires Inv(s) && AllCurrent(s) && Enabled(s, step)
    ensures KeepsDurations(s, step)
  {
    var s' := Apply(s, step);
    forall id | id in s.rows && id in s'.rows && s.rows[id].who.sandboxId !in s.bulked
                && s.now < s.rows[id].connectedAt + I32_RANGE / 2 * SECOND
      ensures NoShorter(s.rows[id].durationSeconds, s'.rows[id].durationSeconds)
    {
      var calls := SerialStepIsCall(s, step, id);
      if calls != [] { WrittenCallKeepsDuration(s, step, id, calls[0]); }
    }
  }

  lemma WrittenCallKeepsDuration(s: State, step: Step, id: Uuid, t: Timed)
    requires Inv(s) && AllCurrent(s) && Enabled(s, step) && id in s.rows
    requires s.rows[id].who.sandboxId !in s.bulked && s.now < s.rows[id].connectedAt + I32_RANGE / 2 * SECOND
    requires EventOf(s, step, id) == Some(Wrote(t))
    ensures NoShorter(s.rows[id].durationSeconds, Called(s.rows[id], t).durationSeconds)
  {
    var pc := s.tasks[step.task];
    assert RowOk(s, id, s.rows[id]) && TaskOk(s, pc) && Current(s, step.task, id);
    DurationGrows(s.rows[id], t, t.first);
  }

  lemma {:induction false} SerialRunKeepsDurations(s: State, steps: seq<Step>)
    requires Inv(s) && AllCurrent(s) && Runs(s, steps) && Limited(s, steps, 1)
    ensures NeverShortens(s, steps)
    decreases steps
  {
    if steps != [] {
      SerialStepKeepsDurations(s, steps[0]);
      InvStep(s, steps[0]);
      AllCurrentStep(s, steps[0]);
      SerialRunKeepsDurations(Apply(s, steps[0]), steps[1..]);
    }
  }

  /** A disconnection is edited at 0 s; a termination at 10 s is written before it. */
  lemma LateDisconnectShortens(who: Identity) returns (before: seq<Step>, last: Step)
    ensures Runs(Init(0), before) && Limited(Init(0), before, 2) && Enabled(Final(Init(0), before), last)
    ensures Apply(Final(Init(0), before), last).tasks.Keys <= {1, 2}
    ensures !KeepsDurations(Final(Init(0), before), last)
  {
    var s := Init(0);
    before := TerminatedLater(who);
    StepOn(s, before, Clock(1));
    before := before + [Clock(1)];
    last := Write(1);
    var f := Final(s, before);
    var r := Apply(f, last).rows[who.id];
    assert f.rows[who.id].durationSeconds == Some(10) && r.durationSeconds == Some(0);
  }

  /** Task 1 has made its edit at 0 s, and now it is 10 s. */
  predicate EditedLongAgo(s: State, who: Identity) {
    && s.now == 10 * SECOND && s.bulked == {} && 1 in s.tasks
    && s.tasks[1] == Calling(Disconnect, NewSession(who, 0), [0, 0])
  }

  lemma DisconnectEdited(who: Identity) returns (steps: seq<Step>)
    ensures Runs(Init(0), steps) && Limited(Init(0), steps, 2)
    ensures var s := Final(Init(0), steps);
            && EditedLongAgo(s, who) && s.rows == map[who.id := NewSession(who, 0)]
            && s.tasks.Keys == {1, 2} && s.tasks[2] == Calling(Terminate(""), NewSession(who, 0), [])
  {
    var s := Init(0);
    steps := BothHaveRead(who, Disconnect, Terminate(""));
    StepOn(s, steps, Clock(1));
    steps := steps + [Clock(1)];
    StepOn(s, steps, Clock(1));
    steps := steps + [Clock(1)];
    StepOn(s, steps, Tick(10 * SECOND));
    steps := steps + [Tick(10 * SECOND)];
  }

  lemma TerminatedLater(who: Identity) returns (steps: seq<Step>)
    ensures Runs(Init(0), steps) && Limited(Init(0), steps, 2)
    ensures var s := Final(Init(0), steps);
            && EditedLongAgo(s, who) && s.tasks.Keys == {1}
            && who.id in s.rows && s.rows[who.id].who == who && s.rows[who.id].connectedAt == 0
            && s.rows[who.id].durationSeconds == Some(10)
  {
    var s := Init(0);
    steps := DisconnectEdited(who);
    steps := ReadsClocks(s, steps, 2, who.id);
    StepOn(s, steps, Write(2));
    steps := steps + [Write(2)];
  }

  /**
   In all runs with at most `k` calls on one session at a time, no duration ever shrinks, if and only if
   `k` is at most one.
   */
  lemma NeverShortensIff(k: nat)
    ensures (forall start, steps | Runs(Init(start), steps) && Limited(Init(start), steps, k) :: NeverShortens(Init(start), steps))
            <==> k <= 1
  {
    if k <= 1 {
      forall start, steps | Runs(Init(start), steps) && Limited(Init(start), steps, k) ensures NeverShortens(Init(start), steps) {
        LimitedMore(Init(start), steps, k, 1);
        SerialRunKeepsDurations(Init(start), steps);
      }
    } else {
      var before, last := LateDisconnectShortens(SOMEONE);
      StepOn(Init(0), before, last);
      LimitedMore(Init(0), before + [last], 2, k);
    }
  }
}
