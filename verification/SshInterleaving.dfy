/**
 The same calls when they overlap. No call locks a record: it reads a copy, reads the clock up to
 three times (twice for the edit, once when the database stamps the statement) and writes all of the
 copy back, and other calls, bulk statements and deletions come in between. A bulk statement is stamped
 when it is issued and then hits the rows it matched one after the other, each if it still matches.
 */
module SshInterleaving {
  import opened SshRecords
  import opened Wrappers

  type TaskId = nat

  datatype Pc =
    | Calling(call: Call, copy: SshSession, clock: seq<Time>)
    | Bulk(sandbox: Uuid, stamp: Time, targets: set<Uuid>)

  datatype State = State(
    rows: Rows,
    tasks: map<TaskId, Pc>,
    now: Time,
    born: Rows,             // every session as it was created
    bulked: set<Uuid>)      // the sandboxes for which a bulk statement was issued

  datatype Step =
    | Create(who: Identity, at: Time)
    | Read(task: TaskId, call: Call, id: Uuid)
    | Clock(task: TaskId)
    | Write(task: TaskId)
    | IssueBulk(task: TaskId, sandbox: Uuid)
    | HitRow(task: TaskId, id: Uuid)
    | Stop(task: TaskId)    // the statement fails, the call is cancelled, or there is nothing left to do
    | Delete(id: Uuid)
    | Tick(time: Time)

  predicate Enabled(s: State, step: Step) {
    match step
    case Create(who, at) => who.id !in s.born && at <= s.now
    case Read(t, _, id) => t !in s.tasks && id in s.rows
    case Clock(t) => t in s.tasks && s.tasks[t].Calling? && |s.tasks[t].clock| < 3
    case Write(t) => t in s.tasks && s.tasks[t].Calling? && |s.tasks[t].clock| == 3
    case IssueBulk(t, _) => t !in s.tasks
    case HitRow(t, id) => t in s.tasks && s.tasks[t].Bulk? && id in s.tasks[t].targets
    case Stop(t) => t in s.tasks
    case Delete(_) => true
    case Tick(time) => s.now <= time
  }

  function Targets(rows: Rows, sandbox: Uuid): set<Uuid> { set id | id in rows && BulkHits(rows[id], sandbox) }

  /** A clock reading; the second one completes the edit, or shows that there is none to make. */
  function ReadClock(s: State, t: TaskId): State
    requires Enabled(s, Clock(t))
  {
    var pc := s.tasks[t];
    if |pc.clock| == 1 && Edited(pc.call, pc.copy, pc.clock[0], s.now) == None then s.(tasks := s.tasks - {t})
    else s.(tasks := s.tasks[t := pc.(clock := pc.clock + [s.now])])
  }

  function Apply(s: State, step: Step): State
    requires Enabled(s, step)
  {
    match step
    case Create(who, at) =>
      s.(rows := s.rows[who.id := NewSession(who, at)], born := s.born[who.id := NewSession(who, at)])
    case Read(t, call, id) => s.(tasks := s.tasks[t := Calling(call, s.rows[id], [])])
    case Clock(t) => ReadClock(s, t)
    case Write(t) =>
      var pc := s.tasks[t];
      var edited := Edited(pc.call, pc.copy, pc.clock[0], pc.clock[1]);
      s.(rows := if edited.Some? then WriteRow(s.rows, edited.value, pc.clock[2]) else s.rows, tasks := s.tasks - {t})
    case IssueBulk(t, sandbox) =>
      s.(tasks := s.tasks[t := Bulk(sandbox, s.now, Targets(s.rows, sandbox))], bulked := s.bulked + {sandbox})
    case HitRow(t, id) =>
      var pc := s.tasks[t];
      s.(rows := if id in s.rows then s.rows[id := BulkRow(s.rows[id], pc.sandbox, pc.stamp)] else s.rows,
         tasks := s.tasks[t := pc.(targets := pc.targets - {id})])
    case Stop(t) => s.(tasks := s.tasks - {t})
    case Delete(id) => s.(rows := s.rows - {id})
    case Tick(time) => s.(now := time)
  }

  ghost predicate Runs(s: State, steps: seq<Step>)
    decreases steps
  {
    steps == [] || (Enabled(s, steps[0]) && Runs(Apply(s, steps[0]), steps[1..]))
  }

  ghost function Final(s: State, steps: seq<Step>): State
    requires Runs(s, steps)
    decreases steps
  {
    if steps == [] then s else Final(Apply(s, steps[0]), steps[1..])
  }

  function Init(now: Time): State { State(map[], map[], now, map[], {}) }

  // ---------- the invariant ----------

  /** The record belongs to a created session and still carries its identity. */
  predicate Genuine(s: State, r: SshSession) {
    && r.who.id in s.born
    && r.who == s.born[r.who.id].who && r.connectedAt == s.born[r.who.id].connectedAt
    && r.createdAt == s.born[r.who.id].createdAt
  }

  /** Without a bulk statement for its sandbox, a row's duration is exact and its last activity recorded. */
  predicate RowOk(s: State, id: Uuid, r: SshSession) {
    && r.who.id == id && RowInv(r, s.now) && Genuine(s, r)
    && (r.who.sandboxId !in s.bulked ==> DurationExact(r) && ActivityRecorded(r))
  }

  predicate Ordered(clock: seq<Time>) { forall i, j | 0 <= i <= j < |clock| :: clock[i] <= clock[j] }

  /** The moment up to which the copy has been valid: the first clock reading, or now. */
  function ReadTime(s: State, clock: seq<Time>): Time { if clock == [] then s.now else clock[0] }

  predicate CallOk(s: State, call: Call, copy: SshSession, clock: seq<Time>) {
    && CopyInv(copy, ReadTime(s, clock)) && copy.updatedAt <= ReadTime(s, clock) && Genuine(s, copy)
    && (copy.who.sandboxId !in s.bulked ==> DurationExact(copy))
    && |clock| <= 3 && Ordered(clock) && (clock != [] ==> clock[|clock| - 1] <= s.now)
    && (|clock| >= 2 ==> Edited(call, copy, clock[0], clock[1]).Some?)
  }

  predicate TaskOk(s: State, pc: Pc) {
    match pc
    case Calling(call, copy, clock) => CallOk(s, call, copy, clock)
    case Bulk(sandbox, stamp, targets) =>
      && stamp <= s.now && sandbox in s.bulked
      && forall id | id in targets :: id in s.born && s.born[id].connectedAt <= stamp
  }

  ghost predicate Inv(s: State) {
    && (forall id | id in s.rows :: RowOk(s, id, s.rows[id]))
    && (forall t | t in s.tasks :: TaskOk(s, s.tasks[t]))
  }

  /** Later, with more sessions and more bulk statements, what was right still is. */
  lemma StillOk(s: State, s': State, id: Uuid, r: SshSession)
    requires s.now <= s'.now && s.bulked <= s'.bulked
    requires forall i | i in s.born :: i in s'.born && s'.born[i] == s.born[i]
    ensures RowOk(s, id, r) ==> RowOk(s', id, r)
  {}

  lemma TaskStillOk(s: State, s': State, pc: Pc)
    requires s.now <= s'.now && s.bulked <= s'.bulked
    requires forall i | i in s.born :: i in s'.born && s'.born[i] == s.born[i]
    ensures TaskOk(s, pc) ==> TaskOk(s', pc)
  {}

  lemma WriteOk(s: State, pc: Pc)
    requires pc.Calling? && |pc.clock| == 3 && TaskOk(s, pc)
    requires pc.copy.who.id in s.rows && RowOk(s, pc.copy.who.id, s.rows[pc.copy.who.id])
    ensures var e := Edited(pc.call, pc.copy, pc.clock[0], pc.clock[1]).value;
            e.who == pc.copy.who && RowOk(s, e.who.id, WriteRow(s.rows, e, pc.clock[2])[e.who.id])
  {
    EditedInv(pc.call, pc.copy, pc.clock[0], pc.clock[1]);
  }

  lemma HitOk(s: State, pc: Pc, id: Uuid)
    requires pc.Bulk? && TaskOk(s, pc) && id in pc.targets && id in s.rows && RowOk(s, id, s.rows[id])
    ensures RowOk(s, id, BulkRow(s.rows[id], pc.sandbox, pc.stamp))
  {}

  lemma ClockOk(s: State, t: TaskId)
    requires Enabled(s, Clock(t)) && TaskOk(s, s.tasks[t])
    ensures t in ReadClock(s, t).tasks ==> TaskOk(ReadClock(s, t), ReadClock(s, t).tasks[t])
  {}

  lemma RowsStep(s: State, step: Step, id: Uuid)
    requires Inv(s) && Enabled(s, step) && id in Apply(s, step).rows
    ensures RowOk(Apply(s, step), id, Apply(s, step).rows[id])
  {
    var s' := Apply(s, step);
    match step {
      case Create(who, at) => if id != who.id { StillOk(s, s', id, s.rows[id]); }
      case Write(t) => WriteStep(s, t, id);
      case HitRow(t, hit) => HitStep(s, t, hit, id);
      case _ => StillOk(s, s', id, s.rows[id]);
    }
  }

  lemma WriteStep(s: State, t: TaskId, id: Uuid)
    requires Inv(s) && Enabled(s, Write(t)) && id in Apply(s, Write(t)).rows
    ensures RowOk(Apply(s, Write(t)), id, Apply(s, Write(t)).rows[id])
  {
    assert TaskOk(s, s.tasks[t]);
    if s.tasks[t].copy.who.id in s.rows { WriteOk(s, s.tasks[t]); }
    StillOk(s, Apply(s, Write(t)), id, Apply(s, Write(t)).rows[id]);
  }

  lemma HitStep(s: State, t: TaskId, hit: Uuid, id: Uuid)
    requires Inv(s) && Enabled(s, HitRow(t, hit)) && id in Apply(s, HitRow(t, hit)).rows
    ensures RowOk(Apply(s, HitRow(t, hit)), id, Apply(s, HitRow(t, hit)).rows[id])
  {
    assert TaskOk(s, s.tasks[t]);
    if hit in s.rows { HitOk(s, s.tasks[t], hit); }
    StillOk(s, Apply(s, HitRow(t, hit)), id, Apply(s, HitRow(t, hit)).rows[id]);
  }

  lemma TasksStep(s: State, step: Step, t: TaskId)
    requires Inv(s) && Enabled(s, step) && t in Apply(s, step).tasks
    ensures TaskOk(Apply(s, step), Apply(s, step).tasks[t])
  {
    var s' := Apply(s, step);
    match step {
      case Read(u, _, id) => if t != u { TaskStillOk(s, s', s.tasks[t]); } else { assert RowOk(s, id, s.rows[id]); }
      case Clock(u) => if t != u { TaskStillOk(s, s', s.tasks[t]); } else { assert TaskOk(s, s.tasks[u]); ClockOk(s, u); }
      case IssueBulk(u, sandbox) =>
        if t != u {
          TaskStillOk(s, s', s.tasks[t]);
        } else {
          forall id | id in Targets(s.rows, sandbox) ensures id in s.born && s.born[id].connectedAt <= s.now {
            assert RowOk(s, id, s.rows[id]);
          }
        }
      case HitRow(u, _) => if t != u { TaskStillOk(s, s', s.tasks[t]); } else { assert TaskOk(s, s.tasks[u]); }
      case _ => TaskStillOk(s, s', s.tasks[t]);
    }
  }

  lemma InvStep(s: State, step: Step)
    requires Inv(s) && Enabled(s, step)
    ensures Inv(Apply(s, step))
  {
    var s' := Apply(s, step);
    forall id | id in s'.rows ensures RowOk(s', id, s'.rows[id]) { RowsStep(s, step, id); }
    forall t | t in s'.tasks ensures TaskOk(s', s'.tasks[t]) { TasksStep(s, step, t); }
  }

  lemma {:induction false} InvRun(s: State, steps: seq<Step>)
    requires Inv(s) && Runs(s, steps)
    ensures Inv(Final(s, steps))
    decreases steps
  {
    if steps != [] {
      InvStep(s, steps[0]);
      InvRun(Apply(s, steps[0]), steps[1..]);
    }
  }

  /**
   What survives every interleaving: the state, the times and the closing data of each stored record
   fit together, its identity is that of its creation, and unless a bulk statement was issued for its
   sandbox, its duration is exact and its last activity is not later than its last update.
   */
  lemma EveryRunKeepsRecords(start: Time, steps: seq<Step>, id: Uuid)
    requires Runs(Init(start), steps) && id in Final(Init(start), steps).rows
    ensures var s := Final(Init(start), steps);
            var r := s.rows[id];
            && RowInv(r, s.now) && r.who.id == id && Genuine(s, r)
            && (r.who.sandboxId !in s.bulked ==> DurationExact(r) && ActivityRecorded(r))
  {
    InvRun(Init(start), steps);
  }

  lemma {:induction false} BornIsKept(s: State, steps: seq<Step>, id: Uuid)
    requires Runs(s, steps) && id in s.born
    ensures id in Final(s, steps).born && Final(s, steps).born[id] == s.born[id]
    decreases steps
  {
    if steps != [] { BornIsKept(Apply(s, steps[0]), steps[1..], id); }
  }

  /** The identity of a record never changes between two moments of a run. */
  lemma IdentityIsFixed(start: Time, before: seq<Step>, after: seq<Step>, id: Uuid)
    requires Runs(Init(start), before) && Runs(Final(Init(start), before), after)
    requires id in Final(Init(start), before).rows && id in Final(Final(Init(start), before), after).rows
    ensures var (r, r') := (Final(Init(start), before).rows[id], Final(Final(Init(start), before), after).rows[id]);
            r'.who == r.who && r'.connectedAt == r.connectedAt && r'.createdAt == r.createdAt
  {
    InvRun(Init(start), before);
    InvRun(Final(Init(start), before), after);
    BornIsKept(Final(Init(start), before), after, id);
  }

  // ---------- what a bulk statement can break ----------

  lemma RunOne(s: State, step: Step, rest: seq<Step>)
    requires Enabled(s, step) && Runs(Apply(s, step), rest)
    ensures Runs(s, [step] + rest) && Final(s, [step] + rest) == Final(Apply(s, step), rest)
  {
    assert ([step] + rest)[1..] == rest;
  }

  const SOMEONE := Identity(0, 0, "", None, ApiKey)

  /** A bulk statement leaves a closed record without a duration. */
  lemma BulkLosesDuration(who: Identity) returns (steps: seq<Step>)
    ensures Runs(Init(0), steps) && BulksOnly(steps, {who.sandboxId}) && who.id in Final(Init(0), steps).rows
    ensures var r := Final(Init(0), steps).rows[who.id];
            r.who == who && r.state == Terminated && r.disconnectedAt == Some(0) && !DurationExact(r)
  {
    var s1 := Apply(Init(0), Create(who, 0));
    var s2 := Apply(s1, IssueBulk(0, who.sandboxId));
    assert who.id in s2.tasks[0].targets;
    var s3 := Apply(s2, HitRow(0, who.id));
    RunOne(s2, HitRow(0, who.id), []);
    RunOne(s1, IssueBulk(0, who.sandboxId), [HitRow(0, who.id)] + []);
    RunOne(Init(0), Create(who, 0), [IssueBulk(0, who.sandboxId)] + ([HitRow(0, who.id)] + []));
    steps := [Create(who, 0)] + ([IssueBulk(0, who.sandboxId)] + ([HitRow(0, who.id)] + []));
    assert Final(s3, []) == s3;
  }

  /** From a moment at which the heartbeat has read the record and the bulk statement has yet to hit it. */
  lemma HeartbeatThenHit(s: State, id: Uuid) returns (steps: seq<Step>)
    requires id in s.rows && s.rows[id].who.id == id && s.rows[id].state.Connecting? && s.now == 1
    requires s.tasks == map[0 := Bulk(s.rows[id].who.sandboxId, 0, {id}), 1 := Calling(UpdateActivity(7, 9), s.rows[id], [])]
    ensures Runs(s, steps) && BulksOnly(steps, {}) && id in Final(s, steps).rows
    ensures var r := Final(s, steps).rows[id]; r.who == s.rows[id].who && r.lastActivityAt == 1 && r.updatedAt == 0
  {
    var s1 := Apply(s, Clock(1));
    var s2 := Apply(s1, Clock(1));
    var s3 := Apply(s2, Clock(1));
    var s4 := Apply(s3, Write(1));
    var s5 := Apply(s4, HitRow(0, id));
    assert Final(s5, []) == s5;
    RunOne(s4, HitRow(0, id), []);
    steps := [HitRow(0, id)] + [];
    RunOne(s3, Write(1), steps);
    steps := [Write(1)] + steps;
    RunOne(s2, Clock(1), steps);
    steps := [Clock(1)] + steps;
    RunOne(s1, Clock(1), steps);
    steps := [Clock(1)] + steps;
    RunOne(s, Clock(1), steps);
    steps := [Clock(1)] + steps;
  }

  /** One that waits for a heartbeat's row lock moves the last update before the last activity. */
  lemma BulkBackdatesUpdate(who: Identity) returns (steps: seq<Step>)
    ensures Runs(Init(0), steps) && BulksOnly(steps, {who.sandboxId}) && who.id in Final(Init(0), steps).rows
    ensures var r := Final(Init(0), steps).rows[who.id]; r.who == who && !ActivityRecorded(r)
  {
    var id := who.id;
    var s1 := Apply(Init(0), Create(who, 0));
    var s2 := Apply(s1, IssueBulk(0, who.sandboxId));
    assert s2.tasks[0].targets == {id};
    var s3 := Apply(s2, Read(1, UpdateActivity(7, 9), id));
    var s4 := Apply(s3, Tick(1));
    steps := HeartbeatThenHit(s4, id);
    RunOne(s3, Tick(1), steps);
    steps := [Tick(1)] + steps;
    RunOne(s2, Read(1, UpdateActivity(7, 9), id), steps);
    steps := [Read(1, UpdateActivity(7, 9), id)] + steps;
    RunOne(s1, IssueBulk(0, who.sandboxId), steps);
    steps := [IssueBulk(0, who.sandboxId)] + steps;
    RunOne(Init(0), Create(who, 0), steps);
    steps := [Create(who, 0)] + steps;
  }

  /** Bulk statements are issued for sandboxes of this set only. */
  predicate BulksOnly(steps: seq<Step>, allowed: set<Uuid>) {
    forall i | 0 <= i < |steps| && steps[i].IssueBulk? :: steps[i].sandbox in allowed
  }

  lemma {:induction false} BulkedOnly(s: State, steps: seq<Step>, allowed: set<Uuid>)
    requires Runs(s, steps) && BulksOnly(steps, allowed) && s.bulked <= allowed
    ensures Final(s, steps).bulked <= allowed
    decreases steps
  {
    if steps != [] {
      assert forall i | 0 <= i < |steps[1..]| :: steps[1..][i] == steps[i + 1];
      BulkedOnly(Apply(s, steps[0]), steps[1..], allowed);
    }
  }

  /** `r` is a record of this sandbox after some run whose bulk statements are for the allowed sandboxes. */
  ghost predicate CanBecome(r: SshSession, sandbox: Uuid, allowed: set<Uuid>) {
    exists start, steps :: IsOutcome(r, sandbox, allowed, start, steps)
  }

  ghost predicate IsOutcome(r: SshSession, sandbox: Uuid, allowed: set<Uuid>, start: Time, steps: seq<Step>) {
    && Runs(Init(start), steps) && BulksOnly(steps, allowed) && r.who.sandboxId == sandbox
    && r.who.id in Final(Init(start), steps).rows && Final(Init(start), steps).rows[r.who.id] == r
  }

  /**
   All runs keep the durations of a sandbox's sessions exact if and only if none of them issues a bulk
   statement for it; and the same holds for their last activity being recorded.
   */
  lemma RecordsExactIff(sandbox: Uuid, allowed: set<Uuid>)
    ensures (forall r | CanBecome(r, sandbox, allowed) :: DurationExact(r)) <==> sandbox !in allowed
    ensures (forall r | CanBecome(r, sandbox, allowed) :: ActivityRecorded(r)) <==> sandbox !in allowed
  {
    if sandbox in allowed {
      var who := SOMEONE.(sandboxId := sandbox);
      var lost := BulkLosesDuration(who);
      var r := Final(Init(0), lost).rows[who.id];
      assert IsOutcome(r, sandbox, allowed, 0, lost) && !DurationExact(r);
      var late := BulkBackdatesUpdate(who);
      var q := Final(Init(0), late).rows[who.id];
      assert IsOutcome(q, sandbox, allowed, 0, late) && !ActivityRecorded(q);
    } else {
      forall r | CanBecome(r, sandbox, allowed) ensures DurationExact(r) && ActivityRecorded(r) {
        var start, steps :| IsOutcome(r, sandbox, allowed, start, steps);
        BulkedOnly(Init(start), steps, allowed);
        EveryRunKeepsRecords(start, steps, r.who.id);
      }
    }
  }
}
