/** How long a mapping can stay in the cache without being used. */
module SessionStaleness {
  import opened SessionCache
  import opened SessionProtocol

  // ---------- what a sweep evicts ----------

  /** A visited shard loses exactly its entries that were idle for the TTL at the captured time. */
  lemma SweepEvictsExactlyStale(c: Config, s: State, shard: nat, key: string)
    requires Enabled(c, s, SweepShard(shard)) && key in s.slots
    ensures key !in Apply(c, s, SweepShard(shard)).slots <==>
            c.shardOf(key) == shard && s.slots[key].entry.accessed + TTL <= s.sweep.captured
    ensures key in Apply(c, s, SweepShard(shard)).slots ==> Apply(c, s, SweepShard(shard)).slots[key] == s.slots[key]
  {}

  predicate CapturedInPast(s: State) { s.sweep.Sweeping? ==> s.sweep.captured <= s.now }

  lemma {:induction false} RunCapturesInPast(c: Config, s: State, steps: seq<Step>)
    requires Runs(c, s, steps) && CapturedInPast(s)
    ensures CapturedInPast(Final(c, s, steps))
    decreases steps
  {
    if steps != [] { RunCapturesInPast(c, Apply(c, s, steps[0]), steps[1..]); }
  }

  /** The step uses `key`, and thereby restamps its entry if there is one. */
  predicate Uses(s: State, step: Step, key: string) {
    match step
    case Get(k, _) => k == key
    case ResolveHit(k, _) => k == key
    case Insert(t) => t in s.tasks && s.tasks[t].Created? && s.tasks[t].key == key
    case _ => false
  }

  /** A `set` stores `key` with a time stamp that is already stale for the running sweep. */
  predicate StoresStale(s: State, step: Step, key: string) {
    && step.ApplySet? && step.task in s.tasks && s.tasks[step.task].Storing? && s.tasks[step.task].key == key
    && s.sweep.Sweeping? && Stale(s.sweep.captured, s.tasks[step.task].stamped)
  }

  /** The steps belong to one sweep, and no `set` stores `key` with a stale time stamp. */
  ghost predicate WithinSweep(c: Config, s: State, steps: seq<Step>, key: string)
    requires Runs(c, s, steps)
    decreases steps
  {
    steps == [] ||
    (!steps[0].SweepEnd? && !StoresStale(s, steps[0], key) && WithinSweep(c, Apply(c, s, steps[0]), steps[1..], key))
  }

  ghost predicate NeverEvicts(c: Config, s: State, steps: seq<Step>, key: string)
    requires Runs(c, s, steps)
    decreases steps
  {
    steps == [] ||
    (!(steps[0].SweepShard? && key in StaleKeys(c, s, steps[0].shard, s.sweep.captured))
     && NeverEvicts(c, Apply(c, s, steps[0]), steps[1..], key))
  }

  lemma {:induction false} FreshIsNotEvicted(c: Config, s: State, steps: seq<Step>, key: string)
    requires Runs(c, s, steps) && WithinSweep(c, s, steps, key)
    requires s.sweep.Sweeping? && s.sweep.captured <= s.now
    requires key in s.slots ==> !Stale(s.sweep.captured, s.slots[key].entry.accessed)
    ensures NeverEvicts(c, s, steps, key)
    decreases steps
  {
    if steps != [] { FreshIsNotEvicted(c, Apply(c, s, steps[0]), steps[1..], key); }
  }

  /**
   In every run, an entry that is used while a sweep is under way is not evicted by that sweep,
   whatever else happens, unless a `set` stores the key with a stale time stamp.
   */
  lemma UsedIsNotEvicted(c: Config, before: seq<Step>, use: Step, after: seq<Step>, key: string)
    requires Runs(c, INIT, before) && Final(c, INIT, before).sweep.Sweeping?
    requires Enabled(c, Final(c, INIT, before), use) && Uses(Final(c, INIT, before), use, key)
    requires Runs(c, Apply(c, Final(c, INIT, before), use), after)
    requires WithinSweep(c, Apply(c, Final(c, INIT, before), use), after, key)
    ensures NeverEvicts(c, Apply(c, Final(c, INIT, before), use), after, key)
  {
    RunCapturesInPast(c, INIT, before);
    FreshIsNotEvicted(c, Apply(c, Final(c, INIT, before), use), after, key);
  }

  // ---------- the schedule ----------

  /** How long after taking its time stamp a `set` may store it: it is delayed until it gets the shard's lock. */
  predicate WaitsAtMost(s: State, step: Step, wait: nat) {
    step.ApplySet? && step.task in s.tasks && s.tasks[step.task].Storing?
    ==> s.now <= s.tasks[step.task].stamped + wait
  }

  /** A sweep is captured on a tick of the timer, which fires at every multiple of the interval. */
  predicate OnTick(s: State, step: Step) { step.SweepStart? ==> s.now % INTERVAL == 0 }

  /**
   No `set` is delayed for longer than `wait`, and at every moment some sweep captured no more than an interval
   ago has ended, give or take the `lag` that a sweep needs. With `ticks`, every sweep is captured
   exactly when the timer fires.
   */
  ghost predicate Timely(c: Config, s: State, steps: seq<Step>, wait: nat, lag: nat, ticks: bool)
    requires Runs(c, s, steps)
    decreases steps
  {
    && s.now <= s.swept + INTERVAL + lag
    && (steps == [] || (
          && WaitsAtMost(s, steps[0], wait) && (ticks ==> OnTick(s, steps[0]))
          && Timely(c, Apply(c, s, steps[0]), steps[1..], wait, lag, ticks)))
  }

  predicate IdleBelow(s: State, bound: nat) {
    forall key | key in s.slots :: Idle(s.now, s.slots[key].entry.accessed) < bound
  }

  /** The longest idle time with which an entry can get past a sweep, or into the cache just after one. */
  function Longest(wait: nat): nat { if wait < TTL then TTL - 1 else wait }

  // ---------- the bound holds ----------

  /** Nothing is stamped in the future, and no entry was idle for longer than `most` at the last sweep. */
  ghost predicate Fresh(c: Config, s: State, most: nat) {
    && s.swept <= s.now
    && (s.sweep.Sweeping? ==> s.swept <= s.sweep.captured <= s.now)
    && (forall t | t in s.tasks && s.tasks[t].Storing? :: s.tasks[t].stamped <= s.now)
    && (forall key | key in s.slots ::
          && s.slots[key].entry.accessed <= s.now
          && s.swept <= s.slots[key].entry.accessed + most
          && (s.sweep.Sweeping? && c.shardOf(key) in s.sweep.visited ==>
                s.sweep.captured <= s.slots[key].entry.accessed + most))
  }

  lemma FreshStep(c: Config, s: State, step: Step, wait: nat)
    requires ValidConfig(c) && Fresh(c, s, Longest(wait)) && Enabled(c, s, step) && WaitsAtMost(s, step, wait)
    ensures Fresh(c, Apply(c, s, step), Longest(wait))
  {}

  lemma {:induction false} FreshRun(c: Config, s: State, steps: seq<Step>, wait: nat, lag: nat, ticks: bool)
    requires ValidConfig(c) && Fresh(c, s, Longest(wait)) && Runs(c, s, steps) && Timely(c, s, steps, wait, lag, ticks)
    ensures Fresh(c, Final(c, s, steps), Longest(wait))
    ensures Final(c, s, steps).now <= Final(c, s, steps).swept + INTERVAL + lag
    decreases steps
  {
    if steps != [] {
      FreshStep(c, s, steps[0], wait);
      FreshRun(c, Apply(c, s, steps[0]), steps[1..], wait, lag, ticks);
    }
  }

  /** No entry is ever idle for longer than the longest wait or survival, plus interval and lag. */
  lemma StalenessBound(c: Config, steps: seq<Step>, wait: nat, lag: nat, ticks: bool)
    requires ValidConfig(c) && Runs(c, INIT, steps) && Timely(c, INIT, steps, wait, lag, ticks)
    ensures IdleBelow(Final(c, INIT, steps), Longest(wait) + INTERVAL + lag + 1)
  {
    FreshRun(c, INIT, steps, wait, lag, ticks);
  }

  // ---------- the bound is reached ----------

  lemma {:induction false} RunsOn(c: Config, s: State, a: seq<Step>, b: seq<Step>, wait: nat, lag: nat)
    requires Runs(c, s, a) && Runs(c, Final(c, s, a), b)
    requires Timely(c, s, a, wait, lag, true) && Timely(c, Final(c, s, a), b, wait, lag, true)
    ensures Runs(c, s, a + b) && Final(c, s, a + b) == Final(c, Final(c, s, a), b)
    ensures Timely(c, s, a + b, wait, lag, true)
    decreases a
  {
    if a == [] {
      assert a + b == b;
    } else {
      assert (a + b)[1..] == a[1..] + b;
      RunsOn(c, Apply(c, s, a[0]), a[1..], b, wait, lag);
    }
  }

  lemma OneStep(c: Config, s: State, step: Step, wait: nat, lag: nat)
    requires Enabled(c, s, step) && WaitsAtMost(s, step, wait) && OnTick(s, step)
    requires s.now <= s.swept + INTERVAL + lag
    requires Apply(c, s, step).now <= Apply(c, s, step).swept + INTERVAL + lag
    ensures Runs(c, s, [step]) && Final(c, s, [step]) == Apply(c, s, step)
    ensures Timely(c, s, [step], wait, lag, true)
  {
    var s' := Apply(c, s, step);
    assert [step][1..] == [];
    assert Runs(c, s', []) && Final(c, s', []) == s' && Timely(c, s', [], wait, lag, true);
  }

  const ONE_SHARD := Config(1, (key: string) => 0)

  /** Between two sweeps, of which the next finds nothing to evict. */
  ghost predicate Quiet(s: State, next: Instant) {
    && s.locks == map[] && s.sweep.NoSweep? && s.swept % INTERVAL == 0 && s.swept <= s.now <= s.swept + INTERVAL
    && forall key | key in s.slots :: !Stale(next, s.slots[key].entry.accessed)
  }

  lemma DropNothing(s: State, cause: Cause)
    ensures Drop(s, {}, cause) == s
  {
    assert s.slots - {} == s.slots;
  }

  /** The timer fires and the sweep finds nothing. */
  lemma QuietSweep(s: State, wait: nat, lag: nat) returns (steps: seq<Step>)
    requires Quiet(s, s.swept + INTERVAL)
    ensures Runs(ONE_SHARD, s, steps) && Timely(ONE_SHARD, s, steps, wait, lag, true)
    ensures Final(ONE_SHARD, s, steps) == s.(now := s.swept + INTERVAL, swept := s.swept + INTERVAL)
  {
    var c, time := ONE_SHARD, s.swept + INTERVAL;
    OneStep(c, s, Tick(time), wait, lag);
    var s1 := Apply(c, s, Tick(time));
    OneStep(c, s1, SweepStart, wait, lag);
    var s2 := Apply(c, s1, SweepStart);
    assert StaleKeys(c, s2, 0, time) == {};
    DropNothing(s2, Evicted);
    OneStep(c, s2, SweepShard(0), wait, lag);
    var s3 := Apply(c, s2, SweepShard(0));
    OneStep(c, s3, SweepEnd, wait, lag);
    RunsOn(c, s2, [SweepShard(0)], [SweepEnd], wait, lag);
    RunsOn(c, s1, [SweepStart], [SweepShard(0)] + [SweepEnd], wait, lag);
    RunsOn(c, s, [Tick(time)], [SweepStart] + ([SweepShard(0)] + [SweepEnd]), wait, lag);
    steps := [Tick(time)] + ([SweepStart] + ([SweepShard(0)] + [SweepEnd]));
  }

  /** So do the next `n` sweeps. */
  lemma {:induction false} QuietSweeps(s: State, n: nat, wait: nat, lag: nat) returns (steps: seq<Step>)
    requires n > 0 && Quiet(s, s.swept + n * INTERVAL)
    ensures Runs(ONE_SHARD, s, steps) && Timely(ONE_SHARD, s, steps, wait, lag, true)
    ensures Final(ONE_SHARD, s, steps) == s.(now := s.swept + n * INTERVAL, swept := s.swept + n * INTERVAL)
    decreases n
  {
    steps := QuietSweep(s, wait, lag);
    if n > 1 {
      var next := s.swept + INTERVAL;
      var rest := QuietSweeps(s.(now := next, swept := next), n - 1, wait, lag);
      RunsOn(ONE_SHARD, s, steps, rest, wait, lag);
      steps := steps + rest;
    }
  }

  /** A moment such that waiting from it for `span` ends on a tick. */
  lemma PhaseFor(span: nat) returns (phase: nat, n: nat)
    requires span > 0
    ensures phase < INTERVAL && n > 0 && phase + span == n * INTERVAL
  {
    var q, r := span / INTERVAL, span % INTERVAL;
    if r == 0 { phase, n := 0, q; } else { phase, n := INTERVAL - r, q + 1; }
  }

  /** A `set` takes its time stamp at `phase`. */
  lemma StampAt(phase: nat, wait: nat, lag: nat) returns (steps: seq<Step>)
    requires phase < INTERVAL
    ensures Runs(ONE_SHARD, INIT, steps) && Timely(ONE_SHARD, INIT, steps, wait, lag, true)
    ensures Final(ONE_SHARD, INIT, steps) == INIT.(now := phase, tasks := map[0 := Storing("", 0, phase)])
  {
    var s := Apply(ONE_SHARD, INIT, Tick(phase));
    OneStep(ONE_SHARD, INIT, Tick(phase), wait, lag);
    OneStep(ONE_SHARD, s, StampSet(0, "", 0), wait, lag);
    RunsOn(ONE_SHARD, INIT, [Tick(phase)], [StampSet(0, "", 0)], wait, lag);
    steps := [Tick(phase)] + [StampSet(0, "", 0)];
  }

  /** That `set` stores it in time. */
  lemma StoreNow(s: State, phase: nat, wait: nat, lag: nat)
    requires s == INIT.(now := s.now, swept := s.swept, tasks := map[0 := Storing("", 0, phase)])
    requires s.now <= phase + wait && s.now <= s.swept + INTERVAL + lag
    ensures Runs(ONE_SHARD, s, [ApplySet(0)]) && Timely(ONE_SHARD, s, [ApplySet(0)], wait, lag, true)
    ensures Final(ONE_SHARD, s, [ApplySet(0)])
         == INIT.(now := s.now, swept := s.swept, slots := map["" := Slot(Cached(0, phase), BySet)])
  {
    OneStep(ONE_SHARD, s, ApplySet(0), wait, lag);
    assert Drop(s, {""}, Overwritten) == s;
    assert s.tasks - {0} == map[];
  }

  /** Some run on schedule ends with an entry that has been idle for exactly that long. */
  lemma StalenessReached(wait: nat, lag: nat) returns (steps: seq<Step>)
    ensures Runs(ONE_SHARD, INIT, steps) && Timely(ONE_SHARD, INIT, steps, wait, lag, true)
    ensures var s := Final(ONE_SHARD, INIT, steps);
            "" in s.slots && Idle(s.now, s.slots[""].entry.accessed) == Longest(wait) + INTERVAL + lag
  {
    var c := ONE_SHARD;
    var phase, n := PhaseFor(Longest(wait));
    var stamped := StampAt(phase, wait, lag);
    var s1 := Final(c, INIT, stamped);
    var stored := StoredAtSweep(s1, phase, n, wait, lag);
    RunsOn(c, INIT, stamped, stored, wait, lag);
    var s2 := Final(c, s1, stored);
    var last := Tick(s2.now + INTERVAL + lag);
    OneStep(c, s2, last, wait, lag);
    RunsOn(c, INIT, stamped + stored, [last], wait, lag);
    steps := stamped + stored + [last];
  }

  /** The entry passes `n` sweeps if its `set` is quick, or else comes into the cache just after them. */
  lemma StoredAtSweep(s: State, phase: nat, n: nat, wait: nat, lag: nat) returns (steps: seq<Step>)
    requires s == INIT.(now := phase, tasks := map[0 := Storing("", 0, phase)])
    requires phase < INTERVAL && n > 0 && phase + Longest(wait) == n * INTERVAL
    ensures Runs(ONE_SHARD, s, steps) && Timely(ONE_SHARD, s, steps, wait, lag, true)
    ensures Final(ONE_SHARD, s, steps)
         == INIT.(now := n * INTERVAL, swept := n * INTERVAL, slots := map["" := Slot(Cached(0, phase), BySet)])
  {
    if wait < TTL {
      StoreNow(s, phase, wait, lag);
      var s1 := Final(ONE_SHARD, s, [ApplySet(0)]);
      var sweeps := QuietSweeps(s1, n, wait, lag);
      RunsOn(ONE_SHARD, s, [ApplySet(0)], sweeps, wait, lag);
      steps := [ApplySet(0)] + sweeps;
    } else {
      var sweeps := QuietSweeps(s, n, wait, lag);
      var s1 := Final(ONE_SHARD, s, sweeps);
      StoreNow(s1, phase, wait, lag);
      RunsOn(ONE_SHARD, s, sweeps, [ApplySet(0)], wait, lag);
      steps := sweeps + [ApplySet(0)];
    }
  }

  // ---------- exactly ----------

  lemma {:induction false} TicksAreTimely(c: Config, s: State, steps: seq<Step>, wait: nat, lag: nat, ticks: bool)
    requires Runs(c, s, steps) && Timely(c, s, steps, wait, lag, true)
    ensures Timely(c, s, steps, wait, lag, ticks)
    decreases steps
  {
    if steps != [] { TicksAreTimely(c, Apply(c, s, steps[0]), steps[1..], wait, lag, ticks); }
  }

  /** The bounds on idle time that hold in all timely runs are exactly those above the longest one. */
  lemma IdleBoundIff(wait: nat, lag: nat, ticks: bool, bound: nat)
    ensures (forall c, steps | ValidConfig(c) && Runs(c, INIT, steps) && Timely(c, INIT, steps, wait, lag, ticks) ::
               IdleBelow(Final(c, INIT, steps), bound))
            <==> Longest(wait) + INTERVAL + lag < bound
  {
    if Longest(wait) + INTERVAL + lag < bound {
      forall c, steps | ValidConfig(c) && Runs(c, INIT, steps) && Timely(c, INIT, steps, wait, lag, ticks)
        ensures IdleBelow(Final(c, INIT, steps), bound)
      {
        StalenessBound(c, steps, wait, lag, ticks);
      }
    } else {
      var steps := StalenessReached(wait, lag);
      TicksAreTimely(ONE_SHARD, INIT, steps, wait, lag, ticks);
      assert ValidConfig(ONE_SHARD) && !IdleBelow(Final(ONE_SHARD, INIT, steps), bound);
    }
  }

  /**
   With sweeps on schedule no mapping is ever idle for TTL + INTERVAL, plus the lag of a sweep, if and
   only if every `set` is delayed for less than the TTL.
   */
  lemma StalenessBoundIff(wait: nat, lag: nat, ticks: bool)
    ensures (forall c, steps | ValidConfig(c) && Runs(c, INIT, steps) && Timely(c, INIT, steps, wait, lag, ticks) ::
               IdleBelow(Final(c, INIT, steps), TTL + INTERVAL + lag))
            <==> wait < TTL
  {
    IdleBoundIff(wait, lag, ticks, TTL + INTERVAL + lag);
  }

  /** In numbers: 35 minutes, if every `set` is delayed for less than 30 minutes and sweeps do not lag. */
  lemma ThirtyFiveMinutesIff(wait: nat, ticks: bool)
    ensures (forall c, steps | ValidConfig(c) && Runs(c, INIT, steps) && Timely(c, INIT, steps, wait, 0, ticks) ::
               IdleBelow(Final(c, INIT, steps), 2_100_000_000_000))
            <==> wait < 1_800_000_000_000
  {
    StalenessBoundIff(wait, 0, ticks);
  }
}
