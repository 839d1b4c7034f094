/** What every run of the session cache keeps. */
module SessionGuarantees {
  import opened SessionCache
  import opened SessionProtocol
  import opened Wrappers

  // ---------- the invariant ----------

  ghost predicate Inv(c: Config, s: State) { LocksHeld(c, s) && Conserved(s) }

  lemma InvStep(c: Config, s: State, step: Step)
    requires Inv(c, s) && Enabled(c, s, step)
    ensures Inv(c, Apply(c, s, step))
  {
    LocksHeldStep(c, s, step);
    ConservedStep(c, s, step);
  }

  lemma {:induction false} InvRun(c: Config, s: State, steps: seq<Step>)
    requires Inv(c, s) && Runs(c, s, steps)
    ensures Inv(c, Final(c, s, steps))
    decreases steps
  {
    if steps != [] {
      InvStep(c, s, steps[0]);
      InvRun(c, Apply(c, s, steps[0]), steps[1..]);
    }
  }

  lemma ReachableInv(c: Config, s: State)
    requires Reachable(c, s)
    ensures Inv(c, s)
  {
    var steps :| Runs(c, INIT, steps) && Final(c, INIT, steps) == s;
    InvRun(c, INIT, steps);
  }

  // ---------- the atomic steps are the manager's operations ----------

  /** Each atomic step changes the cache as the corresponding `SessionManager` method does. */
  lemma StepsAreOperations(c: Config, s: State, step: Step)
    requires Enabled(c, s, step)
    ensures var before, after := Plain(s.slots), Plain(Apply(c, s, step).slots);
            match step
            case Get(key, _) => after == Touch(before, key, s.now)
            case ResolveHit(key, _) => after == Touch(before, key, s.now)
            case Insert(t) => after == before[s.tasks[t].key := Cached(s.tasks[t].id, s.now)]
            case ApplySet(t) => after == before[s.tasks[t].key := Cached(s.tasks[t].id, s.tasks[t].stamped)]
            case Remove(key, _) => after == before - {key}
            case ClearShard(shard) =>
              after == map key | key in before && c.shardOf(key) != shard :: before[key]
            case SweepShard(shard) =>
              after == map key | key in before && (c.shardOf(key) != shard || key in Retain(before, s.sweep.captured))
                       :: before[key]
            case _ => after == before
  {}

  // ---------- single flight ----------

  /** At most one creation is in flight per key, and even per shard. */
  lemma SingleFlight(c: Config, s: State, t: TaskId, u: TaskId)
    requires Reachable(c, s) && t in s.tasks && u in s.tasks && InFlight(s.tasks[t]) && InFlight(s.tasks[u])
    requires c.shardOf(s.tasks[t].key) == c.shardOf(s.tasks[u].key)
    ensures t == u
  {
    ReachableInv(c, s);
  }

  /** While a creation is in flight nobody else changes its shard. */
  lemma {:induction false} FlightIsolatesShard(c: Config, s: State, steps: seq<Step>, t: TaskId, key: string)
    requires Inv(c, s) && Runs(c, s, steps) && t in s.tasks && InFlight(s.tasks[t])
    requires c.shardOf(key) == c.shardOf(s.tasks[t].key)
    requires forall i | 0 <= i < |steps| :: steps[i] != Insert(t) && steps[i] != CreateFail(t)
    ensures var s' := Final(c, s, steps);
            && t in s'.tasks && InFlight(s'.tasks[t]) && s'.tasks[t].key == s.tasks[t].key
            && (key in s'.slots <==> key in s.slots) && (key in s.slots ==> s'.slots[key] == s.slots[key])
    decreases steps
  {
    if steps != [] {
      InvStep(c, s, steps[0]);
      assert forall i | 0 <= i < |steps[1..]| :: steps[1..][i] == steps[i + 1];
      FlightIsolatesShard(c, Apply(c, s, steps[0]), steps[1..], t, key);
    }
  }

  /**
   A creation that fails, however long it took and whatever happened meanwhile, leaves its whole shard
   as it found it, its key absent and the shard unlocked.
   */
  lemma FailedFlightLeavesNoTrace(c: Config, s: State, t: TaskId, key: string, steps: seq<Step>, other: string)
    requires Inv(c, s) && Enabled(c, s, BeginCreate(t, key))
    requires Runs(c, Apply(c, s, BeginCreate(t, key)), steps)
    requires forall i | 0 <= i < |steps| :: steps[i] != Insert(t) && steps[i] != CreateFail(t)
    requires Enabled(c, Final(c, Apply(c, s, BeginCreate(t, key)), steps), CreateFail(t))
    requires c.shardOf(other) == c.shardOf(key)
    ensures var after := Apply(c, Final(c, Apply(c, s, BeginCreate(t, key)), steps), CreateFail(t));
            && key !in after.slots && t !in after.tasks && c.shardOf(key) !in after.locks
            && (other in after.slots <==> other in s.slots)
            && (other in s.slots ==> after.slots[other] == s.slots[other])
  {
    var begun := Apply(c, s, BeginCreate(t, key));
    InvStep(c, s, BeginCreate(t, key));
    FlightIsolatesShard(c, begun, steps, t, other);
    InvRun(c, begun, steps);
  }

  // ---------- one sandbox per session ----------

  /** The steps that may take or replace the sandbox of `key`. */
  predicate Disturbs(c: Config, s: State, step: Step, key: string) {
    match step
    case Remove(k, _) => k == key
    case ApplySet(t) => t in s.tasks && s.tasks[t].Storing? && s.tasks[t].key == key
    case ClearShard(shard) => shard == c.shardOf(key)
    case SweepShard(shard) => s.sweep.Sweeping? && key in StaleKeys(c, s, shard, s.sweep.captured)
    case _ => false
  }

  ghost predicate Undisturbed(c: Config, s: State, steps: seq<Step>, key: string)
    requires Runs(c, s, steps)
    decreases steps
  {
    steps == [] || (!Disturbs(c, s, steps[0], key) && Undisturbed(c, Apply(c, s, steps[0]), steps[1..], key))
  }

  /** Every answer about `key` is `id`, and no creation for `key` begins, succeeds or is inserted. */
  ghost predicate AlwaysAnswers(c: Config, s: State, steps: seq<Step>, key: string, id: Uuid)
    requires Runs(c, s, steps)
    decreases steps
  {
    steps == [] || (
      && (match steps[0]
          case Get(k, r) => k == key ==> r == Some(id)
          case ResolveHit(k, r) => k == key ==> r == id
          case BeginCreate(_, k) => k != key
          case CreateOk(t, _) => s.tasks[t].key != key
          case Insert(t) => s.tasks[t].key != key
          case _ => true)
      && AlwaysAnswers(c, Apply(c, s, steps[0]), steps[1..], key, id))
  }

  /** Until the mapping is removed, evicted, cleared or overwritten, it is the one answer. */
  lemma {:induction false} MappingIsStable(c: Config, s: State, steps: seq<Step>, key: string, id: Uuid)
    requires Inv(c, s) && Runs(c, s, steps) && Undisturbed(c, s, steps, key)
    requires Lookup(Plain(s.slots), key) == Some(id)
    ensures Lookup(Plain(Final(c, s, steps).slots), key) == Some(id)
    ensures AlwaysAnswers(c, s, steps, key, id)
    decreases steps
  {
    if steps != [] {
      InvStep(c, s, steps[0]);
      MappingIsStable(c, Apply(c, s, steps[0]), steps[1..], key, id);
    }
  }

  /** The step answers a resolve, by hit or by insertion after a creation. */
  predicate Resolves(c: Config, s: State, step: Step, key: string, id: Uuid) {
    Enabled(c, s, step) &&
    match step
    case ResolveHit(k, i) => k == key && i == id
    case Insert(t) => s.tasks[t].key == key && s.tasks[t].id == id
    case _ => false
  }

  /** From a successful resolve on, until the mapping is disturbed, its answer is the one answer. */
  lemma ResolveIsStable(c: Config, s: State, resolve: Step, steps: seq<Step>, key: string, id: Uuid)
    requires Reachable(c, s) && Resolves(c, s, resolve, key, id)
    requires Runs(c, Apply(c, s, resolve), steps) && Undisturbed(c, Apply(c, s, resolve), steps, key)
    ensures Lookup(Plain(Final(c, Apply(c, s, resolve), steps).slots), key) == Some(id)
    ensures AlwaysAnswers(c, Apply(c, s, resolve), steps, key, id)
  {
    ReachableInv(c, s);
    InvStep(c, s, resolve);
    MappingIsStable(c, Apply(c, s, resolve), steps, key, id);
  }

  // ---------- conservation, counted ----------

  function Creators(s: State): set<TaskId> { set t | t in s.tasks && s.tasks[t].Created? }

  function ResolvedKeys(s: State): set<string> { set key | key in s.slots && s.slots[key].origin == ByResolve }

  /** An injective image has as many elements. */
  lemma {:induction false} SameSize<A, B>(xs: set<A>, ys: set<B>, f: A -> B)
    requires forall x, y | x in xs && y in xs && f(x) == f(y) :: x == y
    requires forall x | x in xs :: f(x) in ys
    requires forall y | y in ys :: exists x :: x in xs && f(x) == y
    ensures |xs| == |ys|
    decreases xs
  {
    if xs == {} {
      assert ys == {} by { assert forall y :: y !in ys; }
    } else {
      var x :| x in xs;
      SameSize(xs - {x}, ys - {f(x)}, f);
    }
  }

  function TaskIds(s: State): set<Uuid> { set t | t in Creators(s) :: s.tasks[t].id }

  function KeyIds(s: State): set<Uuid> { set key | key in ResolvedKeys(s) :: s.slots[key].entry.sandbox }

  function LogIds(s: State): set<Uuid> { set d | d in s.gone :: d.id }

  lemma PlacesCounted(s: State)
    requires Conserved(s)
    ensures |Creators(s)| == |TaskIds(s)| && |ResolvedKeys(s)| == |KeyIds(s)| && |s.gone| == |LogIds(s)|
  {
    var f := (t: TaskId) => if t in s.tasks && s.tasks[t].Created? then s.tasks[t].id else 0;
    forall t | t in Creators(s) ensures IsAt(s, f(t), WithTask(t)) {}
    SameSize(Creators(s), TaskIds(s), f);
    var g := (key: string) => if key in s.slots then s.slots[key].entry.sandbox else 0;
    forall key | key in ResolvedKeys(s) ensures IsAt(s, g(key), AtKey(key)) {}
    SameSize(ResolvedKeys(s), KeyIds(s), g);
    var h := (d: Departure) => d.id;
    forall d | d in s.gone ensures IsAt(s, h(d), InLog(d.cause)) {}
    SameSize(s.gone, LogIds(s), h);
  }

  lemma PlacesPartition(s: State)
    requires Conserved(s)
    ensures s.created == TaskIds(s) + KeyIds(s) + LogIds(s)
    ensures TaskIds(s) !! KeyIds(s) && (TaskIds(s) + KeyIds(s)) !! LogIds(s)
  {
    forall id | id in TaskIds(s) ensures exists t :: IsAt(s, id, WithTask(t)) {
      var t :| t in Creators(s) && s.tasks[t].id == id;
      assert IsAt(s, id, WithTask(t));
    }
    forall id | id in KeyIds(s) ensures exists key :: IsAt(s, id, AtKey(key)) {
      var key :| key in ResolvedKeys(s) && s.slots[key].entry.sandbox == id;
      assert IsAt(s, id, AtKey(key));
    }
    forall id | id in LogIds(s) ensures exists cause :: IsAt(s, id, InLog(cause)) {
      var d :| d in s.gone && d.id == id;
      assert IsAt(s, id, InLog(d.cause));
    }
    forall id | id in s.created ensures id in TaskIds(s) + KeyIds(s) + LogIds(s) {
      var p :| IsAt(s, id, p);
      match p {
        case WithTask(t) => assert t in Creators(s);
        case AtKey(key) => assert key in ResolvedKeys(s);
        case InLog(cause) => assert Departure(id, cause) in s.gone;
      }
    }
  }

  /** Creations succeeded = not yet inserted + mapped + logged as gone. */
  lemma CreationsAddUp(c: Config, s: State)
    requires Reachable(c, s)
    ensures |s.created| == |Creators(s)| + |ResolvedKeys(s)| + |s.gone|
  {
    ReachableInv(c, s);
    PlacesCounted(s);
    PlacesPartition(s);
  }
}
