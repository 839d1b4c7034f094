/**
 The same cache used by many tasks at once. A `DashMap` is a fixed number of shards, each behind a
 lock. Get, remove and the hit of `resolve_or_create` lock a shard for one atomic step; a miss keeps
 the shard locked while the DSB server creates a sandbox; `set` takes its time stamp first and the
 lock later; clearing and sweeping visit the shards one after the other. Steps of different tasks
 interleave in any order; the DSB server is an oracle that fails or returns an unused id.
 */
module SessionProtocol {
  import opened SessionCache
  import opened Wrappers

  type TaskId = nat

  datatype Config = Config(shards: nat, shardOf: string -> nat)

  ghost predicate ValidConfig(c: Config) {
    forall key :: c.shardOf(key) < c.shards
  }

  datatype Pc =
    | Creating(key: string)
    | Created(key: string, id: Uuid)
    | Storing(key: string, id: Uuid, stamped: Instant)

  datatype Origin = ByResolve | BySet

  /** A cache entry, with a note on who put it there. */
  datatype Slot = Slot(entry: Cached, origin: Origin)

  datatype Cause = Removed | Evicted | Cleared | Overwritten

  datatype Departure = Departure(id: Uuid, cause: Cause)

  datatype SweepState = NoSweep | Sweeping(captured: Instant, visited: set<nat>)

  datatype State = State(
    slots: map<string, Slot>,
    tasks: map<TaskId, Pc>,
    locks: map<nat, TaskId>,
    now: Instant,
    sweep: SweepState,
    swept: Instant,             // the captured time of the last finished sweep
    created: set<Uuid>,         // what resolve_or_create has created
    gone: set<Departure>)       // what it created and the cache no longer holds

  const INIT := State(map[], map[], map[], 0, NoSweep, 0, {}, {})

  datatype Step =
    | Get(key: string, result: Option<Uuid>)
    | ResolveHit(key: string, id: Uuid)
    | BeginCreate(task: TaskId, key: string)
    | CreateOk(task: TaskId, id: Uuid)
    | CreateFail(task: TaskId)
    | Insert(task: TaskId)
    | StampSet(task: TaskId, key: string, id: Uuid)
    | ApplySet(task: TaskId)
    | Remove(key: string, result: Option<Uuid>)
    | ClearShard(shard: nat)
    | SweepStart
    | SweepShard(shard: nat)
    | SweepEnd
    | Tick(time: Instant)

  function Plain(slots: map<string, Slot>): Sessions {
    map key | key in slots :: slots[key].entry
  }

  predicate Free(c: Config, s: State, key: string) { c.shardOf(key) !in s.locks }

  predicate InFlight(pc: Pc) { pc.Creating? || pc.Created? }

  predicate Enabled(c: Config, s: State, step: Step) {
    match step
    case Get(key, r) => Free(c, s, key) && r == Lookup(Plain(s.slots), key)
    case ResolveHit(key, id) => Free(c, s, key) && Lookup(Plain(s.slots), key) == Some(id)
    case BeginCreate(t, key) => t !in s.tasks && Free(c, s, key) && key !in s.slots
    case CreateOk(t, id) => t in s.tasks && s.tasks[t].Creating? && id !in s.created
    case CreateFail(t) => t in s.tasks && s.tasks[t].Creating?
    case Insert(t) => t in s.tasks && s.tasks[t].Created?
    case StampSet(t, _, _) => t !in s.tasks
    case ApplySet(t) => t in s.tasks && s.tasks[t].Storing? && Free(c, s, s.tasks[t].key)
    case Remove(key, r) => Free(c, s, key) && r == Lookup(Plain(s.slots), key)
    case ClearShard(shard) => shard < c.shards && shard !in s.locks
    case SweepStart => s.sweep.NoSweep?
    case SweepShard(shard) =>
      s.sweep.Sweeping? && shard < c.shards && shard !in s.sweep.visited && shard !in s.locks
    case SweepEnd => s.sweep.Sweeping? && forall shard | 0 <= shard < c.shards :: shard in s.sweep.visited
    case Tick(time) => s.now <= time
  }

  /** Drops some keys and logs what `resolve_or_create` had put there. */
  function Drop(s: State, keys: set<string>, cause: Cause): State {
    s.(slots := s.slots - keys,
       gone := s.gone + set key | key in keys && key in s.slots && s.slots[key].origin == ByResolve
                        :: Departure(s.slots[key].entry.sandbox, cause))
  }

  function TouchSlot(s: State, key: string): State {
    if key in s.slots then
      s.(slots := s.slots[key := s.slots[key].(entry := s.slots[key].entry.(accessed := s.now))])
    else s
  }

  function ShardKeys(c: Config, s: State, shard: nat): set<string> {
    set key | key in s.slots && c.shardOf(key) == shard
  }

  function StaleKeys(c: Config, s: State, shard: nat, captured: Instant): set<string> {
    set key | key in s.slots && c.shardOf(key) == shard && Stale(captured, s.slots[key].entry.accessed)
  }

  function Apply(c: Config, s: State, step: Step): State
    requires Enabled(c, s, step)
  {
    match step
    case Get(key, _) => TouchSlot(s, key)
    case ResolveHit(key, _) => TouchSlot(s, key)
    case BeginCreate(t, key) => s.(tasks := s.tasks[t := Creating(key)], locks := s.locks[c.shardOf(key) := t])
    case CreateOk(t, id) => s.(tasks := s.tasks[t := Created(s.tasks[t].key, id)], created := s.created + {id})
    case CreateFail(t) => s.(tasks := s.tasks - {t}, locks := s.locks - {c.shardOf(s.tasks[t].key)})
    case Insert(t) =>
      var pc := s.tasks[t];
      s.(slots := s.slots[pc.key := Slot(Cached(pc.id, s.now), ByResolve)],
         tasks := s.tasks - {t}, locks := s.locks - {c.shardOf(pc.key)})
    case StampSet(t, key, id) => s.(tasks := s.tasks[t := Storing(key, id, s.now)])
    case ApplySet(t) =>
      var pc := s.tasks[t];
      var d := Drop(s, {pc.key}, Overwritten);
      d.(slots := d.slots[pc.key := Slot(Cached(pc.id, pc.stamped), BySet)], tasks := s.tasks - {t})
    case Remove(key, _) => Drop(s, {key}, Removed)
    case ClearShard(shard) => Drop(s, ShardKeys(c, s, shard), Cleared)
    case SweepStart => s.(sweep := Sweeping(s.now, {}))
    case SweepShard(shard) =>
      Drop(s, StaleKeys(c, s, shard, s.sweep.captured), Evicted)
        .(sweep := s.sweep.(visited := s.sweep.visited + {shard}))
    case SweepEnd => s.(sweep := NoSweep, swept := s.sweep.captured)
    case Tick(time) => s.(now := time)
  }

  // ---------- runs ----------

  ghost predicate Runs(c: Config, s: State, steps: seq<Step>)
    decreases steps
  {
    steps == [] || (Enabled(c, s, steps[0]) && Runs(c, Apply(c, s, steps[0]), steps[1..]))
  }

  ghost function Final(c: Config, s: State, steps: seq<Step>): State
    requires Runs(c, s, steps)
    decreases steps
  {
    if steps == [] then s else Final(c, Apply(c, s, steps[0]), steps[1..])
  }

  ghost predicate Reachable(c: Config, s: State) {
    exists steps :: Runs(c, INIT, steps) && Final(c, INIT, steps) == s
  }

  // ---------- who holds what ----------

  /** A task that is creating holds the lock of its shard, and its key is still absent. */
  ghost predicate LocksHeld(c: Config, s: State) {
    && (forall t | t in s.tasks && InFlight(s.tasks[t]) ::
          && s.tasks[t].key !in s.slots
          && c.shardOf(s.tasks[t].key) in s.locks && s.locks[c.shardOf(s.tasks[t].key)] == t)
    && (forall shard | shard in s.locks :: s.locks[shard] in s.tasks && InFlight(s.tasks[s.locks[shard]])
          && c.shardOf(s.tasks[s.locks[shard]].key) == shard)
  }

  lemma LocksHeldStep(c: Config, s: State, step: Step)
    requires LocksHeld(c, s) && Enabled(c, s, step)
    ensures LocksHeld(c, Apply(c, s, step))
  {}

  /** Where a created sandbox can be: with its creator, in the cache, or in the log. */
  datatype Place = WithTask(task: TaskId) | AtKey(key: string) | InLog(cause: Cause)

  ghost predicate IsAt(s: State, id: Uuid, p: Place) {
    match p
    case WithTask(t) => t in s.tasks && s.tasks[t].Created? && s.tasks[t].id == id
    case AtKey(key) => key in s.slots && s.slots[key].origin == ByResolve && s.slots[key].entry.sandbox == id
    case InLog(cause) => Departure(id, cause) in s.gone
  }

  /** Every created sandbox is in exactly one place, and nothing else is in any. */
  ghost predicate Conserved(s: State) {
    && (forall id | id in s.created :: exists p :: IsAt(s, id, p))
    && (forall id, p | IsAt(s, id, p) :: id in s.created)
    && (forall id, p, q | IsAt(s, id, p) && IsAt(s, id, q) :: p == q)
  }

  /** A step that only moves sandboxes, each as `move` says, conserves them. */
  lemma MoveConserves(s: State, s': State, move: (Uuid, Place) -> Place)
    requires Conserved(s) && s'.created == s.created
    requires forall id, p | IsAt(s, id, p) :: IsAt(s', id, move(id, p))
    requires forall id, q | IsAt(s', id, q) :: exists p :: IsAt(s, id, p) && q == move(id, p)
    ensures Conserved(s')
  {
    forall id | id in s'.created ensures exists q :: IsAt(s', id, q) {
      var p :| IsAt(s, id, p);
      assert IsAt(s', id, move(id, p));
    }
  }

  lemma DropConserves(s: State, keys: set<string>, cause: Cause)
    requires Conserved(s)
    ensures Conserved(Drop(s, keys, cause))
  {
    var d := Drop(s, keys, cause);
    var move := (id: Uuid, p: Place) => if p.AtKey? && p.key in keys then InLog(cause) else p;
    forall id, p | IsAt(s, id, p) ensures IsAt(d, id, move(id, p)) {}
    forall id, q | IsAt(d, id, q) ensures exists p :: IsAt(s, id, p) && q == move(id, p) {
      if q.InLog? && Departure(id, q.cause) !in s.gone {
        var key :| key in keys && key in s.slots && s.slots[key].origin == ByResolve
                   && Departure(s.slots[key].entry.sandbox, cause) == Departure(id, q.cause);
        assert IsAt(s, id, AtKey(key)) && q == move(id, AtKey(key));
      } else {
        assert IsAt(s, id, q) && q == move(id, q);
      }
    }
    MoveConserves(s, d, move);
  }

  lemma ConservedStep(c: Config, s: State, step: Step)
    requires LocksHeld(c, s) && Conserved(s) && Enabled(c, s, step)
    ensures Conserved(Apply(c, s, step))
  {
    var s' := Apply(c, s, step);
    match step {
      case Remove(key, _) => DropConserves(s, {key}, Removed);
      case ClearShard(shard) => DropConserves(s, ShardKeys(c, s, shard), Cleared);
      case SweepShard(shard) =>
        var d := Drop(s, StaleKeys(c, s, shard, s.sweep.captured), Evicted);
        DropConserves(s, StaleKeys(c, s, shard, s.sweep.captured), Evicted);
        assert forall id, p :: IsAt(s', id, p) <==> IsAt(d, id, p);
      case ApplySet(t) =>
        var d := Drop(s, {s.tasks[t].key}, Overwritten);
        DropConserves(s, {s.tasks[t].key}, Overwritten);
        forall id, p ensures IsAt(s', id, p) <==> IsAt(d, id, p) {}
      case CreateOk(t, id) => CreateConserves(c, s, t, id);
      case Insert(t) => InsertConserves(c, s, t);
      case _ => forall id, p ensures IsAt(s', id, p) <==> IsAt(s, id, p) {}
    }
  }

  lemma CreateConserves(c: Config, s: State, t: TaskId, id: Uuid)
    requires Conserved(s) && Enabled(c, s, CreateOk(t, id))
    ensures Conserved(Apply(c, s, CreateOk(t, id)))
  {
    var s' := Apply(c, s, CreateOk(t, id));
    forall i, p ensures IsAt(s', i, p) <==> IsAt(s, i, p) || (i == id && p == WithTask(t)) {}
    forall i | i in s'.created ensures exists p :: IsAt(s', i, p) {
      if i == id {
        assert IsAt(s', id, WithTask(t));
      } else {
        var p :| IsAt(s, i, p);
        assert IsAt(s', i, p);
      }
    }
  }

  lemma InsertConserves(c: Config, s: State, t: TaskId)
    requires LocksHeld(c, s) && Conserved(s) && Enabled(c, s, Insert(t))
    ensures Conserved(Apply(c, s, Insert(t)))
  {
    var s', pc := Apply(c, s, Insert(t)), s.tasks[t];
    var move := (id: Uuid, p: Place) => if p == WithTask(t) then AtKey(pc.key) else p;
    forall id, q | IsAt(s', id, q) ensures exists p :: IsAt(s, id, p) && q == move(id, p) {
      if q == AtKey(pc.key) {
        assert IsAt(s, id, WithTask(t));
      } else {
        assert IsAt(s, id, q) && q == move(id, q);
      }
    }
    MoveConserves(s, s', move);
  }
}
