/** The in-memory sandbox store and the views that an API key has of it. */
module StateStore {
  import opened Sorting
  import opened Wrappers

  type Uuid = nat

  datatype Sandbox = Sandbox(
    id: Uuid, state: string, containerId: Option<string>, errorMessage: Option<string>,
    deletedAt: Option<int>, deletedBy: Option<string>, apiKeyId: Option<Uuid>)

  type Sandboxes = map<Uuid, Sandbox>

  /** Every record is stored under its own id. */
  predicate Keyed(m: Sandboxes) { forall id | id in m :: m[id].id == id }

  predicate OwnedBy(s: Sandbox, apiKey: Uuid) { s.apiKeyId == Some(apiKey) }

  /** Soft-deleted records show only on request. */
  predicate Shown(s: Sandbox, apiKey: Uuid, includeDeleted: bool) {
    OwnedBy(s, apiKey) && (includeDeleted || s.deletedAt == None)
  }

  /** Both maps hold the same under this id. */
  predicate SameAt(m: Sandboxes, m': Sandboxes, id: Uuid) {
    (id in m <==> id in m') && (id in m ==> m[id] == m'[id])
  }

  function OwnedGet(m: Sandboxes, id: Uuid, apiKey: Uuid, includeDeleted: bool): Option<Sandbox> {
    if id in m && Shown(m[id], apiKey, includeDeleted) then Some(m[id]) else None
  }

  /** The values that an owner's list shows. */
  function Listed(m: Sandboxes, apiKey: Uuid, includeDeleted: bool): set<Sandbox> {
    set s | s in m.Values && Shown(s, apiKey, includeDeleted)
  }

  class StateStore {
    var sandboxes: Sandboxes

    constructor ()
      ensures sandboxes == map[]
    {
      sandboxes := map[];
    }

    method CreateSandbox(sandbox: Sandbox)
      modifies this
      ensures sandboxes == Apply(old(sandboxes), Put(sandbox))
      ensures sandbox.id in sandboxes && sandboxes[sandbox.id] == sandbox
      ensures forall id | id != sandbox.id :: SameAt(old(sandboxes), sandboxes, id)
    {
      sandboxes := sandboxes[sandbox.id := sandbox];
    }

    method UpdateSandbox(sandbox: Sandbox)
      modifies this
      ensures sandboxes == Apply(old(sandboxes), Put(sandbox))
      ensures sandbox.id in sandboxes && sandboxes[sandbox.id] == sandbox
      ensures forall id | id != sandbox.id :: SameAt(old(sandboxes), sandboxes, id)
    {
      sandboxes := sandboxes[sandbox.id := sandbox];
    }

    method DeleteSandbox(id: Uuid)
      modifies this
      ensures sandboxes == Apply(old(sandboxes), Delete(id))
      ensures id !in sandboxes
      ensures forall i | i != id :: SameAt(old(sandboxes), sandboxes, i)
    {
      sandboxes := sandboxes - {id};
    }

    /** The result lists each shown record once, in any order. */
    method ListSandboxesOwnedBy(apiKey: Uuid, includeDeleted: bool) returns (r: seq<Sandbox>)
      requires Keyed(sandboxes)
      ensures Enumerates(r, Listed(sandboxes, apiKey, includeDeleted))
    {
      r := [];
      var todo := sandboxes.Keys;
      while todo != {}
        invariant todo <= sandboxes.Keys && NoDuplicates(r)
        invariant forall s :: s in r <==> s.id !in todo && s in Listed(sandboxes, apiKey, includeDeleted)
        decreases todo
      {
        var id :| id in todo;
        todo := todo - {id};
        var s := sandboxes[id];
        assert s !in r;
        if Shown(s, apiKey, includeDeleted) { r := r + [s]; }
      }
    }

    method GetSandboxIfOwnedBy(id: Uuid, apiKey: Uuid) returns (r: Option<Sandbox>)
      ensures r == OwnedGet(sandboxes, id, apiKey, false)
      ensures r.Some? <==> id in sandboxes && sandboxes[id].apiKeyId == Some(apiKey) && sandboxes[id].deletedAt == None
      ensures r.Some? ==> r.value == sandboxes[id]
    {
      if id !in sandboxes { return None; }
      var s := sandboxes[id];
      r := if s.apiKeyId == Some(apiKey) && s.deletedAt == None then Some(s) else None;
    }

    method GetSandboxWithDeletedIfOwnedBy(id: Uuid, apiKey: Uuid, includeDeleted: bool) returns (r: Option<Sandbox>)
      ensures r == OwnedGet(sandboxes, id, apiKey, includeDeleted)
      ensures r.Some? <==>
                id in sandboxes && sandboxes[id].apiKeyId == Some(apiKey) && (sandboxes[id].deletedAt == None || includeDeleted)
      ensures r.Some? ==> r.value == sandboxes[id]
    {
      if id !in sandboxes { return None; }
      var s := sandboxes[id];
      r := if s.apiKeyId == Some(apiKey) && (includeDeleted || s.deletedAt == None) then Some(s) else None;
    }
  }

  // ---------- runs ----------

  datatype Op = Put(sandbox: Sandbox) | Delete(id: Uuid)

  function Apply(m: Sandboxes, op: Op): Sandboxes {
    match op
    case Put(s) => m[s.id := s]
    case Delete(id) => m - {id}
  }

  function ApplyAll(m: Sandboxes, ops: seq<Op>): Sandboxes
    decreases ops
  {
    if ops == [] then m else ApplyAll(Apply(m, ops[0]), ops[1..])
  }

  /** The last operation on this id decides: a sandbox was put, or it was deleted, or nothing happened to it. */
  function LastWrite(m: Sandboxes, ops: seq<Op>, id: Uuid): Option<Sandbox> {
    if ops == [] then if id in m then Some(m[id]) else None
    else match ops[|ops| - 1]
      case Put(s) => if s.id == id then Some(s) else LastWrite(m, ops[..|ops| - 1], id)
      case Delete(i) => if i == id then None else LastWrite(m, ops[..|ops| - 1], id)
  }

  lemma {:induction false} ApplyLast(m: Sandboxes, ops: seq<Op>)
    requires ops != []
    ensures ApplyAll(m, ops) == Apply(ApplyAll(m, ops[..|ops| - 1]), ops[|ops| - 1])
    decreases ops
  {
    if |ops| == 1 {
      assert ops[1..] == [] && ops[..0] == [];
    } else {
      assert ops[..|ops| - 1][1..] == ops[1..][..|ops[1..]| - 1];
      ApplyLast(Apply(m, ops[0]), ops[1..]);
    }
  }

  /** After any run the store holds under an id what the last operation on that id left there. */
  lemma {:induction false} StoreHoldsLastWrite(m: Sandboxes, ops: seq<Op>, id: Uuid)
    ensures LastWrite(m, ops, id) == if id in ApplyAll(m, ops) then Some(ApplyAll(m, ops)[id]) else None
  {
    if ops != [] {
      ApplyLast(m, ops);
      StoreHoldsLastWrite(m, ops[..|ops| - 1], id);
    }
  }

  lemma {:induction false} RunsKeepKeys(m: Sandboxes, ops: seq<Op>)
    requires Keyed(m)
    ensures Keyed(ApplyAll(m, ops))
    decreases ops
  {
    if ops != [] { RunsKeepKeys(Apply(m, ops[0]), ops[1..]); }
  }

  /**
   After any run an owner's list and the owner's gets tell the same: the listed records are exactly the
   results of the gets over all ids, and each is the result for its own id only.
   */
  lemma ListAgreesWithGets(ops: seq<Op>, apiKey: Uuid, includeDeleted: bool, s: Sandbox, id: Uuid)
    ensures var m := ApplyAll(map[], ops);
            && (s in Listed(m, apiKey, includeDeleted) <==> OwnedGet(m, s.id, apiKey, includeDeleted) == Some(s))
            && (OwnedGet(m, id, apiKey, includeDeleted) == Some(s) <==> id == s.id && s in Listed(m, apiKey, includeDeleted))
  {
    var m := ApplyAll(map[], ops);
    RunsKeepKeys(map[], ops);
    if id in m && m[id] == s { assert s in m.Values; }
    if s in m.Values { assert s.id in m && m[s.id] == s; }
    if s.id in m && m[s.id] == s { assert s in m.Values; }
  }

  /** An owner sees a record after a run exactly if it was the last one put under its id, and is not hidden. */
  lemma OwnerSeesLastWrite(ops: seq<Op>, id: Uuid, apiKey: Uuid, includeDeleted: bool, s: Sandbox)
    ensures OwnedGet(ApplyAll(map[], ops), id, apiKey, includeDeleted) == Some(s) <==>
            && LastWrite(map[], ops, id) == Some(s)
            && s.apiKeyId == Some(apiKey) && (includeDeleted || s.deletedAt == None)
  {
    StoreHoldsLastWrite(map[], ops, id);
  }

  // ---------- isolation of owners ----------

  ghost predicate SameViews(m: Sandboxes, m': Sandboxes, apiKey: Uuid) {
    forall id, includeDeleted :: OwnedGet(m, id, apiKey, includeDeleted) == OwnedGet(m', id, apiKey, includeDeleted)
  }

  /** The operation meets a record of this key, or writes one. */
  predicate Touches(m: Sandboxes, op: Op, apiKey: Uuid) {
    match op
    case Put(s) => OwnedBy(s, apiKey) || (s.id in m && OwnedBy(m[s.id], apiKey))
    case Delete(id) => id in m && OwnedBy(m[id], apiKey)
  }

  /** A key notices an operation if and only if it touches one of the key's records and changes it. */
  lemma ViewsUnchangedIff(m: Sandboxes, op: Op, apiKey: Uuid)
    requires Keyed(m)
    ensures SameViews(m, Apply(m, op), apiKey) <==> !Touches(m, op, apiKey) || Apply(m, op) == m
  {
    var id := if op.Put? then op.sandbox.id else op.id;
    if SameViews(m, Apply(m, op), apiKey) {
      assert OwnedGet(m, id, apiKey, true) == OwnedGet(Apply(m, op), id, apiKey, true);
    }
  }

  ghost predicate NeverTouches(m: Sandboxes, ops: seq<Op>, apiKey: Uuid)
    decreases ops
  {
    ops == [] || (!Touches(m, ops[0], apiKey) && NeverTouches(Apply(m, ops[0]), ops[1..], apiKey))
  }

  /** What other owners do, in any number of operations, is invisible to a key. */
  lemma {:induction false} OwnersAreIsolated(m: Sandboxes, ops: seq<Op>, apiKey: Uuid)
    requires Keyed(m) && NeverTouches(m, ops, apiKey)
    ensures SameViews(m, ApplyAll(m, ops), apiKey)
    decreases ops
  {
    if ops != [] {
      ViewsUnchangedIff(m, ops[0], apiKey);
      OwnersAreIsolated(Apply(m, ops[0]), ops[1..], apiKey);
    }
  }
}
