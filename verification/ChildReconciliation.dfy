/** reconcileVpa and reconcileHpa: claim, synchronise, delete duplicates, delete or create, with API calls that may fail
    (controllers/hvpa_controller.go, controllers/vpa_util.go, and controllers/hpa_util.go for the first API version). */
module ChildReconciliation {
  import opened Ownership

  /** What each call of one pass returns. `latest` answers the rereads of the HVPA; `fetched` tells whether an object
      can be read before it is updated; `newId` is the name the server picks. */
  datatype Calls = Calls(listOk: bool, latest: nat -> Reread, patch: nat -> Outcome, fetched: nat -> bool,
                         update: nat -> Outcome, delete: nat -> Outcome, create: Outcome, newId: nat, getOk: bool)

  datatype PassResult = Ok | Error | Panic

  // ---------- synchronising the claimed objects ----------

  /** What vpaSpecNeedChange and hpaSpecNeedChange compare, where they can. */
  predicate InSync(o: Owner, c: Child) {
    c.spec == o.Spec()
  }

  function Synced(o: Owner, c: Child): Child {
    c.(spec := o.Spec())
  }

  /** The pointers that are used without a check are set. */
  predicate Readable(spec: ChildSpec) {
    match spec
    case HpaSpec(minReplicas, _, _, _) => minReplicas.Some?
    case VpaSpec(_, mode) => mode.Some?
  }

  /** The comparison reads the minimum of an HPA first, and the mode of a VPA only if the policies are equal. */
  predicate ComparePanics(o: Owner, c: Child) {
    match c.spec
    case HpaSpec(minReplicas, _, _, _) => minReplicas.None?
    case VpaSpec(policy, mode) => o.wanted.WantVpa? && policy == o.wanted.policy && mode.None?
  }

  /** The update writes through the mode of a VPA; of an HPA it replaces the pointer. */
  predicate UpdatePanics(c: Child) {
    c.spec.VpaSpec? && c.spec.mode.None?
  }

  datatype Sync = Sync(store: Store, result: PassResult)

  /** One claimed object. */
  function SyncOne(o: Owner, store: Store, id: nat, calls: Calls): Sync
    requires id in store
  {
    var c := store[id];
    if ComparePanics(o, c) then Sync(store, Panic)
    else if InSync(o, c) then Sync(store, Ok)
    else if !calls.fetched(id) then Sync(store, Error)
    else if UpdatePanics(c) then Sync(store, Panic)
    else
      match calls.update(id)
      case Done => Sync(store[id := Synced(o, c)], Ok)
      case Gone => Sync(store - {id}, Error)
      case _ => Sync(store, Error)
  }

  lemma SyncOneKeepsOthers(o: Owner, store: Store, id: nat, calls: Calls)
    requires id in store
    ensures var after := SyncOne(o, store, id, calls);
            && (after.result == Ok ==> after.store.Keys == store.Keys)
            && after.store.Keys <= store.Keys
            && (forall i :: i in store && i != id ==> i in after.store && after.store[i] == store[i])
            && (id in after.store ==>
                  after.store[id].owners == store[id].owners && after.store[id].labels == store[id].labels
                  && after.store[id].deleting == store[id].deleting)
  {
  }

  ghost predicate Present(ids: seq<nat>, store: Store) {
    forall id :: id in ids ==> id in store
  }

  function SyncAll(o: Owner, store: Store, ids: seq<nat>, calls: Calls): Sync
    requires Present(ids, store)
  {
    if ids == [] then Sync(store, Ok)
    else
      var first := SyncOne(o, store, ids[0], calls);
      if first.result != Ok then first
      else
        SyncOneKeepsOthers(o, store, ids[0], calls);
        SyncAll(o, first.store, ids[1..], calls)
  }

  method SyncSpecs(o: Owner, api: ApiServer, ids: seq<nat>, calls: Calls) returns (result: PassResult)
    requires Present(ids, api.objects)
    modifies api
    ensures Sync(api.objects, result) == SyncAll(o, old(api.objects), ids, calls)
  {
    var k := 0;
    while k < |ids|
      invariant 0 <= k <= |ids| && Present(ids[k..], api.objects)
      invariant SyncAll(o, old(api.objects), ids, calls) == SyncAll(o, api.objects, ids[k..], calls)
    {
      var id := ids[k];
      assert ids[k..][0] == id && ids[k..][1..] == ids[k + 1..];
      var c := api.objects[id];
      SyncOneKeepsOthers(o, api.objects, id, calls);
      if ComparePanics(o, c) {
        return Panic;
      }
      if !InSync(o, c) {
        if !calls.fetched(id) {
          return Error;
        }
        if UpdatePanics(c) {
          return Panic;
        }
        var outcome := api.Write(id, Synced(o, c), calls.update(id));
        if outcome != Done {
          return Error;
        }
      }
      k := k + 1;
    }
    result := Ok;
  }

  // ---------- deleting ----------

  predicate Removes(outcome: Outcome) {
    outcome == Done || outcome == Gone
  }

  function DeleteAll(store: Store, ids: seq<nat>, outcomes: nat -> Outcome): Store {
    map id | id in store && !(id in ids && Removes(outcomes(id))) :: store[id]
  }

  /** All but the first are deleted, and failures are only logged. */
  method DeleteDuplicates(api: ApiServer, ids: seq<nat>, outcomes: nat -> Outcome)
    requires Present(ids, api.objects) && ids != []
    requires forall i, j :: 0 <= i < j < |ids| ==> ids[i] != ids[j]
    modifies api
    ensures api.objects == DeleteAll(old(api.objects), ids[1..], outcomes)
  {
    var i := 1;
    assert ids[1..1] == [];
    while i < |ids|
      invariant 1 <= i <= |ids|
      invariant api.objects == DeleteAll(old(api.objects), ids[1..i], outcomes)
    {
      assert ids[1..i + 1] == ids[1..i] + [ids[i]];
      assert ids[i] !in ids[1..i];
      var outcome := api.Delete(ids[i], outcomes(ids[i]));
      i := i + 1;
    }
    assert ids[1..i] == ids[1..];
  }

  // ---------- one pass ----------

  function NewChild(o: Owner): Child {
    Child(o.templateLabels, [Ref(o)], false, o.Spec())
  }

  function ClaimStep(o: Owner, store: Store, listing: seq<nat>, calls: Calls): Store {
    AfterClaims(o, store, listing, StillLive(o, calls.latest(0)), calls.patch)
  }

  function ClaimList(o: Owner, store: Store, listing: seq<nat>, calls: Calls): seq<nat>
    requires forall id :: id in listing ==> id in store
  {
    ClaimedIds(o, store, listing, StillLive(o, calls.latest(0)), calls.patch)
  }

  ghost predicate ClaimFails(o: Owner, store: Store, listing: seq<nat>, calls: Calls)
    requires forall id :: id in listing ==> id in store
  {
    SomeFailed(o, store, listing, StillLive(o, calls.latest(0)), calls.patch)
  }

  /** What is claimed is listed once, and is in the store after claiming. */
  lemma {:induction false} ClaimedArePresent(o: Owner, store: Store, ids: seq<nat>, canAdopt: bool, outcomes: nat -> Outcome)
    requires Present(ids, store)
    requires forall i, j :: 0 <= i < j < |ids| ==> ids[i] != ids[j]
    ensures var claimed := ClaimedIds(o, store, ids, canAdopt, outcomes);
            && (forall id :: id in claimed <==> id in ids && Claim(o, store[id], canAdopt, outcomes(id)).mine)
            && (forall i, j :: 0 <= i < j < |claimed| ==> claimed[i] != claimed[j])
  {
    hide Claim;
    if ids != [] {
      var n := |ids| - 1;
      assert ids == ids[..n] + [ids[n]];
      ClaimedArePresent(o, store, ids[..n], canAdopt, outcomes);
      assert ids[n] !in ids[..n];
    }
  }

  lemma MineIsKept(o: Owner, c: Child, canAdopt: bool, outcome: Outcome)
    ensures Claim(o, c, canAdopt, outcome).mine ==> Claim(o, c, canAdopt, outcome).after.Some?
  {
  }

  lemma ClaimListPresent(o: Owner, store: Store, listing: seq<nat>, calls: Calls)
    requires Lists(listing, store)
    ensures Present(ClaimList(o, store, listing, calls), ClaimStep(o, store, listing, calls))
    ensures var claimed := ClaimList(o, store, listing, calls);
            forall i, j :: 0 <= i < j < |claimed| ==> claimed[i] != claimed[j]
  {
    var canAdopt := StillLive(o, calls.latest(0));
    ClaimedArePresent(o, store, listing, canAdopt, calls.patch);
    forall id | id in ClaimList(o, store, listing, calls)
      ensures id in ClaimStep(o, store, listing, calls)
    {
      MineIsKept(o, store[id], canAdopt, calls.patch(id));
    }
    hide Claim;
  }

  /** The rest of the pass, once objects are claimed. */
  function KeepOne(o: Owner, store: Store, claimed: seq<nat>, calls: Calls): Sync
    requires claimed != [] && Present(claimed, store)
  {
    var sync := SyncAll(o, store, claimed, calls);
    if sync.result != Ok then sync
    else
      var kept := DeleteAll(sync.store, claimed[1..], calls.delete);
      if !o.deploy then
        Sync(if Removes(calls.delete(claimed[0])) then kept - {claimed[0]} else kept,
             if calls.delete(claimed[0]) == Done then Ok else Error)
      else Sync(kept, if calls.getOk || o.LosesErrors() then Ok else Error)
  }

  predicate Creates(store: Store, calls: Calls) {
    calls.create == Done && calls.newId !in store
  }

  function CreateOne(o: Owner, store: Store, calls: Calls): Sync {
    if !o.deploy then Sync(store, Ok)
    else if o.templateOwned then Sync(store, Error)
    else if Creates(store, calls) then Sync(store[calls.newId := NewChild(o)], Ok)
    else Sync(store, if o.LosesErrors() then Ok else Error)
  }

  /** The store and the result after one pass. */
  ghost function Pass(o: Owner, store: Store, listing: seq<nat>, calls: Calls): Sync
    requires Lists(listing, store)
  {
    if !calls.listOk then Sync(store, Error)
    else
      var after, claimed := ClaimStep(o, store, listing, calls), ClaimList(o, store, listing, calls);
      if ClaimFails(o, store, listing, calls) then Sync(after, Error)
      else if claimed == [] then CreateOne(o, after, calls)
      else
        ClaimListPresent(o, store, listing, calls);
        KeepOne(o, after, claimed, calls)
  }

  lemma {:induction false} SyncKeepsKeys(o: Owner, store: Store, ids: seq<nat>, calls: Calls)
    requires Present(ids, store)
    ensures var after := SyncAll(o, store, ids, calls);
            && after.store.Keys <= store.Keys
            && (after.result == Ok ==> after.store.Keys == store.Keys)
            && (forall i :: i in after.store ==>
                  && after.store[i].owners == store[i].owners && after.store[i].labels == store[i].labels
                  && after.store[i].deleting == store[i].deleting)
            && (forall i :: i in store && i !in ids ==> i in after.store && after.store[i] == store[i])
  {
    if ids != [] {
      SyncOneKeepsOthers(o, store, ids[0], calls);
      var first := SyncOne(o, store, ids[0], calls);
      hide SyncOne;
      if first.result == Ok {
        SyncKeepsKeys(o, first.store, ids[1..], calls);
      }
    }
  }

  /** One pass. Without an error, a status is returned exactly if a child is to be deployed. */
  method ReconcileChildren(o: Owner, api: ApiServer, listing: seq<nat>, calls: Calls)
    returns (result: PassResult, hasStatus: bool)
    requires Lists(listing, api.objects)
    modifies api
    ensures Sync(api.objects, result) == Pass(o, old(api.objects), listing, calls)
    ensures result == Ok ==> (hasStatus <==> o.deploy)
  {
    hide SyncAll, DeleteAll, AfterClaims, ClaimedIds, SomeFailed;
    ghost var store := api.objects;
    if !calls.listOk {
      return Error, false;
    }
    var manager := new RefManager(o, calls.latest);
    ClaimListPresent(o, store, listing, calls);
    var claimed, failed := manager.ClaimChildren(api, listing, calls.patch);
    if failed {
      return Error, false;
    }
    if claimed != [] {
      SyncKeepsKeys(o, api.objects, claimed, calls);
      result := SyncSpecs(o, api, claimed, calls);
      if result != Ok {
        return result, false;
      }
      ghost var synced := api.objects;
      DeleteDuplicates(api, claimed, calls.delete);
      if !o.deploy {
        assert claimed[0] in api.objects by {
          FirstIsKept(synced, claimed, calls.delete);
        }
        var outcome := api.Delete(claimed[0], calls.delete(claimed[0]));
        return if outcome == Done then Ok else Error, false;
      }
      return if calls.getOk || o.LosesErrors() then Ok else Error, true;
    }
    if !o.deploy {
      return Ok, false;
    }
    if o.templateOwned {
      return Error, false;
    }
    var created := api.Create(calls.newId, NewChild(o), calls.create);
    var ok := created || o.LosesErrors();
    return if ok then Ok else Error, ok;
  }

  lemma FirstIsKept(store: Store, ids: seq<nat>, outcomes: nat -> Outcome)
    requires ids != [] && Present(ids, store)
    requires forall i, j :: 0 <= i < j < |ids| ==> ids[i] != ids[j]
    ensures ids[0] in DeleteAll(store, ids[1..], outcomes)
  {
  }
}
