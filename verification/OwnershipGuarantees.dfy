/** What the passes over children guarantee: exact claims, convergence and idempotence of one HVPA's passes, and
    safety of control over every interleaving of passes by several HVPAs. */
module OwnershipGuarantees {
  import opened HvpaTypes
  import opened Ownership
  import opened ChildReconciliation

  // ---------- control is never shared or taken ----------

  ghost predicate SingleControllers(store: Store) {
    forall id :: id in store ==> SingleController(store[id].owners)
  }

  /** Some other controller has the object. */
  predicate Foreign(c: Child, uid: nat) {
    ControllerOf(c.owners).Some? && ControllerOf(c.owners).value.uid != uid
  }

  lemma ClaimKeepsSingle(o: Owner, c: Child, canAdopt: bool, outcome: Outcome)
    requires SingleController(c.owners)
    ensures var claim := Claim(o, c, canAdopt, outcome);
            && (claim.after.Some? ==> SingleController(claim.after.value.owners))
            && (Foreign(c, o.uid) ==> claim == Claimed(false, false, Some(c)))
            && (claim.mine ==> claim.after.Some? && ControlledBy(claim.after.value, o.uid))
  {
    if ControllerOf(c.owners).Some? {
      WithoutKeeps(c.owners, o.uid);
    } else {
      AdoptionControls(c.owners, Ref(o));
    }
  }

  /** What every stage of a pass keeps. `Foreign` objects stay as they are. */
  ghost predicate Respects(o: Owner, before: Store, after: Store) {
    && (SingleControllers(before) ==> SingleControllers(after))
    && (forall id :: id in before && Foreign(before[id], o.uid) ==> id in after && after[id] == before[id])
  }

  lemma ClaimRespects(o: Owner, store: Store, listing: seq<nat>, calls: Calls)
    requires Lists(listing, store) && SingleControllers(store)
    ensures Respects(o, store, ClaimStep(o, store, listing, calls))
    ensures forall id :: id in ClaimList(o, store, listing, calls) ==>
              id in ClaimStep(o, store, listing, calls) && ControlledBy(ClaimStep(o, store, listing, calls)[id], o.uid)
  {
    var canAdopt := StillLive(o, calls.latest(0));
    ClaimListPresent(o, store, listing, calls);
    ClaimedArePresent(o, store, listing, canAdopt, calls.patch);
    forall id | id in store
      ensures var claim := Claim(o, store[id], canAdopt, calls.patch(id));
              && (claim.after.Some? ==> SingleController(claim.after.value.owners))
              && (Foreign(store[id], o.uid) ==> claim == Claimed(false, false, Some(store[id])))
              && (claim.mine ==> claim.after.Some? && ControlledBy(claim.after.value, o.uid))
    {
      ClaimKeepsSingle(o, store[id], canAdopt, calls.patch(id));
    }
    hide Claim, SingleController, ClaimedIds;
  }

  lemma KeptKeeps(o: Owner, store: Store, claimed: seq<nat>, calls: Calls)
    requires claimed != [] && Present(claimed, store)
    ensures var kept := KeepOne(o, store, claimed, calls).store;
            && (forall id :: id in kept ==> id in store && kept[id].owners == store[id].owners)
            && (forall id :: id in store && id !in claimed ==> id in kept && kept[id] == store[id])
  {
    SyncKeepsKeys(o, store, claimed, calls);
    hide SyncAll;
    assert claimed[0] in claimed && forall id :: id in claimed[1..] ==> id in claimed;
  }

  lemma KeepOneRespects(o: Owner, store: Store, claimed: seq<nat>, calls: Calls)
    requires claimed != [] && SingleControllers(store)
    requires forall id :: id in claimed ==> id in store && ControlledBy(store[id], o.uid)
    ensures Respects(o, store, KeepOne(o, store, claimed, calls).store)
  {
    KeptKeeps(o, store, claimed, calls);
    assert forall id :: id in store && Foreign(store[id], o.uid) ==> id !in claimed;
    hide KeepOne, SingleController, Foreign, ControlledBy;
  }

  lemma CreateRespects(o: Owner, store: Store, calls: Calls)
    ensures Respects(o, store, CreateOne(o, store, calls).store)
  {
    assert SingleController(NewChild(o).owners);
    hide SingleController, Foreign;
  }

  /** Safety of one pass, whatever calls fail: no object gets a second controller, and no object that someone else
      controls is changed, released or deleted. */
  lemma PassRespects(o: Owner, store: Store, listing: seq<nat>, calls: Calls)
    requires Lists(listing, store) && SingleControllers(store)
    ensures Respects(o, store, Pass(o, store, listing, calls).store)
  {
    hide KeepOne, CreateOne, SingleController, Foreign, ControlledBy;
    ClaimRespects(o, store, listing, calls);
    ClaimListPresent(o, store, listing, calls);
    var after, claimed := ClaimStep(o, store, listing, calls), ClaimList(o, store, listing, calls);
    hide ClaimStep, ClaimList, ClaimFails;
    CreateRespects(o, after, calls);
    if claimed != [] {
      KeepOneRespects(o, after, claimed, calls);
    }
  }

  // ---------- interleavings ----------

  datatype PassBy = PassBy(owner: Owner, listing: seq<nat>, calls: Calls)

  /** Passes one after the other; each one lists the objects that are there when it starts. */
  ghost predicate Interleaving(store: Store, passes: seq<PassBy>)
    decreases |passes|
  {
    passes != [] ==>
      && Lists(passes[0].listing, store)
      && Interleaving(Pass(passes[0].owner, store, passes[0].listing, passes[0].calls).store, passes[1..])
  }

  ghost function AfterPasses(store: Store, passes: seq<PassBy>): Store
    requires Interleaving(store, passes)
    decreases |passes|
  {
    if passes == [] then store
    else AfterPasses(Pass(passes[0].owner, store, passes[0].listing, passes[0].calls).store, passes[1..])
  }

  /** Safety over all interleavings: no object ever has two controllers, and an object controlled by an HVPA that
      makes no pass is exactly as it was, whatever passes others make and whatever fails. */
  lemma {:induction false} ControlIsSafe(store: Store, passes: seq<PassBy>, id: nat, uid: nat)
    requires Interleaving(store, passes) && SingleControllers(store)
    ensures SingleControllers(AfterPasses(store, passes))
    ensures id in store && ControlledBy(store[id], uid) && (forall k :: 0 <= k < |passes| ==> passes[k].owner.uid != uid) ==>
              id in AfterPasses(store, passes) && AfterPasses(store, passes)[id] == store[id]
    decreases |passes|
  {
    if passes != [] {
      PassRespects(passes[0].owner, store, passes[0].listing, passes[0].calls);
      var next := Pass(passes[0].owner, store, passes[0].listing, passes[0].calls).store;
      assert forall k :: 0 <= k < |passes[1..]| ==> passes[1..][k] == passes[k + 1];
      ControlIsSafe(next, passes[1..], id, uid);
      hide Pass, SingleController;
    }
  }

  // ---------- exact claims ----------

  /** What an HVPA may hold on to: its own objects that match, and matching orphans that are not being deleted. */
  predicate Claimable(o: Owner, c: Child) {
    o.selector(c.labels) && (ControlledBy(c, o.uid) || (ControllerOf(c.owners).None? && !c.deleting))
  }

  ghost predicate PatchesSucceed(ids: seq<nat>, calls: Calls) {
    forall id :: id in ids ==> calls.patch(id) == Done
  }

  /** When no patch fails, a live HVPA claims, in the order of the listing, exactly the matching objects that it then
      controls. It releases its other objects, adopts the matching orphans, and leaves all others as they are. */
  lemma ClaimIsExact(o: Owner, store: Store, listing: seq<nat>, calls: Calls)
    requires Lists(listing, store) && SingleControllers(store) && PatchesSucceed(listing, calls)
    requires !o.deleting && StillLive(o, calls.latest(0))
    ensures var after, claimed := ClaimStep(o, store, listing, calls), ClaimList(o, store, listing, calls);
            && !ClaimFails(o, store, listing, calls)
            && after.Keys == store.Keys
            && (forall id :: id in claimed <==> id in after && ControlledBy(after[id], o.uid))
            && (forall id :: id in claimed <==> id in store && Claimable(o, store[id]))
            && (forall id :: id in after ==> after[id].(owners := []) == store[id].(owners := []))
            && (forall id :: id in store && !Claimable(o, store[id]) ==>
                  after[id] == if ControlledBy(store[id], o.uid) then Released(o, store[id]) else store[id])
            && (forall id :: id in after && id !in claimed ==> !Claimable(o, after[id]))
  {
    ClaimedArePresent(o, store, listing, true, calls.patch);
    forall id | id in store
      ensures var claim := Claim(o, store[id], true, calls.patch(id));
              && !claim.failed && claim.after.Some?
              && (claim.mine <==> Claimable(o, store[id]))
              && (claim.mine <==> ControlledBy(claim.after.value, o.uid))
              && claim.after.value.(owners := []) == store[id].(owners := [])
              && (!claim.mine ==>
                    && !Claimable(o, claim.after.value)
                    && claim.after.value == if ControlledBy(store[id], o.uid) then Released(o, store[id]) else store[id])
    {
      assert calls.patch(id) == Done;
      ExactOne(o, store[id]);
    }
    hide Claim, SingleController, ClaimedIds, Claimable;
  }

  lemma ExactOne(o: Owner, c: Child)
    requires SingleController(c.owners) && !o.deleting
    ensures var claim := Claim(o, c, true, Done);
            && !claim.failed && claim.after.Some?
            && (claim.mine <==> Claimable(o, c))
            && (claim.mine <==> ControlledBy(claim.after.value, o.uid))
            && claim.after.value.(owners := []) == c.(owners := [])
            && (!claim.mine ==>
                  && !Claimable(o, claim.after.value)
                  && claim.after.value == if ControlledBy(c, o.uid) then Released(o, c) else c)
  {
    if ControlledBy(c, o.uid) {
      ReleaseFrees(c.owners, o.uid);
    } else if ControllerOf(c.owners).None? {
      AdoptionControls(c.owners, Ref(o));
    }
  }

  /** A deleting HVPA changes nothing, and reports no error, whatever the calls return. */
  lemma DeletingClaimsNothing(o: Owner, store: Store, listing: seq<nat>, calls: Calls)
    requires Lists(listing, store) && o.deleting
    ensures ClaimStep(o, store, listing, calls) == store && !ClaimFails(o, store, listing, calls)
  {
  }

  /** One object's failure does not alter how another one is handled. */
  lemma FailuresAreLocal(o: Owner, store: Store, listing: seq<nat>, calls: Calls, others: Calls, id: nat)
    requires Lists(listing, store) && id in store
    requires calls.latest(0) == others.latest(0) && calls.patch(id) == others.patch(id)
    ensures var after, after' := ClaimStep(o, store, listing, calls), ClaimStep(o, store, listing, others);
            && (id in after <==> id in after') && (id in after ==> after[id] == after'[id])
            && (id in ClaimList(o, store, listing, calls) <==> id in ClaimList(o, store, listing, others))
  {
    ClaimedArePresent(o, store, listing, StillLive(o, calls.latest(0)), calls.patch);
    ClaimedArePresent(o, store, listing, StillLive(o, calls.latest(0)), others.patch);
    hide Claim, ClaimedIds;
  }

  // ---------- convergence and idempotence ----------

  /** No call of the pass fails, and a create gets a name that is free. */
  ghost predicate Clean(o: Owner, store: Store, calls: Calls) {
    && calls.listOk && calls.getOk && StillLive(o, calls.latest(0)) && calls.create == Done && calls.newId !in store
    && forall id :: id in store ==>
         calls.patch(id) == Done && calls.fetched(id) && calls.update(id) == Done && calls.delete(id) == Done
  }

  /** The HVPA is live, its selector matches the labels of its template, as validation demands, and the template has no
      owner. */
  predicate ValidOwner(o: Owner) {
    !o.deleting && o.selector(o.templateLabels) && !o.templateOwned
  }

  /** Of all objects, the HVPA controls only the kept one, if any; that one matches and is in sync, and there is
      nothing else it would claim. */
  ghost predicate Settled(o: Owner, store: Store, kept: Option<nat>) {
    && (kept.Some? ==>
          && kept.value in store && o.selector(store[kept.value].labels)
          && ControlledBy(store[kept.value], o.uid) && InSync(o, store[kept.value]))
    && (forall id :: id in store && kept != Some(id) ==> !ControlledBy(store[id], o.uid) && !Claimable(o, store[id]))
  }

  ghost predicate AllReadable(store: Store, ids: seq<nat>) {
    forall id :: id in ids ==> id in store && Readable(store[id].spec)
  }

  lemma CleanSyncOne(o: Owner, store: Store, id: nat, calls: Calls)
    requires id in store && calls.fetched(id) && calls.update(id) == Done
    ensures var first := SyncOne(o, store, id, calls);
            if Readable(store[id].spec) then first == Sync(store[id := Synced(o, store[id])], Ok) else first.result == Panic
  {
    assert InSync(o, store[id]) ==> store[id := Synced(o, store[id])] == store;
  }

  lemma {:induction false} CleanSync(o: Owner, store: Store, ids: seq<nat>, calls: Calls)
    requires Present(ids, store) && forall id :: id in ids ==> calls.fetched(id) && calls.update(id) == Done
    requires forall i, j :: 0 <= i < j < |ids| ==> ids[i] != ids[j]
    ensures var sync := SyncAll(o, store, ids, calls);
            && sync.result == (if AllReadable(store, ids) then Ok else Panic)
            && (sync.result == Ok ==> forall id :: id in ids ==> id in sync.store && sync.store[id] == Synced(o, store[id]))
  {
    if ids != [] {
      var first, rest := SyncOne(o, store, ids[0], calls), ids[1..];
      CleanSyncOne(o, store, ids[0], calls);
      SyncOneKeepsOthers(o, store, ids[0], calls);
      hide SyncOne, Synced, Readable;
      assert ids[0] in ids && forall id :: id in rest ==> id in ids && id != ids[0];
      assert forall id :: id in ids <==> id == ids[0] || id in rest;
      if first.result == Ok {
        assert SyncAll(o, store, ids, calls) == SyncAll(o, first.store, rest, calls);
        assert AllReadable(store, ids) <==> AllReadable(first.store, rest);
        CleanSync(o, first.store, rest, calls);
        SyncKeepsKeys(o, first.store, rest, calls);
        hide SyncAll, AllReadable;
        assert forall id :: id in rest ==> first.store[id] == store[id];
      }
    }
  }

  /** The objects the HVPA controls. */
  function Owned(o: Owner, store: Store): set<nat> {
    set id | id in store && ControlledBy(store[id], o.uid)
  }

  lemma SettledOwnsTheKept(o: Owner, store: Store, kept: Option<nat>)
    requires Settled(o, store, kept)
    ensures Owned(o, store) == if kept.Some? then {kept.value} else {}
  {
  }

  lemma CreateSettles(o: Owner, store: Store, calls: Calls)
    requires ValidOwner(o) && calls.create == Done && calls.newId !in store && Settled(o, store, None)
    ensures var created := CreateOne(o, store, calls);
            created.result == Ok && Settled(o, created.store, if o.deploy then Some(calls.newId) else None)
  {
  }

  /** The claimed objects are exactly those the HVPA controls, and all of them match. */
  ghost predicate ClaimedAll(o: Owner, store: Store, claimed: seq<nat>) {
    && Present(claimed, store)
    && (forall i, j :: 0 <= i < j < |claimed| ==> claimed[i] != claimed[j])
    && (forall id :: id in store ==>
          if id in claimed then ControlledBy(store[id], o.uid) && o.selector(store[id].labels)
          else !ControlledBy(store[id], o.uid) && !Claimable(o, store[id]))
  }

  lemma SyncKeepsClaims(o: Owner, store: Store, claimed: seq<nat>, calls: Calls)
    requires ClaimedAll(o, store, claimed)
    requires forall id :: id in claimed ==> calls.fetched(id) && calls.update(id) == Done
    ensures var sync := SyncAll(o, store, claimed, calls);
            && sync.result == (if AllReadable(store, claimed) then Ok else Panic)
            && (sync.result == Ok ==>
                  && sync.store.Keys == store.Keys && ClaimedAll(o, sync.store, claimed)
                  && forall id :: id in claimed ==> InSync(o, sync.store[id]))
  {
    CleanSync(o, store, claimed, calls);
    SyncKeepsKeys(o, store, claimed, calls);
    hide SyncAll, AllReadable;
  }

  lemma KeepSettles(o: Owner, store: Store, claimed: seq<nat>, calls: Calls)
    requires claimed != [] && ClaimedAll(o, store, claimed) && calls.getOk
    requires forall id :: id in claimed ==> calls.fetched(id) && calls.update(id) == Done && calls.delete(id) == Done
    ensures var kept := KeepOne(o, store, claimed, calls);
            && kept.result == (if AllReadable(store, claimed) then Ok else Panic)
            && (kept.result == Ok ==> Settled(o, kept.store, if o.deploy then Some(claimed[0]) else None))
  {
    hide SyncAll, Claimable, ControlledBy, AllReadable, InSync;
    SyncKeepsClaims(o, store, claimed, calls);
    assert forall id :: id in claimed <==> id == claimed[0] || id in claimed[1..];
    assert claimed[0] !in claimed[1..];
  }

  lemma ExactClaimsAll(o: Owner, store: Store, listing: seq<nat>, calls: Calls)
    requires ValidOwner(o) && Lists(listing, store) && SingleControllers(store) && Clean(o, store, calls)
    ensures var after, claimed := ClaimStep(o, store, listing, calls), ClaimList(o, store, listing, calls);
            && !ClaimFails(o, store, listing, calls)
            && ClaimedAll(o, after, claimed)
            && after.Keys == store.Keys
            && (AllReadable(after, claimed) <==>
                  forall id :: id in store && Claimable(o, store[id]) ==> Readable(store[id].spec))
  {
    ClaimIsExact(o, store, listing, calls);
    ClaimListPresent(o, store, listing, calls);
    var after, claimed := ClaimStep(o, store, listing, calls), ClaimList(o, store, listing, calls);
    forall id | id in after
      ensures after[id].spec == store[id].spec && after[id].labels == store[id].labels
    {
      assert after[id].(owners := []) == store[id].(owners := []);
    }
    forall id | id in claimed
      ensures o.selector(after[id].labels)
    {
      assert Claimable(o, store[id]);
    }
    hide Claimable, ClaimStep, ClaimList, Lists, ControlledBy, SingleControllers;
  }

  /** Convergence. A pass in which no call fails ends well exactly when no object it claims lacks an update mode (a
      VPA) or a minimum (an HPA), and then the HVPA controls one object if a child is to be deployed, in sync with its
      specification, and none if not. */
  lemma PassConverges(o: Owner, store: Store, listing: seq<nat>, calls: Calls)
    requires ValidOwner(o) && Lists(listing, store) && SingleControllers(store) && Clean(o, store, calls)
    ensures var pass := Pass(o, store, listing, calls);
            && (pass.result == Ok <==> forall id :: id in store && Claimable(o, store[id]) ==> Readable(store[id].spec))
            && (pass.result != Ok ==> pass.result == Panic)
            && (pass.result == Ok ==>
                  exists kept: Option<nat> :: (kept.Some? <==> o.deploy) && Settled(o, pass.store, kept)
                    && Owned(o, pass.store) == if kept.Some? then {kept.value} else {})
  {
    ExactClaimsAll(o, store, listing, calls);
    var after, claimed := ClaimStep(o, store, listing, calls), ClaimList(o, store, listing, calls);
    var pass := Pass(o, store, listing, calls);
    var kept := if !o.deploy then None else if claimed == [] then Some(calls.newId) else Some(claimed[0]);
    hide Claimable, ControlledBy, ClaimStep, ClaimList, KeepOne, CreateOne, Settled, Owned, Lists, SingleControllers;
    RestSettles(o, after, claimed, calls);
    if pass.result == Ok {
      SettledOwnsTheKept(o, pass.store, kept);
    }
  }

  lemma RestSettles(o: Owner, store: Store, claimed: seq<nat>, calls: Calls)
    requires ValidOwner(o) && ClaimedAll(o, store, claimed) && Clean(o, store, calls)
    ensures var rest := if claimed == [] then CreateOne(o, store, calls) else KeepOne(o, store, claimed, calls);
            var kept := if !o.deploy then None else if claimed == [] then Some(calls.newId) else Some(claimed[0]);
            && rest.result == (if AllReadable(store, claimed) then Ok else Panic)
            && (rest.result == Ok ==> Settled(o, rest.store, kept))
  {
    if claimed == [] {
      CreateSettles(o, store, calls);
    } else {
      KeepSettles(o, store, claimed, calls);
    }
  }

  /** Idempotence. Once settled, a further pass in which no call fails changes nothing. */
  lemma SettledIsFixed(o: Owner, store: Store, listing: seq<nat>, calls: Calls, kept: Option<nat>)
    requires ValidOwner(o) && Lists(listing, store) && SingleControllers(store) && Clean(o, store, calls)
    requires Settled(o, store, kept) && (kept.Some? <==> o.deploy)
    ensures Pass(o, store, listing, calls) == Sync(store, Ok)
  {
    ClaimIsExact(o, store, listing, calls);
    ClaimListPresent(o, store, listing, calls);
    var after, claimed := ClaimStep(o, store, listing, calls), ClaimList(o, store, listing, calls);
    forall id | id in store
      ensures after[id] == store[id] && (id in claimed <==> kept == Some(id))
    {
      if kept == Some(id) {
        KeptStays(o, store, listing, calls, id);
      }
    }
    assert after == store;
    OnlyKept(claimed, kept);
    hide ClaimStep, ClaimList, Claimable, ControlledBy, KeepOne;
    assert forall id :: id in claimed ==> id in store;
    if kept.Some? {
      KeptAlone(o, store, kept.value, calls);
    }
  }

  lemma KeptAlone(o: Owner, store: Store, id: nat, calls: Calls)
    requires id in store && InSync(o, store[id]) && o.deploy && calls.getOk
    ensures Present([id], store) && KeepOne(o, store, [id], calls) == Sync(store, Ok)
  {
    assert [id][1..] == [];
    assert SyncAll(o, store, [id], calls) == Sync(store, Ok);
    assert DeleteAll(store, [], calls.delete) == store;
  }

  lemma KeptStays(o: Owner, store: Store, listing: seq<nat>, calls: Calls, id: nat)
    requires Lists(listing, store) && id in store && ControlledBy(store[id], o.uid) && o.selector(store[id].labels)
    ensures var after := ClaimStep(o, store, listing, calls);
            id in after && after[id] == store[id]
  {
  }

  lemma OnlyKept(ids: seq<nat>, kept: Option<nat>)
    requires forall i, j :: 0 <= i < j < |ids| ==> ids[i] != ids[j]
    ensures ids == (if kept.Some? then [kept.value] else []) || exists i :: (i in ids) != (kept == Some(i))
  {
    if |ids| > 1 {
      assert ids[0] in ids && ids[1] in ids && ids[0] != ids[1];
    } else if |ids| == 1 {
      assert ids[0] in ids;
    } else if kept.Some? {
      assert kept.value !in ids;
    }
  }

  /** One pass reaches what all further passes keep: two passes in a row leave the same store as one. */
  lemma TwoPassesAreOne(o: Owner, store: Store, listing: seq<nat>, calls: Calls, listing': seq<nat>, calls': Calls)
    requires ValidOwner(o) && Lists(listing, store) && SingleControllers(store) && Clean(o, store, calls)
    requires forall id :: id in store && Claimable(o, store[id]) ==> Readable(store[id].spec)
    requires var after := Pass(o, store, listing, calls).store;
             Lists(listing', after) && Clean(o, after, calls')
    ensures var after := Pass(o, store, listing, calls).store;
            Pass(o, after, listing', calls') == Sync(after, Ok)
  {
    PassConverges(o, store, listing, calls);
    PassRespects(o, store, listing, calls);
    var after := Pass(o, store, listing, calls).store;
    var kept: Option<nat> :| (kept.Some? <==> o.deploy) && Settled(o, after, kept);
    SettledIsFixed(o, after, listing', calls', kept);
  }

  // ---------- passes that only claim to be free of errors ----------

  /** The outcomes of a release that leave the object as it is without an error: refused as invalid, and with the
      second version of HPAs any failure. */
  predicate SilentlyKept(o: Owner, outcome: Outcome) {
    outcome == Rejected || (outcome == Failed && o.LosesErrors())
  }

  /** Objects the HVPA no longer selects and does not get rid of. */
  ghost function Unreleased(o: Owner, store: Store, calls: Calls): set<nat> {
    set id | id in store && ControlledBy(store[id], o.uid) && !o.selector(store[id].labels)
             && SilentlyKept(o, calls.patch(id))
  }

  /** Duplicates that could not be deleted; that is only logged. */
  ghost function Undeleted(claimed: seq<nat>, calls: Calls): set<nat> {
    if claimed == [] then {} else set id | id in claimed[1..] && !Removes(calls.delete(id))
  }

  lemma OwnedAfterClaims(o: Owner, store: Store, listing: seq<nat>, calls: Calls)
    requires Lists(listing, store) && SingleControllers(store) && !o.deleting && !ClaimFails(o, store, listing, calls)
    ensures Owned(o, ClaimStep(o, store, listing, calls))
            == Members(ClaimList(o, store, listing, calls)) + Unreleased(o, store, calls)
  {
    var canAdopt := StillLive(o, calls.latest(0));
    ClaimedArePresent(o, store, listing, canAdopt, calls.patch);
    forall id | id in store
      ensures var claim := Claim(o, store[id], canAdopt, calls.patch(id));
              claim.after.Some? && ControlledBy(claim.after.value, o.uid) <==>
                claim.mine || id in Unreleased(o, store, calls)
    {
      assert !Claim(o, store[id], canAdopt, calls.patch(id)).failed;
      OwnedAfterClaim(o, store[id], canAdopt, calls.patch(id));
    }
    hide Claim, SingleController, ClaimedIds, ControlledBy, Unreleased;
  }

  lemma OwnedAfterClaim(o: Owner, c: Child, canAdopt: bool, outcome: Outcome)
    requires SingleController(c.owners) && !o.deleting && !Claim(o, c, canAdopt, outcome).failed
    ensures var claim := Claim(o, c, canAdopt, outcome);
            claim.after.Some? && ControlledBy(claim.after.value, o.uid) <==>
              claim.mine || (ControlledBy(c, o.uid) && !o.selector(c.labels) && SilentlyKept(o, outcome))
  {
    if ControlledBy(c, o.uid) {
      ReleaseFrees(c.owners, o.uid);
    } else if ControllerOf(c.owners).None? {
      AdoptionControls(c.owners, Ref(o));
    }
  }

  function Members(ids: seq<nat>): set<nat> {
    set id | id in ids
  }

  lemma DeletedKeys(store: Store, ids: seq<nat>, outcomes: nat -> Outcome)
    ensures DeleteAll(store, ids, outcomes).Keys == store.Keys - set id | id in ids && Removes(outcomes(id))
  {
  }

  lemma KeptObjects(o: Owner, store: Store, claimed: seq<nat>, calls: Calls)
    requires claimed != [] && Present(claimed, store)
    requires forall i, j :: 0 <= i < j < |claimed| ==> claimed[i] != claimed[j]
    requires KeepOne(o, store, claimed, calls).result == Ok
    ensures KeepOne(o, store, claimed, calls).store.Keys
            == store.Keys - Members(claimed) + Undeleted(claimed, calls) + if o.deploy then {claimed[0]} else {}
  {
    SyncKeepsKeys(o, store, claimed, calls);
    DeletedKeys(SyncAll(o, store, claimed, calls).store, claimed[1..], calls.delete);
    hide SyncAll, DeleteAll;
    assert forall id :: id in claimed <==> id == claimed[0] || id in claimed[1..];
    assert claimed[0] !in claimed[1..];
  }

  lemma OwnedAfterKeeping(o: Owner, store: Store, claimed: seq<nat>, calls: Calls)
    requires claimed != [] && Present(claimed, store) && Members(claimed) <= Owned(o, store)
    requires forall i, j :: 0 <= i < j < |claimed| ==> claimed[i] != claimed[j]
    requires KeepOne(o, store, claimed, calls).result == Ok
    ensures Owned(o, KeepOne(o, store, claimed, calls).store)
            == Owned(o, store) - Members(claimed) + Undeleted(claimed, calls) + if o.deploy then {claimed[0]} else {}
  {
    KeptObjects(o, store, claimed, calls);
    KeptOwners(o, store, claimed, calls);
    hide KeepOne, ControlledBy;
    assert claimed[0] in Members(claimed) && Undeleted(claimed, calls) <= Members(claimed) by {
      assert forall id :: id in claimed[1..] ==> id in claimed;
    }
    hide Members, Undeleted;
  }

  lemma KeptOwners(o: Owner, store: Store, claimed: seq<nat>, calls: Calls)
    requires claimed != [] && Present(claimed, store)
    ensures var kept := KeepOne(o, store, claimed, calls).store;
            forall id :: id in kept ==> id in store && (ControlledBy(kept[id], o.uid) <==> ControlledBy(store[id], o.uid))
  {
    KeptKeeps(o, store, claimed, calls);
    hide KeepOne;
  }

  lemma OwnedAfterCreating(o: Owner, store: Store, calls: Calls)
    requires CreateOne(o, store, calls).result == Ok
    ensures Owned(o, CreateOne(o, store, calls).store)
            == Owned(o, store) + if o.deploy && Creates(store, calls) then {calls.newId} else {}
  {
  }

  lemma NeverBoth(o: Owner, store: Store, listing: seq<nat>, calls: Calls)
    requires Lists(listing, store)
    ensures Members(ClaimList(o, store, listing, calls)) !! Unreleased(o, store, calls)
  {
    ClaimedArePresent(o, store, listing, StillLive(o, calls.latest(0)), calls.patch);
  }

  /** A pass without a reported error, whatever its calls return: the HVPA then controls the one object it keeps, if a
      child is to be deployed, and beside it exactly the objects it failed to delete or to release. With the second
      version of HPAs it can be that it has failed to create one. */
  lemma SuccessLeaves(o: Owner, store: Store, listing: seq<nat>, calls: Calls)
    requires Lists(listing, store) && SingleControllers(store) && !o.deleting
    requires Pass(o, store, listing, calls).result == Ok
    ensures var after, claimed := ClaimStep(o, store, listing, calls), ClaimList(o, store, listing, calls);
            && Owned(o, Pass(o, store, listing, calls).store)
               == (if !o.deploy then {} else if claimed != [] then {claimed[0]}
                   else if Creates(after, calls) then {calls.newId} else {})
                  + Undeleted(claimed, calls) + Unreleased(o, store, calls)
            && (o.deploy && claimed == [] && !Creates(after, calls) ==> o.LosesErrors())
  {
    OwnedAfterClaims(o, store, listing, calls);
    ClaimListPresent(o, store, listing, calls);
    var after, claimed := ClaimStep(o, store, listing, calls), ClaimList(o, store, listing, calls);
    NeverBoth(o, store, listing, calls);
    hide ClaimStep, ClaimList, Lists, ControlledBy, Unreleased;
    if claimed != [] {
      hide KeepOne;
      OwnedAfterKeeping(o, after, claimed, calls);
    } else {
      OwnedAfterCreating(o, after, calls);
    }
  }

  /** Releasing one object: an object that stays controlled is reported exactly if the release failed with an error that
      is not lost. */
  lemma SilentFailedRelease(o: Owner, c: Child, canAdopt: bool, outcome: Outcome)
    requires SingleController(c.owners) && ControlledBy(c, o.uid) && !o.selector(c.labels) && !o.deleting
    ensures var claim := Claim(o, c, canAdopt, outcome);
            && !claim.mine
            && (claim.after.Some? && ControlledBy(claim.after.value, o.uid) <==> claim.failed || SilentlyKept(o, outcome))
            && (claim.failed <==> outcome == Failed && !o.LosesErrors())
  {
    ReleaseFrees(c.owners, o.uid);
  }
}
