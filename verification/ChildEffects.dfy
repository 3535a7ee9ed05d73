/** What passes over children do, said again from the fields of the HVPA and the outcomes of the calls: who is adopted,
    released, reported as failed, and how the kept child is specified. */
module ChildEffects {
  import opened HvpaTypes
  import opened Ownership
  import opened ChildReconciliation
  import opened OwnershipGuarantees
  import opened OwnershipRounds

  // ---------- owner references ----------

  /** Adopting an object adds the reference, in place of one to the same owner if there is one, and keeps all others. */
  lemma {:induction false} AdoptionKeepsOthers(owners: seq<OwnerRef>, ref: OwnerRef)
    ensures ref in SetController(owners, ref)
    ensures forall r :: r in owners && r.key != ref.key ==> r in SetController(owners, ref)
    ensures forall r :: r in SetController(owners, ref) ==> r == ref || r in owners
    ensures |SetController(owners, ref)| <= |owners| + 1
  {
    if owners != [] && owners[0].key != ref.key {
      AdoptionKeepsOthers(owners[1..], ref);
      assert forall r :: r in owners <==> r == owners[0] || r in owners[1..];
    } else if owners != [] {
      assert forall r :: r in owners ==> r == owners[0] || r in owners[1..];
    }
  }

  // ---------- one claim ----------

  /** Whether the reread of the HVPA finds it, the same one, and not under deletion. */
  predicate FoundLive(o: Owner, latest: Reread) {
    latest == Found(o.uid, false)
  }

  /** An orphan is adopted exactly if the HVPA is live when the pass starts and when it is read again, selects the object,
      the object is not under deletion, and the patch succeeds. */
  lemma OrphanIsAdoptedIff(o: Owner, store: Store, listing: seq<nat>, calls: Calls, id: nat)
    requires Lists(listing, store) && id in store && ControllerOf(store[id].owners).None?
    ensures var c, after := store[id], ClaimStep(o, store, listing, calls);
            var adopts := !o.deleting && o.selector(c.labels) && !c.deleting && FoundLive(o, calls.latest(0));
            && (id in after && ControlledBy(after[id], o.uid) <==> adopts && calls.patch(id) == Done)
            && (id !in after <==> adopts && calls.patch(id) == Gone)
            && (id in ClaimList(o, store, listing, calls) <==> adopts && calls.patch(id) == Done)
  {
    ClaimedArePresent(o, store, listing, StillLive(o, calls.latest(0)), calls.patch);
    AdoptionControls(store[id].owners, Ref(o));
    hide ClaimedIds, SetController;
  }

  /** A controlled object that is selected is claimed as it is. One that is not selected is released, exactly if the HVPA
      is not under deletion and the patch succeeds. */
  lemma OwnIsReleasedIff(o: Owner, store: Store, listing: seq<nat>, calls: Calls, id: nat)
    requires Lists(listing, store) && id in store && ControlledBy(store[id], o.uid) && SingleController(store[id].owners)
    ensures var c, after := store[id], ClaimStep(o, store, listing, calls);
            && (id in ClaimList(o, store, listing, calls) <==> o.selector(c.labels))
            && (o.selector(c.labels) || o.deleting ==> id in after && after[id] == c)
            && (!o.selector(c.labels) && !o.deleting ==>
                  && (id !in after <==> calls.patch(id) == Gone)
                  && (id in after ==>
                        if calls.patch(id) == Done then
                          ControllerOf(after[id].owners).None? && after[id].(owners := []) == c.(owners := [])
                        else after[id] == c))
  {
    ClaimedArePresent(o, store, listing, StillLive(o, calls.latest(0)), calls.patch);
    ReleaseFrees(store[id].owners, o.uid);
    hide ClaimedIds, Without;
  }

  /** An orphan that is to be adopted is not, although it exists; or the release of an object fails otherwise than as not
      found or invalid, where errors of a release are not lost. */
  predicate GoesWrong(o: Owner, c: Child, latest: Reread, outcome: Outcome) {
    || (&& ControllerOf(c.owners).None? && o.selector(c.labels) && !c.deleting
        && (!FoundLive(o, latest) || outcome in {Rejected, Failed}))
    || (&& ControlledBy(c, o.uid) && !o.selector(c.labels)
        && outcome == Failed && !(o.wanted.WantHpa? && o.wanted.v2))
  }

  /** Claiming is reported as failed exactly if something goes wrong with some object, and the HVPA is not under deletion. */
  lemma ClaimFailsIff(o: Owner, store: Store, listing: seq<nat>, calls: Calls)
    requires Lists(listing, store)
    ensures ClaimFails(o, store, listing, calls) <==>
            !o.deleting && exists id :: id in store && GoesWrong(o, store[id], calls.latest(0), calls.patch(id))
  {
    forall id | id in store
      ensures Claim(o, store[id], StillLive(o, calls.latest(0)), calls.patch(id)).failed <==>
              !o.deleting && GoesWrong(o, store[id], calls.latest(0), calls.patch(id))
    {
    }
    hide Claim, GoesWrong;
  }

  // ---------- the kept child ----------

  /** The specification the HVPA asks for: of a VPA its resource policy and the update mode Off, of an HPA its bounds, its
      metrics and its target. */
  predicate AsWanted(wanted: Wanted, spec: ChildSpec) {
    match wanted
    case WantVpa(policy) => spec.VpaSpec? && spec.policy == policy && spec.mode == Some(ModeOff)
    case WantHpa(_, minReplicas, maxReplicas, metrics, target) =>
      && spec.HpaSpec? && spec.minReplicas == Some(minReplicas) && spec.maxReplicas == maxReplicas
      && spec.metrics == metrics && spec.target == target
  }

  lemma InSyncIff(o: Owner, c: Child)
    ensures InSync(o, c) <==> AsWanted(o.wanted, c.spec)
  {
  }

  /** At rest, the HVPA controls exactly one child if one is to be deployed, and none if not; the child is selected, and
      specified as wanted. */
  lemma AtRestIsAsWanted(x: Owner, store: Store)
    requires AtRest(x, store)
    ensures |Owned(x, store)| == if x.deploy then 1 else 0
    ensures forall id :: id in Owned(x, store) ==> x.selector(store[id].labels) && AsWanted(x.wanted, store[id].spec)
  {
    var kept: Option<nat> :| (kept.Some? <==> x.deploy) && Settled(x, store, kept);
    SettledOwnsTheKept(x, store, kept);
    if kept.Some? {
      InSyncIff(x, store[kept.value]);
    }
    hide Owned, AsWanted, InSync, Claimable;
  }

  /** So after a pass without an error whose calls succeed, from any store: a VPA has the policy of the HVPA and the update
      mode Off, and an HPA has its bounds, metrics and target. */
  lemma CleanPassIsAsWanted(o: Owner, store: Store, listing: seq<nat>, calls: Calls)
    requires ValidOwner(o) && Lists(listing, store) && SingleControllers(store) && Clean(o, store, calls)
    requires Pass(o, store, listing, calls).result == Ok
    ensures var after := Pass(o, store, listing, calls).store;
            && |Owned(o, after)| == (if o.deploy then 1 else 0)
            && forall id :: id in Owned(o, after) ==>
                 o.selector(after[id].labels) && AsWanted(o.wanted, after[id].spec)
  {
    PassConverges(o, store, listing, calls);
    assert AtRest(o, Pass(o, store, listing, calls).store);
    AtRestIsAsWanted(o, Pass(o, store, listing, calls).store);
  }

  /** What a pass without an error means, whatever its calls return: the listing and claiming went well, the kept child is
      specified as wanted, and it could be read back and created, where these errors are not lost. */
  lemma SuccessMeans(o: Owner, store: Store, listing: seq<nat>, calls: Calls)
    requires Lists(listing, store) && Pass(o, store, listing, calls).result == Ok
    ensures var claimed, after := ClaimList(o, store, listing, calls), Pass(o, store, listing, calls).store;
            var loses := o.wanted.WantHpa? && o.wanted.v2;
            && calls.listOk && !ClaimFails(o, store, listing, calls)
            && (claimed == [] && o.deploy ==> !o.templateOwned && (calls.create == Done || loses))
            && (claimed != [] && o.deploy ==> calls.getOk || loses)
            && (claimed != [] && !o.deploy ==> calls.delete(claimed[0]) == Done)
            && (claimed != [] && o.deploy ==> claimed[0] in after && AsWanted(o.wanted, after[claimed[0]].spec))
            && (claimed == [] && o.deploy && Creates(ClaimStep(o, store, listing, calls), calls) ==>
                  calls.newId in after && AsWanted(o.wanted, after[calls.newId].spec))
  {
    ClaimListPresent(o, store, listing, calls);
    var mid, claimed := ClaimStep(o, store, listing, calls), ClaimList(o, store, listing, calls);
    hide ClaimStep, ClaimList, ClaimFails;
    if claimed != [] {
      SyncedIsAsWanted(o, mid, claimed, calls, claimed[0]);
      SyncKeepsKeys(o, mid, claimed, calls);
      assert claimed[0] !in claimed[1..];
      hide SyncAll;
    }
  }

  /** When the synchronising loop ends well, every claimed child is specified as wanted. */
  lemma {:induction false} SyncedIsAsWanted(o: Owner, store: Store, ids: seq<nat>, calls: Calls, id: nat)
    requires Present(ids, store) && id in ids && SyncAll(o, store, ids, calls).result == Ok
    requires forall i, j :: 0 <= i < j < |ids| ==> ids[i] != ids[j]
    ensures var after := SyncAll(o, store, ids, calls).store;
            id in after && AsWanted(o.wanted, after[id].spec)
  {
    var first := SyncOne(o, store, ids[0], calls);
    SyncOneKeepsOthers(o, store, ids[0], calls);
    SyncKeepsKeys(o, first.store, ids[1..], calls);
    if id == ids[0] {
      assert InSync(o, first.store[id]);
      InSyncIff(o, first.store[id]);
      assert id !in ids[1..];
    } else {
      SyncedIsAsWanted(o, first.store, ids[1..], calls, id);
    }
  }

  // ---------- the rest of a pass ----------

  /** Synchronising one child. It panics over a missing minimum of an HPA, and over a missing mode of a VPA if the policies
      are equal or the VPA could be fetched for its update; it ends well if nothing was to be changed, or the update
      succeeded. */
  lemma SyncOneInPlain(o: Owner, store: Store, id: nat, calls: Calls)
    requires id in store
    ensures var c, after := store[id], SyncOne(o, store, id, calls);
            var unset := if c.spec.HpaSpec? then c.spec.minReplicas.None? else c.spec.mode.None?;
            var equal := AsWanted(o.wanted, c.spec);
            && (after.result == Panic <==>
                  && unset
                  && (c.spec.HpaSpec? || calls.fetched(id)
                      || (o.wanted.WantVpa? && c.spec.policy == o.wanted.policy)))
            && (after.result == Ok <==> !unset && (equal || (calls.fetched(id) && calls.update(id) == Done)))
            && (after.result == Ok ==> id in after.store && AsWanted(o.wanted, after.store[id].spec)
                                       && after.store == store[id := c.(spec := after.store[id].spec)])
            && (after.result != Ok ==>
                  after.store == if !unset && !equal && calls.fetched(id) && calls.update(id) == Gone then store - {id}
                                 else store)
  {
    InSyncIff(o, store[id]);
    assert store[id := store[id]] == store;
    assert AsWanted(o.wanted, o.Spec());
  }

  lemma OthersUnaffected(o: Owner, store: Store, ids: seq<nat>, calls: Calls)
    requires Present(ids, store) && ids != []
    requires forall i, j :: 0 <= i < j < |ids| ==> ids[i] != ids[j]
    ensures var first, rest := SyncOne(o, store, ids[0], calls), ids[1..];
            forall j :: 0 < j < |ids| ==>
              && ids[j] == rest[j - 1] && ids[j] in first.store && first.store[ids[j]] == store[ids[j]]
              && SyncOne(o, first.store, ids[j], calls).result == SyncOne(o, store, ids[j], calls).result
  {
    SyncOneKeepsOthers(o, store, ids[0], calls);
  }

  /** The loop ends at the first child that does not go well, and leaves those after it as they are. */
  lemma {:induction false} SyncStopsAtFirst(o: Owner, store: Store, ids: seq<nat>, calls: Calls) returns (k: nat)
    requires Present(ids, store)
    requires forall i, j :: 0 <= i < j < |ids| ==> ids[i] != ids[j]
    ensures var after := SyncAll(o, store, ids, calls);
            && k <= |ids| && (after.result == Ok <==> k == |ids|)
            && (forall j :: 0 <= j < k ==> SyncOne(o, store, ids[j], calls).result == Ok)
            && (k < |ids| ==> after.result == SyncOne(o, store, ids[k], calls).result)
            && (forall j :: k < j < |ids| ==> ids[j] in after.store && after.store[ids[j]] == store[ids[j]])
  {
    if ids == [] {
      return 0;
    }
    var first, rest := SyncOne(o, store, ids[0], calls), ids[1..];
    SyncOneKeepsOthers(o, store, ids[0], calls);
    OthersUnaffected(o, store, ids, calls);
    hide SyncOne;
    if first.result != Ok {
      return 0;
    }
    var n := SyncStopsAtFirst(o, first.store, rest, calls);
    return n + 1;
  }

  /** How a pass ends before or without a claimed child. Nothing is undone: what was claimed stays so when claiming
      another object fails. */
  lemma PassInPlain(o: Owner, store: Store, listing: seq<nat>, calls: Calls)
    requires Lists(listing, store)
    ensures var pass, mid, claimed :=
              Pass(o, store, listing, calls), ClaimStep(o, store, listing, calls), ClaimList(o, store, listing, calls);
            var claims := calls.listOk && !ClaimFails(o, store, listing, calls);
            && (!calls.listOk ==> pass == Sync(store, Error))
            && (calls.listOk && !claims ==> pass == Sync(mid, Error))
            && (claims && claimed == [] ==> pass == CreateOne(o, mid, calls))
            && (claims && claimed != [] ==> Present(claimed, mid) && pass == KeepOne(o, mid, claimed, calls))
  {
    ClaimListPresent(o, store, listing, calls);
    hide ClaimStep, ClaimList, ClaimFails, KeepOne, CreateOne;
  }

  /** Where nothing is claimed, a child is created if one is to be deployed: with the labels of the template, this HVPA as
      its only owner, and specified as wanted. */
  lemma CreateInPlain(o: Owner, store: Store, calls: Calls)
    ensures var made := CreateOne(o, store, calls);
            var creates := o.deploy && !o.templateOwned && calls.create == Done && calls.newId !in store;
            var lost := o.wanted.WantHpa? && o.wanted.v2;
            && (made.result == Ok <==> !o.deploy || (!o.templateOwned && (creates || lost)))
            && (!creates ==> made.store == store)
            && (creates ==>
                  && calls.newId in made.store && AsWanted(o.wanted, made.store[calls.newId].spec)
                  && made.store == store[calls.newId := Child(o.templateLabels, [OwnerRef(o.key, o.uid, true)], false,
                                                              made.store[calls.newId].spec)])
  {
    assert AsWanted(o.wanted, o.Spec());
  }

  /** Of the claimed children all but the first are deleted once they are synchronised, and the first one too if no child
      is to be deployed. Only a failure to delete the first one, or to read it back, is an error. */
  lemma KeepInPlain(o: Owner, store: Store, claimed: seq<nat>, calls: Calls)
    requires claimed != [] && Present(claimed, store)
    requires forall i, j :: 0 <= i < j < |claimed| ==> claimed[i] != claimed[j]
    ensures var sync, kept := SyncAll(o, store, claimed, calls), KeepOne(o, store, claimed, calls);
            var lost := o.wanted.WantHpa? && o.wanted.v2;
            && (sync.result != Ok ==> kept == sync)
            && (sync.result == Ok ==>
                  && (kept.result == Ok <==> if o.deploy then calls.getOk || lost else calls.delete(claimed[0]) == Done)
                  && (forall id :: id in kept.store <==>
                        id in sync.store
                        && !(id in claimed && (id != claimed[0] || !o.deploy) && calls.delete(id) in {Done, Gone}))
                  && (forall id :: id in kept.store ==> kept.store[id] == sync.store[id]))
  {
    assert forall id :: id in claimed <==> id == claimed[0] || id in claimed[1..];
    assert claimed[0] !in claimed[1..];
    hide SyncAll;
  }
}
