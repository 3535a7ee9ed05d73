/** Several HVPAs with overlapping selectors: their passes disturb each other only by releasing objects, and two rounds
    of passes settle all of them at once. */
module OwnershipRounds {
  import opened HvpaTypes
  import opened Ownership
  import opened ChildReconciliation
  import opened OwnershipGuarantees

  // ---------- what a clean pass touches ----------

  /** The owner controls an object that its selector does not match, so that it will release it. */
  predicate Misplaced(o: Owner, c: Child) {
    ControlledBy(c, o.uid) && !o.selector(c.labels)
  }

  lemma RestTouches(o: Owner, store: Store, claimed: seq<nat>, calls: Calls)
    requires ClaimedAll(o, store, claimed) && calls.newId !in store
    ensures var rest := if claimed == [] then CreateOne(o, store, calls) else KeepOne(o, store, claimed, calls);
            && (forall id :: id in rest.store ==>
                  ControlledBy(rest.store[id], o.uid) || (id in store && rest.store[id] == store[id]))
            && (forall id :: id in store && id !in claimed ==> id in rest.store && rest.store[id] == store[id])
  {
    hide KeepOne, Claimable;
    if claimed == [] {
      assert ControlledBy(NewChild(o), o.uid);
    } else {
      hide ControlledBy;
      KeptKeeps(o, store, claimed, calls);
      KeptOwners(o, store, claimed, calls);
    }
  }

  /** After a clean pass the owner controls an object, or the pass has left it alone, or has released it; and it has
      released everything misplaced. */
  lemma PassTouches(o: Owner, store: Store, listing: seq<nat>, calls: Calls)
    requires ValidOwner(o) && Lists(listing, store) && SingleControllers(store) && Clean(o, store, calls)
    ensures var after := Pass(o, store, listing, calls).store;
            && (forall id :: id in after ==>
                  || ControlledBy(after[id], o.uid)
                  || (id in store && after[id] == if Misplaced(o, store[id]) then Released(o, store[id]) else store[id]))
            && (forall id :: id in store && Misplaced(o, store[id]) ==>
                  id in after && after[id] == Released(o, store[id]) && ControllerOf(after[id].owners).None?)
  {
    ClaimIsExact(o, store, listing, calls);
    ExactClaimsAll(o, store, listing, calls);
    var mid, claimed := ClaimStep(o, store, listing, calls), ClaimList(o, store, listing, calls);
    RestTouches(o, mid, claimed, calls);
    forall id | id in store && Misplaced(o, store[id])
      ensures ControllerOf(Released(o, store[id]).owners).None?
    {
      ReleaseFrees(store[id].owners, o.uid);
    }
    hide ClaimStep, ClaimList, ClaimFails, KeepOne, CreateOne, ControlledBy, Released, Lists, SingleControllers;
  }

  // ---------- one pass among several owners ----------

  ghost predicate Distinct(owners: seq<Owner>) {
    && (forall x :: x in owners ==> ValidOwner(x))
    && forall x, y :: x in owners && y in owners && x.uid == y.uid ==> x == y
  }

  /** No object has two controllers, and none lacks what is read without a check. */
  ghost predicate Sound(store: Store) {
    SingleControllers(store) && forall id :: id in store ==> Readable(store[id].spec)
  }

  ghost predicate WellPlaced(x: Owner, store: Store) {
    forall id :: id in store ==> !Misplaced(x, store[id])
  }

  /** The owner controls one child in sync if a child is to be deployed, and none if not; and it would claim no other. */
  ghost predicate AtRest(x: Owner, store: Store) {
    exists kept: Option<nat> :: (kept.Some? <==> x.deploy) && Settled(x, store, kept)
  }

  lemma AtRestIsWellPlaced(x: Owner, store: Store)
    requires AtRest(x, store)
    ensures WellPlaced(x, store)
  {
    hide ControlledBy, Claimable;
  }

  lemma OwnPassRests(x: Owner, store: Store, listing: seq<nat>, calls: Calls)
    requires ValidOwner(x) && Sound(store) && Lists(listing, store) && Clean(x, store, calls)
    ensures var after := Pass(x, store, listing, calls).store;
            AtRest(x, after) && Sound(after)
  {
    PassConverges(x, store, listing, calls);
    PassRespects(x, store, listing, calls);
    PassTouches(x, store, listing, calls);
    var after := Pass(x, store, listing, calls).store;
    var kept: Option<nat> :| (kept.Some? <==> x.deploy) && Settled(x, after, kept);
    forall id | id in after
      ensures Readable(after[id].spec)
    {
      if ControlledBy(after[id], x.uid) {
        assert kept == Some(id) && InSync(x, after[id]);
      }
    }
    hide Pass, Settled, SingleControllers;
  }

  /** A pass of another owner misplaces nothing. */
  lemma OtherPassKeepsPlaces(x: Owner, o: Owner, store: Store, listing: seq<nat>, calls: Calls)
    requires ValidOwner(o) && Sound(store) && Lists(listing, store) && Clean(o, store, calls) && x.uid != o.uid
    requires WellPlaced(x, store)
    ensures WellPlaced(x, Pass(o, store, listing, calls).store)
  {
    PassTouches(o, store, listing, calls);
    hide Pass, Released, Lists, Clean;
  }

  /** A pass of another owner disturbs one at rest exactly if it releases an object to it: one that is misplaced, not
      being deleted, and matched. */
  lemma DisturbsIff(x: Owner, o: Owner, store: Store, listing: seq<nat>, calls: Calls, kept: Option<nat>)
    requires ValidOwner(o) && Sound(store) && Lists(listing, store) && Clean(o, store, calls) && x.uid != o.uid
    requires Settled(x, store, kept)
    ensures Settled(x, Pass(o, store, listing, calls).store, kept) <==>
            forall id :: id in store && Misplaced(o, store[id]) && !store[id].deleting ==> !x.selector(store[id].labels)
  {
    PassTouches(o, store, listing, calls);
    PassRespects(o, store, listing, calls);
    var after := Pass(o, store, listing, calls).store;
    hide Pass, Lists, Clean, InSync, SingleControllers;
    if kept.Some? {
      assert Foreign(store[kept.value], o.uid);
    }
    forall id | id in after && kept != Some(id)
      ensures !ControlledBy(after[id], x.uid)
      ensures Claimable(x, after[id]) <==>
              id in store && Misplaced(o, store[id]) && !store[id].deleting && x.selector(store[id].labels)
    {
    }
    hide ControlledBy, Claimable, Misplaced, Foreign, Released;
  }

  // ---------- rounds ----------

  /** Every pass is one of `owners`, and none of its calls fails. */
  ghost predicate AllClean(owners: seq<Owner>, store: Store, passes: seq<PassBy>)
    requires Interleaving(store, passes)
    decreases |passes|
  {
    passes != [] ==>
      && passes[0].owner in owners && Clean(passes[0].owner, store, passes[0].calls)
      && AllClean(owners, Pass(passes[0].owner, store, passes[0].listing, passes[0].calls).store, passes[1..])
  }

  predicate Takes(x: Owner, p: PassBy) {
    p.owner.uid == x.uid
  }

  ghost predicate TakesPart(x: Owner, passes: seq<PassBy>) {
    exists k :: 0 <= k < |passes| && Takes(x, passes[k])
  }

  lemma TakesPartLater(x: Owner, passes: seq<PassBy>)
    requires passes != [] && TakesPart(x, passes) && !Takes(x, passes[0])
    ensures TakesPart(x, passes[1..])
  {
    var k :| 0 <= k < |passes| && Takes(x, passes[k]);
    assert passes[1..][k - 1] == passes[k];
  }

  lemma {:induction false} AfterTheFirstRound(owners: seq<Owner>, store: Store, passes: seq<PassBy>, x: Owner)
    requires Distinct(owners) && Sound(store) && Interleaving(store, passes) && AllClean(owners, store, passes)
    requires x in owners && (WellPlaced(x, store) || TakesPart(x, passes))
    ensures WellPlaced(x, AfterPasses(store, passes)) && Sound(AfterPasses(store, passes))
    decreases |passes|
  {
    hide Pass, Sound, WellPlaced, Clean;
    if passes != [] {
      var p := passes[0];
      var after := Pass(p.owner, store, p.listing, p.calls).store;
      OwnPassRests(p.owner, store, p.listing, p.calls);
      if Takes(x, p) {
        AtRestIsWellPlaced(x, after);
      } else if WellPlaced(x, store) {
        OtherPassKeepsPlaces(x, p.owner, store, p.listing, p.calls);
      } else {
        TakesPartLater(x, passes);
      }
      AfterTheFirstRound(owners, after, passes[1..], x);
    }
  }

  /** Nothing is misplaced any more, so no pass disturbs another owner. */
  ghost predicate AllWellPlaced(owners: seq<Owner>, store: Store) {
    forall x :: x in owners ==> WellPlaced(x, store)
  }

  lemma OtherPassLeavesAtRest(x: Owner, o: Owner, store: Store, listing: seq<nat>, calls: Calls)
    requires ValidOwner(o) && Sound(store) && Lists(listing, store) && Clean(o, store, calls) && x.uid != o.uid
    requires AtRest(x, store) && WellPlaced(o, store)
    ensures AtRest(x, Pass(o, store, listing, calls).store)
  {
    var kept: Option<nat> :| (kept.Some? <==> x.deploy) && Settled(x, store, kept);
    DisturbsIff(x, o, store, listing, calls, kept);
    hide Pass, Lists, Clean, Settled, Misplaced;
  }

  lemma PassKeepsAllPlaced(owners: seq<Owner>, o: Owner, store: Store, listing: seq<nat>, calls: Calls)
    requires Distinct(owners) && o in owners && AllWellPlaced(owners, store)
    requires Sound(store) && Lists(listing, store) && Clean(o, store, calls)
    ensures AllWellPlaced(owners, Pass(o, store, listing, calls).store)
  {
    var after := Pass(o, store, listing, calls).store;
    forall x | x in owners
      ensures WellPlaced(x, after)
    {
      if x.uid == o.uid {
        OwnPassRests(x, store, listing, calls);
        AtRestIsWellPlaced(x, after);
      } else {
        OtherPassKeepsPlaces(x, o, store, listing, calls);
      }
    }
  }

  lemma {:induction false} AfterTheSecondRound(owners: seq<Owner>, store: Store, passes: seq<PassBy>, x: Owner)
    requires Distinct(owners) && Sound(store) && Interleaving(store, passes) && AllClean(owners, store, passes)
    requires AllWellPlaced(owners, store) && x in owners && (AtRest(x, store) || TakesPart(x, passes))
    ensures AtRest(x, AfterPasses(store, passes))
    decreases |passes|
  {
    hide Pass, Sound, AtRest, WellPlaced, Clean;
    if passes != [] {
      var p := passes[0];
      var after := Pass(p.owner, store, p.listing, p.calls).store;
      OwnPassRests(p.owner, store, p.listing, p.calls);
      PassKeepsAllPlaced(owners, p.owner, store, p.listing, p.calls);
      if !Takes(x, p) {
        if AtRest(x, store) {
          OtherPassLeavesAtRest(x, p.owner, store, p.listing, p.calls);
        } else {
          TakesPartLater(x, passes);
        }
      }
      AfterTheSecondRound(owners, after, passes[1..], x);
    }
  }

  /** Convergence of all. From any sound store, two rounds of clean passes, in each of which every owner takes part at
      least once, in any order, bring all owners to rest at once; and then no clean pass of any of them changes the
      store. One round may leave objects released late in it; two passes of one owner before the first of another are
      no two rounds. */
  lemma TwoRoundsSettleAll(owners: seq<Owner>, store: Store, first: seq<PassBy>, second: seq<PassBy>)
    requires Distinct(owners) && Sound(store)
    requires Interleaving(store, first) && AllClean(owners, store, first)
    requires var middle := AfterPasses(store, first);
             Interleaving(middle, second) && AllClean(owners, middle, second)
    requires forall x :: x in owners ==> TakesPart(x, first) && TakesPart(x, second)
    requires owners != []
    ensures var end := AfterPasses(AfterPasses(store, first), second);
            && SingleControllers(end)
            && forall x :: x in owners ==> AtRest(x, end) && UnchangedBy(x, end)
  {
    var middle := AfterPasses(store, first);
    forall x | x in owners
      ensures WellPlaced(x, middle) && Sound(middle)
    {
      AfterTheFirstRound(owners, store, first, x);
    }
    assert owners[0] in owners;
    var end := AfterPasses(middle, second);
    ControlIsSafe(middle, second, 0, 0);
    forall x | x in owners
      ensures AtRest(x, end) && UnchangedBy(x, end)
    {
      AfterTheSecondRound(owners, middle, second, x);
      RestIsFixed(x, end);
    }
  }

  /** No clean pass of the owner changes the store. */
  ghost predicate UnchangedBy(x: Owner, store: Store) {
    forall listing, calls :: Lists(listing, store) && Clean(x, store, calls) ==>
      Pass(x, store, listing, calls) == Sync(store, Ok)
  }

  lemma RestIsFixed(x: Owner, store: Store)
    requires ValidOwner(x) && SingleControllers(store) && AtRest(x, store)
    ensures UnchangedBy(x, store)
  {
    var kept: Option<nat> :| (kept.Some? <==> x.deploy) && Settled(x, store, kept);
    forall listing, calls | Lists(listing, store) && Clean(x, store, calls)
      ensures Pass(x, store, listing, calls) == Sync(store, Ok)
    {
      SettledIsFixed(x, store, listing, calls, kept);
    }
  }
}
