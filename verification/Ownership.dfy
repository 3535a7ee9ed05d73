/** Owner references and the claiming of child objects (controllers/controller_ref_manager.go). */
module Ownership {
  import opened HvpaTypes

  datatype OwnerKey = OwnerKey(kind: string, name: string)

  datatype OwnerRef = OwnerRef(key: OwnerKey, uid: nat, controller: bool)

  type Labels = map<string, string>

  datatype VpaMode = ModeOff | ModeInitial | ModeRecreate | ModeAuto

  /** What is compared and synchronised of a child: of an HPA its whole specification, metrics and target being
      represented by text, and of a VPA its resource policy and update mode. */
  datatype ChildSpec =
    | HpaSpec(minReplicas: Option<int>, maxReplicas: int, metrics: seq<string>, target: string)
    | VpaSpec(policy: Option<seq<ContainerPolicy>>, mode: Option<VpaMode>)

  /** An HPA or VPA in the namespace. */
  datatype Child = Child(labels: Labels, owners: seq<OwnerRef>, deleting: bool, spec: ChildSpec)

  /** The children of one kind in the namespace. */
  type Store = map<nat, Child>

  /** How a child is to be specified. HPAs are handled through the first or, if `v2`, the second version of their API. */
  datatype Wanted =
    | WantHpa(v2: bool, minReplicas: int, maxReplicas: int, metrics: seq<string>, target: string)
    | WantVpa(policy: Option<seq<ContainerPolicy>>)

  /** The HVPA as a controller of children of one kind. The selector is an arbitrary predicate on labels; `deploy` tells
      whether a child is to exist. */
  datatype Owner = Owner(key: OwnerKey, uid: nat, deleting: bool, selector: Labels -> bool,
                         deploy: bool, wanted: Wanted, templateLabels: Labels, templateOwned: bool)
  {
    /** The update mode of a VPA is always to be Off. */
    function Spec(): ChildSpec {
      match wanted
      case WantHpa(_, minReplicas, maxReplicas, metrics, target) =>
        HpaSpec(Some(minReplicas), maxReplicas, metrics, target)
      case WantVpa(policy) => VpaSpec(policy, Some(ModeOff))
    }

    /** With the second version, the errors of releasing, creating and reading back are overwritten or shadowed. */
    predicate LosesErrors() {
      wanted.WantHpa? && wanted.v2
    }
  }

  /** How a call that writes an object ends. `Gone` is not found: someone else has removed the object. */
  datatype Outcome = Done | Gone | Rejected | Failed

  // ---------- owner references ----------

  /** The first reference that is a controller. */
  function ControllerOf(owners: seq<OwnerRef>): Option<OwnerRef> {
    if owners == [] then None
    else if owners[0].controller then Some(owners[0])
    else ControllerOf(owners[1..])
  }

  predicate ControlledBy(c: Child, uid: nat) {
    ControllerOf(c.owners).Some? && ControllerOf(c.owners).value.uid == uid
  }

  ghost predicate SingleController(owners: seq<OwnerRef>) {
    forall i, j :: 0 <= i < j < |owners| ==> !(owners[i].controller && owners[j].controller)
  }

  /** SetControllerReference on an object without a controller: replace the reference to the same object, or append. */
  function SetController(owners: seq<OwnerRef>, ref: OwnerRef): seq<OwnerRef> {
    if owners == [] then [ref]
    else if owners[0].key == ref.key then [ref] + owners[1..]
    else [owners[0]] + SetController(owners[1..], ref)
  }

  function Without(owners: seq<OwnerRef>, uid: nat): seq<OwnerRef> {
    if owners == [] then []
    else if owners[|owners| - 1].uid == uid then Without(owners[..|owners| - 1], uid)
    else Without(owners[..|owners| - 1], uid) + [owners[|owners| - 1]]
  }

  lemma {:induction false} NoControllerMeansNone(owners: seq<OwnerRef>)
    ensures ControllerOf(owners).None? <==> forall i :: 0 <= i < |owners| ==> !owners[i].controller
    ensures ControllerOf(owners).Some? ==> ControllerOf(owners).value in owners && ControllerOf(owners).value.controller
  {
    if owners != [] {
      NoControllerMeansNone(owners[1..]);
      assert forall i :: 0 < i < |owners| ==> owners[i] == owners[1..][i - 1];
    }
  }

  /** Adopting an orphan makes the adopter its one and only controller. */
  lemma {:induction false} AdoptionControls(owners: seq<OwnerRef>, ref: OwnerRef)
    requires ControllerOf(owners).None? && ref.controller
    ensures ControllerOf(SetController(owners, ref)) == Some(ref)
    ensures SingleController(SetController(owners, ref))
  {
    NoControllerMeansNone(owners);
    if owners != [] && owners[0].key != ref.key {
      AdoptionControls(owners[1..], ref);
      assert SetController(owners, ref)[1..] == SetController(owners[1..], ref);
    }
  }

  lemma {:induction false} WithoutKeeps(owners: seq<OwnerRef>, uid: nat)
    ensures |Without(owners, uid)| <= |owners|
    ensures forall r :: r in Without(owners, uid) <==> r in owners && r.uid != uid
    ensures SingleController(owners) ==> SingleController(Without(owners, uid))
  {
    if owners != [] {
      WithoutKeeps(owners[..|owners| - 1], uid);
      var last := owners[|owners| - 1];
      assert owners == owners[..|owners| - 1] + [last];
    }
  }

  /** Releasing an object with a single controller leaves it without one. */
  lemma ReleaseFrees(owners: seq<OwnerRef>, uid: nat)
    requires SingleController(owners) && ControllerOf(owners).Some? && ControllerOf(owners).value.uid == uid
    ensures ControllerOf(Without(owners, uid)).None? && SingleController(Without(owners, uid))
  {
    WithoutKeeps(owners, uid);
    NoControllerMeansNone(owners);
    NoControllerMeansNone(Without(owners, uid));
  }

  // ---------- claiming one object ----------

  function Ref(o: Owner): OwnerRef {
    OwnerRef(o.key, o.uid, true)
  }

  /** Whether the object is now claimed, whether an error is reported, and the object afterwards, if it exists. */
  datatype Claimed = Claimed(mine: bool, failed: bool, after: Option<Child>)

  function Adopted(o: Owner, c: Child): Child {
    c.(owners := SetController(c.owners, Ref(o)))
  }

  function Released(o: Owner, c: Child): Child {
    c.(owners := Without(c.owners, o.uid))
  }

  function Claim(o: Owner, c: Child, canAdopt: bool, outcome: Outcome): Claimed {
    match ControllerOf(c.owners)
    case Some(ref) =>
      if ref.uid != o.uid then Claimed(false, false, Some(c))
      else if o.selector(c.labels) then Claimed(true, false, Some(c))
      else if o.deleting then Claimed(false, false, Some(c))
      else (match outcome
            case Done => Claimed(false, false, Some(Released(o, c)))
            case Gone => Claimed(false, false, None)
            case Rejected => Claimed(false, false, Some(c))
            case Failed => Claimed(false, !o.LosesErrors(), Some(c)))
    case None =>
      if o.deleting || !o.selector(c.labels) || c.deleting then Claimed(false, false, Some(c))
      else if !canAdopt then Claimed(false, true, Some(c))
      else (match outcome
            case Done => Claimed(true, false, Some(Adopted(o, c)))
            case Gone => Claimed(false, false, None)
            case Rejected => Claimed(false, true, Some(c))
            case Failed => Claimed(false, true, Some(c)))
  }

  // ---------- claiming all objects ----------

  /** A listing of the objects, each one once. */
  ghost predicate Lists(listing: seq<nat>, store: Store) {
    && (forall id :: id in listing <==> id in store)
    && (forall i, j :: 0 <= i < j < |listing| ==> listing[i] != listing[j])
  }

  /** The store after the objects `ids` have been claimed, each one on its own. */
  function AfterClaims(o: Owner, store: Store, ids: seq<nat>, canAdopt: bool, outcomes: nat -> Outcome): Store {
    map id | id in store && (id in ids ==> Claim(o, store[id], canAdopt, outcomes(id)).after.Some?)
      :: if id in ids then Claim(o, store[id], canAdopt, outcomes(id)).after.value else store[id]
  }

  /** The claimed objects, in the order of the listing. */
  function ClaimedIds(o: Owner, store: Store, ids: seq<nat>, canAdopt: bool, outcomes: nat -> Outcome): seq<nat>
    requires forall id :: id in ids ==> id in store
  {
    if ids == [] then []
    else
      var last := ids[|ids| - 1];
      ClaimedIds(o, store, ids[..|ids| - 1], canAdopt, outcomes)
      + if Claim(o, store[last], canAdopt, outcomes(last)).mine then [last] else []
  }

  ghost predicate SomeFailed(o: Owner, store: Store, ids: seq<nat>, canAdopt: bool, outcomes: nat -> Outcome)
    requires forall id :: id in ids ==> id in store
  {
    exists id :: id in ids && Claim(o, store[id], canAdopt, outcomes(id)).failed
  }

  /** What an uncached read of the HVPA returns. */
  datatype Reread = Unreadable | Found(uid: nat, deleting: bool)

  /** RecheckDeletionTimestamp, for the HVPA the pass started with. */
  predicate StillLive(o: Owner, latest: Reread) {
    latest.Found? && latest.uid == o.uid && !latest.deleting
  }

  /** The API server, as far as one kind of child in one namespace is concerned. */
  class ApiServer {
    var objects: Store

    constructor (objects: Store)
      ensures this.objects == objects
    {
      this.objects := objects;
    }

    /** Replacing an object by its changed copy. */
    method Write(id: nat, c: Child, outcome: Outcome) returns (result: Outcome)
      requires id in objects
      modifies this
      ensures result == outcome
      ensures objects == match outcome
                         case Done => old(objects)[id := c]
                         case Gone => old(objects) - {id}
                         case _ => old(objects)
    {
      match outcome {
        case Done => objects := objects[id := c];
        case Gone => objects := objects - {id};
        case _ =>
      }
      result := outcome;
    }

    method Delete(id: nat, outcome: Outcome) returns (result: Outcome)
      requires id in objects
      modifies this
      ensures result == outcome
      ensures objects == if outcome == Done || outcome == Gone then old(objects) - {id} else old(objects)
    {
      if outcome == Done || outcome == Gone {
        objects := objects - {id};
      }
      result := outcome;
    }

    /** The server picks the name; a name that is taken is refused. */
    method Create(id: nat, c: Child, outcome: Outcome) returns (ok: bool)
      modifies this
      ensures ok <==> outcome == Done && id !in old(objects)
      ensures objects == if ok then old(objects)[id := c] else old(objects)
    {
      ok := outcome == Done && id !in objects;
      if ok {
        objects := objects[id := c];
      }
    }
  }

  /** One claiming pass of one HVPA. `latest(k)` is what its k-th uncached read of the HVPA would return. */
  class RefManager {
    const owner: Owner
    const latest: nat -> Reread
    var canAdopt: Option<bool>
    var asked: nat

    constructor (owner: Owner, latest: nat -> Reread)
      ensures Valid() && asked == 0 && this.owner == owner && this.latest == latest
    {
      this.owner, this.latest, canAdopt, asked := owner, latest, None, 0;
    }

    ghost predicate Valid()
      reads this
    {
      if canAdopt.Some? then asked == 1 && canAdopt.value == StillLive(owner, latest(0)) else asked == 0
    }

    /** Asked once; the first answer is kept. */
    method CanAdopt() returns (ok: bool)
      requires Valid()
      modifies this
      ensures Valid() && asked == 1 && ok == StillLive(owner, latest(0))
    {
      if canAdopt.None? {
        canAdopt := Some(StillLive(owner, latest(asked)));
        asked := asked + 1;
      }
      ok := canAdopt.value;
    }

    method Adopt(api: ApiServer, id: nat, outcome: Outcome) returns (result: Outcome)
      requires Valid() && id in api.objects && ControllerOf(api.objects[id].owners).None?
      modifies this, api
      ensures Valid()
      ensures result == if StillLive(owner, latest(0)) then outcome else Failed
      ensures api.objects == if !StillLive(owner, latest(0)) then old(api.objects)
                             else match outcome
                                  case Done => old(api.objects)[id := Adopted(owner, old(api.objects)[id])]
                                  case Gone => old(api.objects) - {id}
                                  case _ => old(api.objects)
    {
      var ok := CanAdopt();
      if !ok {
        return Failed;
      }
      result := api.Write(id, Adopted(owner, api.objects[id]), outcome);
    }

    /** References of this controller are left out. Not found and invalid are no errors; with the second version of
        HPAs nothing is, because the variable of the error is declared anew in its branch. */
    method Release(api: ApiServer, id: nat, outcome: Outcome) returns (ok: bool)
      requires id in api.objects
      modifies api
      ensures ok <==> outcome != Failed || owner.LosesErrors()
      ensures api.objects == match outcome
                             case Done => old(api.objects)[id := Released(owner, old(api.objects)[id])]
                             case Gone => old(api.objects) - {id}
                             case _ => old(api.objects)
    {
      var c := api.objects[id];
      var kept, i := [], 0;
      while i < |c.owners|
        invariant 0 <= i <= |c.owners|
        invariant kept == Without(c.owners[..i], owner.uid)
      {
        assert c.owners[..i + 1][..i] == c.owners[..i];
        if c.owners[i].uid != owner.uid {
          kept := kept + [c.owners[i]];
        }
        i := i + 1;
      }
      assert c.owners[..i] == c.owners;
      var result := api.Write(id, c.(owners := kept), outcome);
      ok := result != Failed || owner.LosesErrors();
    }

    method ClaimObject(api: ApiServer, id: nat, outcome: Outcome) returns (mine: bool, failed: bool)
      requires Valid() && id in api.objects
      modifies this, api
      ensures Valid()
      ensures var claim := Claim(owner, old(api.objects)[id], StillLive(owner, latest(0)), outcome);
              && mine == claim.mine && failed == claim.failed
              && api.objects == if claim.after.Some? then old(api.objects)[id := claim.after.value]
                                else old(api.objects) - {id}
    {
      var c := api.objects[id];
      assert api.objects == api.objects[id := c];
      var controller := ControllerOf(c.owners);
      if controller.Some? {
        if controller.value.uid != owner.uid {
          return false, false;
        }
        if owner.selector(c.labels) {
          return true, false;
        }
        if owner.deleting {
          return false, false;
        }
        var ok := Release(api, id, outcome);
        return false, !ok;
      }
      if owner.deleting || !owner.selector(c.labels) {
        return false, false;
      }
      if c.deleting {
        return false, false;
      }
      var result := Adopt(api, id, outcome);
      return result == Done, result == Rejected || result == Failed;
    }

    /** The whole list: a failure is remembered, and the loop goes on. */
    method ClaimChildren(api: ApiServer, listing: seq<nat>, outcomes: nat -> Outcome)
      returns (claimed: seq<nat>, failed: bool)
      requires Valid() && Lists(listing, api.objects)
      modifies this, api
      ensures Valid()
      ensures var canAdopt, store := StillLive(owner, latest(0)), old(api.objects);
              && api.objects == AfterClaims(owner, store, listing, canAdopt, outcomes)
              && claimed == ClaimedIds(owner, store, listing, canAdopt, outcomes)
              && (failed <==> SomeFailed(owner, store, listing, canAdopt, outcomes))
    {
      claimed, failed := [], false;
      ghost var canAdopt, store := StillLive(owner, latest(0)), api.objects;
      var k := 0;
      while k < |listing|
        invariant 0 <= k <= |listing| && Valid()
        invariant forall id :: id in listing[..k] ==> id in store
        invariant api.objects == AfterClaims(owner, store, listing[..k], canAdopt, outcomes)
        invariant claimed == ClaimedIds(owner, store, listing[..k], canAdopt, outcomes)
        invariant failed <==> SomeFailed(owner, store, listing[..k], canAdopt, outcomes)
      {
        var id := listing[k];
        hide Claim;
        OneMoreClaim(owner, store, listing, k, canAdopt, outcomes);
        var mine, fails := ClaimObject(api, id, outcomes(id));
        if fails {
          failed := true;
        } else if mine {
          claimed := claimed + [id];
        }
        k := k + 1;
      }
      assert listing[..k] == listing;
    }
  }

  lemma ListedOnce(store: Store, listing: seq<nat>, k: nat)
    requires Lists(listing, store) && k < |listing|
    ensures listing[k] in store && listing[k] !in listing[..k]
    ensures forall i :: i in listing[..k + 1] <==> i in listing[..k] || i == listing[k]
    ensures forall i :: i in listing[..k + 1] ==> i in store
  {
  }

  lemma OneMoreInStore(o: Owner, store: Store, listing: seq<nat>, k: nat, canAdopt: bool, outcomes: nat -> Outcome)
    requires Lists(listing, store) && k < |listing|
    ensures var before, id := AfterClaims(o, store, listing[..k], canAdopt, outcomes), listing[k];
            var claim := Claim(o, store[id], canAdopt, outcomes(id));
            && id in before && before[id] == store[id]
            && AfterClaims(o, store, listing[..k + 1], canAdopt, outcomes)
               == (if claim.after.Some? then before[id := claim.after.value] else before - {id})
  {
    hide Claim, Lists;
    ListedOnce(store, listing, k);
    var earlier, more := listing[..k], listing[..k + 1];
    assert forall i :: i in more <==> i in earlier || i == listing[k];
  }

  /** Claiming one more listed object touches that object only, and it is still as it was listed. */
  lemma OneMoreClaim(o: Owner, store: Store, listing: seq<nat>, k: nat, canAdopt: bool, outcomes: nat -> Outcome)
    requires Lists(listing, store) && k < |listing|
    ensures var before, id := AfterClaims(o, store, listing[..k], canAdopt, outcomes), listing[k];
            var claim := Claim(o, store[id], canAdopt, outcomes(id));
            && id in store && id in before && before[id] == store[id]
            && AfterClaims(o, store, listing[..k + 1], canAdopt, outcomes)
               == (if claim.after.Some? then before[id := claim.after.value] else before - {id})
            && (forall i :: i in listing[..k + 1] ==> i in store)
            && ClaimedIds(o, store, listing[..k + 1], canAdopt, outcomes)
               == ClaimedIds(o, store, listing[..k], canAdopt, outcomes) + (if claim.mine then [id] else [])
            && (SomeFailed(o, store, listing[..k + 1], canAdopt, outcomes) <==>
                  SomeFailed(o, store, listing[..k], canAdopt, outcomes) || claim.failed)
            && !(claim.mine && claim.failed)
  {
    var id := listing[k];
    ListedOnce(store, listing, k);
    OneMoreInStore(o, store, listing, k, canAdopt, outcomes);
    NeverMineAndFailed(o, store[id], canAdopt, outcomes(id));
    hide Claim, AfterClaims, Lists;
    assert listing[..k + 1][..k] == listing[..k];
  }

  lemma NeverMineAndFailed(o: Owner, c: Child, canAdopt: bool, outcome: Outcome)
    ensures !(Claim(o, c, canAdopt, outcome).mine && Claim(o, c, canAdopt, outcome).failed)
  {
  }
}
