/** The global cache of HVPAs by namespace, and the lookup of the HVPA of a pod (controllers/hvpa_controller.go).
    `S` is the type of selectors; what a selector matches is a parameter of each lookup. In the cache itself selectors
    are optional: a target without a selector is cached with a nil one. */
module HvpaCache {
  import opened HvpaTypes

  datatype Entry<S> = Entry(name: string, selector: S)

  datatype Key = Key(namespace: string, name: string)

  type Lists<S> = map<string, seq<Entry<S>>>

  // ---------- one list ----------

  ghost predicate UniqueNames<S>(list: seq<Entry<S>>) {
    forall i, j :: 0 <= i < j < |list| ==> list[i].name != list[j].name
  }

  function IndexOfName<S>(list: seq<Entry<S>>, name: string): (i: nat)
    ensures i <= |list|
    ensures i < |list| ==> list[i].name == name
    ensures forall j :: 0 <= j < i ==> list[j].name != name
  {
    if list == [] then 0
    else if list[0].name == name then 0
    else
      var i := IndexOfName(list[1..], name);
      assert forall j :: 0 < j < i + 1 ==> list[j] == list[1..][j - 1];
      i + 1
  }

  /** The last entry takes the place of the removed one. */
  function Removed<S>(list: seq<Entry<S>>, name: string): seq<Entry<S>> {
    var i := IndexOfName(list, name);
    if i == |list| then list else list[i := list[|list| - 1]][..|list| - 1]
  }

  function Upserted<S>(list: seq<Entry<S>>, name: string, selector: S): seq<Entry<S>> {
    var i := IndexOfName(list, name);
    if i == |list| then list + [Entry(name, selector)] else list[i := Entry(name, selector)]
  }

  /** The name of the first entry whose selector matches; empty if there is none. */
  function FirstMatch<S>(list: seq<Entry<S>>, matches: S -> bool): string {
    if list == [] then ""
    else if matches(list[0].selector) then list[0].name
    else FirstMatch(list[1..], matches)
  }

  function SelectorIn<S>(list: seq<Entry<S>>, name: string): Option<S> {
    var i := IndexOfName(list, name);
    if i < |list| then Some(list[i].selector) else None
  }

  lemma FoundWhereListed<S>(list: seq<Entry<S>>, i: nat)
    requires UniqueNames(list) && i < |list|
    ensures IndexOfName(list, list[i].name) == i
  {
  }

  lemma RemovedIsWithout<S>(list: seq<Entry<S>>, gone: string, name: string)
    requires UniqueNames(list)
    ensures UniqueNames(Removed(list, gone))
    ensures SelectorIn(Removed(list, gone), name) == if name == gone then None else SelectorIn(list, name)
  {
    var i, n := IndexOfName(list, gone), |list| - 1;
    var after := Removed(list, gone);
    if i < |list| {
      assert forall j :: 0 <= j < n ==> after[j] == if j == i then list[n] else list[j];
      var k := IndexOfName(list, name);
      if k < |list| && name != gone {
        var k' := if k == n then i else k;
        assert after[k'] == list[k];
        FoundWhereListed(after, k');
      }
    }
  }

  lemma UpsertedIsWith<S>(list: seq<Entry<S>>, added: string, selector: S, name: string)
    requires UniqueNames(list)
    ensures UniqueNames(Upserted(list, added, selector))
    ensures SelectorIn(Upserted(list, added, selector), name)
            == if name == added then Some(selector) else SelectorIn(list, name)
  {
    var after, k := Upserted(list, added, selector), IndexOfName(list, name);
    if name == added || k < |list| {
      assert after[k].name == name;
      FoundWhereListed(after, k);
    }
  }

  // ---------- every history of operations ----------

  datatype Op<S> = Upsert(key: Key, selector: S) | Remove(key: Key)

  function ListOf<S>(lists: Lists<S>, namespace: string): seq<Entry<S>> {
    if namespace in lists then lists[namespace] else []
  }

  function Applied<S>(lists: Lists<S>, op: Op<S>): Lists<S> {
    var list := ListOf(lists, op.key.namespace);
    match op
    case Upsert(key, selector) => lists[key.namespace := Upserted(list, key.name, selector)]
    case Remove(key) => if key.namespace in lists then lists[key.namespace := Removed(list, key.name)] else lists
  }

  function History<S>(ops: seq<Op<S>>): Lists<S> {
    if ops == [] then map[] else Applied(History(ops[..|ops| - 1]), ops[|ops| - 1])
  }

  /** The same history on a plain map. */
  function Abstract<S>(ops: seq<Op<S>>): map<Key, S> {
    if ops == [] then map[]
    else
      var before := Abstract(ops[..|ops| - 1]);
      match ops[|ops| - 1]
      case Upsert(key, selector) => before[key := selector]
      case Remove(key) => before - {key}
  }

  ghost predicate AllUnique<S>(lists: Lists<S>) {
    forall namespace :: namespace in lists ==> UniqueNames(lists[namespace])
  }

  /** After every history the names in each list are unique, and the lists hold exactly the entries of the map. */
  lemma {:induction false} ListsRepresentMap<S>(ops: seq<Op<S>>, key: Key)
    ensures AllUnique(History(ops))
    ensures SelectorIn(ListOf(History(ops), key.namespace), key.name)
            == if key in Abstract(ops) then Some(Abstract(ops)[key]) else None
  {
    if ops != [] {
      var before, op := History(ops[..|ops| - 1]), ops[|ops| - 1];
      ListsRepresentMap(ops[..|ops| - 1], key);
      var list := ListOf(before, op.key.namespace);
      match op {
        case Upsert(changed, selector) => UpsertedIsWith(list, changed.name, selector, key.name);
        case Remove(changed) => RemovedIsWithout(list, changed.name, key.name);
      }
    }
  }

  // ---------- lookups ----------

  /** When all entries that match have the same name, that is the one found. */
  lemma {:induction false} OnlyMatchIsFound<S>(list: seq<Entry<S>>, matches: S -> bool, name: string)
    requires forall i :: 0 <= i < |list| && matches(list[i].selector) ==> list[i].name == name
    ensures FirstMatch(list, matches) == if exists i :: 0 <= i < |list| && matches(list[i].selector) then name else ""
  {
    if list != [] {
      OnlyMatchIsFound(list[1..], matches, name);
      if !matches(list[0].selector) {
        assert forall i :: 0 < i < |list| ==> list[i] == list[1..][i - 1];
      }
    }
  }

  /** Whether the selector of `name` is in the map of the cache and matches. */
  predicate MatchesIn<S>(m: map<Key, S>, namespace: string, name: string, matches: S -> bool) {
    Key(namespace, name) in m && matches(m[Key(namespace, name)])
  }

  lemma EntriesAreInMap<S>(ops: seq<Op<S>>, namespace: string)
    ensures var list := ListOf(History(ops), namespace);
            forall i :: 0 <= i < |list| ==>
              var key := Key(namespace, list[i].name);
              key in Abstract(ops) && Abstract(ops)[key] == list[i].selector
  {
    var list := ListOf(History(ops), namespace);
    forall i | 0 <= i < |list|
      ensures var key := Key(namespace, list[i].name);
              key in Abstract(ops) && Abstract(ops)[key] == list[i].selector
    {
      ListsRepresentMap(ops, Key(namespace, list[i].name));
      FoundWhereListed(list, i);
    }
  }

  /** When at most one cached selector ends the lookup, it ends with that HVPA, whatever the history. */
  lemma LookupIsExact<S>(ops: seq<Op<S>>, namespace: string, name: string, matches: S -> bool)
    requires forall n :: MatchesIn(Abstract(ops), namespace, n, matches) ==> n == name
    ensures FirstMatch(ListOf(History(ops), namespace), matches)
            == if MatchesIn(Abstract(ops), namespace, name, matches) then name else ""
  {
    var list := ListOf(History(ops), namespace);
    EntriesAreInMap(ops, namespace);
    ListsRepresentMap(ops, Key(namespace, name));
    forall i | 0 <= i < |list| && matches(list[i].selector)
      ensures list[i].name == name
    {
      assert MatchesIn(Abstract(ops), namespace, list[i].name, matches);
    }
    OnlyMatchIsFound(list, matches, name);
    var k := IndexOfName(list, name);
    assert k < |list| ==> list[k].name == name;
  }

  // ---------- nil selectors ----------

  /** A nil selector ends the loop of a lookup too, because using it panics. */
  function Stops<S>(matches: S -> bool): Option<S> -> bool {
    (selector: Option<S>) => selector.None? || matches(selector.value)
  }

  /** The loop meets a nil selector before a matching one. */
  predicate PanicsAtNil<S>(list: seq<Entry<Option<S>>>, matches: S -> bool) {
    list != [] && (list[0].selector.None? || (!matches(list[0].selector.value) && PanicsAtNil(list[1..], matches)))
  }

  lemma {:induction false} PanicsOnlyOnStop<S>(list: seq<Entry<Option<S>>>, matches: S -> bool)
    ensures PanicsAtNil(list, matches) ==> exists i :: 0 <= i < |list| && list[i].selector.None?
    ensures PanicsAtNil(list, matches)
         || (forall i :: 0 <= i < |list| ==> list[i].selector.Some?)
         || exists i :: 0 <= i < |list| && list[i].selector.Some? && matches(list[i].selector.value)
  {
    if list != [] {
      PanicsOnlyOnStop(list[1..], matches);
      assert forall i :: 0 < i < |list| ==> list[i] == list[1..][i - 1];
      assert list[0] == list[0];
    }
  }

  /** When at most one cached selector of the namespace matches the pod or is nil, every history gives the same: the
      matching HVPA is found, a nil selector makes the lookup panic, and without either nothing is found. */
  lemma PodLookupIsExact<S>(ops: seq<Op<Option<S>>>, namespace: string, name: string, matches: S -> bool)
    requires forall n :: MatchesIn(Abstract(ops), namespace, n, Stops(matches)) ==> n == name
    ensures var list, stops := ListOf(History(ops), namespace), MatchesIn(Abstract(ops), namespace, name, Stops(matches));
            && FirstMatch(list, Stops(matches)) == (if stops then name else "")
            && (PanicsAtNil(list, matches) <==> stops && Abstract(ops)[Key(namespace, name)].None?)
  {
    var list := ListOf(History(ops), namespace);
    LookupIsExact(ops, namespace, name, Stops(matches));
    EntriesAreInMap(ops, namespace);
    forall i | 0 <= i < |list| && Stops(matches)(list[i].selector)
      ensures list[i].name == name && list[i].selector == Abstract(ops)[Key(namespace, name)]
    {
      assert MatchesIn(Abstract(ops), namespace, list[i].name, Stops(matches));
    }
    PanicsOnlyOnStop(list, matches);
    ListsRepresentMap(ops, Key(namespace, name));
    var k := IndexOfName(list, name);
    assert k < |list| ==> list[k].name == name;
    assert forall i :: 0 <= i < |list| && list[i].selector.None? ==> Stops(matches)(list[i].selector);
    assert forall i :: 0 <= i < |list| && list[i].selector.Some? && matches(list[i].selector.value) ==>
             Stops(matches)(list[i].selector);
  }

  /** With two matching selectors the history decides: removing and adding again the HVPA that is found leaves the map
      as it is, but another HVPA is found. */
  lemma HistoryDecides<S>(ops: seq<Op<S>>, namespace: string, other: string, matches: S -> bool)
    requires MatchesIn(Abstract(ops), namespace, other, matches)
    requires var found := FirstMatch(ListOf(History(ops), namespace), matches);
             found != other && MatchesIn(Abstract(ops), namespace, found, matches)
    ensures var found := FirstMatch(ListOf(History(ops), namespace), matches);
            var key := Key(namespace, found);
            var again := ops + [Remove(key)] + [Upsert(key, Abstract(ops)[key])];
            && Abstract(again) == Abstract(ops)
            && FirstMatch(ListOf(History(again), namespace), matches) != found
  {
    var list := ListOf(History(ops), namespace);
    var found := FirstMatch(list, matches);
    var key := Key(namespace, found);
    var selector := Abstract(ops)[key];
    var once := ops + [Remove(key)];
    var again := once + [Upsert(key, selector)];
    assert once[..|ops|] == ops && again[..|once|] == once;
    ListsRepresentMap(ops, key);
    ListsRepresentMap(once, key);
    ListsRepresentMap(once, Key(namespace, other));
    var without := ListOf(History(once), namespace);
    assert without == Removed(list, found);
    var k := IndexOfName(without, other);
    assert k < |without| && matches(without[k].selector);
    assert ListOf(History(again), namespace) == without + [Entry(found, selector)];
    AppendedIsNotFirst(without, Entry(found, selector), matches, k);
  }

  lemma {:induction false} AppendedIsNotFirst<S>(list: seq<Entry<S>>, last: Entry<S>, matches: S -> bool, k: nat)
    requires k < |list| && matches(list[k].selector) && forall i :: 0 <= i < |list| ==> list[i].name != last.name
    ensures FirstMatch(list + [last], matches) != last.name
  {
    assert (list + [last])[1..] == list[1..] + [last];
    if !matches(list[0].selector) {
      AppendedIsNotFirst(list[1..], last, matches, k - 1);
    }
  }

  // ---------- the cache itself ----------

  class HvpaObj<S> {
    ghost const namespace: string
    const name: string
    var selector: S

    constructor (ghost namespace: string, name: string, selector: S)
      ensures this.namespace == namespace && this.name == name && this.selector == selector
    {
      this.namespace, this.name, this.selector := namespace, name, selector;
    }
  }

  /** No slot is nil, and the objects are those of `list`. Names being unique, no object is in two slots. */
  ghost predicate Holds<S>(namespace: string, slots: seq<HvpaObj?<S>>, list: seq<Entry<S>>)
    reads set i | 0 <= i < |slots| :: slots[i]
  {
    && |slots| == |list| && UniqueNames(list)
    && forall i :: 0 <= i < |slots| ==>
         && slots[i] != null && slots[i].namespace == namespace
         && slots[i].name == list[i].name && slots[i].selector == list[i].selector
  }

  lemma SwapRemovedHolds<S>(namespace: string, slots: seq<HvpaObj?<S>>, list: seq<Entry<S>>, name: string)
    requires Holds(namespace, slots, list) && IndexOfName(list, name) < |list|
    ensures var n, i := |slots| - 1, IndexOfName(list, name);
            Holds(namespace, slots[i := slots[n]][n := null][..n], Removed(list, name))
  {
    RemovedIsWithout(list, name, name);
  }

  /** The objects of one namespace, with the selector of `name` set in place, or a new object appended. */
  method UpdateSlots<S(==)>(ghost namespace: string, slots: seq<HvpaObj?<S>>, ghost list: seq<Entry<S>>, name: string,
                            selector: S)
    returns (updated: seq<HvpaObj?<S>>)
    requires Holds(namespace, slots, list)
    modifies set i | 0 <= i < |slots| :: slots[i]
    ensures Holds(namespace, updated, Upserted(list, name, selector))
  {
    UpsertedIsWith(list, name, selector, name);
    var i := 0;
    while i < |slots|
      invariant 0 <= i <= |slots|
      invariant forall j :: 0 <= j < i ==> list[j].name != name
    {
      if slots[i].name == name {
        if slots[i].selector != selector {
          slots[i].selector := selector;
        }
        return slots;
      }
      i := i + 1;
    }
    var obj := new HvpaObj(namespace, name, selector);
    updated := slots + [obj];
  }

  class Cache<S(==)> {
    var cachedNames: map<string, seq<HvpaObj?<Option<S>>>>
    ghost var lists: Lists<Option<S>>

    ghost function Objects(): set<HvpaObj?<Option<S>>>
      reads this
    {
      set ns, i | ns in cachedNames && 0 <= i < |cachedNames[ns]| :: cachedNames[ns][i]
    }

    ghost predicate Valid()
      reads this, Objects()
    {
      && lists.Keys == cachedNames.Keys
      && forall ns :: ns in lists ==> Holds(ns, cachedNames[ns], lists[ns])
    }

    constructor ()
      ensures Valid() && lists == map[]
    {
      cachedNames, lists := map[], map[];
    }

    method RemoveFromCache(key: Key)
      requires Valid()
      modifies this
      ensures Valid() && lists == Applied(old(lists), Remove(key))
    {
      if key.namespace !in cachedNames {
        return;
      }
      var slots := cachedNames[key.namespace];
      ghost var list := lists[key.namespace];
      var i := 0;
      while i < |slots|
        invariant 0 <= i <= |slots|
        invariant forall j :: 0 <= j < i ==> list[j].name != key.name
      {
        if slots[i].name == key.name {
          SwapRemovedHolds(key.namespace, slots, list, key.name);
          assert i == IndexOfName(list, key.name);
          hide Holds, Removed;
          var n := |slots| - 1;
          slots := slots[i := slots[n]];
          slots := slots[n := null];
          cachedNames := cachedNames[key.namespace := slots[..n]];
          lists := Applied(lists, Remove(key));
          return;
        }
        i := i + 1;
      }
      assert lists[key.namespace := list] == lists;
    }

    method UpdateCache(key: Key, selector: Option<S>)
      requires Valid()
      modifies this, Objects()
      ensures Valid() && lists == Applied(old(lists), Upsert(key, selector))
    {
      hide UniqueNames, IndexOfName, Upserted;
      var slots := if key.namespace in cachedNames then cachedNames[key.namespace] else [];
      ghost var list := ListOf(lists, key.namespace);
      slots := UpdateSlots(key.namespace, slots, list, key.name, selector);
      forall ns | ns in lists && ns != key.namespace
        ensures Holds(ns, cachedNames[ns], lists[ns])
      {
        assert old(Holds(ns, cachedNames[ns], lists[ns]));
        assert forall j :: 0 <= j < |cachedNames[ns]| ==> cachedNames[ns][j].namespace == ns;
      }
      hide Holds;
      cachedNames := cachedNames[key.namespace := slots];
      lists := Applied(lists, Upsert(key, selector));
    }

    /** `selector` is what could be determined for an HVPA that was found: none in case of an error, and without an
        error possibly a nil selector. */
    method ManageCache(key: Key, found: bool, selector: Option<Option<S>>)
      requires Valid()
      modifies this, Objects()
      ensures Valid()
      ensures lists == if !found then Applied(old(lists), Remove(key))
                       else if selector.Some? then Applied(old(lists), Upsert(key, selector.value))
                       else old(lists)
    {
      if !found {
        RemoveFromCache(key);
        return;
      }
      if selector.None? {
        return;
      }
      UpdateCache(key, selector.value);
    }

    method HvpaOfPod(namespace: string, matches: S -> bool) returns (name: string, panics: bool)
      requires Valid()
      ensures panics <==> PanicsAtNil(ListOf(lists, namespace), matches)
      ensures !panics ==> name == FirstMatch(ListOf(lists, namespace), Stops(matches))
    {
      if namespace !in cachedNames {
        return "", false;
      }
      var slots, i := cachedNames[namespace], 0;
      while i < |slots|
        invariant 0 <= i <= |slots|
        invariant FirstMatch(lists[namespace], Stops(matches)) == FirstMatch(lists[namespace][i..], Stops(matches))
        invariant PanicsAtNil(lists[namespace], matches) <==> PanicsAtNil(lists[namespace][i..], matches)
      {
        var obj := slots[i];
        if obj.selector.None? {
          return "", true;
        }
        if matches(obj.selector.value) {
          return obj.name, false;
        }
        i := i + 1;
      }
      return "", false;
    }
  }
}
