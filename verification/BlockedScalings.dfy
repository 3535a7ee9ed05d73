/** The list of blocked scalings that one reconciliation fills: vertical entries first, then the horizontal one. */
module BlockedScalings {
  import opened HvpaTypes

  /** The list that is handed from function to function and filled on the way. */
  class BlockedList {
    var entries: seq<BlockedScaling>

    constructor ()
      ensures entries == []
    {
      entries := [];
    }

    /** An entry is appended only for a reason that blocked something. */
    method AppendVertical(reason: BlockingReason, vpa: seq<Recommendation>)
      modifies this
      ensures entries == old(entries) + VerticalEntry(reason, vpa)
    {
      if vpa != [] {
        entries := entries + [BlockedScaling(reason, 0, 0, vpa)];
      }
    }

    /** All vertical entries, in order of priority. */
    method AppendAll(blocked: ByReason<seq<Recommendation>>)
      modifies this
      ensures entries == old(entries) + VerticalEntries(blocked, 5)
    {
      AppendVertical(WeightReason, blocked.weight);
      AppendVertical(UpdatePolicyReason, blocked.policy);
      AppendVertical(StabilizationReason, blocked.stabilization);
      AppendVertical(WindowReason, blocked.window);
      AppendVertical(MinChangeReason, blocked.minChange);
      hide VerticalEntries;
      FiveEntries(blocked);
    }

    /** A horizontal block goes into the entry that has its reason, or into a new one. */
    method MergeHorizontal(reason: BlockingReason, current: int, weighted: int)
      modifies this
      ensures entries == Merged(old(entries), reason, current, weighted)
    {
      var k := 0;
      while k < |entries|
        invariant 0 <= k <= FirstWith(entries, reason)
        invariant entries == old(entries)
      {
        if entries[k].reason == reason {
          entries := entries[k := entries[k].(hpaCurrent := current, hpaDesired := weighted)];
          return;
        }
        k := k + 1;
      }
      entries := entries + [BlockedScaling(reason, current, weighted, [])];
    }
  }

  function VerticalEntry(reason: BlockingReason, vpa: seq<Recommendation>): seq<BlockedScaling> {
    if vpa == [] then [] else [BlockedScaling(reason, 0, 0, vpa)]
  }

  function FirstWith(entries: seq<BlockedScaling>, reason: BlockingReason): (k: nat)
    ensures k <= |entries|
    ensures k < |entries| ==> entries[k].reason == reason
    ensures forall j :: 0 <= j < k ==> entries[j].reason != reason
  {
    if entries == [] || entries[0].reason == reason then 0
    else
      var rest := FirstWith(entries[1..], reason);
      assert forall j :: 0 < j < |entries| ==> entries[j] == entries[1..][j - 1];
      rest + 1
  }

  function Merged(entries: seq<BlockedScaling>, reason: BlockingReason, current: int, weighted: int): seq<BlockedScaling> {
    var k := FirstWith(entries, reason);
    if k < |entries| then entries[k := entries[k].(hpaCurrent := current, hpaDesired := weighted)]
    else entries + [BlockedScaling(reason, current, weighted, [])]
  }

  const PRIORITY: seq<BlockingReason> :=
    [WeightReason, UpdatePolicyReason, StabilizationReason, WindowReason, MinChangeReason]

  function Rank(reason: BlockingReason): (n: nat)
    ensures n < 5 == |PRIORITY| && PRIORITY[n] == reason
  {
    match reason
    case WeightReason => 0
    case UpdatePolicyReason => 1
    case StabilizationReason => 2
    case WindowReason => 3
    case MinChangeReason => 4
  }

  /** The vertical entries, for the first `n` reasons in order of priority. */
  function VerticalEntries(blocked: ByReason<seq<Recommendation>>, n: nat): seq<BlockedScaling>
    requires n <= 5
  {
    if n == 0 then []
    else VerticalEntries(blocked, n - 1) + VerticalEntry(PRIORITY[n - 1], blocked.At(PRIORITY[n - 1]))
  }

  lemma {:induction false} NothingBlocked(n: nat)
    requires n <= 5
    ensures VerticalEntries(Uniform([]), n) == []
  {
    if n > 0 {
      NothingBlocked(n - 1);
    }
  }

  lemma FiveEntries(b: ByReason<seq<Recommendation>>)
    ensures VerticalEntries(b, 5)
         == VerticalEntry(WeightReason, b.weight) + VerticalEntry(UpdatePolicyReason, b.policy)
            + VerticalEntry(StabilizationReason, b.stabilization) + VerticalEntry(WindowReason, b.window)
            + VerticalEntry(MinChangeReason, b.minChange)
  {
    hide VerticalEntry;
    assert VerticalEntries(b, 1) == VerticalEntry(WeightReason, b.weight);
    assert VerticalEntries(b, 2) == VerticalEntries(b, 1) + VerticalEntry(UpdatePolicyReason, b.policy);
    assert VerticalEntries(b, 3) == VerticalEntries(b, 2) + VerticalEntry(StabilizationReason, b.stabilization);
    assert VerticalEntries(b, 4) == VerticalEntries(b, 3) + VerticalEntry(WindowReason, b.window);
  }

  /** No two entries have the same reason. */
  ghost predicate Keyed(entries: seq<BlockedScaling>) {
    forall i, j :: 0 <= i < j < |entries| ==> entries[i].reason != entries[j].reason
  }

  ghost predicate InPriorityOrder(entries: seq<BlockedScaling>) {
    forall i, j :: 0 <= i < j < |entries| ==> Rank(entries[i].reason) < Rank(entries[j].reason)
  }

  lemma RankOfPriority(n: nat)
    requires n < 5
    ensures Rank(PRIORITY[n]) == n
  {
  }

  lemma {:induction false} VerticalEntriesOrdered(blocked: ByReason<seq<Recommendation>>, n: nat)
    requires n <= 5
    ensures var entries := VerticalEntries(blocked, n);
            && InPriorityOrder(entries)
            && forall i :: 0 <= i < |entries| ==>
                 && Rank(entries[i].reason) < n
                 && entries[i].vpa == blocked.At(entries[i].reason) != []
  {
    if n > 0 {
      VerticalEntriesOrdered(blocked, n - 1);
      RankOfPriority(n - 1);
      hide Rank;
    }
  }

  /** Every reason that blocked something has its entry. */
  lemma {:induction false} VerticalEntriesComplete(blocked: ByReason<seq<Recommendation>>, n: nat, reason: BlockingReason)
    requires n <= 5 && Rank(reason) < n && blocked.At(reason) != []
    ensures BlockedScaling(reason, 0, 0, blocked.At(reason)) in VerticalEntries(blocked, n)
  {
    if Rank(reason) < n - 1 {
      VerticalEntriesComplete(blocked, n - 1, reason);
    } else {
      assert PRIORITY[n - 1] == reason;
    }
  }

  /** Merging keeps the reasons distinct, and keeps every vertical part, in the same order. */
  lemma MergeKeepsKeys(entries: seq<BlockedScaling>, reason: BlockingReason, current: int, weighted: int)
    requires Keyed(entries)
    ensures var merged := Merged(entries, reason, current, weighted);
            && Keyed(merged)
            && |entries| <= |merged| <= |entries| + 1
            && (forall i :: 0 <= i < |entries| ==>
                  merged[i].reason == entries[i].reason && merged[i].vpa == entries[i].vpa)
            && (forall i :: |entries| <= i < |merged| ==> merged[i] == BlockedScaling(reason, current, weighted, []))
            && exists i :: 0 <= i < |merged| && merged[i].reason == reason
                 && merged[i].hpaCurrent == current && merged[i].hpaDesired == weighted
  {
    var merged := Merged(entries, reason, current, weighted);
    var k := FirstWith(entries, reason);
    assert merged[k].reason == reason;
  }

  ghost function Ranks(entries: seq<BlockedScaling>): (s: set<int>)
    ensures forall n :: n in s <==> exists i :: 0 <= i < |entries| && Rank(entries[i].reason) == n
  {
    set i | 0 <= i < |entries| :: Rank(entries[i].reason)
  }

  /** Distinct reasons make at most five entries. */
  lemma {:induction false} KeyedIsShort(entries: seq<BlockedScaling>)
    requires Keyed(entries)
    ensures |Ranks(entries)| == |entries| <= 5
  {
    RanksCount(entries);
    var all := {0, 1, 2, 3, 4};
    assert Ranks(entries) <= all;
    SubsetSize(Ranks(entries), all);
  }

  lemma {:induction false} RanksCount(entries: seq<BlockedScaling>)
    requires Keyed(entries)
    ensures |Ranks(entries)| == |entries|
  {
    if entries == [] {
      assert Ranks(entries) == {};
    } else {
      var n := |entries| - 1;
      RanksCount(entries[..n]);
      assert forall i :: 0 <= i < n ==> entries[..n][i] == entries[i];
      var last := Rank(entries[n].reason);
      assert Ranks(entries) == Ranks(entries[..n]) + {last};
      assert last !in Ranks(entries[..n]);
    }
  }

  lemma {:induction false} SubsetSize(a: set<int>, b: set<int>)
    requires a <= b
    ensures |a| <= |b|
  {
    assert b == a + (b - a);
  }

  /** The map by reason that the metrics build from the list. */
  function ByReasonMap(entries: seq<BlockedScaling>): map<BlockingReason, BlockedScaling> {
    if entries == [] then map[]
    else ByReasonMap(entries[..|entries| - 1])[entries[|entries| - 1].reason := entries[|entries| - 1]]
  }

  predicate FoundIn(m: map<BlockingReason, BlockedScaling>, entry: BlockedScaling) {
    entry.reason in m && m[entry.reason] == entry
  }

  lemma {:induction false} KeysAreReasons(entries: seq<BlockedScaling>)
    ensures forall reason :: reason in ByReasonMap(entries) ==>
              ByReasonMap(entries)[reason].reason == reason && ByReasonMap(entries)[reason] in entries
  {
    if entries != [] {
      var n := |entries| - 1;
      KeysAreReasons(entries[..n]);
      assert forall e :: e in entries[..n] ==> e in entries;
      assert entries[n] in entries;
    }
  }

  lemma LastKeyIsNew(entries: seq<BlockedScaling>)
    requires Keyed(entries) && entries != []
    ensures entries[|entries| - 1].reason !in ByReasonMap(entries[..|entries| - 1])
  {
    KeysAreReasons(entries[..|entries| - 1]);
    hide ByReasonMap;
  }

  lemma {:induction false} AllAreFound(entries: seq<BlockedScaling>)
    requires Keyed(entries)
    ensures forall i :: 0 <= i < |entries| ==> FoundIn(ByReasonMap(entries), entries[i])
    ensures |ByReasonMap(entries)| == |entries|
  {
    if entries != [] {
      var n := |entries| - 1;
      var front, last := entries[..n], entries[n];
      AllAreFound(front);
      LastKeyIsNew(entries);
      assert ByReasonMap(entries) == ByReasonMap(front)[last.reason := last];
      hide ByReasonMap, Keyed;
      forall i | 0 <= i < n
        ensures FoundIn(ByReasonMap(entries), entries[i])
      {
        assert FoundIn(ByReasonMap(front), front[i]);
      }
    }
  }

  /** Building the map loses nothing: each entry is found under its reason, and there are no other keys. */
  lemma MapLosesNothing(entries: seq<BlockedScaling>)
    requires Keyed(entries)
    ensures forall i :: 0 <= i < |entries| ==> FoundIn(ByReasonMap(entries), entries[i])
    ensures forall reason :: reason in ByReasonMap(entries) ==> ByReasonMap(entries)[reason] in entries
    ensures |ByReasonMap(entries)| == |entries|
  {
    hide ByReasonMap, FoundIn;
    AllAreFound(entries);
    KeysAreReasons(entries);
  }
}
