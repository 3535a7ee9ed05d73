/** Choosing the VPA weight from the intervals of replica counts (getVpaWeightFromIntervals). */
module IntervalWeights {
  import opened HvpaTypes

  predicate Covers(spec: HvpaSpec, i: Interval, replicas: int) {
    var start := if i.start == 0 then spec.minReplicas else i.start;
    var last := if i.last == 0 then spec.maxReplicas else i.last;
    start <= replicas <= last
  }

  /** `w` is the weight of the last interval before index `n` whose weight is below 100, or 100 if there is none. */
  ghost predicate LastFraction(intervals: seq<Interval>, n: nat, w: int)
    requires n <= |intervals|
  {
    || (w == 100 && forall j :: 0 <= j < n ==> intervals[j].vpaWeight >= 100)
    || exists k :: 0 <= k < n && intervals[k].vpaWeight == w < 100
         && forall j :: k < j < n ==> intervals[j].vpaWeight >= 100
  }

  /** `w` is the weight of the first interval from index `n` on whose weight is below 100, or 100 if there is none. */
  ghost predicate FirstFraction(intervals: seq<Interval>, n: nat, w: int)
    requires n <= |intervals|
  {
    || (w == 100 && forall j :: n <= j < |intervals| ==> intervals[j].vpaWeight >= 100)
    || exists k :: n <= k < |intervals| && intervals[k].vpaWeight == w < 100
         && forall j :: n <= j < k ==> intervals[j].vpaWeight >= 100
  }

  ghost predicate NoneCoversBefore(spec: HvpaSpec, n: nat, current: int)
    requires n <= |spec.intervals|
  {
    forall i :: 0 <= i < n ==> !Covers(spec, spec.intervals[i], current)
  }

  ghost predicate FirstCovers(spec: HvpaSpec, m: nat, current: int) {
    m < |spec.intervals| && Covers(spec, spec.intervals[m], current) && NoneCoversBefore(spec, m, current)
  }

  /** The weight taken when interval `m` is the first covering one. Where its weight is 100, scaling in takes the
      nearest smaller weight listed before it, and scaling out the nearest one listed after it. */
  ghost predicate Chosen(spec: HvpaSpec, desired: int, current: int, m: nat, w: int)
    requires m < |spec.intervals|
  {
    var all := spec.intervals;
    if all[m].vpaWeight != 100 || desired == current then w == all[m].vpaWeight
    else if desired < current then LastFraction(all, m, w)
    else FirstFraction(all, m + 1, w)
  }

  /** The first interval covering the count decides, and without one the weight is zero. */
  ghost predicate Selects(spec: HvpaSpec, desired: int, current: int, w: int) {
    if NoneCoversBefore(spec, |spec.intervals|, current) then w == 0
    else exists m: nat :: FirstCovers(spec, m, current) && Chosen(spec, desired, current, m, w)
  }

  /** Index of the first interval from `n` on covering the replica count, or the number of intervals. */
  function FirstCovering(spec: HvpaSpec, n: nat, replicas: int): (m: nat)
    requires n <= |spec.intervals|
    ensures n <= m <= |spec.intervals|
    ensures NoneCoversBefore(spec, n, replicas) ==> NoneCoversBefore(spec, m, replicas)
    ensures m < |spec.intervals| ==> Covers(spec, spec.intervals[m], replicas)
    decreases |spec.intervals| - n
  {
    if n == |spec.intervals| || Covers(spec, spec.intervals[n], replicas) then n
    else FirstCovering(spec, n + 1, replicas)
  }

  function FractionFrom(intervals: seq<Interval>, n: nat): (w: int)
    requires n <= |intervals|
    ensures FirstFraction(intervals, n, w)
    decreases |intervals| - n
  {
    if n == |intervals| then 100
    else if intervals[n].vpaWeight < 100 then intervals[n].vpaWeight
    else FractionFrom(intervals, n + 1)
  }

  function FractionBefore(intervals: seq<Interval>, n: nat): (w: int)
    requires n <= |intervals|
    ensures LastFraction(intervals, n, w)
  {
    if n == 0 then 100
    else if intervals[n - 1].vpaWeight < 100 then intervals[n - 1].vpaWeight
    else FractionBefore(intervals, n - 1)
  }

  /** The selected weight, as a function. */
  function VpaWeight(spec: HvpaSpec, desired: int, current: int): (w: int)
    ensures Selects(spec, desired, current, w)
    ensures WeightsInRange(spec.intervals) ==> 0 <= w <= 100
  {
    var m := FirstCovering(spec, 0, current);
    if m == |spec.intervals| then 0
    else
      assert FirstCovers(spec, m, current);
      if spec.intervals[m].vpaWeight != 100 || desired == current then spec.intervals[m].vpaWeight
      else if desired < current then FractionBefore(spec.intervals, m)
      else FractionFrom(spec.intervals, m + 1)
  }

  /** The rule names exactly one weight. */
  lemma SelectionUnique(spec: HvpaSpec, desired: int, current: int, w: int)
    requires Selects(spec, desired, current, w)
    ensures w == VpaWeight(spec, desired, current)
  {
  }

  /** The rule from the fields of the specification. `m` is the first interval covering the count, or the number of
      intervals; an unset start means the minimum of the replicas, and an unset last the maximum. */
  lemma WeightInPlain(spec: HvpaSpec, desired: int, current: int, m: nat)
    requires var all := spec.intervals;
             && m <= |all|
             && (forall i :: 0 <= i < m ==>
                   || current < (if all[i].start == 0 then spec.minReplicas else all[i].start)
                   || current > (if all[i].last == 0 then spec.maxReplicas else all[i].last))
             && (m < |all| ==>
                   && current >= (if all[m].start == 0 then spec.minReplicas else all[m].start)
                   && current <= (if all[m].last == 0 then spec.maxReplicas else all[m].last))
    ensures var all, w := spec.intervals, VpaWeight(spec, desired, current);
            if m == |all| then w == 0
            else if all[m].vpaWeight != 100 || desired == current then w == all[m].vpaWeight
            else if desired < current then
              || (w == 100 && forall j :: 0 <= j < m ==> all[j].vpaWeight >= 100)
              || exists k :: 0 <= k < m && w == all[k].vpaWeight < 100 && forall j :: k < j < m ==> all[j].vpaWeight >= 100
            else
              || (w == 100 && forall j :: m < j < |all| ==> all[j].vpaWeight >= 100)
              || exists k :: m < k < |all| && w == all[k].vpaWeight < 100
                   && forall j :: m < j < k ==> all[j].vpaWeight >= 100
  {
    var first := FirstCovering(spec, 0, current);
    assert first == m;
  }

  /** One pass over the intervals, remembering the last fraction seen and whether to look for the next one. */
  method GetVpaWeightFromIntervals(spec: HvpaSpec, desired: int, current: int) returns (vpaWeight: int)
    ensures vpaWeight == VpaWeight(spec, desired, current)
  {
    hide FirstFraction, LastFraction, Selects, Chosen;
    var all := spec.intervals;
    ghost var m := FirstCovering(spec, 0, current);
    vpaWeight := 0;
    var lastFraction, lookupNextFraction := 100, false;
    var i := 0;
    while i < |all|
      invariant 0 <= i <= |all|
      invariant !lookupNextFraction ==> i <= m && vpaWeight == 0 && lastFraction == FractionBefore(all, i)
      invariant lookupNextFraction ==>
          && m < i && vpaWeight == 100 == all[m].vpaWeight && desired > current
          && FractionFrom(all, m + 1) == FractionFrom(all, i)
    {
      var interval := all[i];
      if lookupNextFraction {
        if interval.vpaWeight < 100 {
          vpaWeight := interval.vpaWeight;
          break;
        }
      } else {
        if interval.vpaWeight < 100 {
          lastFraction := interval.vpaWeight;
        }
        var start := if interval.start == 0 then spec.minReplicas else interval.start;
        var last := if interval.last == 0 then spec.maxReplicas else interval.last;
        if current >= start && current <= last {
          vpaWeight := interval.vpaWeight;
          if vpaWeight == 100 {
            if desired < current {
              vpaWeight := lastFraction;
            } else if desired > current {
              lookupNextFraction := true;
              i := i + 1;
              continue;
            }
          }
          break;
        }
      }
      i := i + 1;
    }
  }
}
