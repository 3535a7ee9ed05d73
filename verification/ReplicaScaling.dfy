/** The horizontal decision: weighted replicas, their gates, and convergence to a fixed desired count. */
module ReplicaScaling {
  import opened GoNumerics
  import opened MaintenanceWindow
  import opened HvpaTypes
  import opened IntervalWeights
  import opened BlockedScalings
  import opened VerticalScaling

  /** The part of the status of an HPA that is read: its desired count and a true ScalingLimited condition. */
  datatype HpaStatus = HpaStatus(desired: int, scalingLimited: bool)

  /** The new count before gating, rounded away from the current one. */
  function WeightedReplicas(current: int, desired: int, hpaWeight: int): int {
    var hundredths := current * 100 + (desired - current) * hpaWeight;
    if desired > current then -((-hundredths) / 100) else hundredths / 100
  }

  /** `Unset` is a nil status. `Panics` is the use of a missing maintenance window. */
  datatype HpaVerdict = Unset | Keep | Scale(replicas: int) | Hold(reason: BlockingReason, replicas: int) | Panics

  function ModeVerdict(spec: HvpaSpec, mode: UpdateMode, window: int, override: bool, elapsed: Option<int>, now: int,
                       replicas: int): HpaVerdict {
    if mode == Off then Hold(UpdatePolicyReason, replicas)
    else if mode == DuringWindow && spec.window.None? then Panics
    else if mode == DuringWindow && !InMaintenance(spec, now) then Hold(WindowReason, replicas)
    else if !override && WithinWindow(elapsed, window) then Hold(StabilizationReason, replicas)
    else Scale(replicas)
  }

  function HorizontalVerdict(spec: HvpaSpec, hpa: Option<HpaStatus>, current: int, hpaWeight: int, override: bool,
                             last: Option<int>, now: int): HpaVerdict {
    if !spec.hpaByHvpa || hpa.None? || hpa.value.desired == 0 then Unset
    else if !spec.hpaDeploy || hpa.value.desired == current then Keep
    else
      var weighted := WeightedReplicas(current, hpa.value.desired, hpaWeight);
      if weighted == current then Keep
      else if weighted > current then
        ModeVerdict(spec, spec.hpaUp.Mode(), spec.hpaUp.Window(), override, Elapsed(last, now), now, weighted)
      else
        ModeVerdict(spec, spec.hpaDown.Mode(), spec.hpaDown.Window(), override, Elapsed(last, now), now, weighted)
  }

  /** getWeightedReplicas: a status with the current and the new count, or nothing. A block goes into the list. */
  method GetWeightedReplicas(spec: HvpaSpec, hpa: Option<HpaStatus>, current: int, hpaWeight: int, override: bool,
                             last: Option<int>, now: int, blocked: BlockedList)
    returns (out: Option<(int, int)>, panics: bool)
    modifies blocked
    ensures var v := HorizontalVerdict(spec, hpa, current, hpaWeight, override, last, now);
            && panics == v.Panics?
            && (!panics ==> out == match v
                                   case Unset => None
                                   case Scale(replicas) => Some((current, replicas))
                                   case _ => Some((current, current)))
            && blocked.entries == (if v.Hold? then Merged(old(blocked.entries), v.reason, current, v.replicas)
                                   else old(blocked.entries))
  {
    if !spec.hpaByHvpa || hpa.None? || hpa.value.desired == 0 {
      return None, false;
    }
    var desired := hpa.value.desired;
    var kept := Some((current, current));
    if !spec.hpaDeploy || desired == current {
      return kept, false;
    }
    var weighted := WeightedReplicas(current, desired, hpaWeight);
    if weighted == current {
      return kept, false;
    }
    var mode, window := spec.hpaUp.Mode(), spec.hpaUp.Window();
    if weighted < current {
      mode, window := spec.hpaDown.Mode(), spec.hpaDown.Window();
    }
    var reason;
    if mode == Off {
      reason := UpdatePolicyReason;
    } else if mode == DuringWindow && spec.window.None? {
      return kept, true;
    } else if mode == DuringWindow && !Contains(spec.window.value, ClockAt(now)) {
      reason := WindowReason;
    } else if !override && last.Some? && now - last.value < window {
      reason := StabilizationReason;
    } else {
      return Some((current, weighted)), false;
    }
    blocked.MergeHorizontal(reason, current, weighted);
    return kept, false;
  }

  /** The branch for a horizontal weight of zero is dead: such a weight keeps the current count. */
  lemma ZeroWeightKeeps(spec: HvpaSpec, hpa: Option<HpaStatus>, current: int, override: bool, last: Option<int>, now: int)
    ensures var v := HorizontalVerdict(spec, hpa, current, 0, override, last, now);
            v == Unset || v == Keep
  {
  }

  /** A horizontal block never has the weight or the minimum change as its reason. */
  lemma HorizontalReasons(spec: HvpaSpec, hpa: Option<HpaStatus>, current: int, hpaWeight: int, override: bool,
                          last: Option<int>, now: int)
    ensures var v := HorizontalVerdict(spec, hpa, current, hpaWeight, override, last, now);
            v.Hold? ==> v.reason in {UpdatePolicyReason, WindowReason, StabilizationReason} && v.replicas != current
  {
  }

  // ---------- the gap to the desired count ----------

  function Gap(a: int, b: int): int {
    if a < b then b - a else a - b
  }

  lemma CeilShare(d: int, hpaWeight: int)
    requires d >= 0 && 0 <= hpaWeight <= 100
    ensures d - (-((-(d * hpaWeight)) / 100)) == d * (100 - hpaWeight) / 100
  {
    var x := d * hpaWeight;
    assert d * (100 - hpaWeight) == d * 100 - x;
  }

  /** One step leaves the share of the gap that has the vertical weight, on the same side of the desired count. */
  lemma StepLeavesShare(current: int, desired: int, hpaWeight: int)
    requires 0 <= hpaWeight <= 100
    ensures var next := WeightedReplicas(current, desired, hpaWeight);
            && Gap(next, desired) == Gap(current, desired) * (100 - hpaWeight) / 100
            && (current <= desired ==> current <= next <= desired)
            && (current >= desired ==> current >= next >= desired)
  {
    var d := Gap(current, desired);
    CeilShare(d, hpaWeight);
    ShareBetween(d, 100 - hpaWeight);
    var x := d * hpaWeight;
    if desired > current {
      assert (desired - current) * hpaWeight == x;
      assert -(current * 100 + x) == -x + -current * 100;
    } else {
      assert (desired - current) * hpaWeight == -x;
    }
  }

  /** With a vertical weight below 100 the gap shrinks until it is closed. */
  lemma GapShrinks(current: int, desired: int, hpaWeight: int)
    requires 0 < hpaWeight <= 100 && current != desired
    ensures Gap(WeightedReplicas(current, desired, hpaWeight), desired) < Gap(current, desired)
  {
  }

  // ---------- convergence through changing intervals ----------

  /** One unblocked step: the interval of the current count gives the vertical weight, the rest is horizontal. */
  function NextReplicas(spec: HvpaSpec, desired: int, current: int): int {
    WeightedReplicas(current, desired, 100 - VpaWeight(spec, desired, current))
  }

  function After(spec: HvpaSpec, desired: int, current: int, steps: nat): int {
    if steps == 0 then current else NextReplicas(spec, desired, After(spec, desired, current, steps - 1))
  }

  /** A count at which scaling rests: the desired one, or one at which only vertical scaling has weight. */
  predicate Rests(spec: HvpaSpec, desired: int, current: int) {
    current == desired || VpaWeight(spec, desired, current) == 100
  }

  /** These are exactly the counts that a step does not change. */
  lemma RestsIffFixed(spec: HvpaSpec, desired: int, current: int)
    requires WeightsInRange(spec.intervals)
    ensures Rests(spec, desired, current) <==> NextReplicas(spec, desired, current) == current
  {
    hide VpaWeight;
    var hpaWeight := 100 - VpaWeight(spec, desired, current);
    StepLeavesShare(current, desired, hpaWeight);
    if current != desired && hpaWeight != 0 {
      GapShrinks(current, desired, hpaWeight);
    }
    if hpaWeight == 0 {
      assert Gap(current, desired) * 100 / 100 == Gap(current, desired);
    }
  }

  lemma {:induction false} GapBound(spec: HvpaSpec, desired: int, current: int, steps: nat)
    requires WeightsInRange(spec.intervals)
    ensures var c := After(spec, desired, current, steps);
            && Gap(c, desired) <= Gap(current, desired)
            && (current <= desired ==> current <= c <= desired)
            && (current >= desired ==> current >= c >= desired)
            && (Rests(spec, desired, c) || Gap(c, desired) + steps <= Gap(current, desired))
  {
    hide VpaWeight;
    if steps > 0 {
      GapBound(spec, desired, current, steps - 1);
      var c := After(spec, desired, current, steps - 1);
      RestsIffFixed(spec, desired, c);
      StepLeavesShare(c, desired, 100 - VpaWeight(spec, desired, c));
      if !Rests(spec, desired, c) {
        GapShrinks(c, desired, 100 - VpaWeight(spec, desired, c));
      }
    }
  }

  /** From any count, after as many steps as the distance to the desired count, scaling rests, and it stays there
      however the intervals change the weight on the way. */
  lemma Converges(spec: HvpaSpec, desired: int, current: int, steps: nat)
    requires WeightsInRange(spec.intervals) && steps >= Gap(current, desired)
    ensures Rests(spec, desired, After(spec, desired, current, steps))
    ensures After(spec, desired, current, steps) == After(spec, desired, current, Gap(current, desired))
  {
    StaysAtRest(spec, desired, current, Gap(current, desired), steps);
  }

  lemma {:induction false} StaysAtRest(spec: HvpaSpec, desired: int, current: int, first: nat, steps: nat)
    requires WeightsInRange(spec.intervals) && Gap(current, desired) <= first <= steps
    ensures Rests(spec, desired, After(spec, desired, current, steps))
    ensures After(spec, desired, current, steps) == After(spec, desired, current, first)
  {
    hide VpaWeight;
    if steps == first {
      GapBound(spec, desired, current, steps);
    } else {
      StaysAtRest(spec, desired, current, first, steps - 1);
      RestsIffFixed(spec, desired, After(spec, desired, current, steps - 1));
    }
  }

  /** When no weight is 100, the desired count itself is reached. */
  lemma ReachesDesired(spec: HvpaSpec, desired: int, current: int, steps: nat)
    requires WeightsInRange(spec.intervals) && steps >= Gap(current, desired)
    requires forall i :: 0 <= i < |spec.intervals| ==> spec.intervals[i].vpaWeight < 100
    ensures After(spec, desired, current, steps) == desired
  {
    Converges(spec, desired, current, steps);
  }
}
