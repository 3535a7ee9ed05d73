/** The controller of one HVPA: reconciliation of its target and status, and pod events. */
module Controller {
  import opened MaintenanceWindow
  import opened HvpaTypes
  import opened IntervalWeights
  import opened BlockedScalings
  import opened VerticalScaling
  import opened ReplicaScaling

  /** The target (replicas and containers) and the status of the HVPA. Times are in seconds. */
  datatype State = State(replicas: int, containers: seq<Container>,
                         lastScaleTime: Option<int>, override: bool, lastBlocked: seq<BlockedScaling>,
                         hpaWeight: int, vpaWeight: int,
                         lastReplicas: (int, int), lastRequests: Option<seq<Recommendation>>)

  /** What one reconciliation reads and which of its calls succeed. `sameRepresentation` tells whether two equal pods
      are also represented equally, which is what the comparison of pods in the code sees. */
  datatype Observation = Observation(hpa: HpaStatus, vpa: VpaStatus, now: int, recordedAt: int,
                                     sameRepresentation: bool, childrenOk: bool, targetOk: bool, statusOk: bool)

  /** What reconciling the HPA returns: a status only where one is kept or created. */
  function HpaOf(spec: HvpaSpec, o: Observation): Option<HpaStatus> {
    if HpaWanted(spec) then Some(o.hpa) else None
  }

  function VpaOf(spec: HvpaSpec, o: Observation): Option<VpaStatus> {
    if spec.vpaDeploy then Some(o.vpa) else None
  }

  /** isScalingOffByMode. */
  predicate IsOff(spec: HvpaSpec, t: ScaleType, now: int) {
    match t.Mode()
    case Auto => false
    case Off => true
    case DuringWindow => spec.window.Some? && !Contains(spec.window.value, ClockAt(now))
  }

  /** isScalingOff reads the two scale-up policies, each one twice, and no scale-down policy. */
  predicate IsScalingOff(spec: HvpaSpec, now: int) {
    forall t | t in [spec.hpaUp, spec.hpaUp, spec.vpaUp, spec.vpaUp] :: IsOff(spec, t, now)
  }

  /** Scaling out is limited: switched off, not deployed, or reported as limited at the maximum. */
  predicate ScaleOutLimited(spec: HvpaSpec, hpa: Option<HpaStatus>, now: int) {
    || !spec.hpaDeploy
    || IsOff(spec, spec.hpaUp, now)
    || (hpa.Some? && hpa.value.desired >= spec.maxReplicas && hpa.value.scalingLimited)
  }

  // ---------- one decision ----------

  function DesiredReplicas(spec: HvpaSpec, s: State, o: Observation): int {
    if HpaOf(spec, o).Some? then o.hpa.desired else s.replicas
  }

  function Weight(spec: HvpaSpec, s: State, o: Observation): int {
    VpaWeight(spec, DesiredReplicas(spec, s, o), s.replicas)
  }

  function VerticalContext(spec: HvpaSpec, s: State, o: Observation): Context {
    MakeContext(spec, Weight(spec, s, o), ScaleOutLimited(spec, HpaOf(spec, o), o.now), s.override, s.lastScaleTime, o.now)
  }

  ghost function VerticalPass(spec: HvpaSpec, s: State, o: Observation): Pass {
    Vertical(VerticalContext(spec, s, o), VpaOf(spec, o), s.containers)
  }

  function Horizontal(spec: HvpaSpec, s: State, o: Observation): HpaVerdict {
    HorizontalVerdict(spec, HpaOf(spec, o), s.replicas, 100 - Weight(spec, s, o), s.override, s.lastScaleTime, o.now)
  }

  function NewReplicas(spec: HvpaSpec, s: State, o: Observation): int {
    var v := Horizontal(spec, s, o);
    if v.Scale? then v.replicas else s.replicas
  }

  ghost predicate Needed(spec: HvpaSpec, s: State, o: Observation) {
    var p := VerticalPass(spec, s, o);
    NewReplicas(spec, s, o) != s.replicas || (p.changed && !(p.containers == s.containers && o.sameRepresentation))
  }

  /** The target is to be updated. */
  ghost predicate Effective(spec: HvpaSpec, s: State, o: Observation) {
    Validated(spec) && o.childrenOk && Needed(spec, s, o) && !IsScalingOff(spec, o.now)
  }

  ghost function BlockedNow(spec: HvpaSpec, s: State, o: Observation): seq<BlockedScaling> {
    var vertical, v := VerticalEntries(VerticalPass(spec, s, o).blocked, 5), Horizontal(spec, s, o);
    if v.Hold? then Merged(vertical, v.reason, s.replicas, v.replicas) else vertical
  }

  /** The target after the tick. */
  ghost function WithTarget(spec: HvpaSpec, s: State, o: Observation): State {
    var p := VerticalPass(spec, s, o);
    s.(replicas := NewReplicas(spec, s, o), containers := if p.changed then p.containers else s.containers)
  }

  ghost function WithStatus(spec: HvpaSpec, s: State, o: Observation): State {
    var blocked := BlockedNow(spec, s, o);
    s.(lastBlocked := if blocked != [] then blocked else s.lastBlocked)
  }

  ghost function WithScaling(spec: HvpaSpec, before: State, s: State, o: Observation): State {
    var p, w, replicas := VerticalPass(spec, before, o), Weight(spec, before, o), NewReplicas(spec, before, o);
    s.(lastScaleTime := Some(o.recordedAt), override := false, hpaWeight := 100 - w, vpaWeight := w,
       lastReplicas := if replicas != before.replicas then (replicas, before.replicas) else s.lastReplicas,
       lastRequests := if p.changed then Some(p.applied) else s.lastRequests)
  }

  /** The state after one reconciliation, whichever of its calls fail. */
  ghost function Reconciled(spec: HvpaSpec, s: State, o: Observation): State {
    if !Validated(spec) || !o.childrenOk then s
    else if Effective(spec, s, o) then
      if !o.targetOk then s
      else
        var t := WithTarget(spec, s, o);
        if o.statusOk then WithScaling(spec, s, t.(lastBlocked := WithStatus(spec, s, o).lastBlocked), o) else t
    else if o.statusOk then WithStatus(spec, s, o)
    else s
  }

  // ---------- pod events ----------

  datatype Termination = Termination(oomKilled: bool, finishedAt: int)

  datatype ContainerStatus = ContainerStatus(restarts: int, last: Option<Termination>)

  datatype NodeCondition = NodeCondition(insufficientMemory: bool, holds: bool)

  /** The delivery of a pod: whether it has a node, whether the cached selector picks this HVPA, what the pod
      reports, the conditions of its node if they can be read, and whether the status update succeeds. */
  datatype PodEvent = PodEvent(scheduled: bool, selected: bool, containers: seq<Container>, evicted: bool,
                               node: Option<seq<NodeCondition>>, statuses: seq<ContainerStatus>, at: int, statusOk: bool)

  /** areResourcesEqual: the requests of the pod are those of the template, container by container. */
  predicate AreResourcesEqual(pod: seq<Container>, template: seq<Container>) {
    forall i :: 0 <= i < |pod| ==>
      var j := IndexOf(template, pod[i].name);
      j < |template| ==>
        && pod[i].requests.Quantity(Cpu) == template[j].requests.Quantity(Cpu)
        && pod[i].requests.Quantity(Memory) == template[j].requests.Quantity(Memory)
  }

  predicate UnderMemoryPressure(e: PodEvent) {
    e.node.Some? && exists i :: 0 <= i < |e.node.value| && e.node.value[i].insufficientMemory && e.node.value[i].holds
  }

  /** An OOM kill that finished after the last scaling. */
  predicate RecentOom(status: ContainerStatus, lastScaleTime: Option<int>) {
    && status.restarts > 0 && status.last.Some? && status.last.value.oomKilled
    && (lastScaleTime.Some? ==> status.last.value.finishedAt > lastScaleTime.value)
  }

  /** Index of the first container with a recent OOM kill, or the number of containers. */
  function FirstRecent(statuses: seq<ContainerStatus>, lastScaleTime: Option<int>): (i: nat)
    ensures i <= |statuses|
    ensures i < |statuses| ==> RecentOom(statuses[i], lastScaleTime)
    ensures forall j :: 0 <= j < i ==> !RecentOom(statuses[j], lastScaleTime)
  {
    if statuses == [] || RecentOom(statuses[0], lastScaleTime) then 0
    else
      var rest := FirstRecent(statuses[1..], lastScaleTime);
      assert forall j :: 0 < j < |statuses| ==> statuses[j] == statuses[1..][j - 1];
      rest + 1
  }

  /** The pod is one of this HVPA and is not out of date, and the flag is not set yet. */
  predicate Considered(s: State, e: PodEvent) {
    e.scheduled && e.selected && AreResourcesEqual(e.containers, s.containers) && !s.override
  }

  predicate SetsOverride(s: State, e: PodEvent) {
    && Considered(s, e) && e.statusOk
    && if e.evicted then UnderMemoryPressure(e) else FirstRecent(e.statuses, s.lastScaleTime) < |e.statuses|
  }

  function Delivered(s: State, e: PodEvent): State {
    if SetsOverride(s, e) then s.(override := true) else s
  }

  // ---------- nothing missing is ever used ----------

  /** The horizontal decision never uses a missing maintenance window: an HPA status reaches it only when both modes
      are Auto. For the same reason the stabilization window is the only reason it can be held back for. */
  lemma HorizontalIsSafe(spec: HvpaSpec, s: State, o: Observation)
    ensures !Horizontal(spec, s, o).Panics?
    ensures Horizontal(spec, s, o).Hold? ==> Horizontal(spec, s, o).reason == StabilizationReason
  {
  }

  /** Called with the status of an HPA whose mode is not Auto, it does panic, exactly when the mode of its direction
      is MaintenanceWindow, no window is given, and a change is at stake. */
  lemma PanicsIff(spec: HvpaSpec, hpa: Option<HpaStatus>, current: int, hpaWeight: int, override: bool,
                  last: Option<int>, now: int)
    ensures HorizontalVerdict(spec, hpa, current, hpaWeight, override, last, now).Panics? <==>
            && spec.hpaByHvpa && spec.hpaDeploy && spec.window.None?
            && hpa.Some? && hpa.value.desired != 0 && hpa.value.desired != current
            && var weighted := WeightedReplicas(current, hpa.value.desired, hpaWeight);
               && weighted != current
               && (if weighted > current then spec.hpaUp else spec.hpaDown).Mode() == DuringWindow
  {
  }

  // ---------- who scales when ----------

  /** The outcome of the horizontal decision of a reconciliation. The override excuses scaling in as well as out. */
  lemma HorizontalOutcome(spec: HvpaSpec, s: State, o: Observation)
    ensures var v, w := Horizontal(spec, s, o), WeightedReplicas(s.replicas, o.hpa.desired, 100 - Weight(spec, s, o));
            var window := (if w > s.replicas then spec.hpaUp else spec.hpaDown).Window();
            var asked := spec.hpaByHvpa && HpaOf(spec, o).Some? && o.hpa.desired != 0 && w != s.replicas;
            var waits := !s.override && WithinWindow(Elapsed(s.lastScaleTime, o.now), window);
            && (v == Scale(w) <==> asked && !waits)
            && (v == Hold(StabilizationReason, w) <==> asked && waits)
            && (NewReplicas(spec, s, o) != s.replicas <==> asked && !waits)
  {
    var w := WeightedReplicas(s.replicas, o.hpa.desired, 100 - Weight(spec, s, o));
    assert o.hpa.desired == s.replicas ==> w == s.replicas;
    hide WeightedReplicas, Weight;
  }

  /** Vertical scaling goes up only where horizontal scaling cannot: it is not deployed, its scale-up mode is off at
      the time, it is at its maximum and limited, or the override says so. */
  lemma ScaleUpNeedsLimitedHpa(spec: HvpaSpec, s: State, o: Observation, c: Container, rec: Recommendation, r: Resource)
    requires var ctx := VerticalContext(spec, s, o);
             && VerdictFor(ctx, c, rec, r) == Apply
             && Difference(r, c.requests.Quantity(r), rec.target.Quantity(r), ctx.weight) > 0
    ensures s.override || !spec.hpaDeploy || IsOff(spec, spec.hpaUp, o.now)
         || (HpaWanted(spec) && o.hpa.desired >= spec.maxReplicas && o.hpa.scalingLimited)
  {
    hide Difference, NegatedDifference, Threshold, ControlledResources, IsOff;
  }

  // ---------- the controller object ----------

  class HvpaController {
    const spec: HvpaSpec
    var replicas: int
    var containers: seq<Container>
    var lastScaleTime: Option<int>
    var override: bool
    var lastBlocked: seq<BlockedScaling>
    var hpaWeight: int
    var vpaWeight: int
    var lastReplicas: (int, int)
    var lastRequests: Option<seq<Recommendation>>

    constructor (spec: HvpaSpec, replicas: int, containers: seq<Container>)
      ensures this.spec == spec
      ensures Current() == State(replicas, containers, None, false, [], 0, 0, (0, 0), None)
    {
      this.spec, this.replicas, this.containers := spec, replicas, containers;
      lastScaleTime, override, lastBlocked := None, false, [];
      hpaWeight, vpaWeight, lastReplicas, lastRequests := 0, 0, (0, 0), None;
    }

    function Current(): State
      reads this
    {
      State(replicas, containers, lastScaleTime, override, lastBlocked, hpaWeight, vpaWeight, lastReplicas, lastRequests)
    }

    /** The two decisions of scaleIfRequired, vertical before horizontal. */
    method Decide(o: Observation, blocked: BlockedList)
      returns (weight: int, newPod: Option<seq<Container>>, vpaStatus: Option<seq<Recommendation>>,
               hpaStatus: Option<(int, int)>)
      requires blocked.entries == []
      modifies blocked
      ensures weight == Weight(spec, Current(), o)
      ensures blocked.entries == BlockedNow(spec, Current(), o)
      ensures var p := VerticalPass(spec, Current(), o);
              && newPod == (if p.changed then Some(p.containers) else None)
              && vpaStatus == (if p.changed then Some(p.applied) else None)
      ensures if hpaStatus.Some? then hpaStatus.value == (replicas, NewReplicas(spec, Current(), o))
              else NewReplicas(spec, Current(), o) == replicas
    {
      hide Vertical, VerticalEntries, HorizontalVerdict, VpaWeight, MakeContext, Merged;
      ghost var s := Current();
      var hpa, vpa := HpaOf(spec, o), VpaOf(spec, o);
      var desired := if hpa.Some? then hpa.value.desired else replicas;
      weight := GetVpaWeightFromIntervals(spec, desired, replicas);
      var limited := ScaleOutLimited(spec, hpa, o.now);
      newPod, vpaStatus := GetWeightedRequests(spec, vpa, weight, containers, limited, override, lastScaleTime,
                                               o.now, blocked);
      ghost var p := VerticalPass(spec, s, o);
      assert blocked.entries == VerticalEntries(p.blocked, 5);
      var panics;
      HorizontalIsSafe(spec, s, o);
      hpaStatus, panics := GetWeightedReplicas(spec, hpa, replicas, 100 - weight, override, lastScaleTime, o.now, blocked);
      assert !panics;
    }

    /** scaleIfRequired, up to the update of the target: the new target and what has been scaled. */
    method ScaleIfRequired(o: Observation, blocked: BlockedList)
      returns (hpaStatus: Option<(int, int)>, vpaStatus: Option<seq<Recommendation>>, hpaScaled: bool, vpaScaled: bool,
               newReplicas: int, newContainers: seq<Container>, weight: int)
      requires Validated(spec) && o.childrenOk && blocked.entries == []
      modifies blocked
      ensures blocked.entries == BlockedNow(spec, Current(), o) && weight == Weight(spec, Current(), o)
      ensures hpaScaled || vpaScaled <==> Effective(spec, Current(), o)
      ensures hpaScaled ==> hpaStatus == Some((replicas, NewReplicas(spec, Current(), o)))
      ensures vpaScaled ==> vpaStatus == Some(VerticalPass(spec, Current(), o).applied)
      ensures hpaScaled || vpaScaled ==>
          && newReplicas == WithTarget(spec, Current(), o).replicas
          && newContainers == WithTarget(spec, Current(), o).containers
          && (hpaScaled <==> newReplicas != replicas)
          && (vpaScaled <==> VerticalPass(spec, Current(), o).changed)
    {
      hide VerticalPass, NewReplicas, BlockedNow, Weight, IsScalingOff;
      var newPod;
      weight, newPod, vpaStatus, hpaStatus := Decide(o, blocked);
      newReplicas := if hpaStatus.Some? then hpaStatus.value.1 else replicas;
      newContainers := if newPod.Some? then newPod.value else containers;
      if newReplicas == replicas && (newPod.None? || (newPod.value == containers && o.sameRepresentation)) {
        return None, None, false, false, replicas, containers, weight;
      }
      if IsScalingOff(spec, o.now) {
        return hpaStatus, vpaStatus, false, false, replicas, containers, weight;
      }
      return hpaStatus, vpaStatus, newReplicas != replicas, newPod.Some?, newReplicas, newContainers, weight;
    }

    /** One reconciliation. */
    method Reconcile(o: Observation)
      modifies this
      ensures Current() == Reconciled(spec, old(Current()), o)
    {
      hide VerticalPass, NewReplicas, BlockedNow, Effective, Weight, Validated;
      if !Validated(spec) || !o.childrenOk {
        return;
      }
      var blocked := new BlockedList();
      var hpaStatus, vpaStatus, hpaScaled, vpaScaled, newReplicas, newContainers, weight := ScaleIfRequired(o, blocked);
      if hpaScaled || vpaScaled {
        if !o.targetOk {
          return;
        }
        replicas, containers := newReplicas, newContainers;
      }
      if !o.statusOk {
        return;
      }
      if blocked.entries != [] {
        lastBlocked := blocked.entries;
      }
      if hpaScaled || vpaScaled {
        lastScaleTime := Some(o.recordedAt);
        hpaWeight, vpaWeight := 100 - weight, weight;
        if hpaScaled {
          lastReplicas := (hpaStatus.value.1, hpaStatus.value.0);
        }
        if vpaScaled {
          lastRequests := Some(vpaStatus.value);
        }
        override := false;
      }
    }

    /** The delivery of a pod event. */
    method HandlePod(e: PodEvent)
      modifies this
      ensures Current() == Delivered(old(Current()), e)
    {
      if !e.scheduled || !e.selected || !AreResourcesEqual(e.containers, containers) || override {
        return;
      }
      if e.evicted {
        if e.node.None? {
          return;
        }
        var pressure, i := false, 0;
        while i < |e.node.value|
          invariant 0 <= i <= |e.node.value|
          invariant !pressure && forall j :: 0 <= j < i ==> !(e.node.value[j].insufficientMemory && e.node.value[j].holds)
        {
          if e.node.value[i].insufficientMemory && e.node.value[i].holds {
            pressure := true;
            break;
          }
          i := i + 1;
        }
        if !pressure {
          return;
        }
      } else {
        var recent, i := false, 0;
        while i < |e.statuses|
          invariant 0 <= i <= FirstRecent(e.statuses, lastScaleTime) && !recent
        {
          if RecentOom(e.statuses[i], lastScaleTime) {
            recent := true;
            break;
          }
          i := i + 1;
        }
        if !recent {
          return;
        }
      }
      if e.statusOk {
        override := true;
      }
    }
  }
}
