/** What reconciliations and pod events do to the target and the status, said again from the fields of the specification
    and of what is observed. */
module ControllerEffects {
  import opened GoNumerics
  import opened MaintenanceWindow
  import opened HvpaTypes
  import opened IntervalWeights
  import opened LimitScaling
  import opened BlockedScalings
  import opened VerticalScaling
  import opened VerticalDecision
  import opened ReplicaScaling
  import opened Controller
  import opened ControllerRuns

  // ---------- time ----------

  /** The maintenance window is given, and the second of the day lies on its arc of the day. */
  predicate Inside(spec: HvpaSpec, now: int) {
    && spec.window.Some?
    && var begin, end := SecondOfDay(spec.window.value.begin), SecondOfDay(spec.window.value.end);
       (now - begin) % 86400 <= (end - begin) % 86400
  }

  /** The last scaling is less than the stabilization window ago; a missing window is none. */
  predicate Waits(t: ScaleType, last: Option<int>, now: int) {
    last.Some? && now - last.value < match t.stabilization case None => 0 case Some(w) => w
  }

  lemma ModMod(a: int, b: int)
    ensures (a % DAY - b) % DAY == (a - b) % DAY
  {
    assert a - b == a / DAY * DAY + (a % DAY - b);
  }

  lemma MaintenanceIff(spec: HvpaSpec, now: int)
    ensures InMaintenance(spec, now) <==> Inside(spec, now)
  {
    if spec.window.Some? {
      var w := spec.window.value;
      ContainsIsArc(w, ClockAt(now));
      ModMod(now, SecondOfDay(w.begin));
      hide Contains, ClockAt, SecondOfDay;
    }
  }

  lemma WaitsIff(t: ScaleType, last: Option<int>, now: int)
    ensures WithinWindow(Elapsed(last, now), t.Window()) <==> Waits(t, last, now)
  {
  }

  /** Switched off for good, or by a maintenance window that is given and not open. */
  predicate SwitchedOff(spec: HvpaSpec, t: ScaleType, now: int) {
    || t.updateMode == Some(Off)
    || (t.updateMode == Some(DuringWindow) && spec.window.Some? && !Inside(spec, now))
  }

  lemma OffIff(spec: HvpaSpec, t: ScaleType, now: int)
    ensures IsOff(spec, t, now) <==> SwitchedOff(spec, t, now)
  {
    MaintenanceIff(spec, now);
    hide Inside, Contains, ClockAt;
  }

  // ---------- the horizontal decision ----------

  /** The outcome of the horizontal decision for any HPA status. Unlike in the vertical decision, the maintenance window
      is tested before the stabilization window. */
  lemma HorizontalInPlain(spec: HvpaSpec, hpa: Option<HpaStatus>, current: int, hpaWeight: int, override: bool,
                          last: Option<int>, now: int)
    ensures var v := HorizontalVerdict(spec, hpa, current, hpaWeight, override, last, now);
            if !spec.hpaByHvpa || hpa.None? || hpa.value.desired == 0 then v == Unset
            else
              var w := WeightedReplicas(current, hpa.value.desired, hpaWeight);
              var t := if w > current then spec.hpaUp else spec.hpaDown;
              var asked := spec.hpaDeploy && w != current;
              var off, restricted := t.updateMode == Some(Off), t.updateMode == Some(DuringWindow);
              var waits := !override && Waits(t, last, now);
              && (v == Keep <==> !asked)
              && (v == Hold(UpdatePolicyReason, w) <==> asked && off)
              && (v == Panics <==> asked && restricted && spec.window.None?)
              && (v == Hold(WindowReason, w) <==> asked && restricted && spec.window.Some? && !Inside(spec, now))
              && (v == Hold(StabilizationReason, w) <==> asked && !off && (restricted ==> Inside(spec, now)) && waits)
              && (v == Scale(w) <==> asked && !off && (restricted ==> Inside(spec, now)) && !waits)
  {
    MaintenanceIff(spec, now);
    if hpa.Some? {
      assert hpa.value.desired == current ==> WeightedReplicas(current, hpa.value.desired, hpaWeight) == current;
    }
    hide WeightedReplicas, InMaintenance, Inside;
  }

  // ---------- what a reconciliation decides ----------

  /** An HPA is kept: it is to be deployed, and neither of its modes is anything but Auto. */
  predicate HpaKept(spec: HvpaSpec) {
    spec.hpaDeploy && spec.hpaUp.updateMode in {None, Some(Auto)} && spec.hpaDown.updateMode in {None, Some(Auto)}
  }

  /** The weight of the interval, for the count the HPA asks for, if there is one. */
  function IntervalWeight(spec: HvpaSpec, s: State, o: Observation): int {
    VpaWeight(spec, if HpaKept(spec) then o.hpa.desired else s.replicas, s.replicas)
  }

  /** The weight of the vertical decision: under override zero counts as one percent. */
  function VerticalWeight(spec: HvpaSpec, s: State, o: Observation): int {
    if s.override && IntervalWeight(spec, s, o) == 0 then 1 else IntervalWeight(spec, s, o)
  }

  /** Horizontal scaling out has no room: no HPA is deployed, its scale-up is switched off, or the HPA reports that it is
      limited, at the maximum at least. */
  predicate NoRoomToScaleOut(spec: HvpaSpec, o: Observation) {
    || !spec.hpaDeploy
    || SwitchedOff(spec, spec.hpaUp, o.now)
    || (HpaKept(spec) && o.hpa.scalingLimited && o.hpa.desired >= spec.maxReplicas)
  }

  lemma ContextInPlain(spec: HvpaSpec, s: State, o: Observation)
    ensures var ctx := VerticalContext(spec, s, o);
            && ctx.spec == spec && ctx.override == s.override && ctx.weight == VerticalWeight(spec, s, o)
            && (ctx.limited <==> s.override || NoRoomToScaleOut(spec, o))
            && (ctx.inWindow <==> Inside(spec, o.now))
            && (forall t: ScaleType :: WithinWindow(ctx.elapsed, t.Window()) <==> Waits(t, s.lastScaleTime, o.now))
  {
    MaintenanceIff(spec, o.now);
    OffIff(spec, spec.hpaUp, o.now);
    hide Inside, InMaintenance, IsOff, SwitchedOff, VpaWeight;
  }

  /** What stands against a vertical change in a reconciliation, for each reason. */
  predicate Stands(spec: HvpaSpec, s: State, o: Observation, c: Container, rec: Recommendation, r: Resource,
                   reason: BlockingReason)
  {
    var current := c.requests.Quantity(r);
    var d := Difference(r, current, rec.target.Quantity(r), VerticalWeight(spec, s, o));
    var t, excused := if d > 0 then spec.vpaUp else spec.vpaDown, d > 0 && s.override;
    match reason
    case WeightReason => IntervalWeight(spec, s, o) == 0 && !s.override
    case UpdatePolicyReason => t.updateMode == Some(Off) || (d > 0 && !s.override && !NoRoomToScaleOut(spec, o))
    case StabilizationReason => !excused && Waits(t, s.lastScaleTime, o.now)
    case WindowReason => t.updateMode == Some(DuringWindow) && !Inside(spec, o.now)
    case MinChangeReason => !excused && Max(d, -d) < Threshold(t.minChange.For(r), r, current)
  }

  lemma StandsIsObstacle(spec: HvpaSpec, s: State, o: Observation, c: Container, rec: Recommendation, r: Resource,
                         reason: BlockingReason)
    ensures Stands(spec, s, o, c, rec, r, reason) <==> Obstacle(VerticalContext(spec, s, o), c, rec, r, reason)
  {
    ContextInPlain(spec, s, o);
    hide VerticalContext, Difference, Threshold, Inside, Waits, WithinWindow, NoRoomToScaleOut, IntervalWeight;
  }

  /** The verdict of a reconciliation on a controlled resource, by the documented priority of reasons. */
  lemma VerdictInPlain(spec: HvpaSpec, s: State, o: Observation, c: Container, rec: Recommendation, r: Resource)
    requires Controls(ControlledResources(spec, c.name), r)
    ensures var verdict := VerdictFor(VerticalContext(spec, s, o), c, rec, r);
            var weight := VerticalWeight(spec, s, o);
            var d := Difference(r, c.requests.Quantity(r), rec.target.Quantity(r), weight);
            && (verdict == Leave <==> weight != 0 && d == 0)
            && (weight == 0 || d != 0 ==>
                  && (forall reason :: verdict == Block(reason) <==>
                        && Stands(spec, s, o, c, rec, r, reason)
                        && forall other :: Rank(other) < Rank(reason) ==> !Stands(spec, s, o, c, rec, r, other))
                  && (verdict == Apply <==> forall reason :: !Stands(spec, s, o, c, rec, r, reason)))
  {
    ContextInPlain(spec, s, o);
    var ctx := VerticalContext(spec, s, o);
    hide VerticalContext;
    LeftAloneIffNoDifference(ctx, c, rec, r);
    hide VerdictFor, Difference, Rank, ControlledResources;
    if ctx.weight == 0 || Difference(r, c.requests.Quantity(r), rec.target.Quantity(r), ctx.weight) != 0 {
      FirstObstacleDecides(ctx, c, rec, r);
    }
    forall reason
      ensures Stands(spec, s, o, c, rec, r, reason) <==> Obstacle(ctx, c, rec, r, reason)
    {
      StandsIsObstacle(spec, s, o, c, rec, r, reason);
    }
    hide Stands, Obstacle;
  }

  /** A maintenance window lets a change through, or blocks it, exactly by the time of the day. */
  lemma WindowDecides(spec: HvpaSpec, s: State, o: Observation, c: Container, rec: Recommendation, r: Resource)
    requires Controls(ControlledResources(spec, c.name), r)
    requires var d := Difference(r, c.requests.Quantity(r), rec.target.Quantity(r), VerticalWeight(spec, s, o));
             d != 0 && (if d > 0 then spec.vpaUp else spec.vpaDown).updateMode == Some(DuringWindow)
    ensures var verdict := VerdictFor(VerticalContext(spec, s, o), c, rec, r);
            && (verdict == Apply ==> Inside(spec, o.now))
            && (verdict == Block(WindowReason) <==>
                  && !Inside(spec, o.now)
                  && forall reason :: reason in {WeightReason, UpdatePolicyReason, StabilizationReason} ==>
                       !Stands(spec, s, o, c, rec, r, reason))
  {
    VerdictInPlain(spec, s, o, c, rec, r);
    assert Stands(spec, s, o, c, rec, r, WindowReason) <==> !Inside(spec, o.now);
    hide VerdictFor, Stands, Difference, Inside;
    assert forall reason :: Rank(reason) < Rank(WindowReason) <==>
             reason in {WeightReason, UpdatePolicyReason, StabilizationReason};
  }

  /** A recommendation can be used: there are no conditions, or a true RecommendationProvided is the first of its kind
      and comes before every true condition that makes it unusable. */
  ghost predicate Usable(spec: HvpaSpec, o: Observation) {
    && spec.vpaDeploy && o.vpa.recommendation.Some?
    && (o.vpa.conditions == [] || exists i :: FirstProvided(o.vpa.conditions, i))
  }

  ghost predicate FirstProvided(conditions: seq<VpaCondition>, i: int) {
    && 0 <= i < |conditions| && conditions[i] == VpaCondition(RecommendationProvided, true)
    && forall j :: 0 <= j < i ==>
         && conditions[j].kind != RecommendationProvided
         && conditions[j] !in {VpaCondition(ConfigUnsupported, true), VpaCondition(ConfigDeprecated, true),
                               VpaCondition(LowConfidence, true)}
  }

  lemma FirstProvidedIff(conditions: seq<VpaCondition>, i: int)
    ensures ProvidedAt(conditions, i) <==> FirstProvided(conditions, i)
  {
  }

  lemma PassInPlain(spec: HvpaSpec, s: State, o: Observation)
    ensures VerticalPass(spec, s, o)
         == if Usable(spec, o) then Process(VerticalContext(spec, s, o), s.containers, o.vpa.recommendation.value)
            else Start(s.containers)
  {
    forall i
      ensures ProvidedAt(o.vpa.conditions, i) <==> FirstProvided(o.vpa.conditions, i)
    {
      FirstProvidedIff(o.vpa.conditions, i);
    }
    hide Process, VerticalContext, FirstProvided, ProvidedAt;
  }

  /** The count a reconciliation asks for. */
  function AskedReplicas(spec: HvpaSpec, s: State, o: Observation): int {
    if spec.hpaByHvpa && HpaKept(spec) && o.hpa.desired != 0
       && (s.override || !Waits(if o.hpa.desired > s.replicas then spec.hpaUp else spec.hpaDown, s.lastScaleTime, o.now))
    then WeightedReplicas(s.replicas, o.hpa.desired, 100 - IntervalWeight(spec, s, o))
    else s.replicas
  }

  lemma AskedIsNew(spec: HvpaSpec, s: State, o: Observation)
    requires Validated(spec)
    ensures NewReplicas(spec, s, o) == AskedReplicas(spec, s, o)
  {
    HorizontalOutcome(spec, s, o);
    var weight := IntervalWeight(spec, s, o);
    assert weight == Weight(spec, s, o);
    StepLeavesShare(s.replicas, o.hpa.desired, 100 - weight);
    hide WeightedReplicas, IntervalWeight, Weight, VpaWeight;
  }

  // ---------- what a reconciliation writes ----------

  /** The target is to be updated: a count or a pod differs, and not both scale-up modes are switched off. Two pods that
      are equal differ if they are represented differently. */
  ghost predicate Due(spec: HvpaSpec, s: State, o: Observation) {
    var p := VerticalPass(spec, s, o);
    && Validated(spec) && o.childrenOk
    && (AskedReplicas(spec, s, o) != s.replicas || (p.changed && (p.containers != s.containers || !o.sameRepresentation)))
    && !(SwitchedOff(spec, spec.hpaUp, o.now) && SwitchedOff(spec, spec.vpaUp, o.now))
  }

  lemma DueIsEffective(spec: HvpaSpec, s: State, o: Observation)
    ensures Due(spec, s, o) <==> Effective(spec, s, o)
  {
    hide VerticalPass, AskedReplicas, NewReplicas, Validated, IsOff, SwitchedOff;
    if Validated(spec) {
      AskedIsNew(spec, s, o);
    }
    OffIff(spec, spec.hpaUp, o.now);
    OffIff(spec, spec.vpaUp, o.now);
    var modes := [spec.hpaUp, spec.hpaUp, spec.vpaUp, spec.vpaUp];
    assert modes[0] == spec.hpaUp && modes[2] == spec.vpaUp;
  }

  /** The target after a reconciliation: the count it asks for, and the containers of the vertical decision if that
      changed something; or the target as it was. */
  lemma TargetInPlain(spec: HvpaSpec, s: State, o: Observation)
    ensures var t, p, written := Reconciled(spec, s, o), VerticalPass(spec, s, o), Due(spec, s, o) && o.targetOk;
            && t.replicas == (if written then AskedReplicas(spec, s, o) else s.replicas)
            && t.containers == (if written && p.changed then p.containers else s.containers)
  {
    DueIsEffective(spec, s, o);
    if Validated(spec) {
      AskedIsNew(spec, s, o);
    }
    hide VerticalPass, AskedReplicas, NewReplicas, Effective, Weight, BlockedNow;
  }

  /** Every applied change is written: when a reconciliation updates the target, each resource of a recommended
      container has its new request and limit exactly if its verdict is to apply, and is as it was otherwise; and all
      containers without a recommendation are as they were. */
  lemma AppliedIsWritten(spec: HvpaSpec, s: State, o: Observation, i: nat, r: Resource)
    requires Due(spec, s, o) && o.targetOk && Usable(spec, o)
    requires var recs := o.vpa.recommendation.value;
             DistinctNames(recs) && i < |recs| && Position(s.containers, recs[i]) < |s.containers|
    ensures var recs, ctx, t := o.vpa.recommendation.value, VerticalContext(spec, s, o), Reconciled(spec, s, o);
            var id := Position(s.containers, recs[i]);
            var before, scaled := s.containers[id], Scaled(ctx, s.containers[id], recs[i]);
            && |t.containers| == |s.containers|
            && (if VerdictFor(ctx, before, recs[i], r) == Apply then
                  && t.containers[id].requests.Entry(r) == scaled.requests.Entry(r)
                  && t.containers[id].limits.Entry(r) == scaled.limits.Entry(r)
                else
                  && t.containers[id].requests.Entry(r) == before.requests.Entry(r)
                  && t.containers[id].limits.Entry(r) == before.limits.Entry(r))
            && forall j | 0 <= j < |s.containers| && forall k :: 0 <= k < |recs| ==> Position(s.containers, recs[k]) != j ::
                 t.containers[j] == s.containers[j]
  {
    var recs, ctx, pod := o.vpa.recommendation.value, VerticalContext(spec, s, o), s.containers;
    TargetInPlain(spec, s, o);
    PassInPlain(spec, s, o);
    OneEffect(ctx, pod, recs, i);
    UnchangedPass(ctx, pod, recs);
    forall j | 0 <= j < |pod| && forall k :: 0 <= k < |recs| ==> Position(pod, recs[k]) != j
      ensures |Process(ctx, pod, recs).containers| == |pod| && Process(ctx, pod, recs).containers[j] == pod[j]
    {
      Frame(ctx, pod, recs, j);
    }
    hide Process, VerticalContext, VerdictFor, NewRequests, NewLimits, Reconciled, Due, Usable, VerticalPass;
  }

  /** A pass that changes nothing leaves every container as it is. */
  lemma {:induction false} UnchangedPass(ctx: Context, pod: seq<Container>, recs: seq<Recommendation>)
    ensures !Process(ctx, pod, recs).changed ==> Process(ctx, pod, recs).containers == pod
  {
    if recs != [] {
      var p, rec := Process(ctx, pod, recs[..|recs| - 1]), recs[|recs| - 1];
      UnchangedPass(ctx, pod, recs[..|recs| - 1]);
      var id := IndexOf(p.containers, rec.container);
      if id < |p.containers| && AppliedTarget(ctx, p.containers[id], rec) == EMPTY {
        NothingApplied(ctx, p.containers[id], rec);
        assert p.containers[id := p.containers[id]] == p.containers;
      }
      hide AppliedTarget, Scaled, BlockedTarget;
    }
  }

  lemma NothingApplied(ctx: Context, c: Container, rec: Recommendation)
    requires AppliedTarget(ctx, c, rec) == EMPTY
    ensures Scaled(ctx, c, rec) == c
  {
    hide VerdictFor, NewRequests, NewLimits;
    forall r: Resource
      ensures !Applies(ctx, c, rec, r)
    {
      assert NewRequests(ctx, c, rec).Has(r) && !AppliedTarget(ctx, c, rec).Has(r);
    }
    assert AppliedLimits(ctx, c, rec).Entry(Cpu).None? && AppliedLimits(ctx, c, rec).Entry(Memory).None?;
    assert AppliedTarget(ctx, c, rec).Entry(Cpu).None? && AppliedTarget(ctx, c, rec).Entry(Memory).None?;
  }

  /** The status after a reconciliation. Blocked scalings replace the old ones if there are any; a scaling is recorded
      with its time, its weights, the counts and the applied requests, and clears the override. If the update of a due
      target fails, nothing is written at all; a failing update of the status loses all of this. */
  lemma StatusInPlain(spec: HvpaSpec, s: State, o: Observation)
    ensures var t, p, due := Reconciled(spec, s, o), VerticalPass(spec, s, o), Due(spec, s, o);
            var saved := Validated(spec) && o.childrenOk && o.statusOk && (due ==> o.targetOk);
            var blocked, w, replicas := BlockedNow(spec, s, o), IntervalWeight(spec, s, o), AskedReplicas(spec, s, o);
            && t.lastBlocked == (if saved && blocked != [] then blocked else s.lastBlocked)
            && t.lastScaleTime == (if saved && due then Some(o.recordedAt) else s.lastScaleTime)
            && t.override == (s.override && !(saved && due))
            && t.vpaWeight == (if saved && due then w else s.vpaWeight)
            && t.hpaWeight == (if saved && due then 100 - w else s.hpaWeight)
            && t.lastReplicas == (if saved && due && replicas != s.replicas then (replicas, s.replicas) else s.lastReplicas)
            && t.lastRequests == (if saved && due && p.changed then Some(p.applied) else s.lastRequests)
  {
    DueIsEffective(spec, s, o);
    if Validated(spec) {
      AskedIsNew(spec, s, o);
    }
    assert IntervalWeight(spec, s, o) == Weight(spec, s, o);
    hide VerticalPass, AskedReplicas, NewReplicas, Effective, Weight, BlockedNow, IntervalWeight, Due, Validated;
  }

  /** Every block is recorded: a blocked resource is found in the status under its reason, with its raw target. */
  lemma BlockedIsRecorded(spec: HvpaSpec, s: State, o: Observation, i: nat, r: Resource, reason: BlockingReason)
    requires Usable(spec, o) && Validated(spec) && o.childrenOk && o.statusOk && (Due(spec, s, o) ==> o.targetOk)
    requires var recs := o.vpa.recommendation.value;
             DistinctNames(recs) && i < |recs| && Position(s.containers, recs[i]) < |s.containers|
    requires var rec := o.vpa.recommendation.value[i];
             VerdictFor(VerticalContext(spec, s, o), s.containers[Position(s.containers, rec)], rec, r) == Block(reason)
    ensures var t, rec := Reconciled(spec, s, o), o.vpa.recommendation.value[i];
            exists b, e :: b in t.lastBlocked && b.reason == reason
              && e in b.vpa && e.container == rec.container && e.target.Entry(r) == Some(rec.target.Quantity(r))
  {
    var recs, ctx, pod := o.vpa.recommendation.value, VerticalContext(spec, s, o), s.containers;
    var p, rec := Process(ctx, pod, recs), o.vpa.recommendation.value[i];
    StatusInPlain(spec, s, o);
    PassInPlain(spec, s, o);
    BlockedClass(ctx, pod, recs, i, r, reason);
    hide Process, VerticalContext, VerdictFor, Reconciled, Due, Usable, VerticalPass;
    var mine := EntriesFor(p.blocked.At(reason), rec.container);
    EntriesForAreEntries(p.blocked.At(reason), rec.container, 0);
    var e := mine[0];
    assert e in p.blocked.At(reason) && e.container == rec.container;
    VerticalEntriesComplete(p.blocked, 5, reason);
    var vertical, v := VerticalEntries(p.blocked, 5), Horizontal(spec, s, o);
    var k :| 0 <= k < |vertical| && vertical[k] == BlockedScaling(reason, 0, 0, p.blocked.At(reason));
    var blocked := BlockedNow(spec, s, o);
    BlockedKeepsVertical(spec, s, o, k);
    assert blocked[k] in blocked && e in blocked[k].vpa;
  }

  lemma {:induction false} EntriesForAreEntries(entries: seq<Recommendation>, name: string, k: nat)
    requires k < |EntriesFor(entries, name)|
    ensures EntriesFor(entries, name)[k] in entries && EntriesFor(entries, name)[k].container == name
  {
    var front, last := entries[..|entries| - 1], entries[|entries| - 1];
    assert last in entries && forall e :: e in front ==> e in entries;
    if k < |EntriesFor(front, name)| {
      EntriesForAreEntries(front, name, k);
    }
  }

  lemma BlockedKeepsVertical(spec: HvpaSpec, s: State, o: Observation, k: nat)
    requires k < |VerticalEntries(VerticalPass(spec, s, o).blocked, 5)|
    ensures var vertical, blocked := VerticalEntries(VerticalPass(spec, s, o).blocked, 5), BlockedNow(spec, s, o);
            k < |blocked| && blocked[k].reason == vertical[k].reason && blocked[k].vpa == vertical[k].vpa
  {
    hide VerticalPass, Horizontal, VerticalEntries;
  }

  /** A horizontal block is recorded under its reason with the current and the refused count. */
  lemma HeldIsRecorded(spec: HvpaSpec, s: State, o: Observation)
    requires Validated(spec) && o.childrenOk && o.statusOk && (Due(spec, s, o) ==> o.targetOk)
    requires spec.hpaByHvpa && HpaKept(spec) && o.hpa.desired != 0 && !s.override
    requires Waits(if o.hpa.desired > s.replicas then spec.hpaUp else spec.hpaDown, s.lastScaleTime, o.now)
    requires WeightedReplicas(s.replicas, o.hpa.desired, 100 - IntervalWeight(spec, s, o)) != s.replicas
    ensures exists b :: b in Reconciled(spec, s, o).lastBlocked && b.reason == StabilizationReason
              && b.hpaCurrent == s.replicas
              && b.hpaDesired == WeightedReplicas(s.replicas, o.hpa.desired, 100 - IntervalWeight(spec, s, o))
  {
    var w := WeightedReplicas(s.replicas, o.hpa.desired, 100 - IntervalWeight(spec, s, o));
    HeldInPlain(spec, s, o);
    StatusInPlain(spec, s, o);
    hide WeightedReplicas, IntervalWeight, VerticalPass, Reconciled, Due, Horizontal, VerticalEntries, Waits, Validated;
    MergedHolds(VerticalEntries(VerticalPass(spec, s, o).blocked, 5), StabilizationReason, s.replicas, w);
    hide Merged;
  }

  lemma HeldInPlain(spec: HvpaSpec, s: State, o: Observation)
    requires spec.hpaByHvpa && HpaKept(spec) && o.hpa.desired != 0 && !s.override && Validated(spec)
    requires Waits(if o.hpa.desired > s.replicas then spec.hpaUp else spec.hpaDown, s.lastScaleTime, o.now)
    requires WeightedReplicas(s.replicas, o.hpa.desired, 100 - IntervalWeight(spec, s, o)) != s.replicas
    ensures Horizontal(spec, s, o)
         == Hold(StabilizationReason, WeightedReplicas(s.replicas, o.hpa.desired, 100 - IntervalWeight(spec, s, o)))
  {
    assert IntervalWeight(spec, s, o) == Weight(spec, s, o);
    StepLeavesShare(s.replicas, o.hpa.desired, 100 - IntervalWeight(spec, s, o));
    hide WeightedReplicas, IntervalWeight, Weight, Validated;
    HorizontalOutcome(spec, s, o);
  }

  lemma MergedHolds(entries: seq<BlockedScaling>, reason: BlockingReason, current: int, weighted: int)
    ensures exists b :: b in Merged(entries, reason, current, weighted)
              && b.reason == reason && b.hpaCurrent == current && b.hpaDesired == weighted
    ensures Merged(entries, reason, current, weighted) != []
  {
    var merged := Merged(entries, reason, current, weighted);
    assert merged[FirstWith(entries, reason)] in merged;
  }

  // ---------- what a pod event does ----------

  /** The pod has the CPU and memory requests of the template, each container those of the first one of its name. */
  ghost predicate UpToDate(pod: seq<Container>, template: seq<Container>) {
    forall i, j :: 0 <= i < |pod| && FirstNamed(template, j, pod[i].name) ==>
      && pod[i].requests.Quantity(Cpu) == template[j].requests.Quantity(Cpu)
      && pod[i].requests.Quantity(Memory) == template[j].requests.Quantity(Memory)
  }

  ghost predicate FirstNamed(template: seq<Container>, j: int, name: string) {
    0 <= j < |template| && template[j].name == name && forall k :: 0 <= k < j ==> template[k].name != name
  }

  lemma UpToDateIff(pod: seq<Container>, template: seq<Container>)
    ensures AreResourcesEqual(pod, template) <==> UpToDate(pod, template)
  {
    forall i | 0 <= i < |pod|
      ensures var k := IndexOf(template, pod[i].name);
              forall j :: FirstNamed(template, j, pod[i].name) <==> j == k < |template|
    {
    }
  }

  /** A pod event sets the override, and does nothing else, exactly if the pod is scheduled, selected and up to date, the
      update succeeds, and either it was evicted from a node that is short of memory, or one of its containers has
      been restarted and was last killed for memory after the last scaling. */
  lemma PodEventInPlain(s: State, e: PodEvent)
    ensures var t := Delivered(s, e);
            && t == s.(override := t.override)
            && (t.override <==>
                  || s.override
                  || (&& e.scheduled && e.selected && e.statusOk && UpToDate(e.containers, s.containers)
                      && if e.evicted then
                           e.node.Some? && NodeCondition(true, true) in e.node.value
                         else
                           exists k :: 0 <= k < |e.statuses| && KilledSince(e.statuses[k], s.lastScaleTime)))
  {
    UpToDateIff(e.containers, s.containers);
    forall status: ContainerStatus
      ensures RecentOom(status, s.lastScaleTime) <==> KilledSince(status, s.lastScaleTime)
    {
    }
    hide AreResourcesEqual, UpToDate, RecentOom, KilledSince;
  }

  predicate KilledSince(status: ContainerStatus, last: Option<int>) {
    && status.restarts > 0
    && match status.last
       case None => false
       case Some(end) => end.oomKilled && (last.None? || last.value < end.finishedAt)
  }
}
