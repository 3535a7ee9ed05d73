/** The vertical decision: weighted requests per container, their gates, and what is recorded as blocked. */
module VerticalScaling {
  import opened GoNumerics
  import opened MaintenanceWindow
  import opened HvpaTypes
  import opened LimitScaling
  import opened BlockedScalings

  // ---------- what the VPA reports ----------

  datatype VpaConditionKind = ConfigUnsupported | ConfigDeprecated | LowConfidence | RecommendationProvided | OtherKind

  datatype VpaCondition = VpaCondition(kind: VpaConditionKind, holds: bool)

  datatype VpaStatus = VpaStatus(conditions: seq<VpaCondition>, recommendation: Option<seq<Recommendation>>)

  predicate Unsupported(c: VpaCondition) {
    c.holds && (c.kind.ConfigUnsupported? || c.kind.ConfigDeprecated? || c.kind.LowConfidence?)
  }

  /** The recommendation is trusted when there are no conditions at all, or when the first condition that says
      whether one is provided says so and no unsupported condition comes before it. */
  ghost predicate Trusted(conditions: seq<VpaCondition>) {
    conditions == [] || exists i :: ProvidedAt(conditions, i)
  }

  ghost predicate ProvidedAt(conditions: seq<VpaCondition>, i: int) {
    && 0 <= i < |conditions|
    && conditions[i].kind.RecommendationProvided? && conditions[i].holds
    && forall j :: 0 <= j < i ==> !Unsupported(conditions[j]) && !conditions[j].kind.RecommendationProvided?
  }

  method ConditionsAllow(conditions: seq<VpaCondition>) returns (usable: bool)
    ensures usable <==> Trusted(conditions)
  {
    var k := 0;
    while k < |conditions|
      invariant 0 <= k <= |conditions|
      invariant k > 0 ==> k < |conditions|
      invariant forall j :: 0 <= j < k ==> !Unsupported(conditions[j]) && !conditions[j].kind.RecommendationProvided?
    {
      var v := conditions[k];
      if Unsupported(v) {
        return false;
      }
      if v.kind.RecommendationProvided? {
        if v.holds {
          assert ProvidedAt(conditions, k);
          break;
        } else {
          return false;
        }
      }
      if k == |conditions| - 1 {
        return false;
      }
      k := k + 1;
    }
    return true;
  }

  // ---------- weighted requests ----------

  const DEFAULT_MEMORY_THRESHOLD := 200_000_000_000
  const DEFAULT_CPU_THRESHOLD := 200

  /** getThreshold. */
  function Threshold(p: ChangeParams, r: Resource, current: int): int {
    if p.value.None? && p.percentage.None? then
      if r.Memory? then DEFAULT_MEMORY_THRESHOLD else DEFAULT_CPU_THRESHOLD
    else if p.percentage.None? then p.value.value
    else
      var share := Percent(current, p.percentage.value);
      if p.value.None? || share < p.value.value then share else p.value.value
  }

  /** The weighted difference. CPU is weighted in milli-units, memory in whole bytes. */
  function Difference(r: Resource, current: int, target: int, weight: int): int {
    if r.Cpu? then Percent(target - current, weight) else Percent(RoundAway(target - current, 1000), weight) * 1000
  }

  function NegatedDifference(r: Resource, current: int, target: int, weight: int): int {
    if r.Cpu? then Percent(-(target - current), weight) else Percent(-RoundAway(target - current, 1000), weight) * 1000
  }

  /** The weighted request. Memory is rounded to whole kilobytes. */
  function Weighted(r: Resource, current: int, target: int, weight: int): int {
    AtScale(r, current + Difference(r, current, target, weight))
  }

  function WeightedRequests(c: Container, rec: Recommendation, weight: int): ResourceList {
    Listing(r => Some(Weighted(r, c.requests.Quantity(r), rec.target.Quantity(r), weight)))
  }

  /** What the gates read, with the effect of the override on the weight and on the limitation already applied. */
  datatype Context = Context(spec: HvpaSpec, weight: int, limited: bool, override: bool, elapsed: Option<int>,
                             inWindow: bool)

  /** Without a recorded scaling, the elapsed time is longer than any window. */
  predicate WithinWindow(elapsed: Option<int>, window: int) {
    elapsed.Some? && elapsed.value < window
  }

  function Elapsed(last: Option<int>, now: int): Option<int> {
    if last.Some? then Some(now - last.value) else None
  }

  predicate InMaintenance(spec: HvpaSpec, now: int) {
    spec.window.Some? && Contains(spec.window.value, ClockAt(now))
  }

  /** The override makes a weight of zero count as one percent, and takes horizontal scaling as limited. */
  function MakeContext(spec: HvpaSpec, vpaWeight: int, limited: bool, override: bool, last: Option<int>, now: int): Context {
    Context(spec, if override && vpaWeight == 0 then 1 else vpaWeight, limited || override, override,
            Elapsed(last, now), InMaintenance(spec, now))
  }

  datatype Verdict = Apply | Block(reason: BlockingReason) | Leave

  /** The gates, in the order of the code. */
  function Gate(ctx: Context, difference: int, negated: int, upMinimum: int, downMinimum: int): Verdict {
    var up, down := ctx.spec.vpaUp, ctx.spec.vpaDown;
    if ctx.weight == 0 then Block(WeightReason)
    else if difference > 0 then
      if !ctx.limited || up.Mode() == Off then Block(UpdatePolicyReason)
      else if !ctx.override && WithinWindow(ctx.elapsed, up.Window()) then Block(StabilizationReason)
      else if up.Mode() == DuringWindow && !ctx.inWindow then Block(WindowReason)
      else if !ctx.override && difference < upMinimum then Block(MinChangeReason)
      else Apply
    else if difference < 0 then
      if down.Mode() == Off then Block(UpdatePolicyReason)
      else if WithinWindow(ctx.elapsed, down.Window()) then Block(StabilizationReason)
      else if down.Mode() == DuringWindow && !ctx.inWindow then Block(WindowReason)
      else if negated < downMinimum then Block(MinChangeReason)
      else Apply
    else Leave
  }

  predicate PolicyNames(p: ContainerPolicy, name: string) {
    p.container == "*" || p.container == name
  }

  /** The first policy that names the container or names all containers. */
  function PolicyFor(policies: seq<ContainerPolicy>, name: string): (p: Option<ContainerPolicy>)
    ensures p.None? ==> forall i :: 0 <= i < |policies| ==> !PolicyNames(policies[i], name)
    ensures p.Some? ==> exists i :: 0 <= i < |policies| && policies[i] == p.value && PolicyNames(p.value, name)
                          && forall j :: 0 <= j < i ==> !PolicyNames(policies[j], name)
  {
    if policies == [] then None
    else if PolicyNames(policies[0], name) then Some(policies[0])
    else
      assert forall j :: 0 < j < |policies| ==> policies[j] == policies[1..][j - 1];
      PolicyFor(policies[1..], name)
  }

  function ControlledResources(spec: HvpaSpec, name: string): Option<seq<Resource>> {
    if spec.policy.None? then None
    else
      var p := PolicyFor(spec.policy.value, name);
      if p.None? then None else p.value.resources
  }

  function Values(spec: HvpaSpec, name: string): Option<ControlledValues> {
    if spec.policy.None? then None
    else
      var p := PolicyFor(spec.policy.value, name);
      if p.None? then None else p.value.values
  }

  function VerdictFor(ctx: Context, c: Container, rec: Recommendation, r: Resource): Verdict {
    if !Controls(ControlledResources(ctx.spec, c.name), r) then Leave
    else
      var current, target := c.requests.Quantity(r), rec.target.Quantity(r);
      Gate(ctx, Difference(r, current, target, ctx.weight), NegatedDifference(r, current, target, ctx.weight),
           Threshold(ctx.spec.vpaUp.minChange.For(r), r, current), Threshold(ctx.spec.vpaDown.minChange.For(r), r, current))
  }

  function NewLimits(ctx: Context, c: Container, rec: Recommendation): ResourceList {
    ScaledLimits(c.limits, c.requests, WeightedRequests(c, rec, ctx.weight), ctx.spec.gap,
                 ControlledResources(ctx.spec, c.name), Values(ctx.spec, c.name))
  }

  function NewRequests(ctx: Context, c: Container, rec: Recommendation): (l: ResourceList)
    ensures forall r: Resource :: l.Has(r)
  {
    var limits := NewLimits(ctx, c, rec);
    CapRequests(WeightedRequests(c, rec, ctx.weight), if limits != EMPTY then limits else c.limits)
  }

  // ---------- the declarative effect on one container ----------

  predicate Applies(ctx: Context, c: Container, rec: Recommendation, r: Resource) {
    VerdictFor(ctx, c, rec, r) == Apply
  }

  function AppliedTarget(ctx: Context, c: Container, rec: Recommendation): ResourceList {
    Listing(r => if Applies(ctx, c, rec, r) then NewRequests(ctx, c, rec).Entry(r) else None)
  }

  function AppliedLimits(ctx: Context, c: Container, rec: Recommendation): ResourceList {
    Listing(r => if Applies(ctx, c, rec, r) then NewLimits(ctx, c, rec).Entry(r) else None)
  }

  function BlockedTarget(ctx: Context, c: Container, rec: Recommendation, reason: BlockingReason): ResourceList {
    Listing(r => if VerdictFor(ctx, c, rec, r) == Block(reason) then Some(rec.target.Quantity(r)) else None)
  }

  function Scaled(ctx: Context, c: Container, rec: Recommendation): Container {
    Container(c.name, c.requests.Overlay(AppliedTarget(ctx, c, rec)), c.limits.Overlay(AppliedLimits(ctx, c, rec)))
  }

  /** What is being written while one recommended container is handled. */
  datatype Draft = Draft(requests: ResourceList, limits: ResourceList, out: ResourceList, blocked: ByReason<ResourceList>)

  /** One resource, according to its verdict. */
  function Place(d: Draft, r: Resource, verdict: Verdict, weighted: ResourceList, newLimits: ResourceList,
                 target: ResourceList): Draft
  {
    match verdict
    case Apply =>
      d.(requests := d.requests.With(r, weighted.Quantity(r)),
         limits := if newLimits.Has(r) then d.limits.With(r, newLimits.Quantity(r)) else d.limits,
         out := d.out.With(r, weighted.Quantity(r)))
    case Block(reason) =>
      d.(blocked := d.blocked.With(reason, d.blocked.At(reason).With(r, target.Quantity(r))))
    case Leave => d
  }

  /** One recommended container: memory, then CPU. */
  method ScaleContainer(ctx: Context, c: Container, rec: Recommendation)
    returns (scaled: Container, out: ResourceList, blocked: ByReason<ResourceList>)
    ensures scaled == Scaled(ctx, c, rec)
    ensures out == AppliedTarget(ctx, c, rec)
    ensures forall reason :: blocked.At(reason) == BlockedTarget(ctx, c, rec, reason)
  {
    hide VerdictFor, CapRequests, ScaledLimits, WeightedRequests;
    var weighted := WeightedRequests(c, rec, ctx.weight);
    var newLimits := NewLimits(ctx, c, rec);
    if newLimits != EMPTY {
      weighted := CapRequests(weighted, newLimits);
    } else {
      weighted := CapRequests(weighted, c.limits);
    }
    assert weighted == NewRequests(ctx, c, rec);
    assert weighted.Has(Memory) && weighted.Has(Cpu);
    var d := Draft(c.requests, c.limits, EMPTY, Uniform(EMPTY));
    d := Place(d, Memory, VerdictFor(ctx, c, rec, Memory), weighted, newLimits, rec.target);
    d := Place(d, Cpu, VerdictFor(ctx, c, rec, Cpu), weighted, newLimits, rec.target);
    scaled, out, blocked := Container(c.name, d.requests, d.limits), d.out, d.blocked;
  }

  // ---------- the pass over all recommendations ----------

  datatype Pass = Pass(containers: seq<Container>, applied: seq<Recommendation>,
                       blocked: ByReason<seq<Recommendation>>, changed: bool)

  function Start(pod: seq<Container>): Pass {
    Pass(pod, [], Uniform([]), false)
  }

  function Record(target: ResourceList, name: string): seq<Recommendation> {
    if target == EMPTY then [] else [Recommendation(name, target)]
  }

  function Step(ctx: Context, p: Pass, rec: Recommendation): Pass {
    var id := IndexOf(p.containers, rec.container);
    if id == |p.containers| then p
    else
      var c := p.containers[id];
      var out := AppliedTarget(ctx, c, rec);
      Pass(p.containers[id := Scaled(ctx, c, rec)],
           p.applied + [Recommendation(c.name, out)],
           Extend(p.blocked, reason => Record(BlockedTarget(ctx, c, rec, reason), c.name)),
           p.changed || out != EMPTY)
  }

  function Extend(blocked: ByReason<seq<Recommendation>>, more: BlockingReason -> seq<Recommendation>)
    : (b: ByReason<seq<Recommendation>>)
    ensures forall reason :: b.At(reason) == blocked.At(reason) + more(reason)
  {
    ByReason(blocked.weight + more(WeightReason), blocked.policy + more(UpdatePolicyReason),
             blocked.stabilization + more(StabilizationReason), blocked.window + more(WindowReason),
             blocked.minChange + more(MinChangeReason))
  }

  function Process(ctx: Context, pod: seq<Container>, recs: seq<Recommendation>): Pass {
    if recs == [] then Start(pod) else Step(ctx, Process(ctx, pod, recs[..|recs| - 1]), recs[|recs| - 1])
  }

  /** The whole vertical decision: nothing at all without a trusted recommendation. */
  ghost function Vertical(ctx: Context, vpa: Option<VpaStatus>, pod: seq<Container>): Pass {
    if vpa.Some? && vpa.value.recommendation.Some? && Trusted(vpa.value.conditions)
    then Process(ctx, pod, vpa.value.recommendation.value)
    else Start(pod)
  }

  lemma ProcessOneMore(ctx: Context, pod: seq<Container>, recs: seq<Recommendation>, i: nat)
    requires i < |recs|
    ensures Process(ctx, pod, recs[..i + 1]) == Step(ctx, Process(ctx, pod, recs[..i]), recs[i])
  {
    assert recs[..i + 1][..i] == recs[..i];
  }

  /** One recommendation: find its container, scale it in place, and record the outcome. */
  method ProcessOne(ctx: Context, p: Pass, rec: Recommendation) returns (q: Pass)
    ensures q == Step(ctx, p, rec)
  {
    hide AppliedTarget, BlockedTarget, Scaled, Record, Extend;
    var containers := p.containers;
    var id := 0;
    while id < |containers| && containers[id].name != rec.container
      invariant 0 <= id <= IndexOf(containers, rec.container)
    {
      id := id + 1;
    }
    if id == |containers| {
      return p;
    }
    var c := containers[id];
    var scaled, target, targets := ScaleContainer(ctx, c, rec);
    containers := containers[id := scaled];
    var blocked := Extend(p.blocked, reason => Record(targets.At(reason), c.name));
    q := Pass(containers, p.applied + [Recommendation(c.name, target)], blocked, p.changed || target != EMPTY);
    SameByReason(blocked, Step(ctx, p, rec).blocked);
  }

  /** The loop over the recommendations. */
  method ProcessAll(ctx: Context, pod: seq<Container>, recs: seq<Recommendation>) returns (p: Pass)
    ensures p == Process(ctx, pod, recs)
  {
    hide Step;
    p := Start(pod);
    var i := 0;
    while i < |recs|
      invariant 0 <= i <= |recs|
      invariant p == Process(ctx, pod, recs[..i])
    {
      ProcessOneMore(ctx, pod, recs, i);
      p := ProcessOne(ctx, p, recs[i]);
      i := i + 1;
    }
    assert recs[..i] == recs;
  }

  /** getWeightedRequests: a new pod and status are returned only when some resource changes. */
  method GetWeightedRequests(spec: HvpaSpec, vpa: Option<VpaStatus>, vpaWeight: int, pod: seq<Container>, limited: bool,
                             override: bool, last: Option<int>, now: int, blocked: BlockedList)
    returns (newPod: Option<seq<Container>>, out: Option<seq<Recommendation>>)
    modifies blocked
    ensures var p := Vertical(MakeContext(spec, vpaWeight, limited, override, last, now), vpa, pod);
            && newPod == (if p.changed then Some(p.containers) else None)
            && out == (if p.changed then Some(p.applied) else None)
            && blocked.entries == old(blocked.entries) + VerticalEntries(p.blocked, 5)
  {
    hide Process, Trusted, VerticalEntries, MakeContext;
    if vpa.None? || vpa.value.recommendation.None? {
      NothingBlocked(5);
      return None, None;
    }
    var trusted := ConditionsAllow(vpa.value.conditions);
    if !trusted {
      NothingBlocked(5);
      return None, None;
    }
    var ctx := MakeContext(spec, vpaWeight, limited, override, last, now);
    var p := ProcessAll(ctx, pod, vpa.value.recommendation.value);
    blocked.AppendAll(p.blocked);
    if p.changed {
      return Some(p.containers), Some(p.applied);
    }
    return None, None;
  }
}
