/** What the vertical decision guarantees: each resource is classified exactly once, nothing else moves,
    requests stay below limits, and new requests stay between the old request and the target. */
module VerticalDecision {
  import opened GoNumerics
  import opened HvpaTypes
  import opened LimitScaling
  import opened BlockedScalings
  import opened VerticalScaling

  // ---------- names and positions are kept ----------

  ghost predicate SameNames(a: seq<Container>, b: seq<Container>) {
    |a| == |b| && forall j :: 0 <= j < |a| ==> a[j].name == b[j].name
  }

  lemma SameIndex(a: seq<Container>, b: seq<Container>, name: string)
    requires SameNames(a, b)
    ensures IndexOf(a, name) == IndexOf(b, name)
  {
  }

  lemma {:induction false} NamesKept(ctx: Context, pod: seq<Container>, recs: seq<Recommendation>)
    ensures SameNames(Process(ctx, pod, recs).containers, pod)
  {
    if recs != [] {
      NamesKept(ctx, pod, recs[..|recs| - 1]);
    }
  }

  /** The container a recommendation is for. */
  function Position(pod: seq<Container>, rec: Recommendation): nat {
    IndexOf(pod, rec.container)
  }

  lemma StepAt(ctx: Context, pod: seq<Container>, recs: seq<Recommendation>)
    requires recs != []
    ensures var p := Process(ctx, pod, recs[..|recs| - 1]);
            var id := Position(pod, recs[|recs| - 1]);
            && |p.containers| == |pod|
            && (id < |pod| ==> p.containers[id].name == recs[|recs| - 1].container)
            && Process(ctx, pod, recs).containers
               == if id < |pod| then p.containers[id := Scaled(ctx, p.containers[id], recs[|recs| - 1])] else p.containers
  {
    NamesKept(ctx, pod, recs[..|recs| - 1]);
    SameIndex(Process(ctx, pod, recs[..|recs| - 1]).containers, pod, recs[|recs| - 1].container);
  }

  /** Frame: a container that is not the first one named by any recommendation is not touched. */
  lemma {:induction false} Frame(ctx: Context, pod: seq<Container>, recs: seq<Recommendation>, j: nat)
    requires j < |pod|
    requires forall k :: 0 <= k < |recs| ==> Position(pod, recs[k]) != j
    ensures |Process(ctx, pod, recs).containers| == |pod|
    ensures Process(ctx, pod, recs).containers[j] == pod[j]
  {
    if recs != [] {
      var n := |recs| - 1;
      assert forall k :: 0 <= k < n ==> recs[..n][k] == recs[k];
      Frame(ctx, pod, recs[..n], j);
      StepAt(ctx, pod, recs);
      assert Position(pod, recs[n]) != j;
    }
  }

  // ---------- what is recorded for a container ----------

  /** The entries of a list of recommendations that are for a container. */
  function EntriesFor(entries: seq<Recommendation>, name: string): seq<Recommendation> {
    if entries == [] then []
    else EntriesFor(entries[..|entries| - 1], name)
         + if entries[|entries| - 1].container == name then [entries[|entries| - 1]] else []
  }

  lemma EntriesForOneMore(entries: seq<Recommendation>, e: Recommendation, name: string)
    ensures EntriesFor(entries + [e], name) == EntriesFor(entries, name) + if e.container == name then [e] else []
  {
  }

  lemma EntriesForRecord(entries: seq<Recommendation>, target: ResourceList, c: string, name: string)
    ensures EntriesFor(entries + Record(target, c), name)
         == EntriesFor(entries, name) + if c == name then Record(target, c) else []
  {
    if target == EMPTY {
      assert entries + [] == entries;
    } else {
      EntriesForOneMore(entries, Recommendation(c, target), name);
    }
  }

  /** The effect of one step on what is recorded for a name. */
  lemma StepRecords(ctx: Context, p: Pass, rec: Recommendation, name: string, reason: BlockingReason)
    ensures var q, id := Step(ctx, p, rec), Position(p.containers, rec);
            if id < |p.containers| && rec.container == name then
              && EntriesFor(q.applied, name) == EntriesFor(p.applied, name)
                   + [Recommendation(name, AppliedTarget(ctx, p.containers[id], rec))]
              && EntriesFor(q.blocked.At(reason), name) == EntriesFor(p.blocked.At(reason), name)
                   + Record(BlockedTarget(ctx, p.containers[id], rec, reason), name)
            else
              && EntriesFor(q.applied, name) == EntriesFor(p.applied, name)
              && EntriesFor(q.blocked.At(reason), name) == EntriesFor(p.blocked.At(reason), name)
  {
    hide AppliedTarget, BlockedTarget, Scaled;
    var id := Position(p.containers, rec);
    if id < |p.containers| {
      var c := p.containers[id];
      EntriesForOneMore(p.applied, Recommendation(c.name, AppliedTarget(ctx, c, rec)), name);
      EntriesForRecord(p.blocked.At(reason), BlockedTarget(ctx, c, rec, reason), c.name, name);
    }
  }

  lemma {:induction false} NothingForOthers(ctx: Context, pod: seq<Container>, recs: seq<Recommendation>, name: string,
                                            reason: BlockingReason)
    requires forall k :: 0 <= k < |recs| ==> recs[k].container != name
    ensures var p := Process(ctx, pod, recs);
            EntriesFor(p.applied, name) == [] && EntriesFor(p.blocked.At(reason), name) == []
  {
    hide Step;
    if recs != [] {
      var n := |recs| - 1;
      assert forall k :: 0 <= k < n ==> recs[..n][k] == recs[k];
      NothingForOthers(ctx, pod, recs[..n], name, reason);
      StepRecords(ctx, Process(ctx, pod, recs[..n]), recs[n], name, reason);
    }
  }

  ghost predicate DistinctNames(recs: seq<Recommendation>) {
    forall j, k :: 0 <= j < k < |recs| ==> recs[j].container != recs[k].container
  }

  lemma EarlierOnesMiss(pod: seq<Container>, recs: seq<Recommendation>)
    requires DistinctNames(recs) && recs != [] && Position(pod, recs[|recs| - 1]) < |pod|
    ensures var earlier, last := recs[..|recs| - 1], recs[|recs| - 1];
            forall k :: 0 <= k < |earlier| ==>
              earlier[k].container != last.container && Position(pod, earlier[k]) != Position(pod, last)
  {
  }

  /** A recommended container gets exactly the effect of its recommendation on its original state. */
  lemma {:induction false} OneEffect(ctx: Context, pod: seq<Container>, recs: seq<Recommendation>, i: nat)
    requires DistinctNames(recs) && i < |recs| && Position(pod, recs[i]) < |pod|
    ensures var p, id := Process(ctx, pod, recs), Position(pod, recs[i]);
            |p.containers| == |pod| && p.containers[id] == Scaled(ctx, pod[id], recs[i])
  {
    hide Step, Scaled;
    var n, id := |recs| - 1, Position(pod, recs[i]);
    StepAt(ctx, pod, recs);
    if i == n {
      EarlierOnesMiss(pod, recs);
      Frame(ctx, pod, recs[..n], id);
    } else {
      OneEffect(ctx, pod, recs[..n], i);
      assert recs[n].container != recs[i].container;
    }
  }

  /** And it is recorded exactly once, in the applied list and under each reason. */
  lemma {:induction false} OneRecord(ctx: Context, pod: seq<Container>, recs: seq<Recommendation>, i: nat,
                                     reason: BlockingReason)
    requires DistinctNames(recs) && i < |recs| && Position(pod, recs[i]) < |pod|
    ensures var p, c, rec := Process(ctx, pod, recs), pod[Position(pod, recs[i])], recs[i];
            && EntriesFor(p.applied, rec.container) == [Recommendation(rec.container, AppliedTarget(ctx, c, rec))]
            && EntriesFor(p.blocked.At(reason), rec.container)
               == Record(BlockedTarget(ctx, c, rec, reason), rec.container)
  {
    hide Step, Scaled, AppliedTarget, BlockedTarget, Record;
    var n, name := |recs| - 1, recs[i].container;
    var before := Process(ctx, pod, recs[..n]);
    StepRecords(ctx, before, recs[n], name, reason);
    NamesKept(ctx, pod, recs[..n]);
    SameIndex(before.containers, pod, recs[n].container);
    if i == n {
      EarlierOnesMiss(pod, recs);
      NothingForOthers(ctx, pod, recs[..n], name, reason);
      Frame(ctx, pod, recs[..n], Position(pod, recs[i]));
    } else {
      OneRecord(ctx, pod, recs[..n], i, reason);
      assert recs[n].container != name;
    }
  }

  // ---------- exactly one class ----------

  ghost predicate AppliedIn(p: Pass, name: string, r: Resource) {
    exists e :: e in EntriesFor(p.applied, name) && e.target.Has(r)
  }

  ghost predicate BlockedIn(p: Pass, reason: BlockingReason, name: string, r: Resource) {
    exists e :: e in EntriesFor(p.blocked.At(reason), name) && e.target.Has(r)
  }

  lemma AppliedClass(ctx: Context, pod: seq<Container>, recs: seq<Recommendation>, i: nat, r: Resource)
    requires DistinctNames(recs) && i < |recs| && Position(pod, recs[i]) < |pod|
    ensures var p, c, rec := Process(ctx, pod, recs), pod[Position(pod, recs[i])], recs[i];
            && (AppliedIn(p, rec.container, r) <==> Applies(ctx, c, rec, r))
            && EntriesFor(p.applied, rec.container) != []
            && EntriesFor(p.applied, rec.container)[0].target == AppliedTarget(ctx, c, rec)
  {
    hide Process, VerdictFor, NewRequests, EntriesFor;
    OneRecord(ctx, pod, recs, i, WeightReason);
    assert NewRequests(ctx, pod[Position(pod, recs[i])], recs[i]).Has(r);
    var applied := Recommendation(recs[i].container, AppliedTarget(ctx, pod[Position(pod, recs[i])], recs[i]));
    assert applied in EntriesFor(Process(ctx, pod, recs).applied, recs[i].container);
  }

  lemma BlockedClass(ctx: Context, pod: seq<Container>, recs: seq<Recommendation>, i: nat, r: Resource,
                     reason: BlockingReason)
    requires DistinctNames(recs) && i < |recs| && Position(pod, recs[i]) < |pod|
    ensures var p, c, rec := Process(ctx, pod, recs), pod[Position(pod, recs[i])], recs[i];
            var entries := EntriesFor(p.blocked.At(reason), rec.container);
            && (BlockedIn(p, reason, rec.container, r) <==> VerdictFor(ctx, c, rec, r) == Block(reason))
            && (VerdictFor(ctx, c, rec, r) == Block(reason) ==>
                  |entries| == 1 && entries[0].target.Entry(r) == Some(rec.target.Quantity(r)))
  {
    hide Process, VerdictFor, NewRequests, EntriesFor;
    OneRecord(ctx, pod, recs, i, reason);
    var c, rec := pod[Position(pod, recs[i])], recs[i];
    var blocked := Recommendation(rec.container, BlockedTarget(ctx, c, rec, reason));
    if VerdictFor(ctx, c, rec, r) == Block(reason) {
      assert blocked.target.Has(r);
      assert blocked in EntriesFor(Process(ctx, pod, recs).blocked.At(reason), rec.container);
    }
  }

  /** Every resource of a recommended container falls into the one class its verdict names: applied, with the new
      request in the pod and in the status; blocked for one reason, recorded once with the raw target; or left alone. */
  lemma ExactlyOneClass(ctx: Context, pod: seq<Container>, recs: seq<Recommendation>, i: nat, r: Resource)
    requires DistinctNames(recs) && i < |recs| && Position(pod, recs[i]) < |pod|
    ensures var p, id, rec := Process(ctx, pod, recs), Position(pod, recs[i]), recs[i];
            var name, verdict := recs[i].container, VerdictFor(ctx, pod[id], rec, r);
            && id < |p.containers|
            && (AppliedIn(p, name, r) <==> verdict == Apply)
            && (forall reason :: BlockedIn(p, reason, name, r) <==> verdict == Block(reason))
            && (verdict == Apply ==>
                  && p.containers[id].requests.Entry(r) == NewRequests(ctx, pod[id], rec).Entry(r)
                  && (var limits := NewLimits(ctx, pod[id], rec);
                      p.containers[id].limits.Entry(r) == if limits.Has(r) then limits.Entry(r) else pod[id].limits.Entry(r))
                  && EntriesFor(p.applied, name) != []
                  && EntriesFor(p.applied, name)[0].target.Entry(r) == p.containers[id].requests.Entry(r))
            && (verdict != Apply ==>
                  && p.containers[id].requests.Entry(r) == pod[id].requests.Entry(r)
                  && p.containers[id].limits.Entry(r) == pod[id].limits.Entry(r))
            && (verdict.Block? ==>
                  && EntriesFor(p.blocked.At(verdict.reason), name) != []
                  && EntriesFor(p.blocked.At(verdict.reason), name)[0].target.Entry(r) == Some(rec.target.Quantity(r)))
  {
    hide Process, VerdictFor, NewRequests, NewLimits, EntriesFor;
    OneEffect(ctx, pod, recs, i);
    assert NewRequests(ctx, pod[Position(pod, recs[i])], recs[i]).Has(r);
    AppliedClass(ctx, pod, recs, i, r);
    forall reason
      ensures BlockedIn(Process(ctx, pod, recs), reason, recs[i].container, r) <==>
              VerdictFor(ctx, pod[Position(pod, recs[i])], recs[i], r) == Block(reason)
    {
      BlockedClass(ctx, pod, recs, i, r, reason);
    }
    var verdict := VerdictFor(ctx, pod[Position(pod, recs[i])], recs[i], r);
    if verdict.Block? {
      BlockedClass(ctx, pod, recs, i, r, verdict.reason);
    }
  }

  /** A controlled resource is left alone exactly when the weight is not zero and its weighted difference is. */
  lemma LeftAloneIffNoDifference(ctx: Context, c: Container, rec: Recommendation, r: Resource)
    requires Controls(ControlledResources(ctx.spec, c.name), r)
    ensures VerdictFor(ctx, c, rec, r) == Leave <==>
            ctx.weight != 0 && Difference(r, c.requests.Quantity(r), rec.target.Quantity(r), ctx.weight) == 0
  {
  }

  /** The negated difference has the magnitude of the difference, so both directions meet the same kind of minimum. */
  lemma SameMagnitude(r: Resource, current: int, target: int, weight: int)
    ensures NegatedDifference(r, current, target, weight) == -Difference(r, current, target, weight)
  {
    PercentNegates(if r.Cpu? then target - current else RoundAway(target - current, 1000), weight);
    hide Percent, RoundAway;
  }

  /** The distance to the target in the unit it is weighted in, rounded up: milli-units of CPU, bytes of memory. */
  function Distance(r: Resource, current: int, target: int): int {
    (Max(target - current, current - target) + UnitOf(r) - 1) / UnitOf(r)
  }

  function UnitOf(r: Resource): int {
    if r.Cpu? then 1 else 1000
  }

  /** The weighted difference points to the target and is the share of the distance that the weight gives, rounded
      down to whole units, in either direction. */
  lemma DifferenceIsShare(r: Resource, current: int, target: int, weight: int)
    requires 0 <= weight <= 100
    ensures var d, u := Difference(r, current, target, weight), UnitOf(r);
            var share := Max(d, -d) / u;
            && (d > 0 ==> target > current) && (d < 0 ==> target < current)
            && Max(d, -d) == share * u
            && share * 100 <= Distance(r, current, target) * weight < (share + 1) * 100
  {
    hide Percent, RoundAway, Distance;
    var q := Distance(r, current, target);
    DistanceIsRounded(r, current, target);
    TruncatedShare(q, weight);
    var share := q * weight / 100;
    var d := Difference(r, current, target, weight);
    assert d == if r.Cpu? then (if target >= current then share else -share)
                else if target >= current then share * 1000 else -share * 1000;
  }

  lemma DistanceIsRounded(r: Resource, current: int, target: int)
    ensures var q := Distance(r, current, target);
            && q >= 0 && (q == 0 <==> target == current)
            && (if r.Cpu? then target - current else RoundAway(target - current, 1000))
               == if target >= current then q else -q
  {
  }

  lemma TruncatedShare(q: int, weight: int)
    requires 0 <= weight <= 100 && q >= 0
    ensures var share := q * weight / 100;
            && 0 <= share * 100 <= q * weight < (share + 1) * 100 && (q == 0 ==> share == 0)
            && Percent(q, weight) == share && Percent(-q, weight) == -share
  {
    MulMonotone(q, 0, weight);
    assert -q * weight == -(q * weight);
    DivBounds(q * weight, 100);
  }

  /** The minimum change is the smaller one of the value and the percentage that are given, or the default. */
  lemma ThresholdIsLeast(p: ChangeParams, r: Resource, current: int)
    requires NonNegative(p) && current >= 0
    ensures var t := Threshold(p, r, current);
            && (p.value.Some? ==> t <= p.value.value)
            && (p.percentage.Some? ==> t * 100 <= current * p.percentage.value)
            && (|| p.value == Some(t)
                || (p.percentage.Some? && current * p.percentage.value < (t + 1) * 100)
                || (p == ChangeParams(None, None) && t == if r.Cpu? then 200 else 200_000_000_000))
  {
    if p.percentage.Some? {
      MulMonotone(current, 0, p.percentage.value);
      DivBounds(current * p.percentage.value, 100);
    }
  }

  /** What stands against a change for each reason. Up and down differ in their parameters only, except that an
      increase needs a limited horizontal scaling, and that the override excuses an increase alone. */
  predicate Obstacle(ctx: Context, c: Container, rec: Recommendation, r: Resource, reason: BlockingReason) {
    var current := c.requests.Quantity(r);
    var d := Difference(r, current, rec.target.Quantity(r), ctx.weight);
    var direction, excused := if d > 0 then ctx.spec.vpaUp else ctx.spec.vpaDown, d > 0 && ctx.override;
    match reason
    case WeightReason => ctx.weight == 0
    case UpdatePolicyReason => direction.Mode() == Off || (d > 0 && !ctx.limited)
    case StabilizationReason => !excused && WithinWindow(ctx.elapsed, direction.Window())
    case WindowReason => direction.Mode() == DuringWindow && !ctx.inWindow
    case MinChangeReason => !excused && Max(d, -d) < Threshold(direction.minChange.For(r), r, current)
  }

  /** The class of a controlled resource: the first obstacle in order of priority blocks it, and without any obstacle
      it is applied, if there is a difference at all. */
  lemma FirstObstacleDecides(ctx: Context, c: Container, rec: Recommendation, r: Resource)
    requires Controls(ControlledResources(ctx.spec, c.name), r)
    requires ctx.weight == 0 || Difference(r, c.requests.Quantity(r), rec.target.Quantity(r), ctx.weight) != 0
    ensures forall reason :: VerdictFor(ctx, c, rec, r) == Block(reason) <==>
              Obstacle(ctx, c, rec, r, reason)
              && forall other :: Rank(other) < Rank(reason) ==> !Obstacle(ctx, c, rec, r, other)
    ensures VerdictFor(ctx, c, rec, r) == Apply <==> forall reason :: !Obstacle(ctx, c, rec, r, reason)
  {
    SameMagnitude(r, c.requests.Quantity(r), rec.target.Quantity(r), ctx.weight);
    hide Difference, NegatedDifference, Threshold, ControlledResources;
    var verdict := VerdictFor(ctx, c, rec, r);
    if verdict.Block? {
      assert Obstacle(ctx, c, rec, r, verdict.reason);
      assert forall other :: Rank(other) < Rank(verdict.reason) ==> !Obstacle(ctx, c, rec, r, other);
    }
    forall a: BlockingReason, b: BlockingReason
      ensures Rank(a) < Rank(b) || Rank(b) < Rank(a) || a == b
    {
      assert Rank(a) == Rank(b) ==> PRIORITY[Rank(a)] == PRIORITY[Rank(b)];
    }
  }

  /** The override reaches no decrease: whether it is set makes no difference to one. */
  lemma OverrideSparesDecreases(ctx: Context, c: Container, rec: Recommendation, r: Resource, override: bool)
    requires Difference(r, c.requests.Quantity(r), rec.target.Quantity(r), ctx.weight) < 0
    ensures VerdictFor(ctx.(override := override, limited := ctx.limited || override), c, rec, r)
         == VerdictFor(ctx.(override := false), c, rec, r)
  {
    hide Difference, NegatedDifference, Threshold, ControlledResources;
  }

  /** What is tested is the weighted difference, before it is rounded and capped: for an applied change it has at least
      the minimum, unless it scales up under override. */
  lemma AppliedMeetsMinimum(ctx: Context, c: Container, rec: Recommendation, r: Resource)
    requires VerdictFor(ctx, c, rec, r) == Apply
    ensures var current := c.requests.Quantity(r);
            var d := Difference(r, current, rec.target.Quantity(r), ctx.weight);
            && d != 0
            && (d > 0 && !ctx.override ==> d >= Threshold(ctx.spec.vpaUp.minChange.For(r), r, current))
            && (d < 0 ==> -d >= Threshold(ctx.spec.vpaDown.minChange.For(r), r, current))
  {
    hide Difference, NegatedDifference, Threshold, ControlledResources;
    SameMagnitude(r, c.requests.Quantity(r), rec.target.Quantity(r), ctx.weight);
  }

  // ---------- the request that is written ----------

  predicate ScalesAnyLimit(ctx: Context, c: Container) {
    && ScalesLimits(Values(ctx.spec, c.name))
    && exists r: Resource :: Controls(ControlledResources(ctx.spec, c.name), r) && c.limits.Quantity(r) != 0
  }

  /** The limit that a new request is cut to. As soon as some limit of the container is scaled, the old limits no longer
      cut anything: a resource is cut to its own new limit, or not at all where it had none. */
  function CuttingLimit(ctx: Context, c: Container, rec: Recommendation, r: Resource): Option<int> {
    var limit, request := c.limits.Quantity(r), c.requests.Quantity(r);
    if !ScalesAnyLimit(ctx, c) then c.limits.Entry(r)
    else if limit == 0 then None
    else
      var w := Weighted(r, request, rec.target.Quantity(r), ctx.weight);
      Some(AtScale(r, ScaledLimit(limit, request, w, ctx.spec.gap.For(r)).value))
  }

  /** Whether the cut leaves at least a quantity. */
  predicate Leaves(cut: Option<int>, quantity: int) {
    cut.Some? ==> quantity <= cut.value
  }

  lemma NewLimitsAreScaled(ctx: Context, c: Container, rec: Recommendation)
    ensures NewLimits(ctx, c, rec) != EMPTY <==> ScalesAnyLimit(ctx, c)
  {
    hide Weighted, AtScale, Controls, Values, ControlledResources;
  }

  lemma NewRequestIsCut(ctx: Context, c: Container, rec: Recommendation, r: Resource)
    requires Controls(ControlledResources(ctx.spec, c.name), r)
    ensures var cut := CuttingLimit(ctx, c, rec, r);
            var w := Weighted(r, c.requests.Quantity(r), rec.target.Quantity(r), ctx.weight);
            NewRequests(ctx, c, rec).Quantity(r) == if cut.Some? && cut.value < w then cut.value else w
  {
    NewLimitsAreScaled(ctx, c, rec);
    hide Weighted, AtScale, Values, ControlledResources;
  }

  /** A new request that is to be higher: it is higher by `need`, up to its weighted difference, exactly when the limit
      it is cut to leaves that much. Rounding to kilobytes only adds. */
  lemma NewRequestRisesIff(ctx: Context, c: Container, rec: Recommendation, r: Resource, need: int)
    requires Controls(ControlledResources(ctx.spec, c.name), r) && c.requests.Quantity(r) >= 0
    requires 0 <= Difference(r, c.requests.Quantity(r), rec.target.Quantity(r), ctx.weight)
    requires need <= Difference(r, c.requests.Quantity(r), rec.target.Quantity(r), ctx.weight)
    ensures var current := c.requests.Quantity(r);
            NewRequests(ctx, c, rec).Quantity(r) - current >= need <==>
            Leaves(CuttingLimit(ctx, c, rec, r), current + need)
  {
    NewRequestIsCut(ctx, c, rec, r);
    var current := c.requests.Quantity(r);
    RoundAwayBounds(current + Difference(r, current, rec.target.Quantity(r), ctx.weight), KILO);
    hide Difference, RoundAway, NewRequests, CuttingLimit, ControlledResources;
  }

  /** The weighted request of a decrease, rounded up if it is memory, stays at or below a bound: the bound has a whole
      number of kilobytes at or above the request before rounding. A negative one is rounded down. */
  predicate RoundsToAtMost(r: Resource, request: int, bound: int) {
    r.Cpu? || request < 0 || request <= bound / KILO * KILO
  }

  lemma RoundsToAtMostIff(r: Resource, request: int, bound: int)
    requires request <= bound
    ensures AtScale(r, request) <= bound <==> RoundsToAtMost(r, request, bound)
  {
    if r.Memory? && request >= 0 {
      RoundedBelowIff(request, bound);
    } else {
      RoundAwayBounds(request, KILO);
    }
  }

  /** A new request that is to be lower: it is lower by `need`, up to its weighted difference, exactly when rounding to
      kilobytes leaves that much, or the limit it is cut to is itself that much lower. */
  lemma NewRequestFallsIff(ctx: Context, c: Container, rec: Recommendation, r: Resource, need: int)
    requires Controls(ControlledResources(ctx.spec, c.name), r)
    requires need <= -Difference(r, c.requests.Quantity(r), rec.target.Quantity(r), ctx.weight)
    ensures var current := c.requests.Quantity(r);
            var d := Difference(r, current, rec.target.Quantity(r), ctx.weight);
            current - NewRequests(ctx, c, rec).Quantity(r) >= need <==>
            RoundsToAtMost(r, current + d, current - need) || !Leaves(CuttingLimit(ctx, c, rec, r), current - need + 1)
  {
    var current := c.requests.Quantity(r);
    NewRequestIsCut(ctx, c, rec, r);
    RoundsToAtMostIff(r, current + Difference(r, current, rec.target.Quantity(r), ctx.weight), current - need);
    hide Difference, AtScale, NewRequests, CuttingLimit, ControlledResources, RoundsToAtMost;
  }

  lemma AppliedIsControlled(ctx: Context, c: Container, rec: Recommendation, r: Resource)
    requires VerdictFor(ctx, c, rec, r) == Apply
    ensures Controls(ControlledResources(ctx.spec, c.name), r)
  {
    hide Difference, NegatedDifference, Threshold, ControlledResources;
  }

  /** The request that an applied change writes. */
  function Written(ctx: Context, c: Container, rec: Recommendation, r: Resource): int {
    Scaled(ctx, c, rec).requests.Quantity(r)
  }

  lemma WrittenIsNew(ctx: Context, c: Container, rec: Recommendation, r: Resource)
    requires VerdictFor(ctx, c, rec, r) == Apply
    ensures Written(ctx, c, rec, r) == NewRequests(ctx, c, rec).Quantity(r)
  {
    hide VerdictFor, NewRequests;
    assert NewRequests(ctx, c, rec).Has(r);
    assert AppliedTarget(ctx, c, rec).Entry(r) == NewRequests(ctx, c, rec).Entry(r);
  }

  /** The minimum is tested before the request is cut: the increase that is written reaches the minimum exactly when
      the limit it is cut to leaves room for it. */
  lemma CutIncreaseMeetsMinimumIff(ctx: Context, c: Container, rec: Recommendation, r: Resource)
    requires VerdictFor(ctx, c, rec, r) == Apply && !ctx.override && c.requests.Quantity(r) >= 0
    requires Difference(r, c.requests.Quantity(r), rec.target.Quantity(r), ctx.weight) > 0
    ensures var current := c.requests.Quantity(r);
            var minimum := Threshold(ctx.spec.vpaUp.minChange.For(r), r, current);
            Written(ctx, c, rec, r) - current >= minimum <==> Leaves(CuttingLimit(ctx, c, rec, r), current + minimum)
  {
    hide VerdictFor, Difference, Threshold, CuttingLimit, NewRequests, ControlledResources, Written;
    AppliedIsControlled(ctx, c, rec, r);
    AppliedMeetsMinimum(ctx, c, rec, r);
    WrittenIsNew(ctx, c, rec, r);
    NewRequestRisesIff(ctx, c, rec, r, Threshold(ctx.spec.vpaUp.minChange.For(r), r, c.requests.Quantity(r)));
  }

  /** It is also tested before memory is rounded up: the decrease that is written reaches the minimum exactly when
      rounding takes no more than is left over, or the limit it is cut to is low enough. Of CPU every decrease does. */
  lemma RoundedDecreaseMeetsMinimumIff(ctx: Context, c: Container, rec: Recommendation, r: Resource)
    requires VerdictFor(ctx, c, rec, r) == Apply
    requires Difference(r, c.requests.Quantity(r), rec.target.Quantity(r), ctx.weight) < 0
    ensures var current := c.requests.Quantity(r);
            var d := Difference(r, current, rec.target.Quantity(r), ctx.weight);
            var minimum := Threshold(ctx.spec.vpaDown.minChange.For(r), r, current);
            current - Written(ctx, c, rec, r) >= minimum <==>
            || RoundsToAtMost(r, current + d, current - minimum)
            || !Leaves(CuttingLimit(ctx, c, rec, r), current - minimum + 1)
  {
    hide VerdictFor, Difference, Threshold, CuttingLimit, NewRequests, ControlledResources, Written, RoundsToAtMost;
    AppliedIsControlled(ctx, c, rec, r);
    AppliedMeetsMinimum(ctx, c, rec, r);
    WrittenIsNew(ctx, c, rec, r);
    NewRequestFallsIff(ctx, c, rec, r, Threshold(ctx.spec.vpaDown.minChange.For(r), r, c.requests.Quantity(r)));
  }

  /** So an applied decrease of memory can write a higher request, exactly when rounding passes the old one. */
  lemma DecreaseRaisesIff(ctx: Context, c: Container, rec: Recommendation, r: Resource)
    requires VerdictFor(ctx, c, rec, r) == Apply
    requires Difference(r, c.requests.Quantity(r), rec.target.Quantity(r), ctx.weight) < 0
    ensures var current := c.requests.Quantity(r);
            var d := Difference(r, current, rec.target.Quantity(r), ctx.weight);
            Written(ctx, c, rec, r) > current <==>
            r.Memory? && current + d >= 0 && current + d > current / KILO * KILO
            && Leaves(CuttingLimit(ctx, c, rec, r), current + 1)
  {
    hide VerdictFor, Difference, CuttingLimit, NewRequests, ControlledResources, Written;
    AppliedIsControlled(ctx, c, rec, r);
    WrittenIsNew(ctx, c, rec, r);
    NewRequestFallsIff(ctx, c, rec, r, 0);
  }

  /** Where the limit is scaled along and the request was within it, an applied increase reaches the minimum exactly
      when the gap parameters cover the request or are not used, or a bare negative value leaves enough of it. */
  lemma ScaledIncreaseMeetsMinimumIff(ctx: Context, c: Container, rec: Recommendation, r: Resource)
    requires VerdictFor(ctx, c, rec, r) == Apply && !ctx.override
    requires Difference(r, c.requests.Quantity(r), rec.target.Quantity(r), ctx.weight) > 0
    requires ScalesLimits(Values(ctx.spec, c.name)) && NonNegative(ctx.spec.gap.For(r))
    requires 0 <= c.requests.Quantity(r) <= c.limits.Quantity(r) && 0 < c.limits.Quantity(r)
    requires 0 <= Weighted(r, c.requests.Quantity(r), rec.target.Quantity(r), ctx.weight) <= MAX_INT64
    ensures var current, gap := c.requests.Quantity(r), ctx.spec.gap.For(r);
            var w := Weighted(r, current, rec.target.Quantity(r), ctx.weight);
            var minimum := Threshold(ctx.spec.vpaUp.minChange.For(r), r, current);
            Written(ctx, c, rec, r) - current >= minimum <==>
            || GapCovers(gap) || current == 0 || current == c.limits.Quantity(r)
            || AtScale(r, Max(w + gap.value.value, 0)) >= current + minimum
  {
    hide VerdictFor, Difference, Threshold, ControlledResources, Written;
    AppliedIsControlled(ctx, c, rec, r);
    var current, gap, limit := c.requests.Quantity(r), ctx.spec.gap.For(r), c.limits.Quantity(r);
    var d := Difference(r, current, rec.target.Quantity(r), ctx.weight);
    var w := Weighted(r, current, rec.target.Quantity(r), ctx.weight);
    AppliedMeetsMinimum(ctx, c, rec, r);
    CutIncreaseMeetsMinimumIff(ctx, c, rec, r);
    assert CuttingLimit(ctx, c, rec, r) == Some(AtScale(r, ScaledLimit(limit, current, w, gap).value));
    RoundsUp(r, current + d);
    hide AtScale, CuttingLimit;
    if GapCovers(gap) || current == 0 || current == limit {
      ScaledLimitCovers(limit, current, w, gap);
      hide ScaledLimit;
      RoundsUp(r, ScaledLimit(limit, current, w, gap).value);
    } else {
      BareNegativeGap(limit, current, w, gap);
    }
  }

  lemma RoundsUp(r: Resource, x: int)
    requires x >= 0
    ensures AtScale(r, x) >= x
  {
    RoundAwayBounds(x, KILO);
  }

  ghost predicate WholeKilobytes(quantity: int) {
    exists q :: quantity == q * KILO
  }

  /** An applied decrease reaches the minimum wherever request and minimum are whole kilobytes. */
  lemma WholeDecreaseMeetsMinimum(ctx: Context, c: Container, rec: Recommendation, r: Resource)
    requires VerdictFor(ctx, c, rec, r) == Apply
    requires Difference(r, c.requests.Quantity(r), rec.target.Quantity(r), ctx.weight) < 0
    requires WholeKilobytes(c.requests.Quantity(r))
    requires WholeKilobytes(Threshold(ctx.spec.vpaDown.minChange.For(r), r, c.requests.Quantity(r)))
    ensures var current := c.requests.Quantity(r);
            current - Written(ctx, c, rec, r) >= Threshold(ctx.spec.vpaDown.minChange.For(r), r, current)
  {
    hide VerdictFor, Difference, Threshold, CuttingLimit, Written;
    var current := c.requests.Quantity(r);
    var minimum := Threshold(ctx.spec.vpaDown.minChange.For(r), r, current);
    AppliedMeetsMinimum(ctx, c, rec, r);
    RoundedDecreaseMeetsMinimumIff(ctx, c, rec, r);
    WholeDifference(current, minimum);
  }

  lemma WholeDifference(a: int, b: int)
    requires WholeKilobytes(a) && WholeKilobytes(b)
    ensures (a - b) / KILO * KILO == a - b
  {
    var p, q :| a == p * KILO && b == q * KILO;
    DivUnique(a - b, KILO, p - q);
  }

  const NOTHING := ChangeParams(None, None)

  /** All modes automatic, no window, nothing said about resources; one minimum change and one gap for everything. */
  function Freely(minimum: ChangeParams, gap: ChangeParams): Context {
    var t := ScaleType(None, None, ScaleParams(minimum, minimum));
    Context(HvpaSpec(false, false, t, t, 1, 1, true, t, t, None, ScaleParams(gap, gap), [], None),
            100, true, false, None, false)
  }

  function MemoryOnly(bytes: int): ResourceList {
    ResourceList(None, Some(bytes * 1000))
  }

  /** Nothing but the minimum change stands against a change, and only the cut changes what is written. */
  lemma FreelyApplied(ctx: Context, minimum: ChangeParams, gap: ChangeParams, c: Container, rec: Recommendation, r: Resource)
    requires ctx == Freely(minimum, gap)
    requires var d := Difference(r, c.requests.Quantity(r), rec.target.Quantity(r), 100);
             d != 0 && Max(d, -d) >= Threshold(minimum, r, c.requests.Quantity(r))
    ensures VerdictFor(ctx, c, rec, r) == Apply
    ensures var cut, w := CuttingLimit(ctx, c, rec, r), Weighted(r, c.requests.Quantity(r), rec.target.Quantity(r), 100);
            Written(ctx, c, rec, r) == if cut.Some? && cut.value < w then cut.value else w
  {
    hide Difference, NegatedDifference, Threshold, AtScale, Written, NewRequests, CuttingLimit;
    SameMagnitude(r, c.requests.Quantity(r), rec.target.Quantity(r), 100);
    WrittenIsNew(ctx, c, rec, r);
    NewRequestIsCut(ctx, c, rec, r);
  }

  /** By default values: a decrease of memory by exactly 200 megabytes is applied, and writes 176 bytes less. */
  lemma DecreaseMissesMinimum()
    ensures var ctx, c := Freely(NOTHING, NOTHING), Container("c", MemoryOnly(1_073_741_824), EMPTY);
            var rec := Recommendation("c", MemoryOnly(873_741_824));
            && VerdictFor(ctx, c, rec, Memory) == Apply
            && c.requests.Quantity(Memory) - Written(ctx, c, rec, Memory) == 199_999_824 * 1000 < DEFAULT_MEMORY_THRESHOLD
  {
    var ctx, c := Freely(NOTHING, NOTHING), Container("c", MemoryOnly(1_073_741_824), EMPTY);
    FreelyApplied(ctx, NOTHING, NOTHING, c, Recommendation("c", MemoryOnly(873_741_824)), Memory);
    hide VerdictFor, Written;
  }

  /** A decrease from 1500 to 1400 bytes is applied, and writes 2000. */
  lemma DecreaseRaises()
    ensures var ctx, c := Freely(ChangeParams(Some(100_000), None), NOTHING), Container("c", MemoryOnly(1500), EMPTY);
            var rec := Recommendation("c", MemoryOnly(1400));
            VerdictFor(ctx, c, rec, Memory) == Apply && Written(ctx, c, rec, Memory) == 2000 * 1000
  {
    var minimum, c := ChangeParams(Some(100_000), None), Container("c", MemoryOnly(1500), EMPTY);
    FreelyApplied(Freely(minimum, NOTHING), minimum, NOTHING, c, Recommendation("c", MemoryOnly(1400)), Memory);
    hide VerdictFor, Written;
  }

  /** With a gap of a bare -150 milli-units, an increase by 250 with a minimum of 200 is applied, and adds 100. */
  lemma IncreaseMissesMinimum()
    ensures var ctx := Freely(ChangeParams(Some(200), None), ChangeParams(Some(-150), None));
            var c := Container("c", ResourceList(Some(1000), None), ResourceList(Some(2000), None));
            var rec := Recommendation("c", ResourceList(Some(1250), None));
            VerdictFor(ctx, c, rec, Cpu) == Apply && Written(ctx, c, rec, Cpu) == 1100
  {
    var minimum, gap := ChangeParams(Some(200), None), ChangeParams(Some(-150), None);
    var c := Container("c", ResourceList(Some(1000), None), ResourceList(Some(2000), None));
    FreelyApplied(Freely(minimum, gap), minimum, gap, c, Recommendation("c", ResourceList(Some(1250), None)), Cpu);
    hide VerdictFor, Written;
  }

  // ---------- requests never exceed limits ----------

  /** Wherever there is a positive limit, the request is at most the limit. */
  ghost predicate Fits(c: Container) {
    forall r: Resource :: c.limits.Quantity(r) > 0 ==> c.requests.Quantity(r) <= c.limits.Quantity(r)
  }

  ghost predicate AllFit(pod: seq<Container>) {
    forall j :: 0 <= j < |pod| ==> Fits(pod[j])
  }

  lemma LimitMissingOnlyAtZero(ctx: Context, c: Container, rec: Recommendation, r: Resource)
    requires NewLimits(ctx, c, rec) != EMPTY && Controls(ControlledResources(ctx.spec, c.name), r)
    ensures NewLimits(ctx, c, rec).Has(r) <==> c.limits.Quantity(r) != 0
  {
    hide AtScale, Weighted;
  }

  lemma CappedBelow(ctx: Context, c: Container, rec: Recommendation, r: Resource)
    ensures var limits := NewLimits(ctx, c, rec);
            && (limits.Has(r) ==> NewRequests(ctx, c, rec).Quantity(r) <= limits.Quantity(r))
            && (limits == EMPTY && c.limits.Has(r) ==> NewRequests(ctx, c, rec).Quantity(r) <= c.limits.Quantity(r))
  {
    hide NewLimits, Weighted;
  }

  lemma ScaledFits(ctx: Context, c: Container, rec: Recommendation)
    requires Fits(c)
    ensures Fits(Scaled(ctx, c, rec))
  {
    forall r: Resource | Scaled(ctx, c, rec).limits.Quantity(r) > 0
      ensures Scaled(ctx, c, rec).requests.Quantity(r) <= Scaled(ctx, c, rec).limits.Quantity(r)
    {
      if Applies(ctx, c, rec, r) {
        CappedBelow(ctx, c, rec, r);
        assert Controls(ControlledResources(ctx.spec, c.name), r);
        if NewLimits(ctx, c, rec) != EMPTY {
          LimitMissingOnlyAtZero(ctx, c, rec, r);
        }
      }
      hide VerdictFor, NewLimits, NewRequests;
    }
  }

  /** The vertical decision keeps every request at or below its positive limit, whatever is controlled,
      whatever the gap parameters are and whichever resources are applied. */
  lemma {:induction false} RequestsNeverExceedLimits(ctx: Context, pod: seq<Container>, recs: seq<Recommendation>)
    requires AllFit(pod)
    ensures AllFit(Process(ctx, pod, recs).containers)
  {
    hide Scaled;
    if recs != [] {
      var n := |recs| - 1;
      RequestsNeverExceedLimits(ctx, pod, recs[..n]);
      StepAt(ctx, pod, recs);
      var before, id := Process(ctx, pod, recs[..n]).containers, Position(pod, recs[n]);
      if id < |pod| {
        ScaledFits(ctx, before[id], recs[n]);
      }
    }
  }

  // ---------- new requests stay between the old request and the target ----------

  lemma CpuStaysBetween(current: int, target: int, weight: int)
    requires 0 <= weight <= 100
    ensures Min(current, target) <= Weighted(Cpu, current, target, weight) <= Max(current, target)
  {
    PercentageBetween(target - current, weight);
  }

  /** The weighted difference of memory, before the request is rounded to kilobytes. */
  lemma MemoryDifferenceBounds(d: int, weight: int)
    requires 0 <= weight <= 100
    ensures var share := Percent(RoundAway(d, 1000), weight) * 1000;
            && (d >= 0 ==> 0 <= share < d + 1000)
            && (d <= 0 ==> d - 1000 < share <= 0)
            && (d % 1000 == 0 ==> Min(d, 0) <= share <= Max(d, 0))
  {
    var q := RoundAway(d, 1000);
    RoundAwayBounds(d, 1000);
    PercentageBetween(q, weight);
    if d % 1000 == 0 {
      RoundAwayExact(d / 1000, 1000);
      assert d / 1000 * 1000 == d;
    }
  }

  lemma MemoryBeforeRounding(current: int, target: int, weight: int)
    requires 0 <= weight <= 100
    ensures var y := current + Difference(Memory, current, target, weight);
            && Min(current, target) - 1000 < y < Max(current, target) + 1000
            && ((target - current) % 1000 == 0 ==> Min(current, target) <= y <= Max(current, target))
  {
    MemoryDifferenceBounds(target - current, weight);
    hide Percent, RoundAway;
  }

  /** A memory request overshoots by less than a kilobyte and a byte; by less than a kilobyte when the distance to the
      target is whole bytes, and then it does not undershoot; and not at all when both ends are whole kilobytes. */
  lemma MemoryStaysBetween(current: int, target: int, weight: int)
    requires 0 <= weight <= 100 && current >= 0 && target >= 0
    ensures var w := Weighted(Memory, current, target, weight);
            && w < Max(current, target) + KILO + 1000
            && ((target - current) % 1000 == 0 ==> Min(current, target) <= w < Max(current, target) + KILO)
            && (WholeKilobytes(current) && WholeKilobytes(target) ==> Min(current, target) <= w <= Max(current, target))
  {
    var y := current + Difference(Memory, current, target, weight);
    MemoryBeforeRounding(current, target, weight);
    hide Percent, RoundAway, Difference;
    RoundAwayBounds(y, KILO);
    if WholeKilobytes(current) && WholeKilobytes(target) {
      BetweenWholeKilobytes(current, target, y);
    }
  }

  lemma BetweenWholeKilobytes(current: int, target: int, y: int)
    requires WholeKilobytes(current) && WholeKilobytes(target)
    ensures (target - current) % 1000 == 0
    ensures 0 <= y <= Max(current, target) ==> RoundAway(y, KILO) * KILO <= Max(current, target)
  {
    hide RoundAway;
    var p, q :| current == p * KILO && target == q * KILO;
    ThousandsOfThousands(q - p);
    if 0 <= y <= Max(current, target) {
      RoundAwayBelow(y, if p < q then q else p, KILO);
    }
  }

  lemma ThousandsOfThousands(k: int)
    ensures k * KILO % 1000 == 0
  {
    assert k * KILO == k * 1000 * 1000;
  }

  /** Before rounding to kilobytes, a memory request passes its target only at full weight. */
  lemma PassesTargetAtFullWeight(current: int, target: int, weight: int)
    requires 0 <= weight <= 100
    ensures var y := current + Difference(Memory, current, target, weight);
            && (weight == 100 ==> y == current + RoundAway(target - current, 1000) * 1000)
            && (weight < 100 ==> Min(current, target) <= y <= Max(current, target))
  {
    var q := RoundAway(target - current, 1000);
    RoundAwayBounds(target - current, 1000);
    hide RoundAway;
    if weight < 100 {
      TruncatedStaysShort(q, weight);
    }
  }

  lemma TruncatedStaysShort(q: int, weight: int)
    requires 0 <= weight < 100
    ensures q > 0 ==> 0 <= Percent(q, weight) <= q - 1
    ensures q <= 0 ==> Percent(q, weight) <= 0
    ensures q < 0 ==> q + 1 <= Percent(q, weight)
  {
  }

  /** Exactly when a memory request oversteps by a kilobyte or more, or falls short of both ends: at full weight only,
      and only if rounding the difference to bytes goes past a whole number of kilobytes beyond the target. */
  lemma MemoryOverstepsIff(current: int, target: int, weight: int)
    requires 0 <= weight <= 100 && current >= 0 && target >= 0
    ensures var w, past := Weighted(Memory, current, target, weight), current + RoundAway(target - current, 1000) * 1000;
            && (w >= Max(current, target) + KILO <==>
                  weight == 100 && target > current && RoundAway(target, KILO) * KILO < past)
            && (w < Min(current, target) <==>
                  weight == 100 && target < current && RoundAway(past, KILO) * KILO < target)
  {
    var y, past := current + Difference(Memory, current, target, weight), current + RoundAway(target - current, 1000) * 1000;
    PassesTargetAtFullWeight(current, target, weight);
    MemoryBeforeRounding(current, target, weight);
    RoundAwayBounds(y, KILO);
    RoundAwayBounds(target, KILO);
    RoundAwayBounds(target - current, 1000);
    hide Percent, RoundAway, Difference;
    if weight == 100 && target > current {
      var m := RoundAway(target, KILO);
      if past <= m * KILO {
        RoundAwayBelow(y, m, KILO);
      } else {
        MulMonotone(KILO, m + 1, RoundAway(y, KILO));
      }
    }
  }

  /** Without whole bytes the overshoot can exceed a kilobyte. */
  lemma OvershootBeyondKilobyte()
    ensures Weighted(Memory, 1, 999_002, 100) == 2 * KILO > 999_002 + KILO
  {
  }

  /** A new request is never above the weighted one, and it is at least any bound the weighted one is at least, exactly
      when the cut leaves that much. */
  lemma NewRequestBounds(ctx: Context, c: Container, rec: Recommendation, r: Resource, bound: int)
    requires Controls(ControlledResources(ctx.spec, c.name), r)
    requires bound <= Weighted(r, c.requests.Quantity(r), rec.target.Quantity(r), ctx.weight)
    ensures NewRequests(ctx, c, rec).Quantity(r) <= Weighted(r, c.requests.Quantity(r), rec.target.Quantity(r), ctx.weight)
    ensures NewRequests(ctx, c, rec).Quantity(r) >= bound <==> Leaves(CuttingLimit(ctx, c, rec, r), bound)
  {
    NewRequestIsCut(ctx, c, rec, r);
    hide Weighted, NewRequests, CuttingLimit, ControlledResources;
  }

  /** A request within its limit, with gap parameters that cover requests: no change is cut below the old request. */
  lemma CutLeavesOldRequest(ctx: Context, c: Container, rec: Recommendation, r: Resource)
    requires Controls(ControlledResources(ctx.spec, c.name), r)
    requires 0 <= Weighted(r, c.requests.Quantity(r), rec.target.Quantity(r), ctx.weight) <= MAX_INT64
    requires c.limits.Has(r) ==> 0 < c.limits.Quantity(r) && 0 <= c.requests.Quantity(r) <= c.limits.Quantity(r)
    requires NonNegative(ctx.spec.gap.For(r)) && GapCovers(ctx.spec.gap.For(r))
    ensures var current := c.requests.Quantity(r);
            var w := Weighted(r, current, rec.target.Quantity(r), ctx.weight);
            Leaves(CuttingLimit(ctx, c, rec, r), Min(current, w))
  {
    var current, limit := c.requests.Quantity(r), c.limits.Quantity(r);
    var w := Weighted(r, current, rec.target.Quantity(r), ctx.weight);
    hide Weighted, AtScale, ControlledResources;
    if limit > 0 {
      ScaledLimitCovers(limit, current, w, ctx.spec.gap.For(r));
      RoundsUp(r, ScaledLimit(limit, current, w, ctx.spec.gap.For(r)).value);
      hide ScaledLimit;
    }
  }

  /** An applied CPU request lies between the old request and the target exactly when the cut leaves the lower one. */
  lemma AppliedCpuStaysBetweenIff(ctx: Context, c: Container, rec: Recommendation)
    requires VerdictFor(ctx, c, rec, Cpu) == Apply && 0 <= ctx.weight <= 100
    ensures var current, target := c.requests.Quantity(Cpu), rec.target.Quantity(Cpu);
            Min(current, target) <= Written(ctx, c, rec, Cpu) <= Max(current, target) <==>
            Leaves(CuttingLimit(ctx, c, rec, Cpu), Min(current, target))
  {
    var current, target := c.requests.Quantity(Cpu), rec.target.Quantity(Cpu);
    CpuStaysBetween(current, target, ctx.weight);
    WrittenIsNew(ctx, c, rec, Cpu);
    NewRequestBounds(ctx, c, rec, Cpu, Min(current, target));
    hide Weighted, NewRequests, CuttingLimit, Written;
  }

  /** It does for a request within its limit, where the gap parameters cover requests. */
  lemma AppliedCpuStaysBetween(ctx: Context, c: Container, rec: Recommendation)
    requires VerdictFor(ctx, c, rec, Cpu) == Apply && 0 <= ctx.weight <= 100
    requires var current, target := c.requests.Quantity(Cpu), rec.target.Quantity(Cpu);
             0 <= current <= MAX_INT64 && 0 <= target <= MAX_INT64
    requires c.limits.Has(Cpu) ==> 0 < c.limits.Quantity(Cpu) && c.requests.Quantity(Cpu) <= c.limits.Quantity(Cpu)
    requires NonNegative(ctx.spec.gap.For(Cpu)) && GapCovers(ctx.spec.gap.For(Cpu))
    ensures var current, target := c.requests.Quantity(Cpu), rec.target.Quantity(Cpu);
            Min(current, target) <= Written(ctx, c, rec, Cpu) <= Max(current, target)
  {
    CpuStaysBetween(c.requests.Quantity(Cpu), rec.target.Quantity(Cpu), ctx.weight);
    AppliedCpuStaysBetweenIff(ctx, c, rec);
    CutLeavesOldRequest(ctx, c, rec, Cpu);
    hide Weighted, CuttingLimit, Written, GapCovers, ControlledResources;
  }

  /** An applied memory request, under the same conditions: between the old request and the weighted one, so it
      overshoots by less than a kilobyte and a byte, and between whole kilobytes not at all. */
  lemma AppliedMemoryStaysBetween(ctx: Context, c: Container, rec: Recommendation)
    requires VerdictFor(ctx, c, rec, Memory) == Apply && 0 <= ctx.weight <= 100
    requires c.requests.Quantity(Memory) >= 0 && rec.target.Quantity(Memory) >= 0
    requires 0 <= Weighted(Memory, c.requests.Quantity(Memory), rec.target.Quantity(Memory), ctx.weight) <= MAX_INT64
    requires c.limits.Has(Memory) ==>
               0 < c.limits.Quantity(Memory) && c.requests.Quantity(Memory) <= c.limits.Quantity(Memory)
    requires NonNegative(ctx.spec.gap.For(Memory)) && GapCovers(ctx.spec.gap.For(Memory))
    ensures var current, target := c.requests.Quantity(Memory), rec.target.Quantity(Memory);
            var w, written := Weighted(Memory, current, target, ctx.weight), Written(ctx, c, rec, Memory);
            && Min(current, w) <= written <= w
            && written < Max(current, target) + KILO + 1000
            && (WholeKilobytes(current) && WholeKilobytes(target) ==>
                  Min(current, target) <= written <= Max(current, target))
  {
    var current, target := c.requests.Quantity(Memory), rec.target.Quantity(Memory);
    var w := Weighted(Memory, current, target, ctx.weight);
    MemoryStaysBetween(current, target, ctx.weight);
    CutLeavesOldRequest(ctx, c, rec, Memory);
    WrittenIsNew(ctx, c, rec, Memory);
    NewRequestBounds(ctx, c, rec, Memory, Min(current, w));
    hide Weighted, NewRequests, CuttingLimit, Written, WholeKilobytes, GapCovers, ControlledResources;
  }

  // ---------- a hull for CPU requests ----------

  /** The CPU request is within `lo` and `hi`, and no positive limit is below it; a limit of zero counts as none, but
      cuts to zero where no limit is scaled. */
  predicate InHull(c: Container, lo: int, hi: int) {
    && lo <= c.requests.Quantity(Cpu) <= hi
    && c.limits.Quantity(Cpu) >= 0
    && (c.limits.Quantity(Cpu) > 0 ==> c.requests.Quantity(Cpu) <= c.limits.Quantity(Cpu))
    && (lo > 0 ==> c.limits.cpu != Some(0))
  }

  ghost predicate AllInHull(pod: seq<Container>, lo: int, hi: int) {
    forall j :: 0 <= j < |pod| ==> InHull(pod[j], lo, hi)
  }

  ghost predicate TargetsIn(recs: seq<Recommendation>, lo: int, hi: int) {
    forall k :: 0 <= k < |recs| ==> lo <= recs[k].target.Quantity(Cpu) <= hi
  }

  lemma HullOfScaled(ctx: Context, c: Container, rec: Recommendation, lo: int, hi: int)
    requires InHull(c, lo, hi) && 0 <= lo && hi <= MAX_INT64 && lo <= rec.target.Quantity(Cpu) <= hi
    requires 0 <= ctx.weight <= 100 && NonNegative(ctx.spec.gap.cpu) && GapCovers(ctx.spec.gap.cpu)
    ensures InHull(Scaled(ctx, c, rec), lo, hi)
  {
    var current, target := c.requests.Quantity(Cpu), rec.target.Quantity(Cpu);
    if Applies(ctx, c, rec, Cpu) {
      CpuStaysBetween(current, target, ctx.weight);
      WrittenIsNew(ctx, c, rec, Cpu);
      NewRequestIsCut(ctx, c, rec, Cpu);
      NewLimitsAreScaled(ctx, c, rec);
      if c.limits.Quantity(Cpu) > 0 {
        ScaledLimitCovers(c.limits.Quantity(Cpu), current, Weighted(Cpu, current, target, ctx.weight), ctx.spec.gap.cpu);
      }
    }
    hide VerdictFor, Weighted, NewRequests, ScaledLimit, GapCovers, ControlledResources, Values;
  }

  /** CPU requests within the hull stay in it, if all targets are. */
  lemma {:induction false} HullIsKept(ctx: Context, pod: seq<Container>, recs: seq<Recommendation>, lo: int, hi: int)
    requires AllInHull(pod, lo, hi) && TargetsIn(recs, lo, hi) && 0 <= lo && hi <= MAX_INT64
    requires 0 <= ctx.weight <= 100 && NonNegative(ctx.spec.gap.cpu) && GapCovers(ctx.spec.gap.cpu)
    ensures AllInHull(Process(ctx, pod, recs).containers, lo, hi)
  {
    hide Scaled, InHull, GapCovers;
    if recs != [] {
      var n := |recs| - 1;
      assert forall k :: 0 <= k < n ==> recs[..n][k] == recs[k];
      HullIsKept(ctx, pod, recs[..n], lo, hi);
      StepAt(ctx, pod, recs);
      var before, id := Process(ctx, pod, recs[..n]).containers, Position(pod, recs[n]);
      if id < |pod| {
        HullOfScaled(ctx, before[id], recs[n], lo, hi);
      }
    }
  }
}
