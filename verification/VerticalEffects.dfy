/** The vertical decision on one container, said again from the fields of the specification and by plain arithmetic:
    which resources are controlled, what the weighted request is, and which limit and request are written. */
module VerticalEffects {
  import opened GoNumerics
  import opened HvpaTypes
  import opened LimitScaling
  import opened VerticalScaling
  import opened VerticalDecision

  // ---------- policies ----------

  /** Policy `i` is the first one for the container. */
  ghost predicate FirstPolicy(spec: HvpaSpec, name: string, i: int) {
    && spec.policy.Some? && 0 <= i < |spec.policy.value|
    && spec.policy.value[i].container in {"*", name}
    && forall j :: 0 <= j < i ==> spec.policy.value[j].container !in {"*", name}
  }

  /** A resource is out of control exactly if the first policy for the container lists resources, and not this one. */
  lemma UncontrolledIff(spec: HvpaSpec, name: string, r: Resource)
    ensures !Controls(ControlledResources(spec, name), r) <==>
            exists i :: FirstPolicy(spec, name, i)
                     && spec.policy.value[i].resources.Some? && r !in spec.policy.value[i].resources.value
  {
    if spec.policy.Some? {
      FirstPolicyApplies(spec, name);
    }
  }

  /** Limits are left alone exactly if the first policy for the container controls requests only. */
  lemma LimitsLeftIff(spec: HvpaSpec, name: string)
    ensures !ScalesLimits(Values(spec, name)) <==>
            exists i :: FirstPolicy(spec, name, i) && spec.policy.value[i].values == Some(RequestsOnly)
  {
    if spec.policy.Some? {
      FirstPolicyApplies(spec, name);
    }
  }

  lemma FirstPolicyApplies(spec: HvpaSpec, name: string)
    requires spec.policy.Some?
    ensures var p := PolicyFor(spec.policy.value, name);
            && (p.None? ==> forall i :: !FirstPolicy(spec, name, i))
            && (p.Some? ==> exists i :: FirstPolicy(spec, name, i))
            && forall i :: FirstPolicy(spec, name, i) ==> p == Some(spec.policy.value[i])
  {
    var p, all := PolicyFor(spec.policy.value, name), spec.policy.value;
    if p.Some? {
      var i :| 0 <= i < |all| && all[i] == p.value && PolicyNames(p.value, name)
               && forall j :: 0 <= j < i ==> !PolicyNames(all[j], name);
      assert forall j :: 0 <= j < i ==> !PolicyNames(all[j], name) && all[j].container !in {"*", name};
      assert FirstPolicy(spec, name, i);
      forall k | FirstPolicy(spec, name, k)
        ensures k == i
      {
        assert PolicyNames(all[k], name);
      }
    } else {
      assert forall i :: 0 <= i < |all| ==> !PolicyNames(all[i], name) && all[i].container !in {"*", name};
    }
  }

  /** Nothing is decided about a resource that is out of control. */
  lemma UncontrolledIsLeft(ctx: Context, c: Container, rec: Recommendation, r: Resource, i: int)
    requires FirstPolicy(ctx.spec, c.name, i) && ctx.spec.policy.value[i].resources.Some?
    requires r !in ctx.spec.policy.value[i].resources.value
    ensures VerdictFor(ctx, c, rec, r) == Leave
  {
    UncontrolledIff(ctx.spec, c.name, r);
  }

  // ---------- the weighted request ----------

  /** A quantity as it is written: CPU as it is, memory at the next whole kilobyte. */
  predicate WrittenAs(r: Resource, exact: int, written: int) {
    if r.Cpu? then written == exact else exact <= written < exact + KILO && written % KILO == 0
  }

  lemma WritesAtScale(r: Resource, x: int)
    requires x >= 0
    ensures WrittenAs(r, x, AtScale(r, x))
  {
    RoundAwayBounds(x, KILO);
    var q := RoundAway(x, KILO);
    hide RoundAway;
    assert q * KILO % KILO == 0;
  }

  lemma WeightedInPlain(r: Resource, current: int, target: int, weight: int)
    requires current + Difference(r, current, target, weight) >= 0
    ensures WrittenAs(r, current + Difference(r, current, target, weight), Weighted(r, current, target, weight))
  {
    WritesAtScale(r, current + Difference(r, current, target, weight));
    hide Difference, AtScale;
  }

  // ---------- the limit ----------

  /** The scaled limit before rounding: the new request, where the old one was missing or equal to the limit; otherwise
      without gap parameters in proportion, rounded down, and with them the greater of what they add. What does not fit
      64 bits becomes the largest value that does. */
  predicate IsScaledLimit(limit: int, request: int, weighted: int, p: ChangeParams, l: int) {
    if request == 0 || request == limit then l == weighted
    else if p.value.None? && (p.percentage.None? || p.percentage.value == 0) then
      || (l <= MAX_INT64 && l * request <= limit * weighted < (l + 1) * request)
      || (l == MAX_INT64 && (l + 1) * request <= limit * weighted)
    else
      var added := match p.value case None => 0 case Some(value) => weighted + value;
      var grown := match p.percentage
                   case None => 0
                   case Some(percentage) => if percentage == 0 then 0 else weighted + weighted * percentage / 100;
      l == Min(Max(added, grown), MAX_INT64)
  }

  lemma ScaledLimitInPlain(limit: int, request: int, weighted: int, p: ChangeParams)
    requires limit > 0 && request >= 0 && 0 <= weighted <= MAX_INT64 && NonNegative(p)
    ensures ScaledLimit(limit, request, weighted, p).Some?
    ensures ScaledLimit(limit, request, weighted, p).value >= 0
    ensures IsScaledLimit(limit, request, weighted, p, ScaledLimit(limit, request, weighted, p).value)
  {
    MulMonotone(weighted, 0, limit);
    if request != 0 && request != limit {
      if !HasGap(p) {
        DivMonotone(0, limit * weighted, request);
        DivBounds(limit * weighted, request);
        if limit * weighted / request > MAX_INT64 {
          MulMonotone(request, MAX_INT64 + 1, limit * weighted / request);
        }
      } else if p.percentage.Some? {
        PercentageCovers(weighted, p.percentage.value);
      }
    }
  }

  /** The limit that an applied change leaves: scaled along for a positive one, unless requests only are controlled. */
  lemma LimitInPlain(ctx: Context, c: Container, rec: Recommendation, r: Resource)
    requires VerdictFor(ctx, c, rec, r) == Apply && NonNegative(ctx.spec.gap.For(r))
    requires c.limits.Quantity(r) >= 0 && c.requests.Quantity(r) >= 0
    requires 0 <= Weighted(r, c.requests.Quantity(r), rec.target.Quantity(r), ctx.weight) <= MAX_INT64
    ensures var limit, request, after := c.limits.Quantity(r), c.requests.Quantity(r), Scaled(ctx, c, rec).limits;
            var w := Weighted(r, request, rec.target.Quantity(r), ctx.weight);
            if limit == 0 || !ScalesLimits(Values(ctx.spec, c.name)) then after.Entry(r) == c.limits.Entry(r)
            else after.Has(r)
                 && exists l :: IsScaledLimit(limit, request, w, ctx.spec.gap.For(r), l)
                             && WrittenAs(r, l, after.Quantity(r))
  {
    var limit, request := c.limits.Quantity(r), c.requests.Quantity(r);
    var w := Weighted(r, request, rec.target.Quantity(r), ctx.weight);
    AppliedIsControlled(ctx, c, rec, r);
    hide VerdictFor, Weighted, AtScale, IsScaledLimit, Values, ControlledResources, WrittenAs;
    assert AppliedLimits(ctx, c, rec).Entry(r) == NewLimits(ctx, c, rec).Entry(r);
    if limit > 0 {
      ScaledLimitInPlain(limit, request, w, ctx.spec.gap.For(r));
      hide ScaledLimit;
      WritesAtScale(r, ScaledLimit(limit, request, w, ctx.spec.gap.For(r)).value);
    }
  }

  /** The request that an applied change writes: the weighted one, or the limit if that is lower. If some limit of the
      container is scaled, that is the new limit of the resource, and a resource without one is not cut; otherwise it
      is the old limit. */
  lemma RequestInPlain(ctx: Context, c: Container, rec: Recommendation, r: Resource)
    requires VerdictFor(ctx, c, rec, r) == Apply
    ensures var after := Scaled(ctx, c, rec);
            var w := Weighted(r, c.requests.Quantity(r), rec.target.Quantity(r), ctx.weight);
            && after.requests.Has(r)
            && after.requests.Quantity(r)
               == if !ScalesAnyLimit(ctx, c) then (if c.limits.Has(r) then Min(c.limits.Quantity(r), w) else w)
                  else if c.limits.Quantity(r) == 0 then w
                  else Min(after.limits.Quantity(r), w)
  {
    AppliedIsControlled(ctx, c, rec, r);
    WrittenIsNew(ctx, c, rec, r);
    NewRequestIsCut(ctx, c, rec, r);
    hide VerdictFor, Weighted, AtScale, Values, ControlledResources, NewRequests, ScaledLimit;
    assert NewRequests(ctx, c, rec).Has(r);
    assert AppliedLimits(ctx, c, rec).Entry(r) == NewLimits(ctx, c, rec).Entry(r);
    assert AppliedTarget(ctx, c, rec).Entry(r) == NewRequests(ctx, c, rec).Entry(r);
  }

  /** Whether some controlled resource has a limit that is scaled along. */
  lemma ScalesAnyLimitIff(ctx: Context, c: Container)
    ensures ScalesAnyLimit(ctx, c) <==>
            && !(exists i :: FirstPolicy(ctx.spec, c.name, i) && ctx.spec.policy.value[i].values == Some(RequestsOnly))
            && exists r: Resource :: c.limits.Quantity(r) != 0
                 && !(exists i :: FirstPolicy(ctx.spec, c.name, i) && ctx.spec.policy.value[i].resources.Some?
                               && r !in ctx.spec.policy.value[i].resources.value)
  {
    LimitsLeftIff(ctx.spec, c.name);
    UncontrolledIff(ctx.spec, c.name, Cpu);
    UncontrolledIff(ctx.spec, c.name, Memory);
    hide FirstPolicy, Values, ControlledResources, Controls, ScalesLimits;
  }

  /** A container of the guaranteed class stays in it: where the request was equal to a positive limit, or missing, an
      applied change makes both the new request. */
  lemma EqualStaysEqual(ctx: Context, c: Container, rec: Recommendation, r: Resource)
    requires VerdictFor(ctx, c, rec, r) == Apply && ScalesLimits(Values(ctx.spec, c.name))
    requires 0 < c.limits.Quantity(r) && c.requests.Quantity(r) in {0, c.limits.Quantity(r)}
    requires 0 <= c.requests.Quantity(r) + Difference(r, c.requests.Quantity(r), rec.target.Quantity(r), ctx.weight)
    ensures var w := Weighted(r, c.requests.Quantity(r), rec.target.Quantity(r), ctx.weight);
            Scaled(ctx, c, rec).requests.Entry(r) == Scaled(ctx, c, rec).limits.Entry(r) == Some(w)
  {
    hide VerdictFor, Difference, Weighted, Values, ControlledResources, NewRequests;
    AppliedIsControlled(ctx, c, rec, r);
    RequestInPlain(ctx, c, rec, r);
    AtScaleTwice(r, c.requests.Quantity(r), rec.target.Quantity(r), ctx.weight);
    hide AtScale;
    assert AppliedLimits(ctx, c, rec).Entry(r) == NewLimits(ctx, c, rec).Entry(r);
  }

  lemma AtScaleTwice(r: Resource, current: int, target: int, weight: int)
    ensures AtScale(r, Weighted(r, current, target, weight)) == Weighted(r, current, target, weight)
  {
    RoundAwayExact(RoundAway(current + Difference(r, current, target, weight), KILO), KILO);
    hide RoundAway, Difference;
  }
}
