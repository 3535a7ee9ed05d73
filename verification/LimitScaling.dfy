/** Scaling limits along with requests, and capping requests to limits. */
module LimitScaling {
  import opened GoNumerics
  import opened HvpaTypes

  /** One kilobyte, in milli-bytes. */
  const KILO := 1_000_000

  /** Capping a big integer to what 64 bits hold: every value that does not fit becomes the largest one. */
  function Capped(x: int): int {
    if -MAX_INT64 - 1 <= x <= MAX_INT64 then x else MAX_INT64
  }

  /** scaleQuantityProportionally. */
  function Proportional(limit: int, request: int, weighted: int): int
    requires request != 0
  {
    Capped(limit * weighted / request)
  }

  function OverPercentage(weighted: int, p: ChangeParams): int {
    if p.percentage.Some? && p.percentage.value != 0 then weighted * p.percentage.value / 100 + weighted else 0
  }

  function OverValue(weighted: int, p: ChangeParams): int {
    if p.value.Some? then weighted + p.value.value else 0
  }

  predicate HasGap(p: ChangeParams) {
    p.value.Some? || (p.percentage.Some? && p.percentage.value != 0)
  }

  /** getScaledResourceLimit. */
  function ScaledLimit(limit: int, request: int, weighted: int, p: ChangeParams): Option<int> {
    if limit == 0 then None
    else if request == 0 || request == limit then Some(weighted)
    else if !HasGap(p) then Some(Proportional(limit, request, weighted))
    else if OverValue(weighted, p) > OverPercentage(weighted, p) then Some(Capped(OverValue(weighted, p)))
    else Some(Capped(OverPercentage(weighted, p)))
  }

  predicate Controls(resources: Option<seq<Resource>>, r: Resource) {
    resources.Some? ==> r in resources.value
  }

  predicate ScalesLimits(values: Option<ControlledValues>) {
    values.Some? ==> values.value.RequestsAndLimits?
  }

  /** A memory limit is rounded up to a whole number of kilobytes. */
  function AtScale(r: Resource, limit: int): int {
    if r.Memory? then RoundAway(limit, KILO) * KILO else limit
  }

  function LimitFor(r: Resource, limits: ResourceList, requests: ResourceList, weighted: ResourceList, gap: ScaleParams,
                    resources: Option<seq<Resource>>, values: Option<ControlledValues>): Option<int> {
    if !ScalesLimits(values) || !Controls(resources, r) then None
    else
      match ScaledLimit(limits.Quantity(r), requests.Quantity(r), weighted.Quantity(r), gap.For(r))
      case None => None
      case Some(limit) => Some(AtScale(r, limit))
  }

  /** getScaledLimits. */
  function ScaledLimits(limits: ResourceList, requests: ResourceList, weighted: ResourceList, gap: ScaleParams,
                        resources: Option<seq<Resource>>, values: Option<ControlledValues>): ResourceList {
    ResourceList(LimitFor(Cpu, limits, requests, weighted, gap, resources, values),
                 LimitFor(Memory, limits, requests, weighted, gap, resources, values))
  }

  function CapEntry(request: Option<int>, limit: Option<int>): Option<int> {
    if request.Some? && limit.Some? && limit.value < request.value then limit else request
  }

  /** capRequestsToLimits, for requests that have both entries. */
  function CapRequests(requests: ResourceList, limits: ResourceList): ResourceList {
    ResourceList(CapEntry(requests.cpu, limits.cpu), CapEntry(requests.memory, limits.memory))
  }

  // ---------- proportional scaling ----------

  /** Without capping, the new limit is the largest one that keeps the ratio, and it grows with the request. */
  lemma ProportionalLaw(limit: int, request: int, weighted: int, more: int)
    requires request > 0 && limit >= 0 && weighted <= more
    requires limit * weighted / request <= MAX_INT64 && limit * more / request <= MAX_INT64
    requires weighted >= 0
    ensures Proportional(limit, request, weighted) * request <= limit * weighted
          < (Proportional(limit, request, weighted) + 1) * request
    ensures Proportional(limit, request, weighted) <= Proportional(limit, request, more)
  {
    MulMonotone(limit, 0, weighted);
    MulMonotone(limit, weighted, more);
    DivMonotone(0, limit * weighted, request);
    DivMonotone(limit * weighted, limit * more, request);
    DivBounds(limit * weighted, request);
  }

  lemma ProportionalCovers(limit: int, request: int, weighted: int)
    requires 0 < request <= limit && 0 <= weighted <= MAX_INT64
    ensures Proportional(limit, request, weighted) >= weighted
  {
    MulMonotone(weighted, request, limit);
    DivMonotone(weighted * request, limit * weighted, request);
    DivUnique(weighted * request, request, weighted);
  }

  /** Scaling a request away and back never raises the limit, and loses less than request / weighted + 1. */
  lemma ScalingBackAndForth(limit: int, request: int, weighted: int)
    requires request > 0 && weighted > 0 && 0 <= limit <= MAX_INT64
    requires limit * weighted / request <= MAX_INT64
    ensures var there := Proportional(limit, request, weighted);
            var back := Proportional(there, weighted, request);
            back <= limit && (limit - back) * weighted < request + weighted
  {
    var there := limit * weighted / request;
    MulMonotone(limit, 0, weighted);
    DivMonotone(0, limit * weighted, request);
    DivBounds(limit * weighted, request);
    MulMonotone(request, 0, there);
    assert there * request <= limit * weighted;
    DivMonotone(0, there * request, weighted);
    DivMonotone(there * request, limit * weighted, weighted);
    DivUnique(limit * weighted, weighted, limit);
    var back := there * request / weighted;
    DivBounds(there * request, weighted);
    BackLoss(limit, request, weighted, there, back);
  }

  /** Memory limits are rounded up to kilobytes on the way there and on the way back. The loss is as before, but the
      limit can also rise, by less than a kilobyte times request / weighted + 1. It does not rise exactly when the
      proportional limit on the way back is at most the whole kilobytes of the old one. */
  lemma ScalingMemoryBackAndForth(limit: int, request: int, weighted: int)
    requires request > 0 && weighted > 0 && 0 <= limit <= MAX_INT64
    requires limit * weighted / request <= MAX_INT64
    ensures var there := AtScale(Memory, Proportional(limit, request, weighted));
            var back := AtScale(Memory, Proportional(there, weighted, request));
            && (limit - back) * weighted < request + weighted
            && (back - limit) * weighted < KILO * (request + weighted)
            && (back <= limit <==> Proportional(there, weighted, request) <= limit / KILO * KILO)
  {
    hide Proportional, AtScale;
    var there := AtScale(Memory, Proportional(limit, request, weighted));
    var kept := Proportional(there, weighted, request);
    var back := AtScale(Memory, kept);
    ScalesDown(limit, request, weighted);
    MemoryRoundsUp(Proportional(limit, request, weighted));
    ScalesDown(there, weighted, request);
    MemoryRoundsUp(kept);
    BackLossRounded(limit, request, weighted, Proportional(limit, request, weighted), there, kept, back);
    BackGain(limit, request, weighted, Proportional(limit, request, weighted), there, kept, back);
    RoundedBelowIff(kept, limit);
  }

  lemma ScalesDown(limit: int, request: int, weighted: int)
    requires request > 0 && weighted > 0 && limit >= 0
    ensures var x := Proportional(limit, request, weighted);
            && x >= 0 && x * request <= limit * weighted
            && (limit * weighted < (x + 1) * request || (x == MAX_INT64 < limit * weighted / request))
  {
    MulMonotone(limit, 0, weighted);
    DivMonotone(0, limit * weighted, request);
    DivBounds(limit * weighted, request);
    var x, exact := Proportional(limit, request, weighted), limit * weighted / request;
    MulMonotone(request, x, exact);
  }

  lemma MemoryRoundsUp(x: int)
    requires x >= 0
    ensures x <= AtScale(Memory, x) < x + KILO
  {
    RoundAwayBounds(x, KILO);
  }

  lemma BackLossRounded(limit: int, request: int, weighted: int, quotient: int, there: int, kept: int, back: int)
    requires request > 0 && weighted > 0 && limit <= MAX_INT64
    requires limit * weighted < (quotient + 1) * request && quotient <= there && kept <= back
    requires there * request < (kept + 1) * weighted || kept == MAX_INT64
    ensures (limit - back) * weighted < request + weighted
  {
    if kept == MAX_INT64 {
      MulMonotone(weighted, limit - back, 0);
    } else {
      MulMonotone(request, quotient + 1, there + 1);
      BackLoss(limit, request, weighted, there, kept);
      MulMonotone(weighted, limit - back, limit - kept);
    }
  }

  lemma RoundedBelowIff(x: int, bound: int)
    requires x >= 0 && bound >= 0
    ensures AtScale(Memory, x) <= bound <==> x <= bound / KILO * KILO
  {
    RoundAwayBounds(x, KILO);
    hide RoundAway;
    var m := bound / KILO;
    if x <= m * KILO {
      RoundAwayBelow(x, m, KILO);
    }
  }

  lemma BackGain(limit: int, request: int, weighted: int, quotient: int, there: int, exact: int, back: int)
    requires request > 0 && weighted > 0
    requires quotient * request <= limit * weighted && there < quotient + KILO
    requires exact * weighted <= there * request && back < exact + KILO
    ensures (back - limit) * weighted < KILO * (request + weighted)
  {
    MulMonotone(request, there, quotient + KILO);
    MulMonotone(weighted, back + 1, exact + KILO);
    assert (quotient + KILO) * request == quotient * request + KILO * request;
    assert (exact + KILO) * weighted == exact * weighted + KILO * weighted;
    assert (back + 1) * weighted == back * weighted + weighted;
    assert (back - limit) * weighted == back * weighted - limit * weighted;
  }

  /** Where both limits are whole kilobytes in exact proportion, the old one comes back. */
  lemma WholeKilobytesComeBack(limit: int, request: int, weighted: int, n: int, m: int)
    requires request > 0 && weighted > 0 && 0 <= m * KILO <= MAX_INT64 && 0 <= limit <= MAX_INT64
    requires limit == n * KILO && limit * weighted == m * KILO * request
    ensures var there := AtScale(Memory, Proportional(limit, request, weighted));
            there == m * KILO && AtScale(Memory, Proportional(there, weighted, request)) == limit
  {
    DivUnique(limit * weighted, request, m * KILO);
    DivUnique(limit * weighted, weighted, limit);
    RoundAwayExact(m, KILO);
    RoundAwayExact(n, KILO);
  }

  /** From a limit of 4000 bytes to 3000 and back to 5000. */
  lemma MemoryLimitRises()
    ensures var there := AtScale(Memory, Proportional(4 * KILO, 3 * KILO, 2 * KILO));
            there == 3 * KILO && AtScale(Memory, Proportional(there, 2 * KILO, 3 * KILO)) == 5 * KILO
  {
  }

  lemma BackLoss(limit: int, request: int, weighted: int, there: int, back: int)
    requires limit * weighted < (there + 1) * request
    requires there * request < (back + 1) * weighted
    ensures (limit - back) * weighted < request + weighted
  {
  }

  // ---------- gap parameters ----------

  predicate GapCovers(p: ChangeParams) {
    !HasGap(p) || (p.percentage.Some? && p.percentage.value > 0) || (p.value.Some? && p.value.value >= 0)
  }

  lemma PercentageCovers(weighted: int, percentage: int)
    requires weighted >= 0 && percentage >= 0
    ensures weighted * percentage / 100 + weighted >= weighted
  {
  }

  /** With gap parameters the new limit is the greater of the two candidates, unless that does not fit 64 bits. */
  lemma GapTakesGreater(limit: int, request: int, weighted: int, p: ChangeParams)
    requires limit != 0 && request != 0 && request != limit && HasGap(p)
    requires 0 <= OverValue(weighted, p) <= MAX_INT64 && 0 <= OverPercentage(weighted, p) <= MAX_INT64
    ensures var l := ScaledLimit(limit, request, weighted, p).value;
            && (l == OverValue(weighted, p) || l == OverPercentage(weighted, p))
            && l >= OverValue(weighted, p) && l >= OverPercentage(weighted, p)
  {
  }

  /** For a positive request of a container whose limit is above it, the new limit covers the new request exactly
      when the gap parameters are not a bare negative value. Capping to 64 bits never breaks this. */
  lemma LimitCoversRequest(limit: int, request: int, weighted: int, p: ChangeParams)
    requires 0 < request < limit && 0 < weighted <= MAX_INT64 && NonNegative(p)
    ensures ScaledLimit(limit, request, weighted, p).value >= weighted <==> GapCovers(p)
  {
    if !HasGap(p) {
      ProportionalCovers(limit, request, weighted);
    } else if p.percentage.Some? {
      PercentageCovers(weighted, p.percentage.value);
    }
  }

  lemma ScaledLimitCovers(limit: int, request: int, weighted: int, p: ChangeParams)
    requires 0 <= request <= limit && 0 < limit && 0 <= weighted <= MAX_INT64
    requires NonNegative(p) && (GapCovers(p) || request == 0 || request == limit)
    ensures ScaledLimit(limit, request, weighted, p).Some? && ScaledLimit(limit, request, weighted, p).value >= weighted
  {
    if 0 < request < limit {
      if !HasGap(p) {
        ProportionalCovers(limit, request, weighted);
      } else if p.percentage.Some? {
        PercentageCovers(weighted, p.percentage.value);
      }
    }
  }

  /** A bare negative value takes the limit below the new request by that much, but not below zero. */
  lemma BareNegativeGap(limit: int, request: int, weighted: int, p: ChangeParams)
    requires 0 < request < limit && 0 <= weighted <= MAX_INT64 && NonNegative(p) && !GapCovers(p)
    ensures p.value.Some? && ScaledLimit(limit, request, weighted, p) == Some(Max(weighted + p.value.value, 0))
  {
  }

  /** For a resource the policy controls together with its limit, the step that caps requests changes nothing. */
  lemma CapIsNoOp(limits: ResourceList, requests: ResourceList, weighted: ResourceList, gap: ScaleParams,
                  resources: Option<seq<Resource>>, values: Option<ControlledValues>, r: Resource)
    requires ScalesLimits(values) && Controls(resources, r)
    requires 0 <= requests.Quantity(r) <= limits.Quantity(r) && 0 < limits.Quantity(r)
    requires weighted.Has(r) && 0 <= weighted.Quantity(r) <= MAX_INT64
    requires NonNegative(gap.For(r)) && GapCovers(gap.For(r))
    ensures var scaled := ScaledLimits(limits, requests, weighted, gap, resources, values);
            scaled.Has(r) && CapRequests(weighted, scaled).Entry(r) == weighted.Entry(r)
  {
    var p, limit, request, w := gap.For(r), limits.Quantity(r), requests.Quantity(r), weighted.Quantity(r);
    ScaledLimitCovers(limit, request, w, p);
    var l := ScaledLimit(limit, request, w, p);
    RoundAwayBounds(l.value, KILO);
  }
}
