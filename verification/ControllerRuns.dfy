/** Whole runs of the controller: reconciliations with any input and any failing call, pod events, and edits of the
    target by others, in any order. */
module ControllerRuns {
  import opened GoNumerics
  import opened HvpaTypes
  import opened IntervalWeights
  import opened VerticalScaling
  import opened ReplicaScaling
  import opened Controller

  datatype Event =
    | Tick(o: Observation)
    | Pod(e: PodEvent)
    | Edit(replicas: int, containers: seq<Container>)

  ghost function Next(spec: HvpaSpec, s: State, event: Event): State {
    match event
    case Tick(o) => Reconciled(spec, s, o)
    case Pod(e) => Delivered(s, e)
    case Edit(replicas, containers) => s.(replicas := replicas, containers := containers)
  }

  ghost function Run(spec: HvpaSpec, s: State, events: seq<Event>): State {
    if events == [] then s else Next(spec, Run(spec, s, Front(events)), Last(events))
  }

  function Front(events: seq<Event>): seq<Event>
    requires events != []
  {
    events[..|events| - 1]
  }

  function Last(events: seq<Event>): Event
    requires events != []
  {
    events[|events| - 1]
  }

  // ---------- what is counted ----------

  /** The tick scales the target. */
  ghost predicate Scales(spec: HvpaSpec, s: State, event: Event) {
    event.Tick? && Effective(spec, s, event.o) && event.o.targetOk
  }

  /** The tick scales the target and its status update is not lost. */
  ghost predicate RecordsScaling(spec: HvpaSpec, s: State, event: Event) {
    Scales(spec, s, event) && event.o.statusOk
  }

  ghost predicate SetsFlag(s: State, event: Event) {
    event.Pod? && SetsOverride(s, event.e)
  }

  function One(b: bool): nat {
    if b then 1 else 0
  }

  ghost function Recorded(spec: HvpaSpec, s: State, events: seq<Event>): nat {
    if events == [] then 0
    else Recorded(spec, s, Front(events)) + One(RecordsScaling(spec, Run(spec, s, Front(events)), Last(events)))
  }

  ghost function Lost(spec: HvpaSpec, s: State, events: seq<Event>): nat {
    if events == [] then 0
    else
      var before := Run(spec, s, Front(events));
      Lost(spec, s, Front(events))
      + One(Scales(spec, before, Last(events)) && !RecordsScaling(spec, before, Last(events)))
  }

  ghost function Scalings(spec: HvpaSpec, s: State, events: seq<Event>): nat {
    if events == [] then 0
    else Scalings(spec, s, Front(events)) + One(Scales(spec, Run(spec, s, Front(events)), Last(events)))
  }

  ghost function FlagSets(spec: HvpaSpec, s: State, events: seq<Event>): nat {
    if events == [] then 0
    else FlagSets(spec, s, Front(events)) + One(SetsFlag(Run(spec, s, Front(events)), Last(events)))
  }

  // ---------- time ----------

  function Begin(event: Event): Option<int> {
    match event
    case Tick(o) => Some(o.now)
    case Pod(e) => Some(e.at)
    case Edit(_, _) => None
  }

  function End(event: Event): Option<int> {
    match event
    case Tick(o) => Some(o.recordedAt)
    case Pod(e) => Some(e.at)
    case Edit(_, _) => None
  }

  /** The clock never goes back: not within a tick, and not from one event to a later one. */
  ghost predicate TimeOrdered(events: seq<Event>) {
    && (forall i :: 0 <= i < |events| && events[i].Tick? ==> events[i].o.now <= events[i].o.recordedAt)
    && (forall i, j :: 0 <= i < j < |events| && End(events[i]).Some? && Begin(events[j]).Some? ==>
          End(events[i]).value <= Begin(events[j]).value)
  }

  ghost predicate TicksWithin(events: seq<Event>, from: int, to: int) {
    forall i :: 0 <= i < |events| && events[i].Tick? ==> from <= events[i].o.recordedAt <= to
  }

  lemma FrontKeeps(events: seq<Event>, from: int, to: int)
    requires events != []
    ensures TimeOrdered(events) ==> TimeOrdered(Front(events))
    ensures TicksWithin(events, from, to) ==> TicksWithin(Front(events), from, to)
  {
  }

  // ---------- every scaling without override waits out a window ----------

  ghost predicate WindowsAtLeast(spec: HvpaSpec, w: int) {
    && spec.hpaUp.Window() >= w && spec.hpaDown.Window() >= w
    && spec.vpaUp.Window() >= w && spec.vpaDown.Window() >= w
  }

  lemma ApplyWaits(ctx: Context, c: Container, rec: Recommendation)
    requires !ctx.override && WithinWindow(ctx.elapsed, ctx.spec.vpaUp.Window())
             && WithinWindow(ctx.elapsed, ctx.spec.vpaDown.Window())
    ensures AppliedTarget(ctx, c, rec) == EMPTY
  {
    hide NewRequests, Difference, NegatedDifference, Threshold;
    assert forall r: Resource :: !Applies(ctx, c, rec, r);
  }

  lemma {:induction false} NoChangeWithinWindow(ctx: Context, pod: seq<Container>, recs: seq<Recommendation>)
    requires !ctx.override && WithinWindow(ctx.elapsed, ctx.spec.vpaUp.Window())
             && WithinWindow(ctx.elapsed, ctx.spec.vpaDown.Window())
    ensures !Process(ctx, pod, recs).changed
  {
    if recs != [] {
      var p, rec := Process(ctx, pod, recs[..|recs| - 1]), recs[|recs| - 1];
      NoChangeWithinWindow(ctx, pod, recs[..|recs| - 1]);
      if IndexOf(p.containers, rec.container) < |p.containers| {
        ApplyWaits(ctx, p.containers[IndexOf(p.containers, rec.container)], rec);
      }
      hide AppliedTarget, Scaled, BlockedTarget;
    }
  }

  lemma NothingNeededWithinWindows(spec: HvpaSpec, s: State, o: Observation)
    requires var elapsed := Elapsed(s.lastScaleTime, o.now);
             && !s.override
             && WithinWindow(elapsed, spec.hpaUp.Window()) && WithinWindow(elapsed, spec.hpaDown.Window())
             && WithinWindow(elapsed, spec.vpaUp.Window()) && WithinWindow(elapsed, spec.vpaDown.Window())
    ensures !Needed(spec, s, o)
  {
    if VpaOf(spec, o).Some? && o.vpa.recommendation.Some? {
      NoChangeWithinWindow(VerticalContext(spec, s, o), s.containers, o.vpa.recommendation.value);
    }
    hide Process, VpaWeight, WeightedReplicas, ScaleOutLimited, Trusted;
  }

  /** Without override, the target changes only when at least the shortest window has passed. */
  lemma ScalingWaits(spec: HvpaSpec, s: State, o: Observation, w: int)
    requires WindowsAtLeast(spec, w) && Effective(spec, s, o) && !s.override
    ensures s.lastScaleTime.Some? ==> o.now - s.lastScaleTime.value >= w
  {
    hide Needed;
    if s.lastScaleTime.Some? && o.now - s.lastScaleTime.value < w {
      NothingNeededWithinWindows(spec, s, o);
    }
  }

  // ---------- rate bound ----------

  /** Overrides used up so far: each one was set in the run or at its start, and is cleared by a recorded scaling. */
  ghost function Spent(spec: HvpaSpec, s: State, events: seq<Event>): int {
    FlagSets(spec, s, events) + One(s.override) - One(Run(spec, s, events).override)
  }

  ghost predicate LastScalingIn(events: seq<Event>, last: Option<int>) {
    last.Some? && exists i :: 0 <= i < |events| && events[i].Tick? && events[i].o.recordedAt == last.value
  }

  /** How a single event moves the flag and the time of the last scaling. */
  lemma StepEffect(spec: HvpaSpec, s: State, event: Event)
    ensures var t, records := Next(spec, s, event), RecordsScaling(spec, s, event);
            && t.lastScaleTime == (if records then Some(event.o.recordedAt) else s.lastScaleTime)
            && t.override == (if records then false else s.override || SetsFlag(s, event))
            && (SetsFlag(s, event) ==> !s.override && !records)
  {
    hide Needed, VerticalPass, Weight, NewReplicas, BlockedNow, Validated, IsScalingOff, FirstRecent, AreResourcesEqual;
  }

  /** So an event spends an override exactly when it records a scaling while the flag is set. */
  lemma StepSpends(spec: HvpaSpec, s: State, events: seq<Event>)
    requires events != []
    ensures var before := Run(spec, s, Front(events));
            Spent(spec, s, events) == Spent(spec, s, Front(events))
                                      + One(RecordsScaling(spec, before, Last(events)) && before.override)
  {
    StepEffect(spec, Run(spec, s, Front(events)), Last(events));
    hide Next, RecordsScaling, SetsFlag;
  }

  /** The recorded scalings that found the flag set. */
  ghost function Overridden(spec: HvpaSpec, s: State, events: seq<Event>): nat {
    if events == [] then 0
    else
      var before := Run(spec, s, Front(events));
      Overridden(spec, s, Front(events)) + One(RecordsScaling(spec, before, Last(events)) && before.override)
  }

  /** Overrides are conserved: those set in a run and at its start are the ones used up by recorded scalings and the one
      that is set at its end. In particular, between two recorded scalings the flag is set at most once. */
  lemma {:induction false} OverridesConserved(spec: HvpaSpec, s: State, events: seq<Event>)
    ensures FlagSets(spec, s, events) + One(s.override)
         == Overridden(spec, s, events) + One(Run(spec, s, events).override)
    ensures Overridden(spec, s, events) <= Recorded(spec, s, events)
    ensures Recorded(spec, s, events) == 0 ==> FlagSets(spec, s, events) <= 1
  {
    hide Next, RecordsScaling, SetsFlag;
    if events != [] {
      OverridesConserved(spec, s, Front(events));
      StepSpends(spec, s, events);
    }
  }

  /** The time that `k` windows take. */
  function Span(w: int, k: int): int {
    w * k
  }

  /** The pace of `n` recorded scalings of which `spent` used an override. */
  ghost predicate Paced(events: seq<Event>, t: State, n: nat, spent: int, from: int, w: int) {
    && spent >= 0
    && (n > 0 ==>
          LastScalingIn(events, t.lastScaleTime) && from <= t.lastScaleTime.value
          && Span(w, n - 1 - spent) <= t.lastScaleTime.value - from)
  }

  lemma LastScalingEarlier(events: seq<Event>, before: State)
    requires events != [] && TimeOrdered(events) && LastScalingIn(Front(events), before.lastScaleTime)
    ensures LastScalingIn(events, before.lastScaleTime)
    ensures Last(events).Tick? ==> before.lastScaleTime.value <= Last(events).o.now
  {
  }

  /** The slack after one more scaling, `gap` after the start and `more` after the one before. */
  lemma MoreSlack(w: int, n: int, spent: int, gap: int, more: int, override: bool)
    requires w > 0 && gap >= 0 && more >= 0 && spent >= 0 && n >= 0
    requires n > 0 ==> Span(w, n - 1 - spent) <= gap - more && (override || more >= w)
    ensures Span(w, n - spent - One(override)) <= gap
  {
  }

  /** A recorded scaling comes later than the one before, by a window at least unless the flag was set. */
  lemma ScalingIsLater(spec: HvpaSpec, events: seq<Event>, before: State, from: int, to: int, w: int)
    requires events != [] && WindowsAtLeast(spec, w) && TimeOrdered(events) && TicksWithin(events, from, to)
    requires RecordsScaling(spec, before, Last(events))
    ensures var at := Last(events).o.recordedAt;
            && from <= at && LastScalingIn(events, Some(at))
            && (LastScalingIn(Front(events), before.lastScaleTime) ==>
                  && before.lastScaleTime.value <= at
                  && (before.override || at - before.lastScaleTime.value >= w))
  {
    var o := Last(events).o;
    assert events[|events| - 1].Tick? && events[|events| - 1].o == o;
    if LastScalingIn(Front(events), before.lastScaleTime) {
      LastScalingEarlier(events, before);
      if !before.override {
        ScalingWaits(spec, before, o, w);
      }
    }
    hide Effective, WindowsAtLeast;
  }

  lemma PaceOfScaling(spec: HvpaSpec, events: seq<Event>, before: State, n: nat, spent: int, from: int, to: int, w: int)
    requires events != [] && w > 0 && WindowsAtLeast(spec, w) && TimeOrdered(events) && TicksWithin(events, from, to)
    requires Paced(Front(events), before, n, spent, from, w) && RecordsScaling(spec, before, Last(events))
    ensures Paced(events, Next(spec, before, Last(events)), n + 1, spent + One(before.override), from, w)
  {
    hide Next, Effective, WindowsAtLeast, TimeOrdered, TicksWithin, Span;
    StepEffect(spec, before, Last(events));
    ScalingIsLater(spec, events, before, from, to, w);
    var at := Last(events).o.recordedAt;
    MoreSlack(w, n, spent, at - from, if n > 0 then at - before.lastScaleTime.value else 0, before.override);
  }

  lemma PaceKept(spec: HvpaSpec, events: seq<Event>, before: State, n: nat, spent: int, from: int, to: int, w: int)
    requires events != [] && w > 0 && WindowsAtLeast(spec, w) && TimeOrdered(events) && TicksWithin(events, from, to)
    requires Paced(Front(events), before, n, spent, from, w)
    ensures var records := RecordsScaling(spec, before, Last(events));
            Paced(events, Next(spec, before, Last(events)), n + One(records),
                  spent + One(records && before.override), from, w)
  {
    hide Next, Effective, WindowsAtLeast, TimeOrdered, TicksWithin, Span, LastScalingIn;
    if RecordsScaling(spec, before, Last(events)) {
      PaceOfScaling(spec, events, before, n, spent, from, to, w);
    } else {
      StepEffect(spec, before, Last(events));
      hide RecordsScaling;
      if n > 0 {
        LastScalingEarlier(events, before);
      }
    }
  }

  lemma {:induction false} SpacedScalings(spec: HvpaSpec, s: State, events: seq<Event>, from: int, to: int, w: int)
    requires w > 0 && WindowsAtLeast(spec, w) && TimeOrdered(events) && TicksWithin(events, from, to)
    ensures Paced(events, Run(spec, s, events), Recorded(spec, s, events), Spent(spec, s, events), from, w)
  {
    hide Next, RecordsScaling, SetsFlag, WindowsAtLeast, Paced;
    if events == [] {
      NothingPaced(s, from, w);
    } else {
      FrontKeeps(events, from, to);
      SpacedScalings(spec, s, Front(events), from, to, w);
      StepSpends(spec, s, events);
      PaceKept(spec, events, Run(spec, s, Front(events)), Recorded(spec, s, Front(events)),
               Spent(spec, s, Front(events)), from, to, w);
    }
  }

  lemma NothingPaced(t: State, from: int, w: int)
    ensures Paced([], t, 0, 0, from, w)
  {
  }

  lemma QuotientBound(w: int, k: int, gap: int, t: int)
    requires w > 0 && Span(w, k) <= gap <= t && t >= 0
    ensures k <= t / w
  {
    DivBounds(t, w);
    if k > t / w {
      MulMonotone(w, t / w + 1, k);
    }
  }

  /** Rate bound. Over a span of time, the scalings recorded in any run are at most one for each shortest window that
      fits, plus one, plus the deliveries that set the override, plus one if it was set at the start. */
  lemma RateBound(spec: HvpaSpec, s: State, events: seq<Event>, from: int, to: int, w: int)
    requires w > 0 && WindowsAtLeast(spec, w) && TimeOrdered(events) && TicksWithin(events, from, to) && from <= to
    ensures Recorded(spec, s, events) <= (to - from) / w + 1 + FlagSets(spec, s, events) + One(s.override)
  {
    hide Run, Recorded, FlagSets, WindowsAtLeast, TimeOrdered, TicksWithin, Span;
    SpacedScalings(spec, s, events, from, to, w);
    var n, spent, t := Recorded(spec, s, events), Spent(spec, s, events), Run(spec, s, events);
    if n > 0 {
      LastScalingWithin(events, t, from, to);
      QuotientBound(w, n - 1 - spent, t.lastScaleTime.value - from, to - from);
    } else {
      DivMonotone(0, to - from, w);
    }
  }

  lemma LastScalingWithin(events: seq<Event>, t: State, from: int, to: int)
    requires TicksWithin(events, from, to) && LastScalingIn(events, t.lastScaleTime)
    ensures t.lastScaleTime.value <= to
  {
    var i :| 0 <= i < |events| && events[i].Tick? && events[i].o.recordedAt == t.lastScaleTime.value;
  }

  lemma {:induction false} EveryScalingCounted(spec: HvpaSpec, s: State, events: seq<Event>)
    ensures Scalings(spec, s, events) == Recorded(spec, s, events) + Lost(spec, s, events)
  {
    hide Effective, Run;
    if events != [] {
      EveryScalingCounted(spec, s, Front(events));
    }
  }

  /** The target itself is changed no more often than that, except for scalings whose status update is lost. */
  lemma TargetRateBound(spec: HvpaSpec, s: State, events: seq<Event>, from: int, to: int, w: int)
    requires w > 0 && WindowsAtLeast(spec, w) && TimeOrdered(events) && TicksWithin(events, from, to) && from <= to
    ensures Scalings(spec, s, events)
         <= (to - from) / w + 1 + FlagSets(spec, s, events) + One(s.override) + Lost(spec, s, events)
  {
    RateBound(spec, s, events, from, to, w);
    EveryScalingCounted(spec, s, events);
  }
}
