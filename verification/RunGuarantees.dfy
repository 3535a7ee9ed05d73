/** What holds over whole runs besides the rate bound: causes of overrides, bounds that are never left,
    the record of blocked scalings, and convergence. */
module RunGuarantees {
  import opened GoNumerics
  import opened HvpaTypes
  import opened LimitScaling
  import opened IntervalWeights
  import opened BlockedScalings
  import opened VerticalScaling
  import opened VerticalDecision
  import opened ReplicaScaling
  import opened Controller
  import opened ControllerRuns

  // ---------- every override has its own cause ----------

  ghost predicate SetByOom(s: State, event: Event) {
    SetsFlag(s, event) && !event.e.evicted
  }

  ghost predicate SetByEviction(s: State, event: Event) {
    SetsFlag(s, event) && event.e.evicted
  }

  /** When the OOM kill that set the flag finished. */
  ghost function OomTime(s: State, event: Event): int
    requires SetByOom(s, event)
  {
    event.e.statuses[FirstRecent(event.e.statuses, s.lastScaleTime)].last.value.finishedAt
  }

  /** The finishing times of the OOM kills that set the flag in a run, in order. */
  ghost function OomTimes(spec: HvpaSpec, s: State, events: seq<Event>): seq<int> {
    if events == [] then []
    else
      var before := Run(spec, s, Front(events));
      OomTimes(spec, s, Front(events)) + if SetByOom(before, Last(events)) then [OomTime(before, Last(events))] else []
  }

  ghost function EvictionSets(spec: HvpaSpec, s: State, events: seq<Event>): nat {
    if events == [] then 0
    else EvictionSets(spec, s, Front(events)) + One(SetByEviction(Run(spec, s, Front(events)), Last(events)))
  }

  lemma {:induction false} EverySetHasACause(spec: HvpaSpec, s: State, events: seq<Event>)
    ensures FlagSets(spec, s, events) == |OomTimes(spec, s, events)| + EvictionSets(spec, s, events)
  {
    hide Run, SetsOverride, FirstRecent;
    if events != [] {
      EverySetHasACause(spec, s, Front(events));
    }
  }

  /** No pod reports a termination before it has happened. */
  ghost predicate TerminationsPast(events: seq<Event>) {
    forall i, k :: 0 <= i < |events| && events[i].Pod? && 0 <= k < |events[i].e.statuses| ==>
      (events[i].e.statuses[k].last.Some? ==> events[i].e.statuses[k].last.value.finishedAt <= events[i].e.at)
  }

  ghost predicate Increasing(times: seq<int>) {
    forall i, j :: 0 <= i < j < |times| ==> times[i] < times[j]
  }

  ghost predicate NotLaterThanAnEvent(events: seq<Event>, t: int) {
    exists i :: 0 <= i < |events| && End(events[i]).Some? && t <= End(events[i]).value
  }

  lemma EarlierThanLast(events: seq<Event>, t: int)
    requires events != [] && TimeOrdered(events) && NotLaterThanAnEvent(Front(events), t)
    ensures NotLaterThanAnEvent(events, t)
    ensures Begin(Last(events)).Some? ==> t <= Begin(Last(events)).value
    ensures End(Last(events)).Some? ==> t <= End(Last(events)).value
  {
  }

  /** The last cause is in the past, and as long as no scaling has been recorded since, its flag is still set. */
  ghost predicate CausesInOrder(events: seq<Event>, t: State, times: seq<int>) {
    && Increasing(times)
    && (times != [] ==>
          && NotLaterThanAnEvent(events, times[|times| - 1])
          && (t.override || (t.lastScaleTime.Some? && t.lastScaleTime.value >= times[|times| - 1])))
  }

  lemma OomIsRecent(s: State, event: Event)
    requires SetByOom(s, event)
    ensures var k := FirstRecent(event.e.statuses, s.lastScaleTime);
            && k < |event.e.statuses| && event.e.statuses[k].last.Some?
            && (s.lastScaleTime.Some? ==> OomTime(s, event) > s.lastScaleTime.value)
  {
  }

  lemma OomIsPast(events: seq<Event>, before: State)
    requires events != [] && TerminationsPast(events) && SetByOom(before, Last(events))
    ensures NotLaterThanAnEvent(events, OomTime(before, Last(events)))
  {
    var event := Last(events);
    OomIsRecent(before, event);
    assert events[|events| - 1].e.statuses == event.e.statuses;
    assert End(events[|events| - 1]) == Some(event.e.at);
  }

  lemma CauseStep(spec: HvpaSpec, events: seq<Event>, before: State, times: seq<int>)
    requires events != [] && TimeOrdered(events) && TerminationsPast(events)
    requires CausesInOrder(Front(events), before, times)
    ensures CausesInOrder(events, Next(spec, before, Last(events)),
                          times + if SetByOom(before, Last(events)) then [OomTime(before, Last(events))] else [])
  {
    var event, t := Last(events), Next(spec, before, Last(events));
    hide Next, RecordsScaling, SetsFlag, OomTime, TimeOrdered, TerminationsPast, NotLaterThanAnEvent;
    StepEffect(spec, before, event);
    OnlyTicksRecord(spec, before, event);
    if times != [] {
      EarlierThanLast(events, times[|times| - 1]);
    }
    if SetByOom(before, event) {
      OomIsRecent(before, event);
      OomIsPast(events, before);
      var more := times + [OomTime(before, event)];
      assert times != [] ==> times[|times| - 1] < OomTime(before, event);
      assert t.override && more[|more| - 1] == OomTime(before, event);
    }
  }

  lemma OnlyTicksRecord(spec: HvpaSpec, s: State, event: Event)
    ensures RecordsScaling(spec, s, event) ==> event.Tick?
  {
    hide Effective;
  }

  /** Causality of overrides. The OOM kills that set the flag in a run finished at strictly increasing times, so each
      one is a different termination, and delivering a pod again never buys a second override with an old OOM kill. */
  lemma {:induction false} OomCausesDistinct(spec: HvpaSpec, s: State, events: seq<Event>)
    requires TimeOrdered(events) && TerminationsPast(events)
    ensures CausesInOrder(events, Run(spec, s, events), OomTimes(spec, s, events))
  {
    hide Next, SetByOom, OomTime, CausesInOrder;
    if events == [] {
      NoCauses(s);
    } else {
      FrontKeeps(events, 0, 0);
      assert forall i :: 0 <= i < |Front(events)| ==> Front(events)[i] == events[i];
      OomCausesDistinct(spec, s, Front(events));
      CauseStep(spec, events, Run(spec, s, Front(events)), OomTimes(spec, s, Front(events)));
    }
  }

  lemma NoCauses(s: State)
    ensures CausesInOrder([], s, [])
  {
  }

  /** The finishing times of all OOM kills that the delivered pods report. */
  ghost function DeliveredOoms(events: seq<Event>): set<int> {
    set i, k | 0 <= i < |events| && events[i].Pod? && 0 <= k < |events[i].e.statuses|
               && events[i].e.statuses[k].last.Some? && events[i].e.statuses[k].last.value.oomKilled
      :: events[i].e.statuses[k].last.value.finishedAt
  }

  lemma {:induction false} CausesAreDelivered(spec: HvpaSpec, s: State, events: seq<Event>)
    ensures forall t :: t in OomTimes(spec, s, events) ==> t in DeliveredOoms(events)
  {
    hide Run;
    if events != [] {
      CausesAreDelivered(spec, s, Front(events));
      var n := |events| - 1;
      forall t | t in DeliveredOoms(Front(events))
        ensures t in DeliveredOoms(events)
      {
        var i, k :| 0 <= i < n && Front(events)[i].Pod? && 0 <= k < |Front(events)[i].e.statuses|
                    && Front(events)[i].e.statuses[k].last.Some? && Front(events)[i].e.statuses[k].last.value.oomKilled
                    && t == Front(events)[i].e.statuses[k].last.value.finishedAt;
        assert events[i] == Front(events)[i];
      }
      var before := Run(spec, s, Front(events));
      if SetByOom(before, Last(events)) {
        OomIsRecent(before, Last(events));
        assert events[n].e.statuses == Last(events).e.statuses;
        assert OomTime(before, Last(events)) in DeliveredOoms(events);
      }
    }
  }

  lemma {:induction false} IncreasingIsShort(times: seq<int>, all: set<int>)
    requires Increasing(times) && forall t :: t in times ==> t in all
    ensures |times| <= |all|
  {
    if times != [] {
      var n := |times| - 1;
      forall t | t in times[..n]
        ensures t in all - {times[n]}
      {
        var i :| 0 <= i < n && times[i] == t;
      }
      assert times[n] in times;
      assert |all - {times[n]}| == |all| - 1;
      IncreasingIsShort(times[..n], all - {times[n]});
    }
  }

  /** Rate bound by causes: besides one scaling for each window, a run records at most one scaling for each distinct
      OOM kill that was delivered, for each eviction that set the flag, and for a flag set at the start. */
  lemma RateBoundByCauses(spec: HvpaSpec, s: State, events: seq<Event>, from: int, to: int, w: int)
    requires w > 0 && WindowsAtLeast(spec, w) && TimeOrdered(events) && TicksWithin(events, from, to) && from <= to
    requires TerminationsPast(events)
    ensures Recorded(spec, s, events)
         <= (to - from) / w + 1 + |DeliveredOoms(events)| + EvictionSets(spec, s, events) + One(s.override)
  {
    RateBound(spec, s, events, from, to, w);
    EverySetHasACause(spec, s, events);
    OomCausesDistinct(spec, s, events);
    CausesAreDelivered(spec, s, events);
    IncreasingIsShort(OomTimes(spec, s, events), DeliveredOoms(events));
  }

  const NO_CHANGE := ChangeParams(None, None)
  const NO_CHANGES := ScaleParams(NO_CHANGE, NO_CHANGE)
  const SLOW := ScaleType(None, Some(1000), NO_CHANGES)

  /** Purely horizontal scaling with windows of a thousand seconds. */
  const HORIZONTAL := HvpaSpec(true, true, SLOW, SLOW, 1, 10, false, SLOW, SLOW, None, NO_CHANGES, [], None)

  function Wants(replicas: int, now: int): Event {
    Tick(Observation(HpaStatus(replicas, false), VpaStatus([], None), now, now, true, true, true, true))
  }

  /** An eviction is not compared with the last scaling: the same evicted pod, delivered twice, buys two overrides,
      and the run scales twice within a few seconds. */
  lemma EvictionBuysOverrideAgain()
    ensures var node := Some([NodeCondition(true, true)]);
            var evicted := Pod(PodEvent(true, true, [], true, node, [], 5, true));
            var s := State(1, [], Some(0), false, [], 0, 0, (0, 0), None);
            var first := [evicted, Wants(2, 5)];
            && RecordsScaling(HORIZONTAL, Run(HORIZONTAL, s, [evicted]), Wants(2, 5))
            && SetsFlag(Run(HORIZONTAL, s, first), evicted)
            && RecordsScaling(HORIZONTAL, Run(HORIZONTAL, s, first + [evicted]), Wants(3, 6))
  {
    var node := Some([NodeCondition(true, true)]);
    var e := PodEvent(true, true, [], true, node, [], 5, true);
    var evicted := Pod(e);
    var s := State(1, [], Some(0), false, [], 0, 0, (0, 0), None);
    assert e.node.value[0].holds;
    assert UnderMemoryPressure(e);
    var s1, first := Run(HORIZONTAL, s, [evicted]), [evicted, Wants(2, 5)];
    RunOneMore(HORIZONTAL, s, [], evicted);
    assert s1 == Delivered(s, e) == s.(override := true);
    HorizontalStep(s1, 2, 5);
    RunOneMore(HORIZONTAL, s, [evicted], Wants(2, 5));
    assert first == [evicted] + [Wants(2, 5)];
    hide RecordsScaling, Reconciled, Run, UnderMemoryPressure;
    var s2 := Run(HORIZONTAL, s, first);
    RunOneMore(HORIZONTAL, s, first, evicted);
    assert SetsFlag(s2, evicted);
    HorizontalStep(Delivered(s2, e), 3, 6);
  }

  /** Exactly when a pod that is delivered again after a recorded scaling sets the flag once more, all its terminations
      being older than the scaling: when it was evicted and its node is under memory pressure, and it has the requests
      of the new template. */
  lemma RedeliverySetsIff(spec: HvpaSpec, s: State, tick: Event, e: PodEvent)
    requires RecordsScaling(spec, s, tick)
    requires forall k :: 0 <= k < |e.statuses| && e.statuses[k].last.Some? ==>
               e.statuses[k].last.value.finishedAt <= tick.o.recordedAt
    ensures var t := Next(spec, s, tick);
            SetsFlag(t, Pod(e)) <==>
              && e.evicted && UnderMemoryPressure(e)
              && e.scheduled && e.selected && e.statusOk && AreResourcesEqual(e.containers, t.containers)
  {
    StepEffect(spec, s, tick);
    hide Next, RecordsScaling, AreResourcesEqual;
  }

  lemma RunOneMore(spec: HvpaSpec, s: State, events: seq<Event>, event: Event)
    ensures Run(spec, s, events + [event]) == Next(spec, Run(spec, s, events), event)
    ensures events == [] ==> Run(spec, s, [event]) == Next(spec, s, event)
  {
  }

  lemma HorizontalStep(s: State, replicas: int, now: int)
    requires s.override && replicas == s.replicas + 1 && replicas > 0
    ensures RecordsScaling(HORIZONTAL, s, Wants(replicas, now))
    ensures var t := Next(HORIZONTAL, s, Wants(replicas, now));
            !t.override && t.replicas == replicas && t.containers == s.containers && t.lastScaleTime == Some(now)
  {
    var o := Wants(replicas, now).o;
    assert Weight(HORIZONTAL, s, o) == 0;
    assert NewReplicas(HORIZONTAL, s, o) == replicas;
    assert !VerticalPass(HORIZONTAL, s, o).changed;
    var off := [HORIZONTAL.hpaUp, HORIZONTAL.hpaUp, HORIZONTAL.vpaUp, HORIZONTAL.vpaUp];
    assert off[0] == SLOW;
    assert !IsOff(HORIZONTAL, SLOW, now);
    assert Effective(HORIZONTAL, s, o);
  }

  // ---------- bounds that are never left ----------

  ghost predicate InBand(spec: HvpaSpec, replicas: int) {
    spec.minReplicas <= replicas <= spec.maxReplicas
  }

  /** The HPA asks for nothing yet, or for a count within the bounds; others keep to the bounds too. */
  ghost predicate AsksInBand(spec: HvpaSpec, events: seq<Event>) {
    forall i :: 0 <= i < |events| ==>
      match events[i]
      case Tick(o) => o.hpa.desired == 0 || InBand(spec, o.hpa.desired)
      case Pod(_) => true
      case Edit(replicas, _) => InBand(spec, replicas)
  }

  lemma NewReplicasBetween(spec: HvpaSpec, s: State, o: Observation)
    requires Validated(spec)
    ensures var r := NewReplicas(spec, s, o);
            r == s.replicas || s.replicas < r <= o.hpa.desired || o.hpa.desired <= r < s.replicas
  {
    StepLeavesShare(s.replicas, o.hpa.desired, 100 - Weight(spec, s, o));
    hide WeightedReplicas, VpaWeight;
  }

  /** Replicas that start within the bounds of the HPA stay within them in every run. */
  lemma {:induction false} ReplicasStayInBand(spec: HvpaSpec, s: State, events: seq<Event>)
    requires InBand(spec, s.replicas) && AsksInBand(spec, events)
    ensures InBand(spec, Run(spec, s, events).replicas)
  {
    if events != [] {
      assert forall i :: 0 <= i < |Front(events)| ==> Front(events)[i] == events[i];
      ReplicasStayInBand(spec, s, Front(events));
      var before, event := Run(spec, s, Front(events)), Last(events);
      assert event == events[|events| - 1];
      if event.Tick? && Validated(spec) {
        NewReplicasBetween(spec, before, event.o);
        if event.o.hpa.desired == 0 {
          NewReplicasNeedAsk(spec, before, event.o);
        }
      }
      hide NewReplicas, VerticalPass, BlockedNow, Needed, Weight, IsScalingOff;
    }
  }

  lemma NewReplicasNeedAsk(spec: HvpaSpec, s: State, o: Observation)
    requires o.hpa.desired == 0
    ensures NewReplicas(spec, s, o) == s.replicas
  {
  }

  ghost predicate EditsFit(events: seq<Event>) {
    forall i :: 0 <= i < |events| && events[i].Edit? ==> AllFit(events[i].containers)
  }

  /** Requests that start at or below their positive limits stay so in every run. */
  lemma {:induction false} RequestsStayBelowLimits(spec: HvpaSpec, s: State, events: seq<Event>)
    requires AllFit(s.containers) && EditsFit(events)
    ensures AllFit(Run(spec, s, events).containers)
  {
    if events != [] {
      assert forall i :: 0 <= i < |Front(events)| ==> Front(events)[i] == events[i];
      RequestsStayBelowLimits(spec, s, Front(events));
      var before, event := Run(spec, s, Front(events)), Last(events);
      assert event == events[|events| - 1];
      if event.Tick? {
        VerticalPassFits(spec, before, event.o);
      }
      hide NewReplicas, VerticalPass, BlockedNow, Needed, Weight, IsScalingOff, AllFit, Validated;
    }
  }

  lemma VerticalPassFits(spec: HvpaSpec, s: State, o: Observation)
    requires AllFit(s.containers)
    ensures AllFit(VerticalPass(spec, s, o).containers)
  {
    if VpaOf(spec, o).Some? && o.vpa.recommendation.Some? {
      RequestsNeverExceedLimits(VerticalContext(spec, s, o), s.containers, o.vpa.recommendation.value);
    }
    hide Process, AllFit, VerticalContext, Trusted;
  }

  /** All that is recommended and all that others write is within the hull. */
  ghost predicate RecommendsIn(events: seq<Event>, lo: int, hi: int) {
    forall i :: 0 <= i < |events| ==>
      match events[i]
      case Tick(o) => o.vpa.recommendation.Some? ==> TargetsIn(o.vpa.recommendation.value, lo, hi)
      case Pod(_) => true
      case Edit(_, containers) => AllInHull(containers, lo, hi)
  }

  /** CPU requests that start within a hull stay in it in every run whose recommendations do. */
  lemma {:induction false} CpuStaysInHull(spec: HvpaSpec, s: State, events: seq<Event>, lo: int, hi: int)
    requires 0 <= lo && hi <= MAX_INT64 && GapCovers(spec.gap.cpu)
    requires AllInHull(s.containers, lo, hi) && RecommendsIn(events, lo, hi)
    ensures AllInHull(Run(spec, s, events).containers, lo, hi)
  {
    hide AllInHull, TargetsIn, GapCovers;
    if events != [] {
      assert forall i :: 0 <= i < |Front(events)| ==> Front(events)[i] == events[i];
      CpuStaysInHull(spec, s, Front(events), lo, hi);
      var before, event := Run(spec, s, Front(events)), Last(events);
      assert event == events[|events| - 1];
      if event.Tick? && Validated(spec) {
        VerticalPassInHull(spec, before, event.o, lo, hi);
      }
      hide NewReplicas, VerticalPass, BlockedNow, Needed, Weight, IsScalingOff, Validated;
    }
  }

  lemma VerticalPassInHull(spec: HvpaSpec, s: State, o: Observation, lo: int, hi: int)
    requires Validated(spec) && 0 <= lo && hi <= MAX_INT64 && GapCovers(spec.gap.cpu)
    requires AllInHull(s.containers, lo, hi)
    requires o.vpa.recommendation.Some? ==> TargetsIn(o.vpa.recommendation.value, lo, hi)
    ensures AllInHull(VerticalPass(spec, s, o).containers, lo, hi)
  {
    hide AllInHull, TargetsIn, GapCovers, ScaleOutLimited, Trusted, Process;
    if VpaOf(spec, o).Some? && o.vpa.recommendation.Some? {
      HullIsKept(VerticalContext(spec, s, o), s.containers, o.vpa.recommendation.value, lo, hi);
    }
  }

  // ---------- the record of blocked scalings ----------

  /** The reasons recorded by one reconciliation are pairwise distinct and at most five. The vertical entries come
      first, in order of priority, each with what its reason blocked; a horizontal block joins the entry of its
      reason or follows them, and never has the weight as its reason. */
  lemma BlockedReasonsKeyed(spec: HvpaSpec, s: State, o: Observation)
    ensures var entries, p := BlockedNow(spec, s, o), VerticalPass(spec, s, o);
            var vertical := VerticalEntries(p.blocked, 5);
            && Keyed(entries) && |entries| <= 5
            && |vertical| <= |entries| <= |vertical| + 1
            && InPriorityOrder(vertical)
            && (forall i :: 0 <= i < |vertical| ==>
                  entries[i].reason == vertical[i].reason && entries[i].vpa == p.blocked.At(entries[i].reason) != [])
            && (forall i :: |vertical| <= i < |entries| ==> entries[i].vpa == [] && entries[i].reason == StabilizationReason)
  {
    hide VerticalPass;
    var p, v := VerticalPass(spec, s, o), Horizontal(spec, s, o);
    var vertical := VerticalEntries(p.blocked, 5);
    VerticalEntriesOrdered(p.blocked, 5);
    assert Keyed(vertical);
    HorizontalIsSafe(spec, s, o);
    hide Horizontal, VerticalEntries, Merged;
    if v.Hold? {
      MergeKeepsKeys(vertical, v.reason, s.replicas, v.replicas);
    }
    KeyedIsShort(BlockedNow(spec, s, o));
  }

  lemma KeyedNow(spec: HvpaSpec, s: State, o: Observation)
    ensures Keyed(BlockedNow(spec, s, o))
  {
    BlockedReasonsKeyed(spec, s, o);
  }

  /** In every run the status lists each reason once, so the map by reason that the metrics build loses no entry. */
  lemma {:induction false} RecordedReasonsKeyed(spec: HvpaSpec, s: State, events: seq<Event>)
    requires Keyed(s.lastBlocked)
    ensures Keyed(Run(spec, s, events).lastBlocked)
    ensures forall i :: 0 <= i < |Run(spec, s, events).lastBlocked| ==>
              FoundIn(ByReasonMap(Run(spec, s, events).lastBlocked), Run(spec, s, events).lastBlocked[i])
  {
    KeyedAfter(spec, s, events);
    MapLosesNothing(Run(spec, s, events).lastBlocked);
  }

  lemma {:induction false} KeyedAfter(spec: HvpaSpec, s: State, events: seq<Event>)
    requires Keyed(s.lastBlocked)
    ensures Keyed(Run(spec, s, events).lastBlocked)
  {
    if events != [] {
      KeyedAfter(spec, s, Front(events));
      KeyedNext(spec, Run(spec, s, Front(events)), Last(events));
      hide Next, Keyed;
    }
  }

  lemma KeyedNext(spec: HvpaSpec, s: State, event: Event)
    requires Keyed(s.lastBlocked)
    ensures Keyed(Next(spec, s, event).lastBlocked)
  {
    hide NewReplicas, VerticalPass, BlockedNow, Effective, Weight, Keyed, Validated, SetsOverride;
    if event.Tick? {
      KeyedNow(spec, s, event.o);
    }
  }

  // ---------- the record of scalings ----------

  /** What a recorded scaling leaves in the status: complementary weights, and the new and the old replica count. */
  lemma ScalingIsRecorded(spec: HvpaSpec, s: State, tick: Event)
    requires RecordsScaling(spec, s, tick)
    ensures var t := Next(spec, s, tick);
            && t.lastScaleTime == Some(tick.o.recordedAt) && !t.override
            && t.hpaWeight + t.vpaWeight == 100 && 0 <= t.vpaWeight <= 100
            && (t.replicas != s.replicas ==> t.lastReplicas == (t.replicas, s.replicas))
            && (t.replicas == s.replicas ==> t.lastReplicas == s.lastReplicas)
            && (t.containers != s.containers ==> t.lastRequests == Some(VerticalPass(spec, s, tick.o).applied))
  {
    hide VpaWeight, VerticalPass, NewReplicas, BlockedNow, Needed, IsScalingOff;
  }

  /** In every run from the start, the status shows either no scaling at all, or one with complementary weights. */
  lemma {:induction false} WeightsComplement(spec: HvpaSpec, s: State, events: seq<Event>)
    requires s.lastScaleTime.None? && s.hpaWeight == s.vpaWeight == 0
    ensures var t := Run(spec, s, events);
            if t.lastScaleTime.None? then t.hpaWeight == t.vpaWeight == 0
            else t.hpaWeight + t.vpaWeight == 100 && 0 <= t.vpaWeight <= 100
  {
    if events != [] {
      WeightsComplement(spec, s, Front(events));
      var before, event := Run(spec, s, Front(events)), Last(events);
      if RecordsScaling(spec, before, event) {
        ScalingIsRecorded(spec, before, event);
      } else {
        NothingIsRecorded(spec, before, event);
      }
      hide Next, RecordsScaling;
    }
  }

  lemma NothingIsRecorded(spec: HvpaSpec, s: State, event: Event)
    requires !RecordsScaling(spec, s, event)
    ensures var t := Next(spec, s, event);
            t.lastScaleTime == s.lastScaleTime && t.hpaWeight == s.hpaWeight && t.vpaWeight == s.vpaWeight
  {
    hide Weight, VerticalPass, NewReplicas, BlockedNow, Needed, IsScalingOff, Validated, SetsOverride;
  }

  // ---------- convergence of the controller ----------

  /** A tick that asks for a fixed count and meets no gate. */
  ghost predicate Unblocked(spec: HvpaSpec, s: State, event: Event, desired: int) {
    && event.Tick? && event.o.hpa.desired == desired && event.o.childrenOk && event.o.targetOk
    && !WithinWindow(Elapsed(s.lastScaleTime, event.o.now), spec.hpaUp.Window())
    && !WithinWindow(Elapsed(s.lastScaleTime, event.o.now), spec.hpaDown.Window())
  }

  ghost predicate ScalesHorizontally(spec: HvpaSpec) {
    Validated(spec) && spec.hpaByHvpa && HpaWanted(spec)
  }

  ghost predicate AllUnblocked(spec: HvpaSpec, s: State, events: seq<Event>, desired: int) {
    forall n :: 0 <= n < |events| ==> Unblocked(spec, Run(spec, s, events[..n]), events[n], desired)
  }

  lemma UnblockedStep(spec: HvpaSpec, s: State, event: Event, desired: int)
    requires ScalesHorizontally(spec) && desired != 0 && Unblocked(spec, s, event, desired)
    ensures Next(spec, s, event).replicas == ReplicaScaling.NextReplicas(spec, desired, s.replicas)
  {
    var o := event.o;
    assert ReplicaScaling.NextReplicas(spec, desired, s.replicas)
        == WeightedReplicas(s.replicas, desired, 100 - Weight(spec, s, o));
    StepLeavesShare(s.replicas, desired, 100 - Weight(spec, s, o));
    hide VpaWeight, WeightedReplicas, VerticalPass, BlockedNow;
    assert NewReplicas(spec, s, o) == ReplicaScaling.NextReplicas(spec, desired, s.replicas);
    var modes := [spec.hpaUp, spec.hpaUp, spec.vpaUp, spec.vpaUp];
    assert modes[0] == spec.hpaUp && !IsOff(spec, spec.hpaUp, o.now);
    assert !IsScalingOff(spec, o.now);
  }

  lemma FrontUnblocked(spec: HvpaSpec, s: State, events: seq<Event>, desired: int)
    requires events != [] && AllUnblocked(spec, s, events, desired)
    ensures AllUnblocked(spec, s, Front(events), desired)
    ensures Unblocked(spec, Run(spec, s, Front(events)), Last(events), desired)
  {
    hide Unblocked, Run;
    var n := |events| - 1;
    assert forall k :: 0 <= k < n ==> Front(events)[k] == events[k] && Front(events)[..k] == events[..k];
    assert Unblocked(spec, Run(spec, s, events[..n]), events[n], desired);
  }

  lemma {:induction false} FollowsSteps(spec: HvpaSpec, s: State, events: seq<Event>, desired: int)
    requires ScalesHorizontally(spec) && desired != 0 && AllUnblocked(spec, s, events, desired)
    ensures Run(spec, s, events).replicas == After(spec, desired, s.replicas, |events|)
  {
    hide Next, Unblocked, AllUnblocked, ScalesHorizontally, ReplicaScaling.NextReplicas;
    if events != [] {
      FrontUnblocked(spec, s, events, desired);
      FollowsSteps(spec, s, Front(events), desired);
      UnblockedStep(spec, Run(spec, s, Front(events)), Last(events), desired);
    }
  }

  /** Convergence. While the HPA keeps asking for one count and no gate holds it back, a run of at least as many ticks
      as the distance ends at that count, or at one whose interval leaves no weight to horizontal scaling. Status
      updates may fail on the way, and requests may change. */
  lemma ControllerConverges(spec: HvpaSpec, s: State, events: seq<Event>, desired: int)
    requires ScalesHorizontally(spec) && desired != 0 && AllUnblocked(spec, s, events, desired)
    requires |events| >= Gap(s.replicas, desired)
    ensures Rests(spec, desired, Run(spec, s, events).replicas)
  {
    FollowsSteps(spec, s, events, desired);
    Converges(spec, desired, s.replicas, |events|);
  }

  // ---------- switching off ----------

  /** Nothing is scaled exactly when the two scale-up modes are off at the time, whatever the scale-down modes are:
      a needed change of the target is made if and only if one of them is not off. */
  lemma OffIffBothScaleUpsOff(spec: HvpaSpec, s: State, o: Observation)
    requires Validated(spec) && o.childrenOk && Needed(spec, s, o)
    ensures Effective(spec, s, o) <==> !(IsOff(spec, spec.hpaUp, o.now) && IsOff(spec, spec.vpaUp, o.now))
    ensures IsOff(spec, spec.hpaUp, o.now) && IsOff(spec, spec.vpaUp, o.now) ==>
              var t := Reconciled(spec, s, o);
              t.replicas == s.replicas && t.containers == s.containers && t.lastScaleTime == s.lastScaleTime
  {
  }

  const NEVER_UP := ScaleType(Some(Off), None, ScaleParams(ChangeParams(Some(1), None), ChangeParams(Some(1), None)))
  const ALWAYS := ScaleType(None, None, ScaleParams(ChangeParams(Some(1), None), ChangeParams(Some(1), None)))

  /** Scaling up is off, scaling down is automatic. */
  const DOWN_ONLY := HvpaSpec(true, false, NEVER_UP, ALWAYS, 1, 1, true, NEVER_UP, ALWAYS, None, NO_CHANGES,
                              [Interval(100, 1, 1)], None)

  /** So a decrease that passes every gate of its own, and is blocked for no reason, is dropped without a trace. */
  lemma DecreaseDropped()
    ensures var c := Container("c", ResourceList(Some(500), None), EMPTY);
            var rec := Recommendation("c", ResourceList(Some(100), None));
            var o := Observation(HpaStatus(0, false), VpaStatus([], Some([rec])), 0, 0, true, true, true, true);
            var s := State(1, [c], None, false, [], 0, 0, (0, 0), None);
            && VerdictFor(VerticalContext(DOWN_ONLY, s, o), c, rec, Cpu) == Apply
            && Needed(DOWN_ONLY, s, o)
            && Reconciled(DOWN_ONLY, s, o) == s
  {
    var c := Container("c", ResourceList(Some(500), None), EMPTY);
    var rec := Recommendation("c", ResourceList(Some(100), None));
    var o := Observation(HpaStatus(0, false), VpaStatus([], Some([rec])), 0, 0, true, true, true, true);
    var s := State(1, [c], None, false, [], 0, 0, (0, 0), None);
    hide VerdictFor, Process, NewRequests, Horizontal, Weight, IsScalingOff, VerticalContext, Trusted;
    var ctx := Context(DOWN_ONLY, 100, true, false, None, false);
    DownOnlyContext(s, o);
    DecreaseVerdicts(ctx, c, rec);
    OnePass(ctx, c, rec);
    PassOfOne(ctx, s, o, c, rec);
    hide VerticalPass, VerticalEntries;
    assert BlockedNow(DOWN_ONLY, s, o) == [];
    assert Needed(DOWN_ONLY, s, o);
    OffChangesNothing(DOWN_ONLY, s, o);
  }

  lemma PassOfOne(ctx: Context, s: State, o: Observation, c: Container, rec: Recommendation)
    requires ctx == VerticalContext(DOWN_ONLY, s, o) && s.containers == [c] && o.vpa == VpaStatus([], Some([rec]))
    ensures VerticalPass(DOWN_ONLY, s, o) == Process(ctx, [c], [rec])
  {
    hide Process, VerticalContext;
  }

  lemma OffChangesNothing(spec: HvpaSpec, s: State, o: Observation)
    requires IsScalingOff(spec, o.now) && BlockedNow(spec, s, o) == []
    ensures Reconciled(spec, s, o) == s
  {
    hide IsScalingOff, BlockedNow, Needed, WithTarget, WithScaling, Validated;
  }

  lemma DownOnlyContext(s: State, o: Observation)
    requires s.replicas == 1 && !s.override && s.lastScaleTime.None?
    ensures VerticalContext(DOWN_ONLY, s, o) == Context(DOWN_ONLY, 100, true, false, None, false)
    ensures Horizontal(DOWN_ONLY, s, o) == Unset && IsScalingOff(DOWN_ONLY, o.now)
  {
  }

  lemma DecreaseVerdicts(ctx: Context, c: Container, rec: Recommendation)
    requires ctx == Context(DOWN_ONLY, 100, true, false, None, false)
    requires c == Container("c", ResourceList(Some(500), None), EMPTY)
    requires rec == Recommendation("c", ResourceList(Some(100), None))
    ensures VerdictFor(ctx, c, rec, Cpu) == Apply && VerdictFor(ctx, c, rec, Memory) == Leave
    ensures NewRequests(ctx, c, rec).cpu == Some(100)
  {
  }

  lemma OnePass(ctx: Context, c: Container, rec: Recommendation)
    requires VerdictFor(ctx, c, rec, Cpu) == Apply && VerdictFor(ctx, c, rec, Memory) == Leave
    requires rec.container == c.name && NewRequests(ctx, c, rec).cpu != c.requests.cpu
    ensures var p := Process(ctx, [c], [rec]);
            p.changed && p.containers != [c] && VerticalEntries(p.blocked, 5) == []
  {
    hide VerdictFor, NewRequests, NewLimits;
    assert [rec][..0] == [];
    assert Process(ctx, [c], []) == Start([c]);
    var p := Process(ctx, [c], [rec]);
    assert p == Step(ctx, Start([c]), rec);
    assert p.containers[0] == Scaled(ctx, c, rec);
    assert AppliedTarget(ctx, c, rec).cpu == NewRequests(ctx, c, rec).Entry(Cpu);
    assert NewRequests(ctx, c, rec).Has(Cpu);
    forall reason
      ensures p.blocked.At(reason) == []
    {
      assert BlockedTarget(ctx, c, rec, reason) == EMPTY;
    }
    SameByReason(p.blocked, Uniform([]));
    NothingBlocked(5);
  }
}
