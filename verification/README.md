# Verification of the HVPA controller

The HVPA controller scales a workload horizontally and vertically. It owns one HPA and one VPA as recommenders, splits
each recommendation by a weight that depends on the replica count, and holds changes back by update policies,
stabilization windows, a maintenance window and minimum changes. This project models that decision, the controller
around it over whole runs, the ownership of the child objects, and the cache that maps pods to HVPAs, and proves what
they keep. `dafny verify dfyconfig.toml` checks it.

Code of the controller that updates variables, list entries, maps or stored objects is modelled by methods and classes,
each proved equal to a specification function; code that only computes is modelled by functions. The properties are
lemmas about the specification functions.

| module | part of the controller |
|---|---|
| `GoNumerics` | truncating division, rounding away from zero, bounds on both |
| `MaintenanceWindow` | clock times and windows |
| `HvpaTypes` | the specification, containers, recommendations, blocked scalings |
| `IntervalWeights` | choosing the vertical weight |
| `LimitScaling` | scaling limits, capping requests |
| `BlockedScalings` | the list of blocked scalings |
| `VerticalScaling`, `VerticalDecision`, `VerticalEffects` | the vertical decision, what it guarantees, and its effect from the fields of the specification |
| `ReplicaScaling` | the horizontal decision and its convergence |
| `Controller`, `ControllerEffects` | one reconciliation, one pod event, and their effects on target and status |
| `ControllerRuns`, `RunGuarantees` | whole runs: rate bound, causes of overrides, invariants, convergence |
| `Ownership`, `ChildReconciliation`, `OwnershipGuarantees`, `OwnershipRounds`, `ChildEffects` | claiming and reconciling VPAs and HPAs in a store shared by several HVPAs |
| `HvpaCache` | the cache of selectors by namespace |

## How the model reads the code

Quantities are integers in milli-units (memory in milli-bytes). A missing resource list has no entries. Replica counts
are rounded as exact integers. Stabilization windows, clock times and quantities are taken as parsed, and time is in
seconds. One reconciliation reads the clock once for its decision (`now`) and once for the recorded scaling
(`recordedAt`, not earlier). A missing time of the last scaling is longer ago than any window. The comparison of pods
also sees how equal quantities are represented; that is an input of a reconciliation. In a run, everything the HPA, the
VPA, the pods and the nodes report is arbitrary, every call may fail, and others may edit the target between events.

Children of both kinds are reconciled by the same pass; the kinds differ in what is compared and updated, and in when a
child is to exist: the HPA only if both of its modes are Auto (`HvpaTypes.HpaWanted`). The store is a map from names to
children of one kind, a selector is an arbitrary predicate on labels, and every call of
a pass has an arbitrary outcome. Passes are serialized, and each one lists the store when it starts. `Gone` is an answer
of "not found": someone else has removed the object. A deletion removes the object at once.

## What the code does that one may not expect

- Scaling is off when both scale-up modes are off; the scale-down modes are never looked at. A decrease that passes
  every gate is then dropped and not recorded as blocked (`RunGuarantees.OffIffBothScaleUpsOff`, `RunGuarantees.DecreaseDropped`).
- The override excuses horizontal scaling in from its stabilization window (`Controller.HorizontalOutcome`), but no
  vertical decrease (`VerticalDecision.OverrideSparesDecreases`).
- The branch for a horizontal weight of zero is dead (`ReplicaScaling.ZeroWeightKeeps`), and through a reconciliation
  only the stabilization window can hold horizontal scaling back (`Controller.HorizontalIsSafe`).
- An OOM kill buys at most one override (`RunGuarantees.OomCausesDistinct`), but an eviction is not compared with the
  last scaling, so a later delivery of an evicted pod can buy another one
  (`RunGuarantees.EvictionBuysOverrideAgain`, and `RunGuarantees.RedeliverySetsIff` for exactly when).
- The minimum change is tested before memory is rounded up to kilobytes and before requests are cut to limits, so a
  change that is written can miss it (`VerticalDecision.DecreaseMissesMinimum`, `VerticalDecision.IncreaseMissesMinimum`;
  `VerticalDecision.CutIncreaseMeetsMinimumIff` and `VerticalDecision.RoundedDecreaseMeetsMinimumIff` for exactly when).
  An applied decrease of memory can even raise the request (`VerticalDecision.DecreaseRaisesIff`).
- A memory request can exceed its target by more than a kilobyte, and can fall below both ends, where quantities are
  not whole bytes (`VerticalDecision.MemoryOverstepsIff`).
- A gap given as a bare negative value puts the limit below the request (`LimitScaling.LimitCoversRequest`), and the
  request is then cut to it.
- A memory limit that is scaled away and back can end up higher (`LimitScaling.ScalingMemoryBackAndForth`).
- A window whose begin is its end contains one second, although its duration is a day (`MaintenanceWindow.WindowSize`).
- A VPA without an update mode, or an HPA without a minimum, makes reconciliation panic once it is claimed
  (`OwnershipGuarantees.PassConverges`).
- A pass reports success although duplicates could not be deleted or a release was refused
  (`OwnershipGuarantees.SuccessLeaves`). With the second version of the HPA, any failed release, and a failed create,
  is reported as success (`OwnershipGuarantees.SilentFailedRelease`, `OwnershipGuarantees.SuccessLeaves`).
- The comment on `UpdateVpaWithRetries` (controllers/vpa_util.go:53) says that a VPA that is not found is ignored; the
  code returns that error, and so does the model. The same holds for `UpdateHpaWithRetries` (controllers/hpa_util.go:141).
- Settling an HVPA can unsettle another one with an overlapping selector, so that one round of passes is not enough,
  nor are two passes of one HVPA before the first of another (`OwnershipRounds.DisturbsIff`).
- A target without a selector is cached with a nil one, which makes lookups of other pods panic
  (`HvpaCache.PodLookupIsExact`).
- With two matching selectors, which HVPA a pod belongs to depends on the history of the cache (`HvpaCache.HistoryDecides`).

## Model

| member | source | states |
|---|---|---|
| `MaintenanceWindow.ClockAt` | utils/timewindow.go:45-49 | the clock time of a point in time is the one that lies that many seconds into its day |
| `MaintenanceWindow.Add` | utils/timewindow.go:80-83 | adding hours, minutes and seconds of any size and sign moves the second of the day and wraps at midnight |
| `MaintenanceWindow.ClockRoundTrip` | utils/timewindow.go:45-49 | a clock time is recovered from its second of the day |
| `MaintenanceWindow.CompareOrdersSeconds` | utils/timewindow.go:85-97 | `Compare` is negative, positive or zero exactly as the seconds of the day are ordered, and zero only for equal times |
| `MaintenanceWindow.ContainsIsArc` | utils/timewindow.go:158-165 | a window contains `t` iff `(t - begin) mod 86400 <= (end - begin) mod 86400`, across midnight or not |
| `MaintenanceWindow.ContainsShiftInvariant` | utils/timewindow.go:80-83 | moving begin, end and `t` by the same `Add` does not change the answer of `Contains` |
| `MaintenanceWindow.ComplementExact` | utils/timewindow.go:158-165 | the window from one second after the end to one second before the begin is the exact complement, iff the window does not cover the whole day |
| `MaintenanceWindow.WindowSize` | utils/timewindow.go:167-191 | a window with different ends contains `Duration + 1` seconds of the day; one whose begin is its end contains a single second although its duration is a day |
| `IntervalWeights.VpaWeight` | controllers/hvpa_controller.go:466-508 | the selected weight obeys the declarative rule (first covering interval; at 100, the nearest smaller weight before it for scaling in, after it for scaling out, else 100; 0 without a covering interval) and lies in [0, 100] |
| `IntervalWeights.SelectionUnique` | controllers/hvpa_controller.go:466-508 | the declarative rule admits no other weight |
| `IntervalWeights.WeightInPlain` | controllers/hvpa_controller.go:466-508 | the same rule from the fields: an unset start is the minimum and an unset last the maximum of the replicas, the first interval around the count decides, and its neighbours if its weight is 100 |
| `IntervalWeights.GetVpaWeightFromIntervals` | controllers/hvpa_controller.go:466-508 | the single pass with its remembered last fraction and its lookup flag computes exactly that weight |
| `LimitScaling.ProportionalLaw` | controllers/hvpa_controller.go:1342-1355 | without capping, `limit' * request <= limit * weighted < (limit' + 1) * request`, and the new limit is monotone in the new request |
| `LimitScaling.ProportionalCovers` | controllers/hvpa_controller.go:1342-1355 | a limit at or above its request stays at or above the new request, capping to 64 bits included |
| `LimitScaling.ScalingBackAndForth` | controllers/hvpa_controller.go:1342-1355 | scaling a request to `w` and back never raises the limit, and loses less than `request / w + 1` milli-units |
| `LimitScaling.ScalingMemoryBackAndForth` | controllers/hvpa_controller.go:1276-1280 | with memory limits rounded up to kilobytes the loss is as before, but the limit can rise by less than a kilobyte times `request / w + 1`; it does not rise iff the proportional limit on the way back is within the whole kilobytes of the old one |
| `LimitScaling.WholeKilobytesComeBack` | controllers/hvpa_controller.go:1276-1280 | where both limits are whole kilobytes in exact proportion the old one comes back |
| `LimitScaling.MemoryLimitRises` | controllers/hvpa_controller.go:1276-1280 | an input whose limit goes from 4000 bytes to 3000 and back to 5000 |
| `LimitScaling.LimitCoversRequest` | controllers/hvpa_controller.go:1284-1340 | a limit above its request covers the new request iff the gap parameters are not a bare negative value; capping never breaks this |
| `LimitScaling.CapIsNoOp` | controllers/hvpa_controller.go:1032-1038 | where a resource and its limit are controlled, capping the new request to the new limit changes nothing |
| `BlockedScalings.BlockedList.AppendVertical` | controllers/hvpa_controller.go:1189-1191 | an entry is appended iff its reason blocked something |
| `BlockedScalings.BlockedList.AppendAll` | controllers/hvpa_controller.go:1189-1203 | the five possible entries are appended in order of priority |
| `BlockedScalings.BlockedList.MergeHorizontal` | controllers/hvpa_controller.go:809-831 | the loop and the append that follows it write the horizontal part into the first entry of the reason, or add an entry |
| `BlockedScalings.VerticalEntriesOrdered` | controllers/hvpa_controller.go:886-889 | the vertical entries are in the documented order of priority, and each one holds what its reason blocked |
| `BlockedScalings.VerticalEntriesComplete` | controllers/hvpa_controller.go:872-884 | no reason that blocked something is missing from the entries |
| `BlockedScalings.MergeKeepsKeys` | controllers/hvpa_controller.go:809-831 | merging a horizontal block keeps the reasons distinct and keeps the vertical part of every entry in place |
| `BlockedScalings.KeyedIsShort` | api/v1alpha1/hvpa_types.go:274-297 | a list with distinct reasons has at most five entries |
| `BlockedScalings.MapLosesNothing` | controllers/hvpa_metrics.go:456-463 | the map by reason built from a list with distinct reasons holds every entry under its reason, and nothing else |
| `VerticalScaling.ConditionsAllow` | controllers/hvpa_controller.go:896-922 | the loop over the conditions accepts a recommendation iff there are no conditions, or a true RecommendationProvided precedes every unsupported one and is the first of its kind; an unsupported condition after it is not looked at |
| `VerticalScaling.PolicyFor` | controllers/hvpa_controller.go:1226-1236 | the policy of a container is the first one that names it or names all containers; there is none iff no policy does |
| `VerticalScaling.ScaleContainer` | controllers/hvpa_controller.go:994-1172 | memory and then CPU, each written or recorded by its own verdict, amount to the declarative effect on the container, its applied target and its blocked targets |
| `VerticalScaling.ProcessOne` | controllers/hvpa_controller.go:991-1187 | the search for the container, the update in place and the appends amount to one step of the specification |
| `VerticalScaling.ProcessAll` | controllers/hvpa_controller.go:971-1188 | the loop over the recommendations is the fold of these steps |
| `VerticalScaling.GetWeightedRequests` | controllers/hvpa_controller.go:890-1211 | a new pod and status are returned iff some resource changes, and the list gains exactly the vertical entries |
| `VerticalDecision.Frame` | controllers/hvpa_controller.go:991-993 | a container that is not the first one of its name, or that no recommendation names, is untouched |
| `VerticalDecision.OneEffect` | controllers/hvpa_controller.go:971-1188 | with distinct names a recommended container ends as one application of its own recommendation makes it |
| `VerticalDecision.OneRecord` | controllers/hvpa_controller.go:1174-1184 | such a container is recorded exactly once as applied and at most once under each reason, with exactly the targets of its verdicts |
| `VerticalDecision.ExactlyOneClass` | controllers/hvpa_controller.go:1044-1184 | each CPU or memory entry of a recommended container falls into exactly one class: applied (in pod and status alike), blocked under one reason with its raw target, or left alone with request and limit unchanged |
| `VerticalDecision.FirstObstacleDecides` | controllers/hvpa_controller.go:1045-1170 | in either direction the first obstacle in order of priority (weight, policy, stabilization, window, minimum change) blocks, and a change is applied iff there is no obstacle |
| `VerticalDecision.SameMagnitude` | controllers/hvpa_controller.go:1007-1020 | the negated difference has exactly the magnitude of the truncated difference |
| `VerticalDecision.DifferenceIsShare` | controllers/hvpa_controller.go:1003-1020 | the weighted difference points to the target and is the weighted share of the distance, in milli-units of CPU or bytes of memory, rounded down |
| `VerticalDecision.ThresholdIsLeast` | controllers/hvpa_controller.go:1357-1393 | the minimum change is the smaller of the value and the percentage that are given, or the default |
| `VerticalDecision.AppliedMeetsMinimum` | controllers/hvpa_controller.go:1063-1098 | what is tested of an applied change, its weighted difference before rounding and cutting, reaches the minimum of its direction, unless it scales up under override |
| `VerticalDecision.NewRequestIsCut` | controllers/hvpa_controller.go:1011-1038 | the new request is the weighted one, cut to its own new limit as soon as some limit of the container is scaled, and to the old limit otherwise |
| `VerticalDecision.CutIncreaseMeetsMinimumIff` | controllers/hvpa_controller.go:1034-1073 | the increase that is written, of either resource and under any policy, reaches its minimum iff the limit it is cut to leaves room for it |
| `VerticalDecision.ScaledIncreaseMeetsMinimumIff` | controllers/hvpa_controller.go:1284-1340 | where the limit is scaled along and was not below the request, iff the gap parameters cover requests or are not used, or a bare negative value leaves enough |
| `VerticalDecision.RoundedDecreaseMeetsMinimumIff` | controllers/hvpa_controller.go:1011-1102 | the decrease that is written reaches its minimum iff it is of CPU, or rounding up to kilobytes takes no more than is left over, or the limit it is cut to is low enough |
| `VerticalDecision.WholeDecreaseMeetsMinimum` | controllers/hvpa_controller.go:1011-1102 | every applied decrease does where the old request and the minimum are whole kilobytes |
| `VerticalDecision.DecreaseRaisesIff` | controllers/hvpa_controller.go:1011-1102 | an applied decrease writes a higher request iff it is of memory and rounding passes the old one and the cut allows it |
| `VerticalDecision.DecreaseMissesMinimum` | controllers/hvpa_controller.go:1011-1102 | an input with default values: a decrease of memory is applied and misses its minimum by 176 bytes |
| `VerticalDecision.DecreaseRaises` | controllers/hvpa_controller.go:1011-1102 | an input whose applied decrease of memory writes a higher request |
| `VerticalDecision.IncreaseMissesMinimum` | controllers/hvpa_controller.go:1034-1073 | an input with a gap of a bare negative value whose applied increase misses its minimum |
| `VerticalDecision.RequestsNeverExceedLimits` | controllers/hvpa_controller.go:1032-1073 | requests at or below their positive limits stay so, for every mix of controlled resources, controlled values, gap parameters and verdicts |
| `VerticalDecision.CpuStaysBetween` | controllers/hvpa_controller.go:1014-1022 | a weighted CPU request lies between the old request and the target |
| `VerticalDecision.AppliedCpuStaysBetweenIff` | controllers/hvpa_controller.go:1014-1038 | the CPU request that is written lies between them iff the limit it is cut to leaves the lower one |
| `VerticalDecision.AppliedCpuStaysBetween` | controllers/hvpa_controller.go:1014-1038 | it does for a request within its limit where the gap parameters cover requests |
| `VerticalDecision.AppliedMemoryStaysBetween` | controllers/hvpa_controller.go:1003-1038 | under the same conditions the memory request that is written lies between the old and the weighted one, with the bounds on overshooting of the latter |
| `VerticalEffects.UncontrolledIff` | controllers/hvpa_controller.go:1226-1236 | a resource is out of control iff the first policy naming the container, or all containers, lists resources without it |
| `VerticalEffects.LimitsLeftIff` | controllers/hvpa_controller.go:1226-1256 | limits are left alone iff that policy controls requests only |
| `VerticalEffects.WeightedInPlain` | controllers/hvpa_controller.go:1003-1022 | the weighted request is the old one plus the weighted difference, as it is for CPU, and at the next whole kilobyte for memory |
| `VerticalEffects.ScaledLimitInPlain` | controllers/hvpa_controller.go:1284-1355 | the scaled limit by plain arithmetic: the new request where the old one was missing or equal to the limit, otherwise the floored proportion, or the greater of adding the value and adding the floored percentage; capped to 64 bits |
| `VerticalEffects.LimitInPlain` | controllers/hvpa_controller.go:1247-1282 | an applied change leaves exactly that limit, memory at the next whole kilobyte, and leaves missing limits, and all limits where only requests are controlled, as they were |
| `VerticalEffects.RequestInPlain` | controllers/hvpa_controller.go:1032-1038 | an applied change writes the lower of the weighted request and the limit: the new one if some limit of the container is scaled, else the old one |
| `VerticalEffects.ScalesAnyLimitIff` | controllers/hvpa_controller.go:1247-1282 | some limit is scaled iff some controlled resource has one and the policy does not control requests only |
| `VerticalEffects.EqualStaysEqual` | controllers/hvpa_controller.go:1290-1300 | where a request was missing or equal to its positive limit, an applied change makes request and limit both the new request |
| `VerticalDecision.MemoryStaysBetween` | controllers/hvpa_controller.go:1003-1012 | a weighted memory request overshoots by less than a kilobyte and a byte, by less than a kilobyte if the distance is whole bytes, and not at all between whole kilobytes |
| `VerticalDecision.MemoryOverstepsIff` | controllers/hvpa_controller.go:1003-1012 | exactly when it oversteps by a kilobyte or more, or falls below both ends: at weight 100 only, when rounding the difference to bytes passes a whole number of kilobytes beyond the target |
| `VerticalDecision.OvershootBeyondKilobyte` | controllers/hvpa_controller.go:1003-1012 | an input for which the overshoot exceeds a kilobyte |
| `ReplicaScaling.GetWeightedReplicas` | controllers/hvpa_controller.go:702-836 | the gates of either direction give the new count, keep the current one, or hold it back and merge one block into the list |
| `ReplicaScaling.StepLeavesShare` | controllers/hvpa_controller.go:737-741 | one step leaves `floor(gap * vpaWeight / 100)` of the gap, on the same side of the desired count |
| `ReplicaScaling.GapShrinks` | controllers/hvpa_controller.go:737-741 | with some horizontal weight the gap strictly shrinks |
| `ReplicaScaling.RestsIffFixed` | controllers/hvpa_controller.go:466-508 | a step changes nothing iff the count is the desired one or its interval selects a vertical weight of 100 |
| `ReplicaScaling.Converges` | controllers/hvpa_controller.go:565-591 | with a fixed desired count, after as many steps as the distance the count rests and stays, through whatever intervals it moves |
| `ReplicaScaling.ReachesDesired` | controllers/hvpa_controller.go:565-591 | if no weight is 100, the desired count itself is reached |
| `Controller.HorizontalIsSafe` | controllers/hvpa_controller.go:354-438 | through a reconciliation the horizontal decision never uses a missing maintenance window, and only the stabilization window can hold it back |
| `Controller.HorizontalOutcome` | controllers/hvpa_controller.go:743-807 | a reconciliation changes the count iff a change is asked for and either the override is set, scaling in included, or the window of the direction has passed |
| `Controller.ScaleUpNeedsLimitedHpa` | controllers/hvpa_controller.go:838-856 | a vertical increase is applied only if horizontal scaling out is not deployed, off, at its maximum and limited, or overridden |
| `ControllerEffects.HorizontalInPlain` | controllers/hvpa_controller.go:743-807 | the outcome for any HPA status, from the fields: held by the policy, by the window before the stabilization, panicking over a missing window, kept or scaled |
| `ControllerEffects.OffIff` | controllers/hvpa_controller.go:670-700 | a direction is switched off iff its mode is Off, or it is bound to a maintenance window that is given and whose arc of the day does not hold the time |
| `ControllerEffects.ContextInPlain` | controllers/hvpa_controller.go:559-572 | the gates read the weight of the interval, or 1 for 0 under override, whether scaling out has no room or is overridden, the position in the window and the age of the last scaling |
| `ControllerEffects.VerdictInPlain` | controllers/hvpa_controller.go:1044-1170 | in a reconciliation a controlled resource is blocked for the first reason, by priority, that stands against it in terms of the specification, the status and the time, and changed iff none does |
| `ControllerEffects.WindowDecides` | controllers/hvpa_controller.go:1058-1061 | a change bound to the maintenance window is applied only inside it, and blocked for the window iff outside it with no earlier reason |
| `ControllerEffects.PassInPlain` | controllers/hvpa_controller.go:892-922 | recommendations count iff the VPA is deployed, has some, and has no conditions or a true RecommendationProvided before every true condition that makes them unusable |
| `ControllerEffects.TargetInPlain` | controllers/hvpa_controller.go:593-643 | the replicas and the containers of the target after a reconciliation, whichever of its calls fail: the count asked for and the pod of the vertical decision iff the update is due and succeeds |
| `ControllerEffects.AppliedIsWritten` | controllers/hvpa_controller.go:604-643 | when the target is updated, each resource of a recommended container has its new request and limit iff its verdict is to apply, and everything else is as it was |
| `ControllerEffects.StatusInPlain` | controllers/hvpa_controller.go:1493-1535 | the blocked scalings, the time, weights, counts and requests of the last scaling and the override after a reconciliation, whichever of its calls fail |
| `ControllerEffects.BlockedIsRecorded` | controllers/hvpa_controller.go:1174-1203 | every blocked resource is found in the status under its reason with its raw target |
| `ControllerEffects.HeldIsRecorded` | controllers/hvpa_controller.go:809-831 | a horizontal block is found in the status with the current and the refused count |
| `ControllerEffects.PodEventInPlain` | controllers/hvpa_controller.go:1606-1690 | a pod event sets the override, and nothing else, iff the pod is scheduled, selected and has the requests of the template, the update succeeds, and it was evicted under memory pressure or has a restarted container killed for memory since the last scaling |
| `Controller.HvpaController.Decide` | controllers/hvpa_controller.go:555-591 | weight, vertical and horizontal decision, in this order and on one list |
| `Controller.HvpaController.ScaleIfRequired` | controllers/hvpa_controller.go:510-644 | the target is updated iff something is needed and scaling is not off; what is reported as scaled has its status present |
| `Controller.HvpaController.Reconcile` | controllers/hvpa_controller.go:1415-1539 | one reconciliation changes target and status exactly as the transition function says, whichever of its calls fail |
| `Controller.HvpaController.HandlePod` | controllers/hvpa_controller.go:1558-1699 | a pod event sets the override iff the pod is up to date, the flag is clear, and it reports a recent OOM kill or was evicted under memory pressure |
| `ControllerRuns.ScalingWaits` | controllers/hvpa_controller.go:1049-1169 | without override a target update comes no earlier than the shortest of the four stabilization windows after the last recorded scaling |
| `ControllerRuns.StepEffect` | controllers/hvpa_controller.go:1512-1528 | an event sets the flag only if it is clear, and a recorded scaling clears it and moves the time of the last scaling, nothing else does |
| `ControllerRuns.OverridesConserved` | controllers/hvpa_controller.go:1634-1688 | overrides set, plus one set at the start, are those used by recorded scalings plus one left at the end; between two recorded scalings the flag is set at most once |
| `ControllerRuns.RateBound` | controllers/hvpa_controller.go:1512-1528 | in every run the scalings recorded within `[from, to]` number at most `(to - from) / W + 1`, plus the pod events that set the override, plus one if it was set at the start |
| `ControllerRuns.TargetRateBound` | controllers/hvpa_controller.go:1484-1535 | updates of the target obey the same bound, plus those whose status update was lost |
| `RunGuarantees.OomCausesDistinct` | controllers/hvpa_controller.go:1666-1688 | the OOM kills that set the flag in a run finished at strictly increasing times: a redelivered one never sets it again |
| `RunGuarantees.CausesAreDelivered` | controllers/hvpa_controller.go:1669-1681 | each of them is an OOM kill that a delivered pod reported |
| `RunGuarantees.RateBoundByCauses` | controllers/hvpa_controller.go:1512-1528 | the rate bound with the set-events replaced by distinct OOM kills and evictions |
| `RunGuarantees.EvictionBuysOverrideAgain` | controllers/hvpa_controller.go:1641-1664 | a run in which one evicted pod, delivered twice, buys two overrides, and the target is scaled twice one second apart |
| `RunGuarantees.RedeliverySetsIff` | controllers/hvpa_controller.go:1627-1688 | exactly when a pod delivered again after a scaling sets the flag once more: it was evicted under memory pressure and has the requests of the new template |
| `RunGuarantees.ReplicasStayInBand` | controllers/hvpa_controller.go:737-741 | replicas that start between minimum and maximum stay there in every run, if the HPA asks for nothing else |
| `RunGuarantees.RequestsStayBelowLimits` | controllers/hvpa_controller.go:1213-1224 | requests at or below their positive limits stay so in every run |
| `RunGuarantees.CpuStaysInHull` | controllers/hvpa_controller.go:1014-1038 | CPU requests within any hull stay in it in every run whose recommendations do, where the gap parameters cover requests |
| `RunGuarantees.BlockedReasonsKeyed` | controllers/hvpa_controller.go:574-585 | what one reconciliation records has distinct reasons, at most five, the vertical ones first and in order of priority; a horizontal block never carries the weight reason |
| `RunGuarantees.RecordedReasonsKeyed` | controllers/hvpa_metrics.go:456-463 | in every run each recorded entry is found in the map the metrics build from the status |
| `RunGuarantees.ScalingIsRecorded` | controllers/hvpa_controller.go:1512-1528 | a recorded scaling leaves complementary weights, its time, the new and the old replica count, and the applied requests |
| `RunGuarantees.WeightsComplement` | controllers/hvpa_controller.go:1512-1516 | in every run from the start the two weights in the status sum to 100 once something has been scaled |
| `RunGuarantees.ControllerConverges` | controllers/hvpa_controller.go:582-626 | a run of as many unblocked reconciliations as the distance ends at a count where scaling rests, even if status updates fail |
| `RunGuarantees.DecreaseDropped` | controllers/hvpa_controller.go:599-602 | an input whose vertical decrease passes every gate of its own and is dropped without being recorded as blocked |
| `Ownership.AdoptionControls` | vendor/sigs.k8s.io/controller-runtime/pkg/controller/controllerutil/controllerutil.go:59-141 | adopting an orphan makes the adopter its only controller |
| `Ownership.ReleaseFrees` | controllers/controller_ref_manager.go:386-404 | releasing an object with one controller leaves it without any |
| `Ownership.RefManager.CanAdopt` | controllers/controller_ref_manager.go:55-62 | the HVPA is read again at most once, and all adoptions of a pass share that verdict |
| `Ownership.RefManager.Adopt` | controllers/controller_ref_manager.go:367-382 | an adoption writes the object only if the verdict allows it |
| `Ownership.RefManager.Release` | controllers/controller_ref_manager.go:312-419 | the loop removes exactly the references of this HVPA; only a transient failure is an error, and with the second version of HPAs none is |
| `Ownership.RefManager.ClaimObject` | controllers/controller_ref_manager.go:79-136 | claiming touches one object, in the way the claim function says for its controller, its labels and the outcome of the patch |
| `Ownership.RefManager.ClaimChildren` | controllers/controller_ref_manager.go:190-283 | the loop claims every listed object on its own, returns the claimed ones in order of the listing, and fails iff one of them did |
| `ChildReconciliation.SyncOneKeepsOthers` | controllers/hpa_util.go:134-204 | synchronising one child leaves every other one, and its own owners and labels, as they are |
| `ChildReconciliation.SyncSpecs` | controllers/vpa_util.go:78-93 | the synchronising loop, up to its first failure, is the specified one; a missing update mode or minimum is used unchecked |
| `ChildReconciliation.DeleteDuplicates` | controllers/hvpa_controller.go:282-289 | all claimed objects but the first are deleted, failures notwithstanding |
| `ChildReconciliation.ClaimedArePresent` | controllers/controller_ref_manager.go:272-282 | the claimed list holds exactly the objects claimed, each once |
| `ChildReconciliation.SyncKeepsKeys` | controllers/vpa_util.go:78-93 | synchronising changes only what is to be synchronised, and only of claimed objects |
| `ChildReconciliation.ReconcileChildren` | controllers/hvpa_controller.go:245-464 | the whole pass, with any calls failing, ends in the specified store and result; without an error it returns a status iff a child is to be deployed |
| `OwnershipGuarantees.ClaimKeepsSingle` | controllers/controller_ref_manager.go:79-136 | claiming never makes a second controller, never touches another controller's object, and what is claimed is controlled |
| `OwnershipGuarantees.PassRespects` | controllers/hvpa_controller.go:245-464 | no pass, whatever fails, changes, releases or deletes an object that someone else controls, or gives an object a second controller |
| `OwnershipGuarantees.ControlIsSafe` | controllers/hvpa_controller.go:266-320 | over every interleaving of passes by any number of HVPAs with any selectors: no object ever has two controllers, and an object of an HVPA that makes no pass stays exactly as it was |
| `OwnershipGuarantees.ClaimIsExact` | controllers/controller_ref_manager.go:245-283 | without failing patches a live HVPA claims exactly its matching objects and the matching orphans not under deletion, releases its other ones, and changes no others |
| `OwnershipGuarantees.DeletingClaimsNothing` | controllers/controller_ref_manager.go:92-107 | an HVPA under deletion changes nothing |
| `OwnershipGuarantees.FailuresAreLocal` | controllers/controller_ref_manager.go:272-282 | the outcome for one object does not depend on the failures of others |
| `OwnershipGuarantees.PassConverges` | controllers/hvpa_controller.go:245-464 | a pass whose calls succeed ends well iff no object to be claimed lacks its update mode or minimum, and then the HVPA controls one object, in sync, if a child is to be deployed, and none if not |
| `OwnershipGuarantees.SettledIsFixed` | controllers/vpa_util.go:48-51 | once settled, a further such pass changes nothing |
| `OwnershipGuarantees.TwoPassesAreOne` | controllers/hvpa_controller.go:245-320 | so two passes leave what one pass leaves |
| `OwnershipGuarantees.SuccessLeaves` | controllers/hvpa_controller.go:274-464 | after any pass reported as successful the HVPA controls the kept object, or with the second API version possibly none, and beside it exactly the duplicates it failed to delete and the objects whose release was refused as invalid or, with the second version, failed |
| `OwnershipGuarantees.SilentFailedRelease` | controllers/controller_ref_manager.go:312-365 | an object that stays controlled when it is released is reported iff the release failed, and never with the second API version |
| `ChildEffects.AdoptionKeepsOthers` | vendor/sigs.k8s.io/controller-runtime/pkg/controller/controllerutil/controllerutil.go:59-141 | adoption adds the reference, in place of one to the same owner, and keeps all others |
| `ChildEffects.OrphanIsAdoptedIff` | controllers/controller_ref_manager.go:109-135 | an orphan is adopted and claimed iff the HVPA is live, at the start and when read again, selects it, it is not under deletion and the patch succeeds |
| `ChildEffects.OwnIsReleasedIff` | controllers/controller_ref_manager.go:82-107 | a controlled object is claimed iff it is selected, and otherwise released iff the HVPA is not under deletion and the patch succeeds |
| `ChildEffects.ClaimFailsIff` | controllers/controller_ref_manager.go:272-283 | claiming fails iff an orphan to be adopted is refused or a release fails with an error that is not lost |
| `ChildEffects.AtRestIsAsWanted` | controllers/vpa_util.go:95-131 | a settled HVPA controls exactly one child if one is to be deployed, and none if not: a VPA with its policy and update mode Off, an HPA with its bounds, metrics and target |
| `ChildEffects.CleanPassIsAsWanted` | controllers/vpa_util.go:48-131 | so does an HVPA after any pass without an error whose calls succeed |
| `ChildEffects.SuccessMeans` | controllers/hvpa_controller.go:245-464 | what a pass without an error tells about its calls, whatever they return, and that the kept child is then specified so |
| `ChildEffects.SyncOneInPlain` | controllers/vpa_util.go:48-93 | synchronising one child: when it panics, fails or goes well, and what it leaves |
| `ChildEffects.SyncStopsAtFirst` | controllers/vpa_util.go:78-93 | the loop ends at the first child that does not go well and leaves those after it as they are |
| `ChildEffects.PassInPlain` | controllers/hvpa_controller.go:255-275 | a failing listing changes nothing, and a failing claim does not undo the others |
| `ChildEffects.CreateInPlain` | controllers/hvpa_controller.go:300-320 | what is created where nothing is claimed, and when that is an error |
| `ChildEffects.KeepInPlain` | controllers/hvpa_controller.go:274-298 | which of the claimed children are deleted, and when that is an error |
| `OwnershipRounds.PassTouches` | controllers/hvpa_controller.go:245-464 | after a pass whose calls succeed the HVPA controls an object, or has released it, or has left it exactly as it was; and everything it had outside its selector is released |
| `OwnershipRounds.DisturbsIff` | controllers/hvpa_controller.go:245-464 | a pass of one HVPA unsettles another one iff it releases an object to it that the other selects and that is not under deletion |
| `OwnershipRounds.TwoRoundsSettleAll` | controllers/hvpa_controller.go:245-464 | with overlapping selectors, two rounds of passes in any order, each HVPA taking part in both, settle all HVPAs at once, and then no pass changes the store |
| `HvpaCache.Cache.RemoveFromCache` | controllers/hvpa_controller.go:184-196 | copying the last slot over the removed one, clearing it and truncating leaves no nil slot and the specified list |
| `HvpaCache.UpdateSlots` | controllers/hvpa_controller.go:225-240 | the selector of a cached HVPA is set in place, or a new object is appended |
| `HvpaCache.Cache.UpdateCache` | controllers/hvpa_controller.go:213-241 | other entries and other namespaces are untouched by an update |
| `HvpaCache.Cache.ManageCache` | controllers/hvpa_controller.go:199-243 | a missing HVPA is removed, one whose selector cannot be determined changes nothing, any other is entered or updated, be it with the nil selector of a target without one |
| `HvpaCache.Cache.HvpaOfPod` | controllers/hvpa_controller.go:1572-1582 | the lookup returns the first matching entry of the namespace, and panics if it meets a nil selector before |
| `HvpaCache.RemovedIsWithout` | controllers/hvpa_controller.go:184-196 | swap-removal takes away exactly one name and keeps names unique |
| `HvpaCache.UpsertedIsWith` | controllers/hvpa_controller.go:225-240 | an update sets exactly one name and keeps names unique |
| `HvpaCache.ListsRepresentMap` | controllers/hvpa_controller.go:184-243 | after every history of updates and removals the lists have unique names and hold exactly the abstract map from namespace and name to selector |
| `HvpaCache.PodLookupIsExact` | controllers/hvpa_controller.go:1572-1582 | if at most one cached selector matches a pod or is nil, every history gives the same lookup: that HVPA is found, or the nil selector panics, or nothing is found |
| `HvpaCache.HistoryDecides` | controllers/hvpa_controller.go:1572-1582 | if two selectors end a lookup, another history with the same map makes it end at another one |

## Left out

- `LimitScaling.Proportional`: only the explicit capping to 64 bits is modelled; quantities whose milli-value does not fit 64 bits, and products of a difference and a weight that overflow, are not.
- `LimitScaling.LimitCoversRequest`: stated for a request below its limit; with equal values, or without a request, the limit is the new request itself.
- `ReplicaScaling.WeightedReplicas`: rounds the exact quotient; the floating-point evaluation of the original is not modelled.
- `VerticalDecision.CutIncreaseMeetsMinimumIff`: supposes a request that is not negative, as Kubernetes demands; an increase under override has no minimum.
- `VerticalDecision.AppliedMemoryStaysBetween`: supposes gap parameters that cover requests; without them the cut can lower the request further (`VerticalDecision.NewRequestBounds` for exactly when).
- `RunGuarantees.CpuStaysInHull`: the same, for every step of a run.
- `Controller.Reconciled`: a failing update of the target leaves it unchanged; an update that succeeds but is reported as failed is not modelled.
- `Controller.HpaOf`: the stores of children and the runs of the controller are separate models; a status is returned where `ChildReconciliation.ReconcileChildren` says so, and its content is arbitrary.
- `ChildReconciliation.Pass`: no staleness between listing and writing, no finalizers, and no conflicts beyond a failing call.
- `Ownership.RefManager.Release`: of the second HPA API version the lost errors are modelled; its conversions are not part of this model.
- `HvpaCache.Cache.ManageCache`: reads of the cache that are not synchronised with updates are outside the model, as is the use of a nil selector for the status of its own HVPA.
- `Controller.HvpaController.HandlePod`: the event filter that lets only OOM kills and evictions through is not modelled; events are arbitrary.
- DaemonSet targets, which have no replica count.
- Resources other than CPU and memory, which the code does not scale either.
- Parsing and formatting of times, durations and quantities; unparsable ones are rejected by validation.
- The target selector and the copies of the update policies in the status, and the weights before the first scaling.
- Metrics, apart from the map by blocking reason; logging, webhooks, manager wiring and leader election.
- Validation itself, apart from what the decision relies on (`HvpaTypes.Validated`).
- The HPA and VPA recommenders, whose recommendations are arbitrary inputs.
