/** The parts of the HVPA specification and of the observed objects that the controller reads
    (api/v1alpha1/hvpa_types.go). Quantities are integers in milli-units; for memory, milli-bytes. */
module HvpaTypes {
  import opened MaintenanceWindow

  datatype Option<+T> = None | Some(value: T)

  datatype Resource = Cpu | Memory

  /** The CPU and memory entries of a resource list; a missing list has no entries. */
  datatype ResourceList = ResourceList(cpu: Option<int>, memory: Option<int>) {
    function Entry(r: Resource): Option<int> {
      if r.Cpu? then cpu else memory
    }

    predicate Has(r: Resource) {
      Entry(r).Some?
    }

    /** A missing entry reads as zero, as ResourceList.Cpu() and ResourceList.Memory() do. */
    function Quantity(r: Resource): int {
      if Entry(r).Some? then Entry(r).value else 0
    }

    function With(r: Resource, quantity: int): ResourceList {
      if r.Cpu? then this.(cpu := Some(quantity)) else this.(memory := Some(quantity))
    }

    /** This list with the entries of another one written over it. */
    function Overlay(more: ResourceList): (l: ResourceList)
      ensures forall r: Resource :: l.Entry(r) == if more.Has(r) then more.Entry(r) else Entry(r)
    {
      ResourceList(if more.cpu.Some? then more.cpu else cpu, if more.memory.Some? then more.memory else memory)
    }
  }

  const EMPTY := ResourceList(None, None)

  function Listing(entry: Resource -> Option<int>): (l: ResourceList)
    ensures forall r: Resource :: l.Entry(r) == entry(r)
  {
    ResourceList(entry(Cpu), entry(Memory))
  }

  datatype UpdateMode = Auto | Off | DuringWindow

  datatype ChangeParams = ChangeParams(value: Option<int>, percentage: Option<int>)

  datatype ScaleParams = ScaleParams(cpu: ChangeParams, memory: ChangeParams) {
    function For(r: Resource): ChangeParams {
      if r.Cpu? then cpu else memory
    }
  }

  /** The stabilization window is in seconds. A missing window is a window of zero. */
  datatype ScaleType = ScaleType(updateMode: Option<UpdateMode>, stabilization: Option<int>, minChange: ScaleParams) {
    function Mode(): UpdateMode {
      if updateMode.Some? then updateMode.value else Auto
    }

    function Window(): int {
      if stabilization.Some? then stabilization.value else 0
    }
  }

  datatype Interval = Interval(vpaWeight: int, start: int, last: int)

  datatype ControlledValues = RequestsAndLimits | RequestsOnly

  datatype ContainerPolicy = ContainerPolicy(container: string, resources: Option<seq<Resource>>,
                                             values: Option<ControlledValues>)

  datatype HvpaSpec = HvpaSpec(
    hpaByHvpa: bool, hpaDeploy: bool, hpaUp: ScaleType, hpaDown: ScaleType, minReplicas: int, maxReplicas: int,
    vpaDeploy: bool, vpaUp: ScaleType, vpaDown: ScaleType, policy: Option<seq<ContainerPolicy>>, gap: ScaleParams,
    intervals: seq<Interval>, window: Option<TimeWindow>)

  /** An HPA is kept only if it is to be deployed and both of its modes are Auto. */
  predicate HpaWanted(spec: HvpaSpec) {
    spec.hpaDeploy && spec.hpaUp.Mode() == Auto && spec.hpaDown.Mode() == Auto
  }

  datatype Container = Container(name: string, requests: ResourceList, limits: ResourceList)

  datatype Recommendation = Recommendation(container: string, target: ResourceList)

  datatype BlockingReason = WeightReason | UpdatePolicyReason | StabilizationReason | WindowReason | MinChangeReason

  /** One value for each blocking reason. */
  datatype ByReason<T> = ByReason(weight: T, policy: T, stabilization: T, window: T, minChange: T) {
    function At(reason: BlockingReason): T {
      match reason
      case WeightReason => weight
      case UpdatePolicyReason => policy
      case StabilizationReason => stabilization
      case WindowReason => window
      case MinChangeReason => minChange
    }

    function With(reason: BlockingReason, t: T): (b: ByReason<T>)
      ensures forall other :: b.At(other) == if other == reason then t else At(other)
    {
      match reason
      case WeightReason => this.(weight := t)
      case UpdatePolicyReason => this.(policy := t)
      case StabilizationReason => this.(stabilization := t)
      case WindowReason => this.(window := t)
      case MinChangeReason => this.(minChange := t)
    }
  }

  function Uniform<T>(t: T): (b: ByReason<T>)
    ensures forall reason :: b.At(reason) == t
  {
    ByReason(t, t, t, t, t)
  }

  lemma SameByReason<T>(a: ByReason<T>, b: ByReason<T>)
    requires forall reason :: a.At(reason) == b.At(reason)
    ensures a == b
  {
    assert a.weight == a.At(WeightReason) == b.At(WeightReason);
    assert a.policy == a.At(UpdatePolicyReason) == b.At(UpdatePolicyReason);
    assert a.stabilization == a.At(StabilizationReason) == b.At(StabilizationReason);
    assert a.window == a.At(WindowReason) == b.At(WindowReason);
    assert a.minChange == a.At(MinChangeReason) == b.At(MinChangeReason);
  }

  datatype BlockedScaling = BlockedScaling(reason: BlockingReason, hpaCurrent: int, hpaDesired: int,
                                           vpa: seq<Recommendation>)

  predicate NonNegative(p: ChangeParams) {
    p.percentage.Some? ==> p.percentage.value >= 0
  }

  predicate ValidScaleParams(p: ScaleParams) {
    NonNegative(p.cpu) && NonNegative(p.memory)
  }

  /** What the validation of the specification and the bounds in the resource schema promise. */
  predicate Validated(spec: HvpaSpec) {
    && 1 <= spec.minReplicas <= spec.maxReplicas
    && ValidScaleParams(spec.hpaUp.minChange) && ValidScaleParams(spec.hpaDown.minChange)
    && ValidScaleParams(spec.vpaUp.minChange) && ValidScaleParams(spec.vpaDown.minChange)
    && ValidScaleParams(spec.gap)
    && WeightsInRange(spec.intervals)
  }

  predicate WeightsInRange(intervals: seq<Interval>) {
    forall i :: 0 <= i < |intervals| ==> 0 <= intervals[i].vpaWeight <= 100
  }

  /** Index of the first container with a name, or the number of containers. */
  function IndexOf(containers: seq<Container>, name: string): (i: nat)
    ensures i <= |containers|
    ensures i < |containers| ==> containers[i].name == name
    ensures forall j :: 0 <= j < i ==> containers[j].name != name
  {
    if containers == [] then 0
    else if containers[0].name == name then 0
    else
      var rest := IndexOf(containers[1..], name);
      assert forall j :: 0 < j < |containers| ==> containers[j] == containers[1..][j - 1];
      rest + 1
  }
}
