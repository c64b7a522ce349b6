/** What a pod needs of its node: `aggregate_containers` and
    `pod_resource_amounts`. */
module PodResources {
  import opened Options
  import opened Quantity
  import opened QuantityParse

  type Amounts = map<string, Amount>
  type Quantities = map<string, string>

  datatype Container = Container(name: string, requests: Option<Quantities>, limits: Option<Quantities>,
                                 restartPolicy: Option<string>)
  datatype ContainerStatus = ContainerStatus(name: string, requests: Option<Quantities>, allocation: Option<Quantities>)
  datatype Condition = Condition(type_: string, reason: Option<string>)
  datatype PodStatus = PodStatus(containers: seq<ContainerStatus>, initContainers: seq<ContainerStatus>,
                                 conditions: seq<Condition>)
  datatype PodSpec = PodSpec(containers: seq<Container>, initContainers: seq<Container>,
                             requests: Option<Quantities>, limits: Option<Quantities>, overhead: Option<Quantities>)
  datatype Pod = Pod(spec: Option<PodSpec>, status: Option<PodStatus>)

  /** Quantities that do not parse are left out. */
  function AmountsOf(values: Option<Quantities>): Amounts {
    match values
    case None => map[]
    case Some(q) => map name | name in q && Parsed(q[name]).Some? :: Parsed(q[name]).value
  }

  function SaturatingAdd(a: int, b: int): (r: int)
    ensures InI128(a + b) ==> r == a + b
    ensures a + b > I128_MAX ==> r == I128_MAX
    ensures a + b < I128_MIN ==> r == I128_MIN
  {
    if a + b > I128_MAX then I128_MAX else if a + b < I128_MIN then I128_MIN else a + b
  }

  function AddOne(current: Amount, amount: Amount): Amount {
    Amount(SaturatingAdd(current.nanos, amount.nanos), if current.nanos == 0 then amount.format else current.format)
  }

  function MaxOne(current: Amount, amount: Amount): Amount {
    if amount.nanos > current.nanos then amount else current
  }

  function Added(target: Amounts, values: Amounts): Amounts {
    map n | n in target.Keys + values.Keys ::
      if n !in values then target[n] else if n in target then AddOne(target[n], values[n]) else values[n]
  }

  function Maxed(target: Amounts, values: Amounts): Amounts {
    map n | n in target.Keys + values.Keys ::
      if n !in values then target[n] else if n in target then MaxOne(target[n], values[n]) else values[n]
  }

  predicate Supported(name: string) {
    name == "cpu" || name == "memory" || "hugepages-" <= name
  }

  function Overridden(target: Amounts, values: Amounts): Amounts {
    target + map n | n in values && Supported(n) :: values[n]
  }

  function Raised(target: Amounts, overhead: Amounts): Amounts {
    map n | n in target ::
      if n in overhead && target[n].nanos != 0
      then Amount(SaturatingAdd(target[n].nanos, overhead[n].nanos), target[n].format)
      else target[n]
  }

  /** The map that the source's `add_amounts` and `max_amounts` update in place. */
  class ResourceAmounts {
    var entries: Amounts

    constructor (start: Amounts)
      ensures entries == start
    {
      entries := start;
    }

    method AddAmounts(values: Amounts)
      modifies this
      ensures entries == Added(old(entries), values)
      ensures entries.Keys == old(entries).Keys + values.Keys
      ensures forall n :: n in old(entries) && n in values ==>
        && entries[n].format == (if old(entries)[n].nanos == 0 then values[n].format else old(entries)[n].format)
        && entries[n].nanos == SaturatingAdd(old(entries)[n].nanos, values[n].nanos)
      ensures forall n :: n in old(entries) && n !in values ==> entries[n] == old(entries)[n]
      ensures forall n :: n !in old(entries) && n in values ==> entries[n] == values[n]
    {
      ghost var before := entries;
      var todo := values.Keys;
      while todo != {}
        invariant todo <= values.Keys
        invariant entries.Keys == before.Keys + (values.Keys - todo)
        invariant forall n :: n in entries ==>
          entries[n] == if n in values && n !in todo then Added(before, values)[n] else before[n]
      {
        var name :| name in todo;
        if name in entries {
          entries := entries[name := AddOne(entries[name], values[name])];
        } else {
          entries := entries[name := values[name]];
        }
        todo := todo - {name};
      }
    }

    /** Pod-level values replace the totals of the resources that support them. */
    method Override(values: Amounts)
      modifies this
      ensures entries == Overridden(old(entries), values)
    {
      ghost var before := entries;
      var todo := values.Keys;
      while todo != {}
        invariant todo <= values.Keys
        invariant forall n :: n in entries <==> n in before || (n in values && n !in todo && Supported(n))
        invariant forall n :: n in entries ==>
          entries[n] == if n in values && n !in todo && Supported(n) then values[n] else before[n]
      {
        var name :| name in todo;
        if Supported(name) {
          entries := entries[name := values[name]];
        }
        todo := todo - {name};
      }
    }

    /** Overhead raises the limits that exist and are not zero. */
    method Raise(overhead: Amounts)
      modifies this
      ensures entries == Raised(old(entries), overhead)
    {
      ghost var before := entries;
      var todo := overhead.Keys;
      while todo != {}
        invariant todo <= overhead.Keys && entries.Keys == before.Keys
        invariant forall n :: n in entries ==>
          entries[n] == if n in overhead && n !in todo then Raised(before, overhead)[n] else before[n]
      {
        var name :| name in todo;
        if name in entries && entries[name].nanos != 0 {
          var nanos := SaturatingAdd(entries[name].nanos, overhead[name].nanos);
          entries := entries[name := Amount(nanos, entries[name].format)];
        }
        todo := todo - {name};
      }
    }

    method MaxAmounts(values: Amounts)
      modifies this
      ensures entries == Maxed(old(entries), values)
      ensures entries.Keys == old(entries).Keys + values.Keys
      ensures forall n :: n in old(entries) && n in values ==>
        entries[n] == if values[n].nanos > old(entries)[n].nanos then values[n] else old(entries)[n]
      ensures forall n :: n in old(entries) && n !in values ==> entries[n] == old(entries)[n]
      ensures forall n :: n !in old(entries) && n in values ==> entries[n] == values[n]
    {
      ghost var before := entries;
      var todo := values.Keys;
      while todo != {}
        invariant todo <= values.Keys
        invariant entries.Keys == before.Keys + (values.Keys - todo)
        invariant forall n :: n in entries ==>
          entries[n] == if n in values && n !in todo then Maxed(before, values)[n] else before[n]
      {
        var name :| name in todo;
        if name in entries {
          if values[name].nanos > entries[name].nanos {
            entries := entries[name := values[name]];
          }
        } else {
          entries := entries[name := values[name]];
        }
        todo := todo - {name};
      }
    }
  }

  // ----- one container -----

  function FindStatus(statuses: seq<ContainerStatus>, name: string): Option<ContainerStatus> {
    if statuses == [] then None
    else if statuses[0].name == name then Some(statuses[0])
    else FindStatus(statuses[1..], name)
  }

  function StatusFor(pod: Pod, name: string): Option<ContainerStatus> {
    if pod.status.None? then None
    else FindStatus(pod.status.value.containers + pod.status.value.initContainers, name)
  }

  predicate ResizeInfeasible(pod: Pod) {
    pod.status.Some? &&
    Condition("PodResizePending", Some("Infeasible")) in pod.status.value.conditions
  }

  function ContainerAmounts(c: Container, status: Option<ContainerStatus>, requests: bool, useStatus: bool,
                            infeasible: bool): Amounts
  {
    var specValues := AmountsOf(if requests then c.requests else c.limits);
    if !requests || !useStatus then specValues
    else
      var actuated := AmountsOf(if status.Some? then status.value.requests else None);
      var allocation := AmountsOf(if status.Some? then status.value.allocation else None);
      Maxed(Maxed(if infeasible then map[] else specValues, actuated), allocation)
  }

  predicate Restartable(c: Container) {
    c.restartPolicy == Some("Always")
  }

  // ----- what one container asks for -----

  /** A list of quantities names a resource with a quantity that parses. */
  ghost predicate Offers(values: Option<Quantities>, name: string, amount: Amount) {
    values.Some? && name in values.value && Parsed(values.value[name]) == Some(amount)
  }

  lemma AmountsAreOffered(values: Option<Quantities>, name: string)
    ensures name in AmountsOf(values) <==>
      values.Some? && name in values.value && Parsed(values.value[name]).Some?
    ensures name in AmountsOf(values) ==> Parsed(values.value[name]) == Some(AmountsOf(values)[name])
  {
    hide Parsed;
  }

  lemma OfferedIs(values: Option<Quantities>, name: string)
    ensures forall a :: Offers(values, name, a) <==> name in AmountsOf(values) && AmountsOf(values)[name] == a
  {
    AmountsAreOffered(values, name);
    hide Parsed, AmountsOf;
  }

  /** Without the status a container asks for what its own spec says: its
      requests, or its limits when those are wanted. */
  lemma ContainerAsksItsSpec(c: Container, status: Option<ContainerStatus>, requests: bool, useStatus: bool,
                             infeasible: bool, name: string)
    requires !requests || !useStatus
    ensures var asked := ContainerAmounts(c, status, requests, useStatus, infeasible);
      var listed := if requests then c.requests else c.limits;
      && (name in asked <==> listed.Some? && name in listed.value && Parsed(listed.value[name]).Some?)
      && (name in asked ==> Parsed(listed.value[name]) == Some(asked[name]))
  {
    hide Parsed, AmountsOf;
    AmountsAreOffered(if requests then c.requests else c.limits, name);
  }

  /** With it a container asks for the largest of what its spec requests, unless
      its resize is infeasible, what it was last given and what is allocated. */
  lemma ContainerAsksTheLargest(c: Container, status: Option<ContainerStatus>, infeasible: bool, name: string)
    ensures var asked := ContainerAmounts(c, status, true, true, infeasible);
      var spec := if infeasible then None else c.requests;
      var actuated := if status.Some? then status.value.requests else None;
      var granted := if status.Some? then status.value.allocation else None;
      && (forall a :: Offers(spec, name, a) || Offers(actuated, name, a) || Offers(granted, name, a) ==>
           name in asked && a.nanos <= asked[name].nanos)
      && (name in asked ==>
           || Offers(spec, name, asked[name]) || Offers(actuated, name, asked[name])
           || Offers(granted, name, asked[name]))
  {
    var spec := if infeasible then None else c.requests;
    var actuated := if status.Some? then status.value.requests else None;
    var granted := if status.Some? then status.value.allocation else None;
    assert AmountsOf(None) == map[];
    OfferedIs(spec, name);
    OfferedIs(actuated, name);
    OfferedIs(granted, name);
    hide Parsed, AmountsOf, Offers;
    var most := Maxed(AmountsOf(spec), AmountsOf(actuated));
    assert ContainerAmounts(c, status, true, true, infeasible) == Maxed(most, AmountsOf(granted));
    hide ContainerAmounts;
    MostIs(AmountsOf(spec), AmountsOf(actuated), name);
    MostIs(most, AmountsOf(granted), name);
    hide Maxed;
  }

  lemma MostIs(a: Amounts, b: Amounts, name: string)
    ensures name in Maxed(a, b) <==> name in a || name in b
    ensures name in a ==> a[name].nanos <= Maxed(a, b)[name].nanos
    ensures name in b ==> b[name].nanos <= Maxed(a, b)[name].nanos
    ensures name in Maxed(a, b) ==>
      (name in a && Maxed(a, b)[name] == a[name]) || (name in b && Maxed(a, b)[name] == b[name])
  {
  }

  /** The status of a container is the first one of its name, main containers
      before init containers. */
  lemma {:induction false} StatusIsFirst(statuses: seq<ContainerStatus>, name: string)
    ensures FindStatus(statuses, name).Some? <==> exists i :: 0 <= i < |statuses| && statuses[i].name == name
    ensures FindStatus(statuses, name).Some? ==>
      exists i :: 0 <= i < |statuses| && FindStatus(statuses, name) == Some(statuses[i])
        && statuses[i].name == name && forall j :: 0 <= j < i ==> statuses[j].name != name
  {
    if statuses != [] && statuses[0].name != name {
      var rest := statuses[1..];
      StatusIsFirst(rest, name);
      if FindStatus(rest, name).Some? {
        var i :| 0 <= i < |rest| && FindStatus(rest, name) == Some(rest[i])
          && rest[i].name == name && forall j :: 0 <= j < i ==> rest[j].name != name;
        assert statuses[i + 1] == rest[i];
        assert forall j :: 1 <= j < i + 1 ==> statuses[j] == rest[j - 1];
      } else {
        assert forall j :: 1 <= j < |statuses| ==> statuses[j] == rest[j - 1];
      }
    }
  }

  lemma StatusOfPod(pod: Pod, name: string)
    ensures StatusFor(pod, name) ==
      if pod.status.None? then None else FindStatus(pod.status.value.containers + pod.status.value.initContainers, name)
    ensures ResizeInfeasible(pod) <==>
      pod.status.Some? && (exists c :: c in pod.status.value.conditions
                                       && c.type_ == "PodResizePending" && c.reason == Some("Infeasible"))
  {
    if ResizeInfeasible(pod) {
      assert Condition("PodResizePending", Some("Infeasible")) in pod.status.value.conditions;
    }
  }

  // ----- the accumulator -----

  datatype Init = Init(amounts: Amounts, restartable: bool)

  function Sum(lists: seq<Amounts>): Amounts {
    if lists == [] then map[] else Added(Sum(lists[..|lists| - 1]), lists[|lists| - 1])
  }

  /** Everything the init loop has accumulated after some init containers. */
  datatype Totals = Totals(result: Amounts, restartable: Amounts, peak: Amounts)

  function InitStep(t: Totals, c: Init): Totals {
    if c.restartable then
      var restartable := Added(t.restartable, c.amounts);
      Totals(Added(t.result, c.amounts), restartable, Maxed(t.peak, restartable))
    else
      Totals(t.result, t.restartable, Maxed(t.peak, Added(c.amounts, t.restartable)))
  }

  function InitTotals(mains: seq<Amounts>, inits: seq<Init>): Totals {
    if inits == [] then Totals(Sum(mains), map[], map[])
    else InitStep(InitTotals(mains, inits[..|inits| - 1]), inits[|inits| - 1])
  }

  function Aggregated(mains: seq<Amounts>, inits: seq<Init>): Amounts {
    var t := InitTotals(mains, inits);
    Maxed(t.result, t.peak)
  }

  function MainAmounts(pod: Pod, requests: bool, useStatus: bool): seq<Amounts>
    requires pod.spec.Some?
  {
    var cs := pod.spec.value.containers;
    seq(|cs|, i requires 0 <= i < |cs| =>
      ContainerAmounts(cs[i], StatusFor(pod, cs[i].name), requests, useStatus, ResizeInfeasible(pod)))
  }

  function InitAmounts(pod: Pod, requests: bool, useStatus: bool): seq<Init>
    requires pod.spec.Some?
  {
    var cs := pod.spec.value.initContainers;
    seq(|cs|, i requires 0 <= i < |cs| =>
      Init(ContainerAmounts(cs[i], StatusFor(pod, cs[i].name), requests, useStatus && Restartable(cs[i]),
                            ResizeInfeasible(pod)),
           Restartable(cs[i])))
  }

  function PodTotal(pod: Pod, requests: bool, useStatus: bool): Amounts {
    if pod.spec.None? then map[]
    else Aggregated(MainAmounts(pod, requests, useStatus), InitAmounts(pod, requests, useStatus))
  }

  /** The accumulation loops, over what each container asks for. */
  method Accumulate(mains: seq<Amounts>, inits: seq<Init>) returns (r: Amounts)
    ensures r == Aggregated(mains, inits)
  {
    var result := new ResourceAmounts(map[]);
    for i := 0 to |mains|
      invariant fresh(result) && result.entries == Sum(mains[..i])
    {
      assert mains[..i + 1][..i] == mains[..i];
      result.AddAmounts(mains[i]);
    }
    assert mains[..|mains|] == mains;
    var restartable := new ResourceAmounts(map[]);
    var initPeak := new ResourceAmounts(map[]);
    for i := 0 to |inits|
      invariant Totals(result.entries, restartable.entries, initPeak.entries) == InitTotals(mains, inits[..i])
      invariant fresh(result) && fresh(restartable) && fresh(initPeak)
      invariant result != restartable && result != initPeak && restartable != initPeak
    {
      assert inits[..i + 1][..i] == inits[..i];
      var Init(values, restartableInit) := inits[i];
      var current := new ResourceAmounts(values);
      if restartableInit {
        result.AddAmounts(values);
        restartable.AddAmounts(values);
        current.entries := restartable.entries;
      } else {
        current.AddAmounts(restartable.entries);
      }
      initPeak.MaxAmounts(current.entries);
    }
    assert inits[..|inits|] == inits;
    result.MaxAmounts(initPeak.entries);
    return result.entries;
  }

  method AggregateContainers(pod: Pod, requests: bool, useStatus: bool) returns (r: Amounts)
    ensures r == PodTotal(pod, requests, useStatus)
  {
    if pod.spec.None? {
      return map[];
    }
    r := Accumulate(MainAmounts(pod, requests, useStatus), InitAmounts(pod, requests, useStatus));
  }

  // ----- the peak over start-up phases -----

  ghost predicate NonNegative(a: Amounts) {
    forall n :: n in a ==> 0 <= a[n].nanos <= I128_MAX
  }

  /** What a list asks of one resource: nothing if it does not name it. */
  function At(a: Amounts, name: string): int {
    if name in a then a[name].nanos else 0
  }

  function Cap(n: int): int {
    if n > I128_MAX then I128_MAX else n
  }

  function Total(lists: seq<Amounts>, name: string): int {
    if lists == [] then 0 else Total(lists[..|lists| - 1], name) + At(lists[|lists| - 1], name)
  }

  /** The demand of the restartable init containers among the first `i`. */
  function SidecarsBefore(inits: seq<Init>, i: nat, name: string): int
    requires i <= |inits|
  {
    if i == 0 then 0
    else SidecarsBefore(inits, i - 1, name) + if inits[i - 1].restartable then At(inits[i - 1].amounts, name) else 0
  }

  /** Start-up runs the init containers one by one, each next to the restartable
      ones before it; the last phase runs everything that stays. */
  function PhaseDemand(mains: seq<Amounts>, inits: seq<Init>, i: nat, name: string): int
    requires i <= |inits|
  {
    SidecarsBefore(inits, i, name) + if i < |inits| then At(inits[i].amounts, name) else Total(mains, name)
  }

  lemma {:induction false} SumIsCappedTotal(lists: seq<Amounts>, name: string)
    requires forall i :: 0 <= i < |lists| ==> NonNegative(lists[i])
    ensures At(Sum(lists), name) == Cap(Total(lists, name)) && Total(lists, name) >= 0
    ensures NonNegative(Sum(lists))
  {
    if lists != [] {
      var init := lists[..|lists| - 1];
      SumIsCappedTotal(init, name);
      AddedKeeps(Sum(init), lists[|lists| - 1], name);
    }
  }

  lemma AddedKeeps(a: Amounts, b: Amounts, name: string)
    requires NonNegative(a) && NonNegative(b)
    ensures NonNegative(Added(a, b)) && At(Added(a, b), name) == Cap(At(a, name) + At(b, name))
  {
  }

  lemma MaxedKeeps(a: Amounts, b: Amounts, name: string)
    requires NonNegative(a) && NonNegative(b)
    ensures NonNegative(Maxed(a, b))
    ensures At(Maxed(a, b), name) == if At(a, name) >= At(b, name) then At(a, name) else At(b, name)
  {
  }

  ghost predicate AllNonNegative(mains: seq<Amounts>, inits: seq<Init>) {
    && (forall i :: 0 <= i < |mains| ==> NonNegative(mains[i]))
    && (forall i :: 0 <= i < |inits| ==> NonNegative(inits[i].amounts))
  }

  /** `peak` is the largest capped demand of the first `n` phases, or 0 if there is none. */
  ghost predicate IsPeak(peak: int, mains: seq<Amounts>, inits: seq<Init>, n: nat, name: string)
    requires n <= |inits| + 1
  {
    && (forall i :: 0 <= i < n ==> Cap(PhaseDemand(mains, inits, i, name)) <= peak)
    && (if n == 0 then peak == 0 else exists i :: 0 <= i < n && peak == Cap(PhaseDemand(mains, inits, i, name)))
  }

  /** The largest capped demand of all phases, the last one included. */
  ghost predicate PhasePeak(peak: int, mains: seq<Amounts>, inits: seq<Init>, name: string) {
    IsPeak(peak, mains, inits, |inits| + 1, name)
  }

  lemma PeakExtends(peak: int, demand: int, mains: seq<Amounts>, inits: seq<Init>, n: nat, name: string)
    requires n <= |inits| && IsPeak(peak, mains, inits, n, name)
    requires demand == Cap(PhaseDemand(mains, inits, n, name)) && demand >= 0
    ensures IsPeak(if peak >= demand then peak else demand, mains, inits, n + 1, name)
  {
  }

  /** The three accumulators after `n` init containers, for one resource. */
  ghost predicate Tracks(t: Totals, mains: seq<Amounts>, inits: seq<Init>, n: nat, name: string)
    requires n <= |inits|
  {
    && NonNegative(t.result) && NonNegative(t.restartable) && NonNegative(t.peak)
    && SidecarsBefore(inits, n, name) >= 0 && Total(mains, name) >= 0
    && At(t.restartable, name) == Cap(SidecarsBefore(inits, n, name))
    && At(t.result, name) == Cap(SidecarsBefore(inits, n, name) + Total(mains, name))
    && IsPeak(At(t.peak, name), mains, inits, n, name)
  }

  lemma InitStepKeeps(t: Totals, c: Init, name: string)
    requires NonNegative(t.result) && NonNegative(t.restartable) && NonNegative(t.peak) && NonNegative(c.amounts)
    ensures var u := InitStep(t, c); var own := At(c.amounts, name);
      && NonNegative(u.result) && NonNegative(u.restartable) && NonNegative(u.peak)
      && At(u.restartable, name) == Cap(At(t.restartable, name) + if c.restartable then own else 0)
      && At(u.result, name) == Cap(At(t.result, name) + if c.restartable then own else 0)
      && var demand := Cap(At(t.restartable, name) + own);
         At(u.peak, name) == if At(t.peak, name) >= demand then At(t.peak, name) else demand
  {
    AddedKeeps(t.result, c.amounts, name);
    AddedKeeps(t.restartable, c.amounts, name);
    AddedKeeps(c.amounts, t.restartable, name);
    var current := if c.restartable then Added(t.restartable, c.amounts) else Added(c.amounts, t.restartable);
    MaxedKeeps(t.peak, current, name);
  }

  lemma TracksNext(t: Totals, u: Totals, mains: seq<Amounts>, inits: seq<Init>, n: nat, name: string)
    requires n < |inits| && Tracks(t, mains, inits, n, name) && NonNegative(inits[n].amounts)
    requires u == InitStep(t, inits[n])
    ensures Tracks(u, mains, inits, n + 1, name)
  {
    InitStepKeeps(t, inits[n], name);
    var demand := Cap(PhaseDemand(mains, inits, n, name));
    assert demand == Cap(At(t.restartable, name) + At(inits[n].amounts, name));
    PeakExtends(At(t.peak, name), demand, mains, inits, n, name);
  }

  /** The init loop, one resource at a time. */
  lemma {:induction false} InitTotalsAre(mains: seq<Amounts>, inits: seq<Init>, n: nat, name: string)
    requires AllNonNegative(mains, inits) && n <= |inits|
    ensures Tracks(InitTotals(mains, inits[..n]), mains, inits, n, name)
  {
    if n == 0 {
      SumIsCappedTotal(mains, name);
      assert inits[..0] == [];
    } else {
      InitTotalsAre(mains, inits, n - 1, name);
      assert inits[..n][..n - 1] == inits[..n - 1] && inits[..n][n - 1] == inits[n - 1];
      TracksNext(InitTotals(mains, inits[..n - 1]), InitTotals(mains, inits[..n]), mains, inits, n - 1, name);
    }
  }

  /** Sidecar-aware peak: per resource, the aggregate is the largest demand of
      any start-up phase, capped at the 128-bit maximum. */
  lemma AggregateIsPeak(mains: seq<Amounts>, inits: seq<Init>, name: string)
    requires AllNonNegative(mains, inits)
    ensures PhasePeak(At(Aggregated(mains, inits), name), mains, inits, name)
  {
    InitTotalsAre(mains, inits, |inits|, name);
    assert inits[..|inits|] == inits;
    LastPhase(InitTotals(mains, inits), mains, inits, name);
  }

  lemma LastPhase(t: Totals, mains: seq<Amounts>, inits: seq<Init>, name: string)
    requires Tracks(t, mains, inits, |inits|, name)
    ensures IsPeak(At(Maxed(t.result, t.peak), name), mains, inits, |inits| + 1, name)
  {
    MaxedKeeps(t.result, t.peak, name);
    PeakExtends(At(t.peak, name), At(t.result, name), mains, inits, |inits|, name);
  }

  // ----- the whole pod -----

  function PodLevel(pod: Pod, requests: bool): Amounts {
    if pod.spec.None? then map[] else AmountsOf(if requests then pod.spec.value.requests else pod.spec.value.limits)
  }

  function Overhead(pod: Pod): Amounts {
    if pod.spec.None? then map[] else AmountsOf(pod.spec.value.overhead)
  }

  function PodRequests(pod: Pod, useStatus: bool): Amounts {
    Added(Overridden(PodTotal(pod, true, useStatus), PodLevel(pod, true)), Overhead(pod))
  }

  function PodLimits(pod: Pod, useStatus: bool): Amounts {
    Raised(Overridden(PodTotal(pod, false, useStatus), PodLevel(pod, false)), Overhead(pod))
  }

  method PodResourceAmounts(pod: Pod, useStatus: bool) returns (requests: Amounts, limits: Amounts)
    ensures requests == PodRequests(pod, useStatus) && limits == PodLimits(pod, useStatus)
  {
    hide PodTotal, AmountsOf, Added, Overridden, Raised;
    requests := AggregateContainers(pod, true, useStatus);
    limits := AggregateContainers(pod, false, useStatus);
    var r := new ResourceAmounts(requests);
    var l := new ResourceAmounts(limits);
    r.Override(PodLevel(pod, true));
    l.Override(PodLevel(pod, false));
    r.AddAmounts(Overhead(pod));
    l.Raise(Overhead(pod));
    return r.entries, l.entries;
  }

  /** What the containers of a pod ask for, in its own order: an init container
      goes by its status only if it restarts. */
  ghost predicate AsksOf(pod: Pod, requests: bool, useStatus: bool, mains: seq<Amounts>, inits: seq<Init>) {
    && pod.spec.Some?
    && |mains| == |pod.spec.value.containers| && |inits| == |pod.spec.value.initContainers|
    && (forall i :: 0 <= i < |mains| ==>
         var c := pod.spec.value.containers[i];
         mains[i] == ContainerAmounts(c, StatusFor(pod, c.name), requests, useStatus, ResizeInfeasible(pod)))
    && (forall i :: 0 <= i < |inits| ==>
         var c := pod.spec.value.initContainers[i];
         var restartable := c.restartPolicy == Some("Always");
         inits[i] == Init(ContainerAmounts(c, StatusFor(pod, c.name), requests, useStatus && restartable,
                                           ResizeInfeasible(pod)), restartable))
  }

  /** For every pod: per resource, what its containers need in all is the largest
      demand of any of its start-up phases. */
  lemma PodTotalIsPeak(pod: Pod, requests: bool, useStatus: bool, mains: seq<Amounts>, inits: seq<Init>, name: string)
    requires AsksOf(pod, requests, useStatus, mains, inits) && AllNonNegative(mains, inits)
    ensures PhasePeak(At(PodTotal(pod, requests, useStatus), name), mains, inits, name)
    ensures NonNegative(PodTotal(pod, requests, useStatus))
  {
    hide ContainerAmounts, StatusFor, ResizeInfeasible, Aggregated, PhasePeak, NonNegative;
    assert mains == MainAmounts(pod, requests, useStatus);
    assert inits == InitAmounts(pod, requests, useStatus);
    AggregateIsPeak(mains, inits, name);
    AggregateNonNegative(mains, inits);
  }

  /** What a list says of one resource, 0 if it does not name it. */
  ghost predicate Says(values: Option<Quantities>, name: string, nanos: int) {
    if values.Some? && name in values.value && Parsed(values.value[name]).Some?
    then nanos == Parsed(values.value[name]).value.nanos
    else nanos == 0
  }

  lemma ListSays(values: Option<Quantities>, name: string)
    ensures Says(values, name, At(AmountsOf(values), name))
  {
    hide Parsed;
    AmountsAreOffered(values, name);
    hide AmountsOf;
  }

  /** A pod-level value counts if its resource supports one and it parses. */
  predicate HasPodLevel(values: Option<Quantities>, name: string) {
    && (name == "cpu" || name == "memory" || "hugepages-" <= name)
    && values.Some? && name in values.value && Parsed(values.value[name]).Some?
  }

  lemma PodLevelWins(pod: Pod, requests: bool, total: Amounts, name: string)
    requires pod.spec.Some?
    ensures var values := if requests then pod.spec.value.requests else pod.spec.value.limits;
      var own := At(Overridden(total, PodLevel(pod, requests)), name);
      if HasPodLevel(values, name) then own == Parsed(values.value[name]).value.nanos else own == At(total, name)
  {
    hide Parsed, AmountsOf;
    AmountsAreOffered(if requests then pod.spec.value.requests else pod.spec.value.limits, name);
  }

  /** A pod requests, per resource, its pod-level value if there is a supported
      one and the peak of its start-up phases otherwise, plus its overhead. */
  lemma PodRequestIs(pod: Pod, useStatus: bool, mains: seq<Amounts>, inits: seq<Init>, name: string, overhead: int)
    requires AsksOf(pod, true, useStatus, mains, inits) && AllNonNegative(mains, inits)
    requires NonNegative(AmountsOf(pod.spec.value.requests)) && NonNegative(AmountsOf(pod.spec.value.overhead))
    requires Says(pod.spec.value.overhead, name, overhead)
    ensures exists peak ::
      && PhasePeak(peak, mains, inits, name)
      && var level := pod.spec.value.requests;
         var own := if HasPodLevel(level, name) then Parsed(level.value[name]).value.nanos else peak;
         At(PodRequests(pod, useStatus), name) == Cap(own + overhead)
  {
    hide Parsed, AmountsOf, PodTotal, PhasePeak, Says, HasPodLevel;
    PodTotalIsPeak(pod, true, useStatus, mains, inits, name);
    var total := PodTotal(pod, true, useStatus);
    PodLevelWins(pod, true, total, name);
    OverheadIs(pod, name, overhead);
    AddedKeeps(Overridden(total, PodLevel(pod, true)), Overhead(pod), name);
  }

  lemma OverheadIs(pod: Pod, name: string, overhead: int)
    requires pod.spec.Some? && Says(pod.spec.value.overhead, name, overhead)
    ensures At(Overhead(pod), name) == overhead
  {
    ListSays(pod.spec.value.overhead, name);
    hide Parsed, AmountsOf;
  }

  /** A limit is found the same way, but overhead only raises one that is not zero. */
  lemma PodLimitIs(pod: Pod, useStatus: bool, mains: seq<Amounts>, inits: seq<Init>, name: string, overhead: int)
    requires AsksOf(pod, false, useStatus, mains, inits) && AllNonNegative(mains, inits)
    requires NonNegative(AmountsOf(pod.spec.value.limits)) && NonNegative(AmountsOf(pod.spec.value.overhead))
    requires Says(pod.spec.value.overhead, name, overhead)
    ensures exists peak ::
      && PhasePeak(peak, mains, inits, name)
      && var level := pod.spec.value.limits;
         var own := if HasPodLevel(level, name) then Parsed(level.value[name]).value.nanos else peak;
         At(PodLimits(pod, useStatus), name) == if own == 0 then 0 else Cap(own + overhead)
  {
    hide Parsed, AmountsOf, PodTotal, PhasePeak, Says, HasPodLevel;
    PodTotalIsPeak(pod, false, useStatus, mains, inits, name);
    var total := PodTotal(pod, false, useStatus);
    PodLevelWins(pod, false, total, name);
    OverheadIs(pod, name, overhead);
    RaisedKeeps(Overridden(total, PodLevel(pod, false)), Overhead(pod), name);
  }

  lemma RaisedKeeps(a: Amounts, b: Amounts, name: string)
    requires NonNegative(a) && NonNegative(b)
    ensures At(Raised(a, b), name) == if At(a, name) == 0 then 0 else Cap(At(a, name) + At(b, name))
  {
  }

  lemma AggregateNonNegative(mains: seq<Amounts>, inits: seq<Init>)
    requires AllNonNegative(mains, inits)
    ensures NonNegative(Aggregated(mains, inits))
  {
    InitTotalsAre(mains, inits, |inits|, "");
    assert inits[..|inits|] == inits;
    MaxedKeeps(InitTotals(mains, inits).result, InitTotals(mains, inits).peak, "");
  }
}
