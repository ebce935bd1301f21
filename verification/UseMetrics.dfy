/** internal/model/report.go: USE metrics from the collected results, the link between raw
    measurements and the health score. */
module UseMetrics {
  import opened Text
  import opened Report
  import opened Health
  import opened AnomalyRules

  /** int(x): towards zero. */
  function Truncate(x: real): int { if x >= 0.0 then x.Floor else -((-x).Floor) }

  function Percent(part: int, whole: int): real
    requires whole > 0
  {
    part as real / whole as real * 100.0
  }

  function CPUMetric(d: Data): USEMetric
    requires d.CPUData?
  {
    var ratio := if d.numCPUs > 0 then d.loadAvg1 / d.numCPUs as real else 0.0;
    USEMetric(100.0 - d.idlePct, if d.numCPUs > 0 && ratio > 1.0 then (ratio - 1.0) * 100.0 else 0.0, 0)
  }

  function MemoryMetric(d: Data): USEMetric
    requires d.MemoryData?
  {
    USEMetric(if d.totalBytes > 0 then Percent(d.totalBytes - d.availableBytes, d.totalBytes) else 0.0,
              if d.swapTotalBytes > 0 then Percent(d.swapUsedBytes, d.swapTotalBytes) else 0.0, 0)
  }

  /** computeDiskUtilization before the cap of 100: the busiest device. */
  function Busiest(devices: seq<Device>): (m: real)
    ensures m >= 0.0
  {
    if devices == [] then 0.0
    else
      var m, u := Busiest(devices[..|devices| - 1]), devices[|devices| - 1].ioTimeMs as real / 10.0;
      if u > m then u else m
  }

  function DeepestQueue(devices: seq<Device>): real {
    if devices == [] then 0.0
    else
      var m, q := DeepestQueue(devices[..|devices| - 1]), devices[|devices| - 1].ioInProgress as real;
      if q > m then q else m
  }

  method ComputeDiskUtilization(devices: seq<Device>) returns (maxUtil: real)
    ensures maxUtil == if Busiest(devices) > 100.0 then 100.0 else Busiest(devices)
  {
    maxUtil := 0.0;
    for i := 0 to |devices|
      invariant maxUtil == Busiest(devices[..i])
    {
      assert devices[..i + 1][..i] == devices[..i];
      var util := devices[i].ioTimeMs as real / 10.0;
      if util > maxUtil {
        maxUtil := util;
      }
    }
    assert devices[..|devices|] == devices;
    if maxUtil > 100.0 {
      maxUtil := 100.0;
    }
  }

  method ComputeDiskSaturation(devices: seq<Device>) returns (maxQueue: real)
    ensures maxQueue == DeepestQueue(devices)
  {
    maxQueue := 0.0;
    for i := 0 to |devices|
      invariant maxQueue == DeepestQueue(devices[..i])
    {
      assert devices[..i + 1][..i] == devices[..i];
      if devices[i].ioInProgress as real > maxQueue {
        maxQueue := devices[i].ioInProgress as real;
      }
    }
    assert devices[..|devices|] == devices;
  }

  function DiskMetric(d: Data): USEMetric
    requires d.DiskData?
  {
    USEMetric(if Busiest(d.devices) > 100.0 then 100.0 else Busiest(d.devices), DeepestQueue(d.devices), 0)
  }

  function RateSum(rates: seq<real>): real {
    if rates == [] then 0.0 else RateSum(rates[..|rates| - 1]) + rates[|rates| - 1]
  }

  method ComputeNetErrors(tcp: Option<TCPStats>, rates: seq<real>) returns (errors: int)
    ensures errors == Truncate(RateSum(rates) + (if tcp.Some? then tcp.value.retransRate else 0.0))
  {
    hide Truncate;
    var total := 0.0;
    for i := 0 to |rates|
      invariant total == RateSum(rates[..i])
    {
      assert rates[..i + 1][..i] == rates[..i];
      total := total + rates[i];
    }
    assert rates[..|rates|] == rates;
    if tcp.Some? {
      total := total + tcp.value.retransRate;
    }
    return Truncate(total);
  }

  function NetSaturation(tcp: Option<TCPStats>): real {
    if tcp.Some? then (tcp.value.timeWait + tcp.value.closeWait) as real else 0.0
  }

  function NetworkMetric(d: Data): USEMetric
    requires d.NetworkData?
  {
    USEMetric(0.0, NetSaturation(d.tcp),
              Truncate(RateSum(d.errorRates) + (if d.tcp.Some? then d.tcp.value.retransRate else 0.0)))
  }

  predicate IsCPU(d: Data) { d.CPUData? }
  predicate IsMemory(d: Data) { d.MemoryData? }
  predicate IsDisk(d: Data) { d.DiskData? }
  predicate IsNetwork(d: Data) { d.NetworkData? }
  predicate Limited(d: Data) { d.ContainerData? && d.runtime != "none" && d.cpuQuota > 0 && d.cpuPeriod > 0 }
  predicate Capped(d: Data) { d.ContainerData? && d.runtime != "none" && d.memoryLimit > 0 }

  function ContainerCPUMetric(d: Data): USEMetric
    requires Limited(d)
  {
    USEMetric(if d.throttledTime > 0
              then d.throttledTime as real / 1000000.0 / (d.cpuQuota as real / d.cpuPeriod as real) * 100.0 else 0.0,
              d.throttledPeriods as real, 0)
  }

  function ContainerMemoryMetric(d: Data): USEMetric
    requires Capped(d)
  {
    USEMetric(Percent(d.memoryUsage, d.memoryLimit), 0.0, 0)
  }

  /** The first data of the wanted type among the results of a category. */
  function FirstData(rs: seq<Result>, want: Data -> bool): (r: Option<Data>)
    ensures r.Some? ==> want(r.value)
  {
    if rs == [] then None else if want(rs[0].data) then Some(rs[0].data) else FirstData(rs[1..], want)
  }

  /** Containers are not searched for the first: the last that fits wins. */
  function LastData(rs: seq<Result>, want: Data -> bool): (r: Option<Data>)
    ensures r.Some? ==> want(r.value)
  {
    if rs == [] then None
    else if want(rs[|rs| - 1].data) then Some(rs[|rs| - 1].data) else LastData(rs[..|rs| - 1], want)
  }

  function Add(m: map<string, USEMetric>, name: string, metric: Option<USEMetric>): map<string, USEMetric> {
    if metric.Some? then m[name := metric.value] else m
  }

  function FirstMetric(rs: seq<Result>, want: Data -> bool, metric: Data --> USEMetric): Option<USEMetric>
    requires forall d :: want(d) ==> metric.requires(d)
  {
    match FirstData(rs, want) case Some(d) => Some(metric(d)) case None => None
  }

  function LastMetric(rs: seq<Result>, want: Data -> bool, metric: Data --> USEMetric): Option<USEMetric>
    requires forall d :: want(d) ==> metric.requires(d)
  {
    match LastData(rs, want) case Some(d) => Some(metric(d)) case None => None
  }

  /** ComputeUSEMetrics. */
  function Metrics(cats: Categories): map<string, USEMetric> {
    AddAll(FirstMetric(In(cats, "cpu"), IsCPU, CPUMetric),
           FirstMetric(In(cats, "memory"), IsMemory, MemoryMetric),
           FirstMetric(In(cats, "disk"), IsDisk, DiskMetric),
           FirstMetric(In(cats, "network"), IsNetwork, NetworkMetric),
           LastMetric(In(cats, "container"), Limited, ContainerCPUMetric),
           LastMetric(In(cats, "container"), Capped, ContainerMemoryMetric))
  }

  method FindFirst(rs: seq<Result>, want: Data -> bool) returns (r: Option<Data>)
    ensures r == FirstData(rs, want)
  {
    for i := 0 to |rs|
      invariant FirstData(rs, want) == FirstData(rs[i..], want)
    {
      if want(rs[i].data) {
        return Some(rs[i].data);
      }
    }
    return None;
  }

  /** ComputeUSEMetrics, filling the map step by step. */
  method ComputeUSEMetrics(cats: Categories) returns (resources: map<string, USEMetric>)
    ensures resources == Metrics(cats)
  {
    hide CPUMetric, MemoryMetric, NetSaturation, Truncate, RateSum, Busiest, DeepestQueue, FirstData, LastData;
    hide ContainerCPUMetric, ContainerMemoryMetric, In, Limited, Capped, LastMetric;
    resources := map[];
    var cpu := FindFirst(In(cats, "cpu"), IsCPU);
    if cpu.Some? {
      resources := resources["cpu" := CPUMetric(cpu.value)];
    }
    var mem := FindFirst(In(cats, "memory"), IsMemory);
    if mem.Some? {
      resources := resources["memory" := MemoryMetric(mem.value)];
    }
    var disk := FindFirst(In(cats, "disk"), IsDisk);
    if disk.Some? {
      var utilization := ComputeDiskUtilization(disk.value.devices);
      var saturation := ComputeDiskSaturation(disk.value.devices);
      resources := resources["disk" := USEMetric(utilization, saturation, 0)];
    }
    var net := FindFirst(In(cats, "network"), IsNetwork);
    if net.Some? {
      var errors := ComputeNetErrors(net.value.tcp, net.value.errorRates);
      resources := resources["network" := USEMetric(0.0, NetSaturation(net.value.tcp), errors)];
    }
    resources := AddContainers(In(cats, "container"), resources);
  }

  /** The container loop has no break: later results overwrite earlier ones. */
  method AddContainers(rs: seq<Result>, base: map<string, USEMetric>) returns (resources: map<string, USEMetric>)
    requires "container_cpu" !in base && "container_memory" !in base
    ensures resources == Add(Add(base, "container_cpu", LastMetric(rs, Limited, ContainerCPUMetric)),
                             "container_memory", LastMetric(rs, Capped, ContainerMemoryMetric))
  {
    hide ContainerCPUMetric, ContainerMemoryMetric;
    resources := base;
    for i := 0 to |rs|
      invariant resources == Add(Add(base, "container_cpu", LastMetric(rs[..i], Limited, ContainerCPUMetric)),
                                 "container_memory", LastMetric(rs[..i], Capped, ContainerMemoryMetric))
    {
      assert rs[..i + 1][..i] == rs[..i];
      var d := rs[i].data;
      if Limited(d) {
        resources := resources["container_cpu" := ContainerCPUMetric(d)];
      }
      if Capped(d) {
        resources := resources["container_memory" := ContainerMemoryMetric(d)];
      }
    }
    assert rs[..|rs|] == rs;
  }

  // ---------------------------------------------------------------------
  // Worse measurements, worse metrics

  /** The same kind of data measured under at least as much pressure. */
  ghost predicate WorseData(a: Data, b: Data) {
    match a
    case CPUData(idle, load, n) => b.CPUData? && b.idlePct <= idle && b.loadAvg1 >= load && b.numCPUs == n
    case MemoryData(total, avail, swap, used) =>
      && b.MemoryData? && b.totalBytes == total && b.availableBytes <= avail
      && b.swapTotalBytes == swap && b.swapUsedBytes >= used
    case DiskData(devices) => b.DiskData? && WorseDevices(devices, b.devices)
    case NetworkData(tcp, rates, _) =>
      && b.NetworkData? && b.tcp.Some? == tcp.Some?
      && (tcp.Some? ==> b.tcp.value.timeWait + b.tcp.value.closeWait >= tcp.value.timeWait + tcp.value.closeWait
                        && b.tcp.value.retransRate >= tcp.value.retransRate)
      && WorseRates(rates, b.errorRates)
    case ContainerData(runtime, quota, period, time, periods, limit, usage) =>
      && b.ContainerData? && b.runtime == runtime && b.cpuQuota == quota && b.cpuPeriod == period
      && b.throttledTime >= time && b.throttledPeriods >= periods && b.memoryLimit == limit && b.memoryUsage >= usage
    case _ => a == b
  }

  ghost predicate WorseDevices(a: seq<Device>, b: seq<Device>) {
    |a| == |b| && forall i :: 0 <= i < |a| ==> b[i].ioTimeMs >= a[i].ioTimeMs && b[i].ioInProgress >= a[i].ioInProgress
  }

  ghost predicate WorseRates(a: seq<real>, b: seq<real>) {
    |a| == |b| && forall i :: 0 <= i < |a| ==> b[i] >= a[i]
  }

  ghost predicate WorseResults(a: seq<Result>, b: seq<Result>) {
    |a| == |b| && forall i :: 0 <= i < |a| ==> WorseData(a[i].data, b[i].data)
  }

  ghost predicate WorseReport(a: Categories, b: Categories) {
    a.Keys == b.Keys && forall c :: c in a ==> WorseResults(a[c], b[c])
  }

  lemma {:induction false} DevicesMonotone(a: seq<Device>, b: seq<Device>)
    requires WorseDevices(a, b)
    ensures Busiest(a) <= Busiest(b) && DeepestQueue(a) <= DeepestQueue(b)
  {
    if a != [] { DevicesMonotone(a[..|a| - 1], b[..|b| - 1]); }
  }

  lemma {:induction false} RatesMonotone(a: seq<real>, b: seq<real>)
    requires WorseRates(a, b)
    ensures RateSum(a) <= RateSum(b)
  {
    if a != [] { RatesMonotone(a[..|a| - 1], b[..|b| - 1]); }
  }

  lemma {:induction false} DivideMonotone(x: real, y: real, n: real)
    requires x <= y && n > 0.0
    ensures x / n <= y / n
  {}

  lemma {:induction false} PercentMonotone(x: int, y: int, n: int)
    requires x <= y && n > 0
    ensures Percent(x, n) <= Percent(y, n)
  {}

  lemma {:induction false} CPUMonotone(a: Data, b: Data)
    requires a.CPUData? && WorseData(a, b)
    ensures Worse(CPUMetric(a), CPUMetric(b))
  {}

  lemma {:induction false} MemoryMonotone(a: Data, b: Data)
    requires a.MemoryData? && WorseData(a, b)
    ensures Worse(MemoryMetric(a), MemoryMetric(b))
  {}

  lemma {:induction false} NetworkMonotone(a: Data, b: Data)
    requires a.NetworkData? && WorseData(a, b)
    ensures Worse(NetworkMetric(a), NetworkMetric(b))
  {
    RatesMonotone(a.errorRates, b.errorRates);
  }

  lemma {:induction false} ContainerMonotone(a: Data, b: Data)
    requires a.ContainerData? && WorseData(a, b)
    ensures Limited(a) == Limited(b) && Capped(a) == Capped(b)
    ensures Limited(a) ==> Worse(ContainerCPUMetric(a), ContainerCPUMetric(b))
    ensures Capped(a) ==> Worse(ContainerMemoryMetric(a), ContainerMemoryMetric(b))
  {
    hide Percent;
    if Capped(a) { PercentMonotone(a.memoryUsage, b.memoryUsage, a.memoryLimit); }
    if Limited(a) {
      var allowed := a.cpuQuota as real / a.cpuPeriod as real;
      DivideMonotone(a.throttledTime as real, b.throttledTime as real, 1000000.0);
      DivideMonotone(a.throttledTime as real / 1000000.0, b.throttledTime as real / 1000000.0, allowed);
      if b.throttledTime > 0 { DivideMonotone(0.0, b.throttledTime as real / 1000000.0, allowed); }
    }
  }

  lemma {:induction false} FirstDataMonotone(a: seq<Result>, b: seq<Result>, want: Data -> bool)
    requires WorseResults(a, b)
    requires forall x, y :: WorseData(x, y) ==> want(x) == want(y)
    ensures FirstData(a, want).Some? == FirstData(b, want).Some?
    ensures FirstData(a, want).Some? ==> WorseData(FirstData(a, want).value, FirstData(b, want).value)
  {
    hide WorseData;
    if a != [] {
      assert WorseData(a[0].data, b[0].data);
      FirstDataMonotone(a[1..], b[1..], want);
    }
  }

  lemma {:induction false} LastDataMonotone(a: seq<Result>, b: seq<Result>, want: Data -> bool)
    requires WorseResults(a, b)
    requires forall x, y :: WorseData(x, y) ==> want(x) == want(y)
    ensures LastData(a, want).Some? == LastData(b, want).Some?
    ensures LastData(a, want).Some? ==> WorseData(LastData(a, want).value, LastData(b, want).value)
  {
    hide WorseData;
    if a != [] {
      assert WorseData(a[|a| - 1].data, b[|b| - 1].data);
      LastDataMonotone(a[..|a| - 1], b[..|b| - 1], want);
    }
  }

  ghost predicate WorseMetric(a: Option<USEMetric>, b: Option<USEMetric>) {
    a.Some? == b.Some? && (a.Some? ==> Worse(a.value, b.value))
  }

  lemma {:induction false} FirstMetricMonotone(
    a: seq<Result>, b: seq<Result>, want: Data -> bool, metric: Data --> USEMetric)
    requires forall d :: want(d) ==> metric.requires(d)
    requires WorseResults(a, b)
    requires forall x, y :: WorseData(x, y) ==> want(x) == want(y)
    requires forall x, y :: WorseData(x, y) && want(x) ==> Worse(metric(x), metric(y))
    ensures WorseMetric(FirstMetric(a, want, metric), FirstMetric(b, want, metric))
  {
    hide WorseData, FirstData;
    FirstDataMonotone(a, b, want);
  }

  lemma {:induction false} LastMetricMonotone(
    a: seq<Result>, b: seq<Result>, want: Data -> bool, metric: Data --> USEMetric)
    requires forall d :: want(d) ==> metric.requires(d)
    requires WorseResults(a, b)
    requires forall x, y :: WorseData(x, y) ==> want(x) == want(y)
    requires forall x, y :: WorseData(x, y) && want(x) ==> Worse(metric(x), metric(y))
    ensures WorseMetric(LastMetric(a, want, metric), LastMetric(b, want, metric))
  {
    hide WorseData, LastData;
    LastDataMonotone(a, b, want);
  }

  lemma {:induction false} AddMonotone(a: map<string, USEMetric>, b: map<string, USEMetric>, name: string,
                                       x: Option<USEMetric>, y: Option<USEMetric>)
    requires WorseResources(a, b) && WorseMetric(x, y)
    ensures WorseResources(Add(a, name, x), Add(b, name, y))
  {}

  lemma {:induction false} InMonotone(a: Categories, b: Categories, c: string)
    requires WorseReport(a, b)
    ensures WorseResults(In(a, c), In(b, c))
  {}

  /** Every resource metric moves the way the measurements do. */
  lemma {:induction false} MetricsMonotone(a: Categories, b: Categories)
    requires WorseReport(a, b)
    ensures WorseResources(Metrics(a), Metrics(b))
  {
    hide WorseResults, FirstMetric, LastMetric, CPUMetric, MemoryMetric, DiskMetric, NetworkMetric;
    hide ContainerCPUMetric, ContainerMemoryMetric, WorseData, WorseReport, WorseResources;
    KindsKept();
    EachMetricMonotone();
    InMonotone(a, b, "cpu");
    FirstMetricMonotone(In(a, "cpu"), In(b, "cpu"), IsCPU, CPUMetric);
    InMonotone(a, b, "memory");
    FirstMetricMonotone(In(a, "memory"), In(b, "memory"), IsMemory, MemoryMetric);
    InMonotone(a, b, "disk");
    FirstMetricMonotone(In(a, "disk"), In(b, "disk"), IsDisk, DiskMetric);
    InMonotone(a, b, "network");
    FirstMetricMonotone(In(a, "network"), In(b, "network"), IsNetwork, NetworkMetric);
    InMonotone(a, b, "container");
    LastMetricMonotone(In(a, "container"), In(b, "container"), Limited, ContainerCPUMetric);
    LastMetricMonotone(In(a, "container"), In(b, "container"), Capped, ContainerMemoryMetric);
    AddAllMonotone(
      FirstMetric(In(a, "cpu"), IsCPU, CPUMetric), FirstMetric(In(b, "cpu"), IsCPU, CPUMetric),
      FirstMetric(In(a, "memory"), IsMemory, MemoryMetric), FirstMetric(In(b, "memory"), IsMemory, MemoryMetric),
      FirstMetric(In(a, "disk"), IsDisk, DiskMetric), FirstMetric(In(b, "disk"), IsDisk, DiskMetric),
      FirstMetric(In(a, "network"), IsNetwork, NetworkMetric), FirstMetric(In(b, "network"), IsNetwork, NetworkMetric),
      LastMetric(In(a, "container"), Limited, ContainerCPUMetric), LastMetric(In(b, "container"), Limited, ContainerCPUMetric),
      LastMetric(In(a, "container"), Capped, ContainerMemoryMetric), LastMetric(In(b, "container"), Capped, ContainerMemoryMetric));
  }

  lemma {:induction false} KindsKept()
    ensures forall x, y :: WorseData(x, y) ==>
              && IsCPU(x) == IsCPU(y) && IsMemory(x) == IsMemory(y) && IsDisk(x) == IsDisk(y)
              && IsNetwork(x) == IsNetwork(y) && Limited(x) == Limited(y) && Capped(x) == Capped(y)
  {}

  lemma {:induction false} EachMetricMonotone()
    ensures forall x, y :: WorseData(x, y) && IsCPU(x) ==> IsCPU(y) && Worse(CPUMetric(x), CPUMetric(y))
    ensures forall x, y :: WorseData(x, y) && IsMemory(x) ==> IsMemory(y) && Worse(MemoryMetric(x), MemoryMetric(y))
    ensures forall x, y :: WorseData(x, y) && IsDisk(x) ==> IsDisk(y) && Worse(DiskMetric(x), DiskMetric(y))
    ensures forall x, y :: WorseData(x, y) && IsNetwork(x) ==> IsNetwork(y) && Worse(NetworkMetric(x), NetworkMetric(y))
    ensures forall x, y :: WorseData(x, y) && Limited(x) ==> Limited(y) && Worse(ContainerCPUMetric(x), ContainerCPUMetric(y))
    ensures forall x, y :: WorseData(x, y) && Capped(x) ==> Capped(y) && Worse(ContainerMemoryMetric(x), ContainerMemoryMetric(y))
  {
    hide CPUMetric, MemoryMetric, NetworkMetric, ContainerCPUMetric, ContainerMemoryMetric, Busiest, DeepestQueue;
    forall x, y | WorseData(x, y) && IsCPU(x) ensures IsCPU(y) && Worse(CPUMetric(x), CPUMetric(y)) { CPUMonotone(x, y); }
    forall x, y | WorseData(x, y) && IsMemory(x) ensures IsMemory(y) && Worse(MemoryMetric(x), MemoryMetric(y)) {
      MemoryMonotone(x, y);
    }
    forall x, y | WorseData(x, y) && IsDisk(x) ensures IsDisk(y) && Worse(DiskMetric(x), DiskMetric(y)) {
      DevicesMonotone(x.devices, y.devices);
    }
    forall x, y | WorseData(x, y) && IsNetwork(x) ensures IsNetwork(y) && Worse(NetworkMetric(x), NetworkMetric(y)) {
      NetworkMonotone(x, y);
    }
    forall x, y | WorseData(x, y) && Limited(x)
      ensures Limited(y) && Worse(ContainerCPUMetric(x), ContainerCPUMetric(y)) { ContainerMonotone(x, y); }
    forall x, y | WorseData(x, y) && Capped(x)
      ensures Capped(y) && Worse(ContainerMemoryMetric(x), ContainerMemoryMetric(y)) { ContainerMonotone(x, y); }
  }

  function AddAll(cpu: Option<USEMetric>, mem: Option<USEMetric>, disk: Option<USEMetric>, net: Option<USEMetric>,
                  ccpu: Option<USEMetric>, cmem: Option<USEMetric>): map<string, USEMetric> {
    Add(Add(Add(Add(Add(Add(map[], "cpu", cpu), "memory", mem), "disk", disk), "network", net),
            "container_cpu", ccpu), "container_memory", cmem)
  }

  lemma {:induction false} AddAllMonotone(
    a1: Option<USEMetric>, b1: Option<USEMetric>, a2: Option<USEMetric>, b2: Option<USEMetric>,
    a3: Option<USEMetric>, b3: Option<USEMetric>, a4: Option<USEMetric>, b4: Option<USEMetric>,
    a5: Option<USEMetric>, b5: Option<USEMetric>, a6: Option<USEMetric>, b6: Option<USEMetric>)
    requires WorseMetric(a1, b1) && WorseMetric(a2, b2) && WorseMetric(a3, b3)
    requires WorseMetric(a4, b4) && WorseMetric(a5, b5) && WorseMetric(a6, b6)
    ensures WorseResources(AddAll(a1, a2, a3, a4, a5, a6), AddAll(b1, b2, b3, b4, b5, b6))
  {
    hide Add, WorseMetric;
    assert WorseResources(map[], map[]);
    hide WorseResources;
    var p1, q1 := Add(map[], "cpu", a1), Add(map[], "cpu", b1);
    AddMonotone(map[], map[], "cpu", a1, b1);
    var p2, q2 := Add(p1, "memory", a2), Add(q1, "memory", b2);
    AddMonotone(p1, q1, "memory", a2, b2);
    var p3, q3 := Add(p2, "disk", a3), Add(q2, "disk", b3);
    AddMonotone(p2, q2, "disk", a3, b3);
    var p4, q4 := Add(p3, "network", a4), Add(q3, "network", b4);
    AddMonotone(p3, q3, "network", a4, b4);
    var p5, q5 := Add(p4, "container_cpu", a5), Add(q4, "container_cpu", b5);
    AddMonotone(p4, q4, "container_cpu", a5, b5);
    AddMonotone(p5, q5, "container_memory", a6, b6);
  }

  // ---------------------------------------------------------------------
  // What the metrics mean

  lemma {:induction false} BusiestIsMax(devices: seq<Device>)
    ensures forall i :: 0 <= i < |devices| ==> devices[i].ioTimeMs as real / 10.0 <= Busiest(devices)
    ensures Busiest(devices) == 0.0 || exists i :: 0 <= i < |devices| && devices[i].ioTimeMs as real / 10.0 == Busiest(devices)
    ensures forall i :: 0 <= i < |devices| ==> devices[i].ioInProgress as real <= DeepestQueue(devices)
    ensures DeepestQueue(devices) == 0.0 ||
            exists i :: 0 <= i < |devices| && devices[i].ioInProgress as real == DeepestQueue(devices)
  {
    if devices != [] {
      var n := |devices| - 1;
      var front := devices[..n];
      BusiestIsMax(front);
      assert forall i :: 0 <= i < n ==> front[i] == devices[i];
      assert Busiest(devices) == Busiest(front) || devices[n].ioTimeMs as real / 10.0 == Busiest(devices);
      assert DeepestQueue(devices) == DeepestQueue(front) || devices[n].ioInProgress as real == DeepestQueue(devices);
    }
  }

  /** Disk utilization is a percentage, and 100 exactly when a device was busy all the time. */
  lemma {:induction false} DiskMeaning(d: Data)
    requires d.DiskData?
    ensures 0.0 <= DiskMetric(d).utilization <= 100.0
    ensures DiskMetric(d).utilization == 100.0 <==> exists i :: 0 <= i < |d.devices| && d.devices[i].ioTimeMs >= 1000
    ensures forall i :: 0 <= i < |d.devices| ==> d.devices[i].ioInProgress as real <= DiskMetric(d).saturation
  {
    hide Busiest, DeepestQueue;
    BusiestIsMax(d.devices);
    assert Busiest(d.devices) >= 0.0;
    if Busiest(d.devices) >= 100.0 {
      var i :| 0 <= i < |d.devices| && d.devices[i].ioTimeMs as real / 10.0 == Busiest(d.devices);
      assert d.devices[i].ioTimeMs >= 1000;
    }
  }

  /** Memory metrics are percentages of what there is; CPU saturates exactly above one runnable
      task per CPU. */
  lemma {:induction false} MemoryAndCPUMeaning(m: Data, c: Data)
    requires m.MemoryData? && 0 <= m.availableBytes <= m.totalBytes && m.totalBytes > 0
    requires c.CPUData? && c.numCPUs > 0
    ensures 0.0 <= MemoryMetric(m).utilization <= 100.0
    ensures MemoryMetric(m).utilization == 100.0 <==> m.availableBytes == 0
    ensures CPUMetric(c).saturation > 0.0 <==> c.loadAvg1 > c.numCPUs as real
    ensures CPUMetric(c).utilization + c.idlePct == 100.0
  {
    PercentRange(m.totalBytes - m.availableBytes, m.totalBytes);
  }

  lemma {:induction false} PercentRange(x: int, n: int)
    requires 0 <= x <= n && n > 0
    ensures 0.0 <= Percent(x, n) <= 100.0
    ensures Percent(x, n) == 100.0 <==> x == n
  {
    var r := x as real / n as real;
    assert r * n as real == x as real;
    assert 0.0 <= r <= 1.0;
  }

}
