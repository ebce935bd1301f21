/** internal/model/report.go: the metrics of a whole report in the raw numbers behind them, with the
    divisions multiplied out. */
module MetricValues {
  import opened Text
  import opened Report
  import opened Health
  import opened AnomalyRules
  import opened UseMetrics

  /** The i-th result is the first with this kind of data. */
  ghost predicate FirstAt(rs: seq<Result>, i: nat, want: Data -> bool) {
    i < |rs| && want(rs[i].data) && forall j :: 0 <= j < i ==> !want(rs[j].data)
  }

  ghost predicate LastAt(rs: seq<Result>, i: nat, want: Data -> bool) {
    i < |rs| && want(rs[i].data) && forall j :: i < j < |rs| ==> !want(rs[j].data)
  }

  lemma {:induction false} FirstFound(rs: seq<Result>, i: nat, want: Data -> bool)
    requires FirstAt(rs, i, want)
    ensures FirstData(rs, want) == Some(rs[i].data)
  {
    if i > 0 { FirstFound(rs[1..], i - 1, want); }
  }

  lemma {:induction false} LastFound(rs: seq<Result>, i: nat, want: Data -> bool)
    requires LastAt(rs, i, want)
    ensures LastData(rs, want) == Some(rs[i].data)
  {
    if i < |rs| - 1 { LastFound(rs[..|rs| - 1], i, want); }
  }

  lemma {:induction false} NoneFound(rs: seq<Result>, want: Data -> bool)
    ensures FirstData(rs, want).Some? <==> exists i :: 0 <= i < |rs| && want(rs[i].data)
    ensures LastData(rs, want).Some? <==> exists i :: 0 <= i < |rs| && want(rs[i].data)
  {
    NoFirst(rs, want);
    NoLast(rs, want);
  }

  lemma {:induction false} NoFirst(rs: seq<Result>, want: Data -> bool)
    ensures FirstData(rs, want).Some? <==> exists i :: 0 <= i < |rs| && want(rs[i].data)
  {
    if rs != [] {
      NoFirst(rs[1..], want);
      if !want(rs[0].data) {
        assert forall i :: 1 <= i < |rs| ==> rs[i] == rs[1..][i - 1];
        if i :| 0 <= i < |rs[1..]| && want(rs[1..][i].data) { assert want(rs[i + 1].data); }
      }
    }
  }

  lemma {:induction false} NoLast(rs: seq<Result>, want: Data -> bool)
    ensures LastData(rs, want).Some? <==> exists i :: 0 <= i < |rs| && want(rs[i].data)
  {
    if rs != [] {
      var n := |rs| - 1;
      NoLast(rs[..n], want);
      if i :| 0 <= i < n && want(rs[..n][i].data) { assert want(rs[i].data); }
    }
  }

  function Entry(m: map<string, USEMetric>, k: string): Option<USEMetric> { if k in m then Some(m[k]) else None }

  lemma {:induction false} EntryAdded(m: map<string, USEMetric>, name: string, metric: Option<USEMetric>, k: string)
    ensures Entry(Add(m, name, metric), k) == if k == name && metric.Some? then metric else Entry(m, k)
  {}

  /** The entry a key gets among the six. */
  function Chosen(k: string, cpu: Option<USEMetric>, mem: Option<USEMetric>, disk: Option<USEMetric>, net: Option<USEMetric>,
                  ccpu: Option<USEMetric>, cmem: Option<USEMetric>): Option<USEMetric> {
    if k == "cpu" then cpu else if k == "memory" then mem else if k == "disk" then disk else if k == "network" then net
    else if k == "container_cpu" then ccpu else if k == "container_memory" then cmem else None
  }

  lemma {:induction false} EntryOfAll(k: string, cpu: Option<USEMetric>, mem: Option<USEMetric>, disk: Option<USEMetric>,
                                      net: Option<USEMetric>, ccpu: Option<USEMetric>, cmem: Option<USEMetric>)
    ensures Entry(AddAll(cpu, mem, disk, net, ccpu, cmem), k) == Chosen(k, cpu, mem, disk, net, ccpu, cmem)
  {
    hide Add;
    assert Entry(map[], k) == None;
    var m1 := Add(map[], "cpu", cpu);
    var m2 := Add(m1, "memory", mem);
    var m3 := Add(m2, "disk", disk);
    var m4 := Add(m3, "network", net);
    var m5 := Add(m4, "container_cpu", ccpu);
    EntryAdded(map[], "cpu", cpu, k);
    EntryAdded(m1, "memory", mem, k);
    EntryAdded(m2, "disk", disk, k);
    EntryAdded(m3, "network", net, k);
    EntryAdded(m4, "container_cpu", ccpu, k);
    EntryAdded(m5, "container_memory", cmem, k);
    hide Entry;
    assert |"cpu"| == 3 && |"disk"| == 4 && |"memory"| == 6 && |"network"| == 7;
    assert |"container_cpu"| == 13 && |"container_memory"| == 16;
  }

  lemma {:induction false} MetricsEntry(cats: Categories, k: string)
    ensures Entry(Metrics(cats), k) ==
            Chosen(k, FirstMetric(In(cats, "cpu"), IsCPU, CPUMetric), FirstMetric(In(cats, "memory"), IsMemory, MemoryMetric),
                   FirstMetric(In(cats, "disk"), IsDisk, DiskMetric), FirstMetric(In(cats, "network"), IsNetwork, NetworkMetric),
                   LastMetric(In(cats, "container"), Limited, ContainerCPUMetric),
                   LastMetric(In(cats, "container"), Capped, ContainerMemoryMetric))
  {
    hide Entry, Chosen, AddAll, FirstMetric, LastMetric, In;
    EntryOfAll(k, FirstMetric(In(cats, "cpu"), IsCPU, CPUMetric), FirstMetric(In(cats, "memory"), IsMemory, MemoryMetric),
               FirstMetric(In(cats, "disk"), IsDisk, DiskMetric), FirstMetric(In(cats, "network"), IsNetwork, NetworkMetric),
               LastMetric(In(cats, "container"), Limited, ContainerCPUMetric),
               LastMetric(In(cats, "container"), Capped, ContainerMemoryMetric));
  }

  ghost predicate Any(rs: seq<Result>, want: Data -> bool) { exists i :: 0 <= i < |rs| && want(rs[i].data) }

  /** A resource is in the report if and only if some result of its category measured it; a container
      counts only under a runtime, with a quota or a limit. */
  lemma {:induction false} MeasuredResources(cats: Categories, k: string)
    ensures k in Metrics(cats) <==>
            || (k == "cpu" && Any(In(cats, "cpu"), (d: Data) => d.CPUData?))
            || (k == "memory" && Any(In(cats, "memory"), (d: Data) => d.MemoryData?))
            || (k == "disk" && Any(In(cats, "disk"), (d: Data) => d.DiskData?))
            || (k == "network" && Any(In(cats, "network"), (d: Data) => d.NetworkData?))
            || (k == "container_cpu" &&
                Any(In(cats, "container"), (d: Data) => d.ContainerData? && d.runtime != "none" && d.cpuQuota > 0 && d.cpuPeriod > 0))
            || (k == "container_memory" &&
                Any(In(cats, "container"), (d: Data) => d.ContainerData? && d.runtime != "none" && d.memoryLimit > 0))
  {
    hide Metrics, FirstData, LastData, In;
    MetricsEntry(cats, k);
    NoneFound(In(cats, "cpu"), IsCPU);
    NoneFound(In(cats, "memory"), IsMemory);
    NoneFound(In(cats, "disk"), IsDisk);
    NoneFound(In(cats, "network"), IsNetwork);
    NoneFound(In(cats, "container"), Limited);
    NoneFound(In(cats, "container"), Capped);
  }

  lemma {:induction false} Cancels(x: real, y: real, q: real)
    requires y != 0.0
    ensures x / y * q * y == x * q
  {
    assert x / y * y == x;
  }

  /** CPU: what is not idle, and by how many per cent the load exceeds the CPUs. */
  lemma {:induction false} CpuInNumbers(cats: Categories, i: nat)
    requires "cpu" in cats && FirstAt(cats["cpu"], i, IsCPU)
    ensures "cpu" in Metrics(cats)
    ensures var m, d := Metrics(cats)["cpu"], cats["cpu"][i].data;
            && m.utilization + d.idlePct == 100.0 && m.errors == 0
            && (if d.numCPUs > 0 && d.loadAvg1 > d.numCPUs as real
                then m.saturation * d.numCPUs as real == (d.loadAvg1 - d.numCPUs as real) * 100.0
                else m.saturation == 0.0)
  {
    hide Metrics;
    MetricsEntry(cats, "cpu");
    FirstFound(In(cats, "cpu"), i, IsCPU);
    var d := cats["cpu"][i].data;
    if d.numCPUs > 0 {
      var r := d.loadAvg1 / d.numCPUs as real;
      assert r * d.numCPUs as real == d.loadAvg1;
      assert (r - 1.0) * 100.0 * d.numCPUs as real == (d.loadAvg1 - d.numCPUs as real) * 100.0;
    }
  }

  /** Memory: what is not available, and how much of the swap space is used, in per cent. */
  lemma {:induction false} MemoryInNumbers(cats: Categories, i: nat)
    requires "memory" in cats && FirstAt(cats["memory"], i, IsMemory)
    ensures "memory" in Metrics(cats)
    ensures var m, d := Metrics(cats)["memory"], cats["memory"][i].data;
            && m.errors == 0
            && (if d.totalBytes > 0 then m.utilization * d.totalBytes as real == (100 * (d.totalBytes - d.availableBytes)) as real
                else m.utilization == 0.0)
            && (if d.swapTotalBytes > 0 then m.saturation * d.swapTotalBytes as real == (100 * d.swapUsedBytes) as real
                else m.saturation == 0.0)
  {
    hide Metrics;
    MetricsEntry(cats, "memory");
    FirstFound(In(cats, "memory"), i, IsMemory);
    var d := cats["memory"][i].data;
    if d.totalBytes > 0 { PercentTimes(d.totalBytes - d.availableBytes, d.totalBytes); }
    if d.swapTotalBytes > 0 { PercentTimes(d.swapUsedBytes, d.swapTotalBytes); }
    hide Percent;
  }

  lemma {:induction false} PercentTimes(part: int, whole: int)
    requires whole > 0
    ensures Percent(part, whole) * whole as real == (100 * part) as real
  {
    Cancels(part as real, whole as real, 100.0);
  }

  /** Disk: the busiest device in tenths of its milliseconds, a full second being 100 per cent, and
      the deepest queue of any device. */
  lemma {:induction false} DiskInNumbers(cats: Categories, i: nat)
    requires "disk" in cats && FirstAt(cats["disk"], i, IsDisk)
    ensures "disk" in Metrics(cats)
    ensures var m, devices := Metrics(cats)["disk"], cats["disk"][i].data.devices;
            && m.errors == 0 && 0.0 <= m.utilization <= 100.0 && m.saturation >= 0.0
            && (forall k :: 0 <= k < |devices| ==>
                  devices[k].ioTimeMs as real <= 10.0 * m.utilization || m.utilization == 100.0)
            && (forall k :: 0 <= k < |devices| ==> devices[k].ioInProgress as real <= m.saturation)
            && (m.utilization > 0.0 ==> exists k :: 0 <= k < |devices| && devices[k].ioTimeMs as real >= 10.0 * m.utilization)
            && (m.saturation > 0.0 ==> exists k :: 0 <= k < |devices| && devices[k].ioInProgress as real == m.saturation)
  {
    hide Metrics, Busiest, DeepestQueue;
    MetricsEntry(cats, "disk");
    FirstFound(In(cats, "disk"), i, IsDisk);
    var devices := cats["disk"][i].data.devices;
    BusiestIsMax(devices);
    QueueNotNegative(devices);
    if Busiest(devices) > 0.0 {
      var k :| 0 <= k < |devices| && devices[k].ioTimeMs as real / 10.0 == Busiest(devices);
      assert devices[k].ioTimeMs as real >= 10.0 * DiskMetric(cats["disk"][i].data).utilization;
    }
  }

  lemma {:induction false} QueueNotNegative(devices: seq<Device>)
    ensures DeepestQueue(devices) >= 0.0
  {
    if devices != [] { QueueNotNegative(devices[..|devices| - 1]); }
  }

  /** `n` is `x` without its fraction. */
  ghost predicate WholePart(x: real, n: int) {
    if x >= 0.0 then n as real <= x < n as real + 1.0 else n as real - 1.0 < x <= n as real
  }

  /** Network: the connections that wait to be closed, and the whole part of all error rates. */
  lemma {:induction false} NetworkInNumbers(cats: Categories, i: nat)
    requires "network" in cats && FirstAt(cats["network"], i, IsNetwork)
    ensures "network" in Metrics(cats)
    ensures var m, d := Metrics(cats)["network"], cats["network"][i].data;
            && m.utilization == 0.0
            && m.saturation == (if d.tcp.Some? then d.tcp.value.timeWait + d.tcp.value.closeWait else 0) as real
            && WholePart(RateSum(d.errorRates) + (if d.tcp.Some? then d.tcp.value.retransRate else 0.0), m.errors)
  {
    hide Metrics, RateSum;
    MetricsEntry(cats, "network");
    FirstFound(In(cats, "network"), i, IsNetwork);
  }

  /** Containers: the throttled time in per cent of the seconds the quota allows, how often it was
      throttled, and the memory in per cent of its limit, each of the last container that has one. */
  lemma {:induction false} ContainerInNumbers(cats: Categories, i: nat, j: nat)
    requires "container" in cats && LastAt(cats["container"], i, Limited) && LastAt(cats["container"], j, Capped)
    ensures "container_cpu" in Metrics(cats) && "container_memory" in Metrics(cats)
    ensures var m, d := Metrics(cats)["container_cpu"], cats["container"][i].data;
            && m.saturation == d.throttledPeriods as real && m.errors == 0
            && m.utilization * (d.cpuQuota * 10_000) as real ==
               (if d.throttledTime > 0 then d.throttledTime * d.cpuPeriod else 0) as real
    ensures var m, d := Metrics(cats)["container_memory"], cats["container"][j].data;
            && m.saturation == 0.0 && m.errors == 0
            && m.utilization * d.memoryLimit as real == (100 * d.memoryUsage) as real
  {
    hide Metrics;
    MetricsEntry(cats, "container_cpu");
    MetricsEntry(cats, "container_memory");
    LastFound(In(cats, "container"), i, Limited);
    LastFound(In(cats, "container"), j, Capped);
    var c, d := cats["container"][i].data, cats["container"][j].data;
    PercentTimes(d.memoryUsage, d.memoryLimit);
    hide Percent;
    Throttled(c.throttledTime as real, c.cpuQuota as real, c.cpuPeriod as real);
  }

  lemma {:induction false} Throttled(time: real, quota: real, period: real)
    requires quota > 0.0 && period > 0.0
    ensures time / 1000000.0 / (quota / period) * 100.0 * (quota * 10000.0) == time * period
  {
    var allowed := quota / period;
    assert allowed * period == quota;
    assert allowed > 0.0;
    var used := time / 1000000.0;
    var share := used / allowed;
    assert share * allowed == used;
    assert share * quota == used * period by { assert share * quota == share * allowed * period; }
  }
}
