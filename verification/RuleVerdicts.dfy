/** internal/model/anomaly.go: when a rule raises an anomaly, and of which severity, in terms of the
    raw measurements of the report - through evaluator, thresholds and detection. */
module RuleVerdicts {
  import opened Seqs
  import opened Text
  import opened Report
  import opened Health
  import opened AnomalyRules
  import opened UseMetrics
  import opened FieldRules
  import opened RuleShapes
  import opened MeasuredRules
  import opened MetricValues

  ghost predicate Raises(anomalies: seq<Anomaly>, category: string, metric: string, severity: Severity) {
    exists k :: 0 <= k < |anomalies| && anomalies[k].metric == metric && anomalies[k].severity == severity &&
      anomalies[k].category == category
  }

  /** A critical anomaly of this metric under one condition, a warning under the other. */
  ghost predicate Verdicts(anomalies: seq<Anomaly>, category: string, metric: string, critical: bool, warning: bool) {
    (Raises(anomalies, category, metric, Critical) <==> critical) && (Raises(anomalies, category, metric, Warning) <==> warning)
  }

  /** The n-th rule is this one and no other rule has its metric. */
  ghost predicate Listed(thresholds: seq<Threshold>, n: nat, t: Threshold) {
    n < |thresholds| && thresholds[n] == t &&
    forall m :: 0 <= m < |thresholds| && thresholds[m].rule.metric == t.rule.metric ==> m == n
  }

  /** The rule can read nothing but `r` in this report. */
  ghost predicate OnlyReads(e: Evaluator, cats: Categories, r: Reading) {
    forall other :: Reads(e, cats, other) ==> other == r
  }

  lemma {:induction false} VerdictOf(
    thresholds: seq<Threshold>, cats: Categories, anomalies: seq<Anomaly>, n: nat, t: Threshold, r: Reading)
    requires AnomaliesOf(thresholds, cats, anomalies) && Listed(thresholds, n, t) && OnlyReads(t.evaluator, cats, r)
    ensures Verdicts(anomalies, t.rule.category, t.rule.metric,
                     r.Found? && r.value >= t.rule.critical,
                     r.Found? && t.rule.warning <= r.value < t.rule.critical)
  {
    hide Reads, Ascending;
    var readings, fired :| AllRead(thresholds, cats, readings) && Flags(thresholds, readings, fired, anomalies);
    assert Reads(thresholds[n].evaluator, cats, readings[n]);
    forall severity | Raises(anomalies, t.rule.category, t.rule.metric, severity)
      ensures r.Found? && if severity == Critical then r.value >= t.rule.critical else t.rule.warning <= r.value < t.rule.critical
    {
      var k :| 0 <= k < |anomalies| && anomalies[k].metric == t.rule.metric && anomalies[k].severity == severity;
      FiredAt(thresholds, readings, fired, anomalies, k);
      assert fired[k] == n;
    }
    if Fires(t.rule, r) {
      assert n in fired;
      var k :| 0 <= k < |fired| && fired[k] == n;
      FiredAt(thresholds, readings, fired, anomalies, k);
      assert Raises(anomalies, t.rule.category, t.rule.metric, anomalies[k].severity);
    }
  }

  lemma {:induction false} FiredAt(
    thresholds: seq<Threshold>, readings: seq<Reading>, fired: seq<nat>, anomalies: seq<Anomaly>, k: nat)
    requires Flags(thresholds, readings, fired, anomalies) && k < |anomalies|
    ensures fired[k] < |thresholds| && fired[k] in fired
    ensures Fires(thresholds[fired[k]].rule, readings[fired[k]])
    ensures Says(thresholds[fired[k]].rule, readings[fired[k]], anomalies[k])
  {}

  // ---------------------------------------------------------------------
  // Rules over one measured field

  /** A rule that answers on exactly the results with some data reads the first of them. */
  lemma {:induction false} FirstHit(rs: seq<Result>, i: nat, want: Data -> bool, probe: Result -> Probe)
    requires FirstAt(rs, i, want)
    requires forall r: Result :: if want(r.data) then probe(r).Hit? else probe(r).Skip?
    ensures FirstAnswer(rs, probe) == Found(probe(rs[i]).value)
  {
    if i > 0 { FirstHit(rs[1..], i - 1, want, probe); }
  }

  /** CPU utilization: critical from 95 per cent, a warning from 80. */
  lemma {:induction false} CpuVerdict(ts: seq<Threshold>, cats: Categories, a: seq<Anomaly>, n: nat, i: nat)
    requires AnomaliesOf(ts, cats, a) && Listed(ts, n, FIELD_RULES[0])
    requires "cpu" in cats && FirstAt(cats["cpu"], i, (d: Data) => d.CPUData?)
    ensures var d := cats["cpu"][i].data;
            Verdicts(a, "cpu", "cpu_utilization", d.idlePct <= 5.0, 5.0 < d.idlePct <= 20.0)
  {
    hide AnomaliesOf, Listed, Verdicts;
    FirstHit(In(cats, "cpu"), i, (d: Data) => d.CPUData?, CpuUtilization);
    VerdictOf(ts, cats, a, n, FIELD_RULES[0], Found(100.0 - cats["cpu"][i].data.idlePct));
  }

  /** Load: critical from four runnable tasks per CPU, a warning from two. */
  lemma {:induction false} LoadVerdict(ts: seq<Threshold>, cats: Categories, a: seq<Anomaly>, n: nat, i: nat)
    requires AnomaliesOf(ts, cats, a) && Listed(ts, n, FIELD_RULES[1])
    requires "cpu" in cats && FirstAt(cats["cpu"], i, (d: Data) => d.CPUData? && d.numCPUs > 0)
    ensures var d := cats["cpu"][i].data;
            Verdicts(a, "cpu", "load_average", d.loadAvg1 >= (4 * d.numCPUs) as real,
                     (2 * d.numCPUs) as real <= d.loadAvg1 < (4 * d.numCPUs) as real)
  {
    hide AnomaliesOf, Listed, Verdicts;
    var d := cats["cpu"][i].data;
    FirstHit(In(cats, "cpu"), i, (d: Data) => d.CPUData? && d.numCPUs > 0, LoadAverage);
    VerdictOf(ts, cats, a, n, FIELD_RULES[1], Found(d.loadAvg1 / d.numCPUs as real));
    Compared(d.loadAvg1, d.numCPUs as real, 4.0);
    Compared(d.loadAvg1, d.numCPUs as real, 2.0);
  }

  lemma {:induction false} Compared(x: real, y: real, c: real)
    requires y > 0.0
    ensures x / y >= c <==> x >= c * y
  {
    assert x / y * y == x;
  }

  /** A percentage against a threshold, in whole numbers. */
  lemma {:induction false} PercentCompared(part: int, whole: int, c: int)
    requires whole > 0
    ensures Percent(part, whole) >= c as real <==> 100 * part >= c * whole
  {
    PercentTimes(part, whole);
    hide Percent;
    var p := Percent(part, whole);
    assert p >= c as real <==> p * whole as real >= c as real * whole as real;
    assert (c * whole) as real == c as real * whole as real;
  }

  /** Memory: critical once at most 5 per cent are available, a warning once at most 15. */
  lemma {:induction false} MemoryVerdict(ts: seq<Threshold>, cats: Categories, a: seq<Anomaly>, n: nat, i: nat)
    requires AnomaliesOf(ts, cats, a) && Listed(ts, n, FIELD_RULES[2])
    requires "memory" in cats && FirstAt(cats["memory"], i, (d: Data) => d.MemoryData? && d.totalBytes > 0)
    ensures var d := cats["memory"][i].data;
            Verdicts(a, "memory", "memory_utilization", 100 * d.availableBytes <= 5 * d.totalBytes,
                     5 * d.totalBytes < 100 * d.availableBytes <= 15 * d.totalBytes)
  {
    hide AnomaliesOf, Listed, Verdicts, Percent;
    var d := cats["memory"][i].data;
    FirstHit(In(cats, "memory"), i, (d: Data) => d.MemoryData? && d.totalBytes > 0, MemoryUtilization);
    VerdictOf(ts, cats, a, n, FIELD_RULES[2], Found(Percent(d.totalBytes - d.availableBytes, d.totalBytes)));
    PercentCompared(d.totalBytes - d.availableBytes, d.totalBytes, 95);
    PercentCompared(d.totalBytes - d.availableBytes, d.totalBytes, 85);
  }

  /** Swap: critical from half the swap space, a warning from a tenth. */
  lemma {:induction false} SwapVerdict(ts: seq<Threshold>, cats: Categories, a: seq<Anomaly>, n: nat, i: nat)
    requires AnomaliesOf(ts, cats, a) && Listed(ts, n, FIELD_RULES[3])
    requires "memory" in cats && FirstAt(cats["memory"], i, (d: Data) => d.MemoryData? && d.swapTotalBytes > 0)
    ensures var d := cats["memory"][i].data;
            Verdicts(a, "memory", "swap_usage", 2 * d.swapUsedBytes >= d.swapTotalBytes,
                     d.swapTotalBytes <= 10 * d.swapUsedBytes && 2 * d.swapUsedBytes < d.swapTotalBytes)
  {
    hide AnomaliesOf, Listed, Verdicts, Percent;
    var d := cats["memory"][i].data;
    FirstHit(In(cats, "memory"), i, (d: Data) => d.MemoryData? && d.swapTotalBytes > 0, SwapUsage);
    VerdictOf(ts, cats, a, n, FIELD_RULES[3], Found(Percent(d.swapUsedBytes, d.swapTotalBytes)));
    PercentCompared(d.swapUsedBytes, d.swapTotalBytes, 50);
    PercentCompared(d.swapUsedBytes, d.swapTotalBytes, 10);
  }

  /** Retransmits: critical from 50 a second, a warning from 10. */
  lemma {:induction false} RetransmitVerdict(ts: seq<Threshold>, cats: Categories, a: seq<Anomaly>, n: nat, i: nat)
    requires AnomaliesOf(ts, cats, a) && Listed(ts, n, FIELD_RULES[4])
    requires "network" in cats && FirstAt(cats["network"], i, (d: Data) => d.NetworkData? && d.tcp.Some?)
    ensures var rate := cats["network"][i].data.tcp.value.retransRate;
            Verdicts(a, "network", "tcp_retransmits", rate >= 50.0, 10.0 <= rate < 50.0)
  {
    hide AnomaliesOf, Listed, Verdicts;
    FirstHit(In(cats, "network"), i, (d: Data) => d.NetworkData? && d.tcp.Some?, Retransmits);
    VerdictOf(ts, cats, a, n, FIELD_RULES[4], Found(cats["network"][i].data.tcp.value.retransRate));
  }

  /** Disk: critical if some device was busy for 900 of 1000 milliseconds, a warning from 700. */
  lemma {:induction false} DiskVerdict(ts: seq<Threshold>, cats: Categories, a: seq<Anomaly>, n: nat, i: nat)
    requires AnomaliesOf(ts, cats, a) && Listed(ts, n, FIELD_RULES[5])
    requires "disk" in cats && FirstAt(cats["disk"], i, (d: Data) => d.DiskData?)
    ensures var devices := cats["disk"][i].data.devices;
            Verdicts(a, "disk", "disk_utilization", BusyFor(devices, 900), !BusyFor(devices, 900) && BusyFor(devices, 700))
  {
    hide AnomaliesOf, Listed, Verdicts, UseMetrics.Busiest, DeepestQueue;
    var d := cats["disk"][i].data;
    FirstHit(In(cats, "disk"), i, (d: Data) => d.DiskData?, DiskUtilization);
    VerdictOf(ts, cats, a, n, FIELD_RULES[5], Found(DiskMetric(d).utilization));
    BusyBound(d, 900);
    BusyBound(d, 700);
  }

  ghost predicate BusyFor(devices: seq<Device>, ms: int) { exists k :: 0 <= k < |devices| && devices[k].ioTimeMs >= ms }

  lemma {:induction false} BusyBound(d: Data, ms: int)
    requires d.DiskData? && 0 < ms <= 1000
    ensures DiskMetric(d).utilization >= ms as real / 10.0 <==> BusyFor(d.devices, ms)
  {
    hide UseMetrics.Busiest, DeepestQueue;
    BusiestIsMax(d.devices);
    if UseMetrics.Busiest(d.devices) >= ms as real / 10.0 {
      var k :| 0 <= k < |d.devices| && d.devices[k].ioTimeMs as real / 10.0 == UseMetrics.Busiest(d.devices);
      assert d.devices[k].ioTimeMs >= ms;
    }
    if BusyFor(d.devices, ms) {
      var k :| 0 <= k < |d.devices| && d.devices[k].ioTimeMs >= ms;
      assert d.devices[k].ioTimeMs as real / 10.0 <= UseMetrics.Busiest(d.devices);
    }
  }

  /** Throttling: critical from 1000 throttled periods, a warning from 100. */
  lemma {:induction false} ThrottleVerdict(ts: seq<Threshold>, cats: Categories, a: seq<Anomaly>, n: nat, i: nat)
    requires AnomaliesOf(ts, cats, a) && Listed(ts, n, FIELD_RULES[6])
    requires "container" in cats && FirstAt(cats["container"], i, (d: Data) => d.ContainerData?)
    ensures var periods := cats["container"][i].data.throttledPeriods;
            Verdicts(a, "container", "cpu_throttling", periods >= 1000, 100 <= periods < 1000)
  {
    hide AnomaliesOf, Listed, Verdicts;
    FirstHit(In(cats, "container"), i, (d: Data) => d.ContainerData?, Throttling);
    VerdictOf(ts, cats, a, n, FIELD_RULES[6], Found(cats["container"][i].data.throttledPeriods as real));
  }

  /** Container memory: critical from 95 per cent of the limit, a warning from 80. */
  lemma {:induction false} ContainerVerdict(ts: seq<Threshold>, cats: Categories, a: seq<Anomaly>, n: nat, i: nat)
    requires AnomaliesOf(ts, cats, a) && Listed(ts, n, FIELD_RULES[7])
    requires "container" in cats && FirstAt(cats["container"], i, (d: Data) => d.ContainerData? && d.memoryLimit > 0)
    ensures var d := cats["container"][i].data;
            Verdicts(a, "container", "container_memory_usage", 100 * d.memoryUsage >= 95 * d.memoryLimit,
                     80 * d.memoryLimit <= 100 * d.memoryUsage < 95 * d.memoryLimit)
  {
    hide AnomaliesOf, Listed, Verdicts, Percent;
    var d := cats["container"][i].data;
    FirstHit(In(cats, "container"), i, (d: Data) => d.ContainerData? && d.memoryLimit > 0, ContainerMemory);
    VerdictOf(ts, cats, a, n, FIELD_RULES[7], Found(Percent(d.memoryUsage, d.memoryLimit)));
    PercentCompared(d.memoryUsage, d.memoryLimit, 95);
    PercentCompared(d.memoryUsage, d.memoryLimit, 80);
  }

  // ---------------------------------------------------------------------
  // Rules over lists: latency, interface errors, interrupts

  ghost predicate SomeLatency(devices: seq<Device>, ms: real) {
    exists k :: 0 <= k < |devices| && devices[k].avgLatencyMs >= ms
  }

  ghost predicate SomeRate(rates: seq<real>, rate: real) { exists k :: 0 <= k < |rates| && rates[k] >= rate }

  ghost predicate AnyPositive(values: seq<real>) { exists k :: 0 <= k < |values| && values[k] > 0.0 }

  /** The largest entry against a threshold. */
  lemma {:induction false} LargestCompared(values: seq<real>, c: real)
    requires AnyPositive(values) && c > 0.0
    ensures LargestProbe(values).Hit? && (LargestProbe(values).value >= c <==> SomeRate(values, c))
  {
    LargestMeans(values);
    hide LargestProbe;
  }

  lemma {:induction false} SkipsWithout(values: seq<real>)
    ensures LargestProbe(values).Hit? <==> AnyPositive(values)
    ensures !AnyPositive(values) ==> LargestProbe(values).Skip?
  {
    LargestMeans(values);
    hide LargestProbe;
  }

  /** Disk latency: critical if some device averages 50 milliseconds, a warning from 5, in the first
      disk result with a positive average. */
  lemma {:induction false} LatencyVerdict(ts: seq<Threshold>, cats: Categories, a: seq<Anomaly>, n: nat, i: nat)
    requires AnomaliesOf(ts, cats, a) && Listed(ts, n, DISK_AVG_LATENCY)
    requires "disk" in cats && FirstAt(cats["disk"], i, HasLatency())
    ensures var devices := cats["disk"][i].data.devices;
            Verdicts(a, "disk", "disk_avg_latency", SomeLatency(devices, 50.0),
                     !SomeLatency(devices, 50.0) && SomeLatency(devices, 5.0))
  {
    hide AnomaliesOf, Listed, Verdicts, LargestProbe;
    forall r: Result ensures if HasLatency()(r.data) then DiskLatencyProbe(r).Hit? else DiskLatencyProbe(r).Skip? {
      if r.data.DiskData? {
        SkipsWithout(Latencies(r.data.devices));
        LatenciesPositive(r.data.devices);
      }
    }
    FirstHit(In(cats, "disk"), i, HasLatency(), DiskLatencyProbe);
    var devices := cats["disk"][i].data.devices;
    VerdictOf(ts, cats, a, n, DISK_AVG_LATENCY, Found(LargestProbe(Latencies(devices)).value));
    LatenciesPositive(devices);
    LargestCompared(Latencies(devices), 50.0);
    LargestCompared(Latencies(devices), 5.0);
    LatencyIsRate(devices, 50.0);
    LatencyIsRate(devices, 5.0);
  }

  ghost function HasLatency(): Data -> bool {
    (d: Data) => d.DiskData? && exists k :: 0 <= k < |d.devices| && d.devices[k].avgLatencyMs > 0.0
  }

  lemma {:induction false} LatenciesPositive(devices: seq<Device>)
    ensures AnyPositive(Latencies(devices)) <==> exists k :: 0 <= k < |devices| && devices[k].avgLatencyMs > 0.0
  {
    var values := Latencies(devices);
    if k :| 0 <= k < |values| && values[k] > 0.0 { assert devices[k].avgLatencyMs > 0.0; }
    if k :| 0 <= k < |devices| && devices[k].avgLatencyMs > 0.0 { assert values[k] > 0.0; }
  }

  lemma {:induction false} LatencyIsRate(devices: seq<Device>, c: real)
    ensures SomeRate(Latencies(devices), c) <==> SomeLatency(devices, c)
  {
    var values := Latencies(devices);
    if k :| 0 <= k < |values| && values[k] >= c { assert devices[k].avgLatencyMs >= c; }
    if k :| 0 <= k < |devices| && devices[k].avgLatencyMs >= c { assert values[k] >= c; }
  }

  /** Interface errors: critical if some interface has 100 a second, a warning from 10, in the first
      network result with any. */
  lemma {:induction false} ErrorsVerdict(ts: seq<Threshold>, cats: Categories, a: seq<Anomaly>, n: nat, i: nat)
    requires AnomaliesOf(ts, cats, a) && Listed(ts, n, NETWORK_ERRORS)
    requires "network" in cats && FirstAt(cats["network"], i, HasErrors())
    ensures var rates := cats["network"][i].data.errorRates;
            Verdicts(a, "network", "network_errors_per_sec", SomeRate(rates, 100.0),
                     !SomeRate(rates, 100.0) && SomeRate(rates, 10.0))
  {
    hide AnomaliesOf, Listed, Verdicts, LargestProbe;
    forall r: Result ensures if HasErrors()(r.data) then InterfaceErrorsProbe(r).Hit? else InterfaceErrorsProbe(r).Skip? {
      if r.data.NetworkData? { SkipsWithout(r.data.errorRates); }
    }
    FirstHit(In(cats, "network"), i, HasErrors(), InterfaceErrorsProbe);
    var rates := cats["network"][i].data.errorRates;
    VerdictOf(ts, cats, a, n, NETWORK_ERRORS, Found(LargestProbe(rates).value));
    LargestCompared(rates, 100.0);
    LargestCompared(rates, 10.0);
  }

  ghost function HasErrors(): Data -> bool { (d: Data) => d.NetworkData? && AnyPositive(d.errorRates) }

  /** The first network result with more than one CPU decides. */
  lemma {:induction false} FirstSpread(rs: seq<Result>, i: nat)
    requires FirstAt(rs, i, (d: Data) => d.NetworkData? && |d.irqDeltas| > 1)
    ensures FirstAnswer(rs, ImbalanceProbe) == ReadingOf(SpreadProbe(rs[i].data.irqDeltas))
  {
    hide RuleShapes.Busiest, Idlest;
    if i > 0 { FirstSpread(rs[1..], i - 1); }
  }

  /** Some CPU took `factor` times the interrupts of another, fewer than one counting as one. */
  ghost predicate Outweighs(deltas: seq<int>, factor: int) {
    exists x, y :: 0 <= x < |deltas| && 0 <= y < |deltas| && deltas[x] >= factor * Max(deltas[y], 1)
  }

  ghost predicate AnyHundred(deltas: seq<int>) { exists k :: 0 <= k < |deltas| && deltas[k] >= 100 }

  /** Interrupts: given a CPU with at least 100 of them, critical if one took twenty times as many as
      another, a warning from five times. */
  lemma {:induction false} ImbalanceVerdict(ts: seq<Threshold>, cats: Categories, a: seq<Anomaly>, n: nat, i: nat)
    requires AnomaliesOf(ts, cats, a) && Listed(ts, n, IRQ_IMBALANCE)
    requires "network" in cats && FirstAt(cats["network"], i, (d: Data) => d.NetworkData? && |d.irqDeltas| > 1)
    ensures var deltas := cats["network"][i].data.irqDeltas;
            Verdicts(a, "network", "irq_imbalance", AnyHundred(deltas) && Outweighs(deltas, 20),
                     AnyHundred(deltas) && !Outweighs(deltas, 20) && Outweighs(deltas, 5))
  {
    hide AnomaliesOf, Listed, Verdicts, RuleShapes.Busiest, Idlest, SpreadProbe, Outweighs;
    FirstSpread(In(cats, "network"), i);
    var deltas := cats["network"][i].data.irqDeltas;
    VerdictOf(ts, cats, a, n, IRQ_IMBALANCE, ReadingOf(SpreadProbe(deltas)));
    SpreadMeans(deltas);
    if SpreadProbe(deltas).Hit? {
      SpreadCompared(deltas, SpreadProbe(deltas).value, 20);
      SpreadCompared(deltas, SpreadProbe(deltas).value, 5);
    }
  }

  lemma {:induction false} SpreadCompared(deltas: seq<int>, v: real, factor: int)
    requires Imbalance(deltas, Hit(v))
    ensures v >= factor as real <==> Outweighs(deltas, factor)
  {
    hide Ratio;
    if v >= factor as real {
      var x, y :| 0 <= x < |deltas| && 0 <= y < |deltas| && Ratio(deltas[x], deltas[y]) == v;
      RatioCompared(deltas[x], deltas[y], factor);
    }
    if x, y :| 0 <= x < |deltas| && 0 <= y < |deltas| && deltas[x] >= factor * Max(deltas[y], 1) {
      RatioCompared(deltas[x], deltas[y], factor);
      assert Ratio(deltas[x], deltas[y]) <= v;
    }
  }

  lemma {:induction false} RatioCompared(x: int, y: int, factor: int)
    ensures Ratio(x, y) >= factor as real <==> x >= factor * Max(y, 1)
  {
    var d := Max(y, 1);
    Compared(x as real, d as real, factor as real);
    assert (factor * d) as real == factor as real * d as real;
  }
}
