/** internal/model/anomaly.go: the rules that read one measured field, and the score of a whole
    report under them. */
module FieldRules {
  import opened Report
  import opened Health
  import opened AnomalyRules
  import opened UseMetrics

  function CpuUtilization(r: Result): Probe { if r.data.CPUData? then Hit(100.0 - r.data.idlePct) else Skip }

  function LoadAverage(r: Result): Probe {
    if r.data.CPUData? && r.data.numCPUs > 0 then Hit(r.data.loadAvg1 / r.data.numCPUs as real) else Skip
  }

  function MemoryUtilization(r: Result): Probe {
    if r.data.MemoryData? && r.data.totalBytes > 0 then
      Hit(Percent(r.data.totalBytes - r.data.availableBytes, r.data.totalBytes))
    else Skip
  }

  function SwapUsage(r: Result): Probe {
    if r.data.MemoryData? && r.data.swapTotalBytes > 0 then Hit(Percent(r.data.swapUsedBytes, r.data.swapTotalBytes)) else Skip
  }

  function Retransmits(r: Result): Probe {
    if r.data.NetworkData? && r.data.tcp.Some? then Hit(r.data.tcp.value.retransRate) else Skip
  }

  function DiskUtilization(r: Result): Probe { if r.data.DiskData? then Hit(DiskMetric(r.data).utilization) else Skip }

  function Throttling(r: Result): Probe { if r.data.ContainerData? then Hit(r.data.throttledPeriods as real) else Skip }

  function ContainerMemory(r: Result): Probe {
    if r.data.ContainerData? && r.data.memoryLimit > 0 then Hit(Percent(r.data.memoryUsage, r.data.memoryLimit)) else Skip
  }

  const FIELD_RULES: seq<Threshold> := [
    Threshold(Rule("cpu_utilization", "cpu", 80.0, 95.0), FirstMatch("cpu", CpuUtilization)),
    Threshold(Rule("load_average", "cpu", 2.0, 4.0), FirstMatch("cpu", LoadAverage)),
    Threshold(Rule("memory_utilization", "memory", 85.0, 95.0), FirstMatch("memory", MemoryUtilization)),
    Threshold(Rule("swap_usage", "memory", 10.0, 50.0), FirstMatch("memory", SwapUsage)),
    Threshold(Rule("tcp_retransmits", "network", 10.0, 50.0), FirstMatch("network", Retransmits)),
    Threshold(Rule("disk_utilization", "disk", 70.0, 90.0), FirstMatch("disk", DiskUtilization)),
    Threshold(Rule("cpu_throttling", "container", 100.0, 1000.0), FirstMatch("container", Throttling)),
    Threshold(Rule("container_memory_usage", "container", 80.0, 95.0), FirstMatch("container", ContainerMemory))]

  /** The answer under more pressure: no lower, and given by the same result. */
  predicate Raised(p: Probe, q: Probe) {
    match p
    case Hit(v) => q.Hit? && q.value >= v
    case Skip => q.Skip?
    case Miss => true
  }

  ghost predicate Steady(probe: Result -> Probe) {
    forall x: Result, y: Result :: WorseData(x.data, y.data) ==> Raised(probe(x), probe(y))
  }

  lemma {:induction false} FieldsRise(x: Result, y: Result)
    requires WorseData(x.data, y.data)
    ensures Raised(CpuUtilization(x), CpuUtilization(y)) && Raised(LoadAverage(x), LoadAverage(y))
    ensures Raised(MemoryUtilization(x), MemoryUtilization(y)) && Raised(SwapUsage(x), SwapUsage(y))
    ensures Raised(Retransmits(x), Retransmits(y)) && Raised(DiskUtilization(x), DiskUtilization(y))
    ensures Raised(Throttling(x), Throttling(y)) && Raised(ContainerMemory(x), ContainerMemory(y))
  {
    hide Percent, Busiest, DeepestQueue;
    var a, b := x.data, y.data;
    if a.CPUData? && a.numCPUs > 0 { DivideMonotone(a.loadAvg1, b.loadAvg1, a.numCPUs as real); }
    if a.MemoryData? && a.totalBytes > 0 {
      PercentMonotone(a.totalBytes - a.availableBytes, b.totalBytes - b.availableBytes, a.totalBytes);
    }
    if a.MemoryData? && a.swapTotalBytes > 0 { PercentMonotone(a.swapUsedBytes, b.swapUsedBytes, a.swapTotalBytes); }
    if a.ContainerData? && a.memoryLimit > 0 { PercentMonotone(a.memoryUsage, b.memoryUsage, a.memoryLimit); }
    if a.DiskData? { DevicesMonotone(a.devices, b.devices); }
  }

  /** Every one of these rules reads no less under more pressure. */
  lemma {:induction false} FieldRulesSteady(i: nat)
    requires i < |FIELD_RULES|
    ensures FIELD_RULES[i].evaluator.FirstMatch? && Steady(FIELD_RULES[i].evaluator.probe)
  {
    hide WorseData, Raised, CpuUtilization, LoadAverage, MemoryUtilization, SwapUsage;
    hide Retransmits, DiskUtilization, Throttling, ContainerMemory;
    var probe := FIELD_RULES[i].evaluator.probe;
    forall x: Result, y: Result | WorseData(x.data, y.data) ensures Raised(probe(x), probe(y)) {
      FieldsRise(x, y);
    }
  }

  lemma {:induction false} FirstAnswerMonotone(a: seq<Result>, b: seq<Result>, probe: Result -> Probe)
    requires WorseResults(a, b) && Steady(probe)
    ensures WorseReading(FirstAnswer(a, probe), FirstAnswer(b, probe))
  {
    hide WorseData;
    if a != [] {
      assert WorseData(a[0].data, b[0].data) && Raised(probe(a[0]), probe(b[0]));
      FirstAnswerMonotone(a[1..], b[1..], probe);
    }
  }

  /** From raw measurements to the score: when every result was measured under at least as much
      pressure, a report scored by steady rules does not score higher. */
  lemma {:induction false} RawScoreMonotone(
    a: Categories, b: Categories, thresholds: seq<Threshold>, x: seq<Anomaly>, y: seq<Anomaly>)
    requires WorseReport(a, b)
    requires forall i :: 0 <= i < |thresholds| ==>
               thresholds[i].evaluator.FirstMatch? && Steady(thresholds[i].evaluator.probe)
    requires AnomaliesOf(thresholds, a, x) && AnomaliesOf(thresholds, b, y)
    ensures Score(Metrics(b), y) <= Score(Metrics(a), x)
  {
    hide Metrics, Score, Detected, AnomaliesOf, Steady, WorseReport, FirstAnswer, In, WorseReading;
    var r := ReadingsOf(thresholds, a, x);
    var s := ReadingsOf(thresholds, b, y);
    forall i | 0 <= i < |thresholds| ensures WorseReading(r[i], s[i]) {
      var e := thresholds[i].evaluator;
      assert Reads(e, a, r[i]) && Reads(e, b, s[i]);
      InMonotone(a, b, e.category);
      FirstAnswerMonotone(In(a, e.category), In(b, e.category), e.probe);
    }
    MetricsMonotone(a, b);
    ScoreMonotone(Rules(thresholds), r, s, Metrics(a), Metrics(b));
  }

  /** The same for the eight rules above. */
  lemma {:induction false} FieldScoreMonotone(a: Categories, b: Categories, x: seq<Anomaly>, y: seq<Anomaly>)
    requires WorseReport(a, b) && AnomaliesOf(FIELD_RULES, a, x) && AnomaliesOf(FIELD_RULES, b, y)
    ensures Score(Metrics(b), y) <= Score(Metrics(a), x)
  {
    hide Metrics, Score, AnomaliesOf, WorseReport, Steady;
    forall i | 0 <= i < |FIELD_RULES|
      ensures FIELD_RULES[i].evaluator.FirstMatch? && Steady(FIELD_RULES[i].evaluator.probe)
    {
      FieldRulesSteady(i);
    }
    RawScoreMonotone(a, b, FIELD_RULES, x, y);
  }
}
