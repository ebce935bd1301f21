/** internal/model/anomaly.go: the rules whose answer may pass from one result to the next, the
    histogram rules, and the score of a whole report under all of them. */
module MeasuredRules {
  import opened Report
  import opened Health
  import opened AnomalyRules
  import opened UseMetrics
  import opened RuleShapes
  import opened FieldRules

  function InterfaceErrorsProbe(r: Result): Probe {
    if r.data.NetworkData? then LargestProbe(r.data.errorRates) else Skip
  }

  const NETWORK_ERRORS :=
    Threshold(Rule("network_errors_per_sec", "network", 10.0, 100.0), FirstMatch("network", InterfaceErrorsProbe))

  const HISTOGRAM_RULES: seq<Threshold> := [
    Threshold(Rule("biolatency_p99_ssd", "disk", 5.0, 25.0), HistogramP99("biolatency", false)),
    Threshold(Rule("biolatency_p99_hdd", "disk", 50.0, 200.0), HistogramP99("biolatency", true)),
    Threshold(Rule("runqlat_p99", "cpu", 10.0, 50.0), HistogramP99("runqlat", false)),
    Threshold(Rule("dns_latency_p99", "network", 50.0, 200.0), HistogramP99("gethostlatency", false)),
    Threshold(Rule("cache_miss_ratio", "memory", 5.0, 15.0), FirstHistogram("cachestat", "cache_miss_ratio"))]

  // ---------------------------------------------------------------------
  // Worse measurements, histograms included

  ghost predicate WorseHistograms(a: seq<Histogram>, b: seq<Histogram>) {
    |a| == |b| &&
    forall i :: 0 <= i < |a| ==>
      b[i].name == a[i].name && b[i].unit == a[i].unit && b[i].p99 >= a[i].p99 && b[i].mean >= a[i].mean
  }

  /** The same devices, no faster. */
  ghost predicate SlowerDevices(a: seq<Device>, b: seq<Device>) {
    |a| == |b| &&
    forall i :: 0 <= i < |a| ==>
      b[i].name == a[i].name && b[i].rotational == a[i].rotational && b[i].avgLatencyMs >= a[i].avgLatencyMs
  }

  ghost predicate WorseResult(a: Result, b: Result) {
    && b.collector == a.collector
    && WorseData(a.data, b.data)
    && (a.data.DiskData? && b.data.DiskData? ==> SlowerDevices(a.data.devices, b.data.devices))
    && WorseHistograms(a.histograms, b.histograms)
  }

  ghost predicate WorseEach(a: seq<Result>, b: seq<Result>) {
    |a| == |b| && forall i :: 0 <= i < |a| ==> WorseResult(a[i], b[i])
  }

  ghost predicate WorseMeasured(a: Categories, b: Categories) {
    a.Keys == b.Keys && forall c :: c in a ==> WorseEach(a[c], b[c])
  }

  lemma {:induction false} MeasuredIsReport(a: Categories, b: Categories)
    requires WorseMeasured(a, b)
    ensures WorseReport(a, b)
  {
    hide WorseData, WorseHistograms, SlowerDevices;
  }

  // ---------------------------------------------------------------------
  // Rules that pass on a result without an entry

  /** An answer stays an answer and does not fall. */
  ghost predicate Rising(probe: Result -> Probe) {
    forall x: Result, y: Result :: WorseResult(x, y) && probe(x).Hit? ==> probe(y).Hit? && probe(y).value >= probe(x).value
  }

  /** At most one result answers: with one data result in the category, as registration gives. */
  ghost predicate OneAnswers(results: seq<Result>, probe: Result -> Probe) {
    forall i, j :: 0 <= i < j < |results| ==> probe(results[i]).Skip? || probe(results[j]).Skip?
  }

  lemma {:induction false} LargestRises(a: seq<real>, b: seq<real>)
    requires WorseRates(a, b) && LargestProbe(a).Hit?
    ensures LargestProbe(b).Hit? && LargestProbe(b).value >= LargestProbe(a).value
  {
    LargestMeans(a);
    LargestMeans(b);
    hide LargestProbe;
    LargestMonotone(a, b, LargestProbe(a), LargestProbe(b));
  }

  lemma {:induction false} LatencyRises()
    ensures Rising(DiskLatencyProbe) && Rising(InterfaceErrorsProbe)
  {
    hide LargestProbe, WorseHistograms;
    forall x: Result, y: Result | WorseResult(x, y) && DiskLatencyProbe(x).Hit?
      ensures DiskLatencyProbe(y).Hit? && DiskLatencyProbe(y).value >= DiskLatencyProbe(x).value
    {
      LargestRises(Latencies(x.data.devices), Latencies(y.data.devices));
    }
    forall x: Result, y: Result | WorseResult(x, y) && InterfaceErrorsProbe(x).Hit?
      ensures InterfaceErrorsProbe(y).Hit? && InterfaceErrorsProbe(y).value >= InterfaceErrorsProbe(x).value
    {
      LargestRises(x.data.errorRates, y.data.errorRates);
    }
  }

  lemma {:induction false} RisingAnswer(a: seq<Result>, b: seq<Result>, probe: Result -> Probe)
    requires WorseEach(a, b) && Rising(probe) && OneAnswers(b, probe)
    ensures WorseReading(FirstAnswer(a, probe), FirstAnswer(b, probe))
  {
    hide WorseResult, FirstAnswer;
    FirstAnswerMeans(a, probe);
    FirstAnswerMeans(b, probe);
    if k :| Answers(a, probe, k) {
      assert WorseResult(a[k], b[k]);
      if probe(a[k]).Hit? { assert Answers(b, probe, k); }
    }
  }

  // ---------------------------------------------------------------------
  // Histogram rules

  lemma {:induction false} SameKnown(a: seq<Result>, b: seq<Result>)
    requires WorseEach(a, b)
    ensures RotationalDevices(a) == RotationalDevices(b)
  {
    hide WorseHistograms;
    if a != [] {
      var n := |a| - 1;
      SameKnown(a[..n], b[..n]);
      assert WorseResult(a[n], b[n]);
      if a[n].data.DiskData? { SameDevices(RotationalDevices(a[..n]), a[n].data.devices, b[n].data.devices); }
    }
  }

  lemma {:induction false} SameDevices(known: map<string, bool>, a: seq<Device>, b: seq<Device>)
    requires SlowerDevices(a, b)
    ensures AddDevices(known, a) == AddDevices(known, b)
  {
    if a != [] { SameDevices(known, a[..|a| - 1], b[..|b| - 1]); }
  }

  ghost predicate Reached(values: seq<real>, v: real) { exists i :: 0 <= i < |values| && values[i] >= v }

  lemma {:induction false} ReachedMore(a: seq<real>, b: seq<real>, v: real)
    ensures Reached(a, v) || Reached(b, v) ==> Reached(a + b, v)
  {
    if i :| 0 <= i < |a| && a[i] >= v { assert (a + b)[i] >= v; }
    if i :| 0 <= i < |b| && b[i] >= v { assert (a + b)[|a| + i] >= v; }
  }

  lemma {:induction false} HistogramsRise(
    a: seq<Histogram>, b: seq<Histogram>, collector: string, rotational: bool, known: map<string, bool>, v: real)
    requires WorseHistograms(a, b) && v in HistogramValues(a, collector, rotational, known)
    ensures Reached(HistogramValues(b, collector, rotational, known), v)
  {
    hide ExtractDeviceName;
    var n := |a| - 1;
    var front := HistogramValues(b[..n], collector, rotational, known);
    var last := if Eligible(b[n], collector, rotational, known) then [Milliseconds(b[n])] else [];
    if v in HistogramValues(a[..n], collector, rotational, known) {
      HistogramsRise(a[..n], b[..n], collector, rotational, known, v);
    } else {
      assert last == [Milliseconds(b[n])] && last[0] >= v;
    }
    ReachedMore(front, last, v);
  }

  lemma {:induction false} ResultsRise(
    a: seq<Result>, b: seq<Result>, collector: string, rotational: bool, known: map<string, bool>, v: real)
    requires WorseEach(a, b) && v in ResultValues(a, collector, rotational, known)
    ensures Reached(ResultValues(b, collector, rotational, known), v)
  {
    hide HistogramValues, WorseData, SlowerDevices, WorseHistograms;
    var n := |a| - 1;
    assert WorseResult(a[n], b[n]);
    var front := ResultValues(b[..n], collector, rotational, known);
    var last := if b[n].collector == collector then HistogramValues(b[n].histograms, collector, rotational, known) else [];
    if v in ResultValues(a[..n], collector, rotational, known) {
      ResultsRise(a[..n], b[..n], collector, rotational, known, v);
    } else {
      HistogramsRise(a[n].histograms, b[n].histograms, collector, rotational, known, v);
    }
    ReachedMore(front, last, v);
  }

  lemma {:induction false} P99Rises(a: Categories, b: Categories, collector: string, rotational: bool, r: Reading, s: Reading)
    requires WorseMeasured(a, b)
    requires LargestConsidered(a, collector, rotational, r) && LargestConsidered(b, collector, rotational, s)
    ensures WorseReading(r, s)
  {
    hide WorseEach, ResultValues, RotationalDevices;
    if r.Found? {
      var known := RotationalDevices(In(a, "disk"));
      EachIn(a, b, "disk");
      SameKnown(In(a, "disk"), In(b, "disk"));
      var c :| c in a && r.value in ResultValues(a[c], collector, rotational, known);
      ResultsRise(a[c], b[c], collector, rotational, known, r.value);
      var values := ResultValues(b[c], collector, rotational, known);
      var i :| 0 <= i < |values| && values[i] >= r.value;
      assert Considered(b, collector, rotational, values[i]);
    }
  }

  lemma {:induction false} EachIn(a: Categories, b: Categories, c: string)
    requires WorseMeasured(a, b)
    ensures WorseEach(In(a, c), In(b, c))
  {}

  lemma {:induction false} FirstMeanRises(a: seq<Histogram>, b: seq<Histogram>, name: string)
    requires WorseHistograms(a, b)
    ensures WorseReading(FirstMean(a, name), FirstMean(b, name))
    ensures FirstMean(a, name).Found? == FirstMean(b, name).Found?
  {
    if a != [] { FirstMeanRises(a[1..], b[1..], name); }
  }

  lemma {:induction false} MeanInRises(a: seq<Result>, b: seq<Result>, collector: string, name: string)
    requires WorseEach(a, b)
    ensures WorseReading(MeanIn(a, collector, name), MeanIn(b, collector, name))
  {
    hide WorseData, SlowerDevices, WorseHistograms, FirstMean;
    if a != [] {
      assert WorseResult(a[0], b[0]);
      FirstMeanRises(a[0].histograms, b[0].histograms, name);
      MeanInRises(a[1..], b[1..], collector, name);
    }
  }

  lemma {:induction false} MeanRises(a: Categories, b: Categories, collector: string, name: string, r: Reading, s: Reading)
    requires WorseMeasured(a, b) && UniqueCollectors(b)
    requires SomeMean(a, collector, name, r) && SomeMean(b, collector, name, s)
    ensures WorseReading(r, s)
  {
    hide WorseEach, MeanIn, UniqueCollectors;
    if r.Found? {
      var c :| c in a && MeanIn(a[c], collector, name) == r;
      MeanInRises(a[c], b[c], collector, name);
      SomeMeanUnique(b, collector, name, MeanIn(b[c], collector, name), s);
    }
  }

  // ---------------------------------------------------------------------
  // The whole report

  /** The rule reads no less in this report than in one measured under less pressure. */
  ghost predicate Monotone(e: Evaluator, b: Categories) {
    match e
    case FirstMatch(category, probe) => Steady(probe) || (Rising(probe) && OneAnswers(In(b, category), probe))
    case HistogramP99(_, _) => true
    case FirstHistogram(_, _) => UniqueCollectors(b)
  }

  lemma {:induction false} ReadingRises(e: Evaluator, a: Categories, b: Categories, r: Reading, s: Reading)
    requires WorseMeasured(a, b) && Monotone(e, b) && Reads(e, a, r) && Reads(e, b, s)
    ensures WorseReading(r, s)
  {
    hide WorseReading, FirstAnswer, LargestConsidered, SomeMean, UniqueCollectors, WorseMeasured, Steady, Rising, OneAnswers, In;
    match e
    case FirstMatch(category, probe) =>
      EachIn(a, b, category);
      if Steady(probe) {
        MeasuredIsReport(a, b);
        InMonotone(a, b, category);
        FirstAnswerMonotone(In(a, category), In(b, category), probe);
      } else {
        RisingAnswer(In(a, category), In(b, category), probe);
      }
    case HistogramP99(collector, rotational) => P99Rises(a, b, collector, rotational, r, s);
    case FirstHistogram(collector, name) => MeanRises(a, b, collector, name, r, s);
  }

  /** From raw measurements to the score, histograms and passing rules included: measured under at
      least as much pressure, a report does not score higher. */
  lemma {:induction false} MeasuredScoreMonotone(
    a: Categories, b: Categories, thresholds: seq<Threshold>, x: seq<Anomaly>, y: seq<Anomaly>)
    requires WorseMeasured(a, b)
    requires forall i :: 0 <= i < |thresholds| ==> Monotone(thresholds[i].evaluator, b)
    requires AnomaliesOf(thresholds, a, x) && AnomaliesOf(thresholds, b, y)
    ensures Score(Metrics(b), y) <= Score(Metrics(a), x)
  {
    hide Metrics, Score, Detected, AnomaliesOf, Monotone, Reads, WorseMeasured, WorseReading, WorseReport;
    var r := ReadingsOf(thresholds, a, x);
    var s := ReadingsOf(thresholds, b, y);
    forall i | 0 <= i < |thresholds| ensures WorseReading(r[i], s[i]) {
      ReadingRises(thresholds[i].evaluator, a, b, r[i], s[i]);
    }
    MeasuredIsReport(a, b);
    MetricsMonotone(a, b);
    ScoreMonotone(Rules(thresholds), r, s, Metrics(a), Metrics(b));
  }

  /** At most one result per category carries data of a kind. */
  ghost predicate OneDataEach(cats: Categories) {
    && (forall i, j :: 0 <= i < j < |In(cats, "disk")| ==> !In(cats, "disk")[i].data.DiskData? || !In(cats, "disk")[j].data.DiskData?)
    && (forall i, j :: 0 <= i < j < |In(cats, "network")| ==>
          !In(cats, "network")[i].data.NetworkData? || !In(cats, "network")[j].data.NetworkData?)
  }

  /** All fifteen rules spelled out here meet the condition in a report with distinct collectors
      and one data result of a kind in each category. */
  lemma {:induction false} RulesMonotone(b: Categories, t: Threshold)
    requires UniqueCollectors(b) && OneDataEach(b)
    requires t in FIELD_RULES + HISTOGRAM_RULES + [DISK_AVG_LATENCY, NETWORK_ERRORS]
    ensures Monotone(t.evaluator, b)
  {
    hide Steady, Rising, UniqueCollectors, FIELD_RULES;
    LatencyRises();
    if i :| 0 <= i < |FIELD_RULES| && t == FIELD_RULES[i] {
      FieldRulesSteady(i);
    }
  }
}
