/** internal/model/anomaly.go: the evaluators behind the threshold rules and DetectAnomalies.
    A rule that reads one category looks at its results in order and stops at the first that
    answers; what it asks of a result is an arbitrary function, which covers every such rule. */
module AnomalyRules {
  import opened Report
  import opened Health

  datatype Rule = Rule(metric: string, category: string, warning: real, critical: real)

  datatype Reading = Absent | Found(value: real)

  /** One result's answer: look further, stop with a value, stop with nothing. */
  datatype Probe = Skip | Hit(value: real) | Miss

  datatype Evaluator =
    | FirstMatch(category: string, probe: Result -> Probe)
    | HistogramP99(collector: string, rotational: bool)
    | FirstHistogram(collector: string, histogram: string)

  datatype Threshold = Threshold(rule: Rule, evaluator: Evaluator)

  function In(cats: Categories, category: string): seq<Result> {
    if category in cats then cats[category] else []
  }

  function FirstAnswer(results: seq<Result>, probe: Result -> Probe): Reading {
    if results == [] then Absent
    else match probe(results[0])
      case Hit(v) => Found(v)
      case Miss => Absent
      case Skip => FirstAnswer(results[1..], probe)
  }

  // ---------------------------------------------------------------------
  // histogramP99Evaluator

  const NAME_PREFIX := "block_io_latency_"

  /** extractDeviceName. */
  function ExtractDeviceName(name: string): string {
    if |name| > |NAME_PREFIX| && name[..|NAME_PREFIX|] == NAME_PREFIX then name[|NAME_PREFIX|..] else ""
  }

  lemma {:induction false} ExtractInverts(device: string)
    ensures ExtractDeviceName(NAME_PREFIX + device) == device
  {}

  function AddDevices(known: map<string, bool>, devices: seq<Device>): map<string, bool> {
    if devices == [] then known
    else
      var d := devices[|devices| - 1];
      AddDevices(known, devices[..|devices| - 1])[d.name := d.rotational]
  }

  /** Which devices rotate, according to the disk results; later entries win. */
  function RotationalDevices(results: seq<Result>): map<string, bool> {
    if results == [] then map[]
    else
      var front := RotationalDevices(results[..|results| - 1]);
      match results[|results| - 1].data
      case DiskData(devices) => AddDevices(front, devices)
      case _ => front
  }

  /** The rule for this kind of device looks at this histogram. */
  predicate Eligible(h: Histogram, collector: string, rotational: bool, known: map<string, bool>) {
    && h.p99 > 0.0
    && !(collector == "biolatency" && |known| > 0 &&
         ExtractDeviceName(h.name) != "" && ExtractDeviceName(h.name) in known &&
         known[ExtractDeviceName(h.name)] != rotational)
  }

  function Milliseconds(h: Histogram): real { if h.unit == "us" then h.p99 / 1000.0 else h.p99 }

  /** The values a rule considers among some histograms, in order. */
  function HistogramValues(hs: seq<Histogram>, collector: string, rotational: bool, known: map<string, bool>): (r: seq<real>)
  {
    if hs == [] then []
    else
      var h := hs[|hs| - 1];
      HistogramValues(hs[..|hs| - 1], collector, rotational, known) +
      (if Eligible(h, collector, rotational, known) then [Milliseconds(h)] else [])
  }

  function ResultValues(rs: seq<Result>, collector: string, rotational: bool, known: map<string, bool>): seq<real> {
    if rs == [] then []
    else
      var r := rs[|rs| - 1];
      ResultValues(rs[..|rs| - 1], collector, rotational, known) +
      (if r.collector == collector then HistogramValues(r.histograms, collector, rotational, known) else [])
  }

  /** The reading is the largest of the values, absent when there is none. */
  ghost predicate Largest(values: seq<real>, r: Reading) {
    match r
    case Absent => values == []
    case Found(v) => v in values && forall i :: 0 <= i < |values| ==> values[i] <= v
  }

  /** `v` is a value the rule considers somewhere in the report. */
  ghost predicate Considered(cats: Categories, collector: string, rotational: bool, v: real) {
    exists c :: c in cats && v in ResultValues(cats[c], collector, rotational, RotationalDevices(In(cats, "disk")))
  }

  /** What the rule reports: the largest considered value, found if and only if there is one. */
  ghost predicate LargestConsidered(cats: Categories, collector: string, rotational: bool, r: Reading) {
    match r
    case Absent => forall v :: !Considered(cats, collector, rotational, v)
    case Found(max) =>
      && Considered(cats, collector, rotational, max)
      && forall v :: Considered(cats, collector, rotational, v) ==> v <= max
  }

  method ScanHistograms(hs: seq<Histogram>, collector: string, rotational: bool, known: map<string, bool>,
                        maxP99: real, found: bool, ghost values: seq<real>)
    returns (max: real, any: bool)
    requires maxP99 >= 0.0 && (!found ==> maxP99 == 0.0)
    requires Largest(values, if found then Found(maxP99) else Absent)
    ensures max >= 0.0 && (!any ==> max == 0.0)
    ensures Largest(values + HistogramValues(hs, collector, rotational, known), if any then Found(max) else Absent)
  {
    hide Eligible;
    max, any := maxP99, found;
    assert values + [] == values;
    for i := 0 to |hs|
      invariant max >= 0.0 && (!any ==> max == 0.0)
      invariant Largest(values + HistogramValues(hs[..i], collector, rotational, known), if any then Found(max) else Absent)
    {
      var h := hs[i];
      assert hs[..i + 1][..i] == hs[..i];
      ghost var prior := values + HistogramValues(hs[..i], collector, rotational, known);
      if Eligible(h, collector, rotational, known) {
        assert h.p99 > 0.0 by { EligiblePositive(h, collector, rotational, known); }
        var p99ms := Milliseconds(h);
        LargestExtends(prior, if any then Found(max) else Absent, p99ms);
        assert values + HistogramValues(hs[..i + 1], collector, rotational, known) == prior + [p99ms];
        if p99ms > max {
          max, any := p99ms, true;
        }
      } else {
        assert values + HistogramValues(hs[..i + 1], collector, rotational, known) == prior;
      }
    }
    assert hs[..|hs|] == hs;
  }

  lemma {:induction false} EligiblePositive(h: Histogram, collector: string, rotational: bool, known: map<string, bool>)
    requires Eligible(h, collector, rotational, known)
    ensures h.p99 > 0.0
  {}

  lemma {:induction false} LargestExtends(values: seq<real>, r: Reading, v: real)
    requires Largest(values, r)
    ensures Largest(values + [v], if r.Found? && r.value >= v then r else Found(v))
  {}

  method ScanResults(rs: seq<Result>, collector: string, rotational: bool, known: map<string, bool>,
                     maxP99: real, found: bool, ghost values: seq<real>)
    returns (max: real, any: bool)
    requires maxP99 >= 0.0 && (!found ==> maxP99 == 0.0)
    requires Largest(values, if found then Found(maxP99) else Absent)
    ensures max >= 0.0 && (!any ==> max == 0.0)
    ensures Largest(values + ResultValues(rs, collector, rotational, known), if any then Found(max) else Absent)
  {
    hide Largest, HistogramValues;
    max, any := maxP99, found;
    assert values + [] == values;
    for i := 0 to |rs|
      invariant max >= 0.0 && (!any ==> max == 0.0)
      invariant Largest(values + ResultValues(rs[..i], collector, rotational, known), if any then Found(max) else Absent)
    {
      var r := rs[i];
      assert rs[..i + 1][..i] == rs[..i];
      ghost var prior := values + ResultValues(rs[..i], collector, rotational, known);
      if r.collector == collector {
        max, any := ScanHistograms(r.histograms, collector, rotational, known, max, any, prior);
        assert values + ResultValues(rs[..i + 1], collector, rotational, known) ==
               prior + HistogramValues(r.histograms, collector, rotational, known);
      } else {
        assert values + ResultValues(rs[..i + 1], collector, rotational, known) == prior;
      }
    }
    assert rs[..|rs|] == rs;
  }

  /** histogramP99Evaluator: the categories are visited in any order. */
  method EvaluateP99(cats: Categories, collector: string, rotational: bool) returns (r: Reading)
    ensures LargestConsidered(cats, collector, rotational, r)
  {
    hide ResultValues;
    var known := RotationalDevices(In(cats, "disk"));
    var max, found := 0.0, false;
    ghost var values: seq<real> := [];
    var todo := cats.Keys;
    while todo != {}
      invariant todo <= cats.Keys
      invariant max >= 0.0 && (!found ==> max == 0.0)
      invariant Largest(values, if found then Found(max) else Absent)
      invariant forall v :: v in values <==>
                  exists c :: c in cats && c !in todo && v in ResultValues(cats[c], collector, rotational, known)
      decreases |todo|
    {
      var c :| c in todo;
      ghost var more := ResultValues(cats[c], collector, rotational, known);
      max, found := ScanResults(cats[c], collector, rotational, known, max, found, values);
      todo := todo - {c};
      assert forall v :: v in values + more <==> v in values || v in more;
      values := values + more;
    }
    r := if found then Found(max) else Absent;
    ConsideredIs(cats, collector, rotational, values, r);
  }

  lemma {:induction false} ConsideredIs(cats: Categories, collector: string, rotational: bool, values: seq<real>, r: Reading)
    requires Largest(values, r)
    requires forall v :: v in values <==>
               exists c :: c in cats && v in ResultValues(cats[c], collector, rotational, RotationalDevices(In(cats, "disk")))
    ensures LargestConsidered(cats, collector, rotational, r)
  {
    hide ResultValues;
    forall v ensures Considered(cats, collector, rotational, v) <==> v in values {}
  }

  lemma {:induction false} LargestConsideredUnique(cats: Categories, collector: string, rotational: bool, a: Reading, b: Reading)
    requires LargestConsidered(cats, collector, rotational, a) && LargestConsidered(cats, collector, rotational, b)
    ensures a == b
  {}

  /** A histogram of a device whose type is known feeds exactly one of the SSD and HDD rules. */
  lemma {:induction false} KnownDeviceFeedsOne(h: Histogram, device: string, known: map<string, bool>)
    requires h.name == NAME_PREFIX + device && device != "" && device in known && h.p99 > 0.0
    ensures Eligible(h, "biolatency", known[device], known)
    ensures !Eligible(h, "biolatency", !known[device], known)
  {}

  /** Both rules look at a histogram exactly when its device is not known. */
  lemma {:induction false} FeedsBothIff(h: Histogram, known: map<string, bool>)
    ensures Eligible(h, "biolatency", true, known) && Eligible(h, "biolatency", false, known) <==>
            h.p99 > 0.0 && (ExtractDeviceName(h.name) == "" || ExtractDeviceName(h.name) !in known)
  {}

  /** Such a histogram: the device "dm" next to a known rotating "sda". */
  lemma {:induction false} UnknownFeedsBoth()
    ensures var h := Histogram(NAME_PREFIX + "dm", "us", [], 1, 1.0, 1.0, 1.0, 1.0, 1.0, 1.0);
            forall rotational :: Eligible(h, "biolatency", rotational, map["sda" := true])
  {
    ExtractInverts("dm");
    assert "dm" != "sda" by { assert |"dm"| != |"sda"|; }
  }

  // ---------------------------------------------------------------------
  // The cache rule: the first histogram of a name, over all categories

  function FirstMean(hs: seq<Histogram>, name: string): Reading {
    if hs == [] then Absent else if hs[0].name == name then Found(hs[0].mean) else FirstMean(hs[1..], name)
  }

  function MeanIn(rs: seq<Result>, collector: string, name: string): Reading {
    if rs == [] then Absent
    else
      var first := if rs[0].collector == collector then FirstMean(rs[0].histograms, name) else Absent;
      if first.Found? then first else MeanIn(rs[1..], collector, name)
  }

  /** The mean found in one of the categories, whichever is visited first. */
  ghost predicate SomeMean(cats: Categories, collector: string, name: string, r: Reading) {
    match r
    case Absent => forall c :: c in cats ==> MeanIn(cats[c], collector, name).Absent?
    case Found(_) => exists c :: c in cats && MeanIn(cats[c], collector, name) == r
  }

  method EvaluateFirstHistogram(cats: Categories, collector: string, name: string) returns (r: Reading)
    ensures SomeMean(cats, collector, name, r)
  {
    hide MeanIn;
    var todo := cats.Keys;
    while todo != {}
      invariant todo <= cats.Keys
      invariant forall c :: c in cats && c !in todo ==> MeanIn(cats[c], collector, name).Absent?
      decreases |todo|
    {
      var c :| c in todo;
      todo := todo - {c};
      r := MeanIn(cats[c], collector, name);
      if r.Found? {
        return;
      }
    }
    r := Absent;
  }

  /** Across the whole report no two results share a collector name. */
  ghost predicate UniqueCollectors(cats: Categories) {
    forall c, d, i, j ::
      c in cats && d in cats && 0 <= i < |cats[c]| && 0 <= j < |cats[d]| && cats[c][i].collector == cats[d][j].collector
      ==> c == d && i == j
  }

  lemma {:induction false} MeanHasSource(rs: seq<Result>, collector: string, name: string)
    requires MeanIn(rs, collector, name).Found?
    ensures exists i :: 0 <= i < |rs| && rs[i].collector == collector
  {
    hide FirstMean;
    if rs[0].collector != collector || FirstMean(rs[0].histograms, name).Absent? {
      MeanHasSource(rs[1..], collector, name);
      var i :| 0 <= i < |rs[1..]| && rs[1..][i].collector == collector;
      assert rs[i + 1].collector == collector;
    }
  }

  lemma {:induction false} SomeMeanUnique(cats: Categories, collector: string, name: string, a: Reading, b: Reading)
    requires UniqueCollectors(cats)
    requires SomeMean(cats, collector, name, a) && SomeMean(cats, collector, name, b)
    ensures a == b
  {
    hide MeanIn;
    if a.Found? && b.Found? {
      var c :| c in cats && MeanIn(cats[c], collector, name) == a;
      var d :| d in cats && MeanIn(cats[d], collector, name) == b;
      MeanHasSource(cats[c], collector, name);
      MeanHasSource(cats[d], collector, name);
      var i :| 0 <= i < |cats[c]| && cats[c][i].collector == collector;
      var j :| 0 <= j < |cats[d]| && cats[d][j].collector == collector;
      assert c == d;
    }
  }

  // ---------------------------------------------------------------------
  // Threshold detection

  function SeverityOf(rule: Rule, v: real): (s: seq<Severity>)
    ensures |s| <= 1
  {
    if v >= rule.critical then [Critical] else if v >= rule.warning then [Warning] else []
  }

  /** What one rule contributes to the anomaly list. */
  function Verdict(rule: Rule, reading: Reading): seq<Anomaly> {
    match reading
    case Absent => []
    case Found(v) =>
      var s := SeverityOf(rule, v);
      if s == [] then [] else [Anomaly(s[0], rule.category, rule.metric, v, rule.warning, rule.critical)]
  }

  /** DetectAnomalies on the readings of its rules, in the order of the rules. */
  function Detected(rules: seq<Rule>, readings: seq<Reading>): seq<Anomaly>
    requires |rules| == |readings|
  {
    if rules == [] then []
    else
      var n := |rules| - 1;
      Detected(rules[..n], readings[..n]) + Verdict(rules[n], readings[n])
  }

  /** A reading is at least as bad as another: found where the other was, and as high. */
  predicate WorseReading(a: Reading, b: Reading) {
    a.Found? ==> b.Found? && b.value >= a.value
  }

  lemma {:induction false} VerdictMonotone(rule: Rule, a: Reading, b: Reading)
    requires WorseReading(a, b)
    ensures AnomalyPoints(Verdict(rule, a)) <= AnomalyPoints(Verdict(rule, b))
  {}

  lemma {:induction false} DetectedMonotone(rules: seq<Rule>, a: seq<Reading>, b: seq<Reading>)
    requires |rules| == |a| == |b|
    requires forall i :: 0 <= i < |rules| ==> WorseReading(a[i], b[i])
    ensures AnomalyPoints(Detected(rules, a)) <= AnomalyPoints(Detected(rules, b))
  {
    hide Verdict;
    if rules != [] {
      var n := |rules| - 1;
      DetectedMonotone(rules[..n], a[..n], b[..n]);
      VerdictMonotone(rules[n], a[n], b[n]);
      VerdictSize(rules[n], a[n]);
      VerdictSize(rules[n], b[n]);
      AnomalyPointsAppend(Detected(rules[..n], a[..n]), Verdict(rules[n], a[n]));
      AnomalyPointsAppend(Detected(rules[..n], b[..n]), Verdict(rules[n], b[n]));
    }
  }

  lemma {:induction false} VerdictSize(rule: Rule, r: Reading)
    ensures |Verdict(rule, r)| <= 1
  {}

  /** Raising any reading, making an absent one found, adding a resource, or raising its
      utilization, saturation or errors never raises the health score - whatever the
      thresholds, through severity choice, weighting, truncation and clamping. */
  lemma {:induction false} ScoreMonotone(
    rules: seq<Rule>, a: seq<Reading>, b: seq<Reading>, before: map<string, USEMetric>, after: map<string, USEMetric>)
    requires |rules| == |a| == |b|
    requires forall i :: 0 <= i < |rules| ==> WorseReading(a[i], b[i])
    requires WorseResources(before, after)
    ensures 0 <= Score(after, Detected(rules, b)) <= Score(before, Detected(rules, a)) <= 100
  {
    DetectedMonotone(rules, a, b);
    TotalMonotone(before, after);
  }

  // ---------------------------------------------------------------------
  // DetectAnomalies

  /** What an evaluator may report, over all orders of the categories. */
  ghost predicate Reads(e: Evaluator, cats: Categories, r: Reading) {
    match e
    case FirstMatch(category, probe) => r == FirstAnswer(In(cats, category), probe)
    case HistogramP99(collector, rotational) => LargestConsidered(cats, collector, rotational, r)
    case FirstHistogram(collector, name) => SomeMean(cats, collector, name, r)
  }

  method Evaluate(e: Evaluator, cats: Categories) returns (r: Reading)
    ensures Reads(e, cats, r)
  {
    match e
    case FirstMatch(category, probe) =>
      var results := In(cats, category);
      for i := 0 to |results|
        invariant FirstAnswer(results, probe) == FirstAnswer(results[i..], probe)
      {
        match probe(results[i])
        case Hit(v) => return Found(v);
        case Miss => return Absent;
        case Skip =>
      }
      r := Absent;
    case HistogramP99(collector, rotational) =>
      r := EvaluateP99(cats, collector, rotational);
    case FirstHistogram(collector, name) =>
      r := EvaluateFirstHistogram(cats, collector, name);
  }

  ghost predicate AllRead(thresholds: seq<Threshold>, cats: Categories, readings: seq<Reading>) {
    |readings| == |thresholds| &&
    forall i :: 0 <= i < |thresholds| ==> Reads(thresholds[i].evaluator, cats, readings[i])
  }

  function Rules(thresholds: seq<Threshold>): (r: seq<Rule>)
    ensures |r| == |thresholds|
    ensures forall i :: 0 <= i < |r| ==> r[i] == thresholds[i].rule
  {
    seq(|thresholds|, i requires 0 <= i < |thresholds| => thresholds[i].rule)
  }

  /** A rule speaks up: its reading was found and reaches one of the two thresholds. */
  predicate Fires(rule: Rule, reading: Reading) {
    reading.Found? && (reading.value >= rule.critical || reading.value >= rule.warning)
  }

  /** What it says: its category, metric, reading and thresholds, critical from that threshold on. */
  ghost predicate Says(rule: Rule, reading: Reading, a: Anomaly)
    requires reading.Found?
  {
    && a.category == rule.category && a.metric == rule.metric && a.value == reading.value
    && a.warning == rule.warning && a.critical == rule.critical
    && (a.severity == Critical <==> reading.value >= rule.critical)
  }

  ghost predicate Ascending(fired: seq<nat>, n: nat) {
    && (forall j, k :: 0 <= j < k < |fired| ==> fired[j] < fired[k])
    && (forall k :: 0 <= k < |fired| ==> fired[k] < n)
  }

  ghost predicate Exactly(thresholds: seq<Threshold>, readings: seq<Reading>, fired: seq<nat>)
    requires |readings| == |thresholds|
  {
    forall i :: 0 <= i < |thresholds| ==> (i in fired <==> Fires(thresholds[i].rule, readings[i]))
  }

  ghost predicate Spoken(thresholds: seq<Threshold>, readings: seq<Reading>, fired: seq<nat>, anomalies: seq<Anomaly>)
    requires |readings| == |thresholds| && |anomalies| == |fired| && Ascending(fired, |thresholds|)
  {
    forall k :: 0 <= k < |fired| ==>
      readings[fired[k]].Found? && Says(thresholds[fired[k]].rule, readings[fired[k]], anomalies[k])
  }

  /** The rules numbered in `fired`, in ascending order, are exactly those that speak up, and each
      says one thing. */
  ghost predicate Flags(thresholds: seq<Threshold>, readings: seq<Reading>, fired: seq<nat>, anomalies: seq<Anomaly>) {
    && |readings| == |thresholds| && |anomalies| == |fired|
    && Ascending(fired, |thresholds|)
    && Exactly(thresholds, readings, fired)
    && Spoken(thresholds, readings, fired, anomalies)
  }

  /** The anomaly list on readings the evaluators may report: in the order of the rules, one
      anomaly for each rule that speaks up. */
  ghost predicate AnomaliesOf(thresholds: seq<Threshold>, cats: Categories, anomalies: seq<Anomaly>) {
    exists readings, fired :: AllRead(thresholds, cats, readings) && Flags(thresholds, readings, fired, anomalies)
  }

  lemma {:induction false} VerdictIs(rule: Rule, r: Reading)
    ensures !Fires(rule, r) ==> Verdict(rule, r) == []
    ensures Fires(rule, r) ==> |Verdict(rule, r)| == 1 && Says(rule, r, Verdict(rule, r)[0])
  {}

  lemma {:induction false} SaysUnique(rule: Rule, r: Reading, a: Anomaly, b: Anomaly)
    requires r.Found? && Says(rule, r, a) && Says(rule, r, b)
    ensures a == b
  {}

  /** The last rule dropped. */
  lemma {:induction false} FlagsFront(thresholds: seq<Threshold>, readings: seq<Reading>, fired: seq<nat>, anomalies: seq<Anomaly>)
    requires |thresholds| > 0 && Flags(thresholds, readings, fired, anomalies)
    ensures var n, m := |thresholds| - 1, |fired| - 1;
            if Fires(thresholds[n].rule, readings[n])
            then m >= 0 && fired[m] == n && Says(thresholds[n].rule, readings[n], anomalies[m]) &&
                 Flags(thresholds[..n], readings[..n], fired[..m], anomalies[..m])
            else Flags(thresholds[..n], readings[..n], fired, anomalies)
  {
    hide Fires, Says;
    var n, m := |thresholds| - 1, |fired| - 1;
    LastFired(fired, n);
    assert n in fired <==> Fires(thresholds[n].rule, readings[n]);
    if n in fired {
      assert fired == fired[..m] + [n];
    }
  }

  lemma {:induction false} LastFired(fired: seq<nat>, n: nat)
    requires Ascending(fired, n + 1)
    ensures n in fired ==> |fired| > 0 && fired[|fired| - 1] == n && Ascending(fired[..|fired| - 1], n)
    ensures n !in fired ==> Ascending(fired, n)
  {
    if n in fired {
      var k :| 0 <= k < |fired| && fired[k] == n;
    } else {
      forall k | 0 <= k < |fired| ensures fired[k] < n { assert fired[k] in fired; }
    }
  }

  lemma {:induction false} AscendingShort(fired: seq<nat>, n: nat)
    requires Ascending(fired, n)
    ensures |fired| <= n
    decreases |fired|
  {
    if fired != [] { AscendingShort(fired[..|fired| - 1], fired[|fired| - 1]); }
  }

  /** What `Flags` describes is what the recursive form computes, and nothing else. */
  lemma {:induction false} FlagsIsDetected(thresholds: seq<Threshold>, readings: seq<Reading>, fired: seq<nat>, anomalies: seq<Anomaly>)
    requires Flags(thresholds, readings, fired, anomalies)
    ensures |readings| == |thresholds| && anomalies == Detected(Rules(thresholds), readings)
  {
    hide Flags, Verdict, Says, Fires;
    FlagsLengths(thresholds, readings, fired, anomalies);
    if thresholds == [] {
      NothingFires(thresholds, readings, fired, anomalies);
    } else {
      var n, m := |thresholds| - 1, |fired| - 1;
      FlagsFront(thresholds, readings, fired, anomalies);
      FiresFound(thresholds[n].rule, readings[n]);
      VerdictIs(thresholds[n].rule, readings[n]);
      assert Rules(thresholds)[..n] == Rules(thresholds[..n]);
      if Fires(thresholds[n].rule, readings[n]) {
        FlagsIsDetected(thresholds[..n], readings[..n], fired[..m], anomalies[..m]);
        SaysUnique(thresholds[n].rule, readings[n], anomalies[m], Verdict(thresholds[n].rule, readings[n])[0]);
        assert anomalies == anomalies[..m] + [anomalies[m]];
      } else {
        FlagsIsDetected(thresholds[..n], readings[..n], fired, anomalies);
      }
    }
  }

  lemma {:induction false} FiresFound(rule: Rule, r: Reading)
    ensures Fires(rule, r) ==> r.Found?
  {}

  lemma {:induction false} FlagsLengths(thresholds: seq<Threshold>, readings: seq<Reading>, fired: seq<nat>, anomalies: seq<Anomaly>)
    requires Flags(thresholds, readings, fired, anomalies)
    ensures |readings| == |thresholds| && |fired| == |anomalies|
  {}

  lemma {:induction false} NothingFires(thresholds: seq<Threshold>, readings: seq<Reading>, fired: seq<nat>, anomalies: seq<Anomaly>)
    requires thresholds == [] && readings == [] && Flags(thresholds, readings, fired, anomalies)
    ensures anomalies == []
  {
    AscendingShort(fired, 0);
  }

  lemma {:induction false} FlagsNone()
    ensures Flags([], [], [], [])
  {}

  method DetectAnomalies(thresholds: seq<Threshold>, cats: Categories) returns (anomalies: seq<Anomaly>)
    ensures AnomaliesOf(thresholds, cats, anomalies)
  {
    hide Reads, Flags, Verdict;
    FlagsNone();
    anomalies := [];
    ghost var readings: seq<Reading>, fired: seq<nat> := [], [];
    assert thresholds[..0] == [];
    for i := 0 to |thresholds|
      invariant AllRead(thresholds[..i], cats, readings)
      invariant Flags(thresholds[..i], readings, fired, anomalies)
    {
      var r := Evaluate(thresholds[i].evaluator, cats);
      var verdict := Verdict(thresholds[i].rule, r);
      FlagsGrow(thresholds[..i], readings, fired, anomalies, thresholds[i], r);
      assert thresholds[..i + 1] == thresholds[..i] + [thresholds[i]];
      readings := readings + [r];
      if verdict != [] {
        fired := fired + [i];
      }
      anomalies := anomalies + verdict;
    }
    assert thresholds[..|thresholds|] == thresholds;
  }

  lemma {:induction false} FlagsGrow(
    thresholds: seq<Threshold>, readings: seq<Reading>, fired: seq<nat>, anomalies: seq<Anomaly>,
    t: Threshold, r: Reading)
    requires Flags(thresholds, readings, fired, anomalies)
    ensures var verdict := Verdict(t.rule, r);
            Flags(thresholds + [t], readings + [r], if verdict == [] then fired else fired + [|thresholds|], anomalies + verdict)
  {
    hide Verdict, Fires, Says;
    var n, ts, rs := |thresholds|, thresholds + [t], readings + [r];
    VerdictIs(t.rule, r);
    FiresFound(t.rule, r);
    assert n !in fired;
    assert Exactly(ts, rs, if Fires(t.rule, r) then fired + [n] else fired) by {
      hide Spoken;
      assert forall i :: i in fired + [n] <==> i in fired || i == n;
    }
  }

  lemma {:induction false} ReadsUnique(e: Evaluator, cats: Categories, a: Reading, b: Reading)
    requires UniqueCollectors(cats) && Reads(e, cats, a) && Reads(e, cats, b)
    ensures a == b
  {
    hide LargestConsidered, SomeMean, FirstAnswer;
    match e
    case FirstMatch(_, _) =>
    case HistogramP99(collector, rotational) => LargestConsideredUnique(cats, collector, rotational, a, b);
    case FirstHistogram(collector, name) => SomeMeanUnique(cats, collector, name, a, b);
  }

  /** Readings behind an anomaly list. */
  lemma {:induction false} ReadingsOf(thresholds: seq<Threshold>, cats: Categories, anomalies: seq<Anomaly>)
    returns (readings: seq<Reading>)
    requires AnomaliesOf(thresholds, cats, anomalies)
    ensures AllRead(thresholds, cats, readings) && anomalies == Detected(Rules(thresholds), readings)
  {
    hide AllRead, Flags, Detected;
    var rs, fired :| AllRead(thresholds, cats, rs) && Flags(thresholds, rs, fired, anomalies);
    FlagsIsDetected(thresholds, rs, fired, anomalies);
    readings := rs;
  }

  /** The anomaly list does not depend on the order in which the report's map is visited. */
  lemma {:induction false} AnomaliesDeterministic(
    thresholds: seq<Threshold>, cats: Categories, a: seq<Anomaly>, b: seq<Anomaly>)
    requires UniqueCollectors(cats)
    requires AnomaliesOf(thresholds, cats, a) && AnomaliesOf(thresholds, cats, b)
    ensures a == b
  {
    hide Reads, Detected, UniqueCollectors, Flags;
    var x := ReadingsOf(thresholds, cats, a);
    var y := ReadingsOf(thresholds, cats, b);
    forall i | 0 <= i < |thresholds| ensures x[i] == y[i] {
      ReadsUnique(thresholds[i].evaluator, cats, x[i], y[i]);
    }
    assert x == y;
  }
}
