/** internal/model/anomaly.go: which histograms the P99 rules look at, and when they and the cache
    rule raise an anomaly, in terms of the report itself. */
module HistogramVerdicts {
  import opened Text
  import opened Report
  import opened Health
  import opened AnomalyRules
  import opened MeasuredRules
  import opened RuleVerdicts

  // ---------------------------------------------------------------------
  // What is known about a device

  /** The d-th device of the i-th result has this name. */
  ghost predicate Lists(results: seq<Result>, i: int, d: int, name: string) {
    && 0 <= i < |results| && results[i].data.DiskData?
    && 0 <= d < |results[i].data.devices| && results[i].data.devices[d].name == name
  }

  /** Nothing later in the results has it. */
  ghost predicate ListsLast(results: seq<Result>, i: int, d: int, name: string) {
    Lists(results, i, d, name) &&
    forall j, e :: Lists(results, j, e, name) ==> j < i || (j == i && e <= d)
  }

  ghost predicate LastNamed(devices: seq<Device>, d: int, name: string) {
    && 0 <= d < |devices| && devices[d].name == name
    && forall e :: d < e < |devices| ==> devices[e].name != name
  }

  lemma {:induction false} AddedDevices(known: map<string, bool>, devices: seq<Device>, name: string)
    ensures (forall d :: 0 <= d < |devices| ==> devices[d].name != name) ==>
              (name in AddDevices(known, devices) <==> name in known) &&
              (name in known ==> AddDevices(known, devices)[name] == known[name])
    ensures forall d :: LastNamed(devices, d, name) ==>
              name in AddDevices(known, devices) && AddDevices(known, devices)[name] == devices[d].rotational
  {
    if devices != [] {
      var n := |devices| - 1;
      AddedDevices(known, devices[..n], name);
      forall d | LastNamed(devices, d, name)
        ensures name in AddDevices(known, devices) && AddDevices(known, devices)[name] == devices[d].rotational
      {
        if d < n { assert LastNamed(devices[..n], d, name); }
      }
    }
  }

  /** A device counts as rotating or not as the last disk entry with its name says. */
  lemma {:induction false} KnownDevices(results: seq<Result>, i: int, d: int, name: string)
    requires ListsLast(results, i, d, name)
    ensures name in RotationalDevices(results)
    ensures RotationalDevices(results)[name] == results[i].data.devices[d].rotational
  {
    hide AddDevices;
    var n := |results| - 1;
    var front := results[..n];
    if i == n {
      var devices := results[n].data.devices;
      assert forall e :: 0 <= e < |devices| && devices[e].name == name ==> Lists(results, n, e, name);
      assert LastNamed(devices, d, name);
      AddedDevices(RotationalDevices(front), devices, name);
    } else {
      assert ListsLast(front, i, d, name) by {
        forall j, e | Lists(front, j, e, name) ensures j < i || (j == i && e <= d) {
          assert Lists(results, j, e, name);
        }
      }
      KnownDevices(front, i, d, name);
      if results[n].data.DiskData? {
        var devices := results[n].data.devices;
        forall e | 0 <= e < |devices| ensures devices[e].name != name {
          assert devices[e].name == name <==> Lists(results, n, e, name);
        }
        AddedDevices(RotationalDevices(front), devices, name);
      }
    }
  }

  /** Only listed devices are known, and each has a last entry. */
  lemma {:induction false} KnownIsListed(results: seq<Result>, name: string) returns (i: int, d: int)
    requires name in RotationalDevices(results)
    ensures ListsLast(results, i, d, name)
  {
    hide AddDevices;
    var n := |results| - 1;
    var front := results[..n];
    if results[n].data.DiskData? && exists e :: 0 <= e < |results[n].data.devices| && results[n].data.devices[e].name == name {
      var e :| 0 <= e < |results[n].data.devices| && results[n].data.devices[e].name == name;
      i := n;
      d := LastIndexOf(results[n].data.devices, e, name);
    } else {
      if results[n].data.DiskData? { AddedDevices(RotationalDevices(front), results[n].data.devices, name); }
      i, d := KnownIsListed(front, name);
      assert Lists(results, i, d, name);
      forall j, e | Lists(results, j, e, name) ensures j < i || (j == i && e <= d) {
        assert Lists(front, j, e, name);
      }
    }
  }

  lemma {:induction false} LastIndexOf(devices: seq<Device>, e: nat, name: string) returns (d: nat)
    requires e < |devices| && devices[e].name == name
    ensures LastNamed(devices, d, name)
    decreases |devices| - e
  {
    if k :| e < k < |devices| && devices[k].name == name {
      d := LastIndexOf(devices, k, name);
    } else {
      d := e;
    }
  }

  /** The disk results say that the device is of the other kind. */
  ghost predicate OtherKind(cats: Categories, name: string, rotational: bool) {
    exists i, d :: ListsLast(In(cats, "disk"), i, d, name) && In(cats, "disk")[i].data.devices[d].rotational != rotational
  }

  lemma {:induction false} OtherKindIff(cats: Categories, name: string, rotational: bool)
    ensures var known := RotationalDevices(In(cats, "disk"));
            OtherKind(cats, name, rotational) <==> name in known && known[name] != rotational
  {
    hide RotationalDevices, In;
    var results := In(cats, "disk");
    if OtherKind(cats, name, rotational) {
      var i, d :| ListsLast(results, i, d, name) && results[i].data.devices[d].rotational != rotational;
      KnownDevices(results, i, d, name);
    }
    if name in RotationalDevices(results) && RotationalDevices(results)[name] != rotational {
      var i, d := KnownIsListed(results, name);
      KnownDevices(results, i, d, name);
    }
  }

  // ---------------------------------------------------------------------
  // Which histograms a P99 rule looks at

  /** The rule for this kind of device passes over the histogram: it is a disk's, named after a
      device of the other kind. */
  ghost predicate PassedOver(cats: Categories, collector: string, rotational: bool, h: Histogram) {
    collector == "biolatency" &&
    exists device :: device != "" && h.name == "block_io_latency_" + device && OtherKind(cats, device, rotational)
  }

  lemma {:induction false} EligibleIff(cats: Categories, collector: string, rotational: bool, h: Histogram)
    ensures Eligible(h, collector, rotational, RotationalDevices(In(cats, "disk"))) <==>
            h.p99 > 0.0 && !PassedOver(cats, collector, rotational, h)
  {
    hide RotationalDevices, OtherKind;
    var known := RotationalDevices(In(cats, "disk"));
    var device := ExtractDeviceName(h.name);
    OtherKindIff(cats, device, rotational);
    assert device != "" ==> h.name == "block_io_latency_" + device;
    if PassedOver(cats, collector, rotational, h) {
      var x :| x != "" && h.name == "block_io_latency_" + x && OtherKind(cats, x, rotational);
      ExtractInverts(x);
      assert device == x;
      assert |known| > 0 by { assert device in known.Keys; }
    }
    assert device in known ==> |known| > 0 by { if device in known { assert device in known.Keys; } }
  }

  /** Somewhere in the report this collector has a histogram the rule looks at, with this P99 in
      milliseconds. */
  ghost predicate Shown(cats: Categories, collector: string, rotational: bool, c: string, i: int, k: int) {
    && c in cats && 0 <= i < |cats[c]| && cats[c][i].collector == collector && 0 <= k < |cats[c][i].histograms|
    && cats[c][i].histograms[k].p99 > 0.0
    && !PassedOver(cats, collector, rotational, cats[c][i].histograms[k])
  }

  lemma {:induction false} HistogramMembers(hs: seq<Histogram>, collector: string, rotational: bool, known: map<string, bool>, v: real)
    ensures v in HistogramValues(hs, collector, rotational, known) <==>
            exists k :: 0 <= k < |hs| && Eligible(hs[k], collector, rotational, known) && Milliseconds(hs[k]) == v
  {
    hide Eligible, Milliseconds;
    if hs != [] {
      var n := |hs| - 1;
      HistogramMembers(hs[..n], collector, rotational, known, v);
      if k :| 0 <= k < n && Eligible(hs[..n][k], collector, rotational, known) && Milliseconds(hs[..n][k]) == v {
        assert hs[k] == hs[..n][k];
      }
    }
  }

  lemma {:induction false} ResultMembers(rs: seq<Result>, collector: string, rotational: bool, known: map<string, bool>, v: real)
    ensures v in ResultValues(rs, collector, rotational, known) <==>
            exists i :: 0 <= i < |rs| && rs[i].collector == collector &&
                        v in HistogramValues(rs[i].histograms, collector, rotational, known)
  {
    hide HistogramValues;
    if rs != [] {
      var n := |rs| - 1;
      ResultMembers(rs[..n], collector, rotational, known, v);
      if i :| 0 <= i < n && rs[..n][i].collector == collector && v in HistogramValues(rs[..n][i].histograms, collector, rotational, known) {
        assert rs[i] == rs[..n][i];
      }
    }
  }

  /** A histogram in the report that the rule looks at and that is at least this slow: the P99 of a
      histogram in microseconds counts a thousandth. */
  ghost predicate Slow(cats: Categories, collector: string, rotational: bool, ms: int) {
    exists c, i, k :: Shown(cats, collector, rotational, c, i, k) &&
      var h := cats[c][i].histograms[k];
      if h.unit == "us" then h.p99 >= (1000 * ms) as real else h.p99 >= ms as real
  }

  lemma {:induction false} ShownConsidered(cats: Categories, collector: string, rotational: bool, c: string, i: int, k: int)
    requires Shown(cats, collector, rotational, c, i, k)
    ensures Considered(cats, collector, rotational, Milliseconds(cats[c][i].histograms[k]))
  {
    hide Eligible, PassedOver, RotationalDevices, ResultValues, HistogramValues, Milliseconds;
    var known := RotationalDevices(In(cats, "disk"));
    var h := cats[c][i].histograms[k];
    EligibleIff(cats, collector, rotational, h);
    HistogramMembers(cats[c][i].histograms, collector, rotational, known, Milliseconds(h));
    ResultMembers(cats[c], collector, rotational, known, Milliseconds(h));
  }

  lemma {:induction false} ConsideredShown(cats: Categories, collector: string, rotational: bool, v: real)
    returns (c: string, i: int, k: int)
    requires Considered(cats, collector, rotational, v)
    ensures Shown(cats, collector, rotational, c, i, k) && Milliseconds(cats[c][i].histograms[k]) == v
  {
    hide Eligible, PassedOver, RotationalDevices, ResultValues, HistogramValues, Milliseconds;
    var known := RotationalDevices(In(cats, "disk"));
    c :| c in cats && v in ResultValues(cats[c], collector, rotational, known);
    ResultMembers(cats[c], collector, rotational, known, v);
    i :| 0 <= i < |cats[c]| && cats[c][i].collector == collector &&
         v in HistogramValues(cats[c][i].histograms, collector, rotational, known);
    HistogramMembers(cats[c][i].histograms, collector, rotational, known, v);
    k :| 0 <= k < |cats[c][i].histograms| && Eligible(cats[c][i].histograms[k], collector, rotational, known) &&
         Milliseconds(cats[c][i].histograms[k]) == v;
    EligibleIff(cats, collector, rotational, cats[c][i].histograms[k]);
  }

  /** The reading of a P99 rule reaches a threshold exactly when some histogram it looks at does. */
  lemma {:induction false} ReadingSlow(cats: Categories, collector: string, rotational: bool, r: Reading, ms: int)
    requires LargestConsidered(cats, collector, rotational, r)
    ensures r.Found? && r.value >= ms as real <==> Slow(cats, collector, rotational, ms)
  {
    hide PassedOver, Considered;
    if r.Found? && r.value >= ms as real {
      var c, i, k := ConsideredShown(cats, collector, rotational, r.value);
    }
    if c, i, k :| Shown(cats, collector, rotational, c, i, k) &&
                  var h := cats[c][i].histograms[k];
                  if h.unit == "us" then h.p99 >= (1000 * ms) as real else h.p99 >= ms as real {
      ShownConsidered(cats, collector, rotational, c, i, k);
    }
  }

  // ---------------------------------------------------------------------
  // The five histogram rules

  lemma {:induction false} P99Verdict(
    ts: seq<Threshold>, cats: Categories, a: seq<Anomaly>, n: nat, t: Threshold, collector: string, rotational: bool,
    critical: int, warning: int)
    requires AnomaliesOf(ts, cats, a) && Listed(ts, n, t) && t.evaluator == HistogramP99(collector, rotational)
    requires t.rule.critical == critical as real && t.rule.warning == warning as real
    ensures Verdicts(a, t.rule.category, t.rule.metric, Slow(cats, collector, rotational, critical),
                     !Slow(cats, collector, rotational, critical) && Slow(cats, collector, rotational, warning))
  {
    hide Flags, Slow, LargestConsidered, Verdicts;
    var readings, fired :| AllRead(ts, cats, readings) && Flags(ts, readings, fired, a);
    var r := readings[n];
    assert Reads(ts[n].evaluator, cats, r);
    assert OnlyReads(t.evaluator, cats, r) by {
      forall other | Reads(t.evaluator, cats, other) ensures other == r {
        LargestConsideredUnique(cats, collector, rotational, other, r);
      }
    }
    VerdictOf(ts, cats, a, n, t, r);
    ReadingSlow(cats, collector, rotational, r, critical);
    ReadingSlow(cats, collector, rotational, r, warning);
  }

  /** Block I/O: for devices not known to rotate, critical from a P99 of 25 ms and a warning from 5;
      for devices not known to be solid-state, from 200 and 50. */
  lemma {:induction false} DiskP99Verdicts(ts: seq<Threshold>, cats: Categories, a: seq<Anomaly>, m: nat, n: nat)
    requires AnomaliesOf(ts, cats, a) && Listed(ts, m, HISTOGRAM_RULES[0]) && Listed(ts, n, HISTOGRAM_RULES[1])
    ensures Verdicts(a, "disk", "biolatency_p99_ssd", Slow(cats, "biolatency", false, 25),
                     !Slow(cats, "biolatency", false, 25) && Slow(cats, "biolatency", false, 5))
    ensures Verdicts(a, "disk", "biolatency_p99_hdd", Slow(cats, "biolatency", true, 200),
                     !Slow(cats, "biolatency", true, 200) && Slow(cats, "biolatency", true, 50))
  {
    hide AnomaliesOf, Listed, Slow, Verdicts;
    P99Verdict(ts, cats, a, m, HISTOGRAM_RULES[0], "biolatency", false, 25, 5);
    P99Verdict(ts, cats, a, n, HISTOGRAM_RULES[1], "biolatency", true, 200, 50);
  }

  /** Run queue: critical from a P99 of 50 ms, a warning from 10; name lookups from 200 and 50. */
  lemma {:induction false} OtherP99Verdicts(ts: seq<Threshold>, cats: Categories, a: seq<Anomaly>, m: nat, n: nat)
    requires AnomaliesOf(ts, cats, a) && Listed(ts, m, HISTOGRAM_RULES[2]) && Listed(ts, n, HISTOGRAM_RULES[3])
    ensures Verdicts(a, "cpu", "runqlat_p99", Slow(cats, "runqlat", false, 50),
                     !Slow(cats, "runqlat", false, 50) && Slow(cats, "runqlat", false, 10))
    ensures Verdicts(a, "network", "dns_latency_p99", Slow(cats, "gethostlatency", false, 200),
                     !Slow(cats, "gethostlatency", false, 200) && Slow(cats, "gethostlatency", false, 50))
  {
    hide AnomaliesOf, Listed, Slow, Verdicts;
    P99Verdict(ts, cats, a, m, HISTOGRAM_RULES[2], "runqlat", false, 50, 10);
    P99Verdict(ts, cats, a, n, HISTOGRAM_RULES[3], "gethostlatency", false, 200, 50);
  }

  lemma {:induction false} FirstMeanAt(hs: seq<Histogram>, k: nat, name: string)
    requires k < |hs| && hs[k].name == name && forall j :: 0 <= j < k ==> hs[j].name != name
    ensures FirstMean(hs, name) == Found(hs[k].mean)
  {
    if k > 0 { FirstMeanAt(hs[1..], k - 1, name); }
  }

  lemma {:induction false} MeanInAt(rs: seq<Result>, i: nat, collector: string, name: string)
    requires i < |rs| && rs[i].collector == collector && FirstMean(rs[i].histograms, name).Found?
    requires forall j :: 0 <= j < i ==> rs[j].collector != collector
    ensures MeanIn(rs, collector, name) == FirstMean(rs[i].histograms, name)
  {
    if i > 0 { MeanInAt(rs[1..], i - 1, collector, name); }
  }

  /** Page cache: critical from a mean miss ratio of 15, a warning from 5, in the first histogram of
      that name of the one result of that collector. */
  lemma {:induction false} CacheVerdict(ts: seq<Threshold>, cats: Categories, a: seq<Anomaly>, n: nat, c: string, i: nat, k: nat)
    requires AnomaliesOf(ts, cats, a) && Listed(ts, n, HISTOGRAM_RULES[4]) && UniqueCollectors(cats)
    requires c in cats && i < |cats[c]| && cats[c][i].collector == "cachestat"
    requires k < |cats[c][i].histograms| && cats[c][i].histograms[k].name == "cache_miss_ratio"
    requires forall j :: 0 <= j < k ==> cats[c][i].histograms[j].name != "cache_miss_ratio"
    ensures var mean := cats[c][i].histograms[k].mean;
            Verdicts(a, "memory", "cache_miss_ratio", mean >= 15.0, 5.0 <= mean < 15.0)
  {
    hide AnomaliesOf, Listed, Verdicts, MeanIn, FirstMean;
    var r := Found(cats[c][i].histograms[k].mean);
    FirstMeanAt(cats[c][i].histograms, k, "cache_miss_ratio");
    assert forall j :: 0 <= j < i ==> cats[c][j].collector != "cachestat";
    MeanInAt(cats[c], i, "cachestat", "cache_miss_ratio");
    assert SomeMean(cats, "cachestat", "cache_miss_ratio", r);
    assert OnlyReads(HISTOGRAM_RULES[4].evaluator, cats, r) by {
      hide SomeMean;
      forall other | Reads(HISTOGRAM_RULES[4].evaluator, cats, other) ensures other == r {
        SomeMeanUnique(cats, "cachestat", "cache_miss_ratio", other, r);
      }
    }
    VerdictOf(ts, cats, a, n, HISTOGRAM_RULES[4], r);
  }
}
