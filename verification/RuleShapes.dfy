/** internal/model/anomaly.go: what the rules that scan a list inside one result compute, the
    largest positive entry (NUMA misses, disk latency, interface errors, listen queues) and the
    spread between the busiest and the idlest CPU. */
module RuleShapes {
  import opened Seqs
  import opened Report
  import opened AnomalyRules

  /** The answer is the largest of the values above zero; without one, look further. */
  ghost predicate LargestPositive(values: seq<real>, p: Probe) {
    match p
    case Hit(v) => v > 0.0 && v in values && forall i :: 0 <= i < |values| ==> values[i] <= v
    case Skip => forall i :: 0 <= i < |values| ==> values[i] <= 0.0
    case Miss => false
  }

  function Peak(values: seq<real>): (m: real)
    ensures m >= 0.0
  {
    if values == [] then 0.0
    else
      var m, v := Peak(values[..|values| - 1]), values[|values| - 1];
      if v > m then v else m
  }

  function LargestProbe(values: seq<real>): Probe { if Peak(values) > 0.0 then Hit(Peak(values)) else Skip }

  method ProbeLargest(values: seq<real>) returns (p: Probe)
    ensures p == LargestProbe(values)
    ensures LargestPositive(values, p)
  {
    var max := 0.0;
    for i := 0 to |values|
      invariant max == Peak(values[..i])
    {
      assert values[..i + 1][..i] == values[..i];
      if values[i] > max {
        max := values[i];
      }
    }
    assert values[..|values|] == values;
    LargestMeans(values);
    p := if max > 0.0 then Hit(max) else Skip;
  }

  lemma {:induction false} LargestMeans(values: seq<real>)
    ensures LargestPositive(values, LargestProbe(values))
  {
    if values != [] {
      var n := |values| - 1;
      LargestMeans(values[..n]);
      assert forall i :: 0 <= i < n ==> values[i] == values[..n][i];
    }
  }

  /** How often `x` outweighs `y`, a count below one taken as one. */
  function Ratio(x: int, y: int): real { x as real / (if y > 0 then y else 1) as real }

  /** One CPU is no distribution, fewer than a hundred events anywhere no evidence; otherwise the
      answer is the largest ratio between any two CPUs. */
  ghost predicate Imbalance(deltas: seq<int>, p: Probe) {
    match p
    case Skip => |deltas| <= 1
    case Miss => |deltas| > 1 && forall i :: 0 <= i < |deltas| ==> deltas[i] < 100
    case Hit(v) =>
      && |deltas| > 1
      && (exists i :: 0 <= i < |deltas| && deltas[i] >= 100)
      && (exists i, j :: 0 <= i < |deltas| && 0 <= j < |deltas| && Ratio(deltas[i], deltas[j]) == v)
      && forall i, j :: 0 <= i < |deltas| && 0 <= j < |deltas| ==> Ratio(deltas[i], deltas[j]) <= v
  }

  lemma {:induction false} RatioMonotone(x: int, y: int, x': int, y': int)
    requires x <= x' && y' <= y && x' >= 0
    ensures Ratio(x, y) <= Ratio(x', y')
  {
    var d, d' := (if y > 0 then y else 1) as real, (if y' > 0 then y' else 1) as real;
    assert d' <= d;
    Divide(x as real, d, x' as real, d');
  }

  lemma {:induction false} Divide(x: real, d: real, x': real, d': real)
    requires x <= x' && 0.0 < d' <= d && x' >= 0.0
    ensures x / d <= x' / d'
  {}

  /** The largest count, zero at least, and the smallest. */
  function Busiest(deltas: seq<int>): (m: int)
    ensures m >= 0 && (m > 0 ==> m in deltas)
    ensures forall k :: 0 <= k < |deltas| ==> deltas[k] <= m
  {
    if deltas == [] then 0
    else
      var n := |deltas| - 1;
      var m, v := Busiest(deltas[..n]), deltas[n];
      if v > m then v else m
  }

  function Idlest(deltas: seq<int>): (m: int)
    requires deltas != []
    ensures m in deltas && forall k :: 0 <= k < |deltas| ==> m <= deltas[k]
  {
    if |deltas| == 1 then deltas[0]
    else
      var n := |deltas| - 1;
      var m, v := Idlest(deltas[..n]), deltas[n];
      if v < m then v else m
  }

  function SpreadProbe(deltas: seq<int>): Probe {
    if |deltas| <= 1 then Skip
    else if Busiest(deltas) < 100 then Miss
    else if Idlest(deltas) > 0 then Hit(Busiest(deltas) as real / Idlest(deltas) as real)
    else Hit(Busiest(deltas) as real)
  }

  lemma {:induction false} SpreadMeans(deltas: seq<int>)
    ensures Imbalance(deltas, SpreadProbe(deltas))
  {
    hide Busiest, Idlest;
    if |deltas| > 1 && Busiest(deltas) >= 100 {
      var max, min := Busiest(deltas), Idlest(deltas);
      forall i, j | 0 <= i < |deltas| && 0 <= j < |deltas| ensures Ratio(deltas[i], deltas[j]) <= Ratio(max, min) {
        RatioMonotone(deltas[i], deltas[j], max, min);
      }
      assert SpreadProbe(deltas).value == Ratio(max, min);
    }
  }

  method ProbeImbalance(deltas: seq<int>) returns (p: Probe)
    ensures p == SpreadProbe(deltas)
    ensures Imbalance(deltas, p)
  {
    hide Imbalance;
    SpreadMeans(deltas);
    if |deltas| <= 1 {
      return Skip;
    }
    var maxDelta, minDelta := 0, deltas[0];
    for i := 0 to |deltas|
      invariant maxDelta == Busiest(deltas[..i])
      invariant minDelta == if i == 0 then deltas[0] else Idlest(deltas[..i])
    {
      assert deltas[..i + 1][..i] == deltas[..i];
      if deltas[i] > maxDelta {
        maxDelta := deltas[i];
      }
      if deltas[i] < minDelta {
        minDelta := deltas[i];
      }
    }
    assert deltas[..|deltas|] == deltas;
    if maxDelta < 100 {
      return Miss;
    }
    return if minDelta > 0 then Hit(maxDelta as real / minDelta as real) else Hit(maxDelta as real);
  }

  function ReadingOf(p: Probe): Reading { if p.Hit? then Found(p.value) else Absent }

  /** Raising entries, or adding some, never lowers what the largest-entry rules read. */
  lemma {:induction false} LargestMonotone(a: seq<real>, b: seq<real>, p: Probe, q: Probe)
    requires forall i :: 0 <= i < |a| ==> exists j :: 0 <= j < |b| && a[i] <= b[j]
    requires LargestPositive(a, p) && LargestPositive(b, q)
    ensures WorseReading(ReadingOf(p), ReadingOf(q))
  {}

  /** `b` reaches at least as high and at least as low as `a`. */
  ghost predicate Wider(a: seq<int>, b: seq<int>) {
    forall i :: 0 <= i < |a| ==> Reaches(b, a[i])
  }

  ghost predicate Reaches(b: seq<int>, x: int) {
    (exists j :: 0 <= j < |b| && x <= b[j]) && (exists j :: 0 <= j < |b| && b[j] <= x)
  }

  /** The spread reading grows as the distribution widens at both ends. */
  lemma {:induction false} ImbalanceMonotone(a: seq<int>, b: seq<int>, p: Probe, q: Probe)
    requires |a| <= |b| && Wider(a, b) && Imbalance(a, p) && Imbalance(b, q)
    ensures WorseReading(ReadingOf(p), ReadingOf(q))
  {
    hide Ratio, Reaches;
    if p.Hit? {
      var busy :| 0 <= busy < |a| && a[busy] >= 100;
      var i, j :| 0 <= i < |a| && 0 <= j < |a| && Ratio(a[i], a[j]) == p.value;
      WiderRatio(a, b, busy, i, j, q);
    }
  }

  lemma {:induction false} WiderRatio(a: seq<int>, b: seq<int>, busy: nat, i: nat, j: nat, q: Probe)
    requires 1 < |a| <= |b| && Wider(a, b) && Imbalance(b, q)
    requires busy < |a| && i < |a| && j < |a| && a[busy] >= 100
    ensures q.Hit? && Ratio(a[i], a[j]) <= q.value
  {
    hide Ratio;
    assert Reaches(b, a[busy]) && Reaches(b, a[i]) && Reaches(b, a[j]);
    var busier :| 0 <= busier < |b| && a[busy] <= b[busier];
    var k :| 0 <= k < |b| && a[i] <= b[k];
    var l :| 0 <= l < |b| && b[l] <= a[j];
    var m := if b[k] >= b[busier] then k else busier;
    RatioMonotone(a[i], a[j], b[m], b[l]);
  }

  function Clamp(y: int): int { if y > 0 then y else 1 }

  ghost predicate IsMax(s: seq<int>, max: int) { max in s && forall i :: 0 <= i < |s| ==> s[i] <= max }

  /** The least clamped count, leaving out one CPU. */
  ghost predicate IsLeastWithout(s: seq<int>, skip: int, least: int) {
    && (exists j :: 0 <= j < |s| && j != skip && Clamp(s[j]) == least)
    && (forall j :: 0 <= j < |s| && j != skip ==> least <= Clamp(s[j]))
  }

  /** The reading in terms of the busiest and the idlest CPU. */
  lemma {:induction false} ImbalanceValue(deltas: seq<int>, p: Probe, i: nat, max: int, least: int)
    requires |deltas| > 1 && i < |deltas| && Imbalance(deltas, p)
    requires IsMax(deltas, max) && IsLeastWithout(deltas, i, least)
    ensures p == if max >= 100 then Hit(max as real / Min(Clamp(deltas[i]), least) as real) else Miss
  {
    if max >= 100 {
      var k :| 0 <= k < |deltas| && deltas[k] == max;
      var l :| 0 <= l < |deltas| && l != i && Clamp(deltas[l]) == least;
      var j := if Clamp(deltas[i]) <= least then i else l;
      var x, y :| 0 <= x < |deltas| && 0 <= y < |deltas| && Ratio(deltas[x], deltas[y]) == p.value;
      RatioClamped(deltas[x], deltas[y], max, deltas[j]);
      assert Ratio(deltas[k], deltas[j]) <= p.value;
    }
  }

  lemma {:induction false} RatioClamped(x: int, y: int, x': int, y': int)
    requires x <= x' && x' >= 0 && Clamp(y') <= Clamp(y)
    ensures Ratio(x, y) <= Ratio(x', y')
  {
    Divide(x as real, Clamp(y) as real, x' as real, Clamp(y') as real);
  }

  /** Raising one CPU's count lowers the reading if and only if there is a reading, that CPU alone
      is at the clamped minimum, and the minimum rises by a larger factor than the maximum. */
  lemma {:induction false} RaisingLowersIff(a: seq<int>, i: nat, x: int, p: Probe, q: Probe, max: int, least: int)
    requires |a| > 1 && i < |a| && a[i] <= x
    requires Imbalance(a, p) && Imbalance(a[i := x], q)
    requires IsMax(a, max) && IsLeastWithout(a, i, least)
    ensures !WorseReading(ReadingOf(p), ReadingOf(q)) <==>
            && max >= 100
            && Clamp(a[i]) < least
            && Max(max, x) * Clamp(a[i]) < max * Min(Clamp(x), least)
  {
    hide Imbalance;
    var b := a[i := x];
    MaxAfter(a, i, x, max);
    LeastAfter(a, i, x, least);
    ImbalanceValue(a, p, i, max, least);
    ImbalanceValue(b, q, i, Max(max, x), least);
    var m, m' := Min(Clamp(a[i]), least), Min(Clamp(x), least);
    Fractions(Max(max, x), m', max, m);
    if max >= 100 && least <= Clamp(a[i]) {
      assert m == m' == least;
      Product(max, Max(max, x), least);
    }
  }

  lemma {:induction false} MaxAfter(a: seq<int>, i: nat, x: int, max: int)
    requires i < |a| && a[i] <= x && IsMax(a, max)
    ensures IsMax(a[i := x], Max(max, x))
  {
    var b := a[i := x];
    var k :| 0 <= k < |a| && a[k] == max;
    assert b[i] == x && (k != i ==> b[k] == max);
  }

  lemma {:induction false} LeastAfter(a: seq<int>, i: nat, x: int, least: int)
    requires i < |a| && IsLeastWithout(a, i, least)
    ensures IsLeastWithout(a[i := x], i, least)
  {
    var b := a[i := x];
    var l :| 0 <= l < |a| && l != i && Clamp(a[l]) == least;
    assert Clamp(b[l]) == least;
  }

  lemma {:induction false} Fractions(x: int, y: int, x': int, y': int)
    requires y > 0 && y' > 0
    ensures x as real / y as real < x' as real / y' as real <==> x * y' < x' * y
  {
    var p, q := x as real / y as real, x' as real / y' as real;
    assert p * y as real == x as real && q * y' as real == x' as real;
    assert (x * y') as real == p * (y as real * y' as real);
    assert (x' * y) as real == q * (y as real * y' as real);
    Scale(p, q, y as real * y' as real);
  }

  lemma {:induction false} Scale(p: real, q: real, d: real)
    requires d > 0.0
    ensures p < q <==> p * d < q * d
  {}

  lemma {:induction false} Product(x: int, y: int, z: int)
    requires x <= y && z > 0
    ensures x * z <= y * z
  {}

  /** It is not monotone in the counts themselves: a busier idle CPU lowers the reading. */
  lemma {:induction false} EvenerReadsLower(p: Probe, q: Probe)
    requires Imbalance([100, 1], p) && Imbalance([100, 50], q)
    ensures p == Hit(100.0) && q == Hit(2.0)
  {
    var a, b := [100, 1], [100, 50];
    assert a[0] == 100 && b[0] == 100;
    assert Ratio(a[0], a[1]) == 100.0 && Ratio(b[0], b[1]) == 2.0;
    assert a[1] == 1 && b[1] == 50;
  }

  // ---------------------------------------------------------------------
  // The shapes as rules

  function Latencies(devices: seq<Device>): (r: seq<real>)
    ensures |r| == |devices| && forall i :: 0 <= i < |r| ==> r[i] == devices[i].avgLatencyMs
  {
    seq(|devices|, i requires 0 <= i < |devices| => devices[i].avgLatencyMs)
  }

  function DiskLatencyProbe(r: Result): Probe {
    if r.data.DiskData? then LargestProbe(Latencies(r.data.devices)) else Skip
  }

  function ImbalanceProbe(r: Result): Probe {
    if r.data.NetworkData? then SpreadProbe(r.data.irqDeltas) else Skip
  }

  const DISK_AVG_LATENCY := Threshold(Rule("disk_avg_latency", "disk", 5.0, 50.0), FirstMatch("disk", DiskLatencyProbe))
  const IRQ_IMBALANCE := Threshold(Rule("irq_imbalance", "network", 5.0, 20.0), FirstMatch("network", ImbalanceProbe))

  /** The k-th result is the first that does not pass. */
  ghost predicate Answers(results: seq<Result>, probe: Result -> Probe, k: int) {
    && 0 <= k < |results| && !probe(results[k]).Skip?
    && forall j :: 0 <= j < k ==> probe(results[j]).Skip?
  }

  lemma {:induction false} FirstAnswerMeans(results: seq<Result>, probe: Result -> Probe)
    ensures (forall k :: !Answers(results, probe, k)) ==>
              FirstAnswer(results, probe) == Absent && forall j :: 0 <= j < |results| ==> probe(results[j]).Skip?
    ensures forall k :: Answers(results, probe, k) ==> FirstAnswer(results, probe) == ReadingOf(probe(results[k]))
  {
    if results != [] {
      var rest := results[1..];
      FirstAnswerMeans(rest, probe);
      if probe(results[0]).Skip? {
        assert forall j :: 0 <= j < |rest| ==> rest[j] == results[j + 1];
        forall k ensures Answers(rest, probe, k) <==> k >= 0 && Answers(results, probe, k + 1) {
          if Answers(results, probe, k + 1) {
            assert forall j :: 0 <= j < k ==> rest[j] == results[j + 1];
          }
          if Answers(rest, probe, k) {
            forall j | 0 <= j < k + 1 ensures probe(results[j]).Skip? {
              if j > 0 { assert results[j] == rest[j - 1]; }
            }
          }
        }
        forall k | Answers(results, probe, k) ensures Answers(rest, probe, k - 1) {}
        if forall k :: !Answers(results, probe, k) {
          forall k ensures !Answers(rest, probe, k) {}
          forall j | 0 <= j < |results| ensures probe(results[j]).Skip? {
            if j > 0 { assert results[j] == rest[j - 1]; }
          }
        }
      } else {
        assert Answers(results, probe, 0);
      }
    }
  }

  /** What the latency rule reads: the largest positive latency of the first disk result that has
      one, absent if and only if no disk result has any. */
  lemma {:induction false} DiskLatencyReading(cats: Categories, r: Reading)
    requires Reads(DISK_AVG_LATENCY.evaluator, cats, r)
    ensures forall k :: Answers(In(cats, "disk"), DiskLatencyProbe, k) ==>
              var d := In(cats, "disk")[k].data;
              d.DiskData? && r.Found? && LargestPositive(Latencies(d.devices), Hit(r.value))
    ensures r == Absent <==>
            forall k, i :: 0 <= k < |In(cats, "disk")| && In(cats, "disk")[k].data.DiskData? &&
                           0 <= i < |In(cats, "disk")[k].data.devices| ==>
                             In(cats, "disk")[k].data.devices[i].avgLatencyMs <= 0.0
  {
    hide LargestProbe, In;
    var results := In(cats, "disk");
    FirstAnswerMeans(results, DiskLatencyProbe);
    forall k | 0 <= k < |results| && results[k].data.DiskData?
      ensures LargestPositive(Latencies(results[k].data.devices), DiskLatencyProbe(results[k]))
      ensures DiskLatencyProbe(results[k]).Skip? <==>
              forall i :: 0 <= i < |results[k].data.devices| ==> results[k].data.devices[i].avgLatencyMs <= 0.0
    {
      LargestMeans(Latencies(results[k].data.devices));
      LatencySkips(results[k].data.devices);
    }
    if exists k :: Answers(results, DiskLatencyProbe, k) {
      var k :| Answers(results, DiskLatencyProbe, k);
      assert !DiskLatencyProbe(results[k]).Skip?;
    }
  }

  lemma {:induction false} LatencySkips(devices: seq<Device>)
    ensures LargestProbe(Latencies(devices)).Skip? <==>
            forall i :: 0 <= i < |devices| ==> devices[i].avgLatencyMs <= 0.0
  {
    LargestMeans(Latencies(devices));
    hide LargestProbe;
    var values := Latencies(devices);
    var p := LargestProbe(values);
    if p.Hit? {
      var i :| 0 <= i < |values| && values[i] == p.value;
      assert devices[i].avgLatencyMs > 0.0;
    } else {
      assert forall i :: 0 <= i < |devices| ==> values[i] == devices[i].avgLatencyMs;
    }
  }

  /** What the imbalance rule reads: the spread of the first network result with more than one CPU. */
  lemma {:induction false} ImbalanceReading(cats: Categories, r: Reading)
    requires Reads(IRQ_IMBALANCE.evaluator, cats, r)
    ensures forall k :: Answers(In(cats, "network"), ImbalanceProbe, k) ==>
              var d := In(cats, "network")[k].data;
              && d.NetworkData? && |d.irqDeltas| > 1
              && Imbalance(d.irqDeltas, if r.Found? then Hit(r.value) else Miss)
    ensures (forall k :: !Answers(In(cats, "network"), ImbalanceProbe, k)) ==> r == Absent
  {
    hide SpreadProbe, In, Busiest, Idlest;
    var results := In(cats, "network");
    FirstAnswerMeans(results, ImbalanceProbe);
    forall k | Answers(results, ImbalanceProbe, k)
      ensures results[k].data.NetworkData?
      ensures Imbalance(results[k].data.irqDeltas, ImbalanceProbe(results[k]))
    {
      SpreadMeans(results[k].data.irqDeltas);
    }
  }
}
