/** internal/model/health.go: the weighted, truncating, clamped health score.
    Weights and metrics are `real`. */
module Health {
  import opened Seqs

  datatype USEMetric = USEMetric(utilization: real, saturation: real, errors: int)

  datatype Severity = Warning | Critical

  datatype Anomaly = Anomaly(severity: Severity, category: string, metric: string, value: real, warning: real, critical: real)

  function ResourceWeight(resource: string): (w: real)
    ensures w > 0.0
  {
    if resource == "cpu" || resource == "memory" then 1.5
    else if resource == "disk" || resource == "network" then 1.0
    else if resource == "container_cpu" || resource == "container_memory" then 1.2
    else 0.5
  }

  /** int(points * weight) for points that are not negative. */
  function Scaled(points: nat, weight: real): (d: int)
    requires weight > 0.0
    ensures d >= 0
  {
    (points as real * weight).Floor
  }

  function UtilizationPoints(u: real): nat { if u >= 95.0 then 15 else if u >= 85.0 then 8 else if u >= 70.0 then 3 else 0 }
  function SaturationPoints(s: real): nat { if s > 50.0 then 15 else if s > 10.0 then 8 else if s > 1.0 then 3 else 0 }
  function ErrorPoints(e: int): nat { if e > 1000 then 10 else if e > 100 then 5 else if e > 0 then 2 else 0 }

  function Deduction(resource: string, use: USEMetric): (d: int)
    ensures d >= 0
  {
    var w := ResourceWeight(resource);
    Scaled(UtilizationPoints(use.utilization), w) + Scaled(SaturationPoints(use.saturation), w) +
    Scaled(ErrorPoints(use.errors), w)
  }

  /** Deductions of the resources in the order they are visited. */
  function Along(resources: map<string, USEMetric>, order: seq<string>): int
    requires forall k :: k in order ==> k in resources
  {
    if order == [] then 0
    else Deduction(order[|order| - 1], resources[order[|order| - 1]]) + Along(resources, order[..|order| - 1])
  }

  /** The same without an order: take any resource out first. */
  ghost function Total(resources: map<string, USEMetric>): int
    decreases |resources|
  {
    if resources == map[] then 0
    else
      var k :| k in resources;
      Deduction(k, resources[k]) + Total(resources - {k})
  }

  function SeverityPoints(s: Severity): int { match s case Critical => 10 case Warning => 5 }

  function AnomalyPoints(anomalies: seq<Anomaly>): int {
    if anomalies == [] then 0
    else SeverityPoints(anomalies[|anomalies| - 1].severity) + AnomalyPoints(anomalies[..|anomalies| - 1])
  }

  function Clamp(score: int): int { if score < 0 then 0 else if score > 100 then 100 else score }

  ghost function Score(resources: map<string, USEMetric>, anomalies: seq<Anomaly>): int {
    Clamp(100 - Total(resources) - AnomalyPoints(anomalies))
  }

  /** ComputeHealthScore: the map of resources is visited in any order. */
  method ComputeHealthScore(resources: map<string, USEMetric>, anomalies: seq<Anomaly>) returns (score: int)
    ensures score == Score(resources, anomalies)
    ensures 0 <= score <= 100
  {
    hide Deduction;
    score := 100;
    var order := Enumerate(resources.Keys);
    for i := 0 to |order|
      invariant score == 100 - Along(resources, order[..i])
    {
      assert order[..i + 1][..i] == order[..i];
      score := score - Deduction(order[i], resources[order[i]]);
    }
    assert order[..|order|] == order;
    AlongIsTotal(resources, order);
    for i := 0 to |anomalies|
      invariant score == 100 - Total(resources) - AnomalyPoints(anomalies[..i])
    {
      assert anomalies[..i + 1][..i] == anomalies[..i];
      score := score - SeverityPoints(anomalies[i].severity);
    }
    assert anomalies[..|anomalies|] == anomalies;
    if score < 0 {
      score := 0;
    }
    if score > 100 {
      score := 100;
    }
  }

  // ---------------------------------------------------------------------
  // Order of the map

  lemma {:induction false} TotalTakesAny(resources: map<string, USEMetric>, k: string)
    requires k in resources
    ensures Total(resources) == Deduction(k, resources[k]) + Total(resources - {k})
    decreases |resources|
  {
    hide Deduction;
    var first :| first in resources && Total(resources) == Deduction(first, resources[first]) + Total(resources - {first});
    if first != k {
      var a, b := resources - {first}, resources - {k};
      TotalTakesAny(a, k);
      TotalTakesAny(b, first);
      assert a - {k} == b - {first};
    }
  }

  lemma {:induction false} TotalNotNegative(resources: map<string, USEMetric>)
    ensures Total(resources) >= 0
    decreases |resources|
  {
    hide Deduction;
    if resources != map[] {
      var k :| k in resources;
      TotalTakesAny(resources, k);
      TotalNotNegative(resources - {k});
    }
  }

  lemma {:induction false} AlongIsTotal(resources: map<string, USEMetric>, order: seq<string>)
    requires Enumerates(order, resources.Keys)
    ensures Along(resources, order) == Total(resources)
    decreases |order|
  {
    hide Deduction;
    if order == [] {
      assert resources == map[] by { assert forall k :: k !in resources.Keys; }
    } else {
      var n := |order| - 1;
      var k := order[n];
      var front := order[..n];
      var rest := resources - {k};
      assert k in order;
      TotalTakesAny(resources, k);
      assert Enumerates(front, rest.Keys) by {
        forall x ensures x in front <==> x in rest.Keys {
          assert x in order <==> x in front || x == k;
          assert k !in front;
        }
      }
      AlongIsTotal(rest, front);
      AlongRestrict(resources, rest, front);
    }
  }

  lemma {:induction false} AlongRestrict(a: map<string, USEMetric>, b: map<string, USEMetric>, order: seq<string>)
    requires forall k :: k in order ==> k in a && k in b && a[k] == b[k]
    ensures Along(a, order) == Along(b, order)
  {
    hide Deduction;
    if order != [] {
      assert order[|order| - 1] in order;
      AlongRestrict(a, b, order[..|order| - 1]);
    }
  }

  /** The order in which the resources are visited does not matter. */
  lemma {:induction false} OrderIrrelevant(resources: map<string, USEMetric>, a: seq<string>, b: seq<string>)
    requires Enumerates(a, resources.Keys) && Enumerates(b, resources.Keys)
    ensures Along(resources, a) == Along(resources, b)
  {
    AlongIsTotal(resources, a);
    AlongIsTotal(resources, b);
  }

  // ---------------------------------------------------------------------
  // Monotonicity

  predicate Worse(a: USEMetric, b: USEMetric) {
    b.utilization >= a.utilization && b.saturation >= a.saturation && b.errors >= a.errors
  }

  /** No resource got better and none disappeared. */
  ghost predicate WorseResources(a: map<string, USEMetric>, b: map<string, USEMetric>) {
    forall k :: k in a ==> k in b && Worse(a[k], b[k])
  }

  lemma {:induction false} ScaledMonotone(p: nat, q: nat, w: real)
    requires p <= q && w > 0.0
    ensures Scaled(p, w) <= Scaled(q, w)
  {}

  lemma {:induction false} DeductionMonotone(resource: string, a: USEMetric, b: USEMetric)
    requires Worse(a, b)
    ensures Deduction(resource, a) <= Deduction(resource, b)
  {
    hide Scaled, ResourceWeight;
    var w := ResourceWeight(resource);
    ScaledMonotone(UtilizationPoints(a.utilization), UtilizationPoints(b.utilization), w);
    ScaledMonotone(SaturationPoints(a.saturation), SaturationPoints(b.saturation), w);
    ScaledMonotone(ErrorPoints(a.errors), ErrorPoints(b.errors), w);
  }

  lemma {:induction false} TotalMonotone(a: map<string, USEMetric>, b: map<string, USEMetric>)
    requires WorseResources(a, b)
    ensures Total(a) <= Total(b)
    decreases |a|
  {
    hide Deduction;
    if a == map[] {
      TotalNotNegative(b);
    } else {
      var k :| k in a;
      TotalTakesAny(a, k);
      TotalTakesAny(b, k);
      DeductionMonotone(k, a[k], b[k]);
      TotalMonotone(a - {k}, b - {k});
    }
  }

  lemma {:induction false} AnomalyPointsAppend(a: seq<Anomaly>, b: seq<Anomaly>)
    requires |b| <= 1
    ensures AnomalyPoints(a + b) == AnomalyPoints(a) + AnomalyPoints(b)
  {
    if b == [] {
      assert a + b == a;
    } else {
      assert (a + b)[..|a|] == a;
      assert b[..0] == [];
    }
  }

  // ---------------------------------------------------------------------
  // What the numbers are

  predicate CoreResource(resource: string) { resource == "cpu" || resource == "memory" }
  predicate IoResource(resource: string) { resource == "disk" || resource == "network" }
  predicate ContainerResource(resource: string) { resource == "container_cpu" || resource == "container_memory" }

  /** Weighting and truncating any number of points, in whole numbers. */
  lemma {:induction false} TruncatedPoints(points: nat, resource: string)
    ensures Scaled(points, ResourceWeight(resource)) ==
            if CoreResource(resource) then points * 3 / 2
            else if IoResource(resource) then points
            else if ContainerResource(resource) then points * 6 / 5
            else points / 2
  {}

  /** No resource costs more than 59 points, and cpu and memory can cost that much. */
  lemma {:induction false} DeductionBound(resource: string, u: USEMetric)
    ensures Deduction(resource, u) <= 59
    ensures Deduction(resource, u) == 59 <==>
            CoreResource(resource) && u.utilization >= 95.0 && u.saturation > 50.0 && u.errors > 1000
  {
    hide Scaled, ResourceWeight, CoreResource, IoResource, ContainerResource;
    TruncatedPoints(UtilizationPoints(u.utilization), resource);
    TruncatedPoints(SaturationPoints(u.saturation), resource);
    TruncatedPoints(ErrorPoints(u.errors), resource);
  }

  predicate Relaxed(u: USEMetric) { u.utilization < 70.0 && u.saturation <= 1.0 && u.errors <= 0 }

  lemma {:induction false} NoDeductionIff(resource: string, u: USEMetric)
    ensures Deduction(resource, u) == 0 <==> Relaxed(u)
  {}

  lemma {:induction false} TotalZeroIff(resources: map<string, USEMetric>)
    ensures Total(resources) == 0 <==> forall k :: k in resources ==> Relaxed(resources[k])
    decreases |resources|
  {
    hide Deduction;
    if resources != map[] {
      var k :| k in resources;
      TotalTakesAny(resources, k);
      TotalZeroIff(resources - {k});
      TotalNotNegative(resources - {k});
      NoDeductionIff(k, resources[k]);
      assert forall x :: x in resources && x != k ==> x in resources - {k};
    }
  }

  lemma {:induction false} AnomalyPointsPositive(anomalies: seq<Anomaly>)
    ensures AnomalyPoints(anomalies) >= 5 * |anomalies|
  {
    if anomalies != [] { AnomalyPointsPositive(anomalies[..|anomalies| - 1]); }
  }

  /** A score of 100 means healthy, and nothing else does: no anomaly, and every resource below
      70 per cent, with saturation at most 1 and no errors.  No weight truncates a deduction away. */
  lemma {:induction false} PerfectScoreIff(resources: map<string, USEMetric>, anomalies: seq<Anomaly>)
    ensures Score(resources, anomalies) == 100 <==>
            anomalies == [] && forall k :: k in resources ==> Relaxed(resources[k])
  {
    TotalZeroIff(resources);
    TotalNotNegative(resources);
    AnomalyPointsPositive(anomalies);
  }

  // ---------------------------------------------------------------------
  // The score in whole points

  /** What a resource loses: `low`, `mid` and `high` in the bands of utilization and saturation,
      `few`, `some` and `many` in those of its errors. */
  datatype Prices = Prices(low: nat, mid: nat, high: nat, few: nat, some: nat, many: nat)

  function PricesOf(resource: string): Prices {
    if CoreResource(resource) then Prices(4, 12, 22, 3, 7, 15)
    else if IoResource(resource) then Prices(3, 8, 15, 2, 5, 10)
    else if ContainerResource(resource) then Prices(3, 9, 18, 2, 6, 12)
    else Prices(1, 4, 7, 1, 2, 5)
  }

  /** Bands begin at 70, 85 and 95 per cent of utilization, above a saturation of 1, 10 and 50, and
      above 0, 100 and 1000 errors. */
  function Bands(p: Prices, u: USEMetric): nat {
    (if u.utilization >= 95.0 then p.high else if u.utilization >= 85.0 then p.mid else if u.utilization >= 70.0 then p.low else 0) +
    (if u.saturation > 50.0 then p.high else if u.saturation > 10.0 then p.mid else if u.saturation > 1.0 then p.low else 0) +
    (if u.errors > 1000 then p.many else if u.errors > 100 then p.some else if u.errors > 0 then p.few else 0)
  }

  /** The points of the source, weighted and truncated, in each class. */
  lemma {:induction false} PricesAre(resource: string)
    ensures var p, w := PricesOf(resource), ResourceWeight(resource);
            && Scaled(15, w) == p.high && Scaled(8, w) == p.mid && Scaled(3, w) == p.low
            && Scaled(10, w) == p.many && Scaled(5, w) == p.some && Scaled(2, w) == p.few && Scaled(0, w) == 0
  {
    hide Scaled, ResourceWeight, CoreResource, IoResource, ContainerResource;
    TruncatedPoints(15, resource);
    TruncatedPoints(8, resource);
    TruncatedPoints(3, resource);
    TruncatedPoints(10, resource);
    TruncatedPoints(5, resource);
    TruncatedPoints(2, resource);
    TruncatedPoints(0, resource);
  }

  lemma {:induction false} DeductionIsBands(resource: string, u: USEMetric)
    ensures Deduction(resource, u) == Bands(PricesOf(resource), u)
  {
    hide Scaled, ResourceWeight, PricesOf;
    PricesAre(resource);
  }

  /** The exact score of a host with one resource and no anomaly, for every kind of resource. */
  lemma {:induction false} OneResource(resource: string, u: USEMetric)
    ensures Score(map[resource := u], []) == 100 - Bands(PricesOf(resource), u)
  {
    hide Deduction, Bands, PricesOf;
    OneTotal(resource, u);
    DeductionIsBands(resource, u);
    DeductionBound(resource, u);
  }

  lemma {:induction false} OneTotal(resource: string, u: USEMetric)
    ensures Total(map[resource := u]) == Deduction(resource, u)
  {
    hide Deduction;
    TotalTakesAny(map[resource := u], resource);
    assert map[resource := u] - {resource} == map[];
  }

  /** Resources add up: one more resource costs what it costs alone, down to zero. */
  lemma {:induction false} ResourcesAdd(
    resources: map<string, USEMetric>, k: string, u: USEMetric, anomalies: seq<Anomaly>)
    requires k !in resources
    ensures Score(map[], []) == 100
    ensures Score(resources[k := u], anomalies) ==
            Max(0, Score(resources, anomalies) - (100 - Score(map[k := u], [])))
  {
    hide Deduction;
    TotalTakesAny(resources[k := u], k);
    assert resources[k := u] - {k} == resources;
    OneTotal(k, u);
    TotalNotNegative(resources);
    AnomalyPointsPositive(anomalies);
    DeductionBound(k, u);
  }

  /** Anomalies add up: ten points for a critical one, five for a warning, down to zero. */
  lemma {:induction false} AnomaliesAdd(resources: map<string, USEMetric>, anomalies: seq<Anomaly>, a: Anomaly)
    ensures Score(resources, anomalies + [a]) ==
            Max(0, Score(resources, anomalies) - (if a.severity == Critical then 10 else 5))
  {
    TotalNotNegative(resources);
    AnomalyPointsPositive(anomalies);
    assert (anomalies + [a])[..|anomalies|] == anomalies;
  }
}
