/** From registration to the health score: the report does not depend on the schedule. */
module FinalReport {
  import opened Seqs
  import opened Report
  import opened Health
  import opened AnomalyRules
  import opened UseMetrics
  import opened Orchestrator
  import opened OrchestratorRuns
  import opened Registration

  /** Every collector of the program puts its own name on the result it returns. */
  ghost predicate WellNamed(outcome: Collector -> Outcome) {
    forall c :: outcome(c).Returned? ==> outcome(c).result.collector == c.name
  }

  function Tasks(cs: seq<Collector>, outcome: Collector -> Outcome): (r: seq<Task>)
    ensures |r| == |cs|
    ensures forall i :: 0 <= i < |cs| ==> r[i] == Task(cs[i], outcome(cs[i]))
  {
    seq(|cs|, i requires 0 <= i < |cs| => Task(cs[i], outcome(cs[i])))
  }

  /** The plan Run makes of its active collectors. */
  function PlanOf(active: seq<Collector>, outcome: Collector -> Outcome): Plan {
    var tier1 := Select(active, IsTier1);
    Plan(Tasks(tier1, outcome) + Tasks(Select(active, IsNotTier1), outcome), |tier1|)
  }

  /** The collectors a configuration activates when the registry is visited in `order`. */
  ghost function Activated(env: Env, profile: Profile, focus: seq<string>, order: seq<string>): seq<Collector> {
    Select(TIER1 + BuildAll(env, FirstAsked(Asked(profile, order))), KeptBy(profile, focus))
  }

  lemma {:induction false} TaskNamesDistinct(cs: seq<Collector>, outcome: Collector -> Outcome)
    requires WellNamed(outcome) && Distinct(Names(cs))
    ensures DistinctNames(Tasks(cs, outcome))
  {}

  lemma {:induction false} PlanNamesDistinct(active: seq<Collector>, outcome: Collector -> Outcome)
    requires WellNamed(outcome) && Distinct(Names(active))
    ensures DistinctNames(PlanOf(active, outcome).tasks) && ValidPlan(PlanOf(active, outcome))
  {
    hide DistinctNames, Select, WellNamed;
    var a, b := Select(active, IsTier1), Select(active, IsNotTier1);
    SelectDistinct(active, IsTier1);
    SelectDistinct(active, IsNotTier1);
    forall i, j | 0 <= i < |a| && 0 <= j < |b| ensures a[i].name != b[j].name {
      CrossDistinct(active, i, j);
    }
    assert Tasks(a, outcome) + Tasks(b, outcome) == Tasks(a + b, outcome);
    assert Distinct(Names(a + b)) by {
      forall i, j | 0 <= i < j < |a + b| ensures Names(a + b)[i] != Names(a + b)[j] {
        if j < |a| {
          assert Names(a)[i] != Names(a)[j];
        } else if i >= |a| {
          assert Names(b)[i - |a|] != Names(b)[j - |a|];
        }
      }
    }
    TaskNamesDistinct(a + b, outcome);
  }

  lemma {:induction false} CrossDistinct(active: seq<Collector>, i: nat, j: nat)
    requires Distinct(Names(active)) && i < |Select(active, IsTier1)| && j < |Select(active, IsNotTier1)|
    ensures Select(active, IsTier1)[i].name != Select(active, IsNotTier1)[j].name
  {
    hide Select;
    var x, y := Select(active, IsTier1)[i], Select(active, IsNotTier1)[j];
    SelectMembers(active, IsTier1, x);
    SelectMembers(active, IsNotTier1, y);
    var k :| 0 <= k < |active| && active[k] == x;
    var l :| 0 <= l < |active| && active[l] == y;
    assert k != l;
    assert Names(active)[k] == x.name && Names(active)[l] == y.name;
  }

  lemma {:induction false} TasksMultiset(cs: seq<Collector>, outcome: Collector -> Outcome, t: Task)
    ensures multiset(Tasks(cs, outcome))[t] == if t.outcome == outcome(t.collector) then multiset(cs)[t.collector] else 0
  {
    if cs != [] {
      var n := |cs| - 1;
      TasksMultiset(cs[..n], outcome, t);
      assert cs == cs[..n] + [cs[n]];
      assert Tasks(cs, outcome) == Tasks(cs[..n], outcome) + [Task(cs[n], outcome(cs[n]))];
    }
  }

  lemma {:induction false} TasksPermutation(a: seq<Collector>, b: seq<Collector>, outcome: Collector -> Outcome)
    requires Permutation(a, b)
    ensures Permutation(Tasks(a, outcome), Tasks(b, outcome))
  {
    forall t ensures multiset(Tasks(a, outcome))[t] == multiset(Tasks(b, outcome))[t] {
      TasksMultiset(a, outcome, t);
      TasksMultiset(b, outcome, t);
    }
  }

  lemma {:induction false} NamesDistinctElements(cs: seq<Collector>)
    requires Distinct(Names(cs))
    ensures Distinct(cs)
  {}

  /** Visiting the registry in another order activates the same collectors. */
  lemma {:induction false} ActivatedPermutation(
    env: Env, profile: Profile, focus: seq<string>, order1: seq<string>, order2: seq<string>)
    requires Enumerates(order1, env.registry.Keys) && Enumerates(order2, env.registry.Keys)
    ensures Permutation(Activated(env, profile, focus, order1), Activated(env, profile, focus, order2))
    ensures Distinct(Names(Activated(env, profile, focus, order1)))
  {
    hide BuildAll, FirstAsked, Select, Built, Permutation;
    var t1, t2 := Asked(profile, order1), Asked(profile, order2);
    var c1, c2 := TIER1 + BuildAll(env, FirstAsked(t1)), TIER1 + BuildAll(env, FirstAsked(t2));
    RegisteredDistinct(env, t1);
    RegisteredDistinct(env, t2);
    NamesDistinctElements(c1);
    NamesDistinctElements(c2);
    assert forall t :: t in t1 <==> t in t2;
    forall c ensures c in c1 <==> c in c2 {
      RegisteredExactly(env, t1, c);
      RegisteredExactly(env, t2, c);
    }
    SameElements(c1, c2);
    SelectPermutation(c1, c2, KeptBy(profile, focus));
    SelectDistinct(c1, KeptBy(profile, focus));
  }

  predicate RanSecondPhase(plan: Plan, s: State) { s.next > plan.split }

  lemma {:induction false} PlansSameWork(
    a: seq<Collector>, b: seq<Collector>, outcome: Collector -> Outcome, s: State, t: State)
    requires Permutation(a, b)
    requires var p, q := PlanOf(a, outcome), PlanOf(b, outcome);
             && Inv(p, s) && Inv(q, t) && s.main == Merge && t.main == Merge
             && RanSecondPhase(p, s) == RanSecondPhase(q, t)
    ensures SameWork(PlanOf(a, outcome), s, PlanOf(b, outcome), t)
  {
    hide PoolInv, Select;
    var p, q := PlanOf(a, outcome), PlanOf(b, outcome);
    SelectPermutation(a, b, IsTier1);
    SelectPermutation(a, b, IsNotTier1);
    TasksPermutation(Select(a, IsTier1), Select(b, IsTier1), outcome);
    TasksPermutation(Select(a, IsNotTier1), Select(b, IsNotTier1), outcome);
    PermutationLength(Select(a, IsTier1), Select(b, IsTier1));
    PermutationLength(Select(a, IsNotTier1), Select(b, IsNotTier1));
    if RanSecondPhase(p, s) {
      assert p.tasks[..s.next] == p.tasks && q.tasks[..t.next] == q.tasks;
    } else {
      assert p.tasks[..p.split] == Tasks(Select(a, IsTier1), outcome);
      assert q.tasks[..q.split] == Tasks(Select(b, IsTier1), outcome);
    }
  }

  /** One finished execution: how the registry was visited, how the goroutines were
      scheduled, and the categories and anomalies that came out. */
  datatype Execution = Execution(
    order: seq<string>, states: seq<State>, moves: seq<Move>, cats: Categories, anomalies: seq<Anomaly>)
  {
    ghost function Final(): State
      requires states != []
    {
      states[|states| - 1]
    }
  }

  ghost predicate Executes(
    x: Execution, env: Env, profile: Profile, focus: seq<string>, outcome: Collector -> Outcome, thresholds: seq<Threshold>)
  {
    && Enumerates(x.order, env.registry.Keys)
    && IsRun(PlanOf(Activated(env, profile, focus, x.order), outcome), x.states, x.moves)
    && x.Final().main == Merge
    && IsReport(x.Final().first.results, x.Final().second.results, x.cats)
    && AnomaliesOf(thresholds, x.cats, x.anomalies)
  }

  lemma {:induction false} ReportHasUniqueCollectors(p: Plan, s: State, cats: Categories)
    requires Inv(p, s) && s.main == Merge && DistinctNames(p.tasks)
    requires IsReport(s.first.results, s.second.results, cats)
    ensures UniqueCollectors(cats)
  {
    hide Inv, DistinctNames, IsReport;
    forall c, d, i, j | c in cats && d in cats && 0 <= i < |cats[c]| && 0 <= j < |cats[d]| &&
                        cats[c][i].collector == cats[d][j].collector
      ensures c == d && i == j
    {
      NamesOnce(p, s, cats, c, d, i, j);
    }
  }

  /** Schedule independence of the whole program.  Fix the machine, the configuration and how
      each collector ends - with a result, with nil, with an error, with a panic.  Any two
      executions in which the second phase ran, or did not run, alike produce the same
      categories, the same anomaly list and the same health score. */
  lemma {:induction false} ScheduleIndependence(
    x: Execution, y: Execution,
    env: Env, profile: Profile, focus: seq<string>, outcome: Collector -> Outcome, thresholds: seq<Threshold>)
    requires WellNamed(outcome)
    requires Executes(x, env, profile, focus, outcome, thresholds)
    requires Executes(y, env, profile, focus, outcome, thresholds)
    requires var p := PlanOf(Activated(env, profile, focus, x.order), outcome);
             var q := PlanOf(Activated(env, profile, focus, y.order), outcome);
             RanSecondPhase(p, x.Final()) == RanSecondPhase(q, y.Final())
    ensures x.cats == y.cats && x.anomalies == y.anomalies
    ensures Score(Metrics(x.cats), x.anomalies) == Score(Metrics(y.cats), y.anomalies)
  {
    hide Inv, IsReport, DistinctNames, SameWork, AnomaliesOf, UniqueCollectors, Activated, PlanOf, IsRun, WellNamed;
    var a, b := Activated(env, profile, focus, x.order), Activated(env, profile, focus, y.order);
    var p, q := PlanOf(a, outcome), PlanOf(b, outcome);
    ActivatedPermutation(env, profile, focus, x.order, y.order);
    PlanNamesDistinct(a, outcome);
    FinalInv(p, x.states, x.moves);
    FinalInv(q, y.states, y.moves);
    PlansSameWork(a, b, outcome, x.Final(), y.Final());
    Confluence(p, x.Final(), q, y.Final(), x.cats, y.cats);
    ReportHasUniqueCollectors(p, x.Final(), x.cats);
    AnomaliesDeterministic(thresholds, x.cats, x.anomalies, y.anomalies);
  }

  /** Executions that nobody cancels need no further hypothesis: the report is a function of the
      machine, the configuration and the collectors' outcomes. */
  lemma {:induction false} UncancelledIndependence(
    x: Execution, y: Execution,
    env: Env, profile: Profile, focus: seq<string>, outcome: Collector -> Outcome, thresholds: seq<Threshold>)
    requires WellNamed(outcome)
    requires Executes(x, env, profile, focus, outcome, thresholds) && !x.Final().cancelled
    requires Executes(y, env, profile, focus, outcome, thresholds) && !y.Final().cancelled
    ensures x.cats == y.cats && x.anomalies == y.anomalies
    ensures Score(Metrics(x.cats), x.anomalies) == Score(Metrics(y.cats), y.anomalies)
  {
    hide Inv, IsReport, DistinctNames, AnomaliesOf, Activated, IsRun, WellNamed, Select, Score, Metrics;
    var a, b := Activated(env, profile, focus, x.order), Activated(env, profile, focus, y.order);
    var p, q := PlanOf(a, outcome), PlanOf(b, outcome);
    ActivatedPermutation(env, profile, focus, x.order, y.order);
    SelectPermutation(a, b, IsTier1);
    SelectPermutation(a, b, IsNotTier1);
    PermutationLength(Select(a, IsTier1), Select(b, IsTier1));
    PermutationLength(Select(a, IsNotTier1), Select(b, IsNotTier1));
    FinalInv(p, x.states, x.moves);
    FinalInv(q, y.states, y.moves);
    UncancelledStartsAll(p, x.states, x.moves, |x.states| - 1);
    UncancelledStartsAll(q, y.states, y.moves, |y.states| - 1);
    ScheduleIndependence(x, y, env, profile, focus, outcome, thresholds);
  }

  lemma {:induction false} FinalInv(p: Plan, states: seq<State>, moves: seq<Move>)
    requires IsRun(p, states, moves)
    ensures states != [] && Inv(p, states[|states| - 1])
  {
    RunInv(p, states, moves, |states| - 1);
  }

  /** What reaches the report: in an execution nobody cancels, every collector that runs finds its
      result in its category once, exactly as it returned it, or the record of how it failed. */
  lemma {:induction false} ResultsReachReport(
    x: Execution,
    env: Env, profile: Profile, focus: seq<string>, outcome: Collector -> Outcome, thresholds: seq<Threshold>, c: Collector)
    requires WellNamed(outcome)
    requires Executes(x, env, profile, focus, outcome, thresholds) && !x.Final().cancelled
    requires c in Activated(env, profile, focus, x.order)
    ensures outcome(c) != ReturnedNil ==> c.category in x.cats
    ensures outcome(c).Returned? ==> multiset(x.cats[c.category])[outcome(c).result] == 1
    ensures outcome(c).Failed? ==>
              multiset(x.cats[c.category])[Result(c.name, c.category, c.tier, NoData, [], [outcome(c).error])] == 1
    ensures outcome(c).Panicked? ==>
              multiset(x.cats[c.category])[Result(c.name, c.category, c.tier, NoData, [], ["panic: " + outcome(c).message])] == 1
  {
    hide Inv, IsReport, DistinctNames, AnomaliesOf, Activated, IsRun, WellNamed, Select;
    var a := Activated(env, profile, focus, x.order);
    var p := PlanOf(a, outcome);
    ActivatedPermutation(env, profile, focus, x.order, x.order);
    PlanNamesDistinct(a, outcome);
    FinalInv(p, x.states, x.moves);
    UncancelledStartsAll(p, x.states, x.moves, |x.states| - 1);
    var i := TaskFor(a, outcome, c);
    DeliveredExactlyOnce(p, x.Final(), x.cats, i);
  }

  lemma {:induction false} TaskFor(active: seq<Collector>, outcome: Collector -> Outcome, c: Collector) returns (i: nat)
    requires c in active
    ensures i < |PlanOf(active, outcome).tasks| && PlanOf(active, outcome).tasks[i] == Task(c, outcome(c))
  {
    hide Select;
    var a, b := Select(active, IsTier1), Select(active, IsNotTier1);
    SelectMembers(active, IsTier1, c);
    SelectMembers(active, IsNotTier1, c);
    if c.tier == 1 {
      i :| 0 <= i < |a| && a[i] == c;
    } else {
      var j :| 0 <= j < |b| && b[j] == c;
      i := |a| + j;
    }
  }

  // ---------------------------------------------------------------------
  // The plan and the report as Run makes them

  /** Tier 1 collectors, and no others, are in the first phase. */
  lemma {:induction false} PlanSplitsTiers(active: seq<Collector>, outcome: Collector -> Outcome, i: nat)
    requires i < |PlanOf(active, outcome).tasks|
    ensures var t := PlanOf(active, outcome).tasks[i];
            t.collector in active && t.outcome == outcome(t.collector) &&
            (t.collector.tier == 1 <==> i < PlanOf(active, outcome).split)
  {
    hide Select;
    var a, b := Select(active, IsTier1), Select(active, IsNotTier1);
    if i < |a| {
      SelectMembers(active, IsTier1, a[i]);
    } else {
      SelectMembers(active, IsNotTier1, b[i - |a|]);
    }
  }

  /** The barrier in terms of tiers: once a collector outside Tier 1 has started, at some earlier
      moment every Tier 1 collector had finished and the context was live. */
  lemma {:induction false} TierBarrier(
    active: seq<Collector>, outcome: Collector -> Outcome, states: seq<State>, moves: seq<Move>, k: nat, i: nat) returns (j: nat)
    requires IsRun(PlanOf(active, outcome), states, moves) && k < |states|
    requires i < |PlanOf(active, outcome).tasks| && PlanOf(active, outcome).tasks[i].collector.tier != 1
    requires i < |states[k].pcs| && states[k].pcs[i] != Unspawned
    ensures j < k && !states[j].cancelled && |states[j].pcs| == |PlanOf(active, outcome).tasks|
    ensures forall t :: 0 <= t < |states[j].pcs| && PlanOf(active, outcome).tasks[t].collector.tier == 1 ==>
              states[j].pcs[t] == Exited
  {
    hide IsRun, PlanOf;
    var p := PlanOf(active, outcome);
    PlanSplitsTiers(active, outcome, i);
    Barrier(p, states, moves, k);
    j :| 0 <= j < k && ClearToProceed(p, states[j]);
    forall t | 0 <= t < |states[j].pcs| && p.tasks[t].collector.tier == 1 ensures states[j].pcs[t] == Exited {
      PlanSplitsTiers(active, outcome, t);
    }
  }

  /** Who is activated, for any order of the registry. */
  lemma {:induction false} ActivatedExactly(env: Env, profile: Profile, focus: seq<string>, order: seq<string>, c: Collector)
    requires Enumerates(order, env.registry.Keys)
    ensures c in Activated(env, profile, focus, order) <==>
            && ((c.tier == 1 && Fixed(c.name, c.category)) ||
                (Usable(env, c) && Wanted(env, profile, c.name) && !FixedName(c.name)))
            && Admitted(profile, focus, c)
  {
    RunsExactly(env, profile, focus, order, c);
  }

  /** The first part of Run: register, filter and split; what comes out is the plan of some order of
      the registry. */
  method MakePlan(env: Env, profile: Profile, focus: seq<string>, ghost outcome: Collector -> Outcome)
    returns (tier1: seq<Collector>, tier23: seq<Collector>)
    ensures exists order :: Enumerates(order, env.registry.Keys) &&
              PlanOf(Activated(env, profile, focus, order), outcome) ==
              Plan(Tasks(tier1, outcome) + Tasks(tier23, outcome), |tier1|)
  {
    hide Select, BuildAll, FirstAsked;
    var collectors := RegisterCollectors(env, profile);
    ghost var order :| Enumerates(order, env.registry.Keys) &&
                       collectors == TIER1 + BuildAll(env, FirstAsked(Asked(profile, order)));
    var active := FilterCollectors(collectors, profile, focus);
    assert active == Activated(env, profile, focus, order);
    tier1, tier23 := SplitTiers(active);
  }

  /** The last part of Run: merge and sort, metrics, anomalies and the score. */
  method MakeReport(first: Categories, second: Categories, thresholds: seq<Threshold>)
    returns (cats: Categories, resources: map<string, USEMetric>, anomalies: seq<Anomaly>, score: int)
    ensures IsReport(first, second, cats) && AnomaliesOf(thresholds, cats, anomalies)
    ensures resources == Metrics(cats) && score == Score(resources, anomalies) && 0 <= score <= 100
  {
    hide IsReport, AnomaliesOf, Metrics, Score;
    cats := BuildCategories(first, second);
    resources := ComputeUSEMetrics(cats);
    anomalies := DetectAnomalies(thresholds, cats);
    score := ComputeHealthScore(resources, anomalies);
  }
}
