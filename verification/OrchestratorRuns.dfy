/** Whole schedules of the orchestrator: the barrier, termination, conservation, and the
    report that comes out - the same for every schedule. */
module OrchestratorRuns {
  import opened Seqs
  import opened Text
  import opened Report
  import opened Orchestrator

  /** A schedule and the states it passes through. */
  ghost predicate IsRun(plan: Plan, states: seq<State>, moves: seq<Move>) {
    && ValidPlan(plan)
    && |states| == |moves| + 1
    && states[0] == Init(plan)
    && forall k :: 0 <= k < |moves| ==> Moves(plan, states[k], moves[k], states[k + 1])
  }

  ghost predicate Moves(plan: Plan, s: State, m: Move, s': State) {
    ValidPlan(plan) && |s.pcs| == |plan.tasks| && Enabled(plan, s, m) && s' == Next(plan, s, m)
  }

  lemma {:induction false} RunInv(plan: Plan, states: seq<State>, moves: seq<Move>, k: nat)
    requires IsRun(plan, states, moves) && k < |states|
    ensures Inv(plan, states[k])
  {
    hide Inv, Enabled, Next, Init;
    if k == 0 {
      InitInv(plan);
    } else {
      RunInv(plan, states, moves, k - 1);
      assert Moves(plan, states[k - 1], moves[k - 1], states[k - 1 + 1]);
      NextInv(plan, states[k - 1], moves[k - 1]);
    }
  }

  // ---------------------------------------------------------------------
  // The barrier

  /** The main goroutine looked at a live context with every Tier 1 goroutine gone. */
  ghost predicate ClearToProceed(plan: Plan, s: State) {
    && s.main == Check && !s.cancelled && |s.pcs| == |plan.tasks| && ValidPlan(plan)
    && forall i :: 0 <= i < plan.split ==> s.pcs[i] == Exited
  }

  predicate InSecondPhase(plan: Plan, s: State) { s.main == Spawn2 || s.main == Wait2 || s.next > plan.split }

  lemma {:induction false} SecondPhaseEntered(plan: Plan, s: State, m: Move)
    requires Inv(plan, s) && Enabled(plan, s, m)
    requires !InSecondPhase(plan, s) && InSecondPhase(plan, Next(plan, s, m))
    ensures ClearToProceed(plan, s)
  {
    hide PoolInv;
  }

  /** A Tier 2 or 3 collector has started only if, at an earlier state of the run, all Tier 1
      goroutines had finished and the context was found live. */
  lemma {:induction false} Barrier(plan: Plan, states: seq<State>, moves: seq<Move>, k: nat)
    requires IsRun(plan, states, moves) && k < |states|
    requires InSecondPhase(plan, states[k]) ||
             exists i :: plan.split <= i < |states[k].pcs| && states[k].pcs[i] != Unspawned
    ensures exists j :: 0 <= j < k && ClearToProceed(plan, states[j])
  {
    hide Next, Enabled, PoolInv, ClearToProceed;
    RunInv(plan, states, moves, k);
    assert InSecondPhase(plan, states[k]);
    if k == 0 {
      assert false;
    }
    var s, m := states[k - 1], moves[k - 1];
    assert Moves(plan, s, m, states[k - 1 + 1]);
    RunInv(plan, states, moves, k - 1);
    if InSecondPhase(plan, s) {
      Barrier(plan, states, moves, k - 1);
      var j :| 0 <= j < k - 1 && ClearToProceed(plan, states[j]);
    } else {
      SecondPhaseEntered(plan, s, m);
    }
  }

  /** A run whose context was never cancelled has started everything by the time it merges. */
  lemma {:induction false} UncancelledStartsAll(plan: Plan, states: seq<State>, moves: seq<Move>, k: nat)
    requires IsRun(plan, states, moves) && k < |states|
    ensures states[k].main == Merge && !states[k].cancelled ==> states[k].next == |plan.tasks|
  {
    if k > 0 {
      UncancelledStartsAll(plan, states, moves, k - 1);
      RunInv(plan, states, moves, k - 1);
      assert Moves(plan, states[k - 1], moves[k - 1], states[k - 1 + 1]);
      StartsAllStep(plan, states[k - 1], moves[k - 1]);
    }
  }

  lemma {:induction false} StartsAllStep(plan: Plan, s: State, m: Move)
    requires Inv(plan, s) && Enabled(plan, s, m)
    requires s.main == Merge && !s.cancelled ==> s.next == |plan.tasks|
    ensures var s' := Next(plan, s, m); s'.main == Merge && !s'.cancelled ==> s'.next == |plan.tasks|
  {
    hide PoolInv;
  }

  // ---------------------------------------------------------------------
  // Progress and termination

  function PcRank(pc: Pc): nat {
    match pc
    case Unspawned => 7 case Started => 6 case Ready => 5 case Holding => 4
    case Loaded(_) => 3 case Stored => 2 case Released => 1 case Exited => 0
  }

  function MainRank(m: Main): nat {
    match m case Spawn1 => 5 case Wait1 => 4 case Check => 3 case Spawn2 => 2 case Wait2 => 1 case Merge => 0
  }

  function RankSum(pcs: seq<Pc>, n: nat): nat
    requires n <= |pcs|
  {
    if n == 0 then 0 else RankSum(pcs, n - 1) + PcRank(pcs[n - 1])
  }

  /** Moves left at most. */
  function Fuel(s: State): nat { RankSum(s.pcs, |s.pcs|) + MainRank(s.main) + (if s.cancelled then 0 else 1) }

  lemma {:induction false} RankSumUpdate(pcs: seq<Pc>, n: nat, i: nat, pc: Pc)
    requires i < |pcs| && n <= |pcs|
    ensures RankSum(pcs[i := pc], n) == RankSum(pcs, n) + (if i < n then PcRank(pc) - PcRank(pcs[i]) else 0)
  {
    hide PcRank;
    if n > 0 { RankSumUpdate(pcs, n - 1, i, pc); }
  }

  lemma {:induction false} FuelDecreases(plan: Plan, s: State, m: Move)
    requires Inv(plan, s) && Enabled(plan, s, m)
    ensures Fuel(Next(plan, s, m)) < Fuel(s)
  {
    hide PoolInv, RankSum, MainStep, GoStep;
    match m
    case Cancel =>
    case Step => MainFuel(plan, s);
    case Go(i) => GoFuel(plan, s, i);
  }

  lemma {:induction false} MainFuel(plan: Plan, s: State)
    requires Inv(plan, s) && Enabled(plan, s, Step)
    ensures Fuel(MainStep(plan, s)) < Fuel(s)
  {
    hide PoolInv, RankSum, GoStep;
    if s.next < |s.pcs| { RankSumUpdate(s.pcs, |s.pcs|, s.next, Started); }
  }

  lemma {:induction false} GoFuel(plan: Plan, s: State, i: nat)
    requires Inv(plan, s) && Enabled(plan, s, Go(i))
    ensures Fuel(GoStep(plan, s, i)) < Fuel(s)
  {
    hide PoolInv, RankSum, MainStep, Progressed, Contribution;
    var s' := GoStep(plan, s, i);
    LoadedHas(plan, s, i);
    var pc := s'.pcs[i];
    assert s'.pcs == s.pcs[i := pc] && s'.main == s.main && s'.cancelled == s.cancelled;
    assert PcRank(pc) < PcRank(s.pcs[i]);
    RankSumUpdate(s.pcs, |s.pcs|, i, pc);
  }

  lemma {:induction false} LoadedHas(plan: Plan, s: State, i: nat)
    requires Inv(plan, s) && i < |s.pcs|
    ensures s.pcs[i].Loaded? ==> Contribution(plan.tasks[i]).Some?
  {}

  /** No schedule runs forever. */
  lemma {:induction false} RunsAreBounded(plan: Plan, states: seq<State>, moves: seq<Move>, k: nat)
    requires IsRun(plan, states, moves) && k <= |moves|
    ensures k + Fuel(states[k]) <= Fuel(Init(plan))
  {
    hide Inv, Enabled, Next, Fuel, Init;
    if k > 0 {
      RunsAreBounded(plan, states, moves, k - 1);
      RunInv(plan, states, moves, k - 1);
      assert Moves(plan, states[k - 1], moves[k - 1], states[k - 1 + 1]);
      FuelDecreases(plan, states[k - 1], moves[k - 1]);
    }
  }

  /** No schedule gets stuck before the merge: some goroutine can always move. */
  lemma {:induction false} NeverStuck(plan: Plan, s: State) returns (m: Move)
    requires Inv(plan, s) && s.main != Merge
    ensures m != Cancel && Enabled(plan, s, m)
  {
    hide Kept, Fresh, ActiveCount, Progressed;
    if s.main == Wait1 && s.first.wg != 0 {
      m := PoolNotStuck(plan, s, 0, plan.split, s.first);
    } else if s.main == Wait2 && s.second.wg != 0 {
      m := PoolNotStuck(plan, s, plan.split, |s.pcs|, s.second);
    } else {
      m := Step;
    }
  }

  lemma {:induction false} PoolNotStuck(plan: Plan, s: State, lo: nat, hi: nat, p: Pool) returns (m: Move)
    requires ValidPlan(plan) && |s.pcs| == |plan.tasks| && lo <= hi <= |s.pcs|
    requires PoolInv(plan.tasks, s.pcs, p, lo, hi) && p.wg != 0
    requires forall i :: lo <= i < hi ==> PoolOf(plan, s, i) == p
    ensures m != Cancel && Enabled(plan, s, m)
  {
    hide Kept, Fresh, ActiveCount;
    var i := SomeActive(s.pcs, lo, hi);
    if s.pcs[i] == Ready && p.mutex.Some? {
      assert Critical(s.pcs[p.mutex.value]);
      m := Go(p.mutex.value);
    } else {
      m := Go(i);
    }
  }

  // ---------------------------------------------------------------------
  // Conservation

  /** The results the first `n` tasks owe to a category. */
  ghost function Owed(tasks: seq<Task>, lo: nat, n: nat, cat: string): multiset<Result>
    requires lo <= n <= |tasks|
    decreases n - lo
  {
    if lo == n then multiset{} else Owed(tasks, lo, n - 1, cat) + Share(tasks[n - 1], Exited, cat)
  }

  lemma {:induction false} DepositsAreOwed(tasks: seq<Task>, pcs: seq<Pc>, lo: nat, n: nat, hi: nat, cat: string)
    requires lo <= n <= hi <= |pcs| == |tasks|
    requires forall i :: lo <= i < n ==> pcs[i] == Exited
    requires forall i :: n <= i < hi ==> pcs[i] == Unspawned
    ensures Deposits(tasks, pcs, lo, hi, cat) == Owed(tasks, lo, n, cat)
    decreases hi - lo
  {
    hide Share;
    if lo < hi {
      if n == hi {
        DepositsAreOwed(tasks, pcs, lo, n - 1, hi - 1, cat);
      } else {
        NoShare(tasks[hi - 1], Unspawned);
        DepositsAreOwed(tasks, pcs, lo, n, hi - 1, cat);
      }
    }
  }

  lemma {:induction false} OwedSplits(tasks: seq<Task>, m: nat, n: nat, cat: string)
    requires m <= n <= |tasks|
    ensures Owed(tasks, 0, n, cat) == Owed(tasks, 0, m, cat) + Owed(tasks, m, n, cat)
    decreases n - m
  {
    hide Share;
    if m < n { OwedSplits(tasks, m, n - 1, cat); }
  }

  /** At the merge every started collector has delivered exactly what it owed: nothing is
      lost, nothing is counted twice. */
  lemma {:induction false} Conservation(plan: Plan, s: State, cat: string)
    requires Inv(plan, s) && s.main == Merge
    ensures multiset(Lookup(s.first.results, cat) + Lookup(s.second.results, cat)) == Owed(plan.tasks, 0, s.next, cat)
  {
    hide Deposits, Share, Owed, ActiveCount, Locked, Fresh;
    DepositsAreOwed(plan.tasks, s.pcs, 0, plan.split, plan.split, cat);
    DepositsAreOwed(plan.tasks, s.pcs, plan.split, s.next, |s.pcs|, cat);
    OwedSplits(plan.tasks, plan.split, s.next, cat);
    assert multiset(Lookup(s.first.results, cat)) == Deposits(plan.tasks, s.pcs, 0, plan.split, cat);
    assert multiset(Lookup(s.second.results, cat)) == Deposits(plan.tasks, s.pcs, plan.split, |s.pcs|, cat);
  }

  // ---------------------------------------------------------------------
  // Merge and sort

  function ByCollector(): (Result, Result) -> bool {
    (x: Result, y: Result) => StringLeq(x.collector, y.collector)
  }

  lemma {:induction false} ByCollectorPreorder()
    ensures TotalPreorder(ByCollector())
  {
    StringKeyPreorder((r: Result) => r.collector, ByCollector());
  }

  /** The report's categories, given the results of the two phases. */
  ghost predicate IsReport(first: Categories, second: Categories, cats: Categories) {
    && cats.Keys == first.Keys + second.Keys
    && forall c :: c in cats ==> SortedPermutation(cats[c], Lookup(first, c) + Lookup(second, c), ByCollector())
  }

  /** Within a category the names are in dictionary order. */
  lemma {:induction false} ReportSorted(first: Categories, second: Categories, cats: Categories, c: string, i: nat, j: nat)
    requires IsReport(first, second, cats) && c in cats && i < j < |cats[c]|
    ensures Precedes(cats[c][i].collector, cats[c][j].collector)
  {
    hide Precedes, StringLeq, Permutation;
    assert ByCollector()(cats[c][i], cats[c][j]);
    StringLeqIff(cats[c][i].collector, cats[c][j].collector);
  }

  /** The first phase's map after the categories in `order` were appended to it. */
  function Absorbed(first: Categories, second: Categories, order: seq<string>): Categories
    requires forall c :: c in order ==> c in second
  {
    if order == [] then first
    else
      var c := order[|order| - 1];
      var m := Absorbed(first, second, order[..|order| - 1]);
      m[c := Lookup(m, c) + second[c]]
  }

  lemma {:induction false} AbsorbedAt(first: Categories, second: Categories, order: seq<string>, c: string)
    requires Distinct(order) && forall k :: k in order ==> k in second
    ensures c in Absorbed(first, second, order) <==> c in first || c in order
    ensures Lookup(Absorbed(first, second, order), c) == Lookup(first, c) + (if c in order then second[c] else [])
  {
    if order == [] {
      assert Lookup(first, c) + [] == Lookup(first, c);
    } else {
      var n := |order| - 1;
      AbsorbedAt(first, second, order[..n], c);
      assert c in order <==> c in order[..n] || c == order[n];
      assert order[n] !in order[..n];
      if c == order[n] { assert Lookup(first, c) + [] == Lookup(first, c); }
    }
  }

  /** Appends the second phase to the first, category by category, in any order. */
  method MergePhases(first: Categories, second: Categories) returns (all: Categories)
    ensures all.Keys == first.Keys + second.Keys
    ensures forall c :: c in all ==> all[c] == Lookup(first, c) + Lookup(second, c)
  {
    hide Lookup;
    all := first;
    var order := Enumerate(second.Keys);
    for i := 0 to |order|
      invariant all == Absorbed(first, second, order[..i])
    {
      assert order[..i + 1][..i] == order[..i];
      all := all[order[i] := Lookup(all, order[i]) + second[order[i]]];
    }
    assert order[..|order|] == order;
    forall c ensures c in all <==> c in first || c in second
             ensures c in all ==> all[c] == Lookup(first, c) + Lookup(second, c) {
      AbsorbedAt(first, second, order, c);
      LookupCases(all, c);
      LookupCases(second, c);
    }
  }

  lemma {:induction false} LookupCases(m: Categories, c: string)
    ensures c in m ==> Lookup(m, c) == m[c]
    ensures c !in m ==> Lookup(m, c) == []
  {}

  /** The merge and the per-category sort of Run. */
  method BuildCategories(first: Categories, second: Categories) returns (cats: Categories)
    ensures IsReport(first, second, cats)
  {
    hide SortedPermutation, Lookup, TotalPreorder;
    var all := MergePhases(first, second);
    ByCollectorPreorder();
    cats := map[];
    var order := Enumerate(all.Keys);
    for i := 0 to |order|
      invariant forall k :: 0 <= k < i ==> order[k] in cats
      invariant forall c :: c in cats ==> c in all && SortedPermutation(cats[c], all[c], ByCollector())
    {
      var sorted := SortSlice(all[order[i]], ByCollector());
      cats := cats[order[i] := sorted];
    }
    assert cats.Keys == all.Keys;
  }

  // ---------------------------------------------------------------------
  // Schedule independence

  /** The collector name a task puts into the report. */
  function ShownName(t: Task): string {
    if t.outcome.Returned? then t.outcome.result.collector else t.collector.name
  }

  /** No two tasks that end with something to show carry the same name. */
  ghost predicate DistinctNames(tasks: seq<Task>) {
    forall i, j :: 0 <= i < j < |tasks| && tasks[i].outcome != ReturnedNil && tasks[j].outcome != ReturnedNil ==>
      ShownName(tasks[i]) != ShownName(tasks[j])
  }

  lemma {:induction false} ContributionNamed(t: Task)
    ensures Contribution(t).Some? <==> t.outcome != ReturnedNil
    ensures Contribution(t).Some? ==> Contribution(t).value.collector == ShownName(t)
  {}

  lemma {:induction false} OwedHasSource(tasks: seq<Task>, n: nat, cat: string, r: Result)
    requires n <= |tasks| && r in Owed(tasks, 0, n, cat)
    ensures exists i :: 0 <= i < n && Contribution(tasks[i]) == Some(r) && tasks[i].collector.category == cat
  {
    hide Contribution;
    if r !in Share(tasks[n - 1], Exited, cat) { OwedHasSource(tasks, n - 1, cat, r); }
  }

  lemma {:induction false} MergedMembers(plan: Plan, s: State, cat: string, merged: seq<Result>, i: nat)
    requires Inv(plan, s) && s.main == Merge && i < |merged|
    requires Permutation(merged, Lookup(s.first.results, cat) + Lookup(s.second.results, cat))
    ensures exists t :: 0 <= t < s.next && t < |plan.tasks| &&
              Contribution(plan.tasks[t]) == Some(merged[i]) && plan.tasks[t].collector.category == cat
  {
    hide Inv, Owed, Contribution;
    assert s.next <= |plan.tasks| by { NextInRange(plan, s); }
    Conservation(plan, s, cat);
    assert merged[i] in multiset(merged);
    OwedHasSource(plan.tasks, s.next, cat, merged[i]);
  }

  lemma {:induction false} NextInRange(plan: Plan, s: State)
    requires Inv(plan, s)
    ensures s.next <= |plan.tasks|
  {}

  lemma {:induction false} SameNameSameResult(tasks: seq<Task>, i: nat, j: nat)
    requires DistinctNames(tasks) && i < |tasks| && j < |tasks|
    requires Contribution(tasks[i]).Some? && Contribution(tasks[j]).Some?
    requires Contribution(tasks[i]).value.collector == Contribution(tasks[j]).value.collector
    ensures i == j
  {
    hide Contribution, ShownName;
    ContributionNamed(tasks[i]);
    ContributionNamed(tasks[j]);
  }

  lemma {:induction false} MergedNoTies(plan: Plan, s: State, cat: string, merged: seq<Result>)
    requires Inv(plan, s) && s.main == Merge && DistinctNames(plan.tasks)
    requires Permutation(merged, Lookup(s.first.results, cat) + Lookup(s.second.results, cat))
    ensures NoTies(merged, ByCollector())
  {
    hide Inv, Contribution, Permutation, DistinctNames;
    forall i, j | 0 <= i < |merged| && 0 <= j < |merged| &&
                  ByCollector()(merged[i], merged[j]) && ByCollector()(merged[j], merged[i])
      ensures merged[i] == merged[j]
    {
      StringLeqTotal(merged[i].collector, merged[j].collector);
      MergedMembers(plan, s, cat, merged, i);
      MergedMembers(plan, s, cat, merged, j);
      var t :| 0 <= t < |plan.tasks| && Contribution(plan.tasks[t]) == Some(merged[i]) && plan.tasks[t].collector.category == cat;
      var u :| 0 <= u < |plan.tasks| && Contribution(plan.tasks[u]) == Some(merged[j]) && plan.tasks[u].collector.category == cat;
      SameNameSameResult(plan.tasks, t, u);
    }
  }

  /** A category is in the report exactly when some started collector owed it a result. */
  lemma {:induction false} KeysOwed(plan: Plan, s: State, c: string)
    requires Inv(plan, s) && s.main == Merge
    ensures s.next <= |plan.tasks|
    ensures c in s.first.results.Keys + s.second.results.Keys <==> Owed(plan.tasks, 0, s.next, c) != multiset{}
  {
    hide Owed, Deposits, ActiveCount, Locked, Fresh;
    Conservation(plan, s, c);
    var a, b := Lookup(s.first.results, c), Lookup(s.second.results, c);
    assert c in s.first.results <==> a != [];
    assert c in s.second.results <==> b != [];
    assert multiset(a + b) == multiset{} <==> a + b == [] by { assert |multiset(a + b)| == |a + b|; }
  }

  /** What a list of tasks owes depends on the tasks, not on their order. */
  ghost function OwedBy(ts: seq<Task>, cat: string): multiset<Result> {
    if ts == [] then multiset{} else Share(ts[0], Exited, cat) + OwedBy(ts[1..], cat)
  }

  lemma {:induction false} OwedByAppend(a: seq<Task>, b: seq<Task>, cat: string)
    ensures OwedBy(a + b, cat) == OwedBy(a, cat) + OwedBy(b, cat)
  {
    hide Share;
    if a == [] {
      assert a + b == b;
    } else {
      assert (a + b)[1..] == a[1..] + b;
      OwedByAppend(a[1..], b, cat);
    }
  }

  lemma {:induction false} OwedIsOwedBy(tasks: seq<Task>, n: nat, cat: string)
    requires n <= |tasks|
    ensures Owed(tasks, 0, n, cat) == OwedBy(tasks[..n], cat)
  {
    hide Share;
    if n > 0 {
      OwedIsOwedBy(tasks, n - 1, cat);
      assert tasks[..n] == tasks[..n - 1] + [tasks[n - 1]];
      OwedByAppend(tasks[..n - 1], [tasks[n - 1]], cat);
      assert OwedBy([tasks[n - 1]], cat) == Share(tasks[n - 1], Exited, cat) by {
        assert OwedBy([tasks[n - 1]][1..], cat) == multiset{};
      }
    }
  }

  lemma {:induction false} OwedByPermutation(a: seq<Task>, b: seq<Task>, cat: string)
    requires Permutation(a, b)
    ensures OwedBy(a, cat) == OwedBy(b, cat)
  {
    hide Share;
    PermutationLength(a, b);
    if a != [] {
      PermutationMember(a, b, a[0]);
      var i :| 0 <= i < |b| && b[i] == a[0];
      RemoveOne(a, b, i);
      OwedByPermutation(a[1..], b[..i] + b[i + 1..], cat);
      OwedAround(b, i, cat);
    }
  }

  lemma {:induction false} OwedAround(b: seq<Task>, i: nat, cat: string)
    requires i < |b|
    ensures OwedBy(b, cat) == Share(b[i], Exited, cat) + OwedBy(b[..i] + b[i + 1..], cat)
  {
    hide Share;
    assert b == b[..i] + ([b[i]] + b[i + 1..]);
    OwedByAppend(b[..i], b[i + 1..], cat);
    OwedByAppend(b[..i], [b[i]] + b[i + 1..], cat);
    assert ([b[i]] + b[i + 1..])[1..] == b[i + 1..];
  }

  /** The same collectors, with the same outcomes, were started. */
  ghost predicate SameWork(p: Plan, s: State, q: Plan, t: State) {
    s.next <= |p.tasks| && t.next <= |q.tasks| && Permutation(p.tasks[..s.next], q.tasks[..t.next])
  }

  lemma {:induction false} SameOwed(p: Plan, s: State, q: Plan, t: State, cat: string)
    requires SameWork(p, s, q, t)
    ensures Owed(p.tasks, 0, s.next, cat) == Owed(q.tasks, 0, t.next, cat)
  {
    OwedIsOwedBy(p.tasks, s.next, cat);
    OwedIsOwedBy(q.tasks, t.next, cat);
    OwedByPermutation(p.tasks[..s.next], q.tasks[..t.next], cat);
  }

  /** Confluence.  Take any two finished schedules that started the same collectors with the
      same outcomes: in whatever order they were registered, however the goroutines
      interleaved, whatever order the maps were visited in and whatever the unstable sort did,
      the categories of the two reports are equal. */
  lemma {:induction false} Confluence(p: Plan, s: State, q: Plan, t: State, a: Categories, b: Categories)
    requires Inv(p, s) && Inv(q, t) && s.main == Merge && t.main == Merge && SameWork(p, s, q, t)
    requires DistinctNames(p.tasks)
    requires IsReport(s.first.results, s.second.results, a) && IsReport(t.first.results, t.second.results, b)
    ensures a == b
  {
    hide Inv, Owed, SortedBy, NoTies, TotalPreorder, Permutation, DistinctNames;
    forall c ensures c in a <==> c in b {
      KeysOwed(p, s, c);
      KeysOwed(q, t, c);
      SameOwed(p, s, q, t, c);
    }
    forall c | c in a ensures a[c] == b[c] {
      var x := Lookup(s.first.results, c) + Lookup(s.second.results, c);
      var y := Lookup(t.first.results, c) + Lookup(t.second.results, c);
      Conservation(p, s, c);
      Conservation(q, t, c);
      SameOwed(p, s, q, t, c);
      ByCollectorPreorder();
      MergedNoTies(p, s, c, a[c]);
      ThreePermutations(a[c], x, y, b[c]);
      SortedPermutationUnique(a[c], b[c], ByCollector());
    }
  }

  lemma {:induction false} ThreePermutations(a: seq<Result>, x: seq<Result>, y: seq<Result>, b: seq<Result>)
    requires Permutation(a, x) && multiset(x) == multiset(y) && Permutation(b, y)
    ensures Permutation(a, b)
  {}

  // ---------------------------------------------------------------------
  // One name, one place in the report

  lemma {:induction false} OwedOnce(tasks: seq<Task>, n: nat, cat: string, r: Result)
    requires n <= |tasks| && DistinctNames(tasks)
    ensures Owed(tasks, 0, n, cat)[r] <= 1
  {
    hide Contribution, DistinctNames;
    if n > 0 {
      OwedOnce(tasks, n - 1, cat, r);
      if Contribution(tasks[n - 1]).Some? && r in Owed(tasks, 0, n - 1, cat) {
        EarlierName(tasks, n - 1, cat, r);
      }
    }
  }

  lemma {:induction false} EarlierName(tasks: seq<Task>, n: nat, cat: string, r: Result)
    requires n < |tasks| && DistinctNames(tasks) && Contribution(tasks[n]).Some? && r in Owed(tasks, 0, n, cat)
    ensures r.collector != Contribution(tasks[n]).value.collector
  {
    hide Contribution;
    OwedHasSource(tasks, n, cat, r);
    var i :| 0 <= i < n && Contribution(tasks[i]) == Some(r) && tasks[i].collector.category == cat;
    hide ShownName;
    ContributionNamed(tasks[i]);
    ContributionNamed(tasks[n]);
  }

  /** In the finished report every collector name occurs in one place only. */
  lemma {:induction false} NamesOnce(p: Plan, s: State, cats: Categories, c: string, d: string, i: nat, j: nat)
    requires Inv(p, s) && s.main == Merge && DistinctNames(p.tasks)
    requires IsReport(s.first.results, s.second.results, cats)
    requires c in cats && d in cats && i < |cats[c]| && j < |cats[d]|
    requires cats[c][i].collector == cats[d][j].collector
    ensures c == d && i == j
  {
    hide Inv, Owed, SortedBy, Contribution, DistinctNames;
    MergedMembers(p, s, c, cats[c], i);
    MergedMembers(p, s, d, cats[d], j);
    var t :| 0 <= t < |p.tasks| && Contribution(p.tasks[t]) == Some(cats[c][i]) && p.tasks[t].collector.category == c;
    var u :| 0 <= u < |p.tasks| && Contribution(p.tasks[u]) == Some(cats[d][j]) && p.tasks[u].collector.category == d;
    SameNameSameResult(p.tasks, t, u);
    var x := Lookup(s.first.results, c) + Lookup(s.second.results, c);
    Conservation(p, s, c);
    NextInRange(p, s);
    forall r | r in cats[c] ensures multiset(cats[c])[r] <= 1 {
      OwedOnce(p.tasks, s.next, c, r);
    }
    DistinctCounts(cats[c]);
  }

  /** What distinct names are needed for: given the results of the two phases, the report is
      determined if and only if, within every category, equal names mean equal results. */
  lemma {:induction false} ReportDeterminedIff(first: Categories, second: Categories, a: Categories)
    requires IsReport(first, second, a)
    ensures (forall b :: IsReport(first, second, b) ==> b == a) <==>
            (forall c :: c in a ==> NoTies(Lookup(first, c) + Lookup(second, c), ByCollector()))
  {
    hide Lookup, SortedPermutation, NoTies, TotalPreorder;
    ByCollectorPreorder();
    if forall c :: c in a ==> NoTies(Lookup(first, c) + Lookup(second, c), ByCollector()) {
      forall b | IsReport(first, second, b) ensures b == a {
        forall c | c in a ensures a[c] == b[c] {
          SortDeterministicIff(Lookup(first, c) + Lookup(second, c), ByCollector());
        }
      }
    } else {
      var c :| c in a && !NoTies(Lookup(first, c) + Lookup(second, c), ByCollector());
      var x, y := TwoSortedPermutations(Lookup(first, c) + Lookup(second, c), ByCollector());
      var b := a[c := if a[c] == x then y else x];
      assert b[c] != a[c];
      assert IsReport(first, second, b);
    }
  }

  /** The result a task must show: the one its collector returned, untouched, or one that carries
      the collector's name, category and tier, no data, and the error or the panic. */
  ghost predicate Shows(t: Task, r: Result) {
    var c := t.collector;
    || t.outcome == Returned(r)
    || (t.outcome.Failed? && r == Result(c.name, c.category, c.tier, NoData, [], [t.outcome.error]))
    || (t.outcome.Panicked? && r == Result(c.name, c.category, c.tier, NoData, [], ["panic: " + t.outcome.message]))
  }

  ghost function ShowsIn(cat: string, r: Result): Task -> bool {
    (t: Task) => t.collector.category == cat && Shows(t, r)
  }

  lemma {:induction false} ShowsContribution(t: Task, r: Result)
    ensures Shows(t, r) <==> Contribution(t) == Some(r)
  {}

  lemma {:induction false} ShareCount(t: Task, c: string, r: Result)
    ensures Share(t, Exited, c)[r] == Count([t], ShowsIn(c, r))
  {
    hide Contribution, Shows;
    ShowsContribution(t, r);
    assert [t][1..] == [];
  }

  lemma {:induction false} OwedCount(tasks: seq<Task>, n: nat, c: string, r: Result)
    requires n <= |tasks|
    ensures Owed(tasks, 0, n, c)[r] == Count(tasks[..n], ShowsIn(c, r))
  {
    hide Share, ShowsIn;
    if n > 0 {
      OwedCount(tasks, n - 1, c, r);
      assert tasks[..n] == tasks[..n - 1] + [tasks[n - 1]];
      CountConcat(tasks[..n - 1], [tasks[n - 1]], ShowsIn(c, r));
      ShareCount(tasks[n - 1], c, r);
      hide Count;
    }
  }

  /** Nothing lost, nothing invented, nothing repeated: in the report of a finished run, whatever
      the names, a result occurs in a category exactly as often as started collectors of that
      category must show it. */
  lemma {:induction false} Delivered(p: Plan, s: State, cats: Categories, c: string, r: Result)
    requires Inv(p, s) && s.main == Merge && IsReport(s.first.results, s.second.results, cats)
    ensures s.next <= |p.tasks|
    ensures multiset(Lookup(cats, c))[r] == Count(p.tasks[..s.next], ShowsIn(c, r))
    ensures c in cats ==> cats[c] != []
  {
    hide Inv, Owed, SortedBy, Shows, Count;
    KeysOwed(p, s, c);
    Conservation(p, s, c);
    OwedCount(p.tasks, s.next, c, r);
  }

  lemma {:induction false} CountsOne(tasks: seq<Task>, i: nat, q: Task -> bool)
    requires i < |tasks| && q(tasks[i]) && forall j :: 0 <= j < |tasks| && q(tasks[j]) ==> j == i
    ensures Count(tasks, q) == 1
  {
    CountAround(tasks, i, q);
    var rest := tasks[..i] + tasks[i + 1..];
    assert forall j :: 0 <= j < |rest| ==> rest[j] == tasks[if j < i then j else j + 1];
    CountsNone(rest, q);
  }

  lemma {:induction false} CountsNone(tasks: seq<Task>, q: Task -> bool)
    requires forall j :: 0 <= j < |tasks| ==> !q(tasks[j])
    ensures Count(tasks, q) == 0
  {
    if tasks != [] { CountsNone(tasks[1..], q); }
  }

  lemma {:induction false} CountsSome(tasks: seq<Task>, q: Task -> bool) returns (i: nat)
    requires Count(tasks, q) > 0
    ensures i < |tasks| && q(tasks[i])
  {
    if q(tasks[0]) {
      i := 0;
    } else {
      i := CountsSome(tasks[1..], q);
      i := i + 1;
    }
  }

  lemma {:induction false} ShownOnce(p: Plan, s: State, cats: Categories, i: nat, r: Result)
    requires Inv(p, s) && s.main == Merge && DistinctNames(p.tasks)
    requires IsReport(s.first.results, s.second.results, cats)
    requires i < s.next && i < |p.tasks| && Shows(p.tasks[i], r)
    ensures var c := p.tasks[i].collector.category; c in cats && multiset(cats[c])[r] == 1
  {
    hide Inv, IsReport, Shows;
    var c := p.tasks[i].collector.category;
    Delivered(p, s, cats, c, r);
    var q := ShowsIn(c, r);
    forall j | 0 <= j < s.next && q(p.tasks[j]) ensures j == i {
      ShowsContribution(p.tasks[i], r);
      ShowsContribution(p.tasks[j], r);
      SameNameSameResult(p.tasks, i, j);
    }
    CountsOne(p.tasks[..s.next], i, q);
  }

  /** Every started collector has exactly one result in the report, under its own category: what it
      returned, as it returned it; after a failure or a panic a result with its name, category and
      tier, without data, and with the error; and none if it returned nil without an error. */
  lemma {:induction false} DeliveredExactlyOnce(p: Plan, s: State, cats: Categories, i: nat)
    requires Inv(p, s) && s.main == Merge && DistinctNames(p.tasks)
    requires IsReport(s.first.results, s.second.results, cats)
    requires i < s.next && i < |p.tasks|
    ensures var c, outcome := p.tasks[i].collector, p.tasks[i].outcome;
            && (outcome != ReturnedNil ==> c.category in cats)
            && (outcome.Returned? ==> multiset(cats[c.category])[outcome.result] == 1)
            && (outcome.Failed? ==>
                  multiset(cats[c.category])[Result(c.name, c.category, c.tier, NoData, [], [outcome.error])] == 1)
            && (outcome.Panicked? ==>
                  multiset(cats[c.category])[Result(c.name, c.category, c.tier, NoData, [], ["panic: " + outcome.message])] == 1)
  {
    hide Inv, IsReport, DistinctNames;
    var c, outcome := p.tasks[i].collector, p.tasks[i].outcome;
    match outcome
    case Returned(r) => ShownOnce(p, s, cats, i, r);
    case ReturnedNil =>
    case Failed(e) => ShownOnce(p, s, cats, i, Result(c.name, c.category, c.tier, NoData, [], [e]));
    case Panicked(m) => ShownOnce(p, s, cats, i, Result(c.name, c.category, c.tier, NoData, [], ["panic: " + m]));
  }

  /** The converse: every entry of the report stands for a collector that was started, in its
      category, and is what that collector returned or the record of its failure or panic. */
  lemma {:induction false} NothingElse(p: Plan, s: State, cats: Categories, cat: string, k: nat) returns (i: nat)
    requires Inv(p, s) && s.main == Merge && IsReport(s.first.results, s.second.results, cats)
    requires cat in cats && k < |cats[cat]|
    ensures i < s.next && i < |p.tasks| && p.tasks[i].collector.category == cat
    ensures var c, outcome := p.tasks[i].collector, p.tasks[i].outcome;
            match outcome
            case Returned(r) => cats[cat][k] == r
            case ReturnedNil => false
            case Failed(e) => cats[cat][k] == Result(c.name, c.category, c.tier, NoData, [], [e])
            case Panicked(m) => cats[cat][k] == Result(c.name, c.category, c.tier, NoData, [], ["panic: " + m])
  {
    hide Inv, IsReport;
    var r := cats[cat][k];
    Delivered(p, s, cats, cat, r);
    assert r in multiset(cats[cat]);
    i := CountsSome(p.tasks[..s.next], ShowsIn(cat, r));
  }
}
