/** internal/orchestrator/orchestrator.go: the two phases of Run as a step system.

    Every collector is a goroutine.  It collects, locks the phase's mutex, reads the slice of
    its category, writes it back one longer, unlocks and leaves.  The main goroutine spawns the
    Tier 1 collectors, waits for their WaitGroup, looks at the context, spawns the others and
    waits again.  A schedule is any sequence of enabled moves; cancellation may come at any time. */
module Orchestrator {
  import opened Text
  import opened Report

  datatype Collector = Collector(name: string, category: string, tier: int)

  /** How a call of Collect ends. */
  datatype Outcome = Returned(result: Result) | ReturnedNil | Failed(error: string) | Panicked(message: string)

  datatype Task = Task(collector: Collector, outcome: Outcome)

  /** Tier 1 comes first: tasks before `split` run in the first phase. */
  datatype Plan = Plan(tasks: seq<Task>, split: nat)

  /** What a goroutine appends, if anything: a failure or a panic becomes a result of its own. */
  function Contribution(t: Task): Option<Result> {
    var c := t.collector;
    match t.outcome
    case Returned(r) => Some(r)
    case ReturnedNil => None
    case Failed(e) => Some(Result(c.name, c.category, c.tier, NoData, [], [e]))
    case Panicked(m) => Some(Result(c.name, c.category, c.tier, NoData, [], ["panic: " + m]))
  }

  // ---------------------------------------------------------------------
  // States and moves

  datatype Pc = Unspawned | Started | Ready | Holding | Loaded(view: seq<Result>) | Stored | Released | Exited

  datatype Main = Spawn1 | Wait1 | Check | Spawn2 | Wait2 | Merge

  /** One call of runCollectorsParallel: its WaitGroup, its mutex and its results. */
  datatype Pool = Pool(wg: int, mutex: Option<nat>, results: Categories)

  datatype State = State(main: Main, next: nat, pcs: seq<Pc>, first: Pool, second: Pool, cancelled: bool)

  datatype Move = Cancel | Step | Go(i: nat)

  ghost predicate ValidPlan(plan: Plan) { plan.split <= |plan.tasks| }

  const EMPTY_POOL := Pool(0, None, map[])

  function Init(plan: Plan): State {
    State(Spawn1, 0, seq(|plan.tasks|, i => Unspawned), EMPTY_POOL, EMPTY_POOL, false)
  }

  function PoolOf(plan: Plan, s: State, i: nat): Pool { if i < plan.split then s.first else s.second }

  function WithPool(plan: Plan, s: State, i: nat, p: Pool): State {
    if i < plan.split then s.(first := p) else s.(second := p)
  }

  function Lookup(m: Categories, c: string): seq<Result> { if c in m then m[c] else [] }

  predicate Enabled(plan: Plan, s: State, m: Move)
    requires |s.pcs| == |plan.tasks|
  {
    match m
    case Cancel => !s.cancelled
    case Step => (s.main == Wait1 ==> s.first.wg == 0) && (s.main == Wait2 ==> s.second.wg == 0) && s.main != Merge
    case Go(i) =>
      i < |s.pcs| && s.pcs[i] != Unspawned && s.pcs[i] != Exited && (s.pcs[i] == Ready ==> PoolOf(plan, s, i).mutex.None?)
  }

  /** `wg.Add(1)` and `go`. */
  function Spawn(plan: Plan, s: State): State
    requires s.next < |s.pcs|
  {
    var p := PoolOf(plan, s, s.next);
    WithPool(plan, s, s.next, p.(wg := p.wg + 1)).(pcs := s.pcs[s.next := Started], next := s.next + 1)
  }

  function MainStep(plan: Plan, s: State): State
    requires |s.pcs| == |plan.tasks| && ValidPlan(plan)
  {
    match s.main
    case Spawn1 => if s.next < plan.split then Spawn(plan, s) else s.(main := Wait1)
    case Wait1 => s.(main := Check)
    case Check => s.(main := if !s.cancelled && plan.split < |plan.tasks| then Spawn2 else Merge)
    case Spawn2 => if s.next < |plan.tasks| then Spawn(plan, s) else s.(main := Wait2)
    case Wait2 => s.(main := Merge)
    case Merge => s
  }

  function GoStep(plan: Plan, s: State, i: nat): State
    requires i < |s.pcs| == |plan.tasks|
  {
    var p := PoolOf(plan, s, i);
    var cat := plan.tasks[i].collector.category;
    var r := Contribution(plan.tasks[i]);
    match s.pcs[i]
    case Started => s.(pcs := s.pcs[i := Ready])
    case Ready => WithPool(plan, s, i, p.(mutex := Some(i))).(pcs := s.pcs[i := Holding])
    case Holding => s.(pcs := s.pcs[i := if r.Some? then Loaded(Lookup(p.results, cat)) else Stored])
    case Loaded(view) =>
      if r.Some? then WithPool(plan, s, i, p.(results := p.results[cat := view + [r.value]])).(pcs := s.pcs[i := Stored])
      else s
    case Stored => WithPool(plan, s, i, p.(mutex := None)).(pcs := s.pcs[i := Released])
    case Released => WithPool(plan, s, i, p.(wg := p.wg - 1)).(pcs := s.pcs[i := Exited])
    case _ => s
  }

  function Next(plan: Plan, s: State, m: Move): State
    requires |s.pcs| == |plan.tasks| && ValidPlan(plan) && Enabled(plan, s, m)
  {
    match m
    case Cancel => s.(cancelled := true)
    case Step => MainStep(plan, s)
    case Go(i) => GoStep(plan, s, i)
  }

  // ---------------------------------------------------------------------
  // Invariant of one pool: the goroutines lo <= i < hi

  predicate Active(pc: Pc) { pc != Unspawned && pc != Exited }
  predicate Critical(pc: Pc) { pc == Holding || pc.Loaded? || pc == Stored }
  predicate Deposited(pc: Pc) { pc == Stored || pc == Released || pc == Exited }

  function ActiveCount(pcs: seq<Pc>, lo: nat, hi: nat): (n: nat)
    requires lo <= hi <= |pcs|
    decreases hi - lo
  {
    if lo == hi then 0 else ActiveCount(pcs, lo, hi - 1) + (if Active(pcs[hi - 1]) then 1 else 0)
  }

  ghost function Share(t: Task, pc: Pc, cat: string): multiset<Result> {
    if Deposited(pc) && t.collector.category == cat && Contribution(t).Some? then multiset{Contribution(t).value} else multiset{}
  }

  /** What the goroutines that got past their write have appended under a category. */
  ghost function Deposits(tasks: seq<Task>, pcs: seq<Pc>, lo: nat, hi: nat, cat: string): multiset<Result>
    requires lo <= hi <= |pcs| == |tasks|
    decreases hi - lo
  {
    if lo == hi then multiset{} else Deposits(tasks, pcs, lo, hi - 1, cat) + Share(tasks[hi - 1], pcs[hi - 1], cat)
  }

  ghost predicate Locked(pcs: seq<Pc>, p: Pool, lo: nat, hi: nat)
    requires lo <= hi <= |pcs|
  {
    && (p.mutex.Some? ==> lo <= p.mutex.value < hi)
    && (forall i :: lo <= i < hi ==> (Critical(pcs[i]) <==> p.mutex == Some(i)))
  }

  ghost predicate Fresh(tasks: seq<Task>, pcs: seq<Pc>, p: Pool, lo: nat, hi: nat)
    requires lo <= hi <= |pcs| == |tasks|
  {
    forall i :: lo <= i < hi && pcs[i].Loaded? ==>
      Contribution(tasks[i]).Some? && pcs[i].view == Lookup(p.results, tasks[i].collector.category)
  }

  ghost predicate Kept(tasks: seq<Task>, pcs: seq<Pc>, p: Pool, lo: nat, hi: nat)
    requires lo <= hi <= |pcs| == |tasks|
  {
    && (forall cat :: multiset(Lookup(p.results, cat)) == Deposits(tasks, pcs, lo, hi, cat))
    && (forall cat :: cat in p.results ==> p.results[cat] != [])
  }

  ghost predicate PoolInv(tasks: seq<Task>, pcs: seq<Pc>, p: Pool, lo: nat, hi: nat)
    requires lo <= hi <= |pcs| == |tasks|
  {
    && p.wg == ActiveCount(pcs, lo, hi)
    && Locked(pcs, p, lo, hi)
    && Fresh(tasks, pcs, p, lo, hi)
    && Kept(tasks, pcs, p, lo, hi)
  }

  lemma {:induction false} ActiveCountUpdate(pcs: seq<Pc>, lo: nat, hi: nat, i: nat, pc: Pc)
    requires lo <= hi <= |pcs| && i < |pcs|
    ensures ActiveCount(pcs[i := pc], lo, hi) ==
            ActiveCount(pcs, lo, hi) +
            (if lo <= i < hi then (if Active(pc) then 1 else 0) - (if Active(pcs[i]) then 1 else 0) else 0)
    decreases hi - lo
  {
    if lo < hi { ActiveCountUpdate(pcs, lo, hi - 1, i, pc); }
  }

  lemma {:induction false} DepositsUpdate(tasks: seq<Task>, pcs: seq<Pc>, lo: nat, hi: nat, i: nat, pc: Pc, cat: string)
    requires lo <= hi <= |pcs| == |tasks| && i < |pcs|
    requires !Deposited(pcs[i]) || Deposited(pc)
    ensures Deposits(tasks, pcs[i := pc], lo, hi, cat) ==
            Deposits(tasks, pcs, lo, hi, cat) +
            (if lo <= i < hi && !Deposited(pcs[i]) then Share(tasks[i], pc, cat) else multiset{})
    decreases hi - lo
  {
    hide Share, Deposited;
    if lo < hi {
      DepositsUpdate(tasks, pcs, lo, hi - 1, i, pc, cat);
      if i == hi - 1 {
        ShareFacts(tasks[i], pcs[i], pc, cat);
        OutOfRange(tasks, pcs, lo, hi - 1, i, pc, cat);
      }
    }
  }

  lemma {:induction false} OutOfRange(tasks: seq<Task>, pcs: seq<Pc>, lo: nat, hi: nat, i: nat, pc: Pc, cat: string)
    requires lo <= hi <= i < |pcs| == |tasks|
    ensures Deposits(tasks, pcs[i := pc], lo, hi, cat) == Deposits(tasks, pcs, lo, hi, cat)
    decreases hi - lo
  {
    hide Share;
    if lo < hi { OutOfRange(tasks, pcs, lo, hi - 1, i, pc, cat); }
  }

  lemma {:induction false} ShareFacts(t: Task, pc: Pc, pc': Pc, cat: string)
    requires !Deposited(pc) || Deposited(pc')
    ensures !Deposited(pc) ==> Share(t, pc, cat) == multiset{}
    ensures Deposited(pc) ==> Share(t, pc', cat) == Share(t, pc, cat)
  {}

  /** A goroutine that neither stores nor touches the lock keeps the pool's invariant. */
  lemma {:induction false} PoolKept(tasks: seq<Task>, pcs: seq<Pc>, p: Pool, p': Pool, lo: nat, hi: nat, i: nat, pc: Pc)
    requires lo <= hi <= |pcs| == |tasks| && i < |pcs| && PoolInv(tasks, pcs, p, lo, hi)
    requires p'.results == p.results
    requires !Deposited(pcs[i]) || Deposited(pc)
    requires lo <= i < hi && !Deposited(pcs[i]) ==> forall cat :: Share(tasks[i], pc, cat) == multiset{}
    requires lo <= i < hi && pc.Loaded? ==>
               Contribution(tasks[i]).Some? && pc.view == Lookup(p.results, tasks[i].collector.category)
    requires p'.wg == p.wg +
               (if lo <= i < hi then (if Active(pc) then 1 else 0) - (if Active(pcs[i]) then 1 else 0) else 0)
    requires Locked(pcs[i := pc], p', lo, hi)
    ensures PoolInv(tasks, pcs[i := pc], p', lo, hi)
  {
    hide Share;
    ActiveCountUpdate(pcs, lo, hi, i, pc);
    forall cat ensures Deposits(tasks, pcs[i := pc], lo, hi, cat) == Deposits(tasks, pcs, lo, hi, cat) {
      DepositsUpdate(tasks, pcs, lo, hi, i, pc, cat);
    }
    hide ActiveCount;
  }

  /** The write-back: under the lock the view is current, so exactly one result is added. */
  lemma {:induction false} PoolStored(tasks: seq<Task>, pcs: seq<Pc>, p: Pool, lo: nat, hi: nat, i: nat)
    requires lo <= hi <= |pcs| == |tasks| && lo <= i < hi && PoolInv(tasks, pcs, p, lo, hi)
    requires pcs[i].Loaded?
    ensures Contribution(tasks[i]).Some?
    ensures var cat := tasks[i].collector.category;
            PoolInv(tasks, pcs[i := Stored],
                    p.(results := p.results[cat := pcs[i].view + [Contribution(tasks[i]).value]]), lo, hi)
  {
    hide Deposits, ActiveCount, Kept, Share;
    var cat, r := tasks[i].collector.category, Contribution(tasks[i]).value;
    var pcs' := pcs[i := Stored];
    var p' := p.(results := p.results[cat := pcs[i].view + [r]]);
    ActiveCountUpdate(pcs, lo, hi, i, Stored);
    StoredKept(tasks, pcs, p, lo, hi, i);
    assert Critical(pcs[i]);
    forall j | lo <= j < hi ensures pcs'[j].Loaded? ==> false {
      assert j != i ==> !Critical(pcs[j]);
    }
  }

  lemma {:induction false} StoredKept(tasks: seq<Task>, pcs: seq<Pc>, p: Pool, lo: nat, hi: nat, i: nat)
    requires lo <= hi <= |pcs| == |tasks| && lo <= i < hi && Kept(tasks, pcs, p, lo, hi)
    requires pcs[i].Loaded? && Contribution(tasks[i]).Some? && pcs[i].view == Lookup(p.results, tasks[i].collector.category)
    ensures var cat := tasks[i].collector.category;
            Kept(tasks, pcs[i := Stored],
                 p.(results := p.results[cat := pcs[i].view + [Contribution(tasks[i]).value]]), lo, hi)
  {
    hide Deposits, Share, Contribution, Lookup;
    var cat, r := tasks[i].collector.category, Contribution(tasks[i]).value;
    var results := p.results[cat := pcs[i].view + [r]];
    forall c ensures multiset(Lookup(results, c)) == Deposits(tasks, pcs[i := Stored], lo, hi, c) {
      DepositsUpdate(tasks, pcs, lo, hi, i, Stored, c);
      assert multiset(Lookup(p.results, c)) == Deposits(tasks, pcs, lo, hi, c);
      AppendIsShare(tasks[i], p.results, c);
    }
  }

  lemma {:induction false} AppendIsShare(t: Task, results: Categories, c: string)
    requires Contribution(t).Some?
    ensures var cat := t.collector.category;
            multiset(Lookup(results[cat := Lookup(results, cat) + [Contribution(t).value]], c)) ==
            multiset(Lookup(results, c)) + Share(t, Stored, c)
  {
    hide Contribution;
  }

  lemma {:induction false} NoneActive(pcs: seq<Pc>, lo: nat, hi: nat)
    requires lo <= hi <= |pcs| && ActiveCount(pcs, lo, hi) == 0
    ensures forall i :: lo <= i < hi ==> !Active(pcs[i])
    decreases hi - lo
  {
    if lo < hi { NoneActive(pcs, lo, hi - 1); }
  }

  lemma {:induction false} SomeActive(pcs: seq<Pc>, lo: nat, hi: nat) returns (i: nat)
    requires lo <= hi <= |pcs| && ActiveCount(pcs, lo, hi) > 0
    ensures lo <= i < hi && Active(pcs[i])
    decreases hi - lo
  {
    if Active(pcs[hi - 1]) {
      i := hi - 1;
    } else {
      i := SomeActive(pcs, lo, hi - 1);
    }
  }

  // ---------------------------------------------------------------------
  // Invariant of the whole system

  ghost predicate Progressed(plan: Plan, s: State)
    requires |s.pcs| == |plan.tasks| && ValidPlan(plan)
  {
    && s.next <= |s.pcs|
    && (forall i :: 0 <= i < |s.pcs| ==> (s.pcs[i] == Unspawned <==> i >= s.next))
    && (s.main == Spawn1 ==> s.next <= plan.split)
    && (s.main == Wait1 || s.main == Check ==> s.next == plan.split)
    && (s.main == Spawn2 ==> plan.split <= s.next)
    && (s.main == Wait2 ==> s.next == |s.pcs|)
    && (s.main == Merge ==> s.next == plan.split || s.next == |s.pcs|)
    && (s.main in {Check, Spawn2, Wait2, Merge} ==> forall i :: 0 <= i < plan.split ==> s.pcs[i] == Exited)
    && (s.main == Merge ==> forall i :: 0 <= i < s.next ==> s.pcs[i] == Exited)
  }

  ghost predicate Inv(plan: Plan, s: State) {
    && ValidPlan(plan)
    && |s.pcs| == |plan.tasks|
    && Progressed(plan, s)
    && PoolInv(plan.tasks, s.pcs, s.first, 0, plan.split)
    && PoolInv(plan.tasks, s.pcs, s.second, plan.split, |s.pcs|)
  }

  lemma {:induction false} EmptyCounts(tasks: seq<Task>, pcs: seq<Pc>, lo: nat, hi: nat)
    requires lo <= hi <= |pcs| == |tasks| && forall i :: lo <= i < hi ==> pcs[i] == Unspawned
    ensures ActiveCount(pcs, lo, hi) == 0
    ensures forall cat :: Deposits(tasks, pcs, lo, hi, cat) == multiset{}
    decreases hi - lo
  {
    if lo < hi { EmptyCounts(tasks, pcs, lo, hi - 1); }
  }

  lemma {:induction false} InitInv(plan: Plan)
    requires ValidPlan(plan)
    ensures Inv(plan, Init(plan))
  {
    var s := Init(plan);
    EmptyCounts(plan.tasks, s.pcs, 0, plan.split);
    EmptyCounts(plan.tasks, s.pcs, plan.split, |s.pcs|);
  }

  lemma {:induction false} SpawnInv(plan: Plan, s: State)
    requires Inv(plan, s) && s.next < |s.pcs|
    requires (s.main == Spawn1 && s.next < plan.split) || s.main == Spawn2
    ensures Inv(plan, Spawn(plan, s))
  {
    hide PoolInv, Share;
    var s' := Spawn(plan, s);
    assert s.pcs[s.next] == Unspawned;
    LockedAfter(plan.tasks, s.pcs, s.first, s.next, Started, 0, plan.split);
    LockedAfter(plan.tasks, s.pcs, s.second, s.next, Started, plan.split, |s.pcs|);
    NoShare(plan.tasks[s.next], Started);
    PoolKept(plan.tasks, s.pcs, s.first, s'.first, 0, plan.split, s.next, Started);
    PoolKept(plan.tasks, s.pcs, s.second, s'.second, plan.split, |s.pcs|, s.next, Started);
  }

  lemma {:induction false} NoShare(t: Task, pc: Pc)
    requires !Deposited(pc) || Contribution(t).None?
    ensures forall cat :: Share(t, pc, cat) == multiset{}
  {}

  /** Outside the critical section a goroutine leaves the lock condition alone. */
  lemma {:induction false} LockedAfter(tasks: seq<Task>, pcs: seq<Pc>, p: Pool, i: nat, pc: Pc, lo: nat, hi: nat)
    requires lo <= hi <= |pcs| == |tasks| && i < |pcs| && PoolInv(tasks, pcs, p, lo, hi)
    requires lo <= i < hi ==> Critical(pc) == Critical(pcs[i])
    ensures forall p': Pool :: p'.mutex == p.mutex ==> Locked(pcs[i := pc], p', lo, hi)
  {}

  lemma {:induction false} MainInv(plan: Plan, s: State)
    requires Inv(plan, s) && Enabled(plan, s, Step)
    ensures Inv(plan, MainStep(plan, s))
  {
    match s.main
    case Spawn1 => if s.next < plan.split { SpawnInv(plan, s); }
    case Wait1 =>
      NoneActive(s.pcs, 0, plan.split);
    case Check =>
    case Spawn2 => if s.next < |plan.tasks| { SpawnInv(plan, s); }
    case Wait2 =>
      NoneActive(s.pcs, plan.split, |s.pcs|);
    case Merge =>
  }

  /** The bounds of the pool a goroutine belongs to. */
  function Lo(plan: Plan, i: nat): nat { if i < plan.split then 0 else plan.split }
  function Hi(plan: Plan, i: nat): nat { if i < plan.split then plan.split else |plan.tasks| }

  /** Moves of one goroutine: its own pool as stated, the other pool untouched. */
  lemma {:induction false} GoFrame(plan: Plan, s: State, i: nat, pc: Pc, p': Pool)
    requires Inv(plan, s) && i < |s.pcs| && Active(s.pcs[i]) && pc != Unspawned
    requires s.pcs[i] != Exited && (pc == Exited ==> s.main != Check)
    requires PoolInv(plan.tasks, s.pcs[i := pc], p', Lo(plan, i), Hi(plan, i))
    requires !Deposited(s.pcs[i]) || Deposited(pc)
    ensures Inv(plan, WithPool(plan, s, i, p').(pcs := s.pcs[i := pc]))
  {
    hide ActiveCount, Locked, Fresh, Kept;
    var s' := WithPool(plan, s, i, p').(pcs := s.pcs[i := pc]);
    if i < plan.split {
      OtherPool(plan.tasks, s.pcs, s.second, plan.split, |s.pcs|, i, pc);
    } else {
      OtherPool(plan.tasks, s.pcs, s.first, 0, plan.split, i, pc);
    }
  }

  lemma {:induction false} OtherPool(tasks: seq<Task>, pcs: seq<Pc>, p: Pool, lo: nat, hi: nat, i: nat, pc: Pc)
    requires lo <= hi <= |pcs| == |tasks| && i < |pcs| && !(lo <= i < hi) && PoolInv(tasks, pcs, p, lo, hi)
    requires !Deposited(pcs[i]) || Deposited(pc)
    ensures PoolInv(tasks, pcs[i := pc], p, lo, hi)
  {
    hide Share, ActiveCount;
    LockedAfter(tasks, pcs, p, i, pc, lo, hi);
    PoolKept(tasks, pcs, p, p, lo, hi, i, pc);
  }

  lemma {:induction false} GoInv(plan: Plan, s: State, i: nat)
    requires Inv(plan, s) && Enabled(plan, s, Go(i))
    ensures Inv(plan, GoStep(plan, s, i))
  {
    hide ActiveCount, Kept, Share, Deposits, Progressed, Contribution, Lookup;
    var p, t := PoolOf(plan, s, i), plan.tasks[i];
    var lo, hi := Lo(plan, i), Hi(plan, i);
    assert PoolInv(plan.tasks, s.pcs, p, lo, hi);
    var pc, p' := s.pcs[i], p;
    match s.pcs[i] {
    case Started =>
      pc := Ready;
      NoShare(t, pc);
      LockedAfter(plan.tasks, s.pcs, p, i, pc, lo, hi);
      PoolKept(plan.tasks, s.pcs, p, p', lo, hi, i, pc);
    case Ready =>
      pc, p' := Holding, p.(mutex := Some(i));
      NoShare(t, pc);
      PoolKept(plan.tasks, s.pcs, p, p', lo, hi, i, pc);
    case Holding =>
      var r := Contribution(t);
      pc := if r.Some? then Loaded(Lookup(p.results, t.collector.category)) else Stored;
      NoShare(t, pc);
      LockedAfter(plan.tasks, s.pcs, p, i, pc, lo, hi);
      PoolKept(plan.tasks, s.pcs, p, p', lo, hi, i, pc);
    case Loaded(view) =>
      PoolStored(plan.tasks, s.pcs, p, lo, hi, i);
      pc, p' := Stored, p.(results := p.results[t.collector.category := view + [Contribution(t).value]]);
    case Stored =>
      pc, p' := Released, p.(mutex := None);
      PoolKept(plan.tasks, s.pcs, p, p', lo, hi, i, pc);
    case Released =>
      pc, p' := Exited, p.(wg := p.wg - 1);
      LockedAfter(plan.tasks, s.pcs, p, i, pc, lo, hi);
      PoolKept(plan.tasks, s.pcs, p, p', lo, hi, i, pc);
      CheckQuiet(plan, s, i);
    }
    GoFrame(plan, s, i, pc, p');
    assert GoStep(plan, s, i) == WithPool(plan, s, i, p').(pcs := s.pcs[i := pc]);
  }

  lemma {:induction false} CheckQuiet(plan: Plan, s: State, i: nat)
    requires Inv(plan, s) && i < |s.pcs| && Active(s.pcs[i])
    ensures s.main != Check
  {}

  /** Every move keeps the invariant. */
  lemma {:induction false} NextInv(plan: Plan, s: State, m: Move)
    requires Inv(plan, s) && Enabled(plan, s, m)
    ensures Inv(plan, Next(plan, s, m))
  {
    hide PoolInv, MainStep, GoStep;
    match m
    case Cancel =>
    case Step => MainInv(plan, s);
    case Go(i) => GoInv(plan, s, i);
  }
}
