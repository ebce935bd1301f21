/** internal/collector/cpu.go: percentages from two samples of uint64 counters.
    Additions and subtractions wrap around; percentages are `real`. */
module CpuTimes {
  import opened Seqs

  const WORD: int := 0x1_0000_0000_0000_0000

  type U64 = x: int | 0 <= x < 0x1_0000_0000_0000_0000

  /** What is left of an integer in 64 unsigned bits. */
  function Wrap(x: int): U64 { x % WORD }

  function Add(a: int, b: int): U64 { Wrap(a + b) }
  function Sub(a: int, b: int): U64 { Wrap(a - b) }

  datatype Times = Times(user: U64, nice: U64, system: U64, idle: U64, iowait: U64, irq: U64, softirq: U64, steal: U64) {

    /** cpuTimes.total. */
    function Total(): U64 {
      Add(Add(Add(Add(Add(Add(Add(user, nice), system), idle), iowait), irq), softirq), steal)
    }

    /** The same sum without wrap-around. */
    function Sum(): int { user + nice + system + idle + iowait + irq + softirq + steal }
  }

  datatype Percentages = Percentages(
    user: real, system: real, iowait: real, idle: real, steal: real, irq: real, softirq: real)
  {
    function Sum(): real { user + system + iowait + idle + steal + irq + softirq }
  }

  function Pct(part: int, total: int): real
    requires total != 0
  {
    part as real / total as real * 100.0
  }

  /** The increments the code sees; user and nice are added up before use. */
  datatype Deltas = Deltas(user: U64, system: U64, iowait: U64, idle: U64, steal: U64, irq: U64, softirq: U64) {
    function Sum(): int { user + system + iowait + idle + steal + irq + softirq }
  }

  function Observed(before: Times, after: Times): Deltas {
    Deltas(Sub(Add(Sub(after.user, before.user), after.nice), before.nice),
           Sub(after.system, before.system), Sub(after.iowait, before.iowait), Sub(after.idle, before.idle),
           Sub(after.steal, before.steal), Sub(after.irq, before.irq), Sub(after.softirq, before.softirq))
  }

  /** computeDelta. */
  function ComputeDelta(before: Times, after: Times): Percentages {
    var total := Sub(after.Total(), before.Total());
    if total == 0 then Percentages(0.0, 0.0, 0.0, 0.0, 0.0, 0.0, 0.0)
    else
      var d := Observed(before, after);
      Percentages(Pct(d.user, total), Pct(d.system, total), Pct(d.iowait, total), Pct(d.idle, total),
                  Pct(d.steal, total), Pct(d.irq, total), Pct(d.softirq, total))
  }

  // ---------------------------------------------------------------------
  // Wrap-around

  lemma {:induction false} WrapSmall(x: int)
    requires 0 <= x < WORD
    ensures Wrap(x) == x
  {}

  lemma {:induction false} WrapSum(x: int, y: int)
    ensures Wrap(Wrap(x) + Wrap(y)) == Wrap(x + y)
  {}

  /** Summands may be wrapped on the way. */
  lemma {:induction false} WrapFold(a: int, s: int, x: int)
    requires Wrap(a) == Wrap(s)
    ensures Wrap(a + Wrap(x)) == Wrap(s + x)
    ensures Wrap(a + x) == Wrap(s + x)
    ensures Wrap(Wrap(s) + x) == Wrap(s + x)
  {
    hide Wrap;
    WrapSum(a, Wrap(x));
    WrapSum(a, x);
    WrapSum(s, x);
    WrapSum(Wrap(s), x);
    WrapSmall(Wrap(x));
    WrapSmall(Wrap(s));
  }

  lemma {:induction false} TotalIsSum(t: Times)
    ensures t.Total() == Wrap(t.Sum())
  {
    hide Wrap;
    var s2: int := t.user + t.nice;
    var s3: int := s2 + t.system;
    var s4: int := s3 + t.idle;
    var s5: int := s4 + t.iowait;
    var s6: int := s5 + t.irq;
    var s7: int := s6 + t.softirq;
    WrapFold(s2, s2, t.system);
    WrapFold(s3, s3, t.idle);
    WrapFold(s4, s4, t.iowait);
    WrapFold(s5, s5, t.irq);
    WrapFold(s6, s6, t.softirq);
    WrapFold(s7, s7, t.steal);
  }

  lemma {:induction false} SubWrap(x: int, y: int)
    ensures Sub(Wrap(x), Wrap(y)) == Sub(x, y)
  {}

  lemma {:induction false} UserDelta(before: Times, after: Times)
    ensures Observed(before, after).user == Wrap(after.user - before.user + after.nice - before.nice)
  {
    hide Wrap;
    var x: int := after.user - before.user;
    WrapFold(x, x, after.nice);
    WrapFold(x + after.nice, x + after.nice, -(before.nice as int));
  }

  /** The total increment, seen modulo 2^64, is the sum of the seven observed ones modulo 2^64. */
  lemma {:induction false} TotalDelta(before: Times, after: Times)
    ensures Sub(after.Total(), before.Total()) == Wrap(Observed(before, after).Sum())
  {
    hide Times.Total, Wrap;
    TotalIsSum(before);
    TotalIsSum(after);
    SubWrap(after.Sum(), before.Sum());
    UserDelta(before, after);
    var d := Observed(before, after);
    DeltaSum(d, after.user - before.user + after.nice - before.nice, after.system - before.system,
             after.iowait - before.iowait, after.idle - before.idle, after.steal - before.steal,
             after.irq - before.irq, after.softirq - before.softirq);
  }

  lemma {:induction false} DeltaSum(d: Deltas, a: int, b: int, c: int, e: int, f: int, g: int, h: int)
    requires d.user == Wrap(a) && d.system == Wrap(b) && d.iowait == Wrap(c) && d.idle == Wrap(e)
    requires d.steal == Wrap(f) && d.irq == Wrap(g) && d.softirq == Wrap(h)
    ensures Wrap(d.Sum()) == Wrap(a + b + c + e + f + g + h)
  {
    hide Wrap;
    WrapSmall(d.user);
    WrapFold(d.user, a, b);
    WrapFold(d.user + d.system, a + b, c);
    WrapFold(d.user + d.system + d.iowait, a + b + c, e);
    WrapFold(d.user + d.system + d.iowait + d.idle, a + b + c + e, f);
    WrapFold(d.user + d.system + d.iowait + d.idle + d.steal, a + b + c + e + f, g);
    WrapFold(d.user + d.system + d.iowait + d.idle + d.steal + d.irq, a + b + c + e + f + g, h);
  }

  lemma {:induction false} PctSum(a: int, b: int, c: int, d: int, e: int, f: int, g: int, n: int)
    requires n != 0
    ensures Pct(a, n) + Pct(b, n) + Pct(c, n) + Pct(d, n) + Pct(e, n) + Pct(f, n) + Pct(g, n)
            == Pct(a + b + c + d + e + f + g, n)
  {}

  lemma {:induction false} PctIs100(x: int, n: int)
    requires n > 0
    ensures Pct(x, n) == 100.0 <==> x == n
    ensures 0 <= x <= n ==> 0.0 <= Pct(x, n) <= 100.0
  {}

  /** For any two samples: the percentages add up to exactly 100 if and only if some
      time passed modulo 2^64 and the seven observed increments do not overflow. */
  lemma {:induction false} SumIs100Iff(before: Times, after: Times)
    ensures ComputeDelta(before, after).Sum() == 100.0 <==> 0 < Observed(before, after).Sum() < WORD
  {
    hide Observed, Times.Total, Pct, Sub, ComputeDelta;
    hide Percentages.Sum, Deltas.Sum;
    var d := Observed(before, after);
    TotalDelta(before, after);
    var total := Sub(after.Total(), before.Total());
    if total == 0 {
      IdleSample(before, after);
    } else {
      SumFormula(before, after);
      PctIs100(d.Sum(), total);
    }
  }

  /** A counter that goes back: idle falls by 5 while user rises by 10, and idle is reported as
      about 2^64 / 5 hundred per cent. */
  lemma {:induction false} CounterGoesBack()
    ensures var before := Times(0, 0, 0, 5, 0, 0, 0, 0);
            var after := Times(10, 0, 0, 0, 0, 0, 0, 0);
            && ComputeDelta(before, after).user == 200.0
            && ComputeDelta(before, after).idle == (WORD - 5) as real * 20.0
            && ComputeDelta(before, after).Sum() != 100.0
  {
    var before := Times(0, 0, 0, 5, 0, 0, 0, 0);
    var after := Times(10, 0, 0, 0, 0, 0, 0, 0);
    assert Observed(before, after) == Deltas(10, 0, 0, WORD - 5, 0, 0, 0);
    SumIs100Iff(before, after);
  }

  lemma {:induction false} IdleSample(before: Times, after: Times)
    requires Sub(after.Total(), before.Total()) == 0
    ensures ComputeDelta(before, after).Sum() == 0.0
  {}

  lemma {:induction false} SumFormula(before: Times, after: Times)
    requires Sub(after.Total(), before.Total()) != 0
    ensures ComputeDelta(before, after).Sum() == Pct(Observed(before, after).Sum(), Sub(after.Total(), before.Total()))
  {
    hide Pct, Times.Total, Sub;
    var d := Observed(before, after);
    PctSum(d.user, d.system, d.iowait, d.idle, d.steal, d.irq, d.softirq, Sub(after.Total(), before.Total()));
  }

  /** True increments of the eight counters, which may wrap. */
  datatype Increments = Increments(user: nat, nice: nat, system: nat, idle: nat, iowait: nat, irq: nat, softirq: nat, steal: nat) {
    function Sum(): nat { user + nice + system + idle + iowait + irq + softirq + steal }
  }

  function Advance(t: Times, inc: Increments): Times {
    Times(Add(t.user, inc.user), Add(t.nice, inc.nice), Add(t.system, inc.system), Add(t.idle, inc.idle),
          Add(t.iowait, inc.iowait), Add(t.irq, inc.irq), Add(t.softirq, inc.softirq), Add(t.steal, inc.steal))
  }

  lemma {:induction false} SubAdd(b: U64, d: nat)
    requires d < WORD
    ensures Sub(Add(b, d), b) == d
  {}

  /** The code sees the true increments as long as they add up to less than 2^64. */
  lemma {:induction false} ObservedIsTrue(t: Times, inc: Increments)
    requires inc.Sum() < WORD
    ensures Observed(t, Advance(t, inc)) ==
            Deltas(inc.user + inc.nice, inc.system, inc.iowait, inc.idle, inc.steal, inc.irq, inc.softirq)
  {
    hide Wrap, Sub;
    SubAdd(t.system, inc.system);
    SubAdd(t.idle, inc.idle);
    SubAdd(t.iowait, inc.iowait);
    SubAdd(t.irq, inc.irq);
    SubAdd(t.softirq, inc.softirq);
    SubAdd(t.steal, inc.steal);
    UserDelta(t, Advance(t, inc));
    var a: int := -(t.user as int) - t.nice;
    WrapFold(a, a, t.user + inc.user);
    WrapFold(a + Wrap(t.user + inc.user), inc.user - t.nice, t.nice + inc.nice);
    WrapSmall(inc.user + inc.nice);
  }

  /** Even when counters or their total wrap, a true increment below 2^64 gives seven
      percentages between 0 and 100 that add up to exactly 100. */
  lemma {:induction false} PercentagesUnderWrap(t: Times, inc: Increments)
    requires 0 < inc.Sum() < WORD
    ensures var p := ComputeDelta(t, Advance(t, inc));
            && p.Sum() == 100.0
            && p.user == Pct(inc.user + inc.nice, inc.Sum()) && p.system == Pct(inc.system, inc.Sum())
            && p.iowait == Pct(inc.iowait, inc.Sum()) && p.idle == Pct(inc.idle, inc.Sum())
            && p.steal == Pct(inc.steal, inc.Sum()) && p.irq == Pct(inc.irq, inc.Sum())
            && p.softirq == Pct(inc.softirq, inc.Sum())
            && 0.0 <= p.user <= 100.0 && 0.0 <= p.system <= 100.0 && 0.0 <= p.iowait <= 100.0
            && 0.0 <= p.idle <= 100.0 && 0.0 <= p.steal <= 100.0 && 0.0 <= p.irq <= 100.0
            && 0.0 <= p.softirq <= 100.0
  {
    hide Pct, Advance, Observed, Times.Total, Wrap, Sub;
    var after := Advance(t, inc);
    ObservedIsTrue(t, inc);
    TotalDelta(t, after);
    SumIs100Iff(t, after);
    var n := inc.Sum();
    WrapSmall(n);
    assert Sub(after.Total(), t.Total()) == n;
    PctIs100(inc.user + inc.nice, n);
    PctIs100(inc.system, n);
    PctIs100(inc.iowait, n);
    PctIs100(inc.idle, n);
    PctIs100(inc.steal, n);
    PctIs100(inc.irq, n);
    PctIs100(inc.softirq, n);
  }

  // ---------------------------------------------------------------------
  // Per-CPU output

  datatype PerCPU = PerCPU(cpu: int, user: real, system: real, iowait: real, idle: real)

  /** CPUs present in both samples whose counters moved. */
  function Moved(before: map<int, Times>, after: map<int, Times>): set<int> {
    set c | c in after && c in before && Sub(after[c].Total(), before[c].Total()) != 0
  }

  function Row(before: map<int, Times>, after: map<int, Times>, c: int): PerCPU
    requires c in Moved(before, after)
  {
    var p := ComputeDelta(before[c], after[c]);
    PerCPU(c, p.user, p.system, p.iowait, p.idle)
  }

  lemma {:induction false} SortedDistinct(keys: seq<int>, sorted: seq<int>)
    requires Distinct(keys) && SortedPermutation(sorted, keys, IntLeq())
    ensures forall i, j :: 0 <= i < j < |sorted| ==> sorted[i] < sorted[j]
    ensures forall x :: x in sorted <==> x in keys
  {
    DistinctPermutation(keys, sorted);
    forall x ensures x in sorted <==> x in keys { PermutationMember(sorted, keys, x); }
    forall i, j | 0 <= i < j < |sorted| ensures sorted[i] < sorted[j] {
      assert IntLeq()(sorted[i], sorted[j]);
    }
  }

  function Rows(before: map<int, Times>, after: map<int, Times>, nums: seq<int>): seq<PerCPU> {
    if nums == [] then []
    else
      var c := nums[|nums| - 1];
      Rows(before, after, nums[..|nums| - 1]) + (if c in Moved(before, after) then [Row(before, after, c)] else [])
  }

  ghost predicate HasRow(rows: seq<PerCPU>, c: int) { exists i :: 0 <= i < |rows| && rows[i].cpu == c }

  /** One row for each of the CPUs in `moved`, in the order given. */
  ghost predicate Covers(rows: seq<PerCPU>, moved: set<int>, nums: seq<int>) {
    && (forall i, j :: 0 <= i < j < |rows| ==> rows[i].cpu < rows[j].cpu)
    && (forall i :: 0 <= i < |rows| ==> rows[i].cpu in nums && rows[i].cpu in moved)
    && (forall c :: c in nums && c in moved ==> HasRow(rows, c))
  }

  lemma {:induction false} RowsCover(before: map<int, Times>, after: map<int, Times>, nums: seq<int>)
    requires forall i, j :: 0 <= i < j < |nums| ==> nums[i] < nums[j]
    ensures Covers(Rows(before, after, nums), Moved(before, after), nums)
  {
    hide Row, Moved, Covers;
    if nums == [] {
      CoverNone(Moved(before, after));
    } else {
      var n := |nums| - 1;
      RowsCover(before, after, nums[..n]);
      var prior, top := Rows(before, after, nums[..n]), nums[n];
      if top in Moved(before, after) {
        RowNames(before, after, top);
        CoverMoved(prior, Row(before, after, top), Moved(before, after), nums);
      } else {
        assert prior + [] == prior;
        CoverUnmoved(prior, Moved(before, after), nums);
      }
    }
  }

  lemma {:induction false} CoverNone(moved: set<int>)
    ensures Covers([], moved, [])
  {}

  lemma {:induction false} CoverUnmoved(prior: seq<PerCPU>, moved: set<int>, nums: seq<int>)
    requires nums != [] && Covers(prior, moved, nums[..|nums| - 1]) && nums[|nums| - 1] !in moved
    ensures Covers(prior, moved, nums)
  {}

  lemma {:induction false} CoverMoved(prior: seq<PerCPU>, row: PerCPU, moved: set<int>, nums: seq<int>)
    requires nums != [] && Covers(prior, moved, nums[..|nums| - 1])
    requires forall i, j :: 0 <= i < j < |nums| ==> nums[i] < nums[j]
    requires row.cpu == nums[|nums| - 1] && row.cpu in moved
    ensures Covers(prior + [row], moved, nums)
  {
    var n := |nums| - 1;
    var rows := prior + [row];
    forall i | 0 <= i < |prior| ensures rows[i].cpu in nums && rows[i].cpu < row.cpu {
      assert prior[i].cpu in nums[..n];
    }
    forall c | c in nums && c in moved ensures HasRow(rows, c) {
      if c == row.cpu {
        assert rows[|prior|].cpu == c;
      } else {
        assert c in nums[..n] && HasRow(prior, c);
        var i :| 0 <= i < |prior| && prior[i].cpu == c;
        assert rows[i].cpu == c;
      }
    }
  }

  /** Each row is the one computed for its own CPU. */
  lemma {:induction false} RowsOwn(before: map<int, Times>, after: map<int, Times>, nums: seq<int>, i: nat)
    requires i < |Rows(before, after, nums)|
    ensures var r := Rows(before, after, nums)[i]; r.cpu in Moved(before, after) && r == Row(before, after, r.cpu)
    decreases |nums|
  {
    hide Row, Moved;
    var n := |nums| - 1;
    var prior := Rows(before, after, nums[..n]);
    if i < |prior| {
      RowsOwn(before, after, nums[..n], i);
    } else {
      RowNames(before, after, nums[n]);
    }
  }

  lemma {:induction false} RowNames(before: map<int, Times>, after: map<int, Times>, c: int)
    requires c in Moved(before, after)
    ensures Row(before, after, c).cpu == c
  {}

  /** computePerCPUDeltas: strictly ascending, and exactly the CPUs that moved. */
  method ComputePerCPUDeltas(before: map<int, Times>, after: map<int, Times>) returns (result: seq<PerCPU>)
    ensures forall i, j :: 0 <= i < j < |result| ==> result[i].cpu < result[j].cpu
    ensures forall c :: c in Moved(before, after) ==> HasRow(result, c)
    ensures forall i :: 0 <= i < |result| ==>
              result[i].cpu in Moved(before, after) && result[i] == Row(before, after, result[i].cpu)
  {
    hide Sub, Times.Total, ComputeDelta, HasRow;
    var keys := Enumerate(after.Keys);
    var nums := SortSlice(keys, IntLeq());
    SortedDistinct(keys, nums);
    result := [];
    for i := 0 to |nums|
      invariant result == Rows(before, after, nums[..i])
    {
      var c := nums[i];
      assert nums[..i + 1][..i] == nums[..i];
      if c in before {
        if Sub(after[c].Total(), before[c].Total()) != 0 {
          result := result + [Row(before, after, c)];
        }
      }
    }
    assert nums[..|nums|] == nums;
    hide Rows, Row;
    RowsCover(before, after, nums);
    forall i | 0 <= i < |result|
      ensures result[i].cpu in Moved(before, after) && result[i] == Row(before, after, result[i].cpu)
    {
      RowsOwn(before, after, nums, i);
    }
    forall c | c in Moved(before, after) ensures HasRow(result, c) {
      assert c in nums;
    }
  }

  /** A row in the true increments of its CPU, wherever the counters wrapped: present if and only if
      something was counted, and then the shares of user and nice together, system, iowait and idle. */
  lemma {:induction false} RowInNumbers(before: map<int, Times>, after: map<int, Times>, c: int, inc: Increments)
    requires c in before && c in after && after[c] == Advance(before[c], inc) && inc.Sum() < WORD
    ensures c in Moved(before, after) <==> inc.Sum() > 0
    ensures c in Moved(before, after) ==>
              var r, n := Row(before, after, c), inc.Sum() as real;
              && r.cpu == c
              && r.user * n == (100 * (inc.user + inc.nice)) as real && r.system * n == (100 * inc.system) as real
              && r.iowait * n == (100 * inc.iowait) as real && r.idle * n == (100 * inc.idle) as real
  {
    hide Times.Total, Advance, Wrap, Sub, Pct, Observed, ComputeDelta, Increments.Sum;
    var n := inc.Sum();
    TrueTotal(before[c], inc);
    if n > 0 {
      PercentagesUnderWrap(before[c], inc);
      PctTimes(inc.user + inc.nice, n);
      PctTimes(inc.system, n);
      PctTimes(inc.iowait, n);
      PctTimes(inc.idle, n);
    }
  }

  lemma {:induction false} TrueTotal(t: Times, inc: Increments)
    requires inc.Sum() < WORD
    ensures Sub(Advance(t, inc).Total(), t.Total()) == inc.Sum()
  {
    hide Times.Total, Advance, Wrap, Sub, Observed;
    ObservedIsTrue(t, inc);
    TotalDelta(t, Advance(t, inc));
    WrapSmall(inc.Sum());
  }

  lemma {:induction false} PctTimes(part: int, total: int)
    requires total > 0
    ensures Pct(part, total) * total as real == (100 * part) as real
  {
    var q := part as real / total as real;
    assert q * total as real == part as real;
  }
}
