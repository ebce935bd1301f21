/** internal/collector/process.go: filtering the processes and choosing the top twenty by CPU
    and by memory with two in-place sorts of one slice. */
module TopLists {
  import opened Seqs
  import opened ProcStat
  import CpuTimes

  datatype ProcessInfo = ProcessInfo(
    pid: int, comm: string, cpuPct: real, memRSS: int, memPct: real, threads: int, state: string)

  /** The sampling interval, and the memory and page size of the host. */
  datatype Host = Host(seconds: real, totalMem: int, pageSize: int)

  /** What Collect is asked to leave out. */
  datatype Filter = Filter(own: set<int>, targets: seq<int>, cgroups: bool, inCgroups: int -> bool)

  const TOP: nat := 20

  predicate Listed(f: Filter, pid: int) {
    pid !in f.own && (f.targets != [] ==> pid in f.targets) && (f.cgroups ==> f.inCgroups(pid))
  }

  /** CPU per cent over the sampling interval; tick counters are uint64. */
  function CpuPct(before: map<int, Stat>, after: Stat, pid: int, host: Host): real
    requires host.seconds != 0.0
  {
    if pid in before then
      CpuTimes.Sub(CpuTimes.Add(after.utime, after.stime), CpuTimes.Add(before[pid].utime, before[pid].stime)) as real
      / 100.0 / host.seconds * 100.0
    else 0.0
  }

  function MemPct(after: Stat, host: Host): real {
    if host.totalMem > 0 then (after.rss * host.pageSize) as real / host.totalMem as real * 100.0 else 0.0
  }

  function Info(before: map<int, Stat>, after: Stat, pid: int, host: Host): ProcessInfo
    requires host.seconds != 0.0
  {
    ProcessInfo(pid, after.comm, CpuPct(before, after, pid, host), after.rss * 4096, MemPct(after, host), after.threads,
                after.state)
  }

  /** One entry for every listed process of the second sample. */
  function Entries(order: seq<int>, before: map<int, Stat>, after: map<int, Stat>, f: Filter, host: Host): seq<ProcessInfo>
    requires host.seconds != 0.0 && forall p :: p in order ==> p in after
  {
    if order == [] then []
    else
      var p := order[|order| - 1];
      Entries(order[..|order| - 1], before, after, f, host) +
      (if Listed(f, p) then [Info(before, after[p], p, host)] else [])
  }

  function ByCpu(): (ProcessInfo, ProcessInfo) -> bool { (x: ProcessInfo, y: ProcessInfo) => x.cpuPct >= y.cpuPct }
  function ByMem(): (ProcessInfo, ProcessInfo) -> bool { (x: ProcessInfo, y: ProcessInfo) => x.memRSS >= y.memRSS }

  /** `top` holds the `n` first of `all` under the order: sorted, part of it, and nothing left
      out comes before anything kept. */
  ghost predicate IsTop(top: seq<ProcessInfo>, all: seq<ProcessInfo>, n: nat, leq: (ProcessInfo, ProcessInfo) -> bool) {
    && |top| == (if |all| < n then |all| else n)
    && SortedBy(top, leq)
    && exists rest :: LeavesOut(top, rest, all, leq)
  }

  ghost predicate LeavesOut(
    top: seq<ProcessInfo>, rest: seq<ProcessInfo>, all: seq<ProcessInfo>, leq: (ProcessInfo, ProcessInfo) -> bool)
  {
    && Permutation(top + rest, all)
    && forall i, j :: 0 <= i < |top| && 0 <= j < |rest| ==> leq(top[i], rest[j])
  }

  lemma {:induction false} PrefixIsTop(s: seq<ProcessInfo>, all: seq<ProcessInfo>, n: nat, leq: (ProcessInfo, ProcessInfo) -> bool)
    requires SortedPermutation(s, all, leq)
    ensures var k := if |s| < n then |s| else n; IsTop(s[..k], all, n, leq)
  {
    PermutationLength(s, all);
    var k := if |s| < n then |s| else n;
    assert s == s[..k] + s[k..];
    assert LeavesOut(s[..k], s[k..], all, leq);
  }

  /** The two lists are the top of one and the same list of processes, visited in `order`. */
  ghost predicate BothTop(cpu: seq<ProcessInfo>, mem: seq<ProcessInfo>, order: seq<int>,
                          before: map<int, Stat>, after: map<int, Stat>, f: Filter, host: Host)
    requires host.seconds != 0.0
  {
    && Enumerates(order, after.Keys)
    && IsTop(cpu, Entries(order, before, after, f, host), TOP, ByCpu())
    && IsTop(mem, Entries(order, before, after, f, host), TOP, ByMem())
  }

  /** How many of the processes are in one of these states. */
  ghost function InState(order: seq<int>, after: map<int, Stat>, states: set<string>): nat {
    Count(order, p => p in after && after[p].state in states)
  }

  const RUNNING: set<string> := {"R"}
  const SLEEPING: set<string> := {"S", "D"}
  const ZOMBIE: set<string> := {"Z"}

  lemma {:induction false} InStateGrows(order: seq<int>, i: nat, after: map<int, Stat>, states: set<string>)
    requires i < |order| && order[i] in after
    ensures InState(order[..i + 1], after, states) ==
            InState(order[..i], after, states) + (if after[order[i]].state in states then 1 else 0)
  {
    assert order[..i + 1] == order[..i] + [order[i]];
    CountConcat(order[..i], [order[i]], p => p in after && after[p].state in states);
  }

  /** The counts do not depend on the order of the processes, and no process is counted twice. */
  lemma {:induction false} CountsMean(a: seq<int>, b: seq<int>, after: map<int, Stat>)
    requires Enumerates(a, after.Keys) && Enumerates(b, after.Keys)
    ensures forall states :: InState(a, after, states) == InState(b, after, states)
    ensures InState(a, after, RUNNING) + InState(a, after, SLEEPING) + InState(a, after, ZOMBIE) <= |a|
  {
    SameElements(a, b);
    forall states ensures InState(a, after, states) == InState(b, after, states) {
      CountPermutation(a, b, p => p in after && after[p].state in states);
    }
    assert forall i :: 0 <= i < |a| ==> a[i] in a;
    StatesApart(a, after);
  }

  lemma {:induction false} StatesApart(order: seq<int>, after: map<int, Stat>)
    requires forall i :: 0 <= i < |order| ==> order[i] in after
    ensures InState(order, after, RUNNING) + InState(order, after, SLEEPING) + InState(order, after, ZOMBIE) <= |order|
  {
    hide InState;
    if order != [] {
      var n := |order| - 1;
      StatesApart(order[..n], after);
      assert order[..n + 1] == order;
      InStateGrows(order, n, after, RUNNING);
      InStateGrows(order, n, after, SLEEPING);
      InStateGrows(order, n, after, ZOMBIE);
    } else {
      NoneInState(after);
    }
  }

  lemma {:induction false} NoneInState(after: map<int, Stat>)
    ensures forall states :: InState([], after, states) == 0
  {}

  /** What Collect counts over all processes, its own included. */
  datatype Totals = Totals(total: nat, running: nat, sleeping: nat, zombie: nat)

  ghost function TotalsOf(order: seq<int>, after: map<int, Stat>): Totals {
    Totals(|order|, InState(order, after, RUNNING), InState(order, after, SLEEPING), InState(order, after, ZOMBIE))
  }

  /** Everything Collect decides about the process lists. */
  method Collect(before: map<int, Stat>, after: map<int, Stat>, f: Filter, host: Host)
    returns (topCPU: array<ProcessInfo>, topMem: array<ProcessInfo>, totals: Totals, excluded: seq<int>)
    requires host.seconds != 0.0
    ensures exists order :: BothTop(topCPU[..], topMem[..], order, before, after, f, host) &&
              totals == TotalsOf(order, after)
    ensures forall i, j :: 0 <= i < j < topCPU.Length ==> topCPU[i].cpuPct >= topCPU[j].cpuPct
    ensures forall i, j :: 0 <= i < j < topMem.Length ==> topMem[i].memRSS >= topMem[j].memRSS
    ensures Distinct(excluded) && forall p :: p in excluded <==> p in after && p in f.own
  {
    hide IsTop, SortedPermutation, Info, InState;
    var pids := Enumerate(after.Keys);
    var list: seq<ProcessInfo> := [];
    totals, excluded := Totals(0, 0, 0, 0), [];
    NoneInState(after);
    assert pids[..0] == [];
    for i := 0 to |pids|
      invariant totals == TotalsOf(pids[..i], after)
      invariant list == Entries(pids[..i], before, after, f, host)
      invariant Distinct(excluded)
      invariant forall p :: p in excluded <==> p in pids[..i] && p in f.own
    {
      var pid := pids[i];
      assert pids[..i + 1][..i] == pids[..i];
      assert forall p :: p in pids[..i + 1] <==> p in pids[..i] || p == pid;
      InStateGrows(pids, i, after, RUNNING);
      InStateGrows(pids, i, after, SLEEPING);
      InStateGrows(pids, i, after, ZOMBIE);
      totals := totals.(total := totals.total + 1);
      match after[pid].state {
        case "R" => totals := totals.(running := totals.running + 1);
        case "S" => totals := totals.(sleeping := totals.sleeping + 1);
        case "D" => totals := totals.(sleeping := totals.sleeping + 1);
        case "Z" => totals := totals.(zombie := totals.zombie + 1);
        case _ =>
      }
      if pid in f.own {
        assert pid !in pids[..i];
        excluded := excluded + [pid];
      } else if Listed(f, pid) {
        list := list + [Info(before, after[pid], pid, host)];
      }
    }
    assert pids[..|pids|] == pids;
    topCPU, topMem := TopBoth(list);
    assert BothTop(topCPU[..], topMem[..], pids, before, after, f, host);
  }

  lemma {:induction false} TopsDescend(cpu: seq<ProcessInfo>, mem: seq<ProcessInfo>, all: seq<ProcessInfo>)
    requires IsTop(cpu, all, TOP, ByCpu()) && IsTop(mem, all, TOP, ByMem())
    ensures forall i, j :: 0 <= i < j < |cpu| ==> cpu[i].cpuPct >= cpu[j].cpuPct
    ensures forall i, j :: 0 <= i < j < |mem| ==> mem[i].memRSS >= mem[j].memRSS
  {
    assert forall i, j :: 0 <= i < j < |cpu| ==> ByCpu()(cpu[i], cpu[j]);
    assert forall i, j :: 0 <= i < j < |mem| ==> ByMem()(mem[i], mem[j]);
  }

  /** Sort by CPU, copy, sort the same slice by memory, copy.  The second sort cannot disturb
      the first list, which is a copy. */
  method TopBoth(list: seq<ProcessInfo>) returns (topCPU: array<ProcessInfo>, topMem: array<ProcessInfo>)
    ensures IsTop(topCPU[..], list, TOP, ByCpu())
    ensures IsTop(topMem[..], list, TOP, ByMem())
    ensures forall i, j :: 0 <= i < j < topCPU.Length ==> topCPU[i].cpuPct >= topCPU[j].cpuPct
    ensures forall i, j :: 0 <= i < j < topMem.Length ==> topMem[i].memRSS >= topMem[j].memRSS
  {
    hide IsTop, SortedBy;
    var processes := new ProcessInfo[|list|](i requires 0 <= i < |list| => list[i]);
    assert processes[..] == list;
    SortInPlace(processes, ByCpu());
    topCPU := CopyTop(processes, ByCpu(), list);
    SortInPlace(processes, ByMem());
    topMem := CopyTop(processes, ByMem(), list);
    TopsDescend(topCPU[..], topMem[..], list);
  }

  method CopyTop(processes: array<ProcessInfo>, ghost leq: (ProcessInfo, ProcessInfo) -> bool, ghost all: seq<ProcessInfo>)
    returns (top: array<ProcessInfo>)
    requires SortedPermutation(processes[..], all, leq)
    ensures fresh(top) && IsTop(top[..], all, TOP, leq)
  {
    hide IsTop, SortedPermutation;
    var s := processes[..];
    var n := if |s| < TOP then |s| else TOP;
    top := new ProcessInfo[n](i requires 0 <= i < n => s[i]);
    assert top[..] == s[..n];
    PrefixIsTop(s, all, TOP, leq);
  }

  // ---------------------------------------------------------------------
  // Who is in the lists

  lemma {:induction false} EntriesListed(order: seq<int>, before: map<int, Stat>, after: map<int, Stat>, f: Filter, host: Host)
    requires host.seconds != 0.0 && forall p :: p in order ==> p in after
    ensures forall i :: 0 <= i < |Entries(order, before, after, f, host)| ==>
              var e := Entries(order, before, after, f, host)[i];
              e.pid in order && Listed(f, e.pid) && e == Info(before, after[e.pid], e.pid, host)
    ensures forall p :: p in order && Listed(f, p) ==> Info(before, after[p], p, host) in Entries(order, before, after, f, host)
  {
    hide Listed, CpuPct;
    if order != [] {
      var n := |order| - 1;
      EntriesListed(order[..n], before, after, f, host);
      assert forall p :: p in order <==> p in order[..n] || p == order[n];
    }
  }

  /** No process of the tool itself, and none that was filtered out, is in a top list. */
  lemma {:induction false} TopExcludesOwn(
    top: seq<ProcessInfo>, order: seq<int>, before: map<int, Stat>, after: map<int, Stat>, f: Filter, host: Host,
    n: nat, leq: (ProcessInfo, ProcessInfo) -> bool, i: nat)
    requires host.seconds != 0.0 && (forall p :: p in order ==> p in after) && i < |top|
    requires IsTop(top, Entries(order, before, after, f, host), n, leq)
    ensures top[i].pid !in f.own && Listed(f, top[i].pid) && top[i].pid in after
    ensures top[i] == Info(before, after[top[i].pid], top[i].pid, host)
  {
    hide Entries, Info;
    var all := Entries(order, before, after, f, host);
    var rest :| LeavesOut(top, rest, all, leq);
    assert (top + rest)[i] == top[i];
    PermutationMember(top + rest, all, top[i]);
    EntriesListed(order, before, after, f, host);
  }

  // ---------------------------------------------------------------------
  // What an entry says

  /** The entry of a process in the raw numbers of its two samples: its name, threads and state; the
      ticks its counters went on by, wherever they wrapped, over the seconds between the samples, or
      zero for a process that was not there before; and its pages as bytes and in per cent. */
  ghost predicate Describes(e: ProcessInfo, before: map<int, Stat>, after: Stat, pid: int, host: Host) {
    && e.pid == pid && e.comm == after.comm && e.threads == after.threads && e.state == after.state
    && e.memRSS == 4096 * after.rss
    && (if host.totalMem > 0 then e.memPct * host.totalMem as real == (100 * after.rss * host.pageSize) as real
        else e.memPct == 0.0)
    && (if pid in before
        then exists ticks :: Advanced(before[pid], after, ticks) &&
               e.cpuPct * host.seconds == ticks as real
        else e.cpuPct == 0.0)
  }

  /** User and system time together went on by this many ticks, as 64-bit counters see it. */
  ghost predicate Advanced(x: Stat, y: Stat, ticks: int) {
    0 <= ticks < 0x1_0000_0000_0000_0000 &&
    (y.utime + y.stime - x.utime - x.stime - ticks) % 0x1_0000_0000_0000_0000 == 0
  }

  lemma {:induction false} InfoDescribes(before: map<int, Stat>, after: Stat, pid: int, host: Host)
    requires host.seconds != 0.0
    ensures Describes(Info(before, after, pid, host), before, after, pid, host)
  {
    MemoryShare(after.rss * host.pageSize, host.totalMem);
    if pid in before {
      var ticks := CpuTimes.Sub(CpuTimes.Add(after.utime, after.stime), CpuTimes.Add(before[pid].utime, before[pid].stime));
      WrappedTicks(before[pid], after);
      assert Advanced(before[pid], after, ticks);
      Undivided(ticks as real, host.seconds);
    }
  }

  lemma {:induction false} WrappedTicks(x: Stat, y: Stat)
    ensures Advanced(x, y, CpuTimes.Sub(CpuTimes.Add(y.utime, y.stime), CpuTimes.Add(x.utime, x.stime)))
  {}

  lemma {:induction false} Undivided(ticks: real, seconds: real)
    requires seconds != 0.0
    ensures ticks / 100.0 / seconds * 100.0 * seconds == ticks
  {
    var q := ticks / 100.0 / seconds;
    assert q * seconds == ticks / 100.0;
  }

  lemma {:induction false} MemoryShare(bytes: int, total: int)
    ensures total > 0 ==> bytes as real / total as real * 100.0 * total as real == (100 * bytes) as real
  {
    if total > 0 {
      var q := bytes as real / total as real;
      assert q * total as real == bytes as real;
    }
  }

  /** A process the lists may show: not one of the tool's own, among the targets if there are any,
      and in one of the groups if there are any. */
  ghost predicate Shown(f: Filter, pid: int) {
    pid !in f.own && (f.targets == [] || pid in f.targets) && (!f.cgroups || f.inCgroups(pid))
  }

  ghost predicate PidsDistinct(es: seq<ProcessInfo>) { forall i, j :: 0 <= i < j < |es| ==> es[i].pid != es[j].pid }

  lemma {:induction false} EntriesDistinct(order: seq<int>, before: map<int, Stat>, after: map<int, Stat>, f: Filter, host: Host)
    requires host.seconds != 0.0 && (forall p :: p in order ==> p in after) && Distinct(order)
    ensures PidsDistinct(Entries(order, before, after, f, host))
  {
    hide Listed, CpuPct, MemPct;
    if order != [] {
      var n := |order| - 1;
      EntriesDistinct(order[..n], before, after, f, host);
      EntriesListed(order[..n], before, after, f, host);
      assert order[n] !in order[..n];
      var front, es := Entries(order[..n], before, after, f, host), Entries(order, before, after, f, host);
      hide Info;
      InfoPid(before, after[order[n]], order[n], host);
      assert es == front || es == front + [Info(before, after[order[n]], order[n], host)];
      forall i, j | 0 <= i < j < |es| ensures es[i].pid != es[j].pid {
        assert es[i] == front[i] && front[i].pid in order[..n];
        if j < |front| {
          assert es[j] == front[j] && front[i].pid != front[j].pid;
        } else {
          assert es[j].pid == order[n] && es[i].pid in order[..n];
        }
      }
    }
  }

  /** What a top list is, process by process: its entries describe different processes the filters
      let through, no more than twenty of them; and a process they let through that is not listed
      comes after all twenty. */
  lemma {:induction false} TopMeans(
    top: seq<ProcessInfo>, order: seq<int>, before: map<int, Stat>, after: map<int, Stat>, f: Filter, host: Host,
    leq: (ProcessInfo, ProcessInfo) -> bool)
    requires host.seconds != 0.0 && Enumerates(order, after.Keys)
    requires IsTop(top, Entries(order, before, after, f, host), TOP, leq)
    ensures |top| <= 20
    ensures forall i :: 0 <= i < |top| ==>
              top[i].pid in after && Shown(f, top[i].pid) && Describes(top[i], before, after[top[i].pid], top[i].pid, host)
    ensures PidsDistinct(top)
    ensures forall pid :: pid in after && Shown(f, pid) ==>
              (exists i :: 0 <= i < |top| && top[i].pid == pid) || Beaten(top, before, after[pid], pid, host, leq)
  {
    hide Entries, Describes, Info;
    var all := Entries(order, before, after, f, host);
    EntriesListed(order, before, after, f, host);
    EntriesDistinct(order, before, after, f, host);
    forall i | 0 <= i < |top|
      ensures top[i].pid in after && Shown(f, top[i].pid) && Describes(top[i], before, after[top[i].pid], top[i].pid, host)
    {
      TopExcludesOwn(top, order, before, after, f, host, TOP, leq, i);
      InfoDescribes(before, after[top[i].pid], top[i].pid, host);
    }
    var rest :| LeavesOut(top, rest, all, leq);
    PidsApart(top, rest, all);
    forall pid | pid in after && Shown(f, pid) && !exists i :: 0 <= i < |top| && top[i].pid == pid
      ensures Beaten(top, before, after[pid], pid, host, leq)
    {
      var e := Info(before, after[pid], pid, host);
      assert Listed(f, pid) && e in all;
      InfoDescribes(before, after[pid], pid, host);
      InfoPid(before, after[pid], pid, host);
      PermutationMember(top + rest, all, e);
      assert e !in top;
      var j :| 0 <= j < |rest| && rest[j] == e;
      PermutationLength(top + rest, all);
    }
  }

  lemma {:induction false} InfoPid(before: map<int, Stat>, after: Stat, pid: int, host: Host)
    requires host.seconds != 0.0
    ensures Info(before, after, pid, host).pid == pid
  {}

  lemma {:induction false} PidsApart(top: seq<ProcessInfo>, rest: seq<ProcessInfo>, all: seq<ProcessInfo>)
    requires Permutation(top + rest, all) && PidsDistinct(all)
    ensures PidsDistinct(top)
  {
    assert Distinct(all);
    DistinctPermutation(all, top + rest);
    forall i, j | 0 <= i < j < |top| ensures top[i].pid != top[j].pid {
      assert (top + rest)[i] == top[i] && (top + rest)[j] == top[j];
      PermutationMember(top + rest, all, top[i]);
      PermutationMember(top + rest, all, top[j]);
    }
  }

  /** Twenty processes come before this one. */
  ghost predicate Beaten(top: seq<ProcessInfo>, before: map<int, Stat>, after: Stat, pid: int, host: Host,
                         leq: (ProcessInfo, ProcessInfo) -> bool) {
    |top| == 20 && exists e :: Describes(e, before, after, pid, host) && forall i :: 0 <= i < |top| ==> leq(top[i], e)
  }

  /** In particular: who is not listed by CPU has used no more of it than anyone listed, and who is
      not listed by memory holds no more. */
  lemma {:induction false} NotListedUsesLess(
    cpu: seq<ProcessInfo>, mem: seq<ProcessInfo>, order: seq<int>, before: map<int, Stat>, after: map<int, Stat>,
    f: Filter, host: Host, pid: int)
    requires host.seconds != 0.0 && BothTop(cpu, mem, order, before, after, f, host) && pid in after && Shown(f, pid)
    ensures (forall i :: 0 <= i < |cpu| ==> cpu[i].pid != pid) ==>
              && |cpu| == 20
              && exists e :: Describes(e, before, after[pid], pid, host) && forall i :: 0 <= i < |cpu| ==> cpu[i].cpuPct >= e.cpuPct
    ensures (forall i :: 0 <= i < |mem| ==> mem[i].pid != pid) ==>
              |mem| == 20 && forall i :: 0 <= i < |mem| ==> mem[i].memRSS >= 4096 * after[pid].rss
  {
    hide Entries, IsTop;
    TopMeans(cpu, order, before, after, f, host, ByCpu());
    TopMeans(mem, order, before, after, f, host, ByMem());
    if forall i :: 0 <= i < |cpu| ==> cpu[i].pid != pid {
      var e :| Describes(e, before, after[pid], pid, host) && forall i :: 0 <= i < |cpu| ==> ByCpu()(cpu[i], e);
      assert forall i :: 0 <= i < |cpu| ==> ByCpu()(cpu[i], e);
    }
    if forall i :: 0 <= i < |mem| ==> mem[i].pid != pid {
      var e :| Describes(e, before, after[pid], pid, host) && forall i :: 0 <= i < |mem| ==> ByMem()(mem[i], e);
      assert forall i :: 0 <= i < |mem| ==> ByMem()(mem[i], e);
    }
  }
}
