/** internal/executor/executor.go: how long a cancelled run takes when every goroutine that can move
    does so within some latency.

    A clocked run remembers since when each goroutine has been able to make its next move.  Time may
    not pass beyond that moment plus the latency; with latency zero goroutines act at once. */
module BccLatency {
  import opened BccExecutor

  datatype Since = Since(waiter: int, watcher: int, main: int)
  datatype Clocked = Clocked(run: Run, since: Since)

  predicate WaiterReady(r: Run) {
    || (r.waiter == InWait && r.child == Dead)
    || (r.waiter.HasError? && r.done.None?)
    || r.waiter == Sent
  }

  predicate WatcherReady(r: Run) {
    match r.watcher
    case Selecting => r.context.Cancelled? || r.exited
    case Interrupting => true
    case Grace(deadline) => r.exited || r.now >= deadline
    case Killing => true
    case WatcherDone => false
  }

  predicate MainReady(r: Run) { r.main == Receiving && r.done.Some? }

  /** Time may pass only as far as the latency of every goroutine that is ready, or will be when
      its timer fires. */
  predicate ClockedEnabled(cfg: Setting, latency: nat, c: Clocked, m: Move) {
    && Enabled(cfg, c.run, m)
    && (m.Tick? ==>
          var later := c.run.now + m.span;
          && (WaiterReady(c.run) ==> later <= c.since.waiter + latency)
          && (MainReady(c.run) ==> later <= c.since.main + latency)
          && (WatcherReady(c.run) ==> later <= c.since.watcher + latency)
          && (c.run.watcher.Grace? ==> later <= c.run.watcher.deadline + latency))
  }

  /** When a goroutine that was not ready for its next move became so: now, or, if it was time that
      passed, when the timer fired. */
  function Became(m: Move, r': Run): int {
    if m.Tick? && r'.watcher.Grace? then r'.watcher.deadline else r'.now
  }

  function ClockedNext(cfg: Setting, c: Clocked, m: Move): Clocked
    requires Enabled(cfg, c.run, m)
  {
    var r, r' := c.run, Next(cfg, c.run, m);
    Clocked(r', Since(
      if WaiterReady(r) && r'.waiter == r.waiter then c.since.waiter else r'.now,
      if WatcherReady(r) && r'.watcher == r.watcher then c.since.watcher else Became(m, r'),
      if MainReady(r) && r'.main == r.main then c.since.main else r'.now))
  }

  /** By when a cancelled run has got as far as it has: `end` is the end of the grace period. */
  ghost predicate OnTime(latency: nat, c: Clocked)
    requires c.run.context.Cancelled?
  {
    var r, at := c.run, c.run.context.at;
    var end := at + GRACE;
    && (match r.watcher
        case Selecting => c.since.watcher <= at
        case Interrupting => r.child == Alive ==> c.since.watcher <= at + latency
        case Grace(deadline) =>
          r.child == Alive ==> deadline <= end + 2 * latency && (r.now >= deadline ==> c.since.watcher <= deadline)
        case Killing => r.child == Alive ==> c.since.watcher <= end + 3 * latency
        case WatcherDone => true)
    && (r.waiter == InWait && r.child == Dead ==> c.since.waiter <= end + 4 * latency)
    && (r.waiter.HasError? ==> c.since.waiter <= end + 5 * latency)
    && (r.done.Some? ==> c.since.main <= end + 6 * latency)
    && (r.main.Returned? && at <= r.main.at ==> r.main.at <= end + 7 * latency)
  }

  /** No goroutine has been ready for longer than the latency. */
  ghost predicate Punctual(latency: nat, c: Clocked) {
    var r := c.run;
    && (WaiterReady(r) ==> c.since.waiter <= r.now <= c.since.waiter + latency)
    && (WatcherReady(r) ==> c.since.watcher <= r.now <= c.since.watcher + latency)
    && (MainReady(r) ==> c.since.main <= r.now <= c.since.main + latency)
    && (r.main.Returned? ==> r.main.at <= r.now)
  }

  ghost predicate Timely(latency: nat, c: Clocked) {
    && Punctual(latency, c)
    && (c.run.watcher == WatcherDone ==> c.run.child != Alive)
    && (c.run.context.Cancelled? ==> OnTime(latency, c))
  }

  lemma {:induction false} StartTimely(latency: nat, now: int, context: Context)
    requires context.Cancelled? ==> context.at == now
    ensures Timely(latency, Clocked(Start(now, context), Since(now, now, now)))
  {}

  lemma {:induction false} NextTimely(cfg: Setting, latency: nat, c: Clocked, m: Move)
    requires cfg.killWorks && Inv(c.run) && Timely(latency, c) && ClockedEnabled(cfg, latency, c, m)
    ensures Timely(latency, ClockedNext(cfg, c, m))
  {
    NextPunctual(cfg, latency, c, m);
    if c.run.context.Cancelled? || m == CancelContext { NextOnTime(cfg, latency, c, m); }
    hide OnTime, Punctual;
  }

  lemma {:induction false} NextPunctual(cfg: Setting, latency: nat, c: Clocked, m: Move)
    requires Handshake(c.run) && Punctual(latency, c) && ClockedEnabled(cfg, latency, c, m)
    ensures Punctual(latency, ClockedNext(cfg, c, m))
  {}

  lemma {:induction false} NextOnTime(cfg: Setting, latency: nat, c: Clocked, m: Move)
    requires cfg.killWorks && Inv(c.run) && Timely(latency, c) && ClockedEnabled(cfg, latency, c, m)
    requires c.run.context.Cancelled? || m == CancelContext
    ensures OnTime(latency, ClockedNext(cfg, c, m))
  {
    if c.run.context.Cancelled? { AliveBound(latency, c); }
  }

  /** While the child is alive the watcher is at work, one latency to each of its moves. */
  lemma {:induction false} AliveBound(latency: nat, c: Clocked)
    requires Inv(c.run) && Timely(latency, c) && c.run.context.Cancelled?
    ensures c.run.child == Alive ==> c.run.now <= c.run.context.at + GRACE + 4 * latency
    ensures c.run.main == Receiving ==> c.run.now <= c.run.context.at + GRACE + 7 * latency
  {}

  /** Nothing holds up a cancelled run: some goroutine can move or the timer can advance, without
      waiting for the child to exit of its own accord, and at the bound some goroutine can. */
  lemma {:induction false} CancelledCanMove(cfg: Setting, latency: nat, c: Clocked) returns (m: Move)
    requires cfg.killWorks && Inv(c.run) && Timely(latency, c) && c.run.context.Cancelled? && c.run.main == Receiving
    ensures m != ChildExits && m != CancelContext && ClockedEnabled(cfg, latency, c, m)
    ensures c.run.now >= c.run.context.at + GRACE + 2 * latency ==> !m.Tick?
  {
    var r := c.run;
    m := if r.waiter == InWait && r.child == Dead then WaitReturns(NoError)
         else if r.waiter.HasError? then SendError
         else if r.done.Some? then Receive
         else if r.watcher == Selecting then SeesCancel
         else if r.watcher == Interrupting then SendInterrupt
         else if r.watcher == Killing then SendKill
         else if r.now >= r.watcher.deadline then GraceOver
         else Tick(r.watcher.deadline - r.now);
  }

  /** What a cancelled run has left: moves, and time. */
  function Remaining(latency: nat, r: Run): int
    requires r.context.Cancelled?
  {
    Fuel(r) + (r.context.at + GRACE + 7 * latency - r.now)
  }

  lemma {:induction false} RemainingShrinks(cfg: Setting, latency: nat, c: Clocked, m: Move)
    requires cfg.killWorks && Inv(c.run) && Timely(latency, c) && ClockedEnabled(cfg, latency, c, m)
    requires c.run.context.Cancelled? && c.run.main == Receiving
    ensures ClockedNext(cfg, c, m).run.context == c.run.context
    ensures Remaining(latency, ClockedNext(cfg, c, m).run) < Remaining(latency, c.run)
    ensures 0 <= Remaining(latency, c.run) <= 10 + GRACE + 7 * latency
  {
    hide Timely;
    AliveBound(latency, c);
  }

  // ---------------------------------------------------------------------
  // Whole runs

  ghost predicate IsClockedRun(cfg: Setting, latency: nat, cs: seq<Clocked>, moves: seq<Move>) {
    && |cs| == |moves| + 1
    && (exists now: int, context: Context ::
          (context.Cancelled? ==> context.at == now) && cs[0] == Clocked(Start(now, context), Since(now, now, now)))
    && forall k :: 0 <= k < |moves| ==>
         ClockedEnabled(cfg, latency, cs[k], moves[k]) && cs[k + 1] == ClockedNext(cfg, cs[k], moves[k])
  }

  lemma {:induction false} ClockedInv(cfg: Setting, latency: nat, cs: seq<Clocked>, moves: seq<Move>, k: nat)
    requires IsClockedRun(cfg, latency, cs, moves) && k < |cs| && cfg.killWorks
    ensures Inv(cs[k].run) && Timely(latency, cs[k])
  {
    hide Inv, Timely, Enabled, Next;
    if k == 0 {
      var now: int, context: Context :|
        (context.Cancelled? ==> context.at == now) && cs[0] == Clocked(Start(now, context), Since(now, now, now));
      StartInv(now, context);
      StartTimely(latency, now, context);
    } else {
      ClockedInv(cfg, latency, cs, moves, k - 1);
      assert ClockedEnabled(cfg, latency, cs[k - 1], moves[k - 1]) && cs[k - 1 + 1] == ClockedNext(cfg, cs[k - 1], moves[k - 1]);
      NextInv(cfg, cs[k - 1].run, moves[k - 1]);
      NextTimely(cfg, latency, cs[k - 1], moves[k - 1]);
    }
  }

  lemma {:induction false} StillReceiving(cfg: Setting, latency: nat, cs: seq<Clocked>, moves: seq<Move>, j: nat, k: nat)
    requires IsClockedRun(cfg, latency, cs, moves) && j <= k < |cs| && cfg.killWorks
    requires cs[j].run.context.Cancelled?
    ensures cs[k].run.context == cs[j].run.context && cs[j].run.now <= cs[k].run.now
    ensures cs[k].run.main == Receiving ==>
              cs[j].run.main == Receiving && k - j <= Remaining(latency, cs[j].run) - Remaining(latency, cs[k].run)
    ensures cs[j].run.main == Receiving && cs[k].run.main.Returned? ==> cs[j].run.now <= cs[k].run.main.at
    decreases k
  {
    hide Enabled, Next, Inv, Timely, Remaining;
    if j < k {
      var c, m := cs[k - 1], moves[k - 1];
      assert ClockedEnabled(cfg, latency, c, m) && cs[k - 1 + 1] == ClockedNext(cfg, c, m);
      ClockedInv(cfg, latency, cs, moves, k - 1);
      OneStepOn(cfg, c.run, m);
      StillReceiving(cfg, latency, cs, moves, j, k - 1);
      if c.run.main == Receiving { RemainingShrinks(cfg, latency, c, m); }
    }
  }

  lemma {:induction false} OneStepOn(cfg: Setting, r: Run, m: Move)
    requires Enabled(cfg, r, m)
    ensures r.context.Cancelled? ==> Next(cfg, r, m).context == r.context
    ensures r.now <= Next(cfg, r, m).now
    ensures Next(cfg, r, m).main == r.main ||
            (r.main == Receiving && Next(cfg, r, m).main.Returned? && Next(cfg, r, m).main.at == r.now)
  {}

  /** When SIGKILL kills, every run ends within three seconds of its cancellation and seven
      latencies, in every interleaving and whatever the child does: a run cancelled at step `j`
      and not returned at step `k` is still inside that time, can go on by itself, and has a
      bounded number of steps behind it, so it cannot stay there; and once it returns, it has
      done so in time. */
  lemma {:induction false} EndsWithinGrace(cfg: Setting, latency: nat, cs: seq<Clocked>, moves: seq<Move>, j: nat, k: nat)
    requires IsClockedRun(cfg, latency, cs, moves) && j <= k < |cs| && cfg.killWorks
    requires cs[j].run.context.Cancelled? && cs[j].run.main == Receiving
    ensures var end := cs[j].run.context.at + 3_000_000_000 + 7 * latency;
            && (k - j > 10 + 3_000_000_000 + 7 * latency ==> cs[k].run.main.Returned?)
            && (cs[k].run.main == Receiving ==>
                  && cs[k].run.now <= end
                  && exists m :: m != ChildExits && m != CancelContext && ClockedEnabled(cfg, latency, cs[k], m)
                                 && (cs[k].run.now >= end ==> !m.Tick?))
            && (cs[k].run.main.Returned? ==> cs[k].run.main.at <= end)
  {
    ClockedInv(cfg, latency, cs, moves, k);
    ClockedInv(cfg, latency, cs, moves, j);
    StillReceiving(cfg, latency, cs, moves, j, k);
    hide IsClockedRun, ClockedEnabled;
    AliveBound(latency, cs[k]);
    AliveBound(latency, cs[j]);
    if cs[k].run.main == Receiving {
      var m := CancelledCanMove(cfg, latency, cs[k]);
    }
  }

  /** With goroutines that act at once the bound is the three seconds themselves. */
  lemma {:induction false} PromptRunEndsInGrace(cfg: Setting, cs: seq<Clocked>, moves: seq<Move>, j: nat, k: nat)
    requires IsClockedRun(cfg, 0, cs, moves) && j <= k < |cs| && cfg.killWorks
    requires cs[j].run.context.Cancelled? && cs[j].run.main == Receiving
    ensures cs[k].run.main == Receiving ==> cs[k].run.now <= cs[j].run.context.at + 3_000_000_000
    ensures cs[k].run.main.Returned? ==> cs[k].run.main.at <= cs[j].run.context.at + 3_000_000_000
  {
    hide IsClockedRun;
    EndsWithinGrace(cfg, 0, cs, moves, j, k);
  }

  /** A clocked run is a run, so everything proved of runs holds of it. */
  lemma {:induction false} ClockedIsRun(cfg: Setting, latency: nat, cs: seq<Clocked>, moves: seq<Move>)
    requires IsClockedRun(cfg, latency, cs, moves)
    ensures IsRun(cfg, Runs(cs), moves)
  {
    hide Enabled, Next;
    var now: int, context: Context :|
      (context.Cancelled? ==> context.at == now) && cs[0] == Clocked(Start(now, context), Since(now, now, now));
    assert Runs(cs)[0] == Start(now, context);
    forall k | 0 <= k < |moves|
      ensures Enabled(cfg, Runs(cs)[k], moves[k]) && Runs(cs)[k + 1] == Next(cfg, Runs(cs)[k], moves[k])
    {
      assert ClockedEnabled(cfg, latency, cs[k], moves[k]) && cs[k + 1] == ClockedNext(cfg, cs[k], moves[k]);
    }
  }

  function Runs(cs: seq<Clocked>): (r: seq<Run>)
    ensures |r| == |cs| && forall i :: 0 <= i < |r| ==> r[i] == cs[i].run
  {
    seq(|cs|, i requires 0 <= i < |cs| => cs[i].run)
  }
}
