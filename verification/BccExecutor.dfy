/** internal/executor/executor.go: BCCExecutor.Run as a protocol between the main goroutine,
    the waiter, the watcher, the child process and the context.

    Channels are part of the state: `done` is a buffer of one, `exited` is closed or not.
    Time is an integer number of nanoseconds.  Which enabled move comes next is open. */
module BccExecutor {
  import opened Text

  const GRACE: int := 3_000_000_000

  /** What cmd.Wait reports: nothing, that the child exited with a status, or a failure of its own. */
  datatype WaitError = NoError | ExitError(status: int) | OtherError(text: string)

  datatype Context = Live | Cancelled(at: int)
  datatype Child = Alive | Dead | Reaped
  datatype Waiter = InWait | HasError(error: WaitError) | Sent | WaiterDone
  datatype Watcher = Selecting | Interrupting | Grace(deadline: int) | Killing | WatcherDone
  datatype Main = Receiving | Returned(error: WaitError, at: int)

  datatype SignalKind = SIGINT | SIGKILL
  datatype Signal = Signal(kind: SignalKind, at: int)

  datatype Run = Run(
    now: int, context: Context, child: Child, waiter: Waiter, watcher: Watcher, main: Main,
    done: Option<WaitError>, exited: bool,
    sends: nat, receives: nat, closes: nat, signals: seq<Signal>)

  /** `killWorks`: SIGKILL ends the child. */
  datatype Setting = Setting(killWorks: bool)

  datatype Move =
    | ChildExits | CancelContext
    | WaitReturns(error: WaitError) | SendError | CloseExited
    | SeesCancel | SeesExit | SendInterrupt | ExitInGrace | GraceOver | SendKill
    | Receive
    | Tick(span: int)

  function Start(now: int, context: Context): Run {
    Run(now, context, Alive, InWait, Selecting, Receiving, None, false, 0, 0, 0, [])
  }

  predicate Enabled(cfg: Setting, r: Run, m: Move) {
    match m
    case ChildExits => r.child == Alive
    case CancelContext => r.context == Live
    case WaitReturns(_) => r.waiter == InWait && r.child == Dead
    case SendError => r.waiter.HasError? && r.done.None?
    case CloseExited => r.waiter == Sent
    case SeesCancel => r.watcher == Selecting && r.context.Cancelled?
    case SeesExit => r.watcher == Selecting && r.exited
    case SendInterrupt => r.watcher == Interrupting
    case ExitInGrace => r.watcher.Grace? && r.exited
    case GraceOver => r.watcher.Grace? && r.now >= r.watcher.deadline
    case SendKill => r.watcher == Killing
    case Receive => r.main == Receiving && r.done.Some?
    case Tick(span) => span > 0
  }

  function Next(cfg: Setting, r: Run, m: Move): Run
    requires Enabled(cfg, r, m)
  {
    match m
    case ChildExits => r.(child := Dead)
    case CancelContext => r.(context := Cancelled(r.now))
    case WaitReturns(e) => r.(child := Reaped, waiter := HasError(e))
    case SendError => r.(done := Some(r.waiter.error), waiter := Sent, sends := r.sends + 1)
    case CloseExited => r.(exited := true, closes := r.closes + 1, waiter := WaiterDone)
    case SeesCancel => r.(watcher := Interrupting)
    case SeesExit => r.(watcher := WatcherDone)
    case SendInterrupt => r.(signals := r.signals + [Signal(SIGINT, r.now)], watcher := Grace(r.now + GRACE))
    case ExitInGrace => r.(watcher := WatcherDone)
    case GraceOver => r.(watcher := Killing)
    case SendKill =>
      r.(signals := r.signals + [Signal(SIGKILL, r.now)], watcher := WatcherDone,
         child := if cfg.killWorks && r.child == Alive then Dead else r.child)
    case Receive => r.(main := Returned(r.done.value, r.now), done := None, receives := r.receives + 1)
    case Tick(span) => r.(now := r.now + span)
  }

  // ---------------------------------------------------------------------
  // Invariant

  /** Waiter, child, channels and main move in step. */
  ghost predicate Handshake(r: Run) {
    && (r.child == Reaped <==> r.waiter != InWait)
    && r.sends == (if r.waiter == Sent || r.waiter == WaiterDone then 1 else 0)
    && r.closes == (if r.waiter == WaiterDone then 1 else 0)
    && (r.exited <==> r.waiter == WaiterDone)
    && r.receives == (if r.main.Returned? then 1 else 0)
    && (r.done.Some? <==> r.sends == 1 && r.receives == 0)
    && (r.main.Returned? ==> r.sends == 1)
  }

  /** The signals sent so far. */
  ghost predicate Escalation(r: Run) {
    && (r.context.Cancelled? ==> r.context.at <= r.now)
    && |r.signals| <= 2
    && (|r.signals| >= 1 ==>
          r.context.Cancelled? && r.signals[0].kind == SIGINT && r.context.at <= r.signals[0].at <= r.now)
    && (|r.signals| == 2 ==> r.signals[1].kind == SIGKILL && r.signals[0].at + GRACE <= r.signals[1].at <= r.now)
  }

  /** Where the watcher is, and what that means for the signals. */
  ghost predicate Stage(r: Run) {
    match r.watcher
    case Selecting => r.signals == []
    case Interrupting => r.signals == [] && r.context.Cancelled?
    case Grace(deadline) => |r.signals| == 1 && deadline == r.signals[0].at + GRACE
    case Killing => |r.signals| == 1 && r.signals[0].at + GRACE <= r.now
    case WatcherDone => r.exited || |r.signals| == 2
  }

  ghost predicate Inv(r: Run) { Handshake(r) && Escalation(r) && Stage(r) }

  lemma {:induction false} StartInv(now: int, context: Context)
    requires context.Cancelled? ==> context.at <= now
    ensures Inv(Start(now, context))
  {}

  lemma {:induction false} NextInv(cfg: Setting, r: Run, m: Move)
    requires Inv(r) && Enabled(cfg, r, m)
    ensures Inv(Next(cfg, r, m))
  {}

  /** No signal unless the context was cancelled; SIGKILL only after a SIGINT and three full
      seconds; the wait error sent and received at most once, and exactly once when all is done;
      `exited` closed at most once and after the send; and a return only with the error in hand
      and the child reaped. */
  ghost predicate Safe(r: Run) {
    && (r.signals != [] ==>
          r.context.Cancelled? && forall i :: 0 <= i < |r.signals| ==> r.signals[i].at >= r.context.at)
    && (forall i :: 0 <= i < |r.signals| && r.signals[i].kind == SIGKILL ==>
          i == 1 && r.signals[0].kind == SIGINT && r.signals[1].at >= r.signals[0].at + 3_000_000_000)
    && r.sends <= 1 && r.receives <= r.sends && r.closes <= r.sends
    && (r.exited <==> r.closes == 1)
    && (r.main.Returned? ==> r.sends == 1 && r.receives == 1 && r.child == Reaped)
    && (AllDone(r) ==> r.sends == r.receives == r.closes == 1)
  }

  lemma {:induction false} ReturnedMeansReaped(r: Run)
    requires Inv(r) && r.main.Returned?
    ensures r.child == Reaped
  {}

  // ---------------------------------------------------------------------
  // Nobody is left behind

  predicate AllDone(r: Run) { r.main.Returned? && r.waiter == WaiterDone && r.watcher == WatcherDone }

  /** Once the child has exited, some goroutine can move until all three are done. */
  lemma {:induction false} NoLeak(cfg: Setting, r: Run) returns (m: Move)
    requires Inv(r) && r.child != Alive && !AllDone(r)
    ensures !m.Tick? && m != ChildExits && m != CancelContext && Enabled(cfg, r, m)
  {
    m := if r.waiter == InWait then WaitReturns(NoError)
         else if r.waiter.HasError? then SendError
         else if r.waiter == Sent then CloseExited
         else if r.main == Receiving then Receive
         else if r.watcher == Selecting then SeesExit
         else if r.watcher == Interrupting then SendInterrupt
         else if r.watcher.Grace? then ExitInGrace
         else SendKill;
  }

  /** Steps left before everything is still, ticks aside. */
  function Fuel(r: Run): nat {
    (match r.child case Alive => 1 case _ => 0) +
    (match r.context case Live => 1 case _ => 0) +
    (match r.waiter case InWait => 3 case HasError(_) => 2 case Sent => 1 case WaiterDone => 0) +
    (match r.watcher case Selecting => 4 case Interrupting => 3 case Grace(_) => 2 case Killing => 1 case WatcherDone => 0) +
    (match r.main case Receiving => 1 case _ => 0)
  }

  /** Every move but a tick uses up fuel, so no goroutine can go on forever. */
  lemma {:induction false} FuelDecreases(cfg: Setting, r: Run, m: Move)
    requires Inv(r) && Enabled(cfg, r, m) && !m.Tick?
    ensures Fuel(Next(cfg, r, m)) < Fuel(r) <= 10
  {}

  // ---------------------------------------------------------------------
  // Whole runs

  ghost predicate IsRun(cfg: Setting, runs: seq<Run>, moves: seq<Move>) {
    && |runs| == |moves| + 1
    && (exists now: int, context: Context :: (context.Cancelled? ==> context.at == now) && runs[0] == Start(now, context))
    && forall k :: 0 <= k < |moves| ==> Enabled(cfg, runs[k], moves[k]) && runs[k + 1] == Next(cfg, runs[k], moves[k])
  }

  lemma {:induction false} RunInv(cfg: Setting, runs: seq<Run>, moves: seq<Move>, k: nat)
    requires IsRun(cfg, runs, moves) && k < |runs|
    ensures Inv(runs[k])
  {
    hide Inv, Enabled, Next;
    if k == 0 {
      var now: int, context: Context :| (context.Cancelled? ==> context.at == now) && runs[0] == Start(now, context);
      StartInv(now, context);
    } else {
      RunInv(cfg, runs, moves, k - 1);
      assert Enabled(cfg, runs[k - 1], moves[k - 1]) && runs[k - 1 + 1] == Next(cfg, runs[k - 1], moves[k - 1]);
      NextInv(cfg, runs[k - 1], moves[k - 1]);
    }
  }

  /** Every state of every interleaving is safe. */
  lemma {:induction false} Safety(cfg: Setting, runs: seq<Run>, moves: seq<Move>, k: nat)
    requires IsRun(cfg, runs, moves) && k < |runs|
    ensures Safe(runs[k])
  {
    hide IsRun;
    RunInv(cfg, runs, moves, k);
  }

  // ---------------------------------------------------------------------
  // The error on its way through the channel

  lemma {:induction false} NotWaitedYet(cfg: Setting, runs: seq<Run>, moves: seq<Move>, k: nat)
    requires IsRun(cfg, runs, moves) && k < |runs| && runs[k].waiter == InWait
    ensures forall i :: 0 <= i < k ==> !moves[i].WaitReturns?
  {
    if k > 0 {
      assert Enabled(cfg, runs[k - 1], moves[k - 1]) && runs[k - 1 + 1] == Next(cfg, runs[k - 1], moves[k - 1]);
      NotWaitedYet(cfg, runs, moves, k - 1);
    }
  }

  /** The error is wherever the protocol is: with the waiter, in `done`, or with main. */
  ghost predicate Carries(r: Run, error: WaitError) {
    && (r.waiter.HasError? ==> r.waiter.error == error)
    && (r.done.Some? ==> r.done.value == error)
    && (r.main.Returned? ==> r.main.error == error)
  }

  lemma {:induction false} CarriesOn(cfg: Setting, r: Run, m: Move, error: WaitError)
    requires Inv(r) && Enabled(cfg, r, m) && r.waiter != InWait && Carries(r, error)
    ensures !m.WaitReturns? && Next(cfg, r, m).waiter != InWait && Carries(Next(cfg, r, m), error)
  {}

  lemma {:induction false} WaitedOnce(cfg: Setting, runs: seq<Run>, moves: seq<Move>, k: nat) returns (j: nat)
    requires IsRun(cfg, runs, moves) && k < |runs| && runs[k].waiter != InWait
    ensures j < k && moves[j].WaitReturns? && Carries(runs[k], moves[j].error)
    ensures forall i :: 0 <= i < k && moves[i].WaitReturns? ==> i == j
  {
    hide Inv, Carries;
    RunInv(cfg, runs, moves, k - 1);
    assert Enabled(cfg, runs[k - 1], moves[k - 1]) && runs[k - 1 + 1] == Next(cfg, runs[k - 1], moves[k - 1]);
    if runs[k - 1].waiter == InWait {
      j := k - 1;
      NotWaitedYet(cfg, runs, moves, k - 1);
      FirstCarries(cfg, runs[k - 1], moves[k - 1]);
    } else {
      j := WaitedOnce(cfg, runs, moves, k - 1);
      CarriesOn(cfg, runs[k - 1], moves[k - 1], moves[j].error);
    }
  }

  lemma {:induction false} FirstCarries(cfg: Setting, r: Run, m: Move)
    requires Inv(r) && Enabled(cfg, r, m) && r.waiter == InWait && Next(cfg, r, m).waiter != InWait
    ensures m.WaitReturns? && Carries(Next(cfg, r, m), m.error)
  {}

  /** Main returns with the very error cmd.Wait reported: the child was waited for exactly once
      before, and that wait reported it. */
  lemma {:induction false} ReturnsWaitError(cfg: Setting, runs: seq<Run>, moves: seq<Move>, k: nat)
    requires IsRun(cfg, runs, moves) && k < |runs| && runs[k].main.Returned?
    ensures exists j :: 0 <= j < k && moves[j] == WaitReturns(runs[k].main.error) &&
              forall i :: 0 <= i < k && moves[i].WaitReturns? ==> i == j
  {
    hide Enabled, Next;
    RunInv(cfg, runs, moves, k);
    var j := WaitedOnce(cfg, runs, moves, k);
    assert moves[j] == WaitReturns(runs[k].main.error);
  }

  /** What Run hands back: the captured output, or an error that names the tool. */
  datatype Reply = Output | Failure(text: string)

  /** A cancelled context and a child that merely exited are no failures. */
  function ReplyOf(tool: string, context: Context, error: WaitError): Reply {
    if context.Cancelled? then Output
    else match error
      case NoError => Output
      case ExitError(_) => Output
      case OtherError(text) => Failure("execute " + tool + ": " + text)
  }

  /** Run fails exactly when the context is still live and the wait itself had failed, and then
      with the text of that failure. */
  lemma {:induction false} FailsIff(cfg: Setting, runs: seq<Run>, moves: seq<Move>, k: nat, tool: string, text: string)
    requires IsRun(cfg, runs, moves) && k < |runs| && runs[k].main.Returned?
    ensures ReplyOf(tool, runs[k].context, runs[k].main.error) == Failure("execute " + tool + ": " + text) <==>
            runs[k].context == Live && exists j :: 0 <= j < k && moves[j] == WaitReturns(OtherError(text))
    ensures ReplyOf(tool, runs[k].context, runs[k].main.error) == Output <==>
            runs[k].context.Cancelled? || forall j :: 0 <= j < k && moves[j].WaitReturns? ==> !moves[j].error.OtherError?
  {
    hide Enabled, Next;
    ReturnsWaitError(cfg, runs, moves, k);
    var j :| 0 <= j < k && moves[j] == WaitReturns(runs[k].main.error) &&
             forall i :: 0 <= i < k && moves[i].WaitReturns? ==> i == j;
    if runs[k].main.error.OtherError? {
      var told := runs[k].main.error.text;
      assert ("execute " + tool + ": " + told)[|"execute " + tool + ": "|..] == told;
      assert ("execute " + tool + ": " + text)[|"execute " + tool + ": "|..] == text;
    }
  }

  // ---------------------------------------------------------------------
  // The buffer pool shared by concurrent runs

  /** One call of Run: still taking its two buffers, with a started child, or giving them back,
      after the run or because the child could not be started. */
  datatype Phase = Taking | Running(run: Run) | Giving(after: Option<Run>)

  datatype Slot = Slot(held: set<nat>, phase: Phase)

  /** Buffers are numbered; `top` is the number of the next one to be allocated. */
  datatype System = System(free: set<nat>, top: nat, slots: map<nat, Slot>)

  /** Every Get and every Put is a step of its own, with those of other runs in between. */
  datatype SystemMove =
    | Begin(id: nat)
    | Get(id: nat, pooled: Option<nat>)
    | Launch(id: nat, now: int, context: Context)
    | StartFails(id: nat)
    | Within(id: nat, move: Move)
    | Finish(id: nat)
    | Put(id: nat, buffer: nat)
    | Discard(buffer: nat)

  /** bufferPool.Get: a pooled buffer or a new one. */
  function Got(top: nat, b: Option<nat>): nat { if b.Some? then b.value else top }

  predicate SystemEnabled(cfg: Setting, s: System, m: SystemMove) {
    match m
    case Begin(id) => id !in s.slots
    case Get(id, b) => id in s.slots && s.slots[id].phase == Taking && |s.slots[id].held| < 2 && (b.Some? ==> b.value in s.free)
    case Launch(id, now, context) =>
      id in s.slots && s.slots[id].phase == Taking && |s.slots[id].held| == 2 && (context.Cancelled? ==> context.at == now)
    case StartFails(id) => id in s.slots && s.slots[id].phase == Taking && |s.slots[id].held| == 2
    case Within(id, move) => id in s.slots && s.slots[id].phase.Running? && Enabled(cfg, s.slots[id].phase.run, move)
    case Finish(id) => id in s.slots && s.slots[id].phase.Running? && s.slots[id].phase.run.main.Returned?
    case Put(id, b) => id in s.slots && s.slots[id].phase.Giving? && b in s.slots[id].held
    case Discard(b) => b in s.free
  }

  function SystemNext(cfg: Setting, s: System, m: SystemMove): System
    requires SystemEnabled(cfg, s, m)
  {
    match m
    case Begin(id) => s.(slots := s.slots[id := Slot({}, Taking)])
    case Get(id, b) =>
      var x := s.slots[id];
      System(s.free - {Got(s.top, b)}, if b.Some? then s.top else s.top + 1, s.slots[id := x.(held := x.held + {Got(s.top, b)})])
    case Launch(id, now, context) => s.(slots := s.slots[id := s.slots[id].(phase := Running(Start(now, context)))])
    case StartFails(id) => s.(slots := s.slots[id := s.slots[id].(phase := Giving(None))])
    case Within(id, move) => s.(slots := s.slots[id := s.slots[id].(phase := Running(Next(cfg, s.slots[id].phase.run, move)))])
    case Finish(id) => s.(slots := s.slots[id := s.slots[id].(phase := Giving(Some(s.slots[id].phase.run)))])
    case Put(id, b) =>
      s.(free := s.free + {b}, slots := s.slots[id := s.slots[id].(held := s.slots[id].held - {b})])
    case Discard(b) => s.(free := s.free - {b})
  }

  ghost predicate SoundPhase(phase: Phase) {
    match phase
    case Taking => true
    case Running(run) => Inv(run)
    case Giving(after) => after.Some? ==> Inv(after.value) && after.value.main.Returned?
  }

  ghost predicate Sound(s: System, x: Slot) {
    && SoundPhase(x.phase) && |x.held| <= 2 && (x.phase.Running? ==> |x.held| == 2)
    && forall b :: b in x.held ==> b < s.top && b !in s.free
  }

  ghost predicate SystemInv(s: System) {
    && (forall b :: b in s.free ==> b < s.top)
    && (forall i :: i in s.slots ==> Sound(s, s.slots[i]))
    && (forall i, j :: i in s.slots && j in s.slots && i != j ==> s.slots[i].held !! s.slots[j].held)
  }

  lemma {:induction false} SystemInitInv()
    ensures SystemInv(System({}, 0, map[]))
  {}

  lemma {:induction false} GetInv(cfg: Setting, s: System, m: SystemMove)
    requires SystemInv(s) && SystemEnabled(cfg, s, m) && m.Get?
    ensures SystemInv(SystemNext(cfg, s, m))
  {
    hide SoundPhase, Enabled, Next;
    var b, x := Got(s.top, m.pooled), s.slots[m.id];
    assert b !in x.held;
    assert |x.held + {b}| == |x.held| + 1;
  }

  lemma {:induction false} PutInv(cfg: Setting, s: System, m: SystemMove)
    requires SystemInv(s) && SystemEnabled(cfg, s, m) && m.Put?
    ensures SystemInv(SystemNext(cfg, s, m))
  {
    hide SoundPhase, Enabled, Next;
    var x := s.slots[m.id];
    assert |x.held - {m.buffer}| == |x.held| - 1;
  }

  /** A step that changes nothing but the phase of one run. */
  lemma {:induction false} PhaseInv(s: System, id: nat, phase: Phase)
    requires SystemInv(s) && id in s.slots && SoundPhase(phase) && (phase.Running? ==> |s.slots[id].held| == 2)
    ensures SystemInv(s.(slots := s.slots[id := s.slots[id].(phase := phase)]))
  {
    hide SoundPhase;
  }

  lemma {:induction false} SystemNextInv(cfg: Setting, s: System, m: SystemMove)
    requires SystemInv(s) && SystemEnabled(cfg, s, m)
    ensures SystemInv(SystemNext(cfg, s, m))
  {
    hide Inv, Next, Enabled, Start;
    match m
    case Begin(id) =>
    case Get(_, _) => GetInv(cfg, s, m);
    case Launch(id, now, context) =>
      StartInv(now, context);
      PhaseInv(s, id, Running(Start(now, context)));
    case StartFails(id) => PhaseInv(s, id, Giving(None));
    case Within(id, move) =>
      assert Sound(s, s.slots[id]);
      NextInv(cfg, s.slots[id].phase.run, move);
      PhaseInv(s, id, Running(Next(cfg, s.slots[id].phase.run, move)));
    case Finish(id) =>
      assert Sound(s, s.slots[id]);
      PhaseInv(s, id, Giving(Some(s.slots[id].phase.run)));
    case Put(_, _) => PutInv(cfg, s, m);
    case Discard(_) =>
  }

  ghost predicate IsHistory(cfg: Setting, systems: seq<System>, moves: seq<SystemMove>) {
    && |systems| == |moves| + 1 && systems[0] == System({}, 0, map[])
    && forall k :: 0 <= k < |moves| ==>
         SystemEnabled(cfg, systems[k], moves[k]) && systems[k + 1] == SystemNext(cfg, systems[k], moves[k])
  }

  lemma {:induction false} HistoryInv(cfg: Setting, systems: seq<System>, moves: seq<SystemMove>, k: nat)
    requires IsHistory(cfg, systems, moves) && k < |systems|
    ensures SystemInv(systems[k])
  {
    hide SystemInv, SystemEnabled, SystemNext;
    if k == 0 {
      SystemInitInv();
    } else {
      HistoryInv(cfg, systems, moves, k - 1);
      assert SystemEnabled(cfg, systems[k - 1], moves[k - 1]) &&
             systems[k - 1 + 1] == SystemNext(cfg, systems[k - 1], moves[k - 1]);
      SystemNextInv(cfg, systems[k - 1], moves[k - 1]);
    }
  }

  /** Over any number of concurrent and successive runs, with Gets and Puts in any order: no buffer
      is held by two runs at once, none is in the pool while held, a run with a child holds two
      different ones, and a run hands a buffer back only if its child - the only writer - was never
      started or has been reaped. */
  lemma {:induction false} BuffersExclusive(cfg: Setting, systems: seq<System>, moves: seq<SystemMove>, k: nat)
    requires IsHistory(cfg, systems, moves) && k < |systems|
    ensures forall i :: i in systems[k].slots ==> systems[k].slots[i].held !! systems[k].free
    ensures forall i, j :: i in systems[k].slots && j in systems[k].slots && i != j ==>
              systems[k].slots[i].held !! systems[k].slots[j].held
    ensures forall i :: i in systems[k].slots && systems[k].slots[i].phase.Running? ==> |systems[k].slots[i].held| == 2
    ensures k < |moves| && moves[k].Put? ==>
              var id := moves[k].id;
              && id in systems[k].slots && systems[k].slots[id].phase.Giving?
              && (systems[k].slots[id].phase.after.Some? ==> systems[k].slots[id].phase.after.value.child == Reaped)
  {
    hide Inv;
    HistoryInv(cfg, systems, moves, k);
    forall i | i in systems[k].slots ensures systems[k].slots[i].held !! systems[k].free {
      assert Sound(systems[k], systems[k].slots[i]);
    }
    if k < |moves| && moves[k].Put? {
      assert SystemEnabled(cfg, systems[k], moves[k]);
      var x := systems[k].slots[moves[k].id];
      assert Sound(systems[k], x);
      if x.phase.after.Some? { ReturnedMeansReaped(x.phase.after.value); }
    }
  }

  // ---------------------------------------------------------------------
  // No buffer is lost, no run is held up

  ghost predicate HeldBySome(s: System, b: nat) { exists i :: i in s.slots && b in s.slots[i].held }

  ghost predicate Discarded(moves: seq<SystemMove>, k: nat, b: nat)
    requires k <= |moves|
  {
    exists j :: 0 <= j < k && moves[j] == Discard(b)
  }

  lemma {:induction false} ConservedStep(cfg: Setting, s: System, m: SystemMove, b: nat)
    requires SystemInv(s) && SystemEnabled(cfg, s, m) && m != Discard(b)
    requires b < s.top ==> b in s.free || HeldBySome(s, b)
    ensures var s' := SystemNext(cfg, s, m); b < s'.top ==> b in s'.free || HeldBySome(s', b)
  {
    hide Sound, Enabled, Next;
    var s' := SystemNext(cfg, s, m);
    if HeldBySome(s, b) {
      var i :| i in s.slots && b in s.slots[i].held;
      assert i in s'.slots;
      assert b in s'.slots[i].held || b in s'.free;
    } else if m.Get? && b == Got(s.top, m.pooled) {
      assert b in s'.slots[m.id].held;
    }
  }

  /** Every buffer ever allocated is in the pool, held by a run, or was dropped by the pool. */
  lemma {:induction false} BuffersConserved(cfg: Setting, systems: seq<System>, moves: seq<SystemMove>, k: nat, b: nat)
    requires IsHistory(cfg, systems, moves) && k < |systems|
    ensures b < systems[k].top ==> b in systems[k].free || HeldBySome(systems[k], b) || Discarded(moves, k, b)
  {
    hide SystemInv, SystemEnabled, SystemNext, HeldBySome;
    if k > 0 {
      BuffersConserved(cfg, systems, moves, k - 1, b);
      HistoryInv(cfg, systems, moves, k - 1);
      var s, m := systems[k - 1], moves[k - 1];
      assert SystemEnabled(cfg, s, m) && systems[k - 1 + 1] == SystemNext(cfg, s, m);
      if Discarded(moves, k - 1, b) {
        var j :| 0 <= j < k - 1 && moves[j] == Discard(b);
        assert Discarded(moves, k, b);
      } else if m != Discard(b) {
        ConservedStep(cfg, s, m, b);
      }
      TopGrows(cfg, s, m);
    }
  }

  lemma {:induction false} TopGrows(cfg: Setting, s: System, m: SystemMove)
    requires SystemEnabled(cfg, s, m)
    ensures SystemNext(cfg, s, m).top >= s.top
    ensures m.Discard? ==> SystemNext(cfg, s, m).top == s.top
  {}

  /** A call of Run always gets on, whatever the others do: it can take a buffer from the pool or a
      new one until it has two, then launch its child or fail to; with its child gone it can move
      until it has returned, and then finish; and what it gives back is in the pool. */
  lemma {:induction false} RunsGetOn(cfg: Setting, s: System, id: nat)
    requires SystemInv(s) && id in s.slots
    ensures var x := s.slots[id];
            match x.phase
            case Taking =>
              if |x.held| < 2
              then SystemEnabled(cfg, s, Get(id, None)) && forall b :: b in s.free ==> SystemEnabled(cfg, s, Get(id, Some(b)))
              else SystemEnabled(cfg, s, StartFails(id)) && forall now :: SystemEnabled(cfg, s, Launch(id, now, Live))
            case Running(r) =>
              r.child == Alive || r.main == Receiving ==> exists m :: SystemEnabled(cfg, s, Within(id, m)) && !m.Tick?
            case Giving(_) =>
              forall b :: b in x.held ==>
                SystemEnabled(cfg, s, Put(id, b)) && b in SystemNext(cfg, s, Put(id, b)).free
    ensures s.slots[id].phase.Running? && s.slots[id].phase.run.main.Returned? ==> SystemEnabled(cfg, s, Finish(id))
  {
    hide Enabled, Next;
    var x := s.slots[id];
    assert Sound(s, x);
    if x.phase.Running? && (x.phase.run.child == Alive || x.phase.run.main == Receiving) {
      var m := OwnMove(cfg, x.phase.run);
      assert SystemEnabled(cfg, s, Within(id, m));
    }
  }

  lemma {:induction false} OwnMove(cfg: Setting, r: Run) returns (m: Move)
    requires Inv(r) && (r.child == Alive || r.main == Receiving)
    ensures Enabled(cfg, r, m) && !m.Tick?
  {
    if r.child == Alive {
      m := ChildExits;
    } else {
      m := NoLeak(cfg, r);
    }
  }
}
