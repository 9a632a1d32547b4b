/**
 Start, stop and the accept loop of the C++ listener as a protocol over file descriptors.  One
 thread calls start and stop, the supervisor thread selects and accepts, connection threads close
 what was accepted, and every system call may fail.  Descriptors are numbered by the order in
 which they were opened, so a number that the system hands out again is a different descriptor.
 */
module ListenerLifecycle {
  import opened Wrappers

  type Fd = nat

  /** Where the thread that owns the listener stands; each name tells what has just been done. */
  datatype MainPc =
    | Idle
    | StartEntered       // running_ was false
    | PipeMade
    | SocketMade
    | Bound
    | Running            // running_ set, the supervisor not created yet
    | BindFailed         // the server socket, then both pipe ends, are still to be closed
    | SocketGone         // both pipe ends are still to be closed
    | ReadEndGone        // the write end is still to be closed
    | StopEntered        // running_ cleared
    | Woken              // the wake byte was written, or the write failed
    | Joined
    | ServerClosed
    | WakeReadClosed

  datatype SupervisorPc =
    | NotStarted
    | Checking           // at the loop condition
    | Selecting
    | Accepting
    | Exited

  datatype Outcome = Nothing | Started | StartRefused | StartFailed(threadMissing: bool) | Stopped

  datatype State = State(
    count: nat,                    // descriptors opened so far; the next one gets this number
    live: set<Fd>,                 // descriptors open now
    closes: seq<Fd>,               // every close, in order
    misuse: bool,                  // a close or a select hit a descriptor that was not open
    running: bool,
    serverFd: Option<Fd>,
    wakeRead: Option<Fd>,
    wakeWrite: Option<Fd>,
    signalled: bool,               // a byte is waiting in the wake pipe
    joinable: bool,
    main: MainPc,
    supervisor: SupervisorPc,
    handlers: set<Fd>,             // client descriptors held by connection threads
    outcome: Outcome)

  const INITIAL := State(0, {}, [], false, false, None, None, None, false, false, Idle, NotStarted, {}, Nothing)

  datatype Step =
    | EnterStart
    | Pipe(ok: bool)
    | Socket(ok: bool)
    | Bind(ok: bool)
    | SetRunning
    | CreateThread(ok: bool)
    | CloseServerOnFailure
    | CloseReadOnFailure
    | CloseWriteOnFailure
    | EnterStop
    | Wake(ok: bool)
    | Join
    | CloseServer
    | CloseWakeRead
    | CloseWakeWrite
    | CheckRunning
    | SelectFails
    | SelectWoken
    | SelectTimeout
    | SelectClient
    | Accept(ok: bool)
    | HandlerDone(client: Fd)

  function Close(s: State, fd: Fd): State {
    s.(live := s.live - {fd}, closes := s.closes + [fd], misuse := s.misuse || fd !in s.live)
  }

  /** Close a field that may be -1. */
  function CloseIfOpen(s: State, fd: Option<Fd>): State {
    if fd.Some? then Close(s, fd.value) else s
  }

  predicate BySupervisor(step: Step) {
    || step.CheckRunning? || step.SelectFails? || step.SelectWoken?
    || step.SelectTimeout? || step.SelectClient? || step.Accept?
  }

  predicate Selectable(s: State) {
    s.serverFd.Some? && s.serverFd.value in s.live && s.wakeRead.Some? && s.wakeRead.value in s.live
  }

  predicate Enabled(s: State, step: Step) {
    match step
    case EnterStart => s.main.Idle?
    case Pipe(_) => s.main.StartEntered?
    case Socket(_) => s.main.PipeMade?
    case Bind(_) => s.main.SocketMade?
    case SetRunning => s.main.Bound?
    case CreateThread(_) => s.main.Running?
    case CloseServerOnFailure => s.main.BindFailed?
    case CloseReadOnFailure => s.main.SocketGone?
    case CloseWriteOnFailure => s.main.ReadEndGone?
    case EnterStop => s.main.Idle?
    case Wake(_) => s.main.StopEntered?
    case Join => s.main.Woken? && (s.joinable ==> s.supervisor.Exited?)
    case CloseServer => s.main.Joined?
    case CloseWakeRead => s.main.ServerClosed?
    case CloseWakeWrite => s.main.WakeReadClosed?
    case CheckRunning => s.supervisor.Checking?
    case SelectFails => s.supervisor.Selecting?
    // the wake pipe is looked at first
    case SelectWoken => s.supervisor.Selecting? && s.signalled
    case SelectTimeout => s.supervisor.Selecting? && !s.signalled
    case SelectClient => s.supervisor.Selecting? && !s.signalled
    case Accept(_) => s.supervisor.Accepting?
    case HandlerDone(client) => client in s.handlers
  }

  function Apply(s: State, step: Step): State
    requires Enabled(s, step)
  {
    match step
    // start()
    case EnterStart => if s.running then s.(outcome := StartRefused) else s.(main := StartEntered)
    case Pipe(ok) =>
      if !ok then s.(main := Idle, outcome := StartFailed(false))
      else s.(count := s.count + 2, live := s.live + {s.count, s.count + 1},
              wakeRead := Some(s.count), wakeWrite := Some(s.count + 1), signalled := false, main := PipeMade)
    case Socket(ok) =>
      if !ok then s.(serverFd := None, main := SocketGone)
      else s.(count := s.count + 1, live := s.live + {s.count}, serverFd := Some(s.count), main := SocketMade)
    case Bind(ok) => s.(main := if ok then Bound else BindFailed)
    case SetRunning => s.(running := true, main := Running)
    case CreateThread(ok) =>
      if ok then s.(joinable := true, supervisor := Checking, main := Idle, outcome := Started)
      else s.(main := Idle, outcome := StartFailed(true))
    case CloseServerOnFailure => CloseIfOpen(s, s.serverFd).(main := SocketGone)
    case CloseReadOnFailure => CloseIfOpen(s, s.wakeRead).(main := ReadEndGone)
    case CloseWriteOnFailure => CloseIfOpen(s, s.wakeWrite).(main := Idle, outcome := StartFailed(false))
    // stop()
    case EnterStop => if !s.running then s.(outcome := Stopped) else s.(running := false, main := StopEntered)
    case Wake(ok) => s.(signalled := ok, main := Woken)
    case Join => s.(joinable := false, supervisor := NotStarted, main := Joined)
    case CloseServer => CloseIfOpen(s, s.serverFd).(serverFd := None, main := ServerClosed)
    case CloseWakeRead => CloseIfOpen(s, s.wakeRead).(wakeRead := None, main := WakeReadClosed)
    case CloseWakeWrite => CloseIfOpen(s, s.wakeWrite).(wakeWrite := None, main := Idle, outcome := Stopped)
    // the supervisor
    case CheckRunning => s.(supervisor := if s.running then Selecting else Exited)
    case SelectFails => Selected(s).(supervisor := Exited)
    case SelectWoken => Selected(s).(supervisor := Exited)
    case SelectTimeout => Selected(s).(supervisor := Checking)
    case SelectClient => Selected(s).(supervisor := Accepting)
    case Accept(ok) =>
      if !ok then Selected(s).(supervisor := Checking)
      else Selected(s).(count := s.count + 1, live := s.live + {s.count},
                        handlers := s.handlers + {s.count}, supervisor := Checking)
    // a connection thread
    case HandlerDone(client) => Close(s, client).(handlers := s.handlers - {client})
  }

  /** Using the two descriptors of the accept loop. */
  function Selected(s: State): State {
    s.(misuse := s.misuse || !Selectable(s))
  }

  ghost predicate Next(s: State, t: State) {
    exists step :: Enabled(s, step) && t == Apply(s, step)
  }

  ghost predicate IsRun(run: seq<State>) {
    && run != [] && run[0] == INITIAL
    && forall k | 0 <= k < |run| - 1 :: Next(run[k], run[k + 1])
  }

  // ----- The invariant -----

  function ToSet(fd: Option<Fd>): set<Fd> {
    if fd.Some? then {fd.value} else {}
  }

  /** Which of its fields the listener still has to close, given where start or stop stands. */
  function Owned(s: State): set<Fd> {
    match s.main
    case Idle => if s.running then ToSet(s.serverFd) + ToSet(s.wakeRead) + ToSet(s.wakeWrite) else {}
    case StartEntered => {}
    case PipeMade => ToSet(s.wakeRead) + ToSet(s.wakeWrite)
    case SocketMade => ToSet(s.serverFd) + ToSet(s.wakeRead) + ToSet(s.wakeWrite)
    case Bound => ToSet(s.serverFd) + ToSet(s.wakeRead) + ToSet(s.wakeWrite)
    case Running => ToSet(s.serverFd) + ToSet(s.wakeRead) + ToSet(s.wakeWrite)
    case BindFailed => ToSet(s.serverFd) + ToSet(s.wakeRead) + ToSet(s.wakeWrite)
    case SocketGone => ToSet(s.wakeRead) + ToSet(s.wakeWrite)
    case ReadEndGone => ToSet(s.wakeWrite)
    case StopEntered => ToSet(s.serverFd) + ToSet(s.wakeRead) + ToSet(s.wakeWrite)
    case Woken => ToSet(s.serverFd) + ToSet(s.wakeRead) + ToSet(s.wakeWrite)
    case Joined => ToSet(s.serverFd) + ToSet(s.wakeRead) + ToSet(s.wakeWrite)
    case ServerClosed => ToSet(s.wakeRead) + ToSet(s.wakeWrite)
    case WakeReadClosed => ToSet(s.wakeWrite)
  }

  /** All three fields name different descriptors. */
  predicate FieldsSet(s: State) {
    && s.serverFd.Some? && s.wakeRead.Some? && s.wakeWrite.Some?
    && s.serverFd != s.wakeRead && s.serverFd != s.wakeWrite && s.wakeRead != s.wakeWrite
  }

  predicate PipeSet(s: State) {
    s.wakeRead.Some? && s.wakeWrite.Some? && s.wakeRead != s.wakeWrite
  }

  predicate FieldsFit(s: State) {
    match s.main
    case Idle => s.running ==> FieldsSet(s)
    case StartEntered => true
    case PipeMade => PipeSet(s)
    case SocketGone => PipeSet(s)
    case ReadEndGone => s.wakeWrite.Some?
    case ServerClosed => PipeSet(s)
    case WakeReadClosed => s.wakeWrite.Some?
    case _ => FieldsSet(s)
  }

  predicate RunningFits(s: State) {
    match s.main
    case Idle => true
    case Running => s.running
    case _ => !s.running
  }

  predicate SupervisorFits(s: State) {
    && (s.joinable <==> !s.supervisor.NotStarted?)
    && (s.joinable ==> s.main == Woken || s.main == StopEntered || (s.main == Idle && s.running))
  }

  /** There is no wake byte in the pipe before stop. */
  predicate SignalFits(s: State) {
    s.running || s.main.PipeMade? || s.main.SocketMade? || s.main.Bound? ==> !s.signalled
  }

  /** What is open was never closed, nothing was closed twice, and nothing closed was not open. */
  ghost predicate LogFits(s: State) {
    && !s.misuse
    && (forall fd | fd in s.live :: fd < s.count && fd !in s.closes)
    && (forall fd | fd in s.closes :: fd < s.count)
    && (forall j, k | 0 <= j < k < |s.closes| :: s.closes[j] != s.closes[k])
  }

  predicate OutcomeFits(s: State) {
    s.main.Idle? ==>
      && (s.outcome.StartFailed? ==> !s.joinable && (s.running <==> s.outcome.threadMissing))
      && (s.outcome.Stopped? ==> !s.running)
      && (s.outcome.Started? ==> s.running && s.joinable)
  }

  ghost predicate Inv(s: State) {
    && LogFits(s)
    && s.live == Owned(s) + s.handlers
    && Owned(s) !! s.handlers
    && FieldsFit(s) && RunningFits(s) && SignalFits(s) && SupervisorFits(s) && OutcomeFits(s)
  }

  lemma CloseKeepsLog(s: State, fd: Fd)
    requires LogFits(s) && fd in s.live
    ensures LogFits(Close(s, fd))
  {
  }

  lemma StartKeepsInv(s: State, step: Step)
    requires Inv(s) && Enabled(s, step)
    requires step.EnterStart? || step.Pipe? || step.Socket? || step.Bind? || step.SetRunning? || step.CreateThread?
    ensures Inv(Apply(s, step))
  {
  }

  lemma FailureKeepsInv(s: State, step: Step)
    requires Inv(s) && Enabled(s, step)
    requires step.CloseServerOnFailure? || step.CloseReadOnFailure? || step.CloseWriteOnFailure?
    ensures Inv(Apply(s, step))
  {
    var fd := if step.CloseServerOnFailure? then s.serverFd else if step.CloseReadOnFailure? then s.wakeRead else s.wakeWrite;
    CloseKeepsLog(s, fd.value);
  }

  lemma StopKeepsInv(s: State, step: Step)
    requires Inv(s) && Enabled(s, step)
    requires step.EnterStop? || step.Wake? || step.Join?
    ensures Inv(Apply(s, step))
  {
  }

  lemma StopCloseKeepsInv(s: State, step: Step)
    requires Inv(s) && Enabled(s, step)
    requires step.CloseServer? || step.CloseWakeRead? || step.CloseWakeWrite?
    ensures Inv(Apply(s, step))
  {
    var fd := if step.CloseServer? then s.serverFd else if step.CloseWakeRead? then s.wakeRead else s.wakeWrite;
    CloseKeepsLog(s, fd.value);
  }

  lemma SupervisorKeepsInv(s: State, step: Step)
    requires Inv(s) && Enabled(s, step)
    requires BySupervisor(step)
    ensures Inv(Apply(s, step))
  {
    SupervisorFdsLive(s);
  }

  /** While the supervisor exists, its two descriptors are open. */
  lemma SupervisorFdsLive(s: State)
    requires Inv(s) && s.joinable
    ensures Selectable(s)
  {
  }

  lemma HandlerKeepsInv(s: State, client: Fd)
    requires Inv(s) && Enabled(s, HandlerDone(client))
    ensures Inv(Apply(s, HandlerDone(client)))
  {
    CloseKeepsLog(s, client);
    var t := Apply(s, HandlerDone(client));
    assert Owned(t) == Owned(s);
  }

  lemma StepKeepsInv(s: State, step: Step)
    requires Inv(s) && Enabled(s, step)
    ensures Inv(Apply(s, step))
  {
    hide Inv, Apply, Enabled;
    match step
    case EnterStop => StopKeepsInv(s, step);
    case Wake(_) => StopKeepsInv(s, step);
    case Join => StopKeepsInv(s, step);
    case CloseServer => StopCloseKeepsInv(s, step);
    case CloseWakeRead => StopCloseKeepsInv(s, step);
    case CloseWakeWrite => StopCloseKeepsInv(s, step);
    case CloseServerOnFailure => FailureKeepsInv(s, step);
    case CloseReadOnFailure => FailureKeepsInv(s, step);
    case CloseWriteOnFailure => FailureKeepsInv(s, step);
    case HandlerDone(client) => HandlerKeepsInv(s, client);
    case CheckRunning => SupervisorKeepsInv(s, step);
    case SelectFails => SupervisorKeepsInv(s, step);
    case SelectWoken => SupervisorKeepsInv(s, step);
    case SelectTimeout => SupervisorKeepsInv(s, step);
    case SelectClient => SupervisorKeepsInv(s, step);
    case Accept(_) => SupervisorKeepsInv(s, step);
    case _ => StartKeepsInv(s, step);
  }

  lemma {:induction false} RunKeepsInv(run: seq<State>, k: nat)
    requires IsRun(run) && k < |run|
    ensures Inv(run[k])
  {
    if k > 0 {
      RunKeepsInv(run, k - 1);
      assert Next(run[k - 1], run[k - 1 + 1]);
      hide Inv, Apply, Enabled;
      var step :| Enabled(run[k - 1], step) && run[k] == Apply(run[k - 1], step);
      StepKeepsInv(run[k - 1], step);
    }
  }

  // ----- Results over all runs -----

  /**
   Whatever fails and however the threads interleave, no descriptor is closed twice, none is
   closed while it is not open, and the supervisor only ever selects on open descriptors.
   */
  lemma ClosedAtMostOnce(run: seq<State>, k: nat)
    requires IsRun(run) && k < |run|
    ensures forall i, j | 0 <= i < j < |run[k].closes| :: run[k].closes[i] != run[k].closes[j]
    ensures forall fd | fd in run[k].closes :: fd !in run[k].live
    ensures !run[k].misuse
    ensures run[k].supervisor.Selecting? || run[k].supervisor.Accepting? ==> Selectable(run[k])
  {
    RunKeepsInv(run, k);
    if run[k].joinable {
      SupervisorFdsLive(run[k]);
    }
  }

  /** After stop nothing is left open but what connection threads are still serving. */
  lemma NothingOpenAfterStop(run: seq<State>, k: nat)
    requires IsRun(run) && k < |run|
    requires run[k].main.Idle? && run[k].outcome.Stopped?
    ensures run[k].live == run[k].handlers
  {
    RunKeepsInv(run, k);
  }

  /**
   A start that failed has left the listener's descriptors open exactly when what failed was the
   creation of the supervisor thread; the listener then counts as running, and stop closes them.
   */
  lemma OpenAfterFailedStart(run: seq<State>, k: nat)
    requires IsRun(run) && k < |run|
    requires run[k].main.Idle? && run[k].outcome.StartFailed?
    ensures run[k].live == run[k].handlers <==> !run[k].outcome.threadMissing
    ensures run[k].outcome.threadMissing ==> run[k].running && !run[k].joinable
  {
    RunKeepsInv(run, k);
    var s := run[k];
    if s.outcome.threadMissing {
      assert s.serverFd.value in Owned(s);
      assert s.serverFd.value in s.live && s.serverFd.value !in s.handlers;
    }
  }

  /** A run that shows it: idle again after a failed start, with three descriptors open. */
  lemma FailedStartLeaks() returns (run: seq<State>)
    ensures IsRun(run) && |run| == 7
    ensures run[6].main.Idle? && run[6].outcome == StartFailed(true) && run[6].live == {0, 1, 2}
  {
    var s1 := Apply(INITIAL, EnterStart);
    var s2 := Apply(s1, Pipe(true));
    var s3 := Apply(s2, Socket(true));
    var s4 := Apply(s3, Bind(true));
    var s5 := Apply(s4, SetRunning);
    var s6 := Apply(s5, CreateThread(false));
    run := [INITIAL, s1, s2, s3, s4, s5, s6];
    assert Next(INITIAL, s1) && Next(s1, s2) && Next(s2, s3) && Next(s3, s4) && Next(s4, s5) && Next(s5, s6);
  }

  // ----- start does start -----

  /** After a start that succeeded the listener is running, with its supervisor and three descriptors of its own. */
  lemma AfterStart(run: seq<State>, k: nat)
    requires IsRun(run) && k < |run|
    requires run[k].main.Idle? && run[k].outcome.Started?
    ensures run[k].running && run[k].joinable
    ensures FieldsSet(run[k])
    ensures run[k].live == {run[k].serverFd.value, run[k].wakeRead.value, run[k].wakeWrite.value} + run[k].handlers
  {
    RunKeepsInv(run, k);
    hide LogFits, IsRun;
    assert Owned(run[k]) == {run[k].serverFd.value, run[k].wakeRead.value, run[k].wakeWrite.value};
  }

  /** A chain of steps. */
  ghost predicate Leads(s: State, steps: seq<Step>, t: State)
    decreases |steps|
  {
    if steps == [] then s == t
    else Enabled(s, steps[0]) && Leads(Apply(s, steps[0]), steps[1..], t)
  }

  lemma {:induction false} LeadsOn(run: seq<State>, steps: seq<Step>, t: State) returns (longer: seq<State>)
    requires IsRun(run) && Leads(run[|run| - 1], steps, t)
    ensures IsRun(longer) && run <= longer && |longer| == |run| + |steps| && longer[|longer| - 1] == t
    decreases |steps|
  {
    if steps == [] {
      longer := run;
    } else {
      var next := Apply(run[|run| - 1], steps[0]);
      assert Next(run[|run| - 1], next);
      longer := LeadsOn(run + [next], steps[1..], t);
    }
  }

  /**
   What start comes to, from any state in which it may be called, by which of its system calls
   succeed: it starts exactly when all of them do, and otherwise leaves open what it left open
   before, unless the creation of the thread failed.
   */
  lemma StartOutcome(run: seq<State>, pipe: bool, socket: bool, bind: bool, thread: bool) returns (t: State, steps: seq<Step>)
    requires IsRun(run) && run[|run| - 1].main.Idle? && !run[|run| - 1].running
    ensures Leads(run[|run| - 1], steps, t) && t.main.Idle?
    ensures t.outcome == if !pipe || !socket || !bind then StartFailed(false) else if thread then Started else StartFailed(true)
    ensures var s := run[|run| - 1];
            t.live == if pipe && socket && bind then s.live + {s.count, s.count + 1, s.count + 2} else s.live
    ensures pipe && socket && bind ==> t.running && (thread <==> t.supervisor.Checking?)
  {
    RunKeepsInv(run, |run| - 1);
    var s := run[|run| - 1];
    assert s.count !in s.live && s.count + 1 !in s.live && s.count + 2 !in s.live;
    hide Inv, IsRun, Leads;
    var s1 := Apply(s, EnterStart);
    t, steps := AfterEntering(s1, pipe, socket, bind, thread);
    Cons(s, EnterStart, steps, t);
    steps := [EnterStart] + steps;
  }

  lemma AfterEntering(s: State, pipe: bool, socket: bool, bind: bool, thread: bool) returns (t: State, steps: seq<Step>)
    requires s.main.StartEntered? && !s.running && !s.joinable
    requires s.count !in s.live && s.count + 1 !in s.live && s.count + 2 !in s.live
    ensures Leads(s, steps, t) && t.main.Idle?
    ensures t.outcome == if !pipe || !socket || !bind then StartFailed(false) else if thread then Started else StartFailed(true)
    ensures t.live == if pipe && socket && bind then s.live + {s.count, s.count + 1, s.count + 2} else s.live
    ensures pipe && socket && bind ==> t.running && (thread ==> t.supervisor.Checking?) && (!thread ==> t.supervisor == s.supervisor)
  {
    hide Leads;
    var s2 := Apply(s, Pipe(pipe));
    if pipe {
      t, steps := AfterPipe(s2, socket, bind, thread);
      assert t.live == if socket && bind then s.live + {s.count, s.count + 1, s.count + 2} else s.live;
    } else {
      t, steps := s2, [];
      NoSteps(t);
    }
    Cons(s, Pipe(pipe), steps, t);
    steps := [Pipe(pipe)] + steps;
  }

  lemma AfterPipe(s: State, socket: bool, bind: bool, thread: bool) returns (t: State, steps: seq<Step>)
    requires s.main.PipeMade? && !s.running && !s.joinable && PipeSet(s) && s.count !in s.live
    ensures Leads(s, steps, t) && t.main.Idle?
    ensures t.outcome == if !socket || !bind then StartFailed(false) else if thread then Started else StartFailed(true)
    ensures t.live == if socket && bind then s.live + {s.count} else s.live - {s.wakeRead.value, s.wakeWrite.value}
    ensures socket && bind ==> t.running && (thread ==> t.supervisor.Checking?) && (!thread ==> t.supervisor == s.supervisor)
  {
    hide Leads;
    var s3 := Apply(s, Socket(socket));
    if !socket {
      t, steps := StartUndone(s3);
    } else {
      t, steps := AfterSocket(s3, bind, thread);
      assert !bind ==> t.live == s.live - {s.wakeRead.value, s.wakeWrite.value};
    }
    Cons(s, Socket(socket), steps, t);
    steps := [Socket(socket)] + steps;
  }

  lemma AfterSocket(s: State, bind: bool, thread: bool) returns (t: State, steps: seq<Step>)
    requires s.main.SocketMade? && !s.running && !s.joinable && PipeSet(s) && s.serverFd.Some?
    ensures Leads(s, steps, t) && t.main.Idle?
    ensures t.outcome == if !bind then StartFailed(false) else if thread then Started else StartFailed(true)
    ensures t.live == if bind then s.live else s.live - {s.serverFd.value, s.wakeRead.value, s.wakeWrite.value}
    ensures bind ==> t.running && (thread ==> t.supervisor.Checking?) && (!thread ==> t.supervisor == s.supervisor)
  {
    hide Leads;
    var s4 := Apply(s, Bind(bind));
    if bind {
      var s5 := Apply(s4, SetRunning);
      t := Apply(s5, CreateThread(thread));
      NoSteps(t);
      Cons(s5, CreateThread(thread), [], t);
      Cons(s4, SetRunning, [CreateThread(thread)] + [], t);
      steps := [SetRunning] + ([CreateThread(thread)] + []);
    } else {
      var s5 := Apply(s4, CloseServerOnFailure);
      t, steps := StartUndone(s5);
      Cons(s4, CloseServerOnFailure, steps, t);
      steps := [CloseServerOnFailure] + steps;
      assert t.live == s.live - {s.serverFd.value, s.wakeRead.value, s.wakeWrite.value};
    }
    Cons(s, Bind(bind), steps, t);
    steps := [Bind(bind)] + steps;
  }

  lemma NoSteps(t: State)
    ensures Leads(t, [], t)
  {
  }

  lemma Cons(s: State, step: Step, steps: seq<Step>, t: State)
    requires Enabled(s, step) && Leads(Apply(s, step), steps, t)
    ensures Leads(s, [step] + steps, t)
  {
    assert ([step] + steps)[1..] == steps;
    hide Apply, Enabled;
  }

  /** Closing the pipe after a failure. */
  lemma StartUndone(s: State) returns (t: State, steps: seq<Step>)
    requires s.main.SocketGone? && PipeSet(s)
    ensures Leads(s, steps, t)
    ensures t.main.Idle? && t.outcome == StartFailed(false)
    ensures t.live == s.live - {s.wakeRead.value, s.wakeWrite.value}
  {
    hide Leads;
    var s1 := Apply(s, CloseReadOnFailure);
    t := Apply(s1, CloseWriteOnFailure);
    NoSteps(t);
    Cons(s1, CloseWriteOnFailure, [], t);
    Cons(s, CloseReadOnFailure, [CloseWriteOnFailure] + [], t);
    steps := [CloseReadOnFailure] + ([CloseWriteOnFailure] + []);
  }

  // ----- and the listener does serve -----

  /** While the listener runs, only a failing select ends the supervisor. */
  lemma KeepsServing(run: seq<State>, k: nat, step: Step)
    requires IsRun(run) && k < |run| && Enabled(run[k], step)
    requires run[k].running && !run[k].supervisor.Exited?
    ensures Apply(run[k], step).supervisor.Exited? ==> step == SelectFails && run[k].supervisor.Selecting?
  {
    RunKeepsInv(run, k);
    hide LogFits, Owned, FieldsFit, OutcomeFits, IsRun;
  }

  /** So a supervisor that never met a failing select is there as long as the listener runs. */
  lemma {:induction false} ExitMeansFailure(run: seq<State>, k: nat)
    requires IsRun(run) && k < |run| && run[k].running && run[k].supervisor.Exited?
    ensures exists j | 0 <= j < k :: run[j].supervisor.Selecting? && run[j].running && Enabled(run[j], SelectFails)
                                     && run[j + 1] == Apply(run[j], SelectFails)
    decreases k
  {
    hide Apply, Enabled;
    if k > 0 {
      assert Next(run[k - 1], run[k - 1 + 1]);
      var step :| Enabled(run[k - 1], step) && run[k] == Apply(run[k - 1], step);
      if run[k - 1].running && !run[k - 1].supervisor.Exited? {
        KeepsServing(run, k - 1, step);
      } else {
        RunsOn(run, k - 1, step);
        ExitMeansFailure(run, k - 1);
      }
    }
  }

  lemma RunsOn(run: seq<State>, k: nat, step: Step)
    requires IsRun(run) && k < |run| && Enabled(run[k], step)
    requires Apply(run[k], step).running && Apply(run[k], step).supervisor.Exited?
    ensures run[k].running
  {
    RunKeepsInv(run, k);
    hide LogFits, Owned, OutcomeFits, IsRun;
  }

  /** A running listener accepts a client in three steps and is back at its loop, with a thread for the client. */
  lemma Serves(run: seq<State>) returns (longer: seq<State>)
    requires IsRun(run) && run[|run| - 1].running && run[|run| - 1].supervisor.Checking?
    ensures IsRun(longer) && run <= longer && |longer| == |run| + 3
    ensures var s, t := run[|run| - 1], longer[|longer| - 1];
            && t.supervisor.Checking? && t.running
            && t.handlers == s.handlers + {s.count} && t.live == s.live + {s.count} && s.count !in s.live
  {
    RunKeepsInv(run, |run| - 1);
    hide Apply, Enabled, Leads, IsRun, Owned, FieldsFit, RunningFits, SupervisorFits, OutcomeFits;
    var t, steps := ServesOne(run[|run| - 1]);
    longer := LeadsOn(run, steps, t);
  }

  lemma ServesOne(s: State) returns (t: State, steps: seq<Step>)
    requires s.running && !s.signalled && s.supervisor.Checking?
    ensures Leads(s, steps, t) && |steps| == 3
    ensures t.supervisor.Checking? && t.running
    ensures t.handlers == s.handlers + {s.count} && t.live == s.live + {s.count}
  {
    hide Leads;
    var s1 := Apply(s, CheckRunning);
    var s2 := Apply(s1, SelectClient);
    t := Apply(s2, Accept(true));
    NoSteps(t);
    Cons(s2, Accept(true), [], t);
    Cons(s1, SelectClient, [Accept(true)] + [], t);
    Cons(s, CheckRunning, [SelectClient] + ([Accept(true)] + []), t);
    steps := [CheckRunning] + ([SelectClient] + ([Accept(true)] + []));
  }

  /** A connection thread can always finish, and then its descriptor is closed, the others stay. */
  lemma HandlerCloses(s: State, client: Fd)
    requires client in s.handlers
    ensures Enabled(s, HandlerDone(client))
    ensures var t := Apply(s, HandlerDone(client));
            && t.live == s.live - {client} && t.handlers == s.handlers - {client}
            && t.closes == s.closes + [client] && t.supervisor == s.supervisor && t.main == s.main
  {
  }

  // ----- start and stop come to an end -----

  /** Steps start or stop still has to take. */
  function MainLeft(pc: MainPc): nat {
    match pc
    case Idle => 0
    case StartEntered => 7
    case PipeMade => 6
    case SocketMade => 5
    case Bound => 2
    case Running => 1
    case BindFailed => 4
    case SocketGone => 3
    case ReadEndGone => 1
    case StopEntered => 6
    case Woken => 5
    case Joined => 4
    case ServerClosed => 2
    case WakeReadClosed => 1
  }

  predicate ByMain(step: Step) {
    !BySupervisor(step) && !step.HandlerDone? && !step.EnterStart? && !step.EnterStop?
  }

  /** Inside start and stop there is always a next step, but for the join. */
  lemma MainHasStep(s: State)
    requires !s.main.Idle?
    ensures (exists step :: ByMain(step) && Enabled(s, step)) || (s.main.Woken? && s.joinable && !s.supervisor.Exited?)
  {
    var step := match s.main
      case Idle => EnterStart
      case StartEntered => Pipe(true)
      case PipeMade => Socket(true)
      case SocketMade => Bind(true)
      case Bound => SetRunning
      case Running => CreateThread(true)
      case BindFailed => CloseServerOnFailure
      case SocketGone => CloseReadOnFailure
      case ReadEndGone => CloseWriteOnFailure
      case StopEntered => Wake(true)
      case Woken => Join
      case Joined => CloseServer
      case ServerClosed => CloseWakeRead
      case WakeReadClosed => CloseWakeWrite;
    if !(s.main.Woken? && s.joinable && !s.supervisor.Exited?) {
      assert ByMain(step) && Enabled(s, step);
    }
  }

  /** Each of them brings the end closer, and no other thread sets it back. */
  lemma MainGoesOn(s: State, step: Step)
    requires Enabled(s, step) && !s.main.Idle?
    ensures ByMain(step) ==> MainLeft(Apply(s, step).main) < MainLeft(s.main)
    ensures !ByMain(step) ==> Apply(s, step).main == s.main
  {
  }

  /** start on a running listener and stop on one that is not change nothing. */
  lemma CallsWithoutEffect(s: State)
    requires s.main.Idle?
    ensures s.running ==> Apply(s, EnterStart) == s.(outcome := StartRefused)
    ensures !s.running ==> Apply(s, EnterStop) == s.(outcome := Stopped)
    ensures s.running ==> !Apply(s, EnterStop).running && !Apply(s, EnterStop).main.Idle?
  {
  }

  /** The wake byte: with it in the pipe whatever select reports ends the supervisor, without it the pipe reports nothing. */
  lemma WakeByte(s: State, ok: bool, step: Step)
    ensures s.main.StopEntered? ==> Enabled(s, Wake(ok)) && Apply(s, Wake(ok)).signalled == ok
    ensures s.supervisor.Selecting? && BySupervisor(step) && Enabled(s, step) ==>
              && (s.signalled ==> Apply(s, step).supervisor.Exited?)
              && (!s.signalled ==> !step.SelectWoken?)
  {
  }

  // ----- stop does not wait forever -----

  /** Steps the supervisor can still take once running_ is cleared. */
  function StepsLeft(pc: SupervisorPc): nat {
    match pc
    case NotStarted => 0
    case Exited => 0
    case Checking => 1
    case Accepting => 2
    case Selecting => 3
  }

  /** While stop waits, a supervisor step comes strictly closer to the exit and no other step sets the supervisor back. */
  lemma StepTowardsExit(s: State, step: Step)
    requires RunningFits(s) && Enabled(s, step) && s.main.Woken?
    ensures BySupervisor(step) ==> StepsLeft(Apply(s, step).supervisor) < StepsLeft(s.supervisor)
    ensures !BySupervisor(step) && Apply(s, step).main.Woken? ==> Apply(s, step).supervisor == s.supervisor
  {
  }

  /** How often the supervisor moved between two points of a run. */
  function Moves(run: seq<State>, i: nat, k: nat): nat
    requires i <= k < |run|
  {
    if i == k then 0
    else Moves(run, i, k - 1) + (if run[k].supervisor != run[k - 1].supervisor then 1 else 0)
  }

  /**
   As long as stop waits to join, the supervisor moves at most three times, whether or not the
   wake byte could be written; the join can be taken exactly when no move is left, and until then
   the supervisor has a step to take.
   */
  lemma {:induction false} JoinComes(run: seq<State>, i: nat, k: nat)
    requires IsRun(run) && i <= k < |run|
    requires forall j | i <= j <= k :: run[j].main.Woken?
    ensures Moves(run, i, k) + StepsLeft(run[k].supervisor) <= StepsLeft(run[i].supervisor) <= 3
    ensures Enabled(run[k], Join) <==> StepsLeft(run[k].supervisor) == 0
    ensures Enabled(run[k], Join) <==> !exists step :: BySupervisor(step) && Enabled(run[k], step)
  {
    hide Inv, Next, Enabled, StepsLeft;
    WaitingToJoin(run, k);
    if i < k {
      JoinComes(run, i, k - 1);
      assert Next(run[k - 1], run[k - 1 + 1]);
      MovesTowardsExit(run, k - 1);
    }
  }

  lemma WaitingToJoin(run: seq<State>, k: nat)
    requires IsRun(run) && k < |run| && run[k].main.Woken?
    ensures StepsLeft(run[k].supervisor) <= 3
    ensures Enabled(run[k], Join) <==> StepsLeft(run[k].supervisor) == 0
    ensures Enabled(run[k], Join) <==> !exists step :: BySupervisor(step) && Enabled(run[k], step)
  {
    RunKeepsInv(run, k);
    hide LogFits, Owned, FieldsFit, OutcomeFits, RunningFits, IsRun;
    var s := run[k];
    match s.supervisor
    case Checking => assert BySupervisor(CheckRunning) && Enabled(s, CheckRunning);
    case Selecting => assert BySupervisor(SelectFails) && Enabled(s, SelectFails);
    case Accepting => assert BySupervisor(Accept(false)) && Enabled(s, Accept(false));
    case _ =>
  }

  lemma MovesTowardsExit(run: seq<State>, k: nat)
    requires IsRun(run) && k + 1 < |run| && run[k].main.Woken? && run[k + 1].main.Woken?
    ensures run[k + 1].supervisor == run[k].supervisor
         || StepsLeft(run[k + 1].supervisor) < StepsLeft(run[k].supervisor)
  {
    hide Apply, Enabled;
    RunKeepsInv(run, k);
    assert Next(run[k], run[k + 1]);
    var step :| Enabled(run[k], step) && run[k + 1] == Apply(run[k], step);
    hide LogFits, Owned, FieldsFit, OutcomeFits, SupervisorFits, RunningFits, IsRun, StepsLeft;
    StepTowardsExit(run[k], step);
  }
}
