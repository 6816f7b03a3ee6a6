/**
 The round-robin scheduler of threads/thread.c with the timer-interrupt return
 path of threads/interrupt.c.

 A section that runs with interrupts off is one atomic action.  A thread is
 named by an identifier that is never reused; `status` holds the threads whose
 `struct thread` has not been freed.  `idler` is the thread whose function is
 idle(); it becomes `idleThread` when it has run for the first time.
 */
module Scheduler {
  import opened Common

  type Tid = nat

  datatype Status = Running | Ready | Blocked | Dying

  const TIME_SLICE: nat := 4

  datatype State = State(
    status: map<Tid, Status>,
    current: Tid,
    ready: seq<Tid>,
    idleThread: Option<Tid>,
    ticks: nat,
    freed: seq<Tid>,
    initial: Tid,
    idler: Tid)

  // ---------------------------------------------------------------------
  // What each interrupts-off section does
  // ---------------------------------------------------------------------

  /** schedule() hands next_thread_to_run() to is_thread(), which refuses NULL. */
  predicate HasNext(s: State) {
    && s.current in s.status
    && (s.ready == [] ==> s.idleThread.Some? && s.idleThread.value in s.status)
    && (s.ready != [] ==> s.ready[0] in s.status)
  }

  /** schedule(): switch to the next thread, whose thread_schedule_tail() then
      starts a new time slice and frees a dying predecessor. */
  function Schedule(s: State): State
    requires HasNext(s)
  {
    var next := if s.ready == [] then s.idleThread.value else s.ready[0];
    var dead := next != s.current && s.status[s.current] == Dying && s.current != s.initial;
    var status := s.status[next := Running];
    s.(current := next,
       ready := if s.ready == [] then [] else s.ready[1..],
       ticks := 0,
       status := if dead then status - {s.current} else status,
       freed := if dead then s.freed + [s.current] else s.freed)
  }

  function SetCurrent(s: State, st: Status): State {
    s.(status := s.status[s.current := st])
  }

  /** thread_yield(), with interrupts off, before it calls schedule(). */
  function BeforeYield(s: State): State {
    SetCurrent(s, Ready).(ready := if Some(s.current) != s.idleThread then s.ready + [s.current] else s.ready)
  }

  function Yield(s: State): State
    requires HasNext(BeforeYield(s))
  {
    Schedule(BeforeYield(s))
  }

  function Block(s: State): State
    requires HasNext(SetCurrent(s, Blocked))
  {
    Schedule(SetCurrent(s, Blocked))
  }

  function Exit(s: State): State
    requires HasNext(SetCurrent(s, Dying))
  {
    Schedule(SetCurrent(s, Dying))
  }

  function Unblock(s: State, t: Tid): State {
    s.(ready := s.ready + [t], status := s.status[t := Ready])
  }

  /** init_thread() for a page just obtained by thread_create(). */
  function Create(s: State, t: Tid): State {
    s.(status := s.status[t := Blocked])
  }

  /** One timer interrupt: thread_tick(), then the yield that intr_handler()
      performs on return if thread_tick() asked for it. */
  function Tick(s: State): State
    requires HasNext(BeforeYield(s))
  {
    var s1 := s.(ticks := s.ticks + 1);
    if s1.ticks >= TIME_SLICE then Yield(s1) else s1
  }

  // ---------------------------------------------------------------------
  // The invariant
  // ---------------------------------------------------------------------

  ghost predicate OneRunning(s: State) {
    && s.current in s.status && s.status[s.current] == Running
    && forall t :: t in s.status && s.status[t] == Running ==> t == s.current
  }

  /** ready_list is duplicate-free and holds exactly the READY threads other
      than the registered idle thread. */
  ghost predicate ReadyListExact(s: State) {
    && NoDup(s.ready)
    && forall t :: t in s.ready <==> t in s.status && s.status[t] == Ready && Some(t) != s.idleThread
  }

  ghost predicate IdleAvailable(s: State) {
    && s.idler in s.status && s.status[s.idler] != Dying && s.idler != s.initial
    && (s.idleThread == None || s.idleThread == Some(s.idler))
    && (s.idleThread == None ==> s.status[s.idler] != Blocked)
  }

  /** Freed threads are gone for good, and only the initial thread is ever left
      dying. */
  ghost predicate FreedOnce(s: State) {
    && NoDup(s.freed)
    && (forall t :: t in s.freed ==> t !in s.status && t != s.initial)
    && forall t :: t in s.status && s.status[t] == Dying ==> t == s.initial
  }

  ghost predicate Inv(s: State) {
    OneRunning(s) && ReadyListExact(s) && IdleAvailable(s) && FreedOnce(s) && s.ticks < TIME_SLICE
  }

  // ---------------------------------------------------------------------
  // Actions and runs
  // ---------------------------------------------------------------------

  datatype Action =
    | TimerTick
    | DoYield
    | DoBlock
    | DoExit
    | DoUnblock(t: Tid)
    | DoCreate(t: Tid)
    | RegisterIdle

  /** What the source asserts, and what the code of idle() never does. */
  ghost predicate Enabled(s: State, a: Action) {
    match a
    case TimerTick => true
    case DoYield => true
    case DoBlock => s.current == s.idler ==> s.idleThread == Some(s.idler)
    case DoExit => s.current != s.idler
    case DoUnblock(t) => t in s.status && s.status[t] == Blocked && t != s.idler
    case DoCreate(t) => t !in s.status && t !in s.freed && t != s.initial
    case RegisterIdle => s.current == s.idler && s.idleThread == None
  }

  /** Under the invariant every schedule() finds a thread: the preconditions of
      the calls below are the assertion is_thread(next). */
  ghost function Apply(s: State, a: Action): State
    requires Inv(s) && Enabled(s, a)
  {
    match a
    case TimerTick => Tick(s)
    case DoYield => Yield(s)
    case DoBlock => Block(s)
    case DoExit => Exit(s)
    case DoUnblock(t) => Unblock(s, t)
    case DoCreate(t) => Create(s, t)
    case RegisterIdle => s.(idleThread := Some(s.current))
  }

  lemma YieldKeepsInv(s: State)
    requires OneRunning(s) && ReadyListExact(s) && IdleAvailable(s) && FreedOnce(s)
    ensures Inv(Yield(s))
  {
    var m := BeforeYield(s);
    assert NoDup(m.ready);
    ScheduleKeepsInv(m);
  }

  /** What schedule() needs of the state in which it is called. */
  ghost predicate Descheduled(s: State) {
    && s.current in s.status && s.status[s.current] != Running
    && (forall t :: t in s.status ==> s.status[t] != Running)
    && ReadyListExact(s)
    && s.idler in s.status && s.status[s.idler] != Dying && s.idler != s.initial
    && (s.idleThread == None || s.idleThread == Some(s.idler))
    && (s.idleThread == None ==> s.status[s.idler] == Ready)
    && NoDup(s.freed)
    && (forall t :: t in s.freed ==> t !in s.status && t != s.initial)
    && forall t :: t in s.status && s.status[t] == Dying ==> t == s.initial || t == s.current
  }

  lemma DescheduledHasNext(s: State)
    requires Descheduled(s)
    ensures HasNext(s)
  {
    assert s.idleThread == None ==> s.idler in s.ready;
    if s.ready != [] {
      assert s.ready[0] in s.ready;
    }
  }

  lemma ScheduleKeepsReady(s: State)
    requires Descheduled(s) && HasNext(s)
    ensures ReadyListExact(Schedule(s))
  {
    var r := Schedule(s);
    if s.ready != [] {
      PopFront(s.ready);
    }
    forall t ensures t in r.ready <==> t in r.status && r.status[t] == Ready && Some(t) != r.idleThread {
      assert t in s.ready <==> t in s.status && s.status[t] == Ready && Some(t) != s.idleThread;
    }
  }

  lemma ScheduleKeepsInv(s: State)
    requires Descheduled(s)
    ensures HasNext(s) && Inv(Schedule(s))
  {
    hide ReadyListExact;
    DescheduledHasNext(s);
    ScheduleKeepsReady(s);
    assert NoDup(Schedule(s).freed);
  }

  /** Every action keeps the whole invariant. */
  lemma ApplyKeepsInv(s: State, a: Action)
    requires Inv(s) && Enabled(s, a)
    ensures Inv(Apply(s, a))
  {
    match a
    case TimerTick => if s.ticks + 1 >= TIME_SLICE { YieldKeepsInv(s.(ticks := s.ticks + 1)); }
    case DoYield => YieldKeepsInv(s);
    case DoBlock => ScheduleKeepsInv(SetCurrent(s, Blocked));
    case DoExit => ScheduleKeepsInv(SetCurrent(s, Dying));
    case DoUnblock(t) => assert NoDup(Unblock(s, t).ready);
    case DoCreate(t) =>
    case RegisterIdle =>
  }

  predicate IsRunnable(s: State, t: Tid) {
    t in s.status && (s.status[t] == Running || s.status[t] == Ready)
  }

  predicate IsBlocked(s: State, t: Tid) {
    t in s.status && s.status[t] == Blocked
  }

  /** From s to s' thread t stays runnable, blocked or neither, as it was; only
      the idle thread may be woken by being chosen to run. */
  ghost predicate SameThread(s: State, s': State, t: Tid) {
    && (t in s.status <==> t in s'.status)
    && (IsRunnable(s, t) ==> IsRunnable(s', t))
    && (IsRunnable(s', t) ==> IsRunnable(s, t) || (t == s.idler && IsBlocked(s, t)))
    && (IsBlocked(s, t) ==> IsBlocked(s', t) || (t == s.idler && IsRunnable(s', t)))
    && (IsBlocked(s', t) ==> IsBlocked(s, t))
  }

  ghost predicate SameNames(s: State, s': State) {
    s'.idler == s.idler && s'.idleThread == s.idleThread && s'.initial == s.initial
  }

  /** next_thread_to_run() picks a READY thread or the idle thread. */
  ghost predicate PicksRunnable(s: State) {
    && HasNext(s)
    && (s.ready == [] ==> s.idleThread == Some(s.idler) && s.status[s.idler] != Dying)
    && (s.ready != [] ==> s.status[s.ready[0]] == Ready)
  }

  lemma InvPicksRunnable(s: State, st: Status)
    requires Inv(s) && st != Running
    requires s.current == s.idler ==> st != Dying && (st == Blocked ==> s.idleThread == Some(s.idler))
    requires s.idleThread == None && s.current == s.idler ==> st != Ready
    ensures PicksRunnable(SetCurrent(s, st))
  {
    assert s.idleThread == None && s.current != s.idler ==> s.idler in s.ready;
    if s.ready != [] { assert s.ready[0] in s.ready; }
  }

  /** A change of the running thread touches nobody else's state. */
  lemma ScheduleEffect(s: State)
    requires PicksRunnable(s) && s.status[s.current] != Running
    ensures SameNames(s, Schedule(s))
    ensures forall t :: t != s.current ==> SameThread(s, Schedule(s), t)
    ensures s.status[s.current] != Dying ==> SameThread(s, Schedule(s), s.current)
    ensures s.status[s.current] == Dying && s.current != s.idler && s.current !in s.ready ==>
              && (s.current in Schedule(s).status <==> s.current == s.initial)
              && !IsRunnable(Schedule(s), s.current) && !IsBlocked(Schedule(s), s.current)
  {
  }

  lemma YieldEffect(s: State)
    requires Inv(s)
    ensures SameNames(s, Yield(s)) && forall t :: SameThread(s, Yield(s), t)
  {
    assert s.ready != [] ==> s.ready[0] in s.ready;
    var m := BeforeYield(s);
    assert PicksRunnable(m);
    ScheduleEffect(m);
    forall t ensures SameThread(s, Yield(s), t) {
      assert SameThread(m, Yield(s), t);
    }
  }

  lemma TickEffect(s: State)
    requires Inv(s)
    ensures SameNames(s, Tick(s)) && forall t :: SameThread(s, Tick(s), t)
  {
    YieldEffect(s);
  }

  lemma BlockEffect(s: State)
    requires Inv(s) && Enabled(s, DoBlock)
    ensures SameNames(s, Block(s)) && forall t :: t != s.current ==> SameThread(s, Block(s), t)
    ensures s.current in Block(s).status
    ensures s.current != s.idler ==> IsBlocked(Block(s), s.current)
    ensures s.current == s.idler ==> IsBlocked(Block(s), s.current) || IsRunnable(Block(s), s.current)
  {
    InvPicksRunnable(s, Blocked);
    var m := SetCurrent(s, Blocked);
    ScheduleEffect(m);
    forall t | t != s.current ensures SameThread(s, Block(s), t) {
      assert SameThread(m, Block(s), t);
    }
    assert SameThread(m, Block(s), s.current);
  }

  lemma ExitEffect(s: State)
    requires Inv(s) && Enabled(s, DoExit)
    ensures SameNames(s, Exit(s)) && forall t :: t != s.current ==> SameThread(s, Exit(s), t)
    ensures s.current in Exit(s).status <==> s.current == s.initial
    ensures !IsRunnable(Exit(s), s.current) && !IsBlocked(Exit(s), s.current)
  {
    InvPicksRunnable(s, Dying);
    var m := SetCurrent(s, Dying);
    ScheduleEffect(m);
    forall t | t != s.current ensures SameThread(s, Exit(s), t) {
      assert SameThread(m, Exit(s), t);
    }
  }

  // ---------------------------------------------------------------------
  // Runs
  // ---------------------------------------------------------------------

  /** The state in thread_start() after the idle thread was created: `main` runs,
      the idle thread waits in the ready list. */
  ghost function Boot(main: Tid, idler: Tid): State {
    State(map[main := Running, idler := Ready], main, [idler], None, 0, [], main, idler)
  }

  ghost predicate ValidRun(s: State, run: seq<Action>)
    requires Inv(s)
    decreases run
  {
    run == [] ||
    (Enabled(s, run[0]) && (ApplyKeepsInv(s, run[0]); ValidRun(Apply(s, run[0]), run[1..])))
  }

  ghost function After(s: State, run: seq<Action>): (r: State)
    requires Inv(s) && ValidRun(s, run)
    ensures Inv(r)
    decreases run
  {
    if run == [] then s else
    ApplyKeepsInv(s, run[0]);
    After(Apply(s, run[0]), run[1..])
  }

  /** Does this action call schedule()? */
  ghost predicate Schedules(s: State, a: Action) {
    match a
    case TimerTick => s.ticks + 1 >= TIME_SLICE
    case DoYield => true
    case DoBlock => true
    case DoExit => true
    case _ => false
  }

  ghost function ScheduleCount(s: State, run: seq<Action>): nat
    requires Inv(s) && ValidRun(s, run)
    decreases run
  {
    if run == [] then 0 else
    ApplyKeepsInv(s, run[0]);
    (if Schedules(s, run[0]) then 1 else 0) + ScheduleCount(Apply(s, run[0]), run[1..])
  }

  ghost function TickCount(run: seq<Action>): nat {
    if run == [] then 0 else (if run[0] == TimerTick then 1 else 0) + TickCount(run[1..])
  }

  /** From boot, every state of every run keeps the scheduler's invariant. */
  lemma ReachableInv(main: Tid, idler: Tid, run: seq<Action>)
    requires main != idler
    ensures Inv(Boot(main, idler))
    ensures ValidRun(Boot(main, idler), run) ==> Inv(After(Boot(main, idler), run))
  {
  }

  /** At most TIME_SLICE ticks go by between two calls of schedule(), because a
      tick that reaches TIME_SLICE yields before its interrupt returns. */
  lemma {:induction false} TicksBetweenSchedules(s: State, run: seq<Action>)
    requires Inv(s) && ValidRun(s, run)
    ensures s.ticks + TickCount(run) <= TIME_SLICE * ScheduleCount(s, run) + After(s, run).ticks
    decreases run
  {
    if run != [] {
      ApplyKeepsInv(s, run[0]);
      TicksBetweenSchedules(Apply(s, run[0]), run[1..]);
    }
  }

  /** What other code can do to the scheduler while the current thread just computes. */
  predicate Passive(a: Action) {
    a.TimerTick? || a.DoUnblock?
  }

  /** The current thread keeps the processor until the last tick of its time slice, which takes
      it away: it is not preempted earlier, whoever becomes ready. */
  lemma {:induction false} FullSlice(s: State, run: seq<Action>)
    requires Inv(s) && ValidRun(s, run) && forall i :: 0 <= i < |run| ==> Passive(run[i])
    ensures s.ticks + TickCount(run) < TIME_SLICE ==>
              After(s, run).current == s.current && After(s, run).ticks == s.ticks + TickCount(run)
    ensures s.ticks + TickCount(run) == TIME_SLICE && run[|run| - 1] == TimerTick && s.ready != [] ==>
              After(s, run).current == s.ready[0] && After(s, run).ticks == 0
    decreases run
  {
    if run != [] {
      var s', rest := Apply(s, run[0]), run[1..];
      ApplyKeepsInv(s, run[0]);
      assert forall i :: 0 <= i < |rest| ==> rest[i] == run[i + 1];
      if s.ticks + TickCount(run) == TIME_SLICE && run[|run| - 1] == TimerTick && rest != [] {
        LastTickCounts(rest);
      }
      if run[0] != TimerTick || s.ticks + 1 < TIME_SLICE {
        assert s'.current == s.current && s.ready <= s'.ready;
        FullSlice(s', rest);
      }
    }
  }

  lemma {:induction false} LastTickCounts(run: seq<Action>)
    requires run != [] && run[|run| - 1] == TimerTick
    ensures TickCount(run) > 0
  {
    if |run| > 1 {
      LastTickCounts(run[1..]);
    }
  }

  lemma ApplyMovesQueue(s: State, a: Action, k: nat)
    requires Inv(s) && Enabled(s, a) && k < |s.ready|
    ensures !Schedules(s, a) ==> k < |Apply(s, a).ready| && Apply(s, a).ready[k] == s.ready[k]
    ensures Schedules(s, a) && k == 0 ==> Apply(s, a).current == s.ready[0]
    ensures Schedules(s, a) && k > 0 ==> k - 1 < |Apply(s, a).ready| && Apply(s, a).ready[k - 1] == s.ready[k]
  {
  }

  /** A thread at index k of the ready list is switched to by exactly the
      (k+1)-th call of schedule(); until then it only moves forward. */
  lemma {:induction false} RoundRobin(s: State, run: seq<Action>, k: nat)
    requires Inv(s) && ValidRun(s, run) && k < |s.ready|
    ensures var c := ScheduleCount(s, run);
            c <= k ==> k - c < |After(s, run).ready| && After(s, run).ready[k - c] == s.ready[k]
    ensures ScheduleCount(s, run) > k ==>
              exists p :: 0 < p <= |run| && ValidRun(s, run[..p])
                && ScheduleCount(s, run[..p]) == k + 1
                && After(s, run[..p]).current == s.ready[k]
    decreases run
  {
    hide Inv, Enabled, Apply, Schedules;
    if run != [] {
      var a, rest := run[0], run[1..];
      ApplyKeepsInv(s, a);
      ApplyMovesQueue(s, a, k);
      var s' := Apply(s, a);
      if Schedules(s, a) && k == 0 {
        PrefixStep(s, run, 0);
      } else {
        var k' := if Schedules(s, a) then k - 1 else k;
        RoundRobin(s', rest, k');
        if ScheduleCount(s, run) > k {
          var p :| 0 < p <= |rest| && ValidRun(s', rest[..p])
            && ScheduleCount(s', rest[..p]) == k' + 1 && After(s', rest[..p]).current == s'.ready[k'];
          PrefixStep(s, run, p);
        }
      }
    }
  }

  /** A prefix of a run, seen from its second state. */
  lemma PrefixStep(s: State, run: seq<Action>, p: nat)
    requires Inv(s) && ValidRun(s, run) && p < |run|
    requires Inv(Apply(s, run[0])) && ValidRun(Apply(s, run[0]), run[1..][..p])
    ensures ValidRun(s, run[..p + 1])
    ensures After(s, run[..p + 1]) == After(Apply(s, run[0]), run[1..][..p])
    ensures ScheduleCount(s, run[..p + 1])
         == (if Schedules(s, run[0]) then 1 else 0) + ScheduleCount(Apply(s, run[0]), run[1..][..p])
  {
    assert run[..p + 1][1..] == run[1..][..p];
  }

  /** The same bound in timer ticks: 4 * (k+1) delivered ticks suffice. */
  lemma RoundRobinTicks(s: State, run: seq<Action>, k: nat)
    requires Inv(s) && ValidRun(s, run) && k < |s.ready|
    requires TickCount(run) >= TIME_SLICE * (k + 1)
    ensures exists p :: 0 < p <= |run| && ValidRun(s, run[..p]) && After(s, run[..p]).current == s.ready[k]
  {
    TicksBetweenSchedules(s, run);
    RoundRobin(s, run, k);
  }

  /** The thread that exits in this action, unless it is the initial thread. */
  ghost function ExitedNow(s: State, a: Action): seq<Tid> {
    if a == DoExit && s.current != s.initial then [s.current] else []
  }

  lemma ApplyFreed(s: State, a: Action)
    requires Inv(s) && Enabled(s, a)
    ensures Apply(s, a).freed == s.freed + ExitedNow(s, a)
    ensures a == DoExit ==> Apply(s, a).current != s.current
  {
    if a == DoExit { ExitSwitches(s); }
  }

  /** A dying thread is never its own successor: it is in no queue and is not
      the idle thread. */
  lemma ExitSwitches(s: State)
    requires Inv(s) && s.current != s.idler
    ensures Exit(s).current != s.current
  {
    if s.ready != [] { assert s.ready[0] in s.ready; }
  }

  /** The threads that called thread_exit() in a run, in order, without the
      initial thread. */
  ghost function Exited(s: State, run: seq<Action>): seq<Tid>
    requires Inv(s) && ValidRun(s, run)
    decreases run
  {
    if run == [] then [] else
    ApplyKeepsInv(s, run[0]);
    ExitedNow(s, run[0]) + Exited(Apply(s, run[0]), run[1..])
  }

  /** Freed pages are exactly those of the threads that exited, in that order. */
  lemma {:induction false} FreedExactly(s: State, run: seq<Action>)
    requires Inv(s) && ValidRun(s, run)
    ensures After(s, run).freed == s.freed + Exited(s, run)
    decreases run
  {
    if run != [] {
      ExitedStep(s, run);
      FreedExactly(Apply(s, run[0]), run[1..]);
    }
  }

  lemma ExitedStep(s: State, run: seq<Action>)
    requires Inv(s) && ValidRun(s, run) && run != []
    ensures Inv(Apply(s, run[0]))
    ensures s.freed + Exited(s, run) == Apply(s, run[0]).freed + Exited(Apply(s, run[0]), run[1..])
  {
    ApplyKeepsInv(s, run[0]);
    ApplyFreed(s, run[0]);
    AppendAssociates(s.freed, ExitedNow(s, run[0]), Exited(Apply(s, run[0]), run[1..]));
  }

  lemma AppendAssociates<T>(a: seq<T>, b: seq<T>, c: seq<T>)
    ensures a + (b + c) == (a + b) + c
  {
  }

  /** Every thread that exits (other than the initial one) is freed exactly once,
      and after that it is neither allocated nor current nor queued. */
  lemma FreedOnceAndForAll(main: Tid, idler: Tid, run: seq<Action>)
    requires main != idler && ValidRun(Boot(main, idler), run)
    ensures var s := After(Boot(main, idler), run);
            && s.freed == Exited(Boot(main, idler), run) && NoDup(s.freed)
            && forall t :: t in s.freed ==> t !in s.status && t != s.current && t !in s.ready
  {
    FreedExactly(Boot(main, idler), run);
  }
}
