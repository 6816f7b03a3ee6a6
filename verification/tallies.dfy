/**
 Semaphores and condition variables of threads/synch.c as ledgers of whole runs: values,
 wait lists and queues are what the calls of the run, counted and listed in their order,
 make of the ones before.  The history fields of Synch occur in no count here.
 */
module Tallies {
  import opened Common
  import S = Scheduler
  import opened Synch
  import opened Calls
  import opened Returns

  // ---------------------------------------------------------------------
  // Semaphores
  // ---------------------------------------------------------------------

  /** An initialised semaphore other than the private ones of cond_wait(). */
  predicate Known(k: State, s: SemaId) {
    s in k.semas && match s case Plain(_) => true case OfLock(l) => l in k.holder case OfWaiter(_, _) => false
  }

  lemma KnownKept(k: State, st: Step, k': State, s: SemaId)
    requires k.Cur() in k.pc && Enabled(k, st) && Known(k, s) && SemasAs(k, st, k') && HoldersAs(k, st, k')
    ensures NewValue(k, st, s) == None && Known(k', s) && k'.semas[s] == SemaAfter(k, st, s)
  {
  }

  function Bit(b: bool): nat {
    if b then 1 else 0
  }

  /** The calls of sema_up() on s in a run. */
  ghost function Ups(k: State, run: seq<Step>, s: SemaId): nat
    requires Inv(k) && ValidRun(k, run)
    decreases run
  {
    if run == [] then 0 else
    ApplyKeepsInv(k, run[0]);
    Bit(UpOn(k, run[0]) == Some(s)) + Ups(Apply(k, run[0]), run[1..], s)
  }

  /** ... and the passes of sema_down(), or calls of sema_try_down(), that found it positive. */
  ghost function Downs(k: State, run: seq<Step>, s: SemaId): nat
    requires Inv(k) && ValidRun(k, run)
    decreases run
  {
    if run == [] then 0 else
    ApplyKeepsInv(k, run[0]);
    Bit(Takes(k, run[0], s)) + Downs(Apply(k, run[0]), run[1..], s)
  }

  /** The threads that found it 0 in sema_down(), in order, each as often as it did. */
  ghost function Sleepers(k: State, run: seq<Step>, s: SemaId): seq<Tid>
    requires Inv(k) && ValidRun(k, run)
    decreases run
  {
    if run == [] then [] else
    ApplyKeepsInv(k, run[0]);
    (if Sleeps(k, run[0], s) then [k.Cur()] else []) + Sleepers(Apply(k, run[0]), run[1..], s)
  }

  /** The calls of sema_up() on s that found a waiter. */
  ghost function Wakeups(k: State, run: seq<Step>, s: SemaId): nat
    requires Inv(k) && ValidRun(k, run)
    decreases run
  {
    if run == [] then 0 else
    ApplyKeepsInv(k, run[0]);
    Bit(UpOn(k, run[0]) == Some(s) && s in k.semas && k.semas[s].waiters != [])
      + Wakeups(Apply(k, run[0]), run[1..], s)
  }

  lemma StepKeepsKnown(k: State, st: Step, s: SemaId)
    requires Inv(k) && k.Cur() in k.pc && Enabled(k, st) && Known(k, s)
    ensures s in k.semas && Inv(Apply(k, st)) && Known(Apply(k, st), s) && s in Apply(k, st).semas
    ensures Apply(k, st).semas[s] == SemaAfter(k, st, s)
  {
    hide Inv, Enabled, Apply, SemaAfter, SemasAs, HoldersAs, QueuesAs, PlacesAs, SchedAs;
    ApplyKeepsInv(k, st);
    StepAs(k, st);
    KnownKept(k, st, Apply(k, st), s);
  }

  lemma UpIsNoDown(k: State, st: Step)
    requires k.Cur() in k.pc
    ensures UpOn(k, st) == None || DownOn(k, st) == None
  {
  }

  lemma ValueAfter(k: State, st: Step, s: SemaId)
    requires k.Cur() in k.pc && s in k.semas
    ensures SemaAfter(k, st, s).value == k.semas[s].value + Bit(UpOn(k, st) == Some(s)) - Bit(Takes(k, st, s))
  {
    hide UpOn, DownOn;
    UpIsNoDown(k, st);
  }

  /** The value of a semaphore is what it was, plus the ups, minus the downs. */
  lemma {:induction false} SemaphoreRun(k: State, run: seq<Step>, s: SemaId)
    requires Inv(k) && ValidRun(k, run) && Known(k, s)
    ensures Known(After(k, run), s) && s in k.semas && s in After(k, run).semas
    ensures After(k, run).semas[s].value == k.semas[s].value + Ups(k, run, s) - Downs(k, run, s)
    decreases run
  {
    hide Inv, Enabled, Apply, SemaAfter, UpOn, Takes;
    if run != [] {
      StepKeepsKnown(k, run[0], s);
      ValueAfter(k, run[0], s);
      SemaphoreRun(Apply(k, run[0]), run[1..], s);
    }
  }

  lemma WaitersAfter(k: State, st: Step, s: SemaId)
    requires k.Cur() in k.pc && s in k.semas
    ensures var n := Bit(UpOn(k, st) == Some(s) && k.semas[s].waiters != []);
            n <= |k.semas[s].waiters|
            && SemaAfter(k, st, s).waiters == k.semas[s].waiters[n..] + (if Sleeps(k, st, s) then [k.Cur()] else [])
  {
    hide UpOn, DownOn;
    UpIsNoDown(k, st);
  }

  /** Sleepers are woken in the order in which they fell asleep: the wait list is the old one
      followed by the sleepers of the run, less one from the front for each wakeup. */
  lemma {:induction false} SleepersFifo(k: State, run: seq<Step>, s: SemaId)
    requires Inv(k) && ValidRun(k, run) && Known(k, s)
    ensures Known(After(k, run), s) && s in k.semas && s in After(k, run).semas
    ensures Wakeups(k, run, s) <= |k.semas[s].waiters| + |Sleepers(k, run, s)|
    ensures After(k, run).semas[s].waiters == (k.semas[s].waiters + Sleepers(k, run, s))[Wakeups(k, run, s)..]
    decreases run
  {
    hide Inv, Enabled, Apply, SemaAfter, UpOn, Sleeps;
    if run != [] {
      var k' := Apply(k, run[0]);
      StepKeepsKnown(k, run[0], s);
      WaitersAfter(k, run[0], s);
      SleepersFifo(k', run[1..], s);
      PopThenJoin(k.semas[s].waiters, Bit(UpOn(k, run[0]) == Some(s) && k.semas[s].waiters != []),
                  if Sleeps(k, run[0], s) then [k.Cur()] else [], Sleepers(k', run[1..], s), Wakeups(k', run[1..], s));
    }
  }

  /** Dropping n, appending a and b, and dropping m more. */
  lemma PopThenJoin<T>(q: seq<T>, n: nat, a: seq<T>, b: seq<T>, m: nat)
    requires n <= |q| && m <= |q[n..] + a| + |b|
    ensures n + m <= |q| + |a + b|
    ensures (q[n..] + a + b)[m..] == (q + (a + b))[n + m..]
  {
    assert q[n..] + a + b == (q + (a + b))[n..];
  }

  lemma NewSemaKnown(k: State, id: nat, v: nat)
    requires Inv(k) && k.Cur() in k.pc && Enabled(k, Do(NewSema(id, v)))
    ensures var k' := Apply(k, Do(NewSema(id, v)));
            Known(k', Plain(id)) && k'.semas[Plain(id)].value == v && k'.semas[Plain(id)].waiters == []
  {
    hide Inv, Enabled, Apply, HoldersAs, QueuesAs, PlacesAs, SchedAs;
    StepAs(k, Do(NewSema(id, v)));
    assert NewValue(k, Do(NewSema(id, v)), Plain(id)) == Some(v);
  }

  /** So from sema_init() on, the value is the initial one plus the ups minus the downs. */
  lemma SinceInit(k: State, id: nat, v: nat, run: seq<Step>)
    requires Inv(k) && k.Cur() in k.pc && Enabled(k, Do(NewSema(id, v))) && Inv(Apply(k, Do(NewSema(id, v))))
    requires ValidRun(Apply(k, Do(NewSema(id, v))), run)
    ensures var k' := Apply(k, Do(NewSema(id, v)));
            && Plain(id) in After(k', run).semas
            && After(k', run).semas[Plain(id)].value == v + Ups(k', run, Plain(id)) - Downs(k', run, Plain(id))
  {
    hide Inv, Enabled, Apply, ValidRun, After, Ups, Downs;
    NewSemaKnown(k, id, v);
    SemaphoreRun(Apply(k, Do(NewSema(id, v))), run, Plain(id));
  }

  /** The units of s that thread t took in sema_down(). */
  ghost function TakenBy(k: State, run: seq<Step>, t: Tid, s: SemaId): nat
    requires Inv(k) && ValidRun(k, run)
    decreases run
  {
    if run == [] then 0 else
    ApplyKeepsInv(k, run[0]);
    Bit(t == k.Cur() && MaySleep(run[0]) && Takes(k, run[0], s)) + TakenBy(Apply(k, run[0]), run[1..], t, s)
  }

  lemma DownStep(k: State, st: Step, k': State, t: Tid, id: nat)
    requires PcInv(k) && k.Cur() in k.pc && Enabled(k, st) && PlacesAs(k, st, k') && At(k, t, Down(Plain(id)))
    ensures At(k', t, if t == k.Cur() && MaySleep(st) && Takes(k, st, Plain(id)) then User else Down(Plain(id)))
  {
    if !(t == k.Cur() && st.Go?) {
      hide PcInv, PlacesAs;
      InsideStays(k, st, k', t);
    }
  }

  lemma {:induction false} DownUnderWay(k: State, run: seq<Step>, t: Tid, id: nat)
    requires Inv(k) && ValidRun(k, run) && At(k, t, Down(Plain(id)))
    requires Inside(k, run, t) && At(After(k, run), t, User)
    ensures TakenBy(k, run, t, Plain(id)) == 1
    decreases run
  {
    hide SemaInv, LockInv, HoldInv, CondInv, S.Inv, PcOkAt, As, Apply, Enabled, Takes, MaySleep;
    if run != [] {
      var k' := Apply(k, run[0]);
      DownStepInRun(k, run[0], t, id);
      if At(k', t, User) {
        ReturnedStays(k', run[1..], t);
      } else {
        DownUnderWay(k', run[1..], t, id);
      }
    }
  }

  lemma DownStepInRun(k: State, st: Step, t: Tid, id: nat)
    requires Inv(k) && k.Cur() in k.pc && Enabled(k, st) && At(k, t, Down(Plain(id)))
    ensures Inv(Apply(k, st))
    ensures At(Apply(k, st), t,
               if t == k.Cur() && MaySleep(st) && Takes(k, st, Plain(id)) then User else Down(Plain(id)))
  {
    hide SemaInv, LockInv, HoldInv, CondInv, PcInv, S.Inv, Apply, Enabled, Takes, MaySleep;
    hide SemasAs, HoldersAs, QueuesAs, PlacesAs, SchedAs;
    ApplyKeepsInv(k, st);
    StepAs(k, st);
    DownStep(k, st, Apply(k, st), t, id);
  }

  /** sema_down() takes exactly one unit, however often its caller is woken and sleeps again. */
  lemma DownReturns(k: State, id: nat, run: seq<Step>)
    requires Inv(k) && k.Cur() in k.pc && Enabled(k, Do(DownCall(id))) && Inv(Apply(k, Do(DownCall(id))))
    requires CallAndReturn(k, DownCall(id), run)
    ensures Bit(Positive(k, Plain(id))) + TakenBy(Apply(k, Do(DownCall(id))), run, k.Cur(), Plain(id)) == 1
  {
    hide Inv, Enabled, SemasAs, HoldersAs, QueuesAs, SchedAs, Apply;
    var k' := Apply(k, Do(DownCall(id)));
    CallStep(k, DownCall(id));
    if Positive(k, Plain(id)) {
      ReturnedStays(k', run, k.Cur());
    } else {
      DownUnderWay(k', run, k.Cur(), id);
    }
  }

  // ---------------------------------------------------------------------
  // thread_start() waits for the idle thread
  // ---------------------------------------------------------------------

  /** idle_started is a local variable of thread_start(): nobody but idle() ups it. */
  predicate IdleStartedLocal(run: seq<Step>) {
    IntrUp(0) !in run && Do(UpCall(0)) !in run
  }

  /** Either the idle thread has registered itself, or t waits for it in thread_start(). */
  predicate WaitsForIdle(k: State, t: Tid) {
    k.sched.idleThread.Some? || (At(k, t, Down(Plain(0))) && Plain(0) in k.semas && k.semas[Plain(0)].value == 0)
  }

  lemma IdleStays(s: S.State, a: S.Action)
    requires S.Inv(s) && S.Enabled(s, a) && s.idleThread.Some?
    ensures S.Apply(s, a).idleThread.Some?
  {
  }

  /** Only a registered idle thread ups idle_started. */
  lemma IdleUps(k: State, st: Step)
    requires PcInv(k) && k.Cur() in k.pc && UpOn(k, st) == Some(Plain(0)) && st != IntrUp(0) && st != Do(UpCall(0))
    ensures k.sched.idleThread.Some?
  {
    assert PcOkAt(k, k.Cur());
  }

  lemma WaitsForIdleStep(k: State, st: Step, k': State, t: Tid)
    requires S.Inv(k.sched) && PcInv(k) && k.Cur() in k.pc && Enabled(k, st) && WaitsForIdle(k, t)
    requires SemasAs(k, st, k') && PlacesAs(k, st, k') && SchedAs(k, st, k') && st != IntrUp(0) && st != Do(UpCall(0))
    ensures WaitsForIdle(k', t)
  {
    hide S.Inv, PcInv, S.Enabled, S.Apply, PlacesAs;
    if k.sched.idleThread.Some? {
      if SchedAction(k, st).Some? { IdleStays(k.sched, SchedAction(k, st).value); }
    } else {
      DownStep(k, st, k', t, 0);
      if UpOn(k, st) == Some(Plain(0)) { IdleUps(k, st); }
      WaitedFor(k, st, k');
    }
  }

  lemma WaitedFor(k: State, st: Step, k': State)
    requires k.Cur() in k.pc && Enabled(k, st) && SemasAs(k, st, k')
    requires Plain(0) in k.semas && k.semas[Plain(0)].value == 0 && UpOn(k, st) != Some(Plain(0))
    ensures Plain(0) in k'.semas && k'.semas[Plain(0)].value == 0
  {
    hide UpOn, DownOn;
    assert NewValue(k, st, Plain(0)) == None;
  }

  lemma {:induction false} WaitsForIdleRun(k: State, run: seq<Step>, t: Tid)
    requires Inv(k) && ValidRun(k, run) && IdleStartedLocal(run) && WaitsForIdle(k, t)
    ensures WaitsForIdle(After(k, run), t)
    decreases run
  {
    hide S.Inv, PcInv, SemaInv, LockInv, HoldInv, CondInv, Enabled, Apply, WaitsForIdle, SemasAs, PlacesAs, SchedAs;
    if run != [] {
      ApplyKeepsInv(k, run[0]);
      StepAs(k, run[0]);
      WaitsForIdleStep(k, run[0], Apply(k, run[0]), t);
      WaitsForIdleRun(Apply(k, run[0]), run[1..], t);
    }
  }

  /** When thread_start() is past its sema_down(), idle() has set idle_thread, so that
      schedule() always has a thread to switch to from then on. */
  lemma ThreadStartWaits(main: Tid, idler: Tid, run: seq<Step>)
    requires main != idler && Inv(Boot(main, idler)) && Enabled(Boot(main, idler), Do(DownCall(0)))
    requires Inv(Apply(Boot(main, idler), Do(DownCall(0)))) && CallAndReturn(Boot(main, idler), DownCall(0), run)
    requires IdleStartedLocal(run)
    ensures After(Apply(Boot(main, idler), Do(DownCall(0))), run).sched.idleThread.Some?
  {
    hide Inv, Enabled, Apply, HoldersAs, QueuesAs, PlacesAs, SchedAs;
    var k := Boot(main, idler);
    var k' := Apply(k, Do(DownCall(0)));
    CallStep(k, DownCall(0));
    assert At(k', main, Down(Plain(0))) by { DownBegins(k, k', 0); }
    WaitedFor(k, Do(DownCall(0)), k');
    WaitsForIdleRun(k', run, main);
  }

  lemma DownBegins(k: State, k': State, id: nat)
    requires k.Cur() in k.pc && PlacesAs(k, Do(DownCall(id)), k') && !Positive(k, Plain(id))
    ensures At(k', k.Cur(), Down(Plain(id)))
  {
  }

  // ---------------------------------------------------------------------
  // Condition variables
  // ---------------------------------------------------------------------

  /** The calls of cond_signal(c), by programs or by cond_broadcast(), that found a waiter. */
  ghost function SignalCount(k: State, run: seq<Step>, c: CondId): nat
    requires Inv(k) && ValidRun(k, run)
    decreases run
  {
    if run == [] then 0 else
    ApplyKeepsInv(k, run[0]);
    Bit(Signals(k, run[0], c)) + SignalCount(Apply(k, run[0]), run[1..], c)
  }

  /** The callers of cond_wait(c), in order. */
  ghost function Callers(k: State, run: seq<Step>, c: CondId): seq<Tid>
    requires Inv(k) && ValidRun(k, run)
    decreases run
  {
    if run == [] then [] else
    ApplyKeepsInv(k, run[0]);
    (if run[0] == Do(Wait(c)) then [k.Cur()] else []) + Callers(Apply(k, run[0]), run[1..], c)
  }

  lemma QueueAfter(k: State, st: Step, k': State, c: CondId)
    requires k.Cur() in k.pc && QueuesAs(k, st, k') && c in k.queue && c in k.enqueued && c in k.woken
    ensures c in k'.queue && c in k'.enqueued && c in k'.woken
    ensures var n := Bit(Signals(k, st, c));
            && n <= |k.queue[c]| && |k'.woken[c]| == |k.woken[c]| + n
            && k'.queue[c] == k.queue[c][n..] + (if st == Do(Wait(c)) then [k.Cur()] else [])
  {
    assert QueueAs(k, st, k', c);
  }

  lemma StepQueue(k: State, st: Step, c: CondId)
    requires Inv(k) && k.Cur() in k.pc && Enabled(k, st) && c in k.queue
    ensures var k', n := Apply(k, st), Bit(Signals(k, st, c));
            && Inv(k') && c in k'.queue && c in k.woken && c in k'.woken
            && n <= |k.queue[c]| && |k'.woken[c]| == |k.woken[c]| + n
            && k'.queue[c] == k.queue[c][n..] + (if st == Do(Wait(c)) then [k.Cur()] else [])
  {
    hide S.Inv, SemaInv, LockInv, HoldInv, CondInv, PcOkAt, Enabled, Apply, SemasAs, HoldersAs, QueuesAs, PlacesAs;
    hide SchedAs, Signals;
    ApplyKeepsInv(k, st);
    StepAs(k, st);
    QueueAfter(k, st, Apply(k, st), c);
  }

  /** The queue of a condition variable is the old one followed by the callers of cond_wait(),
      less one from the front for each signal that found a waiter. */
  lemma {:induction false} QueueFifo(k: State, run: seq<Step>, c: CondId)
    requires Inv(k) && ValidRun(k, run) && c in k.queue
    ensures c in After(k, run).queue
    ensures SignalCount(k, run, c) <= |k.queue[c]| + |Callers(k, run, c)|
    ensures After(k, run).queue[c] == (k.queue[c] + Callers(k, run, c))[SignalCount(k, run, c)..]
    decreases run
  {
    hide Inv, Enabled, Apply, Signals;
    if run != [] {
      var k' := Apply(k, run[0]);
      StepQueue(k, run[0], c);
      QueueFifo(k', run[1..], c);
      PopThenJoin(k.queue[c], Bit(Signals(k, run[0], c)),
                  if run[0] == Do(Wait(c)) then [k.Cur()] else [], Callers(k', run[1..], c),
                  SignalCount(k', run[1..], c));
    }
  }

  /** As many waiters are recorded as signalled as signals found one. */
  lemma {:induction false} SignalsCounted(k: State, run: seq<Step>, c: CondId)
    requires Inv(k) && ValidRun(k, run) && c in k.queue && c in k.woken
    ensures c in After(k, run).woken
    ensures |After(k, run).woken[c]| == |k.woken[c]| + SignalCount(k, run, c)
    decreases run
  {
    hide Inv, Enabled, Apply, Signals;
    if run != [] {
      StepQueue(k, run[0], c);
      SignalsCounted(Apply(k, run[0]), run[1..], c);
    }
  }

  // ---------------------------------------------------------------------
  // The scheduler underneath
  // ---------------------------------------------------------------------

  /** What the run is for the scheduler. */
  ghost function SchedRun(k: State, run: seq<Step>): seq<S.Action>
    requires Inv(k) && ValidRun(k, run)
    decreases run
  {
    if run == [] then [] else
    ApplyKeepsInv(k, run[0]);
    var rest := SchedRun(Apply(k, run[0]), run[1..]);
    if SchedAction(k, run[0]).Some? then [SchedAction(k, run[0]).value] + rest else rest
  }

  lemma SchedStep(s: S.State, a: S.Action, rest: seq<S.Action>)
    requires S.Inv(s) && S.Enabled(s, a) && S.Inv(S.Apply(s, a)) && S.ValidRun(S.Apply(s, a), rest)
    ensures S.ValidRun(s, [a] + rest) && S.After(s, [a] + rest) == S.After(S.Apply(s, a), rest)
  {
    hide S.Inv, S.Enabled, S.Apply;
    assert ([a] + rest)[1..] == rest;
  }

  lemma StepSchedules(k: State, st: Step)
    requires Inv(k) && k.Cur() in k.pc && Enabled(k, st)
    ensures Inv(Apply(k, st)) && S.Inv(k.sched) && S.Inv(Apply(k, st).sched) && SchedAs(k, st, Apply(k, st))
  {
    hide S.Inv, PcInv, SemaInv, LockInv, HoldInv, CondInv, Enabled, Apply, SemasAs, HoldersAs, QueuesAs, PlacesAs;
    hide SchedAs;
    ApplyKeepsInv(k, st);
    StepAs(k, st);
  }

  /** Every run is, underneath, a run of the scheduler. */
  lemma {:induction false} RunsTheScheduler(k: State, run: seq<Step>)
    requires Inv(k) && ValidRun(k, run)
    ensures S.Inv(k.sched) && S.ValidRun(k.sched, SchedRun(k, run))
    ensures S.After(k.sched, SchedRun(k, run)) == After(k, run).sched
    decreases run
  {
    hide S.Inv, PcInv, SemaInv, LockInv, HoldInv, CondInv, Enabled, Apply, S.Enabled, S.Apply, SchedAction;
    if run != [] {
      StepSchedules(k, run[0]);
      RunsTheScheduler(Apply(k, run[0]), run[1..]);
      if SchedAction(k, run[0]).Some? {
        SchedStep(k.sched, SchedAction(k, run[0]).value, SchedRun(Apply(k, run[0]), run[1..]));
      }
    }
  }

  /** So a thread at index i of the ready list is still ahead of the threads behind it until
      it has been switched to by the (i+1)-th schedule(). */
  lemma ReadyMoves(k: State, run: seq<Step>, i: nat)
    requires Inv(k) && ValidRun(k, run) && i < |k.sched.ready|
    requires S.Inv(k.sched) && S.ValidRun(k.sched, SchedRun(k, run))
    ensures var c := S.ScheduleCount(k.sched, SchedRun(k, run));
            c <= i ==> i - c < |After(k, run).sched.ready| && After(k, run).sched.ready[i - c] == k.sched.ready[i]
  {
    hide Inv, S.Inv, S.ValidRun, S.After, S.ScheduleCount, ValidRun, After, SchedRun;
    RunsTheScheduler(k, run);
    S.RoundRobin(k.sched, SchedRun(k, run), i);
  }

  /** sema_up() with a waiter makes the first of them the last of the ready list. */
  lemma UpMakesReady(k: State, st: Step, s: SemaId)
    requires Inv(k) && k.Cur() in k.pc && Enabled(k, st)
    requires UpOn(k, st) == Some(s) && s in k.semas && k.semas[s].waiters != []
    ensures Apply(k, st).sched.ready == k.sched.ready + [k.semas[s].waiters[0]]
    ensures Apply(k, st).Cur() == k.Cur()
  {
    hide S.Inv, PcInv, SemaInv, LockInv, HoldInv, CondInv, Enabled, Apply, S.Enabled, UpOn, DownOn;
    StepSchedules(k, st);
    UpSchedules(k, st, s);
  }

  lemma UpSchedules(k: State, st: Step, s: SemaId)
    requires k.Cur() in k.pc && UpOn(k, st) == Some(s) && s in k.semas && k.semas[s].waiters != []
    ensures SchedAction(k, st) == Some(S.DoUnblock(k.semas[s].waiters[0]))
  {
  }
}
