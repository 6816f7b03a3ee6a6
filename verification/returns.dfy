/**
 What the calls of threads/synch.c promise over whole runs, with any interleaving of
 other threads and of interrupts between the call and its return.  Calls describes the
 single steps on which this rests.
 */
module Returns {
  import opened Common
  import S = Scheduler
  import opened Synch
  import opened Calls

  // ---------------------------------------------------------------------
  // From a call to its return
  // ---------------------------------------------------------------------

  /** t is at User in no state of the run but, perhaps, the last. */
  ghost predicate Inside(k: State, run: seq<Step>, t: Tid)
    requires Inv(k) && ValidRun(k, run)
    decreases run
  {
    run != [] ==> !At(k, t, User) && (ApplyKeepsInv(k, run[0]); Inside(Apply(k, run[0]), run[1..], t))
  }

  /** The current thread calls a primitive, and the run ends when it is back at User for
      the first time. */
  ghost predicate CallAndReturn(k: State, call: Call, run: seq<Step>)
    requires Inv(k) && k.Cur() in k.pc && Enabled(k, Do(call)) && Inv(Apply(k, Do(call)))
  {
    var k' := Apply(k, Do(call));
    ValidRun(k', run) && Inside(k', run, k.Cur()) && At(After(k', run), k.Cur(), User)
  }

  /** A step moves the current thread and the child it creates or starts. */
  lemma OthersStay(k: State, st: Step, k': State, t: Tid)
    requires PcInv(k) && k.Cur() in k.pc && Enabled(k, st) && PlacesAs(k, st, k')
    requires t in k.pc && t != k.Cur() && k.pc[t] != Nascent
    ensures At(k', t, k.pc[t])
  {
    assert PcOkAt(k, k.Cur());
  }

  /** A thread inside a primitive is moved by its own steps only. */
  lemma InsideStays(k: State, st: Step, k': State, t: Tid)
    requires PcInv(k) && k.Cur() in k.pc && Enabled(k, st) && PlacesAs(k, st, k')
    requires t in k.pc && k.pc[t] != Nascent && k.pc[t] != User && !(t == k.Cur() && st.Go?)
    ensures At(k', t, k.pc[t])
  {
    hide PcInv;
    if t != k.Cur() { OthersStay(k, st, k', t); }
  }

  // ---------------------------------------------------------------------
  // lock_acquire() and cond_wait() return with the lock
  // ---------------------------------------------------------------------

  /** Thread t is inside cond_wait() on a condition of lock l, or inside lock_acquire(l). */
  predicate OnWay(k: State, t: Tid, l: LockId) {
    t in k.pc &&
    match k.pc[t]
    case CondRelease(c) => c in k.lockOf && k.lockOf[c] == l
    case GiveUp(_, w) => w.Some? && w.value in k.lockOf && k.lockOf[w.value] == l
    case CondSleep(c) => c in k.lockOf && k.lockOf[c] == l
    case CondWake(c) => c in k.lockOf && k.lockOf[c] == l
    case Down(s) => s == OfLock(l) || (s.OfWaiter? && s.cond in k.lockOf && k.lockOf[s.cond] == l)
    case TakeHolder(i) => i == l
    case _ => false
  }

  lemma OnWayGo(k: State, k': State, l: LockId)
    requires OnWay(k, k.Cur(), l) && l in k.holder && PlacesAs(k, Go, k') && HoldersAs(k, Go, k')
    ensures l in k'.holder && (OnWay(k', k.Cur(), l) || (At(k', k.Cur(), User) && k'.holder[l] == Some(k.Cur())))
  {
  }

  lemma OnWayStep(k: State, st: Step, k': State, t: Tid, l: LockId)
    requires PcInv(k) && k.Cur() in k.pc && Enabled(k, st) && PlacesAs(k, st, k') && HoldersAs(k, st, k')
    requires OnWay(k, t, l) && l in k.holder
    ensures l in k'.holder && (OnWay(k', t, l) || (At(k', t, User) && k'.holder[l] == Some(t)))
  {
    hide PcInv, PlacesAs, Enabled;
    if t == k.Cur() && st.Go? { OnWayGo(k, k', l); } else { InsideStays(k, st, k', t); }
  }

  /** Whoever is inside lock_acquire(), or inside cond_wait() from its lock_release() on,
      holds the lock when it comes out. */
  lemma {:induction false} ReturnsWithLock(k: State, run: seq<Step>, t: Tid, l: LockId)
    requires Inv(k) && ValidRun(k, run) && OnWay(k, t, l) && l in k.holder
    requires Inside(k, run, t) && At(After(k, run), t, User)
    ensures l in After(k, run).holder && After(k, run).holder[l] == Some(t)
    decreases run
  {
    hide SemaInv, LockInv, HoldInv, CondInv, S.Inv, PlacesAs, HoldersAs, SemasAs, QueuesAs, SchedAs, Apply, Enabled;
    if run != [] {
      var k' := Apply(k, run[0]);
      ApplyKeepsInv(k, run[0]);
      StepAs(k, run[0]);
      OnWayStep(k, run[0], k', t, l);
      if OnWay(k', t, l) {
        ReturnsWithLock(k', run[1..], t, l);
      } else {
        ReturnedStays(k', run[1..], t);
      }
    }
  }

  /** A thread that is back ends the run. */
  lemma ReturnedStays(k: State, run: seq<Step>, t: Tid)
    requires Inv(k) && ValidRun(k, run) && Inside(k, run, t) && At(k, t, User)
    ensures run == [] && After(k, run) == k
  {
  }

  /** The step that calls a primitive. */
  lemma CallStep(k: State, call: Call)
    requires Inv(k) && k.Cur() in k.pc && Enabled(k, Do(call))
    ensures Inv(Apply(k, Do(call))) && As(k, Do(call), Apply(k, Do(call)))
  {
    hide Inv, Enabled, Apply, As;
    ApplyKeepsInv(k, Do(call));
    StepAs(k, Do(call));
  }

  function LockHolder(k: State, l: LockId): Option<Tid> {
    if l in k.holder then k.holder[l] else None
  }

  lemma AcquireBegins(k: State, call: Call, k': State, l: LockId)
    requires Wired(k) && k.Cur() in k.pc && l in k.holder
    requires call == Acquire(l) || (call == TryAcquire(l) && Positive(k, OfLock(l)))
    requires PlacesAs(k, Do(call), k') && HoldersAs(k, Do(call), k')
    ensures OnWay(k', k.Cur(), l) && l in k'.holder
  {
  }

  lemma AcquireReturns(k: State, l: LockId, run: seq<Step>)
    requires Inv(k) && k.Cur() in k.pc && Enabled(k, Do(Acquire(l))) && Inv(Apply(k, Do(Acquire(l))))
    requires CallAndReturn(k, Acquire(l), run)
    ensures LockHolder(After(Apply(k, Do(Acquire(l))), run), l) == Some(k.Cur())
  {
    hide SemaInv, LockInv, HoldInv, CondInv, S.Inv, SemasAs, QueuesAs, SchedAs, PlacesAs, HoldersAs, PcOkAt, Apply;
    CallStep(k, Acquire(l));
    AcquireBegins(k, Acquire(l), Apply(k, Do(Acquire(l))), l);
    ReturnsWithLock(Apply(k, Do(Acquire(l))), run, k.Cur(), l);
  }

  /** lock_try_acquire() takes the lock if its semaphore is up ... */
  lemma TryAcquireReturns(k: State, l: LockId, run: seq<Step>)
    requires Inv(k) && k.Cur() in k.pc && Enabled(k, Do(TryAcquire(l))) && Inv(Apply(k, Do(TryAcquire(l))))
    requires CallAndReturn(k, TryAcquire(l), run) && Positive(k, OfLock(l))
    ensures LockHolder(After(Apply(k, Do(TryAcquire(l))), run), l) == Some(k.Cur())
  {
    hide SemaInv, LockInv, HoldInv, CondInv, S.Inv, SemasAs, QueuesAs, SchedAs, PlacesAs, HoldersAs, PcOkAt, Apply;
    CallStep(k, TryAcquire(l));
    AcquireBegins(k, TryAcquire(l), Apply(k, Do(TryAcquire(l))), l);
    ReturnsWithLock(Apply(k, Do(TryAcquire(l))), run, k.Cur(), l);
  }

  /** ... and otherwise returns at once, with nothing changed and no thread switched. */
  lemma TryAcquireFails(k: State, l: LockId)
    requires Inv(k) && k.Cur() in k.pc && Enabled(k, Do(TryAcquire(l))) && !Positive(k, OfLock(l))
    ensures var k' := Apply(k, Do(TryAcquire(l)));
            && At(k', k.Cur(), User) && k'.sched == k.sched && !Positive(k', OfLock(l))
            && LockHolder(k', l) == LockHolder(k, l)
  {
    hide SemaInv, LockInv, HoldInv, CondInv, S.Inv, SemasAs, PlacesAs, HoldersAs, QueuesAs, PcOkAt, Apply;
    hide LockHolder, SchedAction;
    CallStep(k, TryAcquire(l));
    TriedInVain(k, Apply(k, Do(TryAcquire(l))), l);
  }

  lemma TriedInVain(k: State, k': State, l: LockId)
    requires Wired(k) && k.Cur() in k.pc && l in k.holder && !Positive(k, OfLock(l))
    requires SemasAs(k, Do(TryAcquire(l)), k') && PlacesAs(k, Do(TryAcquire(l)), k')
    requires HoldersAs(k, Do(TryAcquire(l)), k')
    ensures At(k', k.Cur(), User) && !Positive(k', OfLock(l)) && LockHolder(k', l) == LockHolder(k, l)
    ensures SchedAction(k, Do(TryAcquire(l))) == None
  {
  }

  // ---------------------------------------------------------------------
  // cond_wait() returns after a signal of its own
  // ---------------------------------------------------------------------

  /** t was the thread number n to wait on c, and has been signalled if it is past its
      sema_down(). */
  predicate Ticket(k: State, t: Tid, c: CondId, n: nat) {
    && c in k.queue && c in k.enqueued && c in k.woken
    && n < |k.enqueued[c]| && k.enqueued[c][n] == t
    && (InWait(k, t, c) || n < |k.woken[c]|)
  }

  /** A thread whose private semaphore was upped is not in the queue any more. */
  lemma SignalledBefore(k: State, t: Tid, c: CondId, n: nat)
    requires CondInv(k) && c in k.queue && At(k, t, CondWake(c))
    requires c in k.enqueued && n < |k.enqueued[c]| && k.enqueued[c][n] == t
    ensures c in k.woken && n < |k.woken[c]|
  {
    assert WaiterOk(k, t, c) && QueueOk(k, c);
    if n >= |k.woken[c]| {
      assert k.queue[c][n - |k.woken[c]|] == t;
      assert Queued(k, t, c);
    }
  }

  /** The histories only grow. */
  lemma HistoriesGrow(k: State, st: Step, k': State, c: CondId)
    requires k.Cur() in k.pc && QueuesAs(k, st, k') && c in k.queue && c in k.enqueued && c in k.woken
    ensures c in k'.queue && c in k'.enqueued && c in k'.woken
    ensures k.enqueued[c] <= k'.enqueued[c] && k.woken[c] <= k'.woken[c]
  {
    assert QueueAs(k, st, k', c);
  }

  /** From each stage of cond_wait() before its sema_down() returns, on to the next. */
  lemma InWaitStep(k: State, st: Step, k': State, t: Tid, c: CondId)
    requires PcInv(k) && k.Cur() in k.pc && Enabled(k, st) && PlacesAs(k, st, k') && InWait(k, t, c)
    ensures InWait(k', t, c) || At(k', t, CondWake(c))
  {
    assert PcOkAt(k, t);
    if !(t == k.Cur() && st.Go?) {
      hide PcInv, PlacesAs, Enabled;
      InsideStays(k, st, k', t);
    }
  }

  lemma TicketStep(k: State, st: Step, k': State, t: Tid, c: CondId, n: nat)
    requires PcInv(k) && k.Cur() in k.pc && Enabled(k, st) && PlacesAs(k, st, k') && QueuesAs(k, st, k')
    requires CondInv(k') && Ticket(k, t, c, n)
    ensures Ticket(k', t, c, n)
  {
    hide PcInv, Enabled, PlacesAs, QueuesAs, CondInv, InWait;
    HistoriesGrow(k, st, k', c);
    if InWait(k, t, c) {
      InWaitStep(k, st, k', t, c);
      if At(k', t, CondWake(c)) { SignalledBefore(k', t, c, n); }
    }
  }

  lemma {:induction false} TicketKept(k: State, run: seq<Step>, t: Tid, c: CondId, n: nat)
    requires Inv(k) && ValidRun(k, run) && Ticket(k, t, c, n)
    ensures Ticket(After(k, run), t, c, n)
    decreases run
  {
    hide SemaInv, LockInv, HoldInv, CondInv, PcInv, S.Inv, As, Apply, Enabled, Ticket;
    if run != [] {
      TicketStepInRun(k, run[0], t, c, n);
      TicketKept(Apply(k, run[0]), run[1..], t, c, n);
    }
  }

  lemma TicketStepInRun(k: State, st: Step, t: Tid, c: CondId, n: nat)
    requires Inv(k) && k.Cur() in k.pc && Enabled(k, st) && Ticket(k, t, c, n)
    ensures Inv(Apply(k, st)) && Ticket(Apply(k, st), t, c, n)
  {
    hide SemaInv, LockInv, HoldInv, CondInv, PcInv, S.Inv, SemasAs, PlacesAs, QueuesAs, HoldersAs, SchedAs, Apply;
    hide Enabled, Ticket;
    ApplyKeepsInv(k, st);
    StepAs(k, st);
    TicketStep(k, st, Apply(k, st), t, c, n);
  }

  lemma WaitBegins(k: State, k': State, c: CondId)
    requires Wired(k) && k.Cur() in k.pc && Callable(k, Wait(c))
    requires PlacesAs(k, Do(Wait(c)), k') && HoldersAs(k, Do(Wait(c)), k')
    ensures c in k'.lockOf && k'.lockOf[c] == k.lockOf[c] && k.lockOf[c] in k'.holder
    ensures OnWay(k', k.Cur(), k.lockOf[c]) && InWait(k', k.Cur(), c)
  {
  }

  lemma TicketDrawn(k: State, k': State, c: CondId)
    requires Wired(k) && k.Cur() in k.pc && c in k.queue
    requires QueuesAs(k, Do(Wait(c)), k') && InWait(k', k.Cur(), c)
    ensures Ticket(k', k.Cur(), c, |k.enqueued[c]|)
  {
    hide InWait;
    assert QueueAs(k, Do(Wait(c)), k', c);
  }

  /** A condition variable keeps its lock. */
  lemma {:induction false} LockKept(k: State, run: seq<Step>, c: CondId)
    requires Inv(k) && ValidRun(k, run) && c in k.lockOf
    ensures c in After(k, run).lockOf && After(k, run).lockOf[c] == k.lockOf[c]
    decreases run
  {
    hide SemaInv, LockInv, HoldInv, CondInv, S.Inv, PlacesAs, SemasAs, QueuesAs, SchedAs, Apply, Enabled;
    if run != [] {
      ApplyKeepsInv(k, run[0]);
      StepAs(k, run[0]);
      LockKept(Apply(k, run[0]), run[1..], c);
    }
  }

  /** Of the first n threads to wait, those that are through have been signalled in order. */
  lemma TicketUsed(k: State, t: Tid, c: CondId, n: nat)
    requires CondInv(k) && Ticket(k, t, c, n) && At(k, t, User)
    ensures c in k.woken && n < |k.woken[c]| && k.woken[c][n] == t
  {
    assert QueueOk(k, c);
  }

  /** cond_wait() returns with the lock, and only after a signal was given to this very
      call: the caller was number |enqueued[c]| to wait, and so many have been signalled. */
  lemma WaitReturns(k: State, c: CondId, run: seq<Step>)
    requires Inv(k) && k.Cur() in k.pc && Enabled(k, Do(Wait(c))) && Inv(Apply(k, Do(Wait(c))))
    requires CallAndReturn(k, Wait(c), run) && c in k.enqueued
    ensures var r, n := After(Apply(k, Do(Wait(c))), run), |k.enqueued[c]|;
            && HolderFor(r, c) == Some(k.Cur())
            && c in r.woken && n < |r.woken[c]| && r.woken[c][n] == k.Cur()
  {
    hide SemaInv, LockInv, HoldInv, CondInv, S.Inv, SemasAs, SchedAs, PlacesAs, QueuesAs, HoldersAs, Apply, Ticket;
    hide InWait, PcOkAt;
    var k', t := Apply(k, Do(Wait(c))), k.Cur();
    CallStep(k, Wait(c));
    WaitBegins(k, k', c);
    TicketDrawn(k, k', c);
    ReturnsWithLock(k', run, t, k.lockOf[c]);
    LockKept(k', run, c);
    TicketKept(k', run, t, c, |k.enqueued[c]|);
    TicketUsed(After(k', run), t, c, |k.enqueued[c]|);
  }

  // ---------------------------------------------------------------------
  // cond_signal() and cond_broadcast() wake waiters
  // ---------------------------------------------------------------------

  lemma SignalBegins(k: State, k': State, c: CondId)
    requires k.Cur() in k.pc && c in k.queue && c in k.enqueued && c in k.woken && k.queue[c] != []
    requires PlacesAs(k, Do(Signal(c)), k') && QueuesAs(k, Do(Signal(c)), k')
    ensures c in k'.queue && c in k'.woken
    ensures k'.queue[c] == k.queue[c][1..] && k'.woken[c] == k.woken[c] + [k.queue[c][0]]
    ensures At(k', k.Cur(), SignalUp(k.queue[c][0], c, None))
  {
    assert QueueAs(k, Do(Signal(c)), k', c);
  }

  /** cond_signal(c) takes the first waiter off the queue, to up its private semaphore next. */
  lemma SignalPops(k: State, c: CondId)
    requires Inv(k) && k.Cur() in k.pc && Enabled(k, Do(Signal(c))) && c in k.queue && k.queue[c] != []
    ensures var k', w := Apply(k, Do(Signal(c))), k.queue[c][0];
            && c in k.woken && c in k'.queue && c in k'.woken
            && k'.queue[c] == k.queue[c][1..] && k'.woken[c] == k.woken[c] + [w]
            && At(k', k.Cur(), SignalUp(w, c, None))
  {
    hide SemaInv, LockInv, HoldInv, CondInv, S.Inv, SemasAs, HoldersAs, SchedAs, PlacesAs, QueuesAs, Apply, PcOkAt;
    CallStep(k, Signal(c));
    SignalBegins(k, Apply(k, Do(Signal(c))), c);
  }

  lemma SignalGo(k: State, k': State, w: Tid, c: CondId, g: Option<nat>)
    requires At(k, k.Cur(), SignalUp(w, c, g)) && Private(k, w, c, 0, 0) && SemasAs(k, Go, k') && PlacesAs(k, Go, k')
    ensures Private(k', w, c, 1, 0) && At(k', k.Cur(), if g.Some? then Broadcast(c, g.value) else User)
  {
  }

  /** The next step of the signaller ups that semaphore. */
  lemma SignalUps(k: State, w: Tid, c: CondId, g: Option<nat>)
    requires Inv(k) && At(k, k.Cur(), SignalUp(w, c, g)) && Enabled(k, Go)
    ensures Private(Apply(k, Go), w, c, 1, 0)
    ensures At(Apply(k, Go), k.Cur(), if g.Some? then Broadcast(c, g.value) else User)
  {
    hide SemaInv, LockInv, HoldInv, CondInv, S.Inv, HoldersAs, QueuesAs, SchedAs, SemasAs, PlacesAs, Apply, Private;
    StepAs(k, Go);
    UpcomingSignal(k, w, c, g);
    SignalGo(k, Apply(k, Go), w, c, g);
  }

  lemma UpcomingSignal(k: State, w: Tid, c: CondId, g: Option<nat>)
    requires CondInv(k) && At(k, k.Cur(), SignalUp(w, c, g))
    ensures Private(k, w, c, 0, 0)
  {
    assert WaiterOk(k, w, c) && SignalsTo(k, k.Cur(), w, c);
  }

  lemma {:induction false} SignalUnderWay(k: State, run: seq<Step>, t: Tid, w: Tid, c: CondId)
    requires Inv(k) && ValidRun(k, run) && At(k, t, SignalUp(w, c, None))
    requires Inside(k, run, t) && At(After(k, run), t, User)
    ensures Private(After(k, run), w, c, 1, 0)
    decreases run
  {
    hide SemaInv, LockInv, HoldInv, CondInv, S.Inv, PlacesAs, HoldersAs, SemasAs, QueuesAs, SchedAs, Apply, Enabled;
    hide Private;
    if run != [] {
      var k' := Apply(k, run[0]);
      ApplyKeepsInv(k, run[0]);
      if t == k.Cur() && run[0].Go? {
        SignalUps(k, w, c, None);
        ReturnedStays(k', run[1..], t);
      } else {
        StepAs(k, run[0]);
        InsideStays(k, run[0], k', t);
        SignalUnderWay(k', run[1..], t, w, c);
      }
    }
  }

  /** When cond_signal(c) returns, the thread that was first in the queue has had its private
      semaphore upped, once. */
  lemma SignalReturns(k: State, c: CondId, run: seq<Step>)
    requires Inv(k) && k.Cur() in k.pc && Enabled(k, Do(Signal(c))) && Inv(Apply(k, Do(Signal(c))))
    requires CallAndReturn(k, Signal(c), run) && c in k.queue && k.queue[c] != []
    ensures Private(After(Apply(k, Do(Signal(c))), run), k.queue[c][0], c, 1, 0)
  {
    hide Inv, Apply, Enabled, Private;
    SignalPops(k, c);
    SignalUnderWay(Apply(k, Do(Signal(c))), run, k.Cur(), k.queue[c][0], c);
  }

  /** Thread t broadcasts on c, to those who have waited up to now. */
  predicate Broadcasting(k: State, t: Tid, c: CondId, all: seq<Tid>) {
    && t in k.pc && c in k.queue && c in k.enqueued && c in k.woken && k.enqueued[c] == all
    && (k.pc[t] == Broadcast(c, |all|)
        || (k.pc[t].SignalUp? && k.pc[t].cond == c && k.pc[t].goal == Some(|all|)))
  }

  /** What a broadcast has reached when it is over. */
  predicate AllWoken(k: State, c: CondId, all: seq<Tid>) {
    c in k.queue && c in k.woken && k.queue[c] == [] && k.woken[c] == all
  }

  lemma BroadcastGo(k: State, k': State, c: CondId, all: seq<Tid>)
    requires Broadcasting(k, k.Cur(), c, all) && k.enqueued[c] == k.woken[c] + k.queue[c]
    requires PlacesAs(k, Go, k') && QueuesAs(k, Go, k')
    ensures Broadcasting(k', k.Cur(), c, all) || (At(k', k.Cur(), User) && AllWoken(k', c, all))
  {
    assert QueueAs(k, Go, k', c);
  }

  /** Nobody joins the queue while a broadcast is under way. */
  lemma BroadcastOther(k: State, st: Step, k': State, t: Tid, c: CondId, all: seq<Tid>)
    requires PcInv(k) && k.Cur() in k.pc && Enabled(k, st) && PlacesAs(k, st, k') && QueuesAs(k, st, k')
    requires Broadcasting(k, t, c, all) && BroadcastOk(k', t) && !(t == k.Cur() && st.Go?)
    ensures Broadcasting(k', t, c, all)
  {
    hide PcInv, Enabled, PlacesAs, QueuesAs;
    InsideStays(k, st, k', t);
    HistoriesGrow(k, st, k', c);
  }

  lemma BroadcastStep(k: State, st: Step, t: Tid, c: CondId, all: seq<Tid>)
    requires Inv(k) && k.Cur() in k.pc && Enabled(k, st) && Broadcasting(k, t, c, all)
    ensures Inv(Apply(k, st))
    ensures Broadcasting(Apply(k, st), t, c, all) || (At(Apply(k, st), t, User) && AllWoken(Apply(k, st), c, all))
  {
    hide SemaInv, LockInv, HoldInv, PcInv, S.Inv, PlacesAs, HoldersAs, SemasAs, QueuesAs, SchedAs, Apply, Enabled;
    hide WaiterOk, BroadcastOk, QueueOk, Broadcasting, AllWoken;
    ApplyKeepsInv(k, st);
    StepAs(k, st);
    if t == k.Cur() && st.Go? {
      BroadcastQueue(k, t, c, all);
      BroadcastGo(k, Apply(k, st), c, all);
    } else {
      assert BroadcastOk(Apply(k, st), t);
      BroadcastOther(k, st, Apply(k, st), t, c, all);
    }
  }

  lemma BroadcastQueue(k: State, t: Tid, c: CondId, all: seq<Tid>)
    requires CondInv(k) && Broadcasting(k, t, c, all)
    ensures k.enqueued[c] == k.woken[c] + k.queue[c]
  {
    assert QueueOk(k, c);
  }

  lemma {:induction false} BroadcastUnderWay(k: State, run: seq<Step>, t: Tid, c: CondId, all: seq<Tid>)
    requires Inv(k) && ValidRun(k, run) && Broadcasting(k, t, c, all)
    requires Inside(k, run, t) && At(After(k, run), t, User)
    ensures AllWoken(After(k, run), c, all)
    decreases run
  {
    hide Inv, Apply, Enabled, AllWoken;
    if run != [] {
      var k' := Apply(k, run[0]);
      BroadcastStep(k, run[0], t, c, all);
      if Broadcasting(k', t, c, all) {
        BroadcastUnderWay(k', run[1..], t, c, all);
      } else {
        ReturnedStays(k', run[1..], t);
      }
    }
  }

  lemma BroadcastBegins(k: State, k': State, c: CondId)
    requires k.Cur() in k.pc && c in k.queue && c in k.enqueued && c in k.woken
    requires PlacesAs(k, Do(BroadcastCall(c)), k') && QueuesAs(k, Do(BroadcastCall(c)), k')
    ensures Broadcasting(k', k.Cur(), c, k.enqueued[c])
  {
    assert QueueAs(k, Do(BroadcastCall(c)), k', c);
  }

  /** When cond_broadcast(c) returns, the queue is empty and those signalled are exactly
      those who had come to wait before the call. */
  lemma BroadcastReturns(k: State, c: CondId, run: seq<Step>)
    requires Inv(k) && k.Cur() in k.pc && Enabled(k, Do(BroadcastCall(c))) && Inv(Apply(k, Do(BroadcastCall(c))))
    requires CallAndReturn(k, BroadcastCall(c), run) && c in k.queue && c in k.enqueued
    ensures AllWoken(After(Apply(k, Do(BroadcastCall(c))), run), c, k.enqueued[c])
  {
    hide SemaInv, LockInv, HoldInv, CondInv, S.Inv, SemasAs, HoldersAs, PlacesAs, QueuesAs, SchedAs, Apply;
    hide AllWoken, PcOkAt, Broadcasting;
    CallStep(k, BroadcastCall(c));
    BroadcastBegins(k, Apply(k, Do(BroadcastCall(c))), c);
    BroadcastUnderWay(Apply(k, Do(BroadcastCall(c))), run, k.Cur(), c, k.enqueued[c]);
  }

  // ---------------------------------------------------------------------
  // lock_release() frees the lock, sema_down() takes one unit
  // ---------------------------------------------------------------------

  /** Nobody holds the lock, and its semaphore is up. */
  predicate IsFree(k: State, l: LockId) {
    LockHolder(k, l) == None && OfLock(l) in k.semas && k.semas[OfLock(l)].value == 1
  }

  /** Whoever is about to up a lock's semaphore finds it down, with no holder. */
  lemma GivesUpFree(k: State, t: Tid, l: LockId)
    requires Wired(k) && l in k.holder && LockOk(k, l) && At(k, t, GiveUp(l, None))
    ensures k.holder[l] == None && k.semas[OfLock(l)].value == 0
  {
    assert t in Between(k, l);
    assert Between(k, l) != {};
  }

  lemma GiveUpGo(k: State, k': State, l: LockId)
    requires At(k, k.Cur(), GiveUp(l, None)) && l in k.holder && OfLock(l) in k.semas
    requires k.holder[l] == None && k.semas[OfLock(l)].value == 0
    requires SemasAs(k, Go, k') && HoldersAs(k, Go, k') && PlacesAs(k, Go, k')
    ensures IsFree(k', l) && At(k', k.Cur(), User)
  {
  }

  lemma {:induction false} ReleaseUnderWay(k: State, run: seq<Step>, t: Tid, l: LockId)
    requires Inv(k) && ValidRun(k, run) && At(k, t, GiveUp(l, None))
    requires Inside(k, run, t) && At(After(k, run), t, User)
    ensures IsFree(After(k, run), l)
    decreases run
  {
    hide SemaInv, HoldInv, CondInv, S.Inv, PlacesAs, HoldersAs, SemasAs, QueuesAs, SchedAs, Apply, Enabled, IsFree;
    hide LockOk;
    if run != [] {
      var k' := Apply(k, run[0]);
      ApplyKeepsInv(k, run[0]);
      StepAs(k, run[0]);
      if t == k.Cur() && run[0].Go? {
        assert PcOkAt(k, t);
        GivesUpFree(k, t, l);
        GiveUpGo(k, k', l);
        ReturnedStays(k', run[1..], t);
      } else {
        InsideStays(k, run[0], k', t);
        ReleaseUnderWay(k', run[1..], t, l);
      }
    }
  }

  lemma ReleaseBegins(k: State, k': State, l: LockId)
    requires k.Cur() in k.pc && PlacesAs(k, Do(Release(l)), k')
    ensures At(k', k.Cur(), GiveUp(l, None))
  {
  }

  /** When lock_release() returns, and before its caller does anything else, the lock is free. */
  lemma ReleaseReturns(k: State, l: LockId, run: seq<Step>)
    requires Inv(k) && k.Cur() in k.pc && Enabled(k, Do(Release(l))) && Inv(Apply(k, Do(Release(l))))
    requires CallAndReturn(k, Release(l), run)
    ensures IsFree(After(Apply(k, Do(Release(l))), run), l)
  {
    hide Inv, Enabled, SemasAs, HoldersAs, PlacesAs, QueuesAs, SchedAs, Apply, IsFree;
    CallStep(k, Release(l));
    ReleaseBegins(k, Apply(k, Do(Release(l))), l);
    ReleaseUnderWay(Apply(k, Do(Release(l))), run, k.Cur(), l);
  }
}
