/**
 cond_broadcast() of threads/synch.c over whole runs: the loop ends after as
 many signals as there were waiters when it was called.
 */
module Broadcasts {
  import opened Common
  import S = Scheduler
  import opened Synch

  /** Thread t is inside cond_broadcast(c), called when n threads had queued. */
  predicate Looping(k: State, t: Tid, c: CondId, n: nat) {
    t in k.pc && (k.pc[t] == Broadcast(c, n) || (k.pc[t].SignalUp? && k.pc[t].cond == c && k.pc[t].goal == Some(n)))
  }

  /** This step is a pass of its loop that finds a waiter. */
  predicate Pass(k: State, st: Step, t: Tid, c: CondId, n: nat) {
    st == Go && k.Cur() == t && At(k, t, Broadcast(c, n)) && c in k.queue && k.queue[c] != []
  }

  /** This step takes a waiter off the queue of c or adds one. */
  predicate TouchesQueue(k: State, st: Step, c: CondId) {
    match st
    case Go => k.Cur() in k.pc && k.pc[k.Cur()].Broadcast? && k.pc[k.Cur()].cond == c
    case Do(call) => call == Wait(c) || call == Signal(c)
    case _ => false
  }

  /** Semaphores have nothing to do with the queues; only the current thread moves. */
  lemma DownFrame(k: State, s: SemaId)
    requires s in k.semas && (k.semas[s].value == 0 ==> S.HasNext(S.SetCurrent(k.sched, S.Blocked)))
    ensures SemaDown(k, s).queue == k.queue
    ensures forall t :: t in k.pc && t != k.Cur() ==> At(SemaDown(k, s), t, k.pc[t])
  {
    hide S.HasNext, S.SetCurrent, S.Block;
  }

  lemma UpFrame(k: State, s: SemaId, p: Pc)
    requires s in k.semas
    ensures SemaUp(k, s, p).queue == k.queue
    ensures forall t :: t in k.pc && t != k.Cur() ==> At(SemaUp(k, s, p), t, k.pc[t])
  {
    hide S.Unblock;
  }

  /** The semaphore calls inside the current thread's primitive. */
  lemma GoFrame(k: State)
    requires S.Inv(k.sched) && Wired(k) && k.Cur() in k.pc && PcOkAt(k, k.Cur()) && k.pc[k.Cur()] != User
    requires var p := k.pc[k.Cur()];
             p.Down? || p.GiveUp? || p.CondSleep? || p.CondWake? || p.SignalUp? || p.IdleUp?
    ensures Continue(k).queue == k.queue
    ensures forall t :: t in k.pc && t != k.Cur() ==> At(Continue(k), t, k.pc[t])
  {
    hide S.Inv, S.HasNext, SemaDown, SemaUp;
    FindsNext(k);
    match k.pc[k.Cur()]
    case Down(s) => DownFrame(k, s);
    case GiveUp(l, w) => UpFrame(k, OfLock(l), if w.Some? then CondSleep(w.value) else User);
    case CondSleep(c) => DownFrame(k, OfWaiter(k.Cur(), c));
    case CondWake(c) => DownFrame(k, OfLock(k.lockOf[c]));
    case SignalUp(w, c, g) => UpFrame(k, OfWaiter(w, c), AfterSignal(c, g));
    case IdleUp => UpFrame(k, Plain(0), IdleLoop);
  }

  lemma GoQueue(k: State, c: CondId)
    requires S.Inv(k.sched) && Wired(k) && k.Cur() in k.pc && PcOkAt(k, k.Cur()) && k.pc[k.Cur()] != User
    requires c in k.queue && !TouchesQueue(k, Go, c)
    ensures c in Continue(k).queue && Continue(k).queue[c] == k.queue[c]
  {
    hide S.Inv, S.HasNext, SemaDown, SemaUp;
    var p := k.pc[k.Cur()];
    if p.Down? || p.GiveUp? || p.CondSleep? || p.CondWake? || p.SignalUp? || p.IdleUp? { GoFrame(k); }
  }

  lemma DoFrame(k: State, call: Call)
    requires S.Inv(k.sched) && Wired(k) && k.Cur() != k.sched.idler && Callable(k, call)
    requires call.DownCall? || call.TryDown? || call.UpCall? || call.Acquire? || call.TryAcquire?
    ensures Perform(k, call).queue == k.queue
    ensures forall t :: t in k.pc && t != k.Cur() ==> At(Perform(k, call), t, k.pc[t])
  {
    hide S.Inv, S.HasNext, SemaDown, SemaUp;
    FindsNext(k);
    match call
    case DownCall(id) => DownFrame(k, Plain(id));
    case TryDown(id) => DownFrame(k, Plain(id));
    case UpCall(id) => UpFrame(k, Plain(id), User);
    case Acquire(l) => DownFrame(k, OfLock(l));
    case TryAcquire(l) => DownFrame(k, OfLock(l));
  }

  lemma QueuesKnown(k: State)
    requires Wired(k)
    ensures k.queue.Keys == k.lockOf.Keys == k.enqueued.Keys == k.woken.Keys
  {
  }

  lemma DoQueue(k: State, call: Call, c: CondId)
    requires S.Inv(k.sched) && Wired(k) && k.Cur() != k.sched.idler && Callable(k, call)
    requires c in k.queue && !TouchesQueue(k, Do(call), c)
    ensures c in Perform(k, call).queue && Perform(k, call).queue[c] == k.queue[c]
  {
    hide S.Inv, S.HasNext, S.Apply, SemaDown, SemaUp, Wired;
    QueuesKnown(k);
    if call.DownCall? || call.TryDown? || call.UpCall? || call.Acquire? || call.TryAcquire? { DoFrame(k, call); }
  }

  lemma QueueStays(k: State, st: Step, c: CondId)
    requires Inv(k) && k.Cur() in k.pc && Enabled(k, st) && c in k.queue && !TouchesQueue(k, st, c)
    ensures c in Apply(k, st).queue && Apply(k, st).queue[c] == k.queue[c]
  {
    hide SemaInv, LockInv, HoldInv, CondInv, S.Inv, Continue, Perform;
    assert PcOkAt(k, k.Cur());
    if st.Go? { GoQueue(k, c); }
    if st.Do? { DoQueue(k, st.call, c); }
  }

  /** Whoever touches the queue holds the lock, and so does the thread in the loop. */
  lemma OnlyLooperTouches(k: State, st: Step, t: Tid, c: CondId, n: nat)
    requires HoldInv(k) && k.Cur() in k.pc && Enabled(k, st) && Looping(k, t, c, n) && TouchesQueue(k, st, c)
    ensures k.Cur() == t && At(k, t, Broadcast(c, n)) && st == Go
  {
    assert HoldOk(k, t) && HoldOk(k, k.Cur());
  }

  lemma LooperWired(k: State, t: Tid, c: CondId, n: nat)
    requires PcInv(k) && Looping(k, t, c, n)
    ensures c in k.queue && c in k.lockOf && c in k.woken && t != k.sched.idler && Runnable(k, t)
  {
    assert PcOkAt(k, t);
  }

  /** Another thread's step does not move the looping thread. */
  lemma GoOthersStay(k: State, t: Tid)
    requires S.Inv(k.sched) && Wired(k) && k.Cur() in k.pc && PcOkAt(k, k.Cur()) && k.pc[k.Cur()] != User
    requires t in k.pc && t != k.Cur() && !k.pc[t].Nascent?
    ensures At(Continue(k), t, k.pc[t])
  {
    hide S.Inv, S.HasNext, SemaDown, SemaUp;
    var p := k.pc[k.Cur()];
    if p.Down? || p.GiveUp? || p.CondSleep? || p.CondWake? || p.SignalUp? || p.IdleUp? { GoFrame(k); }
  }

  lemma DoOthersStay(k: State, call: Call, t: Tid)
    requires S.Inv(k.sched) && Wired(k) && k.Cur() != k.sched.idler && Callable(k, call)
    requires t in k.pc && t != k.Cur()
    ensures At(Perform(k, call), t, k.pc[t])
  {
    hide S.Inv, S.HasNext, SemaDown, SemaUp;
    if call.DownCall? || call.TryDown? || call.UpCall? || call.Acquire? || call.TryAcquire? { DoFrame(k, call); }
  }

  lemma OthersStay(k: State, st: Step, t: Tid)
    requires Inv(k) && k.Cur() in k.pc && Enabled(k, st) && t in k.pc && t != k.Cur() && !k.pc[t].Nascent?
    ensures At(Apply(k, st), t, k.pc[t])
  {
    hide SemaInv, LockInv, HoldInv, CondInv, S.Inv, Continue, Perform;
    assert PcOkAt(k, k.Cur());
    if st.Go? { GoOthersStay(k, t); }
    if st.Do? { DoOthersStay(k, st.call, t); }
  }

  /** The looping thread's own step leads out of the loop only on an empty queue. */
  lemma GoLooper(k: State, t: Tid, c: CondId, n: nat)
    requires S.Inv(k.sched) && Wired(k) && t == k.Cur() && t in k.pc && PcOkAt(k, t) && Looping(k, t, c, n)
             && c in k.queue
    ensures !Looping(Continue(k), t, c, n) ==> k.queue[c] == []
    ensures c in Continue(k).queue
    ensures Continue(k).queue[c] == if Pass(k, Go, t, c, n) then k.queue[c][1..] else k.queue[c]
  {
    hide S.Inv;
  }

  /** A step other than a move of the looping thread. */
  lemma ElseLooper(k: State, st: Step, t: Tid, c: CondId, n: nat)
    requires Inv(k) && k.Cur() in k.pc && Enabled(k, st) && Looping(k, t, c, n) && !(st == Go && t == k.Cur())
    ensures Looping(Apply(k, st), t, c, n)
  {
    if t != k.Cur() {
      hide Inv, Apply;
      OthersStay(k, st, t);
    } else {
      hide Inv, Continue, Perform, S.Apply;
    }
  }

  /** One step of anybody: the queue loses its first waiter in a pass of the
      loop and changes in no other way; the loop is left only when it is empty. */
  lemma LoopStep(k: State, st: Step, t: Tid, c: CondId, n: nat)
    requires Inv(k) && k.Cur() in k.pc && Enabled(k, st) && Looping(k, t, c, n)
    ensures var k' := Apply(k, st);
            && c in k.queue && c in k'.queue
            && k'.queue[c] == (if Pass(k, st, t, c, n) then k.queue[c][1..] else k.queue[c])
    ensures !Looping(Apply(k, st), t, c, n) ==> k.queue[c] == []
  {
    hide SemaInv, LockInv, HoldInv, CondInv, S.Inv, PcOkAt, Continue, Perform, TouchesQueue, Looping;
    LooperWired(k, t, c, n);
    if st == Go && t == k.Cur() {
      GoLooper(k, t, c, n);
    } else {
      ElseLooper(k, st, t, c, n);
      if TouchesQueue(k, st, c) { OnlyLooperTouches(k, st, t, c, n); }
      QueueStays(k, st, c);
    }
  }

  // ---------------------------------------------------------------------
  // Runs
  // ---------------------------------------------------------------------

  /** The passes of thread t's loop in a run. */
  ghost function Passes(k: State, run: seq<Step>, t: Tid, c: CondId, n: nat): nat
    requires Inv(k) && ValidRun(k, run)
    decreases run
  {
    if run == [] then 0 else
    ApplyKeepsInv(k, run[0]);
    (if Pass(k, run[0], t, c, n) then 1 else 0) + Passes(Apply(k, run[0]), run[1..], t, c, n)
  }

  /** Thread t is in its loop before every step of the run. */
  ghost predicate InLoop(k: State, run: seq<Step>, t: Tid, c: CondId, n: nat)
    requires Inv(k) && ValidRun(k, run)
    decreases run
  {
    run == [] || (Looping(k, t, c, n) && (ApplyKeepsInv(k, run[0]); InLoop(Apply(k, run[0]), run[1..], t, c, n)))
  }

  /** However other threads and interrupts are interleaved, each pass shortens
      the queue by one and nothing else changes it; so the loop makes at most
      as many passes as there were waiters, and exactly as many if it ends. */
  lemma {:induction false} BroadcastEnds(k: State, run: seq<Step>, t: Tid, c: CondId, n: nat)
    requires Inv(k) && ValidRun(k, run) && InLoop(k, run, t, c, n) && c in k.queue
    ensures var r := After(k, run);
            c in r.queue && Passes(k, run, t, c, n) + |r.queue[c]| == |k.queue[c]|
    ensures run != [] && !Looping(After(k, run), t, c, n) ==> Passes(k, run, t, c, n) == |k.queue[c]|
    decreases run
  {
    hide Inv, Apply;
    if run != [] {
      ApplyKeepsInv(k, run[0]);
      LoopStep(k, run[0], t, c, n);
      BroadcastEnds(Apply(k, run[0]), run[1..], t, c, n);
    }
  }
}
