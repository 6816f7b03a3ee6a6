/**
 Mutual exclusion of the locks of threads/synch.c: who made the decrement of a
 lock's semaphore that has not been undone, and what the holder field says
 about that thread.
 */
module Ownership {
  import opened Common
  import S = Scheduler
  import opened Synch

  /** The code position of t, or the holder field, says that t owns lock l. */
  ghost predicate Claims(k: State, t: Tid, l: LockId) {
    (t in k.pc && AtLock(k.pc[t], l)) || (l in k.holder && k.holder[l] == Some(t))
  }

  /** The threads whose decrement is not yet undone are those that claim the lock. */
  ghost predicate OwnerInv(k: State) {
    && k.owner.Keys == k.holder.Keys
    && forall l, t :: l in k.holder ==> (t in k.owner[l] <==> Claims(k, t, l))
  }

  // ---------------------------------------------------------------------
  // The two shapes of steps
  // ---------------------------------------------------------------------

  /** A step that neither acquires nor releases. */
  lemma StillKeepsOwner(k: State, k': State)
    requires OwnerInv(k) && k'.owner == k.owner && k'.holder == k.holder
    requires forall t, l :: (t in k.pc && AtLock(k.pc[t], l)) <==> (t in k'.pc && AtLock(k'.pc[t], l))
    ensures OwnerInv(k')
  {
    forall l, t | l in k'.holder ensures t in k'.owner[l] <==> Claims(k', t, l) {
      assert t in k.owner[l] <==> Claims(k, t, l);
    }
  }

  /** A step of the current thread at lock l. */
  lemma LockKeepsOwner(k: State, k': State, l: LockId)
    requires OwnerInv(k) && l in k.holder && k'.holder.Keys == k.holder.Keys && k'.owner.Keys == k.owner.Keys
    requires forall i :: i in k.holder && i != l ==> k'.holder[i] == k.holder[i] && k'.owner[i] == k.owner[i]
    requires k.Cur() in k.pc && k.Cur() in k'.pc && k'.pc == k.pc[k.Cur() := k'.pc[k.Cur()]]
    requires forall i :: i != l ==> !AtLock(k.pc[k.Cur()], i) && !AtLock(k'.pc[k.Cur()], i)
    requires forall t :: t != k.Cur() ==> (t in k'.owner[l] <==> t in k.owner[l])
    requires forall t :: t != k.Cur() ==> (k'.holder[l] == Some(t) <==> k.holder[l] == Some(t))
    requires k.Cur() in k'.owner[l] <==> Claims(k', k.Cur(), l)
    ensures OwnerInv(k')
  {
    forall i, t | i in k'.holder ensures t in k'.owner[i] <==> Claims(k', t, i) {
      assert t in k.owner[i] <==> Claims(k, t, i);
    }
  }

  // ---------------------------------------------------------------------
  // Every section
  // ---------------------------------------------------------------------

  lemma DownKeepsOwner(k: State, s: SemaId)
    requires OwnerInv(k) && Downable(k, s)
    requires k.semas[s].value == 0 ==> S.HasNext(S.SetCurrent(k.sched, S.Blocked))
    ensures OwnerInv(SemaDown(k, s))
  {
    hide OwnerInv;
    if k.semas[s].value == 0 {
      StillKeepsOwner(k, SemaDown(k, s));
    } else {
      TakeKeepsOwner(k, s);
    }
  }

  /** The decrement makes the current thread an owner. */
  lemma TakeKeepsOwner(k: State, s: SemaId)
    requires OwnerInv(k) && Downable(k, s) && k.semas[s].value > 0
    ensures OwnerInv(TakeUnit(k, s))
  {
    if s.OfLock? {
      LockKeepsOwner(k, TakeUnit(k, s), s.lock);
    } else {
      StillKeepsOwner(k, TakeUnit(k, s));
    }
  }

  /** The increment of lock_release() makes it cease to be one. */
  lemma GiveUpKeepsOwner(k: State, l: LockId, w: Option<CondId>)
    requires OwnerInv(k) && At(k, k.Cur(), GiveUp(l, w)) && l in k.holder && OfLock(l) in k.semas && LockOk(k, l)
    ensures OwnerInv(SemaUp(k, OfLock(l), if w.Some? then CondSleep(w.value) else User))
  {
    InsideLockAlone(k, l, k.Cur());
    LockKeepsOwner(k, SemaUp(k, OfLock(l), if w.Some? then CondSleep(w.value) else User), l);
  }

  lemma UpKeepsOwner(k: State, s: SemaId, p: Pc)
    requires OwnerInv(k) && s in k.semas && !s.OfLock? && k.Cur() in k.pc
    requires forall l :: AtLock(k.pc[k.Cur()], l) <==> AtLock(p, l)
    ensures OwnerInv(SemaUp(k, s, p))
  {
    StillKeepsOwner(k, SemaUp(k, s, p));
  }

  /** holder = current: the field names the thread that made the decrement. */
  lemma TakeHolderKeepsOwner(k: State, l: LockId)
    requires OwnerInv(k) && At(k, k.Cur(), TakeHolder(l)) && l in k.holder && k.holder[l] == None
    ensures OwnerInv(SetHolder(k, l, Some(k.Cur()), User))
  {
    assert Claims(k, k.Cur(), l);
    LockKeepsOwner(k, SetHolder(k, l, Some(k.Cur()), User), l);
  }

  /** holder = NULL */
  lemma ClearHolderKeepsOwner(k: State, l: LockId, p: Pc)
    requires OwnerInv(k) && Holds(k, l) && k.Cur() in k.pc && (k.pc[k.Cur()].User? || k.pc[k.Cur()].CondRelease?)
    requires p.GiveUp? && p.lock == l
    ensures OwnerInv(SetHolder(k, l, None, p))
  {
    assert Claims(k, k.Cur(), l);
    LockKeepsOwner(k, SetHolder(k, l, None, p), l);
  }

  /** lock_try_acquire() in an interrupt handler: decrement and field at once. */
  lemma SeizeKeepsOwner(k: State, l: LockId)
    requires Inv(k) && OwnerInv(k) && l in k.holder && OfLock(l) in k.semas && k.semas[OfLock(l)].value > 0
    ensures OwnerInv(Seize(k, l))
  {
    hide SemaInv, HoldInv, CondInv, S.Inv, PcOkAt;
    assert LockOk(k, l) && k.holder[l] == None;
    forall i, t | i in k.holder ensures t in Seize(k, l).owner[i] <==> Claims(Seize(k, l), t, i) {
      assert t in k.owner[i] <==> Claims(k, t, i);
    }
  }

  lemma AddLockKeepsOwner(k: State, l: LockId)
    requires OwnerInv(k) && PcInv(k) && l !in k.holder
    ensures OwnerInv(AddLock(k, l))
  {
    var k' := AddLock(k, l);
    forall i, t | i in k'.holder ensures t in k'.owner[i] <==> Claims(k', t, i) {
      if t in k.pc { assert PcOkAt(k, t); }
      if i != l { assert t in k.owner[i] <==> Claims(k, t, i); }
    }
  }

  lemma PopKeepsOwner(k: State, c: CondId, goal: Option<nat>)
    requires OwnerInv(k) && k.Cur() in k.pc && c in k.queue && c in k.woken
    requires k.pc[k.Cur()] == User || k.pc[k.Cur()].Broadcast?
    ensures OwnerInv(PopWaiter(k, c, goal, User))
  {
    StillKeepsOwner(k, PopWaiter(k, c, goal, User));
  }

  // ---------------------------------------------------------------------
  // Every step
  // ---------------------------------------------------------------------

  lemma GoLockKeepsOwner(k: State)
    requires Inv(k) && OwnerInv(k) && k.Cur() in k.pc && PcOkAt(k, k.Cur())
    requires k.pc[k.Cur()].Down? || k.pc[k.Cur()].TakeHolder? || k.pc[k.Cur()].GiveUp?
    ensures OwnerInv(Continue(k))
  {
    hide SemaInv, HoldInv, CondInv, OwnerInv;
    match k.pc[k.Cur()]
    case Down(s) => FindsNext(k); DownKeepsOwner(k, s);
    case TakeHolder(l) => TakeHolderAlone(k, l); TakeHolderKeepsOwner(k, l);
    case GiveUp(l, w) => assert LockOk(k, l); GiveUpKeepsOwner(k, l, w);
  }

  lemma GoCondKeepsOwner(k: State)
    requires S.Inv(k.sched) && Wired(k) && OwnerInv(k) && k.Cur() in k.pc && PcOkAt(k, k.Cur()) && HoldOk(k, k.Cur())
    requires var p := k.pc[k.Cur()]; p.CondRelease? || p.CondSleep? || p.CondWake? || p.SignalUp? || p.Broadcast?
    ensures OwnerInv(Continue(k))
  {
    hide OwnerInv, S.Inv;
    match k.pc[k.Cur()]
    case CondRelease(c) => ClearHolderKeepsOwner(k, k.lockOf[c], GiveUp(k.lockOf[c], Some(c)));
    case CondSleep(c) => FindsNext(k); DownKeepsOwner(k, OfWaiter(k.Cur(), c));
    case CondWake(c) => FindsNext(k); DownKeepsOwner(k, OfLock(k.lockOf[c]));
    case SignalUp(w, c, g) => UpKeepsOwner(k, OfWaiter(w, c), AfterSignal(c, g));
    case Broadcast(c, g) => PopKeepsOwner(k, c, Some(g));
  }

  lemma GoIdleKeepsOwner(k: State)
    requires S.Inv(k.sched) && Wired(k) && OwnerInv(k) && k.Cur() in k.pc && PcOkAt(k, k.Cur())
    requires var p := k.pc[k.Cur()]; p.Creating? || p.IdleStart? || p.IdleUp? || p.IdleLoop?
    ensures OwnerInv(Continue(k))
  {
    hide OwnerInv, S.Inv, S.HasNext, S.Enabled, SemaDown, SemaUp;
    match k.pc[k.Cur()]
    case Creating(u) => StillKeepsOwner(k, StartChild(k, u));
    case IdleStart => StillKeepsOwner(k, Registered(k));
    case IdleUp => UpKeepsOwner(k, Plain(0), IdleLoop);
    case IdleLoop => StillKeepsOwner(k, Continue(k));
  }

  lemma DoThreadKeepsOwner(k: State, call: Call)
    requires S.Inv(k.sched) && PcInv(k) && OwnerInv(k) && At(k, k.Cur(), User) && k.Cur() != k.sched.idler
             && Callable(k, call)
    requires call.Yield? || call.Exit? || call.Create? || call.NewSema? || call.NewLock? || call.NewCond?
    ensures OwnerInv(Perform(k, call))
  {
    hide OwnerInv, PcOkAt;
    if call.NewLock? {
      AddLockKeepsOwner(k, call.l);
    } else {
      StillKeepsOwner(k, Perform(k, call));
    }
  }

  lemma DoSemaKeepsOwner(k: State, call: Call)
    requires S.Inv(k.sched) && Wired(k) && OwnerInv(k) && At(k, k.Cur(), User) && k.Cur() != k.sched.idler
             && Callable(k, call)
    requires call.DownCall? || call.TryDown? || call.UpCall? || call.Acquire? || call.TryAcquire? || call.Release?
    ensures OwnerInv(Perform(k, call))
  {
    hide OwnerInv, PcOkAt;
    FindsNext(k);
    match call
    case DownCall(id) => DownKeepsOwner(k, Plain(id));
    case TryDown(id) => DownKeepsOwner(k, Plain(id));
    case UpCall(id) => UpKeepsOwner(k, Plain(id), User);
    case Acquire(l) => DownKeepsOwner(k, OfLock(l));
    case TryAcquire(l) => DownKeepsOwner(k, OfLock(l));
    case Release(l) => ClearHolderKeepsOwner(k, l, GiveUp(l, None));
  }

  lemma DoCondKeepsOwner(k: State, call: Call)
    requires S.Inv(k.sched) && Wired(k) && OwnerInv(k) && At(k, k.Cur(), User) && k.Cur() != k.sched.idler
             && Callable(k, call)
    requires call.Wait? || call.Signal? || call.BroadcastCall?
    ensures OwnerInv(Perform(k, call))
  {
    hide OwnerInv, PcOkAt, S.Inv, S.HasNext, S.Enabled, SemaDown, SemaUp;
    match call
    case Wait(c) => StillKeepsOwner(k, Enqueue(k, c));
    case Signal(c) => PopKeepsOwner(k, c, None);
    case BroadcastCall(c) => StillKeepsOwner(k, Perform(k, call));
  }

  lemma GoKeepsOwner(k: State)
    requires Inv(k) && OwnerInv(k) && k.Cur() in k.pc && k.pc[k.Cur()] != User && PcOkAt(k, k.Cur())
    ensures OwnerInv(Continue(k))
  {
    assert HoldOk(k, k.Cur());
    hide PcOkAt, SemaInv, LockInv, CondInv, OwnerInv, HoldOk, S.Inv;
    var p := k.pc[k.Cur()];
    if p.Down? || p.TakeHolder? || p.GiveUp? {
      GoLockKeepsOwner(k);
    } else if p.Creating? || p.IdleStart? || p.IdleUp? || p.IdleLoop? {
      GoIdleKeepsOwner(k);
    } else if !p.Nascent? {
      GoCondKeepsOwner(k);
    }
  }

  lemma DoKeepsOwner(k: State, call: Call)
    requires Inv(k) && OwnerInv(k) && At(k, k.Cur(), User) && k.Cur() != k.sched.idler && Callable(k, call)
    ensures OwnerInv(Perform(k, call))
  {
    hide PcOkAt, SemaInv, LockInv, HoldInv, CondInv, OwnerInv, Perform, S.Inv;
    if call.Wait? || call.Signal? || call.BroadcastCall? {
      DoCondKeepsOwner(k, call);
    } else if call.Yield? || call.Exit? || call.Create? || call.NewSema? || call.NewLock? || call.NewCond? {
      DoThreadKeepsOwner(k, call);
    } else {
      DoSemaKeepsOwner(k, call);
    }
  }

  lemma ApplyKeepsOwner(k: State, st: Step)
    requires Inv(k) && OwnerInv(k) && k.Cur() in k.pc && Enabled(k, st)
    ensures OwnerInv(Apply(k, st))
  {
    hide SemaInv, LockInv, HoldInv, CondInv, OwnerInv, Perform, Continue, SemaUp, S.Apply, S.Inv;
    CurrentIsRunning(k);
    match st
    case TimerTick => StillKeepsOwner(k, Apply(k, st));
    case IntrUp(id) => UpKeepsOwner(k, Plain(id), k.pc[k.Cur()]);
    case IntrTryDown(id) => StillKeepsOwner(k, Apply(k, st));
    case IntrTryAcquire(l) => if k.semas[OfLock(l)].value > 0 { SeizeKeepsOwner(k, l); }
    case Go => GoKeepsOwner(k);
    case Do(call) => DoKeepsOwner(k, call);
  }

  lemma {:induction false} RunKeepsOwner(k: State, run: seq<Step>)
    requires Inv(k) && OwnerInv(k) && ValidRun(k, run)
    ensures OwnerInv(After(k, run))
    decreases run
  {
    hide Inv, OwnerInv;
    if run != [] {
      ApplyKeepsInv(k, run[0]);
      ApplyKeepsOwner(k, run[0]);
      RunKeepsOwner(Apply(k, run[0]), run[1..]);
    }
  }

  lemma ReachableOwner(k: State)
    requires Reachable(k)
    ensures Inv(k) && OwnerInv(k)
  {
    var main: Tid, idler: Tid, run :|
      main != idler && (BootInv(main, idler); ValidRun(Boot(main, idler), run)) && k == After(Boot(main, idler), run);
    BootInv(main, idler);
    RunKeepsOwner(Boot(main, idler), run);
  }

  // ---------------------------------------------------------------------
  // What the locks promise, in every reachable state
  // ---------------------------------------------------------------------

  /** Mutual exclusion: the lock is free, or exactly one thread has decremented
      its semaphore and not yet incremented it.  A holder that is not null is
      that thread; if it is null, that thread is on its way into or out of the
      critical section. */
  lemma MutualExclusion(k: State, l: LockId)
    requires Reachable(k) && l in k.holder
    ensures OfLock(l) in k.semas && l in k.owner
    ensures k.semas[OfLock(l)].value + |k.owner[l]| == 1
    ensures k.holder[l].Some? ==> k.owner[l] == {k.holder[l].value}
    ensures k.holder[l] == None ==> k.owner[l] == Between(k, l)
  {
    ReachableOwner(k);
    OwnersCounted(k, l);
  }

  lemma OwnersCounted(k: State, l: LockId)
    requires OwnerInv(k) && l in k.holder && OfLock(l) in k.semas && LockOk(k, l)
    ensures k.semas[OfLock(l)].value + |k.owner[l]| == 1
    ensures k.holder[l].Some? ==> k.owner[l] == {k.holder[l].value}
    ensures k.holder[l] == None ==> k.owner[l] == Between(k, l)
  {
    forall t ensures t in k.owner[l] <==> t in Between(k, l) || k.holder[l] == Some(t) {
      assert t in k.owner[l] <==> Claims(k, t, l);
    }
    if k.holder[l].Some? {
      assert |Between(k, l)| == 0;
      assert k.owner[l] == {k.holder[l].value};
    } else {
      assert k.owner[l] == Between(k, l);
    }
  }
}
