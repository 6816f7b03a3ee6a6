/**
 The semaphore and lock code of threads/synch.c as it updates its structures in
 place.  `Shows` ties a semaphore object and the CPU to a state of module Synch;
 each method is one interrupts-off section and is proved to take the step that
 Synch gives it.
 */
module SynchPrimitives {
  import opened Common
  import opened Threads
  import S = Scheduler
  import Synch

  class Semaphore {
    var value: nat
    var waiters: seq<S.Tid>

    ghost predicate Shows(k: Synch.State, s: Synch.SemaId, cpu: Cpu)
      reads this, cpu
    {
      && k.sched == cpu.View()
      && s in k.semas && k.semas[s].value == value && k.semas[s].waiters == waiters
    }

    /** sema_init() */
    constructor (v: nat)
      ensures value == v && waiters == []
    {
      value, waiters := v, [];
    }

    /** One pass of the loop in sema_down(): `done` if the semaphore was taken,
        otherwise the current thread has queued itself and blocked. */
    method DownPass(cpu: Cpu, ghost k: Synch.State, ghost s: Synch.SemaId) returns (done: bool)
      requires Shows(k, s, cpu) && S.Inv(k.sched) && S.Enabled(k.sched, S.DoBlock) && !cpu.inExternalIntr
      modifies this, cpu
      ensures S.HasNext(S.SetCurrent(k.sched, S.Blocked)) && Shows(Synch.SemaDown(k, s), s, cpu)
      ensures done <==> old(value) > 0
      ensures done ==> unchanged(cpu)
    {
      Synch.CanBlock(k);
      if value == 0 {
        waiters := waiters + [cpu.current];
        cpu.ThreadBlock();
        done := false;
      } else {
        value := value - 1;
        done := true;
      }
    }

    /** sema_try_down() */
    method TryDown(cpu: Cpu, ghost k: Synch.State, ghost s: Synch.SemaId) returns (success: bool)
      requires Shows(k, s, cpu) && S.Inv(k.sched) && S.Enabled(k.sched, S.DoBlock)
      modifies this
      ensures success <==> old(value) > 0
      ensures S.HasNext(S.SetCurrent(k.sched, S.Blocked))
      ensures Shows(if success then Synch.SemaDown(k, s) else k, s, cpu)
    {
      Synch.CanBlock(k);
      if value > 0 {
        value := value - 1;
        success := true;
      } else {
        success := false;
      }
    }

    /** sema_up() */
    method Up(cpu: Cpu, ghost k: Synch.State, ghost s: Synch.SemaId, ghost p: Synch.Pc)
      requires Synch.Inv(k) && Shows(k, s, cpu)
      modifies this, cpu`readyList, cpu`status
      ensures Shows(Synch.SemaUp(k, s, p), s, cpu)
    {
      hide Synch.Inv, Synch.Loses, S.Inv, S.Unblock;
      WaiterBlocked(k, s);
      if waiters != [] {
        var t := waiters[0];
        waiters := waiters[1..];
        cpu.ThreadUnblock(t);
      }
      value := value + 1;
    }
  }

  /** The first waiter is blocked, as thread_unblock() asserts. */
  lemma WaiterBlocked(k: Synch.State, s: Synch.SemaId)
    requires Synch.Inv(k) && s in k.semas
    ensures k.semas[s].waiters != [] ==> S.Inv(k.sched) && S.Enabled(k.sched, S.DoUnblock(k.semas[s].waiters[0]))
  {
    hide Synch.LockInv, Synch.HoldInv, Synch.CondInv, S.Inv;
    if k.semas[s].waiters != [] {
      assert Synch.SemaOk(k, s);
      assert k.semas[s].waiters[0] in k.semas[s].waiters;
      assert Synch.PcOkAt(k, k.semas[s].waiters[0]);
    }
  }

  class Lock {
    var holder: Option<S.Tid>
    const semaphore: Semaphore

    ghost predicate Shows(k: Synch.State, l: Synch.LockId, cpu: Cpu)
      reads this, semaphore, cpu
    {
      semaphore.Shows(k, Synch.OfLock(l), cpu) && l in k.holder && k.holder[l] == holder
    }

    /** lock_init() */
    constructor ()
      ensures holder == None && semaphore.value == 1 && semaphore.waiters == []
    {
      holder := None;
      semaphore := new Semaphore(1);
    }

    /** lock_acquire(), from its call of sema_down() on: one pass of the wait. */
    method AcquirePass(cpu: Cpu, ghost k: Synch.State, ghost l: Synch.LockId) returns (acquired: bool)
      requires Shows(k, l, cpu) && S.Inv(k.sched) && S.Enabled(k.sched, S.DoBlock) && !cpu.inExternalIntr
      requires holder != Some(cpu.current)
      modifies semaphore, cpu
      ensures S.HasNext(S.SetCurrent(k.sched, S.Blocked)) && Shows(Synch.SemaDown(k, Synch.OfLock(l)), l, cpu)
      ensures acquired <==> old(semaphore.value) > 0
    {
      acquired := semaphore.DownPass(cpu, k, Synch.OfLock(l));
    }

    /** lock_acquire(), after sema_down() returned. */
    method SetHolder(cpu: Cpu, ghost k: Synch.State, ghost l: Synch.LockId)
      requires Shows(k, l, cpu)
      modifies this
      ensures Shows(Synch.SetHolder(k, l, Some(cpu.current), Synch.User), l, cpu)
    {
      holder := Some(cpu.current);
    }

    /** lock_release(): both sections, with nothing in between. */
    method Release(cpu: Cpu, ghost k: Synch.State, ghost l: Synch.LockId)
      requires Synch.Inv(k) && Shows(k, l, cpu) && Synch.At(k, k.Cur(), Synch.User) && holder == Some(cpu.current)
      modifies this, semaphore, cpu`readyList, cpu`status
      ensures var k1 := Synch.SetHolder(k, l, None, Synch.GiveUp(l, None));
              Shows(Synch.SemaUp(k1, Synch.OfLock(l), Synch.User), l, cpu)
    {
      hide Synch.PcInv, Synch.SemaInv, Synch.LockInv, Synch.HoldInv, Synch.CondInv;
      ghost var k1 := Synch.SetHolder(k, l, None, Synch.GiveUp(l, None));
      Synch.ClearHolderKeepsInv(k, l, Synch.GiveUp(l, None));
      holder := None;
      semaphore.Up(cpu, k1, Synch.OfLock(l), Synch.User);
    }
  }
}
