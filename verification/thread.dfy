/**
 threads/thread.c and the external-interrupt path of threads/interrupt.c in the
 form the kernel has them: functions that update global state in place.  Each
 method is proved to perform the matching action of module Scheduler.
 */
module Threads {
  import opened Common
  import opened Scheduler

  class Cpu {
    var status: map<Tid, Status>
    var current: Tid
    var readyList: seq<Tid>
    var idleThread: Option<Tid>
    var threadTicks: nat
    var inExternalIntr: bool
    var yieldOnReturn: bool
    ghost var freed: seq<Tid>
    const initialThread: Tid
    const idler: Tid

    ghost function View(): State
      reads this
    {
      State(status, current, readyList, idleThread, threadTicks, freed, initialThread, idler)
    }

    /** thread_start() once the idle thread has been created. */
    constructor (main: Tid, idle: Tid)
      ensures View() == Boot(main, idle) && !inExternalIntr && fresh(this)
    {
      status, current, readyList := map[main := Running, idle := Ready], main, [idle];
      idleThread, threadTicks, freed := None, 0, [];
      inExternalIntr, yieldOnReturn := false, false;
      initialThread, idler := main, idle;
    }

    /** next_thread_to_run() */
    method NextThreadToRun() returns (next: Tid)
      requires HasNext(View())
      modifies this`readyList
      ensures next == if old(readyList) == [] then idleThread.value else old(readyList)[0]
      ensures readyList == if old(readyList) == [] then [] else old(readyList)[1..]
    {
      if readyList == [] {
        next := idleThread.value;
      } else {
        next := readyList[0];
        readyList := readyList[1..];
      }
    }

    /** thread_schedule_tail(), run by the thread that was just switched to. */
    method ThreadScheduleTail(prev: Option<Tid>)
      requires current in status
      requires prev.Some? ==> prev.value in status && prev.value != current
      modifies this`status, this`threadTicks, this`freed
      ensures threadTicks == 0
      ensures var dead := prev.Some? && old(status)[prev.value] == Dying && prev.value != initialThread;
              && status == (if dead then old(status)[current := Running] - {prev.value}
                 else old(status)[current := Running])
              && freed == if dead then old(freed) + [prev.value] else old(freed)
    {
      status := status[current := Running];
      threadTicks := 0;
      if prev.Some? && status[prev.value] == Dying && prev.value != initialThread {
        status := status - {prev.value};
        freed := freed + [prev.value];
      }
    }

    /** schedule() */
    method Reschedule()
      requires HasNext(View()) && status[current] != Running
      modifies this`current, this`readyList, this`status, this`threadTicks, this`freed
      ensures View() == Schedule(old(View()))
    {
      var cur := current;
      var next := NextThreadToRun();
      var prev := None;
      if cur != next {
        current := next;
        prev := Some(cur);
      }
      ThreadScheduleTail(prev);
    }

    /** thread_block() */
    method ThreadBlock()
      requires Inv(View()) && Enabled(View(), DoBlock) && !inExternalIntr
      modifies this`current, this`readyList, this`status, this`threadTicks, this`freed
      ensures View() == Apply(old(View()), DoBlock)
    {
      ScheduleKeepsInv(SetCurrent(View(), Blocked));
      status := status[current := Blocked];
      Reschedule();
    }

    /** thread_unblock() */
    method ThreadUnblock(t: Tid)
      requires t in status && status[t] == Blocked
      modifies this`readyList, this`status
      ensures View() == Unblock(old(View()), t)
    {
      readyList := readyList + [t];
      status := status[t := Ready];
    }

    /** thread_yield() */
    method ThreadYield()
      requires OneRunning(View()) && ReadyListExact(View()) && IdleAvailable(View()) && FreedOnce(View())
      requires !inExternalIntr
      modifies this`current, this`readyList, this`status, this`threadTicks, this`freed
      ensures View() == Yield(old(View()))
    {
      var cur := current;
      if Some(cur) != idleThread {
        readyList := readyList + [cur];
      }
      status := status[cur := Ready];
      Reschedule();
    }

    /** thread_exit() */
    method ThreadExit()
      requires Inv(View()) && Enabled(View(), DoExit) && !inExternalIntr
      modifies this`current, this`readyList, this`status, this`threadTicks, this`freed
      ensures View() == Apply(old(View()), DoExit)
    {
      ScheduleKeepsInv(SetCurrent(View(), Dying));
      status := status[current := Dying];
      Reschedule();
    }

    /** thread_tick(), in interrupt context. */
    method ThreadTick()
      requires inExternalIntr
      modifies this`threadTicks, this`yieldOnReturn
      ensures threadTicks == old(threadTicks) + 1
      ensures yieldOnReturn == (old(yieldOnReturn) || threadTicks >= TIME_SLICE)
    {
      threadTicks := threadTicks + 1;
      if threadTicks >= TIME_SLICE {
        yieldOnReturn := true;
      }
    }

    /** intr_handler() for the timer interrupt. */
    method TimerInterrupt()
      requires Inv(View()) && !inExternalIntr
      modifies this
      ensures View() == Apply(old(View()), TimerTick) && Inv(View()) && !inExternalIntr
    {
      ApplyKeepsInv(View(), TimerTick);
      inExternalIntr := true;
      yieldOnReturn := false;
      ThreadTick();
      inExternalIntr := false;
      if yieldOnReturn {
        ThreadYield();
      }
    }
  }
}
