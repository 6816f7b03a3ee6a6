# Pintos kernel, modelled and proved in Dafny

This project models the kernel of the Pintos teaching operating system and
proves properties of it.  Run `dafny verify dfyconfig.toml` in this directory
to check everything.

Threads and synchronization come first.  `scheduler.dfy` is the round-robin
scheduler as a transition system, one action for each section that runs with
interrupts off; `thread.dfy` is the same code updating its state in place.
`synch.dfy` puts semaphores, locks and condition variables on top: a state
holds any number of threads and says where in `synch.c` each of them is, a
step is one section with interrupts off or one shared access between two, and
an invariant is proved to survive every step of every thread and every
interrupt.  `ownership.dfy` and `broadcast.dfy` draw mutual exclusion and the
end of broadcasts from it, and `primitives.dfy` ties the structures that are
updated in place to its steps.  `calls.dfy` says what each step does in terms
of the call made; `returns.dfy` follows a call to its return under any
interleaving, and `tallies.dfy` accounts for whole runs.

Storage is built in layers.  `bitmap.dfy` packs bits into words, `palloc.dfy`
hands out groups of pages recorded in such bitmaps, and `malloc.dfy` carves
blocks out of those pages; each layer is proved against the state the layer
below really has.  `pagedir.dfy` is the two-level page table.

The file system is modelled for the life of its files.  `filesys.dfy` follows
a run of create, open, remove, reopen and close calls, with every memory and
disk failure inside a call as a parameter; calls run one after another, as
the code has no locks of its own for them.  `handles.dfy` counts the openers of
every inode by the calls of a run and says exactly what each call answers;
`accounting.dfy` says exactly when sectors are lost; `inode.dfy` is the same code in place, on the bitmap;
`fileio.dfy` reads and writes the bytes of an extent.

From the library there are the 64-bit division (`arithmetic.dfy`), the linked
lists and their natural merge sort (`mergesort.dfy`, `list.dfy`,
`listops.dfy`), the hash table (`hash.dfy`), the heap sort and binary search
(`heapsort.dfy`), and the tar headers (`ustar.dfy`).  `common.dfy` holds small
shared definitions.

## Where the code does not do what its documentation says

The model follows the code.  Each point has a lemma that gives the exact
condition, or an instance, or both.

- `umod64()` and `smod64()` return 32 bits of a 64-bit remainder (Umod64Exact,
  Smod64Exact), and `sdiv64()` cannot represent INT64_MIN / -1 (Sdiv64Exact).
- `bitmap_scan_and_flip()` returns the start position, not 0, for a group of 0
  bits (EmptyGroup).
- The comment of malloc.c promises descriptors up to 2 kB; `malloc_init()`
  stops at 1 kB (LargestBlock).
- For the 11 largest sizes the page count in `malloc()` wraps around to one
  page (BigPagesEnough, BigPagesWrap); the contract of Malloc leaves these sizes out.
- The overflow test of `calloc()` lets wrong sizes through (CallocTest,
  CallocWraps, CallocCounts).
- A directory read that is cut short for lack of memory counts as the end of
  the directory, which the comment in `dir_add()` rules out: a name can be
  entered twice (AddKeepsUnique, DuplicateExample), and a used entry can be
  written over (AddBinds, OverwriteExample).
- `filesys_create()` gives back the inode sector but not the data sectors when
  `dir_add()` fails (CreateAccount, LeakExample).
- `ustar_make_header()` writes a header for a negative size that
  `ustar_parse_header()` refuses as too large (RoundTrip).
- `inode_write_at()` has a branch that fills the bounce buffer with zeros; no
  request reaches it, because a whole sector is written directly (WritePart).
- `lock_try_acquire()` is said to be fit for interrupt handlers, while the
  comment of `lock_release()` says that a handler cannot acquire a lock.  A
  handler that acquires one makes the interrupted thread its holder; if that
  thread is waiting on a condition of this lock, the assertion in its
  `lock_acquire()` will fail (TryAcquireInHandler).

## Model

| member | source | states |
|---|---|---|
| Scheduler.ApplyKeepsInv | Submissions/10627_10039_10446/pintos/code/threads/thread.c:221-323 | Every timer tick, yield, block, unblock, create and exit keeps: exactly one thread is RUNNING and it is the current one; the ready list is duplicate-free and holds exactly the READY threads except the idle thread; next_thread_to_run() always finds a thread; only the initial thread can stay DYING; fewer than four ticks have passed since the last switch. |
| Scheduler.ReachableInv | Submissions/10627_10039_10446/pintos/code/threads/thread.c:105-118 | The same holds in every state of every run from thread_start(). |
| Scheduler.RoundRobin | Submissions/10627_10039_10446/pintos/code/threads/thread.c:493-500 | A thread at index k of the ready list is switched to by exactly the (k+1)-th call of schedule(), whatever happens in between, and until then only moves forward. |
| Scheduler.TicksBetweenSchedules | Submissions/10627_10039_10446/pintos/code/threads/thread.c:122-140 | In any run there are at most four timer ticks per call of schedule(), plus those of the current slice. |
| Scheduler.RoundRobinTicks | Submissions/10627_10039_10446/pintos/code/threads/thread.c:122-140 | A thread at index k of the ready list runs after at most 4(k+1) delivered timer ticks. |
| Scheduler.FreedExactly | Submissions/10627_10039_10446/pintos/code/threads/thread.c:518-546 | The pages freed by thread_schedule_tail() in a run are those of the threads that exited in it, in that order, the initial thread excepted. |
| Scheduler.FreedOnceAndForAll | Submissions/10627_10039_10446/pintos/code/threads/thread.c:518-546 | From boot, no page of a thread is freed twice, and a freed thread is neither current nor queued nor known any more. |
| Scheduler.FullSlice | Submissions/10627_10039_10446/pintos/code/threads/thread.c:122-140 | A thread that just computes keeps the processor until the fourth tick after its last switch, whoever becomes ready meanwhile; that tick, on the return of the interrupt, hands it to the head of the ready list. |
| Threads.Cpu.NextThreadToRun | Submissions/10627_10039_10446/pintos/code/threads/thread.c:493-500 | Pops the head of the ready list, or gives the idle thread when it is empty; the other fields stay. |
| Threads.Cpu.Reschedule | Submissions/10627_10039_10446/pintos/code/threads/thread.c:555-569 | The in-place schedule() with thread_schedule_tail() takes the scheduler's Schedule step; its assertions hold. |
| Threads.Cpu.ThreadBlock | Submissions/10627_10039_10446/pintos/code/threads/thread.c:221-229 | In place, takes the scheduler's blocking action. |
| Threads.Cpu.ThreadUnblock | Submissions/10627_10039_10446/pintos/code/threads/thread.c:239-251 | In place, takes the scheduler's unblocking action: the thread joins the end of the ready list. |
| Threads.Cpu.ThreadYield | Submissions/10627_10039_10446/pintos/code/threads/thread.c:309-323 | In place, takes the scheduler's yielding action; the idle thread is not queued. |
| Threads.Cpu.ThreadExit | Submissions/10627_10039_10446/pintos/code/threads/thread.c:288-305 | In place, takes the scheduler's exit action. |
| Threads.Cpu.TimerInterrupt | Submissions/10627_10039_10446/pintos/code/threads/interrupt.c:344-389 | thread_tick() in interrupt context followed by the yield on return is the scheduler's timer tick; no yield happens inside the handler. |
| Synch.ApplyKeepsInv | Submissions/10627_10039_10446/pintos/code/threads/synch.c:60-338 | Any step of any thread inside the semaphore, lock, condition-variable, thread-creation or idle code, and any interrupt (timer; sema_up(), sema_try_down() or lock_try_acquire() from a handler), keeps the whole invariant, for any number of threads, semaphores, locks and condition variables. |
| Synch.SemaphoreAccount | Submissions/10627_10039_10446/pintos/code/threads/synch.c:60-121 | In every reachable state the value of a semaphore is its initial value plus the ups minus the downs, and while threads wait it is at most the number of popped threads that must recheck it. |
| Synch.NoLostWakeup | Submissions/10627_10039_10446/pintos/code/threads/synch.c:104-121 | While a semaphore is positive and threads wait on it, a thread that must recheck the value is running or in the ready list. |
| Synch.WaitersBlocked | Submissions/10627_10039_10446/pintos/code/threads/synch.c:60-76 | A thread on a wait list is BLOCKED, is not in the ready list, is there once, and is on no other wait list. |
| Ownership.MutualExclusion | Submissions/10627_10039_10446/pintos/code/threads/synch.c:184-236 | In every reachable state a lock is free or exactly one thread has made a decrement of its semaphore that it has not undone by an increment; a non-null holder is that thread; a null holder means that thread is on its way in or out. |
| Ownership.ApplyKeepsOwner | Submissions/10627_10039_10446/pintos/code/threads/synch.c:192-236 | Every step keeps: the threads with a decrement not undone are those whose position or whose name in the holder field claims the lock. |
| Synch.SignalOnce | Submissions/10627_10039_10446/pintos/code/threads/synch.c:287-322 | A waiter in the queue of a condition has its private semaphore at 0 and untouched; one that was popped and signalled has been upped exactly once, even if it has not yet reached sema_down(). |
| Synch.OneSignaller | Submissions/10627_10039_10446/pintos/code/threads/synch.c:304-322 | At most one thread at a time is signalling on a condition, and for one waiter. |
| Synch.SignalsFifo | Submissions/10627_10039_10446/pintos/code/threads/synch.c:311-322 | Waiters are signalled in the order in which they queued: those ever queued are those woken followed by those still queued.  That each signal wakes one is in Returns.SignalPops and Tallies.SignalsCounted. |
| Synch.BroadcastWakesAll | Submissions/10627_10039_10446/pintos/code/threads/synch.c:324-338 | When cond_broadcast() returns, everybody who had queued, and nobody who came after the call, has been signalled; a waiter that has not yet taken its signal finds its private semaphore at 1. |
| Broadcasts.BroadcastEnds | Submissions/10627_10039_10446/pintos/code/threads/synch.c:330-338 | Under any interleaving each pass of the loop of cond_broadcast() shortens the queue by one and nothing else changes the queue, so the loop makes at most as many passes as there were waiters, and exactly as many if it ends. |
| Synch.SignalAssertions | Submissions/10627_10039_10446/pintos/code/threads/synch.c:311-338 | Whenever cond_signal() runs, called by a program or by cond_broadcast(), the thread holds the lock, as the assertion demands. |
| Synch.TryAcquireInHandler | Submissions/10627_10039_10446/pintos/code/threads/synch.c:203-221 | An interrupt handler that gets a lock by lock_try_acquire() keeps the invariant if and only if it does not interrupt a thread that is waiting on a condition of that lock. |
| Synch.CondWaitAssertions | Submissions/10627_10039_10446/pintos/code/threads/synch.c:287-302 | Inside cond_wait() the thread holds the lock when it calls lock_release() and does not hold it when it calls lock_acquire(), as the assertions there demand; that it holds it again at its return is in Returns.WaitReturns. |
| Returns.WaitReturns | Submissions/10627_10039_10446/pintos/code/threads/synch.c:287-302 | Under any interleaving: when cond_wait() returns, its caller holds the lock, and the signal that let it through was its own: if n waiters came before this call, it is the one signalled after them. |
| Returns.ReturnsWithLock | Submissions/10627_10039_10446/pintos/code/threads/synch.c:192-302 | Whoever is inside lock_acquire(), or inside cond_wait() from its lock_release() on, holds the lock in the first later state in which it is back in its own code. |
| Returns.AcquireReturns | Submissions/10627_10039_10446/pintos/code/threads/synch.c:192-201 | When lock_acquire() returns its caller holds the lock. |
| Returns.TryAcquireReturns | Submissions/10627_10039_10446/pintos/code/threads/synch.c:209-221 | lock_try_acquire() on a lock whose semaphore is up returns with its caller the holder. |
| Returns.TryAcquireFails | Submissions/10627_10039_10446/pintos/code/threads/synch.c:209-221 | Otherwise it returns at once, holder, semaphore and scheduler unchanged. |
| Returns.ReleaseReturns | Submissions/10627_10039_10446/pintos/code/threads/synch.c:228-236 | In the state in which lock_release() returns the lock has no holder and its semaphore is 1. |
| Returns.SignalPops | Submissions/10627_10039_10446/pintos/code/threads/synch.c:311-322 | cond_signal() with a waiter takes the first one off the queue, records it as woken, and is about to up that one's semaphore. |
| Returns.SignalUps | Submissions/10627_10039_10446/pintos/code/threads/synch.c:311-322 | The signaller's next step, on its own or for cond_broadcast(), makes that semaphore 1, with one up and no down. |
| Returns.SignalReturns | Submissions/10627_10039_10446/pintos/code/threads/synch.c:311-322 | So when cond_signal() returns the thread that was first in the queue at the call has its semaphore at 1, whatever others did meanwhile. |
| Returns.BroadcastReturns | Submissions/10627_10039_10446/pintos/code/threads/synch.c:330-338 | When cond_broadcast() returns the queue is empty and those signalled are exactly those who had come to wait before the call. |
| Tallies.SemaphoreRun | Submissions/10627_10039_10446/pintos/code/threads/synch.c:60-121 | Over any run the value of a semaphore changes by the calls of sema_up() on it, by programs, handlers, lock_release() and idle(), less the passes of sema_down() and calls of sema_try_down() that found it positive. |
| Tallies.SinceInit | Submissions/10627_10039_10446/pintos/code/threads/synch.c:44-121 | From sema_init() on it is the initial value with that change. |
| Tallies.DownReturns | Submissions/10627_10039_10446/pintos/code/threads/synch.c:60-76 | sema_down() takes exactly one unit between its call and its return, however often its caller is woken and finds 0 again. |
| Tallies.SleepersFifo | Submissions/10627_10039_10446/pintos/code/threads/synch.c:60-121 | Sleepers are woken first come, first served: after a run the wait list is the old one followed by the threads that found 0, in order, less one from the front for each sema_up() that found a waiter. |
| Tallies.UpMakesReady | Submissions/10627_10039_10446/pintos/code/threads/synch.c:108-121 | sema_up() makes the first waiter the last of the ready list, and the caller goes on running. |
| Tallies.QueueFifo | Submissions/10627_10039_10446/pintos/code/threads/synch.c:287-338 | After a run the queue of a condition is the old one followed by the callers of cond_wait(), in order, less one from the front for each cond_signal(), called by a program or by cond_broadcast(), that found a waiter. |
| Tallies.SignalsCounted | Submissions/10627_10039_10446/pintos/code/threads/synch.c:311-338 | The waiters recorded as woken grow by exactly the number of those calls. |
| Tallies.RunsTheScheduler | Submissions/10627_10039_10446/pintos/code/threads/synch.c:60-338 | Every run of the transition system is, underneath, a run of the scheduler from the same state to the same state, so what is proved of the scheduler's runs holds here. |
| Tallies.ReadyMoves | Submissions/10627_10039_10446/pintos/code/threads/thread.c:493-500 | In particular a thread at index i of the ready list is i - c places from the front after c calls of schedule() made in any run of threads and interrupts. |
| Tallies.ThreadStartWaits | Submissions/10627_10039_10446/pintos/code/threads/thread.c:105-118 | In every run from boot in which thread_start() has returned from its sema_down(), idle() has set idle_thread. |
| SynchPrimitives.Semaphore.DownPass | Submissions/10627_10039_10446/pintos/code/threads/synch.c:60-76 | One pass of the loop in sema_down(), in place: takes the step of the transition system, and tells whether the semaphore was taken. |
| SynchPrimitives.Semaphore.TryDown | Submissions/10627_10039_10446/pintos/code/threads/synch.c:83-102 | In place: succeeds exactly if the value is positive, and then takes the same step as sema_down(). |
| SynchPrimitives.Semaphore.Up | Submissions/10627_10039_10446/pintos/code/threads/synch.c:108-121 | In place: the first waiter, if any, is unblocked and the value grows by one. |
| SynchPrimitives.Lock.AcquirePass | Submissions/10627_10039_10446/pintos/code/threads/synch.c:192-201 | One pass of the wait in lock_acquire(): the step on the semaphore of the lock. |
| SynchPrimitives.Lock.Release | Submissions/10627_10039_10446/pintos/code/threads/synch.c:228-236 | Clears the holder, then ups: the two steps of the transition system in this order. |
| Arithmetic.Divl | Submissions/10627_10039_10446/pintos/code/lib/arithmetic.c:25-37 | The 64-by-32-bit division; its precondition is that the instruction does not trap. |
| Arithmetic.Nlz | Submissions/10627_10039_10446/pintos/code/lib/arithmetic.c:41-73 | The number of leading zeros of every word other than 0. |
| Arithmetic.NlzUnique | Submissions/10627_10039_10446/pintos/code/lib/arithmetic.c:39-73 | That number is determined by the word. |
| Arithmetic.Udiv64 | Submissions/10627_10039_10446/pintos/code/lib/arithmetic.c:75-127 | The exact quotient for every dividend and every nonzero divisor; neither use of divl() can trap, and the wrapping correction step is right. |
| Arithmetic.Umod64 | Submissions/10627_10039_10446/pintos/code/lib/arithmetic.c:129-135 | The low 32 bits of the remainder: the function returns a uint32_t. |
| Arithmetic.Umod64Exact | Submissions/10627_10039_10446/pintos/code/lib/arithmetic.c:129-135 | That is the remainder for every dividend if and only if the divisor is at most 2^32. |
| Arithmetic.Sdiv64 | Submissions/10627_10039_10446/pintos/code/lib/arithmetic.c:137-146 | The quotient truncated toward zero, converted to 64 bits, for every dividend and nonzero divisor. |
| Arithmetic.Sdiv64Exact | Submissions/10627_10039_10446/pintos/code/lib/arithmetic.c:137-146 | The conversion of the truncated quotient to 64 bits loses something only for INT64_MIN divided by -1. |
| Arithmetic.TruncDivMeaning | Submissions/10627_10039_10446/pintos/code/lib/arithmetic.c:137-146 | The truncated quotient is the one whose remainder is smaller than the divisor and is 0 or has the sign of the dividend. |
| Arithmetic.Smod64 | Submissions/10627_10039_10446/pintos/code/lib/arithmetic.c:148-154 | The low 32 bits of the remainder, with sign, even where the quotient does not fit. |
| Arithmetic.Smod64Exact | Submissions/10627_10039_10446/pintos/code/lib/arithmetic.c:148-154 | That is the remainder for every dividend if and only if the divisor's absolute value is at most 2^31. |
| Lists.List.Sort | Submissions/10627_10039_10446/pintos/code/lib/kernel/list.c:401-440 | list_sort() in place, by splicing nodes: for every strict weak order the same nodes end up sorted, equivalent ones in the order they had, after at most n passes if the list has at most 2^n natural runs. |
| Lists.InplaceMerge | Submissions/10627_10039_10446/pintos/code/lib/kernel/list.c:374-399 | The relinked nodes of two adjacent ranges, with prev and next consistent and the rest of the list untouched, are those of the step-by-step merge. |
| Lists.MergeStepsMerge | Submissions/10627_10039_10446/pintos/code/lib/kernel/list.c:374-399 | That step-by-step merge is the merge of the two ranges, the first one winning ties. |
| Lists.ListSplice | Submissions/10627_10039_10446/pintos/code/lib/kernel/list.c:180-204 | A block of nodes moves in front of another node, of the same list or another one, with all links consistent; the assertions hold. |
| Lists.ListInsert | Submissions/10627_10039_10446/pintos/code/lib/kernel/list.c:165-178 | The node is linked in front of the given one; the assertion holds. |
| Lists.ListRemove | Submissions/10627_10039_10446/pintos/code/lib/kernel/list.c:248-255 | The node is unlinked and its successor returned. |
| Lists.FindEndOfRun | Submissions/10627_10039_10446/pintos/code/lib/kernel/list.c:352-372 | The end of the longest nondecreasing run. |
| MergeSort.PassHalvesRuns | Submissions/10627_10039_10446/pintos/code/lib/kernel/list.c:401-440 | One pass over r natural runs leaves at most (r + 1) / 2 and counts that many. |
| MergeSort.DueOn | Submissions/10627_10039_10446/pintos/code/lib/kernel/list.c:401-440 | A list of at most 2^n natural runs, for n at least 1, is done after at most n passes. |
| MergeSort.LastPassSorts | Submissions/10627_10039_10446/pintos/code/lib/kernel/list.c:401-440 | When a pass counts at most one run its result is sorted. |
| MergeSort.PassStable | Submissions/10627_10039_10446/pintos/code/lib/kernel/list.c:401-440 | A pass permutes the elements and keeps the order of equivalent ones. |
| ListOperations.Reverse | Submissions/10627_10039_10446/pintos/code/lib/kernel/list.c:324-337 | In place, the same nodes in reverse order. |
| ListOperations.InsertOrdered | Submissions/10627_10039_10446/pintos/code/lib/kernel/list.c:442-459 | In place, the element goes behind those that are not greater. |
| ListOperations.InsertedPlace | Submissions/10627_10039_10446/pintos/code/lib/kernel/list.c:442-459 | It goes in right before the first element that is greater, in any list, and the others keep their places. |
| ListOperations.InsertedSorted | Submissions/10627_10039_10446/pintos/code/lib/kernel/list.c:442-459 | So a sorted list stays sorted and gains just the one element. |
| ListOperations.RemoveDuplicates | Submissions/10627_10039_10446/pintos/code/lib/kernel/list.c:461-486 | In place: of each group of equal neighbours the first stays, the others go to the end of the second list in order, if one is given. |
| ListOperations.KeptAndDropped | Submissions/10627_10039_10446/pintos/code/lib/kernel/list.c:461-486 | No element is lost: each is kept or moved. |
| ListOperations.KeptNeighbours | Submissions/10627_10039_10446/pintos/code/lib/kernel/list.c:461-486 | No two neighbours that stay are equal. |
| ListOperations.UniqueCutsRuns | Submissions/10627_10039_10446/pintos/code/lib/kernel/list.c:461-486 | For every strict weak order, sorted or not: what stays is the first of each run of equals, what is moved are the elements that equal the one right in front of them, both in order. |
| ListOperations.KeptIncreases | Submissions/10627_10039_10446/pintos/code/lib/kernel/list.c:461-486 | Of a sorted list exactly one element of each class stays. |
| Bitmaps.Bitmap.Mark | Submissions/10627_10039_10446/pintos/code/lib/kernel/bitmap.c:156-167 | Sets that bit of the packed 32-bit words and no other. |
| Bitmaps.Bitmap.Reset | Submissions/10627_10039_10446/pintos/code/lib/kernel/bitmap.c:169-180 | Clears that bit and no other. |
| Bitmaps.Bitmap.SetMultiple | Submissions/10627_10039_10446/pintos/code/lib/kernel/bitmap.c:217-229 | Sets exactly the given range of bits. |
| Bitmaps.Bitmap.Contains | Submissions/10627_10039_10446/pintos/code/lib/kernel/bitmap.c:249-264 | Whether any bit of the range has the value. |
| Bitmaps.Bitmap.Scan | Submissions/10627_10039_10446/pintos/code/lib/kernel/bitmap.c:290-311 | The first group of that many bits of that value at or after the start. |
| Bitmaps.Bitmap.ScanAndFlip | Submissions/10627_10039_10446/pintos/code/lib/kernel/bitmap.c:313-327 | The same, and exactly those bits are flipped; nothing changes if there is no such group. |
| Bitmaps.FirstGroupIsLeast | Submissions/10627_10039_10446/pintos/code/lib/kernel/bitmap.c:290-311 | The group found is the least that qualifies, and none is found only if none qualifies. |
| Bitmaps.EmptyGroup | Submissions/10627_10039_10446/pintos/code/lib/kernel/bitmap.c:313-327 | A group of 0 bits is found at the start position, although the comment says 0 is returned. |
| PageAllocator.Pool.GetMultiple | Submissions/10627_10039_10446/pintos/code/threads/palloc.c:64-101 | The least free group of pages of the pool, or none exactly if the pool has none; the record of groups handed out stays exact. |
| PageAllocator.Pool.FreeMultiple | Submissions/10627_10039_10446/pintos/code/threads/palloc.c:116-142 | A group handed out becomes free again; the assertion that all its bits are set holds. |
| PageAllocator.Pools.GetMultiple | Submissions/10627_10039_10446/pintos/code/threads/palloc.c:64-101 | The flag selects the pool; 0 pages are refused; otherwise the least free group of that pool is given, or none exactly if it has none; the other pool is untouched. |
| PageAllocator.Pools.constructor | Submissions/10627_10039_10446/pintos/code/threads/palloc.c:45-62 | The user pool gets half of the pages, up to the limit, the kernel pool the rest, each less the pages of its bitmap; all pages are free. |
| PageAllocator.Pools.FreeMultiple | Submissions/10627_10039_10446/pintos/code/threads/palloc.c:116-142 | The address alone leads back to the pool the group came from. |
| PageAllocator.Pools.PoolsApart | Submissions/10627_10039_10446/pintos/code/threads/palloc.c:172-182 | No page belongs to both pools. |
| PageAllocator.AddressRoundTrip | Submissions/10627_10039_10446/pintos/code/threads/palloc.c:116-142 | The address of a page leads back to its index in the pool. |
| Malloc.Allocator.Malloc | Submissions/10627_10039_10446/pintos/code/threads/malloc.c:87-154 | On the page allocator above: the result is null, with nothing changed, exactly for size 0 or when neither the list for the size has a block nor the kernel pool the pages in a row; otherwise it is a new block of at least the size asked for; the free lists, arenas and free counts stay consistent, and no page group of other code is touched. |
| Malloc.Allocator.Free | Submissions/10627_10039_10446/pintos/code/threads/malloc.c:216-264 | Ends the life of that block alone; a wholly free arena goes back to the page allocator. |
| Malloc.Allocator.Realloc | Submissions/10627_10039_10446/pintos/code/threads/malloc.c:188-214 | Null and zero sizes as documented; on failure the old block stays; otherwise the bytes copied are at least those both sizes cover and at most the new size, none belongs to another live block, and only the old block dies.  For a positive size it is null exactly when malloc() of it would be. |
| Malloc.Allocator.Calloc | Submissions/10627_10039_10446/pintos/code/threads/malloc.c:156-175 | malloc() of the 32-bit product unless the product is smaller than a factor; the block has the bytes asked for exactly if their number fits in 32 bits.  It is null exactly if the test gives up, the product is 0, or malloc() of it fails. |
| Malloc.Allocator.AllReturned | Submissions/10627_10039_10446/pintos/code/threads/malloc.c:216-264 | When nothing is live, the allocator is as after malloc_init() and holds no page of the page allocator. |
| Malloc.AnyRun | Submissions/10627_10039_10446/pintos/code/threads/malloc.c:87-264 | In any run of malloc() and free() live blocks never overlap, no arena is without a live block, and freeing everything in any order ends in the initial state. |
| Malloc.LiveBlocksApart | Submissions/10627_10039_10446/pintos/code/threads/malloc.c:87-154 | No two live blocks overlap. |
| Malloc.ExtentsApart | Submissions/10627_10039_10446/pintos/code/threads/malloc.c:177-186 | Nor do they in the full size that block_size() reports. |
| Malloc.BlockInArena | Submissions/10627_10039_10446/pintos/code/threads/malloc.c:266-294 | block_to_arena() undoes arena_to_block(), and its alignment assertion holds. |
| Malloc.BlocksApart | Submissions/10627_10039_10446/pintos/code/threads/malloc.c:284-294 | Different blocks of an arena do not overlap. |
| Malloc.Drained | Submissions/10627_10039_10446/pintos/code/threads/malloc.c:216-264 | Without live blocks every list is empty and every arena has been given back. |
| Malloc.MallocFails | Submissions/10627_10039_10446/pintos/code/threads/malloc.c:87-154 | malloc() returns null exactly for size 0 or when it got no page. |
| Malloc.ServedExactly | Submissions/10627_10039_10446/pintos/code/threads/malloc.c:87-154 | Given what the page allocator answers, malloc() of a positive size fails exactly when no listed block and no free group of pages can serve it. |
| Malloc.FreedFirst | Submissions/10627_10039_10446/pintos/code/threads/malloc.c:146-243 | The block freed last, unless its arena was given back with it, is the next one handed out for its descriptor. |
| Malloc.BlocksFillArena | Submissions/10627_10039_10446/pintos/code/threads/malloc.c:71-85 | The blocks of an arena fit into its page behind the header, and one more would not. |
| Malloc.BigPagesLeast | Submissions/10627_10039_10446/pintos/code/threads/malloc.c:111-126 | For the sizes below, the page count is the least that is big enough, or wraps to 0 exactly for those within a page of 2^32. |
| Malloc.BigPagesEnough | Submissions/10627_10039_10446/pintos/code/threads/malloc.c:111-126 | The wrapping page count is 0 or large enough exactly if the size plus 12 does not exceed 2^32; for the 11 largest sizes one page is taken for 4 GB. |
| Malloc.BigPagesWrap | Submissions/10627_10039_10446/pintos/code/threads/malloc.c:111-126 | An instance: for 2^32 - 1 bytes one page is taken. |
| Malloc.LargestBlock | Submissions/10627_10039_10446/pintos/code/threads/malloc.c:71-85 | A request fits a descriptor exactly up to 1024 bytes; there is none for 2 kB. |
| Malloc.CallocTest | Submissions/10627_10039_10446/pintos/code/threads/malloc.c:156-175 | The overflow test gives up or passes the true product on, if and only if the product fits in 32 bits or its low 32 bits are smaller than a factor. |
| Malloc.CallocWraps | Submissions/10627_10039_10446/pintos/code/threads/malloc.c:156-175 | It does not always: 65537 times 65537 bytes are taken for 131073. |
| Malloc.CallocCounts | Submissions/10627_10039_10446/pintos/code/threads/malloc.c:156-175 | For a count the test is right for every element size if and only if the count is at most 2 or is 2^32 - 1. |
| Malloc.CallocExact | Submissions/10627_10039_10446/pintos/code/threads/malloc.c:156-175 | malloc() is asked for the true product exactly if it fits and is no smaller than either factor; a product of 0 and a positive number is refused. |
| FileSystems.StepKeepsInv | Submissions/10627_10039_10446/pintos/code/filesys/filesys.c:41-91 | Every create, open, remove, reopen and close, whatever memory or disk failure happens inside, keeps: existing inodes have their header on the disk and all their sectors marked used, share no sector, at most one in-memory inode per sector, and removed inodes have no name. |
| FileSystems.AnyRun | Submissions/10627_10039_10446/pintos/code/filesys/filesys.c:41-103 | In any run from a formatted disk: an inode that is open or named can be read back from the disk, all its sectors are marked used, and it shares none with another such inode. |
| FileSystems.OneInodePerSector | Submissions/10627_10039_10446/pintos/code/filesys/inode.c:108-142 | In any run from a formatted disk no sector has two in-memory inodes, and each has an opener. |
| FileSystems.FormatInv | Submissions/10627_10039_10446/pintos/code/filesys/filesys.c:93-103 | Formatting any old disk content establishes the invariant. |
| FileSystems.ReleaseInode | Submissions/10627_10039_10446/pintos/code/filesys/free-map.c:43-50 | The assertions of free_map_release() hold for the sectors of an existing inode, and releasing them touches no other inode. |
| FileSystems.ReleasedExactly | Submissions/10627_10039_10446/pintos/code/filesys/inode.c:160-186 | An inode ceases to exist exactly when its last opener closes it after it was removed, or when filesys_remove() finds its name while nobody has it open, memory for the directory and the inode is there, and the entry can be written.  Handles.ReleasedByHistory counts the openers by the calls of the run. |
| Handles.OpenersCounted | Submissions/10627_10039_10446/pintos/code/filesys/inode.c:108-186 | In any run from a formatted disk the inode of each sector has as many openers as filesys_open() and inode_reopen() handed out handles to it that were not closed since, the free map one more for the file system itself; it is open exactly while that number is positive, and marked for removal exactly if a filesys_remove() of it succeeded while it was. |
| Handles.ReleasedByHistory | Submissions/10627_10039_10446/pintos/code/filesys/inode.c:160-186 | In any such run an inode ceases to exist exactly in a close of its only handle after it was removed, or in a successful filesys_remove() while there is no handle to it. |
| Handles.OpenFileBinds | Submissions/10627_10039_10446/pintos/code/filesys/filesys.c:66-77 | With complete reads filesys_open() returns a file of the inode at s if and only if the name is bound to s, the root directory and the inode are open or there is memory for them, and there is memory for the two structs. |
| Handles.OpenGains | Submissions/10627_10039_10446/pintos/code/filesys/filesys.c:66-77 | Whatever the search read: the file opened is that of the entry found, its inode gains one opener and nothing else changes; it fails exactly if one of the guards fails, and then no inode has gained or lost an opener. |
| Handles.CreateSucceeds | Submissions/10627_10039_10446/pintos/code/filesys/filesys.c:45-59 | filesys_create() succeeds exactly if no guard fails: memory, room for the header and the data, the writes, a valid name that the search does not find, a free slot.  Then a zeroed file of that length exists under that name, in the first sectors that were free, and every other sector and entry is as before; if it fails the directory is as before. |
| Handles.RemoveMarksFile | Submissions/10627_10039_10446/pintos/code/filesys/filesys.c:83-91 | filesys_remove() erases the entry that it found exactly if it returns true, marks the inode if that is open, and changes no number of openers. |
| Handles.FormatSucceeds | Submissions/10627_10039_10446/pintos/code/filesys/filesys.c:93-103 | do_format() succeeds exactly on a device with room for the two marked sectors, the free map file and the root directory; they lie next to each other, and the directory has 16 free entries. |
| Accounting.StepFrees | Submissions/10627_10039_10446/pintos/code/filesys/free-map.c:43-50 | A call marks a used sector free exactly if the sector belonged to an inode that ceases to exist in that call. |
| Accounting.AccountedExactly | Submissions/10627_10039_10446/pintos/code/filesys/filesys.c:41-103 | After any run from a formatted disk the sectors marked used are exactly those of the inodes that have a name, or are removed but still open, or belong to the file system itself, if and only if no filesys_create() of the run leaked an extent or wrote over an entry in use. |
| Accounting.StepAccounted | Submissions/10627_10039_10446/pintos/code/filesys/filesys.c:41-91 | The same per call: everything is accounted for afterwards if and only if it was before and the call is not such a filesys_create(); what is lost stays lost. |
| Accounting.CreateAccount | Submissions/10627_10039_10446/pintos/code/filesys/filesys.c:45-59 | Data sectors are lost exactly when dir_add() fails after inode_create() took some; an existing file is lost exactly when dir_add() writes over its entry. |
| Accounting.LeakExample | Submissions/10627_10039_10446/pintos/code/filesys/filesys.c:45-59 | An instance: on any formatted disk of eight sectors, creating "a" and then "a" again with one byte loses a sector. |
| Accounting.OverwriteExample | Submissions/10627_10039_10446/pintos/code/filesys/directory.c:159-175 | An instance: creating "b" while the search for a free slot cannot read the first entry loses file "a". |
| Accounting.DuplicateExample | Submissions/10627_10039_10446/pintos/code/filesys/directory.c:155-175 | An instance: creating "a" again while the search cannot read the first entry makes a second entry "a". |
| FileSystems.AddKeepsUnique | Submissions/10627_10039_10446/pintos/code/filesys/directory.c:141-179 | dir_add() keeps the names in use unique if and only if it does not write an entry while an entry of that name lies beyond the reads of its search, in another slot than the one it writes. |
| FileSystems.StepKeepsUnique | Submissions/10627_10039_10446/pintos/code/filesys/directory.c:141-179 | Lifted to every call of the file system. |
| FileSystems.UniqueNames | Submissions/10627_10039_10446/pintos/code/filesys/directory.c:135-179 | In any run from a formatted disk in which no call does that, as when every search reads all 16 slots, the names in use are unique. |
| FileSystems.AddBinds | Submissions/10627_10039_10446/pintos/code/filesys/directory.c:135-179 | An addition binds the new name, destroys the binding of the entry it writes over if that was in use, and changes no other; with complete reads the name was not bound and no used entry is written over. |
| FileSystems.LookupBinds | Submissions/10627_10039_10446/pintos/code/filesys/directory.c:86-112 | A complete search finds a name exactly if it is bound, with its sector. |
| FileSystems.EraseUnbinds | Submissions/10627_10039_10446/pintos/code/filesys/directory.c:204-211 | Erasing an entry unbinds its name and no other. |
| Inodes.Files.OpenInode | Submissions/10627_10039_10446/pintos/code/filesys/inode.c:108-142 | In place: takes the opening step: an inode that is open is shared and counted, another is read from its sector and pushed to the front of the list. |
| Inodes.Files.CloseInode | Submissions/10627_10039_10446/pintos/code/filesys/inode.c:160-186 | In place: takes the closing step, with the assertions of free_map_release(). |
| Inodes.Files.CreateFile | Submissions/10627_10039_10446/pintos/code/filesys/filesys.c:45-59 | In place: takes the create step for every combination of failures. |
| Inodes.Files.OpenFile | Submissions/10627_10039_10446/pintos/code/filesys/filesys.c:66-77 | In place: takes the open step for every combination of failures. |
| Inodes.Files.RemoveFile | Submissions/10627_10039_10446/pintos/code/filesys/filesys.c:83-91 | In place: takes the remove step for every combination of failures. |
| FileIO.ReadAt | Submissions/10627_10039_10446/pintos/code/filesys/inode.c:197-250 | The buffer receives the bytes of the file from the offset on, clipped to its length, and keeps the rest of its own; without memory for the bounce buffer the transfer stops at the first partial sector. |
| FileIO.WriteAt | Submissions/10627_10039_10446/pintos/code/filesys/inode.c:252-318 | Exactly those bytes of the device become those of the buffer and no other; nothing is written while writes are denied. |
| FileIO.WritePart | Submissions/10627_10039_10446/pintos/code/filesys/inode.c:289-307 | A partial sector is read, changed and written back; the branch that starts from zeros is never taken. |
| FileIO.ReadBack | Submissions/10627_10039_10446/pintos/code/filesys/inode.c:197-318 | What inode_read_at() returns after inode_write_at() at the same offset is what was written, followed by what the file held before. |
| FileIO.WriteThenRead | Submissions/10627_10039_10446/pintos/code/filesys/inode.c:252-318 | After a write the file holds the buffer there and its old bytes elsewhere. |
| FileIO.OtherFileUntouched | Submissions/10627_10039_10446/pintos/code/filesys/inode.c:252-318 | A write leaves every file that shares no sector with this one as it was. |
| FileIO.TransferredAll | Submissions/10627_10039_10446/pintos/code/filesys/inode.c:211-237 | A transfer is complete if and only if there is memory, or nothing to transfer, or it consists of whole sectors. |
| HashTables.Hash.Insert | Submissions/10627_10039_10446/pintos/code/lib/kernel/hash.c:94-110 | Returns the equal element already there, which stays, or adds the new one; the bucket count follows the element count. |
| HashTables.Hash.Replace | Submissions/10627_10039_10446/pintos/code/lib/kernel/hash.c:112-127 | The new element is in, the equal one that was there is out and returned. |
| HashTables.Hash.Find | Submissions/10627_10039_10446/pintos/code/lib/kernel/hash.c:129-135 | The element equal to the key, or none exactly if there is none in any bucket. |
| HashTables.Hash.Delete | Submissions/10627_10039_10446/pintos/code/lib/kernel/hash.c:137-154 | The equal element is out and returned; nothing changes if there is none. |
| HashTables.Hash.Clear | Submissions/10627_10039_10446/pintos/code/lib/kernel/hash.c:44-74 | The table is empty and keeps its bucket count. |
| HashTables.Hash.Rehash | Submissions/10627_10039_10446/pintos/code/lib/kernel/hash.c:342-413 | The elements stay; with memory the bucket count becomes the ideal power of 2, otherwise nothing changes. |
| HashTables.IdealEnough | Submissions/10627_10039_10446/pintos/code/lib/kernel/hash.c:361-372 | The ideal count is the largest power of 2 that is at most half the number of elements, or 4 if that is less than 4; so it leaves fewer than 4 elements a bucket on average. |
| HashTables.RoundDown | Submissions/10627_10039_10446/pintos/code/lib/kernel/hash.c:328-372 | Turning off the lowest 1 bits ends at the highest power of 2 in the number. |
| HashTables.HashIterator.Next | Submissions/10627_10039_10446/pintos/code/lib/kernel/hash.c:210-235 | The next element in the order of the buckets, or none after the last. |
| HashTables.VisitAll | Submissions/10627_10039_10446/pintos/code/lib/kernel/hash.c:182-235 | The documented iteration idiom visits each element exactly once. |
| Ustar.MakeHeader | Submissions/10627_10039_10446/pintos/code/lib/ustar.c:75-118 | Succeeds exactly if the stripped name has at most 99 characters, and then fills the header completely. |
| Ustar.ParseHeader | Submissions/10627_10039_10446/pintos/code/lib/ustar.c:175-227 | In every case of a header the documented verdict, in the order of the checks. |
| Ustar.HeaderOwner | Submissions/10627_10039_10446/pintos/code/lib/ustar.c:99-112 | A header made has mode 0644, or 0755 for a directory, owner and group number 0, both names "root" and the fixed time. |
| Ustar.AcceptedExactly | Submissions/10627_10039_10446/pintos/code/lib/ustar.c:181-227 | A header is accepted exactly if it has the ustar magic and version 00, a checksum field that holds the sum of its bytes with that field filled with spaces, the type of a regular file below 2 GB or of a directory, no prefix, and a terminated name. |
| Ustar.ParsedFullName | Submissions/10627_10039_10446/pintos/code/lib/ustar.c:203-227 | The name that an accepted header yields is, stripped, the full name of the file by the ustar format, prefix included. |
| Ustar.RoundTrip | Submissions/10627_10039_10446/pintos/code/lib/ustar.c:75-227 | A header made for any name and any 32-bit size is read back to the stripped name, the type and the size (0 for a directory), except that a regular file of negative size is refused. |
| Ustar.ParsedNameSafe | Submissions/10627_10039_10446/pintos/code/lib/ustar.c:56-73 | No header, whoever made it, yields a name that is empty or that starts with a slash or with the component .., or a size above INT_MAX. |
| Ustar.DamageNoticed | Submissions/10627_10039_10446/pintos/code/lib/ustar.c:34-54 | Changing any one byte outside the checksum field of a good header is noticed. |
| Ustar.OctalRoundTrip | Submissions/10627_10039_10446/pintos/code/lib/ustar.c:120-162 | parse_octal_field() undoes the zero-padded octal output of printf(). |
| Ustar.FormatOctal | Submissions/10627_10039_10446/pintos/code/lib/stdio.c:469-547 | The octal digits with leading zeros up to the width. |
| Ustar.ParseField | Submissions/10627_10039_10446/pintos/code/lib/ustar.c:120-162 | The value of the field, which fits 32 bits, or failure for any other field. |
| Ustar.StripDropsUnits | Submissions/10627_10039_10446/pintos/code/lib/ustar.c:56-73 | Stripping takes off exactly the sequence of "/", "./" and "../" in front; what is left is the name, or "." for nothing and for "..". |
| Ustar.StripSafe | Submissions/10627_10039_10446/pintos/code/lib/ustar.c:56-73 | Stripping yields a safe name and leaves exactly the safe names as they are. |
| HeapSort.Sort | Submissions/10627_10039_10446/pintos/code/lib/stdlib.c:125-152 | In place, a sorted rearrangement, for every length and every comparison function that is a total preorder. |
| HeapSort.Heapify | Submissions/10627_10039_10446/pintos/code/lib/stdlib.c:93-123 | Restores the heap order from that position on and rearranges only the positions of the heap. |
| HeapSort.BinarySearch | Submissions/10627_10039_10446/pintos/code/lib/stdlib.c:172-207 | A matching position, or none exactly if no element matches. |
| PageTables.Memory.SetPage | Submissions/10627_10039_10446/pintos/code/userprog/pagedir.c:88-119 | The map gains that page, writable as asked and for use by programs, and changes for no other, kernel entries included; false with nothing changed exactly if a page table is missing and there is no memory. |
| PageTables.UserAccess | Submissions/10627_10039_10446/pintos/code/threads/pte.h:71-98 | The two-level walk of the processor, with the present, user and write bits of both levels, lets a program read exactly the mapped pages meant for programs and write exactly those mapped writable. |
| PageTables.Memory.GetPage | Submissions/10627_10039_10446/pintos/code/userprog/pagedir.c:121-137 | The frame the map gives for the page, plus the offset in the page, or null exactly if it is not mapped. |
| PageTables.Memory.ClearPage | Submissions/10627_10039_10446/pintos/code/userprog/pagedir.c:139-157 | The page is unmapped, mapped or not before, and no other page changes. |
| PageTables.Memory.Create | Submissions/10627_10039_10446/pintos/code/userprog/pagedir.c:14-23 | No user page is mapped and the kernel's entries are those of the initial directory. |
| PageTables.Memory.Destroy | Submissions/10627_10039_10446/pintos/code/userprog/pagedir.c:25-48 | The sequence of pages freed by the two loops. |
| PageTables.DestroyFreesOnce | Submissions/10627_10039_10446/pintos/code/userprog/pagedir.c:25-48 | If no frame is mapped twice, each mapped frame, each user page table and the directory is freed exactly once, and nothing else. |
| PageTables.KernelTablesKept | Submissions/10627_10039_10446/pintos/code/userprog/pagedir.c:25-48 | The page tables of the kernel are not freed. |
| PageTables.OtherPages | Submissions/10627_10039_10446/pintos/code/userprog/pagedir.c:55-157 | Changing one page's mapping leaves that of every other user page as it was. |
| PageTables.IndexesIdentify | Submissions/10627_10039_10446/pintos/code/threads/pte.h:32-39 | The two indexes of an address identify its page. |
| PageTables.PdeRoundTrip | Submissions/10627_10039_10446/pintos/code/threads/pte.h:71-104 | The address and the flag bits of an entry do not disturb each other. |

## Left out

- Synch.ApplyKeepsInv: leaves out a handler that acquires the lock of a condition on which the interrupted thread is waiting, because then the invariant fails.
- Calls of the file system that interleave: the code does not synchronize them, and each call is one step here.
- User programs (USERPROG): system calls, process loading, the exception handlers; only the page directory is modelled.
- The list of all threads, tick statistics, thread names and priorities, which the scheduler never reads.
- Panics: a failed assertion is an unmet precondition or is proved not to happen.
- Thread identifiers are never reused; that a freed page may become another thread's is not modelled.
- A thread may exit while it holds a lock, as the code allows; the lock then stays held.
- The semaphore inside a lock is used through the lock's functions only, and a condition always with one lock.
- Callers that already run with interrupts off around a primitive, and nested external interrupts.
- Giving back only a part of a group of pages, which palloc_free_multiple() would accept.
- Malloc.Allocator.Malloc: leaves out the 11 sizes whose page count wraps around to one page, for which the block is too small.
- Malloc.Allocator.Calloc: leaves out the products whose low 32 bits are one of those 11 sizes.
- Memory contents: what realloc() copies is a number of bytes, and that calloc() clears them is not modelled.
- PageTables.DestroyFreesOnce: assumes that no frame is mapped twice, because the code frees a frame once for every mapping.
- File contents in the runs of create, open, remove, reopen and close; fileio.dfy treats the bytes of one extent at a time.
- The copy of the free map in its file: whether it can be written is a parameter, its bytes are not modelled.
- Directory entries as bytes: an entry is read or written as a whole.
- Overflow of off_t in offsets near 2^31.
- do_swap() exchanges elements as wholes, not byte by byte.
- Accessed and dirty bits, the translation lookaside buffer and the active page directory.
- Destructors and the action of hash_apply(); the hash functions themselves, which are a parameter.
- list_max(), list_min(), list_size() and bitmap_count(), which would only add easy members.
- Device drivers, the console, the loader, printf() other than %o, and the string functions.
