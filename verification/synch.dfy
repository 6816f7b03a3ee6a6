/**
 Semaphores, locks and condition variables of threads/synch.c on top of the
 scheduler, as a transition system over any number of threads, semaphores,
 locks and condition variables.

 One step is one section that runs with interrupts off, or one shared-memory
 access between two such sections.  `pc` says where inside a synch.c primitive
 each thread is; a thread outside of them is at User and may call any of them.
 */
module Synch {
  import opened Common
  import S = Scheduler

  type Tid = S.Tid
  type LockId = nat
  type CondId = nat

  /** A semaphore of its own, the one inside a lock, or the private one that
      cond_wait() keeps on the waiting thread's stack. */
  datatype SemaId = Plain(id: nat) | OfLock(lock: LockId) | OfWaiter(thread: Tid, cond: CondId)

  /** `init`, `ups` and `downs` record the initial value and the completed
      operations; the source keeps `value` and `waiters` only. */
  datatype Sema = Sema(value: nat, waiters: seq<Tid>, init: nat, ups: nat, downs: nat)

  /** Where a thread is in its code. */
  datatype Pc =
    | User
    | Down(sema: SemaId)                        // in the loop of sema_down()
    | TakeHolder(lock: LockId)                  // lock acquired, holder not yet set
    | GiveUp(lock: LockId, wait: Option<CondId>) // lock_release(): holder cleared, sema_up() to come
    | CondRelease(cond: CondId)                 // cond_wait(): queued, lock_release() to come
    | CondSleep(cond: CondId)                   // cond_wait(): lock released, sema_down() to come
    | CondWake(cond: CondId)                    // cond_wait(): signalled, lock_acquire() to come
    | SignalUp(waiter: Tid, cond: CondId, goal: Option<nat>) // cond_signal(): waiter popped, sema_up() to come
    | Broadcast(cond: CondId, target: nat)       // at the loop test of cond_broadcast()
    | Nascent                                   // thread_create(): not yet unblocked
    | Creating(child: Tid)                      // thread_create(): thread_unblock() to come
    | IdleStart | IdleUp | IdleLoop             // the three stages of idle()

  /** `enqueued` and `woken` record who joined and left each queue, `owner` the
      threads that decremented a lock's semaphore and have not incremented it
      since; the source keeps none of the three. */
  datatype State = State(
    sched: S.State,
    semas: map<SemaId, Sema>,
    holder: map<LockId, Option<Tid>>,
    lockOf: map<CondId, LockId>,
    queue: map<CondId, seq<Tid>>,
    pc: map<Tid, Pc>,
    enqueued: map<CondId, seq<Tid>>,
    woken: map<CondId, seq<Tid>>,
    owner: map<LockId, set<Tid>>)
  {
    function Cur(): Tid { sched.current }
  }

  // ---------------------------------------------------------------------
  // The invariant
  // ---------------------------------------------------------------------

  predicate Runnable(k: State, t: Tid) {
    S.IsRunnable(k.sched, t)
  }

  predicate IsBlocked(k: State, t: Tid) {
    S.IsBlocked(k.sched, t)
  }

  /** A thread is BLOCKED exactly while it sits on the wait list of the semaphore
      it is downing (or is not yet started, or is the idle thread). */
  ghost predicate PcOkAt(k: State, t: Tid)
    requires t in k.pc
  {
    && (t == k.sched.idler <==> k.pc[t].IdleStart? || k.pc[t].IdleUp? || k.pc[t].IdleLoop?)
    && match k.pc[t]
       case User => t in k.sched.status && !IsBlocked(k, t)
       case Down(s) =>
         && s in k.semas && (t in k.semas[s].waiters <==> IsBlocked(k, t))
         && (t !in k.semas[s].waiters <==> Runnable(k, t))
         && (s.OfLock? ==> s.lock in k.holder)
         && (s.OfWaiter? ==> s.thread == t && s.cond in k.lockOf)
       case TakeHolder(l) => Runnable(k, t) && l in k.holder
       case GiveUp(l, w) =>
         Runnable(k, t) && l in k.holder && (w.Some? ==> w.value in k.lockOf && k.lockOf[w.value] == l)
       case CondRelease(c) => Runnable(k, t) && c in k.lockOf
       case CondSleep(c) => Runnable(k, t) && c in k.lockOf && OfWaiter(t, c) in k.semas
       case CondWake(c) => Runnable(k, t) && c in k.lockOf && OfWaiter(t, c) in k.semas
       case SignalUp(w, c, g) => Runnable(k, t) && c in k.lockOf && OfWaiter(w, c) in k.semas
       case Broadcast(c, g) => Runnable(k, t) && c in k.lockOf
       case Nascent => IsBlocked(k, t)
       case Creating(u) => Runnable(k, t) && u in k.pc && k.pc[u] == Nascent
       case IdleStart => Runnable(k, t) && k.sched.idleThread == None
       case IdleUp => Runnable(k, t) && k.sched.idleThread == Some(t)
       case IdleLoop => (Runnable(k, t) || IsBlocked(k, t)) && k.sched.idleThread == Some(t)
  }

  /** Every object that can be reached exists. */
  ghost predicate Wired(k: State) {
    && k.pc.Keys == k.sched.status.Keys
    && Plain(0) in k.semas
    && (forall l :: l in k.holder ==> OfLock(l) in k.semas)
    && (forall c :: c in k.lockOf ==> k.lockOf[c] in k.holder)
    && k.queue.Keys == k.lockOf.Keys == k.enqueued.Keys == k.woken.Keys
  }

  ghost predicate PcInv(k: State) {
    && Wired(k)
    && (forall t :: t in k.pc ==> PcOkAt(k, t))
    && forall t, u :: t in k.pc && u in k.pc && k.pc[t].Creating? && k.pc[t] == k.pc[u] ==> t == u
  }

  /** Threads that sema_up() popped off the wait list of s and that have not yet
      rechecked its value. */
  ghost function Popped(k: State, s: SemaId): set<Tid>
    requires s in k.semas
  {
    set t | t in k.pc && k.pc[t] == Down(s) && t !in k.semas[s].waiters
  }

  ghost predicate SemaOk(k: State, s: SemaId)
    requires s in k.semas
  {
    var m := k.semas[s];
    && m.value + m.downs == m.init + m.ups
    && NoDup(m.waiters)
    && (forall t :: t in m.waiters ==> t in k.pc && k.pc[t] == Down(s))
    && (m.waiters != [] ==> m.value <= |Popped(k, s)|)
  }

  ghost predicate SemaInv(k: State) {
    forall s :: s in k.semas ==> SemaOk(k, s)
  }

  /** Threads that own lock l without being recorded as its holder: between the
      decrement and `holder = current`, or between `holder = NULL` and the
      increment. */
  ghost function Between(k: State, l: LockId): set<Tid> {
    set t | t in k.pc && (k.pc[t] == TakeHolder(l) || (k.pc[t].GiveUp? && k.pc[t].lock == l))
  }

  ghost predicate LockOk(k: State, l: LockId)
    requires l in k.holder && OfLock(l) in k.semas
  {
    k.semas[OfLock(l)].value + |Between(k, l)| + (if k.holder[l].Some? then 1 else 0) == 1
  }

  ghost predicate LockInv(k: State)
    requires Wired(k)
  {
    forall l :: l in k.holder ==> LockOk(k, l)
  }

  function HolderFor(k: State, c: CondId): Option<Tid> {
    if c in k.lockOf && k.lockOf[c] in k.holder then k.holder[k.lockOf[c]] else None
  }

  /** Queueing and signalling happen under the lock; sleeping does not. */
  ghost predicate HoldOk(k: State, t: Tid)
    requires t in k.pc
  {
    match k.pc[t]
    case CondRelease(c) => HolderFor(k, c) == Some(t)
    case SignalUp(_, c, _) => HolderFor(k, c) == Some(t)
    case Broadcast(c, _) => HolderFor(k, c) == Some(t)
    case CondSleep(c) => HolderFor(k, c) != Some(t)
    case CondWake(c) => HolderFor(k, c) != Some(t)
    case Down(s) => s.OfWaiter? ==> HolderFor(k, s.cond) != Some(t)
    case _ => true
  }

  ghost predicate HoldInv(k: State) {
    forall t :: t in k.pc ==> HoldOk(k, t)
  }

  /** Thread w is inside cond_wait(c) and has not yet taken its signal. */
  predicate InWait(k: State, w: Tid, c: CondId) {
    w in k.pc &&
    (k.pc[w] == CondRelease(c) || (k.pc[w].GiveUp? && k.pc[w].wait == Some(c)) || k.pc[w] == CondSleep(c)
     || k.pc[w] == Down(OfWaiter(w, c)))
  }

  predicate Queued(k: State, w: Tid, c: CondId) {
    c in k.queue && w in k.queue[c]
  }

  predicate SignalsTo(k: State, t: Tid, w: Tid, c: CondId) {
    t in k.pc && k.pc[t].SignalUp? && k.pc[t].waiter == w && k.pc[t].cond == c
  }

  /** Popped by cond_signal(), whose sema_up() is still to come. */
  ghost predicate BeingSignalled(k: State, w: Tid, c: CondId) {
    exists t :: SignalsTo(k, t, w, c)
  }

  predicate At(k: State, t: Tid, p: Pc) {
    t in k.pc && k.pc[t] == p
  }

  /** The private semaphore of w for c exists and has seen so many ups and downs. */
  predicate Private(k: State, w: Tid, c: CondId, ups: nat, downs: nat) {
    && OfWaiter(w, c) in k.semas
    && var m := k.semas[OfWaiter(w, c)];
       m.init == 0 && m.ups == ups && m.downs == downs && m.value == ups - downs
  }

  /** A waiter is queued, or being signalled, or has been signalled exactly once;
      only in the last case is its private semaphore up. */
  ghost predicate WaiterOk(k: State, w: Tid, c: CondId) {
    && (Queued(k, w, c) ==> InWait(k, w, c) && !BeingSignalled(k, w, c) && Private(k, w, c, 0, 0))
    && (BeingSignalled(k, w, c) ==> InWait(k, w, c) && Private(k, w, c, 0, 0))
    && (InWait(k, w, c) && !Queued(k, w, c) && !BeingSignalled(k, w, c) ==> Private(k, w, c, 1, 0))
    && (At(k, w, CondWake(c)) ==> Private(k, w, c, 1, 1))
  }

  /** Waiters leave the queue in the order in which they joined it. */
  ghost predicate QueueOk(k: State, c: CondId) {
    && c in k.queue && c in k.enqueued && c in k.woken
    && NoDup(k.queue[c])
    && k.enqueued[c] == k.woken[c] + k.queue[c]
  }

  /** While a broadcast is under way nobody joins the queue. */
  ghost predicate BroadcastOk(k: State, t: Tid) {
    && (t in k.pc && k.pc[t].Broadcast? ==>
          k.pc[t].cond in k.enqueued && |k.enqueued[k.pc[t].cond]| == k.pc[t].target)
    && (t in k.pc && k.pc[t].SignalUp? && k.pc[t].goal.Some? ==>
          k.pc[t].cond in k.enqueued && |k.enqueued[k.pc[t].cond]| == k.pc[t].goal.value)
  }

  ghost predicate CondInv(k: State) {
    && (forall w, c :: WaiterOk(k, w, c))
    && (forall c :: c in k.queue ==> QueueOk(k, c))
    && (forall t :: BroadcastOk(k, t))
  }

  ghost predicate Inv(k: State) {
    S.Inv(k.sched) && PcInv(k) && SemaInv(k) && LockInv(k) && HoldInv(k) && CondInv(k)
  }

  // ---------------------------------------------------------------------
  // The atomic sections
  // ---------------------------------------------------------------------

  /** Where sema_down() on s returns to. */
  function AfterDown(s: SemaId): Pc {
    match s
    case Plain(_) => User
    case OfLock(l) => TakeHolder(l)
    case OfWaiter(_, c) => CondWake(c)
  }

  function Join(k: State, s: SemaId, sched: S.State): State
    requires s in k.semas
  {
    var m := k.semas[s];
    k.(semas := k.semas[s := m.(waiters := m.waiters + [k.Cur()])],
       pc := k.pc[k.Cur() := Down(s)],
       sched := sched)
  }

  /** Thread t decremented semaphore s. */
  function Gains(owner: map<LockId, set<Tid>>, s: SemaId, t: Tid): map<LockId, set<Tid>> {
    if s.OfLock? && s.lock in owner then owner[s.lock := owner[s.lock] + {t}] else owner
  }

  /** Thread t incremented semaphore s. */
  function Loses(owner: map<LockId, set<Tid>>, s: SemaId, t: Tid): map<LockId, set<Tid>> {
    if s.OfLock? && s.lock in owner then owner[s.lock := owner[s.lock] - {t}] else owner
  }

  function TakeUnit(k: State, s: SemaId): State
    requires s in k.semas && k.semas[s].value > 0
  {
    var m := k.semas[s];
    k.(semas := k.semas[s := m.(value := m.value - 1, downs := m.downs + 1)],
       pc := k.pc[k.Cur() := AfterDown(s)],
       owner := Gains(k.owner, s, k.Cur()))
  }

  /** sema_try_down() in an interrupt handler: no thread moves. */
  function Consume(k: State, id: nat): State
    requires Plain(id) in k.semas && k.semas[Plain(id)].value > 0
  {
    var m := k.semas[Plain(id)];
    k.(semas := k.semas[Plain(id) := m.(value := m.value - 1, downs := m.downs + 1)])
  }

  /** lock_try_acquire() in an interrupt handler makes the interrupted thread the holder. */
  function Seize(k: State, l: LockId): State
    requires OfLock(l) in k.semas && k.semas[OfLock(l)].value > 0
  {
    var m := k.semas[OfLock(l)];
    k.(semas := k.semas[OfLock(l) := m.(value := m.value - 1, downs := m.downs + 1)],
       holder := k.holder[l := Some(k.Cur())],
       owner := Gains(k.owner, OfLock(l), k.Cur()))
  }

  /** Where cond_signal() returns to: its caller, or the loop of a broadcast. */
  function AfterSignal(c: CondId, g: Option<nat>): Pc {
    if g.Some? then Broadcast(c, g.value) else User
  }

  /** One pass of the loop in sema_down(): take the semaphore, or join its wait
      list and block. */
  function SemaDown(k: State, s: SemaId): State
    requires s in k.semas
    requires k.semas[s].value == 0 ==> S.HasNext(S.SetCurrent(k.sched, S.Blocked))
  {
    if k.semas[s].value == 0 then Join(k, s, S.Block(k.sched)) else TakeUnit(k, s)
  }

  /** sema_up(), after which the current thread is at p. */
  function SemaUp(k: State, s: SemaId, p: Pc): State
    requires s in k.semas
  {
    var m := k.semas[s];
    k.(semas := k.semas[s := m.(waiters := if m.waiters == [] then [] else m.waiters[1..],
                                value := m.value + 1, ups := m.ups + 1)],
       pc := k.pc[k.Cur() := p],
       owner := Loses(k.owner, s, k.Cur()),
       sched := if m.waiters == [] then k.sched else S.Unblock(k.sched, m.waiters[0]))
  }

  function Goto(k: State, p: Pc): State {
    k.(pc := k.pc[k.Cur() := p])
  }

  function SetHolder(k: State, l: LockId, h: Option<Tid>, p: Pc): State {
    Goto(k.(holder := k.holder[l := h]), p)
  }

  /** cond_wait(): initialise the private semaphore and queue it. */
  function Enqueue(k: State, c: CondId): State
    requires c in k.queue && c in k.enqueued
  {
    Goto(k.(semas := k.semas[OfWaiter(k.Cur(), c) := Sema(0, [], 0, 0, 0)],
            queue := k.queue[c := k.queue[c] + [k.Cur()]],
            enqueued := k.enqueued[c := k.enqueued[c] + [k.Cur()]]),
         CondRelease(c))
  }

  /** cond_signal(): pop the first waiter, if any; otherwise return to p. */
  function PopWaiter(k: State, c: CondId, goal: Option<nat>, p: Pc): State
    requires c in k.queue && c in k.woken
  {
    if k.queue[c] == [] then Goto(k, p) else
    var w := k.queue[c][0];
    Goto(k.(queue := k.queue[c := k.queue[c][1..]],
            woken := k.woken[c := k.woken[c] + [w]]),
         SignalUp(w, c, goal))
  }

  /** thread_unblock() of the new thread: from outside it is a move of the child
      and of its creator. */
  function StartChild(k: State, u: Tid): State {
    Goto(k.(sched := S.Unblock(k.sched, u), pc := k.pc[u := User]), User)
  }

  function NewChild(k: State, u: Tid): State {
    Goto(k.(sched := S.Create(k.sched, u), pc := k.pc[u := Nascent]), Creating(u))
  }

  function Gone(k: State, sched: S.State): State {
    k.(sched := sched, pc := if k.Cur() == k.sched.initial then k.pc else k.pc - {k.Cur()})
  }

  /** idle(): idle_thread = thread_current (). */
  function Registered(k: State): State {
    Goto(k.(sched := k.sched.(idleThread := Some(k.Cur()))), IdleUp)
  }

  /** sema_init() */
  function AddSema(k: State, s: SemaId, v: nat): State {
    k.(semas := k.semas[s := Sema(v, [], v, 0, 0)])
  }

  /** lock_init() */
  function AddLock(k: State, l: LockId): State {
    k.(semas := k.semas[OfLock(l) := Sema(1, [], 1, 0, 0)], holder := k.holder[l := None], owner := k.owner[l := {}])
  }

  /** cond_init(), for use with lock l */
  function AddCond(k: State, c: CondId, l: LockId): State {
    k.(lockOf := k.lockOf[c := l], queue := k.queue[c := []],
       enqueued := k.enqueued[c := []], woken := k.woken[c := []])
  }

  // ---------------------------------------------------------------------
  // Steps
  // ---------------------------------------------------------------------

  /** Calls that a thread outside of all primitives can make. */
  datatype Call =
    | Yield
    | Exit
    | Create(t: Tid)
    | NewSema(id: nat, value: nat)
    | NewLock(l: LockId)
    | NewCond(c: CondId, l: LockId)
    | DownCall(id: nat)
    | TryDown(id: nat)
    | UpCall(id: nat)
    | Acquire(l: LockId)
    | TryAcquire(l: LockId)
    | Release(l: LockId)
    | Wait(c: CondId)
    | Signal(c: CondId)
    | BroadcastCall(c: CondId)

  datatype Step =
    | TimerTick          // a timer interrupt
    | IntrUp(id: nat)    // an interrupt handler calls sema_up()
    | IntrTryDown(id: nat) // an interrupt handler calls sema_try_down()
    | IntrTryAcquire(l: LockId) // an interrupt handler calls lock_try_acquire()
    | Go                 // the current thread goes on inside a primitive
    | Do(call: Call)     // the current thread calls a primitive

  ghost predicate Holds(k: State, l: LockId) {
    l in k.holder && k.holder[l] == Some(k.Cur())
  }

  ghost predicate HoldsFor(k: State, c: CondId) {
    c in k.lockOf && Holds(k, k.lockOf[c])
  }

  /** The source's assertions and documented demands: fresh objects, initialised
      objects, and the lock held where it must be. */
  ghost predicate Callable(k: State, call: Call) {
    match call
    case Yield => true
    case Exit => true
    case Create(u) => u !in k.pc && u !in k.sched.freed && u != k.sched.initial
    case NewSema(id, _) => Plain(id) !in k.semas
    case NewLock(l) => l !in k.holder
    case NewCond(c, l) => c !in k.lockOf && l in k.holder
    case DownCall(id) => Plain(id) in k.semas
    case TryDown(id) => Plain(id) in k.semas
    case UpCall(id) => Plain(id) in k.semas
    case Acquire(l) => l in k.holder && !Holds(k, l)
    case TryAcquire(l) => l in k.holder && !Holds(k, l)
    case Release(l) => Holds(k, l)
    case Wait(c) => HoldsFor(k, c)
    case Signal(c) => HoldsFor(k, c)
    case BroadcastCall(c) => HoldsFor(k, c)
  }

  /** The current thread is in cond_wait(), past the release of lock l: the lock_acquire()
      to come demands that it does not hold l. */
  predicate WillReacquire(k: State, l: LockId) {
    && k.Cur() in k.pc && (k.pc[k.Cur()].CondSleep? || k.pc[k.Cur()].CondWake?)
    && k.pc[k.Cur()].cond in k.lockOf && k.lockOf[k.pc[k.Cur()].cond] == l
  }

  ghost predicate Enabled(k: State, st: Step)
    requires k.Cur() in k.pc
  {
    match st
    // a thread that schedule() resumed inside sema_down() still has interrupts off
    case TimerTick => !k.pc[k.Cur()].Down?
    case IntrUp(id) => !k.pc[k.Cur()].Down? && Plain(id) in k.semas
    case IntrTryDown(id) => !k.pc[k.Cur()].Down? && Plain(id) in k.semas
    case IntrTryAcquire(l) => !k.pc[k.Cur()].Down? && l in k.holder && !Holds(k, l) && !WillReacquire(k, l)
    case Go => k.pc[k.Cur()] != User
    case Do(call) => k.pc[k.Cur()] == User && Callable(k, call)
  }

  /** schedule() finds a thread to switch to. */
  lemma FindsNext(k: State)
    requires S.Inv(k.sched) && S.Enabled(k.sched, S.DoBlock)
    ensures S.HasNext(S.SetCurrent(k.sched, S.Blocked))
  {
    hide S.Inv;
    CanBlock(k);
  }

  lemma CanBlock(k: State)
    requires S.Inv(k.sched) && S.Enabled(k.sched, S.DoBlock)
    ensures S.HasNext(S.SetCurrent(k.sched, S.Blocked)) && S.Inv(S.Block(k.sched))
  {
    S.ScheduleKeepsInv(S.SetCurrent(k.sched, S.Blocked));
  }

  /** The current thread's next section inside the primitive it is executing. */
  ghost function Continue(k: State): State
    requires S.Inv(k.sched) && Wired(k) && k.Cur() in k.pc && PcOkAt(k, k.Cur()) && k.pc[k.Cur()] != User
  {
    var t := k.Cur();
    match k.pc[t]
    case Down(s) => FindsNext(k); SemaDown(k, s)
    case TakeHolder(l) => SetHolder(k, l, Some(t), User)
    case GiveUp(l, w) => SemaUp(k, OfLock(l), if w.Some? then CondSleep(w.value) else User)
    case CondRelease(c) => SetHolder(k, k.lockOf[c], None, GiveUp(k.lockOf[c], Some(c)))
    case CondSleep(c) => FindsNext(k); SemaDown(k, OfWaiter(t, c))
    case CondWake(c) => FindsNext(k); SemaDown(k, OfLock(k.lockOf[c]))
    case SignalUp(w, c, g) => SemaUp(k, OfWaiter(w, c), AfterSignal(c, g))
    case Broadcast(c, g) => PopWaiter(k, c, Some(g), User)
    case Nascent => k
    case Creating(u) => StartChild(k, u)
    case IdleStart => Registered(k)
    case IdleUp => SemaUp(k, Plain(0), IdleLoop)
    case IdleLoop => k.(sched := S.Apply(k.sched, S.DoBlock))
  }

  ghost function Perform(k: State, call: Call): State
    requires S.Inv(k.sched) && Wired(k) && k.Cur() != k.sched.idler && Callable(k, call)
  {
    var t := k.Cur();
    FindsNext(k);
    match call
    case Yield => k.(sched := S.Apply(k.sched, S.DoYield))
    case Exit => Gone(k, S.Apply(k.sched, S.DoExit))
    case Create(u) => NewChild(k, u)
    case NewSema(id, v) => AddSema(k, Plain(id), v)
    case NewLock(l) => AddLock(k, l)
    case NewCond(c, l) => AddCond(k, c, l)
    case DownCall(id) => SemaDown(k, Plain(id))
    case TryDown(id) => if k.semas[Plain(id)].value > 0 then SemaDown(k, Plain(id)) else k
    case UpCall(id) => SemaUp(k, Plain(id), User)
    case Acquire(l) => SemaDown(k, OfLock(l))
    case TryAcquire(l) => if k.semas[OfLock(l)].value > 0 then SemaDown(k, OfLock(l)) else k
    case Release(l) => SetHolder(k, l, None, GiveUp(l, None))
    case Wait(c) => Enqueue(k, c)
    case Signal(c) => PopWaiter(k, c, None, User)
    case BroadcastCall(c) => Goto(k, Broadcast(c, |k.enqueued[c]|))
  }

  ghost function Apply(k: State, st: Step): State
    requires Inv(k) && Enabled(k, st)
  {
    hide SemaInv, LockInv, HoldInv, CondInv, S.OneRunning, S.ReadyListExact, S.FreedOnce;
    match st
    case TimerTick => k.(sched := S.Apply(k.sched, S.TimerTick))
    case IntrUp(id) => SemaUp(k, Plain(id), k.pc[k.Cur()])
    case IntrTryDown(id) => if k.semas[Plain(id)].value > 0 then Consume(k, id) else k
    case IntrTryAcquire(l) => if k.semas[OfLock(l)].value > 0 then Seize(k, l) else k
    case Go => Continue(k)
    case Do(call) => assert PcOkAt(k, k.Cur()); Perform(k, call)
  }

  // ---------------------------------------------------------------------
  // Each kind of section keeps the threads' positions consistent
  // ---------------------------------------------------------------------

  /** Nothing that the position of thread t depends on changes from k to k'. */
  ghost predicate Undisturbed(k: State, k': State, t: Tid) {
    && t in k.pc && t in k'.pc && k'.pc[t] == k.pc[t]
    && S.SameNames(k.sched, k'.sched) && S.SameThread(k.sched, k'.sched, t)
    && k.semas.Keys <= k'.semas.Keys
    && (k.pc[t].Down? && k.pc[t].sema in k.semas ==>
          (t in k.semas[k.pc[t].sema].waiters <==> t in k'.semas[k.pc[t].sema].waiters))
    && k.holder.Keys <= k'.holder.Keys
    && (forall c :: c in k.lockOf ==> c in k'.lockOf && k'.lockOf[c] == k.lockOf[c])
    && (k.pc[t].Creating? ==> At(k', k.pc[t].child, Nascent))
  }

  lemma PcFrame(k: State, k': State, t: Tid)
    requires t in k.pc && PcOkAt(k, t) && Undisturbed(k, k', t)
    ensures PcOkAt(k', t)
  {
  }

  /** In k' every thread that is creating one did so in k, or is the current
      thread and creates a new one. */
  ghost predicate CreatesFresh(k: State, k': State) {
    forall t :: t in k'.pc && k'.pc[t].Creating? ==> At(k, t, k'.pc[t]) || (t == k.Cur() && k'.pc[t].child !in k.pc)
  }

  lemma OneCreator(k: State, k': State, t: Tid, u: Tid)
    requires PcInv(k) && CreatesFresh(k, k')
    requires t in k'.pc && u in k'.pc && k'.pc[t].Creating? && k'.pc[t] == k'.pc[u]
    ensures t == u
  {
    if t in k.pc { assert PcOkAt(k, t); }
    if u in k.pc { assert PcOkAt(k, u); }
  }

  /** A step that moves the current thread and at most one other, u. */
  lemma PcStep(k: State, k': State, u: Tid)
    requires PcInv(k) && Wired(k') && CreatesFresh(k, k')
    requires forall t :: t in k'.pc && t != k.Cur() && t != u ==> Undisturbed(k, k', t)
    requires k.Cur() in k'.pc ==> PcOkAt(k', k.Cur())
    requires u in k'.pc ==> PcOkAt(k', u)
    ensures PcInv(k')
  {
    hide PcOkAt, Wired, CreatesFresh;
    forall t | t in k'.pc ensures PcOkAt(k', t) {
      if t != k.Cur() && t != u {
        assert Undisturbed(k, k', t);
        PcFrame(k, k', t);
      }
    }
    forall t, v | t in k'.pc && v in k'.pc && k'.pc[t].Creating? && k'.pc[t] == k'.pc[v] ensures t == v {
      OneCreator(k, k', t, v);
    }
  }

  lemma SwitchKeepsPc(k: State, sched: S.State)
    requires PcInv(k) && S.SameNames(k.sched, sched) && sched.status.Keys == k.sched.status.Keys
    requires forall t :: S.SameThread(k.sched, sched, t)
    ensures PcInv(k.(sched := sched))
  {
    var k' := k.(sched := sched);
    forall t | t in k'.pc ensures PcOkAt(k', t) {
      assert PcOkAt(k, t) && S.SameThread(k.sched, sched, t);
    }
  }

  lemma GotoKeepsPc(k: State, p: Pc)
    requires PcInv(k) && k.Cur() in k.pc && !k.pc[k.Cur()].Nascent? && !p.Creating?
    requires PcOkAt(Goto(k, p), k.Cur())
    ensures PcInv(Goto(k, p))
  {
    NascentStays(k, Goto(k, p));
    hide PcOkAt;
    PcStep(k, Goto(k, p), k.Cur());
  }

  /** The child that a thread is creating is not the current thread. */
  lemma NascentStays(k: State, k': State)
    requires PcInv(k) && k.Cur() in k.pc && !k.pc[k.Cur()].Nascent?
    requires forall u :: u in k.pc && u != k.Cur() ==> At(k', u, k.pc[u])
    ensures forall t :: t in k.pc && k.pc[t].Creating? ==> At(k', k.pc[t].child, Nascent)
  {
    forall t | t in k.pc && k.pc[t].Creating? ensures At(k', k.pc[t].child, Nascent) { assert PcOkAt(k, t); }
  }

  /** sema_down() that takes the semaphore. */
  lemma TakesKeepsPc(k: State, s: SemaId)
    requires PcInv(k) && k.Cur() in k.pc && s in k.semas && k.semas[s].value > 0
    requires Runnable(k, k.Cur()) && k.Cur() != k.sched.idler && !k.pc[k.Cur()].Nascent?
    requires PcOkAt(TakeUnit(k, s), k.Cur()) && !AfterDown(s).Creating?
    ensures PcInv(TakeUnit(k, s))
  {
    hide PcOkAt;
    NascentStays(k, TakeUnit(k, s));
    PcStep(k, TakeUnit(k, s), k.Cur());
  }

  lemma DownTakesKeepsPc(k: State, s: SemaId)
    requires PcInv(k) && k.Cur() in k.pc && s in k.semas && k.semas[s].value > 0
    requires Runnable(k, k.Cur()) && k.Cur() != k.sched.idler && !k.pc[k.Cur()].Nascent?
    requires s.OfLock? ==> s.lock in k.holder
    requires s.OfWaiter? ==> s.thread == k.Cur() && s.cond in k.lockOf
    ensures PcInv(SemaDown(k, s))
  {
    assert PcOkAt(k, k.Cur());
    TakesKeepsPc(k, s);
  }

  /** sema_down() that finds 0, joins the wait list and blocks. */
  lemma JoinWired(k: State, s: SemaId, sched: S.State)
    requires Wired(k) && s in k.semas && k.Cur() in k.pc && k.Cur() in sched.status
    requires forall t :: t != k.Cur() ==> S.SameThread(k.sched, sched, t)
    ensures Wired(Join(k, s, sched))
  {
    forall t ensures t in sched.status <==> t in k.sched.status {
      if t != k.Cur() { assert S.SameThread(k.sched, sched, t); }
    }
  }

  lemma JoinUndisturbed(k: State, s: SemaId, sched: S.State)
    requires PcInv(k) && s in k.semas && k.Cur() in k.pc && !k.pc[k.Cur()].Nascent?
    requires S.SameNames(k.sched, sched)
    requires forall t :: t != k.Cur() ==> S.SameThread(k.sched, sched, t)
    ensures forall t :: t in k.pc && t != k.Cur() ==> Undisturbed(k, Join(k, s, sched), t)
  {
    hide PcOkAt;
    NascentStays(k, Join(k, s, sched));
    forall t | t in k.pc && t != k.Cur() ensures Undisturbed(k, Join(k, s, sched), t) {
      assert S.SameThread(k.sched, sched, t);
    }
  }

  lemma JoinKeepsCurrent(k: State, s: SemaId, sched: S.State)
    requires s in k.semas && k.Cur() != k.sched.idler && k.Cur() in k.pc
    requires s.OfLock? ==> s.lock in k.holder
    requires s.OfWaiter? ==> s.thread == k.Cur() && s.cond in k.lockOf
    requires S.SameNames(k.sched, sched) && S.IsBlocked(sched, k.Cur())
    ensures PcOkAt(Join(k, s, sched), k.Cur())
  {
  }

  lemma DownBlocksKeepsPc(k: State, s: SemaId, sched: S.State)
    requires PcInv(k) && s in k.semas
    requires k.Cur() != k.sched.idler && k.Cur() in k.pc && !k.pc[k.Cur()].Nascent?
    requires s.OfLock? ==> s.lock in k.holder
    requires s.OfWaiter? ==> s.thread == k.Cur() && s.cond in k.lockOf
    requires S.SameNames(k.sched, sched) && S.IsBlocked(sched, k.Cur())
    requires forall t :: t != k.Cur() ==> S.SameThread(k.sched, sched, t)
    ensures PcInv(Join(k, s, sched))
  {
    hide PcOkAt, Wired, Undisturbed, S.SameThread;
    JoinWired(k, s, sched);
    JoinKeepsCurrent(k, s, sched);
    JoinUndisturbed(k, s, sched);
    PcStep(k, Join(k, s, sched), k.Cur());
  }

  /** The first waiter of s can be popped: it is waiting there, once. */
  ghost predicate Poppable(k: State, s: SemaId)
    requires s in k.semas
  {
    var ws := k.semas[s].waiters;
    ws != [] ==>
      && ws[0] in k.pc && k.pc[ws[0]] == Down(s)
      && forall t :: t in ws[1..] <==> t in ws && t != ws[0]
  }

  lemma SemaOkPoppable(k: State, s: SemaId)
    requires s in k.semas && SemaOk(k, s)
    ensures Poppable(k, s)
  {
    if k.semas[s].waiters != [] { PopFront(k.semas[s].waiters); }
  }

  /** The thread that sema_up() pops, or else the current one. */
  function FirstWaiter(k: State, s: SemaId): Tid
    requires s in k.semas
  {
    if k.semas[s].waiters == [] then k.Cur() else k.semas[s].waiters[0]
  }

  lemma UpUndisturbed(k: State, s: SemaId, p: Pc)
    requires PcInv(k) && s in k.semas && k.Cur() in k.pc && Poppable(k, s)
    requires !k.pc[k.Cur()].Nascent?
    ensures forall t :: t in k.pc && t != k.Cur() && t != FirstWaiter(k, s) ==> Undisturbed(k, SemaUp(k, s, p), t)
  {
    hide PcOkAt;
    NascentStays(k, SemaUp(k, s, p));
  }

  /** The popped waiter becomes runnable. */
  lemma UpWakesFirst(k: State, s: SemaId, p: Pc)
    requires PcInv(k) && s in k.semas && k.Cur() in k.pc && Poppable(k, s)
    requires k.semas[s].waiters != [] && k.semas[s].waiters[0] != k.Cur()
    ensures PcOkAt(SemaUp(k, s, p), k.semas[s].waiters[0])
  {
    assert PcOkAt(k, k.semas[s].waiters[0]);
  }

  /** ... and the current thread is where it says it is. */
  lemma UpKeepsCurrent(k: State, s: SemaId, p: Pc)
    requires s in k.semas && k.Cur() in k.pc && Poppable(k, s) && !k.pc[k.Cur()].Down? && !p.Down?
    requires p.Creating? ==> At(k, p.child, Nascent)
    requires PcOkAt(Goto(k, p), k.Cur())
    ensures PcOkAt(SemaUp(k, s, p), k.Cur())
  {
  }

  lemma UpWired(k: State, s: SemaId, p: Pc)
    requires Wired(k) && s in k.semas && k.Cur() in k.pc && Poppable(k, s)
    ensures Wired(SemaUp(k, s, p))
  {
  }

  /** sema_up() */
  lemma UpKeepsPc(k: State, s: SemaId, p: Pc)
    requires PcInv(k) && s in k.semas && k.Cur() in k.pc && Poppable(k, s)
    requires !k.pc[k.Cur()].Nascent? && !k.pc[k.Cur()].Down? && !p.Down? && (p.Creating? ==> p == k.pc[k.Cur()])
    requires PcOkAt(Goto(k, p), k.Cur())
    ensures PcInv(SemaUp(k, s, p))
  {
    hide PcOkAt, Undisturbed, Wired;
    if p.Creating? { NascentStays(k, SemaUp(k, s, p)); NascentStays(k, k); }
    UpKeepsCurrent(k, s, p);
    UpWired(k, s, p);
    UpUndisturbed(k, s, p);
    if k.semas[s].waiters != [] { UpWakesFirst(k, s, p); }
    PcStep(k, SemaUp(k, s, p), FirstWaiter(k, s));
  }

  lemma SetHolderKeepsPc(k: State, l: LockId, h: Option<Tid>, p: Pc)
    requires PcInv(k) && k.Cur() in k.pc && l in k.holder && !k.pc[k.Cur()].Nascent? && !p.Creating?
    requires PcOkAt(Goto(k, p), k.Cur())
    ensures PcInv(SetHolder(k, l, h, p))
  {
    hide PcOkAt, Undisturbed;
    SetHolderKeepsCurrent(k, l, h, p);
    SetHolderUndisturbed(k, l, h, p);
    PcStep(k, SetHolder(k, l, h, p), k.Cur());
  }

  lemma SetHolderUndisturbed(k: State, l: LockId, h: Option<Tid>, p: Pc)
    requires PcInv(k) && k.Cur() in k.pc && !k.pc[k.Cur()].Nascent?
    ensures forall t :: t in k.pc && t != k.Cur() ==> Undisturbed(k, SetHolder(k, l, h, p), t)
  {
    hide PcOkAt;
    NascentStays(k, SetHolder(k, l, h, p));
  }

  lemma SetHolderKeepsCurrent(k: State, l: LockId, h: Option<Tid>, p: Pc)
    requires k.Cur() in k.pc && l in k.holder && PcOkAt(Goto(k, p), k.Cur())
    ensures PcOkAt(SetHolder(k, l, h, p), k.Cur())
  {
  }

  lemma EnqueueKeepsPc(k: State, c: CondId)
    requires PcInv(k) && k.Cur() in k.pc && k.pc[k.Cur()] == User && Runnable(k, k.Cur()) && c in k.lockOf
    ensures PcInv(Enqueue(k, c))
  {
    hide PcOkAt, Undisturbed;
    EnqueueKeepsCurrent(k, c);
    EnqueueUndisturbed(k, c);
    PcStep(k, Enqueue(k, c), k.Cur());
  }

  lemma EnqueueKeepsCurrent(k: State, c: CondId)
    requires PcInv(k) && k.Cur() in k.pc && k.pc[k.Cur()] == User && Runnable(k, k.Cur()) && c in k.lockOf
    ensures PcOkAt(Enqueue(k, c), k.Cur())
  {
    assert PcOkAt(k, k.Cur());
  }

  /** A thread downs no private semaphore but its own. */
  lemma DownsOwn(k: State)
    requires PcInv(k)
    ensures forall t :: t in k.pc && k.pc[t].Down? && k.pc[t].sema.OfWaiter? ==> k.pc[t].sema.thread == t
  {
    forall t | t in k.pc && k.pc[t].Down? && k.pc[t].sema.OfWaiter? ensures k.pc[t].sema.thread == t {
      assert PcOkAt(k, t);
    }
  }

  lemma EnqueueUndisturbed(k: State, c: CondId)
    requires PcInv(k) && k.Cur() in k.pc && !k.pc[k.Cur()].Nascent? && c in k.lockOf
    ensures forall t :: t in k.pc && t != k.Cur() ==> Undisturbed(k, Enqueue(k, c), t)
  {
    hide PcOkAt;
    DownsOwn(k);
    NascentStays(k, Enqueue(k, c));
  }

  lemma PopKeepsPc(k: State, c: CondId, goal: Option<nat>)
    requires PcInv(k) && k.Cur() in k.pc && c in k.lockOf && Runnable(k, k.Cur())
    requires k.pc[k.Cur()] == User || k.pc[k.Cur()].Broadcast?
    requires k.queue[c] != [] ==> OfWaiter(k.queue[c][0], c) in k.semas
    ensures PcInv(PopWaiter(k, c, goal, User))
  {
    hide PcOkAt, Undisturbed;
    PopKeepsCurrent(k, c, goal);
    PopUndisturbed(k, c, goal);
    PcStep(k, PopWaiter(k, c, goal, User), k.Cur());
  }

  lemma PopKeepsCurrent(k: State, c: CondId, goal: Option<nat>)
    requires PcInv(k) && k.Cur() in k.pc && c in k.lockOf && Runnable(k, k.Cur())
    requires k.pc[k.Cur()] == User || k.pc[k.Cur()].Broadcast?
    requires k.queue[c] != [] ==> OfWaiter(k.queue[c][0], c) in k.semas
    ensures PcOkAt(PopWaiter(k, c, goal, User), k.Cur())
  {
    assert PcOkAt(k, k.Cur());
  }

  lemma PopUndisturbed(k: State, c: CondId, goal: Option<nat>)
    requires PcInv(k) && k.Cur() in k.pc && c in k.lockOf && !k.pc[k.Cur()].Nascent?
    ensures forall t :: t in k.pc && t != k.Cur() ==> Undisturbed(k, PopWaiter(k, c, goal, User), t)
  {
    hide PcOkAt;
    NascentStays(k, PopWaiter(k, c, goal, User));
  }

  // ---------------------------------------------------------------------
  // ... and the semaphores consistent
  // ---------------------------------------------------------------------

  lemma SemaFrame(k: State, k': State, s: SemaId)
    requires s in k.semas && s in k'.semas && k.semas[s] == k'.semas[s] && SemaOk(k, s)
    requires forall t :: At(k, t, Down(s)) <==> At(k', t, Down(s))
    ensures SemaOk(k', s)
  {
    forall t ensures t in Popped(k, s) <==> t in Popped(k', s) {
      assert At(k, t, Down(s)) <==> At(k', t, Down(s));
    }
    assert Popped(k, s) == Popped(k', s);
    forall t | t in k'.semas[s].waiters ensures t in k'.pc && k'.pc[t] == Down(s) {
      assert At(k, t, Down(s));
    }
  }

  /** A step that leaves all semaphores alone and moves nobody into or out of
      sema_down(). */
  lemma StillKeepsSema(k: State, k': State)
    requires SemaInv(k) && k'.semas == k.semas
    requires forall t, s :: At(k, t, Down(s)) <==> At(k', t, Down(s))
    ensures SemaInv(k')
  {
    forall s | s in k'.semas ensures SemaOk(k', s) {
      SemaFrame(k, k', s);
    }
  }

  lemma NewSemaKeepsSema(k: State, k': State, s: SemaId)
    requires SemaInv(k) && s in k'.semas && k'.semas == k.semas[s := k'.semas[s]]
    requires k'.semas[s].waiters == [] && k'.semas[s].value == k'.semas[s].init
    requires k'.semas[s].ups == k'.semas[s].downs == 0
    requires forall t, s :: At(k, t, Down(s)) <==> At(k', t, Down(s))
    ensures SemaInv(k')
  {
    forall s' | s' in k'.semas ensures SemaOk(k', s') {
      if s' != s { SemaFrame(k, k', s'); }
    }
  }

  lemma UpKeepsSema(k: State, s: SemaId, p: Pc)
    requires SemaInv(k) && s in k.semas && k.Cur() in k.pc && !k.pc[k.Cur()].Down? && !p.Down?
    ensures SemaInv(SemaUp(k, s, p))
  {
    var k' := SemaUp(k, s, p);
    forall s' | s' in k'.semas && s' != s ensures SemaOk(k', s') {
      SemaFrame(k, k', s');
    }
    UpKeepsSemaAt(k, s, p);
  }

  /** A popped waiter counts for the value that sema_up() adds. */
  lemma UpKeepsSemaAt(k: State, s: SemaId, p: Pc)
    requires s in k.semas && SemaOk(k, s) && k.Cur() in k.pc && !k.pc[k.Cur()].Down? && !p.Down?
    ensures SemaOk(SemaUp(k, s, p), s)
  {
    var k' := SemaUp(k, s, p);
    var ws := k.semas[s].waiters;
    if ws != [] {
      PopFront(ws);
      assert Popped(k', s) == Popped(k, s) + {ws[0]};
    }
  }

  lemma DownKeepsSema(k: State, s: SemaId)
    requires SemaInv(k) && s in k.semas && k.Cur() in k.pc && k.Cur() !in k.semas[s].waiters
    requires k.semas[s].value == 0 ==> S.HasNext(S.SetCurrent(k.sched, S.Blocked))
    requires k.pc[k.Cur()].Down? ==> k.pc[k.Cur()].sema == s
    ensures SemaInv(SemaDown(k, s))
  {
    var k' := SemaDown(k, s);
    forall s' | s' in k'.semas && s' != s ensures SemaOk(k', s') {
      SemaFrame(k, k', s');
    }
    if k.semas[s].value > 0 { DownTakesKeepsSemaAt(k, s); } else { JoinKeepsSemaAt(k, s, S.Block(k.sched)); }
  }

  /** A thread that takes the semaphore after being popped leaves the popped
      ones together with the unit it takes. */
  lemma DownTakesKeepsSemaAt(k: State, s: SemaId)
    requires s in k.semas && SemaOk(k, s) && k.Cur() in k.pc && k.Cur() !in k.semas[s].waiters
    requires k.semas[s].value > 0
    ensures SemaOk(SemaDown(k, s), s)
  {
    hide S.HasNext, S.SetCurrent, S.Block, Gains;
    var k' := SemaDown(k, s);
    PoppedTakes(k, k', s);
  }

  lemma PoppedTakes(k: State, k': State, s: SemaId)
    requires s in k.semas && s in k'.semas && k'.semas[s].waiters == k.semas[s].waiters
    requires k.Cur() in k.pc && k.Cur() in k'.pc && k'.pc == k.pc[k.Cur() := k'.pc[k.Cur()]]
    requires k'.pc[k.Cur()] != Down(s)
    ensures Popped(k', s) == Popped(k, s) - {k.Cur()}
  {
  }

  lemma JoinKeepsSemaAt(k: State, s: SemaId, sched: S.State)
    requires s in k.semas && SemaOk(k, s) && k.Cur() in k.pc && k.Cur() !in k.semas[s].waiters
    requires k.semas[s].value == 0
    ensures SemaOk(Join(k, s, sched), s)
  {
  }

  // ---------------------------------------------------------------------
  // ... and the locks consistent
  // ---------------------------------------------------------------------

  predicate AtLock(p: Pc, l: LockId) {
    p == TakeHolder(l) || (p.GiveUp? && p.lock == l)
  }

  lemma LockFrame(k: State, k': State, l: LockId)
    requires l in k.holder && l in k'.holder && OfLock(l) in k.semas && OfLock(l) in k'.semas
    requires LockOk(k, l) && k'.holder[l] == k.holder[l]
    requires k'.semas[OfLock(l)].value == k.semas[OfLock(l)].value
    requires forall t :: (t in k.pc && AtLock(k.pc[t], l)) <==> (t in k'.pc && AtLock(k'.pc[t], l))
    ensures LockOk(k', l)
  {
    assert Between(k, l) == Between(k', l) by {
      forall t ensures t in Between(k, l) <==> t in Between(k', l) {
        assert (t in k.pc && AtLock(k.pc[t], l)) <==> (t in k'.pc && AtLock(k'.pc[t], l));
      }
    }
  }

  /** The current thread enters the owning stretch of lock l, outside holder. */
  lemma EntersLock(k: State, k': State, l: LockId)
    requires l in k.holder && l in k'.holder && OfLock(l) in k.semas && OfLock(l) in k'.semas
    requires LockOk(k, l)
    requires k.Cur() in k.pc && !AtLock(k.pc[k.Cur()], l)
    requires k.Cur() in k'.pc && AtLock(k'.pc[k.Cur()], l) && k'.pc == k.pc[k.Cur() := k'.pc[k.Cur()]]
    requires k'.semas[OfLock(l)].value + (if k'.holder[l].Some? then 1 else 0) + 1
          == k.semas[OfLock(l)].value + (if k.holder[l].Some? then 1 else 0)
    ensures LockOk(k', l)
  {
    assert Between(k', l) == Between(k, l) + {k.Cur()};
  }

  /** The current thread leaves it: to be the holder, or by its increment. */
  lemma LeavesLock(k: State, k': State, l: LockId)
    requires l in k.holder && l in k'.holder && OfLock(l) in k.semas && OfLock(l) in k'.semas
    requires LockOk(k, l)
    requires k.Cur() in k.pc && AtLock(k.pc[k.Cur()], l)
    requires k.Cur() in k'.pc && !AtLock(k'.pc[k.Cur()], l) && k'.pc == k.pc[k.Cur() := k'.pc[k.Cur()]]
    requires k'.semas[OfLock(l)].value + (if k'.holder[l].Some? then 1 else 0)
          == k.semas[OfLock(l)].value + (if k.holder[l].Some? then 1 else 0) + 1
    ensures LockOk(k', l)
  {
    assert Between(k', l) == Between(k, l) - {k.Cur()};
  }

  /** Inside that stretch nobody is the holder and the semaphore is 0. */
  lemma InsideLockAlone(k: State, l: LockId, t: Tid)
    requires l in k.holder && OfLock(l) in k.semas && LockOk(k, l) && t in k.pc && AtLock(k.pc[t], l)
    ensures k.holder[l] == None && k.semas[OfLock(l)].value == 0 && Between(k, l) == {t}
  {
    assert t in Between(k, l);
    assert Between(k, l) == {t} + (Between(k, l) - {t});
  }

  /** A step that neither acquires nor releases. */
  lemma StillKeepsLock(k: State, k': State)
    requires Wired(k) && Wired(k') && LockInv(k) && k'.holder == k.holder
    requires forall l :: l in k.holder ==> k'.semas[OfLock(l)].value == k.semas[OfLock(l)].value
    requires forall t, l :: (t in k.pc && AtLock(k.pc[t], l)) <==> (t in k'.pc && AtLock(k'.pc[t], l))
    ensures LockInv(k')
  {
    forall l | l in k'.holder ensures LockOk(k', l) {
      LockFrame(k, k', l);
    }
  }

  /** A step of the current thread that touches lock l only: it enters or leaves
      the owning stretch as the balance of the two lemmas above demands. */
  lemma LockStep(k: State, k': State, l: LockId)
    requires Wired(k) && Wired(k') && LockInv(k) && l in k.holder
    requires l in k'.holder && k'.holder == k.holder[l := k'.holder[l]]
    requires forall i :: i in k.holder && i != l ==> k'.semas[OfLock(i)].value == k.semas[OfLock(i)].value
    requires k.Cur() in k.pc && k.Cur() in k'.pc && k'.pc == k.pc[k.Cur() := k'.pc[k.Cur()]]
    requires forall i :: i != l ==> !AtLock(k.pc[k.Cur()], i) && !AtLock(k'.pc[k.Cur()], i)
    requires AtLock(k.pc[k.Cur()], l) != AtLock(k'.pc[k.Cur()], l)
    requires k'.semas[OfLock(l)].value + (if k'.holder[l].Some? then 1 else 0)
             + (if AtLock(k'.pc[k.Cur()], l) then 1 else 0)
          == k.semas[OfLock(l)].value + (if k.holder[l].Some? then 1 else 0)
             + (if AtLock(k.pc[k.Cur()], l) then 1 else 0)
    ensures LockInv(k')
  {
    forall i | i in k'.holder ensures LockOk(k', i) {
      if i != l {
        assert LockOk(k, i);
        LockFrame(k, k', i);
      } else {
        assert LockOk(k, l);
        if AtLock(k.pc[k.Cur()], l) { LeavesLock(k, k', l); } else { EntersLock(k, k', l); }
      }
    }
  }

  /** Holding facts depend on the thread's own position and its lock's holder. */
  lemma HoldFrame(k: State, k': State, t: Tid)
    requires t in k.pc && t in k'.pc && k'.pc[t] == k.pc[t] && HoldOk(k, t)
    requires forall c :: (HolderFor(k', c) == Some(t) <==> HolderFor(k, c) == Some(t))
    ensures HoldOk(k', t)
  {
  }

  /** The current thread moves and may become, or stop being, a holder. */
  lemma HoldStep(k: State, k': State)
    requires HoldInv(k)
    requires forall t :: t in k'.pc && t != k.Cur() ==> t in k.pc && k.pc[t] == k'.pc[t]
    requires forall t, c :: t in k'.pc && t != k.Cur() ==> (HolderFor(k', c) == Some(t) <==> HolderFor(k, c) == Some(t))
    requires k.Cur() in k'.pc ==> HoldOk(k', k.Cur())
    ensures HoldInv(k')
  {
    forall t | t in k'.pc ensures HoldOk(k', t) {
      if t != k.Cur() { HoldFrame(k, k', t); }
    }
  }

  /** Only one thread at a time signals on c or may queue on it. */
  lemma OneAtCond(k: State, t: Tid, u: Tid, w: Tid, c: CondId)
    requires HoldInv(k) && HolderFor(k, c) == Some(t) && SignalsTo(k, u, w, c)
    ensures t == u
  {
    assert HoldOk(k, u);
  }

  // ---------------------------------------------------------------------
  // ... and the condition variables consistent
  // ---------------------------------------------------------------------

  /** Nothing about waiter w of c changes from k to k'. */
  ghost predicate SameStage(k: State, k': State, w: Tid, c: CondId) {
    && (Queued(k, w, c) <==> Queued(k', w, c))
    && (InWait(k, w, c) <==> InWait(k', w, c))
    && (At(k', w, CondWake(c)) ==> At(k, w, CondWake(c)))
    && (forall t :: SignalsTo(k, t, w, c) <==> SignalsTo(k', t, w, c))
    && (forall u, d :: Private(k, w, c, u, d) ==> Private(k', w, c, u, d))
  }

  lemma StageFrame(k: State, k': State, w: Tid, c: CondId)
    requires WaiterOk(k, w, c) && SameStage(k, k', w, c)
    ensures WaiterOk(k', w, c)
  {
    if BeingSignalled(k, w, c) {
      var t :| SignalsTo(k, t, w, c);
      assert SignalsTo(k', t, w, c);
    }
    if BeingSignalled(k', w, c) {
      var t :| SignalsTo(k', t, w, c);
      assert SignalsTo(k, t, w, c);
    }
  }

  /** A step that concerns waiter w0 of c0 only. */
  lemma CondStep(k: State, k': State, w0: Tid, c0: CondId)
    requires CondInv(k)
    requires forall w: Tid, c: CondId :: w != w0 || c != c0 ==> SameStage(k, k', w, c)
    requires WaiterOk(k', w0, c0)
    requires forall c :: c in k'.queue ==> QueueOk(k', c)
    requires forall t :: BroadcastOk(k', t)
    ensures CondInv(k')
  {
    forall w: Tid, c: CondId ensures WaiterOk(k', w, c) {
      if w != w0 || c != c0 { StageFrame(k, k', w, c); }
    }
  }

  /** A step that concerns no waiter. */
  lemma StillKeepsCond(k: State, k': State)
    requires CondInv(k)
    requires forall w, c :: SameStage(k, k', w, c)
    requires k'.queue == k.queue && k'.enqueued == k.enqueued && k'.woken == k.woken
    requires forall t :: BroadcastOk(k', t)
    ensures CondInv(k')
  {
    forall w, c ensures WaiterOk(k', w, c) {
      StageFrame(k, k', w, c);
    }
    forall c | c in k'.queue ensures QueueOk(k', c) {
      assert QueueOk(k, c);
    }
  }

  /** A waiter that finds its private semaphore positive has been signalled. */
  lemma SignalledOnce(k: State, w: Tid, c: CondId)
    requires WaiterOk(k, w, c) && InWait(k, w, c)
    requires OfWaiter(w, c) in k.semas && k.semas[OfWaiter(w, c)].value > 0
    ensures Private(k, w, c, 1, 0) && !Queued(k, w, c) && !BeingSignalled(k, w, c)
  {
  }

  /** Positions outside of cond_wait() and cond_signal(). */
  predicate Quiet(p: Pc) {
    !p.CondRelease? && !p.CondSleep? && !p.SignalUp? && !(p.GiveUp? && p.wait.Some?) && !(p.Down? && p.sema.OfWaiter?)
  }

  ghost predicate QuietMove(k: State, k': State, t: Tid) {
    (t in k.pc && t in k'.pc && k'.pc[t] == k.pc[t]) ||
    ((t in k.pc ==> Quiet(k.pc[t])) && (t in k'.pc ==> Quiet(k'.pc[t]) && !k'.pc[t].CondWake?))
  }

  ghost predicate SameCounts(k: State, k': State, s: SemaId) {
    s in k.semas ==>
      && s in k'.semas && k'.semas[s].value == k.semas[s].value && k'.semas[s].init == k.semas[s].init
      && k'.semas[s].ups == k.semas[s].ups && k'.semas[s].downs == k.semas[s].downs
  }

  lemma QuietStage(k: State, k': State, w: Tid, c: CondId)
    requires forall t :: QuietMove(k, k', t)
    requires SameCounts(k, k', OfWaiter(w, c))
    requires Queued(k, w, c) <==> Queued(k', w, c)
    ensures SameStage(k, k', w, c)
  {
    assert QuietMove(k, k', w);
    forall t ensures SignalsTo(k, t, w, c) <==> SignalsTo(k', t, w, c) {
      assert QuietMove(k, k', t);
    }
  }

  /** A step outside of cond_wait() and cond_signal(). */
  lemma QuietKeepsCond(k: State, k': State)
    requires CondInv(k)
    requires forall t :: QuietMove(k, k', t)
    requires forall w, c :: SameCounts(k, k', OfWaiter(w, c))
    requires k'.queue == k.queue && k'.enqueued == k.enqueued && k'.woken == k.woken
    requires forall t :: BroadcastOk(k', t)
    ensures CondInv(k')
  {
    forall w, c ensures SameStage(k, k', w, c) {
      QuietStage(k, k', w, c);
    }
    StillKeepsCond(k, k');
  }

  // ---------------------------------------------------------------------
  // Every step keeps the invariant
  // ---------------------------------------------------------------------

  lemma SwitchKeepsCond(k: State, sched: S.State)
    requires CondInv(k)
    ensures CondInv(k.(sched := sched))
  {
    BroadcastFrame(k, k.(sched := sched));
    QuietKeepsCond(k, k.(sched := sched));
  }

  lemma SwitchKeepsHold(k: State, sched: S.State)
    requires HoldInv(k)
    ensures HoldInv(k.(sched := sched))
  {
    forall t | t in k.pc ensures HoldOk(k.(sched := sched), t) { assert HoldOk(k, t); }
  }

  lemma SwitchKeepsInv(k: State, sched: S.State)
    requires Inv(k) && S.Inv(sched) && S.SameNames(k.sched, sched)
    requires forall t :: S.SameThread(k.sched, sched, t)
    ensures Inv(k.(sched := sched))
  {
    var k' := k.(sched := sched);
    assert sched.status.Keys == k.sched.status.Keys by {
      forall t ensures t in sched.status <==> t in k.sched.status { assert S.SameThread(k.sched, sched, t); }
    }
    SwitchKeepsPc(k, sched);
    StillKeepsSema(k, k');
    StillKeepsLock(k, k');
    SwitchKeepsHold(k, sched);
    SwitchKeepsCond(k, sched);
  }

  lemma BroadcastFrame(k: State, k': State)
    requires CondInv(k) && k'.enqueued == k.enqueued
    requires forall t :: t in k'.pc && k'.pc[t].Broadcast? ==> At(k, t, k'.pc[t])
    requires forall t :: t in k'.pc && k'.pc[t].SignalUp? ==> At(k, t, k'.pc[t])
    ensures forall t :: BroadcastOk(k', t)
  {
    forall t ensures BroadcastOk(k', t) {
      assert BroadcastOk(k, t);
    }
  }

  lemma UnblockKeepsInv(k: State, s: SemaId)
    requires S.Inv(k.sched) && PcInv(k) && s in k.semas && SemaOk(k, s) && k.semas[s].waiters != []
    ensures S.Inv(S.Unblock(k.sched, k.semas[s].waiters[0]))
  {
    var w := k.semas[s].waiters[0];
    assert w in k.semas[s].waiters;
    assert PcOkAt(k, w);
    S.ApplyKeepsInv(k.sched, S.DoUnblock(w));
  }

  /** The invariants that every sema_up() keeps, whoever calls it. */
  lemma UpKeepsCommon(k: State, s: SemaId, p: Pc)
    requires Inv(k) && s in k.semas && k.Cur() in k.pc
    requires !k.pc[k.Cur()].Nascent? && !k.pc[k.Cur()].Down? && !p.Down? && (p.Creating? ==> p == k.pc[k.Cur()])
    requires PcOkAt(Goto(k, p), k.Cur())
    ensures var k' := SemaUp(k, s, p); S.Inv(k'.sched) && PcInv(k') && SemaInv(k')
  {
    assert SemaOk(k, s);
    SemaOkPoppable(k, s);
    UpKeepsPc(k, s, p);
    UpKeepsSema(k, s, p);
    if k.semas[s].waiters != [] { UnblockKeepsInv(k, s); }
  }

  lemma UpKeepsLock(k: State, s: SemaId, p: Pc)
    requires Wired(k) && LockInv(k) && s in k.semas && !s.OfLock? && k.Cur() in k.pc && Wired(SemaUp(k, s, p))
    requires forall l :: !AtLock(k.pc[k.Cur()], l) && !AtLock(p, l)
    ensures LockInv(SemaUp(k, s, p))
  {
    StillKeepsLock(k, SemaUp(k, s, p));
  }

  lemma UpKeepsHold(k: State, s: SemaId, p: Pc)
    requires HoldInv(k) && s in k.semas && k.Cur() in k.pc
    requires HoldOk(Goto(k, p), k.Cur())
    ensures HoldInv(SemaUp(k, s, p))
  {
    HoldStep(k, SemaUp(k, s, p));
  }

  lemma UpPlainKeepsCond(k: State, id: nat, p: Pc)
    requires CondInv(k) && Plain(id) in k.semas && k.Cur() in k.pc
    requires p == k.pc[k.Cur()] || (k.pc[k.Cur()].IdleUp? && p.IdleLoop?)
    ensures CondInv(SemaUp(k, Plain(id), p))
  {
    var k' := SemaUp(k, Plain(id), p);
    BroadcastFrame(k, k');
    QuietKeepsCond(k, k');
  }

  /** The same up seen by an interrupt handler's thread: no position changes. */
  lemma UpPlainKeepsLock(k: State, id: nat, p: Pc)
    requires Wired(k) && LockInv(k) && Plain(id) in k.semas && k.Cur() in k.pc && Wired(SemaUp(k, Plain(id), p))
    requires p == k.pc[k.Cur()] || (k.pc[k.Cur()].IdleUp? && p.IdleLoop?)
    ensures LockInv(SemaUp(k, Plain(id), p))
  {
    StillKeepsLock(k, SemaUp(k, Plain(id), p));
  }

  /** sema_up() on a semaphore of its own. */
  lemma UpPlainKeepsInv(k: State, id: nat, p: Pc)
    requires Inv(k) && Plain(id) in k.semas && k.Cur() in k.pc && !k.pc[k.Cur()].Down?
    requires p == k.pc[k.Cur()] || (k.pc[k.Cur()].IdleUp? && p.IdleLoop?)
    ensures Inv(SemaUp(k, Plain(id), p))
  {
    CurrentIsRunning(k);
    assert HoldOk(k, k.Cur());
    GotoSame(k, p);
    UpKeepsCommon(k, Plain(id), p);
    UpPlainKeepsLock(k, id, p);
    UpKeepsHold(k, Plain(id), p);
    UpPlainKeepsCond(k, id, p);
  }

  lemma GotoSame(k: State, p: Pc)
    requires k.Cur() in k.pc && PcOkAt(k, k.Cur()) && HoldOk(k, k.Cur())
    requires p == k.pc[k.Cur()] || (k.pc[k.Cur()].IdleUp? && p.IdleLoop?)
    ensures PcOkAt(Goto(k, p), k.Cur()) && HoldOk(Goto(k, p), k.Cur())
  {
    if p == k.pc[k.Cur()] { assert Goto(k, p).pc == k.pc; }
  }

  lemma CurrentIsRunning(k: State)
    requires S.Inv(k.sched) && PcInv(k)
    ensures k.Cur() in k.pc && PcOkAt(k, k.Cur()) && Runnable(k, k.Cur()) && !IsBlocked(k, k.Cur())
            && !k.pc[k.Cur()].Nascent?
  {
    assert PcOkAt(k, k.Cur());
  }

  // sema_try_down() in an interrupt handler

  lemma ConsumeKeepsPc(k: State, id: nat)
    requires PcInv(k) && Plain(id) in k.semas && k.semas[Plain(id)].value > 0
    ensures PcInv(Consume(k, id))
  {
    forall t | t in k.pc ensures PcOkAt(Consume(k, id), t) { assert PcOkAt(k, t); }
  }

  lemma ConsumeKeepsSema(k: State, id: nat)
    requires SemaInv(k) && Plain(id) in k.semas && k.semas[Plain(id)].value > 0
    ensures SemaInv(Consume(k, id))
  {
    var k' := Consume(k, id);
    forall s | s in k'.semas ensures SemaOk(k', s) {
      assert SemaOk(k, s);
      if s != Plain(id) { SemaFrame(k, k', s); } else { assert Popped(k', s) == Popped(k, s); }
    }
  }

  lemma ConsumeKeepsHoldCond(k: State, id: nat)
    requires HoldInv(k) && CondInv(k) && Plain(id) in k.semas && k.semas[Plain(id)].value > 0
    ensures HoldInv(Consume(k, id)) && CondInv(Consume(k, id))
  {
    forall t | t in k.pc ensures HoldOk(Consume(k, id), t) { assert HoldOk(k, t); }
    BroadcastFrame(k, Consume(k, id));
    QuietKeepsCond(k, Consume(k, id));
  }

  lemma ConsumeKeepsInv(k: State, id: nat)
    requires Inv(k) && Plain(id) in k.semas && k.semas[Plain(id)].value > 0
    ensures Inv(Consume(k, id))
  {
    ConsumeKeepsPc(k, id);
    ConsumeKeepsSema(k, id);
    StillKeepsLock(k, Consume(k, id));
    ConsumeKeepsHoldCond(k, id);
  }

  // lock_try_acquire() in an interrupt handler

  lemma SeizeKeepsPc(k: State, l: LockId)
    requires PcInv(k) && l in k.holder && OfLock(l) in k.semas && k.semas[OfLock(l)].value > 0
    ensures PcInv(Seize(k, l))
  {
    forall t | t in k.pc ensures PcOkAt(Seize(k, l), t) { assert PcOkAt(k, t); }
  }

  lemma SeizeKeepsSema(k: State, l: LockId)
    requires SemaInv(k) && OfLock(l) in k.semas && k.semas[OfLock(l)].value > 0
    ensures SemaInv(Seize(k, l))
  {
    var k' := Seize(k, l);
    forall s | s in k'.semas ensures SemaOk(k', s) {
      assert SemaOk(k, s);
      if s != OfLock(l) { SemaFrame(k, k', s); } else { assert Popped(k', s) == Popped(k, s); }
    }
  }

  lemma SeizeKeepsLock(k: State, l: LockId)
    requires Wired(k) && LockInv(k) && l in k.holder && k.semas[OfLock(l)].value > 0 && Wired(Seize(k, l))
    ensures k.holder[l] == None && LockInv(Seize(k, l))
  {
    var k' := Seize(k, l);
    assert LockOk(k, l);
    forall i | i in k'.holder ensures LockOk(k', i) {
      assert LockOk(k, i);
      if i != l { LockFrame(k, k', i); } else { assert Between(k', l) == Between(k, l); }
    }
  }

  lemma SeizeKeepsHold(k: State, l: LockId)
    requires HoldInv(k) && k.Cur() in k.pc && !k.pc[k.Cur()].Down?
    requires l in k.holder && k.holder[l] == None && OfLock(l) in k.semas && k.semas[OfLock(l)].value > 0
    ensures HoldInv(Seize(k, l)) <==> !WillReacquire(k, l)
  {
    var k' := Seize(k, l);
    if WillReacquire(k, l) {
      assert !HoldOk(k', k.Cur());
    } else {
      assert HoldOk(k, k.Cur());
      forall t, c | t != k.Cur() ensures HolderFor(k', c) == Some(t) <==> HolderFor(k, c) == Some(t) {
      }
      HoldStep(k, k');
    }
  }

  lemma SeizeKeepsCond(k: State, l: LockId)
    requires CondInv(k) && OfLock(l) in k.semas && k.semas[OfLock(l)].value > 0
    ensures CondInv(Seize(k, l))
  {
    BroadcastFrame(k, Seize(k, l));
    QuietKeepsCond(k, Seize(k, l));
  }

  /** The source allows lock_try_acquire() in an interrupt handler.  A handler that gets
      the lock keeps the invariant exactly unless it interrupts a thread that is waiting
      on a condition of that lock; then the assertion of lock_acquire() in that thread's
      cond_wait() would fail. */
  lemma TryAcquireInHandler(k: State, l: LockId)
    requires Inv(k) && k.Cur() in k.pc && !k.pc[k.Cur()].Down?
    requires l in k.holder && OfLock(l) in k.semas && k.semas[OfLock(l)].value > 0
    ensures Inv(Seize(k, l)) <==> !WillReacquire(k, l)
  {
    hide PcOkAt, Wired, SemaInv, LockInv, HoldInv, CondInv, S.Inv;
    SeizeKeepsPc(k, l);
    SeizeKeepsSema(k, l);
    SeizeKeepsLock(k, l);
    SeizeKeepsHold(k, l);
    SeizeKeepsCond(k, l);
  }

  // lock_release(): the sema_up()

  lemma GiveUpKeepsLock(k: State, l: LockId, p: Pc)
    requires Wired(k) && LockInv(k) && l in k.holder && k.Cur() in k.pc && Wired(SemaUp(k, OfLock(l), p))
    requires k.pc[k.Cur()].GiveUp? && k.pc[k.Cur()].lock == l && (p.User? || p.CondSleep?)
    ensures LockInv(SemaUp(k, OfLock(l), p))
  {
    LockStep(k, SemaUp(k, OfLock(l), p), l);
  }

  lemma GiveUpKeepsCond(k: State, l: LockId, w: Option<CondId>)
    requires CondInv(k) && OfLock(l) in k.semas && At(k, k.Cur(), GiveUp(l, w))
    ensures CondInv(SemaUp(k, OfLock(l), if w.Some? then CondSleep(w.value) else User))
  {
    var k' := SemaUp(k, OfLock(l), if w.Some? then CondSleep(w.value) else User);
    BroadcastFrame(k, k');
    StillKeepsCond(k, k');
  }

  lemma GiveUpReady(k: State, l: LockId, w: Option<CondId>)
    requires PcInv(k) && LockInv(k) && CondInv(k) && At(k, k.Cur(), GiveUp(l, w))
    ensures l in k.holder && OfLock(l) in k.semas
    ensures var p := if w.Some? then CondSleep(w.value) else User;
            PcOkAt(Goto(k, p), k.Cur()) && HoldOk(Goto(k, p), k.Cur())
  {
    hide PcOkAt, LockOk, HoldOk, WaiterOk;
    GiveUpAlone(k, l);
    if w.Some? {
      assert WaiterOk(k, k.Cur(), w.value);
      WaiterHasSema(k, k.Cur(), w.value);
    }
    GiveUpPlace(k, l, w);
  }

  lemma GiveUpAlone(k: State, l: LockId)
    requires PcInv(k) && LockInv(k) && k.Cur() in k.pc && k.pc[k.Cur()].GiveUp? && k.pc[k.Cur()].lock == l
    ensures PcOkAt(k, k.Cur()) && l in k.holder && OfLock(l) in k.semas && k.holder[l] == None
  {
    assert PcOkAt(k, k.Cur()) && LockOk(k, l);
    InsideLockAlone(k, l, k.Cur());
  }

  /** After the sema_up() of lock_release() the thread returns, or goes to sleep in
      cond_wait() without the lock. */
  lemma GiveUpPlace(k: State, l: LockId, w: Option<CondId>)
    requires At(k, k.Cur(), GiveUp(l, w)) && PcOkAt(k, k.Cur()) && l in k.holder && k.holder[l] == None
    requires w.Some? ==> OfWaiter(k.Cur(), w.value) in k.semas
    ensures var p := if w.Some? then CondSleep(w.value) else User;
            PcOkAt(Goto(k, p), k.Cur()) && HoldOk(Goto(k, p), k.Cur())
  {
  }

  lemma WaiterHasSema(k: State, w: Tid, c: CondId)
    requires WaiterOk(k, w, c) && InWait(k, w, c)
    ensures OfWaiter(w, c) in k.semas
  {
  }

  lemma GiveUpKeepsInv(k: State, l: LockId, w: Option<CondId>)
    requires Inv(k) && At(k, k.Cur(), GiveUp(l, w))
    ensures OfLock(l) in k.semas
    ensures Inv(SemaUp(k, OfLock(l), if w.Some? then CondSleep(w.value) else User))
  {
    var p := if w.Some? then CondSleep(w.value) else User;
    GiveUpReady(k, l, w);
    UpKeepsCommon(k, OfLock(l), p);
    GiveUpKeepsLock(k, l, p);
    UpKeepsHold(k, OfLock(l), p);
    GiveUpKeepsCond(k, l, w);
  }

  // cond_signal(): the sema_up()

  lemma SignalStage(k: State, w: Tid, c: CondId, g: Option<nat>)
    requires HoldInv(k) && At(k, k.Cur(), SignalUp(w, c, g)) && WaiterOk(k, w, c)
    ensures Private(k, w, c, 0, 0) && WaiterOk(SemaUp(k, OfWaiter(w, c), AfterSignal(c, g)), w, c)
  {
    assert SignalsTo(k, k.Cur(), w, c);
    var k' := SemaUp(k, OfWaiter(w, c), AfterSignal(c, g));
    assert HoldOk(k, k.Cur());
    forall t ensures !SignalsTo(k', t, w, c) {
      if t != k.Cur() && SignalsTo(k, t, w, c) { OneAtCond(k, k.Cur(), t, w, c); }
    }
  }

  lemma SignalKeepsCond(k: State, w: Tid, c: CondId, g: Option<nat>)
    requires CondInv(k) && HoldInv(k) && At(k, k.Cur(), SignalUp(w, c, g)) && OfWaiter(w, c) in k.semas
    ensures CondInv(SemaUp(k, OfWaiter(w, c), AfterSignal(c, g)))
  {
    hide WaiterOk;
    var k' := SemaUp(k, OfWaiter(w, c), AfterSignal(c, g));
    assert WaiterOk(k, w, c);
    SignalStage(k, w, c, g);
    forall t ensures BroadcastOk(k', t) { assert BroadcastOk(k, t); }
    forall i | i in k'.queue ensures QueueOk(k', i) { assert QueueOk(k, i); }
    CondStep(k, k', w, c);
  }

  lemma SignalReady(k: State, w: Tid, c: CondId, g: Option<nat>)
    requires At(k, k.Cur(), SignalUp(w, c, g)) && PcOkAt(k, k.Cur()) && HoldOk(k, k.Cur())
    ensures OfWaiter(w, c) in k.semas
    ensures PcOkAt(Goto(k, AfterSignal(c, g)), k.Cur()) && HoldOk(Goto(k, AfterSignal(c, g)), k.Cur())
  {
  }

  lemma SignalKeepsInv(k: State, w: Tid, c: CondId, g: Option<nat>)
    requires Inv(k) && At(k, k.Cur(), SignalUp(w, c, g))
    ensures OfWaiter(w, c) in k.semas
    ensures Inv(SemaUp(k, OfWaiter(w, c), AfterSignal(c, g)))
  {
    hide PcOkAt, Wired, SemaInv, SemaOk, LockInv, HoldOk, CondInv, S.Inv;
    CurrentIsRunning(k);
    assert HoldOk(k, k.Cur());
    SignalReady(k, w, c, g);
    UpKeepsCommon(k, OfWaiter(w, c), AfterSignal(c, g));
    UpKeepsLock(k, OfWaiter(w, c), AfterSignal(c, g));
    UpKeepsHold(k, OfWaiter(w, c), AfterSignal(c, g));
    SignalKeepsCond(k, w, c, g);
  }

  // sema_down()

  /** What every sema_down() of the current thread keeps. */
  lemma DownKeepsCommon(k: State, s: SemaId)
    requires S.Inv(k.sched) && PcInv(k) && SemaInv(k) && s in k.semas && k.Cur() != k.sched.idler
    requires k.pc[k.Cur()].Down? ==> k.pc[k.Cur()].sema == s
    requires s.OfLock? ==> s.lock in k.holder
    requires s.OfWaiter? ==> s.thread == k.Cur() && s.cond in k.lockOf
    ensures S.HasNext(S.SetCurrent(k.sched, S.Blocked))
    ensures var k' := SemaDown(k, s); S.Inv(k'.sched) && PcInv(k') && SemaInv(k')
  {
    CanBlock(k);
    CurrentIsRunning(k);
    CurrentNotWaiting(k, s);
    DownKeepsSema(k, s);
    if k.semas[s].value > 0 {
      DownTakesKeepsPc(k, s);
    } else {
      S.BlockEffect(k.sched);
      DownBlocksKeepsPc(k, s, S.Block(k.sched));
    }
  }

  lemma CurrentNotWaiting(k: State, s: SemaId)
    requires S.Inv(k.sched) && PcInv(k) && SemaInv(k) && s in k.semas
    ensures k.Cur() !in k.semas[s].waiters
  {
    CurrentIsRunning(k);
    assert SemaOk(k, s);
  }

  /** The current thread may run one pass of sema_down() on s here. */
  ghost predicate Downable(k: State, s: SemaId) {
    && k.Cur() in k.pc && s in k.semas
    && match s
       case Plain(_) => k.pc[k.Cur()] == User || k.pc[k.Cur()] == Down(s)
       case OfLock(l) => l in k.holder && (k.pc[k.Cur()] == User || k.pc[k.Cur()] == Down(s) || k.pc[k.Cur()].CondWake?)
       case OfWaiter(t, c) =>
         t == k.Cur() && c in k.lockOf && (k.pc[k.Cur()] == CondSleep(c) || k.pc[k.Cur()] == Down(s))
  }

  lemma JoinKeepsLock(k: State, s: SemaId, sched: S.State)
    requires Wired(k) && LockInv(k) && Downable(k, s) && Wired(Join(k, s, sched))
    ensures LockInv(Join(k, s, sched))
  {
    StillKeepsLock(k, Join(k, s, sched));
  }

  lemma TakeUnitKeepsLock(k: State, s: SemaId)
    requires Wired(k) && LockInv(k) && Downable(k, s) && k.semas[s].value > 0 && Wired(TakeUnit(k, s))
    ensures LockInv(TakeUnit(k, s))
  {
    if s.OfLock? { LockStep(k, TakeUnit(k, s), s.lock); } else { StillKeepsLock(k, TakeUnit(k, s)); }
  }

  lemma JoinKeepsHold(k: State, s: SemaId, sched: S.State)
    requires HoldInv(k) && Downable(k, s)
    ensures HoldInv(Join(k, s, sched))
  {
    assert HoldOk(k, k.Cur());
    HoldStep(k, Join(k, s, sched));
  }

  lemma TakeUnitKeepsHold(k: State, s: SemaId)
    requires HoldInv(k) && Downable(k, s) && k.semas[s].value > 0
    ensures HoldInv(TakeUnit(k, s))
  {
    assert HoldOk(k, k.Cur());
    HoldStep(k, TakeUnit(k, s));
  }

  lemma JoinKeepsCond(k: State, s: SemaId, sched: S.State)
    requires CondInv(k) && Downable(k, s)
    ensures CondInv(Join(k, s, sched))
  {
    var k' := Join(k, s, sched);
    BroadcastFrame(k, k');
    StillKeepsCond(k, k');
  }

  lemma TakeSignalStage(k: State, c: CondId)
    requires WaiterOk(k, k.Cur(), c) && Downable(k, OfWaiter(k.Cur(), c)) && k.semas[OfWaiter(k.Cur(), c)].value > 0
    ensures WaiterOk(TakeUnit(k, OfWaiter(k.Cur(), c)), k.Cur(), c)
  {
    var w := k.Cur();
    SignalledOnce(k, w, c);
    var k' := TakeUnit(k, OfWaiter(w, c));
    forall t ensures !SignalsTo(k', t, w, c) {
      assert !SignalsTo(k, t, w, c);
    }
  }

  lemma TakeUnitKeepsCond(k: State, s: SemaId)
    requires CondInv(k) && Downable(k, s) && k.semas[s].value > 0
    ensures CondInv(TakeUnit(k, s))
  {
    var k' := TakeUnit(k, s);
    BroadcastFrame(k, k');
    if s.OfWaiter? {
      assert WaiterOk(k, s.thread, s.cond);
      TakeSignalStage(k, s.cond);
      forall i | i in k'.queue ensures QueueOk(k', i) { assert QueueOk(k, i); }
      CondStep(k, k', s.thread, s.cond);
    } else {
      QuietKeepsCond(k, k');
    }
  }

  lemma DownKeepsInv(k: State, s: SemaId)
    requires Inv(k) && k.Cur() != k.sched.idler && Downable(k, s)
    ensures S.HasNext(S.SetCurrent(k.sched, S.Blocked)) && Inv(SemaDown(k, s))
  {
    CurrentIsRunning(k);
    DownKeepsCommon(k, s);
    if k.semas[s].value == 0 {
      JoinKeepsLock(k, s, S.Block(k.sched));
      JoinKeepsHold(k, s, S.Block(k.sched));
      JoinKeepsCond(k, s, S.Block(k.sched));
    } else {
      TakeUnitKeepsLock(k, s);
      TakeUnitKeepsHold(k, s);
      TakeUnitKeepsCond(k, s);
    }
  }

  // lock_acquire(): holder = current;  lock_release(): holder = NULL

  lemma SetHolderKeepsCond(k: State, l: LockId, h: Option<Tid>, p: Pc)
    requires CondInv(k) && k.Cur() in k.pc
    requires (p == User && k.pc[k.Cur()] == TakeHolder(l)) || (p == GiveUp(l, None) && k.pc[k.Cur()] == User)
          || (p.GiveUp? && p.wait.Some? && k.pc[k.Cur()] == CondRelease(p.wait.value))
    ensures CondInv(SetHolder(k, l, h, p))
  {
    var k' := SetHolder(k, l, h, p);
    BroadcastFrame(k, k');
    StillKeepsCond(k, k');
  }

  lemma SetHolderKeepsLock(k: State, l: LockId, h: Option<Tid>, p: Pc)
    requires Wired(k) && LockInv(k) && l in k.holder && k.Cur() in k.pc
    requires (h.Some? && k.holder[l] == None && k.pc[k.Cur()] == TakeHolder(l) && p == User)
          || (h == None && k.holder[l].Some? && p.GiveUp? && p.lock == l
              && (k.pc[k.Cur()].User? || k.pc[k.Cur()].CondRelease?))
    requires Wired(SetHolder(k, l, h, p))
    ensures LockInv(SetHolder(k, l, h, p))
  {
    LockStep(k, SetHolder(k, l, h, p), l);
  }

  lemma SetHolderKeepsHold(k: State, l: LockId, h: Option<Tid>, p: Pc)
    requires HoldInv(k) && l in k.holder && k.Cur() in k.pc && (p == User || p.GiveUp?)
    requires h == None || h == Some(k.Cur())
    requires k.holder[l] == None || k.holder[l] == Some(k.Cur())
    ensures HoldInv(SetHolder(k, l, h, p))
  {
    HoldStep(k, SetHolder(k, l, h, p));
  }

  lemma SetHolderKeepsSema(k: State, l: LockId, h: Option<Tid>, p: Pc)
    requires SemaInv(k) && k.Cur() in k.pc && !k.pc[k.Cur()].Down? && !p.Down?
    ensures SemaInv(SetHolder(k, l, h, p))
  {
    StillKeepsSema(k, SetHolder(k, l, h, p));
  }

  lemma TakeHolderKeepsInv(k: State, l: LockId)
    requires Inv(k) && At(k, k.Cur(), TakeHolder(l))
    ensures Inv(SetHolder(k, l, Some(k.Cur()), User))
  {
    hide PcOkAt, Wired, SemaInv, LockInv, HoldInv, CondInv, S.Inv;
    CurrentIsRunning(k);
    TakeHolderAlone(k, l);
    TakeHolderReady(k, l);
    SetHolderKeepsPc(k, l, Some(k.Cur()), User);
    SetHolderKeepsSema(k, l, Some(k.Cur()), User);
    SetHolderKeepsLock(k, l, Some(k.Cur()), User);
    SetHolderKeepsHold(k, l, Some(k.Cur()), User);
    SetHolderKeepsCond(k, l, Some(k.Cur()), User);
  }

  lemma TakeHolderReady(k: State, l: LockId)
    requires Wired(k) && At(k, k.Cur(), TakeHolder(l)) && PcOkAt(k, k.Cur())
    ensures PcOkAt(Goto(k, User), k.Cur()) && Wired(SetHolder(k, l, Some(k.Cur()), User))
  {
  }

  lemma TakeHolderAlone(k: State, l: LockId)
    requires PcInv(k) && LockInv(k) && At(k, k.Cur(), TakeHolder(l))
    ensures l in k.holder && k.holder[l] == None && k.semas[OfLock(l)].value == 0
  {
    assert PcOkAt(k, k.Cur()) && LockOk(k, l);
    InsideLockAlone(k, l, k.Cur());
  }

  lemma ClearReady(k: State, l: LockId, p: Pc)
    requires Wired(k) && l in k.holder && k.Cur() in k.pc && PcOkAt(k, k.Cur())
    requires (p == GiveUp(l, None) && k.pc[k.Cur()] == User && Runnable(k, k.Cur()))
          || (p.GiveUp? && p.lock == l && p.wait.Some? && k.pc[k.Cur()] == CondRelease(p.wait.value)
              && p.wait.value in k.lockOf && k.lockOf[p.wait.value] == l)
    ensures PcOkAt(Goto(k, p), k.Cur()) && Wired(SetHolder(k, l, None, p))
  {
  }

  lemma ClearHolderKeepsInv(k: State, l: LockId, p: Pc)
    requires Inv(k) && Holds(k, l) && k.Cur() in k.pc
    requires (p == GiveUp(l, None) && k.pc[k.Cur()] == User)
          || (p.GiveUp? && p.lock == l && p.wait.Some? && k.pc[k.Cur()] == CondRelease(p.wait.value)
              && p.wait.value in k.lockOf && k.lockOf[p.wait.value] == l)
    ensures Inv(SetHolder(k, l, None, p))
  {
    hide PcOkAt, Wired, SemaInv, LockInv, HoldInv, CondInv, S.Inv;
    CurrentIsRunning(k);
    ClearReady(k, l, p);
    SetHolderKeepsPc(k, l, None, p);
    SetHolderKeepsSema(k, l, None, p);
    SetHolderKeepsLock(k, l, None, p);
    SetHolderKeepsHold(k, l, None, p);
    SetHolderKeepsCond(k, l, None, p);
  }

  // cond_wait(): queueing

  lemma NobodySignals(k: State, c: CondId)
    requires HoldInv(k) && HoldsFor(k, c) && At(k, k.Cur(), User)
    ensures forall t, w :: !SignalsTo(k, t, w, c)
    ensures forall t :: t in k.pc && k.pc[t].Broadcast? ==> k.pc[t].cond != c
  {
    forall t, w ensures !SignalsTo(k, t, w, c) {
      if t in k.pc { assert HoldOk(k, t); }
    }
    forall t | t in k.pc && k.pc[t].Broadcast? ensures k.pc[t].cond != c {
      assert HoldOk(k, t);
    }
  }

  lemma EnqueueKeepsBroadcast(k: State, c: CondId)
    requires HoldInv(k) && CondInv(k) && HoldsFor(k, c) && At(k, k.Cur(), User) && c in k.queue && c in k.enqueued
    ensures forall t :: BroadcastOk(Enqueue(k, c), t)
  {
    NobodySignals(k, c);
    forall t ensures BroadcastOk(Enqueue(k, c), t) {
      assert BroadcastOk(k, t);
      if t in k.pc && k.pc[t].SignalUp? {
        assert SignalsTo(k, t, k.pc[t].waiter, k.pc[t].cond);
      }
    }
  }

  lemma EnqueueKeepsQueue(k: State, c: CondId, i: CondId)
    requires QueueOk(k, i) && At(k, k.Cur(), User) && c in k.queue && c in k.enqueued && WaiterOk(k, k.Cur(), c)
    ensures QueueOk(Enqueue(k, c), i)
  {
  }

  lemma EnqueueKeepsCond(k: State, c: CondId)
    requires HoldInv(k) && CondInv(k) && HoldsFor(k, c) && At(k, k.Cur(), User) && c in k.queue && c in k.enqueued
    ensures CondInv(Enqueue(k, c))
  {
    var k' := Enqueue(k, c);
    assert WaiterOk(k, k.Cur(), c);
    NobodySignals(k, c);
    EnqueueKeepsBroadcast(k, c);
    forall i | i in k'.queue ensures QueueOk(k', i) {
      assert QueueOk(k, i);
      EnqueueKeepsQueue(k, c, i);
    }
    hide QueueOk, BroadcastOk, HoldOk;
    EnqueueStage(k, c);
    CondStep(k, k', k.Cur(), c);
  }

  lemma EnqueueStage(k: State, c: CondId)
    requires At(k, k.Cur(), User) && c in k.queue && c in k.enqueued
    requires forall t :: !SignalsTo(k, t, k.Cur(), c)
    ensures WaiterOk(Enqueue(k, c), k.Cur(), c)
    ensures forall w: Tid, i: CondId :: w != k.Cur() || i != c ==> SameStage(k, Enqueue(k, c), w, i)
  {
    forall t ensures !SignalsTo(Enqueue(k, c), t, k.Cur(), c) {
      assert !SignalsTo(k, t, k.Cur(), c);
    }
  }

  lemma EnqueueKeepsSema(k: State, c: CondId)
    requires SemaInv(k) && At(k, k.Cur(), User) && c in k.queue && c in k.enqueued
    ensures SemaInv(Enqueue(k, c))
  {
    hide SemaInv;
    NewSemaKeepsSema(k, Enqueue(k, c), OfWaiter(k.Cur(), c));
  }

  lemma EnqueueKeepsLock(k: State, c: CondId)
    requires Wired(k) && LockInv(k) && At(k, k.Cur(), User) && c in k.queue && c in k.enqueued
    requires Wired(Enqueue(k, c))
    ensures LockInv(Enqueue(k, c))
  {
    hide LockInv;
    StillKeepsLock(k, Enqueue(k, c));
  }

  lemma EnqueueKeepsHold(k: State, c: CondId)
    requires HoldInv(k) && HoldsFor(k, c) && At(k, k.Cur(), User) && c in k.queue && c in k.enqueued
    ensures HoldInv(Enqueue(k, c))
  {
    HoldStep(k, Enqueue(k, c));
  }

  lemma EnqueueKeepsInv(k: State, c: CondId)
    requires Inv(k) && HoldsFor(k, c) && At(k, k.Cur(), User)
    ensures Inv(Enqueue(k, c))
  {
    CurrentIsRunning(k);
    EnqueueKeepsPc(k, c);
    EnqueueKeepsSema(k, c);
    EnqueueKeepsLock(k, c);
    EnqueueKeepsHold(k, c);
    EnqueueKeepsCond(k, c);
  }

  // cond_signal() and cond_broadcast(): popping

  lemma GotoKeepsRest(k: State, p: Pc)
    requires Wired(k) && SemaInv(k) && LockInv(k) && HoldInv(k) && k.Cur() in k.pc
    requires p.User? || p.Broadcast? || p.IdleUp?
    requires k.pc[k.Cur()].User? || k.pc[k.Cur()].Broadcast? || k.pc[k.Cur()].IdleStart? || k.pc[k.Cur()].Creating?
    requires HoldOk(Goto(k, p), k.Cur()) && Wired(Goto(k, p))
    ensures SemaInv(Goto(k, p)) && LockInv(Goto(k, p)) && HoldInv(Goto(k, p))
  {
    StillKeepsSema(k, Goto(k, p));
    StillKeepsLock(k, Goto(k, p));
    HoldStep(k, Goto(k, p));
  }

  lemma GotoKeepsCond(k: State, p: Pc)
    requires CondInv(k) && k.Cur() in k.pc
    requires p.User? || p.IdleUp? || (p.Broadcast? && p.cond in k.enqueued && p.target == |k.enqueued[p.cond]|)
    requires k.pc[k.Cur()].User? || k.pc[k.Cur()].Broadcast? || k.pc[k.Cur()].IdleStart? || k.pc[k.Cur()].Creating?
    ensures CondInv(Goto(k, p))
  {
    forall t ensures BroadcastOk(Goto(k, p), t) { assert BroadcastOk(k, t); }
    QuietKeepsCond(k, Goto(k, p));
  }

  lemma GotoKeepsInv(k: State, p: Pc)
    requires Inv(k) && k.Cur() in k.pc
    requires p.User? || p.IdleUp? || (p.Broadcast? && p.cond in k.enqueued && p.target == |k.enqueued[p.cond]|)
    requires k.pc[k.Cur()].User? || k.pc[k.Cur()].Broadcast? || k.pc[k.Cur()].IdleStart? || k.pc[k.Cur()].Creating?
    requires PcOkAt(Goto(k, p), k.Cur()) && HoldOk(Goto(k, p), k.Cur())
    ensures Inv(Goto(k, p))
  {
    GotoKeepsPc(k, p);
    GotoKeepsRest(k, p);
    GotoKeepsCond(k, p);
  }

  /** Where the current thread can call cond_signal(): on its own, or in the loop
      of cond_broadcast(). */
  ghost predicate Signalling(k: State, c: CondId, goal: Option<nat>) {
    && HoldsFor(k, c) && c in k.queue && c in k.woken
    && ((At(k, k.Cur(), User) && goal == None) || (goal.Some? && At(k, k.Cur(), Broadcast(c, goal.value))))
  }

  lemma PopKeepsQueue(k: State, c: CondId, goal: Option<nat>, i: CondId)
    requires QueueOk(k, i) && Signalling(k, c, goal) && k.queue[c] != []
    ensures QueueOk(PopWaiter(k, c, goal, User), i)
  {
    if i == c {
      PopFront(k.queue[c]);
      var k' := PopWaiter(k, c, goal, User);
      assert k.enqueued[c] == k'.woken[c] + k'.queue[c];
    }
  }

  lemma PopStage(k: State, c: CondId, goal: Option<nat>)
    requires Signalling(k, c, goal) && k.queue[c] != [] && NoDup(k.queue[c]) && WaiterOk(k, k.queue[c][0], c)
    ensures WaiterOk(PopWaiter(k, c, goal, User), k.queue[c][0], c)
  {
    var w := k.queue[c][0];
    PopFront(k.queue[c]);
    assert Queued(k, w, c);
    assert SignalsTo(PopWaiter(k, c, goal, User), k.Cur(), w, c);
  }

  lemma PopSameStage(k: State, c: CondId, goal: Option<nat>, w: Tid, i: CondId)
    requires Signalling(k, c, goal) && k.queue[c] != [] && NoDup(k.queue[c])
    requires w != k.queue[c][0] || i != c
    ensures SameStage(k, PopWaiter(k, c, goal, User), w, i)
  {
    PopFront(k.queue[c]);
  }

  lemma PopKeepsCond(k: State, c: CondId, goal: Option<nat>)
    requires CondInv(k) && Signalling(k, c, goal) && k.queue[c] != []
    ensures CondInv(PopWaiter(k, c, goal, User))
  {
    var k' := PopWaiter(k, c, goal, User);
    assert QueueOk(k, c);
    assert WaiterOk(k, k.queue[c][0], c);
    PopStage(k, c, goal);
    forall i | i in k'.queue ensures QueueOk(k', i) {
      assert QueueOk(k, i);
      PopKeepsQueue(k, c, goal, i);
    }
    forall t ensures BroadcastOk(k', t) { assert BroadcastOk(k, t) && BroadcastOk(k, k.Cur()); }
    forall w: Tid, i: CondId | w != k.queue[c][0] || i != c ensures SameStage(k, k', w, i) {
      PopSameStage(k, c, goal, w, i);
    }
    CondStep(k, k', k.queue[c][0], c);
  }

  lemma PopKeepsSema(k: State, c: CondId, goal: Option<nat>)
    requires SemaInv(k) && Signalling(k, c, goal) && k.queue[c] != []
    ensures SemaInv(PopWaiter(k, c, goal, User))
  {
    hide SemaInv;
    StillKeepsSema(k, PopWaiter(k, c, goal, User));
  }

  lemma PopKeepsLock(k: State, c: CondId, goal: Option<nat>)
    requires Wired(k) && LockInv(k) && Signalling(k, c, goal) && k.queue[c] != []
    requires Wired(PopWaiter(k, c, goal, User))
    ensures LockInv(PopWaiter(k, c, goal, User))
  {
    hide LockInv;
    StillKeepsLock(k, PopWaiter(k, c, goal, User));
  }

  lemma PopKeepsSemaLock(k: State, c: CondId, goal: Option<nat>)
    requires Wired(k) && SemaInv(k) && LockInv(k) && Signalling(k, c, goal) && k.queue[c] != []
    requires Wired(PopWaiter(k, c, goal, User))
    ensures var k' := PopWaiter(k, c, goal, User); SemaInv(k') && LockInv(k')
  {
    hide SemaInv, LockInv, Wired;
    PopKeepsSema(k, c, goal);
    PopKeepsLock(k, c, goal);
  }

  lemma PopKeepsHold(k: State, c: CondId, goal: Option<nat>)
    requires HoldInv(k) && Signalling(k, c, goal) && k.queue[c] != []
    ensures HoldInv(PopWaiter(k, c, goal, User))
  {
    HoldStep(k, PopWaiter(k, c, goal, User));
  }

  lemma PopKeepsInv(k: State, c: CondId, goal: Option<nat>)
    requires Inv(k) && Signalling(k, c, goal)
    ensures Inv(PopWaiter(k, c, goal, User))
  {
    CurrentIsRunning(k);
    if k.queue[c] == [] {
      GotoKeepsInv(k, User);
    } else {
      assert Queued(k, k.queue[c][0], c) && WaiterOk(k, k.queue[c][0], c);
      PopKeepsPc(k, c, goal);
      PopKeepsSemaLock(k, c, goal);
      PopKeepsHold(k, c, goal);
      PopKeepsCond(k, c, goal);
    }
  }

  // thread_create() and idle()

  lemma StartChildKeepsPc(k: State, u: Tid)
    requires PcInv(k) && At(k, k.Cur(), Creating(u)) && PcOkAt(k, k.Cur())
    ensures PcInv(StartChild(k, u))
  {
    var k' := StartChild(k, u);
    assert PcOkAt(k, u);
    forall t | t in k'.pc ensures PcOkAt(k', t) {
      assert PcOkAt(k, t);
    }
  }

  lemma StartChildKeepsRest(k: State, u: Tid)
    requires Wired(k) && SemaInv(k) && LockInv(k) && At(k, k.Cur(), Creating(u)) && At(k, u, Nascent)
    requires Wired(StartChild(k, u))
    ensures SemaInv(StartChild(k, u)) && LockInv(StartChild(k, u))
  {
    StillKeepsSema(k, StartChild(k, u));
    StillKeepsLock(k, StartChild(k, u));
  }

  lemma StartChildKeepsHoldCond(k: State, u: Tid)
    requires HoldInv(k) && CondInv(k) && At(k, k.Cur(), Creating(u)) && At(k, u, Nascent)
    ensures HoldInv(StartChild(k, u)) && CondInv(StartChild(k, u))
  {
    var k' := StartChild(k, u);
    forall t | t in k'.pc ensures HoldOk(k', t) {
      if t != k.Cur() && t != u { assert HoldOk(k, t); }
    }
    BroadcastFrame(k, k');
    QuietKeepsCond(k, k');
  }

  lemma StartChildReady(k: State, u: Tid)
    requires PcInv(k) && At(k, k.Cur(), Creating(u))
    ensures PcOkAt(k, k.Cur()) && At(k, u, Nascent) && S.Enabled(k.sched, S.DoUnblock(u))
    ensures Wired(k) && Wired(StartChild(k, u))
  {
    assert PcOkAt(k, k.Cur());
    assert PcOkAt(k, u);
  }

  lemma StartChildKeepsInv(k: State, u: Tid)
    requires Inv(k) && At(k, k.Cur(), Creating(u))
    ensures Inv(StartChild(k, u))
  {
    hide SemaInv, LockInv, HoldInv, CondInv, S.Inv, Wired;
    StartChildReady(k, u);
    S.ApplyKeepsInv(k.sched, S.DoUnblock(u));
    hide PcInv, PcOkAt;
    StartChildKeepsPc(k, u);
    StartChildKeepsRest(k, u);
    StartChildKeepsHoldCond(k, u);
  }

  lemma NewChildKeepsPc(k: State, u: Tid)
    requires PcInv(k) && At(k, k.Cur(), User) && Runnable(k, k.Cur()) && u !in k.pc && k.Cur() != k.sched.idler
    requires k.sched.idler in k.pc
    ensures PcInv(NewChild(k, u))
  {
    hide PcOkAt, Undisturbed;
    NewChildPlaces(k, u);
    NewChildUndisturbed(k, u);
    PcStep(k, NewChild(k, u), u);
  }

  lemma NewChildPlaces(k: State, u: Tid)
    requires PcInv(k) && At(k, k.Cur(), User) && Runnable(k, k.Cur()) && u !in k.pc && k.Cur() != k.sched.idler
    requires k.sched.idler in k.pc
    ensures PcOkAt(NewChild(k, u), u) && PcOkAt(NewChild(k, u), k.Cur())
  {
  }

  lemma NewChildUndisturbed(k: State, u: Tid)
    requires PcInv(k) && At(k, k.Cur(), User) && u !in k.pc
    ensures forall t :: t in k.pc && t != k.Cur() ==> Undisturbed(k, NewChild(k, u), t)
  {
    hide PcOkAt;
    NascentStays(k, NewChild(k, u));
  }

  lemma NewChildKeepsRest(k: State, u: Tid)
    requires Wired(k) && SemaInv(k) && LockInv(k) && At(k, k.Cur(), User) && u !in k.pc && Wired(NewChild(k, u))
    ensures SemaInv(NewChild(k, u)) && LockInv(NewChild(k, u))
  {
    StillKeepsSema(k, NewChild(k, u));
    StillKeepsLock(k, NewChild(k, u));
  }

  lemma NewChildKeepsHoldCond(k: State, u: Tid)
    requires HoldInv(k) && CondInv(k) && At(k, k.Cur(), User) && u !in k.pc
    ensures HoldInv(NewChild(k, u)) && CondInv(NewChild(k, u))
  {
    var k' := NewChild(k, u);
    forall t | t in k'.pc ensures HoldOk(k', t) {
      if t != k.Cur() && t != u { assert HoldOk(k, t); }
    }
    BroadcastFrame(k, k');
    QuietKeepsCond(k, k');
  }

  lemma NewChildKeepsInv(k: State, u: Tid)
    requires Inv(k) && At(k, k.Cur(), User) && Callable(k, Create(u))
    ensures Inv(NewChild(k, u))
  {
    CurrentIsRunning(k);
    S.ApplyKeepsInv(k.sched, S.DoCreate(u));
    NewChildKeepsPc(k, u);
    NewChildKeepsRest(k, u);
    NewChildKeepsHoldCond(k, u);
  }

  lemma ExitKeepsPc(k: State, sched: S.State)
    requires PcInv(k) && At(k, k.Cur(), User) && k.Cur() != k.sched.idler
    requires S.SameNames(k.sched, sched) && !S.IsBlocked(sched, k.Cur())
    requires k.Cur() in sched.status <==> k.Cur() == k.sched.initial
    requires forall t :: t != k.Cur() ==> S.SameThread(k.sched, sched, t)
    ensures PcInv(Gone(k, sched))
  {
    hide PcOkAt, Undisturbed, S.SameThread;
    ExitWired(k, sched);
    ExitUndisturbed(k, sched);
    ExitKeepsCurrent(k, sched);
    PcStep(k, Gone(k, sched), k.Cur());
  }

  lemma ExitWired(k: State, sched: S.State)
    requires Wired(k) && k.Cur() in k.pc
    requires k.Cur() in sched.status <==> k.Cur() == k.sched.initial
    requires forall t :: t != k.Cur() ==> S.SameThread(k.sched, sched, t)
    ensures Wired(Gone(k, sched))
  {
    forall t ensures t in Gone(k, sched).pc <==> t in sched.status {
      if t != k.Cur() { assert S.SameThread(k.sched, sched, t); }
    }
  }

  lemma ExitUndisturbed(k: State, sched: S.State)
    requires PcInv(k) && At(k, k.Cur(), User) && S.SameNames(k.sched, sched)
    requires forall t :: t != k.Cur() ==> S.SameThread(k.sched, sched, t)
    ensures forall t :: t in k.pc && t != k.Cur() ==> Undisturbed(k, Gone(k, sched), t)
  {
    hide PcOkAt, S.SameThread;
    NascentStays(k, Gone(k, sched));
  }

  lemma ExitKeepsCurrent(k: State, sched: S.State)
    requires At(k, k.Cur(), User) && k.Cur() != k.sched.idler && S.SameNames(k.sched, sched)
    requires !S.IsBlocked(sched, k.Cur()) && (k.Cur() in sched.status <==> k.Cur() == k.sched.initial)
    ensures k.Cur() in Gone(k, sched).pc ==> PcOkAt(Gone(k, sched), k.Cur())
  {
  }

  lemma ExitKeepsRest(k: State, sched: S.State)
    requires Wired(k) && SemaInv(k) && LockInv(k) && At(k, k.Cur(), User) && Wired(Gone(k, sched))
    ensures SemaInv(Gone(k, sched)) && LockInv(Gone(k, sched))
  {
    StillKeepsSema(k, Gone(k, sched));
    StillKeepsLock(k, Gone(k, sched));
  }

  lemma ExitKeepsHoldCond(k: State, sched: S.State)
    requires HoldInv(k) && CondInv(k) && At(k, k.Cur(), User)
    ensures HoldInv(Gone(k, sched)) && CondInv(Gone(k, sched))
  {
    var k' := Gone(k, sched);
    forall t | t in k'.pc ensures HoldOk(k', t) { assert HoldOk(k, t); }
    BroadcastFrame(k, k');
    QuietKeepsCond(k, k');
  }

  lemma ExitKeepsInv(k: State)
    requires Inv(k) && At(k, k.Cur(), User)
    ensures S.Enabled(k.sched, S.DoExit) && Inv(Gone(k, S.Apply(k.sched, S.DoExit)))
  {
    CurrentIsRunning(k);
    S.ApplyKeepsInv(k.sched, S.DoExit);
    S.ExitEffect(k.sched);
    var sched := S.Apply(k.sched, S.DoExit);
    ExitKeepsPc(k, sched);
    ExitKeepsRest(k, sched);
    ExitKeepsHoldCond(k, sched);
  }

  lemma IdleBlocksKeepsInv(k: State)
    requires Inv(k) && At(k, k.Cur(), IdleLoop)
    ensures S.Enabled(k.sched, S.DoBlock) && Inv(k.(sched := S.Apply(k.sched, S.DoBlock)))
  {
    CurrentIsRunning(k);
    S.ApplyKeepsInv(k.sched, S.DoBlock);
    S.BlockEffect(k.sched);
    IdleBlocksKeepsPc(k, S.Apply(k.sched, S.DoBlock));
    IdleBlocksKeepsRest(k, S.Apply(k.sched, S.DoBlock));
  }

  lemma IdleBlocksKeepsPc(k: State, sched: S.State)
    requires PcInv(k) && At(k, k.Cur(), IdleLoop) && S.SameNames(k.sched, sched)
    requires S.IsBlocked(sched, k.Cur()) || S.IsRunnable(sched, k.Cur())
    requires forall t :: t != k.Cur() ==> S.SameThread(k.sched, sched, t)
    ensures PcInv(k.(sched := sched))
  {
    var k' := k.(sched := sched);
    forall t ensures t in k'.pc <==> t in k'.sched.status {
      if t != k.Cur() { assert S.SameThread(k.sched, sched, t); }
    }
    forall t | t in k'.pc ensures PcOkAt(k', t) {
      assert PcOkAt(k, t);
      if t != k.Cur() { assert S.SameThread(k.sched, sched, t); }
    }
  }

  lemma IdleBlocksKeepsRest(k: State, sched: S.State)
    requires Inv(k) && Wired(k.(sched := sched))
    ensures var k' := k.(sched := sched); SemaInv(k') && LockInv(k') && HoldInv(k') && CondInv(k')
  {
    StillKeepsSema(k, k.(sched := sched));
    StillKeepsLock(k, k.(sched := sched));
    SwitchKeepsHold(k, sched);
    SwitchKeepsCond(k, sched);
  }

  lemma RegisterKeepsPc(k: State)
    requires PcInv(k) && At(k, k.Cur(), IdleStart) && Runnable(k, k.Cur())
    ensures PcInv(Registered(k))
  {
    forall t | t in Registered(k).pc ensures PcOkAt(Registered(k), t) { assert PcOkAt(k, t) && PcOkAt(k, k.Cur()); }
  }

  lemma RegisterKeepsRest(k: State)
    requires Wired(k) && SemaInv(k) && LockInv(k) && HoldInv(k) && CondInv(k) && At(k, k.Cur(), IdleStart)
    requires Wired(Registered(k))
    ensures SemaInv(Registered(k)) && LockInv(Registered(k)) && HoldInv(Registered(k)) && CondInv(Registered(k))
  {
    var k1 := Goto(k, IdleUp);
    GotoKeepsRest(k, IdleUp);
    GotoKeepsCond(k, IdleUp);
    StillKeepsSema(k1, Registered(k));
    StillKeepsLock(k1, Registered(k));
    SwitchKeepsHold(k1, Registered(k).sched);
    SwitchKeepsCond(k1, Registered(k).sched);
  }

  lemma RegisterKeepsInv(k: State)
    requires Inv(k) && At(k, k.Cur(), IdleStart)
    ensures S.Enabled(k.sched, S.RegisterIdle) && Inv(Registered(k))
    ensures Registered(k).sched == S.Apply(k.sched, S.RegisterIdle)
  {
    CurrentIsRunning(k);
    S.ApplyKeepsInv(k.sched, S.RegisterIdle);
    RegisterKeepsPc(k);
    RegisterKeepsRest(k);
  }

  // sema_init(), lock_init(), cond_init()

  lemma AddSemaKeepsPc(k: State, s: SemaId, v: nat)
    requires PcInv(k) && s !in k.semas
    ensures PcInv(AddSema(k, s, v))
  {
    forall t | t in k.pc ensures PcOkAt(AddSema(k, s, v), t) { assert PcOkAt(k, t); }
  }

  lemma AddSemaKeepsHoldCond(k: State, s: SemaId, v: nat)
    requires HoldInv(k) && CondInv(k) && s !in k.semas && s.Plain?
    ensures HoldInv(AddSema(k, s, v)) && CondInv(AddSema(k, s, v))
  {
    var k' := AddSema(k, s, v);
    forall t | t in k'.pc ensures HoldOk(k', t) { assert HoldOk(k, t); }
    BroadcastFrame(k, k');
    QuietKeepsCond(k, k');
  }

  lemma AddSemaKeepsInv(k: State, s: SemaId, v: nat)
    requires Inv(k) && s !in k.semas && s.Plain?
    ensures Inv(AddSema(k, s, v))
  {
    AddSemaKeepsPc(k, s, v);
    NewSemaKeepsSema(k, AddSema(k, s, v), s);
    StillKeepsLock(k, AddSema(k, s, v));
    AddSemaKeepsHoldCond(k, s, v);
  }

  lemma AddLockKeepsPc(k: State, l: LockId)
    requires PcInv(k) && l !in k.holder
    ensures PcInv(AddLock(k, l))
  {
    forall t | t in k.pc ensures PcOkAt(AddLock(k, l), t) { assert PcOkAt(k, t); }
  }

  lemma AddLockKeepsLock(k: State, l: LockId)
    requires PcInv(k) && LockInv(k) && l !in k.holder && Wired(AddLock(k, l))
    ensures LockInv(AddLock(k, l))
  {
    var k' := AddLock(k, l);
    forall i | i in k'.holder ensures LockOk(k', i) {
      if i == l {
        forall t | t in k.pc ensures !AtLock(k.pc[t], l) { assert PcOkAt(k, t); }
        assert Between(k', l) == {};
      } else {
        LockFrame(k, k', i);
      }
    }
  }

  lemma AddLockKeepsHold(k: State, l: LockId)
    requires HoldInv(k) && l !in k.holder
    ensures HoldInv(AddLock(k, l))
  {
    forall t | t in k.pc ensures HoldOk(AddLock(k, l), t) { assert HoldOk(k, t); }
  }

  lemma AddLockKeepsCond(k: State, l: LockId)
    requires CondInv(k) && l !in k.holder
    ensures CondInv(AddLock(k, l))
  {
    BroadcastFrame(k, AddLock(k, l));
    QuietKeepsCond(k, AddLock(k, l));
  }

  lemma AddLockKeepsInv(k: State, l: LockId)
    requires Inv(k) && l !in k.holder
    ensures Inv(AddLock(k, l))
  {
    AddLockKeepsPc(k, l);
    NewSemaKeepsSema(k, AddLock(k, l), OfLock(l));
    AddLockKeepsLock(k, l);
    AddLockKeepsHold(k, l);
    AddLockKeepsCond(k, l);
  }

  lemma AddCondKeepsPc(k: State, c: CondId, l: LockId)
    requires PcInv(k) && c !in k.lockOf && l in k.holder
    ensures PcInv(AddCond(k, c, l))
  {
    forall t | t in k.pc ensures PcOkAt(AddCond(k, c, l), t) { assert PcOkAt(k, t); }
  }

  lemma AddCondKeepsHold(k: State, c: CondId, l: LockId)
    requires PcInv(k) && HoldInv(k) && c !in k.lockOf
    ensures HoldInv(AddCond(k, c, l))
  {
    forall t | t in k.pc ensures HoldOk(AddCond(k, c, l), t) { assert PcOkAt(k, t) && HoldOk(k, t); }
  }

  lemma AddCondKeepsCond(k: State, c: CondId, l: LockId)
    requires CondInv(k) && c !in k.enqueued && c !in k.queue
    ensures CondInv(AddCond(k, c, l))
  {
    var k' := AddCond(k, c, l);
    forall w, i ensures WaiterOk(k', w, i) {
      assert WaiterOk(k, w, i);
      QuietStage(k, k', w, i);
      StageFrame(k, k', w, i);
    }
    forall i | i in k'.queue ensures QueueOk(k', i) { if i != c { assert QueueOk(k, i); } }
    forall t ensures BroadcastOk(k', t) { assert BroadcastOk(k, t); }
  }

  lemma AddCondKeepsInv(k: State, c: CondId, l: LockId)
    requires Inv(k) && c !in k.lockOf && l in k.holder
    ensures Inv(AddCond(k, c, l))
  {
    AddCondKeepsPc(k, c, l);
    StillKeepsSema(k, AddCond(k, c, l));
    StillKeepsLock(k, AddCond(k, c, l));
    AddCondKeepsHold(k, c, l);
    AddCondKeepsCond(k, c, l);
  }

  // ---------------------------------------------------------------------

  /** The current thread goes on inside the semaphore or lock code ... */
  lemma ContinueLockKeepsInv(k: State)
    requires Inv(k) && k.Cur() in k.pc && PcOkAt(k, k.Cur())
    requires k.pc[k.Cur()].Down? || k.pc[k.Cur()].TakeHolder? || k.pc[k.Cur()].GiveUp?
    ensures Inv(Continue(k))
  {
    hide PcInv, SemaInv, LockInv, HoldInv, CondInv, S.Inv;
    match k.pc[k.Cur()]
    case Down(s) => DownKeepsInv(k, s);
    case TakeHolder(l) => TakeHolderKeepsInv(k, l);
    case GiveUp(l, w) => GiveUpKeepsInv(k, l, w);
  }

  lemma IdleUpKeepsInv(k: State)
    requires Inv(k) && At(k, k.Cur(), IdleUp)
    ensures Plain(0) in k.semas && Inv(SemaUp(k, Plain(0), IdleLoop))
  {
    hide PcOkAt, SemaInv, LockInv, HoldInv, CondInv, S.Inv;
    UpPlainKeepsInv(k, 0, IdleLoop);
  }

  /** ... or creates a thread, or is the idle thread ... */
  lemma ContinueIdleKeepsInv(k: State)
    requires Inv(k) && k.Cur() in k.pc && PcOkAt(k, k.Cur())
    requires var p := k.pc[k.Cur()]; p.Creating? || p.IdleStart? || p.IdleUp? || p.IdleLoop?
    ensures Inv(Continue(k))
  {
    hide PcInv, PcOkAt, SemaInv, LockInv, HoldInv, CondInv, S.Inv;
    match k.pc[k.Cur()]
    case Creating(u) => StartChildKeepsInv(k, u);
    case IdleStart => RegisterKeepsInv(k);
    case IdleUp => IdleUpKeepsInv(k);
    case IdleLoop => IdleBlocksKeepsInv(k);
  }

  /** ... or inside the condition-variable code. */
  lemma ContinueCondKeepsInv(k: State)
    requires Inv(k) && k.Cur() in k.pc && PcOkAt(k, k.Cur()) && HoldOk(k, k.Cur())
    requires var p := k.pc[k.Cur()]; p.CondRelease? || p.SignalUp? || p.Broadcast?
    ensures Inv(Continue(k))
  {
    hide SemaInv, LockInv, HoldInv, CondInv, S.Inv;
    match k.pc[k.Cur()]
    case CondRelease(c) => ClearHolderKeepsInv(k, k.lockOf[c], GiveUp(k.lockOf[c], Some(c)));
    case SignalUp(w, c, g) => SignalKeepsInv(k, w, c, g);
    case Broadcast(c, g) => PopKeepsInv(k, c, Some(g));
  }

  lemma ContinueSleepKeepsInv(k: State)
    requires Inv(k) && k.Cur() in k.pc && PcOkAt(k, k.Cur())
    requires k.pc[k.Cur()].CondSleep? || k.pc[k.Cur()].CondWake?
    ensures Inv(Continue(k))
  {
    hide SemaInv, LockInv, HoldInv, CondInv, S.Inv;
    match k.pc[k.Cur()]
    case CondSleep(c) => DownKeepsInv(k, OfWaiter(k.Cur(), c));
    case CondWake(c) => DownKeepsInv(k, OfLock(k.lockOf[c]));
  }

  lemma PerformThreadKeepsInv(k: State, call: Call)
    requires Inv(k) && At(k, k.Cur(), User) && k.Cur() != k.sched.idler && Callable(k, call)
    requires call.Yield? || call.Exit? || call.Create?
    ensures Inv(Perform(k, call))
  {
    hide PcInv, SemaInv, LockInv, HoldInv, CondInv;
    match call
    case Yield => S.ApplyKeepsInv(k.sched, S.DoYield); S.YieldEffect(k.sched); SwitchKeepsInv(k, S.Yield(k.sched));
    case Exit => ExitKeepsInv(k);
    case Create(u) => NewChildKeepsInv(k, u);
  }

  lemma PerformInitKeepsInv(k: State, call: Call)
    requires Inv(k) && At(k, k.Cur(), User) && k.Cur() != k.sched.idler && Callable(k, call)
    requires call.NewSema? || call.NewLock? || call.NewCond?
    ensures Inv(Perform(k, call))
  {
    hide PcInv, SemaInv, LockInv, HoldInv, CondInv, S.Inv;
    match call
    case NewSema(id, v) => AddSemaKeepsInv(k, Plain(id), v);
    case NewLock(l) => AddLockKeepsInv(k, l);
    case NewCond(c, l) => AddCondKeepsInv(k, c, l);
  }

  lemma PerformSemaKeepsInv(k: State, call: Call)
    requires Inv(k) && At(k, k.Cur(), User) && k.Cur() != k.sched.idler && Callable(k, call)
    requires call.DownCall? || call.TryDown? || call.UpCall?
    ensures Inv(Perform(k, call))
  {
    hide PcInv, SemaInv, LockInv, HoldInv, CondInv, S.Inv;
    match call
    case DownCall(id) => DownKeepsInv(k, Plain(id));
    case TryDown(id) => DownKeepsInv(k, Plain(id));
    case UpCall(id) => UpPlainKeepsInv(k, id, User);
  }

  lemma PerformLockKeepsInv(k: State, call: Call)
    requires Inv(k) && At(k, k.Cur(), User) && k.Cur() != k.sched.idler && Callable(k, call)
    requires call.Acquire? || call.TryAcquire?
    ensures Inv(Perform(k, call))
  {
    hide PcOkAt, SemaInv, LockInv, HoldInv, CondInv, S.Inv;
    match call
    case Acquire(l) => DownKeepsInv(k, OfLock(l));
    case TryAcquire(l) => DownKeepsInv(k, OfLock(l));
  }

  lemma PerformReleaseKeepsInv(k: State, l: LockId)
    requires Inv(k) && At(k, k.Cur(), User) && k.Cur() != k.sched.idler && Callable(k, Release(l))
    ensures Inv(Perform(k, Release(l)))
  {
    ClearHolderKeepsInv(k, l, GiveUp(l, None));
  }

  lemma CallBroadcastKeepsInv(k: State, c: CondId)
    requires Inv(k) && At(k, k.Cur(), User) && HoldsFor(k, c)
    ensures c in k.enqueued && Inv(Goto(k, Broadcast(c, |k.enqueued[c]|)))
  {
    hide SemaInv, LockInv, CondInv, S.Inv;
    CurrentIsRunning(k);
    GotoKeepsInv(k, Broadcast(c, |k.enqueued[c]|));
  }

  lemma PerformCondKeepsInv(k: State, call: Call)
    requires Inv(k) && At(k, k.Cur(), User) && k.Cur() != k.sched.idler && Callable(k, call)
    requires call.Wait? || call.Signal? || call.BroadcastCall?
    ensures Inv(Perform(k, call))
  {
    hide PcOkAt, SemaInv, LockInv, HoldInv, CondInv, S.Inv;
    match call
    case Wait(c) => EnqueueKeepsInv(k, c);
    case Signal(c) => PopKeepsInv(k, c, None);
    case BroadcastCall(c) => CallBroadcastKeepsInv(k, c);
  }

  lemma TickKeepsInv(k: State)
    requires Inv(k)
    ensures Inv(k.(sched := S.Apply(k.sched, S.TimerTick)))
  {
    hide PcInv, SemaInv, LockInv, HoldInv, CondInv;
    S.ApplyKeepsInv(k.sched, S.TimerTick);
    S.TickEffect(k.sched);
    SwitchKeepsInv(k, S.Tick(k.sched));
  }

  /** Every step by any thread, and every interrupt, keeps the invariant. */
  lemma ApplyKeepsInv(k: State, st: Step)
    requires Inv(k) && k.Cur() in k.pc && Enabled(k, st)
    ensures Inv(Apply(k, st))
  {
    hide SemaInv, LockInv, HoldInv, CondInv, Perform, Continue;
    CurrentIsRunning(k);
    match st
    case TimerTick => TickKeepsInv(k);
    case IntrUp(id) => UpPlainKeepsInv(k, id, k.pc[k.Cur()]);
    case IntrTryDown(id) => if k.semas[Plain(id)].value > 0 { ConsumeKeepsInv(k, id); }
    case IntrTryAcquire(l) => if k.semas[OfLock(l)].value > 0 { TryAcquireInHandler(k, l); }
    case Go => GoKeepsInv(k);
    case Do(call) => DoKeepsInv(k, call);
  }

  lemma GoKeepsInv(k: State)
    requires Inv(k) && k.Cur() in k.pc && k.pc[k.Cur()] != User && PcOkAt(k, k.Cur())
    ensures Inv(Continue(k))
  {
    var p := k.pc[k.Cur()];
    assert HoldOk(k, k.Cur());
    if p.CondSleep? || p.CondWake? {
      ContinueSleepKeepsInv(k);
    } else if p.CondRelease? || p.SignalUp? || p.Broadcast? {
      ContinueCondKeepsInv(k);
    } else if p.Creating? || p.IdleStart? || p.IdleUp? || p.IdleLoop? {
      ContinueIdleKeepsInv(k);
    } else if !p.Nascent? {
      ContinueLockKeepsInv(k);
    }
  }

  lemma DoKeepsInv(k: State, call: Call)
    requires Inv(k) && At(k, k.Cur(), User) && k.Cur() != k.sched.idler && Callable(k, call)
    ensures Inv(Perform(k, call))
  {
    if call.Yield? || call.Exit? || call.Create? {
      PerformThreadKeepsInv(k, call);
    } else if call.NewSema? || call.NewLock? || call.NewCond? {
      PerformInitKeepsInv(k, call);
    } else if call.DownCall? || call.TryDown? || call.UpCall? {
      PerformSemaKeepsInv(k, call);
    } else if call.Acquire? || call.TryAcquire? {
      PerformLockKeepsInv(k, call);
    } else if call.Release? {
      PerformReleaseKeepsInv(k, call.l);
    } else {
      PerformCondKeepsInv(k, call);
    }
  }

  // ---------------------------------------------------------------------
  // Runs
  // ---------------------------------------------------------------------

  /** thread_start() after creating the idle thread; Plain(0) is idle_started. */
  ghost function Boot(main: Tid, idler: Tid): State {
    State(S.Boot(main, idler), map[Plain(0) := Sema(0, [], 0, 0, 0)], map[], map[], map[],
          map[main := User, idler := IdleStart], map[], map[], map[])
  }

  lemma BootInv(main: Tid, idler: Tid)
    requires main != idler
    ensures Inv(Boot(main, idler))
  {
    var k := Boot(main, idler);
    S.ReachableInv(main, idler, []);
    BootPc(main, idler);
    assert SemaOk(k, Plain(0));
    BootCond(main, idler);
  }

  lemma BootPc(main: Tid, idler: Tid)
    requires main != idler
    ensures PcInv(Boot(main, idler)) && HoldInv(Boot(main, idler))
  {
  }

  lemma BootCond(main: Tid, idler: Tid)
    requires main != idler
    ensures CondInv(Boot(main, idler))
  {
    forall w, c ensures WaiterOk(Boot(main, idler), w, c) {
    }
  }

  ghost predicate ValidRun(k: State, run: seq<Step>)
    requires Inv(k)
    decreases run
  {
    run == [] ||
    (k.Cur() in k.pc && Enabled(k, run[0]) && (ApplyKeepsInv(k, run[0]); ValidRun(Apply(k, run[0]), run[1..])))
  }

  ghost function After(k: State, run: seq<Step>): (r: State)
    requires Inv(k) && ValidRun(k, run)
    ensures Inv(r)
    decreases run
  {
    if run == [] then k else
    ApplyKeepsInv(k, run[0]);
    After(Apply(k, run[0]), run[1..])
  }

  /** k is a state of some run from boot. */
  ghost predicate Reachable(k: State) {
    exists main: Tid, idler: Tid, run ::
      main != idler && (BootInv(main, idler); ValidRun(Boot(main, idler), run)) && k == After(Boot(main, idler), run)
  }

  // ---------------------------------------------------------------------
  // What the primitives promise, in every reachable state
  // ---------------------------------------------------------------------

  lemma ReachableInv(k: State)
    requires Reachable(k)
    ensures Inv(k)
  {
  }

  /** A semaphore's value is its initial value plus the ups minus the downs; if
      it is positive while a thread waits, an already popped thread will see it. */
  lemma SemaphoreAccount(k: State, s: SemaId)
    requires Reachable(k) && s in k.semas
    ensures k.semas[s].value == k.semas[s].init + k.semas[s].ups - k.semas[s].downs
    ensures k.semas[s].waiters != [] ==> k.semas[s].value <= |Popped(k, s)|
  {
    ReachableInv(k);
    assert SemaOk(k, s);
  }

  /** No wakeup is lost: while units are left and threads wait, some thread that
      must recheck the value is running or in the ready list. */
  lemma NoLostWakeup(k: State, s: SemaId)
    requires Reachable(k) && s in k.semas && k.semas[s].value > 0 && k.semas[s].waiters != []
    ensures exists t :: t in k.pc && k.pc[t] == Down(s) && (t == k.Cur() || t in k.sched.ready)
  {
    hide Reachable, LockInv, HoldInv, CondInv;
    ReachableInv(k);
    assert SemaOk(k, s);
    var t :| t in Popped(k, s);
    assert PcOkAt(k, t);
    assert t in k.sched.ready <==> t in k.sched.status && k.sched.status[t] == S.Ready && Some(t) != k.sched.idleThread;
  }

  /** A thread on a wait list is blocked on that semaphore and on nothing else. */
  lemma WaitersBlocked(k: State, s: SemaId, t: Tid)
    requires Reachable(k) && s in k.semas && t in k.semas[s].waiters
    ensures IsBlocked(k, t) && t !in k.sched.ready && NoDup(k.semas[s].waiters)
    ensures forall s' :: s' in k.semas && t in k.semas[s'].waiters ==> s' == s
  {
    ReachableInv(k);
    assert SemaOk(k, s);
    assert PcOkAt(k, t);
    forall s' | s' in k.semas && t in k.semas[s'].waiters ensures s' == s { assert SemaOk(k, s'); }
  }

  /** Signals: a queued waiter's private semaphore is 0 and untouched; a popped
      one has been upped exactly once, whether or not it reached sema_down(). */
  lemma SignalOnce(k: State, w: Tid, c: CondId)
    requires Reachable(k) && InWait(k, w, c)
    ensures Queued(k, w, c) ==> Private(k, w, c, 0, 0)
    ensures !Queued(k, w, c) && !BeingSignalled(k, w, c) ==> Private(k, w, c, 1, 0)
  {
    ReachableInv(k);
    assert WaiterOk(k, w, c);
  }

  /** ... and at any time at most one thread is signalling on c. */
  lemma OneSignaller(k: State, c: CondId, t: Tid, w: Tid, u: Tid, v: Tid)
    requires Reachable(k) && SignalsTo(k, t, w, c) && SignalsTo(k, u, v, c)
    ensures t == u && w == v
  {
    hide Reachable, PcInv, SemaInv, LockInv, CondInv, S.Inv;
    ReachableInv(k);
    assert HoldOk(k, t) && HoldOk(k, u);
  }

  /** FIFO: signals have gone to the waiters that queued first, in order. */
  lemma SignalsFifo(k: State, c: CondId)
    requires Reachable(k) && c in k.queue
    ensures c in k.enqueued && c in k.woken
    ensures k.enqueued[c] == k.woken[c] + k.queue[c]
  {
    ReachableInv(k);
    assert QueueOk(k, c);
  }

  /** cond_broadcast() returns with the queue empty: everybody who ever queued,
      and nobody who came after the call, has been signalled, and whoever of
      them has not yet taken the signal finds its private semaphore up. */
  lemma BroadcastWakesAll(k: State, c: CondId, n: nat)
    requires Reachable(k) && At(k, k.Cur(), Broadcast(c, n)) && S.Inv(k.sched) && Wired(k) && PcOkAt(k, k.Cur())
    requires At(Continue(k), k.Cur(), User)
    ensures c in k.queue && k.queue[c] == [] && k.woken[c] == k.enqueued[c] && |k.enqueued[c]| == n
    ensures forall w :: InWait(k, w, c) ==> Private(k, w, c, 1, 0)
  {
    hide Reachable, PcInv, PcOkAt, SemaInv, LockInv, HoldInv, Wired, S.Inv, Continue;
    ReachableInv(k);
    LoopLeft(k, c, n);
    assert BroadcastOk(k, k.Cur()) && QueueOk(k, c);
    BroadcasterAlone(k, c, n);
    forall w | InWait(k, w, c) ensures Private(k, w, c, 1, 0) {
      assert WaiterOk(k, w, c);
    }
  }

  /** The loop of a broadcast is left with the queue empty. */
  lemma LoopLeft(k: State, c: CondId, n: nat)
    requires At(k, k.Cur(), Broadcast(c, n)) && S.Inv(k.sched) && Wired(k) && PcOkAt(k, k.Cur())
    requires At(Continue(k), k.Cur(), User)
    ensures c in k.queue && k.queue[c] == []
  {
    hide S.Inv;
  }

  /** Nobody is being signalled on c while a broadcast is at its loop test. */
  lemma BroadcasterAlone(k: State, c: CondId, n: nat)
    requires HoldInv(k) && At(k, k.Cur(), Broadcast(c, n))
    ensures forall w :: !BeingSignalled(k, w, c)
  {
    assert HoldOk(k, k.Cur());
    forall t, w ensures !SignalsTo(k, t, w, c) {
      if SignalsTo(k, t, w, c) { OneAtCond(k, k.Cur(), t, w, c); }
    }
  }

  /** The lock is held whenever cond_signal() runs, on its own or for cond_broadcast(),
      as the assertion there demands. */
  lemma SignalAssertions(k: State, t: Tid, c: CondId)
    requires Reachable(k) && t in k.pc
    ensures k.pc[t].Broadcast? && k.pc[t].cond == c ==> HolderFor(k, c) == Some(t)
    ensures k.pc[t].SignalUp? && k.pc[t].cond == c ==> HolderFor(k, c) == Some(t)
  {
    hide Reachable, PcInv, SemaInv, LockInv, CondInv, S.Inv;
    ReachableInv(k);
    assert HoldOk(k, t);
  }

  /** cond_wait() gets the lock back the regular way: when it calls
      lock_acquire() it does not hold the lock, as the assertion there demands,
      and when it calls lock_release() it does. */
  lemma CondWaitAssertions(k: State, t: Tid, c: CondId)
    requires Reachable(k) && t in k.pc
    ensures k.pc[t] == CondRelease(c) ==> HolderFor(k, c) == Some(t)
    ensures k.pc[t] == CondWake(c) ==> HolderFor(k, c) != Some(t)
  {
    ReachableInv(k);
    assert HoldOk(k, t);
  }
}
