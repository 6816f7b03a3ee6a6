/**
 What the calls of threads/synch.c come to.  First each step is described field by
 field, in terms of what was called and where the caller stands; then follow the
 promises over whole runs, with any interleaving of other threads and interrupts.
 */
module Calls {
  import opened Common
  import S = Scheduler
  import opened Synch

  // ---------------------------------------------------------------------
  // One step, field by field
  // ---------------------------------------------------------------------

  /** The semaphore on which this step calls sema_up(). */
  function UpOn(k: State, st: Step): Option<SemaId>
    requires k.Cur() in k.pc
  {
    match st
    case IntrUp(id) => Some(Plain(id))
    case Do(call) => if call.UpCall? then Some(Plain(call.id)) else None
    case Go =>
      (match k.pc[k.Cur()]
       case GiveUp(l, _) => Some(OfLock(l))
       case SignalUp(w, c, _) => Some(OfWaiter(w, c))
       case IdleUp => Some(Plain(0))
       case _ => None)
    case _ => None
  }

  /** The semaphore on which this step calls sema_try_down(), or makes a pass of the
      loop in sema_down(). */
  function DownOn(k: State, st: Step): Option<SemaId>
    requires k.Cur() in k.pc
  {
    match st
    case IntrTryDown(id) => Some(Plain(id))
    case IntrTryAcquire(l) => Some(OfLock(l))
    case Do(call) =>
      (match call
       case DownCall(id) => Some(Plain(id))
       case TryDown(id) => Some(Plain(id))
       case Acquire(l) => Some(OfLock(l))
       case TryAcquire(l) => Some(OfLock(l))
       case _ => None)
    case Go =>
      (match k.pc[k.Cur()]
       case Down(s) => Some(s)
       case CondSleep(c) => Some(OfWaiter(k.Cur(), c))
       case CondWake(c) => if c in k.lockOf then Some(OfLock(k.lockOf[c])) else None
       case _ => None)
    case _ => None
  }

  /** The step may put its thread to sleep: it is no "try". */
  predicate MaySleep(st: Step) {
    st.Go? || (st.Do? && (st.call.DownCall? || st.call.Acquire?))
  }

  predicate Positive(k: State, s: SemaId) {
    s in k.semas && k.semas[s].value > 0
  }

  /** The step takes a unit of semaphore s. */
  predicate Takes(k: State, st: Step, s: SemaId)
    requires k.Cur() in k.pc
  {
    DownOn(k, st) == Some(s) && Positive(k, s)
  }

  /** The step puts its thread to sleep on s. */
  predicate Sleeps(k: State, st: Step, s: SemaId)
    requires k.Cur() in k.pc
  {
    DownOn(k, st) == Some(s) && MaySleep(st) && !Positive(k, s)
  }

  function SemaAfter(k: State, st: Step, s: SemaId): Sema
    requires k.Cur() in k.pc && s in k.semas
  {
    var m := k.semas[s];
    if UpOn(k, st) == Some(s) then
      m.(value := m.value + 1, ups := m.ups + 1, waiters := if m.waiters == [] then [] else m.waiters[1..])
    else if Takes(k, st, s) then m.(value := m.value - 1, downs := m.downs + 1)
    else if Sleeps(k, st, s) then m.(waiters := m.waiters + [k.Cur()])
    else m
  }

  /** The step initialises semaphore s: sema_init(), lock_init() or cond_wait(). */
  function NewValue(k: State, st: Step, s: SemaId): Option<nat> {
    match st
    case Do(call) =>
      (match call
       case NewSema(id, v) => if s == Plain(id) then Some(v) else None
       case NewLock(l) => if s == OfLock(l) then Some(1) else None
       case Wait(c) => if s == OfWaiter(k.Cur(), c) then Some(0) else None
       case _ => None)
    case _ => None
  }

  ghost predicate SemasAs(k: State, st: Step, k': State)
    requires k.Cur() in k.pc
  {
    && (forall s {:trigger k'.semas[s]} {:trigger s in k'.semas} :: s in k.semas && NewValue(k, st, s) == None ==>
          s in k'.semas && k'.semas[s] == SemaAfter(k, st, s))
    && (forall s {:trigger NewValue(k, st, s)} :: NewValue(k, st, s).Some? ==>
          s in k'.semas && k'.semas[s] == Sema(NewValue(k, st, s).value, [], NewValue(k, st, s).value, 0, 0))
  }

  /** Where the statement after the call of sema_down() is. */
  function PastDown(s: SemaId): Pc {
    match s
    case Plain(_) => User
    case OfLock(l) => TakeHolder(l)
    case OfWaiter(_, c) => CondWake(c)
  }

  /** The first waiter of a condition is to be upped next; without waiters, on to p. */
  function Popping(k: State, c: CondId, goal: Option<nat>, p: Pc): Pc {
    if c in k.queue && k.queue[c] != [] then SignalUp(k.queue[c][0], c, goal) else p
  }

  /** Where a thread stands after a call. */
  function PcAfterCall(k: State, call: Call): Pc {
    match call
    case Create(u) => Creating(u)
    case DownCall(id) => if Positive(k, Plain(id)) then User else Down(Plain(id))
    case Acquire(l) => if Positive(k, OfLock(l)) then TakeHolder(l) else Down(OfLock(l))
    case TryAcquire(l) => if Positive(k, OfLock(l)) then TakeHolder(l) else User
    case Release(l) => GiveUp(l, None)
    case Wait(c) => CondRelease(c)
    case Signal(c) => Popping(k, c, None, User)
    case BroadcastCall(c) => Broadcast(c, if c in k.enqueued then |k.enqueued[c]| else 0)
    case _ => User
  }

  /** ... and where it goes on to inside a primitive. */
  function PcAfterGo(k: State): Pc
    requires k.Cur() in k.pc
  {
    match k.pc[k.Cur()]
    case User => User
    case Down(s) => if Positive(k, s) then PastDown(s) else Down(s)
    case TakeHolder(_) => User
    case GiveUp(_, w) => if w.Some? then CondSleep(w.value) else User
    case CondRelease(c) => if c in k.lockOf then GiveUp(k.lockOf[c], Some(c)) else User
    case CondSleep(c) => if Positive(k, OfWaiter(k.Cur(), c)) then CondWake(c) else Down(OfWaiter(k.Cur(), c))
    case CondWake(c) =>
      if c !in k.lockOf then User
      else if Positive(k, OfLock(k.lockOf[c])) then TakeHolder(k.lockOf[c]) else Down(OfLock(k.lockOf[c]))
    case SignalUp(_, c, g) => if g.Some? then Broadcast(c, g.value) else User
    case Broadcast(c, g) => Popping(k, c, Some(g), User)
    case Nascent => Nascent
    case Creating(_) => User
    case IdleStart => IdleUp
    case IdleUp => IdleLoop
    case IdleLoop => IdleLoop
  }

  function PcAfter(k: State, st: Step): Pc
    requires k.Cur() in k.pc
  {
    match st
    case Go => PcAfterGo(k)
    case Do(call) => PcAfterCall(k, call)
    case _ => k.pc[k.Cur()]
  }

  /** The thread that thread_create() makes, or lets go, in this step. */
  predicate IsChild(k: State, st: Step, u: Tid)
    requires k.Cur() in k.pc
  {
    st == Do(Create(u)) || (st == Go && k.pc[k.Cur()] == Creating(u))
  }

  ghost predicate PlacesAs(k: State, st: Step, k': State)
    requires k.Cur() in k.pc
  {
    && (if st == Do(Exit) && k.Cur() != k.sched.initial then k.Cur() !in k'.pc else At(k', k.Cur(), PcAfter(k, st)))
    && (forall t :: t in k.pc && t != k.Cur() && !IsChild(k, st, t) ==> At(k', t, k.pc[t]))
    && (st.Go? && k.pc[k.Cur()].Creating? ==> At(k', k.pc[k.Cur()].child, User))
    && (st.Do? && st.call.Create? ==> At(k', st.call.t, Nascent))
  }

  function HolderAfter(k: State, st: Step, l: LockId): Option<Tid>
    requires k.Cur() in k.pc && l in k.holder
  {
    match st
    case IntrTryAcquire(i) => if i == l && Positive(k, OfLock(l)) then Some(k.Cur()) else k.holder[l]
    case Do(call) => if call == Release(l) then None else k.holder[l]
    case Go =>
      var p := k.pc[k.Cur()];
      if p == TakeHolder(l) then Some(k.Cur())
      else if p.CondRelease? && p.cond in k.lockOf && k.lockOf[p.cond] == l then None
      else k.holder[l]
    case _ => k.holder[l]
  }

  ghost predicate HoldersAs(k: State, st: Step, k': State)
    requires k.Cur() in k.pc
  {
    && (forall l :: l in k.holder ==> l in k'.holder && k'.holder[l] == HolderAfter(k, st, l))
    && (forall c :: c in k.lockOf ==> c in k'.lockOf && k'.lockOf[c] == k.lockOf[c])
  }

  /** cond_signal(c), called by a program or by cond_broadcast(), finds a waiter. */
  predicate Signals(k: State, st: Step, c: CondId)
    requires k.Cur() in k.pc
  {
    && (st == Do(Signal(c)) || (st == Go && k.pc[k.Cur()].Broadcast? && k.pc[k.Cur()].cond == c))
    && c in k.queue && k.queue[c] != []
  }

  ghost predicate QueueAs(k: State, st: Step, k': State, c: CondId)
    requires k.Cur() in k.pc && c in k.queue && c in k.enqueued && c in k.woken
  {
    && c in k'.queue && c in k'.enqueued && c in k'.woken
    && (if st == Do(Wait(c)) then
          && k'.queue[c] == k.queue[c] + [k.Cur()] && k'.enqueued[c] == k.enqueued[c] + [k.Cur()]
          && k'.woken[c] == k.woken[c]
        else if Signals(k, st, c) then
          && k'.queue[c] == k.queue[c][1..] && k'.enqueued[c] == k.enqueued[c]
          && k'.woken[c] == k.woken[c] + [k.queue[c][0]]
        else
          k'.queue[c] == k.queue[c] && k'.enqueued[c] == k.enqueued[c] && k'.woken[c] == k.woken[c])
  }

  ghost predicate QueuesAs(k: State, st: Step, k': State)
    requires k.Cur() in k.pc
  {
    forall c :: c in k.queue && c in k.enqueued && c in k.woken ==> QueueAs(k, st, k', c)
  }

  /** The first waiter of the semaphore that this step ups, if there is one. */
  function Woken(k: State, st: Step): Option<Tid>
    requires k.Cur() in k.pc
  {
    var s := UpOn(k, st);
    if s.Some? && s.value in k.semas && k.semas[s.value].waiters != [] then Some(k.semas[s.value].waiters[0]) else None
  }

  predicate FallsAsleep(k: State, st: Step)
    requires k.Cur() in k.pc
  {
    DownOn(k, st).Some? && Sleeps(k, st, DownOn(k, st).value)
  }

  /** What the step is for the scheduler. */
  function SchedAction(k: State, st: Step): Option<S.Action>
    requires k.Cur() in k.pc
  {
    if st == TimerTick then Some(S.TimerTick)
    else if st == Do(Yield) then Some(S.DoYield)
    else if st == Do(Exit) then Some(S.DoExit)
    else if st.Do? && st.call.Create? then Some(S.DoCreate(st.call.t))
    else if st == Go && k.pc[k.Cur()].Creating? then Some(S.DoUnblock(k.pc[k.Cur()].child))
    else if st == Go && k.pc[k.Cur()] == IdleStart then Some(S.RegisterIdle)
    else if st == Go && k.pc[k.Cur()] == IdleLoop then Some(S.DoBlock)
    else if Woken(k, st).Some? then Some(S.DoUnblock(Woken(k, st).value))
    else if FallsAsleep(k, st) then Some(S.DoBlock)
    else None
  }

  ghost predicate SchedAs(k: State, st: Step, k': State)
    requires k.Cur() in k.pc && S.Inv(k.sched)
  {
    var a := SchedAction(k, st);
    if a == None then k'.sched == k.sched
    else S.Enabled(k.sched, a.value) && k'.sched == S.Apply(k.sched, a.value)
  }

  ghost predicate As(k: State, st: Step, k': State)
    requires k.Cur() in k.pc && S.Inv(k.sched)
  {
    SemasAs(k, st, k') && PlacesAs(k, st, k') && HoldersAs(k, st, k') && QueuesAs(k, st, k') && SchedAs(k, st, k')
  }

  // ---------------------------------------------------------------------
  // Every step is as described
  // ---------------------------------------------------------------------

  /** What the current thread may be doing when it takes a step. */
  ghost predicate Placed(k: State) {
    S.Inv(k.sched) && Wired(k) && k.Cur() in k.pc && PcOkAt(k, k.Cur())
  }

  /** The step initialises no semaphore. */
  predicate NoneNew(st: Step) {
    st.Do? ==> !st.call.NewSema? && !st.call.NewLock? && !st.call.Wait?
  }

  lemma SameSemas(k: State, st: Step, k': State)
    requires k.Cur() in k.pc && NoneNew(st) && k'.semas == k.semas && UpOn(k, st) == None
    requires DownOn(k, st).Some? ==> !Positive(k, DownOn(k, st).value) && !MaySleep(st)
    ensures SemasAs(k, st, k')
  {
    hide UpOn, DownOn;
  }

  lemma UpSemas(k: State, st: Step, s: SemaId, p: Pc)
    requires k.Cur() in k.pc && NoneNew(st) && s in k.semas && UpOn(k, st) == Some(s) && DownOn(k, st) == None
    ensures SemasAs(k, st, SemaUp(k, s, p))
  {
    hide UpOn, DownOn, S.Unblock;
  }

  lemma TakesSemas(k: State, st: Step, s: SemaId, k': State)
    requires k.Cur() in k.pc && NoneNew(st) && s in k.semas && k.semas[s].value > 0
    requires DownOn(k, st) == Some(s) && UpOn(k, st) == None
    requires k'.semas == k.semas[s := k.semas[s].(value := k.semas[s].value - 1, downs := k.semas[s].downs + 1)]
    ensures SemasAs(k, st, k')
  {
    hide UpOn, DownOn;
  }

  lemma JoinSemas(k: State, st: Step, s: SemaId, sched: S.State)
    requires k.Cur() in k.pc && NoneNew(st) && s in k.semas && k.semas[s].value == 0 && MaySleep(st)
    requires DownOn(k, st) == Some(s) && UpOn(k, st) == None
    ensures SemasAs(k, st, Join(k, s, sched))
  {
    hide UpOn, DownOn, MaySleep;
  }

  lemma DownSemas(k: State, st: Step, s: SemaId)
    requires k.Cur() in k.pc && NoneNew(st) && s in k.semas
    requires k.semas[s].value == 0 ==> MaySleep(st) && S.HasNext(S.SetCurrent(k.sched, S.Blocked))
    requires DownOn(k, st) == Some(s) && UpOn(k, st) == None
    ensures SemasAs(k, st, SemaDown(k, s))
  {
    hide UpOn, DownOn, MaySleep, SemasAs, NoneNew, Join, S.HasNext, S.SetCurrent, S.Block;
    if k.semas[s].value == 0 {
      JoinSemas(k, st, s, S.Block(k.sched));
    } else {
      TakesSemas(k, st, s, SemaDown(k, s));
    }
  }

  lemma NewSemas(k: State, st: Step, s: SemaId, v: nat, k': State)
    requires k.Cur() in k.pc && NewValue(k, st, s) == Some(v) && UpOn(k, st) == None && DownOn(k, st) == None
    requires k'.semas == k.semas[s := Sema(v, [], v, 0, 0)]
    ensures SemasAs(k, st, k')
  {
    hide UpOn, DownOn;
  }

  lemma GoUps(k: State)
    requires Placed(k) && (k.pc[k.Cur()].GiveUp? || k.pc[k.Cur()].SignalUp? || k.pc[k.Cur()].IdleUp?)
    ensures SemasAs(k, Go, Continue(k))
  {
    hide S.Inv, S.HasNext, S.SetCurrent, S.Block, S.Unblock, S.Apply, SemasAs, SemaUp, SemaDown, Runnable, IsBlocked;
    match k.pc[k.Cur()]
    case GiveUp(l, w) => UpSemas(k, Go, OfLock(l), if w.Some? then CondSleep(w.value) else User);
    case SignalUp(w, c, g) => UpSemas(k, Go, OfWaiter(w, c), AfterSignal(c, g));
    case IdleUp => UpSemas(k, Go, Plain(0), IdleLoop);
  }

  lemma GoSemas(k: State)
    requires Placed(k) && k.pc[k.Cur()] != User
    ensures SemasAs(k, Go, Continue(k))
  {
    hide S.Inv, S.HasNext, S.SetCurrent, S.Block, S.Unblock, S.Apply, SemasAs, SemaUp, SemaDown, Runnable, IsBlocked;
    match k.pc[k.Cur()]
    case Down(s) => FindsNext(k); DownSemas(k, Go, s);
    case CondSleep(c) => FindsNext(k); DownSemas(k, Go, OfWaiter(k.Cur(), c));
    case CondWake(c) => FindsNext(k); DownSemas(k, Go, OfLock(k.lockOf[c]));
    case GiveUp(_, _) | SignalUp(_, _, _) | IdleUp => GoUps(k);
    case TakeHolder(_) | CondRelease(_) | Broadcast(_, _) | Nascent | Creating(_) | IdleStart | IdleLoop =>
      SameSemas(k, Go, Continue(k));
  }

  lemma InitSemas(k: State, call: Call)
    requires Placed(k) && k.Cur() != k.sched.idler && Callable(k, call)
    requires call.NewSema? || call.NewLock? || call.Wait?
    ensures SemasAs(k, Do(call), Perform(k, call))
  {
    hide S.Inv, SemasAs, PcOkAt;
    match call
    case NewSema(id, v) => NewSemas(k, Do(call), Plain(id), v, Perform(k, call));
    case NewLock(l) => NewSemas(k, Do(call), OfLock(l), 1, Perform(k, call));
    case Wait(c) => NewSemas(k, Do(call), OfWaiter(k.Cur(), c), 0, Perform(k, call));
  }

  lemma TrySemas(k: State, call: Call, s: SemaId)
    requires k.Cur() in k.pc && s in k.semas && S.HasNext(S.SetCurrent(k.sched, S.Blocked))
    requires (call.TryDown? && s == Plain(call.id)) || (call.TryAcquire? && s == OfLock(call.l))
    ensures SemasAs(k, Do(call), if k.semas[s].value > 0 then SemaDown(k, s) else k)
  {
    hide S.HasNext, S.SetCurrent, SemaDown, SemasAs;
    if k.semas[s].value > 0 {
      DownSemas(k, Do(call), s);
    } else {
      SameSemas(k, Do(call), k);
    }
  }

  lemma CallsLeaveSemas(k: State, call: Call)
    requires Placed(k) && k.Cur() != k.sched.idler && Callable(k, call)
    requires match call
             case Yield | Exit | Create(_) | NewCond(_, _) | Release(_) | Signal(_) | BroadcastCall(_) => true
             case _ => false
    ensures SemasAs(k, Do(call), Perform(k, call))
  {
    hide S.Inv, S.HasNext, S.SetCurrent, S.Unblock, S.Apply, SemasAs, PcOkAt;
    SameSemas(k, Do(call), Perform(k, call));
  }

  lemma DoSemas(k: State, call: Call)
    requires Placed(k) && k.Cur() != k.sched.idler && Callable(k, call)
    ensures SemasAs(k, Do(call), Perform(k, call))
  {
    hide S.Inv, S.HasNext, S.SetCurrent, S.Block, S.Unblock, S.Apply, SemaUp, SemaDown, SemasAs, PcOkAt;
    hide Enqueue, AddSema, AddLock, AddCond, NewChild, Gone, SetHolder, PopWaiter, Goto;
    FindsNext(k);
    match call
    case DownCall(id) => DownSemas(k, Do(call), Plain(id));
    case Acquire(l) => DownSemas(k, Do(call), OfLock(l));
    case TryDown(id) => TrySemas(k, call, Plain(id));
    case TryAcquire(l) => TrySemas(k, call, OfLock(l));
    case UpCall(id) => UpSemas(k, Do(call), Plain(id), User);
    case NewSema(_, _) | NewLock(_) | Wait(_) => InitSemas(k, call);
    case _ => CallsLeaveSemas(k, call);
  }

  lemma StepSemas(k: State, st: Step)
    requires Inv(k) && k.Cur() in k.pc && Enabled(k, st)
    ensures SemasAs(k, st, Apply(k, st))
  {
    hide S.Inv, S.HasNext, S.SetCurrent, S.Block, S.Unblock, S.Apply;
    hide SemaInv, LockInv, HoldInv, CondInv, SemasAs, Continue, Perform, Callable, SemaUp;
    assert PcOkAt(k, k.Cur());
    match st
    case TimerTick => SameSemas(k, st, Apply(k, st));
    case IntrUp(id) => UpSemas(k, st, Plain(id), k.pc[k.Cur()]);
    case IntrTryDown(id) =>
      if k.semas[Plain(id)].value > 0 {
        TakesSemas(k, st, Plain(id), Apply(k, st));
      } else {
        SameSemas(k, st, k);
      }
    case IntrTryAcquire(l) =>
      if k.semas[OfLock(l)].value > 0 {
        TakesSemas(k, st, OfLock(l), Apply(k, st));
      } else {
        SameSemas(k, st, k);
      }
    case Go => GoSemas(k);
    case Do(call) => DoSemas(k, call);
  }

  /** Only the current thread moves. */
  lemma MovesAs(k: State, st: Step, k': State)
    requires k.Cur() in k.pc && k'.pc == k.pc[k.Cur() := PcAfter(k, st)] && st != Do(Exit)
    requires st.Do? ==> !st.call.Create?
    requires st.Go? ==> !k.pc[k.Cur()].Creating?
    ensures PlacesAs(k, st, k')
  {
    hide PcAfter;
  }

  lemma DownMoves(k: State, st: Step, s: SemaId)
    requires Placed(k) && s in k.semas && S.Enabled(k.sched, S.DoBlock)
    requires PcAfter(k, st) == (if k.semas[s].value > 0 then PastDown(s) else Down(s))
    requires st.Go? || (st.Do? && !st.call.Create? && !st.call.Exit?)
    requires st.Go? ==> !k.pc[k.Cur()].Creating?
    ensures S.HasNext(S.SetCurrent(k.sched, S.Blocked)) && PlacesAs(k, st, SemaDown(k, s))
  {
    hide S.Inv, S.HasNext, S.SetCurrent, S.Block, S.Enabled, PlacesAs, PcAfter, PcOkAt, Wired;
    FindsNext(k);
    MovesAs(k, st, SemaDown(k, s));
  }

  lemma OthersMove(k: State)
    requires Placed(k)
    requires match k.pc[k.Cur()] case User | Down(_) | CondSleep(_) | CondWake(_) | Creating(_) => false case _ => true
    ensures PlacesAs(k, Go, Continue(k))
  {
    hide S.Inv, S.HasNext, S.SetCurrent, S.Block, S.Unblock, S.Apply, SemaDown, PlacesAs, Runnable, IsBlocked;
    MovesAs(k, Go, Continue(k));
  }

  lemma GoPlaces(k: State)
    requires Placed(k) && k.pc[k.Cur()] != User
    ensures PlacesAs(k, Go, Continue(k))
  {
    hide S.Inv, S.HasNext, S.SetCurrent, S.Block, S.Unblock, S.Apply, SemaDown, SemaUp, PopWaiter, SetHolder, PlacesAs;
    match k.pc[k.Cur()]
    case Down(s) => DownMoves(k, Go, s);
    case CondSleep(c) => DownMoves(k, Go, OfWaiter(k.Cur(), c));
    case CondWake(c) => DownMoves(k, Go, OfLock(k.lockOf[c]));
    case Creating(u) => StartPlaces(k, u);
    case _ => OthersMove(k);
  }

  lemma StartPlaces(k: State, u: Tid)
    requires k.Cur() in k.pc && k.pc[k.Cur()] == Creating(u) && u in k.pc && u != k.Cur()
    ensures PlacesAs(k, Go, StartChild(k, u))
  {
  }

  lemma TryPlaces(k: State, call: Call, s: SemaId)
    requires Placed(k) && k.Cur() != k.sched.idler && k.pc[k.Cur()] == User && s in k.semas
    requires (call.TryDown? && s == Plain(call.id)) || (call.TryAcquire? && s == OfLock(call.l))
    ensures S.HasNext(S.SetCurrent(k.sched, S.Blocked))
    ensures PlacesAs(k, Do(call), if k.semas[s].value > 0 then SemaDown(k, s) else k)
  {
    hide S.Inv, S.HasNext, S.SetCurrent, S.Block, PlacesAs, SemaDown, PcOkAt, Wired;
    FindsNext(k);
    if k.semas[s].value > 0 {
      DownMoves(k, Do(call), s);
    } else {
      MovesAs(k, Do(call), k);
    }
  }

  lemma CreatePlaces(k: State, u: Tid)
    requires k.Cur() in k.pc && u !in k.pc
    ensures PlacesAs(k, Do(Create(u)), NewChild(k, u))
  {
  }

  lemma ExitPlaces(k: State, sched: S.State)
    requires k.Cur() in k.pc && k.pc[k.Cur()] == User
    ensures PlacesAs(k, Do(Exit), Gone(k, sched))
  {
  }

  lemma CallsMove(k: State, call: Call)
    requires Placed(k) && k.Cur() != k.sched.idler && Callable(k, call) && k.pc[k.Cur()] == User
    requires match call
             case DownCall(_) | Acquire(_) | TryDown(_) | TryAcquire(_) | Create(_) | Exit => false
             case _ => true
    ensures PlacesAs(k, Do(call), Perform(k, call))
  {
    hide S.Inv, S.HasNext, S.SetCurrent, S.Block, S.Unblock, S.Apply, SemaDown, PlacesAs, PcOkAt;
    MovesAs(k, Do(call), Perform(k, call));
  }

  lemma DoPlaces(k: State, call: Call)
    requires Placed(k) && k.Cur() != k.sched.idler && Callable(k, call) && k.pc[k.Cur()] == User
    ensures PlacesAs(k, Do(call), Perform(k, call))
  {
    hide S.Inv, S.HasNext, S.SetCurrent, S.Block, S.Unblock, S.Apply, SemaDown, SemaUp, PlacesAs, PcOkAt;
    hide PopWaiter, SetHolder, Enqueue, NewChild, Gone, AddSema, AddLock, AddCond;
    match call
    case DownCall(id) => DownMoves(k, Do(call), Plain(id));
    case Acquire(l) => DownMoves(k, Do(call), OfLock(l));
    case TryDown(id) => TryPlaces(k, call, Plain(id));
    case TryAcquire(l) => TryPlaces(k, call, OfLock(l));
    case Create(u) => CreatePlaces(k, u);
    case Exit => ExitPlaces(k, S.Apply(k.sched, S.DoExit));
    case _ => CallsMove(k, call);
  }

  lemma StepPlaces(k: State, st: Step)
    requires Inv(k) && k.Cur() in k.pc && Enabled(k, st)
    ensures PlacesAs(k, st, Apply(k, st))
  {
    hide S.Inv, S.HasNext, S.SetCurrent, S.Block, S.Unblock, S.Apply;
    hide SemaInv, LockInv, HoldInv, CondInv, PlacesAs, Continue, Perform, Callable;
    assert PcOkAt(k, k.Cur());
    match st
    case Go => GoPlaces(k);
    case Do(call) => DoPlaces(k, call);
    case _ => MovesAs(k, st, Apply(k, st));
  }

  /** The step neither hands a lock over nor touches a condition variable. */
  ghost predicate LeavesConds(k: State, k': State) {
    && k'.holder == k.holder && k'.lockOf == k.lockOf
    && k'.queue == k.queue && k'.enqueued == k.enqueued && k'.woken == k.woken
  }

  lemma DownLeavesConds(k: State, s: SemaId)
    requires s in k.semas && (k.semas[s].value == 0 ==> S.HasNext(S.SetCurrent(k.sched, S.Blocked)))
    ensures LeavesConds(k, SemaDown(k, s))
  {
    hide S.HasNext, S.SetCurrent, S.Block;
  }

  lemma GoConds(k: State)
    requires Placed(k) && k.pc[k.Cur()] != User
    requires !k.pc[k.Cur()].TakeHolder? && !k.pc[k.Cur()].CondRelease? && !k.pc[k.Cur()].Broadcast?
    ensures LeavesConds(k, Continue(k))
  {
    hide S.Inv, S.HasNext, S.SetCurrent, S.Block, S.Unblock, S.Apply, SemaDown;
    match k.pc[k.Cur()]
    case Down(s) => FindsNext(k); DownLeavesConds(k, s);
    case CondSleep(c) => FindsNext(k); DownLeavesConds(k, OfWaiter(k.Cur(), c));
    case CondWake(c) => FindsNext(k); DownLeavesConds(k, OfLock(k.lockOf[c]));
    case GiveUp(_, _) | SignalUp(_, _, _) | Nascent | IdleStart | IdleUp | IdleLoop | Creating(_) =>
  }

  lemma DoConds(k: State, call: Call)
    requires Placed(k) && k.Cur() != k.sched.idler && Callable(k, call)
    requires !call.NewLock? && !call.NewCond? && !call.Release? && !call.Wait? && !call.Signal?
    ensures LeavesConds(k, Perform(k, call))
  {
    hide S.Inv, S.HasNext, S.SetCurrent, S.Block, S.Unblock, S.Apply, SemaDown;
    FindsNext(k);
    match call
    case DownCall(id) => DownLeavesConds(k, Plain(id));
    case TryDown(id) => if k.semas[Plain(id)].value > 0 { DownLeavesConds(k, Plain(id)); }
    case Acquire(l) => DownLeavesConds(k, OfLock(l));
    case TryAcquire(l) => if k.semas[OfLock(l)].value > 0 { DownLeavesConds(k, OfLock(l)); }
    case _ =>
  }

  // What the steps that do touch a lock's holder or a condition variable do.

  lemma TakeHolderAs(k: State, l: LockId)
    requires At(k, k.Cur(), TakeHolder(l))
    ensures HoldersAs(k, Go, SetHolder(k, l, Some(k.Cur()), User))
    ensures QueuesAs(k, Go, SetHolder(k, l, Some(k.Cur()), User))
  {
  }

  lemma CondReleaseAs(k: State, c: CondId)
    requires At(k, k.Cur(), CondRelease(c)) && c in k.lockOf
    ensures HoldersAs(k, Go, SetHolder(k, k.lockOf[c], None, GiveUp(k.lockOf[c], Some(c))))
    ensures QueuesAs(k, Go, SetHolder(k, k.lockOf[c], None, GiveUp(k.lockOf[c], Some(c))))
  {
  }

  lemma ReleaseAs(k: State, l: LockId)
    requires k.Cur() in k.pc
    ensures HoldersAs(k, Do(Release(l)), SetHolder(k, l, None, GiveUp(l, None)))
    ensures QueuesAs(k, Do(Release(l)), SetHolder(k, l, None, GiveUp(l, None)))
  {
  }

  lemma EnqueueAs(k: State, c: CondId)
    requires k.Cur() in k.pc && c in k.queue && c in k.enqueued
    ensures HoldersAs(k, Do(Wait(c)), Enqueue(k, c)) && QueuesAs(k, Do(Wait(c)), Enqueue(k, c))
  {
  }

  lemma PopAs(k: State, st: Step, c: CondId, goal: Option<nat>)
    requires k.Cur() in k.pc && c in k.queue && c in k.woken
    requires st == Do(Signal(c)) || (st == Go && k.pc[k.Cur()].Broadcast? && k.pc[k.Cur()].cond == c)
    ensures HoldersAs(k, st, PopWaiter(k, c, goal, User)) && QueuesAs(k, st, PopWaiter(k, c, goal, User))
  {
  }

  lemma NewLockAs(k: State, l: LockId)
    requires k.Cur() in k.pc && l !in k.holder
    ensures HoldersAs(k, Do(NewLock(l)), AddLock(k, l)) && QueuesAs(k, Do(NewLock(l)), AddLock(k, l))
  {
  }

  lemma NewCondAs(k: State, c: CondId, l: LockId)
    requires k.Cur() in k.pc && c !in k.lockOf && c !in k.queue
    ensures HoldersAs(k, Do(NewCond(c, l)), AddCond(k, c, l)) && QueuesAs(k, Do(NewCond(c, l)), AddCond(k, c, l))
  {
  }

  lemma GoHandsOver(k: State)
    requires Placed(k) && (k.pc[k.Cur()].TakeHolder? || k.pc[k.Cur()].CondRelease? || k.pc[k.Cur()].Broadcast?)
    ensures HoldersAs(k, Go, Continue(k)) && QueuesAs(k, Go, Continue(k))
  {
    hide S.Inv, S.HasNext, S.SetCurrent, S.Block, S.Unblock, S.Apply, SemaDown, SemaUp, HoldersAs, QueuesAs;
    hide SetHolder, PopWaiter, Runnable;
    match k.pc[k.Cur()]
    case TakeHolder(l) => TakeHolderAs(k, l);
    case CondRelease(c) => CondReleaseAs(k, c);
    case Broadcast(c, g) => PopAs(k, Go, c, Some(g));
  }

  lemma DoHandsOver(k: State, call: Call)
    requires Placed(k) && k.Cur() != k.sched.idler && Callable(k, call)
    requires call.NewLock? || call.NewCond? || call.Release? || call.Wait? || call.Signal?
    ensures HoldersAs(k, Do(call), Perform(k, call)) && QueuesAs(k, Do(call), Perform(k, call))
  {
    hide S.Inv, S.HasNext, S.SetCurrent, S.Block, S.Unblock, S.Apply, SemaDown, SemaUp, HoldersAs, QueuesAs;
    hide SetHolder, PopWaiter, Enqueue, AddLock, AddCond, PcOkAt;
    FindsNext(k);
    match call
    case Release(l) => ReleaseAs(k, l);
    case Wait(c) => EnqueueAs(k, c);
    case Signal(c) => PopAs(k, Do(call), c, None);
    case NewLock(l) => NewLockAs(k, l);
    case NewCond(c, l) => NewCondAs(k, c, l);
  }

  lemma LeavesAs(k: State, st: Step, k': State)
    requires k.Cur() in k.pc && LeavesConds(k, k')
    requires match st
             case Go => !k.pc[k.Cur()].TakeHolder? && !k.pc[k.Cur()].CondRelease? && !k.pc[k.Cur()].Broadcast?
             case Do(call) => !call.NewLock? && !call.NewCond? && !call.Release? && !call.Wait? && !call.Signal?
             case IntrTryAcquire(_) => false
             case _ => true
    ensures HoldersAs(k, st, k') && QueuesAs(k, st, k')
  {
  }

  lemma StepConds(k: State, st: Step)
    requires Inv(k) && k.Cur() in k.pc && Enabled(k, st)
    ensures HoldersAs(k, st, Apply(k, st)) && QueuesAs(k, st, Apply(k, st))
  {
    hide S.Inv, S.HasNext, S.SetCurrent, S.Block, S.Unblock, S.Apply;
    hide SemaInv, LockInv, HoldInv, CondInv, Continue, Perform, Callable, HoldersAs, QueuesAs;
    assert PcOkAt(k, k.Cur());
    match st
    case Go =>
      if k.pc[k.Cur()].TakeHolder? || k.pc[k.Cur()].CondRelease? || k.pc[k.Cur()].Broadcast? {
        GoHandsOver(k);
      } else {
        GoConds(k);
        LeavesAs(k, Go, Continue(k));
      }
    case Do(call) =>
      if call.NewLock? || call.NewCond? || call.Release? || call.Wait? || call.Signal? {
        DoHandsOver(k, call);
      } else {
        DoConds(k, call);
        LeavesAs(k, Do(call), Perform(k, call));
      }
    case IntrTryAcquire(l) => SeizeAs(k, l);
    case _ => LeavesAs(k, st, Apply(k, st));
  }

  lemma SeizeAs(k: State, l: LockId)
    requires k.Cur() in k.pc && l in k.holder && OfLock(l) in k.semas
    ensures HoldersAs(k, IntrTryAcquire(l), if k.semas[OfLock(l)].value > 0 then Seize(k, l) else k)
    ensures QueuesAs(k, IntrTryAcquire(l), if k.semas[OfLock(l)].value > 0 then Seize(k, l) else k)
  {
  }

  /** A thread on the wait list of a semaphore can be unblocked. */
  lemma WaiterCanWake(k: State, s: SemaId)
    requires PcInv(k) && s in k.semas && SemaOk(k, s) && k.semas[s].waiters != []
    ensures S.Enabled(k.sched, S.DoUnblock(k.semas[s].waiters[0]))
  {
    var w := k.semas[s].waiters[0];
    assert w in k.semas[s].waiters;
    assert PcOkAt(k, w);
  }

  lemma ApplyUnblock(s: S.State, t: Tid)
    requires S.Inv(s) && S.Enabled(s, S.DoUnblock(t))
    ensures S.Apply(s, S.DoUnblock(t)) == S.Unblock(s, t)
  {
    hide S.Inv, S.Enabled, S.Unblock;
  }

  lemma ApplyBlock(s: S.State)
    requires S.Inv(s) && S.Enabled(s, S.DoBlock) && S.HasNext(S.SetCurrent(s, S.Blocked))
    ensures S.Apply(s, S.DoBlock) == S.Block(s)
  {
    hide S.Inv, S.Enabled, S.HasNext, S.SetCurrent, S.Block;
  }

  /** The step is no thread_yield(), thread_exit(), thread_create() or switch by the idle thread. */
  predicate NoSwitch(k: State, st: Step)
    requires k.Cur() in k.pc
  {
    && !st.TimerTick?
    && (st.Do? ==> !st.call.Yield? && !st.call.Exit? && !st.call.Create?)
    && (st.Go? ==> match k.pc[k.Cur()] case Creating(_) | IdleStart | IdleLoop => false case _ => true)
  }

  lemma UpAction(k: State, st: Step, s: SemaId)
    requires k.Cur() in k.pc && s in k.semas
    requires UpOn(k, st) == Some(s) && DownOn(k, st) == None && NoSwitch(k, st)
    ensures SchedAction(k, st) == if k.semas[s].waiters == [] then None else Some(S.DoUnblock(k.semas[s].waiters[0]))
  {
    hide UpOn, DownOn;
  }

  lemma ActionAs(k: State, st: Step, a: S.Action, k': State)
    requires S.Inv(k.sched) && k.Cur() in k.pc && SchedAction(k, st) == Some(a)
    requires S.Enabled(k.sched, a) && k'.sched == S.Apply(k.sched, a)
    ensures SchedAs(k, st, k')
  {
    hide S.Inv, S.Enabled, S.Apply, SchedAction;
  }

  lemma SameSched(k: State, st: Step, k': State)
    requires S.Inv(k.sched) && k.Cur() in k.pc && k'.sched == k.sched && SchedAction(k, st) == None
    ensures SchedAs(k, st, k')
  {
    hide S.Inv, SchedAction;
  }

  lemma UpSwitches(k: State, s: SemaId, p: Pc)
    requires S.Inv(k.sched) && PcInv(k) && SemaInv(k) && s in k.semas && k.semas[s].waiters != []
    ensures S.Enabled(k.sched, S.DoUnblock(k.semas[s].waiters[0]))
    ensures SemaUp(k, s, p).sched == S.Apply(k.sched, S.DoUnblock(k.semas[s].waiters[0]))
  {
    hide S.Inv, PcInv, S.Unblock, S.Apply, S.Enabled, SemaOk;
    assert SemaOk(k, s);
    WaiterCanWake(k, s);
    ApplyUnblock(k.sched, k.semas[s].waiters[0]);
  }

  lemma UpSched(k: State, st: Step, s: SemaId, p: Pc)
    requires S.Inv(k.sched) && PcInv(k) && SemaInv(k) && k.Cur() in k.pc && s in k.semas
    requires UpOn(k, st) == Some(s) && DownOn(k, st) == None && NoSwitch(k, st)
    ensures SchedAs(k, st, SemaUp(k, s, p))
  {
    hide UpOn, DownOn, S.Inv, PcInv, SemaInv, S.Unblock, S.Apply, S.Enabled, SchedAction, SchedAs;
    UpAction(k, st, s);
    if k.semas[s].waiters != [] {
      UpSwitches(k, s, p);
      ActionAs(k, st, S.DoUnblock(k.semas[s].waiters[0]), SemaUp(k, s, p));
    } else {
      SameSched(k, st, SemaUp(k, s, p));
    }
  }

  lemma DownSched(k: State, st: Step, s: SemaId)
    requires S.Inv(k.sched) && S.Enabled(k.sched, S.DoBlock) && k.Cur() in k.pc && s in k.semas
    requires UpOn(k, st) == None && DownOn(k, st) == Some(s) && NoSwitch(k, st)
    requires k.semas[s].value == 0 ==> MaySleep(st)
    ensures S.HasNext(S.SetCurrent(k.sched, S.Blocked)) && SchedAs(k, st, SemaDown(k, s))
  {
    hide UpOn, DownOn, S.Inv, PcInv, S.Block, S.HasNext, S.SetCurrent, S.Apply;
    FindsNext(k);
    ApplyBlock(k.sched);
  }

  lemma LeavesSched(k: State)
    requires Placed(k)
    requires match k.pc[k.Cur()] case TakeHolder(_) | CondRelease(_) | Broadcast(_, _) | Nascent => true case _ => false
    ensures SchedAs(k, Go, Continue(k))
  {
    hide S.Inv;
  }

  /** Switching threads outside of any semaphore. */
  lemma GoSwitches(k: State)
    requires Placed(k) && SchedAction(k, Go).Some? && S.Enabled(k.sched, SchedAction(k, Go).value)
    requires k.pc[k.Cur()].Creating? || k.pc[k.Cur()].IdleStart? || k.pc[k.Cur()].IdleLoop?
    ensures SchedAs(k, Go, Continue(k))
  {
    hide S.Inv, S.Tick, S.Yield, S.Exit, S.Create, S.HasNext, Wired, Runnable, IsBlocked;
  }

  lemma SwitchEnabled(k: State)
    requires PcInv(k) && k.Cur() in k.pc
    requires k.pc[k.Cur()].Creating? || k.pc[k.Cur()].IdleStart? || k.pc[k.Cur()].IdleLoop?
    ensures SchedAction(k, Go).Some? && S.Enabled(k.sched, SchedAction(k, Go).value)
  {
    hide PcOkAt, S.Enabled;
    if k.pc[k.Cur()].Creating? {
      ChildCanStart(k, k.pc[k.Cur()].child);
    } else {
      IdleCanSwitch(k);
    }
  }

  lemma ChildCanStart(k: State, u: Tid)
    requires PcInv(k) && At(k, k.Cur(), Creating(u))
    ensures S.Enabled(k.sched, S.DoUnblock(u))
  {
    assert PcOkAt(k, k.Cur());
    assert PcOkAt(k, u);
  }

  lemma IdleCanSwitch(k: State)
    requires PcInv(k) && k.Cur() in k.pc && (k.pc[k.Cur()].IdleStart? || k.pc[k.Cur()].IdleLoop?)
    ensures S.Enabled(k.sched, if k.pc[k.Cur()].IdleStart? then S.RegisterIdle else S.DoBlock)
  {
    assert PcOkAt(k, k.Cur());
  }

  lemma GoSched(k: State)
    requires Inv(k) && k.Cur() in k.pc && k.pc[k.Cur()] != User && PcOkAt(k, k.Cur())
    ensures SchedAs(k, Go, Continue(k))
  {
    hide S.Inv, SemaInv, HoldInv, LockInv, CondInv, SchedAs, S.Apply, SemaUp, SemaDown, PopWaiter, IsBlocked, Runnable;
    match k.pc[k.Cur()]
    case Down(s) => DownSched(k, Go, s);
    case CondSleep(c) => DownSched(k, Go, OfWaiter(k.Cur(), c));
    case CondWake(c) => DownSched(k, Go, OfLock(k.lockOf[c]));
    case GiveUp(l, w) => UpSched(k, Go, OfLock(l), if w.Some? then CondSleep(w.value) else User);
    case SignalUp(w, c, g) => UpSched(k, Go, OfWaiter(w, c), AfterSignal(c, g));
    case IdleUp => UpSched(k, Go, Plain(0), IdleLoop);
    case Creating(_) | IdleStart | IdleLoop => SwitchEnabled(k); GoSwitches(k);
    case TakeHolder(_) | CondRelease(_) | Broadcast(_, _) | Nascent => LeavesSched(k);
  }

  lemma DoSwitches(k: State, call: Call)
    requires S.Inv(k.sched) && Wired(k) && k.Cur() in k.pc && k.Cur() != k.sched.idler && Callable(k, call)
    requires call.Yield? || call.Exit? || call.Create?
    ensures SchedAs(k, Do(call), Perform(k, call))
  {
    hide S.Inv, S.Tick, S.Yield, S.Exit, S.Create, S.HasNext;
  }

  lemma TrySched(k: State, call: Call, s: SemaId)
    requires S.Inv(k.sched) && k.Cur() in k.pc && k.Cur() != k.sched.idler && s in k.semas
    requires (call.TryDown? && s == Plain(call.id)) || (call.TryAcquire? && s == OfLock(call.l))
    ensures S.HasNext(S.SetCurrent(k.sched, S.Blocked))
    ensures SchedAs(k, Do(call), if k.semas[s].value > 0 then SemaDown(k, s) else k)
  {
    hide S.Inv, S.HasNext, S.SetCurrent, SchedAs, SemaDown, S.Apply;
    FindsNext(k);
    if k.semas[s].value > 0 {
      DownSched(k, Do(call), s);
    } else {
      SameSched(k, Do(call), k);
    }
  }

  lemma CallsLeaveSched(k: State, call: Call)
    requires Placed(k) && k.Cur() != k.sched.idler && Callable(k, call)
    requires match call
             case NewSema(_, _) | NewLock(_) | NewCond(_, _) => true
             case Release(_) | Wait(_) | Signal(_) | BroadcastCall(_) => true
             case _ => false
    ensures SchedAs(k, Do(call), Perform(k, call))
  {
    hide S.Inv, SchedAs, PcOkAt;
    SameSched(k, Do(call), Perform(k, call));
  }

  lemma DoSched(k: State, call: Call)
    requires Inv(k) && At(k, k.Cur(), User) && k.Cur() != k.sched.idler && Callable(k, call)
    ensures SchedAs(k, Do(call), Perform(k, call))
  {
    hide S.Inv, SemaInv, HoldInv, LockInv, CondInv, SchedAs, S.Apply, SemaUp, SemaDown, PopWaiter, PcOkAt;
    hide NewChild, Gone, SetHolder, AddLock, AddCond, AddSema, Enqueue, Goto;
    assert PcOkAt(k, k.Cur());
    match call
    case DownCall(id) => DownSched(k, Do(call), Plain(id));
    case Acquire(l) => DownSched(k, Do(call), OfLock(l));
    case TryDown(id) => TrySched(k, call, Plain(id));
    case TryAcquire(l) => TrySched(k, call, OfLock(l));
    case UpCall(id) => UpSched(k, Do(call), Plain(id), User);
    case Yield | Exit | Create(_) => DoSwitches(k, call);
    case NewSema(_, _) | NewLock(_) | NewCond(_, _) | Release(_) | Wait(_) | Signal(_) | BroadcastCall(_) =>
      CallsLeaveSched(k, call);
  }

  lemma StepSched(k: State, st: Step)
    requires Inv(k) && k.Cur() in k.pc && Enabled(k, st)
    ensures SchedAs(k, st, Apply(k, st))
  {
    hide S.Inv, S.Apply, SemaInv, LockInv, HoldInv, CondInv, Continue, Perform, Callable, SchedAs, SemaUp;
    assert PcOkAt(k, k.Cur());
    match st
    case TimerTick => TickSched(k);
    case IntrUp(id) => UpSched(k, st, Plain(id), k.pc[k.Cur()]);
    case IntrTryDown(id) => SameSched(k, st, Apply(k, st));
    case IntrTryAcquire(l) => SameSched(k, st, Apply(k, st));
    case Go => GoSched(k);
    case Do(call) => DoSched(k, call);
  }

  lemma TickSched(k: State)
    requires S.Inv(k.sched) && k.Cur() in k.pc
    ensures SchedAs(k, TimerTick, k.(sched := S.Apply(k.sched, S.TimerTick)))
  {
    hide S.Inv, S.Apply;
  }

  /** Every step does to each part of the state what was called. */
  lemma StepAs(k: State, st: Step)
    requires Inv(k) && k.Cur() in k.pc && Enabled(k, st)
    ensures As(k, st, Apply(k, st))
  {
    hide Inv, Enabled, Apply, SemasAs, PlacesAs, HoldersAs, QueuesAs, SchedAs;
    StepSemas(k, st);
    StepPlaces(k, st);
    StepConds(k, st);
    StepSched(k, st);
  }
}
