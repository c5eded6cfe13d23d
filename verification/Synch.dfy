/** Semaphores, locks and condition variables (pintos/src/threads/synch.c) on top of the
    scheduler, as a step machine.  A step is one section that runs with interrupts off, or one
    plain assignment of a call that runs with them on; between any two steps the timer may hand
    the processor to another thread, so the runs are all interleavings. */
module Synch {
  import opened Scheduler

  type Lid = nat
  type Cid = nat

  /** Semaphores: those of the callers, the one inside each lock, and the one on the stack of a
      thread that waits on a condition. */
  datatype SemId = User(n: nat) | LockSem(l: Lid) | WaitSem(t: Tid)

  /** What a thread does next inside a synchronization call.  Down(s, woken): the test of the loop
      in sema_down; woken says that it has slept in this call and was woken. */
  datatype Pc =
    | Free
    | Down(s: SemId, woken: bool)
    | Up(s: SemId)
    | SetHolder(l: Lid)
    | ClearHolder(l: Lid)
    | InitWaiter
    | PushWaiter
    | PopWaiter(c: Cid)

  /** The outer call it is in, when that is cond_wait or cond_broadcast. */
  datatype Frame = NoFrame | Waiting(c: Cid) | Broadcasting(c: Cid)

  datatype Kernel = Kernel(
    sched: Sched,
    pc: map<Tid, Pc>,
    frame: map<Tid, Frame>,
    value: map<SemId, nat>,
    waiters: map<SemId, seq<Tid>>,
    holder: map<Lid, Tid>,
    conds: map<Cid, seq<Tid>>,
    lockOf: map<Cid, Lid>)
  {
    predicate Holds(t: Tid, l: Lid) { l in holder && holder[l] == t }

    function Goto(p: Pc): Kernel { this.(pc := pc[sched.cur := p]) }

    function Return(): Kernel { this.(pc := pc[sched.cur := Free], frame := frame[sched.cur := NoFrame]) }
  }

  // ---------- steps

  datatype Step =
    | SemaDown(s: SemId) | SemaTryDown(s: SemId) | SemaUp(s: SemId)
    | LockAcquire(l: Lid) | LockTryAcquire(l: Lid) | LockRelease(l: Lid)
    | CondWait(c: Cid) | CondSignal(c: Cid) | CondBroadcast(c: Cid)
    | Proceed                          // the running thread goes on inside its call
    | InterruptUp(s: SemId)            // sema_up by an interrupt handler
    | InterruptTryDown(s: SemId)       // sema_try_down by an interrupt handler
    | TimerTick | ThreadYield | ThreadExit | ThreadCreate(t: Tid) | IdleBlock

  /** The callers' side: what the assertions of the original demand. */
  predicate Possible(k: Kernel, a: Step) {
    var t := k.sched.cur;
    match a
    case SemaDown(s) => Calls(k) && s.User? && s in k.value
    case SemaTryDown(s) => Calls(k) && s.User? && s in k.value
    case SemaUp(s) => Calls(k) && s.User? && s in k.value
    case LockAcquire(l) => Calls(k) && LockSem(l) in k.value && !k.Holds(t, l)
    case LockTryAcquire(l) => Calls(k) && LockSem(l) in k.value && !k.Holds(t, l)
    case LockRelease(l) => Calls(k) && k.Holds(t, l)
    case CondWait(c) => Calls(k) && c in k.lockOf && k.Holds(t, k.lockOf[c])
    case CondSignal(c) => Calls(k) && c in k.lockOf && k.Holds(t, k.lockOf[c])
    case CondBroadcast(c) => Calls(k) && c in k.lockOf && k.Holds(t, k.lockOf[c])
    case Proceed => t in k.pc && k.pc[t] != Free
    case InterruptUp(s) => s.User? && s in k.value
    case InterruptTryDown(s) => s.User? && s in k.value
    case TimerTick => true
    case ThreadYield => Calls(k)
    case ThreadExit => Calls(k)
    case ThreadCreate(u) => u !in k.sched.status
    case IdleBlock => t == k.sched.idle
  }

  /** The running thread is an ordinary one, outside any call. */
  predicate Calls(k: Kernel) {
    k.sched.cur != k.sched.idle && k.sched.cur in k.pc && k.pc[k.sched.cur] == Free
  }

  /** Where sema_down on S continues once it has taken the unit. */
  function AfterDown(k: Kernel, s: SemId): (p: Pc)
    requires Shape(k)
  {
    match s
    case User(_) => Free
    case LockSem(l) => SetHolder(l)
    case WaitSem(_) =>
      match k.frame[k.sched.cur]
      case Waiting(c) => if c in k.lockOf then Down(LockSem(k.lockOf[c]), false) else Free
      case _ => Free
  }

  /** Where sema_up on S continues. */
  function AfterUp(k: Kernel, s: SemId): (p: Pc)
    requires Shape(k)
  {
    match (s, k.frame[k.sched.cur])
    case (LockSem(_), Waiting(_)) => Down(WaitSem(k.sched.cur), false)
    case (WaitSem(_), Broadcasting(c)) => PopWaiter(c)
    case _ => Free
  }

  /** The body of the loop of sema_down: take a unit, or queue up and sleep. */
  function DoDown(k: Kernel, s: SemId): (r: Kernel)
    requires Shape(k) && s in k.value
  {
    if k.value[s] > 0 then
      k.(value := k.value[s := k.value[s] - 1]).Goto(AfterDown(k, s))
    else
      k.(waiters := k.waiters[s := k.waiters[s] + [k.sched.cur]], sched := Block(k.sched),
         pc := k.pc[k.sched.cur := Down(s, true)])
  }

  /** sema_up: wake the first waiter, if any, and add a unit. */
  function Signal(k: Kernel, s: SemId): (r: Kernel)
    requires Shape(k) && s in k.value
  {
    var w := k.waiters[s];
    if w == [] then k.(value := k.value[s := k.value[s] + 1])
    else k.(value := k.value[s := k.value[s] + 1], waiters := k.waiters[s := w[1..]],
            sched := Unblock(k.sched, w[0]))
  }

  /** sema_try_down: take a unit if there is one. */
  function TryDown(k: Kernel, s: SemId): (r: Kernel)
    requires s in k.value
  {
    if k.value[s] > 0 then k.(value := k.value[s := k.value[s] - 1]) else k
  }

  /** One step inside a call, by the program counter of the running thread. */
  function DoProceed(k: Kernel): (r: Kernel)
    requires Shape(k) && PcsOk(k)
  {
    var t := k.sched.cur;
    match k.pc[t]
    case Free => k
    case Down(s, _) => DoDown(k, s)
    case Up(s) => Signal(k, s).(pc := k.pc[t := AfterUp(k, s)])
    case SetHolder(l) => k.(holder := k.holder[l := t]).Return()
    case ClearHolder(l) => k.(holder := k.holder - {l}).Goto(Up(LockSem(l)))
    case InitWaiter => k.(value := k.value[WaitSem(t) := 0], waiters := k.waiters[WaitSem(t) := []]).Goto(PushWaiter)
    case PushWaiter =>
      var c := k.frame[t].c;
      k.(conds := k.conds[c := k.conds[c] + [t]]).Goto(ClearHolder(k.lockOf[c]))
    case PopWaiter(c) =>
      if k.conds[c] == [] then k.Return()
      else k.(conds := k.conds[c := k.conds[c][1..]]).Goto(Up(WaitSem(k.conds[c][0])))
  }

  function Next(k: Kernel, a: Step): (r: Kernel)
    requires Shape(k) && PcsOk(k) && Possible(k, a)
  {
    var t := k.sched.cur;
    match a
    case SemaDown(s) => k.Goto(Down(s, false))
    case SemaTryDown(s) => TryDown(k, s)
    case SemaUp(s) => k.Goto(Up(s))
    case LockAcquire(l) => k.Goto(Down(LockSem(l), false))
    case LockTryAcquire(l) =>
      var s := LockSem(l);
      if k.value[s] > 0 then k.(value := k.value[s := k.value[s] - 1]).Goto(SetHolder(l)) else k
    case LockRelease(l) => k.Goto(ClearHolder(l))
    case CondWait(c) => k.(frame := k.frame[t := Waiting(c)]).Goto(InitWaiter)
    case CondSignal(c) => k.Goto(PopWaiter(c))
    case CondBroadcast(c) => k.(frame := k.frame[t := Broadcasting(c)]).Goto(PopWaiter(c))
    case Proceed => DoProceed(k)
    case InterruptUp(s) => Signal(k, s)
    case InterruptTryDown(s) => TryDown(k, s)
    case TimerTick => k.(sched := Tick(k.sched))
    case ThreadYield => k.(sched := Yield(k.sched))
    case ThreadExit => k.(sched := Exit(k.sched))
    case ThreadCreate(u) =>
      k.(sched := Create(k.sched, u), pc := k.pc[u := Free], frame := k.frame[u := NoFrame],
         value := k.value[WaitSem(u) := 0], waiters := k.waiters[WaitSem(u) := []])
    case IdleBlock => k.(sched := Block(k.sched))
  }

  // ---------- the invariant

  /** The tables fit together. */
  predicate Shape(k: Kernel) {
    && k.pc.Keys == k.sched.status.Keys && k.frame.Keys == k.pc.Keys && k.sched.cur in k.pc && k.sched.idle in k.pc
    && k.waiters.Keys == k.value.Keys
    && (forall t :: t in k.pc ==> WaitSem(t) in k.value)
    && k.conds.Keys == k.lockOf.Keys
    && (forall c :: c in k.lockOf ==> LockSem(k.lockOf[c]) in k.value)
  }

  /** A thread's program counter fits the call it is in and the locks it holds. */
  predicate PcOk(k: Kernel, t: Tid, p: Pc, f: Frame) {
    match p
    case Free => f == NoFrame
    case Down(User(n), _) => f == NoFrame && User(n) in k.value
    case Down(LockSem(l), _) => InLockCall(k, f, l) && !k.Holds(t, l)
    case Down(WaitSem(u), _) => u == t && f.Waiting? && f.c in k.lockOf && !k.Holds(t, k.lockOf[f.c])
    case Up(User(n)) => f == NoFrame && User(n) in k.value
    case Up(LockSem(l)) => InLockCall(k, f, l) && !k.Holds(t, l)
    case Up(WaitSem(u)) => u in k.pc && !f.Waiting? && (f.Broadcasting? ==> f.c in k.lockOf && k.Holds(t, k.lockOf[f.c]))
    case SetHolder(l) => InLockCall(k, f, l)
    case ClearHolder(l) => InLockCall(k, f, l) && k.Holds(t, l)
    case InitWaiter => f.Waiting? && f.c in k.lockOf && k.Holds(t, k.lockOf[f.c])
    case PushWaiter => f.Waiting? && f.c in k.lockOf && k.Holds(t, k.lockOf[f.c])
    case PopWaiter(c) => c in k.lockOf && k.Holds(t, k.lockOf[c]) && (f == NoFrame || f == Broadcasting(c))
  }

  predicate InLockCall(k: Kernel, f: Frame, l: Lid) {
    LockSem(l) in k.value && (f == NoFrame || (f.Waiting? && f.c in k.lockOf && k.lockOf[f.c] == l))
  }

  predicate PcsOk(k: Kernel)
    requires Shape(k)
  {
    && k.pc[k.sched.idle] == Free
    && (forall t :: t in k.pc ==> PcOk(k, t, k.pc[t], k.frame[t]))
  }
}
