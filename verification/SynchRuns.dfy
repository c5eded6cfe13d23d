/** Every reachable state of the synchronization machine: the invariant holds after any run, and
    what it says about sleepers, locks and condition signals. */
module SynchRuns {
  import opened Seqs
  import opened Scheduler
  import opened Synch
  import opened SynchInv

  // ---------- steps of the scheduler alone

  /** Nobody but the idle thread starts or stops being blocked, and nobody else dies. */
  ghost predicate Keeps(s: Sched, r: Sched) {
    && r.status.Keys == s.status.Keys && r.idle == s.idle && r.cur in s.status
    && (forall t :: t in s.status && t != s.idle ==> (r.status[t] == Blocked <==> s.status[t] == Blocked))
    && (forall t :: t in s.status && t != s.cur && r.status[t] == Dying ==> s.status[t] == Dying)
  }

  lemma ScheduleKeeps(s: Sched)
    requires Leaving(s)
    ensures Keeps(s, Schedule(s))
  {
    if s.ready != [] { assert s.ready[0] in s.ready; }
  }

  lemma YieldLeaving(s: Sched)
    requires Ok(s)
    ensures Keeps(s, Yield(s)) && Yield(s).status[s.cur] != Dying
  {
    var r := s.(status := s.status[s.cur := Ready], ready := if s.cur != s.idle then s.ready + [s.cur] else s.ready);
    assert forall u :: u in r.ready <==> u in s.ready || (u == s.cur && s.cur != s.idle);
    ScheduleKeeps(r);
  }

  lemma YieldKeeps(s: Sched)
    requires Ok(s)
    ensures Ok(Yield(s)) && Keeps(s, Yield(s)) && Yield(s).status[s.cur] != Dying
  {
    hide Ok, Keeps, Yield;
    YieldOk(s);
    YieldLeaving(s);
  }

  lemma ExitKeeps(s: Sched)
    requires Ok(s) && s.cur != s.idle
    ensures Ok(Exit(s)) && Keeps(s, Exit(s))
  {
    ExitOk(s);
    ScheduleKeeps(s.(status := s.status[s.cur := Dying]));
  }

  lemma IdleKeeps(s: Sched)
    requires Ok(s) && s.cur == s.idle
    ensures Ok(Block(s)) && Keeps(s, Block(s)) && Block(s).status[s.cur] != Dying
  {
    BlockOk(s);
    ScheduleKeeps(s.(status := s.status[s.cur := Blocked]));
  }

  lemma TickKeeps(s: Sched)
    requires Ok(s)
    ensures Ok(Tick(s)) && Keeps(s, Tick(s)) && Tick(s).status[s.cur] != Dying
  {
    TickOk(s);
    if s.ticks + 1 >= TIME_SLICE { YieldKeeps(s); }
  }

  /** Only who runs changes. */
  lemma SwitchInv(k: Kernel, r: Sched)
    requires Inv(k) && Ok(r) && Keeps(k.sched, r)
    requires k.sched.cur in r.status && r.status[k.sched.cur] == Dying ==> k.pc[k.sched.cur] == Free
    ensures Inv(k.(sched := r))
  {
    hide Ok, Shape, PcsOk, WaitersOk, WakeOk, LocksOk, CondsOk, DeadOk, Keeps;
    var k' := k.(sched := r);
    SwitchShape(k, k');
    SwitchPcs(k, k');
    SwitchWaiters(k, k');
    SwitchWake(k, k');
    SwitchLocks(k, k');
    SwitchConds(k, k');
    SwitchDead(k, k');
  }

  lemma SwitchShape(k: Kernel, k': Kernel)
    requires Shape(k) && k' == k.(sched := k'.sched) && Keeps(k.sched, k'.sched)
    ensures Shape(k') && k'.sched.idle == k.sched.idle
  {
  }

  lemma SwitchWake(k: Kernel, k': Kernel)
    requires Shape(k) && WakeOk(k) && Shape(k') && k' == k.(sched := k'.sched)
    ensures WakeOk(k')
  {
    forall s | s in k'.value && k'.waiters[s] != [] ensures k'.value[s] <= |Woken(k', s)| {
      assert Woken(k', s) == Woken(k, s);
    }
  }

  lemma SwitchDead(k: Kernel, k': Kernel)
    requires Shape(k) && DeadOk(k) && Shape(k') && k' == k.(sched := k'.sched) && Keeps(k.sched, k'.sched)
    requires k.sched.cur in k'.sched.status && k'.sched.status[k.sched.cur] == Dying ==> k.pc[k.sched.cur] == Free
    ensures DeadOk(k')
  {
  }

  lemma SwitchPcs(k: Kernel, k': Kernel)
    requires Shape(k) && PcsOk(k) && Shape(k') && k' == k.(sched := k'.sched) && k'.sched.idle == k.sched.idle
    ensures PcsOk(k')
  {
    forall t | t in k'.pc ensures PcOk(k', t, k'.pc[t], k'.frame[t]) {
      assert PcOk(k, t, k.pc[t], k.frame[t]);
      PcOkKept(k, k', t, k.pc[t], k.frame[t]);
    }
  }

  lemma SwitchWaiters(k: Kernel, k': Kernel)
    requires Shape(k) && WaitersOk(k) && Shape(k') && k' == k.(sched := k'.sched) && Keeps(k.sched, k'.sched)
    ensures WaitersOk(k')
  {
    forall s | s in k'.waiters ensures QueueOk(k', s) {
      assert QueueOk(k, s);
      forall t | t in k'.waiters[s] ensures Sleeps(k', t, s) {
        assert Sleeps(k, t, s);
      }
    }
    forall t | t in k'.pc && k'.sched.status[t] == Blocked && t != k'.sched.idle ensures Queued(k', t) {
      assert Queued(k, t);
    }
  }

  lemma SwitchLocks(k: Kernel, k': Kernel)
    requires LocksOk(k) && k' == k.(sched := k'.sched)
    ensures LocksOk(k')
  {
    forall l | LockSem(l) in k'.value ensures k'.value[LockSem(l)] + |Owners(k', l)| == 1 {
      assert Owners(k', l) == Owners(k, l);
    }
  }

  lemma SwitchConds(k: Kernel, k': Kernel)
    requires Shape(k) && CondsOk(k) && Shape(k') && k' == k.(sched := k'.sched)
    ensures CondsOk(k')
  {
    forall c | c in k'.conds ensures ListOk(k', c) {
      assert ListOk(k, c);
    }
    forall t | t in k'.pc ensures SignalOk(k', t) {
      assert SignalOk(k, t) && InFlight(k', t) == InFlight(k, t);
    }
  }

  // ---------- thread_create

  /** K' is K with a new thread U, outside any call. */
  ghost predicate Adds(k: Kernel, k': Kernel, u: Tid)
    requires Shape(k)
  {
    && u !in k.pc
    && k'.pc == k.pc[u := Free] && k'.frame == k.frame[u := NoFrame]
    && k'.value == k.value[WaitSem(u) := 0] && k'.waiters == k.waiters[WaitSem(u) := []]
    && k'.holder == k.holder && k'.conds == k.conds && k'.lockOf == k.lockOf
    && k'.sched.status == k.sched.status[u := Ready] && k'.sched.cur == k.sched.cur && k'.sched.idle == k.sched.idle
  }

  lemma CreateInv(k: Kernel, k': Kernel, u: Tid)
    requires Inv(k) && Adds(k, k', u) && Ok(k'.sched)
    ensures Inv(k')
  {
    hide Ok, Shape, PcsOk, WaitersOk, WakeOk, LocksOk, CondsOk, DeadOk, Adds;
    CreateShape(k, k', u);
    CreatePcs(k, k', u);
    CreateWaiters(k, k', u);
    CreateWake(k, k', u);
    CreateLocks(k, k', u);
    CreateConds(k, k', u);
    CreateDead(k, k', u);
  }

  lemma CreateDead(k: Kernel, k': Kernel, u: Tid)
    requires Shape(k) && DeadOk(k) && Adds(k, k', u) && Shape(k')
    ensures DeadOk(k')
  {
  }

  lemma CreateStep(k: Kernel, u: Tid)
    requires Inv(k) && Possible(k, ThreadCreate(u))
    ensures Inv(Next(k, ThreadCreate(u)))
  {
    hide PcsOk, WaitersOk, WakeOk, LocksOk, CondsOk, DeadOk;
    CreateOk(k.sched, u);
    var k' := Next(k, ThreadCreate(u));
    assert k'.sched.status == k.sched.status[u := Ready];
    CreateInv(k, k', u);
  }

  lemma CreateShape(k: Kernel, k': Kernel, u: Tid)
    requires Shape(k) && Adds(k, k', u)
    ensures Shape(k')
  {
  }

  lemma CreatePcs(k: Kernel, k': Kernel, u: Tid)
    requires Shape(k) && PcsOk(k) && Adds(k, k', u) && Shape(k')
    ensures PcsOk(k')
  {
    forall t | t in k'.pc ensures PcOk(k', t, k'.pc[t], k'.frame[t]) {
      if t != u {
        assert PcOk(k, t, k.pc[t], k.frame[t]);
        PcOkGrows(k, k', t, k.pc[t], k.frame[t]);
      }
    }
  }

  lemma PcOkGrows(k: Kernel, k': Kernel, t: Tid, p: Pc, f: Frame)
    requires PcOk(k, t, p, f) && k.value.Keys <= k'.value.Keys && k'.lockOf == k.lockOf && k.pc.Keys <= k'.pc.Keys
    requires k'.holder == k.holder
    ensures PcOk(k', t, p, f)
  {
  }

  lemma CreateWaiters(k: Kernel, k': Kernel, u: Tid)
    requires Shape(k) && PcsOk(k) && WaitersOk(k) && Adds(k, k', u) && Shape(k')
    ensures WaitersOk(k')
  {
    forall s | s in k'.waiters ensures QueueOk(k', s) {
      CreateQueue(k, k', u, s);
    }
    forall t | t in k'.pc && k'.sched.status[t] == Blocked && t != k'.sched.idle ensures Queued(k', t) {
      CreateQueued(k, k', u, t);
    }
  }

  lemma CreateQueue(k: Kernel, k': Kernel, u: Tid, s: SemId)
    requires Shape(k) && WaitersOk(k) && Adds(k, k', u) && Shape(k') && s in k'.waiters
    ensures QueueOk(k', s)
  {
    if s != WaitSem(u) {
      assert QueueOk(k, s);
      forall t | t in k'.waiters[s] ensures Sleeps(k', t, s) {
        assert Sleeps(k, t, s);
      }
    }
  }

  lemma CreateQueued(k: Kernel, k': Kernel, u: Tid, t: Tid)
    requires Shape(k) && PcsOk(k) && WaitersOk(k) && Adds(k, k', u)
    requires t in k.pc && k.sched.status[t] == Blocked && t != k.sched.idle
    ensures Queued(k', t)
  {
    assert Queued(k, t);
    assert PcOk(k, t, k.pc[t], k.frame[t]);
  }

  lemma CreateWake(k: Kernel, k': Kernel, u: Tid)
    requires Shape(k) && WakeOk(k) && Adds(k, k', u) && Shape(k')
    ensures WakeOk(k')
  {
    forall s | s in k'.value && k'.waiters[s] != [] ensures k'.value[s] <= |Woken(k', s)| {
      WokenGrows(k.pc, k.waiters[s], s, u);
    }
  }

  lemma WokenGrows(pc: map<Tid, Pc>, w: seq<Tid>, s: SemId, u: Tid)
    requires u !in pc
    ensures WokenOf(pc[u := Free], w, s) == WokenOf(pc, w, s)
  {
  }

  lemma CreateLocks(k: Kernel, k': Kernel, u: Tid)
    requires Shape(k) && LocksOk(k) && Adds(k, k', u)
    ensures LocksOk(k')
  {
    forall l | LockSem(l) in k'.value ensures k'.value[LockSem(l)] + |Owners(k', l)| == 1 {
      assert !k.Holds(u, l);
      assert Owners(k', l) == Owners(k, l);
    }
  }

  lemma CreateConds(k: Kernel, k': Kernel, u: Tid)
    requires Shape(k) && PcsOk(k) && CondsOk(k) && Adds(k, k', u) && Shape(k')
    ensures CondsOk(k')
  {
    forall c | c in k'.conds ensures ListOk(k', c) {
      assert ListOk(k, c);
    }
    forall t | t in k'.pc ensures SignalOk(k', t) {
      CreateSignal(k, k', u, t);
    }
  }

  lemma CreateSignal(k: Kernel, k': Kernel, u: Tid, t: Tid)
    requires Shape(k) && PcsOk(k) && CondsOk(k) && Adds(k, k', u) && Shape(k') && t in k'.pc
    ensures SignalOk(k', t)
  {
    hide PcOk, ListsOk, Adds, Listed, Posted;
    CreateSame(k, k', u, t);
    if t == u {
      NoSignalForNobody(k, u);
    } else {
      assert SignalOk(k, t);
    }
  }

  lemma CreateSame(k: Kernel, k': Kernel, u: Tid, t: Tid)
    requires Shape(k) && Adds(k, k', u) && Shape(k') && t in k'.pc
    ensures InFlight(k', t) == InFlight(k, t)
    ensures t == u ==> u !in k.pc && !Listed(k', t) && !Posted(k', t) && k'.value[WaitSem(t)] == 0
    ensures t != u ==> t in k.pc && Listed(k', t) == Listed(k, t) && Posted(k', t) == Posted(k, t)
    ensures t != u ==> k'.value[WaitSem(t)] == k.value[WaitSem(t)]
  {
  }

  lemma NoSignalForNobody(k: Kernel, u: Tid)
    requires Shape(k) && PcsOk(k) && u !in k.pc
    ensures InFlight(k, u) == {}
  {
    forall v | v in k.pc ensures k.pc[v] != Up(WaitSem(u)) {
      assert PcOk(k, v, k.pc[v], k.frame[v]);
    }
  }

  // ---------- every step

  lemma ProceedInv(k: Kernel)
    requires Inv(k) && k.pc[k.sched.cur] != Free
    ensures Inv(DoProceed(k))
  {
    hide WaitersOk, WakeOk, LocksOk, CondsOk, DeadOk;
    var t := k.sched.cur;
    var f := k.frame[t];
    assert PcOk(k, t, k.pc[t], f);
    match k.pc[t]
    case Down(s, _) => DownInv(k, s);
    case Up(s) => UpInv(k, s);
    case SetHolder(l) => SetHolderInv(k, DoProceed(k), l);
    case ClearHolder(l) => ClearHolderInv(k, DoProceed(k), l);
    case InitWaiter => InitWaiterInv(k);
    case PushWaiter => PushWaiterInv(k);
    case PopWaiter(c) =>
      if k.conds[c] == [] { PopNobodyInv(k, c); } else { PopWaiterInv(k, c); }
  }

  lemma DownInv(k: Kernel, s: SemId)
    requires Inv(k) && k.pc[k.sched.cur].Down? && k.pc[k.sched.cur].s == s && s in k.value
    ensures Inv(DoDown(k, s))
  {
    hide WaitersOk, WakeOk, LocksOk, CondsOk, DeadOk;
    if k.value[s] == 0 {
      BlockInv(k, s);
    } else {
      var t := k.sched.cur;
      assert PcOk(k, t, k.pc[t], k.frame[t]);
      TakeInv(k, DoDown(k, s), s, AfterDown(k, s));
    }
  }

  lemma UpInv(k: Kernel, s: SemId)
    requires Inv(k) && k.pc[k.sched.cur] == Up(s) && s in k.value
    ensures Inv(DoProceed(k))
  {
    hide Inv, Ok, Shape, PcsOk, PcOk, WaitersOk, LocksOk, CondsOk, ListsOk, GivesAt;
    Parts(k);
    SignalRouses(k, s);
    UpTarget(k, s, k.frame[k.sched.cur]);
    NotIdle(k);
    GiveInv(k, DoProceed(k), s, AfterUp(k, s), k.frame[k.sched.cur]);
  }

  lemma NotIdle(k: Kernel)
    requires Inv(k) && k.pc[k.sched.cur] != Free
    ensures k.sched.cur != k.sched.idle
  {
  }

  lemma UpTarget(k: Kernel, s: SemId, f: Frame)
    requires Shape(k) && f == k.frame[k.sched.cur] && PcOk(k, k.sched.cur, Up(s), f)
    ensures GivesAt(k, s, Up(s), AfterUp(k, s), f.Waiting?) && PcOk(k, k.sched.cur, AfterUp(k, s), f)
  {
  }

  lemma InterruptInv(k: Kernel, s: SemId)
    requires Inv(k) && s.User? && s in k.value
    ensures Inv(Signal(k, s))
  {
    hide Inv, Ok, Shape, PcOk, WaitersOk, LocksOk, CondsOk, ListsOk, Rouses;
    Parts(k);
    var t := k.sched.cur;
    SignalRouses(k, s);
    assert k.pc == k.pc[t := k.pc[t]];
    GiveInv(k, Signal(k, s), s, k.pc[t], k.frame[t]);
  }

  /** An interrupt handler takes a unit from a semaphore of the callers. */
  lemma TryDownInv(k: Kernel, s: SemId)
    requires Inv(k) && s.User? && s in k.value
    ensures Inv(TryDown(k, s))
  {
    hide Ok, PcsOk, WaitersOk, WakeOk, LocksOk, CondsOk, DeadOk;
    if k.value[s] > 0 {
      var k' := TryDown(k, s);
      TryDownPcs(k, k', s);
      TryDownWaiters(k, k', s);
      TryDownWake(k, k', s);
      TryDownLocks(k, k', s);
      TryDownConds(k, k', s);
    }
  }

  lemma TryDownPcs(k: Kernel, k': Kernel, s: SemId)
    requires Shape(k) && PcsOk(k) && DeadOk(k) && s.User? && s in k.value && k.value[s] > 0 && k' == TryDown(k, s)
    ensures Shape(k') && PcsOk(k') && DeadOk(k')
  {
    forall t | t in k'.pc ensures PcOk(k', t, k'.pc[t], k'.frame[t]) { assert PcOk(k, t, k.pc[t], k.frame[t]); }
  }

  lemma TryDownWaiters(k: Kernel, k': Kernel, s: SemId)
    requires Shape(k) && Shape(k') && WaitersOk(k) && k' == k.(value := k'.value)
    ensures WaitersOk(k')
  {
    forall z | z in k'.waiters ensures QueueOk(k', z) {
      assert QueueOk(k, z);
      forall t | t in k'.waiters[z] ensures Sleeps(k', t, z) { assert Sleeps(k, t, z); }
    }
    forall t | t in k'.pc && k'.sched.status[t] == Blocked && t != k'.sched.idle ensures Queued(k', t) {
      assert Queued(k, t);
    }
  }

  lemma TryDownWake(k: Kernel, k': Kernel, s: SemId)
    requires Shape(k) && Shape(k') && WakeOk(k) && s in k.value && k.value[s] > 0 && k' == TryDown(k, s)
    ensures WakeOk(k')
  {
    forall z | z in k'.value && k'.waiters[z] != [] ensures k'.value[z] <= |Woken(k', z)| {
      assert Woken(k', z) == Woken(k, z);
    }
  }

  lemma TryDownLocks(k: Kernel, k': Kernel, s: SemId)
    requires LocksOk(k) && s.User? && s in k.value && k.value[s] > 0 && k' == TryDown(k, s)
    ensures LocksOk(k')
  {
    forall l | LockSem(l) in k'.value ensures k'.value[LockSem(l)] + |Owners(k', l)| == 1 {
      assert Owners(k', l) == Owners(k, l);
    }
  }

  lemma TryDownConds(k: Kernel, k': Kernel, s: SemId)
    requires Shape(k) && Shape(k') && CondsOk(k) && s.User? && s in k.value && k.value[s] > 0 && k' == TryDown(k, s)
    ensures CondsOk(k')
  {
    forall c | c in k'.conds ensures ListOk(k', c) { assert ListOk(k, c); }
    forall t | t in k'.pc ensures SignalOk(k', t) {
      assert SignalOk(k, t);
      assert InFlight(k', t) == InFlight(k, t);
    }
  }

  lemma CallInv(k: Kernel, a: Step, p: Pc, f: Frame)
    requires Inv(k) && Possible(k, a) && Calls(k) && Next(k, a) == k.(pc := k.pc[k.sched.cur := p], frame := k.frame[k.sched.cur := f])
    requires PcOk(k, k.sched.cur, p, f) && (p.Down? ==> !p.woken && !p.s.WaitSem?) && (p.Up? ==> p.s.User?)
    requires !p.SetHolder? && (f.Waiting? ==> p.InitWaiter?)
    ensures Inv(Next(k, a))
  {
    hide WaitersOk, WakeOk, LocksOk, CondsOk, DeadOk;
    assert PcOk(k, k.sched.cur, Free, k.frame[k.sched.cur]);
    StartInv(k, Next(k, a), p, f);
  }

  lemma NextInv(k: Kernel, a: Step)
    requires Inv(k) && Possible(k, a)
    ensures Inv(Next(k, a))
  {
    hide Inv, Shape, Ok, PcsOk, DoProceed, Signal, TryDown, Tick, Yield, Exit, Block, Create, Calls;
    match a
    case Proceed => ProceedInv(k);
    case InterruptUp(s) => InterruptInv(k, s);
    case InterruptTryDown(s) => TryDownInv(k, s);
    case TimerTick => TickStep(k);
    case ThreadYield => YieldStep(k);
    case ThreadExit => ExitStep(k);
    case IdleBlock => IdleStep(k);
    case ThreadCreate(u) => CreateStep(k, u);
    case SemaTryDown(s) => TryDownInv(k, s);
    case LockTryAcquire(l) => TryLockInv(k, l);
    case SemaDown(_) | SemaUp(_) | LockAcquire(_) => SemaStartInv(k, a);
    case LockRelease(l) => ReleaseStartInv(k, l);
    case CondWait(_) | CondSignal(_) | CondBroadcast(_) => CondStartInv(k, a);
  }

  lemma TickStep(k: Kernel)
    requires Inv(k)
    ensures Inv(k.(sched := Tick(k.sched)))
  {
    hide Inv, Shape, Ok, Keeps, Tick, PcsOk;
    Parts(k);
    TickKeeps(k.sched);
    SwitchInv(k, Tick(k.sched));
  }

  lemma YieldStep(k: Kernel)
    requires Inv(k)
    ensures Inv(k.(sched := Yield(k.sched)))
  {
    hide Inv, Shape, Ok, Keeps, Yield, PcsOk;
    Parts(k);
    YieldKeeps(k.sched);
    SwitchInv(k, Yield(k.sched));
  }

  lemma ExitStep(k: Kernel)
    requires Inv(k) && Calls(k)
    ensures Inv(k.(sched := Exit(k.sched)))
  {
    hide Inv, Shape, Ok, Keeps, Exit, PcsOk;
    Parts(k);
    ExitKeeps(k.sched);
    SwitchInv(k, Exit(k.sched));
  }

  lemma IdleStep(k: Kernel)
    requires Inv(k) && k.sched.cur == k.sched.idle
    ensures Inv(k.(sched := Block(k.sched)))
  {
    hide Inv, Shape, Ok, Keeps, Block, PcsOk;
    Parts(k);
    IdleKeeps(k.sched);
    SwitchInv(k, Block(k.sched));
  }

  lemma TryLockInv(k: Kernel, l: Lid)
    requires Inv(k) && Possible(k, LockTryAcquire(l))
    ensures Inv(Next(k, LockTryAcquire(l)))
  {
    hide Inv, Shape, Ok, PcsOk;
    Parts(k);
    if k.value[LockSem(l)] > 0 { TakeInv(k, Next(k, LockTryAcquire(l)), LockSem(l), SetHolder(l)); }
  }

  lemma CallFrame(k: Kernel)
    requires Inv(k) && Calls(k)
    ensures k.sched.cur in k.frame && k.frame[k.sched.cur] == NoFrame && k.frame == k.frame[k.sched.cur := NoFrame]
  {
    Parts(k);
  }

  lemma SemaStartInv(k: Kernel, a: Step)
    requires Inv(k) && Possible(k, a) && (a.SemaDown? || a.SemaUp? || a.LockAcquire?)
    ensures Inv(Next(k, a))
  {
    hide Inv, Shape, Ok, PcsOk;
    CallFrame(k);
    match a
    case SemaDown(s) => CallInv(k, a, Down(s, false), NoFrame);
    case SemaUp(s) => CallInv(k, a, Up(s), NoFrame);
    case LockAcquire(l) => CallInv(k, a, Down(LockSem(l), false), NoFrame);
  }

  lemma ReleaseStartInv(k: Kernel, l: Lid)
    requires Inv(k) && Possible(k, LockRelease(l))
    ensures Inv(Next(k, LockRelease(l)))
  {
    hide Inv, Shape, Ok, PcsOk;
    Parts(k);
    CallFrame(k);
    CallInv(k, LockRelease(l), ClearHolder(l), NoFrame);
  }

  lemma CondStartInv(k: Kernel, a: Step)
    requires Inv(k) && Possible(k, a) && (a.CondWait? || a.CondSignal? || a.CondBroadcast?)
    ensures Inv(Next(k, a))
  {
    hide Inv, Shape, Ok, PcsOk;
    CallFrame(k);
    match a
    case CondWait(c) => CallInv(k, a, InitWaiter, Waiting(c));
    case CondSignal(c) => CallInv(k, a, PopWaiter(c), NoFrame);
    case CondBroadcast(c) => CallInv(k, a, PopWaiter(c), Broadcasting(c));
  }

  // ---------- runs

  /** The state in which the initial thread has set up its objects and starts to use them. */
  ghost predicate Init(k: Kernel) {
    && Ok(k.sched) && Shape(k)
    && (forall t :: t in k.pc ==> k.pc[t] == Free && k.frame[t] == NoFrame && k.sched.status[t] != Dying)
    && (forall t :: t in k.pc && k.sched.status[t] == Blocked ==> t == k.sched.idle)
    && (forall s :: s in k.value ==> k.waiters[s] == [] && (s.LockSem? ==> k.value[s] == 1) && (s.WaitSem? ==> k.value[s] == 0))
    && k.holder == map[] && (forall c :: c in k.conds ==> k.conds[c] == [])
  }

  lemma InitInv(k: Kernel)
    requires Init(k)
    ensures Inv(k)
  {
    hide Ok, PcsOk, WaitersOk, WakeOk, LocksOk, CondsOk, DeadOk;
    InitWaits(k);
    InitLocks(k);
    InitConds(k);
  }

  lemma InitWaits(k: Kernel)
    requires Init(k)
    ensures PcsOk(k) && WaitersOk(k) && WakeOk(k) && DeadOk(k)
  {
    hide Ok;
  }

  lemma InitLocks(k: Kernel)
    requires Init(k)
    ensures LocksOk(k)
  {
    hide Ok;
    forall l | LockSem(l) in k.value ensures |Owners(k, l)| == 0 {
      assert Owners(k, l) == {};
    }
  }

  lemma InitConds(k: Kernel)
    requires Init(k)
    ensures CondsOk(k)
  {
    hide Ok;
    forall t | t in k.pc ensures SignalOk(k, t) {
      assert InFlight(k, t) == {};
    }
  }

  /** The state after the steps of RUN, where a step whose caller breaks the rules is not taken. */
  ghost function After(k: Kernel, run: seq<Step>): (r: Kernel)
    requires Inv(k)
    ensures Inv(r)
    decreases |run|
  {
    if run == [] then k
    else if !Possible(k, run[0]) then After(k, run[1..])
    else
      NextInv(k, run[0]);
      After(Next(k, run[0]), run[1..])
  }

  // ---------- what holds in every reachable state

  /** Each thread is on at most one list.  A thread on the waiter list of Z is asleep in the loop of sema_down on Z,
      is there once and on no other waiter list, is not ready and is not the idle thread; conversely every sleeper
      but the idle thread is on the list of the semaphore it is in sema_down on. */
  lemma SleeperOnOneList(boot: Kernel, run: seq<Step>, t: Tid, z: SemId)
    requires Init(boot)
    ensures Inv(boot)
    ensures var k := After(boot, run); NoDup(k.sched.ready)
    ensures var k := After(boot, run);
      z in k.waiters && t in k.waiters[z] ==>
        && t in k.pc && k.pc[t] == Down(z, true) && k.sched.status[t] == Blocked && NoDup(k.waiters[z])
        && t != k.sched.idle && t != k.sched.cur && t !in k.sched.ready
        && (forall y :: y in k.waiters && t in k.waiters[y] ==> y == z)
    ensures var k := After(boot, run);
      t in k.pc && k.sched.status[t] == Blocked && t != k.sched.idle ==>
        k.pc[t].Down? && k.pc[t].s in k.waiters && t in k.waiters[k.pc[t].s]
  {
    InitInv(boot);
    hide After, WakeOk, LocksOk, CondsOk, DeadOk, Init;
    var k := After(boot, run);
    if z in k.waiters && t in k.waiters[z] {
      assert QueueOk(k, z);
      forall y | y in k.waiters && t in k.waiters[y] ensures y == z { assert QueueOk(k, y); }
    }
    if t in k.pc && k.sched.status[t] == Blocked && t != k.sched.idle { assert Queued(k, t); }
  }

  /** No lost wakeup: while somebody sleeps there are at most as many units as threads that were woken
      and have not tried again; so if there is a unit, another thread is awake inside the same
      sema_down, after its wakeup, and will test again. */
  lemma NoLostWakeup(boot: Kernel, run: seq<Step>, s: SemId)
    requires Init(boot)
    ensures Inv(boot)
    ensures var k := After(boot, run); s in k.value && k.waiters[s] != [] ==> k.value[s] <= |Woken(k, s)|
    ensures var k := After(boot, run);
      s in k.value && k.waiters[s] != [] && k.value[s] > 0 ==>
        exists u :: u in k.pc && k.pc[u] == Down(s, true) && k.sched.status[u] in {Ready, Running}
  {
    InitInv(boot);
    var k := After(boot, run);
    if s in k.value && k.waiters[s] != [] && k.value[s] > 0 {
      WokenIsAwake(k, s);
    }
  }

  lemma WokenIsAwake(k: Kernel, s: SemId)
    requires Inv(k) && s in k.value && k.waiters[s] != [] && k.value[s] > 0
    ensures exists u :: u in k.pc && k.pc[u] == Down(s, true) && k.sched.status[u] in {Ready, Running}
  {
    assert Woken(k, s) != {};
    var u :| u in Woken(k, s);
    assert k.sched.status[u] == Blocked ==> Queued(k, u);
  }

  /** Mutual exclusion, from taking the unit to giving it back; the semaphore is 0 meanwhile, and a
      free lock is available. */
  lemma LockExclusive(boot: Kernel, run: seq<Step>, l: Lid)
    requires Init(boot)
    ensures Inv(boot)
    ensures var k := After(boot, run);
      LockSem(l) in k.value ==>
        && (forall t, u :: t in k.pc && u in k.pc && Owns(k, t, l) && Owns(k, u, l) ==> t == u)
        && (k.value[LockSem(l)] == 0 <==> exists t :: t in k.pc && Owns(k, t, l))
        && k.value[LockSem(l)] <= 1
  {
    InitInv(boot);
    var k := After(boot, run);
    if LockSem(l) in k.value { OwnersAndUnits(k, l); }
  }

  lemma OwnersAndUnits(k: Kernel, l: Lid)
    requires LocksOk(k) && LockSem(l) in k.value
    ensures forall t, u :: t in k.pc && u in k.pc && Owns(k, t, l) && Owns(k, u, l) ==> t == u
    ensures k.value[LockSem(l)] == 0 <==> exists t :: t in k.pc && Owns(k, t, l)
    ensures k.value[LockSem(l)] <= 1
  {
    forall t, u | t in k.pc && u in k.pc && Owns(k, t, l) && Owns(k, u, l) ensures t == u {
      MutualExclusion(k, l, t, u);
    }
    if t :| t in k.pc && Owns(k, t, l) {
      MutualExclusion(k, l, t, t);
    } else {
      assert Owners(k, l) == {};
    }
  }

  /** No lost signal: a thread asleep in cond_wait is still on the condition's list, or exactly one
      thread is delivering its signal. */
  lemma NoLostSignal(boot: Kernel, run: seq<Step>, t: Tid)
    requires Init(boot)
    ensures Inv(boot)
    ensures var k := After(boot, run);
      t in k.pc && k.pc[t] == Down(WaitSem(t), true) && k.sched.status[t] == Blocked ==>
        if Listed(k, t) then InFlight(k, t) == {} else |InFlight(k, t)| == 1
  {
    InitInv(boot);
    var k := After(boot, run);
    if t in k.pc && k.pc[t] == Down(WaitSem(t), true) && k.sched.status[t] == Blocked {
      AsleepInWait(k, t);
    }
  }

  lemma AsleepInWait(k: Kernel, t: Tid)
    requires Inv(k) && t in k.pc && k.pc[t] == Down(WaitSem(t), true) && k.sched.status[t] == Blocked
    ensures if Listed(k, t) then InFlight(k, t) == {} else |InFlight(k, t)| == 1
  {
    var s := WaitSem(t);
    assert Queued(k, t) && SignalOk(k, t) && PcOk(k, t, k.pc[t], k.frame[t]);
    NobodyElseWaits(k, t);
  }

  lemma NobodyElseWaits(k: Kernel, t: Tid)
    requires Shape(k) && PcsOk(k) && WakeOk(k) && t in k.pc && t in k.waiters[WaitSem(t)]
    ensures k.value[WaitSem(t)] == 0
  {
    forall u | u in Woken(k, WaitSem(t)) ensures u == t {
      assert PcOk(k, u, k.pc[u], k.frame[u]);
    }
    assert Woken(k, WaitSem(t)) == {};
  }

  /** cond_signal finds every waiter that has released the lock and has not been signalled yet. */
  lemma SignalFindsWaiter(boot: Kernel, run: seq<Step>, c: Cid, t: Tid)
    requires Init(boot)
    ensures Inv(boot)
    ensures var k := After(boot, run);
      t in k.pc && k.frame[t] == Waiting(c) && Posted(k, t) && InFlight(k, t) == {} && k.value[WaitSem(t)] == 0 ==>
        c in k.conds && t in k.conds[c]
  {
    InitInv(boot);
    var k := After(boot, run);
    if t in k.pc { assert SignalOk(k, t); }
  }
}
