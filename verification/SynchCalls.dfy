/** What the calls of pintos/src/threads/synch.c have achieved when they return: undisturbed, as states
    after runs of the calling thread alone, and under any interleaving, as facts at the return. */
module SynchCalls {
  import opened Seqs
  import opened Scheduler
  import opened Synch
  import opened SynchInv
  import opened SynchRuns

  lemma Here(k: Kernel)
    requires Inv(k)
    ensures Shape(k) && PcsOk(k) && k.sched.cur in k.pc && k.sched.cur in k.frame
  {
  }

  lemma AfterStep(k: Kernel, a: Step, run: seq<Step>)
    requires Inv(k) && Possible(k, a)
    ensures Shape(k) && PcsOk(k) && Inv(Next(k, a)) && After(k, [a] + run) == After(Next(k, a), run)
  {
    hide PcsOk, WaitersOk, WakeOk, LocksOk, CondsOk, DeadOk, Next, Possible;
    NextInv(k, a);
    assert ([a] + run)[1..] == run;
  }

  /** N steps of the running thread inside its call. */
  ghost function Proceeds(n: nat): seq<Step> { seq(n, _ => Proceed) }

  lemma ProceedsStep(k: Kernel, n: nat)
    requires Inv(k) && k.pc[k.sched.cur] != Free
    ensures Shape(k) && PcsOk(k) && Inv(DoProceed(k)) && After(k, Proceeds(n + 1)) == After(DoProceed(k), Proceeds(n))
  {
    hide PcsOk, WaitersOk, WakeOk, LocksOk, CondsOk, DeadOk, DoProceed, After;
    assert Proceeds(n + 1) == [Proceed] + Proceeds(n);
    AfterStep(k, Proceed, Proceeds(n));
  }

  lemma NoSteps(k: Kernel)
    requires Inv(k)
    ensures After(k, Proceeds(0)) == k
  {
    assert Proceeds(0) == [];
  }

  // ---------- semaphores

  /** R is K with one unit more in S and its first waiter, if any, at the end of the ready list. */
  ghost predicate UnitGiven(k: Kernel, r: Kernel, s: SemId) {
    && s in k.value && s in k.waiters && r.value == k.value[s := k.value[s] + 1]
    && if k.waiters[s] == [] then r.waiters == k.waiters && r.sched == k.sched
       else
         var u := k.waiters[s][0];
         && u in k.sched.status && k.sched.status[u] == Blocked
         && r.waiters == k.waiters[s := k.waiters[s][1..]]
         && r.sched == k.sched.(status := k.sched.status[u := Ready], ready := k.sched.ready + [u])
  }

  lemma SignalGives(k: Kernel, s: SemId)
    requires Inv(k) && s in k.value
    ensures Shape(k) && UnitGiven(k, Signal(k, s), s)
  {
    hide PcsOk, WakeOk, LocksOk, CondsOk, DeadOk, Ok;
    if k.waiters[s] != [] {
      assert QueueOk(k, s);
      assert k.waiters[s][0] in k.waiters[s];
    }
  }

  /** The running thread gives a unit of S and goes on at P. */
  lemma ProceedUp(k: Kernel, s: SemId)
    requires Inv(k) && k.pc[k.sched.cur] == Up(s) && s in k.value
    ensures Shape(k) && PcsOk(k) && UnitGiven(k, DoProceed(k), s)
    ensures var r := DoProceed(k);
      var p := match k.frame[k.sched.cur]
        case NoFrame => Free
        case Broadcasting(c) => if s.WaitSem? then PopWaiter(c) else Free
        case Waiting(_) => if s.LockSem? then Down(WaitSem(k.sched.cur), false) else Free;
      r == k.(value := r.value, waiters := r.waiters, sched := r.sched, pc := k.pc[k.sched.cur := p])
  {
    hide WaitersOk, WakeOk, LocksOk, CondsOk, DeadOk, PcsOk, Ok, UnitGiven;
    SignalGives(k, s);
    SameButUnits(k, Signal(k, s), DoProceed(k), s);
  }

  lemma SameButUnits(k: Kernel, g: Kernel, r: Kernel, s: SemId)
    requires UnitGiven(k, g, s) && r == g.(pc := r.pc)
    ensures UnitGiven(k, r, s)
  {
  }

  /** The call begins: the running thread is at P in call F, and that is all. */
  ghost predicate Begun(k: Kernel, k1: Kernel, p: Pc, f: Frame) {
    k1 == k.(pc := k.pc[k.sched.cur := p], frame := k.frame[k.sched.cur := f])
  }

  lemma Restored(k: Kernel, t: Tid, p: Pc)
    requires t in k.pc && t in k.frame && k.pc[t] == Free && k.frame[t] == NoFrame
    ensures k.pc[t := p][t := Free] == k.pc && k.frame[t := NoFrame] == k.frame
  {
  }

  lemma BeginUp(k: Kernel, s: SemId)
    requires Inv(k) && Possible(k, SemaUp(s))
    ensures Shape(k) && PcsOk(k) && s in k.value && k.pc[k.sched.cur] == Free && s.User? && k.frame[k.sched.cur] == NoFrame
    ensures Begun(k, Next(k, SemaUp(s)), Up(s), NoFrame)
  {
    hide WaitersOk, WakeOk, LocksOk, CondsOk, DeadOk, Ok;
    CallFrame(k);
  }

  lemma UpTables(k: Kernel, k1: Kernel, r: Kernel, s: SemId)
    requires k.sched.cur in k.pc && k.sched.cur in k.frame && k.pc[k.sched.cur] == Free && k.frame[k.sched.cur] == NoFrame
    requires Begun(k, k1, Up(s), NoFrame) && UnitGiven(k1, r, s)
    requires r == k1.(value := r.value, waiters := r.waiters, sched := r.sched, pc := k1.pc[k1.sched.cur := Free])
    ensures UnitGiven(k, r, s) && r == k.(value := r.value, waiters := r.waiters, sched := r.sched)
  {
    Restored(k, k.sched.cur, Up(s));
  }

  /** sema_up: one unit more, the first waiter is ready, nothing else. */
  lemma UpOutcome(k: Kernel, s: SemId)
    requires Inv(k) && Possible(k, SemaUp(s))
    ensures var r := After(k, [SemaUp(s)] + Proceeds(1));
      UnitGiven(k, r, s) && r == k.(value := r.value, waiters := r.waiters, sched := r.sched)
  {
    hide Inv, After, Next, DoProceed, Shape, PcsOk, Possible, Proceeds, AfterUp, AfterDown, UnitGiven;
    BeginUp(k, s);
    Here(k);
    AfterStep(k, SemaUp(s), Proceeds(1));
    var t, k1 := k.sched.cur, Next(k, SemaUp(s));
    Here(k1);
    ProceedsStep(k1, 0);
    ProceedUp(k1, s);
    NoSteps(DoProceed(k1));
    UpTables(k, k1, DoProceed(k1), s);
  }

  /** R is S with the running thread asleep and the next one, or the idle thread, running. */
  ghost predicate Asleep(s: Sched, r: Sched) {
    var next := if s.ready == [] then s.idle else s.ready[0];
    && r.cur == next && r.idle == s.idle && r.ready == (if s.ready == [] then [] else s.ready[1..])
    && r.status == s.status[s.cur := Blocked][next := Running]
  }

  /** A unit is there: it is taken, and the thread goes on. */
  lemma ProceedTake(k: Kernel, s: SemId)
    requires Inv(k) && k.pc[k.sched.cur].Down? && k.pc[k.sched.cur].s == s && s in k.value && k.value[s] > 0
    ensures Shape(k) && PcsOk(k)
    ensures var p := if s.User? then Free else if s.LockSem? then SetHolder(s.l) else AfterDown(k, s);
      DoProceed(k) == k.(value := k.value[s := k.value[s] - 1], pc := k.pc[k.sched.cur := p])
  {
    hide WaitersOk, WakeOk, LocksOk, CondsOk, DeadOk, PcsOk, Ok;
  }

  /** None is there: the thread is last in the queue and sleeps. */
  lemma ProceedSleep(k: Kernel, s: SemId)
    requires Inv(k) && k.pc[k.sched.cur].Down? && k.pc[k.sched.cur].s == s && s in k.value && k.value[s] == 0
    ensures Shape(k) && PcsOk(k)
    ensures var t, r := k.sched.cur, DoProceed(k);
      && r == k.(waiters := k.waiters[s := k.waiters[s] + [t]], pc := k.pc[t := Down(s, true)], sched := r.sched)
      && Asleep(k.sched, r.sched) && r.sched.cur != t
  {
    hide WaitersOk, WakeOk, LocksOk, CondsOk, DeadOk, PcsOk;
    NotIdle(k);
    if k.sched.ready != [] { assert k.sched.ready[0] in k.sched.ready; }
  }

  lemma BeginDown(k: Kernel, s: SemId)
    requires Inv(k) && Possible(k, SemaDown(s))
    ensures Shape(k) && PcsOk(k) && s in k.value && k.pc[k.sched.cur] == Free && s.User? && k.frame[k.sched.cur] == NoFrame
    ensures Begun(k, Next(k, SemaDown(s)), Down(s, false), NoFrame)
  {
    hide WaitersOk, WakeOk, LocksOk, CondsOk, DeadOk, Ok;
    CallFrame(k);
  }

  /** sema_down: one unit less at once, or the caller is last in the queue and asleep. */
  lemma DownOutcome(k: Kernel, s: SemId)
    requires Inv(k) && Possible(k, SemaDown(s))
    ensures Shape(k) && s in k.value
    ensures var r := After(k, [SemaDown(s)] + Proceeds(1));
      if k.value[s] > 0 then r == k.(value := k.value[s := k.value[s] - 1])
      else
        && r.value == k.value && r.waiters == k.waiters[s := k.waiters[s] + [k.sched.cur]] && Asleep(k.sched, r.sched)
        && r.pc == k.pc[k.sched.cur := Down(s, true)] && r.holder == k.holder && r.conds == k.conds
  {
    hide Inv, After, Next, DoProceed, Shape, PcsOk, Possible, Proceeds, AfterUp, AfterDown, UnitGiven, Asleep;
    BeginDown(k, s);
    Here(k);
    AfterStep(k, SemaDown(s), Proceeds(1));
    var t, k1 := k.sched.cur, Next(k, SemaDown(s));
    Here(k1);
    ProceedsStep(k1, 0);
    NoSteps(DoProceed(k1));
    if k.value[s] > 0 {
      ProceedTake(k1, s);
      DownTables(k, k1, DoProceed(k1), s);
    } else {
      ProceedSleep(k1, s);
    }
  }

  lemma DownTables(k: Kernel, k1: Kernel, r: Kernel, s: SemId)
    requires k.sched.cur in k.pc && k.sched.cur in k.frame && k.pc[k.sched.cur] == Free && k.frame[k.sched.cur] == NoFrame
    requires Begun(k, k1, Down(s, false), NoFrame) && s in k.value && k.value[s] > 0
    requires r == k1.(value := k1.value[s := k1.value[s] - 1], pc := k1.pc[k1.sched.cur := Free])
    ensures r == k.(value := k.value[s := k.value[s] - 1])
  {
    Restored(k, k.sched.cur, Down(s, false));
  }

  /** sema_try_down, by a thread or an interrupt handler: one unit less, or nothing. */
  lemma TryDownOutcome(k: Kernel, s: SemId, a: Step)
    requires Inv(k) && Possible(k, a) && (a == SemaTryDown(s) || a == InterruptTryDown(s))
    ensures s in k.value
    ensures After(k, [a]) == if k.value[s] > 0 then k.(value := k.value[s := k.value[s] - 1]) else k
  {
    hide Inv, After;
    assert [a] == [a] + Proceeds(0);
    AfterStep(k, a, Proceeds(0));
    NoSteps(Next(k, a));
  }

  // ---------- locks

  lemma BeginAcquire(k: Kernel, l: Lid)
    requires Inv(k) && Possible(k, LockAcquire(l))
    ensures Shape(k) && PcsOk(k) && LockSem(l) in k.value && k.pc[k.sched.cur] == Free && k.frame[k.sched.cur] == NoFrame
    ensures Begun(k, Next(k, LockAcquire(l)), Down(LockSem(l), false), NoFrame)
  {
    hide WaitersOk, WakeOk, LocksOk, CondsOk, DeadOk, Ok;
    CallFrame(k);
  }

  lemma ProceedHolder(k: Kernel, l: Lid)
    requires Inv(k) && k.pc[k.sched.cur] == SetHolder(l)
    ensures Shape(k) && PcsOk(k)
    ensures var t := k.sched.cur;
      DoProceed(k) == k.(holder := k.holder[l := t], pc := k.pc[t := Free], frame := k.frame[t := NoFrame])
  {
    hide WaitersOk, WakeOk, LocksOk, CondsOk, DeadOk, PcsOk, Ok;
  }

  /** lock_acquire of a free lock: the caller is its holder and the unit is gone. */
  lemma AcquireOutcome(k: Kernel, l: Lid)
    requires Inv(k) && Possible(k, LockAcquire(l)) && LockSem(l) in k.value && k.value[LockSem(l)] > 0
    ensures After(k, [LockAcquire(l)] + Proceeds(2))
      == k.(value := k.value[LockSem(l) := k.value[LockSem(l)] - 1], holder := k.holder[l := k.sched.cur])
  {
    hide Inv, After, Next, DoProceed, Shape, PcsOk, Possible, Proceeds, AfterUp, AfterDown, UnitGiven;
    BeginAcquire(k, l);
    Here(k);
    AfterStep(k, LockAcquire(l), Proceeds(2));
    var k1 := Next(k, LockAcquire(l));
    Here(k1);
    ProceedsStep(k1, 1);
    ProceedTake(k1, LockSem(l));
    var k2 := DoProceed(k1);
    ProceedsStep(k2, 0);
    ProceedHolder(k2, l);
    NoSteps(DoProceed(k2));
    AcquireTables(k, k1, k2, DoProceed(k2), l);
  }

  /** lock_acquire of a lock that is not free: the caller is last in the queue and asleep. */
  lemma AcquireWaits(k: Kernel, l: Lid)
    requires Inv(k) && Possible(k, LockAcquire(l)) && LockSem(l) in k.value && k.value[LockSem(l)] == 0
    ensures Shape(k)
    ensures var r := After(k, [LockAcquire(l)] + Proceeds(1));
      && r.waiters == k.waiters[LockSem(l) := k.waiters[LockSem(l)] + [k.sched.cur]] && Asleep(k.sched, r.sched)
      && r.value == k.value && r.holder == k.holder && r.conds == k.conds
  {
    hide Inv, After, Next, DoProceed, Shape, PcsOk, Possible, Proceeds, AfterUp, AfterDown, UnitGiven, Asleep;
    BeginAcquire(k, l);
    Here(k);
    AfterStep(k, LockAcquire(l), Proceeds(1));
    var k1 := Next(k, LockAcquire(l));
    Here(k1);
    ProceedsStep(k1, 0);
    ProceedSleep(k1, LockSem(l));
    NoSteps(DoProceed(k1));
  }

  lemma Restored2(k: Kernel, t: Tid, p: Pc, q: Pc)
    requires t in k.pc && t in k.frame && k.pc[t] == Free && k.frame[t] == NoFrame
    ensures k.pc[t := p][t := q][t := Free] == k.pc && k.frame[t := NoFrame][t := NoFrame] == k.frame
  {
  }

  lemma AcquireTables(k: Kernel, k1: Kernel, k2: Kernel, r: Kernel, l: Lid)
    requires k.sched.cur in k.pc && k.sched.cur in k.frame && k.pc[k.sched.cur] == Free && k.frame[k.sched.cur] == NoFrame
    requires Begun(k, k1, Down(LockSem(l), false), NoFrame) && LockSem(l) in k.value && k.value[LockSem(l)] > 0
    requires k2 == k1.(value := k1.value[LockSem(l) := k1.value[LockSem(l)] - 1], pc := k1.pc[k1.sched.cur := SetHolder(l)])
    requires var t := k2.sched.cur;
      r == k2.(holder := k2.holder[l := t], pc := k2.pc[t := Free], frame := k2.frame[t := NoFrame])
    ensures r == k.(value := k.value[LockSem(l) := k.value[LockSem(l)] - 1], holder := k.holder[l := k.sched.cur])
  {
    Restored2(k, k.sched.cur, Down(LockSem(l), false), SetHolder(l));
  }

  lemma BeginTryAcquire(k: Kernel, l: Lid)
    requires Inv(k) && Possible(k, LockTryAcquire(l))
    ensures Shape(k) && PcsOk(k) && LockSem(l) in k.value && k.pc[k.sched.cur] == Free && k.frame[k.sched.cur] == NoFrame
    ensures var s := LockSem(l);
      Next(k, LockTryAcquire(l)) == if k.value[s] == 0 then k
        else k.(value := k.value[s := k.value[s] - 1], pc := k.pc[k.sched.cur := SetHolder(l)])
  {
    hide WaitersOk, WakeOk, LocksOk, CondsOk, DeadOk, Ok;
    CallFrame(k);
  }

  lemma Idling(k: Kernel, n: nat)
    requires Inv(k) && k.pc[k.sched.cur] == Free
    ensures After(k, Proceeds(n)) == k
  {
    hide WaitersOk, WakeOk, LocksOk, CondsOk, DeadOk, PcsOk, Ok;
    if n > 0 {
      assert Proceeds(n)[1..] == Proceeds(n - 1);
      Idling(k, n - 1);
    } else {
      NoSteps(k);
    }
  }

  /** lock_try_acquire: the caller is the holder of a lock that was free, or nothing happens. */
  lemma TryAcquireOutcome(k: Kernel, l: Lid)
    requires Inv(k) && Possible(k, LockTryAcquire(l))
    ensures Shape(k) && LockSem(l) in k.value
    ensures var s := LockSem(l);
      After(k, [LockTryAcquire(l)] + Proceeds(1)) == if k.value[s] == 0 then k
        else k.(value := k.value[s := k.value[s] - 1], holder := k.holder[l := k.sched.cur])
  {
    hide Inv, After, Next, DoProceed, Shape, PcsOk, Possible, Proceeds, AfterUp, AfterDown, UnitGiven;
    var t, s := k.sched.cur, LockSem(l);
    BeginTryAcquire(k, l);
    Here(k);
    AfterStep(k, LockTryAcquire(l), Proceeds(1));
    var k1 := Next(k, LockTryAcquire(l));
    if k.value[s] == 0 {
      Idling(k, 1);
    } else {
      Here(k1);
      ProceedsStep(k1, 0);
      ProceedHolder(k1, l);
      NoSteps(DoProceed(k1));
      TryTables(k, k1, DoProceed(k1), l);
    }
  }

  lemma TryTables(k: Kernel, k1: Kernel, r: Kernel, l: Lid)
    requires k.sched.cur in k.pc && k.sched.cur in k.frame && k.pc[k.sched.cur] == Free && k.frame[k.sched.cur] == NoFrame
    requires LockSem(l) in k.value && k.value[LockSem(l)] > 0
    requires k1 == k.(value := k.value[LockSem(l) := k.value[LockSem(l)] - 1], pc := k.pc[k.sched.cur := SetHolder(l)])
    requires var t := k1.sched.cur;
      r == k1.(holder := k1.holder[l := t], pc := k1.pc[t := Free], frame := k1.frame[t := NoFrame])
    ensures r == k.(value := k.value[LockSem(l) := k.value[LockSem(l)] - 1], holder := k.holder[l := k.sched.cur])
  {
    Restored(k, k.sched.cur, SetHolder(l));
  }

  lemma BeginRelease(k: Kernel, l: Lid)
    requires Inv(k) && Possible(k, LockRelease(l))
    ensures Shape(k) && PcsOk(k) && LockSem(l) in k.value && k.pc[k.sched.cur] == Free && k.frame[k.sched.cur] == NoFrame
    ensures Begun(k, Next(k, LockRelease(l)), ClearHolder(l), NoFrame)
  {
    hide WaitersOk, WakeOk, CondsOk, DeadOk, Ok;
    CallFrame(k);
  }

  lemma ProceedClear(k: Kernel, l: Lid)
    requires Inv(k) && k.pc[k.sched.cur] == ClearHolder(l)
    ensures Shape(k) && PcsOk(k)
    ensures DoProceed(k) == k.(holder := k.holder - {l}, pc := k.pc[k.sched.cur := Up(LockSem(l))])
  {
    hide WaitersOk, WakeOk, LocksOk, CondsOk, DeadOk, PcsOk, Ok;
  }

  /** lock_release: nobody holds the lock, its unit is back, its first waiter is ready, nothing else. */
  lemma ReleaseOutcome(k: Kernel, l: Lid)
    requires Inv(k) && Possible(k, LockRelease(l))
    ensures var r := After(k, [LockRelease(l)] + Proceeds(2));
      && UnitGiven(k, r, LockSem(l))
      && r == k.(holder := k.holder - {l}, value := r.value, waiters := r.waiters, sched := r.sched)
  {
    hide Inv, After, Next, DoProceed, Shape, PcsOk, Possible, Proceeds, AfterUp, AfterDown, UnitGiven;
    var t := k.sched.cur;
    BeginRelease(k, l);
    Here(k);
    AfterStep(k, LockRelease(l), Proceeds(2));
    var k1 := Next(k, LockRelease(l));
    Here(k1);
    ProceedsStep(k1, 1);
    ProceedClear(k1, l);
    var k2 := DoProceed(k1);
    Here(k2);
    ProceedsStep(k2, 0);
    ProceedUp(k2, LockSem(l));
    NoSteps(DoProceed(k2));
    ReleaseTables(k, k1, k2, DoProceed(k2), l);
  }

  lemma ReleaseTables(k: Kernel, k1: Kernel, k2: Kernel, r: Kernel, l: Lid)
    requires k.sched.cur in k.pc && k.sched.cur in k.frame && k.pc[k.sched.cur] == Free && k.frame[k.sched.cur] == NoFrame
    requires Begun(k, k1, ClearHolder(l), NoFrame)
    requires k2 == k1.(holder := k1.holder - {l}, pc := k1.pc[k1.sched.cur := Up(LockSem(l))])
    requires UnitGiven(k2, r, LockSem(l))
    requires r == k2.(value := r.value, waiters := r.waiters, sched := r.sched, pc := k2.pc[k2.sched.cur := Free])
    ensures UnitGiven(k, r, LockSem(l))
    ensures r == k.(holder := k.holder - {l}, value := r.value, waiters := r.waiters, sched := r.sched)
  {
    Restored2(k, k.sched.cur, ClearHolder(l), Up(LockSem(l)));
  }

  // ---------- condition variables

  /** Whoever is on a condition's list is awake, or alone asleep on its own waiter semaphore. */
  lemma ListedWaits(k: Kernel, c: Cid, u: Tid)
    requires Inv(k) && c in k.conds && u in k.conds[c]
    ensures u in k.pc && WaitSem(u) in k.value && WaitSem(u) in k.waiters && u in k.sched.status && k.frame[u].Waiting?
    ensures k.waiters[WaitSem(u)] == [] || k.waiters[WaitSem(u)] == [u]
    ensures k.sched.status[u] == Blocked ==> k.waiters[WaitSem(u)] == [u]
  {
    hide WakeOk, LocksOk, DeadOk, Ok;
    assert ListOk(k, c) && k.frame[u] == Waiting(c) && SignalOk(k, u);
    assert PcOk(k, u, k.pc[u], k.frame[u]);
    OnlyOneWaits(k, u);
  }

  lemma OnlyOneWaits(k: Kernel, u: Tid)
    requires Shape(k) && PcsOk(k) && WaitersOk(k) && u in k.pc
    ensures k.waiters[WaitSem(u)] == [] || k.waiters[WaitSem(u)] == [u]
  {
    var w := k.waiters[WaitSem(u)];
    assert QueueOk(k, WaitSem(u));
    forall x | x in w ensures x == u {
      assert Sleeps(k, x, WaitSem(u)) && PcOk(k, x, k.pc[x], k.frame[x]);
    }
    AllTheSame(w, u);
  }

  lemma AllTheSame(w: seq<Tid>, u: Tid)
    requires NoDup(w) && forall x :: x in w ==> x == u
    ensures w == [] || w == [u]
  {
    if w != [] {
      assert w[0] in w;
      NoDupSize(w, {u});
    }
  }

  lemma ProceedPop(k: Kernel, c: Cid)
    requires Inv(k) && k.pc[k.sched.cur] == PopWaiter(c)
    ensures Shape(k) && PcsOk(k) && c in k.conds && !k.frame[k.sched.cur].Waiting?
    ensures var t := k.sched.cur;
      DoProceed(k) ==
        if k.conds[c] == [] then k.(pc := k.pc[t := Free], frame := k.frame[t := NoFrame])
        else k.(conds := k.conds[c := k.conds[c][1..]], pc := k.pc[t := Up(WaitSem(k.conds[c][0]))])
  {
    hide WaitersOk, WakeOk, LocksOk, CondsOk, DeadOk, Ok;
    assert PcOk(k, k.sched.cur, k.pc[k.sched.cur], k.frame[k.sched.cur]);
  }

  /** From K to R the first waiter of C was taken off the list and given its unit, and the running thread is at P. */
  ghost predicate FirstSignalled(k: Kernel, r: Kernel, c: Cid, p: Pc) {
    && c in k.conds && k.conds[c] != []
    && var u := k.conds[c][0];
       && UnitGiven(k, r, WaitSem(u)) && u in r.sched.status && r.sched.status[u] != Blocked
       && r == k.(conds := k.conds[c := k.conds[c][1..]], value := r.value, waiters := r.waiters, sched := r.sched,
                  pc := k.pc[k.sched.cur := p])
  }

  lemma SignalFirst(k: Kernel, c: Cid)
    requires Inv(k) && k.pc[k.sched.cur] == PopWaiter(c) && c in k.conds && k.conds[c] != []
    ensures Shape(k) && PcsOk(k) && DoProceed(k).sched == k.sched && DoProceed(k).pc[k.sched.cur] != Free && Inv(DoProceed(k))
    ensures Inv(DoProceed(DoProceed(k)))
    ensures FirstSignalled(k, DoProceed(DoProceed(k)), c, match k.frame[k.sched.cur] case Broadcasting(c) => PopWaiter(c) case _ => Free)
  {
    hide Inv, After, Next, DoProceed, Shape, PcsOk, Possible, Proceeds, AfterUp, AfterDown, UnitGiven;
    Here(k);
    var u := k.conds[c][0];
    ProceedPop(k, c);
    ProceedsStep(k, 0);
    ListedWaits(k, c, u);
    var k1 := DoProceed(k);
    ProceedUp(k1, WaitSem(u));
    ProceedsStep(k1, 0);
    SignalTables(k, k1, DoProceed(k1), c, DoProceed(k1).pc[k.sched.cur]);
  }

  lemma SignalTables(k: Kernel, k1: Kernel, r: Kernel, c: Cid, p: Pc)
    requires c in k.conds && k.conds[c] != [] && k.sched.cur in k.pc
    requires var u := k.conds[c][0];
      && k1 == k.(conds := k.conds[c := k.conds[c][1..]], pc := k.pc[k.sched.cur := Up(WaitSem(u))])
      && UnitGiven(k1, r, WaitSem(u)) && u in k.sched.status && (k.sched.status[u] == Blocked ==> k.waiters[WaitSem(u)] == [u])
    requires r == k1.(value := r.value, waiters := r.waiters, sched := r.sched, pc := k1.pc[k1.sched.cur := p])
    ensures FirstSignalled(k, r, c, p)
  {
    assert k.pc[k.sched.cur := Up(WaitSem(k.conds[c][0]))][k.sched.cur := p] == k.pc[k.sched.cur := p];
  }

  lemma BeginSignal(k: Kernel, c: Cid)
    requires Inv(k) && Possible(k, CondSignal(c))
    ensures Shape(k) && PcsOk(k) && c in k.conds && k.pc[k.sched.cur] == Free && k.frame[k.sched.cur] == NoFrame
    ensures Begun(k, Next(k, CondSignal(c)), PopWaiter(c), NoFrame)
  {
    hide WaitersOk, WakeOk, LocksOk, CondsOk, DeadOk, Ok;
    CallFrame(k);
  }

  /** cond_signal: exactly the first waiter is off the list, has its unit and is awake; nothing when there is none. */
  lemma SignalOutcome(k: Kernel, c: Cid)
    requires Inv(k) && Possible(k, CondSignal(c))
    ensures c in k.conds
    ensures var r := After(k, [CondSignal(c)] + Proceeds(2));
      if k.conds[c] == [] then r == k else FirstSignalled(k, r, c, Free) && r.pc == k.pc
  {
    hide Inv, After, Next, DoProceed, Shape, PcsOk, Possible, Proceeds, UnitGiven, FirstSignalled;
    var t := k.sched.cur;
    BeginSignal(k, c);
    Here(k);
    AfterStep(k, CondSignal(c), Proceeds(2));
    var k1 := Next(k, CondSignal(c));
    Here(k1);
    ProceedsStep(k1, 1);
    var k2 := DoProceed(k1);
    if k.conds[c] == [] {
      ProceedPop(k1, c);
      Restored(k, t, PopWaiter(c));
      Idling(k2, 1);
    } else {
      SignalFirst(k1, c);
      ProceedsStep(k2, 0);
      NoSteps(DoProceed(k2));
      SignalledTables(k, k1, DoProceed(k2), c);
    }
  }

  lemma SignalledTables(k: Kernel, k1: Kernel, r: Kernel, c: Cid)
    requires k.sched.cur in k.pc && k.sched.cur in k.frame && k.pc[k.sched.cur] == Free && k.frame[k.sched.cur] == NoFrame
    requires Begun(k, k1, PopWaiter(c), NoFrame) && FirstSignalled(k1, r, c, Free)
    ensures FirstSignalled(k, r, c, Free) && r.pc == k.pc
  {
    Restored(k, k.sched.cur, PopWaiter(c));
  }

  lemma BeginBroadcast(k: Kernel, c: Cid)
    requires Inv(k) && Possible(k, CondBroadcast(c))
    ensures Shape(k) && PcsOk(k) && c in k.conds && k.pc[k.sched.cur] == Free && k.frame[k.sched.cur] == NoFrame
    ensures Begun(k, Next(k, CondBroadcast(c)), PopWaiter(c), Broadcasting(c))
  {
    hide WaitersOk, WakeOk, LocksOk, CondsOk, DeadOk, Ok;
    CallFrame(k);
  }

  /** From K to R all the threads US were given a unit of their waiter semaphores and are awake. */
  ghost predicate AllGiven(k: Kernel, r: Kernel, us: seq<Tid>) {
    && r.value.Keys == k.value.Keys && r.holder == k.holder && r.lockOf == k.lockOf && r.sched.cur == k.sched.cur
    && (forall s :: s in k.value ==> r.value[s] == k.value[s] + Count(s.WaitSem? && s.t in us))
    && r.sched.status.Keys == k.sched.status.Keys
    && (forall u :: u in k.sched.status ==>
          r.sched.status[u] == if u in us && k.sched.status[u] == Blocked then Ready else k.sched.status[u])
  }

  lemma GivenFirst(k: Kernel, r: Kernel, c: Cid, p: Pc)
    requires FirstSignalled(k, r, c, p) && k.waiters[WaitSem(k.conds[c][0])] in [[], [k.conds[c][0]]]
    requires k.conds[c][0] in k.sched.status
    ensures AllGiven(k, r, [k.conds[c][0]])
  {
  }

  lemma GivenMore(k: Kernel, k1: Kernel, r: Kernel, u: Tid, us: seq<Tid>)
    requires AllGiven(k, k1, [u]) && AllGiven(k1, r, us) && u !in us
    ensures AllGiven(k, r, [u] + us)
  {
  }

  lemma FirstOnce(k: Kernel, c: Cid)
    requires Inv(k) && c in k.conds && k.conds[c] != []
    ensures var w := k.conds[c]; w[0] !in w[1..] && w == [w[0]] + w[1..] && w[0] in w
  {
    hide PcsOk, WaitersOk, WakeOk, LocksOk, DeadOk, Ok;
    assert ListOk(k, c);
    NoDupTail(k.conds[c]);
  }

  /** From K, where the running thread is in the loop of cond_broadcast, to R, where it has returned. */
  ghost predicate LoopDone(k: Kernel, r: Kernel, c: Cid) {
    var t := k.sched.cur;
    && c in k.conds && AllGiven(k, r, k.conds[c]) && r.conds == k.conds[c := []]
    && r.pc == k.pc[t := Free] && r.frame == k.frame[t := NoFrame]
  }

  lemma LoopEnds(k: Kernel, r: Kernel, c: Cid)
    requires c in k.conds && k.conds[c] == []
    requires r == k.(pc := k.pc[k.sched.cur := Free], frame := k.frame[k.sched.cur := NoFrame])
    ensures LoopDone(k, r, c)
  {
    NobodyGiven(k, r);
  }

  lemma LoopGoesOn(k: Kernel, k2: Kernel, r: Kernel, c: Cid, u: Tid, us: seq<Tid>)
    requires FirstSignalled(k, k2, c, PopWaiter(c)) && LoopDone(k2, r, c)
    requires u == k.conds[c][0] && us == k.conds[c][1..] && u !in us && k.conds[c] == [u] + us
    requires k.waiters[WaitSem(u)] in [[], [u]] && u in k.sched.status
    ensures LoopDone(k, r, c)
  {
    hide AllGiven, UnitGiven;
    assert k.pc[k.sched.cur := PopWaiter(c)][k.sched.cur := Free] == k.pc[k.sched.cur := Free];
    FirstTables(k, k2, c, PopWaiter(c));
    GivenFirst(k, k2, c, PopWaiter(c));
    GivenMore(k, k2, r, u, us);
  }

  lemma {:induction false} BroadcastLoop(k: Kernel, c: Cid, n: nat)
    requires Inv(k) && k.pc[k.sched.cur] == PopWaiter(c) && k.frame[k.sched.cur] == Broadcasting(c)
    requires c in k.conds && n == |k.conds[c]|
    ensures LoopDone(k, After(k, Proceeds(2 * n + 1)), c)
    decreases n
  {
    hide Inv, After, DoProceed, Shape, PcsOk, Proceeds, UnitGiven, FirstSignalled, LoopDone;
    Here(k);
    if n == 0 {
      ProceedPop(k, c);
      ProceedsStep(k, 0);
      NoSteps(DoProceed(k));
      LoopEnds(k, DoProceed(k), c);
    } else {
      var u, us, m := k.conds[c][0], k.conds[c][1..], 2 * (n - 1) + 1;
      FirstOnce(k, c);
      ListedWaits(k, c, u);
      SignalFirst(k, c);
      ProceedsStep(k, m + 1);
      var k1 := DoProceed(k);
      ProceedsStep(k1, m);
      var k2 := DoProceed(k1);
      FirstTables(k, k2, c, PopWaiter(c));
      BroadcastLoop(k2, c, n - 1);
      LoopGoesOn(k, k2, After(k2, Proceeds(m)), c, u, us);
    }
  }

  lemma NobodyGiven(k: Kernel, r: Kernel)
    requires r == k.(pc := r.pc, frame := r.frame)
    ensures AllGiven(k, r, [])
  {
  }

  lemma FirstTables(k: Kernel, r: Kernel, c: Cid, p: Pc)
    requires FirstSignalled(k, r, c, p)
    ensures r.conds == k.conds[c := k.conds[c][1..]] && r.pc == k.pc[k.sched.cur := p] && r.frame == k.frame
    ensures r.sched.cur == k.sched.cur
  {
  }

  /** cond_broadcast: the list is empty; everybody who was on it, and nobody else, has one unit more and is awake. */
  lemma BroadcastOutcome(k: Kernel, c: Cid)
    requires Inv(k) && Possible(k, CondBroadcast(c))
    ensures c in k.conds
    ensures var r := After(k, [CondBroadcast(c)] + Proceeds(2 * |k.conds[c]| + 1));
      && r.conds == k.conds[c := []] && r.pc == k.pc && r.frame == k.frame && r.holder == k.holder && r.sched.cur == k.sched.cur
      && r.value.Keys == k.value.Keys
      && (forall s :: s in k.value ==> r.value[s] == k.value[s] + if s.WaitSem? && s.t in k.conds[c] then 1 else 0)
      && (forall u :: u in k.conds[c] ==> u in r.sched.status && r.sched.status[u] != Blocked)
  {
    hide Inv, After, Next, DoProceed, Shape, PcsOk, Possible, Proceeds, LoopDone;
    BeginBroadcast(k, c);
    var n := |k.conds[c]|;
    Here(k);
    AfterStep(k, CondBroadcast(c), Proceeds(2 * n + 1));
    var k1 := Next(k, CondBroadcast(c));
    Here(k1);
    BroadcastLoop(k1, c, n);
    forall u | u in k.conds[c] ensures u in k.sched.status { ListedWaits(k, c, u); }
    BroadcastTables(k, k1, After(k1, Proceeds(2 * n + 1)), c);
  }

  lemma BroadcastTables(k: Kernel, k1: Kernel, r: Kernel, c: Cid)
    requires k.sched.cur in k.pc && k.sched.cur in k.frame && k.pc[k.sched.cur] == Free && k.frame[k.sched.cur] == NoFrame
    requires Begun(k, k1, PopWaiter(c), Broadcasting(c)) && LoopDone(k1, r, c)
    requires c in k.conds && forall u :: u in k.conds[c] ==> u in k.sched.status
    ensures r.conds == k.conds[c := []] && r.pc == k.pc && r.frame == k.frame && r.holder == k.holder
    ensures r.sched.cur == k.sched.cur && r.value.Keys == k.value.Keys
    ensures forall s :: s in k.value ==> r.value[s] == k.value[s] + if s.WaitSem? && s.t in k.conds[c] then 1 else 0
    ensures forall u :: u in k.conds[c] ==> u in r.sched.status && r.sched.status[u] != Blocked
  {
    Restored(k, k.sched.cur, PopWaiter(c));
    assert k.frame[k.sched.cur := Broadcasting(c)][k.sched.cur := NoFrame] == k.frame;
  }

  lemma BeginWait(k: Kernel, c: Cid)
    requires Inv(k) && Possible(k, CondWait(c))
    ensures Shape(k) && PcsOk(k) && c in k.conds && c in k.lockOf && LockSem(k.lockOf[c]) in k.value
    ensures WaitSem(k.sched.cur) in k.value && k.pc[k.sched.cur] == Free && k.frame[k.sched.cur] == NoFrame
    ensures Begun(k, Next(k, CondWait(c)), InitWaiter, Waiting(c))
  {
    hide WaitersOk, WakeOk, LocksOk, CondsOk, DeadOk, Ok;
    CallFrame(k);
  }

  lemma ProceedInit(k: Kernel)
    requires Inv(k) && k.pc[k.sched.cur] == InitWaiter
    ensures Shape(k) && PcsOk(k)
    ensures var t := k.sched.cur;
      DoProceed(k) == k.(value := k.value[WaitSem(t) := 0], waiters := k.waiters[WaitSem(t) := []], pc := k.pc[t := PushWaiter])
  {
    hide WaitersOk, WakeOk, LocksOk, CondsOk, DeadOk, PcsOk, Ok;
  }

  lemma ProceedPush(k: Kernel, c: Cid)
    requires Inv(k) && k.pc[k.sched.cur] == PushWaiter && k.frame[k.sched.cur] == Waiting(c)
    ensures Shape(k) && PcsOk(k) && c in k.conds && c in k.lockOf
    ensures var t := k.sched.cur;
      DoProceed(k) == k.(conds := k.conds[c := k.conds[c] + [t]], pc := k.pc[t := ClearHolder(k.lockOf[c])])
  {
    hide WaitersOk, WakeOk, LocksOk, CondsOk, DeadOk, Ok;
    assert PcOk(k, k.sched.cur, k.pc[k.sched.cur], k.frame[k.sched.cur]);
  }

  /** From K to R the running thread T posted itself on C and gave the lock back: it is last on the list, its waiter
      semaphore is empty, nobody holds the lock, and the first who waits for it is ready. */
  ghost predicate PostedOn(k: Kernel, r: Kernel, c: Cid) {
    && c in k.conds && c in k.lockOf
    && var t, l := k.sched.cur, k.lockOf[c];
       && r.conds == k.conds[c := k.conds[c] + [t]] && r.holder == k.holder - {l} && r.frame == k.frame[t := Waiting(c)]
       && UnitGiven(k.(value := k.value[WaitSem(t) := 0], waiters := k.waiters[WaitSem(t) := []]), r, LockSem(l))
       && r.pc == k.pc[t := Down(WaitSem(t), false)]
  }

  /** The first half: the waiter semaphore is empty and the thread on the list. */
  lemma WaitEnters(k: Kernel, c: Cid, n: nat) returns (e: Kernel)
    requires Inv(k) && Possible(k, CondWait(c))
    ensures c in k.conds && c in k.lockOf && LockSem(k.lockOf[c]) in k.value && k.sched.cur in k.pc
    ensures Inv(e) && After(k, [CondWait(c)] + Proceeds(n + 2)) == After(e, Proceeds(n))
    ensures var t := k.sched.cur;
      e == k.(value := k.value[WaitSem(t) := 0], waiters := k.waiters[WaitSem(t) := []], frame := k.frame[t := Waiting(c)],
              conds := k.conds[c := k.conds[c] + [t]], pc := k.pc[t := ClearHolder(k.lockOf[c])])
  {
    hide Inv, After, Next, DoProceed, Shape, PcsOk, Possible, Proceeds;
    BeginWait(k, c);
    Here(k);
    AfterStep(k, CondWait(c), Proceeds(n + 2));
    var k1 := Next(k, CondWait(c));
    Here(k1);
    ProceedInit(k1);
    ProceedsStep(k1, n + 1);
    var k2 := DoProceed(k1);
    ProceedPush(k2, c);
    ProceedsStep(k2, n);
    e := DoProceed(k2);
    EnterTables(k, k1, k2, e, c);
  }

  lemma EnterTables(k: Kernel, k1: Kernel, k2: Kernel, e: Kernel, c: Cid)
    requires c in k.conds && c in k.lockOf && Begun(k, k1, InitWaiter, Waiting(c))
    requires var t := k1.sched.cur;
      k2 == k1.(value := k1.value[WaitSem(t) := 0], waiters := k1.waiters[WaitSem(t) := []], pc := k1.pc[t := PushWaiter])
    requires e == k2.(conds := k2.conds[c := k2.conds[c] + [k2.sched.cur]], pc := k2.pc[k2.sched.cur := ClearHolder(k2.lockOf[c])])
    ensures var t := k.sched.cur;
      e == k.(value := k.value[WaitSem(t) := 0], waiters := k.waiters[WaitSem(t) := []], frame := k.frame[t := Waiting(c)],
              conds := k.conds[c := k.conds[c] + [t]], pc := k.pc[t := ClearHolder(k.lockOf[c])])
  {
    assert k.pc[k.sched.cur := InitWaiter][k.sched.cur := PushWaiter][k.sched.cur := ClearHolder(k.lockOf[c])]
      == k.pc[k.sched.cur := ClearHolder(k.lockOf[c])];
  }

  /** The second half: the lock is given back. */
  lemma WaitReleases(k: Kernel, c: Cid, n: nat) returns (g: Kernel)
    requires Inv(k) && Possible(k, CondWait(c))
    ensures Inv(g) && After(k, [CondWait(c)] + Proceeds(n + 4)) == After(g, Proceeds(n)) && PostedOn(k, g, c)
    ensures g.sched.cur == k.sched.cur && k.sched.cur in g.pc
  {
    hide Inv, After, DoProceed, Shape, PcsOk, Possible, Proceeds, UnitGiven, PostedOn;
    var e := WaitEnters(k, c, n + 2);
    var l := k.lockOf[c];
    Here(e);
    ProceedClear(e, l);
    ProceedsStep(e, n + 1);
    var k4 := DoProceed(e);
    Here(k4);
    ProceedUp(k4, LockSem(l));
    ProceedsStep(k4, n);
    g := DoProceed(k4);
    ReleasedTables(k, e, k4, g, c);
    Here(g);
  }

  lemma ReleasedTables(k: Kernel, e: Kernel, k4: Kernel, r: Kernel, c: Cid)
    requires c in k.conds && c in k.lockOf
    requires var t := k.sched.cur;
      e == k.(value := k.value[WaitSem(t) := 0], waiters := k.waiters[WaitSem(t) := []], frame := k.frame[t := Waiting(c)],
              conds := k.conds[c := k.conds[c] + [t]], pc := k.pc[t := ClearHolder(k.lockOf[c])])
    requires k4 == e.(holder := e.holder - {k.lockOf[c]}, pc := e.pc[e.sched.cur := Up(LockSem(k.lockOf[c]))])
    requires UnitGiven(k4, r, LockSem(k.lockOf[c]))
    requires var t := k4.sched.cur;
      r == k4.(value := r.value, waiters := r.waiters, sched := r.sched, pc := k4.pc[t := Down(WaitSem(t), false)])
    ensures PostedOn(k, r, c) && r.sched.cur == k.sched.cur
  {
    var t := k.sched.cur;
    assert r.pc == k.pc[t := Down(WaitSem(t), false)];
  }

  /** cond_wait, undisturbed: the caller G has posted itself and given the lock back, and then sleeps alone on its
      waiter semaphore. */
  lemma WaitOutcome(k: Kernel, c: Cid) returns (g: Kernel)
    requires Inv(k) && Possible(k, CondWait(c))
    ensures PostedOn(k, g, c)
    ensures var t, r := k.sched.cur, After(k, [CondWait(c)] + Proceeds(5));
      && r == g.(waiters := g.waiters[WaitSem(t) := [t]], pc := g.pc[t := Down(WaitSem(t), true)], sched := r.sched)
      && Asleep(g.sched, r.sched)
  {
    hide Inv, After, DoProceed, Shape, PcsOk, Possible, Proceeds, UnitGiven, Asleep;
    g := WaitReleases(k, c, 1);
    var s := WaitSem(k.sched.cur);
    WaiterEmpty(k, g, c);
    assert g.waiters[s] + [k.sched.cur] == [k.sched.cur];
    ProceedSleep(g, s);
    ProceedsStep(g, 0);
    NoSteps(DoProceed(g));
  }

  lemma WaiterEmpty(k: Kernel, g: Kernel, c: Cid)
    requires PostedOn(k, g, c)
    ensures var s := WaitSem(k.sched.cur); s in g.value && g.value[s] == 0 && s in g.waiters && g.waiters[s] == []
  {
  }

  // ---------- returns under any interleaving

  /** The call a thread at P in frame F is in. */
  datatype Call = NoCall | InDown(n: nat) | InUp(n: nat) | InAcquire(l: Lid) | InRelease(l: Lid) | InWait(c: Cid)
    | InSignal | InBroadcast(c: Cid)

  function CallOf(p: Pc, f: Frame): Call {
    match f
    case Waiting(c) => InWait(c)
    case Broadcasting(c) => InBroadcast(c)
    case NoFrame =>
      match p
      case Down(User(n), _) => InDown(n)
      case Up(User(n)) => InUp(n)
      case Down(LockSem(l), _) => InAcquire(l)
      case SetHolder(l) => InAcquire(l)
      case ClearHolder(l) => InRelease(l)
      case Up(LockSem(l)) => InRelease(l)
      case Up(WaitSem(_)) => InSignal
      case PopWaiter(_) => InSignal
      case _ => NoCall
  }

  /** What holds when thread T returns from CALL in state R. */
  ghost predicate Ended(r: Kernel, call: Call, t: Tid) {
    match call
    case InAcquire(l) => r.Holds(t, l)
    case InRelease(l) => !r.Holds(t, l)
    case InWait(c) => c in r.lockOf && r.Holds(t, r.lockOf[c])
    case InBroadcast(c) => c in r.conds && r.conds[c] == [] && c in r.lockOf && r.Holds(t, r.lockOf[c])
    case _ => true
  }

  /** From K to R thread T, inside a call, stays in it or returns as it should. */
  ghost predicate GoesOn(k: Kernel, r: Kernel, t: Tid) {
    && t in k.pc && t in k.frame && t in r.pc && t in r.frame && r.lockOf == k.lockOf
    && if r.pc[t] != Free then CallOf(r.pc[t], r.frame[t]) == CallOf(k.pc[t], k.frame[t])
       else Ended(r, CallOf(k.pc[t], k.frame[t]), t)
  }

  /** From K to R only the running thread moved. */
  ghost predicate Local(k: Kernel, r: Kernel) {
    && r.lockOf == k.lockOf && r.pc.Keys == k.pc.Keys && r.frame.Keys == k.frame.Keys
    && (forall u :: u in k.pc && u != k.sched.cur ==> r.pc[u] == k.pc[u])
    && (forall u :: u in k.frame && u != k.sched.cur ==> r.frame[u] == k.frame[u])
  }

  lemma DownGoesOn(k: Kernel, s: SemId)
    requires Inv(k) && k.pc[k.sched.cur].Down? && k.pc[k.sched.cur].s == s
    ensures Shape(k) && PcsOk(k) && GoesOn(k, DoProceed(k), k.sched.cur) && Local(k, DoProceed(k))
  {
    hide Inv, DoProceed, Shape, PcsOk, Asleep, AfterDown;
    Here(k);
    DownTarget(k, s);
    if k.value[s] > 0 { ProceedTake(k, s); } else { ProceedSleep(k, s); }
  }

  lemma DownTarget(k: Kernel, s: SemId)
    requires Inv(k) && k.pc[k.sched.cur].Down? && k.pc[k.sched.cur].s == s
    ensures s in k.value && Shape(k)
    ensures var f := k.frame[k.sched.cur];
      && (s.User? ==> f == NoFrame) && (s.LockSem? ==> !f.Broadcasting?)
      && (s.WaitSem? ==> f.Waiting? && AfterDown(k, s) != Free)
  {
    hide WaitersOk, WakeOk, LocksOk, CondsOk, DeadOk, Ok;
    assert PcOk(k, k.sched.cur, k.pc[k.sched.cur], k.frame[k.sched.cur]);
  }

  lemma UpGoesOn(k: Kernel, s: SemId)
    requires Inv(k) && k.pc[k.sched.cur] == Up(s)
    ensures Shape(k) && PcsOk(k) && GoesOn(k, DoProceed(k), k.sched.cur) && Local(k, DoProceed(k))
  {
    hide Inv, DoProceed, Shape, PcsOk, UnitGiven;
    Here(k);
    UpFrom(k, s);
    ProceedUp(k, s);
  }

  lemma UpFrom(k: Kernel, s: SemId)
    requires Inv(k) && k.pc[k.sched.cur] == Up(s)
    ensures s in k.value && Shape(k)
    ensures var f := k.frame[k.sched.cur];
      && (s.User? ==> f == NoFrame) && (s.LockSem? ==> !f.Broadcasting? && !k.Holds(k.sched.cur, s.l))
      && (s.WaitSem? ==> !f.Waiting?)
  {
    hide WaitersOk, WakeOk, LocksOk, CondsOk, DeadOk, Ok;
    assert PcOk(k, k.sched.cur, k.pc[k.sched.cur], k.frame[k.sched.cur]);
  }

  lemma HolderGoesOn(k: Kernel)
    requires Inv(k) && (k.pc[k.sched.cur].SetHolder? || k.pc[k.sched.cur].ClearHolder?)
    ensures Shape(k) && PcsOk(k) && GoesOn(k, DoProceed(k), k.sched.cur) && Local(k, DoProceed(k))
  {
    hide Inv, DoProceed, Shape, PcsOk;
    Here(k);
    HolderFrame(k);
    if k.pc[k.sched.cur].SetHolder? { ProceedHolder(k, k.pc[k.sched.cur].l); } else { ProceedClear(k, k.pc[k.sched.cur].l); }
  }

  lemma HolderFrame(k: Kernel)
    requires Inv(k) && (k.pc[k.sched.cur].SetHolder? || k.pc[k.sched.cur].ClearHolder?)
    ensures Shape(k)
    ensures var f, l := k.frame[k.sched.cur], k.pc[k.sched.cur].l;
      f == NoFrame || (f.Waiting? && f.c in k.lockOf && k.lockOf[f.c] == l)
  {
    hide WaitersOk, WakeOk, LocksOk, CondsOk, DeadOk, Ok;
    assert PcOk(k, k.sched.cur, k.pc[k.sched.cur], k.frame[k.sched.cur]);
  }

  lemma WaiterGoesOn(k: Kernel)
    requires Inv(k) && (k.pc[k.sched.cur].InitWaiter? || k.pc[k.sched.cur].PushWaiter?)
    ensures Shape(k) && PcsOk(k) && GoesOn(k, DoProceed(k), k.sched.cur) && Local(k, DoProceed(k))
  {
    hide Inv, DoProceed, Shape, PcsOk;
    Here(k);
    WaiterFrame(k);
    if k.pc[k.sched.cur].InitWaiter? { ProceedInit(k); } else { ProceedPush(k, k.frame[k.sched.cur].c); }
  }

  lemma WaiterFrame(k: Kernel)
    requires Inv(k) && (k.pc[k.sched.cur].InitWaiter? || k.pc[k.sched.cur].PushWaiter?)
    ensures Shape(k) && k.frame[k.sched.cur].Waiting?
  {
    hide WaitersOk, WakeOk, LocksOk, CondsOk, DeadOk, Ok;
    assert PcOk(k, k.sched.cur, k.pc[k.sched.cur], k.frame[k.sched.cur]);
  }

  lemma PopGoesOn(k: Kernel, c: Cid)
    requires Inv(k) && k.pc[k.sched.cur] == PopWaiter(c)
    ensures Shape(k) && PcsOk(k) && GoesOn(k, DoProceed(k), k.sched.cur) && Local(k, DoProceed(k))
  {
    hide Inv, DoProceed, Shape, PcsOk;
    Here(k);
    PopFrame(k, c);
    ProceedPop(k, c);
  }

  lemma PopFrame(k: Kernel, c: Cid)
    requires Inv(k) && k.pc[k.sched.cur] == PopWaiter(c)
    ensures Shape(k) && c in k.lockOf && k.Holds(k.sched.cur, k.lockOf[c])
    ensures k.frame[k.sched.cur] == NoFrame || k.frame[k.sched.cur] == Broadcasting(c)
  {
    hide WaitersOk, WakeOk, LocksOk, CondsOk, DeadOk, Ok;
    assert PcOk(k, k.sched.cur, k.pc[k.sched.cur], k.frame[k.sched.cur]);
  }

  /** A step of the running thread inside its call. */
  lemma OwnStep(k: Kernel)
    requires Inv(k) && k.pc[k.sched.cur] != Free
    ensures Shape(k) && PcsOk(k) && GoesOn(k, DoProceed(k), k.sched.cur) && Local(k, DoProceed(k))
  {
    hide Inv, DoProceed, Shape, PcsOk, GoesOn, Local;
    Here(k);
    match k.pc[k.sched.cur]
    case Down(s, _) => DownGoesOn(k, s);
    case Up(s) => UpGoesOn(k, s);
    case SetHolder(_) | ClearHolder(_) => HolderGoesOn(k);
    case InitWaiter | PushWaiter => WaiterGoesOn(k);
    case PopWaiter(c) => PopGoesOn(k, c);
  }

  /** From K to R nothing happens to thread T, inside a call. */
  ghost predicate Stands(k: Kernel, r: Kernel, t: Tid) {
    && t in k.pc && t in k.frame && t in r.pc && t in r.frame
    && r.pc[t] == k.pc[t] && r.frame[t] == k.frame[t] && r.lockOf == k.lockOf
  }

  lemma ProceedLocal(k: Kernel, t: Tid)
    requires Inv(k) && k.pc[k.sched.cur] != Free && t in k.pc && t != k.sched.cur
    ensures Shape(k) && PcsOk(k) && Stands(k, DoProceed(k), t)
  {
    hide Inv, DoProceed, Shape, PcsOk, GoesOn;
    Here(k);
    InTables(k, t);
    OwnStep(k);
  }

  /** A call begins only outside any other, so not where T is. */
  lemma CallLocal(k: Kernel, a: Step, t: Tid)
    requires Inv(k) && Possible(k, a) && t in k.pc && k.pc[t] != Free && Calls(k) && !a.ThreadCreate? && !a.IdleBlock?
    requires !a.Proceed? && !a.InterruptUp? && !a.InterruptTryDown? && !a.TimerTick?
    ensures Shape(k) && PcsOk(k) && Stands(k, Next(k, a), t)
  {
    hide WaitersOk, WakeOk, LocksOk, CondsOk, DeadOk, Ok, Tick, Yield, Exit, Block, Create, PcsOk, DoProceed, Signal;
  }

  lemma EventLocal(k: Kernel, a: Step, t: Tid)
    requires Inv(k) && Possible(k, a) && t in k.pc && k.pc[t] != Free
    requires a.InterruptUp? || a.InterruptTryDown? || a.TimerTick? || a.ThreadCreate? || a.IdleBlock?
    ensures Shape(k) && PcsOk(k) && Stands(k, Next(k, a), t)
  {
    hide WaitersOk, WakeOk, LocksOk, CondsOk, DeadOk, Ok, Tick, Yield, Exit, Block, Unblock, Create, PcsOk, DoProceed;
  }

  /** Any other step leaves a thread inside a call where it is. */
  lemma OtherStep(k: Kernel, a: Step, t: Tid)
    requires Inv(k) && Possible(k, a) && t in k.pc && k.pc[t] != Free && (t != k.sched.cur || a != Proceed)
    ensures Shape(k) && PcsOk(k) && Stands(k, Next(k, a), t)
  {
    hide Inv, Shape, PcsOk, Stands, DoProceed, Next, Possible, Calls;
    Here(k);
    StepKinds(k, a);
    match a
    case Proceed => ProceedLocal(k, t);
    case InterruptUp(_) | InterruptTryDown(_) | TimerTick | ThreadCreate(_) | IdleBlock => EventLocal(k, a, t);
    case _ => CallLocal(k, a, t);
  }

  lemma StepKinds(k: Kernel, a: Step)
    requires Shape(k) && PcsOk(k) && Possible(k, a)
    ensures a == Proceed ==> k.pc[k.sched.cur] != Free && Next(k, a) == DoProceed(k)
    ensures !a.Proceed? && !a.InterruptUp? && !a.InterruptTryDown? && !a.TimerTick? && !a.ThreadCreate? && !a.IdleBlock? ==> Calls(k)
  {
  }

  /** The last step of RUN, and none before it, takes thread T out of the call it is in. */
  ghost predicate Returns(k: Kernel, run: seq<Step>, t: Tid)
    requires Inv(k)
    decreases |run|
  {
    && run != [] && t in k.pc && k.pc[t] != Free
    && var r := After(k, run[..1]);
       if t in r.pc && r.pc[t] == Free then |run| == 1 else Returns(r, run[1..], t)
  }

  lemma OneStep(k: Kernel, a: Step, t: Tid)
    requires Inv(k) && t in k.pc && k.pc[t] != Free
    ensures GoesOn(k, After(k, [a]), t)
  {
    hide Inv, After, Next, DoProceed, Shape, PcsOk, Possible, Ended, CallOf;
    Here(k);
    InTables(k, t);
    AfterOne(k, a);
    if Possible(k, a) {
      if a == Proceed && t == k.sched.cur {
        StepKinds(k, a);
        OwnStep(k);
      } else {
        OtherStep(k, a, t);
      }
    }
  }

  lemma InTables(k: Kernel, t: Tid)
    requires Inv(k) && t in k.pc
    ensures t in k.frame
  {
  }

  lemma AfterOne(k: Kernel, a: Step)
    requires Inv(k)
    ensures Shape(k) && PcsOk(k) && After(k, [a]) == if Possible(k, a) then Next(k, a) else k
  {
    hide PcsOk, WaitersOk, WakeOk, LocksOk, CondsOk, DeadOk, Next, Possible;
    if Possible(k, a) { NextInv(k, a); }
    assert [a][1..] == [];
  }

  lemma AfterTail(k: Kernel, run: seq<Step>)
    requires Inv(k) && run != []
    ensures After(k, run) == After(After(k, run[..1]), run[1..])
  {
    hide WaitersOk, WakeOk, LocksOk, CondsOk, DeadOk, Next, Possible;
    AfterOne(k, run[0]);
    assert run[..1] == [run[0]];
  }

  /** However the other threads, the timer and interrupts cut in, the call ends as it should. */
  lemma {:induction false} EndsWell(k: Kernel, run: seq<Step>, t: Tid)
    requires Inv(k) && t in k.pc && t in k.frame && Returns(k, run, t)
    ensures Ended(After(k, run), CallOf(k.pc[t], k.frame[t]), t) && After(k, run).lockOf == k.lockOf
    decreases |run|
  {
    hide Inv, After, Ended, CallOf;
    AfterTail(k, run);
    assert run[..1] == [run[0]];
    OneStep(k, run[0], t);
    var r := After(k, run[..1]);
    if r.pc[t] == Free {
      assert run[1..] == [];
      AfterNothing(r);
    } else {
      EndsWell(r, run[1..], t);
    }
  }

  lemma AfterNothing(k: Kernel)
    requires Inv(k)
    ensures After(k, []) == k
  {
  }

  /** Over every run of everybody: lock_acquire returns to the holder of the lock, lock_release to a thread that does
      not hold it, cond_wait to the holder of the condition's lock, and cond_broadcast, still with the lock, when
      nobody is left on the list. */
  lemma CallReturns(k: Kernel, a: Step, run: seq<Step>)
    requires Inv(k) && Possible(k, a) && (a.LockAcquire? || a.LockRelease? || a.CondWait? || a.CondBroadcast?)
    ensures Shape(k) && PcsOk(k) && Inv(Next(k, a))
    ensures Returns(Next(k, a), run, k.sched.cur) ==>
      var t, r := k.sched.cur, After(Next(k, a), run);
      match a
      case LockAcquire(l) => r.Holds(t, l)
      case LockRelease(l) => !r.Holds(t, l)
      case CondWait(c) => c in k.lockOf && r.Holds(t, k.lockOf[c])
      case CondBroadcast(c) => c in r.conds && r.conds[c] == [] && c in k.lockOf && r.Holds(t, k.lockOf[c])
      case _ => true
  {
    hide Inv, After, Next, Shape, PcsOk, Possible, Returns;
    AfterStep(k, a, []);
    var t, k1 := k.sched.cur, Next(k, a);
    match a {
      case LockAcquire(l) => BeginAcquire(k, l);
      case LockRelease(l) => BeginRelease(k, l);
      case CondWait(c) => BeginWait(k, c);
      case CondBroadcast(c) => BeginBroadcast(k, c);
    }
    if Returns(k1, run, t) {
      Here(k1);
      EndsWell(k1, run, t);
    }
  }
}
