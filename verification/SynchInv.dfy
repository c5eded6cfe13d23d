/** What every run of the synchronization machine keeps: who sleeps where, no lost wakeup, locks
    held by at most one thread, no lost condition signal. */
module SynchInv {
  import opened Seqs
  import opened Scheduler
  import opened Synch

  /** A thread sleeps on exactly the semaphore whose loop it is in, once, and only then. */
  ghost predicate WaitersOk(k: Kernel)
    requires Shape(k)
  {
    && (forall s :: s in k.waiters ==> QueueOk(k, s))
    && (forall t :: t in k.pc && k.sched.status[t] == Blocked && t != k.sched.idle ==> Queued(k, t))
  }

  ghost predicate QueueOk(k: Kernel, s: SemId)
    requires Shape(k) && s in k.waiters
  {
    NoDup(k.waiters[s]) && forall t :: t in k.waiters[s] ==> Sleeps(k, t, s)
  }

  ghost predicate Queued(k: Kernel, t: Tid)
    requires t in k.pc
  {
    k.pc[t].Down? && k.pc[t].s in k.waiters && t in k.waiters[k.pc[t].s]
  }

  ghost predicate Sleeps(k: Kernel, t: Tid, s: SemId)
    requires Shape(k)
  {
    t in k.pc && k.pc[t] == Down(s, true) && k.sched.status[t] == Blocked && t != k.sched.idle
  }

  /** Threads taken off the waiter list of S that have not tried again yet. */
  ghost function Woken(k: Kernel, s: SemId): set<Tid>
    requires s in k.waiters
  {
    WokenOf(k.pc, k.waiters[s], s)
  }

  ghost function WokenOf(pc: map<Tid, Pc>, w: seq<Tid>, s: SemId): set<Tid> {
    set t | t in pc && pc[t] == Down(s, true) && t !in w
  }

  lemma WokenStays(pc: map<Tid, Pc>, w: seq<Tid>, s: SemId, t: Tid, p: Pc)
    requires t in pc && (pc[t] == p || (pc[t] != Down(s, true) && p != Down(s, true)))
    ensures WokenOf(pc[t := p], w, s) == WokenOf(pc, w, s)
  {
  }

  lemma WokenJoins(pc: map<Tid, Pc>, w: seq<Tid>, s: SemId)
    requires w != [] && NoDup(w) && w[0] in pc && pc[w[0]] == Down(s, true)
    ensures |WokenOf(pc, w[1..], s)| == |WokenOf(pc, w, s)| + 1
  {
    assert w == [w[0]] + w[1..];
    assert WokenOf(pc, w[1..], s) == WokenOf(pc, w, s) + {w[0]};
  }

  /** No lost wakeup: while someone sleeps on S, every unit of S has a woken thread coming for it. */
  ghost predicate WakeOk(k: Kernel)
    requires Shape(k)
  {
    forall s :: s in k.value && k.waiters[s] != [] ==> k.value[s] <= |Woken(k, s)|
  }

  /** T has the lock: from the moment it took the unit to the moment it gives it back. */
  ghost predicate Owns(k: Kernel, t: Tid, l: Lid)
    requires t in k.pc
  {
    k.Holds(t, l) || k.pc[t] == SetHolder(l) || k.pc[t] == Up(LockSem(l))
  }

  ghost function Owners(k: Kernel, l: Lid): set<Tid> { set t | t in k.pc && Owns(k, t, l) }

  ghost predicate LocksOk(k: Kernel) {
    && (forall l :: l in k.holder ==> LockSem(l) in k.value && k.holder[l] in k.pc)
    && (forall l :: LockSem(l) in k.value ==> k.value[LockSem(l)] + |Owners(k, l)| == 1)
  }

  /** T is in cond_wait, past the point where it entered itself in the waiter list, and has not
      received its signal. */
  ghost predicate Posted(k: Kernel, t: Tid)
    requires t in k.pc && t in k.frame
  {
    k.frame[t].Waiting? && (k.pc[t].ClearHolder? || k.pc[t].Up? || (k.pc[t].Down? && k.pc[t].s.WaitSem?))
  }

  ghost predicate Listed(k: Kernel, t: Tid)
    requires t in k.frame
  {
    k.frame[t].Waiting? && k.frame[t].c in k.conds && t in k.conds[k.frame[t].c]
  }

  /** Signals for T that were taken off the list but not yet delivered. */
  ghost function InFlight(k: Kernel, t: Tid): set<Tid> { set u | u in k.pc && k.pc[u] == Up(WaitSem(t)) }

  ghost function Count(b: bool): nat { if b then 1 else 0 }

  /** Every wait that was posted is listed, or its signal is on the way, or has arrived. */
  ghost predicate CondsOk(k: Kernel)
    requires Shape(k)
  {
    ListsOk(k) && forall t :: t in k.pc ==> SignalOk(k, t)
  }

  ghost predicate SignalOk(k: Kernel, t: Tid)
    requires Shape(k) && t in k.pc
  {
    Count(Posted(k, t)) == Count(Listed(k, t)) + |InFlight(k, t)| + k.value[WaitSem(t)]
  }

  ghost predicate Inv(k: Kernel) {
    Ok(k.sched) && Shape(k) && PcsOk(k) && WaitersOk(k) && WakeOk(k) && LocksOk(k) && CondsOk(k) && DeadOk(k)
  }

  /** A thread exits only outside any call. */
  ghost predicate DeadOk(k: Kernel)
    requires Shape(k)
  {
    forall t :: t in k.pc && k.sched.status[t] == Dying ==> k.pc[t] == Free
  }

  lemma Tables(k: Kernel, t: Tid)
    requires Shape(k)
    ensures k.sched.cur in k.pc && (t in k.pc ==> t in k.frame && WaitSem(t) in k.value)
  {
  }

  /** What most steps use of the invariant. */
  lemma Parts(k: Kernel)
    requires Inv(k)
    ensures Ok(k.sched) && Shape(k) && PcsOk(k) && WaitersOk(k) && LocksOk(k) && ListsOk(k) && CondsOk(k)
    ensures k.sched.cur in k.pc && k.sched.cur in k.frame && k.sched.cur in k.sched.status
    ensures PcOk(k, k.sched.cur, k.pc[k.sched.cur], k.frame[k.sched.cur])
  {
  }

  // ---------- steps that only move the running thread's program counter

  /** From K to K' the running thread goes on at P in call F; objects may change, tables keep
      their keys. */
  ghost predicate Moves(k: Kernel, k': Kernel, p: Pc, f: Frame) {
    && k'.lockOf == k.lockOf
    && k'.pc == k.pc[k.sched.cur := p] && k'.frame == k.frame[k.sched.cur := f]
    && k'.value.Keys == k.value.Keys && k'.waiters.Keys == k.waiters.Keys && k'.conds.Keys == k.conds.Keys
    && k'.sched.status.Keys == k.sched.status.Keys && k'.sched.idle == k.sched.idle && k'.sched.cur in k.pc
  }

  /** Nobody starts or stops running or sleeping. */
  ghost predicate Stays(k: Kernel, k': Kernel) { k'.sched == k.sched && k'.waiters == k.waiters }

  lemma MovesWaiters(k: Kernel, k': Kernel, p: Pc, f: Frame)
    requires Ok(k.sched) && Shape(k) && WaitersOk(k) && Moves(k, k', p, f) && Stays(k, k') && Shape(k')
    ensures WaitersOk(k')
  {
    forall s | s in k'.waiters ensures QueueOk(k', s) {
      assert QueueOk(k, s);
    }
  }

  lemma MovesTables(k: Kernel, k': Kernel, p: Pc, f: Frame)
    requires Shape(k) && Moves(k, k', p, f)
    ensures Shape(k')
  {
  }

  /** Two sets that differ at most in T. */
  lemma DifferAt(a: set<Tid>, b: set<Tid>, t: Tid)
    requires a - {t} == b - {t}
    ensures |b| + Count(t in a) == |a| + Count(t in b)
  {
    assert a == if t in a then (a - {t}) + {t} else a - {t};
    assert b == if t in b then (b - {t}) + {t} else b - {t};
  }

  lemma WokenAfterMove(k: Kernel, k': Kernel, p: Pc, f: Frame, s: SemId)
    requires Moves(k, k', p, f) && k'.waiters == k.waiters && k.sched.cur in k.pc && s in k.waiters && k.sched.cur !in k.waiters[s]
    ensures |Woken(k', s)| + Count(k.pc[k.sched.cur] == Down(s, true)) == |Woken(k, s)| + Count(p == Down(s, true))
  {
    DifferAt(Woken(k, s), Woken(k', s), k.sched.cur);
  }

  lemma OwnersAfterMove(k: Kernel, k': Kernel, p: Pc, f: Frame, l: Lid)
    requires Moves(k, k', p, f) && k.sched.cur in k.pc
    requires forall u :: u in k.pc && u != k.sched.cur ==> k'.Holds(u, l) == k.Holds(u, l)
    ensures |Owners(k', l)| + Count(Owns(k, k.sched.cur, l)) == |Owners(k, l)| + Count(Owns(k', k.sched.cur, l))
  {
    DifferAt(Owners(k, l), Owners(k', l), k.sched.cur);
  }

  lemma InFlightAfterMove(k: Kernel, k': Kernel, p: Pc, f: Frame, t: Tid)
    requires Moves(k, k', p, f) && k.sched.cur in k.pc
    ensures |InFlight(k', t)| + Count(k.pc[k.sched.cur] == Up(WaitSem(t))) == |InFlight(k, t)| + Count(p == Up(WaitSem(t)))
  {
    DifferAt(InFlight(k, t), InFlight(k', t), k.sched.cur);
  }

  lemma RunningIsAwake(k: Kernel, s: SemId)
    requires Ok(k.sched) && Shape(k) && WaitersOk(k) && s in k.waiters
    ensures k.sched.cur !in k.waiters[s]
  {
    assert QueueOk(k, s);
  }

  /** Where someone sleeps no unit is added, and a woken thread that moves on takes one. */
  ghost predicate UnitsTaken(k: Kernel, k': Kernel)
    requires Shape(k) && k'.value.Keys == k.value.Keys
  {
    forall s :: s in k.value && k.waiters[s] != [] ==>
      k'.value[s] + Count(k.pc[k.sched.cur] == Down(s, true)) <= k.value[s]
  }

  /** Taking units only helps, provided a woken thread that stops being one has taken a unit. */
  lemma MovesWake(k: Kernel, k': Kernel, p: Pc, f: Frame)
    requires Ok(k.sched) && Shape(k) && Shape(k') && WaitersOk(k) && WakeOk(k) && Moves(k, k', p, f) && Stays(k, k')
    requires !(p.Down? && p.woken)
    requires UnitsTaken(k, k')
    ensures WakeOk(k')
  {
    forall s | s in k'.value && k'.waiters[s] != [] ensures k'.value[s] <= |Woken(k', s)| {
      RunningIsAwake(k, s);
      WokenAfterMove(k, k', p, f, s);
      assert s in k.value;
    }
  }

  /** Other threads' locks are not touched. */
  ghost predicate HoldersKept(k: Kernel, k': Kernel) {
    && (forall u, l :: u in k.pc && u != k.sched.cur ==> k'.Holds(u, l) == k.Holds(u, l))
    && (forall l :: l in k'.holder ==> LockSem(l) in k.value && k'.holder[l] in k.pc)
  }

  /** The running thread takes and gives units of a lock exactly as it starts and stops owning it. */
  ghost predicate UnitsMove(k: Kernel, k': Kernel)
    requires k.sched.cur in k.pc && k.sched.cur in k'.pc
  {
    forall l :: LockSem(l) in k.value && LockSem(l) in k'.value ==>
      k'.value[LockSem(l)] + Count(Owns(k', k.sched.cur, l)) == k.value[LockSem(l)] + Count(Owns(k, k.sched.cur, l))
  }

  lemma MovesLocks(k: Kernel, k': Kernel, p: Pc, f: Frame)
    requires Shape(k) && LocksOk(k) && Moves(k, k', p, f) && HoldersKept(k, k') && UnitsMove(k, k')
    ensures LocksOk(k')
  {
    forall l | LockSem(l) in k'.value ensures k'.value[LockSem(l)] + |Owners(k', l)| == 1 {
      OwnersAfterMove(k, k', p, f, l);
      assert LockSem(l) in k.value;
    }
  }

  /** Listing, delivery and receipt of T's signal balance across the step. */
  ghost predicate Balanced(k: Kernel, k': Kernel, p: Pc, t: Tid)
    requires Shape(k) && Shape(k') && t in k.pc && t in k'.pc
  {
    && Count(Posted(k', t)) + Count(Listed(k, t)) + Count(k.pc[k.sched.cur] == Up(WaitSem(t))) + k.value[WaitSem(t)]
       == Count(Posted(k, t)) + Count(Listed(k', t)) + Count(p == Up(WaitSem(t))) + k'.value[WaitSem(t)]
  }

  ghost predicate AllBalanced(k: Kernel, k': Kernel, p: Pc)
    requires Shape(k) && Shape(k') && k'.pc.Keys == k.pc.Keys
  {
    forall t :: t in k.pc ==> Balanced(k, k', p, t)
  }

  lemma SignalAfterMove(k: Kernel, k': Kernel, p: Pc, f: Frame, t: Tid)
    requires Shape(k) && Shape(k') && Moves(k, k', p, f) && t in k.pc && SignalOk(k, t) && Balanced(k, k', p, t)
    ensures SignalOk(k', t)
  {
    InFlightAfterMove(k, k', p, f, t);
  }

  ghost predicate ListsOk(k: Kernel)
    requires Shape(k)
  {
    forall c :: c in k.conds ==> ListOk(k, c)
  }

  ghost predicate ListOk(k: Kernel, c: Cid)
    requires Shape(k) && c in k.conds
  {
    NoDup(k.conds[c]) && forall t :: t in k.conds[c] ==> t in k.pc && k.frame[t] == Waiting(c)
  }

  lemma MovesConds(k: Kernel, k': Kernel, p: Pc, f: Frame)
    requires Shape(k) && CondsOk(k) && Moves(k, k', p, f) && Shape(k') && ListsOk(k')
    requires AllBalanced(k, k', p)
    ensures CondsOk(k')
  {
    forall t | t in k'.pc ensures SignalOk(k', t) {
      SignalAfterMove(k, k', p, f, t);
    }
  }

  lemma MovesPcs(k: Kernel, k': Kernel, p: Pc, f: Frame)
    requires Shape(k) && PcsOk(k) && Moves(k, k', p, f) && Shape(k') && HoldersKept(k, k')
    requires (k.sched.cur == k.sched.idle ==> p == Free) && PcOk(k', k.sched.cur, p, f)
    ensures PcsOk(k')
  {
    hide PcOk;
    forall t | t in k'.pc ensures PcOk(k', t, k'.pc[t], k'.frame[t]) {
      if t != k.sched.cur {
        assert PcOk(k, t, k.pc[t], k.frame[t]);
        PcOkKept(k, k', t, k.pc[t], k.frame[t]);
      }
    }
  }

  /** Mutual exclusion: a lock has at most one owner. */
  lemma MutualExclusion(k: Kernel, l: Lid, t: Tid, u: Tid)
    requires LocksOk(k) && t in k.pc && u in k.pc && LockSem(l) in k.value && Owns(k, t, l) && Owns(k, u, l)
    ensures t == u && k.value[LockSem(l)] == 0
  {
    var o := Owners(k, l);
    assert {t, u} <= o;
    SubsetSize({t, u}, o);
  }

  /** A step that signals nobody leaves the other threads' waits alone. */
  ghost predicate Quiet(k: Kernel, k': Kernel, p: Pc)
    requires Shape(k)
  {
    && k'.conds == k.conds
    && !(p.Up? && p.s.WaitSem?) && !(k.pc[k.sched.cur].Up? && k.pc[k.sched.cur].s.WaitSem?)
    && (forall s :: s in k.value && s in k'.value && s != WaitSem(k.sched.cur) && s.WaitSem? ==> k'.value[s] == k.value[s])
  }

  lemma QuietOther(k: Kernel, k': Kernel, p: Pc, f: Frame, u: Tid)
    requires Shape(k) && Shape(k') && Moves(k, k', p, f) && Quiet(k, k', p) && u in k.pc && u != k.sched.cur
    ensures Balanced(k, k', p, u)
  {
    assert WaitSem(u) in k.value && k'.value[WaitSem(u)] == k.value[WaitSem(u)];
    assert k'.pc[u] == k.pc[u] && k'.frame[u] == k.frame[u];
  }

  lemma QuietBalanced(k: Kernel, k': Kernel, p: Pc, f: Frame)
    requires Shape(k) && Shape(k') && Moves(k, k', p, f) && Quiet(k, k', p) && ListsOk(k)
    requires Balanced(k, k', p, k.sched.cur)
    requires f == k.frame[k.sched.cur] || !Listed(k, k.sched.cur)
    ensures ListsOk(k') && AllBalanced(k, k', p)
  {
    forall u | u in k.pc ensures Balanced(k, k', p, u) {
      if u != k.sched.cur { QuietOther(k, k', p, f, u); }
    }
    QuietLists(k, k', p, f);
  }

  /** A step that neither posts, nor lists, nor signals, nor receives. */
  lemma QuietStay(k: Kernel, k': Kernel, p: Pc, f: Frame)
    requires Shape(k) && Shape(k') && Moves(k, k', p, f) && Quiet(k, k', p) && ListsOk(k)
    requires f == k.frame[k.sched.cur] && k'.value == k.value && Posted(k', k.sched.cur) == Posted(k, k.sched.cur)
    ensures ListsOk(k') && AllBalanced(k, k', p)
  {
    assert Listed(k', k.sched.cur) == Listed(k, k.sched.cur);
    QuietBalanced(k, k', p, f);
  }

  lemma QuietLists(k: Kernel, k': Kernel, p: Pc, f: Frame)
    requires Shape(k) && Shape(k') && Moves(k, k', p, f) && k'.conds == k.conds && ListsOk(k)
    requires f == k.frame[k.sched.cur] || !Listed(k, k.sched.cur)
    ensures ListsOk(k')
  {
    forall c | c in k'.conds ensures ListOk(k', c) {
      assert ListOk(k, c);
      assert forall t :: t in k.conds[c] ==> Listed(k, t);
    }
  }

  /** A step of the running thread alone keeps the invariant when its own share of each part does. */
  ghost predicate GoodMove(k: Kernel, k': Kernel, p: Pc, f: Frame)
    requires Shape(k)
  {
    && Moves(k, k', p, f) && Stays(k, k') && Shape(k')
    && k.sched.cur != k.sched.idle && PcOk(k', k.sched.cur, p, f) && HoldersKept(k, k') && UnitsMove(k, k')
    && !(p.Down? && p.woken)
    && UnitsTaken(k, k') && ListsOk(k') && AllBalanced(k, k', p)
  }

  lemma GoodMoveInv(k: Kernel, k': Kernel, p: Pc, f: Frame)
    requires Inv(k) && GoodMove(k, k', p, f)
    ensures Inv(k')
  {
    hide Ok, WaitersOk, WakeOk, LocksOk, CondsOk, DeadOk;
    MovesWaiters(k, k', p, f);
    MovesPcs(k, k', p, f);
    MovesWake(k, k', p, f);
    MovesLocks(k, k', p, f);
    MovesConds(k, k', p, f);
    StaysDead(k, k', p, f);
  }

  lemma StaysDead(k: Kernel, k': Kernel, p: Pc, f: Frame)
    requires Ok(k.sched) && Shape(k) && DeadOk(k) && Moves(k, k', p, f) && Stays(k, k') && Shape(k')
    ensures DeadOk(k')
  {
    MovesDead(k, k', p);
  }

  lemma MovesDead(k: Kernel, k': Kernel, p: Pc)
    requires Ok(k.sched) && Shape(k) && DeadOk(k) && Shape(k') && k'.pc == k.pc[k.sched.cur := p]
    requires forall t :: t in k.pc && t != k.sched.cur && k'.sched.status[t] == Dying ==> k.sched.status[t] == Dying
    requires k'.sched.status[k.sched.cur] != Dying
    ensures DeadOk(k')
  {
  }

  /** Starting a call changes no object, only the program counter. */
  ghost predicate Starts(k: Kernel, k': Kernel, p: Pc, f: Frame)
    requires Shape(k)
  {
    && k' == k.(pc := k.pc[k.sched.cur := p], frame := k.frame[k.sched.cur := f])
    && Calls(k) && k.frame[k.sched.cur] == NoFrame
    && (p.Down? ==> !p.woken && !p.s.WaitSem?) && (p.Up? ==> p.s.User?)
    && !p.SetHolder? && (f.Waiting? ==> p.InitWaiter?)
  }

  lemma StartUnits(k: Kernel, k': Kernel, p: Pc, f: Frame)
    requires Shape(k) && LocksOk(k) && Starts(k, k', p, f)
    ensures HoldersKept(k, k') && UnitsMove(k, k') && UnitsTaken(k, k')
  {
  }

  lemma StartBalanced(k: Kernel, k': Kernel, p: Pc, f: Frame)
    requires Shape(k) && ListsOk(k) && Starts(k, k', p, f) && Shape(k')
    ensures ListsOk(k') && AllBalanced(k, k', p)
  {
    hide AllBalanced;
    QuietBalanced(k, k', p, f);
  }

  lemma StartInv(k: Kernel, k': Kernel, p: Pc, f: Frame)
    requires Inv(k) && Starts(k, k', p, f) && PcOk(k, k.sched.cur, p, f)
    ensures Inv(k')
  {
    hide Inv, Ok, Shape, PcsOk, PcOk, WaitersOk, WakeOk, LocksOk, CondsOk, ListsOk;
    hide HoldersKept, UnitsMove, UnitsTaken, AllBalanced, Posted, Owns;
    Parts(k);
    MovesTables(k, k', p, f);
    StartUnits(k, k', p, f);
    StartBalanced(k, k', p, f);
    PcOkKept(k, k', k.sched.cur, p, f);
    GoodMoveInv(k, k', p, f);
  }

  lemma PcOkKept(k: Kernel, k': Kernel, t: Tid, p: Pc, f: Frame)
    requires PcOk(k, t, p, f) && k'.value.Keys == k.value.Keys && k'.lockOf == k.lockOf && k'.pc.Keys == k.pc.Keys
    requires forall l :: k'.Holds(t, l) == k.Holds(t, l)
    ensures PcOk(k', t, p, f)
  {
  }

  /** The running thread takes a unit of S and goes on at P. */
  ghost predicate Takes(k: Kernel, k': Kernel, s: SemId, p: Pc)
    requires Shape(k)
  {
    var t := k.sched.cur;
    var q := k.pc[t];
    && s in k.value && k.value[s] > 0
    && k' == k.(value := k.value[s := k.value[s] - 1], pc := k.pc[t := p])
    && (q == Free || (q.Down? && q.s == s))
    && match s
       case User(_) => p == Free
       case LockSem(l) => p == SetHolder(l) && !k.Holds(t, l)
       case WaitSem(u) => u == t && q.Down? && k.frame[t].Waiting? && p.Down? && p.s.LockSem? && !p.woken
  }

  lemma TakeUnits(k: Kernel, k': Kernel, s: SemId, p: Pc)
    requires Shape(k) && LocksOk(k) && Takes(k, k', s, p)
    ensures HoldersKept(k, k') && UnitsMove(k, k') && UnitsTaken(k, k')
  {
    hide HoldersKept, UnitsMove, UnitsTaken;
    TakeKept(k, k', s, p);
    TakeMove(k, k', s, p);
    TakeTaken(k, k', s, p);
  }

  lemma TakeKept(k: Kernel, k': Kernel, s: SemId, p: Pc)
    requires Shape(k) && LocksOk(k) && Takes(k, k', s, p)
    ensures HoldersKept(k, k')
  {
  }

  lemma TakeMove(k: Kernel, k': Kernel, s: SemId, p: Pc)
    requires Shape(k) && Takes(k, k', s, p)
    ensures UnitsMove(k, k')
  {
  }

  lemma TakeTaken(k: Kernel, k': Kernel, s: SemId, p: Pc)
    requires Shape(k) && Takes(k, k', s, p)
    ensures UnitsTaken(k, k')
  {
  }

  lemma TakeBalanced(k: Kernel, k': Kernel, s: SemId, p: Pc, f: Frame)
    requires Shape(k) && ListsOk(k) && Takes(k, k', s, p) && Moves(k, k', p, f) && f == k.frame[k.sched.cur] && Shape(k')
    requires PcOk(k, k.sched.cur, k.pc[k.sched.cur], f)
    ensures ListsOk(k') && AllBalanced(k, k', p)
  {
    TakeSelf(k, k', s, p, f);
    QuietBalanced(k, k', p, f);
  }

  lemma TakeSelf(k: Kernel, k': Kernel, s: SemId, p: Pc, f: Frame)
    requires Shape(k) && Shape(k') && Takes(k, k', s, p) && f == k.frame[k.sched.cur]
    requires PcOk(k, k.sched.cur, k.pc[k.sched.cur], f)
    ensures Quiet(k, k', p) && Balanced(k, k', p, k.sched.cur)
  {
    hide Quiet, Balanced;
    TakeQuiet(k, k', s, p);
    TakeOwn(k, k', s, p, f);
  }

  lemma TakeQuiet(k: Kernel, k': Kernel, s: SemId, p: Pc)
    requires Shape(k) && Takes(k, k', s, p)
    ensures Quiet(k, k', p)
  {
  }

  lemma TakeOwn(k: Kernel, k': Kernel, s: SemId, p: Pc, f: Frame)
    requires Shape(k) && Shape(k') && Takes(k, k', s, p) && f == k.frame[k.sched.cur]
    requires PcOk(k, k.sched.cur, k.pc[k.sched.cur], f)
    ensures Balanced(k, k', p, k.sched.cur)
  {
    hide Shape, PcOk;
    var t := k.sched.cur;
    Tables(k, t);
    Tables(k', t);
    assert Listed(k', t) == Listed(k, t);
    if s.WaitSem? {
      assert Posted(k, t) && !Posted(k', t);
    } else {
      assert k'.value[WaitSem(t)] == k.value[WaitSem(t)];
      assert !Posted(k, t) && !Posted(k', t);
    }
  }

  lemma TakeInv(k: Kernel, k': Kernel, s: SemId, p: Pc)
    requires Inv(k) && Takes(k, k', s, p) && k.sched.cur != k.sched.idle
    requires PcOk(k, k.sched.cur, p, k.frame[k.sched.cur])
    ensures Inv(k')
  {
    hide Inv, Ok, Shape, PcsOk, PcOk, WaitersOk, WakeOk, LocksOk, CondsOk, ListsOk;
    hide HoldersKept, UnitsMove, UnitsTaken, AllBalanced, Posted, Owns;
    Parts(k);
    var t := k.sched.cur;
    var f := k.frame[t];
    assert k'.frame == k.frame[t := f];
    MovesTables(k, k', p, f);
    TakeUnits(k, k', s, p);
    TakeBalanced(k, k', s, p, f);
    PcOkKept(k, k', t, p, f);
    GoodMoveInv(k, k', p, f);
  }

  /** lock_acquire, last line: the only owner becomes the holder. */
  lemma SetHolderInv(k: Kernel, k': Kernel, l: Lid)
    requires Inv(k) && k.pc[k.sched.cur] == SetHolder(l) && k' == k.(holder := k.holder[l := k.sched.cur]).Return()
    ensures Inv(k')
  {
    hide Ok, WaitersOk, WakeOk, LocksOk, CondsOk, DeadOk;
    assert PcOk(k, k.sched.cur, SetHolder(l), k.frame[k.sched.cur]);
    SetHolderGood(k, k', l);
    GoodMoveInv(k, k', Free, NoFrame);
  }

  lemma SetHolderGood(k: Kernel, k': Kernel, l: Lid)
    requires Shape(k) && LocksOk(k) && CondsOk(k) && LockSem(l) in k.value && k.sched.cur != k.sched.idle
    requires k.pc[k.sched.cur] == SetHolder(l) && k' == k.(holder := k.holder[l := k.sched.cur]).Return()
    ensures GoodMove(k, k', Free, NoFrame)
  {
    hide CondsOk, AllBalanced, ListsOk, UnitsMove;
    MovesTables(k, k', Free, NoFrame);
    SoleOwner(k, l);
    SetHolderUnits(k, k', l);
    SetHolderBalanced(k, k', l);
  }

  lemma SoleOwner(k: Kernel, l: Lid)
    requires Shape(k) && LocksOk(k) && LockSem(l) in k.value && Owns(k, k.sched.cur, l)
    ensures forall u :: u in k.pc && u != k.sched.cur ==> !k.Holds(u, l)
  {
    forall u | u in k.pc && k.Holds(u, l) ensures u == k.sched.cur {
      MutualExclusion(k, l, k.sched.cur, u);
    }
  }

  lemma SetHolderUnits(k: Kernel, k': Kernel, l: Lid)
    requires Shape(k) && LocksOk(k) && LockSem(l) in k.value
    requires k.pc[k.sched.cur] == SetHolder(l) && k' == k.(holder := k.holder[l := k.sched.cur]).Return()
    requires forall u :: u in k.pc && u != k.sched.cur ==> !k.Holds(u, l)
    ensures HoldersKept(k, k') && UnitsMove(k, k') && UnitsTaken(k, k')
  {
    hide HoldersKept, UnitsMove, UnitsTaken;
    SetHolderKept(k, k', l);
    SetHolderMove(k, k', l);
    SameUnits(k, k');
  }

  lemma SetHolderKept(k: Kernel, k': Kernel, l: Lid)
    requires Shape(k) && LocksOk(k) && LockSem(l) in k.value && k' == k.(holder := k.holder[l := k.sched.cur]).Return()
    requires forall u :: u in k.pc && u != k.sched.cur ==> !k.Holds(u, l)
    ensures HoldersKept(k, k')
  {
  }

  lemma SetHolderMove(k: Kernel, k': Kernel, l: Lid)
    requires Shape(k) && k.pc[k.sched.cur] == SetHolder(l) && k' == k.(holder := k.holder[l := k.sched.cur]).Return()
    ensures UnitsMove(k, k')
  {
    var t := k.sched.cur;
    forall m | LockSem(m) in k.value ensures Owns(k', t, m) == Owns(k, t, m) {
      assert k'.Holds(t, m) == (m == l || k.Holds(t, m));
    }
  }

  /** The values are unchanged and the running thread was not woken in sema_down. */
  lemma SameUnits(k: Kernel, k': Kernel)
    requires Shape(k) && k'.value == k.value && !k.pc[k.sched.cur].Down?
    ensures UnitsTaken(k, k')
  {
  }

  lemma SetHolderBalanced(k: Kernel, k': Kernel, l: Lid)
    requires Shape(k) && CondsOk(k) && Shape(k')
    requires k.pc[k.sched.cur] == SetHolder(l) && k' == k.(holder := k.holder[l := k.sched.cur]).Return()
    ensures ListsOk(k') && AllBalanced(k, k', Free)
  {
    NotListed(k, k.sched.cur);
    QuietBalanced(k, k', Free, NoFrame);
  }

  /** A thread that is not posted is on no condition's list. */
  lemma NotListed(k: Kernel, t: Tid)
    requires Shape(k) && CondsOk(k) && t in k.pc && !Posted(k, t)
    ensures forall c :: c in k.conds ==> t !in k.conds[c]
    ensures InFlight(k, t) == {} && k.value[WaitSem(t)] == 0
  {
    assert SignalOk(k, t);
    forall c | c in k.conds ensures t !in k.conds[c] {
      assert ListOk(k, c);
      if t in k.conds[c] { assert Listed(k, t); }
    }
  }

  /** lock_release, first line; the unit is given back by the sema_up that follows. */
  lemma ClearHolderInv(k: Kernel, k': Kernel, l: Lid)
    requires Inv(k) && k.pc[k.sched.cur] == ClearHolder(l)
    requires k' == k.(holder := k.holder - {l}).Goto(Up(LockSem(l)))
    ensures Inv(k')
  {
    var t := k.sched.cur;
    assert PcOk(k, t, k.pc[t], k.frame[t]);
    ClearHolderGood(k, k', l, k.frame[t]);
    GoodMoveInv(k, k', Up(LockSem(l)), k.frame[t]);
  }

  lemma ClearHolderGood(k: Kernel, k': Kernel, l: Lid, f: Frame)
    requires Shape(k) && LocksOk(k) && ListsOk(k) && k.sched.cur != k.sched.idle
    requires f == k.frame[k.sched.cur] && k.pc[k.sched.cur] == ClearHolder(l) && PcOk(k, k.sched.cur, ClearHolder(l), f)
    requires k' == k.(holder := k.holder - {l}).Goto(Up(LockSem(l)))
    ensures GoodMove(k, k', Up(LockSem(l)), f)
  {
    assert k'.frame == k.frame[k.sched.cur := f];
    MovesTables(k, k', Up(LockSem(l)), f);
    ClearHolderPc(k, k', l, f);
    ClearHolderUnits(k, k', l);
    QuietStay(k, k', Up(LockSem(l)), f);
  }

  lemma ClearHolderPc(k: Kernel, k': Kernel, l: Lid, f: Frame)
    requires PcOk(k, k.sched.cur, ClearHolder(l), f) && k' == k.(holder := k.holder - {l}).Goto(Up(LockSem(l)))
    ensures PcOk(k', k.sched.cur, Up(LockSem(l)), f)
  {
  }

  lemma ClearHolderUnits(k: Kernel, k': Kernel, l: Lid)
    requires Shape(k) && LocksOk(k) && k.Holds(k.sched.cur, l) && k.pc[k.sched.cur] == ClearHolder(l)
    requires k' == k.(holder := k.holder - {l}).Goto(Up(LockSem(l)))
    ensures HoldersKept(k, k') && UnitsMove(k, k') && UnitsTaken(k, k')
  {
    hide HoldersKept, UnitsMove, UnitsTaken;
    ClearHolderKept(k, k', l);
    ClearHolderMove(k, k', l);
    SameUnits(k, k');
  }

  lemma ClearHolderKept(k: Kernel, k': Kernel, l: Lid)
    requires Shape(k) && LocksOk(k) && k.Holds(k.sched.cur, l) && k' == k.(holder := k.holder - {l}).Goto(Up(LockSem(l)))
    ensures HoldersKept(k, k')
  {
  }

  lemma ClearHolderMove(k: Kernel, k': Kernel, l: Lid)
    requires Shape(k) && k.Holds(k.sched.cur, l) && k.pc[k.sched.cur] == ClearHolder(l)
    requires k' == k.(holder := k.holder - {l}).Goto(Up(LockSem(l)))
    ensures UnitsMove(k, k')
  {
    var t := k.sched.cur;
    forall m | LockSem(m) in k.value ensures Owns(k', t, m) == Owns(k, t, m) {
      assert k'.Holds(t, m) == (m != l && k.Holds(t, m));
    }
  }

  /** sema_init of the waiter: nobody uses that semaphore at this point, and it is already 0. */
  lemma InitWaiterInv(k: Kernel)
    requires Inv(k) && k.pc[k.sched.cur] == InitWaiter
    ensures Inv(DoProceed(k))
  {
    var t := k.sched.cur;
    assert PcOk(k, t, InitWaiter, k.frame[t]);
    InitWaiterIdle(k);
    InitWaiterGood(k, k.Goto(PushWaiter), k.frame[t]);
    GoodMoveInv(k, k.Goto(PushWaiter), PushWaiter, k.frame[t]);
  }

  lemma InitWaiterIdle(k: Kernel)
    requires Ok(k.sched) && Shape(k) && PcsOk(k) && WaitersOk(k) && CondsOk(k) && k.pc[k.sched.cur] == InitWaiter
    ensures DoProceed(k) == k.Goto(PushWaiter)
  {
    var t := k.sched.cur;
    NotListed(k, t);
    WaiterUnused(k, t);
    assert k.value[WaitSem(t) := 0] == k.value && k.waiters[WaitSem(t) := []] == k.waiters;
  }

  lemma InitWaiterGood(k: Kernel, k': Kernel, f: Frame)
    requires Shape(k) && LocksOk(k) && ListsOk(k) && k.sched.cur != k.sched.idle
    requires f == k.frame[k.sched.cur] && k.pc[k.sched.cur] == InitWaiter && PcOk(k, k.sched.cur, InitWaiter, f)
    requires k' == k.Goto(PushWaiter)
    ensures GoodMove(k, k', PushWaiter, f)
  {
    assert k'.frame == k.frame[k.sched.cur := f];
    MovesTables(k, k', PushWaiter, f);
    PcOkKept(k, k', k.sched.cur, PushWaiter, f);
    InitWaiterUnits(k, k');
    QuietStay(k, k', PushWaiter, f);
  }

  lemma InitWaiterUnits(k: Kernel, k': Kernel)
    requires Shape(k) && LocksOk(k) && k.pc[k.sched.cur] == InitWaiter && k' == k.Goto(PushWaiter)
    ensures HoldersKept(k, k') && UnitsMove(k, k') && UnitsTaken(k, k')
  {
  }

  lemma WaiterUnused(k: Kernel, t: Tid)
    requires Ok(k.sched) && Shape(k) && PcsOk(k) && WaitersOk(k) && t in k.pc && !k.pc[t].Down?
    ensures k.waiters[WaitSem(t)] == []
  {
    var w := k.waiters[WaitSem(t)];
    if w != [] { OwnSleeper(k, t, w[0]); }
  }

  /** Only the thread itself sleeps on its waiter semaphore. */
  lemma OwnSleeper(k: Kernel, t: Tid, u: Tid)
    requires Shape(k) && PcsOk(k) && WaitersOk(k) && t in k.pc && u in k.waiters[WaitSem(t)]
    ensures u == t && k.pc[t].Down?
  {
    assert QueueOk(k, WaitSem(t));
    assert PcOk(k, u, k.pc[u], k.frame[u]);
  }

  /** cond_wait enters itself in the list: from here on a signal cannot be lost. */
  lemma PushWaiterInv(k: Kernel)
    requires Inv(k) && k.pc[k.sched.cur] == PushWaiter
    ensures Inv(DoProceed(k))
  {
    hide Inv, Ok, Shape, PcsOk, PcOk, LocksOk, CondsOk, ListsOk;
    hide HoldersKept, UnitsMove, UnitsTaken, AllBalanced, Posted, Owns;
    Parts(k);
    var t := k.sched.cur;
    var f := k.frame[t];
    PushTarget(k);
    var p := ClearHolder(k.lockOf[f.c]);
    var k' := DoProceed(k);
    assert k'.frame == k.frame[t := f];
    MovesTables(k, k', p, f);
    NotListed(k, t);
    PushWaiterUnits(k, k', p);
    PushWaiterBalanced(k, k', p, f);
    PcOkKept(k, k', t, p, f);
    GoodMoveInv(k, k', p, f);
  }

  lemma PushTarget(k: Kernel)
    requires Inv(k) && k.pc[k.sched.cur] == PushWaiter
    ensures var t := k.sched.cur; var f := k.frame[t];
      f.Waiting? && f.c in k.lockOf && f.c in k.conds && t != k.sched.idle && k.Holds(t, k.lockOf[f.c])
      && PcOk(k, t, ClearHolder(k.lockOf[f.c]), f) && !Posted(k, t)
  {
    Parts(k);
  }

  lemma PushWaiterUnits(k: Kernel, k': Kernel, p: Pc)
    requires Shape(k) && LocksOk(k) && k.pc[k.sched.cur] == PushWaiter && p.ClearHolder?
    requires k' == k.(conds := k'.conds).Goto(p)
    ensures HoldersKept(k, k') && UnitsMove(k, k') && (k'.value == k.value) && UnitsTaken(k, k')
  {
  }

  lemma PushWaiterBalanced(k: Kernel, k': Kernel, p: Pc, f: Frame)
    requires Shape(k) && Shape(k') && CondsOk(k) && k.pc[k.sched.cur] == PushWaiter && p.ClearHolder?
    requires f == k.frame[k.sched.cur] && f.Waiting? && f.c in k.conds
    requires k' == k.(conds := k.conds[f.c := k.conds[f.c] + [k.sched.cur]]).Goto(p)
    requires forall c :: c in k.conds ==> k.sched.cur !in k.conds[c]
    ensures ListsOk(k') && AllBalanced(k, k', p)
  {
    var t := k.sched.cur;
    assert Listed(k', t) by { assert k'.conds[f.c][|k.conds[f.c]|] == t; }
    assert !Listed(k, t) && !Posted(k, t) && Posted(k', t);
    forall u | u in k.pc ensures Balanced(k, k', p, u) {
      if u != t { PushWaiterOther(k, k', p, f, u); }
    }
    PushWaiterLists(k, k', p, f);
  }

  lemma PushWaiterOther(k: Kernel, k': Kernel, p: Pc, f: Frame, u: Tid)
    requires Shape(k) && Shape(k') && k.pc[k.sched.cur] == PushWaiter && p.ClearHolder?
    requires f.Waiting? && f.c in k.conds && u in k.pc && u != k.sched.cur
    requires k' == k.(conds := k.conds[f.c := k.conds[f.c] + [k.sched.cur]]).Goto(p)
    ensures Balanced(k, k', p, u)
  {
    assert Listed(k', u) == Listed(k, u);
  }

  lemma PushWaiterLists(k: Kernel, k': Kernel, p: Pc, f: Frame)
    requires Shape(k) && Shape(k') && ListsOk(k) && f == k.frame[k.sched.cur] && f.Waiting? && f.c in k.conds
    requires k' == k.(conds := k.conds[f.c := k.conds[f.c] + [k.sched.cur]]).Goto(p)
    requires k.sched.cur !in k.conds[f.c]
    ensures ListsOk(k')
  {
    forall c | c in k'.conds ensures ListOk(k', c) {
      assert ListOk(k, c);
      assert forall t :: t in k'.conds[c] ==> t in k.conds[c] || (c == f.c && t == k.sched.cur);
    }
  }

  /** cond_signal and the test of cond_broadcast's loop: nobody is listed. */
  lemma PopNobodyInv(k: Kernel, c: Cid)
    requires Inv(k) && k.pc[k.sched.cur] == PopWaiter(c) && c in k.conds && k.conds[c] == []
    ensures Inv(DoProceed(k))
  {
    assert PcOk(k, k.sched.cur, PopWaiter(c), k.frame[k.sched.cur]);
    PopNobodyGood(k, DoProceed(k), c);
    GoodMoveInv(k, DoProceed(k), Free, NoFrame);
  }

  lemma PopNobodyGood(k: Kernel, k': Kernel, c: Cid)
    requires Shape(k) && LocksOk(k) && ListsOk(k) && k.sched.cur != k.sched.idle
    requires k.pc[k.sched.cur] == PopWaiter(c) && !k.frame[k.sched.cur].Waiting? && k' == k.Return()
    ensures GoodMove(k, k', Free, NoFrame)
  {
    hide Shape, LocksOk, ListsOk, HoldersKept, UnitsMove, UnitsTaken, AllBalanced, Quiet, Balanced, Listed;
    PopNobodyQuiet(k, k', c);
    MovesTables(k, k', Free, NoFrame);
    QuietBalanced(k, k', Free, NoFrame);
    PopUnits(k, k', c, Free);
  }

  lemma PopNobodyQuiet(k: Kernel, k': Kernel, c: Cid)
    requires Shape(k) && k.pc[k.sched.cur] == PopWaiter(c) && !k.frame[k.sched.cur].Waiting? && k' == k.Return()
    ensures Shape(k') && Moves(k, k', Free, NoFrame) && Quiet(k, k', Free)
    ensures Balanced(k, k', Free, k.sched.cur) && !Listed(k, k.sched.cur)
  {
  }

  lemma PopUnits(k: Kernel, k': Kernel, c: Cid, p: Pc)
    requires Shape(k) && LocksOk(k) && k.pc[k.sched.cur] == PopWaiter(c) && (p == Free || (p.Up? && p.s.WaitSem?))
    requires k'.pc == k.pc[k.sched.cur := p] && k'.value == k.value && k'.holder == k.holder
    ensures HoldersKept(k, k') && UnitsMove(k, k') && UnitsTaken(k, k')
  {
  }

  /** Taking the first waiter off the list makes its signal in flight in the same step. */
  lemma PopWaiterInv(k: Kernel, c: Cid)
    requires Inv(k) && k.pc[k.sched.cur] == PopWaiter(c) && c in k.conds && k.conds[c] != []
    ensures Inv(DoProceed(k))
  {
    var t := k.sched.cur;
    assert PcOk(k, t, PopWaiter(c), k.frame[t]);
    PopWaiterGood(k, DoProceed(k), c, k.conds[c][0], k.frame[t]);
    GoodMoveInv(k, DoProceed(k), Up(WaitSem(k.conds[c][0])), k.frame[t]);
  }

  lemma PopWaiterGood(k: Kernel, k': Kernel, c: Cid, u: Tid, f: Frame)
    requires Shape(k) && LocksOk(k) && ListsOk(k) && k.sched.cur != k.sched.idle
    requires f == k.frame[k.sched.cur] && k.pc[k.sched.cur] == PopWaiter(c) && PcOk(k, k.sched.cur, PopWaiter(c), f)
    requires k.conds[c] != [] && u == k.conds[c][0]
    requires k' == k.(conds := k.conds[c := k.conds[c][1..]]).Goto(Up(WaitSem(u)))
    ensures GoodMove(k, k', Up(WaitSem(u)), f)
  {
    hide LocksOk, ListsOk, HoldersKept, UnitsMove, UnitsTaken, AllBalanced;
    FirstListed(k, c, u);
    assert k'.frame == k.frame[k.sched.cur := f];
    MovesTables(k, k', Up(WaitSem(u)), f);
    PopUnits(k, k', c, Up(WaitSem(u)));
    PopPc(k, k', c, u, f);
    PopLists(k, k', c, u, f);
    PopAllBalanced(k, k', c, u);
  }

  lemma FirstListed(k: Kernel, c: Cid, u: Tid)
    requires Shape(k) && ListsOk(k) && c in k.conds && k.conds[c] != [] && u == k.conds[c][0]
    ensures u in k.pc && u in k.conds[c] && k.frame[u] == Waiting(c)
  {
    assert ListOk(k, c) && u in k.conds[c];
  }

  lemma PopAllBalanced(k: Kernel, k': Kernel, c: Cid, u: Tid)
    requires Shape(k) && Shape(k') && ListsOk(k) && c in k.conds && k.conds[c] != [] && u == k.conds[c][0]
    requires k.pc[k.sched.cur] == PopWaiter(c) && !k.frame[k.sched.cur].Waiting?
    requires k' == k.(conds := k.conds[c := k.conds[c][1..]]).Goto(Up(WaitSem(u))) && u !in k'.conds[c]
    ensures AllBalanced(k, k', Up(WaitSem(u)))
  {
    forall t | t in k.pc ensures Balanced(k, k', Up(WaitSem(u)), t) {
      PopBalanced(k, k', c, u, t);
    }
  }

  lemma PopPc(k: Kernel, k': Kernel, c: Cid, u: Tid, f: Frame)
    requires PcOk(k, k.sched.cur, PopWaiter(c), f) && u in k.pc && k'.pc.Keys == k.pc.Keys
    requires k'.lockOf == k.lockOf && k'.holder == k.holder
    ensures PcOk(k', k.sched.cur, Up(WaitSem(u)), f)
  {
  }

  lemma PopLists(k: Kernel, k': Kernel, c: Cid, u: Tid, f: Frame)
    requires Shape(k) && Shape(k') && ListsOk(k) && c in k.conds && k.conds[c] != [] && u == k.conds[c][0]
    requires k'.conds == k.conds[c := k.conds[c][1..]] && k'.pc.Keys == k.pc.Keys && k'.frame == k.frame
    ensures ListsOk(k') && u !in k'.conds[c]
  {
    assert ListOk(k, c);
    forall d | d in k'.conds ensures ListOk(k', d) {
      assert ListOk(k, d);
      assert forall t :: t in k'.conds[d] ==> t in k.conds[d];
    }
  }

  lemma PopBalanced(k: Kernel, k': Kernel, c: Cid, u: Tid, t: Tid)
    requires Shape(k) && Shape(k') && ListsOk(k) && t in k.pc && c in k.conds && k.conds[c] != [] && u == k.conds[c][0]
    requires k.pc[k.sched.cur] == PopWaiter(c) && !k.frame[k.sched.cur].Waiting?
    requires k' == k.(conds := k.conds[c := k.conds[c][1..]]).Goto(Up(WaitSem(u))) && u !in k'.conds[c]
    ensures Balanced(k, k', Up(WaitSem(u)), t)
  {
    assert k.conds[c] == [u] + k.conds[c][1..] && u in k.conds[c];
    assert ListOk(k, c) && k.frame[u] == Waiting(c);
    assert Listed(k', t) == (Listed(k, t) && t != u);
  }

  // ---------- going to sleep

  /** K' is K with the running thread asleep on S. */
  ghost predicate Dozes(k: Kernel, k': Kernel, s: SemId)
    requires Shape(k)
  {
    && s in k.value && k.value[s] == 0 && k'.value == k.value && k'.holder == k.holder && k'.conds == k.conds
    && k'.lockOf == k.lockOf && k'.frame == k.frame
    && k.pc[k.sched.cur].Down? && k.pc[k.sched.cur].s == s && k.sched.cur != k.sched.idle
    && k'.pc == k.pc[k.sched.cur := Down(s, true)] && k'.waiters == k.waiters[s := k.waiters[s] + [k.sched.cur]]
    && Parks(k.sched, k'.sched)
  }

  /** From S to R the running thread blocks and another one, or the idle thread, runs. */
  ghost predicate Parks(s: Sched, r: Sched) {
    && r.status.Keys == s.status.Keys && s.cur in s.status && r.cur in s.status && r.idle == s.idle
    && r.cur != s.cur && r.status[s.cur] == Blocked && r.status[r.cur] == Running
    && (r.cur == s.idle || s.status[r.cur] == Ready)
    && (forall t :: t in s.status && t != s.cur && t != r.cur ==> r.status[t] == s.status[t])
  }

  lemma BlockParks(s: Sched)
    requires Ok(s) && s.cur != s.idle
    ensures Parks(s, Block(s))
  {
    if s.ready != [] { assert s.ready[0] in s.ready; }
  }

  /** sema_down finds no unit: the running thread queues up and blocks in one step. */
  lemma BlockInv(k: Kernel, s: SemId)
    requires Inv(k) && k.pc[k.sched.cur].Down? && k.pc[k.sched.cur].s == s && s in k.value && k.value[s] == 0
    ensures Inv(DoDown(k, s))
  {
    hide WaitersOk, WakeOk, LocksOk, CondsOk;
    BlockOk(k.sched);
    BlockParks(k.sched);
    SleepInv(k, DoDown(k, s), s, k.frame[k.sched.cur]);
  }

  lemma SleepInv(k: Kernel, k': Kernel, s: SemId, f: Frame)
    requires Inv(k) && Dozes(k, k', s) && Ok(k'.sched) && f == k.frame[k.sched.cur]
    ensures Inv(k')
  {
    hide Ok, WaitersOk, WakeOk, LocksOk, DeadOk;
    SleepMoves(k, k', s, f);
    assert PcOk(k, k.sched.cur, k.pc[k.sched.cur], f);
    SleepPc(k, k', s, k.pc[k.sched.cur].woken, f);
    SleepUnits(k, k', s);
    MovesPcs(k, k', Down(s, true), f);
    MovesLocks(k, k', Down(s, true), f);
    SleepWaiters(k, k', s);
    SleepWake(k, k', s);
    SleepBalanced(k, k', s, f);
    MovesConds(k, k', Down(s, true), f);
    SleepDead(k, k', s);
  }

  lemma SleepDead(k: Kernel, k': Kernel, s: SemId)
    requires Ok(k.sched) && Shape(k) && DeadOk(k) && Dozes(k, k', s) && Shape(k')
    ensures DeadOk(k')
  {
    MovesDead(k, k', Down(s, true));
  }

  lemma SleepMoves(k: Kernel, k': Kernel, s: SemId, f: Frame)
    requires Shape(k) && Dozes(k, k', s) && f == k.frame[k.sched.cur]
    ensures Moves(k, k', Down(s, true), f) && Shape(k')
  {
    assert k'.frame == k.frame[k.sched.cur := f];
    MovesTables(k, k', Down(s, true), f);
  }

  lemma SleepPc(k: Kernel, k': Kernel, s: SemId, woken: bool, f: Frame)
    requires PcOk(k, k.sched.cur, Down(s, woken), f) && k'.value.Keys == k.value.Keys
    requires k'.lockOf == k.lockOf && k'.holder == k.holder
    ensures PcOk(k', k.sched.cur, Down(s, true), f)
  {
  }

  lemma SleepUnits(k: Kernel, k': Kernel, s: SemId)
    requires Shape(k) && LocksOk(k) && Dozes(k, k', s)
    ensures HoldersKept(k, k') && UnitsMove(k, k')
  {
  }

  lemma SleepBalanced(k: Kernel, k': Kernel, s: SemId, f: Frame)
    requires Shape(k) && Shape(k') && ListsOk(k) && Dozes(k, k', s) && Moves(k, k', Down(s, true), f) && f == k.frame[k.sched.cur]
    ensures ListsOk(k') && AllBalanced(k, k', Down(s, true))
  {
    hide Shape, Parks, ListsOk, AllBalanced, Quiet, Moves;
    SleepQuiet(k, k', s);
    QuietStay(k, k', Down(s, true), f);
  }

  lemma SleepQuiet(k: Kernel, k': Kernel, s: SemId)
    requires Shape(k) && Shape(k') && Dozes(k, k', s)
    ensures Quiet(k, k', Down(s, true)) && Posted(k', k.sched.cur) == Posted(k, k.sched.cur)
  {
    hide Parks;
  }

  lemma SleepWaiters(k: Kernel, k': Kernel, s: SemId)
    requires Ok(k.sched) && Shape(k) && WaitersOk(k) && Shape(k') && Dozes(k, k', s)
    ensures WaitersOk(k')
  {
    hide QueueOk, Queued, Dozes, Ok;
    forall z | z in k'.waiters ensures QueueOk(k', z) {
      SleepQueue(k, k', s, z);
    }
    forall t | t in k'.pc && k'.sched.status[t] == Blocked && t != k'.sched.idle ensures Queued(k', t) {
      SleepQueued(k, k', s, t);
    }
  }

  lemma SleepQueued(k: Kernel, k': Kernel, s: SemId, t: Tid)
    requires Ok(k.sched) && Shape(k) && WaitersOk(k) && Shape(k') && Dozes(k, k', s)
    requires t in k'.pc && k'.sched.status[t] == Blocked && t != k'.sched.idle
    ensures Queued(k', t)
  {
    hide QueueOk, Ok, Parks;
    var w := k.waiters[s];
    AtEnd(w, k.sched.cur);
    if t != k.sched.cur {
      WasAsleep(k.sched, k'.sched, t);
      Tables(k, t);
      assert Queued(k, t);
    }
  }

  lemma AtEnd(w: seq<Tid>, t: Tid)
    ensures t in w + [t] && forall u :: u in w ==> u in w + [t]
  {
    assert (w + [t])[|w|] == t;
  }

  lemma WasAsleep(s: Sched, r: Sched, t: Tid)
    requires Parks(s, r) && t in r.status && t != s.cur && r.status[t] == Blocked
    ensures t in s.status && s.status[t] == Blocked && r.idle == s.idle
  {
  }

  lemma SleepQueue(k: Kernel, k': Kernel, s: SemId, z: SemId)
    requires Ok(k.sched) && Shape(k) && WaitersOk(k) && Shape(k') && Dozes(k, k', s) && z in k'.waiters
    ensures QueueOk(k', z)
  {
    RunningIsAwake(k, z);
    assert QueueOk(k, z);
    if z == s { NoDupEnd(k.waiters[z], k.sched.cur); }
    forall t | t in k'.waiters[z] ensures Sleeps(k', t, z) {
      if t != k.sched.cur { SleepsOn(k, k', s, t, z); }
    }
  }

  /** Whoever slept goes on sleeping: the thread that runs next was ready, or is the idle thread. */
  lemma SleepsOn(k: Kernel, k': Kernel, s: SemId, t: Tid, z: SemId)
    requires Shape(k) && Shape(k') && Dozes(k, k', s) && t != k.sched.cur && Sleeps(k, t, z)
    ensures Sleeps(k', t, z)
  {
  }

  lemma SleepWake(k: Kernel, k': Kernel, s: SemId)
    requires Shape(k) && WakeOk(k) && Shape(k') && Dozes(k, k', s)
    ensures WakeOk(k')
  {
    hide Parks;
    forall z | z in k'.value && k'.waiters[z] != [] && z != s ensures k'.value[z] <= |Woken(k', z)| {
      WokenStays(k.pc, k.waiters[z], z, k.sched.cur, Down(s, true));
    }
  }

  // ---------- sema_up

  /** The running thread gives a unit of S and goes on at P. */
  ghost predicate Gives(k: Kernel, k': Kernel, s: SemId, p: Pc)
    requires Shape(k)
  {
    var t := k.sched.cur;
    && s in k.value && k'.value == k.value[s := k.value[s] + 1] && k'.pc == k.pc[t := p] && Rouses(k, k', s)
    && k'.frame == k.frame && k'.holder == k.holder && k'.conds == k.conds && k'.lockOf == k.lockOf
    && GivesAt(k, s, k.pc[t], p, k.frame[t].Waiting?)
  }

  /** From Q to P, giving a unit of S: inside the call, or by an interrupt (P == Q). */
  ghost predicate GivesAt(k: Kernel, s: SemId, q: Pc, p: Pc, waiting: bool) {
    var t := k.sched.cur;
    match s
    case User(_) => p == q || (q == Up(s) && p == Free && !waiting)
    case LockSem(l) => q == Up(s) && !k.Holds(t, l) && p == if waiting then Down(WaitSem(t), false) else Free
    case WaitSem(u) => q == Up(s) && !waiting && (p == Free || p.PopWaiter?)
  }

  /** The first waiter of S, asleep in K, is ready in K'; nobody else's status changes. */
  ghost predicate Rouses(k: Kernel, k': Kernel, s: SemId)
    requires Shape(k) && s in k.waiters
  {
    var w := k.waiters[s];
    if w == [] then
      k'.waiters == k.waiters && k'.sched == k.sched
    else
      && k'.waiters == k.waiters[s := w[1..]] && w[0] in k.pc
      && k'.sched.status == k.sched.status[w[0] := Ready] && k'.sched.cur == k.sched.cur && k'.sched.idle == k.sched.idle
  }

  lemma SignalRouses(k: Kernel, s: SemId)
    requires Ok(k.sched) && Shape(k) && WaitersOk(k) && s in k.value
    ensures Ok(Signal(k, s).sched) && Rouses(k, Signal(k, s), s)
  {
    var w := k.waiters[s];
    if w != [] {
      assert QueueOk(k, s) && w[0] in w;
      UnblockOk(k.sched, w[0]);
    }
  }

  lemma GiveInv(k: Kernel, k': Kernel, s: SemId, p: Pc, f: Frame)
    requires Inv(k) && Gives(k, k', s, p) && Ok(k'.sched) && f == k.frame[k.sched.cur] && PcOk(k, k.sched.cur, p, f)
    requires k.sched.cur == k.sched.idle ==> p == Free
    ensures Inv(k')
  {
    hide Ok, WaitersOk, WakeOk, LocksOk, DeadOk;
    GiveMoves(k, k', s, p, f);
    GiveUnits(k, k', s, p);
    PcOkKept(k, k', k.sched.cur, p, f);
    MovesPcs(k, k', p, f);
    MovesLocks(k, k', p, f);
    GiveWaiters(k, k', s, p);
    GiveWake(k, k', s, p);
    GiveBalanced(k, k', s, p, f);
    MovesConds(k, k', p, f);
    GiveDead(k, k', s, p);
  }

  lemma GiveDead(k: Kernel, k': Kernel, s: SemId, p: Pc)
    requires Ok(k.sched) && Shape(k) && DeadOk(k) && Gives(k, k', s, p) && Shape(k')
    ensures DeadOk(k')
  {
    hide GivesAt, Shape, DeadOk;
    MovesDead(k, k', p);
  }

  lemma GiveMoves(k: Kernel, k': Kernel, s: SemId, p: Pc, f: Frame)
    requires Shape(k) && Gives(k, k', s, p) && f == k.frame[k.sched.cur]
    ensures Moves(k, k', p, f) && Shape(k')
  {
    assert k'.frame == k.frame[k.sched.cur := f];
    MovesTables(k, k', p, f);
  }

  lemma GiveUnits(k: Kernel, k': Kernel, s: SemId, p: Pc)
    requires Shape(k) && LocksOk(k) && Gives(k, k', s, p)
    ensures HoldersKept(k, k') && UnitsMove(k, k')
  {
    forall l | LockSem(l) in k.value
      ensures k'.value[LockSem(l)] + Count(Owns(k', k.sched.cur, l)) == k.value[LockSem(l)] + Count(Owns(k, k.sched.cur, l))
    {
      GiveUnit(k, k', s, p, l);
    }
  }

  lemma GiveUnit(k: Kernel, k': Kernel, s: SemId, p: Pc, l: Lid)
    requires Shape(k) && Gives(k, k', s, p) && LockSem(l) in k.value
    ensures k'.value[LockSem(l)] + Count(Owns(k', k.sched.cur, l)) == k.value[LockSem(l)] + Count(Owns(k, k.sched.cur, l))
  {
  }

  lemma GiveWaiters(k: Kernel, k': Kernel, s: SemId, p: Pc)
    requires Ok(k.sched) && Shape(k) && WaitersOk(k) && Shape(k') && Gives(k, k', s, p)
    ensures WaitersOk(k')
  {
    forall z | z in k'.waiters ensures QueueOk(k', z) {
      GiveQueue(k, k', s, p, z);
    }
    forall t | t in k'.pc && k'.sched.status[t] == Blocked && t != k'.sched.idle ensures Queued(k', t) {
      GiveQueued(k, k', s, p, t);
    }
  }

  lemma GiveQueued(k: Kernel, k': Kernel, s: SemId, p: Pc, t: Tid)
    requires Ok(k.sched) && Shape(k) && WaitersOk(k) && s in k.value && Rouses(k, k', s) && k'.pc == k.pc[k.sched.cur := p]
    requires t in k.pc && k'.sched.status.Keys == k.sched.status.Keys && k'.sched.status[t] == Blocked && t != k.sched.idle
    ensures Queued(k', t)
  {
    assert Queued(k, t) && QueueOk(k, s);
    if k.waiters[s] != [] { NoDupTail(k.waiters[s]); }
  }

  lemma GiveQueue(k: Kernel, k': Kernel, s: SemId, p: Pc, z: SemId)
    requires Ok(k.sched) && Shape(k) && WaitersOk(k) && Shape(k') && Gives(k, k', s, p) && z in k'.waiters
    ensures QueueOk(k', z)
  {
    hide GivesAt, Ok;
    assert QueueOk(k, z) && QueueOk(k, s);
    RunningIsAwake(k, z);
    if k.waiters[s] != [] { NoDupTail(k.waiters[s]); }
    forall t | t in k'.waiters[z] ensures Sleeps(k', t, z) {
      assert Sleeps(k, t, z);
    }
  }

  lemma GiveWake(k: Kernel, k': Kernel, s: SemId, p: Pc)
    requires Shape(k) && WaitersOk(k) && WakeOk(k) && Shape(k') && Gives(k, k', s, p)
    ensures WakeOk(k')
  {
    hide WaitersOk, Woken, Rouses;
    forall z | z in k'.value && k'.waiters[z] != [] ensures k'.value[z] <= |Woken(k', z)| {
      GiveWakeAt(k, k', s, p, z);
    }
  }

  lemma GiveWakeAt(k: Kernel, k': Kernel, s: SemId, p: Pc, z: SemId)
    requires Shape(k) && WaitersOk(k) && WakeOk(k) && s in k.value && Rouses(k, k', s)
    requires k'.value == k.value[s := k.value[s] + 1] && k'.pc == k.pc[k.sched.cur := p]
    requires k.pc[k.sched.cur] == p || (k.pc[k.sched.cur].Up? && !(p.Down? && p.woken))
    requires z in k'.value && k'.waiters[z] != []
    ensures k'.value[z] <= |Woken(k', z)|
  {
    var w := k.waiters[z];
    WokenStays(k.pc, k'.waiters[z], z, k.sched.cur, p);
    if z == s {
      assert QueueOk(k, s) && w[0] in w;
      WokenJoins(k.pc, w, s);
    }
  }

  lemma GiveBalanced(k: Kernel, k': Kernel, s: SemId, p: Pc, f: Frame)
    requires Shape(k) && ListsOk(k) && Shape(k') && Gives(k, k', s, p) && Moves(k, k', p, f) && f == k.frame[k.sched.cur]
    ensures ListsOk(k') && AllBalanced(k, k', p)
  {
    QuietLists(k, k', p, f);
    forall t | t in k.pc ensures Balanced(k, k', p, t) {
      GivePosted(k, k', s, p, t);
      GiveBalance(k, k', s, p, t);
    }
  }

  lemma GivePosted(k: Kernel, k': Kernel, s: SemId, p: Pc, t: Tid)
    requires Shape(k) && Shape(k') && Gives(k, k', s, p) && t in k.pc
    ensures Posted(k', t) == Posted(k, t)
  {
  }

  lemma GiveBalance(k: Kernel, k': Kernel, s: SemId, p: Pc, t: Tid)
    requires Shape(k) && Shape(k') && Gives(k, k', s, p) && t in k.pc && Posted(k', t) == Posted(k, t)
    ensures Balanced(k, k', p, t)
  {
    hide Shape, Rouses;
    Tables(k, t);
    Tables(k', t);
    assert Listed(k', t) == Listed(k, t);
  }
}
