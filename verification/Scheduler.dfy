/** The scheduler of pintos/src/threads/thread.c as a step machine.  Every function below is one
    section the original runs with interrupts off, so between two of them anything may happen.
    States are those after the idle thread has been set. */
module Scheduler {
  import opened Seqs

  type Tid = nat

  const TIME_SLICE: nat := 4

  datatype Status = Running | Ready | Blocked | Dying

  datatype Sched = Sched(status: map<Tid, Status>, ready: seq<Tid>, cur: Tid, idle: Tid, ticks: nat)

  /** Exactly one thread runs, the ready list holds exactly the other ready threads, each once,
      and the idle thread is never on it. */
  ghost predicate Ok(s: Sched) {
    && s.cur in s.status && s.idle in s.status && s.status[s.idle] != Dying
    && s.ticks < TIME_SLICE
    && (forall t :: t in s.status ==> (s.status[t] == Running <==> t == s.cur))
    && ReadyOk(s)
  }

  ghost predicate ReadyOk(s: Sched) {
    && NoDup(s.ready)
    && (forall t :: t in s.ready <==> t in s.status && s.status[t] == Ready && t != s.idle)
  }

  /** The state in which schedule() is called: the current thread has given up the processor. */
  ghost predicate Leaving(s: Sched) {
    && s.cur in s.status && s.idle in s.status && s.status[s.idle] != Dying
    && (forall t :: t in s.status ==> s.status[t] != Running)
    && ReadyOk(s)
  }

  /** next_thread_to_run */
  function NextThread(s: Sched): (t: Tid) { if s.ready == [] then s.idle else s.ready[0] }

  /** schedule and thread_schedule_tail */
  function Schedule(s: Sched): (r: Sched) {
    var next := NextThread(s);
    s.(status := s.status[next := Running],
       ready := if s.ready == [] then [] else s.ready[1..],
       cur := next, ticks := 0)
  }

  function Block(s: Sched): (r: Sched) { Schedule(s.(status := s.status[s.cur := Blocked])) }

  function Unblock(s: Sched, t: Tid): (r: Sched) {
    s.(status := s.status[t := Ready], ready := s.ready + [t])
  }

  function Yield(s: Sched): (r: Sched) {
    Schedule(s.(status := s.status[s.cur := Ready],
                ready := if s.cur != s.idle then s.ready + [s.cur] else s.ready))
  }

  function Exit(s: Sched): (r: Sched) { Schedule(s.(status := s.status[s.cur := Dying])) }

  /** thread_create: a new thread starts blocked and is unblocked at once. */
  function Create(s: Sched, t: Tid): (r: Sched) { Unblock(s.(status := s.status[t := Blocked]), t) }

  /** thread_tick, with the yield on return from the interrupt when the slice is used up. */
  function Tick(s: Sched): (r: Sched) {
    if s.ticks + 1 >= TIME_SLICE then Yield(s) else s.(ticks := s.ticks + 1)
  }

  // ---------- every step keeps the scheduler in order

  lemma ScheduleOk(s: Sched)
    requires Leaving(s)
    ensures Ok(Schedule(s))
  {
    var r, next := Schedule(s), NextThread(s);
    forall t ensures t in r.ready <==> t in r.status && r.status[t] == Ready && t != r.idle {
      if s.ready != [] {
        assert s.ready == [s.ready[0]] + s.ready[1..];
        assert t in s.ready <==> t == s.ready[0] || t in s.ready[1..];
      }
    }
  }

  lemma BlockOk(s: Sched)
    requires Ok(s)
    ensures Ok(Block(s))
  {
    ScheduleOk(s.(status := s.status[s.cur := Blocked]));
  }

  lemma UnblockOk(s: Sched, t: Tid)
    requires Ok(s) && t in s.status && s.status[t] == Blocked && t != s.idle
    ensures Ok(Unblock(s, t))
  {
    var r := Unblock(s, t);
    assert forall u :: u in r.ready <==> u in s.ready || u == t;
  }

  lemma YieldOk(s: Sched)
    requires Ok(s)
    ensures Ok(Yield(s))
  {
    var r := s.(status := s.status[s.cur := Ready], ready := if s.cur != s.idle then s.ready + [s.cur] else s.ready);
    assert forall u :: u in r.ready <==> u in s.ready || (u == s.cur && s.cur != s.idle);
    ScheduleOk(r);
  }

  lemma ExitOk(s: Sched)
    requires Ok(s) && s.cur != s.idle
    ensures Ok(Exit(s))
  {
    ScheduleOk(s.(status := s.status[s.cur := Dying]));
  }

  lemma CreateOk(s: Sched, t: Tid)
    requires Ok(s) && t !in s.status
    ensures Ok(Create(s, t))
  {
    UnblockOk(s.(status := s.status[t := Blocked]), t);
  }

  lemma TickOk(s: Sched)
    requires Ok(s)
    ensures Ok(Tick(s))
  {
    if s.ticks + 1 >= TIME_SLICE { YieldOk(s); }
  }

  // ---------- runs

  datatype Move = DoBlock | DoUnblock(t: Tid) | DoYield | DoExit | DoCreate(t: Tid) | DoTick

  /** What the assertions of the original demand of a call. */
  predicate Enabled(s: Sched, m: Move) {
    match m
    case DoBlock | DoYield | DoTick => true
    case DoUnblock(t) => t in s.status && s.status[t] == Blocked && t != s.idle
    case DoExit => s.cur != s.idle
    case DoCreate(t) => t !in s.status
  }

  function Apply(s: Sched, m: Move): (r: Sched) {
    match m
    case DoBlock => Block(s)
    case DoUnblock(t) => Unblock(s, t)
    case DoYield => Yield(s)
    case DoExit => Exit(s)
    case DoCreate(t) => Create(s, t)
    case DoTick => Tick(s)
  }

  lemma ApplyOk(s: Sched, m: Move)
    requires Ok(s) && Enabled(s, m)
    ensures Ok(Apply(s, m))
  {
    match m
    case DoBlock => BlockOk(s);
    case DoUnblock(t) => UnblockOk(s, t);
    case DoYield => YieldOk(s);
    case DoExit => ExitOk(s);
    case DoCreate(t) => CreateOk(s, t);
    case DoTick => TickOk(s);
  }

  /** Whether a move calls schedule(). */
  predicate Reschedules(s: Sched, m: Move) {
    m.DoBlock? || m.DoYield? || m.DoExit? || (m.DoTick? && s.ticks + 1 >= TIME_SLICE)
  }

  /** A call of schedule() takes every thread on the ready list one place on, and the first to the processor;
      nothing else moves them. */
  lemma ReadyAdvances(s: Sched, m: Move, i: nat)
    requires Ok(s) && Enabled(s, m) && i < |s.ready|
    ensures var r := Apply(s, m);
            if !Reschedules(s, m) then i < |r.ready| && r.ready[i] == s.ready[i] && r.cur == s.cur
            else if i == 0 then r.cur == s.ready[0]
            else i - 1 < |r.ready| && r.ready[i - 1] == s.ready[i]
  {
  }

  /** An upper bound on the timer ticks before the thread at place I runs. */
  function TicksLeft(s: Sched, i: nat): int { TIME_SLICE * i + TIME_SLICE - s.ticks }

  ghost predicate IsRun(run: seq<Sched>, moves: seq<Move>) {
    && |run| == |moves| + 1
    && forall k :: 0 <= k < |moves| ==> Enabled(run[k], moves[k]) && run[k + 1] == Apply(run[k], moves[k])
  }

  function Ticks(moves: seq<Move>): (n: nat)
    ensures n <= |moves|
  {
    if moves == [] then 0 else (if moves[0].DoTick? then 1 else 0) + Ticks(moves[1..])
  }

  lemma {:induction false} RunOk(run: seq<Sched>, moves: seq<Move>, k: nat)
    requires IsRun(run, moves) && Ok(run[0]) && k < |run|
    ensures Ok(run[k])
  {
    if k > 0 {
      RunOk(run, moves, k - 1);
      ApplyOk(run[k - 1], moves[k - 1]);
      assert run[k - 1 + 1] == Apply(run[k - 1], moves[k - 1]);
    }
  }

  /** How many moves of a run call schedule(). */
  function Schedules(run: seq<Sched>, moves: seq<Move>): nat
    requires |run| == |moves| + 1
    decreases |moves|
  {
    if moves == [] then 0
    else
      var n := |moves| - 1;
      Schedules(run[..n + 1], moves[..n]) + if Reschedules(run[n], moves[n]) then 1 else 0
  }

  lemma FrontRun(run: seq<Sched>, moves: seq<Move>)
    requires IsRun(run, moves) && moves != []
    ensures IsRun(run[..|moves|], moves[..|moves| - 1])
  {
    var n := |moves| - 1;
    var run', moves' := run[..n + 1], moves[..n];
    forall k | 0 <= k < n ensures Enabled(run'[k], moves'[k]) && run'[k + 1] == Apply(run'[k], moves'[k]) {
      assert run'[k] == run[k] && moves'[k] == moves[k] && run'[k + 1] == run[k + 1];
    }
  }

  /** First in, first out, over every run: the thread at place I of the ready list moves up with every call of
      schedule() and is dispatched by the (I+1)-th of them, whatever else happens. */
  lemma {:induction false} FirstInFirstOut(run: seq<Sched>, moves: seq<Move>, i: nat)
    requires IsRun(run, moves) && Ok(run[0]) && i < |run[0].ready|
    ensures var c, last := Schedules(run, moves), run[|moves|];
      && (c <= i ==> i - c < |last.ready| && last.ready[i - c] == run[0].ready[i])
      && (c == i + 1 && Reschedules(run[|moves| - 1], moves[|moves| - 1]) ==> last.cur == run[0].ready[i])
    decreases |moves|
  {
    hide Ok, Enabled, Apply, Reschedules;
    if moves != [] {
      var n := |moves| - 1;
      var s, m, c := run[n], moves[n], Schedules(run[..n + 1], moves[..n]);
      FrontRun(run, moves);
      FirstInFirstOut(run[..n + 1], moves[..n], i);
      RunOk(run, moves, n);
      assert run[n + 1] == Apply(s, m) && Enabled(s, m);
      if c <= i { ReadyAdvances(s, m, i - c); }
    }
  }

  /** No thread starves: in every run, a thread at place I of the ready list has been running by
      the time 4 * (I+1) timer ticks were delivered. */
  lemma {:induction false} DispatchedInTime(run: seq<Sched>, moves: seq<Move>, i: nat)
    requires IsRun(run, moves) && Ok(run[0]) && i < |run[0].ready|
    requires Ticks(moves) >= TIME_SLICE * (i + 1)
    ensures exists k :: 0 <= k < |run| && run[k].cur == run[0].ready[i]
  {
    DispatchedWithin(run, moves, i);
  }

  lemma {:induction false} DispatchedWithin(run: seq<Sched>, moves: seq<Move>, i: nat)
    requires IsRun(run, moves) && Ok(run[0]) && i < |run[0].ready|
    requires Ticks(moves) >= TicksLeft(run[0], i)
    ensures exists k :: 0 <= k < |run| && run[k].cur == run[0].ready[i]
    decreases |moves|
  {
    var s, m, r := run[0], moves[0], run[1];
    assert r == Apply(s, m) by { assert run[0 + 1] == Apply(run[0], moves[0]); }
    ReadyAdvances(s, m, i);
    if Reschedules(s, m) && i == 0 {
      assert run[1].cur == s.ready[0];
    } else {
      ApplyOk(s, m);
      var run', moves', j := run[1..], moves[1..], if Reschedules(s, m) then i - 1 else i;
      TailRun(run, moves);
      DispatchedWithin(run', moves', j);
      var k :| 0 <= k < |run'| && run'[k].cur == s.ready[i];
      assert run[k + 1].cur == s.ready[i];
    }
  }

  lemma TailRun(run: seq<Sched>, moves: seq<Move>)
    requires IsRun(run, moves) && moves != []
    ensures IsRun(run[1..], moves[1..])
  {
    var run', moves' := run[1..], moves[1..];
    forall k | 0 <= k < |moves'| ensures Enabled(run'[k], moves'[k]) && run'[k + 1] == Apply(run'[k], moves'[k]) {
      assert run'[k] == run[k + 1] && moves'[k] == moves[k + 1] && run'[k + 1] == run[k + 1 + 1];
    }
  }

  /** Moves with which the running thread does not give up the processor of its own accord. */
  predicate Forced(m: Move) { m.DoUnblock? || m.DoCreate? || m.DoTick? }

  lemma {:induction false} TicksFront(moves: seq<Move>)
    requires moves != []
    ensures var n := |moves| - 1; Ticks(moves) == Ticks(moves[..n]) + if moves[n].DoTick? then 1 else 0
  {
    var n := |moves| - 1;
    if n > 0 {
      TicksFront(moves[1..]);
      assert moves[1..][..n - 1] == moves[..n][1..];
    }
  }

  /** A full slice: whoever has just been dispatched, and does not give up the processor, keeps it for fewer than four
      ticks, however many there were of them and whatever else happens. */
  lemma {:induction false} FullSlice(before: Sched, m: Move, run: seq<Sched>, moves: seq<Move>)
    requires Ok(before) && Enabled(before, m) && Reschedules(before, m)
    requires IsRun(run, moves) && run[0] == Apply(before, m) && (forall k :: 0 <= k < |moves| ==> Forced(moves[k]))
    requires Ticks(moves) < 4
    ensures run[|moves|].cur == run[0].cur && run[|moves|].ticks == Ticks(moves)
    decreases |moves|
  {
    if moves != [] {
      var n := |moves| - 1;
      FrontRun(run, moves);
      TicksFront(moves);
      FullSlice(before, m, run[..n + 1], moves[..n]);
      assert run[n + 1] == Apply(run[n], moves[n]) && Forced(moves[n]);
    }
  }

  /** And no longer: the fourth tick hands the processor to the first on the ready list, if there is one. */
  lemma SliceEnds(before: Sched, m: Move, run: seq<Sched>, moves: seq<Move>)
    requires Ok(before) && Enabled(before, m) && Reschedules(before, m)
    requires IsRun(run, moves) && run[0] == Apply(before, m) && (forall k :: 0 <= k < |moves| ==> Forced(moves[k]))
    requires Ticks(moves) == 4 && moves != [] && moves[|moves| - 1].DoTick?
    ensures var last, end := run[|moves| - 1], run[|moves|];
      && last.cur == run[0].cur
      && end.cur == if last.ready != [] then last.ready[0] else last.cur
  {
    var n := |moves| - 1;
    FrontRun(run, moves);
    TicksFront(moves);
    FullSlice(before, m, run[..n + 1], moves[..n]);
    assert run[n + 1] == Apply(run[n], moves[n]);
  }

  /** Whoever becomes ready, or yields while others are, goes to the end of the ready list. */
  lemma GoesLast(s: Sched, t: Tid)
    requires Ok(s)
    ensures Enabled(s, DoUnblock(t)) || Enabled(s, DoCreate(t)) ==>
      var r := if Enabled(s, DoUnblock(t)) then Apply(s, DoUnblock(t)) else Apply(s, DoCreate(t));
      r.ready == s.ready + [t] && r.cur == s.cur
    ensures s.cur != s.idle ==> var r := Apply(s, DoYield); [r.cur] + r.ready == s.ready + [s.cur]
    ensures s.cur == s.idle ==> var r := Apply(s, DoYield); r.ready == if s.ready == [] then [] else s.ready[1..]
  {
    if s.cur != s.idle && s.ready != [] {
      assert s.ready + [s.cur] == [s.ready[0]] + (s.ready[1..] + [s.cur]);
    }
  }

  /** T is dead, or asleep and not woken by MOVES. */
  ghost predicate StaysDown(s: Sched, moves: seq<Move>, t: Tid) {
    t in s.status && (s.status[t] == Dying || (s.status[t] == Blocked && t != s.idle && DoUnblock(t) !in moves))
  }

  lemma {:induction false} DownThroughout(run: seq<Sched>, moves: seq<Move>, t: Tid, k: nat)
    requires IsRun(run, moves) && Ok(run[0]) && StaysDown(run[0], moves, t) && k < |run|
    ensures StaysDown(run[k], moves, t) && run[k].cur != t
  {
    if k > 0 {
      DownThroughout(run, moves, t, k - 1);
      RunOk(run, moves, k - 1);
      var s, m := run[k - 1], moves[k - 1];
      assert run[k - 1 + 1] == Apply(s, m) && Enabled(s, m) && m in moves;
      NotDispatched(s, m, t);
    }
  }

  lemma NotDispatched(s: Sched, m: Move, t: Tid)
    requires Ok(s) && Enabled(s, m) && t in s.status && s.cur != t && m != DoUnblock(t)
    requires s.status[t] == Dying || (s.status[t] == Blocked && t != s.idle)
    ensures var r := Apply(s, m); t in r.status && r.status[t] == s.status[t] && r.cur != t
  {
    if s.ready != [] { assert s.ready[0] in s.ready; }
  }

  /** A thread that exits never runs again. */
  lemma ExitIsFinal(s: Sched, run: seq<Sched>, moves: seq<Move>, k: nat)
    requires Ok(s) && Enabled(s, DoExit) && IsRun(run, moves) && run[0] == Apply(s, DoExit) && k < |run|
    ensures run[k].cur != s.cur
  {
    if s.ready != [] { assert s.ready[0] in s.ready; }
    ApplyOk(s, DoExit);
    DownThroughout(run, moves, s.cur, k);
  }

  /** A thread that blocks runs again only after it has been unblocked. */
  lemma BlockedUntilUnblocked(s: Sched, run: seq<Sched>, moves: seq<Move>, k: nat)
    requires Ok(s) && s.cur != s.idle && IsRun(run, moves) && run[0] == Apply(s, DoBlock) && k < |run|
    requires DoUnblock(s.cur) !in moves
    ensures run[k].cur != s.cur
  {
    if s.ready != [] { assert s.ready[0] in s.ready; }
    ApplyOk(s, DoBlock);
    DownThroughout(run, moves, s.cur, k);
  }
}
