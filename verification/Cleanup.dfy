/** The advisory-lock loop of cleanup/loop.go over any number of replicas sharing one lock key.  A
    session lock belongs to a connection and is re-entrant; a connection serves one tick at a time.
    An unlock may fail, and a lock query may be granted without its answer arriving. */
module Cleanup {
  import opened Option

  /** Where a tick is: connected, running the task under the lock, or done with the lock. */
  datatype Phase = Idle | Connected(conn: nat) | Running(conn: nat) | Done(conn: nat)

  /** The ticks' phases, the session holding the lock and how often it was taken; `leaked` counts
      the grants whose unlock failed or was never attempted. */
  datatype State = State(ticks: map<nat, Phase>, holder: Option<nat>, count: nat, leaked: nat)

  datatype Step =
    | Acquire(t: nat, conn: nat)              // a free connection is checked out
    | TryLock(t: nat)                         // pg_try_advisory_lock answers; a refusal ends the tick
    | LockQueryFails(t: nat, granted: bool)   // the query errors, granted or not, and ends the tick
    | Finish(t: nat, unlocked: bool)          // the task ends and pg_advisory_unlock succeeds or fails
    | Release(t: nat)                         // the connection goes back to the pool
    | Drop(conn: nat)                         // a session goes down and loses its locks

  const INIT := State(map[], None, 0, 0)

  function PhaseOf(s: State, t: nat): Phase {
    if t in s.ticks then s.ticks[t] else Idle
  }

  ghost predicate Free(s: State, conn: nat) {
    forall t :: PhaseOf(s, t).Idle? || PhaseOf(s, t).conn != conn
  }

  predicate Grants(s: State, conn: nat) {
    s.holder.None? || s.holder.value == conn
  }

  function Move(s: State, t: nat, phase: Phase): State {
    s.(ticks := s.ticks[t := phase])
  }

  ghost function Apply(s: State, step: Step): State {
    match step
    case Acquire(t, conn) =>
      if PhaseOf(s, t).Idle? && Free(s, conn) then Move(s, t, Connected(conn)) else s
    case TryLock(t) =>
      (match PhaseOf(s, t)
       case Connected(conn) =>
         if Grants(s, conn) then Move(s.(holder := Some(conn), count := s.count + 1), t, Running(conn))
         else Move(s, t, Idle)
       case _ => s)
    case LockQueryFails(t, granted) =>
      (match PhaseOf(s, t)
       case Connected(conn) =>
         if granted && Grants(s, conn) then
           Move(s.(holder := Some(conn), count := s.count + 1, leaked := s.leaked + 1), t, Idle)
         else Move(s, t, Idle)
       case _ => s)
    case Finish(t, unlocked) =>
      (match PhaseOf(s, t)
       case Running(conn) =>
         if !unlocked || s.holder != Some(conn) then Move(s.(leaked := if unlocked then s.leaked else s.leaked + 1), t, Done(conn))
         else if s.count <= 1 then Move(s.(holder := None, count := 0), t, Done(conn))
         else Move(s.(count := s.count - 1), t, Done(conn))
       case _ => s)
    case Release(t) => if PhaseOf(s, t).Done? then Move(s, t, Idle) else s
    case Drop(conn) => if s.holder == Some(conn) then s.(holder := None, count := 0, leaked := 0) else s
  }

  ghost function Run(steps: seq<Step>): State {
    if steps == [] then INIT else Apply(Run(steps[..|steps| - 1]), steps[|steps| - 1])
  }

  lemma OneMoreStep(steps: seq<Step>, step: Step)
    ensures Run(steps + [step]) == Apply(Run(steps), step)
  {
    assert (steps + [step])[..|steps|] == steps;
  }

  /** No session goes down while a tick has it checked out. */
  ghost predicate SessionsStayUp(steps: seq<Step>) {
    steps == []
    || (SessionsStayUp(steps[..|steps| - 1])
        && (steps[|steps| - 1].Drop? ==> Free(Run(steps[..|steps| - 1]), steps[|steps| - 1].conn)))
  }

  ghost predicate AnyRunning(s: State) {
    exists t :: PhaseOf(s, t).Running?
  }

  ghost predicate Inv(s: State) {
    && (forall t1, t2 :: t1 != t2 && !PhaseOf(s, t1).Idle? && !PhaseOf(s, t2).Idle? ==> PhaseOf(s, t1).conn != PhaseOf(s, t2).conn)
    && (forall t :: PhaseOf(s, t).Running? ==> s.holder == Some(PhaseOf(s, t).conn))
    && (s.holder.None? <==> s.count == 0)
    && s.count == s.leaked + (if AnyRunning(s) then 1 else 0)
  }

  lemma OthersKeepRunning(s: State, s': State, t: nat)
    requires forall u :: u != t ==> PhaseOf(s', u) == PhaseOf(s, u)
    requires PhaseOf(s', t).Running? == PhaseOf(s, t).Running?
    ensures AnyRunning(s') == AnyRunning(s)
  {
    if AnyRunning(s) {
      var u :| PhaseOf(s, u).Running?;
      assert PhaseOf(s', u).Running?;
    }
    if AnyRunning(s') {
      var u :| PhaseOf(s', u).Running?;
      assert PhaseOf(s, u).Running?;
    }
  }

  lemma QuietStepKeeps(s: State, s': State, t: nat)
    requires Inv(s) && s' == Move(s, t, PhaseOf(s', t)) && PhaseOf(s, t).Running? == PhaseOf(s', t).Running? == false
    requires PhaseOf(s', t).Idle? || Free(s, PhaseOf(s', t).conn) || (!PhaseOf(s, t).Idle? && PhaseOf(s', t).conn == PhaseOf(s, t).conn)
    ensures Inv(s')
  {
    OthersKeepRunning(s, s', t);
  }

  lemma GrantKeeps(s: State, t: nat)
    requires Inv(s) && PhaseOf(s, t).Connected? && Grants(s, PhaseOf(s, t).conn)
    ensures Inv(Apply(s, TryLock(t))) && Inv(Apply(s, LockQueryFails(t, true)))
  {
    var conn := PhaseOf(s, t).conn;
    assert !AnyRunning(s);
    var s1, s2 := Apply(s, TryLock(t)), Apply(s, LockQueryFails(t, true));
    assert PhaseOf(s1, t) == Running(conn) && PhaseOf(s2, t) == Idle;
    assert forall u :: u != t ==> PhaseOf(s1, u) == PhaseOf(s, u) && PhaseOf(s2, u) == PhaseOf(s, u);
    OthersKeepRunning(s, s2, t);
  }

  lemma FinishKeeps(s: State, t: nat, unlocked: bool)
    requires Inv(s) && PhaseOf(s, t).Running?
    ensures Inv(Apply(s, Finish(t, unlocked)))
  {
    var s' := Apply(s, Finish(t, unlocked));
    assert PhaseOf(s', t) == Done(PhaseOf(s, t).conn) && forall u :: u != t ==> PhaseOf(s', u) == PhaseOf(s, u);
    assert !AnyRunning(s');
    assert AnyRunning(s);
  }

  lemma StepKeeps(s: State, step: Step)
    requires Inv(s) && (step.Drop? ==> Free(s, step.conn))
    ensures Inv(Apply(s, step))
  {
    match step
    case Acquire(t, conn) =>
      if PhaseOf(s, t).Idle? && Free(s, conn) { QuietStepKeeps(s, Apply(s, step), t); }
    case TryLock(t) =>
      if PhaseOf(s, t).Connected? {
        if Grants(s, PhaseOf(s, t).conn) { GrantKeeps(s, t); } else { QuietStepKeeps(s, Apply(s, step), t); }
      }
    case LockQueryFails(t, granted) =>
      if PhaseOf(s, t).Connected? {
        if granted && Grants(s, PhaseOf(s, t).conn) { GrantKeeps(s, t); } else { QuietStepKeeps(s, Apply(s, step), t); }
      }
    case Finish(t, unlocked) => if PhaseOf(s, t).Running? { FinishKeeps(s, t, unlocked); }
    case Release(t) => if PhaseOf(s, t).Done? { QuietStepKeeps(s, Apply(s, step), t); }
    case Drop(conn) =>
      if s.holder == Some(conn) {
        assert !AnyRunning(s);
        OthersKeepRunning(s, Apply(s, step), 0);
      }
  }

  lemma {:induction false} RunKeeps(steps: seq<Step>)
    requires SessionsStayUp(steps)
    ensures Inv(Run(steps))
    decreases |steps|
  {
    if steps == [] {
      assert !AnyRunning(INIT);
    } else {
      RunKeeps(steps[..|steps| - 1]);
      StepKeeps(Run(steps[..|steps| - 1]), steps[|steps| - 1]);
    }
  }

  // ---------------------------------------------------------------- what the lock gives

  /** While sessions stay up, at most one task runs at a time, whatever unlocks fail. */
  lemma AtMostOneTask(steps: seq<Step>, t1: nat, t2: nat)
    requires SessionsStayUp(steps)
    requires PhaseOf(Run(steps), t1).Running? && PhaseOf(Run(steps), t2).Running?
    ensures t1 == t2
  {
    RunKeeps(steps);
  }

  /** Every unlock succeeds and every lock query's grant is known to its tick. */
  predicate CleanUnlocks(steps: seq<Step>) {
    forall step :: step in steps ==> (step.Finish? ==> step.unlocked) && (step.LockQueryFails? ==> !step.granted)
  }

  lemma {:induction false} NothingLeaks(steps: seq<Step>)
    requires CleanUnlocks(steps)
    ensures Run(steps).leaked == 0
    decreases |steps|
  {
    if steps == [] {
    } else {
      var init := steps[..|steps| - 1];
      NothingLeaks(init);
      assert steps[|steps| - 1] in steps;
    }
  }

  /** The lock is free exactly when no task runs and no grant has leaked; with clean unlocks, exactly
      when no task runs. */
  lemma LockFreeExactlyWhen(steps: seq<Step>)
    requires SessionsStayUp(steps)
    ensures Run(steps).holder.None? <==> !AnyRunning(Run(steps)) && Run(steps).leaked == 0
    ensures CleanUnlocks(steps) ==> (Run(steps).holder.None? <==> !AnyRunning(Run(steps)))
  {
    RunKeeps(steps);
    if CleanUnlocks(steps) {
      NothingLeaks(steps);
    }
  }

  /** With clean unlocks, a connected tick that asks for the lock runs its task exactly when no other
      task is running; otherwise the tick is a no-op. */
  lemma TickRunsUnlessAnotherDoes(steps: seq<Step>, t: nat)
    requires SessionsStayUp(steps) && CleanUnlocks(steps) && PhaseOf(Run(steps), t).Connected?
    ensures var s' := Run(steps + [TryLock(t)]);
            if AnyRunning(Run(steps)) then s' == Move(Run(steps), t, Idle) else PhaseOf(s', t).Running?
  {
    RunKeeps(steps);
    LockFreeExactlyWhen(steps);
    assert (steps + [TryLock(t)])[..|steps|] == steps;
  }

  /** A tick that gets a free connection while the lock is free runs its task; having finished, with
      its unlock successful, and released, it is idle and connection and lock are free again. */
  lemma TickGivesBack(steps: seq<Step>, t: nat, conn: nat)
    requires SessionsStayUp(steps) && PhaseOf(Run(steps), t).Idle? && Free(Run(steps), conn) && Run(steps).holder.None?
    ensures var running := steps + [Acquire(t, conn)] + [TryLock(t)];
            var s := Run(running + [Finish(t, true)] + [Release(t)]);
            && PhaseOf(Run(running), t) == Running(conn)
            && PhaseOf(s, t).Idle? && Free(s, conn) && s.holder.None?
            && forall u :: u != t ==> PhaseOf(s, u) == PhaseOf(Run(steps), u)
  {
    hide Run;
    RunKeeps(steps);
    var acquired := steps + [Acquire(t, conn)];
    var running := acquired + [TryLock(t)];
    var done := running + [Finish(t, true)];
    OneMoreStep(steps, Acquire(t, conn));
    OneMoreStep(acquired, TryLock(t));
    OneMoreStep(running, Finish(t, true));
    OneMoreStep(done, Release(t));
    var s, s' := Run(steps), Run(done + [Release(t)]);
    forall u
      ensures u != t ==> PhaseOf(s', u) == PhaseOf(s, u)
      ensures PhaseOf(s', u).Idle? || PhaseOf(s', u).conn != conn
    {
      assert PhaseOf(s, u).Idle? || PhaseOf(s, u).conn != conn;
    }
  }

  /** However a tick ends, its connection is free again: refused the lock, failed to ask for it, or
      released it in whatever state of the lock. */
  lemma EndedTickFreesConnection(steps: seq<Step>, t: nat, step: Step)
    requires SessionsStayUp(steps) && !PhaseOf(Run(steps), t).Idle? && PhaseOf(Run(steps + [step]), t).Idle?
    ensures Free(Run(steps + [step]), PhaseOf(Run(steps), t).conn)
  {
    hide Run;
    RunKeeps(steps);
    OneMoreStep(steps, step);
    var s, s' := Run(steps), Run(steps + [step]);
    forall u
      ensures PhaseOf(s', u).Idle? || PhaseOf(s', u).conn != PhaseOf(s, t).conn
    {
      assert u == t || PhaseOf(s, u).Idle? || PhaseOf(s, u).conn != PhaseOf(s, t).conn;
    }
  }

  /** A session lost under a running task breaks the exclusion: any other tick may then run too. */
  lemma LostSessionAdmitsSecondTask(s: State, t1: nat, t2: nat, conn2: nat)
    requires Inv(s) && PhaseOf(s, t1).Running? && PhaseOf(s, t2).Idle? && Free(s, conn2)
    ensures var s' := Apply(Apply(Apply(s, Drop(PhaseOf(s, t1).conn)), Acquire(t2, conn2)), TryLock(t2));
            PhaseOf(s', t1).Running? && PhaseOf(s', t2).Running?
  {
    var s1 := Apply(s, Drop(PhaseOf(s, t1).conn));
    assert forall t :: PhaseOf(s1, t) == PhaseOf(s, t);
    assert Free(s1, conn2);
  }
}
