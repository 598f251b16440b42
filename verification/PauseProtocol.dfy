/**
 Pausing and resuming a periodic task.

 `task_pause` and `task_resume` may be called from anywhere at any time; the task looks at its pause
 semaphore once per cycle, inside `wait`.  Each call is one step, and so is each semaphore operation
 and each write to `state` of the task.  The last four fields are the history of accepted calls.
 */
module PauseProtocol {

  datatype State = Running | Paused

  /** Where the task is: running its cycle, between its two semaphores, awake again, or asleep. */
  datatype Pc = Working | Blocked | Woken | Sleeping

  datatype Task = Task(
    state: State, pauseTokens: nat, resumeTokens: nat, pc: Pc,
    pauses: nat,    // accepted task_pause calls
    resumes: nat,   // accepted task_resume calls
    wakes: nat,     // times the task got past the resume semaphore
    latest: nat)    // resumes accepted since the latest accepted pause

  datatype Event = PauseCall | ResumeCall | TaskStep

  function Init(): Task {
    Task(Running, 0, 0, Working, 0, 0, 0, 0)
  }

  function Next(t: Task, e: Event): Task {
    match e
    case PauseCall =>
      if t.state != Running then t
      else t.(state := Paused, pauseTokens := t.pauseTokens + 1, pauses := t.pauses + 1, latest := 0)
    case ResumeCall =>
      if t.state != Paused then t
      else t.(resumeTokens := t.resumeTokens + 1, resumes := t.resumes + 1, latest := t.latest + 1)
    case TaskStep => Advance(t)
  }

  /** The task's own accesses: `sem_trywait`, `sem_wait`, the write of `state`, the sleep. */
  function Advance(t: Task): Task {
    match t.pc
    case Working => if t.pauseTokens > 0 then t.(pauseTokens := t.pauseTokens - 1, pc := Blocked) else t.(pc := Sleeping)
    case Blocked =>
      if t.resumeTokens > 0 then t.(resumeTokens := t.resumeTokens - 1, pc := Woken, wakes := t.wakes + 1) else t
    case Woken => t.(state := Running, pc := Sleeping)
    case Sleeping => t.(pc := Working)
  }

  function Run(t: Task, es: seq<Event>): Task
    decreases |es|
  {
    if es == [] then t else Run(Next(t, es[0]), es[1..])
  }

  /** The task as the source keeps it; `wait` is the last three methods, one access each. */
  class PosixTask {
    var state: State
    var pauseSem: nat
    var resumeSem: nat
    ghost var pc: Pc
    ghost var pauses: nat
    ghost var resumes: nat
    ghost var wakes: nat
    ghost var latest: nat

    ghost function View(): Task
      reads this
    {
      Task(state, pauseSem, resumeSem, pc, pauses, resumes, wakes, latest)
    }

    /** A started task. */
    constructor ()
      ensures View() == Init()
    {
      state, pauseSem, resumeSem, pc, pauses, resumes, wakes, latest := Running, 0, 0, Working, 0, 0, 0, 0;
    }

    method TaskPause() returns (ok: bool)
      modifies this
      ensures View() == Next(old(View()), PauseCall) && (ok <==> old(state) == Running)
    {
      if state != Running {
        return false;
      }
      state := Paused;
      pauseSem := pauseSem + 1;
      pauses, latest := pauses + 1, 0;
      ok := true;
    }

    method TaskResume() returns (ok: bool)
      modifies this
      ensures View() == Next(old(View()), ResumeCall) && (ok <==> old(state) == Paused)
    {
      if state != Paused {
        return false;
      }
      resumeSem := resumeSem + 1;
      resumes, latest := resumes + 1, latest + 1;
      ok := true;
    }

    /** `sem_trywait` on the pause semaphore. */
    method TryPause() returns (taken: bool)
      requires pc == Working
      modifies this
      ensures View() == Next(old(View()), TaskStep) && (taken <==> pc == Blocked)
    {
      taken := pauseSem > 0;
      if taken {
        pauseSem := pauseSem - 1;
      }
      pc := if taken then Blocked else Sleeping;
    }

    /** `sem_wait` on the resume semaphore, when it returns. */
    method TakeResume()
      requires pc == Blocked && resumeSem > 0
      modifies this
      ensures View() == Next(old(View()), TaskStep)
    {
      resumeSem := resumeSem - 1;
      pc, wakes := Woken, wakes + 1;
    }

    method WriteRunning()
      requires pc == Woken
      modifies this
      ensures View() == Next(old(View()), TaskStep)
    {
      state := Running;
      pc := Sleeping;
    }
  }

  // ---------------------------------------------------------------------------------------------

  predicate Stopping(t: Task) { t.pc == Blocked || t.pc == Woken }

  ghost predicate Inv(t: Task) {
    && t.pauseTokens <= 1
    && (t.state == Paused <==> t.pauseTokens == 1 || Stopping(t))
    && (Stopping(t) ==> t.pauseTokens == 0)
    && (t.pc == Woken ==> t.wakes > 0)
    && t.resumes == t.resumeTokens + t.wakes
    && t.pauses == t.wakes + t.pauseTokens + (if t.pc == Blocked then 1 else 0)
    && (t.state == Paused && t.pc != Woken ==> t.resumeTokens >= t.latest)
  }

  lemma NextKeepsInv(t: Task, e: Event)
    requires Inv(t)
    ensures Inv(Next(t, e))
  {
  }

  lemma {:induction false} RunKeepsInv(t: Task, es: seq<Event>)
    requires Inv(t)
    ensures Inv(Run(t, es))
    decreases |es|
  {
    if es != [] {
      NextKeepsInv(t, es[0]);
      RunKeepsInv(Next(t, es[0]), es[1..]);
    }
  }

  /**
   In every interleaving `state` is PAUSED exactly while one pause token is pending or the task is
   between taking it and writing RUNNING, and an accepted resume is never lost.
   */
  lemma {:induction false} PausedMeansPending(es: seq<Event>)
    ensures var t := Run(Init(), es);
      && t.pauseTokens <= 1
      && (t.state == Paused <==> t.pauseTokens == 1 || Stopping(t))
      && (Stopping(t) ==> t.pauseTokens == 0)
      && (t.state == Paused && t.latest > 0 ==> t.resumeTokens > 0 || t.pc == Woken)
  {
    ReachableInv(es);
  }

  lemma {:induction false} ReachableInv(es: seq<Event>)
    ensures Inv(Run(Init(), es))
  {
    RunKeepsInv(Init(), es);
  }

  /** Tokens are conserved: while the task runs, those left over are the resumes in excess of the pauses. */
  lemma {:induction false} LeftoverTokens(es: seq<Event>)
    ensures var t := Run(Init(), es);
      t.state == Running ==> t.resumeTokens == t.resumes - t.pauses
  {
    ReachableInv(es);
  }

  // ---------------------------------------------------------------------------------------------
  // When a pause blocks.

  ghost predicate NoResume(es: seq<Event>) {
    forall i | 0 <= i < |es| :: es[i] != ResumeCall
  }

  /** A pause accepted now holds the task until somebody resumes. */
  ghost predicate WouldBlock(t: Task) {
    forall es | NoResume(es) :: Run(Next(t, PauseCall), es).wakes == t.wakes
  }

  /** A pause without a token to fall through on holds for as long as nobody resumes. */
  lemma {:induction false} StaysPaused(t: Task, es: seq<Event>)
    requires Inv(t) && t.state == Paused && t.resumeTokens == 0 && t.pc != Woken && NoResume(es)
    ensures var t' := Run(t, es);
      t'.state == Paused && t'.resumeTokens == 0 && t'.pc != Woken && t'.wakes == t.wakes
    decreases |es|
  {
    if es != [] {
      assert forall i | 0 <= i < |es| - 1 :: es[1..][i] == es[i + 1];
      NextKeepsInv(t, es[0]);
      StaysPaused(Next(t, es[0]), es[1..]);
    }
  }

  /** An accepted pause blocks until a later resume if and only if accepted resumes do not exceed the pauses before it. */
  lemma PauseBlocksIff(t: Task)
    requires Inv(t) && t.state == Running
    ensures WouldBlock(t) <==> t.resumes <= t.pauses
  {
    var p := Next(t, PauseCall);
    NextKeepsInv(t, PauseCall);
    if t.resumes <= t.pauses {
      forall es | NoResume(es) ensures Run(p, es).wakes == t.wakes {
        StaysPaused(p, es);
      }
    } else {
      FallsThrough(p);
    }
  }

  /** With a token left over the next pause is passed at once. */
  lemma FallsThrough(p: Task)
    requires Inv(p) && p.pauseTokens == 1 && p.resumeTokens > 0
    ensures exists es :: NoResume(es) && Run(p, es).wakes == p.wakes + 1
  {
    if p.pc == Working {
      assert Run(p, [TaskStep, TaskStep]) == Run(Next(p, TaskStep), [TaskStep]) == Run(Next(Next(p, TaskStep), TaskStep), []);
      assert NoResume([TaskStep, TaskStep]);
    } else {
      var es := [TaskStep, TaskStep, TaskStep];
      assert es[1..] == [TaskStep, TaskStep] && es[1..][1..] == [TaskStep];
      assert Run(p, es) == Run(Next(p, TaskStep), es[1..]) == Run(Next(Next(p, TaskStep), TaskStep), [TaskStep]);
      assert Run(p, es) == Run(Next(Next(Next(p, TaskStep), TaskStep), TaskStep), []);
      assert NoResume(es);
    }
  }

  // ---------------------------------------------------------------------------------------------
  // At most one accepted resume per pause.

  ghost predicate OneResumeEach(t: Task, es: seq<Event>)
    decreases |es|
  {
    es != [] ==>
      && (es[0] == ResumeCall && t.state == Paused ==> t.latest == 0)
      && OneResumeEach(Next(t, es[0]), es[1..])
  }

  ghost predicate Balanced(t: Task) {
    t.resumes + (if t.latest == 0 && t.pauses > 0 then 1 else 0) <= t.pauses
  }

  lemma NextKeepsBalance(t: Task, e: Event)
    requires Inv(t) && Balanced(t) && (e == ResumeCall && t.state == Paused ==> t.latest == 0)
    ensures Inv(Next(t, e)) && Balanced(Next(t, e))
  {
  }

  lemma {:induction false} OneResumeHead(t: Task, es: seq<Event>)
    requires es != [] && OneResumeEach(t, es)
    ensures es[0] == ResumeCall && t.state == Paused ==> t.latest == 0
    ensures OneResumeEach(Next(t, es[0]), es[1..])
  {
  }

  /** While the task runs no resume token is left over, so the next pause blocks. */
  ghost predicate Settled(t: Task) {
    t.state == Running ==> t.resumeTokens == 0 && WouldBlock(t)
  }

  lemma BalancedIsSettled(t: Task)
    requires Inv(t) && Balanced(t)
    ensures Settled(t)
  {
    if t.state == Running {
      PauseBlocksIff(t);
    }
  }

  lemma {:induction false} SettledAfter(t: Task, es: seq<Event>)
    requires Inv(t) && Balanced(t) && OneResumeEach(t, es)
    ensures Settled(Run(t, es))
    decreases |es|
  {
    if es == [] {
      BalancedIsSettled(t);
    } else {
      OneResumeHead(t, es);
      NextKeepsBalance(t, es[0]);
      SettledAfter(Next(t, es[0]), es[1..]);
    }
  }

  lemma InitBalanced()
    ensures Inv(Init()) && Balanced(Init())
  {
  }

  /** Callers that resume each pause at most once leave no token behind, so every later pause blocks. */
  lemma {:induction false} NoTokenSurvives(es: seq<Event>)
    requires OneResumeEach(Init(), es)
    ensures Settled(Run(Init(), es))
  {
    InitBalanced();
    SettledAfter(Init(), es);
  }

  /** A run that leaves a token in RUNNING. */
  ghost predicate Leaks(es: seq<Event>) {
    Run(Init(), es).state == Running && Run(Init(), es).resumeTokens == 1
  }

  /** A second resume of the same pause is accepted and does survive. */
  lemma SecondResumeSurvives()
    ensures exists es :: Leaks(es)
  {
    var es := TwoResumes(Init());
    assert Leaks(es);
  }

  lemma TwoResumes(t: Task) returns (es: seq<Event>)
    requires t.state == Running && t.pauseTokens == t.resumeTokens == 0 && t.pc == Working
    ensures Run(t, es).state == Running && Run(t, es).resumeTokens == 1
  {
    var t3 := Next(Next(Next(t, PauseCall), ResumeCall), ResumeCall);
    es := [PauseCall, ResumeCall, ResumeCall] + [TaskStep, TaskStep, TaskStep];
    RunThree(t, PauseCall, ResumeCall, ResumeCall, [TaskStep, TaskStep, TaskStep]);
    RunThree(t3, TaskStep, TaskStep, TaskStep, []);
    assert [TaskStep, TaskStep, TaskStep] + [] == [TaskStep, TaskStep, TaskStep];
    WakesWithOneLeft(t3);
  }

  lemma WakesWithOneLeft(t: Task)
    requires t.pauseTokens == 1 && t.resumeTokens == 2 && t.pc == Working
    ensures var t' := Next(Next(Next(t, TaskStep), TaskStep), TaskStep); t'.state == Running && t'.resumeTokens == 1
  {
  }

  lemma RunThree(t: Task, a: Event, b: Event, c: Event, rest: seq<Event>)
    ensures Run(t, [a, b, c] + rest) == Run(Next(Next(Next(t, a), b), c), rest)
  {
    RunOne(t, a, [b, c] + rest);
    RunOne(Next(t, a), b, [c] + rest);
    RunOne(Next(Next(t, a), b), c, rest);
    assert [a, b, c] + rest == [a] + ([b, c] + rest) && [b, c] + rest == [b] + ([c] + rest);
  }

  lemma RunOne(t: Task, e: Event, rest: seq<Event>)
    ensures Run(t, [e] + rest) == Run(Next(t, e), rest)
  {
    assert ([e] + rest)[1..] == rest;
  }
}
