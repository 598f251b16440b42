/**
 The real-time task as a whole: each cycle it runs the command handler and then waits, and the
 handler forwards PAUSE and RESUME commands to the task's own pause protocol.

 Senders, the task and outside callers of `task_pause` and `task_resume` interleave freely, one
 shared access per step.
 */
module TaskLoop {
  import opened PauseProtocol
  import Box = Mailbox

  const CMD_PAUSE: int := 4
  const CMD_RESUME: int := 5

  /** `handled` says that this cycle's call of the handler has returned. */
  datatype Loop = Loop(box: Box.Box, task: Task, handled: bool)

  datatype Event =
    | Call(who: nat, c: Box.Command)
    | SenderStep(who: nat)
    | TaskStep
    | StoppedCycle            // a cycle with threads_running cleared: no function is called
    | OutsidePause
    | OutsideResume

  function Init(): Loop {
    Loop(Box.Init(), PauseProtocol.Init(), false)
  }

  function Next(l: Loop, e: Event): Loop {
    match e
    case Call(who, c) => l.(box := Box.Next(l.box, Box.Call(who, c)))
    case SenderStep(who) => l.(box := Box.StepSender(l.box, who))
    case TaskStep => StepTask(l)
    case StoppedCycle => if l.task.pc == Working && l.box.handler.Ready? then l.(handled := true) else l
    case OutsidePause => l.(task := PauseProtocol.Next(l.task, PauseCall))
    case OutsideResume => l.(task := PauseProtocol.Next(l.task, ResumeCall))
  }

  function StepTask(l: Loop): Loop {
    if l.task.pc == Working && !l.handled then StepInHandler(l)
    else l.(task := Advance(l.task), handled := l.handled && l.task.pc != Sleeping)
  }

  /** One access of the handler; it returns when it cannot get the lock and when it has given it back. */
  function StepInHandler(l: Loop): Loop {
    if l.box.handler.Ready? && l.box.lock then l.(handled := true)
    else
      l.(box := Box.StepHandler(l.box),
         task := if l.box.handler.SawCommand? then Dispatch(l.task, l.box.handler.c.id) else l.task,
         handled := l.box.handler.Leaving?)
  }

  function Dispatch(t: Task, id: int): Task {
    if id == CMD_PAUSE then PauseProtocol.Next(t, PauseCall)
    else if id == CMD_RESUME then PauseProtocol.Next(t, ResumeCall)
    else t
  }

  function Run(l: Loop, es: seq<Event>): Loop
    decreases |es|
  {
    if es == [] then l else Run(Next(l, es[0]), es[1..])
  }

  // ---------------------------------------------------------------------------------------------
  // Runs in which only the command channel resumes the task.

  ghost predicate ChannelOnly(es: seq<Event>) {
    forall i | 0 <= i < |es| :: es[i] != OutsideResume
  }

  /** This cycle can run no further command. */
  predicate Past(l: Loop) {
    l.handled || l.box.handler.Dispatched? || l.box.handler.SawHeadAgain? || l.box.handler.Leaving?
  }

  /** Paused, with nothing to wake it: about to block at the next wait, or blocked there. */
  ghost predicate Stuck(l: Loop) {
    && l.task.state == Paused && l.task.resumeTokens == 0
    && if l.task.pc == Working then l.task.pauseTokens == 1 && Past(l) else l.task.pc == Blocked
  }

  ghost predicate PauseIsLast(cs: seq<Box.Command>) {
    forall k | 0 <= k < |cs| :: cs[k].id == CMD_PAUSE ==> k == |cs| - 1
  }

  ghost predicate EndsInPause(cs: seq<Box.Command>) {
    cs != [] && cs[|cs| - 1].id == CMD_PAUSE
  }

  ghost predicate Turns(l: Loop) {
    && PauseProtocol.Inv(l.task)
    && (l.task.pc != Working ==> l.handled)
    && (l.handled ==> l.box.handler.Ready?)
  }

  ghost predicate Inv(l: Loop) {
    && Turns(l)
    && l.task.resumeTokens <= 1
    && (l.task.resumeTokens == 1 ==> l.task.state == Paused && if l.task.pc == Working then Past(l) else l.task.pc == Blocked)
    && PauseIsLast(l.box.executed)
    && (EndsInPause(l.box.executed) ==> Stuck(l))
  }

  lemma InitInv(l: Loop)
    requires l == Init()
    ensures Inv(l)
  {
    assert Turns(l);
    NothingRunYet(l);
  }

  lemma NothingRunYet(l: Loop)
    requires Turns(l) && l.task.resumeTokens == 0 && l.box.executed == []
    ensures Inv(l)
  {
  }

  lemma SenderLeavesHandler(b: Box.Box, who: nat)
    ensures var b' := Box.StepSender(b, who); b'.handler == b.handler && b'.executed == b.executed
  {
  }

  /** Running one more command keeps PAUSE last, as long as none was last before. */
  lemma Executes(cs: seq<Box.Command>, c: Box.Command)
    requires PauseIsLast(cs) && !EndsInPause(cs)
    ensures PauseIsLast(cs + [c]) && (EndsInPause(cs + [c]) <==> c.id == CMD_PAUSE)
  {
  }

  lemma DispatchKeepsInv(l: Loop)
    requires Inv(l) && l.task.pc == Working && !l.handled && l.box.handler.SawCommand?
    ensures Inv(StepInHandler(l))
  {
    Executes(l.box.executed, l.box.handler.c);
  }

  lemma HandlerKeepsInv(l: Loop)
    requires Inv(l) && l.task.pc == Working && !l.handled && !l.box.handler.SawCommand?
    ensures Inv(StepInHandler(l))
  {
  }

  lemma WaitKeepsInv(l: Loop)
    requires Inv(l) && (l.task.pc != Working || l.handled)
    ensures Inv(StepTask(l))
  {
  }

  lemma NextKeepsInv(l: Loop, e: Event)
    requires Inv(l) && e != OutsideResume
    ensures Inv(Next(l, e))
  {
    match e
    case Call(who, c) =>
    case SenderStep(who) => SenderLeavesHandler(l.box, who);
    case TaskStep =>
      if l.task.pc != Working || l.handled { WaitKeepsInv(l); }
      else if l.box.handler.SawCommand? { DispatchKeepsInv(l); }
      else { HandlerKeepsInv(l); }
    case StoppedCycle =>
    case OutsidePause =>
  }

  lemma {:induction false} RunKeepsInv(l: Loop, es: seq<Event>)
    requires Inv(l) && ChannelOnly(es)
    ensures Inv(Run(l, es))
    decreases |es|
  {
    if es != [] {
      assert forall i | 0 <= i < |es| - 1 :: es[1..][i] == es[i + 1];
      NextKeepsInv(l, es[0]);
      RunKeepsInv(Next(l, es[0]), es[1..]);
    }
  }

  /**
   In every run whose only resume source is the command channel, a PAUSE is the last command ever
   run: whatever is sent afterwards, RESUME included, stays in the mailbox.
   */
  lemma {:induction false} SelfPauseIsPermanent(es: seq<Event>)
    requires ChannelOnly(es)
    ensures var l := Run(Init(), es);
      PauseIsLast(l.box.executed) && (EndsInPause(l.box.executed) ==> Stuck(l))
  {
    ChannelRunsReach(es);
  }

  // ---------------------------------------------------------------------------------------------
  // What still works while the task is stuck.

  function TaskSteps(l: Loop, n: nat): Loop
    decreases n
  {
    if n == 0 then l else TaskSteps(StepTask(l), n - 1)
  }

  /** A stuck task blocks within four of its own steps, outside the mailbox and with the lock given back. */
  lemma BlocksWithoutTheLock(l: Loop)
    requires Turns(l) && Stuck(l) && l.task.pc == Working
    ensures var n := if l.handled then 1 else if l.box.handler.Leaving? then 2 else if l.box.handler.SawHeadAgain? then 3 else 4;
      var l' := TaskSteps(l, n);
      && l'.task.pc == Blocked && l'.box.handler.Ready? && l'.box.executed == l.box.executed
      && (!l.box.handler.Ready? ==> !l'.box.lock)
  {
    var l2 := StepTask(StepTask(l));
    assert TaskSteps(l, 2) == l2;
    assert TaskSteps(l, 3) == StepTask(l2);
    assert TaskSteps(l, 4) == TaskSteps(l2, 2) == StepTask(StepTask(l2));
  }

  /** The mailbox keeps its own invariant whatever the task does. */
  lemma BoxKeepsInv(l: Loop, e: Event)
    requires Box.Inv(l.box)
    ensures Box.Inv(Next(l, e).box)
  {
    match e
    case Call(who, c) => Box.CallKeepsInv(l.box, who, c);
    case SenderStep(who) => Box.SenderKeepsInv(l.box, who);
    case TaskStep => Box.HandlerKeepsInv(l.box);
    case StoppedCycle =>
    case OutsidePause =>
    case OutsideResume =>
  }

  /** Control-side senders are not held up: every send in progress can still return, and none is run. */
  lemma SendersStillComplete(l: Loop, who: nat) returns (es: seq<Box.Event>)
    requires Turns(l) && Box.Inv(l.box) && l.task.pc == Blocked && !l.box.At(who).Idle?
    ensures Box.OnlySenders(es)
    ensures var b := Box.Run(l.box, es);
      b.At(who).Idle? && b.sends != [] && b.sends[|b.sends| - 1] == l.box.At(who).c && b.executed == l.box.executed
  {
    es := Box.EverySendCanComplete(l.box, who);
  }

  /** An outside resume is what it takes: three steps later the task is in its next cycle. */
  lemma OutsideResumeWakes(l: Loop)
    requires Turns(l) && Stuck(l) && l.task.pc == Blocked
    ensures var l' := TaskSteps(Next(l, OutsideResume), 3);
      l'.task.state == Running && l'.task.pc == Working && !l'.handled && l'.task.resumeTokens == 0 && l'.box == l.box
  {
    var l1 := StepTask(Next(l, OutsideResume));
    assert TaskSteps(Next(l, OutsideResume), 3) == TaskSteps(l1, 2) == StepTask(StepTask(l1));
  }

  // ---------------------------------------------------------------------------------------------
  // When a command is run again.

  function OutsideResumes(es: seq<Event>): nat
    decreases |es|
  {
    if es == [] then 0 else OutsideResumes(es[1..]) + if es[0] == OutsideResume then 1 else 0
  }

  /** Woken with a command waiting and the lock free, the task runs the newest one: three steps to its next cycle, six to the dispatch. */
  lemma OutsideResumeDelivers(l: Loop)
    requires Turns(l) && Stuck(l) && l.task.pc == Blocked && !l.box.lock && Box.Fresh(l.box) && Box.Unseen(l.box) > 0
    ensures TaskSteps(Next(l, OutsideResume), 9).box.executed == l.box.executed + [l.box.sends[|l.box.sends| - 1]]
  {
    OutsideResumeWakes(l);
    var w := TaskSteps(Next(l, OutsideResume), 3);
    StepsAdd(Next(l, OutsideResume), 3, 6);
    CycleRunsNewest(w);
  }

  lemma CycleRunsNewest(l: Loop)
    requires l.task.pc == Working && !l.handled && l.box.handler.Ready? && !l.box.lock
    requires Box.Fresh(l.box) && Box.Unseen(l.box) > 0
    ensures TaskSteps(l, 6).box.executed == l.box.executed + [l.box.sends[|l.box.sends| - 1]]
  {
    var l3 := StepTask(StepTask(StepTask(l)));
    assert TaskSteps(l, 3) == l3;
    assert l3.box.handler.Pending? && l3.task.pc == Working && !l3.handled;
    assert TaskSteps(l3, 3) == StepTask(StepTask(StepTask(l3)));
    StepsAdd(l, 3, 3);
  }

  lemma {:induction false} StepsAdd(l: Loop, m: nat, n: nat)
    ensures TaskSteps(l, m + n) == TaskSteps(TaskSteps(l, m), n)
    decreases m
  {
    if m > 0 {
      StepsAdd(StepTask(l), m - 1, n);
    }
  }

  lemma {:induction false} RunSteps(l: Loop, n: nat)
    ensures Run(l, seq(n, i => Event.TaskStep)) == TaskSteps(l, n) && OutsideResumes(seq(n, i => Event.TaskStep)) == 0
    decreases n
  {
    if n > 0 {
      assert seq(n, i => Event.TaskStep)[1..] == seq(n - 1, i => Event.TaskStep);
      RunSteps(StepTask(l), n - 1);
    }
  }

  lemma {:induction false} RunJoin(l: Loop, a: seq<Event>, b: seq<Event>)
    ensures Run(l, a + b) == Run(Run(l, a), b) && OutsideResumes(a + b) == OutsideResumes(a) + OutsideResumes(b)
    decreases |a|
  {
    if a == [] {
      assert a + b == b;
    } else {
      assert (a + b)[1..] == a[1..] + b;
      RunJoin(Next(l, a[0]), a[1..], b);
    }
  }

  /** Resumes by themselves touch no mailbox. */
  lemma {:induction false} ResumesOnly(l: Loop, n: nat)
    ensures Run(l, seq(n, i => OutsideResume)).box == l.box && OutsideResumes(seq(n, i => OutsideResume)) == n
    decreases n
  {
    if n > 0 {
      assert seq(n, i => OutsideResume)[1..] == seq(n - 1, i => OutsideResume);
      ResumesOnly(Next(l, OutsideResume), n - 1);
    }
  }

  function Lift(e: Box.Event): Event
    requires !e.HandlerStep?
  {
    match e
    case Call(who, c) => Call(who, c)
    case SenderStep(who) => SenderStep(who)
  }

  /** A run of the control sides, seen from the whole. */
  lemma {:induction false} LiftRun(l: Loop, es: seq<Box.Event>) returns (lifted: seq<Event>)
    requires forall i | 0 <= i < |es| :: !es[i].HandlerStep?
    ensures Run(l, lifted) == l.(box := Box.Run(l.box, es)) && OutsideResumes(lifted) == 0
    decreases |es|
  {
    if es == [] {
      lifted := [];
    } else {
      assert forall i | 0 <= i < |es| - 1 :: es[1..][i] == es[i + 1];
      var rest := LiftRun(Next(l, Lift(es[0])), es[1..]);
      lifted := [Lift(es[0])] + rest;
      assert lifted[1..] == rest;
    }
  }

  lemma {:induction false} NothingRunsWithout(l: Loop, es: seq<Event>)
    requires Turns(l) && Stuck(l) && l.task.pc == Blocked && OutsideResumes(es) == 0
    ensures Run(l, es).box.executed == l.box.executed
    decreases |es|
  {
    if es != [] {
      var l' := Next(l, es[0]);
      if es[0].SenderStep? { SenderLeavesHandler(l.box, es[0].who); }
      assert Turns(l') && Stuck(l') && l'.task.pc == Blocked && l'.box.executed == l.box.executed;
      NothingRunsWithout(l', es[1..]);
    }
  }

  lemma SomethingRunsWith(l: Loop, n: nat) returns (es: seq<Event>)
    requires Turns(l) && Stuck(l) && l.task.pc == Blocked && Box.Inv(l.box) && n > 0
    ensures OutsideResumes(es) == n && Run(l, es).box.executed != l.box.executed
  {
    var sends := Box.SomethingPending(l.box);
    var first := LiftRun(l, sends);
    var l1 := Run(l, first);
    var l2 := Next(l1, OutsideResume);
    var steps, more := seq(9, i => Event.TaskStep), seq(n - 1, i => OutsideResume);
    OutsideResumeDelivers(l1);
    RunSteps(l2, 9);
    ResumesOnly(TaskSteps(l2, 9), n - 1);
    RunJoin(l2, steps, more);
    var rest := [OutsideResume] + (steps + more);
    assert rest[1..] == steps + more;
    RunJoin(l, first, rest);
    es := first + rest;
  }

  /** From a stuck, blocked task some continuation with `n` outside resumes runs a further command if and only if `n` is not zero. */
  lemma CommandRunsIffResumed(l: Loop, n: nat)
    requires Turns(l) && Stuck(l) && l.task.pc == Blocked && Box.Inv(l.box)
    ensures n > 0 <==> exists es :: OutsideResumes(es) == n && Run(l, es).box.executed != l.box.executed
  {
    if n > 0 {
      var es := SomethingRunsWith(l, n);
      assert OutsideResumes(es) == n && Run(l, es).box.executed != l.box.executed;
    } else {
      forall es | OutsideResumes(es) == n ensures Run(l, es).box.executed == l.box.executed {
        NothingRunsWithout(l, es);
      }
    }
  }

  // From a run that consumed a PAUSE.

  lemma {:induction false} BoxRunKeepsInv(l: Loop, es: seq<Event>)
    requires Box.Inv(l.box)
    ensures Box.Inv(Run(l, es).box)
    decreases |es|
  {
    if es != [] {
      BoxKeepsInv(l, es[0]);
      BoxRunKeepsInv(Next(l, es[0]), es[1..]);
    }
  }

  lemma NextOnlyAdds(l: Loop, e: Event)
    ensures l.box.executed <= Next(l, e).box.executed
  {
    if e.SenderStep? { SenderLeavesHandler(l.box, e.who); }
  }

  /** What was run stays run. */
  lemma {:induction false} RunOnlyAdds(l: Loop, es: seq<Event>)
    ensures l.box.executed <= Run(l, es).box.executed
    decreases |es|
  {
    if es != [] {
      NextOnlyAdds(l, es[0]);
      RunOnlyAdds(Next(l, es[0]), es[1..]);
    }
  }

  lemma {:induction false} NoneIsChannelOnly(es: seq<Event>)
    requires OutsideResumes(es) == 0
    ensures ChannelOnly(es)
    decreases |es|
  {
    if es != [] {
      NoneIsChannelOnly(es[1..]);
      assert forall i | 0 < i < |es| :: es[i] == es[1..][i - 1];
    }
  }

  lemma TurnsAgain(l: Loop)
    requires Turns(l)
    ensures Turns(StepTask(l))
  {
  }

  lemma {:induction false} TurnsGoOn(l: Loop, n: nat)
    requires Turns(l)
    ensures Turns(TaskSteps(l, n))
    decreases n
  {
    if n > 0 {
      TurnsAgain(l);
      TurnsGoOn(StepTask(l), n - 1);
    }
  }

  /** A stuck task comes to its wait by its own steps, running nothing on the way. */
  lemma ReachesItsWait(l: Loop) returns (n: nat)
    requires Turns(l) && Stuck(l) && Box.Inv(l.box)
    ensures var l' := TaskSteps(l, n);
      Turns(l') && Stuck(l') && l'.task.pc == Blocked && Box.Inv(l'.box) && l'.box.executed == l.box.executed
  {
    if l.task.pc == Working {
      n := if l.handled then 1 else if l.box.handler.Leaving? then 2 else if l.box.handler.SawHeadAgain? then 3 else 4;
      BlocksWithoutTheLock(l);
      TurnsGoOn(l, n);
      RunSteps(l, n);
      BoxRunKeepsInv(l, seq(n, i => Event.TaskStep));
    } else {
      n := 0;
    }
  }

  /**
   After a PAUSE was run, some continuation with `n` outside resumes runs a further command if and
   only if `n` is not zero.
   */
  lemma AfterPauseIffResumed(l: Loop, n: nat)
    requires Inv(l) && Box.Inv(l.box) && EndsInPause(l.box.executed)
    ensures n > 0 <==> exists es :: OutsideResumes(es) == n && Run(l, es).box.executed != l.box.executed
  {
    if n > 0 {
      var k := ReachesItsWait(l);
      var steps := seq(k, i => Event.TaskStep);
      RunSteps(l, k);
      var more := SomethingRunsWith(TaskSteps(l, k), n);
      RunJoin(l, steps, more);
      assert OutsideResumes(steps + more) == n && Run(l, steps + more).box.executed != l.box.executed;
    } else {
      forall es | OutsideResumes(es) == n ensures Run(l, es).box.executed == l.box.executed {
        NoneIsChannelOnly(es);
        RunKeepsInv(l, es);
        RunOnlyAdds(l, es);
        PauseStaysLast(l.box.executed, Run(l, es).box.executed);
      }
    }
  }

  lemma PauseStaysLast(before: seq<Box.Command>, after: seq<Box.Command>)
    requires EndsInPause(before) && before <= after && PauseIsLast(after)
    ensures after == before
  {
    assert after[|before| - 1].id == CMD_PAUSE;
  }

  lemma {:induction false} RunsReach(l: Loop, es: seq<Event>)
    requires Inv(l) && Box.Inv(l.box) && ChannelOnly(es)
    ensures Inv(Run(l, es)) && Box.Inv(Run(l, es).box)
  {
    RunKeepsInv(l, es);
    BoxRunKeepsInv(l, es);
  }

  lemma StartsWell()
    ensures Inv(Init()) && Box.Inv(Init().box)
  {
    InitInv(Init());
    Box.InitInv();
  }

  /** Every run whose only resume source is the channel is in such a state once it has run a PAUSE. */
  lemma {:induction false} ChannelRunsReach(es: seq<Event>)
    requires ChannelOnly(es)
    ensures Inv(Run(Init(), es)) && Box.Inv(Run(Init(), es).box)
  {
    StartsWell();
    RunsReach(Init(), es);
  }

  /** From the start: a run that consumed a PAUSE runs another command in some continuation exactly when the continuation resumes from outside. */
  lemma {:induction false} PausedRunsResumeOnlyFromOutside(es: seq<Event>, n: nat)
    requires ChannelOnly(es) && EndsInPause(Run(Init(), es).box.executed)
    ensures n > 0 <==>
      exists more :: OutsideResumes(more) == n && Run(Run(Init(), es), more).box.executed != Run(Init(), es).box.executed
  {
    ChannelRunsReach(es);
    AfterPauseIffResumed(Run(Init(), es), n);
  }

  // ---------------------------------------------------------------------------------------------
  // The mailbox inside the whole.

  /** The accesses to the mailbox that the events amount to. */
  function BoxEvents(l: Loop, es: seq<Event>): seq<Box.Event>
    decreases |es|
  {
    if es == [] then []
    else
      (match es[0]
       case Call(who, c) => [Box.Call(who, c)]
       case SenderStep(who) => [Box.SenderStep(who)]
       case TaskStep => if l.task.pc == Working && !l.handled then [Box.HandlerStep] else []
       case _ => [])
      + BoxEvents(Next(l, es[0]), es[1..])
  }

  /** A run of the whole is a run of the mailbox, so all that holds of the mailbox holds here. */
  lemma {:induction false} RunsAMailbox(l: Loop, es: seq<Event>)
    ensures Run(l, es).box == Box.Run(l.box, BoxEvents(l, es))
    decreases |es|
  {
    if es != [] {
      var rest := BoxEvents(Next(l, es[0]), es[1..]);
      RunsAMailbox(Next(l, es[0]), es[1..]);
      var all := BoxEvents(l, es);
      if all == rest {
        assert Next(l, es[0]).box == l.box;
      } else {
        assert all[1..] == rest && Next(l, es[0]).box == Box.Next(l.box, all[0]);
      }
    }
  }
}
