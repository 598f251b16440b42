/**
 One undisturbed call on each side of the command channel, in the source's own form, and what each
 command does to the pins, to the task and to its timing.  `Mailbox` has the interleavings.
 */
module Commands {
  import Pause = PauseProtocol
  import Timing = Deadline
  import opened TaskLoop

  const CMD_SET_TARGET: int := 1
  const CMD_ENABLE: int := 2
  const CMD_DISABLE: int := 3
  const CMD_SET_PLL: int := 6

  /** All that a command can change. */
  datatype Plant = Plant(target: int, enable: bool, task: Pause.Task, clock: Timing.Clock)

  function Effect(p: Plant, c: Box.Command): Plant {
    if c.id == CMD_SET_TARGET then p.(target := c.data)
    else if c.id == CMD_ENABLE then p.(enable := true)
    else if c.id == CMD_DISABLE then p.(enable := false)
    else if c.id == CMD_SET_PLL then p.(clock := Timing.Next(p.clock, Timing.Correct(c.data)))
    else p.(task := Dispatch(p.task, c.id))
  }

  /** The shared struct of the task, the input pins, and the task the commands act on. */
  class TaskShared {
    var mutex: bool
    var commandId: int
    var commandData: int
    var head: int
    var tail: int
    var targetPos: int
    var enableIn: bool
    const task: Pause.PosixTask
    const timing: Timing.PeriodicTask
    ghost var sends: seq<Box.Command>
    ghost var cuts: seq<nat>
    ghost var executed: seq<Box.Command>

    ghost function Channel(): Box.Box
      reads this
    {
      Box.Box(mutex, commandId, commandData, head, tail, map[], Box.Ready, sends, cuts, executed)
    }

    ghost function View(): Plant
      reads this, task, timing, timing.nextstart
    {
      Plant(targetPos, enableIn, task.View(), timing.View())
    }

    ghost predicate Valid()
      reads this
    {
      Quiet(Channel()) && PinsShow(targetPos, enableIn, executed)
    }

    /** The shared segment starts zeroed. */
    ghost predicate Zeroed()
      reads this
    {
      !mutex && head == tail == 0 && targetPos == 0 && !enableIn && |sends| == |cuts| == |executed| == 0
    }

    constructor (task: Pause.PosixTask, timing: Timing.PeriodicTask)
      ensures Zeroed() && Valid() && this.task == task && this.timing == timing
    {
      this.task, this.timing := task, timing;
      mutex, commandId, commandData, head, tail, targetPos, enableIn := false, 0, 0, 0, 0, 0, false;
      sends, cuts, executed := [], [], [];
      new;
      ZeroedIsValid();
    }

    lemma ZeroedIsValid()
      requires Zeroed()
      ensures Valid()
    {
      StartsQuiet(Channel());
    }

    /** `send_command`. */
    method SendCommand(cmd: int, data: int)
      requires Valid()
      modifies this
      ensures Valid() && View() == old(View())
      ensures sends == old(sends) + [Box.Command(cmd, data)] && cuts == old(cuts) && executed == old(executed)
    {
      SendKeepsQuiet(Channel(), Box.Command(cmd, data));
      mutex := true;
      commandId := cmd;
      commandData := data;
      head := head + 1;
      mutex := false;
      sends := sends + [Box.Command(cmd, data)];
    }

    /** `taskCommandHandler`: runs the newest send when there is a new one, and marks all of them seen. */
    method CommandHandler()
      requires Valid() && timing.Valid()
      modifies this, task, timing
      ensures Valid() && timing.Valid() && sends == old(sends) && cuts == old(cuts) + [|sends|]
      ensures var run := if old(Box.Unseen(Channel())) > 0 then [sends[|sends| - 1]] else [];
        executed == old(executed) + run && View() == if run == [] then old(View()) else Effect(old(View()), run[0])
    {
      FreshPending(Channel());
      TryRunGive();
      CycleKeepsQuiet(old(Channel()));
    }

    method TryRunGive()
      requires !mutex && timing.Valid() && PinsShow(targetPos, enableIn, executed)
      modifies this, task, timing
      ensures timing.Valid() && PinsShow(targetPos, enableIn, executed)
      ensures var b := old(Channel());
        && Channel() == AfterCycle(b)
        && View() == if Pending(b) == [] then old(View()) else Effect(old(View()), Pending(b)[0])
    {
      mutex := true;
      if head != tail {
        RunPending();
      }
      mutex := false;
      cuts := cuts + [|sends|];
    }

    method RunPending()
      requires timing.Valid() && PinsShow(targetPos, enableIn, executed)
      modifies this`targetPos, this`enableIn, this`tail, this`executed, task, timing
      ensures timing.Valid() && PinsShow(targetPos, enableIn, executed) && tail == head
      ensures var c := Box.Command(commandId, commandData);
        executed == old(executed) + [c] && View() == Effect(old(View()), c)
    {
      EffectShows(View(), executed, Box.Command(commandId, commandData));
      RunCommand(commandId, commandData);
      tail := head;
      executed := executed + [Box.Command(commandId, commandData)];
    }

    /** The dispatch of the handler. */
    method RunCommand(cmd: int, data: int)
      requires timing.Valid()
      modifies this`targetPos, this`enableIn, task, timing
      ensures timing.Valid() && View() == Effect(old(View()), Box.Command(cmd, data))
    {
      if cmd == CMD_SET_TARGET {
        targetPos := data;
      } else if cmd == CMD_ENABLE {
        enableIn := true;
      } else if cmd == CMD_DISABLE {
        enableIn := false;
      } else if cmd == CMD_PAUSE {
        var _ := task.TaskPause();
      } else if cmd == CMD_RESUME {
        var _ := task.TaskResume();
      } else if cmd == CMD_SET_PLL {
        timing.SetCorrection(data);
      }
    }
  }

  /** The mailbox between calls: nobody is inside, and it has run what it promises to run. */
  ghost predicate Quiet(b: Box.Box) {
    && !b.lock && Box.Batches(b) && Box.Unseen(b) >= 0 && Box.Fresh(b)
    && b.executed == Box.LatestWins(b.sends, b.cuts)
  }

  lemma {:induction false} StartsQuiet(b: Box.Box)
    requires !b.lock && b.head == b.tail && |b.sends| == |b.cuts| == |b.executed| == 0
    ensures Quiet(b)
  {
  }

  function Pending(b: Box.Box): seq<Box.Command> {
    if b.head != b.tail then [Box.Command(b.id, b.data)] else []
  }

  /** The mailbox after a cycle. */
  function AfterCycle(b: Box.Box): Box.Box {
    b.(tail := b.head, cuts := b.cuts + [|b.sends|], executed := b.executed + Pending(b))
  }

  lemma FreshPending(b: Box.Box)
    requires Box.Fresh(b) && Box.Unseen(b) >= 0
    ensures Pending(b) == if Box.Unseen(b) > 0 then [b.sends[|b.sends| - 1]] else []
  {
    assert Box.Unseen(b) > 0 ==> b.sends != [];
  }

  /** After any interleaving that leaves the lock free, the slot and the counters hold the newest send exactly when one is new. */
  lemma {:induction false} PendingIsNewest(es: seq<Box.Event>)
    ensures var b := Box.Run(Box.Init(), es);
      !b.lock ==> Pending(b) == if Box.Unseen(b) > 0 then [b.sends[|b.sends| - 1]] else []
  {
    Box.InitInv();
    Box.RunKeepsInv(Box.Init(), es);
    if !Box.Run(Box.Init(), es).lock {
      FreshPending(Box.Run(Box.Init(), es));
    }
  }

  /** After a cycle everything is seen. */
  lemma {:induction false} CycleKeepsQuiet(b: Box.Box)
    requires Quiet(b)
    ensures Quiet(AfterCycle(b))
  {
    CycleRuns(b);
    Box.BatchesNext(b);
    AllSeen(AfterCycle(b));
  }

  lemma {:induction false} CycleRuns(b: Box.Box)
    requires Box.Batches(b) && Box.Fresh(b) && Box.Unseen(b) >= 0 && b.executed == Box.LatestWins(b.sends, b.cuts)
    ensures Box.Batches(AfterCycle(b)) && AfterCycle(b).executed == Box.LatestWins(b.sends, AfterCycle(b).cuts)
  {
    FreshPending(b);
    Box.BatchesNext(b);
    Box.LatestWinsNext(b.sends, b.cuts, |b.sends|);
  }

  lemma AllSeen(b: Box.Box)
    requires b.cuts != [] && b.cuts[|b.cuts| - 1] == |b.sends| && b.head == b.tail
    ensures Box.Unseen(b) == 0 && b.head - b.tail == Box.Unseen(b)
  {
  }

  lemma {:induction false} SendKeepsQuiet(b: Box.Box, c: Box.Command)
    requires Quiet(b)
    ensures Quiet(b.(id := c.id, data := c.data, head := b.head + 1, sends := b.sends + [c]))
  {
    Box.LatestWinsStable(b.sends, [c], b.cuts);
  }

  // ---------------------------------------------------------------------------------------------
  // The pins, from the commands run.

  /** Command `k` is the newest one that sets the target. */
  ghost predicate SetsTarget(cs: seq<Box.Command>, k: int) {
    0 <= k < |cs| && cs[k].id == CMD_SET_TARGET && forall j | k < j < |cs| :: cs[j].id != CMD_SET_TARGET
  }

  /** Command `k` is the newest one that enables or disables. */
  ghost predicate SetsEnable(cs: seq<Box.Command>, k: int) {
    && 0 <= k < |cs| && (cs[k].id == CMD_ENABLE || cs[k].id == CMD_DISABLE)
    && forall j | k < j < |cs| :: cs[j].id != CMD_ENABLE && cs[j].id != CMD_DISABLE
  }

  /** The pins show the newest command run that concerns them, and their first value before there is one. */
  ghost predicate PinsShow(target: int, enable: bool, cs: seq<Box.Command>) {
    && (forall k | SetsTarget(cs, k) :: target == cs[k].data)
    && (forall k | SetsEnable(cs, k) :: enable == (cs[k].id == CMD_ENABLE))
    && ((forall k | 0 <= k < |cs| :: cs[k].id != CMD_SET_TARGET) ==> target == 0)
    && ((forall k | 0 <= k < |cs| :: cs[k].id != CMD_ENABLE && cs[k].id != CMD_DISABLE) ==> !enable)
  }

  /** Each command by its number in the interface, and all other numbers. */
  lemma EffectsByNumber(p: Plant, data: int)
    requires 0 <= p.clock.limit
    ensures Effect(p, Box.Command(1, data)) == p.(target := data)
    ensures Effect(p, Box.Command(2, data)) == p.(enable := true)
    ensures Effect(p, Box.Command(3, data)) == p.(enable := false)
    ensures var t := Effect(p, Box.Command(4, data)).task;
      && Effect(p, Box.Command(4, data)) == p.(task := t) && t.state == Pause.Paused
      && t.pauseTokens == p.task.pauseTokens + if p.task.state == Pause.Running then 1 else 0
    ensures var t := Effect(p, Box.Command(5, data)).task;
      && Effect(p, Box.Command(5, data)) == p.(task := t) && t.state == p.task.state
      && t.resumeTokens == p.task.resumeTokens + if p.task.state == Pause.Paused then 1 else 0
    ensures var clock := Effect(p, Box.Command(6, data)).clock; var l := p.clock.limit;
      && Effect(p, Box.Command(6, data)) == p.(clock := clock) && clock == p.clock.(correction := clock.correction)
      && clock.correction == if data > l then l else if data < -l then -l else data
    ensures forall id | id < 1 || id > 6 :: Effect(p, Box.Command(id, data)) == p
  {
  }

  lemma EffectShows(p: Plant, cs: seq<Box.Command>, c: Box.Command)
    requires PinsShow(p.target, p.enable, cs)
    ensures PinsShow(Effect(p, c).target, Effect(p, c).enable, cs + [c])
  {
    var longer := cs + [c];
    assert longer[|cs|] == c && forall k | 0 <= k < |cs| :: longer[k] == cs[k];
    assert forall k | SetsTarget(longer, k) && k < |cs| :: SetsTarget(cs, k) && longer[|cs|].id != CMD_SET_TARGET;
    assert forall k | SetsEnable(longer, k) && k < |cs| ::
      SetsEnable(cs, k) && longer[|cs|].id != CMD_ENABLE && longer[|cs|].id != CMD_DISABLE;
  }
}
