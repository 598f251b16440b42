/**
 The position controller the mailbox feeds: one clamped step towards the target per cycle.
 The feed rate is a real number; positions are unbounded integers.
 */
module Controller {

  /** The input pins of one cycle, and the velocity parameter. */
  datatype Input = Input(enable: bool, target: int, rate: real, maxVelocity: int)

  /** The output pins and the static variables. */
  datatype Drive = Drive(pos: int, running: bool, error: bool, lastTarget: int, errorCount: nat, heartbeat: nat)

  /** A C conversion from floating point to int drops the fraction. */
  function Truncate(x: real): int {
    if x >= 0.0 then x.Floor else -((-x).Floor)
  }

  function ClampRate(rate: real): real {
    var r := if rate < 0.0 then 0.0 else rate;
    if r > 2.0 then 2.0 else r
  }

  function StepSize(i: Input): (step: int)
    ensures step >= 1
  {
    var step := Truncate(i.maxVelocity as real * ClampRate(i.rate) * 0.001);
    if step < 1 then 1 else step
  }

  function Distance(pos: int, target: int): nat {
    if pos <= target then target - pos else pos - target
  }

  function Toward(pos: int, target: int, step: int): int {
    if pos < target then (if pos + step > target then target else pos + step)
    else if pos > target then (if pos - step < target then target else pos - step)
    else pos
  }

  /** One cycle. */
  function Cycle(d: Drive, i: Input): Drive {
    var beat := d.heartbeat + 1;
    if i.enable then
      Drive(Toward(d.pos, i.target, StepSize(i)), true, false, i.target, 0, beat)
    else if i.target != d.lastTarget then
      d.(running := false, errorCount := d.errorCount + 1, error := d.error || d.errorCount + 1 > 10, heartbeat := beat)
    else
      d.(running := false, heartbeat := beat)
  }

  function Run(d: Drive, inputs: seq<Input>): Drive
    decreases |inputs|
  {
    if inputs == [] then d else Run(Cycle(d, inputs[0]), inputs[1..])
  }

  // ---------------------------------------------------------------------------------------------

  /** `taskController` on its pins and statics. */
  class TaskController {
    var currentPos: int
    var running: bool
    var error: bool
    var lastTarget: int
    var errorCount: nat
    var heartbeat: nat

    constructor ()
      ensures View() == Drive(0, false, false, 0, 0, 0)
    {
      currentPos, running, error, lastTarget, errorCount, heartbeat := 0, false, false, 0, 0, 0;
    }

    function View(): Drive
      reads this
    {
      Drive(currentPos, running, error, lastTarget, errorCount, heartbeat)
    }

    method Step(i: Input)
      modifies this
      ensures View() == Cycle(old(View()), i)
      ensures i.enable ==> Distance(currentPos, i.target) <= Distance(old(currentPos), i.target)
    {
      var target, rate, pos := i.target, i.rate, currentPos;
      if i.enable {
        if rate < 0.0 { rate := 0.0; }
        if rate > 2.0 { rate := 2.0; }
        assert rate == ClampRate(i.rate);
        var step := Truncate(i.maxVelocity as real * rate * 0.001);
        if step < 1 { step := 1; }
        assert step == StepSize(i);
        if pos < target {
          pos := pos + step;
          if pos > target { pos := target; }
        } else if pos > target {
          pos := pos - step;
          if pos < target { pos := target; }
        }
        assert pos == Toward(currentPos, target, StepSize(i));
        if target != lastTarget { lastTarget := target; }
        currentPos := pos;
        running := true;
        error := false;
        errorCount := 0;
      } else {
        running := false;
        if target != lastTarget {
          errorCount := errorCount + 1;
          if errorCount > 10 { error := true; }
        }
      }
      heartbeat := heartbeat + 1;
    }
  }

  // ---------------------------------------------------------------------------------------------

  /** One step: the distance falls by exactly min(step, distance), and the target is never crossed. */
  lemma StepTracks(d: Drive, i: Input)
    requires i.enable
    ensures var p := Cycle(d, i).pos; var before := Distance(d.pos, i.target);
      && Distance(p, i.target) == (if StepSize(i) >= before then 0 else before - StepSize(i))
      && (d.pos <= i.target ==> d.pos <= p <= i.target) && (d.pos >= i.target ==> i.target <= p <= d.pos)
  {
  }

  /** A step is the whole part of a thousandth of velocity times rate when that is at least one, else one; rates count from 0 to 2. */
  lemma StepSizeIs(i: Input)
    requires 0.0 <= i.rate <= 2.0
    ensures var x := i.maxVelocity as real * i.rate * 0.001;
      if x >= 1.0 then StepSize(i) as real <= x < StepSize(i) as real + 1.0 else StepSize(i) == 1
  {
    var x := i.maxVelocity as real * i.rate * 0.001;
    assert x.Floor as real <= x < x.Floor as real + 1.0;
  }

  lemma RatesOutside(i: Input)
    ensures i.rate < 0.0 ==> StepSize(i) == StepSize(i.(rate := 0.0))
    ensures i.rate > 2.0 ==> StepSize(i) == StepSize(i.(rate := 2.0))
  {
  }

  /** What a cycle writes besides the position. */
  lemma CycleOutputs(d: Drive, i: Input)
    ensures var d' := Cycle(d, i);
      && d'.running == i.enable && d'.heartbeat == d.heartbeat + 1
      && (i.enable ==> !d'.error && d'.errorCount == 0 && d'.lastTarget == i.target)
      && (!i.enable ==> d'.pos == d.pos && d'.lastTarget == d.lastTarget && (d.error ==> d'.error))
  {
  }

  /** The rate is clamped: a step never exceeds two thousandths of a non-negative velocity, or one. */
  lemma StepLimited(i: Input)
    requires i.maxVelocity >= 0
    ensures StepSize(i) == 1 || StepSize(i) * 500 <= i.maxVelocity
  {
    Scaled(i.maxVelocity as real, ClampRate(i.rate));
    TruncatedBelow(i.maxVelocity as real * ClampRate(i.rate) * 0.001, i.maxVelocity);
  }

  lemma Scaled(v: real, rate: real)
    requires 0.0 <= v && 0.0 <= rate <= 2.0
    ensures 0.0 <= v * rate * 0.001 && v * rate * 0.001 * 500.0 <= v
  {
    assert 0.0 <= v * rate;
    assert v * (2.0 - rate) >= 0.0;
    assert v * rate <= v * 2.0;
  }

  lemma TruncatedBelow(x: real, n: int)
    requires 0.0 <= x && x * 500.0 <= n as real
    ensures Truncate(x) * 500 <= n
  {
    assert x.Floor as real <= x;
    assert (x.Floor * 500) as real == x.Floor as real * 500.0;
  }

  /** For any enables, targets and rates the position stays where the start and the targets are. */
  lemma {:induction false} StaysInHull(d: Drive, inputs: seq<Input>, lo: int, hi: int)
    requires lo <= d.pos <= hi && forall k | 0 <= k < |inputs| :: inputs[k].enable ==> lo <= inputs[k].target <= hi
    ensures lo <= Run(d, inputs).pos <= hi
    decreases |inputs|
  {
    if inputs != [] {
      assert inputs[0].enable ==> lo <= inputs[0].target <= hi;
      assert forall k | 0 <= k < |inputs| - 1 :: inputs[1..][k] == inputs[k + 1];
      StaysInHull(Cycle(d, inputs[0]), inputs[1..], lo, hi);
    }
  }

  ghost predicate Steady(inputs: seq<Input>, target: int) {
    forall k | 0 <= k < |inputs| :: inputs[k].enable && inputs[k].target == target
  }

  function Travel(inputs: seq<Input>): nat {
    if inputs == [] then 0 else StepSize(inputs[0]) + Travel(inputs[1..])
  }

  /** With a fixed target and continuous enable the distance left is exactly what the steps have not covered. */
  lemma {:induction false} DistanceLeft(d: Drive, inputs: seq<Input>, target: int)
    requires Steady(inputs, target)
    ensures var before := Distance(d.pos, target); var after := Distance(Run(d, inputs).pos, target);
      after == if Travel(inputs) >= before then 0 else before - Travel(inputs)
    decreases |inputs|
  {
    if inputs != [] {
      assert inputs[0].enable && inputs[0].target == target;
      assert forall k | 0 <= k < |inputs| - 1 :: inputs[1..][k] == inputs[k + 1];
      StepTracks(d, inputs[0]);
      DistanceLeft(Cycle(d, inputs[0]), inputs[1..], target);
    }
  }

  lemma {:induction false} TravelAtLeast(inputs: seq<Input>, m: nat)
    requires forall k | 0 <= k < |inputs| :: StepSize(inputs[k]) >= m
    ensures Travel(inputs) >= |inputs| * m
    decreases |inputs|
  {
    if inputs != [] {
      assert forall k | 0 <= k < |inputs| - 1 :: inputs[1..][k] == inputs[k + 1];
      TravelAtLeast(inputs[1..], m);
      assert |inputs| * m == (|inputs| - 1) * m + m;
    }
  }

  /** The target is reached within ceil(distance / smallest step) cycles, and held from then on. */
  lemma Converges(d: Drive, inputs: seq<Input>, target: int, m: nat)
    requires Steady(inputs, target) && m >= 1
    requires forall k | 0 <= k < |inputs| :: StepSize(inputs[k]) >= m
    requires |inputs| >= (Distance(d.pos, target) + m - 1) / m
    ensures Run(d, inputs).pos == target
  {
    var dist := Distance(d.pos, target);
    DistanceLeft(d, inputs, target);
    TravelAtLeast(inputs, m);
    CeilCovers(dist, m, |inputs|);
  }

  lemma CeilCovers(dist: nat, m: nat, n: nat)
    requires m >= 1 && n >= (dist + m - 1) / m
    ensures n * m >= dist
  {
    var q := (dist + m - 1) / m;
    assert q * m + (dist + m - 1) % m == dist + m - 1;
    assert n * m == q * m + (n - q) * m;
  }

  // ---------------------------------------------------------------------------------------------

  /** Cycles with a target other than the latched one. */
  function Mismatches(inputs: seq<Input>, lastTarget: int): nat {
    if inputs == [] then 0
    else (if inputs[0].target != lastTarget then 1 else 0) + Mismatches(inputs[1..], lastTarget)
  }

  /** While disabled the position holds, and the error is latched exactly when the mismatches exceed ten. */
  lemma {:induction false} ErrorLatch(d: Drive, inputs: seq<Input>)
    requires forall k | 0 <= k < |inputs| :: !inputs[k].enable
    ensures var d' := Run(d, inputs); var n := d.errorCount + Mismatches(inputs, d.lastTarget);
      && d'.pos == d.pos && d'.lastTarget == d.lastTarget && d'.errorCount == n
      && (d'.error <==> d.error || (n > 10 && n > d.errorCount))
    decreases |inputs|
  {
    if inputs != [] {
      assert !inputs[0].enable;
      assert forall k | 0 <= k < |inputs| - 1 :: inputs[1..][k] == inputs[k + 1];
      ErrorLatch(Cycle(d, inputs[0]), inputs[1..]);
    }
  }
}
