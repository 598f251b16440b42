/**
 Absolute deadlines of a periodic task, and the bounded PLL correction.

 `wait` advances `nextstart` from its previous value and never from the clock, so lateness and
 pauses leave no trace in it.
 */
module Deadline {

  const SECOND: int := 1_000_000_000

  /** `struct timespec`; the source passes it by reference, and `wait` passes one object twice. */
  class Timespec {
    var sec: int
    var nsec: int

    constructor (sec: int, nsec: int)
      ensures this.sec == sec && this.nsec == nsec
    {
      this.sec, this.nsec := sec, nsec;
    }

    predicate Normal()
      reads this
    {
      0 <= nsec < SECOND
    }

    function Total(): int
      reads this
    {
      sec * SECOND + nsec
    }
  }

  /** `rtapi_timespec_advance`; `result` and `src` may be the same object. */
  method Advance(result: Timespec, src: Timespec, amount: nat)
    requires src.Normal()
    modifies result
    ensures result.Normal() && result.Total() == old(src.Total()) + amount
    ensures src != result ==> src.Total() == old(src.Total())
  {
    var sec, nsec := src.sec, amount as int;
    while nsec >= SECOND
      invariant nsec >= 0 && sec * SECOND + nsec == old(src.sec) * SECOND + amount
    {
      sec := sec + 1;
      nsec := nsec - SECOND;
    }
    nsec := nsec + src.nsec;
    if nsec >= SECOND {
      sec := sec + 1;
      nsec := nsec - SECOND;
    }
    result.sec := sec;
    result.nsec := nsec;
  }

  /** `rtapi_timespec_less` compares instants. */
  method Less(a: Timespec, b: Timespec) returns (less: bool)
    requires a.Normal() && b.Normal()
    ensures less <==> a.Total() < b.Total()
  {
    if a.sec < b.sec {
      return true;
    }
    if a.sec > b.sec {
      return false;
    }
    less := a.nsec < b.nsec;
  }

  // ---------------------------------------------------------------------------------------------
  // The timing words of a task, as values.

  datatype Clock = Clock(period: int, limit: int, correction: int, next: int)

  /** What moves the timing words: a requested correction, and a wait that finds the clock at `now`. */
  datatype Event = Correct(value: int) | Wait(now: int)

  function Clamp(value: int, limit: int): int {
    var v := if value > limit then limit else value;
    if v < -limit then -limit else v
  }

  /** `task_start`, then the first lines of the new thread, which finds the clock at `start`. */
  function Begin(period: int, start: int): Clock {
    Clock(period, period / 100, 0, start + period)
  }

  function Next(c: Clock, e: Event): Clock {
    match e
    case Correct(value) => c.(correction := Clamp(value, c.limit))
    case Wait(_) => c.(next := c.next + c.period + c.correction)
  }

  function Run(c: Clock, es: seq<Event>): Clock
    decreases |es|
  {
    if es == [] then c else Run(Next(c, es[0]), es[1..])
  }

  function Waits(es: seq<Event>): nat {
    if es == [] then 0 else Waits(es[1..]) + if es[0].Wait? then 1 else 0
  }

  /** The correction in force before event `i`: the latest request, limited. */
  function InForce(limit: int, first: int, es: seq<Event>, i: nat): int
    requires i <= |es|
  {
    if i == 0 then first
    else if es[i - 1].Correct? then Clamp(es[i - 1].value, limit)
    else InForce(limit, first, es, i - 1)
  }

  /** A request inside the limit is in force as it was made, one outside at the limit it exceeds. */
  lemma RequestInForce(limit: int, first: int, es: seq<Event>, i: nat)
    requires 0 <= limit && i < |es| && es[i].Correct?
    ensures var v := es[i].value; var c := InForce(limit, first, es, i + 1);
      (-limit <= v <= limit ==> c == v) && (v > limit ==> c == limit) && (v < -limit ==> c == -limit)
  {
  }

  /** Sum of the corrections in force at the waits among the first `n` events. */
  function Applied(limit: int, first: int, es: seq<Event>, n: nat): int
    requires n <= |es|
  {
    if n == 0 then 0
    else Applied(limit, first, es, n - 1) + if es[n - 1].Wait? then InForce(limit, first, es, n - 1) else 0
  }

  /** The same sums over the rest of the events, from the correction that is then in force. */
  lemma {:induction false} TailSums(limit: int, first: int, es: seq<Event>, n: nat)
    requires 1 <= n <= |es|
    ensures var f := InForce(limit, first, es, 1);
      && InForce(limit, first, es, n) == InForce(limit, f, es[1..], n - 1)
      && Applied(limit, first, es, n) == (if es[0].Wait? then first else 0) + Applied(limit, f, es[1..], n - 1)
    decreases n
  {
    if n == 1 {
      assert Applied(limit, first, es, 0) == 0;
    } else {
      TailSums(limit, first, es, n - 1);
      assert es[1..][n - 2] == es[n - 1];
    }
  }

  lemma {:induction false} NextIsSum(c: Clock, es: seq<Event>)
    ensures var c' := Run(c, es);
      && c'.period == c.period && c'.limit == c.limit
      && c'.next == c.next + Waits(es) * c.period + Applied(c.limit, c.correction, es, |es|)
    decreases |es|
  {
    if es != [] {
      NextIsSum(Next(c, es[0]), es[1..]);
      TailSums(c.limit, c.correction, es, |es|);
      Distribute(Waits(es[1..]), c.period);
    }
  }

  lemma Distribute(k: int, p: int)
    ensures (k + 1) * p == k * p + p
  {
  }

  lemma {:induction false} AppliedBounded(limit: int, first: int, es: seq<Event>, n: nat)
    requires 0 <= limit && -limit <= first <= limit && n <= |es|
    ensures -limit <= InForce(limit, first, es, n) <= limit
    ensures -(Waits(es[..n]) * limit) <= Applied(limit, first, es, n) <= Waits(es[..n]) * limit
    decreases n
  {
    if n > 0 {
      AppliedBounded(limit, first, es, n - 1);
      assert es[..n] == es[..n - 1] + [es[n - 1]];
      WaitsAppend(es[..n - 1], es[n - 1]);
      Distribute(Waits(es[..n - 1]), limit);
    }
  }

  lemma {:induction false} WaitsAppend(es: seq<Event>, e: Event)
    ensures Waits(es + [e]) == Waits(es) + if e.Wait? then 1 else 0
  {
    if es != [] {
      assert (es + [e])[1..] == es[1..] + [e];
      WaitsAppend(es[1..], e);
    }
  }

  /**
   After `k` waits the deadline is exactly `start + (k + 1) * period` plus the corrections in force
   at those waits, whatever the clock showed; each correction is within one per cent of the period.
   */
  lemma {:induction false} DriftFree(period: int, start: int, es: seq<Event>)
    requires period > 0
    ensures var k := Waits(es); var a := Applied(period / 100, 0, es, |es|); var next := Run(Begin(period, start), es).next;
      && next == start + (k + 1) * period + a
      && -(k * (period / 100)) <= a <= k * (period / 100)
      && start + (k + 1) * (period - period / 100) <= next <= start + (k + 1) * (period + period / 100)
  {
    var k := Waits(es);
    NextIsSum(Begin(period, start), es);
    AppliedBounded(period / 100, 0, es, |es|);
    assert es[..|es|] == es;
    Distribute(k, period);
    Spread(k, period, period / 100);
  }

  lemma Spread(k: int, p: int, q: int)
    ensures (k + 1) * (p - q) == k * p + p - k * q - q && (k + 1) * (p + q) == k * p + p + k * q + q
  {
  }

  /** The clock readings do not enter: two runs that differ only in them end with the same deadline. */
  lemma {:induction false} LatenessLeavesNoTrace(c: Clock, es: seq<Event>, fs: seq<Event>)
    requires |es| == |fs|
    requires forall i | 0 <= i < |es| :: (es[i].Correct? ==> fs[i] == es[i]) && (es[i].Wait? ==> fs[i].Wait?)
    ensures Run(c, es) == Run(c, fs)
    decreases |es|
  {
    if es != [] {
      assert Next(c, es[0]) == Next(c, fs[0]);
      LatenessLeavesNoTrace(Next(c, es[0]), es[1..], fs[1..]);
    }
  }

  // ---------------------------------------------------------------------------------------------
  // The task's fields as the source updates them.

  class PeriodicTask {
    const nextstart: Timespec
    var period: int
    var correction: int
    var limit: int

    predicate Valid()
      reads this, nextstart
    {
      nextstart.Normal() && 0 <= limit == period / 100 && -limit <= correction <= limit
    }

    function View(): Clock
      reads this, nextstart
    {
      Clock(period, limit, correction, nextstart.Total())
    }

    /** `task_start` and the start of `wrapper`. */
    constructor (period: nat, now: Timespec)
      requires now.Normal()
      ensures fresh(nextstart) && Valid() && View() == Begin(period, now.Total())
    {
      this.period, correction, limit := period, 0, period / 100;
      nextstart := new Timespec(0, 0);
      new;
      Advance(nextstart, now, period + correction);
    }

    /** `task_pll_set_correction`. */
    method SetCorrection(value: int)
      requires Valid()
      modifies this`correction
      ensures Valid() && View() == Next(old(View()), Correct(value))
    {
      var v := value;
      if v > limit {
        v := limit;
      }
      if v < -limit {
        v := -limit;
      }
      correction := v;
    }

    /** The timing part of `wait`: `nextstart` is advanced in place; `late` tells whether it is already over. */
    method Wait(now: Timespec) returns (late: bool)
      requires Valid() && now.Normal() && now != nextstart
      modifies nextstart
      ensures Valid() && View() == Next(old(View()), Event.Wait(now.Total()))
      ensures late <==> View().next < now.Total()
    {
      Advance(nextstart, nextstart, period + correction);
      late := Less(nextstart, now);
    }
  }
}
