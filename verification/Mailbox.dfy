/**
 The command mailbox between the control side and the real-time handler.

 Any number of senders and one handler share a slot (`command_id`, `command_data`), two counters
 and a test-and-set lock word.  Every step below is one access to shared memory, so a run is an
 arbitrary interleaving of them.  `sends`, `cuts` and `executed` are the history: the sends that
 returned, how many of them had returned at the end of each handler cycle that got the lock, and
 the commands the handler ran.
 */
module Mailbox {

  datatype Command = Command(id: int, data: int)

  /** `ExampleTaskGuard::send_command`, by the last access it made. */
  datatype Sender =
    | Idle
    | Spinning(c: Command)
    | Locked(c: Command)
    | IdWritten(c: Command)
    | DataWritten(c: Command)
    | HeadRead(c: Command, h: int)
    | HeadWritten(c: Command)

  /** `taskCommandHandler`, by the last access it made. */
  datatype Handler =
    | Ready
    | Entered
    | SawHead(h: int)
    | Pending
    | SawId(id: int)
    | SawCommand(c: Command)
    | Dispatched
    | SawHeadAgain(h: int)
    | Leaving

  datatype Box = Box(
    lock: bool, id: int, data: int, head: int, tail: int,
    senders: map<nat, Sender>, handler: Handler,
    sends: seq<Command>, cuts: seq<nat>, executed: seq<Command>)
  {
    function At(who: nat): Sender { if who in senders then senders[who] else Idle }
    function Put(who: nat, p: Sender): Box { this.(senders := senders[who := p]) }
  }

  datatype Event = Call(who: nat, c: Command) | SenderStep(who: nat) | HandlerStep

  function Init(): Box {
    Box(false, 0, 0, 0, 0, map[], Ready, [], [], [])
  }

  function Next(b: Box, e: Event): Box {
    match e
    case Call(who, c) => if b.At(who).Idle? then b.Put(who, Spinning(c)) else b
    case SenderStep(who) => StepSender(b, who)
    case HandlerStep => StepHandler(b)
  }

  function StepSender(b: Box, who: nat): Box {
    match b.At(who)
    case Idle => b
    case Spinning(c) => if b.lock then b else b.Put(who, Locked(c)).(lock := true)
    case Locked(c) => b.Put(who, IdWritten(c)).(id := c.id)
    case IdWritten(c) => b.Put(who, DataWritten(c)).(data := c.data)
    case DataWritten(c) => b.Put(who, HeadRead(c, b.head))
    case HeadRead(c, h) => b.Put(who, HeadWritten(c)).(head := h + 1)
    case HeadWritten(c) => b.Put(who, Idle).(lock := false, sends := b.sends + [c])
  }

  function StepHandler(b: Box): Box {
    match b.handler
    case Ready => if b.lock then b else b.(lock := true, handler := Entered)
    case Entered => b.(handler := SawHead(b.head))
    case SawHead(h) => b.(handler := if h != b.tail then Pending else Leaving)
    case Pending => b.(handler := SawId(b.id))
    case SawId(id) => b.(handler := SawCommand(Command(id, b.data)))
    case SawCommand(c) => b.(handler := Dispatched, executed := b.executed + [c])
    case Dispatched => b.(handler := SawHeadAgain(b.head))
    case SawHeadAgain(h) => b.(handler := Leaving, tail := h)
    case Leaving => b.(handler := Ready, lock := false, cuts := b.cuts + [|b.sends|])
  }

  function Run(b: Box, es: seq<Event>): Box
    decreases |es|
  {
    if es == [] then b else Run(Next(b, es[0]), es[1..])
  }

  // ---------------------------------------------------------------------------------------------
  // What the mailbox is for, said without lock, counters or slot.

  /** Sends that had returned by the end of the `k`-th cycle. */
  function Cut(cuts: seq<nat>, k: nat): nat
    requires k <= |cuts|
  {
    if k == 0 then 0 else cuts[k - 1]
  }

  /** Every cycle runs the newest send of its batch, and nothing when no send is new. */
  function LatestWins(sends: seq<Command>, cuts: seq<nat>): seq<Command>
    requires forall k | 0 <= k < |cuts| :: cuts[k] <= |sends|
    decreases |cuts|
  {
    if cuts == [] then []
    else
      var k := |cuts| - 1;
      LatestWins(sends, cuts[..k]) + if Cut(cuts, k) < cuts[k] then [sends[cuts[k] - 1]] else []
  }

  /** Batches follow each other: no send is in two of them and none is left out. */
  ghost predicate Batches(b: Box) {
    && (forall k | 0 <= k < |b.cuts| :: b.cuts[k] <= |b.sends|)
    && (forall k | 0 <= k < |b.cuts| :: Cut(b.cuts, k) <= b.cuts[k])
  }

  /** Sends since the last cycle that got the lock. */
  ghost function Unseen(b: Box): int {
    |b.sends| - Cut(b.cuts, |b.cuts|)
  }

  // ---------------------------------------------------------------------------------------------
  // The invariant.

  predicate Holds(p: Sender) { !p.Idle? && !p.Spinning? }

  /** The lock word is set exactly while one sender or the handler is inside. */
  ghost predicate Exclusive(b: Box) {
    && (b.lock <==> !b.handler.Ready? || exists who :: Holds(b.At(who)))
    && (forall who, other | Holds(b.At(who)) && Holds(b.At(other)) :: who == other)
    && (forall who | Holds(b.At(who)) :: b.handler.Ready?)
  }

  predicate SlotIs(b: Box, c: Command) { b.id == c.id && b.data == c.data }

  /** The slot holds the newest send whole, and the counters tell how many are new. */
  ghost predicate Fresh(b: Box) {
    && (b.sends != [] ==> SlotIs(b, b.sends[|b.sends| - 1]))
    && b.head - b.tail == Unseen(b)
  }

  ghost predicate SenderOk(b: Box, p: Sender) {
    match p
    case Idle => true
    case Spinning(_) => true
    case Locked(_) => Fresh(b)
    case IdWritten(c) => b.id == c.id && b.head - b.tail == Unseen(b)
    case DataWritten(c) => SlotIs(b, c) && b.head - b.tail == Unseen(b)
    case HeadRead(c, h) => SlotIs(b, c) && h == b.head && b.head - b.tail == Unseen(b)
    case HeadWritten(c) => SlotIs(b, c) && b.head - b.tail == Unseen(b) + 1
  }

  ghost predicate HandlerOk(b: Box) {
    Batches(b) &&
    var before := LatestWins(b.sends, b.cuts);
    var ran := before + if Unseen(b) > 0 then [b.sends[|b.sends| - 1]] else [];
    match b.handler
    case Ready => b.executed == before
    case Entered => Fresh(b) && b.executed == before
    case SawHead(h) => Fresh(b) && h == b.head && b.executed == before
    case Pending => Fresh(b) && Unseen(b) > 0 && b.executed == before
    case SawId(id) => Fresh(b) && Unseen(b) > 0 && id == b.id && b.executed == before
    case SawCommand(c) => Fresh(b) && Unseen(b) > 0 && SlotIs(b, c) && b.executed == before
    case Dispatched => Fresh(b) && Unseen(b) > 0 && b.executed == ran
    case SawHeadAgain(h) => Fresh(b) && Unseen(b) > 0 && h == b.head && b.executed == ran
    case Leaving => b.executed == ran && b.head == b.tail && (b.sends != [] ==> SlotIs(b, b.sends[|b.sends| - 1]))
  }

  ghost predicate Inv(b: Box) {
    && Exclusive(b) && HandlerOk(b) && Unseen(b) >= 0
    && (!b.lock ==> Fresh(b))
    && forall who :: SenderOk(b, b.At(who))
  }

  // ---------------------------------------------------------------------------------------------

  lemma InitInv()
    ensures Inv(Init())
  {
  }

  /** New sends do not change what earlier cycles ran. */
  lemma {:induction false} LatestWinsStable(sends: seq<Command>, more: seq<Command>, cuts: seq<nat>)
    requires forall k | 0 <= k < |cuts| :: cuts[k] <= |sends|
    ensures LatestWins(sends + more, cuts) == LatestWins(sends, cuts)
    decreases |cuts|
  {
    if cuts != [] {
      LatestWinsStable(sends, more, cuts[..|cuts| - 1]);
    }
  }

  lemma CutAppended(cuts: seq<nat>, n: nat, k: nat)
    requires k <= |cuts|
    ensures Cut(cuts + [n], k) == Cut(cuts, k)
  {
  }

  /** Others stay outside while `who` is inside. */
  lemma OthersOutside(b: Box, who: nat)
    requires Exclusive(b) && Holds(b.At(who))
    ensures b.lock && b.handler.Ready? && forall other | other != who :: !Holds(b.At(other))
  {
  }

  lemma CallKeepsInv(b: Box, who: nat, c: Command)
    requires Inv(b)
    ensures Inv(Next(b, Call(who, c)))
  {
    var b' := Next(b, Call(who, c));
    if b.At(who).Idle? {
      assert forall x :: b'.At(x) == if x == who then Spinning(c) else b.At(x);
      assert forall x :: Holds(b'.At(x)) <==> Holds(b.At(x));
      forall x ensures SenderOk(b', b'.At(x)) {
        assert SenderOk(b, b.At(x));
      }
    }
  }

  lemma SenderKeepsExclusive(b: Box, who: nat)
    requires Exclusive(b)
    ensures Exclusive(StepSender(b, who))
  {
    var p, b' := b.At(who), StepSender(b, who);
    assert forall x | x != who :: b'.At(x) == b.At(x);
    if Holds(p) {
      OthersOutside(b, who);
      assert p.HeadWritten? || Holds(b'.At(who));
    } else if p.Spinning? && !b.lock {
      assert Holds(b'.At(who));
      assert forall x :: !Holds(b.At(x));
    } else {
      assert b' == b;
    }
  }

  /** What a sender inside leaves for the others to see. */
  lemma SenderKeepsSlot(b: Box, who: nat)
    requires Inv(b) && Holds(b.At(who))
    ensures var b' := StepSender(b, who);
      && HandlerOk(b') && Unseen(b') >= 0 && SenderOk(b', b'.At(who)) && (b.At(who).HeadWritten? ==> Fresh(b'))
  {
    OthersOutside(b, who);
    assert SenderOk(b, b.At(who));
    if b.At(who).HeadWritten? {
      LatestWinsStable(b.sends, [b.At(who).c], b.cuts);
    }
  }

  /** Nothing is claimed about a sender that is outside. */
  lemma Outside(b: Box, b': Box, who: nat)
    requires Exclusive(b') && Holds(b'.At(who)) && SenderOk(b', b'.At(who))
    ensures forall x :: SenderOk(b', b'.At(x))
  {
    forall x ensures SenderOk(b', b'.At(x)) {
      if x != who { assert !Holds(b'.At(x)); }
    }
  }

  lemma SenderEnters(b: Box, who: nat)
    requires HandlerOk(b) && Fresh(b) && Exclusive(b) && b.At(who).Spinning? && !b.lock
    ensures var b' := StepSender(b, who);
      HandlerOk(b') && Fresh(b') && Unseen(b') == Unseen(b) && b'.lock && Holds(b'.At(who)) && SenderOk(b', b'.At(who))
  {
    assert b.handler.Ready?;
  }

  lemma SenderKeepsInv(b: Box, who: nat)
    requires Inv(b)
    ensures Inv(StepSender(b, who))
  {
    var b' := StepSender(b, who);
    SenderKeepsExclusive(b, who);
    if Holds(b.At(who)) {
      SenderKeepsSlot(b, who);
      OthersOutside(b, who);
      if b.At(who).HeadWritten? {
        assert forall x :: b'.At(x) == if x == who then Idle else b.At(x);
      } else {
        Outside(b, b', who);
      }
    } else if b.At(who).Spinning? && !b.lock {
      SenderEnters(b, who);
      Outside(b, b', who);
    } else {
      assert b' == b;
    }
  }

  lemma HandlerKeepsExclusive(b: Box)
    requires Exclusive(b)
    ensures Exclusive(StepHandler(b))
  {
    var b' := StepHandler(b);
    assert forall x :: b'.At(x) == b.At(x);
    if b.handler.Ready? && !b.lock {
      assert forall x :: !Holds(b.At(x));
    }
  }

  /** One more cycle runs the newest send, if there is a new one. */
  lemma {:induction false} LatestWinsNext(sends: seq<Command>, cuts: seq<nat>, n: nat)
    requires (forall k | 0 <= k < |cuts| :: cuts[k] <= |sends|) && n <= |sends|
    ensures LatestWins(sends, cuts + [n]) ==
      LatestWins(sends, cuts) + if Cut(cuts, |cuts|) < n then [sends[n - 1]] else []
  {
    assert (cuts + [n])[..|cuts|] == cuts;
    CutAppended(cuts, n, |cuts|);
  }

  lemma BatchesNext(b: Box)
    requires Batches(b) && Unseen(b) >= 0
    ensures Batches(b.(cuts := b.cuts + [|b.sends|]))
  {
    forall k | 0 <= k <= |b.cuts| ensures Cut(b.cuts + [|b.sends|], k) == Cut(b.cuts, k) {
      CutAppended(b.cuts, |b.sends|, k);
    }
  }

  lemma CycleDone(b: Box)
    requires Batches(b) && Unseen(b) >= 0 && b.handler.Leaving? && b.head == b.tail
    requires b.sends != [] ==> SlotIs(b, b.sends[|b.sends| - 1])
    requires b.executed == LatestWins(b.sends, b.cuts) + if Unseen(b) > 0 then [b.sends[|b.sends| - 1]] else []
    ensures HandlerOk(StepHandler(b)) && Fresh(StepHandler(b)) && Unseen(StepHandler(b)) == 0
  {
    LatestWinsNext(b.sends, b.cuts, |b.sends|);
    BatchesNext(b);
  }

  lemma HandlerAdvances(b: Box)
    requires HandlerOk(b) && Unseen(b) >= 0 && !b.handler.Leaving? && (b.handler.Ready? ==> Fresh(b))
    ensures HandlerOk(StepHandler(b)) && Unseen(StepHandler(b)) == Unseen(b)
  {
  }

  lemma NobodyInside(b: Box, b': Box)
    requires Exclusive(b) && (b.handler.Ready? ==> !b.lock) && b'.senders == b.senders
    ensures forall x :: SenderOk(b', b'.At(x))
  {
    forall x ensures SenderOk(b', b'.At(x)) {
      assert b'.At(x) == b.At(x) && !Holds(b.At(x));
    }
  }

  lemma HandlerKeepsInv(b: Box)
    requires Inv(b)
    ensures Inv(StepHandler(b))
  {
    if b.handler.Ready? && b.lock {
      assert StepHandler(b) == b;
    } else {
      HandlerKeepsExclusive(b);
      NobodyInside(b, StepHandler(b));
      if b.handler.Leaving? { CycleDone(b); } else { HandlerAdvances(b); }
    }
  }

  lemma NextKeepsInv(b: Box, e: Event)
    requires Inv(b)
    ensures Inv(Next(b, e))
  {
    match e
    case Call(who, c) => CallKeepsInv(b, who, c);
    case SenderStep(who) => SenderKeepsInv(b, who);
    case HandlerStep => HandlerKeepsInv(b);
  }

  lemma {:induction false} RunKeepsInv(b: Box, es: seq<Event>)
    requires Inv(b)
    ensures Inv(Run(b, es))
    decreases |es|
  {
    if es != [] {
      NextKeepsInv(b, es[0]);
      RunKeepsInv(Next(b, es[0]), es[1..]);
    }
  }

  /**
   The refinement, for every interleaving: between cycles the handler has run exactly the newest
   send of every non-empty batch, and a free lock means the counters differ by the sends to come.
   */
  lemma {:induction false} MailboxRefines(es: seq<Event>)
    ensures var b := Run(Init(), es);
      && Batches(b)
      && (b.handler.Ready? ==> b.executed == LatestWins(b.sends, b.cuts))
      && (!b.lock ==> b.head - b.tail == Unseen(b))
      && (!b.lock && b.sends != [] ==> SlotIs(b, b.sends[|b.sends| - 1]))
  {
    InitInv();
    RunKeepsInv(Init(), es);
  }

  /** Position in `sends` of each command run, in order. */
  function Origins(cuts: seq<nat>): seq<nat>
    decreases |cuts|
  {
    if cuts == [] then []
    else
      var k := |cuts| - 1;
      Origins(cuts[..k]) + if Cut(cuts, k) < cuts[k] then [cuts[k] as nat - 1] else []
  }

  /** At most once and in order: the commands run are sends at strictly increasing positions, with their own data. */
  lemma {:induction false} RunsAreASubsequence(sends: seq<Command>, cuts: seq<nat>)
    requires forall k | 0 <= k < |cuts| :: Cut(cuts, k) <= cuts[k] <= |sends|
    ensures var o, x := Origins(cuts), LatestWins(sends, cuts);
      && |o| == |x| && (forall i | 0 <= i < |o| :: o[i] < Cut(cuts, |cuts|) && x[i] == sends[o[i]])
      && forall i, j | 0 <= i < j < |o| :: o[i] < o[j]
    decreases |cuts|
  {
    if cuts != [] {
      var k := |cuts| - 1;
      assert forall j | 0 <= j <= k :: Cut(cuts[..k], j) == Cut(cuts, j);
      RunsAreASubsequence(sends, cuts[..k]);
    }
  }

  // ---------------------------------------------------------------------------------------------
  // Progress.

  function Handles(b: Box, n: nat): Box
    decreases n
  {
    if n == 0 then b else Handles(StepHandler(b), n - 1)
  }

  /**
   A handler cycle from the moment it has the lock: its own steps alone end it and free the lock,
   and it ran the newest send exactly when some send was new.
   */
  lemma CycleEnds(b: Box)
    requires b.handler.Entered? && Fresh(b) && Unseen(b) >= 0
    ensures var b' := Handles(b, if Unseen(b) > 0 then 8 else 3);
      && b'.handler.Ready? && !b'.lock && b'.sends == b.sends && b'.cuts == b.cuts + [|b.sends|] && b'.tail == b.head
      && b'.executed == b.executed + if Unseen(b) > 0 then [b.sends[|b.sends| - 1]] else []
  {
    var b2 := StepHandler(StepHandler(b));
    assert Handles(b, 2) == b2;
    if Unseen(b) > 0 {
      var b4 := StepHandler(StepHandler(b2));
      var b6 := StepHandler(StepHandler(b4));
      assert Handles(b4, 4) == Handles(b6, 2);
      assert Handles(b, 8) == Handles(b2, 6) == Handles(b4, 4);
    }
  }

  function Sends(b: Box, who: nat, n: nat): Box
    decreases n
  {
    if n == 0 then b else Sends(StepSender(b, who), who, n - 1)
  }

  function StepsLeft(p: Sender): nat {
    match p
    case Idle => 0
    case Spinning(_) => 7
    case Locked(_) => 6
    case IdWritten(_) => 5
    case DataWritten(_) => 4
    case HeadRead(_, _) => 3
    case HeadWritten(_) => 2
  }

  /** A sender that has the lock, or finds it free, returns after its own accesses alone. */
  lemma {:induction false} SendCompletes(b: Box, who: nat) returns (n: nat)
    requires Holds(b.At(who)) || (b.At(who).Spinning? && !b.lock)
    ensures var b' := Sends(b, who, n);
      && b'.At(who).Idle? && !b'.lock && b'.sends == b.sends + [b.At(who).c]
      && b'.handler == b.handler && b'.executed == b.executed && b'.cuts == b.cuts && forall x | x != who :: b'.At(x) == b.At(x)
    decreases StepsLeft(b.At(who))
  {
    var b' := StepSender(b, who);
    if b.At(who).HeadWritten? {
      n := 1;
      assert Sends(b, who, 1) == Sends(b', who, 0);
    } else {
      var m := SendCompletes(b', who);
      n := m + 1;
    }
  }

  ghost predicate OnlySenders(es: seq<Event>) {
    forall i | 0 <= i < |es| :: es[i].SenderStep?
  }

  lemma {:induction false} RunSends(b: Box, who: nat, n: nat, rest: seq<Event>)
    ensures Run(b, seq(n, i => SenderStep(who)) + rest) == Run(Sends(b, who, n), rest)
    decreases n
  {
    var es := seq(n, i => SenderStep(who)) + rest;
    if n == 0 {
      assert es == rest;
    } else {
      assert es[1..] == seq(n - 1, i => SenderStep(who)) + rest;
      RunSends(StepSender(b, who), who, n - 1, rest);
    }
  }

  /** With the handler outside, every send in progress can return, whoever has the lock now. */
  lemma EverySendCanComplete(b: Box, who: nat) returns (es: seq<Event>)
    requires Exclusive(b) && b.handler.Ready? && !b.At(who).Idle?
    ensures OnlySenders(es)
    ensures var b' := Run(b, es);
      && b'.At(who).Idle? && |b'.sends| > |b.sends| && b'.sends[|b'.sends| - 1] == b.At(who).c
      && b'.handler.Ready? && !b'.lock && b'.executed == b.executed && b'.cuts == b.cuts
  {
    if b.lock && !Holds(b.At(who)) {
      var other :| Holds(b.At(other));
      var m := SendCompletes(b, other);
      var n := SendCompletes(Sends(b, other, m), who);
      var last := seq(n, i => SenderStep(who));
      es := seq(m, i => SenderStep(other)) + last;
      RunSends(b, other, m, last);
      RunSends(Sends(b, other, m), who, n, []);
      assert last + [] == last;
    } else {
      var n := SendCompletes(b, who);
      es := seq(n, i => SenderStep(who));
      RunSends(b, who, n, []);
      assert es + [] == es;
    }
  }

  /** Control sides alone can always bring the mailbox to a free lock with a command waiting. */
  lemma SomethingPending(b: Box) returns (es: seq<Event>)
    requires Inv(b) && b.handler.Ready?
    ensures forall i | 0 <= i < |es| :: !es[i].HandlerStep?
    ensures var b' := Run(b, es);
      Inv(b') && !b'.lock && b'.handler.Ready? && Unseen(b') > 0 && b'.executed == b.executed
  {
    if b.lock {
      var who :| Holds(b.At(who));
      es := EverySendCanComplete(b, who);
    } else if b.At(0).Idle? {
      var call := Call(0, Command(0, 0));
      NextKeepsInv(b, call);
      var rest := EverySendCanComplete(Next(b, call), 0);
      es := [call] + rest;
      assert es[1..] == rest;
    } else {
      es := EverySendCanComplete(b, 0);
    }
    RunKeepsInv(b, es);
  }

  // ---------------------------------------------------------------------------------------------
  // Sends and the calls that made them, from the events alone.

  datatype Sent = Sent(who: nat, c: Command)

  function Returned(b: Box, e: Event): seq<Sent> {
    if e.SenderStep? && b.At(e.who).HeadWritten? then [Sent(e.who, b.At(e.who).c)] else []
  }

  function Called(b: Box, e: Event, who: nat): seq<Command> {
    if e.Call? && e.who == who && b.At(who).Idle? then [e.c] else []
  }

  /** The sends that return during the events, with their senders. */
  function Returns(b: Box, es: seq<Event>): seq<Sent>
    decreases |es|
  {
    if es == [] then [] else Returned(b, es[0]) + Returns(Next(b, es[0]), es[1..])
  }

  /** The commands of the calls by `who` that find it outside. */
  function Asked(b: Box, es: seq<Event>, who: nat): seq<Command>
    decreases |es|
  {
    if es == [] then [] else Called(b, es[0], who) + Asked(Next(b, es[0]), es[1..], who)
  }

  function By(s: seq<Sent>, who: nat): seq<Command> {
    if s == [] then [] else (if s[0].who == who then [s[0].c] else []) + By(s[1..], who)
  }

  function Commands(s: seq<Sent>): seq<Command> {
    if s == [] then [] else [s[0].c] + Commands(s[1..])
  }

  /** The send a sender is in, if any. */
  function InProgress(p: Sender): seq<Command> {
    if p.Idle? then [] else [p.c]
  }

  lemma {:induction false} ByJoin(s: seq<Sent>, t: seq<Sent>, who: nat)
    ensures By(s + t, who) == By(s, who) + By(t, who) && Commands(s + t) == Commands(s) + Commands(t)
  {
    if s == [] {
      assert s + t == t;
    } else {
      assert (s + t)[1..] == s[1..] + t;
      ByJoin(s[1..], t, who);
    }
  }

  /** One event: what `who` was asked for becomes its send in progress, and that becomes its returned send. */
  lemma NextSends(b: Box, e: Event, who: nat)
    ensures Next(b, e).sends == b.sends + Commands(Returned(b, e))
    ensures InProgress(b.At(who)) + Called(b, e, who) == By(Returned(b, e), who) + InProgress(Next(b, e).At(who))
  {
    if e.HandlerStep? {
      assert StepHandler(b).senders == b.senders;
    }
  }

  /**
   The sends of the mailbox are those that returned, and for every sender those are, in order, the
   commands it was called with, up to the send it may still be in.
   */
  lemma {:induction false} SendsAreCalls(b: Box, es: seq<Event>, who: nat)
    ensures Run(b, es).sends == b.sends + Commands(Returns(b, es))
    ensures InProgress(b.At(who)) + Asked(b, es, who) == By(Returns(b, es), who) + InProgress(Run(b, es).At(who))
    decreases |es|
  {
    if es != [] {
      var b1 := Next(b, es[0]);
      NextSends(b, es[0], who);
      SendsAreCalls(b1, es[1..], who);
      ByJoin(Returned(b, es[0]), Returns(b1, es[1..]), who);
      Regroup(InProgress(b.At(who)), Called(b, es[0], who), Asked(b1, es[1..], who),
              By(Returned(b, es[0]), who), InProgress(b1.At(who)), By(Returns(b1, es[1..]), who), InProgress(Run(b, es).At(who)));
    }
  }

  lemma Regroup<T>(p: seq<T>, a: seq<T>, rest: seq<T>, r: seq<T>, q: seq<T>, more: seq<T>, end: seq<T>)
    requires p + a == r + q && q + rest == more + end
    ensures p + (a + rest) == (r + more) + end
  {
    assert p + (a + rest) == (p + a) + rest == r + (q + rest);
  }

  /** From the start: the returned sends of a sender are a prefix of what it was called with, one short at most. */
  lemma {:induction false} ReturnedSendsWereAsked(es: seq<Event>, who: nat)
    ensures var b := Run(Init(), es);
      b.sends == Commands(Returns(Init(), es)) && Asked(Init(), es, who) == By(Returns(Init(), es), who) + InProgress(b.At(who))
  {
    SendsAreCalls(Init(), es, who);
    assert [] + Asked(Init(), es, who) == Asked(Init(), es, who);
    assert [] + Commands(Returns(Init(), es)) == Commands(Returns(Init(), es));
  }

  lemma {:induction false} CommandsBy(s: seq<Sent>, c: Command)
    requires c in Commands(s)
    ensures exists who :: c in By(s, who)
  {
    if c == s[0].c {
      assert c in By(s, s[0].who);
    } else {
      CommandsBy(s[1..], c);
      var who :| c in By(s[1..], who);
      assert c in By(s, who);
    }
  }

  lemma {:induction false} AskedByCall(b: Box, es: seq<Event>, who: nat, c: Command)
    requires c in Asked(b, es, who)
    ensures Call(who, c) in es
    decreases |es|
  {
    if !(es[0].Call? && es[0].who == who && b.At(who).Idle? && es[0].c == c) {
      AskedByCall(Next(b, es[0]), es[1..], who, c);
      assert Call(who, c) in es[1..];
    }
  }

  lemma {:induction false} RunsOnlySends(sends: seq<Command>, cuts: seq<nat>, c: Command)
    requires forall k | 0 <= k < |cuts| :: cuts[k] <= |sends|
    requires c in LatestWins(sends, cuts)
    ensures c in sends
    decreases |cuts|
  {
    var k := |cuts| - 1;
    if c in LatestWins(sends, cuts[..k]) {
      RunsOnlySends(sends, cuts[..k], c);
    }
  }

  /** Every command the handler runs, at any moment of any run, is the argument of some call. */
  lemma {:induction false} EveryCommandWasCalled(es: seq<Event>, c: Command)
    requires c in Run(Init(), es).executed
    ensures exists who :: Call(who, c) in es
  {
    var b := Run(Init(), es);
    InitInv();
    RunKeepsInv(Init(), es);
    RunIsSent(b, c);
    ReturnedSendsWereAsked(es, 0);
    CommandsBy(Returns(Init(), es), c);
    var who :| c in By(Returns(Init(), es), who);
    ReturnedSendsWereAsked(es, who);
    AskedByCall(Init(), es, who, c);
  }

  lemma {:induction false} RunIsSent(b: Box, c: Command)
    requires Inv(b) && c in b.executed
    ensures c in b.sends
  {
    if c in LatestWins(b.sends, b.cuts) {
      RunsOnlySends(b.sends, b.cuts, c);
    }
  }
}
