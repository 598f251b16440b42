/**
 The two-ended arena allocator of the HAL segment.

 `shmalloc_up` carves from the bottom of the free gap [bot, top) and `shmalloc_dn` from the top.
 Nothing is given back to the gap, except by a request of a negative size.
 */
module Arena {
  const HAL_SIZE: int := 256 * 4096

  /** The allocator words of `hal_data_t`. */
  datatype Gap = Gap(bot: int, top: int, avail: int)

  /** The boundary a request of this size is put on. */
  function Alignment(size: int): (a: int)
    ensures a > 0 && (size > 0 ==> a <= size)
  {
    if size >= 16 then 16 else if size >= 8 then 8 else if size >= 4 then 4 else if size == 2 then 2 else 1
  }

  /** `x & ~(a - 1)` on a two's-complement word, for a power of two `a`: rounds towards minus infinity. */
  function RoundDown(x: int, a: int): int
    requires a > 0
  {
    x - x % a
  }

  function UpStart(g: Gap, size: int): int {
    RoundDown(g.bot + (Alignment(size) - 1), Alignment(size))
  }

  function DnStart(g: Gap, size: int): int {
    RoundDown(g.top - size, Alignment(size))
  }

  predicate UpFits(g: Gap, size: int) {
    !(g.top - UpStart(g, size) < size)
  }

  predicate DnFits(g: Gap, size: int) {
    !(DnStart(g, size) < g.bot)
  }

  function Up(g: Gap, size: int): Gap {
    if UpFits(g, size) then
      var bot := UpStart(g, size) + size;
      Gap(bot, g.top, g.top - bot)
    else g
  }

  function Dn(g: Gap, size: int): Gap {
    if DnFits(g, size) then
      var top := DnStart(g, size);
      Gap(g.bot, top, top - g.bot)
    else g
  }

  // ---------------------------------------------------------------------------------------------
  // Completeness: what a placement is, said without either algorithm.

  ghost predicate Placement(g: Gap, size: int, off: int) {
    g.bot <= off && off + size <= g.top && off % Alignment(size) == 0
  }

  /** The largest power of two up to 16 that is no more than the size; a size of 3 is the exception. */
  lemma AlignmentIs(size: int)
    requires size > 0
    ensures var a := Alignment(size);
      a in {1, 2, 4, 8, 16} && a <= size && (size != 3 ==> a == 16 || size < 2 * a) && (size == 3 ==> a == 1)
  {
  }

  lemma RoundDownIsGreatest(x: int, a: int, y: int)
    requires a > 0 && y % a == 0 && y <= x
    ensures y <= RoundDown(x, a)
  {
    var q, k := x / a, y / a;
    assert x == a * q + x % a && y == a * k;
    if k >= q + 1 {
      assert a * k >= a * (q + 1) by { MulMonotone(a, q + 1, k); }
    } else {
      MulMonotone(a, k, q);
    }
  }

  lemma MulMonotone(a: int, x: int, y: int)
    requires a > 0 && x <= y
    ensures a * x <= a * y
  {
  }

  lemma RoundDownAligned(x: int, a: int)
    requires a > 0
    ensures RoundDown(x, a) % a == 0 && x - a < RoundDown(x, a) <= x
  {
    assert RoundDown(x, a) == a * (x / a);
    MulMod(a, x / a);
  }

  lemma MulMod(a: int, q: int)
    requires a > 0
    ensures (a * q) % a == 0
  {
    var r := (a * q) % a;
    var k := (a * q) / a;
    assert a * q == a * k + r;
    if q - k >= 1 { MulMonotone(a, 1, q - k); } else if q - k <= -1 { MulMonotone(a, q - k, -1); }
  }

  /** `shmalloc_up` succeeds exactly when a placement exists, and then takes the least one. */
  lemma UpTakesLeast(g: Gap, size: int)
    ensures UpFits(g, size) <==> exists off :: Placement(g, size, off)
    ensures UpFits(g, size) ==>
      && Placement(g, size, UpStart(g, size))
      && (forall off | Placement(g, size, off) :: UpStart(g, size) <= off)
      && UpStart(g, size) - g.bot < Alignment(size)
  {
    RoundDownAligned(g.bot + (Alignment(size) - 1), Alignment(size));
    forall off | Placement(g, size, off) ensures UpStart(g, size) <= off {
      if off < UpStart(g, size) {
        AlignedGap(UpStart(g, size), off, Alignment(size));
      }
    }
    if UpFits(g, size) {
      assert Placement(g, size, UpStart(g, size));
    }
  }

  /** Two multiples of `a` that differ are at least `a` apart. */
  lemma AlignedGap(x: int, y: int, a: int)
    requires a > 0 && x % a == 0 && y % a == 0 && y < x
    ensures y <= x - a
  {
    RoundDownIsGreatest(x - 1, a, y);
    RoundDownPredecessor(x, a);
  }

  lemma RoundDownPredecessor(x: int, a: int)
    requires a > 0 && x % a == 0
    ensures RoundDown(x - 1, a) == x - a
  {
    var q := x / a;
    assert x == a * q;
    RoundDownAligned(x - 1, a);
    RoundDownIsGreatest(x - 1, a, x - a) by { assert x - a == a * (q - 1); MulMod(a, q - 1); }
    assert RoundDown(x - 1, a) == a * ((x - 1) / a);
    var k := (x - 1) / a;
    if k >= q { MulMonotone(a, q, k); }
    MulMonotone(a, k, q - 1);
  }

  /** `shmalloc_dn` succeeds exactly when a placement exists, and then takes the greatest one. */
  lemma DnTakesGreatest(g: Gap, size: int)
    ensures DnFits(g, size) <==> exists off :: Placement(g, size, off)
    ensures DnFits(g, size) ==>
      && Placement(g, size, DnStart(g, size))
      && (forall off | Placement(g, size, off) :: off <= DnStart(g, size))
      && g.top - (DnStart(g, size) + size) < Alignment(size)
  {
    var a := Alignment(size);
    RoundDownAligned(g.top - size, a);
    forall off | Placement(g, size, off) ensures off <= DnStart(g, size) {
      RoundDownIsGreatest(g.top - size, a, off);
    }
    if DnFits(g, size) {
      assert Placement(g, size, DnStart(g, size));
    }
  }

  /** Neither end is better: from any gap one end can serve a size exactly when the other can. */
  lemma EndsAgree(g: Gap, size: int)
    ensures UpFits(g, size) <==> DnFits(g, size)
  {
    UpTakesLeast(g, size);
    DnTakesGreatest(g, size);
  }

  /** The size is a signed `long` and is not checked: the bottom moves down exactly for negative requests. */
  lemma UpReleasesIffNegative(g: Gap, size: int)
    requires g.bot <= g.top
    ensures Up(g, size).bot < g.bot <==> size < 0
  {
    RoundDownAligned(g.bot + (Alignment(size) - 1), Alignment(size));
  }

  // ---------------------------------------------------------------------------------------------
  // Safety over any history of requests.

  datatype Request = FromBottom(size: int) | FromTop(size: int)

  /** A block handed out: `size` bytes at `off`. */
  datatype Block = Block(off: int, size: int)

  function Serve(g: Gap, q: Request): Gap {
    match q
    case FromBottom(size) => Up(g, size)
    case FromTop(size) => Dn(g, size)
  }

  function Given(g: Gap, q: Request): seq<Block> {
    match q
    case FromBottom(size) => if UpFits(g, size) then [Block(UpStart(g, size), size)] else []
    case FromTop(size) => if DnFits(g, size) then [Block(DnStart(g, size), size)] else []
  }

  function ServeAll(g: Gap, qs: seq<Request>): Gap
    decreases |qs|
  {
    if qs == [] then g else ServeAll(Serve(g, qs[0]), qs[1..])
  }

  function GivenAll(g: Gap, qs: seq<Request>): seq<Block>
    decreases |qs|
  {
    if qs == [] then [] else Given(g, qs[0]) + GivenAll(Serve(g, qs[0]), qs[1..])
  }

  ghost predicate Disjoint(a: Block, b: Block) {
    a.off + a.size <= b.off || b.off + b.size <= a.off
  }

  /** The sizes are signed and nothing checks them; safety is for requests that ask for bytes. */
  ghost predicate Sane(qs: seq<Request>) {
    forall i | 0 <= i < |qs| :: qs[i].size >= 0
  }

  /** One request: the gap only shrinks, and what was handed out lies in the part it gave up. */
  lemma ServeShrinks(g: Gap, q: Request)
    requires g.bot <= g.top && q.size >= 0
    ensures var g' := Serve(g, q);
      && g.bot <= g'.bot <= g'.top <= g.top
      && (Given(g, q) == [] ==> g' == g)
      && (Given(g, q) != [] ==> g'.avail == g'.top - g'.bot)
      && forall b | b in Given(g, q) ::
           && b.off % Alignment(b.size) == 0
           && ((g.bot <= b.off && b.off + b.size <= g'.bot) || (g'.top <= b.off && b.off + b.size <= g.top))
  {
    UpTakesLeast(g, q.size);
    DnTakesGreatest(g, q.size);
  }

  /** Any mixed history: bounds, alignment and pairwise disjointness of everything handed out. */
  lemma {:induction false} HistorySafe(g: Gap, qs: seq<Request>)
    requires g.bot <= g.top && Sane(qs)
    ensures var g' := ServeAll(g, qs); var bs := GivenAll(g, qs);
      && g.bot <= g'.bot <= g'.top <= g.top
      && (bs == [] ==> g' == g)
      && (bs != [] ==> g'.avail == g'.top - g'.bot)
      && (forall b | b in bs :: Within(g, b) && b.off % Alignment(b.size) == 0)
      && (forall i, j | 0 <= i < j < |bs| :: Disjoint(bs[i], bs[j]))
    decreases |qs|
  {
    if qs != [] {
      var g1 := Serve(g, qs[0]);
      ServeShrinks(g, qs[0]);
      assert forall i | 0 <= i < |qs| - 1 :: qs[1..][i] == qs[i + 1];
      HistorySafe(g1, qs[1..]);
      BlocksJoin(g, g1, Given(g, qs[0]), GivenAll(g1, qs[1..]));
    }
  }

  ghost predicate Within(g: Gap, b: Block) {
    g.bot <= b.off && b.off + b.size <= g.top
  }

  /** Blocks of a smaller gap are apart from what was cut off before. */
  lemma BlocksJoin(g: Gap, g1: Gap, first: seq<Block>, rest: seq<Block>)
    requires g.bot <= g1.bot <= g1.top <= g.top && |first| <= 1
    requires forall b | b in first :: (g.bot <= b.off && b.off + b.size <= g1.bot) || (g1.top <= b.off && b.off + b.size <= g.top)
    requires forall b | b in rest :: Within(g1, b)
    requires forall i, j | 0 <= i < j < |rest| :: Disjoint(rest[i], rest[j])
    ensures forall i, j | 0 <= i < j < |first + rest| :: Disjoint((first + rest)[i], (first + rest)[j])
  {
    var bs := first + rest;
    forall i, j | 0 <= i < j < |bs| ensures Disjoint(bs[i], bs[j]) {
      assert bs[j] == rest[j - |first|];
      if i < |first| {
        assert bs[i] in first && Within(g1, bs[j]);
      } else {
        assert bs[i] == rest[i - |first|];
      }
    }
  }

  /** A block below the bottom the gap had. */
  ghost predicate Reused(g: Gap, b: Block) {
    b.size > 0 && b.off < g.bot
  }

  /** Bytes already given away can be handed out again after a request if and only if its size is negative. */
  lemma ReusesIffNegative(g: Gap, n: int)
    requires g.bot <= g.top
    ensures n < 0 <==>
      exists qs, b :: Sane(qs) && b in GivenAll(Serve(g, FromBottom(n)), qs) && Reused(g, b)
  {
    var g1 := Serve(g, FromBottom(n));
    if n < 0 {
      OneByteBelow(g, n);
    } else {
      ServeShrinks(g, FromBottom(n));
      forall qs, b | Sane(qs) && b in GivenAll(g1, qs) ensures !Reused(g, b) {
        HistorySafe(g1, qs);
        assert Within(g1, b);
      }
    }
  }

  lemma OneByteBelow(g: Gap, n: int)
    requires g.bot <= g.top && n < 0
    ensures exists qs, b :: Sane(qs) && b in GivenAll(Serve(g, FromBottom(n)), qs) && Reused(g, b)
  {
    var g1, qs := Serve(g, FromBottom(n)), [FromBottom(1)];
    assert UpStart(g, n) == g.bot && g1 == Gap(g.bot + n, g.top, g.top - g.bot - n);
    assert UpStart(g1, 1) == g1.bot && Given(g1, qs[0]) == [Block(g1.bot, 1)];
    assert GivenAll(g1, qs) == Given(g1, qs[0]) + GivenAll(Serve(g1, qs[0]), []);
    assert Block(g1.bot, 1) in GivenAll(g1, qs) && Reused(g, Block(g1.bot, 1)) && Sane(qs);
  }

  /** One negative size breaks it: the bytes go back to the gap while their owner still has them. */
  lemma NegativeSizeOverlaps(g: Gap, size: int)
    requires size > 0 && UpFits(g, size)
    ensures var bs := GivenAll(g, [FromBottom(size), FromBottom(-size), FromBottom(size)]);
      |bs| == 3 && bs[2] == bs[0] && !Disjoint(bs[0], bs[2])
  {
    var start := UpStart(g, size);
    var g1 := Up(g, size);
    var g2 := Up(g1, -size);
    RoundDownAligned(g.bot + (Alignment(size) - 1), Alignment(size));
    assert UpStart(g1, -size) == g1.bot && g2 == Gap(start, g.top, g.top - start);
    RoundDownIsGreatest(start + (Alignment(size) - 1), Alignment(size), start);
    RoundDownAligned(start + (Alignment(size) - 1), Alignment(size));
    if UpStart(g2, size) != start {
      AlignedGap(UpStart(g2, size), start, Alignment(size));
    }
    GivenThree(g, FromBottom(size), FromBottom(-size), FromBottom(size));
  }

  lemma GivenThree(g: Gap, a: Request, b: Request, c: Request)
    ensures GivenAll(g, [a, b, c]) == Given(g, a) + Given(Serve(g, a), b) + Given(Serve(Serve(g, a), b), c)
  {
    assert [a, b, c][1..] == [b, c] && [b, c][1..] == [c];
    assert GivenAll(Serve(Serve(g, a), b), [c]) == Given(Serve(Serve(g, a), b), c) + [];
  }

  // ---------------------------------------------------------------------------------------------

  /** The allocator as the source runs it, on the words of the segment header. */
  class Allocator {
    var shmemBot: int
    var shmemTop: int
    var shmemAvail: int

    /** `init_hal_data` leaves `shmem_avail` at the zero of a fresh segment. */
    constructor (headerSize: int)
      ensures View() == Gap(headerSize, HAL_SIZE, 0)
    {
      shmemBot, shmemTop, shmemAvail := headerSize, HAL_SIZE, 0;
    }

    ghost function View(): Gap
      reads this
    {
      Gap(shmemBot, shmemTop, shmemAvail)
    }

    method ShmallocUp(size: int) returns (p: int)
      requires shmemBot > 0
      modifies this
      ensures View() == Up(old(View()), size)
      ensures p == if UpFits(old(View()), size) then UpStart(old(View()), size) else 0
      ensures p != 0 <==> exists off :: Placement(old(View()), size, off)
    {
      ghost var g := View();
      UpTakesLeast(g, size);
      RoundDownAligned(g.bot + (Alignment(size) - 1), Alignment(size));
      var tmpBot := shmemBot;
      if size >= 16 {
        tmpBot := RoundDown(tmpBot + 15, 16);
      } else if size >= 8 {
        tmpBot := RoundDown(tmpBot + 7, 8);
      } else if size >= 4 {
        tmpBot := RoundDown(tmpBot + 3, 4);
      } else if size == 2 {
        tmpBot := RoundDown(tmpBot + 1, 2);
      }
      if shmemTop - tmpBot < size {
        return 0;
      }
      p := tmpBot;
      shmemBot := tmpBot + size;
      shmemAvail := shmemTop - shmemBot;
    }

    method ShmallocDn(size: int) returns (p: int)
      requires shmemBot > 0
      modifies this
      ensures View() == Dn(old(View()), size)
      ensures p == if DnFits(old(View()), size) then DnStart(old(View()), size) else 0
      ensures p != 0 <==> exists off :: Placement(old(View()), size, off)
    {
      ghost var g := View();
      DnTakesGreatest(g, size);
      RoundDownAligned(g.top - size, Alignment(size));
      var tmpTop := shmemTop - size;
      if size >= 16 {
        tmpTop := RoundDown(tmpTop, 16);
      } else if size >= 8 {
        tmpTop := RoundDown(tmpTop, 8);
      } else if size >= 4 {
        tmpTop := RoundDown(tmpTop, 4);
      } else if size == 2 {
        tmpTop := RoundDown(tmpTop, 2);
      }
      if tmpTop < shmemBot {
        return 0;
      }
      p := tmpTop;
      shmemTop := tmpTop;
      shmemAvail := shmemTop - shmemBot;
    }
  }
}
