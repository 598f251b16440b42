/**
 Where everything lies in the segment.

 The registry keeps a map of contents for each kind of struct.  That is the memory of the segment only
 if structs of different kinds, and the memory handed out by `hal_malloc`, never overlap: here every
 block of a run is an answer of the allocator, and the blocks are apart.
 */
module Footprint {
  import opened Links
  import opened Arena
  import opened Registry
  import opened Invariant
  import opened Preservation
  import opened Cascade
  import opened Churn

  /** Who a block belongs to. */
  datatype Piece = Struct(k: Kind, x: Off) | Heap

  /** The owners of the blocks an operation gets, in order. */
  ghost function Takes(r: Reg, op: Op): seq<Piece> {
    if op.OpMalloc? then (if UpFits(r.gap, op.size) then [Heap] else [])
    else if Carves(r, op) then [Struct(KindFor(op), Next(r, KindFor(op)))]
    else []
  }

  ghost function AllAsks(r: Reg, ops: seq<Op>): seq<Request>
    decreases |ops|
  {
    if ops == [] then [] else Asks(r, ops[0]) + AllAsks(Step(r, ops[0]).reg, ops[1..])
  }

  ghost function AllTakes(r: Reg, ops: seq<Op>): seq<Piece>
    decreases |ops|
  {
    if ops == [] then [] else Takes(r, ops[0]) + AllTakes(Step(r, ops[0]).reg, ops[1..])
  }

  /** The blocks are those of the pieces: a struct lies at its offset with the size of its kind. */
  ghost predicate Matches(sizes: Sizes, ps: seq<Piece>, bs: seq<Block>) {
    |ps| == |bs| && forall i | 0 <= i < |ps| && ps[i].Struct? :: bs[i] == Block(ps[i].x, SizeOf(sizes, ps[i].k))
  }

  /** The pieces of kind `k`. */
  ghost predicate Holds(ps: seq<Piece>, k: Kind, s: set<Off>) {
    forall x :: x in s <==> Struct(k, x) in ps
  }

  // ---------------------------------------------------------------------------------------------
  // One operation.

  lemma StepSizes(r: Reg, op: Op)
    requires Inv(r)
    ensures Step(r, op).reg.sizes == r.sizes
  {
    if op.OpExit? {
      ExitDeletes(r, op.id);
    } else if op.OpAppExit? {
      FreeThreadsFrame(r.(state := ShuttingDown));
    } else {
      OtherSizes(r, op);
    }
  }

  lemma OtherSizes(r: Reg, op: Op)
    requires !op.OpExit? && !op.OpAppExit?
    ensures Step(r, op).reg.sizes == r.sizes
  {
  }

  lemma StepMatches(r: Reg, op: Op)
    requires Inv(r) && Enabled(r, op)
    ensures Matches(r.sizes, Takes(r, op), GivenAll(r.gap, Asks(r, op))) && Sane(Asks(r, op))
    ensures forall k :: Holds(Takes(r, op), k, Fresh(r, op, k))
  {
    var k := KindFor(op);
    if op.OpMalloc? {
      ServeOne(r.gap, FromBottom(op.size));
    } else if Carves(r, op) {
      ServeOne(r.gap, FromTop(SizeOf(r.sizes, k)));
      CarvedAtTop(r, op);
    }
    forall j ensures Holds(Takes(r, op), j, Fresh(r, op, j)) {
      if j != k || !(Allocating(op) || op.OpAdd?) { OnlyKind(r, op, j); }
    }
  }

  /** A carved struct is the block the allocator gave for it. */
  lemma CarvedAtTop(r: Reg, op: Op)
    requires Inv(r) && Carves(r, op)
    ensures var k := KindFor(op); var size := SizeOf(r.sizes, k);
      DnFits(r.gap, size) && Next(r, k) == DnStart(r.gap, size) && Fresh(r, op, k) == {Next(r, k)}
  {
    var k := KindFor(op);
    if k.KEntry? {
      SetOfEmpty(r.w.entryFree);
    } else {
      SetOfEmpty(PoolOf(r, k).free);
    }
  }

  // ---------------------------------------------------------------------------------------------
  // Runs.

  lemma {:induction false} GivenJoin(g: Gap, a: seq<Request>, b: seq<Request>)
    ensures ServeAll(g, a + b) == ServeAll(ServeAll(g, a), b)
    ensures GivenAll(g, a + b) == GivenAll(g, a) + GivenAll(ServeAll(g, a), b)
    decreases |a|
  {
    if a == [] {
      assert a + b == b;
    } else {
      assert (a + b)[1..] == a[1..] + b;
      GivenJoin(Serve(g, a[0]), a[1..], b);
    }
  }

  lemma MatchesJoin(sizes: Sizes, p: seq<Piece>, q: seq<Piece>, a: seq<Block>, b: seq<Block>)
    requires Matches(sizes, p, a) && Matches(sizes, q, b)
    ensures Matches(sizes, p + q, a + b)
  {
  }

  lemma HoldsJoin(p: seq<Piece>, q: seq<Piece>, k: Kind, s: set<Off>, t: set<Off>)
    requires Holds(p, k, s) && Holds(q, k, t)
    ensures Holds(p + q, k, s + t)
  {
  }

  /** A run is a history of allocator requests, and its pieces are what the requests got. */
  lemma {:induction false} RunServes(r: Reg, ops: seq<Op>)
    requires Inv(r) && EnabledRun(r, ops)
    ensures Run(r, ops).gap == ServeAll(r.gap, AllAsks(r, ops)) && Run(r, ops).sizes == r.sizes && Sane(AllAsks(r, ops))
    ensures Matches(r.sizes, AllTakes(r, ops), GivenAll(r.gap, AllAsks(r, ops)))
    decreases |ops|
  {
    if ops != [] {
      var op := ops[0];
      var r1 := Step(r, op).reg;
      EnabledHead(r, ops);
      StepKeepsInv(r, op);
      StepSizes(r, op);
      StepServes(r, op);
      StepMatches(r, op);
      RunServes(r1, ops[1..]);
      GivenJoin(r.gap, Asks(r, op), AllAsks(r1, ops[1..]));
      MatchesJoin(r.sizes, Takes(r, op), AllTakes(r1, ops[1..]), GivenAll(r.gap, Asks(r, op)), GivenAll(r1.gap, AllAsks(r1, ops[1..])));
    }
  }

  lemma {:induction false} RunHolds(r: Reg, ops: seq<Op>, k: Kind)
    requires Inv(r) && EnabledRun(r, ops)
    ensures Holds(AllTakes(r, ops), k, EverCarved(r, ops, k))
    decreases |ops|
  {
    if ops != [] {
      var r1 := Step(r, ops[0]).reg;
      EnabledHead(r, ops);
      StepKeepsInv(r, ops[0]);
      StepMatches(r, ops[0]);
      RunHolds(r1, ops[1..], k);
      HoldsJoin(Takes(r, ops[0]), AllTakes(r1, ops[1..]), k, Fresh(r, ops[0], k), EverCarved(r1, ops[1..], k));
    }
  }

  // ---------------------------------------------------------------------------------------------
  // The layout of every reachable state.

  /** The memory an operation hands out. */
  ghost function Handed(r: Reg, op: Op): seq<Block> {
    if op.OpMalloc? then Given(r.gap, FromBottom(op.size)) else []
  }

  /** The memory `hal_malloc` handed out during a run. */
  ghost function HeapBlocks(r: Reg, ops: seq<Op>): seq<Block>
    decreases |ops|
  {
    if ops == [] then []
    else Handed(r, ops[0]) + HeapBlocks(Step(r, ops[0]).reg, ops[1..])
  }

  ghost predicate Inside(sizes: Sizes, b: Block) {
    sizes.header <= b.off && b.off + b.size <= HAL_SIZE && b.off % Alignment(b.size) == 0
  }

  ghost function Extent(r: Reg, k: Kind, x: Off): Block {
    Block(x, SizeOf(r.sizes, k))
  }

  /** Each struct of each kind, in use or free, lies behind the header, aligned, and apart from every other struct. */
  lemma StructsApart(sizes: Sizes, ops: seq<Op>, j: Kind, x: Off, k: Kind, y: Off)
    requires sizes.Valid() && sizes.header <= HAL_SIZE && EnabledRun(Init(sizes), ops)
    requires x in Structs(Run(Init(sizes), ops), j) && y in Structs(Run(Init(sizes), ops), k) && (j != k || x != y)
    ensures var r := Run(Init(sizes), ops);
      Inside(sizes, Extent(r, j, x)) && Inside(sizes, Extent(r, k, y)) && Disjoint(Extent(r, j, x), Extent(r, k, y))
  {
    var i := BlockOf(sizes, ops, j, x);
    var l := BlockOf(sizes, ops, k, y);
    BlocksApart(sizes, ops);
  }

  /** The place of a struct among the blocks of the run. */
  lemma BlockOf(sizes: Sizes, ops: seq<Op>, k: Kind, x: Off) returns (i: nat)
    requires sizes.Valid() && sizes.header <= HAL_SIZE && EnabledRun(Init(sizes), ops)
    requires x in Structs(Run(Init(sizes), ops), k)
    ensures var ps, bs := AllTakes(Init(sizes), ops), GivenAll(Init(sizes).gap, AllAsks(Init(sizes), ops));
      i < |ps| == |bs| && ps[i] == Struct(k, x) && bs[i] == Extent(Run(Init(sizes), ops), k, x)
  {
    InitInv(sizes);
    RunServes(Init(sizes), ops);
    RunHolds(Init(sizes), ops, k);
    CarvedIsPeakFromStart(sizes, ops, k);
    i :| 0 <= i < |AllTakes(Init(sizes), ops)| && AllTakes(Init(sizes), ops)[i] == Struct(k, x);
  }

  lemma BlocksApart(sizes: Sizes, ops: seq<Op>)
    requires sizes.Valid() && sizes.header <= HAL_SIZE && EnabledRun(Init(sizes), ops)
    ensures var bs := GivenAll(Init(sizes).gap, AllAsks(Init(sizes), ops));
      && (forall i | 0 <= i < |bs| :: Inside(sizes, bs[i]))
      && forall i, j | 0 <= i < |bs| && 0 <= j < |bs| && i != j :: Disjoint(bs[i], bs[j])
  {
    InitInv(sizes);
    RunServes(Init(sizes), ops);
    HistorySafe(Init(sizes).gap, AllAsks(Init(sizes), ops));
    var bs := GivenAll(Init(sizes).gap, AllAsks(Init(sizes), ops));
    forall i, j | 0 <= i < |bs| && 0 <= j < |bs| && i != j ensures Disjoint(bs[i], bs[j]) {
      if i < j { assert Disjoint(bs[i], bs[j]); } else { assert Disjoint(bs[j], bs[i]); }
    }
  }

  /** The blocks of the heap pieces, in order. */
  ghost function HeapsOf(ps: seq<Piece>, bs: seq<Block>): seq<Block>
    requires |ps| == |bs|
  {
    if ps == [] then [] else (if ps[0] == Heap then [bs[0]] else []) + HeapsOf(ps[1..], bs[1..])
  }

  lemma {:induction false} HeapsJoin(p: seq<Piece>, q: seq<Piece>, a: seq<Block>, b: seq<Block>)
    requires |p| == |a| && |q| == |b|
    ensures HeapsOf(p + q, a + b) == HeapsOf(p, a) + HeapsOf(q, b)
  {
    if p == [] {
      assert p + q == q && a + b == b;
    } else {
      HeapsJoin(p[1..], q, a[1..], b);
      assert p + q == [p[0]] + (p[1..] + q) && a + b == [a[0]] + (a[1..] + b);
      HeapsCons(p[0], p[1..] + q, a[0], a[1..] + b);
      HeapsCons(p[0], p[1..], a[0], a[1..]);
      assert p == [p[0]] + p[1..] && a == [a[0]] + a[1..];
    }
  }

  lemma {:induction false} HeapsCons(p: Piece, ps: seq<Piece>, b: Block, bs: seq<Block>)
    requires |ps| == |bs|
    ensures HeapsOf([p] + ps, [b] + bs) == (if p == Heap then [b] else []) + HeapsOf(ps, bs)
  {
    assert ([p] + ps)[1..] == ps && ([b] + bs)[1..] == bs;
  }

  /** Where the `n`-th heap piece is. */
  lemma {:induction false} HeapPlace(ps: seq<Piece>, bs: seq<Block>, n: nat) returns (i: nat)
    requires |ps| == |bs| && n < |HeapsOf(ps, bs)|
    ensures i < |ps| && ps[i] == Heap && bs[i] == HeapsOf(ps, bs)[n] && |HeapsOf(ps[..i], bs[..i])| == n
  {
    if ps[0] == Heap && n == 0 {
      i := 0;
    } else {
      var j := HeapPlace(ps[1..], bs[1..], if ps[0] == Heap then n - 1 else n);
      i := j + 1;
      assert ps[..i][1..] == ps[1..][..j] && bs[..i][1..] == bs[1..][..j];
    }
  }

  lemma StepHeaps(r: Reg, op: Op)
    requires |Takes(r, op)| == |GivenAll(r.gap, Asks(r, op))|
    ensures HeapsOf(Takes(r, op), GivenAll(r.gap, Asks(r, op))) == Handed(r, op)
  {
    if op.OpMalloc? { ServeOne(r.gap, FromBottom(op.size)); }
  }

  lemma {:induction false} RunHeaps(r: Reg, ops: seq<Op>)
    requires Inv(r) && EnabledRun(r, ops)
    ensures |AllTakes(r, ops)| == |GivenAll(r.gap, AllAsks(r, ops))|
    ensures HeapBlocks(r, ops) == HeapsOf(AllTakes(r, ops), GivenAll(r.gap, AllAsks(r, ops)))
    decreases |ops|
  {
    RunServes(r, ops);
    if ops != [] {
      var op := ops[0];
      var r1 := Step(r, op).reg;
      EnabledHead(r, ops);
      StepKeepsInv(r, op);
      StepServes(r, op);
      StepMatches(r, op);
      StepHeaps(r, op);
      RunHeaps(r1, ops[1..]);
      GivenJoin(r.gap, Asks(r, op), AllAsks(r1, ops[1..]));
      HeapsJoin(Takes(r, op), AllTakes(r1, ops[1..]), GivenAll(r.gap, Asks(r, op)), GivenAll(r1.gap, AllAsks(r1, ops[1..])));
    }
  }

  /** The memory of `hal_malloc` lies behind the header, aligned, apart from every struct and from the rest of such memory. */
  lemma HeapApart(sizes: Sizes, ops: seq<Op>, n: nat)
    requires sizes.Valid() && sizes.header <= HAL_SIZE && EnabledRun(Init(sizes), ops) && n < |HeapBlocks(Init(sizes), ops)|
    ensures var r := Run(Init(sizes), ops); var hs := HeapBlocks(Init(sizes), ops);
      && Inside(sizes, hs[n])
      && (forall m | 0 <= m < |hs| && m != n :: Disjoint(hs[n], hs[m]))
      && forall k, x | x in Structs(r, k) :: Disjoint(hs[n], Extent(r, k, x))
  {
    InitInv(sizes);
    RunHeaps(Init(sizes), ops);
    BlocksApart(sizes, ops);
    var r, hs := Run(Init(sizes), ops), HeapBlocks(Init(sizes), ops);
    var ps, bs := AllTakes(Init(sizes), ops), GivenAll(Init(sizes).gap, AllAsks(Init(sizes), ops));
    var i := HeapPlace(ps, bs, n);
    forall m | 0 <= m < |hs| && m != n ensures Disjoint(hs[n], hs[m]) {
      var j := HeapPlace(ps, bs, m);
    }
    forall k, x | x in Structs(r, k) ensures Disjoint(hs[n], Extent(r, k, x)) {
      var j := BlockOf(sizes, ops, k, x);
    }
  }

  // ---------------------------------------------------------------------------------------------
  // What churn costs in bytes.

  /** Struct sizes with the most that alignment can add. */
  ghost function Cost(s: Sizes, k: Kind, n: nat): nat { n * (SizeOf(s, k) + 15) }

  ghost function Spent(r: Reg): nat {
    Cost(r.sizes, KComp, |Structs(r, KComp)|) + Cost(r.sizes, KFunct, |Structs(r, KFunct)|) +
    Cost(r.sizes, KParam, |Structs(r, KParam)|) + Cost(r.sizes, KPin, |Structs(r, KPin)|) +
    Cost(r.sizes, KThread, |Structs(r, KThread)|) + Cost(r.sizes, KEntry, |Structs(r, KEntry)|)
  }

  lemma StepAdds(r: Reg, op: Op, k: Kind)
    requires Inv(r) && Enabled(r, op)
    ensures |Structs(Step(r, op).reg, k)| == |Structs(r, k)| + if k == KindFor(op) && Carves(r, op) then 1 else 0
  {
    StepConserves(r, op, k);
    UsedFreeDisjoint(r, k);
    CardDisjoint(Structs(r, k), Fresh(r, op, k));
    if k != KindFor(op) { OnlyKind(r, op, k); }
  }

  lemma CostOfMore(s: Sizes, k: Kind, n: nat, more: bool)
    ensures Cost(s, k, n + if more then 1 else 0) == Cost(s, k, n) + if more then SizeOf(s, k) + 15 else 0
  {
  }

  ghost predicate SpentMore(r: Reg, r': Reg, at: Kind, extra: nat, k: Kind) {
    Cost(r.sizes, k, |Structs(r', k)|) == Cost(r.sizes, k, |Structs(r, k)|) + if k == at then extra else 0
  }

  lemma SumOfCosts(r: Reg, r': Reg, at: Kind, extra: nat)
    requires r'.sizes == r.sizes && forall k :: SpentMore(r, r', at, extra, k)
    ensures Spent(r') == Spent(r) + extra
  {
    assert SpentMore(r, r', at, extra, KComp) && SpentMore(r, r', at, extra, KFunct) && SpentMore(r, r', at, extra, KParam);
    assert SpentMore(r, r', at, extra, KPin) && SpentMore(r, r', at, extra, KThread) && SpentMore(r, r', at, extra, KEntry);
  }

  /** An operation lowers the top by no more than it spends. */
  lemma StepSpends(r: Reg, op: Op)
    requires Inv(r) && Enabled(r, op)
    ensures r.gap.top - Step(r, op).reg.gap.top <= Spent(Step(r, op).reg) - Spent(r)
  {
    var r', at := Step(r, op).reg, KindFor(op);
    var extra := if Carves(r, op) then SizeOf(r.sizes, at) + 15 else 0;
    StepSizes(r, op);
    StepTop(r, op);
    forall k ensures SpentMore(r, r', at, extra, k) {
      StepAdds(r, op, k);
      CostOfMore(r.sizes, k, |Structs(r, k)|, k == at && Carves(r, op));
    }
    SumOfCosts(r, r', at, extra);
  }

  lemma StepTop(r: Reg, op: Op)
    requires Inv(r) && Enabled(r, op)
    ensures r.gap.top - Step(r, op).reg.gap.top <= if Carves(r, op) then SizeOf(r.sizes, KindFor(op)) + 15 else 0
  {
    StepServes(r, op);
    if op.OpMalloc? {
      ServeOne(r.gap, FromBottom(op.size));
    } else if Carves(r, op) {
      ServeOne(r.gap, FromTop(SizeOf(r.sizes, KindFor(op))));
      DnTakesGreatest(r.gap, SizeOf(r.sizes, KindFor(op)));
    }
  }

  lemma {:induction false} RunSpends(r: Reg, ops: seq<Op>)
    requires Inv(r) && EnabledRun(r, ops)
    ensures r.gap.top - Run(r, ops).gap.top <= Spent(Run(r, ops)) - Spent(r)
    decreases |ops|
  {
    if ops != [] {
      EnabledHead(r, ops);
      StepKeepsInv(r, ops[0]);
      StepSpends(r, ops[0]);
      RunSpends(Step(r, ops[0]).reg, ops[1..]);
    }
  }

  /** However long the run, the structs take no more of the top of the segment than their peak numbers cost. */
  lemma {:induction false} ChurnCostsThePeaks(sizes: Sizes, ops: seq<Op>)
    requires sizes.Valid() && sizes.header <= HAL_SIZE && EnabledRun(Init(sizes), ops)
    ensures HAL_SIZE - Run(Init(sizes), ops).gap.top <=
      PeakCost(sizes, ops, KComp) + PeakCost(sizes, ops, KFunct) + PeakCost(sizes, ops, KParam) +
      PeakCost(sizes, ops, KPin) + PeakCost(sizes, ops, KThread) + PeakCost(sizes, ops, KEntry)
  {
    InitInv(sizes);
    RunServes(Init(sizes), ops);
    RunSpends(Init(sizes), ops);
    NothingSpent(sizes);
    forall k: Kind ensures Cost(sizes, k, |Structs(Run(Init(sizes), ops), k)|) == PeakCost(sizes, ops, k) {
      CarvedIsPeakFromStart(sizes, ops, k);
    }
  }

  ghost function PeakCost(sizes: Sizes, ops: seq<Op>, k: Kind): nat {
    Cost(sizes, k, Peak(Init(sizes), ops, k))
  }

  lemma NothingSpent(sizes: Sizes)
    ensures Spent(Init(sizes)) == 0
  {
    forall k ensures Structs(Init(sizes), k) == {} {
      NothingCarved(sizes, k);
    }
  }
}
