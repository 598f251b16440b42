/**
 Every operation keeps the invariant, so it holds in every reachable state of the registry.
 */
module Preservation {
  import opened Links
  import opened Names
  import opened Arena
  import opened Registry
  import opened Sweeps
  import opened Invariant
  import opened Cascade

  // ---------------------------------------------------------------------------------------------
  // Lowering the top of the gap, and structs that are neither thread nor entry.

  lemma BaseLower(r: Reg, r': Reg)
    requires Base(r) && GapOk(r') && r'.gap.top <= r.gap.top
    requires r'.comps == r.comps && r'.functs == r.functs && r'.params == r.params && r'.pins == r.pins
    requires r'.threads == r.threads && r'.w == r.w
    ensures Base(r')
  {
  }

  lemma PoolLink(p: Pool, g: Gap, i: nat, x: Off, name: map<Off, string>)
    requires PoolOk(p, g) && i <= |p.live| && x !in p.live && x !in p.free && g.top <= x
    ensures PoolOk(p.(live := Inserted(p.live, i, x), name := name), g)
  {
    DistinctInserted(p.live, i, x);
  }

  /** The allocator's part of an operation: the gap stays well formed and only its top moves. */
  ghost predicate GapMoved(g: Gap, g': Gap) {
    g'.bot == g.bot <= g'.top <= g.top
  }

  /** What `Register` makes of a well-formed, sorted pool. */
  ghost predicate RegisterOk(p: Pool, g: Gap, key: string, k: Registered) {
    var names := NamesOf(p.live, p.name);
    && PoolOk(k.pool, k.gap) && NamesSorted(k.pool) && GapMoved(g, k.gap)
    && (k.status == Ok <==> k.x != 0 && key !in names)
    && (k.status == Ok ==> k.pool.live == Inserted(p.live, Slot(names, key), k.x))
    && (k.status == Ok ==> NamesOf(k.pool.live, k.pool.name) == Inserted(names, Slot(names, key), key))
    && (k.status != Ok ==> k.pool.live == p.live && NamesOf(k.pool.live, k.pool.name) == names)
    && (k.x != 0 ==> k.x !in p.live && k.gap.top <= k.x)
    && (forall y | y in p.live :: Get(k.pool.name, y, "") == Get(p.name, y, ""))
    && (forall y | y in k.pool.live :: y in p.live || (k.status == Ok && y == k.x))
    && (forall y | y in p.live || (k.status == Ok && y == k.x) :: y in k.pool.live)
  }

  lemma RegisterEffect(p: Pool, g: Gap, size: nat, key: string)
    requires PoolOk(p, g) && NamesSorted(p) && 0 < g.bot <= g.top && size > 0
    ensures RegisterOk(p, g, key, Register(p, g, size, key))
  {
    var k := Take(p, g, size);
    var names := NamesOf(p.live, p.name);
    TakeFresh(p, g, size);
    HasNameIffMember(names, key);
    if k.x != 0 {
      NamesFrame(p.live, p.name, k.pool.name);
      if HasName(names, key) {
        PoolGive(k.pool, k.gap, k.x);
        NamesFrame(p.live, p.name, Give(k.pool, k.x).name);
      } else {
        PoolLink(k.pool, k.gap, Slot(names, key), k.x, k.pool.name[k.x := key]);
        SortedInsert(k.pool, k.x, key);
        DistinctInserted(p.live, Slot(names, key), k.x);
      }
    }
  }

  // ---------------------------------------------------------------------------------------------
  // Components.

  /** What an operation that only touches components may do. */
  ghost predicate CompsMoved(r: Reg, r': Reg) {
    && r' == r.(gap := r'.gap, comps := r'.comps, compMem := r'.compMem, lastId := r'.lastId)
    && GapMoved(r.gap, r'.gap) && PoolOk(r'.comps, r'.gap) && IdsOk(r')
    && forall c | c in r.comps.live :: c in r'.comps.live
  }

  lemma CompsChanged(r: Reg, r': Reg)
    requires Inv(r) && CompsMoved(r, r')
    ensures Inv(r')
  {
  }

  /** The registry with a new component in struct `k.x`. */
  function WithComp(r: Reg, k: Taken, id: int): Reg {
    r.(lastId := id, gap := k.gap, compMem := r.compMem[k.x := Comp(id, true, false)],
       comps := k.pool.(live := [k.x] + k.pool.live))
  }

  /** `hal_init` registers the new struct, or at most spends the module id. */
  lemma InitCases(r: Reg, name: string, id: int)
    ensures var r' := HalInit(r, name, id).reg; var k := Take(r.comps, r.gap, r.sizes.comp);
      r' == r || (id >= 0 && r' == r.(lastId := id)) || (id >= 0 && k.x != 0 && r' == WithComp(r, k, id))
  {
  }

  lemma WithCompMoves(r: Reg, id: int)
    requires GapOk(r) && PoolOk(r.comps, r.gap) && IdsOk(r) && 0 <= id && id > r.lastId
    ensures var k := Take(r.comps, r.gap, r.sizes.comp); k.x != 0 ==> CompsMoved(r, WithComp(r, k, id))
  {
    var k := Take(r.comps, r.gap, r.sizes.comp);
    if k.x != 0 {
      TakeFresh(r.comps, r.gap, r.sizes.comp);
      PoolLink(k.pool, k.gap, 0, k.x, k.pool.name);
      assert Inserted(k.pool.live, 0, k.x) == [k.x] + k.pool.live;
      InitIds(r, WithComp(r, k, id), k.x, id);
    }
  }

  lemma InitMoves(r: Reg, name: string, id: int)
    requires GapOk(r) && PoolOk(r.comps, r.gap) && IdsOk(r) && (id < 0 || id > r.lastId)
    ensures CompsMoved(r, HalInit(r, name, id).reg)
  {
    InitCases(r, name, id);
    if id >= 0 {
      WithCompMoves(r, id);
      assert CompsMoved(r, r.(lastId := id));
    }
  }

  lemma InitKeepsInv(r: Reg, name: string, id: int)
    requires Inv(r) && (id < 0 || id > r.lastId)
    ensures Inv(HalInit(r, name, id).reg)
  {
    InitMoves(r, name, id);
    CompsChanged(r, HalInit(r, name, id).reg);
  }

  lemma InitIds(r: Reg, r': Reg, x: Off, id: int)
    requires IdsOk(r) && x !in r.comps.live && id > r.lastId && id >= 0 && r'.lastId == id
    requires r'.comps.live == [x] + r.comps.live && r'.compMem == r.compMem[x := Comp(id, true, false)]
    requires r'.comps.name == r.comps.name[x := ""]
    ensures IdsOk(r')
  {
    forall y | y in r'.comps.live ensures y == x || y in r.comps.live {}
    assert r'.C(x).id == id && forall y | y in r.comps.live :: r'.C(y) == r.C(y);
  }

  /** `hal_init` promises a unique name; it only refuses the empty name, and only when some component exists. */
  lemma InitRefusesOnlyEmptyName(r: Reg, name: string, id: int)
    requires Inv(r) && id > r.lastId && id >= 0 && |name| <= HAL_NAME_LEN
    ensures HalInit(r, name, id).status == Einval <==> name == "" && r.comps.live != []
  {
    var i := NameIndex(r.comps.live, r.comps.name, name);
    if i < |r.comps.live| {
      assert r.comps.live[i] in r.comps.live;
    }
    if r.comps.live != [] {
      assert r.comps.live[0] in r.comps.live;
    }
  }

  lemma ReadyKeepsInv(r: Reg, id: int, ready: bool)
    requires Inv(r)
    ensures Inv(HalSetReady(r, id, ready).reg)
  {
    var r' := HalSetReady(r, id, ready).reg;
    assert forall x :: r'.C(x).id == r.C(x).id;
    CompsChanged(r, r');
  }

  // ---------------------------------------------------------------------------------------------
  // Parameters and pins: a sorted insert, or back to the free list.

  ghost predicate ParamsMoved(r: Reg, r': Reg) {
    && r' == r.(gap := r'.gap, params := r'.params, paramOwner := r'.paramOwner)
    && GapMoved(r.gap, r'.gap) && PoolOk(r'.params, r'.gap) && NamesSorted(r'.params)
    && forall x | x in r'.params.live :: Get(r'.paramOwner, x, 0) in r.comps.live
  }

  lemma ParamsChanged(r: Reg, r': Reg)
    requires Inv(r) && ParamsMoved(r, r')
    ensures Inv(r')
  {
  }

  lemma ParamMoves(r: Reg, r': Reg, k: Registered, name: string, c: Off)
    requires RegisterOk(r.params, r.gap, name, k) && (k.status == Ok ==> c in r.comps.live)
    requires forall x | x in r.params.live :: Get(r.paramOwner, x, 0) in r.comps.live
    requires r' == r.(params := k.pool, gap := k.gap,
      paramOwner := if k.x == 0 then r.paramOwner else r.paramOwner[k.x := if k.status == Ok then c else 0])
    ensures ParamsMoved(r, r')
  {
  }

  lemma ParamKeepsInv(r: Reg, name: string, typeOk: bool, dirOk: bool, inShm: bool, id: int)
    requires Inv(r)
    ensures Inv(ParamNew(r, name, typeOk, dirOk, inShm, id).reg)
  {
    var r' := ParamNew(r, name, typeOk, dirOk, inShm, id).reg;
    if r' != r {
      var k := Register(r.params, r.gap, r.sizes.param, name);
      RegisterEffect(r.params, r.gap, r.sizes.param, name);
      ParamMoves(r, r', k, name, FindId(r.comps.live, r.compMem, id));
      ParamsChanged(r, r');
    }
  }

  ghost predicate PinsMoved(r: Reg, r': Reg) {
    && r' == r.(gap := r'.gap, pins := r'.pins, pinOwner := r'.pinOwner)
    && GapMoved(r.gap, r'.gap) && PoolOk(r'.pins, r'.gap) && NamesSorted(r'.pins)
  }

  lemma PinsChanged(r: Reg, r': Reg)
    requires Inv(r) && PinsMoved(r, r')
    ensures Inv(r')
  {
  }

  lemma PinKeepsInv(r: Reg, name: string, typeOk: bool, inShm: bool, id: int)
    requires Inv(r)
    ensures Inv(PinNew(r, name, typeOk, inShm, id).reg)
  {
    RegisterEffect(r.pins, r.gap, r.sizes.pin, name);
    PinsChanged(r, PinNew(r, name, typeOk, inShm, id).reg);
  }

  // ---------------------------------------------------------------------------------------------
  // Functions.

  /** A struct no entry names may be rewritten: links and counts of the others do not see it. */
  lemma RewriteFunct(w: Wiring, x: Off, v: Funct, ts: seq<Off>, tm: map<Off, Thread>, known: set<Off>)
    requires LinksOk(w, ts, tm, known) && CountsOk(w, ts, known) && x !in known && x != 0
    ensures var w' := w.(functMem := w.functMem[x := v]);
      && LinksOk(w', ts, tm, known) && CountsOk(w', ts, known)
      && Uses(w', ts, x) == 0
      && (v.users == 0 ==> LinksOk(w', ts, tm, known + {x}) && CountsOk(w', ts, known + {x}))
  {
    var w' := w.(functMem := w.functMem[x := v]);
    forall t, e | t in ts && e in w'.RingOf(t)
      ensures EntryOk(w', Get(tm, t, NO_THREAD), e, known) && EntryOk(w', Get(tm, t, NO_THREAD), e, known + {x})
      ensures w'.E(e).funct != x
    {
      assert e in w.RingOf(t) && EntryOk(w, Get(tm, t, NO_THREAD), e, known);
    }
    UsesPositive(w', ts, x);
    forall f | f in known ensures CountOk(w', ts, f) {
      assert CountOk(w, ts, f);
      UsesFrame(w, w', ts, f);
    }
  }

  lemma WiringRewrite(w: Wiring, x: Off, v: Funct, threads: Pool, top: int, top': int)
    requires RingsBase(w, threads, top) && top' <= top
    ensures RingsBase(w.(functMem := w.functMem[x := v]), threads, top')
  {
    assert AllRings(w.(functMem := w.functMem[x := v])) == AllRings(w);
  }

  /** The parts of the invariant that speak about functions. */
  ghost predicate FunctParts(r: Reg) {
    && GapOk(r) && PoolOk(r.functs, r.gap) && NamesSorted(r.functs) && Distinct(r.threads.live)
    && RingsBase(r.w, r.threads, r.gap.top) && Linked(r)
    && forall f | f in r.functs.live :: r.w.F(f).owner in r.comps.live
  }

  ghost predicate FunctsMoved(r: Reg, r': Reg) {
    && r' == r.(gap := r'.gap, functs := r'.functs, w := r'.w)
    && GapMoved(r.gap, r'.gap) && PoolOk(r'.functs, r'.gap) && NamesSorted(r'.functs)
    && RingsBase(r'.w, r'.threads, r'.gap.top) && Linked(r')
    && forall f | f in r'.functs.live :: r'.w.F(f).owner in r.comps.live
  }

  lemma FunctsChanged(r: Reg, r': Reg)
    requires Inv(r) && FunctsMoved(r, r')
    ensures Inv(r')
  {
  }

  lemma ExportWiring(r: Reg, x: Off, v: Funct, top: int)
    requires RingsBase(r.w, r.threads, r.gap.top) && Linked(r)
    requires x != 0 && x !in r.functs.live && v.users == 0 && top <= r.gap.top
    ensures var w' := r.w.(functMem := r.w.functMem[x := v]); var ts := r.threads.live;
      && RingsBase(w', r.threads, top)
      && LinksOk(w', ts, r.threadMem, Live(r.functs)) && CountsOk(w', ts, Live(r.functs))
      && LinksOk(w', ts, r.threadMem, Live(r.functs) + {x}) && CountsOk(w', ts, Live(r.functs) + {x})
      && forall f | f in r.functs.live :: w'.F(f).owner == r.w.F(f).owner
  {
    RewriteFunct(r.w, x, v, r.threads.live, r.threadMem, Live(r.functs));
    WiringRewrite(r.w, x, v, r.threads, r.gap.top, top);
  }

  lemma ExportMoves(r: Reg, r': Reg, k: Registered, name: string, v: Funct)
    requires RegisterOk(r.functs, r.gap, name, k)
    requires RingsBase(r.w, r.threads, r.gap.top) && Linked(r)
    requires forall f | f in r.functs.live :: r.w.F(f).owner in r.comps.live
    requires v.users == 0 && (k.status == Ok ==> v.owner in r.comps.live)
    requires r' == r.(functs := k.pool, gap := k.gap,
      w := if k.x == 0 then r.w else r.w.(functMem := r.w.functMem[k.x := v]))
    ensures FunctsMoved(r, r')
  {
    if k.x == 0 {
      assert Live(k.pool) == Live(r.functs);
    } else {
      ExportWiring(r, k.x, v, k.gap.top);
      assert Live(k.pool) == if k.status == Ok then Live(r.functs) + {k.x} else Live(r.functs);
    }
  }

  /** What an export that got as far as a struct leaves. */
  lemma ExportCases(r: Reg, name: string, code: Code, fp: bool, reentrant: bool, id: int)
    ensures var o := Export(r, name, code, fp, reentrant, id); var k := Register(r.functs, r.gap, r.sizes.funct, name);
      var c := FindId(r.comps.live, r.compMem, id);
      || (o.reg == r && o.status != Ok)
      || (o.status == k.status && r.C(c).id == id
        && o.reg == r.(functs := k.pool, gap := k.gap, w := Exported(r.w, k, Funct(fp, reentrant, 0, c, code))))
  {
  }

  lemma ExportKeepsInv(r: Reg, name: string, code: Code, fp: bool, reentrant: bool, id: int)
    requires Inv(r)
    ensures Inv(Export(r, name, code, fp, reentrant, id).reg)
  {
    var r' := Export(r, name, code, fp, reentrant, id).reg;
    if r' != r {
      var k := Register(r.functs, r.gap, r.sizes.funct, name);
      var v := if k.status == Ok then Funct(fp, reentrant, 0, FindId(r.comps.live, r.compMem, id), code) else NO_FUNCT;
      RegisterEffect(r.functs, r.gap, r.sizes.funct, name);
      ExportMoves(r, r', k, name, v);
      FunctsChanged(r, r');
    }
  }

  // ---------------------------------------------------------------------------------------------
  // Threads.

  lemma NotMember(a: Rings, x: Off)
    requires x !in Members(a)
    ensures forall k | k in a :: x !in a[k]
  {
    forall k | k in a ensures x in a[k] ==> x in Members(a) {}
  }

  lemma OffEveryRing(a: Rings, x: Off)
    requires forall k: Off :: !On(a, k, x)
    ensures forall k: Off | k in a :: x !in a[k]
  {
    forall k: Off | k in a ensures x in a[k] ==> On(a, k, x) {}
  }

  lemma NoMember(a: Rings, x: Off)
    requires forall k: Off | k in a :: x !in a[k]
    ensures x !in Members(a)
  {
  }

  /** A new, empty ring for a struct that is on no ring. */
  lemma NewRing(w: Wiring, x: Off)
    requires RingShape(w) && x !in w.rings && x != ENTRY_FREE && x !in Members(AllRings(w))
    ensures var w' := w.(rings := w.rings[x := []]);
      RingShape(w') && Members(AllRings(w')) == Members(AllRings(w))
  {
    var w' := w.(rings := w.rings[x := []]);
    var a, a' := AllRings(w), AllRings(w');
    assert a' == a[x := []];
    NotMember(a, x);
    assert forall k, y | On(a', k, y) :: On(a, k, y) || (k == x && y == x);
    assert forall k :: !On(a, k, x);
    forall e ensures e in Members(a') <==> e in Members(a) {
      if e in Members(a) {
        var k :| k in a && e in a[k];
        assert e in a'[k];
      }
    }
  }

  lemma DropRing(w: Wiring, x: Off)
    requires RingShape(w) && x in w.rings && w.rings[x] == []
    ensures var w' := w.(rings := w.rings - {x});
      RingShape(w') && Members(AllRings(w')) == Members(AllRings(w))
  {
    var w' := w.(rings := w.rings - {x});
    var a, a' := AllRings(w), AllRings(w');
    assert forall k | k in a' :: k in a && a'[k] == a[k];
    assert forall k, y | On(a', k, y) :: On(a, k, y);
    forall e ensures e in Members(a') <==> e in Members(a) {
      if e in Members(a) {
        var k :| k in a && e in a[k];
        assert k in a' && e in a'[k];
      }
      if e in Members(a') {
        var k :| k in a' && e in a'[k];
        assert k in a && e in a[k];
      }
    }
  }

  /** Links and counts look only at the rings and contents of the listed threads. */
  lemma ThreadsSame(w: Wiring, w': Wiring, ts: seq<Off>, tm: map<Off, Thread>, tm': map<Off, Thread>, known: set<Off>)
    requires LinksOk(w, ts, tm, known) && CountsOk(w, ts, known)
    requires w'.functMem == w.functMem && w'.entryMem == w.entryMem
    requires forall t | t in ts :: w'.RingOf(t) == w.RingOf(t) && Get(tm', t, NO_THREAD) == Get(tm, t, NO_THREAD)
    ensures LinksOk(w', ts, tm', known) && CountsOk(w', ts, known)
  {
    forall t, e | t in ts && e in w'.RingOf(t) ensures EntryOk(w', Get(tm', t, NO_THREAD), e, known) {
      assert EntryOk(w, Get(tm, t, NO_THREAD), e, known);
    }
    forall f | f in known ensures CountOk(w', ts, f) {
      assert CountOk(w, ts, f);
      UsesFrame(w, w', ts, f);
    }
  }

  ghost predicate Linking(r: Reg, r': Reg, k: Taken, name: string) {
    && FindName(r.threads.live, r.threads.name, name) == 0
    && r' == r.(gap := k.gap, w := r.w.(rings := r.w.rings[k.x := []]), threadMem := r'.threadMem, basePeriod := r'.basePeriod,
      threads := k.pool.(live := [k.x] + k.pool.live, name := k.pool.name[k.x := name]))
    && forall t | t != k.x :: r'.T(t) == r.T(t)
  }

  ghost predicate RollingBack(r: Reg, r': Reg, k: Taken) {
    && r' == r.(gap := k.gap, threads := r'.threads, threadMem := r'.threadMem, running := r'.running,
      basePeriod := r'.basePeriod, w := r.w.(rings := r.w.rings[k.x := []] - {k.x}))
    && r'.threads == Give(k.pool.(name := r'.threads.name), k.x)
    && forall t | t != k.x :: r'.T(t) == r.T(t) && r'.ThreadName(t) == Get(k.pool.name, t, "")
  }

  lemma RollBack(r: Reg, r2: Reg, k: Taken)
    requires k.x != 0 && r2 == r.(gap := k.gap, threads := r2.threads, threadMem := r2.threadMem,
      basePeriod := r2.basePeriod, w := r.w.(rings := r.w.rings[k.x := []]))
    requires r2.threads == k.pool.(name := k.pool.name[k.x := r2.ThreadName(k.x)])
    requires forall t | t != k.x :: r2.T(t) == r.T(t)
    ensures RollingBack(r, FreeThread(r2, k.x), k)
  {
    assert EmptyRing(r2.w, k.x) == r2.w;
  }

  /** `hal_create_thread` links the thread, rolls it back, or changes nothing. */
  lemma CreateCases(r: Reg, name: string, period: ULong, fp: bool, priority: int, newOk: bool, startOk: bool)
    ensures var o := CreateThread(r, name, period, fp, priority, newOk, startOk); var k := Take(r.threads, r.gap, r.sizes.thread);
      || (o.reg == r && o.status != Ok)
      || (k.x != 0 && o.reg.basePeriod == SetClock(r, period).basePeriod
        && (o.status == Ok ==> o.reg.T(k.x) == Thread(fp, ToLong(period), priority))
        && if o.status == Ok then Linking(r, o.reg, k, name) else RollingBack(r, o.reg, k))
  {
    var o := CreateThread(r, name, period, fp, priority, newOk, startOk);
    var k := Take(r.threads, r.gap, r.sizes.thread);
    if o.reg != r && o.status != Ok {
      RollBack(r, SetClock(NewThread(r, k, name, fp), period), k);
    }
  }

  lemma CreateMoves(r: Reg, name: string, period: ULong, fp: bool, priority: int, newOk: bool, startOk: bool)
    requires ThreadParts(r)
    ensures var r' := CreateThread(r, name, period, fp, priority, newOk, startOk).reg;
      r' == r || ThreadsMoved(r, r')
  {
    var o := CreateThread(r, name, period, fp, priority, newOk, startOk);
    var k := Take(r.threads, r.gap, r.sizes.thread);
    CreateCases(r, name, period, fp, priority, newOk, startOk);
    if o.reg != r {
      if o.status == Ok {
        CreateLinked(r, o.reg, k, name);
      } else {
        CreateRolledBack(r, o.reg, k);
      }
    }
  }

  lemma CreateKeepsInv(r: Reg, name: string, period: ULong, fp: bool, priority: int, newOk: bool, startOk: bool)
    requires Inv(r)
    ensures Inv(CreateThread(r, name, period, fp, priority, newOk, startOk).reg)
  {
    var r' := CreateThread(r, name, period, fp, priority, newOk, startOk).reg;
    CreateMoves(r, name, period, fp, priority, newOk, startOk);
    if r' != r {
      ThreadsChanged(r, r');
    }
  }

  lemma TakeThread(r: Reg, k: Taken)
    requires GapOk(r) && PoolOk(r.threads, r.gap) && RingsBase(r.w, r.threads, r.gap.top)
    requires k == Take(r.threads, r.gap, r.sizes.thread)
    ensures GapMoved(r.gap, k.gap) && PoolOk(k.pool, k.gap) && k.pool.live == r.threads.live
    ensures forall t | t in k.pool.free :: t in r.threads.free
    ensures k.x == 0 ==> k.pool == r.threads && k.gap == r.gap
    ensures k.x != 0 ==>
      && k.x !in k.pool.live && k.x !in k.pool.free && k.gap.top <= k.x && k.pool.name == r.threads.name[k.x := ""]
      && k.x !in Members(AllRings(r.w)) && k.x != ENTRY_FREE
  {
    TakeFresh(r.threads, r.gap, r.sizes.thread);
    if k.x != 0 && r.threads.free != [] {
      assert r.threads.free == [k.x] + k.pool.free;
      assert k.x in r.threads.free;
    }
  }

  /** The parts of the invariant that speak about threads. */
  ghost predicate ThreadParts(r: Reg) {
    && GapOk(r) && PoolOk(r.threads, r.gap) && ThreadNamesUnique(r)
    && RingsBase(r.w, r.threads, r.gap.top) && Linked(r)
  }

  ghost predicate ThreadsMoved(r: Reg, r': Reg) {
    && r' == r.(gap := r'.gap, threads := r'.threads, threadMem := r'.threadMem, w := r'.w,
                running := r'.running, basePeriod := r'.basePeriod)
    && GapMoved(r.gap, r'.gap) && PoolOk(r'.threads, r'.gap) && ThreadNamesUnique(r')
    && RingsBase(r'.w, r'.threads, r'.gap.top) && Linked(r')
    && forall f | f in r.functs.live :: r'.w.F(f) == r.w.F(f).(users := r'.w.F(f).users)
  }

  lemma ThreadsChanged(r: Reg, r': Reg)
    requires Inv(r) && ThreadsMoved(r, r')
    ensures Inv(r')
  {
  }

  lemma CreateLinked(r: Reg, r': Reg, k: Taken, name: string)
    requires ThreadParts(r) && k == Take(r.threads, r.gap, r.sizes.thread) && k.x != 0 && Linking(r, r', k, name)
    ensures ThreadsMoved(r, r')
  {
    TakeThread(r, k);
    var ts := r.threads.live;
    PoolLink(k.pool, k.gap, 0, k.x, k.pool.name[k.x := name]);
    assert Inserted(k.pool.live, 0, k.x) == [k.x] + k.pool.live;
    NewRing(r.w, k.x);
    forall t | t in ts ensures Get(r'.threadMem, t, NO_THREAD) == Get(r.threadMem, t, NO_THREAD) {
      assert r'.T(t) == r.T(t);
    }
    ThreadsSame(r.w, r'.w, ts, r.threadMem, r'.threadMem, Live(r.functs));
    NewThreadLinks(r'.w, ts, k.x, r'.threadMem, Live(r.functs));
    NewThreadName(r, r', k.x, name);
  }

  /** A thread with an empty ring at the head of the list adds no link and no use. */
  lemma NewThreadLinks(w: Wiring, ts: seq<Off>, x: Off, tm: map<Off, Thread>, known: set<Off>)
    requires LinksOk(w, ts, tm, known) && CountsOk(w, ts, known) && w.RingOf(x) == []
    ensures LinksOk(w, [x] + ts, tm, known) && CountsOk(w, [x] + ts, known)
  {
    assert ([x] + ts)[1..] == ts;
    forall f | f in known ensures CountOk(w, [x] + ts, f) {
      assert CountOk(w, ts, f);
    }
  }

  lemma NewThreadName(r: Reg, r': Reg, x: Off, name: string)
    requires ThreadNamesUnique(r) && x !in r.threads.live && 0 !in r.threads.live
    requires FindName(r.threads.live, r.threads.name, name) == 0
    requires r'.threads.live == [x] + r.threads.live && r'.threads.name == r.threads.name[x := ""][x := name]
    ensures ThreadNamesUnique(r')
  {
    var i := NameIndex(r.threads.live, r.threads.name, name);
    assert i == |r.threads.live|;
    forall t | t in r.threads.live ensures r'.ThreadName(t) == r.ThreadName(t) != name {
      var k :| 0 <= k < |r.threads.live| && r.threads.live[k] == t;
    }
  }

  lemma CreateRolledBack(r: Reg, r': Reg, k: Taken)
    requires ThreadParts(r) && k == Take(r.threads, r.gap, r.sizes.thread) && k.x != 0 && RollingBack(r, r', k)
    ensures ThreadsMoved(r, r')
  {
    TakeThread(r, k);
    assert r.w.rings[k.x := []] - {k.x} == r.w.rings;
    assert r'.w == r.w;
    PoolGive(k.pool, k.gap, k.x);
    RolledBackThreads(r, r', k);
    ThreadsSame(r.w, r'.w, r.threads.live, r.threadMem, r'.threadMem, Live(r.functs));
  }

  lemma RolledBackThreads(r: Reg, r': Reg, k: Taken)
    requires ThreadNamesUnique(r) && RollingBack(r, r', k) && k.x !in r.threads.live
    requires k.pool.live == r.threads.live && k.pool.name == r.threads.name[k.x := ""]
    ensures ThreadNamesUnique(r') && forall t | t in r.threads.live :: Get(r'.threadMem, t, NO_THREAD) == Get(r.threadMem, t, NO_THREAD)
  {
    forall t | t in r.threads.live
      ensures Get(r'.threadMem, t, NO_THREAD) == Get(r.threadMem, t, NO_THREAD) && r'.ThreadName(t) == r.ThreadName(t)
    {
      assert r'.T(t) == r.T(t) && r'.ThreadName(t) == Get(k.pool.name, t, "");
    }
  }

  // ---------------------------------------------------------------------------------------------
  // hal_app_exit.

  /** One iteration of the thread loop of `hal_app_exit`. */
  function DropThread(r: Reg): Reg
    requires r.threads.live != []
  {
    FreeThread(r.(threads := r.threads.(live := r.threads.live[1..])), r.threads.live[0])
  }

  lemma DropThreadWiring(r: Reg)
    requires RingShape(r.w) && r.threads.live != [] && r.threads.live[0] in r.w.rings
    ensures var t := r.threads.live[0]; var w' := DropThread(r).w;
      && RingShape(w') && Members(AllRings(w')) == Members(AllRings(r.w))
      && w'.rings == r.w.rings - {t}
      && OffRing(r.w, w', t)
      && forall f | f != 0 :: w'.F(f) == r.w.F(f).(users := r.w.F(f).users - Count(r.w.RingOf(t), r.w.entryMem, f))
  {
    var t := r.threads.live[0];
    var w1 := EmptyRing(r.w, t);
    EmptyRingSafe(r.w, t);
    EmptyRingRings(r.w, t);
    DropRing(w1, t);
    assert w1.rings - {t} == r.w.rings - {t};
    forall f | f != 0 ensures w1.F(f) == r.w.F(f).(users := r.w.F(f).users - Count(r.w.RingOf(t), r.w.entryMem, f)) {
      EmptyRingCounts(r.w, t, f);
    }
    forall u, e | u in r.w.rings && u != t && e in r.w.rings[u] ensures DropThread(r).w.E(e) == r.w.E(e) {
      assert w1.E(e) == r.w.E(e);
    }
  }

  lemma DropThreadLinks(w: Wiring, w': Wiring, t: Off, ts: seq<Off>, tm: map<Off, Thread>, tm': map<Off, Thread>, known: set<Off>)
    requires LinksOk(w, [t] + ts, tm, known) && CountsOk(w, [t] + ts, known) && t !in ts
    requires w'.rings == w.rings - {t} && OffRing(w, w', t) && (forall u | u in ts :: u in w.rings)
    requires forall f | f != 0 :: w'.F(f) == w.F(f).(users := w.F(f).users - Count(w.RingOf(t), w.entryMem, f))
    requires forall u | u in ts :: Get(tm', u, NO_THREAD) == Get(tm, u, NO_THREAD)
    ensures LinksOk(w', ts, tm', known) && CountsOk(w', ts, known)
  {
    assert ([t] + ts)[1..] == ts;
    forall f | f in known ensures f != 0 && CountOk(w', ts, f) {
      assert CountOk(w, [t] + ts, f);
      forall u | u in ts ensures Count(w.RingOf(u), w.entryMem, f) == Count(w'.RingOf(u), w'.entryMem, f) {
        forall e | e in w.rings[u] ensures w'.E(e) == w.E(e) {}
        CountFrame(w.rings[u], w.entryMem, w'.entryMem, f);
      }
      UsesFrame(w, w', ts, f);
    }
    forall u, e | u in ts && e in w'.RingOf(u) ensures EntryOk(w', Get(tm', u, NO_THREAD), e, known) {
      assert u in [t] + ts && e in w.RingOf(u) && EntryOk(w, Get(tm, u, NO_THREAD), e, known);
      assert w'.E(e) == w.E(e);
    }
  }

  lemma DropThreadPool(r: Reg)
    requires PoolOk(r.threads, r.gap) && r.threads.live != []
    ensures PoolOk(DropThread(r).threads, r.gap)
    ensures r.threads.live[0] !in r.threads.live[1..]
    ensures forall t :: t in r.threads.live[1..] <==> t in r.threads.live && t != r.threads.live[0]
  {
    var t, ts := r.threads.live[0], r.threads.live[1..];
    assert r.threads.live == [t] + ts;
    PoolWithout(r.threads, r.gap, 0);
    assert Without(r.threads.live, 0) == ts;
    PoolGive(r.threads.(live := ts), r.gap, t);
  }

  lemma DropThreadNames(r: Reg)
    requires ThreadNamesUnique(r) && r.threads.live != []
    requires forall t | t in r.threads.live[1..] :: t in r.threads.live && t != r.threads.live[0]
    ensures ThreadNamesUnique(DropThread(r))
  {
    forall u | u in r.threads.live[1..] ensures DropThread(r).ThreadName(u) == r.ThreadName(u) {}
  }

  lemma DropThreadLinked(r: Reg)
    requires RingsBase(r.w, r.threads, r.gap.top) && Linked(r) && r.threads.live != []
    requires r.threads.live[0] !in r.threads.live[1..]
    ensures Linked(DropThread(r))
  {
    var t, ts := r.threads.live[0], r.threads.live[1..];
    assert r.threads.live == [t] + ts;
    DropThreadWiring(r);
    DropThreadLinks(r.w, DropThread(r).w, t, ts, r.threadMem, DropThread(r).threadMem, Live(r.functs));
  }

  lemma DropThreadMoves(r: Reg)
    requires ThreadParts(r) && r.threads.live != []
    requires forall f | f in r.functs.live :: f != 0
    ensures ThreadsMoved(r, DropThread(r))
  {
    DropThreadPool(r);
    DropThreadNames(r);
    DropThreadWiring(r);
    DropThreadLinked(r);
  }

  lemma DropThreadInv(r: Reg)
    requires Inv(r) && r.threads.live != []
    ensures Inv(DropThread(r))
  {
    DropThreadMoves(r);
    ThreadsChanged(r, DropThread(r));
  }

  /** The thread loop touches threads and wiring only. */
  lemma {:induction false} FreeThreadsFrame(r: Reg)
    ensures var r' := FreeThreads(r);
      r' == r.(w := r'.w, threads := r'.threads, threadMem := r'.threadMem, running := r'.running)
    decreases |r.threads.live|
  {
    if r.threads.live != [] {
      FreeThreadsFrame(DropThread(r));
    }
  }

  lemma {:induction false} FreeThreadsKeepsInv(r: Reg)
    requires Inv(r)
    ensures Inv(FreeThreads(r)) && FreeThreads(r).threads.live == []
    decreases |r.threads.live|
  {
    if r.threads.live != [] {
      DropThreadInv(r);
      FreeThreadsKeepsInv(DropThread(r));
    }
  }

  // ---------------------------------------------------------------------------------------------
  // Adding and removing a function.

  /** The entry handed out is on no ring, and the rings are as before but for it. */
  lemma TakeEntryEffect(r: Reg)
    requires GapOk(r) && RingsBase(r.w, r.threads, r.gap.top) && EntryAvailable(r)
    requires forall t | t in r.threads.live || t in r.threads.free :: r.gap.top <= t
    ensures var e, r1 := TakenEntry(r), TakeEntry(r);
      && RingsBase(r1.w, r1.threads, r1.gap.top) && GapMoved(r.gap, r1.gap) && r1 == r.(gap := r1.gap, w := r.w.(entryFree := r1.w.entryFree))
      && e !in Members(AllRings(r1.w)) && r1.gap.top <= e && e != ENTRY_FREE
      && e !in r.threads.live && e !in r.threads.free
      && (r.w.entryFree != [] ==> r1.w.entryFree == r.w.entryFree[1..] && r1.gap == r.gap && e == r.w.entryFree[0])
      && (r.w.entryFree == [] ==> r1.w == r.w && e + r.sizes.entry <= r.gap.top)
  {
    DnBelow(r.gap, r.sizes.entry);
    if r.w.entryFree != [] {
      PopEntry(r.w);
      assert r.w.entryFree[0] in Members(AllRings(r.w));
    }
  }

  lemma PopEntry(w: Wiring)
    requires RingShape(w) && w.entryFree != []
    ensures var w' := w.(entryFree := w.entryFree[1..]);
      && RingShape(w') && w.entryFree[0] !in Members(AllRings(w')) && w.entryFree[0] in Members(AllRings(w))
      && Members(AllRings(w')) <= Members(AllRings(w))
  {
    var e := w.entryFree[0];
    var w' := w.(entryFree := w.entryFree[1..]);
    var a, a' := AllRings(w), AllRings(w');
    assert w.entryFree == [e] + w'.entryFree;
    assert forall k | k in a' :: k in a && forall y | y in a'[k] :: y in a[k];
    assert On(a, ENTRY_FREE, e) && e in a[ENTRY_FREE] && !On(a', ENTRY_FREE, e);
    assert forall k, y | On(a', k, y) :: On(a, k, y);
    forall k: Off, y: Off | k in a' && y in a'[k] ensures y in Members(a) {
      assert y in a[k];
    }
    OffEveryRing(a', e);
    NoMember(a', e);
  }

  lemma PlaceEntryShape(w: Wiring, e: Off, f: Off, t: Off, i: nat)
    requires RingShape(w) && t in w.rings && i <= |w.rings[t]| && e !in Members(AllRings(w)) && e !in AllRings(w)
    ensures var w' := PlaceEntry(w, e, f, t, i);
      && RingShape(w') && Members(AllRings(w')) == Members(AllRings(w)) + {e}
  {
    var w' := PlaceEntry(w, e, f, t, i);
    var a, a' := AllRings(w), AllRings(w');
    NotMember(a, e);
    assert a[t] == w.rings[t];
    DistinctInserted(w.rings[t], i, e);
    assert a'[t] == Inserted(a[t], i, e);
    assert forall k, y | On(a', k, y) :: On(a, k, y) || (k == t && y == e);
    assert forall k :: !On(a, k, e);
    forall y ensures y in Members(a') <==> y in Members(a) || y == e {
      if y in Members(a) {
        var k :| k in a && y in a[k];
        assert y in a'[k];
      }
      if y in Members(a') {
        var k :| k in a' && y in a'[k];
        assert y == e || y in a[k];
      }
      assert e in a'[t];
    }
  }

  lemma PlaceEntryCounts(w: Wiring, e: Off, f: Off, t: Off, i: nat, ts: seq<Off>, g: Off)
    requires t in w.rings && t in ts && Distinct(ts) && i <= |w.rings[t]| && (forall u | u in ts :: u in w.rings && e !in w.rings[u])
    requires g != 0
    ensures var w' := PlaceEntry(w, e, f, t, i);
      Uses(w', ts, g) == Uses(w, ts, g) + if g == f then 1 else 0
  {
    var w' := PlaceEntry(w, e, f, t, i);
    forall u | u in ts ensures Count(w.rings[u], w.entryMem, g) == Count(w.rings[u], w'.entryMem, g) {
      CountFrame(w.rings[u], w.entryMem, w'.entryMem, g);
    }
    CountInserted(w.rings[t], i, e, w'.entryMem, g);
    UsesOneRing(w, w', ts, t, g);
  }

  lemma PlaceEntryLinks(w: Wiring, e: Off, f: Off, t: Off, i: nat, ts: seq<Off>, tm: map<Off, Thread>, known: set<Off>)
    requires LinksOk(w, ts, tm, known) && CountsOk(w, ts, known) && f in known
    requires t in w.rings && t in ts && Distinct(ts) && i <= |w.rings[t]| && (forall u | u in ts :: u in w.rings && e !in w.rings[u])
    requires !(w.F(f).users > 0 && !w.F(f).reentrant) && (w.F(f).fp ==> Get(tm, t, NO_THREAD).fp)
    ensures LinksOk(PlaceEntry(w, e, f, t, i), ts, tm, known) && CountsOk(PlaceEntry(w, e, f, t, i), ts, known)
  {
    var w' := PlaceEntry(w, e, f, t, i);
    InsertedMembers(w.rings[t], i, e);
    forall u, x | u in ts && x in w'.RingOf(u) ensures EntryOk(w', Get(tm, u, NO_THREAD), x, known) {
      if x != e {
        assert x in w.RingOf(u) && EntryOk(w, Get(tm, u, NO_THREAD), x, known);
      }
    }
    forall g | g in known ensures CountOk(w', ts, g) {
      assert CountOk(w, ts, g);
      PlaceEntryCounts(w, e, f, t, i, ts, g);
    }
  }

  /** A name that is found belongs to a listed struct. */
  lemma FoundName(s: seq<Off>, name: map<Off, string>, key: string)
    ensures var x := FindName(s, name, key); x != 0 ==> x in s && Get(name, x, "") == key
  {
  }

  lemma AddKeepsInv(r: Reg, fname: string, tname: string, position: int)
    requires Inv(r) && Enabled(r, OpAdd(fname, tname, position))
    ensures Inv(AddFunct(r, fname, tname, position).reg)
  {
    var f, t := FunctNamed(r, fname), ThreadNamed(r, tname);
    if !Locked(r.lock, HAL_LOCK_CONFIG) && AddAccepted(r, f, t, position) {
      FoundName(r.functs.live, r.functs.name, fname);
      FoundName(r.threads.live, r.threads.name, tname);
      var i := PlaceFor(|r.w.RingOf(t)|, position).index;
      var e, r1 := TakenEntry(r), TakeEntry(r);
      TakeEntryEffect(r);
      AddWiring(r, r1, e, f, t, i);
      FunctsChanged(r, r1.(w := PlaceEntry(r1.w, e, f, t, i)));
    }
  }

  /** `r1` is the registry with entry `e` taken out of the free ring, or carved. */
  ghost predicate EntryTaken(r: Reg, r1: Reg, e: Off) {
    && r1 == r.(gap := r1.gap, w := r.w.(entryFree := r1.w.entryFree))
    && RingsBase(r1.w, r1.threads, r1.gap.top) && GapMoved(r.gap, r1.gap)
    && e !in Members(AllRings(r1.w)) && r1.gap.top <= e && e != ENTRY_FREE && e !in r.threads.live && e !in r.threads.free
  }

  lemma AddRings(r: Reg, r1: Reg, e: Off, f: Off, t: Off, i: nat)
    requires EntryTaken(r, r1, e) && t in r.threads.live && i <= |r.w.RingOf(t)|
    ensures RingsBase(PlaceEntry(r1.w, e, f, t, i), r.threads, r1.gap.top)
    ensures forall u | u in r.threads.live :: u in r1.w.rings && e !in r1.w.rings[u]
  {
    NotMember(AllRings(r1.w), e);
    forall u | u in r.threads.live ensures u in r1.w.rings && e !in r1.w.rings[u] {
      assert AllRings(r1.w)[u] == r1.w.rings[u];
    }
    PlaceEntryShape(r1.w, e, f, t, i);
  }

  lemma AddWiring(r: Reg, r1: Reg, e: Off, f: Off, t: Off, i: nat)
    requires FunctParts(r) && EntryTaken(r, r1, e)
    requires f in r.functs.live && t in r.threads.live && i <= |r.w.RingOf(t)|
    requires !(r.w.F(f).users > 0 && !r.w.F(f).reentrant) && !(r.w.F(f).fp && !r.T(t).fp)
    ensures FunctsMoved(r, r1.(w := PlaceEntry(r1.w, e, f, t, i)))
  {
    var w' := PlaceEntry(r1.w, e, f, t, i);
    AddRings(r, r1, e, f, t, i);
    AddLinked(r, r1, e, f, t, i);
    forall g ensures w'.F(g).owner == r.w.F(g).owner {}
  }

  lemma AddLinked(r: Reg, r1: Reg, e: Off, f: Off, t: Off, i: nat)
    requires Linked(r) && EntryTaken(r, r1, e) && Distinct(r.threads.live)
    requires f in r.functs.live && t in r.threads.live && i <= |r.w.RingOf(t)|
    requires !(r.w.F(f).users > 0 && !r.w.F(f).reentrant) && !(r.w.F(f).fp && !r.T(t).fp)
    ensures Linked(r1.(w := PlaceEntry(r1.w, e, f, t, i)))
  {
    AddRings(r, r1, e, f, t, i);
    ThreadsSame(r.w, r1.w, r.threads.live, r.threadMem, r.threadMem, Live(r.functs));
    PlaceEntryLinks(r1.w, e, f, t, i, r.threads.live, r.threadMem, Live(r.functs));
  }

  /** Freeing entry `i` of thread `t` takes one use from its function and leaves the other links. */
  lemma DropEntryLinks(w: Wiring, t: Off, i: nat, ts: seq<Off>, tm: map<Off, Thread>, known: set<Off>)
    requires RingShape(w) && LinksOk(w, ts, tm, known) && CountsOk(w, ts, known)
    requires t in w.rings && t in ts && Distinct(ts) && i < |w.rings[t]| && forall u | u in ts :: u in w.rings
    ensures var w' := FreeEntry(Unlink(w, t, i), w.rings[t][i]);
      LinksOk(w', ts, tm, known) && CountsOk(w', ts, known)
  {
    var e := w.rings[t][i];
    var f := w.E(e).funct;
    var w' := FreeEntry(Unlink(w, t, i), e);
    FreeOne(w, t, i);
    DistinctWithout(w.rings[t], i);
    assert e in w.RingOf(t) && EntryOk(w, Get(tm, t, NO_THREAD), e, known);
    forall u, x | u in ts && x in w'.RingOf(u) ensures EntryOk(w', Get(tm, u, NO_THREAD), x, known) {
      assert x in w.RingOf(u) && EntryOk(w, Get(tm, u, NO_THREAD), x, known);
      if u != t { assert On(AllRings(w), u, x) && On(AllRings(w), t, e); }
    }
    forall g | g in known ensures CountOk(w', ts, g) {
      assert CountOk(w, ts, g);
      DropEntryCount(w, t, i, ts, g);
    }
  }

  lemma DropEntryCount(w: Wiring, t: Off, i: nat, ts: seq<Off>, g: Off)
    requires RingShape(w) && t in w.rings && t in ts && Distinct(ts) && i < |w.rings[t]| && g != 0
    requires forall u | u in ts :: u in w.rings
    ensures var e := w.rings[t][i]; var w' := FreeEntry(Unlink(w, t, i), e);
      && Uses(w', ts, g) == Uses(w, ts, g) - (if w.E(e).funct == g then 1 else 0)
      && w'.F(g) == w.F(g).(users := w.F(g).users - if w.E(e).funct == g then 1 else 0)
  {
    var s := w.rings[t];
    var e := s[i];
    var w' := FreeEntry(Unlink(w, t, i), e);
    FreeOne(w, t, i);
    FreeOneUse(Unlink(w, t, i), e, g);
    DistinctWithout(s, i);
    CountWithout(s, i, w.entryMem, g);
    CountFrame(Without(s, i), w.entryMem, w'.entryMem, g);
    forall u | u in ts && u != t ensures Count(w.RingOf(u), w.entryMem, g) == Count(w'.RingOf(u), w'.entryMem, g) {
      forall x | x in w.rings[u] ensures w'.E(x) == w.E(x) {}
      CountFrame(w.rings[u], w.entryMem, w'.entryMem, g);
    }
    UsesOneRing(w, w', ts, t, g);
  }

  lemma DelKeepsInv(r: Reg, fname: string, tname: string)
    requires Inv(r)
    ensures Inv(DelFunct(r, fname, tname).reg)
  {
    var f, t := FunctNamed(r, fname), ThreadNamed(r, tname);
    if !Locked(r.lock, HAL_LOCK_CONFIG) && f != 0 && r.w.F(f).users != 0 && t != 0 {
      FoundName(r.threads.live, r.threads.name, tname);
      var j := FirstUse(r.w, t, f, 0);
      if j < |r.w.RingOf(t)| {
        DelWiring(r, t, j);
        FunctsChanged(r, r.(w := FreeEntry(Unlink(r.w, t, j), r.w.RingOf(t)[j])));
      }
    }
  }

  lemma DelWiring(r: Reg, t: Off, j: nat)
    requires FunctParts(r) && t in r.threads.live && j < |r.w.RingOf(t)|
    ensures FunctsMoved(r, r.(w := FreeEntry(Unlink(r.w, t, j), r.w.RingOf(t)[j])))
  {
    var w' := FreeEntry(Unlink(r.w, t, j), r.w.RingOf(t)[j]);
    FreeOne(r.w, t, j);
    DropEntryLinks(r.w, t, j, r.threads.live, r.threadMem, Live(r.functs));
    forall g | g in r.functs.live ensures w'.F(g).owner == r.w.F(g).owner {}
  }

  // ---------------------------------------------------------------------------------------------
  // All operations, all runs.

  lemma StepKeepsInv(r: Reg, op: Op)
    requires Inv(r) && Enabled(r, op)
    ensures Inv(Step(r, op).reg)
  {
    match op
    case OpInit(name, id) => InitKeepsInv(r, name, id);
    case OpExit(id) => ExitKeepsInv(r, id);
    case OpReady(id, ready) => ReadyKeepsInv(r, id, ready);
    case OpExport(name, code, fp, reentrant, id) => ExportKeepsInv(r, name, code, fp, reentrant, id);
    case OpParam(name, typeOk, dirOk, inShm, id) => ParamKeepsInv(r, name, typeOk, dirOk, inShm, id);
    case OpPin(name, typeOk, inShm, id) => PinKeepsInv(r, name, typeOk, inShm, id);
    case _ => ThreadStepKeepsInv(r, op);
  }

  lemma ThreadStepKeepsInv(r: Reg, op: Op)
    requires Inv(r) && Enabled(r, op)
    requires op.OpCreate? || op.OpAdd? || op.OpDel? || op.OpAppExit? || op.OpMalloc? || op.OpStart? || op.OpStop? || op.OpLock?
    ensures Inv(Step(r, op).reg)
  {
    match op
    case OpCreate(name, period, fp, priority, newOk, startOk) =>
      CreateKeepsInv(r, name, period, fp, priority, newOk, startOk);
    case OpAdd(fname, tname, position) => AddKeepsInv(r, fname, tname, position);
    case OpDel(fname, tname) => DelKeepsInv(r, fname, tname);
    case OpAppExit => AppExitKeepsInv(r);
    case OpMalloc(size) => MallocKeepsInv(r, size);
    case _ => FlagsStepKeepsInv(r, op);
  }

  lemma FlagsStepKeepsInv(r: Reg, op: Op)
    requires Inv(r) && (op.OpStart? || op.OpStop? || op.OpLock?)
    ensures Inv(Step(r, op).reg)
  {
    FlagsOnly(r, op);
    FlagsKeepInv(r, Step(r, op).reg);
  }

  lemma FlagsOnly(r: Reg, op: Op)
    requires op.OpStart? || op.OpStop? || op.OpLock?
    ensures var r' := Step(r, op).reg; r' == r.(lock := r'.lock, state := r'.state, running := r'.running)
  {
  }

  lemma FlagsKeepInv(r: Reg, r': Reg)
    requires Inv(r) && r' == r.(lock := r'.lock, state := r'.state, running := r'.running)
    ensures Inv(r')
  {
  }

  lemma AppExitKeepsInv(r: Reg)
    requires Inv(r)
    ensures Inv(AppExit(r).reg)
  {
    FreeThreadsKeepsInv(r.(state := ShuttingDown));
  }

  lemma MallocKeepsInv(r: Reg, size: int)
    requires Inv(r) && size >= 0
    ensures Inv(Malloc(r, size).reg)
  {
    UpTakesLeast(r.gap, size);
    BaseLower(r, Malloc(r, size).reg);
  }

  lemma InitInv(sizes: Sizes)
    requires sizes.Valid() && sizes.header <= HAL_SIZE
    ensures Inv(Init(sizes))
  {
    var r := Init(sizes);
    assert Members(AllRings(r.w)) == {};
  }

  /** The invariant holds after every run of operations from the initialised segment. */
  lemma {:induction false} ReachableInv(r: Reg, ops: seq<Op>)
    requires Inv(r) && EnabledRun(r, ops)
    ensures Inv(Run(r, ops))
    decreases |ops|
  {
    if ops != [] {
      StepKeepsInv(r, ops[0]);
      ReachableInv(Step(r, ops[0]).reg, ops[1..]);
    }
  }
}
