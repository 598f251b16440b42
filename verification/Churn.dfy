/**
 Conservation of carved structs.

 Structs are never given back to the gap; they move between a list in use and a free list.  For
 every kind, the structs ever carved are those in use and those free, and their number is the
 largest number that were in use at once.
 */
module Churn {
  import opened Links
  import opened Names
  import opened Arena
  import opened Registry
  import opened Sweeps
  import opened Invariant
  import opened Cascade
  import opened Preservation

  datatype Kind = KComp | KFunct | KParam | KPin | KThread | KEntry

  function PoolOf(r: Reg, k: Kind): Pool
    requires !k.KEntry?
  {
    match k
    case KComp => r.comps
    case KFunct => r.functs
    case KParam => r.params
    case KPin => r.pins
    case KThread => r.threads
  }

  function SizeOf(s: Sizes, k: Kind): nat {
    match k
    case KComp => s.comp
    case KFunct => s.funct
    case KParam => s.param
    case KPin => s.pin
    case KThread => s.thread
    case KEntry => s.entry
  }

  ghost function InPool(p: Pool): set<Off> {
    SetOf(p.live) + SetOf(p.free)
  }

  /** The structs of a kind in use: listed, or on some thread's ring. */
  ghost function Used(r: Reg, k: Kind): set<Off> {
    if k.KEntry? then Members(r.w.rings) else SetOf(PoolOf(r, k).live)
  }

  ghost function Free(r: Reg, k: Kind): set<Off> {
    if k.KEntry? then SetOf(r.w.entryFree) else SetOf(PoolOf(r, k).free)
  }

  ghost function Structs(r: Reg, k: Kind): set<Off> {
    Used(r, k) + Free(r, k)
  }

  /** The kind of struct an operation gets past all its checks to allocate. */
  predicate Reaches(r: Reg, op: Op, k: Kind) {
    match op
    case OpInit(name, id) => k == KComp && |name| <= HAL_NAME_LEN && id >= 0 && FindName(r.comps.live, r.comps.name, name) == 0
    case OpExport(name, _, _, _, id) =>
      var c := FindId(r.comps.live, r.compMem, id);
      k == KFunct && |name| <= HAL_NAME_LEN && !Locked(r.lock, HAL_LOCK_LOAD) && c != 0 && r.C(c).realtime && !r.C(c).ready
    case OpParam(name, typeOk, dirOk, inShm, id) =>
      var c := FindId(r.comps.live, r.compMem, id);
      && k == KParam && typeOk && dirOk && |name| <= HAL_NAME_LEN && !Locked(r.lock, HAL_LOCK_LOAD)
      && c != 0 && inShm && !r.C(c).ready
    case OpPin(name, typeOk, inShm, id) =>
      var c := FindId(r.comps.live, r.compMem, id);
      k == KPin && typeOk && |name| <= HAL_NAME_LEN && !Locked(r.lock, HAL_LOCK_LOAD) && c != 0 && inShm && !r.C(c).ready
    case OpCreate(name, period, _, _, _, _) =>
      && k == KThread && period != 0 && |name| <= HAL_NAME_LEN && !Locked(r.lock, HAL_LOCK_CONFIG)
      && FindName(r.threads.live, r.threads.name, name) == 0
    case OpAdd(fname, tname, position) =>
      && k == KEntry && !Locked(r.lock, HAL_LOCK_CONFIG)
      && AddAccepted(r, FunctNamed(r, fname), ThreadNamed(r, tname), position)
    case _ => false
  }

  /** The struct the allocation of this kind would hand out; null if there is none. */
  function Next(r: Reg, k: Kind): Off {
    if k.KEntry? then (if EntryAvailable(r) then TakenEntry(r) else 0)
    else Take(PoolOf(r, k), r.gap, SizeOf(r.sizes, k)).x
  }

  predicate Allocates(r: Reg, op: Op, k: Kind) {
    Reaches(r, op, k) && Next(r, k) != 0
  }

  /** The struct an operation carves from the gap, if any. */
  ghost function Fresh(r: Reg, op: Op, k: Kind): set<Off> {
    if Allocates(r, op, k) && Free(r, k) == {} then {Next(r, k)} else {}
  }

  // ---------------------------------------------------------------------------------------------
  // Pools through the cascades.

  lemma GiveConserves(p: Pool, i: nat)
    requires i < |p.live|
    ensures InPool(Give(p.(live := Without(p.live, i)), p.live[i])) == InPool(p)
  {
    var s := Without(p.live, i);
    assert p.live == p.live[..i] + [p.live[i]] + p.live[i + 1..];
    forall x ensures x in p.live <==> x in s || x == p.live[i] {}
  }

  lemma {:induction false} FreeFunctsConserve(r: Reg, c: Off, i: nat)
    requires i <= |r.functs.live|
    ensures InPool(FreeFuncts(r, c, i).functs) == InPool(r.functs)
    decreases |r.functs.live| - i
  {
    if i < |r.functs.live| {
      FreeFunctsUnfold(r, c, i);
      if r.w.F(r.functs.live[i]).owner == c {
        GiveConserves(r.functs, i);
        FreeFunctsConserve(DropFunct(r, i), c, i);
      } else {
        FreeFunctsConserve(r, c, i + 1);
      }
    }
  }

  lemma {:induction false} FreeParamsConserve(r: Reg, c: Off, i: nat)
    requires i <= |r.params.live|
    ensures InPool(FreeParams(r, c, i).params) == InPool(r.params)
    decreases |r.params.live| - i
  {
    if i < |r.params.live| {
      FreeParamsUnfold(r, c, i);
      if Get(r.paramOwner, r.params.live[i], 0) == c {
        GiveConserves(r.params, i);
        FreeParamsConserve(DropParam(r, i), c, i);
      } else {
        FreeParamsConserve(r, c, i + 1);
      }
    }
  }

  lemma {:induction false} FreeThreadsConserve(r: Reg)
    requires Inv(r)
    ensures var r' := FreeThreads(r);
      && InPool(r'.threads) == InPool(r.threads) && Members(AllRings(r'.w)) == Members(AllRings(r.w))
      && r'.params == r.params && r'.pins == r.pins && r'.gap == r.gap
    decreases |r.threads.live|
  {
    if r.threads.live != [] {
      GiveConserves(r.threads, 0);
      assert Without(r.threads.live, 0) == r.threads.live[1..];
      DropThreadInv(r);
      DropThreadWiring(r);
      FreeThreadsConserve(DropThread(r));
    }
  }

  /** Entries in use and free entries together are the members of all rings. */
  lemma EntriesAreMembers(r: Reg)
    requires ENTRY_FREE !in r.w.rings
    ensures Structs(r, KEntry) == Members(AllRings(r.w))
  {
    var a := AllRings(r.w);
    forall x ensures x in Structs(r, KEntry) <==> x in Members(a) {
      if x in Members(r.w.rings) {
        var k :| k in r.w.rings && x in r.w.rings[k];
        assert k in a && x in a[k];
      }
      if x in r.w.entryFree {
        assert ENTRY_FREE in a && x in a[ENTRY_FREE];
      }
      if x in Members(a) {
        var k :| k in a && x in a[k];
        if k != ENTRY_FREE { assert k in r.w.rings && x in r.w.rings[k]; }
      }
    }
  }

  // ---------------------------------------------------------------------------------------------
  // One operation.

  lemma TakeConserves(p: Pool, g: Gap, size: nat)
    requires 0 !in p.free
    ensures var k := Take(p, g, size);
      InPool(k.pool) + (if k.x == 0 then {} else {k.x}) == InPool(p) + (if k.x != 0 && p.free == [] then {k.x} else {})
  {
    if p.free != [] {
      assert p.free == [p.free[0]] + p.free[1..];
    }
  }

  lemma InsertConserves(p: Pool, i: nat, x: Off, name: map<Off, string>)
    requires i <= |p.live|
    ensures InPool(p.(live := Inserted(p.live, i, x), name := name)) == InPool(p) + {x}
    ensures InPool(Give(p, x)) == InPool(p) + {x}
  {
    InsertedMembers(p.live, i, x);
  }

  lemma RegisterConserves(p: Pool, g: Gap, size: nat, key: string)
    requires 0 !in p.free
    ensures var k := Register(p, g, size, key);
      InPool(k.pool) == InPool(p) + (if k.x != 0 && p.free == [] then {k.x} else {}) && k.x == Take(p, g, size).x
  {
    TakeConserves(p, g, size);
    var k := Take(p, g, size);
    var i := Slot(NamesOf(k.pool.live, k.pool.name), key);
    InsertConserves(k.pool, i, k.x, k.pool.name[k.x := key]);
  }

  lemma ExitPools(r: Reg, i: nat)
    requires Core(r) && i < |r.comps.live|
    ensures var r1 := AfterFuncts(r, i); var r2 := FreeParams(r1, r.comps.live[i], 0);
      && InPool(r2.functs) == InPool(r.functs) && InPool(r2.params) == InPool(r.params)
      && r2.pins == r.pins && r2.threads == r.threads
      && InPool(Give(r2.comps, r.comps.live[i])) == InPool(r.comps)
  {
    var c := r.comps.live[i];
    GiveConserves(r.comps, i);
    DeletedFuncts(r, i);
    FreeFunctsConserve(r.(comps := r.comps.(live := Without(r.comps.live, i))), c, 0);
    FreeParamsConserve(AfterFuncts(r, i), c, 0);
    FreeParamsFrame(AfterFuncts(r, i), c, 0);
  }

  lemma ExitEntries(r: Reg, id: int)
    requires Inv(r) && HalExit(r, id).status == Ok
    ensures Structs(HalExit(r, id).reg, KEntry) == Structs(r, KEntry)
  {
    ExitDeletes(r, id);
    ExitKeepsInv(r, id);
    EntriesAreMembers(r);
    EntriesAreMembers(HalExit(r, id).reg);
  }

  lemma ExitKind(r: Reg, id: int, k: Kind)
    requires Core(r) && HalExit(r, id).status == Ok && k != KEntry
    ensures InPool(PoolOf(HalExit(r, id).reg, k)) == InPool(PoolOf(r, k))
  {
    ExitPools(r, IdIndex(r.comps.live, r.compMem, id));
  }

  lemma ExitConserves(r: Reg, id: int, k: Kind)
    requires Inv(r)
    ensures Structs(HalExit(r, id).reg, k) == Structs(r, k)
  {
    if HalExit(r, id).status == Ok {
      if k == KEntry { ExitEntries(r, id); } else { ExitKind(r, id, k); }
    } else {
      ExitRefused(r, id);
    }
  }

  lemma ExitRefused(r: Reg, id: int)
    ensures HalExit(r, id).status != Ok ==> HalExit(r, id).reg == r
  {
  }

  lemma AppExitEntries(r: Reg)
    requires Inv(r)
    ensures Structs(FreeThreads(r), KEntry) == Structs(r, KEntry)
  {
    FreeThreadsConserve(r);
    FreeThreadsKeepsInv(r);
    EntriesAreMembers(r);
    EntriesAreMembers(FreeThreads(r));
  }

  lemma AppExitPools(r: Reg, k: Kind)
    requires Inv(r) && k != KEntry
    ensures InPool(PoolOf(FreeThreads(r), k)) == InPool(PoolOf(r, k))
  {
    FreeThreadsConserve(r);
    FreeThreadsFrame(r);
  }

  lemma AppExitConserves(r: Reg, k: Kind)
    requires Inv(r)
    ensures Structs(AppExit(r).reg, k) == Structs(r, k)
  {
    var r0 := r.(state := ShuttingDown);
    assert Inv(r0) && Structs(r0, k) == Structs(r, k);
    if r.state != Destroyed {
      if k == KEntry { AppExitEntries(r0); } else { AppExitPools(r0, k); }
    }
  }

  // From one pool, or from the rings, to the structs of a kind.

  /** The struct operation `op` allocates of kind `k`; null if it does not allocate one. */
  ghost function Allocated(r: Reg, op: Op, k: Kind): Off {
    if Reaches(r, op, k) then Next(r, k) else 0
  }

  lemma PoolStructs(r: Reg, r': Reg, op: Op, k: Kind)
    requires !k.KEntry?
    requires var x := Allocated(r, op, k);
      InPool(PoolOf(r', k)) == InPool(PoolOf(r, k)) + if x != 0 && PoolOf(r, k).free == [] then {x} else {}
    ensures Structs(r', k) == Structs(r, k) + Fresh(r, op, k)
  {
    if PoolOf(r, k).free != [] {
      assert PoolOf(r, k).free[0] in Free(r, k);
    }
  }

  lemma EntryStructs(r: Reg, r': Reg, op: Op)
    requires ENTRY_FREE !in r.w.rings && ENTRY_FREE !in r'.w.rings
    requires var x := Allocated(r, op, KEntry);
      Members(AllRings(r'.w)) == Members(AllRings(r.w)) + if x != 0 && r.w.entryFree == [] then {x} else {}
    ensures Structs(r', KEntry) == Structs(r, KEntry) + Fresh(r, op, KEntry)
  {
    EntriesAreMembers(r);
    EntriesAreMembers(r');
    if r.w.entryFree != [] {
      assert r.w.entryFree[0] in Free(r, KEntry);
    }
  }

  lemma AddRingsConserve(r: Reg, fname: string, tname: string, position: int)
    requires FunctParts(r) && PoolOk(r.threads, r.gap) && Enabled(r, OpAdd(fname, tname, position))
    ensures var r' := AddFunct(r, fname, tname, position).reg; var x := Allocated(r, OpAdd(fname, tname, position), KEntry);
      && ENTRY_FREE !in r'.w.rings
      && Members(AllRings(r'.w)) == Members(AllRings(r.w)) + if x != 0 && r.w.entryFree == [] then {x} else {}
  {
    var f, t := FunctNamed(r, fname), ThreadNamed(r, tname);
    if Reaches(r, OpAdd(fname, tname, position), KEntry) {
      FoundName(r.threads.live, r.threads.name, tname);
      TakeEntryEffect(r);
      AddConservesAt(r, TakeEntry(r), TakenEntry(r), f, t, PlaceFor(|r.w.RingOf(t)|, position).index);
    }
  }

  lemma AddConservesAt(r: Reg, r1: Reg, e: Off, f: Off, t: Off, i: nat)
    requires EntryTaken(r, r1, e) && t in r.threads.live && i <= |r.w.RingOf(t)| && RingShape(r.w)
    requires r.w.entryFree != [] ==> r1.w.entryFree == r.w.entryFree[1..] && e == r.w.entryFree[0]
    requires r.w.entryFree == [] ==> r1.w == r.w
    ensures ENTRY_FREE !in PlaceEntry(r1.w, e, f, t, i).rings
    ensures Members(AllRings(PlaceEntry(r1.w, e, f, t, i))) ==
      Members(AllRings(r.w)) + (if r.w.entryFree == [] then {e} else {})
  {
    AddRings(r, r1, e, f, t, i);
    assert e !in AllRings(r1.w);
    PlaceEntryShape(r1.w, e, f, t, i);
    if r.w.entryFree != [] {
      PopMembers(r.w);
    }
  }

  lemma PopMembers(w: Wiring)
    requires ENTRY_FREE !in w.rings && w.entryFree != []
    ensures Members(AllRings(w)) == Members(AllRings(w.(entryFree := w.entryFree[1..]))) + {w.entryFree[0]}
  {
    var w' := w.(entryFree := w.entryFree[1..]);
    var a, a' := AllRings(w), AllRings(w');
    assert w.entryFree == [w.entryFree[0]] + w'.entryFree;
    forall x ensures x in Members(a) <==> x in Members(a') || x == w.entryFree[0] {
      if x in Members(a) {
        var k :| k in a && x in a[k];
        assert x == w.entryFree[0] || (k in a' && x in a'[k]);
      }
      if x in Members(a') {
        var k :| k in a' && x in a'[k];
        assert k in a && x in a[k];
      }
      assert w.entryFree[0] in a[ENTRY_FREE];
    }
  }

  lemma DelRingsConserve(r: Reg, fname: string, tname: string)
    requires RingsBase(r.w, r.threads, r.gap.top)
    ensures var r' := DelFunct(r, fname, tname).reg;
      ENTRY_FREE !in r'.w.rings && Members(AllRings(r'.w)) == Members(AllRings(r.w))
  {
    var f, t := FunctNamed(r, fname), ThreadNamed(r, tname);
    if DelFunct(r, fname, tname).status == Ok {
      FoundName(r.threads.live, r.threads.name, tname);
      MoveToFree(r.w, t, FirstUse(r.w, t, f, 0));
    }
  }

  lemma CreateRingsConserve(r: Reg, name: string, period: ULong, fp: bool, priority: int, newOk: bool, startOk: bool)
    requires ThreadParts(r)
    ensures var r' := CreateThread(r, name, period, fp, priority, newOk, startOk).reg;
      Members(AllRings(r'.w)) == Members(AllRings(r.w)) && ENTRY_FREE !in r'.w.rings
  {
    var o := CreateThread(r, name, period, fp, priority, newOk, startOk);
    var k := Take(r.threads, r.gap, r.sizes.thread);
    CreateCases(r, name, period, fp, priority, newOk, startOk);
    if o.reg != r || o.status == Ok {
      TakeThread(r, k);
      NewRingConserves(r.w, k.x);
    }
  }

  lemma NewRingConserves(w: Wiring, x: Off)
    requires RingShape(w) && x !in w.rings && x != ENTRY_FREE && x !in Members(AllRings(w))
    ensures Members(AllRings(w.(rings := w.rings[x := []]))) == Members(AllRings(w)) && w.rings[x := []] - {x} == w.rings
  {
    NewRing(w, x);
  }

  /** The thread pool after `hal_create_thread`: linked, rolled back, or not touched. */
  lemma CreatePool(r: Reg, name: string, period: ULong, fp: bool, priority: int, newOk: bool, startOk: bool)
    ensures var r' := CreateThread(r, name, period, fp, priority, newOk, startOk).reg; var k := Take(r.threads, r.gap, r.sizes.thread);
      if Reaches(r, OpCreate(name, period, fp, priority, newOk, startOk), KThread) && k.x != 0
      then (r'.threads.live == [k.x] + k.pool.live && r'.threads.free == k.pool.free)
        || (r'.threads.live == k.pool.live && r'.threads.free == [k.x] + k.pool.free)
      else r'.threads == r.threads
    ensures var r' := CreateThread(r, name, period, fp, priority, newOk, startOk).reg;
      r'.comps == r.comps && r'.functs == r.functs && r'.params == r.params && r'.pins == r.pins
  {
  }

  lemma LinkedOrGiven(p: Pool, p': Pool, k: Taken)
    requires k.x != 0 && InPool(k.pool) + {k.x} == InPool(p) + (if p.free == [] then {k.x} else {})
    requires (p'.live == [k.x] + k.pool.live && p'.free == k.pool.free) || (p'.live == k.pool.live && p'.free == [k.x] + k.pool.free)
    ensures InPool(p') == InPool(p) + (if p.free == [] then {k.x} else {})
  {
    assert forall y :: y in InPool(p') <==> y in InPool(k.pool) + {k.x};
  }

  lemma CreatePoolConserves(r: Reg, op: Op)
    requires op.OpCreate? && 0 !in r.threads.free
    ensures var x := Allocated(r, op, KThread);
      InPool(CreateThread(r, op.name, op.period, op.fp, op.priority, op.newOk, op.startOk).reg.threads) ==
        InPool(r.threads) + if x != 0 && r.threads.free == [] then {x} else {}
  {
    var k := Take(r.threads, r.gap, r.sizes.thread);
    CreatePool(r, op.name, op.period, op.fp, op.priority, op.newOk, op.startOk);
    TakeConserves(r.threads, r.gap, r.sizes.thread);
    if Reaches(r, op, KThread) && k.x != 0 {
      LinkedOrGiven(r.threads, CreateThread(r, op.name, op.period, op.fp, op.priority, op.newOk, op.startOk).reg.threads, k);
    }
  }

  lemma InitPool(r: Reg, name: string, id: int)
    requires 0 !in r.comps.free
    ensures var x := Allocated(r, OpInit(name, id), KComp);
      InPool(HalInit(r, name, id).reg.comps) == InPool(r.comps) + if x != 0 && r.comps.free == [] then {x} else {}
  {
    var t := Take(r.comps, r.gap, r.sizes.comp);
    TakeConserves(r.comps, r.gap, r.sizes.comp);
    InitPools(r, name, id);
    if Reaches(r, OpInit(name, id), KComp) && t.x != 0 {
      LinkedOrGiven(r.comps, HalInit(r, name, id).reg.comps, t);
    }
  }

  lemma InitPools(r: Reg, name: string, id: int)
    ensures var t := Take(r.comps, r.gap, r.sizes.comp);
      HalInit(r, name, id).reg.comps ==
        if Reaches(r, OpInit(name, id), KComp) && t.x != 0 then t.pool.(live := [t.x] + t.pool.live) else r.comps
  {
  }

  lemma ExportPool(r: Reg, op: Op)
    requires op.OpExport? && 0 !in r.functs.free
    ensures var x := Allocated(r, op, KFunct);
      InPool(Export(r, op.name, op.code, op.fp, op.reentrant, op.id).reg.functs) == InPool(r.functs) + if x != 0 && r.functs.free == [] then {x} else {}
  {
    ExportPools(r, op);
    RegisterConserves(r.functs, r.gap, r.sizes.funct, op.name);
  }

  lemma ExportPools(r: Reg, op: Op)
    requires op.OpExport?
    ensures Export(r, op.name, op.code, op.fp, op.reentrant, op.id).reg.functs ==
      if Reaches(r, op, KFunct) then Register(r.functs, r.gap, r.sizes.funct, op.name).pool else r.functs
  {
  }

  lemma ParamPool(r: Reg, op: Op)
    requires op.OpParam? && 0 !in r.params.free
    ensures var x := Allocated(r, op, KParam);
      InPool(ParamNew(r, op.name, op.typeOk, op.dirOk, op.inShm, op.id).reg.params) == InPool(r.params) + if x != 0 && r.params.free == [] then {x} else {}
  {
    ParamPools(r, op);
    RegisterConserves(r.params, r.gap, r.sizes.param, op.name);
  }

  lemma ParamPools(r: Reg, op: Op)
    requires op.OpParam?
    ensures ParamNew(r, op.name, op.typeOk, op.dirOk, op.inShm, op.id).reg.params ==
      if Reaches(r, op, KParam) then Register(r.params, r.gap, r.sizes.param, op.name).pool else r.params
  {
  }

  lemma PinPool(r: Reg, op: Op)
    requires op.OpPin? && 0 !in r.pins.free
    ensures var x := Allocated(r, op, KPin);
      InPool(PinNew(r, op.name, op.typeOk, op.inShm, op.id).reg.pins) == InPool(r.pins) + if x != 0 && r.pins.free == [] then {x} else {}
  {
    PinPools(r, op);
    RegisterConserves(r.pins, r.gap, r.sizes.pin, op.name);
  }

  lemma PinPools(r: Reg, op: Op)
    requires op.OpPin?
    ensures PinNew(r, op.name, op.typeOk, op.inShm, op.id).reg.pins ==
      if Reaches(r, op, KPin) then Register(r.pins, r.gap, r.sizes.pin, op.name).pool else r.pins
  {
  }

  /** A kind whose lists stay as they are, and of which the operation allocates nothing. */
  lemma SameStructs(r: Reg, r': Reg, op: Op, k: Kind)
    requires !Reaches(r, op, k)
    requires if k == KEntry then r'.w.rings == r.w.rings && r'.w.entryFree == r.w.entryFree else PoolOf(r', k) == PoolOf(r, k)
    ensures Structs(r', k) == Structs(r, k) + Fresh(r, op, k)
  {
  }

  lemma InitConserves(r: Reg, name: string, id: int, k: Kind)
    requires 0 !in r.comps.free
    ensures Structs(HalInit(r, name, id).reg, k) == Structs(r, k) + Fresh(r, OpInit(name, id), k)
  {
    var r' := HalInit(r, name, id).reg;
    if k == KComp {
      InitPool(r, name, id);
      PoolStructs(r, r', OpInit(name, id), k);
    } else {
      SameStructs(r, r', OpInit(name, id), k);
    }
  }

  lemma ExportConserves(r: Reg, op: Op, k: Kind)
    requires op.OpExport? && 0 !in r.functs.free
    ensures Structs(Export(r, op.name, op.code, op.fp, op.reentrant, op.id).reg, k) == Structs(r, k) + Fresh(r, op, k)
  {
    var r' := Export(r, op.name, op.code, op.fp, op.reentrant, op.id).reg;
    if k == KFunct {
      ExportPool(r, op);
      PoolStructs(r, r', op, k);
    } else {
      ExportOthers(r, op);
      SameStructs(r, r', op, k);
    }
  }

  lemma ExportOthers(r: Reg, op: Op)
    requires op.OpExport?
    ensures var r' := Export(r, op.name, op.code, op.fp, op.reentrant, op.id).reg;
      && r'.comps == r.comps && r'.params == r.params && r'.pins == r.pins && r'.threads == r.threads
      && r'.w.rings == r.w.rings && r'.w.entryFree == r.w.entryFree
  {
    ExportCases(r, op.name, op.code, op.fp, op.reentrant, op.id);
  }

  lemma ParamConserves(r: Reg, op: Op, k: Kind)
    requires op.OpParam? && 0 !in r.params.free
    ensures Structs(ParamNew(r, op.name, op.typeOk, op.dirOk, op.inShm, op.id).reg, k) == Structs(r, k) + Fresh(r, op, k)
  {
    var r' := ParamNew(r, op.name, op.typeOk, op.dirOk, op.inShm, op.id).reg;
    if k == KParam {
      ParamPool(r, op);
      PoolStructs(r, r', op, k);
    } else {
      SameStructs(r, r', op, k);
    }
  }

  lemma PinConserves(r: Reg, op: Op, k: Kind)
    requires op.OpPin? && 0 !in r.pins.free
    ensures Structs(PinNew(r, op.name, op.typeOk, op.inShm, op.id).reg, k) == Structs(r, k) + Fresh(r, op, k)
  {
    var r' := PinNew(r, op.name, op.typeOk, op.inShm, op.id).reg;
    if k == KPin {
      PinPool(r, op);
      PoolStructs(r, r', op, k);
    } else {
      SameStructs(r, r', op, k);
    }
  }

  lemma CreateThreads(r: Reg, op: Op)
    requires op.OpCreate? && 0 !in r.threads.free
    ensures Structs(Step(r, op).reg, KThread) == Structs(r, KThread) + Fresh(r, op, KThread)
  {
    CreatePoolConserves(r, op);
    PoolStructs(r, Step(r, op).reg, op, KThread);
  }

  lemma CreateEntries(r: Reg, op: Op)
    requires op.OpCreate? && ThreadParts(r)
    ensures Structs(Step(r, op).reg, KEntry) == Structs(r, KEntry) + Fresh(r, op, KEntry)
  {
    CreateRingsConserve(r, op.name, op.period, op.fp, op.priority, op.newOk, op.startOk);
    EntryStructs(r, Step(r, op).reg, op);
  }

  lemma CreateConserves(r: Reg, op: Op, k: Kind)
    requires op.OpCreate? && ThreadParts(r)
    ensures Structs(Step(r, op).reg, k) == Structs(r, k) + Fresh(r, op, k)
  {
    if k == KThread {
      CreateThreads(r, op);
    } else if k == KEntry {
      CreateEntries(r, op);
    } else {
      CreateOthers(r, op, k);
    }
  }

  lemma CreateOthers(r: Reg, op: Op, k: Kind)
    requires op.OpCreate? && k != KThread && k != KEntry
    ensures Structs(Step(r, op).reg, k) == Structs(r, k) + Fresh(r, op, k)
  {
    CreatePool(r, op.name, op.period, op.fp, op.priority, op.newOk, op.startOk);
    SameStructs(r, Step(r, op).reg, op, k);
  }

  lemma AddCases(r: Reg, fname: string, tname: string, position: int)
    ensures var r' := AddFunct(r, fname, tname, position).reg; r' == r || r' == TakeEntry(r).(w := r'.w)
  {
  }

  lemma TakeEntryPools(r: Reg)
    ensures TakeEntry(r) == r.(gap := TakeEntry(r).gap, w := TakeEntry(r).w)
  {
  }

  lemma AddOthers(r: Reg, op: Op, k: Kind)
    requires op.OpAdd? && k != KEntry
    ensures Structs(Step(r, op).reg, k) == Structs(r, k) + Fresh(r, op, k)
  {
    AddCases(r, op.fname, op.tname, op.position);
    TakeEntryPools(r);
    SameStructs(r, Step(r, op).reg, op, k);
  }

  lemma AddConserves(r: Reg, fname: string, tname: string, position: int, k: Kind)
    requires FunctParts(r) && PoolOk(r.threads, r.gap) && Enabled(r, OpAdd(fname, tname, position))
    ensures Structs(AddFunct(r, fname, tname, position).reg, k) == Structs(r, k) + Fresh(r, OpAdd(fname, tname, position), k)
  {
    var op := OpAdd(fname, tname, position);
    if k == KEntry {
      AddRingsConserve(r, fname, tname, position);
      EntryStructs(r, Step(r, op).reg, op);
    } else {
      AddOthers(r, op, k);
    }
  }

  lemma DelConserves(r: Reg, fname: string, tname: string, k: Kind)
    requires RingsBase(r.w, r.threads, r.gap.top)
    ensures Structs(DelFunct(r, fname, tname).reg, k) == Structs(r, k) + Fresh(r, OpDel(fname, tname), k)
  {
    var r' := DelFunct(r, fname, tname).reg;
    if k == KEntry {
      DelRingsConserve(r, fname, tname);
      EntryStructs(r, r', OpDel(fname, tname));
    } else {
      SameStructs(r, r', OpDel(fname, tname), k);
    }
  }

  lemma OtherConserves(r: Reg, op: Op, k: Kind)
    requires op.OpReady? || op.OpStart? || op.OpStop? || op.OpMalloc? || op.OpLock?
    ensures Structs(Step(r, op).reg, k) == Structs(r, k) + Fresh(r, op, k)
  {
    OtherPools(r, op);
    SameStructs(r, Step(r, op).reg, op, k);
  }

  lemma OtherPools(r: Reg, op: Op)
    requires op.OpReady? || op.OpStart? || op.OpStop? || op.OpMalloc? || op.OpLock?
    ensures var r' := Step(r, op).reg;
      r'.comps == r.comps && r'.functs == r.functs && r'.params == r.params && r'.pins == r.pins && r'.threads == r.threads && r'.w == r.w
  {
  }

  /** The structs of a kind after one operation: those before, and the one it carved, if it did. */
  lemma StepConserves(r: Reg, op: Op, k: Kind)
    requires Inv(r) && Enabled(r, op)
    ensures Structs(Step(r, op).reg, k) == Structs(r, k) + Fresh(r, op, k)
  {
    match op
    case OpInit(name, id) => InitConserves(r, name, id, k);
    case OpExport(_, _, _, _, _) => ExportConserves(r, op, k);
    case OpParam(_, _, _, _, _) => ParamConserves(r, op, k);
    case OpPin(_, _, _, _) => PinConserves(r, op, k);
    case OpCreate(_, _, _, _, _, _) => CreateConserves(r, op, k);
    case OpAdd(fname, tname, position) => AddConserves(r, fname, tname, position, k);
    case OpDel(fname, tname) => DelConserves(r, fname, tname, k);
    case OpExit(id) => ExitConserves(r, id, k);
    case OpAppExit => AppExitConserves(r, k);
    case _ => OtherConserves(r, op, k);
  }

  // ---------------------------------------------------------------------------------------------
  // Counting over a run.

  ghost function Max(a: nat, b: nat): nat { if a < b then b else a }

  /** Structs of the kind needed at once by an operation: those in use and the one it allocates. */
  ghost function Demand(r: Reg, op: Op, k: Kind): nat {
    |Used(r, k)| + if Allocates(r, op, k) then 1 else 0
  }

  /** The largest number in use at once over a run, a failed attempt in flight included. */
  ghost function Peak(r: Reg, ops: seq<Op>, k: Kind): nat
    decreases |ops|
  {
    if ops == [] then |Used(r, k)| else Max(Demand(r, ops[0], k), Peak(Step(r, ops[0]).reg, ops[1..], k))
  }

  /** In use and free are disjoint, and what is handed out next was not carved before. */
  lemma UsedFreeDisjoint(r: Reg, k: Kind)
    requires Inv(r)
    ensures Used(r, k) !! Free(r, k)
    ensures Free(r, k) == {} ==> Next(r, k) == 0 || Next(r, k) !in Structs(r, k)
  {
    if k.KEntry? {
      EntriesDisjoint(r.w);
      EntriesAreMembers(r);
      if r.w.entryFree == [] {
        DnBelow(r.gap, r.sizes.entry);
      } else {
        assert r.w.entryFree[0] in Free(r, k);
      }
    } else {
      NextFresh(PoolOf(r, k), r.gap, SizeOf(r.sizes, k));
    }
  }

  lemma NextFresh(p: Pool, g: Gap, size: nat)
    requires PoolOk(p, g) && 0 < g.bot <= g.top && size > 0
    ensures forall x | x in p.live :: x !in p.free
    ensures SetOf(p.free) == {} ==> Take(p, g, size).x == 0 || Take(p, g, size).x !in InPool(p)
  {
    TakeFresh(p, g, size);
    if p.free != [] {
      assert p.free[0] in SetOf(p.free);
    } else if Take(p, g, size).x != 0 {
      assert Take(p, g, size).x !in p.live;
    }
  }

  lemma EntriesDisjoint(w: Wiring)
    requires RingShape(w)
    ensures Members(w.rings) !! SetOf(w.entryFree)
  {
    forall x | x in Members(w.rings) ensures x !in w.entryFree {
      var k :| k in w.rings && x in w.rings[k];
      assert On(AllRings(w), k, x);
      assert x in w.entryFree ==> On(AllRings(w), ENTRY_FREE, x);
    }
  }

  lemma StepCount(r: Reg, op: Op, k: Kind)
    requires Inv(r) && Enabled(r, op)
    ensures |Structs(Step(r, op).reg, k)| == Max(|Structs(r, k)|, Demand(r, op, k))
  {
    StepConserves(r, op, k);
    UsedFreeDisjoint(r, k);
    CountStep(Used(r, k), Free(r, k), Allocates(r, op, k), Next(r, k));
  }

  lemma CountStep(used: set<Off>, free: set<Off>, allocates: bool, next: Off)
    requires used !! free && (allocates && free == {} ==> next !in used)
    ensures var carved := if allocates && free == {} then {next} else {};
      |used + free + carved| == Max(|used + free|, |used| + if allocates then 1 else 0)
  {
    CardDisjoint(used, free);
    CardDisjoint(used + free, if allocates && free == {} then {next} else {});
    if free != {} {
      var x :| x in free;
      assert free == {x} + (free - {x});
    }
  }

  lemma CardDisjoint(a: set<Off>, b: set<Off>)
    requires a !! b
    ensures |a + b| == |a| + |b|
  {
  }

  /**
   Conservation under churn: after any run the structs of a kind ever carved are the disjoint union
   of those in use and those free, and their number is the peak use of the run.
   */
  lemma {:induction false} CarvedIsPeak(r: Reg, ops: seq<Op>, k: Kind)
    requires Inv(r) && EnabledRun(r, ops)
    ensures |Structs(Run(r, ops), k)| == Max(|Structs(r, k)|, Peak(r, ops, k))
    decreases |ops|
  {
    if ops == [] {
      MoreThanUsed(r, k);
    } else {
      EnabledHead(r, ops);
      StepKeepsInv(r, ops[0]);
      CarvedIsPeak(Step(r, ops[0]).reg, ops[1..], k);
      PeakStep(r, ops, k);
    }
  }

  lemma {:induction false} PeakStep(r: Reg, ops: seq<Op>, k: Kind)
    requires Inv(r) && ops != [] && Enabled(r, ops[0])
    requires var r1 := Step(r, ops[0]).reg;
      |Structs(Run(r1, ops[1..]), k)| == Max(|Structs(r1, k)|, Peak(r1, ops[1..], k))
    ensures |Structs(Run(r, ops), k)| == Max(|Structs(r, k)|, Peak(r, ops, k))
  {
    StepCount(r, ops[0], k);
    PeakOne(r, ops, k);
  }

  lemma MoreThanUsed(r: Reg, k: Kind)
    requires Inv(r)
    ensures |Structs(r, k)| >= |Used(r, k)|
  {
    UsedFreeDisjoint(r, k);
    CardDisjoint(Used(r, k), Free(r, k));
  }

  lemma {:induction false} PeakOne(r: Reg, ops: seq<Op>, k: Kind)
    requires ops != []
    ensures Run(r, ops) == Run(Step(r, ops[0]).reg, ops[1..])
    ensures Peak(r, ops, k) == Max(Demand(r, ops[0], k), Peak(Step(r, ops[0]).reg, ops[1..], k))
  {
  }

  lemma EnabledHead(r: Reg, ops: seq<Op>)
    requires ops != [] && EnabledRun(r, ops)
    ensures Enabled(r, ops[0]) && EnabledRun(Step(r, ops[0]).reg, ops[1..])
  {
  }

  /** In every reachable state no struct is both in use and free. */
  lemma UsedFreeApart(r: Reg, ops: seq<Op>, k: Kind)
    requires Inv(r) && EnabledRun(r, ops)
    ensures Used(Run(r, ops), k) !! Free(Run(r, ops), k)
  {
    ReachableInv(r, ops);
    UsedFreeDisjoint(Run(r, ops), k);
  }

  /** Everything a run carves of a kind. */
  ghost function EverCarved(r: Reg, ops: seq<Op>, k: Kind): set<Off>
    decreases |ops|
  {
    if ops == [] then {} else Fresh(r, ops[0], k) + EverCarved(Step(r, ops[0]).reg, ops[1..], k)
  }

  /** What was carved is in use or free: nothing is lost and nothing appears. */
  lemma {:induction false} CarvedAreStructs(r: Reg, ops: seq<Op>, k: Kind)
    requires Inv(r) && EnabledRun(r, ops)
    ensures Structs(Run(r, ops), k) == Structs(r, k) + EverCarved(r, ops, k)
    decreases |ops|
  {
    if ops != [] {
      var r1 := Step(r, ops[0]).reg;
      EnabledHead(r, ops);
      StepKeepsInv(r, ops[0]);
      CarvedAreStructs(r1, ops[1..], k);
      StepConserves(r, ops[0], k);
      CarvedOne(r, ops, k);
    }
  }

  lemma {:induction false} CarvedOne(r: Reg, ops: seq<Op>, k: Kind)
    requires ops != []
    ensures Run(r, ops) == Run(Step(r, ops[0]).reg, ops[1..])
    ensures EverCarved(r, ops, k) == Fresh(r, ops[0], k) + EverCarved(Step(r, ops[0]).reg, ops[1..], k)
  {
  }

  lemma NothingCarved(sizes: Sizes, k: Kind)
    ensures Structs(Init(sizes), k) == {}
  {
  }

  /** From the initialised segment, what was ever carved is in use or free now, and its number is the peak use. */
  lemma CarvedIsPeakFromStart(sizes: Sizes, ops: seq<Op>, k: Kind)
    requires sizes.Valid() && sizes.header <= HAL_SIZE && EnabledRun(Init(sizes), ops)
    ensures EverCarved(Init(sizes), ops, k) == Structs(Run(Init(sizes), ops), k)
    ensures |EverCarved(Init(sizes), ops, k)| == Peak(Init(sizes), ops, k)
  {
    InitInv(sizes);
    NothingCarved(sizes, k);
    CarvedAreStructs(Init(sizes), ops, k);
    CarvedIsPeak(Init(sizes), ops, k);
  }

  // ---------------------------------------------------------------------------------------------
  // The gap.

  /** The one kind of struct an operation may allocate. */
  function KindFor(op: Op): Kind {
    match op
    case OpExport(_, _, _, _, _) => KFunct
    case OpParam(_, _, _, _, _) => KParam
    case OpPin(_, _, _, _) => KPin
    case OpCreate(_, _, _, _, _, _) => KThread
    case OpAdd(_, _, _) => KEntry
    case _ => KComp
  }

  predicate Allocating(op: Op) {
    op.OpInit? || op.OpExport? || op.OpParam? || op.OpPin? || op.OpCreate?
  }

  lemma OnlyKind(r: Reg, op: Op, k: Kind)
    requires k != KindFor(op) || !(Allocating(op) || op.OpAdd?)
    ensures Fresh(r, op, k) == {}
  {
  }

  ghost predicate Carves(r: Reg, op: Op) {
    Fresh(r, op, KindFor(op)) != {}
  }

  /** What an operation asks the allocator for, when it gets it or when it is memory it asks for. */
  ghost function Asks(r: Reg, op: Op): seq<Request> {
    if op.OpMalloc? then [FromBottom(op.size)]
    else if Carves(r, op) then [FromTop(SizeOf(r.sizes, KindFor(op)))]
    else []
  }

  /** The gap after one operation: `shmalloc_up` for memory, `shmalloc_dn` for a struct that is carved, else as it was. */
  lemma StepServes(r: Reg, op: Op)
    requires Inv(r) && Enabled(r, op)
    ensures Step(r, op).reg.gap == ServeAll(r.gap, Asks(r, op))
  {
    match op
    case OpInit(name, id) => TakeGap(r, op);
    case OpExport(_, _, _, _, _) => TakeGap(r, op);
    case OpParam(_, _, _, _, _) => TakeGap(r, op);
    case OpPin(_, _, _, _) => TakeGap(r, op);
    case OpCreate(_, _, _, _, _, _) => TakeGap(r, op);
    case OpAdd(fname, tname, position) => AddGap(r, op);
    case OpExit(id) => ExitDeletes(r, id); OnlyKind(r, op, KComp);
    case OpAppExit => FreeThreadsFrame(r.(state := ShuttingDown)); OnlyKind(r, op, KComp);
    case OpMalloc(size) => ServeOne(r.gap, FromBottom(size));
    case _ => OnlyKind(r, op, KComp);
  }

  lemma ServeOne(g: Gap, q: Request)
    ensures ServeAll(g, [q]) == Serve(g, q) && GivenAll(g, [q]) == Given(g, q)
  {
    assert GivenAll(g, [q]) == Given(g, q) + GivenAll(Serve(g, q), []);
  }

  lemma TakeGap(r: Reg, op: Op)
    requires Allocating(op)
    ensures Step(r, op).reg.gap == ServeAll(r.gap, Asks(r, op))
  {
    var k := KindFor(op);
    if Reaches(r, op, k) { TakenGap(r, op); }
    ReachedGap(r, op);
    ServeOne(r.gap, FromTop(SizeOf(r.sizes, k)));
  }

  lemma ReachedGap(r: Reg, op: Op)
    requires Allocating(op)
    ensures var k := KindFor(op);
      Step(r, op).reg.gap == if Reaches(r, op, k) then Take(PoolOf(r, k), r.gap, SizeOf(r.sizes, k)).gap else r.gap
  {
  }

  lemma TakenGap(r: Reg, op: Op)
    requires Allocating(op) && Reaches(r, op, KindFor(op))
    ensures var k := KindFor(op); var g := Take(PoolOf(r, k), r.gap, SizeOf(r.sizes, k)).gap;
      g == if Carves(r, op) then Dn(r.gap, SizeOf(r.sizes, k)) else r.gap
  {
    var p := PoolOf(r, KindFor(op));
    if p.free == [] {
      assert Free(r, KindFor(op)) == {};
    } else {
      assert p.free[0] in Free(r, KindFor(op));
    }
  }

  lemma AddGap(r: Reg, op: Op)
    requires op.OpAdd? && Enabled(r, op) && RingsBase(r.w, r.threads, r.gap.top) && GapOk(r)
    ensures Step(r, op).reg.gap == ServeAll(r.gap, Asks(r, op))
  {
    ServeOne(r.gap, FromTop(r.sizes.entry));
    if r.w.entryFree == [] {
      assert Free(r, KEntry) == {};
    } else {
      assert r.w.entryFree[0] in Free(r, KEntry);
    }
  }

  /** The gap moves only when a struct is carved or memory is asked for: churn alone never uses memory. */
  lemma NoCarveNoGrowth(r: Reg, op: Op)
    requires Inv(r) && Enabled(r, op) && !op.OpMalloc?
    requires forall k: Kind :: Fresh(r, op, k) == {}
    ensures Step(r, op).reg.gap == r.gap
  {
    StepServes(r, op);
  }
}
