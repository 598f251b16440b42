/**
 What each accepted operation leaves, field by field, and which refusal a refused one gets.

 The theorems about runs say what all operations keep.  These say of each operation that it did what
 it was asked: the struct it adds has the values of the call, and nothing else has changed.
 */
module Effects {
  import opened Links
  import opened Arena
  import opened Registry
  import opened Sweeps
  import opened Invariant
  import opened Preservation
  import opened Schedule
  import opened Refusals

  /** Struct `x` is new in the list, under this name; the others are there as before. */
  ghost predicate Added(p: Pool, p': Pool, x: Off, name: string) {
    && x !in p.live && (forall y :: y in p'.live <==> y in p.live || y == x) && |p'.live| == |p.live| + 1
    && Get(p'.name, x, "") == name && forall y | y in p.live :: Get(p'.name, y, "") == Get(p.name, y, "")
  }

  lemma RegisterAdds(p: Pool, g: Gap, size: nat, key: string)
    requires PoolOk(p, g) && NamesSorted(p) && 0 < g.bot <= g.top && size > 0 && Register(p, g, size, key).status == Ok
    ensures var k := Register(p, g, size, key); Added(p, k.pool, k.x, key)
  {
    RegisterEffect(p, g, size, key);
    var k := Register(p, g, size, key);
    var t := Take(p, g, size);
    TakeFresh(p, g, size);
    assert k.pool.name == t.pool.name[k.x := key];
  }

  // ---------------------------------------------------------------------------------------------
  // Components.

  /** An accepted registration puts one real-time component, not ready, under the new id at the head of the list. */
  lemma InitLands(r: Reg, name: string, id: int) returns (x: Off)
    requires Inv(r) && id > r.lastId && HalInit(r, name, id).status == Ok
    ensures var r' := HalInit(r, name, id).reg;
      && x !in r.comps.live && r'.comps.live == [x] + r.comps.live && r'.C(x) == Comp(id, true, false)
      && (forall c | c in r.comps.live :: r'.C(c) == r.C(c))
      && r' == r.(comps := r'.comps, compMem := r'.compMem, gap := r'.gap, lastId := id)
  {
    x := Take(r.comps, r.gap, r.sizes.comp).x;
    TakeFresh(r.comps, r.gap, r.sizes.comp);
    InitStatus(r, name, id);
  }

  lemma InitStatus(r: Reg, name: string, id: int)
    ensures var k := Take(r.comps, r.gap, r.sizes.comp); var o := HalInit(r, name, id);
      var named := |name| <= HAL_NAME_LEN && id >= 0 && FindName(r.comps.live, r.comps.name, name) == 0;
      && (o.status == Ok <==> named && k.x != 0) && (o.status == Enomem <==> named && k.x == 0)
      && (o.status != Ok && o.status != Enomem ==> o.status == Einval)
      && (o.status == Ok ==> o.reg == WithComp(r, k, id))
  {
  }

  /** A registration is accepted exactly for a short name that is not empty beside other components, while a struct can be had. */
  lemma InitAcceptedIff(r: Reg, name: string, id: int)
    requires Inv(r)
    ensures var o := HalInit(r, name, id);
      var named := |name| <= HAL_NAME_LEN && id >= 0 && (name == "" ==> r.comps.live == []);
      var room := r.comps.free != [] || exists off :: Placement(r.gap, r.sizes.comp, off);
      && (o.status == Ok <==> named && room) && (o.status == Enomem <==> named && !room) && (o.status == Einval <==> !named)
  {
    InitStatus(r, name, id);
    TakeIff(r.comps, r.gap, r.sizes.comp);
    FindIffListed(r.comps, name);
    NoCompIsNamed(r, name);
  }

  lemma NoCompIsNamed(r: Reg, name: string)
    requires IdsOk(r)
    ensures name in NamesOf(r.comps.live, r.comps.name) <==> name == "" && r.comps.live != []
  {
    var names := NamesOf(r.comps.live, r.comps.name);
    forall i | 0 <= i < |names| ensures names[i] == "" {
      assert r.comps.live[i] in r.comps.live;
    }
    if r.comps.live != [] { assert names[0] == ""; }
  }

  /** The flag of the component with the id takes the value; no other component changes. */
  lemma ReadyLands(r: Reg, id: int, ready: bool)
    requires Core(r) && HalSetReady(r, id, ready).status == Ok
    ensures var r' := HalSetReady(r, id, ready).reg;
      && r' == r.(compMem := r'.compMem)
      && forall c | c in r.comps.live :: r'.C(c) == if r.C(c).id == id then r.C(c).(ready := ready) else r.C(c)
  {
    IdFound(r, id);
  }

  // ---------------------------------------------------------------------------------------------
  // Functions, parameters and pins.

  /** An accepted export adds one function with the name, flags and code of the call, no user, and the calling component as owner. */
  lemma ExportLands(r: Reg, name: string, code: Code, fp: bool, reentrant: bool, id: int) returns (x: Off)
    requires Inv(r) && Export(r, name, code, fp, reentrant, id).status == Ok
    ensures var r' := Export(r, name, code, fp, reentrant, id).reg; var v := r'.w.F(x);
      && Added(r.functs, r'.functs, x, name)
      && v.fp == fp && v.reentrant == reentrant && v.users == 0 && v.code == code
      && v.owner in r.comps.live && r.C(v.owner).id == id
      && (forall f | f != x :: r'.w.F(f) == r.w.F(f))
      && r' == r.(functs := r'.functs, gap := r'.gap, w := r.w.(functMem := r'.w.functMem))
  {
    x := Register(r.functs, r.gap, r.sizes.funct, name).x;
    ExportCases(r, name, code, fp, reentrant, id);
    RegisterAdds(r.functs, r.gap, r.sizes.funct, name);
    IdFound(r, id);
    ExportAcceptedIff(r, name, code, fp, reentrant, id);
  }

  /** An accepted parameter belongs to the component that registered it; the owners of the others stay. */
  lemma ParamLands(r: Reg, name: string, typeOk: bool, dirOk: bool, inShm: bool, id: int) returns (x: Off)
    requires Inv(r) && ParamNew(r, name, typeOk, dirOk, inShm, id).status == Ok
    ensures var r' := ParamNew(r, name, typeOk, dirOk, inShm, id).reg; var owner := Get(r'.paramOwner, x, 0);
      && Added(r.params, r'.params, x, name)
      && owner in r.comps.live && r.C(owner).id == id
      && (forall y | y != x :: Get(r'.paramOwner, y, 0) == Get(r.paramOwner, y, 0))
      && r' == r.(params := r'.params, gap := r'.gap, paramOwner := r'.paramOwner)
  {
    x := Register(r.params, r.gap, r.sizes.param, name).x;
    ParamCase(r, name, typeOk, dirOk, inShm, id);
    RegisterAdds(r.params, r.gap, r.sizes.param, name);
    IdFound(r, id);
  }

  lemma ParamCase(r: Reg, name: string, typeOk: bool, dirOk: bool, inShm: bool, id: int)
    requires ParamNew(r, name, typeOk, dirOk, inShm, id).status == Ok
    ensures var r' := ParamNew(r, name, typeOk, dirOk, inShm, id).reg; var k := Register(r.params, r.gap, r.sizes.param, name);
      var c := FindId(r.comps.live, r.compMem, id);
      c != 0 && k.status == Ok && k.x != 0 && r' == r.(params := k.pool, gap := k.gap, paramOwner := r.paramOwner[k.x := c])
  {
  }

  /** So does an accepted pin. */
  lemma PinLands(r: Reg, name: string, typeOk: bool, inShm: bool, id: int) returns (x: Off)
    requires Inv(r) && PinNew(r, name, typeOk, inShm, id).status == Ok
    ensures var r' := PinNew(r, name, typeOk, inShm, id).reg; var owner := Get(r'.pinOwner, x, 0);
      && Added(r.pins, r'.pins, x, name)
      && owner in r.comps.live && r.C(owner).id == id
      && (forall y | y != x :: Get(r'.pinOwner, y, 0) == Get(r.pinOwner, y, 0))
      && r' == r.(pins := r'.pins, gap := r'.gap, pinOwner := r'.pinOwner)
  {
    x := Register(r.pins, r.gap, r.sizes.pin, name).x;
    PinCase(r, name, typeOk, inShm, id);
    RegisterAdds(r.pins, r.gap, r.sizes.pin, name);
    IdFound(r, id);
  }

  lemma PinCase(r: Reg, name: string, typeOk: bool, inShm: bool, id: int)
    requires PinNew(r, name, typeOk, inShm, id).status == Ok
    ensures var r' := PinNew(r, name, typeOk, inShm, id).reg; var k := Register(r.pins, r.gap, r.sizes.pin, name);
      var c := FindId(r.comps.live, r.compMem, id);
      c != 0 && k.status == Ok && k.x != 0 && r' == r.(pins := k.pool, gap := k.gap, pinOwner := r.pinOwner[k.x := c])
  {
  }

  // ---------------------------------------------------------------------------------------------
  // Threads.

  /** An accepted thread heads the list with the name, flag, period and priority of the call and an empty schedule. */
  lemma CreateLands(r: Reg, name: string, period: ULong, fp: bool, priority: int, newOk: bool, startOk: bool) returns (x: Off)
    requires Inv(r) && CreateThread(r, name, period, fp, priority, newOk, startOk).status == Ok
    ensures var r' := CreateThread(r, name, period, fp, priority, newOk, startOk).reg; var v := r'.T(x);
      && x !in r.threads.live && r'.threads.live == [x] + r.threads.live && r'.ThreadName(x) == name
      && v.fp == fp && v.priority == priority
      && v.period == (if period <= LONG_MAX then period else period - 0x1_0000_0000_0000_0000)
      && r'.w == r.w.(rings := r.w.rings[x := []])
      && (forall t | t in r.threads.live :: r'.T(t) == r.T(t) && r'.ThreadName(t) == r.ThreadName(t))
      && r'.running == r.running
  {
    var k := Take(r.threads, r.gap, r.sizes.thread);
    x := k.x;
    CreateCases(r, name, period, fp, priority, newOk, startOk);
    TakeThread(r, k);
    LongOf(period);
  }

  lemma LongOf(period: ULong)
    ensures ToLong(period) == if period <= LONG_MAX then period else period - 0x1_0000_0000_0000_0000
  {
  }

  /** Once shut down there is no thread and no function has a user; everything registered is still there. */
  lemma AppExitLeaves(r: Reg)
    requires Inv(r) && r.state != Destroyed
    ensures var r' := AppExit(r).reg;
      && r'.state == ShuttingDown && r'.threads.live == [] && (r.threads.live != [] ==> !r'.running)
      && (forall f | f in r.functs.live :: r'.w.F(f) == r.w.F(f).(users := 0))
      && r' == r.(w := r'.w, threads := r'.threads, threadMem := r'.threadMem, running := r'.running, state := ShuttingDown)
  {
    var r0 := r.(state := ShuttingDown);
    assert Inv(r0);
    FreeThreadsFrame(r0);
    FreeThreadsStop(r0);
    NoUsersLeft(r0);
  }

  lemma NoUsersLeft(r: Reg)
    requires Inv(r)
    ensures FreeThreads(r).threads.live == []
    ensures forall f | f in r.functs.live :: FreeThreads(r).w.F(f) == r.w.F(f).(users := 0)
  {
    FreeThreadsKeepsInv(r);
    forall f | f in r.functs.live ensures FreeThreads(r).w.F(f) == r.w.F(f).(users := 0) {
      FreeThreadsOwners(r, f);
      assert CountOk(FreeThreads(r).w, FreeThreads(r).threads.live, f);
    }
  }

  lemma {:induction false} FreeThreadsStop(r: Reg)
    ensures r.threads.live != [] || !r.running ==> !FreeThreads(r).running
    decreases |r.threads.live|
  {
    if r.threads.live != [] {
      FreeThreadsStop(DropThread(r));
    }
  }

  /** Starting and stopping by lock and state, and the answer of every other case. */
  lemma StartStopResults(r: Reg)
    ensures StartThreads(r) ==
      if Locked(r.lock, 8) then Outcome(r, Eperm)
      else if r.state == Active then Outcome(r.(running := true, state := Running), Ok)
      else Outcome(r, if r.state == Running then Ealready else Einval)
    ensures StopThreads(r) ==
      if Locked(r.lock, 8) then Outcome(r, Eperm)
      else if r.state == Running then Outcome(r.(running := false, state := Active), Ok)
      else Outcome(r, if r.state == Active then Ealready else Einval)
  {
  }

  // ---------------------------------------------------------------------------------------------
  // The schedule.

  /**
   An add is accepted exactly for listed names, a function that is reentrant or on no thread, a thread
   that does floating point if the function does, and a position on the ring.
   */
  lemma AddAcceptedExactly(r: Reg, fname: string, tname: string, position: int)
    requires Core(r) && Enabled(r, OpAdd(fname, tname, position))
    ensures AddFunct(r, fname, tname, position).status == Ok <==>
      !Locked(r.lock, HAL_LOCK_CONFIG) && exists f, t :: Fits(r, f, fname, t, tname, position)
  {
    var f, t := FunctNamed(r, fname), ThreadNamed(r, tname);
    FoundName(r.functs.live, r.functs.name, fname);
    FoundName(r.threads.live, r.threads.name, tname);
    if AddAccepted(r, f, t, position) {
      Unused(r, f);
      assert Fits(r, f, fname, t, tname, position);
    }
    if g, u :| Fits(r, g, fname, u, tname, position) {
      OnlyOneFunct(r, g, fname);
      OnlyOneThread(r, u, tname);
      Unused(r, g);
    }
  }

  ghost predicate Fits(r: Reg, f: Off, fname: string, t: Off, tname: string, position: int) {
    var n := |r.w.RingOf(t)|;
    && f in r.functs.live && r.FunctName(f) == fname && t in r.threads.live && r.ThreadName(t) == tname
    && (r.w.F(f).reentrant || forall u, e | u in r.threads.live && e in r.w.RingOf(u) :: r.w.E(e).funct != f)
    && (r.w.F(f).fp ==> r.T(t).fp)
    && (1 <= position <= n + 1 || -n - 1 <= position <= -1)
  }

  lemma Unused(r: Reg, f: Off)
    requires Linked(r) && f in r.functs.live
    ensures r.w.F(f).users <= 0 <==> forall u, e | u in r.threads.live && e in r.w.RingOf(u) :: r.w.E(e).funct != f
  {
    assert CountOk(r.w, r.threads.live, f);
    UsesPositive(r.w, r.threads.live, f);
  }

  /** An accepted removal takes out the first entry of the thread that runs the function, and one use. */
  lemma DelLands(r: Reg, fname: string, tname: string) returns (j: nat)
    requires Inv(r) && DelFunct(r, fname, tname).status == Ok
    ensures var f, t := FunctNamed(r, fname), ThreadNamed(r, tname); var s := r.w.RingOf(t); var w' := DelFunct(r, fname, tname).reg.w;
      && j < |s| && r.w.E(s[j]).funct == f && (forall i | 0 <= i < j :: r.w.E(s[i]).funct != f)
      && w'.rings == r.w.rings[t := s[..j] + s[j + 1..]] && w'.entryFree == [s[j]] + r.w.entryFree
      && w'.F(f) == r.w.F(f).(users := r.w.F(f).users - 1) && w'.E(s[j]) == NO_ENTRY
      && (forall g | g != f :: w'.F(g) == r.w.F(g)) && (forall e | e != s[j] :: w'.E(e) == r.w.E(e))
      && DelFunct(r, fname, tname).reg == r.(w := w')
  {
    var f, t := FunctNamed(r, fname), ThreadNamed(r, tname);
    j := FirstUse(r.w, t, f, 0);
    DelAccepted(r, fname, tname);
  }

  // ---------------------------------------------------------------------------------------------
  // Structs that are given back.

  /** The struct freed last is the first to be used again, and costs no memory. */
  lemma LastFreedIsReused(p: Pool, g: Gap, x: Off, size: nat)
    ensures var k := Take(Give(p, x), g, size); k.x == x && k.gap == g && k.pool.live == p.live && k.pool.free == p.free
  {
  }

  /** So it is with function entries. */
  lemma LastEntryIsReused(r: Reg, e: Off)
    ensures var r' := r.(w := FreeEntry(r.w, e));
      EntryAvailable(r') && TakenEntry(r') == e && TakeEntry(r') == r'.(w := r'.w.(entryFree := r.w.entryFree))
  {
  }

  /** A struct that goes back is cleared: function, entry and thread. */
  lemma FreedIsClear(r: Reg, f: Off, e: Off, t: Off)
    ensures FreeFunct(r, f).w.F(f) == NO_FUNCT && FreeFunct(r, f).FunctName(f) == ""
    ensures FreeEntry(r.w, e).E(e) == NO_ENTRY
    ensures FreeThread(r, t).T(t) == NO_THREAD && FreeThread(r, t).ThreadName(t) == "" && t !in FreeThread(r, t).w.rings
  {
  }

  // ---------------------------------------------------------------------------------------------
  // The lock.

  /** A lock value of the interface: its four bits. */
  function LockByte(load: bool, config: bool, params: bool, run: bool): nat {
    (if load then 1 else 0) + (if config then 2 else 0) + (if params then 4 else 0) + if run then 8 else 0
  }

  /** What an operation checks before it looks at the lock, and the bit it looks at. */
  ghost predicate Guarded(op: Op, load: bool, config: bool, run: bool) {
    match op
    case OpExport(name, _, _, _, _) => load && |name| <= HAL_NAME_LEN
    case OpParam(name, typeOk, dirOk, _, _) => load && typeOk && dirOk && |name| <= HAL_NAME_LEN
    case OpPin(name, typeOk, _, _) => load && typeOk && |name| <= HAL_NAME_LEN
    case OpCreate(name, period, _, _, _, _) => config && period != 0 && |name| <= HAL_NAME_LEN
    case OpAdd(_, _, _) => config
    case OpDel(_, _) => config
    case OpStart => run
    case OpStop => run
    case _ => false
  }

  /** A lock that is set takes effect at once: exactly the operations behind one of its bits are refused for it, without any change. */
  lemma LockTakesEffect(r: Reg, load: bool, config: bool, params: bool, run: bool, op: Op)
    ensures var r' := Step(r, OpLock(LockByte(load, config, params, run))).reg;
      && r' == r.(lock := LockByte(load, config, params, run))
      && (Step(r', op).status == Eperm <==> Guarded(op, load, config, run))
      && (Guarded(op, load, config, run) ==> Step(r', op).reg == r')
  {
    var lock := LockByte(load, config, params, run);
    BitsOf(load, config, params, run);
    LockedRefuses(r.(lock := lock), op, load, config, run);
  }

  lemma LockedRefuses(r: Reg, op: Op, load: bool, config: bool, run: bool)
    requires Locked(r.lock, 1) == load && Locked(r.lock, 2) == config && Locked(r.lock, 8) == run
    ensures Step(r, op).status == Eperm <==> Guarded(op, load, config, run)
    ensures Guarded(op, load, config, run) ==> Step(r, op).reg == r
  {
    EpermIff(r, op);
  }

  lemma BitsOf(load: bool, config: bool, params: bool, run: bool)
    ensures var lock := LockByte(load, config, params, run);
      Locked(lock, 1) == load && Locked(lock, 2) == config && Locked(lock, 8) == run
  {
  }

  lemma EpermIff(r: Reg, op: Op)
    ensures Step(r, op).status == Eperm <==> Guarded(op, Locked(r.lock, 1), Locked(r.lock, 2), Locked(r.lock, 8))
    ensures Step(r, op).status == Eperm ==> Step(r, op).reg == r
  {
  }

  /** An operation is refused for want of memory only when no struct of its kind is free and no place fits one. */
  lemma OutOfMemory(r: Reg, op: Op)
    requires Inv(r) && Enabled(r, op) && Step(r, op).status == Enomem
    ensures match op
      case OpInit(_, _) => r.comps.free == [] && !exists off :: Placement(r.gap, r.sizes.comp, off)
      case OpExport(_, _, _, _, _) => r.functs.free == [] && !exists off :: Placement(r.gap, r.sizes.funct, off)
      case OpParam(_, _, _, _, _) => r.params.free == [] && !exists off :: Placement(r.gap, r.sizes.param, off)
      case OpPin(_, _, _, _) => r.pins.free == [] && !exists off :: Placement(r.gap, r.sizes.pin, off)
      case OpCreate(_, _, _, _, _, _) => r.threads.free == [] && !exists off :: Placement(r.gap, r.sizes.thread, off)
      case OpMalloc(size) => !exists off :: Placement(r.gap, size, off)
      case _ => false
  {
    EnomemIff(r, op);
    TakeIff(r.comps, r.gap, r.sizes.comp);
    TakeIff(r.functs, r.gap, r.sizes.funct);
    TakeIff(r.params, r.gap, r.sizes.param);
    TakeIff(r.pins, r.gap, r.sizes.pin);
    TakeIff(r.threads, r.gap, r.sizes.thread);
    if op.OpMalloc? { UpTakesLeast(r.gap, op.size); }
  }

  lemma EnomemIff(r: Reg, op: Op)
    requires Enabled(r, op) && Step(r, op).status == Enomem
    ensures match op
      case OpInit(_, _) => Take(r.comps, r.gap, r.sizes.comp).x == 0
      case OpExport(_, _, _, _, _) => Take(r.functs, r.gap, r.sizes.funct).x == 0
      case OpParam(_, _, _, _, _) => Take(r.params, r.gap, r.sizes.param).x == 0
      case OpPin(_, _, _, _) => Take(r.pins, r.gap, r.sizes.pin).x == 0
      case OpCreate(_, _, _, _, _, _) => Take(r.threads, r.gap, r.sizes.thread).x == 0
      case OpMalloc(size) => !UpFits(r.gap, size)
      case _ => false
  {
  }
}
