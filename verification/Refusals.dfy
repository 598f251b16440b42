/**
 When an operation is accepted, and what a refused one leaves behind.

 A refused call may have carved a struct, spent a module id or set the clock, but everything that is
 listed or scheduled stays as it was; only a thread creation that is rolled back stops all threads.
 */
module Refusals {
  import opened Links
  import opened Arena
  import opened Registry
  import opened Sweeps
  import opened Invariant
  import opened Cascade
  import opened Preservation
  import opened Schedule

  /** A pool shows the same structs under the same names. */
  ghost predicate SamePool(p: Pool, p': Pool) {
    p'.live == p.live && forall x | x in p.live :: Get(p'.name, x, "") == Get(p.name, x, "")
  }

  /** A thread has the same fields and the same schedule. */
  ghost predicate SameThread(r: Reg, r': Reg, t: Off) {
    r'.T(t) == r.T(t) && r'.w.RingOf(t) == r.w.RingOf(t) && forall e | e in r.w.RingOf(t) :: r'.w.E(e) == r.w.E(e)
  }

  ghost predicate SameListed(r: Reg, r': Reg) {
    && SamePool(r.comps, r'.comps) && SamePool(r.functs, r'.functs) && SamePool(r.params, r'.params)
    && SamePool(r.pins, r'.pins) && SamePool(r.threads, r'.threads)
    && (forall c | c in r.comps.live :: r'.C(c) == r.C(c))
    && (forall f | f in r.functs.live :: r'.w.F(f) == r.w.F(f))
    && (forall x | x in r.params.live :: Get(r'.paramOwner, x, 0) == Get(r.paramOwner, x, 0))
    && (forall x | x in r.pins.live :: Get(r'.pinOwner, x, 0) == Get(r.pinOwner, x, 0))
    && (forall t | t in r.threads.live :: SameThread(r, r', t))
    && r'.lock == r.lock && r'.state == r.state
  }

  /** `alloc_*_struct` succeeds exactly when a struct was freed before or the gap has an aligned place for one. */
  lemma TakeIff(p: Pool, g: Gap, size: nat)
    requires PoolOk(p, g) && 0 < g.bot <= g.top && size > 0
    ensures Take(p, g, size).x != 0 <==> p.free != [] || exists off :: Placement(g, size, off)
  {
    DnTakesGreatest(g, size);
    if p.free != [] {
      assert p.free[0] in p.free;
    }
  }

  lemma Refused(r: Reg, op: Op)
    requires Base(r) && Named(r) && Step(r, op).status != Ok
    ensures SameListed(r, Step(r, op).reg)
    ensures !op.OpCreate? ==> Step(r, op).reg.running == r.running
  {
    match op
    case OpExport(name, code, fp, reentrant, id) => ExportRefused(r, name, code, fp, reentrant, id);
    case OpParam(name, typeOk, dirOk, inShm, id) => ParamRefused(r, name, typeOk, dirOk, inShm, id);
    case OpPin(name, typeOk, inShm, id) => PinRefused(r, name, typeOk, inShm, id);
    case OpCreate(name, period, fp, priority, newOk, startOk) => CreateRefused(r, name, period, fp, priority, newOk, startOk);
    case _ => OtherRefused(r, op);
  }

  lemma OtherRefused(r: Reg, op: Op)
    requires Step(r, op).status != Ok && !op.OpExport? && !op.OpParam? && !op.OpPin? && !op.OpCreate?
    ensures SameListed(r, Step(r, op).reg) && Step(r, op).reg.running == r.running
  {
    OnlyIdSpent(r, op);
  }

  lemma OnlyIdSpent(r: Reg, op: Op)
    requires Step(r, op).status != Ok && !op.OpExport? && !op.OpParam? && !op.OpPin? && !op.OpCreate?
    ensures Step(r, op).reg == r.(lastId := Step(r, op).reg.lastId)
  {
  }

  lemma RegisterRefused(p: Pool, g: Gap, size: nat, key: string)
    requires PoolOk(p, g) && NamesSorted(p) && 0 < g.bot <= g.top && size > 0 && Register(p, g, size, key).status != Ok
    ensures SamePool(p, Register(p, g, size, key).pool) && Register(p, g, size, key).x !in p.live
  {
    RegisterEffect(p, g, size, key);
  }

  lemma ExportRefused(r: Reg, name: string, code: Code, fp: bool, reentrant: bool, id: int)
    requires GapOk(r) && PoolOk(r.functs, r.gap) && NamesSorted(r.functs) && Export(r, name, code, fp, reentrant, id).status != Ok
    ensures var r' := Export(r, name, code, fp, reentrant, id).reg; SameListed(r, r') && r'.running == r.running
  {
    var r' := Export(r, name, code, fp, reentrant, id).reg;
    var k := Register(r.functs, r.gap, r.sizes.funct, name);
    if r' != r {
      RegisterRefused(r.functs, r.gap, r.sizes.funct, name);
      FunctPoolRefused(r, r', k.x);
    }
  }

  lemma FunctPoolRefused(r: Reg, r': Reg, x: Off)
    requires r' == r.(functs := r'.functs, gap := r'.gap, w := r.w.(functMem := r'.w.functMem)) && SamePool(r.functs, r'.functs)
    requires x !in r.functs.live && forall f | f != x :: r'.w.F(f) == r.w.F(f)
    ensures SameListed(r, r')
  {
  }

  lemma ParamRefused(r: Reg, name: string, typeOk: bool, dirOk: bool, inShm: bool, id: int)
    requires GapOk(r) && PoolOk(r.params, r.gap) && NamesSorted(r.params) && ParamNew(r, name, typeOk, dirOk, inShm, id).status != Ok
    ensures var r' := ParamNew(r, name, typeOk, dirOk, inShm, id).reg; SameListed(r, r') && r'.running == r.running
  {
    if ParamNew(r, name, typeOk, dirOk, inShm, id).reg != r {
      RegisterRefused(r.params, r.gap, r.sizes.param, name);
    }
  }

  lemma PinRefused(r: Reg, name: string, typeOk: bool, inShm: bool, id: int)
    requires GapOk(r) && PoolOk(r.pins, r.gap) && NamesSorted(r.pins) && PinNew(r, name, typeOk, inShm, id).status != Ok
    ensures var r' := PinNew(r, name, typeOk, inShm, id).reg; SameListed(r, r') && r'.running == r.running
  {
    if PinNew(r, name, typeOk, inShm, id).reg != r {
      RegisterRefused(r.pins, r.gap, r.sizes.pin, name);
    }
  }

  lemma CreateRefused(r: Reg, name: string, period: ULong, fp: bool, priority: int, newOk: bool, startOk: bool)
    requires Base(r) && CreateThread(r, name, period, fp, priority, newOk, startOk).status != Ok
    ensures SameListed(r, CreateThread(r, name, period, fp, priority, newOk, startOk).reg)
  {
    var r' := CreateThread(r, name, period, fp, priority, newOk, startOk).reg;
    var k := Take(r.threads, r.gap, r.sizes.thread);
    CreateCases(r, name, period, fp, priority, newOk, startOk);
    if r' != r {
      TakeThread(r, k);
      RolledBackListed(r, r', k);
    }
  }

  lemma RolledBackListed(r: Reg, r': Reg, k: Taken)
    requires RollingBack(r, r', k) && k.x !in r.threads.live && k.x !in r.w.rings
    requires k.pool.live == r.threads.live && k.pool.name == r.threads.name[k.x := ""]
    ensures SameListed(r, r')
  {
    assert r.w.rings[k.x := []] - {k.x} == r.w.rings;
    assert r'.w == r.w;
    forall t | t in r.threads.live ensures Get(r'.threads.name, t, "") == Get(r.threads.name, t, "") && SameThread(r, r', t) {
      assert r'.ThreadName(t) == Get(k.pool.name, t, "") && r'.T(t) == r.T(t);
    }
  }

  /** A thread creation that fails after it took a struct has stopped every thread; no other refusal does. */
  lemma FailedCreateStopsThreads(r: Reg, op: Op)
    requires Base(r) && Named(r) && Step(r, op).status != Ok && r.running
    ensures Step(r, op).reg.running <==>
      !(op.OpCreate? && op.period != 0 && |op.name| <= HAL_NAME_LEN && !Locked(r.lock, HAL_LOCK_CONFIG)
        && op.name !in NamesOf(r.threads.live, r.threads.name)
        && (r.threads.free != [] || exists off :: Placement(r.gap, r.sizes.thread, off)))
  {
    if op.OpCreate? {
      TakeIff(r.threads, r.gap, r.sizes.thread);
      FindIffListed(r.threads, op.name);
    } else {
      Refused(r, op);
    }
  }

  // ---------------------------------------------------------------------------------------------
  // The clock: a creation that is rolled back has set it all the same.

  /** A first thread that finds the clock unset and gets its struct. */
  ghost predicate SetsTheClock(r: Reg, op: Op) {
    && op.OpCreate? && op.period != 0 && |op.name| <= HAL_NAME_LEN && !Locked(r.lock, HAL_LOCK_CONFIG)
    && r.threads.live == [] && r.basePeriod == 0
    && (r.threads.free != [] || exists off :: Placement(r.gap, r.sizes.thread, off))
  }

  lemma CreateClock(r: Reg, op: Op)
    requires GapOk(r) && PoolOk(r.threads, r.gap) && op.OpCreate?
    ensures Step(r, op).reg.basePeriod == if SetsTheClock(r, op) then ToLong(op.period) else r.basePeriod
  {
    assert Step(r, op) == CreateThread(r, op.name, op.period, op.fp, op.priority, op.newOk, op.startOk);
    TakeIff(r.threads, r.gap, r.sizes.thread);
    CreateClockIs(r, op.name, op.period, op.fp, op.priority, op.newOk, op.startOk);
  }

  lemma CreateClockIs(r: Reg, name: string, period: ULong, fp: bool, priority: int, newOk: bool, startOk: bool)
    ensures CreateThread(r, name, period, fp, priority, newOk, startOk).reg.basePeriod ==
      if period != 0 && |name| <= HAL_NAME_LEN && !Locked(r.lock, HAL_LOCK_CONFIG)
        && r.threads.live == [] && r.basePeriod == 0 && Take(r.threads, r.gap, r.sizes.thread).x != 0
      then ToLong(period) else r.basePeriod
  {
    NothingFound(r.threads.live, r.threads.name, name);
  }

  lemma NothingFound(s: seq<Off>, name: map<Off, string>, key: string)
    ensures s == [] ==> FindName(s, name, key) == 0
  {
  }

  lemma OtherClock(r: Reg, op: Op)
    requires Inv(r) && !op.OpCreate?
    ensures Step(r, op).reg.basePeriod == r.basePeriod
  {
    if op.OpExit? {
      ExitDeletes(r, op.id);
    } else if op.OpAppExit? {
      FreeThreadsFrame(r.(state := ShuttingDown));
    } else {
      PlainClock(r, op);
    }
  }

  lemma PlainClock(r: Reg, op: Op)
    requires !op.OpCreate? && !op.OpExit? && !op.OpAppExit?
    ensures Step(r, op).reg.basePeriod == r.basePeriod
  {
  }

  /** An operation, accepted or refused, changes the clock exactly when it gets a first thread as far as its struct while the clock is unset. */
  lemma ClockChangesIff(r: Reg, op: Op)
    requires Inv(r)
    ensures Step(r, op).reg.basePeriod != r.basePeriod <==> SetsTheClock(r, op)
  {
    if op.OpCreate? { CreateClock(r, op); } else { OtherClock(r, op); }
  }

  /** It turns negative exactly for a period beyond `long`, and that call is refused. */
  lemma ClockTurnsNegativeIff(r: Reg, op: Op)
    requires Inv(r) && r.basePeriod >= 0
    ensures Step(r, op).reg.basePeriod < 0 <==> SetsTheClock(r, op) && op.period > LONG_MAX
    ensures Step(r, op).reg.basePeriod < 0 ==> Step(r, op).status != Ok
  {
    if op.OpCreate? {
      CreateClock(r, op);
      CreateAcceptedIff(r, op.name, op.period, op.fp, op.priority, op.newOk, op.startOk);
    } else {
      OtherClock(r, op);
    }
  }

  /** What a creation without threads needs besides the clock. */
  ghost predicate Roomy(r: Reg, name: string, period: ULong) {
    && period != 0 && |name| <= HAL_NAME_LEN && !Locked(r.lock, HAL_LOCK_CONFIG) && r.threads.live == []
    && (r.threads.free != [] || exists off :: Placement(r.gap, r.sizes.thread, off))
  }

  /** After a first thread of period `p` was rolled back, a retry with `q` is measured against `p`. */
  lemma RetryAfterRollback(r: Reg, first: Op, name: string, q: ULong, fp: bool, priority: int)
    requires Inv(r) && SetsTheClock(r, first) && Step(r, first).status != Ok && first.period <= LONG_MAX
    requires q != 0 && |name| <= HAL_NAME_LEN
    ensures CreateThread(Step(r, first).reg, name, q, fp, priority, true, true).status == Ok <==> first.period <= ToLong(q + q / 100)
  {
    RolledBackState(r, first);
    RetryAccepted(Step(r, first).reg, name, q, fp, priority);
  }

  lemma RetryAccepted(r: Reg, name: string, q: ULong, fp: bool, priority: int)
    requires GapOk(r) && PoolOk(r.threads, r.gap) && r.threads.free != [] && Roomy(r, name, q) && r.basePeriod != 0
    ensures CreateThread(r, name, q, fp, priority, true, true).status == Ok <==> r.basePeriod <= ToLong(q + q / 100)
  {
    CreateAcceptedIff(r, name, q, fp, priority, true, true);
  }

  /** A rolled-back first thread leaves an empty thread list, its struct, and the clock it set. */
  lemma RolledBackState(r: Reg, op: Op)
    requires Inv(r) && SetsTheClock(r, op) && Step(r, op).status != Ok && op.period <= LONG_MAX
    ensures var r' := Step(r, op).reg;
      && GapOk(r') && PoolOk(r'.threads, r'.gap) && r'.threads.live == [] && r'.threads.free != []
      && r'.lock == r.lock && r'.basePeriod == op.period
  {
    CreateKeepsInv(r, op.name, op.period, op.fp, op.priority, op.newOk, op.startOk);
    CreateClock(r, op);
    RolledBackFree(r, op);
  }

  /** The struct of the rolled-back thread is there for the retry, and no thread is. */
  lemma RolledBackFree(r: Reg, op: Op)
    requires GapOk(r) && PoolOk(r.threads, r.gap) && SetsTheClock(r, op) && Step(r, op).status != Ok
    ensures var r' := Step(r, op).reg; r'.threads.free != [] && r'.threads.live == [] && r'.lock == r.lock
  {
    TakeIff(r.threads, r.gap, r.sizes.thread);
    RefusedGivesBack(r, op.name, op.period, op.fp, op.priority, op.newOk, op.startOk);
  }

  lemma RefusedGivesBack(r: Reg, name: string, period: ULong, fp: bool, priority: int, newOk: bool, startOk: bool)
    requires Take(r.threads, r.gap, r.sizes.thread).x != 0 && r.threads.live == []
    requires period != 0 && |name| <= HAL_NAME_LEN && !Locked(r.lock, HAL_LOCK_CONFIG)
    requires CreateThread(r, name, period, fp, priority, newOk, startOk).status != Ok
    ensures var r' := CreateThread(r, name, period, fp, priority, newOk, startOk).reg;
      r'.threads.free != [] && r'.threads.live == [] && r'.lock == r.lock
  {
  }

  /** From a negative clock any period that stays a `long` with one per cent added is accepted, and the clock stays negative. */
  lemma NegativeClockTakesAny(r: Reg, name: string, q: ULong, fp: bool, priority: int)
    requires Inv(r) && r.basePeriod < 0 && Roomy(r, name, q)
    ensures CreateThread(r, name, q, fp, priority, true, true).status == Ok <==> r.basePeriod <= ToLong(q + q / 100)
    ensures q + q / 100 <= LONG_MAX ==> CreateThread(r, name, q, fp, priority, true, true).status == Ok
    ensures CreateThread(r, name, q, fp, priority, true, true).reg.basePeriod == r.basePeriod
  {
    CreateAcceptedIff(r, name, q, fp, priority, true, true);
    CreateClockIs(r, name, q, fp, priority, true, true);
  }

  // ---------------------------------------------------------------------------------------------
  // Acceptance, said with the lists and not with the searches.

  lemma IdFound(r: Reg, id: int)
    requires 0 !in r.comps.live
    ensures var c := FindId(r.comps.live, r.compMem, id);
      && (c != 0 ==> c in r.comps.live && r.C(c).id == id)
      && (c == 0 ==> forall d | d in r.comps.live :: r.C(d).id != id)
  {
  }

  /** An export is accepted exactly from a real-time component that is not ready, under a new name, while a struct can be had. */
  lemma ExportAcceptedIff(r: Reg, name: string, code: Code, fp: bool, reentrant: bool, id: int)
    requires Core(r)
    ensures Export(r, name, code, fp, reentrant, id).status == Ok <==>
      && |name| <= HAL_NAME_LEN && !Locked(r.lock, HAL_LOCK_LOAD)
      && (exists c | c in r.comps.live :: r.C(c).id == id && r.C(c).realtime && !r.C(c).ready)
      && name !in NamesOf(r.functs.live, r.functs.name)
      && (r.functs.free != [] || exists off :: Placement(r.gap, r.sizes.funct, off))
  {
    IdFound(r, id);
    RegisterEffect(r.functs, r.gap, r.sizes.funct, name);
    TakeIff(r.functs, r.gap, r.sizes.funct);
  }

  /** A parameter is accepted exactly from a component that is not ready, under a new name, while a struct can be had. */
  lemma ParamAcceptedIff(r: Reg, name: string, typeOk: bool, dirOk: bool, inShm: bool, id: int)
    requires Core(r)
    ensures ParamNew(r, name, typeOk, dirOk, inShm, id).status == Ok <==>
      && typeOk && dirOk && inShm && |name| <= HAL_NAME_LEN && !Locked(r.lock, HAL_LOCK_LOAD)
      && (exists c | c in r.comps.live :: r.C(c).id == id && !r.C(c).ready)
      && name !in NamesOf(r.params.live, r.params.name)
      && (r.params.free != [] || exists off :: Placement(r.gap, r.sizes.param, off))
  {
    IdFound(r, id);
    RegisterEffect(r.params, r.gap, r.sizes.param, name);
    TakeIff(r.params, r.gap, r.sizes.param);
  }

  lemma PinAcceptedIff(r: Reg, name: string, typeOk: bool, inShm: bool, id: int)
    requires Core(r)
    ensures PinNew(r, name, typeOk, inShm, id).status == Ok <==>
      && typeOk && inShm && |name| <= HAL_NAME_LEN && !Locked(r.lock, HAL_LOCK_LOAD)
      && (exists c | c in r.comps.live :: r.C(c).id == id && !r.C(c).ready)
      && name !in NamesOf(r.pins.live, r.pins.name)
      && (r.pins.free != [] || exists off :: Placement(r.gap, r.sizes.pin, off))
  {
    IdFound(r, id);
    RegisterEffect(r.pins, r.gap, r.sizes.pin, name);
    TakeIff(r.pins, r.gap, r.sizes.pin);
  }

  /** A thread is accepted exactly under a new name while a struct can be had, the clock is fast enough and its task starts. */
  lemma CreateAcceptedIff(r: Reg, name: string, period: ULong, fp: bool, priority: int, newOk: bool, startOk: bool)
    requires GapOk(r) && PoolOk(r.threads, r.gap)
    ensures CreateThread(r, name, period, fp, priority, newOk, startOk).status == Ok <==>
      && period > 0 && |name| <= HAL_NAME_LEN && !Locked(r.lock, HAL_LOCK_CONFIG)
      && name !in NamesOf(r.threads.live, r.threads.name)
      && (r.threads.free != [] || exists off :: Placement(r.gap, r.sizes.thread, off))
      && (r.threads.live == [] && r.basePeriod == 0 ==> period + period / 100 <= LONG_MAX)
      && (r.threads.live == [] && r.basePeriod != 0 ==> r.basePeriod <= ToLong(period + period / 100))
      && newOk && startOk
  {
    FindIffListed(r.threads, name);
    TakeIff(r.threads, r.gap, r.sizes.thread);
    CreateStatus(r, name, period, fp, priority, newOk, startOk);
    UnsetClock(period);
  }

  lemma CreateStatus(r: Reg, name: string, period: ULong, fp: bool, priority: int, newOk: bool, startOk: bool)
    ensures CreateThread(r, name, period, fp, priority, newOk, startOk).status == Ok <==>
      && period > 0 && |name| <= HAL_NAME_LEN && !Locked(r.lock, HAL_LOCK_CONFIG)
      && FindName(r.threads.live, r.threads.name, name) == 0 && Take(r.threads, r.gap, r.sizes.thread).x != 0
      && !ClockRefuses(r, period) && newOk && startOk
  {
  }

  /** An unset clock takes exactly the periods that stay a `long` with one per cent added. */
  lemma UnsetClock(period: ULong)
    ensures ToLong(period) < 0 || ToLong(period) > ToLong(period + period / 100) <==> period + period / 100 > LONG_MAX
  {
  }

  /** A ready flag is set, or cleared, exactly when the id is registered and the flag is the other way; two calls cancel. */
  lemma ReadyToggles(r: Reg, id: int, ready: bool)
    requires Core(r)
    ensures HalSetReady(r, id, ready).status == Ok <==> exists c | c in r.comps.live :: r.C(c).id == id && r.C(c).ready != ready
    ensures HalSetReady(r, id, ready).status == Ok ==> Undone(r, HalSetReady(HalSetReady(r, id, ready).reg, id, !ready))
  {
    IdFound(r, id);
    ReadyUndone(r, id, ready);
  }

  /** A successful call after which every registered component is as it was. */
  ghost predicate Undone(r: Reg, o: Outcome) {
    o.status == Ok && o.reg == r.(compMem := o.reg.compMem) && forall c | c in r.comps.live :: o.reg.C(c) == r.C(c)
  }

  lemma ReadyUndone(r: Reg, id: int, ready: bool)
    ensures HalSetReady(r, id, ready).status == Ok ==> Undone(r, HalSetReady(HalSetReady(r, id, ready).reg, id, !ready))
  {
    var o := HalSetReady(r, id, ready);
    if o.status == Ok {
      SameIds(r.comps.live, r.compMem, o.reg.compMem, id);
    }
  }

  lemma SameIds(s: seq<Off>, mem: map<Off, Comp>, mem': map<Off, Comp>, id: int)
    requires forall x :: Get(mem, x, NO_COMP).id == Get(mem', x, NO_COMP).id
    ensures FindId(s, mem, id) == FindId(s, mem', id)
  {
    var i, j := IdIndex(s, mem, id), IdIndex(s, mem', id);
    assert !(i < j) && !(j < i);
  }

  /** Threads run from a start to the stop that follows it, and only an unlocked, active registry can be started. */
  lemma StartThenStop(r: Reg)
    ensures StartThreads(r).status == Ok <==> r.state == Active && !Locked(r.lock, HAL_LOCK_RUN)
    ensures StartThreads(r).status == Ok ==>
      StartThreads(r).reg.running && StopThreads(StartThreads(r).reg) == Outcome(r.(running := false), Ok)
  {
  }

  /** A delete is accepted exactly when both names are listed and some entry of the thread runs the function. */
  lemma DelAcceptedIff(r: Reg, fname: string, tname: string)
    requires Core(r)
    ensures DelFunct(r, fname, tname).status == Ok <==>
      !Locked(r.lock, HAL_LOCK_CONFIG) && exists f, t, e :: Runs(r, f, fname, t, tname, e)
  {
    if DelFunct(r, fname, tname).status == Ok {
      DelAccepted(r, fname, tname);
      var f, t := FunctNamed(r, fname), ThreadNamed(r, tname);
      assert Runs(r, f, fname, t, tname, r.w.RingOf(t)[FirstUse(r.w, t, f, 0)]);
    }
    if f, t, e :| Runs(r, f, fname, t, tname, e) {
      OnlyOneFunct(r, f, fname);
      OnlyOneThread(r, t, tname);
      UsedByEntry(r, f, t, e);
      DelTaken(r, fname, tname);
    }
  }

  /** Entry `e` of the thread named `tname` runs the function named `fname`. */
  ghost predicate Runs(r: Reg, f: Off, fname: string, t: Off, tname: string, e: Off) {
    && f in r.functs.live && r.FunctName(f) == fname && t in r.threads.live && r.ThreadName(t) == tname
    && e in r.w.RingOf(t) && r.w.E(e).funct == f
  }

  lemma DelTaken(r: Reg, fname: string, tname: string)
    requires var f, t := FunctNamed(r, fname), ThreadNamed(r, tname);
      f != 0 && t != 0 && r.w.F(f).users > 0 && FirstUse(r.w, t, f, 0) < |r.w.RingOf(t)|
    ensures DelFunct(r, fname, tname).status == Ok <==> !Locked(r.lock, HAL_LOCK_CONFIG)
  {
  }

  lemma OnlyOneFunct(r: Reg, f: Off, fname: string)
    requires NamesSorted(r.functs) && 0 !in r.functs.live && f in r.functs.live && r.FunctName(f) == fname
    ensures FunctNamed(r, fname) == f
  {
    FindIffListed(r.functs, fname);
    FoundName(r.functs.live, r.functs.name, fname);
    var k :| 0 <= k < |r.functs.live| && r.functs.live[k] == f;
    assert NamesOf(r.functs.live, r.functs.name)[k] == fname;
    if FunctNamed(r, fname) != f {
      NamesDiffer(r.functs, FunctNamed(r, fname), f);
    }
  }

  lemma OnlyOneThread(r: Reg, t: Off, tname: string)
    requires ThreadNamesUnique(r) && 0 !in r.threads.live && t in r.threads.live && r.ThreadName(t) == tname
    ensures ThreadNamed(r, tname) == t
  {
    FindIffListed(r.threads, tname);
    FoundName(r.threads.live, r.threads.name, tname);
    var k :| 0 <= k < |r.threads.live| && r.threads.live[k] == t;
    assert NamesOf(r.threads.live, r.threads.name)[k] == tname;
  }

  lemma UsedByEntry(r: Reg, f: Off, t: Off, e: Off)
    requires CountOk(r.w, r.threads.live, f)
    requires t in r.threads.live && e in r.w.RingOf(t) && r.w.E(e).funct == f
    ensures r.w.F(f).users > 0 && FirstUse(r.w, t, f, 0) < |r.w.RingOf(t)|
  {
    UsesPositive(r.w, r.threads.live, f);
  }
}
