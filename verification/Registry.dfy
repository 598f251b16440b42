/**
 The HAL registry as a state machine.

 One `Reg` value is the shared segment as the critical sections of `hal_lib.c` see it: the lists,
 the free lists and the function-entry rings are sequences of struct offsets, the struct contents
 are maps from offsets.  Every operation is one section under `hal_data->mutex`; it is written as
 the code performs it, loop iteration by loop iteration.
 */
module Registry {
  import opened Links
  import opened Names
  import opened Arena

  const HAL_NAME_LEN: nat := 47
  const HAL_LOCK_LOAD: nat := 1
  const HAL_LOCK_CONFIG: nat := 2
  const HAL_LOCK_RUN: nat := 8

  /** Root cell of the ring of free function entries (`hal_data->funct_entry_free`). */
  const ENTRY_FREE: Off := 1

  /** Sizes of the structs; the header is `sizeof(hal_data_t)`. */
  datatype Sizes = Sizes(header: nat, comp: nat, funct: nat, param: nat, pin: nat, thread: nat, entry: nat) {
    predicate Valid() {
      header > 2 && comp > 0 && funct > 0 && param > 0 && pin > 0 && thread > 0 && entry > 0
    }
  }

  /** What a thread calls: the function pointer and its argument. */
  datatype Code = Code(fn: nat, arg: nat)
  const NO_CODE := Code(0, 0)

  datatype Comp = Comp(id: int, realtime: bool, ready: bool)
  datatype Funct = Funct(fp: bool, reentrant: bool, users: int, owner: Off, code: Code)
  datatype Entry = Entry(funct: Off, code: Code)
  datatype Thread = Thread(fp: bool, period: int, priority: int)

  const NO_COMP := Comp(0, false, false)
  const NO_FUNCT := Funct(false, false, 0, 0, NO_CODE)
  const NO_ENTRY := Entry(0, NO_CODE)
  const NO_THREAD := Thread(false, 0, 0)

  /** A zeroed struct where nothing was written yet. */
  function Get<V>(m: map<Off, V>, x: Off, zero: V): V {
    if x in m then m[x] else zero
  }

  datatype Status = Ok | Einval | Enomem | Eperm | Ealready

  // ---------------------------------------------------------------------------------------------
  // One struct kind: its live list, its free list and the names in the structs.

  datatype Pool = Pool(live: seq<Off>, free: seq<Off>, name: map<Off, string>)

  function NamesOf(s: seq<Off>, name: map<Off, string>): (r: seq<string>)
    ensures |r| == |s| && forall i | 0 <= i < |s| :: r[i] == Get(name, s[i], "")
  {
    seq(|s|, i requires 0 <= i < |s| => Get(name, s[i], ""))
  }

  /** `alloc_*_struct`: pop the free list, or carve from the top of the gap; null when both fail. */
  datatype Taken = Taken(x: Off, pool: Pool, gap: Gap)

  function Take(p: Pool, g: Gap, size: nat): Taken {
    if p.free != [] then
      Taken(p.free[0], p.(free := p.free[1..], name := p.name[p.free[0] := ""]), g)
    else if DnFits(g, size) && DnStart(g, size) > 0 then
      Taken(DnStart(g, size), p.(name := p.name[DnStart(g, size) := ""]), Dn(g, size))
    else Taken(0, p, g)
  }

  /** The tail of `free_*_struct`: clear the name and push. */
  function Give(p: Pool, x: Off): Pool {
    p.(free := [x] + p.free, name := p.name[x := ""])
  }

  /** Allocate, name and link in name order: the common part of the three `*_new` sections. */
  datatype Registered = Registered(x: Off, pool: Pool, gap: Gap, status: Status)

  function Register(p: Pool, g: Gap, size: nat, key: string): Registered {
    var k := Take(p, g, size);
    var names := NamesOf(k.pool.live, k.pool.name);
    if k.x == 0 then Registered(0, k.pool, k.gap, Enomem)
    else if HasName(names, key) then Registered(k.x, Give(k.pool, k.x), k.gap, Einval)
    else Registered(k.x, k.pool.(live := Inserted(k.pool.live, Slot(names, key), k.x), name := k.pool.name[k.x := key]), k.gap, Ok)
  }

  /** Position of the first struct with this name; the length if there is none. */
  function NameIndex(s: seq<Off>, name: map<Off, string>, key: string): (i: nat)
    ensures i <= |s|
    ensures forall k | 0 <= k < i :: Get(name, s[k], "") != key
    ensures i < |s| ==> Get(name, s[i], "") == key
  {
    if s == [] || Get(name, s[0], "") == key then 0 else 1 + NameIndex(s[1..], name, key)
  }

  /** Position of the first component with this id; the length if there is none. */
  function IdIndex(s: seq<Off>, mem: map<Off, Comp>, id: int): (i: nat)
    ensures i <= |s|
    ensures forall k | 0 <= k < i :: Get(mem, s[k], NO_COMP).id != id
    ensures i < |s| ==> Get(mem, s[i], NO_COMP).id == id
  {
    if s == [] || Get(mem, s[0], NO_COMP).id == id then 0 else 1 + IdIndex(s[1..], mem, id)
  }

  function FindName(s: seq<Off>, name: map<Off, string>, key: string): Off {
    var i := NameIndex(s, name, key);
    if i < |s| then s[i] else 0
  }

  function FindId(s: seq<Off>, mem: map<Off, Comp>, id: int): Off {
    var i := IdIndex(s, mem, id);
    if i < |s| then s[i] else 0
  }

  // ---------------------------------------------------------------------------------------------

  datatype State = Active | Running | ShuttingDown | Destroyed

  /** Functions, function entries and the rings that tie them together. */
  datatype Wiring = Wiring(functMem: map<Off, Funct>, rings: Rings, entryFree: seq<Off>, entryMem: map<Off, Entry>) {
    function F(x: Off): Funct { Get(functMem, x, NO_FUNCT) }
    function E(x: Off): Entry { Get(entryMem, x, NO_ENTRY) }
    function RingOf(t: Off): seq<Off> { if t in rings then rings[t] else [] }
  }

  datatype Reg = Reg(
    sizes: Sizes,
    gap: Gap,
    comps: Pool, compMem: map<Off, Comp>,
    functs: Pool,
    params: Pool, paramOwner: map<Off, Off>,
    pins: Pool, pinOwner: map<Off, Off>,
    threads: Pool, threadMem: map<Off, Thread>,
    w: Wiring,
    lock: nat, state: State, running: bool,
    basePeriod: int,   // the period of the RTAPI clock, 0 until the first thread sets it
    lastId: int)       // the last module id handed out by rtapi_init
  {
    function C(x: Off): Comp { Get(compMem, x, NO_COMP) }
    function T(x: Off): Thread { Get(threadMem, x, NO_THREAD) }
    function FunctName(x: Off): string { Get(functs.name, x, "") }
    function ThreadName(x: Off): string { Get(threads.name, x, "") }
  }

  function Init(sizes: Sizes): Reg {
    var none := Pool([], [], map[]);
    Reg(sizes, Gap(sizes.header, HAL_SIZE, 0), none, map[], none, none, map[], none, map[], none, map[],
        Wiring(map[], map[], [], map[]), 0, Active, false, 0, 0)
  }

  datatype Outcome = Outcome(reg: Reg, status: Status)

  predicate Locked(lock: nat, bit: nat)
    requires bit > 0
  {
    (lock / bit) % 2 == 1
  }

  // ---------------------------------------------------------------------------------------------
  // Function entries.

  function Unlink(w: Wiring, t: Off, i: nat): Wiring
    requires i < |w.RingOf(t)|
  {
    w.(rings := w.rings[t := Without(w.RingOf(t), i)])
  }

  /** `free_funct_entry_struct`: drop the use, clear, put at the front of the free ring. */
  function FreeEntry(w: Wiring, e: Off): Wiring {
    var f := w.E(e).funct;
    w.(functMem := if f > 0 then w.functMem[f := w.F(f).(users := w.F(f).users - 1)] else w.functMem,
       entryMem := w.entryMem[e := NO_ENTRY],
       entryFree := [e] + w.entryFree)
  }

  /** The inner loop of `free_funct_struct` from position `i` of thread `t`'s ring. */
  function SweepRing(w: Wiring, t: Off, f: Off, i: nat): Wiring
    requires i <= |w.RingOf(t)|
    decreases |w.RingOf(t)| - i
  {
    if i == |w.RingOf(t)| then w
    else
      var e := w.RingOf(t)[i];
      if w.E(e).funct == f then SweepRing(FreeEntry(Unlink(w, t, i), e), t, f, i)
      else SweepRing(w, t, f, i + 1)
  }

  /** The outer loop of `free_funct_struct` over the threads of `ts`. */
  function SweepThreads(w: Wiring, ts: seq<Off>, f: Off): Wiring
    decreases |ts|
  {
    if ts == [] then w
    else SweepThreads(SweepRing(w, ts[0], f, 0), ts[1..], f)
  }

  /** `free_funct_struct` on a struct that is on no list. */
  function FreeFunct(r: Reg, f: Off): Reg {
    r.(w := FreeFunctWiring(r.w, r.threads.live, f), functs := Give(r.functs, f))
  }

  function FreeFunctWiring(w: Wiring, ts: seq<Off>, f: Off): Wiring {
    var w' := if w.F(f).users > 0 then SweepThreads(w, ts, f) else w;
    w'.(functMem := w'.functMem[f := NO_FUNCT])
  }

  // ---------------------------------------------------------------------------------------------
  // Components.

  /** The function loop of `free_comp_struct` from position `i` of the function list. */
  function FreeFuncts(r: Reg, c: Off, i: nat): Reg
    requires i <= |r.functs.live|
    decreases |r.functs.live| - i
  {
    if i == |r.functs.live| then r
    else
      var f := r.functs.live[i];
      if r.w.F(f).owner == c then
        var r1 := r.(functs := r.functs.(live := Without(r.functs.live, i)));
        FreeFuncts(FreeFunct(r1, f), c, i)
      else FreeFuncts(r, c, i + 1)
  }

  /** The parameter loop of `free_comp_struct`. */
  function FreeParams(r: Reg, c: Off, i: nat): Reg
    requires i <= |r.params.live|
    decreases |r.params.live| - i
  {
    if i == |r.params.live| then r
    else
      var x := r.params.live[i];
      if Get(r.paramOwner, x, 0) == c then
        var p := r.params.(live := Without(r.params.live, i));
        FreeParams(r.(params := Give(p, x), paramOwner := r.paramOwner[x := 0]), c, i)
      else FreeParams(r, c, i + 1)
  }

  function FreeComp(r: Reg, c: Off): Reg {
    var r1 := FreeParams(FreeFuncts(r, c, 0), c, 0);
    r1.(compMem := r1.compMem[c := NO_COMP.(ready := r1.C(c).ready)], comps := Give(r1.comps, c))
  }

  // ---------------------------------------------------------------------------------------------
  // Operations.

  /** `hal_init`, registration section; `id` is what `rtapi_init` returned (negative on failure). */
  function HalInit(r: Reg, name: string, id: int): Outcome {
    if |name| > HAL_NAME_LEN || id < 0 then Outcome(r, Einval)
    else
      var r0 := r.(lastId := id);
      if FindName(r.comps.live, r.comps.name, name) != 0 then Outcome(r0, Einval)
      else
        var k := Take(r.comps, r.gap, r.sizes.comp);
        if k.x == 0 then Outcome(r0, Enomem)
        else
          Outcome(r0.(gap := k.gap, compMem := r.compMem[k.x := Comp(id, true, false)],
                      comps := k.pool.(live := [k.x] + k.pool.live)), Ok)
  }

  /** `hal_exit`. */
  function HalExit(r: Reg, id: int): Outcome {
    if r.state == Destroyed then Outcome(r, Ealready)
    else
      var i := IdIndex(r.comps.live, r.compMem, id);
      if i == |r.comps.live| then Outcome(r, Einval)
      else Outcome(FreeComp(r.(comps := r.comps.(live := Without(r.comps.live, i))), r.comps.live[i]), Ok)
  }

  /** `hal_ready` and `hal_unready`. */
  function HalSetReady(r: Reg, id: int, ready: bool): Outcome {
    var c := FindId(r.comps.live, r.compMem, id);
    if c == 0 || r.C(c).ready == ready then Outcome(r, Einval)
    else Outcome(r.(compMem := r.compMem[c := r.C(c).(ready := ready)]), Ok)
  }

  /**
   `hal_export_funct`, the section that registers the function.  A duplicate goes back through
   `free_funct_struct`; it has no users, so that only clears the struct and pushes it.
   */
  function Export(r: Reg, name: string, code: Code, fp: bool, reentrant: bool, id: int): Outcome {
    if |name| > HAL_NAME_LEN then Outcome(r, Einval)
    else if Locked(r.lock, HAL_LOCK_LOAD) then Outcome(r, Eperm)
    else
      var c := FindId(r.comps.live, r.compMem, id);
      if c == 0 || !r.C(c).realtime || r.C(c).ready then Outcome(r, Einval)
      else
        var k := Register(r.functs, r.gap, r.sizes.funct, name);
        Outcome(r.(functs := k.pool, gap := k.gap, w := Exported(r.w, k, Funct(fp, reentrant, 0, c, code))), k.status)
  }

  /** The function struct of an export: written, or cleared again after a duplicate name. */
  function Exported(w: Wiring, k: Registered, v: Funct): Wiring {
    if k.x == 0 then w else w.(functMem := w.functMem[k.x := if k.status == Ok then v else NO_FUNCT])
  }

  /** `hal_param_new`; the three flags are the checks on type, direction and data address. */
  function ParamNew(r: Reg, name: string, typeOk: bool, dirOk: bool, inShm: bool, id: int): Outcome {
    if !typeOk || !dirOk || |name| > HAL_NAME_LEN then Outcome(r, Einval)
    else if Locked(r.lock, HAL_LOCK_LOAD) then Outcome(r, Eperm)
    else
      var c := FindId(r.comps.live, r.compMem, id);
      if c == 0 || !inShm || r.C(c).ready then Outcome(r, Einval)
      else
        var k := Register(r.params, r.gap, r.sizes.param, name);
        Outcome(r.(params := k.pool, gap := k.gap,
                   paramOwner := if k.x == 0 then r.paramOwner else r.paramOwner[k.x := if k.status == Ok then c else 0]), k.status)
  }

  /** `hal_pin_new`. */
  function PinNew(r: Reg, name: string, typeOk: bool, inShm: bool, id: int): Outcome {
    if !typeOk || |name| > HAL_NAME_LEN then Outcome(r, Einval)
    else if Locked(r.lock, HAL_LOCK_LOAD) then Outcome(r, Eperm)
    else
      var c := FindId(r.comps.live, r.compMem, id);
      if c == 0 || !inShm || r.C(c).ready then Outcome(r, Einval)
      else
        var k := Register(r.pins, r.gap, r.sizes.pin, name);
        Outcome(r.(pins := k.pool, gap := k.gap,
                   pinOwner := if k.x == 0 then r.pinOwner else r.pinOwner[k.x := if k.status == Ok then c else 0]), k.status)
  }

  // ---------------------------------------------------------------------------------------------
  // Threads.

  /** The entry loop of `free_thread_struct`. */
  function EmptyRing(w: Wiring, t: Off): Wiring
    decreases |w.RingOf(t)|
  {
    if w.RingOf(t) == [] then w
    else EmptyRing(FreeEntry(Unlink(w, t, 0), w.RingOf(t)[0]), t)
  }

  /** `free_thread_struct` on a struct that is off the thread list; stops all threads. */
  function FreeThread(r: Reg, t: Off): Reg {
    var w := EmptyRing(r.w, t);
    r.(running := false, threadMem := r.threadMem[t := NO_THREAD], threads := Give(r.threads, t),
       w := w.(rings := w.rings - {t}))
  }

  /** The period of a thread is an `unsigned long`, of 64 bits, that the clock takes as a `long`. */
  const LONG_MAX: int := 0x7FFF_FFFF_FFFF_FFFF
  type ULong = x: int | 0 <= x <= 2 * LONG_MAX + 1

  function ToLong(x: int): int {
    var low := x % (2 * LONG_MAX + 2);
    if low <= LONG_MAX then low else low - (2 * LONG_MAX + 2)
  }

  /** `rtapi_clock_set_period(0)` and, when the clock is unset, `rtapi_clock_set_period(period)`. */
  function ClockPeriod(r: Reg, period: ULong): int {
    if r.basePeriod == 0 then ToLong(period) else r.basePeriod
  }

  /** The first thread is refused when the clock was set to a negative period just now, or is over one per cent slower. */
  predicate ClockRefuses(r: Reg, period: ULong) {
    r.threads.live == [] &&
    ((r.basePeriod == 0 && ClockPeriod(r, period) < 0) || ClockPeriod(r, period) > ToLong(period + period / 100))
  }

  /** The new struct of `hal_create_thread`, initialised but not linked. */
  function NewThread(r: Reg, k: Taken, name: string, fp: bool): Reg {
    r.(gap := k.gap,
       threads := k.pool.(name := k.pool.name[k.x := name]),
       threadMem := r.threadMem[k.x := Thread(fp, 0, 0)],
       w := r.w.(rings := r.w.rings[k.x := []]))
  }

  /** The first thread sets the clock. */
  function SetClock(r: Reg, period: ULong): Reg {
    r.(basePeriod := if r.threads.live == [] then ClockPeriod(r, period) else r.basePeriod)
  }

  /** The clock, the task and the list; the flags are the two task calls. */
  function StartThread(r: Reg, t: Off, period: ULong, priority: int, newOk: bool, startOk: bool): Outcome {
    var r2 := SetClock(r, period);
    if ClockRefuses(r, period) || !newOk || !startOk then Outcome(FreeThread(r2, t), Einval)
    else
      Outcome(r2.(threadMem := r2.threadMem[t := Thread(r2.T(t).fp, ToLong(period), priority)],
                  threads := r2.threads.(live := [t] + r2.threads.live)), Ok)
  }

  /** `hal_create_thread`, the section that links the thread. */
  function CreateThread(r: Reg, name: string, period: ULong, fp: bool, priority: int, newOk: bool, startOk: bool): Outcome {
    if period == 0 || |name| > HAL_NAME_LEN then Outcome(r, Einval)
    else if Locked(r.lock, HAL_LOCK_CONFIG) then Outcome(r, Eperm)
    else if FindName(r.threads.live, r.threads.name, name) != 0 then Outcome(r, Einval)
    else
      var k := Take(r.threads, r.gap, r.sizes.thread);
      if k.x == 0 then Outcome(r, Enomem)
      else StartThread(NewThread(r, k, name, fp), k.x, period, priority, newOk, startOk)
  }

  /** Where the two walks of `hal_add_funct_to_thread` stop on a ring of `n` entries. */
  datatype Place = Nowhere | Before(index: nat)

  function PlaceFor(n: nat, position: int): (p: Place)
    ensures p.Before? ==> p.index <= n
  {
    if 1 <= position <= n + 1 then Before(position - 1)
    else if 1 <= -position <= n + 1 then Before(n + 1 + position)
    else Nowhere
  }

  /** `alloc_funct_entry_struct`: the front of the free ring, or a new one. */
  predicate EntryAvailable(r: Reg) {
    r.w.entryFree != [] || (DnFits(r.gap, r.sizes.entry) && DnStart(r.gap, r.sizes.entry) > 0)
  }

  function TakeEntry(r: Reg): Reg {
    if r.w.entryFree != [] then r.(w := r.w.(entryFree := r.w.entryFree[1..])) else r.(gap := Dn(r.gap, r.sizes.entry))
  }

  function TakenEntry(r: Reg): Off
    requires EntryAvailable(r)
  {
    if r.w.entryFree != [] then r.w.entryFree[0] else DnStart(r.gap, r.sizes.entry)
  }

  /** Every check of `hal_add_funct_to_thread` before the entry is allocated. */
  predicate AddAccepted(r: Reg, f: Off, t: Off, position: int) {
    && f != 0 && !(r.w.F(f).users > 0 && !r.w.F(f).reentrant)
    && t != 0 && !(r.w.F(f).fp && !r.T(t).fp)
    && PlaceFor(|r.w.RingOf(t)|, position).Before?
  }

  function FunctNamed(r: Reg, name: string): Off { FindName(r.functs.live, r.functs.name, name) }
  function ThreadNamed(r: Reg, name: string): Off { FindName(r.threads.live, r.threads.name, name) }

  /** Entry `e` for function `f` becomes the `i`-th of thread `t`'s ring. */
  function PlaceEntry(w: Wiring, e: Off, f: Off, t: Off, i: nat): Wiring
    requires i <= |w.RingOf(t)|
  {
    w.(entryMem := w.entryMem[e := Entry(f, w.F(f).code)],
       rings := w.rings[t := Inserted(w.RingOf(t), i, e)],
       functMem := w.functMem[f := w.F(f).(users := w.F(f).users + 1)])
  }

  /** `hal_add_funct_to_thread`. */
  function AddFunct(r: Reg, fname: string, tname: string, position: int): Outcome {
    if Locked(r.lock, HAL_LOCK_CONFIG) then Outcome(r, Eperm)
    else
      var f, t := FunctNamed(r, fname), ThreadNamed(r, tname);
      if !AddAccepted(r, f, t, position) then Outcome(r, Einval)
      else if !EntryAvailable(r) then Outcome(r, Enomem)  // outside the model, see Enabled
      else
        var e, r1 := TakenEntry(r), TakeEntry(r);
        var i := PlaceFor(|r.w.RingOf(t)|, position).index;
        Outcome(r1.(w := PlaceEntry(r1.w, e, f, t, i)), Ok)
  }

  /** First entry of a ring, from position `i`, that runs function `f`; the length if there is none. */
  function FirstUse(w: Wiring, t: Off, f: Off, i: nat): (j: nat)
    requires i <= |w.RingOf(t)|
    ensures i <= j <= |w.RingOf(t)|
    ensures j < |w.RingOf(t)| ==> w.E(w.RingOf(t)[j]).funct == f
    ensures forall k | i <= k < j :: w.E(w.RingOf(t)[k]).funct != f
    decreases |w.RingOf(t)| - i
  {
    if i == |w.RingOf(t)| || w.E(w.RingOf(t)[i]).funct == f then i else FirstUse(w, t, f, i + 1)
  }

  /** `hal_del_funct_from_thread`. */
  function DelFunct(r: Reg, fname: string, tname: string): Outcome {
    if Locked(r.lock, HAL_LOCK_CONFIG) then Outcome(r, Eperm)
    else
      var f, t := FunctNamed(r, fname), ThreadNamed(r, tname);
      if f == 0 || r.w.F(f).users == 0 || t == 0 then Outcome(r, Einval)
      else
        var j := FirstUse(r.w, t, f, 0);
        if j == |r.w.RingOf(t)| then Outcome(r, Einval)
        else Outcome(r.(w := FreeEntry(Unlink(r.w, t, j), r.w.RingOf(t)[j])), Ok)
  }

  /** The thread loop of `hal_app_exit`. */
  function FreeThreads(r: Reg): Reg
    decreases |r.threads.live|
  {
    if r.threads.live == [] then r
    else
      var r1 := r.(threads := r.threads.(live := r.threads.live[1..]));
      FreeThreads(FreeThread(r1, r.threads.live[0]))
  }

  /** `hal_app_exit` up to the end of its critical section. */
  function AppExit(r: Reg): Outcome {
    if r.state == Destroyed then Outcome(r, Ok)
    else Outcome(FreeThreads(r.(state := ShuttingDown)), Ok)
  }

  function StartThreads(r: Reg): Outcome {
    if Locked(r.lock, HAL_LOCK_RUN) then Outcome(r, Eperm)
    else if r.state == Running then Outcome(r, Ealready)
    else if r.state != Active then Outcome(r, Einval)
    else Outcome(r.(running := true, state := Running), Ok)
  }

  function StopThreads(r: Reg): Outcome {
    if Locked(r.lock, HAL_LOCK_RUN) then Outcome(r, Eperm)
    else if r.state == Active then Outcome(r, Ealready)
    else if r.state != Running then Outcome(r, Einval)
    else Outcome(r.(running := false, state := Active), Ok)
  }

  /** `hal_malloc`; the size is a signed `long`. */
  function Malloc(r: Reg, size: int): Outcome {
    Outcome(r.(gap := Up(r.gap, size)), if UpFits(r.gap, size) then Ok else Enomem)
  }

  // ---------------------------------------------------------------------------------------------
  // Runs.

  datatype Op =
    | OpInit(name: string, id: int)
    | OpExit(id: int)
    | OpReady(id: int, ready: bool)
    | OpExport(name: string, code: Code, fp: bool, reentrant: bool, id: int)
    | OpParam(name: string, typeOk: bool, dirOk: bool, inShm: bool, id: int)
    | OpPin(name: string, typeOk: bool, inShm: bool, id: int)
    | OpCreate(name: string, period: ULong, fp: bool, priority: int, newOk: bool, startOk: bool)
    | OpAdd(fname: string, tname: string, position: int)
    | OpDel(fname: string, tname: string)
    | OpAppExit
    | OpStart
    | OpStop
    | OpMalloc(size: int)
    | OpLock(lock: nat)

  function Step(r: Reg, op: Op): Outcome {
    match op
    case OpInit(name, id) => HalInit(r, name, id)
    case OpExit(id) => HalExit(r, id)
    case OpReady(id, ready) => HalSetReady(r, id, ready)
    case OpExport(name, code, fp, reentrant, id) => Export(r, name, code, fp, reentrant, id)
    case OpParam(name, typeOk, dirOk, inShm, id) => ParamNew(r, name, typeOk, dirOk, inShm, id)
    case OpPin(name, typeOk, inShm, id) => PinNew(r, name, typeOk, inShm, id)
    case OpCreate(name, period, fp, priority, newOk, startOk) => CreateThread(r, name, period, fp, priority, newOk, startOk)
    case OpAdd(fname, tname, position) => AddFunct(r, fname, tname, position)
    case OpDel(fname, tname) => DelFunct(r, fname, tname)
    case OpAppExit => AppExit(r)
    case OpStart => StartThreads(r)
    case OpStop => StopThreads(r)
    case OpMalloc(size) => Malloc(r, size)
    case OpLock(lock) => Outcome(r.(lock := lock), Ok)
  }

  /**
   What the surroundings guarantee: rtapi_init never repeats an id, memory is not asked for in
   negative amounts (Arena.NegativeSizeOverlaps), and an entry is only allocated when one can be had
   (the source hands a null pointer to list_init_entry otherwise).
   */
  predicate Enabled(r: Reg, op: Op) {
    match op
    case OpInit(_, id) => id < 0 || id > r.lastId
    case OpAdd(fname, tname, position) =>
      AddAccepted(r, FunctNamed(r, fname), ThreadNamed(r, tname), position) ==> EntryAvailable(r)
    case OpMalloc(size) => size >= 0
    case _ => true
  }

  ghost predicate EnabledRun(r: Reg, ops: seq<Op>)
    decreases |ops|
  {
    ops != [] ==> Enabled(r, ops[0]) && EnabledRun(Step(r, ops[0]).reg, ops[1..])
  }

  function Run(r: Reg, ops: seq<Op>): Reg
    decreases |ops|
  {
    if ops == [] then r else Run(Step(r, ops[0]).reg, ops[1..])
  }
}
