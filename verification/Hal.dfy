/**
 `hal_lib.c` as it runs: the header fields, the link words of the lists and rings, and the loops
 that walk and rewrite them in place.  Every method is one section under `hal_data->mutex` and is
 proved to take the registry from one abstract state to the next.
 */
module Hal {
  import opened Links
  import opened Arena
  import opened Registry
  import opened Sweeps
  import opened Invariant
  import opened Cascade
  import opened Preservation
  import opened Pools
  import opened Schedule
  import opened Footprint

  class HalLib {
    const sizes: Sizes
    const arena: Allocator
    const comps: StructPool
    const functs: StructPool
    const params: StructPool
    const pins: StructPool
    const threads: StructPool
    var compMem: map<Off, Comp>
    var functMem: map<Off, Funct>
    var paramOwner: map<Off, Off>
    var pinOwner: map<Off, Off>
    var threadMem: map<Off, Thread>
    var entryMem: map<Off, Entry>
    var ringNext: Cells
    var ringPrev: Cells
    var lock: nat
    var state: State
    var running: bool
    var basePeriod: int
    var lastId: int
    ghost var rings: Rings
    ghost var entryFree: seq<Off>

    ghost function Wires(): Wiring
      reads this
    {
      Wiring(functMem, rings, entryFree, entryMem)
    }

    ghost function View(): Reg
      reads this, arena, comps, functs, params, pins, threads
    {
      Reg(sizes, arena.View(), comps.View(), compMem, functs.View(), params.View(), paramOwner, pins.View(), pinOwner,
          threads.View(), threadMem, Wires(), lock, state, running, basePeriod, lastId)
    }

    /** The rings of the segment are closed and disjoint. */
    ghost predicate RingsValid()
      reads this
    {
      ENTRY_FREE !in rings && RingsOk(ringNext, ringPrev, AllRings(Wires()))
    }

    ghost predicate Apart()
    {
      && comps != functs && comps != params && comps != pins && comps != threads
      && functs != params && functs != pins && functs != threads
      && params != pins && params != threads && pins != threads
    }

    ghost predicate Valid()
      reads this, arena, comps, functs, params, pins, threads
    {
      && Apart() && RingsValid()
      && comps.Valid() && functs.Valid() && params.Valid() && pins.Valid() && threads.Valid()
    }

    /** `init_hal_data` on a fresh segment; `list_init_entry` makes a self-ring. */
    constructor (sizes: Sizes)
      requires sizes.Valid() && sizes.header <= HAL_SIZE
      ensures Valid() && View() == Init(sizes)
    {
      this.sizes := sizes;
      arena := new Allocator(sizes.header);
      comps := new StructPool();
      functs := new StructPool();
      params := new StructPool();
      pins := new StructPool();
      threads := new StructPool();
      compMem, functMem, paramOwner, pinOwner, threadMem, entryMem := map[], map[], map[], map[], map[], map[];
      ringNext, ringPrev := map[ENTRY_FREE := ENTRY_FREE], map[ENTRY_FREE := ENTRY_FREE];
      lock, state, running, basePeriod, lastId := 0, Active, false, 0, 0;
      rings, entryFree := map[], [];
      new;
      assert AllRings(Wires()) == map[ENTRY_FREE := []];
      OneEmptyRing(ENTRY_FREE);
    }

    // -------------------------------------------------------------------------------------------
    // Function entries.

    /** `list_remove_entry` on entry `i` of thread `t`; returns the entry after it. */
    method ListRemoveEntry(e: Off, ghost t: Off, ghost i: nat) returns (after: Off)
      requires RingsValid() && t in rings && i < |rings[t]| && e == rings[t][i]
      modifies this`ringNext, this`ringPrev, this`rings
      ensures RingsValid() && Wires() == Unlink(old(Wires()), t, i)
      ensures after == Stop(t, rings[t], i + 1)
      ensures forall r :: !On(AllRings(Wires()), r, e)
    {
      ghost var all := AllRings(Wires());
      assert all[t] == rings[t];
      RingsRemove(ringNext, ringPrev, all, t, i);
      RingRemove(ringNext, ringPrev, t, rings[t], i);
      after := At(ringNext, e);
      ringNext, ringPrev := RemovedNext(ringNext, ringPrev, e), RemovedPrev(ringNext, ringPrev, e);
      rings := rings[t := Without(rings[t], i)];
      assert AllRings(Wires()) == all[t := Without(all[t], i)];
    }

    /** `free_funct_entry_struct` on an entry that is on no ring. */
    method FreeFunctEntryStruct(e: Off)
      requires RingsValid() && forall r :: !On(AllRings(Wires()), r, e)
      modifies this`ringNext, this`ringPrev, this`entryMem, this`functMem, this`entryFree
      ensures RingsValid() && Wires() == FreeEntry(old(Wires()), e)
    {
      var f := Get(entryMem, e, NO_ENTRY).funct;
      if f > 0 {
        var v := Get(functMem, f, NO_FUNCT);
        functMem := functMem[f := v.(users := v.users - 1)];
      }
      entryMem := entryMem[e := NO_ENTRY];
      PushEntry(e);
    }

    /** `list_add_after` behind the root of the free ring. */
    method PushEntry(e: Off)
      requires RingsValid() && forall r :: !On(AllRings(Wires()), r, e)
      modifies this`ringNext, this`ringPrev, this`entryFree
      ensures RingsValid() && entryFree == [e] + old(entryFree)
    {
      ghost var all := AllRings(Wires());
      RingsAdd(ringNext, ringPrev, all, ENTRY_FREE, 0, e);
      ringNext, ringPrev := AddedNext(ringNext, e, ENTRY_FREE), AddedPrev(ringNext, ringPrev, e, ENTRY_FREE);
      entryFree := [e] + entryFree;
      assert Inserted(all[ENTRY_FREE], 0, e) == entryFree;
      assert AllRings(Wires()) == all[ENTRY_FREE := entryFree];
    }

    /** The walk of `free_funct_struct` over one thread's ring, removing as it goes. */
    method SweepThread(t: Off, f: Off)
      requires RingsValid() && t in rings
      modifies this`ringNext, this`ringPrev, this`rings, this`entryMem, this`functMem, this`entryFree
      ensures RingsValid() && rings.Keys == old(rings.Keys) && Wires() == SweepRing(old(Wires()), t, f, 0)
    {
      ghost var i := 0;
      NextStop(t, 0);
      var entry := At(ringNext, t);
      while entry != t
        invariant RingsValid() && rings.Keys == old(rings.Keys) && i <= |rings[t]|
        invariant entry == Stop(t, rings[t], i + 1)
        invariant SweepRing(old(Wires()), t, f, 0) == SweepRing(Wires(), t, f, i)
        decreases |rings[t]| - i
      {
        assert entry == rings[t][i];
        if Get(entryMem, entry, NO_ENTRY).funct == f {
          var after := ListRemoveEntry(entry, t, i);
          FreeFunctEntryStruct(entry);
          entry := after;
        } else {
          NextStop(t, i + 1);
          entry := At(ringNext, entry);
          i := i + 1;
        }
      }
      RingEnd(t, i);
    }

    lemma NextStop(t: Off, i: nat)
      requires RingsValid() && t in rings && i <= |rings[t]|
      ensures At(ringNext, Stop(t, rings[t], i)) == Stop(t, rings[t], i + 1)
    {
      assert AllRings(Wires())[t] == rings[t];
      assert Ring(ringNext, ringPrev, t, rings[t]);
    }

    lemma PrevStop(t: Off, i: nat)
      requires RingsValid() && t in rings && 1 <= i <= |rings[t]| + 1
      ensures At(ringPrev, Stop(t, rings[t], i)) == Stop(t, rings[t], i - 1)
    {
      assert AllRings(Wires())[t] == rings[t];
      assert Ring(ringNext, ringPrev, t, rings[t]);
    }

    /** Back at the root means the whole ring was walked. */
    lemma RingEnd(t: Off, i: nat)
      requires RingsValid() && t in rings && i <= |rings[t]| && Stop(t, rings[t], i + 1) == t
      ensures i == |rings[t]|
    {
      assert AllRings(Wires())[t] == rings[t];
      assert Ring(ringNext, ringPrev, t, rings[t]);
    }

    /** The walk of `free_funct_struct` over the thread list. */
    method SweepAllThreads(f: Off)
      requires RingsValid() && threads.Valid() && forall t | t in threads.live :: t in rings
      modifies this`ringNext, this`ringPrev, this`rings, this`entryMem, this`functMem, this`entryFree
      ensures RingsValid() && Wires() == SweepThreads(old(Wires()), threads.live, f)
    {
      ghost var k := 0;
      assert At(threads.next, Cell(LIVE_ROOT, threads.live, 0)) == Elem(threads.live, 0);
      var thread := At(threads.next, LIVE_ROOT);
      assert threads.live[0..] == threads.live;
      while thread != 0
        invariant RingsValid() && rings.Keys == old(rings.Keys)
        invariant k <= |threads.live| && thread == Elem(threads.live, k)
        invariant SweepThreads(old(Wires()), threads.live, f) == SweepThreads(Wires(), threads.live[k..], f)
        decreases |threads.live| - k
      {
        assert threads.live[k..] == [thread] + threads.live[k + 1..];
        assert At(threads.next, Cell(LIVE_ROOT, threads.live, k + 1)) == Elem(threads.live, k + 1);
        SweepThread(thread, f);
        thread := At(threads.next, thread);
        k := k + 1;
      }
    }

    /** `free_funct_struct` on a struct that is on no list. */
    method FreeFunctStruct(f: Off)
      requires RingsValid() && threads.Valid() && functs.Valid() && functs != threads
      requires f !in functs.live && f !in functs.free && f > 2
      requires forall t | t in threads.live :: t in rings
      modifies this`ringNext, this`ringPrev, this`rings, this`entryMem, this`functMem, this`entryFree, functs
      ensures RingsValid() && functs.Valid()
      ensures Wires() == FreeFunctWiring(old(Wires()), threads.live, f) && functs.View() == Give(old(functs.View()), f)
    {
      if Get(functMem, f, NO_FUNCT).users > 0 {
        SweepAllThreads(f);
      }
      functMem := functMem[f := NO_FUNCT];
      functs.Push(f);
    }

    // -------------------------------------------------------------------------------------------
    // Components.

    /** The function loop of `free_comp_struct`; `base` is the registry it starts from. */
    method FreeFunctsOf(c: Off, ghost base: Reg)
      requires RingsValid() && threads.Valid() && functs.Valid() && functs != threads
      requires base.w == Wires() && base.functs == functs.View() && base.threads == threads.View() && Walkable(base)
      modifies this`ringNext, this`ringPrev, this`rings, this`entryMem, this`functMem, this`entryFree, functs
      ensures RingsValid() && functs.Valid()
      ensures var r := FreeFuncts(base, c, 0); Wires() == r.w && functs.View() == r.functs
    {
      ghost var i := 0;
      ghost var r := base;
      var prev := LIVE_ROOT;
      assert At(functs.next, Cell(LIVE_ROOT, functs.live, 0)) == Elem(functs.live, 0);
      var nxt := At(functs.next, prev);
      while nxt != 0
        invariant RingsValid() && functs.Valid() && Walkable(r)
        invariant r.w == Wires() && r.functs == functs.View() && r.threads == threads.View()
        invariant i <= |functs.live| && prev == Cell(LIVE_ROOT, functs.live, i) && nxt == Elem(functs.live, i)
        invariant FreeFuncts(base, c, 0) == FreeFuncts(r, c, i)
        decreases |functs.live| - i
      {
        FreeFunctsUnfold(r, c, i);
        if Get(functMem, nxt, NO_FUNCT).owner == c {
          DropOneFunct(prev, nxt, i, r);
          r := DropFunct(r, i);
        } else {
          prev := nxt;
          i := i + 1;
        }
        assert At(functs.next, Cell(LIVE_ROOT, functs.live, i)) == Elem(functs.live, i);
        nxt := At(functs.next, prev);
      }
    }

    /** Unlink function `i` and free it. */
    method DropOneFunct(prev: Off, f: Off, ghost i: nat, ghost r: Reg)
      requires RingsValid() && threads.Valid() && functs.Valid() && functs != threads
      requires r.w == Wires() && r.functs == functs.View() && r.threads == threads.View() && Walkable(r)
      requires i < |functs.live| && f == functs.live[i] && prev == Cell(LIVE_ROOT, functs.live, i)
      modifies this`ringNext, this`ringPrev, this`rings, this`entryMem, this`functMem, this`entryFree, functs
      ensures RingsValid() && functs.Valid()
      ensures Wires() == DropFunct(r, i).w && functs.View() == DropFunct(r, i).functs
      ensures Walkable(DropFunct(r, i)) && DropFunct(r, i).threads == r.threads
      ensures prev == Cell(LIVE_ROOT, functs.live, i) && |functs.live| == |r.functs.live| - 1
    {
      DropWalkable(r, i);
      functs.UnlinkAt(prev, f, i);
      FreeFunctStruct(f);
    }

    /** The parameter loop of `free_comp_struct`, with `free_param_struct` inlined. */
    method FreeParamsOf(c: Off, ghost base: Reg)
      requires params.Valid() && base.params == params.View() && base.paramOwner == paramOwner && ParamsWalkable(base)
      modifies params, this`paramOwner
      ensures params.Valid()
      ensures var r := FreeParams(base, c, 0); params.View() == r.params && paramOwner == r.paramOwner
    {
      ghost var i := 0;
      ghost var r := base;
      var prev := LIVE_ROOT;
      assert At(params.next, Cell(LIVE_ROOT, params.live, 0)) == Elem(params.live, 0);
      var nxt := At(params.next, prev);
      while nxt != 0
        invariant params.Valid() && r.params == params.View() && r.paramOwner == paramOwner && ParamsWalkable(r)
        invariant i <= |params.live| && prev == Cell(LIVE_ROOT, params.live, i) && nxt == Elem(params.live, i)
        invariant FreeParams(base, c, 0) == FreeParams(r, c, i)
        decreases |params.live| - i
      {
        FreeParamsUnfold(r, c, i);
        if Get(paramOwner, nxt, 0) == c {
          DropParamWalkable(r, i);
          params.UnlinkAt(prev, nxt, i);
          paramOwner := paramOwner[nxt := 0];
          params.Push(nxt);
          r := DropParam(r, i);
        } else {
          prev := nxt;
          i := i + 1;
        }
        assert At(params.next, Cell(LIVE_ROOT, params.live, i)) == Elem(params.live, i);
        nxt := At(params.next, prev);
      }
    }

    /** `free_comp_struct` on a struct that is off the component list. */
    method FreeCompStruct(c: Off, ghost base: Reg)
      requires RingsValid() && Apart() && threads.Valid() && functs.Valid() && params.Valid() && comps.Valid()
      requires base.w == Wires() && base.functs == functs.View() && base.threads == threads.View() && Walkable(base)
      requires base.params == params.View() && base.paramOwner == paramOwner && ParamsWalkable(base)
      requires c !in comps.live && c !in comps.free && c > 2
      modifies this`ringNext, this`ringPrev, this`rings, this`entryMem, this`functMem, this`entryFree, functs
      modifies this`paramOwner, params, this`compMem, comps
      ensures RingsValid() && functs.Valid() && params.Valid() && comps.Valid()
      ensures var r := FreeParams(FreeFuncts(base, c, 0), c, 0);
        Wires() == r.w && functs.View() == r.functs && params.View() == r.params && paramOwner == r.paramOwner
      ensures comps.View() == Give(old(comps.View()), c)
      ensures compMem == old(compMem)[c := NO_COMP.(ready := Get(old(compMem), c, NO_COMP).ready)]
    {
      FreeFunctsKeepRest(base, c, 0);
      ghost var r1 := FreeFuncts(base, c, 0);
      FreeParamsFrame(r1, c, 0);
      FreeFunctsOf(c, base);
      FreeParamsOf(c, r1);
      compMem := compMem[c := NO_COMP.(ready := Get(compMem, c, NO_COMP).ready)];
      comps.Push(c);
    }

    /** The search of the component list by id, keeping the cell that points at the match. */
    method SearchComp(id: int) returns (prev: Off, c: Off, ghost i: nat)
      requires comps.Valid()
      ensures c == FindId(comps.live, compMem, id)
      ensures i == IdIndex(comps.live, compMem, id) && prev == Cell(LIVE_ROOT, comps.live, i) && c == Elem(comps.live, i)
    {
      prev, i := LIVE_ROOT, 0;
      assert At(comps.next, Cell(LIVE_ROOT, comps.live, 0)) == Elem(comps.live, 0);
      c := At(comps.next, prev);
      while c != 0 && Get(compMem, c, NO_COMP).id != id
        invariant i <= |comps.live| && prev == Cell(LIVE_ROOT, comps.live, i) && c == Elem(comps.live, i)
        invariant forall k | 0 <= k < i :: Get(compMem, comps.live[k], NO_COMP).id != id
        decreases |comps.live| - i
      {
        assert At(comps.next, Cell(LIVE_ROOT, comps.live, i + 1)) == Elem(comps.live, i + 1);
        prev := c;
        c := At(comps.next, prev);
        i := i + 1;
      }
      IdIndexIsOnly(comps.live, compMem, id, i);
    }

    /** `hal_exit`. */
    method HalExit(id: int) returns (status: Status)
      requires Valid() && Exitable(View())
      modifies this, functs, params, comps
      ensures Valid() && Outcome(View(), status) == Registry.HalExit(old(View()), id)
    {
      ghost var r := View();
      if state == Destroyed {
        return Ealready;
      }
      ghost var i: nat;
      var prev, c;
      prev, c, i := SearchComp(id);
      if c == 0 {
        return Einval;
      }
      FreeCompParts(r, i);
      ExitReady(r, i);
      DeleteFound(prev, c, i, r);
      status := Ok;
    }

    method DeleteFound(prev: Off, c: Off, ghost i: nat, ghost r: Reg)
      requires Valid() && r == View() && Walkable(r) && ParamsWalkable(r)
      requires i < |comps.live| && c == comps.live[i] && prev == Cell(LIVE_ROOT, comps.live, i)
      requires c > 2 && c !in Without(comps.live, i) && c !in comps.free
      modifies this`ringNext, this`ringPrev, this`rings, this`entryMem, this`functMem, this`entryFree, functs
      modifies this`paramOwner, params, this`compMem, comps
      ensures Valid() && View() == ExitedParts(r, c, i)
    {
      UnlinkAndFree(prev, c, i, r);
    }

    /** The part of `hal_exit` after the component was found. */
    method UnlinkAndFree(prev: Off, c: Off, ghost i: nat, ghost r: Reg)
      requires Valid() && r == View() && Walkable(r) && ParamsWalkable(r)
      requires i < |comps.live| && c == comps.live[i] && prev == Cell(LIVE_ROOT, comps.live, i)
      requires c > 2 && c !in Without(comps.live, i) && c !in comps.free
      modifies this`ringNext, this`ringPrev, this`rings, this`entryMem, this`functMem, this`entryFree, functs
      modifies this`paramOwner, params, this`compMem, comps
      ensures Valid()
      ensures var x := ExitedParts(r, c, i);
        && Wires() == x.w && functs.View() == x.functs && params.View() == x.params && paramOwner == x.paramOwner
        && comps.View() == x.comps && compMem == x.compMem
    {
      comps.UnlinkAt(prev, c, i);
      FreeCompStruct(c, r);
    }

    // -------------------------------------------------------------------------------------------
    // Registration.

    /** `hal_init`, the section that registers the component; `id` is what `rtapi_init` returned. */
    method HalInit(nm: string, id: int) returns (status: Status)
      requires Valid() && CanTake(comps.View(), arena.View()) && sizes.comp > 0
      modifies this`lastId, this`compMem, comps, arena
      ensures Valid() && Outcome(View(), status) == Registry.HalInit(old(View()), nm, id)
    {
      if |nm| > HAL_NAME_LEN || id < 0 {
        return Einval;
      }
      lastId := id;
      var found := comps.FindByName(nm);
      if found != 0 {
        return Einval;
      }
      status := NewComp(id);
    }

    method NewComp(id: int) returns (status: Status)
      requires Valid() && CanTake(comps.View(), arena.View()) && sizes.comp > 0
      modifies this`compMem, comps, arena
      ensures Valid()
      ensures var r := old(View()); var k := Take(r.comps, r.gap, r.sizes.comp);
        && status == (if k.x == 0 then Enomem else Ok)
        && View() == if k.x == 0 then r else WithComp(r, k, id).(lastId := r.lastId)
    {
      TakeFresh(comps.View(), arena.View(), sizes.comp);
      var c := comps.Alloc(arena, sizes.comp);
      if c == 0 {
        return Enomem;
      }
      compMem := compMem[c := Comp(id, true, false)];
      comps.LinkAtHead(c);
      status := Ok;
    }

    /** `hal_ready` and `hal_unready`. */
    method HalSetReady(id: int, ready: bool) returns (status: Status)
      requires Valid()
      modifies this`compMem
      ensures Valid() && Outcome(View(), status) == Registry.HalSetReady(old(View()), id, ready)
    {
      var _, c, _ := SearchComp(id);
      var v := Get(compMem, c, NO_COMP);
      if c == 0 || v.ready == ready {
        return Einval;
      }
      compMem := compMem[c := v.(ready := ready)];
      status := Ok;
    }

    /** `hal_export_funct`, the section that registers the function. */
    method HalExportFunct(nm: string, code: Code, fp: bool, reentrant: bool, id: int) returns (status: Status)
      requires Valid() && CanTake(functs.View(), arena.View()) && sizes.funct > 0 && forall t | t in threads.live :: t in rings
      modifies this`ringNext, this`ringPrev, this`rings, this`entryMem, this`functMem, this`entryFree, functs, arena
      ensures Valid() && Outcome(View(), status) == Export(old(View()), nm, code, fp, reentrant, id)
    {
      if |nm| > HAL_NAME_LEN {
        return Einval;
      }
      if Locked(lock, HAL_LOCK_LOAD) {
        return Eperm;
      }
      var _, c, _ := SearchComp(id);
      if c == 0 || !Get(compMem, c, NO_COMP).realtime || Get(compMem, c, NO_COMP).ready {
        return Einval;
      }
      status := NewFunct(nm, Funct(fp, reentrant, 0, c, code));
    }

    method NewFunct(nm: string, v: Funct) returns (status: Status)
      requires Valid() && CanTake(functs.View(), arena.View()) && sizes.funct > 0 && v.users == 0
      requires forall t | t in threads.live :: t in rings
      modifies this`ringNext, this`ringPrev, this`rings, this`entryMem, this`functMem, this`entryFree, functs, arena
      ensures Valid()
      ensures var r := old(View()); var k := Register(r.functs, r.gap, r.sizes.funct, nm);
        status == k.status && View() == r.(functs := k.pool, gap := k.gap, w := Exported(r.w, k, v))
    {
      status := AddFunctStruct(nm, v);
    }

    method AddFunctStruct(nm: string, v: Funct) returns (status: Status)
      requires RingsValid() && threads.Valid() && functs.Valid() && functs != threads && v.users == 0
      requires CanTake(functs.View(), arena.View()) && sizes.funct > 0
      requires forall t | t in threads.live :: t in rings
      modifies this`ringNext, this`ringPrev, this`rings, this`entryMem, this`functMem, this`entryFree, functs, arena
      ensures RingsValid() && functs.Valid()
      ensures var k := Register(old(functs.View()), old(arena.View()), sizes.funct, nm);
        && status == k.status && functs.View() == k.pool && arena.View() == k.gap
        && Wires() == Exported(old(Wires()), k, v)
    {
      var f, duplicate := functs.AllocSorted(arena, sizes.funct, nm);
      if f == 0 {
        return Enomem;
      }
      functMem := functMem[f := v];
      if duplicate {
        FreeUnused(f);
        assert functMem == old(functMem)[f := NO_FUNCT];
        return Einval;
      }
      status := Ok;
    }

    /** `free_funct_struct` on a function nobody calls. */
    method FreeUnused(f: Off)
      requires RingsValid() && threads.Valid() && functs.Valid() && functs != threads
      requires f !in functs.live && f !in functs.free && f > 2 && Get(functMem, f, NO_FUNCT).users == 0
      requires forall t | t in threads.live :: t in rings
      modifies this`ringNext, this`ringPrev, this`rings, this`entryMem, this`functMem, this`entryFree, functs
      ensures RingsValid() && functs.Valid()
      ensures Wires() == old(Wires()).(functMem := old(functMem)[f := NO_FUNCT]) && functs.View() == Give(old(functs.View()), f)
    {
      FreeFunctStruct(f);
    }

    /** `hal_param_new`. */
    method HalParamNew(nm: string, typeOk: bool, dirOk: bool, inShm: bool, id: int) returns (status: Status)
      requires Valid() && CanTake(params.View(), arena.View()) && sizes.param > 0
      modifies this`paramOwner, params, arena
      ensures Valid() && Outcome(View(), status) == ParamNew(old(View()), nm, typeOk, dirOk, inShm, id)
    {
      if !typeOk || !dirOk || |nm| > HAL_NAME_LEN {
        return Einval;
      }
      if Locked(lock, HAL_LOCK_LOAD) {
        return Eperm;
      }
      var _, c, _ := SearchComp(id);
      if c == 0 || !inShm || Get(compMem, c, NO_COMP).ready {
        return Einval;
      }
      var x;
      x, status := params.AddSorted(arena, sizes.param, nm);
      if x != 0 {
        paramOwner := paramOwner[x := if status == Ok then c else 0];
      }
    }

    /** `hal_pin_new`. */
    method HalPinNew(nm: string, typeOk: bool, inShm: bool, id: int) returns (status: Status)
      requires Valid() && CanTake(pins.View(), arena.View()) && sizes.pin > 0
      modifies this`pinOwner, pins, arena
      ensures Valid() && Outcome(View(), status) == PinNew(old(View()), nm, typeOk, inShm, id)
    {
      if !typeOk || |nm| > HAL_NAME_LEN {
        return Einval;
      }
      if Locked(lock, HAL_LOCK_LOAD) {
        return Eperm;
      }
      var _, c, _ := SearchComp(id);
      if c == 0 || !inShm || Get(compMem, c, NO_COMP).ready {
        return Einval;
      }
      var x;
      x, status := pins.AddSorted(arena, sizes.pin, nm);
      if x != 0 {
        pinOwner := pinOwner[x := if status == Ok then c else 0];
      }
    }

    /** `hal_malloc`. */
    method HalMalloc(size: int) returns (p: int)
      requires Valid() && arena.shmemBot > 0
      modifies arena
      ensures Valid()
      ensures Outcome(View(), if p != 0 then Ok else Enomem) == Malloc(old(View()), size)
      ensures p != 0 ==> Placement(old(arena.View()), size, p) && forall off | Placement(old(arena.View()), size, off) :: p <= off
      ensures Handed(old(View()), OpMalloc(size)) == if p == 0 then [] else [Block(p, size)]
    {
      UpTakesLeast(arena.View(), size);
      p := arena.ShmallocUp(size);
    }

    // -------------------------------------------------------------------------------------------
    // Threads.

    /** The entry loop of `free_thread_struct`. */
    method EmptyThreadRing(t: Off)
      requires RingsValid() && t in rings
      modifies this`ringNext, this`ringPrev, this`rings, this`entryMem, this`functMem, this`entryFree
      ensures RingsValid() && rings.Keys == old(rings.Keys) && Wires() == EmptyRing(old(Wires()), t)
    {
      NextStop(t, 0);
      var entry := At(ringNext, t);
      while entry != t
        invariant RingsValid() && rings.Keys == old(rings.Keys) && entry == Stop(t, rings[t], 1)
        invariant EmptyRing(old(Wires()), t) == EmptyRing(Wires(), t)
        decreases |rings[t]|
      {
        var after := ListRemoveEntry(entry, t, 0);
        FreeFunctEntryStruct(entry);
        entry := after;
      }
      RingEnd(t, 0);
    }

    /** `free_thread_struct` on a struct that is off the thread list. */
    method FreeThreadStruct(t: Off)
      requires RingsValid() && threads.Valid() && t in rings
      requires t !in threads.live && t !in threads.free && t > 2
      modifies this`ringNext, this`ringPrev, this`rings, this`entryMem, this`functMem, this`entryFree
      modifies this`running, this`threadMem, threads
      ensures RingsValid() && threads.Valid() && !running && rings.Keys == old(rings.Keys) - {t}
      ensures threadMem == old(threadMem)[t := NO_THREAD] && threads.View() == Give(old(threads.View()), t)
      ensures var w := EmptyRing(old(Wires()), t); Wires() == w.(rings := w.rings - {t})
    {
      running := false;
      threadMem := threadMem[t := NO_THREAD];
      ClearThreadRing(t);
      threads.Push(t);
    }

    /** Empty, the ring is no ring of the segment any more. */
    method ClearThreadRing(t: Off)
      requires RingsValid() && t in rings
      modifies this`ringNext, this`ringPrev, this`rings, this`entryMem, this`functMem, this`entryFree
      ensures RingsValid() && rings.Keys == old(rings.Keys) - {t}
      ensures var w := EmptyRing(old(Wires()), t); Wires() == w.(rings := w.rings - {t})
    {
      EmptyThreadRing(t);
      ghost var all := AllRings(Wires());
      RingsDrop(ringNext, ringPrev, all, t);
      rings := rings - {t};
      assert AllRings(Wires()) == all - {t};
    }

    method FreeThread(t: Off)
      requires Valid() && t in rings && t !in threads.live && t !in threads.free && t > 2
      modifies this`ringNext, this`ringPrev, this`rings, this`entryMem, this`functMem, this`entryFree
      modifies this`running, this`threadMem, threads
      ensures Valid() && View() == Registry.FreeThread(old(View()), t)
    {
      FreeThreadStruct(t);
    }

    /** `alloc_thread_struct` and the first two fields: the new struct starts with an empty ring. */
    method AllocThreadStruct(nm: string, fp: bool) returns (t: Off)
      requires RingsValid() && threads.Valid() && ThreadsReady(Wires(), threads.View(), arena.View(), sizes.thread)
      modifies threads, arena, this`ringNext, this`ringPrev, this`rings, this`threadMem
      ensures RingsValid() && threads.Valid()
      ensures var k := Take(old(threads.View()), old(arena.View()), sizes.thread);
        && t == k.x && arena.View() == k.gap
        && (t == 0 ==> threads.View() == k.pool && rings == old(rings) && threadMem == old(threadMem))
        && (t != 0 ==> threads.View() == k.pool.(name := k.pool.name[t := nm]) && rings == old(rings)[t := []])
        && (t != 0 ==> threadMem == old(threadMem)[t := Thread(fp, 0, 0)] && t > 2)
      ensures t !in threads.live && t !in threads.free
    {
      TakeFresh(threads.View(), arena.View(), sizes.thread);
      t := threads.Alloc(arena, sizes.thread);
      if t != 0 {
        InitThreadRing(t);
        threadMem := threadMem[t := Thread(fp, 0, 0)];
        threads.SetName(t, nm);
      }
    }

    /** `list_init_entry` on the ring root of a thread struct. */
    method InitThreadRing(t: Off)
      requires RingsValid() && forall r :: !On(AllRings(Wires()), r, t)
      modifies this`ringNext, this`ringPrev, this`rings
      ensures RingsValid() && rings == old(rings)[t := []]
    {
      ghost var all := AllRings(Wires());
      RingsInit(ringNext, ringPrev, all, t);
      ringNext, ringPrev := ringNext[t := t], ringPrev[t := t];
      rings := rings[t := []];
      assert !On(all, ENTRY_FREE, t);
      assert AllRings(Wires()) == all[t := []];
    }

    /** `hal_create_thread`, the section that links the thread. */
    method HalCreateThread(nm: string, period: ULong, fp: bool, priority: int, newOk: bool, startOk: bool) returns (status: Status)
      requires Valid() && ThreadsReady(Wires(), threads.View(), arena.View(), sizes.thread)
      modifies this`ringNext, this`ringPrev, this`rings, this`entryMem, this`functMem, this`entryFree
      modifies this`running, this`threadMem, this`basePeriod, threads, arena
      ensures Valid() && Outcome(View(), status) == CreateThread(old(View()), nm, period, fp, priority, newOk, startOk)
    {
      if period == 0 || |nm| > HAL_NAME_LEN {
        return Einval;
      }
      if Locked(lock, HAL_LOCK_CONFIG) {
        return Eperm;
      }
      var other := threads.FindByName(nm);
      if other != 0 {
        return Einval;
      }
      var t := NewThreadStruct(nm, fp);
      if t == 0 {
        return Enomem;
      }
      status := StartTask(t, period, priority, newOk, startOk);
    }

    method NewThreadStruct(nm: string, fp: bool) returns (t: Off)
      requires Valid() && ThreadsReady(Wires(), threads.View(), arena.View(), sizes.thread)
      modifies threads, arena, this`ringNext, this`ringPrev, this`rings, this`threadMem
      ensures Valid()
      ensures var r := old(View()); var k := Take(r.threads, r.gap, r.sizes.thread);
        t == k.x && View() == if t == 0 then r else NewThread(r, k, nm, fp)
      ensures t != 0 ==> t in rings && t !in threads.live && t !in threads.free && t > 2
    {
      TakeFresh(threads.View(), arena.View(), sizes.thread);
      t := AllocThreadStruct(nm, fp);
    }

    /** The clock, the task and the list of `hal_create_thread`, with the four rollbacks. */
    method StartTask(t: Off, period: ULong, priority: int, newOk: bool, startOk: bool) returns (status: Status)
      requires Valid() && t in rings && t !in threads.live && t !in threads.free && t > 2
      modifies this`ringNext, this`ringPrev, this`rings, this`entryMem, this`functMem, this`entryFree
      modifies this`running, this`threadMem, this`basePeriod, threads
      ensures Valid() && Outcome(View(), status) == StartThread(old(View()), t, period, priority, newOk, startOk)
    {
      var fast := StartClock(period);
      if !fast || !newOk || !startOk {
        FreeThread(t);
        return Einval;
      }
      LinkThread(t, period, priority);
      status := Ok;
    }

    /** The first thread sets the clock; two ways for that to fail. */
    method StartClock(period: ULong) returns (fast: bool)
      requires Valid()
      modifies this`basePeriod
      ensures Valid() && View() == SetClock(old(View()), period) && (fast <==> !ClockRefuses(old(View()), period))
    {
      assert At(threads.next, Cell(LIVE_ROOT, threads.live, 0)) == Elem(threads.live, 0);
      if At(threads.next, LIVE_ROOT) == 0 {
        if basePeriod == 0 {
          basePeriod := ToLong(period);
          if basePeriod < 0 {
            return false;
          }
        }
        if basePeriod > ToLong(period + period / 100) {
          return false;
        }
      }
      fast := true;
    }

    method LinkThread(t: Off, period: ULong, priority: int)
      requires Valid() && t !in threads.live && t !in threads.free && t > 2
      modifies this`threadMem, threads
      ensures Valid()
      ensures var r := old(View());
        View() == r.(threadMem := r.threadMem[t := Thread(r.T(t).fp, ToLong(period), priority)],
                     threads := r.threads.(live := [t] + r.threads.live))
    {
      threadMem := threadMem[t := Get(threadMem, t, NO_THREAD).(period := ToLong(period), priority := priority)];
      threads.LinkAtHead(t);
    }

    /** `hal_app_exit` up to the end of its critical section. */
    method HalAppExit()
      requires Valid() && ThreadsWalkable(View())
      modifies this`ringNext, this`ringPrev, this`rings, this`entryMem, this`functMem, this`entryFree
      modifies this`running, this`threadMem, this`state, threads
      ensures Valid() && View() == AppExit(old(View())).reg
    {
      if state == Destroyed {
        return;
      }
      state := ShuttingDown;
      FreeEveryThread();
    }

    method FreeEveryThread()
      requires Valid() && ThreadsWalkable(View())
      modifies this`ringNext, this`ringPrev, this`rings, this`entryMem, this`functMem, this`entryFree
      modifies this`running, this`threadMem, threads
      ensures Valid() && View() == FreeThreads(old(View()))
    {
      FreeThreadsOf(View());
      SameThreadsFreed(old(View()), View());
    }

    method FreeThreadsOf(ghost r: Reg)
      requires Valid() && ThreadsWalkable(r) && r.w == Wires()
      requires r.threads == threads.View() && r.threadMem == threadMem && r.running == running
      modifies this`ringNext, this`ringPrev, this`rings, this`entryMem, this`functMem, this`entryFree
      modifies this`running, this`threadMem, threads
      ensures Valid() && ThreadsFreed(r, View())
      ensures View() == old(View()).(w := Wires(), threads := threads.View(), threadMem := threadMem, running := running)
    {
      FreeAllThreads(r);
    }

    /** The thread loop of `hal_app_exit`; `base` is the registry it starts from. */
    method FreeAllThreads(ghost base: Reg)
      requires RingsValid() && threads.Valid() && ThreadsWalkable(base) && base.w == Wires()
      requires base.threads == threads.View() && base.threadMem == threadMem && base.running == running
      modifies this`ringNext, this`ringPrev, this`rings, this`entryMem, this`functMem, this`entryFree
      modifies this`running, this`threadMem, threads
      ensures RingsValid() && threads.Valid()
      ensures var r := FreeThreads(base);
        Wires() == r.w && threads.View() == r.threads && threadMem == r.threadMem && running == r.running
    {
      ghost var r := base;
      assert At(threads.next, Cell(LIVE_ROOT, threads.live, 0)) == Elem(threads.live, 0);
      while At(threads.next, LIVE_ROOT) != 0
        invariant RingsValid() && threads.Valid() && ThreadsWalkable(r) && r.w == Wires()
        invariant r.threads == threads.View() && r.threadMem == threadMem && r.running == running
        invariant At(threads.next, LIVE_ROOT) == Elem(threads.live, 0)
        invariant FreeThreads(base) == FreeThreads(r)
        decreases |threads.live|
      {
        var t := At(threads.next, LIVE_ROOT);
        DropThreadWalkable(r);
        FreeThreadsUnfold(r);
        threads.UnlinkAt(LIVE_ROOT, t, 0);
        FreeThreadStruct(t);
        r := DropThread(r);
        assert At(threads.next, Cell(LIVE_ROOT, threads.live, 0)) == Elem(threads.live, 0);
      }
    }

    /** `hal_start_threads`. */
    method HalStartThreads() returns (status: Status)
      requires Valid()
      modifies this`running, this`state
      ensures Valid() && Outcome(View(), status) == StartThreads(old(View()))
    {
      if Locked(lock, HAL_LOCK_RUN) {
        return Eperm;
      }
      if state == Running {
        return Ealready;
      }
      if state != Active {
        return Einval;
      }
      running, state := true, Running;
      status := Ok;
    }

    /** `hal_stop_threads`. */
    method HalStopThreads() returns (status: Status)
      requires Valid()
      modifies this`running, this`state
      ensures Valid() && Outcome(View(), status) == StopThreads(old(View()))
    {
      if Locked(lock, HAL_LOCK_RUN) {
        return Eperm;
      }
      if state == Active {
        return Ealready;
      }
      if state != Running {
        return Einval;
      }
      running, state := false, Active;
      status := Ok;
    }

    /** `hal_set_lock`. */
    method HalSetLock(bits: nat) returns (status: Status)
      requires Valid()
      modifies this`lock
      ensures Valid() && Outcome(View(), status) == Step(old(View()), OpLock(bits))
    {
      lock := bits;
      status := Ok;
    }

    // -------------------------------------------------------------------------------------------
    // The schedule of a thread.

    /** The two walks of `hal_add_funct_to_thread` to the entry the new one goes after. */
    method FindPlace(t: Off, position: int) returns (found: bool, at: Off, ghost i: nat)
      requires RingsValid() && t in rings && position != 0
      ensures found <==> PlaceFor(|rings[t]|, position).Before?
      ensures found ==> PlaceFor(|rings[t]|, position) == Before(i) && at == Stop(t, rings[t], i)
    {
      at, i, found := t, 0, true;
      var n := 0;
      if position > 0 {
        n := n + 1;
        while n < position
          invariant 1 <= n <= position && i == n - 1 <= |rings[t]| && at == Stop(t, rings[t], i)
        {
          NextStop(t, i);
          at := At(ringNext, at);
          if at == t {
            RingEnd(t, i);
            return false, at, i;
          }
          i, n := i + 1, n + 1;
        }
      } else {
        i, n := |rings[t]| + 1, n - 1;
        while n > position
          invariant position <= n <= -1 && i == |rings[t]| + 2 + n && at == Stop(t, rings[t], i)
          invariant 1 <= i
          decreases n - position
        {
          PrevStop(t, i);
          at := At(ringPrev, at);
          if at == t {
            RingStart(t, i);
            return false, at, i;
          }
          i, n := i - 1, n - 1;
        }
        PrevStop(t, i);
        at := At(ringPrev, at);
        i := i - 1;
      }
    }

    lemma RingStart(t: Off, i: nat)
      requires RingsValid() && t in rings && 1 <= i <= |rings[t]| + 1 && Stop(t, rings[t], i - 1) == t
      ensures i == 1
    {
      assert AllRings(Wires())[t] == rings[t];
      assert Ring(ringNext, ringPrev, t, rings[t]);
    }

    /** The free-ring branch of `alloc_funct_entry_struct`. */
    method PopEntry(e: Off)
      requires RingsValid() && entryFree != [] && e == entryFree[0]
      modifies this`ringNext, this`ringPrev, this`entryFree
      ensures RingsValid() && entryFree == old(entryFree)[1..] && forall r :: !On(AllRings(Wires()), r, e)
    {
      ghost var all := AllRings(Wires());
      RingsRemove(ringNext, ringPrev, all, ENTRY_FREE, 0);
      ringNext, ringPrev := RemovedNext(ringNext, ringPrev, e), RemovedPrev(ringNext, ringPrev, e);
      entryFree := Without(entryFree, 0);
      assert AllRings(Wires()) == all[ENTRY_FREE := Without(all[ENTRY_FREE], 0)];
    }

    /** `list_init_entry` on a newly carved entry. */
    method InitEntry(e: Off)
      requires RingsValid() && forall r :: !On(AllRings(Wires()), r, e)
      modifies this`ringNext, this`ringPrev
      ensures RingsValid()
    {
      ghost var all := AllRings(Wires());
      assert e in all ==> On(all, e, e);
      RingsInit(ringNext, ringPrev, all, e);
      RingsDrop(ringNext[e := e], ringPrev[e := e], all[e := []], e);
      ringNext, ringPrev := ringNext[e := e], ringPrev[e := e];
      assert all[e := []] - {e} == all;
    }

    /** `alloc_funct_entry_struct`. */
    method AllocFunctEntryStruct() returns (e: Off)
      requires RingsValid() && EntryReady(Wires(), arena.View(), sizes.entry) && arena.shmemBot > 0
      modifies this`ringNext, this`ringPrev, this`entryFree, this`entryMem, arena
      ensures RingsValid() && forall r :: !On(AllRings(Wires()), r, e)
      ensures old(entryFree) != [] ==> e == old(entryFree)[0] && entryFree == old(entryFree)[1..] && arena.View() == old(arena.View())
      ensures old(entryFree) == [] ==>
        e == DnStart(old(arena.View()), sizes.entry) && entryFree == [] && arena.View() == Dn(old(arena.View()), sizes.entry)
      ensures entryMem == old(entryMem)[e := NO_ENTRY]
    {
      assert AllRings(Wires())[ENTRY_FREE] == entryFree;
      assert Ring(ringNext, ringPrev, ENTRY_FREE, entryFree);
      assert At(ringNext, Stop(ENTRY_FREE, entryFree, 0)) == Stop(ENTRY_FREE, entryFree, 1);
      var l := At(ringNext, ENTRY_FREE);
      if l != ENTRY_FREE {
        e := l;
        PopEntry(e);
      } else {
        var p := arena.ShmallocDn(sizes.entry);
        e := p;
        InitEntry(e);
      }
      entryMem := entryMem[e := NO_ENTRY];
    }

    /** `list_add_after` of entry `e` behind the `i`-th stop of thread `t`'s ring. */
    method ListAddAfter(e: Off, at: Off, ghost t: Off, ghost i: nat)
      requires RingsValid() && t in rings && i <= |rings[t]| && at == Stop(t, rings[t], i)
      requires forall r :: !On(AllRings(Wires()), r, e)
      modifies this`ringNext, this`ringPrev, this`rings
      ensures RingsValid() && rings == old(rings)[t := Inserted(old(rings)[t], i, e)]
    {
      ghost var all := AllRings(Wires());
      assert all[t] == rings[t];
      RingsAdd(ringNext, ringPrev, all, t, i, e);
      ringNext, ringPrev := AddedNext(ringNext, e, at), AddedPrev(ringNext, ringPrev, e, at);
      rings := rings[t := Inserted(rings[t], i, e)];
      assert AllRings(Wires()) == all[t := Inserted(all[t], i, e)];
    }

    /** The part of `hal_add_funct_to_thread` after the place was found. */
    method PlaceNewEntry(f: Off, t: Off, at: Off, ghost i: nat)
      requires RingsValid() && EntryReady(Wires(), arena.View(), sizes.entry) && arena.shmemBot > 0
      requires t in rings && i <= |rings[t]| && at == Stop(t, rings[t], i)
      modifies this`ringNext, this`ringPrev, this`rings, this`entryMem, this`functMem, this`entryFree, arena
      ensures RingsValid()
      ensures old(entryFree) != [] ==>
        && arena.View() == old(arena.View())
        && Wires() == PlaceEntry(old(Wires()).(entryFree := old(entryFree)[1..]), old(entryFree)[0], f, t, i)
      ensures old(entryFree) == [] ==>
        && arena.View() == Dn(old(arena.View()), sizes.entry)
        && Wires() == PlaceEntry(old(Wires()), DnStart(old(arena.View()), sizes.entry), f, t, i)
    {
      var e := AllocFunctEntryStruct();
      assert PlaceEntry(Wires(), e, f, t, i).entryMem == old(entryMem)[e := Entry(f, Get(functMem, f, NO_FUNCT).code)];
      FillAndLink(e, f, t, at, i);
    }

    /** The writes of the entry, its link and the use count. */
    method FillAndLink(e: Off, f: Off, t: Off, at: Off, ghost i: nat)
      requires RingsValid() && t in rings && i <= |rings[t]| && at == Stop(t, rings[t], i)
      requires forall r :: !On(AllRings(Wires()), r, e)
      modifies this`ringNext, this`ringPrev, this`rings, this`entryMem, this`functMem
      ensures RingsValid() && Wires() == PlaceEntry(old(Wires()), e, f, t, i)
    {
      var v := Get(functMem, f, NO_FUNCT);
      entryMem := entryMem[e := Entry(f, v.code)];
      ListAddAfter(e, at, t, i);
      functMem := functMem[f := v.(users := v.users + 1)];
    }

    method AddEntry(f: Off, t: Off, at: Off, ghost i: nat)
      requires Valid() && EntryReady(Wires(), arena.View(), sizes.entry) && arena.shmemBot > 0
      requires t in rings && i <= |rings[t]| && at == Stop(t, rings[t], i)
      modifies this`ringNext, this`ringPrev, this`rings, this`entryMem, this`functMem, this`entryFree, arena
      ensures Valid()
      ensures var r := old(View()); View() == TakeEntry(r).(w := PlaceEntry(TakeEntry(r).w, TakenEntry(r), f, t, i))
    {
      PlaceNewEntry(f, t, at, i);
    }

    /** `hal_add_funct_to_thread`. */
    method HalAddFunctToThread(fname: string, tname: string, position: int) returns (status: Status)
      requires Valid() && arena.shmemBot > 0 && forall t | t in threads.live :: t in rings
      requires Enabled(View(), OpAdd(fname, tname, position))
      requires EntryAvailable(View()) ==> EntryReady(Wires(), arena.View(), sizes.entry)
      modifies this`ringNext, this`ringPrev, this`rings, this`entryMem, this`functMem, this`entryFree, arena
      ensures Valid() && Outcome(View(), status) == AddFunct(old(View()), fname, tname, position)
    {
      if Locked(lock, HAL_LOCK_CONFIG) {
        return Eperm;
      }
      if position == 0 {
        return Einval;
      }
      var f := functs.FindByName(fname);
      if f == 0 {
        return Einval;
      }
      var v := Get(functMem, f, NO_FUNCT);
      if v.users > 0 && !v.reentrant {
        return Einval;
      }
      var t := threads.FindByName(tname);
      if t == 0 {
        return Einval;
      }
      if v.fp && !Get(threadMem, t, NO_THREAD).fp {
        return Einval;
      }
      FoundName(threads.live, threads.name, tname);
      ghost var i: nat;
      var found, at;
      found, at, i := FindPlace(t, position);
      if !found {
        return Einval;
      }
      AddEntry(f, t, at, i);
      status := Ok;
    }

    /** `hal_del_funct_from_thread`. */
    method HalDelFunctFromThread(fname: string, tname: string) returns (status: Status)
      requires Valid() && forall t | t in threads.live :: t in rings
      modifies this`ringNext, this`ringPrev, this`rings, this`entryMem, this`functMem, this`entryFree
      ensures Valid() && Outcome(View(), status) == DelFunct(old(View()), fname, tname)
    {
      if Locked(lock, HAL_LOCK_CONFIG) {
        return Eperm;
      }
      var f := functs.FindByName(fname);
      if f == 0 || Get(functMem, f, NO_FUNCT).users == 0 {
        return Einval;
      }
      var t := threads.FindByName(tname);
      if t == 0 {
        return Einval;
      }
      FoundName(threads.live, threads.name, tname);
      var entry, j := FindUse(t, f);
      if entry == t {
        return Einval;
      }
      DropEntry(entry, t, j);
      status := Ok;
    }

    /** The search loop of `hal_del_funct_from_thread`; back at the root when the thread has no such entry. */
    method FindUse(t: Off, f: Off) returns (entry: Off, ghost j: nat)
      requires RingsValid() && t in rings
      ensures entry == Stop(t, rings[t], FirstUse(Wires(), t, f, 0) + 1) && j == FirstUse(Wires(), t, f, 0)
      ensures entry == t <==> j == |rings[t]|
    {
      j := 0;
      NextStop(t, 0);
      entry := At(ringNext, t);
      while entry != t && Get(entryMem, entry, NO_ENTRY).funct != f
        invariant j <= |rings[t]| && entry == Stop(t, rings[t], j + 1)
        invariant FirstUse(Wires(), t, f, 0) == FirstUse(Wires(), t, f, j)
        decreases |rings[t]| - j
      {
        NextStop(t, j + 1);
        entry := At(ringNext, entry);
        j := j + 1;
      }
      if entry == t {
        RingEnd(t, j);
      }
    }

    method DropEntry(e: Off, t: Off, ghost j: nat)
      requires Valid() && t in rings && j < |rings[t]| && e == rings[t][j]
      modifies this`ringNext, this`ringPrev, this`rings, this`entryMem, this`functMem, this`entryFree
      ensures Valid() && View() == old(View()).(w := FreeEntry(Unlink(old(Wires()), t, j), e))
    {
      UnlinkAndFreeEntry(e, t, j);
    }

    method UnlinkAndFreeEntry(e: Off, t: Off, ghost j: nat)
      requires RingsValid() && t in rings && j < |rings[t]| && e == rings[t][j]
      modifies this`ringNext, this`ringPrev, this`rings, this`entryMem, this`functMem, this`entryFree
      ensures RingsValid() && Wires() == FreeEntry(Unlink(old(Wires()), t, j), e)
    {
      var _ := ListRemoveEntry(e, t, j);
      FreeFunctEntryStruct(e);
    }

    /** One pass of `thread_task`: the calls it makes, in order. */
    method ThreadPass(t: Off) returns (calls: seq<Invocation>)
      requires Valid() && Core(View()) && t in threads.live
      ensures calls == if running then Calls(Wires(), rings[t], Get(threadMem, t, NO_THREAD).period) else []
    {
      PassReady(View(), t);
      calls := [];
      if running {
        calls := CallEntries(t);
      }
    }

    /** The scan of the function list; no entry on a ring has a null function, so it never breaks off. */
    method CallEntries(t: Off) returns (calls: seq<Invocation>)
      requires RingsValid() && t in rings && forall e | e in rings[t] :: Wires().E(e).funct != 0
      ensures calls == Calls(Wires(), rings[t], Get(threadMem, t, NO_THREAD).period)
    {
      calls := [];
      ghost var i := 0;
      NextStop(t, 0);
      var entry := At(ringNext, t);
      while entry != t
        invariant i <= |rings[t]| && entry == Stop(t, rings[t], i + 1)
        invariant calls == Calls(Wires(), rings[t], Get(threadMem, t, NO_THREAD).period)[..i]
        decreases |rings[t]| - i
      {
        var v := Get(entryMem, entry, NO_ENTRY);
        calls := calls + [Invocation(v.code, Get(threadMem, t, NO_THREAD).period)];
        if v.funct == 0 {
          break;
        }
        NextStop(t, i + 1);
        entry := At(ringNext, entry);
        i := i + 1;
      }
      RingEnd(t, i);
    }

    // -------------------------------------------------------------------------------------------
    // Runs.

    /** One section, whichever it is, and the memory it hands out. */
    method Apply(op: Op) returns (status: Status, memory: seq<Block>)
      requires Valid() && Inv(View()) && Enabled(View(), op)
      modifies this, arena, comps, functs, params, pins, threads
      ensures Valid() && Inv(View()) && Outcome(View(), status) == Step(old(View()), op)
      ensures memory == Handed(old(View()), op)
    {
      Ready(View());
      StepKeepsInv(View(), op);
      if op.OpMalloc? {
        var p := HalMalloc(op.size);
        status := if p != 0 then Ok else Enomem;
        memory := if p != 0 then [Block(p, op.size)] else [];
      } else {
        status := Perform(op);
        memory := [];
      }
    }

    method Perform(op: Op) returns (status: Status)
      requires Valid() && SectionsReady(View()) && Enabled(View(), op) && !op.OpMalloc?
      modifies this, arena, comps, functs, params, pins, threads
      ensures Valid() && Outcome(View(), status) == Step(old(View()), op)
    {
      if op.OpCreate? || op.OpAppExit? || op.OpStart? || op.OpStop? || op.OpLock? {
        status := PerformOnThreads(op);
      } else {
        match op {
          case OpInit(nm, id) => status := HalInit(nm, id);
          case OpExit(id) => status := HalExit(id);
          case OpReady(id, ready) => status := HalSetReady(id, ready);
          case OpExport(nm, code, fp, reentrant, id) => status := HalExportFunct(nm, code, fp, reentrant, id);
          case OpParam(nm, typeOk, dirOk, inShm, id) => status := HalParamNew(nm, typeOk, dirOk, inShm, id);
          case OpPin(nm, typeOk, inShm, id) => status := HalPinNew(nm, typeOk, inShm, id);
          case OpAdd(fname, tname, position) => status := HalAddFunctToThread(fname, tname, position);
          case OpDel(fname, tname) => status := HalDelFunctFromThread(fname, tname);
        }
      }
    }

    method PerformOnThreads(op: Op) returns (status: Status)
      requires Valid() && Enabled(View(), op) && ThreadSectionsReady(View())
      requires op.OpCreate? || op.OpAppExit? || op.OpStart? || op.OpStop? || op.OpLock?
      modifies this, arena, threads
      ensures Valid() && Outcome(View(), status) == Step(old(View()), op)
    {
      match op {
        case OpCreate(nm, period, fp, priority, newOk, startOk) =>
          status := HalCreateThread(nm, period, fp, priority, newOk, startOk);
        case OpAppExit =>
          HalAppExit();
          status := Ok;
        case OpStart => status := HalStartThreads();
        case OpStop => status := HalStopThreads();
        case OpLock(bits) => status := HalSetLock(bits);
      }
    }

    /**
     Any run of sections takes the linked structures where the registry run goes, keeps them well
     formed, and hands out the memory that the run's requests got.
     */
    method ApplyAll(ops: seq<Op>) returns (memory: seq<Block>)
      requires Valid() && Inv(View()) && EnabledRun(View(), ops)
      modifies this, arena, comps, functs, params, pins, threads
      ensures Valid() && Inv(View()) && View() == Run(old(View()), ops)
      ensures memory == HeapBlocks(old(View()), ops)
      decreases |ops|
    {
      memory := [];
      if ops != [] {
        var _, first := Apply(ops[0]);
        var rest := ApplyAll(ops[1..]);
        memory := first + rest;
      }
    }
  }

  lemma OneEmptyRing(x: Off)
    ensures RingsOk(map[x := x], map[x := x], map[x := []])
  {
  }

  /** What the function walk needs: good lists, and a ring for every listed thread. */
  ghost predicate Walkable(r: Reg) {
    && Distinct(r.functs.live) && (forall x | x in r.functs.live :: x !in r.functs.free && x > 2)
    && forall t | t in r.threads.live :: t in r.w.rings
  }

  lemma DropWalkable(r: Reg, i: nat)
    requires Walkable(r) && i < |r.functs.live|
    ensures var f := r.functs.live[i];
      f > 2 && f !in Without(r.functs.live, i) && f !in r.functs.free && Without(r.functs.live, i)[..i] == r.functs.live[..i]
    ensures Walkable(DropFunct(r, i)) && DropFunct(r, i).threads == r.threads
  {
    DistinctWithout(r.functs.live, i);
    assert r.functs.live[i] in r.functs.live;
    SweepThreadsKeys(r.w, r.threads.live, r.functs.live[i]);
  }

  lemma {:induction false} SweepRingKeys(w: Wiring, t: Off, f: Off, i: nat)
    requires t in w.rings && i <= |w.rings[t]|
    ensures SweepRing(w, t, f, i).rings.Keys == w.rings.Keys
    decreases |w.rings[t]| - i
  {
    if i < |w.rings[t]| {
      if w.E(w.rings[t][i]).funct == f {
        FreeOneLocal(w, t, i);
        SweepRingKeys(FreeEntry(Unlink(w, t, i), w.rings[t][i]), t, f, i);
      } else {
        SweepRingKeys(w, t, f, i + 1);
      }
    }
  }

  lemma {:induction false} SweepThreadsKeys(w: Wiring, ts: seq<Off>, f: Off)
    requires forall t | t in ts :: t in w.rings
    ensures SweepThreads(w, ts, f).rings.Keys == w.rings.Keys
    decreases |ts|
  {
    if ts != [] {
      SweepRingKeys(w, ts[0], f, 0);
      SweepThreadsKeys(SweepRing(w, ts[0], f, 0), ts[1..], f);
    }
  }

  lemma {:induction false} FreeFunctsKeepRest(r: Reg, c: Off, i: nat)
    requires i <= |r.functs.live|
    ensures FunctsFrame(r, FreeFuncts(r, c, i))
    decreases |r.functs.live| - i
  {
    if i < |r.functs.live| {
      FreeFunctsUnfold(r, c, i);
      if r.w.F(r.functs.live[i]).owner == c {
        FreeFunctsKeepRest(DropFunct(r, i), c, i);
      } else {
        FreeFunctsKeepRest(r, c, i + 1);
      }
    }
  }

  /** The loops of `free_comp_struct` see nothing of the component list. */
  lemma {:induction false} FreeFunctsIgnoreComps(r: Reg, p: Pool, c: Off, i: nat)
    requires i <= |r.functs.live|
    ensures FreeFuncts(r.(comps := p), c, i) == FreeFuncts(r, c, i).(comps := p)
    decreases |r.functs.live| - i
  {
    if i < |r.functs.live| {
      FreeFunctsUnfold(r, c, i);
      FreeFunctsUnfold(r.(comps := p), c, i);
      if r.w.F(r.functs.live[i]).owner == c {
        FreeFunctsIgnoreComps(DropFunct(r, i), p, c, i);
      } else {
        FreeFunctsIgnoreComps(r, p, c, i + 1);
      }
    }
  }

  lemma {:induction false} FreeParamsIgnoreComps(r: Reg, p: Pool, c: Off, i: nat)
    requires i <= |r.params.live|
    ensures FreeParams(r.(comps := p), c, i) == FreeParams(r, c, i).(comps := p)
    decreases |r.params.live| - i
  {
    if i < |r.params.live| {
      FreeParamsUnfold(r, c, i);
      FreeParamsUnfold(r.(comps := p), c, i);
      if Get(r.paramOwner, r.params.live[i], 0) == c {
        FreeParamsIgnoreComps(DropParam(r, i), p, c, i);
      } else {
        FreeParamsIgnoreComps(r, p, c, i + 1);
      }
    }
  }

  /** The registry after `hal_exit` deleted component `c`, the `i`-th of the list, part by part. */
  ghost function ExitedParts(r: Reg, c: Off, i: nat): Reg
    requires i < |r.comps.live|
  {
    var r1 := FreeFuncts(r, c, 0);
    var r2 := FreeParams(r1, c, 0);
    r.(w := r2.w, functs := r2.functs, params := r2.params, paramOwner := r2.paramOwner,
       comps := Give(r.comps.(live := Without(r.comps.live, i)), c), compMem := r.compMem[c := NO_COMP.(ready := r.C(c).ready)])
  }

  lemma FreeCompParts(r: Reg, i: nat)
    requires i < |r.comps.live|
    ensures var c := r.comps.live[i];
      FreeComp(r.(comps := r.comps.(live := Without(r.comps.live, i))), c) == ExitedParts(r, c, i)
  {
    var c, p := r.comps.live[i], r.comps.(live := Without(r.comps.live, i));
    FreeFunctsKeepRest(r, c, 0);
    FreeFunctsIgnoreComps(r, p, c, 0);
    FreeParamsFrame(FreeFuncts(r, c, 0), c, 0);
    FreeParamsIgnoreComps(FreeFuncts(r, c, 0), p, c, 0);
  }

  ghost predicate ParamsWalkable(r: Reg) {
    Distinct(r.params.live) && forall x | x in r.params.live :: x !in r.params.free && x > 2
  }

  lemma DropParamWalkable(r: Reg, i: nat)
    requires ParamsWalkable(r) && i < |r.params.live|
    ensures var x := r.params.live[i];
      x > 2 && x !in Without(r.params.live, i) && x !in r.params.free && Without(r.params.live, i)[..i] == r.params.live[..i]
    ensures ParamsWalkable(DropParam(r, i))
  {
    DistinctWithout(r.params.live, i);
    assert r.params.live[i] in r.params.live;
  }

  /** A struct can be allocated: the lists and the gap are in order. */
  ghost predicate CanTake(p: Pool, g: Gap) {
    PoolOk(p, g) && 2 < g.bot <= g.top
  }

  /** A thread struct can be allocated, and the next one lies outside every ring. */
  ghost predicate ThreadsReady(w: Wiring, p: Pool, g: Gap, size: nat) {
    var x := Take(p, g, size).x;
    CanTake(p, g) && size > 0 && (x != 0 ==> x > 2 && forall r :: !On(AllRings(w), r, x))
  }

  lemma ThreadStructsReady(w: Wiring, p: Pool, g: Gap, size: nat)
    requires CanTake(p, g) && RingsBase(w, p, g.top) && size > 0
    ensures ThreadsReady(w, p, g, size)
  {
    TakeFresh(p, g, size);
    var x := Take(p, g, size).x;
    if x != 0 {
      assert x in p.free || x < g.top;
      NotMember(AllRings(w), x);
    }
  }

  /** An entry can be allocated, and a newly carved one lies outside every ring. */
  ghost predicate EntryReady(w: Wiring, g: Gap, size: nat) {
    w.entryFree != [] ||
    (DnFits(g, size) && DnStart(g, size) > 0 && forall r :: !On(AllRings(w), r, DnStart(g, size)))
  }

  ghost predicate ThreadsWalkable(r: Reg) {
    && Distinct(r.threads.live)
    && forall t | t in r.threads.live :: t in r.w.rings && t !in r.threads.free && t > 2
  }

  lemma DropThreadWalkable(r: Reg)
    requires ThreadsWalkable(r) && r.threads.live != []
    ensures ThreadsWalkable(DropThread(r))
    ensures Without(r.threads.live, 0) == r.threads.live[1..] && r.threads.live[0] !in r.threads.live[1..]
  {
    DropThreadRings(r);
    var t, rest := r.threads.live[0], r.threads.live[1..];
    assert r.threads.live == [t] + rest;
    assert Distinct(rest) && t !in rest;
    forall u | u in rest ensures u in DropThread(r).w.rings && u !in DropThread(r).threads.free && u > 2 {
      assert u in r.threads.live;
    }
  }

  lemma DropThreadRings(r: Reg)
    requires r.threads.live != [] && r.threads.live[0] in r.w.rings
    ensures DropThread(r).w.rings == r.w.rings - {r.threads.live[0]}
    ensures DropThread(r).threads == Give(r.threads.(live := r.threads.live[1..]), r.threads.live[0])
  {
    EmptyRingRings(r.w, r.threads.live[0]);
  }

  lemma FreeThreadsUnfold(r: Reg)
    requires r.threads.live != []
    ensures FreeThreads(r) == FreeThreads(DropThread(r))
  {
  }

  /** What the sections need of the registry they start from. */
  ghost predicate SectionsReady(r: Reg) {
    && CanTake(r.comps, r.gap) && CanTake(r.functs, r.gap) && CanTake(r.params, r.gap) && CanTake(r.pins, r.gap)
    && r.sizes.Valid() && ThreadSectionsReady(r) && Exitable(r)
  }

  ghost predicate ThreadSectionsReady(r: Reg) {
    && ThreadsReady(r.w, r.threads, r.gap, r.sizes.thread) && ThreadsWalkable(r)
    && (EntryAvailable(r) ==> EntryReady(r.w, r.gap, r.sizes.entry))
  }

  lemma Ready(r: Reg)
    requires Base(r)
    ensures SectionsReady(r)
  {
    ThreadStructsReady(r.w, r.threads, r.gap, r.sizes.thread);
    if r.w.entryFree == [] && EntryAvailable(r) {
      DnBelow(r.gap, r.sizes.entry);
      NotMember(AllRings(r.w), DnStart(r.gap, r.sizes.entry));
    }
  }

  lemma PassReady(r: Reg, t: Off)
    requires Core(r) && t in r.threads.live
    ensures t in r.w.rings && forall e | e in r.w.rings[t] :: r.w.E(e).funct != 0
  {
    forall e | e in r.w.rings[t] ensures r.w.E(e).funct != 0 {
      assert e in r.w.RingOf(t) && EntryOk(r.w, r.T(t), e, Live(r.functs));
    }
  }

  lemma ExitReady(r: Reg, i: nat)
    requires Exitable(r) && i < |r.comps.live|
    ensures var c := r.comps.live[i]; c > 2 && c !in Without(r.comps.live, i) && c !in r.comps.free
  {
    DistinctWithout(r.comps.live, i);
    assert r.comps.live[i] in r.comps.live;
  }

  /** What `hal_exit` needs: all three lists it walks are in order. */
  ghost predicate Exitable(r: Reg) {
    && Walkable(r) && ParamsWalkable(r) && Distinct(r.comps.live)
    && forall c | c in r.comps.live :: c !in r.comps.free && c > 2
  }

  ghost predicate ThreadsFreed(r: Reg, r': Reg) {
    var f := FreeThreads(r);
    r'.w == f.w && r'.threads == f.threads && r'.threadMem == f.threadMem && r'.running == f.running
  }

  lemma SameThreadsFreed(r: Reg, r': Reg)
    requires r' == r.(w := r'.w, threads := r'.threads, threadMem := r'.threadMem, running := r'.running) && ThreadsFreed(r, r')
    ensures r' == FreeThreads(r)
  {
    FreeThreadsFrame(r);
  }

  lemma IdIndexIsOnly(s: seq<Off>, mem: map<Off, Comp>, id: int, i: nat)
    requires i <= |s| && forall k | 0 <= k < i :: Get(mem, s[k], NO_COMP).id != id
    requires i < |s| ==> Get(mem, s[i], NO_COMP).id == id
    ensures IdIndex(s, mem, id) == i
  {
  }
}
