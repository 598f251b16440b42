/**
 The invariant of the registry.

 Lists are null-terminated and disjoint, rings are closed and disjoint, names are strictly
 increasing, every use count is the number of entries that use the function, and every entry, every
 function and every parameter refers to something that is still registered.
 */
module Invariant {
  import opened Links
  import opened Names
  import opened Arena
  import opened Registry
  import opened Sweeps

  ghost predicate GapOk(r: Reg) {
    r.sizes.Valid() && r.sizes.header <= r.gap.bot <= r.gap.top
  }

  ghost predicate PoolOk(p: Pool, g: Gap) {
    && Distinct(p.live) && Distinct(p.free)
    && (forall x | x in p.live :: x !in p.free && g.top <= x)
    && (forall x | x in p.free :: g.top <= x)
  }

  /** Threads have disjoint rings, no struct is both a thread and an entry, and all lies above `top`. */
  ghost predicate RingsBase(w: Wiring, threads: Pool, top: int) {
    && RingShape(w)
    && (forall t :: t in w.rings <==> t in threads.live)
    && (forall e | e in Members(AllRings(w)) :: top <= e)
    && (forall t | t in threads.live || t in threads.free :: t !in Members(AllRings(w)))
  }

  ghost predicate Base(r: Reg) {
    && GapOk(r)
    && PoolOk(r.comps, r.gap) && PoolOk(r.functs, r.gap) && PoolOk(r.params, r.gap)
    && PoolOk(r.pins, r.gap) && PoolOk(r.threads, r.gap)
    && RingsBase(r.w, r.threads, r.gap.top)
  }

  ghost predicate NamesSorted(p: Pool) {
    Sorted(NamesOf(p.live, p.name))
  }

  ghost predicate IdsOk(r: Reg) {
    && (forall x | x in r.comps.live :: 0 <= r.C(x).id <= r.lastId && Get(r.comps.name, x, "") == "")
    && (forall x, y | x in r.comps.live && y in r.comps.live && r.C(x).id == r.C(y).id :: x == y)
  }

  ghost predicate ThreadNamesUnique(r: Reg) {
    forall t, u | t in r.threads.live && u in r.threads.live && r.ThreadName(t) == r.ThreadName(u) :: t == u
  }

  ghost predicate Named(r: Reg) {
    && NamesSorted(r.functs) && NamesSorted(r.params) && NamesSorted(r.pins)
    && ThreadNamesUnique(r) && IdsOk(r)
  }

  /** An entry on a thread's ring names a known function, runs its code, and fits the thread. */
  ghost predicate EntryOk(w: Wiring, thread: Thread, e: Off, known: set<Off>) {
    var f := w.E(e).funct;
    f in known && w.E(e).code == w.F(f).code && (w.F(f).fp ==> thread.fp)
  }

  ghost predicate LinksOk(w: Wiring, ts: seq<Off>, tm: map<Off, Thread>, known: set<Off>) {
    forall t, e | t in ts && e in w.RingOf(t) :: EntryOk(w, Get(tm, t, NO_THREAD), e, known)
  }

  /** `users` counts the entries that name the function; a non-reentrant function has at most one. */
  ghost predicate CountOk(w: Wiring, ts: seq<Off>, f: Off) {
    f != 0 && w.F(f).users == Uses(w, ts, f) && (!w.F(f).reentrant ==> w.F(f).users <= 1)
  }

  ghost predicate CountsOk(w: Wiring, ts: seq<Off>, known: set<Off>) {
    forall f | f in known :: CountOk(w, ts, f)
  }

  ghost function Live(p: Pool): set<Off> {
    SetOf(p.live)
  }

  ghost predicate Linked(r: Reg) {
    && LinksOk(r.w, r.threads.live, r.threadMem, Live(r.functs))
    && CountsOk(r.w, r.threads.live, Live(r.functs))
  }

  ghost predicate Owned(r: Reg) {
    && (forall f | f in r.functs.live :: r.w.F(f).owner in r.comps.live)
    && (forall x | x in r.params.live :: Get(r.paramOwner, x, 0) in r.comps.live)
  }

  ghost predicate Core(r: Reg) {
    Base(r) && Named(r) && Linked(r)
  }

  ghost predicate Inv(r: Reg) {
    Core(r) && Owned(r)
  }

  // ---------------------------------------------------------------------------------------------
  // Pools.

  lemma PoolWithout(p: Pool, g: Gap, i: nat)
    requires PoolOk(p, g) && i < |p.live|
    ensures PoolOk(p.(live := Without(p.live, i)), g)
    ensures p.live[i] !in Without(p.live, i) && p.live[i] !in p.free
  {
    DistinctWithout(p.live, i);
  }

  lemma PoolGive(p: Pool, g: Gap, x: Off)
    requires PoolOk(p, g) && x !in p.live && x !in p.free && g.top <= x
    ensures PoolOk(Give(p, x), g)
  {
  }

  lemma DnBelow(g: Gap, size: nat)
    ensures DnStart(g, size) + size <= g.top
  {
    RoundDownAligned(g.top - size, Alignment(size));
  }

  /** `alloc_*_struct` hands out a struct that is on no list of its kind. */
  lemma TakeFresh(p: Pool, g: Gap, size: nat)
    requires PoolOk(p, g) && 0 < g.bot <= g.top && size > 0
    ensures var k := Take(p, g, size);
      && PoolOk(k.pool, k.gap) && k.gap.bot == g.bot <= k.gap.top <= g.top
      && k.pool.live == p.live
      && (k.x == 0 ==> k.pool == p && k.gap == g)
      && (k.x != 0 ==> k.x !in k.pool.live && k.x !in k.pool.free && k.gap.top <= k.x)
      && (k.x != 0 ==> k.pool.name == p.name[k.x := ""])
      && (p.free != [] ==> k.x == p.free[0] && k.pool.free == p.free[1..] && k.gap == g)
      && (p.free == [] ==> k.pool.free == [] && (k.x != 0 ==> k.x + size <= g.top))
  {
    var k := Take(p, g, size);
    DnBelow(g, size);
    if p.free != [] {
      assert p.free == [p.free[0]] + p.free[1..];
      assert p.free[0] in p.free && forall x | x in k.pool.free :: x in p.free;
    } else if k.x != 0 {
      assert k.x == DnStart(g, size) == k.gap.top < g.top;
      assert k.x !in p.live;
    }
  }

  lemma SortedWithout(p: Pool, i: nat)
    requires NamesSorted(p) && i < |p.live|
    ensures NamesSorted(p.(live := Without(p.live, i)))
  {
    var s, n := Without(p.live, i), NamesOf(p.live, p.name);
    var m := NamesOf(s, p.name);
    forall a, b | 0 <= a < b < |m| ensures StrCmp(m[a], m[b]) < 0 {
      var a', b' := if a < i then a else a + 1, if b < i then b else b + 1;
      assert StrCmp(n[a'], n[b']) < 0;
    }
  }

  lemma NamesFrame(s: seq<Off>, name: map<Off, string>, name': map<Off, string>)
    requires forall x | x in s :: Get(name, x, "") == Get(name', x, "")
    ensures NamesOf(s, name) == NamesOf(s, name')
  {
  }

  /** The sorted insert of the three lists: a new struct named `key`, linked at its slot. */
  lemma SortedInsert(p: Pool, x: Off, key: string)
    requires NamesSorted(p) && x !in p.live && !HasName(NamesOf(p.live, p.name), key)
    ensures var i := Slot(NamesOf(p.live, p.name), key);
      var p' := p.(live := Inserted(p.live, i, x), name := p.name[x := key]);
      && NamesSorted(p')
      && NamesOf(p'.live, p'.name) == Inserted(NamesOf(p.live, p.name), i, key)
  {
    var n := NamesOf(p.live, p.name);
    var i := Slot(n, key);
    InsertKeepsSorted(n, key);
    var m := NamesOf(Inserted(p.live, i, x), p.name[x := key]);
    assert m == Inserted(n, i, key);
  }

  // ---------------------------------------------------------------------------------------------
  // Freeing one function.

  /** What the sweep of `free_funct_struct` does to the wiring, when the use counts can be trusted. */
  ghost predicate Freed(w: Wiring, w': Wiring, f: Off) {
    && SameEntries(w, w')
    && (forall t | t in w.rings :: w'.rings[t] == Keep(w.rings[t], w.entryMem, {f}))
    && (forall e | w.E(e).funct != f :: w'.E(e) == w.E(e))
    && (forall g | g != f :: w'.F(g) == w.F(g))
  }

  lemma FreeFunctEffect(r: Reg, f: Off)
    requires RingShape(r.w) && CountOk(r.w, r.threads.live, f)
    requires Distinct(r.threads.live) && forall t :: t in r.w.rings <==> t in r.threads.live
    ensures FreeFunct(r, f) == r.(w := FreeFunct(r, f).w, functs := Give(r.functs, f))
    ensures Freed(r.w, FreeFunct(r, f).w, f)
  {
    var w := r.w;
    if w.F(f).users > 0 {
      SweepThreadsSafe(w, r.threads.live, f);
      SweepThreadsKeeps(w, r.threads.live, f);
      FreedClear(w, SweepThreads(w, r.threads.live, f), f);
    } else {
      UsesPositive(w, r.threads.live, f);
      forall t | t in w.rings ensures w.rings[t] == Keep(w.rings[t], w.entryMem, {f}) {
        forall e | e in w.rings[t] ensures w.E(e).funct != f {
          assert t in r.threads.live && e in w.RingOf(t);
        }
        KeepAll(w.rings[t], w.entryMem, {f});
      }
      FreedClear(w, w, f);
    }
  }

  /** Clearing the function struct itself at the end. */
  lemma FreedClear(w: Wiring, w': Wiring, f: Off)
    requires Freed(w, w', f)
    ensures Freed(w, w'.(functMem := w'.functMem[f := NO_FUNCT]), f)
  {
    assert AllRings(w'.(functMem := w'.functMem[f := NO_FUNCT])) == AllRings(w');
  }

  /** After the sweep the remaining functions still have exact counts and only live links. */
  lemma FreedLinks(w: Wiring, w': Wiring, f: Off, ts: seq<Off>, tm: map<Off, Thread>, known: set<Off>)
    requires Freed(w, w', f) && f !in known && forall t | t in ts :: t in w.rings
    requires LinksOk(w, ts, tm, known + {f})
    ensures LinksOk(w', ts, tm, known)
  {
    forall t, e | t in ts && e in w'.RingOf(t) ensures EntryOk(w', Get(tm, t, NO_THREAD), e, known) {
      KeepMembers(w.rings[t], w.entryMem, {f});
      assert e in w.RingOf(t) && EntryOk(w, Get(tm, t, NO_THREAD), e, known + {f});
    }
  }

  lemma FreedCount(w: Wiring, w': Wiring, f: Off, ts: seq<Off>, g: Off)
    requires Freed(w, w', f) && f != g && forall t | t in ts :: t in w.rings
    ensures CountOk(w, ts, g) ==> CountOk(w', ts, g)
  {
    forall t | t in ts ensures Count(w.RingOf(t), w.entryMem, g) == Count(w'.RingOf(t), w'.entryMem, g) {
      var k := Keep(w.rings[t], w.entryMem, {f});
      KeepMembers(w.rings[t], w.entryMem, {f});
      CountKeep(w.rings[t], w.entryMem, {f}, g);
      forall e | e in k ensures w'.E(e) == w.E(e) {}
      CountFrame(k, w.entryMem, w'.entryMem, g);
    }
    UsesFrame(w, w', ts, g);
  }

  /** One iteration of the function loop of `free_comp_struct`. */
  function DropFunct(r: Reg, i: nat): Reg
    requires i < |r.functs.live|
  {
    FreeFunct(r.(functs := r.functs.(live := Without(r.functs.live, i))), r.functs.live[i])
  }

  ghost predicate Dropped(r: Reg, r': Reg, i: nat)
    requires i < |r.functs.live|
  {
    var f := r.functs.live[i];
    && r' == r.(w := r'.w, functs := Give(r.functs.(live := Without(r.functs.live, i)), f))
    && Freed(r.w, r'.w, f)
  }

  lemma DropFunctEffect(r: Reg, i: nat)
    requires Base(r) && Linked(r) && i < |r.functs.live|
    ensures Dropped(r, DropFunct(r, i), i) && Linked(DropFunct(r, i))
  {
    var f := r.functs.live[i];
    var p1 := r.functs.(live := Without(r.functs.live, i));
    var w' := DropFunct(r, i).w;
    DistinctWithout(r.functs.live, i);
    assert Live(p1) + {f} == Live(r.functs);
    FreeFunctEffect(r.(functs := p1), f);
    FreedLinks(r.w, w', f, r.threads.live, r.threadMem, Live(p1));
    assert Live(DropFunct(r, i).functs) == Live(p1);
    forall g | g in Live(p1) ensures CountOk(w', r.threads.live, g) {
      FreedCount(r.w, w', f, r.threads.live, g);
    }
  }

  lemma DropFunctBase(r: Reg, r': Reg, i: nat)
    requires Base(r) && i < |r.functs.live| && Dropped(r, r', i)
    ensures Base(r')
  {
    PoolWithout(r.functs, r.gap, i);
    PoolGive(r.functs.(live := Without(r.functs.live, i)), r.gap, r.functs.live[i]);
  }

  lemma DropFunctNamed(r: Reg, r': Reg, i: nat)
    requires Named(r) && i < |r.functs.live| && Distinct(r.functs.live) && Dropped(r, r', i)
    ensures Named(r')
  {
    var p1 := r.functs.(live := Without(r.functs.live, i));
    DistinctWithout(r.functs.live, i);
    SortedWithout(r.functs, i);
    NamesFrame(p1.live, p1.name, r'.functs.name);
  }

  lemma DropFunctCore(r: Reg, i: nat)
    requires Core(r) && i < |r.functs.live|
    ensures Core(DropFunct(r, i)) && Dropped(r, DropFunct(r, i), i)
  {
    DropFunctEffect(r, i);
    DropFunctBase(r, DropFunct(r, i), i);
    DropFunctNamed(r, DropFunct(r, i), i);
  }
}
