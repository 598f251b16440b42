/**
 What the entry sweeps of `hal_lib.c` do to the rings and to the use counts.

 The sweeps remove entries from a ring while they walk it.  Here each walk is given its meaning:
 the ring becomes the in-order subsequence of the entries that survive, every other ring and every
 other function's count stays, and the removed entries are on the free ring.
 */
module Sweeps {
  import opened Links
  import opened Registry

  /** All rings of the segment: one per thread, and the free ring. */
  ghost function AllRings(w: Wiring): Rings {
    w.rings[ENTRY_FREE := w.entryFree]
  }

  ghost predicate RingShape(w: Wiring) {
    && ENTRY_FREE !in w.rings
    && Apart(AllRings(w))
    && ENTRY_FREE !in w.entryFree && Distinct(w.entryFree)
    && forall t | t in w.rings :: t !in w.rings[t] && Distinct(w.rings[t])
  }

  /** The entries on a family of rings. */
  ghost function Members(rings: Rings): set<Off> {
    set k, x | k in rings && x in rings[k] :: x
  }

  /** The in-order subsequence of entries whose function is not in `dead`. */
  function Keep(s: seq<Off>, em: map<Off, Entry>, dead: set<Off>): seq<Off> {
    if s == [] then []
    else if Get(em, s[0], NO_ENTRY).funct in dead then Keep(s[1..], em, dead)
    else [s[0]] + Keep(s[1..], em, dead)
  }

  /** Number of entries of `s` that run `f`. */
  function Count(s: seq<Off>, em: map<Off, Entry>, f: Off): nat {
    if s == [] then 0
    else
      (if Get(em, s[0], NO_ENTRY).funct == f then 1 else 0) + Count(s[1..], em, f)
  }

  /** Number of entries that run `f` over the rings of the threads `ts`. */
  function Uses(w: Wiring, ts: seq<Off>, f: Off): nat {
    if ts == [] then 0 else Count(w.RingOf(ts[0]), w.entryMem, f) + Uses(w, ts[1..], f)
  }

  // ---------------------------------------------------------------------------------------------
  // Keep and Count.

  lemma {:induction false} KeepMembers(s: seq<Off>, em: map<Off, Entry>, dead: set<Off>)
    ensures forall e :: e in Keep(s, em, dead) <==> e in s && Get(em, e, NO_ENTRY).funct !in dead
  {
    if s != [] {
      KeepMembers(s[1..], em, dead);
      assert s == [s[0]] + s[1..];
    }
  }

  lemma {:induction false} KeepDistinct(s: seq<Off>, em: map<Off, Entry>, dead: set<Off>)
    requires Distinct(s)
    ensures Distinct(Keep(s, em, dead))
  {
    if s != [] {
      KeepDistinct(s[1..], em, dead);
      KeepMembers(s[1..], em, dead);
    }
  }

  lemma {:induction false} CountPositive(s: seq<Off>, em: map<Off, Entry>, f: Off)
    ensures Count(s, em, f) > 0 <==> exists e :: e in s && Get(em, e, NO_ENTRY).funct == f
  {
    if s != [] {
      CountPositive(s[1..], em, f);
      assert s == [s[0]] + s[1..];
    }
  }

  lemma {:induction false} KeepFrame(s: seq<Off>, em: map<Off, Entry>, em': map<Off, Entry>, dead: set<Off>)
    requires forall e | e in s :: Get(em, e, NO_ENTRY) == Get(em', e, NO_ENTRY)
    ensures Keep(s, em, dead) == Keep(s, em', dead)
  {
    if s != [] {
      KeepFrame(s[1..], em, em', dead);
    }
  }

  lemma {:induction false} CountFrame(s: seq<Off>, em: map<Off, Entry>, em': map<Off, Entry>, f: Off)
    requires forall e | e in s :: Get(em, e, NO_ENTRY).funct == f <==> Get(em', e, NO_ENTRY).funct == f
    ensures Count(s, em, f) == Count(s, em', f)
  {
    if s != [] {
      CountFrame(s[1..], em, em', f);
    }
  }

  lemma {:induction false} CountConcat(a: seq<Off>, b: seq<Off>, em: map<Off, Entry>, f: Off)
    ensures Count(a + b, em, f) == Count(a, em, f) + Count(b, em, f)
  {
    if a == [] {
      assert a + b == b;
    } else {
      assert (a + b)[1..] == a[1..] + b;
      CountConcat(a[1..], b, em, f);
    }
  }

  lemma {:induction false} CountKeep(s: seq<Off>, em: map<Off, Entry>, dead: set<Off>, f: Off)
    ensures Count(Keep(s, em, dead), em, f) == if f in dead then 0 else Count(s, em, f)
  {
    if s != [] {
      CountKeep(s[1..], em, dead, f);
      var k := Keep(s[1..], em, dead);
      if Get(em, s[0], NO_ENTRY).funct !in dead {
        assert ([s[0]] + k)[1..] == k;
      }
    }
  }

  lemma {:induction false} KeepAll(s: seq<Off>, em: map<Off, Entry>, dead: set<Off>)
    requires forall e | e in s :: Get(em, e, NO_ENTRY).funct !in dead
    ensures Keep(s, em, dead) == s
  {
    if s != [] {
      KeepAll(s[1..], em, dead);
    }
  }

  lemma {:induction false} KeepTwice(s: seq<Off>, em: map<Off, Entry>, a: set<Off>, b: set<Off>)
    ensures Keep(Keep(s, em, a), em, b) == Keep(s, em, a + b)
  {
    if s != [] {
      KeepTwice(s[1..], em, a, b);
      var k := Keep(s[1..], em, a);
      if Get(em, s[0], NO_ENTRY).funct !in a {
        assert ([s[0]] + k)[1..] == k;
      }
    }
  }

  lemma CountWithout(s: seq<Off>, i: nat, em: map<Off, Entry>, f: Off)
    requires i < |s|
    ensures Count(s, em, f) == Count(Without(s, i), em, f) + if Get(em, s[i], NO_ENTRY).funct == f then 1 else 0
  {
    assert s == s[..i] + [s[i]] + s[i + 1..];
    CountConcat(s[..i], [s[i]] + s[i + 1..], em, f);
    CountConcat([s[i]], s[i + 1..], em, f);
    CountConcat(s[..i], s[i + 1..], em, f);
    assert s == s[..i] + ([s[i]] + s[i + 1..]);
  }

  lemma CountInserted(s: seq<Off>, i: nat, x: Off, em: map<Off, Entry>, f: Off)
    requires i <= |s|
    ensures Count(Inserted(s, i, x), em, f) == Count(s, em, f) + if Get(em, x, NO_ENTRY).funct == f then 1 else 0
  {
    var longer := Inserted(s, i, x);
    CountWithout(longer, i, em, f);
    assert Without(longer, i) == s;
  }

  lemma {:induction false} UsesFrame(w: Wiring, w': Wiring, ts: seq<Off>, f: Off)
    requires forall t | t in ts :: Count(w.RingOf(t), w.entryMem, f) == Count(w'.RingOf(t), w'.entryMem, f)
    ensures Uses(w, ts, f) == Uses(w', ts, f)
  {
    if ts != [] {
      UsesFrame(w, w', ts[1..], f);
    }
  }

  /** The total changes by what one thread's ring changes. */
  lemma {:induction false} UsesOneRing(w: Wiring, w': Wiring, ts: seq<Off>, t: Off, f: Off)
    requires Distinct(ts) && t in ts
    requires forall u | u in ts && u != t :: Count(w.RingOf(u), w.entryMem, f) == Count(w'.RingOf(u), w'.entryMem, f)
    ensures Uses(w', ts, f) - Count(w'.RingOf(t), w'.entryMem, f) == Uses(w, ts, f) - Count(w.RingOf(t), w.entryMem, f)
  {
    if ts[0] == t {
      assert t !in ts[1..];
      UsesFrame(w, w', ts[1..], f);
    } else {
      UsesOneRing(w, w', ts[1..], t, f);
    }
  }

  lemma {:induction false} UsesPositive(w: Wiring, ts: seq<Off>, f: Off)
    ensures Uses(w, ts, f) > 0 <==> exists t, e :: t in ts && e in w.RingOf(t) && w.E(e).funct == f
  {
    if ts != [] {
      UsesPositive(w, ts[1..], f);
      CountPositive(w.RingOf(ts[0]), w.entryMem, f);
      if exists e :: e in w.RingOf(ts[0]) && w.E(e).funct == f {
        var e :| e in w.RingOf(ts[0]) && w.E(e).funct == f;
        assert ts[0] in ts && e in w.RingOf(ts[0]);
      }
      if exists t, e :: t in ts && e in w.RingOf(t) && w.E(e).funct == f {
        var t, e :| t in ts && e in w.RingOf(t) && w.E(e).funct == f;
        if t != ts[0] { assert t in ts[1..] && e in w.RingOf(t); }
      }
    }
  }

  // ---------------------------------------------------------------------------------------------
  // One entry from a thread's ring to the free ring.

  ghost predicate SameEntries(w: Wiring, w': Wiring) {
    && w'.rings.Keys == w.rings.Keys
    && Members(AllRings(w')) == Members(AllRings(w))
    && RingShape(w')
  }

  lemma MoveToFree(w: Wiring, t: Off, i: nat)
    requires RingShape(w) && t in w.rings && i < |w.rings[t]|
    ensures SameEntries(w, FreeEntry(Unlink(w, t, i), w.rings[t][i]))
  {
    var e := w.rings[t][i];
    var w' := FreeEntry(Unlink(w, t, i), e);
    var a, a' := AllRings(w), AllRings(w');
    DistinctWithout(w.rings[t], i);
    MoveRings(a, t, i);
    assert a' == Moved(a, t, i);
    assert On(a, t, e) && !On(a, ENTRY_FREE, e);
    assert Distinct(w'.entryFree);
  }

  ghost function Moved(a: Rings, t: Off, i: nat): Rings
    requires t in a && ENTRY_FREE in a && i < |a[t]|
  {
    a[t := Without(a[t], i)][ENTRY_FREE := [a[t][i]] + a[ENTRY_FREE]]
  }

  lemma MoveRings(a: Rings, t: Off, i: nat)
    requires Apart(a) && t in a && ENTRY_FREE in a && t != ENTRY_FREE && i < |a[t]| && Distinct(a[t]) && t !in a[t]
    ensures Apart(Moved(a, t, i)) && Members(Moved(a, t, i)) == Members(a)
  {
    var e := a[t][i];
    var a' := Moved(a, t, i);
    DistinctWithout(a[t], i);
    assert On(a, t, e);
    assert forall k, x | On(a', k, x) :: On(a, k, x) || (k == ENTRY_FREE && x == e);
    assert !On(a', t, e);
    forall x ensures x in Members(a') <==> x in Members(a) {
      if x in Members(a) {
        var k :| k in a && x in a[k];
        assert x == e || x in a'[k];
        assert e in a'[ENTRY_FREE];
      }
      if x in Members(a') {
        var k :| k in a' && x in a'[k];
        assert x == e || x in a[k];
      }
    }
  }

  // ---------------------------------------------------------------------------------------------
  // The sweeps.

  /** What a sweep for function `f` leaves alone. */
  ghost predicate OnlyFor(w: Wiring, w': Wiring, f: Off) {
    && (forall e | w.E(e).funct != f :: w'.E(e) == w.E(e))
    && (forall g | g != f :: w'.F(g) == w.F(g))
    && w'.F(f) == w.F(f).(users := w'.F(f).users)
  }

  lemma OnlyForTransitive(w: Wiring, w1: Wiring, w2: Wiring, f: Off)
    requires OnlyFor(w, w1, f) && OnlyFor(w1, w2, f)
    ensures OnlyFor(w, w2, f)
  {
  }

  ghost predicate OffRing(w: Wiring, w': Wiring, t: Off) {
    forall u, e | u in w.rings && u != t && e in w.rings[u] :: w'.E(e) == w.E(e)
  }

  /** Freeing entry `i` of thread `t`. */
  lemma FreeOne(w: Wiring, t: Off, i: nat)
    requires RingShape(w) && t in w.rings && i < |w.rings[t]|
    ensures var e := w.rings[t][i]; var w' := FreeEntry(Unlink(w, t, i), e);
      && SameEntries(w, w') && OffRing(w, w', t)
      && w'.rings == w.rings[t := Without(w.rings[t], i)]
      && (forall x | x != e :: w'.E(x) == w.E(x))
      && (w.E(e).funct != 0 ==> OnlyFor(w, w', w.E(e).funct))
  {
    MoveToFree(w, t, i);
    var e := w.rings[t][i];
    forall u, x | u in w.rings && u != t && x in w.rings[u] ensures x != e {
      assert On(AllRings(w), u, x) && On(AllRings(w), t, e);
    }
  }

  lemma {:induction false} SweepRingSafe(w: Wiring, t: Off, f: Off, i: nat)
    requires RingShape(w) && t in w.rings && f != 0 && i <= |w.rings[t]|
    ensures OnlyFor(w, SweepRing(w, t, f, i), f) && SameEntries(w, SweepRing(w, t, f, i))
    decreases |w.rings[t]| - i
  {
    if i < |w.rings[t]| {
      var e := w.rings[t][i];
      if w.E(e).funct == f {
        var w1 := FreeEntry(Unlink(w, t, i), e);
        FreeOne(w, t, i);
        SweepRingSafe(w1, t, f, i);
        OnlyForTransitive(w, w1, SweepRing(w1, t, f, i), f);
      } else {
        SweepRingSafe(w, t, f, i + 1);
      }
    }
  }

  lemma FreeOneLocal(w: Wiring, t: Off, i: nat)
    requires t in w.rings && i < |w.rings[t]|
    ensures var e := w.rings[t][i]; var w' := FreeEntry(Unlink(w, t, i), e);
      && w'.rings == w.rings[t := Without(w.rings[t], i)]
      && (forall x | x != e :: w'.E(x) == w.E(x))
  {
  }

  /** One iteration of a removing walk, seen as a step of `Keep`. */
  lemma KeepStep(s: seq<Off>, i: nat, em: map<Off, Entry>, dead: set<Off>)
    requires i < |s|
    ensures Without(s, i)[..i] == s[..i] && Without(s, i)[i..] == s[i + 1..]
    ensures s[..i] + Keep(s[i..], em, dead) ==
      if Get(em, s[i], NO_ENTRY).funct in dead then s[..i] + Keep(s[i + 1..], em, dead)
      else s[..i + 1] + Keep(s[i + 1..], em, dead)
  {
    assert s[i..] == [s[i]] + s[i + 1..];
    var k := Keep(s[i + 1..], em, dead);
    assert s[..i + 1] + k == s[..i] + ([s[i]] + k);
  }

  lemma {:induction false} SweepRingKeeps(w: Wiring, t: Off, f: Off, i: nat)
    requires t in w.rings && Distinct(w.rings[t]) && i <= |w.rings[t]|
    ensures SweepRing(w, t, f, i).rings == w.rings[t := w.rings[t][..i] + Keep(w.rings[t][i..], w.entryMem, {f})]
    decreases |w.rings[t]| - i
  {
    var s := w.rings[t];
    if i == |s| {
      assert s[..i] + [] == s;
    } else {
      KeepStep(s, i, w.entryMem, {f});
      if w.E(s[i]).funct == f {
        var w1 := FreeEntry(Unlink(w, t, i), s[i]);
        FreeOneLocal(w, t, i);
        DistinctWithout(s, i);
        SweepRingKeeps(w1, t, f, i);
        KeepFrame(s[i + 1..], w.entryMem, w1.entryMem, {f});
      } else {
        SweepRingKeeps(w, t, f, i + 1);
      }
    }
  }

  lemma {:induction false} SweepRingOffRing(w: Wiring, t: Off, f: Off, i: nat)
    requires RingShape(w) && t in w.rings && i <= |w.rings[t]|
    ensures OffRing(w, SweepRing(w, t, f, i), t)
    decreases |w.rings[t]| - i
  {
    if i < |w.rings[t]| {
      if w.E(w.rings[t][i]).funct == f {
        FreeOne(w, t, i);
        SweepRingOffRing(FreeEntry(Unlink(w, t, i), w.rings[t][i]), t, f, i);
      } else {
        SweepRingOffRing(w, t, f, i + 1);
      }
    }
  }

  /** The whole walk of one ring. */
  lemma SweepRingWhole(w: Wiring, t: Off, f: Off)
    requires RingShape(w) && t in w.rings && f != 0
    ensures var w' := SweepRing(w, t, f, 0);
      && RingShape(w') && OffRing(w, w', t)
      && w'.rings == w.rings[t := Keep(w.rings[t], w.entryMem, {f})]
  {
    SweepRingSafe(w, t, f, 0);
    SweepRingKeeps(w, t, f, 0);
    SweepRingOffRing(w, t, f, 0);
    var k := Keep(w.rings[t], w.entryMem, {f});
    assert w.rings[t][0..] == w.rings[t] && w.rings[t][..0] + k == k;
  }

  lemma {:induction false} SweepThreadsSafe(w: Wiring, ts: seq<Off>, f: Off)
    requires RingShape(w) && f != 0 && forall t | t in ts :: t in w.rings
    ensures OnlyFor(w, SweepThreads(w, ts, f), f) && SameEntries(w, SweepThreads(w, ts, f))
    decreases |ts|
  {
    if ts != [] {
      var w1 := SweepRing(w, ts[0], f, 0);
      SweepRingSafe(w, ts[0], f, 0);
      SweepThreadsSafe(w1, ts[1..], f);
      OnlyForTransitive(w, w1, SweepThreads(w1, ts[1..], f), f);
    }
  }

  ghost predicate Swept(w: Wiring, w': Wiring, ts: seq<Off>, f: Off) {
    && w'.rings.Keys == w.rings.Keys
    && forall t | t in w.rings ::
         w'.rings[t] == if t in ts then Keep(w.rings[t], w.entryMem, {f}) else w.rings[t]
  }

  /** Every ring of the listed threads loses exactly the entries of `f`; the others stay. */
  lemma {:induction false} SweepThreadsKeeps(w: Wiring, ts: seq<Off>, f: Off)
    requires RingShape(w) && f != 0 && Distinct(ts) && forall t | t in ts :: t in w.rings
    ensures Swept(w, SweepThreads(w, ts, f), ts, f)
    decreases |ts|
  {
    if ts != [] {
      var t := ts[0];
      var w1 := SweepRing(w, t, f, 0);
      SweepRingWhole(w, t, f);
      SweepThreadsKeeps(w1, ts[1..], f);
      var w' := SweepThreads(w1, ts[1..], f);
      assert w' == SweepThreads(w, ts, f);
      assert t !in ts[1..];
      forall u | u in w.rings ensures w'.rings[u] == if u in ts then Keep(w.rings[u], w.entryMem, {f}) else w.rings[u] {
        if u != t {
          forall e | e in w.rings[u] ensures w1.E(e) == w.E(e) {}
          KeepFrame(w.rings[u], w.entryMem, w1.entryMem, {f});
        }
      }
    }
  }

  /** `free_thread_struct`: the ring is emptied onto the free ring. */
  lemma {:induction false} EmptyRingRings(w: Wiring, t: Off)
    requires t in w.rings
    ensures EmptyRing(w, t).rings == w.rings[t := []]
    decreases |w.rings[t]|
  {
    if w.rings[t] != [] {
      FreeOneLocal(w, t, 0);
      EmptyRingRings(FreeEntry(Unlink(w, t, 0), w.rings[t][0]), t);
    } else {
      assert w.rings[t := []] == w.rings;
    }
  }

  lemma {:induction false} EmptyRingSafe(w: Wiring, t: Off)
    requires RingShape(w) && t in w.rings
    ensures SameEntries(w, EmptyRing(w, t)) && OffRing(w, EmptyRing(w, t), t)
    decreases |w.rings[t]|
  {
    if w.rings[t] != [] {
      FreeOne(w, t, 0);
      EmptyRingSafe(FreeEntry(Unlink(w, t, 0), w.rings[t][0]), t);
    }
  }

  lemma FreeOneUse(w: Wiring, e: Off, f: Off)
    requires f != 0
    ensures FreeEntry(w, e).F(f) == w.F(f).(users := w.F(f).users - if w.E(e).funct == f then 1 else 0)
  {
  }

  /** ... and every use it held is dropped. */
  lemma {:induction false} EmptyRingCounts(w: Wiring, t: Off, f: Off)
    requires Distinct(w.RingOf(t)) && f != 0
    ensures EmptyRing(w, t).F(f) == w.F(f).(users := w.F(f).users - Count(w.RingOf(t), w.entryMem, f))
    decreases |w.RingOf(t)|
  {
    var s := w.RingOf(t);
    if s != [] {
      var w1 := FreeEntry(Unlink(w, t, 0), s[0]);
      FreeOneUse(Unlink(w, t, 0), s[0], f);
      assert w1.RingOf(t) == s[1..];
      EmptyRingCounts(w1, t, f);
      CountFrame(s[1..], w.entryMem, w1.entryMem, f);
    }
  }
}
