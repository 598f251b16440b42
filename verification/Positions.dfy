/**
 Inserting a function at a position of a thread, and taking it out again.
 */
module Positions {
  import opened Links
  import opened Registry
  import opened Invariant
  import opened Preservation

  function Abs(x: int): nat { if x < 0 then -x else x }

  /** A negative position counts from the end: it is the same place as a positive one. */
  lemma NegativePosition(n: nat, p: int)
    requires -(n as int) - 1 <= p <= -1
    ensures PlaceFor(n, p) == PlaceFor(n, n + 2 + p) == Before(n + 1 + p)
  {
  }

  /** Names, flags and locks being right, an add is accepted exactly for the 2(n + 1) positions of the ring. */
  lemma AddAcceptedIff(r: Reg, fname: string, tname: string, position: int)
    requires Enabled(r, OpAdd(fname, tname, position)) && !Locked(r.lock, HAL_LOCK_CONFIG)
    requires var f, t := FunctNamed(r, fname), ThreadNamed(r, tname);
      f != 0 && t != 0 && (r.w.F(f).users <= 0 || r.w.F(f).reentrant) && (r.w.F(f).fp ==> r.T(t).fp)
    ensures var n := |r.w.RingOf(ThreadNamed(r, tname))|; var o := AddFunct(r, fname, tname, position);
      (o.status == Ok <==> 1 <= Abs(position) <= n + 1) && (o.status != Ok ==> o == Outcome(r, Einval))
  {
  }

  /** An accepted add puts one new entry at its index, keeps the order of the others and counts the use. */
  lemma AddLands(r: Reg, fname: string, tname: string, position: int)
    requires AddFunct(r, fname, tname, position).status == Ok
    ensures var f, t, e := FunctNamed(r, fname), ThreadNamed(r, tname), TakenEntry(r);
      var n := |r.w.RingOf(t)|; var w' := AddFunct(r, fname, tname, position).reg.w;
      var i := if position > 0 then position - 1 else n + 1 + position;
      && 0 <= i <= n
      && w'.RingOf(t) == Inserted(r.w.RingOf(t), i, e) && w'.E(e) == Entry(f, r.w.F(f).code)
      && w'.F(f) == r.w.F(f).(users := r.w.F(f).users + 1)
      && (forall u | u != t :: w'.RingOf(u) == r.w.RingOf(u))
      && (forall g | g != f :: w'.F(g) == r.w.F(g)) && (forall x | x != e :: w'.E(x) == r.w.E(x))
  {
    AddUnfold(r, fname, tname, position);
    var f, t := FunctNamed(r, fname), ThreadNamed(r, tname);
    PlaceLands(r.w, TakeEntry(r).w, TakenEntry(r), f, t, PlaceFor(|r.w.RingOf(t)|, position).index);
  }

  lemma PlaceLands(w: Wiring, w1: Wiring, e: Off, f: Off, t: Off, i: nat)
    requires w1 == w.(entryFree := w1.entryFree) && i <= |w.RingOf(t)|
    ensures var w' := PlaceEntry(w1, e, f, t, i);
      && w'.RingOf(t) == Inserted(w.RingOf(t), i, e) && w'.E(e) == Entry(f, w.F(f).code)
      && w'.F(f) == w.F(f).(users := w.F(f).users + 1)
      && (forall u | u != t :: w'.RingOf(u) == w.RingOf(u))
      && (forall g | g != f :: w'.F(g) == w.F(g)) && (forall x | x != e :: w'.E(x) == w.E(x))
  {
  }

  /** `AddFunct` when it is accepted, without its checks. */
  lemma AddUnfold(r: Reg, fname: string, tname: string, position: int)
    requires AddFunct(r, fname, tname, position).status == Ok
    ensures var f, t := FunctNamed(r, fname), ThreadNamed(r, tname);
      && !Locked(r.lock, HAL_LOCK_CONFIG) && EntryAvailable(r) && AddAccepted(r, f, t, position)
      && AddFunct(r, fname, tname, position).reg ==
           TakeEntry(r).(w := PlaceEntry(TakeEntry(r).w, TakenEntry(r), f, t, PlaceFor(|r.w.RingOf(t)|, position).index))
  {
  }

  lemma FirstUseInserted(w: Wiring, e: Off, f: Off, t: Off, i: nat, k: nat)
    requires k <= i <= |w.RingOf(t)| && e !in w.RingOf(t)
    requires forall x | x in w.RingOf(t) :: w.E(x).funct != f
    ensures FirstUse(PlaceEntry(w, e, f, t, i), t, f, k) == i
    decreases i - k
  {
    var w' := PlaceEntry(w, e, f, t, i);
    assert w'.RingOf(t) == Inserted(w.RingOf(t), i, e);
    if k < i {
      assert w'.RingOf(t)[k] == w.RingOf(t)[k] && w.RingOf(t)[k] in w.RingOf(t);
      FirstUseInserted(w, e, f, t, i, k + 1);
    }
  }

  /** The wiring after placing an entry and freeing it again. */
  lemma PlaceThenFree(w: Wiring, e: Off, f: Off, t: Off, i: nat)
    requires t in w.rings && i <= |w.rings[t]| && f != 0 && e !in w.rings[t]
    ensures var w1 := PlaceEntry(w, e, f, t, i); var w2 := FreeEntry(Unlink(w1, t, i), e);
      && w1.RingOf(t)[i] == e && w1.E(e).funct == f
      && w2.rings == w.rings && w2.entryFree == [e] + w.entryFree
      && (forall g :: w2.F(g) == w.F(g)) && (forall x | x != e :: w2.E(x) == w.E(x))
  {
    var w1 := PlaceEntry(w, e, f, t, i);
    var w2 := FreeEntry(Unlink(w1, t, i), e);
    assert Without(Inserted(w.rings[t], i, e), i) == w.rings[t];
    assert w2.rings == w.rings;
  }

  /**
   Adding a function to a thread that did not run it and then deleting it restores every ring and
   every use count; all that is left is the entry on the free ring.
   */
  lemma AddThenDelRestores(r: Reg, fname: string, tname: string, position: int)
    requires Inv(r) && AddFunct(r, fname, tname, position).status == Ok
    requires forall e | e in r.w.RingOf(ThreadNamed(r, tname)) :: r.w.E(e).funct != FunctNamed(r, fname)
    ensures var o := DelFunct(AddFunct(r, fname, tname, position).reg, fname, tname); var e := TakenEntry(r);
      && o.status == Ok
      && o.reg.w.rings == r.w.rings && (forall g :: o.reg.w.F(g) == r.w.F(g))
      && o.reg.w.entryFree == (if r.w.entryFree == [] then [e] else r.w.entryFree)
      && (forall x | x != e :: o.reg.w.E(x) == r.w.E(x))
      && o.reg == r.(w := o.reg.w, gap := TakeEntry(r).gap)
  {
    AddUnfold(r, fname, tname, position);
    AddFindsRoom(r, fname, tname, position);
    var i := PlaceFor(|r.w.RingOf(ThreadNamed(r, tname))|, position).index;
    AddThenDel(r, TakeEntry(r), fname, tname, TakenEntry(r), i);
  }

  /** What the invariant says about an accepted add. */
  lemma AddFindsRoom(r: Reg, fname: string, tname: string, position: int)
    requires Inv(r) && EntryAvailable(r) && AddAccepted(r, FunctNamed(r, fname), ThreadNamed(r, tname), position)
    ensures var f, t, r1 := FunctNamed(r, fname), ThreadNamed(r, tname), TakeEntry(r);
      && r1 == r.(gap := r1.gap, w := r.w.(entryFree := r1.w.entryFree))
      && t in r.w.rings && TakenEntry(r) !in r.w.rings[t] && r.w.F(f).users >= 0
  {
    var f, t := FunctNamed(r, fname), ThreadNamed(r, tname);
    FoundName(r.functs.live, r.functs.name, fname);
    FoundName(r.threads.live, r.threads.name, tname);
    TakeEntryEffect(r);
    AddRings(r, TakeEntry(r), TakenEntry(r), f, t, PlaceFor(|r.w.RingOf(t)|, position).index);
    assert CountOk(r.w, r.threads.live, f);
  }

  lemma AddThenDel(r: Reg, r1: Reg, fname: string, tname: string, e: Off, i: nat)
    requires r1 == r.(gap := r1.gap, w := r.w.(entryFree := r1.w.entryFree)) && !Locked(r.lock, HAL_LOCK_CONFIG)
    requires var f, t := FunctNamed(r, fname), ThreadNamed(r, tname);
      && f != 0 && t != 0 && t in r.w.rings && i <= |r.w.rings[t]| && e !in r.w.rings[t] && r.w.F(f).users >= 0
      && forall x | x in r.w.rings[t] :: r.w.E(x).funct != f
    ensures var f, t := FunctNamed(r, fname), ThreadNamed(r, tname);
      var r2 := r1.(w := PlaceEntry(r1.w, e, f, t, i)); var o := DelFunct(r2, fname, tname);
      && o.status == Ok && o.reg == r2.(w := o.reg.w)
      && o.reg.w.rings == r.w.rings && o.reg.w.entryFree == [e] + r1.w.entryFree
      && (forall g :: o.reg.w.F(g) == r.w.F(g)) && (forall x | x != e :: o.reg.w.E(x) == r.w.E(x))
  {
    var f, t := FunctNamed(r, fname), ThreadNamed(r, tname);
    FirstUseInserted(r1.w, e, f, t, i, 0);
    PlaceThenFree(r1.w, e, f, t, i);
  }
}
