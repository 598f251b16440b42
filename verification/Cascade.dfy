/**
 Deleting a component.

 `hal_exit` unlinks the component, then every function it owns, then every entry of every thread
 that runs such a function, then its parameters.  The main results say what is left.
 */
module Cascade {
  import opened Links
  import opened Registry
  import opened Sweeps
  import opened Invariant

  /** The in-order subsequence of functions (or parameters) that component `c` does not own. */
  function NotOwned(s: seq<Off>, owner: map<Off, Off>, c: Off): seq<Off> {
    if s == [] then []
    else if Get(owner, s[0], 0) == c then NotOwned(s[1..], owner, c)
    else [s[0]] + NotOwned(s[1..], owner, c)
  }

  function Owners(w: Wiring): map<Off, Off> {
    map f | f in w.functMem :: w.functMem[f].owner
  }

  ghost function OwnedBy(w: Wiring, s: seq<Off>, c: Off): set<Off> {
    set f | f in s && w.F(f).owner == c
  }

  lemma {:induction false} NotOwnedMembers(s: seq<Off>, owner: map<Off, Off>, c: Off)
    ensures forall x :: x in NotOwned(s, owner, c) <==> x in s && Get(owner, x, 0) != c
  {
    if s != [] {
      NotOwnedMembers(s[1..], owner, c);
      assert s == [s[0]] + s[1..];
    }
  }

  lemma {:induction false} NotOwnedFrame(s: seq<Off>, a: map<Off, Off>, b: map<Off, Off>, c: Off)
    requires forall x | x in s :: Get(a, x, 0) == Get(b, x, 0)
    ensures NotOwned(s, a, c) == NotOwned(s, b, c)
  {
    if s != [] {
      NotOwnedFrame(s[1..], a, b, c);
    }
  }

  /** One iteration of an unlinking walk, seen as a step of `NotOwned`. */
  lemma NotOwnedStep(s: seq<Off>, i: nat, owner: map<Off, Off>, c: Off)
    requires i < |s|
    ensures Without(s, i)[..i] == s[..i] && Without(s, i)[i..] == s[i + 1..]
    ensures s[..i] + NotOwned(s[i..], owner, c) ==
      if Get(owner, s[i], 0) == c then s[..i] + NotOwned(s[i + 1..], owner, c)
      else s[..i + 1] + NotOwned(s[i + 1..], owner, c)
  {
    assert s[i..] == [s[i]] + s[i + 1..];
    var k := NotOwned(s[i + 1..], owner, c);
    assert s[..i + 1] + k == s[..i] + ([s[i]] + k);
  }

  // ---------------------------------------------------------------------------------------------
  // Removing every entry of a set of functions.

  ghost predicate Purged(w: Wiring, w': Wiring, dead: set<Off>) {
    && SameEntries(w, w')
    && (forall t | t in w.rings :: w'.rings[t] == Keep(w.rings[t], w.entryMem, dead))
    && (forall e | w.E(e).funct !in dead :: w'.E(e) == w.E(e))
    && (forall g | g !in dead :: w'.F(g) == w.F(g))
  }

  lemma PurgedNothing(w: Wiring)
    requires RingShape(w)
    ensures Purged(w, w, {})
  {
    forall t | t in w.rings ensures w.rings[t] == Keep(w.rings[t], w.entryMem, {}) {
      KeepAll(w.rings[t], w.entryMem, {});
    }
  }

  lemma PurgedTwice(w: Wiring, w1: Wiring, w2: Wiring, a: set<Off>, b: set<Off>)
    requires Purged(w, w1, a) && Purged(w1, w2, b)
    ensures Purged(w, w2, a + b)
  {
    forall t | t in w.rings ensures w2.rings[t] == Keep(w.rings[t], w.entryMem, a + b) {
      var k := Keep(w.rings[t], w.entryMem, a);
      KeepMembers(w.rings[t], w.entryMem, a);
      forall e | e in k ensures w1.E(e) == w.E(e) {}
      KeepFrame(k, w.entryMem, w1.entryMem, b);
      KeepTwice(w.rings[t], w.entryMem, a, b);
    }
  }

  // ---------------------------------------------------------------------------------------------
  // The function loop.

  ghost predicate FunctsFrame(r: Reg, r': Reg) {
    r' == r.(w := r'.w, functs := r'.functs)
  }

  lemma FreeFunctsUnfold(r: Reg, c: Off, i: nat)
    requires i < |r.functs.live|
    ensures r.w.F(r.functs.live[i]).owner != c ==> FreeFuncts(r, c, i) == FreeFuncts(r, c, i + 1)
    ensures r.w.F(r.functs.live[i]).owner == c ==>
      i <= |DropFunct(r, i).functs.live| < |r.functs.live| && FreeFuncts(r, c, i) == FreeFuncts(DropFunct(r, i), c, i)
  {
  }

  lemma {:induction false} FreeFunctsCore(r: Reg, c: Off, i: nat)
    requires Core(r) && i <= |r.functs.live|
    ensures Core(FreeFuncts(r, c, i)) && FunctsFrame(r, FreeFuncts(r, c, i))
    decreases |r.functs.live| - i
  {
    if i < |r.functs.live| {
      FreeFunctsUnfold(r, c, i);
      if r.w.F(r.functs.live[i]).owner == c {
        DropFunctCore(r, i);
        FreeFunctsCore(DropFunct(r, i), c, i);
      } else {
        FreeFunctsCore(r, c, i + 1);
      }
    }
  }

  /** What one iteration that deletes function `i` means for the rest of the loop. */
  lemma DropLocal(r: Reg, r1: Reg, i: nat, c: Off)
    requires i < |r.functs.live| && Distinct(r.functs.live) && Dropped(r, r1, i)
    requires r.w.F(r.functs.live[i]).owner == c
    ensures var s := r.functs.live;
      && r1.functs.live == Without(s, i)
      && NotOwned(s[i + 1..], Owners(r1.w), c) == NotOwned(s[i + 1..], Owners(r.w), c)
      && OwnedBy(r.w, s[i..], c) == {s[i]} + OwnedBy(r1.w, s[i + 1..], c)
      && (forall x | x != s[i] :: r1.FunctName(x) == r.FunctName(x))
  {
    var s := r.functs.live;
    var rest := s[i + 1..];
    assert s[i..] == [s[i]] + rest;
    forall x | x in rest ensures Get(Owners(r.w), x, 0) == Get(Owners(r1.w), x, 0) && r1.w.F(x) == r.w.F(x) {
      assert x != s[i];
      OwnerIs(r.w, x);
      OwnerIs(r1.w, x);
    }
    NotOwnedFrame(rest, Owners(r.w), Owners(r1.w), c);
  }

  lemma OwnerIs(w: Wiring, f: Off)
    ensures Get(Owners(w), f, 0) == w.F(f).owner
  {
  }

  lemma OwnedBySkip(w: Wiring, s: seq<Off>, i: nat, c: Off)
    requires i < |s| && w.F(s[i]).owner != c
    ensures OwnedBy(w, s[i..], c) == OwnedBy(w, s[i + 1..], c)
  {
    assert s[i..] == [s[i]] + s[i + 1..];
  }

  lemma {:induction false} FreeFunctsList(r: Reg, c: Off, i: nat)
    requires Core(r) && i <= |r.functs.live|
    ensures FreeFuncts(r, c, i).functs.live == r.functs.live[..i] + NotOwned(r.functs.live[i..], Owners(r.w), c)
    decreases |r.functs.live| - i
  {
    var s := r.functs.live;
    if i == |s| {
      assert s[..i] + [] == s;
    } else {
      OwnerIs(r.w, s[i]);
      NotOwnedStep(s, i, Owners(r.w), c);
      FreeFunctsUnfold(r, c, i);
      if r.w.F(s[i]).owner == c {
        DropFunctCore(r, i);
        DropLocal(r, DropFunct(r, i), i, c);
        FreeFunctsList(DropFunct(r, i), c, i);
      } else {
        FreeFunctsList(r, c, i + 1);
      }
    }
  }

  lemma PurgeStep(r: Reg, r1: Reg, w2: Wiring, c: Off, i: nat)
    requires i < |r.functs.live| && Distinct(r.functs.live) && Dropped(r, r1, i)
    requires r.w.F(r.functs.live[i]).owner == c
    requires r1.functs.live == Without(r.functs.live, i) && Purged(r1.w, w2, OwnedBy(r1.w, r1.functs.live[i..], c))
    ensures Purged(r.w, w2, OwnedBy(r.w, r.functs.live[i..], c))
  {
    var f, rest := r.functs.live[i], r.functs.live[i + 1..];
    DropLocal(r, r1, i, c);
    assert r1.functs.live[i..] == rest;
    PurgedTwice(r.w, r1.w, w2, {f}, OwnedBy(r1.w, rest, c));
  }

  lemma {:induction false} FreeFunctsPurge(r: Reg, c: Off, i: nat)
    requires Core(r) && i <= |r.functs.live|
    ensures Purged(r.w, FreeFuncts(r, c, i).w, OwnedBy(r.w, r.functs.live[i..], c))
    decreases |r.functs.live| - i
  {
    if i == |r.functs.live| {
      PurgedNothing(r.w);
      assert OwnedBy(r.w, r.functs.live[i..], c) == {};
    } else {
      FreeFunctsUnfold(r, c, i);
      if r.w.F(r.functs.live[i]).owner == c {
        DropFunctCore(r, i);
        FreeFunctsPurge(DropFunct(r, i), c, i);
        PurgeStep(r, DropFunct(r, i), FreeFuncts(DropFunct(r, i), c, i).w, c, i);
      } else {
        FreeFunctsPurge(r, c, i + 1);
        OwnedBySkip(r.w, r.functs.live, i, c);
      }
    }
  }

  lemma {:induction false} FreeFunctsNames(r: Reg, c: Off, i: nat, x: Off)
    requires Core(r) && i <= |r.functs.live| && x !in OwnedBy(r.w, r.functs.live[i..], c)
    ensures FreeFuncts(r, c, i).FunctName(x) == r.FunctName(x)
    decreases |r.functs.live| - i
  {
    var s := r.functs.live;
    if i < |s| {
      FreeFunctsUnfold(r, c, i);
      if r.w.F(s[i]).owner == c {
        DropFunctCore(r, i);
        DropLocal(r, DropFunct(r, i), i, c);
        assert DropFunct(r, i).functs.live[i..] == s[i + 1..];
        FreeFunctsNames(DropFunct(r, i), c, i, x);
      } else {
        OwnedBySkip(r.w, s, i, c);
        FreeFunctsNames(r, c, i + 1, x);
      }
    }
  }

  // ---------------------------------------------------------------------------------------------
  // The parameter loop.

  ghost predicate ParamsFrame(r: Reg, r': Reg) {
    r' == r.(params := r'.params, paramOwner := r'.paramOwner)
  }

  ghost predicate ParamsOk(r: Reg) {
    PoolOk(r.params, r.gap) && NamesSorted(r.params)
  }

  function DropParam(r: Reg, i: nat): Reg
    requires i < |r.params.live|
  {
    var x := r.params.live[i];
    r.(params := Give(r.params.(live := Without(r.params.live, i)), x), paramOwner := r.paramOwner[x := 0])
  }

  lemma DropParamLocal(r: Reg, i: nat, c: Off)
    requires ParamsOk(r) && i < |r.params.live|
    ensures var s := r.params.live; var r1 := DropParam(r, i);
      && ParamsOk(r1) && r1.params.live == Without(s, i)
      && (forall y | y in Without(s, i) :: Get(r1.paramOwner, y, 0) == Get(r.paramOwner, y, 0))
      && NotOwned(s[i + 1..], r.paramOwner, c) == NotOwned(s[i + 1..], r1.paramOwner, c)
  {
    var s := r.params.live;
    var p := r.params.(live := Without(s, i));
    var r1 := DropParam(r, i);
    PoolWithout(r.params, r.gap, i);
    PoolGive(p, r.gap, s[i]);
    SortedWithout(r.params, i);
    NamesFrame(p.live, p.name, r1.params.name);
    NotOwnedFrame(s[i + 1..], r.paramOwner, r1.paramOwner, c);
  }

  lemma FreeParamsUnfold(r: Reg, c: Off, i: nat)
    requires i < |r.params.live|
    ensures Get(r.paramOwner, r.params.live[i], 0) != c ==> FreeParams(r, c, i) == FreeParams(r, c, i + 1)
    ensures Get(r.paramOwner, r.params.live[i], 0) == c ==> FreeParams(r, c, i) == FreeParams(DropParam(r, i), c, i)
  {
  }

  lemma {:induction false} FreeParamsEffect(r: Reg, c: Off, i: nat)
    requires ParamsOk(r) && i <= |r.params.live|
    ensures var r' := FreeParams(r, c, i); var s := r.params.live;
      && ParamsOk(r')
      && r'.params.live == s[..i] + NotOwned(s[i..], r.paramOwner, c)
    decreases |r.params.live| - i
  {
    var s := r.params.live;
    if i == |s| {
      assert s[..i] + [] == s;
    } else {
      NotOwnedStep(s, i, r.paramOwner, c);
      FreeParamsUnfold(r, c, i);
      if Get(r.paramOwner, s[i], 0) == c {
        DropParamLocal(r, i, c);
        FreeParamsEffect(DropParam(r, i), c, i);
      } else {
        FreeParamsEffect(r, c, i + 1);
      }
    }
  }

  lemma {:induction false} FreeParamsFrame(r: Reg, c: Off, i: nat)
    requires i <= |r.params.live|
    ensures ParamsFrame(r, FreeParams(r, c, i))
    decreases |r.params.live| - i
  {
    if i < |r.params.live| {
      FreeParamsUnfold(r, c, i);
      if Get(r.paramOwner, r.params.live[i], 0) == c {
        FreeParamsFrame(DropParam(r, i), c, i);
      } else {
        FreeParamsFrame(r, c, i + 1);
      }
    }
  }

  lemma {:induction false} FreeParamsOwners(r: Reg, c: Off, i: nat, x: Off)
    requires ParamsOk(r) && i <= |r.params.live| && Get(r.paramOwner, x, 0) != c
    ensures Get(FreeParams(r, c, i).paramOwner, x, 0) == Get(r.paramOwner, x, 0)
    decreases |r.params.live| - i
  {
    if i < |r.params.live| {
      FreeParamsUnfold(r, c, i);
      if Get(r.paramOwner, r.params.live[i], 0) == c {
        DropParamLocal(r, i, c);
        FreeParamsOwners(DropParam(r, i), c, i, x);
      } else {
        FreeParamsOwners(r, c, i + 1, x);
      }
    }
  }

  // ---------------------------------------------------------------------------------------------
  // The whole exit.

  /** What is left after component `c`, the `i`-th of the list, was deleted. */
  ghost predicate Deleted(r: Reg, r': Reg, i: nat)
    requires i < |r.comps.live|
  {
    var c := r.comps.live[i];
    && r' == r.(comps := Give(r.comps.(live := Without(r.comps.live, i)), c), compMem := r'.compMem,
                functs := r'.functs, params := r'.params, paramOwner := r'.paramOwner, w := r'.w)
    && (forall x | x != c :: r'.C(x) == r.C(x))
    && r'.functs.live == NotOwned(r.functs.live, Owners(r.w), c)
    && (forall f | f in r'.functs.live :: r'.FunctName(f) == r.FunctName(f))
    && r'.params.live == NotOwned(r.params.live, r.paramOwner, c)
    && (forall x | x in r'.params.live :: Get(r'.paramOwner, x, 0) == Get(r.paramOwner, x, 0))
    && Purged(r.w, r'.w, OwnedBy(r.w, r.functs.live, c))
  }

  /** The state of `hal_exit` between the two loops of `free_comp_struct`. */
  ghost function AfterFuncts(r: Reg, i: nat): Reg
    requires i < |r.comps.live|
  {
    FreeFuncts(r.(comps := r.comps.(live := Without(r.comps.live, i))), r.comps.live[i], 0)
  }

  lemma DeletedFuncts(r: Reg, i: nat)
    requires Core(r) && i < |r.comps.live|
    ensures var c := r.comps.live[i]; var r1 := AfterFuncts(r, i);
      && Core(r1) && FunctsFrame(r.(comps := r.comps.(live := Without(r.comps.live, i))), r1)
      && r1.functs.live == NotOwned(r.functs.live, Owners(r.w), c)
      && Purged(r.w, r1.w, OwnedBy(r.w, r.functs.live, c))
      && (forall f | f in r1.functs.live :: r1.FunctName(f) == r.FunctName(f))
  {
    var c := r.comps.live[i];
    var r0 := r.(comps := r.comps.(live := Without(r.comps.live, i)));
    CompUnlinked(r, i);
    FreeFunctsCore(r0, c, 0);
    FreeFunctsList(r0, c, 0);
    FreeFunctsPurge(r0, c, 0);
    assert r0.functs.live[0..] == r.functs.live;
    NotOwnedMembers(r.functs.live, Owners(r.w), c);
    forall f | f in AfterFuncts(r, i).functs.live ensures AfterFuncts(r, i).FunctName(f) == r.FunctName(f) {
      OwnerIs(r.w, f);
      FreeFunctsNames(r0, c, 0, f);
    }
  }

  lemma DeletedParams(r1: Reg, c: Off)
    requires ParamsOk(r1)
    ensures var r2 := FreeParams(r1, c, 0);
      && ParamsFrame(r1, r2) && ParamsOk(r2)
      && r2.params.live == NotOwned(r1.params.live, r1.paramOwner, c)
      && (forall x | x in r2.params.live :: Get(r2.paramOwner, x, 0) == Get(r1.paramOwner, x, 0))
  {
    FreeParamsFrame(r1, c, 0);
    FreeParamsEffect(r1, c, 0);
    assert r1.params.live[0..] == r1.params.live;
    NotOwnedMembers(r1.params.live, r1.paramOwner, c);
    forall x | x in FreeParams(r1, c, 0).params.live
      ensures Get(FreeParams(r1, c, 0).paramOwner, x, 0) == Get(r1.paramOwner, x, 0)
    {
      FreeParamsOwners(r1, c, 0, x);
    }
  }

  /**
   Cascade delete: an id that is not registered changes nothing; otherwise exactly that component
   goes, with the functions and parameters it owns and with every entry that ran them; all else
   keeps its order, its contents and its use counts.
   */
  lemma ExitDeletes(r: Reg, id: int)
    requires Core(r)
    ensures var o := HalExit(r, id); var i := IdIndex(r.comps.live, r.compMem, id);
      && (r.state == Destroyed ==> o == Outcome(r, Ealready))
      && (r.state != Destroyed && i == |r.comps.live| ==> o == Outcome(r, Einval))
      && (r.state != Destroyed && i < |r.comps.live| ==> o.status == Ok && Deleted(r, o.reg, i))
  {
    var i := IdIndex(r.comps.live, r.compMem, id);
    if r.state != Destroyed && i < |r.comps.live| {
      DeletedFuncts(r, i);
      DeletedParams(AfterFuncts(r, i), r.comps.live[i]);
    }
  }

  /** The component list without its `i`-th struct is still well formed. */
  lemma CompUnlinked(r: Reg, i: nat)
    requires Core(r) && i < |r.comps.live|
    ensures Core(r.(comps := r.comps.(live := Without(r.comps.live, i))))
  {
    PoolWithout(r.comps, r.gap, i);
    DistinctWithout(r.comps.live, i);
  }

  lemma DeletedBase(r: Reg, r1: Reg, r3: Reg, i: nat)
    requires Base(r) && Base(r1) && i < |r.comps.live| && Deleted(r, r3, i) && ParamsOk(r3)
    requires r1.functs == r3.functs && r1.w == r3.w && r1.threads == r3.threads && r1.gap == r.gap
    ensures Base(r3)
  {
    PoolWithout(r.comps, r.gap, i);
    PoolGive(r.comps.(live := Without(r.comps.live, i)), r.gap, r.comps.live[i]);
  }

  lemma DeletedNamed(r: Reg, r1: Reg, r3: Reg, i: nat)
    requires Named(r) && Named(r1) && Distinct(r.comps.live) && i < |r.comps.live| && Deleted(r, r3, i) && ParamsOk(r3)
    requires r1.functs == r3.functs
    ensures Named(r3)
  {
    DistinctWithout(r.comps.live, i);
  }

  lemma DeletedOwned(r: Reg, r': Reg, i: nat)
    requires i < |r.comps.live| && Distinct(r.comps.live) && Owned(r) && Deleted(r, r', i)
    ensures Owned(r')
  {
    var c := r.comps.live[i];
    DistinctWithout(r.comps.live, i);
    NotOwnedMembers(r.functs.live, Owners(r.w), c);
    NotOwnedMembers(r.params.live, r.paramOwner, c);
    forall f | f in r'.functs.live ensures r'.w.F(f).owner in r'.comps.live {
      OwnerIs(r.w, f);
    }
  }

  lemma ExitKeepsInv(r: Reg, id: int)
    requires Inv(r)
    ensures Inv(HalExit(r, id).reg)
  {
    var i := IdIndex(r.comps.live, r.compMem, id);
    if r.state != Destroyed && i < |r.comps.live| {
      var r1, r3 := AfterFuncts(r, i), HalExit(r, id).reg;
      ExitDeletes(r, id);
      DeletedFuncts(r, i);
      DeletedParams(r1, r.comps.live[i]);
      DeletedBase(r, r1, r3, i);
      DeletedNamed(r, r1, r3, i);
      DeletedOwned(r, r3, i);
    }
  }
}
