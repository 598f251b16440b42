/**
 Linked structures over shared-memory cells.

 The HAL arena links its structs by offsets from the segment base, not by pointers.  A family of
 link words (the `next_ptr` of one struct kind, or the `next`/`prev` of ring entries) is a map from
 the offset of the owning cell to the offset stored there.  The segment starts zeroed, so a word
 that was never written reads as 0, the null offset.
 */
module Links {

  type Off = nat
  type Cells = map<Off, Off>

  /** The word stored at cell `a` of a zeroed segment. */
  function At(m: Cells, a: Off): Off {
    if a in m then m[a] else 0
  }

  ghost predicate Distinct(s: seq<Off>) {
    forall i, j | 0 <= i < j < |s| :: s[i] != s[j]
  }

  ghost function SetOf(s: seq<Off>): set<Off> {
    set x | x in s
  }

  lemma SetOfEmpty(s: seq<Off>)
    ensures SetOf(s) == {} <==> s == []
  {
    if s != [] {
      assert s[0] in SetOf(s);
    }
  }

  function Without(s: seq<Off>, i: nat): (r: seq<Off>)
    requires i < |s|
  {
    s[..i] + s[i + 1..]
  }

  function Inserted<T>(s: seq<T>, i: nat, x: T): (r: seq<T>)
    requires i <= |s|
  {
    s[..i] + [x] + s[i..]
  }

  lemma DistinctWithout(s: seq<Off>, i: nat)
    requires i < |s| && Distinct(s)
    ensures Distinct(Without(s, i))
    ensures forall x :: x in Without(s, i) <==> x in s && x != s[i]
  {
    var r := Without(s, i);
    forall x ensures x in r <==> x in s && x != s[i] {
      if x in s && x != s[i] {
        var k :| 0 <= k < |s| && s[k] == x;
        assert r[if k < i then k else k - 1] == x;
      }
    }
  }

  lemma InsertedMembers<T>(s: seq<T>, i: nat, x: T)
    requires i <= |s|
    ensures forall y :: y in Inserted(s, i, x) <==> y in s || y == x
  {
    assert s == s[..i] + s[i..];
  }

  lemma DistinctInserted(s: seq<Off>, i: nat, x: Off)
    requires i <= |s| && Distinct(s) && x !in s
    ensures Distinct(Inserted(s, i, x))
    ensures forall y :: y in Inserted(s, i, x) <==> y in s || y == x
  {
    InsertedMembers(s, i, x);
  }

  // ---------------------------------------------------------------------------------------------
  // Null-terminated chains: a root cell followed by the structs of `s`.

  /** The cell that points at element `i`: the root, or the previous struct. */
  function Cell(root: Off, s: seq<Off>, i: nat): Off
    requires i <= |s|
  {
    if i == 0 then root else s[i - 1]
  }

  /** The struct at position `i`, or null one past the end. */
  function Elem(s: seq<Off>, i: nat): Off
    requires i <= |s|
  {
    if i < |s| then s[i] else 0
  }

  ghost predicate Chain(m: Cells, root: Off, s: seq<Off>) {
    && root != 0 && root !in s && 0 !in s && Distinct(s)
    && forall i | 0 <= i <= |s| :: At(m, Cell(root, s, i)) == Elem(s, i)
  }

  lemma ChainFrame(m: Cells, m': Cells, root: Off, s: seq<Off>)
    requires Chain(m, root, s)
    requires At(m', root) == At(m, root)
    requires forall x | x in s :: At(m', x) == At(m, x)
    ensures Chain(m', root, s)
  {
    forall i | 0 <= i <= |s| ensures At(m', Cell(root, s, i)) == Elem(s, i) {
      assert At(m, Cell(root, s, i)) == Elem(s, i);
    }
  }

  /** `*prev = x->next_ptr` unlinks struct `i`. */
  lemma ChainUnlink(m: Cells, root: Off, s: seq<Off>, i: nat)
    requires Chain(m, root, s) && i < |s|
    ensures Chain(m[Cell(root, s, i) := At(m, s[i])], root, Without(s, i))
  {
    var m' := m[Cell(root, s, i) := At(m, s[i])];
    var r := Without(s, i);
    DistinctWithout(s, i);
    assert At(m, Cell(root, s, i + 1)) == Elem(s, i + 1);
    forall k | 0 <= k <= |r| ensures At(m', Cell(root, r, k)) == Elem(r, k) {
      var k' := if k <= i then k else k + 1;
      assert At(m, Cell(root, s, k')) == Elem(s, k');
    }
  }

  /** `x->next_ptr = next; *prev = x` links `x` in front of position `i`. */
  lemma ChainLink(m: Cells, root: Off, s: seq<Off>, i: nat, x: Off)
    requires Chain(m, root, s) && i <= |s|
    requires x != 0 && x != root && x !in s
    ensures Chain(m[x := Elem(s, i)][Cell(root, s, i) := x], root, Inserted(s, i, x))
  {
    var m' := m[x := Elem(s, i)][Cell(root, s, i) := x];
    var r := Inserted(s, i, x);
    DistinctInserted(s, i, x);
    forall k | 0 <= k <= |r| ensures At(m', Cell(root, r, k)) == Elem(r, k) {
      if k < i {
        assert At(m, Cell(root, s, k)) == Elem(s, k);
      } else if k > i + 1 {
        assert At(m, Cell(root, s, k - 1)) == Elem(s, k - 1);
        assert Cell(root, r, k) == s[k - 2];
        assert s[k - 2] != Cell(root, s, i);
      }
    }
  }

  // ---------------------------------------------------------------------------------------------
  // Circular doubly linked rings: a root cell and its entries.

  /** Position `i` of the ring: 0 and |s| + 1 are the root. */
  function Stop(root: Off, s: seq<Off>, i: nat): Off
    requires i <= |s| + 1
  {
    if i == 0 || i == |s| + 1 then root else s[i - 1]
  }

  ghost predicate Ring(nx: Cells, pv: Cells, root: Off, s: seq<Off>) {
    && root !in s && Distinct(s)
    && (forall i | 0 <= i <= |s| :: At(nx, Stop(root, s, i)) == Stop(root, s, i + 1))
    && (forall i | 1 <= i <= |s| + 1 :: At(pv, Stop(root, s, i)) == Stop(root, s, i - 1))
  }

  /** A ring visits each of its stops once before it is back at the root. */
  lemma StopsDistinct(root: Off, s: seq<Off>, i: nat, j: nat)
    requires root !in s && Distinct(s) && i < j <= |s|
    ensures Stop(root, s, i) != Stop(root, s, j)
  {
  }

  lemma StopWithout(root: Off, s: seq<Off>, i: nat, k: nat)
    requires i < |s| && k <= |s|
    ensures Stop(root, Without(s, i), k) == Stop(root, s, if k <= i then k else k + 1)
  {
  }

  lemma StopInserted(root: Off, s: seq<Off>, i: nat, x: Off, k: nat)
    requires i <= |s| && k <= |s| + 2
    ensures Stop(root, Inserted(s, i, x), k) ==
      if k <= i then Stop(root, s, k) else if k == i + 1 then x else Stop(root, s, k - 1)
  {
  }

  /** Following `next` and then `prev`, or `prev` and then `next`, from any member comes back. */
  lemma RingMutuallyInverse(nx: Cells, pv: Cells, root: Off, s: seq<Off>, x: Off)
    requires Ring(nx, pv, root, s) && (x == root || x in s)
    ensures At(pv, At(nx, x)) == x && At(nx, At(pv, x)) == x
    ensures At(nx, x) == root || At(nx, x) in s
  {
    var k: nat :| k <= |s| && Stop(root, s, k) == x
      by { if x == root { assert Stop(root, s, 0) == x; }
           else { var j :| 0 <= j < |s| && s[j] == x; assert Stop(root, s, j + 1) == x; } }
    assert At(nx, Stop(root, s, k)) == Stop(root, s, k + 1);
    assert At(pv, Stop(root, s, k + 1)) == Stop(root, s, k);
    var p := if k == 0 then |s| + 1 else k;
    assert At(pv, Stop(root, s, p)) == Stop(root, s, p - 1);
    assert At(nx, Stop(root, s, p - 1)) == Stop(root, s, p);
  }

  lemma RingFrame(nx: Cells, pv: Cells, nx': Cells, pv': Cells, root: Off, s: seq<Off>)
    requires Ring(nx, pv, root, s)
    requires forall x | x == root || x in s :: At(nx', x) == At(nx, x) && At(pv', x) == At(pv, x)
    ensures Ring(nx', pv', root, s)
  {
    forall i | 0 <= i <= |s| ensures At(nx', Stop(root, s, i)) == Stop(root, s, i + 1) {
      assert At(nx, Stop(root, s, i)) == Stop(root, s, i + 1);
    }
    forall i | 1 <= i <= |s| + 1 ensures At(pv', Stop(root, s, i)) == Stop(root, s, i - 1) {
      assert At(pv, Stop(root, s, i)) == Stop(root, s, i - 1);
    }
  }

  /** The words after `list_remove_entry(e)`. */
  function RemovedNext(nx: Cells, pv: Cells, e: Off): Cells {
    nx[At(pv, e) := At(nx, e)]
  }

  function RemovedPrev(nx: Cells, pv: Cells, e: Off): Cells {
    pv[At(nx, e) := At(pv, e)]
  }

  lemma RingRemove(nx: Cells, pv: Cells, root: Off, s: seq<Off>, i: nat)
    requires Ring(nx, pv, root, s) && i < |s|
    ensures At(nx, s[i]) == Stop(root, s, i + 2) && At(pv, s[i]) == Stop(root, s, i)
    ensures Ring(RemovedNext(nx, pv, s[i]), RemovedPrev(nx, pv, s[i]), root, Without(s, i))
    ensures Stop(root, Without(s, i), i + 1) == Stop(root, s, i + 2)
  {
    DistinctWithout(s, i);
    RemovedNeighbours(nx, pv, root, s, i);
    RingRemoveNext(nx, pv, root, s, i);
    RingRemovePrev(nx, pv, root, s, i);
    StopWithout(root, s, i, i + 1);
  }

  lemma RemovedNeighbours(nx: Cells, pv: Cells, root: Off, s: seq<Off>, i: nat)
    requires Ring(nx, pv, root, s) && i < |s|
    ensures At(nx, s[i]) == Stop(root, s, i + 2) && At(pv, s[i]) == Stop(root, s, i)
  {
    assert Stop(root, s, i + 1) == s[i];
    assert At(nx, Stop(root, s, i + 1)) == Stop(root, s, i + 2);
    assert At(pv, Stop(root, s, i + 1)) == Stop(root, s, i);
  }

  lemma RingRemoveNext(nx: Cells, pv: Cells, root: Off, s: seq<Off>, i: nat)
    requires Ring(nx, pv, root, s) && i < |s|
    ensures var r := Without(s, i); var nx' := RemovedNext(nx, pv, s[i]);
      forall k | 0 <= k <= |r| :: At(nx', Stop(root, r, k)) == Stop(root, r, k + 1)
  {
    var r, nx' := Without(s, i), RemovedNext(nx, pv, s[i]);
    RemovedNeighbours(nx, pv, root, s, i);
    forall k | 0 <= k <= |r| ensures At(nx', Stop(root, r, k)) == Stop(root, r, k + 1) {
      StopWithout(root, s, i, k);
      StopWithout(root, s, i, k + 1);
      var k' := if k <= i then k else k + 1;
      assert At(nx, Stop(root, s, k')) == Stop(root, s, k' + 1);
      if k < i { StopsDistinct(root, s, k', i); } else if k > i { StopsDistinct(root, s, i, k'); }
    }
  }

  lemma RingRemovePrev(nx: Cells, pv: Cells, root: Off, s: seq<Off>, i: nat)
    requires Ring(nx, pv, root, s) && i < |s|
    ensures var r := Without(s, i); var pv' := RemovedPrev(nx, pv, s[i]);
      forall k | 1 <= k <= |r| + 1 :: At(pv', Stop(root, r, k)) == Stop(root, r, k - 1)
  {
    var r, pv' := Without(s, i), RemovedPrev(nx, pv, s[i]);
    RemovedNeighbours(nx, pv, root, s, i);
    forall k | 1 <= k <= |r| + 1 ensures At(pv', Stop(root, r, k)) == Stop(root, r, k - 1) {
      StopWithout(root, s, i, k);
      StopWithout(root, s, i, k - 1);
      var k' := if k <= i then k else k + 1;
      assert At(pv, Stop(root, s, k')) == Stop(root, s, k' - 1);
      if k != i + 1 { StopsApart(root, s, k', i + 2); }
    }
  }

  /** Two different stops behind the root, where the last may be the root again. */
  lemma StopsApart(root: Off, s: seq<Off>, i: nat, j: nat)
    requires root !in s && Distinct(s) && 1 <= i <= |s| + 1 && 1 <= j <= |s| + 1 && i != j
    ensures Stop(root, s, i) != Stop(root, s, j)
  {
    var a, b := if i < j then i else j, if i < j then j else i;
    if b <= |s| { StopsDistinct(root, s, a, b); } else { StopsDistinct(root, s, 0, a); }
  }

  /** The words after `list_add_after(x, at)`. */
  function AddedNext(nx: Cells, x: Off, at: Off): Cells {
    nx[x := At(nx, at)][at := x]
  }

  function AddedPrev(nx: Cells, pv: Cells, x: Off, at: Off): Cells {
    pv[x := at][At(nx, at) := x]
  }

  lemma RingAdd(nx: Cells, pv: Cells, root: Off, s: seq<Off>, i: nat, x: Off)
    requires Ring(nx, pv, root, s) && i <= |s| && x != root && x !in s
    ensures At(nx, Stop(root, s, i)) == Stop(root, s, i + 1)
    ensures Ring(AddedNext(nx, x, Stop(root, s, i)), AddedPrev(nx, pv, x, Stop(root, s, i)), root, Inserted(s, i, x))
  {
    var r := Inserted(s, i, x);
    DistinctInserted(s, i, x);
    RingAddNext(nx, pv, root, s, i, x);
    RingAddPrev(nx, pv, root, s, i, x);
  }

  lemma RingAddNext(nx: Cells, pv: Cells, root: Off, s: seq<Off>, i: nat, x: Off)
    requires Ring(nx, pv, root, s) && i <= |s| && x != root && x !in s
    ensures var r := Inserted(s, i, x); var nx' := AddedNext(nx, x, Stop(root, s, i));
      forall k | 0 <= k <= |r| :: At(nx', Stop(root, r, k)) == Stop(root, r, k + 1)
  {
    var r, at := Inserted(s, i, x), Stop(root, s, i);
    var nx' := AddedNext(nx, x, at);
    forall k | 0 <= k <= |r| ensures At(nx', Stop(root, r, k)) == Stop(root, r, k + 1) {
      StopInserted(root, s, i, x, k);
      StopInserted(root, s, i, x, k + 1);
      var k' := if k <= i then k else k - 1;
      assert At(nx, Stop(root, s, k')) == Stop(root, s, k' + 1);
      if k < i { StopsDistinct(root, s, k, i); } else if k > i + 1 { StopsDistinct(root, s, i, k'); }
    }
  }

  lemma RingAddPrev(nx: Cells, pv: Cells, root: Off, s: seq<Off>, i: nat, x: Off)
    requires Ring(nx, pv, root, s) && i <= |s| && x != root && x !in s
    ensures var r := Inserted(s, i, x); var pv' := AddedPrev(nx, pv, x, Stop(root, s, i));
      forall k | 1 <= k <= |r| + 1 :: At(pv', Stop(root, r, k)) == Stop(root, r, k - 1)
  {
    var r, at := Inserted(s, i, x), Stop(root, s, i);
    var pv' := AddedPrev(nx, pv, x, at);
    assert At(nx, at) == Stop(root, s, i + 1);
    forall k | 1 <= k <= |r| + 1 ensures At(pv', Stop(root, r, k)) == Stop(root, r, k - 1) {
      StopInserted(root, s, i, x, k);
      StopInserted(root, s, i, x, k - 1);
      if k <= i {
        assert At(pv, Stop(root, s, k)) == Stop(root, s, k - 1);
        if i < |s| { StopsDistinct(root, s, k, i + 1); }
      } else if k > i + 2 {
        assert At(pv, Stop(root, s, k - 1)) == Stop(root, s, k - 2);
        if k - 1 <= |s| { StopsDistinct(root, s, i + 1, k - 1); } else { StopsDistinct(root, s, 0, i + 1); }
      }
    }
  }

  // ---------------------------------------------------------------------------------------------
  // A family of rings with pairwise disjoint members.

  type Rings = map<Off, seq<Off>>

  ghost predicate On(rings: Rings, root: Off, x: Off) {
    root in rings && (x == root || x in rings[root])
  }

  ghost predicate Apart(rings: Rings) {
    forall a, b, x | On(rings, a, x) && On(rings, b, x) :: a == b
  }

  ghost predicate RingsOk(nx: Cells, pv: Cells, rings: Rings) {
    && Apart(rings)
    && forall r | r in rings :: Ring(nx, pv, r, rings[r])
  }

  lemma RingsRemove(nx: Cells, pv: Cells, rings: Rings, root: Off, i: nat)
    requires RingsOk(nx, pv, rings) && root in rings && i < |rings[root]|
    ensures var s := rings[root]; var rings' := rings[root := Without(s, i)];
      && RingsOk(RemovedNext(nx, pv, s[i]), RemovedPrev(nx, pv, s[i]), rings')
      && (forall r :: !On(rings', r, s[i]))
  {
    var s := rings[root];
    var e := s[i];
    var nx', pv' := RemovedNext(nx, pv, e), RemovedPrev(nx, pv, e);
    var rings' := rings[root := Without(s, i)];
    RingRemove(nx, pv, root, s, i);
    DistinctWithout(s, i);
    assert On(rings, root, e) && On(rings, root, At(nx, e)) && On(rings, root, At(pv, e));
    assert forall a, x | On(rings', a, x) :: On(rings, a, x);
    forall r | r in rings' ensures Ring(nx', pv', r, rings'[r]) {
      if r != root {
        forall x | x == r || x in rings[r] ensures x != At(nx, e) && x != At(pv, e) {
          assert On(rings, r, x);
        }
        RingFrame(nx, pv, nx', pv', r, rings[r]);
      }
    }
  }

  lemma RingsAdd(nx: Cells, pv: Cells, rings: Rings, root: Off, i: nat, x: Off)
    requires RingsOk(nx, pv, rings) && root in rings && i <= |rings[root]|
    requires forall r :: !On(rings, r, x)
    ensures var s := rings[root]; var at := Stop(root, s, i);
      RingsOk(AddedNext(nx, x, at), AddedPrev(nx, pv, x, at), rings[root := Inserted(s, i, x)])
  {
    var s := rings[root];
    var at := Stop(root, s, i);
    var nx', pv' := AddedNext(nx, x, at), AddedPrev(nx, pv, x, at);
    var rings' := rings[root := Inserted(s, i, x)];
    assert !On(rings, root, x);
    RingAdd(nx, pv, root, s, i, x);
    DistinctInserted(s, i, x);
    assert On(rings, root, at) && On(rings, root, At(nx, at));
    assert forall a, y | On(rings', a, y) :: On(rings, a, y) || (a == root && y == x);
    forall r | r in rings' ensures Ring(nx', pv', r, rings'[r]) {
      if r != root {
        forall y | y == r || y in rings[r] ensures y != At(nx, at) && y != at && y != x {
          assert On(rings, r, y);
        }
        RingFrame(nx, pv, nx', pv', r, rings[r]);
      }
    }
  }

  /** `list_init_entry` on a cell outside every ring starts a new, empty ring. */
  lemma RingsInit(nx: Cells, pv: Cells, rings: Rings, x: Off)
    requires RingsOk(nx, pv, rings)
    requires forall r :: !On(rings, r, x)
    ensures RingsOk(nx[x := x], pv[x := x], rings[x := []])
  {
    var nx', pv', rings' := nx[x := x], pv[x := x], rings[x := []];
    assert forall a, y | On(rings', a, y) :: On(rings, a, y) || (a == x && y == x);
    forall r | r in rings' ensures Ring(nx', pv', r, rings'[r]) {
      if r != x {
        forall y | y == r || y in rings[r] ensures y != x {
          assert On(rings, r, y);
        }
        RingFrame(nx, pv, nx', pv', r, rings[r]);
      }
    }
  }

  /** Dropping a ring leaves the others as they were. */
  lemma RingsDrop(nx: Cells, pv: Cells, rings: Rings, x: Off)
    requires RingsOk(nx, pv, rings)
    ensures RingsOk(nx, pv, rings - {x})
  {
    var rings' := rings - {x};
    assert forall a, y | On(rings', a, y) :: On(rings, a, y);
  }
}
