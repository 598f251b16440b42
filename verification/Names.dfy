/**
 C-string order and the slot search shared by the name-sorted lists.
 */
module Names {
  import opened Links

  /** The sign of `strcmp`: bytes are compared from the left, and a proper prefix comes first. */
  function StrCmp(a: string, b: string): int {
    if a == "" && b == "" then 0
    else if a == "" then -1
    else if b == "" then 1
    else if a[0] < b[0] then -1
    else if a[0] > b[0] then 1
    else StrCmp(a[1..], b[1..])
  }

  lemma {:induction false} StrCmpZero(a: string, b: string)
    ensures StrCmp(a, b) == 0 <==> a == b
  {
    if a != "" && b != "" && a[0] == b[0] {
      StrCmpZero(a[1..], b[1..]);
      assert a == [a[0]] + a[1..] && b == [b[0]] + b[1..];
    }
  }

  /** Both names agree up to position `i`, and there the first ends or has the smaller byte. */
  ghost predicate SmallerAt(a: string, b: string, i: nat) {
    i <= |a| && i < |b| && a[..i] == b[..i] && (i == |a| || a[i] < b[i])
  }

  /** The order of the lists is the order of bytes from the left. */
  lemma {:induction false} StrCmpIsByteOrder(a: string, b: string)
    ensures StrCmp(a, b) < 0 <==> exists i: nat :: SmallerAt(a, b, i)
  {
    if a == "" || b == "" || a[0] != b[0] {
      assert SmallerAt(a, b, 0) || !(exists i: nat :: SmallerAt(a, b, i)) by {
        forall i: nat | SmallerAt(a, b, i) ensures SmallerAt(a, b, 0) {
          if i > 0 { assert a[..i][0] == b[..i][0]; }
        }
      }
    } else {
      StrCmpIsByteOrder(a[1..], b[1..]);
      forall i: nat | SmallerAt(a[1..], b[1..], i) ensures SmallerAt(a, b, i + 1) {
        assert a[..i + 1] == [a[0]] + a[1..][..i] && b[..i + 1] == [b[0]] + b[1..][..i];
      }
      forall i: nat | SmallerAt(a, b, i) ensures i > 0 && SmallerAt(a[1..], b[1..], i - 1) {
        if i > 0 { assert a[1..][..i - 1] == a[..i][1..] && b[1..][..i - 1] == b[..i][1..]; }
      }
    }
  }

  lemma {:induction false} StrCmpFlip(a: string, b: string)
    ensures StrCmp(a, b) == -StrCmp(b, a)
  {
    if a != "" && b != "" && a[0] == b[0] {
      StrCmpFlip(a[1..], b[1..]);
    }
  }

  lemma {:induction false} StrCmpTransitive(a: string, b: string, c: string)
    requires StrCmp(a, b) < 0 && StrCmp(b, c) < 0
    ensures StrCmp(a, c) < 0
  {
    if a != "" && b != "" && c != "" && a[0] == b[0] == c[0] {
      StrCmpTransitive(a[1..], b[1..], c[1..]);
    }
  }

  ghost predicate Sorted(names: seq<string>) {
    forall i, j {:trigger StrCmp(names[i], names[j])} | 0 <= i < j < |names| :: StrCmp(names[i], names[j]) < 0
  }

  /** The slot the list search stops at: the first name that is not below the key. */
  function Slot(names: seq<string>, key: string): (i: nat)
    ensures i <= |names|
    ensures forall k | 0 <= k < i :: StrCmp(names[k], key) < 0
    ensures i < |names| ==> StrCmp(names[i], key) >= 0
  {
    if names == [] || StrCmp(names[0], key) >= 0 then 0 else 1 + Slot(names[1..], key)
  }

  lemma SlotIsOnly(names: seq<string>, key: string, i: nat)
    requires i <= |names|
    requires forall k | 0 <= k < i :: StrCmp(names[k], key) < 0
    requires i < |names| ==> StrCmp(names[i], key) >= 0
    ensures Slot(names, key) == i
  {
  }

  /** In a sorted list the name at the slot tells whether the key is there at all. */
  predicate HasName(names: seq<string>, key: string) {
    var i := Slot(names, key);
    i < |names| && names[i] == key
  }

  lemma HasNameIffMember(names: seq<string>, key: string)
    requires Sorted(names)
    ensures HasName(names, key) <==> key in names
  {
    var s := Slot(names, key);
    if key in names {
      var k :| 0 <= k < |names| && names[k] == key;
      StrCmpZero(key, key);
      forall i | 0 <= i < k ensures StrCmp(names[i], key) < 0 {
        assert StrCmp(names[i], names[k]) < 0;
      }
      SlotIsOnly(names, key, k);
    }
  }

  /** In a sorted list, a name above the key has only names above the key after it. */
  lemma AboveKey(names: seq<string>, key: string, s: nat, k: nat)
    requires Sorted(names) && s <= k < |names| && StrCmp(names[s], key) > 0
    ensures StrCmp(key, names[k]) < 0
  {
    StrCmpFlip(names[s], key);
    if s < k {
      assert StrCmp(names[s], names[k]) < 0;
      StrCmpTransitive(key, names[s], names[k]);
    }
  }

  lemma InsertedAt(names: seq<string>, i: nat, key: string, k: nat)
    requires i <= |names| && k <= |names|
    ensures |Inserted(names, i, key)| == |names| + 1
    ensures Inserted(names, i, key)[k] == if k < i then names[k] else if k == i then key else names[k - 1]
  {
  }

  lemma InsertedBelow(names: seq<string>, key: string, i: nat, j: nat)
    requires Sorted(names) && !HasName(names, key) && i < j <= |names|
    ensures var r := Inserted(names, Slot(names, key), key); StrCmp(r[i], r[j]) < 0
  {
    var s := Slot(names, key);
    InsertedAt(names, s, key, i);
    InsertedAt(names, s, key, j);
    if i == s {
      StrCmpZero(names[s], key);
      AboveKey(names, key, s, j - 1);
    } else if j != s {
      var i', j' := if i < s then i else i - 1, if j < s then j else j - 1;
      assert StrCmp(names[i'], names[j']) < 0;
    }
  }

  /** Inserting at the slot keeps the list strictly increasing and adds exactly the key. */
  lemma InsertKeepsSorted(names: seq<string>, key: string)
    requires Sorted(names) && !HasName(names, key)
    ensures Sorted(Inserted(names, Slot(names, key), key))
    ensures forall n :: n in Inserted(names, Slot(names, key), key) <==> n in names || n == key
  {
    var r := Inserted(names, Slot(names, key), key);
    InsertedMembers(names, Slot(names, key), key);
    forall i, j | 0 <= i < j < |r| ensures StrCmp(r[i], r[j]) < 0 {
      InsertedBelow(names, key, i, j);
    }
  }
}
