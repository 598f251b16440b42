/**
 The lists of one struct kind as the source keeps them: `next_ptr` words in the structs, a root for
 the live list and a root for the free list in the header.
 */
module Pools {
  import opened Links
  import opened Names
  import opened Arena
  import opened Registry
  import opened Invariant

  /** Root cells in the header, e.g. `funct_list_ptr` and `funct_free_ptr`. */
  const LIVE_ROOT: Off := 1
  const FREE_ROOT: Off := 2

  class StructPool {
    var next: Cells
    var name: map<Off, string>
    ghost var live: seq<Off>
    ghost var free: seq<Off>

    ghost predicate Valid()
      reads this
    {
      && Chain(next, LIVE_ROOT, live) && Chain(next, FREE_ROOT, free)
      && LIVE_ROOT !in free && FREE_ROOT !in live
      && forall x | x in live :: x !in free
    }

    ghost function View(): Pool
      reads this
    {
      Pool(live, free, name)
    }

    constructor ()
      ensures Valid() && View() == Pool([], [], map[])
    {
      next, name := map[], map[];
      live, free := [], [];
    }

    /** The shared shape of the `alloc_*_struct` functions. */
    method Alloc(arena: Allocator, size: nat) returns (p: Off)
      requires Valid() && PoolOk(View(), arena.View()) && 2 < arena.shmemBot <= arena.shmemTop && size > 0
      modifies this, arena
      ensures Valid()
      ensures var k := Take(old(View()), old(arena.View()), size); p == k.x && View() == k.pool && arena.View() == k.gap
    {
      TakeFresh(View(), arena.View(), size);
      if At(next, FREE_ROOT) != 0 {
        assert At(next, Cell(FREE_ROOT, free, 0)) == Elem(free, 0);
        p := At(next, FREE_ROOT);
        PopFree();
      } else {
        assert At(next, Cell(FREE_ROOT, free, 0)) == Elem(free, 0);
        assert free == [];
        var q := arena.ShmallocDn(size);
        p := q;
      }
      if p != 0 {
        ClearWord(p);
        name := name[p := ""];
      }
    }

    /** `free_ptr = p->next_ptr; p->next_ptr = 0`. */
    method PopFree()
      requires Valid() && free != []
      modifies this
      ensures Valid() && live == old(live) && free == old(free)[1..] && name == old(name)
    {
      var p := At(next, FREE_ROOT);
      assert At(next, Cell(FREE_ROOT, free, 0)) == Elem(free, 0);
      ChainUnlink(next, FREE_ROOT, free, 0);
      DistinctWithout(free, 0);
      assert Without(free, 0) == free[1..];
      var m := next[FREE_ROOT := At(next, p)];
      ChainFrame(next, m, LIVE_ROOT, live);
      next := m;
      free := free[1..];
      ClearWord(p);
    }

    /** `p->next_ptr = 0` for a struct on no list. */
    method ClearWord(p: Off)
      requires Valid() && p !in live && p !in free && p != LIVE_ROOT && p != FREE_ROOT
      modifies this`next
      ensures Valid()
    {
      var m := next[p := 0];
      ChainFrame(next, m, LIVE_ROOT, live);
      ChainFrame(next, m, FREE_ROOT, free);
      next := m;
    }

    /** The tail of the `free_*_struct` functions. */
    method Push(x: Off)
      requires Valid() && x !in live && x !in free && x > 2
      modifies this
      ensures Valid() && View() == Give(old(View()), x)
    {
      name := name[x := ""];
      assert At(next, Cell(FREE_ROOT, free, 0)) == Elem(free, 0);
      ChainLink(next, FREE_ROOT, free, 0, x);
      assert Inserted(free, 0, x) == [x] + free;
      var m := next[x := At(next, FREE_ROOT)][FREE_ROOT := x];
      ChainFrame(next, m, LIVE_ROOT, live);
      next := m;
      free := [x] + free;
    }

    /** `*prev = x->next_ptr`. */
    method UnlinkAt(prev: Off, x: Off, ghost i: nat)
      requires Valid() && i < |live| && x == live[i] && prev == Cell(LIVE_ROOT, live, i)
      modifies this
      ensures Valid() && View() == old(View()).(live := Without(old(live), i))
      ensures At(next, prev) == Elem(live, i)
    {
      ChainUnlink(next, LIVE_ROOT, live, i);
      DistinctWithout(live, i);
      var m := next[prev := At(next, x)];
      ChainFrame(next, m, FREE_ROOT, free);
      next := m;
      live := Without(live, i);
      assert At(next, Cell(LIVE_ROOT, live, i)) == Elem(live, i);
    }

    /** `x->next_ptr = next; *prev = x`. */
    method LinkAt(prev: Off, nxt: Off, x: Off, ghost i: nat)
      requires Valid() && i <= |live| && prev == Cell(LIVE_ROOT, live, i) && nxt == Elem(live, i)
      requires x !in live && x !in free && x > 2
      modifies this
      ensures Valid() && View() == old(View()).(live := Inserted(old(live), i, x))
    {
      ChainLink(next, LIVE_ROOT, live, i, x);
      DistinctInserted(live, i, x);
      var m := next[x := nxt][prev := x];
      ChainFrame(next, m, FREE_ROOT, free);
      next := m;
      live := Inserted(live, i, x);
    }

    /** Insert at the head of the list. */
    method LinkAtHead(x: Off)
      requires Valid() && x !in live && x !in free && x > 2
      modifies this
      ensures Valid() && View() == old(View()).(live := [x] + old(live))
    {
      assert At(next, Cell(LIVE_ROOT, live, 0)) == Elem(live, 0);
      assert Inserted(live, 0, x) == [x] + live;
      LinkAt(LIVE_ROOT, At(next, LIVE_ROOT), x, 0);
    }

    /** The search of the sorted inserts: stops at the first name that is not below the key. */
    method FindSlot(key: string) returns (prev: Off, nxt: Off, duplicate: bool, ghost i: nat)
      requires Valid()
      ensures i == Slot(NamesOf(live, name), key) && prev == Cell(LIVE_ROOT, live, i) && nxt == Elem(live, i)
      ensures duplicate <==> HasName(NamesOf(live, name), key)
    {
      ghost var names := NamesOf(live, name);
      prev, i := LIVE_ROOT, 0;
      assert At(next, Cell(LIVE_ROOT, live, 0)) == Elem(live, 0);
      nxt := At(next, prev);
      duplicate := false;
      while nxt != 0
        invariant i <= |live| && prev == Cell(LIVE_ROOT, live, i) && nxt == Elem(live, i)
        invariant forall k | 0 <= k < i :: StrCmp(names[k], key) < 0
        decreases |live| - i
      {
        var cmp := StrCmp(Get(name, nxt, ""), key);
        if cmp >= 0 {
          StrCmpZero(names[i], key);
          SlotIsOnly(names, key, i);
          return prev, nxt, cmp == 0, i;
        }
        assert At(next, Cell(LIVE_ROOT, live, i + 1)) == Elem(live, i + 1);
        prev := nxt;
        nxt := At(next, prev);
        i := i + 1;
      }
      SlotIsOnly(names, key, i);
    }

    /** Name an unlinked struct and link it in name order; a name that is taken links nothing. */
    method LinkSorted(x: Off, key: string) returns (duplicate: bool)
      requires Valid() && x !in live && x !in free && x > 2
      modifies this
      ensures Valid() && free == old(free) && name == old(name)[x := key]
      ensures var names := NamesOf(old(live), old(name));
        && (duplicate <==> HasName(names, key))
        && live == if duplicate then old(live) else Inserted(old(live), Slot(names, key), x)
    {
      NamesFrame(live, name, name[x := key]);
      name := name[x := key];
      ghost var i: nat;
      var prev, nxt;
      prev, nxt, duplicate, i := FindSlot(key);
      if !duplicate {
        LinkAt(prev, nxt, x, i);
      }
    }

    /** Allocate, name and link; a duplicate stays unlinked, for the caller to free. */
    method AllocSorted(arena: Allocator, size: nat, key: string) returns (x: Off, duplicate: bool)
      requires Valid() && PoolOk(View(), arena.View()) && 2 < arena.shmemBot <= arena.shmemTop && size > 0
      modifies this, arena
      ensures Valid()
      ensures var k := Register(old(View()), old(arena.View()), size, key);
        && x == k.x && arena.View() == k.gap && (x == 0 <==> k.status == Enomem) && (duplicate <==> k.status == Einval)
        && k.pool == (if duplicate then Give(View(), x) else View())
      ensures x != 0 ==> x > 2 && x !in free && (duplicate ==> x !in live)
    {
      TakeFresh(View(), arena.View(), size);
      ghost var k := Take(View(), arena.View(), size);
      x := Alloc(arena, size);
      if x == 0 {
        return x, false;
      }
      duplicate := LinkSorted(x, key);
      assert duplicate ==> name[x := ""] == k.pool.name[x := ""];
    }

    /** The sorted insert of `hal_param_new` and `hal_pin_new`; a duplicate is freed again. */
    method AddSorted(arena: Allocator, size: nat, key: string) returns (x: Off, status: Status)
      requires Valid() && PoolOk(View(), arena.View()) && 2 < arena.shmemBot <= arena.shmemTop && size > 0
      modifies this, arena
      ensures Valid()
      ensures var k := Register(old(View()), old(arena.View()), size, key);
        x == k.x && status == k.status && View() == k.pool && arena.View() == k.gap
    {
      var duplicate;
      x, duplicate := AllocSorted(arena, size, key);
      if duplicate {
        Push(x);
      }
      status := if x == 0 then Enomem else if duplicate then Einval else Ok;
    }

    method SetName(x: Off, key: string)
      requires Valid()
      modifies this`name
      ensures Valid() && name == old(name)[x := key]
    {
      name := name[x := key];
    }

    /** `halpr_find_*_by_name`. */
    method FindByName(key: string) returns (x: Off)
      requires Valid()
      ensures x == FindName(live, name, key)
    {
      ghost var i := 0;
      assert At(next, Cell(LIVE_ROOT, live, 0)) == Elem(live, 0);
      x := At(next, LIVE_ROOT);
      while x != 0
        invariant i <= |live| && x == Elem(live, i)
        invariant forall k | 0 <= k < i :: Get(name, live[k], "") != key
        decreases |live| - i
      {
        if Get(name, x, "") == key {
          NameIndexIsOnly(live, name, key, i);
          return;
        }
        assert At(next, Cell(LIVE_ROOT, live, i + 1)) == Elem(live, i + 1);
        x := At(next, x);
        i := i + 1;
      }
      NameIndexIsOnly(live, name, key, i);
    }
  }

  lemma NameIndexIsOnly(s: seq<Off>, name: map<Off, string>, key: string, i: nat)
    requires i <= |s| && forall k | 0 <= k < i :: Get(name, s[k], "") != key
    requires i < |s| ==> Get(name, s[i], "") == key
    ensures NameIndex(s, name, key) == i
  {
  }
}
