/**
 The System V shared-memory handle table of one process.

 What the operating system answers is a parameter of every call, so a run ranges over all failures.
 */
module ShmHandles {

  const MAX_SHM: nat := 64
  const RETRIES: nat := 5

  datatype SlotState = Unborn | Created | Attached | Active | Detached | Destroyed | Failed

  /** `live` says that `magic` holds SHMEM_MAGIC. */
  datatype Slot = Slot(live: bool, key: int, id: int, size: nat, count: int, state: SlotState, mem: nat)

  type Table = seq<Slot>

  /** One answer of shmget: a segment id, or a refusal that may be the transient EPERM. */
  datatype Attempt = Id(id: int) | Refused(transient: bool)

  /** What a call to the system meets: the answers of shmget, the address of shmat (0 when it fails). */
  datatype NewOs = NewOs(attempts: seq<Attempt>, address: nat)

  /** shmdt, the attach count from IPC_STAT (negative when it fails), IPC_RMID. */
  datatype DeleteOs = DeleteOs(detached: bool, attachments: int, removed: bool)

  datatype Result = Handle(i: nat) | Einval | Enomem | OsError

  function Answer(attempts: seq<Attempt>, n: nat): Attempt {
    if n < |attempts| then attempts[n] else Refused(true)
  }

  /** The answer the retry loop settles for, from attempt `n` with `left` retries. */
  function Settled(attempts: seq<Attempt>, n: nat, left: nat): Attempt
    decreases left
  {
    var a := Answer(attempts, n);
    if a.Refused? && a.transient && left > 0 then Settled(attempts, n + 1, left - 1) else a
  }

  /** The first live slot with this key, from `i`; the length if there is none. */
  function LiveIndex(t: Table, key: int, i: nat): (j: nat)
    requires i <= |t|
    ensures i <= j <= |t|
    ensures j < |t| ==> t[j].live && t[j].key == key
    ensures forall k | i <= k < j :: !(t[k].live && t[k].key == key)
    decreases |t| - i
  {
    if i == |t| || (t[i].live && t[i].key == key) then i else LiveIndex(t, key, i + 1)
  }

  /** The first slot that is not live, from `i`; the length if there is none. */
  function FreeIndex(t: Table, i: nat): (j: nat)
    requires i <= |t|
    ensures i <= j <= |t|
    ensures j < |t| ==> !t[j].live
    ensures forall k | i <= k < j :: t[k].live
    decreases |t| - i
  {
    if i == |t| || !t[i].live then i else FreeIndex(t, i + 1)
  }

  datatype Outcome = Outcome(table: Table, result: Result)

  /** `rtapi_shmem_new`. */
  function New(t: Table, key: int, size: nat, os: NewOs): Outcome {
    if key == 0 || size == 0 then Outcome(t, Einval)
    else
      var i, f := LiveIndex(t, key, 0), FreeIndex(t, 0);
      if i < |t| then Outcome(t[i := t[i].(count := t[i].count + 1)], Handle(i))
      else if f == |t| then Outcome(t, Enomem)
      else
        var a := Settled(os.attempts, 0, RETRIES);
        if a.Refused? then Outcome(t[f := t[f].(id := -1)], OsError)
        else if os.address == 0 then Outcome(t[f := t[f].(id := -1, state := Failed, mem := 0)], OsError)
        else Outcome(t[f := Slot(true, key, a.id, size, 1, Active, os.address)], Handle(f))
  }

  /** The slot after its last reference was dropped. */
  function Released(s: Slot, os: DeleteOs): Slot {
    var s1 := if s.state == Active || s.state == Attached then s.(state := Detached, mem := 0) else s;
    s1.(live := false, count := s.count - 1, state := if os.attachments == 0 then Destroyed else s1.state)
  }

  predicate ReleasedCleanly(s: Slot, os: DeleteOs) {
    && (s.state == Active || s.state == Attached ==> os.detached)
    && os.attachments >= 0 && (os.attachments == 0 ==> os.removed)
  }

  /** `rtapi_shmem_delete`; the handle in an `Handle` result is the slot, for success. */
  function Delete(t: Table, h: int, os: DeleteOs): Outcome {
    if !(0 <= h < |t|) || !t[h].live then Outcome(t, Einval)
    else if t[h].count - 1 > 0 then Outcome(t[h := t[h].(count := t[h].count - 1)], Handle(h))
    else Outcome(t[h := Released(t[h], os)], if ReleasedCleanly(t[h], os) then Handle(h) else Einval)
  }

  /** `rtapi_shmem_getptr`: the address, or 0 with an error. */
  function Address(t: Table, h: int): nat {
    if !(0 <= h < |t|) || !t[h].live || (t[h].state != Active && t[h].state != Attached) then 0 else t[h].mem
  }

  // ---------------------------------------------------------------------------------------------

  class HandleTable {
    const slots: array<Slot>

    constructor ()
      ensures fresh(slots) && slots.Length == MAX_SHM && Ok(slots[..]) && forall i | 0 <= i < MAX_SHM :: !slots[i].live
    {
      slots := new Slot[MAX_SHM](i => Slot(false, 0, 0, 0, 0, Unborn, 0));
    }

    /** The walk over the handle array; stops early at a live slot with the key. */
    method FindSlot(key: int) returns (i: nat, free: nat)
      ensures i == LiveIndex(slots[..], key, 0)
      ensures i == slots.Length ==> free == FreeIndex(slots[..], 0)
    {
      i, free := 0, slots.Length;
      while i < slots.Length
        invariant i <= slots.Length && free <= slots.Length
        invariant LiveIndex(slots[..], key, 0) == LiveIndex(slots[..], key, i)
        invariant free == slots.Length ==> FreeIndex(slots[..], 0) == FreeIndex(slots[..], i)
        invariant free < slots.Length ==> free == FreeIndex(slots[..], 0)
      {
        if slots[i].live {
          if slots[i].key == key {
            return;
          }
        } else if free == slots.Length {
          free := i;
        }
        i := i + 1;
      }
    }

    /** The shmget retry loop. */
    method GetSegment(attempts: seq<Attempt>) returns (a: Attempt)
      ensures a == Settled(attempts, 0, RETRIES)
    {
      var n, left := 0, RETRIES;
      a := Answer(attempts, n);
      while a.Refused? && a.transient && left > 0
        invariant n + left == RETRIES && a == Answer(attempts, n)
        invariant Settled(attempts, 0, RETRIES) == Settled(attempts, n, left)
        decreases left
      {
        n, left := n + 1, left - 1;
        a := Answer(attempts, n);
      }
    }

    method ShmemNew(key: int, size: nat, os: NewOs) returns (result: Result)
      modifies slots
      ensures Outcome(slots[..], result) == New(old(slots[..]), key, size, os)
    {
      if key == 0 || size == 0 {
        return Einval;
      }
      var i, free := FindSlot(key);
      if i < slots.Length {
        slots[i] := slots[i].(count := slots[i].count + 1);
        return Handle(i);
      }
      if free == slots.Length {
        return Enomem;
      }
      var a := GetSegment(os.attempts);
      if a.Refused? {
        slots[free] := slots[free].(id := -1);
        return OsError;
      }
      slots[free] := slots[free].(id := a.id, state := Created);
      if os.address == 0 {
        slots[free] := slots[free].(id := -1, state := Failed, mem := 0);
        return OsError;
      }
      slots[free] := slots[free].(mem := os.address, state := Attached);
      slots[free] := slots[free].(live := true, size := size, key := key, count := 1, state := Active);
      result := Handle(free);
    }

    method ShmemDelete(h: int, os: DeleteOs) returns (result: Result)
      modifies slots
      ensures Outcome(slots[..], result) == Delete(old(slots[..]), h, os)
    {
      if !(0 <= h < slots.Length) || !slots[h].live {
        return Einval;
      }
      slots[h] := slots[h].(count := slots[h].count - 1);
      if slots[h].count > 0 {
        return Handle(h);
      }
      var ok := true;
      if slots[h].state == Active || slots[h].state == Attached {
        ok := os.detached;
        slots[h] := slots[h].(state := Detached, mem := 0);
      }
      ok := ok && os.attachments >= 0;
      if os.attachments == 0 {
        ok := ok && os.removed;
        slots[h] := slots[h].(state := Destroyed);
      }
      slots[h] := slots[h].(live := false);
      result := if ok then Handle(h) else Einval;
    }

    method ShmemGetptr(h: int) returns (address: nat)
      ensures address == Address(slots[..], h)
      ensures Ok(slots[..]) ==> (address != 0 <==> 0 <= h < slots.Length && slots[h].live)
    {
      if !(0 <= h < slots.Length) || !slots[h].live {
        return 0;
      }
      if slots[h].state != Active && slots[h].state != Attached {
        return 0;
      }
      address := slots[h].mem;
    }
  }

  // ---------------------------------------------------------------------------------------------

  ghost predicate SlotOk(s: Slot) {
    s.live ==> s.key != 0 && s.state == Active && s.mem > 0 && s.count >= 1
  }

  /** Live slots are mapped, counted at least once and have distinct keys. */
  ghost predicate Ok(t: Table) {
    && (forall i | 0 <= i < |t| :: SlotOk(t[i]))
    && (forall i, j | 0 <= i < |t| && 0 <= j < |t| && t[i].live && t[j].live && t[i].key == t[j].key :: i == j)
  }

  lemma NewKeepsOk(t: Table, key: int, size: nat, os: NewOs)
    requires Ok(t)
    ensures Ok(New(t, key, size, os).table)
  {
  }

  lemma DeleteKeepsOk(t: Table, h: int, os: DeleteOs)
    requires Ok(t)
    ensures Ok(Delete(t, h, os).table)
  {
  }

  /** The `k`-th call of shmget is made: all before it met a transient refusal. */
  ghost predicate Reaches(attempts: seq<Attempt>, n: nat, k: nat) {
    n <= k && forall j: nat | n <= j < k :: Answer(attempts, j) == Refused(true)
  }

  /** The first id within five retries that only transient refusals precede is the one that is taken, and any other way is a failure. */
  lemma {:induction false} SettledIff(attempts: seq<Attempt>, n: nat, left: nat, id: int)
    ensures Settled(attempts, n, left) == Id(id) <==>
      exists k: nat :: Reaches(attempts, n, k) && k <= n + left && Answer(attempts, k) == Id(id)
    decreases left
  {
    var a := Answer(attempts, n);
    if a == Refused(true) && left > 0 {
      SettledIff(attempts, n + 1, left - 1, id);
      if Settled(attempts, n, left) == Id(id) {
        var k: nat :| Reaches(attempts, n + 1, k) && k <= n + left && Answer(attempts, k) == Id(id);
        assert Reaches(attempts, n, k);
      }
      if k: nat :| Reaches(attempts, n, k) && k <= n + left && Answer(attempts, k) == Id(id) {
        assert k != n && Reaches(attempts, n + 1, k);
      }
    } else {
      assert Reaches(attempts, n, n);
      if k: nat :| Reaches(attempts, n, k) && k <= n + left && Answer(attempts, k) == Id(id) {
        assert k == n || Answer(attempts, n) == Refused(true);
      }
    }
  }

  // ---------------------------------------------------------------------------------------------
  // What the calls mean to their caller.

  ghost predicate Holds(t: Table, h: int, key: int) {
    0 <= h < |t| && t[h].live && t[h].key == key
  }

  ghost predicate OnlyAt(t: Table, t': Table, h: int) {
    |t'| == |t| && forall i | 0 <= i < |t| && i != h :: t'[i] == t[i]
  }

  /**
   A successful open returns a handle that holds the key: the one already open with one reference
   more, or a free slot with the id shmget gave, the address shmat gave and one reference.
   */
  lemma OpenGivesTheKey(t: Table, key: int, size: nat, os: NewOs)
    requires Ok(t) && New(t, key, size, os).result.Handle?
    ensures var o := New(t, key, size, os); var h := o.result.i;
      && Holds(o.table, h, key) && OnlyAt(t, o.table, h)
      && ((exists i :: Holds(t, i, key)) ==> Holds(t, h, key) && o.table[h] == t[h].(count := t[h].count + 1))
      && (!(exists i :: Holds(t, i, key)) ==>
            && !t[h].live && o.table[h].count == 1 && o.table[h].size == size && o.table[h].state == Active
            && o.table[h].mem == os.address > 0
            && exists k: nat :: Reaches(os.attempts, 0, k) && k <= RETRIES && Answer(os.attempts, k) == Id(o.table[h].id))
  {
    var h := New(t, key, size, os).result.i;
    var i := LiveIndex(t, key, 0);
    if i < |t| {
      assert Holds(t, i, key);
    } else {
      SettledIff(os.attempts, 0, RETRIES, New(t, key, size, os).table[h].id);
    }
  }

  /** An open succeeds exactly on a held key, or with a free slot, an id from shmget and an address from shmat; which failure is which. */
  lemma OpenResults(t: Table, key: int, size: nat, os: NewOs)
    ensures var o := New(t, key, size, os); var held := exists i :: Holds(t, i, key); var full := forall i | 0 <= i < |t| :: t[i].live;
      var given := os.address > 0 && exists k: nat, id :: Reaches(os.attempts, 0, k) && k <= RETRIES && Answer(os.attempts, k) == Id(id);
      && (o.result == Einval <==> key == 0 || size == 0)
      && (o.result == Enomem <==> key != 0 && size != 0 && !held && full)
      && (o.result == OsError <==> key != 0 && size != 0 && !held && !full && !given)
      && (!o.result.Handle? ==> |o.table| == |t| && forall i | 0 <= i < |t| :: if t[i].live then o.table[i] == t[i] else !o.table[i].live)
  {
    var i := LiveIndex(t, key, 0);
    assert i < |t| ==> Holds(t, i, key);
    var a := Settled(os.attempts, 0, RETRIES);
    if a.Id? {
      SettledIff(os.attempts, 0, RETRIES, a.id);
    }
    forall k: nat, id | Reaches(os.attempts, 0, k) && k <= RETRIES && Answer(os.attempts, k) == Id(id) ensures a == Id(id) {
      SettledIff(os.attempts, 0, RETRIES, id);
    }
  }

  /** A delete drops one reference of the handle; with the last one the slot is free, unmapped, and destroyed if nobody is attached. */
  lemma DeleteResults(t: Table, h: int, os: DeleteOs)
    requires Ok(t)
    ensures var o := Delete(t, h, os);
      && (!(0 <= h < |t| && t[h].live) ==> o == Outcome(t, Einval))
      && (0 <= h < |t| && t[h].live ==>
            && OnlyAt(t, o.table, h) && o.table[h].count == t[h].count - 1
            && (o.table[h].live <==> t[h].count > 1)
            && (t[h].count > 1 ==> o.result == Handle(h) && o.table[h] == t[h].(count := t[h].count - 1))
            && (t[h].count == 1 ==>
                  && o.table[h].mem == 0 && o.table[h].state == (if os.attachments == 0 then Destroyed else Detached)
                  && o.result == if os.detached && (os.attachments > 0 || (os.attachments == 0 && os.removed)) then Handle(h) else Einval))
  {
  }

  // ---------------------------------------------------------------------------------------------
  // Runs.

  datatype Event = DoNew(key: int, size: nat, newOs: NewOs) | DoDelete(h: int, deleteOs: DeleteOs)

  function Next(t: Table, e: Event): Table {
    match e
    case DoNew(key, size, os) => New(t, key, size, os).table
    case DoDelete(h, os) => Delete(t, h, os).table
  }

  function Run(t: Table, es: seq<Event>): Table
    decreases |es|
  {
    if es == [] then t else Run(Next(t, es[0]), es[1..])
  }

  /** References this process holds on a key. */
  function References(t: Table, key: int): int {
    var i := LiveIndex(t, key, 0);
    if i < |t| then t[i].count else 0
  }

  /** What a call adds to the references on a key: one per open that returned a handle, minus one per delete of it. */
  function Change(t: Table, e: Event, key: int): int {
    match e
    case DoNew(k, size, os) => if k == key && New(t, k, size, os).result.Handle? then 1 else 0
    case DoDelete(h, _) => if 0 <= h < |t| && t[h].live && t[h].key == key then -1 else 0
  }

  function Balance(t: Table, es: seq<Event>, key: int): int
    decreases |es|
  {
    if es == [] then 0 else Change(t, es[0], key) + Balance(Next(t, es[0]), es[1..], key)
  }

  lemma NextKeepsOk(t: Table, e: Event)
    requires Ok(t)
    ensures Ok(Next(t, e)) && |Next(t, e)| == |t|
  {
    match e
    case DoNew(key, size, os) => NewKeepsOk(t, key, size, os);
    case DoDelete(h, os) => DeleteKeepsOk(t, h, os);
  }

  lemma LiveIndexIs(t: Table, key: int, i: nat)
    requires Ok(t) && i < |t| && t[i].live && t[i].key == key
    ensures LiveIndex(t, key, 0) == i
  {
  }

  lemma NoneLive(t: Table, key: int)
    requires forall i | 0 <= i < |t| :: !(t[i].live && t[i].key == key)
    ensures LiveIndex(t, key, 0) == |t|
  {
  }

  lemma NewCounts(t: Table, k: int, size: nat, os: NewOs, key: int)
    requires Ok(t)
    ensures References(New(t, k, size, os).table, key) == References(t, key) + Change(t, DoNew(k, size, os), key)
  {
    var o := New(t, k, size, os);
    NewKeepsOk(t, k, size, os);
    var i := LiveIndex(t, key, 0);
    if i < |t| {
      LiveIndexIs(o.table, key, i);
    } else if o.result.Handle? && k == key {
      LiveIndexIs(o.table, key, o.result.i);
    } else {
      NoneLive(o.table, key);
    }
  }

  lemma DeleteCounts(t: Table, h: int, os: DeleteOs, key: int)
    requires Ok(t)
    ensures References(Delete(t, h, os).table, key) == References(t, key) + Change(t, DoDelete(h, os), key)
  {
    var t' := Delete(t, h, os).table;
    DeleteKeepsOk(t, h, os);
    var i := LiveIndex(t, key, 0);
    if i < |t| && t'[i].live {
      LiveIndexIs(t', key, i);
    } else {
      NoneLive(t', key);
    }
    if 0 <= h < |t| && t[h].live && t[h].key == key {
      LiveIndexIs(t, key, h);
    }
  }

  lemma NextCounts(t: Table, e: Event, key: int)
    requires Ok(t)
    ensures References(Next(t, e), key) == References(t, key) + Change(t, e, key)
  {
    match e
    case DoNew(k, size, os) => NewCounts(t, k, size, os, key);
    case DoDelete(h, os) => DeleteCounts(t, h, os, key);
  }

  /** For every run with any failures, the count of a live slot is opens minus deletes. */
  lemma {:induction false} CountIsBalance(t: Table, es: seq<Event>, key: int)
    requires Ok(t)
    ensures Ok(Run(t, es)) && References(Run(t, es), key) == References(t, key) + Balance(t, es, key)
    decreases |es|
  {
    if es != [] {
      NextKeepsOk(t, es[0]);
      NextCounts(t, es[0], key);
      CountIsBalance(Next(t, es[0]), es[1..], key);
    }
  }

  /** The run does not drop the last reference held through slot `h`. */
  ghost predicate Held(t: Table, es: seq<Event>, h: nat)
    decreases |es|
  {
    h < |t| && t[h].live && (es != [] ==> Held(Next(t, es[0]), es[1..], h))
  }

  /** Until its last delete a handle keeps its key, its segment and its one address. */
  lemma {:induction false} AddressIsFixed(t: Table, es: seq<Event>, h: nat)
    requires Ok(t) && Held(t, es, h)
    ensures var t' := Run(t, es);
      h < |t'| && t'[h].key == t[h].key && t'[h].id == t[h].id && Address(t', h) == Address(t, h) && Address(t, h) > 0
    decreases |es|
  {
    if es != [] {
      NextKeepsOk(t, es[0]);
      assert Held(Next(t, es[0]), es[1..], h);
      AddressIsFixed(Next(t, es[0]), es[1..], h);
    }
  }

  /** While a handle is held, every open of its key returns that handle. */
  lemma {:induction false} HeldKeyKeepsItsHandle(t: Table, es: seq<Event>, h: nat, size: nat, os: NewOs)
    requires Ok(t) && Held(t, es, h) && size > 0
    ensures New(Run(t, es), t[h].key, size, os).result == Handle(h)
  {
    var key := t[h].key;
    CountIsBalance(t, es, key);
    AddressIsFixed(t, es, h);
    HeldAtEnd(t, es, h);
    LiveIndexIs(Run(t, es), key, h);
    assert SlotOk(t[h]);
  }

  lemma {:induction false} HeldAtEnd(t: Table, es: seq<Event>, h: nat)
    requires Held(t, es, h)
    ensures h < |Run(t, es)| && Run(t, es)[h].live
    decreases |es|
  {
    if es != [] {
      HeldAtEnd(Next(t, es[0]), es[1..], h);
    }
  }
}
