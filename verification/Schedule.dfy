/**
 What a thread executes.

 The history of a registry is replayed on a plain value: what each function was exported with,
 and for each thread name the sequence of function names it runs.  The registry always represents
 the replay of its history, and one pass of `thread_task` calls exactly the planned functions.
 */
module Schedule {
  import opened Links
  import opened Names
  import opened Arena
  import opened Registry
  import opened Sweeps
  import opened Invariant
  import opened Cascade
  import opened Preservation

  /** An exported function: the module id of its component, what it calls, and its two flags. */
  datatype Listing = Listing(id: int, code: Code, fp: bool, reentrant: bool)

  /** The functions, and for each thread its schedule and what it was created with. */
  datatype Sched = Sched(listed: map<string, Listing>, plan: map<string, seq<string>>, spec: map<string, Thread>)

  function DropNames(p: seq<string>, gone: set<string>): seq<string> {
    if p == [] then []
    else if p[0] in gone then DropNames(p[1..], gone)
    else [p[0]] + DropNames(p[1..], gone)
  }

  function FirstOf(p: seq<string>, n: string): (i: nat)
    ensures i <= |p|
    ensures forall k | 0 <= k < i :: p[k] != n
    ensures i < |p| ==> p[i] == n
  {
    if p == [] || p[0] == n then 0 else 1 + FirstOf(p[1..], n)
  }

  function RemoveFirst(p: seq<string>, n: string): seq<string> {
    var i := FirstOf(p, n);
    if i == |p| then p else p[..i] + p[i + 1..]
  }

  /** One accepted operation, on names only. */
  function Replay(s: Sched, op: Op): Sched {
    match op
    case OpExport(name, code, fp, reentrant, id) => s.(listed := s.listed[name := Listing(id, code, fp, reentrant)])
    case OpCreate(name, period, fp, priority, _, _) =>
      s.(plan := s.plan[name := []], spec := s.spec[name := Thread(fp, ToLong(period), priority)])
    case OpAdd(f, t, position) =>
      var place := if t in s.plan then PlaceFor(|s.plan[t]|, position) else Nowhere;
      if place.Before? then s.(plan := s.plan[t := Inserted(s.plan[t], place.index, f)]) else s
    case OpDel(f, t) =>
      if t in s.plan then s.(plan := s.plan[t := RemoveFirst(s.plan[t], f)]) else s
    case OpExit(id) =>
      var gone := set n | n in s.listed && s.listed[n].id == id;
      s.(listed := s.listed - gone, plan := map t | t in s.plan :: DropNames(s.plan[t], gone))
    case OpAppExit => s.(plan := map[], spec := map[])
    case _ => s
  }

  /** The replay of a whole history: only accepted operations have an effect. */
  function ReplayAll(s: Sched, r: Reg, ops: seq<Op>): Sched
    decreases |ops|
  {
    if ops == [] then s
    else ReplayAll(if Step(r, ops[0]).status == Ok then Replay(s, ops[0]) else s, Step(r, ops[0]).reg, ops[1..])
  }

  // ---------------------------------------------------------------------------------------------
  // The abstraction.

  function ListingOf(r: Reg, f: Off): Listing {
    Listing(r.C(r.w.F(f).owner).id, r.w.F(f).code, r.w.F(f).fp, r.w.F(f).reentrant)
  }

  /** The function names along a sequence of entries. */
  function EntryNames(s: seq<Off>, em: map<Off, Entry>, name: map<Off, string>): seq<string> {
    if s == [] then [] else [Get(name, Get(em, s[0], NO_ENTRY).funct, "")] + EntryNames(s[1..], em, name)
  }

  function PlanOf(r: Reg, t: Off): seq<string> {
    EntryNames(r.w.RingOf(t), r.w.entryMem, r.functs.name)
  }

  /** Every key is the name of some struct of the list. */
  ghost predicate Covers(s: seq<Off>, name: map<Off, string>, keys: set<string>) {
    forall n | n in keys :: exists x :: x in s && Get(name, x, "") == n
  }

  lemma CoversMore(s: seq<Off>, name: map<Off, string>, keys: set<string>, s': seq<Off>, name': map<Off, string>)
    requires Covers(s, name, keys)
    requires forall x | x in s :: x in s' && Get(name', x, "") == Get(name, x, "")
    ensures Covers(s', name', keys)
  {
    forall n | n in keys ensures exists x :: x in s' && Get(name', x, "") == n {
      var x :| x in s && Get(name, x, "") == n;
      assert x in s' && Get(name', x, "") == n;
    }
  }

  lemma CoversOneMore(s: seq<Off>, name: map<Off, string>, keys: set<string>, x: Off)
    requires Covers(s, name, keys) && x in s
    ensures Covers(s, name, keys + {Get(name, x, "")})
  {
    forall n | n in keys + {Get(name, x, "")} ensures exists y :: y in s && Get(name, y, "") == n {
      if n == Get(name, x, "") { assert x in s; }
    }
  }

  ghost predicate FunctsShown(r: Reg, s: Sched) {
    && (forall f | f in r.functs.live :: r.FunctName(f) in s.listed && s.listed[r.FunctName(f)] == ListingOf(r, f))
    && Covers(r.functs.live, r.functs.name, s.listed.Keys)
  }

  ghost predicate ThreadsShown(r: Reg, s: Sched) {
    && (forall t | t in r.threads.live :: r.ThreadName(t) in s.plan && s.plan[r.ThreadName(t)] == PlanOf(r, t))
    && Covers(r.threads.live, r.threads.name, s.plan.Keys)
  }

  ghost predicate SpecsShown(r: Reg, s: Sched) {
    forall t | t in r.threads.live :: r.ThreadName(t) in s.spec && s.spec[r.ThreadName(t)] == r.T(t)
  }

  lemma SpecsSame(r: Reg, r': Reg, s: Sched)
    requires SpecsShown(r, s) && r'.threads.live == r.threads.live
    requires forall t | t in r.threads.live :: r'.ThreadName(t) == r.ThreadName(t) && r'.T(t) == r.T(t)
    ensures SpecsShown(r', s)
  {
  }

  ghost predicate Shows(r: Reg, s: Sched) {
    r.state != Destroyed && FunctsShown(r, s) && ThreadsShown(r, s) && SpecsShown(r, s)
  }

  // ---------------------------------------------------------------------------------------------
  // Names along entries.

  lemma {:induction false} EntryNamesAt(s: seq<Off>, em: map<Off, Entry>, name: map<Off, string>)
    ensures |EntryNames(s, em, name)| == |s|
    ensures forall i | 0 <= i < |s| :: EntryNames(s, em, name)[i] == Get(name, Get(em, s[i], NO_ENTRY).funct, "")
  {
    if s != [] {
      EntryNamesAt(s[1..], em, name);
    }
  }

  lemma {:induction false} EntryNamesFrame(s: seq<Off>, em: map<Off, Entry>, em': map<Off, Entry>, name: map<Off, string>, name': map<Off, string>)
    requires forall e | e in s :: Get(em', e, NO_ENTRY) == Get(em, e, NO_ENTRY)
    requires forall e | e in s :: Get(name', Get(em, e, NO_ENTRY).funct, "") == Get(name, Get(em, e, NO_ENTRY).funct, "")
    ensures EntryNames(s, em', name') == EntryNames(s, em, name)
  {
    if s != [] {
      EntryNamesFrame(s[1..], em, em', name, name');
    }
  }

  lemma {:induction false} EntryNamesKeep(s: seq<Off>, em: map<Off, Entry>, name: map<Off, string>, dead: set<Off>, gone: set<string>)
    requires forall e | e in s :: Get(name, Get(em, e, NO_ENTRY).funct, "") in gone <==> Get(em, e, NO_ENTRY).funct in dead
    ensures EntryNames(Keep(s, em, dead), em, name) == DropNames(EntryNames(s, em, name), gone)
  {
    if s != [] {
      EntryNamesKeep(s[1..], em, name, dead, gone);
      var k := Keep(s[1..], em, dead);
      var n := EntryNames(s[1..], em, name);
      assert ([s[0]] + k)[1..] == k;
      assert EntryNames(s, em, name)[1..] == n;
      assert s[0] in s;
    }
  }

  lemma {:induction false} EntryNamesConcat(a: seq<Off>, b: seq<Off>, em: map<Off, Entry>, name: map<Off, string>)
    ensures EntryNames(a + b, em, name) == EntryNames(a, em, name) + EntryNames(b, em, name)
  {
    if a == [] {
      assert a + b == b;
    } else {
      assert (a + b)[1..] == a[1..] + b;
      EntryNamesConcat(a[1..], b, em, name);
    }
  }

  lemma EntryNamesSplit(s: seq<Off>, i: nat, em: map<Off, Entry>, name: map<Off, string>)
    requires i <= |s|
    ensures i <= |EntryNames(s, em, name)|
    ensures EntryNames(s[..i], em, name) == EntryNames(s, em, name)[..i]
    ensures EntryNames(s[i..], em, name) == EntryNames(s, em, name)[i..]
  {
    EntryNamesAt(s[..i], em, name);
    EntryNamesConcat(s[..i], s[i..], em, name);
    assert s == s[..i] + s[i..];
  }

  lemma EntryNamesInserted(s: seq<Off>, i: nat, x: Off, em: map<Off, Entry>, name: map<Off, string>)
    requires i <= |s|
    ensures var p := EntryNames(s, em, name);
      && i <= |p|
      && EntryNames(Inserted(s, i, x), em, name) == p[..i] + [Get(name, Get(em, x, NO_ENTRY).funct, "")] + p[i..]
  {
    EntryNamesSplit(s, i, em, name);
    EntryNamesConcat(s[..i] + [x], s[i..], em, name);
    EntryNamesConcat(s[..i], [x], em, name);
  }

  lemma EntryNamesWithout(s: seq<Off>, i: nat, em: map<Off, Entry>, name: map<Off, string>)
    requires i < |s|
    ensures var p := EntryNames(s, em, name);
      && i < |p|
      && EntryNames(Without(s, i), em, name) == p[..i] + p[i + 1..]
  {
    EntryNamesSplit(s, i, em, name);
    EntryNamesSplit(s, i + 1, em, name);
    EntryNamesConcat(s[..i], s[i + 1..], em, name);
  }

  /** Different listed functions have different names. */
  lemma NamesDiffer(p: Pool, f: Off, g: Off)
    requires NamesSorted(p) && f in p.live && g in p.live && f != g
    ensures Get(p.name, f, "") != Get(p.name, g, "")
  {
    var n := NamesOf(p.live, p.name);
    var i :| 0 <= i < |p.live| && p.live[i] == f;
    var j :| 0 <= j < |p.live| && p.live[j] == g;
    StrCmpZero(n[i], n[j]);
    StrCmpZero(n[j], n[i]);
    if i < j { assert StrCmp(n[i], n[j]) < 0; } else { assert StrCmp(n[j], n[i]) < 0; }
  }

  /** `halpr_find_funct_by_name` and the thread search succeed exactly on listed names. */
  lemma FindIffListed(p: Pool, key: string)
    requires 0 !in p.live
    ensures FindName(p.live, p.name, key) != 0 <==> key in NamesOf(p.live, p.name)
  {
    var names := NamesOf(p.live, p.name);
    var i := NameIndex(p.live, p.name, key);
    if i < |p.live| {
      assert names[i] == key;
    }
  }

  // ---------------------------------------------------------------------------------------------
  // Operation by operation.

  lemma ShowsExport(r: Reg, s: Sched, name: string, code: Code, fp: bool, reentrant: bool, id: int)
    requires FunctParts(r) && Shows(r, s)
    ensures var o := Export(r, name, code, fp, reentrant, id);
      Shows(o.reg, if o.status == Ok then s.(listed := s.listed[name := Listing(id, code, fp, reentrant)]) else s)
  {
    var o := Export(r, name, code, fp, reentrant, id);
    ExportCases(r, name, code, fp, reentrant, id);
    if o.reg != r || o.status == Ok {
      var k := Register(r.functs, r.gap, r.sizes.funct, name);
      RegisterEffect(r.functs, r.gap, r.sizes.funct, name);
      ExportShown(r, o.reg, s, k, name, Listing(id, code, fp, reentrant));
    }
  }

  lemma ExportShown(r: Reg, r': Reg, s: Sched, k: Registered, name: string, v: Listing)
    requires RegisterOk(r.functs, r.gap, name, k) && Shows(r, s) && Linked(r)
    requires r'.comps == r.comps && r'.compMem == r.compMem && r'.functs == k.pool && r'.threads == r.threads
    requires r'.threadMem == r.threadMem && r'.state == r.state && r'.w.rings == r.w.rings && r'.w.entryMem == r.w.entryMem
    requires forall f | f in r.functs.live :: r'.w.F(f) == r.w.F(f)
    requires k.status == Ok ==> ListingOf(r', k.x) == v && r'.FunctName(k.x) == name
    ensures Shows(r', if k.status == Ok then s.(listed := s.listed[name := v]) else s)
  {
    forall f | f in r.functs.live ensures r'.FunctName(f) == r.FunctName(f) && r.FunctName(f) in NamesOf(r.functs.live, r.functs.name) {
      var i :| 0 <= i < |r.functs.live| && r.functs.live[i] == f;
      assert NamesOf(r.functs.live, r.functs.name)[i] == r.FunctName(f);
    }
    ExportFuncts(r, r', s, k, name, v);
    PlansSame(r, r', s);
  }

  lemma ExportFuncts(r: Reg, r': Reg, s: Sched, k: Registered, name: string, v: Listing)
    requires FunctsShown(r, s) && r'.functs == k.pool && r'.comps == r.comps && r'.compMem == r.compMem
    requires forall f :: f in k.pool.live <==> f in r.functs.live || (k.status == Ok && f == k.x)
    requires forall f | f in r.functs.live :: r'.w.F(f) == r.w.F(f) && r'.FunctName(f) == r.FunctName(f)
    requires k.status == Ok ==> forall f | f in r.functs.live :: r.FunctName(f) != name
    requires k.status == Ok ==> ListingOf(r', k.x) == v && r'.FunctName(k.x) == name
    ensures FunctsShown(r', if k.status == Ok then s.(listed := s.listed[name := v]) else s)
  {
    CoversMore(r.functs.live, r.functs.name, s.listed.Keys, r'.functs.live, r'.functs.name) by {
      forall f | f in r.functs.live ensures Get(r'.functs.name, f, "") == Get(r.functs.name, f, "") {
        assert r'.FunctName(f) == r.FunctName(f);
      }
    }
    if k.status == Ok {
      CoversOneMore(r'.functs.live, r'.functs.name, s.listed.Keys, k.x);
      assert s.listed[name := v].Keys == s.listed.Keys + {r'.FunctName(k.x)};
    }
  }

  /** Nothing that plans depend on has changed. */
  lemma PlansSame(r: Reg, r': Reg, s: Sched)
    requires ThreadsShown(r, s) && LinksOk(r.w, r.threads.live, r.threadMem, Live(r.functs)) && r'.threads == r.threads
    requires r'.w.rings == r.w.rings && r'.w.entryMem == r.w.entryMem
    requires forall f | f in r.functs.live :: r'.FunctName(f) == r.FunctName(f)
    ensures forall listed :: ThreadsShown(r', s.(listed := listed))
    ensures ThreadsShown(r', s)
  {
    forall t | t in r.threads.live ensures PlanOf(r', t) == PlanOf(r, t) && r'.ThreadName(t) == r.ThreadName(t) {
      PlanSame(r, r', t);
    }
  }

  /** A plan depends on the ring, on its entries and on the names of listed functions. */
  lemma PlanSame(r: Reg, r': Reg, t: Off)
    requires LinksOk(r.w, r.threads.live, r.threadMem, Live(r.functs)) && t in r.threads.live
    requires r'.w.RingOf(t) == r.w.RingOf(t) && forall e | e in r.w.RingOf(t) :: r'.w.E(e) == r.w.E(e)
    requires forall f | f in r.functs.live :: r'.FunctName(f) == r.FunctName(f)
    ensures PlanOf(r', t) == PlanOf(r, t)
  {
    forall e | e in r.w.RingOf(t) ensures r'.FunctName(r.w.E(e).funct) == r.FunctName(r.w.E(e).funct) {
      assert EntryOk(r.w, Get(r.threadMem, t, NO_THREAD), e, Live(r.functs));
    }
    forall e | e in r.w.RingOf(t) ensures Get(r'.w.entryMem, e, NO_ENTRY) == Get(r.w.entryMem, e, NO_ENTRY) {
      assert r'.w.E(e) == r.w.E(e);
    }
    EntryNamesFrame(r.w.RingOf(t), r.w.entryMem, r'.w.entryMem, r.functs.name, r'.functs.name);
  }

  // Exit.

  ghost function Gone(s: Sched, id: int): set<string> {
    set n | n in s.listed && s.listed[n].id == id
  }

  /** The names that go with component `id` are the names of the functions it owns. */
  lemma GoneIffOwned(r: Reg, s: Sched, i: nat)
    requires FunctsShown(r, s) && Owned(r) && IdsOk(r) && i < |r.comps.live|
    ensures var c := r.comps.live[i];
      forall f | f in r.functs.live :: r.FunctName(f) in Gone(s, r.C(c).id) <==> f in OwnedBy(r.w, r.functs.live, c)
  {
    var c := r.comps.live[i];
    forall f | f in r.functs.live
      ensures r.FunctName(f) in Gone(s, r.C(c).id) <==> f in OwnedBy(r.w, r.functs.live, c)
    {
      assert s.listed[r.FunctName(f)] == ListingOf(r, f);
      assert r.w.F(f).owner in r.comps.live && c in r.comps.live;
    }
  }

  /** What stays listed after an exit is what the component did not own, as it was. */
  lemma ExitKeepsListed(r: Reg, r': Reg, i: nat)
    requires i < |r.comps.live| && Deleted(r, r', i)
    ensures var c := r.comps.live[i];
      forall f | f in r.functs.live :: f in r'.functs.live <==> f !in OwnedBy(r.w, r.functs.live, c)
    ensures forall f | f in r'.functs.live ::
      f in r.functs.live && r'.w.F(f) == r.w.F(f) && r'.FunctName(f) == r.FunctName(f)
  {
    var c := r.comps.live[i];
    NotOwnedMembers(r.functs.live, Owners(r.w), c);
    forall f | f in r.functs.live ensures f in r'.functs.live <==> f !in OwnedBy(r.w, r.functs.live, c) {
      OwnerIs(r.w, f);
    }
    forall f | f in r'.functs.live ensures f in r.functs.live && r'.w.F(f) == r.w.F(f) {
      OwnerIs(r.w, f);
    }
  }

  lemma ExitFuncts(r: Reg, r': Reg, s: Sched, i: nat)
    requires FunctsShown(r, s) && Owned(r) && IdsOk(r) && i < |r.comps.live| && Deleted(r, r', i)
    ensures FunctsShown(r', Replay(s, OpExit(r.C(r.comps.live[i]).id)))
  {
    var c := r.comps.live[i];
    var s' := Replay(s, OpExit(r.C(c).id));
    GoneIffOwned(r, s, i);
    ExitKeepsListed(r, r', i);
    forall f | f in r'.functs.live ensures r'.FunctName(f) in s'.listed && s'.listed[r'.FunctName(f)] == ListingOf(r', f) {
      assert f in r.functs.live && r.w.F(f).owner != c by { OwnerIs(r.w, f); }
    }
    forall n | n in s'.listed.Keys ensures exists f :: f in r'.functs.live && Get(r'.functs.name, f, "") == n {
      var f :| f in r.functs.live && Get(r.functs.name, f, "") == n;
      assert r.FunctName(f) == n && f in r'.functs.live && r'.FunctName(f) == n;
    }
  }

  lemma ExitPlan(r: Reg, r': Reg, s: Sched, i: nat, t: Off)
    requires Core(r) && Owned(r) && FunctsShown(r, s) && i < |r.comps.live| && Deleted(r, r', i) && t in r.threads.live
    ensures PlanOf(r', t) == DropNames(PlanOf(r, t), Gone(s, r.C(r.comps.live[i]).id))
  {
    var c := r.comps.live[i];
    var ring, em, name := r.w.RingOf(t), r.w.entryMem, r.functs.name;
    var dead := OwnedBy(r.w, r.functs.live, c);
    GoneIffOwned(r, s, i);
    NotOwnedMembers(r.functs.live, Owners(r.w), c);
    forall e | e in ring ensures r.w.E(e).funct in r.functs.live {
      assert EntryOk(r.w, Get(r.threadMem, t, NO_THREAD), e, Live(r.functs));
    }
    EntryNamesKeep(ring, em, name, dead, Gone(s, r.C(c).id));
    KeepMembers(ring, em, dead);
    var k := Keep(ring, em, dead);
    forall e | e in k
      ensures Get(r'.w.entryMem, e, NO_ENTRY) == Get(em, e, NO_ENTRY)
      ensures Get(r'.functs.name, Get(em, e, NO_ENTRY).funct, "") == Get(name, Get(em, e, NO_ENTRY).funct, "")
    {
      assert r'.w.E(e) == r.w.E(e);
      OwnerIs(r.w, r.w.E(e).funct);
      assert r.w.E(e).funct in r'.functs.live;
      assert r'.FunctName(r.w.E(e).funct) == r.FunctName(r.w.E(e).funct);
    }
    EntryNamesFrame(k, em, r'.w.entryMem, name, r'.functs.name);
    assert r'.w.RingOf(t) == k;
  }

  lemma ShowsExit(r: Reg, s: Sched, id: int)
    requires Inv(r) && Shows(r, s)
    ensures var o := HalExit(r, id); Shows(o.reg, if o.status == Ok then Replay(s, OpExit(id)) else s)
  {
    var o := HalExit(r, id);
    var i := IdIndex(r.comps.live, r.compMem, id);
    ExitDeletes(r, id);
    if o.status == Ok {
      ExitFuncts(r, o.reg, s, i);
      forall t | t in r.threads.live ensures PlanOf(o.reg, t) == DropNames(PlanOf(r, t), Gone(s, id)) {
        ExitPlan(r, o.reg, s, i, t);
      }
      ExitThreads(r, o.reg, s, id);
      SpecsSame(r, o.reg, s);
      ExitSpecs(o.reg, s, id);
    }
  }

  lemma ExitSpecs(r: Reg, s: Sched, id: int)
    requires SpecsShown(r, s)
    ensures SpecsShown(r, Replay(s, OpExit(id)))
  {
  }

  lemma ExitThreads(r: Reg, r': Reg, s: Sched, id: int)
    requires ThreadsShown(r, s) && r'.threads == r.threads
    requires forall t | t in r.threads.live :: PlanOf(r', t) == DropNames(PlanOf(r, t), Gone(s, id))
    ensures ThreadsShown(r', Replay(s, OpExit(id)))
  {
    var s' := Replay(s, OpExit(id));
    forall t | t in r'.threads.live ensures r'.ThreadName(t) in s'.plan && s'.plan[r'.ThreadName(t)] == PlanOf(r', t) {
      assert r'.ThreadName(t) == r.ThreadName(t);
    }
    assert s'.plan.Keys == s.plan.Keys;
  }

  // Threads.

  lemma OwnersSame(r: Reg, r': Reg, s: Sched, plan: map<string, seq<string>>)
    requires FunctsShown(r, s) && r'.functs == r.functs && r'.comps == r.comps && r'.compMem == r.compMem
    requires forall f | f in r.functs.live :: r'.w.F(f) == r.w.F(f).(users := r'.w.F(f).users)
    ensures FunctsShown(r', s.(plan := plan))
  {
    forall f | f in r.functs.live ensures r'.FunctName(f) == r.FunctName(f) && ListingOf(r', f) == ListingOf(r, f) {}
  }

  /** What `TakeThread` says about the new struct. */
  ghost predicate FreshThread(r: Reg, k: Taken) {
    && k.x !in r.threads.live && 0 !in r.threads.live && k.x !in r.w.rings
    && k.pool.live == r.threads.live && k.pool.name == r.threads.name[k.x := ""]
  }

  lemma CreateShown(r: Reg, r': Reg, s: Sched, k: Taken, name: string)
    requires ThreadsShown(r, s) && FreshThread(r, k) && Linking(r, r', k, name)
    ensures ThreadsShown(r', s.(plan := s.plan[name := []]))
  {
    assert NameIndex(r.threads.live, r.threads.name, name) == |r.threads.live|;
    forall t | t in r.threads.live ensures r'.ThreadName(t) == r.ThreadName(t) != name && PlanOf(r', t) == PlanOf(r, t) {
      var i :| 0 <= i < |r.threads.live| && r.threads.live[i] == t;
    }
    CreateCovers(r, r', s, k, name);
  }

  lemma CreateCovers(r: Reg, r': Reg, s: Sched, k: Taken, name: string)
    requires ThreadsShown(r, s) && r'.threads.live == [k.x] + r.threads.live
    requires forall t | t in r.threads.live :: r'.ThreadName(t) == r.ThreadName(t)
    requires r'.ThreadName(k.x) == name
    ensures Covers(r'.threads.live, r'.threads.name, s.plan[name := []].Keys)
  {
    forall t | t in r.threads.live ensures Get(r'.threads.name, t, "") == Get(r.threads.name, t, "") {
      assert r'.ThreadName(t) == r.ThreadName(t);
    }
    CoversMore(r.threads.live, r.threads.name, s.plan.Keys, r'.threads.live, r'.threads.name);
    CoversOneMore(r'.threads.live, r'.threads.name, s.plan.Keys, k.x);
    assert s.plan[name := []].Keys == s.plan.Keys + {r'.ThreadName(k.x)};
  }

  lemma RollBackShown(r: Reg, r': Reg, s: Sched, k: Taken)
    requires ThreadsShown(r, s) && FreshThread(r, k) && RollingBack(r, r', k)
    ensures ThreadsShown(r', s)
  {
    assert r.w.rings[k.x := []] - {k.x} == r.w.rings;
    assert r'.w == r.w;
    forall t | t in r.threads.live ensures r'.ThreadName(t) == r.ThreadName(t) && PlanOf(r', t) == PlanOf(r, t) {}
    CoversMore(r.threads.live, r.threads.name, s.plan.Keys, r'.threads.live, r'.threads.name) by {
      forall t | t in r.threads.live ensures Get(r'.threads.name, t, "") == Get(r.threads.name, t, "") {
        assert r'.ThreadName(t) == r.ThreadName(t);
      }
    }
  }

  lemma ShowsLinked(r: Reg, r': Reg, s: Sched, k: Taken, name: string)
    requires Shows(r, s) && FreshThread(r, k) && Linking(r, r', k, name)
    ensures Shows(r', s.(plan := s.plan[name := []], spec := s.spec[name := r'.T(k.x)]))
  {
    CreateShown(r, r', s, k, name);
    OwnersSame(r, r', s, s.plan[name := []]);
    SpecAdded(r, r', s, k, name);
  }

  lemma SpecAdded(r: Reg, r': Reg, s: Sched, k: Taken, name: string)
    requires SpecsShown(r, s) && FreshThread(r, k) && Linking(r, r', k, name)
    ensures SpecsShown(r', s.(plan := s.plan[name := []], spec := s.spec[name := r'.T(k.x)]))
  {
    assert NameIndex(r.threads.live, r.threads.name, name) == |r.threads.live|;
    forall t | t in r.threads.live ensures r'.ThreadName(t) == r.ThreadName(t) != name && r'.T(t) == r.T(t) {
      var i :| 0 <= i < |r.threads.live| && r.threads.live[i] == t;
    }
  }

  lemma SpecsRolledBack(r: Reg, r': Reg, s: Sched, k: Taken)
    requires SpecsShown(r, s) && FreshThread(r, k) && RollingBack(r, r', k)
    ensures SpecsShown(r', s)
  {
    forall t | t in r.threads.live ensures r'.ThreadName(t) == r.ThreadName(t) && r'.T(t) == r.T(t) {}
    SpecsSame(r, r', s);
  }

  lemma ShowsRolledBack(r: Reg, r': Reg, s: Sched, k: Taken)
    requires Shows(r, s) && FreshThread(r, k) && RollingBack(r, r', k)
    ensures Shows(r', s)
  {
    RollBackShown(r, r', s, k);
    SpecsRolledBack(r, r', s, k);
    OwnersSame(r, r', s, s.plan);
  }

  lemma ShowsCreate(r: Reg, s: Sched, name: string, period: ULong, fp: bool, priority: int, newOk: bool, startOk: bool)
    requires ThreadParts(r) && Shows(r, s)
    ensures var o := CreateThread(r, name, period, fp, priority, newOk, startOk);
      Shows(o.reg, if o.status == Ok then Replay(s, OpCreate(name, period, fp, priority, newOk, startOk)) else s)
  {
    var o := CreateThread(r, name, period, fp, priority, newOk, startOk);
    var k := Take(r.threads, r.gap, r.sizes.thread);
    CreateCases(r, name, period, fp, priority, newOk, startOk);
    if o.status == Ok {
      ShowsNewThread(r, o.reg, s, k, name, Thread(fp, ToLong(period), priority));
    } else if o.reg != r {
      TakeThread(r, k);
      ShowsRolledBack(r, o.reg, s, k);
    }
  }

  lemma ShowsNewThread(r: Reg, r': Reg, s: Sched, k: Taken, name: string, spec: Thread)
    requires ThreadParts(r) && Shows(r, s) && k == Take(r.threads, r.gap, r.sizes.thread) && k.x != 0
    requires Linking(r, r', k, name) && r'.T(k.x) == spec
    ensures Shows(r', s.(plan := s.plan[name := []], spec := s.spec[name := spec]))
  {
    TakeThread(r, k);
    ShowsLinked(r, r', s, k, name);
  }

  // Adding and removing.

  /** One ring changes, all else stays. */
  lemma OnePlanChanged(r: Reg, r': Reg, s: Sched, t: Off, plan: seq<string>)
    requires Shows(r, s) && ThreadNamesUnique(r) && t in r.threads.live && r'.state == r.state
    requires r'.threads == r.threads && r'.threadMem == r.threadMem && PlanOf(r', t) == plan
    requires forall u | u in r.threads.live && u != t :: PlanOf(r', u) == PlanOf(r, u)
    requires r'.functs == r.functs && r'.comps == r.comps && r'.compMem == r.compMem
    requires forall f | f in r.functs.live :: r'.w.F(f) == r.w.F(f).(users := r'.w.F(f).users)
    ensures Shows(r', s.(plan := s.plan[r.ThreadName(t) := plan]))
  {
    var s' := s.(plan := s.plan[r.ThreadName(t) := plan]);
    forall u | u in r'.threads.live ensures r'.ThreadName(u) in s'.plan && s'.plan[r'.ThreadName(u)] == PlanOf(r', u) {
      assert r'.ThreadName(u) == r.ThreadName(u);
    }
    CoversOneMore(r.threads.live, r.threads.name, s.plan.Keys, t);
    assert s'.plan.Keys == s.plan.Keys + {r.ThreadName(t)};
    OwnersSame(r, r', s, s'.plan);
    SpecsSame(r, r', s);
  }

  lemma AddPlans(r: Reg, r1: Reg, s: Sched, e: Off, f: Off, t: Off, i: nat)
    requires EntryTaken(r, r1, e) && f in r.functs.live && t in r.threads.live && i <= |r.w.RingOf(t)|
    requires RingsBase(r.w, r.threads, r.gap.top) && LinksOk(r.w, r.threads.live, r.threadMem, Live(r.functs))
    ensures var r' := r1.(w := PlaceEntry(r1.w, e, f, t, i)); var p := PlanOf(r, t);
      && i <= |p| == |r.w.RingOf(t)|
      && PlanOf(r', t) == p[..i] + [r.FunctName(f)] + p[i..]
      && forall u | u in r.threads.live && u != t :: PlanOf(r', u) == PlanOf(r, u)
  {
    var r' := r1.(w := PlaceEntry(r1.w, e, f, t, i));
    var ring := r.w.RingOf(t);
    AddRings(r, r1, e, f, t, i);
    EntryNamesAt(ring, r.w.entryMem, r.functs.name);
    EntryNamesInserted(ring, i, e, r'.w.entryMem, r.functs.name);
    EntryNamesFrame(ring, r.w.entryMem, r'.w.entryMem, r.functs.name, r.functs.name);
    forall u | u in r.threads.live && u != t ensures PlanOf(r', u) == PlanOf(r, u) {
      PlanSame(r, r', u);
    }
  }

  /** Taking or dropping a use changes nothing else in a function struct. */
  lemma UsesOnly(w: Wiring, e: Off, g: Off, t: Off, i: nat)
    requires i <= |w.RingOf(t)|
    ensures forall f :: PlaceEntry(w, e, g, t, i).F(f) == w.F(f).(users := PlaceEntry(w, e, g, t, i).F(f).users)
    ensures i < |w.RingOf(t)| ==>
      forall f :: FreeEntry(Unlink(w, t, i), e).F(f) == w.F(f).(users := FreeEntry(Unlink(w, t, i), e).F(f).users)
  {
  }

  /** The parts of the invariant that plans rest on. */
  ghost predicate PlanParts(r: Reg) {
    && ThreadNamesUnique(r) && NamesSorted(r.functs) && RingsBase(r.w, r.threads, r.gap.top)
    && LinksOk(r.w, r.threads.live, r.threadMem, Live(r.functs))
  }

  lemma AddShown(r: Reg, r1: Reg, s: Sched, e: Off, f: Off, t: Off, place: Place)
    requires EntryTaken(r, r1, e) && f in r.functs.live && t in r.threads.live
    requires place.Before? && place.index <= |r.w.RingOf(t)|
    requires PlanParts(r) && Shows(r, s)
    ensures var n := r.ThreadName(t);
      && n in s.plan && |s.plan[n]| == |r.w.RingOf(t)|
      && Shows(r1.(w := PlaceEntry(r1.w, e, f, t, place.index)), s.(plan := s.plan[n := Inserted(s.plan[n], place.index, r.FunctName(f))]))
  {
    var r' := r1.(w := PlaceEntry(r1.w, e, f, t, place.index));
    AddPlans(r, r1, s, e, f, t, place.index);
    UsesOnly(r1.w, e, f, t, place.index);
    var plan := Inserted(s.plan[r.ThreadName(t)], place.index, r.FunctName(f));
    OnePlanChanged(r, r', s, t, plan);
  }

  lemma ShowsAdd(r: Reg, s: Sched, fname: string, tname: string, position: int)
    requires Inv(r) && Shows(r, s) && Enabled(r, OpAdd(fname, tname, position))
    ensures var o := AddFunct(r, fname, tname, position);
      Shows(o.reg, if o.status == Ok then Replay(s, OpAdd(fname, tname, position)) else s)
  {
    var f, t := FunctNamed(r, fname), ThreadNamed(r, tname);
    if !Locked(r.lock, HAL_LOCK_CONFIG) && AddAccepted(r, f, t, position) {
      FoundName(r.functs.live, r.functs.name, fname);
      FoundName(r.threads.live, r.threads.name, tname);
      TakeEntryEffect(r);
      AddShown(r, TakeEntry(r), s, TakenEntry(r), f, t, PlaceFor(|r.w.RingOf(t)|, position));
    }
  }

  /** The first entry that runs `f` is the first place of its name in the plan. */
  lemma FirstUseIsFirstOf(r: Reg, t: Off, f: Off)
    requires NamesSorted(r.functs) && LinksOk(r.w, r.threads.live, r.threadMem, Live(r.functs))
    requires f in r.functs.live && t in r.threads.live
    ensures |PlanOf(r, t)| == |r.w.RingOf(t)|
    ensures FirstOf(PlanOf(r, t), r.FunctName(f)) == FirstUse(r.w, t, f, 0)
  {
    var ring, p := r.w.RingOf(t), PlanOf(r, t);
    EntryNamesAt(ring, r.w.entryMem, r.functs.name);
    forall k | 0 <= k < |ring| ensures p[k] == r.FunctName(f) <==> r.w.E(ring[k]).funct == f {
      assert EntryOk(r.w, Get(r.threadMem, t, NO_THREAD), ring[k], Live(r.functs));
      if r.w.E(ring[k]).funct != f { NamesDiffer(r.functs, f, r.w.E(ring[k]).funct); }
    }
  }

  lemma DelPlans(r: Reg, s: Sched, t: Off, j: nat)
    requires RingShape(r.w) && t in r.w.rings && t in r.threads.live && j < |r.w.rings[t]|
    requires LinksOk(r.w, r.threads.live, r.threadMem, Live(r.functs)) && forall u | u in r.threads.live :: u in r.w.rings
    ensures var r' := r.(w := FreeEntry(Unlink(r.w, t, j), r.w.rings[t][j])); var p := PlanOf(r, t);
      && j < |p|
      && PlanOf(r', t) == p[..j] + p[j + 1..]
      && forall u | u in r.threads.live && u != t :: PlanOf(r', u) == PlanOf(r, u)
  {
    var r' := r.(w := FreeEntry(Unlink(r.w, t, j), r.w.rings[t][j]));
    var ring := r.w.rings[t];
    FreeOne(r.w, t, j);
    DistinctWithout(ring, j);
    EntryNamesWithout(ring, j, r.w.entryMem, r.functs.name);
    EntryNamesFrame(Without(ring, j), r.w.entryMem, r'.w.entryMem, r.functs.name, r.functs.name);
    forall u | u in r.threads.live && u != t ensures PlanOf(r', u) == PlanOf(r, u) {
      PlanSame(r, r', u);
    }
  }

  lemma DelShown(r: Reg, s: Sched, f: Off, t: Off, j: nat)
    requires PlanParts(r) && Shows(r, s)
    requires f in r.functs.live && t in r.threads.live && j == FirstUse(r.w, t, f, 0) < |r.w.RingOf(t)|
    ensures var n := r.ThreadName(t);
      && n in s.plan
      && Shows(r.(w := FreeEntry(Unlink(r.w, t, j), r.w.RingOf(t)[j])),
               s.(plan := s.plan[n := RemoveFirst(s.plan[n], r.FunctName(f))]))
  {
    var r' := r.(w := FreeEntry(Unlink(r.w, t, j), r.w.RingOf(t)[j]));
    FirstUseIsFirstOf(r, t, f);
    DelPlans(r, s, t, j);
    UsesOnly(r.w, r.w.RingOf(t)[j], f, t, j);
    var plan := RemoveFirst(s.plan[r.ThreadName(t)], r.FunctName(f));
    OnePlanChanged(r, r', s, t, plan);
  }

  lemma DelAccepted(r: Reg, fname: string, tname: string)
    requires DelFunct(r, fname, tname).status == Ok
    ensures var f, t := FunctNamed(r, fname), ThreadNamed(r, tname); var j := FirstUse(r.w, t, f, 0);
      && f in r.functs.live && r.FunctName(f) == fname && t in r.threads.live && r.ThreadName(t) == tname
      && j < |r.w.RingOf(t)|
      && DelFunct(r, fname, tname).reg == r.(w := FreeEntry(Unlink(r.w, t, j), r.w.RingOf(t)[j]))
  {
    FoundName(r.functs.live, r.functs.name, fname);
    FoundName(r.threads.live, r.threads.name, tname);
  }

  lemma DelReplayed(r: Reg, s: Sched, fname: string, tname: string)
    requires tname in s.plan && Shows(r, s.(plan := s.plan[tname := RemoveFirst(s.plan[tname], fname)]))
    ensures Shows(r, Replay(s, OpDel(fname, tname)))
  {
    assert Replay(s, OpDel(fname, tname)) == s.(plan := s.plan[tname := RemoveFirst(s.plan[tname], fname)]);
  }

  lemma ShowsDel(r: Reg, s: Sched, fname: string, tname: string)
    requires PlanParts(r) && Shows(r, s)
    ensures var o := DelFunct(r, fname, tname); Shows(o.reg, if o.status == Ok then Replay(s, OpDel(fname, tname)) else s)
  {
    var o := DelFunct(r, fname, tname);
    if o.status == Ok {
      DelAccepted(r, fname, tname);
      var f, t := FunctNamed(r, fname), ThreadNamed(r, tname);
      DelShown(r, s, f, t, FirstUse(r.w, t, f, 0));
      DelReplayed(o.reg, s, fname, tname);
    } else {
      DelRejected(r, fname, tname);
    }
  }

  lemma DelRejected(r: Reg, fname: string, tname: string)
    requires DelFunct(r, fname, tname).status != Ok
    ensures DelFunct(r, fname, tname).reg == r
  {
  }

  // The rest.

  lemma {:induction false} FreeThreadsOwners(r: Reg, f: Off)
    requires Inv(r) && f in r.functs.live
    ensures var r' := FreeThreads(r);
      && r'.functs == r.functs && r'.comps == r.comps && r'.compMem == r.compMem && r'.state == r.state
      && r'.w.F(f) == r.w.F(f).(users := r'.w.F(f).users)
    decreases |r.threads.live|
  {
    if r.threads.live != [] {
      DropThreadInv(r);
      DropThreadMoves(r);
      FreeThreadsOwners(DropThread(r), f);
    }
  }

  lemma ShowsAppExit(r: Reg, s: Sched)
    requires Inv(r) && Shows(r, s)
    ensures Shows(AppExit(r).reg, s.(plan := map[], spec := map[]))
  {
    var r0 := r.(state := ShuttingDown);
    FreeThreadsFrame(r0);
    FreeThreadsKeepsInv(r0);
    forall f | f in r.functs.live ensures AppExit(r).reg.w.F(f) == r.w.F(f).(users := AppExit(r).reg.w.F(f).users) {
      FreeThreadsOwners(r0, f);
    }
    OwnersSame(r, AppExit(r).reg, s, map[]);
  }

  /** An operation that changes neither functions nor threads nor the ids of registered components. */
  lemma ShowsSame(r: Reg, r': Reg, s: Sched)
    requires Shows(r, s) && Linked(r) && Owned(r) && r'.state != Destroyed
    requires r'.functs == r.functs && r'.w == r.w && r'.threads == r.threads && r'.threadMem == r.threadMem
    requires forall c | c in r.comps.live :: r'.C(c).id == r.C(c).id
    ensures Shows(r', s)
  {
    PlansSame(r, r', s);
    forall f | f in r.functs.live ensures r'.FunctName(f) == r.FunctName(f) && ListingOf(r', f) == ListingOf(r, f) {}
  }

  lemma InitKeepsIds(r: Reg, name: string, id: int)
    requires GapOk(r) && PoolOk(r.comps, r.gap)
    ensures forall c | c in r.comps.live :: HalInit(r, name, id).reg.C(c).id == r.C(c).id
  {
    TakeFresh(r.comps, r.gap, r.sizes.comp);
  }

  lemma ShowsInit(r: Reg, s: Sched, name: string, id: int)
    requires Inv(r) && Shows(r, s)
    ensures Shows(HalInit(r, name, id).reg, s)
  {
    InitKeepsIds(r, name, id);
    ShowsSame(r, HalInit(r, name, id).reg, s);
  }

  /** Parameters, pins, readiness, memory, locks and the run state show the same schedule. */
  lemma ShowsOther(r: Reg, s: Sched, op: Op)
    requires Linked(r) && Owned(r) && Shows(r, s)
    requires op.OpReady? || op.OpParam? || op.OpPin? || op.OpStart? || op.OpStop? || op.OpMalloc? || op.OpLock?
    ensures Shows(Step(r, op).reg, s)
  {
    OtherFrame(r, op);
    ShowsSame(r, Step(r, op).reg, s);
  }

  lemma OtherFrame(r: Reg, op: Op)
    requires r.state != Destroyed
    requires op.OpReady? || op.OpParam? || op.OpPin? || op.OpStart? || op.OpStop? || op.OpMalloc? || op.OpLock?
    ensures var r' := Step(r, op).reg;
      && r'.functs == r.functs && r'.w == r.w && r'.threads == r.threads && r'.threadMem == r.threadMem && r'.state != Destroyed
      && forall c :: r'.C(c).id == r.C(c).id
  {
    if op.OpReady? { ReadyFrame(r, op.id, op.ready); } else { UnreadyFrame(r, op); }
  }

  lemma ReadyFrame(r: Reg, id: int, ready: bool)
    ensures var r' := HalSetReady(r, id, ready).reg;
      r' == r.(compMem := r'.compMem) && forall c :: r'.C(c).id == r.C(c).id
  {
  }

  lemma UnreadyFrame(r: Reg, op: Op)
    requires r.state != Destroyed
    requires op.OpParam? || op.OpPin? || op.OpStart? || op.OpStop? || op.OpMalloc? || op.OpLock?
    ensures var r' := Step(r, op).reg;
      && r'.functs == r.functs && r'.w == r.w && r'.threads == r.threads && r'.threadMem == r.threadMem
      && r'.state != Destroyed && r'.compMem == r.compMem
  {
    if op.OpParam? || op.OpPin? {
      RegisterFrame(r, op);
    } else if !op.OpMalloc? {
      FlagsOnly(r, op);
    }
  }

  lemma RegisterFrame(r: Reg, op: Op)
    requires op.OpParam? || op.OpPin?
    ensures var r' := Step(r, op).reg;
      r' == r.(params := r'.params, pins := r'.pins, gap := r'.gap, paramOwner := r'.paramOwner, pinOwner := r'.pinOwner)
  {
  }

  lemma StepShows(r: Reg, s: Sched, op: Op)
    requires Inv(r) && Shows(r, s) && Enabled(r, op)
    ensures var o := Step(r, op); Shows(o.reg, if o.status == Ok then Replay(s, op) else s)
  {
    match op
    case OpExit(id) => ShowsExit(r, s, id);
    case OpExport(name, code, fp, reentrant, id) => ShowsExport(r, s, name, code, fp, reentrant, id);
    case OpCreate(name, period, fp, priority, newOk, startOk) =>
      ShowsCreate(r, s, name, period, fp, priority, newOk, startOk);
    case OpAdd(fname, tname, position) => ShowsAdd(r, s, fname, tname, position);
    case OpDel(fname, tname) => ShowsDel(r, s, fname, tname);
    case OpAppExit => ShowsAppExit(r, s);
    case OpInit(name, id) => ShowsInit(r, s, name, id);
    case _ => ShowsOther(r, s, op);
  }

  /** The registry shows the replay of its whole history. */
  lemma {:induction false} RunShows(r: Reg, s: Sched, ops: seq<Op>)
    requires Inv(r) && Shows(r, s) && EnabledRun(r, ops)
    ensures Shows(Run(r, ops), ReplayAll(s, r, ops))
    decreases |ops|
  {
    if ops != [] {
      StepKeepsInv(r, ops[0]);
      StepShows(r, s, ops[0]);
      var o := Step(r, ops[0]);
      RunShows(o.reg, if o.status == Ok then Replay(s, ops[0]) else s, ops[1..]);
    }
  }

  // ---------------------------------------------------------------------------------------------
  // One pass of thread_task.

  /** One call of a pass: the function with its argument, and the period it is told. */
  datatype Invocation = Invocation(code: Code, period: int)

  /** The calls of one pass over a ring, in order. */
  function Calls(w: Wiring, s: seq<Off>, period: int): seq<Invocation> {
    seq(|s|, i requires 0 <= i < |s| => Invocation(w.E(s[i]).code, period))
  }

  lemma PassFollowsPlan(r: Reg, s: Sched, t: Off)
    requires NamesSorted(r.functs) && LinksOk(r.w, r.threads.live, r.threadMem, Live(r.functs)) && Shows(r, s)
    requires t in r.threads.live
    ensures r.ThreadName(t) in s.plan && r.ThreadName(t) in s.spec
    ensures var plan, calls := s.plan[r.ThreadName(t)], Calls(r.w, r.w.RingOf(t), r.T(t).period);
      |calls| == |plan| && forall i | 0 <= i < |plan| :: plan[i] in s.listed && calls[i] == Invocation(s.listed[plan[i]].code, s.spec[r.ThreadName(t)].period)
  {
    var ring := r.w.RingOf(t);
    EntryNamesAt(ring, r.w.entryMem, r.functs.name);
    forall i | 0 <= i < |ring|
      ensures PlanOf(r, t)[i] in s.listed && r.w.E(ring[i]).code == s.listed[PlanOf(r, t)[i]].code
    {
      var f := r.w.E(ring[i]).funct;
      assert EntryOk(r.w, Get(r.threadMem, t, NO_THREAD), ring[i], Live(r.functs));
      assert f in r.functs.live && ListingOf(r, f).code == r.w.F(f).code;
    }
  }

  /**
   After any history from the initialised segment, one pass over a thread calls, one for one and in
   order, what the functions named by the replayed plan were exported with, and tells each the period
   the thread was created with.
   */
  lemma PassFollowsHistory(sizes: Sizes, ops: seq<Op>, t: Off)
    requires sizes.Valid() && sizes.header <= HAL_SIZE && EnabledRun(Init(sizes), ops)
    requires t in Run(Init(sizes), ops).threads.live
    ensures var r := Run(Init(sizes), ops); var s := ReplayAll(Sched(map[], map[], map[]), Init(sizes), ops);
      && r.ThreadName(t) in s.plan && r.ThreadName(t) in s.spec
      && var plan, calls := s.plan[r.ThreadName(t)], Calls(r.w, r.w.RingOf(t), r.T(t).period);
         |calls| == |plan| && forall i | 0 <= i < |plan| :: plan[i] in s.listed && calls[i] == Invocation(s.listed[plan[i]].code, s.spec[r.ThreadName(t)].period)
  {
    InitInv(sizes);
    ReachableInv(Init(sizes), ops);
    RunShows(Init(sizes), Sched(map[], map[], map[]), ops);
    PassFollowsPlan(Run(Init(sizes), ops), ReplayAll(Sched(map[], map[], map[]), Init(sizes), ops), t);
  }
}
