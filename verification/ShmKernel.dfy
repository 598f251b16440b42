/**
 One System V segment shared by many processes.

 The kernel keeps segments by id and a table from keys to ids.  A process opens a key with shmget and
 shmat as two steps, and deletes its last reference with shmdt as one step and the attach-count check
 with IPC_RMID as another; everything else may happen in between.
 */
module ShmKernel {

  /** `counter` is a word inside the segment: the module id counter of `rtapi_init`. */
  datatype Segment = Segment(key: int, nattch: int, counter: nat)

  /** A process's handle on a key. */
  datatype Name = Name(pid: nat, key: int)

  datatype Phase = Closed | Got(id: nat) | Mapped(id: nat, count: nat) | Detached(id: nat)

  /** A module id handed out: from which key and segment, and its value. */
  datatype Issue = Issue(key: int, id: nat, value: nat)

  datatype World = World(
    segs: map<nat, Segment>, keys: map<int, nat>, nextId: nat,
    handles: map<Name, Phase>, issued: seq<Issue>)
  {
    function At(h: Name): Phase { if h in handles then handles[h] else Closed }
    function Put(h: Name, p: Phase): World { this.(handles := handles[h := p]) }
  }

  datatype Event =
    | Open(h: Name)            // rtapi_shmem_new up to shmget
    | Attach(h: Name)          // shmat; it fails on a segment that is gone
    | AttachRefused(h: Name)   // shmat fails for another reason
    | Delete(h: Name)          // rtapi_shmem_delete up to shmdt
    | Reap(h: Name)            // IPC_STAT, and IPC_RMID when nobody is attached
    | TakeId(h: Name)          // the locked increment of rtapi_init

  /** IPC_RMID: the key is free at once, the segment goes when nobody is attached. */
  function Remove(w: World, id: nat): World {
    if id !in w.segs then w
    else
      var s := w.segs[id];
      w.(keys := if s.key in w.keys && w.keys[s.key] == id then w.keys - {s.key} else w.keys,
         segs := if s.nattch == 0 then w.segs - {id} else w.segs)
  }

  predicate Marked(w: World, id: nat)
    requires id in w.segs
  {
    !(w.segs[id].key in w.keys && w.keys[w.segs[id].key] == id)
  }

  /** shmdt, with the deferred removal. */
  function Detach(w: World, id: nat): World {
    if id !in w.segs then w
    else
      var s := w.segs[id];
      if s.nattch == 1 && Marked(w, id) then w.(segs := w.segs - {id})
      else w.(segs := w.segs[id := s.(nattch := s.nattch - 1)])
  }

  function Next(w: World, e: Event): World {
    match e
    case Open(h) =>
      (match w.At(h)
       case Closed =>
         if h.key in w.keys then w.Put(h, Got(w.keys[h.key]))
         else
           w.Put(h, Got(w.nextId)).(
             segs := w.segs[w.nextId := Segment(h.key, 0, 0)], keys := w.keys[h.key := w.nextId], nextId := w.nextId + 1)
       case Mapped(id, count) => w.Put(h, Mapped(id, count + 1))
       case _ => w)
    case Attach(h) =>
      (match w.At(h)
       case Got(id) =>
         if id in w.segs then
           w.Put(h, Mapped(id, 1)).(segs := w.segs[id := w.segs[id].(nattch := w.segs[id].nattch + 1)])
         else w.Put(h, Closed)
       case _ => w)
    case AttachRefused(h) => if w.At(h).Got? then Remove(w, w.At(h).id).Put(h, Closed) else w
    case Delete(h) =>
      (match w.At(h)
       case Mapped(id, count) => if count > 1 then w.Put(h, Mapped(id, count - 1)) else Detach(w, id).Put(h, Detached(id))
       case _ => w)
    case Reap(h) =>
      (match w.At(h)
       case Detached(id) =>
         var w1 := if id in w.segs && w.segs[id].nattch == 0 then Remove(w, id) else w;
         w1.Put(h, Closed)
       case _ => w)
    case TakeId(h) =>
      (match w.At(h)
       case Mapped(id, _) =>
         if id in w.segs then
           var n := w.segs[id].counter + 1;
           w.(segs := w.segs[id := w.segs[id].(counter := n)], issued := w.issued + [Issue(h.key, id, n)])
         else w
       case _ => w)
  }

  function Init(): World {
    World(map[], map[], 0, map[], [])
  }

  function Run(w: World, es: seq<Event>): World
    decreases |es|
  {
    if es == [] then w else Run(Next(w, es[0]), es[1..])
  }

  /** A refused shmat finds its segment gone, or mapped by nobody. */
  ghost predicate Harmless(w: World, h: Name) {
    w.At(h).Got? && w.At(h).id in w.segs ==> w.segs[w.At(h).id].nattch == 0
  }

  /** No step of the run is a harmful refusal on this key; what happens to other keys does not matter. */
  ghost predicate BenignRun(w: World, es: seq<Event>, key: int)
    decreases |es|
  {
    es != [] ==> Benign(w, es[0], key) && BenignRun(Next(w, es[0]), es[1..], key)
  }

  ghost predicate Benign(w: World, e: Event, key: int) {
    e.AttachRefused? && e.h.key == key ==> Harmless(w, e.h)
  }

  // ---------------------------------------------------------------------------------------------
  // The invariant.

  ghost function Mappers(handles: map<Name, Phase>, id: nat): set<Name> {
    set h | h in handles && handles[h].Mapped? && handles[h].id == id
  }

  ghost predicate PhaseOk(w: World, h: Name) {
    match w.At(h)
    case Closed => true
    case Got(id) => id < w.nextId && (id in w.segs ==> w.segs[id].key == h.key)
    case Mapped(id, count) => id < w.nextId && count >= 1 && id in w.segs && w.segs[id].key == h.key
    case Detached(id) => id < w.nextId && (id in w.segs ==> w.segs[id].key == h.key)
  }

  ghost predicate SegmentOk(w: World, id: nat)
    requires id in w.segs
  {
    id < w.nextId && w.segs[id].nattch == |Mappers(w.handles, id)|
  }

  ghost predicate IssueOk(w: World, i: Issue) {
    i.id < w.nextId && (i.id in w.segs ==> i.value <= w.segs[i.id].counter)
  }

  ghost predicate Increasing(issued: seq<Issue>) {
    forall i, j | 0 <= i < j < |issued| :: issued[i].id == issued[j].id ==> issued[i].value < issued[j].value
  }

  /** What every run keeps, whatever shmat does. */
  ghost predicate Inv(w: World) {
    && (forall id | id in w.segs :: SegmentOk(w, id))
    && (forall k | k in w.keys :: w.keys[k] in w.segs && w.segs[w.keys[k]].key == k)
    && (forall h :: PhaseOk(w, h))
    && (forall i | i in w.issued :: IssueOk(w, i))
    && Increasing(w.issued)
  }

  /** The segments with this key: the one the key table names, and no other. */
  ghost predicate Owned(w: World, key: int) {
    forall id | id in w.segs && w.segs[id].key == key :: key in w.keys && w.keys[key] == id
  }

  lemma InitInv()
    ensures Inv(Init()) && forall key :: Owned(Init(), key)
  {
  }

  lemma MappersPut(handles: map<Name, Phase>, h: Name, p: Phase, id: nat)
    ensures var before, after := Mappers(handles, id), Mappers(handles[h := p], id);
      && after == (if p.Mapped? && p.id == id then before + {h} else before - {h})
      && |after| == |before| + (if p.Mapped? && p.id == id then 1 else 0) - (if h in before then 1 else 0)
  {
    var before, after := Mappers(handles, id), Mappers(handles[h := p], id);
    var now := p.Mapped? && p.id == id;
    forall x ensures x in after <==> if x == h then now else x in before {}
    SizeWithout(before, h);
    SizeWithout(after, h);
    assert after - {h} == before - {h};
  }

  lemma SizeWithout(s: set<Name>, h: Name)
    ensures |s| == |s - {h}| + if h in s then 1 else 0
  {
    if h in s {
      assert s == (s - {h}) + {h};
    } else {
      assert s == s - {h};
    }
  }

  /** A handle moves between phases that are not Mapped. */
  lemma UnmappedMove(w: World, h: Name, p: Phase)
    requires Inv(w) && !w.At(h).Mapped? && !p.Mapped? && PhaseOk(w.Put(h, p), h)
    ensures Inv(w.Put(h, p))
  {
    var w' := w.Put(h, p);
    forall id | id in w.segs ensures SegmentOk(w', id) {
      assert SegmentOk(w, id);
      MappersPut(w.handles, h, p, id);
    }
    forall x ensures PhaseOk(w', x) {
      assert PhaseOk(w, x);
    }
  }

  lemma CreateKeepsInv(w: World, h: Name)
    requires Inv(w) && w.At(h).Closed? && h.key !in w.keys
    ensures Inv(Next(w, Open(h)))
  {
    var w1 := w.(segs := w.segs[w.nextId := Segment(h.key, 0, 0)], keys := w.keys[h.key := w.nextId], nextId := w.nextId + 1);
    NewSegmentKeepsInv(w, h.key);
    UnmappedMove(w1, h, Got(w.nextId));
    assert Next(w, Open(h)) == w1.Put(h, Got(w.nextId));
  }

  lemma NewSegmentKeepsInv(w: World, key: int)
    requires Inv(w) && key !in w.keys
    ensures Inv(w.(segs := w.segs[w.nextId := Segment(key, 0, 0)], keys := w.keys[key := w.nextId], nextId := w.nextId + 1))
  {
    var w' := w.(segs := w.segs[w.nextId := Segment(key, 0, 0)], keys := w.keys[key := w.nextId], nextId := w.nextId + 1);
    forall id | id in w.segs ensures id < w.nextId {
      assert SegmentOk(w, id);
    }
    forall h ensures PhaseOk(w', h) {
      assert PhaseOk(w, h) && w'.At(h) == w.At(h);
    }
    forall h | h in w.handles && w.handles[h].Mapped? ensures w.handles[h].id < w.nextId {
      assert PhaseOk(w, h);
    }
    assert Mappers(w.handles, w.nextId) == {};
    forall id | id in w'.segs ensures SegmentOk(w', id) {
      if id != w.nextId { assert SegmentOk(w, id); }
    }
    forall i | i in w'.issued ensures IssueOk(w', i) {
      assert IssueOk(w, i);
    }
  }

  lemma CountedSegment(w: World, h: Name, p: Phase, id: nat, y: nat)
    requires (w.At(h).Mapped? ==> w.At(h).id == id) && (p.Mapped? ==> p.id == id)
    ensures var before, after := Mappers(w.handles, y), Mappers(w.handles[h := p], y);
      |after| == |before| + if y != id then 0 else (if p.Mapped? then 1 else 0) - (if w.At(h).Mapped? then 1 else 0)
  {
    MappersPut(w.handles, h, p, y);
  }

  /** The attach count and the mapping handles move together. */
  lemma CountedMove(w: World, h: Name, p: Phase, id: nat, n: int)
    requires Inv(w) && id in w.segs && w.segs[id].key == h.key
    requires (w.At(h).Mapped? ==> w.At(h).id == id) && (p.Mapped? ==> p.id == id && p.count >= 1) && (!p.Closed? ==> p.id == id)
    requires n == w.segs[id].nattch + (if p.Mapped? then 1 else 0) - (if w.At(h).Mapped? then 1 else 0)
    ensures Inv(w.Put(h, p).(segs := w.segs[id := w.segs[id].(nattch := n)]))
  {
    var w' := w.Put(h, p).(segs := w.segs[id := w.segs[id].(nattch := n)]);
    assert SegmentOk(w, id);
    forall x ensures PhaseOk(w', x) {
      assert PhaseOk(w, x);
    }
    forall y | y in w'.segs ensures SegmentOk(w', y) {
      assert SegmentOk(w, y);
      CountedSegment(w, h, p, id, y);
    }
    forall i | i in w'.issued ensures IssueOk(w', i) {
      assert IssueOk(w, i);
    }
  }

  /** IPC_RMID: the segment stays while somebody maps it. */
  lemma RemoveKeepsInv(w: World, id: nat)
    requires Inv(w) && id in w.segs
    ensures Inv(Remove(w, id)) && (w.segs[id].nattch == 0 ==> Mappers(w.handles, id) == {})
  {
    var w' := Remove(w, id);
    assert SegmentOk(w, id);
    assert w.segs[id].nattch == 0 ==> Mappers(w.handles, id) == {};
    forall x ensures PhaseOk(w', x) {
      assert PhaseOk(w, x) && w'.At(x) == w.At(x);
      assert w.segs[id].nattch == 0 ==> x !in Mappers(w.handles, id);
    }
    forall y | y in w'.segs ensures SegmentOk(w', y) {
      assert SegmentOk(w, y);
    }
    forall i | i in w'.issued ensures IssueOk(w', i) {
      assert IssueOk(w, i);
    }
  }

  lemma ReapKeepsInv(w: World, h: Name)
    requires Inv(w)
    ensures Inv(Next(w, Reap(h)))
  {
    assert PhaseOk(w, h);
    if w.At(h).Detached? {
      var id := w.At(h).id;
      if id in w.segs && w.segs[id].nattch == 0 {
        RemoveKeepsInv(w, id);
        UnmappedMove(Remove(w, id), h, Closed);
      } else {
        UnmappedMove(w, h, Closed);
      }
    }
  }

  lemma RefusalKeepsInv(w: World, h: Name)
    requires Inv(w)
    ensures Inv(Next(w, AttachRefused(h)))
  {
    assert PhaseOk(w, h);
    if w.At(h).Got? {
      var id := w.At(h).id;
      if id in w.segs {
        RemoveKeepsInv(w, id);
      }
      UnmappedMove(Remove(w, id), h, Closed);
    }
  }

  lemma TakeIdKeepsInv(w: World, h: Name)
    requires Inv(w)
    ensures Inv(Next(w, TakeId(h)))
  {
    var w' := Next(w, TakeId(h));
    assert PhaseOk(w, h);
    if w.At(h).Mapped? {
      var id := w.At(h).id;
      forall x ensures PhaseOk(w', x) {
        assert PhaseOk(w, x) && w'.At(x) == w.At(x);
      }
      forall y | y in w'.segs ensures SegmentOk(w', y) {
        assert SegmentOk(w, y);
      }
      forall i | i in w'.issued ensures IssueOk(w', i) {
        if i in w.issued { assert IssueOk(w, i); }
      }
      forall i | 0 <= i < |w.issued| ensures w.issued[i].id == id ==> w.issued[i].value < w'.segs[id].counter {
        assert w.issued[i] in w.issued && IssueOk(w, w.issued[i]);
      }
    }
  }

  lemma OpenKeepsInv(w: World, h: Name)
    requires Inv(w)
    ensures Inv(Next(w, Open(h)))
  {
    assert PhaseOk(w, h);
    match w.At(h)
    case Closed =>
      if h.key in w.keys {
        assert SegmentOk(w, w.keys[h.key]);
        UnmappedMove(w, h, Got(w.keys[h.key]));
      } else {
        CreateKeepsInv(w, h);
      }
    case Mapped(id, count) =>
      CountedMove(w, h, Mapped(id, count + 1), id, w.segs[id].nattch);
      assert w.segs[id := w.segs[id].(nattch := w.segs[id].nattch)] == w.segs;
    case _ =>
  }

  lemma DeleteKeepsInv(w: World, h: Name)
    requires Inv(w)
    ensures Inv(Next(w, Delete(h)))
  {
    assert PhaseOk(w, h);
    if w.At(h).Mapped? {
      var id, count := w.At(h).id, w.At(h).count;
      assert SegmentOk(w, id);
      if count > 1 {
        CountedMove(w, h, Mapped(id, count - 1), id, w.segs[id].nattch);
        assert w.segs[id := w.segs[id].(nattch := w.segs[id].nattch)] == w.segs;
      } else {
        LastDetachKeepsInv(w, h);
      }
    }
  }

  /** shmdt of the last reference: the deferred removal happens when nobody else maps the segment. */
  lemma LastDetachKeepsInv(w: World, h: Name)
    requires Inv(w) && w.At(h).Mapped? && w.At(h).count == 1
    ensures Inv(Next(w, Delete(h)))
  {
    assert PhaseOk(w, h);
    var id := w.At(h).id;
    var n := w.segs[id].nattch - 1;
    var w1 := w.Put(h, Detached(id)).(segs := w.segs[id := w.segs[id].(nattch := n)]);
    CountedMove(w, h, Detached(id), id, n);
    if n == 0 && Marked(w, id) {
      RemoveKeepsInv(w1, id);
      assert w1.segs - {id} == w.segs - {id};
      assert Next(w, Delete(h)) == Remove(w1, id);
    }
  }

  /** Every step of every process keeps the invariant, harmful refusals included. */
  lemma NextKeepsInv(w: World, e: Event)
    requires Inv(w)
    ensures Inv(Next(w, e))
  {
    assert PhaseOk(w, e.h);
    match e
    case Open(h) => OpenKeepsInv(w, h);
    case Attach(h) =>
      if w.At(h).Got? {
        var id := w.At(h).id;
        if id in w.segs { CountedMove(w, h, Mapped(id, 1), id, w.segs[id].nattch + 1); } else { UnmappedMove(w, h, Closed); }
      }
    case AttachRefused(h) => RefusalKeepsInv(w, h);
    case Delete(h) => DeleteKeepsInv(w, h);
    case Reap(h) => ReapKeepsInv(w, h);
    case TakeId(h) => TakeIdKeepsInv(w, h);
  }

  lemma {:induction false} RunKeepsInv(w: World, es: seq<Event>)
    requires Inv(w)
    ensures Inv(Run(w, es))
    decreases |es|
  {
    if es != [] {
      NextKeepsInv(w, es[0]);
      RunKeepsInv(Next(w, es[0]), es[1..]);
    }
  }

  // ---------------------------------------------------------------------------------------------
  // What a key names.

  /** A new segment for the key finds no other. */
  lemma OpenKeepsOwned(w: World, h: Name, key: int)
    requires Inv(w) && Owned(w, key)
    ensures Owned(Next(w, Open(h)), key)
  {
    forall id | id in w.segs ensures id < w.nextId {
      assert SegmentOk(w, id);
    }
  }

  /** Removing the segment of a key leaves the key without one; removing another leaves the key alone. */
  lemma RemoveKeepsOwned(w: World, id: nat, key: int)
    requires Inv(w) && Owned(w, key) && id in w.segs && (w.segs[id].key == key ==> w.segs[id].nattch == 0)
    ensures Owned(Remove(w, id), key)
  {
  }

  lemma NextKeepsOwned(w: World, e: Event, key: int)
    requires Inv(w) && Owned(w, key) && Benign(w, e, key)
    ensures Owned(Next(w, e), key)
  {
    assert PhaseOk(w, e.h);
    match e
    case Open(h) => OpenKeepsOwned(w, h, key);
    case AttachRefused(h) =>
      if w.At(h).Got? && w.At(h).id in w.segs { RemoveKeepsOwned(w, w.At(h).id, key); }
    case Reap(h) =>
      if w.At(h).Detached? && w.At(h).id in w.segs && w.segs[w.At(h).id].nattch == 0 { RemoveKeepsOwned(w, w.At(h).id, key); }
    case _ =>
  }

  lemma {:induction false} RunKeepsOwned(w: World, es: seq<Event>, key: int)
    requires Inv(w) && Owned(w, key) && BenignRun(w, es, key)
    ensures Inv(Run(w, es)) && Owned(Run(w, es), key)
    decreases |es|
  {
    if es != [] {
      NextKeepsInv(w, es[0]);
      NextKeepsOwned(w, es[0], key);
      RunKeepsOwned(Next(w, es[0]), es[1..], key);
    }
  }

  /** Every run from an empty kernel, and every key that meets no harmful refusal on it. */
  lemma {:induction false} ReachableInv(es: seq<Event>)
    ensures Inv(Run(Init(), es))
    ensures forall key :: BenignRun(Init(), es, key) ==> Owned(Run(Init(), es), key)
  {
    InitInv();
    RunKeepsInv(Init(), es);
    forall key | BenignRun(Init(), es, key) ensures Owned(Run(Init(), es), key) {
      RunKeepsOwned(Init(), es, key);
    }
  }

  // ---------------------------------------------------------------------------------------------
  // What holds in every reachable state.

  /** The processes that map a segment. */
  ghost function Processes(w: World, id: nat): set<nat> {
    set h | h in Mappers(w.handles, id) :: h.pid
  }

  lemma {:induction false} SameSize(hs: set<Name>, ps: set<nat>)
    requires forall g, h | g in hs && h in hs && g.pid == h.pid :: g == h
    requires ps == set h | h in hs :: h.pid
    ensures |ps| == |hs|
    decreases |hs|
  {
    if hs == {} {
      assert ps == {};
    } else {
      var h :| h in hs;
      assert ps - {h.pid} == set g | g in hs - {h} :: g.pid;
      SameSize(hs - {h}, ps - {h.pid});
    }
  }

  /** The attach count is the number of processes that map the segment. */
  lemma AttachCountIsProcesses(w: World, id: nat)
    requires Inv(w) && id in w.segs
    ensures w.segs[id].nattch == |Processes(w, id)|
  {
    assert SegmentOk(w, id);
    forall g | g in Mappers(w.handles, id) ensures g.key == w.segs[id].key {
      assert PhaseOk(w, g);
    }
    SameSize(Mappers(w.handles, id), Processes(w, id));
  }

  /** In every state a mapped handle names an existing segment of its key. */
  lemma MappedSegmentExists(w: World, h: Name)
    requires Inv(w) && w.At(h).Mapped?
    ensures w.At(h).id in w.segs && w.segs[w.At(h).id].key == h.key
  {
    assert PhaseOk(w, h);
  }

  /** Handles of any two processes on one key name one segment, and it is there. */
  lemma OneSegmentPerKey(w: World, g: Name, h: Name)
    requires Inv(w) && Owned(w, h.key) && g.key == h.key && w.At(g).Mapped? && w.At(h).Mapped?
    ensures w.At(g).id == w.At(h).id && w.At(g).id in w.segs
  {
    MappedSegmentExists(w, g);
    MappedSegmentExists(w, h);
  }

  /**
   No step takes away a segment that somebody else maps: nobody maps it afterwards, and before at most
   the process whose shmdt the step is, on a segment whose key was taken away earlier.
   */
  lemma RemovedOnlyAtZero(w: World, e: Event, id: nat)
    requires Inv(w) && id in w.segs && id !in Next(w, e).segs
    ensures Processes(Next(w, e), id) == {}
    ensures Processes(w, id) == (if e.Delete? then {e.h.pid} else {}) && (e.Delete? ==> Marked(w, id))
    ensures e.Reap? || e.AttachRefused? || e.Delete?
  {
    assert PhaseOk(w, e.h) && SegmentOk(w, id);
    AttachCountIsProcesses(w, id);
    NextKeepsInv(w, e);
    NobodyMapsTheGone(Next(w, e), id);
    if e.Delete? {
      assert e.h.pid in Processes(w, id);
      OnlyMember(Processes(w, id), e.h.pid);
    }
  }

  lemma NobodyMapsTheGone(w: World, id: nat)
    requires Inv(w) && id !in w.segs
    ensures Mappers(w.handles, id) == {}
  {
    forall h | h in w.handles && w.handles[h].Mapped? ensures w.handles[h].id in w.segs {
      assert w.At(h) == w.handles[h];
      MappedSegmentExists(w, h);
    }
  }

  lemma OnlyMember(s: set<nat>, x: nat)
    requires x in s && |s| == 1
    ensures s == {x}
  {
    assert |s - {x}| == 0 && s == (s - {x}) + {x};
  }

  /** The check after the last shmdt of a process takes the segment away exactly when no process maps it, and with it the key. */
  lemma ReapRemovesIff(w: World, h: Name)
    requires Inv(w) && Owned(w, h.key) && w.At(h).Detached? && w.At(h).id in w.segs
    ensures var id, w' := w.At(h).id, Next(w, Reap(h));
      && w'.At(h).Closed? && (id !in w'.segs <==> Processes(w, id) == {})
      && w'.segs == (if Processes(w, id) == {} then w.segs - {id} else w.segs)
      && (h.key !in w'.keys <==> Processes(w, id) == {})
  {
    assert PhaseOk(w, h);
    AttachCountIsProcesses(w, w.At(h).id);
  }

  /** The only process with one reference left removes the segment by its delete, and the key is free again. */
  lemma LastDeleteRemoves(w: World, h: Name)
    requires Inv(w) && Owned(w, h.key) && w.At(h).Mapped? && w.At(h).count == 1 && Processes(w, w.At(h).id) == {h.pid}
    ensures var id, w' := w.At(h).id, Next(Next(w, Delete(h)), Reap(h));
      id !in w'.segs && h.key !in w'.keys && w'.At(h).Closed?
  {
    assert PhaseOk(w, h);
    AttachCountIsProcesses(w, w.At(h).id);
    assert !Marked(w, w.At(h).id);
  }

  /** A further open of a mapped key and a delete undo each other, and leave the kernel alone. */
  lemma OpenDeleteCancel(w: World, h: Name)
    requires w.At(h).Mapped? && w.At(h).count >= 1
    ensures Next(Next(w, Open(h)), Delete(h)) == w
    ensures w.At(h).count > 1 ==> Next(Next(w, Delete(h)), Open(h)) == w
  {
    assert w.handles[h := w.At(h)] == w.handles;
  }

  /** One open and one delete make a pair: the process maps the segment between them, counted once. */
  lemma OneOpenOneDelete(w: World, h: Name)
    requires Inv(w) && w.At(h).Closed?
    ensures var w2 := Next(Next(w, Open(h)), Attach(h)); var w3 := Next(w2, Delete(h));
      && w2.At(h).Mapped? && w2.At(h).count == 1 && w2.At(h).id in w2.segs
      && w3.At(h) == Detached(w2.At(h).id)
      && (w2.At(h).id in w.segs && w2.At(h).id in w3.segs ==>
            w2.segs[w2.At(h).id].nattch == w.segs[w2.At(h).id].nattch + 1 && w3.segs[w2.At(h).id] == w.segs[w2.At(h).id])
  {
    assert h.key in w.keys ==> w.keys[h.key] in w.segs;
  }

  /** Two processes that open one key get one id: that of the segment that is there, or of a new and empty one. */
  lemma OpensAgree(w: World, g: Name, h: Name)
    requires g.key == h.key && g != h && w.At(g).Closed? && w.At(h).Closed?
    ensures var w' := Next(Next(w, Open(g)), Open(h));
      && w'.At(g).Got? && w'.At(h) == w'.At(g)
      && (h.key in w.keys ==> w'.At(h).id == w.keys[h.key] && w'.segs == w.segs)
      && (h.key !in w.keys ==> w'.segs == w.segs[w'.At(h).id := Segment(h.key, 0, 0)])
  {
  }

  /** A module id is the next number of the counter in the segment. */
  lemma TakesTheNextId(w: World, h: Name)
    requires Inv(w) && w.At(h).Mapped?
    ensures var id, w' := w.At(h).id, Next(w, TakeId(h));
      && id in w.segs
      && w'.segs == w.segs[id := w.segs[id].(counter := w.segs[id].counter + 1)]
      && w'.issued == w.issued + [Issue(h.key, id, w.segs[id].counter + 1)]
  {
    assert PhaseOk(w, h);
  }

  /** Handle `h` stays mapped through the run. */
  ghost predicate Held(w: World, es: seq<Event>, h: Name)
    decreases |es|
  {
    w.At(h).Mapped? && (es != [] ==> Held(Next(w, es[0]), es[1..], h))
  }

  lemma NextIssues(w: World, e: Event, h: Name)
    requires Inv(w) && Owned(w, h.key) && w.At(h).Mapped? && Next(w, e).At(h).Mapped?
    ensures Next(w, e).At(h).id == w.At(h).id
    ensures var added := Next(w, e).issued;
      w.issued <= added && forall i | |w.issued| <= i < |added| && added[i].key == h.key :: added[i].id == w.At(h).id
  {
    if e.TakeId? && e.h.key == h.key && w.At(e.h).Mapped? {
      OneSegmentPerKey(w, e.h, h);
    }
  }

  lemma {:induction false} RunIssues(w: World, es: seq<Event>, h: Name)
    requires Inv(w) && Owned(w, h.key) && BenignRun(w, es, h.key) && Held(w, es, h)
    ensures var all := Run(w, es).issued;
      w.issued <= all && forall i | |w.issued| <= i < |all| && all[i].key == h.key :: all[i].id == w.At(h).id
    decreases |es|
  {
    if es != [] {
      assert Held(Next(w, es[0]), es[1..], h);
      NextIssues(w, es[0], h);
      NextKeepsInv(w, es[0]);
      NextKeepsOwned(w, es[0], h.key);
      RunIssues(Next(w, es[0]), es[1..], h);
    }
  }

  /** While one reference to the counter's segment remains, module ids strictly increase over all processes. */
  lemma {:induction false} ModuleIdsIncrease(w: World, es: seq<Event>, h: Name)
    requires Inv(w) && Owned(w, h.key) && BenignRun(w, es, h.key) && Held(w, es, h)
    ensures var all := Run(w, es).issued;
      forall i, j | |w.issued| <= i < j < |all| && all[i].key == all[j].key == h.key :: all[i].value < all[j].value
  {
    RunKeepsInv(w, es);
    RunIssues(w, es, h);
  }

  // ---------------------------------------------------------------------------------------------
  // When shmat refuses a live segment, the rollback takes the key from the processes that use it.

  /** Two handles on one key map different segments. */
  ghost predicate Split(w: World, key: int) {
    exists g: Name, h: Name :: g.key == h.key == key && w.At(g).Mapped? && w.At(h).Mapped? && w.At(g).id != w.At(h).id
  }

  /** A refusal is harmless exactly when nobody maps the segment: that is when the key still names its only segment. */
  lemma RefusalHarmlessIff(w: World, h: Name)
    requires Inv(w) && Owned(w, h.key)
    ensures Owned(Next(w, AttachRefused(h)), h.key) <==> Harmless(w, h)
  {
    if Harmless(w, h) {
      NextKeepsOwned(w, AttachRefused(h), h.key);
    } else {
      var id := w.At(h).id;
      var w' := Next(w, AttachRefused(h));
      assert PhaseOk(w, h);
      assert id in w'.segs && w'.segs[id].key == h.key && h.key !in w'.keys;
    }
  }

  /** The other half: a refusal of a segment that some process maps leads to two segments under one key, no other refusal does. */
  lemma RefusalSplitsTheKeyIff(w: World, h: Name)
    requires Inv(w) && Owned(w, h.key) && w.At(h).Got? && w.At(h).id in w.segs
    ensures w.segs[w.At(h).id].nattch > 0 <==>
      exists es :: BenignRun(Next(w, AttachRefused(h)), es, h.key) && Split(Run(Next(w, AttachRefused(h)), es), h.key)
  {
    var id, w' := w.At(h).id, Next(w, AttachRefused(h));
    assert SegmentOk(w, id);
    if w.segs[id].nattch > 0 {
      RefusalSplits(w, h);
    } else {
      forall es | BenignRun(w', es, h.key) ensures !Split(Run(w', es), h.key) {
        NextKeepsInv(w, AttachRefused(h));
        NextKeepsOwned(w, AttachRefused(h), h.key);
        RunKeepsOwned(w', es, h.key);
        NotSplit(Run(w', es), h.key);
      }
    }
  }

  lemma NotSplit(w: World, key: int)
    requires Inv(w) && Owned(w, key)
    ensures !Split(w, key)
  {
    forall g: Name, h: Name | g.key == h.key == key && w.At(g).Mapped? && w.At(h).Mapped? ensures w.At(g).id == w.At(h).id {
      OneSegmentPerKey(w, g, h);
    }
  }

  /** Opening the key again finds it free, and gets a new segment. */
  lemma RefusalSplits(w: World, h: Name)
    requires Inv(w) && Owned(w, h.key) && w.At(h).Got? && w.At(h).id in w.segs && w.segs[w.At(h).id].nattch > 0
    ensures exists es :: BenignRun(Next(w, AttachRefused(h)), es, h.key) && Split(Run(Next(w, AttachRefused(h)), es), h.key)
  {
    var id, w1 := w.At(h).id, Next(w, AttachRefused(h));
    assert PhaseOk(w, h) && SegmentOk(w, id);
    var g :| g in Mappers(w.handles, id);
    assert PhaseOk(w, g);
    assert w1.segs == w.segs && w1.keys == w.keys - {h.key} && w1.At(h).Closed?;
    var w2 := Next(w1, Open(h));
    var w3 := Next(w2, Attach(h));
    assert w3.At(h) == Mapped(w.nextId, 1) && w3.At(g) == w.At(g);
    var es := [Open(h), Attach(h)];
    assert es[1..] == [Attach(h)] && es[1..][1..] == [];
    assert Run(w1, es) == Run(w2, es[1..]) == Run(w3, []) == w3;
    assert BenignRun(w2, es[1..], h.key) && BenignRun(w1, es, h.key);
  }
}
