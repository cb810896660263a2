/**
 External handles: pointers interned under a lock and looked up without it.

 Every atomic access of the table that readers share is one step; steps of one interning
 thread and any number of readers interleave in any order.
 */
module Handles {
  import opened Basics

  const CHUNK_SIZE: nat := 1024
  const CHUNK_COUNT: nat := 4096
  const BUCKET_COUNT: nat := 2048
  const DATA_MASK: nat := 0x7FFF_FFFF_FFFF

  type Ptr = p: nat | p > 0 witness 1

  datatype Entry = Entry(ptr: Ptr, handle: nat)

  /** Where the thread that holds the lock is in its work. */
  datatype Writer =
    | Idle
    | NeedsChunk(ptr: Ptr, handle: nat)
    | NeedsSlot(ptr: Ptr, handle: nat)
    | Linking(ptr: Ptr, handle: nat)

  /** A lookup in flight; `due` is whether its handle had been returned when it began. */
  datatype Reader =
    | Loading(handle: nat, due: bool)
    | Holding(handle: nat, due: bool)
    | Done(handle: nat, due: bool, result: Option<Ptr>)

  datatype State = State(
    buckets: map<nat, seq<Entry>>,
    chunks: map<nat, map<nat, Ptr>>,
    count: nat,
    writer: Writer,
    readers: map<nat, Reader>,
    returned: set<Entry>)

  type Hash = Ptr -> nat

  function Bucket(hash: Hash, p: Ptr): nat {
    hash(p) % BUCKET_COUNT
  }

  function Chain(hash: Hash, s: State, p: Ptr): seq<Entry> {
    if Bucket(hash, p) in s.buckets then s.buckets[Bucket(hash, p)] else []
  }

  /** The first entry for the pointer along a chain. */
  function Find(chain: seq<Entry>, p: Ptr): (r: Option<nat>)
    ensures r.Some? ==> Entry(p, r.value) in chain
    ensures r.None? ==> forall e :: e in chain ==> e.ptr != p
  {
    if chain == [] then None
    else if chain[0].ptr == p then Some(chain[0].handle)
    else Find(chain[1..], p)
  }

  function ChunkOf(handle: nat): nat
    requires handle > 0
  {
    (handle - 1) / CHUNK_SIZE
  }

  function SlotOf(handle: nat): nat
    requires handle > 0
  {
    (handle - 1) % CHUNK_SIZE
  }

  /** The pointer stored for a handle, if there is one. */
  function Stored(s: State, handle: nat): Option<Ptr> {
    if handle == 0 || ChunkOf(handle) !in s.chunks then None
    else
      var slots := s.chunks[ChunkOf(handle)];
      if SlotOf(handle) in slots then Some(slots[SlotOf(handle)]) else None
  }

  lemma SlotsApart(h: nat, g: nat)
    requires h > 0 && g > 0 && ChunkOf(h) == ChunkOf(g) && SlotOf(h) == SlotOf(g)
    ensures h == g
  {
  }

  // ---- the steps ----

  datatype Step =
    | Intern(ptr: Ptr, memory: bool)
    | LoadChunk(memory: bool)
    | StoreSlot
    | Link
    | Get(reader: nat, handle: nat)
    | ReadChunk(reader: nat)
    | ReadSlot(reader: nat)

  predicate Enabled(s: State, step: Step) {
    match step
    case Intern(_, _) => s.writer.Idle?
    case LoadChunk(_) => s.writer.NeedsChunk?
    case StoreSlot => s.writer.NeedsSlot?
    case Link => s.writer.Linking?
    case Get(t, _) => t !in s.readers || s.readers[t].Done?
    case ReadChunk(t) => t in s.readers && s.readers[t].Loading?
    case ReadSlot(t) => t in s.readers && s.readers[t].Holding?
  }

  /** ant_external_handle_intern up to the search of its bucket. */
  function DoIntern(hash: Hash, s: State, p: Ptr, memory: bool): State {
    var found := Find(Chain(hash, s, p), p);
    if found.Some? then s.(returned := s.returned + {Entry(p, found.value)})
    else if !memory || s.count == DATA_MASK then s
    else s.(writer := NeedsChunk(p, s.count + 1))
  }

  /** external_publish: the chunk. */
  function DoLoadChunk(s: State, memory: bool): State
    requires s.writer.NeedsChunk?
  {
    var (p, h) := (s.writer.ptr, s.writer.handle);
    if h == 0 || ChunkOf(h) >= CHUNK_COUNT then s.(writer := Idle)
    else if ChunkOf(h) in s.chunks then s.(writer := NeedsSlot(p, h))
    else if !memory then s.(writer := Idle)
    else s.(writer := NeedsSlot(p, h), chunks := s.chunks[ChunkOf(h) := map[]])
  }

  /** external_publish: the slot. */
  function DoStoreSlot(s: State): State
    requires s.writer.NeedsSlot?
  {
    var (p, h) := (s.writer.ptr, s.writer.handle);
    if h == 0 || ChunkOf(h) !in s.chunks then s
    else
      var slots: map<nat, Ptr> := s.chunks[ChunkOf(h)][SlotOf(h) := p];
      s.(writer := Linking(p, h), chunks := s.chunks[ChunkOf(h) := slots])
  }

  /** The rest of ant_external_handle_intern, up to its return. */
  function DoLink(hash: Hash, s: State): State
    requires s.writer.Linking?
  {
    var e := Entry(s.writer.ptr, s.writer.handle);
    s.(writer := Idle, count := e.handle, returned := s.returned + {e},
       buckets := s.buckets[Bucket(hash, e.ptr) := [e] + Chain(hash, s, e.ptr)])
  }

  predicate Due(s: State, handle: nat) {
    exists e :: e in s.returned && e.handle == handle
  }

  /** ant_external_handle_get begins. */
  function DoGet(s: State, t: nat, h: nat): State {
    var due := Due(s, h);
    s.(readers := s.readers[t := if h == 0 || ChunkOf(h) >= CHUNK_COUNT then Done(h, due, None) else Loading(h, due)])
  }

  function DoReadChunk(s: State, t: nat): State
    requires t in s.readers
  {
    var r := s.readers[t];
    s.(readers := s.readers[t := if r.handle > 0 && ChunkOf(r.handle) in s.chunks then Holding(r.handle, r.due)
                                 else Done(r.handle, r.due, None)])
  }

  function DoReadSlot(s: State, t: nat): State
    requires t in s.readers
  {
    var r := s.readers[t];
    s.(readers := s.readers[t := Done(r.handle, r.due, Stored(s, r.handle))])
  }

  function Apply(hash: Hash, s: State, step: Step): State
    requires Enabled(s, step)
  {
    match step
    case Intern(p, memory) => DoIntern(hash, s, p, memory)
    case LoadChunk(memory) => DoLoadChunk(s, memory)
    case StoreSlot => DoStoreSlot(s)
    case Link => DoLink(hash, s)
    case Get(t, h) => DoGet(s, t, h)
    case ReadChunk(t) => DoReadChunk(s, t)
    case ReadSlot(t) => DoReadSlot(s, t)
  }

  function Initial(): State {
    State(map[], map[], 0, Idle, map[], {})
  }

  /** A run from the start; a step that cannot happen now is skipped. */
  function Run(hash: Hash, steps: seq<Step>): State
    decreases |steps|
  {
    if steps == [] then Initial()
    else
      var n := |steps| - 1;
      var s := Run(hash, steps[..n]);
      if Enabled(s, steps[n]) then Apply(hash, s, steps[n]) else s
  }

  // ---- what every step keeps ----

  /** Handles 1 to count are stored, each with its own pointer, which its bucket knows. */
  ghost predicate TableOk(hash: Hash, s: State) {
    && (forall h :: 1 <= h <= s.count ==>
           Stored(s, h).Some? && Entry(Stored(s, h).value, h) in Chain(hash, s, Stored(s, h).value))
    && (forall b, e :: b in s.buckets && e in s.buckets[b] ==>
           1 <= e.handle <= s.count && Stored(s, e.handle) == Some(e.ptr))
    && (forall h, g :: 1 <= h <= s.count && 1 <= g <= s.count && Stored(s, h) == Stored(s, g) ==> h == g)
  }

  ghost predicate WriterOk(s: State) {
    match s.writer
    case Idle => true
    case NeedsChunk(p, h) => h == s.count + 1 && Unknown(s, p)
    case NeedsSlot(p, h) => h == s.count + 1 && Unknown(s, p) && ChunkOf(h) in s.chunks && Stored(s, h).None?
    case Linking(p, h) => h == s.count + 1 && Unknown(s, p) && Stored(s, h) == Some(p)
  }

  ghost predicate Unknown(s: State, p: Ptr) {
    forall h :: 1 <= h <= s.count ==> Stored(s, h) != Some(p)
  }

  /** Beyond count only the handle being published may be stored. */
  ghost predicate NothingBeyond(s: State) {
    forall h :: h > s.count && !(s.writer.Linking? && h == s.writer.handle) ==> Stored(s, h).None?
  }

  ghost predicate ReturnedOk(s: State) {
    forall e :: e in s.returned ==> 1 <= e.handle <= s.count && Stored(s, e.handle) == Some(e.ptr)
  }

  ghost predicate ReaderOk(s: State, r: Reader) {
    match r
    case Loading(h, due) => due ==> Stored(s, h).Some?
    case Holding(h, due) => due ==> Stored(s, h).Some?
    case Done(h, due, result) => (result.Some? ==> Stored(s, h) == result) && (due ==> result.Some?)
  }

  ghost predicate Inv(hash: Hash, s: State) {
    && TableOk(hash, s) && WriterOk(s) && NothingBeyond(s) && ReturnedOk(s)
    && (forall c :: c in s.chunks ==> c < CHUNK_COUNT)
    && forall t :: t in s.readers ==> ReaderOk(s, s.readers[t])
  }

  /** A pointer once stored for a handle stays. */
  ghost predicate Keeps(s: State, t: State) {
    forall h: nat :: Stored(s, h).Some? ==> Stored(t, h) == Stored(s, h)
  }

  lemma ReadersKept(s: State, t: State)
    requires Keeps(s, t) && s.readers == t.readers && forall i :: i in s.readers ==> ReaderOk(s, s.readers[i])
    ensures forall i :: i in t.readers ==> ReaderOk(t, t.readers[i])
  {
    hide Stored;
  }

  lemma InternKeeps(hash: Hash, s: State, p: Ptr, memory: bool)
    requires Inv(hash, s) && s.writer.Idle?
    ensures Inv(hash, DoIntern(hash, s, p, memory))
  {
    var t := DoIntern(hash, s, p, memory);
    assert forall h: nat :: Stored(t, h) == Stored(s, h);
    hide Stored;
    assert forall q: Ptr :: Chain(hash, t, q) == Chain(hash, s, q);
    var found := Find(Chain(hash, s, p), p);
    if found.None? {
      forall h | 1 <= h <= s.count ensures Stored(s, h) != Some(p) {
        assert Entry(Stored(s, h).value, h) in Chain(hash, s, Stored(s, h).value);
      }
    }
  }

  lemma LoadChunkKeeps(hash: Hash, s: State, memory: bool)
    requires Inv(hash, s) && s.writer.NeedsChunk?
    ensures Inv(hash, DoLoadChunk(s, memory))
  {
    var t := DoLoadChunk(s, memory);
    assert forall h: nat :: Stored(t, h) == Stored(s, h);
    assert NothingBeyond(s) && Stored(s, s.writer.handle).None?;
    hide Stored;
    assert forall q: Ptr :: Chain(hash, t, q) == Chain(hash, s, q);
  }

  lemma StoreSlotOnly(s: State)
    requires s.writer.NeedsSlot? && s.writer.handle > 0 && ChunkOf(s.writer.handle) in s.chunks
    ensures var t := DoStoreSlot(s);
            Stored(t, s.writer.handle) == Some(s.writer.ptr)
            && forall h: nat :: h != s.writer.handle ==> Stored(t, h) == Stored(s, h)
  {
    var t := DoStoreSlot(s);
    var g := s.writer.handle;
    forall h: nat | h != g ensures Stored(t, h) == Stored(s, h) {
      if h > 0 && ChunkOf(h) == ChunkOf(g) && SlotOf(h) == SlotOf(g) { SlotsApart(h, g); }
    }
  }

  lemma StoreSlotKeeps(hash: Hash, s: State)
    requires Inv(hash, s) && s.writer.NeedsSlot?
    ensures Inv(hash, DoStoreSlot(s))
  {
    var t := DoStoreSlot(s);
    StoreSlotOnly(s);
    assert forall q: Ptr :: Chain(hash, t, q) == Chain(hash, s, q);
    hide Stored;
    ReadersKept(s, t);
  }

  lemma LinkKeeps(hash: Hash, s: State)
    requires Inv(hash, s) && s.writer.Linking?
    ensures Inv(hash, DoLink(hash, s))
  {
    var t := DoLink(hash, s);
    var e := Entry(s.writer.ptr, s.writer.handle);
    assert forall h: nat :: Stored(t, h) == Stored(s, h);
    hide Stored;
    forall q: Ptr, f: Entry | f in Chain(hash, s, q) ensures f in Chain(hash, t, q) {}
    assert e in Chain(hash, t, e.ptr);
    ReadersKept(s, t);
  }

  lemma GetKeeps(hash: Hash, s: State, i: nat, h: nat)
    requires Inv(hash, s)
    ensures Inv(hash, DoGet(s, i, h))
  {
    var t := DoGet(s, i, h);
    assert forall g: nat :: Stored(t, g) == Stored(s, g);
    if Due(s, h) { StoredInRange(s, h); }
    hide Stored;
    assert forall q: Ptr :: Chain(hash, t, q) == Chain(hash, s, q);
  }

  /** A returned handle is in a chunk that exists. */
  lemma StoredInRange(s: State, h: nat)
    requires ReturnedOk(s) && Due(s, h)
    ensures h > 0 && Stored(s, h).Some? && ChunkOf(h) in s.chunks
  {
  }

  lemma ReadKeeps(hash: Hash, s: State, i: nat, r: Reader)
    requires Inv(hash, s) && ReaderOk(s, r)
    ensures Inv(hash, s.(readers := s.readers[i := r]))
  {
    var t := s.(readers := s.readers[i := r]);
    assert forall g: nat :: Stored(t, g) == Stored(s, g);
    hide Stored;
    assert forall q: Ptr :: Chain(hash, t, q) == Chain(hash, s, q);
  }

  lemma ReadChunkKeeps(hash: Hash, s: State, i: nat)
    requires Inv(hash, s) && i in s.readers && s.readers[i].Loading?
    ensures Inv(hash, DoReadChunk(s, i))
  {
    var r := s.readers[i];
    assert ReaderOk(s, r);
    hide TableOk, WriterOk, NothingBeyond, ReturnedOk;
    ReadKeeps(hash, s, i, if r.handle > 0 && ChunkOf(r.handle) in s.chunks then Holding(r.handle, r.due)
                          else Done(r.handle, r.due, None));
  }

  lemma ReadSlotKeeps(hash: Hash, s: State, i: nat)
    requires Inv(hash, s) && i in s.readers && s.readers[i].Holding?
    ensures Inv(hash, DoReadSlot(s, i))
  {
    var r := s.readers[i];
    assert ReaderOk(s, r);
    hide TableOk, WriterOk, NothingBeyond, ReturnedOk;
    ReadKeeps(hash, s, i, Done(r.handle, r.due, Stored(s, r.handle)));
  }

  /** Every step of every thread keeps the invariant. */
  lemma StepKeeps(hash: Hash, s: State, step: Step)
    requires Inv(hash, s) && Enabled(s, step)
    ensures Inv(hash, Apply(hash, s, step))
  {
    hide Inv, DoIntern, DoLoadChunk, DoStoreSlot, DoLink, DoGet, DoReadChunk, DoReadSlot;
    match step {
      case Intern(p, memory) => InternKeeps(hash, s, p, memory);
      case LoadChunk(memory) => LoadChunkKeeps(hash, s, memory);
      case StoreSlot => StoreSlotKeeps(hash, s);
      case Link => LinkKeeps(hash, s);
      case Get(t, h) => GetKeeps(hash, s, t, h);
      case ReadChunk(t) => ReadChunkKeeps(hash, s, t);
      case ReadSlot(t) => ReadSlotKeeps(hash, s, t);
    }
  }

  lemma {:induction false} RunInv(hash: Hash, steps: seq<Step>)
    ensures Inv(hash, Run(hash, steps))
    decreases |steps|
  {
    if steps == [] {
    } else {
      var n := |steps| - 1;
      RunInv(hash, steps[..n]);
      hide Inv, Enabled, Apply;
      var s := Run(hash, steps[..n]);
      if Enabled(s, steps[n]) { StepKeeps(hash, s, steps[n]); }
    }
  }

  // ---- what users of the table rely on ----

  /** In every run the same pointer always gets the same handle, and different pointers different ones. */
  lemma InterningStable(hash: Hash, steps: seq<Step>, e: Entry, f: Entry)
    requires e in Run(hash, steps).returned && f in Run(hash, steps).returned
    ensures e.ptr == f.ptr <==> e.handle == f.handle
    ensures e.handle > 0
  {
    RunInv(hash, steps);
    hide Run, Stored, Chain;
  }

  /**
   A lookup that ends gives the one pointer of its handle or nothing, and never nothing once
   the handle was returned.
   */
  lemma LookupExact(hash: Hash, steps: seq<Step>, t: nat, e: Entry)
    requires var s := Run(hash, steps);
             t in s.readers && s.readers[t].Done? && e in s.returned && e.handle == s.readers[t].handle
    ensures var r := Run(hash, steps).readers[t];
            && (r.result.Some? ==> r.result.value == e.ptr)
            && (r.due ==> r.result == Some(e.ptr))
  {
    RunInv(hash, steps);
    var s := Run(hash, steps);
    assert ReaderOk(s, s.readers[t]);
    hide Run, Stored;
  }

  lemma StepStored(hash: Hash, s: State, step: Step)
    requires Inv(hash, s) && Enabled(s, step)
    ensures Keeps(s, Apply(hash, s, step))
  {
    if step.StoreSlot? {
      StoreSlotOnly(s);
      hide Stored;
    }
  }

  /** What a handle leads to never changes over the rest of a run. */
  lemma {:induction false} StoredForever(hash: Hash, early: seq<Step>, late: seq<Step>, h: nat)
    requires Stored(Run(hash, early), h).Some?
    ensures Stored(Run(hash, early + late), h) == Stored(Run(hash, early), h)
    decreases |late|
  {
    hide Stored, Enabled, Apply, Inv;
    if late == [] {
      assert early + late == early;
    } else {
      var n := |late| - 1;
      var most := early + late[..n];
      assert (early + late)[..|early| + n] == most;
      StoredForever(hash, early, late[..n], h);
      RunInv(hash, most);
      var s := Run(hash, most);
      if Enabled(s, late[n]) { StepStored(hash, s, late[n]); }
    }
  }

  /** Two lookups of one handle that both find a pointer find the same one. */
  lemma LookupsAgree(hash: Hash, steps: seq<Step>, t: nat, u: nat)
    requires var s := Run(hash, steps);
             && t in s.readers && u in s.readers && s.readers[t].Done? && s.readers[u].Done?
             && s.readers[t].handle == s.readers[u].handle && s.readers[t].result.Some? && s.readers[u].result.Some?
    ensures var s := Run(hash, steps); s.readers[t].result == s.readers[u].result
  {
    RunInv(hash, steps);
    var s := Run(hash, steps);
    assert ReaderOk(s, s.readers[t]) && ReaderOk(s, s.readers[u]);
    hide Run, Stored;
  }

  /** Interning a pointer again finds the handle it has, in every run. */
  lemma InternAgain(hash: Hash, steps: seq<Step>, e: Entry, memory: bool)
    requires var s := Run(hash, steps); s.writer.Idle? && e in s.returned
    ensures var s := Run(hash, steps); Apply(hash, s, Intern(e.ptr, memory)) == s
  {
    RunInv(hash, steps);
    var s := Run(hash, steps);
    hide Run, Stored;
    assert Entry(e.ptr, e.handle) in Chain(hash, s, e.ptr);
    var found := Find(Chain(hash, s, e.ptr), e.ptr);
    assert Entry(e.ptr, found.value) in Chain(hash, s, e.ptr);
    assert s.returned + {e} == s.returned;
  }

  /** Interning a new pointer, with memory and room for it, binds the next handle to it. */
  lemma InternNew(hash: Hash, s: State, p: Ptr)
    requires Inv(hash, s) && s.writer.Idle? && Find(Chain(hash, s, p), p).None? && s.count < CHUNK_SIZE * CHUNK_COUNT
    ensures var t := DoIntern(hash, s, p, true);
            t.writer.NeedsChunk? &&
            var u := DoLoadChunk(t, true);
            u.writer.NeedsSlot? &&
            var v := DoStoreSlot(u);
            v.writer.Linking? &&
            var w := DoLink(hash, v);
            && w.writer.Idle? && w.count == s.count + 1 && Stored(w, w.count) == Some(p)
            && w.returned == s.returned + {Entry(p, w.count)} && Keeps(s, w)
  {
    hide Inv;
    var t := DoIntern(hash, s, p, true);
    var u := DoLoadChunk(t, true);
    assert forall h: nat :: Stored(u, h) == Stored(s, h);
    StoreSlotOnly(u);
    var v := DoStoreSlot(u);
    assert forall h: nat :: Stored(DoLink(hash, v), h) == Stored(v, h);
    NextIsFree(hash, s);
    hide Stored;
  }

  lemma NextIsFree(hash: Hash, s: State)
    requires Inv(hash, s) && s.writer.Idle?
    ensures Stored(s, s.count + 1).None?
  {
    assert NothingBeyond(s);
    hide Stored;
  }

  /** Once every slot of every chunk is taken, interning a new pointer fails and changes nothing. */
  lemma InternFull(hash: Hash, s: State, p: Ptr, memory: bool)
    requires s.writer.Idle? && Find(Chain(hash, s, p), p).None? && s.count == CHUNK_SIZE * CHUNK_COUNT
    ensures var t := DoIntern(hash, s, p, true); t.writer.NeedsChunk? && DoLoadChunk(t, memory) == s
  {
  }

  lemma CountBound(hash: Hash, s: State)
    requires Inv(hash, s)
    ensures s.count <= CHUNK_SIZE * CHUNK_COUNT
  {
    if s.count > 0 { assert Stored(s, s.count).Some? && ChunkOf(s.count) < CHUNK_COUNT; }
  }

  /** With memory to be had, a new pointer is refused, and then nothing changes, exactly when every handle is taken. */
  lemma RefusedIffFull(hash: Hash, s: State, p: Ptr)
    requires Inv(hash, s) && s.writer.Idle? && Find(Chain(hash, s, p), p).None?
    ensures s.count <= CHUNK_SIZE * CHUNK_COUNT
    ensures var t := DoIntern(hash, s, p, true);
            t.writer.NeedsChunk? && (DoLoadChunk(t, true).writer.Idle? <==> s.count == CHUNK_SIZE * CHUNK_COUNT)
            && (DoLoadChunk(t, true).writer.Idle? ==> DoLoadChunk(t, true) == s)
  {
    CountBound(hash, s);
    hide Stored, Inv;
    if s.count < CHUNK_SIZE * CHUNK_COUNT {
      InternNew(hash, s, p);
    } else {
      InternFull(hash, s, p, true);
    }
  }
}
