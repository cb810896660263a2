/**
 One descriptor record: a property array shared by a family of shapes, with its index.

 These methods change a record in the way the engine does before it publishes the result
 to the shapes that share it; each is proved against the meaning of the operation on the
 property list (module ShapeProps).
 */
module ShapeRecord {
  import opened Basics
  import opened ShapeIndex
  import opened ShapeProps

  const DESCRIPTORS_BYTES: nat := 48
  const PROP_BYTES: nat := 40
  const CELL_BYTES: nat := 16

  type Addr = nat

  datatype Desc = Desc(
    refCount: nat,
    tailDirty: bool,
    mayHaveGcRefs: bool,
    cap: nat,              // slots allocated in the property array
    props: View,           // the slots in use; their number is the record's `count`
    index: seq<Cell>,      // empty: no index allocated yet
    indexUsed: nat,
    propsAt: Addr,         // addresses of the two arrays
    indexAt: Addr,
    owners: seq<Addr>)

  /** Storage of one record, as the engine accounts for it. */
  function Storage(d: Desc): nat {
    DESCRIPTORS_BYTES + d.cap * PROP_BYTES + |d.index| * CELL_BYTES
  }

  /** Index and properties agree, and the GC flag is conservative. */
  ghost predicate Contents(hash: Key -> nat, d: Desc) {
    && |d.props| <= d.cap
    && (if d.index == [] then d.props == [] && d.indexUsed == 0
        else IndexOk(hash, d.index, d.indexUsed, d.props))
    && (d.mayHaveGcRefs || NoGcRefs(d.props))
  }

  ghost predicate NoGcRefs(v: View) {
    forall i :: 0 <= i < |v| ==> !v[i].HoldsGcRefs()
  }

  lemma ContentsWellKeyed(hash: Key -> nat, d: Desc)
    requires Contents(hash, d)
    ensures WellKeyed(d.props)
  {
    hide LiveCount, Used, Entries, PowerOfTwo;
    if d.index != [] { IndexedIsWellKeyed(hash, d.index, d.props); }
  }

  lemma IndexedLookup(hash: Key -> nat, tab: seq<Cell>, used: nat, v: View, k: Key)
    requires IndexOk(hash, tab, used, v) && IsKey(k)
    ensures Used(tab) < |tab|
    ensures Absent(tab, k) ==> SlotOf(v, k) == -1
    ensures forall c :: 0 <= c < |tab| && tab[c].key == k ==> SlotOf(v, k) == tab[c].slot
  {
    hide TableOk, LiveCount, Used, Entries, PowerOfTwo;
    var i := SlotOf(v, k);
    if i != -1 {
      assert Maps(tab, v[i].key, i);
      assert !Absent(tab, k);
    }
    forall c | 0 <= c < |tab| && tab[c].key == k ensures SlotOf(v, k) == tab[c].slot {
      assert Has(v, tab[c].slot, k);
      IndexedIsWellKeyed(hash, tab, v);
    }
  }

  /** shape_lookup: linear search through the first `count` slots, done by hashing. */
  method Lookup(hash: Key -> nat, d: Desc, count: nat, k: Key) returns (slot: int)
    requires Contents(hash, d) && count <= |d.props| && IsKey(k)
    ensures slot == SlotOf(d.props[..count], k)
  {
    hide TableOk, LiveCount, Used, Entries, PowerOfTwo, Agrees, NoGcRefs;
    if d.index == [] { return -1; }
    IndexedLookup(hash, d.index, d.indexUsed, d.props, k);
    PrefixSlot(hash, d, count, k);
    var found, at := Probe(hash, d.index, k);
    slot := if found && d.index[at].slot < count then d.index[at].slot else -1;
  }

  lemma PrefixSlot(hash: Key -> nat, d: Desc, count: nat, k: Key)
    requires Contents(hash, d) && count <= |d.props|
    ensures SlotOf(d.props[..count], k) == if SlotOf(d.props, k) < count then SlotOf(d.props, k) else -1
  {
    ContentsWellKeyed(hash, d);
    hide Contents, SlotOf;
    var i, j := SlotOf(d.props, k), SlotOf(d.props[..count], k);
    assert j != -1 ==> Has(d.props, j, k);
    assert i != -1 && i < count ==> Has(d.props[..count], i, k);
  }

  // ---- appending ----

  /** shape_ensure_capacity: grow by doubling, starting at eight; growing moves the array. */
  method EnsureCapacity(d: Desc, needed: nat, at: Addr, bytes: int) returns (r: Desc, total: int)
    ensures total - bytes == Storage(r) - Storage(d)
    ensures r == d.(cap := r.cap, propsAt := r.propsAt)
    ensures r.cap >= needed && r.cap >= d.cap
    ensures if needed <= d.cap then r == d else r.propsAt == at
  {
    if needed <= d.cap { return d, bytes; }
    var cap := if d.cap == 0 then 8 else d.cap * 2;
    while cap < needed
      invariant cap > d.cap
      decreases needed - cap
    {
      cap := cap * 2;
    }
    r := d.(cap := cap, propsAt := at);
    total := bytes + (cap - d.cap) * PROP_BYTES;
  }

  /** shape_index_resize: rehash into a table that `needed` entries fill to less than half. */
  method IndexResize(hash: Key -> nat, d: Desc, needed: nat, at: Addr, bytes: int) returns (r: Desc, total: int)
    requires Contents(hash, d) && d.indexUsed <= needed
    ensures Contents(hash, r) && r == d.(index := r.index, indexUsed := r.indexUsed, indexAt := at)
    ensures r.index != [] && r.indexUsed <= d.indexUsed && 2 * needed < |r.index|
    ensures total - bytes == Storage(r) - Storage(d)
  {
    hide TableOk, Agrees, Copied, LiveCount, Used, PowerOfTwo, NoGcRefs;
    var cap := Capacity(needed);
    var tab, live := Rehash(hash, d.index, cap);
    Rehashed(hash, d, tab, live);
    r := d.(index := tab, indexUsed := live, indexAt := at);
    total := bytes - |d.index| * CELL_BYTES + cap * CELL_BYTES;
  }

  lemma Rehashed(hash: Key -> nat, d: Desc, tab: seq<Cell>, live: nat)
    requires Contents(hash, d) && TableOk(hash, tab) && Copied(d.index, |d.index|, tab)
    requires Used(tab) <= live == Entries(d.index) == Entries(tab)
    requires PowerOfTwo(|tab|) && |tab| > 2 * live
    ensures live <= d.indexUsed && IndexOk(hash, tab, live, d.props)
  {
    hide TableOk, Used, PowerOfTwo;
    assert Agrees(d.index, d.props);
    CopiedAgrees(d.index, tab, d.props);
  }

  /** shape_index_add followed by the count update: publishes one more property. */
  method Append(hash: Key -> nat, d: Desc, p: Prop, freshProps: Addr, freshIndex: Addr, bytes: int)
    returns (r: Desc, total: int)
    requires Contents(hash, d) && p.Live? && IsKey(p.key) && SlotOf(d.props, p.key) == -1
    ensures Contents(hash, r) && r.props == d.props + [p]
    ensures r == d.(props := r.props, cap := r.cap, propsAt := r.propsAt, index := r.index, indexUsed := r.indexUsed,
                    indexAt := r.indexAt, mayHaveGcRefs := r.mayHaveGcRefs)
    ensures r.propsAt == d.propsAt || r.propsAt == freshProps
    ensures r.indexAt == d.indexAt || r.indexAt == freshIndex
    ensures total - bytes == Storage(r) - Storage(d)
  {
    hide IndexOk, LiveCount, Used, Entries;
    var e;
    e, total := EnsureCapacity(d, |d.props| + 1, freshProps, bytes);
    if (e.indexUsed + 1) * 2 >= |e.index| {
      e, total := IndexResize(hash, e, e.indexUsed + 1, freshIndex, total);
    }
    ReadyToAdd(hash, e, p.key);
    var tab, at := Put(hash, e.index, p.key, |e.props|);
    Added(hash, e, p, tab, at);
    r := e.(props := e.props + [p], index := tab, indexUsed := e.indexUsed + 1,
            mayHaveGcRefs := e.mayHaveGcRefs || p.HoldsGcRefs());
  }

  lemma ReadyToAdd(hash: Key -> nat, d: Desc, k: Key)
    requires Contents(hash, d) && d.index != [] && IsKey(k) && SlotOf(d.props, k) == -1
    ensures TableOk(hash, d.index) && Used(d.index) < |d.index| && Absent(d.index, k)
  {
    IndexedLookup(hash, d.index, d.indexUsed, d.props, k);
    assert forall c :: 0 <= c < |d.index| && IsKey(d.index[c].key) ==> Has(d.props, d.index[c].slot, d.index[c].key);
  }

  lemma Added(hash: Key -> nat, d: Desc, p: Prop, tab: seq<Cell>, at: nat)
    requires Contents(hash, d) && d.index != [] && p.Live? && IsKey(p.key)
    requires 2 * (d.indexUsed + 1) < |d.index|
    requires at < |d.index| && !IsKey(d.index[at].key) && tab == d.index[at := Cell(p.key, |d.props|)]
    requires TableOk(hash, tab) && Used(tab) <= Used(d.index) + 1 && Entries(tab) == Entries(d.index) + 1
    ensures IndexOk(hash, tab, d.indexUsed + 1, d.props + [p])
  {
    hide TableOk, Used, Entries, PowerOfTwo, LiveCount;
    AgreesAppend(d.index, d.props, at, p);
    LiveCountAppend(d.props, p);
  }

  // ---- copying and truncating ----

  /** shape_descriptors_copy_prefix */
  method CopyPrefix(hash: Key -> nat, d: Desc, count: nat, extra: nat, owner: Addr, propsAt: Addr, indexAt: Addr,
                    bytes: int)
    returns (r: Desc, total: int)
    requires Contents(hash, d) && count <= |d.props|
    ensures Contents(hash, r) && r.props == d.props[..count] && r.refCount == 1 && r.owners == [owner]
    ensures r.cap == count + extra && !r.tailDirty && r.propsAt == propsAt && r.indexAt == indexAt
    ensures total == bytes + Storage(r)
  {
    hide IndexOk, LiveCount;
    var v := d.props[..count];
    total := bytes + DESCRIPTORS_BYTES;
    if count + extra == 0 {
      return Desc(1, false, false, 0, [], [], 0, propsAt, indexAt, [owner]), total;
    }
    total := total + (count + extra) * PROP_BYTES;
    var cap := Capacity(count + extra);
    total := total + cap * CELL_BYTES;
    ContentsWellKeyed(hash, d);
    var tab, used := Fill(hash, cap, v);
    IndexOkNonEmpty(hash, tab, used, v);
    var refs := ScanGcRefs(v);
    r := Desc(1, false, refs, count + extra, v, tab, used, propsAt, indexAt, [owner]);
  }

  lemma IndexOkNonEmpty(hash: Key -> nat, tab: seq<Cell>, used: nat, v: View)
    requires IndexOk(hash, tab, used, v)
    ensures tab != []
  {
  }

  method ScanGcRefs(v: View) returns (refs: bool)
    ensures refs <==> !NoGcRefs(v)
  {
    refs := false;
    for i := 0 to |v|
      invariant refs <==> exists j :: 0 <= j < i && v[j].HoldsGcRefs()
    {
      if v[i].HoldsGcRefs() { refs := true; }
    }
  }

  /** The rebuilding half of shape_reclaim_descriptor_tail. */
  method Truncate(hash: Key -> nat, d: Desc, count: nat) returns (r: Desc)
    requires Contents(hash, d) && count <= |d.props|
    ensures Contents(hash, r) && r.props == d.props[..count]
    ensures r == d.(props := r.props, index := r.index, indexUsed := r.indexUsed, tailDirty := false)
    ensures |r.index| == |d.index|
  {
    var v := d.props[..count];
    r := d.(props := v, tailDirty := false);
    if d.index != [] {
      hide IndexOk, LiveCount;
      ContentsWellKeyed(hash, d);
      RoomForPrefix(hash, d, count);
      var tab, used := Fill(hash, |d.index|, v);
      r := r.(index := tab, indexUsed := used);
    }
  }

  lemma RoomForPrefix(hash: Key -> nat, d: Desc, count: nat)
    requires Contents(hash, d) && d.index != [] && count <= |d.props|
    ensures PowerOfTwo(|d.index|) && 2 * LiveCount(d.props[..count]) < |d.index|
  {
    LiveCountMonotone(d.props, count);
  }

  // ---- deleting ----

  /** ant_shape_remove_slot on a record with one owner: tombstone, hole, trimmed tail. */
  method RemoveAt(hash: Key -> nat, d: Desc, slot: nat) returns (r: Desc)
    requires Contents(hash, d) && slot < |d.props| && d.props[slot].Live?
    ensures Contents(hash, r) && r.props == Remove(d.props, slot)
    ensures r == d.(props := r.props, index := r.index) && |r.index| == |d.index|
  {
    hide IndexOk, LiveCount, Used, Entries, SlotOf, TableOk, NoGcRefs, Trim;
    EntryOf(hash, d, slot);
    var k := d.props[slot].key;
    var found, at := Probe(hash, d.index, k);
    Tombed(hash, d, slot, at);
    var v := d.props[slot := Deleted];
    var n := DropHoles(v);
    r := d.(props := v[..n], index := d.index[at := d.index[at].(key := TOMB)]);
  }

  /** The loop that gives up holes at the end. */
  method DropHoles(v: View) returns (n: nat)
    ensures n <= |v| && v[..n] == Trim(v)
  {
    hide LiveCount;
    n := |v|;
    assert v[..n] == v;
    while n > 0 && v[n - 1].Deleted?
      invariant n <= |v| && Trim(v) == Trim(v[..n])
    {
      assert v[..n][..n - 1] == v[..n - 1];
      n := n - 1;
    }
  }

  lemma EntryOf(hash: Key -> nat, d: Desc, slot: nat)
    requires Contents(hash, d) && slot < |d.props| && d.props[slot].Live?
    ensures d.index != [] && TableOk(hash, d.index) && Used(d.index) < |d.index|
    ensures IsKey(d.props[slot].key) && !Absent(d.index, d.props[slot].key)
    ensures forall c :: 0 <= c < |d.index| && d.index[c].key == d.props[slot].key ==> d.index[c].slot == slot
  {
    hide LiveCount, SlotOf;
    ContentsWellKeyed(hash, d);
    assert Has(d.props, slot, d.props[slot].key);
    IndexedLookup(hash, d.index, d.indexUsed, d.props, d.props[slot].key);
  }

  lemma Tombed(hash: Key -> nat, d: Desc, slot: nat, at: nat)
    requires Contents(hash, d) && slot < |d.props| && d.props[slot].Live? && at < |d.index|
    requires d.index[at].key == d.props[slot].key && d.index[at].slot == slot
    ensures IndexOk(hash, d.index[at := Cell(TOMB, slot)], d.indexUsed, Trim(d.props[slot := Deleted]))
    ensures NoGcRefs(d.props) ==> NoGcRefs(Trim(d.props[slot := Deleted]))
  {
    hide PowerOfTwo, LiveCount, Used, Entries, TableOk, Trim;
    var tab, v := d.index[at := Cell(TOMB, slot)], d.props[slot := Deleted];
    assert IsKey(d.index[at].key);
    TombOk(hash, d.index, at, slot);
    UsedUpdate(d.index, at, Cell(TOMB, slot));
    EntriesUpdate(d.index, at, Cell(TOMB, slot));
    LiveCountUpdate(d.props, slot, Deleted);
    TombAgrees(hash, d.index, d.props, slot, at);
    AgreesTrim(tab, v);
  }

  lemma TombAgrees(hash: Key -> nat, tab: seq<Cell>, v: View, slot: nat, at: nat)
    requires TableOk(hash, tab) && Agrees(tab, v) && slot < |v| && v[slot].Live?
    requires at < |tab| && tab[at] == Cell(v[slot].key, slot)
    ensures Agrees(tab[at := Cell(TOMB, slot)], v[slot := Deleted])
  {
    var t, w := tab[at := Cell(TOMB, slot)], v[slot := Deleted];
    forall c | 0 <= c < |t| && IsKey(t[c].key) ensures Has(w, t[c].slot, t[c].key) {
      assert Has(v, tab[c].slot, tab[c].key) && IsKey(v[slot].key);
      assert tab[c].key != tab[at].key;
    }
    forall i | 0 <= i < |w| && w[i].Live? ensures IsKey(w[i].key) && Maps(t, w[i].key, i) {
      assert v[i].Live? && Maps(tab, v[i].key, i);
      var c :| 0 <= c < |tab| && tab[c] == Cell(v[i].key, i);
      assert t[c] == Cell(w[i].key, i);
    }
  }

  lemma AgreesTrim(tab: seq<Cell>, v: View)
    requires Agrees(tab, v)
    ensures Agrees(tab, Trim(v))
  {
    var w := Trim(v);
    assert forall i :: 0 <= i < |w| ==> w[i] == v[i];
  }

  // ---- compacting ----

  lemma {:induction false} CompactAt(v: View, o: nat)
    requires o < |v| && v[o].Live?
    ensures LiveCount(v[..o]) < LiveCount(v) && Compact(v)[LiveCount(v[..o])] == v[o]
  {
    var n := |v| - 1;
    if o == n {
    } else {
      assert v[..n][..o] == v[..o];
      CompactAt(v[..n], o);
    }
  }

  lemma {:induction false} CompactFrom(v: View, j: nat) returns (o: nat)
    requires j < LiveCount(v)
    ensures o < |v| && v[o].Live? && LiveCount(v[..o]) == j
  {
    var n := |v| - 1;
    if v[n].Live? && j == LiveCount(v[..n]) {
      o := n;
    } else {
      o := CompactFrom(v[..n], j);
      assert v[..n][..o] == v[..o];
    }
  }

  /** Same keys in the same cells. */
  ghost predicate SameKeys(tab: seq<Cell>, t: seq<Cell>) {
    |tab| == |t| && forall c :: 0 <= c < |tab| ==> tab[c].key == t[c].key
  }

  lemma SameKeysOk(hash: Key -> nat, tab: seq<Cell>, t: seq<Cell>)
    requires SameKeys(tab, t)
    ensures TableOk(hash, tab) ==> TableOk(hash, t)
    ensures Used(tab) == Used(t) && Entries(tab) == Entries(t)
  {
    SameKeysCounts(tab, t);
    if TableOk(hash, tab) {
      forall c | 0 <= c < |t| && IsKey(t[c].key) ensures Reachable(hash, t, c) {
        assert Reachable(hash, tab, c);
      }
    }
  }

  lemma {:induction false} SameKeysCounts(tab: seq<Cell>, t: seq<Cell>)
    requires SameKeys(tab, t)
    ensures Used(tab) == Used(t) && Entries(tab) == Entries(t)
  {
    if tab != [] { SameKeysCounts(tab[..|tab| - 1], t[..|t| - 1]); }
  }

  /** Entries for slots below `src` already name their place among the live slots. */
  ghost predicate Moved(tab: seq<Cell>, t: seq<Cell>, v: View, src: nat) {
    && SameKeys(tab, t)
    && forall c :: 0 <= c < |tab| && IsKey(tab[c].key) ==>
         t[c].slot == if tab[c].slot < src <= |v| then LiveCount(v[..tab[c].slot]) else tab[c].slot
  }

  /** The loop of ant_shape_compact: slides live slots down and retargets their entries. */
  method CompactRecord(hash: Key -> nat, d: Desc) returns (r: Desc)
    requires Contents(hash, d)
    ensures Contents(hash, r) && r.props == Compact(d.props)
    ensures r == d.(props := r.props, index := r.index) && |r.index| == |d.index|
  {
    hide Contents, Moved, TableOk, Used, Entries, LiveCount, Compact;
    var v := d.props;
    var n := |v|;
    var props, tab, dst := v, d.index, 0;
    NothingMoved(d.index, v);
    for src := 0 to n
      invariant |props| == n && dst <= src && Slid(v, props, src, dst)
      invariant Moved(d.index, tab, v, src)
    {
      CompactStep(v, props, src, dst);
      if props[src].Live? {
        EntryOf(hash, d, src);
        MovedOk(hash, d.index, tab, v, src);
        var found, at := Probe(hash, tab, props[src].key);
        MoveOne(hash, d, tab, src, at, dst);
        tab := tab[at := tab[at].(slot := dst)];
        props := props[dst := props[src]];
        dst := dst + 1;
      } else {
        MovePastHole(hash, d, tab, src);
      }
    }
    assert v[..n] == v;
    CompactedOk(hash, d, tab);
    r := d.(props := props[..dst], index := tab);
  }

  /** The first `dst` slots hold the live ones among the first `src`; the rest is untouched. */
  ghost predicate Slid(v: View, props: View, src: nat, dst: nat) {
    dst <= src <= |v| == |props| && props[..dst] == Compact(v[..src]) && props[src..] == v[src..]
  }

  lemma NothingMoved(tab: seq<Cell>, v: View)
    ensures Slid(v, v, 0, 0) && Moved(tab, tab, v, 0)
  {
  }

  lemma MovedOk(hash: Key -> nat, tab: seq<Cell>, t: seq<Cell>, v: View, src: nat)
    requires TableOk(hash, tab) && Moved(tab, t, v, src)
    ensures TableOk(hash, t) && Used(t) == Used(tab) && |t| == |tab|
    ensures forall k :: !Absent(tab, k) ==> !Absent(t, k)
  {
    SameKeysOk(hash, tab, t);
    forall k | !Absent(tab, k) ensures !Absent(t, k) {
      var c :| 0 <= c < |tab| && tab[c].key == k;
      assert t[c].key == k;
    }
  }

  lemma CompactStep(v: View, props: View, src: nat, dst: nat)
    requires Slid(v, props, src, dst) && src < |v|
    ensures props[src] == v[src] && dst == LiveCount(v[..src])
    ensures if v[src].Live? then Slid(v, props[dst := props[src]], src + 1, dst + 1) else Slid(v, props, src + 1, dst)
  {
    assert v[..src + 1][..src] == v[..src];
    assert props[src..][0] == v[src..][0];
    assert props[src..][1..] == v[src..][1..];
    var w := props[dst := props[src]];
    assert w[..dst + 1] == props[..dst] + [v[src]];
    assert w[src + 1..] == props[src + 1..];
  }

  lemma MovePastHole(hash: Key -> nat, d: Desc, tab: seq<Cell>, src: nat)
    requires Contents(hash, d) && Moved(d.index, tab, d.props, src) && src < |d.props| && d.props[src].Deleted?
    ensures Moved(d.index, tab, d.props, src + 1)
  {
    hide LiveCount, TableOk, Used, Entries;
    assert forall c :: 0 <= c < |d.index| && IsKey(d.index[c].key) ==> Has(d.props, d.index[c].slot, d.index[c].key);
  }

  lemma MoveOne(hash: Key -> nat, d: Desc, tab: seq<Cell>, src: nat, at: nat, dst: nat)
    requires Contents(hash, d) && Moved(d.index, tab, d.props, src) && src < |d.props| && d.props[src].Live?
    requires at < |tab| && tab[at].key == d.props[src].key && dst == LiveCount(d.props[..src])
    ensures Moved(d.index, tab[at := Cell(tab[at].key, dst)], d.props, src + 1)
  {
    hide LiveCount, Used, Entries, PowerOfTwo, SlotOf;
    EntryOf(hash, d, src);
    var t := tab[at := Cell(tab[at].key, dst)];
    forall c | 0 <= c < |d.index| && IsKey(d.index[c].key)
      ensures t[c].slot == if d.index[c].slot < src + 1 then LiveCount(d.props[..d.index[c].slot]) else d.index[c].slot
    {
      if c != at {
        assert d.index[c].key != d.index[at].key;
        assert Has(d.props, d.index[c].slot, d.index[c].key);
      }
    }
  }

  lemma CompactedOk(hash: Key -> nat, d: Desc, tab: seq<Cell>)
    requires Contents(hash, d) && Moved(d.index, tab, d.props, |d.props|)
    ensures d.index != [] ==> IndexOk(hash, tab, d.indexUsed, Compact(d.props))
    ensures |tab| == |d.index|
    ensures Contents(hash, d.(props := Compact(d.props), index := tab))
  {
    hide TableOk, Used, Entries, PowerOfTwo;
    SameKeysOk(hash, d.index, tab);
    CompactRefs(d.props);
    if d.index != [] {
      CompactedAgrees(d.index, tab, d.props);
      AllLive(Compact(d.props));
    }
  }

  lemma {:induction false} AllLive(v: View)
    requires forall i :: 0 <= i < |v| ==> v[i].Live?
    ensures LiveCount(v) == |v|
  {
    if v != [] { AllLive(v[..|v| - 1]); }
  }

  lemma CompactRefs(v: View)
    ensures NoGcRefs(v) ==> NoGcRefs(Compact(v))
  {
    if NoGcRefs(v) {
      forall j | 0 <= j < |Compact(v)| ensures !Compact(v)[j].HoldsGcRefs() {
        var o := CompactFrom(v, j);
        CompactAt(v, o);
      }
    }
  }

  lemma CompactedAgrees(tab: seq<Cell>, t: seq<Cell>, v: View)
    requires Agrees(tab, v) && Moved(tab, t, v, |v|)
    ensures Agrees(t, Compact(v))
  {
    hide LiveCount, Compact;
    var w := Compact(v);
    forall c | 0 <= c < |t| && IsKey(t[c].key) ensures Has(w, t[c].slot, t[c].key) {
      assert Has(v, tab[c].slot, tab[c].key);
      CompactAt(v, tab[c].slot);
    }
    forall j | 0 <= j < |w| && w[j].Live? ensures IsKey(w[j].key) && Maps(t, w[j].key, j) {
      var o := CompactFrom(v, j);
      CompactAt(v, o);
      var c :| 0 <= c < |tab| && tab[c] == Cell(v[o].key, o);
      assert t[c] == Cell(w[j].key, j);
    }
  }

  // ---- writing one slot ----

  /** Rewriting a live slot under its own key keeps the index right. */
  lemma WriteOk(hash: Key -> nat, d: Desc, slot: nat, p: Prop)
    requires Contents(hash, d) && slot < |d.props| && d.props[slot].Live? && p.Live? && p.key == d.props[slot].key
    requires d.mayHaveGcRefs || !p.HoldsGcRefs()
    ensures Contents(hash, d.(props := d.props[slot := p]))
    ensures LiveCount(d.props[slot := p]) == LiveCount(d.props)
  {
    hide TableOk, Used, Entries, PowerOfTwo, LiveCount;
    LiveCountUpdate(d.props, slot, p);
    WriteAgrees(d.index, d.props, slot, p);
  }

  lemma WriteAgrees(tab: seq<Cell>, v: View, slot: nat, p: Prop)
    requires slot < |v| && v[slot].Live? && p.Live? && p.key == v[slot].key
    ensures Agrees(tab, v) ==> Agrees(tab, v[slot := p])
  {
    var w := v[slot := p];
    if Agrees(tab, v) {
      forall c | 0 <= c < |tab| && IsKey(tab[c].key) ensures Has(w, tab[c].slot, tab[c].key) {
        assert Has(v, tab[c].slot, tab[c].key);
      }
      forall i | 0 <= i < |w| && w[i].Live? ensures IsKey(w[i].key) && Maps(tab, w[i].key, i) {
        assert v[i].Live? && Maps(tab, v[i].key, i);
      }
    }
  }

  lemma {:induction false} CompactWhole(v: View)
    requires LiveCount(v) == |v|
    ensures Compact(v) == v
  {
    if v != [] { CompactWhole(v[..|v| - 1]); }
  }
}
