/**
 What one hidden class says about its objects: an ordered list of properties with
 holes where properties were deleted.  The functions here are the meaning of each
 operation on one such list taken alone; the methods keep a hash index in agreement
 with a list.
 */
module ShapeProps {
  import opened Basics
  import opened ShapeIndex

  type Attrs = a: int | 0 <= a < 256
  type Accessor = Option<nat>

  datatype Prop =
    | Deleted
    | Live(key: Key, attrs: Attrs, getter: Accessor, setter: Accessor)
  {
    /** Symbol keys have their low bit set; accessors hold function values. */
    predicate HoldsGcRefs() {
      Live? && (key % 2 == 1 || getter.Some? || setter.Some?)
    }
  }

  type View = seq<Prop>

  predicate Has(v: View, i: int, k: Key) {
    0 <= i < |v| && v[i].Live? && v[i].key == k
  }

  /** Each key names at most one live slot, and no key is a sentinel of the index. */
  ghost predicate WellKeyed(v: View) {
    && (forall i :: 0 <= i < |v| && v[i].Live? ==> IsKey(v[i].key))
    && (forall i, j :: 0 <= i < j < |v| && v[i].Live? && v[j].Live? ==> v[i].key != v[j].key)
  }

  /** Linear search for the live slot of k; -1 when there is none. */
  function SlotOf(v: View, k: Key): (i: int)
    ensures i == -1 || Has(v, i, k)
    ensures i == -1 ==> forall j :: !Has(v, j, k)
  {
    if v == [] then -1
    else if v[|v| - 1].Live? && v[|v| - 1].key == k then |v| - 1
    else
      var i := SlotOf(v[..|v| - 1], k);
      assert i == -1 ==> forall j :: Has(v, j, k) ==> Has(v[..|v| - 1], j, k);
      i
  }

  function LiveCount(v: View): (n: nat)
    ensures n <= |v|
  {
    if v == [] then 0 else LiveCount(v[..|v| - 1]) + if v[|v| - 1].Live? then 1 else 0
  }

  lemma {:induction false} LiveCountUpdate(v: View, i: nat, p: Prop)
    requires i < |v|
    ensures LiveCount(v[i := p]) == LiveCount(v) - (if v[i].Live? then 1 else 0) + (if p.Live? then 1 else 0)
  {
    var n := |v| - 1;
    if i == n {
      assert v[i := p][..n] == v[..n];
    } else {
      assert v[i := p][..n] == v[..n][i := p];
      LiveCountUpdate(v[..n], i, p);
    }
  }

  /** Adding a property: a new key goes last, a known key keeps its slot and accessors. */
  function Add(v: View, k: Key, attrs: Attrs): View {
    var i := SlotOf(v, k);
    if i == -1 then v + [Live(k, attrs, None, None)] else v[i := v[i].(attrs := attrs)]
  }

  /** The slot Add gives to its key. */
  function AddSlot(v: View, k: Key): nat {
    var i := SlotOf(v, k);
    if i == -1 then |v| else i
  }

  /** Drops the holes at the end. */
  function Trim(v: View): (r: View)
    ensures r <= v && (forall i :: |r| <= i < |v| ==> v[i].Deleted?)
    ensures r != [] ==> r[|r| - 1].Live?
    ensures LiveCount(r) == LiveCount(v)
  {
    if v != [] && v[|v| - 1].Deleted? then Trim(v[..|v| - 1]) else v
  }

  function Remove(v: View, i: nat): View
    requires i < |v|
  {
    Trim(v[i := Deleted])
  }

  /** Stable removal of the holes. */
  function Compact(v: View): (r: View)
    ensures |r| == LiveCount(v)
    ensures forall i :: 0 <= i < |r| ==> r[i].Live?
  {
    if v == [] then []
    else if v[|v| - 1].Live? then Compact(v[..|v| - 1]) + [v[|v| - 1]]
    else Compact(v[..|v| - 1])
  }

  // ---- agreement of an index with a property list ----

  ghost predicate Agrees(tab: seq<Cell>, v: View) {
    && (forall c :: 0 <= c < |tab| && IsKey(tab[c].key) ==> Has(v, tab[c].slot, tab[c].key))
    && (forall i :: 0 <= i < |v| && v[i].Live? ==> IsKey(v[i].key) && Maps(tab, v[i].key, i))
  }

  ghost predicate IndexOk(hash: Key -> nat, tab: seq<Cell>, used: nat, v: View) {
    && TableOk(hash, tab)
    && PowerOfTwo(|tab|)
    && Agrees(tab, v)
    && Used(tab) <= used
    && 2 * used < |tab|
    && Entries(tab) == LiveCount(v) <= used
  }

  lemma IndexedIsWellKeyed(hash: Key -> nat, tab: seq<Cell>, v: View)
    requires TableOk(hash, tab) && Agrees(tab, v)
    ensures WellKeyed(v)
  {
    forall i, j | 0 <= i < j < |v| && v[i].Live? && v[j].Live? ensures v[i].key != v[j].key {
      assert Maps(tab, v[i].key, i) && Maps(tab, v[j].key, j);
    }
  }

  lemma AgreesAppendDeleted(tab: seq<Cell>, v: View)
    requires Agrees(tab, v)
    ensures Agrees(tab, v + [Deleted])
  {
    forall i | 0 <= i < |v + [Deleted]| && (v + [Deleted])[i].Live?
      ensures IsKey((v + [Deleted])[i].key) && Maps(tab, (v + [Deleted])[i].key, i)
    {
      assert v[i].Live?;
    }
  }

  lemma AgreesAppend(tab: seq<Cell>, v: View, at: nat, p: Prop)
    requires Agrees(tab, v) && p.Live? && IsKey(p.key)
    requires at < |tab| && !IsKey(tab[at].key)
    ensures Agrees(tab[at := Cell(p.key, |v|)], v + [p])
  {
    var t, w := tab[at := Cell(p.key, |v|)], v + [p];
    forall i | 0 <= i < |w| && w[i].Live? ensures IsKey(w[i].key) && Maps(t, w[i].key, i) {
      if i == |v| {
        assert t[at] == Cell(w[i].key, i);
      } else {
        assert v[i].Live? && Maps(tab, v[i].key, i);
        var c :| 0 <= c < |tab| && tab[c] == Cell(v[i].key, i);
        assert t[c] == Cell(w[i].key, i);
      }
    }
  }

  lemma LiveCountAppend(v: View, p: Prop)
    ensures LiveCount(v + [p]) == LiveCount(v) + if p.Live? then 1 else 0
  {
    assert (v + [p])[..|v|] == v;
  }

  function Cleared(n: nat): (tab: seq<Cell>)
    ensures |tab| == n && forall c :: 0 <= c < n ==> tab[c].key == EMPTY
  {
    seq(n, _ => Cell(EMPTY, 0))
  }

  /** Indexes a list into a cleared table, as tail reclaim and prefix copies do. */
  method Fill(hash: Key -> nat, cap: nat, v: View) returns (tab: seq<Cell>, used: nat)
    requires cap > 0 && PowerOfTwo(cap) && 2 * LiveCount(v) < cap && WellKeyed(v)
    ensures IndexOk(hash, tab, used, v) && |tab| == cap && used == LiveCount(v)
  {
    hide TableOk, Agrees, WellKeyed, LiveCount, Used, Entries;
    tab, used := Cleared(cap), 0;
    AllEmpty(hash, tab, v[..0]);
    for i := 0 to |v|
      invariant |tab| == cap && TableOk(hash, tab) && Agrees(tab, v[..i])
      invariant Used(tab) <= used == LiveCount(v[..i]) == Entries(tab)
    {
      LiveCountMonotone(v, i + 1);
      LiveCountStep(v, i);
      if v[i].Deleted? {
        AgreesAppendDeleted(tab, v[..i]);
      } else {
        AbsentFromPrefix(tab, v, i);
        ghost var before, at := tab, 0;
        tab, at := Put(hash, tab, v[i].key, i);
        AgreesAppend(before, v[..i], at, v[i]);
        used := used + 1;
      }
    }
    assert v[..|v|] == v;
  }

  lemma LiveCountStep(v: View, i: nat)
    requires i < |v|
    ensures v[..i + 1] == v[..i] + [v[i]]
    ensures LiveCount(v[..i + 1]) == LiveCount(v[..i]) + if v[i].Live? then 1 else 0
  {
    assert v[..i + 1][..i] == v[..i];
  }

  lemma AbsentFromPrefix(tab: seq<Cell>, v: View, i: nat)
    requires WellKeyed(v) && i < |v| && v[i].Live? && Agrees(tab, v[..i])
    ensures IsKey(v[i].key) && Absent(tab, v[i].key)
  {
    assert forall j :: !Has(v[..i], j, v[i].key);
  }

  lemma {:induction false} AllEmpty(hash: Key -> nat, tab: seq<Cell>, none: View)
    requires forall c :: 0 <= c < |tab| ==> tab[c].key == EMPTY
    requires none == []
    ensures |tab| > 0 ==> TableOk(hash, tab)
    ensures Agrees(tab, none) && Used(tab) == 0 == Entries(tab) == LiveCount(none)
  {
    if tab != [] { AllEmpty(hash, tab[..|tab| - 1], none); }
  }

  lemma {:induction false} LiveCountMonotone(v: View, n: nat)
    requires n <= |v|
    ensures LiveCount(v[..n]) <= LiveCount(v)
  {
    if n == |v| {
      assert v[..n] == v;
    } else {
      assert v[..|v| - 1][..n] == v[..n];
      LiveCountMonotone(v[..|v| - 1], n);
    }
  }

  /** Every entry among the first n cells of `from` is in `to`, and no others are. */
  ghost predicate Copied(from: seq<Cell>, n: nat, to: seq<Cell>)
    requires n <= |from|
  {
    && (forall c :: 0 <= c < n && IsKey(from[c].key) ==> Maps(to, from[c].key, from[c].slot))
    && (forall c :: 0 <= c < |to| && IsKey(to[c].key) ==> Maps(from[..n], to[c].key, to[c].slot))
  }

  /** The rehashing loop of shape_index_resize. */
  method Rehash(hash: Key -> nat, from: seq<Cell>, cap: nat) returns (to: seq<Cell>, live: nat)
    requires from != [] ==> TableOk(hash, from)
    requires cap > 0 && PowerOfTwo(cap) && 2 * Entries(from) < cap
    ensures |to| == cap && TableOk(hash, to) && Copied(from, |from|, to)
    ensures Used(to) <= live == Entries(from) == Entries(to)
  {
    hide TableOk, Copied, Used, Entries;
    to, live := Cleared(cap), 0;
    AllEmpty(hash, to, []);
    EntriesStart(from, to);
    for i := 0 to |from|
      invariant |to| == cap && TableOk(hash, to) && Copied(from, i, to)
      invariant Used(to) <= live == Entries(from[..i]) == Entries(to)
    {
      EntriesMonotone(from, i + 1);
      EntriesStep(from, i);
      var x := from[i];
      if IsKey(x.key) {
        NotYetCopied(hash, from, i, to);
        ghost var before, at := to, 0;
        to, at := Put(hash, to, x.key, x.slot);
        CopyOne(from, i, before, at);
        live := live + 1;
      } else {
        CopyNone(from, i, to);
      }
    }
    assert from[..|from|] == from;
  }

  lemma EntriesStart(from: seq<Cell>, to: seq<Cell>)
    requires forall c :: 0 <= c < |to| ==> to[c].key == EMPTY
    ensures Copied(from, 0, to) && Entries(from[..0]) == 0
  {
  }

  lemma EntriesStep(tab: seq<Cell>, i: nat)
    requires i < |tab|
    ensures Entries(tab[..i + 1]) == Entries(tab[..i]) + if IsKey(tab[i].key) then 1 else 0
  {
    assert tab[..i + 1][..i] == tab[..i];
  }

  lemma {:induction false} EntriesMonotone(tab: seq<Cell>, n: nat)
    requires n <= |tab|
    ensures Entries(tab[..n]) <= Entries(tab)
  {
    if n == |tab| {
      assert tab[..n] == tab;
    } else {
      assert tab[..|tab| - 1][..n] == tab[..n];
      EntriesMonotone(tab[..|tab| - 1], n);
    }
  }

  lemma NotYetCopied(hash: Key -> nat, from: seq<Cell>, i: nat, to: seq<Cell>)
    requires TableOk(hash, from) && i < |from| && IsKey(from[i].key) && Copied(from, i, to)
    ensures Absent(to, from[i].key)
  {
    forall c | 0 <= c < |to| ensures to[c].key != from[i].key {
      if IsKey(to[c].key) {
        var b :| 0 <= b < i && from[..i][b] == Cell(to[c].key, to[c].slot);
        assert from[b].key != from[i].key;
      }
    }
  }

  lemma CopyOne(from: seq<Cell>, i: nat, to: seq<Cell>, at: nat)
    requires i < |from| && IsKey(from[i].key) && Copied(from, i, to)
    requires at < |to| && !IsKey(to[at].key)
    ensures Copied(from, i + 1, to[at := from[i]])
  {
    var t := to[at := from[i]];
    forall c | 0 <= c < i + 1 && IsKey(from[c].key) ensures Maps(t, from[c].key, from[c].slot) {
      if c == i {
        assert t[at] == from[i];
      } else {
        var b :| 0 <= b < |to| && to[b] == Cell(from[c].key, from[c].slot);
        assert t[b] == from[c];
      }
    }
    forall c | 0 <= c < |t| && IsKey(t[c].key) ensures Maps(from[..i + 1], t[c].key, t[c].slot) {
      if c == at {
        assert from[..i + 1][i] == t[c];
      } else {
        var b :| 0 <= b < i && from[..i][b] == Cell(to[c].key, to[c].slot);
        assert from[..i + 1][b] == t[c];
      }
    }
  }

  lemma CopyNone(from: seq<Cell>, i: nat, to: seq<Cell>)
    requires i < |from| && !IsKey(from[i].key) && Copied(from, i, to)
    ensures Copied(from, i + 1, to)
  {
    forall c | 0 <= c < |to| && IsKey(to[c].key) ensures Maps(from[..i + 1], to[c].key, to[c].slot) {
      var b :| 0 <= b < i && from[..i][b] == Cell(to[c].key, to[c].slot);
      assert from[..i + 1][b] == to[c];
    }
  }

  lemma CopiedAgrees(from: seq<Cell>, to: seq<Cell>, v: View)
    requires Agrees(from, v) && Copied(from, |from|, to)
    ensures Agrees(to, v)
  {
    forall c | 0 <= c < |to| && IsKey(to[c].key) ensures Has(v, to[c].slot, to[c].key) {
      var b :| 0 <= b < |from| && from[..|from|][b] == Cell(to[c].key, to[c].slot);
      assert IsKey(from[b].key);
    }
    forall i | 0 <= i < |v| && v[i].Live? ensures IsKey(v[i].key) && Maps(to, v[i].key, i) {
      var c :| 0 <= c < |from| && from[c] == Cell(v[i].key, i);
      assert IsKey(from[c].key);
    }
  }
}
