/**
 The arena that holds program text and compiled data: bump allocation in a chain of
 blocks, interning of text, and marks to rewind to, last in first out.

 A block is named by its place in the chain, so a block allocated after a rewind may
 have the address of one that the rewind freed.
 */
module CodeArena {
  import opened Basics

  const BLOCK_SIZE: nat := 65536
  const ALIGNMENT: nat := 8

  datatype Block = Block(used: nat, data: Bytes)

  datatype Pointer = Pointer(block: nat, off: nat)

  datatype Alloc = Alloc(at: Pointer, len: nat)

  /** code_arena_mark_t; None is the mark of an arena without blocks. */
  type Mark = Option<Pointer>

  /** Used and capacity of a block. */
  datatype Extent = Extent(used: nat, capacity: nat)

  /** What the arena was when a mark was taken. */
  datatype Snap = Snap(mark: Mark, live: seq<Alloc>, interns: map<Bytes, Pointer>, extents: seq<Extent>)

  function Extents(blocks: seq<Block>): (es: seq<Extent>)
    ensures |es| == |blocks| && forall i :: 0 <= i < |es| ==> es[i] == Extent(blocks[i].used, |blocks[i].data|)
  {
    seq(|blocks|, i requires 0 <= i < |blocks| => Extent(blocks[i].used, |blocks[i].data|))
  }

  // ---- the order of addresses ----

  /** The allocation ends at or before the address. */
  predicate Ends(a: Alloc, p: Pointer) {
    a.at.block < p.block || (a.at.block == p.block && a.at.off + a.len <= p.off)
  }

  predicate EndsBy(a: Alloc, m: Mark) {
    m.Some? && Ends(a, m.value)
  }

  predicate AtOrPast(q: Pointer, m: Mark) {
    m.None? || q.block > m.value.block || (q.block == m.value.block && q.off >= m.value.off)
  }

  predicate NoLater(m: Mark, n: Mark) {
    || m.None?
    || (n.Some? && m.value.block < n.value.block)
    || (n.Some? && m.value.block == n.value.block && m.value.off <= n.value.off)
  }

  // ---- what every operation keeps ----

  ghost predicate Inside(blocks: seq<Block>, a: Alloc) {
    a.at.block < |blocks| && a.at.off + a.len <= blocks[a.at.block].used <= |blocks[a.at.block].data|
  }

  /** Live allocations lie in used storage, in the order they were made, none overlapping another. */
  ghost predicate LiveOk(blocks: seq<Block>, live: seq<Alloc>) {
    && (forall i :: 0 <= i < |blocks| ==> blocks[i].used <= |blocks[i].data|)
    && (forall i :: 0 <= i < |live| ==> Inside(blocks, live[i]))
    && (forall i, j :: 0 <= i < j < |live| ==> Ends(live[i], live[j].at))
  }

  /** The text and its NUL are at the address. */
  ghost predicate HasText(blocks: seq<Block>, p: Pointer, text: Bytes) {
    && p.block < |blocks| && p.off + |text| < |blocks[p.block].data|
    && blocks[p.block].data[p.off..p.off + |text|] == text
    && blocks[p.block].data[p.off + |text|] == 0
  }

  ghost predicate Owned(live: seq<Alloc>, p: Pointer, text: Bytes) {
    exists i :: 0 <= i < |live| && live[i] == Alloc(p, |text| + 1)
  }

  /** Every interned text is where the table says, in storage that has not been rewound. */
  ghost predicate InternsOk(blocks: seq<Block>, live: seq<Alloc>, interns: map<Bytes, Pointer>) {
    forall k :: k in interns ==> k != [] && Owned(live, interns[k], k) && HasText(blocks, interns[k], k)
  }

  ghost predicate Splits(live: seq<Alloc>, n: nat, m: Mark) {
    && n <= |live|
    && (forall i :: 0 <= i < n ==> EndsBy(live[i], m))
    && (forall i :: n <= i < |live| ==> AtOrPast(live[i].at, m))
  }

  ghost predicate Earlier(s: Snap, interns: map<Bytes, Pointer>) {
    forall k :: (k in s.interns <==> k in interns && !AtOrPast(interns[k], s.mark))
             && (k in s.interns ==> k in interns && s.interns[k] == interns[k])
  }

  /** The arena can still go back to the snapshot: nothing before its mark has changed. */
  ghost predicate SnapOk(blocks: seq<Block>, live: seq<Alloc>, interns: map<Bytes, Pointer>, s: Snap) {
    && Splits(live, |s.live|, s.mark) && s.live == live[..|s.live|]
    && Earlier(s, interns)
    && (s.mark.None? ==> s.extents == [])
    && (s.mark.Some? ==>
          var m := s.mark.value;
          && m.block < |blocks| && m.off <= blocks[m.block].used
          && s.extents == Extents(blocks[..m.block]) + [Extent(m.off, |blocks[m.block].data|)])
  }

  ghost predicate MarksOk(blocks: seq<Block>, live: seq<Alloc>, interns: map<Bytes, Pointer>, marks: seq<Snap>) {
    && (forall i :: 0 <= i < |marks| ==> SnapOk(blocks, live, interns, marks[i]))
    && (forall i, j :: 0 <= i < j < |marks| ==>
           NoLater(marks[i].mark, marks[j].mark) && |marks[i].live| <= |marks[j].live|)
  }

  ghost predicate ArenaOk(blocks: seq<Block>, live: seq<Alloc>, interns: map<Bytes, Pointer>, marks: seq<Snap>) {
    LiveOk(blocks, live) && InternsOk(blocks, live, interns) && MarksOk(blocks, live, interns, marks)
  }

  // ---- the bytes of an allocation ----

  ghost function BytesOf(blocks: seq<Block>, a: Alloc): Bytes {
    if Inside(blocks, a) then blocks[a.at.block].data[a.at.off..a.at.off + a.len] else []
  }

  ghost predicate Intact(blocks: seq<Block>, after: seq<Block>, live: seq<Alloc>) {
    forall i :: 0 <= i < |live| ==> BytesOf(after, live[i]) == BytesOf(blocks, live[i])
  }

  // ---- growing at the end ----

  /** More storage in use at the end, all old bytes that were in use kept. */
  ghost predicate Grows(blocks: seq<Block>, after: seq<Block>) {
    && |blocks| <= |after|
    && (forall i :: 0 <= i < |blocks| - 1 ==> after[i] == blocks[i])
    && (blocks != [] ==>
          var n := |blocks| - 1;
          && |after[n].data| == |blocks[n].data| && blocks[n].used <= after[n].used
          && forall j :: 0 <= j < blocks[n].used && j < |blocks[n].data| ==> after[n].data[j] == blocks[n].data[j])
  }

  lemma GrowKeepsText(blocks: seq<Block>, after: seq<Block>, live: seq<Alloc>, p: Pointer, text: Bytes)
    requires Grows(blocks, after) && LiveOk(blocks, live) && Owned(live, p, text) && HasText(blocks, p, text)
    ensures HasText(after, p, text)
  {
    var i :| 0 <= i < |live| && live[i] == Alloc(p, |text| + 1);
    assert Inside(blocks, live[i]);
    var d, e := blocks[p.block].data, after[p.block].data;
    forall j | p.off <= j <= p.off + |text| ensures e[j] == d[j] {}
    assert e[p.off..p.off + |text|] == d[p.off..p.off + |text|];
  }

  lemma SplitsGrow(live: seq<Alloc>, n: nat, m: Mark, a: Alloc)
    requires Splits(live, n, m) && AtOrPast(a.at, m)
    ensures Splits(live + [a], n, m)
  {
    var more := live + [a];
    forall i | 0 <= i < n ensures EndsBy(more[i], m) { assert more[i] == live[i]; }
    forall i | n <= i < |more| ensures AtOrPast(more[i].at, m) { assert i < |live| ==> more[i] == live[i]; }
  }

  lemma SplitsPrefix(live: seq<Alloc>, n: nat, m: Mark, k: nat)
    requires Splits(live, n, m) && n <= k <= |live|
    ensures Splits(live[..k], n, m)
  {
    var less := live[..k];
    forall i | 0 <= i < n ensures EndsBy(less[i], m) { assert less[i] == live[i]; }
    forall i | n <= i < |less| ensures AtOrPast(less[i].at, m) { assert less[i] == live[i]; }
  }

  lemma GrowKeepsSnap(blocks: seq<Block>, after: seq<Block>, live: seq<Alloc>, a: Alloc, interns: map<Bytes, Pointer>,
                      s: Snap)
    requires Grows(blocks, after) && LiveOk(blocks, live) && SnapOk(blocks, live, interns, s)
    requires forall i :: 0 <= i < |blocks| ==> Ends(Alloc(Pointer(i, 0), blocks[i].used), a.at)
    ensures SnapOk(after, live + [a], interns, s)
  {
    var more := live + [a];
    assert more[..|s.live|] == live[..|s.live|];
    if s.mark.Some? {
      var m := s.mark.value;
      assert after[..m.block] == blocks[..m.block];
      assert Ends(Alloc(Pointer(m.block, 0), blocks[m.block].used), a.at);
    }
    SplitsGrow(live, |s.live|, s.mark, a);
  }

  lemma GrowOk(blocks: seq<Block>, after: seq<Block>, live: seq<Alloc>, a: Alloc, interns: map<Bytes, Pointer>,
               marks: seq<Snap>)
    requires ArenaOk(blocks, live, interns, marks) && Grows(blocks, after)
    requires forall i :: 0 <= i < |after| ==> after[i].used <= |after[i].data|
    requires Inside(after, a) && forall i :: 0 <= i < |blocks| ==> Ends(Alloc(Pointer(i, 0), blocks[i].used), a.at)
    ensures ArenaOk(after, live + [a], interns, marks)
  {
    GrowLive(blocks, after, live, a);
    forall k | k in interns ensures Owned(live + [a], interns[k], k) && HasText(after, interns[k], k) {
      GrowKeepsText(blocks, after, live, interns[k], k);
      var i :| 0 <= i < |live| && live[i] == Alloc(interns[k], |k| + 1);
      assert (live + [a])[i] == live[i];
    }
    forall i | 0 <= i < |marks| ensures SnapOk(after, live + [a], interns, marks[i]) {
      GrowKeepsSnap(blocks, after, live, a, interns, marks[i]);
    }
  }

  lemma GrowLive(blocks: seq<Block>, after: seq<Block>, live: seq<Alloc>, a: Alloc)
    requires LiveOk(blocks, live) && Grows(blocks, after) && Inside(after, a)
    requires forall i :: 0 <= i < |after| ==> after[i].used <= |after[i].data|
    requires forall i :: 0 <= i < |blocks| ==> Ends(Alloc(Pointer(i, 0), blocks[i].used), a.at)
    ensures LiveOk(after, live + [a])
  {
    forall i | 0 <= i < |live| ensures Inside(after, live[i]) && Ends(live[i], a.at) {
      assert Inside(blocks, live[i]);
    }
  }

  lemma GrowIntact(blocks: seq<Block>, after: seq<Block>, live: seq<Alloc>, more: seq<Alloc>)
    requires LiveOk(blocks, live) && Grows(blocks, after) && LiveOk(after, more) && live <= more
    ensures Intact(blocks, after, live)
  {
    forall i | 0 <= i < |live| ensures BytesOf(after, live[i]) == BytesOf(blocks, live[i]) {
      var a := live[i];
      assert Inside(blocks, a) && more[i] == a && Inside(after, more[i]);
      var d, e := blocks[a.at.block].data, after[a.at.block].data;
      assert e[a.at.off..a.at.off + a.len] == d[a.at.off..a.at.off + a.len];
    }
  }

  /** A text just laid down in the newest allocation is interned. */
  lemma InternOk(blocks: seq<Block>, live: seq<Alloc>, interns: map<Bytes, Pointer>, marks: seq<Snap>, text: Bytes)
    requires ArenaOk(blocks, live, interns, marks) && live != [] && text != [] && text !in interns
    requires live[|live| - 1].len == |text| + 1 && HasText(blocks, live[|live| - 1].at, text)
    requires forall i :: 0 <= i < |marks| ==> |marks[i].live| < |live|
    ensures ArenaOk(blocks, live, interns[text := live[|live| - 1].at], marks)
  {
    var p := live[|live| - 1].at;
    assert live[|live| - 1] == Alloc(p, |text| + 1);
    forall i | 0 <= i < |marks| ensures SnapOk(blocks, live, interns[text := p], marks[i]) {
      assert SnapOk(blocks, live, interns, marks[i]);
      assert AtOrPast(p, marks[i].mark);
    }
  }

  // ---- going back ----

  ghost predicate CutsTo(blocks: seq<Block>, after: seq<Block>, m: Mark) {
    if m.None? then after == []
    else
      && m.value.block < |blocks| && |after| == m.value.block + 1
      && after[..m.value.block] == blocks[..m.value.block]
      && after[m.value.block] == blocks[m.value.block].(used := m.value.off)
  }

  lemma CutText(blocks: seq<Block>, after: seq<Block>, m: Mark, p: Pointer, text: Bytes)
    requires CutsTo(blocks, after, m) && HasText(blocks, p, text) && !AtOrPast(p, m)
    ensures HasText(after, p, text)
  {
    assert p.block < m.value.block ==> after[..m.value.block][p.block] == blocks[..m.value.block][p.block];
  }

  lemma CutLive(blocks: seq<Block>, live: seq<Alloc>, n: nat, m: Mark, after: seq<Block>)
    requires LiveOk(blocks, live) && Splits(live, n, m) && CutsTo(blocks, after, m)
    requires m.Some? ==> m.value.off <= blocks[m.value.block].used
    ensures LiveOk(after, live[..n])
  {
    forall i | 0 <= i < |after| ensures after[i].used <= |after[i].data| {
      if i < m.value.block { assert after[..m.value.block][i] == blocks[..m.value.block][i]; }
    }
    forall i | 0 <= i < n ensures Inside(after, live[..n][i]) {
      assert Inside(blocks, live[i]) && EndsBy(live[i], m);
      var b := live[i].at.block;
      if b < m.value.block { assert after[..m.value.block][b] == blocks[..m.value.block][b]; }
    }
  }

  lemma CutInterns(blocks: seq<Block>, live: seq<Alloc>, interns: map<Bytes, Pointer>, s: Snap, after: seq<Block>)
    requires LiveOk(blocks, live) && InternsOk(blocks, live, interns) && SnapOk(blocks, live, interns, s)
             && CutsTo(blocks, after, s.mark)
    ensures InternsOk(after, s.live, s.interns)
  {
    forall k | k in s.interns ensures k != [] && Owned(s.live, s.interns[k], k) && HasText(after, s.interns[k], k) {
      CutText(blocks, after, s.mark, interns[k], k);
      var i :| 0 <= i < |live| && live[i] == Alloc(interns[k], |k| + 1);
      assert i < |s.live|;
      assert s.live[i] == live[..|s.live|][i] == live[i];
    }
  }

  lemma CutIntact(blocks: seq<Block>, after: seq<Block>, live: seq<Alloc>, kept: seq<Alloc>)
    requires LiveOk(blocks, live) && kept <= live && LiveOk(after, kept)
    requires |after| <= |blocks| && forall b :: 0 <= b < |after| ==> after[b].data == blocks[b].data
    ensures Intact(blocks, after, kept)
  {
    forall i | 0 <= i < |kept| ensures BytesOf(after, kept[i]) == BytesOf(blocks, kept[i]) {
      assert kept[i] == live[i] && Inside(blocks, live[i]) && Inside(after, kept[i]);
    }
  }

  lemma CutExtents(blocks: seq<Block>, after: seq<Block>, m: Mark)
    requires CutsTo(blocks, after, m) && m.Some?
    ensures Extents(after) == Extents(blocks[..m.value.block]) + [Extent(m.value.off, |blocks[m.value.block].data|)]
  {
    var e := Extents(after);
    var b := m.value.block;
    forall i | 0 <= i < b ensures e[i] == Extents(blocks[..b])[i] { assert after[..b][i] == blocks[..b][i]; }
  }

  /** An earlier snapshot can still be gone back to after going back to a later one. */
  lemma CutSnap(blocks: seq<Block>, live: seq<Alloc>, interns: map<Bytes, Pointer>, r: Snap, s: Snap, after: seq<Block>)
    requires SnapOk(blocks, live, interns, r) && SnapOk(blocks, live, interns, s) && CutsTo(blocks, after, s.mark)
    requires NoLater(r.mark, s.mark) && |r.live| <= |s.live|
    ensures SnapOk(after, s.live, s.interns, r)
  {
    assert s.live[..|r.live|] == live[..|r.live|];
    SplitsPrefix(live, |r.live|, r.mark, |s.live|);
    if r.mark.Some? {
      var m, n := r.mark.value, s.mark.value;
      assert after[..m.block] == blocks[..m.block] by {
        assert after[..n.block][..m.block] == blocks[..n.block][..m.block];
      }
      if m.block < n.block { assert after[..n.block][m.block] == blocks[..n.block][m.block]; }
    }
  }

  lemma MarksBound(blocks: seq<Block>, live: seq<Alloc>, interns: map<Bytes, Pointer>, marks: seq<Snap>)
    requires ArenaOk(blocks, live, interns, marks)
    ensures forall i :: 0 <= i < |marks| ==> |marks[i].live| <= |live|
  {
    forall i | 0 <= i < |marks| ensures |marks[i].live| <= |live| { assert SnapOk(blocks, live, interns, marks[i]); }
  }

  lemma BlocksBound(blocks: seq<Block>, live: seq<Alloc>, interns: map<Bytes, Pointer>, marks: seq<Snap>)
    requires ArenaOk(blocks, live, interns, marks)
    ensures forall i :: 0 <= i < |blocks| ==> blocks[i].used <= |blocks[i].data|
  {
  }

  lemma InternsInside(blocks: seq<Block>, live: seq<Alloc>, interns: map<Bytes, Pointer>, marks: seq<Snap>)
    requires ArenaOk(blocks, live, interns, marks)
    ensures forall k :: k in interns ==> interns[k].block < |blocks| && interns[k].off < |blocks[interns[k].block].data|
  {
    hide MarksOk, LiveOk;
  }

  lemma StoreOk(blocks: seq<Block>, live: seq<Alloc>, interns: map<Bytes, Pointer>, marks: seq<Snap>,
                a: Alloc, j: nat, v: Byte, after: seq<Block>)
    requires ArenaOk(blocks, live, interns, marks) && a in live && j < a.len && Inside(blocks, a)
    requires forall k :: k in interns ==> Alloc(interns[k], |k| + 1) != a
    requires var b, o := a.at.block, a.at.off + j;
             after == blocks[b := blocks[b].(data := blocks[b].data[o := v])]
    ensures ArenaOk(after, live, interns, marks) && Extents(after) == Extents(blocks)
  {
    assert LiveOk(after, live) by {
      forall i | 0 <= i < |live| ensures Inside(after, live[i]) { assert Inside(blocks, live[i]); }
    }
    forall k | k in interns ensures HasText(after, interns[k], k) {
      var i :| 0 <= i < |live| && live[i] == Alloc(interns[k], |k| + 1);
      var i' :| 0 <= i' < |live| && live[i'] == a;
      StoreElsewhere(blocks, interns[k], k, a, j, v, after);
    }
    forall i | 0 <= i < |marks| ensures SnapOk(after, live, interns, marks[i]) {
      assert SnapOk(blocks, live, interns, marks[i]);
      var m := marks[i].mark;
      if m.Some? { assert Extents(after[..m.value.block]) == Extents(blocks[..m.value.block]); }
    }
  }

  /** Nothing but the one byte changes. */
  lemma StoreBytes(blocks: seq<Block>, live: seq<Alloc>, a: Alloc, j: nat, v: Byte, after: seq<Block>)
    requires LiveOk(blocks, live) && LiveOk(after, live) && a in live && j < a.len && Inside(blocks, a)
    requires var b, o := a.at.block, a.at.off + j;
             after == blocks[b := blocks[b].(data := blocks[b].data[o := v])]
    ensures |BytesOf(blocks, a)| == a.len && BytesOf(after, a) == BytesOf(blocks, a)[j := v]
    ensures forall i :: 0 <= i < |live| && live[i] != a ==> BytesOf(after, live[i]) == BytesOf(blocks, live[i])
  {
    assert BytesOf(after, a) == BytesOf(blocks, a)[j := v];
    var i' :| 0 <= i' < |live| && live[i'] == a;
    forall i | 0 <= i < |live| && live[i] != a ensures BytesOf(after, live[i]) == BytesOf(blocks, live[i]) {
      var c := live[i];
      assert Inside(blocks, c) && Inside(after, c);
      var d, e := blocks[c.at.block].data, after[c.at.block].data;
      assert e[c.at.off..c.at.off + c.len] == d[c.at.off..c.at.off + c.len];
    }
  }

  lemma StoreElsewhere(blocks: seq<Block>, p: Pointer, text: Bytes, a: Alloc, j: nat, v: Byte, after: seq<Block>)
    requires HasText(blocks, p, text) && Inside(blocks, a) && j < a.len
    requires Ends(a, p) || Ends(Alloc(p, |text| + 1), a.at)
    requires var b, o := a.at.block, a.at.off + j;
             after == blocks[b := blocks[b].(data := blocks[b].data[o := v])]
    ensures HasText(after, p, text)
  {
    var d, e := blocks[p.block].data, after[p.block].data;
    assert e[p.off..p.off + |text|] == d[p.off..p.off + |text|];
  }

  /** The block with a text and its NUL after what was in use. */
  function WithText(b: Block, text: Bytes): (r: Block)
    requires b.used + |text| + 1 <= |b.data|
    ensures r.used == b.used + |text| + 1 && |r.data| == |b.data|
    ensures forall j :: 0 <= j < b.used ==> r.data[j] == b.data[j]
    ensures r.data[b.used..b.used + |text|] == text && r.data[b.used + |text|] == 0
  {
    Block(b.used + |text| + 1, b.data[..b.used] + text + [0] + b.data[b.used + |text| + 1..])
  }

  /** Interns outside one stretch of one block. */
  function Pruned(interns: map<Bytes, Pointer>, block: nat, start: nat, capacity: nat): map<Bytes, Pointer> {
    map k | k in interns && !(interns[k].block == block && start <= interns[k].off < capacity) :: interns[k]
  }

  // ---- steps ----

  datatype State = State(blocks: seq<Block>, interns: map<Bytes, Pointer>, live: seq<Alloc>, marks: seq<Snap>)

  datatype Step = Grew | Wrote(a: Alloc, j: nat, v: Byte) | Marked | WentBack(i: nat)

  ghost predicate Ok(s: State) {
    ArenaOk(s.blocks, s.live, s.interns, s.marks)
  }

  function SnapOf(s: State): Snap {
    Snap(Top(s.blocks), s.live, s.interns, Extents(s.blocks))
  }

  /** What each operation does to the allocations there are. */
  ghost predicate Next(s: State, step: Step, t: State) {
    match step
    case Grew => s.live <= t.live && t.marks == s.marks && Intact(s.blocks, t.blocks, s.live)
    case Wrote(a, j, v) =>
      && a in s.live && j < |BytesOf(s.blocks, a)| && t == s.(blocks := t.blocks)
         && Extents(t.blocks) == Extents(s.blocks)
      && BytesOf(t.blocks, a) == BytesOf(s.blocks, a)[j := v]
      && forall i :: 0 <= i < |s.live| && s.live[i] != a ==>
             BytesOf(t.blocks, s.live[i]) == BytesOf(s.blocks, s.live[i])
    case Marked => t == s.(marks := s.marks + [SnapOf(s)])
    case WentBack(i) =>
      && i < |s.marks| && t.marks == s.marks[..i + 1]
      && t.live == s.marks[i].live && t.interns == s.marks[i].interns && Extents(t.blocks) == s.marks[i].extents
      && Intact(s.blocks, t.blocks, t.live)
  }

  class Arena {
    var blocks: seq<Block>
    var interns: map<Bytes, Pointer>
    ghost var live: seq<Alloc>
    ghost var marks: seq<Snap>

    ghost predicate Valid()
      reads this
    {
      ArenaOk(blocks, live, interns, marks)
    }

    ghost function Now(): State
      reads this
    {
      State(blocks, interns, live, marks)
    }

    constructor ()
      ensures Valid() && blocks == [] && live == [] && interns == map[] && marks == []
    {
      blocks, interns, live, marks := [], map[], [], [];
    }

    /** A block for at least `size` bytes at the end of the chain. */
    method AddBlock(size: nat)
      requires Valid()
      modifies this`blocks
      ensures |blocks| == |old(blocks)| + 1 && blocks[..|old(blocks)|] == old(blocks)
      ensures blocks[|old(blocks)|].used == 0 && |blocks[|old(blocks)|].data| >= size
    {
      var capacity := if size > BLOCK_SIZE then size else BLOCK_SIZE;
      blocks := blocks + [Block(0, seq(capacity, _ => 0))];
    }

    /** arena_bump; `memory` is whether a new block could be had. */
    method Bump(size: nat, memory: bool) returns (r: Option<Pointer>)
      requires Valid()
      modifies this`blocks, this`live
      ensures Valid()
      ensures r.None? ==> !memory && live == old(live) && blocks == old(blocks)
      ensures r.Some? ==>
                r.value.off % ALIGNMENT == 0 && exists n :: n >= size && live == old(live) + [Alloc(r.value, n)]
      ensures Next(old(Now()), Grew, Now())
    {
      BlocksBound(blocks, live, interns, marks);
      hide ArenaOk, Next;
      GrewSame(Now());
      var size := (size + (ALIGNMENT - 1)) / ALIGNMENT * ALIGNMENT;
      var used := 0;
      if blocks != [] { used := (blocks[|blocks| - 1].used + (ALIGNMENT - 1)) / ALIGNMENT * ALIGNMENT; }
      if blocks == [] || used + size > |blocks[|blocks| - 1].data| {
        if !memory { return None; }
        AddBlock(size);
        used := 0;
      }
      var n := |blocks| - 1;
      blocks := blocks[n := blocks[n].(used := used + size)];
      var p := Pointer(n, used);
      GrowOk(old(blocks), blocks, live, Alloc(p, size), interns, marks);
      live := live + [Alloc(p, size)];
      GrewOk(old(Now()), Now());
      return Some(p);
    }

    /** code_arena_alloc; `memory` and `entry` are whether a block and a table entry could be had. */
    method Intern(code: Bytes, memory: bool, entry: bool) returns (r: Option<Pointer>)
      requires Valid()
      modifies this`blocks, this`live, this`interns
      ensures Valid()
      ensures r.None? ==>
                (code == [] || !memory) && live == old(live) && blocks == old(blocks) && interns == old(interns)
      ensures r.Some? ==> code != [] && HasText(blocks, r.value, code) && Owned(live, r.value, code)
      ensures code in old(interns) ==> r == Some(old(interns)[code]) && live == old(live) && interns == old(interns)
      ensures Next(old(Now()), Grew, Now())
      ensures r.Some? && code !in old(interns) ==>
                && live == old(live) + [Alloc(r.value, |code| + 1)]
                && interns == if entry then old(interns)[code := r.value] else old(interns)
    {
      if code == [] { return None; }
      if code in interns { return Some(interns[code]); }
      MarksBound(blocks, live, interns, marks);
      r := Append(code, memory);
      if r.Some? && entry {
        hide ArenaOk, HasText;
        InternOk(blocks, live, interns, marks, code);
        interns := interns[code := r.value];
      }
    }

    /** The text and a NUL at the end of the arena. */
    method Append(code: Bytes, memory: bool) returns (r: Option<Pointer>)
      requires Valid()
      modifies this`blocks, this`live
      ensures Valid()
      ensures r.None? ==> !memory && live == old(live) && blocks == old(blocks)
      ensures r.Some? ==>
                live == old(live) + [Alloc(r.value, |code| + 1)] && live[|live| - 1] == Alloc(r.value, |code| + 1)
      ensures r.Some? ==> HasText(blocks, r.value, code)
      ensures Next(old(Now()), Grew, Now())
    {
      BlocksBound(blocks, live, interns, marks);
      hide ArenaOk, WithText, Next;
      GrewSame(Now());
      var size := |code| + 1;
      if blocks == [] || blocks[|blocks| - 1].used + size > |blocks[|blocks| - 1].data| {
        if !memory { return None; }
        AddBlock(size);
      }
      var n := |blocks| - 1;
      var p := Pointer(n, blocks[n].used);
      blocks := blocks[n := WithText(blocks[n], code)];
      GrowOk(old(blocks), blocks, live, Alloc(p, size), interns, marks);
      live := live + [Alloc(p, size)];
      GrewOk(old(Now()), Now());
      return Some(p);
    }

    /** A write by the owner of a live allocation that is not interned text. */
    method Store(a: Alloc, j: nat, v: Byte)
      requires Valid() && a in live && j < a.len
      requires forall k :: k in interns ==> Alloc(interns[k], |k| + 1) != a
      modifies this`blocks
      ensures Valid() && Next(old(Now()), Wrote(a, j, v), Now())
    {
      var b, o := a.at.block, a.at.off + j;
      assert Inside(blocks, a);
      blocks := blocks[b := blocks[b].(data := blocks[b].data[o := v])];
      StoreOk(old(blocks), live, interns, marks, a, j, v, blocks);
      StoreBytes(old(blocks), live, a, j, v, blocks);
    }

    /** code_arena_mark */
    method TakeMark() returns (m: Mark)
      requires Valid()
      modifies this`marks
      ensures Valid()
      ensures marks == old(marks) + [Snap(m, live, interns, Extents(blocks))] && Next(old(Now()), Marked, Now())
    {
      m := Top(blocks);
      MarkOk(blocks, live, interns, marks);
      marks := marks + [Snap(m, live, interns, Extents(blocks))];
    }

    /** The blocks past a mark are freed and its own block is cut back to it. */
    method Truncate(m: Mark)
      requires m.Some? ==> m.value.block < |blocks|
      modifies this`blocks
      ensures (m.Some? ==> m.value.off <= |old(blocks)[m.value.block].data|) ==> CutsTo(old(blocks), blocks, m)
    {
      if m.None? {
        blocks := [];
        return;
      }
      var target := m.value.block;
      if m.value.off <= |blocks[target].data| {
        blocks := blocks[target := blocks[target].(used := m.value.off)];
      }
      blocks := blocks[..target + 1];
    }

    /** code_interns_prune_for_block_range for the mark's block, then for every block after it. */
    method Prune(m: Mark)
      requires Valid() && (m.Some? ==> m.value.block < |blocks| && m.value.off <= |blocks[m.value.block].data|)
      modifies this`interns
      ensures forall k :: k in interns <==> k in old(interns) && !AtOrPast(old(interns)[k], m)
      ensures forall k :: k in interns ==> interns[k] == old(interns)[k]
    {
      InternsInside(blocks, live, interns, marks);
      hide ArenaOk;
      var b := 0;
      if m.Some? {
        b := m.value.block;
        interns := Pruned(interns, b, m.value.off, |blocks[b].data|);
        b := b + 1;
      }
      ghost var first := b;
      while b < |blocks|
        invariant first <= b <= |blocks|
        invariant forall k :: k in interns <==>
                    k in old(interns) && !(AtOrPast(old(interns)[k], m) && old(interns)[k].block < b)
        invariant forall k :: k in interns ==> interns[k] == old(interns)[k]
      {
        interns := Pruned(interns, b, 0, |blocks[b].data|);
        b := b + 1;
      }
    }

    /** code_arena_rewind: the arena is again what it was when the mark was taken. */
    method Rewind(m: Mark, ghost i: nat)
      requires Valid() && i < |marks| && marks[i].mark == m
      modifies this
      ensures Valid() && marks == old(marks)[..i + 1]
      ensures live == marks[i].live && interns == marks[i].interns && Extents(blocks) == marks[i].extents
      ensures |blocks| <= |old(blocks)| && forall b :: 0 <= b < |blocks| ==> blocks[b].data == old(blocks)[b].data
      ensures Next(old(Now()), WentBack(i), Now())
    {
      ghost var s := marks[i];
      assert SnapOk(blocks, live, interns, s);
      Prune(m);
      assert interns == s.interns;
      Truncate(m);
      RewindOk(old(blocks), live, old(interns), marks, i, blocks);
      CutIntact(old(blocks), blocks, live, s.live);
      live := s.live;
      marks := marks[..i + 1];
    }

    /** arena_rewind_plain, for the parser's arena, where nothing is interned. */
    method RewindPlain(m: Mark, ghost i: nat)
      requires Valid() && i < |marks| && marks[i].mark == m && interns == map[]
      modifies this
      ensures Valid() && marks == old(marks)[..i + 1] && interns == map[]
      ensures live == marks[i].live && Extents(blocks) == marks[i].extents
      ensures |blocks| <= |old(blocks)| && forall b :: 0 <= b < |blocks| ==> blocks[b].data == old(blocks)[b].data
      ensures Next(old(Now()), WentBack(i), Now())
    {
      ghost var s := marks[i];
      assert SnapOk(blocks, live, interns, s);
      Truncate(m);
      RewindOk(old(blocks), live, interns, marks, i, blocks);
      CutIntact(old(blocks), blocks, live, s.live);
      assert interns == s.interns;
      live := s.live;
      marks := marks[..i + 1];
    }
  }

  lemma GrewSame(s: State)
    ensures Next(s, Grew, s)
  {
  }

  lemma GrewOk(s: State, t: State)
    requires Ok(s) && Ok(t) && Grows(s.blocks, t.blocks) && s.live <= t.live && t.marks == s.marks
    ensures Next(s, Grew, t)
  {
    GrowIntact(s.blocks, t.blocks, s.live, t.live);
  }

  /** The place where the next allocation would go at the earliest. */
  function Top(blocks: seq<Block>): Mark {
    if blocks == [] then None else Some(Pointer(|blocks| - 1, blocks[|blocks| - 1].used))
  }

  lemma TopSplits(blocks: seq<Block>, live: seq<Alloc>)
    requires LiveOk(blocks, live)
    ensures Splits(live, |live|, Top(blocks))
  {
    forall i | 0 <= i < |live| ensures EndsBy(live[i], Top(blocks)) { assert Inside(blocks, live[i]); }
  }

  lemma TopSnap(blocks: seq<Block>, live: seq<Alloc>, interns: map<Bytes, Pointer>)
    requires LiveOk(blocks, live) && InternsOk(blocks, live, interns)
    ensures SnapOk(blocks, live, interns, Snap(Top(blocks), live, interns, Extents(blocks)))
  {
    TopSplits(blocks, live);
    assert live[..|live|] == live;
    forall k | k in interns ensures !AtOrPast(interns[k], Top(blocks)) {
      var i :| 0 <= i < |live| && live[i] == Alloc(interns[k], |k| + 1);
      assert EndsBy(live[i], Top(blocks));
    }
    if blocks != [] {
      var n := |blocks| - 1;
      assert Extents(blocks) == Extents(blocks[..n]) + [Extent(blocks[n].used, |blocks[n].data|)];
    }
  }

  lemma MarkOk(blocks: seq<Block>, live: seq<Alloc>, interns: map<Bytes, Pointer>, marks: seq<Snap>)
    requires ArenaOk(blocks, live, interns, marks)
    ensures ArenaOk(blocks, live, interns, marks + [Snap(Top(blocks), live, interns, Extents(blocks))])
  {
    var s := Snap(Top(blocks), live, interns, Extents(blocks));
    TopSnap(blocks, live, interns);
    forall i | 0 <= i < |marks| ensures NoLater(marks[i].mark, s.mark) && |marks[i].live| <= |live| {
      assert SnapOk(blocks, live, interns, marks[i]);
    }
    hide SnapOk, NoLater;
    var more := marks + [s];
    forall i | 0 <= i < |more| ensures SnapOk(blocks, live, interns, more[i]) {}
  }

  lemma RewindOk(blocks: seq<Block>, live: seq<Alloc>, interns: map<Bytes, Pointer>, marks: seq<Snap>, i: nat,
                 after: seq<Block>)
    requires ArenaOk(blocks, live, interns, marks) && i < |marks| && CutsTo(blocks, after, marks[i].mark)
    ensures ArenaOk(after, marks[i].live, marks[i].interns, marks[..i + 1]) && Extents(after) == marks[i].extents
  {
    var s := marks[i];
    assert SnapOk(blocks, live, interns, s);
    CutLive(blocks, live, |s.live|, s.mark, after);
    CutInterns(blocks, live, interns, s, after);
    if s.mark.Some? { CutExtents(blocks, after, s.mark); }
    var kept := marks[..i + 1];
    forall j | 0 <= j < |kept| ensures SnapOk(after, s.live, s.interns, kept[j]) {
      CutSnap(blocks, live, interns, marks[j], s, after);
    }
  }

  // ---- whole runs between a mark and the rewind to it ----

  /** A run of the arena, one step after another. */
  ghost predicate Run(trace: seq<State>, steps: seq<Step>)
    ensures Run(trace, steps) ==> |trace| == |steps| + 1
  {
    && |trace| == |steps| + 1
    && (forall n :: 0 <= n < |trace| ==> Ok(trace[n]))
    && (forall n :: 0 <= n < |steps| ==> Next(trace[n], steps[n], trace[n + 1]))
  }

  /** The bytes of an allocation after its owner's writes, in their order. */
  function Owner(a: Alloc, bytes: Bytes, steps: seq<Step>): (r: Bytes)
    ensures |r| == |bytes|
    decreases |steps|
  {
    if steps == [] then bytes
    else
      var r := Owner(a, bytes, steps[..|steps| - 1]);
      match steps[|steps| - 1]
      case Wrote(b, j, v) => if b == a && j < |r| then r[j := v] else r
      case _ => r
  }

  /** Marks taken after number k come and go; mark k itself is not gone back to. */
  ghost predicate KeepsMark(steps: seq<Step>, k: nat) {
    forall n :: 0 <= n < |steps| && steps[n].WentBack? ==> steps[n].i > k
  }

  /** Mark k stands, and the allocations it remembers have the bytes their owners gave them. */
  ghost predicate Holding(s: State, t: State, steps: seq<Step>) {
    && |t.marks| > |s.marks| && t.marks[|s.marks|] == SnapOf(s)
    && s.live <= t.live
    && forall i :: 0 <= i < |s.live| ==>
           BytesOf(t.blocks, s.live[i]) == Owner(s.live[i], BytesOf(s.blocks, s.live[i]), steps)
  }

  lemma HoldingMore(s: State, t: State, steps: seq<Step>, step: Step, u: State)
    requires Ok(t) && Ok(u) && Holding(s, t, steps) && Next(t, step, u) && (step.WentBack? ==> step.i > |s.marks|)
    ensures Holding(s, u, steps + [step])
  {
    hide BytesOf, Extents;
    var k := |s.marks|;
    assert (steps + [step])[..|steps|] == steps;
    if step.WentBack? {
      assert SnapOk(t.blocks, t.live, t.interns, t.marks[step.i]) && |t.marks[k].live| <= |t.marks[step.i].live|;
      assert s.live <= u.live;
    }
    forall i | 0 <= i < |s.live|
      ensures BytesOf(u.blocks, s.live[i]) == Owner(s.live[i], BytesOf(s.blocks, s.live[i]), steps + [step])
    {
      assert s.live[i] == t.live[i];
      assert step.WentBack? ==> u.live[i] == s.live[i];
    }
  }

  lemma {:induction false} HoldingAll(trace: seq<State>, steps: seq<Step>)
    requires Run(trace, steps) && steps != [] && steps[0] == Marked && KeepsMark(steps, |trace[0].marks|)
    ensures Holding(trace[0], trace[|steps|], steps)
    decreases |steps|
  {
    hide Holding, Next, Ok, Run;
    var n := |steps| - 1;
    RunPrefix(trace, steps, n);
    if n == 0 {
      HoldingMarked(trace[0], trace[1], steps);
    } else {
      HoldingAll(trace[..n + 1], steps[..n]);
      HoldingMore(trace[0], trace[n], steps[..n], steps[n], trace[n + 1]);
    }
  }

  lemma RunPrefix(trace: seq<State>, steps: seq<Step>, n: nat)
    requires Run(trace, steps) && n <= |steps|
    ensures Run(trace[..n + 1], steps[..n]) && trace[..n + 1][n] == trace[n] && trace[..n + 1][0] == trace[0]
    ensures n > 0 ==> steps[..n][0] == steps[0]
    ensures n < |steps| ==> Ok(trace[n]) && Ok(trace[n + 1]) && Next(trace[n], steps[n], trace[n + 1])
    ensures n + 1 == |steps| ==> steps == steps[..n] + [steps[n]]
  {
    hide Next, Ok;
    var t, p := trace[..n + 1], steps[..n];
    forall i | 0 <= i < n ensures Next(t[i], p[i], t[i + 1]) { assert Next(trace[i], steps[i], trace[i + 1]); }
  }

  lemma HoldingMarked(s: State, t: State, steps: seq<Step>)
    requires steps == [Marked] && Next(s, Marked, t)
    ensures Holding(s, t, steps)
  {
    hide BytesOf, Extents;
    forall i | 0 <= i < |s.live|
      ensures BytesOf(t.blocks, s.live[i]) == Owner(s.live[i], BytesOf(s.blocks, s.live[i]), steps)
    {
      assert Owner(s.live[i], BytesOf(s.blocks, s.live[i]), steps[..0]) == BytesOf(s.blocks, s.live[i]);
    }
  }

  /**
   Mark, then anything at all, then back to the mark: the arena has the allocations, interned
   texts and extents it had, and every allocation has its old bytes but for what its own
   owner wrote.
   */
  lemma MarkThenRewind(trace: seq<State>, steps: seq<Step>)
    requires Run(trace, steps) && |steps| >= 2 && steps[0] == Marked
    requires KeepsMark(steps[..|steps| - 1], |trace[0].marks|) && steps[|steps| - 1] == WentBack(|trace[0].marks|)
    ensures var s, t := trace[0], trace[|steps|];
            && t.live == s.live && t.interns == s.interns && Extents(t.blocks) == Extents(s.blocks)
            && t.marks == s.marks + [SnapOf(s)]
            && forall i :: 0 <= i < |s.live| ==>
                 BytesOf(t.blocks, s.live[i]) == Owner(s.live[i], BytesOf(s.blocks, s.live[i]), steps)
  {
    hide BytesOf, Ok, Next, Holding, Extents, Owner, Run, KeepsMark;
    var n := |steps| - 1;
    RunPrefix(trace, steps, n);
    HoldingAll(trace[..n + 1], steps[..n]);
    MarksStay(trace, steps, n);
    Returned(trace[0], trace[n], steps[..n], trace[n + 1]);
  }

  lemma Returned(s: State, t: State, steps: seq<Step>, u: State)
    requires Holding(s, t, steps) && Next(t, WentBack(|s.marks|), u)
             && t.marks[..|s.marks| + 1] == s.marks + [SnapOf(s)]
    ensures u.live == s.live && u.interns == s.interns && Extents(u.blocks) == Extents(s.blocks)
    ensures u.marks == s.marks + [SnapOf(s)]
    ensures forall i :: 0 <= i < |s.live| ==>
              BytesOf(u.blocks, s.live[i])
              == Owner(s.live[i], BytesOf(s.blocks, s.live[i]), steps + [WentBack(|s.marks|)])
  {
    hide BytesOf, Extents;
    assert (steps + [WentBack(|s.marks|)])[..|steps|] == steps;
    forall i | 0 <= i < |s.live|
      ensures BytesOf(u.blocks, s.live[i])
              == Owner(s.live[i], BytesOf(s.blocks, s.live[i]), steps + [WentBack(|s.marks|)])
    {
      assert u.live[i] == s.live[i];
    }
  }

  /** The marks taken before are still there. */
  lemma {:induction false} MarksStay(trace: seq<State>, steps: seq<Step>, n: nat)
    requires Run(trace, steps) && 0 < n <= |steps| && steps[0] == Marked && KeepsMark(steps[..n], |trace[0].marks|)
    ensures |trace[n].marks| > |trace[0].marks|
            && trace[n].marks[..|trace[0].marks| + 1] == trace[0].marks + [SnapOf(trace[0])]
    decreases n
  {
    hide BytesOf, Ok, Extents, Intact;
    assert Next(trace[n - 1], steps[n - 1], trace[n]);
    if n > 1 {
      assert forall m :: 0 <= m < n - 1 ==> steps[..n - 1][m] == steps[..n][m];
      MarksStay(trace, steps, n - 1);
      assert steps[..n][n - 1] == steps[n - 1];
    }
  }

  /** What nobody wrote to is untouched. */
  lemma {:induction false} OwnerSilent(a: Alloc, bytes: Bytes, steps: seq<Step>)
    requires forall n :: 0 <= n < |steps| && steps[n].Wrote? ==> steps[n].a != a
    ensures Owner(a, bytes, steps) == bytes
    decreases |steps|
  {
    if steps != [] { OwnerSilent(a, bytes, steps[..|steps| - 1]); }
  }
}
