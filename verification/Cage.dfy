/**
 The cage allocator: aligned first-fit over a list of free ranges of one reservation.

 Offsets are relative to the reservation.  The free list is a sequence; the engine links
 its nodes with pointers.
 */
module Cage {
  import opened Basics

  const SIZE_MAX: nat := 0xFFFF_FFFF_FFFF_FFFF

  datatype Range = Range(offset: nat, size: nat) {
    function End(): nat { offset + size }
  }

  ghost predicate In(list: seq<Range>, x: int) {
    exists i :: 0 <= i < |list| && list[i].offset <= x < list[i].End()
  }

  /** Sorted, disjoint, and with a gap between neighbours. */
  ghost predicate Ordered(list: seq<Range>) {
    && (forall i :: 0 <= i < |list| ==> list[i].size > 0)
    && (forall i, j :: 0 <= i < j < |list| ==> list[i].End() < list[j].offset)
  }

  // ---- an ordered list is determined by the offsets it covers ----

  lemma HeadIsLeast(a: seq<Range>, x: int)
    requires Ordered(a) && In(a, x)
    ensures a != [] && a[0].offset <= x
  {
  }

  lemma HeadIn(a: seq<Range>)
    requires Ordered(a) && a != []
    ensures In(a, a[0].offset) && !In(a, a[0].End())
    ensures forall x :: a[0].offset <= x < a[0].End() ==> In(a, x)
  {
  }

  lemma TailIn(a: seq<Range>, x: int)
    requires Ordered(a) && a != []
    ensures In(a[1..], x) <==> In(a, x) && x >= a[0].End()
  {
    if In(a, x) && x >= a[0].End() {
      var i :| 0 <= i < |a| && a[i].offset <= x < a[i].End();
      assert a[1..][i - 1] == a[i];
    }
    if In(a[1..], x) {
      var i :| 0 <= i < |a[1..]| && a[1..][i].offset <= x < a[1..][i].End();
      assert a[1..][i] == a[i + 1];
    }
  }

  /** Two free lists that cover the same offsets are the same list. */
  lemma {:induction false} Canonical(a: seq<Range>, b: seq<Range>)
    requires Ordered(a) && Ordered(b) && forall x :: In(a, x) <==> In(b, x)
    ensures a == b
    decreases |a|
  {
    if a == [] {
      if b != [] { HeadIn(b); }
    } else {
      HeadIn(a);
      HeadIsLeast(b, a[0].offset);
      HeadIn(b);
      HeadIsLeast(a, b[0].offset);
      assert a[0].offset == b[0].offset;
      assert In(a, b[0].End()) == In(b, a[0].End()) == false;
      assert a[0] == b[0];
      forall x ensures In(a[1..], x) <==> In(b[1..], x) {
        TailIn(a, x);
        TailIn(b, x);
      }
      Canonical(a[1..], b[1..]);
    }
  }

  // ---- pieces of a list ----

  lemma InConcat(a: seq<Range>, b: seq<Range>, x: int)
    ensures In(a + b, x) <==> In(a, x) || In(b, x)
  {
    if In(a, x) {
      var i :| 0 <= i < |a| && a[i].offset <= x < a[i].End();
      assert (a + b)[i] == a[i];
    }
    if In(b, x) {
      var i :| 0 <= i < |b| && b[i].offset <= x < b[i].End();
      assert (a + b)[|a| + i] == b[i];
    }
  }

  lemma OrderedConcat(a: seq<Range>, b: seq<Range>)
    requires Ordered(a) && Ordered(b) && forall i, j :: 0 <= i < |a| && 0 <= j < |b| ==> a[i].End() < b[j].offset
    ensures Ordered(a + b)
  {
  }

  /** The list with positions i to j replaced. */
  function Spliced(list: seq<Range>, i: nat, j: nat, mid: seq<Range>): seq<Range>
    requires i <= j <= |list|
  {
    list[..i] + mid + list[j..]
  }

  lemma SplicedOk(list: seq<Range>, i: nat, j: nat, mid: seq<Range>)
    requires Ordered(list) && Ordered(mid) && i <= j <= |list|
    requires forall k, m :: 0 <= k < i && 0 <= m < |mid| ==> list[k].End() < mid[m].offset
    requires forall k, m :: j <= k < |list| && 0 <= m < |mid| ==> mid[m].End() < list[k].offset
    ensures Ordered(Spliced(list, i, j, mid))
    ensures forall x :: In(Spliced(list, i, j, mid), x) <==> In(list[..i], x) || In(mid, x) || In(list[j..], x)
    ensures forall x :: In(list, x) <==> In(list[..i], x) || In(list[i..j], x) || In(list[j..], x)
  {
    OrderedConcat(list[..i], mid);
    OrderedConcat(list[..i] + mid, list[j..]);
    assert list == (list[..i] + list[i..j]) + list[j..];
    forall x ensures In(Spliced(list, i, j, mid), x) <==> In(list[..i], x) || In(mid, x) || In(list[j..], x) {
      InConcat(list[..i] + mid, list[j..], x);
      InConcat(list[..i], mid, x);
    }
    forall x ensures In(list, x) <==> In(list[..i], x) || In(list[i..j], x) || In(list[j..], x) {
      InConcat(list[..i] + list[i..j], list[j..], x);
      InConcat(list[..i], list[i..j], x);
    }
  }

  lemma InOne(r: Range, x: int)
    ensures In([r], x) <==> r.offset <= x < r.End()
  {
    if r.offset <= x < r.End() { assert [r][0].offset <= x < [r][0].End(); }
  }

  lemma EndNotIn(list: seq<Range>, j: nat)
    requires Ordered(list) && j < |list|
    ensures !In(list, list[j].End())
  {
  }

  // ---- alignment ----

  lemma Multiple(q: nat, align: nat)
    requires align > 0
    ensures q * align % align == 0
  {
    var m := q * align;
    var t := q - m / align;
    assert m == m / align * align + m % align;
    assert t * align == m % align by { Distribute(q, m / align, align); }
    if t >= 1 { AtLeast(t, align); } else if t <= -1 { AtLeast(-t, align); }
  }

  lemma Distribute(a: int, b: int, d: int)
    ensures (a - b) * d == a * d - b * d
  {
  }

  lemma AtLeast(t: int, d: int)
    requires t >= 1 && d >= 0
    ensures t * d >= d && (-t) * d <= -d
  {
  }

  /** size_align_up; None is its failure when the result does not fit a size_t. */
  function AlignUp(value: nat, align: nat): (r: Option<nat>)
    requires align > 0
  {
    var add := if value % align == 0 then 0 else align - value % align;
    if value > SIZE_MAX - add then None else Some(value + add)
  }

  /** The least multiple at or above the value, if any multiple there fits a size_t. */
  lemma AlignUpExact(value: nat, align: nat, t: nat)
    requires align > 0
    ensures var r := AlignUp(value, align);
            r.Some? ==> value <= r.value <= SIZE_MAX && r.value % align == 0
    ensures var r := AlignUp(value, align);
            value <= t <= SIZE_MAX && t % align == 0 ==> r.Some? && r.value <= t
  {
    var q, rem := value / align, value % align;
    assert value == q * align + rem;
    if rem != 0 {
      Distribute(q, -1, align);
      assert value + (align - rem) == (q + 1) * align;
      Multiple(q + 1, align);
    }
    if value <= t <= SIZE_MAX && t % align == 0 && rem != 0 {
      var p := t / align;
      assert t == p * align;
      Distribute(p, q, align);
      assert (p - q) * align >= rem;
      if p - q <= 0 { NotPositive(p - q, align); }
      AtLeast(p - q, align);
    }
  }

  lemma NotPositive(t: int, d: nat)
    requires t <= 0
    ensures t * d <= 0
  {
  }

  // ---- where an allocation may go ----

  /** An aligned start with `size` free bytes, none of whose addresses overflow. */
  ghost predicate Room(list: seq<Range>, base: nat, size: nat, align: nat, start: nat)
    requires align > 0
  {
    && (base + start) % align == 0 && base + start <= SIZE_MAX
    && forall x :: start <= x < start + size ==> In(list, x)
  }

  /** Neighbours never touch, so room is always inside one range. */
  lemma RoomInRange(list: seq<Range>, base: nat, size: nat, align: nat, start: nat) returns (j: nat)
    requires align > 0 && size > 0 && Ordered(list) && Room(list, base, size, align, start)
    ensures j < |list| && list[j].offset <= start && start + size <= list[j].End()
  {
    assert In(list, start);
    j :| 0 <= j < |list| && list[j].offset <= start < list[j].End();
    EndNotIn(list, j);
  }

  /** Nothing before position i has room. */
  ghost predicate NoneBefore(list: seq<Range>, i: nat, base: nat, size: nat, align: nat)
    requires i <= |list| && align > 0
  {
    forall j: nat, t: nat :: j < i && list[j].offset <= t && t + size <= list[j].End() ==> !Aligned(base, align, t)
  }

  ghost predicate Aligned(base: nat, align: nat, t: nat)
    requires align > 0
  {
    (base + t) % align == 0 && base + t <= SIZE_MAX
  }

  lemma NoRoom(list: seq<Range>, base: nat, size: nat, align: nat)
    requires align > 0 && size > 0 && Ordered(list) && NoneBefore(list, |list|, base, size, align)
    ensures forall t: nat :: !Room(list, base, size, align, t)
  {
    forall t: nat ensures !Room(list, base, size, align, t) {
      if Room(list, base, size, align, t) {
        var j := RoomInRange(list, base, size, align, t);
        assert Aligned(base, align, t);
      }
    }
  }

  /** Past the last aligned address there is no room in this or any later range. */
  lemma NoRoomFrom(list: seq<Range>, i: nat, base: nat, size: nat, align: nat)
    requires align > 0 && Ordered(list) && i < |list| && NoneBefore(list, i, base, size, align)
    requires base > SIZE_MAX - list[i].offset || AlignUp(base + list[i].offset, align).None?
    ensures NoneBefore(list, |list|, base, size, align)
  {
    forall j: nat, t: nat | j < |list| && list[j].offset <= t && t + size <= list[j].End()
      ensures !Aligned(base, align, t)
    {
      if j >= i {
        AlignUpExact(base + list[i].offset, align, base + t);
        assert list[i].offset <= list[j].offset;
      }
    }
  }

  lemma NotHere(list: seq<Range>, i: nat, base: nat, size: nat, align: nat, address: nat)
    requires align > 0 && i < |list| && NoneBefore(list, i, base, size, align)
    requires AlignUp(base + list[i].offset, align) == Some(address) && address - base + size > list[i].End()
    ensures NoneBefore(list, i + 1, base, size, align)
  {
    forall j: nat, t: nat | j < i + 1 && list[j].offset <= t && t + size <= list[j].End()
      ensures !Aligned(base, align, t)
    {
      if j == i { AlignUpExact(base + list[i].offset, align, base + t); }
    }
  }

  /** The first range with room has it at the lowest address there is. */
  lemma LowestRoom(list: seq<Range>, i: nat, base: nat, size: nat, align: nat, start: nat)
    requires align > 0 && size > 0 && Ordered(list) && i < |list| && NoneBefore(list, i, base, size, align)
    requires AlignUp(base + list[i].offset, align) == Some(base + start) && start + size <= list[i].End()
    ensures Room(list, base, size, align, start)
    ensures forall t: nat :: Room(list, base, size, align, t) ==> start <= t
  {
    AlignUpExact(base + list[i].offset, align, 0);
    forall x | start <= x < start + size ensures In(list, x) {
      assert list[i].offset <= x < list[i].End();
    }
    forall t: nat | Room(list, base, size, align, t) ensures start <= t {
      var j := RoomInRange(list, base, size, align, t);
      assert Aligned(base, align, t);
      if j == i { AlignUpExact(base + list[i].offset, align, base + t); }
    }
  }

  // ---- taking and putting back ----

  /** What is left of a range once [start, start + size) is taken from it. */
  function Pieces(r: Range, start: nat, size: nat): seq<Range>
    requires r.offset <= start && start + size <= r.End()
  {
    var prefix := start - r.offset;
    var suffix := r.size - prefix - size;
    (if prefix > 0 then [Range(r.offset, prefix)] else []) + (if suffix > 0 then [Range(start + size, suffix)] else [])
  }

  lemma PiecesIn(r: Range, start: nat, size: nat, x: int)
    requires r.offset <= start && start + size <= r.End()
    ensures In(Pieces(r, start, size), x) <==> r.offset <= x < r.End() && !(start <= x < start + size)
  {
    var prefix := start - r.offset;
    var suffix := r.size - prefix - size;
    InConcat(if prefix > 0 then [Range(r.offset, prefix)] else [], if suffix > 0 then [Range(start + size, suffix)]
             else [], x);
    InOne(Range(r.offset, prefix), x);
    InOne(Range(start + size, suffix), x);
  }

  lemma InElsewhere(list: seq<Range>, i: nat, x: int)
    requires Ordered(list) && i < |list| && list[i].offset <= x < list[i].End()
    ensures !In(list[..i], x) && !In(list[i + 1..], x)
  {
  }

  lemma TakeOk(list: seq<Range>, i: nat, start: nat, size: nat)
    requires Ordered(list) && i < |list| && size > 0 && list[i].offset <= start && start + size <= list[i].End()
    ensures var r := Spliced(list, i, i + 1, Pieces(list[i], start, size));
            Ordered(r) && forall x :: In(r, x) <==> In(list, x) && !(start <= x < start + size)
  {
    var mid := Pieces(list[i], start, size);
    SplicedOk(list, i, i + 1, mid);
    assert list[i..i + 1] == [list[i]];
    forall x ensures In(Spliced(list, i, i + 1, mid), x) <==> In(list, x) && !(start <= x < start + size) {
      PiecesIn(list[i], start, size, x);
      InOne(list[i], x);
      if list[i].offset <= x < list[i].End() { InElsewhere(list, i, x); }
    }
  }

  /** Where a freed block goes: after every range that starts before it. */
  ghost predicate SplitAt(list: seq<Range>, k: nat, offset: nat) {
    && k <= |list|
    && (forall j :: 0 <= j < k ==> list[j].offset < offset)
    && (forall j :: k <= j < |list| ==> list[j].offset >= offset)
  }

  ghost predicate Clear(list: seq<Range>, offset: nat, size: nat) {
    forall x :: offset <= x < offset + size ==> !In(list, x)
  }

  lemma ClearSplit(list: seq<Range>, k: nat, offset: nat, size: nat)
    requires Ordered(list) && SplitAt(list, k, offset) && size > 0 && Clear(list, offset, size)
    ensures forall j :: 0 <= j < k ==> list[j].End() <= offset
    ensures forall j :: k <= j < |list| ==> offset + size <= list[j].offset
  {
    forall j | 0 <= j < k ensures list[j].End() <= offset {
      assert !In(list, offset);
    }
    forall j | k <= j < |list| ensures offset + size <= list[j].offset {
      if list[j].offset < offset + size {
        assert list[j].offset <= list[j].offset < list[j].End();
        assert In(list, list[j].offset);
      }
    }
  }

  predicate TouchesLeft(list: seq<Range>, k: nat, offset: nat)
    requires k <= |list|
  {
    k > 0 && list[k - 1].End() == offset
  }

  predicate TouchesRight(list: seq<Range>, k: nat, end: nat)
    requires k <= |list|
  {
    k < |list| && end == list[k].offset
  }

  /** The freed block joined with the neighbours it touches. */
  function Joined(list: seq<Range>, k: nat, offset: nat, size: nat): (r: Range)
    requires k <= |list|
  {
    var left := TouchesLeft(list, k, offset);
    var right := TouchesRight(list, k, offset + size);
    Range(if left then list[k - 1].offset else offset,
          (if left then list[k - 1].size else 0) + size + (if right then list[k].size else 0))
  }

  function Merged(list: seq<Range>, k: nat, offset: nat, size: nat): seq<Range>
    requires k <= |list|
  {
    Spliced(list,
            if TouchesLeft(list, k, offset) then k - 1 else k,
            if TouchesRight(list, k, offset + size) then k + 1 else k,
            [Joined(list, k, offset, size)])
  }

  lemma SliceSplit(list: seq<Range>, i: nat, k: nat, j: nat)
    requires i <= k <= j <= |list|
    ensures list[i..j] == list[i..k] + list[k..j]
  {
  }

  lemma JoinedIn(list: seq<Range>, k: nat, offset: nat, size: nat, x: int)
    requires k <= |list| && size > 0
    ensures var i := if TouchesLeft(list, k, offset) then k - 1 else k;
            var j := if TouchesRight(list, k, offset + size) then k + 1 else k;
            In([Joined(list, k, offset, size)], x) <==> In(list[i..j], x) || offset <= x < offset + size
  {
    var left := TouchesLeft(list, k, offset);
    var right := TouchesRight(list, k, offset + size);
    var i, j := if left then k - 1 else k, if right then k + 1 else k;
    InOne(Joined(list, k, offset, size), x);
    SliceSplit(list, i, k, j);
    InConcat(list[i..k], list[k..j], x);
    if left {
      assert list[i..k] == [list[k - 1]];
      InOne(list[k - 1], x);
    }
    if right {
      assert list[k..j] == [list[k]];
      InOne(list[k], x);
    }
  }

  lemma JoinedApart(list: seq<Range>, k: nat, offset: nat, size: nat)
    requires Ordered(list) && SplitAt(list, k, offset) && size > 0 && Clear(list, offset, size)
    ensures var i := if TouchesLeft(list, k, offset) then k - 1 else k;
            var j := if TouchesRight(list, k, offset + size) then k + 1 else k;
            var r := Joined(list, k, offset, size);
            && (forall m :: 0 <= m < i ==> list[m].End() < r.offset)
            && (forall m :: j <= m < |list| ==> r.End() < list[m].offset)
  {
    ClearSplit(list, k, offset, size);
  }

  lemma PutOk(list: seq<Range>, k: nat, offset: nat, size: nat)
    requires Ordered(list) && SplitAt(list, k, offset) && size > 0 && Clear(list, offset, size)
    ensures var r := Merged(list, k, offset, size);
            Ordered(r) && forall x :: In(r, x) <==> In(list, x) || offset <= x < offset + size
  {
    JoinedApart(list, k, offset, size);
    var i := if TouchesLeft(list, k, offset) then k - 1 else k;
    var j := if TouchesRight(list, k, offset + size) then k + 1 else k;
    hide In;
    SplicedOk(list, i, j, [Joined(list, k, offset, size)]);
    forall x ensures In(Merged(list, k, offset, size), x) <==> In(list, x) || offset <= x < offset + size {
      JoinedIn(list, k, offset, size, x);
    }
  }

  // ---- the complement of the outstanding blocks ----

  ghost predicate Taken(blocks: set<Range>, x: int) {
    exists b :: b in blocks && b.offset <= x < b.End()
  }

  ghost predicate Apart(b: Range, c: Range) {
    b.End() <= c.offset || c.End() <= b.offset
  }

  ghost predicate BlocksOk(blocks: set<Range>, lo: nat, hi: nat) {
    && (forall b :: b in blocks ==> b.size > 0 && lo <= b.offset && b.End() <= hi)
    && (forall b, c :: b in blocks && c in blocks && b != c ==> Apart(b, c))
  }

  ghost predicate Complement(list: seq<Range>, blocks: set<Range>, lo: nat, hi: nat) {
    && Ordered(list)
    && BlocksOk(blocks, lo, hi)
    && forall x :: In(list, x) <==> lo <= x < hi && !Taken(blocks, x)
  }

  /** The free list is a function of the outstanding blocks: no history shows in it. */
  lemma Determined(a: seq<Range>, b: seq<Range>, blocks: set<Range>, lo: nat, hi: nat)
    requires Complement(a, blocks, lo, hi) && Complement(b, blocks, lo, hi)
    ensures a == b
  {
    Canonical(a, b);
  }

  lemma OneRange(lo: nat, hi: nat)
    requires lo < hi
    ensures Complement([Range(lo, hi - lo)], {}, lo, hi)
  {
    forall x ensures In([Range(lo, hi - lo)], x) <==> lo <= x < hi && !Taken({}, x) { InOne(Range(lo, hi - lo), x); }
  }

  /** With nothing outstanding the list is the one range it started as. */
  lemma NothingTaken(list: seq<Range>, lo: nat, hi: nat)
    requires lo < hi && Complement(list, {}, lo, hi)
    ensures list == [Range(lo, hi - lo)]
  {
    OneRange(lo, hi);
    Determined(list, [Range(lo, hi - lo)], {}, lo, hi);
  }

  lemma TakenAdd(blocks: set<Range>, b: Range, x: int)
    ensures Taken(blocks + {b}, x) <==> Taken(blocks, x) || b.offset <= x < b.End()
  {
    if b.offset <= x < b.End() { assert b in blocks + {b}; }
    if Taken(blocks, x) {
      var c :| c in blocks && c.offset <= x < c.End();
      assert c in blocks + {b};
    }
  }

  lemma TakeComplement(list: seq<Range>, after: seq<Range>, blocks: set<Range>, b: Range, lo: nat, hi: nat)
    requires Complement(list, blocks, lo, hi) && b.size > 0 && Ordered(after)
    requires forall x :: b.offset <= x < b.End() ==> In(list, x)
    requires forall x :: In(after, x) <==> In(list, x) && !(b.offset <= x < b.End())
    ensures b !in blocks && Complement(after, blocks + {b}, lo, hi)
  {
    assert In(list, b.offset) && In(list, b.End() - 1);
    forall c | c in blocks ensures c != b && Apart(b, c) {
      assert !Taken(blocks, b.offset);
      if !Apart(b, c) {
        var x := if b.offset < c.offset then c.offset else b.offset;
        assert c.offset <= x < c.End();
        assert Taken(blocks, x);
      }
    }
    forall x ensures In(after, x) <==> lo <= x < hi && !Taken(blocks + {b}, x) { TakenAdd(blocks, b, x); }
  }

  lemma PutComplement(list: seq<Range>, after: seq<Range>, blocks: set<Range>, b: Range, lo: nat, hi: nat)
    requires Complement(list, blocks, lo, hi) && b in blocks && Ordered(after)
    requires forall x :: In(after, x) <==> In(list, x) || b.offset <= x < b.End()
    ensures Complement(after, blocks - {b}, lo, hi)
  {
    assert blocks == (blocks - {b}) + {b};
    forall x ensures In(after, x) <==> lo <= x < hi && !Taken(blocks - {b}, x) {
      TakenAdd(blocks - {b}, b, x);
      assert b.offset <= x < b.End() ==> forall c :: c in blocks - {b} ==> Apart(b, c);
    }
  }

  lemma BlockClear(list: seq<Range>, blocks: set<Range>, b: Range, lo: nat, hi: nat)
    requires Complement(list, blocks, lo, hi) && b in blocks
    ensures Clear(list, b.offset, b.size)
  {
    forall x | b.offset <= x < b.offset + b.size ensures !In(list, x) {
      assert b.offset <= x < b.End();
      assert Taken(blocks, x);
    }
  }

  /** The relinking each branch of the allocator does, as one splice. */
  lemma TakeForms(list: seq<Range>, i: nat, start: nat, size: nat)
    requires i < |list| && list[i].offset <= start && start + size <= list[i].End()
    ensures var prefix := start - list[i].offset; var suffix := list[i].size - prefix - size;
            Spliced(list, i, i + 1, Pieces(list[i], start, size)) ==
            if prefix > 0 && suffix > 0
            then list[..i] + [Range(list[i].offset, prefix), Range(start + size, suffix)] + list[i + 1..]
            else if prefix > 0 then list[i := Range(list[i].offset, prefix)]
            else if suffix > 0 then list[i := Range(start + size, suffix)]
            else list[..i] + list[i + 1..]
  {
  }

  lemma PutForms(list: seq<Range>, k: nat, offset: nat, size: nat)
    requires k <= |list|
    ensures Merged(list, k, offset, size) ==
            if TouchesLeft(list, k, offset) && TouchesRight(list, k, offset + size) then
              list[..k - 1] + [Range(list[k - 1].offset, list[k - 1].size + size + list[k].size)] + list[k + 1..]
            else if TouchesLeft(list, k, offset) then list[k - 1 := Range(list[k - 1].offset, list[k - 1].size + size)]
            else if TouchesRight(list, k, offset + size) then list[k := Range(offset, list[k].size + size)]
            else list[..k] + [Range(offset, size)] + list[k..]
  {
  }

  /** The walk of cage_take_locked: the position of the first range with room and where in it. */
  method FirstFit(list: seq<Range>, base: nat, size: nat, align: nat) returns (i: nat, start: nat)
    requires Ordered(list) && size > 0 && align > 0
    ensures i <= |list|
    ensures i == |list| ==> forall t: nat :: !Room(list, base, size, align, t)
    ensures i < |list| ==> list[i].offset <= start && start + size <= list[i].End()
    ensures i < |list| ==> Room(list, base, size, align, start)
    ensures i < |list| ==> forall t: nat :: Room(list, base, size, align, t) ==> start <= t
  {
    hide Ordered, In, Room, Aligned, AlignUp;
    i, start := 0, 0;
    while i < |list|
      invariant i <= |list| && NoneBefore(list, i, base, size, align)
    {
      var range := list[i];
      if base > SIZE_MAX - range.offset || AlignUp(base + range.offset, align).None? {
        NoRoomFrom(list, i, base, size, align);
        NoRoom(list, base, size, align);
        return |list|, 0;
      }
      var address := AlignUp(base + range.offset, align).value;
      AlignUpExact(base + range.offset, align, 0);
      start := address - base;
      if start < range.offset || start - range.offset > range.size {
        NotHere(list, i, base, size, align, address);
        i := i + 1;
        continue;
      }
      if size > range.size - (start - range.offset) {
        NotHere(list, i, base, size, align, address);
        i := i + 1;
        continue;
      }
      LowestRoom(list, i, base, size, align, start);
      return;
    }
    NoRoom(list, base, size, align);
  }

  /** The split of cage_take_locked; only a split in two needs a list node. */
  method Carve(list: seq<Range>, i: nat, start: nat, size: nat, node: bool) returns (after: seq<Range>, carved: bool)
    requires i < |list| && list[i].offset <= start && start + size <= list[i].End()
    ensures carved ==> after == Spliced(list, i, i + 1, Pieces(list[i], start, size))
    ensures !carved ==> after == list && !node && |Pieces(list[i], start, size)| == 2
  {
    var range := list[i];
    var prefix := start - range.offset;
    var suffix := range.size - prefix - size;
    TakeForms(list, i, start, size);
    hide Spliced;
    if prefix > 0 && suffix > 0 {
      if !node { return list, false; }
      return list[..i] + [Range(range.offset, prefix), Range(start + size, suffix)] + list[i + 1..], true;
    }
    if prefix > 0 { return list[i := Range(range.offset, prefix)], true; }
    if suffix > 0 { return list[i := Range(start + size, suffix)], true; }
    return list[..i] + list[i + 1..], true;
  }

  /** The tail of cage_put_locked: extend a neighbour, join two, or link a new node. */
  method Relink(list: seq<Range>, k: nat, offset: nat, size: nat, node: bool) returns (after: seq<Range>, linked: bool)
    requires k <= |list|
    ensures linked ==> after == Merged(list, k, offset, size)
    ensures !linked ==> after == list && !node && !TouchesLeft(list, k, offset) && !TouchesRight(list, k, offset + size)
  {
    PutForms(list, k, offset, size);
    hide Merged;
    if k > 0 && list[k - 1].offset + list[k - 1].size == offset {
      var prev := list[k - 1].(size := list[k - 1].size + size);
      if k < |list| && prev.offset + prev.size == list[k].offset {
        return list[..k - 1] + [prev.(size := prev.size + list[k].size)] + list[k + 1..], true;
      }
      return list[k - 1 := prev], true;
    }
    if k < |list| && offset + size == list[k].offset {
      return list[k := Range(offset, list[k].size + size)], true;
    }
    if !node { return list, false; }
    return list[..k] + [Range(offset, size)] + list[k..], true;
  }

  /** One reservation.  The page at its start is never handed out. */
  class Allocator {
    const base: nat
    const reserved: nat
    const page: nat
    var ranges: seq<Range>
    ghost var blocks: set<Range>

    ghost predicate Valid()
      reads this
    {
      && 0 < page < reserved && 0 < base && base + reserved <= SIZE_MAX
      && Complement(ranges, blocks, page, reserved)
    }

    constructor (base: nat, reserved: nat, page: nat)
      requires 0 < page < reserved && 0 < base && base + reserved <= SIZE_MAX
      ensures Valid() && blocks == {} && ranges == [Range(page, reserved - page)]
      ensures this.base == base && this.reserved == reserved && this.page == page
    {
      this.base, this.reserved, this.page := base, reserved, page;
      ranges, blocks := [Range(page, reserved - page)], {};
      new;
      OneRange(page, reserved);
    }

    /** cage_take_locked; `node` is whether a list node can be allocated. */
    method TakeLocked(size: nat, align: nat, node: bool) returns (r: Option<nat>)
      requires Valid() && size > 0 && align > 0
      modifies this
      ensures Valid()
      ensures r.None? ==> ranges == old(ranges) && blocks == old(blocks)
      ensures r.None? ==> !node || forall t: nat :: !Room(old(ranges), base, size, align, t)
      ensures r.Some? ==> r.value >= base && Room(old(ranges), base, size, align, r.value - base)
      ensures r.Some? ==> forall t: nat :: Room(old(ranges), base, size, align, t) ==> r.value - base <= t
      ensures r.Some? ==> var b := Range(r.value - base, size); b !in old(blocks) && blocks == old(blocks) + {b}
    {
      hide Taken, BlocksOk, Spliced, Pieces;
      var i, start := FirstFit(ranges, base, size, align);
      if i == |ranges| { return None; }
      var after, carved := Carve(ranges, i, start, size, node);
      if !carved { return None; }
      TakeOk(ranges, i, start, size);
      TakeComplement(ranges, after, blocks, Range(start, size), page, reserved);
      hide In, Ordered;
      ranges := after;
      blocks := blocks + {Range(start, size)};
      return Some(base + start);
    }

    /** The place in the list where a freed block belongs. */
    method Position(offset: nat) returns (k: nat)
      requires Valid()
      ensures k <= |ranges| && SplitAt(ranges, k, offset)
    {
      k := 0;
      while k < |ranges| && ranges[k].offset < offset
        invariant k <= |ranges| && forall j :: 0 <= j < k ==> ranges[j].offset < offset
      {
        k := k + 1;
      }
    }

    /** cage_put_locked; a block that needs a list node and gets none stays outstanding for good. */
    method PutLocked(offset: nat, size: nat, node: bool) returns (ghost kept: bool)
      requires Valid() && Range(offset, size) in blocks
      modifies this
      ensures Valid() && (node ==> kept)
      ensures blocks == if kept then old(blocks) - {Range(offset, size)} else old(blocks)
      ensures !kept ==> ranges == old(ranges)
    {
      assert Range(offset, size).size > 0;
      BlockClear(ranges, blocks, Range(offset, size), page, reserved);
      hide In, Taken, BlocksOk, Clear, Ordered, SplitAt;
      var k := Position(offset);
      PutOk(ranges, k, offset, size);
      hide Merged;
      var after, linked := Relink(ranges, k, offset, size, node);
      if !linked { return false; }
      ranges := after;
      PutComplement(old(ranges), ranges, blocks, Range(offset, size), page, reserved);
      blocks := blocks - {Range(offset, size)};
      return true;
    }

    /** cage_take: whole pages, aligned, committed on request; `commitOk` is whether that succeeds. */
    method Take(size: nat, align: nat, commit: bool, commitOk: bool, node: bool) returns (r: Option<nat>)
      requires Valid()
      modifies this
      ensures Valid()
      ensures r.Some? ==> AlignUp(size, page).Some? && r.value >= base && r.value % Alignment(align) == 0
      ensures r.Some? ==> var b := Range(r.value - base, AlignUp(size, page).value);
                b.size >= size > 0 && b !in old(blocks) && blocks == old(blocks) + {b}
      ensures r.None? && node ==> ranges == old(ranges) && blocks == old(blocks)
      ensures r.None? && node && (commit ==> commitOk) ==>
                || size == 0 || AlignUp(size, page).None? || !PowerOfTwo(Alignment(align))
                || forall t: nat :: !Room(old(ranges), base, AlignUp(size, page).value, Alignment(align), t)
    {
      if size == 0 { return None; }
      AlignUpExact(size, page, 0);
      if AlignUp(size, page).None? { return None; }
      var rounded := AlignUp(size, page).value;
      var align := Alignment(align);
      if !PowerOfTwo(align) { return None; }
      r := TakeLocked(rounded, align, node);
      if r.Some? && commit && !commitOk {
        ghost var kept := PutLocked(r.value - base, rounded, node);
        if kept {
          assert blocks == old(blocks);
          Determined(ranges, old(ranges), blocks, page, reserved);
        }
        r := None;
      }
    }

    function Alignment(align: nat): nat {
      if align < page then page else align
    }

    ghost predicate Freeable(p: nat, size: nat)
      reads this
      requires page > 0
    {
      p == 0 || size == 0 || !Contains(p) ||
      (AlignUp(size, page).Some? && Range(p - base, AlignUp(size, page).value) in blocks)
    }

    /** ant_cage_contains */
    predicate Contains(p: nat) {
      base != 0 && p >= base && p - base < reserved
    }

    /** ant_cage_free; `decommitOk` is whether the pages could be given back. */
    method Free(p: nat, size: nat, decommitOk: bool, node: bool)
      requires Valid() && Freeable(p, size)
      modifies this
      ensures Valid()
      ensures size != 0 && Contains(p) && decommitOk && node ==>
                AlignUp(size, page).Some? && blocks == old(blocks) - {Range(p - base, AlignUp(size, page).value)}
      ensures size == 0 || !Contains(p) || !decommitOk ==> blocks == old(blocks) && ranges == old(ranges)
    {
      if p == 0 || size == 0 || !Contains(p) { return; }
      if AlignUp(size, page).None? { return; }
      var rounded := AlignUp(size, page).value;
      var offset := p - base;
      if offset > reserved || rounded > reserved - offset { return; }
      if decommitOk { ghost var kept := PutLocked(offset, rounded, node); }
    }

    /** A block taken and freed leaves the list as it was, whatever was merged or split. */
    method TakeThenFree(size: nat, align: nat)
      requires Valid()
      modifies this
      ensures Valid() && ranges == old(ranges) && blocks == old(blocks)
    {
      var r := Take(size, align, true, true, true);
      if r.Some? {
        assert Contains(r.value);
        Free(r.value, size, true, true);
        assert blocks == old(blocks);
        Determined(ranges, old(ranges), blocks, page, reserved);
      }
    }

    /** Freeing all blocks, in whatever order, restores the single initial range. */
    method FreeAll(order: seq<Range>)
      requires Valid() && Distinct(order) && forall b :: b in blocks <==> b in order
      modifies this
      ensures Valid() && blocks == {} && ranges == [Range(page, reserved - page)]
    {
      hide Complement;
      var i := 0;
      while i < |order|
        invariant i <= |order| && Valid()
        invariant forall b :: b in blocks <==> b in order[i..]
      {
        assert order[i] in order[i..];
        ghost var kept := PutLocked(order[i].offset, order[i].size, true);
        assert order[i..] == [order[i]] + order[i + 1..];
        assert order[i] !in order[i + 1..];
        i := i + 1;
      }
      assert order[i..] == [];
      assert blocks == {};
      AllFreed();
    }

    /** Once every block is free the list is the single range it started as. */
    lemma AllFreed()
      requires Valid() && blocks == {}
      ensures ranges == [Range(page, reserved - page)]
    {
      NothingTaken(ranges, page, reserved);
    }
  }
}
