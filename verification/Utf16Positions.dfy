/**
 Finding positions in strings: a one-entry resume cache and an eight-way checkpoint index.

 Both remember byte/unit pairs for strings by address.  Addresses are only meaningful
 until the next sweep of the string heap, which starts a new epoch.  The methods answer
 what a scan from the first byte would answer, whatever was asked before.
 */
module Utf16Positions {
  import opened Basics
  import opened Utf16Scan

  const CHUNK: nat := 64
  const WAYS: nat := 8
  const MIN_BYTES: nat := 256
  const MAX_BYTES: nat := 0xFFFF_FFFF
  const NOT_FOUND: int := 0xFFFF_FFFF

  type Ptr = nat

  /** The string heap: contents by address, and the strings flagged as ASCII. */
  datatype World = World(epoch: nat, mem: map<Ptr, Bytes>, ascii: set<Ptr>)

  ghost predicate WorldOk(w: World) {
    0 !in w.mem && forall p, i :: p in w.ascii && p in w.mem && 0 <= i < |w.mem[p]| ==> w.mem[p][i] < 0x80
  }

  /** Within an epoch strings do not change; a new epoch may hold anything anywhere. */
  ghost predicate WorldStep(w: World, w': World) {
    w'.epoch > w.epoch || (w'.epoch == w.epoch && forall p :: p in w.mem ==> p in w'.mem && w'.mem[p] == w.mem[p])
  }

  datatype Cache = Cache(epoch: nat, str: Ptr, bytePos: nat, utf16Pos: nat)
  datatype Entry = Entry(str: Ptr, byteLen: nat, points: Option<seq<Point>>)
  const NO_ENTRY := Entry(0, 0, None)

  ghost predicate CacheOk(w: World, c: Cache) {
    c.str != 0 ==> c.str in w.mem && Walk(w.mem[c.str], 0, 0, c.bytePos, c.utf16Pos)
  }

  /** Checkpoint k is the character that covers or starts unit 64k. */
  ghost predicate PointOk(s: Bytes, len: nat, k: nat, p: Point) {
    && Walk(s, 0, 0, p.byte, p.unit) && p.byte <= len
    && (p.unit == CHUNK * k || (k > 0 && p.unit == CHUNK * k - 1))
  }

  /** All checkpoints are there: the string has at most 64 units per checkpoint. */
  ghost predicate IndexOk(s: Bytes, len: nat, points: seq<Point>) {
    && len <= |s| && points != [] && points[0] == Point(0, 0)
    && (forall k :: 0 <= k < |points| ==> PointOk(s, len, k, points[k]))
    && (forall b: nat, u: nat :: Walk(s, 0, 0, b, u) && b <= len ==> u <= CHUNK * |points|)
    && |points| <= len / CHUNK + 2
  }

  ghost predicate EntryOk(w: World, e: Entry) {
    e.points.Some? ==> e.str in w.mem && IndexOk(w.mem[e.str], e.byteLen, e.points.value)
  }

  /** utf16_index_build */
  method IndexBuild(s: Bytes, len: nat) returns (points: seq<Point>)
    requires len <= |s| && Fits(s, 0, len)
    ensures IndexOk(s, len, points)
  {
    hide CodePoint;
    points := [Point(0, 0)];
    var b: nat, u: nat := 0, 0;
    while b < len
      invariant b <= len && Fits(s, b, len) && Walk(s, 0, 0, b, u) && u <= b && u <= CHUNK * |points|
      invariant points != [] && points[0] == Point(0, 0) && |points| <= len / CHUNK + 2
      invariant forall k :: 0 <= k < |points| ==> PointOk(s, len, k, points[k])
      decreases len - b
    {
      FitsLen(s, b, len);
      if u + Width(s[b]) > |points| * CHUNK {
        Room(|points|, u, b, len);
        points := points + [Point(b, u)];
      }
      WalkStep(s, b, u);
      WalkTrans(s, 0, 0, b, u, b + Len(s[b]), u + Width(s[b]));
      b, u := b + Len(s[b]), u + Width(s[b]);
    }
    forall p: nat, v: nat | Walk(s, 0, 0, p, v) && p <= len ensures v <= CHUNK * |points| {
      WalkBetween(s, 0, 0, p, v, b, u);
      WalkOrder(s, p, v, b, u);
    }
  }

  /** Another checkpoint always fits the array that was allocated. */
  lemma Room(n: nat, u: nat, b: nat, len: nat)
    requires u + 2 > n * CHUNK && u <= b < len
    ensures n + 1 <= len / CHUNK + 2
  {
  }

  /** utf16_index_seek: the checkpoint for the target, unless the cursor is already past it. */
  method IndexSeek(s: Bytes, len: nat, points: seq<Point>, at: Point, target: nat) returns (r: Point)
    requires IndexOk(s, len, points) && Walk(s, 0, 0, at.byte, at.unit) && at.byte <= len && at.unit <= target
    ensures Walk(s, 0, 0, r.byte, r.unit) && r.byte <= len && at.unit <= r.unit <= target
    ensures target < CHUNK * |points| ==> target - r.unit <= CHUNK
    ensures forall b: nat, u: nat :: Walk(s, 0, 0, b, u) && b <= len ==>
              (if u < target then u else target) - r.unit <= CHUNK + 1
  {
    hide Walk;
    var point := PickPoint(points, target);
    assert PointOk(s, len, point, points[point]);
    r := if points[point].unit <= at.unit then at else points[point];
  }

  method PickPoint(points: seq<Point>, target: nat) returns (point: nat)
    requires points != [] && points[0].unit <= target
    ensures point < |points| && points[point].unit <= target
    ensures var first := if target / CHUNK >= |points| then |points| - 1 else target / CHUNK;
            point <= first && (point < first ==> points[first].unit > target)
  {
    point := target / CHUNK;
    if point >= |points| { point := |points| - 1; }
    ghost var first := point;
    while point > 0 && points[point].unit > target
      invariant point <= first && (point < first ==> points[first].unit > target)
    {
      point := point - 1;
    }
  }

  /** r is the code point that starts at unit index, the low half inside a pair, or the mark for neither. */
  ghost predicate IsPointAt(s: Bytes, len: nat, index: nat, r: int)
    requires len <= |s| && Fits(s, 0, len)
  {
    && (|Utf16(s, 0, len)| <= index ==> r == NOT_FOUND)
    && (forall b: nat :: b < len && Walk(s, 0, 0, b, index) && b + Len(s[b]) <= len ==> r == CodePoint(s, b))
    && (forall b: nat, u: nat :: b < len && Walk(s, 0, 0, b, u) && u + 1 == index && Width(s[b]) == 2 ==>
          index < |Utf16(s, 0, len)| && r == Utf16(s, 0, len)[index])
  }

  /** Half a pair, whole characters and half a pair make up the units from start to end. */
  ghost predicate IsRange(s: Bytes, len: nat, start: nat, end: nat, byteStart: nat, byteEnd: nat, prefix: int,
                          suffix: int)
    requires len <= |s| && Fits(s, 0, len)
  {
    && byteStart <= byteEnd <= len && Fits(s, byteStart, byteEnd)
    && if start >= end then byteStart == 0 == byteEnd && prefix == 0 == suffix
       else
         var u := Utf16(s, 0, len);
         Half(prefix) + Utf16(s, byteStart, byteEnd) + Half(suffix) == u[Min(start, |u|)..Min(end, |u|)]
  }

  /** Index is at a four-byte character that spells a code point two or three bytes would do for. */
  ghost predicate Overlong(s: Bytes, len: nat, index: nat)
    requires len <= |s|
  {
    exists b: nat ::
      b < len && Walk(s, 0, 0, b, index) && b + Len(s[b]) <= len && Width(s[b]) == 2 && CodePoint(s, b) < 0x10000
  }

  /** The code unit at index; 32-bit subtraction wraps for an overlong character, which leaves bit 22 set. */
  ghost function UnitOrOverlong(s: Bytes, len: nat, index: nat): int
    requires len <= |s| && Fits(s, 0, len)
  {
    var u := Utf16(s, 0, len);
    if index >= |u| then NOT_FOUND else u[index] + if Overlong(s, len, index) then 0x40_0000 else 0
  }

  /** U+0000 spelled in four bytes: the answer is no code unit at all. */
  lemma OverlongAnswer(s: Bytes)
    requires s == [0xF0, 0x80, 0x80, 0x80]
    ensures Fits(s, 0, 4) && UnitOrOverlong(s, 4, 0) == 0x40_D7C0
  {
    assert Walk(s, 0, 0, 0, 0) && CodePoint(s, 0) == 0;
    assert Overlong(s, 4, 0);
  }

  /** Where every four-byte character is a supplementary one, as in valid UTF-8, the answer is the code unit. */
  lemma PairedUnit(s: Bytes, len: nat, index: nat)
    requires len <= |s| && Fits(s, 0, len) && Paired(s, 0, len)
    ensures UnitOrOverlong(s, len, index) == var u := Utf16(s, 0, len); if index < |u| then u[index] else NOT_FOUND
  {
    hide Utf16;
    forall b: nat | b < len && Walk(s, 0, 0, b, index) && b + Len(s[b]) <= len && Width(s[b]) == 2
      ensures CodePoint(s, b) >= 0x10000
    {
      WalkFits(s, 0, 0, b, index, len);
      PairedAt(s, 0, 0, b, index, len);
    }
  }

  class Scanner {
    var cache: Cache
    var indexEpoch: nat
    var victim: nat
    var mru: nat
    var entries: seq<Entry>

    constructor ()
      ensures forall w: World :: Inv(w)
    {
      cache := Cache(0, 0, 0, 0);
      indexEpoch, victim, mru := 0, 0, 0;
      entries := seq(WAYS, _ => NO_ENTRY);
    }

    ghost predicate Inv(w: World)
      reads this
    {
      && cache.epoch <= w.epoch && (cache.epoch == w.epoch ==> CacheOk(w, cache))
      && |entries| == WAYS && victim < WAYS && mru < WAYS
      && indexEpoch <= w.epoch
      && (indexEpoch == w.epoch ==> forall i :: 0 <= i < WAYS ==> EntryOk(w, entries[i]))
    }

    /** Whatever happens to the string heap between calls, the caches stay usable. */
    lemma Follows(w: World, w': World)
      requires Inv(w) && WorldStep(w, w')
      ensures Inv(w')
    {
      hide Walk, IndexOk;
    }

    /** utf16_scan_cursor_init with utf16_scan_cursor_resume_utf16 */
    method ResumeUnit(w: World, str: Ptr, len: nat, target: nat) returns (at: Point)
      requires Inv(w) && WorldOk(w) && str in w.mem
      modifies this`cache
      ensures Inv(w) && cache.epoch == w.epoch
      ensures Walk(w.mem[str], 0, 0, at.byte, at.unit) && at.byte <= len && at.unit <= target
    {
      if cache.epoch != w.epoch { cache := Cache(w.epoch, 0, 0, 0); }
      at := Point(0, 0);
      if cache.str == str && cache.bytePos <= len && target >= cache.utf16Pos {
        at := Point(cache.bytePos, cache.utf16Pos);
      }
    }

    /** utf16_scan_cursor_store */
    method Store(w: World, str: Ptr, at: Point)
      requires Inv(w) && str in w.mem && Walk(w.mem[str], 0, 0, at.byte, at.unit) && cache.epoch == w.epoch
      modifies this`cache
      ensures Inv(w)
    {
      cache := Cache(cache.epoch, str, at.byte, at.unit);
    }

    /** The string has been asked for since the heap last moved, and not been pushed out. */
    ghost predicate Requested(w: World, str: Ptr, len: nat)
      reads this
    {
      indexEpoch == w.epoch && exists i :: 0 <= i < |entries| && entries[i].str == str && entries[i].byteLen == len
    }

    /** utf16_index_get: the second request for a string builds its index. */
    method IndexGet(w: World, str: Ptr, len: nat) returns (r: Option<seq<Point>>)
      requires Inv(w) && WorldOk(w) && str in w.mem && len <= |w.mem[str]| && Fits(w.mem[str], 0, len)
      modifies this`indexEpoch, this`victim, this`mru, this`entries
      ensures Inv(w) && (r.Some? ==> IndexOk(w.mem[str], len, r.value))
      ensures r.Some? <==> MIN_BYTES <= len <= MAX_BYTES && old(Requested(w, str, len))
      ensures MIN_BYTES <= len <= MAX_BYTES ==> Requested(w, str, len)
    {
      hide IndexOk, Walk, Fits;
      if len < MIN_BYTES || len > MAX_BYTES { return None; }
      if indexEpoch != w.epoch {
        entries := seq(WAYS, _ => NO_ENTRY);
        victim, mru, indexEpoch := 0, 0, w.epoch;
      }
      var found: nat := WAYS;
      if entries[mru].str == str && entries[mru].byteLen == len { found := mru; }
      var i: nat := 0;
      while found == WAYS && i < WAYS
        invariant i <= WAYS && found <= WAYS && |entries| == WAYS && mru < WAYS
        invariant found < WAYS ==> entries[found].str == str && entries[found].byteLen == len
        invariant found == WAYS ==>
                    forall j :: 0 <= j < i || j == mru ==> !(entries[j].str == str && entries[j].byteLen == len)
        invariant entries == if old(indexEpoch) == w.epoch then old(entries) else seq(WAYS, _ => NO_ENTRY)
        invariant Inv(w) && indexEpoch == w.epoch
        decreases WAYS - i, WAYS - found
      {
        if i != mru && entries[i].str == str && entries[i].byteLen == len {
          mru, found := i, i;
        }
        i := i + 1;
      }
      if found == WAYS {
        entries := entries[victim := Entry(str, len, None)];
        mru := victim;
        assert entries[mru].str == str && entries[mru].byteLen == len;
        victim := if victim + 1 == WAYS then 0 else victim + 1;
        return None;
      }
      if entries[found].points.Some? { return entries[found].points; }
      var points := IndexBuild(w.mem[str], len);
      entries := entries[found := Entry(str, len, Some(points))];
      assert entries[found].str == str && entries[found].byteLen == len;
      r := Some(points);
    }

    /** utf16_scan_cursor_resume_indexed */
    method ResumeIndexed(w: World, str: Ptr, len: nat, target: nat) returns (at: Point)
      requires Inv(w) && WorldOk(w) && str in w.mem && len <= |w.mem[str]| && Fits(w.mem[str], 0, len)
      modifies this
      ensures Inv(w) && cache.epoch == w.epoch
      ensures Walk(w.mem[str], 0, 0, at.byte, at.unit) && at.byte <= len && at.unit <= target
    {
      hide IndexOk, Walk, Fits, CacheOk, EntryOk;
      at := ResumeUnit(w, str, len, target);
      if target <= at.unit || target - at.unit <= CHUNK { return; }
      var index := IndexGet(w, str, len);
      if index.Some? { at := IndexSeek(w.mem[str], len, index.value, at, target); }
    }

    /** The scanning loop shared by the queries; agrees with a scan from the first byte. */
    method Advance(s: Bytes, len: nat, from: Point, target: nat) returns (at: Point)
      requires len <= |s| && Fits(s, 0, len) && Walk(s, 0, 0, from.byte, from.unit) && from.byte <= len
               && from.unit <= target
      ensures at == SeekFrom(s, len, Point(0, 0), target)
      ensures Walk(s, 0, 0, at.byte, at.unit) && at.byte <= len
    {
      hide CodePoint;
      at := from;
      ResumeSeek(s, len, 0, 0, from, target);
      SeekStops(s, len, Point(0, 0), target);
      while at.byte < len && at.unit < target
        invariant SeekFrom(s, len, at, target) == SeekFrom(s, len, Point(0, 0), target)
        decreases len - at.byte
      {
        at := Point(at.byte + Len(s[at.byte]), at.unit + Width(s[at.byte]));
      }
    }

    /** utf16_index_to_byte_offset */
    method IndexToByte(w: World, str: Ptr, len: nat, index: nat) returns (r: int, charBytes: nat)
      requires Inv(w) && WorldOk(w) && str in w.mem && len <= |w.mem[str]| && Fits(w.mem[str], 0, len)
      modifies this
      ensures Inv(w) && (r, charBytes) == ByteAt(w.mem[str], len, index)
    {
      hide CodePoint, CacheOk, EntryOk, SeekFrom;
      var s := w.mem[str];
      if str in w.ascii {
        AsciiSeek(s, len, index);
        if index > len { return -1, 0; }
        return index, if index < len then 1 else 0;
      }
      var at := ResumeIndexed(w, str, len, index);
      at := Advance(s, len, at, index);
      Store(w, str, at);
      if at.byte >= len {
        return (if at.unit == index then len else -1), 0;
      }
      return at.byte, Len(s[at.byte]);
    }
  
    /** utf16_index_to_byte_offset_floor */
    method IndexToByteFloor(w: World, str: Ptr, len: nat, index: nat) returns (r: nat)
      requires Inv(w) && WorldOk(w) && str in w.mem && len <= |w.mem[str]| && Fits(w.mem[str], 0, len)
      modifies this`cache
      ensures Inv(w) && r == FloorFrom(w.mem[str], len, Point(0, 0), index).byte
    {
      hide CodePoint, CacheOk, EntryOk;
      var s := w.mem[str];
      if str in w.ascii {
        AsciiFloor(s, len, 0, index);
        return if index > len then len else index;
      }
      var at := ResumeUnit(w, str, len, index);
      ResumeFloor(s, len, 0, 0, at, index);
      FloorStops(s, len, Point(0, 0), index);
      while at.byte < len && at.unit < index
        invariant FloorFrom(s, len, at, index) == FloorFrom(s, len, Point(0, 0), index)
        decreases len - at.byte
      {
        if at.unit + Width(s[at.byte]) > index { break; }
        at := Point(at.byte + Len(s[at.byte]), at.unit + Width(s[at.byte]));
      }
      Store(w, str, at);
      r := at.byte;
    }

    /** utf16_code_unit_at: the code unit of the UTF-16 string, or 0xFFFFFFFF past its end. */
    method CodeUnitAt(w: World, str: Ptr, len: nat, index: nat) returns (r: int)
      requires Inv(w) && WorldOk(w) && str in w.mem && len <= |w.mem[str]| && Fits(w.mem[str], 0, len)
      modifies this
      ensures Inv(w)
      ensures r == UnitOrOverlong(w.mem[str], len, index)
    {
      hide CacheOk, EntryOk, Utf16, IndexOk, UnitOrOverlong;
      var s := w.mem[str];
      if str in w.ascii {
        UnitAscii(s, len, index);
        if index >= len { return NOT_FOUND; }
        return s[index];
      }
      var at := ResumeUnit(w, str, len, index);
      if index > at.unit && index - at.unit > CHUNK {
        var points := IndexGet(w, str, len);
        if points.Some? { at := IndexSeek(s, len, points.value, at, index); }
      }
      WalkFits(s, 0, 0, at.byte, at.unit, len);
      while at.byte < len
        invariant Inv(w) && cache.epoch == w.epoch
        invariant at.byte <= len && at.unit <= index && Walk(s, 0, 0, at.byte, at.unit) && Fits(s, at.byte, len)
        decreases len - at.byte
      {
        Here(s, len, at);
        UnitHere(s, len, at);
        var cp := CodePoint(s, at.byte);
        var wide := Width(s[at.byte]) == 2;
        if at.unit == index {
          Store(w, str, at);
          return if wide then HighWord(cp) else cp;
        }
        if wide && at.unit + 1 == index {
          Store(w, str, at);
          return LowWord(cp);
        }
        at := Point(at.byte + Len(s[at.byte]), at.unit + Width(s[at.byte]));
      }
      UnitPast(s, len, at, index);
      Store(w, str, at);
      r := NOT_FOUND;
    }

    /** utf16_codepoint_at: the character at a boundary, the low half inside a pair. */
    method CodePointAt(w: World, str: Ptr, len: nat, index: nat) returns (r: int)
      requires Inv(w) && WorldOk(w) && str in w.mem && len <= |w.mem[str]| && Fits(w.mem[str], 0, len)
      modifies this
      ensures Inv(w)
      ensures IsPointAt(w.mem[str], len, index, r)
    {
      hide CacheOk, EntryOk, Utf16, IndexOk, IsPointAt;
      var s := w.mem[str];
      if str in w.ascii {
        PointAscii(s, len, index);
        if index >= len { return NOT_FOUND; }
        return s[index];
      }
      var at := ResumeIndexed(w, str, len, index);
      WalkFits(s, 0, 0, at.byte, at.unit, len);
      while at.byte < len
        invariant Inv(w) && cache.epoch == w.epoch
        invariant at.byte <= len && at.unit <= index && Walk(s, 0, 0, at.byte, at.unit) && Fits(s, at.byte, len)
        decreases len - at.byte
      {
        Here(s, len, at);
        PointHere(s, len, at);
        var cp := CodePoint(s, at.byte);
        var wide := Width(s[at.byte]) == 2;
        if at.unit == index {
          Store(w, str, at);
          return cp;
        }
        if wide && at.unit + 1 == index {
          Store(w, str, at);
          return LowWord(cp);
        }
        at := Point(at.byte + Len(s[at.byte]), at.unit + Width(s[at.byte]));
      }
      PointPast(s, len, at, index);
      Store(w, str, at);
      r := NOT_FOUND;
    }

    /**
     utf16_range_to_byte_range: a substring in UTF-16 terms is a run of whole characters,
     with half a pair before it or after it where the range splits one.
     */
    method RangeToBytes(w: World, str: Ptr, len: nat, start: nat, end: nat)
      returns (byteStart: nat, byteEnd: nat, prefix: int, suffix: int)
      requires Inv(w) && WorldOk(w) && str in w.mem && len <= |w.mem[str]| && Fits(w.mem[str], 0, len)
      modifies this
      ensures Inv(w) && IsRange(w.mem[str], len, start, end, byteStart, byteEnd, prefix, suffix)
    {
      hide CacheOk, EntryOk, Utf16, Walk, Fits;
      prefix, suffix := 0, 0;
      if start >= end {
        FitsNothing(w.mem[str]);
        return 0, 0, 0, 0;
      }
      var s := w.mem[str];
      if str in w.ascii {
        byteStart, byteEnd := Min(start, len), Min(end, len);
        AsciiSlice(s, len, byteStart, byteEnd);
        return;
      }
      var at := ResumeIndexed(w, str, len, start);
      var from;
      from, prefix := SkipTo(s, len, at, start);
      byteStart := from.byte;
      at, suffix := TakeTo(s, len, from, end);
      byteEnd := at.byte;
      Store(w, str, at);
      SliceUnits(s, len, from, at);
      Joined(Utf16(s, 0, len), start, end, from, at, prefix, suffix);
    }
  
    /** byte_offset_to_utf16: code units of the characters that start before the offset. */
    method ByteToUnit(w: World, str: Ptr, offset: nat) returns (r: nat)
      requires Inv(w) && WorldOk(w) && str in w.mem && offset <= |w.mem[str]|
      modifies this`cache
      ensures Inv(w) && r == UnitsBefore(w.mem[str], offset, Point(0, 0))
    {
      hide CacheOk, EntryOk;
      var s := w.mem[str];
      if str in w.ascii {
        AsciiBefore(s, offset, 0);
        return offset;
      }
      var at := ResumeByte(w, str, offset);
      ResumeBefore(s, offset, 0, 0, at);
      var whole := true;
      while at.byte < offset
        invariant Inv(w) && cache.epoch == w.epoch
        invariant UnitsBefore(s, offset, at) == UnitsBefore(s, offset, Point(0, 0))
        invariant whole ==> Walk(s, 0, 0, at.byte, at.unit)
        decreases offset - at.byte
      {
        var next := at.byte + Len(s[at.byte]);
        WalkStep(s, at.byte, at.unit);
        if whole { WalkTrans(s, 0, 0, at.byte, at.unit, next, at.unit + Width(s[at.byte])); }
        if next > offset {
          whole := false;
          at := Point(offset, at.unit + Width(s[at.byte]));
          break;
        }
        at := Point(next, at.unit + Width(s[at.byte]));
      }
      if whole { Store(w, str, at); }
      r := at.unit;
    }

    /** utf16_scan_cursor_init with utf16_scan_cursor_resume_byte */
    method ResumeByte(w: World, str: Ptr, target: nat) returns (at: Point)
      requires Inv(w) && WorldOk(w) && str in w.mem
      modifies this`cache
      ensures Inv(w) && cache.epoch == w.epoch
      ensures Walk(w.mem[str], 0, 0, at.byte, at.unit) && at.byte <= target
    {
      if cache.epoch != w.epoch { cache := Cache(w.epoch, 0, 0, 0); }
      at := Point(0, 0);
      if cache.str == str && cache.bytePos <= target {
        at := Point(cache.bytePos, cache.utf16Pos);
      }
    }
  }

  /** Scans on while short of the byte offset, counting units. */
  function UnitsBefore(s: Bytes, offset: nat, at: Point): nat
    requires offset <= |s|
    decreases offset - at.byte
  {
    if at.byte < offset
    then UnitsBefore(s, offset, Point(at.byte + Len(s[at.byte]), at.unit + Width(s[at.byte]))) else at.unit
  }

  lemma {:induction false} ResumeBefore(s: Bytes, offset: nat, b: nat, u: nat, at: Point)
    requires offset <= |s| && Walk(s, b, u, at.byte, at.unit) && at.byte <= offset
    ensures UnitsBefore(s, offset, Point(b, u)) == UnitsBefore(s, offset, at)
    decreases at.byte - b
  {
    if b != at.byte { ResumeBefore(s, offset, b + Len(s[b]), u + Width(s[b]), at); }
  }

  lemma {:induction false} AsciiBefore(s: Bytes, offset: nat, b: nat)
    requires b <= offset <= |s| && forall i :: 0 <= i < |s| ==> s[i] < 0x80
    ensures UnitsBefore(s, offset, Point(b, b)) == offset
    decreases offset - b
  {
    if b < offset { AsciiBefore(s, offset, b + 1); }
  }

  /** Unit and byte positions undo each other at character boundaries. */
  lemma ByteUnitRoundTrip(s: Bytes, len: nat, b: nat, u: nat)
    requires len <= |s| && Fits(s, 0, len) && Walk(s, 0, 0, b, u) && b <= len
    ensures UnitsBefore(s, b, Point(0, 0)) == u && ByteAt(s, len, u).0 == b
  {
    ResumeBefore(s, b, 0, 0, Point(b, u));
    ResumeSeek(s, len, 0, 0, Point(b, u), u);
  }

  /** utf16_strlen */
  method UnitCount(s: Bytes, len: nat) returns (n: nat)
    requires len <= |s| && Fits(s, 0, len)
    ensures n == |Utf16(s, 0, len)|
  {
    hide CodePoint;
    var b: nat;
    b, n := 0, 0;
    while b < len
      invariant b <= len && Fits(s, b, len) && Walk(s, 0, 0, b, n)
      decreases len - b
    {
      FitsLen(s, b, len);
      WalkStep(s, b, n);
      WalkTrans(s, 0, 0, b, n, b + Len(s[b]), n + Width(s[b]));
      b, n := b + Len(s[b]), n + Width(s[b]);
    }
    EndUnits(s, len, Point(b, n));
  }

  /** A code unit iterator: the next byte and the second half of a pair, if one is due. */
  datatype Iterator = Iterator(next: nat, trailing: int)

  /** What an iterator has yet to yield. */
  function Rest(s: Bytes, end: nat, it: Iterator): seq<int>
    requires end <= |s| && Fits(s, it.next, end)
  {
    Half(it.trailing) + Utf16(s, it.next, end)
  }

  lemma NoUnits(s: Bytes, end: nat)
    requires end <= |s|
    ensures Fits(s, end, end) && Utf16(s, end, end) == []
  {
  }

  /** utf16_next_code_unit: yields the UTF-16 string unit by unit. */
  method NextUnit(s: Bytes, end: nat, it: Iterator) returns (ok: bool, unit: int, it': Iterator)
    requires end <= |s| && Fits(s, it.next, end)
    ensures Fits(s, it'.next, end)
    ensures ok <==> Rest(s, end, it) != []
    ensures ok ==> Rest(s, end, it) == [unit] + Rest(s, end, it')
    ensures !ok ==> it' == it
  {
    hide Utf16, CodePoint;
    unit := 0;
    if it.trailing != 0 {
      return true, it.trailing, it.(trailing := 0);
    }
    if it.next == end {
      NoUnits(s, end);
      return false, unit, it;
    }
    Utf16Step(s, it.next, end);
    var cp := CodePoint(s, it.next);
    var n := it.next + Len(s[it.next]);
    if Width(s[it.next]) == 2 {
      Casts(cp);
      return true, HighWord(cp) % 0x10000, Iterator(n, LowWord(cp) % 0x10000);
    }
    return true, cp, Iterator(n, 0);
  }

  function Min(a: nat, b: nat): nat {
    if a < b then a else b
  }

  /** A split surrogate, if any. */
  function Half(u: int): seq<int> {
    if u == 0 then [] else [u]
  }

  lemma FitsNothing(s: Bytes)
    ensures Fits(s, 0, 0)
  {
  }

  lemma AsciiSlice(s: Bytes, len: nat, a: nat, b: nat)
    requires a <= b <= len <= |s| && forall i :: 0 <= i < |s| ==> s[i] < 0x80
    ensures Fits(s, a, b) && Fits(s, 0, len) && |Utf16(s, 0, len)| == len && Utf16(s, a, b) == Utf16(s, 0, len)[a..b]
  {
    AsciiUnits(s, b, a);
    AsciiUnits(s, len, 0);
    assert s[0..len][a..b] == s[a..b];
  }

  /** The loop up to the start of the range. */
  method SkipTo(s: Bytes, len: nat, from: Point, start: nat) returns (at: Point, prefix: int)
    requires len <= |s| && Fits(s, 0, len)
    requires Walk(s, 0, 0, from.byte, from.unit) && from.byte <= len && from.unit <= start
    ensures Walk(s, 0, 0, at.byte, at.unit) && at.byte <= len
    ensures var u := Utf16(s, 0, len);
            if prefix != 0 then at.unit == start + 1 <= |u| && u[start] == prefix
            else at.unit <= start && (at.unit == start || (at.byte == len && at.unit == |u|))
  {
    hide Utf16;
    at, prefix := from, 0;
    WalkFits(s, 0, 0, at.byte, at.unit, len);
    while at.byte < len && at.unit < start
      invariant at.byte <= len && at.unit <= start && Walk(s, 0, 0, at.byte, at.unit) && Fits(s, at.byte, len)
      decreases len - at.byte
    {
      Here(s, len, at);
      if Width(s[at.byte]) == 2 && at.unit + 1 == start {
        prefix := LowWord(CodePoint(s, at.byte)) % 0x10000;
        at := Point(at.byte + Len(s[at.byte]), at.unit + 2);
        return;
      }
      at := Point(at.byte + Len(s[at.byte]), at.unit + Width(s[at.byte]));
    }
    if at.byte == len { EndUnits(s, len, at); }
  }

  /** The loop up to the end of the range. */
  method TakeTo(s: Bytes, len: nat, from: Point, end: nat) returns (at: Point, suffix: int)
    requires len <= |s| && Fits(s, 0, len)
    requires Walk(s, 0, 0, from.byte, from.unit) && from.byte <= len && from.unit <= end
    ensures Walk(s, 0, 0, at.byte, at.unit) && from.byte <= at.byte <= len
    ensures var u := Utf16(s, 0, len);
            if suffix != 0 then at.unit + 1 == end <= |u| && u[at.unit] == suffix
            else at.unit <= end && (at.unit == end || (at.byte == len && at.unit == |u|))
  {
    hide Utf16;
    at, suffix := from, 0;
    WalkFits(s, 0, 0, at.byte, at.unit, len);
    while at.byte < len && at.unit < end
      invariant from.byte <= at.byte <= len && at.unit <= end && Walk(s, 0, 0, at.byte, at.unit)
                && Fits(s, at.byte, len)
      decreases len - at.byte
    {
      Here(s, len, at);
      if Width(s[at.byte]) == 2 && at.unit + 1 == end {
        suffix := HighWord(CodePoint(s, at.byte)) % 0x10000;
        return;
      }
      at := Point(at.byte + Len(s[at.byte]), at.unit + Width(s[at.byte]));
    }
    if at.byte == len { EndUnits(s, len, at); }
  }

  /** What the character at a boundary contributes to the UTF-16 string. */
  lemma Here(s: Bytes, len: nat, at: Point)
    requires len <= |s| && Fits(s, 0, len) && Walk(s, 0, 0, at.byte, at.unit) && at.byte < len
    ensures var n := at.byte + Len(s[at.byte]);
            n <= len && Fits(s, n, len) && Walk(s, 0, 0, n, at.unit + Width(s[at.byte]))
    ensures at.unit + Width(s[at.byte]) <= |Utf16(s, 0, len)|
    ensures Utf16(s, 0, len)[at.unit] == CharUnits(s, at.byte)[0]
    ensures Width(s[at.byte]) == 2 ==> Utf16(s, 0, len)[at.unit + 1] == CharUnits(s, at.byte)[1]
    ensures var cp := CodePoint(s, at.byte);
            High(cp) > 0 && Low(cp) > 0 && HighWord(cp) % 0x10000 == High(cp) && LowWord(cp) % 0x10000 == Low(cp)
  {
    hide CharUnits, Utf16;
    WalkUnits(s, 0, 0, at.byte, at.unit, len);
    Utf16Step(s, at.byte, len);
    Casts(CodePoint(s, at.byte));
    WalkStep(s, at.byte, at.unit);
    WalkTrans(s, 0, 0, at.byte, at.unit, at.byte + Len(s[at.byte]), at.unit + Width(s[at.byte]));
    WalkUnits(s, 0, 0, at.byte + Len(s[at.byte]), at.unit + Width(s[at.byte]), len);
    var u, k := Utf16(s, 0, len), at.unit;
    assert u[k..][0] == u[k];
    assert Width(s[at.byte]) == 2 ==> u[k..][1] == u[k + 1];
  }

  /** The answers at a boundary and inside a pair. */
  lemma UnitHere(s: Bytes, len: nat, at: Point)
    requires len <= |s| && Fits(s, 0, len) && Walk(s, 0, 0, at.byte, at.unit) && at.byte < len
    ensures at.byte + Len(s[at.byte]) <= len
    ensures var cp := CodePoint(s, at.byte);
            UnitOrOverlong(s, len, at.unit) == if Width(s[at.byte]) == 2 then HighWord(cp) else cp
    ensures Width(s[at.byte]) == 2 ==> UnitOrOverlong(s, len, at.unit + 1) == LowWord(CodePoint(s, at.byte))
  {
    hide Utf16, CodePoint;
    Here(s, len, at);
    Casts(CodePoint(s, at.byte));
    SamePoint(s, at);
    if Width(s[at.byte]) == 2 { InsidePair(s, at); }
  }

  lemma UnitPast(s: Bytes, len: nat, at: Point, index: nat)
    requires len <= |s| && Fits(s, 0, len) && Walk(s, 0, 0, at.byte, at.unit) && at.byte == len && at.unit <= index
    ensures UnitOrOverlong(s, len, index) == NOT_FOUND
  {
    hide Utf16;
    EndUnits(s, len, at);
  }

  lemma UnitAscii(s: Bytes, len: nat, index: nat)
    requires len <= |s| && Fits(s, 0, len) && forall i :: 0 <= i < |s| ==> s[i] < 0x80
    ensures UnitOrOverlong(s, len, index) == if index < len then s[index] else NOT_FOUND
  {
    hide Utf16;
    AsciiUnits(s, len, 0);
  }

  lemma PointHere(s: Bytes, len: nat, at: Point)
    requires len <= |s| && Fits(s, 0, len) && Walk(s, 0, 0, at.byte, at.unit) && at.byte < len
    ensures at.byte + Len(s[at.byte]) <= len && IsPointAt(s, len, at.unit, CodePoint(s, at.byte))
    ensures Width(s[at.byte]) == 2 ==> IsPointAt(s, len, at.unit + 1, LowWord(CodePoint(s, at.byte)))
  {
    hide Utf16, CodePoint;
    Here(s, len, at);
    Casts(CodePoint(s, at.byte));
    SamePoint(s, at);
    if Width(s[at.byte]) == 2 { InsidePair(s, at); }
  }

  lemma PointPast(s: Bytes, len: nat, at: Point, index: nat)
    requires len <= |s| && Fits(s, 0, len) && Walk(s, 0, 0, at.byte, at.unit) && at.byte == len && at.unit <= index
    ensures IsPointAt(s, len, index, NOT_FOUND)
  {
    hide Utf16, CodePoint;
    EndUnits(s, len, at);
    PastEnd(s, len, at);
  }

  lemma PointAscii(s: Bytes, len: nat, index: nat)
    requires len <= |s| && Fits(s, 0, len) && forall i :: 0 <= i < |s| ==> s[i] < 0x80
    ensures IsPointAt(s, len, index, if index < len then s[index] else NOT_FOUND)
  {
    hide Utf16;
    AsciiUnits(s, len, 0);
    AsciiBoundaries(s, len);
  }

  lemma ThreeParts(u: seq<int>, i: nat, f: nat, t: nat, j: nat)
    requires i <= f <= t <= j <= |u|
    ensures u[i..f] + u[f..t] + u[t..j] == u[i..j]
  {
  }

  lemma Joined(u: seq<int>, start: nat, end: nat, from: Point, at: Point, prefix: int, suffix: int)
    requires start < end && from.unit <= at.unit <= |u|
    requires if prefix != 0 then from.unit == start + 1 <= |u| && u[start] == prefix
             else from.unit <= start && (from.unit == start || from.unit == |u|)
    requires if suffix != 0 then at.unit + 1 == end <= |u| && u[at.unit] == suffix
             else at.unit <= end && (at.unit == end || at.unit == |u|)
    ensures Half(prefix) + u[from.unit..at.unit] + Half(suffix) == u[Min(start, |u|)..Min(end, |u|)]
  {
    var i, j := Min(start, |u|), Min(end, |u|);
    if prefix != 0 { assert u[i..from.unit] == [u[start]]; } else { assert i == from.unit; }
    if suffix != 0 { assert u[at.unit..j] == [u[at.unit]]; } else { assert j == at.unit; }
    ThreeParts(u, i, from.unit, at.unit, j);
  }

  lemma EndUnits(s: Bytes, len: nat, at: Point)
    requires len <= |s| && Fits(s, 0, len) && Walk(s, 0, 0, at.byte, at.unit) && at.byte == len
    ensures |Utf16(s, 0, len)| == at.unit
  {
    hide CharUnits;
    WalkUnits(s, 0, 0, at.byte, at.unit, len);
  }

  lemma {:induction false} AsciiFloor(s: Bytes, len: nat, b: nat, target: nat)
    requires len <= |s| && b <= len && b <= target && forall i :: 0 <= i < |s| ==> s[i] < 0x80
    ensures var n := if target < len then target else len;
            FloorFrom(s, len, Point(b, b), target) == Point(n, n)
    decreases len - b
  {
    if b < len && b < target { AsciiFloor(s, len, b + 1, target); }
  }

  lemma {:induction false} AsciiUnits(s: Bytes, len: nat, b: nat)
    requires b <= len <= |s| && forall i :: 0 <= i < |s| ==> s[i] < 0x80
    ensures Fits(s, b, len) && Utf16(s, b, len) == s[b..len]
    decreases len - b
  {
    if b < len {
      AsciiUnits(s, len, b + 1);
      assert s[b..len] == [s[b]] + s[b + 1..len];
      assert CharUnits(s, b) == [s[b] as int];
    }
  }

  lemma {:induction false} AsciiSame(s: Bytes, a: nat, b: nat, u: nat)
    requires a <= b <= |s| && Walk(s, a, a, b, u) && forall i :: 0 <= i < |s| ==> s[i] < 0x80
    ensures b == u
    decreases b - a
  {
    if a < b { AsciiSame(s, a + 1, b, u); }
  }

  lemma AsciiBoundaries(s: Bytes, len: nat)
    requires len <= |s| && forall i :: 0 <= i < |s| ==> s[i] < 0x80
    ensures forall b: nat, u: nat :: b <= len && Walk(s, 0, 0, b, u) ==> b == u
  {
    forall b: nat, u: nat | b <= len && Walk(s, 0, 0, b, u) ensures b == u { AsciiSame(s, 0, b, u); }
  }

  /** A unit position belongs to at most one boundary. */
  lemma SamePoint(s: Bytes, at: Point)
    requires Walk(s, 0, 0, at.byte, at.unit)
    ensures forall b: nat :: Walk(s, 0, 0, b, at.unit) ==> b == at.byte
    ensures forall b: nat, u: nat :: Walk(s, 0, 0, b, u) && b < |s| && u + 1 == at.unit ==> Width(s[b]) != 2
  {
    forall b: nat, u: nat | Walk(s, 0, 0, b, u) ensures u == at.unit ==> b == at.byte {
      Ordered(s, at, b, u);
    }
    forall b: nat, u: nat | Walk(s, 0, 0, b, u) && b < |s| && u + 1 == at.unit ensures Width(s[b]) != 2 {
      Ordered(s, at, b, u);
      WalkBetween(s, 0, 0, b, u, at.byte, at.unit);
      WalkOrder(s, b + Len(s[b]), u + Width(s[b]), at.byte, at.unit);
    }
  }

  lemma Ordered(s: Bytes, at: Point, b: nat, u: nat)
    requires Walk(s, 0, 0, at.byte, at.unit) && Walk(s, 0, 0, b, u)
    ensures b < at.byte <==> u < at.unit
    ensures b == at.byte <==> u == at.unit
  {
    if b <= at.byte {
      WalkBetween(s, 0, 0, b, u, at.byte, at.unit);
      WalkOrder(s, b, u, at.byte, at.unit);
    } else {
      WalkBetween(s, 0, 0, at.byte, at.unit, b, u);
      WalkOrder(s, at.byte, at.unit, b, u);
    }
  }

  lemma InsidePair(s: Bytes, at: Point)
    requires Walk(s, 0, 0, at.byte, at.unit) && at.byte < |s| && Width(s[at.byte]) == 2
    ensures forall b: nat, u: nat :: Walk(s, 0, 0, b, u) ==> u != at.unit + 1
    ensures forall b: nat, u: nat :: Walk(s, 0, 0, b, u) && u == at.unit ==> b == at.byte
  {
    forall b: nat, u: nat | Walk(s, 0, 0, b, u) ensures u != at.unit + 1 && (u == at.unit ==> b == at.byte) {
      Ordered(s, at, b, u);
      if u > at.unit {
        WalkBetween(s, 0, 0, at.byte, at.unit, b, u);
        WalkOrder(s, at.byte + Len(s[at.byte]), at.unit + 2, b, u);
      }
    }
  }

  lemma PastEnd(s: Bytes, len: nat, at: Point)
    requires len <= |s| && Walk(s, 0, 0, at.byte, at.unit) && at.byte == len
    ensures forall b: nat, u: nat :: b < len && Walk(s, 0, 0, b, u) ==>
              u + (if b < |s| then Width(s[b]) else 0) <= at.unit
  {
    forall b: nat, u: nat | b < len && Walk(s, 0, 0, b, u) ensures u + Width(s[b]) <= at.unit {
      WalkBetween(s, 0, 0, b, u, at.byte, at.unit);
      WalkOrder(s, b + Len(s[b]), u + Width(s[b]), at.byte, at.unit);
    }
  }

  /** What utf16_index_to_byte_offset answers: the boundary a plain scan finds. */
  function ByteAt(s: Bytes, len: nat, index: nat): (int, nat)
    requires len <= |s|
  {
    var p := SeekFrom(s, len, Point(0, 0), index);
    if p.byte < len then (p.byte, Len(s[p.byte]))
    else if p.unit == index then (len, 0)
    else (-1, 0)
  }

  lemma {:induction false} AsciiSeekFrom(s: Bytes, len: nat, b: nat, target: nat)
    requires len <= |s| && b <= len && b <= target && forall i :: 0 <= i < |s| ==> s[i] < 0x80
    ensures var n := if target < len then target else len;
            SeekFrom(s, len, Point(b, b), target) == Point(n, n)
    decreases len - b
  {
    if b < len && b < target { AsciiSeekFrom(s, len, b + 1, target); }
  }

  lemma AsciiSeek(s: Bytes, len: nat, index: nat)
    requires len <= |s| && forall i :: 0 <= i < |s| ==> s[i] < 0x80
    ensures ByteAt(s, len, index).0 == if index > len then -1 else index
    ensures ByteAt(s, len, index).1 == if index < len then 1 else 0
  {
    AsciiSeekFrom(s, len, 0, index);
  }
}
