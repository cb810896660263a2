/**
 Strings as the runtime stores them, UTF-8 (or WTF-8) bytes, and as scripts see them,
 UTF-16 code units.  This module is the plain left-to-right scan that every faster way
 of finding a position must agree with.
 */
module Utf16Scan {
  import opened Basics

  /** Bytes of the character a lead byte announces; a stray byte counts as one. */
  function Len(c: Byte): (n: nat)
    ensures 1 <= n <= 4
  {
    if c < 0x80 then 1
    else if 0xC0 <= c < 0xE0 then 2
    else if 0xE0 <= c < 0xF0 then 3
    else if 0xF0 <= c < 0xF8 then 4
    else 1
  }

  /** Code units it takes in UTF-16. */
  function Width(c: Byte): (n: nat)
    ensures 1 <= n <= 2 && n <= Len(c)
  {
    if 0xF0 <= c < 0xF8 then 2 else 1
  }

  /** Stepping from byte b meets byte `end` exactly: no character is cut off. */
  predicate Fits(s: Bytes, b: nat, end: nat)
    requires end <= |s|
    decreases end - b
  {
    b == end || (b < end && Fits(s, b + Len(s[b]), end))
  }

  /** The code point at b; only the payload bits of each byte count. */
  function CodePoint(s: Bytes, b: nat): (cp: nat)
    requires b < |s| && b + Len(s[b]) <= |s|
    ensures cp < 0x20_0000
  {
    var c := s[b];
    if Len(c) == 2 then Bits(c, 32) * 64 + Bits(s[b + 1], 64)
    else if Len(c) == 3 then Bits(c, 16) * 4096 + Bits(s[b + 1], 64) * 64 + Bits(s[b + 2], 64)
    else if Len(c) == 4 then
      Bits(c, 8) * 262144 + Bits(s[b + 1], 64) * 4096 + Bits(s[b + 2], 64) * 64 + Bits(s[b + 3], 64)
    else c
  }

  /** The surrogates of a supplementary code point (section 2.1 of RFC 2781). */
  function High(cp: nat): int { 0xD800 + (cp - 0x10000) / 1024 }
  function Low(cp: nat): int { 0xDC00 + (cp - 0x10000) % 1024 }

  /** The same in 32-bit unsigned arithmetic. */
  function HighWord(cp: nat): nat { (0xD800 + (cp - 0x10000) % 0x1_0000_0000 / 1024) % 0x1_0000_0000 }
  function LowWord(cp: nat): nat { 0xDC00 + (cp - 0x10000) % 0x1_0000_0000 % 1024 }

  /** Below 0x10000 the subtraction wraps, and only the cast to 16 bits makes up for it. */
  lemma Casts(cp: nat)
    requires cp < 0x20_0000
    ensures HighWord(cp) == High(cp) + (if cp < 0x10000 then 0x40_0000 else 0) && LowWord(cp) == Low(cp)
    ensures 0 < High(cp) < 0x10000 && 0 < Low(cp) < 0x10000
    ensures HighWord(cp) % 0x10000 == High(cp) && LowWord(cp) % 0x10000 == Low(cp)
  {
    if cp < 0x10000 {
      var x := cp - 0x10000 + 0x1_0000_0000;
      assert (cp - 0x10000) % 0x1_0000_0000 == x;
      assert x / 1024 == (cp - 0x10000) / 1024 + 0x40_0000;
      assert x % 1024 == (cp - 0x10000) % 1024;
      assert (High(cp) + 0x40_0000) % 0x10000 == High(cp);
    } else {
      assert (cp - 0x10000) % 0x1_0000_0000 == cp - 0x10000;
    }
  }

  /** The code units of the character at b. */
  function CharUnits(s: Bytes, b: nat): (u: seq<int>)
    requires b < |s| && b + Len(s[b]) <= |s|
    ensures |u| == Width(s[b])
  {
    if Width(s[b]) == 2 then [High(CodePoint(s, b)), Low(CodePoint(s, b))] else [CodePoint(s, b)]
  }

  /** The string from byte b on, in UTF-16. */
  function Utf16(s: Bytes, b: nat, end: nat): (u: seq<int>)
    requires end <= |s| && Fits(s, b, end)
    decreases end - b
  {
    if b == end then [] else FitsLen(s, b, end); CharUnits(s, b) + Utf16(s, b + Len(s[b]), end)
  }

  lemma FitsLen(s: Bytes, b: nat, end: nat)
    requires end <= |s| && Fits(s, b, end) && b < end
    ensures b + Len(s[b]) <= end && Fits(s, b + Len(s[b]), end)
  {
  }

  /** The scan that starts at byte b, unit u comes by byte b', unit u'. */
  predicate Walk(s: Bytes, b: nat, u: nat, b': nat, u': nat)
    decreases b' - b
  {
    (b == b' && u == u') || (b < b' && b < |s| && Walk(s, b + Len(s[b]), u + Width(s[b]), b', u'))
  }

  lemma {:induction false} WalkTrans(s: Bytes, b: nat, u: nat, b': nat, u': nat, b'': nat, u'': nat)
    requires Walk(s, b, u, b', u') && Walk(s, b', u', b'', u'')
    ensures Walk(s, b, u, b'', u'')
    decreases b' - b
  {
    if b != b' {
      WalkOrder(s, b', u', b'', u'');
      WalkTrans(s, b + Len(s[b]), u + Width(s[b]), b', u', b'', u'');
    }
  }

  lemma {:induction false} WalkOrder(s: Bytes, b: nat, u: nat, b': nat, u': nat)
    requires Walk(s, b, u, b', u')
    ensures b <= b' && u <= u' && u' - u <= b' - b && (b < b' ==> u < u')
    decreases b' - b
  {
    if b != b' { WalkOrder(s, b + Len(s[b]), u + Width(s[b]), b', u'); }
  }

  lemma WalkStep(s: Bytes, b: nat, u: nat)
    requires b < |s|
    ensures Walk(s, b, u, b + Len(s[b]), u + Width(s[b]))
  {
  }

  /** Two points on one walk: the walk continues from the nearer to the farther. */
  lemma {:induction false} WalkBetween(s: Bytes, b: nat, u: nat, p: nat, v: nat, q: nat, w: nat)
    requires Walk(s, b, u, p, v) && Walk(s, b, u, q, w) && p <= q
    ensures Walk(s, p, v, q, w)
    decreases p - b
  {
    if b != p { WalkBetween(s, b + Len(s[b]), u + Width(s[b]), p, v, q, w); }
  }

  lemma {:induction false} WalkFits(s: Bytes, b: nat, u: nat, b': nat, u': nat, end: nat)
    requires end <= |s| && Fits(s, b, end) && Walk(s, b, u, b', u') && b' <= end
    ensures Fits(s, b', end)
    decreases b' - b
  {
    if b != b' {
      FitsLen(s, b, end);
      WalkFits(s, b + Len(s[b]), u + Width(s[b]), b', u', end);
    }
  }

  lemma Utf16Step(s: Bytes, b: nat, end: nat)
    requires end <= |s| && Fits(s, b, end) && b < end
    ensures b + Len(s[b]) <= end && Fits(s, b + Len(s[b]), end)
    ensures Utf16(s, b, end) == CharUnits(s, b) + Utf16(s, b + Len(s[b]), end)
  {
    hide CharUnits;
    FitsLen(s, b, end);
  }

  /** Four-byte characters stand for supplementary code points, as valid UTF-8 has it. */
  predicate Paired(s: Bytes, b: nat, end: nat)
    requires end <= |s| && Fits(s, b, end)
    decreases end - b
  {
    b < end ==>
      (FitsLen(s, b, end);
       (Width(s[b]) == 2 ==> 0x10000 <= CodePoint(s, b) < 0x110000) && Paired(s, b + Len(s[b]), end))
  }

  lemma {:induction false} PairedAt(s: Bytes, b: nat, u: nat, b': nat, u': nat, end: nat)
    requires end <= |s| && Fits(s, b, end) && Paired(s, b, end) && Walk(s, b, u, b', u') && b' <= end
             && Fits(s, b', end)
    ensures Paired(s, b', end)
    decreases b' - b
  {
    if b != b' {
      FitsLen(s, b, end);
      PairedAt(s, b + Len(s[b]), u + Width(s[b]), b', u', end);
    }
  }

  /** The bytes between two boundaries hold the code units between them. */
  lemma {:induction false} WalkSlice(s: Bytes, b: nat, u: nat, b': nat, u': nat)
    requires Walk(s, b, u, b', u') && b' <= |s|
    ensures Fits(s, b, b') && u <= u' && |Utf16(s, b, b')| == u' - u
    decreases b' - b
  {
    hide CodePoint;
    if b != b' {
      WalkSlice(s, b + Len(s[b]), u + Width(s[b]), b', u');
    }
  }

  lemma {:induction false} UnitsSplit(s: Bytes, b: nat, m: nat, end: nat)
    requires end <= |s| && m <= end && Fits(s, b, m) && Fits(s, m, end)
    ensures Fits(s, b, end) && Utf16(s, b, end) == Utf16(s, b, m) + Utf16(s, m, end)
    decreases m - b
  {
    hide CharUnits;
    if b < m {
      FitsLen(s, b, m);
      UnitsSplit(s, b + Len(s[b]), m, end);
      var c, x, y := CharUnits(s, b), Utf16(s, b + Len(s[b]), m), Utf16(s, m, end);
      assert c + (x + y) == (c + x) + y;
    }
  }

  /** A scanned prefix is a prefix of the UTF-16 string. */
  lemma WalkUnits(s: Bytes, b: nat, u: nat, b': nat, u': nat, end: nat)
    requires end <= |s| && Fits(s, b, end) && Walk(s, b, u, b', u') && b' <= end
    ensures Fits(s, b', end) && u <= u' && u' - u <= |Utf16(s, b, end)|
    ensures Utf16(s, b, end)[u' - u..] == Utf16(s, b', end)
  {
    hide Utf16, Walk, Fits;
    WalkFits(s, b, u, b', u', end);
    WalkSlice(s, b, u, b', u');
    UnitsSplit(s, b, b', end);
  }

  lemma SliceUnits(s: Bytes, len: nat, p: Point, q: Point)
    requires len <= |s| && Fits(s, 0, len) && Walk(s, 0, 0, p.byte, p.unit) && Walk(s, 0, 0, q.byte, q.unit)
    requires p.byte <= q.byte <= len
    ensures Fits(s, p.byte, q.byte) && p.unit <= q.unit <= |Utf16(s, 0, len)|
    ensures Utf16(s, p.byte, q.byte) == Utf16(s, 0, len)[p.unit..q.unit]
  {
    hide Utf16, Walk, Fits;
    WalkBetween(s, 0, 0, p.byte, p.unit, q.byte, q.unit);
    WalkSlice(s, p.byte, p.unit, q.byte, q.unit);
    WalkSlice(s, 0, 0, p.byte, p.unit);
    WalkFits(s, 0, 0, q.byte, q.unit, len);
    UnitsSplit(s, 0, p.byte, q.byte);
    UnitsSplit(s, 0, q.byte, len);
    var x, y, z := Utf16(s, 0, p.byte), Utf16(s, p.byte, q.byte), Utf16(s, q.byte, len);
    assert Utf16(s, 0, len) == (x + y) + z;
    assert ((x + y) + z)[|x|..|x| + |y|] == y;
  }

  // ---- the scan every position query stands for ----

  datatype Point = Point(byte: nat, unit: nat)

  /** Scans on while short of unit `target`. */
  function SeekFrom(s: Bytes, end: nat, at: Point, target: nat): Point
    requires end <= |s|
    decreases end - at.byte
  {
    if at.byte < end && at.unit < target
    then SeekFrom(s, end, Point(at.byte + Len(s[at.byte]), at.unit + Width(s[at.byte])), target) else at
  }

  /** Scans on while the next character ends at or before unit `target`. */
  function FloorFrom(s: Bytes, end: nat, at: Point, target: nat): Point
    requires end <= |s|
    decreases end - at.byte
  {
    if at.byte < end && at.unit < target && at.unit + Width(s[at.byte]) <= target
    then FloorFrom(s, end, Point(at.byte + Len(s[at.byte]), at.unit + Width(s[at.byte])), target) else at
  }

  /** Resuming anywhere on the way gives what a scan from the start gives. */
  lemma {:induction false} ResumeSeek(s: Bytes, end: nat, b: nat, u: nat, at: Point, target: nat)
    requires end <= |s| && Walk(s, b, u, at.byte, at.unit) && at.byte <= end && at.unit <= target
    ensures SeekFrom(s, end, Point(b, u), target) == SeekFrom(s, end, at, target)
    decreases at.byte - b
  {
    if b != at.byte {
      WalkOrder(s, b, u, at.byte, at.unit);
      ResumeSeek(s, end, b + Len(s[b]), u + Width(s[b]), at, target);
    }
  }

  lemma {:induction false} ResumeFloor(s: Bytes, end: nat, b: nat, u: nat, at: Point, target: nat)
    requires end <= |s| && Walk(s, b, u, at.byte, at.unit) && at.byte <= end && at.unit <= target
    ensures FloorFrom(s, end, Point(b, u), target) == FloorFrom(s, end, at, target)
    decreases at.byte - b
  {
    if b != at.byte {
      WalkOrder(s, b, u, at.byte, at.unit);
      WalkOrder(s, b + Len(s[b]), u + Width(s[b]), at.byte, at.unit);
      ResumeFloor(s, end, b + Len(s[b]), u + Width(s[b]), at, target);
    }
  }

  /** Where a seek stops: the first character boundary at or past the target, or the end. */
  lemma {:induction false} SeekStops(s: Bytes, end: nat, at: Point, target: nat)
    requires end <= |s| && Fits(s, at.byte, end)
    ensures var r := SeekFrom(s, end, at, target);
            && Walk(s, at.byte, at.unit, r.byte, r.unit) && r.byte <= end && Fits(s, r.byte, end)
            && (r.unit >= target || r.byte == end)
            && (at.unit < target ==> r.unit <= target + 1)
    ensures forall b: nat, u: nat :: Walk(s, at.byte, at.unit, b, u) && b < SeekFrom(s, end, at, target).byte ==>
              u < target
    decreases end - at.byte
  {
    var r := SeekFrom(s, end, at, target);
    if at.byte < end && at.unit < target {
      FitsLen(s, at.byte, end);
      var n := Point(at.byte + Len(s[at.byte]), at.unit + Width(s[at.byte]));
      SeekStops(s, end, n, target);
      WalkStep(s, at.byte, at.unit);
      WalkTrans(s, at.byte, at.unit, n.byte, n.unit, r.byte, r.unit);
      if n.unit >= target { assert r == n; }
      forall b: nat, u: nat | Walk(s, at.byte, at.unit, b, u) && b < r.byte ensures u < target {
        if b != at.byte { assert Walk(s, n.byte, n.unit, b, u); }
      }
    } else {
      forall b: nat, u: nat | Walk(s, at.byte, at.unit, b, u) ensures b >= r.byte {
        WalkOrder(s, at.byte, at.unit, b, u);
      }
    }
  }

  /** Where a floor stops: the last character boundary at or before the target. */
  lemma {:induction false} FloorStops(s: Bytes, end: nat, at: Point, target: nat)
    requires end <= |s| && Fits(s, at.byte, end) && at.unit <= target
    ensures var r := FloorFrom(s, end, at, target);
            && Walk(s, at.byte, at.unit, r.byte, r.unit) && r.byte <= end && Fits(s, r.byte, end) && r.unit <= target
            && (r.byte == end || r.unit + Width(s[r.byte]) > target)
    decreases end - at.byte
  {
    if at.byte < end && at.unit < target && at.unit + Width(s[at.byte]) <= target {
      FitsLen(s, at.byte, end);
      var n := Point(at.byte + Len(s[at.byte]), at.unit + Width(s[at.byte]));
      FloorStops(s, end, n, target);
      WalkStep(s, at.byte, at.unit);
      var r := FloorFrom(s, end, at, target);
      WalkTrans(s, at.byte, at.unit, n.byte, n.unit, r.byte, r.unit);
    }
  }
}
