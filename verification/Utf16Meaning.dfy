/**
 What the scan of Utf16Scan reads is what the encodings mean: the UTF-16 form (section
 2.1 of RFC 2781) of the code points that the bytes encode.
 */
module Utf16Meaning {
  import opened Basics
  import opened Utf16Scan
  import Utf8Decoder

  /** The code units of one code point. */
  function Units(cp: nat): seq<int> {
    if cp < 0x10000 then [cp] else [High(cp), Low(cp)]
  }

  function AllUnits(cps: seq<nat>): seq<int> {
    if cps == [] then [] else Units(cps[0]) + AllUnits(cps[1..])
  }

  /** The bytes of cp stand at b. */
  ghost predicate EncodedAt(s: Bytes, b: nat, cp: nat)
    requires cp < 0x110000
  {
    var e := Utf8Decoder.Encode(cp);
    b + |e| <= |s| && forall i :: 0 <= i < |e| ==> s[b + i] == e[i]
  }

  lemma ReadTwo(s: Bytes, b: nat, cp: nat)
    requires 0x80 <= cp < 0x800 && EncodedAt(s, b, cp)
    ensures Len(s[b]) == 2 && b + 2 <= |s| && CodePoint(s, b) == cp && Width(s[b]) == 1
  {
    var e := Utf8Decoder.Encode(cp);
    assert s[b + 0] == e[0] && s[b + 1] == e[1];
  }

  lemma ReadThree(s: Bytes, b: nat, cp: nat)
    requires 0x800 <= cp < 0x10000 && EncodedAt(s, b, cp)
    ensures Len(s[b]) == 3 && b + 3 <= |s| && CodePoint(s, b) == cp && Width(s[b]) == 1
  {
    var e := Utf8Decoder.Encode(cp);
    assert s[b + 0] == e[0] && s[b + 1] == e[1] && s[b + 2] == e[2];
    Utf8Decoder.Thirds(cp);
  }

  lemma FourPayload(x: Byte, y: Byte, z: Byte, t: Byte, cp: nat)
    requires cp < 0x110000 && x == 0xF0 + cp / 262144
    requires y == 0x80 + cp / 4096 % 64 && z == 0x80 + cp / 64 % 64 && t == 0x80 + cp % 64
    ensures Bits(x, 8) * 262144 + Bits(y, 64) * 4096 + Bits(z, 64) * 64 + Bits(t, 64) == cp
    ensures 0xF0 <= x < 0xF8
  {
    Utf8Decoder.Quarters(cp);
    assert Bits(x, 8) == cp / 262144;
    assert Bits(y, 64) == cp / 4096 % 64;
    assert Bits(z, 64) == cp / 64 % 64;
    assert Bits(t, 64) == cp % 64;
  }

  lemma ReadFour(s: Bytes, b: nat, cp: nat)
    requires 0x10000 <= cp < 0x110000 && EncodedAt(s, b, cp)
    ensures Len(s[b]) == 4 && b + 4 <= |s| && CodePoint(s, b) == cp && Width(s[b]) == 2
  {
    var e := Utf8Decoder.Encode(cp);
    assert s[b + 0] == e[0] && s[b + 1] == e[1] && s[b + 2] == e[2] && s[b + 3] == e[3];
    FourPayload(s[b], s[b + 1], s[b + 2], s[b + 3], cp);
  }

  lemma ReadOne(s: Bytes, b: nat, cp: nat)
    requires cp < 0x110000 && EncodedAt(s, b, cp)
    ensures b < |s| && Len(s[b]) == |Utf8Decoder.Encode(cp)| && b + Len(s[b]) <= |s|
    ensures CodePoint(s, b) == cp && CharUnits(s, b) == Units(cp) && (Width(s[b]) == 2 <==> cp >= 0x10000)
  {
    if cp < 0x80 { assert s[b + 0] == Utf8Decoder.Encode(cp)[0]; }
    else if cp < 0x800 { ReadTwo(s, b, cp); }
    else if cp < 0x10000 { ReadThree(s, b, cp); }
    else { ReadFour(s, b, cp); }
  }

  lemma EncodedMiddle(pre: Bytes, cp: nat, rest: Bytes)
    requires cp < 0x110000
    ensures EncodedAt(pre + (Utf8Decoder.Encode(cp) + rest), |pre|, cp)
  {
    hide Utf8Decoder.Encode;
  }

  /** Any code points, lone surrogates included, encoded at the end of a string. */
  lemma {:induction false} ScanFrom(pre: Bytes, cps: seq<nat>)
    requires Utf8Decoder.CodeSpace(cps)
    ensures var s := pre + Utf8Decoder.EncodeAll(cps);
            && Fits(s, |pre|, |s|) && Paired(s, |pre|, |s|)
            && Utf16(s, |pre|, |s|) == AllUnits(cps)
    decreases |cps|
  {
    hide Utf8Decoder.Encode, CodePoint, CharUnits, Units;
    if cps != [] {
      var e, rest := Utf8Decoder.Encode(cps[0]), Utf8Decoder.EncodeAll(cps[1..]);
      var s := pre + (e + rest);
      EncodedMiddle(pre, cps[0], rest);
      ReadOne(s, |pre|, cps[0]);
      assert s == (pre + e) + rest;
      ScanFrom(pre + e, cps[1..]);
    }
  }

  /** The scan of an encoded string gives the UTF-16 form of what it encodes. */
  lemma ScanMeans(cps: seq<nat>)
    requires Utf8Decoder.CodeSpace(cps)
    ensures var s := Utf8Decoder.EncodeAll(cps);
            Fits(s, 0, |s|) && Paired(s, 0, |s|) && Utf16(s, 0, |s|) == AllUnits(cps)
  {
    ScanFrom([], cps);
    assert [] + Utf8Decoder.EncodeAll(cps) == Utf8Decoder.EncodeAll(cps);
  }

  /** Every valid UTF-8 string is scanned as the UTF-16 form of its code points. */
  lemma ValidMeans(s: Bytes)
    requires Utf8Decoder.Valid(s)
    ensures Fits(s, 0, |s|) && Paired(s, 0, |s|) && Utf16(s, 0, |s|) == AllUnits(Utf8Decoder.CodePoints(s))
  {
    Utf8Decoder.ValidIsEncoding(s);
    ScanMeans(Utf8Decoder.CodePoints(s));
  }
}
