/**
 Quoting strings as JSON and reading string literals back.

 Strings are WTF-8: UTF-8 that may also hold lone surrogates, each in three bytes.
 */
module JsonQuote {
  import opened Basics
  import opened Utf8Decoder

  const QUOTE: Byte := 0x22
  const BACKSLASH: Byte := 0x5C
  const U: Byte := 0x75

  predicate IsHigh(cp: nat) { 0xD800 <= cp <= 0xDBFF }
  predicate IsLow(cp: nat) { 0xDC00 <= cp <= 0xDFFF }

  function Pair(hi: nat, lo: nat): (cp: nat)
    requires IsHigh(hi) && IsLow(lo)
    ensures 0x10000 <= cp < 0x110000
  {
    0x10000 + (hi - 0xD800) * 1024 + (lo - 0xDC00)
  }

  // ---- hexadecimal ----

  /** hex_char of the low four bits. */
  function HexChar(v: nat): (c: Byte)
    ensures IsXDigit(c) && Unhex(c) == v % 16
  {
    var d := v % 16;
    if d < 10 then 0x30 + d else 0x57 + d
  }

  predicate IsXDigit(c: Byte) {
    0x30 <= c <= 0x39 || 0x61 <= c <= 0x66 || 0x41 <= c <= 0x46
  }

  /** unhex: low four bits plus nine for letters. */
  function Unhex(c: Byte): nat {
    c % 16 + c / 64 * 9
  }

  function Hex4(a: Byte, b: Byte, c: Byte, d: Byte): nat {
    Unhex(a) * 4096 + Unhex(b) * 256 + Unhex(c) * 16 + Unhex(d)
  }

  // ---- quoting ----

  /** json_ascii_escape_action: 0 copies the byte, 'u' writes a hexadecimal escape. */
  function Action(c: Byte): Byte
    requires c < 0x80
  {
    if c == QUOTE then QUOTE
    else if c == BACKSLASH then BACKSLASH
    else if c == 0x08 then 0x62
    else if c == 0x0C then 0x66
    else if c == 0x0A then 0x6E
    else if c == 0x0D then 0x72
    else if c == 0x09 then 0x74
    else if c < 0x20 then U
    else 0
  }

  /** utf8_json_quote_append_u_escape */
  function UEscape(unit: nat): (e: Bytes)
    ensures |e| == 6
  {
    [BACKSLASH, U, HexChar(unit / 4096), HexChar(unit / 256), HexChar(unit / 16), HexChar(unit)]
  }

  function QuoteAscii(c: Byte): Bytes
    requires c < 0x80
  {
    if Action(c) == 0 then [c] else if Action(c) == U then UEscape(c) else [BACKSLASH, Action(c)]
  }

  predicate Follows(c: Byte) { 0x80 <= c < 0xC0 }

  datatype Decoded = Decoded(len: nat, cp: nat)

  /** wtf8_decode_at the front of s; length 0 when there is no whole character. */
  function WtfAt(s: Bytes): (d: Decoded)
    requires s != []
    ensures d.len <= |s|
  {
    var c := s[0];
    if c < 0x80 then Decoded(1, c)
    else
      var n := if c < 0xC0 then 0 else if c < 0xE0 then 2 else if c < 0xF0 then 3 else 4;
      if n == 0 || n > |s| then Decoded(0, 0)
      else if n == 2 then (if Follows(s[1]) then Decoded(2, Bits(c, 32) * 64 + Bits(s[1], 64)) else Decoded(0, 0))
      else if n == 3 then
        (if Follows(s[1]) && Follows(s[2])
         then Decoded(3, (Bits(c, 16) * 64 + Bits(s[1], 64)) * 64 + Bits(s[2], 64)) else Decoded(0, 0))
      else
        (if Follows(s[1]) && Follows(s[2]) && Follows(s[3])
         then Decoded(4, ((Bits(c, 8) * 64 + Bits(s[1], 64)) * 64 + Bits(s[2], 64)) * 64 + Bits(s[3], 64))
         else Decoded(0, 0))
  }

  /** How the loop of utf8_json_quote treats the front of s: bytes consumed and written. */
  function QuoteStep(s: Bytes): (r: (nat, Bytes))
    requires s != []
    ensures 1 <= r.0 <= |s|
  {
    if s[0] < 0x80 then (1, QuoteAscii(s[0]))
    else
      var d := WtfAt(s);
      if d.len == 0 then (1, [s[0]])
      else if IsHigh(d.cp) && d.len < |s| && WtfAt(s[d.len..]).len != 0 && IsLow(WtfAt(s[d.len..]).cp)
      then (d.len + WtfAt(s[d.len..]).len, Encode(Pair(d.cp, WtfAt(s[d.len..]).cp)))
      else if IsHigh(d.cp) || IsLow(d.cp) then (d.len, UEscape(d.cp))
      else (d.len, s[..d.len])
  }

  function QuoteBody(s: Bytes): Bytes {
    if s == [] then [] else QuoteStep(s).1 + QuoteBody(s[QuoteStep(s).0..])
  }

  /** utf8_json_quote */
  method Quote(s: Bytes) returns (out: Bytes)
    ensures out == [QUOTE] + QuoteBody(s) + [QUOTE]
  {
    hide QuoteStep;
    out := [QUOTE];
    var i := 0;
    assert s[0..] == s;
    while i < |s|
      invariant 0 <= i <= |s| && out + QuoteBody(s[i..]) == [QUOTE] + QuoteBody(s)
    {
      var (n, piece) := QuoteStep(s[i..]);
      assert s[i..][n..] == s[i + n..];
      ghost var rest := QuoteBody(s[i + n..]);
      assert out + (piece + rest) == (out + piece) + rest;
      out, i := out + piece, i + n;
    }
    assert s[i..] == [];
    assert out + [] == out;
    out := out + [QUOTE];
  }

  // ---- reading escapes ----

  function At(t: Bytes, i: nat): Byte {
    if i < |t| then t[i] else 0
  }

  /** utf8_encode: nothing for numbers beyond the code space. */
  function Emit(cp: nat): Bytes {
    if cp < 0x110000 then Encode(cp) else []
  }

  /** The digits of a braced escape from position i: the value (32 bits) and where they stop. */
  function Braced(t: Bytes, i: nat, cp: nat): (r: (nat, nat))
    requires i <= |t|
    ensures i <= r.1 <= |t|
    decreases |t| - i
  {
    if i < |t| && IsXDigit(t[i]) then Braced(t, i + 1, (cp * 16 + Unhex(t[i])) % 0x1_0000_0000) else (cp, i)
  }

  predicate IsOctal(c: Byte) { 0x30 <= c <= 0x37 }

  predicate FourHex(t: Bytes, i: nat) {
    i + 3 < |t| && IsXDigit(t[i]) && IsXDigit(t[i + 1]) && IsXDigit(t[i + 2]) && IsXDigit(t[i + 3])
  }

  /** decode_unicode_fixed: joins an escaped pair, otherwise takes four digits. */
  function UnicodeFixed(t: Bytes): (r: (Bytes, nat))
    requires FourHex(t, 2)
    ensures r.1 == 4 || (r.1 == 10 && |t| >= 12)
  {
    var cp := Hex4(t[2], t[3], t[4], t[5]);
    if IsHigh(cp) && 11 < |t| && t[6] == BACKSLASH && t[7] == U && FourHex(t, 8)
       && IsLow(Hex4(t[8], t[9], t[10], t[11]))
    then (Emit(Pair(cp, Hex4(t[8], t[9], t[10], t[11]))), 10)
    else (Emit(cp), 4)
  }

  function OctalEscape(t: Bytes): (r: (Bytes, nat))
    requires |t| >= 2 && IsOctal(t[1])
    ensures r.1 <= 2
  {
    var v: nat := t[1] - 0x30;
    if !IsOctal(At(t, 2)) then (Emit(v), 0)
    else
      var w: nat := v * 8 + (At(t, 2) - 0x30);
      if IsOctal(At(t, 3)) && w * 8 + (At(t, 3) - 0x30) <= 255 then (Emit(w * 8 + (At(t, 3) - 0x30)), 2)
      else (Emit(w), 1)
  }

  /** decode_escape on a text that starts with a backslash: bytes written and extra bytes consumed. */
  function Escape(t: Bytes, quote: Byte): (r: (Bytes, nat))
    requires |t| >= 2
  {
    var c := t[1];
    if c == 0x6E then ([0x0A], 0)
    else if c == 0x74 then ([0x09], 0)
    else if c == 0x72 then ([0x0D], 0)
    else if c == 0x76 then ([0x0B], 0)
    else if c == 0x66 then ([0x0C], 0)
    else if c == 0x62 then ([0x08], 0)
    else if c == BACKSLASH then ([BACKSLASH], 0)
    else if c == 0x30 && !IsOctal(At(t, 2)) then ([0], 0)
    else if IsOctal(c) then OctalEscape(t)
    else if c == 0x78 then
      (if 3 < |t| && IsXDigit(t[2]) && IsXDigit(t[3]) then (Emit(Unhex(t[2]) * 16 + Unhex(t[3])), 2) else ([c], 0))
    else if c == U then
      (if 2 < |t| && t[2] == 0x7B then
         var (cp, i) := Braced(t, 3, 0);
         if i < |t| && t[i] == 0x7D then (Emit(cp), i - 1) else ([U], 0)
       else if FourHex(t, 2) then UnicodeFixed(t)
       else ([c], 0))
    else ([if c == quote then quote else c], 0)
  }

  /** The body of a literal from here on; t ends with the closing quote. */
  function Unescape(t: Bytes, quote: Byte): Bytes
    decreases |t|
  {
    if |t| < 2 then []
    else if t[0] == BACKSLASH then
      var (bytes, extra) := Escape(t, quote);
      bytes + (if extra + 2 <= |t| then Unescape(t[extra + 2..], quote) else [])
    else [t[0]] + Unescape(t[1..], quote)
  }

  /** sv_lexer_str_literal, outside strict mode, on a token with its quotes. */
  method ReadLiteral(token: Bytes) returns (out: Bytes)
    requires |token| >= 2
    ensures out == Unescape(token[1..], token[0])
  {
    hide Escape, Unescape;
    out := [];
    var p := 1;
    ghost var whole := Unescape(token[1..], token[0]);
    assert [] + whole == whole;
    while p + 1 < |token|
      invariant 1 <= p && whole == out + Remaining(token, p)
      decreases |token| - p
    {
      if token[p] == BACKSLASH {
        var (bytes, extra) := Escape(token[p..], token[0]);
        EscapeStep(token, p, out, bytes, extra);
        out, p := out + bytes, p + extra + 2;
      } else {
        CopyStep(token, p, out);
        out, p := out + [token[p]], p + 1;
      }
    }
    NothingLeft(token, p, out);
  }

  function Remaining(token: Bytes, p: nat): Bytes
    requires token != []
  {
    if p <= |token| then Unescape(token[p..], token[0]) else []
  }

  lemma EscapeStep(token: Bytes, p: nat, out: Bytes, bytes: Bytes, extra: nat)
    requires p + 1 < |token| && token[p] == BACKSLASH && (bytes, extra) == Escape(token[p..], token[0])
    ensures out + Remaining(token, p) == (out + bytes) + Remaining(token, p + extra + 2)
  {
    hide Escape;
    var t := token[p..];
    if p + extra + 2 <= |token| { assert t[extra + 2..] == token[p + extra + 2..]; }
    assert out + (bytes + Remaining(token, p + extra + 2)) == (out + bytes) + Remaining(token, p + extra + 2);
  }

  lemma CopyStep(token: Bytes, p: nat, out: Bytes)
    requires p + 1 < |token| && token[p] != BACKSLASH
    ensures out + Remaining(token, p) == (out + [token[p]]) + Remaining(token, p + 1)
  {
    hide Escape;
    var t := token[p..];
    assert t[1..] == token[p + 1..];
    assert out + ([token[p]] + Remaining(token, p + 1)) == (out + [token[p]]) + Remaining(token, p + 1);
  }

  lemma NothingLeft(token: Bytes, p: nat, out: Bytes)
    requires token != [] && p + 1 >= |token|
    ensures out + Remaining(token, p) == out
  {
    assert out + [] == out;
  }

  // ---- quoting, code point by code point ----

  /** Canonical WTF-8 never writes a surrogate pair as two characters. */
  ghost predicate Canonical(cps: seq<nat>) {
    forall i :: 0 <= i < |cps| - 1 ==> !(IsHigh(cps[i]) && IsLow(cps[i + 1]))
  }

  /** Joins adjacent surrogates. */
  function Merge(cps: seq<nat>): (m: seq<nat>)
    requires CodeSpace(cps)
    ensures CodeSpace(m) && Canonical(m) && (Canonical(cps) ==> m == cps)
    ensures cps != [] ==> m != [] && (m[0] == cps[0] || m[0] >= 0x10000)
  {
    if cps == [] then []
    else if |cps| > 1 && IsHigh(cps[0]) && IsLow(cps[1]) then
      var rest := Merge(cps[2..]);
      [Pair(cps[0], cps[1])] + rest
    else
      var rest := Merge(cps[1..]);
      assert Canonical(cps) ==> Canonical(cps[1..]);
      [cps[0]] + rest
  }

  function QuoteCp(cp: nat): Bytes
    requires cp < 0x110000
  {
    if cp < 0x80 then QuoteAscii(cp) else if IsHigh(cp) || IsLow(cp) then UEscape(cp) else Encode(cp)
  }

  function QuoteAll(cps: seq<nat>): Bytes
    requires forall i :: 0 <= i < |cps| ==> cps[i] < 0x110000
  {
    if cps == [] then [] else QuoteCp(cps[0]) + QuoteAll(cps[1..])
  }

  lemma Wtf2(cp: nat, s: Bytes)
    requires 0x80 <= cp < 0x800 && |s| >= 2 && s[0] == 0xC0 + cp / 64 && s[1] == 0x80 + cp % 64
    ensures WtfAt(s) == Decoded(2, cp)
  {
    assert Bits(s[0], 32) == cp / 64 && Bits(s[1], 64) == cp % 64;
  }

  lemma Wtf3(cp: nat, s: Bytes)
    requires 0x800 <= cp < 0x10000 && |s| >= 3
    requires s[0] == 0xE0 + cp / 4096 && s[1] == 0x80 + cp / 64 % 64 && s[2] == 0x80 + cp % 64
    ensures WtfAt(s) == Decoded(3, cp)
  {
    assert Bits(s[0], 16) == cp / 4096 && Bits(s[1], 64) == cp / 64 % 64 && Bits(s[2], 64) == cp % 64;
    hide Bits;
    Thirds(cp);
  }

  lemma Wtf4(cp: nat, s: Bytes)
    requires 0x10000 <= cp < 0x110000 && |s| >= 4
    requires s[0] == 0xF0 + cp / 262144 && s[1] == 0x80 + cp / 4096 % 64 && s[2] == 0x80 + cp / 64 % 64
             && s[3] == 0x80 + cp % 64
    ensures WtfAt(s) == Decoded(4, cp)
  {
    assert Bits(s[0], 8) == cp / 262144 && Bits(s[1], 64) == cp / 4096 % 64;
    assert Bits(s[2], 64) == cp / 64 % 64 && Bits(s[3], 64) == cp % 64;
    hide Bits;
    Quarters(cp);
  }

  lemma WtfEncode(cp: nat, rest: Bytes)
    requires cp < 0x110000
    ensures WtfAt(Encode(cp) + rest) == Decoded(|Encode(cp)|, cp)
  {
    var s := Encode(cp) + rest;
    if cp >= 0x80 {
      hide WtfAt;
      if cp < 0x800 { Wtf2(cp, s); }
      else if cp < 0x10000 { Wtf3(cp, s); }
      else { Wtf4(cp, s); }
    }
  }

  lemma EncodeHigh(cp: nat)
    requires 0x80 <= cp < 0x110000
    ensures forall i :: 0 <= i < |Encode(cp)| ==> Encode(cp)[i] >= 0x80
  {
  }

  lemma EncodeSplit(cps: seq<nat>)
    requires CodeSpace(cps) && cps != []
    ensures EncodeAll(cps) == Encode(cps[0]) + EncodeAll(cps[1..])
    ensures EncodeAll(cps)[|Encode(cps[0])|..] == EncodeAll(cps[1..])
    ensures EncodeAll(cps)[..|Encode(cps[0])|] == Encode(cps[0])
  {
    hide Encode;
  }

  /** What the quoting loop does at the front of an encoded string. */
  lemma StepOfEncoding(cps: seq<nat>)
    requires CodeSpace(cps) && cps != []
    ensures EncodeAll(cps) != []
    ensures QuoteStep(EncodeAll(cps)) ==
            if |cps| > 1 && IsHigh(cps[0]) && IsLow(cps[1])
            then (|Encode(cps[0])| + |Encode(cps[1])|, Encode(Pair(cps[0], cps[1])))
            else (|Encode(cps[0])|, QuoteCp(cps[0]))
  {
    var s := EncodeAll(cps);
    EncodeSplit(cps);
    WtfEncode(cps[0], EncodeAll(cps[1..]));
    if cps[0] < 0x80 {
      assert s[0] == cps[0];
    } else {
      StepOfLonger(cps);
    }
  }

  lemma StepOfLonger(cps: seq<nat>)
    requires CodeSpace(cps) && cps != [] && cps[0] >= 0x80
    ensures EncodeAll(cps) != []
    ensures QuoteStep(EncodeAll(cps)) ==
            if |cps| > 1 && IsHigh(cps[0]) && IsLow(cps[1])
            then (|Encode(cps[0])| + |Encode(cps[1])|, Encode(Pair(cps[0], cps[1])))
            else (|Encode(cps[0])|, QuoteCp(cps[0]))
  {
    hide Encode, EncodeAll, WtfAt, UEscape, QuoteStep, IsHigh, IsLow;
    var x, t := Encode(cps[0]), EncodeAll(cps[1..]);
    EncodeSplit(cps);
    WtfEncode(cps[0], t);
    EncodeHigh(cps[0]);
    StepHere(x, t, cps[0]);
    if |cps| > 1 {
      EncodeSplit(cps[1..]);
      WtfEncode(cps[1], EncodeAll(cps[1..][1..]));
    } else {
      NothingToQuote();
    }
  }

  lemma StepHere(x: Bytes, t: Bytes, cp: nat)
    requires x != [] && x[0] >= 0x80 && WtfAt(x + t) == Decoded(|x|, cp)
    ensures QuoteStep(x + t) ==
            if IsHigh(cp) && t != [] && WtfAt(t).len != 0 && IsLow(WtfAt(t).cp)
            then (|x| + WtfAt(t).len, Encode(Pair(cp, WtfAt(t).cp)))
            else (|x|, if IsHigh(cp) || IsLow(cp) then UEscape(cp) else x)
  {
    hide WtfAt, Encode, UEscape, IsHigh, IsLow;
    assert (x + t)[|x|..] == t && (x + t)[..|x|] == x;
  }

  /** Quoting a string is quoting its code points with surrogate pairs joined. */
  lemma {:induction false} QuoteOfEncoding(cps: seq<nat>)
    requires CodeSpace(cps)
    ensures QuoteBody(EncodeAll(cps)) == QuoteAll(Merge(cps))
    decreases |cps|
  {
    hide Encode, EncodeAll, QuoteStep, QuoteCp, QuoteAll, QuoteBody, IsHigh, IsLow;
    if cps == [] {
      NothingToQuote();
    } else if |cps| > 1 && IsHigh(cps[0]) && IsLow(cps[1]) {
      QuoteOfEncoding(cps[2..]);
      PairStep(cps);
      QuoteCons(Pair(cps[0], cps[1]), Merge(cps[2..]));
    } else {
      QuoteOfEncoding(cps[1..]);
      SingleStep(cps);
      QuoteCons(cps[0], Merge(cps[1..]));
    }
  }

  lemma QuoteBodyStep(s: Bytes)
    requires s != []
    ensures QuoteBody(s) == QuoteStep(s).1 + QuoteBody(s[QuoteStep(s).0..])
  {
    hide QuoteStep;
  }

  lemma PairStep(cps: seq<nat>)
    requires CodeSpace(cps) && |cps| > 1 && IsHigh(cps[0]) && IsLow(cps[1])
    ensures QuoteBody(EncodeAll(cps)) == QuoteCp(Pair(cps[0], cps[1])) + QuoteBody(EncodeAll(cps[2..]))
  {
    hide Encode, EncodeAll, QuoteStep, QuoteBody, QuoteCp, IsHigh, IsLow;
    StepOfEncoding(cps);
    QuoteBodyStep(EncodeAll(cps));
    QuotePair(Pair(cps[0], cps[1]));
    SplitTwo(cps);
    DropTwo(Encode(cps[0]), Encode(cps[1]), EncodeAll(cps[2..]));
  }

  lemma SplitTwo(cps: seq<nat>)
    requires CodeSpace(cps) && |cps| > 1
    ensures EncodeAll(cps) == Encode(cps[0]) + (Encode(cps[1]) + EncodeAll(cps[2..]))
  {
    hide Encode, EncodeAll;
    EncodeSplit(cps);
    EncodeSplit(cps[1..]);
    assert cps[1..][1..] == cps[2..];
  }

  lemma DropTwo(x: Bytes, y: Bytes, z: Bytes)
    ensures (x + (y + z))[|x| + |y|..] == z
  {
  }

  lemma SingleStep(cps: seq<nat>)
    requires CodeSpace(cps) && cps != [] && !(|cps| > 1 && IsHigh(cps[0]) && IsLow(cps[1]))
    ensures QuoteBody(EncodeAll(cps)) == QuoteCp(cps[0]) + QuoteBody(EncodeAll(cps[1..]))
  {
    hide Encode, EncodeAll, QuoteStep, QuoteBody, QuoteCp, IsHigh, IsLow;
    StepOfEncoding(cps);
    QuoteBodyStep(EncodeAll(cps));
    EncodeSplit(cps);
  }

  lemma NothingToQuote()
    ensures EncodeAll([]) == [] && QuoteAll([]) == [] && QuoteBody([]) == []
  {
  }

  lemma QuoteCons(cp: nat, rest: seq<nat>)
    requires cp < 0x110000 && CodeSpace(rest)
    ensures CodeSpace([cp] + rest) && QuoteAll([cp] + rest) == QuoteCp(cp) + QuoteAll(rest)
  {
    hide QuoteCp;
    assert ([cp] + rest)[1..] == rest;
  }

  lemma QuotePair(cp: nat)
    requires 0x10000 <= cp < 0x110000
    ensures QuoteCp(cp) == Encode(cp)
  {
  }

  // ---- reading back what was quoted ----

  lemma {:induction false} CopyBytes(x: Bytes, r: Bytes, quote: Byte)
    requires r != [] && forall i :: 0 <= i < |x| ==> x[i] != BACKSLASH
    ensures Unescape(x + r, quote) == x + Unescape(r, quote)
  {
    hide Escape;
    if x == [] {
      assert x + r == r;
    } else {
      assert (x + r)[1..] == x[1..] + r;
      CopyBytes(x[1..], r, quote);
    }
  }

  lemma HexValue(v: nat)
    requires v < 0x10000
    ensures Hex4(HexChar(v / 4096), HexChar(v / 256), HexChar(v / 16), HexChar(v)) == v
  {
    hide HexChar;
    assert v / 4096 % 16 == v / 4096;
    Nibbles(v);
  }

  lemma Nibbles(v: nat)
    ensures v == v / 4096 * 4096 + v / 256 % 16 * 256 + v / 16 % 16 * 16 + v % 16
  {
    var a := v / 16;
    var b := a / 16;
    assert v / 256 == b;
    assert v / 4096 == b / 16;
    assert v == a * 16 + v % 16;
    assert a == b * 16 + a % 16;
  }

  /** The text does not go on with an escaped low surrogate. */
  ghost predicate NoLowAhead(r: Bytes) {
    !(|r| > 5 && r[0] == BACKSLASH && r[1] == U && FourHex(r, 2) && IsLow(Hex4(r[2], r[3], r[4], r[5])))
  }

  /** Only a low surrogate is written as an escaped low surrogate. */
  lemma NoFalseLow(cps: seq<nat>)
    requires CodeSpace(cps) && (cps != [] ==> !IsLow(cps[0]))
    ensures NoLowAhead(QuoteAll(cps) + [QUOTE])
  {
    var r := QuoteAll(cps) + [QUOTE];
    if cps != [] {
      var cp, q := cps[0], QuoteCp(cps[0]);
      var rest := QuoteAll(cps[1..]) + [QUOTE];
      assert r == q + rest;
      if cp < 0x80 {
        hide HexChar;
        HexValue(cp);
        if Action(cp) == U {
          assert r[2] == q[2] && r[3] == q[3] && r[4] == q[4] && r[5] == q[5];
        } else if Action(cp) != 0 {
          assert r[1] == q[1];
        }
      } else if IsHigh(cp) {
        hide HexChar;
        HexValue(cp);
        assert r[2] == q[2] && r[3] == q[3] && r[4] == q[4] && r[5] == q[5];
      } else {
        EncodeHigh(cp);
        assert r[0] == q[0];
      }
    }
  }

  lemma ReadU(v: nat, r: Bytes)
    requires v < 0x10000 && (IsHigh(v) ==> NoLowAhead(r))
    ensures Escape(UEscape(v) + r, QUOTE) == (Encode(v), 4) && (UEscape(v) + r)[6..] == r
  {
    var e, t := UEscape(v), UEscape(v) + r;
    assert t[6..] == r;
    assert t[0] == e[0] && t[1] == e[1] && t[2] == e[2] && t[3] == e[3] && t[4] == e[4] && t[5] == e[5];
    HexValue(v);
    hide HexChar, Hex4, Encode;
    if |t| > 11 {
      assert t[6] == r[0] && t[7] == r[1] && t[8] == r[2] && t[9] == r[3] && t[10] == r[4] && t[11] == r[5];
    }
  }

  lemma ReadAscii(c: Byte, r: Bytes)
    requires c < 0x80 && r != [] && Action(c) != 0 && Action(c) != U
    ensures Escape([BACKSLASH, Action(c)] + r, QUOTE) == ([c], 0)
  {
  }

  /** Reading one quoted code point gives its encoding back. */
  lemma ReadOne(cp: nat, r: Bytes)
    requires cp < 0x110000 && r != [] && (IsHigh(cp) ==> NoLowAhead(r))
    ensures Unescape(QuoteCp(cp) + r, QUOTE) == Encode(cp) + Unescape(r, QUOTE)
  {
    hide Escape, UEscape, NoLowAhead;
    if cp < 0x80 {
      if Action(cp) == 0 {
        CopyBytes([cp], r, QUOTE);
      } else if Action(cp) == U {
        ReadU(cp, r);
        UStart(cp, r);
      } else {
        ReadAscii(cp, r);
        assert ([BACKSLASH, Action(cp)] + r)[2..] == r;
      }
    } else if IsHigh(cp) || IsLow(cp) {
      ReadU(cp, r);
      UStart(cp, r);
    } else {
      EncodeHigh(cp);
      CopyBytes(Encode(cp), r, QUOTE);
    }
  }

  lemma UStart(v: nat, r: Bytes)
    ensures |UEscape(v) + r| >= 6 && (UEscape(v) + r)[0] == BACKSLASH
  {
  }

  lemma {:induction false} ReadAll(cps: seq<nat>)
    requires CodeSpace(cps) && Canonical(cps)
    ensures Unescape(QuoteAll(cps) + [QUOTE], QUOTE) == EncodeAll(cps)
  {
    hide QuoteCp, Escape, Encode;
    if cps == [] {
      assert QuoteAll(cps) + [QUOTE] == [QUOTE];
    } else {
      var rest := QuoteAll(cps[1..]) + [QUOTE];
      assert QuoteAll(cps) + [QUOTE] == QuoteCp(cps[0]) + rest;
      if IsHigh(cps[0]) {
        assert |cps| > 1 ==> cps[1..][0] == cps[1];
        NoFalseLow(cps[1..]);
      }
      ReadOne(cps[0], rest);
      forall i | 0 <= i < |cps[1..]| - 1 ensures !(IsHigh(cps[1..][i]) && IsLow(cps[1..][i + 1])) {
        assert cps[1..][i] == cps[i + 1];
      }
      ReadAll(cps[1..]);
    }
  }

  /**
   Quoting and reading back: every WTF-8 string, lone surrogates and control characters
   included, comes back with its surrogate pairs joined; a canonical one comes back as it was.
   */
  lemma QuoteRoundTrip(cps: seq<nat>)
    requires CodeSpace(cps)
    ensures Unescape(QuoteBody(EncodeAll(cps)) + [QUOTE], QUOTE) == EncodeAll(Merge(cps))
    ensures Canonical(cps) ==> Unescape(QuoteBody(EncodeAll(cps)) + [QUOTE], QUOTE) == EncodeAll(cps)
  {
    hide Unescape, QuoteBody, EncodeAll;
    QuoteOfEncoding(cps);
    ReadAll(Merge(cps));
  }
}
