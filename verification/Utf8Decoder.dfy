/**
 The streaming UTF-8 decoder (section 8.1.1 of the WHATWG Encoding Standard) and the
 validator (section 4 of RFC 3629).
 */
module Utf8Decoder {
  import opened Basics

  const REPLACEMENT: Bytes := [0xEF, 0xBF, 0xBD]
  const BOM: nat := 0xFEFF

  // ---- code points and their encodings ----

  predicate Scalar(cp: nat) {
    cp < 0xD800 || 0xE000 <= cp < 0x110000
  }

  /** utf8proc_encode_char on code points up to 0x10FFFF. */
  function Encode(cp: nat): (e: Bytes)
    requires cp < 0x110000
    ensures 1 <= |e| <= 4
  {
    if cp < 0x80 then [cp]
    else if cp < 0x800 then [0xC0 + cp / 64, 0x80 + cp % 64]
    else if cp < 0x10000 then [0xE0 + cp / 4096, 0x80 + cp / 64 % 64, 0x80 + cp % 64]
    else [0xF0 + cp / 262144, 0x80 + cp / 4096 % 64, 0x80 + cp / 64 % 64, 0x80 + cp % 64]
  }

  predicate CodeSpace(cps: seq<nat>) {
    forall i :: 0 <= i < |cps| ==> cps[i] < 0x110000
  }

  function EncodeAll(cps: seq<nat>): (e: Bytes)
    requires CodeSpace(cps)
  {
    if cps == [] then [] else Encode(cps[0]) + EncodeAll(cps[1..])
  }

  // ---- one item of a byte stream ----

  datatype Item =
    | Char(len: nat, cp: nat)     // a complete character
    | Bad(len: nat)               // bytes that make up one error
    | Cut                         // the input ends inside a character

  /** Continuation bytes a lead byte calls for; 0 when it cannot start a longer character. */
  function Needs(c: Byte): (n: nat)
    ensures n <= 3
  {
    if 0xC2 <= c <= 0xDF then 1
    else if 0xE0 <= c <= 0xEF then 2
    else if 0xF0 <= c <= 0xF4 then 3
    else 0
  }

  /** The range of the first continuation byte. */
  function Lo(c: Byte): int {
    if c == 0xE0 then 0xA0 else if c == 0xF0 then 0x90 else 0x80
  }

  function Hi(c: Byte): int {
    if c == 0xED then 0x9F else if c == 0xF4 then 0x8F else 0xBF
  }

  predicate Continues(s: Bytes, k: nat)
    requires 0 < k < |s|
  {
    if k == 1 then Lo(s[0]) <= s[1] <= Hi(s[0]) else 0x80 <= s[k] <= 0xBF
  }

  /** Payload bits of a lead byte. */
  function Lead(c: Byte): nat {
    if Needs(c) == 1 then c % 32 else if Needs(c) == 2 then c % 16 else c % 8
  }

  function Payload(s: Bytes, k: nat): nat
    requires k < |s|
  {
    if k == 0 then Lead(s[0]) else Payload(s, k - 1) * 64 + s[k] % 64
  }

  /** Continuation bytes from position k on: done, wrong, or missing. */
  function Tail(s: Bytes, k: nat): (r: Item)
    requires s != [] && 0 < k <= Needs(s[0]) + 1
    ensures r.Bad? ==> k <= r.len <= Needs(s[0]) && r.len < |s|
    ensures r.Char? ==> r.len == Needs(s[0]) + 1 <= |s|
    decreases Needs(s[0]) + 1 - k
  {
    if k == Needs(s[0]) + 1 then (if k <= |s| then Char(k, Payload(s, k - 1)) else Cut)
    else if k >= |s| then Cut
    else if Continues(s, k) then Tail(s, k + 1)
    else Bad(k)
  }

  function Next(s: Bytes): (r: Item)
    requires s != []
    ensures r.Char? ==> 1 <= r.len <= |s|
    ensures r.Bad? ==> 1 <= r.len <= |s|
  {
    if s[0] < 0x80 then Char(1, s[0])
    else if Needs(s[0]) == 0 then Bad(1)
    else Tail(s, 1)
  }

  // ---- decoding, as a function of the whole input ----

  datatype Result = Error | Output(bytes: Bytes, bom: bool, pending: Bytes)

  /** Puts text in front of a result. */
  function Prepend(x: Bytes, r: Result): Result {
    if r.Error? then r else Output(x + r.bytes, r.bom, r.pending)
  }

  function Decode(s: Bytes, bom: bool, ignoreBom: bool, fatal: bool, stream: bool): Result {
    if s == [] then Output([], bom, [])
    else match Next(s)
      case Char(n, cp) =>
        if n > 1 && !bom && cp == BOM && !ignoreBom then Decode(s[n..], true, ignoreBom, fatal, stream)
        else Prepend(s[..n], Decode(s[n..], true, ignoreBom, fatal, stream))
      case Bad(n) =>
        if fatal then Error else Prepend(REPLACEMENT, Decode(s[n..], true, ignoreBom, fatal, stream))
      case Cut =>
        if stream then Output([], bom, s)
        else if fatal then Error
        else Output(REPLACEMENT, bom, [])
  }

  // ---- items do not look past their own bytes ----

  lemma {:induction false} TailStable(s: Bytes, t: Bytes, k: nat)
    requires s != [] && 0 < k <= Needs(s[0]) + 1 && !Tail(s, k).Cut?
    ensures (s + t)[0] == s[0] && Tail(s + t, k) == Tail(s, k)
    decreases Needs(s[0]) + 1 - k
  {
    if k == Needs(s[0]) + 1 {
      PayloadStable(s, t, k - 1);
    } else if Continues(s, k) {
      TailStable(s, t, k + 1);
    }
  }

  lemma {:induction false} PayloadStable(s: Bytes, t: Bytes, k: nat)
    requires k < |s|
    ensures Payload(s + t, k) == Payload(s, k)
  {
    if k > 0 { PayloadStable(s, t, k - 1); }
  }

  lemma NextStable(s: Bytes, t: Bytes)
    requires s != [] && !Next(s).Cut?
    ensures Next(s + t) == Next(s)
  {
    hide Tail;
    if s[0] >= 0x80 && Needs(s[0]) != 0 { TailStable(s, t, 1); }
  }

  /** Decoding in two chunks is decoding at once: nothing depends on where input is split. */
  lemma {:induction false} ChunkInvariance(a: Bytes, b: Bytes, bom: bool, ignoreBom: bool, fatal: bool, stream: bool)
    ensures var first := Decode(a, bom, ignoreBom, fatal, true);
            Decode(a + b, bom, ignoreBom, fatal, stream) ==
              if first.Error? then Error
              else Prepend(first.bytes, Decode(first.pending + b, first.bom, ignoreBom, fatal, stream))
    decreases |a|
  {
    hide Next;
    if a == [] {
      assert [] + b == b;
      PrependNothing(Decode(b, bom, ignoreBom, fatal, stream));
    } else if Next(a).Cut? {
      PrependNothing(Decode(a + b, bom, ignoreBom, fatal, stream));
    } else {
      var n := Next(a).len;
      NextStable(a, b);
      assert (a + b)[n..] == a[n..] + b && (a + b)[..n] == a[..n];
      if !(Next(a).Bad? && fatal) {
        ChunkInvariance(a[n..], b, true, ignoreBom, fatal, stream);
        var rest := Decode(a[n..], true, ignoreBom, fatal, true);
        if rest.Output? {
          var last := Decode(rest.pending + b, rest.bom, ignoreBom, fatal, stream);
          PrependTwice(a[..n], rest.bytes, last);
          PrependTwice(REPLACEMENT, rest.bytes, last);
        }
      }
    }
  }

  /** A final decode holds nothing back. */
  lemma {:induction false} DecodeFinal(s: Bytes, bom: bool, ignoreBom: bool, fatal: bool)
    ensures var r := Decode(s, bom, ignoreBom, fatal, false); r.Output? ==> r.pending == []
    decreases |s|
  {
    if s != [] && !Next(s).Cut? { DecodeFinal(s[Next(s).len..], true, ignoreBom, fatal); }
  }

  lemma PrependNothing(r: Result)
    ensures Prepend([], r) == r
  {
  }

  lemma PrependTwice(x: Bytes, y: Bytes, r: Result)
    ensures Prepend(x, Prepend(y, r)) == Prepend(x + y, r)
  {
    if r.Output? { assert x + (y + r.bytes) == (x + y) + r.bytes; }
  }

  /** A whole session: every chunk but the last is streamed. */
  function Session(chunks: seq<Bytes>, pending: Bytes, bom: bool, ignoreBom: bool, fatal: bool): Result {
    if |chunks| == 0 then Decode(pending, bom, ignoreBom, fatal, false)
    else if |chunks| == 1 then Decode(pending + chunks[0], bom, ignoreBom, fatal, false)
    else
      var r := Decode(pending + chunks[0], bom, ignoreBom, fatal, true);
      if r.Error? then Error else Prepend(r.bytes, Session(chunks[1..], r.pending, r.bom, ignoreBom, fatal))
  }

  function Concat(chunks: seq<Bytes>): Bytes {
    if chunks == [] then [] else chunks[0] + Concat(chunks[1..])
  }

  /** However the input is chunked, the session yields what one final decode yields. */
  lemma {:induction false} SessionIsOneDecode(chunks: seq<Bytes>, pending: Bytes, bom: bool, ignoreBom: bool,
                                              fatal: bool)
    ensures Session(chunks, pending, bom, ignoreBom, fatal) ==
              Decode(pending + Concat(chunks), bom, ignoreBom, fatal, false)
    decreases |chunks|
  {
    hide Decode;
    if |chunks| == 0 {
      assert pending + [] == pending;
    } else if |chunks| == 1 {
      assert Concat(chunks[1..]) == [];
      assert chunks[0] + [] == chunks[0];
    } else {
      var a, b := pending + chunks[0], Concat(chunks[1..]);
      assert pending + Concat(chunks) == a + b;
      ChunkInvariance(a, b, bom, ignoreBom, fatal, false);
      var r := Decode(a, bom, ignoreBom, fatal, true);
      if r.Output? { SessionIsOneDecode(chunks[1..], r.pending, r.bom, ignoreBom, fatal); }
    }
  }

  // ---- what a character is ----

  lemma Digits2(a: nat, b: nat)
    requires b < 64
    ensures var n := a * 64 + b; n / 64 == a && n % 64 == b
  {
  }

  lemma Digits3(a: nat, b: nat, c: nat)
    requires b < 64 && c < 64
    ensures var n := a * 4096 + b * 64 + c; n / 4096 == a && n / 64 % 64 == b && n % 64 == c
  {
    Digits2(a * 64 + b, c);
    Digits2(a, b);
  }

  lemma Digits4(a: nat, b: nat, c: nat, d: nat)
    requires b < 64 && c < 64 && d < 64
    ensures var n := a * 262144 + b * 4096 + c * 64 + d;
            n / 262144 == a && n / 4096 % 64 == b && n / 64 % 64 == c && n % 64 == d
  {
    Digits2(a * 4096 + b * 64 + c, d);
    Digits3(a, b, c);
  }

  lemma Join2(x: int, y: int)
    requires 0xC2 <= x <= 0xDF && 0x80 <= y <= 0xBF
    ensures var n := x % 32 * 64 + y % 64; 0x80 <= n < 0x800 && 0xC0 + n / 64 == x && 0x80 + n % 64 == y
  {
    assert x % 32 == x - 0xC0 && y % 64 == y - 0x80;
    Digits2(x - 0xC0, y - 0x80);
  }

  lemma Join3(x: int, y: int, z: int)
    requires 0xE0 <= x <= 0xEF && 0x80 <= y <= 0xBF && 0x80 <= z <= 0xBF && (x == 0xE0 ==> y >= 0xA0)
             && (x == 0xED ==> y <= 0x9F)
    ensures var n := (x % 16 * 64 + y % 64) * 64 + z % 64;
            && 0x800 <= n < 0x10000 && Scalar(n)
            && 0xE0 + n / 4096 == x && 0x80 + n / 64 % 64 == y && 0x80 + n % 64 == z
  {
    assert x % 16 == x - 0xE0 && y % 64 == y - 0x80 && z % 64 == z - 0x80;
    Digits3(x - 0xE0, y - 0x80, z - 0x80);
  }

  lemma Join4(x: int, y: int, z: int, t: int)
    requires 0xF0 <= x <= 0xF4 && 0x80 <= y <= 0xBF && 0x80 <= z <= 0xBF && 0x80 <= t <= 0xBF
    requires (x == 0xF0 ==> y >= 0x90) && (x == 0xF4 ==> y <= 0x8F)
    ensures x % 8 == x - 0xF0 && y % 64 == y - 0x80 && z % 64 == z - 0x80 && t % 64 == t - 0x80
    ensures var n := (x - 0xF0) * 262144 + (y - 0x80) * 4096 + (z - 0x80) * 64 + (t - 0x80);
            && 0x10000 <= n < 0x110000
            && 0xF0 + n / 262144 == x && 0x80 + n / 4096 % 64 == y && 0x80 + n / 64 % 64 == z && 0x80 + n % 64 == t
  {
    Digits4(x - 0xF0, y - 0x80, z - 0x80, t - 0x80);
  }

  lemma Decoded(s: Bytes)
    requires s != [] && Needs(s[0]) > 0 && |s| > Needs(s[0])
    requires forall j :: 1 <= j <= Needs(s[0]) ==> Continues(s, j)
    ensures var cp := Payload(s, Needs(s[0])); cp < 0x110000 && Scalar(cp) && Encode(cp) == s[..Needs(s[0]) + 1]
  {
    hide Payload, Encode;
    assert Continues(s, 1);
    if Needs(s[0]) == 1 {
      Decoded2(s, s[0], s[1]);
    } else if Needs(s[0]) == 2 {
      assert Continues(s, 2);
      Decoded3(s, s[0], s[1], s[2]);
    } else {
      assert Continues(s, 2) && Continues(s, 3);
      Decoded4(s, s[0], s[1], s[2], s[3]);
    }
  }

  lemma Decoded2(s: Bytes, x: int, y: int)
    requires |s| >= 2 && x == s[0] && y == s[1] && Needs(s[0]) == 1 && 0x80 <= y <= 0xBF
    ensures var cp := Payload(s, 1); cp < 0x110000 && Scalar(cp) && Encode(cp) == s[..2]
  {
    hide Encode;
    Join2(x, y);
    assert Payload(s, 1) == x % 32 * 64 + y % 64;
    Made2(x % 32 * 64 + y % 64, s);
  }

  lemma Decoded3(s: Bytes, x: int, y: int, z: int)
    requires |s| >= 3 && x == s[0] && y == s[1] && z == s[2] && Needs(s[0]) == 2
    requires Lo(s[0]) <= y <= Hi(s[0]) && 0x80 <= z <= 0xBF
    ensures var cp := Payload(s, 2); cp < 0x110000 && Scalar(cp) && Encode(cp) == s[..3]
  {
    hide Encode;
    Join3(x, y, z);
    assert Payload(s, 1) == x % 16 * 64 + y % 64;
    assert Payload(s, 2) == (x % 16 * 64 + y % 64) * 64 + z % 64;
    Made3((x % 16 * 64 + y % 64) * 64 + z % 64, s);
  }

  lemma Decoded4(s: Bytes, x: int, y: int, z: int, t: int)
    requires |s| >= 4 && x == s[0] && y == s[1] && z == s[2] && t == s[3] && Needs(s[0]) == 3
    requires Lo(s[0]) <= y <= Hi(s[0]) && 0x80 <= z <= 0xBF && 0x80 <= t <= 0xBF
    ensures var cp := Payload(s, 3); cp < 0x110000 && Scalar(cp) && Encode(cp) == s[..4]
  {
    hide Encode;
    Join4(x, y, z, t);
    var a, b, c, d := x - 0xF0, y - 0x80, z - 0x80, t - 0x80;
    assert Payload(s, 0) == a;
    assert Payload(s, 1) == a * 64 + b;
    assert Payload(s, 2) == a * 4096 + b * 64 + c;
    assert Payload(s, 3) == a * 262144 + b * 4096 + c * 64 + d;
    Made4(a * 262144 + b * 4096 + c * 64 + d, s);
  }

  lemma Made2(n: nat, s: Bytes)
    requires 0x80 <= n < 0x800 && |s| >= 2 && s[0] == 0xC0 + n / 64 && s[1] == 0x80 + n % 64
    ensures Encode(n) == s[..2]
  {
  }

  lemma Made3(n: nat, s: Bytes)
    requires 0x800 <= n < 0x10000 && |s| >= 3
    requires s[0] == 0xE0 + n / 4096 && s[1] == 0x80 + n / 64 % 64 && s[2] == 0x80 + n % 64
    ensures Encode(n) == s[..3]
  {
  }

  lemma Made4(n: nat, s: Bytes)
    requires 0x10000 <= n < 0x110000 && |s| >= 4
    requires s[0] == 0xF0 + n / 262144 && s[1] == 0x80 + n / 4096 % 64 && s[2] == 0x80 + n / 64 % 64
             && s[3] == 0x80 + n % 64
    ensures Encode(n) == s[..4]
  {
  }

  lemma {:induction false} TailContinues(s: Bytes, k: nat)
    requires s != [] && 0 < k <= Needs(s[0]) + 1 && Tail(s, k).Char?
    ensures |s| > Needs(s[0]) && Tail(s, k) == Char(Needs(s[0]) + 1, Payload(s, Needs(s[0])))
    ensures forall j :: k <= j <= Needs(s[0]) ==> Continues(s, j)
    decreases Needs(s[0]) + 1 - k
  {
    if k <= Needs(s[0]) { TailContinues(s, k + 1); }
  }

  /** A complete character is the encoding of one scalar value. */
  lemma CharIsEncoding(s: Bytes)
    requires s != [] && Next(s).Char?
    ensures var Char(n, cp) := Next(s); cp < 0x110000 && Scalar(cp) && Encode(cp) == s[..n]
  {
    hide Payload, Continues;
    if s[0] >= 0x80 {
      TailContinues(s, 1);
      Decoded(s);
    }
  }

  lemma EncodeInjective(a: nat, b: nat)
    requires a < 0x110000 && b < 0x110000 && Encode(a) == Encode(b)
    ensures a == b
  {
    var x, y := Encode(a), Encode(b);
    assert |x| == |y| && x[0] == y[0];
    if |x| == 2 {
      SamePair(a, b, x, y);
    } else if |x| == 3 {
      assert x[1] == y[1] && x[2] == y[2];
      Thirds(a);
      Thirds(b);
    } else if |x| == 4 {
      assert x[1] == y[1] && x[2] == y[2] && x[3] == y[3];
      Quarters(a);
      Quarters(b);
    }
  }

  lemma SamePair(a: nat, b: nat, x: Bytes, y: Bytes)
    requires 0x80 <= a < 0x800 && 0x80 <= b < 0x800 && x == Encode(a) && y == Encode(b) && x == y
    ensures a == b
  {
    assert x[0] == y[0] && x[1] == y[1];
  }

  lemma Thirds(a: nat)
    ensures a == a / 4096 * 4096 + a / 64 % 64 * 64 + a % 64
  {
    var b := a / 64;
    assert a / 4096 == b / 64;
    assert a == b * 64 + a % 64;
    assert b == b / 64 * 64 + b % 64;
  }

  lemma Quarters(a: nat)
    ensures a == a / 262144 * 262144 + a / 4096 % 64 * 4096 + a / 64 % 64 * 64 + a % 64
  {
    Thirds(a);
    var b := a / 4096;
    assert a / 262144 == b / 64;
    assert b == b / 64 * 64 + b % 64;
  }

  lemma {:induction false} AllContinue(s: Bytes, k: nat)
    requires s != [] && 0 < k <= Needs(s[0]) + 1 <= |s|
    requires forall j :: k <= j <= Needs(s[0]) ==> Continues(s, j)
    ensures Tail(s, k) == Char(Needs(s[0]) + 1, Payload(s, Needs(s[0])))
    decreases Needs(s[0]) + 1 - k
  {
    if k <= Needs(s[0]) {
      assert Continues(s, k);
      AllContinue(s, k + 1);
    }
  }

  /** The first byte of a longer encoding announces it, and the rest continue it. */
  lemma EncodingContinues(cp: nat, s: Bytes)
    requires 0x80 <= cp < 0x110000 && Scalar(cp) && |s| >= |Encode(cp)| && s[..|Encode(cp)|] == Encode(cp)
    ensures Needs(s[0]) + 1 == |Encode(cp)| && forall j :: 1 <= j <= Needs(s[0]) ==> Continues(s, j)
  {
    var e := Encode(cp);
    forall i | 0 <= i < |e| ensures s[i] == e[i] { assert s[..|e|][i] == e[i]; }
    if cp >= 0x10000 { FourBounds(cp); } else if cp >= 0x800 { ThreeBounds(cp); }
  }

  lemma ThreeBounds(cp: nat)
    requires 0x800 <= cp < 0x10000 && Scalar(cp)
    ensures cp / 4096 < 16 && (cp / 4096 == 0 ==> cp / 64 % 64 >= 0x20) && (cp / 4096 == 13 ==> cp / 64 % 64 < 0x20)
  {
  }

  lemma FourBounds(cp: nat)
    requires 0x10000 <= cp < 0x110000
    ensures cp / 262144 < 5 && (cp / 262144 == 0 ==> cp / 4096 % 64 >= 0x10)
            && (cp / 262144 == 4 ==> cp / 4096 % 64 < 0x10)
  {
  }

  /** The encoding of a scalar value is read back as that value, whatever follows. */
  lemma EncodingIsChar(cp: nat, rest: Bytes)
    requires cp < 0x110000 && Scalar(cp)
    ensures Next(Encode(cp) + rest) == Char(|Encode(cp)|, cp)
  {
    var s := Encode(cp) + rest;
    if cp >= 0x80 {
      hide Payload;
      assert s[..|Encode(cp)|] == Encode(cp);
      EncodingContinues(cp, s);
      AllContinue(s, 1);
      hide Encode;
      Decoded(s);
      EncodeInjective(Payload(s, Needs(s[0])), cp);
    }
  }

  // ---- validity ----

  predicate Valid(s: Bytes) {
    s == [] || (Next(s).Char? && Valid(s[Next(s).len..]))
  }

  function CodePoints(s: Bytes): (cps: seq<nat>)
    requires Valid(s)
  {
    if s == [] then [] else [Next(s).cp] + CodePoints(s[Next(s).len..])
  }

  ghost predicate AllScalar(cps: seq<nat>) {
    forall i :: 0 <= i < |cps| ==> cps[i] < 0x110000 && Scalar(cps[i])
  }

  lemma EncodeCons(cp: nat, rest: seq<nat>)
    requires cp < 0x110000 && Scalar(cp) && AllScalar(rest)
    ensures AllScalar([cp] + rest) && EncodeAll([cp] + rest) == Encode(cp) + EncodeAll(rest)
  {
    hide Encode;
    assert ([cp] + rest)[1..] == rest;
  }

  /** Valid byte strings are exactly the encodings of sequences of scalar values. */
  lemma {:induction false} ValidIsEncoding(s: Bytes)
    requires Valid(s)
    ensures AllScalar(CodePoints(s)) && EncodeAll(CodePoints(s)) == s
    decreases |s|
  {
    hide Next, Encode;
    if s != [] {
      var Char(n, cp) := Next(s);
      var rest := CodePoints(s[n..]);
      CharIsEncoding(s);
      ValidIsEncoding(s[n..]);
      EncodeCons(cp, rest);
      assert s[..n] + s[n..] == s;
    }
  }

  lemma {:induction false} EncodingIsValid(cps: seq<nat>)
    requires AllScalar(cps)
    ensures Valid(EncodeAll(cps)) && CodePoints(EncodeAll(cps)) == cps
  {
    hide Next, Encode;
    if cps != [] {
      var rest := EncodeAll(cps[1..]);
      EncodingIsChar(cps[0], rest);
      EncodingIsValid(cps[1..]);
      var s := EncodeAll(cps);
      assert s[|Encode(cps[0])|..] == rest;
      assert [cps[0]] + cps[1..] == cps;
    }
  }

  lemma {:induction false} ValidConcat(a: Bytes, b: Bytes)
    requires Valid(a) && Valid(b)
    ensures Valid(a + b)
    decreases |a|
  {
    hide Next;
    if a == [] {
      assert a + b == b;
    } else {
      var n := Next(a).len;
      NextStable(a, b);
      ValidConcat(a[n..], b);
      assert (a + b)[n..] == a[n..] + b;
    }
  }

  lemma CharValid(s: Bytes)
    requires s != [] && Next(s).Char?
    ensures Valid(s[..Next(s).len])
  {
    hide Next, Encode;
    CharIsEncoding(s);
    var Char(n, cp) := Next(s);
    EncodingIsChar(cp, []);
    assert Encode(cp) + [] == s[..n];
    assert s[..n][n..] == [];
  }

  lemma ReplacementValid()
    ensures Valid(REPLACEMENT) && Encode(0xFFFD) == REPLACEMENT
  {
    EncodingIsChar(0xFFFD, []);
    assert Encode(0xFFFD) + [] == REPLACEMENT;
    assert REPLACEMENT[3..] == [];
  }

  /** A fatal decode of complete input succeeds exactly on valid input. */
  lemma {:induction false} FatalIffValid(s: Bytes, bom: bool, ignoreBom: bool)
    ensures Decode(s, bom, ignoreBom, true, false).Output? <==> Valid(s)
    decreases |s|
  {
    hide Next;
    if s != [] && Next(s).Char? { FatalIffValid(s[Next(s).len..], true, ignoreBom); }
  }

  /** Whatever the input, what comes out without an error is valid UTF-8. */
  lemma {:induction false} OutputValid(s: Bytes, bom: bool, ignoreBom: bool, fatal: bool, stream: bool)
    ensures var r := Decode(s, bom, ignoreBom, fatal, stream); r.Output? ==> Valid(r.bytes)
    decreases |s|
  {
    hide Next;
    ReplacementValid();
    if s != [] && !Next(s).Cut? && !(Next(s).Bad? && fatal) {
      var n := Next(s).len;
      OutputValid(s[n..], true, ignoreBom, fatal, stream);
      var rest := Decode(s[n..], true, ignoreBom, fatal, stream);
      if rest.Output? {
        if Next(s).Char? {
          CharValid(s);
          ValidConcat(s[..n], rest.bytes);
        } else {
          ValidConcat(REPLACEMENT, rest.bytes);
        }
      }
    }
  }

  /** The output fits the 3 * len buffer, and at most three bytes are held back. */
  lemma {:induction false} OutputFits(s: Bytes, bom: bool, ignoreBom: bool, fatal: bool, stream: bool)
    ensures var r := Decode(s, bom, ignoreBom, fatal, stream);
            r.Output? ==> |r.bytes| <= 3 * |s| && |r.pending| <= 3 && (!stream ==> r.pending == [])
    decreases |s|
  {
    hide Next;
    if s != [] {
      if Next(s).Cut? {
        CutShort(s);
      } else if !(Next(s).Bad? && fatal) {
        OutputFits(s[Next(s).len..], true, ignoreBom, fatal, stream);
      }
    }
  }

  lemma CutShort(s: Bytes)
    requires s != [] && Next(s).Cut?
    ensures |s| <= 3
  {
    hide Payload;
    CutTail(s, 1);
  }

  lemma {:induction false} CutTail(s: Bytes, k: nat)
    requires s != [] && 0 < k <= Needs(s[0]) + 1 && Tail(s, k).Cut?
    ensures |s| <= Needs(s[0])
    decreases Needs(s[0]) + 1 - k
  {
    if k <= Needs(s[0]) && k < |s| && Continues(s, k) { CutTail(s, k + 1); }
  }

  /** Valid input passes through unchanged, but for one leading byte order mark. */
  lemma {:induction false} ValidPassesThrough(s: Bytes, bom: bool, ignoreBom: bool, fatal: bool, stream: bool)
    requires Valid(s)
    ensures Decode(s, bom, ignoreBom, fatal, stream) ==
            Output(if s != [] && Next(s).cp == BOM && !bom && !ignoreBom then s[Next(s).len..]
                   else s, bom || s != [], [])
    decreases |s|
  {
    hide Next;
    if s != [] {
      var n := Next(s).len;
      ValidPassesThrough(s[n..], true, ignoreBom, fatal, stream);
      assert s[..n] + s[n..] == s;
      if Next(s).cp == BOM { BomLong(s); }
    }
  }

  lemma BomLong(s: Bytes)
    requires s != [] && Next(s).Char? && Next(s).cp == BOM
    ensures Next(s).len > 1
  {
    CharIsEncoding(s);
  }

  // ---- the loops ----

  /** utf8_validate_bytes */
  method Validate(s: Bytes) returns (ok: bool)
    ensures ok <==> Valid(s)
  {
    hide Payload, Valid;
    var i := 0;
    assert s[0..] == s;
    while i < |s|
      invariant i <= |s| && (Valid(s) <==> Valid(s[i..]))
    {
      var c := s[i];
      ghost var t := s[i..];
      ValidStep(t);
      if c < 0x80 {
        i := i + 1;
        continue;
      }
      var cont;
      var lo, hi := 0x80, 0xBF;
      if 0xC2 <= c <= 0xDF { cont := 1; }
      else if c == 0xE0 { cont, lo := 2, 0xA0; }
      else if 0xE1 <= c <= 0xEC { cont := 2; }
      else if c == 0xED { cont, hi := 2, 0x9F; }
      else if c == 0xEE || c == 0xEF { cont := 2; }
      else if c == 0xF0 { cont, lo := 3, 0x90; }
      else if 0xF1 <= c <= 0xF3 { cont := 3; }
      else if c == 0xF4 { cont, hi := 3, 0x8F; }
      else { return false; }
      assert cont == Needs(c) && lo == Lo(c) && hi == Hi(c);
      CharIffContinues(t);
      if |s| - i <= cont { return false; }
      assert t[1] == s[i + 1];
      if s[i + 1] < lo || s[i + 1] > hi {
        assert !Continues(t, 1);
        return false;
      }
      assert Continues(t, 1);
      var j := 2;
      while j <= cont
        invariant 2 <= j <= cont + 1 && forall k :: 1 <= k < j ==> Continues(t, k)
      {
        assert t[j] == s[i + j];
        if s[i + j] < 0x80 || s[i + j] > 0xBF {
          assert !Continues(t, j);
          return false;
        }
        j := j + 1;
      }
      assert t[cont + 1..] == s[i + cont + 1..];
      i := i + cont + 1;
    }
    assert s[i..] == [];
    ok := true;
    ValidEmpty();
  }

  lemma ValidEmpty()
    ensures Valid([])
  {
  }

  lemma ValidStep(t: Bytes)
    requires t != []
    ensures Valid(t) <==> Next(t).Char? && Valid(t[Next(t).len..])
    ensures t[0] < 0x80 ==> Next(t) == Char(1, t[0])
    ensures t[0] >= 0x80 && Needs(t[0]) == 0 ==> Next(t) == Bad(1)
  {
  }

  lemma CharIffContinues(t: Bytes)
    requires t != [] && t[0] >= 0x80 && Needs(t[0]) > 0
    ensures Next(t).Char? <==> |t| > Needs(t[0]) && forall k :: 1 <= k <= Needs(t[0]) ==> Continues(t, k)
    ensures Next(t).Char? ==> Next(t).len == Needs(t[0]) + 1
  {
    hide Payload, Continues;
    if Next(t).Char? { TailContinues(t, 1); }
    if |t| > Needs(t[0]) && forall k :: 1 <= k <= Needs(t[0]) ==> Continues(t, k) { AllContinue(t, 1); }
  }

  /** The decoder state a caller keeps between chunks. */
  class Decoder {
    var ignoreBom: bool
    var bomSeen: bool
    var pending: Bytes

    constructor (ignoreBom: bool, bomSeen: bool)
      ensures this.ignoreBom == ignoreBom && this.bomSeen == bomSeen && pending == []
    {
      this.ignoreBom, this.bomSeen, pending := ignoreBom, bomSeen, [];
    }

    /** utf8_whatwg_decode; not ok is its error return. */
    method Run(src: Bytes, fatal: bool, stream: bool) returns (ok: bool, out: Bytes)
      requires pending == []
      modifies this`bomSeen, this`pending
      ensures var r := Decode(src, old(bomSeen), ignoreBom, fatal, stream);
              && (ok <==> r.Output?)
              && (ok ==> r == Output(out, bomSeen, pending))
    {
      hide Next, Decode, Prepend, Encode, Lo, Hi;
      out, ok := [], true;
      var i := 0;
      assert src[0..] == src;
      ghost var whole := Decode(src, bomSeen, ignoreBom, fatal, stream);
      PrependNothing(whole);
      while i < |src|
        invariant 0 <= i <= |src| && pending == [] && ok
        invariant whole == Prepend(out, Decode(src[i..], bomSeen, ignoreBom, fatal, stream))
      {
        var c := src[i];
        ghost var t := src[i..];
        ValidStep(t);
        DecodeStep(t, bomSeen, ignoreBom, fatal, stream, out);
        if c < 0x80 {
          assert t[..1] == [c] && t[1..] == src[i + 1..];
          bomSeen, out, i := true, out + [c], i + 1;
          continue;
        }
        var item := Bad(1);
        if Needs(c) != 0 {
          item := ReadTail(src, i);
        }
        match item {
          case Bad(n) =>
            if fatal { return false, []; }
            assert t[n..] == src[i + n..];
            bomSeen, out, i := true, out + REPLACEMENT, i + n;
          case Cut =>
            if stream {
              pending := src[i..];
              return true, out;
            }
            if fatal { return false, []; }
            return true, out + REPLACEMENT;
          case Char(n, cp) =>
            assert t[n..] == src[i + n..];
            CharIsEncoding(t);
            if !bomSeen && cp == BOM && !ignoreBom {
              bomSeen := true;
            } else {
              bomSeen, out := true, out + Encode(cp);
            }
            i := i + n;
        }
      }
      assert src[i..] == [];
      DecodeNothing(out, bomSeen, ignoreBom, fatal, stream);
    }
  }

  /** The continuation loop after a lead byte. */
  method ReadTail(src: Bytes, start: nat) returns (item: Item)
    requires start < |src| && src[start] >= 0x80 && Needs(src[start]) > 0
    ensures item == Next(src[start..]) && (item.Char? ==> item.len > 1)
  {
    var c := src[start];
    ghost var t := src[start..];
    var bc, lo, hi, cp := Needs(c), Lo(c), Hi(c), Lead(c);
    var k: nat := 1;
    while bc > 0
      invariant 1 <= k == Needs(c) + 1 - bc && start + k <= |src|
      invariant cp == Payload(t, k - 1) && Next(t) == Tail(t, k)
      invariant bc > 0 ==> if k == 1 then lo == Lo(c) && hi == Hi(c) else lo == 0x80 && hi == 0xBF
      decreases bc
    {
      if start + k >= |src| { return Cut; }
      var b := src[start + k];
      assert b == t[k];
      if b < lo || b > hi { return Bad(k); }
      lo, hi := 0x80, 0xBF;
      cp := cp * 64 + b % 64;
      bc, k := bc - 1, k + 1;
    }
    item := Char(k, cp);
  }

  lemma DecodeNothing(out: Bytes, bom: bool, ignoreBom: bool, fatal: bool, stream: bool)
    ensures Prepend(out, Decode([], bom, ignoreBom, fatal, stream)) == Output(out, bom, [])
  {
    assert out + [] == out;
  }

  /** One item of a decode, behind text already produced. */
  lemma DecodeStep(t: Bytes, bom: bool, ignoreBom: bool, fatal: bool, stream: bool, out: Bytes)
    requires t != []
    ensures Prepend(out, Decode(t, bom, ignoreBom, fatal, stream)) ==
              Step(t, Next(t), bom, ignoreBom, fatal, stream, out)
  {
    hide Next, Prepend;
    var item := Next(t);
    if item.Char? {
      PrependTwice(out, t[..item.len], Decode(t[item.len..], true, ignoreBom, fatal, stream));
    } else if item.Bad? {
      PrependTwice(out, REPLACEMENT, Decode(t[item.len..], true, ignoreBom, fatal, stream));
      PrependError(out);
    } else {
      PrependError(out);
      PrependOutput(out, REPLACEMENT, bom, []);
      PrependOutput(out, [], bom, t);
      assert out + [] == out;
    }
  }

  function Step(t: Bytes, item: Item, bom: bool, ignoreBom: bool, fatal: bool, stream: bool, out: Bytes): Result
    requires !item.Cut? ==> item.len <= |t|
  {
    if item.Char? then
      if item.len > 1 && !bom && item.cp == BOM && !ignoreBom
      then Prepend(out, Decode(t[item.len..], true, ignoreBom, fatal, stream))
      else Prepend(out + t[..item.len], Decode(t[item.len..], true, ignoreBom, fatal, stream))
    else if item.Bad? then
      if fatal then Error else Prepend(out + REPLACEMENT, Decode(t[item.len..], true, ignoreBom, fatal, stream))
    else if stream then Output(out, bom, t)
    else if fatal then Error
    else Output(out + REPLACEMENT, bom, [])
  }

  lemma PrependError(x: Bytes)
    ensures Prepend(x, Error) == Error
  {
  }

  lemma PrependOutput(x: Bytes, y: Bytes, bom: bool, pending: Bytes)
    ensures Prepend(x, Output(y, bom, pending)) == Output(x + y, bom, pending)
  {
  }

  /** td_decode for UTF-8: glues what was held back to the front of the next chunk. */
  class TextDecoder {
    const fatal: bool
    const ignoreBom: bool
    var bomSeen: bool
    var pending: Bytes

    constructor (fatal: bool, ignoreBom: bool)
      ensures this.fatal == fatal && this.ignoreBom == ignoreBom && !bomSeen && pending == []
    {
      this.fatal, this.ignoreBom, bomSeen, pending := fatal, ignoreBom, false, [];
    }

    method DecodeChunk(input: Bytes, stream: bool) returns (ok: bool, out: Bytes)
      modifies this
      ensures var r := Decode(old(pending) + input, old(bomSeen), ignoreBom, fatal, stream);
              && (ok <==> r.Output?) && (ok ==> out == r.bytes && pending == r.pending)
              && (ok ==> bomSeen == (stream && r.bom)) && (!ok ==> pending == [])
    {
      var src := pending + input;
      if src == [] {
        if !stream { bomSeen := false; }
        return true, [];
      }
      pending := [];
      var dec := new Decoder(ignoreBom, bomSeen);
      ok, out := dec.Run(src, fatal, stream);
      if ok { pending := dec.pending; }
      bomSeen := stream && dec.bomSeen;
    }

    /**
     A whole streaming session: each chunk but the last is streamed.  What comes out, and
     whether it fails, is as if the bytes had come in one piece, and the decoder is then
     ready for the next session.
     */
    method DecodeAll(chunks: seq<Bytes>) returns (ok: bool, out: Bytes)
      modifies this
      ensures var r := Decode(old(pending) + Concat(chunks), old(bomSeen), ignoreBom, fatal, false);
              && (ok <==> r.Output?) && (ok ==> out == r.bytes && pending == [] && !bomSeen)
    {
      hide Decode, Session, Prepend;
      SessionIsOneDecode(chunks, pending, bomSeen, ignoreBom, fatal);
      DecodeFinal(pending + Concat(chunks), bomSeen, ignoreBom, fatal);
      if chunks == [] {
        assert pending + [] == pending;
        ok, out := DecodeChunk([], false);
        return;
      }
      out := [];
      var n := 0;
      ghost var whole := Session(chunks, pending, bomSeen, ignoreBom, fatal);
      PrependNothing(whole);
      assert chunks[0..] == chunks;
      while n + 1 < |chunks|
        invariant n < |chunks|
        invariant whole == Prepend(out, Session(chunks[n..], pending, bomSeen, ignoreBom, fatal))
      {
        SessionStep(chunks[n..], pending, bomSeen, ignoreBom, fatal);
        assert chunks[n..][1..] == chunks[n + 1..] && chunks[n..][0] == chunks[n];
        var part;
        ghost var before := out;
        ok, part := DecodeChunk(chunks[n], true);
        if !ok {
          PrependError(out);
          return false, [];
        }
        out := out + part;
        PrependTwice(before, part, Session(chunks[n + 1..], pending, bomSeen, ignoreBom, fatal));
        n := n + 1;
      }
      SessionStep(chunks[n..], pending, bomSeen, ignoreBom, fatal);
      ghost var last := Decode(pending + chunks[n], bomSeen, ignoreBom, fatal, false);
      var part;
      ok, part := DecodeChunk(chunks[n], false);
      PrependError(out);
      if ok { PrependOutput(out, part, last.bom, last.pending); }
      out := out + part;
    }
  }

  lemma SessionStep(chunks: seq<Bytes>, pending: Bytes, bom: bool, ignoreBom: bool, fatal: bool)
    requires chunks != []
    ensures var last := |chunks| == 1;
            var r := Decode(pending + chunks[0], bom, ignoreBom, fatal, !last);
            Session(chunks, pending, bom, ignoreBom, fatal) ==
              if last then r else if r.Error? then Error
              else Prepend(r.bytes, Session(chunks[1..], r.pending, r.bom, ignoreBom, fatal))
  {
    hide Decode;
  }
}
