/**
 The byte encodings a bundle is made of: little-endian records, tables of them,
 NUL-terminated strings, and blobs padded to eight bytes.
 */
module BundleBytes {
  import opened Basics

  // ---- little-endian integers ----

  function Pow256(w: nat): (p: nat)
    ensures p > 0
  {
    if w == 0 then 1 else 256 * Pow256(w - 1)
  }

  /** The low `w` bytes of n, least first. */
  function Little(n: nat, w: nat): (s: Bytes)
    ensures |s| == w
  {
    if w == 0 then [] else [n % 256] + Little(n / 256, w - 1)
  }

  function Number(s: Bytes): nat {
    if s == [] then 0 else s[0] + 256 * Number(s[1..])
  }

  lemma {:induction false} LittleNumber(n: nat, w: nat)
    requires n < Pow256(w)
    ensures Number(Little(n, w)) == n
  {
    if w > 0 {
      LittleNumber(n / 256, w - 1);
      assert Little(n, w)[1..] == Little(n / 256, w - 1);
    }
  }

  // ---- records ----

  function Width(widths: seq<nat>): nat {
    if widths == [] then 0 else widths[0] + Width(widths[1..])
  }

  function Pack(row: seq<nat>, widths: seq<nat>): (s: Bytes)
    requires |row| == |widths|
    ensures |s| == Width(widths)
  {
    if row == [] then [] else Little(row[0], widths[0]) + Pack(row[1..], widths[1..])
  }

  function Unpack(s: Bytes, widths: seq<nat>): (row: seq<nat>)
    requires |s| == Width(widths)
    ensures |row| == |widths|
  {
    if widths == [] then [] else [Number(s[..widths[0]])] + Unpack(s[widths[0]..], widths[1..])
  }

  ghost predicate RowFits(row: seq<nat>, widths: seq<nat>) {
    |row| == |widths| && forall i :: 0 <= i < |row| ==> row[i] < Pow256(widths[i])
  }

  lemma {:induction false} Unpacked(row: seq<nat>, widths: seq<nat>)
    requires RowFits(row, widths)
    ensures Unpack(Pack(row, widths), widths) == row
  {
    if row != [] {
      var s := Pack(row, widths);
      LittleNumber(row[0], widths[0]);
      assert s[..widths[0]] == Little(row[0], widths[0]);
      assert s[widths[0]..] == Pack(row[1..], widths[1..]);
      Unpacked(row[1..], widths[1..]);
    }
  }

  function Table(rows: seq<seq<nat>>, widths: seq<nat>): (s: Bytes)
    requires forall i :: 0 <= i < |rows| ==> |rows[i]| == |widths|
  {
    if rows == [] then [] else Pack(rows[0], widths) + Table(rows[1..], widths)
  }

  lemma {:induction false} TableLength(rows: seq<seq<nat>>, widths: seq<nat>, w: nat)
    requires w == Width(widths) && forall i :: 0 <= i < |rows| ==> |rows[i]| == |widths|
    ensures |Table(rows, widths)| == |rows| * w
  {
    if rows != [] {
      TableLength(rows[1..], widths, w);
      assert |rows| * w == w + |rows[1..]| * w;
    }
  }

  lemma {:induction false} TableRow(rows: seq<seq<nat>>, widths: seq<nat>, w: nat, i: nat)
    requires w == Width(widths) && i < |rows| && forall i :: 0 <= i < |rows| ==> |rows[i]| == |widths|
    ensures i * w + w <= |Table(rows, widths)|
    ensures Table(rows, widths)[i * w..i * w + w] == Pack(rows[i], widths)
  {
    hide Pack;
    var s, rest := Table(rows, widths), Table(rows[1..], widths);
    if i > 0 {
      TableRow(rows[1..], widths, w, i - 1);
      assert i * w == w + (i - 1) * w;
      var o := (i - 1) * w;
      SliceRight(Pack(rows[0], widths), rest, o, o + w);
    } else {
      assert s[..w] == Pack(rows[0], widths);
    }
  }

  // ---- slices of concatenations ----

  lemma SliceRight(a: Bytes, b: Bytes, i: nat, j: nat)
    requires i <= j <= |b|
    ensures (a + b)[|a| + i..|a| + j] == b[i..j]
  {
  }

  lemma Associate(a: Bytes, b: Bytes, c: Bytes)
    ensures a + (b + c) == (a + b) + c
  {
  }

  lemma Middle(a: Bytes, b: Bytes, c: Bytes)
    ensures var t := a + (b + c);
            t[|a|..|a| + |b|] == b && forall j :: 0 <= j < |c| ==> t[|a| + |b| + j] == c[j]
  {
  }

  // ---- strings ----

  ghost predicate NulFree(s: Bytes) {
    forall i :: 0 <= i < |s| ==> s[i] != 0
  }

  /** strtab_add, for every string of a list in turn. */
  function Strings(ss: seq<Bytes>): Bytes {
    if ss == [] then [] else Entry(ss[0]) + Strings(ss[1..])
  }

  function Entry(s: Bytes): (e: Bytes)
    ensures |e| == |s| + 1
  {
    s + [0]
  }

  function Offset(ss: seq<Bytes>, i: nat): nat
    requires i <= |ss|
  {
    if i == 0 then 0 else |ss[0]| + 1 + Offset(ss[1..], i - 1)
  }

  lemma {:induction false} StringsConcat(a: seq<Bytes>, b: seq<Bytes>)
    ensures Strings(a + b) == Strings(a) + Strings(b)
  {
    hide Entry;
    if a == [] {
      assert a + b == b;
    } else {
      StringsConcat(a[1..], b);
      assert (a + b)[1..] == a[1..] + b;
      Associate(Entry(a[0]), Strings(a[1..]), Strings(b));
    }
  }

  lemma {:induction false} OffsetIsLength(ss: seq<Bytes>, i: nat)
    requires i <= |ss|
    ensures Offset(ss, i) == |Strings(ss[..i])|
  {
    if i > 0 {
      OffsetIsLength(ss[1..], i - 1);
      assert ss[..i][1..] == ss[1..][..i - 1];
    }
  }

  lemma OffsetExtends(a: seq<Bytes>, b: seq<Bytes>, i: nat)
    requires i <= |a|
    ensures Offset(a + b, i) == Offset(a, i)
  {
    OffsetIsLength(a, i);
    OffsetIsLength(a + b, i);
    assert (a + b)[..i] == a[..i];
  }

  ghost predicate Terminated(t: Bytes) {
    t != [] && t[|t| - 1] == 0
  }

  /** The C string at an offset of a table whose last byte is NUL. */
  function StringAt(t: Bytes, off: nat): (s: Bytes)
    requires Terminated(t) && off < |t|
    ensures off + |s| < |t| && s == t[off..off + |s|] && t[off + |s|] == 0 && NulFree(s)
    decreases |t| - off
  {
    if t[off] == 0 then [] else [t[off]] + StringAt(t, off + 1)
  }

  lemma {:induction false} StringUnique(t: Bytes, off: nat, s: Bytes)
    requires Terminated(t) && off + |s| < |t| && s == t[off..off + |s|] && t[off + |s|] == 0 && NulFree(s)
    ensures StringAt(t, off) == s
    decreases |s|
  {
    if s != [] {
      assert t[off] == s[0];
      assert s[1..] == t[off + 1..off + 1 + |s[1..]|];
      StringUnique(t, off + 1, s[1..]);
    }
  }

  lemma StringsTerminated(ss: seq<Bytes>)
    requires ss != []
    ensures Terminated(Strings(ss))
  {
    var n := |ss| - 1;
    StringsConcat(ss[..n], ss[n..]);
    assert ss[..n] + ss[n..] == ss;
    assert ss[n..][1..] == [];
    assert Strings(ss[n..]) == ss[n] + [0] + [];
  }

  lemma {:induction false} StringsSplit(ss: seq<Bytes>, i: nat)
    requires i < |ss|
    ensures Strings(ss) == Strings(ss[..i]) + (ss[i] + ([0] + Strings(ss[i + 1..])))
    decreases i
  {
    if i == 0 {
      FirstString(ss);
    } else {
      var rest := ss[i] + ([0] + Strings(ss[i + 1..]));
      hide Entry;
      StringsSplit(ss[1..], i - 1);
      assert ss[1..][i..] == ss[i + 1..];
      assert ss[..i][1..] == ss[1..][..i - 1];
      Associate(Entry(ss[0]), Strings(ss[1..][..i - 1]), rest);
    }
  }

  lemma FirstString(ss: seq<Bytes>)
    requires ss != []
    ensures Strings(ss) == Strings(ss[..0]) + (ss[0] + ([0] + Strings(ss[1..])))
  {
    Associate(ss[0], [0], Strings(ss[1..]));
  }

  /** Every string of the list is found at its offset. */
  lemma StringsAt(ss: seq<Bytes>, i: nat)
    requires i < |ss| && NulFree(ss[i])
    ensures Terminated(Strings(ss)) && Offset(ss, i) < |Strings(ss)| && StringAt(Strings(ss), Offset(ss, i)) == ss[i]
  {
    hide Strings, Offset, StringAt;
    StringsTerminated(ss);
    OffsetIsLength(ss, i);
    StringsSplit(ss, i);
    var before, after := Strings(ss[..i]), [0] + Strings(ss[i + 1..]);
    Middle(before, ss[i], after);
    assert after[0] == 0;
    StringUnique(Strings(ss), |before|, ss[i]);
  }

  // ---- padding ----

  /** align8 */
  function Align8(n: nat): (r: nat)
    ensures n <= r < n + 8 && r % 8 == 0
  {
    (n + 7) / 8 * 8
  }

  function Zeros(n: nat): (z: Bytes)
    ensures |z| == n && forall i :: 0 <= i < n ==> z[i] == 0
  {
    seq(n, _ => 0)
  }

  /** fwrite_padded: the zeros come from a buffer of eight. */
  method Padded(data: Bytes, padded: nat) returns (s: Bytes)
    requires |data| <= padded <= |data| + 8
    ensures s == data + Zeros(padded - |data|)
  {
    s := data;
    var pad := padded - |data|;
    if pad > 0 { s := s + [0, 0, 0, 0, 0, 0, 0, 0][..pad]; }
    assert s == data + Zeros(pad);
  }

  // ---- the data section ----

  /** Where the next blob goes. */
  function After(start: nat, blob: Bytes): (next: nat)
    ensures start + |blob| < next <= start + |blob| + 8 && next % 8 == 0
  {
    Align8(start + |blob| + 1)
  }

  /** A blob, then zeros, at least one, up to the next multiple of eight. */
  function Blob(start: nat, blob: Bytes): (s: Bytes)
    ensures |s| == After(start, blob) - start
  {
    blob + Zeros(After(start, blob) - start - |blob|)
  }

  function BlobOffset(blobs: seq<Bytes>, start: nat, i: nat): nat
    requires i <= |blobs|
  {
    if i == 0 then start else BlobOffset(blobs[1..], After(start, blobs[0]), i - 1)
  }

  function Blobs(blobs: seq<Bytes>, start: nat): Bytes {
    if blobs == [] then [] else Blob(start, blobs[0]) + Blobs(blobs[1..], After(start, blobs[0]))
  }

  lemma {:induction false} BlobStep(blobs: seq<Bytes>, start: nat, i: nat)
    requires i < |blobs|
    ensures BlobOffset(blobs, start, i + 1) == After(BlobOffset(blobs, start, i), blobs[i])
    ensures start <= BlobOffset(blobs, start, i)
    decreases i
  {
    hide After;
    if i > 0 { BlobStep(blobs[1..], After(start, blobs[0]), i - 1); }
  }

  lemma {:induction false} BlobsSplit(blobs: seq<Bytes>, start: nat, i: nat)
    requires i <= |blobs|
    ensures Blobs(blobs, start) == Blobs(blobs[..i], start) + Blobs(blobs[i..], BlobOffset(blobs, start, i))
    ensures start + |Blobs(blobs[..i], start)| == BlobOffset(blobs, start, i)
    decreases i
  {
    hide After, Blob;
    if i > 0 {
      BlobsSplit(blobs[1..], After(start, blobs[0]), i - 1);
      assert blobs[..i][1..] == blobs[1..][..i - 1];
      assert blobs[1..][i - 1..] == blobs[i..];
    }
  }

  lemma BlobsNext(blobs: seq<Bytes>, start: nat, i: nat)
    requires i < |blobs|
    ensures Blobs(blobs[..i + 1], start) == Blobs(blobs[..i], start) + Blob(BlobOffset(blobs, start, i), blobs[i])
  {
    hide After, Blob;
    var most := blobs[..i + 1];
    BlobsSplit(most, start, i);
    assert most[..i] == blobs[..i];
    var last: seq<Bytes> := [blobs[i]];
    assert most[i..] == last && last[1..] == [];
    BlobsSplit(blobs, start, i);
  }

  /** Every blob is found at its offset with a zero after it. */
  lemma BlobAt(blobs: seq<Bytes>, start: nat, i: nat)
    requires i < |blobs|
    ensures var off := BlobOffset(blobs, start, i) - start;
            && 0 <= off && off + |blobs[i]| < |Blobs(blobs, start)|
            && Blobs(blobs, start)[off..off + |blobs[i]|] == blobs[i]
            && Blobs(blobs, start)[off + |blobs[i]|] == 0
  {
    var off := BlobOffset(blobs, start, i);
    BlobsSplit(blobs, start, i);
    var tail := BlobsHead(blobs, off, i);
    hide Blobs, BlobOffset;
    Middle(Blobs(blobs[..i], start), blobs[i], tail);
    assert tail[0] == 0;
  }

  lemma BlobsHead(blobs: seq<Bytes>, off: nat, i: nat) returns (tail: Bytes)
    requires i < |blobs|
    ensures tail != [] && tail[0] == 0 && Blobs(blobs[i..], off) == blobs[i] + tail
  {
    var zeros, rest := Zeros(After(off, blobs[i]) - off - |blobs[i]|), Blobs(blobs[i + 1..], After(off, blobs[i]));
    tail := zeros + rest;
    assert blobs[i..][1..] == blobs[i + 1..];
    Associate(blobs[i], zeros, rest);
  }
}
