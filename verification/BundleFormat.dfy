/**
 The bundle file: header, module records, edge records, string table and data appended
 to an executable, with a footer at the very end.
 */
module BundleFormat {
  import opened Basics
  import opened BundleBytes
  import opened BundleEdges

  // ---- what is bundled ----

  datatype Module = Module(key: Bytes, format: nat, kind: nat, flags: nat, data: Bytes)

  datatype Build = Build(abi: Bytes, entry: nat, modules: seq<Module>, edges: seq<Edge>)

  datatype Opened = Opened(abi: Bytes, entry: nat, modules: seq<Module>, records: seq<Record>, strtab: Bytes)

  datatype Status = NoTrailer | Corrupt | WrongAbi(found: Bytes) | Ok(bundle: Opened)

  const ABI_MAX: nat := 48
  const HEADER_SIZE: nat := 88
  const MOD_SIZE: nat := 24
  const EDGE_SIZE: nat := 16
  const FOOTER_SIZE: nat := 32
  const VERSION: nat := 2
  const MATERIALIZE: nat := 1
  const EXECUTABLE: nat := 2

  /** "ANTBNDL" and 2 */
  const MAGIC: Bytes := [0x41, 0x4E, 0x54, 0x42, 0x4E, 0x44, 0x4C, 0x02]

  const HEADER: seq<nat> := [4, 4, 4, 4, 8, 8, 8]
  const MOD: seq<nat> := [4, 1, 1, 2, 8, 8]
  const EDGE: seq<nat> := [4, 4, 4, 4]
  const FOOTER: seq<nat> := [4, 4, 8, 8]

  lemma Widths()
    ensures Width(HEADER) == HEADER_SIZE - ABI_MAX && Width(MOD) == MOD_SIZE
    ensures Width(EDGE) == EDGE_SIZE && Width(FOOTER) == FOOTER_SIZE - |MAGIC|
  {
    Unrolled(HEADER);
    Unrolled(MOD);
    Unrolled(EDGE);
    Unrolled(FOOTER);
  }

  lemma Unrolled(w: seq<nat>)
    ensures |w| == 4 ==> Width(w) == w[0] + w[1] + w[2] + w[3]
    ensures |w| == 6 ==> Width(w) == w[0] + w[1] + w[2] + w[3] + w[4] + w[5]
    ensures |w| == 7 ==> Width(w) == w[0] + w[1] + w[2] + w[3] + w[4] + w[5] + w[6]
  {
    if |w| > 0 { WidthTail(w, 1); }
    if |w| > 1 { WidthTail(w, 2); }
    if |w| > 2 { WidthTail(w, 3); }
    if |w| > 3 { WidthTail(w, 4); }
    if |w| > 4 { WidthTail(w, 5); }
    if |w| > 5 { WidthTail(w, 6); }
    if |w| > 6 { WidthTail(w, 7); }
    assert w[0..] == w;
    assert w[|w|..] == [];
  }

  lemma WidthTail(w: seq<nat>, i: nat)
    requires 0 < i <= |w|
    ensures Width(w[i - 1..]) == w[i - 1] + Width(w[i..])
  {
    assert w[i - 1..][1..] == w[i..];
  }

  lemma Powers()
    ensures Pow256(1) == 0x100 && Pow256(2) == 0x1_0000 && Pow256(4) == 0x1_0000_0000
    ensures Pow256(8) == 0x1_0000_0000_0000_0000
  {
    assert Pow256(0) == 1;
    assert Pow256(3) == 0x100_0000;
    assert Pow256(5) == 0x100_0000_0000;
    assert Pow256(6) == 0x1_0000_0000_0000;
    assert Pow256(7) == 0x100_0000_0000_0000;
  }

  // ---- what the writer lays down ----

  function Keys(ms: seq<Module>): (ss: seq<Bytes>)
    ensures |ss| == |ms| && forall i :: 0 <= i < |ms| ==> ss[i] == ms[i].key
  {
    seq(|ms|, i requires 0 <= i < |ms| => ms[i].key)
  }

  function Specs(es: seq<Edge>): (ss: seq<Bytes>)
    ensures |ss| == |es| && forall i :: 0 <= i < |es| ==> ss[i] == es[i].spec
  {
    seq(|es|, i requires 0 <= i < |es| => es[i].spec)
  }

  function Datas(ms: seq<Module>): (ss: seq<Bytes>)
    ensures |ss| == |ms| && forall i :: 0 <= i < |ms| ==> ss[i] == ms[i].data
  {
    seq(|ms|, i requires 0 <= i < |ms| => ms[i].data)
  }

  function Names(b: Build): seq<Bytes> {
    Keys(b.modules) + Specs(b.edges)
  }

  function StrtabOffset(b: Build): nat {
    HEADER_SIZE + MOD_SIZE * |b.modules| + EDGE_SIZE * |b.edges|
  }

  function DataOffset(b: Build): nat {
    Align8(StrtabOffset(b) + |Strings(Names(b))|)
  }

  function PayloadSize(b: Build): nat {
    BlobOffset(Datas(b.modules), DataOffset(b), |b.modules|)
  }

  function ModRow(b: Build, i: nat): (row: seq<nat>)
    requires i < |b.modules|
    ensures |row| == |MOD|
  {
    var m := b.modules[i];
    [Offset(Names(b), i), m.format, m.kind, m.flags, BlobOffset(Datas(b.modules), DataOffset(b), i), |m.data|]
  }

  function ModRows(b: Build): (rows: seq<seq<nat>>)
    ensures |rows| == |b.modules| && forall i :: 0 <= i < |rows| ==> rows[i] == ModRow(b, i)
  {
    seq(|b.modules|, i requires 0 <= i < |b.modules| => ModRow(b, i))
  }

  /** The record of one edge before sorting. */
  function RecordOf(b: Build, i: nat): Record
    requires i < |b.edges|
  {
    var e := b.edges[i];
    Record(e.parent, Offset(Names(b), |b.modules| + i), e.child, if e.require then 1 else 0)
  }

  function Records(b: Build): (rs: seq<Record>)
    ensures |rs| == |b.edges| && forall i :: 0 <= i < |rs| ==> rs[i] == RecordOf(b, i)
  {
    seq(|b.edges|, i requires 0 <= i < |b.edges| => RecordOf(b, i))
  }

  function EdgeRow(r: Record): (row: seq<nat>)
    ensures |row| == |EDGE|
  {
    [r.parent, r.spec, r.child, r.flags]
  }

  function EdgeRows(rs: seq<Record>): (rows: seq<seq<nat>>)
    ensures |rows| == |rs| && forall i :: 0 <= i < |rows| ==> rows[i] == EdgeRow(rs[i])
  {
    seq(|rs|, i requires 0 <= i < |rs| => EdgeRow(rs[i]))
  }

  /** At most 47 bytes of the ABI string are kept, so that a NUL always follows. */
  function Cut(abi: Bytes): (r: Bytes)
    ensures |r| < ABI_MAX
  {
    if |abi| < ABI_MAX then abi else abi[..ABI_MAX - 1]
  }

  function AbiField(abi: Bytes): (s: Bytes)
    ensures |s| == ABI_MAX
  {
    Cut(abi) + Zeros(ABI_MAX - |Cut(abi)|)
  }

  function HeaderRow(b: Build): (row: seq<nat>)
    ensures |row| == |HEADER|
  {
    [|b.modules|, |b.edges|, b.entry, 0, StrtabOffset(b), |Strings(Names(b))|, DataOffset(b)]
  }

  function HeaderBytes(b: Build): (h: Bytes)
    ensures |h| == ABI_MAX + Width(HEADER)
  {
    AbiField(b.abi) + Pack(HeaderRow(b), HEADER)
  }

  function Payload(b: Build, rs: seq<Record>): Bytes {
    HeaderBytes(b)
    + (Table(ModRows(b), MOD)
       + (Table(EdgeRows(rs), EDGE)
          + (Strings(Names(b))
             + (Zeros(DataOffset(b) - StrtabOffset(b) - |Strings(Names(b))|)
                + Blobs(Datas(b.modules), DataOffset(b))))))
  }

  function Footer(offset: nat, size: nat): (s: Bytes)
    ensures |s| == |MAGIC| + Width(FOOTER)
  {
    MAGIC + Pack([VERSION, 0, offset, size], FOOTER)
  }

  function File(prefix: Bytes, b: Build, rs: seq<Record>): Bytes {
    var at := Align8(|prefix|);
    prefix + Zeros(at - |prefix|) + Payload(b, rs) + Footer(at, |Payload(b, rs)|)
  }

  // ---- what may be bundled ----

  /** What the writer checks for itself. */
  ghost predicate Linked(b: Build) {
    && b.modules != [] && b.entry < |b.modules|
    && forall i :: 0 <= i < |b.edges| ==> b.edges[i].parent < |b.modules| && b.edges[i].child < |b.modules|
  }

  ghost predicate CStrings(b: Build) {
    NulFree(b.abi) && forall i :: 0 <= i < |Names(b)| ==> NulFree(Names(b)[i])
  }

  /** Counts are 32-bit and so are offsets into the string table; files are below 2^63 bytes. */
  ghost predicate Small(prefix: Bytes, b: Build) {
    && |b.modules| < 0x1_0000_0000 && |b.edges| < 0x1_0000_0000 && |Strings(Names(b))| < 0x1_0000_0000
    && Align8(|prefix|) + PayloadSize(b) < 0x8000_0000_0000_0000
  }

  predicate FlagsOk(flags: nat) {
    flags == 0 || flags == MATERIALIZE || flags == MATERIALIZE + EXECUTABLE
  }

  ghost predicate FieldsOk(b: Build) {
    forall i :: 0 <= i < |b.modules| ==>
      var m := b.modules[i]; m.format < 256 && m.kind < 256 && FlagsOk(m.flags)
  }

  ghost predicate Legal(prefix: Bytes, b: Build) {
    Linked(b) && CStrings(b) && Small(prefix, b) && FieldsOk(b)
  }

  /** One module with any key and any data makes a legal build. */
  lemma OneModuleLegal(prefix: Bytes, key: Bytes, data: Bytes)
    requires NulFree(key) && |key| < 0x4000_0000 && |data| < 0x4000_0000_0000_0000 && |prefix| < 0x1000_0000_0000_0000
    ensures Legal(prefix, Build([], 0, [Module(key, 0, 0, 0, data)], []))
  {
    var b := Build([], 0, [Module(key, 0, 0, 0, data)], []);
    assert Names(b) == [key] && Datas(b.modules) == [data];
    var none: seq<Bytes> := [];
    assert [key][1..] == none && [data][1..] == none;
    assert |Strings(Names(b))| == |key| + 1;
    var blobs: seq<Bytes> := [data];
    BlobStep(blobs, DataOffset(b), 0);
    assert PayloadSize(b) == BlobOffset(blobs, DataOffset(b), 1) == After(DataOffset(b), data);
  }

  /** A sorted permutation of the edges' records. */
  ghost predicate Arranged(b: Build, rs: seq<Record>) {
    && |rs| == |b.edges| && multiset(rs) == multiset(Records(b))
    && RecordsOk(Strings(Names(b)), rs) && Sorted(EdgesOf(Strings(Names(b)), rs))
  }

  // ---- where the pieces are ----

  ghost predicate Holds(p: Bytes, off: nat, piece: Bytes) {
    off + |piece| <= |p| && p[off..off + |piece|] == piece
  }

  lemma HoldsFirst(a: Bytes, b: Bytes)
    ensures Holds(a + b, 0, a)
  {
  }

  lemma HoldsAfter(a: Bytes, b: Bytes, off: nat, piece: Bytes)
    requires Holds(b, off, piece)
    ensures Holds(a + b, |a| + off, piece)
  {
    SliceRight(a, b, off, off + |piece|);
  }

  lemma SliceSlice(p: Bytes, a: nat, b: nat, i: nat, j: nat)
    requires a <= b <= |p| && i <= j <= b - a
    ensures p[a..b][i..j] == p[a + i..a + j]
  {
    var q := p[a..b];
    forall k | 0 <= k < j - i ensures q[i..j][k] == p[a + i..a + j][k] {
      assert q[i..j][k] == q[i + k] == p[a + i + k];
    }
  }

  lemma HoldsInside(p: Bytes, off: nat, q: Bytes, i: nat, piece: Bytes)
    requires Holds(p, off, q) && Holds(q, i, piece)
    ensures Holds(p, off + i, piece)
  {
    SliceSlice(p, off, off + |q|, i, i + |piece|);
  }

  /** Six pieces in a row. */
  lemma HoldsSix(a: Bytes, b: Bytes, c: Bytes, d: Bytes, e: Bytes, f: Bytes, p: Bytes)
    requires p == a + (b + (c + (d + (e + f))))
    ensures |p| == |a| + |b| + |c| + |d| + |e| + |f|
    ensures Holds(p, 0, a) && Holds(p, |a|, b) && Holds(p, |a| + |b|, c) && Holds(p, |a| + |b| + |c|, d)
    ensures Holds(p, |a| + |b| + |c| + |d| + |e|, f)
  {
    var ef := e + f;
    var def := d + ef;
    var cdef := c + def;
    var bcdef := b + cdef;
    HoldsFirst(a, bcdef);
    HoldsFirst(b, cdef);
    HoldsAfter(a, bcdef, 0, b);
    HoldsFirst(c, def);
    HoldsAfter(b, cdef, 0, c);
    HoldsAfter(a, bcdef, |b|, c);
    HoldsFirst(d, ef);
    HoldsAfter(c, def, 0, d);
    HoldsAfter(b, cdef, |c|, d);
    HoldsAfter(a, bcdef, |b| + |c|, d);
    assert Holds(ef, |e|, f);
    HoldsAfter(d, ef, |e|, f);
    HoldsAfter(c, def, |d| + |e|, f);
    HoldsAfter(b, cdef, |c| + |d| + |e|, f);
    HoldsAfter(a, bcdef, |b| + |c| + |d| + |e|, f);
  }

  lemma BlobsLength(blobs: seq<Bytes>, start: nat)
    ensures start + |Blobs(blobs, start)| == BlobOffset(blobs, start, |blobs|)
  {
    BlobsSplit(blobs, start, |blobs|);
    assert blobs[..|blobs|] == blobs;
  }

  lemma Sizes(b: Build, rs: seq<Record>)
    requires |rs| == |b.edges|
    ensures |HeaderBytes(b)| == HEADER_SIZE
    ensures |Table(ModRows(b), MOD)| == MOD_SIZE * |b.modules|
    ensures |Table(EdgeRows(rs), EDGE)| == EDGE_SIZE * |b.edges|
    ensures DataOffset(b) + |Blobs(Datas(b.modules), DataOffset(b))| == PayloadSize(b)
  {
    Widths();
    TableLength(ModRows(b), MOD, MOD_SIZE);
    TableLength(EdgeRows(rs), EDGE, EDGE_SIZE);
    BlobsLength(Datas(b.modules), DataOffset(b));
  }

  /** A payload with every piece of a build in its place. */
  ghost predicate Laid(p: Bytes, b: Build, rs: seq<Record>) {
    && |rs| == |b.edges| && |p| == PayloadSize(b) >= DataOffset(b)
    && Holds(p, 0, HeaderBytes(b))
    && Holds(p, HEADER_SIZE, Table(ModRows(b), MOD))
    && Holds(p, HEADER_SIZE + MOD_SIZE * |b.modules|, Table(EdgeRows(rs), EDGE))
    && Holds(p, StrtabOffset(b), Strings(Names(b)))
    && Holds(p, DataOffset(b), Blobs(Datas(b.modules), DataOffset(b)))
  }

  lemma PayloadLayout(b: Build, rs: seq<Record>)
    requires |rs| == |b.edges|
    ensures Laid(Payload(b, rs), b, rs)
  {
    hide Holds, Strings, Table, Blobs, Names, BlobOffset, HeaderBytes, PayloadSize, ModRows, EdgeRows, Datas, Width;
    Sizes(b, rs);
    HoldsSix(HeaderBytes(b), Table(ModRows(b), MOD), Table(EdgeRows(rs), EDGE), Strings(Names(b)),
             Zeros(DataOffset(b) - StrtabOffset(b) - |Strings(Names(b))|), Blobs(Datas(b.modules), DataOffset(b)),
             Payload(b, rs));
  }

  // ---- what the reader sees ----

  function HeadOf(p: Bytes): (row: seq<nat>)
    requires |p| >= HEADER_SIZE
    ensures |row| == |HEADER|
  {
    Widths();
    Unpack(p[ABI_MAX..HEADER_SIZE], HEADER)
  }

  function ModAt(p: Bytes, i: nat): (row: seq<nat>)
    requires HEADER_SIZE + MOD_SIZE * i + MOD_SIZE <= |p|
    ensures |row| == |MOD|
  {
    Widths();
    var at := HEADER_SIZE + MOD_SIZE * i;
    Unpack(p[at..at + MOD_SIZE], MOD)
  }

  function EdgeAt(p: Bytes, n: nat, i: nat): Record
    requires HEADER_SIZE + MOD_SIZE * n + EDGE_SIZE * i + EDGE_SIZE <= |p|
  {
    Widths();
    var at := HEADER_SIZE + MOD_SIZE * n + EDGE_SIZE * i;
    var row := Unpack(p[at..at + EDGE_SIZE], EDGE);
    Record(row[0], row[1], row[2], row[3])
  }

  function AbiOf(p: Bytes): Bytes
    requires |p| >= HEADER_SIZE
  {
    StringAt(p[..ABI_MAX - 1] + [0], 0)
  }

  /** The checks on one module record. */
  predicate ModOk(p: Bytes, row: seq<nat>, strtabLen: nat, dataOff: nat)
    requires |row| == |MOD|
  {
    && row[0] < strtabLen && FlagsOk(row[3])
    && dataOff <= row[4] <= |p| && row[5] < |p| - row[4] && p[row[4] + row[5]] == 0
  }

  predicate RecordOk(r: Record, modules: nat, strtabLen: nat) {
    r.parent < modules && r.child < modules && r.spec < strtabLen
  }

  /** The checks on the header: the three tables and the data follow one another inside the payload. */
  predicate HeadOk(p: Bytes)
    requires |p| >= HEADER_SIZE
  {
    var h := HeadOf(p);
    && 0 < h[0] && h[2] < h[0]
    && h[4] == HEADER_SIZE + MOD_SIZE * h[0] + EDGE_SIZE * h[1]
    && 0 < h[5] <= |p| && h[4] + h[5] <= |p|
    && h[4] + h[5] <= h[6] <= |p|
    && p[h[4] + h[5] - 1] == 0
  }

  function StrtabOf(p: Bytes): (t: Bytes)
    requires |p| >= HEADER_SIZE && HeadOk(p)
    ensures Terminated(t)
  {
    var h := HeadOf(p);
    p[h[4]..h[4] + h[5]]
  }

  ghost predicate Acceptable(p: Bytes)
    requires |p| >= HEADER_SIZE
  {
    && HeadOk(p)
    && var h := HeadOf(p);
       && (forall i :: 0 <= i < h[0] ==> ModOk(p, ModAt(p, i), h[5], h[6]))
       && (forall i :: 0 <= i < h[1] ==> RecordOk(EdgeAt(p, h[0], i), h[0], h[5]))
  }

  function ModuleOf(p: Bytes, t: Bytes, row: seq<nat>, dataOff: nat): Module
    requires |row| == |MOD| && Terminated(t) && ModOk(p, row, |t|, dataOff)
  {
    Module(StringAt(t, row[0]), row[1], row[2], row[3], p[row[4]..row[4] + row[5]])
  }

  /** What an acceptable payload says. */
  function Contents(p: Bytes): Opened
    requires |p| >= HEADER_SIZE && Acceptable(p)
  {
    var h := HeadOf(p);
    var t := StrtabOf(p);
    Opened(AbiOf(p), h[2],
           seq(h[0], i requires 0 <= i < h[0] => ModuleOf(p, t, ModAt(p, i), h[6])),
           seq(h[1], i requires 0 <= i < h[1] => EdgeAt(p, h[0], i)), t)
  }

  // ---- reading back what was written ----

  lemma NumbersFit(prefix: Bytes, b: Build)
    requires Legal(prefix, b)
    ensures RowFits(HeaderRow(b), HEADER)
    ensures forall i :: 0 <= i < |b.modules| ==> RowFits(ModRow(b, i), MOD)
    ensures forall i :: 0 <= i < |b.edges| ==> RowFits(EdgeRow(RecordOf(b, i)), EDGE)
  {
    Powers();
    hide Pow256, Strings, Offset, BlobOffset, Align8;
    forall i | 0 <= i < |b.modules| ensures RowFits(ModRow(b, i), MOD) {
      OffsetBound(Names(b), i);
      BlobBound(Datas(b.modules), DataOffset(b), i);
    }
    forall i | 0 <= i < |b.edges| ensures RowFits(EdgeRow(RecordOf(b, i)), EDGE) {
      OffsetBound(Names(b), |b.modules| + i);
    }
    BlobBound(Datas(b.modules), DataOffset(b), 0);
  }

  lemma OffsetBound(ss: seq<Bytes>, i: nat)
    requires i < |ss|
    ensures Offset(ss, i) < |Strings(ss)|
  {
    OffsetIsLength(ss, i);
    StringsSplit(ss, i);
  }

  lemma BlobBound(blobs: seq<Bytes>, start: nat, i: nat)
    requires i < |blobs|
    ensures start <= BlobOffset(blobs, start, i)
    ensures BlobOffset(blobs, start, i) + |blobs[i]| < BlobOffset(blobs, start, |blobs|)
  {
    BlobAt(blobs, start, i);
    BlobsLength(blobs, start);
  }

  lemma HeaderRead(prefix: Bytes, b: Build, rs: seq<Record>, p: Bytes)
    requires Legal(prefix, b) && Laid(p, b, rs)
    ensures |p| >= HEADER_SIZE && HeadOf(p) == HeaderRow(b) && AbiOf(p) == Cut(b.abi)
  {
    NumbersFit(prefix, b);
    Widths();
    hide Table, Blobs, Strings, Pack, Unpack, RowFits, HeaderRow, AbiOf, AbiField, Legal, StringAt;
    hide Zeros, Keys, Specs, Datas, Names, ModRows, EdgeRows, BlobOffset, Align8, Width;
    var abi, row := AbiField(b.abi), Pack(HeaderRow(b), HEADER);
    HeaderParts(p, abi, row);
    Unpacked(HeaderRow(b), HEADER);
    AbiRead(p, b.abi);
  }

  lemma HeaderParts(p: Bytes, abi: Bytes, row: Bytes)
    requires |abi| == ABI_MAX && |row| == HEADER_SIZE - ABI_MAX && Holds(p, 0, abi + row)
    ensures |p| >= HEADER_SIZE && Holds(p, 0, abi) && p[ABI_MAX..HEADER_SIZE] == row
  {
    HoldsFirst(abi, row);
    HoldsInside(p, 0, abi + row, 0, abi);
    assert Holds(abi + row, ABI_MAX, row);
    HoldsInside(p, 0, abi + row, ABI_MAX, row);
  }

  lemma AbiRead(p: Bytes, abi: Bytes)
    requires |p| >= HEADER_SIZE && NulFree(abi) && Holds(p, 0, AbiField(abi))
    ensures AbiOf(p) == Cut(abi)
  {
    var t: Bytes := p[..ABI_MAX - 1] + [0];
    var f := AbiField(abi);
    forall i | 0 <= i < ABI_MAX ensures t[i] == f[i] { assert p[0..|f|][i] == f[i]; }
    assert t == f;
    StringUnique(t, 0, Cut(abi));
  }

  lemma RowRead(p: Bytes, off: nat, rows: seq<seq<nat>>, widths: seq<nat>, w: nat, i: nat)
    requires w == Width(widths) && i < |rows| && forall i :: 0 <= i < |rows| ==> |rows[i]| == |widths|
    requires RowFits(rows[i], widths) && Holds(p, off, Table(rows, widths))
    ensures off + w * i + w <= |p| && Unpack(p[off + w * i..off + w * i + w], widths) == rows[i]
  {
    hide Pack, Unpack, Table, RowFits;
    TableRow(rows, widths, w, i);
    assert w * i == i * w;
    HoldsInside(p, off, Table(rows, widths), i * w, Pack(rows[i], widths));
    Unpacked(rows[i], widths);
  }

  lemma ModUnpack(p: Bytes, rows: seq<seq<nat>>, i: nat)
    requires i < |rows| && forall i :: 0 <= i < |rows| ==> |rows[i]| == |MOD|
    requires RowFits(rows[i], MOD) && Holds(p, HEADER_SIZE, Table(rows, MOD))
    ensures HEADER_SIZE + MOD_SIZE * i + MOD_SIZE <= |p| && ModAt(p, i) == rows[i]
  {
    Widths();
    hide Unpack, RowFits, Table, Holds, Width;
    RowRead(p, HEADER_SIZE, rows, MOD, MOD_SIZE, i);
  }

  lemma EdgeUnpack(p: Bytes, n: nat, rs: seq<Record>, i: nat)
    requires i < |rs| && RowFits(EdgeRow(rs[i]), EDGE)
    requires Holds(p, HEADER_SIZE + MOD_SIZE * n, Table(EdgeRows(rs), EDGE))
    ensures HEADER_SIZE + MOD_SIZE * n + EDGE_SIZE * i + EDGE_SIZE <= |p| && EdgeAt(p, n, i) == rs[i]
  {
    Widths();
    hide Unpack, RowFits, Table, Holds, Width, EdgeRows;
    RowRead(p, HEADER_SIZE + MOD_SIZE * n, EdgeRows(rs), EDGE, EDGE_SIZE, i);
  }

  lemma ModRead(prefix: Bytes, b: Build, rs: seq<Record>, p: Bytes, i: nat)
    requires Legal(prefix, b) && Laid(p, b, rs) && i < |b.modules|
    ensures HEADER_SIZE + MOD_SIZE * i + MOD_SIZE <= |p| && ModAt(p, i) == ModRow(b, i)
  {
    hide Legal, RowFits, Holds, Table, ModRow, ModRows, ModAt, Align8, HeaderBytes, Blobs, Strings, PayloadSize;
    hide EdgeRows;
    NumbersFit(prefix, b);
    ModUnpack(p, ModRows(b), i);
  }

  /** Every stored record is that of some edge of the build. */
  lemma Source(b: Build, rs: seq<Record>, i: nat) returns (j: nat)
    requires Arranged(b, rs) && i < |rs|
    ensures j < |b.edges| && rs[i] == RecordOf(b, j)
  {
    hide RecordOf, Sorted, RecordsOk;
    assert rs[i] in multiset(rs);
    j :| 0 <= j < |Records(b)| && Records(b)[j] == rs[i];
  }

  lemma EdgeRead(prefix: Bytes, b: Build, rs: seq<Record>, p: Bytes, i: nat)
    requires Legal(prefix, b) && Laid(p, b, rs) && Arranged(b, rs) && i < |rs|
    ensures HEADER_SIZE + MOD_SIZE * |b.modules| + EDGE_SIZE * i + EDGE_SIZE <= |p|
    ensures EdgeAt(p, |b.modules|, i) == rs[i]
  {
    hide Legal, RowFits, Holds, Table, EdgeRow, ModRows, EdgeAt, Align8, HeaderBytes, Blobs, Strings, PayloadSize;
    hide EdgeRows;
    hide Arranged, RecordOf;
    NumbersFit(prefix, b);
    var j := Source(b, rs, i);
    EdgeUnpack(p, |b.modules|, rs, i);
  }

  lemma StrtabRead(b: Build, rs: seq<Record>, p: Bytes)
    requires Laid(p, b, rs) && b.modules != []
    ensures var t, at := Strings(Names(b)), StrtabOffset(b);
            |t| > 0 && at + |t| <= |p| && p[at..at + |t|] == t && p[at + |t| - 1] == 0
  {
    var t, at := Strings(Names(b)), StrtabOffset(b);
    hide Table, Blobs, Strings, HeaderBytes, Zeros, Datas, ModRows, EdgeRows, BlobOffset, Align8;
    StringsTerminated(Names(b));
    assert p[at + |t| - 1] == p[at..at + |t|][|t| - 1];
  }

  /** A module's record leads to its key and its data. */
  lemma ModuleRead(b: Build, rs: seq<Record>, p: Bytes, i: nat)
    requires Laid(p, b, rs) && i < |b.modules| && CStrings(b) && FieldsOk(b)
    ensures Terminated(Strings(Names(b))) && ModOk(p, ModRow(b, i), |Strings(Names(b))|, DataOffset(b))
    ensures ModuleOf(p, Strings(Names(b)), ModRow(b, i), DataOffset(b)) == b.modules[i]
  {
    hide Table, Blobs, BlobOffset, Strings, Offset, StringAt, HeaderBytes, Zeros, ModRows, EdgeRows, Align8, Holds;
    hide PayloadSize;
    assert Names(b)[i] == b.modules[i].key;
    StringsAt(Names(b), i);
    hide Names;
    DataRead(p, DataOffset(b), Datas(b.modules), i);
  }

  lemma DataRead(p: Bytes, at: nat, blobs: seq<Bytes>, i: nat)
    requires i < |blobs| && Holds(p, at, Blobs(blobs, at))
    ensures var off := BlobOffset(blobs, at, i);
            && at <= off && off + |blobs[i]| < |p|
            && p[off..off + |blobs[i]|] == blobs[i] && p[off + |blobs[i]|] == 0
  {
    BlobAt(blobs, at, i);
    hide Blobs, BlobOffset;
    var off := BlobOffset(blobs, at, i) - at;
    HoldsInside(p, at, Blobs(blobs, at), off, blobs[i]);
    assert p[at..at + |Blobs(blobs, at)|][off + |blobs[i]|] == p[at + off + |blobs[i]|];
  }

  /** The payload of a legal build passes every check. */
  lemma PayloadAcceptable(prefix: Bytes, b: Build, rs: seq<Record>, p: Bytes)
    requires Legal(prefix, b) && Laid(p, b, rs) && Arranged(b, rs)
    ensures |p| >= HEADER_SIZE && Acceptable(p) && StrtabOf(p) == Strings(Names(b))
  {
    hide HeadOf, ModAt, EdgeAt, Laid, Legal, ModOk, Strings, Names, Align8, BlobOffset, Offset, StringAt, RecordOk;
    hide AbiOf;
    HeaderRead(prefix, b, rs, p);
    HeadAccepted(prefix, b, rs, p);
    hide HeadOk;
    forall i | 0 <= i < |b.modules| ensures ModOk(p, ModAt(p, i), |Strings(Names(b))|, DataOffset(b)) {
      ModAccepted(prefix, b, rs, p, i);
    }
    forall i | 0 <= i < |b.edges| ensures RecordOk(EdgeAt(p, |b.modules|, i), |b.modules|, |Strings(Names(b))|) {
      EdgeAccepted(prefix, b, rs, p, i);
    }
  }

  lemma HeadAccepted(prefix: Bytes, b: Build, rs: seq<Record>, p: Bytes)
    requires Legal(prefix, b) && Laid(p, b, rs)
    ensures |p| >= HEADER_SIZE && HeadOk(p) && StrtabOf(p) == Strings(Names(b))
  {
    hide HeadOf, Strings, Names, Holds, HeaderBytes, Table, Blobs, ModRows, EdgeRows, Datas, BlobOffset, PayloadSize;
    hide Zeros, AbiOf;
    HeaderRead(prefix, b, rs, p);
    StrtabRead(b, rs, p);
    assert b.entry < |b.modules| && DataOffset(b) <= |p|;
    hide Laid, Legal, Linked, Small, CStrings, FieldsOk;
  }

  lemma ModAccepted(prefix: Bytes, b: Build, rs: seq<Record>, p: Bytes, i: nat)
    requires Legal(prefix, b) && Laid(p, b, rs) && i < |b.modules|
    ensures HEADER_SIZE + MOD_SIZE * i + MOD_SIZE <= |p|
    ensures ModOk(p, ModAt(p, i), |Strings(Names(b))|, DataOffset(b))
  {
    hide Laid, ModOk, ModAt, ModRow;
    ModRead(prefix, b, rs, p, i);
    ModuleRead(b, rs, p, i);
  }

  lemma EdgeAccepted(prefix: Bytes, b: Build, rs: seq<Record>, p: Bytes, i: nat)
    requires Legal(prefix, b) && Laid(p, b, rs) && Arranged(b, rs) && i < |rs|
    ensures HEADER_SIZE + MOD_SIZE * |b.modules| + EDGE_SIZE * i + EDGE_SIZE <= |p|
    ensures RecordOk(EdgeAt(p, |b.modules|, i), |b.modules|, |Strings(Names(b))|)
  {
    EdgeRead(prefix, b, rs, p, i);
    var j := Source(b, rs, i);
    hide Laid, EdgeAt, Strings, Offset, Arranged;
    OffsetBound(Names(b), |b.modules| + j);
  }
}
