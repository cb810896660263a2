/** Writing a bundle to the end of a file and opening it again. */
module BundleFile {
  import opened Basics
  import opened BundleBytes
  import opened BundleEdges
  import opened BundleFormat

  const SCAN_MAX: nat := 0x40_0000

  // ---- the footer ----

  function FooterRow(file: Bytes, at: nat): (row: seq<nat>)
    requires at + FOOTER_SIZE <= |file|
    ensures |row| == |FOOTER|
  {
    Widths();
    Unpack(file[at + |MAGIC|..at + FOOTER_SIZE], FOOTER)
  }

  /** footer_valid of the bytes at a position of the file. */
  predicate FooterValid(file: Bytes, at: nat)
    requires at + FOOTER_SIZE <= |file|
  {
    var f := FooterRow(file, at);
    && file[at..at + |MAGIC|] == MAGIC
    && f[0] == VERSION && f[3] >= HEADER_SIZE && f[2] % 8 == 0
    && f[2] <= at && f[3] <= at && f[2] + f[3] <= at
  }

  /** The last valid footer at or before a position, down to a limit. */
  function Search(file: Bytes, at: nat, low: nat): Option<nat>
    requires at + FOOTER_SIZE <= |file|
    decreases at
  {
    if at < low then None
    else if FooterValid(file, at) then Some(at)
    else if at == 0 then None
    else Search(file, at - 1, low)
  }

  function Window(size: nat): nat {
    if size < SCAN_MAX then 0 else size - SCAN_MAX
  }

  lemma {:induction false} SearchFinds(file: Bytes, at: nat, low: nat, pos: nat)
    requires at + FOOTER_SIZE <= |file| && low <= pos <= at && FooterValid(file, pos)
    requires forall j :: pos < j <= at ==> !FooterValid(file, j)
    ensures Search(file, at, low) == Some(pos)
    decreases at
  {
    hide FooterValid;
    if at > pos { SearchFinds(file, at - 1, low, pos); }
  }

  /** find_footer: the end of the file first, then backwards through the last four megabytes. */
  method FindFooter(file: Bytes) returns (r: Option<nat>)
    requires |file| >= FOOTER_SIZE
    ensures r == Search(file, |file| - FOOTER_SIZE, Window(|file|))
  {
    hide FooterRow;
    if FooterValid(file, |file| - FOOTER_SIZE) { return Some(|file| - FOOTER_SIZE); }
    var scanLen := if |file| < SCAN_MAX then |file| else SCAN_MAX;
    var scanStart := |file| - scanLen;
    var off: int := scanLen - FOOTER_SIZE;
    while off >= 0
      invariant -1 <= off <= scanLen - FOOTER_SIZE
      invariant Search(file, |file| - FOOTER_SIZE, scanStart) ==
                if scanStart + off < 0 then None else Search(file, scanStart + off, scanStart)
    {
      var at := scanStart + off;
      if file[at..at + |MAGIC|] == MAGIC && FooterValid(file, at) { return Some(at); }
      off := off - 1;
    }
    return None;
  }

  // ---- opening ----

  /** The result of opening a file: what its last footer leads to. */
  ghost function Meaning(file: Bytes, expected: Option<Bytes>): Status {
    if |file| < FOOTER_SIZE then NoTrailer
    else
      var at := Search(file, |file| - FOOTER_SIZE, Window(|file|));
      if at.None? then NoTrailer else MeaningAt(file, at.value, expected)
  }

  ghost function MeaningAt(file: Bytes, at: nat, expected: Option<Bytes>): Status {
    if at + FOOTER_SIZE > |file| || !FooterValid(file, at) then NoTrailer
    else
      var f := FooterRow(file, at);
      var p := file[f[2]..f[2] + f[3]];
      if expected.Some? && AbiOf(p) != expected.value then WrongAbi(AbiOf(p))
      else if !Acceptable(p) then Corrupt
      else Ok(Contents(p))
  }

  lemma {:induction false} SearchValid(file: Bytes, at: nat, low: nat)
    requires at + FOOTER_SIZE <= |file|
    ensures var r := Search(file, at, low);
            r.Some? ==> low <= r.value <= at && FooterValid(file, r.value)
    decreases at
  {
    hide FooterValid;
    if at > 0 { SearchValid(file, at - 1, low); }
  }

  /** The loop of ant_bundle_open over the module records. */
  method ReadModules(p: Bytes, t: Bytes, n: nat, dataOff: nat) returns (ok: bool, ms: seq<Module>)
    requires |p| >= HEADER_SIZE && HEADER_SIZE + MOD_SIZE * n <= |p| && Terminated(t)
    ensures ok <==> forall i :: 0 <= i < n ==> ModOk(p, ModAt(p, i), |t|, dataOff)
    ensures ok ==> |ms| == n && forall i :: 0 <= i < n ==> ms[i] == ModuleOf(p, t, ModAt(p, i), dataOff)
  {
    hide ModAt, StringAt;
    ms := [];
    var i := 0;
    while i < n
      invariant i <= n && |ms| == i
      invariant forall j :: 0 <= j < i ==>
                  ModOk(p, ModAt(p, j), |t|, dataOff) && ms[j] == ModuleOf(p, t, ModAt(p, j), dataOff)
    {
      var row := ModAt(p, i);
      if row[0] >= |t| { return false, ms; }
      if row[3] > MATERIALIZE + EXECUTABLE || (row[3] == EXECUTABLE) { return false, ms; }
      if row[4] < dataOff || row[4] > |p| || row[5] >= |p| - row[4] { return false, ms; }
      if p[row[4] + row[5]] != 0 { return false, ms; }
      ms := ms + [Module(StringAt(t, row[0]), row[1], row[2], row[3], p[row[4]..row[4] + row[5]])];
      i := i + 1;
    }
    return true, ms;
  }

  /** The loop of ant_bundle_open over the edge records. */
  method ReadEdges(p: Bytes, n: nat, m: nat, strtabLen: nat) returns (ok: bool, rs: seq<Record>)
    requires HEADER_SIZE + MOD_SIZE * n + EDGE_SIZE * m <= |p|
    ensures ok <==> forall i :: 0 <= i < m ==> RecordOk(EdgeAt(p, n, i), n, strtabLen)
    ensures ok ==> |rs| == m && forall i :: 0 <= i < m ==> rs[i] == EdgeAt(p, n, i)
  {
    hide EdgeAt;
    rs := [];
    var i := 0;
    while i < m
      invariant i <= m && |rs| == i
      invariant forall j :: 0 <= j < i ==> RecordOk(EdgeAt(p, n, j), n, strtabLen) && rs[j] == EdgeAt(p, n, j)
    {
      var r := EdgeAt(p, n, i);
      if r.parent >= n || r.child >= n || r.spec >= strtabLen { return false, rs; }
      rs := rs + [r];
      i := i + 1;
    }
    return true, rs;
  }

  /** ant_bundle_open, for any bytes whatever. */
  method Open(file: Bytes, expected: Option<Bytes>) returns (s: Status)
    ensures s == Meaning(file, expected)
  {
    hide Acceptable, Contents, AbiOf, FooterRow, Search;
    if |file| < FOOTER_SIZE { return NoTrailer; }
    var at := FindFooter(file);
    SearchValid(file, |file| - FOOTER_SIZE, Window(|file|));
    if at.None? { return NoTrailer; }
    var f := FooterRow(file, at.value);
    var p := file[f[2]..f[2] + f[3]];
    s := Parse(p, expected);
  }

  /** The checks on the payload and what they let through. */
  method Parse(p: Bytes, expected: Option<Bytes>) returns (s: Status)
    requires |p| >= HEADER_SIZE
    ensures s == if expected.Some? && AbiOf(p) != expected.value then WrongAbi(AbiOf(p))
                 else if !Acceptable(p) then Corrupt else Ok(Contents(p))
  {
    hide HeadOf, ModAt, EdgeAt, StringAt, ModOk, RecordOk, AbiOf, ModuleOf;
    var h := HeadOf(p);
    var abi := AbiOf(p);
    if expected.Some? && abi != expected.value { return WrongAbi(abi); }
    if h[0] == 0 || h[2] >= h[0] { return Corrupt; }
    var stringsAt := HEADER_SIZE + MOD_SIZE * h[0] + EDGE_SIZE * h[1];
    if h[4] != stringsAt { return Corrupt; }
    if h[5] == 0 || h[5] > |p| || h[4] + h[5] > |p| { return Corrupt; }
    if h[6] < h[4] + h[5] || h[6] > |p| { return Corrupt; }
    var t := p[h[4]..h[4] + h[5]];
    if t[|t| - 1] != 0 { return Corrupt; }
    assert HeadOk(p) && StrtabOf(p) == t;
    var okModules, ms := ReadModules(p, t, h[0], h[6]);
    if !okModules { return Corrupt; }
    var okEdges, rs := ReadEdges(p, h[0], h[1], |t|);
    if !okEdges { return Corrupt; }
    assert Contents(p).modules == ms && Contents(p).records == rs;
    return Ok(Opened(abi, h[2], ms, rs, t));
  }

  // ---- writing ----

  /** The loop of ant_bundle_write that collects the keys. */
  method AddKeys(ms: seq<Module>) returns (st: Bytes, offs: seq<nat>)
    ensures st == Strings(Keys(ms))
    ensures |offs| == |ms| && forall i :: 0 <= i < |ms| ==> offs[i] == Offset(Keys(ms), i)
  {
    ghost var keys := Keys(ms);
    hide Keys, Offset;
    st, offs := [], [];
    var i := 0;
    assert keys[..0] == [];
    while i < |ms|
      invariant i <= |ms| && st == Strings(keys[..i]) && |offs| == i
      invariant forall j :: 0 <= j < i ==> offs[j] == Offset(keys, j)
    {
      OffsetIsLength(keys, i);
      offs := offs + [|st|];
      StringsSnoc(keys, i);
      st := st + ms[i].key + [0];
      i := i + 1;
    }
    assert keys[..i] == keys;
  }

  lemma StringsSnoc(ss: seq<Bytes>, i: nat)
    requires i < |ss|
    ensures Strings(ss[..i + 1]) == Strings(ss[..i]) + ss[i] + [0]
  {
    var one: seq<Bytes> := [ss[i]];
    assert ss[..i + 1] == ss[..i] + one;
    StringsConcat(ss[..i], one);
    assert one[1..] == [];
    assert Strings(one) == Entry(ss[i]) + [];
  }

  /** The loop of ant_bundle_write over the edges; it gives up on an index out of range. */
  method AddEdges(b: Build, keys: Bytes) returns (ok: bool, st: Bytes, rs: seq<Record>)
    requires keys == Strings(Keys(b.modules))
    ensures ok <==> forall i :: 0 <= i < |b.edges| ==> b.edges[i].parent < |b.modules| && b.edges[i].child < |b.modules|
    ensures ok ==> st == Strings(Names(b)) && rs == Records(b)
  {
    ghost var n := |b.modules|;
    assert Names(b)[..n + 0] == Keys(b.modules);
    hide Names, Strings, RecordOf, Records;
    st, rs := keys, [];
    var i := 0;
    while i < |b.edges|
      invariant i <= |b.edges| && n + i <= |Names(b)| && st == Strings(Names(b)[..n + i]) && |rs| == i
      invariant forall j :: 0 <= j < i ==> b.edges[j].parent < n && b.edges[j].child < n && rs[j] == RecordOf(b, j)
    {
      var e := b.edges[i];
      if e.parent >= |b.modules| || e.child >= |b.modules| { return false, st, rs; }
      EdgeAdded(b, i);
      rs := rs + [Record(e.parent, |st|, e.child, if e.require then 1 else 0)];
      st := st + e.spec + [0];
      i := i + 1;
    }
    AllNames(b);
    return true, st, rs;
  }

  lemma EdgeAdded(b: Build, i: nat)
    requires i < |b.edges|
    ensures var n, e := |b.modules| + i, b.edges[i];
            && n < |Names(b)|
            && RecordOf(b, i) == Record(e.parent, |Strings(Names(b)[..n])|, e.child, if e.require then 1 else 0)
            && Strings(Names(b)[..n + 1]) == Strings(Names(b)[..n]) + e.spec + [0]
  {
    NameOfEdge(b, i);
    hide Names, Strings;
    OffsetIsLength(Names(b), |b.modules| + i);
    StringsSnoc(Names(b), |b.modules| + i);
  }

  lemma AllNames(b: Build)
    ensures |Names(b)| == |b.modules| + |b.edges| && Names(b)[..|b.modules| + |b.edges|] == Names(b)
  {
  }

  lemma NameOfEdge(b: Build, i: nat)
    requires i < |b.edges|
    ensures |Names(b)| == |b.modules| + |b.edges| && Names(b)[|b.modules| + i] == b.edges[i].spec
  {
  }

  /** The loop of ant_bundle_write that places the data. */
  method PlaceData(b: Build, offs: seq<nat>, start: nat) returns (rows: seq<seq<nat>>, size: nat)
    requires start == DataOffset(b) && |offs| == |b.modules|
    requires forall i :: 0 <= i < |offs| ==> offs[i] == Offset(Names(b), i)
    ensures rows == ModRows(b) && size == PayloadSize(b)
  {
    ghost var blobs := Datas(b.modules);
    hide ModRows, Datas, Names, Offset, DataOffset;
    rows, size := [], start;
    var i := 0;
    while i < |b.modules|
      invariant i <= |b.modules| && |rows| == i && size == BlobOffset(blobs, start, i)
      invariant forall j :: 0 <= j < i ==> rows[j] == ModRow(b, j)
    {
      var m := b.modules[i];
      rows := rows + [[offs[i], m.format, m.kind, m.flags, size, |m.data|]];
      BlobStep(blobs, start, i);
      size := Align8(size + |m.data| + 1);
      i := i + 1;
    }
  }

  /** The loop of ant_bundle_write that writes the data; every run of zeros fits the buffer of eight. */
  method WriteData(b: Build, start: nat) returns (out: Bytes)
    ensures out == Blobs(Datas(b.modules), start)
  {
    ghost var blobs := Datas(b.modules);
    hide Datas, Blobs;
    out := [];
    var at, i := start, 0;
    assert Blobs(blobs[..0], start) == [] by { assert blobs[..0] == []; BlobsSplit(blobs, start, 0); }
    while i < |b.modules|
      invariant i <= |b.modules| && at == BlobOffset(blobs, start, i) && out == Blobs(blobs[..i], start)
    {
      var next := Align8(at + |b.modules[i].data| + 1);
      var piece := Padded(b.modules[i].data, next - at);
      BlobsNext(blobs, start, i);
      BlobStep(blobs, start, i);
      out := out + piece;
      at, i := next, i + 1;
    }
    assert blobs[..i] == blobs;
  }

  /** ant_bundle_write: the file grown by the bundle, or nothing when the build is not linked up. */
  method Write(prefix: Bytes, b: Build) returns (r: Option<Bytes>, ghost rs: seq<Record>)
    requires Small(prefix, b)
    ensures r.Some? <==> Linked(b)
    ensures r.Some? ==> Arranged(b, rs) && r.value == File(prefix, b, rs)
  {
    hide Strings, Names, Records, ModRows, PayloadSize, Small, Keys, Offset, BlobOffset, File, EdgesOf, Sorted;
    rs := [];
    if |b.modules| == 0 || b.entry >= |b.modules| { return None, rs; }
    var keys, offs := AddKeys(b.modules);
    var ok, st, recs := AddEdges(b, keys);
    if !ok { return None, rs; }
    KeyOffsets(b);
    RecordsFine(b);
    var sorted := Sort(st, recs);
    assert |multiset(sorted)| == |multiset(recs)|;
    rs := sorted;
    var strtabOff := HEADER_SIZE + |b.modules| * MOD_SIZE + |b.edges| * EDGE_SIZE;
    var dataOff := Align8(strtabOff + |st|);
    var rows, size := PlaceData(b, offs, dataOff);
    var file := Emit(prefix, b, sorted, st, rows, dataOff, size);
    return Some(file), rs;
  }

  lemma KeyOffsets(b: Build)
    ensures forall i :: 0 <= i < |b.modules| ==> Offset(Names(b), i) == Offset(Keys(b.modules), i)
  {
    hide Offset, Keys, Specs;
    forall i | 0 <= i < |b.modules| ensures Offset(Names(b), i) == Offset(Keys(b.modules), i) {
      OffsetExtends(Keys(b.modules), Specs(b.edges), i);
    }
  }

  lemma RecordsFine(b: Build)
    requires b.modules != []
    ensures RecordsOk(Strings(Names(b)), Records(b))
  {
    hide Offset, Strings;
    StringsTerminated(Names(b));
    forall i | 0 <= i < |b.edges| ensures RecordOf(b, i).spec < |Strings(Names(b))| {
      OffsetBound(Names(b), |b.modules| + i);
    }
  }

  /** The writes of ant_bundle_write, in order. */
  method Emit(prefix: Bytes, b: Build, rs: seq<Record>, st: Bytes, rows: seq<seq<nat>>, dataOff: nat, size: nat)
    returns (file: Bytes)
    requires |rs| == |b.edges| && st == Strings(Names(b)) && rows == ModRows(b) && dataOff == DataOffset(b)
             && size == PayloadSize(b)
    ensures file == File(prefix, b, rs)
  {
    Widths();
    PayloadLayout(b, rs);
    assert size == |Payload(b, rs)| by { hide Holds; }
    hide Laid, Strings, Names, ModRows, PayloadSize, Pack, Table, Blobs, EdgeRows, BlobOffset, Zeros, Align8, Width;
    var none: Bytes := [];
    var at := Align8(|prefix|);
    var gap := Padded(none, at - |prefix|);
    assert gap == Zeros(at - |prefix|);
    var abi := AbiField(b.abi);
    var header := Pack([|b.modules|, |b.edges|, b.entry, 0, StrtabOffset(b), |st|, dataOff], HEADER);
    var strings := Padded(st, dataOff - StrtabOffset(b));
    var data := WriteData(b, dataOff);
    var footer := MAGIC + Pack([VERSION, 0, at, size], FOOTER);
    var mods, edges := Table(rows, MOD), Table(EdgeRows(rs), EDGE);
    file := prefix + gap + abi + header + mods + edges + strings + data + footer;
    Regroup(prefix + gap, abi, header, mods, edges, st, Zeros(dataOff - StrtabOffset(b) - |st|), data, footer);
  }

  lemma Regroup(a: Bytes, b: Bytes, c: Bytes, d: Bytes, e: Bytes, f: Bytes, g: Bytes, h: Bytes, i: Bytes)
    ensures a + b + c + d + e + (f + g) + h + i == a + (b + c + (d + (e + (f + (g + h))))) + i
  {
    Associate(f, g, h);
    var gh := g + h;
    Associate(e, f + g, h);
    var fgh := f + gh;
    Associate(d, e, fgh);
    var rest := d + (e + fgh);
    Associate(b + c, d + e, fgh);
    Associate(a, b + c, rest);
    Associate(a, b, c);
    Associate(a + (b + c), d, e + fgh);
    Associate(a + (b + c) + d, e, fgh);
    Associate(a + (b + c) + d + e, f + g, h);
  }

  // ---- the round trip ----

  lemma Removed<T>(s: seq<T>, i: nat)
    requires i < |s|
    ensures multiset(s) == multiset(Without(s, i)) + multiset{s[i]}
  {
    assert s == s[..i] + [s[i]] + s[i + 1..];
  }

  lemma EdgesWithout(t: Bytes, recs: seq<Record>, i: nat)
    requires RecordsOk(t, recs) && i < |recs|
    ensures RecordsOk(t, Without(recs, i)) && EdgesOf(t, Without(recs, i)) == Without(EdgesOf(t, recs), i)
  {
    hide EdgeOf, EdgesOf;
  }

  /** Records in another order mean the same edges in another order. */
  lemma {:induction false} EdgesMultiset(t: Bytes, xs: seq<Record>, ys: seq<Record>)
    requires RecordsOk(t, xs) && RecordsOk(t, ys) && multiset(xs) == multiset(ys)
    ensures multiset(EdgesOf(t, xs)) == multiset(EdgesOf(t, ys))
    decreases |xs|
  {
    hide EdgeOf, EdgesOf, Without;
    assert |multiset(xs)| == |multiset(ys)|;
    if xs == [] {
      assert EdgesOf(t, xs) == EdgesOf(t, ys);
    } else {
      assert xs[0] in multiset(ys);
      var i :| 0 <= i < |ys| && ys[i] == xs[0];
      Removed(xs, 0);
      Removed(ys, i);
      assert multiset(Without(xs, 0)) == multiset(xs) - multiset{xs[0]} == multiset(Without(ys, i));
      EdgesWithout(t, xs, 0);
      EdgesWithout(t, ys, i);
      Removed(EdgesOf(t, xs), 0);
      Removed(EdgesOf(t, ys), i);
      assert |Without(xs, 0)| < |xs| by { assert |multiset(xs)| == |multiset(Without(xs, 0))| + 1; }
      EdgesMultiset(t, Without(xs, 0), Without(ys, i));
    }
  }

  /** The stored edges, read through the string table, are the build's own. */
  lemma RecordsMean(b: Build)
    requires b.modules != [] && CStrings(b)
    ensures RecordsOk(Strings(Names(b)), Records(b)) && EdgesOf(Strings(Names(b)), Records(b)) == b.edges
  {
    RecordsFine(b);
    hide EdgeOf, EdgesOf, Strings, Names, Records, CStrings, RecordsOk;
    forall i | 0 <= i < |b.edges| ensures EdgeOf(Strings(Names(b)), Records(b)[i]) == b.edges[i] { RecordMeans(b, i); }
  }

  lemma RecordMeans(b: Build, i: nat)
    requires i < |b.edges| && CStrings(b)
    ensures Terminated(Strings(Names(b))) && RecordOf(b, i).spec < |Strings(Names(b))|
    ensures EdgeOf(Strings(Names(b)), RecordOf(b, i)) == b.edges[i]
  {
    hide Offset, Strings, StringAt;
    NameOfEdge(b, i);
    hide Names;
    StringsAt(Names(b), |b.modules| + i);
  }

  lemma ContentsRead(prefix: Bytes, b: Build, rs: seq<Record>, p: Bytes)
    requires Legal(prefix, b) && Laid(p, b, rs) && Arranged(b, rs)
    ensures |p| >= HEADER_SIZE && Acceptable(p) && AbiOf(p) == Cut(b.abi)
    ensures Contents(p) == Opened(Cut(b.abi), b.entry, b.modules, rs, Strings(Names(b)))
  {
    hide HeadOf, ModAt, EdgeAt, Laid, Legal, ModOk, Strings, Names, Align8, BlobOffset, Offset, StringAt, RecordOk;
    hide AbiOf, Arranged, HeadOk, ModuleOf, ModRow;
    PayloadAcceptable(prefix, b, rs, p);
    HeaderRead(prefix, b, rs, p);
    var c := Contents(p);
    assert |rs| == |b.edges| by { ArrangedLength(b, rs); }
    forall i | 0 <= i < |b.modules| ensures c.modules[i] == b.modules[i] {
      ModRead(prefix, b, rs, p, i);
      LegalParts(prefix, b);
      ModuleRead(b, rs, p, i);
    }
    assert c.modules == b.modules;
    forall i | 0 <= i < |b.edges| ensures c.records[i] == rs[i] { EdgeRead(prefix, b, rs, p, i); }
    assert c.records == rs;
  }

  lemma ArrangedLength(b: Build, rs: seq<Record>)
    requires Arranged(b, rs)
    ensures |rs| == |b.edges|
  {
  }

  lemma LegalParts(prefix: Bytes, b: Build)
    requires Legal(prefix, b)
    ensures CStrings(b) && FieldsOk(b) && b.modules != []
  {
  }

  lemma FooterRead(file: Bytes, at: nat, offset: nat, size: nat)
    requires Holds(file, at, Footer(offset, size)) && offset % 8 == 0 && HEADER_SIZE <= size
    requires offset + size <= at < 0x8000_0000_0000_0000
    ensures at + FOOTER_SIZE <= |file| && FooterValid(file, at) && FooterRow(file, at) == [VERSION, 0, offset, size]
  {
    Widths();
    Powers();
    var row := [VERSION, 0, offset, size];
    var packed := Pack(row, FOOTER);
    hide Pow256, Width, Pack, Unpack;
    assert RowFits(row, FOOTER);
    HoldsFirst(MAGIC, packed);
    HoldsInside(file, at, MAGIC + packed, 0, MAGIC);
    assert Holds(MAGIC + packed, |MAGIC|, packed);
    HoldsInside(file, at, MAGIC + packed, |MAGIC|, packed);
    Unpacked(row, FOOTER);
  }

  lemma FileLayout(prefix: Bytes, b: Build, rs: seq<Record>, junk: Bytes)
    ensures var at, p := Align8(|prefix|), Payload(b, rs);
            && Holds(File(prefix, b, rs) + junk, at, p)
            && Holds(File(prefix, b, rs) + junk, at + |p|, Footer(at, |p|))
            && |File(prefix, b, rs)| == at + |p| + FOOTER_SIZE
  {
    Widths();
    hide Payload, Footer, Align8, Width;
    var at, p := Align8(|prefix|), Payload(b, rs);
    var head := prefix + Zeros(at - |prefix|);
    var f := Footer(at, |p|);
    assert File(prefix, b, rs) == head + p + f;
    Associate(head, p, f);
    Associate(head, p + f, junk);
    Associate(p, f, junk);
    HoldsFirst(p, f + junk);
    HoldsAfter(head, p + (f + junk), 0, p);
    HoldsFirst(f, junk);
    HoldsAfter(p, f + junk, 0, f);
    HoldsAfter(head, p + (f + junk), |p|, f);
  }

  /** Nothing after position `at` of the file reads as a footer. */
  ghost predicate NoFooterAfter(file: Bytes, at: nat) {
    forall j :: at < j <= |file| - FOOTER_SIZE ==> !FooterValid(file, j)
  }

  /**
   What was written is read back: for every legal build and every prefix, and even with
   bytes appended later, as long as none of them reads as a footer and the footer is still
   within the part of the file that is searched.
   */
  lemma RoundTrip(prefix: Bytes, b: Build, rs: seq<Record>, junk: Bytes)
    requires Legal(prefix, b) && Arranged(b, rs)
    requires junk == [] || NoFooterAfter(File(prefix, b, rs) + junk, |File(prefix, b, rs)| - FOOTER_SIZE)
    requires |junk| + FOOTER_SIZE <= SCAN_MAX
    ensures var t := Strings(Names(b));
            var o := Opened(Cut(b.abi), b.entry, b.modules, rs, t);
            && Meaning(File(prefix, b, rs) + junk, None) == Ok(o)
            && (forall abi :: Meaning(File(prefix, b, rs) + junk, Some(abi)) == if abi == Cut(b.abi) then Ok(o)
                                                                                else WrongAbi(Cut(b.abi)))
            && multiset(EdgesOf(t, rs)) == multiset(b.edges) && Sorted(EdgesOf(t, rs))
  {
    hide File, Payload, Acceptable, Contents, AbiOf, Laid, Strings, Names, EdgesOf, Sorted, Meaning, NoFooterAfter;
    EdgesBack(b, rs);
    ArrangedLength(b, rs);
    PayloadLayout(b, rs);
    ContentsRead(prefix, b, rs, Payload(b, rs));
    FooterFound(prefix, b, rs, junk);
    hide Arranged, Legal;
    MeaningOf(File(prefix, b, rs) + junk, Align8(|prefix|), Payload(b, rs));
  }

  /** A file whose last footer leads to an acceptable payload. */
  ghost predicate LeadsTo(file: Bytes, offset: nat, p: Bytes) {
    && |file| >= FOOTER_SIZE && |p| >= HEADER_SIZE && Holds(file, offset, p)
    && Search(file, |file| - FOOTER_SIZE, Window(|file|)) == Some(offset + |p|)
    && offset + |p| + FOOTER_SIZE <= |file| && FooterValid(file, offset + |p|)
    && FooterRow(file, offset + |p|) == [VERSION, 0, offset, |p|]
  }

  lemma MeaningOf(file: Bytes, offset: nat, p: Bytes)
    requires LeadsTo(file, offset, p) && Acceptable(p)
    ensures Meaning(file, None) == Ok(Contents(p))
    ensures forall abi :: Meaning(file, Some(abi)) == if abi == AbiOf(p) then Ok(Contents(p)) else WrongAbi(AbiOf(p))
  {
    hide Acceptable, Contents, AbiOf, FooterValid, FooterRow, Search;
  }

  lemma FooterFound(prefix: Bytes, b: Build, rs: seq<Record>, junk: Bytes)
    requires Legal(prefix, b) && |rs| == |b.edges| && |Payload(b, rs)| >= HEADER_SIZE
    requires junk == [] || NoFooterAfter(File(prefix, b, rs) + junk, |File(prefix, b, rs)| - FOOTER_SIZE)
    requires |junk| + FOOTER_SIZE <= SCAN_MAX
    ensures LeadsTo(File(prefix, b, rs) + junk, Align8(|prefix|), Payload(b, rs))
  {
    hide File, Payload, Laid, FooterValid, FooterRow, Search, Footer, Legal, Align8;
    var file, at, p := File(prefix, b, rs) + junk, Align8(|prefix|), Payload(b, rs);
    FileLayout(prefix, b, rs, junk);
    PayloadLayout(b, rs);
    FooterPlaced(prefix, b, rs, p);
    assert at % 8 == 0;
    FooterRead(file, at + |p|, at, |p|);
    SearchFinds(file, |file| - FOOTER_SIZE, Window(|file|), at + |p|);
  }

  lemma FooterPlaced(prefix: Bytes, b: Build, rs: seq<Record>, p: Bytes)
    requires Legal(prefix, b) && Laid(p, b, rs)
    ensures Align8(|prefix|) + |p| < 0x8000_0000_0000_0000
  {
  }

  lemma EdgesBack(b: Build, rs: seq<Record>)
    requires Arranged(b, rs) && Linked(b) && CStrings(b)
    ensures multiset(EdgesOf(Strings(Names(b)), rs)) == multiset(b.edges) && Sorted(EdgesOf(Strings(Names(b)), rs))
  {
    hide Strings, Names, Records, EdgesOf, Sorted;
    RecordsMean(b);
    EdgesMultiset(Strings(Names(b)), rs, Records(b));
  }

  /** The two ends together. */
  method WriteThenOpen(prefix: Bytes, b: Build) returns (s: Status)
    requires Legal(prefix, b)
    ensures s.Ok? && s.bundle.modules == b.modules && s.bundle.entry == b.entry && s.bundle.abi == Cut(b.abi)
    ensures RecordsOk(s.bundle.strtab, s.bundle.records) && Sorted(EdgesOf(s.bundle.strtab, s.bundle.records))
    ensures multiset(EdgesOf(s.bundle.strtab, s.bundle.records)) == multiset(b.edges)
  {
    hide File, Meaning, Strings, Names, Records, EdgesOf, Sorted, Small, CStrings, FieldsOk;
    var file, rs := Write(prefix, b);
    RoundTrip(prefix, b, rs, []);
    assert File(prefix, b, rs) + [] == file.value;
    s := Open(file.value, None);
  }
}
