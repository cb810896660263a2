/**
 Whole histories of positional string access: with both caches in play, over any sequence
 of queries and any changes of the string heap between them, every reply is that of a plain
 scan of the string as it is then.
 */
module Utf16History {
  import opened Utf16Scan
  import opened Utf16Positions

  datatype Query =
    | ToByte(str: Ptr, len: nat, index: nat)
    | ToByteFloor(str: Ptr, len: nat, index: nat)
    | UnitAt(str: Ptr, len: nat, index: nat)
    | PointAt(str: Ptr, len: nat, index: nat)
    | Slice(str: Ptr, len: nat, start: nat, end: nat)
    | UnitsBefore(str: Ptr, len: nat)

  datatype Reply =
    | Offset(at: int, charBytes: nat)
    | Floor(floor: nat)
    | Unit(unit: int)
    | Range(byteStart: nat, byteEnd: nat, prefix: int, suffix: int)
    | Count(count: nat)

  /** A complete string of the heap is asked about. */
  ghost predicate Asks(w: World, q: Query) {
    WorldOk(w) && q.str in w.mem && q.len <= |w.mem[q.str]| && Fits(w.mem[q.str], 0, q.len)
  }

  /** The reply is right for the string as a scan from its first byte reads it. */
  ghost predicate Answers(w: World, q: Query, r: Reply)
    requires Asks(w, q)
  {
    var s := w.mem[q.str];
    match q
    case ToByte(_, len, i) => r == Offset(ByteAt(s, len, i).0, ByteAt(s, len, i).1)
    case ToByteFloor(_, len, i) => r == Floor(FloorFrom(s, len, Point(0, 0), i).byte)
    case UnitAt(_, len, i) => r == Unit(UnitOrOverlong(s, len, i))
    case PointAt(_, len, i) => r.Unit? && IsPointAt(s, len, i, r.unit)
    case Slice(_, len, i, j) => r.Range? && IsRange(s, len, i, j, r.byteStart, r.byteEnd, r.prefix, r.suffix)
    case UnitsBefore(_, len) => r == Count(Utf16Positions.UnitsBefore(s, len, Point(0, 0)))
  }

  ghost predicate History(worlds: seq<World>, queries: seq<Query>) {
    && |worlds| == |queries|
    && (forall i :: 0 <= i < |worlds| ==> Asks(worlds[i], queries[i]))
    && (forall i :: 0 < i < |worlds| ==> WorldStep(worlds[i - 1], worlds[i]))
  }

  method Ask(scanner: Scanner, w: World, q: Query) returns (r: Reply)
    requires scanner.Inv(w) && Asks(w, q)
    modifies scanner
    ensures scanner.Inv(w) && Answers(w, q, r)
  {
    hide Scanner.Inv, ByteAt, FloorFrom, UnitOrOverlong, IsPointAt, IsRange, Utf16Positions.UnitsBefore, Fits;
    match q
    case ToByte(str, len, i) =>
      var at, n := scanner.IndexToByte(w, str, len, i);
      r := Offset(at, n);
    case ToByteFloor(str, len, i) =>
      var at := scanner.IndexToByteFloor(w, str, len, i);
      r := Floor(at);
    case UnitAt(str, len, i) =>
      var u := scanner.CodeUnitAt(w, str, len, i);
      r := Unit(u);
    case PointAt(str, len, i) =>
      var cp := scanner.CodePointAt(w, str, len, i);
      r := Unit(cp);
    case Slice(str, len, i, j) =>
      var from, to, prefix, suffix := scanner.RangeToBytes(w, str, len, i, j);
      r := Range(from, to, prefix, suffix);
    case UnitsBefore(str, len) =>
      var n := scanner.ByteToUnit(w, str, len);
      r := Count(n);
  }

  method AskAll(worlds: seq<World>, queries: seq<Query>) returns (replies: seq<Reply>)
    requires History(worlds, queries)
    ensures |replies| == |queries| && forall i :: 0 <= i < |queries| ==> Answers(worlds[i], queries[i], replies[i])
  {
    hide Asks, Answers, WorldStep, Scanner.Inv;
    var scanner := new Scanner();
    replies := [];
    var n := 0;
    while n < |queries|
      invariant n <= |queries| && |replies| == n && fresh(scanner)
      invariant if n == 0 then forall w: World :: scanner.Inv(w) else scanner.Inv(worlds[n - 1])
      invariant forall i :: 0 <= i < n ==> Answers(worlds[i], queries[i], replies[i])
    {
      if n > 0 { scanner.Follows(worlds[n - 1], worlds[n]); }
      var r := Ask(scanner, worlds[n], queries[n]);
      replies := replies + [r];
      n := n + 1;
    }
  }
}
