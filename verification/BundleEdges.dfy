/**
 Import edges of a bundle: their order, and finding the edge for a (parent, specifier)
 pair by lower bound and forward scan.
 */
module BundleEdges {
  import opened Basics
  import opened BundleBytes

  datatype Edge = Edge(parent: nat, spec: Bytes, child: nat, require: bool)

  /** An edge as stored; its specifier is an offset into the string table. */
  datatype Record = Record(parent: nat, spec: nat, child: nat, flags: nat)

  // ---- the order ----

  /** strcmp, up to the size of the result. */
  function Compare(a: Bytes, b: Bytes): int {
    if a == [] then (if b == [] then 0 else -1)
    else if b == [] then 1
    else if a[0] != b[0] then (if a[0] < b[0] then -1 else 1)
    else Compare(a[1..], b[1..])
  }

  lemma {:induction false} CompareEqual(a: Bytes, b: Bytes)
    ensures Compare(a, b) == 0 <==> a == b
  {
    if a != [] && b != [] && a[0] == b[0] {
      CompareEqual(a[1..], b[1..]);
      assert a == [a[0]] + a[1..] && b == [b[0]] + b[1..];
    }
  }

  lemma {:induction false} CompareFlip(a: Bytes, b: Bytes)
    ensures Compare(b, a) == -Compare(a, b)
  {
    if a != [] && b != [] && a[0] == b[0] { CompareFlip(a[1..], b[1..]); }
  }

  lemma {:induction false} CompareChain(a: Bytes, b: Bytes, c: Bytes)
    requires Compare(a, b) <= 0 && Compare(b, c) <= 0
    ensures Compare(a, c) <= 0 && (Compare(a, c) == 0 ==> Compare(a, b) == 0 && Compare(b, c) == 0)
  {
    if a != [] && b != [] && c != [] && a[0] == b[0] == c[0] { CompareChain(a[1..], b[1..], c[1..]); }
  }

  /** How an edge stands to a (parent, specifier) pair. */
  function Against(e: Edge, parent: nat, spec: Bytes): int {
    if e.parent == parent then Compare(e.spec, spec) else if e.parent < parent then -1 else 1
  }

  /** edge_rec_cmp, on what the records stand for. */
  function Order(e: Edge, f: Edge): int {
    var c := Against(e, f.parent, f.spec);
    if c != 0 then c else (if e.require then 1 else 0) - (if f.require then 1 else 0)
  }

  lemma OrderTotal(e: Edge, f: Edge)
    ensures Order(f, e) == -Order(e, f)
  {
    CompareFlip(e.spec, f.spec);
  }

  lemma OrderChain(e: Edge, f: Edge, g: Edge)
    requires Order(e, f) <= 0 && Order(f, g) <= 0
    ensures Order(e, g) <= 0
  {
    if e.parent == f.parent == g.parent {
      CompareChain(e.spec, f.spec, g.spec);
      CompareEqual(e.spec, f.spec);
      CompareEqual(f.spec, g.spec);
    }
  }

  /** Going down the order, an edge stands no higher against any pair. */
  lemma AgainstMonotone(e: Edge, f: Edge, parent: nat, spec: Bytes)
    requires Order(e, f) <= 0
    ensures Against(f, parent, spec) < 0 ==> Against(e, parent, spec) < 0
    ensures Against(e, parent, spec) > 0 ==> Against(f, parent, spec) > 0
  {
    if e.parent == f.parent == parent {
      if Compare(f.spec, spec) <= 0 {
        CompareChain(e.spec, f.spec, spec);
        CompareEqual(e.spec, f.spec);
      }
    }
  }

  ghost predicate Sorted(es: seq<Edge>) {
    forall i, j :: 0 <= i < j < |es| ==> Order(es[i], es[j]) <= 0
  }

  // ---- records ----

  ghost predicate RecordsOk(t: Bytes, recs: seq<Record>) {
    Terminated(t) && forall i :: 0 <= i < |recs| ==> recs[i].spec < |t|
  }

  function EdgeOf(t: Bytes, r: Record): Edge
    requires Terminated(t) && r.spec < |t|
  {
    Edge(r.parent, StringAt(t, r.spec), r.child, r.flags % 2 == 1)
  }

  function EdgesOf(t: Bytes, recs: seq<Record>): (es: seq<Edge>)
    requires RecordsOk(t, recs)
    ensures |es| == |recs| && forall i :: 0 <= i < |recs| ==> es[i] == EdgeOf(t, recs[i])
  {
    if recs == [] then [] else [EdgeOf(t, recs[0])] + EdgesOf(t, recs[1..])
  }

  // ---- sorting ----

  /** Put a record into a sorted list, before the first record it does not follow. */
  function Insert(t: Bytes, r: Record, recs: seq<Record>): (out: seq<Record>)
    requires RecordsOk(t, recs) && r.spec < |t|
    ensures RecordsOk(t, out) && multiset(out) == multiset(recs) + multiset{r}
  {
    if recs == [] || Order(EdgeOf(t, r), EdgeOf(t, recs[0])) <= 0 then [r] + recs
    else
      assert recs == [recs[0]] + recs[1..];
      [recs[0]] + Insert(t, r, recs[1..])
  }

  lemma ConsSorted(e: Edge, es: seq<Edge>)
    requires Sorted(es) && forall i :: 0 <= i < |es| ==> Order(e, es[i]) <= 0
    ensures Sorted([e] + es)
  {
    hide Order;
  }

  lemma HeadBelow(e: Edge, es: seq<Edge>)
    requires Sorted(es) && es != [] && Order(e, es[0]) <= 0
    ensures forall i :: 0 <= i < |es| ==> Order(e, es[i]) <= 0
  {
    hide Order;
    forall i | 0 < i < |es| ensures Order(e, es[i]) <= 0 { OrderChain(e, es[0], es[i]); }
  }

  lemma {:induction false} InsertSorted(t: Bytes, r: Record, recs: seq<Record>)
    requires RecordsOk(t, recs) && r.spec < |t| && Sorted(EdgesOf(t, recs))
    ensures Sorted(EdgesOf(t, Insert(t, r, recs)))
  {
    hide Order, EdgeOf, EdgesOf;
    var e := EdgeOf(t, r);
    var es := EdgesOf(t, recs);
    if recs == [] {
      assert EdgesOf(t, [r]) == [e];
    } else if Order(e, es[0]) <= 0 {
      HeadBelow(e, es);
      ConsSorted(e, es);
      assert EdgesOf(t, [r] + recs) == [e] + es;
    } else {
      var rest := Insert(t, r, recs[1..]);
      assert es[1..] == EdgesOf(t, recs[1..]);
      InsertSorted(t, r, recs[1..]);
      OrderTotal(e, es[0]);
      forall i | 0 <= i < |rest| ensures Order(es[0], EdgeOf(t, rest[i])) <= 0 { InsertMember(t, r, recs[1..], i); }
      ConsSorted(es[0], EdgesOf(t, rest));
      assert EdgesOf(t, [recs[0]] + rest) == [es[0]] + EdgesOf(t, rest);
    }
  }

  lemma InsertMember(t: Bytes, r: Record, recs: seq<Record>, i: nat)
    requires RecordsOk(t, recs) && r.spec < |t| && i < |Insert(t, r, recs)|
    ensures Insert(t, r, recs)[i] == r || exists j :: 0 <= j < |recs| && recs[j] == Insert(t, r, recs)[i]
  {
    hide Order, EdgeOf;
    var out := Insert(t, r, recs);
    assert out[i] in multiset(out);
  }

  /** The standard sort: any sorted permutation would do for what follows. */
  method Sort(t: Bytes, recs: seq<Record>) returns (out: seq<Record>)
    requires RecordsOk(t, recs)
    ensures RecordsOk(t, out) && Sorted(EdgesOf(t, out)) && multiset(out) == multiset(recs)
  {
    hide Order, EdgeOf, Insert;
    out := [];
    var i := 0;
    while i < |recs|
      invariant i <= |recs| && RecordsOk(t, out) && Sorted(EdgesOf(t, out)) && multiset(out) == multiset(recs[..i])
    {
      InsertSorted(t, recs[i], out);
      out := Insert(t, recs[i], out);
      assert recs[..i + 1] == recs[..i] + [recs[i]];
      i := i + 1;
    }
    assert recs[..i] == recs;
  }

  // ---- finding an edge ----

  ghost predicate Matches(e: Edge, parent: nat, spec: Bytes) {
    e.parent == parent && e.spec == spec
  }

  /** What a linear scan of the edges, in any order, would accept as the answer. */
  ghost predicate Answers(es: seq<Edge>, parent: nat, spec: Bytes, require: bool, r: Option<Edge>) {
    match r
    case Some(e) =>
      && e in es && Matches(e, parent, spec)
      && (e.require != require ==> forall f :: f in es && Matches(f, parent, spec) ==> f.require != require)
    case None => forall f :: f in es ==> !Matches(f, parent, spec)
  }

  /** The position of the first edge not below the pair. */
  method LowerBound(t: Bytes, recs: seq<Record>, parent: nat, spec: Bytes) returns (lo: nat)
    requires RecordsOk(t, recs) && Sorted(EdgesOf(t, recs))
    ensures lo <= |recs|
    ensures forall i :: 0 <= i < lo ==> Against(EdgesOf(t, recs)[i], parent, spec) < 0
    ensures forall i :: lo <= i < |recs| ==> Against(EdgesOf(t, recs)[i], parent, spec) >= 0
  {
    hide Against, Order, EdgeOf, EdgesOf;
    ghost var es := EdgesOf(t, recs);
    lo := 0;
    var hi := |recs|;
    while lo < hi
      invariant 0 <= lo <= hi <= |recs|
      invariant forall i :: 0 <= i < lo ==> Against(es[i], parent, spec) < 0
      invariant forall i :: hi <= i < |recs| ==> Against(es[i], parent, spec) >= 0
    {
      var mid := lo + (hi - lo) / 2;
      var c := Against(EdgeOf(t, recs[mid]), parent, spec);
      if c < 0 {
        forall i | 0 <= i < mid + 1 ensures Against(es[i], parent, spec) < 0 {
          if i < mid { AgainstMonotone(es[i], es[mid], parent, spec); }
        }
        lo := mid + 1;
      } else {
        forall i | mid <= i < |recs| ensures Against(es[i], parent, spec) >= 0 {
          if i > mid { AgainstMonotone(es[mid], es[i], parent, spec); }
        }
        hi := mid;
      }
    }
  }

  lemma MatchIsZero(e: Edge, parent: nat, spec: Bytes)
    ensures Matches(e, parent, spec) <==> Against(e, parent, spec) == 0
  {
    CompareEqual(e.spec, spec);
  }

  /** Past the first edge that is not a match there are no more. */
  lemma MatchesEnd(es: seq<Edge>, lo: nat, i: nat, parent: nat, spec: Bytes)
    requires Sorted(es) && lo <= i < |es| && !Matches(es[i], parent, spec)
    requires forall j :: lo <= j < |es| ==> Against(es[j], parent, spec) >= 0
    ensures forall j :: i <= j < |es| ==> !Matches(es[j], parent, spec)
  {
    hide Against, Order, Matches;
    forall j | i <= j < |es| ensures !Matches(es[j], parent, spec) {
      MatchIsZero(es[i], parent, spec);
      MatchIsZero(es[j], parent, spec);
      if j > i { AgainstMonotone(es[i], es[j], parent, spec); }
    }
  }

  lemma NoMatchBelow(es: seq<Edge>, lo: nat, parent: nat, spec: Bytes)
    requires lo <= |es| && forall j :: 0 <= j < lo ==> Against(es[j], parent, spec) < 0
    ensures forall j :: 0 <= j < lo ==> !Matches(es[j], parent, spec)
  {
    forall j | 0 <= j < lo ensures !Matches(es[j], parent, spec) { MatchIsZero(es[j], parent, spec); }
  }

  /** The answer as a position. */
  ghost predicate AnswersAt(es: seq<Edge>, parent: nat, spec: Bytes, require: bool, r: Option<nat>) {
    && (r.Some? ==> r.value < |es| && Matches(es[r.value], parent, spec))
    && (r.None? ==> forall j :: 0 <= j < |es| ==> !Matches(es[j], parent, spec))
    && (r.Some? && es[r.value].require != require ==>
          forall j :: 0 <= j < |es| && Matches(es[j], parent, spec) ==> es[j].require != require)
  }

  lemma AnswersMember(es: seq<Edge>, parent: nat, spec: Bytes, require: bool, r: Option<nat>)
    requires AnswersAt(es, parent, spec, require, r)
    ensures r.Some? ==> r.value < |es|
    ensures Answers(es, parent, spec, require, if r.Some? then Some(es[r.value]) else None)
  {
  }

  /** ant_bundle_resolve up to its fallback: the stored edge that answers, if any. */
  method FindEdge(t: Bytes, recs: seq<Record>, parent: nat, spec: Bytes, require: bool) returns (r: Option<nat>)
    requires RecordsOk(t, recs) && Sorted(EdgesOf(t, recs))
    ensures AnswersAt(EdgesOf(t, recs), parent, spec, require, r)
  {
    hide Against, Order, StringAt, Sorted, EdgesOf;
    ghost var es := EdgesOf(t, recs);
    var lo := LowerBound(t, recs, parent, spec);
    NoMatchBelow(es, lo, parent, spec);
    r := None;
    var i := lo;
    while i < |recs|
      invariant lo <= i <= |recs|
      invariant forall j :: lo <= j < i ==> es[j].require != require
      invariant r == if i == lo then None else Some(i - 1)
      invariant i > lo ==> Matches(es[i - 1], parent, spec)
    {
      var e := recs[i];
      assert es[i] == EdgeOf(t, e);
      if e.parent != parent || StringAt(t, e.spec) != spec {
        MatchesEnd(es, lo, i, parent, spec);
        return;
      }
      if (e.flags % 2 == 1) == require { return Some(i); }
      r := Some(i);
      i := i + 1;
    }
  }
}
