/** The set of files to watch: the entry file and everything it imports, found by one growing list. */
module WatchGraph {
  import opened Basics

  type Path = Bytes

  /** What each readable source file imports, already resolved; other files import nothing. */
  type Imports = map<Path, seq<Path>>

  function Deps(imports: Imports, p: Path): seq<Path> {
    if p in imports then imports[p] else []
  }

  /** p can be reached from the entry by n imports. */
  ghost predicate ReachedIn(imports: Imports, entry: Path, p: Path, n: nat)
    decreases n
  {
    if n == 0 then p == entry else exists q :: ReachedIn(imports, entry, q, n - 1) && p in Deps(imports, q)
  }

  ghost predicate Reached(imports: Imports, entry: Path, p: Path) {
    exists n: nat :: ReachedIn(imports, entry, p, n)
  }

  /** No file twice, and every file reachable. */
  ghost predicate Good(imports: Imports, entry: Path, list: seq<Path>) {
    && Distinct(list)
    && forall i :: 0 <= i < |list| ==> Reached(imports, entry, list[i]) && list[i] in Universe(imports, entry)
  }

  /** Everything the first n files import is in the list. */
  ghost predicate Scanned(imports: Imports, list: seq<Path>, n: nat)
    requires n <= |list|
  {
    forall i, p :: 0 <= i < n && p in Deps(imports, list[i]) ==> p in list
  }

  ghost function Universe(imports: Imports, entry: Path): set<Path> {
    {entry} + set q, p | q in imports && p in imports[q] :: p
  }

  lemma ReachedStep(imports: Imports, entry: Path, q: Path, p: Path)
    requires Reached(imports, entry, q) && p in Deps(imports, q)
    ensures Reached(imports, entry, p)
  {
    var n: nat :| ReachedIn(imports, entry, q, n);
    assert ReachedIn(imports, entry, p, n + 1);
  }

  /** A list that holds the entry and the imports of all its files holds everything reachable. */
  lemma {:induction false} ClosedHoldsAll(imports: Imports, entry: Path, list: seq<Path>, p: Path, n: nat)
    requires entry in list && Scanned(imports, list, |list|) && ReachedIn(imports, entry, p, n)
    ensures p in list
    decreases n
  {
    if n > 0 {
      var q :| ReachedIn(imports, entry, q, n - 1) && p in Deps(imports, q);
      ClosedHoldsAll(imports, entry, list, q, n - 1);
      var i :| 0 <= i < |list| && list[i] == q;
    }
  }

  lemma {:induction false} DistinctFits(list: seq<Path>, all: set<Path>)
    requires Distinct(list) && forall i :: 0 <= i < |list| ==> list[i] in all
    ensures |list| <= |all|
  {
    if list != [] {
      var n := |list| - 1;
      DistinctFits(list[..n], all - {list[n]});
    }
  }

  /** watch_path_list_push_owned */
  method Push(list: seq<Path>, p: Path) returns (out: seq<Path>)
    requires Distinct(list)
    ensures Distinct(out) && out == if p in list then list else list + [p]
  {
    var i := 0;
    while i < |list|
      invariant i <= |list| && p !in list[..i]
    {
      if list[i] == p { return list; }
      assert list[..i + 1] == list[..i] + [list[i]];
      i := i + 1;
    }
    assert list[..i] == list;
    return list + [p];
  }

  lemma GoodPush(imports: Imports, entry: Path, list: seq<Path>, p: Path)
    requires Good(imports, entry, list) && p !in list && Reached(imports, entry, p) && p in Universe(imports, entry)
    ensures Good(imports, entry, list + [p])
  {
    hide Reached, Universe;
  }

  /** A reachable file's imports are reachable, and there are only finitely many files. */
  lemma DepGood(imports: Imports, entry: Path, list: seq<Path>, i: nat, k: nat)
    requires Good(imports, entry, list) && i < |list| && k < |Deps(imports, list[i])|
    ensures Reached(imports, entry, Deps(imports, list[i])[k]) && Deps(imports, list[i])[k] in Universe(imports, entry)
  {
    var q := list[i];
    ReachedStep(imports, entry, q, Deps(imports, q)[k]);
    assert q in imports && imports[q][k] in imports[q];
  }

  /** watch_build_graph: the list grows while it is walked, and stops at exactly the reachable files. */
  method BuildGraph(imports: Imports, entry: Path) returns (paths: seq<Path>)
    ensures paths != [] && paths[0] == entry && Distinct(paths)
    ensures forall p :: p in paths <==> Reached(imports, entry, p)
  {
    paths := Push([], entry);
    ghost var all := Universe(imports, entry);
    assert ReachedIn(imports, entry, entry, 0);
    assert Good(imports, entry, paths);
    var i := 0;
    while i < |paths|
      invariant 0 <= i <= |paths| && paths != [] && paths[0] == entry
      invariant Good(imports, entry, paths) && Scanned(imports, paths, i)
      decreases |all| - i
    {
      DistinctFits(paths, all);
      paths := ScanFile(imports, entry, paths, i);
      i := i + 1;
    }
    forall p ensures p in paths <==> Reached(imports, entry, p) {
      if Reached(imports, entry, p) {
        var n: nat :| ReachedIn(imports, entry, p, n);
        ClosedHoldsAll(imports, entry, paths, p, n);
      }
    }
  }

  /** watch_scan_module_file: the imports of one file are pushed in turn. */
  method ScanFile(imports: Imports, ghost entry: Path, list: seq<Path>, i: nat) returns (out: seq<Path>)
    requires i < |list| && Good(imports, entry, list) && Scanned(imports, list, i)
    ensures list <= out && Good(imports, entry, out) && Scanned(imports, out, i + 1)
  {
    hide Good, Scanned, Reached, Deps, AllIn, Distinct;
    var deps := Deps(imports, list[i]);
    out := list;
    GoodDistinct(imports, entry, list);
    AllInNone(deps, out);
    var k := 0;
    while k < |deps|
      invariant k <= |deps| && list <= out && Distinct(out) && Good(imports, entry, out) && AllIn(deps, k, out)
    {
      DepGood(imports, entry, list, i, k);
      if deps[k] !in out { GoodPush(imports, entry, out, deps[k]); }
      AllInPush(deps, k, out);
      out := Push(out, deps[k]);
      k := k + 1;
    }
    ScannedOne(imports, list, out, i);
  }

  ghost predicate AllIn(deps: seq<Path>, k: nat, list: seq<Path>)
    requires k <= |deps|
  {
    forall j :: 0 <= j < k ==> deps[j] in list
  }

  lemma AllInNone(deps: seq<Path>, list: seq<Path>)
    ensures AllIn(deps, 0, list)
  {
  }

  lemma AllInPush(deps: seq<Path>, k: nat, list: seq<Path>)
    requires k < |deps| && AllIn(deps, k, list)
    ensures AllIn(deps, k + 1, if deps[k] in list then list else list + [deps[k]])
  {
  }

  lemma GoodDistinct(imports: Imports, entry: Path, list: seq<Path>)
    requires Good(imports, entry, list)
    ensures Distinct(list)
  {
  }

  lemma ScannedOne(imports: Imports, list: seq<Path>, out: seq<Path>, i: nat)
    requires i < |list| && list <= out && Scanned(imports, list, i)
    requires AllIn(Deps(imports, list[i]), |Deps(imports, list[i])|, out)
    ensures Scanned(imports, out, i + 1)
  {
    forall j, p | 0 <= j < i + 1 && p in Deps(imports, out[j]) ensures p in out {
      assert out[j] == list[j];
      if j < i {
        assert p in list;
        var k :| 0 <= k < |list| && list[k] == p;
        assert out[k] == p;
      } else {
        var k :| 0 <= k < |Deps(imports, list[i])| && Deps(imports, list[i])[k] == p;
      }
    }
  }
}
