/**
 The open-addressing hash index that every hidden class of a family shares.

 A cell is empty (key 0), a tombstone (key 2^64-1) or an entry.  Probing starts at
 the key's home cell and walks forward cyclically; the hash function is arbitrary.
 */
module ShapeIndex {
  import opened Basics

  type Key = k: int | 0 <= k < 0x1_0000_0000_0000_0000
  const EMPTY: Key := 0
  const TOMB: Key := 0xFFFF_FFFF_FFFF_FFFF
  const MIN_CAP: nat := 8

  datatype Cell = Cell(key: Key, slot: nat)

  predicate IsKey(k: Key) {
    k != EMPTY && k != TOMB
  }

  function Home(hash: Key -> nat, k: Key, n: nat): (h: nat)
    requires n > 0
    ensures h < n
  {
    hash(k) % n
  }

  /** Position p lies on the cyclic walk that starts at `from` and stops before `to`. */
  predicate OnWalk(from: nat, p: nat, to: nat) {
    if from <= to then from <= p < to else p >= from || p < to
  }

  /** No empty cell separates an entry from its home, so a probe for its key meets it. */
  predicate Reachable(hash: Key -> nat, tab: seq<Cell>, c: nat)
    requires c < |tab|
  {
    forall p :: 0 <= p < |tab| && OnWalk(Home(hash, tab[c].key, |tab|), p, c) ==> tab[p].key != EMPTY
  }

  ghost predicate TableOk(hash: Key -> nat, tab: seq<Cell>) {
    && |tab| > 0
    && (forall c :: 0 <= c < |tab| && IsKey(tab[c].key) ==> Reachable(hash, tab, c))
    && (forall c, c' :: 0 <= c < c' < |tab| && IsKey(tab[c].key) ==> tab[c].key != tab[c'].key)
  }

  /** The index maps k to this slot. */
  ghost predicate Maps(tab: seq<Cell>, k: Key, slot: nat) {
    exists c :: 0 <= c < |tab| && tab[c] == Cell(k, slot)
  }

  ghost predicate Absent(tab: seq<Cell>, k: Key) {
    forall c :: 0 <= c < |tab| ==> tab[c].key != k
  }

  function Used(tab: seq<Cell>): (n: nat)
    ensures n <= |tab|
  {
    if tab == [] then 0 else Used(tab[..|tab| - 1]) + if tab[|tab| - 1].key == EMPTY then 0 else 1
  }

  function Entries(tab: seq<Cell>): (n: nat)
    ensures n <= |tab|
  {
    if tab == [] then 0 else Entries(tab[..|tab| - 1]) + if IsKey(tab[|tab| - 1].key) then 1 else 0
  }

  lemma {:induction false} UsedUpdate(tab: seq<Cell>, c: nat, x: Cell)
    requires c < |tab|
    ensures Used(tab[c := x]) == Used(tab) - (if tab[c].key == EMPTY then 0 else 1) + (if x.key == EMPTY then 0 else 1)
  {
    var n := |tab| - 1;
    if c == n {
      assert tab[c := x][..n] == tab[..n];
    } else {
      assert tab[c := x][..n] == tab[..n][c := x];
      UsedUpdate(tab[..n], c, x);
    }
  }

  lemma {:induction false} EntriesUpdate(tab: seq<Cell>, c: nat, x: Cell)
    requires c < |tab|
    ensures Entries(tab[c := x])
            == Entries(tab) - (if IsKey(tab[c].key) then 1 else 0) + (if IsKey(x.key) then 1 else 0)
  {
    var n := |tab| - 1;
    if c == n {
      assert tab[c := x][..n] == tab[..n];
    } else {
      assert tab[c := x][..n] == tab[..n][c := x];
      EntriesUpdate(tab[..n], c, x);
    }
  }

  /** A table that is not full has an empty cell, so every probe stops. */
  lemma {:induction false} SomeEmpty(tab: seq<Cell>) returns (e: nat)
    requires Used(tab) < |tab|
    ensures e < |tab| && tab[e].key == EMPTY
  {
    var n := |tab| - 1;
    if tab[n].key == EMPTY {
      e := n;
    } else {
      e := SomeEmpty(tab[..n]);
    }
  }

  function Next(i: nat, n: nat): (j: nat)
    requires i < n
    ensures j == if i + 1 == n then 0 else i + 1
  {
    (i + 1) % n
  }

  /** Cells walked from `from` to `to`. */
  function Distance(from: nat, to: nat, n: nat): (d: int) {
    if from <= to then to - from else to + n - from
  }

  /** shape_lookup's probe: the cell holding k, or none, for every table that is not full. */
  method Probe(hash: Key -> nat, tab: seq<Cell>, k: Key) returns (found: bool, at: nat)
    requires TableOk(hash, tab) && Used(tab) < |tab| && IsKey(k)
    ensures found ==> at < |tab| && tab[at].key == k
    ensures !found ==> Absent(tab, k)
  {
    ghost var e := SomeEmpty(tab);
    var i: nat := Home(hash, k, |tab|);
    ghost var home: nat := i;
    while true
      invariant i < |tab|
      invariant Distance(home, i, |tab|) + Distance(i, e, |tab|) == Distance(home, e, |tab|)
      invariant forall p :: 0 <= p < |tab| && OnWalk(home, p, i) ==> tab[p].key != k && tab[p].key != EMPTY
      decreases Distance(i, e, |tab|)
    {
      if tab[i].key == k { return true, i; }
      if tab[i].key == EMPTY {
        MissIsAbsent(hash, tab, k, i);
        return false, 0;
      }
      i := Next(i, |tab|);
    }
  }

  lemma MissIsAbsent(hash: Key -> nat, tab: seq<Cell>, k: Key, i: nat)
    requires TableOk(hash, tab) && IsKey(k) && i < |tab| && tab[i].key == EMPTY
    requires forall p :: 0 <= p < |tab| && OnWalk(Home(hash, k, |tab|), p, i) ==> tab[p].key != k
    ensures Absent(tab, k)
  {
    forall c | 0 <= c < |tab| ensures tab[c].key != k {
      assert IsKey(tab[c].key) ==> Reachable(hash, tab, c);
    }
  }

  /** shape_index_put: claims the first empty or tombstone cell of the walk. */
  method Put(hash: Key -> nat, tab: seq<Cell>, k: Key, slot: nat) returns (t: seq<Cell>, ghost at: nat)
    requires TableOk(hash, tab) && Used(tab) < |tab|
    requires IsKey(k) && Absent(tab, k)
    ensures at < |tab| && !IsKey(tab[at].key) && t == tab[at := Cell(k, slot)]
    ensures TableOk(hash, t)
    ensures Used(t) <= Used(tab) + 1 && Entries(t) == Entries(tab) + 1
  {
    ghost var e := SomeEmpty(tab);
    var i: nat := Home(hash, k, |tab|);
    ghost var home: nat := i;
    while tab[i].key != EMPTY && tab[i].key != TOMB
      invariant i < |tab|
      invariant Distance(home, i, |tab|) + Distance(i, e, |tab|) == Distance(home, e, |tab|)
      invariant forall p :: 0 <= p < |tab| && OnWalk(home, p, i) ==> tab[p].key != EMPTY
      decreases Distance(i, e, |tab|)
    {
      i := Next(i, |tab|);
    }
    PlaceOk(hash, tab, i, Cell(k, slot));
    UsedUpdate(tab, i, Cell(k, slot));
    EntriesUpdate(tab, i, Cell(k, slot));
    t, at := tab[i := Cell(k, slot)], i;
  }

  lemma PlaceOk(hash: Key -> nat, tab: seq<Cell>, i: nat, x: Cell)
    requires TableOk(hash, tab) && i < |tab| && !IsKey(tab[i].key)
    requires IsKey(x.key) && Absent(tab, x.key)
    requires forall p :: 0 <= p < |tab| && OnWalk(Home(hash, x.key, |tab|), p, i) ==> tab[p].key != EMPTY
    ensures TableOk(hash, tab[i := x])
  {
    var t := tab[i := x];
    forall c | 0 <= c < |t| && IsKey(t[c].key) ensures Reachable(hash, t, c) {
      if c != i {
        assert Reachable(hash, tab, c);
      }
    }
  }

  /** Turning an entry into a tombstone removes its key and keeps every other entry reachable. */
  lemma TombOk(hash: Key -> nat, tab: seq<Cell>, i: nat, slot: nat)
    requires TableOk(hash, tab) && i < |tab| && IsKey(tab[i].key)
    ensures TableOk(hash, tab[i := Cell(TOMB, slot)]) && Absent(tab[i := Cell(TOMB, slot)], tab[i].key)
  {
    var t := tab[i := Cell(TOMB, slot)];
    forall c | 0 <= c < |t| && IsKey(t[c].key) ensures Reachable(hash, t, c) {
      assert Reachable(hash, tab, c);
    }
  }

  /**
   shape_index_capacity: a power of two that `needed` entries fill to less than half.
   Masking with `cap - 1` is reduction modulo `cap`.
   */
  method Capacity(needed: nat) returns (cap: nat)
    ensures cap > 2 * needed && cap >= MIN_CAP && PowerOfTwo(cap)
  {
    cap := MIN_CAP;
    while cap <= needed * 2
      invariant cap >= MIN_CAP && PowerOfTwo(cap)
      decreases needed * 2 - cap
    {
      cap := cap * 2;
    }
  }
}
