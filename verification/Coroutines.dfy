/**
 Coroutine lifetimes: reference counts, hold bits and the chain of active coroutines,
 newest first, through any nesting of resumptions.
 */
module Coroutines {
  import opened Basics

  datatype Hold = Active | Generator | Await

  /** A coroutine record; `frames` is the frame count of its saved activation, 0 without one. */
  datatype Coro = Coro(
    refcount: nat,
    holds: set<Hold>,
    parent: Option<nat>,
    prev: Option<nat>,
    frames: nat,
    awaiting: bool)

  type Heap = map<nat, Coro>

  // ---- the chain ----

  function At(chain: seq<nat>, i: int): Option<nat> {
    if 0 <= i < |chain| then Some(chain[i]) else None
  }

  /** The links of the coroutine at position i of the chain lead to its neighbours. */
  ghost predicate LinkedAt(heap: Heap, chain: seq<nat>, i: int)
    requires 0 <= i < |chain|
  {
    && chain[i] in heap
    && heap[chain[i]].parent == At(chain, i + 1)
    && heap[chain[i]].prev == At(chain, i - 1)
  }

  ghost predicate ChainOk(heap: Heap, active: Option<nat>, chain: seq<nat>) {
    && Distinct(chain) && active == At(chain, 0)
    && (forall i :: 0 <= i < |chain| ==> LinkedAt(heap, chain, i))
    && (forall c :: c in heap && c !in chain ==> heap[c].parent.None? && heap[c].prev.None?)
  }

  /** On the chain exactly while the hold for it is set. */
  ghost predicate HoldOk(r: Coro, onChain: bool) {
    (onChain <==> Active in r.holds) && (r.awaiting <==> Await in r.holds)
  }

  ghost predicate HoldsOk(heap: Heap, chain: seq<nat>) {
    forall c :: c in heap ==> HoldOk(heap[c], c in chain)
  }

  /** The count is the outstanding retains plus the holds. */
  ghost predicate CountOk(r: Coro, retains: nat) {
    r.refcount == retains + |r.holds|
  }

  /** A coroutine with neither is gone. */
  ghost predicate CountsOk(heap: Heap, retains: multiset<nat>) {
    && (forall c :: c in heap ==> CountOk(heap[c], retains[c]) && heap[c].refcount > 0)
    && (forall c :: c in retains ==> c in heap)
  }

  /** What coroutine_activate does to the links. */
  function Linked(heap: Heap, active: Option<nat>, c: nat): Heap
    requires c in heap && (active.Some? ==> active.value in heap)
  {
    var h := heap[c := heap[c].(parent := active, prev := None)];
    if active.Some? then h[active.value := h[active.value].(prev := Some(c))] else h
  }

  lemma LinkOk(heap: Heap, active: Option<nat>, chain: seq<nat>, c: nat)
    requires ChainOk(heap, active, chain) && c in heap && c !in chain && (active.Some? ==> active.value in heap)
    ensures ChainOk(Linked(heap, active, c), Some(c), [c] + chain)
  {
    var h, more := Linked(heap, active, c), [c] + chain;
    forall i | 0 <= i < |more| ensures LinkedAt(h, more, i) {
      if i > 0 {
        assert LinkedAt(heap, chain, i - 1);
        assert more[i] == chain[i - 1];
      }
    }
    forall d | d in h && d !in more ensures h[d].parent.None? && h[d].prev.None? {
      assert d != c by { assert more[0] == c; }
    }
  }

  /** coroutine_activate does not look whether c is on the chain already; only off it do the links still form one. */
  lemma ActivateExact(heap: Heap, active: Option<nat>, chain: seq<nat>, c: nat)
    requires ChainOk(heap, active, chain) && c in heap && (active.Some? ==> active.value in heap)
    ensures (exists after :: ChainOk(Linked(heap, active, c), Some(c), after)) <==> c !in chain
  {
    if c !in chain {
      LinkOk(heap, active, chain, c);
    } else {
      forall after ensures !ChainOk(Linked(heap, active, c), Some(c), after) {
        LinkedTwice(heap, active, chain, c, after);
      }
    }
  }

  /** c is at the head, and something else still leads to it. */
  lemma LinkedTwice(heap: Heap, active: Option<nat>, chain: seq<nat>, c: nat, after: seq<nat>)
    requires ChainOk(heap, active, chain) && c in chain && c in heap && (active.Some? ==> active.value in heap)
    ensures !ChainOk(Linked(heap, active, c), Some(c), after)
  {
    var h := Linked(heap, active, c);
    var i :| 0 <= i < |chain| && chain[i] == c;
    if after != [] && after[0] == c {
      if i == 0 {
        assert !LinkedAt(h, after, 0);
      } else {
        var p := chain[i - 1];
        assert LinkedAt(heap, chain, i - 1) && h[p].parent == Some(c);
        assert forall j :: 0 <= j < |after| && after[j] == p && LinkedAt(h, after, j) ==> At(after, j + 1) == Some(c);
      }
    }
  }

  /** What coroutine_deactivate does to the links. */
  function Unlinked(heap: Heap, c: nat): Heap
    requires c in heap && (heap[c].prev.Some? ==> heap[c].prev.value in heap)
             && (heap[c].parent.Some? ==> heap[c].parent.value in heap)
  {
    var (prev, parent) := (heap[c].prev, heap[c].parent);
    var h := if prev.Some? then heap[prev.value := heap[prev.value].(parent := parent)] else heap;
    var g := if parent.Some? then h[parent.value := h[parent.value].(prev := prev)] else h;
    g[c := g[c].(parent := None, prev := None)]
  }

  lemma UnlinkOk(heap: Heap, active: Option<nat>, chain: seq<nat>, i: nat)
    requires ChainOk(heap, active, chain) && i < |chain|
    ensures var c := chain[i];
            && c in heap && (heap[c].prev.Some? ==> heap[c].prev.value in heap)
               && (heap[c].parent.Some? ==> heap[c].parent.value in heap)
            && ChainOk(Unlinked(heap, c), if heap[c].prev.None? then heap[c].parent else active, Without(chain, i))
  {
    var c := chain[i];
    assert LinkedAt(heap, chain, i);
    if i > 0 { assert LinkedAt(heap, chain, i - 1); }
    if i + 1 < |chain| { assert LinkedAt(heap, chain, i + 1); }
    var g, less := Unlinked(heap, c), Without(chain, i);
    forall j | 0 <= j < |less| ensures LinkedAt(g, less, j) {
      var k := if j < i then j else j + 1;
      assert less[j] == chain[k] && LinkedAt(heap, chain, k);
    }
    forall d | d in g && d !in less ensures g[d].parent.None? && g[d].prev.None? {
      if d != c { NotElsewhere(chain, i, d); }
    }
  }

  lemma NotElsewhere(chain: seq<nat>, i: nat, d: nat)
    requires i < |chain| && d !in Without(chain, i) && d != chain[i]
    ensures d !in chain
  {
    forall j | 0 <= j < |chain| && j != i ensures chain[j] in Without(chain, i) {
      assert Without(chain, i)[if j < i then j else j - 1] == chain[j];
    }
  }

  // ---- counts and holds ----

  ghost predicate Good(heap: Heap, active: Option<nat>, chain: seq<nat>, retains: multiset<nat>) {
    ChainOk(heap, active, chain) && HoldsOk(heap, chain) && CountsOk(heap, retains)
  }

  /** A record updated, or freed with its last reference. */
  function Put(heap: Heap, c: nat, r: Coro): Heap {
    if r.refcount == 0 then heap - {c} else heap[c := r]
  }

  /** coroutine_hold */
  function Held(r: Coro, h: Hold): Coro {
    if h in r.holds then r else r.(holds := r.holds + {h}, refcount := r.refcount + 1)
  }

  /** coroutine_unhold */
  function Unheld(r: Coro, h: Hold): Coro
    requires h in r.holds ==> r.refcount > 0
  {
    if h !in r.holds then r else r.(holds := r.holds - {h}, refcount := r.refcount - 1)
  }

  lemma HeldCount(r: Coro, h: Hold, n: nat)
    requires CountOk(r, n)
    ensures CountOk(Held(r, h), n)
  {
  }

  lemma UnheldCount(r: Coro, h: Hold, n: nat)
    requires CountOk(r, n)
    ensures h in r.holds ==> r.refcount > 0
    ensures CountOk(Unheld(r, h), n)
    ensures r.refcount > 0 ==> (Unheld(r, h).refcount == 0 <==> r.holds == {h} && n == 0)
  {
    if h in r.holds {
      var left := r.holds - {h};
      assert r.holds == left + {h} && |r.holds| == |left| + 1;
      assert |left| == 0 <==> left == {};
    }
  }

  /** Nothing but the links of a heap matters to its chain. */
  lemma ChainFrame(heap: Heap, after: Heap, active: Option<nat>, chain: seq<nat>)
    requires ChainOk(heap, active, chain)
    requires forall c :: c in heap && c !in after ==> c !in chain
    requires forall c :: c in after ==> c in heap && after[c].parent == heap[c].parent && after[c].prev == heap[c].prev
    ensures ChainOk(after, active, chain)
  {
    forall i | 0 <= i < |chain| ensures LinkedAt(after, chain, i) {
      assert LinkedAt(heap, chain, i) && chain[i] in chain;
    }
  }

  ghost predicate HoldsOkBut(heap: Heap, chain: seq<nat>, c: nat) {
    forall d :: d in heap && d != c ==> HoldOk(heap[d], d in chain)
  }

  lemma NoHoldsLeft(r: Coro, onChain: bool)
    requires HoldOk(r, onChain) && |r.holds| == 0
    ensures !onChain
  {
  }

  /** One record replaced by one that is in order: everything is in order again. */
  lemma PutOk(heap: Heap, active: Option<nat>, chain: seq<nat>, before: multiset<nat>, after: multiset<nat>, c: nat,
              r: Coro)
    requires ChainOk(heap, active, chain) && HoldsOkBut(heap, chain, c) && CountsOk(heap, before) && c in heap
    requires r.parent == heap[c].parent && r.prev == heap[c].prev && HoldOk(r, c in chain) && CountOk(r, after[c])
    requires forall d :: d != c ==> after[d] == before[d]
    ensures Good(Put(heap, c, r), active, chain, after) && (c in after ==> c in Put(heap, c, r))
  {
    var h := Put(heap, c, r);
    if r.refcount == 0 { NoHoldsLeft(r, c in chain); }
    hide HoldOk, CountOk;
    ChainFrame(heap, h, active, chain);
    hide ChainOk;
    assert c in after ==> c in h by {
      if c in after { CountPositive(r, after[c]); }
    }
  }

  lemma CountPositive(r: Coro, n: nat)
    requires CountOk(r, n) && n > 0
    ensures r.refcount > 0
  {
  }

  ghost predicate SameButLinks(heap: Heap, after: Heap) {
    && (forall c :: c in heap <==> c in after)
    && (forall c :: c in heap && c in after ==>
          after[c].holds == heap[c].holds && after[c].awaiting == heap[c].awaiting
          && after[c].refcount == heap[c].refcount && after[c].frames == heap[c].frames)
  }

  lemma SameCounts(heap: Heap, after: Heap, retains: multiset<nat>)
    requires SameButLinks(heap, after) && CountsOk(heap, retains)
    ensures CountsOk(after, retains)
  {
  }

  lemma SameHolds(heap: Heap, after: Heap, chain: seq<nat>, other: seq<nat>, c: nat)
    requires SameButLinks(heap, after) && HoldsOk(heap, chain)
    requires forall d :: d != c ==> (d in other <==> d in chain)
    ensures HoldsOkBut(after, other, c)
  {
    forall d | d in after && d != c ensures HoldOk(after[d], d in other) { assert HoldOk(heap[d], d in chain); }
  }

  // ---- what each operation keeps ----

  lemma RetainOk(heap: Heap, active: Option<nat>, chain: seq<nat>, retains: multiset<nat>, c: nat)
    requires Good(heap, active, chain, retains) && c in heap
    ensures Good(heap[c := heap[c].(refcount := heap[c].refcount + 1)], active, chain, retains + multiset{c})
  {
    assert HoldOk(heap[c], c in chain);
    PutOk(heap, active, chain, retains, retains + multiset{c}, c, heap[c].(refcount := heap[c].refcount + 1));
  }

  lemma FramesOk(heap: Heap, active: Option<nat>, chain: seq<nat>, retains: multiset<nat>, c: nat, frames: nat)
    requires Good(heap, active, chain, retains) && c in heap
    ensures Good(heap[c := heap[c].(frames := frames)], active, chain, retains)
  {
    assert HoldOk(heap[c], c in chain) && CountOk(heap[c], retains[c]);
    PutOk(heap, active, chain, retains, retains, c, heap[c].(frames := frames));
  }

  /** sv_async_init_activation: a record with one reference, its creator's. */
  lemma NewOk(heap: Heap, active: Option<nat>, chain: seq<nat>, retains: multiset<nat>, c: nat)
    requires Good(heap, active, chain, retains) && c !in heap
    ensures Good(heap[c := Coro(1, {}, None, None, 0, false)], active, chain, retains + multiset{c})
  {
    var h := heap[c := Coro(1, {}, None, None, 0, false)];
    assert c !in chain && retains[c] == 0 by {
      forall i | 0 <= i < |chain| ensures chain[i] != c { assert LinkedAt(heap, chain, i); }
      assert c !in retains;
    }
    forall i | 0 <= i < |chain| ensures LinkedAt(h, chain, i) { assert LinkedAt(heap, chain, i); }
  }

  lemma ReleaseOk(heap: Heap, active: Option<nat>, chain: seq<nat>, retains: multiset<nat>, c: nat)
    requires Good(heap, active, chain, retains) && c in retains
    ensures c in heap && heap[c].refcount > 0
    ensures Good(Put(heap, c, heap[c].(refcount := heap[c].refcount - 1)), active, chain, retains - multiset{c})
    ensures heap[c].refcount == 1 <==> retains[c] == 1 && heap[c].holds == {}
  {
    assert HoldOk(heap[c], c in chain) && CountOk(heap[c], retains[c]);
    assert |heap[c].holds| == 0 <==> heap[c].holds == {};
    PutOk(heap, active, chain, retains, retains - multiset{c}, c, heap[c].(refcount := heap[c].refcount - 1));
  }

  lemma HoldGeneratorOk(heap: Heap, active: Option<nat>, chain: seq<nat>, retains: multiset<nat>, c: nat)
    requires Good(heap, active, chain, retains) && c in heap
    ensures Good(Put(heap, c, Held(heap[c], Generator)), active, chain, retains)
  {
    assert HoldOk(heap[c], c in chain);
    HeldCount(heap[c], Generator, retains[c]);
    PutOk(heap, active, chain, retains, retains, c, Held(heap[c], Generator));
  }

  lemma UnholdGeneratorOk(heap: Heap, active: Option<nat>, chain: seq<nat>, retains: multiset<nat>, c: nat)
    requires Good(heap, active, chain, retains) && c in heap
    ensures Generator in heap[c].holds ==> heap[c].refcount > 0
    ensures Good(Put(heap, c, Unheld(heap[c], Generator)), active, chain, retains)
  {
    assert HoldOk(heap[c], c in chain);
    UnheldCount(heap[c], Generator, retains[c]);
    PutOk(heap, active, chain, retains, retains, c, Unheld(heap[c], Generator));
  }

  lemma RegisterOk(heap: Heap, active: Option<nat>, chain: seq<nat>, retains: multiset<nat>, c: nat)
    requires Good(heap, active, chain, retains) && c in heap
    ensures Good(Put(heap, c, Held(heap[c].(awaiting := true), Await)), active, chain, retains)
    ensures Held(heap[c].(awaiting := true), Await).refcount > 0
  {
    assert HoldOk(heap[c], c in chain);
    HeldCount(heap[c].(awaiting := true), Await, retains[c]);
    PutOk(heap, active, chain, retains, retains, c, Held(heap[c].(awaiting := true), Await));
  }

  lemma ClearOk(heap: Heap, active: Option<nat>, chain: seq<nat>, retains: multiset<nat>, c: nat)
    requires Good(heap, active, chain, retains) && c in heap
    ensures heap[c].refcount > 0
    ensures var h := Put(heap, c, Unheld(heap[c].(awaiting := false), Await));
            Good(h, active, chain, retains) && (c in retains ==> c in h)
  {
    assert HoldOk(heap[c], c in chain);
    var r := heap[c].(awaiting := false);
    UnheldCount(r, Await, retains[c]);
    PutOk(heap, active, chain, retains, retains, c, Unheld(r, Await));
  }

  lemma ActivateOk(heap: Heap, active: Option<nat>, chain: seq<nat>, retains: multiset<nat>, c: nat)
    requires Good(heap, active, chain, retains) && c in heap && Active !in heap[c].holds
    ensures active.Some? ==> active.value in heap
    ensures var h := Linked(heap, active, c);
            && SameButLinks(heap, h) && Held(h[c], Active).refcount > 0
            && Good(Put(h, c, Held(h[c], Active)), Some(c), [c] + chain, retains)
  {
    assert active.Some? ==> LinkedAt(heap, chain, 0);
    assert HoldOk(heap[c], c in chain);
    LinkOk(heap, active, chain, c);
    var h := Linked(heap, active, c);
    assert SameButLinks(heap, h);
    hide Linked, ChainOk;
    SameCounts(heap, h, retains);
    SameHolds(heap, h, chain, [c] + chain, c);
    HeldCount(h[c], Active, retains[c]);
    PutOk(h, Some(c), [c] + chain, retains, retains, c, Held(h[c], Active));
  }

  lemma WithoutIn(chain: seq<nat>, i: nat, d: nat)
    requires Distinct(chain) && i < |chain|
    ensures d in Without(chain, i) <==> d in chain && d != chain[i]
  {
    if d != chain[i] && d !in Without(chain, i) { NotElsewhere(chain, i, d); }
  }

  lemma DeactivateOk(heap: Heap, active: Option<nat>, chain: seq<nat>, retains: multiset<nat>, i: nat)
    requires Good(heap, active, chain, retains) && i < |chain|
    ensures var c := chain[i];
            && c in heap && (heap[c].prev.Some? ==> heap[c].prev.value in heap)
               && (heap[c].parent.Some? ==> heap[c].parent.value in heap)
            && var h := Unlinked(heap, c);
               && h[c].refcount > 0 && c !in Without(chain, i)
               && (heap[c].prev.None? ==> active == Some(c))
               && Good(Put(h, c, Unheld(h[c], Active)), if heap[c].prev.None? then heap[c].parent
                                                        else active, Without(chain, i), retains)
               && (c in retains ==> c in Put(h, c, Unheld(h[c], Active)))
  {
    var c := chain[i];
    AtChain(heap, active, chain, retains, i);
    UnlinkOk(heap, active, chain, i);
    UnlinkSame(heap, c);
    WithoutAll(chain, i);
    hide Unlinked, ChainOk, Without;
    var h, next := Unlinked(heap, c), if heap[c].prev.None? then heap[c].parent else active;
    SameCounts(heap, h, retains);
    SameHolds(heap, h, chain, Without(chain, i), c);
    hide SameButLinks, HoldsOk;
    UnheldCount(h[c], Active, retains[c]);
    PutOk(h, next, Without(chain, i), retains, retains, c, Unheld(h[c], Active));
  }

  lemma AtChain(heap: Heap, active: Option<nat>, chain: seq<nat>, retains: multiset<nat>, i: nat)
    requires Good(heap, active, chain, retains) && i < |chain|
    ensures Distinct(chain) && chain[i] in heap && HoldOk(heap[chain[i]], true)
    ensures heap[chain[i]].prev.None? <==> i == 0
    ensures active == Some(chain[0])
  {
    assert LinkedAt(heap, chain, i) && chain[i] in chain;
    assert HoldOk(heap[chain[i]], chain[i] in chain);
  }

  lemma UnlinkSame(heap: Heap, c: nat)
    requires c in heap && (heap[c].prev.Some? ==> heap[c].prev.value in heap)
             && (heap[c].parent.Some? ==> heap[c].parent.value in heap)
    ensures SameButLinks(heap, Unlinked(heap, c))
  {
  }

  lemma WithoutAll(chain: seq<nat>, i: nat)
    requires Distinct(chain) && i < |chain|
    ensures forall d: nat :: d in Without(chain, i) <==> d in chain && d != chain[i]
  {
    forall d: nat ensures d in Without(chain, i) <==> d in chain && d != chain[i] { WithoutIn(chain, i, d); }
  }

  lemma LeavesTop(rest: seq<nat>, c: nat)
    ensures Distinct([c] + rest) ==> forall i: nat :: i < |rest| + 1 && ([c] + rest)[i] == c ==>
              Without([c] + rest, i) == rest
  {
    var all := [c] + rest;
    assert Without(all, 0) == rest;
    assert Distinct(all) ==> forall i: nat :: i < |all| && all[i] == all[0] ==> i == 0;
  }

  /** A coroutine off the chain is left alone by coroutine_deactivate. */
  lemma OffChain(heap: Heap, active: Option<nat>, chain: seq<nat>, retains: multiset<nat>, c: nat)
    requires Good(heap, active, chain, retains) && c in heap && c !in chain
    ensures heap[c].prev.None? && heap[c].parent.None? && active != Some(c) && heap[c].refcount > 0
    ensures Unlinked(heap, c) == heap && Put(heap, c, Unheld(heap[c], Active)) == heap
  {
    assert HoldOk(heap[c], c in chain);
  }

  /** What the rest of the runtime may do with coroutines, nested as deep as it likes. */
  datatype Op =
    | New(id: nat)
    | Retain(id: nat)
    | Release(id: nat)
    | HoldGenerator(id: nat)
    | UnholdGenerator(id: nat)
    | AwaitPromise(id: nat)
    | Cancel(id: nat)
    | Suspend(id: nat, frames: nat)
    | Enter(id: nat)
    | Leave(id: nat)
    | Resume(id: nat, installs: bool, running: seq<Op>, settling: seq<Op>)
    | SettleAndResume(id: nat, installs: bool, running: seq<Op>, settling: seq<Op>)

  class Runtime {
    var heap: Heap
    var active: Option<nat>
    var external: multiset<nat>  // retains the rest of the runtime has to give back
    ghost var inner: multiset<nat>  // retains of resumptions still in progress
    ghost var chain: seq<nat>

    ghost predicate Valid()
      reads this
    {
      Good(heap, active, chain, external + inner)
    }

    constructor ()
      ensures Valid() && heap == map[] && active.None? && inner == multiset{}
    {
      heap, active, external, inner, chain := map[], None, multiset{}, multiset{}, [];
    }

    /** js_promise_await_coroutine, what it does to the coroutine. */
    method Register(c: nat)
      requires Valid() && c in heap
      modifies this`heap
      ensures Valid() && c in heap && heap[c].awaiting
    {
      RegisterOk(heap, active, chain, external + inner, c);
      hide Good;
      heap := Put(heap, c, Held(heap[c].(awaiting := true), Await));
    }

    /** coroutine_clear_await_registration */
    method ClearAwait(c: nat)
      requires Valid() && c in heap
      modifies this`heap
      ensures Valid() && (c in external + inner ==> c in heap)
      ensures c in heap ==> !heap[c].awaiting && heap[c].frames == old(heap)[c].frames
      ensures c in heap ==> (Active in heap[c].holds <==> Active in old(heap)[c].holds)
    {
      if !heap[c].awaiting { return; }
      ClearOk(heap, active, chain, external + inner, c);
      hide Good;
      heap := Put(heap, c, Unheld(heap[c].(awaiting := false), Await));
    }

    /** coroutine_cancel */
    method Cancel(c: nat) returns (suspended: bool)
      requires Valid() && c in heap
      modifies this`heap
      ensures Valid() && suspended == (old(heap)[c].awaiting || old(heap)[c].frames > 0)
    {
      suspended := heap[c].awaiting || heap[c].frames > 0;
      ClearAwait(c);
    }

    /** coroutine_activate */
    method Activate(c: nat)
      requires Valid() && c in heap && Active !in heap[c].holds
      modifies this`heap, this`active, this`chain
      ensures Valid() && c in heap && chain == [c] + old(chain) && active == Some(c)
      ensures heap[c].frames == old(heap)[c].frames
    {
      ActivateOk(heap, active, chain, external + inner, c);
      hide Good, Linked;
      heap := Linked(heap, active, c);
      active, chain := Some(c), [c] + chain;
      heap := Put(heap, c, Held(heap[c], Active));
    }

    /** coroutine_deactivate, from wherever on the chain the coroutine is. */
    method Deactivate(c: nat)
      requires Valid() && c in heap
      modifies this`heap, this`active, this`chain
      ensures Valid() && c !in chain && (c in external + inner ==> c in heap)
      ensures c !in old(chain) ==> chain == old(chain) && heap == old(heap) && active == old(active)
      ensures c in old(chain) ==>
                exists i: nat :: i < |old(chain)| && old(chain)[i] == c && chain == Without(old(chain), i)
    {
      if c in chain {
        ghost var i: nat :| 0 <= i < |chain| && chain[i] == c;
        DeactivateOk(heap, active, chain, external + inner, i);
        chain := Without(chain, i);
      } else {
        OffChain(heap, active, chain, external + inner, c);
      }
      hide Good, Unlinked, Without;
      if heap[c].prev.None? && active == Some(c) { active := heap[c].parent; }
      heap := Unlinked(heap, c);
      heap := Put(heap, c, Unheld(heap[c], Active));
    }

    /** coroutine_retain by a resumption. */
    method RetainInner(c: nat)
      requires Valid() && c in heap
      modifies this`heap, this`inner
      ensures Valid() && inner == old(inner) + multiset{c}
      ensures c in heap && heap[c] == old(heap)[c].(refcount := old(heap)[c].refcount + 1)
    {
      RetainOk(heap, active, chain, external + inner, c);
      hide Good;
      heap := heap[c := heap[c].(refcount := heap[c].refcount + 1)];
      inner := inner + multiset{c};
      assert external + inner == external + old(inner) + multiset{c};
    }

    /** coroutine_release by a resumption. */
    method ReleaseInner(c: nat)
      requires Valid() && c in inner
      modifies this`heap, this`inner
      ensures Valid() && inner == old(inner) - multiset{c}
    {
      ReleaseOk(heap, active, chain, external + inner, c);
      hide Good;
      heap := Put(heap, c, heap[c].(refcount := heap[c].refcount - 1));
      inner := inner - multiset{c};
      assert external + inner == external + old(inner) - multiset{c};
    }

    lemma HeadOfChain()
      requires Valid()
      ensures active == At(chain, 0) && Distinct(chain)
    {
    }

    /** A retained coroutine is alive. */
    lemma RetainedIsAlive(c: nat)
      requires Valid() && (c in external || c in inner)
      ensures c in heap
    {
      assert c in external + inner;
    }

    /** The coroutine on the chain, its saved frames given to the interpreter or given up. */
    method Wake(c: nat)
      requires Valid() && c in heap && Active !in heap[c].holds
      modifies this`heap, this`active, this`chain
      ensures Valid() && c in heap && heap[c].frames == 0 && chain == [c] + old(chain)
    {
      Activate(c);
      FramesOk(heap, active, chain, external + inner, c, 0);
      hide Good;
      heap := heap[c := heap[c].(frames := 0)];
    }

    /** coroutine_deactivate after a run that left the chain as it found it. */
    method DeactivateTop(c: nat, ghost rest: seq<nat>)
      requires Valid() && c in inner
      modifies this`heap, this`active, this`chain
      ensures Valid() && (old(chain) == [c] + rest ==> chain == rest && active == At(rest, 0))
    {
      RetainedIsAlive(c);
      HeadOfChain();
      LeavesTop(rest, c);
      hide Good;
      Deactivate(c);
      HeadOfChain();
    }

    /**
     resume_coroutine_if_suspended.  `running` is what the resumed code does, `settling`
     what settling its promise sets off; `installs` is whether its activation could be put back.
     */
    method ResumeIfSuspended(c: nat, installs: bool, running: seq<Op>, settling: seq<Op>)
      requires Valid() && c in heap && (heap[c].frames > 0 ==> Active !in heap[c].holds)
      modifies this
      ensures Valid() && inner == old(inner)
      ensures Nested(running) && Nested(settling) ==> chain == old(chain) && active == old(active)
      decreases Size(running) + Size(settling) + 1, 1
    {
      HeadOfChain();
      hide Good, Nested, At;
      RetainInner(c);
      if heap[c].frames > 0 {
        Wake(c);
        if installs { RunAll(running); }
        DeactivateTop(c, old(chain));
        RunAll(settling);
      }
      ReleaseInner(c);
    }

    /** settle_and_resume_coroutine */
    method Settle(c: nat, installs: bool, running: seq<Op>, settling: seq<Op>)
      requires Valid() && c in heap && (heap[c].frames > 0 ==> Active !in heap[c].holds)
      modifies this
      ensures Valid() && inner == old(inner)
      ensures Nested(running) && Nested(settling) ==> chain == old(chain) && active == old(active)
      decreases Size(running) + Size(settling) + 1, 2
    {
      RetainInner(c);
      assert c in external + inner;
      ClearAwait(c);
      ResumeIfSuspended(c, installs, running, settling);
      ReleaseInner(c);
    }

    /** Any sequence of operations; one that its caller would not be entitled to is skipped. */
    method RunAll(ops: seq<Op>)
      requires Valid()
      modifies this
      ensures Valid() && inner == old(inner)
      ensures Nested(ops) ==> chain == old(chain) && active == old(active)
      decreases Size(ops), 4
    {
      var i := 0;
      while i < |ops|
        invariant i <= |ops| && Valid() && inner == old(inner)
        invariant Nested(ops) ==> chain == old(chain) && active == old(active)
      {
        SizeAt(ops, i);
        if Nested(ops) { NestedAt(ops, i); }
        Do(ops[i]);
        i := i + 1;
      }
    }

    method Do(op: Op)
      requires Valid()
      modifies this
      ensures Valid() && inner == old(inner)
      ensures NestedOp(op) ==> chain == old(chain) && active == old(active)
      decreases SizeOf(op), 3
    {
      var c := op.id;
      if op.New? {
        if c !in heap { Create(c); }
      } else if c in heap {
        match op
        case New(_) => assert false;
        case Retain(_) => RetainExternal(c);
        case Release(_) => if c in external { ReleaseExternal(c); }
        case HoldGenerator(_) =>
          HoldGeneratorOk(heap, active, chain, external + inner, c);
          heap := Put(heap, c, Held(heap[c], Generator));
        case UnholdGenerator(_) =>
          UnholdGeneratorOk(heap, active, chain, external + inner, c);
          heap := Put(heap, c, Unheld(heap[c], Generator));
        case AwaitPromise(_) => Register(c);
        case Cancel(_) => var suspended := Cancel(c);
        case Suspend(_, frames) =>
          FramesOk(heap, active, chain, external + inner, c, frames);
          heap := heap[c := heap[c].(frames := frames)];
        case Enter(_) => if Active !in heap[c].holds { Activate(c); }
        case Leave(_) => Deactivate(c);
        case Resume(_, installs, running, settling) =>
          if heap[c].frames == 0 || Active !in heap[c].holds { ResumeIfSuspended(c, installs, running, settling); }
        case SettleAndResume(_, installs, running, settling) =>
          if heap[c].frames == 0 || Active !in heap[c].holds { Settle(c, installs, running, settling); }
      }
    }

    method Create(c: nat)
      requires Valid() && c !in heap
      modifies this`heap, this`external
      ensures Valid() && c in heap && external == old(external) + multiset{c}
    {
      NewOk(heap, active, chain, external + inner, c);
      hide Good;
      heap := heap[c := Coro(1, {}, None, None, 0, false)];
      external := external + multiset{c};
      assert external + inner == old(external) + inner + multiset{c};
    }

    /** coroutine_retain */
    method RetainExternal(c: nat)
      requires Valid() && c in heap
      modifies this`heap, this`external
      ensures Valid() && c in heap && external == old(external) + multiset{c}
    {
      RetainOk(heap, active, chain, external + inner, c);
      hide Good;
      heap := heap[c := heap[c].(refcount := heap[c].refcount + 1)];
      external := external + multiset{c};
      assert external + inner == old(external) + inner + multiset{c};
    }

    /** coroutine_release: the record is freed exactly when nobody retains or holds it any more. */
    method ReleaseExternal(c: nat)
      requires Valid() && c in external && c in heap
      modifies this`heap, this`external
      ensures Valid() && external == old(external) - multiset{c}
      ensures c !in heap <==> (external + inner)[c] == 0 && old(heap)[c].holds == {}
    {
      ReleaseOk(heap, active, chain, external + inner, c);
      hide Good;
      heap := Put(heap, c, heap[c].(refcount := heap[c].refcount - 1));
      external := external - multiset{c};
      assert external + inner == old(external) + inner - multiset{c};
    }
  }

  /** Nothing enters or leaves the chain but by resumptions that end where they began. */
  predicate Nested(ops: seq<Op>)
    decreases Size(ops), 1
  {
    ops == [] || (NestedOp(ops[0]) && Nested(ops[1..]))
  }

  predicate NestedOp(op: Op)
    decreases SizeOf(op), 0
  {
    match op
    case Enter(_) => false
    case Leave(_) => false
    case Resume(_, _, running, settling) => Nested(running) && Nested(settling)
    case SettleAndResume(_, _, running, settling) => Nested(running) && Nested(settling)
    case _ => true
  }

  lemma {:induction false} NestedAt(ops: seq<Op>, i: nat)
    requires i < |ops| && Nested(ops)
    ensures NestedOp(ops[i])
  {
    if i > 0 { NestedAt(ops[1..], i - 1); }
  }

  // ---- how much is nested ----

  function Size(ops: seq<Op>): nat {
    if ops == [] then 0 else SizeOf(ops[0]) + Size(ops[1..])
  }

  function SizeOf(op: Op): nat {
    match op
    case Resume(_, _, running, settling) => 1 + Size(running) + Size(settling)
    case SettleAndResume(_, _, running, settling) => 1 + Size(running) + Size(settling)
    case _ => 1
  }

  lemma {:induction false} SizeAt(ops: seq<Op>, i: nat)
    requires i < |ops|
    ensures SizeOf(ops[i]) <= Size(ops)
  {
    if i > 0 { SizeAt(ops[1..], i - 1); }
  }
}
