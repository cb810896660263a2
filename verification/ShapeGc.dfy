/**
 Marking and sweeping of the transition tree.

 A collection begins a new epoch, marks the shapes in use up to their roots, and prunes
 from the trees under the roots whatever was not marked.  Trees under other shapes
 (clones) are not swept, and their marks may be stale: the epoch is a 16-bit counter.
 */
module ShapeGc {
  import opened Basics
  import opened ShapeIndex
  import opened ShapeRecord
  import opened ShapeTree
  import opened ShapeEngine

  const EPOCHS: nat := 65536

  /** s and its ancestors. */
  ghost function Line(nodes: Nodes, s: Addr): set<Addr>
    decreases s
  {
    {s} + if s in nodes && nodes[s].parent.Some? && nodes[s].parent.value < s then Line(nodes, nodes[s].parent.value)
          else {}
  }

  ghost predicate Below(nodes: Nodes, o: Addr, s: Addr) {
    s in Line(nodes, o)
  }

  ghost predicate Rooted(nodes: Nodes, roots: set<Addr>, s: Addr)
    decreases s
  {
    s in nodes && (s in roots || (nodes[s].parent.Some? && nodes[s].parent.value < s
                                  && Rooted(nodes, roots, nodes[s].parent.value)))
  }

  /** Under the roots, a marked shape's parent is marked. */
  ghost predicate Closed(nodes: Nodes, roots: set<Addr>, epoch: nat) {
    forall s :: s in nodes && nodes[s].mark == epoch && nodes[s].parent.Some? && Rooted(nodes, roots, s) ==>
      nodes[s].parent.value in nodes && nodes[nodes[s].parent.value].mark == epoch
  }

  /** Between collections: shapes under the roots carry the last epoch's mark or none. */
  ghost predicate Idle(nodes: Nodes, roots: set<Addr>, epoch: nat) {
    && epoch < EPOCHS
    && forall s :: s in nodes && s !in roots && Rooted(nodes, roots, s) ==> nodes[s].mark == 0 || nodes[s].mark == epoch
  }

  // ---- mutators keep Idle ----

  lemma {:induction false} RootedGrown(nodes: Nodes, nodes': Nodes, roots: set<Addr>, roots': set<Addr>, s: Addr)
    requires Grown(nodes, nodes') && s in nodes && roots <= roots' && roots' <= roots + (nodes'.Keys - nodes.Keys)
    requires forall o :: o in nodes && nodes[o].parent.Some? ==> nodes[o].parent.value in nodes
    ensures Rooted(nodes', roots', s) <==> Rooted(nodes, roots, s)
    decreases s
  {
    if nodes[s].parent.Some? && nodes[s].parent.value < s {
      RootedGrown(nodes, nodes', roots, roots', nodes[s].parent.value);
    }
  }

  lemma ParentsLive(nodes: Nodes, roots: set<Addr>, holds: multiset<Addr>, dying: set<Addr>)
    requires TreeOk(nodes, roots, holds, dying)
    ensures forall o :: o in nodes && nodes[o].parent.Some? ==>
              nodes[o].parent.value in nodes && nodes[o].parent.value < o && o !in roots
  {
    hide Edges, Down;
    forall o | o in nodes && nodes[o].parent.Some?
      ensures nodes[o].parent.value in nodes && nodes[o].parent.value < o && o !in roots
    {
      assert Up(nodes, o) && Counted(nodes[o], o, roots, holds, dying);
    }
  }

  /** Transitions, clones and new roots keep marks ready for the next epoch. */
  lemma GrownIdle(nodes: Nodes, nodes': Nodes, roots: set<Addr>, roots': set<Addr>, holds: multiset<Addr>, epoch: nat)
    requires TreeOk(nodes, roots, holds, {}) && Grown(nodes, nodes') && Idle(nodes, roots, epoch)
    requires roots <= roots' && roots' <= roots + (nodes'.Keys - nodes.Keys)
    ensures Idle(nodes', roots', epoch)
  {
    hide TreeOk;
    ParentsLive(nodes, roots, holds, {});
    forall s | s in nodes' && s !in roots' && Rooted(nodes', roots', s)
      ensures nodes'[s].mark == 0 || nodes'[s].mark == epoch
    {
      if s in nodes { RootedGrown(nodes, nodes', roots, roots', s); }
    }
  }

  /** Some shapes are gone or cut off; the rest is as before. */
  ghost predicate Shrunk(nodes: Nodes, nodes': Nodes) {
    && nodes'.Keys <= nodes.Keys
    && (forall o :: o in nodes' ==>
          nodes'[o].mark == nodes[o].mark && (nodes'[o].parent.None? || nodes'[o].parent == nodes[o].parent))
    && Thinned(nodes, nodes')
  }

  /** Survivors have their old key under their parent and no recorded child they did not have. */
  ghost predicate Thinned(nodes: Nodes, nodes': Nodes) {
    forall o :: o in nodes && o in nodes' ==> ThinnedAt(nodes[o], nodes'[o])
  }

  ghost predicate ThinnedAt(n: Node, m: Node) {
    m.parentKey == n.parentKey && forall k :: k in Edges(m) ==> k in Edges(n) && Edges(n)[k] == Edges(m)[k]
  }

  lemma ThinnedThen(a: Nodes, b: Nodes, c: Nodes)
    requires Thinned(a, b) && Thinned(b, c) && c.Keys <= b.Keys
    ensures Thinned(a, c)
  {
    hide Edges;
    forall o | o in a && o in c ensures ThinnedAt(a[o], c[o]) {
      assert o in b && ThinnedAt(a[o], b[o]) && ThinnedAt(b[o], c[o]);
    }
  }

  lemma ThinnedSame(nodes: Nodes)
    ensures Thinned(nodes, nodes)
  {
    hide Edges;
  }

  /** Losing shapes and recorded children keeps the recorded transitions that are left right. */
  lemma ThinnedFaithful(was: Nodes, now: Nodes, roots: set<Addr>, holds: multiset<Addr>, all: AllViews)
    requires Thinned(was, now) && now.Keys <= was.Keys && TreeOk(now, roots, holds, {})
    ensures FaithfulIn(was, roots, all) ==> FaithfulIn(now, roots, Only(all, now.Keys))
  {
    if FaithfulIn(was, roots, all) {
      assert roots <= now.Keys;
      hide TreeOk, Edges;
      forall p, k | p in now && k in Edges(now[p]) ensures EdgeRight(Only(all, now.Keys), p, k, Edges(now[p])[k]) {
        assert ThinnedAt(was[p], now[p]);
        EdgeOk(now, roots, holds, {}, p, k);
        assert EdgeRight(all, p, k, Edges(was[p])[k]);
      }
    }
  }

  lemma {:induction false} RootedShrunk(nodes: Nodes, nodes': Nodes, roots: set<Addr>, s: Addr)
    requires Shrunk(nodes, nodes') && Rooted(nodes', roots, s)
    ensures Rooted(nodes, roots, s)
    decreases s
  {
    if s !in roots { RootedShrunk(nodes, nodes', roots, nodes'[s].parent.value); }
  }

  /** So do releases. */
  lemma ShrunkIdle(nodes: Nodes, nodes': Nodes, roots: set<Addr>, epoch: nat)
    requires Shrunk(nodes, nodes') && Idle(nodes, roots, epoch)
    ensures Idle(nodes', roots, epoch)
  {
    forall s | s in nodes' && s !in roots && Rooted(nodes', roots, s)
      ensures nodes'[s].mark == 0 || nodes'[s].mark == epoch
    {
      RootedShrunk(nodes, nodes', roots, s);
    }
  }

  lemma KeptShrinks(nodes: Nodes, nodes': Nodes)
    requires Kept(nodes, nodes')
    ensures Shrunk(nodes, nodes')
  {
    hide Edges;
    forall o | o in nodes'
      ensures nodes'[o].mark == nodes[o].mark && (nodes'[o].parent.None? || nodes'[o].parent == nodes[o].parent)
    {
      assert KeptUp(nodes, nodes', o);
    }
    KeptThins(nodes, nodes');
  }

  lemma KeptThins(nodes: Nodes, nodes': Nodes)
    requires Kept(nodes, nodes')
    ensures Thinned(nodes, nodes')
  {
    hide Edges;
    forall o | o in nodes && o in nodes' ensures ThinnedAt(nodes[o], nodes'[o]) { assert KeptUp(nodes, nodes', o); }
  }

  lemma ShrunkClosed(nodes: Nodes, nodes': Nodes, roots: set<Addr>, holds: multiset<Addr>, dying: set<Addr>, epoch: nat)
    requires Shrunk(nodes, nodes') && Closed(nodes, roots, epoch) && TreeOk(nodes', roots, holds, dying)
    ensures Closed(nodes', roots, epoch)
  {
    ParentsLive(nodes', roots, holds, dying);
    hide TreeOk;
    forall s | s in nodes' && nodes'[s].mark == epoch && nodes'[s].parent.Some? && Rooted(nodes', roots, s)
      ensures nodes'[s].parent.value in nodes' && nodes'[nodes'[s].parent.value].mark == epoch
    {
      RootedShrunk(nodes, nodes', roots, s);
    }
  }

  // ---- begin and mark ----

  /** ant_gc_shapes_begin: no shape below a root carries the new epoch yet. */
  method Begin(e: Engine)
    requires e.Valid() && Idle(e.nodes, e.roots.Values, e.epoch)
    modifies e`epoch
    ensures e.Valid() && 0 < e.epoch < EPOCHS && Closed(e.nodes, e.roots.Values, e.epoch)
    ensures forall s :: s in e.nodes && s !in e.roots.Values && Rooted(e.nodes, e.roots.Values, s) ==>
              e.nodes[s].mark != e.epoch
  {
    hide Shapes.Store.Inv, TreeOk;
    ParentsLive(e.nodes, e.roots.Values, e.holds, {});
    e.epoch := (e.epoch + 1) % EPOCHS;
    if e.epoch == 0 { e.epoch := 1; }
  }

  /** nodes with the shapes in `done` newly marked. */
  ghost predicate MarkedMore(nodes: Nodes, nodes': Nodes, done: set<Addr>, epoch: nat) {
    && nodes'.Keys == nodes.Keys
    && forall o :: o in nodes ==> nodes'[o] == if o in done then nodes[o].(mark := epoch) else nodes[o]
  }

  /** ant_gc_shapes_mark: marks s and its ancestors, stopping at the first one already marked. */
  method Mark(e: Engine, s: Addr)
    requires e.Valid() && s in e.nodes && Closed(e.nodes, e.roots.Values, e.epoch)
    modifies e`nodes
    ensures e.Valid() && Closed(e.nodes, e.roots.Values, e.epoch)
    ensures exists done: set<Addr> :: done <= Line(old(e.nodes), s) && MarkedMore(old(e.nodes), e.nodes, done, e.epoch)
    ensures forall o :: o in e.nodes && Rooted(e.nodes, e.roots.Values, o) ==>
              (e.nodes[o].mark == e.epoch <==> old(e.nodes)[o].mark == e.epoch || o in Line(old(e.nodes), s))
    ensures old(e.Faithful()) ==> e.Faithful()
  {
    hide Shapes.Store.Inv, Shapes.Store.All, TreeOk, Closed, Rooted, Line, MarkedMore, FaithfulIn;
    ghost var was, roots := e.nodes, e.roots.Values;
    ghost var done: set<Addr> := {};
    MarkStart(was, e.epoch);
    var at := Some(s);
    ParentsLive(was, roots, e.holds, {});
    while at.Some?
      invariant e.Valid() && MarkedMore(was, e.nodes, done, e.epoch)
      invariant at.Some? ==> at.value in was && forall o :: o in done ==> at.value < o
      invariant Line(was, s) == done + if at.Some? then Line(was, at.value) else {}
      decreases if at.Some? then at.value + 1 else 0
    {
      var c := at.value;
      LineStep(was, c);
      MarkedAt(was, e.nodes, done, c, e.epoch);
      if e.nodes[c].mark == e.epoch { break; }
      MarkOk(e.nodes, e.roots.Values, e.holds, c, e.epoch);
      MarkStep(was, e.nodes, done, c, e.epoch);
      e.nodes := e.nodes[c := e.nodes[c].(mark := e.epoch)];
      done := done + {c};
      at := e.nodes[c].parent;
    }
    MarkedLine(was, e.nodes, roots, e.epoch, s, at, done);
    MarkedFaithful(was, e.nodes, roots, done, e.epoch, e.store.All());
  }

  lemma MarkedFaithful(was: Nodes, now: Nodes, roots: set<Addr>, done: set<Addr>, epoch: nat, all: AllViews)
    requires MarkedMore(was, now, done, epoch)
    ensures FaithfulIn(was, roots, all) ==> FaithfulIn(now, roots, all)
  {
    if FaithfulIn(was, roots, all) {
      forall p, k | p in now && k in Edges(now[p]) ensures EdgeRight(all, p, k, Edges(now[p])[k]) {
        EdgesSame(was[p], now[p]);
        assert EdgeRight(all, p, k, Edges(was[p])[k]);
      }
    }
  }

  lemma MarkStart(nodes: Nodes, epoch: nat)
    ensures MarkedMore(nodes, nodes, {}, epoch)
  {
  }

  lemma MarkedAt(was: Nodes, now: Nodes, done: set<Addr>, c: Addr, epoch: nat)
    requires MarkedMore(was, now, done, epoch) && c in was && c !in done
    ensures c in now && now[c] == was[c]
  {
  }

  lemma MarkStep(was: Nodes, now: Nodes, done: set<Addr>, c: Addr, epoch: nat)
    requires MarkedMore(was, now, done, epoch) && c in was && c !in done
    ensures c in now && MarkedMore(was, now[c := now[c].(mark := epoch)], done + {c}, epoch)
  {
  }

  lemma LineStep(nodes: Nodes, s: Addr)
    requires s in nodes && (nodes[s].parent.Some? ==> nodes[s].parent.value < s)
    ensures Line(nodes, s) == {s} + if nodes[s].parent.Some? then Line(nodes, nodes[s].parent.value) else {}
  {
  }

  lemma MarkOk(nodes: Nodes, roots: set<Addr>, holds: multiset<Addr>, s: Addr, epoch: nat)
    requires TreeOk(nodes, roots, holds, {}) && s in nodes
    ensures TreeOk(nodes[s := nodes[s].(mark := epoch)], roots, holds, {})
  {
    hide Down, Up, Edges;
    EdgesSame(nodes[s], nodes[s].(mark := epoch));
    Relink(nodes, nodes[s := nodes[s].(mark := epoch)]);
  }

  lemma {:induction false} RootedSame(nodes: Nodes, nodes': Nodes, roots: set<Addr>, s: Addr)
    requires nodes'.Keys == nodes.Keys && forall o :: o in nodes ==> nodes'[o].parent == nodes[o].parent
    ensures Rooted(nodes', roots, s) == Rooted(nodes, roots, s)
    decreases s
  {
    if s in nodes && nodes[s].parent.Some? && nodes[s].parent.value < s {
      RootedSame(nodes, nodes', roots, nodes[s].parent.value);
    }
  }

  lemma {:induction false} RootedDown(nodes: Nodes, roots: set<Addr>, o: Addr, s: Addr)
    requires s in nodes && o in Line(nodes, s) && Rooted(nodes, roots, o)
    ensures Rooted(nodes, roots, s)
    decreases s
  {
    if o != s { LineLive(nodes, nodes[s].parent.value, o); RootedDown(nodes, roots, o, nodes[s].parent.value); }
  }

  lemma {:induction false} LineLive(nodes: Nodes, s: Addr, o: Addr)
    requires o in Line(nodes, s) && o in nodes
    ensures s in nodes
  {
  }

  lemma {:induction false} ClosedLine(nodes: Nodes, roots: set<Addr>, epoch: nat, s: Addr, o: Addr)
    requires Closed(nodes, roots, epoch) && s in nodes && Rooted(nodes, roots, s) && nodes[s].mark == epoch
    requires forall t :: t in roots && t in nodes ==> nodes[t].parent.None?
    requires o in Line(nodes, s)
    ensures o in nodes && nodes[o].mark == epoch
    decreases s
  {
    if o != s { ClosedLine(nodes, roots, epoch, nodes[s].parent.value, o); }
  }

  /** Stopping at a marked shape misses nothing under the roots. */
  lemma MarkedLine(was: Nodes, now: Nodes, roots: set<Addr>, epoch: nat, s: Addr, at: Option<Addr>, done: set<Addr>)
    requires MarkedMore(was, now, done, epoch) && Closed(was, roots, epoch) && s in was
    requires forall o :: o in was && was[o].parent.Some? ==>
               was[o].parent.value in was && was[o].parent.value < o && o !in roots
    requires Line(was, s) == done + if at.Some? then Line(was, at.value) else {}
    requires at.Some? ==> at.value in was && was[at.value].mark == epoch
    ensures Closed(now, roots, epoch)
    ensures forall o :: o in now && Rooted(now, roots, o) ==>
              (now[o].mark == epoch <==> was[o].mark == epoch || o in Line(was, s))
  {
    hide Line, Rooted;
    forall o | o in now && Rooted(now, roots, o)
      ensures now[o].mark == epoch <==> was[o].mark == epoch || o in Line(was, s)
    {
      RootedSame(was, now, roots, o);
      if o in Line(was, s) && o !in done {
        RootedDown(was, roots, o, at.value);
        ClosedLine(was, roots, epoch, at.value, o);
      }
    }
    forall c | c in now && now[c].mark == epoch && now[c].parent.Some? && Rooted(now, roots, c)
      ensures now[c].parent.value in now && now[now[c].parent.value].mark == epoch
    {
      RootedSame(was, now, roots, c);
      if c in done {
        ParentToo(was, roots, s, c);
        RootedSame(was, now, roots, was[c].parent.value);
      }
    }
  }

  lemma {:induction false} ParentToo(nodes: Nodes, roots: set<Addr>, s: Addr, c: Addr)
    requires c in Line(nodes, s) && c in nodes && nodes[c].parent.Some? && nodes[c].parent.value < c && c !in roots
    requires Rooted(nodes, roots, c)
    ensures nodes[c].parent.value in Line(nodes, s) && Rooted(nodes, roots, nodes[c].parent.value)
    decreases s
  {
    if c != s { ParentToo(nodes, roots, nodes[s].parent.value, c); }
    else { LineSelf(nodes, nodes[c].parent.value); }
  }

  lemma LineSelf(nodes: Nodes, s: Addr)
    ensures s in Line(nodes, s)
  {
  }

  // ---- sweep ----

  /** What pruning does to one shape: marked shapes keep their place, others lose it. */
  ghost predicate Settled(was: Nodes, now: Nodes, epoch: nat, o: Addr)
    requires o in was
  {
    if was[o].mark == epoch then o in now && now[o].parent == was[o].parent
    else o in now ==> now[o].parent.None?
  }

  /** Only the recorded children changed. */
  ghost predicate SameButChildren(n: Node, m: Node) {
    n.refCount == m.refCount && n.mark == m.mark && n.parent == m.parent && n.parentKey == m.parentKey
  }

  /** Everything strictly below s is settled and nothing else changed. */
  ghost predicate Pruned(was: Nodes, now: Nodes, epoch: nat, s: Addr) {
    && Shrunk(was, now)
    && forall o :: o in was ==> PrunedAt(was, now, epoch, s, o)
  }

  ghost predicate PrunedAt(was: Nodes, now: Nodes, epoch: nat, s: Addr, o: Addr)
    requires o in was
  {
    if o == s then o in now && SameButChildren(was[o], now[o])
    else if Below(was, o, s) then Settled(was, now, epoch, o)
    else o in now && now[o] == was[o]
  }

  /** The same for one child c of s, c included. */
  ghost predicate ChildPruned(was: Nodes, now: Nodes, epoch: nat, s: Addr, c: Addr) {
    && Shrunk(was, now)
    && forall o :: o in was ==>
         if o == s then o in now && SameButChildren(was[o], now[o])
         else if Below(was, o, c) then Settled(was, now, epoch, o)
         else o in now && now[o] == was[o]
  }

  ghost predicate Ready(e: Engine)
    reads e, e.store
  {
    e.Valid() && Closed(e.nodes, e.roots.Values, e.epoch)
  }

  /** What a sweep leaves alone: references, roots, epoch, and the lists of the survivors. */
  twostate predicate Steady(e: Engine)
    reads e, e.store
  {
    && e.holds == old(e.holds) && e.roots == old(e.roots) && e.epoch == old(e.epoch)
    && e.store.next == old(e.store.next)
    && e.store.All() == Only(old(e.store.All()), e.nodes.Keys)
  }

  /** An unmarked shape is at or below c. */
  ghost predicate DeadAt(nodes: Nodes, epoch: nat, c: Addr) {
    exists o :: o in nodes && Below(nodes, o, c) && nodes[o].mark != epoch
  }

  /** An unmarked shape is strictly below s. */
  ghost predicate DeadUnder(nodes: Nodes, epoch: nat, s: Addr) {
    exists o :: o in nodes && o != s && Below(nodes, o, s) && nodes[o].mark != epoch
  }

  /** One is at or below a child of s under one of these keys. */
  ghost predicate DeadVia(nodes: Nodes, epoch: nat, s: Addr, keys: set<Key>)
    requires s in nodes
  {
    exists k :: k in keys && k in Edges(nodes[s]) && DeadAt(nodes, epoch, Edges(nodes[s])[k])
  }

  lemma DeadOne(nodes: Nodes, epoch: nat, c: Addr)
    requires c in nodes
    ensures DeadAt(nodes, epoch, c) <==> nodes[c].mark != epoch || DeadUnder(nodes, epoch, c)
  {
    LineSelf(nodes, c);
    hide Line;
    assert Below(nodes, c, c);
    if DeadUnder(nodes, epoch, c) {
      var o :| o in nodes && o != c && Below(nodes, o, c) && nodes[o].mark != epoch;
    }
  }

  lemma DeadAll(nodes: Nodes, roots: set<Addr>, holds: multiset<Addr>, epoch: nat, s: Addr)
    requires TreeOk(nodes, roots, holds, {}) && s in nodes
    ensures DeadVia(nodes, epoch, s, Edges(nodes[s]).Keys) <==> DeadUnder(nodes, epoch, s)
  {
    hide TreeOk, Edges, Line;
    if DeadUnder(nodes, epoch, s) {
      var o :| o in nodes && o != s && Below(nodes, o, s) && nodes[o].mark != epoch;
      BelowVia(nodes, roots, holds, s, o);
      var k :| k in Edges(nodes[s]).Keys && k in Edges(nodes[s]) && Below(nodes, o, Edges(nodes[s])[k]);
      assert DeadAt(nodes, epoch, Edges(nodes[s])[k]);
    }
    if DeadVia(nodes, epoch, s, Edges(nodes[s]).Keys) {
      var k :| k in Edges(nodes[s]).Keys && k in Edges(nodes[s]) && DeadAt(nodes, epoch, Edges(nodes[s])[k]);
      var c := Edges(nodes[s])[k];
      var o :| o in nodes && Below(nodes, o, c) && nodes[o].mark != epoch;
      EdgeOk(nodes, roots, holds, {}, s, k);
      BelowTrans(nodes, o, c, s);
      LineBound(nodes, o, c);
    }
  }

  lemma DeadNone(nodes: Nodes, epoch: nat, s: Addr)
    requires s in nodes
    ensures !DeadVia(nodes, epoch, s, {})
  {
  }

  lemma DeadMore(nodes: Nodes, epoch: nat, s: Addr, keys: set<Key>, k: Key)
    requires s in nodes && k in Edges(nodes[s])
    ensures DeadVia(nodes, epoch, s, keys + {k}) <==>
            DeadVia(nodes, epoch, s, keys) || DeadAt(nodes, epoch, Edges(nodes[s])[k])
  {
    hide Edges, DeadAt;
    if DeadVia(nodes, epoch, s, keys) {
      var kk :| kk in keys && kk in Edges(nodes[s]) && DeadAt(nodes, epoch, Edges(nodes[s])[kk]);
      assert kk in keys + {k};
    }
    if DeadAt(nodes, epoch, Edges(nodes[s])[k]) { assert k in keys + {k}; }
  }

  /** The subtree of a child still to be pruned is as it was. */
  lemma DeadWaits(was: Nodes, mid: Nodes, roots: set<Addr>, holds: multiset<Addr>, epoch: nat, s: Addr, todo: set<Key>,
                  k: Key)
    requires Partly(was, mid, epoch, s, todo) && k in todo && TreeOk(was, roots, holds, {})
    ensures DeadAt(mid, epoch, Edges(was[s])[k]) <==> DeadAt(was, epoch, Edges(was[s])[k])
  {
    hide Edges, TreeOk, Line, Waits, Thinned;
    var c := Edges(was[s])[k];
    WholeYet(was, mid, roots, holds, epoch, s, todo, k);
    if DeadAt(was, epoch, c) {
      var o :| o in was && Below(was, o, c) && was[o].mark != epoch;
      BelowKept(was, mid, o, c);
    }
    if DeadAt(mid, epoch, c) {
      var o :| o in mid && Below(mid, o, c) && mid[o].mark != epoch;
      BelowShrunk(was, mid, o, c);
    }
  }

  lemma WholeYet(was: Nodes, mid: Nodes, roots: set<Addr>, holds: multiset<Addr>, epoch: nat, s: Addr, todo: set<Key>,
                 k: Key)
    requires Partly(was, mid, epoch, s, todo) && k in todo && TreeOk(was, roots, holds, {})
    ensures forall x :: x in was && Below(was, x, Edges(was[s])[k]) ==> x in mid && mid[x] == was[x]
  {
    hide Edges, TreeOk, Line, Waits, Thinned;
    var c := Edges(was[s])[k];
    EdgeOk(was, roots, holds, {}, s, k);
    forall x | x in was && Below(was, x, c) ensures x in mid && mid[x] == was[x] {
      WaitsFor(was, s, todo, k, x);
      if x == s { LineBound(was, s, c); }
      BelowTrans(was, x, c, s);
      assert PartlyAt(was, mid, epoch, s, todo, x);
    }
  }

  /** shape_prune_dead_children */
  method Prune(e: Engine, s: Addr) returns (freed: bool)
    requires Ready(e) && s in e.nodes && Rooted(e.nodes, e.roots.Values, s)
    modifies e, e.store
    ensures Ready(e) && Steady(e) && Pruned(old(e.nodes), e.nodes, e.epoch, s)
    ensures freed <==> DeadUnder(old(e.nodes), e.epoch, s)
    decreases e.store.next - s, 1
  {
    hide Shapes.Store.Inv, Shapes.Store.All, TreeOk, Closed, Edges, Line, Rooted, Only, Partly, Pruned;
    hide DeadAt, DeadVia, DeadUnder;
    freed := false;
    ghost var was, roots, all := e.nodes, e.roots.Values, e.store.All();
    var n := e.nodes[s];
    ghost var todo := Edges(n).Keys;
    EdgeKeys(n);
    StartPrune(was, roots, e.holds, e.epoch, s);
    e.store.AllKeys();
    OnlyAll(all, was.Keys);
    ghost var past: set<Key> := {};
    DeadNone(was, e.epoch, s);
    if n.first.Some? {
      DeadMore(was, e.epoch, s, past, n.first.value.0);
      freed := PruneStep(e, s, n.first.value.0, todo, was, all);
      todo, past := todo - {n.first.value.0}, past + {n.first.value.0};
    }
    var keys := n.rest.Keys;
    while keys != {}
      invariant Ready(e) && s in e.nodes && todo == keys && past + keys == Edges(n).Keys
      invariant freed <==> DeadVia(was, e.epoch, s, past)
      invariant Partly(was, e.nodes, e.epoch, s, todo)
      invariant e.holds == old(e.holds) && e.roots == old(e.roots) && e.epoch == old(e.epoch)
      invariant e.store.next == old(e.store.next) && e.store.All() == Only(all, e.nodes.Keys)
      decreases keys
    {
      var k :| k in keys;
      DeadMore(was, e.epoch, s, past, k);
      var f := PruneStep(e, s, k, todo, was, all);
      freed := freed || f;
      keys, todo, past := keys - {k}, todo - {k}, past + {k};
    }
    DeadAll(was, roots, e.holds, e.epoch, s);
    assert past == Edges(n).Keys;
    FinishPrune(was, e.nodes, e.epoch, s);
  }

  method PruneStep(e: Engine, s: Addr, k: Key, ghost todo: set<Key>, ghost was: Nodes, ghost all: AllViews)
    returns (freed: bool)
    requires Ready(e) && s in e.nodes && k in todo && Partly(was, e.nodes, e.epoch, s, todo)
    requires s in was && TreeOk(was, e.roots.Values, e.holds, {}) && Rooted(was, e.roots.Values, s)
    requires e.store.All() == Only(all, e.nodes.Keys)
    modifies e, e.store
    ensures Ready(e) && s in e.nodes && Partly(was, e.nodes, e.epoch, s, todo - {k})
    ensures e.holds == old(e.holds) && e.roots == old(e.roots) && e.epoch == old(e.epoch)
    ensures e.store.next == old(e.store.next) && e.store.All() == Only(all, e.nodes.Keys)
    ensures k in Edges(was[s]) && (freed <==> DeadAt(was, e.epoch, Edges(was[s])[k]))
    decreases e.store.next - s, 0, 1
  {
    hide Shapes.Store.Inv, Shapes.Store.All, TreeOk, Closed, Edges, Line, Rooted, Only, Partly, Shrunk, ChildPruned;
    hide DeadAt;
    ghost var mid := e.nodes;
    StillRooted(was, mid, e.roots.Values, e.epoch, s, s, todo);
    TodoEdge(was, mid, e.epoch, s, todo, k);
    DeadWaits(was, mid, e.roots.Values, e.holds, e.epoch, s, todo, k);
    freed := PruneChild(e, s, k);
    PartlyStep(was, mid, e.nodes, e.roots.Values, e.holds, e.epoch, s, todo, k);
    ShrunkKeys(mid, e.nodes, e.epoch, s, Edges(was[s])[k]);
    OnlyTwice(all, mid.Keys, e.nodes.Keys);
  }

  /** One child: prune below it, then cut and release it if it is dead. */
  method PruneChild(e: Engine, s: Addr, k: Key) returns (freed: bool)
    requires Ready(e) && s in e.nodes && Rooted(e.nodes, e.roots.Values, s) && k in Edges(e.nodes[s])
    modifies e, e.store
    ensures Ready(e) && Steady(e) && ChildPruned(old(e.nodes), e.nodes, e.epoch, s, Edges(old(e.nodes)[s])[k])
    ensures s in e.nodes && forall kk :: kk in Edges(old(e.nodes)[s]) && kk != k ==>
              kk in Edges(e.nodes[s]) && Edges(e.nodes[s])[kk] == Edges(old(e.nodes)[s])[kk]
    ensures freed <==> DeadAt(old(e.nodes), e.epoch, Edges(old(e.nodes)[s])[k])
    decreases e.store.next - s, 0, 0
  {
    hide Shapes.Store.Inv, Shapes.Store.All, TreeOk, Closed, Edges, Line, Rooted, Only, Kept, Pruned;
    hide DeadAt, DeadUnder;
    ghost var was, roots, all := e.nodes, e.roots.Values, e.store.All();
    ParentsLive(was, roots, e.holds, {});
    EdgeOk(was, roots, e.holds, {}, s, k);
    var c := Edges(e.nodes[s])[k];
    e.store.Below(s);
    e.store.Below(c);
    RootedChild(was, roots, s, c);
    DeadOne(was, e.epoch, c);
    freed := Prune(e, c);
    ghost var mid, held := e.nodes, e.holds;
    PrunedChild(was, mid, e.epoch, s, c);
    if was[c].mark != e.epoch { UnmarkedChildless(was, mid, roots, held, e.epoch, c); }
    NoChildren(mid[c]);
    if e.nodes[c].mark != e.epoch && e.nodes[c].first.None? && e.nodes[c].rest == map[] {
      CutDead(e, s, k, was, all);
      freed := true;
    } else {
      KeptPruned(was, mid, e.epoch, s, c);
    }
  }

  /** Cuts and releases a dead child whose own subtree has been pruned. */
  method CutDead(e: Engine, s: Addr, k: Key, ghost was: Nodes, ghost all: AllViews)
    requires e.Valid() && s in e.nodes && k in Edges(e.nodes[s])
    requires var c := Edges(e.nodes[s])[k];
             && c in e.nodes && c in was && s in was && s < c && Edges(e.nodes[c]) == map[]
             && Pruned(was, e.nodes, e.epoch, c) && was[c].mark != e.epoch && e.nodes[s] == was[s]
    requires Closed(was, e.roots.Values, e.epoch) && e.store.All() == Only(all, e.nodes.Keys)
    modifies e, e.store
    ensures Ready(e) && ChildPruned(was, e.nodes, e.epoch, s, Edges(was[s])[k])
    ensures s in e.nodes && Edges(e.nodes[s]) == Edges(was[s]) - {k}
    ensures e.holds == old(e.holds) && e.roots == old(e.roots) && e.epoch == old(e.epoch)
    ensures e.store.next == old(e.store.next) && e.store.All() == Only(all, e.nodes.Keys)
  {
    hide Shapes.Store.Inv, Shapes.Store.All, TreeOk, Closed, Edges, Line, Rooted, Only, Kept, Pruned, ChildPruned;
    hide Untouched, Forgotten;
    ghost var mid, roots := e.nodes, e.roots.Values;
    var c := Edges(e.nodes[s])[k];
    CutOk(mid, roots, e.holds, {}, s, k);
    EdgesSame(mid[c], mid[c].(parent := None));
    e.nodes := CutIn(e.nodes, s, k);
    e.holds := e.holds + multiset{c};
    ghost var cut := e.nodes;
    e.ReleaseIn(c, {});
    KeptKeys(cut, e.nodes);
    OnlyTwice(all, mid.Keys, e.nodes.Keys);
    CutPruned(was, mid, e.nodes, e.epoch, s, k, c);
    ChildPrunedShrinks(was, e.nodes, e.epoch, s, c);
    ShrunkClosed(was, e.nodes, roots, e.holds, {}, e.epoch);
  }

  lemma ChildPrunedShrinks(was: Nodes, now: Nodes, epoch: nat, s: Addr, c: Addr)
    requires ChildPruned(was, now, epoch, s, c)
    ensures Shrunk(was, now)
  {
  }

  /** A prune of s under way: the subtrees of the children in `todo` are as they were. */
  ghost predicate Partly(was: Nodes, now: Nodes, epoch: nat, s: Addr, todo: set<Key>) {
    && Shrunk(was, now) && s in was
    && (forall o :: o in was ==> PartlyAt(was, now, epoch, s, todo, o))
    && s in now && todo <= Edges(was[s]).Keys
    && (forall k :: k in todo ==> k in Edges(now[s]) && Edges(now[s])[k] == Edges(was[s])[k])
  }

  ghost predicate Waits(was: Nodes, s: Addr, todo: set<Key>, o: Addr)
    requires s in was
  {
    exists k :: k in todo && k in Edges(was[s]) && Below(was, o, Edges(was[s])[k])
  }

  ghost predicate PartlyAt(was: Nodes, now: Nodes, epoch: nat, s: Addr, todo: set<Key>, o: Addr)
    requires s in was && o in was
  {
    if o == s then o in now && SameButChildren(was[o], now[o])
    else if !Below(was, o, s) || Waits(was, s, todo, o) then o in now && now[o] == was[o]
    else Settled(was, now, epoch, o)
  }

  lemma EdgeKeys(n: Node)
    ensures n.first.Some? ==> n.first.value.0 in Edges(n)
    ensures n.first.Some? && n.first.value.0 !in n.rest ==> Edges(n).Keys - {n.first.value.0} == n.rest.Keys
    ensures n.first.None? ==> Edges(n).Keys == n.rest.Keys
  {
  }

  lemma OnlyAll(all: AllViews, live: set<Addr>)
    requires all.Keys <= live
    ensures Only(all, live) == all
  {
  }

  lemma {:induction false} LineBound(nodes: Nodes, s: Addr, o: Addr)
    requires o in Line(nodes, s)
    ensures o <= s
    decreases s
  {
    if o != s { LineBound(nodes, nodes[s].parent.value, o); }
  }

  lemma {:induction false} BelowVia(nodes: Nodes, roots: set<Addr>, holds: multiset<Addr>, s: Addr, o: Addr)
    requires TreeOk(nodes, roots, holds, {}) && s in nodes && o in nodes && o != s && Below(nodes, o, s)
    ensures Waits(nodes, s, Edges(nodes[s]).Keys, o)
    decreases o
  {
    hide Edges, Down, Counted;
    assert Up(nodes, o);
    var p := nodes[o].parent.value;
    if p == s {
      LineSelf(nodes, o);
      assert nodes[o].parentKey in Edges(nodes[s]).Keys;
    } else {
      BelowVia(nodes, roots, holds, s, p);
      var k :| k in Edges(nodes[s]).Keys && k in Edges(nodes[s]) && Below(nodes, p, Edges(nodes[s])[k]);
      assert Below(nodes, o, Edges(nodes[s])[k]);
    }
  }

  lemma StartPrune(was: Nodes, roots: set<Addr>, holds: multiset<Addr>, epoch: nat, s: Addr)
    requires TreeOk(was, roots, holds, {}) && s in was
    ensures Partly(was, was, epoch, s, Edges(was[s]).Keys)
    ensures was[s].first.Some? ==> was[s].first.value.0 !in was[s].rest
  {
    assert Counted(was[s], s, roots, holds, {});
    ThinnedSame(was);
    hide Edges, TreeOk, Line, Thinned;
    forall o | o in was ensures PartlyAt(was, was, epoch, s, Edges(was[s]).Keys, o) {
      if o != s && Below(was, o, s) { BelowVia(was, roots, holds, s, o); }
    }
  }

  lemma FinishPrune(was: Nodes, now: Nodes, epoch: nat, s: Addr)
    requires Partly(was, now, epoch, s, {})
    ensures Pruned(was, now, epoch, s)
  {
    hide Edges, Line;
    forall o | o in was ensures PrunedAt(was, now, epoch, s, o) {
      assert PartlyAt(was, now, epoch, s, {}, o);
    }
  }

  lemma {:induction false} StillRooted(was: Nodes, now: Nodes, roots: set<Addr>, epoch: nat, s: Addr, x: Addr,
                                       todo: set<Key>)
    requires Partly(was, now, epoch, s, todo) && x <= s && Rooted(was, roots, x)
    ensures Rooted(now, roots, x)
    decreases x
  {
    hide Edges, Line;
    assert PartlyAt(was, now, epoch, s, todo, x);
    if x != s && Below(was, x, s) { LineBound(was, x, s); }
    if x !in roots { StillRooted(was, now, roots, epoch, s, was[x].parent.value, todo); }
  }

  lemma TodoEdge(was: Nodes, now: Nodes, epoch: nat, s: Addr, todo: set<Key>, k: Key)
    requires Partly(was, now, epoch, s, todo) && k in todo
    ensures k in Edges(was[s]) && k in Edges(now[s]) && Edges(now[s])[k] == Edges(was[s])[k]
  {
  }

  lemma ShrunkKeys(was: Nodes, now: Nodes, epoch: nat, s: Addr, c: Addr)
    requires ChildPruned(was, now, epoch, s, c)
    ensures now.Keys <= was.Keys
  {
  }

  lemma {:induction false} BelowShrunk(was: Nodes, now: Nodes, o: Addr, c: Addr)
    requires Shrunk(was, now) && o in now && Below(now, o, c)
    ensures Below(was, o, c)
    decreases o
  {
    if o != c {
      var p := now[o].parent.value;
      if p in now {
        BelowShrunk(was, now, p, c);
      } else {
        assert c in Line(now, p) && Line(now, p) == {p};
        LineSelf(was, p);
      }
    }
  }

  lemma {:induction false} BelowKept(was: Nodes, now: Nodes, o: Addr, c: Addr)
    requires o in was && Below(was, o, c)
    requires forall x :: x in was && Below(was, x, c) ==> x in now && now[x] == was[x]
    ensures Below(now, o, c)
    decreases o
  {
    if o != c {
      var p := was[o].parent.value;
      assert Below(was, p, c);
      if p in was { BelowKept(was, now, p, c); } else { LineSelf(now, p); }
    }
  }

  lemma {:induction false} Disjoint(nodes: Nodes, s: Addr, o: Addr, c: Addr, d: Addr)
    requires c in nodes && d in nodes && nodes[c].parent == Some(s) == nodes[d].parent && s < c && s < d
    requires Below(nodes, o, c) && Below(nodes, o, d)
    ensures c == d
    decreases o
  {
    if o == c || o == d {
      if c != d { LineBound(nodes, s, if o == c then d else c); }
    } else {
      Disjoint(nodes, s, nodes[o].parent.value, c, d);
    }
  }

  lemma {:induction false} BelowTrans(nodes: Nodes, o: Addr, c: Addr, s: Addr)
    requires c in nodes && nodes[c].parent == Some(s) && s < c && Below(nodes, o, c)
    ensures Below(nodes, o, s)
    decreases o
  {
    if o == c { LineSelf(nodes, s); } else { BelowTrans(nodes, nodes[o].parent.value, c, s); }
  }

  lemma PartlyStep(was: Nodes, mid: Nodes, now: Nodes, roots: set<Addr>, holds: multiset<Addr>, epoch: nat, s: Addr,
                   todo: set<Key>, k: Key)
    requires Partly(was, mid, epoch, s, todo) && k in todo && TreeOk(was, roots, holds, {})
    requires ChildPruned(mid, now, epoch, s, Edges(was[s])[k])
    requires s in now && forall kk :: kk in Edges(mid[s]) && kk != k ==>
               kk in Edges(now[s]) && Edges(now[s])[kk] == Edges(mid[s])[kk]
    ensures Partly(was, now, epoch, s, todo - {k})
  {
    hide Edges, TreeOk, Line, Waits, Thinned;
    ThinnedThen(was, mid, now);
    var c := Edges(was[s])[k];
    EdgeOk(was, roots, holds, {}, s, k);
    WholeYet(was, mid, roots, holds, epoch, s, todo, k);
    forall o | o in was ensures PartlyAt(was, now, epoch, s, todo - {k}, o) {
      assert PartlyAt(was, mid, epoch, s, todo, o);
      if Below(was, o, c) {
        BelowKept(was, mid, o, c);
        WaitsFor(was, s, todo, k, o);
        NotWaiting(was, roots, holds, s, todo, k, o);
        BelowTrans(was, o, c, s);
        if o == s { LineBound(was, s, c); }
      } else {
        if o in mid && Below(mid, o, c) { BelowShrunk(was, mid, o, c); }
        WaitsSame(was, s, todo, k, o);
      }
    }
  }

  lemma WaitsFor(was: Nodes, s: Addr, todo: set<Key>, k: Key, o: Addr)
    requires s in was && k in todo && k in Edges(was[s]) && Below(was, o, Edges(was[s])[k])
    ensures Waits(was, s, todo, o)
  {
  }

  lemma WaitsSame(was: Nodes, s: Addr, todo: set<Key>, k: Key, o: Addr)
    requires s in was && k in Edges(was[s]) && !Below(was, o, Edges(was[s])[k])
    ensures Waits(was, s, todo - {k}, o) <==> Waits(was, s, todo, o)
  {
    hide Edges, Below;
    if Waits(was, s, todo, o) {
      var kk :| kk in todo && kk in Edges(was[s]) && Below(was, o, Edges(was[s])[kk]);
      assert kk in todo - {k};
    }
  }

  lemma NotWaiting(was: Nodes, roots: set<Addr>, holds: multiset<Addr>, s: Addr, todo: set<Key>, k: Key, o: Addr)
    requires TreeOk(was, roots, holds, {}) && s in was && k in Edges(was[s]) && Below(was, o, Edges(was[s])[k])
    ensures !Waits(was, s, todo - {k}, o)
  {
    hide Edges, TreeOk, Line;
    if Waits(was, s, todo - {k}, o) {
      var kk :| kk in todo - {k} && kk in Edges(was[s]) && Below(was, o, Edges(was[s])[kk]);
      EdgeOk(was, roots, holds, {}, s, k);
      EdgeOk(was, roots, holds, {}, s, kk);
      Disjoint(was, s, o, Edges(was[s])[k], Edges(was[s])[kk]);
    }
  }

  // ---- one child ----

  lemma RootedChild(nodes: Nodes, roots: set<Addr>, s: Addr, c: Addr)
    requires c in nodes && nodes[c].parent == Some(s) && s < c && Rooted(nodes, roots, s)
    ensures Rooted(nodes, roots, c)
  {
  }

  lemma PrunedChild(was: Nodes, mid: Nodes, epoch: nat, s: Addr, c: Addr)
    requires Pruned(was, mid, epoch, c) && s in was && c in was && s < c
    ensures s in mid && mid[s] == was[s] && c in mid && SameButChildren(was[c], mid[c])
  {
    hide Line;
    if Below(was, s, c) { LineBound(was, s, c); }
    assert PrunedAt(was, mid, epoch, c, s) && PrunedAt(was, mid, epoch, c, c);
  }

  /** Marks are closed, so a dead child has no children left after its own prune. */
  lemma UnmarkedChildless(was: Nodes, mid: Nodes, roots: set<Addr>, holds: multiset<Addr>, epoch: nat, c: Addr)
    requires Pruned(was, mid, epoch, c) && Closed(was, roots, epoch) && TreeOk(mid, roots, holds, {})
    requires c in was && c in mid && Rooted(was, roots, c) && was[c].mark != epoch
    ensures Edges(mid[c]) == map[]
  {
    hide Edges, TreeOk;
    forall k | k in Edges(mid[c]) ensures false {
      EdgeOk(mid, roots, holds, {}, c, k);
      var d := Edges(mid[c])[k];
      assert was[d].parent == Some(c);
      LineSelf(was, c);
      assert Below(was, d, c);
      assert PrunedAt(was, mid, epoch, c, d);
      RootedChild(was, roots, c, d);
    }
  }

  lemma KeptPruned(was: Nodes, mid: Nodes, epoch: nat, s: Addr, c: Addr)
    requires Pruned(was, mid, epoch, c) && s in was && c in was && s < c && was[c].mark == epoch
    ensures ChildPruned(was, mid, epoch, s, c)
  {
    hide Line;
    LineSelf(was, c);
    PrunedChild(was, mid, epoch, s, c);
    forall o | o in was
      ensures if o == s then o in mid && SameButChildren(was[o], mid[o])
              else if Below(was, o, c) then Settled(was, mid, epoch, o)
              else o in mid && mid[o] == was[o]
    {
      assert PrunedAt(was, mid, epoch, c, o);
    }
  }

  lemma CutPruned(was: Nodes, mid: Nodes, now: Nodes, epoch: nat, s: Addr, k: Key, c: Addr)
    requires Pruned(was, mid, epoch, c) && s in was && c in was && s < c && was[c].mark != epoch
    requires s in mid && k in Edges(mid[s]) && Edges(mid[s])[k] == c && c in mid
    requires Kept(CutIn(mid, s, k), now) && Untouched(CutIn(mid, s, k), now, c)
    requires Edges(Forgotten(mid[s], k)) == Edges(mid[s]) - {k}
    ensures ChildPruned(was, now, epoch, s, c) && s in now && now[s] == Forgotten(mid[s], k)
  {
    hide Line, Edges, Forgotten;
    var cut := CutIn(mid, s, k);
    ForgottenSame(mid[s], k);
    PrunedChild(was, mid, epoch, s, c);
    forall o | o in cut && o != c ensures o in now && now[o] == cut[o] {
      assert o in cut - {c} && (cut - {c})[o] == cut[o];
      assert o in now - {c} && (now - {c})[o] == now[o];
    }
    assert c in now ==> KeptUp(cut, now, c);
    LineSelf(was, c);
    EdgesSame(mid[c], cut[c]);
    CutThins(mid, now, s, k, c);
    CutOne(was, mid, now, epoch, s, c);
  }

  lemma CutThins(mid: Nodes, now: Nodes, s: Addr, k: Key, c: Addr)
    requires now.Keys <= mid.Keys && s in now && s in mid && c in mid && s != c
    requires Edges(now[s]) == Edges(mid[s]) - {k} && now[s].parentKey == mid[s].parentKey
    requires c in now ==> Edges(now[c]) == Edges(mid[c]) && now[c].parentKey == mid[c].parentKey
    requires forall o :: o in mid && o != c && o != s ==> o in now && now[o] == mid[o]
    ensures Thinned(mid, now)
  {
    hide Edges;
  }

  lemma CutOne(was: Nodes, mid: Nodes, now: Nodes, epoch: nat, s: Addr, c: Addr)
    requires Pruned(was, mid, epoch, c) && s in was && c in was && s < c && was[c].mark != epoch && Below(was, c, c)
    requires now.Keys <= mid.Keys && s in now && SameButChildren(was[s], now[s]) && Thinned(mid, now)
    requires c in now ==> now[c].parent.None? && now[c].mark == was[c].mark
    requires forall o :: o in mid && o != c && o != s ==> o in now && now[o] == mid[o]
    ensures ChildPruned(was, now, epoch, s, c)
  {
    hide Line, Thinned;
    ThinnedThen(was, mid, now);
    forall o | o in was
      ensures if o == s then o in now && SameButChildren(was[o], now[o])
              else if Below(was, o, c) then Settled(was, now, epoch, o)
              else o in now && now[o] == was[o]
    {
      assert PrunedAt(was, mid, epoch, c, o);
    }
  }

  lemma ForgottenSame(n: Node, k: Key)
    ensures SameButChildren(n, Forgotten(n, k))
  {
  }

  // ---- the whole sweep ----

  ghost predicate BelowSome(nodes: Nodes, tops: set<Addr>, o: Addr) {
    exists r :: r in tops && Below(nodes, o, r)
  }

  lemma {:induction false} RootedIffBelow(nodes: Nodes, roots: set<Addr>, holds: multiset<Addr>, o: Addr)
    requires TreeOk(nodes, roots, holds, {}) && o in nodes
    ensures Rooted(nodes, roots, o) <==> BelowSome(nodes, roots, o)
    decreases o
  {
    hide Edges, Down;
    assert Up(nodes, o);
    LineSelf(nodes, o);
    if nodes[o].parent.Some? {
      var p := nodes[o].parent.value;
      RootedIffBelow(nodes, roots, holds, p);
      forall r | r in roots ensures Below(nodes, o, r) <==> r == o || Below(nodes, p, r) {
      }
      assert Counted(nodes[o], o, roots, holds, {});
    }
  }

  lemma {:induction false} TopUnique(nodes: Nodes, o: Addr, r: Addr, q: Addr)
    requires r in nodes && q in nodes && nodes[r].parent.None? && nodes[q].parent.None?
    requires Below(nodes, o, r) && Below(nodes, o, q)
    ensures r == q
    decreases o
  {
    if o != r && o != q { TopUnique(nodes, nodes[o].parent.value, r, q); }
  }

  /** The trees under the roots in `done` are settled; the rest is untouched. */
  ghost predicate Swept(was: Nodes, now: Nodes, roots: set<Addr>, done: set<Addr>, epoch: nat) {
    && Shrunk(was, now) && done <= roots <= was.Keys
    && forall o :: o in was ==> SweptAt(was, now, roots, done, epoch, o)
  }

  ghost predicate SweptAt(was: Nodes, now: Nodes, roots: set<Addr>, done: set<Addr>, epoch: nat, o: Addr)
    requires o in was
  {
    if o in roots then o in now && SameButChildren(was[o], now[o])
    else if BelowSome(was, done, o) then Settled(was, now, epoch, o)
    else o in now && now[o] == was[o]
  }

  lemma SweepStep(was: Nodes, mid: Nodes, now: Nodes, roots: set<Addr>, holds: multiset<Addr>, done: set<Addr>,
                  epoch: nat, r: Addr)
    requires TreeOk(was, roots, holds, {}) && Swept(was, mid, roots, done, epoch) && r in roots
    requires Pruned(mid, now, epoch, r)
    ensures Swept(was, now, roots, done + {r}, epoch)
  {
    hide TreeOk, Line, BelowSome, PrunedAt, SweptAt, Settled, Thinned;
    ThinnedThen(was, mid, now);
    ParentsLive(was, roots, holds, {});
    forall o | o in was ensures SweptAt(was, now, roots, done + {r}, epoch, o) {
      if Below(was, o, r) && r !in done { StillBelow(was, mid, roots, done, epoch, o, r); }
      if o in mid && Below(mid, o, r) { BelowShrunk(was, mid, o, r); }
      if o in roots && Below(was, o, r) {
        LineSelf(was, o);
        TopUnique(was, o, r, o);
      }
      SweepOne(was, mid, now, roots, done, epoch, r, o);
    }
  }

  lemma SweepOne(was: Nodes, mid: Nodes, now: Nodes, roots: set<Addr>, done: set<Addr>, epoch: nat, r: Addr, o: Addr)
    requires o in was && Shrunk(was, mid) && Shrunk(mid, now) && SweptAt(was, mid, roots, done, epoch, o) && r in roots
    requires o in mid ==> PrunedAt(mid, now, epoch, r, o)
    requires Below(was, o, r) && r !in done ==> o in mid && Below(mid, o, r)
    requires o in mid && Below(mid, o, r) ==> Below(was, o, r)
    requires o in roots && Below(was, o, r) ==> o == r
    ensures SweptAt(was, now, roots, done + {r}, epoch, o)
  {
    hide Line, BelowSome, Below;
    BelowMore(was, done, r, o);
    if r in done && Below(was, o, r) { BelowOne(was, done, r, o); }
  }

  /** A tree that has not been swept yet is whole. */
  lemma StillBelow(was: Nodes, mid: Nodes, roots: set<Addr>, done: set<Addr>, epoch: nat, o: Addr, r: Addr)
    requires Swept(was, mid, roots, done, epoch) && r in roots && r !in done && o in was && Below(was, o, r)
    requires forall o :: o in was && was[o].parent.Some? ==> o !in roots
    ensures o in mid && Below(mid, o, r)
  {
    hide Line, BelowSome, Settled;
    forall x | x in was && Below(was, x, r) ensures x in mid && (x != r ==> mid[x] == was[x]) {
      assert SweptAt(was, mid, roots, done, epoch, x);
      OnlyUnder(was, roots, done, x, r);
      if x in roots {
        LineSelf(was, x);
        TopUnique(was, x, r, x);
      }
    }
    BelowKeptTop(was, mid, o, r);
  }

  lemma OnlyUnder(was: Nodes, roots: set<Addr>, done: set<Addr>, x: Addr, r: Addr)
    requires Below(was, x, r) && r in roots && r !in done && done <= roots <= was.Keys
    requires forall o :: o in was && was[o].parent.Some? ==> o !in roots
    ensures !BelowSome(was, done, x)
  {
    hide Line;
    if BelowSome(was, done, x) {
      var q :| q in done && Below(was, x, q);
      TopUnique(was, x, r, q);
    }
  }

  lemma BelowMore(was: Nodes, done: set<Addr>, r: Addr, o: Addr)
    ensures BelowSome(was, done + {r}, o) <==> BelowSome(was, done, o) || Below(was, o, r)
  {
    hide Line, Below;
    if BelowSome(was, done, o) {
      var q :| q in done && Below(was, o, q);
      assert q in done + {r};
    }
    if Below(was, o, r) { assert r in done + {r}; }
  }

  lemma BelowOne(was: Nodes, done: set<Addr>, r: Addr, o: Addr)
    requires r in done && Below(was, o, r)
    ensures BelowSome(was, done, o)
  {
  }

  lemma {:induction false} BelowKeptTop(was: Nodes, now: Nodes, o: Addr, r: Addr)
    requires o in was && Below(was, o, r)
    requires forall x :: x in was && Below(was, x, r) ==> x in now && (x != r ==> now[x] == was[x])
    ensures Below(now, o, r)
    decreases o
  {
    if o == r {
      LineSelf(now, o);
    } else {
      var p := was[o].parent.value;
      assert Below(was, p, r);
      if p in was { BelowKeptTop(was, now, p, r); } else { LineSelf(now, p); }
    }
  }

  /** ant_gc_shapes_sweep: under the roots, exactly the roots and the marked shapes remain. */
  method Sweep(e: Engine) returns (freed: bool)
    requires Ready(e) && e.epoch < EPOCHS
    modifies e, e.store
    ensures Ready(e) && Steady(e)
    ensures forall o :: o in old(e.nodes) ==>
              (Rooted(e.nodes, e.roots.Values, o) <==>
                Rooted(old(e.nodes), e.roots.Values, o) && (o in e.roots.Values || old(e.nodes)[o].mark == e.epoch))
    ensures forall o ::
              o in old(e.nodes) && Rooted(old(e.nodes), e.roots.Values, o) && old(e.nodes)[o].mark == e.epoch ==>
              o in e.nodes && e.nodes[o].parent == old(e.nodes)[o].parent
    ensures forall o :: o in e.nodes && Rooted(e.nodes, e.roots.Values, o) ==>
              o in old(e.nodes) && OnlyMarked(old(e.nodes), e.nodes, e.epoch, o)
    ensures Idle(e.nodes, e.roots.Values, e.epoch)
    ensures old(e.Faithful()) ==> e.Faithful()
    ensures freed <==> exists o :: Garbage(old(e.nodes), e.roots.Values, e.epoch, o)
  {
    hide Shapes.Store.Inv, Shapes.Store.All, TreeOk, Closed, Edges, Line, Rooted, Only, Pruned, Swept, Idle;
    hide FaithfulIn, DeadUnder, DeadIn, OnlyMarked, Garbage, Thinned;
    freed := false;
    ghost var was, roots, all := e.nodes, e.roots.Values, e.store.All();
    ghost var done: set<Addr> := {};
    e.store.AllKeys();
    OnlyAll(all, was.Keys);
    StartSweep(was, roots, e.holds, e.epoch);
    DeadInNone(was, e.epoch);
    for i := 0 to MAX_INOBJ + 1
      invariant Ready(e) && Swept(was, e.nodes, roots, done, e.epoch)
      invariant forall l :: l in e.roots && l < i ==> e.roots[l] in done
      invariant freed <==> DeadIn(was, done, e.epoch)
      invariant e.holds == old(e.holds) && e.roots == old(e.roots) && e.epoch == old(e.epoch)
      invariant e.store.next == old(e.store.next) && e.store.All() == Only(all, e.nodes.Keys)
    {
      if i in e.roots {
        assert e.roots[i] in e.roots.Values;
        DeadInMore(was, done, e.epoch, e.roots[i]);
        var f := SweepRoot(e, e.roots[i], done, was, all);
        freed := freed || f;
        done := done + {e.roots[i]};
      }
    }
    assert done == roots by { AllDone(e.roots, done, was, e.nodes, e.epoch); }
    SweptExact(was, e.nodes, roots, e.holds, e.epoch);
    SweptEdges(was, e.nodes, roots, e.holds, e.epoch);
    SweptThins(was, e.nodes, roots, done, e.epoch);
    ThinnedFaithful(was, e.nodes, roots, e.holds, all);
    DeadInRoots(was, roots, e.holds, e.epoch);
  }

  /** An unmarked shape under the roots that is not itself a root. */
  ghost predicate Garbage(nodes: Nodes, roots: set<Addr>, epoch: nat, o: Addr) {
    o in nodes && o !in roots && Rooted(nodes, roots, o) && nodes[o].mark != epoch
  }

  /** The recorded children of o are those it had that are marked, under their old keys. */
  ghost predicate OnlyMarked(was: Nodes, now: Nodes, epoch: nat, o: Addr)
    requires o in was && o in now
  {
    && now[o].parentKey == was[o].parentKey
    && (forall k :: k in Edges(now[o]) <==>
          k in Edges(was[o]) && Edges(was[o])[k] in was && was[Edges(was[o])[k]].mark == epoch)
    && forall k :: k in Edges(now[o]) ==> k in Edges(was[o]) && Edges(now[o])[k] == Edges(was[o])[k]
  }

  lemma SweptThins(was: Nodes, now: Nodes, roots: set<Addr>, done: set<Addr>, epoch: nat)
    requires Swept(was, now, roots, done, epoch)
    ensures Thinned(was, now) && now.Keys <= was.Keys
  {
  }

  lemma SweptEdges(was: Nodes, now: Nodes, roots: set<Addr>, holds: multiset<Addr>, epoch: nat)
    requires TreeOk(was, roots, holds, {}) && TreeOk(now, roots, holds, {}) && Swept(was, now, roots, roots, epoch)
    ensures forall o :: o in now && Rooted(now, roots, o) ==> o in was && OnlyMarked(was, now, epoch, o)
  {
    hide TreeOk, Edges, Rooted, Line;
    forall o | o in now && Rooted(now, roots, o) ensures o in was && OnlyMarked(was, now, epoch, o) {
      assert ThinnedAt(was[o], now[o]);
      forall k | k in Edges(was[o])
        ensures k in Edges(now[o]) <==> Edges(was[o])[k] in was && was[Edges(was[o])[k]].mark == epoch
      {
        RootedShrunk(was, now, roots, o);
        SweptEdge(was, now, roots, holds, epoch, o, k);
      }
    }
  }

  lemma SweptEdge(was: Nodes, now: Nodes, roots: set<Addr>, holds: multiset<Addr>, epoch: nat, o: Addr, k: Key)
    requires TreeOk(was, roots, holds, {}) && TreeOk(now, roots, holds, {}) && Swept(was, now, roots, roots, epoch)
    requires o in was && o in now && Rooted(was, roots, o) && k in Edges(was[o])
    ensures Edges(was[o])[k] in was
    ensures k in Edges(now[o]) <==> was[Edges(was[o])[k]].mark == epoch
  {
    EdgeOk(was, roots, holds, {}, o, k);
    var c := Edges(was[o])[k];
    ParentsLive(was, roots, holds, {});
    RootedChild(was, roots, o, c);
    RootedIffBelow(was, roots, holds, c);
    if c in now { assert Up(now, c); }
    hide TreeOk, Edges, Rooted, Line, BelowSome;
    assert SweptAt(was, now, roots, roots, epoch, c);
    if k in Edges(now[o]) {
      assert ThinnedAt(was[o], now[o]);
      EdgeOk(now, roots, holds, {}, o, k);
    }
    if was[c].mark == epoch { assert ThinnedAt(was[c], now[c]); }
  }

  /** An unmarked shape is strictly below one of these roots. */
  ghost predicate DeadIn(nodes: Nodes, tops: set<Addr>, epoch: nat) {
    exists r :: r in tops && DeadUnder(nodes, epoch, r)
  }

  lemma DeadInNone(nodes: Nodes, epoch: nat)
    ensures !DeadIn(nodes, {}, epoch)
  {
  }

  lemma DeadInMore(nodes: Nodes, tops: set<Addr>, epoch: nat, r: Addr)
    ensures DeadIn(nodes, tops + {r}, epoch) <==> DeadIn(nodes, tops, epoch) || DeadUnder(nodes, epoch, r)
    ensures r in tops && DeadUnder(nodes, epoch, r) ==> DeadIn(nodes, tops, epoch)
  {
    hide DeadUnder;
    if DeadIn(nodes, tops, epoch) {
      var q :| q in tops && DeadUnder(nodes, epoch, q);
      assert q in tops + {r};
    }
    if DeadUnder(nodes, epoch, r) { assert r in tops + {r}; }
  }

  lemma DeadInRoots(nodes: Nodes, roots: set<Addr>, holds: multiset<Addr>, epoch: nat)
    requires TreeOk(nodes, roots, holds, {})
    ensures DeadIn(nodes, roots, epoch) <==> exists o :: Garbage(nodes, roots, epoch, o)
  {
    ParentsLive(nodes, roots, holds, {});
    assert roots <= nodes.Keys;
    hide TreeOk, Rooted, Line;
    if DeadIn(nodes, roots, epoch) {
      var r :| r in roots && DeadUnder(nodes, epoch, r);
      var o :| o in nodes && o != r && Below(nodes, o, r) && nodes[o].mark != epoch;
      RootedIffBelow(nodes, roots, holds, o);
      if o in roots {
        LineSelf(nodes, o);
        TopUnique(nodes, o, r, o);
      }
      assert Garbage(nodes, roots, epoch, o);
    }
    if exists o :: Garbage(nodes, roots, epoch, o) {
      var o :| Garbage(nodes, roots, epoch, o);
      RootedIffBelow(nodes, roots, holds, o);
      var r :| r in roots && Below(nodes, o, r);
      assert DeadUnder(nodes, epoch, r);
    }
  }

  /** A tree not yet swept has what it had. */
  lemma DeadSwept(was: Nodes, mid: Nodes, roots: set<Addr>, holds: multiset<Addr>, done: set<Addr>, epoch: nat, r: Addr)
    requires TreeOk(was, roots, holds, {}) && Swept(was, mid, roots, done, epoch) && r in roots
    ensures DeadUnder(mid, epoch, r) ==> DeadUnder(was, epoch, r)
    ensures r !in done && DeadUnder(was, epoch, r) ==> DeadUnder(mid, epoch, r)
  {
    ParentsLive(was, roots, holds, {});
    hide TreeOk, Line, Thinned;
    if DeadUnder(mid, epoch, r) {
      var o :| o in mid && o != r && Below(mid, o, r) && mid[o].mark != epoch;
      BelowShrunk(was, mid, o, r);
    }
    if r !in done && DeadUnder(was, epoch, r) {
      var o :| o in was && o != r && Below(was, o, r) && was[o].mark != epoch;
      StillBelow(was, mid, roots, done, epoch, o, r);
    }
  }

  method SweepRoot(e: Engine, r: Addr, ghost done: set<Addr>, ghost was: Nodes, ghost all: AllViews)
    returns (freed: bool)
    requires Ready(e) && r in e.roots.Values && Swept(was, e.nodes, e.roots.Values, done, e.epoch)
    requires TreeOk(was, e.roots.Values, e.holds, {}) && e.store.All() == Only(all, e.nodes.Keys)
    modifies e, e.store
    ensures e.holds == old(e.holds) && e.roots == old(e.roots) && e.epoch == old(e.epoch)
    ensures e.store.next == old(e.store.next) && e.store.All() == Only(all, e.nodes.Keys)
    ensures Ready(e) && Swept(was, e.nodes, e.roots.Values, done + {r}, e.epoch)
    ensures freed ==> DeadUnder(was, e.epoch, r)
    ensures r !in done && DeadUnder(was, e.epoch, r) ==> freed
  {
    hide Shapes.Store.Inv, Shapes.Store.All, TreeOk, Closed, Edges, Line, Rooted, Only, Pruned, Swept, DeadUnder;
    ghost var mid := e.nodes;
    DeadSwept(was, mid, e.roots.Values, e.holds, done, e.epoch, r);
    RootLive(e.nodes, e.roots.Values, e.holds, r);
    RootRooted(e.nodes, e.roots.Values, r);
    freed := Prune(e, r);
    SweepStep(was, mid, e.nodes, e.roots.Values, e.holds, done, e.epoch, r);
    PrunedKeys(mid, e.nodes, e.epoch, r);
    OnlyTwice(all, mid.Keys, e.nodes.Keys);
  }

  lemma PrunedKeys(was: Nodes, now: Nodes, epoch: nat, s: Addr)
    requires Pruned(was, now, epoch, s)
    ensures now.Keys <= was.Keys
  {
  }

  lemma RootRooted(nodes: Nodes, roots: set<Addr>, r: Addr)
    requires r in roots && r in nodes
    ensures Rooted(nodes, roots, r)
  {
  }

  lemma StartSweep(was: Nodes, roots: set<Addr>, holds: multiset<Addr>, epoch: nat)
    requires TreeOk(was, roots, holds, {})
    ensures Swept(was, was, roots, {}, epoch)
  {
    ThinnedSame(was);
    hide Edges, Thinned;
  }

  lemma AllDone(roots: map<nat, Addr>, done: set<Addr>, was: Nodes, now: Nodes, epoch: nat)
    requires forall l :: l in roots ==> roots[l] in done
    requires Swept(was, now, roots.Values, done, epoch)
    ensures done == roots.Values
  {
  }

  lemma SweptExact(was: Nodes, now: Nodes, roots: set<Addr>, holds: multiset<Addr>, epoch: nat)
    requires TreeOk(was, roots, holds, {}) && Swept(was, now, roots, roots, epoch) && Closed(was, roots, epoch)
             && epoch < EPOCHS
    ensures forall o :: o in was ==>
              (Rooted(now, roots, o) <==> Rooted(was, roots, o) && (o in roots || was[o].mark == epoch))
    ensures forall o :: o in was && Rooted(was, roots, o) && was[o].mark == epoch ==>
              o in now && now[o].parent == was[o].parent
    ensures Idle(now, roots, epoch)
  {
    hide TreeOk, Rooted;
    forall o | o in was
      ensures Rooted(now, roots, o) <==> Rooted(was, roots, o) && (o in roots || was[o].mark == epoch)
    {
      SweptOne(was, now, roots, holds, epoch, o);
    }
    forall o | o in was && Rooted(was, roots, o) && was[o].mark == epoch
      ensures o in now && now[o].parent == was[o].parent
    {
      RootedIffBelow(was, roots, holds, o);
      assert SweptAt(was, now, roots, roots, epoch, o);
    }
  }

  lemma {:induction false} SweptOne(was: Nodes, now: Nodes, roots: set<Addr>, holds: multiset<Addr>, epoch: nat,
                                    o: Addr)
    requires TreeOk(was, roots, holds, {}) && Swept(was, now, roots, roots, epoch) && Closed(was, roots, epoch)
             && o in was
    ensures Rooted(now, roots, o) <==> Rooted(was, roots, o) && (o in roots || was[o].mark == epoch)
    decreases o
  {
    hide TreeOk, Line;
    ParentsLive(was, roots, holds, {});
    RootedIffBelow(was, roots, holds, o);
    assert SweptAt(was, now, roots, roots, epoch, o);
    if Rooted(now, roots, o) { RootedShrunk(was, now, roots, o); }
    if o !in roots && was[o].parent.Some? { SweptOne(was, now, roots, holds, epoch, was[o].parent.value); }
  }
}
