/**
 The transition tree over shapes: which shape is the child of which, and who holds whom.

 This module is about the bare tree (addresses, reference counts, recorded children);
 what the shapes mean is module Shapes'.  References held by objects and caches are
 counted in a multiset `holds`.  Addresses are handed out in increasing order, so a
 child's address is above its parent's.
 */
module ShapeTree {
  import opened Basics
  import opened ShapeIndex
  import opened ShapeRecord

  datatype Node = Node(
    refCount: nat,
    mark: nat,
    first: Option<(Key, Addr)>,    // first_child_key and first_child
    rest: map<Key, Addr>,          // children
    parent: Option<Addr>,
    parentKey: Key)

  type Nodes = map<Addr, Node>

  /** All recorded children by child key. */
  function Edges(n: Node): map<Key, Addr> {
    match n.first
    case None => n.rest
    case Some((k, c)) => n.rest[k := c]
  }

  ghost predicate Down(nodes: Nodes, s: Addr)
    requires s in nodes
  {
    forall k :: k in Edges(nodes[s]) ==> IsChild(nodes, s, k, Edges(nodes[s])[k])
  }

  ghost predicate IsChild(nodes: Nodes, p: Addr, k: Key, c: Addr) {
    c in nodes && nodes[c].parent == Some(p) && nodes[c].parentKey == k
  }

  ghost predicate Up(nodes: Nodes, s: Addr)
    requires s in nodes
  {
    nodes[s].parent.Some? ==>
      var p := nodes[s].parent.value;
      p in nodes && p < s && nodes[s].parentKey in Edges(nodes[p]) && Edges(nodes[p])[nodes[s].parentKey] == s
  }

  ghost predicate Counted(n: Node, s: Addr, roots: set<Addr>, holds: multiset<Addr>, dying: set<Addr>) {
    && (n.first.Some? ==> n.first.value.0 !in n.rest)
    && (n.parent.Some? ==> s !in roots)
    && n.refCount == holds[s] + (if n.parent.Some? then 1 else 0) + (if s in roots then 1 else 0)
    && (n.refCount > 0 || s in dying)
  }

  /** Reference counts are exact; parents and recorded children point at each other. */
  ghost predicate TreeOk(nodes: Nodes, roots: set<Addr>, holds: multiset<Addr>, dying: set<Addr>) {
    && roots <= nodes.Keys
    && (forall s :: s in holds ==> s in nodes)
    && (forall s :: s in nodes ==> Down(nodes, s) && Up(nodes, s))
    && (forall s :: s in nodes ==> Counted(nodes[s], s, roots, holds, dying))
  }

  // ---- primitive steps ----

  /** Links depend only on links. */
  lemma Relink(nodes: Nodes, nodes': Nodes)
    requires nodes'.Keys == nodes.Keys
    requires forall o :: o in nodes ==> nodes'[o].parent == nodes[o].parent && nodes'[o].parentKey == nodes[o].parentKey
    requires forall o :: o in nodes ==> Edges(nodes'[o]) == Edges(nodes[o])
    requires forall s :: s in nodes ==> Down(nodes, s) && Up(nodes, s)
    ensures forall s :: s in nodes' ==> Down(nodes', s) && Up(nodes', s)
  {
    forall t | t in nodes' ensures Down(nodes', t) && Up(nodes', t) {
      assert Down(nodes, t) && Up(nodes, t);
    }
  }

  lemma EdgesSame(n: Node, m: Node)
    requires n.first == m.first && n.rest == m.rest
    ensures Edges(n) == Edges(m)
  {
  }

  lemma RetainOk(nodes: Nodes, roots: set<Addr>, holds: multiset<Addr>, dying: set<Addr>, s: Addr)
    requires TreeOk(nodes, roots, holds, dying) && s in nodes
    ensures TreeOk(nodes[s := nodes[s].(refCount := nodes[s].refCount + 1)], roots, holds + multiset{s}, dying)
  {
    hide Down, Up, Edges;
    var nodes', holds' := nodes[s := nodes[s].(refCount := nodes[s].refCount + 1)], holds + multiset{s};
    EdgesSame(nodes[s], nodes'[s]);
    Relink(nodes, nodes');
  }

  lemma UnrefOk(nodes: Nodes, roots: set<Addr>, holds: multiset<Addr>, dying: set<Addr>, s: Addr)
    requires TreeOk(nodes, roots, holds, dying) && s in holds
    ensures s in nodes && nodes[s].refCount > 0
    ensures TreeOk(nodes[s := nodes[s].(refCount := nodes[s].refCount - 1)], roots, holds - multiset{s},
                   if nodes[s].refCount == 1 then dying + {s} else dying)
  {
    hide Down, Up, Edges;
    assert Counted(nodes[s], s, roots, holds, dying);
    EdgesSame(nodes[s], nodes[s].(refCount := nodes[s].refCount - 1));
    Relink(nodes, nodes[s := nodes[s].(refCount := nodes[s].refCount - 1)]);
  }

  /** shape_record_child: the first child has a slot of its own. */
  function Recorded(n: Node, k: Key, c: Addr): (r: Node)
    ensures k !in Edges(n) ==> Edges(r) == Edges(n)[k := c]
  {
    if n.first.None? then n.(first := Some((k, c))) else n.(rest := n.rest[k := c])
  }

  function RecordedIn(nodes: Nodes, p: Addr, k: Key, c: Addr): Nodes
    requires p in nodes && c in nodes
  {
    nodes[p := Recorded(nodes[p], k, c)]
         [c := nodes[c].(refCount := nodes[c].refCount + 1, parent := Some(p), parentKey := k)]
  }

  lemma RecordOk(nodes: Nodes, roots: set<Addr>, holds: multiset<Addr>, dying: set<Addr>, p: Addr, k: Key, c: Addr)
    requires TreeOk(nodes, roots, holds, dying) && p in nodes && c in nodes && p < c
    requires nodes[c].parent.None? && c !in roots && k !in Edges(nodes[p])
    ensures TreeOk(RecordedIn(nodes, p, k, c), roots, holds, dying)
  {
    hide Down, Up;
    var nodes' := RecordedIn(nodes, p, k, c);
    forall t | t in nodes' ensures Counted(nodes'[t], t, roots, holds, dying) {
      assert Counted(nodes[t], t, roots, holds, dying);
    }
    forall o | o in nodes && o != p ensures Edges(nodes'[o]) == Edges(nodes[o]) {
    }
    RecordLinks(nodes, nodes', p, k, c);
  }

  lemma RecordLinks(nodes: Nodes, nodes': Nodes, p: Addr, k: Key, c: Addr)
    requires forall s :: s in nodes ==> Down(nodes, s) && Up(nodes, s)
    requires p in nodes && c in nodes && p < c && nodes[c].parent.None? && k !in Edges(nodes[p])
    requires nodes'.Keys == nodes.Keys && nodes'[c].parent == Some(p) && nodes'[c].parentKey == k
    requires forall o :: o in nodes && o != c ==>
               nodes'[o].parent == nodes[o].parent && nodes'[o].parentKey == nodes[o].parentKey
    requires forall o :: o in nodes && o != p ==> Edges(nodes'[o]) == Edges(nodes[o])
    requires Edges(nodes'[p]) == Edges(nodes[p])[k := c]
    ensures forall s :: s in nodes' ==> Down(nodes', s) && Up(nodes', s)
  {
    forall t | t in nodes' ensures Down(nodes', t) && Up(nodes', t) {
      assert Down(nodes, t) && Up(nodes, t);
    }
  }

  /** Forgets the recorded child under k (shape_detach_child, or the loops that clear a table). */
  function Forgotten(n: Node, k: Key): (r: Node)
    ensures (n.first.Some? ==> n.first.value.0 !in n.rest) ==> Edges(r) == Edges(n) - {k}
  {
    if n.first.Some? && n.first.value.0 == k then n.(first := None) else n.(rest := n.rest - {k})
  }

  function CutIn(nodes: Nodes, p: Addr, k: Key): Nodes
    requires p in nodes && k in Edges(nodes[p]) && Edges(nodes[p])[k] in nodes
  {
    var c := Edges(nodes[p])[k];
    nodes[p := Forgotten(nodes[p], k)][c := nodes[c].(parent := None)]
  }

  lemma EdgeOk(nodes: Nodes, roots: set<Addr>, holds: multiset<Addr>, dying: set<Addr>, p: Addr, k: Key)
    requires TreeOk(nodes, roots, holds, dying) && p in nodes && k in Edges(nodes[p])
    ensures var c := Edges(nodes[p])[k];
            c in nodes && p < c && nodes[c].parent == Some(p) && nodes[c].parentKey == k && nodes[c].refCount > 0
  {
    hide Edges;
    assert Down(nodes, p);
    assert IsChild(nodes, p, k, Edges(nodes[p])[k]);
    assert Up(nodes, Edges(nodes[p])[k]);
  }

  /** Cutting an edge hands the child's reference to whoever cut it. */
  lemma CutOk(nodes: Nodes, roots: set<Addr>, holds: multiset<Addr>, dying: set<Addr>, p: Addr, k: Key)
    requires TreeOk(nodes, roots, holds, dying) && p in nodes && k in Edges(nodes[p])
    ensures Edges(nodes[p])[k] in nodes && p < Edges(nodes[p])[k]
    ensures TreeOk(CutIn(nodes, p, k), roots, holds + multiset{Edges(nodes[p])[k]}, dying)
    ensures Edges(CutIn(nodes, p, k)[p]) == Edges(nodes[p]) - {k}
  {
    hide Down, Up;
    EdgeOk(nodes, roots, holds, dying, p, k);
    assert Counted(nodes[p], p, roots, holds, dying);
    var c := Edges(nodes[p])[k];
    var nodes', holds' := CutIn(nodes, p, k), holds + multiset{c};
    forall t | t in nodes' ensures Counted(nodes'[t], t, roots, holds', dying) {
      assert Counted(nodes[t], t, roots, holds, dying);
    }
    forall o | o in nodes && o != p ensures Edges(nodes'[o]) == Edges(nodes[o]) {
    }
    CutLinks(nodes, nodes', p, k, c);
  }

  lemma CutLinks(nodes: Nodes, nodes': Nodes, p: Addr, k: Key, c: Addr)
    requires forall s :: s in nodes ==> Down(nodes, s) && Up(nodes, s)
    requires p in nodes && c in nodes && k in Edges(nodes[p]) && Edges(nodes[p])[k] == c
    requires nodes'.Keys == nodes.Keys && nodes'[c].parent == None
    requires forall o :: o in nodes && o != c ==>
               nodes'[o].parent == nodes[o].parent && nodes'[o].parentKey == nodes[o].parentKey
    requires forall o :: o in nodes && o != p ==> Edges(nodes'[o]) == Edges(nodes[o])
    requires Edges(nodes'[p]) == Edges(nodes[p]) - {k}
    ensures forall s :: s in nodes' ==> Down(nodes', s) && Up(nodes', s)
  {
    assert Down(nodes, p) && IsChild(nodes, p, k, c);
    forall t | t in nodes' ensures Down(nodes', t) && Up(nodes', t) {
      assert Down(nodes, t) && Up(nodes, t);
      forall kk | kk in Edges(nodes'[t]) ensures IsChild(nodes', t, kk, Edges(nodes'[t])[kk]) {
        assert IsChild(nodes, t, kk, Edges(nodes[t])[kk]);
      }
    }
  }

  lemma RemoveOk(nodes: Nodes, roots: set<Addr>, holds: multiset<Addr>, dying: set<Addr>, s: Addr)
    requires TreeOk(nodes, roots, holds, dying) && s in nodes && nodes[s].refCount == 0 && Edges(nodes[s]) == map[]
    ensures TreeOk(nodes - {s}, roots, holds, dying - {s})
  {
    hide Edges;
    assert Counted(nodes[s], s, roots, holds, dying) && Up(nodes, s);
    var nodes' := nodes - {s};
    forall t | t in nodes' ensures Down(nodes', t) && Up(nodes', t) {
      assert Down(nodes, t) && Up(nodes, t);
    }
  }

  const LONE := Node(1, 0, None, map[], None, 0)

  lemma AddOk(nodes: Nodes, roots: set<Addr>, holds: multiset<Addr>, dying: set<Addr>, s: Addr)
    requires TreeOk(nodes, roots, holds, dying) && s !in nodes
    ensures TreeOk(nodes[s := LONE], roots, holds + multiset{s}, dying)
    ensures TreeOk(nodes[s := LONE], roots + {s}, holds, dying)
  {
    hide Edges;
    var nodes' := nodes[s := LONE];
    assert s !in holds;
    LoneEdges();
    forall t | t in nodes' ensures Down(nodes', t) && Up(nodes', t) {
      assert t != s ==> Down(nodes, t) && Up(nodes, t);
    }
    assert s !in roots;
  }

  lemma LoneEdges()
    ensures Edges(LONE) == map[]
  {
  }

  // ---- what a release keeps ----

  /** A reference from outside or the root slot keeps s, directly or through its ancestors. */
  ghost predicate Anchored(nodes: Nodes, roots: set<Addr>, holds: multiset<Addr>, s: Addr)
    decreases s
  {
    s in nodes &&
    (s in roots || s in holds || (nodes[s].parent.Some? && nodes[s].parent.value < s
                                  && Anchored(nodes, roots, holds, nodes[s].parent.value)))
  }

  /** Survivors keep their children and marks, and their parent if it survives. */
  ghost predicate Kept(nodes: Nodes, nodes': Nodes) {
    && nodes'.Keys <= nodes.Keys
    && forall o :: o in nodes' ==> Edges(nodes'[o]) == Edges(nodes[o]) && KeptUp(nodes, nodes', o)
  }

  ghost predicate KeptUp(nodes: Nodes, nodes': Nodes, o: Addr)
    requires o in nodes && o in nodes'
  {
    && nodes'[o].mark == nodes[o].mark && nodes'[o].parentKey == nodes[o].parentKey
    && nodes'[o].parent == if nodes[o].parent.Some? && nodes[o].parent.value in nodes' then nodes[o].parent else None
  }

  /** Nothing leaks: every live shape is anchored. */
  lemma {:induction false} NoLeak(nodes: Nodes, roots: set<Addr>, holds: multiset<Addr>, s: Addr)
    requires TreeOk(nodes, roots, holds, {}) && s in nodes
    ensures Anchored(nodes, roots, holds, s)
    decreases s
  {
    hide Edges, Down;
    assert Counted(nodes[s], s, roots, holds, {}) && Up(nodes, s);
    if nodes[s].parent.Some? { NoLeak(nodes, roots, holds, nodes[s].parent.value); }
  }

  /** What frees shapes frees exactly those that nothing anchors any more; shapes still being freed anchor theirs. */
  lemma {:induction false} SurvivesIffAnchored(nodes: Nodes, nodes': Nodes, roots: set<Addr>, was: multiset<Addr>,
                                               holds: multiset<Addr>, before: set<Addr>, dying: set<Addr>, s: Addr)
    requires TreeOk(nodes, roots, was, before) && TreeOk(nodes', roots, holds, dying) && Kept(nodes, nodes')
             && s in nodes
    requires forall o :: o in dying && o in nodes ==> o in nodes'
    ensures s in nodes' <==> Anchored(nodes, roots + dying, holds, s)
    decreases s
  {
    hide Edges;
    assert Up(nodes, s);
    if nodes[s].parent.Some? {
      var p := nodes[s].parent.value;
      SurvivesIffAnchored(nodes, nodes', roots, was, holds, before, dying, p);
      if p in nodes' {
        assert Down(nodes', p);
        assert IsChild(nodes', p, nodes[s].parentKey, s);
      }
    }
    if s in nodes' {
      assert Counted(nodes'[s], s, roots, holds, dying);
    }
  }

  /** Kept, while s is losing its children one by one. */
  ghost predicate KeptBut(nodes: Nodes, nodes': Nodes, s: Addr) {
    && nodes'.Keys <= nodes.Keys
    && (forall o :: o in nodes' && o != s ==> Edges(nodes'[o]) == Edges(nodes[o]))
    && (forall o :: o in nodes' && o != s ==>
          && nodes'[o].mark == nodes[o].mark && nodes'[o].parentKey == nodes[o].parentKey
          && (nodes'[o].parent == nodes[o].parent || (nodes'[o].parent.None? && nodes[o].parent == Some(s))
              || (nodes'[o].parent.None? && nodes[o].parent.value !in nodes')))
  }

  lemma KeptButThenCut(a: Nodes, b: Nodes, s: Addr, k: Key)
    requires KeptBut(a, b, s) && s in b && k in Edges(b[s])
    requires Edges(b[s])[k] in b && Edges(b[s])[k] != s && b[Edges(b[s])[k]].parent == Some(s)
    ensures KeptBut(a, CutIn(b, s, k), s)
  {
  }

  lemma KeptButThen(a: Nodes, b: Nodes, c: Nodes, s: Addr)
    requires KeptBut(a, b, s) && Kept(b, c) && s in c
    ensures KeptBut(a, c, s)
  {
    hide Edges;
    forall o | o in c && o != s
      ensures (c[o].parent == a[o].parent || (c[o].parent.None? && a[o].parent == Some(s))
               || (c[o].parent.None? && a[o].parent.value !in c))
    {
      assert KeptUp(b, c, o);
    }
  }

  lemma KeptButDone(a: Nodes, b: Nodes, s: Addr, roots: set<Addr>, holds: multiset<Addr>, dying: set<Addr>)
    requires KeptBut(a, b, s) && TreeOk(b, roots, holds, dying) && s in b && Edges(b[s]) == map[]
    ensures Kept(a, b - {s})
  {
    hide Edges;
    var c := b - {s};
    forall o | o in c ensures Edges(c[o]) == Edges(a[o]) && KeptUp(a, c, o) {
      assert Up(b, o);
    }
  }
}
