/**
 Shapes as the runtime uses them: a transition tree of reference-counted shapes on top
 of the copy-on-write store.
 */
module ShapeEngine {
  import opened Basics
  import opened ShapeIndex
  import opened ShapeProps
  import opened ShapeRecord
  import opened ShapeTree
  import Shapes
  import ShapeStore

  const MAX_INOBJ: nat := 4
  const KEY_SPAN: int := 0x100_0000_0000_0000
  const TRANSITION_MAX_PROPS: nat := 1024

  /** Property keys leave the top byte, where a child key carries the attributes, free. */
  predicate IsPropKey(k: Key) {
    0 < k < KEY_SPAN
  }

  /** shape_child_key: with a free top byte, the exclusive or is an addition. */
  function ChildKey(k: Key, attrs: Attrs): (ck: Key)
    requires IsPropKey(k)
    ensures ck % KEY_SPAN == k && ck / KEY_SPAN == attrs
  {
    k + attrs * KEY_SPAN
  }

  /** What a recorded transition claims to do to a property list. */
  function Step(v: View, ck: Key): View {
    Add(v, ck % KEY_SPAN, ck / KEY_SPAN)
  }

  type AllViews = map<Addr, View>

  /** Every recorded child is its parent plus one property, and roots are empty. */
  ghost predicate FaithfulIn(nodes: Nodes, roots: set<Addr>, all: AllViews) {
    && (forall p, k :: p in nodes && k in Edges(nodes[p]) ==> EdgeRight(all, p, k, Edges(nodes[p])[k]))
    && (forall r :: r in roots ==> r in all && all[r] == [])
  }

  ghost predicate EdgeRight(all: AllViews, p: Addr, k: Key, c: Addr) {
    p in all && c in all && all[c] == Step(all[p], k)
  }

  /** Live shapes stay where they are; newcomers are unmarked. */
  ghost predicate Grown(nodes: Nodes, nodes': Nodes) {
    && nodes.Keys <= nodes'.Keys
    && (forall o :: o in nodes ==> nodes'[o].mark == nodes[o].mark && nodes'[o].parent == nodes[o].parent)
    && (forall o :: o in nodes' && o !in nodes ==> nodes'[o].mark == 0)
  }

  /** The new shape t is on s's record exactly when that was free to grow and t's list extends s's. */
  ghost predicate Shares(was: ShapeStore.Shapes, now: ShapeStore.Shapes, s: Addr, t: Addr, v: View, w: View) {
    && s in now && t in now
    && (now[t].descriptors == now[s].descriptors <==> Shapes.Shareable(was, s, v) && v <= w)
    && Shapes.KeepsAlone(was, now, s, v)
  }

  /** Some shapes are gone; the others are as they were. */
  ghost predicate Fewer(was: ShapeStore.Shapes, now: ShapeStore.Shapes) {
    now.Keys <= was.Keys && forall o :: o in now ==> now[o] == was[o]
  }

  lemma FewerRefl(shapes: ShapeStore.Shapes)
    ensures Fewer(shapes, shapes)
  {
  }

  lemma FewerThen(a: ShapeStore.Shapes, b: ShapeStore.Shapes, c: ShapeStore.Shapes)
    requires Fewer(a, b) && Fewer(b, c)
    ensures Fewer(a, c)
  {
  }

  /** Of the old shapes, those are left that something anchors. */
  ghost predicate Exactly(nodes: Nodes, nodes': Nodes, roots: set<Addr>, holds: multiset<Addr>) {
    forall o :: o in nodes ==> (o in nodes' <==> Anchored(nodes, roots, holds, o))
  }

  lemma Survivors(nodes: Nodes, nodes': Nodes, roots: set<Addr>, holds: multiset<Addr>, dying: set<Addr>, s: Addr)
    requires TreeOk(nodes, roots, holds, dying) && TreeOk(nodes', roots, holds, dying - {s}) && Kept(nodes, nodes')
    requires forall o :: o in dying ==> o <= s
    requires forall o :: o in nodes && o < s ==> o in nodes'
    ensures Exactly(nodes, nodes', roots + (dying - {s}), holds)
  {
    hide TreeOk, Kept, Anchored;
    forall o | o in nodes ensures o in nodes' <==> Anchored(nodes, roots + (dying - {s}), holds, o) {
      SurvivesIffAnchored(nodes, nodes', roots, holds, holds, dying, dying - {s}, o);
    }
  }

  /** New roots are new shapes. */
  ghost predicate RootsGrown(roots: set<Addr>, roots': set<Addr>, nodes: Nodes, nodes': Nodes) {
    roots <= roots' <= roots + (nodes'.Keys - nodes.Keys)
  }

  lemma RootsSame(roots: set<Addr>, nodes: Nodes)
    ensures RootsGrown(roots, roots, nodes, nodes)
  {
  }

  lemma RootsGrownCount(roots: set<Addr>, roots': set<Addr>, n0: Nodes, n1: Nodes, n2: Nodes)
    requires RootsGrown(roots, roots', n0, n1) && n2.Keys == n1.Keys
    ensures RootsGrown(roots, roots', n0, n2)
  {
  }

  class Engine {
    const store: Shapes.Store
    var nodes: Nodes
    var roots: map<nat, Addr>
    var epoch: nat
    ghost var holds: multiset<Addr>

    ghost predicate Sound(dying: set<Addr>)
      reads this, store
    {
      && store.Inv() && nodes.Keys == store.shapes.Keys && TreeOk(nodes, roots.Values, holds, dying)
      && forall l :: l in roots ==> l <= MAX_INOBJ
    }

    ghost predicate Valid()
      reads this, store
    {
      Sound({})
    }

    ghost predicate Faithful()
      reads this, store
    {
      FaithfulIn(nodes, roots.Values, store.All())
    }

    constructor (hash: Key -> nat)
      ensures Valid() && Faithful() && nodes == map[] && roots == map[] && epoch == 0 && holds == multiset{}
              && fresh(store)
    {
      hide Shapes.Store.Inv, Shapes.Store.All, TreeOk, FaithfulIn;
      store := new Shapes.Store(hash);
      nodes, roots, epoch, holds := map[], map[], 0, multiset{};
      new;
      EmptyTree(store.All());
      assert roots.Values == {};
    }

    /** ant_shape_retain */
    method Retain(s: Addr)
      requires Valid() && s in nodes
      modifies this
      ensures Valid() && holds == old(holds) + multiset{s} && roots == old(roots) && epoch == old(epoch)
      ensures nodes == old(nodes)[s := old(nodes)[s].(refCount := old(nodes)[s].refCount + 1)]
      ensures Faithful() <==> old(Faithful())
    {
      hide TreeOk, FaithfulIn, Shapes.Store.Inv, Shapes.Store.All;
      RetainOk(nodes, roots.Values, holds, {}, s);
      nodes := nodes[s := nodes[s].(refCount := nodes[s].refCount + 1)];
      FaithfulCount(old(nodes), nodes, roots.Values, store.All(), s);
      holds := holds + multiset{s};
    }

    /** ant_shape_release: frees exactly what nothing anchors any more. */
    method Release(s: Addr)
      requires Valid() && s in holds && s in nodes
      modifies this, store
      ensures Valid() && holds == old(holds) - multiset{s} && roots == old(roots) && epoch == old(epoch)
      ensures forall o :: o in old(nodes) ==> (o in nodes <==> Anchored(old(nodes), roots.Values, holds, o))
      ensures Kept(old(nodes), nodes) && store.All() == Only(old(store.All()), nodes.Keys)
      ensures Fewer(old(store.shapes), store.shapes)
      ensures old(nodes)[s].refCount > 1 ==>
                nodes == old(nodes)[s := old(nodes)[s].(refCount := old(nodes)[s].refCount - 1)] && unchanged(store)
      ensures old(Faithful()) ==> Faithful()
    {
      hide TreeOk, Anchored, Kept, FaithfulIn, Shapes.Store.Inv, Shapes.Store.All;
      ghost var all := store.All();
      ReleaseIn(s, {});
      assert roots.Values + {} == roots.Values;
      forall o | o in old(nodes) ensures o in nodes <==> Anchored(old(nodes), roots.Values, holds, o) {
        SurvivesIffAnchored(old(nodes), nodes, roots.Values, old(holds), holds, {}, {}, o);
      }
      FaithfulKept(old(nodes), nodes, roots.Values, holds, all);
    }

    method ReleaseIn(s: Addr, ghost dying: set<Addr>)
      requires Sound(dying) && s in holds && s in nodes && forall o :: o in dying ==> o < s
      modifies this, store
      ensures Sound(dying) && holds == old(holds) - multiset{s} && roots == old(roots) && epoch == old(epoch)
      ensures store.next == old(store.next)
      ensures Kept(old(nodes), nodes) && store.All() == Only(old(store.All()), nodes.Keys)
      ensures Fewer(old(store.shapes), store.shapes)
      ensures forall o :: o in old(nodes) && o < s ==> o in nodes && nodes[o] == old(nodes)[o]
      ensures Edges(old(nodes)[s]) == map[] ==> Untouched(old(nodes), nodes, s)
      ensures old(nodes)[s].refCount > 1 ==>
                nodes == old(nodes)[s := old(nodes)[s].(refCount := old(nodes)[s].refCount - 1)] && unchanged(store)
      decreases store.next - s, 1
    {
      hide TreeOk, Kept, Edges, Shapes.Store.Inv, Shapes.Store.All;
      UnrefOk(nodes, roots.Values, holds, dying, s);
      EdgesSame(nodes[s], nodes[s].(refCount := nodes[s].refCount - 1));
      ghost var before, all := nodes, store.All();
      nodes := nodes[s := nodes[s].(refCount := nodes[s].refCount - 1)];
      holds := holds - multiset{s};
      if nodes[s].refCount == 0 {
        ghost var counted := nodes;
        Destroy(s, dying + {s});
        KeptFrom(before, counted, nodes, s);
        assert dying + {s} - {s} == dying;
      } else {
        KeptRefl(before, nodes, roots.Values, old(holds), dying, s);
        store.AllKeys();
        assert Only(all, nodes.Keys) == all;
      }
    }

    /** shape_destroy, for a shape whose last reference is gone. */
    method Destroy(s: Addr, ghost dying: set<Addr>)
      requires Sound(dying) && s in nodes && nodes[s].refCount == 0 && forall o :: o in dying ==> o <= s
      modifies this, store
      ensures Sound(dying - {s}) && holds == old(holds) && roots == old(roots) && epoch == old(epoch)
      ensures store.next == old(store.next)
      ensures Kept(old(nodes), nodes) && store.All() == Only(old(store.All()), nodes.Keys)
      ensures Fewer(old(store.shapes), store.shapes)
      ensures forall o :: o in old(nodes) && o < s ==> o in nodes && nodes[o] == old(nodes)[o]
      ensures Edges(old(nodes)[s]) == map[] ==> Untouched(old(nodes), nodes, s)
      ensures Exactly(old(nodes), nodes, roots.Values + (dying - {s}), holds)
      decreases store.next - s, 0
    {
      hide TreeOk, Exactly, Kept, KeptBut, Edges, Only, Shapes.Store.Inv, Shapes.Store.All, Shapes.Alone;
      ghost var before, all := nodes, store.All();
      store.AllKeys();
      StartDestroy(nodes, s, all);
      DropChildren(s, dying, before, all);
      FinishDestroy(before, nodes, s, roots.Values, holds, dying);
      OnlyLess(all, nodes.Keys, s);
      store.Drop(s);
      nodes := nodes - {s};
      assert nodes.Keys == store.shapes.Keys;
      Survivors(before, nodes, roots.Values, holds, dying, s);
    }

    method DropChildren(s: Addr, ghost dying: set<Addr>, ghost before: Nodes, ghost all: AllViews)
      requires Sound(dying) && s in nodes && nodes[s].refCount == 0
      requires forall o :: o in dying ==> o <= s
      requires KeptBut(before, nodes, s) && store.All() == Only(all, nodes.Keys)
      modifies this, store
      ensures Sound(dying) && s in nodes && nodes[s].refCount == 0 && nodes[s].first.None? && nodes[s].rest == map[]
      ensures holds == old(holds) && roots == old(roots) && epoch == old(epoch) && store.next == old(store.next)
      ensures KeptBut(before, nodes, s) && store.All() == Only(all, nodes.Keys)
      ensures Fewer(old(store.shapes), store.shapes)
      ensures forall o :: o in old(nodes) && o < s ==> o in nodes && nodes[o] == old(nodes)[o]
      ensures Edges(old(nodes)[s]) == map[] ==> nodes == old(nodes)
      decreases store.next - s, 0, 1
    {
      hide Sound, KeptBut, Edges, Only, Forgotten, Shapes.Store.All, Fewer;
      FewerRefl(store.shapes);
      NoChildren(nodes[s]);
      ghost var lone := nodes[s].first.None? && nodes[s].rest == map[];
      if nodes[s].first.Some? {
        FirstEdge(nodes[s]);
        ForgetFirst(nodes[s]);
        DropChild(s, nodes[s].first.value.0, dying, before, all);
      }
      while nodes[s].rest != map[]
        invariant Sound(dying) && s in nodes && nodes[s].refCount == 0 && nodes[s].first.None?
        invariant holds == old(holds) && roots == old(roots) && epoch == old(epoch) && store.next == old(store.next)
        invariant KeptBut(before, nodes, s) && store.All() == Only(all, nodes.Keys)
        invariant forall o :: o in old(nodes) && o < s ==> o in nodes && nodes[o] == old(nodes)[o]
        invariant lone ==> nodes == old(nodes)
        invariant Fewer(old(store.shapes), store.shapes)
        decreases |nodes[s].rest|
      {
        var k :| k in nodes[s].rest;
        RestEdge(nodes[s], k);
        ForgetRest(nodes[s], k);
        ghost var shapes := store.shapes;
        DropChild(s, k, dying, before, all);
        FewerThen(old(store.shapes), shapes, store.shapes);
      }
    }

    /** Clears one recorded child of a dying shape and releases it. */
    method DropChild(s: Addr, k: Key, ghost dying: set<Addr>, ghost before: Nodes, ghost all: AllViews)
      requires Sound(dying) && s in nodes && nodes[s].refCount == 0 && k in Edges(nodes[s])
      requires forall o :: o in dying ==> o <= s
      requires KeptBut(before, nodes, s) && store.All() == Only(all, nodes.Keys)
      modifies this, store
      ensures Sound(dying) && s in nodes && nodes[s] == Forgotten(old(nodes)[s], k)
      ensures holds == old(holds) && roots == old(roots) && epoch == old(epoch) && store.next == old(store.next)
      ensures KeptBut(before, nodes, s) && store.All() == Only(all, nodes.Keys)
      ensures Fewer(old(store.shapes), store.shapes)
      ensures forall o :: o in old(nodes) && o < s ==> o in nodes && nodes[o] == old(nodes)[o]
      decreases store.next - s, 0, 0
    {
      hide TreeOk, Kept, KeptBut, Edges, Only, Shapes.Store.Inv, Shapes.Store.All;
      store.Below(s);
      var c := Edges(nodes[s])[k];
      EdgeOk(nodes, roots.Values, holds, dying, s, k);
      CutOk(nodes, roots.Values, holds, dying, s, k);
      KeptButThenCut(before, nodes, s, k);
      nodes := CutIn(nodes, s, k);
      holds := holds + multiset{c};
      ghost var mid := nodes;
      ReleaseIn(c, dying);
      KeptKeys(mid, nodes);
      KeptButThen(before, mid, nodes, s);
      OnlyTwice(all, mid.Keys, nodes.Keys);
    }
  
    // ---- transitions ----

    /** shape_is_in_tree */
    predicate InTree(s: Addr)
      reads this
      requires s in nodes
    {
      nodes[s].refCount > 1 || nodes[s].parent.Some?
    }

    /** ant_shape_new_with_inobj_limit: one empty root for each in-object limit. */
    method NewRoot(limit: nat) returns (s: Addr)
      requires Valid()
      modifies this, store
      ensures Valid() && holds == old(holds) + multiset{s} && epoch == old(epoch)
      ensures var l := if limit > MAX_INOBJ then MAX_INOBJ else limit;
              l in roots && s == roots[l] && (l in old(roots) ==> roots == old(roots))
      ensures Grown(old(nodes), nodes) && RootsGrown(old(roots).Values, roots.Values, old(nodes), nodes)
      ensures s in nodes && s in store.shapes && store.All() == old(store.All())[s := store.View(s)]
      ensures s in old(nodes) ==> store.All() == old(store.All())
      ensures old(Faithful()) ==> Faithful() && store.View(s) == []
      ensures old(roots) == map[] ==> s in store.shapes && !store.shapes[s].bulk
    {
      hide Sound, Shapes.Store.Inv, Shapes.Store.All, FaithfulIn, Grown, RootsGrown;
      var l := if limit > MAX_INOBJ then MAX_INOBJ else limit;
      ghost var n0 := nodes;
      GrownRefl(n0);
      RootsSame(roots.Values, n0);
      if l !in roots {
        CreateRoot(l);
      }
      s := roots[l];
      RootIn(roots, l);
      LiveRoot(s);
      ghost var n1 := nodes;
      Retain(s);
      GrownByCount(n1, nodes, s);
      GrownThen(n0, n1, nodes);
      FaithfulCount(n1, nodes, roots.Values, store.All(), s);
      RootEmpty(nodes, roots.Values, store.All(), s);
      store.AllView(s);
      RootsGrownCount(old(roots).Values, roots.Values, n0, n1, nodes);
    }

    lemma RootsLive()
      requires Valid()
      ensures roots.Values <= nodes.Keys
    {
      hide Shapes.Store.Inv;
    }

    lemma LiveShape(s: Addr)
      requires Valid() && s in nodes
      ensures s in store.shapes
    {
      hide Shapes.Store.Inv;
    }

    lemma LiveRoot(s: Addr)
      requires Valid() && s in roots.Values
      ensures s in nodes && s in store.shapes
    {
      hide Shapes.Store.Inv;
    }

    method CreateRoot(l: nat)
      requires Valid() && l !in roots && l <= MAX_INOBJ
      modifies this, store
      ensures Valid() && holds == old(holds) && epoch == old(epoch) && l in roots && roots == old(roots)[l := roots[l]]
      ensures Grown(old(nodes), nodes) && roots[l] in store.shapes && !store.shapes[roots[l]].bulk
      ensures store.All() == old(store.All())[roots[l] := []]
      ensures RootsGrown(old(roots).Values, roots.Values, old(nodes), nodes) && roots[l] !in old(nodes)
      ensures old(Faithful()) ==> Faithful()
    {
      hide Shapes.Store.Inv, Shapes.Store.All, TreeOk, FaithfulIn, Shapes.OthersKept;
      ghost var all := store.All();
      store.AllKeys();
      var r := store.NewShape(l);
      AddOk(nodes, roots.Values, holds, {}, r);
      FaithfulRoot(nodes, roots.Values, all, r);
      NewValue(roots, l, r);
      GrownByOne(nodes, r);
      nodes, roots := nodes[r := LONE], roots[l := r];
      assert nodes.Keys == store.shapes.Keys;
    }

    /** shape_clone_reserve, held by the caller. */
    method Clone(s: Addr, extra: nat) returns (t: Addr)
      requires Valid() && s in nodes
      modifies this, store
      ensures Valid() && t !in old(nodes) && holds == old(holds) + multiset{t} && roots == old(roots)
              && epoch == old(epoch)
      ensures nodes == old(nodes)[t := LONE] && t > s
      ensures store.All() == old(store.All())[t := old(store.View(s))]
              && store.shapes[t].bulk == old(store.shapes)[s].bulk
      ensures store.shapes[t].count == |old(store.View(s))|
      ensures old(Faithful()) ==> Faithful()
      ensures Shapes.OthersKept(old(store.shapes), store.shapes, t) && store.shapes[t].descriptors >= old(store.next)
      ensures store.next >= old(store.next) && store.shapes.Keys == old(store.shapes).Keys + {t}
    {
      hide Shapes.Store.Inv, Shapes.Store.All, TreeOk, FaithfulIn;
      ghost var all := store.All();
      store.AllKeys();
      store.Below(s);
      t := store.CloneReserve(s, extra);
      AddOk(nodes, roots.Values, holds, {}, t);
      FaithfulNew(nodes, roots.Values, all, t, store.All());
      nodes := nodes[t := LONE];
      holds := holds + multiset{t};
      assert nodes.Keys == store.shapes.Keys;
    }
  
    /** shape_add_tr: moves the caller's reference from s to the shape with one more property. */
    method AddTr(s: Addr, k: Key, attrs: Attrs, maxTreeProps: nat) returns (t: Addr, slot: nat)
      requires Valid() && s in holds && s in nodes && IsPropKey(k)
      modifies this, store
      ensures Valid() && holds == old(holds) - multiset{s} + multiset{t} && roots == old(roots) && epoch == old(epoch)
      ensures Grown(old(nodes), nodes) && t in nodes && t in store.shapes
      ensures store.All() == old(store.All())[t := store.View(t)]
      ensures old(Faithful()) ==>
                store.View(t) == Add(old(store.View(s)), k, attrs) && slot == AddSlot(old(store.View(s)), k)
      ensures old(InTree(s)) && old(Faithful()) ==> Faithful()
      ensures t == s <==> !old(InTree(s))
      ensures t == s ==> nodes == old(nodes) && store.shapes[t].bulk == old(store.shapes)[s].bulk
      ensures t != s ==> nodes[t].parent.Some? || Edges(nodes[t]) == map[]
      ensures t != s && t in old(nodes) ==> store.All() == old(store.All())
      ensures !old(InTree(s)) && old(Faithful()) ==>
                (Faithful() <==> InPlaceSafe(old(nodes)[s], old(store.View(s)), k, attrs))
      ensures old(InTree(s)) && old(HasStep(s, ChildKey(k, attrs), k)) ==> t == Edges(old(nodes)[s])[ChildKey(k, attrs)]
      ensures old(InTree(s)) && ChildKey(k, attrs) !in Edges(old(nodes)[s])
              && !old(store.shapes)[s].bulk && old(store.shapes)[s].count < maxTreeProps ==>
                s in nodes && Edges(nodes[s]) == Edges(old(nodes)[s])[ChildKey(k, attrs) := t]
      ensures old(InTree(s)) ==> Shapes.KeepsAlone(old(store.shapes), store.shapes, s, old(store.View(s)))
    {
      hide Shapes.Store.Inv, Shapes.Store.All, TreeOk, FaithfulIn, Edges, SlotOf, InPlaceSafe, Step, Add;
      hide Shapes.KeepsAlone;
      if !InTree(s) {
        slot := AddInPlace(s, k, attrs);
        return s, slot;
      }
      SharedWhenHeld(nodes, roots.Values, holds, s);
      var ck := ChildKey(k, attrs);
      if ck in Edges(nodes[s]) {
        EdgeOk(nodes, roots.Values, holds, {}, s, ck);
        var child := Edges(nodes[s])[ck];
        var found := store.LookupKey(child, k);
        FollowRight(nodes, roots.Values, store.All(), s, ck, k, attrs);
        store.AllKeys();
        store.AllView(s);
        store.AllView(child);
        if found != -1 {
          t, slot := child, found;
          Follow(s, child);
          Shapes.KeepsRefl(store.shapes, s, old(store.View(s)));
          return;
        }
      }
      if store.shapes[s].bulk || store.shapes[s].count >= maxTreeProps {
        t, slot := AddToClone(s, k, attrs);
        LoneEdges();
      } else {
        t, slot := AddShared(s, k, attrs);
      }
    }

    ghost predicate HasStep(s: Addr, ck: Key, k: Key)
      reads this, store
      requires s in nodes
    {
      ck in Edges(nodes[s]) && Edges(nodes[s])[ck] in store.shapes && SlotOf(store.View(Edges(nodes[s])[ck]), k) != -1
    }

    /** A shape that is in no tree takes the property itself. */
    method AddInPlace(s: Addr, k: Key, attrs: Attrs) returns (slot: nat)
      requires Valid() && s in holds && s in nodes && IsPropKey(k) && !InTree(s)
      modifies store
      ensures Valid() && s in store.shapes && store.shapes.Keys == old(store.shapes.Keys)
      ensures store.All() == old(store.All())[s := Add(old(store.View(s)), k, attrs)]
      ensures slot == AddSlot(old(store.View(s)), k) && store.View(s) == Add(old(store.View(s)), k, attrs)
      ensures old(Faithful()) ==> (Faithful() <==> InPlaceSafe(nodes[s], old(store.View(s)), k, attrs))
      ensures store.shapes[s].bulk == old(store.shapes)[s].bulk
    {
      hide Shapes.Store.Inv, Shapes.Store.All, TreeOk, FaithfulIn, Edges, SlotOf, InPlaceSafe;
      ghost var all := store.All();
      store.AllKeys();
      store.AllView(s);
      InPlaceExact(nodes, roots.Values, holds, all, s, k, attrs);
      slot := store.AddKey(s, k, attrs);
      store.AllView(s);
    }

    /** ant_shape_release of a shape that somebody else still references. */
    method Leave(s: Addr)
      requires Valid() && s in holds && s in nodes && nodes[s].refCount > 1
      modifies this, store
      ensures Valid() && holds == old(holds) - multiset{s} && roots == old(roots) && epoch == old(epoch)
      ensures nodes.Keys == old(nodes).Keys && Grown(old(nodes), nodes) && unchanged(store)
      ensures Edges(nodes[s]) == Edges(old(nodes)[s]) && forall o :: o in nodes && o != s ==> nodes[o] == old(nodes)[o]
      ensures old(Faithful()) ==> Faithful()
    {
      hide Sound, Shapes.Store.All, FaithfulIn, Kept, Anchored;
      Release(s);
      FaithfulCount(old(nodes), nodes, roots.Values, store.All(), s);
    }

    /** Takes a recorded transition. */
    method Follow(s: Addr, c: Addr)
      requires Valid() && s in holds && s in nodes && c in nodes && c != s && nodes[s].refCount > 1
      modifies this, store
      ensures Valid() && holds == old(holds) - multiset{s} + multiset{c} && roots == old(roots) && epoch == old(epoch)
      ensures nodes.Keys == old(nodes.Keys) && Grown(old(nodes), nodes) && unchanged(store)
      ensures old(Faithful()) ==> Faithful()
    {
      hide Sound, Shapes.Store.All, FaithfulIn, Grown;
      ghost var n0 := nodes;
      Retain(c);
      FaithfulCount(n0, nodes, roots.Values, store.All(), c);
      ghost var n1 := nodes;
      GrownByCount(n0, n1, c);
      Leave(s);
      GrownThen(n0, n1, nodes);
      assert holds == old(holds) - multiset{s} + multiset{c};
    }

    /** Bulk layouts and full trees branch off into an independent shape. */
    method AddToClone(s: Addr, k: Key, attrs: Attrs) returns (t: Addr, slot: nat)
      requires Valid() && s in holds && s in nodes && IsPropKey(k) && nodes[s].refCount > 1
      modifies this, store
      ensures Valid() && holds == old(holds) - multiset{s} + multiset{t} && roots == old(roots) && epoch == old(epoch)
      ensures Grown(old(nodes), nodes) && t in nodes && t in store.shapes
      ensures store.All() == old(store.All())[t := store.View(t)]
      ensures store.View(t) == Add(old(store.View(s)), k, attrs) && slot == AddSlot(old(store.View(s)), k)
      ensures t != s && t !in old(nodes) && nodes[t] == LONE
      ensures old(Faithful()) ==> Faithful()
      ensures Shapes.KeepsAlone(old(store.shapes), store.shapes, s, old(store.View(s)))
    {
      hide Sound, Shapes.Store.Inv, Shapes.Store.All, FaithfulIn, Add, AddSlot, Grown, Edges, Shapes.KeepsAlone;
      t, slot := Branch(s, k, attrs);
      ghost var n1 := nodes;
      GrownByOne(old(nodes), t);
      Leave(s);
      GrownThen(old(nodes), n1, nodes);
      assert holds == old(holds) - multiset{s} + multiset{t};
    }

    /** A clone of s with one more property. */
    method Branch(s: Addr, k: Key, attrs: Attrs) returns (t: Addr, slot: nat)
      requires Valid() && s in nodes && IsPropKey(k)
      modifies this, store
      ensures Valid() && holds == old(holds) + multiset{t} && roots == old(roots) && epoch == old(epoch)
      ensures t !in old(nodes) && s < t && nodes == old(nodes)[t := LONE] && t in store.shapes
      ensures store.All() == old(store.All())[t := store.View(t)]
      ensures store.View(t) == Add(old(store.View(s)), k, attrs) && slot == AddSlot(old(store.View(s)), k)
      ensures old(Faithful()) ==> Faithful()
      ensures Shapes.KeepsAlone(old(store.shapes), store.shapes, s, old(store.View(s)))
    {
      hide Shapes.Store.Inv, Shapes.Store.All, TreeOk, FaithfulIn, Add, AddSlot, Edges, Shapes.OthersKept;
      hide Shapes.Guarded;
      hide Shapes.StaysPut, Shapes.KeepsAlone;
      ghost var all, n0 := store.All(), nodes;
      store.AllKeys();
      store.AllView(s);
      store.RecordBelow(s);
      ghost var was, next := store.shapes, store.next;
      t := Clone(s, 1);
      store.AllView(t);
      ghost var mid := store.shapes;
      slot := store.AddKey(t, k, attrs);
      Shapes.CloneApart(was, mid, store.shapes, s, t, all[s], next);
      store.AllView(t);
      FaithfulNew(n0, roots.Values, all, t, store.All());
    }

    /** Otherwise the new shape shares storage and is recorded as s's child. */
    method AddShared(s: Addr, k: Key, attrs: Attrs) returns (t: Addr, slot: nat)
      requires Valid() && s in holds && s in nodes && IsPropKey(k) && nodes[s].refCount > 1
      modifies this, store
      ensures Valid() && holds == old(holds) - multiset{s} + multiset{t} && roots == old(roots) && epoch == old(epoch)
      ensures Grown(old(nodes), nodes) && t in nodes && t in store.shapes
      ensures store.All() == old(store.All())[t := store.View(t)]
      ensures store.View(t) == Add(old(store.View(s)), k, attrs) && slot == AddSlot(old(store.View(s)), k)
      ensures ChildKey(k, attrs) !in Edges(old(nodes)[s]) ==>
                s in nodes && Edges(nodes[s]) == Edges(old(nodes)[s])[ChildKey(k, attrs) := t]
      ensures t != s && t !in old(nodes) && Edges(nodes[t]) == map[]
      ensures old(Faithful()) ==> Faithful()
      ensures Shares(old(store.shapes), store.shapes, s, t, old(store.View(s)), store.View(t))
    {
      hide Sound, Shapes.Store.Inv, Shapes.Store.All, FaithfulIn, Add, Grown, Shares;
      t, slot := Sibling(s, k, attrs);
      RecordedChildless(nodes, s, ChildKey(k, attrs), t);
      Record(s, ChildKey(k, attrs), t);
      ghost var n1 := nodes;
      GrownByRecord(old(nodes), nodes, t);
      Leave(s);
      GrownThen(old(nodes), n1, nodes);
      assert holds == old(holds) - multiset{s} + multiset{t};
    }

    /** A shape with one more property than s, not yet recorded anywhere. */
    method Sibling(s: Addr, k: Key, attrs: Attrs) returns (t: Addr, slot: nat)
      requires Valid() && s in nodes && IsPropKey(k)
      modifies this, store
      ensures Valid() && holds == old(holds) + multiset{t} && roots == old(roots) && epoch == old(epoch)
      ensures t !in old(nodes) && s < t && nodes == old(nodes)[t := LONE] && t in store.shapes && s in store.shapes
      ensures store.All() == old(store.All())[t := store.View(t)] && store.View(s) == old(store.View(s))
      ensures store.View(t) == Add(old(store.View(s)), k, attrs) && slot == AddSlot(old(store.View(s)), k)
      ensures old(Faithful()) ==> Faithful()
      ensures Shares(old(store.shapes), store.shapes, s, t, old(store.View(s)), store.View(t))
    {
      hide Shapes.Store.Inv, Shapes.Store.All, TreeOk, FaithfulIn, SlotOf, Add, Shapes.OthersKept, Shapes.Guarded;
      hide Shapes.SameLayout;
      hide Shapes.Shareable, Shapes.StaysPut, Shapes.KeepsAlone, LiveCount;
      ghost var all, n0 := store.All(), nodes;
      store.Below(s);
      store.RecordBelow(s);
      ghost var was, next := store.shapes, store.next;
      store.AllKeys();
      store.Below(s);
      store.AllView(s);
      t := store.CopyForTransition(s);
      store.AllView(t);
      AddOk(nodes, roots.Values, holds, {}, t);
      nodes, holds := nodes[t := LONE], holds + multiset{t};
      ghost var mid, next' := store.shapes, store.next;
      slot := store.AddKey(t, k, attrs);
      Shapes.ChildShares(was, mid, store.shapes, s, t, all[s], k, attrs, next, next');
      store.AllView(t);
      store.AllView(s);
      FaithfulNew(n0, roots.Values, all, t, store.All());
      assert nodes.Keys == store.shapes.Keys;
    }

    /** shape_record_child */
    method Record(p: Addr, ck: Key, c: Addr)
      requires Valid() && p in nodes && c in nodes && p < c && nodes[c] == LONE && c in holds
      requires p in store.shapes && c in store.shapes && store.View(c) == Step(store.View(p), ck)
      modifies this
      ensures Valid() && holds == old(holds) && roots == old(roots) && epoch == old(epoch)
      ensures nodes.Keys == old(nodes.Keys) && nodes[p].refCount == old(nodes)[p].refCount && nodes[c].mark == 0
      ensures forall o :: o in nodes && o != c ==>
                nodes[o].mark == old(nodes)[o].mark && nodes[o].parent == old(nodes)[o].parent
      ensures ck !in Edges(old(nodes)[p]) ==> Edges(nodes[p]) == Edges(old(nodes)[p])[ck := c]
      ensures nodes == if ck in Edges(old(nodes)[p]) then old(nodes) else RecordedIn(old(nodes), p, ck, c)
      ensures old(Faithful()) ==> Faithful()
    {
      hide Shapes.Store.Inv, Shapes.Store.All, TreeOk, FaithfulIn, Edges, Step, Recorded;
      if ck in Edges(nodes[p]) { return; }
      LoneNoRoot(nodes, roots.Values, holds, c);
      RecordOk(nodes, roots.Values, holds, {}, p, ck, c);
      store.AllKeys();
      store.AllView(p);
      store.AllView(c);
      FaithfulRecord(nodes, roots.Values, store.All(), p, ck, c);
      RecordedCount(nodes[p], ck, c);
      nodes := RecordedIn(nodes, p, ck, c);
    }
  }

  lemma RecordedChildless(nodes: Nodes, p: Addr, ck: Key, c: Addr)
    requires p in nodes && c in nodes && p < c && nodes[c] == LONE
    ensures Edges(nodes[c]) == map[] && Edges(RecordedIn(nodes, p, ck, c)[c]) == map[]
  {
  }

  lemma GrownByOne(nodes: Nodes, t: Addr)
    requires t !in nodes
    ensures Grown(nodes, nodes[t := LONE])
  {
  }

  lemma GrownByCount(nodes: Nodes, nodes': Nodes, s: Addr)
    requires s in nodes && s in nodes' && nodes' == nodes[s := nodes[s].(refCount := nodes'[s].refCount)]
    ensures Grown(nodes, nodes') && nodes'.Keys == nodes.Keys
  {
  }

  lemma GrownByRecord(nodes: Nodes, nodes': Nodes, t: Addr)
    requires t !in nodes && nodes'.Keys == nodes.Keys + {t} && nodes'[t].mark == 0
    requires forall o :: o in nodes' && o != t ==>
               nodes'[o].mark == nodes[o].mark && nodes'[o].parent == nodes[o].parent
    ensures Grown(nodes, nodes')
  {
  }

  lemma GrownThen(a: Nodes, b: Nodes, c: Nodes)
    requires Grown(a, b) && Grown(b, c) && c.Keys == b.Keys
    ensures Grown(a, c)
  {
  }

  lemma RecordedCount(n: Node, k: Key, c: Addr)
    ensures Recorded(n, k, c).refCount == n.refCount && Recorded(n, k, c).mark == n.mark
    ensures Recorded(n, k, c).parent == n.parent
  {
  }

  lemma LoneNoRoot(nodes: Nodes, roots: set<Addr>, holds: multiset<Addr>, c: Addr)
    requires TreeOk(nodes, roots, holds, {}) && c in nodes && nodes[c] == LONE && c in holds
    ensures c !in roots && nodes[c].parent.None?
  {
    assert Counted(nodes[c], c, roots, holds, {});
  }

  lemma FaithfulRecord(nodes: Nodes, roots: set<Addr>, all: AllViews, p: Addr, ck: Key, c: Addr)
    requires p in nodes && c in nodes && p != c && ck !in Edges(nodes[p])
    requires p in all && c in all && all[c] == Step(all[p], ck)
    ensures FaithfulIn(nodes, roots, all) ==> FaithfulIn(RecordedIn(nodes, p, ck, c), roots, all)
  {
    hide Step;
    var nodes' := RecordedIn(nodes, p, ck, c);
    if FaithfulIn(nodes, roots, all) {
      assert Edges(nodes'[p]) == Edges(nodes[p])[ck := c];
      forall q, k | q in nodes' && k in Edges(nodes'[q]) ensures EdgeRight(all, q, k, Edges(nodes'[q])[k]) {
        if q != p || k != ck {
          assert EdgeRight(all, q, k, Edges(nodes[q])[k]);
        }
      }
    }
  }

  /** A held shape inside a tree has a second reference, so moving on never frees it. */
  lemma SharedWhenHeld(nodes: Nodes, roots: set<Addr>, holds: multiset<Addr>, s: Addr)
    requires TreeOk(nodes, roots, holds, {}) && s in holds && s in nodes
    ensures nodes[s].parent.Some? ==> nodes[s].refCount > 1
  {
    assert Counted(nodes[s], s, roots, holds, {});
  }

  lemma FollowRight(nodes: Nodes, roots: set<Addr>, all: AllViews, s: Addr, ck: Key, k: Key, attrs: Attrs)
    requires s in nodes && ck in Edges(nodes[s]) && IsPropKey(k) && ck == ChildKey(k, attrs)
    ensures FaithfulIn(nodes, roots, all) ==>
              var c := Edges(nodes[s])[ck];
              s in all && c in all && all[c] == Add(all[s], k, attrs) && SlotOf(all[c], k) == AddSlot(all[s], k)
  {
    if FaithfulIn(nodes, roots, all) {
      assert EdgeRight(all, s, ck, Edges(nodes[s])[ck]);
      AddedSlot(all[s], k, attrs);
    }
  }

  // ---- adding to a list twice ----

  /** The slot of a property just added. */
  lemma AddedSlot(v: View, k: Key, attrs: Attrs)
    ensures SlotOf(Add(v, k, attrs), k) == AddSlot(v, k)
  {
    var i := SlotOf(v, k);
    if i != -1 { LastSlot(v, i, v[i].(attrs := attrs), k); }
  }

  /** SlotOf finds the last live slot of a key; rewriting that slot does not move it. */
  lemma {:induction false} LastSlot(v: View, i: nat, p: Prop, k: Key)
    requires SlotOf(v, k) == i && i < |v| && p.Live? && p.key == k
    ensures SlotOf(v[i := p], k) == i
  {
    var n := |v| - 1;
    if i < n {
      assert v[i := p][..n] == v[..n][i := p];
      LastSlot(v[..n], i, p, k);
    }
  }

  lemma AddAgain(v: View, k: Key, a: Attrs, b: Attrs)
    ensures Add(Add(v, k, a), k, b) == Add(v, k, b)
  {
    AddedSlot(v, k, a);
  }

  /** A change made for one key shows through adding another. */
  lemma AddDiffers(v: View, k: Key, a: Attrs, k': Key, b: Attrs)
    requires k != k' && Add(v, k, a) != v
    ensures Add(Add(v, k, a), k', b) != Add(v, k', b)
  {
    hide SlotOf;
    var w := Add(v, k, a);
    var i := AddSlot(v, k);
    assert Has(w, i, k) && w[i].attrs == a;
    var ww, vv := Add(w, k', b), Add(v, k', b);
    assert i < |ww| && ww[i] == w[i];
    assert i < |v| ==> v[i].attrs != a;
  }

  /**
   The guard shape_add_tr would need before it changes a shape in place: either nothing
   changes or every child recorded for it was recorded for the same key.
   */
  predicate InPlaceSafe(n: Node, v: View, k: Key, attrs: Attrs) {
    Add(v, k, attrs) == v || forall ck :: ck in Edges(n) ==> ck % KEY_SPAN == k
  }

  lemma NoEdgeInto(nodes: Nodes, roots: set<Addr>, holds: multiset<Addr>, s: Addr)
    requires TreeOk(nodes, roots, holds, {}) && s in nodes && nodes[s].parent.None?
    ensures forall p, k :: p in nodes && k in Edges(nodes[p]) ==> Edges(nodes[p])[k] != s
  {
    hide Edges;
    forall p, k | p in nodes && k in Edges(nodes[p]) ensures Edges(nodes[p])[k] != s {
      EdgeOk(nodes, roots, holds, {}, p, k);
    }
  }

  /** Changing a shape in place keeps the recorded transitions right exactly under InPlaceSafe. */
  lemma InPlaceExact(nodes: Nodes, roots: set<Addr>, holds: multiset<Addr>, all: AllViews, s: Addr, k: Key,
                     attrs: Attrs)
    requires TreeOk(nodes, roots, holds, {}) && s in nodes && s in all && s in holds
    requires nodes[s].refCount <= 1 && nodes[s].parent.None? && IsPropKey(k)
    ensures FaithfulIn(nodes, roots, all) ==>
              (FaithfulIn(nodes, roots, all[s := Add(all[s], k, attrs)]) <==> InPlaceSafe(nodes[s], all[s], k, attrs))
  {
    assert Counted(nodes[s], s, roots, holds, {});
    hide Edges, Add;
    NoEdgeInto(nodes, roots, holds, s);
    if FaithfulIn(nodes, roots, all) {
      var v := all[s];
      var w := Add(v, k, attrs);
      var all' := all[s := w];
      forall ck | ck in Edges(nodes[s])
        ensures EdgeRight(all', s, ck, Edges(nodes[s])[ck]) <==> (w == v || ck % KEY_SPAN == k)
      {
        assert EdgeRight(all, s, ck, Edges(nodes[s])[ck]);
        if ck % KEY_SPAN == k {
          AddAgain(v, k, attrs, ck / KEY_SPAN);
        } else if w != v {
          AddDiffers(v, k, attrs, ck % KEY_SPAN, ck / KEY_SPAN);
        }
      }
      forall p, ck | p in nodes && p != s && ck in Edges(nodes[p]) ensures EdgeRight(all', p, ck, Edges(nodes[p])[ck]) {
        assert EdgeRight(all, p, ck, Edges(nodes[p])[ck]);
      }
    }
  }

  // ---- what a shape's place in the tree means ----

  /** The transitions from the top of s's tree down to s. */
  ghost function Trail(nodes: Nodes, s: Addr): seq<Key>
    decreases s
  {
    if s in nodes && nodes[s].parent.Some? && nodes[s].parent.value < s
    then Trail(nodes, nodes[s].parent.value) + [nodes[s].parentKey] else []
  }

  ghost function Top(nodes: Nodes, s: Addr): Addr
    decreases s
  {
    if s in nodes && nodes[s].parent.Some? && nodes[s].parent.value < s then Top(nodes, nodes[s].parent.value) else s
  }

  function Replay(v: View, steps: seq<Key>): View {
    if steps == [] then v else Step(Replay(v, steps[..|steps| - 1]), steps[|steps| - 1])
  }

  /** A shape's list is its trail replayed on its top; under a root, on the empty list. */
  lemma {:induction false} ViewIsTrail(nodes: Nodes, roots: set<Addr>, holds: multiset<Addr>, all: AllViews, s: Addr)
    requires TreeOk(nodes, roots, holds, {}) && FaithfulIn(nodes, roots, all) && s in nodes && nodes.Keys == all.Keys
    ensures Top(nodes, s) in all && all[s] == Replay(all[Top(nodes, s)], Trail(nodes, s))
    decreases s
  {
    hide Edges, Step, Down;
    assert Up(nodes, s);
    if nodes[s].parent.Some? {
      var p := nodes[s].parent.value;
      ViewIsTrail(nodes, roots, holds, all, p);
      assert EdgeRight(all, p, nodes[s].parentKey, s);
      assert Trail(nodes, s)[..|Trail(nodes, s)| - 1] == Trail(nodes, p);
    }
  }

  /** Equal transitions from the same top lead to the same shape. */
  lemma {:induction false} TrailUnique(nodes: Nodes, roots: set<Addr>, holds: multiset<Addr>, s: Addr, t: Addr)
    requires TreeOk(nodes, roots, holds, {}) && s in nodes && t in nodes
    requires Trail(nodes, s) == Trail(nodes, t) && Top(nodes, s) == Top(nodes, t)
    ensures s == t
    decreases s
  {
    hide Edges, Down;
    assert Up(nodes, s) && Up(nodes, t);
    if nodes[s].parent.Some? && nodes[t].parent.Some? {
      var p, q := nodes[s].parent.value, nodes[t].parent.value;
      var a, b := Trail(nodes, s), Trail(nodes, t);
      assert a[..|a| - 1] == Trail(nodes, p) && a[|a| - 1] == nodes[s].parentKey;
      assert b[..|b| - 1] == Trail(nodes, q) && b[|b| - 1] == nodes[t].parentKey;
      TrailUnique(nodes, roots, holds, p, q);
    }
  }

  lemma ReferenceCount(e: Engine, s: Addr)
    requires e.Valid() && s in e.nodes
    ensures e.nodes[s].refCount == e.holds[s] + (if e.nodes[s].parent.Some? then 1 else 0)
                                   + (if s in e.roots.Values then 1 else 0)
  {
    hide Shapes.Store.Inv;
    assert Counted(e.nodes[s], s, e.roots.Values, e.holds, {});
  }

  /** A clone of the empty root. */
  method LoneClone(hash: Key -> nat) returns (e: Engine, s: Addr)
    ensures fresh(e) && fresh(e.store) && e.Valid() && e.Faithful() && s in e.nodes && e.holds[s] == 1
    ensures s !in e.roots.Values && e.nodes[s] == LONE
    ensures s in e.store.shapes && e.store.View(s) == [] && !e.store.shapes[s].bulk && e.store.shapes[s].count == 0
  {
    hide Shapes.Store.Inv, Shapes.Store.All, TreeOk, FaithfulIn, Edges, Grown, Shapes.OthersKept;
    e := new Engine(hash);
    var r := e.NewRoot(4);
    e.LiveRoot(r);
    e.RootsLive();
    s := e.Clone(r, 0);
    e.store.AllView(s);
    ReferenceCount(e, s);
  }

  /** One that two objects hold. */
  method TwiceHeld(hash: Key -> nat) returns (e: Engine, s: Addr)
    ensures fresh(e) && fresh(e.store) && e.Valid() && e.Faithful() && s in e.nodes && e.holds[s] == 2
    ensures s !in e.roots.Values && e.nodes[s] == LONE.(refCount := 2)
    ensures s in e.store.shapes && e.store.View(s) == [] && !e.store.shapes[s].bulk && e.store.shapes[s].count == 0
  {
    hide Shapes.Store.Inv, Shapes.Store.All, TreeOk, FaithfulIn, Edges;
    e, s := LoneClone(hash);
    e.Retain(s);
  }

  /** One of them leaves along a recorded transition for key 2. */
  method LeftBehind(hash: Key -> nat) returns (e: Engine, s: Addr, child: Addr)
    ensures fresh(e) && fresh(e.store) && e.Valid() && e.Faithful() && s in e.nodes && s in e.holds && !e.InTree(s)
    ensures s in e.store.shapes && e.store.View(s) == []
    ensures child in e.store.shapes && child != s && e.store.View(child) == [Live(2, 7, None, None)]
    ensures Edges(e.nodes[s]) == map[ChildKey(2, 7) := child]
  {
    hide Shapes.Store.Inv, Shapes.Store.All, TreeOk, FaithfulIn, Edges;
    e, s := TwiceHeld(hash);
    LoneEdges();
    EdgesSame(LONE, e.nodes[s]);
    var slot;
    e.store.AllView(s);
    child, slot := e.AddTr(s, 2, 7, TRANSITION_MAX_PROPS);
    ReferenceCount(e, s);
    e.LiveShape(s);
    e.store.AllView(s);
  }

  /** The other, now alone, adds key 4 in place, and the clone is shared again. */
  method GoneStale(hash: Key -> nat) returns (e: Engine, s: Addr, child: Addr)
    ensures fresh(e) && fresh(e.store) && e.Valid() && s in e.nodes && s in e.holds && e.InTree(s)
    ensures s in e.store.shapes && e.store.View(s) == [Live(4, 7, None, None)]
    ensures child in e.nodes && child in e.store.shapes && child != s && e.store.View(child) == [Live(2, 7, None, None)]
    ensures Edges(e.nodes[s]) == map[ChildKey(2, 7) := child]
  {
    hide Shapes.Store.Inv, Shapes.Store.All, TreeOk, FaithfulIn, Edges, Grown;
    e, s, child := LeftBehind(hash);
    e.store.AllView(child);
    e.LiveShape(s);
    var t, slot := e.AddTr(s, 4, 7, TRANSITION_MAX_PROPS);
    e.LiveShape(s);
    e.store.AllKeys();
    e.store.AllView(child);
    ghost var n := e.nodes[s];
    e.Retain(s);
    EdgesSame(n, e.nodes[s]);
    ReferenceCount(e, s);
  }

  /** The guard matters: the next transition for key 2 leads to a shape without key 4. */
  method StaleTransition(hash: Key -> nat) returns (e: Engine, s: Addr, t: Addr, slot: nat)
    ensures e.Valid() && s in e.store.shapes && t in e.store.shapes
    ensures e.store.View(s) == [Live(4, 7, None, None)]
    ensures e.store.View(t) == [Live(2, 7, None, None)] != Add(e.store.View(s), 2, 7)
  {
    hide Shapes.Store.Inv, Shapes.Store.All, TreeOk, FaithfulIn, Edges, SlotOf;
    var child;
    e, s, child := GoneStale(hash);
    e.store.AllView(child);
    e.store.AllView(s);
    OnlySlot(e.store.View(child), 2);
    t, slot := e.AddTr(s, 2, 7, TRANSITION_MAX_PROPS);
    e.LiveShape(s);
    e.store.AllView(s);
    e.store.AllView(t);
  }

  lemma OnlySlot(v: View, k: Key)
    requires |v| == 1 && v[0].Live?
    ensures SlotOf(v, k) == if v[0].key == k then 0 else -1
  {
    assert v[..0] == [];
  }

  lemma EmptyTree(all: AllViews)
    ensures TreeOk(map[], {}, multiset{}, {}) && FaithfulIn(map[], {}, all)
  {
  }

  lemma RootIn(roots: map<nat, Addr>, l: nat)
    requires l in roots
    ensures roots[l] in roots.Values
  {
  }

  lemma GrownRefl(nodes: Nodes)
    ensures Grown(nodes, nodes)
  {
  }

  lemma NewValue(roots: map<nat, Addr>, l: nat, r: Addr)
    requires l !in roots
    ensures roots[l := r].Values == roots.Values + {r}
  {
    var m := roots[l := r];
    assert m[l] == r;
    forall v | v in roots.Values + {r} ensures v in m.Values {
      if v in roots.Values {
        var x :| x in roots && roots[x] == v;
        assert m[x] == v;
      }
    }
  }

  lemma RootLive(nodes: Nodes, roots: set<Addr>, holds: multiset<Addr>, s: Addr)
    requires TreeOk(nodes, roots, holds, {}) && s in roots
    ensures s in nodes
  {
  }

  lemma RootEmpty(nodes: Nodes, roots: set<Addr>, all: AllViews, s: Addr)
    requires s in roots
    ensures FaithfulIn(nodes, roots, all) ==> s in all && all[s] == []
  {
  }

  lemma FaithfulCount(nodes: Nodes, nodes': Nodes, roots: set<Addr>, all: AllViews, s: Addr)
    requires s in nodes && s in nodes' && nodes' == nodes[s := nodes[s].(refCount := nodes'[s].refCount)]
    ensures FaithfulIn(nodes, roots, all) <==> FaithfulIn(nodes', roots, all)
  {
    assert forall p :: p in nodes ==> Edges(nodes'[p]) == Edges(nodes[p]);
  }

  lemma FaithfulKept(nodes: Nodes, nodes': Nodes, roots: set<Addr>, holds: multiset<Addr>, all: AllViews)
    requires Kept(nodes, nodes') && TreeOk(nodes', roots, holds, {})
    ensures FaithfulIn(nodes, roots, all) ==> FaithfulIn(nodes', roots, Only(all, nodes'.Keys))
  {
    hide Edges, Step;
    if FaithfulIn(nodes, roots, all) {
      forall p, k | p in nodes' && k in Edges(nodes'[p])
        ensures EdgeRight(Only(all, nodes'.Keys), p, k, Edges(nodes'[p])[k])
      {
        EdgeOk(nodes', roots, holds, {}, p, k);
        assert EdgeRight(all, p, k, Edges(nodes[p])[k]);
      }
    }
  }

  lemma FaithfulRoot(nodes: Nodes, roots: set<Addr>, all: AllViews, r: Addr)
    requires r !in all
    ensures FaithfulIn(nodes, roots, all) ==> FaithfulIn(nodes[r := LONE], roots + {r}, all[r := []])
  {
    LoneEdges();
    if FaithfulIn(nodes, roots, all) {
      var nodes', all' := nodes[r := LONE], all[r := []];
      forall p, k | p in nodes' && k in Edges(nodes'[p]) ensures EdgeRight(all', p, k, Edges(nodes'[p])[k]) {
        assert EdgeRight(all, p, k, Edges(nodes[p])[k]);
      }
    }
  }

  lemma FaithfulNew(nodes: Nodes, roots: set<Addr>, all: AllViews, t: Addr, all': AllViews)
    requires t !in all && t in all' && all' == all[t := all'[t]]
    ensures FaithfulIn(nodes, roots, all) ==> FaithfulIn(nodes[t := LONE], roots, all')
  {
    LoneEdges();
    if FaithfulIn(nodes, roots, all) {
      var nodes' := nodes[t := LONE];
      forall p, k | p in nodes' && k in Edges(nodes'[p]) ensures EdgeRight(all', p, k, Edges(nodes'[p])[k]) {
        assert EdgeRight(all, p, k, Edges(nodes[p])[k]);
      }
    }
  }

  ghost function Only(all: AllViews, live: set<Addr>): AllViews {
    map s | s in all && s in live :: all[s]
  }

  lemma OnlyTwice(all: AllViews, more: set<Addr>, less: set<Addr>)
    requires less <= more
    ensures Only(Only(all, more), less) == Only(all, less)
  {
  }

  lemma OnlyLess(all: AllViews, live: set<Addr>, s: Addr)
    ensures Only(all, live) - {s} == Only(all, live - {s})
  {
  }

  lemma KeptKeys(a: Nodes, b: Nodes)
    requires Kept(a, b)
    ensures b.Keys <= a.Keys
  {
  }

  ghost predicate Untouched(nodes: Nodes, nodes': Nodes, s: Addr) {
    nodes - {s} == nodes' - {s}
  }

  lemma NoChildren(n: Node)
    ensures Edges(n) == map[] <==> n.first.None? && n.rest == map[]
  {
    assert n.first.Some? ==> n.first.value.0 in Edges(n);
  }

  lemma ForgetFirst(n: Node)
    requires n.first.Some?
    ensures Forgotten(n, n.first.value.0).first.None? && Forgotten(n, n.first.value.0).refCount == n.refCount
  {
  }

  lemma ForgetRest(n: Node, k: Key)
    requires n.first.None? && k in n.rest
    ensures Forgotten(n, k).first.None? && Forgotten(n, k).refCount == n.refCount
    ensures |Forgotten(n, k).rest| < |n.rest|
  {
    assert (n.rest - {k}).Keys == n.rest.Keys - {k};
    assert |(n.rest - {k}).Keys| < |n.rest.Keys|;
  }

  lemma FirstEdge(n: Node)
    requires n.first.Some?
    ensures n.first.value.0 in Edges(n)
  {
  }

  lemma RestEdge(n: Node, k: Key)
    requires k in n.rest
    ensures k in Edges(n)
  {
  }

  lemma KeptFrom(a: Nodes, b: Nodes, c: Nodes, s: Addr)
    requires s in a && s in b && b == a[s := a[s].(refCount := b[s].refCount)] && Kept(b, c)
    ensures Kept(a, c)
  {
    forall o | o in c ensures Edges(c[o]) == Edges(a[o]) && KeptUp(a, c, o) {
      assert KeptUp(b, c, o);
    }
  }

  lemma KeptRefl(a: Nodes, b: Nodes, roots: set<Addr>, holds: multiset<Addr>, dying: set<Addr>, s: Addr)
    requires TreeOk(a, roots, holds, dying) && s in a && s in b && b == a[s := a[s].(refCount := b[s].refCount)]
    ensures Kept(a, b) && b.Keys == a.Keys
  {
    EdgesSame(a[s], b[s]);
    hide Edges;
    forall o | o in b ensures Edges(b[o]) == Edges(a[o]) && KeptUp(a, b, o) {
      assert Up(a, o);
    }
  }

  lemma StartDestroy(nodes: Nodes, s: Addr, all: AllViews)
    requires s in nodes && nodes.Keys == all.Keys
    ensures KeptBut(nodes, nodes, s) && Only(all, nodes.Keys) == all
  {
  }

  lemma FinishDestroy(before: Nodes, nodes: Nodes, s: Addr, roots: set<Addr>, holds: multiset<Addr>, dying: set<Addr>)
    requires KeptBut(before, nodes, s) && TreeOk(nodes, roots, holds, dying) && s in nodes && nodes[s].refCount == 0
    requires nodes[s].first.None? && nodes[s].rest == map[]
    ensures Kept(before, nodes - {s}) && TreeOk(nodes - {s}, roots, holds, dying - {s})
  {
    KeptButDone(before, nodes, s, roots, holds, dying);
    RemoveOk(nodes, roots, holds, dying, s);
  }
}
