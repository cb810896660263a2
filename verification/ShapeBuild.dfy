/**
 Objects built by adding properties one after another to an empty object: however often
 shapes are shared, cloned or changed in place on the way, the layout depends on the
 properties alone.
 */
module ShapeBuild {
  import opened ShapeIndex
  import opened ShapeProps
  import opened ShapeRecord
  import opened ShapeTree
  import opened ShapeEngine

  datatype Property = Property(key: Key, attrs: Attrs)

  /** The list of an object given its properties in order. */
  function Layout(ps: seq<Property>): View
    decreases |ps|
  {
    if ps == [] then [] else Add(Layout(ps[..|ps| - 1]), ps[|ps| - 1].key, ps[|ps| - 1].attrs)
  }

  /** The slot each property is given. */
  function Slots(ps: seq<Property>): (slots: seq<int>)
    ensures |slots| == |ps|
    decreases |ps|
  {
    if ps == [] then [] else Slots(ps[..|ps| - 1]) + [AddSlot(Layout(ps[..|ps| - 1]), ps[|ps| - 1].key)]
  }

  /** In a tree, or changed in place without recorded children. */
  ghost predicate Settled(e: Engine, s: Addr)
    reads e
  {
    s in e.nodes && (e.InTree(s) || Edges(e.nodes[s]) == map[])
  }

  lemma RootInTree(e: Engine, s: Addr)
    requires e.Valid() && s in e.nodes && s in e.holds && s in e.roots.Values
    ensures e.InTree(s)
  {
    ReferenceCount(e, s);
  }

  lemma ChildlessSafe(n: Node, v: View, k: Key, attrs: Attrs)
    requires Edges(n) == map[]
    ensures InPlaceSafe(n, v, k, attrs)
  {
    hide Edges;
  }

  /** One more property. */
  method AddOne(e: Engine, s: Addr, p: Property, maxTreeProps: nat) returns (t: Addr, slot: nat)
    requires e.Valid() && e.Faithful() && s in e.holds && Settled(e, s) && IsPropKey(p.key) && s in e.store.shapes
    modifies e, e.store
    ensures e.Valid() && e.Faithful() && e.holds == old(e.holds) - multiset{s} + multiset{t} && Settled(e, t)
    ensures t in e.store.shapes && e.store.View(t) == Add(old(e.store.View(s)), p.key, p.attrs)
    ensures slot == AddSlot(old(e.store.View(s)), p.key)
  {
    hide Edges, Add, AddSlot, Grown;
    if !e.InTree(s) { ChildlessSafe(e.nodes[s], e.store.View(s), p.key, p.attrs); }
    hide InPlaceSafe;
    t, slot := e.AddTr(s, p.key, p.attrs, maxTreeProps);
  }

  /**
   An empty object and then its properties: the object's list and every slot are those of
   Layout and Slots, whatever other objects have done to the engine before.
   */
  method Build(e: Engine, limit: nat, ps: seq<Property>, maxTreeProps: nat) returns (s: Addr, slots: seq<int>)
    requires e.Valid() && e.Faithful() && forall i :: 0 <= i < |ps| ==> IsPropKey(ps[i].key)
    modifies e, e.store
    ensures e.Valid() && e.Faithful() && e.holds == old(e.holds) + multiset{s}
    ensures s in e.store.shapes && e.store.View(s) == Layout(ps) && slots == Slots(ps)
  {
    hide Engine.Valid, Engine.Faithful, Settled, Layout, Slots, Shapes.Store.View;
    s := Start(e, limit);
    slots := [];
    NothingYet(ps);
    var n := 0;
    while n < |ps|
      invariant n <= |ps| && e.Valid() && e.Faithful() && e.holds == old(e.holds) + multiset{s} && Settled(e, s)
      invariant s in e.store.shapes && e.store.View(s) == Layout(ps[..n]) && slots == Slots(ps[..n])
    {
      var slot: nat;
      assert s in e.holds;
      s, slot := AddOne(e, s, ps[n], maxTreeProps);
      slots := slots + [slot];
      OneMore(ps, n);
      n := n + 1;
    }
    assert ps[..n] == ps;
  }

  /** The empty object. */
  method Start(e: Engine, limit: nat) returns (s: Addr)
    requires e.Valid() && e.Faithful()
    modifies e, e.store
    ensures e.Valid() && e.Faithful() && e.holds == old(e.holds) + multiset{s} && Settled(e, s)
    ensures s in e.store.shapes && e.store.View(s) == []
  {
    s := e.NewRoot(limit);
    RootInTree(e, s);
  }

  lemma NothingYet(ps: seq<Property>)
    ensures Layout(ps[..0]) == [] && Slots(ps[..0]) == []
  {
  }

  lemma OneMore(ps: seq<Property>, n: nat)
    requires n < |ps|
    ensures Layout(ps[..n + 1]) == Add(Layout(ps[..n]), ps[n].key, ps[n].attrs)
    ensures Slots(ps[..n + 1]) == Slots(ps[..n]) + [AddSlot(Layout(ps[..n]), ps[n].key)]
  {
    hide Add, AddSlot;
    assert ps[..n + 1][..n] == ps[..n];
  }
}
