/**
 Changing a shape in place other than by adding to it: attributes, accessors, deletion
 and compaction.  An object makes sure first that nobody shares its shape, but that check
 does not look at recorded children; this module says exactly when they go stale.
 */
module ShapeWrites {
  import opened Basics
  import opened ShapeIndex
  import opened ShapeProps
  import opened ShapeTree
  import opened ShapeEngine
  import opened ShapeRecord

  datatype Write =
    | SetAttrs(key: Key, attrs: Attrs)
    | Mutate(slot: nat, attrs: Attrs, getter: Accessor, setter: Accessor)
    | Remove(slot: nat)
    | Compact

  /** Whether there is anything to write to. */
  predicate Takes(v: View, w: Write) {
    match w
    case SetAttrs(k, _) => SlotOf(v, k) != -1
    case Mutate(i, _, _, _) => i < |v| && v[i].Live?
    case Remove(i) => i < |v| && v[i].Live?
    case Compact => true
  }

  function Written(v: View, w: Write): View {
    if !Takes(v, w) then v
    else
      match w
      case SetAttrs(k, a) => Add(v, k, a)
      case Mutate(i, a, g, s) => v[i := Live(v[i].key, a, g, s)]
      case Remove(i) => ShapeProps.Remove(v, i)
      case Compact => ShapeProps.Compact(v)
  }

  /** Every child of n was recorded for key k. */
  predicate OnlyOn(n: Node, k: Key) {
    forall ck :: ck in Edges(n) ==> ck % KEY_SPAN == k
  }

  /** The guard a write would need: when the children of a shape with list v survive it. */
  predicate WriteSafe(n: Node, v: View, w: Write) {
    match w
    case SetAttrs(k, a) => SlotOf(v, k) == -1 || v[SlotOf(v, k)].attrs == a || OnlyOn(n, k)
    case Mutate(i, a, g, s) =>
      || i >= |v| || v[i].Deleted? || v[i] == Live(v[i].key, a, g, s)
      || Edges(n) == map[]
      || (OnlyOn(n, v[i].key) && g == v[i].getter && s == v[i].setter)
    case Remove(i) =>
      || i >= |v| || v[i].Deleted?
      || Edges(n) == map[]
      || (OnlyOn(n, v[i].key) && LastPlain(v, i))
    case Compact => Edges(n) == map[] || LiveCount(v) == |v|
  }

  /** Slot i is the last one, only it is trimmed, and it has no accessors. */
  predicate LastPlain(v: View, i: nat)
    requires i < |v| && v[i].Live?
  {
    i == |v| - 1 && (i == 0 || v[i - 1].Live?) && v[i].getter.None? && v[i].setter.None?
  }

  // ---- one list, one recorded child ----

  lemma KeyAt(v: View, i: nat)
    requires WellKeyed(v) && i < |v| && v[i].Live?
    ensures SlotOf(v, v[i].key) == i
  {
    assert Has(v, i, v[i].key);
  }

  lemma MutateSteps(v: View, i: nat, p: Prop, k: Key, a: Attrs)
    requires WellKeyed(v) && i < |v| && v[i].Live? && p.Live? && p.key == v[i].key && p != v[i]
    ensures Add(v[i := p], k, a) == Add(v, k, a) <==>
              k == v[i].key && p.getter == v[i].getter && p.setter == v[i].setter
  {
    hide SlotOf;
    var w := v[i := p];
    KeyAt(v, i);
    KeyAt(w, i);
    if k != v[i].key {
      assert Add(w, k, a)[i] == p && Add(v, k, a)[i] == v[i];
    } else {
      assert Add(w, k, a)[i] == p.(attrs := a) && Add(v, k, a)[i] == v[i].(attrs := a);
    }
  }

  lemma KeyGone(v: View, i: nat)
    requires WellKeyed(v) && i < |v| && v[i].Live?
    ensures SlotOf(ShapeProps.Remove(v, i), v[i].key) == -1
  {
    hide SlotOf, Trim, LiveCount;
    var w, k := ShapeProps.Remove(v, i), v[i].key;
    assert forall j :: 0 <= j < |w| ==> w[j] == v[i := Deleted][j];
    assert forall j :: !Has(w, j, k);
  }

  lemma RemoveSteps(v: View, i: nat, k: Key, a: Attrs)
    requires WellKeyed(v) && i < |v| && v[i].Live?
    ensures Add(ShapeProps.Remove(v, i), k, a) == Add(v, k, a) <==> k == v[i].key && LastPlain(v, i)
  {
    hide SlotOf, Trim, LiveCount;
    var w := ShapeProps.Remove(v, i);
    KeyGone(v, i);
    KeyAt(v, i);
    if k != v[i].key {
      assert Has(Add(v, k, a), i, v[i].key);
      assert !Has(Add(w, k, a), i, v[i].key) by { assert !Has(w, i, v[i].key); }
    } else if LastPlain(v, i) {
      TrimLast(v, i);
      assert Add(w, k, a) == Add(v, k, a);
    } else if Add(w, k, a) == Add(v, k, a) {
      RemovedSame(v, i, w, a);
    }
  }

  lemma TrimLast(v: View, i: nat)
    requires i + 1 == |v| && v[i].Live? && (i == 0 || v[i - 1].Live?)
    ensures ShapeProps.Remove(v, i) == v[..i]
  {
    hide LiveCount;
    assert v[i := Deleted][..i] == v[..i];
  }

  lemma RemovedSame(v: View, i: nat, w: View, a: Attrs)
    requires WellKeyed(v) && i < |v| && v[i].Live? && w == ShapeProps.Remove(v, i)
    requires w + [Live(v[i].key, a, None, None)] == v[i := v[i].(attrs := a)]
    ensures LastPlain(v, i)
  {
    hide Trim, LiveCount;
    var n := |v| - 1;
    var u := v[i := v[i].(attrs := a)];
    assert u[n] == Live(v[i].key, a, None, None);
    assert i == n;
    assert i > 0 ==> w[i - 1] == u[i - 1] == v[i - 1];
  }

  lemma HolesStay(v: View, k: Key, a: Attrs)
    ensures LiveCount(Add(v, k, a)) == |Add(v, k, a)| <==> LiveCount(v) == |v|
  {
    var i := SlotOf(v, k);
    hide SlotOf, LiveCount;
    if i == -1 {
      LiveCountAppend(v, Live(k, a, None, None));
    } else {
      LiveCountUpdate(v, i, v[i].(attrs := a));
    }
  }

  lemma CompactSteps(v: View, k: Key, a: Attrs)
    requires LiveCount(v) != |v|
    ensures Add(ShapeProps.Compact(v), k, a) != Add(v, k, a)
  {
    hide Add, LiveCount, ShapeProps.Compact;
    AllLive(ShapeProps.Compact(v));
    HolesStay(v, k, a);
    HolesStay(ShapeProps.Compact(v), k, a);
  }

  /** Which recorded children a write leaves right. */
  ghost predicate ChildSafe(v: View, w: Write, k: Key)
    requires Takes(v, w)
  {
    match w
    case SetAttrs(k', _) => k == k'
    case Mutate(i, _, g, s) => k == v[i].key && g == v[i].getter && s == v[i].setter
    case Remove(i) => k == v[i].key && LastPlain(v, i)
    case Compact => false
  }

  lemma WrittenSteps(v: View, w: Write, ck: Key)
    requires WellKeyed(v) && Takes(v, w) && Written(v, w) != v
    ensures Step(Written(v, w), ck) == Step(v, ck) <==> ChildSafe(v, w, ck % KEY_SPAN)
  {
    hide Add, SlotOf, ShapeProps.Remove, ShapeProps.Compact, LiveCount, WellKeyed, LastPlain;
    var k, a := ck % KEY_SPAN, ck / KEY_SPAN;
    match w
    case SetAttrs(k', b) =>
      if k == k' { AddAgain(v, k, b, a); } else { AddDiffers(v, k', b, k, a); }
    case Mutate(i, b, g, s) => MutateSteps(v, i, Live(v[i].key, b, g, s), k, a);
    case Remove(i) => RemoveSteps(v, i, k, a);
    case Compact =>
      if LiveCount(v) == |v| { CompactWhole(v); }
      CompactSteps(v, k, a);
  }

  // ---- the trees ----

  /** Outside the trees: no root and nobody's recorded child. */
  ghost predicate Loose(nodes: Nodes, roots: set<Addr>, s: Addr) {
    s in nodes && nodes[s].parent.None? && s !in roots
  }

  /**
   A changed list keeps the recorded transitions right exactly when each recorded child would
   still be made from it.
   */
  lemma ChangeExact(nodes: Nodes, roots: set<Addr>, holds: multiset<Addr>, all: AllViews, s: Addr, w: View)
    requires TreeOk(nodes, roots, holds, {}) && s in nodes && s in all && FaithfulIn(nodes, roots, all) && w != all[s]
    ensures FaithfulIn(nodes, roots, all[s := w]) <==>
              Loose(nodes, roots, s) && forall ck :: ck in Edges(nodes[s]) ==> Step(w, ck) == Step(all[s], ck)
  {
    hide Edges, Step;
    var all' := all[s := w];
    if Loose(nodes, roots, s) {
      NoEdgeInto(nodes, roots, holds, s);
      forall p, ck | p in nodes && p != s && ck in Edges(nodes[p]) ensures EdgeRight(all', p, ck, Edges(nodes[p])[ck]) {
        assert EdgeRight(all, p, ck, Edges(nodes[p])[ck]);
      }
      forall ck | ck in Edges(nodes[s])
        ensures EdgeRight(all', s, ck, Edges(nodes[s])[ck]) <==> Step(w, ck) == Step(all[s], ck)
      {
        assert EdgeRight(all, s, ck, Edges(nodes[s])[ck]);
      }
    } else if s !in roots {
      assert Up(nodes, s);
      var p, k := nodes[s].parent.value, nodes[s].parentKey;
      assert EdgeRight(all, p, k, s);
      assert !EdgeRight(all', p, k, s);
    }
  }

  lemma WriteExact(nodes: Nodes, roots: set<Addr>, holds: multiset<Addr>, all: AllViews, s: Addr, w: Write)
    requires TreeOk(nodes, roots, holds, {}) && s in nodes && s in all && WellKeyed(all[s])
    ensures FaithfulIn(nodes, roots, all) ==>
              (FaithfulIn(nodes, roots, all[s := Written(all[s], w)]) <==>
                Written(all[s], w) == all[s] || (Loose(nodes, roots, s) && WriteSafe(nodes[s], all[s], w)))
  {
    hide TreeOk, WellKeyed, Step, Edges, Written, FaithfulIn;
    var v := all[s];
    var u := Written(v, w);
    if u == v {
      assert all[s := u] == all;
    } else if FaithfulIn(nodes, roots, all) {
      ChangeExact(nodes, roots, holds, all, s, u);
      Changes(v, w);
      forall ck | ck in Edges(nodes[s]) ensures Step(u, ck) == Step(v, ck) <==> ChildSafe(v, w, ck % KEY_SPAN) {
        WrittenSteps(v, w, ck);
      }
      SafeForAll(nodes[s], v, w);
    }
  }

  lemma Changes(v: View, w: Write)
    requires Written(v, w) != v
    ensures Takes(v, w)
  {
  }

  lemma SafeForAll(n: Node, v: View, w: Write)
    requires Takes(v, w) && Written(v, w) != v
    ensures WriteSafe(n, v, w) <==> forall ck :: ck in Edges(n) ==> ChildSafe(v, w, ck % KEY_SPAN)
  {
    hide SlotOf, ShapeProps.Remove, ShapeProps.Compact, LiveCount, LastPlain, Edges;
    if Edges(n) != map[] {
      var ck :| ck in Edges(n);
      if w.Compact? && LiveCount(v) == |v| { CompactWhole(v); }
    }
  }

  // ---- the operations ----

  /** The transitions stay right exactly when nothing changes, or s is outside the trees and its children survive. */
  ghost predicate KeepsFaith(e: Engine, s: Addr, v: View, w: Write)
    reads e
  {
    Written(v, w) == v || (Loose(e.nodes, e.roots.Values, s) && WriteSafe(e.nodes[s], v, w))
  }

  lemma WroteOk(e: Engine, s: Addr, w: Write, all: AllViews)
    requires TreeOk(e.nodes, e.roots.Values, e.holds, {}) && s in e.nodes && s in all && WellKeyed(all[s])
    requires e.store.All() == all[s := Written(all[s], w)]
    ensures FaithfulIn(e.nodes, e.roots.Values, all) ==> (e.Faithful() <==> KeepsFaith(e, s, all[s], w))
  {
    hide Shapes.Store.Inv, Shapes.Store.All, TreeOk, FaithfulIn, WriteSafe, Written, WellKeyed, Loose;
    WriteExact(e.nodes, e.roots.Values, e.holds, all, s, w);
  }

  lemma ReadyToWrite(e: Engine, s: Addr)
    requires e.Valid() && s in e.nodes
    ensures s in e.store.shapes && WellKeyed(e.store.View(s)) && e.store.Inv()
    ensures s in e.store.All() && e.store.All()[s] == e.store.View(s)
  {
    hide Shapes.Store.Inv, TreeOk, WellKeyed;
    e.store.Facts(s);
    e.store.AllView(s);
  }

  lemma SameList(all: AllViews, s: Addr)
    requires s in all
    ensures all[s := all[s]] == all
  {
  }

  /** ant_shape_set_attrs_interned and ant_shape_set_attrs_symbol */
  method SetAttrsOf(e: Engine, s: Addr, k: Key, attrs: Attrs) returns (ok: bool)
    requires e.Valid() && s in e.nodes && IsKey(k)
    modifies e.store
    ensures e.Valid() && ok == Takes(old(e.store.View(s)), SetAttrs(k, attrs))
    ensures e.store.All() == old(e.store.All())[s := Written(old(e.store.View(s)), SetAttrs(k, attrs))]
    ensures s in e.store.shapes && e.store.shapes[s].bulk == old(e.store.shapes)[s].bulk
    ensures old(e.Faithful()) ==> (e.Faithful() <==> KeepsFaith(e, s, old(e.store.View(s)), SetAttrs(k, attrs)))
  {
    hide Shapes.Store.Inv, Shapes.Store.All, Shapes.Store.View, TreeOk, FaithfulIn, KeepsFaith, WellKeyed, Add, SlotOf;
    hide Shapes.OthersKept;
    ReadyToWrite(e, s);
    ghost var all := e.store.All();
    SameList(all, s);
    ok := e.store.SetAttrs(s, k, attrs);
    WroteOk(e, s, SetAttrs(k, attrs), all);
  }

  /** ant_shape_prop_mut_at, as ant_shape_clear_accessor_slot and the descriptor code use it */
  method MutateSlot(e: Engine, s: Addr, slot: nat, attrs: Attrs, getter: Accessor, setter: Accessor) returns (ok: bool)
    requires e.Valid() && s in e.nodes
    modifies e.store
    ensures e.Valid() && ok == Takes(old(e.store.View(s)), Mutate(slot, attrs, getter, setter))
    ensures e.store.All() == old(e.store.All())[s := Written(old(e.store.View(s)), Mutate(slot, attrs, getter, setter))]
    ensures s in e.store.shapes && e.store.shapes[s].bulk == old(e.store.shapes)[s].bulk
    ensures old(e.Faithful()) ==>
              (e.Faithful() <==> KeepsFaith(e, s, old(e.store.View(s)), Mutate(slot, attrs, getter, setter)))
  {
    hide Shapes.Store.Inv, Shapes.Store.All, Shapes.Store.View, TreeOk, FaithfulIn, KeepsFaith, WellKeyed;
    hide Shapes.OthersKept;
    ReadyToWrite(e, s);
    ghost var all := e.store.All();
    SameList(all, s);
    ok := e.store.Mutate(s, slot, attrs, getter, setter);
    WroteOk(e, s, Mutate(slot, attrs, getter, setter), all);
  }

  /** ant_shape_remove_slot */
  method RemoveSlot(e: Engine, s: Addr, slot: nat) returns (ok: bool)
    requires e.Valid() && s in e.nodes
    modifies e.store
    ensures e.Valid() && ok == Takes(old(e.store.View(s)), Remove(slot))
    ensures e.store.All() == old(e.store.All())[s := Written(old(e.store.View(s)), Remove(slot))]
    ensures s in e.store.shapes && e.store.shapes[s].bulk == old(e.store.shapes)[s].bulk
    ensures old(e.Faithful()) ==> (e.Faithful() <==> KeepsFaith(e, s, old(e.store.View(s)), Remove(slot)))
    ensures ok ==> Shapes.Alone(e.store.shapes, s)
  {
    hide Shapes.Store.Inv, Shapes.Store.All, Shapes.Store.View, TreeOk, FaithfulIn, KeepsFaith, WellKeyed;
    hide ShapeProps.Remove;
    hide Shapes.OthersKept, Shapes.Alone;
    ReadyToWrite(e, s);
    ghost var all := e.store.All();
    SameList(all, s);
    ok := e.store.RemoveSlot(s, slot);
    WroteOk(e, s, Remove(slot), all);
  }

  /** ant_shape_compact */
  method CompactSlots(e: Engine, s: Addr) returns (n: nat)
    requires e.Valid() && s in e.nodes
    modifies e.store
    ensures e.Valid() && n == |Written(old(e.store.View(s)), Compact)|
    ensures e.store.All() == old(e.store.All())[s := Written(old(e.store.View(s)), Compact)]
    ensures s in e.store.shapes && e.store.shapes[s].bulk == old(e.store.shapes)[s].bulk
    ensures old(e.Faithful()) ==> (e.Faithful() <==> KeepsFaith(e, s, old(e.store.View(s)), Compact))
  {
    hide Shapes.Store.Inv, Shapes.Store.All, Shapes.Store.View, TreeOk, FaithfulIn, KeepsFaith, WellKeyed;
    hide ShapeProps.Compact;
    hide Shapes.OthersKept;
    ReadyToWrite(e, s);
    ghost var all := e.store.All();
    n := e.store.CompactShape(s);
    WroteOk(e, s, Compact, all);
  }

  // ---- an object writes to its shape ----

  /** ant_shape_is_shared */
  predicate IsShared(e: Engine, s: Addr)
    reads e, e.store
    requires s in e.nodes && s in e.store.shapes && e.store.shapes[s].descriptors in e.store.descs
  {
    e.nodes[s].refCount > 1 || e.store.descs[e.store.shapes[s].descriptors].refCount > 1
  }

  lemma SharedExact(e: Engine, s: Addr)
    requires e.Valid() && s in e.nodes
    ensures s in e.store.shapes && e.store.shapes[s].descriptors in e.store.descs
    ensures IsShared(e, s) <==> e.nodes[s].refCount > 1 || !Shapes.Alone(e.store.shapes, s)
  {
    hide Shapes.Store.Inv, TreeOk, Shapes.Alone;
    e.store.Facts(s);
    e.store.SoleUser(s);
  }

  lemma LooseWhenSole(e: Engine, s: Addr)
    requires e.Valid() && s in e.nodes && s in e.holds && e.nodes[s].refCount <= 1
    ensures Loose(e.nodes, e.roots.Values, s) && e.nodes[s].refCount == 1 && e.holds[s] == 1
  {
    ReferenceCount(e, s);
  }

  lemma Held(e: Engine, s: Addr)
    requires e.Valid() && s in e.holds
    ensures s in e.nodes && s in e.store.shapes
  {
    hide Shapes.Store.Inv;
  }

  lemma ApartFromAll(e: Engine)
    requires e.Valid()
    ensures forall o :: o in e.store.shapes ==> e.store.shapes[o].descriptors < e.store.next
  {
    hide Shapes.Store.Inv, TreeOk;
    forall o | o in e.store.shapes ensures e.store.shapes[o].descriptors < e.store.next { e.store.RecordBelow(o); }
  }

  lemma FewerAt(was: ShapeStore.Shapes, now: ShapeStore.Shapes, t: Addr)
    requires Fewer(was, now) && t in now
    ensures t in was && now[t] == was[t]
  {
  }

  lemma FreshAlone(was: ShapeStore.Shapes, mid: ShapeStore.Shapes, now: ShapeStore.Shapes, t: Addr, next: Addr)
    requires forall o :: o in was ==> was[o].descriptors < next
    requires Shapes.OthersKept(was, mid, t) && mid.Keys == was.Keys + {t} && mid[t].descriptors >= next
    requires Fewer(mid, now) && t in now
    ensures Shapes.Alone(now, t)
  {
  }

  /** A clone is on its own, and stays so when the shape it came from is released. */
  lemma CloneOnItsOwn(e: Engine, n0: Nodes, t: Addr)
    requires e.Valid() && t in e.nodes && t !in n0 && Kept(n0[t := LONE], e.nodes) && e.holds[t] == 1
    requires e.roots.Values <= n0.Keys
    ensures e.nodes[t].refCount == 1 && Loose(e.nodes, e.roots.Values, t) && Edges(e.nodes[t]) == map[]
  {
    hide Shapes.Store.Inv, TreeOk, Edges;
    LoneEdges();
    assert KeptUp(n0[t := LONE], e.nodes, t);
    ReferenceCount(e, t);
  }

  method MoveToClone(e: Engine, s: Addr) returns (t: Addr)
    requires e.Valid() && s in e.holds && s in e.nodes
    modifies e, e.store
    ensures e.Valid() && e.holds == old(e.holds) - multiset{s} + multiset{t} && e.roots == old(e.roots)
            && e.epoch == old(e.epoch)
    ensures t in e.holds && t in e.nodes && e.nodes[t].refCount == 1 && Loose(e.nodes, e.roots.Values, t)
    ensures t in e.store.shapes && e.store.shapes[t].bulk == old(e.store.shapes)[s].bulk
    ensures Shapes.Alone(e.store.shapes, t) && t in e.store.shapes && e.store.View(t) == old(e.store.View(s))
    ensures t !in old(e.nodes) && Edges(e.nodes[t]) == map[] && Kept(old(e.nodes)[t := LONE], e.nodes)
    ensures e.store.All() == Only(old(e.store.All())[t := old(e.store.View(s))], e.nodes.Keys)
    ensures old(e.Faithful()) ==> e.Faithful()
  {
    hide Engine.Valid, Engine.Faithful, Shapes.Store.Inv, Shapes.Store.All, Shapes.Alone, Shapes.OthersKept, Kept;
    hide Edges, Fewer, Anchored, Loose;
    ApartFromAll(e);
    e.LiveShape(s);
    e.RootsLive();
    Unheld(e);
    ghost var n0, shapes, next := e.nodes, e.store.shapes, e.store.next;
    t := e.Clone(s, 0);
    ghost var mid := e.store.shapes;
    assert t in e.holds - multiset{s};
    e.Release(s);
    Held(e, t);
    FewerAt(mid, e.store.shapes, t);
    FreshAlone(shapes, mid, e.store.shapes, t, next);
    CloneOnItsOwn(e, n0, t);
    e.store.AllView(t);
    assert e.holds == old(e.holds) - multiset{s} + multiset{t};
  }

  lemma Unheld(e: Engine)
    requires e.Valid()
    ensures forall o :: o in e.holds ==> o in e.nodes
  {
    hide Shapes.Store.Inv;
  }

  /** js_obj_ensure_unique_shape: the object keeps its shape when nobody shares it, or moves to a clone. */
  method EnsureUnique(e: Engine, s: Addr) returns (t: Addr)
    requires e.Valid() && s in e.holds && s in e.nodes
    modifies e, e.store
    ensures e.Valid() && e.holds == old(e.holds) - multiset{s} + multiset{t} && e.roots == old(e.roots)
            && e.epoch == old(e.epoch)
    ensures t in e.holds && t in e.nodes && e.nodes[t].refCount == 1 && Loose(e.nodes, e.roots.Values, t)
    ensures t in e.store.shapes && e.store.shapes[t].bulk == old(e.store.shapes)[s].bulk
    ensures Shapes.Alone(e.store.shapes, t) && t in e.store.shapes && e.store.View(t) == old(e.store.View(s))
    ensures t == s <==> old(e.nodes)[s].refCount == 1 && Shapes.Alone(old(e.store.shapes), s)
    ensures t == s ==> e.nodes == old(e.nodes) && e.store.All() == old(e.store.All())
    ensures t != s ==> t !in old(e.nodes) && Edges(e.nodes[t]) == map[] && Kept(old(e.nodes)[t := LONE], e.nodes)
    ensures t != s ==> e.store.All() == Only(old(e.store.All())[t := old(e.store.View(s))], e.nodes.Keys)
    ensures old(e.Faithful()) ==> e.Faithful()
  {
    hide Shapes.Store.Inv, Shapes.Store.All, TreeOk, FaithfulIn, Shapes.Alone, Shapes.OthersKept, Kept, Edges, Only;
    hide Fewer, Anchored, Loose;
    SharedExact(e, s);
    if !IsShared(e, s) {
      LooseWhenSole(e, s);
      assert e.holds == e.holds - multiset{s} + multiset{s};
      return s;
    }
    t := MoveToClone(e, s);
  }

  predicate Proper(w: Write) {
    w.SetAttrs? ==> IsKey(w.key)
  }

  /** One write to a shape, whoever else uses it. */
  method Apply(e: Engine, s: Addr, w: Write) returns (ok: bool)
    requires e.Valid() && s in e.nodes && Proper(w)
    modifies e.store
    ensures e.Valid() && ok == Takes(old(e.store.View(s)), w)
    ensures e.store.All() == old(e.store.All())[s := Written(old(e.store.View(s)), w)]
    ensures s in e.store.shapes && e.store.shapes[s].bulk == old(e.store.shapes)[s].bulk
    ensures ok && w.Remove? ==> Shapes.Alone(e.store.shapes, s)
    ensures old(e.Faithful()) ==> (e.Faithful() <==> KeepsFaith(e, s, old(e.store.View(s)), w))
  {
    hide Engine.Valid, Engine.Faithful, Shapes.Store.Inv, Shapes.Store.All, Shapes.Store.View, KeepsFaith, Shapes.Alone;
    hide Written;
    match w
    case SetAttrs(k, attrs) => ok := SetAttrsOf(e, s, k, attrs);
    case Mutate(slot, attrs, getter, setter) => ok := MutateSlot(e, s, slot, attrs, getter, setter);
    case Remove(slot) => ok := RemoveSlot(e, s, slot);
    case Compact =>
      var n := CompactSlots(e, s);
      ok := true;
  }

  lemma EngineKeys(e: Engine)
    requires e.Valid()
    ensures e.nodes.Keys == e.store.shapes.Keys == e.store.All().Keys
  {
    hide Shapes.Store.Inv, TreeOk;
    e.store.AllKeys();
  }

  lemma ChildlessWrite(n: Node, v: View, w: Write)
    requires Edges(n) == map[]
    ensures WriteSafe(n, v, w)
  {
    hide Edges, SlotOf;
  }

  /**
   An object changes a property: it makes its shape its own and writes to it.  The
   transitions stay right exactly when it had to move to a clone or the guard holds.
   */
  method Change(e: Engine, s: Addr, w: Write) returns (t: Addr, ok: bool)
    requires e.Valid() && s in e.holds && s in e.nodes && Proper(w)
    modifies e, e.store
    ensures e.Valid() && e.holds == old(e.holds) - multiset{s} + multiset{t} && e.roots == old(e.roots)
            && e.epoch == old(e.epoch)
    ensures t in e.holds && t in e.nodes && e.nodes[t].refCount == 1 && Loose(e.nodes, e.roots.Values, t)
    ensures t in e.store.shapes && e.store.shapes[t].bulk == old(e.store.shapes)[s].bulk
    ensures ok == Takes(old(e.store.View(s)), w) && e.store.View(t) == Written(old(e.store.View(s)), w)
    ensures e.store.All() == Only(old(e.store.All())[t := Written(old(e.store.View(s)), w)], e.nodes.Keys)
    ensures t == s <==> old(e.nodes)[s].refCount == 1 && Shapes.Alone(old(e.store.shapes), s)
    ensures t == s ==> e.nodes == old(e.nodes)
    ensures t != s ==> t !in old(e.nodes) && Edges(e.nodes[t]) == map[] && Kept(old(e.nodes)[t := LONE], e.nodes)
    ensures ok && w.Remove? ==> Shapes.Alone(e.store.shapes, t)
    ensures old(e.Faithful()) ==>
              (e.Faithful() <==>
                || t != s || Written(old(e.store.View(s)), w) == old(e.store.View(s))
                || WriteSafe(old(e.nodes)[s], old(e.store.View(s)), w))
  {
    hide Engine.Valid, Engine.Faithful, Shapes.Store.Inv, Shapes.Store.All, Shapes.Alone, Kept, Edges, WriteSafe;
    hide Written, Takes, Loose, Only;
    EngineKeys(e);
    ghost var all, v := e.store.All(), e.store.View(s);
    t := EnsureUnique(e, s);
    if t != s { ChildlessWrite(e.nodes[t], v, w); }
    ghost var mid := e.store.All();
    ok := Apply(e, t, w);
    e.store.AllView(t);
    OnlyWritten(all, mid, e.nodes.Keys, s, t, v, Written(v, w));
  }

  lemma OnlyWritten(all: AllViews, mid: AllViews, live: set<Addr>, s: Addr, t: Addr, v: View, u: View)
    requires t in live && if t == s then mid == all && all.Keys == live else mid == Only(all[t := v], live)
    ensures mid[t := u] == Only(all[t := u], live)
  {
  }

  // ---- a run that leaves a stale child behind ----

  const FOUR := Live(4, 7, None, None)
  const SIX := Live(6, 7, None, None)

  /** An object on a clone of the empty root adds key k in place. */
  method AddAlone(e: Engine, s: Addr, k: Key)
    requires e.Valid() && e.Faithful() && s in e.nodes && s in e.holds && e.nodes[s] == LONE && IsPropKey(k)
    requires s in e.store.shapes && !e.store.shapes[s].bulk && SlotOf(e.store.View(s), k) == -1
    modifies e, e.store
    ensures e.Valid() && e.Faithful() && s in e.holds && e.nodes == old(e.nodes)
    ensures s in e.store.shapes && !e.store.shapes[s].bulk
            && e.store.View(s) == old(e.store.View(s)) + [Live(k, 7, None, None)]
  {
    hide Shapes.Store.Inv, Shapes.Store.All, TreeOk, FaithfulIn, Edges, SlotOf;
    LoneEdges();
    var t, slot := e.AddTr(s, k, 7, TRANSITION_MAX_PROPS);
  }

  /** It gets keys 2 and 4 and deletes key 2, which leaves a hole. */
  method WithHole(hash: Key -> nat) returns (e: Engine, s: Addr)
    ensures fresh(e) && fresh(e.store) && e.Valid() && e.Faithful() && s in e.nodes && e.holds[s] == 1
    ensures e.nodes[s].refCount == 1 && e.nodes[s].parent.None? && s !in e.roots.Values && Edges(e.nodes[s]) == map[]
    ensures s in e.store.shapes && e.store.View(s) == [Deleted, FOUR] && !e.store.shapes[s].bulk
    ensures Shapes.Alone(e.store.shapes, s)
  {
    hide Engine.Valid, Engine.Faithful, Shapes.Store.Inv, Shapes.Store.All, Edges, Shapes.Alone, Kept;
    e, s := LoneClone(hash);
    AddAlone(e, s, 2);
    OnlySlot(e.store.View(s), 4);
    AddAlone(e, s, 4);
    LoneEdges();
    ChildlessWrite(e.nodes[s], e.store.View(s), Remove(0));
    var ok;
    s, ok := Change(e, s, Remove(0));
    LooseWhenSole(e, s);
  }

  /** A second holder moves on along a transition for key 6; because of the hole, the child has its own record. */
  method BranchedOff(hash: Key -> nat) returns (e: Engine, s: Addr, child: Addr)
    ensures fresh(e) && fresh(e.store) && e.Valid() && e.Faithful() && s in e.nodes && s in e.holds
            && e.nodes[s].refCount == 1
    ensures s in e.store.shapes && e.store.View(s) == [Deleted, FOUR] && Shapes.Alone(e.store.shapes, s)
    ensures child in e.nodes && child != s && Edges(e.nodes[s]) == map[ChildKey(6, 7) := child]
    ensures child in e.store.shapes && e.store.View(child) == [Deleted, FOUR, SIX]
  {
    hide Engine.Valid, Engine.Faithful, Shapes.Store.Inv, Shapes.Store.All, Edges, Shapes.Alone, Kept;
    e, s := WithHole(hash);
    ghost var n := e.nodes[s];
    e.Retain(s);
    EdgesSame(n, e.nodes[s]);
    HoleyList();
    ReferenceCount(e, s);
    e.store.AllView(s);
    Counts(e, s);
    var slot;
    child, slot := e.AddTr(s, 6, 7, TRANSITION_MAX_PROPS);
    e.LiveShape(s);
    e.store.AllView(s);
    ReferenceCount(e, s);
  }

  lemma Counts(e: Engine, s: Addr)
    requires e.Valid() && s in e.nodes
    ensures s in e.store.shapes && e.store.shapes[s].count == |e.store.View(s)|
  {
    hide Shapes.Store.Inv, TreeOk;
    e.store.RecordBelow(s);
  }

  lemma HoleyList()
    ensures SlotOf([Deleted, FOUR], 6) == -1 && LiveCount([Deleted, FOUR]) == 1
            && ShapeProps.Remove([Deleted, FOUR], 1) == []
    ensures SlotOf([Deleted, FOUR, SIX], 6) == 2
  {
    var v: View := [Deleted, FOUR];
    assert v[..1] == [Deleted] && v[..1][..0] == [];
    var u := v[1 := Deleted];
    assert u[..1] == [Deleted] && u[..1][..0] == [];
  }

  /** Alone again, the first one deletes key 4 in place; the child recorded for key 6 still has it. */
  method ChildBehind(hash: Key -> nat) returns (e: Engine, s: Addr, child: Addr)
    ensures fresh(e) && fresh(e.store) && e.Valid() && s in e.nodes && s in e.holds && e.InTree(s)
    ensures s in e.store.shapes && e.store.View(s) == []
    ensures child in e.nodes && child != s && Edges(e.nodes[s]) == map[ChildKey(6, 7) := child]
    ensures child in e.store.shapes && e.store.View(child) == [Deleted, FOUR, SIX]
  {
    hide Engine.Valid, Engine.Faithful, Shapes.Store.Inv, Shapes.Store.All, Edges, Shapes.Alone, Kept, Loose, WriteSafe;
    e, s, child := BranchedOff(hash);
    HoleyList();
    e.store.AllView(child);
    var t, ok := Change(e, s, Remove(1));
    e.LiveShape(child);
    e.store.AllView(child);
    ghost var n := e.nodes[s];
    e.Retain(s);
    EdgesSame(n, e.nodes[s]);
  }

  /** The next object to add key 6 there gets a layout with key 4 in it. */
  method StaleAfterRemove(hash: Key -> nat) returns (e: Engine, s: Addr, t: Addr, slot: nat)
    ensures e.Valid() && s in e.store.shapes && t in e.store.shapes && e.store.View(s) == []
    ensures e.store.View(t) == [Deleted, FOUR, SIX] != Add(e.store.View(s), 6, 7)
  {
    hide Engine.Valid, Engine.Faithful, Shapes.Store.Inv, Shapes.Store.All, Edges, SlotOf, Shapes.KeepsAlone;
    var child;
    e, s, child := ChildBehind(hash);
    HoleyList();
    e.store.AllView(child);
    e.store.AllView(s);
    t, slot := e.AddTr(s, 6, 7, TRANSITION_MAX_PROPS);
    e.LiveShape(s);
    e.store.AllView(s);
    e.store.AllView(t);
  }
}
