/**
 The store of hidden classes: every operation that reads or changes a property list.

 Each method's contract gives the property lists of ALL shapes after the call, so
 "an operation on one shape leaves every other shape's list alone" is part of it.
 */
module Shapes {
  import opened Basics
  import opened ShapeIndex
  import opened ShapeProps
  import opened ShapeRecord
  import opened ShapeStore

  /** The part of a shape that other shapes' operations never touch. */
  ghost predicate SameLayout(x: Shape, y: Shape) {
    && x.count == y.count && x.deletedCount == y.deletedCount && x.inobjLimit == y.inobjLimit
    && x.bulk == y.bulk && x.jitInvalid == y.jitInvalid && x.descriptors == y.descriptors
  }

  /**
   What compiled code may rely on: while a shape's JIT guard is clear, every slot it has
   seen stays where and what it was.
   */
  ghost predicate Guarded(x: Shape, v: View, x': Shape, v': View) {
    && x'.inobjLimit == x.inobjLimit && x'.bulk == x.bulk
    && (x.jitInvalid ==> x'.jitInvalid)
    && (!x'.jitInvalid ==> v <= v')
  }

  ghost predicate OthersKept(shapes: Shapes, shapes': Shapes, s: Addr) {
    forall t :: t in shapes && t != s ==> t in shapes' && SameLayout(shapes[t], shapes'[t])
  }

  /** No other shape uses s's record. */
  predicate Alone(shapes: Shapes, s: Addr) {
    s in shapes && forall t :: t in shapes && t != s ==> shapes[t].descriptors != shapes[s].descriptors
  }

  /** No shape on s's record sees more of it than s. */
  ghost predicate Longest(shapes: Shapes, s: Addr) {
    && s in shapes
    && forall t :: t in shapes && shapes[t].descriptors == shapes[s].descriptors ==> shapes[t].count <= shapes[s].count
  }

  /** When a child may start out on s's record. */
  ghost predicate Shareable(shapes: Shapes, s: Addr, v: View) {
    v != [] && LiveCount(v) == |v| && Longest(shapes, s)
  }

  /** Whoever had its record alone still has, unless its child may share it. */
  ghost predicate KeepsAlone(was: Shapes, now: Shapes, s: Addr, v: View) {
    Alone(was, s) && !Shareable(was, s, v) ==> Alone(now, s)
  }

  /** When adding k to s's list v leaves s on the record it is on. */
  ghost predicate StaysPut(shapes: Shapes, s: Addr, v: View, k: Key, attrs: Attrs) {
    Add(v, k, attrs) == v || if SlotOf(v, k) == -1 then Longest(shapes, s) else Alone(shapes, s)
  }

  /** The loop of shape_reclaim_descriptor_tail, then the rebuild when nobody sees the tail. */
  method ReclaimRecord(hash: Key -> nat, shapes: Shapes, a: Addr, d: Desc) returns (r: Desc)
    requires Contents(hash, d) && Owned(shapes, a, d)
    requires forall o :: o in d.owners && o in shapes ==> shapes[o].count <= |d.props|
    ensures Contents(hash, r) && |r.index| == |d.index|
    ensures r == d.(props := r.props, index := r.index, indexUsed := r.indexUsed, tailDirty := false)
    ensures r.props <= d.props
    ensures forall o :: o in d.owners && o in shapes ==> shapes[o].count <= |r.props|
    ensures exists o :: o in d.owners && o in shapes && shapes[o].count == |r.props|
  {
    hide IndexOk, NoGcRefs;
    if !d.tailDirty { return d; }
    var count := 0;
    ghost var best := d.owners[0];
    for i := 0 to |d.owners|
      invariant count <= |d.props|
      invariant forall j :: 0 <= j < i ==> shapes[d.owners[j]].count <= count
      invariant best in d.owners && (if i > 0 then shapes[best].count == count else count == 0)
    {
      var o := d.owners[i];
      assert o in d.owners;
      if shapes[o].count > count { count := shapes[o].count; }
      if shapes[o].count == count { best := o; }
      if count == |d.props| {
        return d.(tailDirty := false);
      }
    }
    r := Truncate(hash, d, count);
  }

  /** shape_refresh_descriptor_pointers */
  method Refresh(shapes: Shapes, d: Desc) returns (r: Shapes)
    requires forall o :: o in d.owners ==> o in shapes
    ensures r == Refreshed(shapes, d)
  {
    r := shapes;
    for i := 0 to |d.owners|
      invariant r.Keys == shapes.Keys
      invariant forall t :: t in shapes ==>
        r[t] == if t in d.owners[..i] then shapes[t].(propsAt := d.propsAt, indexAt := d.indexAt) else shapes[t]
    {
      var o := d.owners[i];
      assert o in d.owners;
      assert d.owners[..i + 1] == d.owners[..i] + [o];
      r := r[o := r[o].(propsAt := d.propsAt, indexAt := d.indexAt)];
    }
    assert d.owners[..|d.owners|] == d.owners;
  }

  class Store {
    const hash: Key -> nat
    var shapes: Shapes
    var descs: Descs
    var bytes: int            // g_shape_bytes
    var next: Addr            // no record lives at or above this address

    constructor (hash: Key -> nat)
      ensures this.hash == hash && Inv() && shapes == map[] && descs == map[] && bytes == 0
    {
      this.hash, shapes, descs, bytes, next := hash, map[], map[], 0, 0;
    }

    ghost predicate Inv()
      reads this
    {
      && HeapOk(hash, shapes, descs)
      && bytes == |shapes| * SHAPE_BYTES + Total(descs)
      && (forall s :: s in shapes ==> s < next)
      && (forall a :: a in descs ==> a < next)
    }

    function View(s: Addr): View
      reads this
      requires s in shapes
    {
      ViewOf(descs, shapes[s])
    }

    ghost function All(): map<Addr, View>
      reads this
    {
      Views(shapes, descs)
    }

    /** Makes d the record of s's family and x the new shape s. */
    method Publish(s: Addr, x: Shape, d: Desc, total: int)
      requires Inv() && s in shapes && shapes[s].descriptors in descs
      requires var a := shapes[s].descriptors;
               && x.descriptors == a && Contents(hash, d)
               && d.owners == descs[a].owners && d.refCount == descs[a].refCount
               && (forall t :: t in shapes && t != s && shapes[t].descriptors == a ==>
                     shapes[t].count <= |descs[a].props| && shapes[t].count <= |d.props|
                     && d.props[..shapes[t].count] == descs[a].props[..shapes[t].count])
               && total - bytes == Storage(d) - Storage(descs[a])
      requires x.count <= |d.props| && x.deletedCount + LiveCount(d.props[..x.count]) == x.count
      requires d.tailDirty || x.count == |d.props|
               || exists o :: o in d.owners && o != s && o in shapes && shapes[o].count == |d.props|
      modifies this
      ensures Inv() && All() == old(All())[s := d.props[..x.count]]
      ensures shapes.Keys == old(shapes.Keys) && OthersKept(old(shapes), shapes, s) && SameLayout(shapes[s], x)
      ensures View(s) == d.props[..x.count]
      ensures descs == old(descs)[x.descriptors := d] && next == old(next)
    {
      hide HeapOk, Contents, LiveCount, Views, Total, Storage, Published, Fits, Refreshed;
      var a := shapes[s].descriptors;
      ghost var was, wasDescs := shapes, descs;
      OwnersLive(hash, shapes, descs, a);
      InUse(hash, shapes, descs, s);
      var refreshed := Refresh(shapes, d);
      shapes := refreshed[s := x.(propsAt := d.propsAt, indexAt := d.indexAt)];
      PublishReady(hash, was, wasDescs, shapes, a, d, s, x);
      PublishOk(hash, was, wasDescs, shapes, a, d, s);
      TotalPut(descs, a, d);
      descs := descs[a := d];
      bytes := total;
      assert |shapes| == |shapes.Keys| && |was| == |was.Keys|;
    }
  
    lemma Below(s: Addr)
      requires Inv() && s in shapes
      ensures s < next
    {
      hide HeapOk, Total;
    }

    lemma RecordBelow(s: Addr)
      requires Inv() && s in shapes
      ensures shapes[s].descriptors < next && shapes[s].count == |View(s)|
    {
      hide Inv;
      Facts(s);
    }

    lemma AllView(s: Addr)
      requires s in shapes
      ensures s in All() && All()[s] == View(s)
    {
      hide ViewOf;
    }

    /** Every record counts its owners, which are the shapes that use it, and every byte is accounted for. */
    lemma Conserved()
      requires Inv()
      ensures bytes == |shapes| * SHAPE_BYTES + Total(descs)
      ensures forall a :: a in descs ==> descs[a].refCount == |descs[a].owners| > 0 && Distinct(descs[a].owners)
      ensures forall a, s :: a in descs ==> (s in descs[a].owners <==> s in shapes && shapes[s].descriptors == a)
      ensures forall s :: s in shapes ==> shapes[s].descriptors in descs
    {
      hide Contents, Total;
      forall s | s in shapes ensures shapes[s].descriptors in descs { assert LinkedIn(descs, s, shapes[s]); }
      forall a | a in descs ensures Owned(shapes, a, descs[a]) {}
    }

    lemma SoleUser(s: Addr)
      requires Inv() && s in shapes && shapes[s].descriptors in descs
      ensures descs[shapes[s].descriptors].refCount == 1 <==> Alone(shapes, s)
    {
      hide HeapOk, Total;
      InUse(hash, shapes, descs, s);
      SharersOwn(hash, shapes, descs, shapes[s].descriptors);
      SoleOwnerAlone(shapes, shapes[s].descriptors, descs[shapes[s].descriptors], s);
    }

    /** After a reclaim a record is as long as its longest view. */
    lemma LongestSeen(s: Addr)
      requires Inv() && s in shapes && shapes[s].descriptors in descs && !descs[shapes[s].descriptors].tailDirty
      ensures Longest(shapes, s) <==> shapes[s].count == |descs[shapes[s].descriptors].props|
    {
      hide HeapOk, Total, Contents, LiveCount, WellKeyed;
      Facts(s);
      FamilyFits(s);
      var d := descs[shapes[s].descriptors];
      var o :| o in d.owners && o in shapes && shapes[o].count == |d.props|;
      assert shapes[o].descriptors == shapes[s].descriptors;
    }

    lemma AllKeys()
      ensures All().Keys == shapes.Keys
    {
      hide ViewOf;
    }

    /** What the invariant says about one shape. */
    lemma Facts(s: Addr)
      requires Inv() && s in shapes
      ensures var x := shapes[s];
              && x.descriptors in descs && s < next && x.descriptors < next
              && x.count <= |descs[x.descriptors].props| && View(s) == descs[x.descriptors].props[..x.count]
              && x.deletedCount + LiveCount(View(s)) == x.count && descs[x.descriptors].refCount > 0
              && Contents(hash, descs[x.descriptors]) && WellKeyed(View(s))
              && Owned(shapes, x.descriptors, descs[x.descriptors]) && s in descs[x.descriptors].owners
    {
      hide Contents, Owned, LiveCount, WellKeyed, HeapOk, Total;
      HeapFacts(hash, shapes, descs, s);
      ContentsWellKeyed(hash, descs[shapes[s].descriptors]);
      PrefixWellKeyed(descs[shapes[s].descriptors].props, shapes[s].count);
    }

    /** Everyone who shares s's record owns it and sees a prefix of it. */
    lemma FamilyFits(s: Addr)
      requires Inv() && s in shapes
      ensures shapes[s].descriptors in descs
      ensures var d := descs[shapes[s].descriptors];
              forall t :: t in shapes && shapes[t].descriptors == shapes[s].descriptors ==>
                shapes[t].count <= |d.props| && t in d.owners
    {
      hide HeapOk;
      InUse(hash, shapes, descs, s);
      forall t | t in shapes && shapes[t].descriptors == shapes[s].descriptors
        ensures shapes[t].count <= |descs[shapes[s].descriptors].props| && t in descs[shapes[s].descriptors].owners
      {
        InUse(hash, shapes, descs, t);
      }
    }

    /** shape_reclaim_descriptor_tail, after an optional jit_invalid mark. */
    method ReclaimTail(s: Addr, jit: bool)
      requires Inv() && s in shapes
      modifies this
      ensures Inv() && All() == old(All()) && shapes.Keys == old(shapes.Keys) && next == old(next)
      ensures OthersKept(old(shapes), shapes, s)
      ensures SameLayout(shapes[s], old(shapes)[s].(jitInvalid := old(shapes)[s].jitInvalid || jit))
      ensures shapes[s].descriptors in descs && !descs[shapes[s].descriptors].tailDirty
    {
      hide Contents, LiveCount, Views, HeapOk, Total;
      Facts(s);
      FamilyFits(s);
      var x := shapes[s];
      var r := ReclaimRecord(hash, shapes, x.descriptors, descs[x.descriptors]);
      assert r.props[..x.count] == View(s);
      Publish(s, x.(jitInvalid := x.jitInvalid || jit), r, bytes);
      ViewsKeep(old(shapes), old(descs), s);
    }

    /** shape_detach_descriptors: gives s a private copy of its prefix. */
    method Detach(s: Addr, extra: nat)
      requires Inv() && s in shapes
      modifies this
      ensures Inv() && All() == old(All()) && shapes.Keys == old(shapes.Keys) && next >= old(next)
      ensures OthersKept(old(shapes), shapes, s)
      ensures shapes[s].descriptors in descs
              && SameLayout(shapes[s], old(shapes)[s].(descriptors := shapes[s].descriptors))
      ensures var d := descs[shapes[s].descriptors]; |d.props| == shapes[s].count && d.refCount == 1
      ensures shapes[s].descriptors == old(next)
    {
      hide Contents, LiveCount, Views, HeapOk, Total, Unlinked, Storage, Owned;
      Facts(s);
      var x := shapes[s];
      var copy, total := CopyPrefix(hash, descs[x.descriptors], x.count, extra, s, next + 1, next + 2, bytes);
      var y := x.(descriptors := next, propsAt := next + 1, indexAt := next + 2);
      DetachOk(hash, shapes, descs, s, y, copy);
      shapes := shapes[s := y];
      bytes := if descs[x.descriptors].refCount == 1 then total - Storage(descs[x.descriptors]) else total;
      descs := Unlinked(descs, s, x)[next := copy];
      next := next + 3;
    }

    /** shape_prepare_append: afterwards s's view is all its record holds. */
    method PrepareAppend(s: Addr)
      requires Inv() && s in shapes
      modifies this
      ensures Inv() && All() == old(All()) && shapes.Keys == old(shapes.Keys) && next >= old(next)
      ensures OthersKept(old(shapes), shapes, s)
      ensures shapes[s].descriptors in descs
              && SameLayout(shapes[s], old(shapes)[s].(descriptors := shapes[s].descriptors))
      ensures |descs[shapes[s].descriptors].props| == shapes[s].count
      ensures if Longest(old(shapes), s) then shapes[s].descriptors == old(shapes)[s].descriptors
              else shapes[s].descriptors >= old(next)
    {
      hide Inv, All, Longest;
      ReclaimTail(s, false);
      Facts(s);
      LongestSeen(s);
      SameLongest(old(shapes), shapes, s);
      if |descs[shapes[s].descriptors].props| != shapes[s].count {
        Detach(s, 1);
      }
    }

    /** shape_prepare_metadata_write: afterwards s owns its record alone. */
    method PrepareWrite(s: Addr)
      requires Inv() && s in shapes
      modifies this
      ensures Inv() && All() == old(All()) && shapes.Keys == old(shapes.Keys) && next >= old(next)
      ensures OthersKept(old(shapes), shapes, s)
      ensures shapes[s].descriptors in descs
      ensures SameLayout(shapes[s], old(shapes)[s].(descriptors := shapes[s].descriptors, jitInvalid := true))
      ensures var d := descs[shapes[s].descriptors]; |d.props| == shapes[s].count && d.refCount == 1
      ensures if Alone(old(shapes), s) then shapes[s].descriptors == old(shapes)[s].descriptors
              else shapes[s].descriptors >= old(next)
    {
      hide Inv, All, Longest, Alone;
      ReclaimTail(s, true);
      Facts(s);
      SoleUser(s);
      LongestSeen(s);
      SameLongest(old(shapes), shapes, s);
      var d := descs[shapes[s].descriptors];
      if !(|d.props| == shapes[s].count && d.refCount == 1) {
        Detach(s, 0);
      }
    }
  
    // ---- reading ----

    /** shape_lookup agrees with linear search of the shape's own list. */
    method LookupKey(s: Addr, k: Key) returns (slot: int)
      requires Inv() && s in shapes && IsKey(k)
      ensures slot == SlotOf(View(s), k)
    {
      hide HeapOk, Contents, Owned, Total, SlotOf;
      Facts(s);
      slot := Lookup(hash, descs[shapes[s].descriptors], shapes[s].count, k);
    }

    // ---- writing ----

    /** Replaces one live slot of a shape that owns its record alone. */
    method WriteSlot(s: Addr, slot: nat, p: Prop, refs: bool)
      requires Inv() && s in shapes && slot < |View(s)| && View(s)[slot].Live? && p.Live? && p.key == View(s)[slot].key
      requires shapes[s].descriptors in descs
      requires var d := descs[shapes[s].descriptors];
               |d.props| == shapes[s].count && d.refCount == 1 && (d.mayHaveGcRefs || refs || !p.HoldsGcRefs())
      modifies this
      ensures Inv() && All() == old(All())[s := old(View(s))[slot := p]]
      ensures shapes.Keys == old(shapes.Keys) && OthersKept(old(shapes), shapes, s) && next == old(next)
      ensures SameLayout(shapes[s], old(shapes)[s])
    {
      hide HeapOk, Contents, Total, LiveCount, Views;
      Facts(s);
      var x := shapes[s];
      var d := descs[x.descriptors];
      assert d.props[..x.count] == d.props;
      var e := d.(mayHaveGcRefs := d.mayHaveGcRefs || refs);
      FlagOk(hash, d, e);
      WriteOk(hash, e, slot, p);
      var r := e.(props := e.props[slot := p]);
      assert r.props[..x.count] == r.props;
      LoneOwner(shapes, x.descriptors, d, s);
      FamilyFits(s);
      Publish(s, x, r, bytes);
    }

    method WriteAttrs(s: Addr, slot: nat, attrs: Attrs)
      requires Inv() && s in shapes && slot < |View(s)| && View(s)[slot].Live?
      modifies this
      ensures Inv() && All() == old(All())[s := old(View(s))[slot := old(View(s))[slot].(attrs := attrs)]]
      ensures shapes.Keys == old(shapes.Keys) && OthersKept(old(shapes), shapes, s) && next >= old(next)
      ensures Guarded(old(shapes)[s], old(View(s)), shapes[s], View(s))
      ensures if Alone(old(shapes), s) then shapes[s].descriptors == old(shapes)[s].descriptors
              else shapes[s].descriptors >= old(next)
    {
      hide HeapOk, Contents, Total, ViewOf, Views, Owned, LiveCount, WellKeyed, Alone;
      PrepareWrite(s);
      ViewsAt(shapes, descs, old(shapes), old(descs), s);
      Facts(s);
      var p := descs[shapes[s].descriptors].props[slot];
      FlagCovers(hash, descs[shapes[s].descriptors], slot);
      WriteSlot(s, slot, p.(attrs := attrs), false);
    }

    /** ant_shape_set_attrs_interned and ant_shape_set_attrs_symbol */
    method SetAttrs(s: Addr, k: Key, attrs: Attrs) returns (ok: bool)
      requires Inv() && s in shapes && IsKey(k)
      modifies this
      ensures Inv() && shapes.Keys == old(shapes.Keys) && OthersKept(old(shapes), shapes, s) && next >= old(next)
      ensures ok <==> SlotOf(old(View(s)), k) != -1
      ensures All() == if ok then old(All())[s := ShapeProps.Add(old(View(s)), k, attrs)] else old(All())
      ensures Guarded(old(shapes)[s], old(View(s)), shapes[s], View(s))
    {
      hide Inv, All, View;
      var slot := LookupKey(s, k);
      ok := slot != -1;
      if ok { WriteAttrs(s, slot, attrs); }
    }

    /** shape_add_key */
    method AddKey(s: Addr, k: Key, attrs: Attrs) returns (slot: nat)
      requires Inv() && s in shapes && IsKey(k)
      modifies this
      ensures Inv() && All() == old(All())[s := ShapeProps.Add(old(View(s)), k, attrs)]
      ensures slot == AddSlot(old(View(s)), k)
      ensures shapes.Keys == old(shapes.Keys) && OthersKept(old(shapes), shapes, s) && next >= old(next)
      ensures Guarded(old(shapes)[s], old(View(s)), shapes[s], View(s))
      ensures if StaysPut(old(shapes), s, old(View(s)), k, attrs) then shapes[s].descriptors ==
                old(shapes)[s].descriptors
              else shapes[s].descriptors >= old(next)
    {
      hide HeapOk, Contents, Total, SlotOf, Views, Alone, Longest;
      var found := LookupKey(s, k);
      Facts(s);
      if found != -1 {
        slot := found;
        if descs[shapes[s].descriptors].props[slot].attrs != attrs {
          WriteAttrs(s, slot, attrs);
        } else {
          assert View(s)[slot := View(s)[slot].(attrs := attrs)] == View(s);
          ViewsKeep(shapes, descs, s);
        }
      } else {
        slot := AppendKey(s, k, attrs);
      }
    }

    /** The appending half of shape_add_key. */
    method AppendKey(s: Addr, k: Key, attrs: Attrs) returns (slot: nat)
      requires Inv() && s in shapes && IsKey(k) && SlotOf(View(s), k) == -1
      modifies this
      ensures Inv() && All() == old(All())[s := old(View(s)) + [Live(k, attrs, None, None)]]
      ensures slot == |old(View(s))|
      ensures shapes.Keys == old(shapes.Keys) && OthersKept(old(shapes), shapes, s) && next >= old(next)
      ensures Guarded(old(shapes)[s], old(View(s)), shapes[s], View(s))
      ensures if Longest(old(shapes), s) then shapes[s].descriptors == old(shapes)[s].descriptors
              else shapes[s].descriptors >= old(next)
    {
      hide HeapOk, Contents, Total, SlotOf, ViewOf, Views, Storage, LiveCount, Owned, WellKeyed, Longest;
      PrepareAppend(s);
      ViewsAt(shapes, descs, old(shapes), old(descs), s);
      Facts(s);
      var x := shapes[s];
      var d := descs[x.descriptors];
      assert d.props[..x.count] == d.props;
      var r, total := Append(hash, d, Live(k, attrs, None, None), next, next + 1, bytes);
      slot := x.count;
      FamilyFits(s);
      LiveCountAppend(d.props, Live(k, attrs, None, None));
      assert r.props[..x.count + 1] == r.props;
      Publish(s, x.(count := x.count + 1), r, total);
      next := next + 2;
    }

    /** Rewrites a slot through ant_shape_prop_mut_at; the key is not writable. */
    method Mutate(s: Addr, slot: nat, attrs: Attrs, getter: Accessor, setter: Accessor) returns (ok: bool)
      requires Inv() && s in shapes
      modifies this
      ensures Inv() && shapes.Keys == old(shapes.Keys) && OthersKept(old(shapes), shapes, s) && next >= old(next)
      ensures ok <==> slot < |old(View(s))| && old(View(s))[slot].Live?
      ensures All() == if ok
                       then old(All())[s := old(View(s))[slot := Live(old(View(s))[slot].key, attrs, getter, setter)]]
                       else old(All())
      ensures Guarded(old(shapes)[s], old(View(s)), shapes[s], View(s))
    {
      hide HeapOk, Contents, Total, ViewOf, Views, Owned, LiveCount, WellKeyed;
      Facts(s);
      if slot >= shapes[s].count { return false; }
      if descs[shapes[s].descriptors].props[slot].Deleted? { return false; }
      PrepareWrite(s);
      ViewsAt(shapes, descs, old(shapes), old(descs), s);
      Facts(s);
      var p := descs[shapes[s].descriptors].props[slot];
      WriteSlot(s, slot, Live(p.key, attrs, getter, setter), true);
      ok := true;
    }

    /** ant_shape_remove_slot */
    method RemoveSlot(s: Addr, slot: nat) returns (ok: bool)
      requires Inv() && s in shapes
      modifies this
      ensures Inv() && shapes.Keys == old(shapes.Keys) && OthersKept(old(shapes), shapes, s) && next >= old(next)
      ensures ok <==> slot < |old(View(s))| && old(View(s))[slot].Live?
      ensures All() == if ok then old(All())[s := Remove(old(View(s)), slot)] else old(All())
      ensures Guarded(old(shapes)[s], old(View(s)), shapes[s], View(s))
      ensures ok ==> Alone(shapes, s)
    {
      hide HeapOk, Contents, Total, ViewOf, Views, LiveCount, Trim, Owned, WellKeyed, Alone;
      Facts(s);
      if slot >= shapes[s].count { return false; }
      PrepareWrite(s);
      ViewsAt(shapes, descs, old(shapes), old(descs), s);
      Facts(s);
      var x := shapes[s];
      var d := descs[x.descriptors];
      if d.props[slot].Deleted? { return false; }
      assert d.props[..x.count] == d.props;
      var r := RemoveAt(hash, d, slot);
      LiveCountUpdate(d.props, slot, Deleted);
      LoneOwner(shapes, x.descriptors, d, s);
      FamilyFits(s);
      assert r.props[..|r.props|] == r.props;
      SoleUser(s);
      ghost var was := shapes;
      Publish(s, x.(count := |r.props|, deletedCount := x.deletedCount + 1 - (x.count - |r.props|)), r, bytes);
      AloneAfter(was, shapes, s);
      ok := true;
    }

    /** ant_shape_compact */
    method CompactShape(s: Addr) returns (n: nat)
      requires Inv() && s in shapes
      modifies this
      ensures Inv() && shapes.Keys == old(shapes.Keys) && OthersKept(old(shapes), shapes, s) && next >= old(next)
      ensures All() == old(All())[s := Compact(old(View(s)))] && n == |Compact(old(View(s)))|
      ensures Guarded(old(shapes)[s], old(View(s)), shapes[s], View(s))
    {
      hide HeapOk, Contents, Total, ViewOf, LiveCount, Views, Compact, Owned, WellKeyed;
      Facts(s);
      if shapes[s].deletedCount == 0 {
        CompactWhole(View(s));
        ViewsKeep(shapes, descs, s);
        return shapes[s].count;
      }
      PrepareWrite(s);
      ViewsAt(shapes, descs, old(shapes), old(descs), s);
      Facts(s);
      var x := shapes[s];
      var d := descs[x.descriptors];
      assert d.props[..x.count] == d.props;
      var r := CompactRecord(hash, d);
      AllLive(r.props);
      LoneOwner(shapes, x.descriptors, d, s);
      FamilyFits(s);
      n := |r.props|;
      assert r.props[..n] == r.props;
      Publish(s, x.(count := n, deletedCount := 0), r, bytes);
    }
  
    // ---- creating and dropping shapes ----

    /** The record behind a root shape: ant_shape_new_with_inobj_limit without its counters. */
    method NewShape(limit: nat) returns (s: Addr)
      requires Inv()
      modifies this
      ensures Inv() && s !in old(shapes) && All() == old(All())[s := []] && s == old(next) < next
      ensures shapes.Keys == old(shapes.Keys) + {s} && OthersKept(old(shapes), shapes, s)
      ensures shapes[s].inobjLimit == limit && !shapes[s].bulk && !shapes[s].jitInvalid
    {
      hide HeapOk, Total, Views;
      s := next;
      var d := Desc(1, false, false, 0, [], [], 0, next + 2, next + 3, [s]);
      var x := Shape(0, 0, limit, false, false, next + 1, next + 2, next + 3);
      Insert(s, x, d, bytes + Storage(d));
    }

    /** Accounts for one more shape with a record of its own. */
    method Insert(s: Addr, x: Shape, d: Desc, total: int)
      requires Inv() && s == next && x.descriptors == next + 1
      requires Contents(hash, d) && d.refCount == 1 && d.owners == [s] && Fits(x, d) && x.count == |d.props|
      requires total == bytes + Storage(d)
      modifies this
      ensures Inv() && All() == old(All())[s := d.props] && next == old(next) + 4
      ensures shapes == old(shapes)[s := x] && descs == old(descs)[x.descriptors := d]
    {
      hide HeapOk, Contents, Total, Views, Fits;
      LinkFreshOk(hash, shapes, descs, s, x, d);
      TotalPut(descs, x.descriptors, d);
      shapes, descs := shapes[s := x], descs[x.descriptors := d];
      bytes, next := total + SHAPE_BYTES, next + 4;
    }

    /** shape_clone_reserve: an independent shape with the same list. */
    method CloneReserve(s: Addr, extra: nat) returns (t: Addr)
      requires Inv() && s in shapes
      modifies this
      ensures Inv() && t !in old(shapes) && All() == old(All())[t := old(View(s))] && t == old(next) < next
      ensures shapes.Keys == old(shapes.Keys) + {t} && OthersKept(old(shapes), shapes, t)
      ensures shapes[t].bulk == shapes[s].bulk && shapes[t].inobjLimit == shapes[s].inobjLimit && !shapes[t].jitInvalid
      ensures shapes[t].count == |old(View(s))|
      ensures shapes[t].descriptors in descs && shapes[t].descriptors >= old(next)
      ensures descs == old(descs)[shapes[t].descriptors := descs[shapes[t].descriptors]]
      ensures descs[shapes[t].descriptors].owners == [t]
    {
      hide HeapOk, Contents, Total, Views, LiveCount, Owned, WellKeyed;
      Facts(s);
      var x := shapes[s];
      var copy, total := CopyPrefix(hash, descs[x.descriptors], x.count, extra, next, next + 2, next + 3, bytes);
      t := next;
      assert copy.props[..x.count] == copy.props;
      var y := x.(jitInvalid := false, descriptors := next + 1, propsAt := next + 2, indexAt := next + 3);
      Insert(t, y, copy, total);
    }

    /** shape_copy_for_transition: shares the record when its tail is exactly s's view. */
    method CopyForTransition(s: Addr) returns (t: Addr)
      requires Inv() && s in shapes
      modifies this
      ensures Inv() && t !in old(shapes) && All() == old(All())[t := old(View(s))] && t == old(next) < next
      ensures shapes.Keys == old(shapes.Keys) + {t}
      ensures forall o :: o in old(shapes) ==> SameLayout(shapes[o], old(shapes)[o])
      ensures shapes[t].inobjLimit == shapes[s].inobjLimit && !shapes[t].jitInvalid
      ensures shapes[t].count == |old(View(s))|
      ensures if Shareable(old(shapes), s, old(View(s))) then shapes[t].descriptors == shapes[s].descriptors
              else shapes[t].descriptors >= old(next)
    {
      hide Inv, Views, LiveCount, Owned, WellKeyed, ViewOf, Longest;
      ReclaimTail(s, false);
      ViewsAt(shapes, descs, old(shapes), old(descs), s);
      Facts(s);
      LongestSeen(s);
      SameLongest(old(shapes), shapes, s);
      var x := shapes[s];
      var d := descs[x.descriptors];
      if x.count == 0 || x.deletedCount != 0 || x.count != |d.props| {
        t := CloneReserve(s, 1);
        return;
      }
      t := Share(s);
    }

    /** A second shape on s's record. */
    method Share(s: Addr) returns (t: Addr)
      requires Inv() && s in shapes && shapes[s].deletedCount == 0
      modifies this
      ensures Inv() && t !in old(shapes) && All() == old(All())[t := old(View(s))] && t == old(next) < next
      ensures t in shapes && shapes == old(shapes)[t := shapes[t]]
      ensures shapes[t].inobjLimit == shapes[s].inobjLimit && !shapes[t].jitInvalid && !shapes[t].bulk
      ensures shapes[t].count == shapes[s].count && shapes[t].descriptors == shapes[s].descriptors
    {
      hide HeapOk, Total, Views, ViewOf;
      InUse(hash, shapes, descs, s);
      var x := shapes[s];
      var d := descs[x.descriptors];
      t := next;
      ShareOk(hash, shapes, descs, s, t);
      TotalPut(descs, x.descriptors, d.(refCount := d.refCount + 1, owners := [t] + d.owners));
      shapes := shapes[t := Shape(x.count, 0, x.inobjLimit, false, false, x.descriptors, d.propsAt, d.indexAt)];
      descs := descs[x.descriptors := d.(refCount := d.refCount + 1, owners := [t] + d.owners)];
      bytes, next := bytes + SHAPE_BYTES, next + 1;
    }

    /** The tail of shape_destroy: unlink the record and free the shape. */
    method Drop(s: Addr)
      requires Inv() && s in shapes
      modifies this
      ensures Inv() && All() == old(All()) - {s} && shapes == old(shapes) - {s} && next == old(next)
      ensures old(shapes)[s].descriptors in old(descs)
      ensures old(shapes)[s].descriptors in descs <==> !Alone(old(shapes), s)
    {
      hide HeapOk, Total, Views, Unlinked, Storage, Alone;
      DropOk(hash, shapes, descs, s);
      SoleUser(s);
      UnlinkedHas(descs, s, shapes[s]);
      var x := shapes[s];
      var freed := if descs[x.descriptors].refCount == 1 then Storage(descs[x.descriptors]) else 0;
      bytes := bytes - freed - SHAPE_BYTES;
      descs := Unlinked(descs, s, x);
      shapes := shapes - {s};
    }
  }

  lemma SharersOwn(hash: Key -> nat, shapes: Shapes, descs: Descs, a: Addr)
    requires HeapOk(hash, shapes, descs) && a in descs
    ensures Owned(shapes, a, descs[a])
    ensures forall t :: t in shapes && shapes[t].descriptors == a ==> t in descs[a].owners
  {
    hide Contents, LiveCount, Owned;
    forall t | t in shapes && shapes[t].descriptors == a ensures t in descs[a].owners {
      assert LinkedIn(descs, t, shapes[t]);
    }
  }

  lemma SoleOwnerAlone(shapes: Shapes, a: Addr, d: Desc, s: Addr)
    requires Owned(shapes, a, d) && s in d.owners
    requires forall t :: t in shapes && shapes[t].descriptors == a ==> t in d.owners
    ensures d.refCount == 1 <==> Alone(shapes, s)
  {
    if d.refCount != 1 {
      assert d.owners[0] in d.owners && d.owners[1] in d.owners && d.owners[0] != d.owners[1];
    }
  }

  lemma SameLongest(shapes: Shapes, shapes': Shapes, s: Addr)
    requires s in shapes && shapes'.Keys == shapes.Keys
    requires forall o :: o in shapes ==>
               shapes'[o].descriptors == shapes[o].descriptors && shapes'[o].count == shapes[o].count
    ensures Longest(shapes', s) <==> Longest(shapes, s)
    ensures Alone(shapes', s) <==> Alone(shapes, s)
    ensures Alone(shapes, s) ==> Longest(shapes, s)
  {
  }

  /** A fresh child t of s, after the key was added, is on s's record exactly when it extends s's list there. */
  lemma ChildShares(was: Shapes, mid: Shapes, now: Shapes, s: Addr, t: Addr, v: View, k: Key, attrs: Attrs, next: Addr,
                    next': Addr)
    requires s in was && t !in was && mid.Keys == was.Keys + {t} && now.Keys == mid.Keys
             && was[s].descriptors < next <= next'
    requires (forall o :: o in was ==> SameLayout(mid[o], was[o])) && OthersKept(mid, now, t)
             && mid[t].count == was[s].count
    requires if Shareable(was, s, v) then mid[t].descriptors == mid[s].descriptors else mid[t].descriptors >= next
    requires if StaysPut(mid, t, v, k, attrs) then now[t].descriptors == mid[t].descriptors
             else now[t].descriptors >= next'
    ensures now[t].descriptors == now[s].descriptors <==> Shareable(was, s, v) && v <= Add(v, k, attrs)
    ensures KeepsAlone(was, now, s, v)
  {
    hide LiveCount, SlotOf;
    if Shareable(was, s, v) {
      assert mid[s].descriptors == mid[t].descriptors && s in mid;
      assert Longest(mid, t) && !Alone(mid, t);
    } else {
      StillAlone(was, now, s, t);
    }
  }

  lemma StillAlone(was: Shapes, now: Shapes, s: Addr, t: Addr)
    requires s in was && t !in was && now.Keys == was.Keys + {t} && now[t].descriptors != was[s].descriptors
    requires forall o :: o in was ==> now[o].descriptors == was[o].descriptors
    ensures Alone(was, s) ==> Alone(now, s)
  {
  }

  lemma CloneApart(was: Shapes, mid: Shapes, now: Shapes, s: Addr, t: Addr, v: View, next: Addr)
    requires s in was && t !in was && mid.Keys == was.Keys + {t} && OthersKept(was, mid, t) && was[s].descriptors < next
    requires now.Keys == mid.Keys && OthersKept(mid, now, t) && now[t].descriptors >= next
    ensures KeepsAlone(was, now, s, v)
  {
    hide Shareable;
    StillAlone(was, now, s, t);
  }

  lemma KeepsRefl(shapes: Shapes, s: Addr, v: View)
    ensures KeepsAlone(shapes, shapes, s, v)
  {
  }

  lemma UnlinkedHas(descs: Descs, s: Addr, x: Shape)
    requires x.descriptors in descs && descs[x.descriptors].refCount > 0
    ensures x.descriptors in Unlinked(descs, s, x) <==> descs[x.descriptors].refCount != 1
  {
  }

  lemma AloneAfter(shapes: Shapes, shapes': Shapes, s: Addr)
    requires Alone(shapes, s) && s in shapes' && OthersKept(shapes, shapes', s) && shapes'.Keys == shapes.Keys
    requires shapes'[s].descriptors == shapes[s].descriptors
    ensures Alone(shapes', s)
  {
  }

  lemma DropOk(hash: Key -> nat, shapes: Shapes, descs: Descs, s: Addr)
    requires HeapOk(hash, shapes, descs) && s in shapes
    ensures shapes[s].descriptors in descs && descs[shapes[s].descriptors].refCount > 0
    ensures var descs' := Unlinked(descs, s, shapes[s]);
            && HeapOk(hash, shapes - {s}, descs')
            && Views(shapes - {s}, descs') == Views(shapes, descs) - {s}
            && Total(descs') == Total(descs)
               - (if descs[shapes[s].descriptors].refCount == 1 then Storage(descs[shapes[s].descriptors]) else 0)
            && descs'.Keys <= descs.Keys
            && |shapes - {s}| == |shapes| - 1
  {
    hide HeapOk, Total, Views, Unlinked, Storage;
    InUse(hash, shapes, descs, s);
    UnlinkOk(hash, shapes, descs, s);
    UnlinkTotal(descs, s, shapes[s]);
    assert (shapes - {s}).Keys == shapes.Keys - {s};
    assert |(shapes - {s}).Keys| == |shapes.Keys| - 1;
  }

  lemma HeapFacts(hash: Key -> nat, shapes: Shapes, descs: Descs, s: Addr)
    requires HeapOk(hash, shapes, descs) && s in shapes
    ensures var x := shapes[s];
            && x.descriptors in descs && Contents(hash, descs[x.descriptors]) && x.count <= |descs[x.descriptors].props|
            && x.deletedCount + LiveCount(descs[x.descriptors].props[..x.count]) == x.count
            && Owned(shapes, x.descriptors, descs[x.descriptors]) && s in descs[x.descriptors].owners
            && descs[x.descriptors].refCount > 0
  {
    hide Contents, LiveCount;
    assert LinkedIn(descs, s, shapes[s]);
    assert Owned(shapes, shapes[s].descriptors, descs[shapes[s].descriptors]);
  }

  lemma PrefixWellKeyed(v: View, n: nat)
    requires WellKeyed(v) && n <= |v|
    ensures WellKeyed(v[..n])
  {
  }

  lemma ShareOk(hash: Key -> nat, shapes: Shapes, descs: Descs, s: Addr, t: Addr)
    requires HeapOk(hash, shapes, descs) && s in shapes && t !in shapes && shapes[s].descriptors in descs
    requires shapes[s].deletedCount == 0
    ensures var x := shapes[s];
            var d := descs[x.descriptors];
            var y := Shape(x.count, 0, x.inobjLimit, false, false, x.descriptors, d.propsAt, d.indexAt);
            var d' := d.(refCount := d.refCount + 1, owners := [t] + d.owners);
            && HeapOk(hash, shapes[t := y], descs[x.descriptors := d'])
            && Views(shapes[t := y], descs[x.descriptors := d']) == Views(shapes, descs)[t := ViewOf(descs, x)]
  {
    hide Contents, Owned, LiveCount;
    var x := shapes[s];
    var d := descs[x.descriptors];
    assert LinkedIn(descs, s, x);
    var y := Shape(x.count, 0, x.inobjLimit, false, false, x.descriptors, d.propsAt, d.indexAt);
    LinkSharedOk(hash, shapes, descs, t, y);
    assert ViewOf(descs, y) == ViewOf(descs, x);
  }

  lemma ViewsAt(shapes: Shapes, descs: Descs, shapes': Shapes, descs': Descs, s: Addr)
    requires s in shapes && s in shapes' && Views(shapes, descs) == Views(shapes', descs')
    ensures ViewOf(descs, shapes[s]) == ViewOf(descs', shapes'[s])
  {
    assert Views(shapes, descs)[s] == Views(shapes', descs')[s];
  }

  lemma FlagOk(hash: Key -> nat, d: Desc, e: Desc)
    requires Contents(hash, d) && e == d.(mayHaveGcRefs := e.mayHaveGcRefs) && (d.mayHaveGcRefs ==> e.mayHaveGcRefs)
    ensures Contents(hash, e)
  {
    hide IndexOk;
  }

  lemma FlagCovers(hash: Key -> nat, d: Desc, slot: nat)
    requires Contents(hash, d) && slot < |d.props|
    ensures d.mayHaveGcRefs || !d.props[slot].HoldsGcRefs()
  {
    hide IndexOk;
  }

  lemma LoneOwner(shapes: Shapes, a: Addr, d: Desc, s: Addr)
    requires Owned(shapes, a, d) && d.refCount == 1 && s in d.owners
    ensures forall t :: t in d.owners ==> t == s
  {
  }

  lemma ViewsKeep(shapes: Shapes, descs: Descs, s: Addr)
    requires s in shapes
    ensures Views(shapes, descs)[s := ViewOf(descs, shapes[s])] == Views(shapes, descs)
    ensures (Views(shapes, descs) - {s})[s := ViewOf(descs, shapes[s])] == Views(shapes, descs)
  {
  }

  lemma DetachOk(hash: Key -> nat, shapes: Shapes, descs: Descs, s: Addr, y: Shape, copy: Desc)
    requires HeapOk(hash, shapes, descs) && s in shapes && y.descriptors !in descs
    requires shapes[s].descriptors in descs && descs[shapes[s].descriptors].refCount > 0
    requires Contents(hash, copy) && copy.refCount == 1 && copy.owners == [s]
    requires y.count == |copy.props| && copy.props == ViewOf(descs, shapes[s])
    requires y.deletedCount + LiveCount(copy.props) == y.count && y.propsAt == copy.propsAt && y.indexAt == copy.indexAt
    ensures var descs' := Unlinked(descs, s, shapes[s]);
            && HeapOk(hash, shapes[s := y], descs'[y.descriptors := copy])
            && Views(shapes[s := y], descs'[y.descriptors := copy]) == Views(shapes, descs)
            && Total(descs'[y.descriptors := copy]) == Total(descs) + Storage(copy)
               - (if descs[shapes[s].descriptors].refCount == 1 then Storage(descs[shapes[s].descriptors]) else 0)
            && |shapes[s := y]| == |shapes| && descs'.Keys <= descs.Keys
  {
    hide Contents, LiveCount, Views, HeapOk, Total, Unlinked, Storage;
    var descs' := Unlinked(descs, s, shapes[s]);
    UnlinkOk(hash, shapes, descs, s);
    UnlinkTotal(descs, s, shapes[s]);
    assert copy.props[..y.count] == copy.props;
    LinkFreshOk(hash, shapes - {s}, descs', s, y, copy);
    TotalPut(descs', y.descriptors, copy);
    ViewsKeep(shapes, descs, s);
    assert (shapes - {s})[s := y] == shapes[s := y];
    assert shapes[s := y].Keys == shapes.Keys;
  }

  lemma UnlinkTotal(descs: Descs, s: Addr, x: Shape)
    requires x.descriptors in descs && descs[x.descriptors].refCount > 0
    ensures Unlinked(descs, s, x).Keys <= descs.Keys
    ensures Total(Unlinked(descs, s, x)) ==
            Total(descs) - if descs[x.descriptors].refCount == 1 then Storage(descs[x.descriptors]) else 0
  {
    hide Total;
    var d := descs[x.descriptors];
    if d.refCount == 1 {
      TotalPick(descs, x.descriptors);
    } else {
      TotalPut(descs, x.descriptors, Unlinked(descs, s, x)[x.descriptors]);
    }
  }

  lemma OwnersLive(hash: Key -> nat, shapes: Shapes, descs: Descs, a: Addr)
    requires HeapOk(hash, shapes, descs) && a in descs
    ensures forall o :: o in descs[a].owners ==> o in shapes && shapes[o].descriptors == a
  {
    hide Contents, LinkedIn;
    assert Owned(shapes, a, descs[a]);
  }

  lemma PublishReady(hash: Key -> nat, shapes: Shapes, descs: Descs, shapes': Shapes, a: Addr, d: Desc, s: Addr,
                     x: Shape)
    requires HeapOk(hash, shapes, descs) && s in shapes && shapes[s].descriptors == a && a in descs
    requires x.descriptors == a && d.owners == descs[a].owners && d.refCount == descs[a].refCount
    requires s in d.owners && shapes[s].count <= |descs[a].props|
    requires forall t :: t in shapes && t != s && shapes[t].descriptors == a ==>
               shapes[t].count <= |descs[a].props| && shapes[t].count <= |d.props|
               && d.props[..shapes[t].count] == descs[a].props[..shapes[t].count]
    requires x.count <= |d.props| && x.deletedCount + LiveCount(d.props[..x.count]) == x.count
    requires shapes' == Refreshed(shapes, d)[s := x.(propsAt := d.propsAt, indexAt := d.indexAt)]
    requires d.tailDirty || x.count == |d.props|
             || exists o :: o in d.owners && o != s && o in shapes && shapes[o].count == |d.props|
    ensures Published(shapes, shapes', a, descs[a], d, s) && Fits(shapes'[s], d)
    ensures d.tailDirty || exists o :: o in d.owners && o in shapes' && shapes'[o].count == |d.props|
    ensures OthersKept(shapes, shapes', s) && shapes'.Keys == shapes.Keys
  {
    hide Contents, LiveCount, HeapOk;
    OwnersLive(hash, shapes, descs, a);
    forall t | t in shapes && shapes[t].descriptors == a ensures t in d.owners {
      InUse(hash, shapes, descs, t);
    }
    RefreshedKeeps(shapes, d, a);
    if !d.tailDirty {
      if x.count == |d.props| {
        assert shapes'[s].count == |d.props|;
      } else {
        var o :| o in d.owners && o != s && o in shapes && shapes[o].count == |d.props|;
        assert shapes'[o].count == |d.props|;
      }
    }
  }

  lemma RefreshedKeeps(shapes: Shapes, d: Desc, a: Addr)
    requires forall o :: o in d.owners <==> o in shapes && shapes[o].descriptors == a
    ensures Refreshed(shapes, d).Keys == shapes.Keys
    ensures forall t :: t in shapes ==> SameLayout(shapes[t], Refreshed(shapes, d)[t])
    ensures forall t :: t in shapes && shapes[t].descriptors != a ==> Refreshed(shapes, d)[t] == shapes[t]
    ensures forall t :: t in shapes && shapes[t].descriptors == a ==>
              Refreshed(shapes, d)[t].propsAt == d.propsAt && Refreshed(shapes, d)[t].indexAt == d.indexAt
  {
  }
}
