/**
 Hidden classes ("shapes") that share descriptor storage copy-on-write.

 A family of shapes shares one descriptor record: a growing property array and one hash
 index over it.  Each shape sees the prefix of length `count`.  The records live in maps
 keyed by their addresses, so sharing is explicit: two shapes share storage when they hold
 the same descriptor address.  Shapes also cache the addresses of the two arrays, which
 must be refreshed whenever an array moves.
 */
module ShapeStore {
  import opened Basics
  import opened ShapeIndex
  import opened ShapeProps
  import opened ShapeRecord

  const SHAPE_BYTES: nat := 104

  datatype Shape = Shape(
    count: nat,
    deletedCount: nat,
    inobjLimit: nat,
    bulk: bool,
    jitInvalid: bool,
    descriptors: Addr,
    propsAt: Addr,
    indexAt: Addr)

  type Shapes = map<Addr, Shape>
  type Descs = map<Addr, Desc>

  /** Unlinks x from an owner list. */
  function Unlisted(s: seq<Addr>, x: Addr): (r: seq<Addr>)
    ensures forall y :: y in r <==> y in s && y != x
    ensures |r| <= |s|
  {
    if s == [] then []
    else if s[0] == x then Unlisted(s[1..], x)
    else [s[0]] + Unlisted(s[1..], x)
  }

  lemma {:induction false} UnlistedDistinct(s: seq<Addr>, x: Addr)
    requires Distinct(s)
    ensures Distinct(Unlisted(s, x))
    ensures |Unlisted(s, x)| == |s| - if x in s then 1 else 0
  {
    if s != [] {
      UnlistedDistinct(s[1..], x);
      if s[0] == x {
        assert x !in s[1..];
      } else {
        var r := Unlisted(s[1..], x);
        assert s[0] !in s[1..];
        assert s[0] !in r;
        assert Unlisted(s, x) == [s[0]] + r;
      }
    }
  }

  // ---- what one record promises ----

  /** The reference count is the length of the owner list; a clean tail is in somebody's view. */
  ghost predicate Owned(shapes: Shapes, a: Addr, d: Desc) {
    && d.refCount == |d.owners| > 0
    && Distinct(d.owners)
    && (forall o :: o in d.owners ==> o in shapes && shapes[o].descriptors == a)
    && (d.tailDirty || exists o :: o in d.owners && o in shapes && shapes[o].count == |d.props|)
  }

  /** A shape's prefix, hole count and cached addresses fit its record. */
  ghost predicate Fits(x: Shape, d: Desc) {
    && x.count <= |d.props|
    && x.deletedCount + LiveCount(d.props[..x.count]) == x.count
    && x.propsAt == d.propsAt
    && x.indexAt == d.indexAt
  }

  ghost predicate LinkedIn(descs: Descs, s: Addr, x: Shape) {
    && x.descriptors in descs
    && s in descs[x.descriptors].owners
    && Fits(x, descs[x.descriptors])
  }

  ghost predicate HeapOk(hash: Key -> nat, shapes: Shapes, descs: Descs) {
    && (forall s :: s in shapes ==> LinkedIn(descs, s, shapes[s]))
    && (forall a :: a in descs ==> Contents(hash, descs[a]))
    && (forall a :: a in descs ==> Owned(shapes, a, descs[a]))
  }

  /** The property list a shape stands for. */
  function ViewOf(descs: Descs, x: Shape): View {
    if x.descriptors in descs && x.count <= |descs[x.descriptors].props|
    then descs[x.descriptors].props[..x.count] else []
  }

  ghost function Views(shapes: Shapes, descs: Descs): map<Addr, View> {
    map s | s in shapes :: ViewOf(descs, shapes[s])
  }

  lemma ViewsAre(shapes: Shapes, descs: Descs, m: map<Addr, View>)
    requires m.Keys == shapes.Keys && forall s :: s in shapes ==> m[s] == ViewOf(descs, shapes[s])
    ensures Views(shapes, descs) == m
  {
  }

  ghost function Total(descs: Descs): nat {
    if descs == map[] then 0 else var a :| a in descs; Storage(descs[a]) + Total(descs - {a})
  }

  lemma {:induction false} TotalPick(descs: Descs, a: Addr)
    requires a in descs
    ensures Total(descs) == Storage(descs[a]) + Total(descs - {a})
  {
    var e :| e in descs && Total(descs) == Storage(descs[e]) + Total(descs - {e});
    if e != a {
      TotalPick(descs - {e}, a);
      assert descs - {e} - {a} == descs - {a} - {e};
      TotalPick(descs - {a}, e);
    }
  }

  lemma TotalPut(descs: Descs, a: Addr, d: Desc)
    ensures Total(descs[a := d]) == Total(descs) - (if a in descs then Storage(descs[a]) else 0) + Storage(d)
  {
    TotalPick(descs[a := d], a);
    assert descs[a := d] - {a} == descs - {a};
    if a in descs { TotalPick(descs, a); } else { assert descs - {a} == descs; }
  }

  // ---- linking and unlinking ----

  /** shape_unlink_descriptors with shape_descriptors_release. */
  function Unlinked(descs: Descs, s: Addr, x: Shape): Descs
    requires x.descriptors in descs && descs[x.descriptors].refCount > 0
  {
    var d := descs[x.descriptors];
    var d' := d.(refCount := d.refCount - 1, owners := Unlisted(d.owners, s),
                 tailDirty := d.tailDirty || x.count == |d.props|);
    if d'.refCount == 0 then descs - {x.descriptors} else descs[x.descriptors := d']
  }

  lemma OwnedFrame(shapes: Shapes, shapes': Shapes, a: Addr, d: Desc)
    requires Owned(shapes, a, d)
    requires forall o :: o in shapes && shapes[o].descriptors == a ==>
               o in shapes' && shapes'[o].descriptors == a && shapes'[o].count == shapes[o].count
    ensures Owned(shapes', a, d)
  {
  }

  lemma UnlinkedOwned(shapes: Shapes, d: Desc, s: Addr)
    requires s in shapes && s in d.owners && Owned(shapes, shapes[s].descriptors, d)
    requires d.refCount != 1
    ensures Owned(shapes - {s}, shapes[s].descriptors,
                  d.(refCount := d.refCount - 1, owners := Unlisted(d.owners, s),
                     tailDirty := d.tailDirty || shapes[s].count == |d.props|))
  {
    UnlistedDistinct(d.owners, s);
  }

  lemma SoleOwner(shapes: Shapes, a: Addr, d: Desc, s: Addr, t: Addr)
    requires Owned(shapes, a, d) && d.refCount == 1 && s in d.owners && t in d.owners
    ensures s == t && d.owners == [s]
  {
  }

  lemma InUse(hash: Key -> nat, shapes: Shapes, descs: Descs, s: Addr)
    requires HeapOk(hash, shapes, descs) && s in shapes
    ensures shapes[s].descriptors in descs && s in descs[shapes[s].descriptors].owners
    ensures descs[shapes[s].descriptors].refCount == |descs[shapes[s].descriptors].owners| > 0
    ensures shapes[s].count <= |descs[shapes[s].descriptors].props|
  {
    hide Contents, LiveCount;
    assert LinkedIn(descs, s, shapes[s]);
    assert Owned(shapes, shapes[s].descriptors, descs[shapes[s].descriptors]);
  }

  lemma UnlinkOk(hash: Key -> nat, shapes: Shapes, descs: Descs, s: Addr)
    requires HeapOk(hash, shapes, descs) && s in shapes
    ensures shapes[s].descriptors in descs && descs[shapes[s].descriptors].refCount > 0
    ensures HeapOk(hash, shapes - {s}, Unlinked(descs, s, shapes[s]))
    ensures Views(shapes - {s}, Unlinked(descs, s, shapes[s])) == Views(shapes, descs) - {s}
  {
    hide HeapOk, LinkedIn, Views, Unlisted;
    InUse(hash, shapes, descs, s);
    var a := shapes[s].descriptors;
    if descs[a].refCount == 1 {
      UnlinkLast(hash, shapes, descs, s);
    } else {
      UnlinkSome(hash, shapes, descs, s, Unlinked(descs, s, shapes[s])[a]);
    }
  }

  lemma UnlinkLast(hash: Key -> nat, shapes: Shapes, descs: Descs, s: Addr)
    requires HeapOk(hash, shapes, descs) && s in shapes
    requires shapes[s].descriptors in descs && s in descs[shapes[s].descriptors].owners
    requires descs[shapes[s].descriptors].refCount == 1
    ensures HeapOk(hash, shapes - {s}, descs - {shapes[s].descriptors})
    ensures Views(shapes - {s}, descs - {shapes[s].descriptors}) == Views(shapes, descs) - {s}
  {
    hide Contents, Owned, LinkedIn, ViewOf;
    var a := shapes[s].descriptors;
    var shapes', descs' := shapes - {s}, descs - {a};
    forall t | t in shapes'
      ensures LinkedIn(descs', t, shapes'[t]) && ViewOf(descs', shapes'[t]) == ViewOf(descs, shapes[t])
    {
      if shapes[t].descriptors == a && t in descs[a].owners {
        SoleOwner(shapes, a, descs[a], s, t);
      }
      LinkedFrame(descs, descs', t, shapes[t]);
    }
    forall b | b in descs' ensures Owned(shapes', b, descs'[b]) {
      OwnedFrame(shapes, shapes', b, descs[b]);
    }
  }

  lemma UnlinkSome(hash: Key -> nat, shapes: Shapes, descs: Descs, s: Addr, d': Desc)
    requires HeapOk(hash, shapes, descs) && s in shapes
    requires shapes[s].descriptors in descs && s in descs[shapes[s].descriptors].owners
    requires var d := descs[shapes[s].descriptors];
             d.refCount > 1 && d' == d.(refCount := d.refCount - 1, owners := Unlisted(d.owners, s),
                                        tailDirty := d.tailDirty || shapes[s].count == |d.props|)
    ensures HeapOk(hash, shapes - {s}, descs[shapes[s].descriptors := d'])
    ensures Views(shapes - {s}, descs[shapes[s].descriptors := d']) == Views(shapes, descs) - {s}
  {
    hide Contents, Owned, LinkedIn, ViewOf, Unlisted;
    var a := shapes[s].descriptors;
    var shapes', descs' := shapes - {s}, descs[a := d'];
    forall t | t in shapes'
      ensures LinkedIn(descs', t, shapes'[t]) && ViewOf(descs', shapes'[t]) == ViewOf(descs, shapes[t])
    {
      LinkedFrame(descs, descs', t, shapes[t]);
    }
    UnlinkedOwned(shapes, descs[a], s);
    ContentsFrame(hash, descs[a], d');
    forall b | b in descs' && b != a ensures Owned(shapes', b, descs'[b]) {
      OwnedFrame(shapes, shapes', b, descs[b]);
    }
  }

  /** The part of a record that its own invariant and its owners' fit depend on. */
  predicate SameStorage(d: Desc, e: Desc) {
    && d.props == e.props && d.cap == e.cap && d.mayHaveGcRefs == e.mayHaveGcRefs
    && d.index == e.index && d.indexUsed == e.indexUsed && d.propsAt == e.propsAt && d.indexAt == e.indexAt
  }

  lemma ContentsFrame(hash: Key -> nat, d: Desc, e: Desc)
    requires Contents(hash, d) && SameStorage(d, e)
    ensures Contents(hash, e)
  {
  }

  lemma FreshOwned(shapes: Shapes, s: Addr, d: Desc)
    requires s in shapes && d.refCount == 1 && d.owners == [s] && shapes[s].count == |d.props|
    ensures Owned(shapes, shapes[s].descriptors, d)
  {
    assert d.owners[0] == s;
  }

  lemma LinkFreshOk(hash: Key -> nat, shapes: Shapes, descs: Descs, s: Addr, x: Shape, d: Desc)
    requires HeapOk(hash, shapes, descs) && s !in shapes && x.descriptors !in descs
    requires Contents(hash, d) && d.refCount == 1 && d.owners == [s]
    requires Fits(x, d) && x.count == |d.props|
    ensures HeapOk(hash, shapes[s := x], descs[x.descriptors := d])
    ensures Views(shapes[s := x], descs[x.descriptors := d]) == Views(shapes, descs)[s := d.props]
  {
    hide Contents, Owned, LinkedIn, ViewOf;
    var shapes', descs' := shapes[s := x], descs[x.descriptors := d];
    FreshOwned(shapes', s, d);
    FreshLinked(descs', s, x);
    forall t | t in shapes
      ensures LinkedIn(descs', t, shapes'[t]) && ViewOf(descs', shapes'[t]) == ViewOf(descs, shapes[t])
    {
      LinkedFrame(descs, descs', t, shapes[t]);
    }
    forall b | b in descs ensures Owned(shapes', b, descs'[b]) {
      OwnedFrame(shapes, shapes', b, descs[b]);
    }
  }

  lemma FreshLinked(descs: Descs, s: Addr, x: Shape)
    requires x.descriptors in descs && descs[x.descriptors].owners == [s]
    requires Fits(x, descs[x.descriptors]) && x.count == |descs[x.descriptors].props|
    ensures LinkedIn(descs, s, x) && ViewOf(descs, x) == descs[x.descriptors].props
  {
    assert descs[x.descriptors].owners[0] == s;
  }

  lemma LinkedFrame(descs: Descs, descs': Descs, t: Addr, x: Shape)
    requires LinkedIn(descs, t, x)
    requires x.descriptors in descs && t in descs[x.descriptors].owners ==>
               && x.descriptors in descs'
               && t in descs'[x.descriptors].owners
               && SameStorage(descs[x.descriptors], descs'[x.descriptors])
    ensures LinkedIn(descs', t, x) && ViewOf(descs', x) == ViewOf(descs, x)
  {
  }

  lemma SharedOwned(shapes: Shapes, s: Addr, x: Shape, d: Desc)
    requires Owned(shapes, x.descriptors, d) && s !in shapes
    ensures Owned(shapes[s := x], x.descriptors, d.(refCount := d.refCount + 1, owners := [s] + d.owners))
  {
    var d' := d.(refCount := d.refCount + 1, owners := [s] + d.owners);
    if !d.tailDirty {
      var o :| o in d.owners && o in shapes && shapes[o].count == |d.props|;
      assert o in d'.owners;
    }
  }

  lemma LinkSharedOk(hash: Key -> nat, shapes: Shapes, descs: Descs, s: Addr, x: Shape)
    requires HeapOk(hash, shapes, descs) && s !in shapes && x.descriptors in descs
    requires Fits(x, descs[x.descriptors])
    ensures var d := descs[x.descriptors];
            var d' := d.(refCount := d.refCount + 1, owners := [s] + d.owners);
            && HeapOk(hash, shapes[s := x], descs[x.descriptors := d'])
            && Views(shapes[s := x], descs[x.descriptors := d']) == Views(shapes, descs)[s := ViewOf(descs, x)]
  {
    hide Contents, Owned, LinkedIn, ViewOf;
    var d := descs[x.descriptors];
    var d' := d.(refCount := d.refCount + 1, owners := [s] + d.owners);
    var shapes', descs' := shapes[s := x], descs[x.descriptors := d'];
    SharedLinked(descs, descs', s, x);
    forall t | t in shapes
      ensures LinkedIn(descs', t, shapes'[t]) && ViewOf(descs', shapes'[t]) == ViewOf(descs, shapes[t])
    {
      LinkedFrame(descs, descs', t, shapes[t]);
    }
    SharedOwned(shapes, s, x, d);
    ContentsFrame(hash, d, d');
    forall b | b in descs && b != x.descriptors ensures Owned(shapes', b, descs'[b]) {
      OwnedFrame(shapes, shapes', b, descs[b]);
    }
  }

  lemma SharedLinked(descs: Descs, descs': Descs, s: Addr, x: Shape)
    requires x.descriptors in descs && x.descriptors in descs'
    requires Fits(x, descs[x.descriptors]) && SameStorage(descs[x.descriptors], descs'[x.descriptors])
    requires s in descs'[x.descriptors].owners
    ensures LinkedIn(descs', s, x) && ViewOf(descs', x) == ViewOf(descs, x)
  {
  }

  /** Replaces record a, and the shapes that use it, without touching any other family. */
  lemma RewriteOk(hash: Key -> nat, shapes: Shapes, descs: Descs, shapes': Shapes, a: Addr, d': Desc)
    requires HeapOk(hash, shapes, descs) && a in descs && d'.owners == descs[a].owners
    requires Contents(hash, d') && Owned(shapes', a, d') && shapes'.Keys == shapes.Keys
    requires forall t :: t in shapes && shapes[t].descriptors != a ==> shapes'[t] == shapes[t]
    requires forall t :: t in shapes && shapes[t].descriptors == a ==>
               shapes'[t].descriptors == a && Fits(shapes'[t], d')
    ensures HeapOk(hash, shapes', descs[a := d'])
    ensures forall t :: t in shapes && shapes[t].descriptors != a ==>
              ViewOf(descs[a := d'], shapes'[t]) == ViewOf(descs, shapes[t])
  {
    hide Contents, Owned, LinkedIn, ViewOf, Fits;
    var descs' := descs[a := d'];
    forall t | t in shapes ensures LinkedIn(descs', t, shapes'[t]) {
      InUse(hash, shapes, descs, t);
      if shapes[t].descriptors == a {
        SharedLinked(descs', descs', t, shapes'[t]);
      } else {
        LinkedFrame(descs, descs', t, shapes[t]);
      }
    }
    forall t | t in shapes && shapes[t].descriptors != a
      ensures ViewOf(descs[a := d'], shapes'[t]) == ViewOf(descs, shapes[t])
    {
      InUse(hash, shapes, descs, t);
      LinkedFrame(descs, descs', t, shapes[t]);
    }
    forall b | b in descs && b != a ensures Owned(shapes', b, descs'[b]) {
      OwnedFrame(shapes, shapes', b, descs[b]);
    }
  }

  /** shape_refresh_descriptor_pointers */
  function Refreshed(shapes: Shapes, d: Desc): Shapes {
    map t | t in shapes ::
      if t in d.owners then shapes[t].(propsAt := d.propsAt, indexAt := d.indexAt) else shapes[t]
  }

  /** What publishing record d' at address a through shape s leaves to the other owners. */
  ghost predicate Published(shapes: Shapes, shapes': Shapes, a: Addr, d: Desc, d': Desc, s: Addr) {
    && shapes'.Keys == shapes.Keys
    && d'.owners == d.owners && d'.refCount == d.refCount
    && (forall t :: t in shapes && shapes[t].descriptors != a ==> shapes'[t] == shapes[t])
    && (forall t :: t in shapes && shapes[t].descriptors == a ==>
         && shapes[t].count <= |d.props| && shapes'[t].descriptors == a && shapes'[t].propsAt == d'.propsAt
            && shapes'[t].indexAt == d'.indexAt
         && (t != s ==> shapes'[t].count == shapes[t].count && shapes'[t].deletedCount == shapes[t].deletedCount
                        && shapes[t].count <= |d'.props| && d'.props[..shapes[t].count] == d.props[..shapes[t].count]))
  }

  /** Copy-on-write isolation: publishing through s changes the view of no other shape. */
  lemma PublishOk(hash: Key -> nat, shapes: Shapes, descs: Descs, shapes': Shapes, a: Addr, d': Desc, s: Addr)
    requires HeapOk(hash, shapes, descs) && s in shapes && shapes[s].descriptors == a && a in descs
    requires Contents(hash, d') && Published(shapes, shapes', a, descs[a], d', s)
    requires s in shapes' && shapes'[s].count <= |d'.props| && Fits(shapes'[s], d')
    requires d'.tailDirty || exists o :: o in d'.owners && o in shapes' && shapes'[o].count == |d'.props|
    ensures HeapOk(hash, shapes', descs[a := d'])
    ensures Views(shapes', descs[a := d']) == Views(shapes, descs)[s := d'.props[..shapes'[s].count]]
  {
    hide HeapOk, Contents, Owned, Fits, ViewOf, Published;
    var descs' := descs[a := d'];
    PublishedOwned(hash, shapes, descs, shapes', a, d', s);
    forall t | t in shapes ensures PublishedShape(shapes, descs, shapes', a, d', s, t) {
      PublishedOne(hash, shapes, descs, shapes', a, d', s, t);
    }
    PublishedKeys(shapes, shapes', a, descs[a], d', s);
    RewriteOk(hash, shapes, descs, shapes', a, d');
    ViewsAre(shapes', descs', Views(shapes, descs)[s := d'.props[..shapes'[s].count]]);
  }

  ghost predicate PublishedShape(shapes: Shapes, descs: Descs, shapes': Shapes, a: Addr, d': Desc, s: Addr, t: Addr)
    requires t in shapes && s in shapes' && shapes'[s].count <= |d'.props|
  {
    && t in shapes'
    && (shapes[t].descriptors != a ==> shapes'[t] == shapes[t])
    && (shapes[t].descriptors == a ==> shapes'[t].descriptors == a && Fits(shapes'[t], d'))
    && ViewOf(descs[a := d'], shapes'[t]) == if t == s then d'.props[..shapes'[s].count] else ViewOf(descs, shapes[t])
  }

  lemma PublishedKeys(shapes: Shapes, shapes': Shapes, a: Addr, d: Desc, d': Desc, s: Addr)
    requires Published(shapes, shapes', a, d, d', s)
    ensures shapes'.Keys == shapes.Keys && d'.owners == d.owners
  {
  }

  lemma PublishedOne(hash: Key -> nat, shapes: Shapes, descs: Descs, shapes': Shapes, a: Addr, d': Desc, s: Addr,
                     t: Addr)
    requires HeapOk(hash, shapes, descs) && s in shapes && shapes[s].descriptors == a && a in descs
    requires Published(shapes, shapes', a, descs[a], d', s) && t in shapes
    requires s in shapes' && shapes'[s].count <= |d'.props| && Fits(shapes'[s], d')
    ensures PublishedShape(shapes, descs, shapes', a, d', s, t)
  {
    hide Contents, Owned, LiveCount;
    assert LinkedIn(descs, t, shapes[t]);
  }

  lemma PublishedOwned(hash: Key -> nat, shapes: Shapes, descs: Descs, shapes': Shapes, a: Addr, d': Desc, s: Addr)
    requires HeapOk(hash, shapes, descs) && a in descs
    requires Published(shapes, shapes', a, descs[a], d', s)
    requires d'.tailDirty || exists o :: o in d'.owners && o in shapes' && shapes'[o].count == |d'.props|
    ensures Owned(shapes', a, d')
  {
    hide Contents, LinkedIn;
    assert Owned(shapes, a, descs[a]);
  }
}
