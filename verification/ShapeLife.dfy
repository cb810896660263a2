/**
 Whole lives of objects on the shape engine: objects are made, copied, given properties,
 changed and dropped, and collections run in between.  Whatever happens, references, marks
 and the layouts of the objects that are not acted on stay in order; and up to the first
 operation that a recorded transition does not survive, every object behaves as if its
 layout were a private list.
 */
module ShapeLife {
  import opened Basics
  import opened ShapeIndex
  import opened ShapeProps
  import opened ShapeRecord
  import opened ShapeTree
  import opened ShapeEngine
  import opened ShapeGc
  import opened ShapeWrites

  /** Operations on objects, which are named by the order they were made in. */
  datatype Op =
    | Make(limit: nat)
    | Share(obj: nat)
    | Clone(obj: nat, extra: nat)
    | AddProp(obj: nat, key: Key, attrs: Attrs, maxTreeProps: nat)
    | Rewrite(obj: nat, write: Write)
    | Lookup(obj: nat, key: Key)
    | Drop(obj: nat)
    | Collect

  datatype Answer = Slot(slot: int) | Flag(ok: bool) | Nothing

  type Layouts = seq<Option<View>>

  type Objects = seq<Option<Addr>>

  /** One private list for each object ever made, and the answers so far. */
  datatype Lists = Lists(lists: Layouts, answers: seq<Answer>)

  predicate Alive<T>(s: seq<Option<T>>, i: nat) {
    i < |s| && s[i].Some?
  }

  predicate Fit(op: Op) {
    match op
    case AddProp(_, k, _, _) => IsPropKey(k)
    case Rewrite(_, w) => Proper(w)
    case Lookup(_, k) => IsKey(k)
    case _ => true
  }

  /** What an operation does to private lists; one on an object that is gone does nothing. */
  function After(lists: Layouts, op: Op): Layouts {
    if op.Make? then lists + [Some([])]
    else if op.Collect? || !Alive(lists, op.obj) || !Fit(op) then lists
    else
      var v := lists[op.obj].value;
      match op
      case Share(_) => lists + [Some(v)]
      case Clone(_, _) => lists + [Some(v)]
      case AddProp(i, k, a, _) => lists[i := Some(Add(v, k, a))]
      case Rewrite(i, w) => lists[i := Some(Written(v, w))]
      case Drop(i) => lists[i := None]
      case _ => lists
  }

  function Told(lists: Layouts, op: Op): Answer {
    if op.Make? || op.Collect? || !Alive(lists, op.obj) || !Fit(op) then Nothing
    else
      var v := lists[op.obj].value;
      match op
      case AddProp(_, k, _, _) => Slot(AddSlot(v, k))
      case Rewrite(_, w) => Flag(Takes(v, w))
      case Lookup(_, k) => Slot(SlotOf(v, k))
      case _ => Nothing
  }

  function Run(ops: seq<Op>): Lists
    decreases |ops|
  {
    if ops == [] then Lists([], [])
    else
      var m, op := Run(ops[..|ops| - 1]), ops[|ops| - 1];
      Lists(After(m.lists, op), m.answers + [Told(m.lists, op)])
  }

  // ---- who holds what ----

  ghost function Hold(o: Option<Addr>): multiset<Addr> {
    if o.Some? then multiset{o.value} else multiset{}
  }

  ghost function HoldsOf(objs: Objects): multiset<Addr> {
    if objs == [] then multiset{} else HoldsOf(objs[..|objs| - 1]) + Hold(objs[|objs| - 1])
  }

  lemma HoldsMore(objs: Objects, o: Option<Addr>)
    ensures HoldsOf(objs + [o]) == HoldsOf(objs) + Hold(o)
  {
    assert (objs + [o])[..|objs|] == objs;
  }

  lemma {:induction false} HoldsMove(objs: Objects, i: nat, o: Option<Addr>)
    requires i < |objs|
    ensures Hold(objs[i]) <= HoldsOf(objs) && HoldsOf(objs[i := o]) == HoldsOf(objs) - Hold(objs[i]) + Hold(o)
  {
    hide Hold, HoldsOf;
    var n := |objs| - 1;
    HoldsLast(objs);
    HoldsLast(objs[i := o]);
    if i == n {
      assert objs[i := o][..n] == objs[..n];
      Swap(HoldsOf(objs[..n]), multiset{}, Hold(objs[i]), Hold(o));
    } else {
      assert objs[i := o][..n] == objs[..n][i := o] && objs[..n][i] == objs[i];
      HoldsMove(objs[..n], i, o);
      Swap(HoldsOf(objs[..n]), Hold(objs[n]), Hold(objs[i]), Hold(o));
    }
  }

  lemma HoldsLast(objs: Objects)
    requires objs != []
    ensures HoldsOf(objs) == HoldsOf(objs[..|objs| - 1]) + Hold(objs[|objs| - 1])
  {
  }

  lemma Swap(a: multiset<Addr>, rest: multiset<Addr>, x: multiset<Addr>, y: multiset<Addr>)
    ensures a + x - x + y == a + y
    ensures x <= a ==> (a - x + y) + rest == (a + rest) - x + y
  {
  }

  /** Two objects on one shape are two references. */
  lemma HoldsTwice(objs: Objects, i: nat, j: nat)
    requires i < |objs| && j < |objs| && i != j && objs[i].Some? && objs[j] == objs[i]
    ensures HoldsOf(objs)[objs[i].value] >= 2
  {
    HoldsMove(objs, i, None);
    HoldsMove(objs[i := None], j, None);
  }

  // ---- what every operation keeps ----

  /** Between operations: the engine is valid, ready for a collection, and its references are the objects'. */
  ghost predicate Sane(e: Engine, objs: Objects)
    reads e, e.store
  {
    e.Valid() && Idle(e.nodes, e.roots.Values, e.epoch) && e.holds == HoldsOf(objs)
  }

  ghost predicate ShowsAt(all: AllViews, o: Option<Addr>, list: Option<View>) {
    if o.Some? then o.value in all && list == Some(all[o.value]) else list.None?
  }

  /** Each object's shape has the object's list. */
  ghost predicate Shows(all: AllViews, objs: Objects, lists: Layouts) {
    |objs| == |lists| && forall i :: 0 <= i < |objs| ==> ShowsAt(all, objs[i], lists[i])
  }

  lemma ShowsMore(all: AllViews, all': AllViews, objs: Objects, lists: Layouts, t: Addr)
    requires Shows(all, objs, lists) && t in all' && forall i :: 0 <= i < |objs| && objs[i].Some? ==>
               objs[i].value in all' && (objs[i].value in all ==> all'[objs[i].value] == all[objs[i].value])
    ensures Shows(all', objs + [Some(t)], lists + [Some(all'[t])])
  {
    forall i | 0 <= i < |objs| ensures ShowsAt(all', objs[i], lists[i]) { assert ShowsAt(all, objs[i], lists[i]); }
  }

  /** Object i moves to t, and the others' shapes keep their lists. */
  lemma ShowsMove(all: AllViews, all': AllViews, objs: Objects, lists: Layouts, i: nat, o: Option<Addr>)
    requires Shows(all, objs, lists) && i < |objs| && (o.Some? ==> o.value in all')
    requires forall j :: 0 <= j < |objs| && j != i && objs[j].Some? ==>
               objs[j].value in all' && (objs[j].value in all ==> all'[objs[j].value] == all[objs[j].value])
    ensures Shows(all', objs[i := o], lists[i := if o.Some? then Some(all'[o.value]) else None])
  {
    forall j | 0 <= j < |objs| && j != i ensures ShowsAt(all', objs[j], lists[j]) {
      assert ShowsAt(all, objs[j], lists[j]);
    }
  }

  lemma ObjectIs(e: Engine, objs: Objects, lists: Layouts, i: nat)
    requires Sane(e, objs) && Shows(e.store.All(), objs, lists)
    ensures Alive(objs, i) <==> Alive(lists, i)
    ensures Alive(objs, i) ==> var s := objs[i].value;
              s in e.holds && s in e.nodes && s in e.store.shapes && lists[i] == Some(e.store.View(s))
  {
    hide Idle, Engine.Valid, Shapes.Store.All, HoldsOf;
    if i < |objs| {
      assert ShowsAt(e.store.All(), objs[i], lists[i]);
      if objs[i].Some? {
        HoldsMove(objs, i, None);
        assert objs[i].value in Hold(objs[i]);
        Held(e, objs[i].value);
        e.store.AllView(objs[i].value);
      }
    }
  }

  lemma OthersHeld(e: Engine, objs: Objects)
    requires e.Valid() && e.holds == HoldsOf(objs)
    ensures forall j :: 0 <= j < |objs| && objs[j].Some? ==> objs[j].value in e.nodes && objs[j].value in e.store.All()
  {
    hide Engine.Valid, Shapes.Store.All, HoldsOf;
    EngineKeys(e);
    forall j | 0 <= j < |objs| && objs[j].Some? ensures objs[j].value in e.nodes && objs[j].value in e.store.All() {
      HoldsMove(objs, j, None);
      assert objs[j].value in Hold(objs[j]);
      Held(e, objs[j].value);
    }
  }

  lemma TreeOf(e: Engine)
    requires e.Valid()
    ensures TreeOk(e.nodes, e.roots.Values, e.holds, {}) && e.roots.Values <= e.nodes.Keys
    ensures forall o :: o in e.nodes <==> o in e.store.shapes
  {
    hide Shapes.Store.Inv;
  }

  /** Only one object is on a shape with one reference. */
  lemma SoleHolder(e: Engine, objs: Objects, i: nat)
    requires e.Valid() && e.holds == HoldsOf(objs) && Alive(objs, i) && objs[i].value in e.nodes
    requires e.nodes[objs[i].value].refCount <= 1
    ensures forall j :: 0 <= j < |objs| && j != i ==> objs[j] != objs[i]
  {
    hide Engine.Valid, HoldsOf;
    ReferenceCount(e, objs[i].value);
    forall j | 0 <= j < |objs| && j != i ensures objs[j] != objs[i] {
      if objs[j] == objs[i] { HoldsTwice(objs, i, j); }
    }
  }

  // ---- one operation ----

  method DoMake(e: Engine, objs: Objects, limit: nat, ghost lists: Layouts) returns (t: Addr)
    requires Sane(e, objs) && Shows(e.store.All(), objs, lists)
    modifies e, e.store
    ensures Sane(e, objs + [Some(t)]) && t in e.store.shapes
    ensures Shows(e.store.All(), objs + [Some(t)], lists + [Some(e.store.View(t))])
    ensures old(e.Faithful()) ==> e.Faithful() && e.store.View(t) == []
  {
    hide Engine.Valid, Engine.Faithful, Shapes.Store.All, HoldsOf, Idle, Grown, Shows;
    TreeOf(e);
    OthersHeld(e, objs);
    ghost var n, roots, holds, all := e.nodes, e.roots.Values, e.holds, e.store.All();
    t := e.NewRoot(limit);
    GrownIdle(n, e.nodes, roots, e.roots.Values, holds, e.epoch);
    HoldsMore(objs, Some(t));
    e.store.AllView(t);
    ShowsMore(all, e.store.All(), objs, lists, t);
  }

  method DoShare(e: Engine, objs: Objects, i: nat, ghost lists: Layouts) returns (t: Addr)
    requires Sane(e, objs) && Shows(e.store.All(), objs, lists) && Alive(objs, i)
    modifies e
    ensures Sane(e, objs + [Some(t)]) && t in e.store.shapes
    ensures Shows(e.store.All(), objs + [Some(t)], lists + [Some(e.store.View(t))]) && lists[i] == Some(e.store.View(t))
    ensures e.Faithful() <==> old(e.Faithful())
  {
    hide Engine.Valid, Engine.Faithful, Shapes.Store.All, HoldsOf, Idle, Grown, Shows;
    TreeOf(e);
    OthersHeld(e, objs);
    ObjectIs(e, objs, lists, i);
    ghost var n, holds, all := e.nodes, e.holds, e.store.All();
    t := objs[i].value;
    e.Retain(t);
    GrownByCount(n, e.nodes, t);
    GrownIdle(n, e.nodes, e.roots.Values, e.roots.Values, holds, e.epoch);
    HoldsMore(objs, Some(t));
    e.store.AllView(t);
    ShowsMore(all, e.store.All(), objs, lists, t);
  }

  method DoClone(e: Engine, objs: Objects, i: nat, extra: nat, ghost lists: Layouts) returns (t: Addr)
    requires Sane(e, objs) && Shows(e.store.All(), objs, lists) && Alive(objs, i)
    modifies e, e.store
    ensures Sane(e, objs + [Some(t)]) && t in e.store.shapes
    ensures Shows(e.store.All(), objs + [Some(t)], lists + [Some(e.store.View(t))]) && lists[i] == Some(e.store.View(t))
    ensures old(e.Faithful()) ==> e.Faithful()
  {
    hide Engine.Valid, Engine.Faithful, Shapes.Store.All, HoldsOf, Idle, Grown, Shows, Shapes.OthersKept;
    TreeOf(e);
    OthersHeld(e, objs);
    ObjectIs(e, objs, lists, i);
    ghost var n, holds, all := e.nodes, e.holds, e.store.All();
    t := e.Clone(objs[i].value, extra);
    GrownByOne(n, t);
    GrownIdle(n, e.nodes, e.roots.Values, e.roots.Values, holds, e.epoch);
    HoldsMore(objs, Some(t));
    e.store.AllView(t);
    ShowsMore(all, e.store.All(), objs, lists, t);
  }

  /** The guard under which adding a property keeps every recorded transition right. */
  predicate AddSafe(e: Engine, s: Addr, k: Key, attrs: Attrs)
    reads e, e.store
    requires s in e.nodes && s in e.store.shapes
  {
    e.InTree(s) || InPlaceSafe(e.nodes[s], e.store.View(s), k, attrs)
  }

  method DoAdd(e: Engine, objs: Objects, i: nat, k: Key, attrs: Attrs, maxTreeProps: nat, ghost lists: Layouts)
    returns (t: Addr, slot: nat)
    requires Sane(e, objs) && Shows(e.store.All(), objs, lists) && Alive(objs, i) && IsPropKey(k)
    modifies e, e.store
    ensures Sane(e, objs[i := Some(t)]) && t in e.store.shapes
    ensures Shows(e.store.All(), objs[i := Some(t)], lists[i := Some(e.store.View(t))])
    ensures old(e.Faithful()) ==> Alive(lists, i) && slot == AddSlot(lists[i].value, k)
                                  && e.store.View(t) == Add(lists[i].value, k, attrs)
    ensures old(objs[i].value in e.nodes && objs[i].value in e.store.shapes)
    ensures old(e.Faithful()) ==> (e.Faithful() <==> old(AddSafe(e, objs[i].value, k, attrs)))
  {
    hide Engine.Valid, Engine.Faithful, Shapes.Store.All, HoldsOf, Idle, Grown, Shows, Add, AddSlot, InPlaceSafe, Edges;
    hide Shapes.KeepsAlone, Engine.HasStep;
    TreeOf(e);
    OthersHeld(e, objs);
    ObjectIs(e, objs, lists, i);
    ghost var n, holds, all := e.nodes, e.holds, e.store.All();
    var s := objs[i].value;
    if !e.InTree(s) { SoleHolder(e, objs, i); }
    t, slot := e.AddTr(s, k, attrs, maxTreeProps);
    GrownIdle(n, e.nodes, e.roots.Values, e.roots.Values, holds, e.epoch);
    HoldsMove(objs, i, Some(t));
    e.store.AllView(t);
    ShowsMove(all, e.store.All(), objs, lists, i, Some(t));
  }

  /** The guard under which a write does. */
  predicate RewriteSafe(e: Engine, s: Addr, w: Write)
    reads e, e.store
    requires s in e.nodes && s in e.store.shapes
  {
    || e.nodes[s].refCount != 1 || !Shapes.Alone(e.store.shapes, s)
    || Written(e.store.View(s), w) == e.store.View(s) || WriteSafe(e.nodes[s], e.store.View(s), w)
  }

  method DoRewrite(e: Engine, objs: Objects, i: nat, w: Write, ghost lists: Layouts) returns (t: Addr, ok: bool)
    requires Sane(e, objs) && Shows(e.store.All(), objs, lists) && Alive(objs, i) && Proper(w)
    modifies e, e.store
    ensures Sane(e, objs[i := Some(t)]) && t in e.store.shapes && Alive(lists, i)
    ensures Shows(e.store.All(), objs[i := Some(t)], lists[i := Some(Written(lists[i].value, w))])
    ensures ok == Takes(lists[i].value, w)
    ensures old(objs[i].value in e.nodes && objs[i].value in e.store.shapes)
    ensures old(e.Faithful()) ==> (e.Faithful() <==> old(RewriteSafe(e, objs[i].value, w)))
  {
    hide Engine.Valid, Engine.Faithful, Shapes.Store.All, HoldsOf, Idle, Grown, Shows, Written, Takes, WriteSafe, Edges;
    hide Shapes.Alone, Kept, Loose;
    TreeOf(e);
    OthersHeld(e, objs);
    ObjectIs(e, objs, lists, i);
    ghost var n, holds, all := e.nodes, e.holds, e.store.All();
    var s := objs[i].value;
    if e.nodes[s].refCount <= 1 { SoleHolder(e, objs, i); }
    t, ok := Change(e, s, w);
    if t != s { ClonedIdle(n, e.nodes, e.roots.Values, holds, e.epoch, t); }
    HoldsMove(objs, i, Some(t));
    e.store.AllView(t);
    OthersHeld(e, objs[i := Some(t)]);
    assert forall j :: 0 <= j < |objs| && j != i ==> objs[i := Some(t)][j] == objs[j];
    ShowsMove(all, e.store.All(), objs, lists, i, Some(t));
  }

  lemma ClonedIdle(was: Nodes, now: Nodes, roots: set<Addr>, holds: multiset<Addr>, epoch: nat, t: Addr)
    requires TreeOk(was, roots, holds, {}) && Idle(was, roots, epoch) && t !in was && Kept(was[t := LONE], now)
    ensures Idle(now, roots, epoch)
  {
    hide TreeOk, Idle, Kept, Grown, Shrunk;
    GrownByOne(was, t);
    GrownIdle(was, was[t := LONE], roots, roots, holds, epoch);
    KeptShrinks(was[t := LONE], now);
    ShrunkIdle(was[t := LONE], now, roots, epoch);
  }

  method DoDrop(e: Engine, objs: Objects, i: nat, ghost lists: Layouts)
    requires Sane(e, objs) && Shows(e.store.All(), objs, lists) && Alive(objs, i)
    modifies e, e.store
    ensures Sane(e, objs[i := None]) && Shows(e.store.All(), objs[i := None], lists[i := None])
    ensures old(e.Faithful()) ==> e.Faithful()
  {
    hide Engine.Valid, Engine.Faithful, Shapes.Store.All, HoldsOf, Idle, Shows, Kept, Shrunk, Anchored, Fewer;
    OthersHeld(e, objs);
    ObjectIs(e, objs, lists, i);
    ghost var n, all := e.nodes, e.store.All();
    e.Release(objs[i].value);
    KeptShrinks(n, e.nodes);
    ShrunkIdle(n, e.nodes, e.roots.Values, e.epoch);
    HoldsMove(objs, i, None);
    assert e.holds == HoldsOf(objs[i := None]);
    OthersHeld(e, objs[i := None]);
    assert forall j :: 0 <= j < |objs| && j != i ==> objs[i := None][j] == objs[j];
    ShowsMove(all, e.store.All(), objs, lists, i, None);
  }

  /** A whole collection: a new epoch, the shapes of all objects marked, the rest swept. */
  method DoCollect(e: Engine, objs: Objects, ghost lists: Layouts) returns (freed: bool)
    requires Sane(e, objs) && Shows(e.store.All(), objs, lists)
    modifies e, e.store
    ensures Sane(e, objs) && Shows(e.store.All(), objs, lists)
    ensures old(e.Faithful()) ==> e.Faithful()
  {
    hide Engine.Valid, FaithfulIn, Shapes.Store.All, HoldsOf, Idle, Shows, Closed, Rooted, Line, MarkedMore, OnlyMarked;
    hide Garbage;
    ghost var all := e.store.All();
    Begin(e);
    for i := 0 to |objs|
      invariant e.Valid() && e.holds == HoldsOf(objs) && Closed(e.nodes, e.roots.Values, e.epoch)
                && 0 < e.epoch < EPOCHS
      invariant e.store.All() == all && (old(e.Faithful()) ==> e.Faithful())
    {
      OthersHeld(e, objs);
      if objs[i].Some? { Mark(e, objs[i].value); }
    }
    freed := Sweep(e);
    OthersHeld(e, objs);
    ShowsOnly(all, e.nodes.Keys, objs, lists);
  }

  lemma ShowsOnly(all: AllViews, live: set<Addr>, objs: Objects, lists: Layouts)
    requires Shows(all, objs, lists) && forall j :: 0 <= j < |objs| && objs[j].Some? ==> objs[j].value in live
    ensures Shows(Only(all, live), objs, lists)
  {
    forall j | 0 <= j < |objs| ensures ShowsAt(Only(all, live), objs[j], lists[j]) {
      assert ShowsAt(all, objs[j], lists[j]);
    }
  }

  // ---- runs ----

  /** The guard under which an operation keeps every recorded transition right. */
  predicate Safe(e: Engine, objs: Objects, op: Op)
    reads e, e.store
  {
    op.Make? || op.Collect? || !Alive(objs, op.obj) || !Fit(op) ||
    var s := objs[op.obj].value;
    s !in e.nodes || s !in e.store.shapes ||
    match op
    case AddProp(_, k, attrs, _) => AddSafe(e, s, k, attrs)
    case Rewrite(_, w) => RewriteSafe(e, s, w)
    case _ => true
  }

  /** Objects that an operation is not about keep their lists. */
  ghost predicate Apart(lists: Layouts, op: Op, lists': Layouts) {
    && |lists| <= |lists'| <= |lists| + 1
    && forall i :: 0 <= i < |lists| && !((op.AddProp? || op.Rewrite? || op.Drop?) && i == op.obj) ==>
           lists'[i] == lists[i]
  }

  /** One operation, whether or not the recorded transitions are right. */
  method Do(e: Engine, objs: Objects, op: Op, ghost lists: Layouts)
    returns (after: Objects, answer: Answer, ghost lists': Layouts)
    requires Sane(e, objs) && Shows(e.store.All(), objs, lists)
    modifies e, e.store
    ensures Sane(e, after) && Shows(e.store.All(), after, lists') && Apart(lists, op, lists')
    ensures old(e.Faithful()) ==> lists' == After(lists, op) && answer == Told(lists, op)
    ensures old(e.Faithful()) ==> (e.Faithful() <==> old(Safe(e, objs, op)))
  {
    hide Sane, Engine.Faithful, Shapes.Store.All, Shows, AddSafe, RewriteSafe, Add, AddSlot, SlotOf, Written, Takes;
    after, answer, lists' := objs, Nothing, lists;
    if op.Make? {
      var t := DoMake(e, objs, op.limit, lists);
      after, lists' := objs + [Some(t)], lists + [Some(e.store.View(t))];
      return;
    }
    if op.Collect? {
      var freed := DoCollect(e, objs, lists);
      return;
    }
    ObjectIs(e, objs, lists, op.obj);
    if !Alive(objs, op.obj) || !Fit(op) { return; }
    match op
    case Make(_) =>
    case Collect =>
    case Share(i) =>
      var t := DoShare(e, objs, i, lists);
      after, lists' := objs + [Some(t)], lists + [Some(e.store.View(t))];
    case Clone(i, extra) =>
      var t := DoClone(e, objs, i, extra, lists);
      after, lists' := objs + [Some(t)], lists + [Some(e.store.View(t))];
    case AddProp(i, k, attrs, max) =>
      var t, slot := DoAdd(e, objs, i, k, attrs, max, lists);
      after, answer, lists' := objs[i := Some(t)], Slot(slot), lists[i := Some(e.store.View(t))];
    case Rewrite(i, w) =>
      var t, ok := DoRewrite(e, objs, i, w, lists);
      after, answer, lists' := objs[i := Some(t)], Flag(ok), lists[i := Some(Written(lists[i].value, w))];
    case Lookup(i, k) =>
      var slot := DoLookup(e, objs, i, k, lists);
      answer := Slot(slot);
    case Drop(i) =>
      DoDrop(e, objs, i, lists);
      after, lists' := objs[i := None], lists[i := None];
  }

  method DoLookup(e: Engine, objs: Objects, i: nat, k: Key, ghost lists: Layouts) returns (slot: int)
    requires Sane(e, objs) && Shows(e.store.All(), objs, lists) && Alive(objs, i) && IsKey(k)
    ensures Alive(lists, i) && slot == SlotOf(lists[i].value, k)
  {
    hide Idle, HoldsOf, Shows, Shapes.Store.Inv, Shapes.Store.All, TreeOk, SlotOf;
    ObjectIs(e, objs, lists, i);
    slot := e.store.LookupKey(objs[i].value, k);
  }

  method Begun(hash: Key -> nat) returns (e: Engine)
    ensures fresh(e) && fresh(e.store) && Sane(e, []) && e.Faithful() && Shows(e.store.All(), [], [])
  {
    hide Engine.Valid, Engine.Faithful;
    e := new Engine(hash);
  }

  lemma RunMore(ops: seq<Op>, n: nat)
    requires n < |ops|
    ensures var m := Run(ops[..n]);
            Run(ops[..n + 1]) == Lists(After(m.lists, ops[n]), m.answers + [Told(m.lists, ops[n])])
  {
    hide After, Told;
    assert ops[..n + 1][..n] == ops[..n];
  }

  /**
   Every run, up to the first operation whose guard fails: every answer and every object's
   layout are those of private lists.
   */
  method RunSafe(hash: Key -> nat, ops: seq<Op>) returns (e: Engine, objs: Objects, answers: seq<Answer>, n: nat)
    ensures n <= |ops| && Sane(e, objs) && e.Faithful()
    ensures answers == Run(ops[..n]).answers && Shows(e.store.All(), objs, Run(ops[..n]).lists)
    ensures n == |ops| || !Safe(e, objs, ops[n])
  {
    hide Sane, Engine.Faithful, Shows, After, Told, Safe, Apart;
    e := Begun(hash);
    objs, answers, n := [], [], 0;
    assert ops[..0] == [];
    while n < |ops| && Safe(e, objs, ops[n])
      invariant n <= |ops| && Sane(e, objs) && e.Faithful() && fresh(e) && fresh(e.store)
      invariant answers == Run(ops[..n]).answers && Shows(e.store.All(), objs, Run(ops[..n]).lists)
    {
      RunMore(ops, n);
      var answer;
      ghost var lists;
      objs, answer, lists := Do(e, objs, ops[n], Run(ops[..n]).lists);
      answers := answers + [answer];
      n := n + 1;
    }
  }

  /** The layouts after each operation: no operation touches any object but its own. */
  ghost predicate Isolated(history: seq<Layouts>, ops: seq<Op>) {
    && |history| == |ops| + 1
    && forall i :: 0 <= i < |ops| ==> Apart(history[i], ops[i], history[i + 1])
  }

  /** Every run at all: references and marks stay in order, and objects are isolated from each other. */
  method RunAny(hash: Key -> nat, ops: seq<Op>) returns (e: Engine, objs: Objects, ghost history: seq<Layouts>)
    ensures Sane(e, objs) && Isolated(history, ops) && Shows(e.store.All(), objs, history[|ops|])
  {
    hide Sane, Engine.Faithful, Shows, After, Told, Safe, Apart;
    e := Begun(hash);
    objs, history := [], [[]];
    for n := 0 to |ops|
      invariant Sane(e, objs) && fresh(e) && fresh(e.store)
      invariant |history| == n + 1 && Shows(e.store.All(), objs, history[n])
      invariant forall i :: 0 <= i < n ==> Apart(history[i], ops[i], history[i + 1])
    {
      var answer;
      ghost var lists;
      objs, answer, lists := Do(e, objs, ops[n], history[n]);
      history := history + [lists];
    }
  }
}
