/**
 Whole runs of the shape store: whatever is done, in whatever order, to shapes that share
 arrays and indexes, every answer is the one that separate private lists would give.
 */
module ShapeRun {
  import opened Basics
  import opened ShapeIndex
  import opened ShapeProps
  import opened ShapeRecord
  import opened Shapes

  /** Operations on shapes, which are named by the order they were made in. */
  datatype Op =
    | New(limit: nat)
    | Clone(shape: nat, extra: nat)
    | Branch(shape: nat)
    | AddKey(shape: nat, key: Key, attrs: Attrs)
    | SetAttrs(shape: nat, key: Key, attrs: Attrs)
    | Mutate(shape: nat, slot: nat, attrs: Attrs, getter: Accessor, setter: Accessor)
    | Remove(shape: nat, slot: nat)
    | Compact(shape: nat)
    | Reclaim(shape: nat)
    | Drop(shape: nat)
    | Lookup(shape: nat, key: Key)

  datatype Answer = Slot(slot: int) | Flag(ok: bool) | Size(size: nat) | Nothing

  /** One private list for each shape ever made, and the answers so far. */
  datatype Lists = Lists(lists: seq<Option<View>>, answers: seq<Answer>)

  predicate Alive(m: Lists, i: nat) {
    i < |m.lists| && m.lists[i].Some?
  }

  predicate Proper(op: Op) {
    match op
    case AddKey(_, k, _) => IsKey(k)
    case SetAttrs(_, k, _) => IsKey(k)
    case Lookup(_, k) => IsKey(k)
    case _ => true
  }

  function Told(m: Lists, a: Answer): Lists {
    m.(answers := m.answers + [a])
  }

  function Write(m: Lists, i: nat, v: View, a: Answer): Lists
    requires Alive(m, i)
  {
    Lists(m.lists[i := Some(v)], m.answers + [a])
  }

  /** What an operation does to private lists; one on a shape that is gone does nothing. */
  function Step(m: Lists, op: Op): Lists {
    if op.New? then Lists(m.lists + [Some([])], m.answers + [Nothing])
    else if !Alive(m, op.shape) || !Proper(op) then Told(m, Nothing)
    else
      var v := m.lists[op.shape].value;
      match op
      case Clone(_, _) => Lists(m.lists + [Some(v)], m.answers + [Nothing])
      case Branch(_) => Lists(m.lists + [Some(v)], m.answers + [Nothing])
      case AddKey(i, k, a) => Write(m, i, Add(v, k, a), Slot(AddSlot(v, k)))
      case SetAttrs(i, k, a) => if SlotOf(v, k) == -1 then Told(m, Flag(false))
                                else Write(m, i, Add(v, k, a), Flag(true))
      case Mutate(i, s, a, g, t) =>
        if s < |v| && v[s].Live? then Write(m, i, v[s := Live(v[s].key, a, g, t)], Flag(true)) else Told(m, Flag(false))
      case Remove(i, s) => if s < |v| && v[s].Live? then Write(m, i, ShapeProps.Remove(v, s), Flag(true))
                           else Told(m, Flag(false))
      case Compact(i) => Write(m, i, ShapeProps.Compact(v), Size(|ShapeProps.Compact(v)|))
      case Reclaim(_) => Told(m, Nothing)
      case Drop(i) => Lists(m.lists[i := None], m.answers + [Nothing])
      case Lookup(_, k) => Told(m, Slot(SlotOf(v, k)))
      case _ => Told(m, Nothing)
  }

  function Run(ops: seq<Op>): Lists
    decreases |ops|
  {
    if ops == [] then Lists([], []) else Step(Run(ops[..|ops| - 1]), ops[|ops| - 1])
  }

  lemma RunStep(ops: seq<Op>, n: nat)
    requires n < |ops|
    ensures Run(ops[..n + 1]) == Step(Run(ops[..n]), ops[n])
  {
    assert ops[..n + 1][..n] == ops[..n];
  }

  // ---- the store stands for the lists ----

  /** The shapes alive are those with a list, under different addresses, and show their lists. */
  ghost predicate Shows(all: map<Addr, View>, names: seq<Addr>, lists: seq<Option<View>>) {
    && |names| == |lists|
    && (forall i, j :: 0 <= i < j < |names| ==> names[i] != names[j])
    && (forall i :: 0 <= i < |names| ==> ShowsAt(all, names[i], lists[i]))
    && (forall a :: a in all ==> a in names)
  }

  ghost predicate ShowsAt(all: map<Addr, View>, a: Addr, list: Option<View>) {
    if list.Some? then a in all && all[a] == list.value else a !in all
  }

  lemma ShowsMore(all: map<Addr, View>, names: seq<Addr>, lists: seq<Option<View>>, t: Addr, v: View)
    requires Shows(all, names, lists) && forall i :: 0 <= i < |names| ==> names[i] != t
    ensures Shows(all[t := v], names + [t], lists + [Some(v)])
  {
    forall i | 0 <= i < |names| ensures ShowsAt(all[t := v], names[i], lists[i]) {
      assert ShowsAt(all, names[i], lists[i]);
    }
  }

  lemma ShowsWrite(all: map<Addr, View>, names: seq<Addr>, lists: seq<Option<View>>, i: nat, v: View)
    requires Shows(all, names, lists) && i < |names| && lists[i].Some?
    ensures Shows(all[names[i] := v], names, lists[i := Some(v)])
  {
    var after := all[names[i] := v];
    forall j | 0 <= j < |names| ensures ShowsAt(after, names[j], lists[i := Some(v)][j]) {
      assert ShowsAt(all, names[j], lists[j]);
    }
  }

  lemma ShowsDrop(all: map<Addr, View>, names: seq<Addr>, lists: seq<Option<View>>, i: nat)
    requires Shows(all, names, lists) && i < |names| && lists[i].Some?
    ensures Shows(all - {names[i]}, names, lists[i := None])
  {
    var after := all - {names[i]};
    forall j | 0 <= j < |names| ensures ShowsAt(after, names[j], lists[i := None][j]) {
      assert ShowsAt(all, names[j], lists[j]);
    }
  }

  ghost predicate Related(store: Store, names: seq<Addr>, m: Lists)
    reads store
  {
    && store.Inv() && Shows(store.All(), names, m.lists)
    && forall i :: 0 <= i < |names| ==> names[i] < store.next
  }

  lemma AliveIs(store: Store, names: seq<Addr>, m: Lists, i: nat)
    requires Related(store, names, m)
    ensures Alive(m, i) <==> i < |names| && names[i] in store.shapes
    ensures Alive(m, i) ==> store.View(names[i]) == m.lists[i].value
  {
    store.AllKeys();
    if i < |names| {
      assert ShowsAt(store.All(), names[i], m.lists[i]);
      if names[i] in store.shapes { store.AllView(names[i]); }
    }
  }

  lemma Appended(store: Store, all: map<Addr, View>, next: Addr, names: seq<Addr>, m: Lists, v: View)
    requires store.Inv() && Shows(all, names, m.lists) && (forall i :: 0 <= i < |names| ==> names[i] < next)
    requires next < store.next && store.All() == all[next := v]
    ensures Related(store, names + [next], Lists(m.lists + [Some(v)], m.answers + [Nothing]))
  {
    ShowsMore(all, names, m.lists, next, v);
  }

  lemma Rewritten(store: Store, all: map<Addr, View>, next: Addr, names: seq<Addr>, m: Lists, i: nat, v: View,
                  a: Answer)
    requires store.Inv() && Shows(all, names, m.lists) && (forall i :: 0 <= i < |names| ==> names[i] < next)
    requires Alive(m, i) && i < |names| && next <= store.next && store.All() == all[names[i] := v]
    ensures Related(store, names, Write(m, i, v, a))
  {
    ShowsWrite(all, names, m.lists, i, v);
  }

  method MakeNew(store: Store, names: seq<Addr>, limit: nat, ghost m: Lists) returns (t: Addr)
    requires Related(store, names, m)
    modifies store
    ensures Related(store, names + [t], Lists(m.lists + [Some([])], m.answers + [Nothing]))
  {
    ghost var all, next := store.All(), store.next;
    t := store.NewShape(limit);
    Appended(store, all, next, names, m, []);
  }

  method MakeClone(store: Store, names: seq<Addr>, i: nat, extra: nat, ghost m: Lists) returns (t: Addr)
    requires Related(store, names, m) && Alive(m, i)
    modifies store
    ensures Related(store, names + [t], Lists(m.lists + [Some(m.lists[i].value)], m.answers + [Nothing]))
  {
    AliveIs(store, names, m, i);
    ghost var all, next := store.All(), store.next;
    t := store.CloneReserve(names[i], extra);
    Appended(store, all, next, names, m, m.lists[i].value);
  }

  method MakeBranch(store: Store, names: seq<Addr>, i: nat, ghost m: Lists) returns (t: Addr)
    requires Related(store, names, m) && Alive(m, i)
    modifies store
    ensures Related(store, names + [t], Lists(m.lists + [Some(m.lists[i].value)], m.answers + [Nothing]))
  {
    AliveIs(store, names, m, i);
    ghost var all, next := store.All(), store.next;
    t := store.CopyForTransition(names[i]);
    Appended(store, all, next, names, m, m.lists[i].value);
  }

  method DoAdd(store: Store, names: seq<Addr>, i: nat, k: Key, a: Attrs, ghost m: Lists) returns (slot: nat)
    requires Related(store, names, m) && Alive(m, i) && IsKey(k)
    modifies store
    ensures var v := m.lists[i].value; Related(store, names, Write(m, i, Add(v, k, a), Slot(AddSlot(v, k))))
    ensures var v := m.lists[i].value; Slot(AddSlot(v, k)) == Slot(slot)
  {
    AliveIs(store, names, m, i);
    ghost var all, next, v := store.All(), store.next, store.View(names[i]);
    slot := store.AddKey(names[i], k, a);
    Rewritten(store, all, next, names, m, i, Add(v, k, a), Slot(AddSlot(v, k)));
  }

  method DoSetAttrs(store: Store, names: seq<Addr>, i: nat, k: Key, a: Attrs, ghost m: Lists) returns (ok: bool)
    requires Related(store, names, m) && Alive(m, i) && IsKey(k)
    modifies store
    ensures var v := m.lists[i].value;
            Related(store, names, if SlotOf(v, k) != -1 then Write(m, i, Add(v, k, a), Flag(true))
                                  else Told(m, Flag(false))) && ok == (SlotOf(v, k) != -1)
  {
    AliveIs(store, names, m, i);
    ghost var all, next, v := store.All(), store.next, store.View(names[i]);
    ok := store.SetAttrs(names[i], k, a);
    if ok { Rewritten(store, all, next, names, m, i, Add(v, k, a), Flag(true)); }
  }

  method DoMutate(store: Store, names: seq<Addr>, i: nat, s: nat, a: Attrs, g: Accessor, t: Accessor, ghost m: Lists)
    returns (ok: bool)
    requires Related(store, names, m) && Alive(m, i)
    modifies store
    ensures var v := m.lists[i].value;
            Related(store, names, if s < |v| && v[s].Live? then Write(m, i, v[s := Live(v[s].key, a, g, t)], Flag(true))
                                  else Told(m, Flag(false))) && ok == (s < |v| && v[s].Live?)
  {
    AliveIs(store, names, m, i);
    ghost var all, next, v := store.All(), store.next, store.View(names[i]);
    ok := store.Mutate(names[i], s, a, g, t);
    if ok { Rewritten(store, all, next, names, m, i, v[s := Live(v[s].key, a, g, t)], Flag(true)); }
  }

  method DoRemove(store: Store, names: seq<Addr>, i: nat, s: nat, ghost m: Lists) returns (ok: bool)
    requires Related(store, names, m) && Alive(m, i)
    modifies store
    ensures var v := m.lists[i].value;
            Related(store, names, if s < |v| && v[s].Live? then Write(m, i, ShapeProps.Remove(v, s), Flag(true))
                                  else Told(m, Flag(false))) && ok == (s < |v| && v[s].Live?)
  {
    AliveIs(store, names, m, i);
    ghost var all, next, v := store.All(), store.next, store.View(names[i]);
    ok := store.RemoveSlot(names[i], s);
    if ok { Rewritten(store, all, next, names, m, i, ShapeProps.Remove(v, s), Flag(true)); }
  }

  method DoCompact(store: Store, names: seq<Addr>, i: nat, ghost m: Lists) returns (n: nat)
    requires Related(store, names, m) && Alive(m, i)
    modifies store
    ensures var v := m.lists[i].value;
            Related(store, names, Write(m, i, ShapeProps.Compact(v), Size(|ShapeProps.Compact(v)|)))
    ensures var v := m.lists[i].value; Size(|ShapeProps.Compact(v)|) == Size(n)
  {
    AliveIs(store, names, m, i);
    ghost var all, next, v := store.All(), store.next, store.View(names[i]);
    n := store.CompactShape(names[i]);
    Rewritten(store, all, next, names, m, i, ShapeProps.Compact(v), Size(|ShapeProps.Compact(v)|));
  }

  method Do(store: Store, names: seq<Addr>, op: Op, ghost m: Lists) returns (more: seq<Addr>, answer: Answer)
    requires Related(store, names, m)
    modifies store
    ensures Related(store, more, Step(m, op)) && Step(m, op).answers == m.answers + [answer]
  {
    hide Related, Add, AddSlot, SlotOf, ShapeProps.Remove, ShapeProps.Compact;
    more, answer := names, Nothing;
    if op.New? {
      var t := MakeNew(store, names, op.limit, m);
      return names + [t], Nothing;
    }
    AliveIs(store, names, m, op.shape);
    if op.shape >= |names| || names[op.shape] !in store.shapes || !Proper(op) {
      AnswersDoNotMatter(store, names, m, Nothing);
      return;
    }
    match op
    case New(_) => assert false;
    case Clone(i, extra) =>
      var t := MakeClone(store, names, i, extra, m);
      more := names + [t];
    case Branch(i) =>
      var t := MakeBranch(store, names, i, m);
      more := names + [t];
    case AddKey(i, k, a) =>
      var slot := DoAdd(store, names, i, k, a, m);
      answer := Slot(slot);
    case SetAttrs(i, k, a) =>
      var ok := DoSetAttrs(store, names, i, k, a, m);
      answer := Flag(ok);
    case Mutate(i, s, a, g, t) =>
      var ok := DoMutate(store, names, i, s, a, g, t, m);
      answer := Flag(ok);
    case Remove(i, s) =>
      var ok := DoRemove(store, names, i, s, m);
      answer := Flag(ok);
    case Compact(i) =>
      var n := DoCompact(store, names, i, m);
      answer := Size(n);
    case Reclaim(i) =>
      DoReclaim(store, names, i, m);
    case Drop(i) =>
      DoDrop(store, names, i, m);
    case Lookup(i, k) =>
      var slot := LookupIn(store, names, i, k, m);
      answer := Slot(slot);
      AnswersDoNotMatter(store, names, m, answer);
  }

  lemma AnswersDoNotMatter(store: Store, names: seq<Addr>, m: Lists, a: Answer)
    requires Related(store, names, m)
    ensures Related(store, names, Told(m, a))
  {
  }

  method DoReclaim(store: Store, names: seq<Addr>, i: nat, ghost m: Lists)
    requires Related(store, names, m) && Alive(m, i)
    modifies store
    ensures Related(store, names, Told(m, Nothing))
  {
    AliveIs(store, names, m, i);
    store.ReclaimTail(names[i], false);
  }

  method DoDrop(store: Store, names: seq<Addr>, i: nat, ghost m: Lists)
    requires Related(store, names, m) && Alive(m, i)
    modifies store
    ensures Related(store, names, Lists(m.lists[i := None], m.answers + [Nothing]))
  {
    AliveIs(store, names, m, i);
    ShowsDrop(store.All(), names, m.lists, i);
    store.Drop(names[i]);
  }

  method LookupIn(store: Store, names: seq<Addr>, i: nat, k: Key, ghost m: Lists) returns (slot: int)
    requires Related(store, names, m) && Alive(m, i) && IsKey(k)
    ensures slot == SlotOf(m.lists[i].value, k)
  {
    AliveIs(store, names, m, i);
    slot := store.LookupKey(names[i], k);
  }

  ghost predicate AllDropped(m: Lists) {
    forall i :: 0 <= i < |m.lists| ==> m.lists[i].None?
  }

  /** With the last shape the last record goes, and every byte is given back. */
  lemma NothingLeft(store: Store, names: seq<Addr>, m: Lists)
    requires Related(store, names, m) && AllDropped(m)
    ensures store.shapes == map[] && store.descs == map[] && store.bytes == 0
  {
    hide Store.Inv, Store.All, Shows;
    NoOrphans(store);
    store.AllKeys();
    NoneShown(store.All(), names, m.lists);
    assert store.shapes.Keys == {} && store.descs.Keys == {};
  }

  lemma NoneShown(all: map<Addr, View>, names: seq<Addr>, lists: seq<Option<View>>)
    requires Shows(all, names, lists) && forall i :: 0 <= i < |lists| ==> lists[i].None?
    ensures all == map[]
  {
    assert forall i :: 0 <= i < |names| ==> ShowsAt(all, names[i], lists[i]);
    assert all.Keys == {};
  }

  lemma NoOrphans(store: Store)
    requires store.Inv()
    ensures forall a :: a in store.descs ==> exists s :: s in store.shapes && store.shapes[s].descriptors == a
    ensures store.shapes == map[] && store.descs == map[] ==> store.bytes == 0
  {
    store.Conserved();
    hide Store.Inv;
    forall a | a in store.descs ensures exists s :: s in store.shapes && store.shapes[s].descriptors == a {
      assert store.descs[a].owners[0] in store.descs[a].owners;
    }
  }

  /**
   Every run: shapes that share storage answer as private lists would, and at the end each
   shape still alive shows its own list.  When none is alive nothing is left behind.
   */
  method RunAll(hash: Key -> nat, ops: seq<Op>) returns (store: Store, names: seq<Addr>, answers: seq<Answer>)
    ensures answers == Run(ops).answers && Related(store, names, Run(ops))
    ensures AllDropped(Run(ops)) ==> store.shapes == map[] && store.descs == map[] && store.bytes == 0
  {
    store := new Store(hash);
    names, answers := [], [];
    var n := 0;
    assert ops[..0] == [];
    assert store.All() == map[];
    assert Related(store, names, Run(ops[..0]));
    hide Related, Step, Run, AllDropped;
    while n < |ops|
      invariant n <= |ops| && answers == Run(ops[..n]).answers && Related(store, names, Run(ops[..n]))
      invariant fresh(store)
    {
      var answer: Answer;
      names, answer := Do(store, names, ops[n], Run(ops[..n]));
      answers := answers + [answer];
      RunStep(ops, n);
      n := n + 1;
    }
    assert ops[..n] == ops;
    if AllDropped(Run(ops)) { NothingLeft(store, names, Run(ops)); }
  }
}
