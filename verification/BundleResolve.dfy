/** Resolving a specifier inside an opened bundle. */
module BundleResolve {
  import opened Basics
  import opened BundleBytes
  import opened BundleEdges
  import opened BundleFormat
  import opened BundleFile
  import opened BundlePath

  const PATH_MAX: nat := 4096

  /** What opening guarantees of a bundle, and what the writer's sort adds to it. */
  ghost predicate Sound(o: Opened) {
    && RecordsOk(o.strtab, o.records) && Sorted(EdgesOf(o.strtab, o.records))
    && forall i :: 0 <= i < |o.records| ==> o.records[i].parent < |o.modules| && o.records[i].child < |o.modules|
  }

  ghost predicate IsIndex(ms: seq<Module>, key: Bytes, r: Option<nat>) {
    && (r.Some? ==> r.value < |ms| && ms[r.value].key == key && forall j :: 0 <= j < r.value ==> ms[j].key != key)
    && (r.None? ==> forall j :: 0 <= j < |ms| ==> ms[j].key != key)
  }

  /** bundle_find */
  method Find(ms: seq<Module>, key: Bytes) returns (r: Option<nat>)
    ensures IsIndex(ms, key, r)
  {
    var i := 0;
    while i < |ms|
      invariant i <= |ms| && forall j :: 0 <= j < i ==> ms[j].key != key
    {
      if ms[i].key == key { return Some(i); }
      i := i + 1;
    }
    return None;
  }

  /** The module a path stands for: by key first, then by where a module was written to disk. */
  ghost predicate IsParent(ms: seq<Module>, paths: seq<Option<Bytes>>, path: Bytes, r: Option<nat>)
    requires |paths| == |ms|
  {
    if exists i :: 0 <= i < |ms| && ms[i].key == path then IsIndex(ms, path, r)
    else if r.None? then forall i :: 0 <= i < |ms| ==> paths[i] != Some(path)
    else exists i :: FirstAt(ms, paths, path, i) && IsIndex(ms, ms[i].key, r)
  }

  ghost predicate FirstAt(ms: seq<Module>, paths: seq<Option<Bytes>>, path: Bytes, i: int)
    requires |paths| == |ms|
  {
    0 <= i < |ms| && paths[i] == Some(path) && forall j :: 0 <= j < i ==> paths[j] != Some(path)
  }

  /** bundle_key_for_path and the search for its index. */
  method FindParent(ms: seq<Module>, paths: seq<Option<Bytes>>, path: Bytes) returns (r: Option<nat>)
    requires |paths| == |ms|
    ensures IsParent(ms, paths, path, r)
  {
    r := Find(ms, path);
    if r.Some? { return; }
    var i := 0;
    while i < |ms|
      invariant i <= |ms| && forall j :: 0 <= j < i ==> paths[j] != Some(path)
    {
      if paths[i] == Some(path) {
        r := Find(ms, ms[i].key);
        assert FirstAt(ms, paths, path, i);
        return;
      }
      i := i + 1;
    }
  }

  /** What a specifier imported by one module resolves to, given the edges in any order. */
  ghost predicate Resolution(es: seq<Edge>, ms: seq<Module>, parent: nat, spec: Bytes, require: bool, r: Option<Bytes>)
    requires parent < |ms| && forall e :: e in es ==> e.child < |ms|
  {
    if exists e :: e in es && Matches(e, parent, spec) then
      r.Some? && exists e :: e in es && Answers(es, parent, spec, require, Some(e)) && r.value == ms[e.child].key
    else
      var k := KeyOf(ms[parent].key, spec, PATH_MAX);
      if k.Some? && exists i :: 0 <= i < |ms| && ms[i].key == k.value then r == k else r.None?
  }

  lemma ChildrenIn(o: Opened)
    requires Sound(o)
    ensures forall e :: e in EdgesOf(o.strtab, o.records) ==> e.child < |o.modules|
  {
    hide StringAt, EdgesOf, Sorted;
  }

  /** ant_bundle_resolve */
  method Resolve(o: Opened, paths: seq<Option<Bytes>>, path: Bytes, spec: Bytes, require: bool)
    returns (r: Option<Bytes>, ghost parent: Option<nat>)
    requires Sound(o) && |paths| == |o.modules|
    ensures IsParent(o.modules, paths, path, parent)
    ensures parent.None? ==> r.None?
    ensures parent.Some? ==>
              parent.value < |o.modules| && (forall e :: e in EdgesOf(o.strtab, o.records) ==> e.child < |o.modules|)
    ensures parent.Some? ==> Resolution(EdgesOf(o.strtab, o.records), o.modules, parent.value, spec, require, r)
  {
    var found := FindParent(o.modules, paths, path);
    parent := found;
    ChildrenIn(o);
    if found.None? { return None, parent; }
    ghost var es := EdgesOf(o.strtab, o.records);
    var at := FindEdge(o.strtab, o.records, found.value, spec, require);
    AnswersMember(es, found.value, spec, require, at);
    if at.Some? {
      r := Some(o.modules[o.records[at.value].child].key);
      assert es[at.value] in es && Matches(es[at.value], found.value, spec);
      return;
    }
    var parentKey := o.modules[found.value].key;
    var buffer := new Byte[PATH_MAX];
    var n := RelativeKey(parentKey, spec, buffer);
    if n.Some? {
      var child := Find(o.modules, buffer[..n.value]);
      if child.Some? { return Some(o.modules[child.value].key), parent; }
    }
    return None, parent;
  }

  /** The answer depends on which edges there are, not on their order. */
  lemma ResolutionPermutes(es: seq<Edge>, fs: seq<Edge>, ms: seq<Module>, parent: nat, spec: Bytes, require: bool,
                           r: Option<Bytes>)
    requires multiset(es) == multiset(fs) && parent < |ms| && forall e :: e in fs ==> e.child < |ms|
    ensures forall e :: e in es ==> e.child < |ms|
    ensures Resolution(es, ms, parent, spec, require, r) <==> Resolution(fs, ms, parent, spec, require, r)
  {
    hide KeyOf;
    forall e ensures e in es <==> e in fs {
      assert e in es <==> e in multiset(es);
      assert e in fs <==> e in multiset(fs);
    }
    forall e ensures Answers(es, parent, spec, require, Some(e)) <==> Answers(fs, parent, spec, require, Some(e)) {}
  }

  lemma OpenedSound(prefix: Bytes, b: Build, rs: seq<Record>)
    requires Legal(prefix, b) && Arranged(b, rs)
    ensures Sound(Opened(Cut(b.abi), b.entry, b.modules, rs, Strings(Names(b))))
  {
    hide Strings, Names, EdgesOf, Sorted, CStrings, Small, FieldsOk;
    forall i | 0 <= i < |rs| ensures rs[i].parent < |b.modules| && rs[i].child < |b.modules| {
      var j := Source(b, rs, i);
    }
  }

  /** In a bundle written and opened, resolving is a scan of the edges as the build listed them. */
  lemma ResolvesAsBuilt(prefix: Bytes, b: Build, rs: seq<Record>, parent: nat, spec: Bytes, require: bool,
                        r: Option<Bytes>)
    requires Legal(prefix, b) && Arranged(b, rs) && parent < |b.modules|
    ensures var es := EdgesOf(Strings(Names(b)), rs);
            && (forall e :: e in es ==> e.child < |b.modules|)
            && (Resolution(es, b.modules, parent, spec, require, r) <==>
                   Resolution(b.edges, b.modules, parent, spec, require, r))
  {
    hide Strings, Names, EdgesOf, Sorted, Resolution, KeyOf;
    EdgesBack(b, rs);
    ResolutionPermutes(EdgesOf(Strings(Names(b)), rs), b.edges, b.modules, parent, spec, require, r);
  }
}
