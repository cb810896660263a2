/** Normalising a relative specifier against the key of the module that imports it. */
module BundlePath {
  import opened Basics

  const SLASH: Byte := 0x2F
  const DOT: Byte := 0x2E

  /** "$ant" */
  const ANT: Bytes := [0x24, 0x61, 0x6E, 0x74]

  /** "/$ant/" */
  const ROOT: Bytes := [SLASH, 0x24, 0x61, 0x6E, 0x74, SLASH]

  // ---- paths as components ----

  /** No slash from i up to n. */
  predicate Free(s: Bytes, i: nat, n: nat)
    requires n <= |s|
  {
    forall j :: i <= j < n ==> s[j] != SLASH
  }

  /** The first slash at or after i, or the length. */
  function NextSlash(s: Bytes, i: nat): (n: nat)
    requires i <= |s|
    ensures i <= n <= |s| && Free(s, i, n) && (n < |s| ==> s[n] == SLASH)
    decreases |s| - i
  {
    if i == |s| || s[i] == SLASH then i else NextSlash(s, i + 1)
  }

  predicate NoSlashes(dirs: seq<Bytes>) {
    forall i :: 0 <= i < |dirs| ==> Free(dirs[i], 0, |dirs[i]|)
  }

  function Split(s: Bytes): (comps: seq<Bytes>)
    ensures comps != [] && NoSlashes(comps)
  {
    var n := NextSlash(s, 0);
    if n == |s| then [s] else [s[..n]] + Split(s[n + 1..])
  }

  /** Directories, each followed by a slash. */
  function Render(dirs: seq<Bytes>): Bytes {
    if dirs == [] then [] else Render(dirs[..|dirs| - 1]) + dirs[|dirs| - 1] + [SLASH]
  }

  lemma {:induction false} RenderCons(c: Bytes, dirs: seq<Bytes>)
    ensures Render([c] + dirs) == c + [SLASH] + Render(dirs)
    decreases |dirs|
  {
    var n := |dirs|;
    if n == 0 {
      assert ([c] + dirs)[..0] == [];
    } else {
      RenderCons(c, dirs[..n - 1]);
      assert ([c] + dirs)[..n] == [c] + dirs[..n - 1];
    }
  }

  /** The directories of a key: all its components but the last. */
  function DirsOf(key: Bytes): (dirs: seq<Bytes>)
    ensures NoSlashes(dirs)
  {
    var comps := Split(key);
    comps[..|comps| - 1]
  }

  predicate HasSlash(key: Bytes) {
    !Free(key, 0, |key|)
  }

  /** Position after the last slash, or 0. */
  method AfterLastSlash(key: Bytes) returns (n: nat)
    ensures n <= |key| && Free(key, n, |key|) && (n > 0 ==> key[n - 1] == SLASH)
  {
    n := |key|;
    while n > 0 && key[n - 1] != SLASH
      invariant n <= |key| && Free(key, n, |key|)
    {
      n := n - 1;
    }
  }

  lemma NotBefore(key: Bytes, n: nat, m: nat)
    requires n <= |key| && Free(key, n, |key|) && m < |key| && key[m] == SLASH
    ensures m < n
  {
  }

  lemma SplitCons(key: Bytes)
    requires NextSlash(key, 0) < |key|
    ensures var m := NextSlash(key, 0); Split(key) == [key[..m]] + Split(key[m + 1..])
  {
    hide NextSlash;
  }

  lemma SplitLast(key: Bytes)
    requires NextSlash(key, 0) == |key|
    ensures Split(key) == [key]
  {
  }

  lemma ButLast(x: Bytes, comps: seq<Bytes>)
    requires comps != []
    ensures ([x] + comps)[..|[x] + comps| - 1] == [x] + comps[..|comps| - 1]
  {
  }

  lemma DirsCons(key: Bytes)
    requires NextSlash(key, 0) < |key|
    ensures var m := NextSlash(key, 0); DirsOf(key) == [key[..m]] + DirsOf(key[m + 1..])
  {
    hide NextSlash, Split;
    var m := NextSlash(key, 0);
    SplitCons(key);
    ButLast(key[..m], Split(key[m + 1..]));
  }

  lemma AfterSlash(key: Bytes, n: nat, m: nat)
    requires m < n <= |key| && key[m] == SLASH && key[n - 1] == SLASH && Free(key, n, |key|)
    ensures var rest := key[m + 1..];
            && Free(rest, n - m - 1, |rest|)
            && (n > m + 1 ==> rest[n - m - 2] == SLASH)
            && key[..m] + [SLASH] + rest[..n - m - 1] == key[..n]
  {
    var rest := key[m + 1..];
    assert key[..m] + [SLASH] == key[..m + 1];
    assert key[..m + 1] + rest[..n - m - 1] == key[..n];
  }

  /** A key is its directories rendered, then its last component. */
  lemma {:induction false} DirsPrefix(key: Bytes, n: nat)
    requires n <= |key| && Free(key, n, |key|) && (n > 0 ==> key[n - 1] == SLASH)
    ensures Render(DirsOf(key)) == key[..n]
    decreases |key|
  {
    hide Render, NextSlash, DirsOf;
    var m := NextSlash(key, 0);
    if m == |key| {
      NoDirs(key, n);
      RenderEnds(DirsOf(key));
    } else {
      assert key[m] == SLASH;
      NotBefore(key, n, m);
      AfterSlash(key, n, m);
      DirsPrefix(key[m + 1..], n - m - 1);
      DirsCons(key);
      RenderCons(key[..m], DirsOf(key[m + 1..]));
    }
  }

  lemma NoDirs(key: Bytes, n: nat)
    requires NextSlash(key, 0) == |key| && n <= |key| && (n > 0 ==> key[n - 1] == SLASH)
    ensures n == 0 && DirsOf(key) == []
  {
  }

  // ---- the fold ----

  /** One component; `room` is the size of the buffer the path must fit. */
  function Step(dirs: seq<Bytes>, c: Bytes, room: nat): Option<seq<Bytes>> {
    if c == [] || c == [DOT] then Some(dirs)
    else if c == [DOT, DOT] then
      if |Render(dirs)| <= |ROOT| then None else Some(dirs[..|dirs| - 1])
    else if |Render(dirs)| + |c| >= room then None
    else Some(dirs + [c])
  }

  /** Walk the components from a directory. */
  function Normalise(dirs: seq<Bytes>, comps: seq<Bytes>, room: nat): Option<seq<Bytes>>
    decreases |comps|
  {
    if comps == [] then Some(dirs)
    else
      var next := Step(dirs, comps[0], room);
      if next.None? then None else Normalise(next.value, comps[1..], room)
  }

  predicate Relative(spec: Bytes) {
    || (|spec| >= 2 && spec[0] == DOT && spec[1] == SLASH)
    || (|spec| >= 3 && spec[0] == DOT && spec[1] == DOT && spec[2] == SLASH)
  }

  function WithoutSlash(s: Bytes): Bytes {
    if s != [] && s[|s| - 1] == SLASH then s[..|s| - 1] else s
  }

  /** The key a relative specifier names, if it names one that fits the buffer. */
  function KeyOf(parent: Bytes, spec: Bytes, room: nat): Option<Bytes> {
    if !Relative(spec) || !HasSlash(parent) || |Render(DirsOf(parent))| >= room then None
    else
      var r := Normalise(DirsOf(parent), Split(spec), room);
      if r.None? then None else Some(WithoutSlash(Render(r.value)))
  }

  // ---- what the fold guarantees ----

  ghost predicate Rooted(dirs: seq<Bytes>) {
    |dirs| >= 2 && dirs[0] == [] && dirs[1] == ANT
  }

  lemma {:induction false} RenderRooted(dirs: seq<Bytes>)
    requires Rooted(dirs)
    ensures |Render(dirs)| >= |ROOT| && Render(dirs)[..|ROOT|] == ROOT
    ensures |dirs| > 2 ==> |Render(dirs)| > |ROOT|
    ensures |dirs| == 2 ==> Render(dirs) == ROOT
    decreases |dirs|
  {
    var n := |dirs| - 1;
    if n > 1 {
      RenderRooted(dirs[..n]);
    } else {
      assert dirs[..1][..0] == [];
      assert Render(dirs[..1]) == [SLASH];
      assert Render(dirs) == [SLASH] + ANT + [SLASH];
    }
  }

  /** From below the root no sequence of components leads above it. */
  lemma {:induction false} StaysUnderRoot(dirs: seq<Bytes>, comps: seq<Bytes>, room: nat)
    requires Rooted(dirs)
    ensures Normalise(dirs, comps, room).Some? ==> Rooted(Normalise(dirs, comps, room).value)
    decreases |comps|
  {
    hide Render;
    if comps != [] {
      RenderRooted(dirs);
      var next := Step(dirs, comps[0], room);
      if next.Some? { StaysUnderRoot(next.value, comps[1..], room); }
    }
  }

  lemma UnderRootIsRooted(key: Bytes)
    requires |key| >= |ROOT| && key[..|ROOT|] == ROOT
    ensures Rooted(DirsOf(key)) && HasSlash(key)
  {
    forall i | 0 <= i < |ROOT| ensures key[i] == ROOT[i] { assert key[..|ROOT|][i] == ROOT[i]; }
    assert NextSlash(key, 0) == 0;
    var rest := key[1..];
    assert key[..0] == [];
    assert NextSlash(rest, 4) == 4;
    assert NextSlash(rest, 3) == 4;
    assert NextSlash(rest, 2) == 4;
    assert NextSlash(rest, 1) == 4;
    assert NextSlash(rest, 0) == 4;
    assert rest[..4] == ANT;
    assert Split(rest) == [ANT] + Split(rest[5..]);
    assert Split(key) == [[]] + Split(rest);
  }

  /** A specifier imported by a module under the root names a key under the root, or the root. */
  lemma KeyUnderRoot(parent: Bytes, spec: Bytes, room: nat)
    requires |parent| >= |ROOT| && parent[..|ROOT|] == ROOT
    ensures var k := KeyOf(parent, spec, room);
            k.Some? ==> k.value + [SLASH] == ROOT || (|k.value| >= |ROOT| && k.value[..|ROOT|] == ROOT)
  {
    hide Normalise, Render;
    UnderRootIsRooted(parent);
    var k := KeyOf(parent, spec, room);
    if k.Some? {
      StaysUnderRoot(DirsOf(parent), Split(spec), room);
      var d := Normalise(DirsOf(parent), Split(spec), room).value;
      RenderRooted(d);
      RenderEnds(d);
      if |d| > 2 { assert k.value[..|ROOT|] == Render(d)[..|ROOT|]; } else { assert k.value + [SLASH] == Render(d); }
    }
  }

  lemma RenderEnds(dirs: seq<Bytes>)
    ensures Render(dirs) == [] <==> dirs == []
    ensures dirs != [] ==> Render(dirs)[|Render(dirs)| - 1] == SLASH
  {
  }

  /** The path built never outgrows the buffer. */
  lemma {:induction false} NormaliseFits(dirs: seq<Bytes>, comps: seq<Bytes>, room: nat)
    requires |Render(dirs)| <= room
    ensures Normalise(dirs, comps, room).Some? ==> |Render(Normalise(dirs, comps, room).value)| <= room
    decreases |comps|
  {
    if comps != [] {
      var next := Step(dirs, comps[0], room);
      if next.Some? {
        assert (dirs + [comps[0]])[..|dirs|] == dirs;
        NormaliseFits(next.value, comps[1..], room);
      }
    }
  }

  ghost predicate Plain(c: Bytes) {
    c != [] && c != [DOT] && c != [DOT, DOT]
  }

  /** Nothing the fold appends is empty, "." or "..". */
  lemma {:induction false} NormaliseClean(dirs: seq<Bytes>, comps: seq<Bytes>, room: nat, k: nat)
    requires forall i :: k <= i < |dirs| ==> Plain(dirs[i])
    ensures var r := Normalise(dirs, comps, room);
            r.Some? ==> forall i :: k <= i < |r.value| ==> Plain(r.value[i])
    decreases |comps|
  {
    if comps != [] {
      var next := Step(dirs, comps[0], room);
      if next.Some? { NormaliseClean(next.value, comps[1..], room, k); }
    }
  }

  /** Entering a directory and leaving it again is no step at all. */
  lemma Cancels(dirs: seq<Bytes>, c: Bytes, rest: seq<Bytes>, room: nat)
    requires Plain(c) && |Render(dirs)| + |c| < room && |Render(dirs)| + |c| + 1 > |ROOT|
    ensures Normalise(dirs, [c, [DOT, DOT]] + rest, room) == Normalise(dirs, rest, room)
  {
    var comps: seq<Bytes> := [c, [DOT, DOT]] + rest;
    assert comps[1..] == [[DOT, DOT]] + rest;
    assert comps[1..][1..] == rest;
    assert (dirs + [c])[..|dirs|] == dirs;
    assert |Render(dirs + [c])| == |Render(dirs)| + |c| + 1;
  }

  // ---- the walk over bytes ----

  /** Give up the last directory of the path in the buffer. */
  method Up(out: array<Byte>, pos: nat, ghost dirs: seq<Bytes>) returns (p: nat)
    requires dirs != [] && NoSlashes(dirs) && pos <= out.Length && out[..pos] == Render(dirs)
    ensures p <= pos && out[..p] == Render(dirs[..|dirs| - 1])
  {
    ghost var n := |dirs| - 1;
    ghost var before := Render(dirs[..n]);
    ghost var last := dirs[n];
    RenderEnds(dirs[..n]);
    assert out[..pos] == before + last + [SLASH];
    hide Render;
    p := pos;
    if p > 0 && out[p - 1] == SLASH { p := p - 1; }
    assert out[..p] == before + last;
    forall q | |before| <= q < |before| + |last| ensures (before + last)[q] != SLASH {
      assert (before + last)[q] == last[q - |before|];
    }
    while p > 0 && out[p - 1] != SLASH
      invariant |before| <= p <= |before| + |last| && out[..p] == (before + last)[..p]
    {
      assert out[p - 1] == out[..p][p - 1] == (before + last)[p - 1];
      p := p - 1;
    }
    assert p > 0 ==> out[p - 1] == out[..p][p - 1];
  }

  /** One component of the specifier applied to the path in the buffer. */
  method Component(out: array<Byte>, pos: nat, c: Bytes, ghost dirs: seq<Bytes>) returns (r: Option<nat>)
    requires NoSlashes(dirs) && pos <= out.Length && out[..pos] == Render(dirs)
    modifies out
    ensures r.Some? <==> Step(dirs, c, out.Length).Some?
    ensures r.Some? ==> r.value <= out.Length && out[..r.value] == Render(Step(dirs, c, out.Length).value)
  {
    RenderEnds(dirs);
    if |c| == 0 || (|c| == 1 && c[0] == DOT) {
      return Some(pos);
    }
    if |c| == 2 && c[0] == DOT && c[1] == DOT {
      if pos <= |ROOT| { return None; }
      var p := Up(out, pos, dirs);
      return Some(p);
    }
    // The path so far is empty or ends in a slash, so no separator is ever missing here.
    assert pos == 0 || out[pos - 1] == SLASH by { assert pos > 0 ==> out[pos - 1] == out[..pos][pos - 1]; }
    if |c| >= out.Length - pos { return None; }
    ghost var before := out[..pos];
    forall i | 0 <= i < |c| { out[pos + i] := c[i]; }
    assert out[..pos + |c|] == before + c;
    out[pos + |c|] := SLASH;
    assert out[..pos + |c| + 1] == before + c + [SLASH];
    assert (dirs + [c])[..|dirs|] == dirs;
    return Some(pos + |c| + 1);
  }

  lemma SplitAt(spec: Bytes, p: nat)
    requires p < |spec|
    ensures var n := NextSlash(spec, p);
            Split(spec[p..]) == if n == |spec| then [spec[p..n]] else [spec[p..n]] + Split(spec[n + 1..])
  {
    hide Split, NextSlash, Free, NoSlashes;
    SlashShift(spec, p, 0);
    var n := NextSlash(spec, p);
    var part := spec[p..];
    assert part[..n - p] == spec[p..n];
    if n < |spec| {
      SplitCons(part);
      assert part[n - p + 1..] == spec[n + 1..];
    } else {
      assert part == spec[p..n];
      SplitLast(part);
    }
  }

  lemma {:induction false} SlashShift(spec: Bytes, p: nat, i: nat)
    requires p + i <= |spec|
    ensures NextSlash(spec[p..], i) == NextSlash(spec, p + i) - p
    decreases |spec| - p - i
  {
    if p + i < |spec| { SlashShift(spec, p, i + 1); }
  }

  lemma StepNoSlashes(dirs: seq<Bytes>, c: Bytes, room: nat)
    requires NoSlashes(dirs) && Free(c, 0, |c|)
    ensures Step(dirs, c, room).Some? ==> NoSlashes(Step(dirs, c, room).value)
  {
    hide Render;
    RenderEnds(dirs);
  }

  lemma OneComponent(dirs: seq<Bytes>, c: Bytes, rest: seq<Bytes>, room: nat)
    ensures var s := Step(dirs, c, room);
            Normalise(dirs, [c] + rest, room) == if s.None? then None else Normalise(s.value, rest, room)
  {
    assert ([c] + rest)[1..] == rest;
  }

  /** bundle_relative_key: the path is built in the buffer; the result is its length. */
  method RelativeKey(parent: Bytes, spec: Bytes, out: array<Byte>) returns (r: Option<nat>)
    modifies out
    ensures r.Some? <==> KeyOf(parent, spec, out.Length).Some?
    ensures r.Some? ==> r.value < out.Length && out[r.value] == 0
    ensures r.Some? ==> out[..r.value] == KeyOf(parent, spec, out.Length).value
  {
    hide Render, Step, Split, Normalise, DirsOf;
    if !Relative(spec) { return None; }
    var n := AfterLastSlash(parent);
    if n == 0 { return None; }
    DirsPrefix(parent, n);
    if n >= out.Length { return None; }
    forall i | 0 <= i < n { out[i] := parent[i]; }
    ghost var dirs := DirsOf(parent);
    assert out[..n] == parent[..n];
    var pos := Walk(spec, out, n, dirs);
    if pos.None? { return None; }
    var end := pos.value;
    RenderEnds(Normalise(dirs, Split(spec), out.Length).value);
    ghost var path := out[..end];
    if end > 0 && out[end - 1] == SLASH { end := end - 1; }
    assert out[..end] == WithoutSlash(path);
    out[end] := 0;
    assert out[..end] == WithoutSlash(path);
    return Some(end);
  }

  /** The loop of bundle_relative_key over the components of the specifier. */
  method Walk(spec: Bytes, out: array<Byte>, start: nat, ghost from: seq<Bytes>) returns (r: Option<nat>)
    requires NoSlashes(from) && start <= out.Length && out[..start] == Render(from)
    modifies out
    ensures var d := Normalise(from, Split(spec), out.Length);
            (r.Some? <==> d.Some?) && (r.Some? ==> r.value <= out.Length && out[..r.value] == Render(d.value))
  {
    hide Render, Step, Split, Normalise;
    ghost var dirs := from;
    var pos: nat, p: nat := start, 0;
    assert spec[0..] == spec;
    while p < |spec|
      invariant pos <= out.Length && p <= |spec| && NoSlashes(dirs) && out[..pos] == Render(dirs)
      invariant Normalise(dirs, Split(spec[p..]), out.Length) == Normalise(from, Split(spec), out.Length)
    {
      var next := NextSlash(spec, p);
      var c := spec[p..next];
      SplitAt(spec, p);
      var q := Component(out, pos, c, dirs);
      ghost var rest := if next == |spec| then [] else Split(spec[next + 1..]);
      assert Split(spec[p..]) == [c] + rest;
      OneComponent(dirs, c, rest, out.Length);
      if q.None? { return None; }
      StepNoSlashes(dirs, c, out.Length);
      pos, dirs := q.value, Step(dirs, c, out.Length).value;
      if next == |spec| {
        NothingLeft(dirs, out.Length);
        return Some(pos);
      }
      p := next + 1;
    }
    assert spec[p..] == [];
    NothingLeft(dirs, out.Length);
    return Some(pos);
  }

  lemma NothingLeft(dirs: seq<Bytes>, room: nat)
    ensures Normalise(dirs, [], room) == Some(dirs) && Normalise(dirs, Split([]), room) == Some(dirs)
  {
    assert Split([]) == [[]];
    OneComponent(dirs, [], [], room);
  }
}
