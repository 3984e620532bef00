/** Path strings and what they mean in a tree of names (src/fs/vfs.c:65-173): the component
    scanner, and the walk as a function of a prefix-closed map from component lists to
    "directory" or "file". */
module Paths {
  import opened Errno
  import opened Memory

  type Name = s: string | s != "" && '/' !in s witness "a"

  type Path = seq<Name>

  // ----- components of a path string

  /** Where the component that starts at p ends. */
  function NameEnd(s: string, p: nat): (e: nat)
    requires p <= |s|
    ensures p <= e <= |s| && '/' !in s[p..e] && (e < |s| ==> s[e] == '/')
    decreases |s| - p
  {
    if p == |s| || s[p] == '/' then p
    else
      var e := NameEnd(s, p + 1);
      assert s[p..e] == [s[p]] + s[p + 1..e];
      e
  }

  /** Where the slashes that start at p end. */
  function SlashEnd(s: string, p: nat): (e: nat)
    requires p <= |s|
    ensures p <= e <= |s| && (e < |s| ==> s[e] != '/') && forall i :: p <= i < e ==> s[i] == '/'
    ensures p < |s| && s[p] == '/' ==> e > p
    decreases |s| - p
  {
    if p < |s| && s[p] == '/' then SlashEnd(s, p + 1) else p
  }

  /** The components of a path, and whether slashes follow the last one. */
  datatype Parsed = Parsed(names: Path, slash: bool)

  function Parse(s: string, p: nat): Parsed
    requires p <= |s| && (p < |s| ==> s[p] != '/')
    decreases |s| - p
  {
    if p == |s| then Parsed([], false)
    else
      var e := NameEnd(s, p);
      var next := SlashEnd(s, e);
      var rest := Parse(s, next);
      Parsed([s[p..e]] + rest.names, if next == |s| then e < |s| else rest.slash)
  }

  /** n slashes. */
  function Slashes(n: nat): (r: string)
    ensures |r| == n && forall i :: 0 <= i < n ==> r[i] == '/'
  {
    seq(n, _ => '/')
  }

  /** The path with these components: gaps[i] slashes in front of names[i], and some at the end. */
  function Spelled(names: Path, gaps: seq<nat>, tail: nat): (r: string)
    requires |gaps| == |names|
  {
    if names == [] then Slashes(tail)
    else Slashes(gaps[0]) + names[0] + Spelled(names[1..], gaps[1..], tail)
  }

  /** Where a name ends and where slashes end, from what follows them. */
  lemma EndsAt(s: string, p: nat, e: nat)
    requires p <= e <= |s|
    ensures '/' !in s[p..e] && (e < |s| ==> s[e] == '/') ==> NameEnd(s, p) == e
    ensures (forall i :: p <= i < e ==> s[i] == '/') && (e < |s| ==> s[e] != '/') ==> SlashEnd(s, p) == e
  {
    var n := NameEnd(s, p);
    if n < e { assert s[p..e][n - p] == s[n]; }
    if e < n { assert s[p..n][e - p] == s[e]; }
  }

  /** Parsing undoes spelling, whatever stands in front. */
  lemma {:induction false} ParseSpelled(u: string, names: Path, gaps: seq<nat>, tail: nat)
    requires |gaps| == |names| && forall i :: 0 <= i < |gaps| ==> gaps[i] > 0
    ensures
      var s := u + Spelled(names, gaps, tail);
      SlashEnd(s, |u|) <= |s| && Parse(s, SlashEnd(s, |u|)) == Parsed(names, tail > 0 && names != [])
    decreases |names|
  {
    hide Parse, NameEnd, SlashEnd, Slashes, Spelled;
    var s := u + Spelled(names, gaps, tail);
    SpelledParts(u, names, gaps, tail);
    if names == [] {
      AllSlashes(s, |u|, names, gaps, tail);
      ParseEnd(s);
    } else {
      var rest := Spelled(names[1..], gaps[1..], tail);
      var front := u + Slashes(gaps[0]) + names[0];
      SpelledStart(names[1..], gaps[1..], tail);
      FirstName(u, gaps[0], names[0], rest);
      ParseStep(s, SlashEnd(s, |u|));
      ParseSpelled(front, names[1..], gaps[1..], tail);
      assert names == [names[0]] + names[1..];
      AllSlashes(s, |front|, names[1..], gaps[1..], tail);
    }
  }

  lemma SpelledParts(u: string, names: Path, gaps: seq<nat>, tail: nat)
    requires |gaps| == |names|
    ensures
      var s := u + Spelled(names, gaps, tail);
      && s[|u|..] == Spelled(names, gaps, tail)
      && (names != [] ==>
           var front, rest := u + Slashes(gaps[0]) + names[0], Spelled(names[1..], gaps[1..], tail);
           s == front + rest && s[|front|..] == rest && |front| == |u| + gaps[0] + |names[0]|)
  {
  }

  lemma ParseEnd(s: string)
    ensures Parse(s, |s|) == Parsed([], false)
  {
  }

  lemma ParseStep(s: string, p: nat)
    requires p < |s| && s[p] != '/'
    ensures
      var e := NameEnd(s, p);
      var rest := Parse(s, SlashEnd(s, e));
      Parse(s, p) == Parsed([s[p..e]] + rest.names, if SlashEnd(s, e) == |s| then e < |s| else rest.slash)
  {
  }

  /** Only slashes are left exactly if no name is. */
  lemma AllSlashes(s: string, p: nat, names: Path, gaps: seq<nat>, tail: nat)
    requires |gaps| == |names| && p <= |s| && s[p..] == Spelled(names, gaps, tail)
    ensures names == [] ==> SlashEnd(s, p) == |s| == p + tail
    ensures names != [] ==> SlashEnd(s, p) < |s|
  {
    if names == [] {
      assert forall i :: p <= i < |s| ==> s[i] == s[p..][i - p];
      EndsAt(s, p, |s|);
    } else {
      var q := p + gaps[0];
      assert s[q] == s[p..][gaps[0]] == names[0][0];
      assert names[0][0] in names[0];
    }
  }

  /** Slashes, a name, and then a slash or nothing. */
  lemma FirstName(u: string, gap: nat, name: Name, rest: string)
    requires rest != [] ==> rest[0] == '/'
    ensures
      var s, p := u + Slashes(gap) + name + rest, |u| + gap;
      && p < |s| && SlashEnd(s, |u|) == p && NameEnd(s, p) == p + |name| && s[p..p + |name|] == name && s[p] != '/'
  {
    var s, p := u + Slashes(gap) + name + rest, |u| + gap;
    assert s[p..p + |name|] == name && s[p] == name[0];
    assert name[0] in name;
    EndsAt(s, |u|, p);
    EndsAt(s, p, p + |name|);
  }

  lemma SpelledStart(names: Path, gaps: seq<nat>, tail: nat)
    requires |gaps| == |names| && forall i :: 0 <= i < |gaps| ==> gaps[i] > 0
    ensures
      var r := Spelled(names, gaps, tail);
      r != [] ==> r[0] == '/'
  {
  }

  datatype Component = NoMore | Norm | Last | LastSlash

  /** get_next_component. `memory` says whether kmalloc has room for the copy of the component. */
  method GetNextComponent(s: string, p: nat, memory: bool) returns (kind: Component, name: Name, next: nat)
    requires p <= |s| && (p < |s| ==> s[p] != '/')
    ensures kind.NoMore? <==> p == |s| || !memory
    ensures kind.NoMore? ==> next == p
    ensures !kind.NoMore? ==> p < next <= |s| && (next < |s| ==> s[next] != '/')
    ensures !kind.NoMore? ==>
      var a, b := Parse(s, p), Parse(s, next);
      && name == s[p..NameEnd(s, p)] && a.names == [name] + b.names
      && (kind.Norm? <==> b.names != []) && (kind.LastSlash? <==> b.names == [] && a.slash)
      && (b.names != [] ==> b.slash == a.slash)
  {
    if p == |s| {
      return NoMore, "a", p;
    }
    var q := p;
    while q < |s| && s[q] != '/'
      invariant p <= q <= |s| && NameEnd(s, p) == NameEnd(s, q)
    {
      q := q + 1;
    }
    name := s[p..q];
    next := p;
    if !memory {
      return NoMore, name, next;
    }
    next := q;
    while next < |s| && s[next] == '/'
      invariant q <= next <= |s| && SlashEnd(s, q) == SlashEnd(s, next)
    {
      next := next + 1;
    }
    kind := if q == |s| then Last else if next == |s| then LastSlash else Norm;
  }

  // ----- the walk

  /** Which paths exist, and whether each is a directory. */
  type Shape = map<Path, bool>

  ghost predicate ShapeOk(s: Shape) {
    && [] in s && s[[]]
    && forall p :: p in s && p != [] ==> p[..|p| - 1] in s && s[p[..|p| - 1]]
  }

  predicate IsDir(s: Shape, p: Path) { p in s && s[p] }

  predicate IsFile(s: Shape, p: Path) { p in s && !s[p] }

  /** The flags of lookup_path_common. */
  datatype Flags = Flags(mustNotExist: bool, mustBeDir: bool, returnLast: bool)

  const LOOKUP_DIR := Flags(false, true, false)
  const FOR_CREATE := Flags(true, false, false)
  const FOR_OPEN := Flags(false, false, true)
  const FOR_UNLINK := Flags(false, false, false)

  /** The end of a walk: a node, or a directory and a last name not looked up or not there. */
  datatype Found = Node(path: Path) | Missing(dir: Path, name: Name) | Error(code: nat)

  /** Is this component the one the flags speak about? One with trailing slashes only counts if a
      flag besides NO_SLASHES is given. */
  predicate IsLast(kind: Component, f: Flags) {
    kind.Last? || (kind.LastSlash? && f != FOR_UNLINK)
  }

  function ComponentOf(names: Path, slash: bool): Component
    requires names != []
  {
    if |names| > 1 then Norm else if slash then LastSlash else Last
  }

  /** lookup_path_common from directory p on, when there is memory for copies of that many
      components. */
  function Walk(s: Shape, p: Path, names: Path, slash: bool, f: Flags, copies: nat): Found
    requires names != []
    decreases |names|
  {
    var kind := ComponentOf(names, slash);
    var q := p + [names[0]];
    if copies == 0 then Error(ENOMEM)
    else if IsLast(kind, f) && f.returnLast then Missing(p, names[0])
    else if q !in s then if IsLast(kind, f) && f.mustNotExist then Missing(p, names[0]) else Error(ENOENT)
    else if IsLast(kind, f) && f.mustNotExist then Error(EEXIST)
    else if !s[q] then if !kind.Last? || f.mustBeDir then Error(ENOTDIR) else Node(q)
    else if !kind.Norm? then Node(q)
    else Walk(s, q, names[1..], slash, f, copies - 1)
  }

  // ----- what the walk means

  /** Some of the first n components leads to a file. */
  ghost predicate FileOnTheWay(s: Shape, p: Path, names: Path, n: nat)
    requires n <= |names|
  {
    exists k {:trigger names[..k]} :: 1 <= k <= n && IsFile(s, p + names[..k])
  }

  lemma FileStep(s: Shape, p: Path, names: Path, n: nat)
    requires names != [] && 1 <= n <= |names|
    ensures FileOnTheWay(s, p, names, n) <==>
      IsFile(s, p + [names[0]]) || FileOnTheWay(s, p + [names[0]], names[1..], n - 1)
    ensures n == 1 ==> !FileOnTheWay(s, p + [names[0]], names[1..], 0)
  {
    assert names[..1] == [names[0]];
    if FileOnTheWay(s, p, names, n) {
      var k :| 1 <= k <= n && IsFile(s, p + names[..k]);
      assert p + names[..k] == p + [names[0]] + names[1..][..k - 1];
    }
    if FileOnTheWay(s, p + [names[0]], names[1..], n - 1) {
      var k :| 1 <= k <= n - 1 && IsFile(s, p + [names[0]] + names[1..][..k]);
      assert p + names[..k + 1] == p + [names[0]] + names[1..][..k];
    }
  }

  /** Nothing lies below a path that is missing or a file. */
  lemma {:induction false} NothingBelow(s: Shape, p: Path, rest: Path)
    requires ShapeOk(s) && !IsDir(s, p) && rest != []
    ensures p + rest !in s
    decreases |rest|
  {
    if p + rest in s {
      assert (p + rest)[..|p + rest| - 1] == p + rest[..|rest| - 1];
      if |rest| > 1 {
        NothingBelow(s, p, rest[..|rest| - 1]);
      }
    }
  }

  lemma NoDirBelow(s: Shape, q: Path, names: Path, k: nat)
    requires ShapeOk(s) && !IsDir(s, q) && k <= |names|
    ensures !IsDir(s, q + names[..k])
  {
    if k > 0 { NothingBelow(s, q, names[..k]); } else { assert q + names[..0] == q; }
  }

  /** The first component split off. */
  lemma Split(p: Path, names: Path)
    requires names != []
    ensures p + names == (p + [names[0]]) + names[1..]
    ensures |names| == 1 ==> p + names == p + [names[0]] && p + names[..0] == p
  {
  }

  lemma SplitDir(p: Path, names: Path)
    requires |names| > 1
    ensures p + names[..|names| - 1] == (p + [names[0]]) + names[1..][..|names| - 2]
    ensures names[|names| - 1] == names[1..][|names| - 2]
  {
    assert names[..|names| - 1] == [names[0]] + names[1..][..|names| - 2];
  }

  /** Looking up a directory finds it exactly if it is there; otherwise a file on the way gives
      -ENOTDIR and a missing name -ENOENT. */
  lemma {:induction false} DirFound(s: Shape, p: Path, names: Path, slash: bool, copies: nat)
    requires ShapeOk(s) && IsDir(s, p) && names != [] && copies >= |names|
    ensures Walk(s, p, names, slash, LOOKUP_DIR, copies) ==
      if IsDir(s, p + names) then Node(p + names)
      else if FileOnTheWay(s, p, names, |names|) then Error(ENOTDIR) else Error(ENOENT)
    decreases |names|
  {
    hide FileOnTheWay, ShapeOk;
    Split(p, names);
    FileStep(s, p, names, |names|);
    var q := p + [names[0]];
    if |names| > 1 {
      if IsDir(s, q) {
        DirFound(s, q, names[1..], slash, copies - 1);
      } else {
        NothingBelow(s, q, names[1..]);
        NoFileBelow(s, q, names[1..], |names| - 1);
      }
    }
  }

  lemma NoFileBelow(s: Shape, q: Path, names: Path, n: nat)
    requires ShapeOk(s) && !IsDir(s, q) && n <= |names|
    ensures !FileOnTheWay(s, q, names, n)
  {
    if FileOnTheWay(s, q, names, n) {
      var k :| 1 <= k <= n && IsFile(s, q + names[..k]);
      NothingBelow(s, q, names[..k]);
    }
  }

  /** The place for a new directory is found exactly if its parent is a directory and nothing has
      that name; otherwise -EEXIST, -ENOTDIR or -ENOENT says why. */
  lemma {:induction false} CreateFound(s: Shape, p: Path, names: Path, slash: bool, copies: nat)
    requires ShapeOk(s) && IsDir(s, p) && names != [] && copies >= |names|
    ensures
      var dir := p + names[..|names| - 1];
      Walk(s, p, names, slash, FOR_CREATE, copies) ==
        if p + names in s then Error(EEXIST)
        else if IsDir(s, dir) then Missing(dir, names[|names| - 1])
        else if FileOnTheWay(s, p, names, |names| - 1) then Error(ENOTDIR) else Error(ENOENT)
    decreases |names|
  {
    hide FileOnTheWay, ShapeOk;
    Split(p, names);
    var q := p + [names[0]];
    if |names| > 1 {
      SplitDir(p, names);
      FileStep(s, p, names, |names| - 1);
      if IsDir(s, q) {
        CreateFound(s, q, names[1..], slash, copies - 1);
      } else {
        NothingBelow(s, q, names[1..]);
        NoFileBelow(s, q, names[1..], |names| - 2);
        NoDirBelow(s, q, names[1..], |names| - 2);
      }
    }
  }

  /** Opening only walks to the directory of the file. */
  lemma {:induction false} OpenFound(s: Shape, p: Path, names: Path, slash: bool, copies: nat)
    requires ShapeOk(s) && IsDir(s, p) && names != [] && copies >= |names|
    ensures
      var dir := p + names[..|names| - 1];
      Walk(s, p, names, slash, FOR_OPEN, copies) ==
        if IsDir(s, dir) then Missing(dir, names[|names| - 1])
        else if FileOnTheWay(s, p, names, |names| - 1) then Error(ENOTDIR) else Error(ENOENT)
    decreases |names|
  {
    hide FileOnTheWay, ShapeOk;
    Split(p, names);
    var q := p + [names[0]];
    if |names| > 1 {
      SplitDir(p, names);
      FileStep(s, p, names, |names| - 1);
      if IsDir(s, q) {
        OpenFound(s, q, names[1..], slash, copies - 1);
      } else {
        NothingBelow(s, q, names[1..]);
        NoFileBelow(s, q, names[1..], |names| - 2);
        NoDirBelow(s, q, names[1..], |names| - 2);
      }
    }
  }

  /** The plain lookup of unlink: a file with slashes behind its name is not found. */
  lemma {:induction false} PlainFound(s: Shape, p: Path, names: Path, slash: bool, copies: nat)
    requires ShapeOk(s) && IsDir(s, p) && names != [] && copies >= |names|
    ensures Walk(s, p, names, slash, FOR_UNLINK, copies) ==
      if p + names in s && (s[p + names] || !slash) then Node(p + names)
      else if FileOnTheWay(s, p, names, |names|) then Error(ENOTDIR) else Error(ENOENT)
    decreases |names|
  {
    hide FileOnTheWay, ShapeOk;
    Split(p, names);
    FileStep(s, p, names, |names|);
    var q := p + [names[0]];
    if |names| > 1 {
      if IsDir(s, q) {
        PlainFound(s, q, names[1..], slash, copies - 1);
      } else {
        NothingBelow(s, q, names[1..]);
        NoFileBelow(s, q, names[1..], |names| - 1);
      }
    }
  }

  /** Every walk that runs out of memory for the components: as far as it comes, what is missing or
      a file ends it first. */
  lemma {:induction false} ShortFound(s: Shape, p: Path, names: Path, slash: bool, f: Flags, copies: nat)
    requires ShapeOk(s) && IsDir(s, p) && copies < |names|
    ensures Walk(s, p, names, slash, f, copies) ==
      if IsDir(s, p + names[..copies]) then Error(ENOMEM)
      else if FileOnTheWay(s, p, names, copies) then Error(ENOTDIR) else Error(ENOENT)
    decreases |names|
  {
    hide FileOnTheWay, ShapeOk;
    if copies == 0 {
      assert p + names[..0] == p;
    } else {
      FileStep(s, p, names, copies);
      var q := p + [names[0]];
      assert p + names[..copies] == q + names[1..][..copies - 1];
      if IsDir(s, q) {
        ShortFound(s, q, names[1..], slash, f, copies - 1);
      } else {
        NoDirBelow(s, q, names[1..], copies - 1);
        NoFileBelow(s, q, names[1..], copies - 1);
      }
    }
  }
}
