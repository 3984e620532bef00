/** The file tree: dentries linked by child lists and reference counts (src/fs/vfs.c and
    src/fs/ramfs/ramfs.c), proved to implement the map of `Paths`. One file system is mounted. */
module Dentries {
  import opened Errno
  import opened Memory
  import opened Paths
  import F = RamFile

  /** An empty file without a handle. */
  ghost predicate IsNew(f: F.RamFile)
    reads f`size, f`allocSize, f`data, f`offset, f`copied
  {
    f.Valid() && f.Contents() == F.Cursor([], 0) && f.OldSize() == None
  }

  class Dentry {
    const name: string
    const isDir: bool
    var parent: Dentry?             // set when a walk comes through
    var refcnt: s32
    var children: seq<Dentry>       // priv->children, in list order
    const file: F.RamFile             // size, priv->data and the open handle, of a file

    ghost var refs: int             // how many references there are: refcnt without its wrap
    ghost var handles: nat          // open files that hold this dentry
    ghost var dataFreed: bool       // unlink has given back the data of the file
    ghost var freed: bool

    /** kzalloc and dentry_get, as in make_node and ramfs_mount. */
    constructor (name: string, isDir: bool)
      ensures this.name == name && this.isDir == isDir
      ensures parent == null && refcnt == 1 && refs == 1 && children == [] && handles == 0 && !freed && !dataFreed
      ensures fresh(file) && IsNew(file)
    {
      var f := new F.RamFile();
      file := f;
      this.name := name;
      this.isDir := isDir;
      parent := null;
      refcnt, refs := 1, 1;
      children := [];
      handles := 0;
      freed, dataFreed := false, false;
    }
  }

  type Tree = map<Path, Dentry>

  ghost function Nodes(tree: Tree): set<Dentry> {
    set p | p in tree :: tree[p]
  }

  function DirOf(p: Path): Path
    requires p != []
  {
    p[..|p| - 1]
  }

  function LastOf(p: Path): Name
    requires p != []
  {
    p[|p| - 1]
  }

  // ----- the shape of the tree

  /** The child lists, by path. */
  ghost function Lists(tree: Tree): map<Path, seq<Dentry>>
    reads Nodes(tree)`children
  {
    map p | p in tree :: tree[p].children
  }

  /** The child lists say what the map says: every node is listed in the directory above it, under
      its own name, and every listed dentry is the node at its name. */
  ghost predicate TreeOk(root: Dentry, tree: Tree)
    reads Nodes(tree)`children
  {
    TreeIs(root, tree, Lists(tree))
  }

  ghost predicate TreeIs(root: Dentry, tree: Tree, lists: map<Path, seq<Dentry>>) {
    && lists.Keys == tree.Keys
    && [] in tree && tree[[]] == root && root.isDir
    && (forall p, q :: p in tree && q in tree && tree[p] == tree[q] ==> p == q)
    && (forall p :: p in tree && p != [] ==> Listed(tree, lists, p))
    && (forall p :: p in tree ==> ChildrenOk(tree, lists, p))
  }

  ghost predicate Listed(tree: Tree, lists: map<Path, seq<Dentry>>, p: Path)
    requires p in tree && p != [] && lists.Keys == tree.Keys
  {
    && DirOf(p) in tree && tree[DirOf(p)].isDir
    && tree[p].name == LastOf(p) && tree[p] in lists[DirOf(p)]
  }

  ghost predicate ChildrenOk(tree: Tree, lists: map<Path, seq<Dentry>>, p: Path)
    requires p in tree && lists.Keys == tree.Keys
  {
    && (forall c :: c in lists[p] ==> IsChild(tree, p, c))
    && Distinct(lists[p])
  }

  ghost predicate Distinct(l: seq<Dentry>) {
    forall i, j :: 0 <= i < j < |l| ==> l[i] != l[j]
  }

  ghost predicate IsChild(tree: Tree, p: Path, c: Dentry) {
    c.name != "" && '/' !in c.name && p + [c.name] in tree && tree[p + [c.name]] == c
  }

  /** The map the tree implements. */
  ghost function ShapeOf(tree: Tree): Shape {
    map p | p in tree :: tree[p].isDir
  }

  lemma ShapeIsOk(root: Dentry, tree: Tree)
    requires TreeOk(root, tree)
    ensures ShapeOk(ShapeOf(tree))
  {
    forall p | p in tree && p != [] ensures p[..|p| - 1] in tree && tree[p[..|p| - 1]].isDir {
      assert Listed(tree, Lists(tree), p);
    }
  }

  /** Names are unique among siblings. */
  lemma SiblingsDiffer(root: Dentry, tree: Tree, p: Path, i: nat, j: nat)
    requires TreeOk(root, tree) && p in tree && i < j < |tree[p].children|
    ensures tree[p].children[i].name != tree[p].children[j].name
  {
    assert ChildrenOk(tree, Lists(tree), p);
    assert IsChild(tree, p, tree[p].children[i]) && IsChild(tree, p, tree[p].children[j]);
  }

  // ----- reference counts

  /** The counters and the parent pointer of every node, by path. */
  datatype Count = Count(refs: int, word: s32, handles: int, freed: bool, parent: Dentry?)

  ghost function Counts(tree: Tree): map<Path, Count>
    reads Nodes(tree)`refcnt, Nodes(tree)`refs, Nodes(tree)`handles, Nodes(tree)`freed, Nodes(tree)`parent
  {
    map p | p in tree :: Count(tree[p].refs, tree[p].refcnt, tree[p].handles, tree[p].freed, tree[p].parent)
  }

  /** The nodes whose parent pointer is d: each of them will give back one reference. */
  ghost function Backs(c: map<Path, Count>, d: Dentry): set<Path> {
    set q | q in c && c[q].parent == d
  }

  /** Every linked dentry has a reference for its link, one for each open file, one for each node
      that points back to it, and one more if a running operation holds it. */
  ghost predicate RefsOk(tree: Tree, held: Dentry?)
    reads Nodes(tree)`refcnt, Nodes(tree)`refs, Nodes(tree)`handles, Nodes(tree)`freed, Nodes(tree)`parent
  {
    RefsIs(tree, Counts(tree), held)
  }

  ghost predicate RefsIs(tree: Tree, c: map<Path, Count>, held: Dentry?) {
    c.Keys == tree.Keys && forall p :: p in tree ==> RefIs(tree, c, p, held) && BackIs(tree, c, p)
  }

  ghost predicate RefIs(tree: Tree, c: map<Path, Count>, p: Path, held: Dentry?)
    requires p in tree && p in c
  {
    && !c[p].freed && c[p].handles >= 0 && c[p].word == Signed32(c[p].refs)
    && c[p].refs >= 1 + c[p].handles + |Backs(c, tree[p])| + if tree[p] == held then 1 else 0
  }

  ghost predicate BackIs(tree: Tree, c: map<Path, Count>, p: Path)
    requires p in c
  {
    c[p].parent == null || (p != [] && DirOf(p) in tree && c[p].parent == tree[DirOf(p)])
  }

  lemma RefsAt(tree: Tree, c: map<Path, Count>, p: Path, held: Dentry?)
    requires RefsIs(tree, c, held) && p in tree
    ensures c[p].refs >= 1 + c[p].handles + (if tree[p] == held then 1 else 0)
    ensures c[p].handles >= 0 && !c[p].freed && c[p].word == Signed32(c[p].refs)
  {
    assert RefIs(tree, c, p, held);
  }

  /** No node has more than n references. */
  ghost predicate Few(c: map<Path, Count>, n: int) {
    forall p :: p in c ==> c[p].refs <= n
  }

  /** The references of one dentry have become k more. */
  ghost predicate Shifted(tree: Tree, c: map<Path, Count>, c': map<Path, Count>, d: Dentry, k: int) {
    && c'.Keys == c.Keys == tree.Keys
    && forall p :: p in tree ==> c'[p].refs == c[p].refs + if tree[p] == d then k else 0
  }

  /** What a walk has left behind when it is at node q: a reference on every directory above, and
      one on q if it still holds it. */
  ghost predicate Raised(c0: map<Path, Count>, c: map<Path, Count>, q: Path, held: bool) {
    && c.Keys == c0.Keys
    && forall p :: p in c ==> c[p].refs == c0[p].refs + if p < q || (p == q && held) then 1 else 0
  }

  lemma RaisedStart(root: Dentry, tree: Tree, c0: map<Path, Count>, c: map<Path, Count>)
    requires TreeOk(root, tree) && Shifted(tree, c0, c, root, 1)
    ensures Raised(c0, c, [], true)
  {
  }

  lemma RaisedOn(root: Dentry, tree: Tree, c0: map<Path, Count>, c: map<Path, Count>, c': map<Path, Count>, q: Path,
      name: Name)
    requires TreeOk(root, tree) && q + [name] in tree && Raised(c0, c, q, true)
    requires Shifted(tree, c, c', tree[q + [name]], 1)
    ensures Raised(c0, c', q + [name], true)
  {
    var r := q + [name];
    assert forall p :: p in tree && tree[p] == tree[r] ==> p == r;
    hide TreeOk;
    forall p | p in c' ensures c'[p].refs == c0[p].refs + if p < r || p == r then 1 else 0 {
      OneFurther(p, q, name);
    }
  }

  lemma OneFurther(p: Path, q: Path, name: Name)
    ensures p < q + [name] <==> p <= q
  {
    var r := q + [name];
    if p < r { assert r[..|p|] == q[..|p|]; }
    if p <= q { assert r[..|p|] == q[..|p|]; }
  }

  lemma RaisedOff(root: Dentry, tree: Tree, c0: map<Path, Count>, c: map<Path, Count>, c': map<Path, Count>, q: Path)
    requires TreeOk(root, tree) && q in tree && Raised(c0, c, q, true) && Shifted(tree, c, c', tree[q], -1)
    ensures Raised(c0, c', q, false)
  {
  }

  /** The counters of one dentry move by k references, h of them for open files. */
  lemma RefsShift(tree: Tree, c: map<Path, Count>, c': map<Path, Count>, d: Dentry, k: int, h: int, held: Dentry?,
      held': Dentry?)
    requires RefsIs(tree, c, held) && c'.Keys == c.Keys
    requires forall q :: q in c ==>
      CountMoved(c[q], c'[q], if tree[q] == d then k else 0, if tree[q] == d then h else 0)
    requires k >= h + (if held' == d then 1 else 0) - if held == d then 1 else 0
    requires held' == d || held' == held || held' == null
    requires forall q :: q in c && tree[q] == d ==> c[q].handles + h >= 0
    ensures RefsIs(tree, c', held') && Shifted(tree, c, c', d, k)
  {
    hide Signed32, RefIs, BackIs, Backs;
    forall q | q in tree ensures RefIs(tree, c', q, held') && BackIs(tree, c', q) {
      assert RefIs(tree, c, q, held) && BackIs(tree, c, q);
      SameBacks(c, c', tree[q]);
      RefMoved(tree, c, c', d, k, h, held, held', q);
    }
    hide RefsIs;
  }

  lemma RefMoved(tree: Tree, c: map<Path, Count>, c': map<Path, Count>, d: Dentry, k: int, h: int, held: Dentry?,
      held': Dentry?, q: Path)
    requires q in tree && q in c && q in c' && RefIs(tree, c, q, held) && BackIs(tree, c, q)
    requires CountMoved(c[q], c'[q], if tree[q] == d then k else 0, if tree[q] == d then h else 0)
    requires k >= h + (if held' == d then 1 else 0) - if held == d then 1 else 0
    requires held' == d || held' == held || held' == null
    requires tree[q] == d ==> c[q].handles + h >= 0
    requires Backs(c', tree[q]) == Backs(c, tree[q])
    ensures RefIs(tree, c', q, held') && BackIs(tree, c', q)
  {
    hide Signed32, Backs;
  }

  ghost predicate CountMoved(a: Count, b: Count, k: int, h: int) {
    && b.refs == a.refs + k && b.handles == a.handles + h && b.freed == a.freed && b.parent == a.parent
    && b.word == if k == 0 then a.word else Signed32(b.refs)
  }

  lemma SameBacks(c: map<Path, Count>, c': map<Path, Count>, d: Dentry)
    requires c'.Keys == c.Keys && forall q :: q in c ==> c'[q].parent == c[q].parent
    ensures Backs(c', d) == Backs(c, d)
  {
  }

  /** A walk goes from p to r: the reference on p now stands for r's parent pointer. */
  lemma RefsFollow(tree: Tree, c: map<Path, Count>, c': map<Path, Count>, p: Path, r: Path)
    requires p in tree && r in tree && RefsIs(tree, c, tree[p]) && r != [] && DirOf(r) == p && tree[p] != tree[r]
    requires forall q :: q in tree && tree[q] == tree[r] ==> q == r
    requires c' == c[r := c[r].(refs := c[r].refs + 1, word := Signed32(c[r].refs + 1), parent := tree[p])]
    ensures RefsIs(tree, c', tree[r]) && Shifted(tree, c, c', tree[r], 1)
  {
    hide Signed32, RefIs, BackIs, Backs;
    forall q | q in tree ensures RefIs(tree, c', q, tree[r]) && BackIs(tree, c', q) {
      assert RefIs(tree, c, q, tree[p]) && BackIs(tree, c, q);
      assert tree[q] == tree[r] <==> q == r;
      BacksFollow(tree, c, c', p, r, q);
      RefFollowed(tree, c, c', p, r, q);
    }
    hide RefsIs;
  }

  lemma BacksFollow(tree: Tree, c: map<Path, Count>, c': map<Path, Count>, p: Path, r: Path, q: Path)
    requires p in tree && q in tree && c.Keys == tree.Keys && r in c && c'.Keys == c.Keys && c'[r].parent == tree[p]
    requires forall x :: x in c && x != r ==> c'[x] == c[x]
    ensures |Backs(c', tree[q])| <= |Backs(c, tree[q])| + if tree[q] == tree[p] then 1 else 0
  {
    var most := Backs(c, tree[q]) + if tree[q] == tree[p] then {r} else {};
    SubsetCard(Backs(c', tree[q]), most);
  }

  lemma RefFollowed(tree: Tree, c: map<Path, Count>, c': map<Path, Count>, p: Path, r: Path, q: Path)
    requires p in tree && r in tree && q in tree && c.Keys == c'.Keys == tree.Keys && RefIs(tree, c, q, tree[p])
    requires BackIs(tree, c, q) && r != [] && DirOf(r) == p && tree[p] != tree[r] && (tree[q] == tree[r] <==> q == r)
    requires c'[q] == if q == r
      then c[q].(refs := c[q].refs + 1, word := Signed32(c[q].refs + 1), parent := tree[p]) else c[q]
    requires |Backs(c', tree[q])| <= |Backs(c, tree[q])| + if tree[q] == tree[p] then 1 else 0
    ensures RefIs(tree, c', q, tree[r]) && BackIs(tree, c', q)
  {
    hide Signed32, Backs;
  }

  /** A new node without a parent pointer. */
  lemma RefsAdded(tree: Tree, c: map<Path, Count>, r: Path, d: Dentry, held: Dentry?)
    requires RefsIs(tree, c, held) && r !in tree && d !in Nodes(tree) && d != held
    ensures RefsIs(tree[r := d], c[r := Count(1, 1, 0, false, null)], held)
  {
    var tree', c' := tree[r := d], c[r := Count(1, 1, 0, false, null)];
    forall q | q in tree ensures c[q].parent != d { assert BackIs(tree, c, q); }
    forall q | q in tree' ensures RefIs(tree', c', q, held) && BackIs(tree', c', q) {
      if q in tree {
        assert RefIs(tree, c, q, held) && BackIs(tree, c, q);
        assert Backs(c', tree[q]) == Backs(c, tree[q]);
      } else {
        assert Backs(c', d) == {};
      }
    }
  }

  /** A node that nothing points back to is gone; its own pointer now stands for a held parent. */
  lemma RefsRemoved(tree: Tree, c: map<Path, Count>, p: Path)
    requires p in tree && p != [] && DirOf(p) in tree && RefsIs(tree, c, tree[p]) && c[p].parent == tree[DirOf(p)]
    requires forall q :: q in tree ==> c[q].parent != tree[p]
    requires forall q :: q in tree && tree[q] == tree[p] ==> q == p
    ensures RefsIs(tree - {p}, c - {p}, tree[DirOf(p)])
    ensures c[p].refs >= 2 + c[p].handles && c[p].word == Signed32(c[p].refs) && !c[p].freed
  {
    var tree', c', parent := tree - {p}, c - {p}, tree[DirOf(p)];
    RefsAt(tree, c, p, tree[p]);
    forall q | q in tree' ensures RefIs(tree', c', q, parent) && BackIs(tree', c', q) {
      assert RefIs(tree, c, q, tree[p]) && BackIs(tree, c, q);
      assert Backs(c', tree[q]) == Backs(c, tree[q]) - {p};
      assert p in Backs(c, tree[q]) <==> tree[q] == parent;
    }
  }

  /** Nothing points back to a node with an empty list. */
  lemma NothingBack(root: Dentry, tree: Tree, lists: map<Path, seq<Dentry>>, c: map<Path, Count>, p: Path,
      held: Dentry?)
    requires TreeIs(root, tree, lists) && p in tree && lists[p] == [] && RefsIs(tree, c, held)
    ensures forall q :: q in tree ==> c[q].parent != tree[p]
  {
    forall q | q in tree ensures c[q].parent != tree[p] {
      assert BackIs(tree, c, q);
      if q != [] { assert Listed(tree, lists, q); }
    }
  }

  // ----- dentry_put

  /** d and what its parent pointers lead to, as far as references may be given back: the count of
      the last of them is not 1, or it has no parent. */
  ghost predicate UpOk(up: seq<Dentry>)
    reads (set x | x in up)`refcnt, (set x | x in up)`parent
  {
    && up != []
    && (forall i, j :: 0 <= i < j < |up| ==> up[i] != up[j])
    && (forall i {:trigger up[i].parent} :: 0 <= i < |up| - 1 ==> up[i].parent == up[i + 1])
    && (up[|up| - 1].refcnt != 1 || up[|up| - 1].parent == null)
  }

  /** How many of them go: those at the front whose count is 1. */
  ghost function Going(up: seq<Dentry>): (n: nat)
    reads (set x | x in up)`refcnt
    ensures n <= |up| && forall i :: 0 <= i < n ==> up[i].refcnt == 1
    ensures n < |up| ==> up[n].refcnt != 1
  {
    if up == [] || up[0].refcnt != 1 then 0 else
      var n := Going(up[1..]);
      assert forall i :: 0 < i <= n ==> up[i] == up[1..][i - 1];
      1 + n
  }

  lemma UpRest(up: seq<Dentry>)
    requires UpOk(up)
    ensures Going(up) <= 1 + Going(up[1..]) && (up[0].refcnt == 1 ==> Going(up) == 1 + Going(up[1..]))
    ensures up[0].refcnt != 1 ==> Going(up) == 0
    ensures up[0] !in up[1..] && (up[0].refcnt == 1 && up[0].parent != null ==> UpOk(up[1..]) && up[1] == up[0].parent)
    ensures up[0].refcnt == 1 && up[0].parent == null ==> |up| == 1
  {
    var rest := up[1..];
    assert forall i {:trigger rest[i]} :: 0 <= i < |rest| ==> rest[i] == up[i + 1];
    if up[0].refcnt == 1 && |up| > 1 {
      assert up[0].parent == up[1];
      assert rest[|rest| - 1] == up[|up| - 1];
    }
  }

  /** The chains that a linked dentry and one that has just been removed need. */
  lemma UpShort(d: Dentry, parent: Dentry)
    requires parent.refcnt != 1 && d != parent
    ensures d.refcnt != 1 ==> UpOk([d]) && Going([d]) == 0
    ensures d.refcnt == 1 && d.parent == parent ==> UpOk([d, parent]) && Going([d, parent]) == 1
  {
    assert [d, parent][1..] == [parent];
  }

  lemma UpOne(d: Dentry)
    requires d.refcnt != 1
    ensures UpOk([d]) && Going([d]) == 0
  {
  }

  /** dentry_put: one reference less. If the count was 1, the dentry is freed and gives back the one
      it had on its parent, and so on. */
  method DentryPut(d: Dentry, ghost up: seq<Dentry>)
    requires UpOk(up) && up[0] == d
    modifies (set x | x in up)`refcnt, (set x | x in up)`refs, (set x | x in up)`freed
    ensures forall i :: 0 <= i < |up| ==> up[i].refs == old(up[i].refs) - if i <= old(Going(up)) then 1 else 0
    ensures forall i :: 0 <= i < |up| ==>
      (up[i].refcnt == if i <= old(Going(up)) then Signed32(old(up[i].refcnt) - 1) else old(up[i].refcnt))
    ensures forall i :: 0 <= i < |up| ==> up[i].freed == (old(up[i].freed) || i < old(Going(up)))
    ensures d.freed <==> old(d.freed) || old(d.refcnt) == 1
    decreases |up|
  {
    hide UpOk, Going, Signed32;
    UpHead(up);
    ghost var rest := up[1..];
    UpRest(up);
    ghost var n := Going(up);
    Signed32Step(d.refcnt);
    d.refcnt, d.refs := Signed32(d.refcnt - 1), d.refs - 1;
    if d.refcnt == 0 {
      if d.parent != null {
        assert d !in rest && Going(rest) == n - 1;
        DentryPut(d.parent, rest);
        assert forall i {:trigger up[i]} :: 0 < i < |up| ==> up[i] == rest[i - 1];
      }
      d.freed := true;
    }
  }

  lemma UpHead(up: seq<Dentry>)
    requires UpOk(up)
    ensures up != []
  {
  }

  /** dentry_put of a dentry that stays. */
  method PutStays(d: Dentry)
    requires d.refcnt != 1
    modifies d`refcnt, d`refs, d`freed
    ensures d.refcnt == Signed32(old(d.refcnt) - 1) && d.refs == old(d.refs) - 1 && d.freed == old(d.freed)
  {
    hide UpOk, Going, Signed32;
    UpOne(d);
    DentryPut(d, [d]);
  }

  // ----- the file system

  /** What a path string leads to, with memory for that many components. */
  function Resolve(s: Shape, path: string, f: Flags, copies: nat): Found
    requires path != "" && path[0] == '/'
  {
    var p := Parse(path, SlashEnd(path, 0));
    if p.names == [] then Node([]) else Walk(s, [], p.names, p.slash, f, copies)
  }

  function NamesOf(path: string): Path
    requires path != "" && path[0] == '/'
  {
    Parse(path, SlashEnd(path, 0)).names
  }

  const NAME_SIZE := 255            // PATH_MAX, the size of dentry->name

  /** make_node copies a name and its NUL without looking. */
  predicate NameFits(name: Name) { |name| < NAME_SIZE }

  class Fs {
    const root: Dentry
    ghost var tree: Tree
    ghost var takes: nat            // how many walks and opens there have been

    ghost predicate Valid()
      reads this`tree, this`takes, Nodes(tree)`children, Nodes(tree)`refcnt, Nodes(tree)`refs, Nodes(tree)`parent,
        Nodes(tree)`handles, Nodes(tree)`freed
    {
      TreeOk(root, tree) && RefsOk(tree, null) && Within()
    }

    /** Each walk and each open file has added at most one reference to a node. */
    ghost predicate Within()
      reads this`tree, this`takes, Nodes(tree)`refcnt, Nodes(tree)`refs, Nodes(tree)`parent, Nodes(tree)`handles,
        Nodes(tree)`freed
    {
      Few(Counts(tree), 1 + takes)
    }

    ghost function Shape(): Shape
      reads this`tree
    {
      ShapeOf(tree)
    }

    /** ramfs_mount: an empty root directory. */
    constructor ()
      ensures Valid() && Shape() == map[[] := true] && tree == map[[] := root] && root.isDir && takes == 0
      ensures fresh(root) && fresh(root.file) && IsNew(root.file) && root.handles == 0
    {
      hide TreeOk, RefsOk, ShapeOf, Few, Counts;
      var d := new Dentry("/", true);
      root := d;
      takes := 0;
      tree := map[[] := d];
      new;
      NewTree(d);
    }

    /** dentry_get on a linked dentry. */
    method Get(d: Dentry)
      requires d in Nodes(tree) && RefsOk(tree, null)
      modifies d`refcnt, d`refs
      ensures RefsOk(tree, d) && Shifted(tree, old(Counts(tree)), Counts(tree), d, 1) && d.refs == old(d.refs) + 1
    {
      hide RefsIs, Signed32, Shifted;
      ghost var c := Counts(tree);
      HandlesCount(tree, c, null);
      WhenFreed(tree, d, null);
      d.refcnt, d.refs := Signed32(d.refcnt + 1), d.refs + 1;
      RefsShift(tree, c, Counts(tree), d, 1, 0, null, d);
    }

    /** dentry_put on a linked dentry that has at most 2^32 references: it stays. */
    method PutLinked(d: Dentry)
      requires d in Nodes(tree) && RefsOk(tree, d) && d.refs <= U32_LIMIT
      modifies d`refcnt, d`refs, d`freed
      ensures RefsOk(tree, null) && Shifted(tree, old(Counts(tree)), Counts(tree), d, -1)
      ensures !d.freed && d.refs == old(d.refs) - 1
    {
      hide RefsIs, Signed32, Shifted;
      ghost var c := Counts(tree);
      HandlesCount(tree, c, d);
      WhenFreed(tree, d, d);
      PutStays(d);
      RefsShift(tree, c, Counts(tree), d, -1, 0, d, null);
    }

    /** The dentry_put at the end of an operation. */
    method Finish(d: Dentry)
      requires d in Nodes(tree) && RefsOk(tree, d) && Within() && takes < U32_LIMIT
      modifies d`refcnt, d`refs, d`freed
      ensures RefsOk(tree, null) && Within() && !d.freed && d.refs == old(d.refs) - 1
    {
      hide RefsOk, Few, Counts, Shifted;
      ghost var c := Counts(tree);
      FewNode(tree, d, 1 + takes);
      PutLinked(d);
      ShiftedFew(tree, c, Counts(tree), d, -1, 1 + takes);
    }

    /** ramfs_lookup without its dentry_get: the search of the child list. */
    method FindChild(d: Dentry, name: string, ghost p: Path) returns (child: Dentry?, code: nat)
      requires TreeOk(root, tree) && p in tree && tree[p] == d && name != "" && '/' !in name
      ensures child == null <==> p + [name] !in tree
      ensures child == null ==> code == if d.isDir then ENOENT else ENOTDIR
      ensures child != null ==>
        d.isDir && child == tree[p + [name]] && child.name == name && child != d && child in Nodes(tree)
    {
      ChildIsListed(root, tree, p, name);
      OnlyDirsList(root, tree, p);
      if !d.isDir {
        return null, ENOTDIR;
      }
      assert ChildrenOk(tree, Lists(tree), p);
      code := 0;
      var i := 0;
      while i < |d.children|
        invariant 0 <= i <= |d.children|
        invariant forall j :: 0 <= j < i ==> d.children[j].name != name
      {
        if d.children[i].name == name {
          assert IsChild(tree, p, d.children[i]);
          return d.children[i], 0;
        }
        i := i + 1;
      }
      return null, ENOENT;
    }

    /** One step of a walk: the child gets a reference and points back; the reference on the
        directory stays, for that pointer. */
    method Follow(d: Dentry, child: Dentry, ghost p: Path, ghost name: Name)
      requires RefsOk(tree, d)
      requires p in tree && tree[p] == d && p + [name] in tree && tree[p + [name]] == child && child != d
      requires forall q :: q in tree && tree[q] == child ==> q == p + [name]
      modifies child`refcnt, child`refs, child`parent
      ensures RefsOk(tree, child) && child.parent == d && child.refs == old(child.refs) + 1
      ensures Shifted(tree, old(Counts(tree)), Counts(tree), child, 1)
    {
      hide RefsIs, Signed32, Shifted;
      ghost var c := Counts(tree);
      HeldIsNode(tree, p + [name]);
      WhenFreed(tree, child, d);
      child.refcnt, child.refs := Signed32(child.refcnt + 1), child.refs + 1;
      child.parent := d;
      RefsFollow(tree, c, Counts(tree), p, p + [name]);
    }

    /** What lookup_path_common returns for the end of a walk at node q: a reference on the node, or
        on the directory of a missing one, or an error. */
    ghost predicate Returned(found: Found, d: Dentry?, code: nat, name: string, q: Path, c0: map<Path, Count>)
      reads this, Nodes(tree)
    {
      && Raised(c0, Counts(tree), q, d != null)
      && match found
         case Node(p) =>
           && p in tree && d == tree[p] && RefsOk(tree, d) && p == q
           && (p != [] ==> DirOf(p) in tree && d.parent == tree[DirOf(p)])
         case Missing(dir, last) =>
           dir in tree && d == tree[dir] && d.isDir && RefsOk(tree, d) && name == last && dir == q
         case Error(e) => d == null && code == e && RefsOk(tree, null)
    }

    /** A walk stands at directory q, which it holds. */
    ghost predicate Standing(d: Dentry?, q: Path, c0: map<Path, Count>)
      reads this, Nodes(tree)
    {
      && q in tree && d != null && d == tree[q] && d.isDir && RefsOk(tree, d)
      && (q != [] ==> DirOf(q) in tree && d.parent == tree[DirOf(q)])
      && Raised(c0, Counts(tree), q, true)
    }

    /** lookup_path_common: it finds what `Resolve` says, leaves the tree as it is, and holds one
        reference on what it returns. Every directory above that has one reference more for good:
        the parent pointer set here may have been set before. */
    method LookupPath(path: string, f: Flags, copies: nat) returns (d: Dentry?, code: nat, name: string,
        ghost found: Found, ghost q: Path)
      requires Valid() && path != "" && path[0] == '/' && takes + 2 <= U32_LIMIT
      modifies this`takes, Nodes(tree)`refcnt, Nodes(tree)`refs, Nodes(tree)`parent, Nodes(tree)`freed
      ensures found == Resolve(Shape(), path, f, copies)
      ensures Returned(found, d, code, name, q, old(Counts(tree)))
      ensures takes == old(takes) + 1 && Within()
    {
      hide RefsOk, TreeOk, ShapeOf, Walk, Parse, Raised, Counts, Few, Shifted;
      ghost var c0 := Counts(tree);
      RootThere(root, tree);
      d, code, name, found, q := root, 0, "", Node([]), [];
      takes := takes + 1;
      Get(d);
      RaisedStart(root, tree, c0, Counts(tree));
      RaisedFew(c0, Counts(tree), q, true, takes);
      FewMore(c0, takes, U32_LIMIT - 1);
      var p, left := 0, copies;
      while p < |path| && path[p] == '/'
        invariant 0 <= p <= |path| && SlashEnd(path, p) == SlashEnd(path, 0)
        invariant takes == old(takes) + 1
      {
        p := p + 1;
      }
      SomeName(path, p);
      if p == |path| {
        return;
      }
      var done := false;
      while !done
        invariant takes == old(takes) + 1
        invariant done ==> found == Resolve(Shape(), path, f, copies) && Returned(found, d, code, name, q, c0)
        invariant !done ==> p < |path| && path[p] != '/' && Parse(path, p).names != [] && left >= 0
        invariant !done ==> Standing(d, q, c0)
        invariant !done ==>
          (Walk(Shape(), q, Parse(path, p).names, Parse(path, p).slash, f, left) == Resolve(Shape(), path, f, copies))
        decreases !done, |path| - p
      {
        done, d, code, name, p, found, q := WalkOne(d, path, p, f, left, q, c0);
        if !done { left := left - 1; }
      }
      RaisedFew(c0, Counts(tree), q, d != null, takes);
    }

    /** One round of the loop of lookup_path_common. */
    method WalkOne(start: Dentry, path: string, p: nat, f: Flags, left: nat, ghost at: Path,
        ghost c0: map<Path, Count>)
        returns (done: bool, d: Dentry?, code: nat, name: string, next: nat, ghost found: Found, ghost q: Path)
      requires TreeOk(root, tree) && p < |path| && path[p] != '/' && Parse(path, p).names != []
      requires Standing(start, at, c0) && Few(c0, U32_LIMIT - 1)
      modifies Nodes(tree)`refcnt, Nodes(tree)`refs, Nodes(tree)`parent, Nodes(tree)`freed
      ensures done ==> found == Walk(Shape(), at, Parse(path, p).names, Parse(path, p).slash, f, left)
      ensures done ==> Returned(found, d, code, name, q, c0)
      ensures !done ==> p < next < |path| && path[next] != '/' && Parse(path, next).names != [] && left > 0
      ensures !done ==> Standing(d, q, c0)
      ensures !done ==>
        (Walk(Shape(), q, Parse(path, next).names, Parse(path, next).slash, f, left - 1) ==
         Walk(Shape(), at, Parse(path, p).names, Parse(path, p).slash, f, left))
    {
      hide RefsOk, TreeOk, ShapeOf, Walk, Parse, Raised, Few;
      ghost var here := Parse(path, p);
      done, code, d, q := true, 0, start, at;
      var kind;
      kind, name, next := GetNextComponent(path, p, left > 0);
      SomeName(path, next);
      if kind.NoMore? {
        WalkEnds(Shape(), q, here.names, here.slash, f);
        LeaveWalk(d, q, c0);
        d, code, found := null, ENOMEM, Error(ENOMEM);
        return;
      }
      WalkStep(Shape(), q, here.names, here.slash, f, left, kind);
      if IsLast(kind, f) && f.returnLast {
        found := Missing(q, name);
        return;
      }
      var child;
      child, code := FindChild(d, name, q);
      ShapeAt(tree, q + [name]);
      if child == null {
        if code == ENOENT && IsLast(kind, f) && f.mustNotExist {
          found := Missing(q, name);
          return;
        }
        LeaveWalk(d, q, c0);
        d, found := null, Error(code);
        return;
      }
      done, d, code, found := Enter(d, child, name, kind, f, q, c0);
      q := q + [name];
    }

    /** The same for a component that is there. */
    method Enter(start: Dentry, child: Dentry, name: Name, kind: Component, f: Flags, ghost at: Path,
        ghost c0: map<Path, Count>)
        returns (done: bool, d: Dentry?, code: nat, ghost found: Found)
      requires TreeOk(root, tree) && Standing(start, at, c0) && Few(c0, U32_LIMIT - 1)
      requires at + [name] in tree && tree[at + [name]] == child && child != start
      modifies Nodes(tree)`refcnt, Nodes(tree)`refs, Nodes(tree)`parent, Nodes(tree)`freed
      ensures !done ==>
        child.isDir && kind.Norm? && !(IsLast(kind, f) && f.mustNotExist) && Standing(d, at + [name], c0)
      ensures done ==> Returned(found, d, code, name, at + [name], c0)
      ensures done ==>
        (found ==
         if IsLast(kind, f) && f.mustNotExist then Error(EEXIST)
         else if !child.isDir && (!kind.Last? || f.mustBeDir) then Error(ENOTDIR) else Node(at + [name]))
      ensures done ==> (IsLast(kind, f) && f.mustNotExist) || !child.isDir || !kind.Norm?
    {
      hide RefsOk, TreeOk, Raised, Few, Shifted, Counts;
      ghost var q := at + [name];
      code := 0;
      OnePath(root, tree, q);
      HeldIsNode(tree, q);
      ghost var c := Counts(tree);
      Follow(start, child, at, name);
      RaisedOn(root, tree, c0, c, Counts(tree), at, name);
      d := child;
      if IsLast(kind, f) && f.mustNotExist {
        LeaveWalk(d, q, c0);
        return true, null, EEXIST, Error(EEXIST);
      }
      if !d.isDir && (!kind.Last? || f.mustBeDir) {
        LeaveWalk(d, q, c0);
        return true, null, ENOTDIR, Error(ENOTDIR);
      }
      found := Node(q);
      done := !d.isDir || !kind.Norm?;
    }

    /** The dentry_put of a walk that fails at node q. */
    method LeaveWalk(d: Dentry, ghost q: Path, ghost c0: map<Path, Count>)
      requires TreeOk(root, tree) && q in tree && tree[q] == d && RefsOk(tree, d)
      requires Raised(c0, Counts(tree), q, true) && Few(c0, U32_LIMIT - 1)
      modifies d`refcnt, d`refs, d`freed
      ensures RefsOk(tree, null) && Raised(c0, Counts(tree), q, false)
    {
      hide RefsOk, TreeOk, Raised, Few, Shifted;
      ghost var c := Counts(tree);
      HeldIsNode(tree, q);
      RaisedFew(c0, c, q, true, U32_LIMIT - 1);
      FewAt(tree, q, U32_LIMIT);
      PutLinked(d);
      RaisedOff(root, tree, c0, c, Counts(tree), q);
    }

    // ----- adding and removing nodes

    /** list_add_tail */
    method Append(d: Dentry, child: Dentry, ghost p: Path)
      requires TreeOk(root, tree) && p in tree && tree[p] == d && child !in Nodes(tree)
      modifies d`children
      ensures Pending(root, tree, p, child)
    {
      hide TreeIs;
      OnePath(root, tree, p);
      ghost var lists0 := Lists(tree);
      d.children := d.children + [child];
      assert Lists(tree)[p := d.children[..|d.children| - 1]] == lists0;
    }

    /** make_node: a new dentry at the end of the directory's list. If the name does not fit, it is
        copied past its buffer, over the other fields and what lies behind them; nothing is said
        about what happens then. */
    method MakeNode(d: Dentry, name: Name, isDir: bool, memory: bool, ghost p: Path)
        returns (code: nat, overrun: bool)
      requires TreeOk(root, tree) && RefsOk(tree, d) && p in tree && tree[p] == d && d.isDir && p + [name] !in tree
      requires Within()
      modifies this`tree, d`children
      ensures overrun <==> memory && !NameFits(name)
      ensures !overrun ==> TreeOk(root, tree) && RefsOk(tree, d) && p in tree && tree[p] == d && Within()
      ensures !overrun ==> code == if memory then 0 else ENOMEM
      ensures !overrun ==> Shape() == if memory then old(Shape())[p + [name] := isDir] else old(Shape())
      ensures !memory ==> tree == old(tree)
      ensures !overrun && memory ==>
        && p + [name] in tree && tree == old(tree)[p + [name] := tree[p + [name]]]
        && fresh(tree[p + [name]]) && fresh(tree[p + [name]].file) && IsNew(tree[p + [name]].file)
        && tree[p + [name]].handles == 0
    {
      hide TreeIs, RefsIs, Pending, ShapeOf, Few, Counts;
      overrun := false;
      if !memory {
        return ENOMEM, overrun;
      }
      if |name| >= NAME_SIZE {
        return 0, true;                            // strcpy(d->name, name)
      }
      ghost var tree0, lists0 := tree, Lists(tree);
      ghost var c := Counts(tree);
      var child := new Dentry(name, isDir);
      assert Lists(tree) == lists0;
      Append(d, child, p);
      RefsAdded(tree0, c, p + [name], child, d);
      tree := tree[p + [name] := child];
      NewCount(tree0, tree, p + [name], child);
      FewAdded(c, p + [name], 1 + takes);
      NodeAdded(root, tree0, tree, p, name, child);
      return 0, overrun;
    }

    /** list_del of a node without children: it leaves its directory's list and the tree. */
    method Detach(d: Dentry, parent: Dentry, ghost p: Path)
      requires TreeOk(root, tree) && RefsOk(tree, d) && p in tree && tree[p] == d && p != [] && d.children == []
      requires DirOf(p) in tree && d.parent == parent == tree[DirOf(p)] && Within()
      modifies this`tree, parent`children
      ensures TreeOk(root, tree) && tree == old(tree) - {p} && Shape() == old(Shape()) - {p}
      ensures d !in Nodes(tree) && parent in Nodes(tree) && RefsOk(tree, parent) && Within()
      ensures 2 + d.handles <= d.refs <= 1 + takes && d.refcnt == Signed32(d.refs) && !d.freed
    {
      hide TreeIs, RefsIs, Distinct, ChildrenOk, Listed, Few, Signed32;
      ghost var lists, c := Lists(tree), Counts(tree);
      RemoveFacts(root, tree, p);
      OnePath(root, tree, DirOf(p));
      Delist(d, parent);
      assert Lists(tree) == lists[DirOf(p) := parent.children];
      Detached(root, tree, lists, c, p, 1 + takes);
      tree := tree - {p};
    }

    method Delist(d: Dentry, parent: Dentry)
      requires d in parent.children && Distinct(parent.children)
      modifies parent`children
      ensures forall x :: x in parent.children <==> x in old(parent.children) && x != d
      ensures Distinct(parent.children)
    {
      var i := 0;
      while parent.children[i] != d
        invariant 0 <= i < |parent.children| && d in parent.children[i..]
        decreases |parent.children| - i
      {
        i := i + 1;
      }
      OneLess(parent.children, i);
      parent.children := parent.children[..i] + parent.children[i + 1..];
    }

    // ----- the operations

    /** vfs_mkdir: 0 or an error number. There is memory for `copies` components, and `memory` says
        whether there is some for the node. `overrun` says that the name does not fit its buffer. */
    method Mkdir(path: string, copies: nat, memory: bool) returns (code: nat, overrun: bool)
      requires Valid() && path != "" && path[0] == '/' && NamesOf(path) != [] && takes + 2 <= U32_LIMIT
      modifies this`tree, this`takes, Nodes(tree)`refcnt, Nodes(tree)`refs, Nodes(tree)`parent, Nodes(tree)`children
      modifies Nodes(tree)`freed
      ensures overrun <==>
        MkdirCode(old(Shape()), NamesOf(path), copies, memory) == 0 && !NameFits(LastOf(NamesOf(path)))
      ensures takes == old(takes) + 1
      ensures !overrun ==>
        && Valid()
        && code == MkdirCode(old(Shape()), NamesOf(path), copies, memory)
        && Shape() == (if code == 0 then old(Shape())[NamesOf(path) := true] else old(Shape()))
        && (code != 0 ==> tree == old(tree))
        && (code == 0 ==> Adds(old(tree), tree, NamesOf(path)))
        && (code == 0 ==> fresh(tree[NamesOf(path)]) && fresh(tree[NamesOf(path)].file))
        && (code == 0 ==> IsNew(tree[NamesOf(path)].file) && tree[NamesOf(path)].handles == 0)
    {
      hide TreeOk, RefsOk, ShapeOf, Walk, Within, Raised, Resolve, SlashEnd, Parse, NamesOf,
          NameFits, WhyNot, ShortCode, IsNew;
      ShapeIsOk(root, tree);
      CreateResolves(Shape(), path, copies);
      var d, name; ghost var found, q;
      overrun := false;
      d, code, name, found, q := LookupPath(path, FOR_CREATE, copies);
      if d == null {
        return;
      }
      assert d.isDir;                              // DIR_TYPE(d->mode) != DIR_DIR
      ShapeAt(tree, found.dir + [name]);
      code, overrun := MakeNode(d, name, true, memory, found.dir);
      if overrun {
        return;
      }
      HeldIsNode(tree, found.dir);
      Finish(d);
    }

    /** vfs_getdents without the listing: the lookup of a directory, and its dentry_put. Every
        directory above it has one reference more than before. */
    method Getdents(path: string, copies: nat) returns (code: nat)
      requires Valid() && path != "" && path[0] == '/' && takes + 2 <= U32_LIMIT
      modifies this`takes, Nodes(tree)`refcnt, Nodes(tree)`refs, Nodes(tree)`parent, Nodes(tree)`freed
      ensures Valid() && takes == old(takes) + 1
      ensures code == DirCode(old(Shape()), NamesOf(path), copies)
      ensures code == 0 ==>
        forall p :: p in tree ==> tree[p].refs == old(tree[p].refs) + if p < NamesOf(path) then 1 else 0
    {
      hide TreeOk, RefsOk, ShapeOf, Walk, Within, Raised, Resolve, SlashEnd, Parse, NamesOf;
      ShapeIsOk(root, tree);
      DirResolves(Shape(), path, copies);
      var d, name; ghost var found, q;
      ghost var c0 := Counts(tree);
      d, code, name, found, q := LookupPath(path, LOOKUP_DIR, copies);
      if d == null {
        return;
      }
      ghost var c := Counts(tree);
      HeldIsNode(tree, q);
      OnePath(root, tree, q);
      label Found:
      Finish(d);
      RaisedRefs(c0, c, q);
      forall p | p in tree ensures tree[p].refs == old(tree[p].refs) + if p < q then 1 else 0 {
        assert c0[p].refs == old(tree[p].refs);
        assert tree[p].refs == old@Found(tree[p].refs) - if p == q then 1 else 0;
      }
      return 0;
    }

    /** vfs_rmdir */
    method Rmdir(path: string, copies: nat) returns (code: nat)
      requires Valid() && path != "" && path[0] == '/' && takes + 2 <= U32_LIMIT
      modifies this`tree, this`takes, Nodes(tree)`refcnt, Nodes(tree)`refs, Nodes(tree)`parent, Nodes(tree)`children
      modifies Nodes(tree)`freed
      ensures Valid() && takes == old(takes) + 1
      ensures code == RmdirCode(old(Shape()), NamesOf(path), copies)
      ensures Shape() == if code == 0 then old(Shape()) - {NamesOf(path)} else old(Shape())
    {
      hide TreeOk, RefsOk, ShapeOf, Walk, Within, Raised, Resolve, SlashEnd, Parse, NamesOf;
      ShapeIsOk(root, tree);
      DirResolves(Shape(), path, copies);
      var d, name; ghost var found, p;
      d, code, name, found, p := LookupPath(path, LOOKUP_DIR, copies);
      if d == null {
        return;
      }
      HeldIsNode(tree, p);
      ShapeAt(tree, p);
      ParentSet(tree, p);
      if d.parent == null {
        Finish(d);
        return EBUSY;
      }
      EmptyDir(root, tree, p);
      if d.children != [] {
        Finish(d);
        return ENOTEMPTY;
      }
      Remove(d, p);
      return 0;
    }

    /** vfs_unlink. The data of the file are given back at once. A file that is open keeps its
        dentry, and every handle then reads and writes freed memory. */
    method Unlink(path: string, copies: nat) returns (code: nat)
      requires Valid() && path != "" && path[0] == '/' && takes + 2 <= U32_LIMIT
      modifies this`tree, this`takes, Nodes(tree)`refcnt, Nodes(tree)`refs, Nodes(tree)`parent, Nodes(tree)`children
      modifies Nodes(tree)`freed, Nodes(tree)`dataFreed
      ensures Valid() && takes == old(takes) + 1
      ensures code == UnlinkCode(old(Shape()), NamesOf(path), Parse(path, SlashEnd(path, 0)).slash, copies)
      ensures Shape() == if code == 0 then old(Shape()) - {NamesOf(path)} else old(Shape())
      ensures code == 0 ==>
        && NamesOf(path) in old(tree)
        && var d := old(tree)[NamesOf(path)];
        d.dataFreed && d.handles == old(d.handles) && (d.handles > 0 ==> !d.freed)
    {
      hide TreeOk, RefsOk, ShapeOf, Walk, Within, Raised, Resolve, SlashEnd, Parse, UnlinkCode, NamesOf;
      ShapeIsOk(root, tree);
      UnlinkResolves(Shape(), path, copies);
      var d, name; ghost var found, p;
      d, code, name, found, p := LookupPath(path, FOR_UNLINK, copies);
      if d == null {
        return;
      }
      HeldIsNode(tree, p);
      ShapeAt(tree, p);
      if d.isDir {
        Finish(d);
        return EISDIR;
      }
      RootThere(root, tree);
      OnlyDirsList(root, tree, p);
      d.dataFreed := true;                         // kfree(priv->data)
      Remove(d, p);
      return 0;
    }

    /** The end of rmdir and unlink: the node leaves the tree, and its two references go. */
    method Remove(d: Dentry, ghost p: Path)
      requires TreeOk(root, tree) && RefsOk(tree, d) && p in tree && tree[p] == d && p != [] && d.children == []
      requires DirOf(p) in tree && d.parent == tree[DirOf(p)] && Within() && takes < U32_LIMIT
      modifies this`tree, Nodes(tree)`refcnt, Nodes(tree)`refs, Nodes(tree)`children, Nodes(tree)`freed
      ensures Valid() && tree == old(tree) - {p} && Shape() == old(Shape()) - {p}
      ensures d.handles > 0 ==> !d.freed
    {
      hide TreeIs, RefsIs, ShapeOf, Distinct, Few, Signed32;
      var parent := d.parent;
      HeldIsNode(tree, p);
      HeldIsNode(tree, DirOf(p));
      Detach(d, parent, p);
      ghost var lists := Lists(tree);
      PutUnlinked(d, parent);
      assert Lists(tree) == lists;
    }

    /** dentry_put for the link that is gone, and for the lookup. */
    method PutUnlinked(d: Dentry, parent: Dentry)
      requires d !in Nodes(tree) && parent in Nodes(tree) && d.parent == parent && RefsOk(tree, parent)
      requires 2 <= d.refs <= U32_LIMIT && d.refcnt == Signed32(d.refs) && Within() && takes < U32_LIMIT
      modifies d`refcnt, d`refs, d`freed, parent`refcnt, parent`refs, parent`freed
      ensures RefsOk(tree, null) && Within()
      ensures d.freed <==> old(d.freed) || old(d.refs) == 2
    {
      hide RefsIs, UpOk, Going, Signed32, Few, Shifted;
      ghost var c := Counts(tree);
      HandlesCount(tree, c, parent);
      FewNode(tree, parent, 1 + takes);
      WhenFreed(tree, parent, parent);
      ghost var refs := parent.refs;
      PutBoth(d, parent);
      RefsShift(tree, c, Counts(tree), parent, parent.refs - refs, 0, parent, null);
      ShiftedFew(tree, c, Counts(tree), parent, parent.refs - refs, 1 + takes);
    }

    method PutBoth(d: Dentry, parent: Dentry)
      requires d != parent && d.parent == parent && 2 <= d.refs <= U32_LIMIT && 2 <= parent.refs <= U32_LIMIT
      requires d.refcnt == Signed32(d.refs) && parent.refcnt == Signed32(parent.refs)
      modifies d`refcnt, d`refs, d`freed, parent`refcnt, parent`refs, parent`freed
      ensures d.refs == old(d.refs) - 2 && parent.freed == old(parent.freed)
      ensures d.freed <==> old(d.freed) || old(d.refs) == 2
      ensures parent.refs == old(parent.refs) - if old(d.refs) == 2 then 1 else 0
      ensures parent.refcnt == Signed32(parent.refs)
    {
      hide UpOk, Going, Signed32;
      Signed32Step(d.refs);
      Signed32Step(d.refs - 1);
      Signed32Step(parent.refs);
      PutStays(d);
      UpShort(d, parent);
      ghost var up := if d.refcnt != 1 then [d] else [d, parent];
      DentryPut(d, up);
    }

    // ----- opening and closing

    /** A reference for an open file. */
    method Grab(d: Dentry, ghost held: Dentry)
      requires d in Nodes(tree) && RefsOk(tree, held) && Within()
      modifies this`takes, d`refcnt, d`refs, d`handles
      ensures RefsOk(tree, held) && d.handles == old(d.handles) + 1 && takes == old(takes) + 1 && Within()
    {
      hide RefsIs, Signed32, Few, Shifted;
      ghost var c := Counts(tree);
      HandlesCount(tree, c, held);
      WhenFreed(tree, d, held);
      d.refcnt, d.refs := Signed32(d.refcnt + 1), d.refs + 1;
      d.handles := d.handles + 1;
      RefsShift(tree, c, Counts(tree), d, 1, 1, held, held);
      ShiftedFew(tree, c, Counts(tree), d, 1, 1 + takes);
      takes := takes + 1;
    }

    /** That reference is given back; the dentry is linked and stays. */
    method Drop(d: Dentry, ghost held: Dentry?)
      requires d in Nodes(tree) && RefsOk(tree, held) && d.handles > 0 && Within() && takes < U32_LIMIT
      modifies d`refcnt, d`refs, d`handles, d`freed
      ensures RefsOk(tree, held) && d.handles == old(d.handles) - 1 && Within() && !d.freed
    {
      hide RefsIs, Signed32, Few, Shifted;
      ghost var c := Counts(tree);
      FewNode(tree, d, 1 + takes);
      WhenFreed(tree, d, held);
      Signed32Step(d.refs);
      PutStays(d);
      d.handles := d.handles - 1;
      RefsShift(tree, c, Counts(tree), d, -1, -1, held, held);
      ShiftedFew(tree, c, Counts(tree), d, -1, 1 + takes);
    }

    /** vfs_close of the last reference to an open file whose dentry is linked. */
    method Close(d: Dentry)
      requires Valid() && d in Nodes(tree) && d.handles > 0 && takes < U32_LIMIT
      modifies d`refcnt, d`refs, d`handles, d`freed
      ensures Valid() && d.handles == old(d.handles) - 1 && !d.freed
    {
      hide TreeIs, RefsIs, Few;
      ghost var lists := Lists(tree);
      Drop(d, null);
      assert Lists(tree) == lists;
    }

    /** vfs_open, up to the new handle: the dentry of the file, or an error number. `node` and
        `handle` say whether there is memory for a new dentry and for the open file, `overrun` that
        a name does not fit its buffer. */
    method Open(path: string, create: bool, excl: bool, copies: nat, node: bool, handle: bool)
        returns (file: Dentry?, code: nat, overrun: bool)
      requires Valid() && path != "" && path[0] == '/' && NamesOf(path) != [] && takes + 3 <= U32_LIMIT
      modifies this`tree, this`takes, Nodes(tree)`refcnt, Nodes(tree)`refs, Nodes(tree)`parent, Nodes(tree)`children
      modifies Nodes(tree)`handles, Nodes(tree)`freed
      ensures overrun <==>
        Creates(old(Shape()), NamesOf(path), create, copies, node) && !NameFits(LastOf(NamesOf(path)))
      ensures takes <= old(takes) + 2
      ensures !overrun ==>
        && Valid()
        && code == OpenCode(old(Shape()), NamesOf(path), create, excl, copies, node, handle)
        && (file == null <==> code != 0)
        && (code == 0 ==> NamesOf(path) in tree && file == tree[NamesOf(path)] && !file.isDir)
      ensures !overrun ==>
        var made := Creates(old(Shape()), NamesOf(path), create, copies, node);
        && Shape() == (if made then old(Shape())[NamesOf(path) := false] else old(Shape()))
        && (if made then Adds(old(tree), tree, NamesOf(path)) else tree == old(tree))
        && (made ==> fresh(tree[NamesOf(path)]) && fresh(tree[NamesOf(path)].file) && IsNew(tree[NamesOf(path)].file))
      ensures !overrun ==> forall x :: x in Nodes(tree) ==>
        (x.handles == (if x in old(Nodes(tree)) then old(x.handles) else 0) + if x == file then 1 else 0)
    {
      hide TreeOk, RefsOk, ShapeOf, Resolve, OpenCode, Creates, SlashEnd, Parse, IsNew, NameFits, FileCode, Within,
          Raised, NamesOf, WhyNot, ShortCode, DirOf, LastOf;
      ShapeIsOk(root, tree);
      OpenResolves(Shape(), path, create, excl, copies, node, handle);
      var d, name; ghost var found, dir;
      overrun := false;
      d, code, name, found, dir := LookupPath(path, FOR_OPEN, copies);
      if d == null {
        return null, code, overrun;
      }
      ShapeAt(tree, dir);
      ShapeAt(tree, dir + [name]);
      ghost var p := NamesOf(path);
      assert p == dir + [name];
      file, code, overrun := DOpen(d, name, create, excl, node, handle, dir);
      if overrun {
        return;
      }
      HeldIsNode(tree, dir);
      ghost var f := if p in tree then tree[p].file else root.file;
      label Put:
      Finish(d);
      assert unchanged@Put(f);
    }

    /** vfs_dopen, up to the new handle */
    method DOpen(d: Dentry, name: Name, create: bool, excl: bool, node: bool, handle: bool, ghost dir: Path)
        returns (file: Dentry?, code: nat, overrun: bool)
      requires TreeOk(root, tree) && RefsOk(tree, d) && dir in tree && tree[dir] == d && d.isDir
      requires Within() && takes + 2 <= U32_LIMIT
      modifies this`tree, this`takes, d`children, Nodes(tree)`refcnt, Nodes(tree)`refs, Nodes(tree)`handles
      modifies Nodes(tree)`freed
      ensures overrun <==> dir + [name] !in old(Shape()) && create && node && !NameFits(name)
      ensures takes <= old(takes) + 1
      ensures !overrun ==> TreeOk(root, tree) && RefsOk(tree, d) && dir in tree && tree[dir] == d && Within()
      ensures !overrun ==>
        var p, s := dir + [name], old(Shape());
        var made := p !in s && create && node;
        && code == FileCode(s, p, create, excl, node, handle)
        && Shape() == (if made then s[p := false] else s)
        && (if made then Adds(old(tree), tree, p) else tree == old(tree))
        && (made ==> fresh(tree[p]) && fresh(tree[p].file) && IsNew(tree[p].file))
        && (file == null <==> code != 0)
        && (code == 0 ==> p in tree && file == tree[p] && !file.isDir)
      ensures !overrun ==> forall x :: x in Nodes(tree) ==>
        (x.handles == (if x in old(Nodes(tree)) then old(x.handles) else 0) + if x == file then 1 else 0)
    {
      hide TreeOk, RefsOk, ShapeOf, Within, NameFits, IsNew;
      ghost var p := dir + [name];
      overrun := false;
      file, code := FindChild(d, name, dir);
      ShapeAt(tree, p);
      if file == null {
        if !create {
          return null, code, overrun;
        }
        ghost var tree0 := tree;
        code, overrun := MakeNode(d, name, false, node, dir);
        if code != 0 || overrun {
          return null, code, overrun;
        }
        AddedNodes(tree0, tree, p);
        file, code := FindChild(d, name, dir);
        ShapeAt(tree, p);
        Grab(file, d);
      } else {
        Grab(file, d);
        if file.isDir {
          Drop(file, d);
          return null, EISDIR, overrun;
        }
        if create && excl {
          Drop(file, d);
          return null, EEXIST, overrun;
        }
      }
      if !handle {
        Drop(file, d);
        return null, ENOMEM, overrun;
      }
      code := 0;
    }
  }

  /** One node more, at p. */
  ghost predicate Adds(tree0: Tree, tree: Tree, p: Path) {
    p !in tree0 && p in tree && tree == tree0[p := tree[p]]
  }

  lemma AddedNodes(tree0: Tree, tree: Tree, p: Path)
    requires Adds(tree0, tree, p)
    ensures Nodes(tree) == Nodes(tree0) + {tree[p]}
  {
    forall x ensures x in Nodes(tree) <==> x in Nodes(tree0) + {tree[p]} {
      if x in Nodes(tree0) {
        var q :| q in tree0 && tree0[q] == x;
        assert tree[q] == x;
      }
    }
  }

  /** What the counter of a linked dentry says, and when a dentry_put would free it. */
  lemma WhenFreed(tree: Tree, d: Dentry, held: Dentry?)
    requires RefsOk(tree, held) && d in Nodes(tree)
    ensures d.refcnt == Signed32(d.refs) && d.refs >= 1 + d.handles + (if d == held then 1 else 0)
    ensures !d.freed && (d.refcnt == 1 <==> d.refs % U32_LIMIT == 1)
    ensures d == held && d.refs <= U32_LIMIT ==> d.refcnt != 1
    ensures Signed32(d.refcnt + 1) == Signed32(d.refs + 1) && Signed32(d.refcnt - 1) == Signed32(d.refs - 1)
  {
    var p :| p in tree && tree[p] == d;
    RefsAt(tree, Counts(tree), p, held);
    Signed32Step(d.refs);
  }

  lemma RaisedFew(c0: map<Path, Count>, c: map<Path, Count>, q: Path, held: bool, n: int)
    requires Few(c0, n) && Raised(c0, c, q, held)
    ensures Few(c, n + 1)
  {
  }

  /** A lookup that ended at q and has let go of it. */
  lemma RaisedRefs(c0: map<Path, Count>, c: map<Path, Count>, q: Path)
    requires Raised(c0, c, q, true)
    ensures c.Keys == c0.Keys
    ensures forall p :: p in c ==> c[p].refs - (if p == q then 1 else 0) == c0[p].refs + if p < q then 1 else 0
  {
  }

  lemma ShiftedFew(tree: Tree, c: map<Path, Count>, c': map<Path, Count>, d: Dentry, k: int, n: int)
    requires Shifted(tree, c, c', d, k) && Few(c, n)
    ensures Few(c', if k > 0 then n + k else n)
  {
  }

  lemma NewCount(tree0: Tree, tree: Tree, p: Path, d: Dentry)
    requires p !in tree0 && tree == tree0[p := d]
    requires d.refs == 1 && d.refcnt == 1 && d.handles == 0 && !d.freed && d.parent == null
    ensures Counts(tree) == Counts(tree0)[p := Count(1, 1, 0, false, null)]
  {
  }

  lemma FewAdded(c: map<Path, Count>, p: Path, n: int)
    requires Few(c, n) && n >= 1
    ensures Few(c[p := Count(1, 1, 0, false, null)], n)
  {
  }

  lemma FewRemoved(c: map<Path, Count>, p: Path, n: int)
    requires Few(c, n)
    ensures Few(c - {p}, n)
  {
  }

  lemma FewNode(tree: Tree, d: Dentry, n: int)
    requires Few(Counts(tree), n) && d in Nodes(tree)
    ensures d.refs <= n
  {
    var p :| p in tree && tree[p] == d;
    FewAt(tree, p, n);
  }

  lemma FewMore(c: map<Path, Count>, n: int, k: int)
    requires Few(c, n) && n <= k
    ensures Few(c, k)
  {
  }

  lemma FewAt(tree: Tree, p: Path, n: int)
    requires Few(Counts(tree), n) && p in tree
    ensures tree[p].refs <= n
  {
    assert Counts(tree)[p].refs <= n;
  }

  lemma HandlesCount(tree: Tree, c: map<Path, Count>, held: Dentry?)
    requires RefsIs(tree, c, held)
    ensures forall q :: q in c ==> c[q].handles >= 0
  {
    forall q | q in c ensures c[q].handles >= 0 { RefsAt(tree, c, q, held); }
  }

  // ----- the operations as functions of the map

  /** Why a directory is not there. */
  ghost function WhyNot(s: Shape, p: Path, n: nat): (e: nat)
    requires n <= |p|
    ensures e != 0
  {
    if FileOnTheWay(s, [], p, n) then ENOTDIR else ENOENT
  }

  /** The error when there is memory only for the first components. */
  ghost function ShortCode(s: Shape, p: Path, copies: nat): (e: nat)
    requires copies < |p|
    ensures e != 0
  {
    if IsDir(s, p[..copies]) then ENOMEM else WhyNot(s, p, copies)
  }

  ghost function MkdirCode(s: Shape, p: Path, copies: nat, memory: bool): nat
    requires p != []
  {
    if copies < |p| then ShortCode(s, p, copies)
    else if p in s then EEXIST
    else if !IsDir(s, DirOf(p)) then WhyNot(s, p, |p| - 1)
    else if !memory then ENOMEM else 0
  }

  ghost function DirCode(s: Shape, p: Path, copies: nat): nat {
    if copies < |p| then ShortCode(s, p, copies)
    else if IsDir(s, p) then 0 else WhyNot(s, p, |p|)
  }

  ghost function RmdirCode(s: Shape, p: Path, copies: nat): nat {
    if copies < |p| then ShortCode(s, p, copies)
    else if p == [] then EBUSY
    else if !IsDir(s, p) then WhyNot(s, p, |p|)
    else if HasEntries(s, p) then ENOTEMPTY else 0
  }

  ghost predicate HasEntries(s: Shape, p: Path) {
    exists name: Name :: p + [name] in s
  }

  ghost function UnlinkCode(s: Shape, p: Path, slash: bool, copies: nat): nat {
    if copies < |p| then ShortCode(s, p, copies)
    else if p == [] then EISDIR
    else if p in s && (s[p] || !slash) then if s[p] then EISDIR else 0
    else WhyNot(s, p, |p|)
  }

  ghost function OpenCode(s: Shape, p: Path, create: bool, excl: bool, copies: nat, node: bool, handle: bool): nat
    requires p != []
  {
    if copies < |p| then ShortCode(s, p, copies)
    else if !IsDir(s, DirOf(p)) then WhyNot(s, p, |p| - 1)
    else FileCode(s, p, create, excl, node, handle)
  }

  /** The same in a directory that is there. */
  function FileCode(s: Shape, p: Path, create: bool, excl: bool, node: bool, handle: bool): nat {
    if p !in s then if !create then ENOENT else if !node || !handle then ENOMEM else 0
    else if s[p] then EISDIR
    else if create && excl then EEXIST
    else if !handle then ENOMEM else 0
  }

  /** The answers of mkdir and rmdir, one by one, when there is memory for the components. */
  lemma DirectoryAnswers(s: Shape, p: Path, copies: nat, memory: bool)
    requires ShapeOk(s) && copies >= |p|
    ensures p != [] ==>
      var e, place := MkdirCode(s, p, copies, memory), p !in s && IsDir(s, DirOf(p));
      && (e == 0 <==> place && memory) && (e == ENOMEM <==> place && !memory) && (e == EEXIST <==> p in s)
      && (e == ENOTDIR <==> p !in s && FileOnTheWay(s, [], p, |p| - 1))
      && (e == ENOENT <==> p !in s && !place && !FileOnTheWay(s, [], p, |p| - 1))
    ensures
      var e := RmdirCode(s, p, copies);
      && (e == 0 <==> p != [] && IsDir(s, p) && !HasEntries(s, p)) && (e == EBUSY <==> p == [])
      && (e == ENOTEMPTY <==> p != [] && IsDir(s, p) && HasEntries(s, p))
      && (e == ENOTDIR <==> FileOnTheWay(s, [], p, |p|))
      && (e == ENOENT <==> !IsDir(s, p) && !FileOnTheWay(s, [], p, |p|))
    ensures DirCode(s, p, copies) == if IsDir(s, p) then 0 else RmdirCode(s, p, copies)
  {
    NoFileAbove(s, p, |p|);
    assert p[..|p|] == p;
    if p != [] { NoFileAbove(s, p, |p| - 1); }
  }

  /** Those of unlink and open. */
  lemma FileAnswers(s: Shape, p: Path, slash: bool, create: bool, excl: bool, copies: nat, node: bool, handle: bool)
    requires ShapeOk(s) && copies >= |p|
    ensures
      var e := UnlinkCode(s, p, slash, copies);
      && (e == 0 <==> IsFile(s, p) && !slash) && (e == EISDIR <==> IsDir(s, p))
      && (e == ENOTDIR <==> FileOnTheWay(s, [], p, |p|) && (IsFile(s, p) ==> slash))
      && (e == ENOENT <==> p !in s && !FileOnTheWay(s, [], p, |p|))
    ensures p != [] ==>
      var e, place := OpenCode(s, p, create, excl, copies, node, handle), p !in s && IsDir(s, DirOf(p));
      && (e == 0 <==> handle && if p in s then IsFile(s, p) && !(create && excl) else place && create && node)
      && (e == EISDIR <==> IsDir(s, p)) && (e == EEXIST <==> IsFile(s, p) && create && excl)
      && (e == ENOMEM <==> (IsFile(s, p) && !(create && excl) && !handle) || (place && create && !(node && handle)))
      && (e == ENOTDIR <==> p !in s && FileOnTheWay(s, [], p, |p| - 1))
      && (e == ENOENT <==> p !in s && !FileOnTheWay(s, [], p, |p| - 1) && !(place && create))
      && (Creates(s, p, create, copies, node) <==> p !in s && (e == 0 || (e == ENOMEM && node)))
  {
    NoFileAbove(s, p, |p|);
    assert p[..|p|] == p && [] + p == p;
    if p != [] { NoFileAbove(s, p, |p| - 1); }
  }

  /** Those of all four when memory lasts for the first components only: as far as the walk gets. */
  lemma ShortAnswers(s: Shape, p: Path, copies: nat)
    requires ShapeOk(s) && copies < |p|
    ensures
      var e := ShortCode(s, p, copies);
      && (e == ENOMEM <==> IsDir(s, p[..copies])) && (e == ENOTDIR <==> FileOnTheWay(s, [], p, copies))
      && (e == ENOENT <==> !IsDir(s, p[..copies]) && !FileOnTheWay(s, [], p, copies))
    ensures forall memory :: MkdirCode(s, p, copies, memory) == ShortCode(s, p, copies)
    ensures RmdirCode(s, p, copies) == ShortCode(s, p, copies) == DirCode(s, p, copies)
    ensures forall slash :: UnlinkCode(s, p, slash, copies) == ShortCode(s, p, copies)
    ensures forall create, excl, node, handle ::
      OpenCode(s, p, create, excl, copies, node, handle) == ShortCode(s, p, copies)
  {
    NoFileAbove(s, p, copies);
  }

  /** No file lies above a directory. */
  lemma NoFileAbove(s: Shape, p: Path, n: nat)
    requires ShapeOk(s) && n <= |p|
    ensures IsDir(s, p[..n]) ==> !FileOnTheWay(s, [], p, n)
  {
    if IsDir(s, p[..n]) && FileOnTheWay(s, [], p, n) {
      var k :| 1 <= k <= n && IsFile(s, [] + p[..k]);
      assert [] + p[..k] == p[..k] && p[..n] == p[..k] + p[k..n];
      if k < n { NothingBelow(s, p[..k], p[k..n]); }
      assert false;
    }
  }

  /** A file that is created stays even if there is no memory for the handle. */
  predicate Creates(s: Shape, p: Path, create: bool, copies: nat, node: bool)
    requires p != []
  {
    copies >= |p| && IsDir(s, DirOf(p)) && p !in s && create && node
  }

  lemma FromRoot(p: Path)
    ensures [] + p == p
    ensures p != [] ==> [] + p[..|p| - 1] == DirOf(p) && DirOf(p) + [LastOf(p)] == p
  {
  }

  lemma ShortResolves(s: Shape, path: string, f: Flags, copies: nat)
    requires ShapeOk(s) && path != "" && path[0] == '/' && copies < |NamesOf(path)|
    ensures Resolve(s, path, f, copies) == Error(ShortCode(s, NamesOf(path), copies))
  {
    hide Parse, SlashEnd, FileOnTheWay, Walk;
    var p := NamesOf(path);
    FromRoot(p[..copies]);
    ShortFound(s, [], p, Parse(path, SlashEnd(path, 0)).slash, f, copies);
  }

  lemma CreateResolves(s: Shape, path: string, copies: nat)
    requires ShapeOk(s) && path != "" && path[0] == '/' && NamesOf(path) != []
    ensures
      var p, r := NamesOf(path), Resolve(s, path, FOR_CREATE, copies);
      if copies >= |p| && p !in s && IsDir(s, DirOf(p)) then r == Missing(DirOf(p), LastOf(p)) && r.dir + [r.name] == p
      else r == Error(MkdirCode(s, p, copies, true))
  {
    hide Parse, SlashEnd, FileOnTheWay, Walk;
    var p := NamesOf(path);
    FromRoot(p);
    if copies < |p| { ShortResolves(s, path, FOR_CREATE, copies); }
    else { CreateFound(s, [], p, Parse(path, SlashEnd(path, 0)).slash, copies); }
  }

  lemma OpenResolves(s: Shape, path: string, create: bool, excl: bool, copies: nat, node: bool, handle: bool)
    requires ShapeOk(s) && path != "" && path[0] == '/' && NamesOf(path) != []
    ensures
      var p, r := NamesOf(path), Resolve(s, path, FOR_OPEN, copies);
      var code, made := OpenCode(s, p, create, excl, copies, node, handle), Creates(s, p, create, copies, node);
      if r.Missing? then
        && r == Missing(DirOf(p), LastOf(p)) && r.dir + [r.name] == p
        && code == FileCode(s, p, create, excl, node, handle) && (made <==> p !in s && create && node)
      else r == Error(code) && code != 0 && !made
  {
    hide Parse, SlashEnd, FileOnTheWay, Walk, FileCode;
    var p := NamesOf(path);
    FromRoot(p);
    if copies < |p| { ShortResolves(s, path, FOR_OPEN, copies); }
    else { OpenFound(s, [], p, Parse(path, SlashEnd(path, 0)).slash, copies); }
  }

  lemma DirResolves(s: Shape, path: string, copies: nat)
    requires ShapeOk(s) && path != "" && path[0] == '/'
    ensures
      var p := NamesOf(path);
      Resolve(s, path, LOOKUP_DIR, copies) ==
        if copies < |p| then Error(ShortCode(s, p, copies))
        else if IsDir(s, p) then Node(p) else Error(WhyNot(s, p, |p|))
  {
    hide Parse, SlashEnd, FileOnTheWay, Walk;
    var p := NamesOf(path);
    FromRoot(p);
    if copies < |p| { ShortResolves(s, path, LOOKUP_DIR, copies); }
    else if p != [] { DirFound(s, [], p, Parse(path, SlashEnd(path, 0)).slash, copies); }
  }

  lemma PlainResolves(s: Shape, path: string, copies: nat)
    requires ShapeOk(s) && path != "" && path[0] == '/'
    ensures
      var p, slash := NamesOf(path), Parse(path, SlashEnd(path, 0)).slash;
      Resolve(s, path, FOR_UNLINK, copies) ==
        if copies < |p| then Error(ShortCode(s, p, copies))
        else if p == [] || (p in s && (s[p] || !slash)) then Node(p) else Error(WhyNot(s, p, |p|))
  {
    hide Parse, SlashEnd, FileOnTheWay, Walk;
    var p := NamesOf(path);
    FromRoot(p);
    if copies < |p| { ShortResolves(s, path, FOR_UNLINK, copies); }
    else if p != [] { PlainFound(s, [], p, Parse(path, SlashEnd(path, 0)).slash, copies); }
  }

  lemma UnlinkResolves(s: Shape, path: string, copies: nat)
    requires ShapeOk(s) && path != "" && path[0] == '/'
    ensures
      var p, r := NamesOf(path), Resolve(s, path, FOR_UNLINK, copies);
      var code := UnlinkCode(s, p, Parse(path, SlashEnd(path, 0)).slash, copies);
      if r.Node? then r.path == p && p in s && code == (if s[p] then EISDIR else 0) else r == Error(code) && code != 0
  {
    hide Parse, SlashEnd, FileOnTheWay, Walk;
    PlainResolves(s, path, copies);
  }

  lemma HeldIsNode(tree: Tree, p: Path)
    ensures p in tree ==> tree[p] in Nodes(tree)
  {
  }

  /** Only the root has no parent pointer after a walk. */
  lemma ParentSet(tree: Tree, p: Path)
    requires p in tree && RefsOk(tree, tree[p])
    ensures p == [] ==> tree[p].parent == null
  {
    assert BackIs(tree, Counts(tree), p);
  }

  lemma EmptyDir(root: Dentry, tree: Tree, p: Path)
    requires TreeOk(root, tree) && p in tree
    ensures tree[p].children != [] <==> HasEntries(ShapeOf(tree), p)
  {
    if tree[p].children != [] {
      var c := tree[p].children[0];
      assert ChildrenOk(tree, Lists(tree), p);
      assert c in Lists(tree)[p];
      assert IsChild(tree, p, c);
      var name: Name := c.name;
      assert p + [name] in ShapeOf(tree);
    }
    if HasEntries(ShapeOf(tree), p) {
      var name: Name :| p + [name] in ShapeOf(tree);
      ChildIsListed(root, tree, p, name);
    }
  }

  /** Only directories have entries. */
  lemma OnlyDirsList(root: Dentry, tree: Tree, p: Path)
    requires TreeOk(root, tree) && p in tree
    ensures tree[p].children != [] ==> tree[p].isDir
  {
    if tree[p].children != [] {
      var c := tree[p].children[0];
      assert ChildrenOk(tree, Lists(tree), p);
      assert c in Lists(tree)[p];
      assert IsChild(tree, p, c);
      assert Listed(tree, Lists(tree), p + [c.name]);
    }
  }

  lemma ChildIsListed(root: Dentry, tree: Tree, p: Path, name: Name)
    requires TreeOk(root, tree) && p in tree
    ensures p + [name] in tree ==> tree[p + [name]] in tree[p].children && tree[p + [name]].name == name
  {
    if p + [name] in tree {
      assert Listed(tree, Lists(tree), p + [name]);
      assert DirOf(p + [name]) == p;
    }
  }

  /** Adding one entry to a directory's list keeps the tree in order. */
  lemma Added(root: Dentry, tree0: Tree, lists0: map<Path, seq<Dentry>>, tree: Tree, lists: map<Path, seq<Dentry>>,
      p: Path, name: Name, c: Dentry)
    requires TreeIs(root, tree0, lists0) && p in tree0 && tree0[p].isDir && p + [name] !in tree0
    requires tree == tree0[p + [name] := c] && c !in Nodes(tree0) && c.name == name
    requires lists == lists0[p := lists0[p] + [c]][p + [name] := []]
    ensures TreeIs(root, tree, lists)
  {
    hide ChildrenOk, Listed;
    var r := p + [name];
    forall q | q in tree && q != [] ensures Listed(tree, lists, q) {
      if q != r { assert Listed(tree0, lists0, q); }
      AddedListed(tree0, lists0, tree, lists, p, name, c, q);
    }
    forall q | q in tree ensures ChildrenOk(tree, lists, q) {
      if q != r { assert ChildrenOk(tree0, lists0, q); }
      AddedChildren(tree0, lists0, tree, lists, p, name, c, q);
    }
  }

  lemma AddedListed(tree0: Tree, lists0: map<Path, seq<Dentry>>, tree: Tree, lists: map<Path, seq<Dentry>>, p: Path,
      name: Name, c: Dentry, q: Path)
    requires lists0.Keys == tree0.Keys && p in tree0 && tree0[p].isDir && p + [name] !in tree0 && c.name == name
    requires tree == tree0[p + [name] := c] && lists == lists0[p := lists0[p] + [c]][p + [name] := []]
    requires q != [] && (q == p + [name] || (q in tree0 && Listed(tree0, lists0, q)))
    ensures Listed(tree, lists, q)
  {
  }

  lemma AddedChildren(tree0: Tree, lists0: map<Path, seq<Dentry>>, tree: Tree, lists: map<Path, seq<Dentry>>, p: Path,
      name: Name, c: Dentry, q: Path)
    requires lists0.Keys == tree0.Keys && p in tree0 && p + [name] !in tree0 && c !in Nodes(tree0) && c.name == name
    requires tree == tree0[p + [name] := c] && lists == lists0[p := lists0[p] + [c]][p + [name] := []]
    requires q == p + [name] || (q in tree0 && ChildrenOk(tree0, lists0, q))
    ensures ChildrenOk(tree, lists, q)
  {
    hide Distinct;
    if q != p + [name] {
      forall x | x in lists0[q] ensures IsChild(tree, q, x) && x != c { assert IsChild(tree0, q, x); }
      OneMore(lists0[q], c);
    } else {
      OneMore([], c);
    }
  }

  /** c is in the list of directory p, but not yet in the tree. */
  ghost predicate Pending(root: Dentry, tree: Tree, p: Path, c: Dentry)
    reads Nodes(tree)`children
  {
    && p in tree && tree[p].children != []
    && var list := tree[p].children;
    list[|list| - 1] == c && TreeIs(root, tree, Lists(tree)[p := list[..|list| - 1]])
  }

  lemma NodeAdded(root: Dentry, tree0: Tree, tree: Tree, p: Path, name: Name, c: Dentry)
    requires Pending(root, tree0, p, c) && tree0[p].isDir && p + [name] !in tree0
    requires tree == tree0[p + [name] := c] && c !in Nodes(tree0) && c.name == name && c.children == []
    ensures TreeOk(root, tree)
    ensures ShapeOf(tree) == ShapeOf(tree0)[p + [name] := c.isDir]
  {
    hide TreeIs;
    var list := tree0[p].children;
    var lists0 := Lists(tree0)[p := list[..|list| - 1]];
    assert list == list[..|list| - 1] + [c];
    assert lists0[p] + [c] == list && Lists(tree0)[p] == list;
    assert Lists(tree0) == lists0[p := lists0[p] + [c]];
    assert Lists(tree) == Lists(tree0)[p + [name] := []];
    Added(root, tree0, lists0, tree, Lists(tree), p, name, c);
  }

  lemma OneLess(l: seq<Dentry>, i: nat)
    requires Distinct(l) && i < |l|
    ensures Distinct(l[..i] + l[i + 1..])
    ensures forall x :: x in l[..i] + l[i + 1..] <==> x in l && x != l[i]
  {
    var m := l[..i] + l[i + 1..];
    forall x ensures x in m <==> x in l && x != l[i] {
      if x in l && x != l[i] {
        var j :| 0 <= j < |l| && l[j] == x;
        assert m[if j < i then j else j - 1] == x;
      }
    }
  }

  lemma RemoveFacts(root: Dentry, tree: Tree, p: Path)
    requires TreeOk(root, tree) && p in tree && p != []
    ensures DirOf(p) in tree && DirOf(p) != p && tree[p] in tree[DirOf(p)].children && Distinct(tree[DirOf(p)].children)
  {
    assert Listed(tree, Lists(tree), p);
    assert ChildrenOk(tree, Lists(tree), DirOf(p));
  }

  /** A node without children is gone from the tree and from its directory's list. */
  lemma Removed(root: Dentry, tree: Tree, lists: map<Path, seq<Dentry>>, list: seq<Dentry>, p: Path)
    requires TreeIs(root, tree, lists) && p in tree && p != [] && lists[p] == [] && DirOf(p) in tree
    requires Distinct(list) && forall x :: x in list <==> x in lists[DirOf(p)] && x != tree[p]
    ensures TreeIs(root, tree - {p}, lists[DirOf(p) := list] - {p})
  {
    hide ChildrenOk, Listed, Distinct;
    var tree', lists' := tree - {p}, lists[DirOf(p) := list] - {p};
    forall q | q in tree' && q != [] ensures Listed(tree', lists', q) {
      assert Listed(tree, lists, q);
      RemovedListed(tree, lists, list, p, q);
    }
    forall q | q in tree' ensures ChildrenOk(tree', lists', q) {
      assert ChildrenOk(tree, lists, q);
      RemovedChildren(tree, lists, list, p, q);
    }
  }

  lemma RemovedListed(tree: Tree, lists: map<Path, seq<Dentry>>, list: seq<Dentry>, p: Path, q: Path)
    requires lists.Keys == tree.Keys && p in tree && p != [] && lists[p] == [] && DirOf(p) in tree
    requires forall x :: x in list <==> x in lists[DirOf(p)] && x != tree[p]
    requires q in tree && q != p && q != [] && Listed(tree, lists, q) && tree[q] != tree[p]
    ensures Listed(tree - {p}, lists[DirOf(p) := list] - {p}, q)
  {
  }

  lemma RemovedChildren(tree: Tree, lists: map<Path, seq<Dentry>>, list: seq<Dentry>, p: Path, q: Path)
    requires lists.Keys == tree.Keys && p in tree && p != [] && DirOf(p) in tree
    requires Distinct(list) && forall x :: x in list <==> x in lists[DirOf(p)] && x != tree[p]
    requires q in tree && q != p && ChildrenOk(tree, lists, q)
    requires forall r :: r in tree && tree[r] == tree[p] ==> r == p
    ensures ChildrenOk(tree - {p}, lists[DirOf(p) := list] - {p}, q)
  {
    hide Distinct;
    forall x | x in lists[q] && x != tree[p] ensures IsChild(tree - {p}, q, x) {
      assert IsChild(tree, q, x);
    }
    InOneList(tree, lists, p, q);
  }

  lemma InOneList(tree: Tree, lists: map<Path, seq<Dentry>>, p: Path, q: Path)
    requires lists.Keys == tree.Keys && p in tree && p != [] && q in tree && ChildrenOk(tree, lists, q)
    requires forall r :: r in tree && tree[r] == tree[p] ==> r == p
    ensures tree[p] in lists[q] ==> q == DirOf(p)
  {
    if tree[p] in lists[q] {
      assert IsChild(tree, q, tree[p]);
      assert q + [tree[p].name] == p;
    }
  }

  /** The tree without a node that has just left its directory's list. */
  lemma Detached(root: Dentry, tree: Tree, lists: map<Path, seq<Dentry>>, c: map<Path, Count>, p: Path, n: int)
    requires p in tree && p != [] && DirOf(p) in tree && DirOf(p) != p
    requires TreeIs(root, tree, lists) && lists[p] == [] && Distinct(tree[DirOf(p)].children)
    requires forall x :: x in tree[DirOf(p)].children <==> x in lists[DirOf(p)] && x != tree[p]
    requires Lists(tree) == lists[DirOf(p) := tree[DirOf(p)].children]
    requires Counts(tree) == c && RefsIs(tree, c, tree[p]) && c[p].parent == tree[DirOf(p)] && Few(c, n) && n >= 1
    ensures TreeOk(root, tree - {p}) && ShapeOf(tree - {p}) == ShapeOf(tree) - {p}
    ensures tree[p] !in Nodes(tree - {p}) && tree[DirOf(p)] in Nodes(tree - {p})
    ensures RefsOk(tree - {p}, tree[DirOf(p)]) && Few(Counts(tree - {p}), n)
    ensures 2 + c[p].handles <= c[p].refs <= n && c[p].word == Signed32(c[p].refs) && !c[p].freed
  {
    hide Signed32;
    OneNode(root, tree, lists, p);
    NothingBack(root, tree, lists, c, p, tree[p]);
    hide TreeIs, RefsIs, Distinct;
    RefsRemoved(tree, c, p);
    FewRemoved(c, p, n);
    Removed(root, tree, lists, tree[DirOf(p)].children, p);
    NodesWithout(tree, p);
    MapsWithout(tree, p);
    assert DirOf(p) in tree - {p} && (tree - {p})[DirOf(p)] == tree[DirOf(p)];
  }

  lemma OneNode(root: Dentry, tree: Tree, lists: map<Path, seq<Dentry>>, p: Path)
    requires TreeIs(root, tree, lists) && p in tree
    ensures forall q :: q in tree && tree[q] == tree[p] ==> q == p
  {
  }

  lemma MapsWithout(tree: Tree, p: Path)
    ensures Lists(tree - {p}) == Lists(tree) - {p} && Counts(tree - {p}) == Counts(tree) - {p}
    ensures ShapeOf(tree - {p}) == ShapeOf(tree) - {p}
  {
  }

  lemma NodesWithout(tree: Tree, p: Path)
    requires p in tree && forall q :: q in tree && tree[q] == tree[p] ==> q == p
    ensures Nodes(tree - {p}) == Nodes(tree) - {tree[p]}
  {
    forall x | x in Nodes(tree) && x != tree[p] ensures x in Nodes(tree - {p}) {
      var q :| q in tree && tree[q] == x;
      assert (tree - {p})[q] == x;
    }
  }

  lemma OneMore(l: seq<Dentry>, c: Dentry)
    ensures Distinct([])
    ensures Distinct(l) && c !in l ==> Distinct(l + [c])
    ensures forall x :: x in l + [c] <==> x in l || x == c
  {
  }

  lemma NewTree(d: Dentry)
    requires d.isDir && d.children == [] && d.parent == null && d.refcnt == 1 && d.refs == 1 && d.handles == 0
    requires !d.freed
    ensures Few(Counts(map[[] := d]), 1)
    ensures
      var tree: Tree := map[[] := d];
      && TreeOk(d, tree) && RefsOk(tree, null) && ShapeOf(tree) == map[[] := true] && Nodes(tree) == {d}
  {
    var tree: Tree := map[[] := d];
    assert tree[[]] == d && Nodes(tree) == {d};
    assert Counts(tree) == map[[] := Count(1, 1, 0, false, null)];
    assert Backs(Counts(tree), d) == {};
    assert Lists(tree) == map[[] := []];
  }

  lemma OnePath(root: Dentry, tree: Tree, p: Path)
    requires TreeOk(root, tree) && p in tree
    ensures forall q :: q in tree && tree[q] == tree[p] ==> q == p
  {
  }

  lemma RootThere(root: Dentry, tree: Tree)
    requires TreeOk(root, tree)
    ensures [] in tree && tree[[]] == root && root.isDir && root in Nodes(tree)
  {
  }

  lemma ShapeAt(tree: Tree, p: Path)
    ensures p in ShapeOf(tree) <==> p in tree
    ensures p in tree ==> ShapeOf(tree)[p] == tree[p].isDir && tree[p] in Nodes(tree)
  {
  }

  lemma SomeName(s: string, p: nat)
    requires p <= |s| && (p < |s| ==> s[p] != '/')
    ensures Parse(s, p).names != [] <==> p < |s|
  {
  }

  lemma WalkEnds(s: Shape, p: Path, names: Path, slash: bool, f: Flags)
    requires names != []
    ensures Walk(s, p, names, slash, f, 0) == Error(ENOMEM)
  {
  }

  /** The walk unfolded once, for the component the scanner returned. */
  lemma WalkStep(s: Shape, p: Path, names: Path, slash: bool, f: Flags, copies: nat, kind: Component)
    requires names != [] && copies > 0
    requires !kind.NoMore? && (kind.Norm? <==> |names| > 1) && (kind.LastSlash? <==> |names| == 1 && slash)
    ensures
      var q := p + [names[0]];
      Walk(s, p, names, slash, f, copies) ==
        if IsLast(kind, f) && f.returnLast then Missing(p, names[0])
        else if q !in s then if IsLast(kind, f) && f.mustNotExist then Missing(p, names[0]) else Error(ENOENT)
        else if IsLast(kind, f) && f.mustNotExist then Error(EEXIST)
        else if !s[q] then if !kind.Last? || f.mustBeDir then Error(ENOTDIR) else Node(q)
        else if !kind.Norm? then Node(q)
        else Walk(s, q, names[1..], slash, f, copies - 1)
  {
  }

  // ----- where the code fails

  /** The names of a path that is spelled with any number of slashes are those that were spelled. */
  lemma NamesSpelled(names: Path, gaps: seq<nat>, tail: nat)
    requires |gaps| == |names| && (forall i :: 0 <= i < |gaps| ==> gaps[i] > 0) && (names != [] || tail > 0)
    ensures
      var s := Spelled(names, gaps, tail);
      && s != "" && s[0] == '/' && NamesOf(s) == names
      && Parse(s, SlashEnd(s, 0)).slash == (tail > 0 && names != [])
  {
    ParseSpelled("", names, gaps, tail);
    assert "" + Spelled(names, gaps, tail) == Spelled(names, gaps, tail);
  }

  /** The path of an entry of the root. */
  lemma OneComponent(name: Name)
    ensures SlashEnd("/" + name, 0) == 1 && Parse("/" + name, 1) == Parsed([name], false)
    ensures NamesOf("/" + name) == [name]
  {
    var s := "/" + name;
    assert s[1] == name[0] != '/' by { assert name[0] in name; }
    NameToEnd(s, 1);
    assert s[1..|s|] == name;
    assert [name] + [] == [name];
  }

  lemma {:induction false} NameToEnd(s: string, p: nat)
    requires p <= |s| && '/' !in s[p..]
    ensures NameEnd(s, p) == |s|
    decreases |s| - p
  {
    if p < |s| {
      assert s[p] == s[p..][0] && s[p + 1..] == s[p..][1..];
      NameToEnd(s, p + 1);
    }
  }

  /** A directory made in an empty root. Every name of 255 bytes or more leaves its buffer. */
  method MakeFirst(fs: Fs, name: Name) returns (overrun: bool)
    requires fs.Valid() && fs.Shape() == map[[] := true] && fs.takes == 0
    modifies fs`tree, fs`takes, Nodes(fs.tree)
    ensures overrun <==> |name| >= NAME_SIZE
    ensures !overrun ==> fs.Valid() && fs.takes == 1 && fs.Shape() == map[[] := true, [name] := true]
    ensures !overrun ==> Adds(old(fs.tree), fs.tree, [name]) && fresh(fs.tree[[name]])
  {
    hide TreeOk, RefsOk, Fs.Within, ShapeOf, Parse, SlashEnd, WhyNot, ShortCode;
    OneComponent(name);
    assert DirOf([name]) == [] && LastOf([name]) == name;
    var code;
    code, overrun := fs.Mkdir("/" + name, 1, true);
  }

  /** Lookups of a directory in the root, until the root has 2^32 - 1 references. */
  method LookUp(fs: Fs, name: Name)
    requires fs.Valid() && fs.takes == 1 && fs.Shape() == map[[] := true, [name] := true]
    modifies fs`takes, Nodes(fs.tree)
    ensures fs.Valid() && fs.tree == old(fs.tree) && [name] in fs.tree
    ensures fs.root.refs == U32_LIMIT - 1 && fs.tree[[name]].refs <= 2
  {
    hide TreeOk, RefsOk, Fs.Within, ShapeOf, Parse, SlashEnd, WhyNot, ShortCode, Signed32;
    OneComponent(name);
    ghost var tree := fs.tree;
    ShapeAt(tree, [name]);
    RootThere(fs.root, tree);
    RootCount(fs);
    NodeCount(fs, [name]);
    while fs.root.refcnt != -1
      invariant fs.Valid() && fs.tree == tree && fs.Shape() == map[[] := true, [name] := true]
      invariant tree[[name]].refs <= 2
      invariant fs.takes <= fs.root.refs < U32_LIMIT && fs.root.refcnt == Signed32(fs.root.refs)
      decreases U32_LIMIT - fs.root.refs
    {
      Signed32Is(fs.root.refs);
      var code := fs.Getdents("/" + name, 1);
      assert [] < [name];
      RootCount(fs);
    }
    Signed32Is(fs.root.refs);
  }

  /** One more walk to the directory, call by call. */
  method OneMoreWalk(fs: Fs, name: Name)
    requires fs.Valid() && [name] in fs.tree && fs.tree[[name]].refs <= 2
    modifies Nodes(fs.tree)
    ensures TreeOk(fs.root, fs.tree) && RefsOk(fs.tree, null) && fs.root.refs == old(fs.root.refs) + 1
  {
    hide TreeOk, RefsOk, Fs.Within, Signed32, Shifted;
    RootThere(fs.root, fs.tree);
    OnePath(fs.root, fs.tree, [name]);
    HeldIsNode(fs.tree, [name]);
    assert [] + [name] == [name];
    var child, code := fs.FindChild(fs.root, name, []);
    fs.Get(fs.root);
    fs.Follow(fs.root, child, [], name);
    fs.PutLinked(child);
  }

  /** A walk that stops at the root when the count of the root has wrapped. */
  method WalkAtRoot(fs: Fs)
    requires TreeOk(fs.root, fs.tree) && RefsOk(fs.tree, null) && fs.root.refs == U32_LIMIT
    modifies Nodes(fs.tree)
    ensures TreeOk(fs.root, fs.tree) && fs.root in Nodes(fs.tree) && fs.root.freed
  {
    hide TreeOk, RefsOk, Signed32, Shifted, UpOk, Going;
    RootThere(fs.root, fs.tree);
    fs.Get(fs.root);
    WhenFreed(fs.tree, fs.root, fs.root);
    ParentSet(fs.tree, []);
    RootAlone(fs.root);
    DentryPut(fs.root, [fs.root]);
  }

  lemma RootAlone(d: Dentry)
    requires d.parent == null
    ensures UpOk([d])
  {
  }

  lemma Signed32Is(n: int)
    requires 0 <= n < U32_LIMIT
    ensures Signed32(n) == -1 <==> n == U32_LIMIT - 1
  {
  }

  lemma NodeCount(fs: Fs, p: Path)
    requires fs.Valid() && p in fs.tree
    ensures fs.tree[p].refs <= 1 + fs.takes
  {
    FewAt(fs.tree, p, 1 + fs.takes);
  }

  lemma RootCount(fs: Fs)
    requires fs.Valid()
    ensures 1 <= fs.root.refs <= 1 + fs.takes && fs.root.refcnt == Signed32(fs.root.refs) && fs.root.parent == null
  {
    RootThere(fs.root, fs.tree);
    WhenFreed(fs.tree, fs.root, null);
    FewNode(fs.tree, fs.root, 1 + fs.takes);
    assert BackIs(fs.tree, Counts(fs.tree), []);
  }

  /** 2^32 references: from an empty file system, one directory and lookups of it, until dentry_put
      frees the root while it is linked. */
  method RootFreed() returns (fs: Fs)
    ensures TreeOk(fs.root, fs.tree) && fs.root in Nodes(fs.tree) && fs.root.freed
  {
    hide TreeOk, RefsIs, Fs.Within, Fs.Shape, Signed32, Parse, SlashEnd;
    fs := new Fs();
    ghost var tree0 := fs.tree;
    assert tree0[[]] == fs.root && Nodes(tree0) == {fs.root};
    var overrun := MakeFirst(fs, "a");
    AddedNodes(tree0, fs.tree, ["a"]);
    OneComponent("a");
    LookUp(fs, "a");
    OneMoreWalk(fs, "a");
    WalkAtRoot(fs);
  }
}
