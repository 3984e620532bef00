/** Filling the file tree from the boot image (extract_tar, src/fs/bootimg.c:107-155): the archive of
    `Tar`, the operations of `Dentries` and the files of `RamFile` together. */
module BootImage {
  import opened Errno
  import opened Memory
  import opened Paths
  import opened Dentries
  import F = RamFile
  import opened Tar

  // ----- the file system as user code sees it

  datatype Disk = Disk(shape: Shape, bytes: map<Path, seq<byte>>)

  ghost function Files(tree: Tree): set<F.RamFile> {
    set p | p in tree :: tree[p].file
  }

  /** Every node has its own file data. */
  ghost predicate FilesOk(tree: Tree)
    reads Files(tree)`size, Files(tree)`allocSize, Files(tree)`data, Files(tree)`offset, Files(tree)`copied
  {
    && (forall p :: p in tree ==> tree[p].file.Valid())
    && (forall p, q :: p in tree && q in tree && tree[p].file == tree[q].file ==> p == q)
  }

  ghost predicate NoneOpen(tree: Tree)
    reads Nodes(tree)`handles
  {
    forall p :: p in tree ==> tree[p].handles == 0
  }

  ghost predicate FsOk(fs: Fs)
    reads fs`tree, fs`takes, Nodes(fs.tree)`children, Nodes(fs.tree)`refcnt, Nodes(fs.tree)`refs
    reads Nodes(fs.tree)`parent, Nodes(fs.tree)`handles, Nodes(fs.tree)`freed
    reads Files(fs.tree)`size, Files(fs.tree)`allocSize, Files(fs.tree)`data, Files(fs.tree)`offset
    reads Files(fs.tree)`copied
  {
    fs.Valid() && FilesOk(fs.tree) && NoneOpen(fs.tree)
  }

  ghost function BytesOf(tree: Tree): map<Path, seq<byte>>
    requires FilesOk(tree)
    reads Files(tree)`size, Files(tree)`allocSize, Files(tree)`data, Files(tree)`offset, Files(tree)`copied
  {
    map p | p in tree && !tree[p].isDir :: tree[p].file.Contents().bytes
  }

  ghost function DiskOf(fs: Fs): Disk
    requires FsOk(fs)
    reads fs`tree, fs`takes, Nodes(fs.tree)`children, Nodes(fs.tree)`refcnt, Nodes(fs.tree)`refs
    reads Nodes(fs.tree)`parent, Nodes(fs.tree)`handles, Nodes(fs.tree)`freed
    reads Files(fs.tree)`size, Files(fs.tree)`allocSize, Files(fs.tree)`data, Files(fs.tree)`offset
    reads Files(fs.tree)`copied
  {
    Disk(fs.Shape(), BytesOf(fs.tree))
  }

  // ----- what one member does

  /** Which allocations succeed while a member is extracted. */
  datatype Room = Room(copies: nat, node: bool, handle: bool, block: F.Kmalloc)

  /** "/" and the name of the member. */
  function PathName(e: Entry): (s: string)
    ensures s != "" && s[0] == '/' && |s| == 1 + |e.name|
    ensures forall i :: 0 <= i < |e.name| ==> s[1 + i] == e.name[i] as char
  {
    "/" + seq(|e.name|, i requires 0 <= i < |e.name| => e.name[i] as char)
  }

  /** The type bytes of the ustar format: '0', or 0 in older archives, for a file. */
  predicate IsRegular(e: Entry) { e.typeflag as char == '0' || e.typeflag == 0 }

  predicate IsDirectory(e: Entry) { e.typeflag as char == '5' }

  /** The types of members that are extracted: files of both kinds, and directories. */
  predicate Known(e: Entry) { IsRegular(e) || IsDirectory(e) }

  /** The name of a member that is extracted has a component. */
  predicate Named(e: Entry) { Known(e) ==> NamesOf(PathName(e)) != [] }

  /** A file is made or emptied, and holds the data if there is a block for them. */
  ghost function WithFile(d: Disk, p: Path, data: seq<byte>, r: Room): Disk
    requires p != []
  {
    var made := Creates(d.shape, p, true, r.copies, r.node);
    var shape := if made then d.shape[p := false] else d.shape;
    if OpenCode(d.shape, p, true, false, r.copies, r.node, r.handle) == 0 then
      Disk(shape, d.bytes[p := if data == [] || r.block(F.RoundChunk(|data|)).Some? then data else []])
    else Disk(shape, if made then d.bytes[p := []] else d.bytes)
  }

  /** What fails is reported and passed over. */
  ghost function Extracted(d: Disk, e: Entry, r: Room): Disk
    requires Named(e)
  {
    var p := NamesOf(PathName(e));
    match KindOf(e)
    case Directory =>
      if MkdirCode(d.shape, p, r.copies, r.node) == 0 then d.(shape := d.shape[p := true]) else d
    case Regular => WithFile(d, p, e.data, r)
    case Unknown => d
  }

  ghost function ExtractedAll(d: Disk, es: seq<Entry>, n: nat, room: nat -> Room): Disk
    requires forall e :: e in es ==> Named(e)
    decreases |es|
  {
    if es == [] then d else ExtractedAll(Extracted(d, es[0], room(n)), es[1..], n + 1, room)
  }

  // ----- the names fit

  lemma {:induction false} NamesShort(s: string, p: nat)
    requires p <= |s| && (p < |s| ==> s[p] != '/')
    ensures forall n :: n in Parse(s, p).names ==> |n| <= |s| - p
    decreases |s| - p
  {
    if p < |s| {
      var next := SlashEnd(s, NameEnd(s, p));
      NamesShort(s, next);
      assert Parse(s, p).names == [s[p..NameEnd(s, p)]] + Parse(s, next).names;
    }
  }

  lemma NameIsShort(e: Entry)
    requires NamesOf(PathName(e)) != [] && |e.name| < 100
    ensures NameFits(LastOf(NamesOf(PathName(e))))
  {
    var s := PathName(e);
    NamesShort(s, SlashEnd(s, 0));
    assert LastOf(NamesOf(s)) in NamesOf(s);
  }

  // ----- the files of a tree

  lemma FilesOne(d: Dentry)
    requires IsNew(d.file) && d.isDir
    ensures
      var tree: Tree := map[[] := d];
      FilesOk(tree) && BytesOf(tree) == map[]
  {
  }

  /** A node with a new file more. */
  lemma FilesAdded(tree0: Tree, tree: Tree, p: Path)
    requires FilesOk(tree0) && Adds(tree0, tree, p) && IsNew(tree[p].file) && tree[p].file !in Files(tree0)
    ensures FilesOk(tree) && Files(tree) == Files(tree0) + {tree[p].file}
    ensures BytesOf(tree) == if tree[p].isDir then BytesOf(tree0) else BytesOf(tree0)[p := []]
  {
    forall f ensures f in Files(tree) <==> f in Files(tree0) + {tree[p].file} {
      if f in Files(tree0) {
        var q :| q in tree0 && tree0[q].file == f;
        assert tree[q].file == f;
      }
    }
  }

  // ----- extract_tar

  /** The DIRTYPE case. */
  method MakeDir(fs: Fs, path: string, r: Room)
    requires FsOk(fs) && path != "" && path[0] == '/' && NamesOf(path) != [] && NameFits(LastOf(NamesOf(path)))
    requires fs.takes + 3 <= U32_LIMIT
    modifies fs`tree, fs`takes, Nodes(fs.tree)
    ensures FsOk(fs) && fs.takes <= old(fs.takes) + 2
    ensures fresh(Nodes(fs.tree) - old(Nodes(fs.tree))) && fresh(Files(fs.tree) - old(Files(fs.tree)))
    ensures
      var d, p := old(DiskOf(fs)), NamesOf(path);
      DiskOf(fs) == if MkdirCode(d.shape, p, r.copies, r.node) == 0 then d.(shape := d.shape[p := true]) else d
  {
    hide Fs.Valid, MkdirCode, FilesOk, NoneOpen, BytesOf, IsNew, ShapeOf, Files, Nodes, NamesOf, NameFits;
    ghost var tree0 := fs.tree;
    AllThere(tree0);
    var code, overrun := fs.Mkdir(path, r.copies, r.node);
    if code == 0 {
      FilesAdded(tree0, fs.tree, NamesOf(path));
      NoneOpenAdded(tree0, fs.tree, NamesOf(path));
      AddedNodes(tree0, fs.tree, NamesOf(path));
      IsDirAt(fs, NamesOf(path));
    }
  }

  /** What vfs_open with O_TRUNC and vfs_write do to the data of a file. */
  method FillFile(f: F.RamFile, data: seq<byte>, block: F.Kmalloc)
    requires f.Valid() && |data| <= MAX_S32 && F.KmallocOk(block)
    modifies f
    ensures f.Valid() && f.Contents().bytes == if data == [] || block(F.RoundChunk(|data|)).Some? then data else []
  {
    hide F.RoundChunk, F.KmallocOk;
    f.Open(false, true, false, true);              // O_WRONLY | O_CREAT | O_TRUNC
    assert f.Contents() == F.Cursor([], 0);
    var r := f.Write(data, block);
    if r.Ok? { assert [] + data + [] == data; }
  }

  /** The same, seen among the other files. */
  method FillAt(ghost tree: Tree, ghost p: Path, d: Dentry, data: seq<byte>, block: F.Kmalloc)
    requires FilesOk(tree) && p in tree && d == tree[p] && !d.isDir && |data| <= MAX_S32 && F.KmallocOk(block)
    modifies d.file
    ensures FilesOk(tree)
    ensures BytesOf(tree) ==
      old(BytesOf(tree))[p := if data == [] || block(F.RoundChunk(|data|)).Some? then data else []]
  {
    hide F.RoundChunk, F.KmallocOk, F.RamFile.Valid, F.RamFile.Contents;
    label Before:
    FillFile(d.file, data, block);
    assert forall q :: q in tree && q != p ==> unchanged@Before(tree[q].file);
  }

  /** Only this file is open. */
  ghost predicate OpenOnly(tree: Tree, file: Dentry?)
    reads Nodes(tree)`handles
  {
    forall x :: x in Nodes(tree) ==> x.handles == if x == file then 1 else 0
  }

  /** The vfs_open of the REGTYPE case, up to the new handle. */
  method OpenMember(fs: Fs, path: string, r: Room) returns (file: Dentry?)
    requires FsOk(fs) && path != "" && path[0] == '/' && NamesOf(path) != [] && NameFits(LastOf(NamesOf(path)))
    requires fs.takes + 3 <= U32_LIMIT
    modifies fs`tree, fs`takes, Nodes(fs.tree)
    ensures fs.Valid() && FilesOk(fs.tree) && OpenOnly(fs.tree, file) && fs.takes <= old(fs.takes) + 2
    ensures fresh(Nodes(fs.tree) - old(Nodes(fs.tree))) && fresh(Files(fs.tree) - old(Files(fs.tree)))
    ensures
      var d, p := old(DiskOf(fs)), NamesOf(path);
      var made := Creates(d.shape, p, true, r.copies, r.node);
      && fs.Shape() == (if made then d.shape[p := false] else d.shape)
      && BytesOf(fs.tree) == (if made then d.bytes[p := []] else d.bytes)
      && (file != null <==> OpenCode(d.shape, p, true, false, r.copies, r.node, r.handle) == 0)
      && (file != null ==> p in fs.tree && file == fs.tree[p] && !file.isDir)
  {
    hide Fs.Valid, OpenCode, FilesOk, BytesOf, IsNew, ShapeOf, Files, Nodes, NamesOf, NameFits;
    ghost var tree0, p := fs.tree, NamesOf(path);
    AllThere(tree0);
    NoneOpenNodes(tree0);
    var code, overrun;
    file, code, overrun := fs.Open(path, true, false, r.copies, r.node, r.handle);
    if Adds(tree0, fs.tree, p) {
      FilesAdded(tree0, fs.tree, p);
      AddedNodes(tree0, fs.tree, p);
      IsDirAt(fs, p);
    }
  }

  lemma NoneOpenNodes(tree: Tree)
    ensures NoneOpen(tree) <==> forall x :: x in Nodes(tree) ==> x.handles == 0
  {
    if forall x :: x in Nodes(tree) ==> x.handles == 0 {
      forall p | p in tree ensures tree[p].handles == 0 { assert tree[p] in Nodes(tree); }
    }
  }

  lemma InSets(tree: Tree, p: Path)
    requires p in tree
    ensures tree[p] in Nodes(tree) && tree[p].file in Files(tree)
  {
  }

  /** The REGTYPE case. */
  method MakeFile(fs: Fs, path: string, data: seq<byte>, r: Room)
    requires FsOk(fs) && path != "" && path[0] == '/' && NamesOf(path) != [] && NameFits(LastOf(NamesOf(path)))
    requires fs.takes + 3 <= U32_LIMIT
    requires |data| <= MAX_S32 && F.KmallocOk(r.block)
    modifies fs`tree, fs`takes, Nodes(fs.tree), Files(fs.tree)
    ensures FsOk(fs) && fs.takes <= old(fs.takes) + 2
    ensures fresh(Nodes(fs.tree) - old(Nodes(fs.tree))) && fresh(Files(fs.tree) - old(Files(fs.tree)))
    ensures DiskOf(fs) == WithFile(old(DiskOf(fs)), NamesOf(path), data, r)
  {
    hide Fs.Valid, OpenCode, FilesOk, NoneOpen, BytesOf, ShapeOf, Files, Nodes, NamesOf, NameFits, F.KmallocOk,
        F.RoundChunk;
    ghost var p := NamesOf(path);
    var file := OpenMember(fs, path, r);
    AllThere(fs.tree);
    NoneOpenNodes(fs.tree);
    if file != null {
      InSets(fs.tree, p);
      FillAt(fs.tree, p, file, data, r.block);
      fs.Close(file);
      NoneOpenNodes(fs.tree);
    }
  }

  lemma AllThere(tree: Tree)
    ensures forall f :: f in Files(tree) ==> allocated(f)
    ensures forall d :: d in Nodes(tree) ==> allocated(d)
  {
  }

  lemma NoneOpenAdded(tree0: Tree, tree: Tree, p: Path)
    requires NoneOpen(tree0) && Adds(tree0, tree, p) && tree[p].handles == 0
    ensures NoneOpen(tree)
  {
  }

  lemma IsDirAt(fs: Fs, p: Path)
    requires p in fs.tree
    ensures p in fs.Shape() && fs.Shape()[p] == fs.tree[p].isDir
  {
  }

  /** One round of the loop of extract_tar. */
  method ExtractMember(fs: Fs, e: Entry, r: Room)
    requires FsOk(fs) && Named(e) && |e.name| < 100 && |e.data| <= MAX_S32 && F.KmallocOk(r.block)
    requires fs.takes + 3 <= U32_LIMIT
    modifies fs`tree, fs`takes, Nodes(fs.tree), Files(fs.tree)
    ensures FsOk(fs) && fs.takes <= old(fs.takes) + 2
    ensures fresh(Nodes(fs.tree) - old(Nodes(fs.tree))) && fresh(Files(fs.tree) - old(Files(fs.tree)))
    ensures DiskOf(fs) == Extracted(old(DiskOf(fs)), e, r)
  {
    hide FsOk, DiskOf, Files, Nodes, NamesOf, PathName, F.KmallocOk, WithFile, NameFits;
    var path := PathName(e);
    match KindOf(e) {
      case Regular =>
        NameIsShort(e);
        MakeFile(fs, path, e.data, r);
      case Directory =>
        NameIsShort(e);
        MakeDir(fs, path, r);
      case Unknown =>
    }
  }

  /** One round of the loop of extract_tar: the member at p. */
  method ExtractAt(fs: Fs, a: seq<byte>, p: nat, r: Room, ghost e0: Entry) returns (size: nat)
    requires HeaderFor(a, p, e0) && p + BLOCK + |e0.data| <= |a| && a[p + BLOCK..p + BLOCK + |e0.data|] == e0.data
    requires FsOk(fs) && Named(e0) && |e0.name| < 100 && |e0.data| <= MAX_S32 && F.KmallocOk(r.block)
    requires fs.takes + 3 <= U32_LIMIT
    modifies fs`tree, fs`takes, Nodes(fs.tree), Files(fs.tree)
    ensures FsOk(fs) && size == |e0.data| && fs.takes <= old(fs.takes) + 2
    ensures fresh(Nodes(fs.tree) - old(Nodes(fs.tree))) && fresh(Files(fs.tree) - old(Files(fs.tree)))
    ensures DiskOf(fs) == Extracted(old(DiskOf(fs)), e0, r)
  {
    hide FsOk, DiskOf, Extracted, F.KmallocOk, Named, SizeField;
    AllThere(fs.tree);
    var name := NameOf(a, p, e0);
    size := SizeOf(a, p, e0);
    ExtractMember(fs, Entry(name, a[p + 156], a[p + BLOCK..p + BLOCK + size]), r);
  }

  /** What holds at a member of an archive. */
  lemma MemberFits(a: seq<byte>, p: nat, es: seq<Entry>)
    requires Archive(a, p, es) && es != []
    ensures |es[0].name| < 100 && |es[0].data| <= MAX_S32
  {
  }

  lemma OneOfAll(d: Disk, es: seq<Entry>, n: nat, room: nat -> Room)
    requires es != [] && forall e :: e in es ==> Named(e)
    ensures ExtractedAll(d, es, n, room) == ExtractedAll(Extracted(d, es[0], room(n)), es[1..], n + 1, room)
  {
  }

  lemma NothingLeft(d: Disk, n: nat, room: nat -> Room)
    ensures ExtractedAll(d, [], n, room) == d
  {
  }

  /** extract_tar on a well-formed image: the file tree afterwards is the one that the members make,
      in their order, each with exactly its data. */
  method ExtractTar(fs: Fs, a: seq<byte>, room: nat -> Room, ghost es: seq<Entry>) returns (ok: bool)
    requires FsOk(fs) && Archive(a, 0, es) && forall e :: e in es ==> Named(e)
    requires forall n: nat {:trigger room(n)} :: F.KmallocOk(room(n).block)
    requires fs.takes + 2 * |es| + 1 <= U32_LIMIT
    modifies fs`tree, fs`takes, Nodes(fs.tree), Files(fs.tree)
    ensures es != [] ==> ok
    ensures FsOk(fs) && DiskOf(fs) == ExtractedAll(old(DiskOf(fs)), es, 0, room)
  {
    hide HeaderFor, Archive, Padding, RoundUp, FsOk, DiskOf, Extracted, F.KmallocOk, Named, SizeField, NamesOf,
        ExtractedAll;
    if es != [] { Member(a, 0, es); }
    NothingLeft(DiskOf(fs), 0, room);
    if |a| < 500 {                                 // sizeof(tar_header_t)
      return false;
    }
    if a[257] != 0x75 {                            // memcmp looks at the first byte only
      return false;
    }
    var p, n := 0, 0;
    ghost var rest := es;
    while p < |a|
      invariant p <= |a| && Archive(a, p, rest) && (forall e :: e in rest ==> Named(e))
      invariant fs.takes + 2 * |rest| + 1 <= U32_LIMIT
      invariant FsOk(fs) && ExtractedAll(DiskOf(fs), rest, n, room) == ExtractedAll(old(DiskOf(fs)), es, 0, room)
      invariant fresh(Nodes(fs.tree) - old(Nodes(fs.tree))) && fresh(Files(fs.tree) - old(Files(fs.tree)))
      decreases |a| - p
    {
      NamesAreNotEmpty(a, p, rest);
      if a[p] == 0 && a[p + 1] == 0 {
        break;
      }
      Member(a, p, rest);
      MemberFits(a, p, rest);
      OneOfAll(DiskOf(fs), rest, n, room);
      var size := ExtractAt(fs, a, p, room(n), rest[0]);
      RoundUpPads(size);
      p := p + BLOCK;
      if size != 0 {
        p := p + RoundUp(size);
      }
      rest := rest[1..];
      n := n + 1;
    }
    AtEnd(a, p, rest);
    NothingLeft(DiskOf(fs), n, room);
    return true;
  }

  // ----- a tree written and read back

  function PathAt(es: seq<Entry>, i: nat): Path
    requires i < |es|
  {
    NamesOf(PathName(es[i]))
  }

  /** The first member of its name. */
  ghost predicate IsFirst(es: seq<Entry>, i: nat)
    requires i < |es|
  {
    forall k: nat {:trigger PathAt(es, k)} :: k < i && Known(es[k]) ==> PathAt(es, k) != PathAt(es, i)
  }

  /** The last file of its name. */
  ghost predicate IsLast(es: seq<Entry>, i: nat)
    requires i < |es|
  {
    forall k: nat {:trigger PathAt(es, k)} :: i < k < |es| && IsRegular(es[k]) ==> PathAt(es, k) != PathAt(es, i)
  }

  /** Each file and directory is behind the directory it lies in. Names may come again, and members
      of other types may be anywhere. */
  ghost predicate InOrder(es: seq<Entry>) {
    forall i: nat {:trigger PathAt(es, i)} :: i < |es| && Known(es[i]) ==>
      && PathAt(es, i) != []
      && (DirOf(PathAt(es, i)) == [] || exists j: nat {:trigger PathAt(es, j)} ::
           j < i && IsFirst(es, j) && IsDirectory(es[j]) && PathAt(es, j) == DirOf(PathAt(es, i)))
  }

  /** The disk holds the members of these types, and nothing else but the root. */
  ghost predicate IsTreeOf(d: Disk, es: seq<Entry>) {
    HoldsAll(d, es) && HoldsOnly(d, es)
  }

  /** Of members with one name the first says whether it is a directory, and the last file what it
      holds. */
  ghost predicate HoldsAll(d: Disk, es: seq<Entry>) {
    && [] in d.shape && d.shape[[]]
    && (forall i: nat {:trigger PathAt(es, i)} :: i < |es| && Known(es[i]) ==> PathAt(es, i) in d.shape)
    && (forall i: nat {:trigger PathAt(es, i)} :: i < |es| && Known(es[i]) && IsFirst(es, i) ==>
         (d.shape[PathAt(es, i)] <==> IsDirectory(es[i])))
    && (forall i: nat {:trigger PathAt(es, i)} :: i < |es| && IsRegular(es[i]) && IsLast(es, i) ==>
         d.shape[PathAt(es, i)] || (PathAt(es, i) in d.bytes && d.bytes[PathAt(es, i)] == es[i].data))
  }

  ghost predicate IsOneOf(es: seq<Entry>, p: Path) {
    exists i: nat {:trigger PathAt(es, i)} :: i < |es| && Known(es[i]) && PathAt(es, i) == p
  }

  ghost predicate HoldsOnly(d: Disk, es: seq<Entry>) {
    && (forall p :: p in d.shape ==> p == [] || IsOneOf(es, p))
    && (forall p :: p in d.bytes ==> p in d.shape && !d.shape[p])
  }

  /** No allocation fails. */
  predicate Enough(e: Entry, r: Room) {
    && r.copies >= |NamesOf(PathName(e))| && r.node && r.handle
    && (e.data == [] || r.block(F.RoundChunk(|e.data|)).Some?)
  }

  /** A member of another type leaves the disk as it was. */
  lemma OthersSkipped(d: Disk, e: Entry, r: Room)
    requires !Known(e)
    ensures Named(e) && Extracted(d, e, r) == d
  {
  }

  lemma ExtractedOver(d: Disk, e: Entry, r: Room)
    requires Enough(e, r) && Known(e) && NamesOf(PathName(e)) != [] && IsDir(d.shape, DirOf(NamesOf(PathName(e))))
    ensures Extracted(d, e, r) == Over(d, NamesOf(PathName(e)), e)
  {
    hide NamesOf, PathName, F.RoundChunk;
  }

  /** The directory of the last member is there. */
  lemma PlaceThere(d: Disk, es: seq<Entry>, e: Entry)
    requires HoldsAll(d, es) && InOrder(es + [e]) && Known(e)
    ensures NamesOf(PathName(e)) != [] && IsDir(d.shape, DirOf(NamesOf(PathName(e))))
  {
    hide NamesOf, PathName;
    var es', p := es + [e], NamesOf(PathName(e));
    assert PathAt(es', |es|) == p;
    if DirOf(p) != [] {
      var j: nat :| j < |es| && IsFirst(es', j) && IsDirectory(es'[j]) && PathAt(es', j) == DirOf(p);
      assert PathAt(es, j) == DirOf(p);
      FirstStays(es, e, j);
    }
  }

  lemma FirstStays(es: seq<Entry>, e: Entry, i: nat)
    requires i < |es|
    ensures IsFirst(es + [e], i) <==> IsFirst(es, i)
  {
    hide NamesOf, PathName;
    forall k: nat | k < |es| ensures PathAt(es + [e], k) == PathAt(es, k) {}
  }

  /** One member more. */
  function Over(d: Disk, p: Path, e: Entry): Disk {
    if p !in d.shape then
      var dir := IsDirectory(e);
      Disk(d.shape[p := dir], if dir then d.bytes else d.bytes[p := e.data])
    else if !IsDirectory(e) && !d.shape[p] then d.(bytes := d.bytes[p := e.data])
    else d
  }

  lemma AllStep(d: Disk, es: seq<Entry>, e: Entry, p: Path)
    requires HoldsAll(d, es) && HoldsOnly(d, es) && Known(e) && p == NamesOf(PathName(e)) != []
    ensures HoldsAll(Over(d, p, e), es + [e])
  {
    hide NamesOf, PathName, IsFirst, IsLast;
    var es', d' := es + [e], Over(d, p, e);
    forall i: nat | i < |es'| ensures PathAt(es', i) == if i < |es| then PathAt(es, i) else p {}
    forall i: nat | i < |es'| && Known(es'[i]) && IsFirst(es', i)
      ensures d'.shape[PathAt(es', i)] <==> IsDirectory(es'[i])
    {
      FirstStep(es, e, i);
    }
    forall i: nat | i < |es'| && IsRegular(es'[i]) && IsLast(es', i) && !d'.shape[PathAt(es', i)]
      ensures PathAt(es', i) in d'.bytes && d'.bytes[PathAt(es', i)] == es'[i].data
    {
      LastStep(es, e, i);
    }
  }

  lemma FirstStep(es: seq<Entry>, e: Entry, i: nat)
    requires i <= |es| && IsFirst(es + [e], i)
    ensures i < |es| ==> IsFirst(es, i)
    ensures i == |es| ==> !IsOneOf(es, NamesOf(PathName(e)))
  {
    hide NamesOf, PathName;
    forall k: nat | k < |es| ensures PathAt(es + [e], k) == PathAt(es, k) {}
  }

  lemma LastStep(es: seq<Entry>, e: Entry, i: nat)
    requires i <= |es| && IsLast(es + [e], i)
    ensures i < |es| ==> IsLast(es, i) && (IsRegular(e) ==> PathAt(es, i) != NamesOf(PathName(e)))
  {
    hide NamesOf, PathName;
    forall k: nat | k < |es| ensures PathAt(es + [e], k) == PathAt(es, k) {}
    assert PathAt(es + [e], |es|) == NamesOf(PathName(e));
  }

  lemma OnlyStep(d: Disk, es: seq<Entry>, e: Entry, p: Path)
    requires HoldsOnly(d, es) && p == NamesOf(PathName(e)) && Known(e)
    ensures HoldsOnly(Over(d, p, e), es + [e])
  {
    hide NamesOf, PathName;
    var es', d' := es + [e], Over(d, p, e);
    assert PathAt(es', |es|) == p;
    forall q | q in d'.shape && q != [] ensures IsOneOf(es', q) {
      if q != p { StillOneOf(es, e, q); }
    }
  }

  lemma StillOneOf(es: seq<Entry>, e: Entry, p: Path)
    requires IsOneOf(es, p)
    ensures IsOneOf(es + [e], p)
  {
    hide NamesOf, PathName;
    var i: nat :| i < |es| && Known(es[i]) && PathAt(es, i) == p;
    assert PathAt(es + [e], i) == p;
  }

  lemma SkipStep(d: Disk, es: seq<Entry>, e: Entry)
    requires IsTreeOf(d, es) && !Known(e)
    ensures IsTreeOf(d, es + [e])
  {
    hide NamesOf, PathName;
    forall i: nat | i < |es| ensures PathAt(es + [e], i) == PathAt(es, i) {}
    forall i: nat | i < |es| && IsFirst(es + [e], i) ensures IsFirst(es, i) { FirstStep(es, e, i); }
    forall i: nat | i < |es| && IsLast(es + [e], i) ensures IsLast(es, i) { LastStep(es, e, i); }
    forall p | p in d.shape && p != [] ensures IsOneOf(es + [e], p) { StillOneOf(es, e, p); }
  }

  lemma TreeStep(d: Disk, es: seq<Entry>, e: Entry, r: Room)
    requires IsTreeOf(d, es) && InOrder(es + [e]) && Enough(e, r)
    ensures Named(e) && IsTreeOf(Extracted(d, e, r), es + [e])
  {
    hide NamesOf, PathName, Extracted, Enough, InOrder, HoldsAll, HoldsOnly;
    if Known(e) {
      PlaceThere(d, es, e);
      ExtractedOver(d, e, r);
      AllStep(d, es, e, NamesOf(PathName(e)));
      OnlyStep(d, es, e, NamesOf(PathName(e)));
    } else {
      OthersSkipped(d, e, r);
      SkipStep(d, es, e);
    }
  }

  lemma {:induction false} ExtractedLast(d: Disk, es: seq<Entry>, e: Entry, n: nat, room: nat -> Room)
    requires forall x :: x in es + [e] ==> Named(x)
    ensures (forall x :: x in es ==> Named(x)) && Named(e)
    ensures ExtractedAll(d, es + [e], n, room) == Extracted(ExtractedAll(d, es, n, room), e, room(n + |es|))
    decreases |es|
  {
    hide Named, Extracted;
    assert e in es + [e];
    if es == [] {
      assert es + [e] == [e];
    } else {
      assert (es + [e])[1..] == es[1..] + [e];
      ExtractedLast(Extracted(d, es[0], room(n)), es[1..], e, n + 1, room);
    }
  }

  function Blank(): Disk { Disk(map[[] := true], map[]) }

  /** Extracting into an empty tree gives exactly the tree of the members. */
  lemma {:induction false} ExtractedTree(es: seq<Entry>, room: nat -> Room)
    requires InOrder(es) && forall n: nat :: n < |es| ==> Enough(es[n], room(n))
    ensures forall e :: e in es ==> Named(e)
    ensures IsTreeOf(ExtractedAll(Blank(), es, 0, room), es)
    decreases |es|
  {
    hide Enough, IsTreeOf, Extracted, Named, NamesOf, PathName;
    if es == [] {
      BlankIsTree();
    } else {
      var n := |es| - 1;
      assert es == es[..n] + [es[n]];
      InOrderFront(es);
      ExtractedTree(es[..n], room);
      TreeStep(ExtractedAll(Blank(), es[..n], 0, room), es[..n], es[n], room(n));
      ExtractedLast(Blank(), es[..n], es[n], 0, room);
    }
  }

  lemma BlankIsTree()
    ensures IsTreeOf(Blank(), [])
  {
  }

  lemma InOrderFront(es: seq<Entry>)
    requires InOrder(es) && es != []
    ensures InOrder(es[..|es| - 1])
  {
    hide NamesOf, PathName, IsFirst;
    var front, e := es[..|es| - 1], es[|es| - 1];
    assert front + [e] == es;
    forall i: nat | i < |front| ensures PathAt(front, i) == PathAt(es, i) {}
    forall i: nat | i < |front| && Known(front[i]) && DirOf(PathAt(front, i)) != []
      ensures exists j: nat {:trigger PathAt(front, j)} ::
        j < i && IsFirst(front, j) && IsDirectory(front[j]) && PathAt(front, j) == DirOf(PathAt(front, i))
    {
      var j: nat :| j < i && IsFirst(es, j) && IsDirectory(es[j]) && PathAt(es, j) == DirOf(PathAt(es, i));
      FirstStays(front, e, j);
      assert PathAt(front, j) == PathAt(es, j);
    }
  }

  /** A tree written as a ustar archive and extracted into an empty file system is that tree. */
  method RoundTrip(es: seq<Entry>, ms: seq<Meta>, room: nat -> Room) returns (fs: Fs)
    requires MembersOk(es, ms) && InOrder(es) && 2 * |es| < U32_LIMIT
    requires forall n: nat {:trigger room(n)} :: F.KmallocOk(room(n).block) && (n < |es| ==> Enough(es[n], room(n)))
    ensures FsOk(fs) && IsTreeOf(DiskOf(fs), es)
  {
    hide InOrder, IsTreeOf, Enough, MembersOk, Archive, FsOk, DiskOf, F.KmallocOk, Named, Extracted, ExtractedAll,
        Write;
    fs := new Fs();
    NewFs(fs);
    var a := Write(es, ms) + Zeros(2 * BLOCK);
    WrittenIsArchive([], es, ms, Zeros(2 * BLOCK));
    assert a == [] + Write(es, ms) + Zeros(2 * BLOCK);
    ExtractedTree(es, room);
    var ok := ExtractTar(fs, a, room, es);
  }

  lemma NewFs(fs: Fs)
    requires fs.Valid() && fs.Shape() == map[[] := true] && fs.tree == map[[] := fs.root] && fs.root.isDir
    requires IsNew(fs.root.file) && fs.root.handles == 0
    ensures FsOk(fs) && DiskOf(fs) == Blank()
  {
    FilesOne(fs.root);
  }
}
