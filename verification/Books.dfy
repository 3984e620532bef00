/** The reference counts `pages[f].count` and the set of allocated frames agree with what the
    frames are used for. */
module Books {
  import opened Memory
  import opened SharedPages
  import opened PageTables
  import opened CloneTables
  import FT = FreeTables
  import opened GrowTables

  /** What the count of an allocated frame must be. */
  function Expected(o: Owner, procs: Processes, f: nat): int {
    match o
    case DataFrame => |Refs(procs, f)|
    case KernelFrame(n) => n
    case _ => 1
  }

  /** Frames with an owner are the allocated ones and the static top-level table `boot`. A user
      frame is counted once per entry that names it, any other frame of a process once; the kernel's
      own frames keep the count they had when the first process started. */
  ghost predicate Counted(m: Snap, used: set<nat>, counts: seq<int>, boot: nat) {
    && boot !in used
    && m.owner.Keys == used + {boot}
    && (boot in m.owner ==> m.owner[boot] == TableFrame(Node(1, L4)) || m.owner[boot].KernelFrame?)
    && (forall f :: f in used ==> f < |counts|)
    && (forall f :: f in used ==> counts[f] == Expected(m.owner[f], m.procs, f))
  }

  lemma SameRefs(a: Processes, b: Processes, f: nat)
    requires forall k {:trigger Names(b, k, f)} :: Names(a, k, f) <==> Names(b, k, f)
    ensures Refs(a, f) == Refs(b, f)
  {
  }

  lemma RefsPlusOne(a: Processes, b: Processes, f: nat, x: Key)
    requires !Names(a, x, f)
    requires forall k {:trigger Names(b, k, f)} :: Names(b, k, f) <==> Names(a, k, f) || k == x
    ensures |Refs(b, f)| == |Refs(a, f)| + 1
  {
    assert Refs(b, f) == Refs(a, f) + {x};
  }

  /** One more entry names a frame, and its count went up: the sharing step of clone_mm. */
  lemma CountedShare(m: Snap, m1: Snap, p: nat, c: nat, s: Slot, ix: Ix, used: set<nat>, counts: seq<int>, boot: nat)
    requires Counted(m, used, counts, boot) && Mapped(m)
    requires s.L1? && p in m.procs && c in m.procs && p != c && Sharing(m, m1, p, c, s, ix)
    requires LeafAt(m, c, PageAt(s, ix)) == None
    ensures
      var f := LeafAt(m, p, PageAt(s, ix)).value.frame;
      && f in used && counts[f] > 0
      && Counted(m1, used, counts[f := counts[f] + 1], boot)
  {
    var pg := PageAt(s, ix);
    var f := LeafAt(m, p, pg).value.frame;
    assert DataAt(m, f);
    assert Names(m.procs, Key(p, pg), f);
    assert Key(p, pg) in Refs(m.procs, f);
    forall k, g ensures Names(m1.procs, k, g) <==> Names(m.procs, k, g) || (k == Key(c, pg) && g == f) {
      SharingNames(m, m1, p, c, s, ix, k, g);
    }
    RefsPlusOne(m.procs, m1.procs, f, Key(c, pg));
    forall g | g != f ensures Refs(m1.procs, g) == Refs(m.procs, g) {
      SameRefs(m.procs, m1.procs, g);
    }
  }

  lemma SharingNames(m: Snap, m1: Snap, p: nat, c: nat, s: Slot, ix: Ix, k: Key, g: nat)
    requires s.L1? && p in m.procs && c in m.procs && p != c && Sharing(m, m1, p, c, s, ix)
    requires LeafAt(m, c, PageAt(s, ix)) == None
    ensures Names(m1.procs, k, g) <==>
      Names(m.procs, k, g) || (k == Key(c, PageAt(s, ix)) && g == LeafAt(m, p, PageAt(s, ix)).value.frame)
  {
  }

  /** Everything one iteration of the innermost loop of clone_mm keeps. */
  lemma ShareStep(m0: Snap, m: Snap, p: nat, c: nat, s: Slot, i: Ix, used: set<nat>, counts: seq<int>, boot: nat)
    requires s.L1? && LoopAt(m0, m, p, c, s, i) && Counted(m, used, counts, boot)
    requires EntryAt(m, Node(c, s), i).present
    ensures PageAt(s, i) in m.procs[p].table
    ensures m.tabs[Node(p, s)] in m.mem && m.mem[m.tabs[Node(p, s)]].TableOf?
    ensures m.tabs[Node(c, s)] in m.mem && m.mem[m.tabs[Node(c, s)]].TableOf?
    ensures m.tabs[Node(p, s)] != m.tabs[Node(c, s)]
    ensures
      var m1 := ShareEntry(m, p, c, s, i);
      var f := EntryAt(m, Node(c, s), i).frame;
      && f in used && counts[f] > 0
      && LoopAt(m0, m1, p, c, s, i + 1)
      && Counted(m1, used, counts[f := counts[f] + 1], boot)
      && (forall pg {:trigger LeafAt(m1, p, pg)} :: pg != PageAt(s, i) ==> LeafAt(m1, p, pg) == LeafAt(m, p, pg))
  {
    assert Raw(m, p, c, s, i);
    assert Linked(m, Node(p, s), i);
    assert LeafAt(m, p, PageAt(s, i)).Some?;
    ShareEntryIsSharing(m, p, c, s, i);
    var m1 := ShareEntry(m, p, c, s, i);
    CountedShare(m, m1, p, c, s, i, used, counts, boot);
    LoopShare(m0, m, m1, p, c, s, i);
    SharingLeaves(m, m1, p, c, s, i);
  }

  /** A frame came from the allocator for a table, a task or a top-level table. */
  lemma CountedAlloc(m: Snap, m1: Snap, f: nat, o: Owner, used: set<nat>, counts: seq<int>, boot: nat)
    requires Counted(m, used, counts, boot) && f !in used && f != boot && f < |counts|
    requires m1.procs == m.procs && m1.owner == m.owner[f := o] && !o.DataFrame? && !o.KernelFrame?
    ensures Counted(m1, used + {f}, counts[f := 1], boot)
  {
  }

  /** A frame of a process went back to the allocator. */
  lemma CountedRelease(m: Snap, m1: Snap, f: nat, used: set<nat>, counts: seq<int>, boot: nat)
    requires Counted(m, used, counts, boot) && f in used && !m.owner[f].DataFrame? && !m.owner[f].KernelFrame?
    requires m1.procs == m.procs && m1.owner == m.owner - {f}
    ensures counts[f] == 1
    ensures Counted(m1, used - {f}, counts[f := 0], boot)
  {
  }

  /** A lower table's frame: its count is 1, and releasing it keeps the books. */
  lemma CountedTable(m: Snap, n: Node, used: set<nat>, counts: seq<int>, boot: nat)
    requires Counted(m, used, counts, boot) && n in m.tabs && n != Node(1, L4)
    requires m.tabs[n] in m.owner && m.owner[m.tabs[n]] == TableFrame(n)
    ensures m.tabs[n] in used && m.tabs[n] < |counts| && counts[m.tabs[n]] == 1
    ensures Counted(FT.DropTable(m, n), used - {m.tabs[n]}, counts[m.tabs[n] := 0], boot)
  {
    CountedRelease(m, FT.DropTable(m, n), m.tabs[n], used, counts, boot);
  }

  /** An entry of free_mm's innermost loop: the count tells whether it was the last. */
  lemma CountedDrop(m: Snap, p: nat, pg: PageIx, used: set<nat>, counts: seq<int>, boot: nat)
    requires Counted(m, used, counts, boot) && Mapped(m) && p in m.procs && pg in m.procs[p].table
    ensures
      var f := m.procs[p].table[pg].frame;
      && f in used && counts[f] > 0
      && (counts[f] == 1 <==> OnlyEntry(m.procs, Key(p, pg), f))
      && Counted(FT.DropLeaf(m, p, pg, counts[f] == 1),
                 if counts[f] == 1 then used - {f} else used,
                 if counts[f] == 1 then counts[f := 0] else counts[f := counts[f] - 1], boot)
  {
    var f := m.procs[p].table[pg].frame;
    assert LeafAt(m, p, pg).Some? && DataAt(m, f);
    assert Names(m.procs, Key(p, pg), f);
    CountOne(m.procs, Key(p, pg), f);
    assert Key(p, pg) in Refs(m.procs, f);
    var m1 := FT.DropLeaf(m, p, pg, counts[f] == 1);
    forall k, g ensures Names(m1.procs, k, g) <==> k != Key(p, pg) && Names(m.procs, k, g) {
      FT.DropLeafNames(m, p, pg, counts[f] == 1, k, g);
    }
    RefsPlusOne(m1.procs, m.procs, f, Key(p, pg));
    forall g | g != f ensures Refs(m1.procs, g) == Refs(m.procs, g) {
      SameRefs(m.procs, m1.procs, g);
    }
  }

  // ----- the supply of frames for clone_mm

  /** The parent's tables the child does not have yet. */
  function Missing(tabs: map<Node, nat>, p: nat, c: nat): set<Node> {
    set n | n in tabs && n.pid == p && Node(c, n.slot) !in tabs
  }

  lemma MissingPositive(tabs: map<Node, nat>, p: nat, c: nat, t: Slot)
    requires Node(p, t) in tabs && Node(c, t) !in tabs
    ensures |Missing(tabs, p, c)| > 0
  {
    assert Node(p, t) in Missing(tabs, p, c);
  }

  lemma MissingLink(tabs: map<Node, nat>, p: nat, c: nat, t: Slot, f: nat)
    requires p != c && Node(p, t) in tabs && Node(c, t) !in tabs
    ensures |Missing(tabs[Node(c, t) := f], p, c)| == |Missing(tabs, p, c)| - 1
  {
    assert Missing(tabs[Node(c, t) := f], p, c) == Missing(tabs, p, c) - {Node(p, t)};
  }
}
