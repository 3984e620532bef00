/** What find_user_pte, do_page_fault and user stores do to frames and tables, as steps of the
    sharing machine (src/mm/mm.c:163-184, 199-278). */
module FaultSteps {
  import opened Memory
  import opened Areas
  import E = EagerFork
  import opened SharedPages
  import opened PageTables
  import opened CloneTables
  import opened GrowTables
  import opened Books
  import opened Abstraction

  // ----- find_user_pte

  lemma NewTableTops(m: Snap, n: Node, ix: Ix, f: nat)
    requires CanGrow(m, n, ix, f) && TopsAgree(m) && 1 in m.procs
    ensures TopsAgree(NewTable(m, n, ix, f))
  {
    var m1 := NewTable(m, n, ix, f);
    NewTableEntries(m, n, ix, f);
    forall q, jx: Ix | q in m1.procs && 256 <= jx ensures EntryAt(m1, Node(q, L4), jx) == EntryAt(m, Node(q, L4), jx) {
      assert Node(q, L4) in m.tabs;
    }
    forall q, jx: Ix | q in m1.procs && 256 <= jx ensures EntryAt(m1, Node(q, L4), jx) == EntryAt(m1, Node(1, L4), jx) {
      assert EntryAt(m, Node(q, L4), jx) == EntryAt(m, Node(1, L4), jx);
    }
  }

  lemma NewTableData(m: Snap, n: Node, ix: Ix, f: nat)
    requires CanGrow(m, n, ix, f)
    ensures DataMap(NewTable(m, n, ix, f)) == DataMap(m)
    ensures DataFramesHoldData(m) ==> DataFramesHoldData(NewTable(m, n, ix, f))
  {
    var m1 := NewTable(m, n, ix, f);
    assert m.owner[m.tabs[n]] == TableFrame(n);
    NewTableEntries(m, n, ix, f);
    forall g ensures DataAt(m1, g) <==> DataAt(m, g) {}
    SameData(m, m1);
    forall g | g in m1.owner && m1.owner[g] == DataFrame && DataFramesHoldData(m) ensures DataAt(m1, g) {
      assert DataAt(m, g);
    }
  }

  /** Adding an empty table on the way to a page is invisible. */
  lemma GrowMemoryOk(m: Snap, n: Node, ix: Ix, f: nat)
    requires MemoryOk(m) && CanGrow(m, n, ix, f)
    ensures MemoryOk(NewTable(m, n, ix, f))
    ensures Flat(NewTable(m, n, ix, f)) == Flat(m)
  {
    hide Inv;
    NewTableOk(m, n, ix, f);
    NewTableTops(m, n, ix, f);
    NewTableData(m, n, ix, f);
  }

  // ----- leaf entries

  lemma PutLeafTops(m: Snap, p: nat, pg: PageIx, l: Leaf)
    requires Placed(m) && p in m.procs && Node(p, LeafSlot(pg)) in m.tabs && TopsAgree(m) && 1 in m.procs
    ensures TopsAgree(PutLeaf(m, p, pg, l))
  {
    var m1 := PutLeaf(m, p, pg, l);
    PutLeafEntries(m, p, pg, l);
    forall q, ix: Ix | q in m1.procs && 256 <= ix ensures EntryAt(m1, Node(q, L4), ix) == EntryAt(m1, Node(1, L4), ix) {
      assert EntryAt(m1, Node(q, L4), ix) == EntryAt(m, Node(q, L4), ix) == EntryAt(m, Node(1, L4), ix);
    }
  }

  lemma PutLeafData(m: Snap, p: nat, pg: PageIx, l: Leaf)
    requires Placed(m) && p in m.procs && Node(p, LeafSlot(pg)) in m.tabs
    ensures DataMap(PutLeaf(m, p, pg, l)) == DataMap(m)
    ensures DataFramesHoldData(m) ==> DataFramesHoldData(PutLeaf(m, p, pg, l))
  {
    var m1 := PutLeaf(m, p, pg, l);
    var n := Node(p, LeafSlot(pg));
    assert m.owner[m.tabs[n]] == TableFrame(n);
    PutLeafEntries(m, p, pg, l);
    forall g ensures DataAt(m1, g) <==> DataAt(m, g) {}
    SameData(m, m1);
    forall g | g in m1.owner && m1.owner[g] == DataFrame && DataFramesHoldData(m) ensures DataAt(m1, g) {
      assert DataAt(m, g);
    }
  }

  lemma PutLeafMemory(m: Snap, p: nat, pg: PageIx, l: Leaf)
    requires TreeOk(m) && DataFramesHoldData(m) && TopsAgree(m) && 1 in m.procs
    requires p in m.procs && Node(p, LeafSlot(pg)) in m.tabs && DataAt(m, l.frame)
    requires Inv(SetLeaf(Flat(m), Key(p, pg), l))
    ensures MemoryOk(PutLeaf(m, p, pg, l))
    ensures Flat(PutLeaf(m, p, pg, l)) == SetLeaf(Flat(m), Key(p, pg), l)
  {
    hide Inv;
    PutLeafOk(m, p, pg, l);
    PutLeafTops(m, p, pg, l);
    PutLeafData(m, p, pg, l);
  }

  /** The only entry that names its frame becomes writable. */
  lemma EnableMemory(m: Snap, p: nat, pg: PageIx)
    requires MemoryOk(m) && p in m.procs && pg in m.procs[p].table
    requires OnlyEntry(m.procs, Key(p, pg), m.procs[p].table[pg].frame)
    requires E.Writable(m.procs[p].areas, PageAddr(pg))
    ensures Node(p, LeafSlot(pg)) in m.tabs && Placed(m)
    ensures
      var l := m.procs[p].table[pg].(write := true);
      && MemoryOk(PutLeaf(m, p, pg, l))
      && Flat(PutLeaf(m, p, pg, l)) == SetLeaf(Flat(m), Key(p, pg), l)
  {
    hide TopsAgree, DataFramesHoldData;
    var l := m.procs[p].table[pg].(write := true);
    assert LeafAt(m, p, pg).Some?;
    assert DataAt(m, l.frame);
    EnableWriteOk(Flat(m), Key(p, pg));
    PutLeafMemory(m, p, pg, l);
  }

  // ----- a fresh frame for a page

  lemma SetDataTops(m: Snap, f: nat, page: Page)
    requires Placed(m) && (f !in m.owner || m.owner[f] == DataFrame) && TopsAgree(m)
    ensures TopsAgree(SetData(m, f, page))
  {
    var m1 := SetData(m, f, page);
    SetDataEntries(m, f, page);
    forall q, ix: Ix | q in m1.procs && 256 <= ix ensures EntryAt(m1, Node(q, L4), ix) == EntryAt(m1, Node(1, L4), ix) {
      assert EntryAt(m1, Node(q, L4), ix) == EntryAt(m, Node(q, L4), ix) == EntryAt(m, Node(1, L4), ix);
    }
  }

  lemma SetDataData(m: Snap, f: nat, page: Page)
    requires Placed(m) && (f !in m.owner || m.owner[f] == DataFrame)
    ensures DataMap(SetData(m, f, page)) == DataMap(m)[f := page]
    ensures DataFramesHoldData(m) ==> DataFramesHoldData(SetData(m, f, page))
  {
    var m1 := SetData(m, f, page);
    forall g ensures DataAt(m1, g) <==> DataAt(m, g) || g == f {}
    NewData(m, m1, f);
    forall g | g in m1.owner && m1.owner[g] == DataFrame && DataFramesHoldData(m) ensures DataAt(m1, g) {
      assert g == f || DataAt(m, g);
    }
  }

  /** A page is given a fresh frame: the un-sharing copy, or the first touch. */
  function FreshPage(m: Snap, p: nat, pg: PageIx, l: Leaf, page: Page): Snap
    requires Placed(m) && p in m.procs && Node(p, LeafSlot(pg)) in m.tabs && l.frame !in m.owner
  {
    SetDataEntries(m, l.frame, page);
    PutLeaf(SetData(m, l.frame, page), p, pg, l)
  }

  lemma FreshMemory(m: Snap, p: nat, pg: PageIx, l: Leaf, page: Page)
    requires MemoryOk(m) && p in m.procs && Node(p, LeafSlot(pg)) in m.tabs && l.frame !in m.owner && Placed(m)
    requires pg in m.procs[p].table ==> !OnlyEntry(m.procs, Key(p, pg), m.procs[p].table[pg].frame)
    requires l.write ==> E.Writable(m.procs[p].areas, PageAddr(pg))
    ensures MemoryOk(FreshPage(m, p, pg, l, page))
    ensures Flat(FreshPage(m, p, pg, l, page)) == MapFresh(Flat(m), Key(p, pg), l, page)
  {
    hide Inv, TopsAgree, DataFramesHoldData, TreeOk;
    var m1 := SetData(m, l.frame, page);
    FreshInv(m, p, pg, l, page);
    SetDataEntries(m, l.frame, page);
    SetDataOk(m, l.frame, page);
    SetDataTops(m, l.frame, page);
    SetDataData(m, l.frame, page);
    assert DataAt(m1, l.frame);
    assert SetLeaf(Flat(m1), Key(p, pg), l) == MapFresh(Flat(m), Key(p, pg), l, page);
    PutLeafMemory(m1, p, pg, l);
  }

  lemma FreshInv(m: Snap, p: nat, pg: PageIx, l: Leaf, page: Page)
    requires MemoryOk(m) && p in m.procs && l.frame !in m.owner
    requires pg in m.procs[p].table ==> !OnlyEntry(m.procs, Key(p, pg), m.procs[p].table[pg].frame)
    requires l.write ==> E.Writable(m.procs[p].areas, PageAddr(pg))
    ensures Inv(MapFresh(Flat(m), Key(p, pg), l, page))
  {
    hide Inv, TreeOk, TopsAgree, DataFramesHoldData;
    assert l.frame !in Flat(m).data;
    MapFreshOk(Flat(m), Key(p, pg), l, page);
  }

  // ----- a user store

  /** One byte of a user page changes, and nothing else in memory. */
  function StoreByte(m: Snap, f: nat, off: nat, v: byte): Snap
    requires DataAt(m, f) && off < PAGE_SIZE
  {
    m.(mem := m.mem[f := DataOf(m.mem[f].page[off := v])])
  }

  lemma StoreMemory(m: Snap, p: nat, addr: nat, v: byte, f: nat)
    requires MemoryOk(m) && p in m.procs && PageOf(addr) in m.procs[p].table
    requires f == m.procs[p].table[PageOf(addr)].frame && DataAt(m, f)
    ensures Grounded(Flat(m))
    ensures MemoryOk(StoreByte(m, f, OffsetOf(addr), v))
    ensures Flat(StoreByte(m, f, OffsetOf(addr), v)) == WriteByte(Flat(m), p, addr, v)
  {
    hide TopsAgree, DataFramesHoldData, TreeOk, NoOrphans, Exclusive;
    WriteOk(Flat(m), p, addr, v);
    var page: Page := m.mem[f].page[OffsetOf(addr) := v];
    assert m.owner[f := DataFrame] == m.owner;
    assert StoreByte(m, f, OffsetOf(addr), v) == SetData(m, f, page);
    StoreTree(m, f, page);
  }

  lemma StoreTree(m: Snap, f: nat, page: Page)
    requires TreeOk(m) && DataFramesHoldData(m) && TopsAgree(m) && DataAt(m, f)
    ensures TreeOk(SetData(m, f, page)) && DataFramesHoldData(SetData(m, f, page)) && TopsAgree(SetData(m, f, page))
    ensures DataMap(SetData(m, f, page)) == DataMap(m)[f := page]
  {
    SetDataOk(m, f, page);
    SetDataTops(m, f, page);
    SetDataData(m, f, page);
  }

  // ----- the counts

  lemma FreshNames(m: Snap, p: nat, pg: PageIx, l: Leaf, page: Page, k: Key, g: nat)
    requires Placed(m) && p in m.procs && Node(p, LeafSlot(pg)) in m.tabs && l.frame !in m.owner
    ensures Names(FreshPage(m, p, pg, l, page).procs, k, g) <==>
      if k == Key(p, pg) then g == l.frame else Names(m.procs, k, g)
  {
  }

  lemma NoNamesYet(m: Snap, f: nat)
    requires Mapped(m) && f !in m.owner
    ensures forall k :: !Names(m.procs, k, f)
  {
    forall k ensures !Names(m.procs, k, f) {
      assert LeafAt(m, k.pid, k.page).Some? ==> DataAt(m, LeafAt(m, k.pid, k.page).value.frame);
    }
  }

  lemma NamesData(m: Snap, k: Key, f: nat)
    requires Mapped(m) && Names(m.procs, k, f)
    ensures f in m.owner && m.owner[f] == DataFrame
  {
    assert LeafAt(m, k.pid, k.page).Some? && DataAt(m, f);
  }

  lemma NamesOne(procs: Processes, k: Key, f: nat, g: nat)
    requires Names(procs, k, f) && f != g
    ensures !Names(procs, k, g)
  {
  }

  /** A first touch: the new frame's count is 1. */
  lemma CountedFill(m: Snap, m1: Snap, k: Key, f: nat, used: set<nat>, counts: seq<int>, boot: nat)
    requires Counted(m, used, counts, boot) && Mapped(m) && f !in m.owner && f < |counts|
    requires m1.owner == m.owner[f := DataFrame] && (forall g :: !Names(m.procs, k, g))
    requires forall j, g {:trigger Names(m1.procs, j, g)} ::
      Names(m1.procs, j, g) <==> if j == k then g == f else Names(m.procs, j, g)
    ensures Counted(m1, used + {f}, counts[f := 1], boot)
  {
    hide Names, Mapped;
    NoNamesYet(m, f);
    assert Refs(m1.procs, f) == {k};
    forall g | g != f ensures Refs(m1.procs, g) == Refs(m.procs, g) {
      SameRefs(m.procs, m1.procs, g);
    }
  }

  lemma CopyRefs(m: Snap, m1: Snap, k: Key, f: nat, o: nat, g: nat)
    requires Mapped(m) && f !in m.owner && f != o && Names(m.procs, k, o)
    requires forall j, g {:trigger Names(m1.procs, j, g)} ::
      Names(m1.procs, j, g) <==> if j == k then g == f else Names(m.procs, j, g)
    ensures |Refs(m1.procs, g)| == if g == f then 1 else if g == o then |Refs(m.procs, o)| - 1 else |Refs(m.procs, g)|
  {
    hide Names, Mapped;
    NoNamesYet(m, f);
    if g == f {
      assert Refs(m1.procs, f) == {k};
    } else if g == o {
      RefsPlusOne(m1.procs, m.procs, o, k);
    } else {
      NamesOne(m.procs, k, o, g);
      SameRefs(m.procs, m1.procs, g);
    }
  }

  /** The un-sharing copy: the new frame's count is 1 and the old frame has one reference less. */
  lemma CountedCopy(m: Snap, m1: Snap, k: Key, f: nat, o: nat, used: set<nat>, counts: seq<int>, boot: nat)
    requires Counted(m, used, counts, boot) && Mapped(m) && f !in m.owner && f < |counts|
    requires m1.owner == m.owner[f := DataFrame] && Names(m.procs, k, o)
    requires forall j, g {:trigger Names(m1.procs, j, g)} ::
      Names(m1.procs, j, g) <==> if j == k then g == f else Names(m.procs, j, g)
    ensures o in used && o != f
    ensures Counted(m1, used + {f}, counts[f := 1][o := counts[o] - 1], boot)
  {
    hide Names, Mapped;
    NamesData(m, k, o);
    forall g { CopyRefs(m, m1, k, f, o, g); }
  }

  /** Both of them for the state that FreshPage describes. */
  lemma CountedFresh(m: Snap, p: nat, pg: PageIx, l: Leaf, page: Page, used: set<nat>, counts: seq<int>, boot: nat)
    requires Counted(m, used, counts, boot) && Mapped(m)
    requires Placed(m) && p in m.procs && Node(p, LeafSlot(pg)) in m.tabs && l.frame !in m.owner && l.frame < |counts|
    ensures pg !in m.procs[p].table ==>
      Counted(FreshPage(m, p, pg, l, page), used + {l.frame}, counts[l.frame := 1], boot)
    ensures pg in m.procs[p].table ==>
      var o := m.procs[p].table[pg].frame;
      && o in used && o != l.frame
      && Counted(FreshPage(m, p, pg, l, page), used + {l.frame}, counts[l.frame := 1][o := counts[o] - 1], boot)
  {
    hide Counted, Mapped, Placed, FreshPage, Names;
    var m1 := FreshPage(m, p, pg, l, page);
    FreshOwner(m, p, pg, l, page);
    forall k, g ensures Names(m1.procs, k, g) <==> if k == Key(p, pg) then g == l.frame else Names(m.procs, k, g) {
      FreshNames(m, p, pg, l, page, k, g);
    }
    if pg in m.procs[p].table {
      CountedCopy(m, m1, Key(p, pg), l.frame, m.procs[p].table[pg].frame, used, counts, boot);
    } else {
      CountedFill(m, m1, Key(p, pg), l.frame, used, counts, boot);
    }
  }

  lemma FreshOwner(m: Snap, p: nat, pg: PageIx, l: Leaf, page: Page)
    requires Placed(m) && p in m.procs && Node(p, LeafSlot(pg)) in m.tabs && l.frame !in m.owner
    ensures FreshPage(m, p, pg, l, page).owner == m.owner[l.frame := DataFrame]
    ensures pg !in m.procs[p].table ==> forall g :: !Names(m.procs, Key(p, pg), g)
    ensures pg in m.procs[p].table ==> Names(m.procs, Key(p, pg), m.procs[p].table[pg].frame)
  {
  }

  /** Setting a write bit changes no count. */
  lemma CountedEnable(m: Snap, p: nat, pg: PageIx, l: Leaf, used: set<nat>, counts: seq<int>, boot: nat)
    requires Counted(m, used, counts, boot)
    requires Placed(m) && p in m.procs && Node(p, LeafSlot(pg)) in m.tabs
    requires pg in m.procs[p].table && l.frame == m.procs[p].table[pg].frame
    ensures Counted(PutLeaf(m, p, pg, l), used, counts, boot)
  {
    var m1 := PutLeaf(m, p, pg, l);
    forall k, g ensures Names(m1.procs, k, g) <==> Names(m.procs, k, g) {}
    forall g ensures Refs(m1.procs, g) == Refs(m.procs, g) { SameRefs(m.procs, m1.procs, g); }
  }

  /** What the fault handler may rely on for a present page. */
  lemma PresentFacts(m: Snap, p: nat, pg: PageIx, used: set<nat>, counts: seq<int>, boot: nat)
    requires TreeOk(m) && Counted(m, used, counts, boot) && p in m.procs && pg in m.procs[p].table
    ensures Node(p, LeafSlot(pg)) in m.tabs && Placed(m) && Mapped(m)
    ensures m.tabs[Node(p, LeafSlot(pg))] in m.mem && m.mem[m.tabs[Node(p, LeafSlot(pg))]].TableOf?
    ensures
      var l := m.procs[p].table[pg];
      var e := EntryAt(m, Node(p, LeafSlot(pg)), pg.l);
      && e == Pte(l.frame, true, l.write, true)
      && DataAt(m, l.frame) && l.frame in used
      && counts[l.frame] == |Refs(m.procs, l.frame)| >= 1
      && (counts[l.frame] == 1 <==> OnlyEntry(m.procs, Key(p, pg), l.frame))
  {
    assert LeafAt(m, p, pg).Some?;
    assert DataAt(m, m.procs[p].table[pg].frame);
    assert AllLinked(m, p);
    assert Linked(m, Node(p, LeafSlot(pg)), pg.l);
    CountOne(m.procs, Key(p, pg), m.procs[p].table[pg].frame);
    assert Key(p, pg) in Refs(m.procs, m.procs[p].table[pg].frame);
  }

  // ----- do_page_fault as a whole

  /** `t` is what serving the fault makes of `s`. */
  ghost predicate Served(s: State, p: nat, addr: nat, write: bool, f: nat, t: State) {
    && Grounded(s) && p in s.procs && AreasOk(s.procs[p].areas) && f !in s.data
    && Service(s, p, addr, write, f) == Some(t)
  }

  /** Translations of other pages and other processes are untouched. */
  ghost predicate OthersSame(m: Snap, m1: Snap, p: nat, pg: PageIx) {
    forall q, a {:trigger LeafAt(m1, q, a)} :: !(q == p && a == pg) ==> LeafAt(m1, q, a) == LeafAt(m, q, a)
  }

  ghost predicate SameAreas(a: Processes, b: Processes) {
    a.Keys == b.Keys && forall p :: p in a ==> b[p].areas == a[p].areas
  }

  ghost predicate OnlyNewData(own0: map<nat, Owner>, own1: map<nat, Owner>) {
    && (forall f :: f in own0 ==> f in own1 && own1[f] == own0[f])
    && (forall f :: f in own1 && f !in own0 ==> own1[f] == DataFrame)
  }

  /** The two states an un-sharing fault can end in. */
  function Unshared(m: Snap, p: nat, pg: PageIx, f: nat, fresh_: bool): Snap
    requires Placed(m) && p in m.procs && Node(p, LeafSlot(pg)) in m.tabs && pg in m.procs[p].table
    requires fresh_ ==> f !in m.owner && DataAt(m, m.procs[p].table[pg].frame)
  {
    var l := m.procs[p].table[pg];
    if fresh_ then FreshPage(m, p, pg, Leaf(f, true), m.mem[l.frame].page)
    else PutLeaf(m, p, pg, l.(write := true))
  }

  lemma UnshareFacts(m: Snap, p: nat, addr: nat, used: set<nat>, counts: seq<int>, boot: nat)
    requires MemoryOk(m) && Counted(m, used, counts, boot) && LeafAt(m, p, PageOf(addr)).Some?
    ensures p in m.procs && PageOf(addr) in m.procs[p].table && Placed(m)
    ensures Node(p, LeafSlot(PageOf(addr))) in m.tabs
    ensures
      var pg := PageOf(addr);
      var t := m.tabs[Node(p, LeafSlot(pg))];
      var l := m.procs[p].table[pg];
      && t in m.mem && m.mem[t].TableOf? && t in m.owner
      && (boot in m.owner ==> m.owner[boot] != DataFrame)
      && m.mem[t].t[pg.l] == Pte(l.frame, true, l.write, true)
      && DataAt(m, l.frame) && l.frame in used && l.frame < |counts|
      && counts[l.frame] >= 1
      && (counts[l.frame] == 1 <==> OnlyEntry(m.procs, Key(p, pg), l.frame))
  {
    PresentFacts(m, p, PageOf(addr), used, counts, boot);
  }

  lemma UnshareCounted(m: Snap, p: nat, pg: PageIx, f: nat, used: set<nat>, counts: seq<int>, boot: nat)
    requires MemoryOk(m) && Counted(m, used, counts, boot) && LeafAt(m, p, pg).Some?
    requires Node(p, LeafSlot(pg)) in m.tabs && Placed(m) && DataAt(m, m.procs[p].table[pg].frame)
    ensures Counted(Unshared(m, p, pg, f, false), used, counts, boot)
    ensures f !in m.owner && f < |counts| ==>
      var o := m.procs[p].table[pg].frame;
      && o in used && o != f
      && Counted(Unshared(m, p, pg, f, true), used + {f}, counts[f := 1][o := counts[o] - 1], boot)
  {
    hide Counted, TopsAgree, DataFramesHoldData, Inv, FreshPage, PutLeaf;
    var l := m.procs[p].table[pg];
    CountedEnable(m, p, pg, l.(write := true), used, counts, boot);
    if f !in m.owner && f < |counts| {
      CountedFresh(m, p, pg, Leaf(f, true), m.mem[l.frame].page, used, counts, boot);
    }
  }

  /** The invariant gives the sharing machine's preconditions. */
  lemma FlatFacts(m: Snap, p: nat)
    requires MemoryOk(m) && p in m.procs
    ensures Inv(Flat(m)) && Grounded(Flat(m)) && Flat(m).procs == m.procs && AreasOk(m.procs[p].areas)
    ensures forall f :: f !in m.owner || m.owner[f] != DataFrame ==> f !in Flat(m).data
    ensures forall f :: DataAt(m, f) ==> f in Flat(m).data && Flat(m).data[f] == m.mem[f].page
  {
    assert ProcessOk(m.procs[p]);
  }

  lemma UnshareServed(m: Snap, p: nat, addr: nat, f: nat, fresh_: bool)
    requires MemoryOk(m) && addr < MEM_BOTTOM_HALF && p in m.procs && PageOf(addr) in m.procs[p].table && Placed(m)
    requires !m.procs[p].table[PageOf(addr)].write && E.Writable(m.procs[p].areas, addr)
    requires Node(p, LeafSlot(PageOf(addr))) in m.tabs && DataAt(m, m.procs[p].table[PageOf(addr)].frame)
    requires fresh_ <==> !OnlyEntry(m.procs, Key(p, PageOf(addr)), m.procs[p].table[PageOf(addr)].frame)
    requires if fresh_ then f !in m.owner else f !in m.owner || m.owner[f] != DataFrame
    ensures MemoryOk(Unshared(m, p, PageOf(addr), f, fresh_))
    ensures Served(Flat(m), p, addr, true, f, Flat(Unshared(m, p, PageOf(addr), f, fresh_)))
  {
    hide MemoryOk, Inv, Placed, FreshPage, PutLeaf, Flat, AreasOk, Grounded, MapFresh, SetLeaf, E.Writable, OnlyEntry;
    var pg := PageOf(addr);
    var l := m.procs[p].table[pg];
    FlatFacts(m, p);
    AreaOfPage(m.procs[p].areas, addr);
    WritableByPage(m.procs[p].areas, addr);
    CountOne(m.procs, Key(p, pg), l.frame);
    if fresh_ {
      FreshMemory(m, p, pg, Leaf(f, true), m.mem[l.frame].page);
    } else {
      EnableMemory(m, p, pg);
    }
  }

  lemma WritableByPage(areas: seq<Area>, addr: nat)
    requires AreasOk(areas) && addr < MEM_BOTTOM_HALF
    ensures E.Writable(areas, addr) <==> E.Writable(areas, PageAddr(PageOf(addr)))
  {
    AreaOfPage(areas, addr);
  }

  lemma UnsharedOthers(m: Snap, p: nat, pg: PageIx, f: nat, fresh_: bool)
    requires Placed(m) && p in m.procs && Node(p, LeafSlot(pg)) in m.tabs && pg in m.procs[p].table
    requires fresh_ ==> f !in m.owner && DataAt(m, m.procs[p].table[pg].frame)
    ensures
      var m1 := Unshared(m, p, pg, f, fresh_);
      && OthersSame(m, m1, p, pg) && SameAreas(m.procs, m1.procs) && m1.tabs == m.tabs
      && m1.owner == if fresh_ then m.owner[f := DataFrame] else m.owner
  {
  }

  lemma UnshareDone(m: Snap, p: nat, addr: nat, f: nat, fresh_: bool, used: set<nat>, counts: seq<int>, boot: nat)
    requires MemoryOk(m) && Counted(m, used, counts, boot)
    requires addr < MEM_BOTTOM_HALF && p in m.procs && PageOf(addr) in m.procs[p].table && Placed(m)
    requires !m.procs[p].table[PageOf(addr)].write && E.Writable(m.procs[p].areas, addr)
    requires Node(p, LeafSlot(PageOf(addr))) in m.tabs && DataAt(m, m.procs[p].table[PageOf(addr)].frame)
    requires fresh_ <==> !OnlyEntry(m.procs, Key(p, PageOf(addr)), m.procs[p].table[PageOf(addr)].frame)
    requires if fresh_ then f !in m.owner && f < |counts| else f !in m.owner || m.owner[f] != DataFrame
    ensures
      var m1 := Unshared(m, p, PageOf(addr), f, fresh_);
      var o := m.procs[p].table[PageOf(addr)].frame;
      && MemoryOk(m1) && o < |counts|
      && (if fresh_ then f < |counts| && Counted(m1, used + {f}, counts[f := 1][o := counts[o] - 1], boot)
          else Counted(m1, used, counts, boot))
      && Served(Flat(m), p, addr, true, f, Flat(m1))
      && OthersSame(m, m1, p, PageOf(addr)) && SameAreas(m.procs, m1.procs)
      && m1.tabs == m.tabs && OnlyNewData(m.owner, m1.owner)
  {
    var pg := PageOf(addr);
    hide MemoryOk, Placed, Flat, E.Writable, Served, OnlyEntry, OthersSame, SameAreas, PageOf, Unshared;
    UnshareFacts(m, p, addr, used, counts, boot);
    UnshareCounted(m, p, pg, f, used, counts, boot);
    UnshareServed(m, p, addr, f, fresh_);
    UnsharedOthers(m, p, pg, f, fresh_);
  }

  /** `t` is `s` with the page of `addr` brought in, in frame f. */
  ghost predicate Filled(s: State, p: nat, addr: nat, f: nat, t: State) {
    && p in s.procs && AreasOk(s.procs[p].areas) && f !in s.data
    && var area := FindArea(s.procs[p].areas, addr);
    area.Some? && InitialPage(area.value, addr).Some?
    && t == MapFresh(s, Key(p, PageOf(addr)), Leaf(f, area.value.prot.write), InitialPage(area.value, addr).value)
  }

  lemma FillFacts(m: Snap, p: nat, addr: nat, used: set<nat>, counts: seq<int>, boot: nat)
    requires MemoryOk(m) && Counted(m, used, counts, boot) && p in m.procs && LeafAt(m, p, PageOf(addr)) == None
    requires Node(p, LeafSlot(PageOf(addr))) in m.tabs
    ensures Placed(m) && PageOf(addr) !in m.procs[p].table
    ensures
      var t := m.tabs[Node(p, LeafSlot(PageOf(addr)))];
      t in m.mem && m.mem[t].TableOf? && t in m.owner
    ensures forall f :: f !in used && f != boot ==> f !in m.owner
    ensures forall f :: f in m.owner ==> f in used || f == boot
  {
  }

  lemma FillCounted(m: Snap, p: nat, addr: nat, l: Leaf, page: Page, used: set<nat>, counts: seq<int>, boot: nat)
    requires MemoryOk(m) && Counted(m, used, counts, boot) && p in m.procs && PageOf(addr) !in m.procs[p].table
    requires Placed(m) && Node(p, LeafSlot(PageOf(addr))) in m.tabs && l.frame !in m.owner && l.frame < |counts|
    ensures Counted(FreshPage(m, p, PageOf(addr), l, page), used + {l.frame}, counts[l.frame := 1], boot)
  {
    hide Counted, TopsAgree, DataFramesHoldData, Inv, FreshPage;
    CountedFresh(m, p, PageOf(addr), l, page, used, counts, boot);
  }

  lemma FillServed(m: Snap, p: nat, addr: nat, area: Area, f: nat, page: Page)
    requires MemoryOk(m) && addr < MEM_BOTTOM_HALF && p in m.procs && PageOf(addr) !in m.procs[p].table && Placed(m)
    requires Node(p, LeafSlot(PageOf(addr))) in m.tabs && f !in m.owner
    requires AreasOk(m.procs[p].areas) && FindArea(m.procs[p].areas, addr) == Some(area)
    requires InitialPage(area, addr) == Some(page)
    ensures
      var m1 := FreshPage(m, p, PageOf(addr), Leaf(f, area.prot.write), page);
      && MemoryOk(m1)
      && Filled(Flat(m), p, addr, f, Flat(m1))
      && OthersSame(m, m1, p, PageOf(addr)) && SameAreas(m.procs, m1.procs)
      && OnlyNewData(m.owner, m1.owner)
  {
    var l := Leaf(f, area.prot.write);
    FillOthers(m, p, PageOf(addr), l, page);
    hide MemoryOk, Inv, Placed, FreshPage, Flat, AreasOk, MapFresh, InitialPage, SameAreas, OthersSame, OnlyNewData;
    FlatFacts(m, p);
    WritableByPage(m.procs[p].areas, addr);
    FreshMemory(m, p, PageOf(addr), l, page);
  }

  lemma FillOthers(m: Snap, p: nat, pg: PageIx, l: Leaf, page: Page)
    requires Placed(m) && p in m.procs && Node(p, LeafSlot(pg)) in m.tabs && l.frame !in m.owner
    ensures
      var m1 := FreshPage(m, p, pg, l, page);
      && OthersSame(m, m1, p, pg) && SameAreas(m.procs, m1.procs) && OnlyNewData(m.owner, m1.owner)
  {
  }

  // ----- what the sharing machine calls the outcomes

  lemma ServedSteps(m: Snap, m1: Snap, p: nat, addr: nat, f: nat)
    requires MemoryOk(m) && addr < MEM_BOTTOM_HALF
    requires Served(Flat(m), p, addr, true, f, Flat(m1))
    ensures Steps(Flat(m), E.Fault(p, addr, true), f, Flat(m1), E.Done)
  {
    hide MemoryOk, Inv, Grounded, AreasOk, Service;
    FlatFacts(m, p);
  }

  lemma FilledSteps(m: Snap, m1: Snap, p: nat, addr: nat, write: bool, f: nat)
    requires MemoryOk(m) && addr < MEM_BOTTOM_HALF && p in m.procs && PageOf(addr) !in m.procs[p].table
    requires Filled(Flat(m), p, addr, f, Flat(m1))
    requires AreasOk(m.procs[p].areas)
    requires Permits(FindArea(m.procs[p].areas, addr).value.prot, write)
    ensures Steps(Flat(m), E.Fault(p, addr, write), f, Flat(m1), E.Done)
  {
    hide MemoryOk, Flat, Inv, Grounded, AreasOk, MapFresh, InitialPage;
    FlatFacts(m, p);
  }

  /** A fault that is refused: no area, the wrong kind of access, or a file that is too short. */
  lemma RefusedSteps(m: Snap, p: nat, addr: nat, write: bool, f: nat)
    requires MemoryOk(m) && addr < MEM_BOTTOM_HALF && p in m.procs
    requires f !in m.owner || m.owner[f] != DataFrame
    requires AreasOk(m.procs[p].areas)
    requires
      if LeafAt(m, p, PageOf(addr)).Some? then
        write && !LeafAt(m, p, PageOf(addr)).value.write && !E.Writable(m.procs[p].areas, addr)
      else E.FirstTouch(m.procs[p].areas, addr, write) == None
    ensures Steps(Flat(m), E.Fault(p, addr, write), f, Flat(m), E.Halt)
  {
    hide MemoryOk, Flat, Inv, Grounded, AreasOk, E.FirstTouch, E.Writable, MapFresh, SetLeaf;
    FlatFacts(m, p);
  }

  // ----- loads and stores

  /** A load from a present page needs no fault. */
  lemma LoadPresent(m: Snap, p: nat, addr: nat, f: nat)
    requires MemoryOk(m) && addr < MEM_BOTTOM_HALF && LeafAt(m, p, PageOf(addr)).Some?
    requires f !in m.owner || m.owner[f] != DataFrame
    ensures DataAt(m, LeafAt(m, p, PageOf(addr)).value.frame)
    ensures
      var r := E.Byte(m.mem[LeafAt(m, p, PageOf(addr)).value.frame].page[OffsetOf(addr)]);
      Steps(Flat(m), E.Load(p, addr), f, Flat(m), r)
  {
    hide Inv, Grounded, AreasOk, TopsAgree, DataFramesHoldData, TablesInFrames, ParentsExist, FramesNamed, AllLinked;
    FlatFacts(m, p);
    assert DataAt(m, LeafAt(m, p, PageOf(addr)).value.frame);
  }

  lemma LoadHalts(m: Snap, p: nat, addr: nat, f: nat)
    requires Steps(Flat(m), E.Fault(p, addr, false), f, Flat(m), E.Halt)
    ensures Steps(Flat(m), E.Load(p, addr), f, Flat(m), E.Halt)
  {
    hide Inv, Flat;
  }

  /** A load that took one fault. */
  lemma LoadServed(m: Snap, m1: Snap, p: nat, addr: nat, f: nat)
    requires MemoryOk(m1)
    requires Steps(Flat(m), E.Fault(p, addr, false), f, Flat(m1), E.Done)
    ensures LeafAt(m1, p, PageOf(addr)).Some?
    ensures DataAt(m1, LeafAt(m1, p, PageOf(addr)).value.frame)
    ensures
      var r := E.Byte(m1.mem[LeafAt(m1, p, PageOf(addr)).value.frame].page[OffsetOf(addr)]);
      Steps(Flat(m), E.Load(p, addr), f, Flat(m1), r)
  {
    hide Inv, AreasOk, TopsAgree, DataFramesHoldData, TablesInFrames, ParentsExist, FramesNamed, AllLinked;
    FlatFacts(m1, p);
    assert LeafAt(m1, p, PageOf(addr)).Some?;
    assert DataAt(m1, LeafAt(m1, p, PageOf(addr)).value.frame);
  }

  /** A store through a present, writable entry needs no fault. */
  lemma StorePresent(m: Snap, p: nat, addr: nat, v: byte, f: nat)
    requires MemoryOk(m) && addr < MEM_BOTTOM_HALF && LeafAt(m, p, PageOf(addr)).Some?
    requires LeafAt(m, p, PageOf(addr)).value.write
    requires f !in m.owner || m.owner[f] != DataFrame
    ensures DataAt(m, LeafAt(m, p, PageOf(addr)).value.frame)
    ensures
      var m1 := StoreByte(m, LeafAt(m, p, PageOf(addr)).value.frame, OffsetOf(addr), v);
      MemoryOk(m1) && Steps(Flat(m), E.Store(p, addr, v), f, Flat(m1), E.Done)
  {
    hide Inv, Grounded, AreasOk, TopsAgree, DataFramesHoldData, TablesInFrames, ParentsExist, FramesNamed, AllLinked,
        WriteByte;
    FlatFacts(m, p);
    assert DataAt(m, LeafAt(m, p, PageOf(addr)).value.frame);
    StoreMemory(m, p, addr, v, LeafAt(m, p, PageOf(addr)).value.frame);
  }

  lemma StoreHalts(m: Snap, p: nat, addr: nat, v: byte, f: nat)
    requires Steps(Flat(m), E.Fault(p, addr, true), f, Flat(m), E.Halt)
    ensures Steps(Flat(m), E.Store(p, addr, v), f, Flat(m), E.Halt)
  {
    hide Inv, Flat;
  }

  /** A store that took one fault: the entry is now writable. */
  lemma StoreServed(m: Snap, m1: Snap, p: nat, addr: nat, v: byte, f: nat)
    requires MemoryOk(m1)
    requires Steps(Flat(m), E.Fault(p, addr, true), f, Flat(m1), E.Done)
    ensures LeafAt(m1, p, PageOf(addr)).Some? && LeafAt(m1, p, PageOf(addr)).value.write
    ensures DataAt(m1, LeafAt(m1, p, PageOf(addr)).value.frame)
    ensures
      var m2 := StoreByte(m1, LeafAt(m1, p, PageOf(addr)).value.frame, OffsetOf(addr), v);
      MemoryOk(m2) && Steps(Flat(m), E.Store(p, addr, v), f, Flat(m2), E.Done)
  {
    hide Inv, AreasOk, TopsAgree, DataFramesHoldData, TablesInFrames, ParentsExist, FramesNamed, AllLinked, WriteByte;
    ServiceOk(Flat(m), p, addr, true, f);
    FlatFacts(m1, p);
    assert LeafAt(m1, p, PageOf(addr)).Some?;
    assert DataAt(m1, LeafAt(m1, p, PageOf(addr)).value.frame);
    StoreMemory(m1, p, addr, v, LeafAt(m1, p, PageOf(addr)).value.frame);
  }

  lemma StoreKeeps(m: Snap, f: nat, off: nat, v: byte, used: set<nat>, counts: seq<int>, boot: nat)
    requires DataAt(m, f) && off < PAGE_SIZE && Counted(m, used, counts, boot)
    ensures
      var m1 := StoreByte(m, f, off, v);
      && Counted(m1, used, counts, boot)
      && (forall q, a {:trigger LeafAt(m1, q, a)} :: LeafAt(m1, q, a) == LeafAt(m, q, a))
  {
  }
}
