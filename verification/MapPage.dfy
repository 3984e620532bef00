/** map_page (src/mm/vmm.c:22-47): entering one page into a tree of page tables, for the kernel's
    half or the user's. */
module MapPage {
  import opened Memory
  import opened FrameAllocator
  import opened PageTables
  import opened KernelFacts
  import Blocks

  /** The entry the tables hold for a page, if all four levels are present. */
  function Translate(mem: map<nat, Content>, dir: nat, pg: PageIx): Option<Pte> {
    var e4 := At(mem, dir, pg.i);
    if !e4.present then None else
    var e3 := At(mem, e4.frame, pg.j);
    if !e3.present then None else
    var e2 := At(mem, e3.frame, pg.k);
    if !e2.present then None else
    var e1 := At(mem, e2.frame, pg.l);
    if !e1.present then None else Some(e1)
  }

  /** Where the tables lie, by position: present entries of upper tables are exactly the tables
      below, and no two positions share a frame. */
  ghost predicate TablesOk(mem: map<nat, Content>, dir: nat, tabs: map<Slot, nat>) {
    && L4 in tabs && tabs[L4] == dir
    && (forall s :: s in tabs ==> tabs[s] in mem && mem[tabs[s]].TableOf? && (s != L4 ==> Parent(s) in tabs))
    && (forall s, t :: s in tabs && t in tabs && tabs[s] == tabs[t] ==> s == t)
    && (forall s, ix: Ix {:trigger EntryOk(mem, tabs, s, ix)} :: s in tabs && !s.L1? ==> EntryOk(mem, tabs, s, ix))
  }

  ghost predicate EntryOk(mem: map<nat, Content>, tabs: map<Slot, nat>, s: Slot, ix: Ix)
    requires s in tabs && !s.L1?
  {
    var e := At(mem, tabs[s], ix);
    && (e.present <==> Child(s, ix) in tabs)
    && (e.present ==> e.frame == tabs[Child(s, ix)])
  }

  /** What the last-level table at a position says. */
  function LeafEntry(mem: map<nat, Content>, tabs: map<Slot, nat>, pg: PageIx): Option<Pte> {
    if LeafSlot(pg) in tabs && At(mem, tabs[LeafSlot(pg)], pg.l).present
    then Some(At(mem, tabs[LeafSlot(pg)], pg.l)) else None
  }

  /** The walk reads exactly the last-level tables. */
  lemma TranslateIsLeaf(mem: map<nat, Content>, dir: nat, tabs: map<Slot, nat>, pg: PageIx)
    requires TablesOk(mem, dir, tabs)
    ensures Translate(mem, dir, pg) == LeafEntry(mem, tabs, pg)
  {
    var s3, s2, s1 := L3(pg.i), L2(pg.i, pg.j), LeafSlot(pg);
    assert Parent(s1) == s2 && Parent(s2) == s3;
    assert s1 in tabs ==> s2 in tabs;
    assert s2 in tabs ==> s3 in tabs;
    assert EntryOk(mem, tabs, L4, pg.i);
    if s3 in tabs {
      assert EntryOk(mem, tabs, s3, pg.j);
      if s2 in tabs { assert EntryOk(mem, tabs, s2, pg.k); }
    }
  }

  /** A new empty table below position s. */
  lemma TableAdded(mem: map<nat, Content>, dir: nat, tabs: map<Slot, nat>, s: Slot, ix: Ix, f: nat, e: Pte)
    requires TablesOk(mem, dir, tabs) && s in tabs && !s.L1? && !At(mem, tabs[s], ix).present
    requires e.present && e.frame == f && forall t :: t in tabs ==> tabs[t] != f
    ensures
      var mem' := mem[tabs[s] := TableOf(mem[tabs[s]].t[ix := e])][f := TableOf(EmptyTable())];
      var tabs' := tabs[Child(s, ix) := f];
      && TablesOk(mem', dir, tabs')
      && (forall pg {:trigger LeafEntry(mem', tabs', pg)} :: LeafEntry(mem', tabs', pg) == LeafEntry(mem, tabs, pg))
  {
    var c := Child(s, ix);
    var mem' := mem[tabs[s] := TableOf(mem[tabs[s]].t[ix := e])][f := TableOf(EmptyTable())];
    var tabs' := tabs[c := f];
    assert EntryOk(mem, tabs, s, ix);
    assert Parent(c) == s;
    forall t, jx: Ix | t in tabs' && !t.L1? ensures EntryOk(mem', tabs', t, jx) {
      if t == c {
        assert Child(t, jx) in tabs ==> Parent(Child(t, jx)) in tabs;
      } else {
        assert EntryOk(mem, tabs, t, jx);
        assert Child(t, jx) == c ==> t == s && jx == ix;
      }
    }
    forall pg ensures LeafEntry(mem', tabs', pg) == LeafEntry(mem, tabs, pg) {}
  }

  /** The tables below the top one, down to level i, on the walk to a page. */
  function PathTo(pg: PageIx, i: nat): set<Slot>
    decreases 3 - i
  {
    if i >= 3 then {} else {SlotAt(pg, i)} + PathTo(pg, i + 1)
  }

  lemma OneLevel(tabs: map<Slot, nat>, pg: PageIx, i: nat)
    requires 1 <= i <= 3
    ensures Lacking(tabs.Keys, pg, 0) == 0 && PathTo(pg, 3) == {}
    ensures Lacking(tabs.Keys, pg, i) == Lacking(tabs.Keys, pg, i - 1) + if SlotAt(pg, i - 1) in tabs then 0 else 1
    ensures PathTo(pg, i - 1) == PathTo(pg, i) + {SlotAt(pg, i - 1)}
    ensures SlotAt(pg, i - 1) !in PathTo(pg, i)
  {
    NewOnPath(pg, i);
  }

  lemma NewOnPath(pg: PageIx, i: nat)
    requires 1 <= i <= 3
    ensures PathTo(pg, i - 1) == PathTo(pg, i) + {SlotAt(pg, i - 1)}
    ensures SlotAt(pg, i - 1) !in PathTo(pg, i)
  {
    assert PathTo(pg, 3) == {};
    assert PathTo(pg, 2) == {SlotAt(pg, 2)};
    assert PathTo(pg, 1) == {SlotAt(pg, 1), SlotAt(pg, 2)};
  }

  class Mapper {
    const pmm: FrameAllocator
    const dir: nat                     // current->mm.page_dir
    var mem: map<nat, Content>
    var tlb: map<PageIx, Pte>
    ghost var tabs: map<Slot, nat>

    ghost predicate Valid()
      reads this, pmm, pmm.bitmap, pmm.pages
    {
      && pmm.Valid() && dir < pmm.first
      && TablesOk(mem, dir, tabs)
      && (forall s :: s in tabs && s != L4 ==> tabs[s] in pmm.used)
    }

    constructor (pmm: FrameAllocator, dir: nat)
      requires pmm.Valid() && dir < pmm.first
      ensures Valid() && fresh(this) && this.pmm == pmm
      ensures forall pg :: Translate(mem, dir, pg) == None
    {
      this.pmm := pmm;
      this.dir := dir;
      mem := map[dir := TableOf(EmptyTable())];
      tlb := map[];
      tabs := map[L4 := dir];
      new;
      forall s, ix: Ix | s in tabs && !s.L1? ensures EntryOk(mem, tabs, s, ix) {}
    }

    /** One level of the walk. */
    method WalkDown(pg: PageIx, i: nat, table: nat, user: bool) returns (next: nat)
      requires Valid() && 1 <= i <= 3 && SlotAt(pg, i) in tabs && tabs[SlotAt(pg, i)] == table
      requires SlotAt(pg, i - 1) in tabs || pmm.Free() != {}          // BUG_ON(new_table == 0)
      modifies this`mem, this`tabs, pmm`memused, pmm`used, pmm.bitmap, pmm.pages
      ensures Valid() && SlotAt(pg, i - 1) in tabs && tabs[SlotAt(pg, i - 1)] == next
      ensures tabs.Keys == old(tabs.Keys) + {SlotAt(pg, i - 1)}
      ensures |pmm.Free()| == old(|pmm.Free()| - if SlotAt(pg, i - 1) in tabs then 0 else 1)
      ensures forall a :: LeafEntry(mem, tabs, a) == old(LeafEntry(mem, tabs, a))
    {
      hide FrameAllocator.Valid, TablesOk, LeafEntry;
      ghost var s, ix := SlotAt(pg, i), Digit(pg, i);
      TopThere(mem, dir, tabs);
      TableThere(mem, dir, tabs, s, ix);
      var e := mem[table].t[Digit(pg, i)];
      if e.present {
        return e.frame;
      }
      next := pmm.Alloc();
      assert pmm.Free() == old(pmm.Free()) - {next};
      var entry := Pte(next, true, true, user);
      OtherFrame(pmm, dir, tabs, old(pmm.used), next);
      TableAdded(mem, dir, tabs, s, ix, next, entry);
      mem := mem[table := TableOf(mem[table].t[Digit(pg, i) := entry])][next := TableOf(EmptyTable())];
      tabs := tabs[Child(s, ix) := next];
    }

    /** map_page. Afterwards the page translates to the frame, and no other translation differs. */
    method MapPage(frame: nat, addr: nat, write: bool, user: bool)
      requires Valid()
      requires addr < 2 * MEM_BOTTOM_HALF && addr % PAGE_SIZE == 0    // BUG_ON(addr & ~PAGE_MASK)
      requires Translate(mem, dir, PageOf(addr)) == None              // BUG_ON(pte->flags & PTE_PRESENT)
      requires Lacking(tabs.Keys, PageOf(addr), 3) <= |pmm.Free()|   // BUG_ON(new_table == 0)
      modifies this`mem, this`tabs, this`tlb, pmm`memused, pmm`used, pmm.bitmap, pmm.pages
      ensures Valid()
      ensures Translate(mem, dir, PageOf(addr)) == Some(Pte(frame, true, write, user))
      ensures forall pg :: pg != PageOf(addr) ==> Translate(mem, dir, pg) == old(Translate(mem, dir, pg))
      ensures tlb == old(tlb) - {PageOf(addr)}
      ensures |pmm.Free()| == old(|pmm.Free()| - Lacking(tabs.Keys, PageOf(addr), 3))
      ensures tabs.Keys == old(tabs.Keys) + PathTo(PageOf(addr), 0)
    {
      hide FrameAllocator.Valid, TablesOk, LeafEntry, Translate, PageOf, FrameAllocator.Free, Lacking, PathTo;
      var pg := PageOf(addr);
      forall a { TranslateIsLeaf(mem, dir, tabs, a); }
      var table := WalkTo(pg, user);
      LeafWritten(mem, dir, tabs, pg, Pte(frame, true, write, user));
      mem := mem[table := TableOf(mem[table].t[pg.l := Pte(frame, true, write, user)])];
      forall a { TranslateIsLeaf(mem, dir, tabs, a); }
      tlb := tlb - {pg};                           // tlb_invalidate_entry(addr << PAGE_SHIFT)
    }

    /** The walk to the last-level table of a page; what is missing on the way is created. */
    method WalkTo(pg: PageIx, user: bool) returns (table: nat)
      requires Valid() && Lacking(tabs.Keys, pg, 3) <= |pmm.Free()|
      modifies this`mem, this`tabs, pmm`memused, pmm`used, pmm.bitmap, pmm.pages
      ensures Valid() && LeafSlot(pg) in tabs && tabs[LeafSlot(pg)] == table
      ensures |pmm.Free()| == old(|pmm.Free()| - Lacking(tabs.Keys, pg, 3))
      ensures tabs.Keys == old(tabs.Keys) + PathTo(pg, 0)
      ensures forall a :: LeafEntry(mem, tabs, a) == old(LeafEntry(mem, tabs, a))
    {
      hide FrameAllocator.Valid, TablesOk, LeafEntry, FrameAllocator.Free, Lacking, PathTo;
      TopThere(mem, dir, tabs);
      OneLevel(tabs, pg, 3);
      table := dir;
      var i := 3;
      while i >= 1
        invariant 0 <= i <= 3 && Valid() && SlotAt(pg, i) in tabs && tabs[SlotAt(pg, i)] == table
        invariant |pmm.Free()| == old(|pmm.Free()| - Lacking(tabs.Keys, pg, 3)) + Lacking(old(tabs).Keys, pg, i)
        invariant tabs.Keys == old(tabs.Keys) + PathTo(pg, i)
        invariant forall a :: LeafEntry(mem, tabs, a) == old(LeafEntry(mem, tabs, a))
      {
        OneLevel(old(tabs), pg, i);
        table := WalkDown(pg, i, table, user);
        i := i - 1;
      }
    }
  }

  lemma TopThere(mem: map<nat, Content>, dir: nat, tabs: map<Slot, nat>)
    requires TablesOk(mem, dir, tabs)
    ensures L4 in tabs && tabs[L4] == dir
  {
  }

  lemma TableThere(mem: map<nat, Content>, dir: nat, tabs: map<Slot, nat>, s: Slot, ix: Ix)
    requires TablesOk(mem, dir, tabs) && s in tabs && !s.L1?
    ensures tabs[s] in mem && mem[tabs[s]].TableOf? && EntryOk(mem, tabs, s, ix)
    ensures tabs[s] == dir ==> s == L4
  {
  }

  /** A frame from the allocator is none of the tables. */
  lemma OtherFrame(pmm: FrameAllocator, dir: nat, tabs: map<Slot, nat>, used: set<nat>, f: nat)
    requires L4 in tabs && tabs[L4] == dir && dir < pmm.first <= f && f !in used
    requires forall s :: s in tabs && s != L4 ==> tabs[s] in used
    ensures forall t :: t in tabs ==> tabs[t] != f
  {
  }

  /** Writing one entry of a last-level table changes the translation of one page. */
  lemma LeafWritten(mem: map<nat, Content>, dir: nat, tabs: map<Slot, nat>, pg: PageIx, e: Pte)
    requires TablesOk(mem, dir, tabs) && LeafSlot(pg) in tabs && e.present
    ensures tabs[LeafSlot(pg)] in mem && mem[tabs[LeafSlot(pg)]].TableOf?
    ensures
      var mem' := mem[tabs[LeafSlot(pg)] := TableOf(mem[tabs[LeafSlot(pg)]].t[pg.l := e])];
      && TablesOk(mem', dir, tabs)
      && (forall a {:trigger LeafEntry(mem', tabs, a)} :: LeafEntry(mem', tabs,
          a) == if a == pg then Some(e) else LeafEntry(mem, tabs, a))
  {
    var t := tabs[LeafSlot(pg)];
    var mem' := mem[t := TableOf(mem[t].t[pg.l := e])];
    forall s, ix: Ix | s in tabs && !s.L1? ensures EntryOk(mem', tabs, s, ix) { assert EntryOk(mem, tabs, s, ix); }
    forall a ensures LeafEntry(mem', tabs, a) == if a == pg then Some(e) else LeafEntry(mem, tabs, a) {}
  }

  // ----- the pages of the heap

  const HEAP_START := 0xfe00_0000_0000             // the low 48 bits
  const HEAP_TOP := 508                            // its entry in the top-level table
  const MAX_PAGES := 0x800_0000                    // what lies under that entry

  function HeapPage(q: nat): (pg: PageIx)
    requires q < MAX_PAGES
  {
    PageIx(HEAP_TOP, q / 262144, q / 512 % 512, q % 512)
  }

  lemma HeapPageIs(q: nat)
    requires q < MAX_PAGES
    ensures PageOf(HEAP_START + PAGE_SIZE * q) == HeapPage(q)
  {
    var pg := HeapPage(q);
    assert q == 262144 * pg.j + 512 * pg.k + pg.l;
    assert PageAddr(pg) == HEAP_START + PAGE_SIZE * q;
    IndicesOfAddress(pg, 0);
  }

  /** The tables below the heap's top-level entry are those its first q pages need. */
  ghost predicate HeapTabs(keys: set<Slot>, q: nat) {
    && (L3(HEAP_TOP) in keys <==> q > 0)
    && (forall j: Ix {:trigger L2(HEAP_TOP, j)} :: L2(HEAP_TOP, j) in keys <==> 262144 * j < q)
    && (forall j: Ix, k: Ix {:trigger L1(HEAP_TOP, j, k)} :: L1(HEAP_TOP, j, k) in keys <==> 262144 * j + 512 * k < q)
  }

  lemma HeapTabsStep(keys: set<Slot>, q: nat)
    requires q < MAX_PAGES && HeapTabs(keys, q)
    ensures HeapTabs(keys + PathTo(HeapPage(q), 0), q + 1)
  {
    var pg := HeapPage(q);
    PathOf(pg);
    var keys' := keys + PathTo(pg, 0);
    hide HeapPage, PathTo;
    forall j: Ix ensures L2(HEAP_TOP, j) in keys' <==> 262144 * j < q + 1 { LastTable(q, j, 0); }
    forall j: Ix, k: Ix ensures L1(HEAP_TOP, j, k) in keys' <==> 262144 * j + 512 * k < q + 1 { LastTable(q, j, k); }
  }

  /** The tables that page q is the first to need. */
  lemma LastTable(q: nat, j: Ix, k: Ix)
    requires q < MAX_PAGES
    ensures HeapPage(q).i == HEAP_TOP
    ensures 262144 * j < q + 1 <==> 262144 * j < q || j == HeapPage(q).j
    ensures 262144 * j + 512 * k < q + 1 <==> 262144 * j + 512 * k < q || (j == HeapPage(q).j && k == HeapPage(q).k)
  {
    var pg := HeapPage(q);
    assert q == 262144 * pg.j + 512 * pg.k + pg.l;
  }

  lemma PathOf(pg: PageIx)
    ensures PathTo(pg, 0) == {L3(pg.i), L2(pg.i, pg.j), LeafSlot(pg)}
  {
    NewOnPath(pg, 1);
    NewOnPath(pg, 2);
    NewOnPath(pg, 3);
    assert PathTo(pg, 3) == {};
  }

  /** Mapping page q takes as many frames as the allocator of `Blocks` counts for it. */
  lemma HeapTabsMissing(tabs: map<Slot, nat>, q: nat)
    requires q < MAX_PAGES && HeapTabs(tabs.Keys, q)
    ensures Lacking(tabs.Keys, HeapPage(q), 3) == Blocks.TablesFor(q)
  {
    var pg := HeapPage(q);
    assert q == 262144 * pg.j + 512 * pg.k + pg.l;
    assert Lacking(tabs.Keys, pg, 1) == if LeafSlot(pg) in tabs then 0 else 1;
    assert Lacking(tabs.Keys, pg, 3) == (if LeafSlot(pg) in tabs then 0 else 1)
      + (if L2(HEAP_TOP, pg.j) in tabs then 0 else 1) + if L3(HEAP_TOP) in tabs then 0 else 1;
    assert L1(HEAP_TOP, pg.j, pg.k) in tabs.Keys <==> 262144 * pg.j + 512 * pg.k < q;
    assert L2(HEAP_TOP, pg.j) in tabs.Keys <==> 262144 * pg.j < q;
  }

  function HeapTables(n: nat): nat {
    if n == 0 then 0 else HeapTables(n - 1) + Blocks.TablesFor(n - 1)
  }

  lemma {:induction false} HeapTablesGrow(q: nat, n: nat)
    requires q <= n
    ensures HeapTables(q) <= HeapTables(n)
    decreases n - q
  {
    if q < n { HeapTablesGrow(q + 1, n); }
  }

  /** The frames of a kmalloc that grows the heap by q pages: one for each page, and the tables that
      are missing for them. It halts exactly if the frames end between a page and its tables. */
  lemma {:induction false} FramesTaken(c: seq<Blocks.Block>, k: nat, need: nat, frames: nat) returns (q: nat)
    requires Blocks.Tiles(c, Blocks.PAGE_WORDS * k) && c != [] && !c[|c| - 1].used
    ensures
      var o := Blocks.EagerAlloc(c, need, frames);
      var tables := HeapTables(k + q) - HeapTables(k);
      && Blocks.Tiles(o.chain, Blocks.PAGE_WORDS * (k + q))
      && (o.result.Halted? ==> q + 1 + tables <= frames < q + 1 + HeapTables(k + q + 1) - HeapTables(k))
      && (!o.result.Halted? ==> frames == o.frames + q + tables)
    decreases frames
  {
    hide Blocks.Tiles, Blocks.Carve, Blocks.GrowLast;
    var i := Blocks.FirstFit(c, need);
    q := 0;
    if i < |c| {
      Blocks.CarveTiles(c, Blocks.PAGE_WORDS * k, i, need);
    } else {
      NextHeapPage(c, k);
      if frames > 0 && frames - 1 >= Blocks.TablesFor(k) {
        q := FramesTaken(Blocks.GrowLast(c), k + 1, need, frames - 1 - Blocks.TablesFor(k));
        q := q + 1;
      }
    }
  }

  lemma NextHeapPage(c: seq<Blocks.Block>, k: nat)
    requires Blocks.Tiles(c, Blocks.PAGE_WORDS * k) && c != [] && !c[|c| - 1].used
    ensures Blocks.End(c[|c| - 1]) / Blocks.PAGE_WORDS == k
    ensures
      var g := Blocks.GrowLast(c);
      g != [] && !g[|g| - 1].used && Blocks.Tiles(g, Blocks.PAGE_WORDS * (k + 1))
  {
    Blocks.GrowTiles(c, Blocks.PAGE_WORDS * k);
  }

  /** map_kernel_page for the next page of the heap. */
  method MapHeapPage(m: Mapper, frame: nat, q: nat)
    requires m.Valid() && q < MAX_PAGES && HeapTabs(m.tabs.Keys, q)
    requires Translate(m.mem, m.dir, HeapPage(q)) == None && Blocks.TablesFor(q) <= |m.pmm.Free()|
    modifies m`mem, m`tabs, m`tlb, m.pmm`memused, m.pmm`used, m.pmm.bitmap, m.pmm.pages
    ensures m.Valid() && HeapTabs(m.tabs.Keys, q + 1)
    ensures |m.pmm.Free()| == old(|m.pmm.Free()|) - Blocks.TablesFor(q)
    ensures Translate(m.mem, m.dir, HeapPage(q)) == Some(Pte(frame, true, true, false))
    ensures forall pg :: pg != HeapPage(q) ==> Translate(m.mem, m.dir, pg) == old(Translate(m.mem, m.dir, pg))
  {
    hide Translate, HeapTabs, PageOf, Lacking, PathTo, FrameAllocator.Free, Mapper.Valid, HeapPage;
    HeapPageIs(q);
    HeapTabsMissing(m.tabs, q);
    HeapTabsStep(m.tabs.Keys, q);
    m.MapPage(frame, HEAP_START + PAGE_SIZE * q, true, false);
  }

  /** map_kernel_page for the pages of a growing heap, in order. The heap's own accounting of
      frames is what they take: one table less for each that is missing, and none else. */
  method MapHeap(m: Mapper, frames: seq<nat>)
    requires m.Valid() && |frames| <= MAX_PAGES && HeapTabs(m.tabs.Keys, 0)
    requires forall q :: 0 <= q < |frames| ==> Translate(m.mem, m.dir, HeapPage(q)) == None
    requires HeapTables(|frames|) <= |m.pmm.Free()|
    modifies m`mem, m`tabs, m`tlb, m.pmm`memused, m.pmm`used, m.pmm.bitmap, m.pmm.pages
    ensures m.Valid() && |m.pmm.Free()| == old(|m.pmm.Free()|) - HeapTables(|frames|)
    ensures forall q :: 0 <= q < |frames| ==>
      Translate(m.mem, m.dir, HeapPage(q)) == Some(Pte(frames[q], true, true, false))
  {
    hide Translate, HeapTabs, FrameAllocator.Free, Mapper.Valid, HeapPage;
    var q := 0;
    while q < |frames|
      invariant 0 <= q <= |frames| && m.Valid() && HeapTabs(m.tabs.Keys, q)
      invariant |m.pmm.Free()| == old(|m.pmm.Free()|) - HeapTables(q)
      invariant forall r :: 0 <= r < q ==>
        Translate(m.mem, m.dir, HeapPage(r)) == Some(Pte(frames[r], true, true, false))
      invariant forall r :: q <= r < |frames| ==> Translate(m.mem, m.dir, HeapPage(r)) == None
    {
      HeapTablesGrow(q + 1, |frames|);
      HeapPagesDiffer(q, |frames|);
      MapHeapPage(m, frames[q], q);
      q := q + 1;
    }
  }

  lemma HeapPagesDiffer(q: nat, n: nat)
    requires q < n <= MAX_PAGES
    ensures forall r :: 0 <= r < n && r != q ==> HeapPage(r) != HeapPage(q)
  {
    forall r | 0 <= r < n && r != q ensures HeapPage(r) != HeapPage(q) {
      assert r == 262144 * (r / 262144) + 512 * (r / 512 % 512) + r % 512;
      assert q == 262144 * (q / 262144) + 512 * (q / 512 % 512) + q % 512;
    }
  }
}
