/** The memory manager as the source runs it: frames, tables, counts and the translation cache
    updated in place (src/mm/mm.c, src/mm/vmm.c, and fork, exit and exec of
    src/kernel/process.c). */
module Kernel {
  import opened Errno
  import opened Memory
  import opened Areas
  import opened FrameAllocator
  import E = EagerFork
  import opened SharedPages
  import opened PageTables
  import opened CloneTables
  import FT = FreeTables
  import opened GrowTables
  import opened Books
  import opened Abstraction
  import opened FaultSteps
  import opened KernelFacts
  import opened ExitSteps

  class Machine {
    const pmm: FrameAllocator
    const boot: nat                    // page_table_l4, the static top-level table of init

    var mem: map<nat, Content>         // physical memory, by frame
    var areas: map<nat, seq<Area>>     // p->mm.vm_areas
    var dirs: map<nat, nat>            // p->mm.page_dir, as a frame
    var tasks: map<nat, nat>           // the frame of p itself
    var current: nat
    var nextPid: nat                   // next_free_pid
    var tlb: map<PageIx, Leaf>         // translations the processor has cached
    var halted: bool                   // after oops() or a failed BUG_ON

    ghost var tabs: map<Node, nat>
    ghost var procs: Processes
    ghost var owner: map<nat, Owner>
    ghost var kernel: map<nat, int>    // the frames the kernel holds for itself, and their counts

    /** After boot: one process, running on the static tables, with nothing mapped below the
        kernel half (src/kernel/process.c:71-91, kernel_thread). */
    constructor (pmm: FrameAllocator, boot: nat, top: seq<Pte>)
      requires pmm.Valid() && pmm.pages != null && boot < pmm.first && pmm.Free() != {}
      requires |top| == 256 && forall n :: 0 <= n < 256 ==> !top[n].user
      modifies pmm`memused, pmm`used, pmm.bitmap, pmm.pages
      ensures Valid() && current == 1 && procs == map[1 := Process([], map[])] && tlb == map[]
    {
      hide MemoryOk, Counted, FieldsOk, BootOwner, BootTable, BootCounts;
      var task := pmm.Alloc();
      this.pmm := pmm;
      this.boot := boot;
      mem := map[boot := TableOf(BootTable(top))];
      areas := map[1 := []];
      dirs := map[1 := boot];
      tasks := map[1 := task];
      current := 1;
      nextPid := 2;
      tlb := map[];
      halted := false;
      kernel := BootCounts(task, pmm.used, pmm.pages[..]);
      tabs := map[Node(1, L4) := boot];
      procs := map[1 := Process([], map[])];
      owner := BootOwner(boot, task, pmm.used, pmm.pages[..]);
      new;
      BootOk(Now(), boot, task, pmm.used, pmm.pages[..]);
    }

    ghost function Tcbs(): Tasks
      reads this
    {
      Tasks(areas, dirs, tasks, nextPid)
    }

    ghost function Now(): Snap
      reads this
    {
      Snap(mem, tabs, procs, owner)
    }

    /** The allocator and the counts are in order. */
    ghost predicate BooksOk()
      reads this, pmm, pmm.bitmap, pmm.pages
    {
      && pmm.Valid() && pmm.pages != null && boot < pmm.first
      && Counted(Now(), pmm.used, pmm.pages[..], boot)
    }

    /** Everything but the translation cache. */
    ghost predicate Consistent()
      reads this, pmm, pmm.bitmap, pmm.pages
    {
      && !halted && BooksOk() && MemoryOk(Now())
      && FieldsOk(Now(), Tcbs(), boot, kernel)
      && (current in procs || current == 0)
    }

    ghost predicate Valid()
      reads this, pmm, pmm.bitmap, pmm.pages
    {
      Consistent() && Coherent()
    }

    /** No cached translation disagrees with the tables of the running process. */
    ghost predicate Coherent()
      reads this
    {
      forall pg :: pg in tlb ==> LeafAt(Now(), current, pg) == Some(tlb[pg])
    }

    /** tlb_invalidate_entry */
    method Invalidate(addr: nat)
      modifies this`tlb
      ensures tlb == old(tlb) - {PageOf(addr)}
    {
      tlb := tlb - {PageOf(addr)};
    }

    /** alloc_phys_page: a frame nobody owns, or 0 if there is none. */
    method TakeFrame() returns (f: nat)
      requires BooksOk()
      modifies pmm`memused, pmm`used, pmm.bitmap, pmm.pages
      ensures pmm.Valid() && (f == 0 <==> old(|pmm.Free()|) == 0)
      ensures f == 0 ==> pmm.used == old(pmm.used) && pmm.pages[..] == old(pmm.pages[..])
      ensures f != 0 ==> f !in old(owner) && f != boot && f !in old(pmm.used)
      ensures f != 0 ==> pmm.used == old(pmm.used) + {f} && pmm.first <= f < pmm.End() <= pmm.pages.Length
      ensures f != 0 ==> old(pmm.pages[..])[f] == 0
      ensures f != 0 ==> pmm.pages[..] == old(pmm.pages[..])[f := 1]
      ensures |pmm.Free()| == |old(pmm.Free())| - if f == 0 then 0 else 1
    {
      f := pmm.Alloc();
      assert pmm.Free() == old(pmm.Free()) - {f};
    }

    /** clone_mm's innermost loop body on a present entry. */
    method ShareEntry(p: nat, c: nat, s: Slot, i: Ix, oldTable: nat, newTable: nat)
      requires pmm.Valid() && pmm.pages != null
      requires s.L1? && p in procs && c in procs && p != c && oldTable != newTable
      requires Node(p, s) in tabs && tabs[Node(p, s)] == oldTable && oldTable in mem && mem[oldTable].TableOf?
      requires Node(c, s) in tabs && tabs[Node(c, s)] == newTable && newTable in mem && mem[newTable].TableOf?
      requires PageAt(s, i) in procs[p].table
      requires mem[newTable].t[i].frame in pmm.used && pmm.pages[mem[newTable].t[i].frame] > 0
      modifies this`mem, this`procs, this`tlb, pmm.pages
      ensures pmm.Valid()
      ensures Now() == CloneTables.ShareEntry(old(Now()), p, c, s, i)
      ensures tlb == old(tlb) - {PageAt(s, i)}
      ensures
        var f := old(mem[newTable].t[i].frame);
        pmm.pages[..] == old(pmm.pages[..])[f := old(pmm.pages[f]) + 1]
    {
      var e := mem[newTable].t[i];
      mem := mem[newTable := TableOf(mem[newTable].t[i := e.(write := false)])];
      var e0 := mem[oldTable].t[i];
      mem := mem[oldTable := TableOf(mem[oldTable].t[i := e0.(write := false)])];
      assert pmm.pages[e.frame] > 0;               // BUG_ON(page->count <= 0)
      pmm.IncrementCount(e.frame);
      var address := PageAddr(PageAt(s, i));
      IndicesOfAddress(PageAt(s, i), 0);
      Invalidate(address);
      ghost var l := procs[p].table[PageAt(s, i)].(write := false);
      procs := procs[p := procs[p].(table := procs[p].table[PageAt(s, i) := l])]
                    [c := procs[c].(table := procs[c].table[PageAt(s, i) := l])];
    }

    /** The loop body above the last level: a new table, linked and filled with a copy. */
    method LinkTable(ghost c: nat, s: Slot, i: Ix, newTable: nat) returns (child: nat)
      requires BooksOk() && !halted
      requires !s.L1? && Node(c, s) in tabs && tabs[Node(c, s)] == newTable
      requires newTable in mem && mem[newTable].TableOf?
      requires mem[newTable].t[i].frame in mem && mem[newTable].t[i].frame != newTable
      modifies this`mem, this`tabs, this`owner, this`halted, pmm`memused, pmm`used, pmm.bitmap, pmm.pages
      ensures halted <==> old(|pmm.Free()|) == 0
      ensures !halted ==> child !in old(owner) && child != boot && child !in old(pmm.used) && child < pmm.pages.Length
      ensures !halted ==> Now() == LinkChild(old(Now()), c, s, i, child)
      ensures !halted ==> pmm.Valid() && pmm.used == old(pmm.used) + {child}
      ensures !halted ==> pmm.pages[..] == old(pmm.pages[..])[child := 1]
      ensures !halted ==> |pmm.Free()| == |old(pmm.Free())| - 1
    {
      hide Counted, FrameAllocator.Valid, FrameAllocator.Free;
      child := TakeFrame();
      if child == 0 {
        halted := true;                            // BUG_ON(!new_l3), BUG_ON(!new_l2), BUG_ON(!new_l1)
        return;
      }
      var e := mem[newTable].t[i];
      mem := mem[newTable := TableOf(mem[newTable].t[i := e.(frame := child)])];
      mem := mem[child := mem[e.frame]];
      tabs := tabs[Node(c, Child(s, i)) := child];
      owner := owner[child := TableFrame(Node(c, Child(s, i)))];
    }

    /** How many more tables the copy from p to c needs than there are free frames. */
    ghost function Wanting(p: nat, c: nat): int
      reads this, pmm, pmm.bitmap
    {
      |Missing(tabs, p, c)| - |pmm.Free()|
    }

    /** One entry of clone_mm's loop over the table at s. */
    method CloneEntry(p: nat, c: nat, s: Slot, i: Ix, oldTable: nat, newTable: nat, ghost m0: Snap)
      requires BooksOk() && p == current && Coherent() && !halted
      requires i < Bound(s) && LoopAt(m0, Now(), p, c, s, i) && SameShape(Now(), p, c)
      requires Node(p, s) in tabs && tabs[Node(p, s)] == oldTable
      requires Node(c, s) in tabs && tabs[Node(c, s)] == newTable
      modifies this`mem, this`tabs, this`procs, this`owner, this`tlb, this`halted
      modifies pmm`memused, pmm`used, pmm.bitmap, pmm.pages
      ensures halted ==> old(Wanting(p, c)) > 0
      ensures !halted ==> BooksOk() && Coherent()
      ensures !halted ==> LoopAt(m0, Now(), p, c, s, i + 1) && SameShape(Now(), p, c)
      ensures !halted ==> Node(p, s) in tabs && tabs[Node(p, s)] == oldTable
      ensures !halted ==> Node(c, s) in tabs && tabs[Node(c, s)] == newTable
      ensures !halted ==> Wanting(p, c) == old(Wanting(p, c))
      decreases 3 - Depth(s), 1
    {
      hide Copying, Counted, Raw, SameOutside, SameTop, Copied, Complete, LoopAt, LinkChild, CloneTables.ShareEntry;
      hide SameShape, Missing;
      LoopTables(m0, Now(), p, c, s, i);
      ghost var m := Now();
      var e := mem[newTable].t[i];
      if !e.present {
        LoopSkip(m0, m, p, c, s, i);
      } else if s.L1? {
        ShareStep(m0, m, p, c, s, i, pmm.used, pmm.pages[..], boot);
        ShareShape(m0, m, p, c, s, i);
        ShareEntry(p, c, s, i, oldTable, newTable);
      } else {
        Descend(p, c, s, i, oldTable, newTable, m0);
      }
    }

    /** The present entry of an upper table: link a copy of the table it names and go down. */
    method Descend(p: nat, c: nat, s: Slot, i: Ix, oldTable: nat, newTable: nat, ghost m0: Snap)
      requires BooksOk() && p == current && Coherent() && !halted
      requires !s.L1? && i < Bound(s) && LoopAt(m0, Now(), p, c, s, i) && SameShape(Now(), p, c)
      requires EntryAt(Now(), Node(c, s), i).present
      requires Node(p, s) in tabs && tabs[Node(p, s)] == oldTable
      requires Node(c, s) in tabs && tabs[Node(c, s)] == newTable
      modifies this`mem, this`tabs, this`procs, this`owner, this`tlb, this`halted
      modifies pmm`memused, pmm`used, pmm.bitmap, pmm.pages
      ensures halted ==> old(Wanting(p, c)) > 0
      ensures !halted ==> BooksOk() && Coherent()
      ensures !halted ==> LoopAt(m0, Now(), p, c, s, i + 1) && SameShape(Now(), p, c)
      ensures !halted ==> Node(p, s) in tabs && tabs[Node(p, s)] == oldTable
      ensures !halted ==> Node(c, s) in tabs && tabs[Node(c, s)] == newTable
      ensures !halted ==> Wanting(p, c) == old(Wanting(p, c))
      decreases 3 - Depth(s), 0
    {
      hide Copying, Counted, Raw, SameOutside, SameTop, Copied, Complete, LoopAt, Linking, CanLink, SameShape, Missing;
      ghost var m := Now();
      LoopTables(m0, m, p, c, s, i);
      LinkFacts(m0, m, p, c, s, i, 0);
      MissingPositive(tabs, p, c, Child(s, i));
      var e := mem[newTable].t[i];
      var child := LinkTable(c, s, i, newTable);
      if halted { return; }
      ghost var m1 := Now();
      LinkStep(m0, m, p, c, s, i, child);
      LinkShape(m, m1, p, c, s, i, child);
      CountedAlloc(m, m1, child, TableFrame(Node(c, Child(s, i))), old(pmm.used), old(pmm.pages[..]), boot);
      MissingLink(m.tabs, p, c, Child(s, i), child);
      CloneTable(p, c, Child(s, i), e.frame, child);
      if halted { return; }
      LoopDescend(m0, m, m1, Now(), p, c, s, i, child);
    }

    /** clone_mm's nested loops, from the table at s down: one method for the four levels. It stops
        the kernel only if the tables still to be copied are more than the free frames. */
    method CloneTable(p: nat, c: nat, s: Slot, oldTable: nat, newTable: nat)
      requires BooksOk() && p == current && Coherent() && !halted
      requires Copying(Now(), p, c) && SameShape(Now(), p, c)
      requires Node(p, s) in tabs && tabs[Node(p, s)] == oldTable
      requires Node(c, s) in tabs && tabs[Node(c, s)] == newTable
      requires forall ix: Ix :: ix < Bound(s) ==> Raw(Now(), p, c, s, ix)
      modifies this`mem, this`tabs, this`procs, this`owner, this`tlb, this`halted
      modifies pmm`memused, pmm`used, pmm.bitmap, pmm.pages
      ensures halted ==> old(Wanting(p, c)) > 0
      ensures !halted ==> BooksOk() && Coherent()
      ensures !halted ==> Copying(Now(), p, c) && Complete(Now(), c, s) && SameShape(Now(), p, c)
      ensures !halted ==> SameOutside(old(Now()), Now(), p, c, s) && SameTop(old(Now()), Now(), c, s)
      ensures !halted ==> Copied(old(Now()), Now(), p, c, s, 512)
      ensures !halted ==> forall n :: n in old(tabs) ==> n in tabs && tabs[n] == old(tabs[n])
      ensures !halted ==> Wanting(p, c) == old(Wanting(p, c))
      decreases 3 - Depth(s), 2
    {
      hide Copying, Counted, Raw, SameOutside, SameTop, Copied, Complete, LoopAt, SameShape, Missing;
      ghost var m0 := Now();
      LoopStart(m0, p, c, s);
      LoopTables(m0, m0, p, c, s, 0);
      var i := 0;
      while i < Bound(s)
        invariant 0 <= i <= Bound(s)
        invariant BooksOk() && Coherent() && !halted
        invariant LoopAt(m0, Now(), p, c, s, i) && SameShape(Now(), p, c)
        invariant Node(p, s) in tabs && tabs[Node(p, s)] == oldTable
        invariant Node(c, s) in tabs && tabs[Node(c, s)] == newTable
        invariant Wanting(p, c) == old(Wanting(p, c))
      {
        CloneEntry(p, c, s, i, oldTable, newTable, m0);
        if halted { return; }
        i := i + 1;
        LoopTables(m0, Now(), p, c, s, i);
      }
      LoopTables(m0, Now(), p, c, s, i);
      LoopEnd(m0, Now(), p, c, s);
    }
  
    // ----- free_mm

    /** free_mm's innermost loop body: the last reference frees the frame. */
    method DropEntry(p: nat, s: Slot, i: Ix, frame: nat)
      requires pmm.Valid() && pmm.pages != null
      requires s.L1? && p in procs && PageAt(s, i) in procs[p].table && procs[p].table[PageAt(s, i)].frame == frame
      requires frame in pmm.used && pmm.pages[frame] > 0
      modifies this`procs, this`owner, pmm`memused, pmm`used, pmm.bitmap, pmm.pages
      ensures pmm.Valid()
      ensures
        var last := old(pmm.pages[frame]) == 1;
        && Now() == FT.DropLeaf(old(Now()), p, PageAt(s, i), last)
        && pmm.used == (if last then old(pmm.used) - {frame} else old(pmm.used))
        && pmm.pages[..] == if last then old(pmm.pages[..])[frame := 0]
                            else old(pmm.pages[..])[frame := old(pmm.pages[frame]) - 1]
    {
      assert pmm.pages[frame] > 0;                 // BUG_ON(page->count <= 0)
      if pmm.pages[frame] == 1 {
        pmm.Release(frame);
        owner := owner - {frame};
      } else {
        pmm.DecrementCount(frame);
      }
      procs := procs[p := procs[p].(table := procs[p].table - {PageAt(s, i)})];
    }

    /** One entry of free_mm's loop over the table at s. */
    method FreeEntry(p: nat, s: Slot, i: Ix, table: nat, ghost m0: Snap)
      requires BooksOk()
      requires i < Bound(s) && FT.FreeLoopAt(m0, Now(), p, s, i)
      requires Node(p, s) in tabs && tabs[Node(p, s)] == table
      modifies this`procs, this`tabs, this`owner, pmm`memused, pmm`used, pmm.bitmap, pmm.pages
      ensures BooksOk()
      ensures FT.FreeLoopAt(m0, Now(), p, s, i + 1)
      decreases 3 - Depth(s), 0
    {
      hide Counted, Complete, FT.FreeLoopAt, FT.Freeing, FT.FreedTo, FT.DropLeaf, Placed, Linked;
      ghost var m := Now();
      FT.FreeLoopFacts(m0, m, p, s, i);
      var e := mem[table].t[i];
      if !e.present {
        FT.FreeLoopSkip(m0, m, p, s, i);
      } else if s.L1? {
        CountedDrop(m, p, PageAt(s, i), pmm.used, pmm.pages[..], boot);
        FT.FreeLoopLeaf(m0, m, p, s, i, pmm.pages[e.frame] == 1);
        DropEntry(p, s, i, e.frame);
      } else {
        FreeTable(p, Child(s, i), e.frame);
        ghost var m1 := Now();
        FT.FreeLoopTable(m0, m, m1, p, s, i);
        CountedTable(m1, Node(p, Child(s, i)), pmm.used, pmm.pages[..], boot);
        pmm.Release(e.frame);
        tabs := tabs - {Node(p, Child(s, i))};
        owner := owner - {e.frame};
      }
    }

    /** free_mm's nested loops, from the table at s down. */
    method FreeTable(p: nat, s: Slot, table: nat)
      requires BooksOk()
      requires FT.Freeing(Now(), p) && Complete(Now(), p, s)
      requires Node(p, s) in tabs && tabs[Node(p, s)] == table
      modifies this`procs, this`tabs, this`owner, pmm`memused, pmm`used, pmm.bitmap, pmm.pages
      ensures BooksOk()
      ensures FT.Freeing(Now(), p) && FT.FreedTo(old(Now()), Now(), p, s, Bound(s))
      decreases 3 - Depth(s), 1
    {
      hide Counted, Complete, FT.FreeLoopAt, FT.Freeing, FT.FreedTo;
      ghost var m0 := Now();
      FT.FreeLoopStart(m0, p, s);
      var i := 0;
      while i < Bound(s)
        invariant 0 <= i <= Bound(s)
        invariant BooksOk()
        invariant FT.FreeLoopAt(m0, Now(), p, s, i)
      {
        FT.FreeLoopFrame(m0, Now(), p, s, i);
        FreeEntry(p, s, i, table, m0);
        i := i + 1;
      }
      FT.FreeLoopFrame(m0, Now(), p, s, i);
    }
  
    // ----- find_user_pte

    /** One missing table on the walk: a zeroed frame, linked with all rights. */
    method AddTable(s: Slot, ix: Ix, table: nat) returns (child: nat)
      requires BooksOk() && !halted
      requires !s.L1? && Node(current, s) in tabs && tabs[Node(current, s)] == table
      requires table in mem && mem[table].TableOf?
      modifies this`mem, this`tabs, this`owner, this`halted, pmm`memused, pmm`used, pmm.bitmap, pmm.pages
      ensures halted <==> old(|pmm.Free()|) == 0
      ensures !halted ==> child !in old(owner) && child != boot && child !in old(pmm.used) && child < pmm.pages.Length
      ensures !halted ==> Now() == NewTable(old(Now()), Node(current, s), ix, child)
      ensures !halted ==> pmm.Valid() && pmm.used == old(pmm.used) + {child}
      ensures !halted ==> pmm.pages[..] == old(pmm.pages[..])[child := 1]
      ensures !halted ==> |pmm.Free()| == |old(pmm.Free())| - 1
    {
      hide Counted, FrameAllocator.Valid, FrameAllocator.Free;
      child := TakeFrame();
      if child == 0 {
        halted := true;                            // BUG_ON(new_table == 0)
        return;
      }
      mem := mem[table := TableOf(mem[table].t[ix := Pte(child, true, true, true)])];
      mem := mem[child := TableOf(EmptyTable())];
      tabs := tabs[Node(current, Child(s, ix)) := child];
      owner := owner[child := TableFrame(Node(current, Child(s, ix)))];
    }

    /** One level of the walk of find_user_pte. */
    method WalkDown(pg: PageIx, i: nat, table: nat) returns (next: nat)
      requires BooksOk() && MemoryOk(Now()) && 1 <= i <= 3 && IsUser(pg) && !halted
      requires Node(current, SlotAt(pg, i)) in tabs && tabs[Node(current, SlotAt(pg, i))] == table
      modifies this`mem, this`tabs, this`owner, this`halted, pmm`memused, pmm`used, pmm.bitmap, pmm.pages
      ensures halted <==> Node(current, SlotAt(pg, i - 1)) !in old(tabs) && old(|pmm.Free()|) == 0
      ensures !halted ==> BooksOk() && MemoryOk(Now()) && Flat(Now()) == old(Flat(Now()))
      ensures !halted ==> tabs.Keys == old(tabs).Keys + {Node(current, SlotAt(pg, i - 1))}
      ensures !halted ==> tabs[Node(current, SlotAt(pg, i - 1))] == next
      ensures !halted ==>
        |pmm.Free()| == old(|pmm.Free()|) - if Node(current, SlotAt(pg, i - 1)) in old(tabs) then 0 else 1
      ensures !halted ==> OnlyNewTables(old(tabs), tabs, old(owner), owner, current)
    {
      hide Counted, MemoryOk, Flat, NewTable, CanGrow;
      ghost var m := Now();
      ghost var s := SlotAt(pg, i);
      WalkFacts(m, Node(current, s), Digit(pg, i));
      var e := mem[table].t[Digit(pg, i)];
      if e.present {
        next := e.frame;
      } else {
        ghost var used, counts := pmm.used, pmm.pages[..];
        next := AddTable(SlotAt(pg, i), Digit(pg, i), table);
        if halted { return; }
        GrowMemoryOk(m, Node(current, s), Digit(pg, i), next);
        NewTableFields(m, Node(current, s), Digit(pg, i), next);
        CountedAlloc(m, Now(), next, TableFrame(Node(current, Child(s, Digit(pg, i)))), used, counts, boot);
      }
    }

    /** find_user_pte: walk to the last-level table of a page, creating what is missing. No
        translation of any page of any process changes. The kernel stops exactly if there are not
        as many free frames as missing tables. */
    method FindUserPte(addr: nat) returns (table: nat)
      requires BooksOk() && MemoryOk(Now()) && current in procs && addr < MEM_BOTTOM_HALF && !halted
      requires current in dirs && Node(current, L4) in tabs && dirs[current] == tabs[Node(current, L4)]
      modifies this`mem, this`tabs, this`owner, this`halted, pmm`memused, pmm`used, pmm.bitmap, pmm.pages
      ensures halted <==> old(|pmm.Free()| < Lacking(SlotsOf(tabs, current), PageOf(addr), 3))
      ensures !halted ==> BooksOk() && MemoryOk(Now()) && Flat(Now()) == old(Flat(Now()))
      ensures !halted ==>
        && Node(current, LeafSlot(PageOf(addr))) in tabs
        && tabs[Node(current, LeafSlot(PageOf(addr)))] == table
      ensures !halted ==> |pmm.Free()| == old(|pmm.Free()| - Lacking(SlotsOf(tabs, current), PageOf(addr), 3))
      ensures !halted ==> OnlyNewTables(old(tabs), tabs, old(owner), owner, current)
    {
      hide Counted, MemoryOk, Flat, NewTable, FrameAllocator.Valid, FrameAllocator.Free;
      var pg := PageOf(addr);
      AddressOfIndices(addr);
      table := dirs[current];
      var i := 3;
      while i >= 1
        invariant 0 <= i <= 3 && !halted
        invariant BooksOk() && MemoryOk(Now()) && Flat(Now()) == old(Flat(Now()))
        invariant Node(current, SlotAt(pg, i)) in tabs && tabs[Node(current, SlotAt(pg, i))] == table
        invariant |pmm.Free()| == old(|pmm.Free()|) - Lacking(SlotsOf(old(tabs), current), pg, 3) +
          Lacking(SlotsOf(old(tabs), current), pg, i)
        invariant forall j: nat {:trigger SlotAt(pg, j)} :: j < i ==>
          (Node(current, SlotAt(pg, j)) in tabs <==> Node(current, SlotAt(pg, j)) in old(tabs))
        invariant OnlyNewTables(old(tabs), tabs, old(owner), owner, current)
      {
        table := WalkDown(pg, i, table);
        if halted { return; }
        i := i - 1;
      }
    }

    // ----- page faults

    /** pte->frame = frame; pte->flags |= ... : one leaf entry. */
    method WriteEntry(table: nat, pg: PageIx, e: Pte)
      requires current in procs && Node(current, LeafSlot(pg)) in tabs && tabs[Node(current, LeafSlot(pg))] == table
      requires table in mem && mem[table].TableOf? && e.present && e.user
      modifies this`mem, this`procs
      ensures Now() == PutLeaf(old(Now()), current, pg, Leaf(e.frame, e.write))
    {
      mem := mem[table := TableOf(mem[table].t[pg.l := e])];
      procs := procs[current := procs[current].(table := procs[current].table[pg := Leaf(e.frame, e.write)])];
    }

    /** A new frame is filled and entered. */
    method InstallPage(table: nat, pg: PageIx, frame: nat, page: Page, write: bool)
      requires current in procs && Node(current, LeafSlot(pg)) in tabs && tabs[Node(current, LeafSlot(pg))] == table
      requires Placed(Now()) && frame !in owner
      modifies this`mem, this`procs, this`owner
      ensures Now() == FreshPage(old(Now()), current, pg, Leaf(frame, write), page)
    {
      SetDataEntries(Now(), frame, page);
      hide SetData, Placed;
      TableAt(SetData(Now(), frame, page), Node(current, LeafSlot(pg)));
      mem := mem[frame := DataOf(page)];
      owner := owner[frame := DataFrame];
      WriteEntry(table, pg, Pte(frame, true, write, true));
    }

    /** Another entry names the frame of this page. */
    ghost predicate Shared(addr: nat)
      reads this
    {
      var l := LeafAt(Now(), current, PageOf(addr));
      l.Some? && !OnlyEntry(procs, Key(current, PageOf(addr)), l.value.frame)
    }

    /** do_page_fault copies a shared page without checking that there is a frame for it. */
    ghost predicate Unchecked(addr: nat, write: bool)
      requires current in procs
      reads this
    {
      write && Shared(addr) && E.Writable(procs[current].areas, addr)
    }

    /** The area of the address allows the access. */
    ghost predicate FirstPermitted(addr: nat, write: bool)
      requires current in procs
      reads this
    {
      var a := FindArea(procs[current].areas, addr);
      a.Some? && Permits(a.value.prot, write)
    }

    /** How many frames an access takes: the copy of a shared page, or the missing tables of an
        absent page and the page itself. */
    ghost function FramesFor(addr: nat, write: bool): nat
      requires current in procs
      reads this
    {
      if LeafAt(Now(), current, PageOf(addr)).Some? then
        if Unchecked(addr, write) then 1 else 0
      else if FirstPermitted(addr, write) then Lacking(SlotsOf(tabs, current), PageOf(addr), 3) + 1 else 0
    }

    /** The un-sharing half of do_page_fault: the page is present and its area is writable. */
    method Unshare(addr: nat, table: nat) returns (ghost f: nat)
      requires BooksOk() && MemoryOk(Now()) && current in procs && addr < MEM_BOTTOM_HALF
      requires LeafAt(Now(), current, PageOf(addr)).Some? && !LeafAt(Now(), current, PageOf(addr)).value.write
      requires E.Writable(procs[current].areas, addr)
      requires Node(current, LeafSlot(PageOf(addr))) in tabs && tabs[Node(current, LeafSlot(PageOf(addr)))] == table
      requires Shared(addr) ==> pmm.Free() != {}   // alloc_page is not checked
      modifies this`mem, this`procs, this`owner, this`tlb, pmm`memused, pmm`used, pmm.bitmap, pmm.pages
      ensures BooksOk() && MemoryOk(Now())
      ensures tabs == old(tabs) && tlb == old(tlb) - {PageOf(addr)}
      ensures OnlyNewData(old(owner), owner)
      ensures SameAreas(old(procs), procs)
      ensures Served(old(Flat(Now())), current, addr, true, f, Flat(Now()))
      ensures OthersSame(old(Now()), Now(), current, PageOf(addr))
    {
      hide MemoryOk, Counted, Flat, Placed, E.Writable, Served, OnlyEntry, OthersSame, SameAreas, PageOf, OnlyNewData;
      hide FrameAllocator.Free;
      var pg := PageOf(addr);
      ghost var m := Now();
      ghost var used, counts := pmm.used, pmm.pages[..];
      UnshareFacts(m, current, addr, used, counts, boot);
      var e := mem[table].t[pg.l];
      assert pmm.pages[e.frame] >= 1;              // BUG_ON(page->count < 1)
      f := boot;
      ghost var alone := pmm.pages[e.frame] == 1;
      if pmm.pages[e.frame] == 1 {
        WriteEntry(table, pg, e.(write := true));
      } else {
        var oldpage := mem[e.frame].page;
        var newpage := TakeFrame();
        InstallPage(table, pg, newpage, oldpage, true);
        pmm.DecrementCount(e.frame);
        f := newpage;
      }
      assert Now() == Unshared(m, current, pg, f, !alone);
      tlb := tlb - {pg};                           // tlb_invalidate_entry(address)
      UnshareDone(m, current, addr, f, !alone, used, counts, boot);
    }

    /** The demand-paging half of do_page_fault, once the access is known to be permitted: a fresh
        frame, filled from the file or with zeros. False is where the source goes to oops. */
    method FillEntry(addr: nat, area: Area, table: nat) returns (ok: bool, ghost f: nat)
      requires BooksOk() && MemoryOk(Now()) && current in procs && addr < MEM_BOTTOM_HALF
      requires AreasOk(procs[current].areas) && FindArea(procs[current].areas, addr) == Some(area)
      requires LeafAt(Now(), current, PageOf(addr)) == None
      requires Node(current, LeafSlot(PageOf(addr))) in tabs && tabs[Node(current, LeafSlot(PageOf(addr)))] == table
      modifies this`mem, this`procs, this`owner, this`tlb, pmm`memused, pmm`used, pmm.bitmap, pmm.pages
      ensures tabs == old(tabs)
      ensures ok ==> tlb == old(tlb) - {PageOf(addr)}
      ensures !ok <==> InitialPage(area, addr).None? || old(pmm.Free()) == {}
      ensures ok ==>
        && BooksOk() && MemoryOk(Now())
        && OnlyNewData(old(owner), owner)
        && SameAreas(old(procs), procs)
        && OthersSame(old(Now()), Now(), current, PageOf(addr))
        && Filled(old(Flat(Now())), current, addr, f, Flat(Now()))
    {
      hide MemoryOk, Counted, Flat, Placed, Filled, OthersSame, SameAreas, InitialPage;
      var pg := PageOf(addr);
      ghost var m := Now();
      ghost var used, counts := pmm.used, pmm.pages[..];
      f := boot;
      FillFacts(m, current, addr, used, counts, boot);
      var frame := pmm.Alloc();
      if frame == 0 {
        return false, f;
      }
      var page := FillPage(area, addr);
      if page.None? {
        return false, f;
      }
      f := frame;
      InstallPage(table, pg, frame, page.value, area.prot.write);
      FillCounted(m, current, addr, Leaf(frame, area.prot.write), page.value, used, counts, boot);
      FillServed(m, current, addr, area, frame, page.value);
      tlb := tlb - {pg};                           // tlb_invalidate_entry(address)
      return true, f;
    }

    /** do_page_fault on a write to a page that is present. */
    method FaultPresent(addr: nat) returns (ghost f: nat)
      requires Valid() && current in procs && addr < MEM_BOTTOM_HALF
      requires LeafAt(Now(), current, PageOf(addr)).Some? && !LeafAt(Now(), current, PageOf(addr)).value.write
      requires Unchecked(addr, true) ==> pmm.Free() != {}
      modifies this`mem, this`tabs, this`procs, this`owner, this`tlb, this`halted
      modifies pmm`memused, pmm`used, pmm.bitmap, pmm.pages
      ensures !halted ==> Valid()
      ensures !halted ==> Steps(old(Flat(Now())), E.Fault(current, addr, true), f, Flat(Now()), E.Done)
      ensures halted ==> Steps(old(Flat(Now())), E.Fault(current, addr, true), f, old(Flat(Now())), E.Halt)
      ensures !halted ==> OthersTables(old(tabs), tabs, current)
    {
      hide MemoryOk, Counted, Flat, FieldsOk, Steps, OnlyNewTables, OnlyNewData, Served, OthersSame, SameAreas,
          OthersTables;
      hide PageOf, AreasOk, FrameAllocator.Valid, FrameAllocator.Free;
      ghost var m := Now();
      f := boot;
      FaultFacts(m, Tcbs(), boot, kernel, current, pmm.used, pmm.pages[..]);
      var area := FindInList(areas[current], addr);
      if area.None? || !area.value.prot.write {
        halted := true;
        RefusedSteps(m, current, addr, true, f);
        return;
      }
      f := UnshareAt(addr);
    }

    /** The permitted write: walk, un-share. */
    method UnshareAt(addr: nat) returns (ghost f: nat)
      requires Valid() && current in procs && addr < MEM_BOTTOM_HALF
      requires LeafAt(Now(), current, PageOf(addr)).Some? && !LeafAt(Now(), current, PageOf(addr)).value.write
      requires E.Writable(procs[current].areas, addr)
      requires Shared(addr) ==> pmm.Free() != {}
      modifies this`mem, this`tabs, this`procs, this`owner, this`tlb, this`halted
      modifies pmm`memused, pmm`used, pmm.bitmap, pmm.pages
      ensures Valid()
      ensures Steps(old(Flat(Now())), E.Fault(current, addr, true), f, Flat(Now()), E.Done)
      ensures OthersTables(old(tabs), tabs, current)
    {
      hide MemoryOk, Counted, Flat, FieldsOk, Steps, OnlyNewTables, OnlyNewData, Served, OthersSame, SameAreas,
          OthersTables;
      hide PageOf, AreasOk, E.Writable, FrameAllocator.Valid, FrameAllocator.Free;
      ghost var m := Now();
      FaultFacts(m, Tcbs(), boot, kernel, current, pmm.used, pmm.pages[..]);
      NothingLacking(m, current, PageOf(addr));
      var table := FindUserPte(addr);
      ghost var m1 := Now();
      SameFlat(m, m1, current, PageOf(addr));
      assert Shared(addr) ==> |pmm.Free()| >= 1;
      f := Unshare(addr, table);
      UnshareEnds(m, m1, Now(), Tcbs(), boot, kernel, current, addr, f, old(tlb));
    }

    /** The permitted first touch: walk, fill, map. It stops the kernel in find_user_pte, and is
        false where do_page_fault itself goes to oops. */
    method BringIn(addr: nat, area: Area, ghost write: bool) returns (ok: bool, ghost f: nat)
      requires Valid() && current in procs && addr < MEM_BOTTOM_HALF
      requires LeafAt(Now(), current, PageOf(addr)) == None
      requires AreasOk(procs[current].areas) && FindArea(procs[current].areas, addr) == Some(area)
      requires Permits(area.prot, write)
      modifies this`mem, this`tabs, this`procs, this`owner, this`tlb, this`halted
      modifies pmm`memused, pmm`used, pmm.bitmap, pmm.pages
      ensures halted ==> !ok
      ensures ok ==> Valid()
      ensures ok ==> Steps(old(Flat(Now())), E.Fault(current, addr, write), f, Flat(Now()), E.Done)
      ensures ok ==> OthersTables(old(tabs), tabs, current)
      ensures ok <==>
        InitialPage(area, addr).Some? && old(|pmm.Free()| > Lacking(SlotsOf(tabs, current), PageOf(addr), 3))
    {
      hide MemoryOk, Counted, Flat, FieldsOk, Steps, OnlyNewTables, OnlyNewData, Filled, OthersSame, SameAreas,
          OthersTables;
      hide InitialPage, AreasOk, PageOf, FrameAllocator.Valid, FrameAllocator.Free;
      ghost var m := Now();
      FaultFacts(m, Tcbs(), boot, kernel, current, pmm.used, pmm.pages[..]);
      var table := FindUserPte(addr);
      if halted { return false, boot; }
      ghost var m1 := Now();
      SameFlat(m, m1, current, PageOf(addr));
      ok, f := FillEntry(addr, area, table);
      if ok {
        FieldsGrow(m, m1, Now(), Tcbs(), boot, kernel, current);
        FilledSteps(m1, Now(), current, addr, write, f);
        CoherentAfter(m, m1, Now(), current, PageOf(addr), old(tlb));
      }
    }

    /** do_page_fault on a page that is not present: it stops the kernel exactly if the eager
        machine does not serve the fault, or if there are not enough free frames. */
    method FaultAbsent(addr: nat, write: bool) returns (ghost f: nat)
      requires Valid() && current in procs && addr < MEM_BOTTOM_HALF
      requires LeafAt(Now(), current, PageOf(addr)) == None
      modifies this`mem, this`tabs, this`procs, this`owner, this`tlb, this`halted
      modifies pmm`memused, pmm`used, pmm.bitmap, pmm.pages
      ensures !halted ==> Valid()
      ensures !halted ==> Steps(old(Flat(Now())), E.Fault(current, addr, write), f, Flat(Now()), E.Done)
      ensures !halted ==> OthersTables(old(tabs), tabs, current)
      ensures old(|pmm.Free()| < FramesFor(addr, write)) ==> halted
      ensures halted && old(FramesFor(addr, write) <= |pmm.Free()|) ==>
        Steps(old(Flat(Now())), E.Fault(current, addr, write), f, old(Flat(Now())), E.Halt)
    {
      hide MemoryOk, Counted, Flat, FieldsOk, Steps, OnlyNewTables, OnlyNewData, Filled, OthersSame, SameAreas,
          OthersTables;
      hide InitialPage, PageOf, FrameAllocator.Valid, FrameAllocator.Free;
      ghost var m := Now();
      f := boot;
      FaultFacts(m, Tcbs(), boot, kernel, current, pmm.used, pmm.pages[..]);
      var area := FindInList(areas[current], addr);
      if area.None? || !Permits(area.value.prot, write) {
        halted := true;
        RefusedSteps(m, current, addr, write, f);
        return;
      }
      var ok;
      ok, f := BringIn(addr, area.value, write);
      if !ok {
        halted := true;
        f := boot;
        if old(FramesFor(addr, write) <= |pmm.Free()|) { RefusedSteps(m, current, addr, write, f); }
      }
    }

    /** do_page_fault. `present`, `write`, `usermode` and `rsvd` are the bits of the error code;
        the processor sets `present` exactly if it found an entry, and reports a write to a
        present page only if the entry forbids it. */
    method PageFault(addr: nat, present: bool, write: bool, usermode: bool, rsvd: bool) returns (ghost f: nat)
      requires Valid() && current in procs && addr < MEM_BOTTOM_HALF
      requires present <==> LeafAt(Now(), current, PageOf(addr)).Some?
      requires present && write ==> !LeafAt(Now(), current, PageOf(addr)).value.write
      requires Unchecked(addr, write) ==> pmm.Free() != {}
      modifies this`mem, this`tabs, this`procs, this`owner, this`tlb, this`halted
      modifies pmm`memused, pmm`used, pmm.bitmap, pmm.pages
      ensures rsvd || !usermode || (present && !write) ==> halted
      ensures !halted ==> Valid()
      ensures !halted ==> Steps(old(Flat(Now())), E.Fault(current, addr, write), f, Flat(Now()), E.Done)
      ensures !halted ==> OthersTables(old(tabs), tabs, current)
      ensures old(|pmm.Free()| < FramesFor(addr, write)) ==> halted
      ensures halted && !rsvd && usermode && (present ==> write) && old(FramesFor(addr, write) <= |pmm.Free()|) ==>
        Steps(old(Flat(Now())), E.Fault(current, addr, write), f, old(Flat(Now())), E.Halt)
    {
      hide Consistent, Coherent, Flat, Steps, OthersTables;
      f := boot;
      if rsvd {
        halted := true;
        return;
      }
      if present && write && usermode {
        f := FaultPresent(addr);
      } else if !present && usermode {
        f := FaultAbsent(addr, write);
      } else {
        halted := true;
      }
    }

    // ----- user accesses

    /** The processor's translation of a page: a cached entry if there is one, else the walk. */
    method Translate(pg: PageIx) returns (r: Option<Leaf>)
      requires Valid() && current in procs && IsUser(pg)
      modifies this`tlb
      ensures Valid()
      ensures r == LeafAt(Now(), current, pg)
      ensures r.Some? ==> pg in tlb
    {
      hide Counted, FieldsOk, MemoryOk, Walk;
      ghost var m := Now();
      FaultFacts(m, Tcbs(), boot, kernel, current, pmm.used, pmm.pages[..]);
      if pg in tlb {
        return Some(tlb[pg]);
      }
      WalkFinds(m, current, pg);
      r := Walk(mem, dirs[current], pg);
      if r.Some? {
        tlb := tlb[pg := r.value];
      }
    }

    /** A user load: translate, take at most one fault, translate again, read. */
    method Load(addr: nat) returns (r: E.Outcome, ghost f: nat)
      requires Valid() && current in procs && addr < MEM_BOTTOM_HALF
      modifies this`mem, this`tabs, this`procs, this`owner, this`tlb, this`halted
      modifies pmm`memused, pmm`used, pmm.bitmap, pmm.pages
      ensures halted <==> r == E.Halt
      ensures !halted ==> Valid()
      ensures old(|pmm.Free()| < FramesFor(addr, false)) ==> halted
      ensures old(FramesFor(addr, false) <= |pmm.Free()|) ==>
        Steps(old(Flat(Now())), E.Load(current, addr), f, if halted then old(Flat(Now())) else Flat(Now()), r)
      ensures !halted ==> OthersTables(old(tabs), tabs, current)
      ensures !halted ==> PageOf(addr) in tlb
    {
      hide MemoryOk, Counted, Flat, FieldsOk, Steps, PageOf, OthersTables, FrameAllocator.Valid, FrameAllocator.Free;
      ghost var m := Now();
      UserPage(addr);
      var leaf := Translate(PageOf(addr));
      f := boot;
      if leaf.None? {
        f := PageFault(addr, false, false, true, false);
        if halted {
          if old(FramesFor(addr, false) <= |pmm.Free()|) { LoadHalts(m, current, addr, f); }
          return E.Halt, f;
        }
        LoadServed(m, Now(), current, addr, f);
        leaf := Translate(PageOf(addr));
      } else {
        FaultFacts(m, Tcbs(), boot, kernel, current, pmm.used, pmm.pages[..]);
        LoadPresent(m, current, addr, f);
      }
      r := E.Byte(mem[leaf.value.frame].page[OffsetOf(addr)]);
      SameTables(old(tabs), tabs, current);
    }

    /** A user access in the kernel half. Nothing of it is cached and the tables refuse it; the page
        fault, reported as present or not, finds no area and stops the kernel. */
    method AccessKernelHalf(addr: nat, present: bool, write: bool)
      requires Valid() && current in procs && MEM_TOP_HALF <= addr < U64_LIMIT
      requires FindArea(areas[current], addr) == None
      modifies this`halted
      ensures halted
    {
      hide Counted, FieldsOk, MemoryOk, Walk, FrameAllocator.Valid;
      FaultFacts(Now(), Tcbs(), boot, kernel, current, pmm.used, pmm.pages[..]);
      TopHalfPage(addr);
      KernelHalfRefused(Now(), current, PageOf(addr));
      assert PageOf(addr) !in tlb;
      if Walk(mem, dirs[current], PageOf(addr)).Some? {
        return;
      }
      if !present || write {
        var area := FindInList(areas[current], addr);
        if area.Some? {
          return;
        }
      }
      halted := true;
    }

    /** The store itself, once the translation allows it. */
    method WriteThrough(leaf: Leaf, addr: nat, v: byte)
      requires Valid() && current in procs
      requires LeafAt(Now(), current, PageOf(addr)) == Some(leaf) && DataAt(Now(), leaf.frame)
      requires MemoryOk(StoreByte(Now(), leaf.frame, OffsetOf(addr), v))
      modifies this`mem
      ensures Valid()
      ensures Now() == StoreByte(old(Now()), leaf.frame, OffsetOf(addr), v)
    {
      hide MemoryOk, Counted, FieldsOk;
      ghost var m := Now();
      mem := mem[leaf.frame := DataOf(mem[leaf.frame].page[OffsetOf(addr) := v])];
      StoreKeeps(m, leaf.frame, OffsetOf(addr), v, pmm.used, pmm.pages[..], boot);
      FieldsSame(m, Now(), Tcbs(), boot, kernel);
    }

    /** A user store: translate, take at most one fault, translate again, write. */
    method Store(addr: nat, v: byte) returns (r: E.Outcome, ghost f: nat)
      requires Valid() && current in procs && addr < MEM_BOTTOM_HALF
      requires Unchecked(addr, true) ==> pmm.Free() != {}
      modifies this`mem, this`tabs, this`procs, this`owner, this`tlb, this`halted
      modifies pmm`memused, pmm`used, pmm.bitmap, pmm.pages
      ensures halted <==> r == E.Halt
      ensures !halted ==> Valid()
      ensures old(|pmm.Free()| < FramesFor(addr, true)) ==> halted
      ensures old(FramesFor(addr, true) <= |pmm.Free()|) ==>
        Steps(old(Flat(Now())), E.Store(current, addr, v), f, if halted then old(Flat(Now())) else Flat(Now()), r)
      ensures !halted ==> OthersTables(old(tabs), tabs, current)
      ensures !halted ==> PageOf(addr) in tlb
    {
      hide MemoryOk, Counted, Flat, FieldsOk, Steps, PageOf, OthersTables, StoreByte, FrameAllocator.Valid,
          FrameAllocator.Free;
      ghost var m := Now();
      UserPage(addr);
      var leaf := Translate(PageOf(addr));
      f := boot;
      if leaf.None? || !leaf.value.write {
        f := PageFault(addr, leaf.Some?, true, true, false);
        if halted {
          if old(FramesFor(addr, true) <= |pmm.Free()|) { StoreHalts(m, current, addr, v, f); }
          return E.Halt, f;
        }
        StoreServed(m, Now(), current, addr, v, f);
        leaf := Translate(PageOf(addr));
      } else {
        FaultFacts(m, Tcbs(), boot, kernel, current, pmm.used, pmm.pages[..]);
        StorePresent(m, current, addr, v, f);
      }
      WriteThrough(leaf.value, addr, v);
      SameTables(old(tabs), tabs, current);
      r := E.Done;
    }

    // ----- fork

    /** The last loop of clone_mm: the area list is copied in order. */
    method CopyAreas(list: seq<Area>) returns (copy: seq<Area>)
      ensures copy == list
    {
      copy := [];
      var n := 0;
      while n < |list|
        invariant 0 <= n <= |list| && copy == list[..n]
      {
        copy := copy + [list[n]];
        n := n + 1;
      }
    }

    /** clone_mm: -ENOMEM if there is no frame for the top-level table, and a stop if there are
        fewer frames than tables. */
    method CloneMm(child: nat) returns (ret: int)
      requires BooksOk() && Coherent() && MemoryOk(Now()) && current in procs && child !in procs && !halted
      requires current in areas && areas[current] == procs[current].areas
      requires current in dirs && Node(current, L4) in tabs && dirs[current] == tabs[Node(current, L4)]
      modifies this`mem, this`areas, this`dirs, this`tabs, this`procs, this`owner, this`tlb, this`halted
      modifies pmm`memused, pmm`used, pmm.bitmap, pmm.pages
      ensures halted <==> 0 < old(|pmm.Free()|) < old(|TablesOf(tabs, current)|)
      ensures pmm.pages != null
      ensures ret == if old(|pmm.Free()|) == 0 then -ENOMEM else 0
      ensures ret != 0 ==> BooksOk() && owner == old(owner) && pmm.used == old(pmm.used)
      ensures ret != 0 ==> pmm.pages[..] == old(pmm.pages[..])
      ensures !halted && ret == 0 ==>
        && BooksOk() && Coherent() && MemoryOk(Now())
        && Flat(Now()) == ForkStep(old(Flat(Now())), current, child)
        && areas == old(areas)[child := old(areas)[current]]
        && Node(child, L4) in tabs && dirs == old(dirs)[child := tabs[Node(child, L4)]]
        && OnlyNewTables(old(tabs), tabs, old(owner), owner, child)
    {
      hide Copying, Complete, SameOutside, SameTop, Copied, Raw, Counted, MemoryOk, Flat, OnlyNewTables, ForkStep,
          WithChild, SameShape, LeafAt;
      hide FrameAllocator.Valid, FrameAllocator.Free, Missing, TablesOf;
      ghost var m := Now();
      ghost var used, counts := pmm.used, pmm.pages[..];
      CloneFacts(m, current, child);
      var newDir := CloneDir(child);
      if newDir == 0 { return -ENOMEM; }
      CloneBegin(m, current, child, newDir, used, counts, boot);
      CloneTable(current, child, L4, dirs[current], newDir);
      if halted { return 0; }
      CloneFinish(m, Now(), current, child, newDir);
      NothingMissing(Now(), current, child);
      var copy := CopyAreas(areas[current]);
      areas := areas[child := copy];
      return 0;
    }

    /** The start of clone_mm: a new top-level table, a copy of the old one; 0 if there is no
        frame. */
    method CloneDir(child: nat) returns (newDir: nat)
      requires BooksOk() && current in procs && current != child
      requires current in dirs && Node(current, L4) in tabs && dirs[current] == tabs[Node(current, L4)]
      requires dirs[current] in mem
      modifies this`mem, this`dirs, this`tabs, this`procs, this`owner, pmm`memused, pmm`used, pmm.bitmap, pmm.pages
      ensures pmm.Valid() && (newDir == 0 <==> old(|pmm.Free()|) == 0)
      ensures newDir == 0 ==>
        && Now() == old(Now()) && dirs == old(dirs)
        && pmm.used == old(pmm.used) && pmm.pages[..] == old(pmm.pages[..])
      ensures newDir != 0 ==>
        && newDir !in old(owner) && newDir != boot && newDir !in old(pmm.used) && newDir < pmm.pages.Length
        && Now() == WithChild(old(Now()), current, child, newDir)
        && dirs == old(dirs)[child := newDir]
        && pmm.used == old(pmm.used) + {newDir} && pmm.pages[..] == old(pmm.pages[..])[newDir := 1]
        && |pmm.Free()| == |old(pmm.Free())| - 1
    {
      hide Counted, FrameAllocator.Valid, FrameAllocator.Free;
      var oldDir := dirs[current];
      newDir := TakeFrame();
      if newDir == 0 { return; }                   // goto out
      mem := mem[newDir := mem[oldDir]];
      dirs := dirs[child := newDir];
      tabs := tabs[Node(child, L4) := newDir];
      owner := owner[newDir := TableFrame(Node(child, L4))];
      procs := procs[child := Process(procs[current].areas, map[])];
    }

    /** The start of sys_fork: a page for the task structure and a process number. */
    method NewTask() returns (child: nat, task: nat)
      requires BooksOk() && MemoryOk(Now()) && pmm.Free() != {}
      modifies this`nextPid, this`owner, pmm`memused, pmm`used, pmm.bitmap, pmm.pages
      ensures BooksOk() && MemoryOk(Now()) && Flat(Now()) == old(Flat(Now()))
      ensures child == old(nextPid) && nextPid == child + 1 && task !in old(owner)
      ensures owner == old(owner)[task := TaskFrame(child)]
      ensures pmm.used == old(pmm.used) + {task} && task !in old(pmm.used)
      ensures pmm.first <= task < pmm.End() <= pmm.pages.Length && old(pmm.pages[..])[task] == 0
      ensures pmm.pages[..] == old(pmm.pages[..])[task := 1]
      ensures |pmm.Free()| == |old(pmm.Free())| - 1
    {
      hide MemoryOk, Counted, Flat;
      ghost var m := Now();
      ghost var used, counts := pmm.used, pmm.pages[..];
      child := nextPid;
      task := TakeFrame();
      owner := owner[task := TaskFrame(child)];
      nextPid := nextPid + 1;
      OtherFrames(m, Now());
      CountedAlloc(m, Now(), task, TaskFrame(child), used, counts, boot);
    }

    /** sys_fork. The child is a copy of the caller; the caller keeps running. The result is
        -ENOMEM exactly if there is one free frame: it goes to the task structure, clone_mm finds
        none for the top-level table, and the error path frees the structure while it is still
        linked into the task list. The run ring holds it too. The kernel stops exactly if the
        frames last for the top-level table but not for all of them, or if the process numbers
        are used up. */
    method Fork() returns (code: int)
      requires Valid() && current in procs
      requires pmm.Free() != {}                    // alloc_page is not checked
      modifies this`mem, this`areas, this`dirs, this`tasks, this`nextPid, this`tabs, this`procs, this`owner, this`tlb
      modifies this`halted, pmm`memused, pmm`used, pmm.bitmap, pmm.pages
      ensures pmm.pages != null
      ensures halted <==> old(nextPid) >= 0x8000_0000 || 2 <= old(|pmm.Free()|) <= old(|TablesOf(tabs, current)|)
      ensures !halted ==>
        && code == (if old(|pmm.Free()|) == 1 then -ENOMEM else old(nextPid))
        && old(nextPid) !in old(tasks) && old(nextPid) in tasks
        && tasks == old(tasks)[old(nextPid) := tasks[old(nextPid)]] && nextPid == old(nextPid) + 1
        && (tasks[old(nextPid)] in pmm.Free() <==> old(|pmm.Free()|) == 1)
      ensures !halted && code < 0 ==>
        pmm.Valid() && pmm.used == old(pmm.used) && pmm.pages[..] == old(pmm.pages[..])
      ensures !halted && code >= 0 ==>
        && Valid()
        && Steps(old(Flat(Now())), E.Fork(current, code), boot, Flat(Now()), E.Done)
        && OthersTables(old(tabs), tabs, code)
    {
      hide MemoryOk, Counted, Flat, FieldsOk, Steps, OthersTables, TablesOf, FrameAllocator.Valid, FrameAllocator.Free;
      ghost var m, t := Now(), Tcbs();
      ForkFacts(m, t, boot, kernel, current, pmm.used, pmm.pages[..]);
      var child, task := NewTask();
      if child >= 0x8000_0000 {
        halted := true;                            // BUG_ON(p->pid < 0)
        return 0;
      }
      SameFlat(m, Now(), current, PageIx(0, 0, 0, 0));
      tasks := tasks[child := task];
      code := ForkInto(child, task, m, t);
      if code < 0 {
        assert pmm.pages[..][task] == 1;
        pmm.Release(task);                         // out: free_page(p)
      }
      if !halted {
        IsFree(pmm, task);
        assert code < 0 ==> pmm.pages[..] == old(pmm.pages[..]);
      }
    }

    /** sys_fork from clone_mm on. */
    method ForkInto(child: nat, task: nat, ghost m: Snap, ghost t: Tasks) returns (code: int)
      requires BooksOk() && Coherent() && !halted && child == nextPid - 1
      requires ForkBegun(m, Now(), t, Tcbs(), boot, kernel, current, task)
      modifies this`mem, this`areas, this`dirs, this`tabs, this`procs, this`owner, this`tlb, this`halted
      modifies pmm`memused, pmm`used, pmm.bitmap, pmm.pages
      ensures halted <==> 0 < old(|pmm.Free()|) < old(|TablesOf(tabs, current)|)
      ensures code == if old(|pmm.Free()|) == 0 then -ENOMEM else child
      ensures pmm.pages != null
      ensures code < 0 ==> pmm.Valid() && pmm.used == old(pmm.used) && pmm.pages[..] == old(pmm.pages[..])
      ensures !halted && code >= 0 ==>
        && task in pmm.used
        && Valid() && Steps(Flat(m), E.Fork(current, child), boot, Flat(Now()), E.Done)
        && OthersTables(m.tabs, tabs, child)
    {
      hide MemoryOk, Counted, Flat, FieldsOk, Steps, OthersTables, OnlyNewTables, TablesOf, ForkStep;
      hide FrameAllocator.Valid, FrameAllocator.Free;
      ghost var m1 := Now();
      var ret := CloneMm(child);
      if halted { return child; }
      if ret < 0 { return ret; }
      ForkDone(m, m1, Now(), t, Tcbs(), boot, kernel, current, child, task);
      TaskFramesUsed(Now(), Tcbs(), boot, kernel, child, pmm.used, pmm.pages[..]);
      return child;
    }

    /** alloc_phys_page on the kernel's own behalf: kmalloc takes a page for the heap, or map_page a
        table to map it with. No process sees it. */
    method GrowKernel() returns (f: nat)
      requires Valid()
      modifies this`owner, this`kernel, pmm`memused, pmm`used, pmm.bitmap, pmm.pages
      ensures Valid() && Flat(Now()) == old(Flat(Now()))
      ensures f == 0 <==> old(pmm.Free()) == {}
      ensures f == 0 ==> owner == old(owner) && kernel == old(kernel)
      ensures f != 0 ==> f in old(pmm.Free()) && owner == old(owner)[f := KernelFrame(1)]
      ensures f != 0 ==> kernel == old(kernel)[f := 1] && pmm.Free() == old(pmm.Free()) - {f}
    {
      hide MemoryOk, Counted, Flat, FieldsOk, FrameAllocator.Valid;
      ghost var m, used, counts := Now(), pmm.used, pmm.pages[..];
      f := TakeFrame();
      if f == 0 { return; }
      owner := owner[f := KernelFrame(1)];
      kernel := kernel[f := 1];
      KernelGrows(m, Now(), Tcbs(), boot, old(kernel), f, used, counts);
      SameFlat(m, Now(), current, PageIx(0, 0, 0, 0));
    }

    // ----- exit and exec

    /** free_mm of the running task: its tables and its area list. */
    method FreeMm()
      requires Consistent() && current in procs
      modifies this`areas, this`procs, this`tabs, this`owner, pmm`memused, pmm`used, pmm.bitmap, pmm.pages
      ensures BooksOk()
      ensures FT.Freeing(Now(), current) && FT.FreedTo(old(Now()), Now(), current, L4, 256)
      ensures areas == old(areas)[current := []]
    {
      hide MemoryOk, Counted, FieldsOk, Complete, FT.Freeing, FT.FreedTo;
      TaskFacts(Now(), Tcbs(), boot, kernel, current);
      FreeBegin(Now(), current);
      FreeTable(current, L4, dirs[current]);
      FreeAreas();
    }

    /** The last loop of free_mm. */
    method FreeAreas()
      requires current in areas
      modifies this`areas
      ensures areas == old(areas)[current := []]
    {
      while areas[current] != []
        invariant current in areas && areas == old(areas)[current := areas[current]]
        decreases |areas[current]|
      {
        areas := areas[current := areas[current][1..]];
      }
    }

    /** The context switch to another task: loading cr3 empties the translation cache. */
    method Switch(next: nat)
      requires Consistent() && (next in procs || next == 0)
      modifies this`current, this`tlb
      ensures Consistent() && current == next
      ensures next != old(current) ==> Valid() && tlb == map[]
      ensures next == old(current) ==> tlb == old(tlb)
    {
      hide MemoryOk, Counted, FieldsOk;
      if next != current {
        current := next;
        tlb := map[];
      }
    }

    /** free_task of the task that has just been switched away from. */
    method FreeTask(p: nat)
      requires BooksOk() && p in dirs && p in tasks && p in areas && Node(p, L4) in tabs && tabs[Node(p, L4)] == dirs[p]
      requires dirs[p] in pmm.used && tasks[p] in pmm.used && dirs[p] != tasks[p]
      requires pmm.pages[dirs[p]] == 1 && pmm.pages[tasks[p]] == 1
      modifies this`areas, this`dirs, this`tasks, this`tabs, this`procs, this`owner
      modifies pmm`memused, pmm`used, pmm.bitmap, pmm.pages
      ensures pmm.Valid()
      ensures Now() == Exited(old(Now()), old(Tcbs()), p)
      ensures Tcbs() == WithoutPid(old(Tcbs()), p) && tasks == old(tasks) - {p}
      ensures pmm.used == old(pmm.used - {dirs[p]} - {tasks[p]})
      ensures pmm.pages[..] == old(pmm.pages[..][dirs[p] := 0][tasks[p] := 0])
    {
      hide Counted;
      pmm.Release(dirs[p]);
      pmm.Release(tasks[p]);
      owner := owner - {dirs[p]} - {tasks[p]};
      tabs := tabs - {Node(p, L4)};
      procs := procs - {p};
      areas := areas - {p};
      dirs := dirs - {p};
      tasks := tasks - {p};
    }

    /** The switch away from a task that has exited, and free_task. */
    method Leave(prev: nat, next: nat)
      requires BooksOk() && !halted
      requires prev in dirs && prev in tasks && prev in areas && Node(prev, L4) in tabs
      requires tabs[Node(prev, L4)] == dirs[prev] && dirs[prev] != tasks[prev]
      requires dirs[prev] in pmm.used && tasks[prev] in pmm.used
      requires pmm.pages[dirs[prev]] == 1 && pmm.pages[tasks[prev]] == 1
      requires
        var m := Exited(Now(), Tcbs(), prev);
        && MemoryOk(m) && FieldsOk(m, WithoutPid(Tcbs(), prev), boot, kernel) && (next in m.procs || next == 0)
        && Counted(m, pmm.used - {dirs[prev]} - {tasks[prev]}, pmm.pages[..][dirs[prev] := 0][tasks[prev] := 0], boot)
      modifies this`areas, this`dirs, this`tasks, this`tabs, this`procs, this`owner, this`current, this`tlb
      modifies pmm`memused, pmm`used, pmm.bitmap, pmm.pages
      ensures Valid() && current == next
      ensures Now() == Exited(old(Now()), old(Tcbs()), prev) && tasks == old(tasks) - {prev}
    {
      hide MemoryOk, Counted, FieldsOk, Exited, WithoutPid, FrameAllocator.Valid, FrameAllocator.Free;
      current := next;
      tlb := map[];
      FreeTask(prev);
    }

    /** sys_exit: everything of the running task goes, and `next`, chosen by schedule, runs. */
    method Exit(next: nat)
      requires Consistent() && current in procs
      requires current != 1                        // BUG()
      requires next != current && (next in procs || next == 0)
      modifies this`areas, this`dirs, this`tasks, this`tabs, this`procs, this`owner, this`current, this`tlb
      modifies pmm`memused, pmm`used, pmm.bitmap, pmm.pages
      ensures Valid() && current == next
      ensures Steps(old(Flat(Now())), E.Exit(old(current)), boot, Flat(Now()), E.Done)
      ensures procs == old(procs) - {old(current)} && tasks == old(tasks) - {old(current)}
      ensures OthersTables(old(tabs), tabs, old(current))
    {
      hide MemoryOk, Counted, FieldsOk, Flat, Steps, OthersTables, FT.Freeing, FT.FreedTo, Exited, WithoutPid;
      hide FrameAllocator.Valid, FrameAllocator.Free, WithoutProcess, WithoutTask, DataMap, LeafAt;
      ghost var m, t := Now(), Tcbs();
      FaultFacts(m, t, boot, kernel, current, pmm.used, pmm.pages[..]);
      var prev := current;
      FreeMm();
      ExitDone(m, Now(), t, boot, kernel, prev, boot, pmm.used, pmm.pages[..]);
      ExitSame(Now(), t, prev);
      Leave(prev, next);
    }

    /** sys_exec, with the areas do_exec_elf builds. The source does not flush the translation
        cache, so the state is only fit for user code once the cache is empty. */
    method Exec(program: seq<Area>)
      requires Consistent() && current in procs && AreasOk(program)
      modifies this`mem, this`areas, this`tabs, this`procs, this`owner, pmm`memused, pmm`used, pmm.bitmap, pmm.pages
      ensures Consistent()
      ensures Coherent() <==> tlb == map[]
      ensures Steps(old(Flat(Now())), E.Exec(current, program), boot, Flat(Now()), E.Done)
      ensures OthersTables(old(tabs), tabs, current)
      ensures old(pmm.Free()) <= pmm.Free()
    {
      hide MemoryOk, Counted, FieldsOk, Flat, Steps, OthersTables, FT.Freeing, FT.FreedTo, WithProgram;
      hide FrameAllocator.Valid;
      ghost var m, t := Now(), Tcbs();
      FaultFacts(m, t, boot, kernel, current, pmm.used, pmm.pages[..]);
      FreeMm();
      ghost var m1 := Now();
      ExecDone(m, m1, t, boot, kernel, current, program, boot, pmm.used, pmm.pages[..]);
      ClearUserHalf(program);
      assert areas == t.areas[current := program];
      NothingCached(Now(), current, tlb);
      OwnedIsUsed(m, Now(), old(pmm.used), pmm.used, old(pmm.pages[..]), pmm.pages[..], boot);
    }

    /** memset over the user half of the top-level table, and the new area list. */
    method ClearUserHalf(program: seq<Area>)
      requires current in dirs && Node(current, L4) in tabs && tabs[Node(current, L4)] == dirs[current]
      requires dirs[current] in mem && mem[dirs[current]].TableOf?
      modifies this`mem, this`areas, this`procs
      ensures Now() == WithProgram(old(Now()), current, program)
      ensures areas == old(areas)[current := program]
    {
      mem := mem[dirs[current] := TableOf(ClearLower(mem[dirs[current]].t))];
      areas := areas[current := program];
      procs := procs[current := Process(program, map[])];
    }
  }

  /** No access takes more: three tables and a page. */
  lemma AtMostFour(k: Machine, addr: nat, write: bool)
    requires k.current in k.procs
    ensures k.FramesFor(addr, write) <= 4
  {
    LackingBounds(SlotsOf(k.tabs, k.current), PageOf(addr), 3);
  }

  lemma IsFree(a: FrameAllocator, f: nat)
    ensures f in a.Free() <==> a.first <= f < a.End() && f !in a.used
  {
  }

  /** The frame of a task structure is in use. */
  lemma TaskFramesUsed(m: Snap, t: Tasks, boot: nat, kernel: map<nat, int>, p: nat, used: set<nat>, counts: seq<int>)
    requires FieldsOk(m, t, boot, kernel) && Counted(m, used, counts, boot) && p in m.procs
    ensures p in t.frames && t.frames[p] in used
  {
    assert TaskOk(m, t, p);
  }

  /** Fewer owned frames, fewer frames in use. */
  lemma OwnedIsUsed(m: Snap, m2: Snap, used: set<nat>, used2: set<nat>, counts: seq<int>, counts2: seq<int>, boot: nat)
    requires Counted(m, used, counts, boot) && Counted(m2, used2, counts2, boot)
    requires forall f :: f in m2.owner ==> f in m.owner
    ensures used2 <= used
  {
    assert used == m.owner.Keys - {boot};
    assert used2 == m2.owner.Keys - {boot};
  }

  lemma TableAt(m: Snap, n: Node)
    requires Placed(m) && n in m.tabs
    ensures m.tabs[n] in m.mem && m.mem[m.tabs[n]].TableOf?
  {
  }
}
