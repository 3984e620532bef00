/** Four-level page tables stored in physical frames (src/include/mm.h: pte_t; the walks of
    src/mm/mm.c and src/mm/vmm.c), as a ghost map from tree positions to frames that the
    contents of the frames must agree with. */
module PageTables {
  import opened Memory
  import opened SharedPages

  /** A page-table entry: the frame number and the flags the kernel uses. */
  datatype Pte = Pte(frame: nat, present: bool, write: bool, user: bool)

  const NO_ENTRY := Pte(0, false, false, false)

  type Table = t: seq<Pte> | |t| == 512 witness seq(512, _ => NO_ENTRY)

  /** `memset(table, 0, PAGE_SIZE)` */
  function EmptyTable(): (t: Table)
    ensures forall ix: Ix :: t[ix] == NO_ENTRY
  {
    seq(512, _ => NO_ENTRY)
  }

  /** What a frame holds: a page table, or the bytes of a user page. */
  datatype Content = TableOf(t: Table) | DataOf(page: Page)

  // ----- positions in the tree

  /** A table's place in an address space: the loop indices on the way to it. */
  datatype Slot = L4 | L3(i: Ix) | L2(i: Ix, j: Ix) | L1(i: Ix, j: Ix, k: Ix)

  datatype Node = Node(pid: nat, slot: Slot)

  function Child(s: Slot, ix: Ix): Slot
    requires !s.L1?
  {
    match s
    case L4 => L3(ix)
    case L3(i) => L2(i, ix)
    case L2(i, j) => L1(i, j, ix)
  }

  function Parent(s: Slot): Slot
    requires !s.L4?
  {
    match s
    case L3(i) => L4
    case L2(i, j) => L3(i)
    case L1(i, j, k) => L2(i, j)
  }

  /** The index of a table in its parent. */
  function LastIx(s: Slot): Ix
    requires !s.L4?
  {
    match s
    case L3(i) => i
    case L2(i, j) => j
    case L1(i, j, k) => k
  }

  function PageAt(s: Slot, ix: Ix): PageIx
    requires s.L1?
  {
    PageIx(s.i, s.j, s.k, ix)
  }

  function LeafSlot(pg: PageIx): Slot { L1(pg.i, pg.j, pg.k) }

  /** b is a or lies below it. */
  predicate Under(a: Slot, b: Slot) {
    match a
    case L4 => true
    case L3(i) => !b.L4? && b.i == i
    case L2(i, j) => (b.L2? || b.L1?) && b.i == i && b.j == j
    case L1(i, j, k) => a == b
  }

  predicate PageUnder(a: Slot, pg: PageIx) {
    match a
    case L4 => true
    case L3(i) => pg.i == i
    case L2(i, j) => pg.i == i && pg.j == j
    case L1(i, j, k) => pg.i == i && pg.j == j && pg.k == k
  }

  /** How many entries of a table the user-half loops visit. */
  function Bound(s: Slot): nat { if s.L4? then 256 else 512 }

  // ----- memory and its ghost description

  datatype Owner =
    | TableFrame(node: Node)   // a page table of a live address space
    | DataFrame                // a user page
    | TaskFrame(pid: nat)      // the task_struct and kernel stack
    | KernelFrame(count: int)  // everything else: boot frames, the kernel heap

  /** Physical memory, where each table lies, what each process has mapped, and what each
      frame is used for. Only `mem` exists at run time. */
  datatype Snap = Snap(mem: map<nat, Content>, tabs: map<Node, nat>, procs: Processes, owner: map<nat, Owner>)

  /** Entry ix of the table in frame f. */
  function At(mem: map<nat, Content>, f: nat, ix: Ix): Pte {
    if f in mem && mem[f].TableOf? then mem[f].t[ix] else NO_ENTRY
  }

  function EntryAt(m: Snap, n: Node, ix: Ix): Pte {
    if n in m.tabs then At(m.mem, m.tabs[n], ix) else NO_ENTRY
  }

  function LeafAt(m: Snap, p: nat, pg: PageIx): Option<Leaf> {
    if p in m.procs && pg in m.procs[p].table then Some(m.procs[p].table[pg]) else None
  }

  /** The entry of a node agrees with the tree below it. */
  ghost predicate Linked(m: Snap, n: Node, ix: Ix) {
    var e := EntryAt(m, n, ix);
    if n.slot.L1? then
      var l := LeafAt(m, n.pid, PageAt(n.slot, ix));
      && (e.present <==> l.Some?)
      && (e.present ==> e.frame == l.value.frame && e.write == l.value.write && e.user)
    else
      var c := Node(n.pid, Child(n.slot, ix));
      && (e.present <==> c in m.tabs)
      && (e.present ==> e.frame == m.tabs[c] && e.write && e.user)
  }

  /** Tables lie in table frames of their own; a node's parent exists; user tables only. */
  ghost predicate Placed(m: Snap) {
    TablesInFrames(m) && ParentsExist(m) && FramesNamed(m)
  }

  ghost predicate TablesInFrames(m: Snap) {
    forall n :: n in m.tabs ==>
      && n.pid in m.procs
      && m.tabs[n] in m.mem && m.mem[m.tabs[n]].TableOf?
      && m.tabs[n] in m.owner && m.owner[m.tabs[n]] == TableFrame(n)
  }

  ghost predicate ParentsExist(m: Snap) {
    && (forall n :: n in m.tabs && !n.slot.L4? ==> n.slot.i < 256 && Node(n.pid, Parent(n.slot)) in m.tabs)
    && (forall p :: p in m.procs ==> Node(p, L4) in m.tabs)
  }

  /** Distinct positions lie in distinct frames: a table frame has one position. */
  ghost predicate FramesNamed(m: Snap) {
    forall f :: f in m.owner && m.owner[f].TableFrame? ==>
      m.owner[f].node in m.tabs && m.tabs[m.owner[f].node] == f
  }

  /** Mapped pages are user pages in data frames, and their level-1 table exists. */
  ghost predicate Mapped(m: Snap) {
    forall p, pg {:trigger LeafAt(m, p, pg)} :: LeafAt(m, p, pg).Some? ==>
      && Node(p, LeafSlot(pg)) in m.tabs
      && DataAt(m, LeafAt(m, p, pg).value.frame)
  }

  predicate DataAt(m: Snap, f: nat) {
    f in m.owner && m.owner[f] == DataFrame && f in m.mem && m.mem[f].DataOf?
  }

  ghost predicate AllLinked(m: Snap, p: nat) {
    forall n, ix: Ix {:trigger Linked(m, n, ix)} :: n in m.tabs && n.pid == p && ix < Bound(n.slot) ==> Linked(m, n, ix)
  }

  ghost predicate TreeOk(m: Snap) {
    && Placed(m) && Mapped(m)
    && forall p :: p in m.procs ==> AllLinked(m, p)
  }

  // ----- the hardware walk

  /** What the processor finds for a page in user mode, starting at the top-level table in frame
      `dir`. It may write only if every entry on the way allows it. */
  function Walk(mem: map<nat, Content>, dir: nat, pg: PageIx): Option<Leaf> {
    var e4 := At(mem, dir, pg.i);
    if !(e4.present && e4.user) then None else
    var e3 := At(mem, e4.frame, pg.j);
    if !(e3.present && e3.user) then None else
    var e2 := At(mem, e3.frame, pg.k);
    if !(e2.present && e2.user) then None else
    var e1 := At(mem, e2.frame, pg.l);
    if !(e1.present && e1.user) then None
    else Some(Leaf(e1.frame, e4.write && e3.write && e2.write && e1.write))
  }

  /** The four-level walk computes exactly the partial map of the process. */
  lemma WalkIsLookup(m: Snap, p: nat, pg: PageIx)
    requires TreeOk(m) && p in m.procs && IsUser(pg)
    ensures
      var table := m.procs[p].table;
      Walk(m.mem, m.tabs[Node(p, L4)], pg) == if pg in table then Some(table[pg]) else None
  {
    var n4, n3, n2, n1 := Node(p, L4), Node(p, L3(pg.i)), Node(p, L2(pg.i, pg.j)), Node(p, LeafSlot(pg));
    assert AllLinked(m, p);
    assert LeafAt(m, p, pg).Some? ==> n1 in m.tabs;
    assert n1 in m.tabs ==> n2 in m.tabs;
    assert n2 in m.tabs ==> n3 in m.tabs;
    assert Linked(m, n4, pg.i);
    if n3 in m.tabs {
      assert Linked(m, n3, pg.j);
      if n2 in m.tabs {
        assert Linked(m, n2, pg.k);
        if n1 in m.tabs {
          assert Linked(m, n1, pg.l);
        }
      }
    }
  }
}
