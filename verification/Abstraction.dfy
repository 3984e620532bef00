/** The sharing machine that a set of page tables stands for, and what each kernel operation on
    frames and tables means there. */
module Abstraction {
  import opened Memory
  import opened Areas
  import E = EagerFork
  import opened SharedPages
  import opened PageTables
  import opened CloneTables
  import opened FreeTables
  import opened GrowTables
  import opened Books

  function DataMap(m: Snap): map<nat, Page> {
    map f | f in m.owner && DataAt(m, f) :: m.mem[f].page
  }

  /** Forget tables and frames' owners; keep leaves and user pages. */
  function Flat(m: Snap): State {
    State(m.procs, DataMap(m))
  }

  /** Frames that hold user pages do hold bytes. */
  ghost predicate DataFramesHoldData(m: Snap) {
    forall f :: f in m.owner && m.owner[f] == DataFrame ==> DataAt(m, f)
  }

  /** All address spaces agree on the kernel half of their top-level table, and user code may use
      none of it. */
  ghost predicate TopsAgree(m: Snap) {
    forall p, ix: Ix {:trigger EntryAt(m, Node(p, L4), ix)} :: p in m.procs && 256 <= ix ==>
      EntryAt(m, Node(p, L4), ix) == EntryAt(m, Node(1, L4), ix) && !EntryAt(m, Node(p, L4), ix).user
  }

  /** The invariant of the whole memory manager, as far as it concerns frames and tables. */
  ghost predicate MemoryOk(m: Snap) {
    && 1 in m.procs
    && TreeOk(m)
    && DataFramesHoldData(m)
    && TopsAgree(m)
    && Inv(Flat(m))
  }

  lemma SameData(m0: Snap, m1: Snap)
    requires forall f {:trigger DataAt(m1, f)} :: DataAt(m1, f) <==> DataAt(m0, f)
    requires forall f {:trigger DataAt(m1, f)} :: DataAt(m0, f) && DataAt(m1, f) ==> m1.mem[f] == m0.mem[f]
    ensures DataMap(m1) == DataMap(m0)
  {
    forall f ensures f in DataMap(m1) <==> f in DataMap(m0)
      ensures f in DataMap(m0) ==> DataMap(m1)[f] == DataMap(m0)[f]
    {
      assert DataAt(m1, f) <==> DataAt(m0, f);
    }
  }

  lemma NewData(m0: Snap, m1: Snap, f: nat)
    requires forall g {:trigger DataAt(m1, g)} :: DataAt(m1, g) <==> DataAt(m0, g) || g == f
    requires forall g {:trigger DataAt(m1, g)} :: DataAt(m0, g) && g != f && DataAt(m1, g) ==> m1.mem[g] == m0.mem[g]
    ensures DataAt(m1, f)
    ensures DataMap(m1) == DataMap(m0)[f := m1.mem[f].page]
  {
    assert DataAt(m1, f);
    var want := DataMap(m0)[f := m1.mem[f].page];
    forall g ensures g in DataMap(m1) <==> g in want
      ensures g in want ==> DataMap(m1)[g] == want[g]
    {
      assert DataAt(m1, g) <==> DataAt(m0, g) || g == f;
    }
  }

  lemma SameTable(m: Snap, p: nat, q: nat, m1: Snap)
    requires p in m.procs && q in m1.procs
    requires forall pg :: LeafAt(m1, q, pg) == LeafAt(m, p, pg)
    ensures m1.procs[q].table == m.procs[p].table
  {
    forall pg ensures pg in m1.procs[q].table <==> pg in m.procs[p].table
      ensures pg in m.procs[p].table ==> m1.procs[q].table[pg] == m.procs[p].table[pg]
    {
      assert LeafAt(m1, q, pg) == LeafAt(m, p, pg);
    }
  }

  // ----- fork

  /** Right after clone_mm's first memcpy: the child has a copy of the top-level table. */
  function WithChild(m: Snap, p: nat, c: nat, f: nat): Snap
    requires p in m.procs && Node(p, L4) in m.tabs && m.tabs[Node(p, L4)] in m.mem
  {
    m.(mem := m.mem[f := m.mem[m.tabs[Node(p, L4)]]],
       tabs := m.tabs[Node(c, L4) := f],
       owner := m.owner[f := TableFrame(Node(c, L4))],
       procs := m.procs[c := Process(m.procs[p].areas, map[])])
  }

  lemma WithChildEntries(m: Snap, p: nat, c: nat, f: nat)
    requires Placed(m) && p in m.procs && c !in m.procs && f !in m.owner
    ensures
      var m1 := WithChild(m, p, c, f);
      && (forall k, jx: Ix {:trigger EntryAt(m1, k, jx)} :: k in m.tabs ==> EntryAt(m1, k, jx) == EntryAt(m, k, jx))
      && (forall jx: Ix {:trigger EntryAt(m1, Node(c, L4), jx)} :: EntryAt(m1, Node(c, L4), jx) == EntryAt(m, Node(p,
          L4), jx))
      && (forall q, pg {:trigger LeafAt(m1, q, pg)} :: LeafAt(m1, q, pg) == if q == c then None else LeafAt(m, q, pg))
      && (forall g {:trigger DataAt(m1, g)} :: DataAt(m1, g) <==> DataAt(m, g))
      && (forall g {:trigger DataAt(m1, g)} :: DataAt(m, g) ==> m1.mem[g] == m.mem[g])
      && (forall s :: Node(c, s) !in m.tabs)
  {
    var m1 := WithChild(m, p, c, f);
    forall g | DataAt(m, g) ensures m1.mem[g] == m.mem[g] {
      assert g != f;
    }
  }

  lemma WithChildPlaced(m: Snap, p: nat, c: nat, f: nat)
    requires Placed(m) && p in m.procs && c !in m.procs && f !in m.owner
    ensures Placed(WithChild(m, p, c, f))
  {
    hide TablesInFrames, ParentsExist, FramesNamed;
    ChildTop(m, p);
    WithChildFrames(m, p, c, f);
    WithChildParents(m, p, c, f);
  }

  lemma WithChildFrames(m: Snap, p: nat, c: nat, f: nat)
    requires TablesInFrames(m) && FramesNamed(m) && p in m.procs && c !in m.procs && f !in m.owner
    requires Node(p, L4) in m.tabs && m.tabs[Node(p, L4)] in m.mem
    ensures TablesInFrames(WithChild(m, p, c, f)) && FramesNamed(WithChild(m, p, c, f))
  {
  }

  lemma WithChildParents(m: Snap, p: nat, c: nat, f: nat)
    requires ParentsExist(m) && p in m.procs
    requires Node(p, L4) in m.tabs && m.tabs[Node(p, L4)] in m.mem
    ensures ParentsExist(WithChild(m, p, c, f))
  {
  }

  /** The copy starts from a state in which everything of the child is raw. */
  lemma CloneStart(m: Snap, p: nat, c: nat, f: nat)
    requires TreeOk(m) && p in m.procs && c !in m.procs && f !in m.owner
    ensures
      var m1 := WithChild(m, p, c, f);
      && p != c && Copying(m1, p, c)
      && (forall ix: Ix :: ix < Bound(L4) ==> Raw(m1, p, c, L4, ix))
  {
    var m1 := WithChild(m, p, c, f);
    WithChildPlaced(m, p, c, f);
    WithChildEntries(m, p, c, f);
    forall q, pg | LeafAt(m1, q, pg).Some?
      ensures Node(q, LeafSlot(pg)) in m1.tabs && DataAt(m1, LeafAt(m1, q, pg).value.frame)
    {
      assert LeafAt(m, q, pg).Some? && DataAt(m, LeafAt(m, q, pg).value.frame);
    }
    forall ix: Ix ensures Raw(m1, p, c, L4, ix) {
      assert Node(c, Child(L4, ix)) !in m.tabs;
    }
    forall q, k, jx: Ix | q in m1.procs && q != c && k in m1.tabs && k.pid == q && jx < Bound(k.slot)
      ensures Linked(m1, k, jx)
    {
      assert AllLinked(m, q);
      assert Linked(m, k, jx);
      assert EntryAt(m1, k, jx) == EntryAt(m, k, jx);
      if k.slot.L1? { assert LeafAt(m1, q, PageAt(k.slot, jx)) == LeafAt(m, q, PageAt(k.slot, jx)); }
    }
    forall k, jx: Ix | k in m1.tabs && k.pid == c && jx < Bound(k.slot) ensures FinishedOrRaw(m1, p, c, k, jx) {
      assert k.slot == L4;
    }
  }

  /** The copy ends in the sharing machine's fork. */
  lemma CloneEnd(m: Snap, m2: Snap, p: nat, c: nat, f: nat)
    requires TreeOk(m) && p in m.procs && c !in m.procs && f !in m.owner
    requires Copying(m2, p, c) && Complete(m2, c, L4)
    requires SameOutside(WithChild(m, p, c, f), m2, p, c, L4)
    requires Copied(WithChild(m, p, c, f), m2, p, c, L4, 512)
    ensures TreeOk(m2)
    ensures m2.procs == ForkStep(Flat(m), p, c).procs
    ensures DataFramesHoldData(m) ==> DataMap(m2) == DataMap(m) && DataFramesHoldData(m2)
  {
    var m1 := WithChild(m, p, c, f);
    WithChildEntries(m, p, c, f);
    CloneEndTree(m2, p, c);
    CloneEndProcs(m, m2, p, c, f);
    if DataFramesHoldData(m) { CloneEndData(m, m2, p, c, f); }
  }

  lemma CloneEndTree(m2: Snap, p: nat, c: nat)
    requires Copying(m2, p, c) && Complete(m2, c, L4)
    ensures TreeOk(m2)
  {
    forall n, ix: Ix | n in m2.tabs && n.pid == c && ix < Bound(n.slot) ensures Linked(m2, n, ix) {
      assert Under(L4, n.slot);
    }
  }

  lemma CloneEndLeaf(m: Snap, m2: Snap, p: nat, c: nat, f: nat, q: nat, pg: PageIx)
    requires Placed(m) && p in m.procs && c !in m.procs && f !in m.owner
    requires Node(p, L4) in m.tabs && m.tabs[Node(p, L4)] in m.mem
    requires SameLeaves(WithChild(m, p, c, f), m2, p, c, L4)
    requires Copied(WithChild(m, p, c, f), m2, p, c, L4, 512)
    ensures LeafAt(m2, q, pg) == if q == p || q == c then ReadOnly(LeafAt(m, p, pg)) else LeafAt(m, q, pg)
  {
    hide TablesInFrames, FramesNamed;
    var m1 := WithChild(m, p, c, f);
    WithChildEntries(m, p, c, f);
    assert PageUnder(L4, pg);
    assert LeafAt(m2, p, pg) == ReadOnly(LeafAt(m1, p, pg));
    assert LeafAt(m1, p, pg) == LeafAt(m, p, pg);
    if q != p && q != c { assert LeafAt(m2, q, pg) == LeafAt(m1, q, pg) == LeafAt(m, q, pg); }
  }

  lemma CloneEndProcs(m: Snap, m2: Snap, p: nat, c: nat, f: nat)
    requires Placed(m) && p in m.procs && c !in m.procs && f !in m.owner
    requires SameLeaves(WithChild(m, p, c, f), m2, p, c, L4)
    requires Copied(WithChild(m, p, c, f), m2, p, c, L4, 512)
    ensures m2.procs == ForkStep(Flat(m), p, c).procs
  {
    var want := ForkStep(Flat(m), p, c).procs;
    var t := m.(procs := want);
    CloneEndAreas(m, m2, p, c, f);
    ChildTop(m, p);
    hide Placed, WithChild, SameLeaves, Copied;
    forall q, pg | q in want ensures LeafAt(m2, q, pg) == LeafAt(t, q, pg) {
      CloneEndLeaf(m, m2, p, c, f, q, pg);
      ForkLeaf(m, p, c, q, pg);
    }
    forall q | q in want ensures m2.procs[q] == want[q] {
      SameTable(t, q, q, m2);
    }
  }

  lemma ChildTop(m: Snap, p: nat)
    requires Placed(m) && p in m.procs
    ensures Node(p, L4) in m.tabs && m.tabs[Node(p, L4)] in m.mem
  {
  }

  lemma ForkLeaf(m: Snap, p: nat, c: nat, q: nat, pg: PageIx)
    requires p in m.procs && c !in m.procs
    ensures
      var t := m.(procs := ForkStep(Flat(m), p, c).procs);
      LeafAt(t, q, pg) == if q == p || q == c then ReadOnly(LeafAt(m, p, pg)) else LeafAt(m, q, pg)
  {
  }

  lemma CloneEndAreas(m: Snap, m2: Snap, p: nat, c: nat, f: nat)
    requires p in m.procs && c !in m.procs && Node(p, L4) in m.tabs && m.tabs[Node(p, L4)] in m.mem
    requires SameLeaves(WithChild(m, p, c, f), m2, p, c, L4)
    ensures
      var want := ForkStep(Flat(m), p, c).procs;
      m2.procs.Keys == want.Keys && forall q :: q in want ==> m2.procs[q].areas == want[q].areas
  {
  }

  lemma CloneEndData(m: Snap, m2: Snap, p: nat, c: nat, f: nat)
    requires Placed(m) && p in m.procs && c !in m.procs && f !in m.owner && DataFramesHoldData(m)
    requires SameOwners(WithChild(m, p, c, f), m2, c)
    ensures DataMap(m2) == DataMap(m) && DataFramesHoldData(m2)
  {
    var m1 := WithChild(m, p, c, f);
    WithChildEntries(m, p, c, f);
    forall g ensures DataAt(m2, g) <==> DataAt(m, g) {
      assert DataAt(m1, g) <==> DataAt(m, g);
    }
    forall g | DataAt(m, g) ensures m2.mem[g] == m.mem[g] { assert DataAt(m2, g) && DataAt(m1, g); }
    SameData(m, m2);
  }

  lemma CloneTops(m: Snap, m2: Snap, p: nat, c: nat, f: nat)
    requires TreeOk(m) && p in m.procs && c !in m.procs && f !in m.owner && TopsAgree(m) && 1 in m.procs
    requires SameOutside(WithChild(m, p, c, f), m2, p, c, L4) && SameTop(WithChild(m, p, c, f), m2, c, L4)
    ensures TopsAgree(m2)
  {
    var m1 := WithChild(m, p, c, f);
    WithChildEntries(m, p, c, f);
    forall q, ix: Ix | q in m2.procs && 256 <= ix ensures EntryAt(m2, Node(q, L4), ix) == EntryAt(m, Node(1, L4), ix) {
      assert Node(q, L4) in m1.tabs;
      if q != c { assert EntryAt(m2, Node(q, L4), ix) == EntryAt(m1, Node(q, L4), ix) == EntryAt(m, Node(q, L4), ix); }
      else { assert EntryAt(m2, Node(c, L4), ix) == EntryAt(m1, Node(c, L4), ix) == EntryAt(m, Node(p, L4), ix); }
    }
  }

  /** fork as a whole: the tables of parent and child implement the sharing machine's fork. */
  lemma CloneMemoryOk(m: Snap, m2: Snap, p: nat, c: nat, f: nat)
    requires MemoryOk(m) && p in m.procs && c !in m.procs && f !in m.owner
    requires Copying(m2, p, c) && Complete(m2, c, L4)
    requires SameOutside(WithChild(m, p, c, f), m2, p, c, L4) && SameTop(WithChild(m, p, c, f), m2, c, L4)
    requires Copied(WithChild(m, p, c, f), m2, p, c, L4, 512)
    ensures MemoryOk(m2)
    ensures Flat(m2) == ForkStep(Flat(m), p, c)
  {
    hide Inv, Copying, Complete, SameOutside, SameTop, Copied, TreeOk, DataFramesHoldData, TopsAgree, WithChild,
        DataMap;
    CloneEnd(m, m2, p, c, f);
    CloneTops(m, m2, p, c, f);
    ForkOk(Flat(m), p, c);
  }

  // ----- exit and exec

  /** free_mm took everything of p except its top-level table, and nothing of anybody else. */
  lemma FreedAll(m: Snap, m1: Snap, p: nat)
    requires TreeOk(m) && p in m.procs && FreedTo(m, m1, p, L4, 256)
    ensures forall n :: n in m1.tabs <==> n in m.tabs && (n.pid == p ==> n.slot == L4)
    ensures m1.procs == m.procs[p := m.procs[p].(table := map[])]
  {
    hide TablesInFrames, FramesNamed, AllLinked, OnlyFreed;
    forall n | n in m.tabs && n.pid == p && n.slot != L4 ensures BelowBefore(L4, 256, n.slot) {
      assert n.slot.i < 256;
    }
    forall pg ensures LeafAt(m1, p, pg) == None {
      if LeafAt(m, p, pg).Some? { assert Node(p, LeafSlot(pg)) in m.tabs; }
      assert PageUnder(L4, pg);
    }
    assert m1.procs[p].table == map[] by {
      forall pg ensures pg !in m1.procs[p].table { assert LeafAt(m1, p, pg) == None; }
    }
    forall q | q in m.procs && q != p ensures m1.procs[q] == m.procs[q] {
      forall pg ensures LeafAt(m1, q, pg) == LeafAt(m, q, pg) {}
      SameTable(m, q, q, m1);
    }
  }

  /** The frames left are those somebody else names: the sharing machine's FreeStep. */
  lemma FreedData(m: Snap, m1: Snap, m2: Snap, p: nat)
    requires TreeOk(m) && p in m.procs && FreedTo(m, m1, p, L4, 256) && Freeing(m1, p)
    requires DataFramesHoldData(m)
    requires forall f {:trigger DataAt(m2, f)} :: DataAt(m2, f) <==> DataAt(m1, f)
    requires forall f {:trigger DataAt(m2, f)} :: DataAt(m1, f) && DataAt(m2, f) ==> m2.mem[f] == m1.mem[f]
    ensures DataMap(m2) == FreeStep(Flat(m), p).data
  {
    hide TreeOk, Freeing, FreedTabs, FreedLeaves, OnlyFreed, DataFramesHoldData;
    FreedAll(m, m1, p);
    var rest := m.procs - {p};
    var want := FreeStep(Flat(m), p).data;
    forall k, f ensures Names(m1.procs, k, f) <==> Names(rest, k, f) {}
    forall f ensures f in DataMap(m2) <==> f in want
      ensures f in want ==> DataMap(m2)[f] == want[f]
    {
      assert DataAt(m2, f) <==> DataAt(m1, f);
      FreedDataAt(m, m1, p, f);
    }
  }

  lemma FreedDataAt(m: Snap, m1: Snap, p: nat, f: nat)
    requires TreeOk(m) && p in m.procs && FreedTo(m, m1, p, L4, 256) && Freeing(m1, p)
    requires DataFramesHoldData(m)
    requires forall k :: Names(m1.procs, k, f) <==> Names(m.procs - {p}, k, f)
    ensures DataAt(m1, f) <==> DataAt(m, f) && Refs(m.procs - {p}, f) != {}
  {
    if DataAt(m1, f) {
      var k :| Names(m1.procs, k, f);
      assert k in Refs(m.procs - {p}, f);
    }
    if DataAt(m, f) && Refs(m.procs - {p}, f) != {} {
      var k :| k in Refs(m.procs - {p}, f);
      assert Names(m1.procs, k, f);
      assert LeafAt(m1, k.pid, k.page).Some?;
      assert DataAt(m1, LeafAt(m1, k.pid, k.page).value.frame);
    }
  }

  /** sys_exit and free_task: the address space is gone, with its top-level table. */
  function WithoutProcess(m1: Snap, p: nat): Snap
    requires Node(p, L4) in m1.tabs
  {
    m1.(tabs := m1.tabs - {Node(p, L4)},
        procs := m1.procs - {p},
        owner := m1.owner - {m1.tabs[Node(p, L4)]})
  }

  lemma ExitTree(m: Snap, m1: Snap, p: nat)
    requires TreeOk(m) && p in m.procs && FreedTo(m, m1, p, L4, 256) && Freeing(m1, p)
    ensures Node(p, L4) in m1.tabs
    ensures TreeOk(WithoutProcess(m1, p))
  {
    hide FramesNamed, FreedTo, AllFramesUsed;
    FreedAll(m, m1, p);
    assert Node(p, L4) in m.tabs;
    var m2 := WithoutProcess(m1, p);
    ExitPlaced(m1, p);
    ExitMapped(m1, p);
    ExitLinked(m1, p);
  }

  lemma ExitLinked(m1: Snap, p: nat)
    requires Node(p, L4) in m1.tabs && forall q :: q in m1.procs && q != p ==> AllLinked(m1, q)
    ensures
      var m2 := WithoutProcess(m1, p);
      forall q :: q in m2.procs ==> AllLinked(m2, q)
  {
    var m2 := WithoutProcess(m1, p);
    forall q, n, ix: Ix | q in m2.procs && n in m2.tabs && n.pid == q && ix < Bound(n.slot) ensures Linked(m2, n, ix) {
      assert AllLinked(m1, q);
      assert Linked(m1, n, ix);
      assert EntryAt(m2, n, ix) == EntryAt(m1, n, ix);
      if n.slot.L1? { assert LeafAt(m2, q, PageAt(n.slot, ix)) == LeafAt(m1, q, PageAt(n.slot, ix)); }
    }
  }

  lemma ExitMapped(m1: Snap, p: nat)
    requires TablesInFrames(m1) && Mapped(m1) && Node(p, L4) in m1.tabs
    ensures Mapped(WithoutProcess(m1, p))
  {
    var m2 := WithoutProcess(m1, p);
    forall q, pg | LeafAt(m2, q, pg).Some?
      ensures Node(q, LeafSlot(pg)) in m2.tabs && DataAt(m2, LeafAt(m2, q, pg).value.frame)
    {
      assert LeafAt(m1, q, pg) == LeafAt(m2, q, pg);
      assert DataAt(m1, LeafAt(m1, q, pg).value.frame);
    }
  }

  lemma ExitPlaced(m1: Snap, p: nat)
    requires Placed(m1) && Node(p, L4) in m1.tabs
    requires forall n :: n in m1.tabs && n.pid == p ==> n.slot == L4
    ensures Placed(WithoutProcess(m1, p))
  {
    var m2 := WithoutProcess(m1, p);
    assert TablesInFrames(m2);
    assert ParentsExist(m2);
    assert FramesNamed(m2);
  }

  /** exit as a whole: it is the sharing machine's FreeStep. */
  lemma ExitMemoryOk(m: Snap, m1: Snap, p: nat)
    requires MemoryOk(m) && p in m.procs && p != 1 && FreedTo(m, m1, p, L4, 256) && Freeing(m1, p)
    ensures Node(p, L4) in m1.tabs
    ensures MemoryOk(WithoutProcess(m1, p))
    ensures Flat(WithoutProcess(m1, p)) == FreeStep(Flat(m), p)
  {
    hide Inv, TreeOk, FreedTo, Freeing, TopsAgree, DataFramesHoldData, DataMap;
    ExitTree(m, m1, p);
    FreedAll(m, m1, p);
    ExitData(m, m1, p);
    ExitTops(m, m1, p);
    assert m1.procs - {p} == m.procs - {p};
    FreeOk(Flat(m), p);
  }

  lemma ExitData(m: Snap, m1: Snap, p: nat)
    requires TreeOk(m) && DataFramesHoldData(m)
    requires p in m.procs && FreedTo(m, m1, p, L4, 256) && Freeing(m1, p) && Node(p, L4) in m1.tabs
    ensures DataMap(WithoutProcess(m1, p)) == FreeStep(Flat(m), p).data
    ensures DataFramesHoldData(WithoutProcess(m1, p))
  {
    var m2 := WithoutProcess(m1, p);
    TopFrame(m1, p);
    FreedHoldData(m, m1, p);
    hide TreeOk, FreedTo, Freeing;
    forall f ensures DataAt(m2, f) <==> DataAt(m1, f) {}
    FreedData(m, m1, m2, p);
  }

  lemma ExitTops(m: Snap, m1: Snap, p: nat)
    requires TreeOk(m) && TopsAgree(m) && 1 in m.procs && p in m.procs && p != 1 && FreedTo(m, m1, p, L4, 256)
    requires Node(p, L4) in m1.tabs
    ensures TopsAgree(WithoutProcess(m1, p))
  {
    FreedAll(m, m1, p);
    hide TopsAgree, FreedTo;
    FreedTops(m, m1, WithoutProcess(m1, p), p);
  }

  lemma TopFrame(m1: Snap, p: nat)
    requires Freeing(m1, p)
    ensures Node(p, L4) in m1.tabs && m1.tabs[Node(p, L4)] in m1.owner
    ensures m1.owner[m1.tabs[Node(p, L4)]] == TableFrame(Node(p, L4))
  {
  }

  lemma FreedHoldData(m: Snap, m1: Snap, p: nat)
    requires DataFramesHoldData(m) && FreedTo(m, m1, p, L4, 256)
    ensures DataFramesHoldData(m1)
  {
    forall f | f in m1.owner && m1.owner[f] == DataFrame ensures DataAt(m1, f) {
      assert DataAt(m, f);
    }
  }

  lemma FreedTops(m: Snap, m1: Snap, m2: Snap, p: nat)
    requires TreeOk(m) && TopsAgree(m) && FreedTo(m, m1, p, L4, 256) && 1 in m.procs && p in m.procs
    requires m2.procs.Keys <= m.procs.Keys && 1 in m2.procs
    requires forall q :: q in m2.procs ==> Node(q, L4) in m2.tabs && m2.tabs[Node(q, L4)] == m1.tabs[Node(q, L4)]
    requires forall q, ix: Ix :: q in m2.procs && 256 <= ix ==>
        EntryAt(m2, Node(q, L4), ix) == EntryAt(m1, Node(q, L4), ix)
    requires forall q :: q in m.procs ==> Node(q, L4) in m1.tabs
    ensures TopsAgree(m2)
  {
    forall q, ix: Ix | q in m2.procs && 256 <= ix
      ensures EntryAt(m2, Node(q, L4), ix) == EntryAt(m2, Node(1, L4), ix) && !EntryAt(m2, Node(q, L4), ix).user
    {
      assert EntryAt(m2, Node(q, L4), ix) == EntryAt(m1, Node(q, L4), ix) == EntryAt(m, Node(q, L4), ix);
      assert EntryAt(m2, Node(1, L4), ix) == EntryAt(m1, Node(1, L4), ix) == EntryAt(m, Node(1, L4), ix);
    }
  }

  /** sys_exec after free_mm: the lower 256 entries are cleared and the new areas take over. */
  function WithProgram(m1: Snap, p: nat, areas: seq<Area>): Snap
    requires Node(p, L4) in m1.tabs && m1.tabs[Node(p, L4)] in m1.mem && m1.mem[m1.tabs[Node(p, L4)]].TableOf?
  {
    var t := m1.tabs[Node(p, L4)];
    m1.(mem := m1.mem[t := TableOf(ClearLower(m1.mem[t].t))],
        procs := m1.procs[p := Process(areas, map[])])
  }

  function ClearLower(t: Table): (r: Table)
    ensures forall ix: Ix :: r[ix] == if ix < 256 then NO_ENTRY else t[ix]
  {
    seq(512, n requires 0 <= n < 512 => if n < 256 then NO_ENTRY else t[n])
  }

  lemma ExecEntries(m1: Snap, p: nat, areas: seq<Area>)
    requires Freeing(m1, p) && m1.procs[p].table == map[]
    ensures Node(p, L4) in m1.tabs && m1.tabs[Node(p, L4)] in m1.mem && m1.mem[m1.tabs[Node(p, L4)]].TableOf?
    ensures
      var m2 := WithProgram(m1, p, areas);
      && Placed(m2)
      && (forall n, ix: Ix {:trigger EntryAt(m2, n, ix)} :: n != Node(p, L4) ==>
          EntryAt(m2, n, ix) == EntryAt(m1, n, ix))
      && (forall ix: Ix {:trigger EntryAt(m2, Node(p, L4), ix)} ::
            EntryAt(m2, Node(p, L4), ix) == if ix < 256 then NO_ENTRY else EntryAt(m1, Node(p, L4), ix))
      && (forall q, pg {:trigger LeafAt(m2, q, pg)} :: LeafAt(m2, q, pg) == LeafAt(m1, q, pg))
      && (forall f {:trigger DataAt(m2, f)} :: DataAt(m2, f) <==> DataAt(m1, f))
      && (forall f {:trigger DataAt(m2, f)} :: DataAt(m2, f) && DataAt(m1, f) ==> m2.mem[f] == m1.mem[f])
  {
    forall k | k in m1.tabs && k != Node(p, L4) ensures m1.tabs[k] != m1.tabs[Node(p, L4)] {
      TablesDiffer(m1, k, Node(p, L4));
    }
  }

  lemma ExecTree(m: Snap, m1: Snap, p: nat, areas: seq<Area>)
    requires TreeOk(m) && p in m.procs && FreedTo(m, m1, p, L4, 256) && Freeing(m1, p)
    ensures m1.procs[p].table == map[]
    ensures Node(p, L4) in m1.tabs && m1.tabs[Node(p, L4)] in m1.mem && m1.mem[m1.tabs[Node(p, L4)]].TableOf?
    ensures TreeOk(WithProgram(m1, p, areas))
  {
    FreedAll(m, m1, p);
    ExecEntries(m1, p, areas);
    var m2 := WithProgram(m1, p, areas);
    forall q, pg | LeafAt(m2, q, pg).Some?
      ensures Node(q, LeafSlot(pg)) in m2.tabs && DataAt(m2, LeafAt(m2, q, pg).value.frame)
    {
      assert LeafAt(m1, q, pg).Some? && DataAt(m1, LeafAt(m1, q, pg).value.frame);
    }
    forall q, n, ix: Ix | q in m2.procs && n in m2.tabs && n.pid == q && ix < Bound(n.slot) ensures Linked(m2, n, ix) {
      if q != p { assert AllLinked(m1, q) && Linked(m1, n, ix); }
      ExecLinked(m1, p, areas, n, ix);
    }
  }

  lemma ExecLinked(m1: Snap, p: nat, areas: seq<Area>, n: Node, ix: Ix)
    requires Freeing(m1, p) && m1.procs[p].table == map[]
    requires Node(p, L4) in m1.tabs && m1.tabs[Node(p, L4)] in m1.mem && m1.mem[m1.tabs[Node(p, L4)]].TableOf?
    requires forall k :: k in m1.tabs && k.pid == p ==> k.slot == L4
    requires n in m1.tabs && ix < Bound(n.slot) && (n.pid != p ==> Linked(m1, n, ix))
    ensures Linked(WithProgram(m1, p, areas), n, ix)
  {
    hide Freeing;
    var m2 := WithProgram(m1, p, areas);
    ExecEntries(m1, p, areas);
    if n.pid == p {
      assert n == Node(p, L4);
    } else {
      assert EntryAt(m2, n, ix) == EntryAt(m1, n, ix);
      if n.slot.L1? { assert LeafAt(m2, n.pid, PageAt(n.slot, ix)) == LeafAt(m1, n.pid, PageAt(n.slot, ix)); }
    }
  }

  /** exec as a whole. */
  lemma ExecMemoryOk(m: Snap, m1: Snap, p: nat, areas: seq<Area>)
    requires MemoryOk(m) && p in m.procs && FreedTo(m, m1, p, L4, 256) && Freeing(m1, p) && AreasOk(areas)
    ensures Node(p, L4) in m1.tabs && m1.tabs[Node(p, L4)] in m1.mem && m1.mem[m1.tabs[Node(p, L4)]].TableOf?
    ensures MemoryOk(WithProgram(m1, p, areas))
    ensures
      var t := FreeStep(Flat(m), p);
      Flat(WithProgram(m1, p, areas)) == t.(procs := t.procs[p := Process(areas, map[])])
  {
    hide Inv, TreeOk, TopsAgree, FreedTo, Freeing;
    ExecTree(m, m1, p, areas);
    FreedAll(m, m1, p);
    ExecEntries(m1, p, areas);
    var m2 := WithProgram(m1, p, areas);
    assert m2.procs == (m.procs - {p})[p := Process(areas, map[])];
    FreedData(m, m1, m2, p);
    FreeOk(Flat(m), p);
    ExecOk(FreeStep(Flat(m), p), p, areas);
    FreedHoldData(m, m1, p);
    ExecTops(m, m1, p, areas);
  }

  lemma ExecTops(m: Snap, m1: Snap, p: nat, areas: seq<Area>)
    requires TreeOk(m) && TopsAgree(m) && FreedTo(m, m1, p, L4, 256) && 1 in m.procs && p in m.procs
    requires Freeing(m1, p) && m1.procs[p].table == map[] && m1.procs.Keys == m.procs.Keys
    requires Node(p, L4) in m1.tabs && m1.tabs[Node(p, L4)] in m1.mem && m1.mem[m1.tabs[Node(p, L4)]].TableOf?
    ensures TopsAgree(WithProgram(m1, p, areas))
  {
    var m2 := WithProgram(m1, p, areas);
    ExecEntries(m1, p, areas);
    forall q, ix: Ix | q in m2.procs && 256 <= ix ensures EntryAt(m2, Node(q, L4), ix) == EntryAt(m1, Node(q, L4),
        ix) {}
    FreedTops(m, m1, m2, p);
  }

  // ----- frames of task structures and of the kernel

  /** The same memory, with a frame more or less that holds neither a table nor a page. */
  ghost predicate SameUserFrames(m: Snap, m1: Snap) {
    && m1.mem == m.mem && m1.tabs == m.tabs && m1.procs == m.procs
    && (forall f :: f in m.owner && UserFrame(m.owner[f]) ==> f in m1.owner && m1.owner[f] == m.owner[f])
    && (forall f :: f in m1.owner && UserFrame(m1.owner[f]) ==> f in m.owner && m.owner[f] == m1.owner[f])
  }

  predicate UserFrame(o: Owner) {
    o.TableFrame? || o.DataFrame?
  }

  lemma OtherFrames(m: Snap, m1: Snap)
    requires MemoryOk(m) && SameUserFrames(m, m1)
    ensures MemoryOk(m1) && Flat(m1) == Flat(m)
  {
    forall k, ix: Ix ensures EntryAt(m1, k, ix) == EntryAt(m, k, ix) {}
    forall q, pg ensures LeafAt(m1, q, pg) == LeafAt(m, q, pg) {}
    forall f ensures DataAt(m1, f) <==> DataAt(m, f) {}
    OtherFramesTree(m, m1);
    hide Inv, TreeOk;
    SameData(m, m1);
    forall f | f in m1.owner && m1.owner[f] == DataFrame ensures DataAt(m1, f) { assert DataAt(m, f); }
    forall p, ix: Ix | p in m1.procs && 256 <= ix ensures EntryAt(m1, Node(p, L4), ix) == EntryAt(m1, Node(1, L4), ix) {
      assert EntryAt(m, Node(p, L4), ix) == EntryAt(m, Node(1, L4), ix);
    }
  }

  lemma OtherFramesTree(m: Snap, m1: Snap)
    requires TreeOk(m) && SameUserFrames(m, m1)
    ensures TreeOk(m1)
  {
    assert TablesInFrames(m1);
    assert FramesNamed(m1);
    forall f | DataAt(m, f) ensures DataAt(m1, f) {}
    forall q, pg | LeafAt(m1, q, pg).Some?
      ensures Node(q, LeafSlot(pg)) in m1.tabs && DataAt(m1, LeafAt(m1, q, pg).value.frame)
    {
      assert LeafAt(m, q, pg).Some? && DataAt(m, LeafAt(m, q, pg).value.frame);
    }
    forall p, n, ix: Ix | p in m1.procs && n in m1.tabs && n.pid == p && ix < Bound(n.slot) ensures Linked(m1, n, ix) {
      assert AllLinked(m, p);
      assert Linked(m, n, ix);
      OtherLinked(m, m1, n, ix);
    }
  }

  lemma OtherLinked(m: Snap, m1: Snap, n: Node, ix: Ix)
    requires SameUserFrames(m, m1) && Linked(m, n, ix)
    ensures Linked(m1, n, ix)
  {
    assert EntryAt(m1, n, ix) == EntryAt(m, n, ix);
    if n.slot.L1? { assert LeafAt(m1, n.pid, PageAt(n.slot, ix)) == LeafAt(m, n.pid, PageAt(n.slot, ix)); }
  }
}
