/** The proof of free_mm's table walk (src/mm/mm.c:81-112): what one iteration of its loops takes
    away, and why nothing another process needs is among it. */
module FreeTables {
  import opened Memory
  import opened SharedPages
  import opened PageTables
  import opened CloneTables

  /** Every user frame is mapped by somebody. */
  ghost predicate AllFramesUsed(m: Snap) {
    forall f :: f in m.owner && m.owner[f] == DataFrame ==> exists k :: Names(m.procs, k, f)
  }

  /** What holds at every point while the address space of p is taken apart. */
  ghost predicate Freeing(m: Snap, p: nat) {
    && p in m.procs
    && Placed(m) && Mapped(m) && AllFramesUsed(m)
    && forall q :: q in m.procs && q != p ==> AllLinked(m, q)
  }

  /** t lies below the first i entries of the table at s. */
  predicate BelowBefore(s: Slot, i: nat, t: Slot) {
    Under(s, t) && t != s && StepTo(s, t) < i
  }

  /** From m0 to m, exactly the tables and pages of p below the first i entries of s are gone,
      and of the frames exactly those that held them and that nobody else names. */
  ghost predicate FreedTo(m0: Snap, m: Snap, p: nat, s: Slot, i: nat) {
    && m.mem == m0.mem
    && FreedTabs(m0, m, p, s, i)
    && FreedLeaves(m0, m, p, s, i)
    && OnlyFreed(m0, m, p)
  }

  ghost predicate FreedTabs(m0: Snap, m: Snap, p: nat, s: Slot, i: nat) {
    && (forall n :: n in m.tabs <==> n in m0.tabs && !(n.pid == p && BelowBefore(s, i, n.slot)))
    && (forall n :: n in m.tabs ==> m.tabs[n] == m0.tabs[n])
  }

  ghost predicate FreedLeaves(m0: Snap, m: Snap, p: nat, s: Slot, i: nat) {
    && m.procs.Keys == m0.procs.Keys
    && (forall q :: q in m0.procs ==> m.procs[q].areas == m0.procs[q].areas)
    && (forall q, pg {:trigger LeafAt(m, q, pg)} ::
          LeafAt(m, q, pg) == if q == p && PageUnder(s, pg) && IxOf(s, pg) < i then None else LeafAt(m0, q, pg))
  }

  ghost predicate OnlyFreed(m0: Snap, m: Snap, p: nat) {
    && (forall f :: f in m.owner ==> f in m0.owner && m.owner[f] == m0.owner[f])
    && (forall f :: f in m0.owner && f !in m.owner ==>
          (m0.owner[f].TableFrame? && m0.owner[f].node.pid == p) || m0.owner[f] == DataFrame)
  }

  lemma FreedToStart(m: Snap, p: nat, s: Slot)
    ensures FreedTo(m, m, p, s, 0)
  {
  }

  /** What the loop has not reached is as it was. */
  lemma FreedToKeeps(m0: Snap, m: Snap, p: nat, s: Slot, i: Ix)
    requires FreedTo(m0, m, p, s, i) && Node(p, s) in m0.tabs
    requires Linked(m0, Node(p, s), i) && (!s.L1? ==> Complete(m0, p, Child(s, i)))
    ensures Linked(m, Node(p, s), i) && (!s.L1? ==> Complete(m, p, Child(s, i)))
  {
    KeepsLinked(m0, m, p, s, i, Node(p, s), i);
    if !s.L1? {
      forall n, ix: Ix | n in m.tabs && n.pid == p && Under(Child(s, i), n.slot) && ix < Bound(n.slot)
        ensures Linked(m, n, ix)
      {
        assert Linked(m0, n, ix);
        NotUnderChild(s, i);
        KeepsLinkedBelow(m0, m, p, s, i, n, ix);
      }
    }
  }

  lemma KeepsLinked(m0: Snap, m: Snap, p: nat, s: Slot, i: Ix, n: Node, ix: Ix)
    requires FreedTo(m0, m, p, s, i) && n == Node(p, s) && n in m0.tabs && ix == i
    requires Linked(m0, n, ix)
    ensures n in m.tabs && Linked(m, n, ix)
  {
    assert EntryAt(m, n, ix) == EntryAt(m0, n, ix);
    if s.L1? {
      assert LeafAt(m, p, PageAt(s, ix)) == LeafAt(m0, p, PageAt(s, ix));
    } else {
      assert !BelowBefore(s, i, Child(s, ix));
    }
  }

  lemma KeepsLinkedBelow(m0: Snap, m: Snap, p: nat, s: Slot, i: Ix, n: Node, ix: Ix)
    requires !s.L1? && FreedTo(m0, m, p, s, i) && n in m.tabs && n.pid == p && Under(Child(s, i), n.slot)
    requires Linked(m0, n, ix)
    ensures Linked(m, n, ix)
  {
    assert EntryAt(m, n, ix) == EntryAt(m0, n, ix);
    if n.slot.L1? {
      var pg := PageAt(n.slot, ix);
      assert LeafAt(m, p, pg) == LeafAt(m0, p, pg) by { SiblingPage(s, i, n.slot, ix); }
    } else {
      SiblingTable(s, i, n.slot, ix);
    }
  }

  lemma SiblingPage(s: Slot, i: Ix, t: Slot, ix: Ix)
    requires !s.L1? && t.L1? && Under(Child(s, i), t)
    ensures IxOf(s, PageAt(t, ix)) == i
  {
  }

  lemma SiblingTable(s: Slot, i: Ix, t: Slot, ix: Ix)
    requires !s.L1? && !t.L1? && Under(Child(s, i), t)
    ensures !BelowBefore(s, i, Child(t, ix)) && !BelowBefore(s, i, t)
  {
  }

  // ----- one page

  function DropLeaf(m: Snap, p: nat, pg: PageIx, last: bool): Snap
    requires p in m.procs && pg in m.procs[p].table
  {
    var q := m.procs[p];
    m.(procs := m.procs[p := q.(table := q.table - {pg})],
       owner := if last then m.owner - {q.table[pg].frame} else m.owner)
  }

  lemma DropLeafNames(m: Snap, p: nat, pg: PageIx, last: bool, k: Key, f: nat)
    requires p in m.procs && pg in m.procs[p].table
    ensures Names(DropLeaf(m, p, pg, last).procs, k, f) <==> k != Key(p, pg) && Names(m.procs, k, f)
  {
  }

  /** Dropping one entry: the frame goes exactly when this was the only entry that named it. */
  lemma DropLeafOk(m: Snap, p: nat, pg: PageIx, last: bool)
    requires Freeing(m, p) && pg in m.procs[p].table
    requires last <==> OnlyEntry(m.procs, Key(p, pg), m.procs[p].table[pg].frame)
    ensures Freeing(DropLeaf(m, p, pg, last), p)
  {
    var m1 := DropLeaf(m, p, pg, last);
    var f := m.procs[p].table[pg].frame;
    assert LeafAt(m, p, pg).Some?;
    assert DataAt(m, f);
    DropLeafMapped(m, p, pg, last);
    forall g | g in m1.owner && m1.owner[g] == DataFrame ensures exists k :: Names(m1.procs, k, g) {
      if g == f {
        var k :| Names(m.procs, k, f) && k != Key(p, pg);
        DropLeafNames(m, p, pg, last, k, g);
      } else {
        var k :| Names(m.procs, k, g);
        DropLeafNames(m, p, pg, last, k, g);
      }
    }
    DropLeafOthers(m, p, pg, last);
  }

  lemma DropLeafMapped(m: Snap, p: nat, pg: PageIx, last: bool)
    requires p in m.procs && Placed(m) && Mapped(m) && pg in m.procs[p].table
    requires DataAt(m, m.procs[p].table[pg].frame)
    requires last ==> OnlyEntry(m.procs, Key(p, pg), m.procs[p].table[pg].frame)
    ensures Placed(DropLeaf(m, p, pg, last)) && Mapped(DropLeaf(m, p, pg, last))
  {
    var m1 := DropLeaf(m, p, pg, last);
    forall q, a | LeafAt(m1, q, a).Some?
      ensures Node(q, LeafSlot(a)) in m1.tabs && DataAt(m1, LeafAt(m1, q, a).value.frame)
    {
      assert LeafAt(m, q, a) == LeafAt(m1, q, a);
      assert Names(m.procs, Key(q, a), LeafAt(m, q, a).value.frame);
    }
  }

  lemma DropLeafOthers(m: Snap, p: nat, pg: PageIx, last: bool)
    requires p in m.procs && pg in m.procs[p].table
    requires forall q :: q in m.procs && q != p ==> AllLinked(m, q)
    ensures
      var m1 := DropLeaf(m, p, pg, last);
      forall q :: q in m1.procs && q != p ==> AllLinked(m1, q)
  {
    var m1 := DropLeaf(m, p, pg, last);
    forall q, n, ix: Ix | q in m1.procs && q != p && n in m1.tabs && n.pid == q && ix < Bound(n.slot)
      ensures Linked(m1, n, ix)
    {
      assert AllLinked(m, q);
      assert Linked(m, n, ix);
      assert EntryAt(m1, n, ix) == EntryAt(m, n, ix);
      if n.slot.L1? { assert LeafAt(m1, q, PageAt(n.slot, ix)) == LeafAt(m, q, PageAt(n.slot, ix)); }
    }
  }

  lemma DropLeafFreed(m0: Snap, m: Snap, p: nat, s: Slot, i: Ix, last: bool)
    requires s.L1? && FreedTo(m0, m, p, s, i) && p in m.procs && PageAt(s, i) in m.procs[p].table
    requires DataAt(m, m.procs[p].table[PageAt(s, i)].frame)
    ensures FreedTo(m0, DropLeaf(m, p, PageAt(s, i), last), p, s, i + 1)
  {
    var m1 := DropLeaf(m, p, PageAt(s, i), last);
    forall q, pg
      ensures LeafAt(m1, q, pg) == if q == p && PageUnder(s, pg) && IxOf(s, pg) < i + 1 then None else LeafAt(m0, q, pg)
    {
      assert PageUnder(s, pg) && IxOf(s, pg) == i <==> pg == PageAt(s, i);
      assert LeafAt(m, q, pg) == if q == p && PageUnder(s, pg) && IxOf(s, pg) < i then None else LeafAt(m0, q, pg);
    }
  }

  // ----- one table

  function DropTable(m: Snap, n: Node): Snap
    requires n in m.tabs
  {
    m.(tabs := m.tabs - {n}, owner := m.owner - {m.tabs[n]})
  }

  /** A table with nothing below it can go. */
  lemma DropTableOk(m: Snap, p: nat, t: Slot)
    requires Freeing(m, p) && Node(p, t) in m.tabs && !t.L4?
    requires forall u :: Under(t, u) && u != t ==> Node(p, u) !in m.tabs
    requires forall pg :: PageUnder(t, pg) ==> LeafAt(m, p, pg) == None
    ensures Freeing(DropTable(m, Node(p, t)), p)
  {
    var m1 := DropTable(m, Node(p, t));
    DropTablePlaced(m, p, t);
    forall q, pg | LeafAt(m1, q, pg).Some?
      ensures Node(q, LeafSlot(pg)) in m1.tabs && DataAt(m1, LeafAt(m1, q, pg).value.frame)
    {
      assert LeafAt(m, q, pg) == LeafAt(m1, q, pg);
      assert DataAt(m, LeafAt(m, q, pg).value.frame);
      if q == p && LeafSlot(pg) == t { assert PageUnder(t, pg); }
    }
    forall q, n, ix: Ix | q in m1.procs && q != p && n in m1.tabs && n.pid == q && ix < Bound(n.slot)
      ensures Linked(m1, n, ix)
    {
      assert AllLinked(m, q);
      assert Linked(m, n, ix);
      assert EntryAt(m1, n, ix) == EntryAt(m, n, ix);
      if n.slot.L1? { assert LeafAt(m1, q, PageAt(n.slot, ix)) == LeafAt(m, q, PageAt(n.slot, ix)); }
    }
  }

  lemma DropTablePlaced(m: Snap, p: nat, t: Slot)
    requires Placed(m) && Node(p, t) in m.tabs && !t.L4?
    requires forall u :: Under(t, u) && u != t ==> Node(p, u) !in m.tabs
    ensures Placed(DropTable(m, Node(p, t)))
  {
    forall n | n in m.tabs && n.pid == p && !n.slot.L4? ensures Parent(n.slot) != t {
      ParentUnder(n.slot);
    }
  }

  lemma ParentUnder(t: Slot)
    requires !t.L4?
    ensures Under(Parent(t), t) && Parent(t) != t && Child(Parent(t), LastIx(t)) == t
  {
  }

  /** After the subtree below entry i is freed and its table returned, entry i is done. */
  lemma DropTableFreed(m0: Snap, m: Snap, m1: Snap, p: nat, s: Slot, i: Ix)
    requires !s.L1? && FreedTo(m0, m, p, s, i) && FreedTo(m, m1, p, Child(s, i), 512)
    requires Node(p, Child(s, i)) in m1.tabs && Placed(m1)
    ensures FreedTo(m0, DropTable(m1, Node(p, Child(s, i))), p, s, i + 1)
  {
    hide FreedTabs, FreedLeaves, OnlyFreed;
    DropTableTabs(m0, m, m1, p, s, i);
    DropTableOwners(m0, m, m1, p, Node(p, Child(s, i)));
    DropTableAllLeaves(m0, m, m1, p, s, i);
  }

  lemma DropTableAllLeaves(m0: Snap, m: Snap, m1: Snap, p: nat, s: Slot, i: Ix)
    requires !s.L1? && FreedLeaves(m0, m, p, s, i) && FreedLeaves(m, m1, p, Child(s, i), 512)
    requires Node(p, Child(s, i)) in m1.tabs
    ensures FreedLeaves(m0, DropTable(m1, Node(p, Child(s, i))), p, s, i + 1)
  {
    var m2 := DropTable(m1, Node(p, Child(s, i)));
    forall q, pg
      ensures LeafAt(m2, q, pg) == if q == p && PageUnder(s, pg) && IxOf(s, pg) < i + 1 then None else LeafAt(m0, q, pg)
    {
      DropTableLeaves(m0, m, m1, p, s, i, q, pg);
    }
  }

  lemma DropTableTabs(m0: Snap, m: Snap, m1: Snap, p: nat, s: Slot, i: Ix)
    requires !s.L1? && FreedTabs(m0, m, p, s, i) && FreedTabs(m, m1, p, Child(s, i), 512)
    requires Node(p, Child(s, i)) in m1.tabs
    ensures FreedTabs(m0, DropTable(m1, Node(p, Child(s, i))), p, s, i + 1)
  {
    forall t { BelowSplit(s, i, t); }
  }

  lemma DropTableLeaves(m0: Snap, m: Snap, m1: Snap, p: nat, s: Slot, i: Ix, q: nat, pg: PageIx)
    requires !s.L1? && FreedLeaves(m0, m, p, s, i) && FreedLeaves(m, m1, p, Child(s, i), 512)
    ensures LeafAt(m1, q, pg) == if q == p && PageUnder(s, pg) && IxOf(s, pg) < i + 1 then None else LeafAt(m0, q, pg)
  {
    ChildPages1(s, i, pg);
    assert LeafAt(m, q, pg) == if q == p && PageUnder(s, pg) && IxOf(s, pg) < i then None else LeafAt(m0, q, pg);
  }

  lemma DropTableOwners(m0: Snap, m: Snap, m1: Snap, p: nat, c: Node)
    requires OnlyFreed(m0, m, p) && OnlyFreed(m, m1, p)
    requires c in m1.tabs && c.pid == p && m1.tabs[c] in m1.owner && m1.owner[m1.tabs[c]] == TableFrame(c)
    ensures OnlyFreed(m0, DropTable(m1, c), p)
  {
  }

  lemma ChildPages1(s: Slot, i: Ix, pg: PageIx)
    requires !s.L1?
    ensures PageUnder(Child(s, i), pg) <==> PageUnder(s, pg) && IxOf(s, pg) == i
  {
  }

  lemma BelowSplit(s: Slot, i: Ix, t: Slot)
    requires !s.L1?
    ensures BelowBefore(s, i + 1, t) <==>
      BelowBefore(s, i, t) || t == Child(s, i) || BelowBefore(Child(s, i), 512, t)
  {
  }

  /** An absent entry has nothing to free. */
  lemma FreedToSkip(m0: Snap, m: Snap, p: nat, s: Slot, i: Ix)
    requires FreedTo(m0, m, p, s, i) && Placed(m) && Mapped(m)
    requires Linked(m, Node(p, s), i) && !EntryAt(m, Node(p, s), i).present
    ensures FreedTo(m0, m, p, s, i + 1)
  {
    forall n | n in m.tabs && n.pid == p ensures !BelowBefore(s, i + 1, n.slot) {
      if !s.L1? && Under(Child(s, i), n.slot) { NoDescendants(m, p, Child(s, i), n.slot); }
      if !s.L1? { BelowSplit(s, i, n.slot); }
    }
    forall pg | PageUnder(s, pg) && IxOf(s, pg) == i ensures LeafAt(m, p, pg) == None {
      if s.L1? { assert pg == PageAt(s, i); } else { NoDescendants(m, p, Child(s, i), LeafSlot(pg)); }
    }
  }

  // ----- the loop over one table

  /** The loop invariant of free_mm at any of its four levels. */
  ghost predicate FreeLoopAt(m0: Snap, m: Snap, p: nat, s: Slot, i: nat) {
    && Freeing(m, p)
    && Node(p, s) in m0.tabs && Node(p, s) in m.tabs && m.tabs[Node(p, s)] == m0.tabs[Node(p, s)]
    && Complete(m0, p, s)
    && FreedTo(m0, m, p, s, i)
  }

  lemma FreeLoopStart(m: Snap, p: nat, s: Slot)
    requires Freeing(m, p) && Node(p, s) in m.tabs && Complete(m, p, s)
    ensures FreeLoopAt(m, m, p, s, 0)
  {
    FreedToStart(m, p, s);
  }

  /** What an iteration finds at entry i. */
  lemma FreeLoopFacts(m0: Snap, m: Snap, p: nat, s: Slot, i: Ix)
    requires FreeLoopAt(m0, m, p, s, i) && i < Bound(s)
    ensures p in m.procs && Mapped(m) && Placed(m) && Freeing(m, p) && Node(p, s) in m.tabs
    ensures m.tabs[Node(p, s)] in m.mem && m.mem[m.tabs[Node(p, s)]].TableOf?
    ensures Linked(m, Node(p, s), i)
    ensures !s.L1? ==> Complete(m, p, Child(s, i))
    ensures EntryAt(m, Node(p, s), i).present && s.L1? ==>
      && PageAt(s, i) in m.procs[p].table
      && m.procs[p].table[PageAt(s, i)].frame == EntryAt(m, Node(p, s), i).frame
      && DataAt(m, EntryAt(m, Node(p, s), i).frame)
    ensures EntryAt(m, Node(p, s), i).present && !s.L1? ==>
      && Node(p, Child(s, i)) in m.tabs
      && m.tabs[Node(p, Child(s, i))] == EntryAt(m, Node(p, s), i).frame
  {
    assert Under(s, s);
    assert Linked(m0, Node(p, s), i);
    if !s.L1? {
      NotUnderChild(s, i);
      UnderTransitive(s, Child(s, i));
      assert Complete(m0, p, Child(s, i));
    }
    FreedToKeeps(m0, m, p, s, i);
    if s.L1? { assert LeafAt(m, p, PageAt(s, i)).Some? ==> DataAt(m, LeafAt(m, p, PageAt(s, i)).value.frame); }
  }

  lemma FreeLoopFrame(m0: Snap, m: Snap, p: nat, s: Slot, i: nat)
    requires FreeLoopAt(m0, m, p, s, i)
    ensures Freeing(m, p) && FreedTo(m0, m, p, s, i)
    ensures Node(p, s) in m.tabs && Node(p, s) in m0.tabs && m.tabs[Node(p, s)] == m0.tabs[Node(p, s)]
  {
  }

  lemma FreeLoopSkip(m0: Snap, m: Snap, p: nat, s: Slot, i: Ix)
    requires FreeLoopAt(m0, m, p, s, i) && i < Bound(s) && !EntryAt(m, Node(p, s), i).present
    ensures FreeLoopAt(m0, m, p, s, i + 1)
  {
    FreeLoopFacts(m0, m, p, s, i);
    FreedToSkip(m0, m, p, s, i);
  }

  lemma FreeLoopLeaf(m0: Snap, m: Snap, p: nat, s: Slot, i: Ix, last: bool)
    requires FreeLoopAt(m0, m, p, s, i) && s.L1? && EntryAt(m, Node(p, s), i).present
    requires PageAt(s, i) in m.procs[p].table
    requires last <==> OnlyEntry(m.procs, Key(p, PageAt(s, i)), m.procs[p].table[PageAt(s, i)].frame)
    ensures FreeLoopAt(m0, DropLeaf(m, p, PageAt(s, i), last), p, s, i + 1)
  {
    FreeLoopFacts(m0, m, p, s, i);
    DropLeafOk(m, p, PageAt(s, i), last);
    DropLeafFreed(m0, m, p, s, i, last);
  }

  lemma FreeLoopTable(m0: Snap, m: Snap, m1: Snap, p: nat, s: Slot, i: Ix)
    requires FreeLoopAt(m0, m, p, s, i) && !s.L1? && i < Bound(s) && EntryAt(m, Node(p, s), i).present
    requires Freeing(m1, p) && FreedTo(m, m1, p, Child(s, i), 512)
    ensures Node(p, Child(s, i)) in m1.tabs && Node(p, Child(s, i)) in m.tabs
    ensures m1.tabs[Node(p, Child(s, i))] == m.tabs[Node(p, Child(s, i))]
    ensures m1.tabs[Node(p, Child(s, i))] in m1.owner && m1.owner[m1.tabs[Node(p, Child(s, i))]] == TableFrame(Node(p,
        Child(s, i)))
    ensures FreeLoopAt(m0, DropTable(m1, Node(p, Child(s, i))), p, s, i + 1)
  {
    var t := Child(s, i);
    FreeLoopFacts(m0, m, p, s, i);
    assert !BelowBefore(t, 512, t);
    forall u | Under(t, u) && u != t ensures Node(p, u) !in m1.tabs {
      assert BelowBefore(t, 512, u);
    }
    forall pg | PageUnder(t, pg) ensures LeafAt(m1, p, pg) == None {
      assert IxOf(t, pg) < 512;
    }
    DropTableOk(m1, p, t);
    DropTableFreed(m0, m, m1, p, s, i);
    NotUnderChild(s, i);
    assert !BelowBefore(t, 512, s);
  }
}
