/** What find_user_pte, the page-fault handler and user stores do to the tree
    (src/mm/mm.c:163-184, 211-278): each changes the translation of at most one page. */
module GrowTables {
  import opened Memory
  import opened SharedPages
  import opened PageTables
  import opened CloneTables

  // ----- a missing table on the way to a page

  function NewTable(m: Snap, n: Node, ix: Ix, f: nat): Snap
    requires n in m.tabs && !n.slot.L1? && m.tabs[n] in m.mem && m.mem[m.tabs[n]].TableOf?
  {
    var t := m.tabs[n];
    var c := Node(n.pid, Child(n.slot, ix));
    m.(mem := m.mem[t := TableOf(m.mem[t].t[ix := Pte(f, true, true, true)])][f := TableOf(EmptyTable())],
       tabs := m.tabs[c := f],
       owner := m.owner[f := TableFrame(c)])
  }

  ghost predicate CanGrow(m: Snap, n: Node, ix: Ix, f: nat) {
    && TreeOk(m) && n in m.tabs && !n.slot.L1? && ix < Bound(n.slot)
    && Node(n.pid, Child(n.slot, ix)) !in m.tabs
    && f !in m.owner
  }

  lemma NewTableEntries(m: Snap, n: Node, ix: Ix, f: nat)
    requires Placed(m) && n in m.tabs && !n.slot.L1? && f !in m.owner
    ensures
      var m1 := NewTable(m, n, ix, f);
      var c := Node(n.pid, Child(n.slot, ix));
      && (forall k, jx: Ix {:trigger EntryAt(m1, k, jx)} :: k in m.tabs && k != c && !(k == n && jx == ix) ==>
            EntryAt(m1, k, jx) == EntryAt(m, k, jx))
      && (n != c ==> EntryAt(m1, n, ix) == Pte(f, true, true, true))
      && (forall jx: Ix {:trigger EntryAt(m1, c, jx)} :: EntryAt(m1, c, jx) == NO_ENTRY)
      && (forall q, pg {:trigger LeafAt(m1, q, pg)} :: LeafAt(m1, q, pg) == LeafAt(m, q, pg))
      && (forall g {:trigger DataAt(m1, g)} :: DataAt(m, g) ==> DataAt(m1, g) && m1.mem[g] == m.mem[g])
  {
  }

  lemma NewTablePlaced(m: Snap, n: Node, ix: Ix, f: nat)
    requires CanGrow(m, n, ix, f)
    ensures Placed(NewTable(m, n, ix, f))
  {
    var m1 := NewTable(m, n, ix, f);
    var s := Child(n.slot, ix);
    assert Parent(s) == n.slot && s.i < 256;
    assert TablesInFrames(m1);
    assert ParentsExist(m1);
  }

  lemma NewTableLinked(m: Snap, n: Node, ix: Ix, f: nat, k: Node, jx: Ix)
    requires CanGrow(m, n, ix, f) && k in NewTable(m, n, ix, f).tabs && jx < Bound(k.slot)
    requires k in m.tabs ==> Linked(m, k, jx)
    ensures Linked(NewTable(m, n, ix, f), k, jx)
  {
    var m1 := NewTable(m, n, ix, f);
    var c := Node(n.pid, Child(n.slot, ix));
    NewTableEntries(m, n, ix, f);
    if k == c {
      if k.slot.L1? {
        assert LeafAt(m, k.pid, PageAt(k.slot, jx)) == None;
        assert LeafAt(m1, k.pid, PageAt(k.slot, jx)) == None;
      } else {
        NoDescendants(m, k.pid, k.slot, Child(k.slot, jx));
        assert Child(k.slot, jx) != k.slot;
      }
    } else if k.slot.L1? {
      assert LeafAt(m1, k.pid, PageAt(k.slot, jx)) == LeafAt(m, k.pid, PageAt(k.slot, jx));
    } else if Child(k.slot, jx) == Child(n.slot, ix) {
      ChildInjective(k.slot, jx, n.slot, ix);
    }
  }

  /** A new, empty table changes no translation. */
  lemma NewTableOk(m: Snap, n: Node, ix: Ix, f: nat)
    requires CanGrow(m, n, ix, f)
    ensures TreeOk(NewTable(m, n, ix, f))
    ensures forall q, pg {:trigger LeafAt(NewTable(m, n, ix, f), q, pg)} ::
      LeafAt(NewTable(m, n, ix, f), q, pg) == LeafAt(m, q, pg)
    ensures forall g {:trigger DataAt(NewTable(m, n, ix, f), g)} :: DataAt(m, g) ==>
      DataAt(NewTable(m, n, ix, f), g) && NewTable(m, n, ix, f).mem[g] == m.mem[g]
  {
    var m1 := NewTable(m, n, ix, f);
    NewTablePlaced(m, n, ix, f);
    NewTableEntries(m, n, ix, f);
    forall q, pg | LeafAt(m1, q, pg).Some?
      ensures Node(q, LeafSlot(pg)) in m1.tabs && DataAt(m1, LeafAt(m1, q, pg).value.frame)
    {
      assert LeafAt(m, q, pg).Some?;
      assert DataAt(m, LeafAt(m, q, pg).value.frame);
    }
    forall p, k, jx: Ix | p in m1.procs && k in m1.tabs && k.pid == p && jx < Bound(k.slot) ensures Linked(m1, k, jx) {
      assert AllLinked(m, p);
      NewTableLinked(m, n, ix, f, k, jx);
    }
  }

  // ----- page contents

  function SetData(m: Snap, f: nat, page: Page): Snap {
    m.(mem := m.mem[f := DataOf(page)], owner := m.owner[f := DataFrame])
  }

  lemma SetDataEntries(m: Snap, f: nat, page: Page)
    requires Placed(m) && (f !in m.owner || m.owner[f] == DataFrame)
    ensures
      var m1 := SetData(m, f, page);
      && Placed(m1)
      && (forall k, jx: Ix {:trigger EntryAt(m1, k, jx)} :: EntryAt(m1, k, jx) == EntryAt(m, k, jx))
      && (forall q, pg {:trigger LeafAt(m1, q, pg)} :: LeafAt(m1, q, pg) == LeafAt(m, q, pg))
      && (forall g {:trigger DataAt(m1, g)} :: DataAt(m, g) ==> DataAt(m1, g))
  {
    forall k | k in m.tabs ensures m.tabs[k] != f {
      assert m.owner[m.tabs[k]] == TableFrame(k);
    }
  }

  /** Writing to a user frame, new or old, changes no table. */
  lemma SetDataOk(m: Snap, f: nat, page: Page)
    requires TreeOk(m) && (f !in m.owner || m.owner[f] == DataFrame)
    ensures TreeOk(SetData(m, f, page))
  {
    var m1 := SetData(m, f, page);
    SetDataEntries(m, f, page);
    forall q, pg | LeafAt(m1, q, pg).Some?
      ensures Node(q, LeafSlot(pg)) in m1.tabs && DataAt(m1, LeafAt(m1, q, pg).value.frame)
    {
      assert DataAt(m, LeafAt(m, q, pg).value.frame);
    }
    forall p, k, jx: Ix | p in m1.procs && k in m1.tabs && k.pid == p && jx < Bound(k.slot) ensures Linked(m1, k, jx) {
      assert AllLinked(m, p);
      assert Linked(m, k, jx);
      if k.slot.L1? { assert LeafAt(m1, p, PageAt(k.slot, jx)) == LeafAt(m, p, PageAt(k.slot, jx)); }
    }
  }

  // ----- a leaf entry

  function PutLeaf(m: Snap, p: nat, pg: PageIx, l: Leaf): Snap
    requires p in m.procs && Node(p, LeafSlot(pg)) in m.tabs
    requires m.tabs[Node(p, LeafSlot(pg))] in m.mem && m.mem[m.tabs[Node(p, LeafSlot(pg))]].TableOf?
  {
    var t := m.tabs[Node(p, LeafSlot(pg))];
    var q := m.procs[p];
    m.(mem := m.mem[t := TableOf(m.mem[t].t[pg.l := Pte(l.frame, true, l.write, true)])],
       procs := m.procs[p := q.(table := q.table[pg := l])])
  }

  lemma PutLeafEntries(m: Snap, p: nat, pg: PageIx, l: Leaf)
    requires Placed(m) && p in m.procs && Node(p, LeafSlot(pg)) in m.tabs
    ensures
      var m1 := PutLeaf(m, p, pg, l);
      && (forall k, jx: Ix {:trigger EntryAt(m1, k, jx)} :: !(k == Node(p, LeafSlot(pg)) && jx == pg.l) ==>
            EntryAt(m1, k, jx) == EntryAt(m, k, jx))
      && EntryAt(m1, Node(p, LeafSlot(pg)), pg.l) == Pte(l.frame, true, l.write, true)
      && (forall q, a {:trigger LeafAt(m1, q, a)} ::
            LeafAt(m1, q, a) == if q == p && a == pg then Some(l) else LeafAt(m, q, a))
      && (forall g {:trigger DataAt(m1, g)} :: DataAt(m, g) ==> DataAt(m1, g) && m1.mem[g] == m.mem[g])
  {
    var t := m.tabs[Node(p, LeafSlot(pg))];
    forall k | k in m.tabs && k != Node(p, LeafSlot(pg)) ensures m.tabs[k] != t {
      assert m.owner[m.tabs[k]] == TableFrame(k);
    }
  }

  /** Writing one leaf entry changes the translation of that page and of no other. */
  lemma PutLeafOk(m: Snap, p: nat, pg: PageIx, l: Leaf)
    requires TreeOk(m) && p in m.procs && Node(p, LeafSlot(pg)) in m.tabs && DataAt(m, l.frame)
    ensures TreeOk(PutLeaf(m, p, pg, l))
  {
    var m1 := PutLeaf(m, p, pg, l);
    PutLeafEntries(m, p, pg, l);
    PutLeafPlaced(m, p, pg, l);
    forall q, a | LeafAt(m1, q, a).Some?
      ensures Node(q, LeafSlot(a)) in m1.tabs && DataAt(m1, LeafAt(m1, q, a).value.frame)
    {
      assert DataAt(m, LeafAt(m1, q, a).value.frame) by {
        assert (q == p && a == pg) || LeafAt(m, q, a) == LeafAt(m1, q, a);
      }
      assert (q == p && a == pg) || LeafAt(m, q, a).Some?;
    }
    forall q, k, jx: Ix | q in m1.procs && k in m1.tabs && k.pid == q && jx < Bound(k.slot) ensures Linked(m1, k, jx) {
      assert AllLinked(m, q);
      assert Linked(m, k, jx);
      PutLeafLinked(m, p, pg, l, k, jx);
    }
  }

  lemma PutLeafPlaced(m: Snap, p: nat, pg: PageIx, l: Leaf)
    requires Placed(m) && p in m.procs && Node(p, LeafSlot(pg)) in m.tabs
    ensures Placed(PutLeaf(m, p, pg, l))
  {
  }

  lemma PutLeafLinked(m: Snap, p: nat, pg: PageIx, l: Leaf, k: Node, jx: Ix)
    requires Placed(m) && p in m.procs && Node(p, LeafSlot(pg)) in m.tabs && Linked(m, k, jx)
    ensures Linked(PutLeaf(m, p, pg, l), k, jx)
  {
    var m1 := PutLeaf(m, p, pg, l);
    PutLeafEntries(m, p, pg, l);
    if k.slot.L1? {
      var a := PageAt(k.slot, jx);
      assert LeafAt(m1, k.pid, a) == if k.pid == p && a == pg then Some(l) else LeafAt(m, k.pid, a);
      assert a == pg <==> k.slot == LeafSlot(pg) && jx == pg.l;
    }
  }
}
