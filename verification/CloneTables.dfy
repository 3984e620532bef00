/** The proof of clone_mm's table copy (src/mm/mm.c:22-64): what one iteration of its loops does
    to the tree, and why a half-copied child never disturbs anybody else. */
module CloneTables {
  import opened Memory
  import opened SharedPages
  import opened PageTables

  /** An entry of the child's table that memcpy brought over and no loop has visited yet. */
  ghost predicate Raw(m: Snap, p: nat, c: nat, s: Slot, ix: Ix) {
    && EntryAt(m, Node(c, s), ix) == EntryAt(m, Node(p, s), ix)
    && if s.L1? then LeafAt(m, c, PageAt(s, ix)) == None else Node(c, Child(s, ix)) !in m.tabs
  }

  /** Every entry of the child is either finished or raw. */
  ghost predicate HalfCopied(m: Snap, p: nat, c: nat) {
    forall n, ix: Ix :: n in m.tabs && n.pid == c && ix < Bound(n.slot) ==> FinishedOrRaw(m, p, c, n, ix)
  }

  ghost predicate FinishedOrRaw(m: Snap, p: nat, c: nat, n: Node, ix: Ix) {
    Node(p, n.slot) in m.tabs && (Linked(m, n, ix) || Raw(m, p, c, n.slot, ix))
  }

  /** The child maps only what the parent maps, both read-only. */
  ghost predicate ChildPages(m: Snap, p: nat, c: nat) {
    forall pg {:trigger LeafAt(m, c, pg)} :: LeafAt(m, c, pg).Some? ==>
      LeafAt(m, c, pg) == LeafAt(m, p, pg) && !LeafAt(m, c, pg).value.write
  }

  /** What holds at every point of the copy from p to c. */
  ghost predicate Copying(m: Snap, p: nat, c: nat) {
    && p != c && p in m.procs && c in m.procs
    && Placed(m) && Mapped(m)
    && (forall q :: q in m.procs && q != c ==> AllLinked(m, q))
    && HalfCopied(m, p, c)
    && ChildPages(m, p, c)
  }

  /** The part of the child below s is finished. */
  ghost predicate Complete(m: Snap, c: nat, s: Slot) {
    forall n, ix: Ix {:trigger Linked(m, n, ix)} ::
      n in m.tabs && n.pid == c && Under(s, n.slot) && ix < Bound(n.slot) ==> Linked(m, n, ix)
  }

  /** The index that leads from a table towards a page. */
  function IxOf(s: Slot, pg: PageIx): Ix {
    match s
    case L4 => pg.i
    case L3(_) => pg.j
    case L2(_, _) => pg.k
    case L1(_, _, _) => pg.l
  }

  /** The loop over table s has dealt with the entries before i: the parent's pages there are
      read-only and shared; the rest is as it was. */
  ghost predicate Copied(m0: Snap, m: Snap, p: nat, c: nat, s: Slot, i: nat) {
    forall pg {:trigger LeafAt(m, p, pg)} {:trigger LeafAt(m, c, pg)} :: PageUnder(s, pg) ==>
      if IxOf(s, pg) < i then
        && LeafAt(m, p, pg) == ReadOnly(LeafAt(m0, p, pg))
        && LeafAt(m, c, pg) == LeafAt(m, p, pg)
      else
        && LeafAt(m, p, pg) == LeafAt(m0, p, pg)
        && LeafAt(m, c, pg) == None
  }

  function ReadOnly(l: Option<Leaf>): Option<Leaf> {
    if l.None? then None else Some(l.value.(write := false))
  }

  // ----- what a part of the copy leaves alone

  ghost predicate SameTabs(m0: Snap, m1: Snap, c: nat, s: Slot) {
    && (forall n :: n in m0.tabs ==> n in m1.tabs && m1.tabs[n] == m0.tabs[n])
    && (forall n :: n in m1.tabs && n !in m0.tabs ==> n.pid == c && Under(s, n.slot))
  }

  /** Entries change only in the child's tables below s, and in the parent's last-level ones. */
  predicate MayChange(p: nat, c: nat, s: Slot, n: Node) {
    Under(s, n.slot) && (n.pid == c || (n.pid == p && n.slot.L1?))
  }

  ghost predicate SameEntries(m0: Snap, m1: Snap, p: nat, c: nat, s: Slot) {
    forall n, ix: Ix {:trigger EntryAt(m1, n, ix)} :: n in m0.tabs && !MayChange(p, c, s, n) ==>
      EntryAt(m1, n, ix) == EntryAt(m0, n, ix)
  }

  ghost predicate SameLeaves(m0: Snap, m1: Snap, p: nat, c: nat, s: Slot) {
    && m1.procs.Keys == m0.procs.Keys
    && (forall q :: q in m0.procs ==> m1.procs[q].areas == m0.procs[q].areas)
    && (forall q, pg {:trigger LeafAt(m1, q, pg)} :: !((q == p || q == c) && PageUnder(s, pg)) ==>
          LeafAt(m1, q, pg) == LeafAt(m0, q, pg))
  }

  ghost predicate SameOwners(m0: Snap, m1: Snap, c: nat) {
    && (forall f :: f in m0.owner ==> f in m1.owner && m1.owner[f] == m0.owner[f])
    && (forall f :: f in m1.owner && f !in m0.owner ==> m1.owner[f].TableFrame? && m1.owner[f].node.pid == c)
    && (forall f {:trigger DataAt(m1, f)} :: DataAt(m0, f) ==> DataAt(m1, f) && m1.mem[f] == m0.mem[f])
  }

  ghost predicate SameOutside(m0: Snap, m1: Snap, p: nat, c: nat, s: Slot) {
    && SameTabs(m0, m1, c, s)
    && SameEntries(m0, m1, p, c, s)
    && SameLeaves(m0, m1, p, c, s)
    && SameOwners(m0, m1, c)
  }

  lemma SameOutsideTransitive(m0: Snap, m1: Snap, m2: Snap, p: nat, c: nat, s: Slot, t: Slot)
    requires SameOutside(m0, m1, p, c, s) && SameOutside(m1, m2, p, c, t) && Under(s, t)
    ensures SameOutside(m0, m2, p, c, s)
  {
    UnderTransitive(s, t);
    assert SameEntries(m0, m2, p, c, s) by {
      forall n, ix: Ix | n in m0.tabs && !MayChange(p, c, s, n) ensures EntryAt(m2, n, ix) == EntryAt(m0, n, ix) {
        assert EntryAt(m1, n, ix) == EntryAt(m0, n, ix);
      }
    }
    assert SameLeaves(m0, m2, p, c, s) by {
      forall q, pg | !((q == p || q == c) && PageUnder(s, pg)) ensures LeafAt(m2, q, pg) == LeafAt(m0, q, pg) {
        assert LeafAt(m1, q, pg) == LeafAt(m0, q, pg);
      }
    }
    assert SameOwners(m0, m2, c) by {
      forall f | DataAt(m0, f) ensures DataAt(m2, f) && m2.mem[f] == m0.mem[f] { assert DataAt(m1, f); }
    }
  }

  lemma UnderTransitive(s: Slot, t: Slot)
    requires Under(s, t)
    ensures forall u :: Under(t, u) ==> Under(s, u)
    ensures forall pg :: PageUnder(t, pg) ==> PageUnder(s, pg)
  {
  }

  /** Subtrees at different indices of one table are disjoint. */
  lemma SiblingsDisjoint(s: Slot, ix: Ix, jx: Ix)
    requires !s.L1? && ix != jx
    ensures forall u :: Under(Child(s, ix), u) ==> !Under(Child(s, jx), u) && u != s && Under(s, u)
    ensures forall pg :: PageUnder(Child(s, ix), pg) <==> PageUnder(s, pg) && IxOf(s, pg) == ix
  {
  }

  // ----- entering a table: the loop body above the last level

  function LinkChild(m: Snap, c: nat, s: Slot, ix: Ix, f: nat): Snap
    requires Node(c, s) in m.tabs && !s.L1?
    requires m.tabs[Node(c, s)] in m.mem && m.mem[m.tabs[Node(c, s)]].TableOf?
    requires EntryAt(m, Node(c, s), ix).frame in m.mem
  {
    var t := m.tabs[Node(c, s)];
    var e := m.mem[t].t[ix];
    var n := Node(c, Child(s, ix));
    m.(mem := m.mem[t := TableOf(m.mem[t].t[ix := e.(frame := f)])][f := m.mem[e.frame]],
       tabs := m.tabs[n := f],
       owner := m.owner[f := TableFrame(n)])
  }

  ghost predicate CanLink(m: Snap, p: nat, c: nat, s: Slot, ix: Ix, f: nat) {
    && Copying(m, p, c) && !s.L1? && ix < Bound(s) && Node(c, s) in m.tabs && Node(p, s) in m.tabs
    && Raw(m, p, c, s, ix) && EntryAt(m, Node(c, s), ix).present
    && f !in m.owner
  }

  /** The entry being visited names a table of the parent. */
  lemma RawNamesParentsChild(m: Snap, p: nat, c: nat, s: Slot, ix: Ix, f: nat)
    requires CanLink(m, p, c, s, ix, f)
    ensures Node(p, Child(s, ix)) in m.tabs
    ensures EntryAt(m, Node(c, s), ix).frame == m.tabs[Node(p, Child(s, ix))]
    ensures EntryAt(m, Node(c, s), ix).frame in m.mem
    ensures EntryAt(m, Node(c, s), ix).write && EntryAt(m, Node(c, s), ix).user
    ensures Child(s, ix).i < 256
  {
    assert Linked(m, Node(p, s), ix);
  }

  /** What linking one copied table does, entry by entry. */
  ghost predicate Linking(m: Snap, m1: Snap, p: nat, c: nat, s: Slot, ix: Ix, f: nat)
    requires !s.L1?
  {
    var n := Node(c, Child(s, ix));
    && m1.tabs == m.tabs[n := f]
    && m1.owner == m.owner[f := TableFrame(n)]
    && m1.procs == m.procs
    && f in m1.mem && m1.mem[f].TableOf?
    && (forall g :: g in m.mem && g != f ==> g in m1.mem && m1.mem[g].TableOf? == m.mem[g].TableOf?)
    && (forall g :: g in m.mem && g != f && m.mem[g].DataOf? ==> m1.mem[g] == m.mem[g])
    && (forall k, jx: Ix {:trigger EntryAt(m1, k, jx)} :: k in m.tabs && !(k == Node(c, s) && jx == ix) ==>
          EntryAt(m1, k, jx) == EntryAt(m, k, jx))
    && EntryAt(m1, Node(c, s), ix) == EntryAt(m, Node(c, s), ix).(frame := f)
    && (forall jx: Ix {:trigger EntryAt(m1, n, jx)} :: EntryAt(m1, n, jx) == EntryAt(m, Node(p, Child(s, ix)), jx))
  }

  lemma LinkChildIsLinking(m: Snap, p: nat, c: nat, s: Slot, ix: Ix, f: nat)
    requires CanLink(m, p, c, s, ix, f)
    ensures EntryAt(m, Node(c, s), ix).frame in m.mem
    ensures Linking(m, LinkChild(m, c, s, ix, f), p, c, s, ix, f)
  {
    RawNamesParentsChild(m, p, c, s, ix, f);
    LinkChildEntries(m, p, c, s, ix, f);
  }

  lemma LinkChildEntries(m: Snap, p: nat, c: nat, s: Slot, ix: Ix, f: nat)
    requires Placed(m) && p != c && !s.L1? && Node(c, s) in m.tabs && Node(c, Child(s, ix)) !in m.tabs
    requires Node(p, Child(s, ix)) in m.tabs && f !in m.owner
    requires EntryAt(m, Node(c, s), ix).frame == m.tabs[Node(p, Child(s, ix))]
    ensures EntryAt(m, Node(c, s), ix).frame in m.mem
    ensures Linking(m, LinkChild(m, c, s, ix, f), p, c, s, ix, f)
  {
    var m1 := LinkChild(m, c, s, ix, f);
    var t := m.tabs[Node(c, s)];
    forall k, jx: Ix | k in m.tabs && !(k == Node(c, s) && jx == ix) ensures EntryAt(m1, k, jx) == EntryAt(m, k, jx) {
      if k != Node(c, s) { assert m.owner[m.tabs[k]] != m.owner[t]; }
    }
  }

  /** A node without a place in the tree has no descendants there. */
  lemma {:induction false} NoDescendants(m: Snap, c: nat, s: Slot, t: Slot)
    requires ParentsExist(m) && Node(c, s) !in m.tabs && Under(s, t)
    ensures Node(c, t) !in m.tabs
    decreases Depth(t)
  {
    if t != s && !t.L4? {
      NoDescendants(m, c, s, Parent(t));
    }
  }

  function Depth(t: Slot): nat {
    match t
    case L4 => 0
    case L3(_) => 1
    case L2(_, _) => 2
    case L1(_, _, _) => 3
  }

  lemma LinkPlaced(m: Snap, m1: Snap, p: nat, c: nat, s: Slot, ix: Ix, f: nat)
    requires !s.L1? && Linking(m, m1, p, c, s, ix, f)
    requires Placed(m) && c in m.procs && Node(c, s) in m.tabs && Node(c, Child(s, ix)) !in m.tabs
    requires f !in m.owner && Child(s, ix).i < 256
    ensures Placed(m1)
  {
    LinkTablesInFrames(m, m1, p, c, s, ix, f);
    LinkParentsExist(m, m1, p, c, s, ix, f);
  }

  lemma LinkTablesInFrames(m: Snap, m1: Snap, p: nat, c: nat, s: Slot, ix: Ix, f: nat)
    requires !s.L1? && Linking(m, m1, p, c, s, ix, f) && f !in m.owner && c in m.procs && TablesInFrames(m)
    ensures TablesInFrames(m1)
  {
  }

  lemma LinkParentsExist(m: Snap, m1: Snap, p: nat, c: nat, s: Slot, ix: Ix, f: nat)
    requires !s.L1? && Linking(m, m1, p, c, s, ix, f) && ParentsExist(m)
    requires Node(c, s) in m.tabs && Child(s, ix).i < 256
    ensures ParentsExist(m1)
  {
    assert Parent(Child(s, ix)) == s;
  }

  lemma LinkMapped(m: Snap, m1: Snap, p: nat, c: nat, s: Slot, ix: Ix, f: nat)
    requires !s.L1? && Linking(m, m1, p, c, s, ix, f)
    requires Mapped(m) && f !in m.owner
    ensures Mapped(m1)
    ensures ChildPages(m, p, c) ==> ChildPages(m1, p, c)
  {
    forall q, pg ensures LeafAt(m1, q, pg) == LeafAt(m, q, pg) {}
    forall g | DataAt(m, g) ensures DataAt(m1, g) {}
  }

  /** Links of other entries survive. */
  lemma LinkKeepsLinked(m: Snap, m1: Snap, p: nat, c: nat, s: Slot, ix: Ix, f: nat, k: Node, jx: Ix)
    requires !s.L1? && Linking(m, m1, p, c, s, ix, f) && p != c
    requires k in m.tabs && !(k == Node(c, s) && jx == ix)
    ensures Linked(m, k, jx) && (f !in m.tabs.Values) ==> Linked(m1, k, jx)
    ensures k.pid == c && Raw(m, p, c, k.slot, jx) && Node(p, k.slot) in m.tabs ==> Raw(m1, p, c, k.slot, jx)
  {
    assert EntryAt(m1, k, jx) == EntryAt(m, k, jx);
    if k.slot.L1? {
      assert LeafAt(m1, k.pid, PageAt(k.slot, jx)) == LeafAt(m, k.pid, PageAt(k.slot, jx));
    } else if Child(k.slot, jx) == Child(s, ix) {
      ChildInjective(k.slot, jx, s, ix);
    }
  }

  lemma ChildInjective(s: Slot, ix: Ix, t: Slot, jx: Ix)
    requires !s.L1? && !t.L1? && Child(s, ix) == Child(t, jx)
    ensures s == t && ix == jx
  {
  }

  lemma LinkNewRaw(m: Snap, m1: Snap, p: nat, c: nat, s: Slot, ix: Ix, f: nat, jx: Ix)
    requires !s.L1? && Linking(m, m1, p, c, s, ix, f) && Placed(m) && Mapped(m) && p != c
    requires Node(p, Child(s, ix)) in m.tabs && Node(c, Child(s, ix)) !in m.tabs
    ensures Raw(m1, p, c, Child(s, ix), jx)
  {
    var t := Child(s, ix);
    assert EntryAt(m1, Node(c, t), jx) == EntryAt(m, Node(p, t), jx);
    assert EntryAt(m1, Node(p, t), jx) == EntryAt(m, Node(p, t), jx);
    if t.L1? {
      assert LeafAt(m, c, PageAt(t, jx)).Some? ==> Node(c, t) in m.tabs;
      assert LeafAt(m1, c, PageAt(t, jx)) == LeafAt(m, c, PageAt(t, jx));
    } else {
      NoDescendants(m, c, t, Child(t, jx));
      ChildInjective2(s, ix, jx);
    }
  }

  lemma ChildInjective2(s: Slot, ix: Ix, jx: Ix)
    requires !s.L1? && !Child(s, ix).L1?
    ensures Child(Child(s, ix), jx) != Child(s, ix)
    ensures Under(Child(s, ix), Child(Child(s, ix), jx))
  {
  }

  lemma LinkHalfCopied(m: Snap, m1: Snap, p: nat, c: nat, s: Slot, ix: Ix, f: nat)
    requires !s.L1? && Linking(m, m1, p, c, s, ix, f) && HalfCopied(m, p, c) && p != c
    requires Node(p, Child(s, ix)) in m.tabs && f !in m.tabs.Values && Node(c, s) in m.tabs
    requires Linked(m1, Node(c, s), ix)
    requires forall jx: Ix :: jx < Bound(Child(s, ix)) ==> Raw(m1, p, c, Child(s, ix), jx)
    ensures HalfCopied(m1, p, c)
  {
    var n := Node(c, Child(s, ix));
    forall k, jx: Ix | k in m1.tabs && k.pid == c && jx < Bound(k.slot)
      ensures FinishedOrRaw(m1, p, c, k, jx)
    {
      if k == n {
        assert Raw(m1, p, c, Child(s, ix), jx);
      } else {
        assert FinishedOrRaw(m, p, c, k, jx);
        if !(k == Node(c, s) && jx == ix) {
          LinkKeepsLinked(m, m1, p, c, s, ix, f, k, jx);
        }
      }
    }
  }

  lemma LinkOthers(m: Snap, m1: Snap, p: nat, c: nat, s: Slot, ix: Ix, f: nat, q: nat)
    requires !s.L1? && Linking(m, m1, p, c, s, ix, f) && p != c && q != c && AllLinked(m, q)
    requires f !in m.tabs.Values
    ensures AllLinked(m1, q)
  {
    forall k, jx: Ix | k in m1.tabs && k.pid == q && jx < Bound(k.slot) ensures Linked(m1, k, jx) {
      assert Linked(m, k, jx);
      LinkKeepsLinked(m, m1, p, c, s, ix, f, k, jx);
    }
  }

  lemma FreshFrame(m: Snap, f: nat)
    requires Placed(m) && f !in m.owner
    ensures f !in m.tabs.Values
  {
  }

  lemma LinkTabs(m: Snap, m1: Snap, p: nat, c: nat, s: Slot, ix: Ix, f: nat)
    requires CanLink(m, p, c, s, ix, f) && Linking(m, m1, p, c, s, ix, f)
    requires EntryAt(m, Node(c, s), ix).write && EntryAt(m, Node(c, s), ix).user
    ensures Linked(m1, Node(c, s), ix)
    ensures m1.procs == m.procs && Node(c, Child(s, ix)) !in m.tabs
  {
  }

  /** Going down one level keeps the half-copied tree in order; the new table is all raw. */
  lemma LinkOk(m: Snap, m1: Snap, p: nat, c: nat, s: Slot, ix: Ix, f: nat)
    requires CanLink(m, p, c, s, ix, f) && Linking(m, m1, p, c, s, ix, f)
    ensures Copying(m1, p, c)
    ensures Linked(m1, Node(c, s), ix)
    ensures forall jx: Ix :: jx < Bound(Child(s, ix)) ==> Raw(m1, p, c, Child(s, ix), jx)
  {
    hide AllLinked, ChildPages, Mapped, Raw, Linking, HalfCopied, TablesInFrames, ParentsExist, FramesNamed;
    RawNamesParentsChild(m, p, c, s, ix, f);
    LinkTabs(m, m1, p, c, s, ix, f);
    FreshFrame(m, f);
    LinkPlaced(m, m1, p, c, s, ix, f);
    LinkMapped(m, m1, p, c, s, ix, f);
    forall jx: Ix | jx < Bound(Child(s, ix)) ensures Raw(m1, p, c, Child(s, ix), jx) {
      LinkNewRaw(m, m1, p, c, s, ix, f, jx);
    }
    LinkHalfCopied(m, m1, p, c, s, ix, f);
    forall q | q in m1.procs && q != c ensures AllLinked(m1, q) {
      LinkOthers(m, m1, p, c, s, ix, f, q);
    }
  }

  lemma LinkSame(m: Snap, m1: Snap, p: nat, c: nat, s: Slot, ix: Ix, f: nat)
    requires !s.L1? && Linking(m, m1, p, c, s, ix, f) && Node(c, s) in m.tabs
    requires Node(c, Child(s, ix)) !in m.tabs && f !in m.owner
    ensures SameOutside(m, m1, p, c, s)
  {
    assert Under(s, Child(s, ix)) && Under(s, s);
    LinkSameEntries(m, m1, p, c, s, ix, f);
    LinkSameOwners(m, m1, p, c, s, ix, f);
  }

  lemma LinkSameEntries(m: Snap, m1: Snap, p: nat, c: nat, s: Slot, ix: Ix, f: nat)
    requires !s.L1? && Linking(m, m1, p, c, s, ix, f) && Under(s, s)
    ensures SameEntries(m, m1, p, c, s)
  {
  }

  lemma LinkSameOwners(m: Snap, m1: Snap, p: nat, c: nat, s: Slot, ix: Ix, f: nat)
    requires !s.L1? && Linking(m, m1, p, c, s, ix, f) && f !in m.owner
    ensures SameOwners(m, m1, c)
  {
  }

  // ----- coming back up: what the copy of one subtree leaves of its siblings

  lemma OutsideKeeps(m1: Snap, m2: Snap, p: nat, c: nat, t: Slot, n: Node, ix: Ix)
    requires SameOutside(m1, m2, p, c, t) && p != c && Node(c, t) in m1.tabs
    requires n in m1.tabs && n.pid == c && !Under(t, n.slot)
    ensures Linked(m1, n, ix) ==> Linked(m2, n, ix)
    ensures Raw(m1, p, c, n.slot, ix) && Node(p, n.slot) in m1.tabs ==> Raw(m2, p, c, n.slot, ix)
  {
    assert EntryAt(m2, n, ix) == EntryAt(m1, n, ix);
    if n.slot.L1? {
      assert LeafAt(m2, c, PageAt(n.slot, ix)) == LeafAt(m1, c, PageAt(n.slot, ix));
    } else {
      UnderChild(t, n.slot, ix);
    }
    if Node(p, n.slot) in m1.tabs {
      assert EntryAt(m2, Node(p, n.slot), ix) == EntryAt(m1, Node(p, n.slot), ix);
    }
  }

  lemma UnderChild(t: Slot, s: Slot, ix: Ix)
    requires !s.L1?
    ensures Under(t, Child(s, ix)) ==> Under(t, s) || t == Child(s, ix)
  {
  }

  lemma OutsideKeepsComplete(m1: Snap, m2: Snap, p: nat, c: nat, t: Slot, u: Slot)
    requires SameOutside(m1, m2, p, c, t) && p != c && Node(c, t) in m1.tabs
    requires forall v :: Under(u, v) ==> !Under(t, v)
    requires Complete(m1, c, u)
    ensures Complete(m2, c, u)
  {
    forall n, ix: Ix | n in m2.tabs && n.pid == c && Under(u, n.slot) && ix < Bound(n.slot) ensures Linked(m2, n, ix) {
      assert Linked(m1, n, ix);
      OutsideKeeps(m1, m2, p, c, t, n, ix);
    }
  }

  lemma LinkKeepsComplete(m: Snap, m1: Snap, p: nat, c: nat, s: Slot, ix: Ix, f: nat, u: Slot)
    requires !s.L1? && Linking(m, m1, p, c, s, ix, f) && p != c && f !in m.tabs.Values
    requires !Under(u, s) && !Under(u, Child(s, ix))
    requires Complete(m, c, u)
    ensures Complete(m1, c, u)
  {
    forall n, jx: Ix | n in m1.tabs && n.pid == c && Under(u, n.slot) && jx < Bound(n.slot) ensures Linked(m1, n, jx) {
      assert Linked(m, n, jx);
      LinkKeepsLinked(m, m1, p, c, s, ix, f, n, jx);
    }
  }

  // ----- the loop over one table

  /** The loop invariant of clone_mm at any of its four levels, with the first i entries of the
      table at s dealt with since m0. */
  ghost predicate LoopAt(m0: Snap, m: Snap, p: nat, c: nat, s: Slot, i: nat) {
    && Copying(m, p, c)
    && Node(p, s) in m.tabs && Node(c, s) in m.tabs
    && SameOutside(m0, m, p, c, s)
    && SameTop(m0, m, c, s)
    && Copied(m0, m, p, c, s, i)
    && (forall ix: Ix {:trigger Raw(m, p, c, s, ix)} :: i <= ix < Bound(s) ==> Raw(m, p, c, s, ix))
    && (forall ix: Ix {:trigger Linked(m, Node(c, s), ix)} :: ix < i && ix < Bound(s) ==> Linked(m, Node(c, s), ix))
    && (!s.L1? ==> forall ix: Ix {:trigger Child(s, ix)} :: ix < i && ix < Bound(s) ==> Complete(m, c, Child(s, ix)))
  }

  /** Above the user half, the child's top-level table is never touched. */
  ghost predicate SameTop(m0: Snap, m: Snap, c: nat, s: Slot) {
    forall ix: Ix {:trigger EntryAt(m, Node(c, s), ix)} :: Bound(s) <= ix ==>
      EntryAt(m, Node(c, s), ix) == EntryAt(m0, Node(c, s), ix)
  }

  /** A table all of whose entries are raw has nothing below it. */
  lemma RawIsEmpty(m: Snap, p: nat, c: nat, s: Slot, pg: PageIx)
    requires Placed(m) && Mapped(m) && PageUnder(s, pg)
    requires IxOf(s, pg) < Bound(s) ==> Raw(m, p, c, s, IxOf(s, pg))
    ensures LeafAt(m, c, pg) == None
  {
    if LeafAt(m, c, pg).Some? && IxOf(s, pg) < Bound(s) && !s.L1? {
      NoDescendants(m, c, Child(s, IxOf(s, pg)), LeafSlot(pg));
      assert false;
    }
  }

  lemma LoopStart(m: Snap, p: nat, c: nat, s: Slot)
    requires Copying(m, p, c) && Node(p, s) in m.tabs && Node(c, s) in m.tabs
    requires forall ix: Ix :: ix < Bound(s) ==> Raw(m, p, c, s, ix)
    ensures LoopAt(m, m, p, c, s, 0)
  {
    forall pg | PageUnder(s, pg) ensures LeafAt(m, c, pg) == None {
      RawIsEmpty(m, p, c, s, pg);
    }
  }

  /** The two tables of the loop lie in two frames. */
  lemma LoopTables(m0: Snap, m: Snap, p: nat, c: nat, s: Slot, i: nat)
    requires LoopAt(m0, m, p, c, s, i)
    ensures p != c && p in m.procs && c in m.procs
    ensures Node(p, s) in m.tabs && m.tabs[Node(p, s)] in m.mem && m.mem[m.tabs[Node(p, s)]].TableOf?
    ensures Node(c, s) in m.tabs && m.tabs[Node(c, s)] in m.mem && m.mem[m.tabs[Node(c, s)]].TableOf?
    ensures m.tabs[Node(p, s)] != m.tabs[Node(c, s)]
    ensures forall n :: n in m0.tabs ==> n in m.tabs && m.tabs[n] == m0.tabs[n]
  {
    TablesDiffer(m, Node(p, s), Node(c, s));
  }

  /** When the loop ends, the whole subtree is finished. */
  lemma LoopEnd(m0: Snap, m: Snap, p: nat, c: nat, s: Slot)
    requires LoopAt(m0, m, p, c, s, Bound(s))
    ensures Copying(m, p, c) && SameOutside(m0, m, p, c, s) && SameTop(m0, m, c, s)
    ensures Complete(m, c, s)
    ensures Copied(m0, m, p, c, s, 512)
  {
    forall n, ix: Ix | n in m.tabs && n.pid == c && Under(s, n.slot) && ix < Bound(n.slot) ensures Linked(m, n, ix) {
      if n.slot != s {
        var jx := StepTo(s, n.slot);
        assert jx < Bound(s);
        assert Complete(m, c, Child(s, jx));
      }
    }
    forall pg | PageUnder(s, pg) && IxOf(s, pg) >= Bound(s)
      ensures LeafAt(m, p, pg) == None && LeafAt(m, c, pg) == None
    {
      assert LeafAt(m, p, pg).Some? ==> Node(p, LeafSlot(pg)) in m.tabs;
    }
  }

  /** The index that leads from s towards a table below it. */
  function StepTo(s: Slot, t: Slot): (ix: Ix)
    requires Under(s, t) && s != t
    ensures !s.L1? && Under(Child(s, ix), t)
  {
    match s
    case L4 => t.i
    case L3(_) => t.j
    case L2(_, _) => t.k
  }

  /** An absent entry needs no work. */
  lemma LoopSkip(m0: Snap, m: Snap, p: nat, c: nat, s: Slot, i: Ix)
    requires LoopAt(m0, m, p, c, s, i) && i < Bound(s) && !EntryAt(m, Node(c, s), i).present
    ensures LoopAt(m0, m, p, c, s, i + 1)
  {
    hide Copying, Copied, SameOutside, SameTop, Complete, Raw, Linked, CopiedSkip;
    assert Raw(m, p, c, s, i);
    SkipFacts(m, p, c, s, i);
    SkipCopied(m0, m, p, c, s, i);
  }

  lemma SkipFacts(m: Snap, p: nat, c: nat, s: Slot, i: Ix)
    requires Copying(m, p, c) && Node(p, s) in m.tabs && i < Bound(s)
    requires Raw(m, p, c, s, i) && !EntryAt(m, Node(c, s), i).present
    ensures Linked(m, Node(c, s), i) && CopiedSkip(m, p, s, i)
    ensures !s.L1? ==> Complete(m, c, Child(s, i))
  {
    hide HalfCopied, ChildPages, CopiedSkip, Complete, TablesInFrames, FramesNamed, Mapped;
    assert AllLinked(m, p);
    assert Linked(m, Node(p, s), i);
    SkipLeaves(m, p, s, i);
    if !s.L1? { AbsentIsComplete(m, c, Child(s, i)); }
  }

  lemma SkipCopied(m0: Snap, m: Snap, p: nat, c: nat, s: Slot, i: Ix)
    requires Copied(m0, m, p, c, s, i) && CopiedSkip(m, p, s, i)
    ensures Copied(m0, m, p, c, s, i + 1)
  {
  }

  /** p maps nothing behind entry i. */
  ghost predicate CopiedSkip(m: Snap, p: nat, s: Slot, i: Ix) {
    forall pg {:trigger LeafAt(m, p, pg)} :: PageUnder(s, pg) && IxOf(s, pg) == i ==> LeafAt(m, p, pg) == None
  }

  lemma SkipLeaves(m: Snap, p: nat, s: Slot, i: Ix)
    requires Placed(m) && Mapped(m) && Linked(m, Node(p, s), i) && !EntryAt(m, Node(p, s), i).present
    ensures CopiedSkip(m, p, s, i)
  {
    hide TablesInFrames, FramesNamed;
    forall pg | PageUnder(s, pg) && IxOf(s, pg) == i ensures LeafAt(m, p, pg) == None {
      if !s.L1? { NoDescendants(m, p, Child(s, i), LeafSlot(pg)); }
    }
  }

  lemma AbsentIsComplete(m: Snap, c: nat, t: Slot)
    requires ParentsExist(m) && Node(c, t) !in m.tabs
    ensures Complete(m, c, t)
  {
    forall u | Under(t, u) ensures Node(c, u) !in m.tabs {
      NoDescendants(m, c, t, u);
    }
  }

  lemma DescendCopied(m0: Snap, m: Snap, m1: Snap, m2: Snap, p: nat, c: nat, s: Slot, i: Ix)
    requires !s.L1? && Copied(m0, m, p, c, s, i) && m1.procs == m.procs
    requires SameLeaves(m1, m2, p, c, Child(s, i)) && Copied(m1, m2, p, c, Child(s, i), 512)
    ensures Copied(m0, m2, p, c, s, i + 1)
  {
    forall pg | PageUnder(s, pg)
      ensures if IxOf(s, pg) < i + 1 then
          LeafAt(m2, p, pg) == ReadOnly(LeafAt(m0, p, pg)) && LeafAt(m2, c, pg) == LeafAt(m2, p, pg)
        else LeafAt(m2, p, pg) == LeafAt(m0, p, pg) && LeafAt(m2, c, pg) == None
    {
      assert LeafAt(m1, p, pg) == LeafAt(m, p, pg) && LeafAt(m1, c, pg) == LeafAt(m, c, pg);
      if IxOf(s, pg) == i {
        assert PageUnder(Child(s, i), pg);
        assert LeafAt(m2, p, pg) == ReadOnly(LeafAt(m1, p, pg));
      } else {
        assert !PageUnder(Child(s, i), pg) by { SiblingsDisjoint(s, i, IxOf(s, pg)); }
        assert LeafAt(m2, p, pg) == LeafAt(m1, p, pg);
        assert LeafAt(m2, c, pg) == LeafAt(m1, c, pg);
      }
    }
  }

  lemma DescendEntries(m: Snap, m1: Snap, m2: Snap, p: nat, c: nat, s: Slot, i: Ix, f: nat, ix: Ix)
    requires !s.L1? && Linking(m, m1, p, c, s, i, f) && p != c && f !in m.tabs.Values
    requires SameOutside(m1, m2, p, c, Child(s, i)) && Node(c, s) in m.tabs && Node(p, s) in m.tabs
    ensures ix != i && Raw(m, p, c, s, ix) ==> Raw(m2, p, c, s, ix)
    ensures ix != i && Linked(m, Node(c, s), ix) ==> Linked(m2, Node(c, s), ix)
    ensures Linked(m1, Node(c, s), i) ==> Linked(m2, Node(c, s), i)
  {
    NotUnderChild(s, i);
    if ix != i { LinkKeepsLinked(m, m1, p, c, s, i, f, Node(c, s), ix); }
    OutsideKeeps(m1, m2, p, c, Child(s, i), Node(c, s), ix);
    OutsideKeeps(m1, m2, p, c, Child(s, i), Node(c, s), i);
  }

  lemma NotUnderChild(s: Slot, ix: Ix)
    requires !s.L1?
    ensures !Under(Child(s, ix), s) && Under(s, Child(s, ix))
  {
  }

  lemma DescendComplete(m: Snap, m1: Snap, m2: Snap, p: nat, c: nat, s: Slot, i: Ix, f: nat, ix: Ix)
    requires !s.L1? && Linking(m, m1, p, c, s, i, f) && p != c && f !in m.tabs.Values
    requires SameOutside(m1, m2, p, c, Child(s, i)) && ix != i
    requires Complete(m, c, Child(s, ix))
    ensures Complete(m2, c, Child(s, ix))
  {
    NotUnderChild(s, ix);
    SiblingsDisjoint(s, i, ix);
    SiblingsDisjoint(s, ix, i);
    LinkKeepsComplete(m, m1, p, c, s, i, f, Child(s, ix));
    OutsideKeepsComplete(m1, m2, p, c, Child(s, i), Child(s, ix));
  }

  lemma DescendTop(m0: Snap, m: Snap, m1: Snap, m2: Snap, p: nat, c: nat, s: Slot, i: Ix, f: nat)
    requires !s.L1? && i < Bound(s) && Linking(m, m1, p, c, s, i, f) && Node(c, s) in m.tabs && SameTop(m0, m, c, s)
    requires SameEntries(m1, m2, p, c, Child(s, i))
    ensures SameTop(m0, m2, c, s)
  {
    NotUnderChild(s, i);
    forall ix: Ix | Bound(s) <= ix ensures EntryAt(m2, Node(c, s), ix) == EntryAt(m0, Node(c, s), ix) {
      assert EntryAt(m2, Node(c, s), ix) == EntryAt(m1, Node(c, s), ix);
      assert EntryAt(m1, Node(c, s), ix) == EntryAt(m, Node(c, s), ix);
    }
  }

  /** One iteration that went down a level: link the new table, copy below it, come back. */
  lemma LoopDescend(m0: Snap, m: Snap, m1: Snap, m2: Snap, p: nat, c: nat, s: Slot, i: Ix, f: nat)
    requires LoopAt(m0, m, p, c, s, i) && CanLink(m, p, c, s, i, f) && Linking(m, m1, p, c, s, i, f)
    requires Copying(m2, p, c) && Complete(m2, c, Child(s, i))
    requires SameOutside(m1, m2, p, c, Child(s, i)) && Copied(m1, m2, p, c, Child(s, i), 512)
    ensures LoopAt(m0, m2, p, c, s, i + 1)
  {
    LinkOk(m, m1, p, c, s, i, f);
    FreshFrame(m, f);
    NotUnderChild(s, i);
    LinkSame(m, m1, p, c, s, i, f);
    SameOutsideTransitive(m0, m, m1, p, c, s, s);
    SameOutsideTransitive(m0, m1, m2, p, c, s, Child(s, i));
    DescendCopied(m0, m, m1, m2, p, c, s, i);
    DescendTop(m0, m, m1, m2, p, c, s, i, f);
    forall ix: Ix | i + 1 <= ix < Bound(s) ensures Raw(m2, p, c, s, ix) {
      assert Raw(m, p, c, s, ix);
      DescendEntries(m, m1, m2, p, c, s, i, f, ix);
    }
    forall ix: Ix | ix < i + 1 && ix < Bound(s) ensures Linked(m2, Node(c, s), ix) {
      assert ix != i ==> Linked(m, Node(c, s), ix);
      DescendEntries(m, m1, m2, p, c, s, i, f, ix);
    }
    forall ix: Ix | ix < i + 1 && ix < Bound(s) ensures Complete(m2, c, Child(s, ix)) {
      if ix != i {
        assert Complete(m, c, Child(s, ix));
        DescendComplete(m, m1, m2, p, c, s, i, f, ix);
      }
    }
  }

  // ----- the innermost loop body

  /** What write-protecting and sharing one page does. */
  ghost predicate Sharing(m: Snap, m1: Snap, p: nat, c: nat, s: Slot, ix: Ix)
    requires s.L1? && p in m.procs && c in m.procs
  {
    var pg := PageAt(s, ix);
    && m1.tabs == m.tabs && m1.owner == m.owner
    && LeafAt(m, p, pg).Some?
    && var l := LeafAt(m, p, pg).value.(write := false);
    && m1.procs == m.procs[p := m.procs[p].(table := m.procs[p].table[pg := l])]
                          [c := m.procs[c].(table := m.procs[c].table[pg := l])]
    && (forall g :: g in m.mem ==> g in m1.mem && m1.mem[g].TableOf? == m.mem[g].TableOf?)
    && (forall g :: g in m.mem && m.mem[g].DataOf? ==> m1.mem[g] == m.mem[g])
    && (forall k, jx: Ix {:trigger EntryAt(m1, k, jx)} ::
          EntryAt(m1, k, jx) ==
          if (k == Node(p, s) || k == Node(c, s)) && jx == ix then EntryAt(m, k, jx).(write := false)
          else EntryAt(m, k, jx))
  }

  function ShareEntry(m: Snap, p: nat, c: nat, s: Slot, ix: Ix): Snap
    requires s.L1? && p in m.procs && c in m.procs && p != c
    requires Node(p, s) in m.tabs && Node(c, s) in m.tabs
    requires m.tabs[Node(p, s)] in m.mem && m.mem[m.tabs[Node(p, s)]].TableOf?
    requires m.tabs[Node(c, s)] in m.mem && m.mem[m.tabs[Node(c, s)]].TableOf?
    requires m.tabs[Node(p, s)] != m.tabs[Node(c, s)]
    requires PageAt(s, ix) in m.procs[p].table
  {
    var to, tn := m.tabs[Node(p, s)], m.tabs[Node(c, s)];
    var l := m.procs[p].table[PageAt(s, ix)].(write := false);
    m.(mem := m.mem[tn := TableOf(m.mem[tn].t[ix := m.mem[tn].t[ix].(write := false)])]
                   [to := TableOf(m.mem[to].t[ix := m.mem[to].t[ix].(write := false)])],
       procs := m.procs[p := m.procs[p].(table := m.procs[p].table[PageAt(s, ix) := l])]
                       [c := m.procs[c].(table := m.procs[c].table[PageAt(s, ix) := l])])
  }

  lemma TablesDiffer(m: Snap, n: Node, k: Node)
    requires TablesInFrames(m) && n in m.tabs && k in m.tabs && n != k
    ensures m.tabs[n] != m.tabs[k]
  {
    assert m.owner[m.tabs[n]] != m.owner[m.tabs[k]];
  }

  lemma ShareEntryIsSharing(m: Snap, p: nat, c: nat, s: Slot, ix: Ix)
    requires s.L1? && p in m.procs && c in m.procs && p != c && Placed(m)
    requires Node(p, s) in m.tabs && Node(c, s) in m.tabs
    requires PageAt(s, ix) in m.procs[p].table
    ensures m.tabs[Node(p, s)] != m.tabs[Node(c, s)]
    ensures Sharing(m, ShareEntry(m, p, c, s, ix), p, c, s, ix)
  {
    TablesDiffer(m, Node(p, s), Node(c, s));
    var m1 := ShareEntry(m, p, c, s, ix);
    forall k, jx: Ix
      ensures EntryAt(m1, k, jx) ==
        if (k == Node(p, s) || k == Node(c, s)) && jx == ix then EntryAt(m, k, jx).(write := false)
        else EntryAt(m, k, jx)
    {
      if k in m.tabs && k != Node(p, s) { TablesDiffer(m, k, Node(p, s)); }
      if k in m.tabs && k != Node(c, s) { TablesDiffer(m, k, Node(c, s)); }
    }
  }

  lemma SharingLeaves(m: Snap, m1: Snap, p: nat, c: nat, s: Slot, ix: Ix)
    requires s.L1? && p in m.procs && c in m.procs && p != c && Sharing(m, m1, p, c, s, ix)
    ensures forall q, pg {:trigger LeafAt(m1, q, pg)} :: !((q == p || q == c) && pg == PageAt(s, ix)) ==>
      LeafAt(m1, q, pg) == LeafAt(m, q, pg)
    ensures LeafAt(m1, p, PageAt(s, ix)) == ReadOnly(LeafAt(m, p, PageAt(s, ix)))
    ensures LeafAt(m1, c, PageAt(s, ix)) == ReadOnly(LeafAt(m, p, PageAt(s, ix)))
  {
  }

  lemma SharingPlaced(m: Snap, m1: Snap, p: nat, c: nat, s: Slot, ix: Ix)
    requires s.L1? && p in m.procs && c in m.procs && p != c && Sharing(m, m1, p, c, s, ix)
    requires Placed(m) && Mapped(m) && Node(c, s) in m.tabs
    ensures Placed(m1) && Mapped(m1)
  {
    SharingLeaves(m, m1, p, c, s, ix);
    forall g | DataAt(m, g) ensures DataAt(m1, g) {}
    forall q, pg | LeafAt(m1, q, pg).Some?
      ensures Node(q, LeafSlot(pg)) in m1.tabs && DataAt(m1, LeafAt(m1, q, pg).value.frame)
    {
      assert LeafAt(m, q, pg).Some? || (q == c && pg == PageAt(s, ix) && LeafAt(m, p, pg).Some?);
    }
  }

  lemma SharingKeeps(m: Snap, m1: Snap, p: nat, c: nat, s: Slot, ix: Ix, k: Node, jx: Ix)
    requires s.L1? && p in m.procs && c in m.procs && p != c && Sharing(m, m1, p, c, s, ix)
    ensures Linked(m, k, jx) && !(k == Node(c, s) && jx == ix) ==> Linked(m1, k, jx)
    ensures Raw(m, p, c, k.slot, jx) && !(k.slot == s && jx == ix) ==> Raw(m1, p, c, k.slot, jx)
  {
    SharingLeaves(m, m1, p, c, s, ix);
    if k.slot.L1? {
      var pg := PageAt(k.slot, jx);
      assert pg == PageAt(s, ix) <==> k.slot == s && jx == ix;
      assert LeafAt(m1, k.pid, pg) == LeafAt(m, k.pid, pg) || pg == PageAt(s, ix);
      assert LeafAt(m1, c, pg) == LeafAt(m, c, pg) || pg == PageAt(s, ix);
      assert EntryAt(m1, k, jx) == EntryAt(m, k, jx) || pg == PageAt(s, ix);
    }
    assert EntryAt(m1, k, jx).frame == EntryAt(m, k, jx).frame;
    assert EntryAt(m1, Node(p, k.slot), jx) == EntryAt(m, Node(p, k.slot), jx) || (k.slot == s && jx == ix);
    assert EntryAt(m1, Node(c, k.slot), jx) == EntryAt(m, Node(c, k.slot), jx) || (k.slot == s && jx == ix);
  }

  lemma SharingLinks(m: Snap, m1: Snap, p: nat, c: nat, s: Slot, ix: Ix)
    requires s.L1? && p in m.procs && c in m.procs && p != c && Sharing(m, m1, p, c, s, ix)
    requires Raw(m, p, c, s, ix) && Linked(m, Node(p, s), ix)
    ensures Linked(m1, Node(p, s), ix) && Linked(m1, Node(c, s), ix)
  {
    SharingLeaves(m, m1, p, c, s, ix);
    assert EntryAt(m1, Node(p, s), ix) == EntryAt(m, Node(p, s), ix).(write := false);
    assert EntryAt(m1, Node(c, s), ix) == EntryAt(m, Node(c, s), ix).(write := false);
  }

  lemma SharingCopying(m: Snap, m1: Snap, p: nat, c: nat, s: Slot, ix: Ix)
    requires s.L1? && Copying(m, p, c) && Sharing(m, m1, p, c, s, ix)
    requires Node(c, s) in m.tabs && Raw(m, p, c, s, ix) && Linked(m, Node(p, s), ix)
    ensures Copying(m1, p, c)
  {
    SharingPlaced(m, m1, p, c, s, ix);
    SharingLinks(m, m1, p, c, s, ix);
    SharingOthers(m, m1, p, c, s, ix);
    SharingHalf(m, m1, p, c, s, ix);
    SharingChildPages(m, m1, p, c, s, ix);
  }

  lemma SharingOthers(m: Snap, m1: Snap, p: nat, c: nat, s: Slot, ix: Ix)
    requires s.L1? && p in m.procs && c in m.procs && p != c && Sharing(m, m1, p, c, s, ix)
    requires forall q :: q in m.procs && q != c ==> AllLinked(m, q)
    ensures forall q :: q in m1.procs && q != c ==> AllLinked(m1, q)
  {
    forall q, k, jx: Ix | q in m1.procs && q != c && k in m1.tabs && k.pid == q && jx < Bound(k.slot)
      ensures Linked(m1, k, jx)
    {
      assert AllLinked(m, q);
      assert Linked(m, k, jx);
      SharingKeeps(m, m1, p, c, s, ix, k, jx);
    }
  }

  lemma SharingHalf(m: Snap, m1: Snap, p: nat, c: nat, s: Slot, ix: Ix)
    requires s.L1? && p in m.procs && c in m.procs && p != c && Sharing(m, m1, p, c, s, ix)
    requires HalfCopied(m, p, c) && Linked(m1, Node(c, s), ix)
    ensures HalfCopied(m1, p, c)
  {
    forall k, jx: Ix | k in m1.tabs && k.pid == c && jx < Bound(k.slot) ensures FinishedOrRaw(m1, p, c, k, jx) {
      assert FinishedOrRaw(m, p, c, k, jx);
      SharingKeeps(m, m1, p, c, s, ix, k, jx);
    }
  }

  lemma SharingChildPages(m: Snap, m1: Snap, p: nat, c: nat, s: Slot, ix: Ix)
    requires s.L1? && p in m.procs && c in m.procs && p != c && Sharing(m, m1, p, c, s, ix)
    requires ChildPages(m, p, c)
    ensures ChildPages(m1, p, c)
  {
    SharingLeaves(m, m1, p, c, s, ix);
    forall pg | LeafAt(m1, c, pg).Some?
      ensures LeafAt(m1, c, pg) == LeafAt(m1, p, pg) && !LeafAt(m1, c, pg).value.write
    {
      assert pg != PageAt(s, ix) ==> LeafAt(m1, c, pg) == LeafAt(m, c, pg) && LeafAt(m1, p, pg) == LeafAt(m, p, pg);
    }
  }

  lemma SharingSame(m: Snap, m1: Snap, p: nat, c: nat, s: Slot, ix: Ix)
    requires s.L1? && p in m.procs && c in m.procs && p != c && Sharing(m, m1, p, c, s, ix)
    ensures SameOutside(m, m1, p, c, s)
  {
    SharingLeaves(m, m1, p, c, s, ix);
    assert SameLeaves(m, m1, p, c, s);
    assert SameEntries(m, m1, p, c, s);
    assert SameOwners(m, m1, c) by {
      forall g | DataAt(m, g) ensures DataAt(m1, g) {}
    }
  }

  lemma SharingCopied(m0: Snap, m: Snap, m1: Snap, p: nat, c: nat, s: Slot, i: Ix)
    requires s.L1? && p in m.procs && c in m.procs && p != c && Sharing(m, m1, p, c, s, i)
    requires Copied(m0, m, p, c, s, i)
    ensures Copied(m0, m1, p, c, s, i + 1)
  {
    SharingLeaves(m, m1, p, c, s, i);
    forall pg | PageUnder(s, pg)
      ensures if IxOf(s, pg) < i + 1 then
          LeafAt(m1, p, pg) == ReadOnly(LeafAt(m0, p, pg)) && LeafAt(m1, c, pg) == LeafAt(m1, p, pg)
        else LeafAt(m1, p, pg) == LeafAt(m0, p, pg) && LeafAt(m1, c, pg) == None
    {
      assert IxOf(s, pg) == i <==> pg == PageAt(s, i);
      assert LeafAt(m, p, pg) == LeafAt(m, p, pg) && LeafAt(m, c, pg) == LeafAt(m, c, pg);
    }
  }

  /** One iteration of the innermost loop on a present page. */
  lemma LoopShare(m0: Snap, m: Snap, m1: Snap, p: nat, c: nat, s: Slot, i: Ix)
    requires s.L1? && LoopAt(m0, m, p, c, s, i) && Sharing(m, m1, p, c, s, i)
    ensures LoopAt(m0, m1, p, c, s, i + 1)
  {
    assert Raw(m, p, c, s, i);
    assert Linked(m, Node(p, s), i);
    SharingLinks(m, m1, p, c, s, i);
    SharingCopying(m, m1, p, c, s, i);
    SharingSame(m, m1, p, c, s, i);
    assert Under(s, s);
    SameOutsideTransitive(m0, m, m1, p, c, s, s);
    SharingCopied(m0, m, m1, p, c, s, i);
    forall ix: Ix | i + 1 <= ix < Bound(s) ensures Raw(m1, p, c, s, ix) {
      assert Raw(m, p, c, s, ix);
      SharingKeeps(m, m1, p, c, s, i, Node(c, s), ix);
    }
    forall ix: Ix | ix < i + 1 && ix < Bound(s) ensures Linked(m1, Node(c, s), ix) {
      assert ix != i ==> Linked(m, Node(c, s), ix);
      SharingKeeps(m, m1, p, c, s, i, Node(c, s), ix);
    }
  }

  /** What the loop body relies on when it finds a present entry above the last level. */
  lemma LinkFacts(m0: Snap, m: Snap, p: nat, c: nat, s: Slot, ix: Ix, f: nat)
    requires LoopAt(m0, m, p, c, s, ix) && !s.L1? && ix < Bound(s) && EntryAt(m, Node(c, s), ix).present
    ensures f !in m.owner ==> CanLink(m, p, c, s, ix, f)
    ensures Node(p, Child(s, ix)) in m.tabs && Node(c, Child(s, ix)) !in m.tabs
    ensures EntryAt(m, Node(c, s), ix).frame == m.tabs[Node(p, Child(s, ix))]
    ensures EntryAt(m, Node(c, s), ix).frame in m.mem
    ensures EntryAt(m, Node(c, s), ix).frame != m.tabs[Node(c, s)]
    ensures m.tabs[Node(c, s)] in m.mem && m.mem[m.tabs[Node(c, s)]].TableOf?
  {
    assert Raw(m, p, c, s, ix);
    assert Linked(m, Node(p, s), ix);
    TablesDiffer(m, Node(p, Child(s, ix)), Node(c, s));
  }

  /** Linking leaves the translations alone and the new table all raw. */
  lemma LinkStep(m0: Snap, m: Snap, p: nat, c: nat, s: Slot, ix: Ix, f: nat)
    requires LoopAt(m0, m, p, c, s, ix) && !s.L1? && ix < Bound(s) && EntryAt(m, Node(c, s), ix).present
    requires f !in m.owner
    ensures m.tabs[Node(c, s)] in m.mem && m.mem[m.tabs[Node(c, s)]].TableOf?
    ensures EntryAt(m, Node(c, s), ix).frame in m.mem
    ensures
      var m1 := LinkChild(m, c, s, ix, f);
      && CanLink(m, p, c, s, ix, f)
      && Linking(m, m1, p, c, s, ix, f)
      && Copying(m1, p, c)
      && (forall jx: Ix :: jx < Bound(Child(s, ix)) ==> Raw(m1, p, c, Child(s, ix), jx))
      && (forall q, pg {:trigger LeafAt(m1, q, pg)} :: LeafAt(m1, q, pg) == LeafAt(m, q, pg))
  {
    hide Copying, Raw, Linking, CanLink, LoopAt;
    LinkFacts(m0, m, p, c, s, ix, f);
    LinkChildIsLinking(m, p, c, s, ix, f);
    LinkOk(m, LinkChild(m, c, s, ix, f), p, c, s, ix, f);
  }

  // ----- in the end the child has every table of the parent

  /** Above the last level, the child's tables have entries where the parent's have. */
  ghost predicate SameShape(m: Snap, p: nat, c: nat) {
    forall s: Slot, ix: Ix {:trigger EntryAt(m, Node(c, s), ix)} ::
      Node(c, s) in m.tabs && !s.L1? && ix < Bound(s) ==>
        EntryAt(m, Node(c, s), ix).present == EntryAt(m, Node(p, s), ix).present
  }

  /** A copied table has entries where the original has. */
  lemma LinkShape(m: Snap, m1: Snap, p: nat, c: nat, s: Slot, ix: Ix, f: nat)
    requires CanLink(m, p, c, s, ix, f) && Linking(m, m1, p, c, s, ix, f) && SameShape(m, p, c)
    ensures SameShape(m1, p, c)
  {
    RawNamesParentsChild(m, p, c, s, ix, f);
    forall t: Slot, jx: Ix | Node(c, t) in m1.tabs && !t.L1? && jx < Bound(t)
      ensures EntryAt(m1, Node(c, t), jx).present == EntryAt(m1, Node(p, t), jx).present
    {
      if t == Child(s, ix) {
        assert EntryAt(m1, Node(p, t), jx) == EntryAt(m, Node(p, t), jx);
      } else {
        assert FinishedOrRaw(m, p, c, Node(c, t), jx);
        assert EntryAt(m, Node(c, t), jx).present == EntryAt(m, Node(p, t), jx).present;
        assert EntryAt(m1, Node(p, t), jx) == EntryAt(m, Node(p, t), jx);
      }
    }
  }

  /** Sharing a page changes no entry above the last level. */
  lemma ShareShape(m0: Snap, m: Snap, p: nat, c: nat, s: Slot, i: Ix)
    requires s.L1? && LoopAt(m0, m, p, c, s, i) && i < Bound(s) && SameShape(m, p, c)
    requires EntryAt(m, Node(c, s), i).present
    ensures p in m.procs && PageAt(s, i) in m.procs[p].table && p != c && c in m.procs
    ensures m.tabs[Node(p, s)] in m.mem && m.mem[m.tabs[Node(p, s)]].TableOf?
    ensures m.tabs[Node(c, s)] in m.mem && m.mem[m.tabs[Node(c, s)]].TableOf?
    ensures m.tabs[Node(p, s)] != m.tabs[Node(c, s)]
    ensures SameShape(ShareEntry(m, p, c, s, i), p, c)
  {
    SharedPage(m0, m, p, c, s, i);
    hide LoopAt;
    ShareEntryIsSharing(m, p, c, s, i);
    SharingShape(m, ShareEntry(m, p, c, s, i), p, c, s, i);
  }

  /** The innermost loop body finds a page of the parent. */
  lemma SharedPage(m0: Snap, m: Snap, p: nat, c: nat, s: Slot, i: Ix)
    requires s.L1? && LoopAt(m0, m, p, c, s, i) && i < Bound(s) && EntryAt(m, Node(c, s), i).present
    ensures p in m.procs && PageAt(s, i) in m.procs[p].table && p != c && c in m.procs && Placed(m)
    ensures Node(p, s) in m.tabs && Node(c, s) in m.tabs
    ensures m.tabs[Node(p, s)] in m.mem && m.mem[m.tabs[Node(p, s)]].TableOf?
    ensures m.tabs[Node(c, s)] in m.mem && m.mem[m.tabs[Node(c, s)]].TableOf?
  {
    hide Copied, SameOutside, SameTop, Complete, HalfCopied, ChildPages;
    assert Raw(m, p, c, s, i);
    assert Linked(m, Node(p, s), i);
  }

  lemma SharingShape(m: Snap, m1: Snap, p: nat, c: nat, s: Slot, ix: Ix)
    requires s.L1? && p in m.procs && c in m.procs && Sharing(m, m1, p, c, s, ix) && SameShape(m, p, c)
    ensures SameShape(m1, p, c)
  {
    forall t: Slot, jx: Ix | Node(c, t) in m1.tabs && !t.L1? && jx < Bound(t)
      ensures EntryAt(m1, Node(c, t), jx).present == EntryAt(m1, Node(p, t), jx).present
    {
      assert EntryAt(m, Node(c, t), jx).present == EntryAt(m, Node(p, t), jx).present;
    }
  }

  /** A finished child has every table of the parent: entry by entry, from the top. */
  lemma {:induction false} AllMirrored(m: Snap, p: nat, c: nat, t: Slot)
    requires Copying(m, p, c) && Complete(m, c, L4) && SameShape(m, p, c) && Node(c, L4) in m.tabs
    requires Node(p, t) in m.tabs
    ensures Node(c, t) in m.tabs
    decreases Depth(t)
  {
    if !t.L4? {
      var s := Parent(t);
      AllMirrored(m, p, c, s);
      var ix := StepTo(s, t);
      assert Child(s, ix) == t && ix < Bound(s);
      assert AllLinked(m, p);
      assert Linked(m, Node(p, s), ix) && Linked(m, Node(c, s), ix);
    }
  }
}
