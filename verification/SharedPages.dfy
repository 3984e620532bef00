/** The sharing machine: fork write-protects and shares every page, and a page fault un-shares
    on write (src/mm/mm.c: clone_mm, free_mm, do_page_fault). Page tables are seen here only as
    maps of leaves; the four levels that hold them are in module `PageTables`. */
module SharedPages {
  import opened Memory
  import opened Areas
  import E = EagerFork

  /** A present leaf entry: the frame it names and its write bit. */
  datatype Leaf = Leaf(frame: nat, write: bool)

  type LeafMap = map<PageIx, Leaf>

  datatype Process = Process(areas: seq<Area>, table: LeafMap)

  type Processes = map<nat, Process>

  datatype State = State(procs: Processes, data: map<nat, Page>)

  /** A page of one process. */
  datatype Key = Key(pid: nat, page: PageIx)

  predicate Names(procs: Processes, k: Key, f: nat) {
    k.pid in procs && k.page in procs[k.pid].table && procs[k.pid].table[k.page].frame == f
  }

  /** The leaf entries that name a frame; `pages[f].count` is their number. */
  function Refs(procs: Processes, f: nat): (r: set<Key>)
    ensures forall k :: k in r <==> Names(procs, k, f)
  {
    set p, pg | p in procs && pg in procs[p].table && procs[p].table[pg].frame == f :: Key(p, pg)
  }

  // ----- the invariant

  /** Every entry names a data frame. */
  ghost predicate Grounded(s: State) {
    forall p, pg :: p in s.procs && pg in s.procs[p].table ==> s.procs[p].table[pg].frame in s.data
  }

  /** Every data frame is named by some entry. */
  ghost predicate NoOrphans(s: State) {
    forall f :: f in s.data ==> exists k :: Names(s.procs, k, f)
  }

  ghost predicate OnlyEntry(procs: Processes, k: Key, f: nat) {
    forall j :: Names(procs, j, f) ==> j == k
  }

  /** A writable entry is the only one that names its frame. */
  ghost predicate Exclusive(procs: Processes) {
    forall p, pg :: p in procs && pg in procs[p].table && procs[p].table[pg].write ==>
      OnlyEntry(procs, Key(p, pg), procs[p].table[pg].frame)
  }

  /** Only pages of writable areas are ever writable. */
  ghost predicate WritesAllowed(q: Process) {
    forall pg :: pg in q.table && q.table[pg].write ==> E.Writable(q.areas, PageAddr(pg))
  }

  ghost predicate ProcessOk(q: Process) {
    AreasOk(q.areas) && WritesAllowed(q)
  }

  ghost predicate Inv(s: State) {
    && (forall p :: p in s.procs ==> ProcessOk(s.procs[p]))
    && Grounded(s)
    && NoOrphans(s)
    && Exclusive(s.procs)
  }

  // ----- the simulation relation

  /** The eager process `e` owns a copy of exactly the pages `q` can reach. */
  ghost predicate SimProcess(q: Process, data: map<nat, Page>, e: E.Process) {
    && q.areas == e.areas
    && (forall pg :: pg in q.table <==> pg in e.pages)
    && (forall pg :: pg in q.table ==> q.table[pg].frame in data && data[q.table[pg].frame] == e.pages[pg])
  }

  ghost predicate Sim(s: State, w: E.World) {
    && (forall p :: p in s.procs <==> p in w)
    && (forall p :: p in s.procs ==> SimProcess(s.procs[p], s.data, w[p]))
  }

  // ----- steps

  /** clone_mm on one address space: every leaf loses its write bit. */
  function Protect(table: LeafMap): LeafMap {
    map pg | pg in table :: table[pg].(write := false)
  }

  /** sys_fork: parent and child end up with the same write-protected entries. */
  function ForkStep(s: State, p: nat, c: nat): State
    requires p in s.procs
  {
    var q := s.procs[p].(table := Protect(s.procs[p].table));
    s.(procs := s.procs[p := q][c := q])
  }

  function SetLeaf(s: State, k: Key, l: Leaf): State
    requires k.pid in s.procs
  {
    var q := s.procs[k.pid];
    s.(procs := s.procs[k.pid := q.(table := q.table[k.page := l])])
  }

  /** Give a page a fresh frame of its own. */
  function MapFresh(s: State, k: Key, l: Leaf, page: Page): State
    requires k.pid in s.procs
  {
    SetLeaf(s, k, l).(data := s.data[l.frame := page])
  }

  /** do_page_fault, or nothing when the entry already allows the access. `f` is the frame that
      alloc_phys_page returns if one is needed. */
  function Service(s: State, pid: nat, addr: nat, write: bool, f: nat): (r: Option<State>)
    requires Grounded(s) && pid in s.procs && AreasOk(s.procs[pid].areas)
    ensures r.Some? ==> Grounded(r.value) && pid in r.value.procs && PageOf(addr) in r.value.procs[pid].table
  {
    var q := s.procs[pid];
    var k := Key(pid, PageOf(addr));
    if k.page in q.table then
      var l := q.table[k.page];
      if !write || l.write then Some(s)
      else if !E.Writable(q.areas, addr) then None
      else if |Refs(s.procs, l.frame)| == 1 then Some(SetLeaf(s, k, l.(write := true)))
      else Some(MapFresh(s, k, Leaf(f, true), s.data[l.frame]))
    else
      var fill := E.FirstTouch(q.areas, addr, write);
      if fill.None? then None
      else Some(MapFresh(s, k, Leaf(f, E.Writable(q.areas, addr)), fill.value))
  }

  /** free_mm and the end of the process: its entries go, and with them every frame nobody
      else names. */
  function FreeStep(s: State, p: nat): State {
    var rest := s.procs - {p};
    State(rest, map f | f in s.data && Refs(rest, f) != {} :: s.data[f])
  }

  /** A user load through a present entry. */
  function ReadByte(s: State, p: nat, addr: nat): E.Outcome
    requires Grounded(s) && p in s.procs && PageOf(addr) in s.procs[p].table
  {
    E.Byte(s.data[s.procs[p].table[PageOf(addr)].frame][OffsetOf(addr)])
  }

  /** A user store through a present entry. */
  function WriteByte(s: State, p: nat, addr: nat, v: byte): State
    requires Grounded(s) && p in s.procs && PageOf(addr) in s.procs[p].table
  {
    var f := s.procs[p].table[PageOf(addr)].frame;
    s.(data := s.data[f := s.data[f][OffsetOf(addr) := v]])
  }

  // ----- fork

  lemma ForkNames(procs: Processes, p: nat, c: nat, q: Process, k: Key, f: nat)
    requires p in procs && c !in procs && q.table == Protect(procs[p].table)
    ensures Names(procs[p := q][c := q], k, f) <==> Names(procs, if k.pid == c then Key(p, k.page) else k, f)
  {
  }

  lemma ForkExclusive(procs: Processes, p: nat, c: nat, q: Process)
    requires p in procs && c !in procs && q.table == Protect(procs[p].table) && Exclusive(procs)
    ensures Exclusive(procs[p := q][c := q])
  {
    var t := procs[p := q][c := q];
    forall a, pg | a in t && pg in t[a].table && t[a].table[pg].write
      ensures OnlyEntry(t, Key(a, pg), t[a].table[pg].frame)
    {
      forall k | Names(t, k, t[a].table[pg].frame) ensures k == Key(a, pg) {
        ForkNames(procs, p, c, q, k, t[a].table[pg].frame);
      }
    }
  }

  lemma ForkOk(s: State, p: nat, c: nat)
    requires Inv(s) && p in s.procs && c !in s.procs
    ensures Inv(ForkStep(s, p, c))
  {
    hide ProcessOk, Grounded, NoOrphans, Exclusive, Protect;
    ForkExclusive(s.procs, p, c, ForkStep(s, p, c).procs[p]);
    ForkNoOrphans(s, p, c);
    ForkGrounded(s, p, c);
    ProtectedOk(s.procs[p]);
  }

  lemma ForkGrounded(s: State, p: nat, c: nat)
    requires Grounded(s) && p in s.procs && c !in s.procs
    ensures Grounded(ForkStep(s, p, c))
  {
  }

  lemma ProtectedOk(q: Process)
    requires ProcessOk(q)
    ensures ProcessOk(q.(table := Protect(q.table)))
  {
  }

  lemma ForkNoOrphans(s: State, p: nat, c: nat)
    requires NoOrphans(s) && p in s.procs && c !in s.procs
    ensures NoOrphans(ForkStep(s, p, c))
  {
    var t := ForkStep(s, p, c);
    forall f | f in t.data ensures exists k :: Names(t.procs, k, f) {
      var k :| Names(s.procs, k, f);
      ForkNames(s.procs, p, c, t.procs[p], k, f);
    }
  }

  /** Sharing every frame looks like copying every page. */
  lemma ForkSim(s: State, p: nat, c: nat, w: E.World)
    requires p in s.procs && c !in s.procs && Sim(s, w)
    ensures Sim(ForkStep(s, p, c), w[c := w[p]])
  {
    var t := ForkStep(s, p, c);
    assert SimProcess(t.procs[p], t.data, w[p]);
  }

  // ----- page faults

  lemma SetLeafNames(s: State, k: Key, l: Leaf, j: Key, f: nat)
    requires k.pid in s.procs
    ensures Names(SetLeaf(s, k, l).procs, j, f) <==> if j == k then f == l.frame else Names(s.procs, j, f)
  {
  }

  lemma SetLeafProcesses(s: State, k: Key, l: Leaf)
    requires k.pid in s.procs && (forall p :: p in s.procs ==> ProcessOk(s.procs[p]))
    requires l.write ==> E.Writable(s.procs[k.pid].areas, PageAddr(k.page))
    ensures forall p :: p in SetLeaf(s, k, l).procs ==> ProcessOk(SetLeaf(s, k, l).procs[p])
  {
  }

  /** Pointing one entry at a frame keeps write bits exclusive if nobody else names that frame. */
  lemma SetLeafExclusive(s: State, k: Key, l: Leaf)
    requires k.pid in s.procs && Exclusive(s.procs)
    requires OnlyEntry(s.procs, k, l.frame)
    ensures Exclusive(SetLeaf(s, k, l).procs)
  {
    var t := SetLeaf(s, k, l);
    forall p, pg | p in t.procs && pg in t.procs[p].table && t.procs[p].table[pg].write
      ensures OnlyEntry(t.procs, Key(p, pg), t.procs[p].table[pg].frame)
    {
      var f := t.procs[p].table[pg].frame;
      assert Names(t.procs, Key(p, pg), f);
      SetLeafNames(s, k, l, Key(p, pg), f);
      forall j | Names(t.procs, j, f) ensures j == Key(p, pg) {
        SetLeafNames(s, k, l, j, f);
      }
    }
  }

  lemma MapFreshOk(s: State, k: Key, l: Leaf, page: Page)
    requires Inv(s) && k.pid in s.procs && l.frame !in s.data
    requires k.page in s.procs[k.pid].table ==> !OnlyEntry(s.procs, k, s.procs[k.pid].table[k.page].frame)
    requires l.write ==> E.Writable(s.procs[k.pid].areas, PageAddr(k.page))
    ensures Inv(MapFresh(s, k, l, page))
  {
    var t := MapFresh(s, k, l, page);
    SetLeafProcesses(s, k, l);
    SetLeafExclusive(s, k, l);
    forall g | g in t.data ensures exists j :: Names(t.procs, j, g) {
      if g == l.frame {
        SetLeafNames(s, k, l, k, g);
      } else {
        var j :| Names(s.procs, j, g) && j != k;
        SetLeafNames(s, k, l, j, g);
      }
    }
  }

  lemma MapFreshSim(s: State, k: Key, l: Leaf, page: Page, w: E.World)
    requires Grounded(s) && k.pid in s.procs && l.frame !in s.data && Sim(s, w)
    ensures Sim(MapFresh(s, k, l, page), w[k.pid := w[k.pid].(pages := w[k.pid].pages[k.page := page])])
  {
  }

  lemma CountOne(procs: Processes, k: Key, f: nat)
    requires Names(procs, k, f)
    ensures |Refs(procs, f)| == 1 <==> OnlyEntry(procs, k, f)
  {
    var rest := Refs(procs, f) - {k};
    assert Refs(procs, f) == rest + {k};
    if !OnlyEntry(procs, k, f) {
      var j :| Names(procs, j, f) && j != k;
      assert j in rest;
    } else {
      assert rest == {};
    }
  }

  lemma SetLeafGrounded(s: State, k: Key, l: Leaf)
    requires k.pid in s.procs && Grounded(s) && l.frame in s.data
    ensures Grounded(SetLeaf(s, k, l))
  {
  }

  /** The frame has one entry: the fault handler sets the write bit and nothing else. */
  lemma EnableWriteOk(s: State, k: Key)
    requires Inv(s) && k.pid in s.procs && k.page in s.procs[k.pid].table
    requires OnlyEntry(s.procs, k, s.procs[k.pid].table[k.page].frame)
    requires E.Writable(s.procs[k.pid].areas, PageAddr(k.page))
    ensures Inv(SetLeaf(s, k, s.procs[k.pid].table[k.page].(write := true)))
  {
    var l := s.procs[k.pid].table[k.page].(write := true);
    var t := SetLeaf(s, k, l);
    SetLeafProcesses(s, k, l);
    SetLeafExclusive(s, k, l);
    SetLeafGrounded(s, k, l);
    forall f | f in t.data ensures exists j :: Names(t.procs, j, f) {
      var j :| Names(s.procs, j, f);
      SetLeafNames(s, k, l, j, f);
    }
  }

  lemma AreaOfPage(areas: seq<Area>, addr: nat)
    requires AreasOk(areas) && addr < MEM_BOTTOM_HALF
    ensures FindArea(areas, addr) == FindArea(areas, PageAddr(PageOf(addr)))
  {
    AddressOfIndices(addr);
    FindAreaByPage(areas, addr);
  }

  lemma SetLeafSim(s: State, k: Key, l: Leaf, w: E.World)
    requires Sim(s, w) && k.pid in s.procs && k.page in s.procs[k.pid].table
    requires l.frame == s.procs[k.pid].table[k.page].frame
    ensures Sim(SetLeaf(s, k, l), w)
  {
  }

  /** Serving a fault keeps the invariant, and afterwards the entry allows the access. */
  lemma ServiceOk(s: State, pid: nat, addr: nat, write: bool, f: nat)
    requires Inv(s) && pid in s.procs && addr < MEM_BOTTOM_HALF && f !in s.data
    requires Service(s, pid, addr, write, f).Some?
    ensures Inv(Service(s, pid, addr, write, f).value)
    ensures write ==> Service(s, pid, addr, write, f).value.procs[pid].table[PageOf(addr)].write
  {
    var q := s.procs[pid];
    var k := Key(pid, PageOf(addr));
    AreaOfPage(q.areas, addr);
    if k.page in q.table {
      var l := q.table[k.page];
      if write && !l.write {
        CountOne(s.procs, k, l.frame);
        if OnlyEntry(s.procs, k, l.frame) {
          EnableWriteOk(s, k);
        } else {
          MapFreshOk(s, k, Leaf(f, true), s.data[l.frame]);
        }
      }
    } else {
      MapFreshOk(s, k, Leaf(f, E.Writable(q.areas, addr)), E.FirstTouch(q.areas, addr, write).value);
    }
  }

  lemma CopySim(s: State, pid: nat, addr: nat, f: nat, w: E.World)
    requires Grounded(s) && pid in s.procs && f !in s.data && Sim(s, w)
    requires PageOf(addr) in s.procs[pid].table
    ensures Sim(MapFresh(s, Key(pid, PageOf(addr)), Leaf(f, true), s.data[s.procs[pid].table[PageOf(addr)].frame]), w)
  {
    var k := Key(pid, PageOf(addr));
    var page := s.data[s.procs[pid].table[k.page].frame];
    MapFreshSim(s, k, Leaf(f, true), page, w);
    assert w[pid].pages[k.page := page] == w[pid].pages;
    assert w[pid := w[pid]] == w;
  }

  lemma ServicePresentSim(s: State, pid: nat, addr: nat, f: nat, w: E.World)
    requires Grounded(s) && pid in s.procs && AreasOk(s.procs[pid].areas) && f !in s.data && Sim(s, w)
    requires PageOf(addr) in s.procs[pid].table && E.Writable(s.procs[pid].areas, addr)
    ensures Service(s, pid, addr, true, f).Some?
    ensures Sim(Service(s, pid, addr, true, f).value, w)
  {
    CopySim(s, pid, addr, f, w);
    var k := Key(pid, PageOf(addr));
    SetLeafSim(s, k, s.procs[pid].table[k.page].(write := true), w);
  }

  lemma ServiceAbsentSim(s: State, pid: nat, addr: nat, write: bool, f: nat, w: E.World)
    requires Grounded(s) && pid in s.procs && AreasOk(s.procs[pid].areas) && f !in s.data && Sim(s, w)
    requires PageOf(addr) !in s.procs[pid].table
    ensures
      var r := Service(s, pid, addr, write, f);
      var e := E.Touch(w[pid], addr, write);
      && (r.Some? <==> e.Some?)
      && (r.Some? ==> Sim(r.value, w[pid := e.value]))
  {
    var fill := E.FirstTouch(s.procs[pid].areas, addr, write);
    if fill.Some? {
      MapFreshSim(s, Key(pid, PageOf(addr)), Leaf(f, E.Writable(s.procs[pid].areas, addr)), fill.value, w);
    }
  }

  /** Serving a fault is invisible except that the page becomes present: it fails exactly when the
      eager machine refuses the access. */
  lemma ServiceSim(s: State, pid: nat, addr: nat, write: bool, f: nat, w: E.World)
    requires Grounded(s) && pid in s.procs && ProcessOk(s.procs[pid])
    requires addr < MEM_BOTTOM_HALF && f !in s.data && Sim(s, w)
    ensures
      var r := Service(s, pid, addr, write, f);
      var e := E.Touch(w[pid], addr, write);
      && (r.Some? <==> e.Some?)
      && (r.Some? ==> Sim(r.value, w[pid := e.value]))
  {
    if PageOf(addr) in s.procs[pid].table {
      assert w[pid := w[pid]] == w;
      AreaOfPage(s.procs[pid].areas, addr);
      if write && E.Writable(s.procs[pid].areas, addr) {
        ServicePresentSim(s, pid, addr, f, w);
      }
    } else {
      ServiceAbsentSim(s, pid, addr, write, f, w);
    }
  }

  lemma WriteOk(s: State, p: nat, addr: nat, v: byte)
    requires Inv(s) && p in s.procs && PageOf(addr) in s.procs[p].table
    ensures Inv(WriteByte(s, p, addr, v))
  {
  }

  lemma DataUpdateSim(q: Process, data: map<nat, Page>, e: E.Process, f: nat, page: Page)
    requires SimProcess(q, data, e)
    requires forall pg :: pg in q.table ==> q.table[pg].frame != f
    ensures SimProcess(q, data[f := page], e)
  {
  }

  /** A store through a writable entry reaches no other page of any process. */
  lemma WriteSim(s: State, p: nat, addr: nat, v: byte, w: E.World)
    requires Grounded(s) && Exclusive(s.procs) && Sim(s, w)
    requires p in s.procs && PageOf(addr) in s.procs[p].table && s.procs[p].table[PageOf(addr)].write
    ensures
      var pg := PageOf(addr);
      Sim(WriteByte(s, p, addr, v),
          w[p := w[p].(pages := w[p].pages[pg := w[p].pages[pg][OffsetOf(addr) := v]])])
  {
    var pg := PageOf(addr);
    var f := s.procs[p].table[pg].frame;
    var page: Page := s.data[f][OffsetOf(addr) := v];
    var data := s.data[f := page];
    assert OnlyEntry(s.procs, Key(p, pg), f);
    WriteSimOwn(s, p, pg, page, w[p]);
    forall q | q in s.procs && q != p ensures SimProcess(s.procs[q], data, w[q]) {
      forall a | a in s.procs[q].table ensures s.procs[q].table[a].frame != f {
        assert !Names(s.procs, Key(q, a), f);
      }
      DataUpdateSim(s.procs[q], s.data, w[q], f, page);
    }
  }

  lemma WriteSimOwn(s: State, p: nat, pg: PageIx, page: Page, e: E.Process)
    requires p in s.procs && pg in s.procs[p].table && SimProcess(s.procs[p], s.data, e)
    requires OnlyEntry(s.procs, Key(p, pg), s.procs[p].table[pg].frame)
    ensures SimProcess(s.procs[p], s.data[s.procs[p].table[pg].frame := page], e.(pages := e.pages[pg := page]))
  {
    var f := s.procs[p].table[pg].frame;
    forall a | a in s.procs[p].table && s.procs[p].table[a].frame == f ensures a == pg {
      assert Names(s.procs, Key(p, a), f);
    }
  }

  // ----- exit

  /** Frames that another process names survive with their contents. */
  lemma FreeKeeps(s: State, p: nat)
    requires Grounded(s)
    ensures Grounded(FreeStep(s, p))
    ensures forall f :: f in FreeStep(s, p).data ==> f in s.data && FreeStep(s, p).data[f] == s.data[f]
  {
    var t := FreeStep(s, p);
    forall q, pg | q in t.procs && pg in t.procs[q].table ensures t.procs[q].table[pg].frame in t.data {
      var f := t.procs[q].table[pg].frame;
      assert Names(t.procs, Key(q, pg), f);
      assert Key(q, pg) in Refs(t.procs, f);
    }
  }

  lemma FreeOk(s: State, p: nat)
    requires Inv(s)
    ensures Inv(FreeStep(s, p))
  {
    var t := FreeStep(s, p);
    FreeKeeps(s, p);
    forall f | f in t.data ensures exists k :: Names(t.procs, k, f) {
      var k :| k in Refs(t.procs, f);
    }
    forall q, pg | q in t.procs && pg in t.procs[q].table && t.procs[q].table[pg].write
      ensures OnlyEntry(t.procs, Key(q, pg), t.procs[q].table[pg].frame)
    {
      var f := t.procs[q].table[pg].frame;
      assert OnlyEntry(s.procs, Key(q, pg), f);
      forall j | Names(t.procs, j, f) ensures j == Key(q, pg) {
        assert Names(s.procs, j, f);
      }
    }
  }

  lemma FreeSim(s: State, p: nat, w: E.World)
    requires Grounded(s) && Sim(s, w)
    ensures Sim(FreeStep(s, p), w - {p})
  {
    FreeKeeps(s, p);
    var t := FreeStep(s, p);
    forall q | q in t.procs ensures SimProcess(t.procs[q], t.data, w[q]) {
      assert SimProcess(s.procs[q], s.data, w[q]);
    }
  }

  lemma ExecNames(procs: Processes, p: nat, areas: seq<Area>, k: Key, f: nat)
    requires p !in procs
    ensures Names(procs[p := Process(areas, map[])], k, f) <==> Names(procs, k, f)
  {
  }

  lemma ExecGrounded(s: State, p: nat, areas: seq<Area>)
    requires Grounded(s) && (forall q :: q in s.procs ==> ProcessOk(s.procs[q])) && AreasOk(areas)
    ensures
      var t := s.(procs := s.procs[p := Process(areas, map[])]);
      Grounded(t) && forall q :: q in t.procs ==> ProcessOk(t.procs[q])
  {
  }

  lemma ExecExclusive(procs: Processes, p: nat, areas: seq<Area>)
    requires Exclusive(procs) && p !in procs
    ensures Exclusive(procs[p := Process(areas, map[])])
  {
    var t := procs[p := Process(areas, map[])];
    forall q, pg | q in t && pg in t[q].table && t[q].table[pg].write
      ensures OnlyEntry(t, Key(q, pg), t[q].table[pg].frame)
    {
      var f := t[q].table[pg].frame;
      assert OnlyEntry(procs, Key(q, pg), f);
      forall k | Names(t, k, f) ensures k == Key(q, pg) { ExecNames(procs, p, areas, k, f); }
    }
  }

  lemma ExecNoOrphans(s: State, p: nat, areas: seq<Area>)
    requires NoOrphans(s) && p !in s.procs
    ensures NoOrphans(s.(procs := s.procs[p := Process(areas, map[])]))
  {
    var t := s.(procs := s.procs[p := Process(areas, map[])]);
    forall f | f in t.data ensures exists k :: Names(t.procs, k, f) {
      var k :| Names(s.procs, k, f);
      ExecNames(s.procs, p, areas, k, f);
    }
  }

  lemma ExecOk(s: State, p: nat, areas: seq<Area>)
    requires Inv(s) && p !in s.procs && AreasOk(areas)
    ensures Inv(s.(procs := s.procs[p := Process(areas, map[])]))
  {
    ExecGrounded(s, p, areas);
    ExecNoOrphans(s, p, areas);
    ExecExclusive(s.procs, p, areas);
  }

  lemma ExecSim(s: State, p: nat, areas: seq<Area>, w: E.World)
    requires Sim(s, w - {p})
    ensures Sim(s.(procs := s.procs[p := Process(areas, map[])]), w[p := E.Process(areas, map[])])
  {
    var t := s.(procs := s.procs[p := Process(areas, map[])]);
    forall q | q in t.procs && q != p ensures SimProcess(t.procs[q], t.data, w[q]) {
      assert SimProcess(s.procs[q], s.data, (w - {p})[q]);
    }
  }

  // ----- whole runs

  function Step(s: State, ev: E.Event, f: nat): (r: (State, E.Outcome))
    requires Inv(s) && E.Enabled(s.procs.Keys, ev)
  {
    match ev
    case Fork(p, c) => (ForkStep(s, p, c), E.Done)
    case Fault(p, addr, write) =>
      var t := Service(s, p, addr, write, f);
      if t.None? then (s, E.Halt) else (t.value, E.Done)
    case Load(p, addr) =>
      var t := Service(s, p, addr, false, f);
      if t.None? then (s, E.Halt) else (t.value, ReadByte(t.value, p, addr))
    case Store(p, addr, v) =>
      var t := Service(s, p, addr, true, f);
      if t.None? then (s, E.Halt) else (WriteByte(t.value, p, addr, v), E.Done)
    case Exec(p, areas) =>
      var t := FreeStep(s, p);
      (t.(procs := t.procs[p := Process(areas, map[])]), E.Done)
    case Exit(p) =>
      if p == 1 then (s, E.Halt) else (FreeStep(s, p), E.Done)
  }

  /** `ev` takes s to t with outcome o; if a frame is needed it is f, which no page lies in. */
  ghost predicate Steps(s: State, ev: E.Event, f: nat, t: State, o: E.Outcome) {
    Inv(s) && E.Enabled(s.procs.Keys, ev) && f !in s.data && Step(s, ev, f) == (t, o)
  }

  /** Every step keeps the invariant. */
  lemma StepOk(s: State, ev: E.Event, f: nat)
    requires Inv(s) && E.Enabled(s.procs.Keys, ev) && f !in s.data
    ensures Inv(Step(s, ev, f).0)
  {
    match ev
    case Fork(p, c) => ForkOk(s, p, c);
    case Fault(p, addr, write) =>
      if Service(s, p, addr, write, f).Some? { ServiceOk(s, p, addr, write, f); }
    case Load(p, addr) =>
      if Service(s, p, addr, false, f).Some? { ServiceOk(s, p, addr, false, f); }
    case Store(p, addr, v) =>
      var t := Service(s, p, addr, true, f);
      if t.Some? {
        ServiceOk(s, p, addr, true, f);
        WriteOk(t.value, p, addr, v);
      }
    case Exec(p, areas) =>
      FreeOk(s, p);
      ExecOk(FreeStep(s, p), p, areas);
    case Exit(p) => FreeOk(s, p);
  }

  lemma StoreServedSim(s: State, p: nat, addr: nat, v: byte, w: E.World, e: E.Process)
    requires Grounded(s) && Exclusive(s.procs) && Sim(s, w[p := e])
    requires p in s.procs && PageOf(addr) in s.procs[p].table && s.procs[p].table[PageOf(addr)].write
    ensures PageOf(addr) in e.pages
    ensures
      var page := e.pages[PageOf(addr)][OffsetOf(addr) := v];
      Sim(WriteByte(s, p, addr, v), w[p := e.(pages := e.pages[PageOf(addr) := page])])
  {
    WriteSim(s, p, addr, v, w[p := e]);
    var page := e.pages[PageOf(addr)][OffsetOf(addr) := v];
    var e' := e.(pages := e.pages[PageOf(addr) := page]);
    assert w[p := e][p := e'] == w[p := e'];
  }

  lemma StoreSim(s: State, p: nat, addr: nat, v: byte, f: nat, w: E.World)
    requires Inv(s) && p in s.procs && addr < MEM_BOTTOM_HALF && f !in s.data && Sim(s, w)
    ensures
      var t := Service(s, p, addr, true, f);
      var e := E.Touch(w[p], addr, true);
      && (t.Some? <==> e.Some?)
      && (t.Some? ==>
        var pages := e.value.pages;
        && PageOf(addr) in pages
        && var page := pages[PageOf(addr)][OffsetOf(addr) := v];
        Sim(WriteByte(t.value, p, addr, v), w[p := e.value.(pages := pages[PageOf(addr) := page])]))
  {
    ServiceSim(s, p, addr, true, f, w);
    var t := Service(s, p, addr, true, f);
    if t.Some? {
      ServiceOk(s, p, addr, true, f);
      var e := E.Touch(w[p], addr, true).value;
      StoreServedSim(t.value, p, addr, v, w, e);
    }
  }

  lemma LoadSim(s: State, p: nat, addr: nat, f: nat, w: E.World)
    requires Inv(s) && p in s.procs && addr < MEM_BOTTOM_HALF && f !in s.data && Sim(s, w)
    ensures
      var t := Service(s, p, addr, false, f);
      var e := E.Touch(w[p], addr, false);
      && (t.Some? <==> e.Some?)
      && (t.Some? ==>
        && Sim(t.value, w[p := e.value])
        && PageOf(addr) in e.value.pages
        && ReadByte(t.value, p, addr) == E.Byte(e.value.pages[PageOf(addr)][OffsetOf(addr)]))
  {
    ServiceSim(s, p, addr, false, f, w);
  }

  /** One step of the sharing machine is one step of the eager machine: same outcome, and the
      two memories stay in step. */
  lemma StepSim(s: State, ev: E.Event, f: nat, w: E.World)
    requires Inv(s) && Sim(s, w) && E.WorldOk(w) && E.Enabled(s.procs.Keys, ev) && f !in s.data
    ensures s.procs.Keys == w.Keys
    ensures Step(s, ev, f).1 == E.Step(w, ev).1
    ensures Sim(Step(s, ev, f).0, E.Step(w, ev).0)
  {
    assert s.procs.Keys == w.Keys;
    match ev
    case Fork(p, c) => ForkSim(s, p, c, w);
    case Fault(p, addr, write) => ServiceSim(s, p, addr, write, f, w);
    case Load(p, addr) => LoadSim(s, p, addr, f, w);
    case Store(p, addr, v) => StoreSim(s, p, addr, v, f, w);
    case Exec(p, areas) =>
      FreeSim(s, p, w);
      ExecSim(FreeStep(s, p), p, areas, w);
    case Exit(p) => FreeSim(s, p, w);
  }

  /** An event together with the frame the allocator would hand out during it. */
  datatype Move = Move(ev: E.Event, frame: nat)

  function Events(ms: seq<Move>): (r: seq<E.Event>)
    ensures |r| == |ms|
  {
    if ms == [] then [] else [ms[0].ev] + Events(ms[1..])
  }

  /** The allocator never hands out a frame that is in use. */
  ghost predicate RunEnabled(s: State, ms: seq<Move>)
    requires Inv(s)
    decreases |ms|
  {
    ms == [] || (
      && E.Enabled(s.procs.Keys, ms[0].ev)
      && ms[0].frame !in s.data
      && (StepOk(s, ms[0].ev, ms[0].frame);
          var (t, o) := Step(s, ms[0].ev, ms[0].frame);
          o.Halt? || RunEnabled(t, ms[1..])))
  }

  datatype Trace = Trace(outcomes: seq<E.Outcome>, final: State)

  ghost function Run(s: State, ms: seq<Move>): (r: Trace)
    requires Inv(s) && RunEnabled(s, ms)
    decreases |ms|
  {
    if ms == [] then Trace([], s)
    else
      StepOk(s, ms[0].ev, ms[0].frame);
      var (t, o) := Step(s, ms[0].ev, ms[0].frame);
      if o.Halt? then Trace([E.Halt], s)
      else
        var rest := Run(t, ms[1..]);
        Trace([o] + rest.outcomes, rest.final)
  }

  /** Copy-on-write is invisible: over every run of forks, faults, loads, stores, execs and exits
      of any number of processes, every load returns what it returns if fork copies all memory. */
  lemma {:induction false} CopyOnWriteRefinesEagerCopy(s: State, ms: seq<Move>, w: E.World)
    requires Inv(s) && Sim(s, w) && E.WorldOk(w) && RunEnabled(s, ms)
    ensures E.RunEnabled(w, Events(ms))
    ensures Run(s, ms).outcomes == E.Run(w, Events(ms)).outcomes
    ensures Inv(Run(s, ms).final)
    ensures Sim(Run(s, ms).final, E.Run(w, Events(ms)).final)
    decreases |ms|
  {
    if ms != [] {
      StepOk(s, ms[0].ev, ms[0].frame);
      StepSim(s, ms[0].ev, ms[0].frame, w);
      assert Events(ms)[1..] == Events(ms[1..]);
      var (t, o) := Step(s, ms[0].ev, ms[0].frame);
      if !o.Halt? {
        CopyOnWriteRefinesEagerCopy(t, ms[1..], E.Step(w, ms[0].ev).0);
      }
    }
  }
}
