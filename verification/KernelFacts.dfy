/** The task structures, and what each step of the memory manager does to them and to the frames
    and tables of other processes. */
module KernelFacts {
  import opened Memory
  import opened Areas
  import opened FrameAllocator
  import E = EagerFork
  import opened SharedPages
  import opened PageTables
  import opened CloneTables
  import FT = FreeTables
  import opened GrowTables
  import opened Books
  import opened Abstraction
  import opened FaultSteps

  /** The table that holds the entry for level i of the walk to a page (3 is the top). */
  function SlotAt(pg: PageIx, i: nat): Slot {
    if i >= 3 then L4 else if i == 2 then L3(pg.i) else if i == 1 then L2(pg.i, pg.j) else LeafSlot(pg)
  }

  /** (addr >> i*9) & 0x1ff, once addr has been shifted down to a page number. */
  function Digit(pg: PageIx, i: nat): Ix {
    if i >= 3 then pg.i else if i == 2 then pg.j else if i == 1 then pg.k else pg.l
  }

  /** The positions of the tables of one process. */
  function SlotsOf(tabs: map<Node, nat>, p: nat): (r: set<Slot>)
    ensures forall s :: s in r <==> Node(p, s) in tabs
  {
    var r := set n | n in tabs && n.pid == p :: n.slot;
    assert forall s {:trigger Node(p, s)} :: Node(p, s) in tabs ==> Node(p, s).slot in r;
    r
  }

  /** How many of the tables below level i on the walk to a page are missing. */
  function Lacking(have: set<Slot>, pg: PageIx, i: nat): nat {
    if i == 0 then 0 else Lacking(have, pg, i - 1) + if SlotAt(pg, i - 1) in have then 0 else 1
  }

  lemma {:induction false} LackingBounds(have: set<Slot>, pg: PageIx, i: nat)
    ensures Lacking(have, pg, i) <= i
    ensures (forall k: nat {:trigger SlotAt(pg, k)} :: k < i ==> SlotAt(pg, k) in have) ==> Lacking(have, pg, i) == 0
  {
    if i > 0 { LackingBounds(have, pg, i - 1); }
  }

  /** The page tables of one process. */
  function TablesOf(tabs: map<Node, nat>, p: nat): set<Node> {
    set n | n in tabs && n.pid == p
  }

  /** The fields of the task structures that concern memory, and the next pid. */
  datatype Tasks = Tasks(areas: map<nat, seq<Area>>, dirs: map<nat, nat>, frames: map<nat, nat>, nextPid: nat)

  /** A task structure agrees with its address space. */
  ghost predicate TaskOk(m: Snap, t: Tasks, p: nat) {
    && p in m.procs && p in t.areas && p in t.dirs && p in t.frames && Node(p, L4) in m.tabs
    && 0 < p < t.nextPid
    && t.areas[p] == m.procs[p].areas
    && t.dirs[p] == m.tabs[Node(p, L4)]
    && t.frames[p] in m.owner && m.owner[t.frames[p]] == TaskFrame(p)
  }

  /** All of them do, and every frame of a task structure belongs to a task that exists. */
  ghost predicate FieldsOk(m: Snap, t: Tasks, boot: nat, kernel: map<nat, int>) {
    && t.areas.Keys == t.dirs.Keys && t.frames.Keys == t.dirs.Keys && m.procs.Keys == t.dirs.Keys
    && (forall p {:trigger TaskOk(m, t, p)} :: p in m.procs ==> TaskOk(m, t, p))
    && (forall f :: f in m.owner && m.owner[f].TaskFrame? ==>
         m.owner[f].pid in t.frames && t.frames[m.owner[f].pid] == f)
    && Node(1, L4) in m.tabs && m.tabs[Node(1, L4)] == boot
    && (forall f :: f in kernel <==> f in m.owner && m.owner[f].KernelFrame?)
    && (forall f :: f in kernel ==> m.owner[f].count == kernel[f])
  }

  function BootOwner(boot: nat, task: nat, used: set<nat>, counts: seq<int>): map<nat, Owner>
    requires forall f :: f in used ==> f < |counts|
  {
    (map f | f in used :: if f == task then TaskFrame(1) else KernelFrame(counts[f]))[boot := TableFrame(Node(1, L4))]
  }

  /** The frames handed out before the first process, with the counts they had. */
  function BootCounts(task: nat, used: set<nat>, counts: seq<int>): map<nat, int>
    requires forall f :: f in used ==> f < |counts|
  {
    map f | f in used - {task} :: counts[f]
  }

  /** page_table_l4: nothing mapped in the lower half. */
  function BootTable(top: seq<Pte>): (t: Table)
    requires |top| == 256 && forall n :: 0 <= n < 256 ==> !top[n].user
    ensures forall ix: Ix :: if ix < 256 then t[ix] == NO_ENTRY else !t[ix].user
  {
    seq(256, _ => NO_ENTRY) + top
  }

  /** The state the constructor builds satisfies every invariant. */
  lemma BootOk(m: Snap, boot: nat, task: nat, used: set<nat>, counts: seq<int>)
    requires boot !in used && task in used && (forall f :: f in used ==> f < |counts|) && counts[task] == 1
    requires m.tabs == map[Node(1, L4) := boot] && m.procs == map[1 := Process([], map[])]
    requires m.owner == BootOwner(boot, task, used, counts)
    requires m.mem.Keys == {boot} && m.mem[boot].TableOf?
    requires forall ix: Ix :: if ix < 256 then m.mem[boot].t[ix] == NO_ENTRY else !m.mem[boot].t[ix].user
    ensures MemoryOk(m) && Counted(m, used, counts, boot)
    ensures FieldsOk(m, Tasks(map[1 := []], map[1 := boot], map[1 := task], 2), boot, BootCounts(task, used, counts))
  {
    hide Counted, Inv, FieldsOk;
    BootBooks(m, boot, task, used, counts);
    BootTree(m, boot, task, used, counts);
    BootInv(m, boot, task, used, counts);
  }

  lemma BootBooks(m: Snap, boot: nat, task: nat, used: set<nat>, counts: seq<int>)
    requires boot !in used && task in used && (forall f :: f in used ==> f < |counts|) && counts[task] == 1
    requires m.tabs == map[Node(1, L4) := boot] && m.procs == map[1 := Process([], map[])]
    requires m.owner == BootOwner(boot, task, used, counts)
    ensures Counted(m, used, counts, boot)
    ensures FieldsOk(m, Tasks(map[1 := []], map[1 := boot], map[1 := task], 2), boot, BootCounts(task, used, counts))
  {
  }

  lemma BootTree(m: Snap, boot: nat, task: nat, used: set<nat>, counts: seq<int>)
    requires boot !in used && (forall f :: f in used ==> f < |counts|)
    requires m.tabs == map[Node(1, L4) := boot] && m.procs == map[1 := Process([], map[])]
    requires m.owner == BootOwner(boot, task, used, counts)
    requires m.mem.Keys == {boot} && m.mem[boot].TableOf?
    requires forall ix: Ix :: if ix < 256 then m.mem[boot].t[ix] == NO_ENTRY else !m.mem[boot].t[ix].user
    ensures TreeOk(m) && TopsAgree(m)
  {
    assert TablesInFrames(m);
    assert ParentsExist(m);
    assert FramesNamed(m);
    forall n, ix: Ix | n in m.tabs && ix < Bound(n.slot) ensures Linked(m, n, ix) {}
  }

  lemma BootInv(m: Snap, boot: nat, task: nat, used: set<nat>, counts: seq<int>)
    requires forall f :: f in used ==> f < |counts|
    requires m.procs == map[1 := Process([], map[])] && m.owner == BootOwner(boot, task, used, counts)
    ensures DataFramesHoldData(m) && Inv(Flat(m))
  {
    assert DataMap(m) == map[];
  }

  /** The tables of every process but p are where they were. */
  ghost predicate OthersTables(tabs0: map<Node, nat>, tabs1: map<Node, nat>, p: nat) {
    && (forall n: Node :: n.pid != p ==> (n in tabs0 <==> n in tabs1))
    && (forall n: Node :: n.pid != p && n in tabs0 ==> tabs1[n] == tabs0[n])
  }

  lemma FaultFacts(m: Snap, t: Tasks, boot: nat, kernel: map<nat, int>, p: nat, used: set<nat>, counts: seq<int>)
    requires MemoryOk(m) && FieldsOk(m, t, boot, kernel) && Counted(m, used, counts, boot) && p in m.procs
    ensures p in t.areas && t.areas[p] == m.procs[p].areas && AreasOk(t.areas[p])
    ensures p in t.dirs && Node(p, L4) in m.tabs && t.dirs[p] == m.tabs[Node(p, L4)]
    ensures boot !in m.owner || m.owner[boot] != DataFrame
  {
    assert ProcessOk(m.procs[p]);
    assert TaskOk(m, t, p);
  }

  /** The walk finds what the process has mapped. */
  lemma WalkFinds(m: Snap, p: nat, pg: PageIx)
    requires MemoryOk(m) && p in m.procs && IsUser(pg)
    ensures Node(p, L4) in m.tabs && Walk(m.mem, m.tabs[Node(p, L4)], pg) == LeafAt(m, p, pg)
  {
    hide Inv, TopsAgree, DataFramesHoldData, Walk;
    assert Node(p, L4) in m.tabs;
    WalkIsLookup(m, p, pg);
  }

  lemma MappedIsUser(m: Snap, p: nat, pg: PageIx)
    requires TreeOk(m)
    ensures LeafAt(m, p, pg).Some? ==> IsUser(pg)
  {
    hide AllLinked, TablesInFrames, FramesNamed;
    if LeafAt(m, p, pg).Some? { assert Node(p, LeafSlot(pg)) in m.tabs; }
  }

  /** User code finds nothing in the kernel half, in whatever address space. */
  lemma KernelHalfRefused(m: Snap, p: nat, pg: PageIx)
    requires MemoryOk(m) && p in m.procs && !IsUser(pg)
    ensures Node(p, L4) in m.tabs && Walk(m.mem, m.tabs[Node(p, L4)], pg) == None
    ensures LeafAt(m, p, pg) == None
  {
    hide Inv, DataFramesHoldData, AllLinked;
    assert Node(p, L4) in m.tabs;
    assert !EntryAt(m, Node(p, L4), pg.i).user;
    MappedIsUser(m, p, pg);
  }

  lemma FieldsSame(m: Snap, m1: Snap, t: Tasks, boot: nat, kernel: map<nat, int>)
    requires FieldsOk(m, t, boot, kernel)
    requires m1.procs == m.procs && m1.tabs == m.tabs && m1.owner == m.owner
    ensures FieldsOk(m1, t, boot, kernel)
  {
    forall p | p in m1.procs ensures TaskOk(m1, t, p) { assert TaskOk(m, t, p); }
  }

  lemma FreshPid(m: Snap, t: Tasks, boot: nat, kernel: map<nat, int>)
    requires MemoryOk(m) && FieldsOk(m, t, boot, kernel)
    ensures t.nextPid !in m.procs && t.nextPid > 0
  {
    assert t.nextPid in m.procs ==> TaskOk(m, t, t.nextPid);
    assert TaskOk(m, t, 1);
  }

  lemma ForkFields(m: Snap, m1: Snap, m2: Snap, t: Tasks, t2: Tasks, boot: nat, kernel: map<nat, int>, p: nat, c: nat,
      task: nat)
    requires FieldsOk(m, t, boot, kernel) && p in m.procs && c !in m.procs && c == t.nextPid && c > 0
    requires task !in m.owner
    requires m1 == m.(owner := m.owner[task := TaskFrame(c)])
    requires OnlyNewTables(m1.tabs, m2.tabs, m1.owner, m2.owner, c)
    requires Flat(m2) == ForkStep(Flat(m1), p, c)
    requires p in t.areas && Node(c, L4) in m2.tabs
    requires t2 == Tasks(t.areas[c := t.areas[p]], t.dirs[c := m2.tabs[Node(c, L4)]], t.frames[c := task],
        t.nextPid + 1)
    ensures FieldsOk(m2, t2, boot, kernel)
    ensures OthersTables(m.tabs, m2.tabs, c)
  {
    hide Flat, ForkStep, OthersTables, TaskOk, OnlyNewTables;
    assert TaskOk(m, t, p);
    ForkTaskParts(m, t, boot, kernel);
    hide FieldsOk;
    ForkKeys(m1, m2, p, c);
    ForkFrames(m, m1, m2, t, t2, c, task);
    ForkTasks(m, m1, m2, t, t2, p, c, task);
    ForkRest(m, m2, t, t2, boot, kernel, c, task);
  }

  lemma ForkTaskParts(m: Snap, t: Tasks, boot: nat, kernel: map<nat, int>)
    requires FieldsOk(m, t, boot, kernel)
    ensures forall q {:trigger TaskOk(m, t, q)} :: q in m.procs ==> TaskOk(m, t, q)
  {
    hide TaskOk;
  }

  /** The fields of all tasks, once those of each are known to be in order. */
  lemma ForkRest(m: Snap, m2: Snap, t: Tasks, t2: Tasks, boot: nat, kernel: map<nat, int>, c: nat, task: nat)
    requires FieldsOk(m, t, boot, kernel) && c !in m.procs && m2.procs.Keys == m.procs.Keys + {c}
    requires t2.areas.Keys == t.areas.Keys + {c} && t2.dirs.Keys == t.dirs.Keys + {c}
    requires t2.frames == t.frames[c := task]
    requires forall f :: f in m2.owner && m2.owner[f].TaskFrame? ==>
      f == task || (f in m.owner && m.owner[f] == m2.owner[f])
    requires forall f :: f in m2.owner && m2.owner[f].KernelFrame? <==> f in m.owner && m.owner[f].KernelFrame?
    requires forall f :: f in m.owner ==> f in m2.owner && m2.owner[f] == m.owner[f]
    requires task in m2.owner && m2.owner[task] == TaskFrame(c)
    requires forall n :: n in m.tabs ==> n in m2.tabs && m2.tabs[n] == m.tabs[n]
    requires forall q {:trigger TaskOk(m2, t2, q)} :: q in m2.procs ==> TaskOk(m2, t2, q)
    ensures FieldsOk(m2, t2, boot, kernel)
  {
    hide TaskOk;
  }

  lemma ForkTasks(m: Snap, m1: Snap, m2: Snap, t: Tasks, t2: Tasks, p: nat, c: nat, task: nat)
    requires TaskOk(m, t, p) && (forall q {:trigger TaskOk(m, t, q)} :: q in m.procs ==> TaskOk(m, t, q))
    requires c == t.nextPid && c > 0
    requires m1 == m.(owner := m.owner[task := TaskFrame(c)]) && task !in m.owner
    requires OnlyNewTables(m1.tabs, m2.tabs, m1.owner, m2.owner, c)
    requires p in m.procs && m2.procs.Keys == m1.procs.Keys + {c} && Node(c, L4) in m2.tabs
    requires forall q :: q in m2.procs ==> m2.procs[q].areas == m1.procs[if q == c then p else q].areas
    requires p in t.areas
    requires t2 == Tasks(t.areas[c := t.areas[p]], t.dirs[c := m2.tabs[Node(c, L4)]], t.frames[c := task],
        t.nextPid + 1)
    ensures forall q {:trigger TaskOk(m2, t2, q)} :: q in m2.procs ==> TaskOk(m2, t2, q)
  {
    hide TaskOk, OnlyNewTables;
    forall q | q in m2.procs ensures TaskOk(m2, t2, q) {
      ForkTask(m, m1, m2, t, t2, p, c, task, q);
    }
  }

  lemma ForkTask(m: Snap, m1: Snap, m2: Snap, t: Tasks, t2: Tasks, p: nat, c: nat, task: nat, q: nat)
    requires TaskOk(m, t, p) && (q != c ==> TaskOk(m, t, q)) && c == t.nextPid && c > 0
    requires m1 == m.(owner := m.owner[task := TaskFrame(c)]) && task !in m.owner
    requires OnlyNewTables(m1.tabs, m2.tabs, m1.owner, m2.owner, c)
    requires q in m2.procs && p in m.procs && (q == c || q in m.procs)
    requires m2.procs[q].areas == m.procs[if q == c then p else q].areas
    requires p in t.areas && Node(c, L4) in m2.tabs
    requires t2 == Tasks(t.areas[c := t.areas[p]], t.dirs[c := m2.tabs[Node(c, L4)]], t.frames[c := task],
        t.nextPid + 1)
    ensures TaskOk(m2, t2, q)
  {
  }

  lemma ForkKeys(m1: Snap, m2: Snap, p: nat, c: nat)
    requires p in m1.procs && Flat(m2) == ForkStep(Flat(m1), p, c)
    ensures m2.procs.Keys == m1.procs.Keys + {c}
    ensures forall q :: q in m2.procs ==> m2.procs[q].areas == m1.procs[if q == c then p else q].areas
  {
  }

  lemma ForkFrames(m: Snap, m1: Snap, m2: Snap, t: Tasks, t2: Tasks, c: nat, task: nat)
    requires m1 == m.(owner := m.owner[task := TaskFrame(c)]) && task !in m.owner
    requires OnlyNewTables(m1.tabs, m2.tabs, m1.owner, m2.owner, c)
    ensures OthersTables(m.tabs, m2.tabs, c)
    ensures forall f :: f in m2.owner && m2.owner[f].TaskFrame? ==>
      f == task || (f in m.owner && m.owner[f] == m2.owner[f])
    ensures forall f :: f in m2.owner && m2.owner[f].KernelFrame? <==> f in m.owner && m.owner[f].KernelFrame?
    ensures forall f :: f in m.owner ==> f in m2.owner && m2.owner[f] == m.owner[f]
    ensures task in m2.owner && m2.owner[task] == TaskFrame(c)
    ensures forall n :: n in m.tabs ==> n in m2.tabs && m2.tabs[n] == m.tabs[n]
  {
  }

  lemma ForkSteps(m: Snap, p: nat, c: nat, f: nat)
    requires MemoryOk(m) && p in m.procs && c !in m.procs && (f !in m.owner || m.owner[f] != DataFrame)
    ensures Steps(Flat(m), E.Fork(p, c), f, ForkStep(Flat(m), p, c), E.Done)
  {
    FlatFacts(m, p);
  }

  lemma ForkFacts(m: Snap, t: Tasks, boot: nat, kernel: map<nat, int>, p: nat, used: set<nat>, counts: seq<int>)
    requires MemoryOk(m) && FieldsOk(m, t, boot, kernel) && Counted(m, used, counts, boot) && p in m.procs
    ensures p in t.areas && t.areas[p] == m.procs[p].areas
    ensures p in t.dirs && Node(p, L4) in m.tabs && t.dirs[p] == m.tabs[Node(p, L4)]
    ensures t.nextPid !in m.procs && t.nextPid !in t.frames && t.nextPid > 0
    ensures boot !in m.owner || m.owner[boot] != DataFrame
  {
    FaultFacts(m, t, boot, kernel, p, used, counts);
    FreshPid(m, t, boot, kernel);
  }

  /** sys_fork has a task structure for the child, and the next pid is one up. */
  ghost predicate ForkBegun(m: Snap, m1: Snap, t: Tasks, t1: Tasks, boot: nat, kernel: map<nat, int>, p: nat,
      task: nat) {
    && MemoryOk(m) && MemoryOk(m1) && FieldsOk(m, t, boot, kernel) && (boot !in m.owner || m.owner[boot] != DataFrame)
    && p in m.procs && t.nextPid > 0 && t.nextPid !in m.procs && task !in m.owner
    && m1 == m.(owner := m.owner[task := TaskFrame(t.nextPid)]) && Flat(m1) == Flat(m)
    && t1 == t.(nextPid := t.nextPid + 1, frames := t.frames[t.nextPid := task])
    && p in t.areas && p in t.dirs && t.areas[p] == m.procs[p].areas
    && Node(p, L4) in m.tabs && t.dirs[p] == m.tabs[Node(p, L4)]
  }

  /** What sys_fork has done when it returns. */
  lemma ForkDone(m: Snap, m1: Snap, m2: Snap, t: Tasks, t2: Tasks, boot: nat, kernel: map<nat, int>, p: nat, c: nat,
      task: nat)
    requires MemoryOk(m) && (boot !in m.owner || m.owner[boot] != DataFrame)
    requires FieldsOk(m, t, boot, kernel) && p in m.procs && c !in m.procs && c == t.nextPid && c > 0
    requires task !in m.owner
    requires m1 == m.(owner := m.owner[task := TaskFrame(c)]) && Flat(m1) == Flat(m)
    requires OnlyNewTables(m1.tabs, m2.tabs, m1.owner, m2.owner, c)
    requires Flat(m2) == ForkStep(Flat(m1), p, c)
    requires p in t.areas && Node(c, L4) in m2.tabs
    requires t2 == Tasks(t.areas[c := t.areas[p]], t.dirs[c := m2.tabs[Node(c, L4)]], t.frames[c := task],
        t.nextPid + 1)
    ensures p in m2.procs && c in m2.procs
    ensures FieldsOk(m2, t2, boot, kernel)
    ensures OthersTables(m.tabs, m2.tabs, c)
    ensures Steps(Flat(m), E.Fork(p, c), boot, Flat(m2), E.Done)
  {
    hide MemoryOk, FieldsOk, OnlyNewTables, Steps, OthersTables;
    ForkKeys(m1, m2, p, c);
    ForkFields(m, m1, m2, t, t2, boot, kernel, p, c, task);
    ForkSteps(m, p, c, boot);
  }

  lemma CloneFacts(m: Snap, p: nat, c: nat)
    requires MemoryOk(m) && p in m.procs && c !in m.procs
    ensures TreeOk(m) && Placed(m)
    ensures Node(p, L4) in m.tabs && m.tabs[Node(p, L4)] in m.mem && m.mem[m.tabs[Node(p, L4)]].TableOf?
    ensures Missing(m.tabs, p, c) == TablesOf(m.tabs, p)
    ensures Node(p, L4) in TablesOf(m.tabs, p) && TablesOf(m.tabs, p) != {}
    ensures Node(c, L4) !in m.tabs
  {
    hide Inv, TopsAgree, DataFramesHoldData;
    assert Node(p, L4) in TablesOf(m.tabs, p);
  }

  /** At the end of a copy no table is missing. */
  lemma NothingMissing(m: Snap, p: nat, c: nat)
    requires Copying(m, p, c) && Complete(m, c, L4) && SameShape(m, p, c) && Node(c, L4) in m.tabs
    ensures Missing(m.tabs, p, c) == {}
  {
    hide Copying, Complete, SameShape;
    forall n | n in m.tabs && n.pid == p ensures Node(c, n.slot) in m.tabs {
      AllMirrored(m, p, c, n.slot);
    }
  }

  lemma CloneBegin(m: Snap, p: nat, c: nat, f: nat, used: set<nat>, counts: seq<int>, boot: nat)
    requires MemoryOk(m) && p in m.procs && c !in m.procs && f !in m.owner && Counted(m, used, counts, boot)
    requires f !in used && f != boot && f < |counts|
    requires Node(p, L4) in m.tabs && m.tabs[Node(p, L4)] in m.mem
    ensures
      var m1 := WithChild(m, p, c, f);
      && p != c && Copying(m1, p, c)
      && Counted(m1, used + {f}, counts[f := 1], boot)
      && (forall ix: Ix :: ix < Bound(L4) ==> Raw(m1, p, c, L4, ix))
      && SameShape(m1, p, c)
      && |Missing(m1.tabs, p, c)| == |TablesOf(m.tabs, p)| - 1
      && (forall q, pg {:trigger LeafAt(m1, q, pg)} :: q != c ==> LeafAt(m1, q, pg) == LeafAt(m, q, pg))
      && m1.tabs == m.tabs[Node(c, L4) := f]
  {
    hide Inv, TopsAgree, DataFramesHoldData, Copying, Raw, Counted;
    CloneFacts(m, p, c);
    CloneStart(m, p, c, f);
    MissingLink(m.tabs, p, c, L4, f);
    WithChildEntries(m, p, c, f);
    CloneShape(m, p, c, f);
    CountedChild(m, p, c, f, used, counts, boot);
  }

  lemma CloneShape(m: Snap, p: nat, c: nat, f: nat)
    requires Placed(m) && p in m.procs && c !in m.procs && f !in m.owner
    ensures SameShape(WithChild(m, p, c, f), p, c)
  {
    WithChildEntries(m, p, c, f);
    assert Node(p, L4) in m.tabs;
  }

  lemma CountedChild(m: Snap, p: nat, c: nat, f: nat, used: set<nat>, counts: seq<int>, boot: nat)
    requires Counted(m, used, counts, boot) && p in m.procs && c !in m.procs
    requires f !in used && f != boot && f < |counts| && Node(p, L4) in m.tabs && m.tabs[Node(p, L4)] in m.mem
    ensures Counted(WithChild(m, p, c, f), used + {f}, counts[f := 1], boot)
  {
    var m1 := WithChild(m, p, c, f);
    forall k, g ensures Names(m1.procs, k, g) <==> Names(m.procs, k, g) {}
    forall g ensures Refs(m1.procs, g) == Refs(m.procs, g) { SameRefs(m.procs, m1.procs, g); }
  }

  lemma CloneFinish(m: Snap, m2: Snap, p: nat, c: nat, f: nat)
    requires MemoryOk(m) && p in m.procs && c !in m.procs && f !in m.owner
    requires Node(p, L4) in m.tabs && m.tabs[Node(p, L4)] in m.mem
    requires Copying(m2, p, c) && Complete(m2, c, L4)
    requires SameOutside(WithChild(m, p, c, f), m2, p, c, L4) && SameTop(WithChild(m, p, c, f), m2, c, L4)
    requires Copied(WithChild(m, p, c, f), m2, p, c, L4, 512)
    ensures MemoryOk(m2) && Flat(m2) == ForkStep(Flat(m), p, c)
    ensures Node(c, L4) in m2.tabs && m2.tabs[Node(c, L4)] == f
    ensures OnlyNewTables(m.tabs, m2.tabs, m.owner, m2.owner, c)
  {
    hide MemoryOk, Inv, Copying, Complete, Copied, SameTop, SameEntries, SameLeaves, Flat, ForkStep;
    CloneFacts(m, p, c);
    CloneMemoryOk(m, m2, p, c, f);
    assert Node(c, L4) in WithChild(m, p, c, f).tabs;
  }

  /** The kernel has taken a frame for itself. */
  lemma KernelGrows(m: Snap, m1: Snap, t: Tasks, boot: nat, kernel: map<nat, int>, f: nat, used: set<nat>,
      counts: seq<int>)
    requires MemoryOk(m) && FieldsOk(m, t, boot, kernel) && Counted(m, used, counts, boot)
    requires f !in used && f != boot && f < |counts| && m1 == m.(owner := m.owner[f := KernelFrame(1)])
    ensures MemoryOk(m1) && Flat(m1) == Flat(m)
    ensures FieldsOk(m1, t, boot, kernel[f := 1]) && Counted(m1, used + {f}, counts[f := 1], boot)
  {
    hide MemoryOk, FieldsOk, Flat;
    assert f !in m.owner;
    OtherFrames(m, m1);
    KernelFields(m, m1, t, boot, kernel, f);
    KernelCounted(m, m1, f, used, counts, boot);
  }

  lemma KernelFields(m: Snap, m1: Snap, t: Tasks, boot: nat, kernel: map<nat, int>, f: nat)
    requires FieldsOk(m, t, boot, kernel) && f !in m.owner && m1 == m.(owner := m.owner[f := KernelFrame(1)])
    ensures FieldsOk(m1, t, boot, kernel[f := 1])
  {
    hide TaskOk;
    KernelTasks(m, m1, t, f);
  }

  lemma KernelTasks(m: Snap, m1: Snap, t: Tasks, f: nat)
    requires f !in m.owner && m1 == m.(owner := m.owner[f := KernelFrame(1)])
    ensures forall p {:trigger TaskOk(m1, t, p)} :: TaskOk(m, t, p) ==> TaskOk(m1, t, p)
  {
  }

  lemma KernelCounted(m: Snap, m1: Snap, f: nat, used: set<nat>, counts: seq<int>, boot: nat)
    requires Counted(m, used, counts, boot) && f !in used && f != boot && f < |counts|
    requires m1 == m.(owner := m.owner[f := KernelFrame(1)])
    ensures Counted(m1, used + {f}, counts[f := 1], boot)
  {
    hide Refs;
  }

  /** A mapped page has all its tables. */
  lemma PathPresent(m: Snap, p: nat, pg: PageIx, i: nat)
    requires MemoryOk(m) && i <= 3
    ensures LeafAt(m, p, pg).Some? ==> Node(p, SlotAt(pg, i)) in m.tabs
  {
    hide Inv, TopsAgree, DataFramesHoldData, AllLinked, TablesInFrames, FramesNamed;
    if LeafAt(m, p, pg).Some? {
      assert Node(p, LeafSlot(pg)) in m.tabs;
      assert Node(p, L2(pg.i, pg.j)) in m.tabs;
      assert Node(p, L3(pg.i)) in m.tabs;
    }
  }

  lemma NothingLacking(m: Snap, p: nat, pg: PageIx)
    requires MemoryOk(m)
    ensures LeafAt(m, p, pg).Some? ==> Lacking(SlotsOf(m.tabs, p), pg, 3) == 0
  {
    hide MemoryOk;
    forall k: nat | k < 3 ensures LeafAt(m, p, pg).Some? ==> Node(p, SlotAt(pg, k)) in m.tabs {
      PathPresent(m, p, pg, k);
    }
    LackingBounds(SlotsOf(m.tabs, p), pg, 3);
  }

  lemma UserPage(addr: nat)
    requires addr < MEM_BOTTOM_HALF
    ensures IsUser(PageOf(addr))
  {
    AddressOfIndices(addr);
  }

  lemma TopHalfPage(addr: nat)
    requires MEM_TOP_HALF <= addr < U64_LIMIT
    ensures !IsUser(PageOf(addr))
  {
    var q := addr / 0x80_0000_0000;
    assert 0x1ff_ff00 <= q < 0x200_0000;
  }

  lemma SameTables(tabs0: map<Node, nat>, tabs1: map<Node, nat>, p: nat)
    ensures tabs0 == tabs1 ==> OthersTables(tabs0, tabs1, p)
  {
  }

  lemma SameFlat(m: Snap, m1: Snap, p: nat, pg: PageIx)
    requires Flat(m1) == Flat(m)
    ensures m1.procs == m.procs
    ensures forall q, a {:trigger LeafAt(m1, q, a)} :: LeafAt(m1, q, a) == LeafAt(m, q, a)
  {
  }

  lemma FieldsGrow(m: Snap, m1: Snap, m2: Snap, t: Tasks, boot: nat, kernel: map<nat, int>, p: nat)
    requires FieldsOk(m, t, boot, kernel)
    requires OnlyNewTables(m.tabs, m1.tabs, m.owner, m1.owner, p) && m1.procs == m.procs
    requires m2.tabs == m1.tabs && OnlyNewData(m1.owner, m2.owner) && SameAreas(m1.procs, m2.procs)
    ensures FieldsOk(m2, t, boot, kernel) && m2.procs.Keys == m.procs.Keys
    ensures OthersTables(m.tabs, m2.tabs, p)
  {
    forall q | q in m2.procs ensures TaskOk(m2, t, q) {
      assert TaskOk(m, t, q);
      GrowTask(m, m1, m2, t, p, q);
    }
    hide TaskOk;
  }

  lemma GrowTask(m: Snap, m1: Snap, m2: Snap, t: Tasks, p: nat, q: nat)
    requires TaskOk(m, t, q) && OnlyNewTables(m.tabs, m1.tabs, m.owner, m1.owner, p) && m1.procs == m.procs
    requires m2.tabs == m1.tabs && OnlyNewData(m1.owner, m2.owner) && SameAreas(m1.procs, m2.procs)
    ensures TaskOk(m2, t, q)
  {
  }

  lemma CoherentAfter(m: Snap, m1: Snap, m2: Snap, p: nat, pg: PageIx, tlb: map<PageIx, Leaf>)
    requires forall a :: a in tlb ==> LeafAt(m, p, a) == Some(tlb[a])
    requires m1.procs == m.procs && OthersSame(m1, m2, p, pg)
    ensures forall a :: a in tlb - {pg} ==> LeafAt(m2, p, a) == Some(tlb[a])
  {
    forall a | a in tlb - {pg} ensures LeafAt(m2, p, a) == Some(tlb[a]) {
      assert LeafAt(m2, p, a) == LeafAt(m1, p, a) == LeafAt(m, p, a);
    }
  }

  /** The end of an un-sharing fault. */
  lemma UnshareEnds(m: Snap, m1: Snap, m2: Snap, t: Tasks, boot: nat, kernel: map<nat, int>, p: nat, addr: nat,
      f: nat, tlb: map<PageIx, Leaf>)
    requires FieldsOk(m, t, boot, kernel) && MemoryOk(m1) && addr < MEM_BOTTOM_HALF && Flat(m1) == Flat(m)
    requires OnlyNewTables(m.tabs, m1.tabs, m.owner, m1.owner, p) && m2.tabs == m1.tabs
    requires OnlyNewData(m1.owner, m2.owner) && SameAreas(m1.procs, m2.procs)
    requires Served(Flat(m1), p, addr, true, f, Flat(m2)) && OthersSame(m1, m2, p, PageOf(addr))
    requires forall a :: a in tlb ==> LeafAt(m, p, a) == Some(tlb[a])
    requires p in m.procs
    ensures p in m2.procs && FieldsOk(m2, t, boot, kernel) && OthersTables(m.tabs, m2.tabs, p)
    ensures Steps(Flat(m), E.Fault(p, addr, true), f, Flat(m2), E.Done)
    ensures forall a :: a in tlb - {PageOf(addr)} ==> LeafAt(m2, p, a) == Some(tlb[a])
  {
    hide FieldsOk, MemoryOk, OnlyNewTables, OnlyNewData, Served, OthersSame, OthersTables, Steps, PageOf, DataMap;
    FieldsGrow(m, m1, m2, t, boot, kernel, p);
    ServedSteps(m1, m2, p, addr, f);
    CoherentAfter(m, m1, m2, p, PageOf(addr), tlb);
  }

  /** Only tables of p were added. */
  ghost predicate OnlyNewTables(tabs0: map<Node, nat>, tabs1: map<Node, nat>, own0: map<nat, Owner>, own1: map<nat,
      Owner>, p: nat) {
    && (forall n :: n in tabs0 ==> n in tabs1 && tabs1[n] == tabs0[n])
    && (forall n :: n in tabs1 && n !in tabs0 ==> n.pid == p)
    && (forall f :: f in own0 ==> f in own1 && own1[f] == own0[f])
    && (forall f :: f in own1 && f !in own0 ==> own1[f].TableFrame?)
  }

  /** What the walk finds at a table of a user address. */
  lemma WalkFacts(m: Snap, n: Node, ix: Ix)
    requires MemoryOk(m) && n in m.tabs && !n.slot.L1? && ix < Bound(n.slot)
    ensures m.tabs[n] in m.mem && m.mem[m.tabs[n]].TableOf?
    ensures
      var e := m.mem[m.tabs[n]].t[ix];
      var c := Node(n.pid, Child(n.slot, ix));
      && (e.present <==> c in m.tabs) && (e.present ==> m.tabs[c] == e.frame)
      && (!e.present ==> forall f :: f !in m.owner ==> CanGrow(m, n, ix, f))
  {
    assert AllLinked(m, n.pid);
    assert Linked(m, n, ix);
  }

  lemma NewTableFields(m: Snap, n: Node, ix: Ix, f: nat)
    requires CanGrow(m, n, ix, f)
    ensures
      var m1 := NewTable(m, n, ix, f);
      var c := Node(n.pid, Child(n.slot, ix));
      && m1.tabs == m.tabs[c := f] && m1.owner == m.owner[f := TableFrame(c)] && m1.procs == m.procs
      && EntryAt(m1, n, ix).frame == f
      && m.tabs[n] in m1.mem && m1.mem[m.tabs[n]].TableOf?
  {
    assert m.tabs[n] in m.owner;
  }
}
