/** A child that is forked and later exits leaves the allocator as it found it. */
module Conservation {
  import opened Memory
  import opened Areas
  import E = EagerFork
  import opened FrameAllocator
  import opened SharedPages
  import opened Isolation
  import opened PageTables
  import opened Books
  import opened Abstraction
  import opened KernelFacts
  import opened Kernel

  ghost predicate SameNames(a: Processes, b: Processes) {
    forall k, f {:trigger Names(a, k, f)} {:trigger Names(b, k, f)} :: Names(a, k, f) <==> Names(b, k, f)
  }

  lemma OwnerCarries(m: Snap, m2: Snap, t: Tasks, boot: nat, kernel: map<nat, int>, t2: Tasks, f: nat)
    requires MemoryOk(m) && MemoryOk(m2) && FieldsOk(m, t, boot, kernel) && FieldsOk(m2, t2, boot, kernel)
    requires m2.tabs == m.tabs && t2.frames == t.frames && SameNames(m.procs, m2.procs)
    requires f in m.owner
    ensures f in m2.owner && m2.owner[f] == m.owner[f]
  {
    hide TopsAgree, AllLinked, Exclusive, Grounded, AreasOk;
    match m.owner[f]
    case TableFrame(n) => assert n in m2.tabs;
    case DataFrame =>
      assert DataAt(m, f);
      assert f in Flat(m).data;
      var k :| Names(m.procs, k, f);
      assert LeafAt(m2, k.pid, k.page).Some?;
      assert DataAt(m2, LeafAt(m2, k.pid, k.page).value.frame);
    case TaskFrame(p) => assert TaskOk(m2, t2, p);
    case KernelFrame(n) => assert f in kernel;
  }

  /** Which frames are allocated, what for, and with which counts is a function of the tables, the
      mapped frames and the task structures. */
  lemma BooksDetermined(m: Snap, m2: Snap, t: Tasks, t2: Tasks, boot: nat, kernel: map<nat, int>,
                        used: set<nat>, counts: seq<int>, used2: set<nat>, counts2: seq<int>)
    requires MemoryOk(m) && MemoryOk(m2) && FieldsOk(m, t, boot, kernel) && FieldsOk(m2, t2, boot, kernel)
    requires Counted(m, used, counts, boot) && Counted(m2, used2, counts2, boot)
    requires m2.tabs == m.tabs && t2.frames == t.frames && SameNames(m.procs, m2.procs)
    ensures m2.owner == m.owner && used2 == used
    ensures forall f :: f in used ==> f < |counts| && f < |counts2| && counts2[f] == counts[f]
  {
    hide MemoryOk, FieldsOk;
    forall f | f in m.owner ensures f in m2.owner && m2.owner[f] == m.owner[f] {
      OwnerCarries(m, m2, t, boot, kernel, t2, f);
    }
    forall f | f in m2.owner ensures f in m.owner && m.owner[f] == m2.owner[f] {
      OwnerCarries(m2, m, t2, boot, kernel, t, f);
    }
    forall f ensures Refs(m2.procs, f) == Refs(m.procs, f) { SameRefs(m.procs, m2.procs, f); }
    assert used == m.owner.Keys - {boot};
    assert used2 == m2.owner.Keys - {boot};
  }

  /** What a process can do by itself before it exits: load, store, run a program, or fork a child
      that does such things in turn and exits. */
  datatype Action =
    | Read(addr: nat) | Write(addr: nat, value: byte) | Run(program: seq<Area>) | Spawn(script: seq<Action>)

  predicate ActionOk(a: Action) {
    match a
    case Read(addr) => addr < MEM_BOTTOM_HALF
    case Write(addr, _) => addr < MEM_BOTTOM_HALF
    case Run(program) => AreasOk(program)
    case Spawn(script) => forall n :: 0 <= n < |script| ==> ActionOk(script[n])
  }

  /** What is left of a fork once the child is gone: the parent's pages are write-protected. */
  function AfterChild(procs: Processes, p: nat): Processes
    requires p in procs
  {
    procs[p := procs[p].(table := Protect(procs[p].table))]
  }

  lemma AfterChildNames(procs: Processes, p: nat)
    requires p in procs
    ensures SameNames(procs, AfterChild(procs, p))
  {
  }

  /** The processes while the child runs. */
  ghost predicate ChildRuns(procs0: Processes, procs: Processes, p: nat, c: nat) {
    && p in procs0 && c !in procs0
    && procs.Keys == procs0.Keys + {c}
    && forall q :: q in procs0 ==> procs[q] == AfterChild(procs0, p)[q]
  }

  lemma ForkStarts(s: State, p: nat, c: nat, f: nat, t: State)
    requires Steps(s, E.Fork(p, c), f, t, E.Done)
    ensures ChildRuns(s.procs, t.procs, p, c)
  {
    hide Inv;
  }

  lemma AccessKeeps(procs0: Processes, s: State, ev: E.Event, f: nat, t: State, o: E.Outcome, p: nat, c: nat)
    requires ChildRuns(procs0, s.procs, p, c)
    requires Steps(s, ev, f, t, o) && (UserAccess(ev) || ev.Exec?) && E.Actor(ev) == c
    ensures ChildRuns(procs0, t.procs, p, c)
  {
    hide Steps;
    AccessKeepsOthers(s, ev, f, t, o);
  }

  lemma TabsBack(m: Snap, tabs1: map<Node, nat>, m2: Snap, c: nat)
    requires MemoryOk(m) && MemoryOk(m2) && c !in m.procs && c !in m2.procs
    requires OthersTables(m.tabs, tabs1, c) && OthersTables(tabs1, m2.tabs, c)
    ensures m2.tabs == m.tabs
  {
    hide Inv, TopsAgree, DataFramesHoldData, Mapped, AllLinked, ParentsExist, FramesNamed;
    forall n ensures n in m2.tabs <==> n in m.tabs
      ensures n in m.tabs ==> m2.tabs[n] == m.tabs[n]
    {
      if n.pid != c { assert n in tabs1 <==> n in m.tabs; }
    }
  }

  lemma ChildGone(procs0: Processes, procs: Processes, p: nat, c: nat)
    requires ChildRuns(procs0, procs, p, c)
    ensures procs - {c} == AfterChild(procs0, p)
  {
  }

  lemma ChildFacts(m: Snap, procs: Processes, p: nat, c: nat)
    requires MemoryOk(m) && ChildRuns(m.procs, procs, p, c)
    ensures c in procs && p in procs && p != c && c != 1
  {
  }

  /** Everything is back once the child has exited. */
  lemma AllBack(m: Snap, tabs: map<Node, nat>, procs: Processes, m2: Snap, t: Tasks, t2: Tasks, boot: nat,
      kernel: map<nat, int>,
                used: set<nat>, counts: seq<int>, used2: set<nat>, counts2: seq<int>, p: nat, c: nat)
    requires MemoryOk(m) && MemoryOk(m2) && FieldsOk(m, t, boot, kernel) && FieldsOk(m2, t2, boot, kernel)
    requires Counted(m, used, counts, boot) && Counted(m2, used2, counts2, boot)
    requires ChildRuns(m.procs, procs, p, c) && m2.procs == procs - {c} && t2.frames == t.frames
    requires OthersTables(m.tabs, tabs, c) && OthersTables(tabs, m2.tabs, c)
    ensures p in m.procs
    ensures m2.tabs == m.tabs && m2.owner == m.owner && m2.procs == AfterChild(m.procs, p)
    ensures used2 == used
    ensures forall f :: f in used ==> f < |counts| && f < |counts2| && counts2[f] == counts[f]
  {
    hide MemoryOk, FieldsOk, Counted, OthersTables, SameNames;
    ChildGone(m.procs, procs, p, c);
    TabsBack(m, tabs, m2, c);
    AfterChildNames(m.procs, p);
    BooksDetermined(m, m2, t, t2, boot, kernel, used, counts, used2, counts2);
  }

  lemma TablesChain(a: map<Node, nat>, b: map<Node, nat>, d: map<Node, nat>, c: nat)
    requires OthersTables(a, b, c) && OthersTables(b, d, c)
    ensures OthersTables(a, d, c)
  {
  }

  /** The allocator is in the state it was in: bitmap, bytes in use and every count. */
  ghost predicate SameAllocator(a: FrameAllocator, used: set<nat>, memused: int, counts: seq<int>)
    reads a, a.pages
  {
    && a.used == used && a.memused == memused && a.pages != null && a.pages.Length == |counts|
    && forall f :: a.first <= f < a.End() && f < |counts| ==> a.pages[f] == counts[f]
  }

  /** What an action that is not a fork leaves of the parent. */
  lemma SpawnKeeps(procs0: Processes, procs: Processes, p: nat, c: nat)
    requires ChildRuns(procs0, procs, p, c)
    ensures c in procs && ChildRuns(procs0, AfterChild(procs, c), p, c)
  {
  }

  /** An action of the running task c that is not a fork; false if it stops the kernel. After an
      exec the task is switched away from and back to, as nothing else empties the translation
      cache. */
  method Access(k: Machine, a: Action, ghost procs0: Processes, p: nat) returns (ok: bool)
    requires k.Valid() && k.current in k.procs && ActionOk(a) && !a.Spawn? && k.pmm.Free() != {}
    requires ChildRuns(procs0, k.procs, p, k.current) && p in k.procs && p != k.current
    modifies k`mem, k`areas, k`tabs, k`procs, k`owner, k`tlb, k`halted, k`current
    modifies k.pmm`memused, k.pmm`used, k.pmm.bitmap, k.pmm.pages
    ensures !ok ==> k.halted
    ensures ok ==> k.Valid() && k.current == old(k.current) && ChildRuns(procs0, k.procs, p, k.current)
    ensures ok ==> OthersTables(old(k.tabs), k.tabs, k.current)
  {
    hide MemoryOk, FieldsOk, Steps, ChildRuns, OthersTables, Machine.BooksOk, Machine.Coherent, DataMap;
    hide Machine.FramesFor, Machine.Unchecked, FrameAllocator.Free;
    ghost var s := Flat(k.Now());
    var c := k.current;
    var r; ghost var f, ev;
    match a {
      case Read(addr) =>
        r, f := k.Load(addr);
        ev := E.Load(c, addr);
      case Write(addr, v) =>
        r, f := k.Store(addr, v);
        ev := E.Store(c, addr, v);
      case Run(program) =>
        k.Exec(program);
        r, f, ev := E.Done, k.boot, E.Exec(c, program);
    }
    if k.halted { return false; }
    AccessKeeps(procs0, s, ev, f, Flat(k.Now()), r, p, c);
    if a.Run? {
      ChildThere(procs0, k.procs, p, c);
      k.Switch(p);
      k.Switch(c);
    }
    return true;
  }

  lemma ChildThere(procs0: Processes, procs: Processes, p: nat, c: nat)
    requires ChildRuns(procs0, procs, p, c)
    ensures c in procs && p in procs && p != c
  {
  }

  /** One action of the running task; false if it stops the kernel. */
  method Act(k: Machine, a: Action, ghost procs0: Processes, p: nat) returns (ok: bool)
    requires k.Valid() && k.current in k.procs && ActionOk(a) && |k.pmm.Free()| >= 2
    requires ChildRuns(procs0, k.procs, p, k.current) && p in k.procs && p != k.current
    modifies k`mem, k`areas, k`dirs, k`tasks, k`nextPid, k`tabs, k`procs, k`owner, k`tlb, k`halted, k`current
    modifies k.pmm`memused, k.pmm`used, k.pmm.bitmap, k.pmm.pages
    ensures !ok ==> k.halted
    ensures ok ==> k.Valid() && k.current == old(k.current) && ChildRuns(procs0, k.procs, p, k.current)
    ensures ok ==> OthersTables(old(k.tabs), k.tabs, k.current) && k.tasks == old(k.tasks)
    decreases a, 0
  {
    hide MemoryOk, FieldsOk, ChildRuns, OthersTables, Machine.BooksOk, Machine.Coherent, FrameAllocator.Free,
        AfterChild, SameAllocator;
    if a.Spawn? {
      SpawnKeeps(procs0, k.procs, p, k.current);
      ok := ForkUseExit(k, a.script);
      SameTables(old(k.tabs), k.tabs, k.current);
    } else {
      assert k.pmm.Free() != {};
      ok := Access(k, a, procs0, p);
    }
  }

  /** The actions of the running task, until they are done, or there is no longer a frame for a
      task structure and another one. */
  method RunScript(k: Machine, script: seq<Action>, ghost m: Snap, p: nat) returns (ok: bool)
    requires k.Valid() && forall n :: 0 <= n < |script| ==> ActionOk(script[n])
    requires MemoryOk(m) && ChildRuns(m.procs, k.procs, p, k.current)
    modifies k`mem, k`areas, k`dirs, k`tasks, k`nextPid, k`tabs, k`procs, k`owner, k`tlb, k`halted, k`current
    modifies k.pmm`memused, k.pmm`used, k.pmm.bitmap, k.pmm.pages
    ensures !ok ==> k.halted
    ensures ok ==> k.Valid() && k.current == old(k.current) && ChildRuns(m.procs, k.procs, p, k.current)
    ensures ok ==> OthersTables(old(k.tabs), k.tabs, k.current) && k.tasks == old(k.tasks)
    decreases script, 0
  {
    hide MemoryOk, FieldsOk, Counted, ChildRuns, OthersTables, Machine.Consistent, Machine.Coherent,
        FrameAllocator.Free;
    SameTables(k.tabs, k.tabs, k.current);
    var n := 0;
    while n < |script|
      invariant 0 <= n <= |script|
      invariant k.Valid() && k.current == old(k.current) && ChildRuns(m.procs, k.procs, p, k.current)
      invariant OthersTables(old(k.tabs), k.tabs, k.current) && k.tasks == old(k.tasks)
    {
      PmmValid(k);
      var bytes := k.pmm.GetFreeMem();
      if bytes / PAGE_SIZE - k.pmm.memsize / PAGE_SIZE % 64 < 2 { break; }
      ghost var tabs := k.tabs;
      ChildFacts(m, k.procs, p, k.current);
      ok := Act(k, script[n], m.procs, p);
      if !ok { return false; }
      TablesChain(old(k.tabs), tabs, k.tabs, k.current);
      n := n + 1;
    }
    return true;
  }

  lemma PmmValid(k: Machine)
    requires k.Valid()
    ensures k.pmm.Valid() && k.pmm.pages != null
  {
  }

  /** fork, and then what the child does for as long as memory lasts. False if that has stopped the
      kernel. */
  method ForkUse(k: Machine, script: seq<Action>) returns (ok: bool, child: nat)
    requires k.Valid() && k.current in k.procs && |k.pmm.Free()| >= 2
    requires forall n :: 0 <= n < |script| ==> ActionOk(script[n])
    modifies k`mem, k`areas, k`dirs, k`tasks, k`nextPid, k`tabs, k`procs, k`owner, k`tlb, k`halted, k`current
    modifies k.pmm`memused, k.pmm`used, k.pmm.bitmap, k.pmm.pages
    ensures !ok ==> k.halted
    ensures ok ==> k.Valid() && k.current == child && ChildRuns(old(k.procs), k.procs, old(k.current), child)
    ensures ok ==> OthersTables(old(k.tabs), k.tabs, child)
    ensures ok ==> child !in old(k.tasks) && k.tasks.Keys == old(k.tasks.Keys) + {child}
    ensures ok ==> forall q :: q in old(k.tasks) ==> k.tasks[q] == old(k.tasks[q])
    decreases script, 1
  {
    hide MemoryOk, FieldsOk, Counted, Steps, ChildRuns, OthersTables, Machine.Coherent, DataMap, TablesOf,
        FrameAllocator.Free;
    ghost var m := k.Now();
    var parent := k.current;
    assert k.pmm.Free() != {};
    var code := k.Fork();
    if k.halted { return false, 0; }
    child := code;
    ForkStarts(Flat(m), parent, child, k.boot, Flat(k.Now()));
    ChildFacts(m, k.procs, parent, child);
    k.Switch(child);
    ghost var tabs1 := k.tabs;
    ok := RunScript(k, script, m, parent);
    if ok { TablesChain(m.tabs, tabs1, k.tabs, child); }
  }

  /** fork, anything the child does by itself, forks of its own included, and exit: the bitmap, the
      bytes in use and all counts are restored, and so are all page tables; the parent keeps its
      pages, write-protected. The result is false exactly if the kernel has stopped. */
  method ForkUseExit(k: Machine, script: seq<Action>) returns (done: bool)
    requires k.Valid() && k.current in k.procs && |k.pmm.Free()| >= 2
    requires forall n :: 0 <= n < |script| ==> ActionOk(script[n])
    modifies k`mem, k`areas, k`dirs, k`tasks, k`nextPid, k`tabs, k`procs, k`owner, k`tlb, k`halted, k`current
    modifies k.pmm`memused, k.pmm`used, k.pmm.bitmap, k.pmm.pages
    ensures !done ==> k.halted
    ensures done ==> k.Valid() && k.current == old(k.current)
    ensures done ==> SameAllocator(k.pmm, old(k.pmm.used), old(k.pmm.memused), old(k.pmm.pages[..]))
    ensures done ==> k.tabs == old(k.tabs) && k.owner == old(k.owner) && k.tasks == old(k.tasks)
    ensures done ==> k.procs == AfterChild(old(k.procs), old(k.current))
    decreases script, 2
  {
    hide MemoryOk, FieldsOk, Counted, Steps, ChildRuns, OthersTables, Machine.Coherent, DataMap, TablesOf,
        FrameAllocator.Free;
    ghost var m, t, used, counts := k.Now(), k.Tcbs(), k.pmm.used, k.pmm.pages[..];
    var parent := k.current;
    var ok, child := ForkUse(k, script);
    if !ok { return false; }
    ChildFacts(m, k.procs, parent, child);
    ghost var tabs, procs := k.tabs, k.procs;
    k.Exit(parent);
    assert k.tasks == t.frames;
    AllBack(m, tabs, procs, k.Now(), t, k.Tcbs(), k.boot, k.kernel, used, counts, k.pmm.used, k.pmm.pages[..], parent,
        child);
    return true;
  }
}
