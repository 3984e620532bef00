/** What sys_exit, free_task and sys_exec do to frames, tables and task structures
    (src/kernel/process.c:93-114, 255-266 and free_mm of src/mm/mm.c). */
module ExitSteps {
  import opened Memory
  import opened Areas
  import E = EagerFork
  import opened SharedPages
  import opened PageTables
  import opened CloneTables
  import FT = FreeTables
  import opened Books
  import opened Abstraction
  import opened FaultSteps
  import opened KernelFacts

  /** free_mm may start. */
  lemma FreeBegin(m: Snap, p: nat)
    requires MemoryOk(m) && p in m.procs
    ensures FT.Freeing(m, p) && Complete(m, p, L4)
    ensures Node(p, L4) in m.tabs
  {
    hide TopsAgree;
    forall f | f in m.owner && m.owner[f] == DataFrame ensures exists k :: Names(m.procs, k, f) {
      assert DataAt(m, f);
      assert f in Flat(m).data;
    }
    assert AllLinked(m, p);
    forall n, ix: Ix | n in m.tabs && n.pid == p && Under(L4, n.slot) && ix < Bound(n.slot) ensures Linked(m, n, ix) {}
  }

  /** What is left of p after free_mm. */
  lemma FreeDone(m: Snap, m1: Snap, p: nat)
    requires MemoryOk(m) && p in m.procs && FT.FreedTo(m, m1, p, L4, 256) && FT.Freeing(m1, p)
    ensures Node(p, L4) in m1.tabs && m1.tabs[Node(p, L4)] == m.tabs[Node(p, L4)]
    ensures m1.tabs[Node(p, L4)] in m1.mem && m1.mem[m1.tabs[Node(p, L4)]].TableOf?
    ensures m1.tabs[Node(p, L4)] in m1.owner && m1.owner[m1.tabs[Node(p, L4)]] == TableFrame(Node(p, L4))
    ensures m1.procs == m.procs[p := m.procs[p].(table := map[])]
    ensures m1.mem == m.mem
    ensures OthersTables(m.tabs, m1.tabs, p)
    ensures forall f :: f in m1.owner ==> f in m.owner && m1.owner[f] == m.owner[f]
    ensures forall f :: f in m.owner && (m.owner[f].TaskFrame? || m.owner[f].KernelFrame?) ==> f in m1.owner
    ensures forall n :: n in m1.tabs && n.pid == p ==> n.slot == L4
  {
    hide Inv, TopsAgree, DataFramesHoldData, TreeOk, FT.Freeing;
    FreedAll(m, m1, p);
    FreeKeepsTop(m1, p);
  }

  lemma FreeKeepsTop(m1: Snap, p: nat)
    requires FT.Freeing(m1, p)
    ensures Node(p, L4) in m1.tabs
    ensures m1.tabs[Node(p, L4)] in m1.mem && m1.mem[m1.tabs[Node(p, L4)]].TableOf?
    ensures m1.tabs[Node(p, L4)] in m1.owner && m1.owner[m1.tabs[Node(p, L4)]] == TableFrame(Node(p, L4))
  {
  }

  // ----- exit

  /** free_page(p->mm.page_dir) */
  lemma CountedTop(m1: Snap, p: nat, used: set<nat>, counts: seq<int>, boot: nat)
    requires Counted(m1, used, counts, boot) && p != 1 && p in m1.procs && m1.procs[p].table == map[]
    requires Node(p, L4) in m1.tabs
    requires m1.tabs[Node(p, L4)] in m1.owner && m1.owner[m1.tabs[Node(p, L4)]] == TableFrame(Node(p, L4))
    ensures
      var d := m1.tabs[Node(p, L4)];
      && d in used && d < |counts| && counts[d] == 1
      && Counted(WithoutProcess(m1, p), used - {d}, counts[d := 0], boot)
  {
    var m2 := WithoutProcess(m1, p);
    forall k, g ensures Names(m2.procs, k, g) <==> Names(m1.procs, k, g) {}
    forall g ensures Refs(m2.procs, g) == Refs(m1.procs, g) { SameRefs(m1.procs, m2.procs, g); }
  }

  /** free_page(p) */
  function WithoutTask(m2: Snap, task: nat): Snap {
    m2.(owner := m2.owner - {task})
  }

  lemma TaskReleased(m2: Snap, p: nat, task: nat, used: set<nat>, counts: seq<int>, boot: nat)
    requires Counted(m2, used, counts, boot) && task in m2.owner && m2.owner[task] == TaskFrame(p)
    ensures task in used && task < |counts| && counts[task] == 1
    ensures Counted(WithoutTask(m2, task), used - {task}, counts[task := 0], boot)
    ensures MemoryOk(m2) ==> MemoryOk(WithoutTask(m2, task)) && Flat(WithoutTask(m2, task)) == Flat(m2)
  {
    hide MemoryOk, Flat;
    CountedRelease(m2, WithoutTask(m2, task), task, used, counts, boot);
    assert SameUserFrames(m2, WithoutTask(m2, task));
    if MemoryOk(m2) { OtherFrames(m2, WithoutTask(m2, task)); }
  }

  /** The task structures after one of them is gone. */
  function WithoutPid(t: Tasks, p: nat): Tasks {
    Tasks(t.areas - {p}, t.dirs - {p}, t.frames - {p}, t.nextPid)
  }

  lemma ExitFields(m: Snap, m1: Snap, t: Tasks, boot: nat, kernel: map<nat, int>, p: nat)
    requires FieldsOk(m, t, boot, kernel) && p in m.procs && p != 1
    requires Node(p, L4) in m1.tabs && m1.tabs[Node(p, L4)] in m1.owner
    requires m1.owner[m1.tabs[Node(p, L4)]] == TableFrame(Node(p, L4))
    requires m1.procs == m.procs[p := m.procs[p].(table := map[])]
    requires OthersTables(m.tabs, m1.tabs, p)
    requires forall f :: f in m1.owner ==> f in m.owner && m1.owner[f] == m.owner[f]
    requires forall f :: f in m.owner && (m.owner[f].TaskFrame? || m.owner[f].KernelFrame?) ==> f in m1.owner
    ensures p in t.frames && t.frames[p] in WithoutProcess(m1, p).owner
    ensures WithoutProcess(m1, p).owner[t.frames[p]] == TaskFrame(p)
    ensures FieldsOk(WithoutTask(WithoutProcess(m1, p), t.frames[p]), WithoutPid(t, p), boot, kernel)
    ensures OthersTables(m.tabs, WithoutTask(WithoutProcess(m1, p), t.frames[p]).tabs, p)
  {
    ExitFrames(m, m1, t, boot, kernel, p);
    var m3 := WithoutTask(WithoutProcess(m1, p), t.frames[p]);
    forall q | q in m3.procs ensures TaskOk(m3, WithoutPid(t, p), q) {
      assert TaskOk(m, t, q);
      ExitTask(m, m1, t, p, q);
    }
  }

  lemma ExitFrames(m: Snap, m1: Snap, t: Tasks, boot: nat, kernel: map<nat, int>, p: nat)
    requires FieldsOk(m, t, boot, kernel) && p in m.procs && p != 1
    requires Node(p, L4) in m1.tabs && m1.tabs[Node(p, L4)] in m1.owner
    requires m1.owner[m1.tabs[Node(p, L4)]] == TableFrame(Node(p, L4))
    requires forall f :: f in m1.owner ==> f in m.owner && m1.owner[f] == m.owner[f]
    requires forall f :: f in m.owner && (m.owner[f].TaskFrame? || m.owner[f].KernelFrame?) ==> f in m1.owner
    ensures p in t.frames && t.frames[p] in WithoutProcess(m1, p).owner
    ensures WithoutProcess(m1, p).owner[t.frames[p]] == TaskFrame(p)
    ensures
      var m3 := WithoutTask(WithoutProcess(m1, p), t.frames[p]);
      && (forall f :: f in m3.owner && m3.owner[f].TaskFrame? ==>
           m3.owner[f].pid in t.frames && m3.owner[f].pid != p && t.frames[m3.owner[f].pid] == f)
      && (forall f :: f in kernel <==> f in m3.owner && m3.owner[f].KernelFrame?)
      && (forall f :: f in kernel ==> m3.owner[f].count == kernel[f])
  {
    assert TaskOk(m, t, p);
  }

  lemma ExitTask(m: Snap, m1: Snap, t: Tasks, p: nat, q: nat)
    requires TaskOk(m, t, q) && q != p && p in t.frames && p in m.procs
    requires Node(p, L4) in m1.tabs && m1.tabs[Node(p, L4)] in m1.owner
    requires m1.owner[m1.tabs[Node(p, L4)]] == TableFrame(Node(p, L4))
    requires m1.procs == m.procs[p := m.procs[p].(table := map[])]
    requires OthersTables(m.tabs, m1.tabs, p)
    requires forall f :: f in m1.owner ==> f in m.owner && m1.owner[f] == m.owner[f]
    requires forall f :: f in m.owner && (m.owner[f].TaskFrame? || m.owner[f].KernelFrame?) ==> f in m1.owner
    requires t.frames[p] in m.owner && m.owner[t.frames[p]] == TaskFrame(p)
    ensures TaskOk(WithoutTask(WithoutProcess(m1, p), t.frames[p]), WithoutPid(t, p), q)
  {
  }

  /** The state in which sys_exit leaves memory, once the next task runs. */
  function Exited(m1: Snap, t: Tasks, p: nat): Snap
    requires Node(p, L4) in m1.tabs && p in t.frames
  {
    WithoutTask(WithoutProcess(m1, p), t.frames[p])
  }

  /** An area list that free_mm has emptied goes away with its task. */
  lemma ExitSame(m1: Snap, t: Tasks, p: nat)
    requires Node(p, L4) in m1.tabs && p in t.frames
    ensures
      var t1 := t.(areas := t.areas[p := []]);
      Exited(m1, t1, p) == Exited(m1, t, p) && WithoutPid(t1, p) == WithoutPid(t, p)
  {
    assert t.areas[p := []] - {p} == t.areas - {p};
  }

  /** sys_exit as a whole. */
  lemma ExitDone(m: Snap, m1: Snap, t: Tasks, boot: nat, kernel: map<nat, int>, p: nat, f: nat, used: set<nat>,
      counts: seq<int>)
    requires MemoryOk(m) && FieldsOk(m, t, boot, kernel) && p in m.procs && p != 1
    requires f !in m.owner || m.owner[f] != DataFrame
    requires FT.FreedTo(m, m1, p, L4, 256) && FT.Freeing(m1, p) && Counted(m1, used, counts, boot)
    ensures Node(p, L4) in m1.tabs && p in t.dirs && t.dirs[p] == m1.tabs[Node(p, L4)] && p in t.frames
    ensures t.dirs[p] < |counts| && t.frames[p] < |counts|
    ensures t.dirs[p] in used && t.frames[p] in used && t.dirs[p] != t.frames[p]
    ensures counts[t.dirs[p]] == 1 && counts[t.frames[p]] == 1
    ensures
      var m3 := Exited(m1, t, p);
      && MemoryOk(m3) && FieldsOk(m3, WithoutPid(t, p), boot, kernel)
      && Counted(m3, used - {t.dirs[p]} - {t.frames[p]}, counts[t.dirs[p] := 0][t.frames[p] := 0], boot)
      && Steps(Flat(m), E.Exit(p), f, Flat(m3), E.Done)
      && OthersTables(m.tabs, m3.tabs, p)
      && m3.procs == m.procs - {p}
  {
    hide MemoryOk, FieldsOk, Counted, Flat, Steps, OthersTables, FT.FreedTo, FT.Freeing, WithoutProcess, WithoutTask;
    TaskFacts(m, t, boot, kernel, p);
    FreeDone(m, m1, p);
    ExitMemoryOk(m, m1, p);
    ExitFields(m, m1, t, boot, kernel, p);
    CountedTop(m1, p, used, counts, boot);
    TaskReleased(WithoutProcess(m1, p), p, t.frames[p], used - {t.dirs[p]}, counts[t.dirs[p] := 0], boot);
    ExitProcs(m, m1, t, p);
    ExitIsStep(m, p, f);
  }

  lemma TaskFacts(m: Snap, t: Tasks, boot: nat, kernel: map<nat, int>, p: nat)
    requires FieldsOk(m, t, boot, kernel) && p in m.procs
    ensures p in t.dirs && p in t.frames && p in t.areas && Node(p, L4) in m.tabs
    ensures t.dirs[p] == m.tabs[Node(p, L4)] && t.areas[p] == m.procs[p].areas
  {
    assert TaskOk(m, t, p);
  }

  lemma ExitProcs(m: Snap, m1: Snap, t: Tasks, p: nat)
    requires Node(p, L4) in m1.tabs && p in t.frames && p in m.procs
    requires m1.procs == m.procs[p := m.procs[p].(table := map[])]
    ensures Exited(m1, t, p).procs == m.procs - {p}
  {
  }

  lemma ExitIsStep(m: Snap, p: nat, f: nat)
    requires MemoryOk(m) && p in m.procs && p != 1 && (f !in m.owner || m.owner[f] != DataFrame)
    ensures Steps(Flat(m), E.Exit(p), f, FreeStep(Flat(m), p), E.Done)
  {
    hide Inv, FreeStep;
    FlatFacts(m, p);
  }

  // ----- exec

  lemma ExecFields(m: Snap, m1: Snap, t: Tasks, boot: nat, kernel: map<nat, int>, p: nat, areas: seq<Area>)
    requires FieldsOk(m, t, boot, kernel) && p in m.procs
    requires Node(p, L4) in m1.tabs && m1.tabs[Node(p, L4)] == (if Node(p, L4) in m.tabs then m.tabs[Node(p,
        L4)] else 0)
    requires m1.tabs[Node(p, L4)] in m1.mem && m1.mem[m1.tabs[Node(p, L4)]].TableOf?
    requires m1.procs == m.procs[p := m.procs[p].(table := map[])]
    requires OthersTables(m.tabs, m1.tabs, p)
    requires forall f :: f in m1.owner ==> f in m.owner && m1.owner[f] == m.owner[f]
    requires forall f :: f in m.owner && (m.owner[f].TaskFrame? || m.owner[f].KernelFrame?) ==> f in m1.owner
    ensures FieldsOk(WithProgram(m1, p, areas), t.(areas := t.areas[p := areas]), boot, kernel)
    ensures OthersTables(m.tabs, WithProgram(m1, p, areas).tabs, p)
  {
    var m2 := WithProgram(m1, p, areas);
    var t2 := t.(areas := t.areas[p := areas]);
    assert TaskOk(m, t, p);
    forall q | q in m2.procs ensures TaskOk(m2, t2, q) {
      assert TaskOk(m, t, q);
      ExecTask(m, m1, t, p, areas, q);
    }
    hide TaskOk, WithProgram;
    ExecRest(m, m2, t, boot, kernel, p, areas);
  }

  lemma ExecTask(m: Snap, m1: Snap, t: Tasks, p: nat, areas: seq<Area>, q: nat)
    requires TaskOk(m, t, q) && p in m.procs && Node(p, L4) in m.tabs
    requires Node(p, L4) in m1.tabs && m1.tabs[Node(p, L4)] == m.tabs[Node(p, L4)]
    requires m1.tabs[Node(p, L4)] in m1.mem && m1.mem[m1.tabs[Node(p, L4)]].TableOf?
    requires m1.procs == m.procs[p := m.procs[p].(table := map[])]
    requires OthersTables(m.tabs, m1.tabs, p)
    requires forall f :: f in m1.owner ==> f in m.owner && m1.owner[f] == m.owner[f]
    requires forall f :: f in m.owner && (m.owner[f].TaskFrame? || m.owner[f].KernelFrame?) ==> f in m1.owner
    ensures TaskOk(WithProgram(m1, p, areas), t.(areas := t.areas[p := areas]), q)
  {
  }

  lemma ExecRest(m: Snap, m2: Snap, t: Tasks, boot: nat, kernel: map<nat, int>, p: nat, areas: seq<Area>)
    requires FieldsOk(m, t, boot, kernel) && p in m.procs && m2.procs.Keys == m.procs.Keys
    requires Node(1, L4) in m2.tabs && m2.tabs[Node(1, L4)] == boot
    requires forall f :: f in m2.owner ==> f in m.owner && m2.owner[f] == m.owner[f]
    requires forall f :: f in m.owner && (m.owner[f].TaskFrame? || m.owner[f].KernelFrame?) ==> f in m2.owner
    requires
      var t2 := t.(areas := t.areas[p := areas]);
      forall q {:trigger TaskOk(m2, t2, q)} :: q in m2.procs ==> TaskOk(m2, t2, q)
    ensures FieldsOk(m2, t.(areas := t.areas[p := areas]), boot, kernel)
  {
    hide TaskOk;
  }


  lemma ExecCounted(m1: Snap, p: nat, areas: seq<Area>, used: set<nat>, counts: seq<int>, boot: nat)
    requires Counted(m1, used, counts, boot) && p in m1.procs && m1.procs[p].table == map[]
    requires Node(p, L4) in m1.tabs && m1.tabs[Node(p, L4)] in m1.mem && m1.mem[m1.tabs[Node(p, L4)]].TableOf?
    ensures Counted(WithProgram(m1, p, areas), used, counts, boot)
  {
    var m2 := WithProgram(m1, p, areas);
    forall k, g ensures Names(m2.procs, k, g) <==> Names(m1.procs, k, g) {}
    forall g ensures Refs(m2.procs, g) == Refs(m1.procs, g) { SameRefs(m1.procs, m2.procs, g); }
  }

  /** sys_exec as a whole, for the areas the loader builds. */
  lemma ExecDone(m: Snap, m1: Snap, t: Tasks, boot: nat, kernel: map<nat, int>, p: nat, areas: seq<Area>, f: nat,
      used: set<nat>, counts: seq<int>)
    requires MemoryOk(m) && FieldsOk(m, t, boot, kernel) && p in m.procs && AreasOk(areas)
    requires f !in m.owner || m.owner[f] != DataFrame
    requires FT.FreedTo(m, m1, p, L4, 256) && FT.Freeing(m1, p) && Counted(m1, used, counts, boot)
    ensures Node(p, L4) in m1.tabs && p in t.dirs && t.dirs[p] == m1.tabs[Node(p, L4)]
    ensures m1.tabs[Node(p, L4)] in m1.mem && m1.mem[m1.tabs[Node(p, L4)]].TableOf?
    ensures
      var m2 := WithProgram(m1, p, areas);
      && MemoryOk(m2) && FieldsOk(m2, t.(areas := t.areas[p := areas]), boot, kernel)
      && Counted(m2, used, counts, boot)
      && Steps(Flat(m), E.Exec(p, areas), f, Flat(m2), E.Done)
      && OthersTables(m.tabs, m2.tabs, p)
      && m2.procs == m.procs[p := Process(areas, map[])]
      && (forall f :: f in m2.owner ==> f in m.owner)
  {
    hide MemoryOk, FieldsOk, Counted, Flat, Steps, OthersTables, FT.FreedTo, FT.Freeing, WithProgram;
    TaskFacts(m, t, boot, kernel, p);
    FreeDone(m, m1, p);
    ExecMemoryOk(m, m1, p, areas);
    ExecFields(m, m1, t, boot, kernel, p, areas);
    ExecCounted(m1, p, areas, used, counts, boot);
    ExecIsStep(m, p, areas, f);
    ExecProcs(m, m1, p, areas);
  }

  lemma ExecProcs(m: Snap, m1: Snap, p: nat, areas: seq<Area>)
    requires Node(p, L4) in m1.tabs && m1.tabs[Node(p, L4)] in m1.mem && m1.mem[m1.tabs[Node(p, L4)]].TableOf?
    requires p in m.procs && m1.procs == m.procs[p := m.procs[p].(table := map[])]
    ensures WithProgram(m1, p, areas).procs == m.procs[p := Process(areas, map[])]
    ensures WithProgram(m1, p, areas).owner == m1.owner
  {
  }

  /** A process that maps nothing agrees only with an empty translation cache. */
  lemma NothingCached(m: Snap, p: nat, tlb: map<PageIx, Leaf>)
    requires p in m.procs && m.procs[p].table == map[]
    ensures (forall pg :: pg in tlb ==> LeafAt(m, p, pg) == Some(tlb[pg])) <==> tlb == map[]
  {
    if tlb != map[] {
      var pg :| pg in tlb;
      assert LeafAt(m, p, pg) == None;
    }
  }

  lemma ExecIsStep(m: Snap, p: nat, areas: seq<Area>, f: nat)
    requires MemoryOk(m) && p in m.procs && AreasOk(areas) && (f !in m.owner || m.owner[f] != DataFrame)
    ensures
      var t := FreeStep(Flat(m), p);
      Steps(Flat(m), E.Exec(p, areas), f, t.(procs := t.procs[p := Process(areas, map[])]), E.Done)
  {
    hide Inv, FreeStep;
    FlatFacts(m, p);
  }
}
