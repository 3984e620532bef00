/** Whole runs of the kernel as user code sees them: a recorder around the machine keeps what has
    happened and what was observed, and shows that the observations are those of the machine
    without pages in `LastWrite`. */
module Session {
  import opened Memory
  import opened FrameAllocator
  import opened Areas
  import E = EagerFork
  import L = LastWrite
  import opened LastStore
  import Elf
  import opened SharedPages
  import opened PageTables
  import opened Abstraction
  import opened Isolation
  import opened KernelFacts
  import opened Kernel

  /** Only one eager world fits a sharing state. */
  lemma SimIsCopied(s: State, w: E.World)
    requires Grounded(s) && Sim(s, w)
    ensures w == Copied(s)
  {
    forall p | p in w ensures w[p] == Copied(s)[p] {
      assert SimProcess(s.procs[p], s.data, w[p]);
      assert w[p].pages == Copied(s)[p].pages;
    }
  }

  /** The state `s` is one that the recorded run leads to, and every outcome was the right one. */
  ghost predicate Recorded(start: L.World, evs: seq<E.Event>, outs: seq<E.Outcome>, s: State) {
    && L.WorldOk(start) && L.RunEnabled(start, evs)
    && L.Run(start, evs).outcomes == outs && E.Halt !in outs
    && Inv(s) && L.Agree(Copied(s), L.Run(start, evs).final)
  }

  ghost predicate Observed(start: L.World, evs: seq<E.Event>, outs: seq<E.Outcome>) {
    L.WorldOk(start) && L.RunEnabled(start, evs) && L.Run(start, evs).outcomes == outs
  }

  /** One more step of the kernel is one more step of the recorded run. */
  lemma RecordStep(start: L.World, evs: seq<E.Event>, outs: seq<E.Outcome>, s: State, ev: E.Event, f: nat, t: State,
      o: E.Outcome)
    requires Recorded(start, evs, outs, s) && Steps(s, ev, f, t, o)
    ensures Observed(start, evs + [ev], outs + [o])
    ensures !o.Halt? ==> Recorded(start, evs + [ev], outs + [o], t)
  {
    hide Step, E.Step, L.Step, Sim, Grounded, NoOrphans, Exclusive, ProcessOk, L.Run, L.RunEnabled, Copied, E.WorldOk,
        L.WorldOk, L.Sees;
    var w := Copied(s);
    CopiedIsSim(s);
    StepSim(s, ev, f, w);
    StepOk(s, ev, f);
    var l := L.Run(start, evs).final;
    RunAppend(start, evs, ev);
    L.StepAgrees(w, l, ev);
    SimIsCopied(t, E.Step(w, ev).0);
  }

  lemma RecordBoot(m: Snap)
    requires MemoryOk(m) && m.procs == map[1 := Process([], map[])]
    ensures Recorded(BootWorld(), [], [], Flat(m)) && Observed(BootWorld(), [], [])
  {
    hide TreeOk, TopsAgree, DataFramesHoldData;
    L.FreshSees([]);
    assert Copied(Flat(m))[1].pages == map[];
  }

  lemma RecordedIsObserved(evs: seq<E.Event>, outs: seq<E.Outcome>, s: State)
    requires Recorded(BootWorld(), evs, outs, s)
    ensures Observed(BootWorld(), evs, outs)
  {
  }

  class Recorder {
    const k: Machine
    ghost var events: seq<E.Event>
    ghost var outcomes: seq<E.Outcome>

    /** Everything observed so far is what the machine without pages shows. */
    ghost predicate Faithful()
      reads this
    {
      Observed(BootWorld(), events, outcomes)
    }

    ghost predicate Valid()
      reads this, k, k.pmm, k.pmm.bitmap, k.pmm.pages
    {
      k.Consistent() && Recorded(BootWorld(), events, outcomes, Flat(k.Now()))
    }

    constructor (k: Machine)
      requires k.Valid() && k.procs == map[1 := Process([], map[])]
      ensures Valid() && Faithful() && events == [] && outcomes == [] && this.k == k
    {
      hide MemoryOk, Flat, FieldsOk, Recorded, Machine.BooksOk, Machine.Coherent, Observed;
      this.k := k;
      events := [];
      outcomes := [];
      new;
      RecordBoot(k.Now());
    }

    /** A load. If there are not enough frames for the page the kernel stops, and user code observes
        nothing any more. */
    method Load(addr: nat) returns (r: E.Outcome)
      requires Valid() && k.Coherent() && k.current in k.procs && addr < MEM_BOTTOM_HALF
      modifies this, k`mem, k`tabs, k`procs, k`owner, k`tlb, k`halted
      modifies k.pmm`memused, k.pmm`used, k.pmm.bitmap, k.pmm.pages
      ensures if old(k.FramesFor(addr, false) <= |k.pmm.Free()|)
        then events == old(events) + [E.Load(k.current, addr)] && outcomes == old(outcomes) + [r]
        else k.halted && events == old(events) && outcomes == old(outcomes)
      ensures Faithful() && (k.halted <==> r.Halt?)
      ensures !k.halted ==> Valid() && k.Coherent() && PageOf(addr) in k.tlb
    {
      hide MemoryOk, Flat, FieldsOk, Steps, Recorded, Machine.BooksOk, Machine.Coherent, Observed, Machine.FramesFor;
      ghost var f;
      ghost var s := Flat(k.Now());
      RecordedIsObserved(events, outcomes, s);
      r, f := k.Load(addr);
      if old(k.FramesFor(addr, false) <= |k.pmm.Free()|) {
        RecordStep(BootWorld(), events, outcomes, s, E.Load(k.current, addr), f,
            if k.halted then s else Flat(k.Now()), r);
        events, outcomes := events + [E.Load(k.current, addr)], outcomes + [r];
      }
    }

    /** A store. The copy of a shared page is made without a check that there is a frame for it. */
    method Store(addr: nat, v: byte) returns (r: E.Outcome)
      requires Valid() && k.Coherent() && k.current in k.procs && addr < MEM_BOTTOM_HALF
      requires k.Unchecked(addr, true) ==> k.pmm.Free() != {}
      modifies this, k`mem, k`tabs, k`procs, k`owner, k`tlb, k`halted
      modifies k.pmm`memused, k.pmm`used, k.pmm.bitmap, k.pmm.pages
      ensures if old(k.FramesFor(addr, true) <= |k.pmm.Free()|)
        then events == old(events) + [E.Store(k.current, addr, v)] && outcomes == old(outcomes) + [r]
        else k.halted && events == old(events) && outcomes == old(outcomes)
      ensures Faithful() && (k.halted <==> r.Halt?)
      ensures !k.halted ==> Valid() && k.Coherent() && PageOf(addr) in k.tlb
    {
      hide MemoryOk, Flat, FieldsOk, Steps, Recorded, Machine.BooksOk, Machine.Coherent, Observed, Machine.FramesFor,
          Machine.Unchecked;
      ghost var f;
      ghost var s := Flat(k.Now());
      RecordedIsObserved(events, outcomes, s);
      r, f := k.Store(addr, v);
      if old(k.FramesFor(addr, true) <= |k.pmm.Free()|) {
        RecordStep(BootWorld(), events, outcomes, s, E.Store(k.current, addr, v), f,
            if k.halted then s else Flat(k.Now()), r);
        events, outcomes := events + [E.Store(k.current, addr, v)], outcomes + [r];
      }
    }

    /** A fork. With one free frame sys_fork returns -ENOMEM and leaves a freed task structure in
        the task list; from there on nothing is claimed. */
    method Fork() returns (code: int)
      requires Valid() && k.Coherent() && k.current in k.procs && |k.pmm.Free()| >= 2
      modifies this, k`mem, k`areas, k`dirs, k`tasks, k`nextPid, k`tabs, k`procs, k`owner, k`tlb, k`halted
      modifies k.pmm`memused, k.pmm`used, k.pmm.bitmap, k.pmm.pages
      ensures k.halted <==>
        old(k.nextPid) >= 0x8000_0000 || old(|k.pmm.Free()|) <= old(|TablesOf(k.tabs, k.current)|)
      ensures Faithful()
      ensures k.halted ==> events == old(events) && outcomes == old(outcomes)
      ensures !k.halted ==>
        && code == old(k.nextPid) && Valid() && k.Coherent()
        && events == old(events) + [E.Fork(k.current, code)] && outcomes == old(outcomes) + [E.Done]
    {
      hide MemoryOk, Flat, FieldsOk, Steps, Recorded, Machine.BooksOk, Machine.Coherent, Observed, TablesOf,
          FrameAllocator.Free;
      ghost var s := Flat(k.Now());
      RecordedIsObserved(events, outcomes, s);
      assert k.pmm.Free() != {};
      code := k.Fork();
      if !k.halted {
        RecordStep(BootWorld(), events, outcomes, s, E.Fork(k.current, code), k.boot, Flat(k.Now()), E.Done);
        events, outcomes := events + [E.Fork(k.current, code)], outcomes + [E.Done];
      }
    }

    /** The kernel takes a frame for itself. */
    method GrowKernel() returns (f: nat)
      requires Valid() && k.Coherent()
      modifies k`owner, k`kernel, k.pmm`memused, k.pmm`used, k.pmm.bitmap, k.pmm.pages
      ensures Valid() && k.Coherent() && Faithful()
    {
      hide MemoryOk, Flat, FieldsOk, Recorded, Machine.BooksOk, Machine.Coherent, Observed;
      RecordedIsObserved(events, outcomes, Flat(k.Now()));
      f := k.GrowKernel();
    }

    method Exit(next: nat)
      requires Valid() && k.current in k.procs && k.current != 1
      requires next != k.current && (next in k.procs || next == 0)
      modifies this, k`areas, k`dirs, k`tasks, k`tabs, k`procs, k`owner, k`current, k`tlb
      modifies k.pmm`memused, k.pmm`used, k.pmm.bitmap, k.pmm.pages
      ensures events == old(events) + [E.Exit(old(k.current))] && outcomes == old(outcomes) + [E.Done]
      ensures Faithful() && Valid() && k.Coherent()
    {
      hide MemoryOk, Flat, FieldsOk, Steps, Recorded, Machine.BooksOk, Machine.Coherent, Observed;
      ghost var s, p := Flat(k.Now()), k.current;
      k.Exit(next);
      RecordStep(BootWorld(), events, outcomes, s, E.Exit(p), k.boot, Flat(k.Now()), E.Done);
      events, outcomes := events + [E.Exit(p)], outcomes + [E.Done];
    }

    method Exec(program: seq<Area>)
      requires Valid() && k.current in k.procs && AreasOk(program)
      modifies this, k`mem, k`areas, k`tabs, k`procs, k`owner
      modifies k.pmm`memused, k.pmm`used, k.pmm.bitmap, k.pmm.pages
      ensures events == old(events) + [E.Exec(k.current, program)] && outcomes == old(outcomes) + [E.Done]
      ensures Faithful() && Valid() && (k.Coherent() <==> k.tlb == map[])
      ensures old(k.pmm.Free()) <= k.pmm.Free()
    {
      hide MemoryOk, Flat, FieldsOk, Steps, Recorded, Machine.BooksOk, Machine.Coherent, Observed;
      ghost var s := Flat(k.Now());
      k.Exec(program);
      RecordStep(BootWorld(), events, outcomes, s, E.Exec(k.current, program), k.boot, Flat(k.Now()), E.Done);
      events, outcomes := events + [E.Exec(k.current, program)], outcomes + [E.Done];
    }

    /** sys_exec of an ELF file: free the old program, load the new one. What user code finds from
        here on is the image of the file. */
    method ExecElf(f: File, room: nat -> bool) returns (status: Elf.Status)
      requires Valid() && k.current in k.procs
      modifies this, k`mem, k`areas, k`tabs, k`procs, k`owner, k`halted
      modifies k.pmm`memused, k.pmm`used, k.pmm.bitmap, k.pmm.pages
      ensures status == Elf.Load(f, room).status && (k.halted <==> status.Halt?)
      ensures !status.Halt? ==>
        && events == old(events) + [E.Exec(k.current, Elf.Load(f, room).areas)]
        && Faithful() && Valid() && (k.Coherent() <==> k.tlb == map[])
    {
      hide Elf.Load, Machine.Coherent, Observed, Recorded, MemoryOk, FieldsOk, Machine.BooksOk;
      var list := new AreaList();
      status := Elf.DoExecElf(list, f, room);
      if status.Halt? {
        k.halted := true;
        return;
      }
      Exec(list.items);
    }

    /** A context switch is not visible in memory. */
    method Switch(next: nat)
      requires Valid() && Faithful() && (next in k.procs || next == 0)
      modifies k`current, k`tlb
      ensures events == old(events) && outcomes == old(outcomes)
      ensures Faithful() && Valid() && (next != old(k.current) ==> k.Coherent())
    {
      hide MemoryOk, Flat, FieldsOk, Recorded, Machine.BooksOk, Machine.Coherent, Observed;
      k.Switch(next);
    }
  }

  /** A program with one page, readable and writable. */
  function OnePage(): (s: seq<Area>)
    ensures AreasOk(s)
  {
    [Area(0, PAGE_SIZE, Prot(true, true, true), None, 0)]
  }

  /** Exec of that program and a load of its first byte: the load is served. */
  lemma FirstByte(outs: seq<E.Outcome>)
    requires |outs| == 2 && Observed(BootWorld(), [E.Exec(1, OnePage()), E.Load(1, 0)], outs)
    ensures outs[1] == E.Byte(0)
  {
    hide L.Allowed, AreasOk, L.ReadAt, L.WorldOk;
    var w := BootWorld();
    var exec, load := E.Exec(1, OnePage()), E.Load(1, 0);
    var v := L.Step(w, exec).0;
    assert [exec, load][1..] == [load] && [load][1..] == [];
    FirstLoad(v[1]);
    var (u, o) := L.Step(v, load);
    assert o == E.Byte(0);
    assert L.Run(u, []) == L.Trace([], u);
    assert L.Run(v, [load]).outcomes == [o];
  }

  lemma FirstLoad(q: L.Process)
    requires q == L.Process(OnePage(), {}, map[])
    ensures AreasOk(q.areas) && L.Allowed(q, 0, false) && L.ReadAt(q, 0) == 0
  {
    assert FindArea(OnePage(), 0) == Some(OnePage()[0]);
  }

  /** The state after sys_exec of which `Machine.Exec` speaks is reached from boot: exec, one load,
      exec. The processor then still holds a translation of the old program. */
  method StaleTranslation(k: Machine) returns (rec: Recorder)
    requires k.Valid() && k.current == 1 && k.procs == map[1 := Process([], map[])] && k.tlb == map[]
    requires |k.pmm.Free()| >= 4
    modifies k, k.pmm`memused, k.pmm`used, k.pmm.bitmap, k.pmm.pages
    ensures rec.k == k && rec.Valid() && rec.Faithful() && !k.Coherent()
  {
    hide MemoryOk, Flat, FieldsOk, Recorded, Machine.BooksOk, Machine.Coherent, Observed, L.Run, L.RunEnabled;
    hide FrameAllocator.Free, Machine.FramesFor;
    rec := new Recorder(k);
    ghost var free := k.pmm.Free();
    rec.Exec(OnePage());
    SubsetCard(free, k.pmm.Free());
    AtMostFour(k, 0, false);
    var r := rec.Load(0);
    assert rec.events == [E.Exec(1, OnePage()), E.Load(1, 0)];
    FirstByte(rec.outcomes);
    rec.Exec([]);
  }
}
