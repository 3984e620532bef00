/** Runs read backwards: what a load returns, from the list of the events alone. */
module LastStore {
  import opened Memory
  import opened Areas
  import E = EagerFork
  import opened LastWrite

  /** Boot: process 1, with nothing mapped. */
  function BootWorld(): (w: World)
    ensures WorldOk(w)
  {
    map[1 := Process([], {}, map[])]
  }

  lemma {:induction false} RunAppend(w: World, evs: seq<E.Event>, ev: E.Event)
    requires WorldOk(w) && RunEnabled(w, evs) && E.Halt !in Run(w, evs).outcomes
    requires E.Enabled(Run(w, evs).final.Keys, ev)
    ensures WorldOk(Run(w, evs).final)
    ensures RunEnabled(w, evs + [ev])
    ensures
      var before := Run(w, evs);
      var (w', o) := Step(before.final, ev);
      Run(w, evs + [ev]) == Trace(before.outcomes + [o], if o.Halt? then before.final else w')
    decreases |evs|
  {
    if evs == [] {
      assert evs + [ev] == [ev];
      assert [ev][1..] == [];
      var (w', o) := Step(w, ev);
      assert RunEnabled(w', []);
    } else {
      var (w', o) := Step(w, evs[0]);
      var rest := Run(w', evs[1..]);
      assert Run(w, evs).outcomes == [o] + rest.outcomes;
      assert o in [o] + rest.outcomes;
      assert forall x :: x in rest.outcomes ==> x in [o] + rest.outcomes;
      RunAppend(w', evs[1..], ev);
      assert (evs + [ev])[1..] == evs[1..] + [ev];
      var (v, q) := Step(rest.final, ev);
      assert [o] + (rest.outcomes + [q]) == [o] + rest.outcomes + [q];
    }
  }

  /** Every outcome of a run is that of its event after the events before it, none of which halted. */
  lemma {:induction false} RunPrefix(w: World, evs: seq<E.Event>, i: nat)
    requires WorldOk(w) && RunEnabled(w, evs) && i < |Run(w, evs).outcomes|
    ensures |Run(w, evs).outcomes| <= |evs|
    ensures RunEnabled(w, evs[..i]) && E.Halt !in Run(w, evs[..i]).outcomes
    ensures
      var u := Run(w, evs[..i]).final;
      WorldOk(u) && E.Enabled(u.Keys, evs[i]) && Run(w, evs).outcomes[i] == Step(u, evs[i]).1
    decreases |evs|
  {
    RunLength(w, evs);
    var (w', o) := Step(w, evs[0]);
    if i == 0 {
      assert evs[..0] == [];
    } else {
      assert !o.Halt?;
      RunPrefix(w', evs[1..], i - 1);
      assert evs[..i][1..] == evs[1..][..i - 1] && evs[..i][0] == evs[0];
    }
  }

  lemma {:induction false} RunLength(w: World, evs: seq<E.Event>)
    requires WorldOk(w) && RunEnabled(w, evs)
    ensures |Run(w, evs).outcomes| <= |evs|
    ensures E.Halt !in Run(w, evs).outcomes ==> |Run(w, evs).outcomes| == |evs|
    decreases |evs|
  {
    if evs != [] {
      var (w', o) := Step(w, evs[0]);
      if !o.Halt? {
        RunLength(w', evs[1..]);
        var rest := Run(w', evs[1..]).outcomes;
        assert forall x :: x in rest ==> x in [o] + rest;
      } else {
        assert E.Halt in [E.Halt];
      }
    }
  }

  /** The events that made the memory of p: its own and, before it was forked, those of the process
      it was forked from, from the last exec on. */
  function Past(evs: seq<E.Event>, p: nat): seq<E.Event>
    decreases |evs|
  {
    if evs == [] then []
    else
      var before, ev := evs[..|evs| - 1], evs[|evs| - 1];
      match ev
      case Fork(q, c) => Past(before, if c == p then q else p)
      case Exec(q, _) => if q == p then [ev] else Past(before, p)
      case _ => if ev.pid == p then Past(before, p) + [ev] else Past(before, p)
  }

  /** The areas of the program whose events these are. */
  function Program(past: seq<E.Event>): seq<Area> {
    if past != [] && past[0].Exec? then past[0].areas else []
  }

  predicate Touches(ev: E.Event, pg: PageIx) {
    (ev.Fault? || ev.Load? || ev.Store?) && PageOf(ev.addr) == pg
  }

  predicate StoresTo(ev: E.Event, addr: nat) { ev.Store? && ev.addr == addr }

  /** The i-th event is the last store to the address. */
  predicate LastStoreAt(past: seq<E.Event>, addr: nat, i: nat) {
    i < |past| && StoresTo(past[i], addr) && forall j :: i < j < |past| ==> !StoresTo(past[j], addr)
  }

  /** The memory of a process is what these events make. */
  ghost predicate MadeBy(q: Process, past: seq<E.Event>) {
    && q.areas == Program(past)
    && (forall pg: PageIx :: pg in q.touched <==> exists ev :: ev in past && Touches(ev, pg))
    && (forall addr: nat :: (addr in q.written <==> exists ev :: ev in past && StoresTo(ev, addr)))
    && (forall addr: nat, i: nat :: LastStoreAt(past, addr, i) ==>
         addr in q.written && q.written[addr] == past[i].value)
  }

  lemma MadeStep(q: Process, past: seq<E.Event>, ev: E.Event)
    requires MadeBy(q, past) && (ev.Fault? || ev.Load? || ev.Store?)
    ensures
      var q' := Touched(q, ev.addr);
      MadeBy(if ev.Store? then q'.(written := q'.written[ev.addr := ev.value]) else q', past + [ev])
  {
    var q' := Touched(q, ev.addr);
    var r := if ev.Store? then q'.(written := q'.written[ev.addr := ev.value]) else q';
    var next := past + [ev];
    assert ev in next;
    assert forall e :: e in next <==> e in past || e == ev;
    forall pg: PageIx ensures pg in r.touched <==> exists e :: e in next && Touches(e, pg) {
      if e :| e in next && Touches(e, pg) { assert e in past || e == ev; }
      if e :| e in past && Touches(e, pg) { assert e in next; }
    }
    forall addr: nat ensures addr in r.written <==> exists e :: e in next && StoresTo(e, addr) {
      if e :| e in next && StoresTo(e, addr) { assert e in past || e == ev; }
      if e :| e in past && StoresTo(e, addr) { assert e in next; }
    }
    forall addr: nat, i: nat | LastStoreAt(next, addr, i)
      ensures addr in r.written && r.written[addr] == next[i].value
    {
      if i < |past| {
        assert !StoresTo(next[|past|], addr);
        assert forall j :: i < j < |past| ==> past[j] == next[j];
        assert LastStoreAt(past, addr, i);
      }
    }
  }

  lemma MadeExec(p: nat, areas: seq<Area>)
    ensures MadeBy(Process(areas, {}, map[]), [E.Exec(p, areas)])
  {
  }

  lemma MadeAtBoot()
    ensures MadeBy(BootWorld()[1], []) && TouchedOk(BootWorld()[1])
  {
  }

  ghost predicate AllMadeBy(w: World, evs: seq<E.Event>) {
    forall p :: p in w ==> MadeBy(w[p], Past(evs, p))
  }

  lemma PastStep(w: World, evs: seq<E.Event>, ev: E.Event)
    requires WorldOk(w) && E.Enabled(w.Keys, ev) && AllMadeBy(w, evs) && !Step(w, ev).1.Halt?
    ensures AllMadeBy(Step(w, ev).0, evs + [ev])
  {
    hide MadeBy, Allowed;
    assert (evs + [ev])[..|evs|] == evs;
    if ev.Fault? || ev.Load? || ev.Store? {
      MadeStep(w[ev.pid], Past(evs, ev.pid), ev);
    } else if ev.Exec? {
      MadeExec(ev.pid, ev.areas);
    }
  }

  lemma {:induction false} RunMade(evs: seq<E.Event>)
    requires RunEnabled(BootWorld(), evs) && E.Halt !in Run(BootWorld(), evs).outcomes
    ensures WorldOk(Run(BootWorld(), evs).final)
    ensures AllMadeBy(Run(BootWorld(), evs).final, evs) && AllTouchedOk(Run(BootWorld(), evs).final)
    decreases |evs|
  {
    hide MadeBy, TouchedOk;
    var w := BootWorld();
    if evs == [] {
      MadeAtBoot();
    } else {
      var before, ev := evs[..|evs| - 1], evs[|evs| - 1];
      assert before + [ev] == evs;
      RunLength(w, evs);
      RunPrefix(w, evs, |before|);
      RunMade(before);
      var u := Run(w, before).final;
      RunAppend(w, before, ev);
      assert !Step(u, ev).1.Halt? by { assert Step(u, ev).1 in Run(w, evs).outcomes; }
      PastStep(u, before, ev);
      StepKeepsTouchedOk(u, ev);
    }
  }

  lemma AllowedHasByte(q: Process, addr: nat)
    requires AreasOk(q.areas) && TouchedOk(q) && addr < MEM_BOTTOM_HALF && Allowed(q, addr, false)
    ensures Image(q.areas, addr).Some?
  {
    if PageOf(addr) in q.touched {
      var write :| E.FirstTouch(q.areas, addr, write).Some?;
    }
  }

  /** What every load of every run from boot observes: the value of the last store to the address in
      the past of the process, or else the byte of its program's image. It is refused exactly if
      nothing in that past has touched the page and the areas do not let the load bring it in. */
  lemma LoadsObserve(evs: seq<E.Event>, i: nat, p: nat, addr: nat)
    requires RunEnabled(BootWorld(), evs) && i < |Run(BootWorld(), evs).outcomes| <= |evs|
    requires evs[i] == E.Load(p, addr)
    ensures
      var past := Past(evs[..i], p);
      var o := Run(BootWorld(), evs).outcomes[i];
      && AreasOk(Program(past))
      && (o.Halt? <==>
           (forall ev :: ev in past ==> !Touches(ev, PageOf(addr))) &&
           E.FirstTouch(Program(past), addr, false).None?)
      && (forall k: nat :: LastStoreAt(past, addr, k) && !o.Halt? ==> o == E.Byte(past[k].value))
      && ((forall ev :: ev in past ==> !StoresTo(ev, addr)) && !o.Halt? ==>
           Image(Program(past), addr).Some? && o == E.Byte(Image(Program(past), addr).value))
  {
    hide AreasOk, FindArea, InitialPage, Run, RunEnabled, TouchedOk;
    RunPrefix(BootWorld(), evs, i);
    RunMade(evs[..i]);
    var u := Run(BootWorld(), evs[..i]).final;
    assert MadeBy(u[p], Past(evs[..i], p));
    if Allowed(u[p], addr, false) { AllowedHasByte(u[p], addr); }
  }

  /** And every store is served exactly if the areas allow a write and have bytes for the page. */
  lemma StoresObserve(evs: seq<E.Event>, i: nat, p: nat, addr: nat, v: byte)
    requires RunEnabled(BootWorld(), evs) && i < |Run(BootWorld(), evs).outcomes| <= |evs|
    requires evs[i] == E.Store(p, addr, v)
    ensures
      var areas := Program(Past(evs[..i], p));
      var o := Run(BootWorld(), evs).outcomes[i];
      && AreasOk(areas)
      && o == if E.Writable(areas, addr) && Image(areas, addr).Some? then E.Done else E.Halt
  {
    hide AreasOk, FindArea, InitialPage, Run, RunEnabled, TouchedOk;
    RunPrefix(BootWorld(), evs, i);
    RunMade(evs[..i]);
    var u := Run(BootWorld(), evs[..i]).final;
    assert MadeBy(u[p], Past(evs[..i], p)) && u[p].areas == Program(Past(evs[..i], p));
    StoresIgnorePaging(u[p], addr);
  }
}
