/** What user code may rely on, without pages: a load returns the byte last stored at that address
    by the process or, before the fork, by an ancestor, and otherwise the byte of the program
    image. The eager machine, and through it the sharing machine, implements this. */
module LastWrite {
  import opened Memory
  import opened Areas
  import E = EagerFork

  /** `touched` are the pages that have been accessed, `written` the bytes that have been stored. */
  datatype Process = Process(areas: seq<Area>, touched: set<PageIx>, written: map<nat, byte>)

  type World = map<nat, Process>

  ghost predicate WorldOk(w: World) {
    forall p :: p in w ==> AreasOk(w[p].areas)
  }

  /** The byte an address holds before anything is stored there. */
  function Image(areas: seq<Area>, addr: nat): Option<byte>
    requires AreasOk(areas)
  {
    var a := FindArea(areas, addr);
    if a.None? then None
    else
      var page := InitialPage(a.value, addr);
      if page.None? then None else Some(page.value[OffsetOf(addr)])
  }

  /** May the access be made at all? The first access to a page checks the area's protection and
      needs the file to be long enough; later ones only check that a write is allowed. */
  predicate Allowed(p: Process, addr: nat, write: bool)
    requires AreasOk(p.areas)
  {
    if PageOf(addr) in p.touched then write ==> E.Writable(p.areas, addr)
    else E.FirstTouch(p.areas, addr, write).Some?
  }

  function ReadAt(p: Process, addr: nat): byte
    requires AreasOk(p.areas)
  {
    if addr in p.written then p.written[addr]
    else if Image(p.areas, addr).Some? then Image(p.areas, addr).value
    else 0
  }

  function Touched(p: Process, addr: nat): Process {
    p.(touched := p.touched + {PageOf(addr)})
  }

  function Step(w: World, ev: E.Event): (r: (World, E.Outcome))
    requires WorldOk(w) && E.Enabled(w.Keys, ev)
    ensures WorldOk(r.0)
  {
    match ev
    case Fork(p, c) => (w[c := w[p]], E.Done)
    case Fault(p, addr, write) =>
      if !Allowed(w[p], addr, write) then (w, E.Halt) else (w[p := Touched(w[p], addr)], E.Done)
    case Load(p, addr) =>
      if !Allowed(w[p], addr, false) then (w, E.Halt)
      else (w[p := Touched(w[p], addr)], E.Byte(ReadAt(w[p], addr)))
    case Store(p, addr, v) =>
      if !Allowed(w[p], addr, true) then (w, E.Halt)
      else
        var q := Touched(w[p], addr);
        (w[p := q.(written := q.written[addr := v])], E.Done)
    case Exec(p, areas) => (w[p := Process(areas, {}, map[])], E.Done)
    case Exit(p) => if p == 1 then (w, E.Halt) else (w - {p}, E.Done)
  }

  // ----- the eager machine implements it

  ghost predicate Sees(e: E.Process, p: Process) {
    && AreasOk(p.areas)
    && e.areas == p.areas && e.pages.Keys == p.touched
    && (forall addr :: addr in p.written ==> addr < MEM_BOTTOM_HALF && PageOf(addr) in p.touched)
    && (forall addr: nat {:trigger ReadAt(p, addr)} :: addr < MEM_BOTTOM_HALF && PageOf(addr) in e.pages ==>
         e.pages[PageOf(addr)][OffsetOf(addr)] == ReadAt(p, addr))
  }

  ghost predicate Agree(e: E.World, w: World) {
    e.Keys == w.Keys && forall p :: p in w ==> Sees(e[p], w[p])
  }

  /** The fill of a page does not depend on which of its addresses was touched. */
  lemma OnePage(areas: seq<Area>, a: nat, b: nat)
    requires AreasOk(areas) && a < MEM_BOTTOM_HALF && b < MEM_BOTTOM_HALF && PageOf(a) == PageOf(b)
    ensures FindArea(areas, a) == FindArea(areas, b)
    ensures FindArea(areas, a).Some? ==>
      var area := FindArea(areas, a).value;
      InitialPage(area, a) == InitialPage(area, b)
  {
    hide AreasOk, InitialPage, FindArea, PageOf, RoundPageDown;
    SamePage(a, b);
    FindAreaByPage(areas, a);
    FindAreaByPage(areas, b);
    var area := FindArea(areas, a);
    if area.Some? {
      FoundOk(areas, a);
      FillByPage(area.value, a, b);
    }
  }

  lemma SamePage(a: nat, b: nat)
    requires a < MEM_BOTTOM_HALF && b < MEM_BOTTOM_HALF && PageOf(a) == PageOf(b)
    ensures RoundPageDown(a) == RoundPageDown(b)
  {
    AddressOfIndices(a);
    AddressOfIndices(b);
  }

  lemma FoundOk(areas: seq<Area>, a: nat)
    requires AreasOk(areas) && FindArea(areas, a).Some?
    ensures AreaOk(FindArea(areas, a).value)
  {
  }

  lemma FillByPage(area: Area, a: nat, b: nat)
    requires AreaOk(area) && Covers(area, a) && Covers(area, b) && RoundPageDown(a) == RoundPageDown(b)
    ensures InitialPage(area, a) == InitialPage(area, b)
  {
  }

  /** Two addresses with the same page and offset are the same. */
  lemma OneAddress(a: nat, b: nat)
    requires a < MEM_BOTTOM_HALF && b < MEM_BOTTOM_HALF
    requires PageOf(a) == PageOf(b) && OffsetOf(a) == OffsetOf(b)
    ensures a == b
  {
    AddressOfIndices(a);
    AddressOfIndices(b);
  }

  lemma TouchSees(e: E.Process, p: Process, addr: nat, write: bool)
    requires Sees(e, p) && addr < MEM_BOTTOM_HALF
    ensures E.Touch(e, addr, write).Some? <==> Allowed(p, addr, write)
    ensures Allowed(p, addr, write) ==> Sees(E.Touch(e, addr, write).value, Touched(p, addr))
  {
    var pg := PageOf(addr);
    if pg !in e.pages && Allowed(p, addr, write) {
      var q := E.Touch(e, addr, write).value;
      forall a: nat | a < MEM_BOTTOM_HALF && PageOf(a) in q.pages
        ensures q.pages[PageOf(a)][OffsetOf(a)] == ReadAt(Touched(p, addr), a)
      {
        if PageOf(a) == pg {
          OnePage(p.areas, addr, a);
        } else {
          assert e.pages[PageOf(a)][OffsetOf(a)] == ReadAt(p, a);
        }
      }
    } else if pg in e.pages {
      assert Touched(p, addr) == p;
    }
  }

  lemma StoreSees(e: E.Process, p: Process, addr: nat, v: byte)
    requires Sees(e, p) && addr < MEM_BOTTOM_HALF && PageOf(addr) in p.touched
    ensures
      var page := e.pages[PageOf(addr)][OffsetOf(addr) := v];
      Sees(e.(pages := e.pages[PageOf(addr) := page]), p.(written := p.written[addr := v]))
  {
    var pg := PageOf(addr);
    var q := e.(pages := e.pages[pg := e.pages[pg][OffsetOf(addr) := v]]);
    var p' := p.(written := p.written[addr := v]);
    forall a: nat | a < MEM_BOTTOM_HALF && PageOf(a) in q.pages
      ensures q.pages[PageOf(a)][OffsetOf(a)] == ReadAt(p', a)
    {
      assert e.pages[PageOf(a)][OffsetOf(a)] == ReadAt(p, a);
      if PageOf(a) == pg && OffsetOf(a) == OffsetOf(addr) { OneAddress(a, addr); }
    }
  }

  lemma ReadSees(e: E.Process, p: Process, addr: nat)
    requires Sees(e, p) && addr < MEM_BOTTOM_HALF && PageOf(addr) in e.pages
    ensures e.pages[PageOf(addr)][OffsetOf(addr)] == ReadAt(p, addr)
  {
  }

  lemma StepAgrees(e: E.World, w: World, ev: E.Event)
    requires E.WorldOk(e) && WorldOk(w) && Agree(e, w) && E.Enabled(e.Keys, ev)
    ensures E.Step(e, ev).1 == Step(w, ev).1
    ensures Agree(E.Step(e, ev).0, Step(w, ev).0)
  {
    hide Sees, AreasOk, E.Touch, Allowed;
    match ev
    case Fork(p, c) =>
    case Fault(p, addr, write) => TouchSees(e[p], w[p], addr, write);
    case Load(p, addr) =>
      TouchSees(e[p], w[p], addr, false);
      if Allowed(w[p], addr, false) {
        E.TouchBringsIn(e[p], addr, false);
        ReadSees(E.Touch(e[p], addr, false).value, Touched(w[p], addr), addr);
      }
    case Store(p, addr, v) =>
      TouchSees(e[p], w[p], addr, true);
      if Allowed(w[p], addr, true) {
        StoreSees(E.Touch(e[p], addr, true).value, Touched(w[p], addr), addr, v);
      }
    case Exec(p, areas) => FreshSees(areas);
    case Exit(p) =>
  }

  lemma FreshSees(areas: seq<Area>)
    requires AreasOk(areas)
    ensures Sees(E.Process(areas, map[]), Process(areas, {}, map[]))
  {
  }

  datatype Trace = Trace(outcomes: seq<E.Outcome>, final: World)

  ghost predicate RunEnabled(w: World, evs: seq<E.Event>)
    requires WorldOk(w)
    decreases |evs|
  {
    evs == [] || (
      && E.Enabled(w.Keys, evs[0])
      && var (w', o) := Step(w, evs[0]);
      (o.Halt? || RunEnabled(w', evs[1..])))
  }

  ghost function Run(w: World, evs: seq<E.Event>): Trace
    requires WorldOk(w) && RunEnabled(w, evs)
    decreases |evs|
  {
    if evs == [] then Trace([], w)
    else
      var (w', o) := Step(w, evs[0]);
      if o.Halt? then Trace([E.Halt], w)
      else
        var rest := Run(w', evs[1..]);
        Trace([o] + rest.outcomes, rest.final)
  }

  /** Over every run of any number of processes, each load returns the byte last stored. */
  lemma {:induction false} LoadsReturnLastStore(e: E.World, w: World, evs: seq<E.Event>)
    requires E.WorldOk(e) && WorldOk(w) && Agree(e, w) && E.RunEnabled(e, evs)
    ensures RunEnabled(w, evs)
    ensures Run(w, evs).outcomes == E.Run(e, evs).outcomes
    decreases |evs|
  {
    hide Sees;
    if evs != [] {
      StepAgrees(e, w, evs[0]);
      var (e', o) := E.Step(e, evs[0]);
      if !o.Halt? { LoadsReturnLastStore(e', Step(w, evs[0]).0, evs[1..]); }
    }
  }

  // ----- a byte that nothing is stored to

  /** The process still has these areas, and the byte at the address is still that of the image. */
  ghost predicate Keeps(p: Process, areas: seq<Area>, addr: nat)
    requires AreasOk(areas)
  {
    p.areas == areas && addr !in p.written && (Image(areas, addr).None? ==> PageOf(addr) !in p.touched)
  }

  /** The event neither stores to the address in p nor ends p's program. */
  predicate Spares(ev: E.Event, p: nat, addr: nat) {
    !(ev.Exec? && ev.pid == p) && !(ev.Exit? && ev.pid == p) && !(ev.Store? && ev.pid == p && ev.addr == addr)
  }

  lemma TouchKeeps(p: Process, areas: seq<Area>, addr: nat, a: nat, write: bool)
    requires AreasOk(areas) && Keeps(p, areas, addr) && addr < MEM_BOTTOM_HALF && a < MEM_BOTTOM_HALF
    requires Allowed(p, a, write)
    ensures Keeps(Touched(p, a), areas, addr)
  {
    if PageOf(a) == PageOf(addr) { OnePage(areas, a, addr); }
  }

  lemma StepSpares(w: World, ev: E.Event, p: nat, areas: seq<Area>, addr: nat)
    requires WorldOk(w) && E.Enabled(w.Keys, ev) && p in w && AreasOk(areas) && addr < MEM_BOTTOM_HALF
    requires Keeps(w[p], areas, addr) && Spares(ev, p, addr)
    ensures p in Step(w, ev).0 && Keeps(Step(w, ev).0[p], areas, addr)
  {
    hide Allowed, Keeps;
    match ev
    case Fault(q, a, write) => if q == p && Allowed(w[p], a, write) { TouchKeeps(w[p], areas, addr, a, write); }
    case Load(q, a) => if q == p && Allowed(w[p], a, false) { TouchKeeps(w[p], areas, addr, a, false); }
    case Store(q, a, v) =>
      if q == p && Allowed(w[p], a, true) {
        TouchKeeps(w[p], areas, addr, a, true);
        StoreElsewhere(Touched(w[p], a), areas, addr, a, v);
      }
    case _ =>
  }

  lemma StoreElsewhere(p: Process, areas: seq<Area>, addr: nat, a: nat, v: byte)
    requires AreasOk(areas) && Keeps(p, areas, addr) && a != addr
    ensures Keeps(p.(written := p.written[a := v]), areas, addr)
  {
  }

  lemma {:induction false} RunSpares(w: World, evs: seq<E.Event>, p: nat, areas: seq<Area>, addr: nat)
    requires WorldOk(w) && RunEnabled(w, evs) && p in w && AreasOk(areas) && addr < MEM_BOTTOM_HALF
    requires Keeps(w[p], areas, addr) && forall e :: e in evs ==> Spares(e, p, addr)
    ensures
      var u := Run(w, evs).final;
      WorldOk(u) && p in u && Keeps(u[p], areas, addr)
    decreases |evs|
  {
    hide Keeps, Spares;
    if evs != [] {
      StepSpares(w, evs[0], p, areas, addr);
      var (w', o) := Step(w, evs[0]);
      if !o.Halt? { RunSpares(w', evs[1..], p, areas, addr); }
    }
  }

  /** From exec on, whatever all processes do, the first store excepted: a load of a byte in a
      readable area returns the byte of the image, and stops the process if there is none. */
  lemma ImageStays(w: World, p: nat, areas: seq<Area>, evs: seq<E.Event>, addr: nat)
    requires WorldOk(w) && p in w && AreasOk(areas) && addr < MEM_BOTTOM_HALF
    requires RunEnabled(Step(w, E.Exec(p, areas)).0, evs) && forall e :: e in evs ==> Spares(e, p, addr)
    requires FindArea(areas, addr).Some? ==> Permits(FindArea(areas, addr).value.prot, false)
    ensures
      var u := Run(Step(w, E.Exec(p, areas)).0, evs).final;
      && WorldOk(u) && p in u
      && Step(u, E.Load(p, addr)).1 == if Image(areas, addr).Some? then E.Byte(Image(areas, addr).value) else E.Halt
  {
    hide AreasOk, InitialPage, FindArea, Run, RunEnabled, Spares;
    RunSpares(Step(w, E.Exec(p, areas)).0, evs, p, areas, addr);
  }

  // ----- what an area allows

  /** The first access to a page is refused exactly if there is no area, or the area does not allow
      it, or has no bytes for the page. A load needs the right to read or to execute. */
  lemma FirstAccess(w: World, p: nat, addr: nat, v: byte)
    requires WorldOk(w) && p in w && addr < MEM_BOTTOM_HALF && PageOf(addr) !in w[p].touched
    ensures
      var a := FindArea(w[p].areas, addr);
      && (Step(w, E.Load(p, addr)).1.Halt? <==>
           a.None? || !(a.value.prot.read || a.value.prot.exec) || InitialPage(a.value, addr).None?)
      && (Step(w, E.Store(p, addr, v)).1.Halt? <==>
           a.None? || !a.value.prot.write || InitialPage(a.value, addr).None?)
  {
    hide AreasOk, InitialPage, FindArea;
  }

  /** The event does not end p's program. */
  predicate Leaves(ev: E.Event, p: nat) {
    !(ev.Exec? && ev.pid == p) && !(ev.Exit? && ev.pid == p)
  }

  /** The page of the address has been brought in only if the program's areas allow that. */
  ghost predicate Brought(q: Process, areas: seq<Area>, addr: nat)
    requires AreasOk(areas)
  {
    && q.areas == areas
    && (PageOf(addr) in q.touched ==>
         E.FirstTouch(areas, addr, false).Some? || E.FirstTouch(areas, addr, true).Some?)
  }

  lemma TouchBrings(q: Process, areas: seq<Area>, addr: nat, a: nat, write: bool)
    requires AreasOk(areas) && Brought(q, areas, addr) && addr < MEM_BOTTOM_HALF && a < MEM_BOTTOM_HALF
    requires Allowed(q, a, write)
    ensures Brought(Touched(q, a), areas, addr)
  {
    if PageOf(a) == PageOf(addr) { OnePage(areas, a, addr); }
  }

  lemma StepLeaves(w: World, ev: E.Event, p: nat, areas: seq<Area>, addr: nat)
    requires WorldOk(w) && E.Enabled(w.Keys, ev) && p in w && AreasOk(areas) && addr < MEM_BOTTOM_HALF
    requires Brought(w[p], areas, addr) && Leaves(ev, p)
    ensures p in Step(w, ev).0 && Brought(Step(w, ev).0[p], areas, addr)
  {
    hide Allowed, E.FirstTouch;
    match ev
    case Fault(q, a, write) => if q == p && Allowed(w[p], a, write) { TouchBrings(w[p], areas, addr, a, write); }
    case Load(q, a) => if q == p && Allowed(w[p], a, false) { TouchBrings(w[p], areas, addr, a, false); }
    case Store(q, a, v) => if q == p && Allowed(w[p], a, true) { TouchBrings(w[p], areas, addr, a, true); }
    case _ =>
  }

  lemma {:induction false} RunLeaves(w: World, evs: seq<E.Event>, p: nat, areas: seq<Area>, addr: nat)
    requires WorldOk(w) && RunEnabled(w, evs) && p in w && AreasOk(areas) && addr < MEM_BOTTOM_HALF
    requires Brought(w[p], areas, addr) && forall e :: e in evs ==> Leaves(e, p)
    ensures
      var u := Run(w, evs).final;
      WorldOk(u) && p in u && Brought(u[p], areas, addr)
    decreases |evs|
  {
    hide Brought, Leaves;
    if evs != [] {
      StepLeaves(w, evs[0], p, areas, addr);
      var (w', o) := Step(w, evs[0]);
      if !o.Halt? { RunLeaves(w', evs[1..], p, areas, addr); }
    }
  }

  /** From exec on, whatever all processes do, a store is served exactly in an area that can be
      written and has bytes for the page; and where the area allows nothing, neither is a load. */
  lemma RightsStay(w: World, p: nat, areas: seq<Area>, evs: seq<E.Event>, addr: nat, v: byte)
    requires WorldOk(w) && p in w && AreasOk(areas) && addr < MEM_BOTTOM_HALF
    requires RunEnabled(Step(w, E.Exec(p, areas)).0, evs) && forall e :: e in evs ==> Leaves(e, p)
    ensures
      var u := Run(Step(w, E.Exec(p, areas)).0, evs).final;
      var a := FindArea(areas, addr);
      && WorldOk(u) && p in u
      && Step(u, E.Store(p, addr, v)).1 ==
         (if a.Some? && a.value.prot.write && Image(areas, addr).Some? then E.Done else E.Halt)
      && (a.None? || !(a.value.prot.read || a.value.prot.write || a.value.prot.exec) ==>
           Step(u, E.Load(p, addr)).1 == E.Halt)
  {
    hide AreasOk, InitialPage, FindArea, Run, RunEnabled, Leaves;
    RunLeaves(Step(w, E.Exec(p, areas)).0, evs, p, areas, addr);
  }

  // ----- is demand paging visible?

  /** A page is touched only by an access that was allowed. */
  ghost predicate TouchedOk(p: Process)
    requires AreasOk(p.areas)
  {
    forall addr: nat :: addr < MEM_BOTTOM_HALF && PageOf(addr) in p.touched ==>
      exists write :: E.FirstTouch(p.areas, addr, write).Some?
  }

  /** Every step keeps that. */
  lemma TouchKeepsOk(p: Process, addr: nat, write: bool)
    requires AreasOk(p.areas) && TouchedOk(p) && addr < MEM_BOTTOM_HALF && Allowed(p, addr, write)
    ensures TouchedOk(Touched(p, addr))
  {
    forall a: nat | a < MEM_BOTTOM_HALF && PageOf(a) in Touched(p, addr).touched
      ensures exists write :: E.FirstTouch(p.areas, a, write).Some?
    {
      if PageOf(a) !in p.touched {
        OnePage(p.areas, a, addr);
        assert E.FirstTouch(p.areas, a, write).Some?;
      }
    }
  }

  ghost predicate AllTouchedOk(w: World)
    requires WorldOk(w)
  {
    forall p :: p in w ==> TouchedOk(w[p])
  }

  lemma StepKeepsTouchedOk(w: World, ev: E.Event)
    requires WorldOk(w) && AllTouchedOk(w) && E.Enabled(w.Keys, ev)
    ensures AllTouchedOk(Step(w, ev).0)
  {
    hide AreasOk, Allowed, TouchedOk;
    match ev
    case Fork(p, c) =>
    case Fault(p, addr, write) => if Allowed(w[p], addr, write) { TouchKeepsOk(w[p], addr, write); }
    case Load(p, addr) => if Allowed(w[p], addr, false) { TouchKeepsOk(w[p], addr, false); }
    case Store(p, addr, v) =>
      if Allowed(w[p], addr, true) {
        TouchKeepsOk(w[p], addr, true);
        StoreKeepsOk(Touched(w[p], addr), addr, v);
      }
    case Exec(p, areas) => FreshTouchedOk(areas);
    case Exit(p) =>
  }

  lemma StoreKeepsOk(p: Process, addr: nat, v: byte)
    requires AreasOk(p.areas) && TouchedOk(p)
    ensures TouchedOk(p.(written := p.written[addr := v]))
  {
  }

  lemma FreshTouchedOk(areas: seq<Area>)
    requires AreasOk(areas)
    ensures TouchedOk(Process(areas, {}, map[]))
  {
  }

  /** The address lies in an area that can be written but neither read nor executed. */
  predicate WriteOnlyAt(areas: seq<Area>, addr: nat)
    requires AreasOk(areas)
  {
    var a := FindArea(areas, addr);
    a.Some? && a.value.prot.write && !a.value.prot.read && !a.value.prot.exec && InitialPage(a.value, addr).Some?
  }

  /** Whether a store is allowed never depends on what has been touched before. */
  lemma StoresIgnorePaging(p: Process, addr: nat)
    requires AreasOk(p.areas) && TouchedOk(p) && addr < MEM_BOTTOM_HALF
    ensures Allowed(p, addr, true) <==> E.FirstTouch(p.areas, addr, true).Some?
  {
    if PageOf(addr) in p.touched {
      var write :| E.FirstTouch(p.areas, addr, write).Some?;
    }
  }

  /** Whether a load is allowed depends on it exactly in write-only areas: there it stops the
      process, unless a store has brought the page in. */
  lemma PagingIsVisibleIff(areas: seq<Area>, addr: nat)
    requires AreasOk(areas) && addr < MEM_BOTTOM_HALF
    ensures
      (exists p: Process :: p.areas == areas && TouchedOk(p) &&
        Allowed(p, addr, false) != E.FirstTouch(areas, addr, false).Some?)
      <==> WriteOnlyAt(areas, addr)
  {
    if WriteOnlyAt(areas, addr) {
      var p := Process(areas, {PageOf(addr)}, map[]);
      forall a: nat | a < MEM_BOTTOM_HALF && PageOf(a) in p.touched
        ensures exists write :: E.FirstTouch(p.areas, a, write).Some?
      {
        OnePage(areas, a, addr);
        assert E.FirstTouch(areas, a, true).Some?;
      }
      assert Allowed(p, addr, false);
    }
    forall p: Process | p.areas == areas && TouchedOk(p) &&
        Allowed(p, addr, false) != E.FirstTouch(areas, addr, false).Some?
      ensures WriteOnlyAt(areas, addr)
    {
      var write :| E.FirstTouch(p.areas, addr, write).Some?;
    }
  }

  /** A program with one write-only page: a load stops it, but a load after a store does not. */
  lemma PagingShows(v: byte)
    ensures
      var areas := [Area(0, PAGE_SIZE, Prot(false, true, false), None, 0)];
      var w := map[1 := Process(areas, {}, map[])];
      && AreasOk(areas) && WriteOnlyAt(areas, 0) && WorldOk(w)
      && Step(w, E.Load(1, 0)).1 == E.Halt
      && Step(w, E.Store(1, 0, v)).1 == E.Done
      && Step(Step(w, E.Store(1, 0, v)).0, E.Load(1, 0)).1 == E.Byte(v)
  {
    var areas := [Area(0, PAGE_SIZE, Prot(false, true, false), None, 0)];
    assert FindArea(areas, 0) == Some(areas[0]);
  }
}
