/** The reference machine: every process owns its pages, and fork copies all of them at once.
    It has no frames, no reference counts, no write-protected pages and no copy-on-write. */
module EagerFork {
  import opened Memory
  import opened Areas

  datatype Process = Process(areas: seq<Area>, pages: map<PageIx, Page>)

  type World = map<nat, Process>

  /** What can happen to user memory. Fault is a page fault served ahead of the access. */
  datatype Event =
    | Fork(parent: nat, child: nat)
    | Fault(pid: nat, addr: nat, write: bool)
    | Load(pid: nat, addr: nat)
    | Store(pid: nat, addr: nat, value: byte)
    | Exec(pid: nat, areas: seq<Area>)
    | Exit(pid: nat)

  /** Halt is `oops` or a failed BUG_ON: the kernel prints and stops the processor. */
  datatype Outcome = Done | Byte(value: byte) | Halt

  /** The process that takes the step. */
  function Actor(ev: Event): nat {
    if ev.Fork? then ev.parent else ev.pid
  }

  predicate Enabled(pids: set<nat>, ev: Event) {
    match ev
    case Fork(p, c) => p in pids && c !in pids
    case Fault(p, addr, _) => p in pids && addr < MEM_BOTTOM_HALF
    case Load(p, addr) => p in pids && addr < MEM_BOTTOM_HALF
    case Store(p, addr, _) => p in pids && addr < MEM_BOTTOM_HALF
    case Exec(p, areas) => p in pids && AreasOk(areas)
    case Exit(p) => p in pids
  }

  predicate WorldOk(w: World) {
    forall p :: p in w ==> AreasOk(w[p].areas)
  }

  /** May user code write this page? */
  predicate Writable(areas: seq<Area>, addr: nat) {
    var a := FindArea(areas, addr);
    a.Some? && a.value.prot.write
  }

  /** The page that a first touch of `addr` brings in, or None if the access is refused. */
  function FirstTouch(areas: seq<Area>, addr: nat, write: bool): Option<Page>
    requires AreasOk(areas)
  {
    var a := FindArea(areas, addr);
    if a.None? || !Permits(a.value.prot, write) then None else InitialPage(a.value, addr)
  }

  /** Make the page of `addr` ready for an access of this kind. */
  function Touch(p: Process, addr: nat, write: bool): Option<Process>
    requires AreasOk(p.areas)
  {
    var pg := PageOf(addr);
    if pg in p.pages then
      if write && !Writable(p.areas, addr) then None else Some(p)
    else
      var fill := FirstTouch(p.areas, addr, write);
      if fill.None? then None else Some(p.(pages := p.pages[pg := fill.value]))
  }

  lemma TouchBringsIn(p: Process, addr: nat, write: bool)
    requires AreasOk(p.areas)
    ensures Touch(p, addr, write).Some? ==>
      var q := Touch(p, addr, write).value;
      q.areas == p.areas && q.pages.Keys == p.pages.Keys + {PageOf(addr)}
  {
  }

  function Step(w: World, ev: Event): (r: (World, Outcome))
    requires WorldOk(w) && Enabled(w.Keys, ev)
    ensures WorldOk(r.0)
  {
    match ev
    case Fork(p, c) => (w[c := w[p]], Done)
    case Fault(p, addr, write) =>
      var q := Touch(w[p], addr, write);
      if q.None? then (w, Halt) else (w[p := q.value], Done)
    case Load(p, addr) =>
      var q := Touch(w[p], addr, false);
      if q.None? then (w, Halt)
      else (w[p := q.value], Byte(q.value.pages[PageOf(addr)][OffsetOf(addr)]))
    case Store(p, addr, v) =>
      var q := Touch(w[p], addr, true);
      if q.None? then (w, Halt)
      else
        var pg := PageOf(addr);
        var page := q.value.pages[pg][OffsetOf(addr) := v];
        (w[p := q.value.(pages := q.value.pages[pg := page])], Done)
    case Exec(p, areas) => (w[p := Process(areas, map[])], Done)
    case Exit(p) => if p == 1 then (w, Halt) else (w - {p}, Done)
  }

  /** A run: the outcomes seen, up to the first halt. */
  datatype Trace = Trace(outcomes: seq<Outcome>, final: World)

  ghost predicate RunEnabled(w: World, evs: seq<Event>)
    requires WorldOk(w)
    decreases |evs|
  {
    evs == [] || (
      && Enabled(w.Keys, evs[0])
      && var (w', o) := Step(w, evs[0]);
      (o.Halt? || RunEnabled(w', evs[1..])))
  }

  function Run(w: World, evs: seq<Event>): Trace
    requires WorldOk(w) && RunEnabled(w, evs)
    decreases |evs|
  {
    if evs == [] then Trace([], w)
    else
      var (w', o) := Step(w, evs[0]);
      if o.Halt? then Trace([Halt], w)
      else
        var rest := Run(w', evs[1..]);
        Trace([o] + rest.outcomes, rest.final)
  }
}
