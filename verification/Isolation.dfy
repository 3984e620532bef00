/** No process sees what another one does: over whole runs of the sharing machine. */
module Isolation {
  import opened Memory
  import opened Areas
  import E = EagerFork
  import opened SharedPages

  /** The eager machine that a sharing state stands for: every page copied out. */
  function Copied(s: State): (w: E.World)
    requires Grounded(s)
  {
    map p | p in s.procs ::
      E.Process(s.procs[p].areas, map pg | pg in s.procs[p].table :: s.data[s.procs[p].table[pg].frame])
  }

  lemma CopiedIsSim(s: State)
    requires Inv(s)
    ensures Sim(s, Copied(s)) && E.WorldOk(Copied(s))
  {
    hide NoOrphans, Exclusive, AreasOk;
    forall p | p in s.procs ensures AreasOk(Copied(s)[p].areas) {
      assert ProcessOk(s.procs[p]);
    }
  }

  /** From any state the invariant allows, sharing and copying cannot be told apart. */
  lemma SharingIsInvisible(s: State, ms: seq<Move>)
    requires Inv(s) && RunEnabled(s, ms)
    ensures E.WorldOk(Copied(s)) && E.RunEnabled(Copied(s), Events(ms))
    ensures Run(s, ms).outcomes == E.Run(Copied(s), Events(ms)).outcomes
  {
    CopiedIsSim(s);
    CopyOnWriteRefinesEagerCopy(s, ms, Copied(s));
  }

  /** A step of one process changes neither the areas nor the entries of another. */
  lemma StepKeepsOthers(s: State, ev: E.Event, f: nat, t: State, o: E.Outcome, q: nat)
    requires Steps(s, ev, f, t, o) && q in s.procs && q != E.Actor(ev)
    ensures q in t.procs && t.procs[q] == s.procs[q]
  {
    hide NoOrphans, Exclusive, Grounded, AreasOk, E.FirstTouch, E.Writable;
  }

  /** A load, store, fault or exec starts and ends no process. */
  lemma AccessKeepsOthers(s: State, ev: E.Event, f: nat, t: State, o: E.Outcome)
    requires Steps(s, ev, f, t, o) && (UserAccess(ev) || ev.Exec?)
    ensures t.procs.Keys == s.procs.Keys
    ensures forall q :: q in s.procs && q != E.Actor(ev) ==> t.procs[q] == s.procs[q]
  {
    hide NoOrphans, Exclusive, Grounded, AreasOk, E.FirstTouch, E.Writable;
  }

  lemma EagerStepKeepsOthers(w: E.World, ev: E.Event, q: nat)
    requires E.WorldOk(w) && E.Enabled(w.Keys, ev) && q in w && q != E.Actor(ev)
    ensures q in E.Step(w, ev).0 && E.Step(w, ev).0[q] == w[q]
  {
  }

  predicate NotBy(evs: seq<E.Event>, q: nat) {
    forall n :: 0 <= n < |evs| ==> E.Actor(evs[n]) != q
  }

  lemma {:induction false} EagerRunKeeps(w: E.World, evs: seq<E.Event>, q: nat)
    requires E.WorldOk(w) && E.RunEnabled(w, evs) && q in w && NotBy(evs, q)
    ensures q in E.Run(w, evs).final && E.Run(w, evs).final[q] == w[q]
    ensures E.WorldOk(E.Run(w, evs).final)
    decreases |evs|
  {
    if evs != [] {
      assert E.Actor(evs[0]) != q;
      EagerStepKeepsOthers(w, evs[0], q);
      var (w', o) := E.Step(w, evs[0]);
      if !o.Halt? {
        assert forall n :: 0 <= n < |evs[1..]| ==> evs[1..][n] == evs[n + 1];
        EagerRunKeeps(w', evs[1..], q);
      }
    }
  }

  predicate UserAccess(ev: E.Event) {
    ev.Load? || ev.Store? || ev.Fault?
  }

  lemma SameAccess(w: E.World, v: E.World, ev: E.Event)
    requires E.WorldOk(w) && E.WorldOk(v) && UserAccess(ev) && E.Enabled(w.Keys, ev) && E.Enabled(v.Keys, ev)
    requires w[E.Actor(ev)] == v[E.Actor(ev)]
    ensures E.Step(w, ev).1 == E.Step(v, ev).1
  {
  }

  lemma {:induction false} NotByEvents(ms: seq<Move>, q: nat)
    requires forall n :: 0 <= n < |ms| ==> E.Actor(ms[n].ev) != q
    ensures NotBy(Events(ms), q)
  {
    if ms != [] {
      NotByEvents(ms[1..], q);
      forall n | 0 <= n < |Events(ms)| ensures E.Actor(Events(ms)[n]) != q {
        if n > 0 { assert Events(ms)[n] == Events(ms[1..])[n - 1]; }
      }
    }
  }

  lemma Survives(s: State, w: E.World, q: nat, ev: E.Event)
    requires Sim(s, w) && q in w && UserAccess(ev) && E.Actor(ev) == q
    requires ev.addr < MEM_BOTTOM_HALF
    ensures E.Enabled(s.procs.Keys, ev)
  {
  }

  /** Isolation: whatever the other processes do, a load, store or fault of q has the same outcome
      after their run as before it. */
  lemma OthersAreInvisible(s: State, ms: seq<Move>, q: nat, ev: E.Event, f: nat, g: nat)
    requires Inv(s) && RunEnabled(s, ms) && q in s.procs
    requires forall n :: 0 <= n < |ms| ==> E.Actor(ms[n].ev) != q
    requires UserAccess(ev) && E.Actor(ev) == q && ev.addr < MEM_BOTTOM_HALF
    requires f !in s.data && g !in Run(s, ms).final.data
    ensures
      var t := Run(s, ms).final;
      && Inv(t) && E.Enabled(t.procs.Keys, ev)
      && Step(t, ev, g).1 == Step(s, ev, f).1
  {
    hide Step, E.Step, Run, RunEnabled, Copied, E.Run, E.RunEnabled, Sim, Grounded, NoOrphans, Exclusive, ProcessOk;
    var w := Copied(s);
    CopiedIsSim(s);
    CopyOnWriteRefinesEagerCopy(s, ms, w);
    NotByEvents(ms, q);
    InWorld(s, w, q);
    EagerRunKeeps(w, Events(ms), q);
    var t, v := Run(s, ms).final, E.Run(w, Events(ms)).final;
    Survives(t, v, q, ev);
    StepSim(t, ev, g, v);
    StepSim(s, ev, f, w);
    SameAccess(w, v, ev);
  }

  lemma InWorld(s: State, w: E.World, q: nat)
    requires Sim(s, w) && q in s.procs
    ensures q in w
  {
  }
}
