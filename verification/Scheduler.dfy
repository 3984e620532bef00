/** The scheduler: tasks enter and leave the run ring by fork, sleep, wake-up and exit
    (src/kernel/sched.c, src/include/sched.h, and the task lists of src/kernel/process.c). Each
    method is one step without interrupts in between. */
module Scheduler {
  import opened Memory
  import opened RunRing
  import opened Schedule

  const HZ := 100
  const TIMESLICE := 20

  /** timer_waitq_t */
  datatype Timer = Timer(time: int, task: Task)

  /** Where a sleeping task waits. */
  datatype Place = OnTimer | OnQueue(q: nat)

  /** The index of a task in the ring. */
  ghost function IndexOf(r: seq<Task>, t: Task): (i: nat)
    requires t in r
    ensures i < |r| && r[i] == t
  {
    var i :| 0 <= i < |r| && r[i] == t;
    i
  }

  /** Signed division as the C operator does it. */
  function Quotient(a: int, b: int): (r: int)
    requires b > 0
    ensures if a >= 0 then 0 <= a - r * b < b else -b < a - r * b <= 0
  {
    if a >= 0 then a / b else -(-a / b)
  }

  const S64_MAX := 0x7fff_ffff_ffff_ffff

  /** A result in 64 signed bits, as the processor computes it. */
  function Signed64(x: int): (r: int)
    ensures -S64_MAX - 1 <= r <= S64_MAX && (-S64_MAX - 1 <= x <= S64_MAX ==> r == x)
    ensures (r - x) % U64_LIMIT == 0
  {
    (x + S64_MAX + 1) % U64_LIMIT - (S64_MAX + 1)
  }

  /** How many ticks sys_usleep adds to the time. */
  function Ticks(us: int): int {
    Quotient(Signed64(us * HZ + 999999), 1000000)
  }

  /** When a sleep of `us` microseconds ends; the sum is unsigned. */
  function WakeTime(now: int, us: int): int {
    (now + Ticks(us)) % U64_LIMIT
  }

  /** A sleep is never too short, and less than a tick too long, exactly if the product does not
      overflow. */
  lemma SleepsLongEnough(us: nat)
    requires us <= S64_MAX
    ensures us <= Ticks(us) * (1000000 / HZ) <==> us * HZ + 999999 <= S64_MAX
    ensures us * HZ + 999999 <= S64_MAX ==> Ticks(us) * (1000000 / HZ) < us + 1000000 / HZ
  {
    var a := us * HZ + 999999;
    var w := Signed64(a);
    if a > S64_MAX {
      assert w <= a - U64_LIMIT;
    }
    if w >= 0 {
      assert w / 1000000 * 1000000 <= w < w / 1000000 * 1000000 + 1000000;
    }
  }

  /** A negative time is rounded up to whole ticks as well. */
  lemma NegativeTicks(us: int)
    requires -S64_MAX - 1 <= us * HZ + 999999 < 0
    ensures us * HZ + 999999 <= Ticks(us) * 1000000 < us * HZ + 1999999
  {
  }

  /** When the task wakes: after its ticks; for a negative time at once, unless fewer ticks than
      that have passed since boot: then hardly ever. */
  lemma WakesWhen(now: nat, us: int)
    requires now <= S64_MAX && -S64_MAX - 1 <= us <= S64_MAX
    ensures now + Ticks(us) >= 0 ==> WakeTime(now, us) == now + Ticks(us)
    ensures now + Ticks(us) < 0 ==> WakeTime(now, us) == now + Ticks(us) + U64_LIMIT > S64_MAX
  {
    var w := Signed64(us * HZ + 999999);
    assert -0x8000_0000_0000 < Ticks(us) < 0x8000_0000_0000;
  }

  /** Every sleeper is in exactly the list `place` names, exactly once, and nothing else is in any
      list. */
  ghost predicate SleepersOk(place: map<Task, Place>, timers: seq<Timer>, queues: map<nat, seq<Task>>) {
    TimersOk(place, timers) && QueuesOk(place, queues)
  }

  ghost predicate TimersOk(place: map<Task, Place>, timers: seq<Timer>) {
    && (forall i :: 0 <= i < |timers| ==> timers[i].task in place && place[timers[i].task] == OnTimer)
    && (forall i, j :: 0 <= i < j < |timers| ==> timers[i].task != timers[j].task)
    && (forall t :: t in place && place[t] == OnTimer ==> OnList(timers, t))
  }

  ghost predicate OnList(timers: seq<Timer>, t: Task) {
    exists i :: 0 <= i < |timers| && timers[i].task == t
  }

  ghost predicate QueuesOk(place: map<Task, Place>, queues: map<nat, seq<Task>>) {
    && (forall q :: q in queues ==> Distinct(queues[q]))
    && (forall q, t {:trigger t in queues[q]} :: q in queues && t in queues[q] ==> t in place && place[t] == OnQueue(q))
    && (forall t :: t in place && place[t].OnQueue? ==> place[t].q in queues && t in queues[place[t].q])
  }

  lemma AddTimer(place: map<Task, Place>, timers: seq<Timer>, queues: map<nat, seq<Task>>, t: Task, time: int)
    requires SleepersOk(place, timers, queues) && t !in place
    ensures SleepersOk(place[t := OnTimer], [Timer(time, t)] + timers, queues)
  {
    hide Distinct;
    var timers' := [Timer(time, t)] + timers;
    forall u | u in place && place[u] == OnTimer ensures OnList(timers', u) {
      var i :| 0 <= i < |timers| && timers[i].task == u;
      assert timers'[i + 1].task == u;
    }
    assert timers'[0].task == t;
  }

  lemma DropTimer(place: map<Task, Place>, timers: seq<Timer>, queues: map<nat, seq<Task>>, i: nat)
    requires SleepersOk(place, timers, queues) && i < |timers|
    ensures timers[i].task in place
    ensures SleepersOk(place - {timers[i].task}, timers[..i] + timers[i + 1..], queues)
  {
    hide Distinct;
    var t := timers[i].task;
    var timers' := timers[..i] + timers[i + 1..];
    forall u | u in place - {t} && place[u] == OnTimer ensures OnList(timers', u) {
      var k :| 0 <= k < |timers| && timers[k].task == u;
      assert timers'[if k < i then k else k - 1].task == u;
    }
    TimerGone(place, timers, i);
    assert QueuesOk(place - {t}, queues);
  }

  lemma TimerGone(place: map<Task, Place>, timers: seq<Timer>, i: nat)
    requires TimersOk(place, timers) && i < |timers|
    requires forall u :: u in place - {timers[i].task} && place[u] == OnTimer ==>
        OnList(timers[..i] + timers[i + 1..], u)
    ensures TimersOk(place - {timers[i].task}, timers[..i] + timers[i + 1..])
  {
    var timers' := timers[..i] + timers[i + 1..];
    forall x | x in timers' ensures x.task in place - {timers[i].task} && place[x.task] == OnTimer {
      var k :| 0 <= k < |timers'| && timers'[k] == x;
      assert x == timers[if k < i then k else k + 1];
    }
  }

  function Waiting(queues: map<nat, seq<Task>>, q: nat): seq<Task> {
    if q in queues then queues[q] else []
  }

  lemma AddWaiter(place: map<Task, Place>, timers: seq<Timer>, queues: map<nat, seq<Task>>, t: Task, q: nat)
    requires SleepersOk(place, timers, queues) && t !in place
    ensures SleepersOk(place[t := OnQueue(q)], timers, queues[q := [t] + Waiting(queues, q)])
  {
    hide Distinct;
    var w := [t] + Waiting(queues, q);
    FirstAdded(Waiting(queues, q), t);
    var queues' := queues[q := w];
    forall u | u in place && place[u].OnQueue? ensures place[u].q in queues' && u in queues'[place[u].q] {
      assert u in queues[place[u].q];
    }
  }

  lemma FirstAdded(w: seq<Task>, t: Task)
    ensures Distinct(w) && t !in w ==> Distinct([t] + w)
    ensures w == [] ==> Distinct([t] + w)
    ensures forall x :: x in [t] + w <==> x in w || x == t
  {
  }

  lemma DropWaiter(place: map<Task, Place>, timers: seq<Timer>, queues: map<nat, seq<Task>>, q: nat)
    requires SleepersOk(place, timers, queues) && Waiting(queues, q) != []
    ensures queues[q][0] in place
    ensures SleepersOk(place - {queues[q][0]}, timers, queues[q := queues[q][1..]])
  {
    var t := queues[q][0];
    assert t in queues[q];
    TimersWithout(place, timers, t);
    QueuesWithout(place, queues, q);
  }

  lemma TimersWithout(place: map<Task, Place>, timers: seq<Timer>, t: Task)
    requires TimersOk(place, timers) && t in place && place[t] != OnTimer
    ensures TimersOk(place - {t}, timers)
  {
  }

  lemma QueuesWithout(place: map<Task, Place>, queues: map<nat, seq<Task>>, q: nat)
    requires QueuesOk(place, queues) && q in queues && queues[q] != []
    ensures QueuesOk(place - {queues[q][0]}, queues[q := queues[q][1..]])
  {
    hide Distinct;
    var w, t := queues[q][1..], queues[q][0];
    FirstGone(queues[q]);
    assert t in queues[q];
    forall u | u in place - {t} && place[u].OnQueue?
      ensures place[u].q in queues && u in queues[q := w][place[u].q]
    {
      assert u in queues[place[u].q];
    }
  }

  lemma FirstGone(w: seq<Task>)
    requires Distinct(w) && w != []
    ensures Distinct(w[1..]) && forall t :: t in w[1..] <==> t in w && t != w[0]
  {
    forall t | t in w && t != w[0] ensures t in w[1..] {
      var i :| 0 <= i < |w| && w[i] == t;
      assert w[1..][i - 1] == t;
    }
  }

  /** The timers that have not expired. */
  function Unexpired(timers: seq<Timer>, now: int): seq<Timer> {
    if timers == [] then []
    else if now >= timers[|timers| - 1].time then Unexpired(timers[..|timers| - 1], now)
    else Unexpired(timers[..|timers| - 1], now) + [timers[|timers| - 1]]
  }

  /** The tasks of those that have, in list order. */
  function Expired(timers: seq<Timer>, now: int): seq<Task> {
    if timers == [] then []
    else Expired(timers[..|timers| - 1], now) +
         if now >= timers[|timers| - 1].time then [timers[|timers| - 1].task] else []
  }

  lemma NoTimers(now: int)
    ensures Unexpired([], now) == [] && Expired([], now) == []
  {
  }

  /** Every timer is kept or its task is woken, never both. */
  lemma {:induction false} TimersSplit(timers: seq<Timer>, now: int, i: nat)
    requires i < |timers|
    ensures if now >= timers[i].time then timers[i].task in Expired(timers, now) else timers[i] in Unexpired(timers,
        now)
    decreases |timers|
  {
    if i < |timers| - 1 { TimersSplit(timers[..|timers| - 1], now, i); }
  }

  lemma {:induction false} TimersLeft(timers: seq<Timer>, now: int)
    ensures |Expired(timers, now)| + |Unexpired(timers, now)| == |timers|
    ensures forall t :: t in Unexpired(timers, now) ==> t in timers && now < t.time
    decreases |timers|
  {
    if timers != [] {
      var front := timers[..|timers| - 1];
      TimersLeft(front, now);
      assert timers == front + [timers[|timers| - 1]];
    }
  }

  /** One more timer has been looked at. */
  lemma NextTimer(all: seq<Timer>, n: nat, now: int)
    requires n < |all|
    ensures now >= all[n].time ==>
      && Unexpired(all[..n + 1], now) == Unexpired(all[..n], now)
      && Expired(all[..n + 1], now) == Expired(all[..n], now) + [all[n].task]
      && Reversed(Expired(all[..n + 1], now)) == [all[n].task] + Reversed(Expired(all[..n], now))
    ensures now < all[n].time ==>
      && Unexpired(all[..n + 1], now) == Unexpired(all[..n], now) + [all[n]]
      && Expired(all[..n + 1], now) == Expired(all[..n], now)
  {
    assert all[..n + 1][..n] == all[..n];
    if now >= all[n].time {
      var e := Expired(all[..n + 1], now);
      ReversedMore(e, |e| - 1);
      assert e[..|e| - 1] == Expired(all[..n], now) && e[..|e|] == e;
    }
  }

  function Reversed(s: seq<Task>): seq<Task> {
    if s == [] then [] else Reversed(s[1..]) + [s[0]]
  }

  /** What concerns tasks that are not in the ring: timers and queues hold exactly the sleepers. */
  ghost predicate ListsOk(place: map<Task, Place>, timers: seq<Timer>, queues: map<nat, seq<Task>>, nextPid: nat,
      live: set<Task>)
    reads live`state, live`timeslice
  {
    && SleepersOk(place, timers, queues)
    && (forall t :: t in live ==> t.timeslice >= 1 && t.pid < nextPid)
    && (forall t, u :: t in live && u in live && t.pid == u.pid ==> t == u)
    && (forall t :: t in place ==> t in live && t.state.Sleeping?)
    && (forall t :: t in live && t.state.Sleeping? ==> t in place)
  }

  /** r holds the tasks that may run, except that `leaving` may be about to go. */
  ghost predicate Runnable(r: seq<Task>, leaving: Task, live: set<Task>)
    reads live`state
  {
    && r != [] && Distinct(r)
    && (forall t :: t in r ==> t in live)
    && (forall t :: t in live && t != leaving ==> (t in r <==> t.state.Running?))
    && (forall t :: t in live && t != leaving ==> !t.state.Zombie?)
  }

  class Scheduler {
    const idle: Task
    var current: Task
    var needResched: bool
    var nextPid: nat                       // next_free_pid
    var timers: seq<Timer>                 // timerq.sleepq from its head
    var queues: map<nat, seq<Task>>        // the wait queues, each from its head

    ghost var ring: seq<Task>              // the cycle of running links, starting at idle
    ghost var live: set<Task>              // tasks whose pages have not been freed
    ghost var place: map<Task, Place>

    /** The ring is a cycle through idle and exactly the tasks that can run; the task that runs is
        one of them; every other task sleeps, in exactly one place; there are no zombies. */
    ghost predicate Valid()
      reads this, live, ring`next, ring`prev
    {
      && ListsOk(place, timers, queues, nextPid, live) && Runnable(ring, current, live)
      && ring[0] == idle && current in ring && current.state.Running? && Cycle(ring)
    }

    /** init_idle */
    constructor ()
      ensures Valid() && fresh(live) && ring == [idle] && current == idle && live == {idle}
    {
      var t := new Task(0, 1);
      idle := t;
      current := t;
      needResched := true;
      nextPid := 1;
      timers := [];
      queues := map[];
      ring := [t];
      live := {t};
      place := map[];
    }

    // ----- schedule

    /** schedule(), for the task at index k of r. A task that has left the running state may or may
        not be unlinked already. A zombie's page is freed, and only after another task runs. */
    method Schedule(ghost r: seq<Task>, ghost k: nat)
      requires ListsOk(place, timers, queues, nextPid, live) && Runnable(r, current, live)
      requires k < |r| && r[k] == current && r[0] == idle
      requires current.state.Running? ==> Cycle(r)
      requires !current.state.Running? ==> k > 0 && PointsInto(current, r, k) && (Cycle(r) || Cycle(Removed(r, k)))
      modifies this`current, this`needResched, this`ring, this`live, live`next, live`prev
      ensures Valid() && !needResched && TurnOk(Turn(r, k))
      ensures
        var t := Next(Turn(r, k), old(current.state.Running?));
        ring == t.ring && current == ring[t.at]
      ensures live == if old(current.state.Zombie?) then old(live) - {old(current)} else old(live)
    {
      hide SleepersOk, Distinct, Cycle, Next, ListsOk, Runnable, PointsInto, TurnOk;
      var prev := current;
      Remaining(r, k, place, timers, queues, nextPid, live);
      LinksInRing(prev, r, k, live);
      ghost var t := Next(Turn(r, k), prev.state.Running?);
      ghost var live' := if prev.state.Zombie? then live - {prev} else live;
      var next := Pick(prev, r, k);
      ring := t.ring;
      needResched := false;
      if next != prev {
        current := next;
        ContextSwitchTail(prev);
      }
    }

    /** Unlink the running task if it no longer runs, and find its successor. */
    method Pick(prev: Task, ghost r: seq<Task>, ghost k: nat) returns (next: Task)
      requires Distinct(r) && k < |r| && r[k] == prev && r[0] == idle
      requires prev.state.Running? ==> Cycle(r)
      requires !prev.state.Running? ==> k > 0 && PointsInto(prev, r, k) && (Cycle(r) || Cycle(Removed(r, k)))
      modifies prev.prev`next, prev.next`prev
      ensures TurnOk(Turn(r, k))
      ensures
        var t := Next(Turn(r, k), prev.state.Running?);
        Cycle(t.ring) && next == t.ring[t.at] && (!prev.state.Running? ==> next != prev)
    {
      hide Cycle, Distinct, PointsInto, Next;
      NextRunnable(r, k, prev.state.Running?);
      next := Unlink(prev, r, k);
      next := SkipIdle(next, r, k, prev.state.Running?);
    }

    /** The successor of the running task, which leaves the ring if it no longer runs. */
    method Unlink(prev: Task, ghost r: seq<Task>, ghost k: nat) returns (next: Task)
      requires Distinct(r) && k < |r| && r[k] == prev
      requires prev.state.Running? ==> Cycle(r)
      requires !prev.state.Running? ==> k > 0 && PointsInto(prev, r, k) && (Cycle(r) || Cycle(Removed(r, k)))
      modifies prev.prev`next, prev.next`prev
      ensures TurnOk(Turn(r, k)) && Cycle(Next(Turn(r, k), prev.state.Running?).ring)
      ensures next == After(r, k)
    {
      NextRunnable(r, k, prev.state.Running?);
      if prev.state.Running? { CycleLinks(r, k); }
      next := prev.next;
      if !prev.state.Running? {
        ListDel(prev, r, k);
      }
    }

    /** Idle runs only if its successor is itself. */
    method SkipIdle(next0: Task, ghost r: seq<Task>, ghost k: nat, ghost stays: bool) returns (next: Task)
      requires Distinct(r) && k < |r| && (k == 0 ==> stays) && next0 == After(r, k) && r[0] == idle
      requires Cycle(Next(Turn(r, k), stays).ring)
      ensures
        var t := Next(Turn(r, k), stays);
        next == t.ring[t.at] && Cycle(t.ring)
    {
      next := next0;
      if next == idle {
        CycleLinks(Next(Turn(r, k), stays).ring, 0);
        var nextNext := next.next;
        if nextNext != idle {
          next := nextNext;
        }
      }
    }

    /** What the next task does first: free the page of a zombie. */
    method ContextSwitchTail(prev: Task)
      requires prev != current
      modifies this`live
      ensures live == if prev.state.Zombie? then old(live) - {prev} else old(live)
    {
      if prev.state.Zombie? {
        live := live - {prev};
      }
    }

    // ----- entering the ring

    /** sys_fork: the child is a copy of the running task and enters the ring behind it. */
    method Fork() returns (p: Task)
      requires Valid()
      modifies this`nextPid, this`ring, this`live, live`next, live`prev
      ensures Valid() && fresh(p) && live == old(live) + {p} && p.state.Running? && p.pid == old(nextPid)
      ensures ring == Inserted(old(ring), IndexOf(old(ring), current), p) && nextPid == old(nextPid) + 1
      ensures p.timeslice == current.timeslice
    {
      hide SleepersOk, Cycle, Distinct;
      MorePids(place, timers, queues, nextPid, live);
      p := NewTask(current.timeslice);
      Enter(current, p, IndexOf(ring, current));
    }

    /** kernel_thread: a new task behind idle. */
    method KernelThread() returns (p: Task)
      requires Valid()
      modifies this`nextPid, this`ring, this`live, live`next, live`prev
      ensures Valid() && fresh(p) && live == old(live) + {p} && p.state.Running? && p.pid == old(nextPid)
      ensures ring == Inserted(old(ring), 0, p) && nextPid == old(nextPid) + 1 && p.timeslice == 10
    {
      hide SleepersOk, Cycle, Distinct;
      MorePids(place, timers, queues, nextPid, live);
      p := NewTask(10);
      Enter(idle, p, 0);
    }

    /** A task structure with the next process number. */
    method NewTask(timeslice: int) returns (p: Task)
      requires timeslice >= 1
      modifies this`nextPid
      ensures fresh(p) && p.state.Running? && p.pid == old(nextPid) && p.timeslice == timeslice
      ensures nextPid == old(nextPid) + 1
    {
      p := new Task(nextPid, timeslice);
      nextPid := nextPid + 1;
    }

    /** list_add(&place->running, &p->running) for a task that can run from now on. */
    method Enter(place_: Task, p: Task, ghost k: nat)
      requires ListsOk(place, timers, queues, nextPid, live) && Runnable(ring, current, live)
      requires ring[0] == idle && current in ring && current.state.Running? && Cycle(ring)
      requires k < |ring| && ring[k] == place_ && p !in live
      requires p.state.Running? && p.timeslice >= 1 && p.pid < nextPid && forall u :: u in live ==> u.pid != p.pid
      modifies this`ring, this`live, p`next, p`prev, live`next, live`prev
      ensures Valid() && ring == Inserted(old(ring), k, p) && live == old(live) + {p} && p.state == old(p.state)
    {
      hide SleepersOk, Cycle, Distinct, ListsOk, Runnable, Inserted, After;
      EnterOk(ring, k, p, current, place, timers, queues, nextPid, live);
      CycleLinks(ring, k);
      ghost var r := Inserted(ring, k, p);
      ListAdd(place_, p, ring, k);
      assert ListsOk(place, timers, queues, nextPid, live + {p});
      assert Runnable(r, current, live + {p});
      ring := r;
      live := live + {p};
    }

    // ----- leaving the ring

    /** sys_usleep and the schedule on the way back to user code: the task is unlinked twice. */
    method Usleep(now: int, us: int)
      requires Valid() && current != idle
      modifies this`current, this`needResched, this`ring, this`live, this`timers, this`place
      modifies live`next, live`prev, current`state
      ensures Valid() && live == old(live) && TurnOk(Turn(old(ring), IndexOf(old(ring), old(current))))
      ensures
        var t := Next(Turn(old(ring), IndexOf(old(ring), old(current))), false);
        ring == t.ring && current == ring[t.at]
      ensures timers == [Timer(WakeTime(now, us), old(current))] + old(timers) && queues == old(queues)
    {
      hide SleepersOk, Cycle, Distinct, Next;
      ghost var r, k := ring, IndexOf(ring, current);
      StartSleep(WakeTime(now, us), r, k);
      Schedule(r, k);
    }

    /** sys_usleep itself. */
    method StartSleep(when: int, ghost r: seq<Task>, ghost k: nat)
      requires Valid() && current != idle && r == ring && k < |r| && r[k] == current
      modifies this`timers, this`place, this`needResched, live`next, live`prev, current`state
      ensures ListsOk(place, timers, queues, nextPid, live) && Runnable(r, current, live) && r[0] == idle
      ensures needResched && current.state == Sleeping && k > 0 && PointsInto(current, r, k) && Cycle(Removed(r, k))
      ensures timers == [Timer(when, current)] + old(timers)
    {
      hide SleepersOk, Cycle, Distinct;
      LeaveFacts(r, k, current, live);
      AddTimer(place, timers, queues, current, when);
      ListDel(current, r, k);
      current.state := Sleeping;
      place := place[current := OnTimer];
      timers := [Timer(when, current)] + timers;
      needResched := true;
    }

    /** waitqueue_sleep and the schedule that follows it. */
    method WaitqueueSleep(q: nat)
      requires Valid() && current != idle
      modifies this`current, this`needResched, this`ring, this`live, this`queues, this`place
      modifies live`next, live`prev, current`state
      ensures Valid() && live == old(live) && TurnOk(Turn(old(ring), IndexOf(old(ring), old(current))))
      ensures
        var t := Next(Turn(old(ring), IndexOf(old(ring), old(current))), false);
        ring == t.ring && current == ring[t.at]
      ensures queues == old(queues)[q := [old(current)] + Waiting(old(queues), q)] && timers == old(timers)
    {
      hide SleepersOk, Cycle, Distinct, Next;
      ghost var r, k := ring, IndexOf(ring, current);
      LeaveFacts(r, k, current, live);
      assert current.state == Running;             // BUG_ON(current->state != TASK_RUNNING)
      current.state := Sleeping;
      AddWaiter(place, timers, queues, current, q);
      place := place[current := OnQueue(q)];
      queues := queues[q := [current] + Waiting(queues, q)];
      needResched := true;
      Schedule(r, k);
    }

    /** The scheduler's part of sys_exit. The page of the task is freed, after the switch. */
    method Exit()
      requires Valid() && current != idle
      modifies this`current, this`needResched, this`ring, this`live, live`next, live`prev, current`state
      ensures Valid() && live == old(live) - {old(current)} && TurnOk(Turn(old(ring), IndexOf(old(ring), old(current))))
      ensures
        var t := Next(Turn(old(ring), IndexOf(old(ring), old(current))), false);
        ring == t.ring && current == ring[t.at]
      ensures timers == old(timers) && queues == old(queues)
    {
      hide SleepersOk, Cycle, Distinct, Next;
      ghost var r, k := ring, IndexOf(ring, current);
      LeaveFacts(r, k, current, live);
      current.state := Zombie;
      Schedule(r, k);
    }

    /** schedule() for a task that keeps running: preemption. */
    method Yield()
      requires Valid()
      modifies this`current, this`needResched, this`ring, this`live, live`next, live`prev
      ensures Valid() && live == old(live) && ring == old(ring)
      ensures TurnOk(Turn(ring, IndexOf(ring, old(current))))
      ensures current == ring[Next(Turn(ring, IndexOf(ring, old(current))), true).at]
      ensures timers == old(timers) && queues == old(queues)
    {
      hide SleepersOk, Cycle, Distinct;
      Schedule(ring, IndexOf(ring, current));
    }

    // ----- waking up

    /** The first waiter of a queue runs again, behind idle. */
    method WakeFirst(q: nat)
      requires Valid() && Waiting(queues, q) != []
      modifies this`ring, this`place, this`queues, this`live, live`state, live`next, live`prev
      ensures Valid() && live == old(live)
      ensures ring == Inserted(old(ring), 0, old(queues[q][0]))
      ensures queues == old(queues)[q := old(queues)[q][1..]]
      ensures forall t :: t in live && t != old(queues[q][0]) ==> t.state == old(t.state)
    {
      hide SleepersOk, Cycle, Distinct, ListsOk, Runnable;
      var t := queues[q][0];
      FirstFacts(ring, current, place, timers, queues, q, nextPid, live);
      assert t.state == Sleeping;                  // BUG_ON(p->state != ...)
      queues := queues[q := queues[q][1..]];
      place := place - {t};
      live := live - {t};
      t.state := Running;
      Enter(idle, t, 0);
    }

    /** waitqueue_wakeup: all waiters run again, the last of the queue nearest to idle. */
    method WaitqueueWakeup(q: nat)
      requires Valid()
      modifies this`ring, this`place, this`queues, this`live, this`needResched, live`state, live`next, live`prev
      ensures Valid() && live == old(live)
      ensures ring == [idle] + Reversed(Waiting(old(queues), q)) + old(ring)[1..]
      ensures Waiting(queues, q) == [] && forall p :: p != q ==> Waiting(queues, p) == Waiting(old(queues), p)
      ensures needResched == (old(needResched) || current == idle)
    {
      hide Scheduler.Valid, Reversed, Inserted;
      StartsIdle();
      Empty();
      assert ring == [idle] + [] + ring[1..];
      ghost var w, n := Waiting(queues, q), 0;
      while q in queues && queues[q] != []
        invariant Valid() && live == old(live) && needResched == old(needResched) && 0 <= n <= |w| &&
            Waiting(queues, q) == w[n..]
        invariant ring == [idle] + Reversed(w[..n]) + old(ring)[1..]
        invariant forall p :: p != q ==> Waiting(queues, p) == Waiting(old(queues), p)
        decreases |Waiting(queues, q)|
      {
        ReversedMore(w, n);
        InsertedFront(idle, w[n], Reversed(w[..n]), old(ring)[1..]);
        WakeFirst(q);
        n := n + 1;
      }
      assert w[..n] == w;
      if current == idle {
        SetNeedResched();
      }
    }

    lemma StartsIdle()
      requires Valid()
      ensures ring != [] && ring[0] == idle
    {
    }

    method SetNeedResched()
      requires Valid()
      modifies this`needResched
      ensures Valid() && needResched
    {
      needResched := true;
    }

    /** The sleeper of timer i runs again, behind idle. */
    method WakeTimer(i: nat)
      requires Valid() && i < |timers|
      modifies this`ring, this`place, this`timers, this`live, live`state, live`next, live`prev
      ensures Valid() && live == old(live)
      ensures ring == Inserted(old(ring), 0, old(timers[i].task))
      ensures timers == old(timers)[..i] + old(timers)[i + 1..]
    {
      hide SleepersOk, Cycle, Distinct, ListsOk, Runnable;
      var t := timers[i].task;
      TimerFacts(ring, current, place, timers, queues, i, nextPid, live);
      timers := timers[..i] + timers[i + 1..];
      place := place - {t};
      live := live - {t};
      t.state := Running;
      Enter(idle, t, 0);
    }

    /** The part of scheduler_tick that looks at the sleepers: those whose time has come run again,
        the others stay, in order. */
    method ExpireTimers(now: int)
      requires Valid()
      modifies this`ring, this`place, this`timers, this`live, this`needResched, live`state, live`next, live`prev
      ensures Valid() && live == old(live)
      ensures timers == Unexpired(old(timers), now)
      ensures ring == [idle] + Reversed(Expired(old(timers), now)) + old(ring)[1..]
      ensures needResched == (old(needResched) || (current == idle && Expired(old(timers), now) != []))
    {
      hide Scheduler.Valid, Unexpired, Expired, Reversed, Inserted;
      StartsIdle();
      Empty();
      NoTimers(now);
      ghost var all, n := timers, 0;
      assert ring == [idle] + [] + ring[1..];
      var i := 0;
      while i < |timers|
        invariant Valid() && live == old(live) && 0 <= i <= |timers| && 0 <= n <= |all|
        invariant i == |Unexpired(all[..n], now)| && timers == Unexpired(all[..n], now) + all[n..]
        invariant ring == [idle] + Reversed(Expired(all[..n], now)) + old(ring)[1..]
        invariant needResched == (old(needResched) || (current == idle && Expired(all[..n], now) != []))
        decreases |timers| - i
      {
        NextTimer(all, n, now);
        assert timers[i] == all[n];
        if now >= timers[i].time {
          InsertedFront(idle, all[n].task, Reversed(Expired(all[..n], now)), old(ring)[1..]);
          WakeTimer(i);
          if current == idle {
            SetNeedResched();
          }
        } else {
          i := i + 1;
        }
        n := n + 1;
      }
      assert all[..n] == all;
    }

    /** scheduler_tick: expire timers, then charge the running task. */
    method Tick(now: int)
      requires Valid()
      modifies this`ring, this`place, this`timers, this`live, this`needResched
      modifies live`state, live`next, live`prev, current`timeslice
      ensures Valid() && live == old(live)
      ensures timers == Unexpired(old(timers), now)
      ensures ring == [idle] + Reversed(Expired(old(timers), now)) + old(ring)[1..]
      ensures current.timeslice == if old(current.timeslice) == 1 then TIMESLICE else old(current.timeslice) - 1
      ensures needResched ==
        (old(needResched) || old(current.timeslice) == 1 || (current == idle && Expired(old(timers), now) != []))
    {
      hide Scheduler.Valid, Unexpired, Expired, Reversed;
      RunningTask();
      ExpireTimers(now);
      Charge();
    }

    lemma RunningTask()
      requires Valid()
      ensures current in live && current.timeslice >= 1
    {
    }

    /** The end of scheduler_tick. */
    method Charge()
      requires Valid()
      modifies this`needResched, current`timeslice
      ensures Valid()
      ensures current.timeslice == if old(current.timeslice) == 1 then TIMESLICE else old(current.timeslice) - 1
      ensures needResched == (old(needResched) || old(current.timeslice) == 1)
    {
      hide SleepersOk, Cycle, Distinct, Runnable;
      current.timeslice := current.timeslice - 1;
      if current.timeslice == 0 {
        needResched := true;
        current.timeslice := TIMESLICE;
      }
    }
  }

  /** A new task that can run is in order once it is in the ring. */
  lemma EnterOk(r: seq<Task>, k: nat, p: Task, current: Task, place: map<Task, Place>, timers: seq<Timer>,
      queues: map<nat, seq<Task>>, nextPid: nat, live: set<Task>)
    requires Runnable(r, current, live) && k < |r| && p !in live && p.state.Running?
    requires ListsOk(place, timers, queues, nextPid, live) && p.timeslice >= 1
    requires p.pid < nextPid && forall u :: u in live ==> u.pid != p.pid
    ensures p !in r && (forall t :: t in Inserted(r, k, p) <==> t in r || t == p)
    ensures Runnable(Inserted(r, k, p), current, live + {p})
    ensures ListsOk(place, timers, queues, nextPid, live + {p})
    ensures Inserted(r, k, p)[0] == r[0] && r[k] in live && After(r, k) in live
  {
    hide SleepersOk;
    var s := Inserted(r, k, p);
    forall t ensures t in s <==> t in r || t == p {
      if t in r {
        var i :| 0 <= i < |r| && r[i] == t;
        assert s[if i <= k then i else i + 1] == t;
      }
      assert s[k + 1] == p;
    }
  }

  lemma MorePids(place: map<Task, Place>, timers: seq<Timer>, queues: map<nat, seq<Task>>, nextPid: nat,
      live: set<Task>)
    requires ListsOk(place, timers, queues, nextPid, live)
    ensures ListsOk(place, timers, queues, nextPid + 1, live)
    ensures forall u :: u in live ==> u.pid < nextPid && u.timeslice >= 1
  {
  }

  /** A sleeper that is taken off its list: the others are in order. */
  lemma WakeFacts(r: seq<Task>, t: Task, current: Task, place: map<Task, Place>, timers: seq<Timer>, queues: map<nat,
      seq<Task>>,
                  timers': seq<Timer>, queues': map<nat, seq<Task>>, nextPid: nat, live: set<Task>)
    requires ListsOk(place, timers, queues, nextPid, live) && Runnable(r, current, live) && current in r
    requires current.state.Running?
    requires t in place && SleepersOk(place - {t}, timers', queues')
    ensures t in live && t !in r && t.timeslice >= 1 && t.pid < nextPid && t != current
    ensures ListsOk(place - {t}, timers', queues', nextPid, live - {t})
    ensures Runnable(r, current, live - {t})
    ensures forall u :: u in live - {t} ==> u.pid != t.pid
  {
    hide SleepersOk;
    assert t.state.Sleeping?;
  }

  lemma FirstFacts(r: seq<Task>, current: Task, place: map<Task, Place>, timers: seq<Timer>, queues: map<nat,
      seq<Task>>, q: nat, nextPid: nat, live: set<Task>)
    requires ListsOk(place, timers, queues, nextPid, live) && Runnable(r, current, live) && current in r
    requires current.state.Running?
    requires Waiting(queues, q) != []
    ensures
      var t := queues[q][0];
      && t in live && t !in r && t.timeslice >= 1 && t.pid < nextPid && t != current && t.state.Sleeping?
      && ListsOk(place - {t}, timers, queues[q := queues[q][1..]], nextPid, live - {t})
      && Runnable(r, current, live - {t})
      && (forall u :: u in live - {t} ==> u.pid != t.pid)
  {
    hide SleepersOk;
    DropWaiter(place, timers, queues, q);
    WakeFacts(r, queues[q][0], current, place, timers, queues, timers, queues[q := queues[q][1..]], nextPid, live);
  }

  lemma TimerFacts(r: seq<Task>, current: Task, place: map<Task, Place>, timers: seq<Timer>, queues: map<nat,
      seq<Task>>, i: nat, nextPid: nat, live: set<Task>)
    requires ListsOk(place, timers, queues, nextPid, live) && Runnable(r, current, live) && current in r
    requires current.state.Running?
    requires i < |timers|
    ensures
      var t := timers[i].task;
      && t in live && t !in r && t.timeslice >= 1 && t.pid < nextPid && t != current
      && ListsOk(place - {t}, timers[..i] + timers[i + 1..], queues, nextPid, live - {t})
      && Runnable(r, current, live - {t})
      && (forall u :: u in live - {t} ==> u.pid != t.pid)
  {
    hide SleepersOk;
    DropTimer(place, timers, queues, i);
    WakeFacts(r, timers[i].task, current, place, timers, queues, timers[..i] + timers[i + 1..], queues, nextPid, live);
  }

  /** What the running task knows when it leaves. */
  lemma LeaveFacts(r: seq<Task>, k: nat, current: Task, live: set<Task>)
    requires Runnable(r, current, live) && Cycle(r) && k < |r| && r[k] == current && current != r[0]
    ensures k > 0 && PointsInto(current, r, k) && Distinct(r)
    ensures current.next in live && current.prev in live
  {
    CycleLinks(r, k);
  }

  lemma LinksInRing(prev: Task, r: seq<Task>, k: nat, live: set<Task>)
    requires Runnable(r, prev, live) && k < |r| && r[k] == prev
    requires Cycle(r) || PointsInto(prev, r, k)
    ensures Distinct(r) && prev.next in live && prev.prev in live && prev in live
  {
    if Cycle(r) { CycleLinks(r, k); }
  }

  /** After a call of schedule by the task at k, everything is in order again. */
  lemma Remaining(r: seq<Task>, k: nat, place: map<Task, Place>, timers: seq<Timer>, queues: map<nat, seq<Task>>,
      nextPid: nat, live: set<Task>)
    requires k < |r| && Runnable(r, r[k], live) && ListsOk(place, timers, queues, nextPid, live)
    requires k == 0 ==> r[k].state.Running?
    ensures TurnOk(Turn(r, k))
    ensures
      var t := Next(Turn(r, k), r[k].state.Running?);
      var live' := if r[k].state.Zombie? then live - {r[k]} else live;
      && t.ring[0] == r[0] && t.ring[t.at] in live && t.ring[t.at].state.Running? && t.ring[t.at] in t.ring
      && Runnable(t.ring, t.ring[t.at], live')
      && ListsOk(place, timers, queues, nextPid, live')
  {
    hide Next, TurnOk, Runnable, ListsOk;
    RunnableAfter(r, k, live);
    if r[k].state.Zombie? { ZombieGone(r[k], place, timers, queues, nextPid, live); }
  }

  lemma RunnableAfter(r: seq<Task>, k: nat, live: set<Task>)
    requires k < |r| && Runnable(r, r[k], live) && (k == 0 ==> r[k].state.Running?)
    ensures TurnOk(Turn(r, k))
    ensures
      var t := Next(Turn(r, k), r[k].state.Running?);
      var live' := if r[k].state.Zombie? then live - {r[k]} else live;
      && TurnOk(t) && t.at < |t.ring|
      && t.ring[0] == r[0] && t.ring[t.at] in live && t.ring[t.at].state.Running? && t.ring[t.at] in t.ring
      && Runnable(t.ring, t.ring[t.at], live')
  {
    hide Next, Distinct, TurnOk;
    NextRunnable(r, k, r[k].state.Running?);
    var t := Next(Turn(r, k), r[k].state.Running?);
    assert t.ring[t.at] in t.ring;
  }

  lemma ZombieGone(t: Task, place: map<Task, Place>, timers: seq<Timer>, queues: map<nat, seq<Task>>, nextPid: nat,
      live: set<Task>)
    requires ListsOk(place, timers, queues, nextPid, live) && t.state.Zombie?
    ensures ListsOk(place, timers, queues, nextPid, live - {t})
  {
    hide SleepersOk;
  }

  /** What remains in the ring after a call of schedule. */
  lemma NextRunnable(r: seq<Task>, k: nat, stays: bool)
    requires Distinct(r) && k < |r| && (k == 0 ==> stays)
    ensures TurnOk(Turn(r, k))
    ensures
      var t := Next(Turn(r, k), stays);
      && t.ring == (if stays then r else Removed(r, k)) && TurnOk(t)
      && Distinct(t.ring) && t.ring != [] && t.ring[0] == r[0] && t.at < |t.ring|
      && (forall x :: x in t.ring <==> x in r && (stays || x != r[k]))
      && (!stays ==> t.ring[t.at] != r[k])
  {
    NextPicks(Turn(r, k), stays);
  }

  lemma InsertedFront(idle: Task, t: Task, woken: seq<Task>, rest: seq<Task>)
    ensures Inserted([idle] + woken + rest, 0, t) == [idle] + ([t] + woken) + rest
  {
    var r := [idle] + woken + rest;
    assert r[..1] == [idle] && r[1..] == woken + rest;
  }

  lemma Empty()
    ensures Reversed([]) == []
  {
  }

  lemma {:induction false} ReversedMore(w: seq<Task>, n: nat)
    requires n < |w|
    ensures Reversed(w[..n + 1]) == [w[n]] + Reversed(w[..n])
    decreases n
  {
    if n > 0 {
      ReversedMore(w[1..], n - 1);
      assert w[..n + 1][1..] == w[1..][..n] && w[..n][1..] == w[1..][..n - 1];
    } else {
      assert w[..1][1..] == [] && w[..0] == [];
    }
  }
}
