/** The circular doubly linked list of src/include/list.h, as the run ring of the scheduler uses
    it: the links are fields of the tasks themselves. */
module RunRing {

  datatype TaskState = Running | Sleeping | Zombie

  class Task {
    const pid: nat
    var state: TaskState
    var timeslice: int
    var prev: Task              // running.prev
    var next: Task              // running.next

    /** A new task structure, with list_init on its link. */
    constructor (pid: nat, timeslice: int)
      ensures this.pid == pid && state == Running && this.timeslice == timeslice
      ensures prev == this && next == this
    {
      this.pid := pid;
      state := Running;
      this.timeslice := timeslice;
      prev := this;
      next := this;
    }
  }

  predicate Distinct(r: seq<Task>) {
    forall i, j :: 0 <= i < j < |r| ==> r[i] != r[j]
  }

  /** The links of these tasks form one cycle, in this order. */
  ghost predicate Cycle(r: seq<Task>)
    reads r`next, r`prev
  {
    && r != [] && Distinct(r)
    && (forall i {:trigger r[i].next} :: 0 <= i < |r| - 1 ==> r[i].next == r[i + 1])
    && (forall i {:trigger r[i].prev} :: 0 < i < |r| ==> r[i].prev == r[i - 1])
    && r[|r| - 1].next == r[0] && r[0].prev == r[|r| - 1]
  }

  /** The successor in the cycle. */
  function After(r: seq<Task>, k: nat): Task
    requires k < |r|
  {
    if k == |r| - 1 then r[0] else r[k + 1]
  }

  function Before(r: seq<Task>, k: nat): Task
    requires k < |r|
  {
    if k == 0 then r[|r| - 1] else r[k - 1]
  }

  function Inserted(r: seq<Task>, k: nat, t: Task): seq<Task>
    requires k < |r|
  {
    r[..k + 1] + [t] + r[k + 1..]
  }

  function Removed(r: seq<Task>, k: nat): seq<Task>
    requires k < |r|
  {
    r[..k] + r[k + 1..]
  }

  lemma CycleLinks(r: seq<Task>, k: nat)
    requires Cycle(r) && k < |r|
    ensures r[k].next == After(r, k) && r[k].prev == Before(r, k)
  {
  }

  /** list_add: `what` goes right behind `place`. */
  method ListAdd(place: Task, what: Task, ghost r: seq<Task>, ghost k: nat)
    requires Cycle(r) && k < |r| && r[k] == place && what !in r
    modifies place`next, place.next`prev, what`prev, what`next
    ensures Cycle(Inserted(r, k, what))
    ensures place.next == what && what.prev == place && what.next == old(place.next)
  {
    CycleLinks(r, k);
    what.prev := place;
    what.next := place.next;
    place.next.prev := what;
    place.next := what;
    ghost var s := Inserted(r, k, what);
    assert Distinct(s) by { InsertedDistinct(r, k, what); }
    hide Distinct;
    forall i | 0 < i < |s| ensures s[i].prev == s[i - 1] {
      if i > k + 2 { assert s[i] == r[i - 1] && s[i - 1] == r[i - 2] && r[i - 1].prev == r[i - 2]; }
      if i <= k { assert r[i].prev == r[i - 1]; }
    }
  }

  lemma InsertedDistinct(r: seq<Task>, k: nat, what: Task)
    requires Distinct(r) && k < |r| && what !in r
    ensures Distinct(Inserted(r, k, what))
  {
  }

  /** `what` points to its neighbours in r, whether or not it is still linked there. */
  ghost predicate PointsInto(what: Task, r: seq<Task>, k: nat)
    reads what`next, what`prev
  {
    k < |r| && r[k] == what && |r| > 1 && what.next == After(r, k) && what.prev == Before(r, k)
  }

  /** list_del: the links of `what` itself are left as they were, so a second call, before the ring
      changes, does nothing. sys_usleep unlinks, and schedule unlinks the same task again. */
  method ListDel(what: Task, ghost r: seq<Task>, ghost k: nat)
    requires PointsInto(what, r, k) && Distinct(r)
    requires Cycle(r) || Cycle(Removed(r, k))
    modifies what.prev`next, what.next`prev
    ensures Cycle(Removed(r, k)) && PointsInto(what, r, k)
    ensures old(Cycle(Removed(r, k))) ==> forall t :: t in r ==> t.next == old(t.next) && t.prev == old(t.prev)
  {
    ghost var s := Removed(r, k);
    ghost var before := if k == 0 then |s| - 1 else k - 1;
    ghost var after := if k == |s| then 0 else k;
    assert s[before] == Before(r, k) && s[after] == After(r, k);
    assert After(s, before) == After(r, k) && Before(s, after) == Before(r, k);
    if Cycle(s) {
      CycleLinks(s, before);
      CycleLinks(s, after);
    }
    what.prev.next := what.next;
    what.next.prev := what.prev;
  }
}
