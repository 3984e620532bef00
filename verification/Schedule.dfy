/** Which task runs next: the choice schedule() makes, as a function of the run ring, and how long
    a task can wait for its turn (src/kernel/sched.c:87-112). */
module Schedule {

  /** A ring position: tasks in ring order with idle first, and the index of the running one. */
  datatype Turn<T(==)> = Turn(ring: seq<T>, at: nat)

  predicate TurnOk<T>(s: Turn<T>) {
    && s.at < |s.ring|
    && forall i, j :: 0 <= i < j < |s.ring| ==> s.ring[i] != s.ring[j]
  }

  /** One call of schedule(). `stays` is false if the running task sleeps or exits; idle stays. */
  function Next<T>(s: Turn<T>, stays: bool): (t: Turn<T>)
    requires TurnOk(s) && (s.at == 0 ==> stays)
    ensures TurnOk(t)
  {
    var ring := if stays then s.ring else s.ring[..s.at] + s.ring[s.at + 1..];
    var succ := if stays then s.at + 1 else s.at;
    Turn(ring, if succ < |ring| then succ else if |ring| > 1 then 1 else 0)
  }

  /** Idle is picked only when there is no other task; a task that has just left is never picked;
      nobody else enters or leaves. */
  lemma NextPicks<T>(s: Turn<T>, stays: bool)
    requires TurnOk(s) && (s.at == 0 ==> stays)
    ensures
      var t := Next(s, stays);
      && (t.at == 0 <==> |t.ring| == 1)
      && (forall x :: x in t.ring <==> x in s.ring && (stays || x != s.ring[s.at]))
      && t.ring[0] == s.ring[0]
      && (!stays ==> t.ring[t.at] != s.ring[s.at])
  {
    var t := Next(s, stays);
    if !stays {
      forall x ensures x in t.ring <==> x in s.ring && x != s.ring[s.at] {
        if x in s.ring && x != s.ring[s.at] {
          var i :| 0 <= i < |s.ring| && s.ring[i] == x;
          assert t.ring[if i < s.at then i else i - 1] == x;
        }
      }
    }
  }

  /** How many calls until the task at index j runs. */
  function Distance(at: nat, j: nat, n: nat): nat
    requires at < n && 0 < j < n
  {
    if at < j then j - at else n - 1 - at + j
  }

  lemma DistanceBound(at: nat, j: nat, n: nat)
    requires at < n && 0 < j < n
    ensures 0 < Distance(at, j, n) <= n - 1
  {
  }

  /** Each call brings every waiting task one step closer. */
  lemma OneCloser<T>(s: Turn<T>, stays: bool, j: nat)
    requires TurnOk(s) && (s.at == 0 ==> stays) && 0 < j < |s.ring| && j != s.at
    ensures
      var t := Next(s, stays);
      var j' := if stays || j < s.at then j else j - 1;
      && 0 < j' < |t.ring| && t.ring[j'] == s.ring[j]
      && if Distance(s.at, j, |s.ring|) == 1 then t.at == j'
         else t.at != j' && Distance(t.at, j', |t.ring|) == Distance(s.at, j, |s.ring|) - 1
  {
  }

  /** The ring after a number of calls. stays[i] says whether the task running at the i-th call
      stays; the idle task always does. */
  function AfterCalls<T>(s: Turn<T>, stays: seq<bool>): Turn<T>
    requires TurnOk(s)
    decreases |stays|
  {
    if stays == [] then s else AfterCalls(Next(s, stays[0] || s.at == 0), stays[1..])
  }

  /** Bounded waiting: with nobody entering the ring, a waiting task runs after exactly as many
      calls as its distance, which is less than the number of tasks, whoever sleeps or exits. */
  lemma {:induction false} BoundedWaiting<T>(s: Turn<T>, stays: seq<bool>, j: nat)
    requires TurnOk(s) && 0 < j < |s.ring| && j != s.at
    requires |stays| == Distance(s.at, j, |s.ring|)
    ensures TurnOk(AfterCalls(s, stays)) && AfterCalls(s, stays).ring[AfterCalls(s, stays).at] == s.ring[j]
    ensures |stays| < |s.ring|
    decreases |stays|
  {
    DistanceBound(s.at, j, |s.ring|);
    var keep := stays[0] || s.at == 0;
    OneCloser(s, keep, j);
    if |stays| > 1 {
      BoundedWaiting(Next(s, keep), stays[1..], if keep || j < s.at then j else j - 1);
    } else {
      assert stays[1..] == [];
    }
  }
}
