/** The wait queue of a kernel object (kernel/tkernel/src/wait.h:89-107,
    kernel/tkernel/src/wait.c:175-238), as the sequence of tasks on its ring. */
module WaitQueue {
  import opened Queue

  /** The results of the system calls on these objects. */
  datatype Er = E_OK | E_PAR | E_OBJ | E_CTX | E_TMOUT | E_DISWAI | Waits

  /** A waiting task and the request it waits with. A smaller number is a higher priority. */
  datatype Waiter<+R> = Waiter(task: int, pri: int, req: R)

  /** Where queue_insert_tpri puts a task: before the first of strictly lower priority. */
  function Position<R>(q: seq<Waiter<R>>, pri: int): (p: nat)
    ensures p <= |q|
    ensures forall i :: 0 <= i < p ==> q[i].pri <= pri
    ensures p < |q| ==> q[p].pri > pri
  {
    if q == [] || q[0].pri > pri then 0 else 1 + Position(q[1..], pri)
  }

  /** gcb_make_wait: TA_TPRI objects insert by priority, TA_TFIFO objects at the end. */
  function Enqueue<R>(q: seq<Waiter<R>>, w: Waiter<R>, tpri: bool): seq<Waiter<R>> {
    var p := if tpri then Position(q, w.pri) else |q|;
    InsertAt(q, p, w)
  }

  /** gcb_top_of_wait_queue: would the caller be served before everyone waiting? */
  predicate CallerFirst<R>(q: seq<Waiter<R>>, pri: int, tpri: bool) {
    q == [] || (tpri && pri < q[0].pri)
  }

  ghost predicate Waiting<R>(q: seq<Waiter<R>>, task: int) {
    exists i :: 0 <= i < |q| && q[i].task == task
  }

  /** No task is on the queue twice. */
  ghost predicate TasksDistinct<R>(q: seq<Waiter<R>>) {
    forall i, j :: 0 <= i < j < |q| ==> q[i].task != q[j].task
  }

  ghost predicate ByPriority<R>(q: seq<Waiter<R>>) {
    forall i, j :: 0 <= i < j < |q| ==> q[i].pri <= q[j].pri
  }

  /** QueRemove of a task that leaves from anywhere in the queue. */
  function Without<R(!new)>(q: seq<Waiter<R>>, task: int): (r: seq<Waiter<R>>)
    ensures |r| <= |q|
    ensures forall w :: w in r <==> w in q && w.task != task
  {
    if q == [] then []
    else if q[0].task == task then Without(q[1..], task)
    else [q[0]] + Without(q[1..], task)
  }

  /** A task that does not go first leaves the head of the queue as it is. */
  lemma EnqueueBehind<R(!new)>(q: seq<Waiter<R>>, w: Waiter<R>, tpri: bool)
    ensures |Enqueue(q, w, tpri)| == |q| + 1
    ensures !CallerFirst(q, w.pri, tpri) ==> Enqueue(q, w, tpri)[0] == q[0]
    ensures CallerFirst(q, w.pri, tpri) ==> Enqueue(q, w, tpri) == [w] + q
  {
  }

  /** r is q with w in its place: at the end, or with TA_TPRI before the first of strictly
      lower priority. */
  ghost predicate Placed<R(!new)>(q: seq<Waiter<R>>, w: Waiter<R>, tpri: bool, r: seq<Waiter<R>>) {
    exists p ::
      && 0 <= p <= |q| && r == InsertAt(q, p, w)
      && (p < |q| ==> tpri && q[p].pri > w.pri)
      && (tpri ==> forall k :: 0 <= k < p ==> q[k].pri <= w.pri)
  }

  lemma EnqueuePlaced<R(!new)>(q: seq<Waiter<R>>, w: Waiter<R>, tpri: bool)
    ensures Placed(q, w, tpri, Enqueue(q, w, tpri))
  {
    var p := if tpri then Position(q, w.pri) else |q|;
    assert Enqueue(q, w, tpri) == InsertAt(q, p, w);
  }

  /** A task that leaves takes its own place with it and no other. */
  lemma {:induction false} WithoutAt<R(!new)>(q: seq<Waiter<R>>, i: nat)
    requires TasksDistinct(q) && i < |q|
    ensures Without(q, q[i].task) == RemoveAt(q, i)
  {
    hide RemoveAt;
    RemoveAtRest(q, i);
    if i == 0 {
      WithoutNone(q[1..], q[0].task);
    } else {
      assert q[0].task != q[i].task && TasksDistinct(q[1..]) && q[1..][i - 1] == q[i];
      hide TasksDistinct;
      WithoutAt(q[1..], i - 1);
    }
  }

  lemma {:induction false} WithoutNone<R(!new)>(q: seq<Waiter<R>>, task: int)
    requires forall i :: 0 <= i < |q| ==> q[i].task != task
    ensures Without(q, task) == q
  {
    if q != [] { WithoutNone(q[1..], task); }
  }

  /** gcb_change_priority: task i of q goes to the place of its new priority. */
  ghost predicate Requeued<R(!new)>(q: seq<Waiter<R>>, i: nat, pri: int, r: seq<Waiter<R>>)
    requires i < |q|
  {
    Placed(RemoveAt(q, i), q[i].(pri := pri), true, r)
  }

  lemma RequeuedAt<R(!new)>(q: seq<Waiter<R>>, i: nat, pri: int)
    requires TasksDistinct(q) && i < |q|
    ensures Requeued(q, i, pri, Enqueue(Without(q, q[i].task), q[i].(pri := pri), true))
  {
    WithoutAt(q, i);
    EnqueuePlaced(RemoveAt(q, i), q[i].(pri := pri), true);
  }

  lemma EnqueueMembers<R(!new)>(q: seq<Waiter<R>>, w: Waiter<R>, tpri: bool)
    ensures forall x :: x in Enqueue(q, w, tpri) <==> x in q || x == w
    ensures multiset(Enqueue(q, w, tpri)) == multiset(q) + multiset{w}
  {
    var p := if tpri then Position(q, w.pri) else |q|;
    assert q == q[..p] + q[p..];
  }

  /** Equal priorities stay in arrival order. */
  lemma EnqueueKeepsPriority<R>(q: seq<Waiter<R>>, w: Waiter<R>)
    requires ByPriority(q)
    ensures ByPriority(Enqueue(q, w, true))
    ensures forall i :: 0 <= i < |q| && q[i].pri == w.pri ==> i < Position(q, w.pri)
  {
    hide InsertAt;
    var p := Position(q, w.pri);
    var r := Enqueue(q, w, true);
    hide Position;
    forall i, j | 0 <= i < j < |r| ensures r[i].pri <= r[j].pri {
      PlaceOrder(q, w, p, i, j);
    }
  }

  lemma PlaceOrder<R>(q: seq<Waiter<R>>, w: Waiter<R>, p: nat, i: int, j: int)
    requires ByPriority(q) && p <= |q| && 0 <= i < j <= |q|
    requires (forall k :: 0 <= k < p ==> q[k].pri <= w.pri) && (p < |q| ==> q[p].pri > w.pri)
    ensures InsertAt(q, p, w)[i].pri <= InsertAt(q, p, w)[j].pri
  {
    hide InsertAt;
    var a, b := if i < p then i else i - 1, if j < p then j else j - 1;
    assert i == p ==> q[p].pri <= q[b].pri;
    assert i != p && j != p ==> q[a].pri <= q[b].pri;
  }

  lemma EnqueueDistinct<R>(q: seq<Waiter<R>>, w: Waiter<R>, tpri: bool)
    requires TasksDistinct(q) && !Waiting(q, w.task)
    ensures TasksDistinct(Enqueue(q, w, tpri))
  {
  }

  lemma WithoutDistinct<R(!new)>(q: seq<Waiter<R>>, task: int)
    requires TasksDistinct(q)
    ensures TasksDistinct(Without(q, task)) && !Waiting(Without(q, task), task)
  {
    if q != [] {
      WithoutDistinct(q[1..], task);
      if q[0].task != task {
        var r := Without(q[1..], task);
        forall i | 0 <= i < |r| ensures r[i].task != q[0].task {
          assert r[i] in r && r[i] in q[1..];
        }
      }
    }
  }

  /** queue_insert_tpri: the scan for the place of a task. */
  method InsertTpri<R>(q: seq<Waiter<R>>, w: Waiter<R>) returns (r: seq<Waiter<R>>)
    ensures r == Enqueue(q, w, true)
  {
    var p := 0;
    while p < |q| && q[p].pri <= w.pri
      invariant 0 <= p <= |q|
      invariant Position(q, w.pri) == p + Position(q[p..], w.pri)
    {
      assert q[p..][1..] == q[p + 1..];
      p := p + 1;
    }
    r := InsertAt(q, p, w);
  }

  // ---- queues of task numbers ----

  /** QueRemove of one entry, wherever it is. */
  function Skip(q: seq<int>, task: int): (r: seq<int>)
    ensures |r| <= |q| && forall t :: t in r <==> t in q && t != task
  {
    if q == [] then [] else if q[0] == task then Skip(q[1..], task) else [q[0]] + Skip(q[1..], task)
  }

  lemma {:induction false} SkipDistinct(q: seq<int>, task: int)
    requires Distinct(q)
    ensures Distinct(Skip(q, task))
  {
    if q != [] {
      SkipDistinct(q[1..], task);
      if q[0] != task {
        var r := Skip(q[1..], task);
        forall i | 0 <= i < |r| ensures r[i] != q[0] {
          assert r[i] in r && r[i] in q[1..];
        }
      }
    }
  }

  lemma {:induction false} SkipHead(q: seq<int>)
    requires q != [] && Distinct(q)
    ensures Skip(q, q[0]) == q[1..]
  {
    SkipNothing(q[1..], q[0]);
  }

  /** The only occurrence of a task goes. */
  lemma {:induction false} SkipAt(q: seq<int>, i: nat)
    requires Distinct(q) && i < |q|
    ensures Skip(q, q[i]) == RemoveAt(q, i)
  {
    hide RemoveAt;
    RemoveAtRest(q, i);
    if i == 0 {
      SkipHead(q);
    } else {
      SkipAt(q[1..], i - 1);
      assert q[0] != q[i];
    }
  }

  lemma {:induction false} SkipNothing(q: seq<int>, task: int)
    requires task !in q
    ensures Skip(q, task) == q
  {
    if q != [] { SkipNothing(q[1..], task); }
  }

  /** x is in line before a. */
  ghost predicate Ahead(q: seq<int>, x: int, a: int) {
    exists i, j :: 0 <= i < j < |q| && q[i] == x && q[j] == a
  }

  lemma {:induction false} SkipAhead(q: seq<int>, task: int, x: int, a: int)
    requires Ahead(Skip(q, task), x, a)
    ensures Ahead(q, x, a)
  {
    var r := Skip(q, task);
    var i, j :| 0 <= i < j < |r| && r[i] == x && r[j] == a;
    var rest := Skip(q[1..], task);
    if q[0] == task || i > 0 {
      var d := if q[0] == task then 0 else 1;
      assert rest[i - d] == x && rest[j - d] == a;
      SkipAhead(q[1..], task, x, a);
      var k, l :| 0 <= k < l < |q[1..]| && q[1..][k] == x && q[1..][l] == a;
      assert q[k + 1] == x && q[l + 1] == a;
    } else {
      assert rest[j - 1] == a && a in q[1..];
      var l :| 0 <= l < |q[1..]| && q[1..][l] == a;
      assert q[0] == x && q[l + 1] == a;
    }
  }

  /** In a queue without repetition two tasks have one order. */
  lemma OneOrder(q: seq<int>, x: int, a: int)
    requires Distinct(q) && x in q && a in q && x != a
    ensures Ahead(q, x, a) <==> !Ahead(q, a, x)
  {
    var i, j :| 0 <= i < |q| && q[i] == x && 0 <= j < |q| && q[j] == a;
  }
}
