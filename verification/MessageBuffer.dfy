/** Sending to and receiving from a message buffer
    (kernel/tkernel/src/messagebuf.c:200-252, 377-519): what each call does, and the
    states that any sequence of calls, timeouts and priority changes can reach. */
module MessageBuffer {
  import Queue
  import opened WaitQueue
  import opened MessageRing

  datatype Delivery = Delivery(task: int, msg: Msg)

  /** A message buffer: the messages stored, the tasks waiting to send (with their
      messages) and to receive, and a record of what was delivered to whom. */
  datatype Mbf = Mbf(bufsz: int, maxmsz: int, tpri: bool,
                     msgs: seq<Msg>, sendq: seq<Waiter<Msg>>, recvq: seq<int>, out: seq<Delivery>)

  predicate CanStore(s: Mbf, m: Msg) {
    Space(m) <= s.bufsz - Bytes(s.msgs)
  }

  /** mbf_wakeup: senders are let in from the front for as long as the head fits. */
  function Wakeup(s: Mbf): Mbf
    decreases |s.sendq|
  {
    if s.sendq != [] && CanStore(s, s.sendq[0].req)
    then Wakeup(s.(msgs := s.msgs + [s.sendq[0].req], sendq := s.sendq[1..]))
    else s
  }

  datatype Event =
    | Snd(task: int, pri: int, data: seq<Byte>, indp: bool, poll: bool, diswai: bool)
    | Rcv(task: int, indp: bool, poll: bool, diswai: bool)
    | EndSend(task: int)            // timeout, forced release or termination
    | EndRecv(task: int)
    | ChgPri(task: int, pri: int)

  /** _tk_snd_mbf_u: the result, and the new state. */
  function Send(s: Mbf, task: int, pri: int, m: Msg, indp: bool, poll: bool, diswai: bool): (Er, Mbf) {
    if m.data == [] then (E_PAR, s)
    else if !poll && indp then (E_CTX, s)
    else if |m.data| > s.maxmsz then (E_PAR, s)
    else if !indp && diswai then (E_DISWAI, s)
    else if s.recvq != [] then (E_OK, s.(recvq := s.recvq[1..], out := s.out + [Delivery(s.recvq[0], m)]))
    else if (indp || CallerFirst(s.sendq, pri, s.tpri)) && CanStore(s, m) then (E_OK, s.(msgs := s.msgs + [m]))
    else if poll then (E_TMOUT, s)
    else (Waits, s.(sendq := Enqueue(s.sendq, Waiter(task, pri, m), s.tpri)))
  }

  /** _tk_rcv_mbf_u */
  function Receive(s: Mbf, task: int, indp: bool, poll: bool, diswai: bool): (Er, Mbf) {
    if indp then (E_CTX, s)
    else if diswai then (E_DISWAI, s)
    else if s.msgs != [] then (E_OK, Wakeup(s.(msgs := s.msgs[1..], out := s.out + [Delivery(task, s.msgs[0])])))
    else if s.sendq != [] then (E_OK, Wakeup(s.(sendq := s.sendq[1..],
                                                out := s.out + [Delivery(task, s.sendq[0].req)])))
    else if poll then (E_TMOUT, s)
    else (Waits, s.(recvq := s.recvq + [task]))
  }

  /** mbf_rel_wai: the task has left the send queue. */
  function SendEnded(s: Mbf, task: int): Mbf {
    Wakeup(s.(sendq := Without(s.sendq, task)))
  }

  function ReceiveEnded(s: Mbf, task: int): Mbf {
    s.(recvq := Skip(s.recvq, task))
  }

  /** The waiter of this task. */
  function Find(q: seq<Waiter<Msg>>, task: int): (i: nat)
    ensures i <= |q| && (i < |q| ==> q[i].task == task)
    ensures i == |q| ==> forall k :: 0 <= k < |q| ==> q[k].task != task
  {
    if q == [] || q[0].task == task then 0 else 1 + Find(q[1..], task)
  }

  /** mbf_chg_pri, which only TA_TPRI buffers have, for a task on the send queue. */
  function Reordered(s: Mbf, task: int, pri: int): Mbf {
    var i := Find(s.sendq, task);
    if !s.tpri || i == |s.sendq| then s
    else Wakeup(s.(sendq := Enqueue(Without(s.sendq, task), s.sendq[i].(pri := pri), true)))
  }

  /** One event; a send call is known by its number. */
  function Step(s: Mbf, e: Event, call: nat): Mbf {
    match e
    case Snd(task, pri, data, indp, poll, diswai) => Send(s, task, pri, Msg(data, call), indp, poll, diswai).1
    case Rcv(task, indp, poll, diswai) => Receive(s, task, indp, poll, diswai).1
    case EndSend(task) => SendEnded(s, task)
    case EndRecv(task) => ReceiveEnded(s, task)
    case ChgPri(task, pri) => Reordered(s, task, pri)
  }

  /** Events call, call + 1, ... one after another. */
  function Run(s: Mbf, es: seq<Event>, call: nat): Mbf
    decreases |es|
  {
    if es == [] then s else Run(Step(s, es[0], call), es[1..], call + 1)
  }

  /** A task that waits makes no calls. */
  ghost predicate Possible(s: Mbf, e: Event) {
    match e
    case Snd(task, _, _, indp, _, _) => indp || (!Waiting(s.sendq, task) && task !in s.recvq)
    case Rcv(task, indp, _, _) => indp || (!Waiting(s.sendq, task) && task !in s.recvq)
    case _ => true
  }

  ghost predicate PossibleRun(s: Mbf, es: seq<Event>, call: nat)
    decreases |es|
  {
    es != [] ==> Possible(s, es[0]) && PossibleRun(Step(s, es[0], call), es[1..], call + 1)
  }

  // ---- the invariant ----

  /** What holds of the parts on their own. */
  ghost predicate Formed(s: Mbf) {
    && 0 <= Bytes(s.msgs) <= s.bufsz && 0 < s.maxmsz < INT_LIMIT
    && (forall m :: m in s.msgs ==> 0 < |m.data| <= s.maxmsz)
    && (forall w :: w in s.sendq ==> 0 < |w.req.data| <= s.maxmsz)
    && TasksDistinct(s.sendq) && Queue.Distinct(s.recvq)
    && (forall t :: t in s.recvq ==> !Waiting(s.sendq, t))
    && (s.tpri ==> ByPriority(s.sendq))
  }

  /** Nobody waits who could be served. */
  ghost predicate Quiet(s: Mbf) {
    && (s.recvq != [] ==> s.msgs == [] && s.sendq == [])
    && (s.sendq != [] ==> !CanStore(s, s.sendq[0].req))
  }

  ghost predicate Settled(s: Mbf) {
    Formed(s) && Quiet(s)
  }

  function Created(bufsz: int, maxmsz: int, tpri: bool): Mbf {
    Mbf(bufsz, maxmsz, tpri, [], [], [], [])
  }

  lemma CreatedSettled(bufsz: int, maxmsz: int, tpri: bool)
    requires 0 <= bufsz && 0 < maxmsz < INT_LIMIT
    ensures Settled(Created(bufsz, maxmsz, tpri))
  {
  }

  lemma {:induction false} WakeupSettles(s: Mbf)
    requires Formed(s) && (s.recvq != [] ==> s.msgs == [] && s.sendq == [])
    ensures Settled(Wakeup(s))
    decreases |s.sendq|
  {
    if s.sendq != [] && CanStore(s, s.sendq[0].req) {
      var t := s.(msgs := s.msgs + [s.sendq[0].req], sendq := s.sendq[1..]);
      hide Wakeup;
      BytesMore(s.msgs, [s.sendq[0].req]);
      BytesFirst([s.sendq[0].req]);
      assert Formed(t) by { TailFormed(s); }
      WakeupSettles(t);
    }
  }

  lemma TailFormed(s: Mbf)
    requires s.sendq != []
    ensures TasksDistinct(s.sendq) ==> TasksDistinct(s.sendq[1..])
    ensures ByPriority(s.sendq) ==> ByPriority(s.sendq[1..])
    ensures forall t :: Waiting(s.sendq[1..], t) ==> Waiting(s.sendq, t)
    ensures forall w :: w in s.sendq[1..] ==> w in s.sendq
  {
    forall t | Waiting(s.sendq[1..], t) ensures Waiting(s.sendq, t) {
      var i :| 0 <= i < |s.sendq[1..]| && s.sendq[1..][i].task == t;
      assert s.sendq[i + 1].task == t;
    }
  }

  lemma WithoutByPriority(q: seq<Waiter<Msg>>, task: int)
    requires ByPriority(q)
    ensures ByPriority(Without(q, task))
  {
    if q != [] {
      var r := Without(q[1..], task);
      WithoutByPriority(q[1..], task);
      if q[0].task != task {
        forall i | 0 <= i < |r| ensures q[0].pri <= r[i].pri {
          assert r[i] in r && r[i] in q[1..];
        }
      }
    }
  }

  lemma WithoutWaiting(q: seq<Waiter<Msg>>, task: int, t: int)
    requires Waiting(Without(q, task), t)
    ensures Waiting(q, t)
  {
    var r := Without(q, task);
    var i :| 0 <= i < |r| && r[i].task == t;
    assert r[i] in r && r[i] in q;
  }

  lemma SendSettled(s: Mbf, task: int, pri: int, m: Msg, indp: bool, poll: bool, diswai: bool)
    requires Settled(s) && (indp || (!Waiting(s.sendq, task) && task !in s.recvq))
    ensures Settled(Send(s, task, pri, m, indp, poll, diswai).1)
  {
    hide CanStore, Enqueue, ByPriority, TasksDistinct, Waiting, Formed;
    var (er, t) := Send(s, task, pri, m, indp, poll, diswai);
    if er == E_OK {
      SendOkFormed(s, t, m);
      if t.msgs != s.msgs && s.sendq != [] { LessRoom(s, t, m); }
    }
    if er == Waits { WaitsSettled(s, Waiter(task, pri, m)); }
  }

  lemma SendOkFormed(s: Mbf, t: Mbf, m: Msg)
    requires Formed(s) && 0 < |m.data| <= s.maxmsz
    requires || (s.recvq != [] && t == s.(recvq := s.recvq[1..], out := s.out + [Delivery(s.recvq[0], m)]))
             || (CanStore(s, m) && t == s.(msgs := s.msgs + [m]))
    ensures Formed(t)
  {
    BytesMore(s.msgs, [m]);
    BytesFirst([m]);
  }

  lemma LessRoom(s: Mbf, t: Mbf, m: Msg)
    requires t == s.(msgs := s.msgs + [m]) && s.sendq != [] && !CanStore(s, s.sendq[0].req)
    ensures !CanStore(t, s.sendq[0].req)
  {
    BytesMore(s.msgs, [m]);
    BytesFirst([m]);
  }

  lemma WaitsSettled(s: Mbf, w: Waiter<Msg>)
    requires Settled(s) && s.recvq == [] && 0 < |w.req.data| <= s.maxmsz && !Waiting(s.sendq, w.task)
    requires CallerFirst(s.sendq, w.pri, s.tpri) ==> !CanStore(s, w.req)
    ensures Settled(s.(sendq := Enqueue(s.sendq, w, s.tpri)))
  {
    hide CanStore, Enqueue, ByPriority, TasksDistinct, Waiting;
    EnqueueBehind(s.sendq, w, s.tpri);
    EnqueueDistinct(s.sendq, w, s.tpri);
    EnqueueMembers(s.sendq, w, s.tpri);
    if s.tpri { EnqueueKeepsPriority(s.sendq, w); }
    SameStore(s, s.(sendq := Enqueue(s.sendq, w, s.tpri)), w.req);
    if s.sendq != [] { SameStore(s, s.(sendq := Enqueue(s.sendq, w, s.tpri)), s.sendq[0].req); }
  }

  lemma SameStore(s: Mbf, t: Mbf, m: Msg)
    requires t.msgs == s.msgs && t.bufsz == s.bufsz
    ensures CanStore(t, m) == CanStore(s, m)
  {
  }

  lemma ReceiveSettled(s: Mbf, task: int, indp: bool, poll: bool, diswai: bool)
    requires Settled(s) && (indp || (!Waiting(s.sendq, task) && task !in s.recvq))
    ensures Settled(Receive(s, task, indp, poll, diswai).1)
  {
    hide Wakeup, TasksDistinct, ByPriority;
    if !indp && !diswai && s.msgs != [] {
      var t := s.(msgs := s.msgs[1..], out := s.out + [Delivery(task, s.msgs[0])]);
      BytesFirst(s.msgs);
      assert Formed(t);
      WakeupSettles(t);
    } else if !indp && !diswai && s.sendq != [] {
      var t := s.(sendq := s.sendq[1..], out := s.out + [Delivery(task, s.sendq[0].req)]);
      TailFormed(s);
      assert Formed(t);
      WakeupSettles(t);
    }
  }

  lemma SendEndedSettled(s: Mbf, task: int)
    requires Settled(s)
    ensures Settled(SendEnded(s, task))
  {
    var t := s.(sendq := Without(s.sendq, task));
    WithoutDistinct(s.sendq, task);
    if s.tpri { WithoutByPriority(s.sendq, task); }
    forall x | x in s.recvq ensures !Waiting(t.sendq, x) {
      if Waiting(t.sendq, x) { WithoutWaiting(s.sendq, task, x); }
    }
    WakeupSettles(t);
  }

  lemma ReorderedSettled(s: Mbf, task: int, pri: int)
    requires Settled(s)
    ensures Settled(Reordered(s, task, pri))
  {
    hide CanStore, Enqueue, ByPriority, TasksDistinct, Waiting, Wakeup, Find;
    var i := Find(s.sendq, task);
    if s.tpri && i < |s.sendq| {
      var rest, w := Without(s.sendq, task), s.sendq[i].(pri := pri);
      WithoutDistinct(s.sendq, task);
      WithoutByPriority(s.sendq, task);
      EnqueueDistinct(rest, w, true);
      EnqueueMembers(rest, w, true);
      EnqueueKeepsPriority(rest, w);
      assert s.sendq[i] in s.sendq;
      WakeupSettles(s.(sendq := Enqueue(rest, w, true)));
    }
  }

  /** Receive waiters and send waiters never coexist, a receive waiter means an empty
      buffer, and the head sender's message never fits: kept by every event. */
  lemma StepSettled(s: Mbf, e: Event, call: nat)
    requires Settled(s) && Possible(s, e)
    ensures Settled(Step(s, e, call))
  {
    match e {
      case Snd(task, pri, data, indp, poll, diswai) => SendSettled(s, task, pri, Msg(data, call), indp, poll, diswai);
      case Rcv(task, indp, poll, diswai) => ReceiveSettled(s, task, indp, poll, diswai);
      case EndSend(task) => SendEndedSettled(s, task);
      case EndRecv(task) => SkipDistinct(s.recvq, task);
      case ChgPri(task, pri) => ReorderedSettled(s, task, pri);
    }
  }

  lemma {:induction false} RunSettled(s: Mbf, es: seq<Event>, call: nat)
    requires Settled(s) && PossibleRun(s, es, call)
    ensures Settled(Run(s, es, call))
    decreases |es|
  {
    if es != [] {
      StepSettled(s, es[0], call);
      RunSettled(Step(s, es[0], call), es[1..], call + 1);
    }
  }

  // ---- order and conservation ----

  function Reqs(q: seq<Waiter<Msg>>): (r: seq<Msg>)
    ensures |r| == |q| && forall i :: 0 <= i < |q| ==> r[i] == q[i].req
  {
    seq(|q|, i requires 0 <= i < |q| => q[i].req)
  }

  function Delivered(out: seq<Delivery>): (r: seq<Msg>)
    ensures |r| == |out| && forall i :: 0 <= i < |out| ==> r[i] == out[i].msg
  {
    seq(|out|, i requires 0 <= i < |out| => out[i].msg)
  }

  /** Delivered or stored, in the order of (future) delivery. */
  function Accepted(s: Mbf): seq<Msg> {
    Delivered(s.out) + s.msgs
  }

  /** Every message the buffer has answered for: delivered, stored or waiting. */
  function Everything(s: Mbf): seq<Msg> {
    Accepted(s) + Reqs(s.sendq)
  }

  lemma DeliveredMore(out: seq<Delivery>, d: Delivery)
    ensures Delivered(out + [d]) == Delivered(out) + [d.msg]
  {
  }

  lemma ReqsJoin(a: seq<Waiter<Msg>>, b: seq<Waiter<Msg>>)
    ensures Reqs(a + b) == Reqs(a) + Reqs(b)
  {
  }

  lemma ReqsFirst(q: seq<Waiter<Msg>>)
    requires q != []
    ensures Reqs(q) == [q[0].req] + Reqs(q[1..])
  {
  }

  /** The head sender's message becomes the newest stored one. */
  lemma HeadStored(s: Mbf)
    requires s.sendq != []
    ensures var t, m := s.(msgs := s.msgs + [s.sendq[0].req], sendq := s.sendq[1..]), s.sendq[0].req;
            Accepted(t) == Accepted(s) + [m] && Everything(t) == Everything(s)
  {
    hide Reqs, Delivered;
    ReqsFirst(s.sendq);
  }

  /** Letting senders in neither loses nor reorders anything. */
  lemma {:induction false} WakeupKeeps(s: Mbf)
    ensures Everything(Wakeup(s)) == Everything(s) && Accepted(s) <= Accepted(Wakeup(s))
    ensures Wakeup(s).recvq == s.recvq && Wakeup(s).out == s.out && Wakeup(s).tpri == s.tpri
    decreases |s.sendq|
  {
    hide Everything, Accepted, CanStore;
    if s.sendq != [] && CanStore(s, s.sendq[0].req) {
      HeadStored(s);
      WakeupKeeps(s.(msgs := s.msgs + [s.sendq[0].req], sendq := s.sendq[1..]));
    }
  }

  /** The oldest stored message is delivered. */
  lemma TakeStored(s: Mbf, task: int)
    requires s.msgs != []
    ensures Accepted(s.(msgs := s.msgs[1..], out := s.out + [Delivery(task, s.msgs[0])])) == Accepted(s)
    ensures Everything(s.(msgs := s.msgs[1..], out := s.out + [Delivery(task, s.msgs[0])])) == Everything(s)
  {
    hide Reqs, Delivered;
    DeliveredMore(s.out, Delivery(task, s.msgs[0]));
    assert Accepted(s.(msgs := s.msgs[1..], out := s.out + [Delivery(task, s.msgs[0])])) == Accepted(s);
  }

  /** The head sender's message is delivered. */
  lemma TakeDirect(s: Mbf, task: int)
    requires s.msgs == [] && s.sendq != []
    ensures var t := s.(sendq := s.sendq[1..], out := s.out + [Delivery(task, s.sendq[0].req)]);
            Accepted(t) == Accepted(s) + [s.sendq[0].req] && Everything(t) == Everything(s)
  {
    hide Reqs, Delivered;
    DeliveredMore(s.out, Delivery(task, s.sendq[0].req));
    ReqsFirst(s.sendq);
  }

  /** Receiving takes the next message in line: the oldest stored, or the head sender's. */
  lemma ReceiveKeeps(s: Mbf, task: int, indp: bool, poll: bool, diswai: bool)
    ensures var t := Receive(s, task, indp, poll, diswai).1;
            Everything(t) == Everything(s) && Accepted(s) <= Accepted(t) && t.tpri == s.tpri
  {
    hide Wakeup, Everything, Accepted;
    if !indp && !diswai && s.msgs != [] {
      TakeStored(s, task);
      WakeupKeeps(s.(msgs := s.msgs[1..], out := s.out + [Delivery(task, s.msgs[0])]));
    } else if !indp && !diswai && s.sendq != [] {
      TakeDirect(s, task);
      WakeupKeeps(s.(sendq := s.sendq[1..], out := s.out + [Delivery(task, s.sendq[0].req)]));
    } else {
      SameParts(s, Receive(s, task, indp, poll, diswai).1);
    }
  }

  lemma ReqsEnqueue(q: seq<Waiter<Msg>>, w: Waiter<Msg>, tpri: bool)
    ensures multiset(Reqs(Enqueue(q, w, tpri))) == multiset(Reqs(q)) + multiset{w.req}
    ensures !tpri ==> Reqs(Enqueue(q, w, tpri)) == Reqs(q) + [w.req]
  {
    var p := if tpri then Position(q, w.pri) else |q|;
    ReqsInsert(q, p, w);
    hide Position, Reqs;
    assert q[p..] == [] ==> Reqs(q[p..]) == [];
  }

  lemma ReqsInsert(q: seq<Waiter<Msg>>, p: nat, w: Waiter<Msg>)
    requires p <= |q|
    ensures Reqs(q[..p] + [w] + q[p..]) == Reqs(q[..p]) + [w.req] + Reqs(q[p..])
    ensures Reqs(q) == Reqs(q[..p]) + Reqs(q[p..])
  {
    hide Reqs;
    assert q == q[..p] + q[p..];
    ReqsJoin(q[..p], q[p..]);
    ReqsJoin(q[..p] + [w], q[p..]);
    ReqsJoin(q[..p], [w]);
    assert Reqs([w]) == [w.req];
  }

  lemma AcceptedMore(s: Mbf, t: Mbf, m: Msg)
    requires t.sendq == s.sendq && Accepted(t) == Accepted(s) + [m]
    ensures multiset(Everything(t)) == multiset(Everything(s)) + multiset{m}
    ensures s.sendq == [] ==> Everything(t) == Everything(s) + [m]
  {
    hide Accepted;
  }

  /** A send call that is not refused adds its message, once. */
  lemma SendKeeps(s: Mbf, task: int, pri: int, m: Msg, indp: bool, poll: bool, diswai: bool)
    requires Quiet(s)
    ensures var (er, t) := Send(s, task, pri, m, indp, poll, diswai);
            && Accepted(s) <= Accepted(t) && t.tpri == s.tpri
            && (er != E_OK && er != Waits ==> t == s)
            && (er == E_OK || er == Waits ==>
                  && multiset(Everything(t)) == multiset(Everything(s)) + multiset{m}
                  && (!s.tpri && (!indp || s.sendq == []) ==> Everything(t) == Everything(s) + [m]))
  {
    hide Reqs, Delivered, Everything, CanStore, Enqueue;
    var (er, t) := Send(s, task, pri, m, indp, poll, diswai);
    if er == E_OK {
      if s.recvq != [] { DeliveredMore(s.out, Delivery(s.recvq[0], m)); }
      assert Accepted(t) == Accepted(s) + [m];
      AcceptedMore(s, t, m);
    }
    if er == Waits {
      SendWaits(s, Waiter(task, pri, m));
    }
  }

  lemma SendWaits(s: Mbf, w: Waiter<Msg>)
    ensures var t := s.(sendq := Enqueue(s.sendq, w, s.tpri));
            && Accepted(t) == Accepted(s)
            && multiset(Everything(t)) == multiset(Everything(s)) + multiset{w.req}
            && (!s.tpri ==> Everything(t) == Everything(s) + [w.req])
  {
    hide Reqs, Delivered, Enqueue;
    ReqsEnqueue(s.sendq, w, s.tpri);
  }

  lemma WithoutReqs(q: seq<Waiter<Msg>>, task: int)
    requires TasksDistinct(q)
    ensures Without(q, task) == var i := Find(q, task); if i == |q| then q else Queue.RemoveAt(q, i)
  {
    hide TasksDistinct, Without, Queue.RemoveAt;
    var i := Find(q, task);
    if i < |q| { WithoutAt(q, i); } else { WithoutNone(q, task); }
  }

  lemma DropMultiset(ms: seq<Msg>, n: int)
    requires 0 <= n < |ms|
    ensures multiset(Queue.RemoveAt(ms, n)) == multiset(ms) - multiset{ms[n]}
    ensures forall i :: 0 <= i < |ms| - 1 ==> Queue.RemoveAt(ms, n)[i] == ms[if i < n then i else i + 1]
  {
    assert ms == ms[..n] + [ms[n]] + ms[n + 1..];
  }

  lemma ReqsDrop(q: seq<Waiter<Msg>>, i: int)
    requires 0 <= i < |q|
    ensures Reqs(Queue.RemoveAt(q, i)) == Queue.RemoveAt(Reqs(q), i)
  {
  }

  lemma EverythingDrop(s: Mbf, i: int)
    requires 0 <= i < |s.sendq|
    ensures var t := s.(sendq := Queue.RemoveAt(s.sendq, i));
            && Accepted(t) == Accepted(s)
            && |Everything(s)| == |Accepted(s)| + |s.sendq|
            && Everything(s)[|Accepted(s)| + i] == s.sendq[i].req
            && Everything(t) == Queue.RemoveAt(Everything(s), |Accepted(s)| + i)
  {
    hide Reqs, Delivered, Queue.RemoveAt;
    ReqsDrop(s.sendq, i);
    DropBehind(Accepted(s), Reqs(s.sendq), i);
  }

  lemma DropBehind(a: seq<Msg>, r: seq<Msg>, i: int)
    requires 0 <= i < |r|
    ensures Queue.RemoveAt(a + r, |a| + i) == a + Queue.RemoveAt(r, i)
  {
  }

  /** A wait that ends takes just its own message away. */
  lemma SendEndedKeeps(s: Mbf, task: int)
    requires TasksDistinct(s.sendq)
    ensures var t, i := SendEnded(s, task), Find(s.sendq, task);
            && Accepted(s) <= Accepted(t) && t.tpri == s.tpri
            && (i == |s.sendq| ==> Everything(t) == Everything(s))
            && (i < |s.sendq| ==>
                  && |Everything(s)| == |Accepted(s)| + |s.sendq|
                  && Everything(s)[|Accepted(s)| + i] == s.sendq[i].req
                  && Everything(t) == Queue.RemoveAt(Everything(s), |Accepted(s)| + i))
  {
    hide SendEnded, Wakeup, Everything, Accepted, Queue.RemoveAt, TasksDistinct, Find;
    var i := Find(s.sendq, task);
    SendEndedIs(s, task);
    if i < |s.sendq| {
      WakeupKeeps(s.(sendq := Queue.RemoveAt(s.sendq, i)));
      EverythingDrop(s, i);
    } else {
      WakeupKeeps(s);
    }
  }

  lemma SendEndedIs(s: Mbf, task: int)
    requires TasksDistinct(s.sendq)
    ensures var i := Find(s.sendq, task);
            SendEnded(s, task) == Wakeup(if i == |s.sendq| then s else s.(sendq := Queue.RemoveAt(s.sendq, i)))
  {
    hide Wakeup, Queue.RemoveAt, TasksDistinct, Find, Without;
    WithoutReqs(s.sendq, task);
  }

  lemma ReorderedKeeps(s: Mbf, task: int, pri: int)
    requires TasksDistinct(s.sendq)
    ensures var t := Reordered(s, task, pri);
            && Accepted(s) <= Accepted(t)
            && multiset(Everything(t)) == multiset(Everything(s))
            && (!s.tpri ==> t == s)
  {
    hide Wakeup, Find, Enqueue, Everything, Accepted, Queue.RemoveAt, TasksDistinct;
    var i := Find(s.sendq, task);
    if s.tpri && i < |s.sendq| {
      var rest, w := s.(sendq := Without(s.sendq, task)), s.sendq[i].(pri := pri);
      WithoutReqs(s.sendq, task);
      EverythingDrop(s, i);
      DropMultiset(Everything(s), |Accepted(s)| + i);
      SendWaits(rest, w);
      var u := s.(sendq := Enqueue(Without(s.sendq, task), w, true));
      assert u == rest.(sendq := Enqueue(rest.sendq, w, rest.tpri));
      var n := |Accepted(s)| + i;
      assert rest == s.(sendq := Queue.RemoveAt(s.sendq, i));
      assert Everything(s)[n] in Everything(s);
      assert Everything(s)[n] == w.req;
      PutBack(multiset(Everything(s)), w.req);
      assert multiset(Everything(u)) == multiset(Everything(s));
      WakeupKeeps(u);
    }
  }

  lemma PutBack(a: multiset<Msg>, m: Msg)
    ensures m in a ==> a - multiset{m} + multiset{m} == a
  {
  }

  /** Once accepted, the order of delivery never changes, whatever the attributes:
      each delivery hands out the next accepted message. */
  lemma StepKeepsOrder(s: Mbf, e: Event, call: nat)
    requires Settled(s)
    ensures Accepted(s) <= Accepted(Step(s, e, call))
  {
    match e {
      case Snd(task, pri, data, indp, poll, diswai) => SendKeeps(s, task, pri, Msg(data, call), indp, poll, diswai);
      case Rcv(task, indp, poll, diswai) => ReceiveKeeps(s, task, indp, poll, diswai);
      case EndSend(task) => SendEndedKeeps(s, task);
      case EndRecv(task) => SameParts(s, ReceiveEnded(s, task));
      case ChgPri(task, pri) => ReorderedKeeps(s, task, pri);
    }
  }

  /** What one event adds to the messages the buffer has answered for. */
  function Gain(s: Mbf, e: Event, call: nat): multiset<Msg> {
    match e
    case Snd(task, pri, data, indp, poll, diswai) =>
      var er := Send(s, task, pri, Msg(data, call), indp, poll, diswai).0;
      if er == E_OK || er == Waits then multiset{Msg(data, call)} else multiset{}
    case _ => multiset{}
  }

  /** What one event takes away from them. */
  function Loss(s: Mbf, e: Event): multiset<Msg> {
    match e
    case EndSend(task) =>
      var i := Find(s.sendq, task);
      if i < |s.sendq| then multiset{s.sendq[i].req} else multiset{}
    case _ => multiset{}
  }

  lemma OnceEach(s: Mbf)
    requires Settled(s)
    ensures TasksDistinct(s.sendq)
  {
  }

  /** Nothing is lost or duplicated: a call that is not refused adds its message, a
      wait that ends takes its own away, and nothing else changes the collection. */
  lemma StepConserves(s: Mbf, e: Event, call: nat)
    requires Settled(s)
    ensures multiset(Everything(Step(s, e, call))) == multiset(Everything(s)) + Gain(s, e, call) - Loss(s, e)
  {
    hide Everything, Accepted, Send, Receive, SendEnded, Reordered, Find, Queue.RemoveAt, Formed, Quiet, Enqueue,
         TasksDistinct;
    OnceEach(s);
    var all := multiset(Everything(s));
    assert all + multiset{} - multiset{} == all;
    match e {
      case Snd(task, pri, data, indp, poll, diswai) => SendKeeps(s, task, pri, Msg(data, call), indp, poll, diswai);
      case Rcv(task, indp, poll, diswai) => ReceiveKeeps(s, task, indp, poll, diswai);
      case EndSend(task) => EndConserves(s, task);
      case EndRecv(task) => SameParts(s, ReceiveEnded(s, task));
      case ChgPri(task, pri) => ReorderedKeeps(s, task, pri);
    }
  }

  lemma EndConserves(s: Mbf, task: int)
    requires TasksDistinct(s.sendq)
    ensures multiset(Everything(SendEnded(s, task))) == multiset(Everything(s)) - Loss(s, EndSend(task))
  {
    hide Everything, Accepted, SendEnded, Find, Queue.RemoveAt, TasksDistinct;
    SendEndedKeeps(s, task);
    var i := Find(s.sendq, task);
    if i < |s.sendq| { DropMultiset(Everything(s), |Accepted(s)| + i); }
  }

  lemma SameParts(s: Mbf, t: Mbf)
    requires t.out == s.out && t.msgs == s.msgs && t.sendq == s.sendq
    ensures Everything(t) == Everything(s) && Accepted(t) == Accepted(s)
  {
  }

  /** In the order of their send calls, all of them before this one. */
  ghost predicate InCallOrder(ms: seq<Msg>, call: nat) {
    && (forall i, j :: 0 <= i < j < |ms| ==> ms[i].call < ms[j].call)
    && (forall i :: 0 <= i < |ms| ==> ms[i].call < call)
  }

  /** A message from a handler goes into the ring ahead of those on the send queue. */
  predicate Overtakes(s: Mbf, e: Event, call: nat) {
    && e.Snd? && e.indp && e.poll && 0 < |e.data| <= s.maxmsz
    && s.sendq != [] && CanStore(s, Msg(e.data, call))
  }

  // ---- who waits, and who is served ----

  /** What one event delivers. */
  function NewOut(s: Mbf, t: Mbf): seq<Delivery>
    requires |s.out| <= |t.out|
  {
    t.out[|s.out|..]
  }

  /** A task stops waiting to receive if and only if this event delivers to it or ends its
      wait; whoever waited longest is served first; and the others keep their order. */
  lemma StepReceivers(s: Mbf, e: Event, call: nat)
    requires Settled(s) && Possible(s, e)
    ensures var t := Step(s, e, call);
            && s.out <= t.out && |t.out| <= |s.out| + 1
            && (forall x :: x in s.recvq ==>
                  (x !in t.recvq <==> (exists d :: d in NewOut(s, t) && d.task == x) || e == EndRecv(x)))
            && (s.recvq != [] && NewOut(s, t) != [] ==>
                  && NewOut(s, t)[0].task == s.recvq[0]
                  && e.Snd? && NewOut(s, t)[0].msg == Msg(e.data, call))
            && (s.recvq == [] && NewOut(s, t) != [] ==> e.Rcv? && NewOut(s, t)[0].task == e.task)
            && (forall x :: x in t.recvq ==> x in s.recvq || (e.Rcv? && x == e.task))
            && (forall x, a {:trigger Ahead(t.recvq, x, a)} ::
                  a in s.recvq && Ahead(t.recvq, x, a) ==> Ahead(s.recvq, x, a))
  {
    hide CanStore, Enqueue, TasksDistinct, ByPriority, Wakeup, Skip, Find;
    var t := Step(s, e, call);
    match e {
      case Snd(task, pri, data, indp, poll, diswai) =>
        if t.out != s.out {
          assert t.recvq == s.recvq[1..] && NewOut(s, t) == [Delivery(s.recvq[0], Msg(data, call))];
          FirstServed(s.recvq);
        }
      case Rcv(task, indp, poll, diswai) =>
        ReceiveOut(s, task, indp, poll, diswai);
        if t.recvq != s.recvq { LastWaits(s.recvq, task); }
      case EndSend(task) => WakeupKeeps(s.(sendq := Without(s.sendq, task)));
      case EndRecv(task) =>
        forall x, a | a in s.recvq && Ahead(t.recvq, x, a) ensures Ahead(s.recvq, x, a) {
          SkipAhead(s.recvq, task, x, a);
        }
      case ChgPri(task, pri) =>
        var i := Find(s.sendq, task);
        if s.tpri && i < |s.sendq| {
          WakeupKeeps(s.(sendq := Enqueue(Without(s.sendq, task), s.sendq[i].(pri := pri), true)));
        }
    }
  }

  lemma ReceiveOut(s: Mbf, task: int, indp: bool, poll: bool, diswai: bool)
    requires s.recvq != [] ==> s.msgs == [] && s.sendq == []
    ensures var t := Receive(s, task, indp, poll, diswai).1;
            && (t.out == s.out || (s.recvq == [] && exists m :: t.out == s.out + [Delivery(task, m)]))
            && (t.recvq == s.recvq || (t.out == s.out && t.recvq == s.recvq + [task]))
  {
    hide Wakeup;
    if !indp && !diswai && s.msgs != [] {
      WakeupKeeps(s.(msgs := s.msgs[1..], out := s.out + [Delivery(task, s.msgs[0])]));
    } else if !indp && !diswai && s.sendq != [] {
      WakeupKeeps(s.(sendq := s.sendq[1..], out := s.out + [Delivery(task, s.sendq[0].req)]));
    }
  }

  lemma FirstServed(q: seq<int>)
    requires q != [] && Queue.Distinct(q)
    ensures forall x :: x in q ==> (x !in q[1..] <==> x == q[0])
    ensures forall x, a {:trigger Ahead(q[1..], x, a)} :: Ahead(q[1..], x, a) ==> Ahead(q, x, a)
  {
    forall i | 0 <= i < |q[1..]| ensures q[1..][i] != q[0] { assert q[1..][i] == q[i + 1]; }
    forall x | x in q ensures x !in q[1..] <==> x == q[0] { assert q == [q[0]] + q[1..]; }
    forall x, a | Ahead(q[1..], x, a) ensures Ahead(q, x, a) {
      var i, j :| 0 <= i < j < |q[1..]| && q[1..][i] == x && q[1..][j] == a;
      assert q[i + 1] == x && q[j + 1] == a;
    }
  }

  lemma LastWaits(q: seq<int>, task: int)
    requires task !in q
    ensures forall x, a {:trigger Ahead(q + [task], x, a)} :: a in q && Ahead(q + [task], x, a) ==> Ahead(q, x, a)
  {
    forall x, a | a in q && Ahead(q + [task], x, a) ensures Ahead(q, x, a) {
      var i, j :| 0 <= i < j < |q| + 1 && (q + [task])[i] == x && (q + [task])[j] == a;
      assert q[i] == x && q[j] == a;
    }
  }

  /** Senders let in are the first of the queue, and their messages are stored in its order. */
  ghost predicate LetIn(q: seq<Waiter<Msg>>, msgs: seq<Msg>, t: Mbf) {
    exists n {:trigger q[n..]} :: 0 <= n <= |q| && t.sendq == q[n..] && t.msgs == msgs + Reqs(q[..n])
  }

  lemma {:induction false} WakeupLetsIn(s: Mbf)
    ensures LetIn(s.sendq, s.msgs, Wakeup(s))
    decreases |s.sendq|
  {
    hide CanStore, LetIn;
    if s.sendq != [] && CanStore(s, s.sendq[0].req) {
      var u := s.(msgs := s.msgs + [s.sendq[0].req], sendq := s.sendq[1..]);
      WakeupLetsIn(u);
      OneMoreIn(s.sendq, s.msgs, Wakeup(u));
    } else {
      NoneIn(s);
    }
  }

  lemma NoneIn(s: Mbf)
    ensures LetIn(s.sendq, s.msgs, s)
  {
    assert s.sendq[0..] == s.sendq && Reqs(s.sendq[..0]) == [];
  }

  lemma OneMoreIn(q: seq<Waiter<Msg>>, msgs: seq<Msg>, t: Mbf)
    requires q != [] && LetIn(q[1..], msgs + [q[0].req], t)
    ensures LetIn(q, msgs, t)
  {
    hide Reqs;
    var n :| 0 <= n <= |q[1..]| && t.sendq == q[1..][n..] && t.msgs == msgs + [q[0].req] + Reqs(q[1..][..n]);
    ReqsUpTo(q, n);
    assert q[1..][n..] == q[n + 1..];
    Regroup(msgs, [q[0].req], Reqs(q[1..][..n]));
  }

  lemma ReqsUpTo(q: seq<Waiter<Msg>>, n: nat)
    requires n < |q|
    ensures Reqs(q[..n + 1]) == [q[0].req] + Reqs(q[1..][..n])
  {
  }

  lemma Regroup(a: seq<Msg>, b: seq<Msg>, c: seq<Msg>)
    ensures a + b + c == a + (b + c)
  {
  }

  /** A send wait that ends takes that task's place away; a change of priority moves just
      that task, and only with TA_TPRI; then the first senders that fit are let in. */
  lemma StepSenders(s: Mbf, i: nat, pri: int, call: nat)
    requires Settled(s) && i < |s.sendq|
    ensures LetIn(Queue.RemoveAt(s.sendq, i), s.msgs, Step(s, EndSend(s.sendq[i].task), call))
    ensures var t := Step(s, ChgPri(s.sendq[i].task, pri), call);
            if s.tpri then exists q :: Requeued(s.sendq, i, pri, q) && LetIn(q, s.msgs, t) else t == s
  {
    hide Wakeup, Enqueue, TasksDistinct, ByPriority, Requeued, LetIn;
    OnceEach(s);
    var w := s.sendq[i];
    WithoutAt(s.sendq, i);
    WakeupLetsIn(s.(sendq := Without(s.sendq, w.task)));
    FindIs(s.sendq, i);
    RequeuedAt(s.sendq, i, pri);
    WakeupLetsIn(s.(sendq := Enqueue(Without(s.sendq, w.task), w.(pri := pri), true)));
  }

  /** The task is moved to the place of its new priority, then senders are let in. */
  ghost predicate Moved(s: Mbf, task: int, pri: int, t: Mbf) {
    exists i, q :: 0 <= i < |s.sendq| && s.sendq[i].task == task && Requeued(s.sendq, i, pri, q) && LetIn(q, s.msgs, t)
  }

  lemma FindIs(q: seq<Waiter<Msg>>, i: nat)
    requires TasksDistinct(q) && i < |q|
    ensures Find(q, q[i].task) == i
  {
    var j := Find(q, q[i].task);
    assert j < |q| && q[j].task == q[i].task;
  }

  /** Task a waits to receive in every state of the run. */
  ghost predicate KeepsReceiving(s: Mbf, es: seq<Event>, call: nat, a: int)
    decreases |es|
  {
    && a in s.recvq
    && (es != [] ==> KeepsReceiving(Step(s, es[0], call), es[1..], call + 1, a))
  }

  /** Over any run in which task a keeps waiting to receive, nobody gets ahead of it, and
      whatever is delivered goes to tasks that were ahead of it. */
  lemma {:induction false} ReceiversInOrder(s: Mbf, es: seq<Event>, call: nat, a: int)
    requires Settled(s) && PossibleRun(s, es, call) && KeepsReceiving(s, es, call, a)
    ensures var t := Run(s, es, call);
            && a in t.recvq && s.out <= t.out
            && (forall x {:trigger Ahead(t.recvq, x, a)} :: Ahead(t.recvq, x, a) ==> Ahead(s.recvq, x, a))
            && (forall d :: d in NewOut(s, t) ==> Ahead(s.recvq, d.task, a))
    decreases |es|
  {
    hide Step, Settled, Possible, Ahead;
    if es != [] {
      var u := Step(s, es[0], call);
      StepSettled(s, es[0], call);
      StepReceivers(s, es[0], call);
      ReceiversInOrder(u, es[1..], call + 1, a);
      var t := Run(s, es, call);
      assert NewOut(s, t) == NewOut(s, u) + NewOut(u, t);
      forall d | d in NewOut(s, t) ensures Ahead(s.recvq, d.task, a) {
        if d in NewOut(s, u) {
          assert NewOut(s, u) == [d];
          StillBehind(s.recvq, a, d.task);
        }
      }
    }
  }

  lemma StillBehind(q: seq<int>, a: int, first: int)
    requires a in q && q[0] == first && a != first
    ensures Ahead(q, first, a)
  {
    var j :| 0 <= j < |q| && q[j] == a;
  }

  /** With TA_TFIFO a send keeps the order of calls if and only if it does not overtake. */
  lemma SendOrder(s: Mbf, e: Event, call: nat)
    requires Settled(s) && !s.tpri && InCallOrder(Everything(s), call) && e.Snd?
    ensures InCallOrder(Everything(Step(s, e, call)), call + 1) <==> !Overtakes(s, e, call)
  {
    hide Everything, Formed, CanStore, Enqueue;
    var m := Msg(e.data, call);
    var (er, t) := Send(s, e.task, e.pri, m, e.indp, e.poll, e.diswai);
    SendKeeps(s, e.task, e.pri, m, e.indp, e.poll, e.diswai);
    if Overtakes(s, e, call) {
      assert t == s.(msgs := s.msgs + [m]);
      Overtaken(s, m);
    } else {
      assert er == E_OK || er == Waits ==> !e.indp || s.sendq == [];
    }
  }

  lemma Overtaken(s: Mbf, m: Msg)
    requires s.sendq != [] && InCallOrder(Everything(s), m.call)
    ensures !InCallOrder(Everything(s.(msgs := s.msgs + [m])), m.call + 1)
  {
    hide Reqs, Delivered;
    var t, n := s.(msgs := s.msgs + [m]), |Accepted(s)|;
    assert Accepted(t) == Accepted(s) + [m];
    assert Everything(s)[n] == s.sendq[0].req;
    assert Everything(t)[n] == m && Everything(t)[n + 1] == s.sendq[0].req;
  }

  lemma StepFifo(s: Mbf, e: Event, call: nat)
    requires Settled(s) && !s.tpri && !Overtakes(s, e, call) && InCallOrder(Everything(s), call)
    ensures InCallOrder(Everything(Step(s, e, call)), call + 1) && !Step(s, e, call).tpri
  {
    hide Everything, Accepted, Send, Receive, SendEnded, Reordered, Find, Queue.RemoveAt, Formed, Quiet, Enqueue,
         TasksDistinct, Overtakes;
    OnceEach(s);
    match e {
      case Snd(task, pri, data, indp, poll, diswai) =>
        SendOrder(s, e, call);
        SendKeeps(s, task, pri, Msg(data, call), indp, poll, diswai);
      case Rcv(task, indp, poll, diswai) => ReceiveKeeps(s, task, indp, poll, diswai);
      case EndSend(task) =>
        SendEndedKeeps(s, task);
        var i := Find(s.sendq, task);
        if i < |s.sendq| { DropOrder(Everything(s), |Accepted(s)| + i, call); }
      case EndRecv(task) => SameParts(s, ReceiveEnded(s, task));
      case ChgPri(task, pri) => ReorderedKeeps(s, task, pri);
    }
  }

  lemma DropOrder(ms: seq<Msg>, n: int, call: nat)
    requires 0 <= n < |ms| && InCallOrder(ms, call)
    ensures InCallOrder(Queue.RemoveAt(ms, n), call)
  {
    var r := Queue.RemoveAt(ms, n);
    forall i, j | 0 <= i < j < |r| ensures r[i].call < r[j].call {
      assert r[i] == ms[if i < n then i else i + 1] && r[j] == ms[if j < n then j else j + 1];
    }
  }

  ghost predicate NoOvertaking(s: Mbf, es: seq<Event>, call: nat)
    decreases |es|
  {
    es != [] ==> !Overtakes(s, es[0], call) && NoOvertaking(Step(s, es[0], call), es[1..], call + 1)
  }

  /** Senders in task context never overtake. */
  lemma {:induction false} TasksDoNotOvertake(s: Mbf, es: seq<Event>, call: nat)
    requires forall i :: 0 <= i < |es| && es[i].Snd? ==> !es[i].indp
    ensures NoOvertaking(s, es, call)
    decreases |es|
  {
    hide Step;
    if es != [] { TasksDoNotOvertake(Step(s, es[0], call), es[1..], call + 1); }
  }

  /** With TA_TFIFO and no overtaking, messages come out in the order of their send
      calls, whichever of the calls time out in between. */
  lemma {:induction false} RunFifo(s: Mbf, es: seq<Event>, call: nat)
    requires Settled(s) && PossibleRun(s, es, call) && !s.tpri && InCallOrder(Everything(s), call)
    requires NoOvertaking(s, es, call)
    ensures InCallOrder(Delivered(Run(s, es, call).out), call + |es|)
    decreases |es|
  {
    if es == [] {
      var d := Delivered(s.out);
      assert forall i :: 0 <= i < |d| ==> d[i] == Everything(s)[i];
    } else {
      hide Everything, Settled, Step, Overtakes;
      StepSettled(s, es[0], call);
      StepFifo(s, es[0], call);
      RunFifo(Step(s, es[0], call), es[1..], call + 1);
    }
  }

  /** From creation on; so with senders in task context only, it always holds. */
  lemma DeliveredInCallOrder(bufsz: int, maxmsz: int, es: seq<Event>)
    requires 0 <= bufsz && 0 < maxmsz < INT_LIMIT
    requires PossibleRun(Created(bufsz, maxmsz, false), es, 0)
    requires NoOvertaking(Created(bufsz, maxmsz, false), es, 0)
    ensures InCallOrder(Delivered(Run(Created(bufsz, maxmsz, false), es, 0).out), |es|)
  {
    hide Run, PossibleRun, NoOvertaking, Settled;
    CreatedSettled(bufsz, maxmsz, false);
    assert Everything(Created(bufsz, maxmsz, false)) == [];
    RunFifo(Created(bufsz, maxmsz, false), es, 0);
  }

  // ---- what follows an overtaking ----

  /** The same task receives again and again without waiting. */
  function Receives(task: int, n: nat): (es: seq<Event>)
    ensures |es| == n && forall i :: 0 <= i < n ==> es[i] == Rcv(task, false, true, false)
  {
    seq(n, i requires 0 <= i < n => Rcv(task, false, true, false))
  }

  function Left(s: Mbf): nat {
    |s.msgs| + |s.sendq|
  }

  lemma {:induction false} WakeupLeft(s: Mbf, task: int)
    ensures Left(Wakeup(s)) == Left(s)
    ensures !Waiting(s.sendq, task) ==> !Waiting(Wakeup(s).sendq, task)
    decreases |s.sendq|
  {
    hide CanStore, Waiting;
    if s.sendq != [] && CanStore(s, s.sendq[0].req) {
      TailFormed(s);
      WakeupLeft(s.(msgs := s.msgs + [s.sendq[0].req], sendq := s.sendq[1..]), task);
    }
  }

  lemma ReceiveLeft(s: Mbf, task: int)
    requires Left(s) > 0
    ensures var t := Receive(s, task, false, true, false).1;
            && Left(t) == Left(s) - 1 && t.recvq == s.recvq
            && (!Waiting(s.sendq, task) ==> !Waiting(t.sendq, task))
  {
    hide Wakeup, Waiting, Everything, Accepted;
    if s.msgs != [] {
      WakeupKeeps(s.(msgs := s.msgs[1..], out := s.out + [Delivery(task, s.msgs[0])]));
      WakeupLeft(s.(msgs := s.msgs[1..], out := s.out + [Delivery(task, s.msgs[0])]), task);
    } else {
      TailFormed(s);
      WakeupKeeps(s.(sendq := s.sendq[1..], out := s.out + [Delivery(task, s.sendq[0].req)]));
      WakeupLeft(s.(sendq := s.sendq[1..], out := s.out + [Delivery(task, s.sendq[0].req)]), task);
    }
  }

  /** As many receives as there are messages deliver all of them, in their order. */
  lemma {:induction false} Drained(s: Mbf, task: int, call: nat)
    requires !Waiting(s.sendq, task) && task !in s.recvq
    ensures PossibleRun(s, Receives(task, Left(s)), call)
    ensures Delivered(Run(s, Receives(task, Left(s)), call).out) == Everything(s)
    decreases Left(s)
  {
    hide Receive, Waiting;
    var es := Receives(task, Left(s));
    if Left(s) > 0 {
      var t := Step(s, es[0], call);
      hide Everything;
      ReceiveKeeps(s, task, false, true, false);
      ReceiveLeft(s, task);
      Drained(t, task, call + 1);
      assert es[1..] == Receives(task, Left(t));
    }
  }

  /** A send that overtakes can be seen: whoever then takes all messages out gets them
      in the order of their calls if and only if the send did not overtake. */
  lemma OvertakingSeen(s: Mbf, e: Event, call: nat, task: int)
    requires Settled(s) && !s.tpri && InCallOrder(Everything(s), call) && e.Snd?
    requires var t := Step(s, e, call); !Waiting(t.sendq, task) && task !in t.recvq
    ensures var t := Step(s, e, call);
            InCallOrder(Delivered(Run(t, Receives(task, Left(t)), call + 1).out), call + 1) <==> !Overtakes(s, e, call)
  {
    hide Step, Run, Everything, Overtakes, InCallOrder, Settled;
    SendOrder(s, e, call);
    Drained(Step(s, e, call), task, call + 1);
  }

  /** It does happen: call 2 is delivered before call 1. */
  lemma HandlerOvertakes(big: seq<Byte>, small: seq<Byte>)
    requires |big| == 8 && |small| == 1
    ensures var s := Created(20, 8, false);
            var es := [Snd(1, 1, big, false, true, false), Snd(1, 1, big, false, false, false),
                       Snd(2, 1, small, true, true, false)] + Receives(3, 3);
            && PossibleRun(s, es, 0)
            && Delivered(Run(s, es, 0).out) == [Msg(big, 0), Msg(small, 2), Msg(big, 1)]
            && !InCallOrder(Delivered(Run(s, es, 0).out), 6)
  {
    var s := Created(20, 8, false);
    var es := [Snd(1, 1, big, false, true, false), Snd(1, 1, big, false, false, false),
               Snd(2, 1, small, true, true, false)] + Receives(3, 3);
    var s1 := s.(msgs := [Msg(big, 0)]);
    var s2 := s1.(sendq := [Waiter(1, 1, Msg(big, 1))]);
    var s3 := s2.(msgs := [Msg(big, 0), Msg(small, 2)]);
    ThreeSends(s, s1, s2, s3, big, small);
    assert es[1..][1..] == es[2..] && es[2..][1..] == es[3..] == Receives(3, Left(s3));
    assert Everything(s3) == [Msg(big, 0), Msg(small, 2), Msg(big, 1)];
    assert Possible(s, es[0]) && Possible(s1, es[1]) && Possible(s2, es[2]);
    assert !Waiting(s3.sendq, 3);
    hide Step, Possible, Everything, Run, PossibleRun, Waiting;
    OneRun(s, es, 0);
    OneRun(s1, es[1..], 1);
    OneRun(s2, es[2..], 2);
    Drained(s3, 3, 3);
    var d := Delivered(Run(s, es, 0).out);
    assert d[1].call == 2 && d[2].call == 1;
  }

  lemma ThreeSends(s: Mbf, s1: Mbf, s2: Mbf, s3: Mbf, big: seq<Byte>, small: seq<Byte>)
    requires |big| == 8 && |small| == 1 && s == Created(20, 8, false) && s1 == s.(msgs := [Msg(big, 0)])
    requires s2 == s1.(sendq := [Waiter(1, 1, Msg(big, 1))]) && s3 == s2.(msgs := [Msg(big, 0), Msg(small, 2)])
    ensures Step(s, Snd(1, 1, big, false, true, false), 0) == s1
    ensures Step(s1, Snd(1, 1, big, false, false, false), 1) == s2
    ensures Step(s2, Snd(2, 1, small, true, true, false), 2) == s3
  {
    BytesFirst([Msg(big, 0)]);
    assert Bytes([]) == 0 && Bytes(s1.msgs) == 12;
    assert Space(Msg(small, 2)) == 8 && Space(Msg(big, 1)) == 12;
    hide Bytes, Space, RoundSz;
    assert s2.sendq == Enqueue([], Waiter(1, 1, Msg(big, 1)), false);
  }

  lemma OneRun(s: Mbf, es: seq<Event>, call: nat)
    requires es != []
    ensures Run(s, es, call) == Run(Step(s, es[0], call), es[1..], call + 1)
    ensures PossibleRun(s, es, call) <==>
              Possible(s, es[0]) && PossibleRun(Step(s, es[0], call), es[1..], call + 1)
  {
  }

  // ---- the message buffer, changed in place ----

  /** MBFCB. Messages from one send call carry its number. */
  class MessageBuf {
    const ring: Ring
    const maxmsz: int
    const tpri: bool
    var sendq: seq<Waiter<Msg>>
    var recvq: seq<int>
    var given: map<int, seq<Byte>>    // what was copied to a receiver while it waited
    ghost var out: seq<Delivery>

    ghost function State(): Mbf
      reads this, ring
    {
      Mbf(ring.bufsz, maxmsz, tpri, ring.msgs, sendq, recvq, out)
    }

    ghost predicate Valid()
      reads this, ring, ring.buffer
    {
      ring.Valid() && Settled(State())
    }

    /** tk_cre_mbf, for the sizes at which rounding up does not overflow. */
    constructor (bufsz: int, maxmsz0: int, tpri0: bool)
      requires 0 <= bufsz <= INT_LIMIT - HEADERSZ && 0 < maxmsz0 < INT_LIMIT
      ensures Valid() && State() == Created(CreatedSize(bufsz), maxmsz0, tpri0) && fresh(ring) && fresh(ring.buffer)
    {
      CreatedSizeOk(bufsz);
      CreatedSettled(CreatedSize(bufsz), maxmsz0, tpri0);
      ring := new Ring(bufsz);
      maxmsz, tpri, sendq, recvq, given, out := maxmsz0, tpri0, [], [], map[], [];
    }

    lemma FreeSpace(m: Msg)
      requires ring.Valid()
      ensures CanStore(State(), m) <==> HEADERSZ + RoundSz(|m.data|) <= ring.frbufsz
      ensures CanStore(State(), m) <==> HEADERSZ + RoundSz(|m.data|) <= ring.bufsz - Bytes(ring.msgs)
    {
      assert |ring.buffer[..]| == ring.bufsz;
    }

    /** mbf_wakeup */
    method WakeupSenders()
      requires ring.Valid() && Formed(State())
      modifies this`sendq, ring, ring.buffer
      ensures ring.Valid() && State() == Wakeup(old(State()))
    {
      hide RingOk, Space, RoundSz, Bytes, TasksDistinct, ByPriority;
      while sendq != []
        invariant ring.Valid() && Formed(State())
        invariant Wakeup(State()) == Wakeup(old(State()))
        decreases |sendq|
      {
        var top := sendq[0];
        ghost var s := State();
        assert top in sendq;
        FreeSpace(top.req);
        var free := ring.MbfFree(|top.req.data|);
        if !free { break; }
        ring.MsgToMbf(top.req.data, top.req.call);
        sendq := sendq[1..];
        LetInFormed(s);
      }
    }

    lemma LetInFormed(s: Mbf)
      requires Formed(s) && s.sendq != [] && CanStore(s, s.sendq[0].req)
      ensures Formed(s.(msgs := s.msgs + [s.sendq[0].req], sendq := s.sendq[1..]))
    {
      BytesMore(s.msgs, [s.sendq[0].req]);
      BytesFirst([s.sendq[0].req]);
      TailFormed(s);
    }

    /** _tk_snd_mbf_u */
    method SndMbf(task: int, pri: int, msg: seq<Byte>, call: nat, indp: bool, poll: bool, diswai: bool)
      returns (ercd: Er)
      requires Valid() && (indp || (!Waiting(sendq, task) && task !in recvq))
      modifies this, ring, ring.buffer
      ensures Valid()
      ensures (ercd, State()) == Send(old(State()), task, pri, Msg(msg, call), indp, poll, diswai)
      ensures ercd == if msg == [] then E_PAR
                      else if !poll && indp then E_CTX
                      else if |msg| > maxmsz then E_PAR
                      else if !indp && diswai then E_DISWAI
                      else if old(recvq) != [] then E_OK
                      else if (indp || CallerFirst(old(sendq), pri, tpri))
                              && HEADERSZ + RoundSz(|msg|) <= old(ring.frbufsz)
                      then E_OK
                      else if poll then E_TMOUT
                      else Waits
      ensures ercd == E_OK && old(recvq) != [] ==>
                State() == old(State()).(recvq := old(recvq)[1..],
                                         out := old(out) + [Delivery(old(recvq)[0], Msg(msg, call))])
      ensures ercd == E_OK && old(recvq) == [] ==>
                State() == old(State()).(msgs := old(ring.msgs) + [Msg(msg, call)])
      ensures ercd == Waits ==>
                && Placed(old(sendq), Waiter(task, pri, Msg(msg, call)), tpri, sendq)
                && State() == old(State()).(sendq := sendq)
      ensures ercd != E_OK && ercd != Waits ==> State() == old(State())
      ensures given == if ercd == E_OK && old(recvq) != [] then old(given)[old(recvq)[0] := msg] else old(given)
    {
      hide RingOk, Space, RoundSz, Bytes, Settled, Enqueue, TasksDistinct, ByPriority, Waiting, Placed;
      SendSettled(State(), task, pri, Msg(msg, call), indp, poll, diswai);
      Limits(State());
      FreeSpace(Msg(msg, call));
      EnqueuePlaced(sendq, Waiter(task, pri, Msg(msg, call)), tpri);
      if msg == [] {
        return E_PAR;
      }
      if !poll && indp {
        return E_CTX;
      }
      if |msg| > maxmsz {
        return E_PAR;
      }
      if !indp && diswai {
        return E_DISWAI;
      }
      if recvq != [] {
        out := out + [Delivery(recvq[0], Msg(msg, call))];
        given := given[recvq[0] := msg];
        recvq := recvq[1..];
        return E_OK;
      }
      var free := ring.MbfFree(|msg|);
      if (indp || CallerFirst(sendq, pri, tpri)) && free {
        ring.MsgToMbf(msg, call);
        return E_OK;
      }
      if poll {
        return E_TMOUT;
      }
      sendq := Enqueue(sendq, Waiter(task, pri, Msg(msg, call)), tpri);
      return Waits;
    }

    lemma Limits(s: Mbf)
      requires Settled(s)
      ensures s.maxmsz < INT_LIMIT && (s.msgs == [] ==> Bytes(s.msgs) == 0)
    {
    }

    /** _tk_rcv_mbf_u: the message and its size come straight from the ring or from a sender. */
    method RcvMbf(task: int, indp: bool, poll: bool, diswai: bool) returns (ercd: Er, msg: seq<Byte>, rcvsz: int)
      requires Valid() && (indp || (!Waiting(sendq, task) && task !in recvq))
      modifies this, ring, ring.buffer
      ensures Valid()
      ensures (ercd, State()) == Receive(old(State()), task, indp, poll, diswai)
      ensures ercd == if indp then E_CTX
                      else if diswai then E_DISWAI
                      else if old(ring.msgs) != [] || old(sendq) != [] then E_OK
                      else if poll then E_TMOUT
                      else Waits
      ensures ercd != E_OK ==>
                State() == if ercd == Waits then old(State()).(recvq := old(recvq) + [task]) else old(State())
      ensures ercd == E_OK ==> recvq == old(recvq)
      ensures given == old(given)
      ensures ercd == E_OK ==> rcvsz == |msg| && msg == (if old(ring.msgs) != [] then old(ring.msgs)[0].data
                                                         else old(sendq)[0].req.data)
      ensures ercd == E_OK ==>
                && |out| == |old(out)| + 1 && out[|old(out)|].task == task
                && out[|old(out)|].msg.data == msg
    {
      hide RingOk, Space, RoundSz, Bytes, Settled, Wakeup, TasksDistinct, ByPriority, Waiting;
      ghost var s := State();
      ReceiveSettled(s, task, indp, poll, diswai);
      ReceiveStart(s, task);
      msg, rcvsz := [], 0;
      if indp {
        return E_CTX, msg, rcvsz;
      }
      if diswai {
        return E_DISWAI, msg, rcvsz;
      }
      var empty := ring.MbfEmpty();
      if !empty {
        out := out + [Delivery(task, ring.msgs[0])];
        msg, rcvsz := ring.MbfToMsg();
        WakeupKeeps(State());
        WakeupSenders();
        return E_OK, msg, rcvsz;
      }
      if sendq != [] {
        var tcb := sendq[0];
        msg, rcvsz := tcb.req.data, |tcb.req.data|;
        out := out + [Delivery(task, tcb.req)];
        sendq := sendq[1..];
        WakeupKeeps(State());
        WakeupSenders();
        return E_OK, msg, rcvsz;
      }
      if poll {
        return E_TMOUT, msg, rcvsz;
      }
      recvq := recvq + [task];
      return Waits, msg, rcvsz;
    }

    /** The state between taking a message and letting senders in. */
    lemma ReceiveStart(s: Mbf, task: int)
      requires Settled(s)
      ensures s.msgs != [] ==> Formed(s.(msgs := s.msgs[1..], out := s.out + [Delivery(task, s.msgs[0])]))
      ensures s.sendq != [] ==> Formed(s.(sendq := s.sendq[1..], out := s.out + [Delivery(task, s.sendq[0].req)]))
    {
      if s.msgs != [] { BytesFirst(s.msgs); }
      if s.sendq != [] { TailFormed(s); }
    }

    /** mbf_rel_wai, after the kernel took the task off the queue. */
    method EndSendWait(task: int)
      requires Valid()
      modifies this`sendq, ring, ring.buffer
      ensures Valid() && State() == SendEnded(old(State()), task)
      ensures forall i :: 0 <= i < |old(sendq)| && old(sendq)[i].task == task ==>
                LetIn(Queue.RemoveAt(old(sendq), i), old(ring.msgs), State())
    {
      hide RingOk, Space, RoundSz, Bytes, Wakeup, LetIn;
      forall i | 0 <= i < |sendq| && sendq[i].task == task
        ensures LetIn(Queue.RemoveAt(sendq, i), ring.msgs, SendEnded(State(), task))
      {
        StepSenders(State(), i, 0, 0);
      }
      SendEndedSettled(State(), task);
      RemovedFormed(State(), task);
      sendq := Without(sendq, task);
      WakeupSenders();
    }

    lemma RemovedFormed(s: Mbf, task: int)
      requires Settled(s)
      ensures Formed(s.(sendq := Without(s.sendq, task)))
    {
      WithoutDistinct(s.sendq, task);
      if s.tpri { WithoutByPriority(s.sendq, task); }
      forall x | x in s.recvq ensures !Waiting(Without(s.sendq, task), x) {
        if Waiting(Without(s.sendq, task), x) { WithoutWaiting(s.sendq, task, x); }
      }
    }

    /** mbf_chg_pri */
    method ChangePri(task: int, pri: int)
      requires Valid() && tpri && Waiting(sendq, task)
      modifies this`sendq, ring, ring.buffer
      ensures Valid() && State() == Reordered(old(State()), task, pri)
      ensures Moved(old(State()), task, pri, State())
    {
      hide RingOk, Space, RoundSz, Bytes, Wakeup, Settled, Moved;
      var i := Find(sendq, task);
      MovedIs(State(), task, pri);
      ReorderedSettled(State(), task, pri);
      var w := sendq[i].(pri := pri);
      RequeuedFormed(State(), i, w);
      sendq := Without(sendq, task);
      sendq := InsertTpri(sendq, w);
      WakeupSenders();
    }

    lemma MovedIs(s: Mbf, task: int, pri: int)
      requires Settled(s) && s.tpri && Waiting(s.sendq, task)
      ensures Moved(s, task, pri, Reordered(s, task, pri))
    {
      hide LetIn, Requeued, Reordered, Settled;
      var i :| 0 <= i < |s.sendq| && s.sendq[i].task == task;
      StepSenders(s, i, pri, 0);
    }

    lemma RequeuedFormed(s: Mbf, i: nat, w: Waiter<Msg>)
      requires Settled(s) && i < |s.sendq| && w.task == s.sendq[i].task && w.req == s.sendq[i].req && s.tpri
      ensures Formed(s.(sendq := Enqueue(Without(s.sendq, w.task), w, true)))
    {
      hide Enqueue, TasksDistinct, ByPriority, Waiting;
      var rest := Without(s.sendq, w.task);
      assert s.sendq[i] in s.sendq;
      WithoutDistinct(s.sendq, w.task);
      WithoutByPriority(s.sendq, w.task);
      EnqueueDistinct(rest, w, true);
      EnqueueMembers(rest, w, true);
      EnqueueKeepsPriority(rest, w);
    }
  }
}
