/** Mailboxes (kernel/tkernel/src/mailbox.c:112-125, 231-327): messages stay where the
    sender has them and are linked into a list by their first words. */
module Mailbox {
  import opened Queue
  import opened WaitQueue

  const NULL := 0

  /** A message: where it is, its priority, and which send call it is from. */
  datatype Mail = Mail(addr: int, pri: int, call: nat)

  datatype Delivery = Delivery(task: int, mail: Mail)

  /** mpri is TA_MPRI, tpri is TA_TPRI; out records what went to whom. */
  datatype Box = Box(mpri: bool, tpri: bool, msgs: seq<Mail>, waitq: seq<Waiter<int>>, out: seq<Delivery>)

  /** Where queue_insert_mpri puts a message: before the first of a greater msgpri. */
  function MsgPosition(msgs: seq<Mail>, pri: int): (p: nat)
    ensures p <= |msgs| && (forall i :: 0 <= i < p ==> msgs[i].pri <= pri) && (p < |msgs| ==> msgs[p].pri > pri)
  {
    if msgs == [] || msgs[0].pri > pri then 0 else 1 + MsgPosition(msgs[1..], pri)
  }

  function Insert(s: Box, m: Mail): seq<Mail> {
    InsertAt(s.msgs, if s.mpri then MsgPosition(s.msgs, m.pri) else |s.msgs|, m)
  }

  /** _tk_snd_mbx */
  function Send(s: Box, m: Mail): (Er, Box) {
    if s.mpri && m.pri <= 0 then (E_PAR, s)
    else if s.waitq != [] then (E_OK, s.(waitq := s.waitq[1..], out := s.out + [Delivery(s.waitq[0].task, m)]))
    else (E_OK, s.(msgs := Insert(s, m)))
  }

  /** _tk_rcv_mbx_u */
  function Receive(s: Box, task: int, pri: int, indp: bool, poll: bool, diswai: bool): (Er, Box) {
    if indp then (E_CTX, s)
    else if diswai then (E_DISWAI, s)
    else if s.msgs != [] then (E_OK, s.(msgs := s.msgs[1..], out := s.out + [Delivery(task, s.msgs[0])]))
    else if poll then (E_TMOUT, s)
    else (Waits, s.(waitq := Enqueue(s.waitq, Waiter(task, pri, 0), s.tpri)))
  }

  datatype Event =
    | Snd(addr: int, pri: int)
    | Rcv(task: int, pri: int, indp: bool, poll: bool, diswai: bool)
    | EndWait(task: int)
    | ChgPri(w: Waiter<int>, pri: int)

  function Step(s: Box, e: Event, call: nat): Box {
    match e
    case Snd(addr, pri) => Send(s, Mail(addr, pri, call)).1
    case Rcv(task, pri, indp, poll, diswai) => Receive(s, task, pri, indp, poll, diswai).1
    case EndWait(task) => s.(waitq := Without(s.waitq, task))
    case ChgPri(w, pri) =>
      if s.tpri && w in s.waitq then s.(waitq := Enqueue(Without(s.waitq, w.task), w.(pri := pri), true)) else s
  }

  /** The order messages are received in: oldest first, or by priority and then oldest first. */
  predicate Before(mpri: bool, a: Mail, b: Mail) {
    if mpri then a.pri < b.pri || (a.pri == b.pri && a.call < b.call) else a.call < b.call
  }

  ghost predicate Ordered(s: Box) {
    forall i, j :: 0 <= i < j < |s.msgs| ==> Before(s.mpri, s.msgs[i], s.msgs[j])
  }

  ghost predicate Inv(s: Box, call: nat) {
    && Ordered(s) && (forall i :: 0 <= i < |s.msgs| ==> s.msgs[i].call < call)
    && (s.waitq != [] ==> s.msgs == [])
    && (s.mpri ==> forall i :: 0 <= i < |s.msgs| ==> s.msgs[i].pri > 0)
  }

  lemma InsertOrdered(s: Box, m: Mail, call: nat)
    requires Inv(s, call) && m.call == call && (s.mpri ==> m.pri > 0) && s.waitq == []
    ensures Inv(s.(msgs := Insert(s, m)), call + 1)
  {
    var p := if s.mpri then MsgPosition(s.msgs, m.pri) else |s.msgs|;
    var r := Insert(s, m);
    forall i, j | 0 <= i < j < |r| ensures Before(s.mpri, r[i], r[j]) {
      var a, b := if i < p then i else i - 1, if j < p then j else j - 1;
      if i != p && j != p { assert Before(s.mpri, s.msgs[a], s.msgs[b]); }
      if i == p && p < b { assert Before(s.mpri, s.msgs[p], s.msgs[b]); }
    }
  }

  lemma StepInv(s: Box, e: Event, call: nat)
    requires Inv(s, call)
    ensures Inv(Step(s, e, call), call + 1)
  {
    match e {
      case Snd(addr, pri) =>
        if !(s.mpri && pri <= 0) && s.waitq == [] { InsertOrdered(s, Mail(addr, pri, call), call); }
      case Rcv(task, pri, indp, poll, diswai) =>
        if s.msgs != [] {
          var r := s.msgs[1..];
          forall i, j | 0 <= i < j < |r| ensures Before(s.mpri, r[i], r[j]) {
            assert Before(s.mpri, s.msgs[i + 1], s.msgs[j + 1]);
          }
        }
      case EndWait(task) =>
      case ChgPri(w, pri) =>
    }
  }

  /** Who is served, and what becomes of the queue: a message sent goes to the first waiter,
      and just that one leaves; a message received goes to the caller. */
  lemma StepServes(s: Box, e: Event, call: nat)
    requires Inv(s, call)
    ensures var t := Step(s, e, call);
            && (t.out == s.out || e.Snd? || e.Rcv?)
            && (t.out != s.out && e.Snd? ==>
                  && s.waitq != [] && t.waitq == s.waitq[1..] && t.msgs == s.msgs
                  && t.out == s.out + [Delivery(s.waitq[0].task, Mail(e.addr, e.pri, call))])
            && (t.out != s.out && e.Rcv? ==>
                  && s.waitq == [] && t.waitq == [] && s.msgs != [] && t.msgs == s.msgs[1..]
                  && t.out == s.out + [Delivery(e.task, s.msgs[0])])
  {
    hide Before, MsgPosition, Enqueue, Without;
  }

  /** A wait that ends takes that task's place away and no other; a change of priority
      moves just that task, and only with TA_TPRI; a new waiter goes to its place. */
  lemma StepQueue(s: Box, i: nat, pri: int, call: nat)
    requires TasksDistinct(s.waitq) && i < |s.waitq|
    ensures Step(s, EndWait(s.waitq[i].task), call) == s.(waitq := RemoveAt(s.waitq, i))
    ensures var r := Step(s, ChgPri(s.waitq[i], pri), call);
            r == s.(waitq := r.waitq) && if s.tpri then Requeued(s.waitq, i, pri, r.waitq) else r.waitq == s.waitq
  {
    hide TasksDistinct, Requeued, Send, Receive, Enqueue, RemoveAt;
    WithoutAt(s.waitq, i);
    RequeuedAt(s.waitq, i, pri);
  }

  function Mails(out: seq<Delivery>): (r: seq<Mail>)
    ensures |r| == |out| && forall i :: 0 <= i < |out| ==> r[i] == out[i].mail
  {
    seq(|out|, i requires 0 <= i < |out| => out[i].mail)
  }

  /** Every message sent successfully: delivered, or in the list. */
  function All(s: Box): seq<Mail> {
    Mails(s.out) + s.msgs
  }

  lemma MailsMore(out: seq<Delivery>, d: Delivery)
    ensures Mails(out + [d]) == Mails(out) + [d.mail]
  {
  }

  /** What an event adds to the messages the mailbox has answered for. */
  function Gain(mpri: bool, e: Event, call: nat): seq<Mail> {
    if e.Snd? && !(mpri && e.pri <= 0) then [Mail(e.addr, e.pri, call)] else []
  }

  /** No message is lost or duplicated. */
  lemma StepConserves(s: Box, e: Event, call: nat)
    requires Inv(s, call)
    ensures var t := Step(s, e, call);
            && multiset(All(t)) == multiset(All(s)) + multiset(Gain(s.mpri, e, call))
            && (!s.mpri ==> All(t) == All(s) + Gain(s.mpri, e, call))
            && t.mpri == s.mpri
  {
    hide MsgPosition, Before, All;
    assert All(s) + [] == All(s);
    match e {
      case Snd(addr, pri) => SendConserves(s, Mail(addr, pri, call));
      case Rcv(task, pri, indp, poll, diswai) => ReceiveConserves(s, task, pri, indp, poll, diswai);
      case EndWait(task) => SameAll(s, Step(s, e, call));
      case ChgPri(w, pri) => SameAll(s, Step(s, e, call));
    }
  }

  lemma SameAll(s: Box, t: Box)
    requires t.out == s.out && t.msgs == s.msgs
    ensures All(t) == All(s)
  {
  }

  lemma ReceiveConserves(s: Box, task: int, pri: int, indp: bool, poll: bool, diswai: bool)
    ensures All(Receive(s, task, pri, indp, poll, diswai).1) == All(s)
  {
    hide Mails;
    if s.msgs != [] {
      MailsMore(s.out, Delivery(task, s.msgs[0]));
      assert Mails(s.out) + [s.msgs[0]] + s.msgs[1..] == Mails(s.out) + s.msgs;
    }
  }

  lemma SendConserves(s: Box, m: Mail)
    requires s.waitq != [] ==> s.msgs == []
    ensures var (er, t) := Send(s, m);
            && (er == E_OK ==>
                  && multiset(All(t)) == multiset(All(s)) + multiset{m}
                  && (!s.mpri ==> All(t) == All(s) + [m]))
            && (er != E_OK ==> t == s && s.mpri && m.pri <= 0)
            && t.mpri == s.mpri
  {
    hide All, Insert;
    if s.waitq != [] {
      AllDirect(s, m);
    } else {
      AllInsert(s, m);
    }
  }

  lemma AllDirect(s: Box, m: Mail)
    requires s.waitq != [] && s.msgs == []
    ensures All(s.(waitq := s.waitq[1..], out := s.out + [Delivery(s.waitq[0].task, m)])) == All(s) + [m]
  {
    hide Mails;
    MailsMore(s.out, Delivery(s.waitq[0].task, m));
  }

  lemma AllInsert(s: Box, m: Mail)
    ensures multiset(All(s.(msgs := Insert(s, m)))) == multiset(All(s)) + multiset{m}
    ensures !s.mpri ==> All(s.(msgs := Insert(s, m))) == All(s) + [m]
  {
    hide Mails, Insert;
    InsertConserves(s, m);
    PlusOne(Mails(s.out), s.msgs, Insert(s, m), m);
  }

  lemma PlusOne(a: seq<Mail>, b: seq<Mail>, c: seq<Mail>, m: Mail)
    requires multiset(c) == multiset(b) + multiset{m}
    ensures multiset(a + c) == multiset(a + b) + multiset{m}
    ensures c == b + [m] ==> a + c == (a + b) + [m]
  {
  }

  lemma InsertConserves(s: Box, m: Mail)
    ensures multiset(Insert(s, m)) == multiset(s.msgs) + multiset{m}
    ensures !s.mpri ==> Insert(s, m) == s.msgs + [m]
  {
    hide MsgPosition, InsertAt;
    InsertMultiset(s.msgs, if s.mpri then MsgPosition(s.msgs, m.pri) else |s.msgs|, m);
  }

  lemma InsertMultiset(msgs: seq<Mail>, p: int, m: Mail)
    requires 0 <= p <= |msgs|
    ensures multiset(InsertAt(msgs, p, m)) == multiset(msgs) + multiset{m}
    ensures p == |msgs| ==> InsertAt(msgs, p, m) == msgs + [m]
  {
    assert msgs == msgs[..p] + msgs[p..];
  }

  function Run(s: Box, es: seq<Event>, call: nat): Box
    decreases |es|
  {
    if es == [] then s else Run(Step(s, es[0], call), es[1..], call + 1)
  }

  /** The messages that es sends and that are not refused, in call order. */
  function Sent(mpri: bool, es: seq<Event>, call: nat): seq<Mail>
    decreases |es|
  {
    if es == [] then [] else Gain(mpri, es[0], call) + Sent(mpri, es[1..], call + 1)
  }

  lemma {:induction false} RunKeeps(s: Box, es: seq<Event>, call: nat)
    requires Inv(s, call)
    ensures var t := Run(s, es, call);
            && Inv(t, call + |es|) && t.mpri == s.mpri
            && multiset(All(t)) == multiset(All(s)) + multiset(Sent(s.mpri, es, call))
            && (!s.mpri ==> All(t) == All(s) + Sent(s.mpri, es, call))
    decreases |es|
  {
    hide All, Inv, Gain, Step;
    if es == [] {
      assert All(s) + [] == All(s);
    } else {
      var t := Step(s, es[0], call);
      StepInv(s, es[0], call);
      StepConserves(s, es[0], call);
      RunKeeps(t, es[1..], call + 1);
      Joined(All(s), Gain(s.mpri, es[0], call), Sent(s.mpri, es[1..], call + 1));
    }
  }

  lemma Joined(a: seq<Mail>, one: seq<Mail>, rest: seq<Mail>)
    ensures a + (one + rest) == (a + one) + rest
    ensures multiset(one + rest) == multiset(one) + multiset(rest)
  {
  }

  /** From creation: with TA_MFIFO everything comes out exactly as sent; in any case
      what was sent and not refused is delivered or in the list, once; a waiting
      receiver means an empty list. */
  lemma NothingLost(mpri: bool, tpri: bool, es: seq<Event>)
    ensures var s := Run(Box(mpri, tpri, [], [], []), es, 0);
            && multiset(Mails(s.out)) + multiset(s.msgs) == multiset(Sent(mpri, es, 0))
            && (!mpri ==> Mails(s.out) + s.msgs == Sent(mpri, es, 0))
            && (s.waitq != [] ==> s.msgs == [])
  {
    hide Run, Sent, Mails;
    RunKeeps(Box(mpri, tpri, [], [], []), es, 0);
    assert All(Box(mpri, tpri, [], [], [])) == [];
    var sent := Sent(mpri, es, 0);
    assert [] + sent == sent;
  }

  /** What a receive takes is the oldest message, or the oldest of smallest msgpri. */
  lemma ReceivesFirst(mpri: bool, tpri: bool, es: seq<Event>, task: int, i: nat)
    requires var s := Run(Box(mpri, tpri, [], [], []), es, 0); 0 < i < |s.msgs|
    ensures var s := Run(Box(mpri, tpri, [], [], []), es, 0);
            && Before(mpri, s.msgs[0], s.msgs[i])
            && var (er, t) := Receive(s, task, 0, false, true, false);
               er == E_OK && t.out[|s.out|] == Delivery(task, s.msgs[0])
  {
    hide Run, Before;
    RunKeeps(Box(mpri, tpri, [], [], []), es, 0);
  }

  /** Place p is the end of the list, or with TA_MPRI that before the first greater msgpri. */
  ghost predicate Between(msgs: seq<Mail>, mpri: bool, p: int, pri: int) {
    && 0 <= p <= |msgs| && (p < |msgs| ==> mpri && msgs[p].pri > pri)
    && (mpri ==> forall k :: 0 <= k < p ==> msgs[k].pri <= pri)
  }

  // ---- the list in memory ----

  /** The cell that holds the pointer to message i. */
  function Cell(head: int, addrs: seq<int>, i: int): int
    requires 0 <= i <= |addrs|
  {
    if i == 0 then head else addrs[i - 1]
  }

  function Target(addrs: seq<int>, i: int): int
    requires 0 <= i <= |addrs|
  {
    if i < |addrs| then addrs[i] else NULL
  }

  ghost predicate Linked(next: map<int, int>, head: int, addrs: seq<int>) {
    && Distinct(addrs) && head !in addrs && NULL !in addrs
    && forall i {:trigger Cell(head, addrs, i)} :: 0 <= i <= |addrs| ==>
         Cell(head, addrs, i) in next && next[Cell(head, addrs, i)] == Target(addrs, i)
  }

  lemma LinkedAt(next: map<int, int>, head: int, addrs: seq<int>, i: int)
    requires Linked(next, head, addrs) && 0 <= i <= |addrs|
    ensures Cell(head, addrs, i) in next && next[Cell(head, addrs, i)] == Target(addrs, i)
    ensures Target(addrs, i) == NULL <==> i == |addrs|
  {
    assert i < |addrs| ==> addrs[i] in addrs;
  }

  lemma LinkedInsert(next: map<int, int>, head: int, addrs: seq<int>, p: int, pk: int)
    requires Linked(next, head, addrs) && 0 <= p <= |addrs| && pk !in addrs && pk != head && pk != NULL
    ensures Linked(next[pk := Target(addrs, p)][Cell(head, addrs, p) := pk], head, InsertAt(addrs, p, pk))
  {
    var r, n2 := InsertAt(addrs, p, pk), next[pk := Target(addrs, p)][Cell(head, addrs, p) := pk];
    InsertAtDistinct(addrs, p, pk);
    assert forall x :: x in r ==> x == pk || x in addrs;
    forall i | 0 <= i <= |r| ensures Cell(head, r, i) in n2 && n2[Cell(head, r, i)] == Target(r, i) {
      var j := if i <= p then i else i - 1;
      assert Cell(head, addrs, j) in next;
      assert i != p + 1 ==> Cell(head, r, i) == Cell(head, addrs, j);
      assert i != p && i != p + 1 ==> Cell(head, addrs, j) != Cell(head, addrs, p);
    }
  }

  /** Sending message i again while it is listed, so that it is linked in at place p
      behind itself: the messages from i + 1 up to p are cut out of the list, or, when
      there are none, the links from head on no longer end. With TA_MFIFO p is the end
      of the list; ListedPosition is about TA_MPRI. */
  lemma SentTwice(next: map<int, int>, head: int, addrs: seq<int>, i: nat, p: nat)
    requires Linked(next, head, addrs) && i < p <= |addrs|
    ensures var n2 := next[addrs[i] := Target(addrs, p)][addrs[p - 1] := addrs[i]];
            if i + 1 < p then Linked(n2, head, addrs[..i + 1] + addrs[p..]) else forall r :: !Linked(n2, head, r)
  {
    var n2 := next[addrs[i] := Target(addrs, p)][addrs[p - 1] := addrs[i]];
    if i + 1 < p {
      CutOut(next, n2, head, addrs, i, p);
    } else {
      forall r | Linked(n2, head, r) ensures false {
        SamePath(next, n2, head, addrs, r, p, p);
        assert r[..p][i] == addrs[..p][i];
        LinkedAt(n2, head, r, p);
      }
    }
  }

  lemma CutOut(next: map<int, int>, n2: map<int, int>, head: int, addrs: seq<int>, i: nat, p: nat)
    requires Linked(next, head, addrs) && i + 1 < p <= |addrs|
    requires n2 == next[addrs[i] := Target(addrs, p)][addrs[p - 1] := addrs[i]]
    ensures Linked(n2, head, addrs[..i + 1] + addrs[p..])
  {
    var r := addrs[..i + 1] + addrs[p..];
    assert forall k :: 0 <= k < |r| ==> r[k] == addrs[if k <= i then k else k + p - i - 1];
    assert forall k :: 0 <= k < |r| ==> r[k] in addrs;
    assert addrs[i] in addrs && addrs[p - 1] in addrs;
    forall k | 0 <= k <= |r| ensures Cell(head, r, k) in n2 && n2[Cell(head, r, k)] == Target(r, k) {
      var j := if k <= i + 1 then k else k + p - i - 1;
      assert Cell(head, r, k) == Cell(head, addrs, j);
      LinkedAt(next, head, addrs, j);
      assert k != i + 1 ==> Target(r, k) == Target(addrs, j);
      assert Target(r, i + 1) == Target(addrs, p);
      assert j > 0 ==> addrs[j - 1] != addrs[p - 1] && (k != i + 1 ==> addrs[j - 1] != addrs[i]);
    }
  }

  /** Up to message p - 1 the links still lead the old way. */
  lemma {:induction false} SamePath(next: map<int, int>, n2: map<int, int>, head: int, addrs: seq<int>, r: seq<int>,
                                    p: nat, k: nat)
    requires Linked(next, head, addrs) && Linked(n2, head, r) && k <= p <= |addrs| && p > 0
    requires forall x :: x in next && x != addrs[p - 1] ==> x in n2 && n2[x] == next[x]
    ensures k <= |r| && r[..k] == addrs[..k]
  {
    if k > 0 {
      SamePath(next, n2, head, addrs, r, p, k - 1);
      LinkedAt(next, head, addrs, k - 1);
      LinkedAt(n2, head, r, k - 1);
      assert k > 1 ==> r[..k - 1][k - 2] == addrs[..k - 1][k - 2];
      assert addrs[p - 1] in addrs;
      assert Cell(head, r, k - 1) == Cell(head, addrs, k - 1) != addrs[p - 1];
      assert r[k - 1] == addrs[k - 1];
      assert r[..k] == r[..k - 1] + [r[k - 1]] && addrs[..k] == addrs[..k - 1] + [addrs[k - 1]];
    }
  }

  /** The scan of queue_insert_mpri for a message that is listed goes past it. */
  lemma ListedPosition(s: Box, call: nat, i: nat)
    requires Inv(s, call) && s.mpri && i < |s.msgs|
    ensures i < MsgPosition(s.msgs, s.msgs[i].pri)
  {
    assert forall k :: 0 <= k < i ==> s.msgs[k].pri <= s.msgs[i].pri;
  }

  lemma LinkedRest(next: map<int, int>, head: int, addrs: seq<int>)
    requires Linked(next, head, addrs) && addrs != []
    ensures head in next && next[head] == addrs[0] && addrs[0] in next
            && Linked(next[head := next[addrs[0]]], head, addrs[1..])
  {
    var r := addrs[1..];
    assert Cell(head, addrs, 0) == head && Cell(head, addrs, 1) == addrs[0];
    var n2 := next[head := next[addrs[0]]];
    forall i | 0 <= i <= |r| ensures Cell(head, r, i) in n2 && n2[Cell(head, r, i)] == Target(r, i) {
      assert Cell(head, addrs, i + 1) in next;
    }
  }

  function Addrs(msgs: seq<Mail>): (r: seq<int>)
    ensures |r| == |msgs| && forall i :: 0 <= i < |r| ==> r[i] == msgs[i].addr
  {
    seq(|msgs|, i requires 0 <= i < |msgs| => msgs[i].addr)
  }

  lemma AddrsInsert(msgs: seq<Mail>, p: int, m: Mail)
    requires 0 <= p <= |msgs|
    ensures Addrs(InsertAt(msgs, p, m)) == InsertAt(Addrs(msgs), p, m.addr)
  {
  }

  lemma AddrsRest(msgs: seq<Mail>)
    requires msgs != []
    ensures Addrs(msgs[1..]) == Addrs(msgs)[1..]
  {
  }

  /** MBXCB, and the words of the messages that it uses. */
  class MbxCB {
    const mpri: bool
    const tpri: bool
    const head: int              // address of mq_head
    var next: map<int, int>      // msgque[0] of the head and of messages
    var msgpri: map<int, int>
    var mqTail: int
    var waitq: seq<Waiter<int>>
    var given: map<int, int>     // what was written through ppk_msg for a released task
    ghost var msgs: seq<Mail>
    ghost var out: seq<Delivery>

    ghost function State(): Box
      reads this
    {
      Box(mpri, tpri, msgs, waitq, out)
    }

    /** The last message is at mq_tail; with no message, mq_tail is left over. */
    ghost predicate Valid(call: nat)
      reads this
    {
      && Inv(State(), call) && Linked(next, head, Addrs(msgs))
      && (!mpri && msgs != [] ==> mqTail == msgs[|msgs| - 1].addr)
      && (mpri ==> forall i :: 0 <= i < |msgs| ==> msgs[i].addr in msgpri && msgpri[msgs[i].addr] == msgs[i].pri)
    }

    constructor (mpri0: bool, tpri0: bool, head0: int)
      ensures Valid(0) && State() == Box(mpri0, tpri0, [], [], []) && head == head0
    {
      mpri, tpri, head := mpri0, tpri0, head0;
      next, msgpri, mqTail, waitq, given, msgs, out := map[head0 := NULL], map[], NULL, [], map[], [], [];
    }

    /** queue_insert_mpri */
    method QueueInsertMpri(pkMsg: int, ghost call: nat)
      requires Valid(call) && mpri && pkMsg in msgpri
      requires pkMsg !in Addrs(msgs) && pkMsg != head && pkMsg != NULL
      modifies this`next, this`msgs
      ensures Linked(next, head, Addrs(msgs))
      ensures msgs == Insert(old(State()), Mail(pkMsg, msgpri[pkMsg], call))
    {
      hide Linked, Inv, InsertAt;
      ghost var m, addrs := Mail(pkMsg, msgpri[pkMsg], call), Addrs(msgs);
      var prevmsg := head;
      ghost var i := 0;
      LinkedAt(next, head, addrs, 0);
      var msg := next[prevmsg];
      assert msgs[0..] == msgs;
      while msg != NULL && msgpri[msg] <= msgpri[pkMsg]
        invariant 0 <= i <= |msgs| && prevmsg == Cell(head, addrs, i) && msg == Target(addrs, i)
        invariant msg == NULL <==> i == |msgs|
        invariant MsgPosition(msgs, m.pri) == i + MsgPosition(msgs[i..], m.pri)
        modifies {}
        decreases |msgs| - i
      {
        assert msgs[i..][1..] == msgs[i + 1..];
        prevmsg := msg;
        i := i + 1;
        LinkedAt(next, head, addrs, i);
        msg := next[prevmsg];
      }
      LinkedInsert(next, head, addrs, i, pkMsg);
      AddrsInsert(msgs, i, m);
      next := next[pkMsg := msg];
      next := next[prevmsg := pkMsg];
      msgs := InsertAt(msgs, i, m);
    }

    /** _tk_snd_mbx, for a message that is not in the list. */
    method SndMbx(pkMsg: int, ghost call: nat) returns (ercd: Er)
      requires Valid(call) && pkMsg !in Addrs(msgs) && pkMsg != head && pkMsg != NULL && pkMsg in msgpri
      modifies this
      ensures Valid(call + 1)
      ensures (ercd, State()) == Send(old(State()), Mail(pkMsg, old(msgpri)[pkMsg], call)) && msgpri == old(msgpri)
      ensures ercd == if mpri && old(msgpri)[pkMsg] <= 0 then E_PAR else E_OK
      ensures ercd == E_PAR ==> State() == old(State())
      ensures ercd == E_OK && old(waitq) != [] ==>
                State() == old(State()).(waitq := old(waitq)[1..],
                                         out := old(out) + [Delivery(old(waitq)[0].task,
                                                                     Mail(pkMsg, old(msgpri)[pkMsg], call))])
      ensures ercd == E_OK && old(waitq) == [] ==>
                && State() == old(State()).(msgs := msgs)
                && exists p :: Between(old(msgs), mpri, p, old(msgpri)[pkMsg])
                               && msgs == InsertAt(old(msgs), p, Mail(pkMsg, old(msgpri)[pkMsg], call))
      ensures given == if ercd == E_OK && old(waitq) != [] then old(given)[old(waitq)[0].task := pkMsg] else old(given)
    {
      hide Before, Linked, MsgPosition, InsertAt, Between;
      ghost var m := Mail(pkMsg, msgpri[pkMsg], call);
      InsertBetween(State(), m);
      StepInv(State(), Snd(pkMsg, m.pri), call);
      if mpri && msgpri[pkMsg] <= 0 {
        return E_PAR;
      }
      if waitq != [] {
        out := out + [Delivery(waitq[0].task, m)];
        given := given[waitq[0].task := pkMsg];
        waitq := waitq[1..];
        return E_OK;
      }
      if mpri {
        InsertPris(State(), m, msgpri);
        QueueInsertMpri(pkMsg, call);
      } else {
        Append(pkMsg, call);
      }
      return E_OK;
    }

    lemma InsertBetween(s: Box, m: Mail)
      ensures exists p :: Between(s.msgs, s.mpri, p, m.pri) && Insert(s, m) == InsertAt(s.msgs, p, m)
    {
      var p := if s.mpri then MsgPosition(s.msgs, m.pri) else |s.msgs|;
      assert Between(s.msgs, s.mpri, p, m.pri);
    }

    lemma InsertPris(s: Box, m: Mail, pris: map<int, int>)
      requires s.mpri && m.addr in pris && pris[m.addr] == m.pri
      requires forall i :: 0 <= i < |s.msgs| ==> s.msgs[i].addr in pris && pris[s.msgs[i].addr] == s.msgs[i].pri
      ensures var r := Insert(s, m); forall i :: 0 <= i < |r| ==> r[i].addr in pris && pris[r[i].addr] == r[i].pri
    {
    }

    /** At the end: mq_tail counts only if there is a message. */
    method Append(pkMsg: int, ghost call: nat)
      requires Valid(call) && !mpri && pkMsg in msgpri
      requires pkMsg !in Addrs(msgs) && pkMsg != head && pkMsg != NULL
      modifies this`next, this`msgs, this`mqTail
      ensures Linked(next, head, Addrs(msgs)) && mqTail == pkMsg
      ensures msgs == old(msgs) + [Mail(pkMsg, msgpri[pkMsg], call)] == Insert(old(State()),
                                                                               Mail(pkMsg, msgpri[pkMsg], call))
    {
      ghost var m, addrs, n := Mail(pkMsg, msgpri[pkMsg], call), Addrs(msgs), |msgs|;
      LinkedInsert(next, head, addrs, n, pkMsg);
      AddrsInsert(msgs, n, m);
      InsertMultiset(msgs, n, m);
      assert Cell(head, addrs, 0) == head && (n > 0 ==> Cell(head, addrs, n) == addrs[n - 1]);
      assert n > 0 ==> addrs[0] in addrs;
      next := next[pkMsg := NULL];
      if next[head] == NULL {
        next := next[head := pkMsg];
      } else {
        next := next[mqTail := pkMsg];
      }
      mqTail := pkMsg;
      msgs := msgs + [m];
    }

    lemma RcvStep(s: Box, task: int, pri: int, indp: bool, poll: bool, diswai: bool, call: nat)
      ensures Step(s, Rcv(task, pri, indp, poll, diswai), call) == Receive(s, task, pri, indp, poll, diswai).1
    {
    }

    /** _tk_rcv_mbx_u */
    method RcvMbx(task: int, pri: int, indp: bool, poll: bool, diswai: bool, ghost call: nat)
      returns (ercd: Er, pkMsg: int)
      requires Valid(call)
      modifies this
      ensures Valid(call + 1)
      ensures (ercd, State()) == Receive(old(State()), task, pri, indp, poll, diswai) && msgpri == old(msgpri)
      ensures ercd == if indp then E_CTX
                      else if diswai then E_DISWAI
                      else if old(msgs) != [] then E_OK
                      else if poll then E_TMOUT
                      else Waits
      ensures ercd == E_OK ==>
                && pkMsg == old(msgs)[0].addr
                && State() == old(State()).(msgs := old(msgs)[1..], out := old(out) + [Delivery(task, old(msgs)[0])])
      ensures ercd == Waits ==>
                State() == old(State()).(waitq := waitq) && Placed(old(waitq), Waiter(task, pri, 0), tpri, waitq)
      ensures ercd != E_OK && ercd != Waits ==> State() == old(State())
    {
      hide Before, Enqueue, Linked, Inv, Step, Placed;
      EnqueuePlaced(waitq, Waiter(task, pri, 0), tpri);
      StepInv(State(), Rcv(task, pri, indp, poll, diswai), call);
      RcvStep(State(), task, pri, indp, poll, diswai, call);
      pkMsg := NULL;
      if indp {
        return E_CTX, pkMsg;
      }
      if diswai {
        return E_DISWAI, pkMsg;
      }
      LinkedAt(next, head, Addrs(msgs), 0);
      if next[head] != NULL {
        LinkedRest(next, head, Addrs(msgs));
        AddrsRest(msgs);
        pkMsg := next[head];
        next := next[head := next[pkMsg]];
        out := out + [Delivery(task, msgs[0])];
        msgs := msgs[1..];
        return E_OK, pkMsg;
      }
      if poll {
        return E_TMOUT, pkMsg;
      }
      waitq := Enqueue(waitq, Waiter(task, pri, 0), tpri);
      return Waits, pkMsg;
    }
  }
}
