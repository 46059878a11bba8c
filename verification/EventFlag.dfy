/** Event flags (kernel/tkernel/src/eventflag.c:92-150, 205-347): the patterns, bit by bit. */
module FlagPattern {

  const TWF_ORW: bv32 := 0x01
  const TWF_CLR: bv32 := 0x10
  const TWF_BITCLR: bv32 := 0x20

  /** Is this bit of a mode on? */
  predicate On(wfmode: bv32, bit: bv32) { wfmode & bit != 0 }

  function Minus(flgptn: bv32, waiptn: bv32): bv32 { flgptn & !waiptn }

  /** The test of eventflag_cond. */
  predicate CondOn(flgptn: bv32, waiptn: bv32, wfmode: bv32) {
    if wfmode & TWF_ORW != 0 then flgptn & waiptn != 0 else flgptn & waiptn == waiptn
  }

  /** TWF_ORW: some bit waited for is set; otherwise none is missing. */
  predicate Met(seen: bv32, waiptn: bv32, wfmode: bv32) {
    if wfmode & TWF_ORW == 0 then waiptn & !seen == 0 else seen & waiptn != 0
  }

  lemma CondOnMeans(p: bv32, waiptn: bv32, wfmode: bv32)
    ensures CondOn(p, waiptn, wfmode) <==> Met(p, waiptn, wfmode)
  {
    if p & waiptn == waiptn { NoneMissing(p, waiptn); } else { SomeMissing(p, waiptn); }
  }

  lemma NoneMissing(p: bv32, q: bv32)
    requires p & q == q
    ensures q & !p == 0
  {
  }

  lemma SomeMissing(p: bv32, q: bv32)
    requires p & q != q
    ensures q & !p != 0
  {
  }

  /** TWF_CLR clears the pattern, TWF_BITCLR the bits waited for and no others. */
  predicate LeftOver(before: bv32, waiptn: bv32, wfmode: bv32, after: bv32) {
    if wfmode & TWF_CLR != 0 then after == 0
    else if wfmode & TWF_BITCLR != 0 then after & waiptn == 0 && after | waiptn == before | waiptn
    else after == before
  }

  lemma LeftOverIs(p: bv32, waiptn: bv32, wfmode: bv32)
    ensures LeftOver(p, waiptn, wfmode,
                     if On(wfmode, TWF_CLR) then 0 else if On(wfmode, TWF_BITCLR) then Minus(p, waiptn) else p)
  {
  }

  /** The pattern keeps just the bits of the mask. */
  predicate Masked(before: bv32, mask: bv32, after: bv32) {
    after == before & mask
  }

  predicate Within(p: bv32, q: bv32) {
    p & q == p
  }

  lemma MinusWithin(p: bv32, q: bv32)
    ensures Within(Minus(p, q), p) && Within(0, p)
  {
  }

  lemma WithinSelf(p: bv32)
    ensures Within(p, p)
  {
  }

  lemma WithinTrans(p: bv32, q: bv32, r: bv32)
    requires Within(p, q) && Within(q, r)
    ensures Within(p, r)
  {
  }

  lemma AndWithin(p: bv32, q: bv32)
    ensures Within(p & q, p)
  {
  }

  lemma CondOnMonotone(p: bv32, q: bv32, waiptn: bv32, wfmode: bv32)
    requires Within(p, q) && CondOn(p, waiptn, wfmode)
    ensures CondOn(q, waiptn, wfmode)
  {
  }

  lemma CondOnZero(waiptn: bv32, wfmode: bv32)
    requires waiptn != 0
    ensures !CondOn(0, waiptn, wfmode)
  {
  }
}

/** Event flags: the calls and the tasks that wait. */
module EventFlag {
  import opened Queue
  import opened WaitQueue
  import opened FlagPattern

  /** What a task waits for. */
  datatype Want = Want(waiptn: bv32, wfmode: bv32) {
    predicate ClearsAll() { On(wfmode, TWF_CLR) }
    predicate ClearsBits() { On(wfmode, TWF_BITCLR) }
    predicate Valid() { waiptn != 0 && !On(wfmode, !(TWF_ORW | TWF_CLR | TWF_BITCLR)) }
    /** The pattern without the bits waited for. */
    function Mask(flgptn: bv32): bv32 { Minus(flgptn, waiptn) }
  }

  /** A released task, what it waited for and the pattern it was given. */
  datatype Release = Release(task: int, want: Want, seen: bv32)

  /** eventflag_cond */
  predicate Cond(flgptn: bv32, w: Want) {
    CondOn(flgptn, w.waiptn, w.wfmode)
  }

  lemma CondMeans(p: bv32, w: Want)
    ensures Cond(p, w) <==> Met(p, w.waiptn, w.wfmode)
  {
    hide CondOn, Met;
    CondOnMeans(p, w.waiptn, w.wfmode);
  }

  /** The pattern after a wait for w has been satisfied. */
  function Cleared(flgptn: bv32, w: Want): bv32 {
    if w.ClearsAll() then 0
    else if w.ClearsBits() then w.Mask(flgptn)
    else flgptn
  }

  lemma ClearedMeans(p: bv32, w: Want)
    ensures LeftOver(p, w.waiptn, w.wfmode, Cleared(p, w))
  {
    hide On, Minus, LeftOver;
    LeftOverIs(p, w.waiptn, w.wfmode);
  }

  lemma ClearedWithin(p: bv32, w: Want)
    ensures Within(Cleared(p, w), p)
  {
    hide On, Minus, Within;
    MinusWithin(p, w.waiptn);
    WithinSelf(p);
  }

  /** A condition that fails goes on failing as bits are cleared. */
  lemma CondMonotone(p: bv32, q: bv32, w: Want)
    requires Within(p, q) && Cond(p, w)
    ensures Cond(q, w)
  {
    hide CondOn, Within;
    CondOnMonotone(p, q, w.waiptn, w.wfmode);
  }

  lemma CondZero(w: Want)
    requires w.waiptn != 0
    ensures !Cond(0, w)
  {
    hide CondOn;
    CondOnZero(w.waiptn, w.wfmode);
  }

  // ---- the pass of tk_set_flg, and what it should do ----

  datatype Outcome = Outcome(ptn: bv32, waiting: seq<Waiter<Want>>, released: seq<Release>)

  function Keeping(front: seq<Waiter<Want>>, o: Outcome): Outcome {
    o.(waiting := front + o.waiting)
  }

  function After(r: Release, o: Outcome): Outcome {
    o.(released := [r] + o.released)
  }

  /** One pass over the queue, left early once the pattern is all clear. */
  function Pass(ptn: bv32, q: seq<Waiter<Want>>): Outcome
    decreases |q|
  {
    if q == [] then Outcome(ptn, [], [])
    else
      var w := q[0].req;
      if !Cond(ptn, w) then Keeping([q[0]], Pass(ptn, q[1..]))
      else
        var r := Release(q[0].task, w, ptn);
        if w.ClearsBits() && w.Mask(ptn) == 0 then Outcome(0, q[1..], [r])
        else if w.ClearsAll() then Outcome(0, q[1..], [r])
        else After(r, Pass(Cleared(ptn, w), q[1..]))
  }

  /** The first waiter whose condition holds. */
  function FirstReady(ptn: bv32, q: seq<Waiter<Want>>): (i: nat)
    ensures i <= |q| && (i < |q| ==> Cond(ptn, q[i].req))
    ensures forall k :: 0 <= k < i ==> !Cond(ptn, q[k].req)
  {
    if q == [] || Cond(ptn, q[0].req) then 0 else 1 + FirstReady(ptn, q[1..])
  }

  /** As long as anybody's condition holds, the first such waiter is released. */
  function ReleaseAll(ptn: bv32, q: seq<Waiter<Want>>): Outcome
    decreases |q|
  {
    var i := FirstReady(ptn, q);
    if i == |q| then Outcome(ptn, q, [])
    else
      var w := q[i];
      After(Release(w.task, w.req, ptn), ReleaseAll(Cleared(ptn, w.req), RemoveAt(q, i)))
  }

  /** No waiting task's condition holds. */
  ghost predicate Quiet(ptn: bv32, q: seq<Waiter<Want>>) {
    forall i :: 0 <= i < |q| ==> !Cond(ptn, q[i].req)
  }

  ghost predicate Wanting(q: seq<Waiter<Want>>) {
    forall i :: 0 <= i < |q| ==> q[i].req.waiptn != 0
  }

  lemma {:induction false} ReleaseAllQuiet(ptn: bv32, q: seq<Waiter<Want>>)
    ensures Quiet(ReleaseAll(ptn, q).ptn, ReleaseAll(ptn, q).waiting)
    decreases |q|
  {
    hide Cond, Cleared;
    var i := FirstReady(ptn, q);
    if i < |q| { ReleaseAllQuiet(Cleared(ptn, q[i].req), RemoveAt(q, i)); }
  }

  lemma {:induction false} FirstReadyBehind(ptn: bv32, front: seq<Waiter<Want>>, q: seq<Waiter<Want>>)
    requires Quiet(ptn, front)
    ensures FirstReady(ptn, front + q) == |front| + FirstReady(ptn, q)
  {
    hide Cond;
    if front == [] {
      assert front + q == q;
    } else {
      assert (front + q)[1..] == front[1..] + q && (front + q)[0] == front[0];
      assert Quiet(ptn, front[1..]);
      FirstReadyBehind(ptn, front[1..], q);
    }
  }

  lemma QuietLess(p: bv32, ptn: bv32, q: seq<Waiter<Want>>)
    requires Quiet(ptn, q) && Within(p, ptn)
    ensures Quiet(p, q)
  {
    hide Cond, Within;
    forall i | 0 <= i < |q| ensures !Cond(p, q[i].req) {
      if Cond(p, q[i].req) { CondMonotone(p, ptn, q[i].req); }
    }
  }

  /** Waiters in front that are not ready stay in front, whatever happens behind them. */
  lemma {:induction false} ReleaseAllBehind(ptn: bv32, front: seq<Waiter<Want>>, q: seq<Waiter<Want>>)
    requires Quiet(ptn, front)
    ensures ReleaseAll(ptn, front + q) == Keeping(front, ReleaseAll(ptn, q))
    decreases |q|
  {
    hide Cond, Cleared, Within, Quiet, RemoveAt;
    var i := FirstReady(ptn, q);
    FirstReadyBehind(ptn, front, q);
    if i < |q| {
      var p := Cleared(ptn, q[i].req);
      BehindFront(front, q, i);
      ClearedWithin(ptn, q[i].req);
      QuietLess(p, ptn, front);
      ReleaseAllBehind(p, front, RemoveAt(q, i));
    }
  }

  lemma BehindFront(front: seq<Waiter<Want>>, q: seq<Waiter<Want>>, i: nat)
    requires i < |q|
    ensures (front + q)[|front| + i] == q[i] && RemoveAt(front + q, |front| + i) == front + RemoveAt(q, i)
  {
  }

  lemma NobodyReady(q: seq<Waiter<Want>>)
    requires Wanting(q)
    ensures ReleaseAll(0, q) == Outcome(0, q, [])
  {
    hide Cond;
    forall i | 0 <= i < |q| ensures !Cond(0, q[i].req) { CondZero(q[i].req); }
  }

  /** One forward pass with its early exits releases exactly whom it should, in order,
      and each with the pattern it should see. */
  lemma {:induction false} PassIsReleaseAll(ptn: bv32, q: seq<Waiter<Want>>)
    requires Wanting(q)
    ensures Pass(ptn, q) == ReleaseAll(ptn, q)
    decreases |q|
  {
    hide Cond, Within, ReleaseAll, Quiet;
    if q == [] {
      assert ReleaseAll(ptn, q) == Outcome(ptn, [], []) by { OneRelease(ptn, q); }
    } else {
      var w := q[0].req;
      assert Wanting(q[1..]);
      OneRelease(ptn, q);
      if !Cond(ptn, w) {
        PassIsReleaseAll(ptn, q[1..]);
        OneNotReady(ptn, q);
        ReleaseAllBehind(ptn, [q[0]], q[1..]);
        assert [q[0]] + q[1..] == q;
      } else {
        assert RemoveAt(q, 0) == q[1..];
        ClearedCases(ptn, w);
        NobodyReady(q[1..]);
        PassIsReleaseAll(Cleared(ptn, w), q[1..]);
      }
    }
  }

  lemma OneRelease(ptn: bv32, q: seq<Waiter<Want>>)
    ensures q == [] ==> ReleaseAll(ptn, q) == Outcome(ptn, [], [])
    ensures q != [] && Cond(ptn, q[0].req) ==>
              ReleaseAll(ptn, q) == After(Release(q[0].task, q[0].req, ptn),
                                          ReleaseAll(Cleared(ptn, q[0].req), RemoveAt(q, 0)))
  {
    hide Cond, Cleared;
  }

  lemma OneNotReady(ptn: bv32, q: seq<Waiter<Want>>)
    requires q != [] && !Cond(ptn, q[0].req)
    ensures Quiet(ptn, [q[0]])
  {
  }

  lemma ClearedCases(ptn: bv32, w: Want)
    ensures w.ClearsBits() && w.Mask(ptn) == 0 ==> Cleared(ptn, w) == 0
    ensures w.ClearsAll() ==> Cleared(ptn, w) == 0
  {
  }

  /** Nobody leaves the queue but those released, each with its condition met. */
  lemma {:induction false} ReleaseAllKeeps(ptn: bv32, q: seq<Waiter<Want>>)
    ensures var o := ReleaseAll(ptn, q);
            && (forall w :: w in o.waiting ==> w in q)
            && |o.waiting| + |o.released| == |q|
            && (forall i :: 0 <= i < |o.released| ==> Cond(o.released[i].seen, o.released[i].want))
            && Within(o.ptn, ptn)
    decreases |q|
  {
    hide Cond, Cleared, Within;
    var i := FirstReady(ptn, q);
    if i < |q| {
      var rest := RemoveAt(q, i);
      ClearedWithin(ptn, q[i].req);
      ReleaseAllKeeps(Cleared(ptn, q[i].req), rest);
      WithinTrans(ReleaseAll(ptn, q).ptn, Cleared(ptn, q[i].req), ptn);
    } else {
      WithinSelf(ptn);
    }
  }

  lemma {:induction false} ReleaseAllTasks(ptn: bv32, q: seq<Waiter<Want>>)
    ensures TasksDistinct(q) ==> TasksDistinct(ReleaseAll(ptn, q).waiting)
    ensures Wanting(q) ==> Wanting(ReleaseAll(ptn, q).waiting)
    decreases |q|
  {
    hide Cond, Cleared, TasksDistinct, Wanting, RemoveAt;
    var i := FirstReady(ptn, q);
    if i < |q| {
      RestTasks(q, i);
      ReleaseAllTasks(Cleared(ptn, q[i].req), RemoveAt(q, i));
    }
  }

  lemma RestTasks(q: seq<Waiter<Want>>, i: nat)
    requires i < |q|
    ensures TasksDistinct(q) ==> TasksDistinct(RemoveAt(q, i))
    ensures Wanting(q) ==> Wanting(RemoveAt(q, i))
  {
  }

  /** From pattern ptn on, each released task sees what the one before it left; end is
      what the last one leaves. */
  ghost predicate Chained(ptn: bv32, released: seq<Release>, end: bv32) {
    && (if released == [] then end == ptn else released[0].seen == ptn)
    && forall i {:trigger Served(released, i, end)} :: 0 <= i < |released| ==> Served(released, i, end)
  }

  ghost predicate Served(released: seq<Release>, i: int, end: bv32)
    requires 0 <= i < |released|
  {
    var r := released[i];
    && Met(r.seen, r.want.waiptn, r.want.wfmode)
    && LeftOver(r.seen, r.want.waiptn, r.want.wfmode, if i + 1 < |released| then released[i + 1].seen else end)
  }

  /** Those that stay and those that go are the queue, both in its order. */
  ghost predicate Parted(q: seq<Waiter<Want>>, stay: seq<Waiter<Want>>, go: seq<Release>)
    decreases |q|
  {
    if q == [] then stay == [] && go == []
    else
      || (stay != [] && stay[0] == q[0] && Parted(q[1..], stay[1..], go))
      || (go != [] && go[0].task == q[0].task && go[0].want == q[0].req && Parted(q[1..], stay, go[1..]))
  }

  lemma {:induction false} AllStay(q: seq<Waiter<Want>>)
    ensures Parted(q, q, [])
  {
    if q != [] { AllStay(q[1..]); }
  }

  lemma {:induction false} PartedTasks(q: seq<Waiter<Want>>, stay: seq<Waiter<Want>>, go: seq<Release>)
    requires Parted(q, stay, go) && TasksDistinct(q)
    ensures forall i, j :: 0 <= i < j < |go| ==> go[i].task != go[j].task
    ensures forall i :: 0 <= i < |go| ==> exists k :: 0 <= k < |q| && q[k].task == go[i].task
    decreases |q|
  {
    if q != [] {
      var rest := q[1..];
      assert TasksDistinct(rest) && forall k :: 0 <= k < |rest| ==> rest[k] == q[k + 1] && rest[k].task != q[0].task;
      if stay != [] && stay[0] == q[0] && Parted(rest, stay[1..], go) {
        PartedTasks(rest, stay[1..], go);
        forall i | 0 <= i < |go| ensures exists k :: 0 <= k < |q| && q[k].task == go[i].task {
          var k :| 0 <= k < |rest| && rest[k].task == go[i].task;
          assert q[k + 1].task == go[i].task;
        }
      } else {
        PartedTasks(rest, stay, go[1..]);
        forall i | 0 < i < |go|
          ensures go[i].task != go[0].task && exists k :: 0 <= k < |q| && q[k].task == go[i].task
        {
          assert go[1..][i - 1] == go[i];
          var k :| 0 <= k < |rest| && rest[k].task == go[1..][i - 1].task;
          assert q[k + 1].task == go[i].task;
        }
        assert forall i, j :: 0 < i < j < |go| ==> go[i] == go[1..][i - 1] && go[j] == go[1..][j - 1];
        assert q[0].task == go[0].task;
      }
    }
  }

  lemma {:induction false} PassParts(ptn: bv32, q: seq<Waiter<Want>>)
    ensures Parted(q, Pass(ptn, q).waiting, Pass(ptn, q).released)
    decreases |q|
  {
    hide Cond, Cleared, Want.Mask, Want.ClearsAll, Want.ClearsBits;
    if q != [] {
      var w, o := q[0].req, Pass(ptn, q);
      if !Cond(ptn, w) {
        PassParts(ptn, q[1..]);
        assert o.waiting[0] == q[0] && o.waiting[1..] == Pass(ptn, q[1..]).waiting;
      } else if (w.ClearsBits() && w.Mask(ptn) == 0) || w.ClearsAll() {
        AllStay(q[1..]);
        assert o.released[0] == Release(q[0].task, w, ptn) && o.released[1..] == [];
      } else {
        var rest := Pass(Cleared(ptn, w), q[1..]);
        PassParts(Cleared(ptn, w), q[1..]);
        assert o.released[0] == Release(q[0].task, w, ptn) && o.released[1..] == rest.released;
      }
    }
  }

  lemma ChainedMore(r: Release, p: bv32, released: seq<Release>, end: bv32)
    requires Chained(p, released, end)
    requires Met(r.seen, r.want.waiptn, r.want.wfmode) && LeftOver(r.seen, r.want.waiptn, r.want.wfmode, p)
    ensures Chained(r.seen, [r] + released, end)
  {
    hide Met, LeftOver;
    var all := [r] + released;
    forall i | 0 <= i < |all| ensures Served(all, i, end) {
      if i + 1 < |all| { assert all[i + 1] == released[i]; }
      if i > 0 {
        assert Served(released, i - 1, end) && all[i] == released[i - 1];
      }
    }
  }

  lemma {:induction false} PassChained(ptn: bv32, q: seq<Waiter<Want>>)
    ensures Chained(ptn, Pass(ptn, q).released, Pass(ptn, q).ptn)
    decreases |q|
  {
    hide Cond, Cleared, Met, LeftOver, Want.Mask, Want.ClearsAll, Want.ClearsBits;
    if q != [] {
      var w := q[0].req;
      CondMeans(ptn, w);
      ClearedMeans(ptn, w);
      ClearedCases(ptn, w);
      if !Cond(ptn, w) {
        PassChained(ptn, q[1..]);
      } else if !((w.ClearsBits() && w.Mask(ptn) == 0) || w.ClearsAll()) {
        var p := Cleared(ptn, w);
        PassChained(p, q[1..]);
        ChainedMore(Release(q[0].task, w, ptn), p, Pass(p, q[1..]).released, Pass(p, q[1..]).ptn);
      }
    }
  }

  // ---- the calls ----

  datatype Flag = Flag(wmul: bool, tpri: bool, ptn: bv32, waitq: seq<Waiter<Want>>)

  function Set(s: Flag, setptn: bv32): (Flag, seq<Release>) {
    var o := Pass(s.ptn | setptn, s.waitq);
    (s.(ptn := o.ptn, waitq := o.waiting), o.released)
  }

  function Clear(s: Flag, clrptn: bv32): Flag {
    s.(ptn := s.ptn & clrptn)
  }

  /** _tk_wai_flg_u */
  function Wai(s: Flag, task: int, pri: int, w: Want, indp: bool, poll: bool, diswai: bool): (Er, Flag) {
    if !w.Valid() then (E_PAR, s)
    else if indp then (E_CTX, s)
    else if !s.wmul && s.waitq != [] then (E_OBJ, s)
    else if diswai then (E_DISWAI, s)
    else if Cond(s.ptn, w) then (E_OK, s.(ptn := Cleared(s.ptn, w)))
    else if poll then (E_TMOUT, s)
    else (Waits, s.(waitq := Enqueue(s.waitq, Waiter(task, pri, w), s.tpri)))
  }

  datatype Event =
    | SetFlg(setptn: bv32)
    | ClrFlg(clrptn: bv32)
    | WaiFlg(task: int, pri: int, want: Want, indp: bool, poll: bool, diswai: bool)
    | EndWait(task: int)
    | ChgPri(w: Waiter<Want>, pri: int)

  predicate Possible(s: Flag, e: Event) {
    match e
    case WaiFlg(task, _, _, indp, _, _) => indp || forall i :: 0 <= i < |s.waitq| ==> s.waitq[i].task != task
    case ChgPri(w, _) => w in s.waitq
    case _ => true
  }

  function Step(s: Flag, e: Event): Flag {
    match e
    case SetFlg(p) => Set(s, p).0
    case ClrFlg(p) => Clear(s, p)
    case WaiFlg(task, pri, w, indp, poll, diswai) => Wai(s, task, pri, w, indp, poll, diswai).1
    case EndWait(task) => s.(waitq := Without(s.waitq, task))
    case ChgPri(w, pri) =>
      if s.tpri then s.(waitq := Enqueue(Without(s.waitq, w.task), w.(pri := pri), true)) else s
  }

  ghost predicate Inv(s: Flag) {
    && Quiet(s.ptn, s.waitq) && Wanting(s.waitq) && TasksDistinct(s.waitq)
    && (!s.wmul ==> |s.waitq| <= 1)
  }

  lemma SetInv(s: Flag, setptn: bv32)
    requires Inv(s)
    ensures Inv(Set(s, setptn).0)
  {
    hide Cond, Pass, ReleaseAll;
    PassIsReleaseAll(s.ptn | setptn, s.waitq);
    ReleaseAllQuiet(s.ptn | setptn, s.waitq);
    ReleaseAllKeeps(s.ptn | setptn, s.waitq);
    ReleaseAllTasks(s.ptn | setptn, s.waitq);
  }

  lemma WaiInv(s: Flag, task: int, pri: int, w: Want, indp: bool, poll: bool, diswai: bool)
    requires Inv(s) && (indp || forall i :: 0 <= i < |s.waitq| ==> s.waitq[i].task != task)
    ensures Inv(Wai(s, task, pri, w, indp, poll, diswai).1)
  {
    hide Cond, Cleared, Within;
    var (er, r) := Wai(s, task, pri, w, indp, poll, diswai);
    if er == E_OK {
      ClearedWithin(s.ptn, w);
      QuietLess(r.ptn, s.ptn, s.waitq);
    } else if er == Waits {
      EnqueueDistinct(s.waitq, Waiter(task, pri, w), s.tpri);
      EnqueueAll(s.ptn, s.waitq, Waiter(task, pri, w), s.tpri);
    }
  }

  lemma EnqueueAll(ptn: bv32, q: seq<Waiter<Want>>, w: Waiter<Want>, tpri: bool)
    requires Quiet(ptn, q) && Wanting(q) && !Cond(ptn, w.req) && w.req.waiptn != 0
    ensures Quiet(ptn, Enqueue(q, w, tpri)) && Wanting(Enqueue(q, w, tpri)) && |Enqueue(q, w, tpri)| == |q| + 1
  {
    hide Cond, Enqueue;
    EnqueueMembers(q, w, tpri);
    EnqueueBehind(q, w, tpri);
    var r := Enqueue(q, w, tpri);
    forall i | 0 <= i < |r| ensures !Cond(ptn, r[i].req) && r[i].req.waiptn != 0 {
      assert r[i] in r;
      assert r[i] == w || exists j :: 0 <= j < |q| && q[j] == r[i];
    }
  }

  lemma WithoutAll(ptn: bv32, q: seq<Waiter<Want>>, task: int)
    requires Quiet(ptn, q) && Wanting(q)
    ensures Quiet(ptn, Without(q, task)) && Wanting(Without(q, task))
  {
    hide Cond;
    var r := Without(q, task);
    forall i | 0 <= i < |r| ensures !Cond(ptn, r[i].req) && r[i].req.waiptn != 0 {
      assert r[i] in r && r[i] in q;
      assert exists j :: 0 <= j < |q| && q[j] == r[i];
    }
  }

  lemma RequeueInv(s: Flag, w: Waiter<Want>, pri: int)
    requires Inv(s) && w in s.waitq && s.tpri
    ensures Inv(Step(s, ChgPri(w, pri)))
  {
    hide Cond, Enqueue;
    var rest, w2 := Without(s.waitq, w.task), w.(pri := pri);
    var i :| 0 <= i < |s.waitq| && s.waitq[i] == w;
    WithoutDistinct(s.waitq, w.task);
    WithoutAll(s.ptn, s.waitq, w.task);
    EnqueueDistinct(rest, w2, true);
    EnqueueAll(s.ptn, rest, w2, true);
    if !s.wmul { assert s.waitq == [w]; }
  }

  lemma ClearInv(s: Flag, clrptn: bv32)
    requires Inv(s)
    ensures Inv(Clear(s, clrptn))
  {
    hide Cond, Within;
    AndWithin(s.ptn, clrptn);
    QuietLess(s.ptn & clrptn, s.ptn, s.waitq);
  }

  lemma EndInv(s: Flag, task: int)
    requires Inv(s)
    ensures Inv(s.(waitq := Without(s.waitq, task)))
  {
    hide Cond;
    WithoutDistinct(s.waitq, task);
    WithoutAll(s.ptn, s.waitq, task);
  }

  /** In every reachable state no waiting task's condition holds, and without TA_WMUL at
      most one task waits. */
  lemma StepInv(s: Flag, e: Event)
    requires Inv(s) && Possible(s, e)
    ensures Inv(Step(s, e))
  {
    hide Quiet, Wanting, TasksDistinct, Enqueue, Wai, Set, Clear;
    match e {
      case SetFlg(p) => SetInv(s, p);
      case ClrFlg(p) => ClearInv(s, p);
      case WaiFlg(task, pri, w, indp, poll, diswai) => WaiInv(s, task, pri, w, indp, poll, diswai);
      case EndWait(task) => EndInv(s, task);
      case ChgPri(w, pri) => if s.tpri { RequeueInv(s, w, pri); }
    }
  }

  /** A wait that ends takes that task's place away and no other; a change of priority
      moves just that task, and only with TA_TPRI. */
  lemma StepQueue(s: Flag, i: nat, pri: int)
    requires TasksDistinct(s.waitq) && i < |s.waitq|
    ensures Step(s, EndWait(s.waitq[i].task)) == s.(waitq := RemoveAt(s.waitq, i))
    ensures var r := Step(s, ChgPri(s.waitq[i], pri));
            r == s.(waitq := r.waitq) && if s.tpri then Requeued(s.waitq, i, pri, r.waitq) else r.waitq == s.waitq
  {
    hide TasksDistinct, Requeued, Set, Clear, Wai, Enqueue, RemoveAt;
    WithoutAt(s.waitq, i);
    RequeuedAt(s.waitq, i, pri);
  }

  ghost predicate PossibleRun(s: Flag, es: seq<Event>)
    decreases |es|
  {
    es != [] ==> Possible(s, es[0]) && PossibleRun(Step(s, es[0]), es[1..])
  }

  function Run(s: Flag, es: seq<Event>): Flag
    decreases |es|
  {
    if es == [] then s else Run(Step(s, es[0]), es[1..])
  }

  lemma {:induction false} RunInv(s: Flag, es: seq<Event>)
    requires Inv(s) && PossibleRun(s, es)
    ensures Inv(Run(s, es))
    decreases |es|
  {
    hide Inv, Possible, Step;
    if es != [] {
      StepInv(s, es[0]);
      RunInv(Step(s, es[0]), es[1..]);
    }
  }

  /** From creation with any pattern. */
  lemma AlwaysQuiet(wmul: bool, tpri: bool, iflgptn: bv32, es: seq<Event>)
    requires PossibleRun(Flag(wmul, tpri, iflgptn, []), es)
    ensures var s := Run(Flag(wmul, tpri, iflgptn, []), es);
            && Quiet(s.ptn, s.waitq) && TasksDistinct(s.waitq)
            && (!s.wmul ==> |s.waitq| <= 1)
  {
    hide Run, PossibleRun, Cond;
    RunInv(Flag(wmul, tpri, iflgptn, []), es);
  }

  // ---- the flag, changed in place ----

  class FlgCB {
    const wmul: bool
    const tpri: bool
    var flgptn: bv32
    var waitq: seq<Waiter<Want>>
    var given: map<int, bv32>      // what was written through p_flgptn for a released task

    function State(): Flag
      reads this
    {
      Flag(wmul, tpri, flgptn, waitq)
    }

    /** tk_cre_flg */
    constructor (wmul0: bool, tpri0: bool, iflgptn: bv32)
      ensures State() == Flag(wmul0, tpri0, iflgptn, []) && Inv(State())
    {
      wmul, tpri, flgptn, waitq, given := wmul0, tpri0, iflgptn, [], map[];
    }

    /** _tk_set_flg */
    method SetFlg(setptn: bv32) returns (ghost released: seq<Release>)
      requires Inv(State())
      modifies this
      ensures (State(), released) == Set(old(State()), setptn) && Inv(State())
      ensures Chained(old(flgptn) | setptn, released, flgptn) && Parted(old(waitq), waitq, released)
      ensures forall i :: 0 <= i < |waitq| ==> !Met(flgptn, waitq[i].req.waiptn, waitq[i].req.wfmode)
      ensures given == Given(old(given), released)
      ensures forall i :: 0 <= i < |released| ==>
                released[i].task in given && given[released[i].task] == released[i].seen
    {
      hide Inv, Pass, Given, Set, Met, Chained, Parted;
      ghost var s := State();
      SetInv(s, setptn);
      var p := flgptn | setptn;
      SetIs(s, setptn, p);
      PassChained(p, waitq);
      PassParts(p, waitq);
      flgptn := p;
      released := ReleaseReady();
      NobodyMet(State());
      OnceEach(s);
      PartedTasks(s.waitq, waitq, released);
      GivenEach(old(given), released);
    }

    lemma OnceEach(s: Flag)
      requires Inv(s)
      ensures TasksDistinct(s.waitq)
    {
    }

    lemma NobodyMet(s: Flag)
      requires Inv(s)
      ensures forall i :: 0 <= i < |s.waitq| ==> !Met(s.ptn, s.waitq[i].req.waiptn, s.waitq[i].req.wfmode)
    {
      hide Cond, Met;
      forall i | 0 <= i < |s.waitq| ensures !Met(s.ptn, s.waitq[i].req.waiptn, s.waitq[i].req.wfmode) {
        CondMeans(s.ptn, s.waitq[i].req);
      }
    }

    /** _tk_clr_flg */
    method ClrFlg(clrptn: bv32)
      requires Inv(State())
      modifies this`flgptn
      ensures State() == Clear(old(State()), clrptn) && Inv(State())
      ensures Masked(old(flgptn), clrptn, flgptn) && waitq == old(waitq)
    {
      hide Inv, Clear, Masked;
      ghost var s := State();
      ClearInv(s, clrptn);
      var p := flgptn & clrptn;
      ClearIs(s, clrptn, p);
      flgptn := p;
    }

    /** _tk_wai_flg_u: a wait that is satisfied at once reports the pattern before clearing. */
    method WaiFlg(task: int, pri: int, want: Want, indp: bool, poll: bool, diswai: bool) returns (ercd: Er, ptn: bv32)
      requires Inv(State()) && (indp || forall i :: 0 <= i < |waitq| ==> waitq[i].task != task)
      modifies this`flgptn, this`waitq
      ensures (ercd, State()) == Wai(old(State()), task, pri, want, indp, poll, diswai) && Inv(State())
      ensures ercd == if want.waiptn == 0 || want.wfmode & !(TWF_ORW | TWF_CLR | TWF_BITCLR) != 0 then E_PAR
                      else if indp then E_CTX
                      else if !wmul && old(waitq) != [] then E_OBJ
                      else if diswai then E_DISWAI
                      else if Met(old(flgptn), want.waiptn, want.wfmode) then E_OK
                      else if poll then E_TMOUT
                      else Waits
      ensures ercd == E_OK ==> ptn == old(flgptn) && LeftOver(ptn, want.waiptn, want.wfmode, flgptn)
      ensures ercd != E_OK ==> flgptn == old(flgptn)
      ensures if ercd == Waits then Placed(old(waitq), Waiter(task, pri, want), tpri, waitq) else waitq == old(waitq)
    {
      ValidMeans(want);
      hide Inv, Cond, Enqueue, Cleared, Met, LeftOver, Placed, Want.ClearsAll, Want.ClearsBits, Want.Mask,
           Want.Valid;
      ghost var s := State();
      CondMeans(flgptn, want);
      ClearedMeans(flgptn, want);
      EnqueuePlaced(waitq, Waiter(task, pri, want), tpri);
      WaiInv(s, task, pri, want, indp, poll, diswai);
      ptn := 0;
      if !want.Valid() {
        return E_PAR, ptn;
      }
      if indp {
        return E_CTX, ptn;
      }
      if !wmul && waitq != [] {
        return E_OBJ, ptn;
      }
      if diswai {
        return E_DISWAI, ptn;
      }
      if Cond(flgptn, want) {
        ptn := Take(want);
        return E_OK, ptn;
      }
      if poll {
        return E_TMOUT, ptn;
      }
      waitq := Enqueue(waitq, Waiter(task, pri, want), tpri);
      return Waits, ptn;
    }

    lemma ValidMeans(w: Want)
      ensures w.Valid() <==> !(w.waiptn == 0 || w.wfmode & !(TWF_ORW | TWF_CLR | TWF_BITCLR) != 0)
    {
    }

    method Take(want: Want) returns (ptn: bv32)
      modifies this`flgptn
      ensures ptn == old(flgptn) && flgptn == Cleared(old(flgptn), want)
    {
      hide Cleared, Want.ClearsAll, Want.ClearsBits, Want.Mask;
      ptn := flgptn;
      ClearedSteps(ptn, want);
      var p := ptn;
      if want.ClearsBits() { p := want.Mask(p); }
      if want.ClearsAll() { p := 0; }
      flgptn := p;
    }

    lemma ClearIs(s: Flag, clrptn: bv32, p: bv32)
      requires p == s.ptn & clrptn
      ensures Clear(s, clrptn) == s.(ptn := p) && Masked(s.ptn, clrptn, p)
    {
    }

    lemma ClearedSteps(p: bv32, w: Want)
      ensures Cleared(p, w) == if w.ClearsAll() then 0 else if w.ClearsBits() then w.Mask(p) else p
    {
    }

    /** The search for tasks to release. */
    method ReleaseReady() returns (ghost released: seq<Release>)
      modifies this
      ensures Outcome(flgptn, waitq, released) == Pass(old(flgptn), old(waitq))
      ensures given == Given(old(given), released)
    {
      hide Cond, Pass, Given, Sofar, RemoveAt, Cleared, Want.ClearsAll, Want.ClearsBits, Want.Mask;
      ghost var o, g0 := Pass(flgptn, waitq), given;
      released := [];
      GivenNone(g0);
      PassStart(flgptn, waitq);
      var i := 0;
      while i < |waitq|
        invariant 0 <= i <= |waitq|
        invariant o == Sofar(flgptn, waitq, i, released)
        invariant given == Given(g0, released)
        decreases |waitq| - i
      {
        var tcb := waitq[i];
        PassOne(flgptn, waitq, i, released);
        if Cond(flgptn, tcb.req) {
          ghost var r := Release(tcb.task, tcb.req, flgptn);
          GivenMore(g0, released, r);
          given := given[tcb.task := flgptn];
          released := released + [r];
          waitq := RemoveAt(waitq, i);
          if tcb.req.ClearsBits() {
            flgptn := tcb.req.Mask(flgptn);
            if flgptn == 0 {
              return;
            }
          }
          if tcb.req.ClearsAll() {
            flgptn := 0;
            return;
          }
        } else {
          i := i + 1;
        }
      }
      PassEnd(flgptn, waitq, released);
    }
  }

  lemma SetIs(s: Flag, setptn: bv32, p: bv32)
    requires p == s.ptn | setptn
    ensures var o := Pass(p, s.waitq); Set(s, setptn) == (s.(ptn := o.ptn, waitq := o.waiting), o.released)
  {
  }

  /** What the pass comes to, from waiter i on. */
  function Sofar(ptn: bv32, q: seq<Waiter<Want>>, i: nat, released: seq<Release>): Outcome
    requires i <= |q|
  {
    var o := Pass(ptn, q[i..]);
    Outcome(o.ptn, q[..i] + o.waiting, released + o.released)
  }

  lemma PassStart(ptn: bv32, q: seq<Waiter<Want>>)
    ensures Sofar(ptn, q, 0, []) == Pass(ptn, q)
  {
    assert q[0..] == q;
  }

  lemma PassEnd(ptn: bv32, q: seq<Waiter<Want>>, released: seq<Release>)
    ensures Sofar(ptn, q, |q|, released) == Outcome(ptn, q, released)
  {
    assert q[|q|..] == [];
    assert q[..|q|] + [] == q && released + [] == released;
  }

  /** One round of the loop. */
  lemma PassOne(ptn: bv32, q: seq<Waiter<Want>>, i: nat, released: seq<Release>)
    requires i < |q|
    ensures var w, r, rest := q[i].req, Release(q[i].task, q[i].req, ptn), RemoveAt(q, i);
            Sofar(ptn, q, i, released) ==
              if !Cond(ptn, w) then Sofar(ptn, q, i + 1, released)
              else if (w.ClearsBits() && w.Mask(ptn) == 0) || w.ClearsAll() then Outcome(0, rest, released + [r])
              else Sofar(if w.ClearsBits() then w.Mask(ptn) else ptn, rest, i, released + [r])
  {
    hide Cond, Want.ClearsAll, Want.ClearsBits, Want.Mask;
    var w, r, rest := q[i].req, Release(q[i].task, q[i].req, ptn), RemoveAt(q, i);
    assert q[i..][1..] == q[i + 1..] && q[i..][0] == q[i];
    assert rest == q[..i] + q[i + 1..] && rest[..i] == q[..i] && rest[i..] == q[i + 1..];
    if !Cond(ptn, w) {
      var o := Pass(ptn, q[i + 1..]);
      assert q[..i] + ([q[i]] + o.waiting) == q[..i + 1] + o.waiting;
    } else if !((w.ClearsBits() && w.Mask(ptn) == 0) || w.ClearsAll()) {
      var o := Pass(Cleared(ptn, w), q[i + 1..]);
      assert released + ([r] + o.released) == (released + [r]) + o.released;
    }
  }

  lemma GivenNone(g: map<int, bv32>)
    ensures Given(g, []) == g
  {
  }

  function Given(g: map<int, bv32>, released: seq<Release>): map<int, bv32>
    decreases |released|
  {
    if released == [] then g
    else Given(g, released[..|released| - 1])[released[|released| - 1].task := released[|released| - 1].seen]
  }

  /** Each released task got the pattern that released it. */
  lemma {:induction false} GivenEach(g: map<int, bv32>, released: seq<Release>)
    requires forall i, j :: 0 <= i < j < |released| ==> released[i].task != released[j].task
    ensures forall i :: 0 <= i < |released| ==>
              released[i].task in Given(g, released) && Given(g, released)[released[i].task] == released[i].seen
    decreases |released|
  {
    if released != [] {
      var front := released[..|released| - 1];
      GivenEach(g, front);
      forall i | 0 <= i < |released|
        ensures released[i].task in Given(g, released) && Given(g, released)[released[i].task] == released[i].seen
      {
        if i < |front| { assert front[i] == released[i]; }
      }
    }
  }

  lemma GivenMore(g: map<int, bv32>, released: seq<Release>, r: Release)
    ensures Given(g, released + [r]) == Given(g, released)[r.task := r.seen]
  {
    assert (released + [r])[..|released|] == released;
  }
}
