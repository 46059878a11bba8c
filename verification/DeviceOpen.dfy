/** Opening and closing a device (kernel/sysmgr/src/deviceio.c:131-173, 220-315,
    322-425, 536-633): critical regions under the device manager's lock, driver calls
    outside it, and the synchronisation queue that lets one task through at a time. */
module DeviceOpen {
  import opened Queue
  import opened WaitQueue

  const TD_READ: bv32 := 0x001
  const TD_WRITE: bv32 := 0x002
  const TD_UPDATE: bv32 := 0x003
  const TD_EXCL: bv32 := 0x100
  const TD_WEXCL: bv32 := 0x200
  const TD_REXCL: bv32 := 0x400

  datatype Err = OK | PAR | BUSY | NOEXS | LIMIT | BADID | OACV

  /** An open management block that is in use. resid is 0 while its open is under way,
      -1 while its close is, and the resource id of its owner in between. */
  datatype Opn = Opn(cb: int, unit: int, omode: bv32, resid: int)

  // ---- open modes ----

  predicate Reads(m: bv32) { m & TD_READ != 0 }
  predicate Writes(m: bv32) { m & TD_WRITE != 0 }
  predicate ShutsReaders(m: bv32) { m & (TD_EXCL | TD_REXCL) != 0 }
  predicate ShutsWriters(m: bv32) { m & (TD_EXCL | TD_WEXCL) != 0 }

  /** Unit 0 is the whole device. */
  predicate Overlap(u: int, v: int) { u == 0 || v == 0 || v == u }

  /** a keeps b out. */
  predicate Excludes(a: bv32, b: bv32) {
    (ShutsReaders(a) && Reads(b)) || (ShutsWriters(a) && Writes(b))
  }

  /** An open with this mode is compatible with every block in use. */
  ghost predicate Admits(openq: seq<Opn>, unit: int, omode: bv32) {
    && omode & TD_UPDATE != 0
    && forall o :: o in openq && Overlap(unit, o.unit) ==> !Excludes(omode, o.omode) && !Excludes(o.omode, omode)
  }

  /** Block o and an open of this unit with this mode do not go together: one of them
      excludes reading and the other reads, or one excludes writing and the other writes. */
  predicate Conflict(o: Opn, unit: int, omode: bv32) {
    && (unit == 0 || o.unit == 0 || o.unit == unit)
    && ModesClash(o.omode, omode)
  }

  predicate ModesClash(a: bv32, b: bv32) {
    || (a & (TD_EXCL | TD_REXCL) != 0 && b & TD_READ != 0)
    || (a & (TD_EXCL | TD_WEXCL) != 0 && b & TD_WRITE != 0)
    || (b & (TD_EXCL | TD_REXCL) != 0 && a & TD_READ != 0)
    || (b & (TD_EXCL | TD_WEXCL) != 0 && a & TD_WRITE != 0)
  }

  lemma ClashIs(a: bv32, b: bv32)
    ensures ModesClash(a, b) <==> Excludes(a, b) || Excludes(b, a)
  {
  }

  /** When an open is admitted, without the notion of one mode excluding another. */
  lemma AdmitsMeans(openq: seq<Opn>, unit: int, omode: bv32)
    ensures ChkOpenMode(openq, unit, omode) ==
              if omode & TD_UPDATE == 0 then PAR
              else if exists o :: o in openq && Conflict(o, unit, omode) then BUSY
              else OK
  {
    hide Excludes, ModesClash;
    forall o | o in openq
      ensures Conflict(o, unit, omode) <==>
                Overlap(unit, o.unit) && (Excludes(omode, o.omode) || Excludes(o.omode, omode))
    {
      ClashIs(o.omode, omode);
    }
  }

  /** How many blocks that overlap the unit have one of these mode bits. */
  function Count(openq: seq<Opn>, unit: int, mask: bv32): nat {
    if openq == [] then 0
    else Count(openq[1..], unit, mask) + if Counted(openq[0], unit, mask) then 1 else 0
  }

  predicate Counted(o: Opn, unit: int, mask: bv32) {
    Overlap(unit, o.unit) && o.omode & mask != 0
  }

  lemma {:induction false} CountPositive(openq: seq<Opn>, unit: int, mask: bv32)
    ensures Count(openq, unit, mask) > 0 <==> exists o :: o in openq && Counted(o, unit, mask)
  {
    hide Counted;
    if openq != [] {
      CountPositive(openq[1..], unit, mask);
      assert forall o :: o in openq <==> o == openq[0] || o in openq[1..];
    }
  }

  function ChkOpenMode(openq: seq<Opn>, unit: int, omode: bv32): Err {
    if omode & TD_UPDATE == 0 then PAR
    else if forall o :: o in openq && Overlap(unit, o.unit) ==> !Excludes(omode, o.omode) && !Excludes(o.omode, omode)
        then OK
    else BUSY
  }

  /** chkopen: is the unit open through another block, one being closed included? */
  predicate ChkOpen(openq: seq<Opn>, unit: int, cb: int) {
    exists o :: o in openq && o.cb != cb && o.unit == unit && o.resid != 0
  }

  // ---- the blocks in use ----

  ghost predicate NoRepeatCb(openq: seq<Opn>) {
    forall i, j :: 0 <= i < j < |openq| ==> openq[i].cb != openq[j].cb
  }

  function WithResid(openq: seq<Opn>, cb: int, resid: int): (r: seq<Opn>)
    ensures |r| == |openq|
    ensures forall i :: 0 <= i < |r| ==> r[i] == if openq[i].cb == cb then openq[i].(resid := resid) else openq[i]
  {
    seq(|openq|, i requires 0 <= i < |openq| => if openq[i].cb == cb then openq[i].(resid := resid) else openq[i])
  }

  function WithoutCb(openq: seq<Opn>, cb: int): (r: seq<Opn>)
    ensures forall o :: o in r <==> o in openq && o.cb != cb
  {
    if openq == [] then []
    else if openq[0].cb == cb then WithoutCb(openq[1..], cb)
    else [openq[0]] + WithoutCb(openq[1..], cb)
  }

  lemma {:induction false} WithoutCbOnce(openq: seq<Opn>, cb: int)
    requires NoRepeatCb(openq)
    ensures NoRepeatCb(WithoutCb(openq, cb))
  {
    if openq != [] {
      WithoutCbOnce(openq[1..], cb);
      var r := WithoutCb(openq[1..], cb);
      forall i | 0 <= i < |r| ensures r[i].cb != openq[0].cb {
        assert r[i] in r && r[i] in openq[1..];
      }
    }
  }

  lemma WithResidMembers(openq: seq<Opn>, cb: int, resid: int)
    ensures forall o :: o in openq && o.cb != cb ==> o in WithResid(openq, cb, resid)
    ensures forall o :: o in openq && o.cb == cb ==> o.(resid := resid) in WithResid(openq, cb, resid)
    ensures forall o :: o in WithResid(openq, cb, resid) ==>
              if o.cb == cb then o.resid == resid && exists p :: p in openq && o == p.(resid := resid) else o in openq
  {
    var r := WithResid(openq, cb, resid);
    forall o | o in openq ensures (if o.cb == cb then o.(resid := resid) else o) in r {
      var i :| 0 <= i < |openq| && openq[i] == o;
      assert r[i] == if o.cb == cb then o.(resid := resid) else o;
    }
  }

  lemma SameCb(openq: seq<Opn>, a: Opn, b: Opn)
    requires NoRepeatCb(openq) && a in openq && b in openq && a.cb == b.cb
    ensures a == b
  {
    var i, j :| 0 <= i < |openq| && openq[i] == a && 0 <= j < |openq| && openq[j] == b;
  }

  // ---- what the device manager's lock protects ----

  datatype Shared = Shared(openq: seq<Opn>, syncq: seq<int>, freecb: seq<int>, signalled: set<int>)

  /** _tk_opn_dev up to the first UnlockDM. */
  function BeginOpen(sh: Shared, nsub: int, task: int, unit: int, omode: bv32): (Err, Shared) {
    if unit > nsub then (NOEXS, sh)
    else
      var ercd := ChkOpenMode(sh.openq, unit, omode);
      if ercd != OK then (ercd, sh)
      else if sh.freecb == [] then (LIMIT, sh)
      else (OK, sh.(openq := sh.openq + [Opn(sh.freecb[0], unit, omode, 0)], syncq := sh.syncq + [task],
                    freecb := sh.freecb[1..]))
  }

  /** leaveSyncWait: the next in line is signalled by tk_dis_wai, which sticks. */
  function Leave(sh: Shared, task: int): Shared {
    var q := Skip(sh.syncq, task);
    sh.(syncq := q, signalled := if q == [] then sh.signalled else sh.signalled + {q[0]})
  }

  /** check_devdesc, and the mark that the close has begun. */
  function BeginClose(sh: Shared, cb: int, rid: int): (Err, Shared) {
    if !(exists o :: o in sh.openq && o.cb == cb && o.resid > 0) then (BADID, sh)
    else if !(exists o :: o in sh.openq && o.cb == cb && o.resid == rid) then (OACV, sh)
    else (OK, sh.(openq := WithResid(sh.openq, cb, -1)))
  }

  function DelOpnCB(sh: Shared, cb: int): Shared {
    sh.(openq := WithoutCb(sh.openq, cb), freecb := sh.freecb + [cb])
  }

  // ---- all tasks together ----

  /** An open or a close under way, and its block. */
  datatype Op = Op(close: bool, cb: int)

  /** Where a task is: not yet on the queue, before tk_wai_sem or in it, before
      tk_ena_wai, before looking whether to call the driver, in the driver, after it. */
  datatype Pc =
    | Idle | Start(op: Op) | Wait(op: Op) | Woken(op: Op) | Go(op: Op) | Driver(op: Op) | After(op: Op, ok: bool)

  /** The calls that the driver has completed. */
  datatype Call = Opened(unit: int) | Refused(unit: int) | Closed(unit: int)

  datatype Dev = Dev(nsub: int, openreq: bool, sh: Shared, pcs: map<int, Pc>, log: seq<Call>)

  function PcOf(s: Dev, t: int): Pc {
    if t in s.pcs then s.pcs[t] else Idle
  }

  predicate Queued(p: Pc) {
    p.Wait? || p.Woken? || p.Go? || p.Driver? || p.After?
  }

  datatype Event =
    | Open(task: int, unit: int, omode: bv32)
    | Close(task: int, cb: int, rid: int)
    | Enter(task: int)               // close_device joins the queue
    | Wake(task: int)                // tk_wai_sem returns, as waiting is disabled
    | Enable(task: int)              // tk_ena_wai
    | Check(task: int)               // is a driver call required?
    | Return(task: int, ok: bool)    // from the driver
    | Finish(task: int, rid: int)
    | Pool(freecb: seq<int>)         // other devices take and give back blocks

  predicate Enabled(s: Dev, e: Event) {
    match e
    case Open(t, unit, _) => PcOf(s, t).Idle? && unit >= 0
    case Close(t, _, rid) => PcOf(s, t).Idle? && rid > 0
    case Enter(t) => PcOf(s, t).Start?
    case Wake(t) => PcOf(s, t).Wait? && t in s.sh.signalled
    case Enable(t) => PcOf(s, t).Woken?
    case Check(t) => PcOf(s, t).Go?
    case Return(t, _) => PcOf(s, t).Driver?
    case Finish(t, rid) => PcOf(s, t).After? && rid > 0
    case Pool(f) => (forall i, j :: 0 <= i < j < |f| ==> f[i] != f[j]) && forall o :: o in s.sh.openq ==> o.cb !in f
  }

  /** The block that a task works on. */
  function UnitOf(openq: seq<Opn>, cb: int): int {
    if openq == [] then 0 else if openq[0].cb == cb then openq[0].unit else UnitOf(openq[1..], cb)
  }

  /** What the driver did when it returns. */
  function Completed(openq: seq<Opn>, op: Op, ok: bool): Call {
    var u := UnitOf(openq, op.cb);
    if op.close then Closed(u) else if ok then Opened(u) else Refused(u)
  }

  function Put(s: Dev, t: int, p: Pc): Dev {
    s.(pcs := s.pcs[t := p])
  }

  function Step(s: Dev, e: Event): Dev
    requires Enabled(s, e)
  {
    match e
    case Open(t, unit, omode) =>
      var (ercd, sh) := BeginOpen(s.sh, s.nsub, t, unit, omode);
      if ercd != OK then s
      else
        var op := Op(false, s.sh.freecb[0]);
        Put(s.(sh := sh), t, if s.sh.syncq == [] then Go(op) else Wait(op))
    case Close(t, cb, rid) =>
      var (ercd, sh) := BeginClose(s.sh, cb, rid);
      if ercd != OK then s else Put(s.(sh := sh), t, Start(Op(true, cb)))
    case Enter(t) =>
      var op := PcOf(s, t).op;
      Put(s.(sh := s.sh.(syncq := s.sh.syncq + [t])), t, if s.sh.syncq == [] then Go(op) else Wait(op))
    case Wake(t) => Put(s, t, Woken(PcOf(s, t).op))
    case Enable(t) => Put(s.(sh := s.sh.(signalled := s.sh.signalled - {t})), t, Go(PcOf(s, t).op))
    case Check(t) =>
      var op := PcOf(s, t).op;
      if ChkOpen(s.sh.openq, UnitOf(s.sh.openq, op.cb), op.cb) && !s.openreq
      then Put(s, t, After(op, true))
      else Put(s, t, Driver(op))
    case Return(t, ok) =>
      var op := PcOf(s, t).op;
      Put(s.(log := s.log + [Completed(s.sh.openq, op, ok)]), t, After(op, ok))
    case Finish(t, rid) =>
      var p := PcOf(s, t);
      var sh := if p.op.close || !p.ok then DelOpnCB(s.sh, p.op.cb)
          else s.sh.(openq := WithResid(s.sh.openq, p.op.cb, rid));
      Put(s.(sh := Leave(sh, t)), t, Idle)
    case Pool(f) => s.(sh := s.sh.(freecb := f))
  }

  // ---- the invariant ----

  /** A task's place on the queue and what it does: only the first runs, and whoever
      becomes first while it waits has its signal. */
  ghost predicate AtPlace(s: Dev, i: int)
    requires 0 <= i < |s.sh.syncq|
  {
    var t := s.sh.syncq[i];
    var p := PcOf(s, t);
    if i == 0
    then ((p.Wait? || p.Woken?) && t in s.sh.signalled) || ((p.Go? || p.Driver? || p.After?) && t !in s.sh.signalled)
    else p.Wait? && t !in s.sh.signalled
  }

  ghost predicate Line(s: Dev) {
    && Distinct(s.sh.syncq)
    && (forall i {:trigger AtPlace(s, i)} :: 0 <= i < |s.sh.syncq| ==> AtPlace(s, i))
    && (forall t {:trigger PcOf(s, t)} :: Queued(PcOf(s, t)) ==> t in s.sh.syncq)
    && (forall t :: t in s.sh.signalled ==> t in s.sh.syncq)
  }

  ghost predicate Blocks(s: Dev) {
    && NoRepeatCb(s.sh.openq)
    && Distinct(s.sh.freecb)
    && (forall o :: o in s.sh.openq ==> o.cb !in s.sh.freecb && o.resid >= -1)
  }

  /** A task that opens or closes has a block in the right state. */
  ghost predicate Owns(openq: seq<Opn>, p: Pc) {
    && (p.Start? ==> p.op.close)
    && (!p.Idle? ==> exists o :: o in openq && o.cb == p.op.cb && o.resid == if p.op.close then -1 else 0)
  }

  /** A task on the queue is opening this block. */
  ghost predicate Claimed(s: Dev, cb: int) {
    exists t :: t in s.sh.syncq && !PcOf(s, t).Idle? && PcOf(s, t).op == Op(false, cb)
  }

  ghost predicate Owners(s: Dev) {
    && (forall t {:trigger PcOf(s, t)} :: Owns(s.sh.openq, PcOf(s, t)))
    && (forall t, t2 {:trigger PcOf(s, t), PcOf(s, t2)} ::
          !PcOf(s, t).Idle? && !PcOf(s, t2).Idle? && PcOf(s, t).op.cb == PcOf(s, t2).op.cb ==> t == t2)
    && (forall o :: o in s.sh.openq && o.resid == 0 ==> Claimed(s, o.cb))
  }

  /** No block keeps another out. */
  ghost predicate Compatible(openq: seq<Opn>) {
    forall i, j :: 0 <= i < |openq| && 0 <= j < |openq| && i != j && Overlap(openq[i].unit, openq[j].unit) ==>
      !Excludes(openq[i].omode, openq[j].omode)
  }

  /** The driver has this unit open. */
  predicate IsOpen(log: seq<Call>, u: int) {
    if log == [] then false
    else
      var c := log[|log| - 1];
      if c == Opened(u) then true else if c == Closed(u) then false else IsOpen(log[..|log| - 1], u)
  }

  /** The first task on the queue is the one that runs. */
  function Running(s: Dev): Pc {
    if s.sh.syncq == [] then Idle else PcOf(s, s.sh.syncq[0])
  }

  /** Does this block count as open? The task past the driver call has already changed
      that, in effect. */
  predicate Counts(p: Pc, o: Opn) {
    if p.After? && p.op.cb == o.cb then !p.op.close && p.ok else o.resid != 0
  }

  ghost predicate UnitCounts(openq: seq<Opn>, p: Pc, u: int) {
    exists o :: o in openq && o.unit == u && Counts(p, o)
  }

  ghost predicate DriverAgrees(log: seq<Call>, openq: seq<Opn>, p: Pc) {
    && (forall u {:trigger IsOpen(log, u)} :: IsOpen(log, u) <==> UnitCounts(openq, p, u))
    && (p.Driver? ==> !ChkOpen(openq, UnitOf(openq, p.op.cb), p.op.cb))
  }

  /** Successful opens and closes of each unit take turns. */
  ghost predicate TakeTurns(log: seq<Call>) {
    forall i {:trigger log[i]} :: 0 <= i < |log| ==>
      (log[i].Opened? ==> !IsOpen(log[..i], log[i].unit)) && (log[i].Closed? ==> IsOpen(log[..i], log[i].unit))
  }

  ghost predicate Inv(s: Dev) {
    Line(s) && Blocks(s) && Owners(s) && Compatible(s.sh.openq)
  }

  /** For a driver without TDA_OPENREQ. */
  ghost predicate DriverInv(s: Dev) {
    Inv(s) && !s.openreq && DriverAgrees(s.log, s.sh.openq, Running(s)) && TakeTurns(s.log)
  }

  // ---- every step keeps the invariant ----

  lemma BeginCloseFrame(sh: Shared, cb: int, rid: int)
    requires NoRepeatCb(sh.openq) && rid > 0
    ensures var (ercd, sh2) := BeginClose(sh, cb, rid);
            && (ercd != OK ==> sh2 == sh)
            && (ercd == OK ==>
                  && sh2 == sh.(openq := WithResid(sh.openq, cb, -1))
                  && exists o :: o in sh.openq && o.cb == cb && o.resid > 0)
  {
  }

  lemma BeginOpenFrame(sh: Shared, nsub: int, task: int, unit: int, omode: bv32)
    ensures var (ercd, sh2) := BeginOpen(sh, nsub, task, unit, omode);
            && (ercd != OK ==> sh2 == sh)
            && (ercd == OK ==>
                  && sh.freecb != [] && unit <= nsub && Admits(sh.openq, unit, omode)
                  && sh2 == sh.(openq := sh.openq + [Opn(sh.freecb[0], unit, omode, 0)], syncq := sh.syncq + [task],
                                freecb := sh.freecb[1..]))
  {
    hide Excludes, Overlap;
  }

  /** Events but Finish change one task's place in the program. */
  lemma StepFrame(s: Dev, e: Event)
    requires NoRepeatCb(s.sh.openq) && Enabled(s, e) && !e.Finish? && !e.Pool?
    ensures var r := Step(s, e);
            && (forall x {:trigger PcOf(r, x)} :: x != e.task ==> PcOf(r, x) == PcOf(s, x))
            && (r.sh.syncq == s.sh.syncq || r.sh.syncq == s.sh.syncq + [e.task])
  {
    hide BeginOpen, BeginClose, ChkOpen, UnitOf;
    if e.Open? { BeginOpenFrame(s.sh, s.nsub, e.task, e.unit, e.omode); }
    if e.Close? { BeginCloseFrame(s.sh, e.cb, e.rid); }
  }

  lemma FinishFrame(s: Dev, e: Event)
    requires Enabled(s, e) && e.Finish?
    ensures var r, p := Step(s, e), PcOf(s, e.task);
            && (forall x {:trigger PcOf(r, x)} :: PcOf(r, x) == if x == e.task then Idle else PcOf(s, x))
            && r.log == s.log && r.openreq == s.openreq
            && r.sh.syncq == Skip(s.sh.syncq, e.task)
            && r.sh.signalled == s.sh.signalled + (if r.sh.syncq == [] then {} else {r.sh.syncq[0]})
            && r.sh.openq == (if p.op.close || !p.ok then WithoutCb(s.sh.openq, p.op.cb)
                              else WithResid(s.sh.openq, p.op.cb, e.rid))
            && r.sh.freecb == (if p.op.close || !p.ok then s.sh.freecb + [p.op.cb] else s.sh.freecb)
  {
    hide WithoutCb, WithResid, Skip;
  }

  lemma StepLine(s: Dev, e: Event)
    requires Inv(s) && Enabled(s, e)
    ensures Line(Step(s, e))
  {
    hide Line, Owners, Compatible, NoRepeatCb, BeginOpen, BeginClose, ChkOpen, UnitOf, Leave, WithResid, AtPlace;
    var r := Step(s, e);
    match e {
      case Finish(t, rid) => FinishLine(s, e);
      case Pool(f) => LineAside(s, r);
      case Open(t, unit, omode) =>
        BeginOpenFrame(s.sh, s.nsub, t, unit, omode);
        if r != s { LineJoin(s, r, t); }
      case Close(t, cb, rid) =>
        BeginCloseFrame(s.sh, cb, rid);
        NotInLine(s, t);
        LineAside(s, r);
      case Enter(t) => LineJoin(s, r, t);
      case _ => LineAhead(s, e);
    }
  }

  /** Nothing changes for the tasks on the queue. */
  lemma LineAside(s: Dev, r: Dev)
    requires Line(s) && r.sh.syncq == s.sh.syncq && r.sh.signalled == s.sh.signalled
    requires forall x {:trigger PcOf(r, x)} :: PcOf(r, x) == PcOf(s, x) || (x !in s.sh.syncq && !Queued(PcOf(r, x)))
    ensures Line(r)
  {
    forall i | 0 <= i < |r.sh.syncq| ensures AtPlace(r, i) { assert AtPlace(s, i); }
  }

  /** A task joins the queue: it goes on at once only if the queue was empty. */
  lemma LineJoin(s: Dev, r: Dev, t: int)
    requires Line(s) && !Queued(PcOf(s, t)) && r.sh.syncq == s.sh.syncq + [t] && r.sh.signalled == s.sh.signalled
    requires forall x {:trigger PcOf(r, x)} :: x != t ==> PcOf(r, x) == PcOf(s, x)
    requires if s.sh.syncq == [] then PcOf(r, t).Go? else PcOf(r, t).Wait?
    ensures Line(r)
  {
    NotInLine(s, t);
    forall i | 0 <= i < |r.sh.syncq| ensures AtPlace(r, i) {
      if i < |s.sh.syncq| { assert AtPlace(s, i); }
    }
  }

  /** The task at the head goes on. */
  lemma LineAhead(s: Dev, e: Event)
    requires Line(s) && Enabled(s, e) && (e.Wake? || e.Enable? || e.Check? || e.Return?)
    ensures Line(Step(s, e))
  {
    hide ChkOpen, UnitOf;
    var r, q := Step(s, e), s.sh.syncq;
    ActsAtHead(s, e);
    assert AtPlace(s, 0);
    forall i | 0 <= i < |q| ensures AtPlace(r, i) {
      assert AtPlace(s, i);
      assert i > 0 ==> q[0] != q[i];
    }
    forall x | Queued(PcOf(r, x)) ensures x in q {
      assert x != e.task ==> PcOf(r, x) == PcOf(s, x);
    }
  }

  /** A task past the driver call is at the head of the queue. */
  lemma RunsAtHead(s: Dev, t: int)
    requires Line(s) && Queued(PcOf(s, t)) && !PcOf(s, t).Wait?
    ensures s.sh.syncq != [] && s.sh.syncq[0] == t
  {
    var i :| 0 <= i < |s.sh.syncq| && s.sh.syncq[i] == t;
    assert AtPlace(s, i);
  }

  /** And so is every task that can take a step from the queue. */
  lemma ActsAtHead(s: Dev, e: Event)
    requires Line(s) && Enabled(s, e) && !e.Pool? && Queued(PcOf(s, e.task))
    ensures s.sh.syncq != [] && s.sh.syncq[0] == e.task
  {
    var i :| 0 <= i < |s.sh.syncq| && s.sh.syncq[i] == e.task;
    assert AtPlace(s, i);
  }

  lemma NotInLine(s: Dev, t: int)
    requires Line(s) && !Queued(PcOf(s, t))
    ensures t !in s.sh.syncq && t !in s.sh.signalled
  {
    forall i | 0 <= i < |s.sh.syncq| ensures s.sh.syncq[i] != t { assert AtPlace(s, i); }
  }

  lemma FinishLine(s: Dev, e: Event)
    requires Inv(s) && Enabled(s, e) && e.Finish?
    ensures Line(Step(s, e)) && s.sh.syncq != [] && s.sh.syncq[0] == e.task && Step(s, e).sh.syncq == s.sh.syncq[1..]
  {
    hide Step, Owners, Blocks, Compatible, Skip;
    var r, q, t := Step(s, e), s.sh.syncq, e.task;
    RunsAtHead(s, t);
    SkipHead(q);
    FinishFrame(s, e);
    var q2 := r.sh.syncq;
    assert AtPlace(s, 0);
    forall k | 0 <= k < |q2| ensures AtPlace(r, k) {
      assert AtPlace(s, k + 1);
      assert q2[k] == q[k + 1] && q2[k] != t;
    }
  }

  lemma StepBlocks(s: Dev, e: Event)
    requires Inv(s) && Enabled(s, e)
    ensures Blocks(Step(s, e))
  {
    hide Line, Compatible, BeginOpen, BeginClose, ChkOpen, UnitOf, Leave, Skip, WithoutCb, WithResid;
    var r := Step(s, e);
    match e {
      case Finish(t, rid) => FinishBlocks(s, e);
      case Open(t, unit, omode) => BeginOpenFrame(s.sh, s.nsub, t, unit, omode);
      case Close(t, cb, rid) =>
        BeginCloseFrame(s.sh, cb, rid);
        WithResidBlocks(s.sh.openq, s.sh.freecb, cb, -1);
      case _ =>
    }
  }

  lemma WithResidBlocks(openq: seq<Opn>, freecb: seq<int>, cb: int, resid: int)
    requires NoRepeatCb(openq) && resid >= -1 && forall o :: o in openq ==> o.cb !in freecb && o.resid >= -1
    ensures NoRepeatCb(WithResid(openq, cb, resid))
    ensures forall o :: o in WithResid(openq, cb, resid) ==> o.cb !in freecb && o.resid >= -1
  {
    WithResidMembers(openq, cb, resid);
  }

  lemma FinishBlocks(s: Dev, e: Event)
    requires Inv(s) && Enabled(s, e) && e.Finish?
    ensures Blocks(Step(s, e))
  {
    hide Step, Line, Compatible, WithResid, WithoutCb, Skip;
    FinishFrame(s, e);
    var cb := PcOf(s, e.task).op.cb;
    WithoutCbOnce(s.sh.openq, cb);
    WithResidBlocks(s.sh.openq, s.sh.freecb, cb, e.rid);
    assert Owns(s.sh.openq, PcOf(s, e.task));
    assert cb !in s.sh.freecb;
  }

  lemma StepCompatible(s: Dev, e: Event)
    requires Inv(s) && Enabled(s, e)
    ensures Compatible(Step(s, e).sh.openq)
  {
    hide Line, Owners, BeginOpen, BeginClose, ChkOpen, UnitOf, Leave, Skip, WithoutCb, WithResid, Overlap, Excludes;
    match e {
      case Finish(t, rid) =>
        FinishFrame(s, e);
        WithoutCbCompatible(s.sh.openq, PcOf(s, t).op.cb);
      case Open(t, unit, omode) =>
        BeginOpenFrame(s.sh, s.nsub, t, unit, omode);
        OverlapBoth();
      case Close(t, cb, rid) => BeginCloseFrame(s.sh, cb, rid);
      case _ =>
    }
  }

  lemma OverlapBoth()
    ensures forall u, v :: Overlap(u, v) == Overlap(v, u)
  {
  }

  lemma {:induction false} WithoutCbCompatible(openq: seq<Opn>, cb: int)
    requires Compatible(openq)
    ensures Compatible(WithoutCb(openq, cb))
  {
    hide Overlap, Excludes;
    if openq != [] {
      assert Compatible(openq[1..]) by {
        forall i, j | 0 <= i < |openq| - 1 && 0 <= j < |openq| - 1 && i != j
            && Overlap(openq[1..][i].unit, openq[1..][j].unit)
          ensures !Excludes(openq[1..][i].omode, openq[1..][j].omode)
        {
          assert openq[1..][i] == openq[i + 1] && openq[1..][j] == openq[j + 1];
        }
      }
      WithoutCbCompatible(openq[1..], cb);
      var r, w := WithoutCb(openq, cb), WithoutCb(openq[1..], cb);
      if openq[0].cb != cb {
        forall i, j | 0 <= i < |r| && 0 <= j < |r| && i != j && Overlap(r[i].unit, r[j].unit)
          ensures !Excludes(r[i].omode, r[j].omode)
        {
          assert i > 0 ==> r[i] == w[i - 1] && r[i] in openq[1..];
          assert j > 0 ==> r[j] == w[j - 1] && r[j] in openq[1..];
          assert i > 0 ==> exists k :: 0 < k < |openq| && openq[k] == r[i];
          assert j > 0 ==> exists k :: 0 < k < |openq| && openq[k] == r[j];
        }
      }
    }
  }

  lemma StepOwners(s: Dev, e: Event)
    requires Inv(s) && Enabled(s, e)
    ensures Owners(Step(s, e))
  {
    hide Step, Line, Blocks, Compatible, Owners, StepOnly;
    match e {
      case Finish(t, rid) => FinishOwners(s, e);
      case Open(t, unit, omode) => OpenOwners(s, e);
      case Close(t, cb, rid) => CloseOwners(s, e);
      case Pool(f) => PoolOwners(s, e);
      case _ =>
        NoBlockChange(s, e);
        OnlyOwners(s, Step(s, e), e.task);
    }
  }

  lemma PoolOwners(s: Dev, e: Event)
    requires Inv(s) && Enabled(s, e) && e.Pool?
    ensures Owners(Step(s, e))
  {
    var r := Step(s, e);
    assert forall x {:trigger PcOf(r, x)} :: PcOf(r, x) == PcOf(s, x);
    forall o | o in r.sh.openq && o.resid == 0 ensures Claimed(r, o.cb) {
      var t :| t in s.sh.syncq && !PcOf(s, t).Idle? && PcOf(s, t).op == Op(false, o.cb);
      assert PcOf(r, t) == PcOf(s, t);
    }
  }

  /** Task t goes on with what it does; the blocks stay. */
  ghost predicate StepOnly(s: Dev, r: Dev, t: int) {
    && r.sh.openq == s.sh.openq && (forall x :: x in s.sh.syncq ==> x in r.sh.syncq)
    && (forall x {:trigger PcOf(r, x)} :: x != t ==> PcOf(r, x) == PcOf(s, x))
    && !PcOf(s, t).Idle? && !PcOf(r, t).Idle? && !PcOf(r, t).Start? && PcOf(r, t).op == PcOf(s, t).op
  }

  lemma NoBlockChange(s: Dev, e: Event)
    requires Inv(s) && Enabled(s, e) && !e.Finish? && !e.Open? && !e.Close? && !e.Pool?
    ensures StepOnly(s, Step(s, e), e.task)
  {
    hide Line, Owners, Compatible, ChkOpen, UnitOf;
  }

  lemma OnlyOwners(s: Dev, r: Dev, t: int)
    requires Owners(s) && StepOnly(s, r, t)
    ensures Owners(r)
  {
    forall x ensures Owns(r.sh.openq, PcOf(r, x)) {
      assert Owns(s.sh.openq, PcOf(s, x));
    }
    forall o | o in r.sh.openq && o.resid == 0 ensures Claimed(r, o.cb) {
      var x :| x in s.sh.syncq && !PcOf(s, x).Idle? && PcOf(s, x).op == Op(false, o.cb);
      assert PcOf(r, x).op == PcOf(s, x).op;
    }
  }

  lemma OpenOwners(s: Dev, e: Event)
    requires Inv(s) && Enabled(s, e) && e.Open?
    ensures Owners(Step(s, e))
  {
    hide Line, Compatible, BeginOpen, ChkOpen, UnitOf, Admits, NoRepeatCb;
    var r := Step(s, e);
    StepFrame(s, e);
    BeginOpenFrame(s.sh, s.nsub, e.task, e.unit, e.omode);
    if r != s {
      var n := Opn(s.sh.freecb[0], e.unit, e.omode, 0);
      assert r.sh.openq == s.sh.openq + [n] && n in r.sh.openq && r.sh.syncq == s.sh.syncq + [e.task];
      forall x ensures Owns(r.sh.openq, PcOf(r, x)) {
        assert x != e.task ==> Owns(s.sh.openq, PcOf(s, x));
      }
      forall x | !PcOf(s, x).Idle? ensures PcOf(s, x).op.cb != n.cb {
        assert Owns(s.sh.openq, PcOf(s, x));
      }
      forall o | o in r.sh.openq && o.resid == 0 ensures Claimed(r, o.cb) {
        if o == n {
          assert e.task in r.sh.syncq && PcOf(r, e.task).op == Op(false, n.cb);
        } else {
          var t :| t in s.sh.syncq && !PcOf(s, t).Idle? && PcOf(s, t).op == Op(false, o.cb);
          assert PcOf(r, t) == PcOf(s, t);
        }
      }
    }
  }

  /** A block that is open belongs to no open or close under way. */
  lemma OpenIsFree(s: Dev, o: Opn, x: int)
    requires Owners(s) && NoRepeatCb(s.sh.openq) && o in s.sh.openq && o.resid > 0 && !PcOf(s, x).Idle?
    ensures PcOf(s, x).op.cb != o.cb
  {
    hide NoRepeatCb;
    assert Owns(s.sh.openq, PcOf(s, x));
    var p :| p in s.sh.openq && p.cb == PcOf(s, x).op.cb && p.resid <= 0;
    if p.cb == o.cb { SameCb(s.sh.openq, o, p); }
  }

  lemma CloseOwners(s: Dev, e: Event)
    requires Inv(s) && Enabled(s, e) && e.Close?
    ensures Owners(Step(s, e))
  {
    hide BeginClose, WithResid, Line, Compatible, NoRepeatCb;
    var r := Step(s, e);
    StepFrame(s, e);
    BeginCloseFrame(s.sh, e.cb, e.rid);
    if r != s {
      CloseOwned(s, r, e.task, e.cb);
    }
  }

  lemma CloseOwned(s: Dev, r: Dev, t: int, cb: int)
    requires Owners(s) && NoRepeatCb(s.sh.openq) && PcOf(s, t).Idle?
    requires r.sh == s.sh.(openq := WithResid(s.sh.openq, cb, -1)) && PcOf(r, t) == Start(Op(true, cb))
    requires exists o :: o in s.sh.openq && o.cb == cb && o.resid > 0
    requires forall x {:trigger PcOf(r, x)} :: x != t ==> PcOf(r, x) == PcOf(s, x)
    ensures Owners(r)
  {
    hide WithResid, NoRepeatCb;
    var o :| o in s.sh.openq && o.cb == cb && o.resid > 0;
    WithResidMembers(s.sh.openq, cb, -1);
    assert o.(resid := -1) in r.sh.openq;
    forall x | !PcOf(s, x).Idle? ensures PcOf(s, x).op.cb != cb { OpenIsFree(s, o, x); }
    forall x ensures Owns(r.sh.openq, PcOf(r, x)) {
      assert x != t ==> Owns(s.sh.openq, PcOf(s, x));
    }
    forall o | o in r.sh.openq && o.resid == 0 ensures Claimed(r, o.cb) {
      assert o in s.sh.openq;
      var x :| x in s.sh.syncq && !PcOf(s, x).Idle? && PcOf(s, x).op == Op(false, o.cb);
      assert PcOf(r, x) == PcOf(s, x);
    }
  }

  lemma FinishOwners(s: Dev, e: Event)
    requires Inv(s) && Enabled(s, e) && e.Finish?
    ensures Owners(Step(s, e))
  {
    hide Step, Compatible, WithResid, WithoutCb, Skip, Distinct, AtPlace;
    var r, cb := Step(s, e), PcOf(s, e.task).op.cb;
    FinishFrame(s, e);
    WithResidMembers(s.sh.openq, cb, e.rid);
    forall x ensures Owns(r.sh.openq, PcOf(r, x)) {
      if x != e.task { assert Owns(s.sh.openq, PcOf(s, x)); }
    }
    forall o | o in r.sh.openq && o.resid == 0 ensures Claimed(r, o.cb) {
      assert o in s.sh.openq && o.cb != cb;
      var t :| t in s.sh.syncq && !PcOf(s, t).Idle? && PcOf(s, t).op == Op(false, o.cb);
      assert t != e.task && t in r.sh.syncq && PcOf(r, t) == PcOf(s, t);
    }
  }

  lemma StepInv(s: Dev, e: Event)
    requires Inv(s) && Enabled(s, e)
    ensures Inv(Step(s, e))
  {
    hide Step, Line, Blocks, Owners, Compatible;
    StepLine(s, e);
    StepBlocks(s, e);
    StepOwners(s, e);
    StepCompatible(s, e);
  }

  // ---- the driver's view ----

  lemma IsOpenMore(log: seq<Call>, c: Call, u: int)
    ensures IsOpen(log + [c], u) <==> if c == Opened(u) then true else if c == Closed(u) then false else IsOpen(log, u)
  {
    assert (log + [c])[..|log|] == log;
  }

  lemma TurnsMore(log: seq<Call>, c: Call)
    requires TakeTurns(log)
    requires (c.Opened? ==> !IsOpen(log, c.unit)) && (c.Closed? ==> IsOpen(log, c.unit))
    ensures TakeTurns(log + [c])
  {
    hide IsOpen;
    var r := log + [c];
    forall i | 0 <= i < |r|
      ensures (r[i].Opened? ==> !IsOpen(r[..i], r[i].unit)) && (r[i].Closed? ==> IsOpen(r[..i], r[i].unit))
    {
      assert r[..i] == log[..i];
      assert i < |log| ==> r[i] == log[i];
      assert log[..|log|] == log;
    }
  }

  lemma {:induction false} UnitIs(openq: seq<Opn>, o: Opn)
    requires NoRepeatCb(openq) && o in openq
    ensures UnitOf(openq, o.cb) == o.unit
  {
    if openq[0] == o {
    } else {
      assert o in openq[1..];
      var i :| 0 < i < |openq| && openq[i] == o;
      assert openq[0].cb != openq[i].cb;
      UnitIs(openq[1..], o);
    }
  }

  /** The block of the running task. */
  lemma OwnBlock(openq: seq<Opn>, p: Pc) returns (o: Opn)
    requires NoRepeatCb(openq) && Owns(openq, p) && !p.Idle?
    ensures o in openq && o.cb == p.op.cb && o.resid == (if p.op.close then -1 else 0)
    ensures UnitOf(openq, p.op.cb) == o.unit
    ensures forall x :: x in openq && x.cb == o.cb ==> x == o
  {
    hide NoRepeatCb, UnitOf;
    o :| o in openq && o.cb == p.op.cb && o.resid == if p.op.close then -1 else 0;
    UnitIs(openq, o);
    forall x | x in openq && x.cb == o.cb ensures x == o { SameCb(openq, o, x); }
  }

  /** Before the driver call nothing has changed yet. */
  lemma AgreesBefore(log: seq<Call>, openq: seq<Opn>, p: Pc, p2: Pc)
    requires DriverAgrees(log, openq, p) && !p.After? && !p2.After? && !p2.Driver?
    ensures DriverAgrees(log, openq, p2)
  {
    forall u ensures UnitCounts(openq, p2, u) <==> UnitCounts(openq, p, u) {
      assert forall o :: Counts(p2, o) == Counts(p, o);
    }
  }

  /** Skipping the driver call changes nothing: another block keeps the unit open. */
  lemma AgreesSkip(log: seq<Call>, openq: seq<Opn>, op: Op)
    requires NoRepeatCb(openq) && Owns(openq, Go(op)) && DriverAgrees(log, openq, Go(op))
    requires ChkOpen(openq, UnitOf(openq, op.cb), op.cb)
    ensures DriverAgrees(log, openq, After(op, true))
  {
    hide NoRepeatCb, UnitOf;
    var o := OwnBlock(openq, Go(op));
    var b :| b in openq && b.cb != op.cb && b.unit == UnitOf(openq, op.cb) && b.resid != 0;
    forall u ensures UnitCounts(openq, After(op, true), u) <==> UnitCounts(openq, Go(op), u) {
      if u == o.unit {
        assert Counts(Go(op), b) && Counts(After(op, true), b);
      } else {
        assert forall x :: x in openq && x.unit == u ==> x.cb != op.cb;
        assert forall x :: x in openq && x.unit == u ==> Counts(Go(op), x) == Counts(After(op, true), x);
      }
    }
  }

  /** The driver call completes, and the block counts or ceases to. */
  lemma AgreesReturn(log: seq<Call>, openq: seq<Opn>, op: Op, ok: bool)
    requires NoRepeatCb(openq) && Owns(openq, Driver(op)) && DriverAgrees(log, openq, Driver(op)) && TakeTurns(log)
    ensures DriverAgrees(log + [Completed(openq, op, ok)], openq, After(op, ok))
    ensures TakeTurns(log + [Completed(openq, op, ok)])
  {
    hide NoRepeatCb, UnitOf, IsOpen, TakeTurns;
    var o := OwnBlock(openq, Driver(op));
    var c := Completed(openq, op, ok);
    assert Counts(Driver(op), o) == op.close;
    assert forall x :: x in openq && x.unit == o.unit && x.cb != op.cb ==> x.resid == 0;
    assert UnitCounts(openq, Driver(op), o.unit) == op.close;
    assert Counts(After(op, ok), o) == (!op.close && ok);
    forall u ensures IsOpen(log + [c], u) <==> UnitCounts(openq, After(op, ok), u) {
      IsOpenMore(log, c, u);
      if u == o.unit {
        assert UnitCounts(openq, After(op, ok), u) == (!op.close && ok);
      } else {
        assert forall x :: x in openq && x.unit == u ==> Counts(Driver(op), x) == Counts(After(op, ok), x);
      }
    }
    assert IsOpen(log, o.unit) == op.close;
    TurnsMore(log, c);
  }

  /** A block whose open has just begun does not count. */
  lemma AgreesNew(log: seq<Call>, openq: seq<Opn>, p: Pc, n: Opn)
    requires NoRepeatCb(openq) && Owns(openq, p) && DriverAgrees(log, openq, p) && n.resid == 0
    requires forall o :: o in openq ==> o.cb != n.cb
    ensures DriverAgrees(log, openq + [n], p)
  {
    hide NoRepeatCb, UnitOf;
    var r := openq + [n];
    assert forall o :: o in r <==> o in openq || o == n;
    assert !p.Idle? ==> p.op.cb != n.cb;
    forall u ensures UnitCounts(r, p, u) <==> UnitCounts(openq, p, u) {
    }
    if p.Driver? {
      var o := OwnBlock(openq, p);
      NewOnce(openq, n);
      UnitIs(r, o);
    }
  }

  lemma NewOnce(openq: seq<Opn>, n: Opn)
    requires NoRepeatCb(openq) && forall o :: o in openq ==> o.cb != n.cb
    ensures NoRepeatCb(openq + [n])
  {
  }

  /** A block that another task begins to close still counts. */
  lemma AgreesClosing(log: seq<Call>, openq: seq<Opn>, p: Pc, b: Opn)
    requires NoRepeatCb(openq) && Owns(openq, p) && DriverAgrees(log, openq, p)
    requires b in openq && b.resid > 0 && (!p.Idle? ==> p.op.cb != b.cb)
    ensures DriverAgrees(log, WithResid(openq, b.cb, -1), p)
  {
    hide UnitOf;
    var r := WithResid(openq, b.cb, -1);
    WithResidMembers(openq, b.cb, -1);
    assert forall x :: x in openq && x.cb == b.cb ==> x == b by {
      forall x | x in openq && x.cb == b.cb ensures x == b { SameCb(openq, b, x); }
    }
    assert NoRepeatCb(r);
    hide NoRepeatCb, WithResid;
    forall u ensures UnitCounts(r, p, u) <==> UnitCounts(openq, p, u) {
      if UnitCounts(openq, p, u) {
        var o :| o in openq && o.unit == u && Counts(p, o);
        assert Counts(p, if o.cb == b.cb then o.(resid := -1) else o);
      }
      if UnitCounts(r, p, u) {
        var o :| o in r && o.unit == u && Counts(p, o);
        assert Counts(p, if o.cb == b.cb then b else o);
      }
    }
    if p.Driver? {
      var o := OwnBlock(openq, p);
      UnitIs(r, o);
    }
  }

  /** The running task leaves: its block counts as it did. */
  lemma AgreesFinish(log: seq<Call>, openq: seq<Opn>, op: Op, ok: bool, rid: int, p2: Pc)
    requires NoRepeatCb(openq) && Owns(openq, After(op, ok)) && DriverAgrees(log, openq, After(op, ok)) && rid > 0
    requires !p2.After? && !p2.Driver?
    ensures DriverAgrees(log, if op.close || !ok then WithoutCb(openq, op.cb) else WithResid(openq, op.cb, rid), p2)
  {
    hide NoRepeatCb, UnitOf, WithResid, WithoutCb;
    var p := After(op, ok);
    var o := OwnBlock(openq, p);
    var r := if op.close || !ok then WithoutCb(openq, op.cb) else WithResid(openq, op.cb, rid);
    WithResidMembers(openq, op.cb, rid);
    forall u ensures UnitCounts(r, p2, u) <==> UnitCounts(openq, p, u) {
      if UnitCounts(openq, p, u) {
        var x :| x in openq && x.unit == u && Counts(p, x);
        assert Counts(p2, if x.cb == op.cb then x.(resid := rid) else x);
      }
      if UnitCounts(r, p2, u) {
        var x :| x in r && x.unit == u && Counts(p2, x);
        assert Counts(p, if x.cb == op.cb then o else x);
      }
    }
  }

  lemma StepDriver(s: Dev, e: Event)
    requires DriverInv(s) && Enabled(s, e)
    ensures var r := Step(s, e); DriverAgrees(r.log, r.sh.openq, Running(r)) && TakeTurns(r.log) && !r.openreq
  {
    hide BeginOpen, BeginClose, DriverAgrees, TakeTurns, UnitOf, Completed, WithResid, WithoutCb, Skip, Compatible,
         NoRepeatCb, Owns, ChkOpen;
    var r, p := Step(s, e), Running(s);
    assert Owns(s.sh.openq, p) by { RunningOwns(s); }
    match e {
      case Finish(t, rid) =>
        FinishFrame(s, e);
        FinishLine(s, e);
        NextWaits(s, e);
        AgreesFinish(s.log, s.sh.openq, p.op, p.ok, rid, Running(r));
      case Open(t, unit, omode) =>
        BeginOpenFrame(s.sh, s.nsub, t, unit, omode);
        if r != s {
          NotInLine(s, t);
          assert s.sh.syncq != [] ==> r.sh.syncq[0] == s.sh.syncq[0];
          AgreesNew(s.log, s.sh.openq, p, Opn(s.sh.freecb[0], unit, omode, 0));
          AgreesBeforeIf(s.log, r.sh.openq, p, Running(r));
        }
      case Close(t, cb, rid) =>
        BeginCloseFrame(s.sh, cb, rid);
        NotInLine(s, t);
        if r != s {
          var b :| b in s.sh.openq && b.cb == cb && b.resid > 0;
          if !p.Idle? { OpenIsFree(s, b, s.sh.syncq[0]); }
          AgreesClosing(s.log, s.sh.openq, p, b);
        }
      case Enter(t) =>
        NotInLine(s, t);
        assert s.sh.syncq != [] ==> r.sh.syncq[0] == s.sh.syncq[0];
        AgreesBeforeIf(s.log, s.sh.openq, p, Running(r));
      case Wake(t) => ActsAtHead(s, e); AgreesBefore(s.log, s.sh.openq, p, Running(r));
      case Enable(t) => ActsAtHead(s, e); AgreesBefore(s.log, s.sh.openq, p, Running(r));
      case Check(t) => ActsAtHead(s, e); CheckDriver(s, e);
      case Return(t, ok) => ActsAtHead(s, e); AgreesReturn(s.log, s.sh.openq, p.op, ok);
      case Pool(f) =>
        assert Running(r) == p && r.sh.openq == s.sh.openq;
    }
  }

  lemma AgreesBeforeIf(log: seq<Call>, openq: seq<Opn>, p: Pc, p2: Pc)
    requires DriverAgrees(log, openq, p) && (p2 == p || (p.Idle? && p2.Go?))
    ensures DriverAgrees(log, openq, p2)
  {
    hide DriverAgrees;
    if p2 != p { AgreesBefore(log, openq, p, p2); }
  }

  lemma RunningOwns(s: Dev)
    requires Owners(s)
    ensures Owns(s.sh.openq, Running(s))
  {
    if s.sh.syncq != [] { assert Owns(s.sh.openq, PcOf(s, s.sh.syncq[0])); }
  }

  /** Whoever is next was waiting. */
  lemma NextWaits(s: Dev, e: Event)
    requires Inv(s) && Enabled(s, e) && e.Finish?
    ensures Running(Step(s, e)).Wait? || Running(Step(s, e)).Idle?
  {
    hide Step, Owners, Blocks, Compatible;
    FinishLine(s, e);
    FinishFrame(s, e);
    if |s.sh.syncq| > 1 {
      assert AtPlace(s, 1);
      assert s.sh.syncq[0] != s.sh.syncq[1];
    }
  }

  lemma CheckDriver(s: Dev, e: Event)
    requires DriverInv(s) && Enabled(s, e) && e.Check? && s.sh.syncq != [] && s.sh.syncq[0] == e.task
    ensures var r := Step(s, e); DriverAgrees(r.log, r.sh.openq, Running(r))
  {
    hide UnitOf, Compatible, Line, Owns;
    var p, op := Running(s), Running(s).op;
    assert Owns(s.sh.openq, p) by { RunningOwns(s); }
    if ChkOpen(s.sh.openq, UnitOf(s.sh.openq, op.cb), op.cb) {
      AgreesSkip(s.log, s.sh.openq, op);
    } else {
      assert forall u :: UnitCounts(s.sh.openq, Driver(op), u) <==> UnitCounts(s.sh.openq, p, u) by {
        assert forall o :: Counts(Driver(op), o) == Counts(p, o);
      }
    }
  }

  /** The task at the head calls the driver unless TDA_OPENREQ is absent and another block
      has the unit of its own open, or is closing it. */
  lemma CheckCalls(s: Dev, t: int, o: Opn)
    requires Inv(s) && PcOf(s, t).Go? && o in s.sh.openq && o.cb == PcOf(s, t).op.cb
    ensures var r := Step(s, Check(t));
            && r.sh == s.sh && r.log == s.log
            && PcOf(r, t) ==
                 if s.openreq || forall b :: b in s.sh.openq && b != o && b.unit == o.unit ==> b.resid == 0
                 then Driver(PcOf(s, t).op) else After(PcOf(s, t).op, true)
  {
    hide Line, Owners, Compatible, NoRepeatCb;
    UnitIs(s.sh.openq, o);
    forall b | b in s.sh.openq ensures b.cb != o.cb <==> b != o {
      if b.cb == o.cb { SameCb(s.sh.openq, b, o); }
    }
  }

  // ---- whole runs ----

  function Registered(nsub: int, openreq: bool, freecb: seq<int>): Dev {
    Dev(nsub, openreq, Shared([], [], freecb, {}), map[], [])
  }

  ghost predicate Feasible(s: Dev, es: seq<Event>)
    decreases |es|
  {
    es != [] ==> Enabled(s, es[0]) && Feasible(Step(s, es[0]), es[1..])
  }

  function Run(s: Dev, es: seq<Event>): Dev
    requires Feasible(s, es)
    decreases |es|
  {
    if es == [] then s else Run(Step(s, es[0]), es[1..])
  }

  lemma RegisteredInv(nsub: int, openreq: bool, freecb: seq<int>)
    requires Distinct(freecb)
    ensures Inv(Registered(nsub, openreq, freecb))
    ensures !openreq ==> DriverInv(Registered(nsub, openreq, freecb))
  {
  }

  lemma {:induction false} RunInv(s: Dev, es: seq<Event>)
    requires Inv(s) && Feasible(s, es)
    ensures Inv(Run(s, es))
    ensures DriverInv(s) ==> DriverInv(Run(s, es))
    decreases |es|
  {
    hide Inv, Enabled, Step, DriverAgrees, TakeTurns;
    if es != [] {
      StepInv(s, es[0]);
      if DriverInv(s) { StepDriver(s, es[0]); }
      RunInv(Step(s, es[0]), es[1..]);
    }
  }

  /** For any interleaving: at most one task is in the driver, and it is the first on
      the queue. */
  lemma DriverCallsNeverOverlap(nsub: int, openreq: bool, freecb: seq<int>, es: seq<Event>, t: int, t2: int)
    requires Distinct(freecb)
    requires Feasible(Registered(nsub, openreq, freecb), es)
    ensures var s := Run(Registered(nsub, openreq, freecb), es);
            PcOf(s, t).Driver? && PcOf(s, t2).Driver? ==> t == t2
  {
    hide Feasible, Run, Owners, Blocks, Compatible;
    RegisteredInv(nsub, openreq, freecb);
    RunInv(Registered(nsub, openreq, freecb), es);
    var s := Run(Registered(nsub, openreq, freecb), es);
    if PcOf(s, t).Driver? { RunsAtHead(s, t); }
    if PcOf(s, t2).Driver? { RunsAtHead(s, t2); }
  }

  /** Per unit, successful opens and closes alternate; and whenever nobody is on the
      queue, the driver is open on exactly the units that have a block. */
  lemma DriverAlternates(nsub: int, freecb: seq<int>, es: seq<Event>)
    requires Distinct(freecb)
    requires Feasible(Registered(nsub, false, freecb), es)
    ensures var s := Run(Registered(nsub, false, freecb), es);
            && TakeTurns(s.log)
            && (s.sh.syncq == [] ==> forall u :: IsOpen(s.log, u) <==> exists o :: o in s.sh.openq && o.unit == u)
  {
    hide Feasible, Run, Line, Blocks, Compatible;
    RegisteredInv(nsub, false, freecb);
    RunInv(Registered(nsub, false, freecb), es);
    var s := Run(Registered(nsub, false, freecb), es);
    if s.sh.syncq == [] {
      forall u ensures IsOpen(s.log, u) <==> exists o :: o in s.sh.openq && o.unit == u {
        forall o | o in s.sh.openq ensures Counts(Running(s), o) {
          assert o.resid == 0 ==> Claimed(s, o.cb);
        }
        assert IsOpen(s.log, u) <==> UnitCounts(s.sh.openq, Running(s), u);
      }
    }
  }

  /** Two blocks on overlapping units, opens and closes under way included: if one
      excludes reading, the other does not read, and likewise for writing. */
  lemma ExclusionHolds(nsub: int, openreq: bool, freecb: seq<int>, es: seq<Event>, a: Opn, b: Opn)
    requires Distinct(freecb)
    requires Feasible(Registered(nsub, openreq, freecb), es)
    requires var s := Run(Registered(nsub, openreq, freecb), es);
             a in s.sh.openq && b in s.sh.openq && a.cb != b.cb && Overlap(a.unit, b.unit)
    ensures a.omode & (TD_EXCL | TD_REXCL) != 0 ==> b.omode & TD_READ == 0
    ensures a.omode & (TD_EXCL | TD_WEXCL) != 0 ==> b.omode & TD_WRITE == 0
  {
    hide Feasible, Run, Line, Owners, Blocks, Overlap, Excludes, Compatible;
    RegisteredInv(nsub, openreq, freecb);
    RunInv(Registered(nsub, openreq, freecb), es);
    CompatiblePair(Run(Registered(nsub, openreq, freecb), es).sh.openq, a, b);
    ExcludesMeans(a.omode, b.omode);
  }

  lemma CompatiblePair(openq: seq<Opn>, a: Opn, b: Opn)
    requires Compatible(openq) && a in openq && b in openq && a.cb != b.cb && Overlap(a.unit, b.unit)
    ensures !Excludes(a.omode, b.omode)
  {
    hide Overlap, Excludes;
    var i, j :| 0 <= i < |openq| && openq[i] == a && 0 <= j < |openq| && openq[j] == b;
    assert i != j;
  }

  lemma ExcludesMeans(a: bv32, b: bv32)
    ensures !Excludes(a, b) <==>
              && (a & (TD_EXCL | TD_REXCL) != 0 ==> b & TD_READ == 0)
              && (a & (TD_EXCL | TD_WEXCL) != 0 ==> b & TD_WRITE == 0)
  {
  }

  /** The step that the first task on the queue takes next. */
  function Next(s: Dev, ok: bool, rid: int): Event
    requires s.sh.syncq != []
  {
    var t := s.sh.syncq[0];
    match PcOf(s, t)
    case Wait(_) => Wake(t)
    case Woken(_) => Enable(t)
    case Go(_) => Check(t)
    case Driver(_) => Return(t, ok)
    case _ => Finish(t, rid)
  }

  function Left(p: Pc): nat {
    match p
    case Wait(_) => 5
    case Woken(_) => 4
    case Go(_) => 3
    case Driver(_) => 2
    case After(_, _) => 1
    case _ => 0
  }

  function StepsLeft(s: Dev): nat {
    if s.sh.syncq == [] then 0 else 6 * (|s.sh.syncq| - 1) + Left(Running(s))
  }

  /** No wakeup is lost: the first on the queue can always go on, and gets nearer to leaving. */
  lemma HeadGoesOn(s: Dev, ok: bool, rid: int)
    requires Inv(s) && s.sh.syncq != [] && rid > 0
    ensures Enabled(s, Next(s, ok, rid)) && StepsLeft(Step(s, Next(s, ok, rid))) < StepsLeft(s)
  {
    hide Owners, Blocks, Compatible, UnitOf, ChkOpen, WithResid, WithoutCb, Leave;
    assert AtPlace(s, 0);
    var e := Next(s, ok, rid);
    if e.Finish? {
      FinishLine(s, e);
      NextWaits(s, e);
    }
  }

  /** The driver answers as this function of the calls it has completed says. */
  ghost predicate Answers(s: Dev, es: seq<Event>, answer: seq<Call> -> bool)
    requires Feasible(s, es)
    decreases |es|
  {
    es != [] ==>
      && (es[0].Return? ==> es[0].ok == answer(s.log))
      && Answers(Step(s, es[0]), es[1..], answer)
  }

  /** So the queue empties, whatever the driver answers to each of its calls. */
  lemma {:induction false} QueueEmpties(s: Dev, answer: seq<Call> -> bool, rid: int) returns (es: seq<Event>)
    requires Inv(s) && rid > 0
    ensures Feasible(s, es) && Run(s, es).sh.syncq == [] && |es| <= StepsLeft(s)
    ensures Answers(s, es, answer)
    decreases StepsLeft(s)
  {
    hide Inv, Enabled, Step, StepsLeft;
    if s.sh.syncq == [] {
      return [];
    }
    var e := Next(s, answer(s.log), rid);
    HeadGoesOn(s, answer(s.log), rid);
    StepInv(s, e);
    var rest := QueueEmpties(Step(s, e), answer, rid);
    es := [e] + rest;
    assert es[1..] == rest;
  }

  // ---- the device's control block, changed in place ----

  /** The fields of an OpnCB, which is named by the address of its QUEUE. */
  datatype OpnCB = OpnCB(unitno: int, omode: bv32, resid: int)

  function FieldsOf(cbs: map<int, OpnCB>, x: int): OpnCB {
    if x in cbs then cbs[x] else OpnCB(0, 0, 0)
  }

  function BlockOf(cbs: map<int, OpnCB>, x: int): Opn {
    Opn(x, FieldsOf(cbs, x).unitno, FieldsOf(cbs, x).omode, FieldsOf(cbs, x).resid)
  }

  function BlocksOf(cbs: map<int, OpnCB>, opens: seq<int>): (r: seq<Opn>)
    ensures |r| == |opens| && forall i :: 0 <= i < |r| ==> r[i] == BlockOf(cbs, opens[i])
  {
    seq(|opens|, i requires 0 <= i < |opens| => BlockOf(cbs, opens[i]))
  }

  function TaskOf(tskid: map<int, int>, x: int): int {
    if x in tskid then tskid[x] else 0
  }

  function TasksOf(tskid: map<int, int>, syncs: seq<int>): (r: seq<int>)
    ensures |r| == |syncs| && forall i :: 0 <= i < |r| ==> r[i] == TaskOf(tskid, syncs[i])
  {
    seq(|syncs|, i requires 0 <= i < |syncs| => TaskOf(tskid, syncs[i]))
  }

  ghost predicate Disjoint(a: seq<int>, b: seq<int>) {
    forall x :: x in a ==> x !in b
  }

  /** Three rings with no node in common, and no task twice on the last. */
  ghost predicate Rings(m: Memory, openq: seq<int>, freeq: seq<int>, syncq: seq<int>) {
    && Ring(m, openq) && Ring(m, freeq) && Ring(m, syncq)
    && Disjoint(openq, freeq) && Disjoint(openq, syncq) && Disjoint(freeq, syncq)
  }

  lemma RingsParts(m: Memory, s: seq<int>, a: seq<int>, b: seq<int>)
    requires Rings(m, s, a, b)
    ensures Ring(m, s) && Ring(m, a) && Ring(m, b) && Rings(m, a, s, b) && Rings(m, b, a, s)
    ensures Disjoint(s, a) && Disjoint(s, b) && Distinct(s) && Distinct(a) && Distinct(b)
  {
  }

  /** Rings beside one that changes. */
  lemma Untouched(m: Memory, m2: Memory, s: seq<int>, a: seq<int>, b: seq<int>)
    requires Rings(m, s, a, b) && SameOutside(m, m2, ToSet(s)) && Ring(m2, s)
    ensures Rings(m2, s, a, b)
  {
    hide Ring;
    RingFacts(m, a);
    RingFacts(m, b);
    RingFrame(m, m2, a);
    RingFrame(m, m2, b);
  }

  /** One entry more at the end of a ring. */
  lemma RingsMore(m: Memory, m2: Memory, s: seq<int>, e: int, a: seq<int>, b: seq<int>)
    requires Rings(m, s, a, b) && e !in s && e !in a && e !in b
    requires Ring(m2, InsertAt(s, |s|, e)) && SameOutside(m, m2, ToSet(s) + {e})
    ensures Rings(m2, s + [e], a, b) && Rings(m2, a, s + [e], b) && Rings(m2, b, a, s + [e])
  {
    hide Ring;
    RingFacts(m, a);
    RingFacts(m, b);
    assert InsertAt(s, |s|, e) == s + [e];
    RingFrame(m, m2, a);
    RingFrame(m, m2, b);
  }

  /** One entry less. */
  lemma RingsLess(m: Memory, m2: Memory, s: seq<int>, i: nat, a: seq<int>, b: seq<int>)
    requires Rings(m, s, a, b) && 0 < i < |s|
    requires Ring(m2, RemoveAt(s, i)) && SameOutside(m, m2, ToSet(s))
    ensures Rings(m2, RemoveAt(s, i), a, b) && Rings(m2, a, RemoveAt(s, i), b) && Rings(m2, b, a, RemoveAt(s, i))
    ensures s[i] !in RemoveAt(s, i) && s[i] !in a && s[i] !in b && s[i] in m2
    ensures RemoveAt(s, i) == [s[0]] + RemoveAt(s[1..], i - 1)
  {
    RingFacts(m, s);
    RingFacts(m, a);
    RingFacts(m, b);
    assert Disjoint(s, a) && Disjoint(s, b);
    hide Ring;
    var e := s[i];
    assert e in s && e in m && e !in a;
    RemoveAtDistinct(s, i);
    RingFrame(m, m2, a);
    RingFrame(m, m2, b);
    RemoveAtRest(s, i);
    forall x | x in RemoveAt(s, i) ensures x in s {
      var k :| 0 <= k < |s| - 1 && RemoveAt(s, i)[k] == x;
      assert x == s[if k < i then k else k + 1];
    }
  }

  /** Taking off the only block with this address. */
  lemma {:induction false} WithoutCbAt(openq: seq<Opn>, i: nat)
    requires NoRepeatCb(openq) && i < |openq|
    ensures WithoutCb(openq, openq[i].cb) == RemoveAt(openq, i)
  {
    hide RemoveAt;
    RemoveAtRest(openq, i);
    if i == 0 {
      assert forall k :: 0 <= k < |openq| - 1 ==> openq[1..][k].cb != openq[0].cb;
      WithoutCbNothing(openq[1..], openq[0].cb);
    } else {
      var rest := openq[1..];
      assert NoRepeatCb(rest) && openq[0].cb != openq[i].cb && rest[i - 1] == openq[i];
      hide NoRepeatCb;
      WithoutCbAt(rest, i - 1);
    }
  }

  lemma {:induction false} WithoutCbNothing(openq: seq<Opn>, cb: int)
    requires forall i :: 0 <= i < |openq| ==> openq[i].cb != cb
    ensures WithoutCb(openq, cb) == openq
  {
    if openq != [] { WithoutCbNothing(openq[1..], cb); }
  }

  class DevCB {
    const mem: QueueMemory
    const openHdr: int           // openq
    const syncHdr: int           // syncq
    const freeHdr: int           // FreeOpnCB, shared by all devices
    const nsub: int
    const openreq: bool          // TDA_OPENREQ
    var cbs: map<int, OpnCB>
    var tskid: map<int, int>     // of the WaitQ entries
    var signalled: set<int>      // tasks with semaphore waits disabled
    ghost var opens: seq<int>
    ghost var frees: seq<int>
    ghost var syncs: seq<int>

    ghost predicate Valid()
      reads this, mem
    {
      && Rings(mem.m, [openHdr] + opens, [freeHdr] + frees, [syncHdr] + syncs)
      && Distinct(TasksOf(tskid, syncs))
      && forall x :: x in frees ==> FieldsOf(cbs, x).resid == 0
    }

    /** What the rings hold. */
    ghost function State(): Shared
      reads this
    {
      Shared(BlocksOf(cbs, opens), TasksOf(tskid, syncs), frees, signalled)
    }

    /** newDevCB: empty rings for the device, beside those of free blocks. */
    constructor (mem0: QueueMemory, openHdr0: int, syncHdr0: int, freeHdr0: int, ghost frees0: seq<int>,
                 cbs0: map<int, OpnCB>, nsub0: int, openreq0: bool)
      requires Ring(mem0.m, [freeHdr0] + frees0) && forall x :: x in frees0 ==> FieldsOf(cbs0, x).resid == 0
      requires openHdr0 in mem0.m && syncHdr0 in mem0.m && openHdr0 != syncHdr0
      requires openHdr0 !in [freeHdr0] + frees0 && syncHdr0 !in [freeHdr0] + frees0
      modifies mem0
      ensures Valid() && State() == Registered(nsub0, openreq0, frees0).sh
      ensures nsub == nsub0 && openreq == openreq0 && mem == mem0 && cbs == cbs0
      ensures openHdr == openHdr0 && syncHdr == syncHdr0 && freeHdr == freeHdr0
      ensures opens == [] && frees == frees0 && syncs == [] && mem.m.Keys == old(mem0.m.Keys)
    {
      mem, openHdr, syncHdr, freeHdr := mem0, openHdr0, syncHdr0, freeHdr0;
      nsub, openreq, cbs, tskid, signalled := nsub0, openreq0, cbs0, map[], {};
      opens, frees, syncs := [], frees0, [];
      new;
      hide Ring;
      RingFacts(mem.m, [freeHdr] + frees);
      ghost var m := mem.m;
      mem.QueInit(openHdr);
      ghost var m1 := mem.m;
      RingFrame(m, m1, [freeHdr] + frees);
      mem.QueInit(syncHdr);
      RingFrame(m1, mem.m, [freeHdr] + frees);
      RingFrame(m1, mem.m, [openHdr]);
      assert [openHdr] + opens == [openHdr] && [syncHdr] + syncs == [syncHdr];
    }

    lemma OpensOnce()
      requires Valid()
      ensures NoRepeatCb(State().openq) && openHdr !in opens && syncHdr !in syncs && freeHdr !in frees
    {
      RingFacts(mem.m, [openHdr] + opens);
      RingFacts(mem.m, [freeHdr] + frees);
      RingFacts(mem.m, [syncHdr] + syncs);
      HeaderFirst(openHdr, opens);
      HeaderFirst(freeHdr, frees);
      HeaderFirst(syncHdr, syncs);
    }

    lemma HeaderFirst(hdr: int, s: seq<int>)
      requires Distinct([hdr] + s)
      ensures hdr !in s && Distinct(s)
    {
      var r := [hdr] + s;
      forall i | 0 <= i < |s| ensures s[i] != hdr { assert r[0] != r[i + 1]; }
      forall i, j | 0 <= i < j < |s| ensures s[i] != s[j] { assert r[i + 1] != r[j + 1]; }
    }

    /** The scan of openq: behind entry i comes entry i + 1, or the header. */
    lemma NextOpen(i: nat)
      requires Valid() && i <= |opens|
      ensures var s := [openHdr] + opens;
              && s[i] in mem.m
              && mem.m[s[i]].next == if i < |opens| then opens[i] else openHdr
      ensures i < |opens| ==> opens[i] != openHdr
    {
      OpensOnce();
      RingPred(mem.m, [openHdr] + opens, i);
    }

    /** chkopenmode */
    method ChkMode(unit: int, omode: bv32) returns (ercd: Err)
      requires Valid()
      ensures ercd == ChkOpenMode(State().openq, unit, omode)
    {
      hide Rings, Ring, Distinct, Count, ChkOpenMode, BlocksOf, TasksOf;
      if omode & TD_UPDATE == 0 {
        NoMode(State().openq, unit, omode);
        return PAR;
      }
      CountsDecide(State().openq, unit, omode);
      var read, write, rexcl, wexcl := CountModes(unit);
      if omode & (TD_EXCL | TD_REXCL) != 0 && read > 0 {
        return BUSY;
      }
      if omode & (TD_EXCL | TD_WEXCL) != 0 && write > 0 {
        return BUSY;
      }
      if omode & TD_READ != 0 && rexcl > 0 {
        return BUSY;
      }
      if omode & TD_WRITE != 0 && wexcl > 0 {
        return BUSY;
      }
      return OK;
    }

    lemma NoMode(openq: seq<Opn>, unit: int, omode: bv32)
      requires omode & TD_UPDATE == 0
      ensures ChkOpenMode(openq, unit, omode) == PAR
    {
    }

    /** Its loop over openq. */
    method CountModes(unit: int) returns (read: int, write: int, rexcl: int, wexcl: int)
      requires Valid()
      ensures read == Count(State().openq, unit, TD_READ) && write == Count(State().openq, unit, TD_WRITE)
      ensures rexcl == Count(State().openq, unit, TD_EXCL | TD_REXCL)
      ensures wexcl == Count(State().openq, unit, TD_EXCL | TD_WEXCL)
    {
      hide Rings, Ring, Distinct, Count;
      read, write, rexcl, wexcl := 0, 0, 0, 0;
      ghost var openq, i := State().openq, 0;
      NextOpen(0);
      CountNone(unit);
      var q := mem.m[openHdr].next;
      while q != openHdr
        invariant 0 <= i <= |opens| && q == (if i < |opens| then opens[i] else openHdr)
                  && (i < |opens| ==> q != openHdr)
        invariant Count(openq, unit, TD_READ) == read + Count(openq[i..], unit, TD_READ)
        invariant Count(openq, unit, TD_WRITE) == write + Count(openq[i..], unit, TD_WRITE)
        invariant Count(openq, unit, TD_EXCL | TD_REXCL) == rexcl + Count(openq[i..], unit, TD_EXCL | TD_REXCL)
        invariant Count(openq, unit, TD_EXCL | TD_WEXCL) == wexcl + Count(openq[i..], unit, TD_EXCL | TD_WEXCL)
        decreases |opens| - i
      {
        var o := FieldsOf(cbs, q);
        CountOn(openq, i, unit);
        if unit == 0 || o.unitno == 0 || o.unitno == unit {
          if o.omode & TD_READ != 0 { read := read + 1; }
          if o.omode & TD_WRITE != 0 { write := write + 1; }
          if o.omode & (TD_EXCL | TD_REXCL) != 0 { rexcl := rexcl + 1; }
          if o.omode & (TD_EXCL | TD_WEXCL) != 0 { wexcl := wexcl + 1; }
        }
        NextOpen(i + 1);
        i := i + 1;
        q := mem.m[q].next;
      }
      assert openq[i..] == [];
    }

    /** One block counts or does not. */
    lemma CountOn(openq: seq<Opn>, i: nat, unit: int)
      requires i < |openq|
      ensures forall mask: bv32 ::
                Count(openq[i..], unit, mask)
                == Count(openq[i + 1..], unit, mask)
                   + if (unit == 0 || openq[i].unit == 0 || openq[i].unit == unit) && openq[i].omode & mask != 0
                       then 1 else 0
    {
      assert openq[i..][1..] == openq[i + 1..];
    }

    lemma CountNone(unit: int)
      ensures forall mask: bv32 :: Count([], unit, mask) == 0
      ensures State().openq[0..] == State().openq
    {
    }

    /** chkopen */
    method ChkOpened(unit: int, cb: int) returns (found: bool)
      requires Valid()
      ensures found == ChkOpen(State().openq, unit, cb)
    {
      hide Rings, Ring, Distinct;
      ghost var openq, i := State().openq, 0;
      NextOpen(0);
      var q := mem.m[openHdr].next;
      while q != openHdr
        invariant 0 <= i <= |opens| && q == (if i < |opens| then opens[i] else openHdr)
                  && (i < |opens| ==> q != openHdr)
        invariant forall k :: 0 <= k < i ==> !(openq[k].cb != cb && openq[k].unit == unit && openq[k].resid != 0)
        decreases |opens| - i
      {
        var o := FieldsOf(cbs, q);
        if q != cb && o.unitno == unit && o.resid != 0 {
          assert openq[i] in openq;
          return true;
        }
        NextOpen(i + 1);
        i := i + 1;
        q := mem.m[q].next;
      }
      return false;
    }

    lemma Parts()
      requires Valid()
      ensures var openq, freeq, syncq := [openHdr] + opens, [freeHdr] + frees, [syncHdr] + syncs;
              && Ring(mem.m, openq) && Ring(mem.m, freeq) && Ring(mem.m, syncq)
              && Rings(mem.m, openq, freeq, syncq)
              && Rings(mem.m, freeq, openq, syncq)
              && Rings(mem.m, syncq, freeq, openq)
              && Distinct(State().syncq)
    {
      RingsParts(mem.m, [openHdr] + opens, [freeHdr] + frees, [syncHdr] + syncs);
      hide Rings, Ring, Distinct;
    }

    /** enterSyncWait: the entry is a node of its own. */
    method EnterSyncWait(entry: int, task: int) returns (wait: bool)
      requires Valid() && task !in State().syncq && NewNode(entry)
      modifies this`syncs, this`tskid, mem
      ensures Valid() && State() == old(State()).(syncq := old(State()).syncq + [task])
      ensures wait <==> old(State()).syncq != []
      ensures syncs == old(syncs) + [entry] && opens == old(opens) && frees == old(frees)
      ensures mem.m.Keys == old(mem.m.Keys) && TaskOf(tskid, entry) == task
    {
      hide Ring, Rings, InsertAt;
      ghost var m, ring := mem.m, [syncHdr] + syncs;
      Parts();
      var empty := mem.IsQueEmpty(syncHdr, ring);
      wait := !empty;
      tskid := tskid[entry := task];
      mem.QueInsert(entry, syncHdr, ring, |ring|);
      RingsMore(m, mem.m, ring, entry, [freeHdr] + frees, [openHdr] + opens);
      assert ring + [entry] == [syncHdr] + (syncs + [entry]);
      syncs := syncs + [entry];
      assert TasksOf(tskid, syncs) == TasksOf(old(tskid), old(syncs)) + [task] by { assert entry !in old(syncs); }
    }

    /** A QUEUE on none of the rings. */
    ghost predicate NewNode(entry: int)
      reads this, mem
    {
      entry in mem.m && entry !in [openHdr] + opens && entry !in [freeHdr] + frees && entry !in [syncHdr] + syncs
    }

    /** leaveSyncWait */
    method LeaveSyncWait(entry: int, ghost i: nat)
      requires Valid() && i < |syncs| && syncs[i] == entry
      modifies this`syncs, this`signalled, mem
      ensures Valid() && State() == Leave(old(State()), old(State()).syncq[i])
      ensures syncs == RemoveAt(old(syncs), i) && opens == old(opens) && frees == old(frees)
      ensures signalled == if syncs == [] then old(signalled) else old(signalled) + {TaskOf(tskid, syncs[0])}
      ensures mem.m.Keys == old(mem.m.Keys)
    {
      hide Ring, Rings, Distinct, RemoveAt, Skip, Disjoint, ToSet, TaskOf, TasksOf, BlocksOf, FieldsOf;
      ghost var m, ring, tasks := mem.m, [syncHdr] + syncs, State().syncq;
      Parts();
      mem.QueRemove(entry, ring, i + 1);
      SameOutsideWider(m, mem.m, ToSet(ring) - {entry}, ToSet(ring));
      RingsLess(m, mem.m, ring, i + 1, [freeHdr] + frees, [openHdr] + opens);
      SkipAt(tasks, i);
      RemoveAtDistinct(tasks, i);
      assert ring[1..] == syncs;
      TasksLess(tskid, syncs, i);
      syncs := RemoveAt(syncs, i);
      Parts();
      var empty := mem.IsQueEmpty(syncHdr, [syncHdr] + syncs);
      if !empty {
        RingPred(mem.m, [syncHdr] + syncs, 0);
        signalled := signalled + {TaskOf(tskid, mem.m[syncHdr].next)};
      }
    }

    lemma TasksLess(tskid: map<int, int>, syncs: seq<int>, i: nat)
      requires i < |syncs|
      ensures TasksOf(tskid, RemoveAt(syncs, i)) == RemoveAt(TasksOf(tskid, syncs), i)
    {
    }

    /** newOpnCB */
    method NewOpnCB(unit: int, omode: bv32) returns (cb: int, ok: bool)
      requires Valid()
      modifies this`opens, this`frees, this`cbs, mem
      ensures Valid() && syncs == old(syncs) && (ok <==> old(frees) != [])
      ensures ok ==> cb == old(frees)[0] && opens == old(opens) + [cb] && frees == old(frees)[1..]
      ensures ok ==> FieldsOf(cbs, cb) == OpnCB(unit, omode, 0)
      ensures !ok ==> opens == old(opens) && frees == old(frees)
      ensures ok ==> State() == old(State()).(openq := old(State()).openq + [Opn(cb, unit, omode, 0)],
                                              freecb := old(frees)[1..])
      ensures !ok ==> State() == old(State())
      ensures mem.m.Keys == old(mem.m.Keys)
      ensures forall x :: x in opens || x in frees <==> x in old(opens) || x in old(frees)
    {
      hide Ring, Rings, Distinct, InsertAt, Disjoint, BlocksOf, TasksOf, FieldsOf, ToSet;
      ghost var cbs0, opens0, frees0, syncq := cbs, opens, frees, [syncHdr] + syncs;
      var r := TakeFree();
      if r == None {
        return 0, false;
      }
      cb, ok := r.value, true;
      ghost var m, openq := mem.m, [openHdr] + opens;
      Parts();
      mem.QueInsert(cb, openHdr, openq, |openq|);
      RingsMore(m, mem.m, openq, cb, [freeHdr] + frees, syncq);
      assert openq + [cb] == [openHdr] + (opens + [cb]);
      Moved(cbs0, opens0, cb, OpnCB(unit, omode, 0));
      Unfreed(cbs0, opens0, frees0, OpnCB(unit, omode, 0));
      opens := opens + [cb];
      cbs := cbs[cb := OpnCB(unit, omode, 0)];
    }

    /** The first block of FreeOpnCB, if there is one. */
    method TakeFree() returns (r: Option<int>)
      requires Valid()
      modifies this`frees, mem
      ensures Valid() && r == if old(frees) == [] then None else Some(old(frees)[0])
      ensures frees == if old(frees) == [] then [] else old(frees)[1..]
      ensures r.Some? ==> NewNode(r.value)
      ensures mem.m.Keys == old(mem.m.Keys)
    {
      hide Ring, Rings, Distinct, RemoveAt, Disjoint, BlocksOf, TasksOf, FieldsOf, ToSet;
      ghost var m, freeq, openq, syncq := mem.m, [freeHdr] + frees, [openHdr] + opens, [syncHdr] + syncs;
      Parts();
      r := mem.QueRemoveNext(freeHdr, freeq);
      if r == None {
        Untouched(m, mem.m, freeq, openq, syncq);
        RingsParts(mem.m, freeq, openq, syncq);
      } else {
        RingsLess(m, mem.m, freeq, 1, openq, syncq);
        OneLess(freeHdr, frees);
        assert forall x :: x in frees[1..] ==> x in frees;
        frees := frees[1..];
      }
    }

    lemma OneLess(hdr: int, s: seq<int>)
      requires s != []
      ensures RemoveAt([hdr] + s, 1) == [hdr] + s[1..]
    {
    }

    /** The other free blocks stay free. */
    lemma Unfreed(cbs: map<int, OpnCB>, opens: seq<int>, frees: seq<int>, f: OpnCB)
      requires frees != [] && f.resid == 0 && forall x :: x in frees ==> FieldsOf(cbs, x).resid == 0
      ensures forall x :: x in frees[1..] ==> FieldsOf(cbs[frees[0] := f], x).resid == 0
      ensures forall x :: x in opens + [frees[0]] || x in frees[1..] <==> x in opens || x in frees
    {
      forall x ensures x in frees <==> x == frees[0] || x in frees[1..] {
        assert frees == [frees[0]] + frees[1..];
      }
    }

    lemma Freed(cbs: map<int, OpnCB>, frees: seq<int>, cb: int, f: OpnCB)
      requires f.resid == 0 && forall x :: x in frees ==> FieldsOf(cbs, x).resid == 0
      ensures forall x :: x in frees + [cb] ==> FieldsOf(cbs[cb := f], x).resid == 0
      ensures FieldsOf(cbs[cb := f], cb) == f
    {
    }

    /** A block that changes its ring is the only one that changes. */
    lemma Moved(cbs: map<int, OpnCB>, opens: seq<int>, cb: int, f: OpnCB)
      requires cb !in opens
      ensures BlocksOf(cbs[cb := f], opens + [cb]) == BlocksOf(cbs, opens) + [Opn(cb, f.unitno, f.omode, f.resid)]
      ensures BlocksOf(cbs[cb := f], opens) == BlocksOf(cbs, opens)
    {
    }

    /** delOpnCB */
    method DeleteOpnCB(cb: int, ghost i: nat)
      requires Valid() && i < |opens| && opens[i] == cb
      modifies this`opens, this`frees, this`cbs, mem
      ensures Valid() && State() == DelOpnCB(old(State()), cb)
      ensures opens == RemoveAt(old(opens), i) && frees == old(frees) + [cb] && syncs == old(syncs)
      ensures mem.m.Keys == old(mem.m.Keys) && FieldsOf(cbs, cb) == FieldsOf(old(cbs), cb).(resid := 0)
    {
      hide Ring, Rings, Distinct, InsertAt, RemoveAt, WithoutCb, Disjoint, BlocksOf, TasksOf, FieldsOf, ToSet,
           NoRepeatCb;
      ghost var m, freeq, openq, syncq := mem.m, [freeHdr] + frees, [openHdr] + opens, [syncHdr] + syncs;
      Parts();
      OpensOnce();
      WithoutCbAt(State().openq, i);
      mem.QueRemove(cb, openq, i + 1);
      SameOutsideWider(m, mem.m, ToSet(openq) - {cb}, ToSet(openq));
      RingsLess(m, mem.m, openq, i + 1, freeq, syncq);
      ghost var m1, rest := mem.m, RemoveAt(opens, i);
      assert openq[1..] == opens;
      RingsParts(m1, freeq, [openHdr] + rest, syncq);
      mem.QueInsert(cb, freeHdr, freeq, |freeq|);
      RingsMore(m1, mem.m, freeq, cb, [openHdr] + rest, syncq);
      assert freeq + [cb] == [freeHdr] + (frees + [cb]);
      BlocksLess(cbs, opens, i);
      Moved(cbs, rest, cb, FieldsOf(cbs, cb).(resid := 0));
      Freed(cbs, frees, cb, FieldsOf(cbs, cb).(resid := 0));
      opens := rest;
      frees := frees + [cb];
      cbs := cbs[cb := FieldsOf(cbs, cb).(resid := 0)];
    }

    lemma BlocksLess(cbs: map<int, OpnCB>, opens: seq<int>, i: nat)
      requires i < |opens|
      ensures BlocksOf(cbs, RemoveAt(opens, i)) == RemoveAt(BlocksOf(cbs, opens), i)
    {
    }

    /** opncb->resid = resid, for a block on openq. */
    method SetResid(cb: int, resid: int, ghost i: nat)
      requires Valid() && i < |opens| && opens[i] == cb
      modifies this`cbs
      ensures Valid() && State() == old(State()).(openq := WithResid(old(State()).openq, cb, resid))
      ensures FieldsOf(cbs, cb) == FieldsOf(old(cbs), cb).(resid := resid)
      ensures forall x :: x != cb ==> FieldsOf(cbs, x) == FieldsOf(old(cbs), x)
    {
      cbs := cbs[cb := FieldsOf(cbs, cb).(resid := resid)];
      assert BlocksOf(cbs, opens) == WithResid(BlocksOf(old(cbs), opens), cb, resid);
      assert cb in [openHdr] + opens;
    }

    /** _tk_opn_dev up to the first UnlockDM. */
    method OpenFirst(entry: int, task: int, unit: int, omode: bv32) returns (ercd: Err, cb: int, wait: bool)
      requires Valid() && task !in State().syncq && NewNode(entry)
      modifies this, mem
      ensures Valid() && (ercd, State()) == BeginOpen(old(State()), nsub, task, unit, omode)
      ensures ercd == if unit > nsub then NOEXS
                      else if omode & TD_UPDATE == 0 then PAR
                      else if exists o :: o in old(State()).openq && Conflict(o, unit, omode) then BUSY
                      else if old(frees) == [] then LIMIT
                      else OK
      ensures ercd == OK ==> FieldsOf(cbs, cb) == OpnCB(unit, omode, 0) && task == TaskOf(tskid, entry)
      ensures ercd == OK ==>
                && cb == old(frees)[0] && (wait <==> old(State()).syncq != [])
                && opens == old(opens) + [cb] && frees == old(frees)[1..] && syncs == old(syncs) + [entry]
      ensures ercd != OK ==> opens == old(opens) && frees == old(frees) && syncs == old(syncs)
      ensures mem.m.Keys == old(mem.m.Keys)
    {
      hide Rings, Ring, BlocksOf, TasksOf, Distinct, FieldsOf, TaskOf, Conflict, ChkOpenMode;
      cb, wait := 0, false;
      AdmitsMeans(State().openq, unit, omode);
      if unit > nsub {
        return NOEXS, cb, wait;
      }
      ercd := ChkMode(unit, omode);
      if ercd != OK {
        return;
      }
      var ok;
      cb, ok := NewOpnCB(unit, omode);
      if !ok {
        ercd := LIMIT;
        return;
      }
      wait := EnterSyncWait(entry, task);
    }

    /** The second locked region, of opening and of closing. */
    method DriverNeeded(unit: int, cb: int) returns (call: bool)
      requires Valid()
      ensures call <==> openreq || forall o :: o in State().openq && o.cb != cb && o.unit == unit ==> o.resid == 0
    {
      var found := ChkOpened(unit, cb);
      call := !(found && !openreq);
    }

    /** The last locked region of opening. */
    method OpenLast(entry: int, cb: int, ok: bool, rid: int, ghost i: nat, ghost j: nat)
      requires Valid() && i < |opens| && opens[i] == cb && j < |syncs| && syncs[j] == entry
      modifies this, mem
      ensures Valid()
      ensures var s := old(State());
              State() == Leave(if ok then s.(openq := WithResid(s.openq, cb, rid)) else DelOpnCB(s, cb), s.syncq[j])
      ensures opens == (if ok then old(opens) else RemoveAt(old(opens), i))
      ensures frees == (if ok then old(frees) else old(frees) + [cb])
      ensures syncs == RemoveAt(old(syncs), j) && mem.m.Keys == old(mem.m.Keys)
      ensures FieldsOf(cbs, cb) == FieldsOf(old(cbs), cb).(resid := if ok then rid else 0)
      ensures signalled == if syncs == [] then old(signalled) else old(signalled) + {TaskOf(tskid, syncs[0])}
    {
      hide Rings, Ring, BlocksOf, Distinct, FieldsOf, Leave;
      if ok {
        SetResid(cb, rid, i);
      } else {
        DeleteOpnCB(cb, i);
      }
      LeaveSyncWait(entry, j);
    }

    /** _tk_cls_dev: the descriptor, which names a block of this device or a free one, is
        checked and marked. */
    method CloseFirst(cb: int, rid: int) returns (ercd: Err)
      requires Valid() && rid > 0 && (cb in opens || cb in frees)
      modifies this`cbs
      ensures Valid() && (ercd, State()) == BeginClose(old(State()), cb, rid)
      ensures ercd == if FieldsOf(old(cbs), cb).resid <= 0 then BADID
                      else if FieldsOf(old(cbs), cb).resid != rid then OACV
                      else OK
      ensures ercd == OK ==> cb in opens && FieldsOf(cbs, cb) == FieldsOf(old(cbs), cb).(resid := -1)
      ensures ercd != OK ==> cbs == old(cbs)
    {
      hide Ring, BeginClose;
      CloseLooksUp(cb, rid);
      if FieldsOf(cbs, cb).resid <= 0 {
        return BADID;
      }
      if FieldsOf(cbs, cb).resid != rid {
        return OACV;
      }
      ghost var i :| 0 <= i < |opens| && opens[i] == cb;
      SetResid(cb, -1, i);
      return OK;
    }

    /** What the fields of the block say is what the list of blocks says. */
    lemma CloseLooksUp(cb: int, rid: int)
      requires Valid() && rid > 0 && (cb in opens || cb in frees)
      ensures var (ercd, s) := BeginClose(State(), cb, rid);
              if FieldsOf(cbs, cb).resid <= 0 then ercd == BADID && s == State()
              else if FieldsOf(cbs, cb).resid != rid then ercd == OACV && s == State()
              else ercd == OK && cb in opens && s == State().(openq := WithResid(State().openq, cb, -1))
    {
      var openq := State().openq;
      if cb in opens {
        var i :| 0 <= i < |opens| && opens[i] == cb;
        assert openq[i] == BlockOf(cbs, cb) && openq[i] in openq;
      }
      forall o | o in openq && o.cb == cb ensures o == BlockOf(cbs, cb) && cb in opens {
        var i :| 0 <= i < |openq| && openq[i] == o;
      }
      hide WithResid, BlocksOf;
    }

    /** The last locked region of closing. */
    method CloseLast(entry: int, cb: int, ghost i: nat, ghost j: nat)
      requires Valid() && i < |opens| && opens[i] == cb && j < |syncs| && syncs[j] == entry
      modifies this, mem
      ensures Valid() && State() == Leave(DelOpnCB(old(State()), cb), old(State()).syncq[j])
      ensures opens == RemoveAt(old(opens), i) && frees == old(frees) + [cb] && syncs == RemoveAt(old(syncs), j)
      ensures signalled == if syncs == [] then old(signalled) else old(signalled) + {TaskOf(tskid, syncs[0])}
      ensures mem.m.Keys == old(mem.m.Keys)
    {
      hide Rings, Ring, BlocksOf, Distinct, FieldsOf, Leave;
      DeleteOpnCB(cb, i);
      LeaveSyncWait(entry, j);
    }
  }

  /** The four counts decide as the definition does. */
  lemma CountsDecide(openq: seq<Opn>, unit: int, omode: bv32)
    requires omode & TD_UPDATE != 0
    ensures ChkOpenMode(openq, unit, omode) == OK <==>
              && !(omode & (TD_EXCL | TD_REXCL) != 0 && Count(openq, unit, TD_READ) > 0)
              && !(omode & (TD_EXCL | TD_WEXCL) != 0 && Count(openq, unit, TD_WRITE) > 0)
              && !(omode & TD_READ != 0 && Count(openq, unit, TD_EXCL | TD_REXCL) > 0)
              && !(omode & TD_WRITE != 0 && Count(openq, unit, TD_EXCL | TD_WEXCL) > 0)
    ensures ChkOpenMode(openq, unit, omode) == OK || ChkOpenMode(openq, unit, omode) == BUSY
  {
    hide Count, Overlap;
    CountPositive(openq, unit, TD_READ);
    CountPositive(openq, unit, TD_WRITE);
    CountPositive(openq, unit, TD_EXCL | TD_REXCL);
    CountPositive(openq, unit, TD_EXCL | TD_WEXCL);
  }
}
