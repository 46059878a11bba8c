/** Kernel object locks (kernel/tkernel/src/klock.c:27-88): one critical region for an
    attempt to lock, one to unlock, and waits that others can end without the lock. */
module ObjLock {
  import opened Queue
  import opened WaitQueue

  /** A task outside LockOBJ, inside it, or between LockOBJ and UnlockOBJ. */
  datatype Pc = Idle | Trying(loc: int) | Held(loc: int)

  /** A lock is in waiters while wtskq.next is not NULL. */
  datatype Locks = Locks(waiters: map<int, seq<int>>, klocked: set<int>, klockwait: set<int>, pcs: map<int, Pc>)

  function PcOf(s: Locks, t: int): Pc {
    if t in s.pcs then s.pcs[t] else Idle
  }

  function Put(s: Locks, t: int, p: Pc): Locks {
    s.(pcs := s.pcs[t := p])
  }

  /** The region of LockOBJ; the task retries if it has not got the lock. */
  function Attempt(s: Locks, t: int, loc: int): Locks {
    if t in s.klocked then s
    else if loc !in s.waiters then s.(waiters := s.waiters[loc := []], klocked := s.klocked + {t})
    else s.(waiters := s.waiters[loc := s.waiters[loc] + [t]], klockwait := s.klockwait + {t})
  }

  /** UnlockOBJ: the oldest waiter owns the lock at once, or nobody does. */
  function Release(s: Locks, t: int, loc: int): Locks {
    if loc !in s.waiters || s.waiters[loc] == []
    then s.(waiters := s.waiters - {loc}, klocked := s.klocked - {t})
    else
      var tcb := s.waiters[loc][0];
      s.(waiters := s.waiters[loc := s.waiters[loc][1..]], klocked := s.klocked - {t} + {tcb},
         klockwait := s.klockwait - {tcb})
  }

  /** ready_queue_delete on a task that waits for a lock. */
  function Removed(s: Locks, t: int, loc: int): Locks {
    s.(waiters := if loc in s.waiters then s.waiters[loc := Skip(s.waiters[loc], t)] else s.waiters,
       klockwait := s.klockwait - {t})
  }

  datatype Event =
    | Call(task: int, loc: int) | Try(task: int) | Unlock(task: int) | Free(task: int) | Terminate(task: int)

  /** Object locks do not nest, a waiting task does not run, and a task that holds a
      lock cannot be terminated. */
  predicate Enabled(s: Locks, e: Event) {
    match e
    case Call(t, _) => PcOf(s, t).Idle?
    case Try(t) => PcOf(s, t).Trying? && t !in s.klockwait
    case Unlock(t) => PcOf(s, t).Held?
    case Free(t) => t in s.klockwait
    case Terminate(t) => PcOf(s, t).Trying? && t !in s.klocked
  }

  function Step(s: Locks, e: Event): Locks {
    match e
    case Call(t, loc) => Put(s, t, Trying(loc))
    case Try(t) =>
      if !PcOf(s, t).Trying? then s
      else
        var r := Attempt(s, t, PcOf(s, t).loc);
        if t in r.klocked then Put(r, t, Held(PcOf(s, t).loc)) else r
    case Unlock(t) => if !PcOf(s, t).Held? then s else Put(Release(s, t, PcOf(s, t).loc), t, Idle)
    case Free(t) => if !PcOf(s, t).Trying? then s else Removed(s, t, PcOf(s, t).loc)
    case Terminate(t) =>
      if !PcOf(s, t).Trying? then s
      else Put(if t in s.klockwait then Removed(s, t, PcOf(s, t).loc) else s, t, Idle)
  }

  predicate Owner(s: Locks, t: int, loc: int) {
    t in s.klocked && (PcOf(s, t) == Trying(loc) || PcOf(s, t) == Held(loc))
  }

  ghost predicate TaskOk(s: Locks, t: int) {
    && (t in s.klocked ==> !PcOf(s, t).Idle? && t !in s.klockwait)
    && (PcOf(s, t).Held? ==> t in s.klocked)
    && (t in s.klockwait ==> PcOf(s, t).Trying? && PcOf(s, t).loc in s.waiters && t in s.waiters[PcOf(s, t).loc])
  }

  ghost predicate LockOk(s: Locks, loc: int) {
    && (loc in s.waiters <==> exists t :: Owner(s, t, loc))
    && (forall t, t2 :: Owner(s, t, loc) && Owner(s, t2, loc) ==> t == t2)
    && (loc in s.waiters ==>
          && Distinct(s.waiters[loc])
          && forall t :: t in s.waiters[loc] ==> t in s.klockwait && PcOf(s, t) == Trying(loc))
  }

  ghost predicate Inv(s: Locks) {
    && (forall t {:trigger TaskOk(s, t)} :: TaskOk(s, t))
    && (forall loc {:trigger LockOk(s, loc)} :: LockOk(s, loc))
  }

  lemma StepTask(s: Locks, e: Event, t: int)
    requires Inv(s) && Enabled(s, e)
    ensures TaskOk(Step(s, e), t)
  {
    hide Skip;
    assert TaskOk(s, t) && TaskOk(s, e.task);
    if !PcOf(s, e.task).Idle? { assert LockOk(s, PcOf(s, e.task).loc); }
    if !PcOf(s, t).Idle? { assert LockOk(s, PcOf(s, t).loc); }
  }

  lemma StepLock(s: Locks, e: Event, loc: int)
    requires Inv(s) && Enabled(s, e)
    ensures LockOk(Step(s, e), loc)
  {
    match e {
      case Call(t, l) => CallLock(s, t, l, loc);
      case Try(t) => TryLock(s, t, loc);
      case Unlock(t) => UnlockLock(s, t, loc);
      case Free(t) => FreeLock(s, e, loc);
      case Terminate(t) => FreeLock(s, e, loc);
    }
  }

  lemma CallLock(s: Locks, t: int, l: int, loc: int)
    requires Inv(s) && Enabled(s, Call(t, l))
    ensures LockOk(Step(s, Call(t, l)), loc)
  {
    var r := Step(s, Call(t, l));
    assert LockOk(s, loc) && TaskOk(s, t);
    assert forall x :: Owner(r, x, loc) == Owner(s, x, loc);
  }

  lemma TryLock(s: Locks, t: int, loc: int)
    requires Inv(s) && Enabled(s, Try(t))
    ensures LockOk(Step(s, Try(t)), loc)
  {
    var r, l := Step(s, Try(t)), PcOf(s, t).loc;
    assert LockOk(s, loc) && TaskOk(s, t) && LockOk(s, l);
    assert forall x :: x != t || loc != l ==> Owner(r, x, loc) == Owner(s, x, loc);
    if loc == l && t !in s.klocked && l !in s.waiters {
      assert Owner(r, t, loc);
    }
    if loc == l && t in s.klocked { assert Owner(r, t, loc) && Owner(s, t, loc); }
  }

  /** Unlocking passes the lock straight to the oldest waiter; it is free only if
      nobody waits. */
  lemma UnlockLock(s: Locks, t: int, loc: int)
    requires Inv(s) && Enabled(s, Unlock(t))
    ensures LockOk(Step(s, Unlock(t)), loc)
  {
    var r, l := Step(s, Unlock(t)), PcOf(s, t).loc;
    assert LockOk(s, loc) && TaskOk(s, t) && LockOk(s, l) && Owner(s, t, l);
    var q := s.waiters[l];
    if q == [] {
      assert forall x :: Owner(r, x, loc) <==> Owner(s, x, loc) && x != t;
    } else {
      assert q[0] in q;
      assert Owner(r, q[0], l) && TaskOk(s, q[0]);
      assert forall x :: Owner(r, x, loc) <==> (Owner(s, x, loc) && x != t) || (x == q[0] && loc == l);
      if loc in r.waiters {
        forall x | x in r.waiters[loc] ensures x in r.klockwait && PcOf(r, x) == Trying(loc) {
          assert x in s.waiters[loc] && x != t;
          if loc == l {
            var i :| 0 <= i < |q[1..]| && q[1..][i] == x;
            assert q[0] != q[i + 1];
          }
        }
      }
    }
  }

  lemma FreeLock(s: Locks, e: Event, loc: int)
    requires Inv(s) && Enabled(s, e) && (e.Free? || e.Terminate?)
    ensures LockOk(Step(s, e), loc)
  {
    var r, t := Step(s, e), e.task;
    assert LockOk(s, loc) && TaskOk(s, t) && LockOk(s, PcOf(s, t).loc);
    assert t !in s.klocked;
    forall x ensures Owner(r, x, loc) == Owner(s, x, loc) {
      assert x != t ==> PcOf(r, x) == PcOf(s, x);
    }
    if loc in s.waiters {
      SkipDistinct(s.waiters[loc], t);
      var x :| Owner(s, x, loc);
      assert Owner(r, x, loc);
    }
  }

  lemma StepInv(s: Locks, e: Event)
    requires Inv(s) && Enabled(s, e)
    ensures Inv(Step(s, e))
  {
    forall t ensures TaskOk(Step(s, e), t) { StepTask(s, e, t); }
    forall loc ensures LockOk(Step(s, e), loc) { StepLock(s, e, loc); }
  }

  function Unlocked(): Locks {
    Locks(map[], {}, {}, map[])
  }

  ghost predicate Feasible(s: Locks, es: seq<Event>)
    decreases |es|
  {
    es != [] ==> Enabled(s, es[0]) && Feasible(Step(s, es[0]), es[1..])
  }

  function Run(s: Locks, es: seq<Event>): Locks
    decreases |es|
  {
    if es == [] then s else Run(Step(s, es[0]), es[1..])
  }

  lemma {:induction false} RunInv(s: Locks, es: seq<Event>)
    requires Inv(s) && Feasible(s, es)
    ensures Inv(Run(s, es))
    decreases |es|
  {
    hide Inv, Enabled, Step;
    if es != [] {
      StepInv(s, es[0]);
      RunInv(Step(s, es[0]), es[1..]);
    }
  }

  lemma UnlockedInv()
    ensures Inv(Unlocked())
  {
  }

  /** Over any interleaving at most one task owns a lock, and wtskq.next is NULL exactly
      when nobody does. */
  lemma OneOwner(es: seq<Event>, loc: int, t: int, t2: int)
    requires Feasible(Unlocked(), es)
    ensures var s := Run(Unlocked(), es);
            && (Owner(s, t, loc) && Owner(s, t2, loc) ==> t == t2)
            && (loc !in s.waiters <==> forall x :: !Owner(s, x, loc))
            && (PcOf(s, t) == Held(loc) ==> Owner(s, t, loc))
  {
    hide Feasible, Run, Owner;
    UnlockedInv();
    RunInv(Unlocked(), es);
    assert LockOk(Run(Unlocked(), es), loc) && TaskOk(Run(Unlocked(), es), t);
    HeldOwns(Run(Unlocked(), es), t, loc);
  }

  lemma HeldOwns(s: Locks, t: int, loc: int)
    requires TaskOk(s, t)
    ensures PcOf(s, t) == Held(loc) ==> Owner(s, t, loc)
  {
  }

  /** Releasing a lock that is waited for: in the very next state its oldest waiter owns
      it, and the others wait on in their order. */
  lemma HandOff(s: Locks, t: int)
    requires Inv(s) && PcOf(s, t).Held?
    ensures var loc, r := PcOf(s, t).loc, Step(s, Unlock(t));
            && loc in s.waiters
            && (s.waiters[loc] != [] ==>
                  && Owner(r, s.waiters[loc][0], loc) && s.waiters[loc][0] !in r.klockwait
                  && loc in r.waiters && r.waiters[loc] == s.waiters[loc][1..])
            && (s.waiters[loc] == [] ==> loc !in r.waiters)
            && !Owner(r, t, loc)
  {
    var loc := PcOf(s, t).loc;
    assert TaskOk(s, t) && LockOk(s, loc) && Owner(s, t, loc);
    var q := s.waiters[loc];
    if q != [] {
      assert q[0] in q;
      assert TaskOk(s, q[0]);
    }
  }

  /** An attempt gets the lock if and only if no other task owns it; otherwise the caller
      is the last to wait for it. No other task gains or loses a lock. */
  lemma TryTakes(s: Locks, t: int, loc: int)
    requires Inv(s) && PcOf(s, t) == Trying(loc) && t !in s.klockwait
    ensures var r := Step(s, Try(t));
            && (Owner(r, t, loc) <==> forall x :: x != t ==> !Owner(s, x, loc))
            && (PcOf(r, t) == if Owner(r, t, loc) then Held(loc) else Trying(loc))
            && (!Owner(r, t, loc) ==>
                  && loc in s.waiters && loc in r.waiters && r.waiters[loc] == s.waiters[loc] + [t]
                  && t in r.klockwait)
            && (forall x, l :: x != t ==> Owner(r, x, l) == Owner(s, x, l))
            && (forall l :: l != loc && l in s.waiters ==> l in r.waiters && r.waiters[l] == s.waiters[l])
  {
    var r := Step(s, Try(t));
    assert TaskOk(s, t) && LockOk(s, loc);
    assert forall x :: x != t ==> PcOf(r, x) == PcOf(s, x);
    assert Owner(s, t, loc) <==> t in s.klocked;
    if t in s.klocked {
      assert forall x :: x != t ==> !Owner(s, x, loc);
    } else if loc in s.waiters {
      var x :| Owner(s, x, loc);
      assert x != t;
    }
  }

  /** A wait that is ended without the lock: just that task leaves the queue, and it goes
      back to trying, or out of the call when it is terminated. */
  lemma EndedWait(s: Locks, t: int, i: nat)
    requires Inv(s) && t in s.klockwait && PcOf(s, t).Trying?
    requires var loc := PcOf(s, t).loc; loc in s.waiters && i < |s.waiters[loc]| && s.waiters[loc][i] == t
    ensures var loc, r, r2 := PcOf(s, t).loc, Step(s, Free(t)), Step(s, Terminate(t));
            && r == s.(waiters := s.waiters[loc := RemoveAt(s.waiters[loc], i)], klockwait := s.klockwait - {t})
            && r2 == r.(pcs := s.pcs[t := Idle])
  {
    hide Skip, RemoveAt;
    assert TaskOk(s, t) && LockOk(s, PcOf(s, t).loc);
    SkipAt(s.waiters[PcOf(s, t).loc], i);
  }

  /** Nobody waits for ever: as the owners go on and unlock, every waiter gets the lock. */
  lemma {:induction false} WaiterGetsLock(s: Locks, loc: int, i: nat) returns (es: seq<Event>)
    requires Inv(s) && loc in s.waiters && i < |s.waiters[loc]|
    ensures Feasible(s, es) && |es| <= 2 * i + 2
    ensures Owner(Run(s, es), s.waiters[loc][i], loc)
    ensures forall k :: 0 <= k < |es| ==> es[k].Try? || es[k].Unlock?
    decreases i
  {
    hide Inv, Step, Enabled, Skip;
    var a := s.waiters[loc][i];
    var x, u, first := OwnerHolds(s, loc);
    HoldFrame(s, u, first, x, loc);
    HandOff(u, x);
    var r := Step(u, Unlock(x));
    UnlockEnabled(u, x);
    StepInv(u, Unlock(x));
    if i == 0 {
      es := first + [Unlock(x)];
      RunThen(s, first, [Unlock(x)]);
      assert [Unlock(x)][1..] == [];
    } else {
      assert r.waiters[loc][i - 1] == a;
      var rest := WaiterGetsLock(r, loc, i - 1);
      es := first + ([Unlock(x)] + rest);
      assert ([Unlock(x)] + rest)[1..] == rest;
      RunThen(s, first, [Unlock(x)] + rest);
    }
  }

  /** The owner leaves LockOBJ, if it is still in it. */
  lemma OwnerHolds(s: Locks, loc: int) returns (x: int, u: Locks, first: seq<Event>)
    requires Inv(s) && loc in s.waiters
    ensures Owner(s, x, loc) && PcOf(u, x) == Held(loc)
    ensures first == if PcOf(s, x) == Held(loc) then [] else [Try(x)]
    ensures first == [] ==> u == s
    ensures first != [] ==> PcOf(s, x) == Trying(loc) && x !in s.klockwait && u == Step(s, Try(x))
  {
    assert LockOk(s, loc);
    x :| Owner(s, x, loc);
    assert TaskOk(s, x);
    first := if PcOf(s, x) == Held(loc) then [] else [Try(x)];
    u := if first == [] then s else Step(s, Try(x));
  }

  lemma HoldFrame(s: Locks, u: Locks, first: seq<Event>, x: int, loc: int)
    requires Inv(s) && loc in s.waiters && Owner(s, x, loc)
    requires if first == [] then u == s
             else first == [Try(x)] && PcOf(s, x) == Trying(loc) && x !in s.klockwait && u == Step(s, Try(x))
    ensures Inv(u) && u.waiters == s.waiters && Feasible(s, first) && Run(s, first) == u
  {
    if first != [] {
      StepInv(s, Try(x));
      assert first[1..] == [];
    }
  }

  lemma UnlockEnabled(s: Locks, x: int)
    requires PcOf(s, x).Held?
    ensures Enabled(s, Unlock(x))
  {
  }

  lemma {:induction false} RunThen(s: Locks, es: seq<Event>, fs: seq<Event>)
    requires Feasible(s, es) && Feasible(Run(s, es), fs)
    ensures Feasible(s, es + fs) && Run(s, es + fs) == Run(Run(s, es), fs)
    decreases |es|
  {
    hide Step, Enabled;
    if es == [] {
      assert es + fs == fs;
    } else {
      assert (es + fs)[1..] == es[1..] + fs && (es + fs)[0] == es[0];
      RunThen(Step(s, es[0]), es[1..], fs);
    }
  }

  /** What one step does to a queue. */
  lemma QueueStep(s: Locks, e: Event, loc: int)
    requires Inv(s) && Enabled(s, e) && loc in s.waiters && loc in Step(s, e).waiters
    ensures var q, r := s.waiters[loc], Step(s, e).waiters[loc];
            r == q || (r == q + [e.task] && e.task !in q) || (q != [] && r == q[1..]) || r == Skip(q, e.task)
  {
    hide Skip;
    assert TaskOk(s, e.task) && LockOk(s, loc);
  }

  lemma StepAhead(s: Locks, e: Event, loc: int, a: int, x: int)
    requires Inv(s) && Enabled(s, e) && loc in s.waiters && loc in Step(s, e).waiters
    requires a in s.waiters[loc] && Ahead(Step(s, e).waiters[loc], x, a)
    ensures Ahead(s.waiters[loc], x, a)
  {
    hide Inv, Enabled, Step, Skip;
    QueueStep(s, e, loc);
    var q, r := s.waiters[loc], Step(s, e).waiters[loc];
    var i, j :| 0 <= i < j < |r| && r[i] == x && r[j] == a;
    if r == q {
    } else if r == q + [e.task] {
      assert j < |q|;
      assert q[i] == x && q[j] == a;
    } else if q != [] && r == q[1..] {
      assert q[i + 1] == x && q[j + 1] == a;
    } else {
      SkipAhead(q, e.task, x, a);
    }
  }

  /** Task a waits for the lock in every state of the run. */
  ghost predicate KeepsWaiting(s: Locks, es: seq<Event>, loc: int, a: int)
    decreases |es|
  {
    && loc in s.waiters && a in s.waiters[loc]
    && (es != [] ==> KeepsWaiting(Step(s, es[0]), es[1..], loc, a))
  }

  /** Nobody gets ahead of a waiter, over any run in which it keeps waiting. */
  lemma {:induction false} NeverOvertaken(s: Locks, es: seq<Event>, loc: int, a: int, x: int)
    requires Inv(s) && Feasible(s, es) && KeepsWaiting(s, es, loc, a)
    ensures var r := Run(s, es);
            loc in r.waiters && a in r.waiters[loc] && (Ahead(r.waiters[loc], x, a) ==> Ahead(s.waiters[loc], x, a))
    decreases |es|
  {
    hide Inv, Enabled, Step, Ahead;
    if es != [] {
      var t := Step(s, es[0]);
      StepInv(s, es[0]);
      NeverOvertaken(t, es[1..], loc, a, x);
      if Ahead(Run(s, es).waiters[loc], x, a) { StepAhead(s, es[0], loc, a, x); }
    }
  }

  /** So two waiters of a lock keep their order over any run, for as long as the first
      of them keeps waiting. */
  lemma QueueOrder(s: Locks, es: seq<Event>, loc: int, a: int, b: int)
    requires Inv(s) && Feasible(s, es) && KeepsWaiting(s, es, loc, a)
    requires Ahead(s.waiters[loc], a, b)
    ensures var r := Run(s, es); loc in r.waiters && (b in r.waiters[loc] ==> Ahead(r.waiters[loc], a, b))
  {
    assert loc in s.waiters;
    hide Run, Feasible, KeepsWaiting, Ahead;
    var r := Run(s, es);
    RunInv(s, es);
    NeverOvertaken(s, es, loc, a, b);
    assert LockOk(s, loc) && LockOk(r, loc);
    AheadBoth(s.waiters[loc], a, b);
    if b in r.waiters[loc] {
      OneOrder(s.waiters[loc], a, b);
      OneOrder(r.waiters[loc], a, b);
    }
  }

  lemma AheadBoth(q: seq<int>, a: int, b: int)
    requires Ahead(q, a, b) && Distinct(q)
    ensures a in q && b in q && a != b
  {
  }

  // ---- the flags and rings, changed in place ----

  class KernelLock {
    var waiters: map<int, seq<int>>
    var klocked: set<int>
    var klockwait: set<int>
    ghost var pcs: map<int, Pc>

    ghost function State(): Locks
      reads this
    {
      Locks(waiters, klocked, klockwait, pcs)
    }

    constructor ()
      ensures State() == Unlocked() && Inv(State())
    {
      UnlockedInv();
      waiters, klocked, klockwait, pcs := map[], {}, {}, map[];
    }

    /** One pass through the region of LockOBJ by the running task. */
    method LockPass(ctxtsk: int, loc: int) returns (locked: bool)
      requires Inv(State()) && PcOf(State(), ctxtsk) == Trying(loc) && ctxtsk !in klockwait
      modifies this
      ensures State() == Step(old(State()), Try(ctxtsk)) && Inv(State())
      ensures locked <==> Owner(State(), ctxtsk, loc)
      ensures locked <==> forall x :: x != ctxtsk ==> !Owner(old(State()), x, loc)
      ensures !locked ==>
                && loc in old(waiters) && waiters == old(waiters)[loc := old(waiters)[loc] + [ctxtsk]]
                && klocked == old(klocked) && ctxtsk in klockwait
    {
      TryTakes(State(), ctxtsk, loc);
      StepInv(State(), Try(ctxtsk));
      assert TaskOk(State(), ctxtsk);
      locked := ctxtsk in klocked;
      if !locked {
        if loc !in waiters {
          waiters := waiters[loc := []];
          locked, klocked := true, klocked + {ctxtsk};
        } else {
          klockwait := klockwait + {ctxtsk};
          waiters := waiters[loc := waiters[loc] + [ctxtsk]];
        }
      }
      if locked { pcs := pcs[ctxtsk := Held(loc)]; }
    }

    method UnlockOBJ(ctxtsk: int, loc: int)
      requires Inv(State()) && PcOf(State(), ctxtsk) == Held(loc)
      modifies this
      ensures State() == Step(old(State()), Unlock(ctxtsk)) && Inv(State())
      ensures loc in old(waiters) && !Owner(State(), ctxtsk, loc)
      ensures if old(waiters)[loc] == [] then waiters == old(waiters) - {loc}
              else waiters == old(waiters)[loc := old(waiters)[loc][1..]] && Owner(State(), old(waiters)[loc][0], loc)
    {
      StepInv(State(), Unlock(ctxtsk));
      HandOff(State(), ctxtsk);
      klocked := klocked - {ctxtsk};
      if waiters[loc] == [] {
        waiters := waiters - {loc};
      } else {
        var tcb := waiters[loc][0];
        waiters := waiters[loc := waiters[loc][1..]];
        klockwait := klockwait - {tcb};
        klocked := klocked + {tcb};
      }
      pcs := pcs[ctxtsk := Idle];
    }
  }
}

/** Extended SVC locks (kernel/tkernel/src/klock.c:90-187): each task's locks are a
    stack, linked through the locks themselves. */
module SvcLock {
  import opened Queue
  import opened WaitQueue

  const NULL := 0

  datatype Pc = Idle | Trying(loc: int)

  /** svclocked is the top of a task's list, locklist what is below a lock; stacks is
      the same in one piece. */
  datatype Locks = Locks(waiters: map<int, seq<int>>, klockwait: set<int>, svclocked: map<int, int>,
                         locklist: map<int, int>, stacks: map<int, seq<int>>, pcs: map<int, Pc>)

  function PcOf(s: Locks, t: int): Pc {
    if t in s.pcs then s.pcs[t] else Idle
  }

  function Top(s: Locks, t: int): int {
    if t in s.svclocked then s.svclocked[t] else NULL
  }

  function Below(locklist: map<int, int>, loc: int): int {
    if loc in locklist then locklist[loc] else NULL
  }

  function Stack(s: Locks, t: int): seq<int> {
    if t in s.stacks then s.stacks[t] else []
  }

  /** The list from top on is this stack. */
  predicate Chain(locklist: map<int, int>, top: int, stack: seq<int>)
    decreases |stack|
  {
    if stack == [] then top == NULL
    else top == stack[0] && top != NULL && Chain(locklist, Below(locklist, top), stack[1..])
  }

  lemma {:induction false} ChainFrame(locklist: map<int, int>, locklist2: map<int, int>, top: int, stack: seq<int>)
    requires Chain(locklist, top, stack) && forall l :: l in stack ==> Below(locklist2, l) == Below(locklist, l)
    ensures Chain(locklist2, top, stack)
    decreases |stack|
  {
    if stack != [] { ChainFrame(locklist, locklist2, Below(locklist, top), stack[1..]); }
  }

  function Put(s: Locks, t: int, p: Pc): Locks {
    s.(pcs := s.pcs[t := p])
  }

  function Push(s: Locks, t: int, loc: int): Locks {
    s.(locklist := s.locklist[loc := Top(s, t)], svclocked := s.svclocked[t := loc],
       stacks := s.stacks[t := [loc] + Stack(s, t)])
  }

  function Pop(s: Locks, t: int): Locks {
    s.(svclocked := s.svclocked[t := Below(s.locklist, Top(s, t))],
       stacks := s.stacks[t := if Stack(s, t) == [] then [] else Stack(s, t)[1..]])
  }

  /** The region of LockSVC. */
  function Attempt(s: Locks, t: int, loc: int): Locks {
    if Top(s, t) == loc then s
    else if loc !in s.waiters then Push(s.(waiters := s.waiters[loc := []]), t, loc)
    else s.(waiters := s.waiters[loc := s.waiters[loc] + [t]], klockwait := s.klockwait + {t})
  }

  /** UnlockSVC by task t, which holds a lock. */
  function Release(s: Locks, t: int): Locks {
    var loc := Top(s, t);
    var p := Pop(s, t);
    if loc !in s.waiters || s.waiters[loc] == [] then p.(waiters := p.waiters - {loc})
    else
      var tcb := s.waiters[loc][0];
      Push(p.(waiters := p.waiters[loc := p.waiters[loc][1..]], klockwait := p.klockwait - {tcb}), tcb, loc)
  }

  function Removed(s: Locks, t: int, loc: int): Locks {
    s.(waiters := if loc in s.waiters then s.waiters[loc := Skip(s.waiters[loc], t)] else s.waiters,
       klockwait := s.klockwait - {t})
  }

  /** AllUnlockSVC, whose parameter plays no part: it empties the list of the running task. */
  function AllUnlock(s: Locks, ctxtsk: int, n: nat): Locks
    decreases n
  {
    if n == 0 then s else AllUnlock(Release(s, ctxtsk), ctxtsk, n - 1)
  }

  datatype Event = Call(task: int, loc: int) | Try(task: int) | Unlock(task: int) | Free(task: int) | Exit(task: int)

  /** No task locks what it holds; a waiting task does not run. */
  predicate Enabled(s: Locks, e: Event) {
    match e
    case Call(t, loc) => PcOf(s, t).Idle? && loc != NULL && loc !in Stack(s, t)
    case Try(t) => PcOf(s, t).Trying? && t !in s.klockwait
    case Unlock(t) => PcOf(s, t).Idle? && Stack(s, t) != []
    case Free(t) => t in s.klockwait
    case Exit(t) => PcOf(s, t).Idle?
  }

  function Step(s: Locks, e: Event): Locks {
    match e
    case Call(t, loc) => Put(s, t, Trying(loc))
    case Try(t) =>
      if !PcOf(s, t).Trying? then s
      else
        var r := Attempt(s, t, PcOf(s, t).loc);
        if Top(r, t) == PcOf(s, t).loc then Put(r, t, Idle) else r
    case Unlock(t) => Release(s, t)
    case Free(t) => if !PcOf(s, t).Trying? then s else Removed(s, t, PcOf(s, t).loc)
    case Exit(t) => AllUnlock(s, t, |Stack(s, t)|)
  }

  ghost predicate TaskOk(s: Locks, t: int) {
    && Chain(s.locklist, Top(s, t), Stack(s, t)) && Distinct(Stack(s, t))
    && (t in s.klockwait ==> PcOf(s, t).Trying? && PcOf(s, t).loc in s.waiters && t in s.waiters[PcOf(s, t).loc])
    && (PcOf(s, t).Trying? ==>
          && PcOf(s, t).loc != NULL
          && (PcOf(s, t).loc in Stack(s, t) ==> Top(s, t) == PcOf(s, t).loc && t !in s.klockwait))
  }

  predicate Holds(s: Locks, t: int, loc: int) {
    loc in Stack(s, t)
  }

  /** wtskq.next is NULL exactly when nobody holds the lock, and no two tasks do. */
  ghost predicate HeldOk(s: Locks, loc: int) {
    && (loc in s.waiters <==> exists t :: Holds(s, t, loc))
    && (forall t, t2 {:trigger Holds(s, t, loc), Holds(s, t2, loc)} ::
          Holds(s, t, loc) && Holds(s, t2, loc) ==> t == t2)
  }

  ghost predicate QueueOk(s: Locks, loc: int) {
    loc in s.waiters ==>
      && Distinct(s.waiters[loc])
      && forall t :: t in s.waiters[loc] ==> t in s.klockwait && PcOf(s, t) == Trying(loc)
  }

  ghost predicate LockOk(s: Locks, loc: int) {
    HeldOk(s, loc) && QueueOk(s, loc)
  }

  ghost predicate Inv(s: Locks) {
    && (forall t {:trigger TaskOk(s, t)} :: TaskOk(s, t))
    && (forall loc {:trigger LockOk(s, loc)} :: LockOk(s, loc))
  }

  lemma HolderFacts(s: Locks, loc: int, t: int, x: int)
    requires LockOk(s, loc)
    ensures loc in Stack(s, x) ==> loc in s.waiters
    ensures loc in Stack(s, t) && loc in Stack(s, x) ==> t == x
  {
    assert Holds(s, t, loc) == (loc in Stack(s, t)) && Holds(s, x, loc) == (loc in Stack(s, x));
  }

  /** What the top of the list is. */
  lemma TopOfStack(s: Locks, t: int)
    requires Chain(s.locklist, Top(s, t), Stack(s, t))
    ensures Stack(s, t) == [] <==> Top(s, t) == NULL
    ensures Stack(s, t) != [] ==>
              && Top(s, t) == Stack(s, t)[0]
              && Chain(s.locklist, Below(s.locklist, Top(s, t)), Stack(s, t)[1..])
  {
  }

  lemma PushTask(s: Locks, t: int, loc: int, x: int)
    requires Chain(s.locklist, Top(s, x), Stack(s, x)) && Chain(s.locklist, Top(s, t), Stack(s, t)) && loc != NULL
    requires loc !in Stack(s, x) && loc !in Stack(s, t) && Distinct(Stack(s, x)) && Distinct(Stack(s, t))
    ensures var r := Push(s, t, loc);
            && Stack(r, x) == (if x == t then [loc] + Stack(s, t) else Stack(s, x))
            && Top(r, x) == (if x == t then loc else Top(s, x))
            && Chain(r.locklist, Top(r, x), Stack(r, x)) && Distinct(Stack(r, x))
  {
    var r := Push(s, t, loc);
    ChainFrame(s.locklist, r.locklist, Top(s, x), Stack(s, x));
    ChainFrame(s.locklist, r.locklist, Top(s, t), Stack(s, t));
    assert ([loc] + Stack(s, t))[1..] == Stack(s, t);
  }

  lemma TryTask(s: Locks, t: int, x: int)
    requires Inv(s) && Enabled(s, Try(t))
    ensures TaskOk(Step(s, Try(t)), x)
  {
    hide Skip, Chain, Distinct;
    var loc := PcOf(s, t).loc;
    assert TaskOk(s, x) && TaskOk(s, t) && LockOk(s, loc);
    TopOfStack(s, t);
    HolderFacts(s, loc, t, x);
    HolderFacts(s, loc, x, t);
    if loc !in s.waiters {
      TryPush(s, t, loc, x);
    }
  }

  lemma TryPush(s: Locks, t: int, loc: int, x: int)
    requires TaskOk(s, x) && TaskOk(s, t) && PcOf(s, t) == Trying(loc) && Top(s, t) != loc && loc !in s.waiters
    requires loc !in Stack(s, x) && loc !in Stack(s, t)
    ensures TaskOk(Step(s, Try(t)), x)
  {
    hide Chain, Distinct;
    PushTask(s.(waiters := s.waiters[loc := []]), t, loc, x);
  }

  lemma TryLock(s: Locks, t: int, l: int)
    requires Inv(s) && Enabled(s, Try(t))
    ensures LockOk(Step(s, Try(t)), l)
  {
    hide Step, HeldOk, QueueOk, Enabled;
    TryHeld(s, t, l);
    TryQueue(s, t, l);
  }

  lemma TryHeld(s: Locks, t: int, l: int)
    requires Inv(s) && Enabled(s, Try(t))
    ensures HeldOk(Step(s, Try(t)), l)
  {
    hide Skip, Chain, Distinct, HeldOk, QueueOk;
    var r, loc := Step(s, Try(t)), PcOf(s, t).loc;
    assert LockOk(s, l) && LockOk(s, loc) && TaskOk(s, t);
    if Top(s, t) != loc && loc !in s.waiters {
      PushHolders(s.(waiters := s.waiters[loc := []]), t, loc);
      MoreHolders(s, r, t, loc, l);
    } else {
      TopOfStack(s, t);
      SameHolders(s, r, l);
    }
  }

  lemma TryQueue(s: Locks, t: int, l: int)
    requires Inv(s) && Enabled(s, Try(t))
    ensures QueueOk(Step(s, Try(t)), l)
  {
    hide Skip, Chain, HeldOk, Stack;
    var loc := PcOf(s, t).loc;
    assert LockOk(s, l) && LockOk(s, loc) && TaskOk(s, t);
    TopOfStack(s, t);
  }

  lemma SameHolders(s: Locks, r: Locks, l: int)
    requires HeldOk(s, l) && r.stacks == s.stacks && (l in s.waiters <==> l in r.waiters)
    ensures HeldOk(r, l)
  {
    assert forall x {:trigger Holds(r, x, l)} :: Holds(r, x, l) == Holds(s, x, l);
    if exists t :: Holds(s, t, l) {
      var t :| Holds(s, t, l);
      assert Holds(r, t, l);
    }
  }

  lemma PushHolders(s: Locks, t: int, loc: int)
    ensures forall x, l {:trigger Holds(Push(s, t, loc), x, l)} ::
              Holds(Push(s, t, loc), x, l) <==> Holds(s, x, l) || (x == t && l == loc)
  {
  }

  /** Task t comes to hold loc, which was free. */
  lemma MoreHolders(s: Locks, r: Locks, t: int, loc: int, l: int)
    requires HeldOk(s, l) && HeldOk(s, loc) && loc !in s.waiters && r.waiters.Keys == s.waiters.Keys + {loc}
    requires forall x, k {:trigger Holds(r, x, k)} :: Holds(r, x, k) <==> Holds(s, x, k) || (x == t && k == loc)
    ensures HeldOk(r, l)
  {
    hide Holds;
    assert Holds(r, t, loc);
    if l in s.waiters {
      var x :| Holds(s, x, l);
      assert Holds(r, x, l);
    }
  }

  /** Who holds what after UnlockSVC. */
  lemma ReleaseStacks(s: Locks, t: int)
    requires Inv(s) && Stack(s, t) != []
    ensures var r, loc := Release(s, t), Stack(s, t)[0];
            && Top(s, t) == loc && loc in s.waiters
            && forall x {:trigger Stack(r, x)} :: Stack(r, x) ==
                 if x == t && !(s.waiters[loc] != [] && s.waiters[loc][0] == t) then Stack(s, t)[1..]
                 else if s.waiters[loc] != [] && x == s.waiters[loc][0]
                     then [loc] + (if x == t then Stack(s, t)[1..] else Stack(s, x))
                 else Stack(s, x)
  {
    assert TaskOk(s, t) && LockOk(s, Stack(s, t)[0]);
    HolderFacts(s, Stack(s, t)[0], t, t);
    TopOfStack(s, t);
  }

  /** The task that unlocks is not one of those that wait. */
  lemma NotOwnWaiter(s: Locks, t: int)
    requires Inv(s) && t !in s.klockwait && Stack(s, t) != []
    ensures var loc := Stack(s, t)[0];
            && loc in s.waiters && t !in s.waiters[loc]
            && (s.waiters[loc] != [] ==>
                  var w := s.waiters[loc][0];
                  w in s.klockwait && w != t && PcOf(s, w) == Trying(loc) && loc !in Stack(s, w))
  {
    var loc := Stack(s, t)[0];
    assert LockOk(s, loc) && loc in Stack(s, t);
    HolderFacts(s, loc, t, t);
    if s.waiters[loc] != [] {
      assert s.waiters[loc][0] in s.waiters[loc];
      assert TaskOk(s, s.waiters[loc][0]);
    }
  }

  lemma ReleaseTask(s: Locks, t: int, x: int)
    requires Inv(s) && t !in s.klockwait && Stack(s, t) != []
    requires PcOf(s, t).Idle?
    ensures TaskOk(Release(s, t), x)
  {
    hide Skip, Chain, LockOk;
    var r, loc, p := Release(s, t), Stack(s, t)[0], Pop(s, t);
    NotOwnWaiter(s, t);
    assert TaskOk(s, x) && TaskOk(s, t);
    assert LockOk(s, loc);
    HolderFacts(s, loc, t, x);
    TopOfStack(s, t);
    assert loc !in Stack(s, t)[1..];
    assert Stack(p, x) == if x == t then Stack(s, t)[1..] else Stack(s, x);
    assert Top(p, x) == if x == t then Below(s.locklist, loc) else Top(s, x);
    if s.waiters[loc] != [] {
      var tcb := s.waiters[loc][0];
      assert TaskOk(s, tcb);
      var p2 := p.(waiters := p.waiters[loc := p.waiters[loc][1..]], klockwait := p.klockwait - {tcb});
      assert Stack(p2, tcb) == Stack(s, tcb) && Top(p2, tcb) == Top(s, tcb);
      PushTask(p2, tcb, loc, x);
      WaiterOk(s, r, t, loc, x);
    } else {
      assert x in r.klockwait ==> x in s.klockwait && PcOf(s, x).loc != loc;
    }
  }

  lemma WaiterOk(s: Locks, r: Locks, t: int, loc: int, x: int)
    requires Inv(s) && loc in s.waiters && s.waiters[loc] != [] && r.pcs == s.pcs
    requires r.waiters == s.waiters[loc := s.waiters[loc][1..]] && r.klockwait == s.klockwait - {s.waiters[loc][0]}
    ensures x in r.klockwait ==> PcOf(r, x).Trying? && PcOf(r, x).loc in r.waiters && x in r.waiters[PcOf(r, x).loc]
  {
    hide Chain, LockOk, Distinct;
    assert TaskOk(s, x);
    if x in r.klockwait { WaiterStays(s, loc, x); }
  }

  /** A task that still waits for loc is behind the first. */
  lemma WaiterStays(s: Locks, loc: int, x: int)
    requires Inv(s) && loc in s.waiters && s.waiters[loc] != [] && x in s.klockwait && x != s.waiters[loc][0]
    ensures PcOf(s, x) == Trying(loc) ==> x in s.waiters[loc][1..]
  {
    assert TaskOk(s, x);
    if PcOf(s, x) == Trying(loc) {
      var i :| 0 <= i < |s.waiters[loc]| && s.waiters[loc][i] == x;
      assert s.waiters[loc][1..][i - 1] == x;
    }
  }

  lemma ReleaseHolders(s: Locks, t: int)
    requires Inv(s) && t !in s.klockwait && Stack(s, t) != []
    ensures var r, loc := Release(s, t), Stack(s, t)[0];
            && loc in s.waiters && Holds(s, t, loc)
            && forall x, l {:trigger Holds(r, x, l)} :: Holds(r, x, l) <==>
                 if l == loc then s.waiters[loc] != [] && x == s.waiters[loc][0] else Holds(s, x, l)
  {
    hide Skip, Chain;
    var r, loc := Release(s, t), Stack(s, t)[0];
    NotOwnWaiter(s, t);
    ReleaseStacks(s, t);
    assert TaskOk(s, t) && LockOk(s, loc) && Holds(s, t, loc);
    assert forall l :: l in Stack(s, t) <==> l == loc || l in Stack(s, t)[1..];
    assert loc !in Stack(s, t)[1..];
    forall x, l
      ensures Holds(r, x, l) <==> if l == loc then s.waiters[loc] != [] && x == s.waiters[loc][0] else Holds(s, x, l)
    {
      assert x != t ==> !Holds(s, x, loc);
    }
  }

  lemma ReleaseLock(s: Locks, t: int, l: int)
    requires Inv(s) && t !in s.klockwait && Stack(s, t) != []
    ensures LockOk(Release(s, t), l)
  {
    hide Skip, Chain, Holds, Release, HeldOk, QueueOk;
    ReleaseHolders(s, t);
    ReleaseHeld(s, Release(s, t), t, l);
    ReleaseQueue(s, t, l);
  }

  lemma ReleaseHeld(s: Locks, r: Locks, t: int, l: int)
    requires Inv(s) && Stack(s, t) != [] && t !in s.klockwait && r == Release(s, t)
    requires var loc := Stack(s, t)[0];
             && loc in s.waiters
             && forall x, l {:trigger Holds(r, x, l)} :: Holds(r, x, l) <==>
                 if l == loc then s.waiters[loc] != [] && x == s.waiters[loc][0] else Holds(s, x, l)
    ensures HeldOk(r, l)
  {
    hide Skip, Chain, Holds, TaskOk;
    var loc := Stack(s, t)[0];
    assert LockOk(s, l);
    ReleaseKeys(s, t);
    hide Release;
    if l == loc {
      assert s.waiters[loc] != [] ==> Holds(r, s.waiters[loc][0], l);
    } else if l in s.waiters {
      var x :| Holds(s, x, l);
      assert Holds(r, x, l);
    }
  }

  lemma ReleaseKeys(s: Locks, t: int)
    requires Inv(s) && Stack(s, t) != [] && t !in s.klockwait
    ensures var r, loc := Release(s, t), Stack(s, t)[0];
            && Top(s, t) == loc && loc in s.waiters && r.pcs == s.pcs
            && (forall l :: l != loc ==> (l in r.waiters <==> l in s.waiters))
            && (forall l :: l in r.waiters && l != loc ==> r.waiters[l] == s.waiters[l])
            && (loc in r.waiters <==> s.waiters[loc] != [])
            && (s.waiters[loc] != [] ==>
                  && r.waiters[loc] == s.waiters[loc][1..]
                  && r.klockwait == s.klockwait - {s.waiters[loc][0]})
            && (s.waiters[loc] == [] ==> r.klockwait == s.klockwait)
  {
    hide Skip, Chain;
    NotOwnWaiter(s, t);
    assert TaskOk(s, t);
    TopOfStack(s, t);
  }

  lemma ReleaseQueue(s: Locks, t: int, l: int)
    requires Inv(s) && t !in s.klockwait && Stack(s, t) != []
    ensures QueueOk(Release(s, t), l)
  {
    hide Skip, Chain, Release, HeldOk, TaskOk;
    var r, loc := Release(s, t), Stack(s, t)[0];
    ReleaseKeys(s, t);
    assert LockOk(s, l) && LockOk(s, loc);
    var q := s.waiters[loc];
    if q != [] {
      assert q[0] in q;
      if l == loc {
        forall x | x in q[1..] ensures x in r.klockwait && PcOf(r, x) == Trying(l) {
          var i :| 0 <= i < |q[1..]| && q[1..][i] == x;
          assert q[i + 1] == x && q[0] != q[i + 1];
        }
      }
    }
  }

  lemma ReleaseInv(s: Locks, t: int)
    requires Inv(s) && PcOf(s, t).Idle? && Stack(s, t) != []
    ensures Inv(Release(s, t)) && PcOf(Release(s, t), t).Idle?
  {
    hide LockOk, Release;
    assert TaskOk(s, t);
    assert t !in s.klockwait;
    forall x ensures TaskOk(Release(s, t), x) { ReleaseTask(s, t, x); }
    forall l ensures LockOk(Release(s, t), l) { ReleaseLock(s, t, l); }
    ReleasePc(s, t);
  }

  lemma ReleasePc(s: Locks, t: int)
    ensures Release(s, t).pcs == s.pcs
  {
  }

  lemma {:induction false} AllUnlockInv(s: Locks, t: int, n: nat)
    requires Inv(s) && PcOf(s, t).Idle? && n <= |Stack(s, t)|
    ensures Inv(AllUnlock(s, t, n)) && PcOf(AllUnlock(s, t, n), t).Idle?
    ensures Stack(AllUnlock(s, t, n), t) == Stack(s, t)[n..]
    ensures forall x, l :: x != t && l in Stack(s, x) ==> l in Stack(AllUnlock(s, t, n), x)
    decreases n
  {
    hide Inv, Release, Stack, PcOf;
    if n > 0 {
      ReleaseInv(s, t);
      ReleaseOne(s, t);
      AllUnlockInv(Release(s, t), t, n - 1);
      assert Stack(s, t)[1..][n - 1..] == Stack(s, t)[n..];
    }
  }

  /** One UnlockSVC takes one lock from its task, and none from any other. */
  lemma ReleaseOne(s: Locks, t: int)
    requires Inv(s) && PcOf(s, t).Idle? && Stack(s, t) != []
    ensures Stack(Release(s, t), t) == Stack(s, t)[1..]
    ensures forall x :: x != t ==> |Stack(Release(s, t), x)| >= |Stack(s, x)|
    ensures forall x, l :: x != t && l in Stack(s, x) ==> l in Stack(Release(s, t), x)
  {
    hide Release;
    assert TaskOk(s, t);
    NotOwnWaiter(s, t);
    ReleaseStacks(s, t);
  }

  lemma FreeTask(s: Locks, t: int, x: int)
    requires Inv(s) && t in s.klockwait
    ensures TaskOk(Step(s, Free(t)), x)
  {
    hide Chain, Distinct, Skip;
    assert TaskOk(s, x) && TaskOk(s, t);
  }

  lemma FreeLock(s: Locks, t: int, l: int)
    requires Inv(s) && t in s.klockwait
    ensures LockOk(Step(s, Free(t)), l)
  {
    hide Chain, Skip, Stack;
    var r := Step(s, Free(t));
    assert TaskOk(s, t) && LockOk(s, l);
    if l in s.waiters { SkipDistinct(s.waiters[l], t); }
    SameHolders(s, r, l);
  }

  lemma StepInv(s: Locks, e: Event)
    requires Inv(s) && Enabled(s, e)
    ensures Inv(Step(s, e))
  {
    hide Attempt, Release, Removed, AllUnlock, Stack, TaskOk, LockOk, Step;
    match e {
      case Call(t, loc) => CallInv(s, t, loc);
      case Try(t) =>
        forall x ensures TaskOk(Step(s, e), x) { TryTask(s, t, x); }
        forall l ensures LockOk(Step(s, e), l) { TryLock(s, t, l); }
      case Unlock(t) => ReleaseInv(s, t); UnlockStep(s, t);
      case Free(t) =>
        forall x ensures TaskOk(Step(s, e), x) { FreeTask(s, t, x); }
        forall l ensures LockOk(Step(s, e), l) { FreeLock(s, t, l); }
      case Exit(t) => AllUnlockInv(s, t, |Stack(s, t)|); UnlockStep(s, t);
    }
  }

  lemma UnlockStep(s: Locks, t: int)
    ensures Step(s, Unlock(t)) == Release(s, t) && Step(s, Exit(t)) == AllUnlock(s, t, |Stack(s, t)|)
  {
  }

  lemma CallInv(s: Locks, t: int, loc: int)
    requires Inv(s) && Enabled(s, Call(t, loc))
    ensures Inv(Step(s, Call(t, loc)))
  {
    hide Chain, Distinct;
    var r := Step(s, Call(t, loc));
    assert TaskOk(s, t);
    forall x ensures TaskOk(r, x) { assert TaskOk(s, x); }
    forall l ensures LockOk(r, l) {
      assert LockOk(s, l);
      SameHolders(s, r, l);
    }
  }

  function Unlocked(): Locks {
    Locks(map[], {}, map[], map[], map[], map[])
  }

  ghost predicate Feasible(s: Locks, es: seq<Event>)
    decreases |es|
  {
    es != [] ==> Enabled(s, es[0]) && Feasible(Step(s, es[0]), es[1..])
  }

  function Run(s: Locks, es: seq<Event>): Locks
    decreases |es|
  {
    if es == [] then s else Run(Step(s, es[0]), es[1..])
  }

  lemma {:induction false} RunInv(s: Locks, es: seq<Event>)
    requires Inv(s) && Feasible(s, es)
    ensures Inv(Run(s, es))
    decreases |es|
  {
    hide Inv, Enabled, Step;
    if es != [] {
      StepInv(s, es[0]);
      RunInv(Step(s, es[0]), es[1..]);
    }
  }

  lemma UnlockedInv()
    ensures Inv(Unlocked())
  {
    hide Distinct;
    EmptyDistinct();
    forall l ensures LockOk(Unlocked(), l) {
      assert forall x {:trigger Holds(Unlocked(), x, l)} :: !Holds(Unlocked(), x, l);
    }
  }

  lemma EmptyDistinct()
    ensures Distinct<int>([])
  {
  }

  /** Over any interleaving: the lists of the tasks are disjoint stacks, each lock has at
      most one holder, and wtskq.next is NULL exactly when it has none. */
  lemma StacksDisjoint(es: seq<Event>, t: int, t2: int, loc: int)
    requires Feasible(Unlocked(), es)
    ensures var s := Run(Unlocked(), es);
            && Chain(s.locklist, Top(s, t), Stack(s, t)) && Distinct(Stack(s, t))
            && (loc in Stack(s, t) && loc in Stack(s, t2) ==> t == t2)
            && (loc !in s.waiters <==> forall x :: loc !in Stack(s, x))
  {
    hide Feasible, Run, Stack, Chain, QueueOk, Distinct;
    UnlockedInv();
    RunInv(Unlocked(), es);
    var s := Run(Unlocked(), es);
    assert TaskOk(s, t) && LockOk(s, loc);
    assert Holds(s, t, loc) == (loc in Stack(s, t)) && Holds(s, t2, loc) == (loc in Stack(s, t2));
    assert forall x :: Holds(s, x, loc) == (loc in Stack(s, x));
  }

  /** An attempt gets the lock if and only if no other task holds it; it is then on top of
      the caller's list. Otherwise the caller is the last to wait for it. No other task
      gains or loses a lock. */
  lemma TryTakes(s: Locks, t: int, loc: int)
    requires Inv(s) && PcOf(s, t) == Trying(loc) && t !in s.klockwait
    ensures var r := Step(s, Try(t));
            && (loc in Stack(r, t) <==> forall x :: x != t ==> loc !in Stack(s, x))
            && (loc in Stack(r, t) ==>
                  Stack(r, t) == (if loc in Stack(s, t) then Stack(s, t) else [loc] + Stack(s, t)) && PcOf(r, t).Idle?)
            && (loc !in Stack(r, t) ==>
                  && loc in s.waiters && loc in r.waiters && r.waiters[loc] == s.waiters[loc] + [t]
                  && t in r.klockwait && Stack(r, t) == Stack(s, t))
            && (forall x :: x != t ==> Stack(r, x) == Stack(s, x))
  {
    hide Chain, Skip, Distinct;
    assert TaskOk(s, t) && LockOk(s, loc);
    TopOfStack(s, t);
    assert loc in Stack(s, t) <==> Top(s, t) == loc;
    if loc in Stack(s, t) {
      forall x | x != t ensures loc !in Stack(s, x) { HolderFacts(s, loc, t, x); }
    } else if loc in s.waiters {
      var x :| Holds(s, x, loc);
      assert loc in Stack(s, x);
    } else {
      forall x ensures loc !in Stack(s, x) { HolderFacts(s, loc, t, x); }
    }
  }

  /** A wait that is ended without the lock: just that task leaves the queue. */
  lemma EndedWait(s: Locks, t: int, i: nat)
    requires Inv(s) && t in s.klockwait && PcOf(s, t).Trying?
    requires var loc := PcOf(s, t).loc; loc in s.waiters && i < |s.waiters[loc]| && s.waiters[loc][i] == t
    ensures var loc := PcOf(s, t).loc;
            Step(s, Free(t)) == s.(waiters := s.waiters[loc := RemoveAt(s.waiters[loc], i)],
                                   klockwait := s.klockwait - {t})
  {
    hide Skip, RemoveAt, Chain;
    assert TaskOk(s, t) && LockOk(s, PcOf(s, t).loc);
    SkipAt(s.waiters[PcOf(s, t).loc], i);
  }

  /** Unlocking hands the top lock to its oldest waiter, in the same step. */
  lemma HandOff(s: Locks, t: int)
    requires Inv(s) && PcOf(s, t).Idle? && Stack(s, t) != []
    ensures var loc, r := Stack(s, t)[0], Release(s, t);
            && loc in s.waiters && Stack(r, t) == Stack(s, t)[1..]
            && (s.waiters[loc] != [] ==>
                  var tcb := s.waiters[loc][0];
                  && Stack(r, tcb) == [loc] + Stack(s, tcb) && tcb !in r.klockwait
                  && loc in r.waiters && r.waiters[loc] == s.waiters[loc][1..])
            && (s.waiters[loc] == [] ==> loc !in r.waiters)
  {
    hide Release, Chain;
    assert TaskOk(s, t);
    NotOwnWaiter(s, t);
    ReleaseStacks(s, t);
    ReleaseKeys(s, t);
  }

  /** The part of _ter_tsk that unlocks: ctxtsk ends tcb. */
  function Unlocking(s: Locks, ctxtsk: int, tcb: int): Locks {
    if Stack(s, tcb) == [] then s else AllUnlock(s, ctxtsk, |Stack(s, ctxtsk)|)
  }

  /** A task that ends with locks leaves them free exactly when it ends itself: the
      locks released are those of the running task. */
  lemma EndingFreesOwnLocks(s: Locks, ctxtsk: int, tcb: int)
    requires Inv(s) && PcOf(s, ctxtsk).Idle? && Stack(s, tcb) != []
    ensures Stack(Unlocking(s, ctxtsk, tcb), tcb) == [] <==> tcb == ctxtsk
  {
    hide Inv, AllUnlock, Stack, PcOf;
    AllUnlockInv(s, ctxtsk, |Stack(s, ctxtsk)|);
    var l := Stack(s, tcb)[0];
    assert l in Stack(s, tcb);
    if tcb != ctxtsk { assert l in Stack(AllUnlock(s, ctxtsk, |Stack(s, ctxtsk)|), tcb); }
  }

  // ---- the lists and rings, changed in place ----

  class SvcLocks {
    var waiters: map<int, seq<int>>
    var klockwait: set<int>
    var svclocked: map<int, int>
    var locklist: map<int, int>
    ghost var stacks: map<int, seq<int>>
    ghost var pcs: map<int, Pc>

    ghost function State(): Locks
      reads this
    {
      Locks(waiters, klockwait, svclocked, locklist, stacks, pcs)
    }

    constructor ()
      ensures State() == Unlocked() && Inv(State())
    {
      UnlockedInv();
      waiters, klockwait, svclocked, locklist, stacks, pcs := map[], {}, map[], map[], map[], map[];
    }

    /** One pass through the region of LockSVC by the running task. */
    method LockPass(ctxtsk: int, loc: int) returns (locked: bool)
      requires Inv(State()) && PcOf(State(), ctxtsk) == Trying(loc) && ctxtsk !in klockwait
      modifies this
      ensures State() == Step(old(State()), Try(ctxtsk)) && Inv(State())
      ensures locked <==> Stack(State(), ctxtsk) != [] && Stack(State(), ctxtsk)[0] == loc
      ensures locked <==> forall x :: x != ctxtsk ==> loc !in Stack(old(State()), x)
      ensures !locked ==>
                && loc in old(waiters) && waiters == old(waiters)[loc := old(waiters)[loc] + [ctxtsk]]
                && stacks == old(stacks) && ctxtsk in klockwait
    {
      hide Inv;
      ghost var s := State();
      StepInv(s, Try(ctxtsk));
      TryTop(s, ctxtsk, loc);
      TryTakes(s, ctxtsk, loc);
      var top := if ctxtsk in svclocked then svclocked[ctxtsk] else NULL;
      locked := top == loc;
      if !locked {
        if loc !in waiters {
          waiters := waiters[loc := []];
          locklist := locklist[loc := top];
          svclocked := svclocked[ctxtsk := loc];
          stacks := stacks[ctxtsk := [loc] + Stack(State(), ctxtsk)];
          locked := true;
        } else {
          klockwait := klockwait + {ctxtsk};
          waiters := waiters[loc := waiters[loc] + [ctxtsk]];
        }
      }
      if locked { pcs := pcs[ctxtsk := Idle]; }
    }

    /** A task has the lock exactly when it is on top of its list. */
    lemma TryTop(s: Locks, t: int, loc: int)
      requires Inv(s) && PcOf(s, t) == Trying(loc) && t !in s.klockwait
      ensures var r := Step(s, Try(t)); Top(r, t) == loc <==> Stack(r, t) != [] && Stack(r, t)[0] == loc
      ensures loc != NULL
    {
      hide Step;
      StepInv(s, Try(t));
      assert TaskOk(s, t) && TaskOk(Step(s, Try(t)), t);
      TopOfStack(Step(s, Try(t)), t);
    }

    /** UnlockSVC, and the body of the loop of AllUnlockSVC. */
    method UnlockSVC(ctxtsk: int)
      requires Inv(State()) && PcOf(State(), ctxtsk).Idle? && Stack(State(), ctxtsk) != []
      modifies this
      ensures State() == Release(old(State()), ctxtsk) && Inv(State())
      ensures var loc := Stack(old(State()), ctxtsk)[0];
              && loc in old(waiters) && Stack(State(), ctxtsk) == Stack(old(State()), ctxtsk)[1..]
              && if old(waiters)[loc] == [] then waiters == old(waiters) - {loc}
                 else
                   && waiters == old(waiters)[loc := old(waiters)[loc][1..]]
                   && Stack(State(), old(waiters)[loc][0]) == [loc] + Stack(old(State()), old(waiters)[loc][0])
    {
      hide Chain, Skip, Distinct;
      ghost var s := State();
      ReleaseInv(s, ctxtsk);
      HandOff(s, ctxtsk);
      assert TaskOk(s, ctxtsk);
      NotOwnWaiter(s, ctxtsk);
      TopOfStack(s, ctxtsk);
      var loc := svclocked[ctxtsk];
      svclocked := svclocked[ctxtsk := Below(locklist, loc)];
      stacks := stacks[ctxtsk := Stack(s, ctxtsk)[1..]];
      if waiters[loc] == [] {
        waiters := waiters - {loc};
      } else {
        var tcb := waiters[loc][0];
        waiters := waiters[loc := waiters[loc][1..]];
        klockwait := klockwait - {tcb};
        locklist := locklist[loc := if tcb in svclocked then svclocked[tcb] else NULL];
        stacks := stacks[tcb := [loc] + Stack(State(), tcb)];
        svclocked := svclocked[tcb := loc];
      }
    }

    /** AllUnlockSVC */
    method AllUnlockSVC(ctxtsk: int, tcb: int)
      requires Inv(State()) && PcOf(State(), ctxtsk).Idle?
      modifies this
      ensures State() == AllUnlock(old(State()), ctxtsk, |Stack(old(State()), ctxtsk)|) && Inv(State())
      ensures Stack(State(), ctxtsk) == []
      ensures forall x, l :: x != ctxtsk && l in Stack(old(State()), x) ==> l in Stack(State(), x)
    {
      hide Chain, Skip, Distinct, Release, TaskOk, LockOk;
      ghost var s := State();
      AllUnlockInv(s, ctxtsk, |Stack(s, ctxtsk)|);
      TopIs(s, ctxtsk);
      while ctxtsk in svclocked && svclocked[ctxtsk] != NULL
        invariant Inv(State()) && PcOf(State(), ctxtsk).Idle?
        invariant AllUnlock(State(), ctxtsk, |Stack(State(), ctxtsk)|) == AllUnlock(s, ctxtsk, |Stack(s, ctxtsk)|)
        invariant (ctxtsk in svclocked && svclocked[ctxtsk] != NULL) <==> Stack(State(), ctxtsk) != []
        decreases |Stack(State(), ctxtsk)|
      {
        ReleaseOne(State(), ctxtsk);
        ReleaseInv(State(), ctxtsk);
        UnlockSVC(ctxtsk);
        TopIs(State(), ctxtsk);
      }
    }

    lemma TopIs(s: Locks, t: int)
      requires Inv(s)
      ensures (t in s.svclocked && s.svclocked[t] != NULL) <==> Stack(s, t) != []
    {
      assert TaskOk(s, t);
      TopOfStack(s, t);
    }
  }
}
