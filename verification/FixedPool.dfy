/** Fixed-size memory pools (kernel/tkernel/src/mempfix.c:102-121, 165-191, 256-370). */
module FixedPool {
  import opened Queue
  import opened WaitQueue

  const NULL := 0
  const MINSIZE := 4          // sizeof(FREEL)
  const INT_LIMIT := 0x8000_0000

  /** MINSZ */
  function MinSz(sz: int): int {
    sz + (MINSIZE - 1) - (sz + (MINSIZE - 1)) % MINSIZE
  }

  /** A cast to INT. */
  function ToInt(x: int): int {
    var r := x % 0x1_0000_0000;
    if r >= INT_LIMIT then r - 0x1_0000_0000 else r
  }

  /** The block size of a new pool. */
  function CreatedBlfsz(blfsz: int): int {
    ToInt(MinSz(blfsz))
  }

  /** It is at least the size asked for if and only if rounding up stays below the sign bit. */
  lemma BlockSizeOk(blfsz: int)
    requires 0 < blfsz < INT_LIMIT
    ensures CreatedBlfsz(blfsz) >= blfsz <==> blfsz <= INT_LIMIT - MINSIZE
    ensures blfsz <= INT_LIMIT - MINSIZE ==>
              && CreatedBlfsz(blfsz) == MinSz(blfsz)
              && MinSz(blfsz) % MINSIZE == 0
              && MinSz(blfsz) < blfsz + MINSIZE
    ensures blfsz > INT_LIMIT - MINSIZE ==> CreatedBlfsz(blfsz) < 0
  {
  }

  /** blfsz * mpfcnt, as an INT. */
  function PoolSize(blfsz: int, cnt: int): int {
    ToInt(blfsz * cnt)
  }

  /** The memory allocated, (UINT)mpfsz bytes, holds all blocks if and only if their size
      does not wrap. */
  lemma PoolSizeOk(blfsz: int, cnt: int)
    requires 0 < blfsz && 0 < cnt
    ensures PoolSize(blfsz, cnt) % 0x1_0000_0000 >= blfsz * cnt <==> blfsz * cnt < 0x1_0000_0000
    ensures PoolSize(blfsz, cnt) == blfsz * cnt <==> blfsz * cnt < INT_LIMIT
  {
    MulAtLeast(cnt, blfsz);
    PoolSizeOf(blfsz * cnt);
  }

  lemma PoolSizeOf(bytes: int)
    requires 0 < bytes
    ensures var r := ToInt(bytes);
            && (r % 0x1_0000_0000 >= bytes <==> bytes < 0x1_0000_0000) && (r == bytes <==> bytes < INT_LIMIT)
            && (bytes >= INT_LIMIT ==> r <= bytes - 0x1_0000_0000)
  {
  }

  /** Block k of a pool. */
  function BlockAt(mempool: int, blfsz: int, k: int): int {
    mempool + k * blfsz
  }

  lemma BlocksApart(mempool: int, blfsz: int, j: int, k: int)
    requires 0 < blfsz
    ensures j < k ==> BlockAt(mempool, blfsz, j) + blfsz <= BlockAt(mempool, blfsz, k)
    ensures BlockAt(mempool, blfsz, k + 1) == BlockAt(mempool, blfsz, k) + blfsz
            && BlockAt(mempool, blfsz, 0) == mempool
  {
    if j < k {
      MulAtLeast(k - j, blfsz);
      assert k * blfsz == j * blfsz + (k - j) * blfsz;
    }
  }

  lemma MulAtLeast(n: int, d: int)
    requires n >= 1 && d > 0
    ensures n * d >= d
  {
  }

  /** What _tk_rel_mpf checks of an address. */
  predicate IsBlockAddress(mempool: int, blfsz: int, mpfsz: int, blf: int)
    requires 0 < blfsz
  {
    mempool <= blf < mempool + mpfsz && (blf - mempool) % blfsz == 0
  }

  ghost predicate IsBlock(mempool: int, blfsz: int, cnt: int, blf: int) {
    exists k :: 0 <= k < cnt && blf == BlockAt(mempool, blfsz, k)
  }

  /** The check accepts exactly the addresses of the blocks if and only if the size of
      the pool is an INT. */
  lemma CheckIsExact(mempool: int, blfsz: int, cnt: int)
    requires 0 < blfsz < INT_LIMIT && 0 < cnt
    ensures (forall blf ::
               IsBlockAddress(mempool, blfsz, PoolSize(blfsz, cnt), blf) <==> IsBlock(mempool, blfsz, cnt, blf))
            <==> blfsz * cnt < INT_LIMIT
  {
    hide PoolSize, IsBlockAddress, IsBlock;
    PoolSizeOk(blfsz, cnt);
    if blfsz * cnt < INT_LIMIT {
      forall blf { CheckAccepts(mempool, blfsz, cnt, blf); }
    } else {
      LastRefused(mempool, blfsz, cnt);
    }
  }

  lemma CheckAccepts(mempool: int, blfsz: int, cnt: int, blf: int)
    requires 0 < blfsz && 0 < cnt
    ensures IsBlockAddress(mempool, blfsz, blfsz * cnt, blf) <==> IsBlock(mempool, blfsz, cnt, blf)
  {
    if IsBlockAddress(mempool, blfsz, blfsz * cnt, blf) {
      var k := (blf - mempool) / blfsz;
      assert blf - mempool == k * blfsz;
      if k >= cnt { MulMono(cnt, k, blfsz); }
      assert blf == BlockAt(mempool, blfsz, k);
    }
    if IsBlock(mempool, blfsz, cnt, blf) {
      var k :| 0 <= k < cnt && blf == BlockAt(mempool, blfsz, k);
      BlocksApart(mempool, blfsz, k, cnt);
      MulMono(0, k, blfsz);
      MultipleMod(k, blfsz);
    }
  }

  /** With a size that is no INT the check refuses the last block. */
  lemma LastRefused(mempool: int, blfsz: int, cnt: int)
    requires 0 < blfsz < INT_LIMIT <= blfsz * cnt && 0 < cnt
    ensures var blf := BlockAt(mempool, blfsz, cnt - 1);
            IsBlock(mempool, blfsz, cnt, blf) && !IsBlockAddress(mempool, blfsz, PoolSize(blfsz, cnt), blf)
  {
    PoolSizeOf(blfsz * cnt);
    BlocksApart(mempool, blfsz, cnt - 1, cnt);
    assert BlockAt(mempool, blfsz, cnt - 1) == mempool + blfsz * cnt - blfsz by { LastBlock(mempool, blfsz, cnt); }
  }

  lemma LastBlock(mempool: int, blfsz: int, cnt: int)
    ensures BlockAt(mempool, blfsz, cnt - 1) == mempool + blfsz * cnt - blfsz
  {
  }

  lemma MulMono(a: int, b: int, d: int)
    requires a <= b && d > 0
    ensures a * d <= b * d
  {
  }

  lemma MultipleMod(k: int, d: int)
    requires d > 0
    ensures k * d % d == 0
  {
    var q, r := k * d / d, k * d % d;
    assert k * d == q * d + r;
    assert (k - q) * d == r;
    if k - q >= 1 { MulAtLeast(k - q, d); }
    assert (q - k) * d == -r;
    if q - k >= 1 { MulAtLeast(q - k, d); }
  }

  // ---- the pool, by block numbers ----

  /** Blocks below carved have been handed out at least once; free is the free list. */
  datatype Pool = Pool(cnt: int, tpri: bool, free: seq<int>, carved: int, frbcnt: int, held: set<int>,
                       waitq: seq<Waiter<int>>)

  /** _tk_get_mpf_u: the result and the block. */
  function Get(s: Pool, task: int, pri: int, indp: bool, poll: bool, diswai: bool): (Er, int, Pool) {
    if indp then (E_CTX, 0, s)
    else if diswai then (E_DISWAI, 0, s)
    else if s.frbcnt <= 0 then
      if poll then (E_TMOUT, 0, s) else (Waits, 0, s.(waitq := Enqueue(s.waitq, Waiter(task, pri, 0), s.tpri)))
    else if s.free != [] then
      (E_OK, s.free[0], s.(free := s.free[1..], frbcnt := s.frbcnt - 1, held := s.held + {s.free[0]}))
    else (E_OK, s.carved, s.(carved := s.carved + 1, frbcnt := s.frbcnt - 1, held := s.held + {s.carved}))
  }

  /** _tk_rel_mpf of block k: a waiting task gets it directly. */
  function Rel(s: Pool, k: int): Pool {
    if s.waitq != [] then s.(waitq := s.waitq[1..])
    else s.(free := [k] + s.free, frbcnt := s.frbcnt + 1, held := s.held - {k})
  }

  datatype Event =
    | GetMpf(task: int, pri: int, indp: bool, poll: bool, diswai: bool)
    | RelMpf(blk: int)
    | EndWait(task: int)
    | ChgPri(w: Waiter<int>, pri: int)

  function Step(s: Pool, e: Event): Pool {
    match e
    case GetMpf(task, pri, indp, poll, diswai) => Get(s, task, pri, indp, poll, diswai).2
    case RelMpf(k) => Rel(s, k)
    case EndWait(task) => s.(waitq := Without(s.waitq, task))
    case ChgPri(w, pri) =>
      if s.tpri && w in s.waitq then s.(waitq := Enqueue(Without(s.waitq, w.task), w.(pri := pri), true)) else s
  }

  /** Only held blocks are released. */
  predicate Enabled(s: Pool, e: Event) {
    e.RelMpf? ==> e.blk in s.held
  }

  /** Each block is exactly one of held, on the free list, or in the unused tail. */
  ghost predicate Partition(s: Pool) {
    && 0 <= s.carved <= s.cnt && Distinct(s.free)
    && (forall k :: k in s.free ==> k !in s.held)
    && (forall k :: k in s.held || k in s.free <==> 0 <= k < s.carved)
  }

  ghost predicate Inv(s: Pool) {
    && Partition(s)
    && s.frbcnt == |s.free| + (s.cnt - s.carved)
    && (s.waitq != [] ==> s.frbcnt == 0)
  }

  lemma StepInv(s: Pool, e: Event)
    requires Inv(s) && Enabled(s, e)
    ensures Inv(Step(s, e))
  {
    match e {
      case GetMpf(task, pri, indp, poll, diswai) =>
        if !indp && !diswai && s.frbcnt > 0 { GetInv(s); }
      case RelMpf(k) =>
        if s.waitq == [] {
          var r := Rel(s, k);
          assert r.free[1..] == s.free;
          assert forall x :: x in r.free <==> x == k || x in s.free;
        }
      case EndWait(task) =>
      case ChgPri(w, pri) =>
    }
  }

  /** A release gives the block to the first waiter, and just that one leaves, or, with
      nobody waiting, to the free blocks; no other block changes hands. */
  lemma RelServes(s: Pool, k: int)
    requires Inv(s) && k in s.held
    ensures var r := Rel(s, k);
            && (s.waitq != [] ==> r == s.(waitq := s.waitq[1..]) && k in r.held)
            && (s.waitq == [] ==> r.waitq == [] && r.held == s.held - {k} && r.frbcnt == s.frbcnt + 1)
            && (forall b :: b != k ==> (b in r.free <==> b in s.free)) && r.carved == s.carved
  {
    assert forall b :: b in [k] + s.free <==> b == k || b in s.free;
  }

  /** A wait that ends takes that task's place away and no other; a change of priority
      moves just that task, and only with TA_TPRI. */
  lemma StepQueue(s: Pool, i: nat, pri: int)
    requires TasksDistinct(s.waitq) && i < |s.waitq|
    ensures Step(s, EndWait(s.waitq[i].task)) == s.(waitq := RemoveAt(s.waitq, i))
    ensures var r := Step(s, ChgPri(s.waitq[i], pri));
            r == s.(waitq := r.waitq) && if s.tpri then Requeued(s.waitq, i, pri, r.waitq) else r.waitq == s.waitq
  {
    hide TasksDistinct, Requeued, Get, Rel, Enqueue, RemoveAt;
    WithoutAt(s.waitq, i);
    RequeuedAt(s.waitq, i, pri);
  }

  /** A release keeps the invariant if and only if the block is held. */
  lemma OnlyHeldReleased(s: Pool, k: int)
    requires Inv(s) && 0 <= k < s.cnt
    ensures Inv(Rel(s, k)) <==> k in s.held
  {
    if k in s.held {
      StepInv(s, RelMpf(k));
    } else if s.waitq != [] {
      AllHeld(s);
    } else {
      var r := Rel(s, k);
      assert r.free[0] == k;
      if k in s.free {
        var i :| 0 <= i < |s.free| && s.free[i] == k;
        assert r.free[i + 1] == k;
      }
    }
  }

  /** With a task waiting, every block is held. */
  lemma AllHeld(s: Pool)
    requires Inv(s) && s.waitq != []
    ensures forall k :: 0 <= k < s.cnt ==> k in s.held
  {
  }

  lemma GetInv(s: Pool)
    requires Inv(s) && s.frbcnt > 0
    ensures Inv(Get(s, 0, 0, false, true, false).2)
  {
    if s.free != [] {
      assert forall x :: x in s.free <==> x == s.free[0] || x in s.free[1..];
      assert s.free[0] !in s.free[1..];
    }
  }

  lemma FreeCard(free: seq<int>)
    requires Distinct(free)
    ensures |ToSet(free)| == |free|
  {
    if free != [] {
      FreeCard(free[1..]);
      assert ToSet(free) == ToSet(free[1..]) + {free[0]};
      assert free[0] !in free[1..];
    }
  }

  function Below(n: nat): set<int> {
    if n == 0 then {} else Below(n - 1) + {n - 1}
  }

  lemma {:induction false} BelowIs(n: nat)
    ensures |Below(n)| == n && forall k :: k in Below(n) <==> 0 <= k < n
  {
    if n > 0 { BelowIs(n - 1); }
  }

  /** Conservation: the blocks held and the count of free blocks make up the pool. */
  lemma BlocksConserved(s: Pool)
    requires Inv(s)
    ensures |s.held| + s.frbcnt == s.cnt
  {
    FreeCard(s.free);
    BelowIs(s.carved);
    var free, below := ToSet(s.free), Below(s.carved);
    forall k ensures k in free <==> k in s.free {
    }
    forall k ensures k in s.held + free <==> k in below {
      assert k in s.held || k in s.free <==> 0 <= k < s.carved;
    }
    assert s.held + free == below;
    forall k | k in free ensures k !in s.held {
      assert k in s.free;
    }
  }

  function Created(cnt: int, tpri: bool): Pool {
    Pool(cnt, tpri, [], 0, cnt, {}, [])
  }

  ghost predicate Feasible(s: Pool, es: seq<Event>)
    decreases |es|
  {
    es != [] ==> Enabled(s, es[0]) && Feasible(Step(s, es[0]), es[1..])
  }

  function Run(s: Pool, es: seq<Event>): Pool
    decreases |es|
  {
    if es == [] then s else Run(Step(s, es[0]), es[1..])
  }

  lemma {:induction false} RunInv(s: Pool, es: seq<Event>)
    requires Inv(s) && Feasible(s, es)
    ensures Inv(Run(s, es)) && Run(s, es).cnt == s.cnt
    decreases |es|
  {
    hide Inv, Enabled;
    if es != [] {
      StepInv(s, es[0]);
      RunInv(Step(s, es[0]), es[1..]);
    }
  }

  /** Over any run in which only held blocks are released. */
  lemma AlwaysConserved(cnt: nat, tpri: bool, es: seq<Event>)
    requires Feasible(Created(cnt, tpri), es)
    ensures var s := Run(Created(cnt, tpri), es);
            && Partition(s) && s.frbcnt == |s.free| + (cnt - s.carved) && |s.held| + s.frbcnt == cnt
            && (s.waitq != [] ==> s.frbcnt == 0)
  {
    hide Run, Feasible, Partition;
    CreatedInv(cnt, tpri);
    RunInv(Created(cnt, tpri), es);
    BlocksConserved(Run(Created(cnt, tpri), es));
  }

  lemma CreatedInv(cnt: nat, tpri: bool)
    ensures Inv(Created(cnt, tpri))
  {
  }

  /** A block that is handed out was held by nobody. */
  lemma GetsFreeBlock(s: Pool, task: int, pri: int)
    requires Inv(s)
    ensures var (er, k, t) := Get(s, task, pri, false, true, false);
            && (er == E_OK <==> s.frbcnt > 0)
            && (er == E_OK ==> 0 <= k < s.cnt && k !in s.held && t.held == s.held + {k})
  {
  }

  /** The block released last is handed out first, which undoes the release; a block of the
      unused tail is handed out only when no block has come back. */
  lemma GetAfterRel(s: Pool, k: int, task: int, pri: int)
    requires Inv(s) && k in s.held && s.waitq == []
    ensures Get(Rel(s, k), task, pri, false, true, false) == (E_OK, k, s)
  {
    var r := Rel(s, k);
    assert r.free[1..] == s.free && r.held + {k} == s.held;
  }

  lemma UntouchedLast(s: Pool, task: int, pri: int)
    requires Inv(s)
    ensures var (er, k, t) := Get(s, task, pri, false, true, false);
            t.carved != s.carved ==> s.free == [] && k == s.carved && t.carved == k + 1
  {
  }

  // ---- the control block, changed in place ----

  /** The free list links the blocks through their first words. */
  ghost predicate Listed(next: map<int, int>, freelist: int, addrs: seq<int>) {
    && freelist == (if addrs == [] then NULL else addrs[0])
    && (forall i {:trigger addrs[i]} :: 0 <= i < |addrs| ==>
          addrs[i] != NULL && addrs[i] in next && next[addrs[i]] == if i + 1 < |addrs| then addrs[i + 1] else NULL)
  }

  lemma ListedRest(next: map<int, int>, freelist: int, addrs: seq<int>)
    requires Listed(next, freelist, addrs) && addrs != []
    ensures freelist == addrs[0] && freelist in next && freelist != NULL && Listed(next, next[freelist], addrs[1..])
  {
    assert addrs[0] in next;
    var r := addrs[1..];
    forall i | 0 <= i < |r|
      ensures r[i] != NULL && r[i] in next && next[r[i]] == if i + 1 < |r| then r[i + 1] else NULL
    {
      assert r[i] == addrs[i + 1];
    }
  }

  lemma ListedMore(next: map<int, int>, freelist: int, addrs: seq<int>, blf: int)
    requires Listed(next, freelist, addrs) && blf !in addrs && blf != NULL
    ensures Listed(next[blf := freelist], blf, [blf] + addrs)
  {
    var r, n2 := [blf] + addrs, next[blf := freelist];
    forall i | 0 <= i < |r|
      ensures r[i] != NULL && r[i] in n2 && n2[r[i]] == if i + 1 < |r| then r[i + 1] else NULL
    {
      assert i > 0 ==> r[i] == addrs[i - 1] && r[i] in addrs;
    }
  }

  function Addrs(mempool: int, blfsz: int, free: seq<int>): (r: seq<int>)
    ensures |r| == |free| && forall i :: 0 <= i < |r| ==> r[i] == BlockAt(mempool, blfsz, free[i])
  {
    seq(|free|, i requires 0 <= i < |free| => BlockAt(mempool, blfsz, free[i]))
  }

  /** The pointers of the control block, and what they stand for. */
  ghost predicate Stands(mempool: int, blfsz: int, unused: int, freelist: int, next: map<int, int>, s: Pool) {
    && mempool > 0 && blfsz > 0 && s.cnt > 0
    && unused == BlockAt(mempool, blfsz, s.carved)
    && Listed(next, freelist, Addrs(mempool, blfsz, s.free))
  }

  /** Taking the head of the free list, or else the first block of the unused tail. */
  lemma StandsGet(mempool: int, blfsz: int, unused: int, freelist: int, next: map<int, int>, s: Pool)
    requires Stands(mempool, blfsz, unused, freelist, next, s) && s.frbcnt > 0
    ensures var (er, k, t) := Get(s, 0, 0, false, true, false);
            && (freelist == NULL <==> s.free == [])
            && (freelist != NULL ==> freelist in next && freelist == BlockAt(mempool, blfsz, k)
                                     && Stands(mempool, blfsz, unused, next[freelist], next, t))
            && (freelist == NULL ==> unused == BlockAt(mempool, blfsz, k)
                                     && Stands(mempool, blfsz, unused + blfsz, freelist, next, t))
  {
    hide Listed, BlockAt;
    ListHead(next, freelist, Addrs(mempool, blfsz, s.free));
    BlocksApart(mempool, blfsz, s.carved, s.carved);
    if s.free != [] {
      ListedRest(next, freelist, Addrs(mempool, blfsz, s.free));
      assert Addrs(mempool, blfsz, s.free[1..]) == Addrs(mempool, blfsz, s.free)[1..];
    }
  }

  lemma ListHead(next: map<int, int>, freelist: int, addrs: seq<int>)
    requires Listed(next, freelist, addrs)
    ensures freelist == NULL <==> addrs == []
  {
    if addrs != [] { ListedRest(next, freelist, addrs); }
  }

  /** Putting a block back at the head of the free list. */
  lemma StandsRel(mempool: int, blfsz: int, unused: int, freelist: int, next: map<int, int>, s: Pool, k: int)
    requires Stands(mempool, blfsz, unused, freelist, next, s) && Inv(s) && k in s.held && s.waitq == []
    ensures var blf := BlockAt(mempool, blfsz, k); Stands(mempool, blfsz, unused, blf, next[blf := freelist], Rel(s, k))
  {
    hide Listed, BlockAt;
    var addrs, blf := Addrs(mempool, blfsz, s.free), BlockAt(mempool, blfsz, k);
    NotListed(mempool, blfsz, s, k);
    ListedMore(next, freelist, addrs, blf);
    assert Addrs(mempool, blfsz, [k] + s.free) == [blf] + addrs;
  }

  lemma NotListed(mempool: int, blfsz: int, s: Pool, k: int)
    requires Inv(s) && k in s.held && mempool > 0 && blfsz > 0
    ensures BlockAt(mempool, blfsz, k) !in Addrs(mempool, blfsz, s.free) && BlockAt(mempool, blfsz, k) != NULL
  {
    hide BlockAt;
    BlocksApart(mempool, blfsz, 0, k);
    forall i | 0 <= i < |s.free| ensures Addrs(mempool, blfsz, s.free)[i] != BlockAt(mempool, blfsz, k) {
      assert s.free[i] in s.free;
      BlocksApart(mempool, blfsz, s.free[i], k);
      BlocksApart(mempool, blfsz, k, s.free[i]);
    }
  }

  class MpfCB {
    const mempool: int
    const blfsz: int
    const cnt: int
    const mpfsz: int
    const tpri: bool
    var unused: int
    var freelist: int
    var next: map<int, int>
    var frbcnt: int
    var waitq: seq<Waiter<int>>
    var given: map<int, int>       // what was written through p_blf for a released task
    ghost var free: seq<int>
    ghost var carved: int
    ghost var held: set<int>

    ghost function State(): Pool
      reads this
    {
      Pool(cnt, tpri, free, carved, frbcnt, held, waitq)
    }

    ghost predicate Valid()
      reads this
    {
      && Inv(State()) && Stands(mempool, blfsz, unused, freelist, next, State())
      && blfsz < INT_LIMIT && mpfsz == PoolSize(blfsz, cnt)
    }

    /** tk_cre_mpf, for a block size at which rounding up does not overflow. */
    constructor (mempool0: int, blfsz0: int, cnt0: int, tpri0: bool)
      requires mempool0 > 0 && 0 < blfsz0 <= INT_LIMIT - MINSIZE && cnt0 > 0
      ensures Valid() && State() == Created(cnt0, tpri0) && blfsz == MinSz(blfsz0) && mempool == mempool0
    {
      BlockSizeOk(blfsz0);
      CreatedInv(cnt0, tpri0);
      BlocksApart(mempool0, MinSz(blfsz0), 0, 0);
      mempool, blfsz, cnt, tpri := mempool0, CreatedBlfsz(blfsz0), cnt0, tpri0;
      mpfsz := PoolSize(CreatedBlfsz(blfsz0), cnt0);
      unused, freelist, next, frbcnt, waitq, given := mempool0, NULL, map[], cnt0, [], map[];
      free, carved, held := [], 0, {};
    }

    method GetMpf(task: int, pri: int, indp: bool, poll: bool, diswai: bool) returns (ercd: Er, blf: int)
      requires Valid()
      modifies this
      ensures Valid()
      ensures var (er, k, t) := Get(old(State()), task, pri, indp, poll, diswai);
              er == ercd && State() == t && (ercd == E_OK ==> blf == BlockAt(mempool, blfsz, k))
      ensures ercd == if indp then E_CTX
                      else if diswai then E_DISWAI
                      else if old(frbcnt) > 0 then E_OK
                      else if poll then E_TMOUT
                      else Waits
      ensures ercd == E_OK ==>
                && waitq == old(waitq) && frbcnt == old(frbcnt) - 1
                && (if old(free) != [] then blf == BlockAt(mempool, blfsz, old(free)[0]) && free == old(free)[1..]
                    else blf == BlockAt(mempool, blfsz, old(carved)) && carved == old(carved) + 1)
                && exists k :: 0 <= k < cnt && blf == BlockAt(mempool, blfsz, k) && k !in old(held)
                               && held == old(held) + {k}
      ensures ercd == Waits ==>
                State() == old(State()).(waitq := waitq) && Placed(old(waitq), Waiter(task, pri, 0), tpri, waitq)
      ensures ercd != E_OK && ercd != Waits ==> State() == old(State())
    {
      hide Inv, BlockAt, Stands, Enqueue, Step, Placed;
      EnqueuePlaced(waitq, Waiter(task, pri, 0), tpri);
      GetsFreeBlock(State(), task, pri);
      ghost var s := State();
      GetKeeps(s, task, pri, indp, poll, diswai);
      blf := NULL;
      if indp {
        return E_CTX, blf;
      }
      if diswai {
        return E_DISWAI, blf;
      }
      if frbcnt <= 0 {
        SameStands(mempool, blfsz, unused, freelist, next, s, Get(s, task, pri, indp, poll, diswai).2);
        if poll {
          return E_TMOUT, blf;
        }
        waitq := Enqueue(waitq, Waiter(task, pri, 0), tpri);
        return Waits, blf;
      }
      StandsGet(mempool, blfsz, unused, freelist, next, s);
      if freelist != NULL {
        blf := freelist;
        freelist := next[blf];
        held := held + {free[0]};
        free := free[1..];
      } else {
        blf := unused;
        unused := unused + blfsz;
        held := held + {carved};
        carved := carved + 1;
      }
      frbcnt := frbcnt - 1;
      return E_OK, blf;
    }

    lemma GetKeeps(s: Pool, task: int, pri: int, indp: bool, poll: bool, diswai: bool)
      requires Inv(s)
      ensures Inv(Get(s, task, pri, indp, poll, diswai).2)
    {
      StepInv(s, Event.GetMpf(task, pri, indp, poll, diswai));
    }

    lemma RelKeeps(s: Pool, k: int)
      requires Inv(s) && k in s.held
      ensures Inv(Rel(s, k))
    {
      StepInv(s, Event.RelMpf(k));
    }

    lemma SameStands(mempool: int, blfsz: int, unused: int, freelist: int, next: map<int, int>, s: Pool, t: Pool)
      requires Stands(mempool, blfsz, unused, freelist, next, s) && t.free == s.free && t.carved == s.carved
               && t.cnt == s.cnt
      ensures Stands(mempool, blfsz, unused, freelist, next, t)
    {
    }

    method Checked(blf: int) returns (ok: bool)
      requires blfsz > 0
      ensures ok <==> IsBlockAddress(mempool, blfsz, mpfsz, blf)
    {
      ok := !(blf < mempool || blf >= mempool + mpfsz || (blf - mempool) % blfsz != 0);
    }

    /** An address that the check accepts is that of block k, which is held. */
    method RelMpf(blf: int, indp: bool, ghost k: int) returns (ercd: Er)
      requires Valid()
      requires !indp && IsBlockAddress(mempool, blfsz, mpfsz, blf) ==> k in held && blf == BlockAt(mempool, blfsz, k)
      modifies this
      ensures Valid()
      ensures ercd == if indp then E_CTX else if IsBlockAddress(mempool, blfsz, mpfsz, blf) then E_OK else E_PAR
      ensures blfsz * cnt < INT_LIMIT ==> (ercd == E_OK <==> !indp && IsBlock(mempool, blfsz, cnt, blf))
      ensures ercd != E_OK ==> State() == old(State())
      ensures ercd == E_OK ==> State() == Rel(old(State()), k)
      ensures ercd == E_OK && old(waitq) != [] ==> State() == old(State()).(waitq := old(waitq)[1..])
      ensures ercd == E_OK && old(waitq) == [] ==>
                && waitq == [] && held == old(held) - {k} && free == [k] + old(free)
                && carved == old(carved) && frbcnt == old(frbcnt) + 1
      ensures given == if ercd == E_OK && old(waitq) != [] then old(given)[old(waitq)[0].task := blf] else old(given)
    {
      hide Inv, BlockAt, Stands, IsBlockAddress, IsBlock, PoolSize;
      if indp {
        return E_CTX;
      }
      Sizes(State());
      CheckIsExact(mempool, blfsz, cnt);
      var ok := Checked(blf);
      if !ok {
        return E_PAR;
      }
      RelKeeps(State(), k);
      if waitq != [] {
        SameStands(mempool, blfsz, unused, freelist, next, State(), Rel(State(), k));
        given := given[waitq[0].task := blf];
        waitq := waitq[1..];
      } else {
        StandsRel(mempool, blfsz, unused, freelist, next, State(), k);
        next := next[blf := freelist];
        freelist := blf;
        free := [k] + free;
        held := held - {k};
        frbcnt := frbcnt + 1;
      }
      return E_OK;
    }

    lemma Sizes(s: Pool)
      requires Stands(mempool, blfsz, unused, freelist, next, s)
      ensures blfsz > 0 && s.cnt > 0
    {
    }
  }
}
