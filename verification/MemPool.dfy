/** Variable-size memory pools (kernel/tkernel/src/mempool.c): the allocator, and the
    tasks that wait for memory. */
module MemPool {
  import opened Queue
  import opened FreeIndex
  import opened Areas
  import opened WaitQueue

  const INT_MAX := 0x7FFF_FFFF
  const MAX_ALLOCATE := INT_MAX - INT_MAX % QUEUE_SIZE

  /** roundSize: at least MIN_FRAGMENT, then up to a multiple of eight. */
  function RoundSize(sz: int): (r: int)
    requires sz <= MAX_ALLOCATE
    ensures r % QUEUE_SIZE == 0 && MIN_FRAGMENT <= r <= MAX_ALLOCATE
    ensures if sz <= MIN_FRAGMENT then r == MIN_FRAGMENT else sz <= r < sz + QUEUE_SIZE
  {
    var s := if sz < MIN_FRAGMENT then MIN_FRAGMENT else sz;
    (s + (QUEUE_SIZE - 1)) - (s + (QUEUE_SIZE - 1)) % QUEUE_SIZE
  }

  // ---- the areas of one pool ----

  /** The areas tile the pool from base, and the end node closes it, marked in use. */
  ghost predicate Tiled(areas: seq<Area>, base: int, mplsz: int) {
    var n := |areas| - 1;
    && n >= 1 && areas[0].addr == base
    && areas[n] == Area(base + mplsz + QUEUE_SIZE, 0, true, AREA_USE)
    && forall i :: 0 <= i < n ==> !areas[i].term
  }

  function MaxFree(areas: seq<Area>): (r: int)
    ensures r >= 0
  {
    if areas == [] then 0
    else
      var r := MaxFree(areas[1..]);
      if areas[0].Free() && areas[0].size > r then areas[0].size else r
  }

  lemma MaxFreeNoFit(areas: seq<Area>, size: int)
    requires size > 0
    ensures NoFit(areas, size) <==> size > MaxFree(areas)
  {
    if areas != [] {
      MaxFreeNoFit(areas[1..], size);
      assert forall i :: 0 < i < |areas| ==> areas[i] == areas[1..][i - 1];
      if NoFit(areas[1..], size) && !(areas[0].Free() && areas[0].size >= size) {
        forall i | 0 <= i < |areas| && areas[i].Free() ensures areas[i].size < size {
          if i > 0 { assert areas[1..][i - 1].Free(); }
        }
      }
      if NoFit(areas, size) {
        forall i | 0 <= i < |areas[1..]| && areas[1..][i].Free() ensures areas[1..][i].size < size {
          assert areas[i + 1].Free();
        }
      }
    }
  }

  // ---- what one allocation and one release do to the areas ----

  function Use(areas: seq<Area>, i: nat): seq<Area>
    requires i < |areas|
  {
    areas[i := areas[i].(flags := AREA_USE)]
  }

  function Unuse(areas: seq<Area>, i: nat): seq<Area>
    requires i < |areas|
  {
    areas[i := areas[i].(flags := 0)]
  }

  /** Area i goes to the user, less a rest that is big enough to be an area. */
  function Carved(areas: seq<Area>, i: nat, blksz: int): seq<Area>
    requires i < |areas|
  {
    Use(if areas[i].size - blksz >= MIN_FRAGMENT + QUEUE_SIZE then SplitAt(areas, i, blksz) else areas, i)
  }

  /** Area i comes back and joins the free areas next to it. */
  function Released(areas: seq<Area>, i: nat): seq<Area>
    requires i < |areas|
  {
    JoinPrev(JoinNext(Unuse(areas, i), i), i)
  }

  lemma CarvedShape(areas: seq<Area>, base: int, mplsz: int, i: nat, blksz: int)
    requires Tiled(areas, base, mplsz) && Coalesced(areas) && i < |areas| && areas[i].Free()
    ensures Tiled(Carved(areas, i, blksz), base, mplsz) && Coalesced(Carved(areas, i, blksz))
  {
    var r := Carved(areas, i, blksz);
    var split := areas[i].size - blksz >= MIN_FRAGMENT + QUEUE_SIZE;
    forall k | 0 <= k < |r|
      ensures k != i && !(split && k == i + 1) ==> r[k] == areas[if k <= i || !split then k else k - 1]
    {
    }
    if split { assert SplitAt(areas, i, blksz)[|areas|] == areas[|areas| - 1]; }
    forall k | 0 <= k < |r| - 1 ensures !(r[k].Free() && r[k + 1].Free()) {
      if split {
        if k > i + 1 { assert !(areas[k - 1].Free() && areas[k].Free()); }
        if k == i + 1 { assert areas[i].Free() && !areas[i + 1].Free(); }
        if k < i - 1 { assert !(areas[k].Free() && areas[k + 1].Free()); }
      } else {
        assert !(areas[k].Free() && areas[k + 1].Free());
      }
    }
  }

  lemma JoinNextShape(areas: seq<Area>, base: int, mplsz: int, i: nat)
    requires Tiled(areas, base, mplsz) && CoalescedBut(areas, i, false) && i + 1 < |areas| && areas[i].Free()
    ensures Tiled(JoinNext(areas, i), base, mplsz) && CoalescedBut(JoinNext(areas, i), i, true)
    ensures i + 1 < |JoinNext(areas, i)| && JoinNext(areas, i)[i].Free()
  {
    var r := JoinNext(areas, i);
    if areas[i + 1].Free() {
      forall k | 0 <= k < |r| - 1 && k != i - 1 ensures !(r[k].Free() && r[k + 1].Free()) {
        var j := if k < i then k else k + 1;
        assert !(areas[j].Free() && areas[j + 1].Free());
      }
    }
  }

  lemma JoinPrevShape(areas: seq<Area>, base: int, mplsz: int, i: nat)
    requires Tiled(areas, base, mplsz) && CoalescedBut(areas, i, true) && i + 1 < |areas| && areas[i].Free()
    ensures Tiled(JoinPrev(areas, i), base, mplsz) && Coalesced(JoinPrev(areas, i))
  {
    var r := JoinPrev(areas, i);
    if i > 0 && areas[i - 1].Free() {
      assert !(areas[i].Free() && areas[i + 1].Free());
      forall k | 0 <= k < |r| - 1 ensures !(r[k].Free() && r[k + 1].Free()) {
        var j := if k < i - 1 then k else k + 1;
        assert j != i - 1 ==> !(areas[j].Free() && areas[j + 1].Free());
      }
    }
  }

  lemma ReleasedShape(areas: seq<Area>, base: int, mplsz: int, i: nat)
    requires Tiled(areas, base, mplsz) && Coalesced(areas) && i < |areas| && areas[i].Live()
    ensures Tiled(Released(areas, i), base, mplsz) && Coalesced(Released(areas, i))
  {
    var a1 := Unuse(areas, i);
    assert Tiled(a1, base, mplsz);
    forall k | 0 <= k < |a1| - 1 && k != i - 1 && k != i ensures !(a1[k].Free() && a1[k + 1].Free()) {
      assert !(areas[k].Free() && areas[k + 1].Free());
    }
    JoinNextShape(a1, base, mplsz, i);
    JoinPrevShape(JoinNext(a1, i), base, mplsz, i);
  }

  // ---- what the shape means ----

  /** The bytes of the areas and their headers. */
  function Bytes(areas: seq<Area>): int {
    if areas == [] then 0 else areas[0].size + QUEUE_SIZE + Bytes(areas[1..])
  }

  /** Every area is aligned, big enough, and followed by the next without a gap. */
  ghost predicate Sound(areas: seq<Area>) {
    forall i {:trigger AreaOk(areas, i, 2)} :: 0 <= i < |areas| ==> AreaOk(areas, i, 2)
  }

  ghost predicate Shape(areas: seq<Area>, base: int, mplsz: int) {
    Tiled(areas, base, mplsz) && Coalesced(areas) && Sound(areas)
  }

  lemma LayoutSound(m: Memory, que: int, fque: int, areas: seq<Area>)
    requires Layout(m, que, fque, areas, 2)
    ensures Sound(areas)
  {
    forall i | 0 <= i < |areas| ensures AreaOk(areas, i, 2) { LayoutAt(m, que, fque, areas, 2, i); }
  }

  /** The areas lie in ascending order without gaps, so their bytes are the pool's. */
  lemma {:induction false} TiledBytes(areas: seq<Area>, base: int, mplsz: int, i: nat)
    requires Sound(areas) && Tiled(areas, base, mplsz) && i < |areas|
    ensures Bytes(areas[i..|areas| - 1]) == base + mplsz + QUEUE_SIZE - areas[i].addr
    ensures forall j :: i < j < |areas| ==> areas[i].End() <= areas[j].addr
    decreases |areas| - i
  {
    if i + 1 < |areas| {
      assert AreaOk(areas, i, 2);
      TiledBytes(areas, base, mplsz, i + 1);
      assert areas[i..|areas| - 1][1..] == areas[i + 1..|areas| - 1];
      forall j | i < j < |areas| ensures areas[i].End() <= areas[j].addr {
        if j > i + 1 { assert AreaOk(areas, i + 1, 2); }
      }
    }
  }

  /** With no block in use the pool is one free area of the whole size. */
  lemma NothingInUse(areas: seq<Area>, base: int, mplsz: int)
    requires Shape(areas, base, mplsz)
    requires forall i :: 0 <= i < |areas| ==> !areas[i].Live()
    ensures areas == [Area(base, mplsz, false, 0), Area(base + mplsz + QUEUE_SIZE, 0, true, AREA_USE)]
    ensures MaxFree(areas) == mplsz
  {
    forall i | 0 <= i < |areas| - 1 ensures areas[i].Free() && areas[i].flags == 0 {
      assert AreaOk(areas, i, 2);
    }
    assert AreaOk(areas, 0, 2);
    assert !(areas[0].Free() && areas[1].Free());
    assert |areas| == 2;
    assert areas == [areas[0], areas[1]];
    assert areas[1..][1..] == [];
    assert MaxFree(areas[1..]) == 0;
  }

  /** Nothing free is bigger than the pool. */
  lemma MaxFreeBound(areas: seq<Area>, base: int, mplsz: int)
    requires Shape(areas, base, mplsz)
    ensures MaxFree(areas) <= mplsz
  {
    assert AreaOk(areas, 0, 2);
    TiledBytes(areas, base, mplsz, 0);
    forall i | 0 <= i < |areas| && areas[i].Free() ensures areas[i].size < mplsz + 1 {
      assert i > 0 ==> areas[0].End() <= areas[i].addr;
      TiledBytes(areas, base, mplsz, i);
      assert areas[i].End() <= areas[|areas| - 1].addr;
    }
    assert AreaOk(areas, |areas| - 1, 2);
    assert mplsz >= 0;
    MaxFreeNoFit(areas, mplsz + 1);
  }

  // ---- any sequence of get_blk and rel_blk ----

  /** get_blk takes a best fit, rel_blk gives back a block in use. */
  ghost predicate PoolStep(a: seq<Area>, b: seq<Area>) {
    || (exists i: nat, blksz: int :: Gets(a, b, i, blksz))
    || (exists i: nat :: Gives(a, b, i))
  }

  ghost predicate Gets(a: seq<Area>, b: seq<Area>, i: nat, blksz: int) {
    blksz % QUEUE_SIZE == 0 && MIN_FRAGMENT <= blksz && BestArea(a, blksz, i) && b == Carved(a, i, blksz)
  }

  ghost predicate Gives(a: seq<Area>, b: seq<Area>, i: nat) {
    i < |a| && a[i].Live() && b == Released(a, i)
  }

  lemma FlagSound(areas: seq<Area>, i: nat, fl: int)
    requires Sound(areas) && i < |areas| && 0 <= fl < 2
    ensures Sound(areas[i := areas[i].(flags := fl)])
  {
    var r := areas[i := areas[i].(flags := fl)];
    forall k | 0 <= k < |r| ensures AreaOk(r, k, 2) { assert AreaOk(areas, k, 2); }
  }

  lemma SplitSound(areas: seq<Area>, i: nat, blksz: int)
    requires Sound(areas) && i < |areas| && areas[i].Free()
    requires blksz % 8 == 0 && 16 <= blksz && areas[i].size - blksz >= 24
    ensures Sound(SplitAt(areas, i, blksz))
  {
    hide SplitAt;
    var r := SplitAt(areas, i, blksz);
    forall k | 0 <= k < |r| ensures AreaOk(r, k, 2) {
      assert AreaOk(areas, if k <= i then k else k - 1, 2);
      assert k == i ==> r[k + 1] == r[i + 1];
      assert k + 1 < i ==> r[k + 1] == areas[k + 1];
    }
  }

  lemma MergeSound(areas: seq<Area>, i: nat)
    requires Sound(areas) && i + 1 < |areas| && areas[i].Free() && areas[i + 1].Free()
    ensures Sound(MergeAt(areas, i))
  {
    hide MergeAt;
    var r := MergeAt(areas, i);
    forall k | 0 <= k < |r| ensures AreaOk(r, k, 2) {
      assert AreaOk(areas, if k <= i then k else k + 1, 2) && AreaOk(areas, i + 1, 2);
      assert k + 1 < |r| ==> r[k + 1].addr == areas[if k + 1 <= i then k + 1 else k + 2].addr;
    }
  }

  lemma GetsShape(a: seq<Area>, b: seq<Area>, base: int, mplsz: int, i: nat, blksz: int)
    requires Shape(a, base, mplsz) && Gets(a, b, i, blksz)
    ensures Shape(b, base, mplsz)
  {
    hide Sound, Tiled, Coalesced;
    CarvedShape(a, base, mplsz, i, blksz);
    if a[i].size - blksz >= MIN_FRAGMENT + QUEUE_SIZE {
      SplitSound(a, i, blksz);
      FlagSound(SplitAt(a, i, blksz), i, AREA_USE);
    } else {
      FlagSound(a, i, AREA_USE);
    }
  }

  lemma GivesShape(a: seq<Area>, b: seq<Area>, base: int, mplsz: int, i: nat)
    requires Shape(a, base, mplsz) && Gives(a, b, i)
    ensures Shape(b, base, mplsz)
  {
    hide Sound, Tiled, Coalesced, MergeAt;
    ReleasedShape(a, base, mplsz, i);
    FlagSound(a, i, 0);
    var a1 := Unuse(a, i);
    if i + 1 < |a1| && a1[i + 1].Free() { MergeSound(a1, i); }
    var a2 := JoinNext(a1, i);
    if i > 0 && a2[i - 1].Free() { MergeSound(a2, i - 1); }
  }

  /** From init_mempool on, over any sequence of get_blk and of rel_blk on blocks in
      use: the areas tile the pool, sum up to it, are aligned and at least MIN_FRAGMENT
      long, and no two neighbours are both free. */
  lemma {:induction false} RunShape(run: seq<seq<Area>>, base: int, mplsz: int, n: nat)
    requires n < |run| && base % 8 == 0 && mplsz % 8 == 0 && MIN_FRAGMENT <= mplsz
    requires run[0] == [Area(base, mplsz, false, 0), Area(base + mplsz + QUEUE_SIZE, 0, true, AREA_USE)]
    requires forall k :: 0 <= k < |run| - 1 ==> PoolStep(run[k], run[k + 1])
    ensures Shape(run[n], base, mplsz)
    ensures Bytes(run[n][..|run[n]| - 1]) == mplsz + QUEUE_SIZE
    decreases n
  {
    hide Shape, Bytes, Gets, Gives;
    if n == 0 {
      InitialShape(base, mplsz);
    } else {
      RunShape(run, base, mplsz, n - 1);
      var a, b := run[n - 1], run[n];
      assert PoolStep(run[n - 1], run[n - 1 + 1]);
      if i: nat, blksz: int :| Gets(a, b, i, blksz) {
        GetsShape(a, b, base, mplsz, i, blksz);
      } else {
        var i: nat :| Gives(a, b, i);
        GivesShape(a, b, base, mplsz, i);
      }
    }
    WholePool(run[n], base, mplsz);
  }

  /** Block blk is what this release gives back. */
  ghost predicate GivesBlock(a: seq<Area>, b: seq<Area>, blk: int) {
    exists i: nat :: Gives(a, b, i) && a[i].Block() == blk
  }

  /** Over any such run a block stays handed out, and no smaller, until it is released. */
  lemma {:induction false} BlockStays(run: seq<seq<Area>>, base: int, mplsz: int, k: nat, n: nat, blk: int, size: int)
    requires k <= n < |run| && base % 8 == 0 && mplsz % 8 == 0 && MIN_FRAGMENT <= mplsz
    requires run[0] == [Area(base, mplsz, false, 0), Area(base + mplsz + QUEUE_SIZE, 0, true, AREA_USE)]
    requires forall j :: 0 <= j < |run| - 1 ==> PoolStep(run[j], run[j + 1])
    requires Holds(run[k], blk, size)
    requires forall j :: k <= j < n ==> !GivesBlock(run[j], run[j + 1], blk)
    ensures Holds(run[n], blk, size)
    decreases n
  {
    hide Shape, Gets, Holds, Carved, Released, BestArea;
    if k < n {
      BlockStays(run, base, mplsz, k, n - 1, blk, size);
      RunShape(run, base, mplsz, n - 1);
      var a, b := run[n - 1], run[n];
      assert PoolStep(run[n - 1], run[n - 1 + 1]) && !GivesBlock(run[n - 1], run[n - 1 + 1], blk);
      if i: nat, blksz: int :| Gets(a, b, i, blksz) {
        GetsHolds(a, b, i, blksz);
      } else {
        var i: nat :| Gives(a, b, i);
        ShapeOnce(a, base, mplsz, i);
        ReleasedHolds(a, i);
      }
    }
  }

  lemma GetsHolds(a: seq<Area>, b: seq<Area>, i: nat, blksz: int)
    requires Gets(a, b, i, blksz)
    ensures i < |b| && HandsOut(a, b, a[i].Block(), b[i].size)
  {
    CarvedHolds(a, i, blksz);
  }

  lemma ShapeOnce(areas: seq<Area>, base: int, mplsz: int, i: nat)
    requires Shape(areas, base, mplsz) && i < |areas|
    ensures Once(areas, i)
  {
    forall k | 0 <= k < |areas| && k != i ensures areas[k].addr != areas[i].addr {
      var l := if k < i then k else i;
      TiledBytes(areas, base, mplsz, l);
      assert AreaOk(areas, l, 2);
    }
  }

  lemma InitialShape(base: int, mplsz: int)
    requires base % 8 == 0 && mplsz % 8 == 0 && MIN_FRAGMENT <= mplsz
    ensures Shape([Area(base, mplsz, false, 0), Area(base + mplsz + QUEUE_SIZE, 0, true, AREA_USE)], base, mplsz)
  {
  }

  lemma WholePool(areas: seq<Area>, base: int, mplsz: int)
    requires Shape(areas, base, mplsz)
    ensures Bytes(areas[..|areas| - 1]) == mplsz + QUEUE_SIZE
  {
    TiledBytes(areas, base, mplsz, 0);
    assert areas[0..|areas| - 1] == areas[..|areas| - 1];
  }

  /** An allocation hands out one block, and no other one is gained or lost. */
  lemma CarvedHolds(areas: seq<Area>, i: nat, blksz: int)
    requires i < |areas| && areas[i].Free()
    ensures i < |Carved(areas, i, blksz)|
    ensures HandsOut(areas, Carved(areas, i, blksz), areas[i].Block(), Carved(areas, i, blksz)[i].size)
  {
    hide Holds, SplitAt;
    if areas[i].size - blksz >= MIN_FRAGMENT + QUEUE_SIZE {
      SplitHolds(areas, i, blksz);
      UseHolds(SplitAt(areas, i, blksz), i, AREA_USE);
    } else {
      UseHolds(areas, i, AREA_USE);
    }
  }

  /** A release takes back one block, and every other one stays handed out. */
  lemma ReleasedHolds(areas: seq<Area>, i: nat)
    requires i < |areas| && areas[i].Live() && Once(areas, i)
    ensures TakesBack(areas, Released(areas, i), areas[i].Block())
  {
    hide Holds, JoinNext, JoinPrev;
    UnuseHolds(areas, i, 0);
    JoinHolds(Unuse(areas, i), i);
    JoinHolds(JoinNext(Unuse(areas, i), i), i);
  }

  /** Every other area is still there. */
  lemma CarvedOther(areas: seq<Area>, i: nat, blksz: int, k: nat)
    requires i < |areas| && k < |areas| && k != i
    ensures var r := Carved(areas, i, blksz);
            var j := if k < i || |r| == |areas| then k else k + 1;
            j < |r| && r[j] == areas[k]
  {
  }

  /** What a free area of the new list was. */
  lemma CarvedFree(areas: seq<Area>, i: nat, blksz: int, k: nat)
    requires i < |areas| && areas[i].Free() && 0 <= blksz
    requires k < |Carved(areas, i, blksz)| && Carved(areas, i, blksz)[k].Free()
    ensures exists j :: 0 <= j < |areas| && areas[j].Free() && Carved(areas, i, blksz)[k].size <= areas[j].size
  {
    var r := Carved(areas, i, blksz);
    var j := if k <= i || |r| == |areas| then k else k - 1;
    assert areas[j].Free() && r[k].size <= areas[j].size;
  }

  /** The block allocated is handed out, and no larger than needed but for a fragment. */
  lemma CarvedBlock(areas: seq<Area>, i: nat, blksz: int)
    requires i < |areas| && areas[i].Free() && areas[i].size >= blksz
    ensures var a := Carved(areas, i, blksz)[i];
            a.Live() && a.Block() == areas[i].Block() && blksz <= a.size < blksz + MIN_FRAGMENT + QUEUE_SIZE
    ensures Holds(Carved(areas, i, blksz), areas[i].Block(), blksz)
    ensures CutFrom(areas[i], Carved(areas, i, blksz), i, blksz)
  {
    var a := Carved(areas, i, blksz)[i];
    assert a.Live();
  }

  /** Releasing a block right after allocating it restores the pool. */
  lemma ReleaseAfterCarve(areas: seq<Area>, base: int, mplsz: int, i: nat, blksz: int)
    requires Tiled(areas, base, mplsz) && Coalesced(areas) && i < |areas| && areas[i].Free()
    requires areas[i].flags == 0 && areas[i].size >= blksz
    ensures Released(Carved(areas, i, blksz), i) == areas
  {
    assert i + 1 < |areas|;
    assert !areas[i + 1].Free();
    assert i > 0 ==> !areas[i - 1].Free();
    if areas[i].size - blksz >= MIN_FRAGMENT + QUEUE_SIZE {
      var sp := SplitAt(areas, i, blksz);
      assert Unuse(Use(sp, i), i) == sp;
      MergeSplit(areas, i, blksz);
    } else {
      assert Unuse(Use(areas, i), i) == areas;
    }
  }

  lemma CarvedMaxFree(areas: seq<Area>, i: nat, blksz: int)
    requires i < |areas| && areas[i].Free() && 0 <= blksz
    ensures MaxFree(Carved(areas, i, blksz)) <= MaxFree(areas)
    ensures NoMoreLive(Carved(areas, i, blksz), areas)
  {
    hide Carved;
    var r, s := Carved(areas, i, blksz), MaxFree(areas) + 1;
    MaxFreeNoFit(areas, s);
    forall k | 0 <= k < |r| && r[k].Free() ensures r[k].size < s { CarvedFree(areas, i, blksz, k); }
    MaxFreeNoFit(r, s);
    forall x | LiveAt(areas, x) ensures LiveAt(r, x) {
      var k :| 0 <= k < |areas| && areas[k].Live() && areas[k].Block() <= x < areas[k].End();
      CarvedOther(areas, i, blksz, k);
    }
  }

  /** A task released from the wait queue with its block. */
  datatype Grant = Grant(task: int, blksz: int, blk: int)

  /** The grants serve the front of the queue in order, each with a block of its own. */
  ghost predicate Serves(areas: seq<Area>, before: seq<Waiter<int>>, after: seq<Waiter<int>>, grants: seq<Grant>) {
    && |grants| <= |before| && after == before[|grants|..]
    && (forall g :: 0 <= g < |grants| ==>
          && grants[g].task == before[g].task && grants[g].blksz == before[g].req
          && Holds(areas, grants[g].blk, grants[g].blksz))
    && (forall g, h :: 0 <= g < h < |grants| ==> grants[g].blk != grants[h].blk)
  }

  /** The grants' blocks are new, and nothing else is handed out or lost. */
  ghost predicate GrantsOnly(areas: seq<Area>, r: seq<Area>, grants: seq<Grant>) {
    && (forall x, n :: Holds(areas, x, n) ==> Holds(r, x, n))
    && (forall x, n :: Holds(r, x, n) ==> Holds(areas, x, n) || GrantOf(grants, x))
    && (forall g, n :: 0 <= g < |grants| ==> !Holds(areas, grants[g].blk, n))
  }

  ghost predicate GrantOf(grants: seq<Grant>, blk: int) {
    exists g :: 0 <= g < |grants| && grants[g].blk == blk
  }

  /** Requests are rounded and never exceed the pool. */
  ghost predicate Requests(q: seq<Waiter<int>>, mplsz: int) {
    forall i :: 0 <= i < |q| ==> q[i].req % QUEUE_SIZE == 0 && MIN_FRAGMENT <= q[i].req <= mplsz
  }

  /** Nobody waits for memory that is there. */
  ghost predicate Quiet(q: seq<Waiter<int>>, areas: seq<Area>) {
    q != [] ==> q[0].req > MaxFree(areas)
  }

  // ---- adding up the free memory ----

  /** The bytes in the free areas. */
  function FreeBytes(areas: seq<Area>): int {
    if areas == [] then 0 else (if areas[0].Free() then areas[0].size else 0) + FreeBytes(areas[1..])
  }

  /** The bytes in the buckets: one size each, as often as it has members. */
  function IndexBytes(index: seq<Bucket>): int {
    if index == [] then 0
    else IndexBytes(index[..|index| - 1]) + index[|index| - 1].size * (1 + |index[|index| - 1].sibs|)
  }

  ghost function Sum(s: seq<int>, sz: map<int, int>): int {
    if s == [] then 0 else SizeOf(sz, s[0]) + Sum(s[1..], sz)
  }

  ghost function SizeOf(sz: map<int, int>, f: int): int {
    if f in sz then sz[f] else 0
  }

  ghost function FreeBlocks(areas: seq<Area>): (s: seq<int>)
    ensures forall f {:trigger FreeNode(areas, f)} :: FreeNode(areas, f) <==> f in s
  {
    if areas == [] then []
    else
      var r := FreeBlocks(areas[1..]);
      assert forall f ::
          FreeNode(areas, f) <==> (areas[0].Free() && areas[0].Block() == f) || FreeNode(areas[1..], f) by {
        forall f ensures FreeNode(areas, f) <==> (areas[0].Free() && areas[0].Block() == f) || FreeNode(areas[1..], f) {
          if FreeNode(areas, f) {
            var i :| 0 <= i < |areas| && areas[i].Free() && areas[i].Block() == f;
            assert i > 0 ==> areas[1..][i - 1].Free();
          }
          if FreeNode(areas[1..], f) {
            var i :| 0 <= i < |areas[1..]| && areas[1..][i].Free() && areas[1..][i].Block() == f;
            assert areas[i + 1].Free();
          }
        }
      }
      if areas[0].Free() then [areas[0].Block()] + r else r
  }

  ghost function Members(index: seq<Bucket>): (s: seq<int>)
    ensures forall f {:trigger InIndex(index, f)} :: InIndex(index, f) <==> f in s
  {
    if index == [] then []
    else
      var init, b := index[..|index| - 1], index[|index| - 1];
      var r := Members(init);
      assert forall f :: InIndex(index, f) <==> InIndex(init, f) || Has(b, f) by {
        assert index == InsertAt(init, |init|, b);
        forall f ensures InIndex(index, f) <==> InIndex(init, f) || Has(b, f) { InsertedMembers(init, |init|, b, f); }
      }
      r + [b.head] + b.sibs
  }

  lemma SumConcat(s: seq<int>, t: seq<int>, sz: map<int, int>)
    ensures Sum(s + t, sz) == Sum(s, sz) + Sum(t, sz)
  {
    if s == [] {
      assert s + t == t;
    } else {
      assert (s + t)[1..] == s[1..] + t;
      SumConcat(s[1..], t, sz);
    }
  }

  lemma {:induction false} SumConstant(s: seq<int>, sz: map<int, int>, size: int)
    requires forall f :: f in s ==> SizeOf(sz, f) == size
    ensures Sum(s, sz) == size * |s|
  {
    if s != [] {
      var t := s[1..];
      assert s[0] in s && SizeOf(sz, s[0]) == size;
      assert forall f :: f in t ==> f in s;
      SumConstant(t, sz, size);
      assert Sum(s, sz) == SizeOf(sz, s[0]) + Sum(s[1..], sz);
      assert Sum(s, sz) == size + size * |t|;
      Distribute(size, |t|);
      assert |s| == 1 + |t| && size * |s| == size * (1 + |t|);
    }
  }

  lemma Distribute(size: int, n: int)
    ensures size * (1 + n) == size + size * n
  {
  }

  /** The sum does not depend on the order. */
  lemma {:induction false} SumPermutation(s: seq<int>, t: seq<int>, sz: map<int, int>)
    requires multiset(s) == multiset(t)
    ensures Sum(s, sz) == Sum(t, sz)
  {
    if s == [] {
      assert |multiset(t)| == |t| == 0;
    } else {
      assert s[0] in multiset(t);
      var i :| 0 <= i < |t| && t[i] == s[0];
      RemoveOne(s, t, i);
      SumPermutation(s[1..], t[..i] + t[i + 1..], sz);
      SumConcat(t[..i], [t[i]] + t[i + 1..], sz);
      SumConcat(t[..i], t[i + 1..], sz);
      assert t == t[..i] + ([t[i]] + t[i + 1..]);
      assert ([t[i]] + t[i + 1..])[1..] == t[i + 1..];
    }
  }

  lemma RemoveOne(s: seq<int>, t: seq<int>, i: nat)
    requires s != [] && i < |t| && t[i] == s[0] && multiset(s) == multiset(t)
    ensures multiset(s[1..]) == multiset(t[..i] + t[i + 1..])
  {
    assert s == [s[0]] + s[1..];
    assert t == t[..i] + [t[i]] + t[i + 1..];
    assert multiset(s[1..]) == multiset(s) - multiset{s[0]};
    assert multiset(t[..i] + t[i + 1..]) == multiset(t) - multiset{t[i]};
  }

  lemma DistinctCount(s: seq<int>, x: int)
    requires Distinct(s)
    ensures multiset(s)[x] == if x in s then 1 else 0
  {
    if s != [] {
      assert s == [s[0]] + s[1..];
      DistinctCount(s[1..], x);
    }
  }

  lemma SameSetSameSum(s: seq<int>, t: seq<int>, sz: map<int, int>)
    requires Distinct(s) && Distinct(t) && forall x :: x in s <==> x in t
    ensures Sum(s, sz) == Sum(t, sz)
  {
    forall x ensures multiset(s)[x] == multiset(t)[x] {
      DistinctCount(s, x);
      DistinctCount(t, x);
    }
    assert multiset(s) == multiset(t);
    SumPermutation(s, t, sz);
  }

  lemma FreeBlocksSum(m: Memory, que: int, fque: int, all: seq<Area>, mask: int, hflags: int, i: nat, sz: map<int, int>)
    requires Layout(m, que, fque, all, mask) && AreaRing(m, que, all, hflags) && i <= |all|
    requires forall f :: f - QUEUE_SIZE in m ==> SizeOf(sz, f) == FreeSize(m, f)
    ensures Distinct(FreeBlocks(all[i..])) && Sum(FreeBlocks(all[i..]), sz) == FreeBytes(all[i..])
    decreases |all| - i
  {
    hide Layout, AreaRing;
    if i < |all| {
      FreeBlocksSum(m, que, fque, all, mask, hflags, i + 1, sz);
      assert all[i..][1..] == all[i + 1..];
      if all[i].Free() {
        AreaNext(m, que, fque, all, mask, hflags, i);
        if all[i].Block() in FreeBlocks(all[i + 1..]) {
          assert FreeNode(all[i + 1..], all[i].Block());
          var k :| 0 <= k < |all[i + 1..]| && all[i + 1..][k].Free() && all[i + 1..][k].Block() == all[i].Block();
          TwoAreas(m, que, fque, all, mask, i, i + 1 + k);
        }
      }
    }
  }

  lemma MembersSum(m: Memory, que: int, index: seq<Bucket>, nodes: set<int>, n: nat, sz: map<int, int>)
    requires Index(m, que, index, nodes) && n <= |index|
    requires forall f :: f - QUEUE_SIZE in m ==> SizeOf(sz, f) == FreeSize(m, f)
    ensures Distinct(Members(index[..n])) && Sum(Members(index[..n]), sz) == IndexBytes(index[..n])
  {
    hide Index, Ring, Spaced, BucketOk, Ascending;
    if n > 0 {
      var init, b := index[..n - 1], index[n - 1];
      MembersSum(m, que, index, nodes, n - 1, sz);
      IndexParts(m, que, index, nodes);
      BucketRing(m, b);
      BucketSizes(m, b);
      assert index[..n][..n - 1] == init;
      var s, t := Members(init), [b.head] + b.sibs;
      assert Members(index[..n]) == s + t;
      SumConcat(s, t, sz);
      forall f | f in t ensures SizeOf(sz, f) == b.size { assert Has(b, f); }
      SumConstant(t, sz, b.size);
      forall f | f in s ensures f !in t { NotInLater(m, que, index, nodes, n - 1, f); }
      ConcatDistinct(s, t);
    }
  }

  lemma BucketSizes(m: Memory, b: Bucket)
    requires BucketOk(m, b)
    ensures forall f :: Has(b, f) ==> f - QUEUE_SIZE in m && FreeSize(m, f) == b.size
  {
    forall f | Has(b, f) ensures f - QUEUE_SIZE in m && FreeSize(m, f) == b.size { assert SizeIs(m, f, b.size); }
  }

  lemma NotInLater(m: Memory, que: int, index: seq<Bucket>, nodes: set<int>, k: nat, f: int)
    requires Index(m, que, index, nodes) && k < |index| && f in Members(index[..k])
    ensures f !in [index[k].head] + index[k].sibs
  {
    hide Index;
    assert InIndex(index[..k], f);
    var l :| 0 <= l < |index[..k]| && Has(index[..k][l], f);
    OnlyBucket(m, que, index, nodes, k);
    assert index[..k][l] == index[l] && Has(index[l], f);
    assert !Has(index[k], f);
  }

  lemma ConcatDistinct(s: seq<int>, t: seq<int>)
    requires Distinct(s) && Distinct(t) && forall f :: f in s ==> f !in t
    ensures Distinct(s + t)
  {
    var r := s + t;
    forall i, j | 0 <= i < j < |r| ensures r[i] != r[j] {
      if i < |s| <= j { assert r[i] in s && r[j] in t; }
    }
  }

  lemma SizeMap(m: Memory) returns (sz: map<int, int>)
    ensures forall f :: f - QUEUE_SIZE in m ==> SizeOf(sz, f) == FreeSize(m, f)
  {
    var keys := set x | x in m :: x + QUEUE_SIZE;
    sz := map f | f in keys && f - QUEUE_SIZE in m :: FreeSize(m, f);
    forall f | f - QUEUE_SIZE in m ensures SizeOf(sz, f) == FreeSize(m, f) {
      var x := f - QUEUE_SIZE;
      assert x + QUEUE_SIZE in keys;
    }
  }

  /** The bytes in the areas in use. */
  function UsedBytes(areas: seq<Area>): int {
    if areas == [] then 0 else (if areas[0].Live() then areas[0].size else 0) + UsedBytes(areas[1..])
  }

  lemma {:induction false} AddedUp(areas: seq<Area>)
    requires forall i :: 0 <= i < |areas| && areas[i].term ==> areas[i].size == 0
    requires forall i :: 0 <= i < |areas| ==> 0 <= areas[i].flags < 2
    ensures Bytes(areas) == FreeBytes(areas) + UsedBytes(areas) + QUEUE_SIZE * |areas|
  {
    if areas != [] {
      assert forall i :: 0 <= i < |areas| - 1 ==> areas[1..][i] == areas[i + 1];
      AddedUp(areas[1..]);
    }
  }

  lemma {:induction false} BytesLast(areas: seq<Area>)
    requires areas != []
    ensures Bytes(areas) == Bytes(areas[..|areas| - 1]) + areas[|areas| - 1].size + QUEUE_SIZE
  {
    if |areas| > 1 {
      BytesLast(areas[1..]);
      assert areas[1..][..|areas| - 2] == areas[..|areas| - 1][1..];
    }
  }

  /** What tk_ref_mpl reports as free, what is in use and the nodes make up the pool. */
  lemma FreeAndUsed(areas: seq<Area>, base: int, mplsz: int)
    requires Shape(areas, base, mplsz)
    ensures FreeBytes(areas) + UsedBytes(areas) + QUEUE_SIZE * |areas| == mplsz + 2 * QUEUE_SIZE
  {
    forall i | 0 <= i < |areas|
      ensures 0 <= areas[i].flags < 2 && (areas[i].term ==> areas[i].size == 0)
    {
      assert AreaOk(areas, i, 2);
    }
    AddedUp(areas);
    BytesLast(areas);
    WholePool(areas, base, mplsz);
  }

  /** The index accounts for every free byte of the pool, and no other. */
  lemma IndexBytesAreFreeBytes(m: Memory, que: int, fque: int, areas: seq<Area>, hflags: int, nodes: set<int>,
                               index: seq<Bucket>, mask: int)
    requires Core(m, que, fque, areas, mask, hflags, nodes, {}) && Index(m, fque, index, nodes)
    ensures IndexBytes(index) == FreeBytes(areas)
  {
    hide Index, Layout, AreaRing, Spaced, BucketOk, Ring;
    var sz := SizeMap(m);
    FreeBlocksSum(m, que, fque, areas, mask, hflags, 0, sz);
    MembersSum(m, fque, index, nodes, |index|, sz);
    assert areas[0..] == areas && index[..|index|] == index;
    IndexParts(m, fque, index, nodes);
    var s, t := FreeBlocks(areas), Members(index);
    forall x ensures x in s <==> x in t {
      assert FreeNode(areas, x) <==> x in nodes;
      assert InIndex(index, x) <==> x in nodes;
    }
    SameSetSameSum(s, t, sz);
  }

  /** Is blk the address of area i's block? */
  ghost predicate AtBlock(areas: seq<Area>, i: nat, blk: int) {
    i < |areas| && !areas[i].term && areas[i].Block() == blk
  }

  /** The word in front of blk shows no use flag. */
  ghost predicate NoUseFlag(m: Memory, blk: int) {
    blk - QUEUE_SIZE in m && !TestBit(m[blk - QUEUE_SIZE].prev, AREA_USE)
  }

  /** One variable-size memory pool and the tasks waiting for its memory. */
  class MemPool {
    const heap: AreaHeap
    const base: int
    const mplsz: int
    const tpri: bool
    var waitq: seq<Waiter<int>>

    ghost predicate Valid()
      reads heap, heap.q, heap.free
    {
      && heap.Valid() && heap.mask == 2 && heap.hflags == 1 && heap.pending == {}
      && Tiled(heap.areas, base, mplsz) && Coalesced(heap.areas)
      && MIN_FRAGMENT <= mplsz <= MAX_ALLOCATE
    }

    /** init_mempool over the bytes from base: one free area between two guards. */
    constructor (q0: QueueMemory, que0: int, fque0: int, base0: int, mplsz0: int, tpri0: bool)
      requires que0 % 8 == 0 && fque0 % 8 == 0 && que0 != fque0 && que0 in q0.m && fque0 in q0.m
      requires base0 % 8 == 0 && mplsz0 % 8 == 0 && MIN_FRAGMENT <= mplsz0 <= MAX_ALLOCATE
      requires forall x :: base0 <= x < base0 + mplsz0 + 16 && x % 8 == 0 ==> x in q0.m && x != que0 && x != fque0
      modifies q0
      ensures Valid() && fresh(heap) && fresh(heap.free) && heap.q == q0
      ensures base == base0 && mplsz == mplsz0 && tpri == tpri0 && waitq == []
      ensures heap.que == que0 && heap.free.que == fque0 && heap.q.m.Keys == old(q0.m.Keys)
      ensures heap.areas == [Area(base0, mplsz0, false, 0), Area(base0 + mplsz0 + QUEUE_SIZE, 0, true, AREA_USE)]
    {
      hide Index, AreaRing, Tracks, Layout, LiveAt, NewNode, Harmless, Core;
      base, mplsz, tpri, waitq := base0, mplsz0, tpri0, [];
      var h := MemPool.InitMempool(q0, que0, fque0, base0, mplsz0);
      heap := h;
    }

    static method InitMempool(q0: QueueMemory, que0: int, fque0: int, tp: int, mplsz: int) returns (h: AreaHeap)
      requires que0 % 8 == 0 && fque0 % 8 == 0 && que0 != fque0 && que0 in q0.m && fque0 in q0.m
      requires tp % 8 == 0 && mplsz % 8 == 0 && MIN_FRAGMENT <= mplsz <= MAX_ALLOCATE
      requires forall x :: tp <= x < tp + mplsz + 16 && x % 8 == 0 ==> x in q0.m && x != que0 && x != fque0
      modifies q0
      ensures h.que == que0 && h.free.que == fque0 && h.q.m.Keys == old(q0.m.Keys)
      ensures fresh(h) && fresh(h.free) && h.q == q0 && h.Valid() && h.mask == 2 && h.hflags == AREA_USE
              && h.pending == {}
      ensures h.areas == [Area(tp, mplsz, false, 0), Area(tp + mplsz + QUEUE_SIZE, 0, true, AREA_USE)]
    {
      hide Index, AreaRing, Tracks, Layout, LiveAt, NewNode, Harmless, Core;
      h := new AreaHeap(que0, fque0, 2, mplsz / 4, q0);
      var ep := tp + mplsz + QUEUE_SIZE;
      ghost var end := Area(ep, 0, true, 0);
      ghost var all := Area(tp, mplsz, false, 0);
      InitLayouts(q0.m, que0, fque0, all, end);
      h.InsertAreaQue(que0, ep, -1, [end], {});
      InitLayouts(q0.m, que0, fque0, all, end);
      h.InsertAreaQue(que0, tp, -1, [all, end], {all.Block()});
      h.SetHeaderFlag(AREA_USE);
      h.SetFlag(ep, AREA_USE, 1);
      h.AppendFree(tp, 0);
    }

    /** get_blk: None exactly when no free area is big enough. */
    method GetBlk(blksz: int) returns (blk: Option<int>, ghost i: nat)
      requires Valid() && blksz % QUEUE_SIZE == 0 && MIN_FRAGMENT <= blksz
      modifies heap, heap.q, heap.free
      ensures Valid()
      ensures blk == None <==> blksz > MaxFree(old(heap.areas))
      ensures blk == None ==> heap.areas == old(heap.areas)
      ensures blk.Some? ==> BestArea(old(heap.areas), blksz, i) && blk.value == old(heap.areas)[i].Block()
      ensures blk.Some? ==> heap.areas == Carved(old(heap.areas), i, blksz)
      ensures blk.Some? ==> CutFrom(old(heap.areas)[i], heap.areas, i, blksz)
      ensures blk.Some? ==> forall n :: !Holds(old(heap.areas), blk.value, n)
      ensures blk.Some? ==> i < |heap.areas| && HandsOut(old(heap.areas), heap.areas, blk.value, heap.areas[i].size)
      ensures KeepsLive(old(heap.q.m), heap.q.m, old(heap.areas))
    {
      hide Index, AreaRing, Tracks, Layout, Tiled, Coalesced, NoFit, LiveAt, Holds, HandsOut;
      ghost var areas := heap.areas;
      var q;
      ghost var k;
      i := 0;
      q, k := heap.free.SearchFreeArea(blksz);
      ghost var j := FitIsBest(heap.q.m, heap.que, heap.free.que, areas, 1, heap.free.nodes, heap.free.index, 2,
                               blksz, k);
      MaxFreeNoFit(areas, blksz);
      if q == heap.free.que {
        return None, 0;
      }
      assert !NoFit(areas, blksz) by { Fits(areas, blksz, j); }
      i := j;
      CarvedHolds(areas, i, blksz);
      CarvedBlock(areas, i, blksz);
      FreeNotHeld(heap.q.m, heap.que, heap.free.que, areas, 2, i);
      heap.TakeFree(q);
      var aq := q - QUEUE_SIZE;
      AreaNext(heap.q.m, heap.que, heap.free.que, heap.areas, 2, 1, i);
      CarvedShape(areas, base, mplsz, i, blksz);
      heap.SizeNat(i);
      ghost var m := heap.q.m;
      if heap.q.m[aq].next - (aq + QUEUE_SIZE) - blksz >= MIN_FRAGMENT + QUEUE_SIZE {
        var rest := heap.Split(aq, blksz, i);
        SplitLive(areas, i, blksz);
        heap.AppendFree(rest, i + 1);
      }
      FlagZero(i);
      heap.SetFlag(aq, AREA_USE, i);
      blk := Some(aq + QUEUE_SIZE);
    }

    lemma FlagZero(i: nat)
      requires heap.Valid() && heap.mask == 2 && i < |heap.areas| && heap.areas[i].Free()
      ensures heap.areas[i].flags == 0 && SetBit(heap.areas[i].flags, AREA_USE) == AREA_USE
    {
      LayoutAt(heap.q.m, heap.que, heap.free.que, heap.areas, 2, i);
    }

    /** rel_blk: E_PAR when blk is no block, or the block of an area that is not in use. */
    method RelBlk(blk: int, ghost i: nat) returns (ercd: Er)
      requires Valid() && (AtBlock(heap.areas, i, blk) || NoUseFlag(heap.q.m, blk))
      modifies heap, heap.q, heap.free
      ensures Valid()
      ensures ercd == if AtBlock(old(heap.areas), i, blk) && old(heap.areas)[i].Live() then E_OK else E_PAR
      ensures heap.areas == if ercd == E_OK then Released(old(heap.areas), i) else old(heap.areas)
      ensures ercd != E_OK ==> heap.q.m == old(heap.q.m)
      ensures ercd == E_OK ==> TakesBack(old(heap.areas), heap.areas, blk)
      ensures KeepsLive(old(heap.q.m), heap.q.m, heap.areas)
    {
      hide Index, AreaRing, Tracks, Layout, Tiled, Coalesced, LiveAt, KeepsLive, NoMoreLive, Unuse, JoinNext, JoinPrev,
           TakesBack, Holds, Once;
      ghost var areas := heap.areas;
      ghost var m := heap.q.m;
      var aq := blk - QUEUE_SIZE;
      if AtBlock(areas, i, blk) { UseFlag(i); }
      if !TestBit(heap.q.m[aq].prev, AREA_USE) {
        KeepsLiveSame(m, areas);
        return E_PAR;
      }
      ReleasedShape(areas, base, mplsz, i);
      NodesOnce(m, heap.que, heap.free.que, areas, 2, i);
      ReleasedHolds(areas, i);
      heap.ClearUseFlag(aq, i);
      ghost var a1, m1 := heap.areas, heap.q.m;
      Unused(areas, base, mplsz, i);
      JoinNextArea(aq, i);
      ghost var a2, m2 := heap.areas, heap.q.m;
      aq := JoinPrevArea(aq, i);
      ghost var a3, m3 := heap.areas, heap.q.m;
      heap.AppendFree(aq, |a3| - |a2| + i);
      SameLive(a3);
      KeepsLiveTrans(m, m1, m2, a1, a2);
      KeepsLiveTrans(m, m2, m3, a2, a3);
      KeepsLiveTrans(m, m3, heap.q.m, a3, a3);
      return E_OK;
    }

    /** What rel_blk reads in front of a block. */
    lemma UseFlag(i: nat)
      requires Valid() && i < |heap.areas| && !heap.areas[i].term
      ensures heap.areas[i].addr in heap.q.m
      ensures TestBit(heap.q.m[heap.areas[i].addr].prev, AREA_USE) == heap.areas[i].Live()
      ensures 0 <= heap.areas[i].flags < 2
    {
      heap.WordOf(i);
      FlagsInWord(RingNode(heap.que, heap.areas, i - 1), heap.areas[i].flags);
    }

    lemma SameLive(areas: seq<Area>)
      ensures NoMoreLive(areas, areas)
    {
    }

    lemma Unused(areas: seq<Area>, base: int, mplsz: int, i: nat)
      requires Tiled(areas, base, mplsz) && i < |areas| && areas[i].Live() && areas[i].flags == AREA_USE
      ensures Unuse(areas, i) == areas[i := areas[i].(flags := areas[i].flags - 1)]
      ensures var a1, n := Unuse(areas, i), |areas| - 1;
              && i < n && a1[i].Free() && |a1| == n + 1 && a1[n].term && a1[n].flags == AREA_USE
              && forall k :: 0 <= k < n ==> !a1[k].term
    {
    }

    /** The guard that stops merging past the end, and what the flags can be. */
    lemma AreaFlags(i: nat)
      requires heap.Valid() && heap.mask == 2 && i < |heap.areas|
      ensures forall k :: 0 <= k < |heap.areas| ==> 0 <= heap.areas[k].flags < 2
    {
      forall k | 0 <= k < |heap.areas| ensures 0 <= heap.areas[k].flags < 2 {
        LayoutAt(heap.q.m, heap.que, heap.free.que, heap.areas, 2, k);
      }
    }

    method JoinNextArea(aq: int, ghost i: nat)
      requires heap.Valid() && heap.mask == 2 && i + 1 < |heap.areas| && aq == heap.areas[i].addr
      requires heap.areas[i].Free() && heap.pending == {heap.areas[i].Block()}
      requires forall k :: 0 <= k < |heap.areas| - 1 ==> !heap.areas[k].term
      requires heap.areas[|heap.areas| - 1].flags == AREA_USE && heap.areas[|heap.areas| - 1].term
      modifies heap`areas, heap`pending, heap.q, heap.free
      ensures heap.Valid() && heap.areas == JoinNext(old(heap.areas), i) && heap.pending == {heap.areas[i].Block()}
      ensures i < |heap.areas| && heap.areas[i].Free() && heap.areas[i].addr == aq
      ensures forall k :: 0 <= k < i ==> !heap.areas[k].term
      ensures NoMoreLive(old(heap.areas), heap.areas)
      ensures KeepsLive(old(heap.q.m), heap.q.m, heap.areas)
    {
      hide Index, AreaRing, Layout, LiveAt;
      var nextUsed := heap.ChkNextFlag(aq, AREA_USE, i);
      if !nextUsed {
        heap.IndexedFree(i, i + 1);
        AreaNext(heap.q.m, heap.que, heap.free.que, heap.areas, 2, heap.hflags, i);
        MergeLive(heap.areas, i);
        heap.TakeFree(heap.q.m[aq].next + QUEUE_SIZE);
        AreaNext(heap.q.m, heap.que, heap.free.que, heap.areas, 2, heap.hflags, i);
        heap.Merge(heap.q.m[aq].next, i);
      }
    }

    method JoinPrevArea(aq0: int, ghost i: nat) returns (aq: int)
      requires heap.Valid() && heap.mask == 2 && heap.hflags == 1 && i < |heap.areas| && aq0 == heap.areas[i].addr
      requires heap.areas[i].Free() && heap.pending == {heap.areas[i].Block()}
      requires forall k :: 0 <= k < i ==> !heap.areas[k].term
      modifies heap`areas, heap`pending, heap.q, heap.free
      ensures heap.Valid() && heap.areas == JoinPrev(old(heap.areas), i)
      ensures var j := |heap.areas| - |old(heap.areas)| + i;
              && 0 <= j < |heap.areas| && heap.areas[j].Free() && heap.areas[j].addr == aq
              && heap.pending == {heap.areas[j].Block()}
      ensures NoMoreLive(old(heap.areas), heap.areas)
      ensures KeepsLive(old(heap.q.m), heap.q.m, heap.areas)
    {
      hide Index, AreaRing, Layout, LiveAt;
      aq := aq0;
      AreaFlags(i);
      AreaNext(heap.q.m, heap.que, heap.free.que, heap.areas, 2, heap.hflags, i);
      var prevUsed := heap.ChkFlag(heap.q.m[aq].prev, AREA_USE, i - 1);
      if !prevUsed {
        aq := heap.q.m[aq].prev;
        heap.IndexedFree(i, i - 1);
        MergeLive(heap.areas, i - 1);
        heap.TakeFree(aq + QUEUE_SIZE);
        AreaNext(heap.q.m, heap.que, heap.free.que, heap.areas, 2, heap.hflags, i - 1);
        heap.Merge(heap.q.m[aq].next, i - 1);
      }
    }

    /** MaxFreeSize: the last bucket of the index holds the largest free areas. */
    method MaxFreeSize() returns (size: int)
      requires Valid()
      ensures size == MaxFree(heap.areas)
    {
      hide Index, AreaRing, Layout, Ring;
      ghost var areas, index, n := heap.areas, heap.free.index, |heap.free.index|;
      heap.free.Step(n);
      heap.free.HeaderOnlyAtEnd(n + 1);
      IndexParts(heap.q.m, heap.free.que, index, heap.free.nodes);
      var empty := heap.q.IsQueEmpty(heap.free.que, [heap.free.que] + Heads(index));
      size := 0;
      if !empty {
        size := FreeSize(heap.q.m, heap.q.m[heap.free.que].prev);
        ghost var i := HeadArea(heap.q.m, heap.que, heap.free.que, areas, 1, heap.free.nodes, {}, index, 2, n - 1);
        heap.SizeNat(i);
        MaxFreeNoFit(areas, size);
        Fits(areas, size, i);
      }
      ghost var j := FitIsBest(heap.q.m, heap.que, heap.free.que, areas, 1, heap.free.nodes, index, 2, size + 1, n);
      MaxFreeNoFit(areas, size + 1);
    }

    /** The state between system calls. */
    ghost predicate Settled()
      reads this, heap, heap.q, heap.free
    {
      Valid() && Requests(waitq, mplsz) && TasksDistinct(waitq) && Quiet(waitq, heap.areas)
    }

    /** mpl_wakeup: serves the queue from the front for as long as the head fits. */
    method Wakeup() returns (ghost grants: seq<Grant>)
      requires Valid() && Requests(waitq, mplsz)
      modifies this`waitq, heap, heap.q, heap.free
      ensures Valid() && Quiet(waitq, heap.areas) && Requests(waitq, mplsz)
      ensures TasksDistinct(old(waitq)) ==> TasksDistinct(waitq)
      ensures Serves(heap.areas, old(waitq), waitq, grants)
      ensures old(waitq) != [] && old(waitq)[0].req <= MaxFree(old(heap.areas)) ==> grants != []
      ensures grants == [] ==> heap.areas == old(heap.areas)
      ensures NoMoreLive(heap.areas, old(heap.areas))
      ensures KeepsLive(old(heap.q.m), heap.q.m, old(heap.areas))
      ensures GrantsOnly(old(heap.areas), heap.areas, grants)
    {
      hide Index, AreaRing, Layout, Tracks, Tiled, Coalesced, LiveAt, KeepsLive, NoMoreLive, Carved, BestArea, Holds,
           HandsOut, GrantsOnly;
      ghost var q0, m0, a0 := waitq, heap.q.m, heap.areas;
      grants := [];
      SameLive(a0);
      KeepsLiveSame(m0, a0);
      assert GrantsOnly(a0, a0, []) by { NoGrants(a0); }
      while waitq != []
        invariant Valid() && Requests(waitq, mplsz) && Requests(q0, mplsz)
        invariant Serves(heap.areas, q0, waitq, grants)
        invariant grants == [] ==> heap.areas == a0
        invariant NoMoreLive(heap.areas, a0) && KeepsLive(m0, heap.q.m, a0)
        invariant GrantsOnly(a0, heap.areas, grants)
        decreases |waitq|
      {
        var top := waitq[0];
        var max := MaxFreeSize();
        if top.req > max {
          break;
        }
        ghost var a, m := heap.areas, heap.q.m;
        var blk;
        ghost var i;
        blk, i := GetBlk(top.req);
        Served(a, m, i, top.req, a0, m0, grants, Grant(top.task, top.req, blk.value));
        waitq := waitq[1..];
        grants := grants + [Grant(top.task, top.req, blk.value)];
      }
    }

    lemma NoGrants(areas: seq<Area>)
      ensures GrantsOnly(areas, areas, [])
    {
    }

    /** One grant more. */
    lemma Served(a: seq<Area>, m: Memory, i: nat, blksz: int, a0: seq<Area>, m0: Memory, grants: seq<Grant>,
                 last: Grant)
      requires BestArea(a, blksz, i) && 0 <= blksz && last.blk == a[i].Block()
      requires forall n :: !Holds(a, a[i].Block(), n)
      requires NoMoreLive(a, a0) && KeepsLive(m0, m, a0) && KeepsLive(m, heap.q.m, a)
      requires GrantsOnly(a0, a, grants)
      requires forall g :: 0 <= g < |grants| ==> Holds(a, grants[g].blk, grants[g].blksz)
      ensures var r := Carved(a, i, blksz);
              && NoMoreLive(r, a0) && KeepsLive(m0, heap.q.m, a0)
              && Holds(r, a[i].Block(), blksz)
              && GrantsOnly(a0, r, grants + [last])
              && (forall g :: 0 <= g < |grants| ==>
                    Holds(r, grants[g].blk, grants[g].blksz) && grants[g].blk != a[i].Block())
    {
      hide LiveAt, Carved, Holds;
      CarvedMaxFree(a, i, blksz);
      CarvedBlock(a, i, blksz);
      KeepsLiveMore(m0, m, heap.q.m, a0, a);
      CarvedHolds(a, i, blksz);
      MoreGrants(a0, a, Carved(a, i, blksz), grants, last, Carved(a, i, blksz)[i].size);
    }

    lemma MoreGrants(a0: seq<Area>, a: seq<Area>, r: seq<Area>, grants: seq<Grant>, last: Grant, size: int)
      requires GrantsOnly(a0, a, grants) && HandsOut(a, r, last.blk, size)
      requires forall n :: !Holds(a, last.blk, n)
      ensures GrantsOnly(a0, r, grants + [last])
    {
      hide Holds;
      var all := grants + [last];
      assert all[|grants|] == last;
      forall x | GrantOf(grants, x) ensures GrantOf(all, x) {
        var g :| 0 <= g < |grants| && grants[g].blk == x;
        assert all[g].blk == x;
      }
    }

    /** What users wrote into their blocks since the last call changes nothing here. */
    twostate lemma UsersWritePool()
      requires old(Settled()) && unchanged(this) && unchanged(heap) && unchanged(heap.free)
      requires UsersWrote(old(heap.q.m), heap.q.m, heap.areas)
      ensures Settled()
    {
      hide Core, Index, Tiled, Coalesced, LiveAt;
      heap.UsersWriteHere();
    }

    // ---- system calls ----

    /** _tk_get_mpl_u by a task of this priority. */
    method GetMpl(task: int, pri: int, size: int, indp: bool, poll: bool, diswai: bool) returns (ercd: Er, p_blk: int)
      requires Settled() && !Waiting(waitq, task)
      modifies this`waitq, heap, heap.q, heap.free
      ensures Settled()
      ensures ercd == if !(0 < size <= MAX_ALLOCATE) then E_PAR
                      else if indp then E_CTX
                      else if RoundSize(size) > mplsz then E_PAR
                      else if diswai then E_DISWAI
                      else if CallerFirst(old(waitq), pri, tpri) && RoundSize(size) <= MaxFree(old(heap.areas))
                      then E_OK
                      else if poll then E_TMOUT
                      else Waits
      ensures ercd == E_OK ==>
                && Holds(heap.areas, p_blk, size)
                && (exists i :: BestArea(old(heap.areas), RoundSize(size), i)
                                && p_blk == old(heap.areas)[i].Block()
                                && heap.areas == Carved(old(heap.areas), i, RoundSize(size))
                                && CutFrom(old(heap.areas)[i], heap.areas, i, RoundSize(size)))
                && (forall n :: !Holds(old(heap.areas), p_blk, n))
                && (exists n :: HandsOut(old(heap.areas), heap.areas, p_blk, n))
      ensures ercd != E_OK ==> heap.areas == old(heap.areas)
      ensures ercd == Waits ==> waitq == Enqueue(old(waitq), Waiter(task, pri, RoundSize(size)), tpri)
      ensures ercd == Waits ==> Placed(old(waitq), Waiter(task, pri, RoundSize(size)), tpri, waitq)
      ensures ercd != Waits ==> waitq == old(waitq)
      ensures KeepsLive(old(heap.q.m), heap.q.m, old(heap.areas))
    {
      hide Index, AreaRing, Layout, Tracks, Tiled, Coalesced, LiveAt, NoMoreLive, Carved, BestArea, Holds, HandsOut,
           KeepsLive, Requests, TasksDistinct, Waiting, Enqueue, Placed, Core, RoundSize;
      KeepsLiveSame(heap.q.m, heap.areas);
      p_blk := 0;
      if !(0 < size <= MAX_ALLOCATE) {
        return E_PAR, p_blk;
      }
      if indp {
        return E_CTX, p_blk;
      }
      var blksz := RoundSize(size);
      if blksz > mplsz {
        return E_PAR, p_blk;
      }
      if diswai {
        return E_DISWAI, p_blk;
      }
      var blk: Option<int> := None;
      if CallerFirst(waitq, pri, tpri) {
        ghost var a := heap.areas;
        ghost var i;
        blk, i := GetBlk(blksz);
        if blk.Some? { GotBlock(a, i, blksz, size); }
      }
      if blk.Some? {
        return E_OK, blk.value;
      }
      if poll {
        return E_TMOUT, p_blk;
      }
      ghost var w := Waiter(task, pri, blksz);
      QuietEnqueued(waitq, w, heap.areas);
      EnqueueDistinct(waitq, w, tpri);
      EnqueuePlaced(waitq, w, tpri);
      RequestsMore(waitq, w);
      waitq := Enqueue(waitq, Waiter(task, pri, blksz), tpri);
      return Waits, p_blk;
    }

    /** A new waiter is behind the head, or is a head that does not fit. */
    lemma QuietEnqueued(q: seq<Waiter<int>>, w: Waiter<int>, areas: seq<Area>)
      requires Quiet(q, areas) && (CallerFirst(q, w.pri, tpri) ==> w.req > MaxFree(areas))
      ensures Quiet(Enqueue(q, w, tpri), areas)
    {
      EnqueueBehind(q, w, tpri);
    }

    lemma GotBlock(a: seq<Area>, i: nat, blksz: int, size: int)
      requires BestArea(a, blksz, i) && size <= blksz && 0 <= blksz
      ensures Holds(Carved(a, i, blksz), a[i].Block(), size)
      ensures MaxFree(Carved(a, i, blksz)) <= MaxFree(a)
    {
      CarvedBlock(a, i, blksz);
      CarvedMaxFree(a, i, blksz);
      var r := Carved(a, i, blksz);
      var k :| 0 <= k < |r| && r[k].Live() && r[k].Block() == a[i].Block() && r[k].size >= blksz;
      assert r[k].size >= size;
    }

    lemma RequestsMore(q: seq<Waiter<int>>, w: Waiter<int>)
      requires Requests(q, mplsz) && w.req % QUEUE_SIZE == 0 && MIN_FRAGMENT <= w.req <= mplsz
      ensures Requests(Enqueue(q, w, tpri), mplsz)
    {
      EnqueueMembers(q, w, tpri);
      var r := Enqueue(q, w, tpri);
      forall i | 0 <= i < |r| ensures r[i].req % QUEUE_SIZE == 0 && MIN_FRAGMENT <= r[i].req <= mplsz {
        assert r[i] in r;
        assert r[i] == w || exists j :: 0 <= j < |q| && q[j] == r[i];
      }
    }

    /** Is blk in the range that _tk_rel_mpl accepts? The end node's word holds its use flag. */
    ghost predicate InRange(blk: int) {
      base <= blk <= base + mplsz + QUEUE_SIZE + AREA_USE
    }

    /** _tk_rel_mpl: the caller passes any address but one inside the pool that is no block's and
        has a word in front of it that looks like one of an area in use. */
    method RelMpl(blk: int, indp: bool, ghost i: nat) returns (ercd: Er, ghost grants: seq<Grant>)
      requires Settled()
      requires !indp && InRange(blk) ==> AtBlock(heap.areas, i, blk) || NoUseFlag(heap.q.m, blk)
      modifies this`waitq, heap, heap.q, heap.free
      ensures Settled()
      ensures ercd == if indp then E_CTX
                      else if InRange(blk) && AtBlock(old(heap.areas), i, blk) && old(heap.areas)[i].Live() then E_OK
                      else E_PAR
      ensures ercd != E_OK ==> heap.areas == old(heap.areas) && heap.q.m == old(heap.q.m) && waitq == old(waitq)
      ensures ercd == E_OK ==> Serves(heap.areas, old(waitq), waitq, grants)
      ensures ercd == E_OK && grants == [] ==> heap.areas == Released(old(heap.areas), i)
      ensures ercd == E_OK ==>
                && TakesBack(old(heap.areas), Released(old(heap.areas), i), blk)
                && GrantsOnly(Released(old(heap.areas), i), heap.areas, grants)
      ensures ercd == E_OK ==> KeepsLive(old(heap.q.m), heap.q.m, Released(old(heap.areas), i))
    {
      hide Index, AreaRing, Layout, Tracks, LiveAt, NoMoreLive, Holds, KeepsLive, Released, TakesBack, GrantsOnly;
      grants := [];
      ghost var m, a := heap.q.m, heap.areas;
      if indp {
        return E_CTX, grants;
      }
      Bounds();
      if blk < heap.q.m[heap.que].next || blk > heap.q.m[heap.que].prev {
        return E_PAR, grants;
      }
      ercd := RelBlk(blk, i);
      if ercd != E_OK {
        return ercd, grants;
      }
      ghost var m1, a1, q0 := heap.q.m, heap.areas, waitq;
      grants := Wakeup();
      KeepsLiveTwice(m, m1, heap.q.m, a1);
    }

    lemma Bounds()
      requires Valid()
      ensures heap.que in heap.q.m && heap.q.m[heap.que].next == base
      ensures heap.q.m[heap.que].prev == base + mplsz + QUEUE_SIZE + AREA_USE
    {
      AreaNext(heap.q.m, heap.que, heap.free.que, heap.areas, 2, 1, -1);
      heap.HeaderWord();
    }

    /** mpl_rel_wai: a wait ends by timeout, release or termination; its task is off the queue. */
    method EndWait(task: int) returns (ghost grants: seq<Grant>)
      requires Settled()
      modifies this`waitq, heap, heap.q, heap.free
      ensures Settled() && !Waiting(waitq, task)
      ensures Serves(heap.areas, Without(old(waitq), task), waitq, grants)
      ensures forall i :: 0 <= i < |old(waitq)| && old(waitq)[i].task == task ==>
                Serves(heap.areas, RemoveAt(old(waitq), i), waitq, grants)
      ensures KeepsLive(old(heap.q.m), heap.q.m, old(heap.areas))
      ensures GrantsOnly(old(heap.areas), heap.areas, grants)
    {
      hide Index, AreaRing, Layout, Tracks, LiveAt, NoMoreLive, Holds, KeepsLive, GrantsOnly, Tiled, Coalesced,
           Requests, TasksDistinct, RemoveAt;
      ghost var q0, q1 := waitq, Without(waitq, task);
      forall i | 0 <= i < |q0| && q0[i].task == task ensures q1 == RemoveAt(q0, i) { WithoutAt(q0, i); }
      WithoutDistinct(waitq, task);
      RequestsFewer(waitq, q1);
      waitq := Without(waitq, task);
      grants := Wakeup();
    }

    lemma RequestsFewer(q: seq<Waiter<int>>, r: seq<Waiter<int>>)
      requires Requests(q, mplsz) && forall w :: w in r ==> w in q
      ensures Requests(r, mplsz)
    {
      forall i | 0 <= i < |r| ensures r[i].req % QUEUE_SIZE == 0 && MIN_FRAGMENT <= r[i].req <= mplsz {
        assert r[i] in r;
      }
    }

    /** mpl_chg_pri: only TA_TPRI pools reorder, and only they have this hook. */
    method ChgPri(w: Waiter<int>, pri: int) returns (ghost grants: seq<Grant>)
      requires Settled() && tpri && w in waitq
      modifies this`waitq, heap, heap.q, heap.free
      ensures Settled()
      ensures Serves(heap.areas, Enqueue(Without(old(waitq), w.task), w.(pri := pri), true), waitq, grants)
      ensures exists i, q :: 0 <= i < |old(waitq)| && old(waitq)[i] == w
                             && Requeued(old(waitq), i, pri, q) && Serves(heap.areas, q, waitq, grants)
      ensures KeepsLive(old(heap.q.m), heap.q.m, old(heap.areas))
      ensures GrantsOnly(old(heap.areas), heap.areas, grants)
    {
      hide Index, AreaRing, Layout, Tracks, LiveAt, NoMoreLive, Holds, KeepsLive, GrantsOnly, Tiled, Coalesced,
           Requests, TasksDistinct, Requeued, Serves;
      ghost var q1 := Enqueue(Without(waitq, w.task), w.(pri := pri), true);
      RequeuedRequests(waitq, w, pri);
      ghost var i :| 0 <= i < |waitq| && waitq[i] == w;
      RequeuedAt(waitq, i, pri);
      waitq := Without(waitq, w.task);
      waitq := InsertTpri(waitq, w.(pri := pri));
      grants := Wakeup();
    }

    /** gcb_change_priority on a queue: the same requests, every task still once. */
    lemma RequeuedRequests(q: seq<Waiter<int>>, w: Waiter<int>, pri: int)
      requires Requests(q, mplsz) && TasksDistinct(q) && w in q && tpri
      ensures var r := Enqueue(Without(q, w.task), w.(pri := pri), true);
              Requests(r, mplsz) && TasksDistinct(r)
    {
      var rest := Without(q, w.task);
      WithoutDistinct(q, w.task);
      RequestsFewer(q, rest);
      RequestsMore(rest, w.(pri := pri));
      EnqueueDistinct(rest, w.(pri := pri), true);
    }

    /** Whoever waits, waits for memory that somebody holds; and once every block is
        back, nobody waits and the pool is one free area. */
    lemma WaitersImplyUse()
      requires Settled()
      ensures waitq != [] ==> exists i :: 0 <= i < |heap.areas| && heap.areas[i].Live()
      ensures (forall i :: 0 <= i < |heap.areas| ==> !heap.areas[i].Live()) ==>
                waitq == [] && heap.areas == [Area(base, mplsz, false, 0),
                                              Area(base + mplsz + QUEUE_SIZE, 0, true, AREA_USE)]
    {
      if forall i :: 0 <= i < |heap.areas| ==> !heap.areas[i].Live() {
        LayoutSound(heap.q.m, heap.que, heap.free.que, heap.areas);
        NothingInUse(heap.areas, base, mplsz);
      }
    }

    /** _tk_ref_mpl: walks the outer ring, and the inner ring of each node on it. */
    method RefMpl() returns (frsz: int, maxsz: int)
      requires Valid()
      ensures frsz == FreeBytes(heap.areas) && maxsz == MaxFree(heap.areas)
    {
      hide Index, AreaRing, Layout, Ring, Tracks, Tiled, Coalesced, Spaced, BucketOk, Ascending, Core;
      ghost var m, index := heap.q.m, heap.free.index;
      assert IndexBytes(index) == FreeBytes(heap.areas) by {
        IndexBytesAreFreeBytes(m, heap.que, heap.free.que, heap.areas, 1, heap.free.nodes, index, 2);
      }
      IndexParts(m, heap.free.que, index, heap.free.nodes);
      assert index[..|index|] == index;
      frsz := 0;
      ghost var k := 0;
      heap.free.Step(0);
      var fq := heap.q.m[heap.free.que].next;
      heap.free.HeaderOnlyAtEnd(1);
      while fq != heap.free.que
        invariant k <= |index| && fq == heap.free.At(k + 1) && (k == |index| <==> fq == heap.free.que)
        invariant frsz == IndexBytes(index[..k])
        decreases |index| - k
      {
        heap.free.Step(k + 1);
        var blksz := FreeSize(heap.q.m, fq);
        BucketRing(m, index[k]);
        OneMoreBucket(index, k);
        frsz := AddSiblings(fq, blksz, frsz + blksz, index[k]);
        fq := heap.q.m[fq].next;
        k := k + 1;
        heap.free.HeaderOnlyAtEnd(k + 1);
      }
      maxsz := MaxFreeSize();
    }

    lemma OneMoreBucket(index: seq<Bucket>, k: nat)
      requires k < |index|
      ensures IndexBytes(index[..k + 1]) == IndexBytes(index[..k]) + index[k].size + index[k].size * |index[k].sibs|
    {
      assert index[..k + 1][..k] == index[..k];
    }

    lemma NextNotFirst(s: seq<int>, j: nat)
      requires Distinct(s) && j < |s|
      ensures After(s, j) == s[0] ==> j + 1 == |s|
    {
    }

    /** The inner loop of _tk_ref_mpl. */
    method AddSiblings(fq: int, blksz: int, frsz0: int, ghost b: Bucket) returns (frsz: int)
      requires Ring(heap.q.m, InnerRing(b)) && b.head == fq
      ensures frsz == frsz0 + blksz * |b.sibs|
    {
      hide Ring;
      ghost var inner := InnerRing(b);
      RingFacts(heap.q.m, inner);
      RingPred(heap.q.m, inner, 0);
      frsz := frsz0;
      var q := heap.q.m[fq + QUEUE_SIZE].next;
      ghost var j := 0;
      NextNotFirst(inner, 0);
      while q != fq + QUEUE_SIZE
        invariant 0 <= j <= |b.sibs| && q == (if j < |b.sibs| then inner[j + 1] else inner[0])
        invariant q == fq + QUEUE_SIZE ==> j == |b.sibs|
        invariant frsz == frsz0 + blksz * j
        decreases |b.sibs| - j
      {
        RingPred(heap.q.m, inner, j + 1);
        frsz := frsz + blksz;
        q := heap.q.m[q].next;
        j := j + 1;
        NextNotFirst(inner, j);
      }
    }
  }
}
