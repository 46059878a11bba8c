/** Kernel memory allocation in pages (kernel/sysmgr/src/imalloc.c). The areas of all
    page runs are on one ring; TOP and END flags mark where a run starts and ends. */
module IMalloc {
  import opened Queue
  import opened FreeIndex
  import opened Areas

  const AREA_TOP := 2
  const AREA_END := 4
  const WORD := 0x1_0000_0000   // size_t wraps here

  // ---- sizes, in 32-bit arithmetic ----

  /** size_t holds the value modulo WORD. */
  function Wrap(x: int): int {
    x % WORD
  }

  /** The size that imalloc looks for: at least MIN_FRAGMENT, then ROUND. */
  function BlockSize(size: nat): int {
    var s := if size < MIN_FRAGMENT then MIN_FRAGMENT else size;
    var t := Wrap(s + (QUEUE_SIZE - 1));
    t - t % QUEUE_SIZE
  }

  /** PageCount(size + sizeof(QUEUE) * 2) */
  function RunPages(blksz: int, pagesz: int): int
    requires pagesz > 0
  {
    Wrap(Wrap(blksz + 2 * QUEUE_SIZE) + (pagesz - 1)) / pagesz
  }

  /** The same size without wrap-around. */
  function Rounded(size: nat): int {
    var s := if size < MIN_FRAGMENT then MIN_FRAGMENT else size;
    s + (QUEUE_SIZE - 1) - (s + (QUEUE_SIZE - 1)) % QUEUE_SIZE
  }

  lemma BlockSizeExact(size: nat)
    requires size < WORD
    ensures BlockSize(size) >= size <==> size <= WORD - QUEUE_SIZE
    ensures size <= WORD - QUEUE_SIZE ==>
              && BlockSize(size) < (if size < MIN_FRAGMENT then MIN_FRAGMENT else size) + QUEUE_SIZE
              && BlockSize(size) == Rounded(size) && BlockSize(size) % 8 == 0
              && 16 <= BlockSize(size)
  {
  }

  /** A run of RunPages pages has room for the block between its end nodes exactly
      when the arithmetic does not wrap. */
  lemma FreshRunCovers(size: nat, pagesz: nat)
    requires size < WORD && 8 <= pagesz < WORD && pagesz % 8 == 0
    ensures BlockSize(size) >= size && RunPages(BlockSize(size), pagesz) * pagesz - 2 * QUEUE_SIZE >= BlockSize(size)
            <==> Rounded(size) + 2 * QUEUE_SIZE + (pagesz - 1) < WORD
    ensures Rounded(size) + 2 * QUEUE_SIZE + (pagesz - 1) < WORD ==>
              (RunPages(BlockSize(size), pagesz) - 1) * pagesz < BlockSize(size) + 2 * QUEUE_SIZE
  {
    BlockSizeExact(size);
    hide BlockSize, RunPages, Rounded;
    if size <= WORD - QUEUE_SIZE {
      if Rounded(size) + 2 * QUEUE_SIZE + (pagesz - 1) < WORD {
        NoWrapCovers(BlockSize(size), pagesz);
      } else {
        WrapMisses(BlockSize(size), pagesz);
      }
    } else {
      RoundedUp(size);
    }
  }

  lemma RoundedUp(size: nat)
    ensures Rounded(size) >= size
  {
  }

  lemma NoWrapCovers(b: int, pagesz: nat)
    requires 0 <= b && 0 < pagesz && b + 2 * QUEUE_SIZE + (pagesz - 1) < WORD
    ensures RunPages(b, pagesz) * pagesz - 2 * QUEUE_SIZE >= b
    ensures (RunPages(b, pagesz) - 1) * pagesz < b + 2 * QUEUE_SIZE
  {
    hide Wrap;
    var x := b + 2 * QUEUE_SIZE + (pagesz - 1);
    NoWrap(b + 2 * QUEUE_SIZE);
    NoWrap(x);
    DivBounds(x, pagesz);
  }

  lemma NoWrap(x: int)
    requires 0 <= x < WORD
    ensures Wrap(x) == x
  {
  }

  lemma WrapMisses(b: int, pagesz: nat)
    requires 16 <= b < WORD && b % 8 == 0 && 8 <= pagesz < WORD && pagesz % 8 == 0
    requires b + 2 * QUEUE_SIZE + (pagesz - 1) >= WORD
    ensures RunPages(b, pagesz) * pagesz - 2 * QUEUE_SIZE < b
  {
    hide Wrap;
    WrapSmall(b, pagesz);
    AtMostOne(Wrap(Wrap(b + 2 * QUEUE_SIZE) + (pagesz - 1)), pagesz);
  }

  lemma WrapSmall(b: int, pagesz: nat)
    requires 16 <= b < WORD && b % 8 == 0 && 8 <= pagesz < WORD && pagesz % 8 == 0
    requires b + 2 * QUEUE_SIZE + (pagesz - 1) >= WORD
    ensures var z := Wrap(Wrap(b + 2 * QUEUE_SIZE) + (pagesz - 1));
            && 0 <= z < 2 * pagesz && (z < pagesz || pagesz - 2 * QUEUE_SIZE < b)
  {
  }

  lemma AtMostOne(z: int, d: int)
    requires 0 <= z < 2 * d
    ensures z / d * d <= d && (z < d ==> z / d * d == 0)
  {
    var q := z / d;
    DivBounds(z, d);
    if q >= 2 { MulAtLeast(q, d, 2); }
    if z < d && q >= 1 { MulAtLeast(q, d, 1); }
  }

  lemma MulAtLeast(q: int, d: int, k: int)
    requires q >= k && d > 0
    ensures q * d >= k * d
  {
  }

  lemma DivBounds(x: int, d: int)
    requires 0 <= x && d > 0
    ensures x / d * d <= x < x / d * d + d
  {
  }

  // ---- page runs ----

  /** The first area of a run is marked TOP, and only that; the end nodes are marked
      END and nothing else. */
  ghost predicate RunOk(areas: seq<Area>, i: int)
    requires 0 <= i < |areas|
  {
    && (!areas[i].term ==>
          && i + 1 < |areas|
          && (i == 0 || areas[i - 1].term <==> TestBit(areas[i].flags, AREA_TOP))
          && !TestBit(areas[i].flags, AREA_END))
    && (areas[i].term ==> areas[i].flags == AREA_END)
  }

  ghost predicate Runs(areas: seq<Area>) {
    forall i {:trigger RunOk(areas, i)} :: 0 <= i < |areas| ==> RunOk(areas, i)
  }

  ghost predicate TopAt(areas: seq<Area>, x: int) {
    exists i :: 0 <= i < |areas| && !areas[i].term && TestBit(areas[i].flags, AREA_TOP) && areas[i].addr == x
  }

  /** The pages held are the ones that runs start at. */
  ghost predicate HoldsPages(areas: seq<Area>, pages: set<int>) {
    forall x {:trigger TopAt(areas, x)} :: TopAt(areas, x) <==> x in pages
  }

  /** A whole run that is one free area. */
  ghost predicate Idle(areas: seq<Area>, i: int)
    requires 0 <= i < |areas|
  {
    areas[i].Free() && TestBit(areas[i].flags, AREA_TOP) && i + 1 < |areas| && areas[i + 1].term
  }

  ghost predicate NoIdleRun(areas: seq<Area>) {
    forall i {:trigger Idle(areas, i)} :: 0 <= i < |areas| ==> !Idle(areas, i)
  }

  function Used(areas: seq<Area>, i: nat): seq<Area>
    requires i < |areas|
  {
    areas[i := areas[i].(flags := SetBit(areas[i].flags, AREA_USE))]
  }

  function Unused(areas: seq<Area>, i: nat): seq<Area>
    requires i < |areas|
  {
    areas[i := areas[i].(flags := ClearBit(areas[i].flags, AREA_USE))]
  }

  /** mem_alloc on area i. */
  function Allocated(areas: seq<Area>, i: nat, blksz: int): seq<Area>
    requires i < |areas|
  {
    Used(if areas[i].size - blksz >= MIN_FRAGMENT + QUEUE_SIZE then SplitAt(areas, i, blksz) else areas, i)
  }

  /** A run of its own at the front of the ring, allocated from. */
  function WithRun(areas: seq<Area>, page: int, size: int): seq<Area> {
    [Area(page, size, false, AREA_TOP), Area(page + QUEUE_SIZE + size, 0, true, AREA_END)] + areas
  }

  /** The free area that ifree makes of area i, and where it is then. */
  function Freed(areas: seq<Area>, i: nat): seq<Area>
    requires i < |areas|
  {
    JoinPrev(JoinNext(Unused(areas, i), i), i)
  }

  function FreedIndex(areas: seq<Area>, i: nat): int
    requires i < |areas|
  {
    |Freed(areas, i)| - |JoinNext(Unused(areas, i), i)| + i
  }

  function WithoutRun(areas: seq<Area>, i: nat): seq<Area>
    requires i + 1 < |areas|
  {
    areas[..i] + areas[i + 2..]
  }

  lemma FlagBits(fl: int)
    requires 0 <= fl < 8
    ensures 0 <= SetBit(fl, AREA_USE) < 8 && 0 <= ClearBit(fl, AREA_USE) < 8
    ensures TestBit(SetBit(fl, AREA_USE), AREA_TOP) == TestBit(fl, AREA_TOP)
    ensures TestBit(SetBit(fl, AREA_USE), AREA_END) == TestBit(fl, AREA_END)
    ensures TestBit(ClearBit(fl, AREA_USE), AREA_TOP) == TestBit(fl, AREA_TOP)
    ensures TestBit(ClearBit(fl, AREA_USE), AREA_END) == TestBit(fl, AREA_END)
    ensures SetBit(fl, AREA_USE) % 2 == 1 && ClearBit(fl, AREA_USE) % 2 == 0
  {
  }

  /** Area k of r does for its run what area j of areas does for its. */
  ghost predicate SameRole(areas: seq<Area>, r: seq<Area>, j: int, k: int)
    requires 0 <= j < |areas| && 0 <= k < |r|
  {
    && r[k].term == areas[j].term && r[k].addr == areas[j].addr
    && TestBit(r[k].flags, AREA_TOP) == TestBit(areas[j].flags, AREA_TOP)
    && TestBit(r[k].flags, AREA_END) == TestBit(areas[j].flags, AREA_END)
    && (areas[j].term ==> r[k].flags == areas[j].flags)
  }

  lemma SameRoleOk(areas: seq<Area>, r: seq<Area>, j: int, k: int)
    requires 0 <= j < |areas| && 0 <= k < |r| && SameRole(areas, r, j, k) && RunOk(areas, j)
    requires (k == 0 || r[k - 1].term) == (j == 0 || areas[j - 1].term)
    requires j + 1 < |areas| ==> k + 1 < |r|
    ensures RunOk(r, k)
  {
  }

  /** TOP areas correspond, but for those that from and back leave out. */
  lemma SameTops(areas: seq<Area>, r: seq<Area>, pages: set<int>, pages2: set<int>)
    requires HoldsPages(areas, pages)
    requires forall k :: 0 <= k < |r| && !r[k].term && TestBit(r[k].flags, AREA_TOP) ==> r[k].addr in pages2
    requires forall x :: x in pages2 ==> TopAt(r, x)
    ensures HoldsPages(r, pages2)
  {
  }

  lemma TopIn(areas: seq<Area>, pages: set<int>, i: int)
    requires HoldsPages(areas, pages) && 0 <= i < |areas| && !areas[i].term && TestBit(areas[i].flags, AREA_TOP)
    ensures areas[i].addr in pages
  {
    assert TopAt(areas, areas[i].addr);
  }

  lemma TopOut(areas: seq<Area>, pages: set<int>, x: int) returns (i: int)
    requires HoldsPages(areas, pages) && x in pages
    ensures 0 <= i < |areas| && !areas[i].term && TestBit(areas[i].flags, AREA_TOP) && areas[i].addr == x
  {
    assert TopAt(areas, x);
    i :| 0 <= i < |areas| && !areas[i].term && TestBit(areas[i].flags, AREA_TOP) && areas[i].addr == x;
  }

  lemma RunsFlag(areas: seq<Area>, pages: set<int>, i: nat, fl: int)
    requires Runs(areas) && HoldsPages(areas, pages) && i < |areas| && !areas[i].term
    requires TestBit(fl, AREA_TOP) == TestBit(areas[i].flags, AREA_TOP)
             && TestBit(fl, AREA_END) == TestBit(areas[i].flags, AREA_END)
    ensures Runs(areas[i := areas[i].(flags := fl)]) && HoldsPages(areas[i := areas[i].(flags := fl)], pages)
  {
    hide TestBit;
    var r := areas[i := areas[i].(flags := fl)];
    forall k | 0 <= k < |r| ensures RunOk(r, k) {
      assert RunOk(areas, k);
      SameRoleOk(areas, r, k, k);
    }
    forall k | 0 <= k < |r| && !r[k].term && TestBit(r[k].flags, AREA_TOP) ensures r[k].addr in pages {
      TopIn(areas, pages, k);
    }
    forall x | x in pages ensures TopAt(r, x) {
      var k := TopOut(areas, pages, x);
      assert r[k].addr == x;
    }
    SameTops(areas, r, pages, pages);
  }

  lemma RunsSplit(areas: seq<Area>, pages: set<int>, i: nat, blksz: int)
    requires Runs(areas) && HoldsPages(areas, pages) && i < |areas| && !areas[i].term
    ensures Runs(SplitAt(areas, i, blksz)) && HoldsPages(SplitAt(areas, i, blksz), pages)
  {
    assert !TestBit(0, AREA_TOP) && !TestBit(0, AREA_END);
    hide TestBit, SplitAt;
    var r := SplitAt(areas, i, blksz);
    assert RunOk(areas, i);
    forall k | 0 <= k < |r| ensures RunOk(r, k) {
      if k != i + 1 {
        var j := if k <= i then k else k - 1;
        assert RunOk(areas, j);
        assert k > 0 ==> (r[k - 1].term <==> areas[j - 1].term);
        SameRoleOk(areas, r, j, k);
      }
    }
    forall k | 0 <= k < |r| && !r[k].term && TestBit(r[k].flags, AREA_TOP) ensures r[k].addr in pages {
      TopIn(areas, pages, if k <= i then k else k - 1);
    }
    forall x | x in pages ensures TopAt(r, x) {
      var k := TopOut(areas, pages, x);
      assert r[if k <= i then k else k + 1].addr == x;
    }
    SameTops(areas, r, pages, pages);
  }

  lemma RunsMerge(areas: seq<Area>, pages: set<int>, i: nat)
    requires Runs(areas) && HoldsPages(areas, pages) && i + 1 < |areas| && !areas[i].term && !areas[i + 1].term
    ensures Runs(MergeAt(areas, i)) && HoldsPages(MergeAt(areas, i), pages)
  {
    hide TestBit, MergeAt;
    var r := MergeAt(areas, i);
    assert RunOk(areas, i) && RunOk(areas, i + 1);
    forall k | 0 <= k < |r| ensures RunOk(r, k) {
      var j := if k <= i then k else k + 1;
      assert RunOk(areas, j);
      assert k > 0 ==> (r[k - 1].term <==> areas[j - 1].term);
      SameRoleOk(areas, r, j, k);
    }
    forall k | 0 <= k < |r| && !r[k].term && TestBit(r[k].flags, AREA_TOP) ensures r[k].addr in pages {
      TopIn(areas, pages, if k <= i then k else k + 1);
    }
    forall x | x in pages ensures TopAt(r, x) {
      var k := TopOut(areas, pages, x);
      assert r[if k <= i then k else k - 1].addr == x;
    }
    SameTops(areas, r, pages, pages);
  }

  lemma RunsAdded(areas: seq<Area>, pages: set<int>, page: int, size: int)
    requires Runs(areas) && HoldsPages(areas, pages) && Coalesced(areas)
    ensures Runs(WithRun(areas, page, size)) && HoldsPages(WithRun(areas, page, size), pages + {page})
    ensures Coalesced(WithRun(areas, page, size))
  {
    assert TestBit(AREA_TOP, AREA_TOP) && !TestBit(AREA_TOP, AREA_END);
    hide TestBit;
    var r := WithRun(areas, page, size);
    forall k | 2 <= k < |r| ensures r[k] == areas[k - 2] {
    }
    forall k | 0 <= k < |r| ensures RunOk(r, k) {
      if k >= 2 {
        assert RunOk(areas, k - 2);
        SameRoleOk(areas, r, k - 2, k);
      }
    }
    forall k | 0 <= k < |r| && !r[k].term && TestBit(r[k].flags, AREA_TOP) ensures r[k].addr in pages + {page} {
      if k >= 2 { TopIn(areas, pages, k - 2); }
    }
    forall x | x in pages + {page} ensures TopAt(r, x) {
      if x in pages {
        var k := TopOut(areas, pages, x);
        assert r[k + 2].addr == x;
      } else {
        assert r[0].addr == x;
      }
    }
    SameTops(areas, r, pages, pages + {page});
    forall k | 0 <= k < |r| - 1 ensures !(r[k].Free() && r[k + 1].Free()) {
      if k >= 2 { assert !(areas[k - 2].Free() && areas[k - 1].Free()); }
    }
  }

  /** A whole run goes: its pages are no longer held. */
  lemma RunsGone(areas: seq<Area>, pages: set<int>, i: nat)
    requires Runs(areas) && HoldsPages(areas, pages) && i + 1 < |areas|
    requires !areas[i].term && TestBit(areas[i].flags, AREA_TOP) && areas[i + 1].term
    requires forall k :: 0 <= k < |areas| && k != i ==> areas[k].addr != areas[i].addr
    requires CoalescedBut(areas, i, true)
    ensures Runs(WithoutRun(areas, i)) && HoldsPages(WithoutRun(areas, i), pages - {areas[i].addr})
    ensures Coalesced(WithoutRun(areas, i))
  {
    hide TestBit;
    var r := WithoutRun(areas, i);
    forall k | 0 <= k < |r| ensures r[k] == areas[if k < i then k else k + 2] {
    }
    assert RunOk(areas, i);
    forall k | 0 <= k < |r| ensures RunOk(r, k) {
      var j := if k < i then k else k + 2;
      assert RunOk(areas, j);
      assert k + 1 == i ==> areas[i - 1].term;
      if areas[j].term || k + 1 < |r| {
        assert k > 0 && k != i ==> r[k - 1] == areas[j - 1];
      }
    }
    forall k | 0 <= k < |r| && !r[k].term && TestBit(r[k].flags, AREA_TOP)
      ensures r[k].addr in pages - {areas[i].addr}
    {
      TopIn(areas, pages, if k < i then k else k + 2);
    }
    forall x | x in pages - {areas[i].addr} ensures TopAt(r, x) {
      var k := TopOut(areas, pages, x);
      assert r[if k < i then k else k - 2].addr == x;
    }
    SameTops(areas, r, pages, pages - {areas[i].addr});
    forall k | 0 <= k < |r| - 1 ensures !(r[k].Free() && r[k + 1].Free()) {
      var j := if k < i then k else k + 2;
      if k != i - 1 { assert !(areas[j].Free() && areas[j + 1].Free()); }
    }
  }

  /** Allocation leaves the runs as they were. */
  lemma AllocatedShape(areas: seq<Area>, pages: set<int>, i: nat, blksz: int)
    requires Runs(areas) && HoldsPages(areas, pages) && Coalesced(areas) && i < |areas| && areas[i].Free()
    requires 0 <= areas[i].flags < 8
    ensures var r := Allocated(areas, i, blksz);
            Runs(r) && HoldsPages(r, pages) && Coalesced(r)
  {
    FlagBits(areas[i].flags);
    hide SplitAt, TestBit, Runs, HoldsPages;
    var split := areas[i].size - blksz >= MIN_FRAGMENT + QUEUE_SIZE;
    var a := if split then SplitAt(areas, i, blksz) else areas;
    var r := Allocated(areas, i, blksz);
    if split { RunsSplit(areas, pages, i, blksz); }
    RunsFlag(a, pages, i, SetBit(a[i].flags, AREA_USE));
    forall k | 0 <= k < |r| && k != i && !(split && k == i + 1)
      ensures r[k] == areas[if k <= i || !split then k else k - 1]
    {
    }
    forall k | 0 <= k < |r| - 1 ensures !(r[k].Free() && r[k + 1].Free()) {
      var j := if k <= i || !split then k else k - 1;
      assert j < |areas| - 1 ==> !(areas[j].Free() && areas[j + 1].Free());
    }
  }

  /** Allocation makes no run idle. */
  lemma AllocatedIdleAt(areas: seq<Area>, i: nat, blksz: int, k: int)
    requires i < |areas| && areas[i].Free() && 0 <= areas[i].flags < 8 && 0 <= k < |Allocated(areas, i, blksz)|
    ensures var r := Allocated(areas, i, blksz);
            && |areas| <= |r| <= |areas| + 1
            && (Idle(r, k) ==>
                  && k != i && (k < i || |r| == |areas| || k > i + 1)
                  && Idle(areas, if k < i || |r| == |areas| then k else k - 1))
  {
    FlagBits(areas[i].flags);
    assert !TestBit(0, AREA_TOP);
    hide SplitAt, TestBit;
    var split := areas[i].size - blksz >= MIN_FRAGMENT + QUEUE_SIZE;
    var r := Allocated(areas, i, blksz);
    if k != i && !(split && k == i + 1) {
      assert r[k] == areas[if k <= i || !split then k else k - 1];
      assert k + 1 < |r| && k + 1 != i ==> r[k + 1].term ==> areas[if k + 1 <= i || !split then k + 1 else k].term;
    }
  }

  /** Freeing an area joins it inside its run, and only there; afterwards a run is
      idle only if it was before or is the one freed into. */
  lemma FreedShape(areas: seq<Area>, pages: set<int>, i: nat)
    requires Runs(areas) && HoldsPages(areas, pages) && Coalesced(areas) && i < |areas| && areas[i].Live()
    requires 0 <= areas[i].flags < 8
    ensures var r, j := Freed(areas, i), FreedIndex(areas, i);
            && 0 <= j < |r| && r[j].Free() && j + 1 < |r|
            && Runs(r) && HoldsPages(r, pages) && Coalesced(r)
            && (NoIdleRun(areas) ==> forall k :: 0 <= k < |r| && k != j ==> !Idle(r, k))
  {
    FlagBits(areas[i].flags);
    hide MergeAt, TestBit, HoldsPages;
    assert RunOk(areas, i);
    RunsFlag(areas, pages, i, ClearBit(areas[i].flags, AREA_USE));
    JoinNextRuns(areas, Unused(areas, i), pages, i);
    JoinPrevRuns(JoinNext(Unused(areas, i), i), pages, i);
  }

  lemma JoinNextRuns(areas: seq<Area>, a1: seq<Area>, pages: set<int>, i: nat)
    requires Coalesced(areas) && i + 1 < |areas| == |a1| && a1 == areas[i := a1[i]] && a1[i].Free()
    requires Runs(a1) && HoldsPages(a1, pages)
    requires TestBit(a1[i].flags, AREA_TOP) == TestBit(areas[i].flags, AREA_TOP) && areas[i].Live()
    ensures var r := JoinNext(a1, i);
            && i < |r| && r[i].Free() && Runs(r) && HoldsPages(r, pages) && CoalescedBut(r, i, true)
            && (NoIdleRun(areas) ==> forall k :: 0 <= k < |r| && k != i ==> !Idle(r, k))
  {
    hide MergeAt, TestBit, Runs, HoldsPages;
    var r := JoinNext(a1, i);
    if a1[i + 1].Free() { RunsMerge(a1, pages, i); }
    forall k | 0 <= k < |r| && k != i ensures r[k] == areas[if k < i || |r| == |a1| then k else k + 1] {
    }
    forall k | 0 <= k < |r| - 1 && k != i - 1 ensures !(r[k].Free() && r[k + 1].Free()) {
      var j := if k < i || |r| == |a1| then k else k + 1;
      assert !(areas[j].Free() && areas[j + 1].Free());
    }
    if NoIdleRun(areas) {
      forall k | 0 <= k < |r| && k != i ensures !Idle(r, k) {
        assert !Idle(areas, if k < i || |r| == |a1| then k else k + 1);
        assert k + 1 == i ==> !r[i].term;
      }
    }
  }

  lemma JoinPrevRuns(a2: seq<Area>, pages: set<int>, i: nat)
    requires Runs(a2) && HoldsPages(a2, pages) && CoalescedBut(a2, i, true) && i < |a2| && a2[i].Free()
    ensures var r, j := JoinPrev(a2, i), |JoinPrev(a2, i)| - |a2| + i;
            && 0 <= j < |r| && r[j].Free() && j + 1 < |r| && Runs(r) && HoldsPages(r, pages) && Coalesced(r)
            && ((forall k :: 0 <= k < |a2| && k != i ==> !Idle(a2, k)) ==>
                  forall k :: 0 <= k < |r| && k != j ==> !Idle(r, k))
  {
    hide MergeAt, TestBit, HoldsPages;
    var r := JoinPrev(a2, i);
    assert RunOk(a2, i);
    if i > 0 && a2[i - 1].Free() {
      RunsMerge(a2, pages, i - 1);
      forall k | 0 <= k < |r| && k != i - 1 ensures r[k] == a2[if k < i - 1 then k else k + 1] {
      }
      forall k | 0 <= k < |r| - 1 ensures !(r[k].Free() && r[k + 1].Free()) {
        var j := if k < i - 1 then k else k + 1;
        assert j != i - 1 ==> !(a2[j].Free() && a2[j + 1].Free());
      }
      if forall k :: 0 <= k < |a2| && k != i ==> !Idle(a2, k) {
        forall k | 0 <= k < |r| && k != i - 1 ensures !Idle(r, k) {
          assert !Idle(a2, if k < i - 1 then k else k + 1);
          assert k == i - 2 ==> !r[i - 1].term;
        }
      }
    } else {
      forall k | 0 <= k < |r| - 1 ensures !(r[k].Free() && r[k + 1].Free()) {
        assert k != i - 1 ==> !(a2[k].Free() && a2[k + 1].Free());
      }
    }
  }

  /** The block that a search and an allocation give is large enough if and only if
      rounding the request did not wrap. No area is as large as the address space. */
  lemma BlockCovers(areas: seq<Area>, size: nat, i: nat)
    requires BestArea(areas, BlockSize(size), i) && size < WORD && areas[i].size <= WORD - QUEUE_SIZE
    ensures Allocated(areas, i, BlockSize(size))[i].size >= size <==> size <= WORD - QUEUE_SIZE
  {
    BlockSizeExact(size);
    hide BlockSize;
  }

  // ---- blocks handed out ----

  /** The block is the front of the area, and the rest of the area stays free. */
  lemma AllocatedCut(areas: seq<Area>, i: nat, blksz: int)
    requires i < |areas| && areas[i].Free() && 0 <= areas[i].flags < 8 && blksz <= areas[i].size
    ensures CutFrom(areas[i], Allocated(areas, i, blksz), i, blksz)
  {
    FlagBits(areas[i].flags);
    hide TestBit;
  }

  /** An allocation hands out one block, and no other one is gained or lost. */
  lemma AllocatedHolds(areas: seq<Area>, i: nat, blksz: int)
    requires i < |areas| && areas[i].Free() && 0 <= areas[i].flags < 8
    ensures i < |Allocated(areas, i, blksz)|
    ensures HandsOut(areas, Allocated(areas, i, blksz), areas[i].Block(), Allocated(areas, i, blksz)[i].size)
  {
    FlagBits(areas[i].flags);
    hide Holds, SplitAt;
    if areas[i].size - blksz >= MIN_FRAGMENT + QUEUE_SIZE {
      SplitHolds(areas, i, blksz);
      UseHolds(SplitAt(areas, i, blksz), i, SetBit(areas[i].flags, AREA_USE));
    } else {
      UseHolds(areas, i, SetBit(areas[i].flags, AREA_USE));
    }
  }

  /** Freeing takes back one block, and every other one stays handed out. */
  lemma FreedHolds(areas: seq<Area>, i: nat)
    requires i < |areas| && areas[i].Live() && 0 <= areas[i].flags < 8 && Once(areas, i)
    ensures TakesBack(areas, Freed(areas, i), areas[i].Block())
  {
    FlagBits(areas[i].flags);
    hide Holds, JoinNext, JoinPrev;
    UnuseHolds(areas, i, ClearBit(areas[i].flags, AREA_USE));
    JoinHolds(Unused(areas, i), i);
    JoinHolds(JoinNext(Unused(areas, i), i), i);
  }

  /** Page runs that come or go hold no block. */
  lemma RunHolds(areas: seq<Area>, page: int, size: int)
    ensures HoldsSame(areas, WithRun(areas, page, size))
  {
    var r := WithRun(areas, page, size);
    forall k | 0 <= k < |areas| ensures areas[k] in r { assert r[k + 2] == areas[k]; }
    SameLiveHolds(areas, r);
  }

  lemma GoneHolds(areas: seq<Area>, i: nat)
    requires i + 1 < |areas| && areas[i].Free() && areas[i + 1].term
    ensures HoldsSame(areas, WithoutRun(areas, i))
  {
    var r := WithoutRun(areas, i);
    forall k | 0 <= k < |areas| && areas[k].Live() ensures areas[k] in r {
      assert r[if k < i then k else k - 2] == areas[k];
    }
    SameLiveHolds(areas, r);
  }

  lemma TakesBackTrans(areas: seq<Area>, r: seq<Area>, w: seq<Area>, blk: int)
    requires TakesBack(areas, r, blk) && HoldsSame(r, w)
    ensures TakesBack(areas, w, blk)
  {
    hide Holds;
  }

  lemma HandsOutTrans(areas: seq<Area>, r: seq<Area>, w: seq<Area>, blk: int, size: int)
    requires HoldsSame(areas, r) && HandsOut(r, w, blk, size)
    ensures HandsOut(areas, w, blk, size)
  {
    hide Holds;
  }

  // ---- a run leaves, or a new one comes: the layout ----

  /** The free area i becomes nothing but its node, and the end node after it is gone. */
  function Retired(areas: seq<Area>, i: nat): (r: seq<Area>)
    requires i + 1 < |areas|
    ensures |r| == |areas| - 1
    ensures forall k {:trigger r[k]} :: 0 <= k < |r| ==>
              r[k] == if k < i then areas[k] else if k == i then areas[i].(size := 0, term := true) else areas[k + 1]
  {
    areas[..i] + [areas[i].(size := 0, term := true)] + areas[i + 2..]
  }

  lemma RetiredLayout(m: Memory, que: int, fque: int, areas: seq<Area>, nodes: set<int>, pending: set<int>, i: nat)
    requires Layout(m, que, fque, areas, 8) && Tracks(areas, nodes, pending) && i + 1 < |areas|
    requires areas[i].Free() && areas[i].Block() in pending && areas[i + 1].term
    ensures Layout(m, que, fque, Retired(areas, i), 8) && Tracks(Retired(areas, i), nodes, pending - {areas[i].Block()})
    ensures forall f :: f in nodes ==> SizeAgrees(areas, Retired(areas, i), f)
  {
    hide Layout, AreaIn, Retired;
    var r := Retired(areas, i);
    forall k | 0 <= k < |r| ensures AreaIn(m, que, fque, r, 8, k) { RetiredArea(m, que, fque, areas, i, k); }
    forall k, l | 0 <= k < l < |r| ensures Disjoint(r[k], r[l]) {
      var j, n := if k <= i then k else k + 1, if l <= i then l else l + 1;
      TwoAreas(m, que, fque, areas, 8, j, n);
      LayoutAt(m, que, fque, areas, 8, i);
      assert AreaIn(m, que, fque, areas, 8, i) && areas[i].size >= 0 by { Sizes(m, que, fque, areas, i); }
    }
    LayoutFromParts(m, que, fque, areas, 8, r);
    forall f ensures FreeNode(r, f) <==> FreeNode(areas, f) && f != areas[i].Block() {
      if FreeNode(r, f) {
        var k :| 0 <= k < |r| && r[k].Free() && r[k].Block() == f;
        var j := if k < i then k else k + 1;
        assert areas[j].Free() && areas[j].Block() == f;
        TwoAreas(m, que, fque, areas, 8, i, j);
      }
      if FreeNode(areas, f) && f != areas[i].Block() {
        var k :| 0 <= k < |areas| && areas[k].Free() && areas[k].Block() == f;
        assert r[if k < i then k else k - 1].Free();
      }
    }
    forall f | f in nodes ensures SizeAgrees(areas, r, f) {
      assert FreeNode(areas, f) && f !in pending;
      var k :| 0 <= k < |areas| && areas[k].Free() && areas[k].Block() == f;
      assert r[if k < i then k else k - 1] == areas[k];
    }
  }

  lemma Sizes(m: Memory, que: int, fque: int, areas: seq<Area>, i: nat)
    requires Layout(m, que, fque, areas, 8) && i < |areas|
    ensures areas[i].size >= 0
  {
    LayoutAt(m, que, fque, areas, 8, i);
  }

  lemma RetiredArea(m: Memory, que: int, fque: int, areas: seq<Area>, i: nat, k: int)
    requires Layout(m, que, fque, areas, 8) && i + 1 < |areas| && 0 <= k < |areas| - 1
    requires areas[i].Free() && areas[i + 1].term
    ensures AreaIn(m, que, fque, Retired(areas, i), 8, k)
  {
    hide Layout, Retired;
    var r, j := Retired(areas, i), if k <= i then k else k + 1;
    LayoutAt(m, que, fque, areas, 8, j);
    LayoutAt(m, que, fque, areas, 8, i);
    assert k != i && !areas[j].term ==> r[k + 1].addr == areas[j + 1].addr;
  }

  /** Dropping a node that is nothing but a node. */
  lemma DroppedLayout(m: Memory, que: int, fque: int, areas: seq<Area>, nodes: set<int>, pending: set<int>, i: nat)
    requires Layout(m, que, fque, areas, 8) && Tracks(areas, nodes, pending) && i < |areas| && areas[i].term
    requires i == 0 || areas[i - 1].term
    ensures Layout(m, que, fque, RemoveAt(areas, i), 8) && Tracks(RemoveAt(areas, i), nodes, pending)
    ensures forall f :: f in nodes ==> SizeAgrees(areas, RemoveAt(areas, i), f)
  {
    hide Layout, AreaIn, RemoveAt;
    var r := RemoveAt(areas, i);
    forall k | 0 <= k < |r| ensures AreaIn(m, que, fque, r, 8, k) { DroppedArea(m, que, fque, areas, i, k); }
    forall k, l | 0 <= k < l < |r| ensures Disjoint(r[k], r[l]) {
      TwoAreas(m, que, fque, areas, 8, if k < i then k else k + 1, if l < i then l else l + 1);
    }
    LayoutFromParts(m, que, fque, areas, 8, r);
    forall f ensures FreeNode(r, f) <==> FreeNode(areas, f) {
      if FreeNode(r, f) {
        var k :| 0 <= k < |r| && r[k].Free() && r[k].Block() == f;
        assert areas[if k < i then k else k + 1].Free();
      }
      if FreeNode(areas, f) {
        var k :| 0 <= k < |areas| && areas[k].Free() && areas[k].Block() == f;
        assert r[if k < i then k else k - 1].Free();
      }
    }
    forall f | f in nodes ensures SizeAgrees(areas, r, f) {
      assert FreeNode(areas, f);
      var k :| 0 <= k < |areas| && areas[k].Free() && areas[k].Block() == f;
      assert r[if k < i then k else k - 1] == areas[k];
    }
  }

  lemma DroppedArea(m: Memory, que: int, fque: int, areas: seq<Area>, i: nat, k: int)
    requires Layout(m, que, fque, areas, 8) && i < |areas| && areas[i].term && 0 <= k < |areas| - 1
    requires i == 0 || areas[i - 1].term
    ensures AreaIn(m, que, fque, RemoveAt(areas, i), 8, k)
  {
    hide Layout, RemoveAt;
    var r, j := RemoveAt(areas, i), if k < i then k else k + 1;
    LayoutAt(m, que, fque, areas, 8, j);
    assert !areas[j].term ==> j + 1 < |areas| && j + 1 != i && r[k + 1] == areas[j + 1];
  }

  /** Pages that meet no area and no header. */
  ghost predicate PagesFree(m: Memory, que: int, fque: int, areas: seq<Area>, page: int, len: int) {
    && page % 8 == 0 && len % 8 == 0 && len >= 2 * QUEUE_SIZE + MIN_FRAGMENT
    && (forall x :: page <= x < page + len && x % 8 == 0 ==> x in m && x != que && x != fque)
    && (forall i :: 0 <= i < |areas| ==> areas[i].End() <= page || page + len <= areas[i].addr)
  }

  function EndNode(page: int, len: int): Area {
    Area(page + len - QUEUE_SIZE, 0, true, 0)
  }

  function TopArea(page: int, len: int): Area {
    Area(page, len - 2 * QUEUE_SIZE, false, 0)
  }

  lemma PrependLayout(m: Memory, que: int, fque: int, areas: seq<Area>, a: Area, nodes: set<int>, pending: set<int>)
    requires Layout(m, que, fque, areas, 8) && Tracks(areas, nodes, pending)
    requires a.addr % 8 == 0 && a.size % 8 == 0 && a.size >= 0 && a.flags == 0
    requires if a.term then a.size == 0 else a.size >= 16 && areas != [] && areas[0].addr == a.End()
    requires Outside(a, que) && Outside(a, fque) && forall i :: 0 <= i < |areas| ==> Disjoint(a, areas[i])
    requires forall x :: a.addr <= x < a.End() && x % 8 == 0 ==> x in m
    ensures Layout(m, que, fque, [a] + areas, 8)
    ensures Tracks([a] + areas, nodes, if a.term then pending else pending + {a.Block()})
    ensures NewNode(m, que, areas, a) && !LiveAt(areas, a.addr) && Harmless(fque, nodes, a.addr)
    ensures forall f :: f in nodes ==> SizeAgrees(areas, [a] + areas, f)
  {
    hide Layout, AreaIn;
    var r := [a] + areas;
    forall k | 0 <= k < |r| ensures AreaIn(m, que, fque, r, 8, k) { PrependArea(m, que, fque, areas, a, k); }
    forall k, l | 0 <= k < l < |r| ensures Disjoint(r[k], r[l]) {
      if k > 0 { TwoAreas(m, que, fque, areas, 8, k - 1, l - 1); }
    }
    LayoutFromParts(m, que, fque, areas, 8, r);
    forall f ensures FreeNode(r, f) <==> FreeNode(areas, f) || (!a.term && f == a.Block()) {
      if FreeNode(r, f) {
        var k :| 0 <= k < |r| && r[k].Free() && r[k].Block() == f;
        assert k > 0 ==> areas[k - 1].Free();
      }
      if FreeNode(areas, f) {
        var k :| 0 <= k < |areas| && areas[k].Free() && areas[k].Block() == f;
        assert r[k + 1].Free();
      }
      if !a.term && f == a.Block() { assert r[0].Free(); }
    }
    forall f | f in nodes ensures SizeAgrees(areas, r, f) && f != a.addr && f != a.addr - QUEUE_SIZE && f != a.Block() {
      assert FreeNode(areas, f);
      var k := FreeNodeInside(m, que, fque, areas, 8, f);
      assert r[k + 1] == areas[k];
    }
    forall k | 0 <= k < |areas|
      ensures a.addr != areas[k].addr && !(areas[k].Live() && areas[k].Block() <= a.addr < areas[k].End())
    {
      Sizes(m, que, fque, areas, k);
    }
  }

  lemma PrependArea(m: Memory, que: int, fque: int, areas: seq<Area>, a: Area, k: int)
    requires Layout(m, que, fque, areas, 8) && 0 <= k <= |areas|
    requires a.addr % 8 == 0 && a.size % 8 == 0 && a.size >= 0 && a.flags == 0
    requires if a.term then a.size == 0 else a.size >= 16 && areas != [] && areas[0].addr == a.End()
    requires Outside(a, que) && Outside(a, fque)
    requires forall x :: a.addr <= x < a.End() && x % 8 == 0 ==> x in m
    ensures AreaIn(m, que, fque, [a] + areas, 8, k)
  {
    hide Layout;
    var r := [a] + areas;
    if k > 0 {
      LayoutAt(m, que, fque, areas, 8, k - 1);
      assert k < |areas| ==> r[k + 1] == areas[k];
    }
  }

  lemma SubsetLive(areas: seq<Area>, r: seq<Area>)
    requires forall k :: 0 <= k < |r| && r[k].Live() ==> r[k] in areas
    ensures NoMoreLive(areas, r)
  {
    forall x | LiveAt(r, x) ensures LiveAt(areas, x) {
      var k :| 0 <= k < |r| && r[k].Live() && r[k].Block() <= x < r[k].End();
      var j :| 0 <= j < |areas| && areas[j] == r[k];
    }
  }

  lemma NoFlags(fl: int)
    requires 0 <= fl < 8 && fl % 2 == 0 && !TestBit(fl, AREA_TOP) && !TestBit(fl, AREA_END)
    ensures fl == 0
  {
  }

  lemma FlagValues(m: Memory, que: int, fque: int, areas: seq<Area>)
    requires Layout(m, que, fque, areas, 8)
    ensures forall i :: 0 <= i < |areas| ==> 0 <= areas[i].flags < 8
  {
    forall i | 0 <= i < |areas| ensures 0 <= areas[i].flags < 8 { LayoutAt(m, que, fque, areas, 8, i); }
  }

  /** What chkAreaFlag sees of a neighbour: free or not. */
  lemma FreeByFlags(areas: seq<Area>, i: int)
    requires 0 <= i < |areas| && RunOk(areas, i) && 0 <= areas[i].flags < 8
    ensures areas[i].Free() <==> !TestBit(areas[i].flags, AREA_END) && !TestBit(areas[i].flags, AREA_USE)
    ensures areas[i].term <==> TestBit(areas[i].flags, AREA_END)
  {
  }

  /** One IMACB: the allocator for one kind of memory. */
  class Imacb {
    const heap: AreaHeap
    const pagesz: nat
    ghost var pages: set<int>   // where the page runs held start

    ghost predicate Valid()
      reads this, heap, heap.q, heap.free
    {
      && heap.Valid() && heap.mask == 8 && heap.hflags == 0 && heap.pending == {}
      && Runs(heap.areas) && Coalesced(heap.areas) && HoldsPages(heap.areas, pages)
      && 8 <= pagesz < WORD && pagesz % 8 == 0
    }

    /** What users wrote into their blocks since the last call changes nothing here. */
    twostate lemma UsersWriteBlocks()
      requires old(Valid()) && unchanged(this) && unchanged(heap) && unchanged(heap.free)
      requires UsersWrote(old(heap.q.m), heap.q.m, heap.areas)
      ensures Valid()
    {
      hide Core, Index, Runs, Coalesced, HoldsPages, LiveAt;
      heap.UsersWriteHere();
    }

    /** initIMACB */
    constructor (q0: QueueMemory, areaque: int, freeque: int, pagesz0: nat)
      requires areaque % 8 == 0 && freeque % 8 == 0 && areaque != freeque && areaque in q0.m && freeque in q0.m
      requires 8 <= pagesz0 < WORD && pagesz0 % 8 == 0
      modifies q0
      ensures Valid() && fresh(heap) && fresh(heap.free) && heap.q == q0 && pagesz == pagesz0
      ensures heap.areas == [] && pages == {} && NoIdleRun(heap.areas)
      ensures heap.que == areaque && heap.free.que == freeque && heap.q.m.Keys == old(q0.m.Keys)
      ensures heap.que == areaque && heap.free.que == freeque && heap.q.m.Keys == old(q0.m.Keys)
    {
      pagesz, pages := pagesz0, {};
      var h := new AreaHeap(areaque, freeque, 8, pagesz0 / 4, q0);
      heap := h;
    }

    /** mem_alloc on an area being worked on. */
    method MemAlloc(aq: int, blksz: int, ghost i: nat) returns (mem: int)
      requires heap.Valid() && heap.mask == 8 && i < |heap.areas| && aq == heap.areas[i].addr && heap.areas[i].Free()
      requires heap.pending == {heap.areas[i].Block()}
      requires blksz % 8 == 0 && 16 <= blksz <= heap.areas[i].size
      modifies heap`areas, heap`pending, heap.q, heap.free
      ensures heap.Valid() && heap.pending == {} && mem == aq + QUEUE_SIZE
      ensures heap.areas == Allocated(old(heap.areas), i, blksz)
      ensures KeepsLive(old(heap.q.m), heap.q.m, old(heap.areas))
    {
      hide Index, AreaRing, Tracks, Layout, LiveAt, KeepsLive, NoMoreLive;
      ghost var m, areas := heap.q.m, heap.areas;
      AreaNext(m, heap.que, heap.free.que, areas, 8, heap.hflags, i);
      FlagValues(m, heap.que, heap.free.que, areas);
      FlagBits(areas[i].flags);
      KeepsLiveSame(m, areas);
      if heap.q.m[aq].next - (aq + QUEUE_SIZE) - blksz >= MIN_FRAGMENT + QUEUE_SIZE {
        var rest := heap.Split(aq, blksz, i);
        SplitLive(areas, i, blksz);
        ghost var m1 := heap.q.m;
        heap.AppendFree(rest, i + 1);
        KeepsLiveMore(m, m1, heap.q.m, areas, heap.areas);
      }
      ghost var m2 := heap.q.m;
      heap.SetFlag(aq, AREA_USE, i);
      KeepsLiveMore(m, m2, heap.q.m, areas, if |heap.areas| == |areas| then areas else SplitAt(areas, i, blksz));
      mem := aq + QUEUE_SIZE;
    }

    /** imalloc up to the point where it would ask for pages: n of them when mem is None. */
    method TryAlloc(size: nat) returns (mem: Option<int>, n: int, ghost i: nat)
      requires Valid() && size <= WORD - QUEUE_SIZE
      modifies heap`areas, heap`pending, heap.q, heap.free
      ensures Valid()
      ensures mem == None <==> NoFit(old(heap.areas), BlockSize(size))
      ensures mem == None ==> heap.areas == old(heap.areas) && n == RunPages(BlockSize(size), pagesz)
      ensures mem.Some? ==> BestArea(old(heap.areas), BlockSize(size), i) && mem.value == old(heap.areas)[i].Block()
      ensures mem.Some? ==>
                && heap.areas == Allocated(old(heap.areas), i, BlockSize(size))
                && Holds(heap.areas, mem.value, size)
      ensures mem.Some? ==> i < |heap.areas| && HandsOut(old(heap.areas), heap.areas, mem.value, heap.areas[i].size)
      ensures mem.Some? ==> CutFrom(old(heap.areas)[i], heap.areas, i, BlockSize(size))
      ensures mem.Some? && i + 1 < |heap.areas| && heap.areas[i + 1].Free() ==>
                heap.areas[i + 1].Block() in heap.free.nodes
      ensures mem.Some? ==> forall n :: !Holds(old(heap.areas), mem.value, n)
      ensures NoIdleRun(old(heap.areas)) ==> NoIdleRun(heap.areas)
      ensures KeepsLive(old(heap.q.m), heap.q.m, old(heap.areas))
    {
      hide Index, AreaRing, Tracks, Layout, LiveAt, KeepsLive, NoMoreLive, Runs, Coalesced, HoldsPages, NoFit,
           Allocated, RunPages, BlockSize, Idle, NoIdleRun, Holds, HandsOut, HoldsSame;
      ghost var m, areas := heap.q.m, heap.areas;
      BlockSizeExact(size);
      FlagValues(m, heap.que, heap.free.que, areas);
      KeepsLiveSame(m, areas);
      var blksz := BlockSize(size);
      var q;
      ghost var k;
      i, n := 0, 0;
      q, k := heap.free.SearchFreeArea(blksz);
      ghost var j := FitIsBest(m, heap.que, heap.free.que, areas, 0, heap.free.nodes, heap.free.index, 8, blksz, k);
      if q == heap.free.que {
        return None, RunPages(blksz, pagesz), 0;
      }
      i := j;
      Fits(areas, blksz, i);
      heap.TakeFree(q);
      ghost var m1 := heap.q.m;
      var p := MemAlloc(q - QUEUE_SIZE, blksz, i);
      AllocatedShape(areas, pages, i, blksz);
      AllocatedIdle(areas, i, blksz);
      BigEnough(areas, i, blksz, size);
      AllocatedHolds(areas, i, blksz);
      AllocatedCut(areas, i, blksz);
      if i + 1 < |heap.areas| && heap.areas[i + 1].Free() { heap.IndexedFree(i, i + 1); }
      FreeNotHeld(m, heap.que, heap.free.que, areas, 8, i);
      KeepsLiveTwice(m, m1, heap.q.m, areas);
      mem := Some(p);
    }

    lemma AllocatedIdle(areas: seq<Area>, i: nat, blksz: int)
      requires i < |areas| && areas[i].Free() && 0 <= areas[i].flags < 8
      ensures NoIdleRun(areas) ==> NoIdleRun(Allocated(areas, i, blksz))
    {
      hide Allocated, Idle;
      var r := Allocated(areas, i, blksz);
      if NoIdleRun(areas) {
        forall k | 0 <= k < |r| ensures !Idle(r, k) {
          AllocatedIdleAt(areas, i, blksz, k);
          var j := if k < i || |r| == |areas| then k else k - 1;
          assert 0 <= j < |areas| ==> !Idle(areas, j);
        }
      }
    }

    lemma BigEnough(areas: seq<Area>, i: nat, blksz: int, size: int)
      requires i < |areas| && areas[i].Free() && size <= blksz <= areas[i].size && 0 <= areas[i].flags < 8
      ensures Holds(Allocated(areas, i, blksz), areas[i].Block(), size)
    {
      var r := Allocated(areas, i, blksz);
      FlagBits(areas[i].flags);
      assert r[i].Live() && r[i].Block() == areas[i].Block() && r[i].size >= size;
    }

    /** The rest of imalloc, with the pages that GetSysMemBlk gave. */
    method AllocFromPages(size: nat, page: int, n: nat) returns (mem: int)
      requires Valid() && size <= WORD - QUEUE_SIZE && n == RunPages(BlockSize(size), pagesz)
      requires Rounded(size) + 2 * QUEUE_SIZE + (pagesz - 1) < WORD
      requires PagesFree(heap.q.m, heap.que, heap.free.que, heap.areas, page, n * pagesz)
      modifies this`pages, heap`areas, heap`pending, heap.q, heap.free
      ensures Valid() && mem == page + QUEUE_SIZE && pages == old(pages) + {page}
      ensures heap.areas == Allocated(WithRun(old(heap.areas), page, n * pagesz - 2 * QUEUE_SIZE), 0, BlockSize(size))
      ensures Holds(heap.areas, mem, size)
      ensures CutFrom(Area(page, n * pagesz - 2 * QUEUE_SIZE, false, AREA_TOP), heap.areas, 0, BlockSize(size))
      ensures 1 < |heap.areas| && heap.areas[1].Free() ==> heap.areas[1].Block() in heap.free.nodes
      ensures heap.areas != [] && HandsOut(old(heap.areas), heap.areas, mem, heap.areas[0].size)
      ensures NoIdleRun(old(heap.areas)) ==> NoIdleRun(heap.areas)
      ensures KeepsLive(old(heap.q.m), heap.q.m, old(heap.areas))
    {
      hide Index, AreaRing, Tracks, Layout, LiveAt, KeepsLive, NoMoreLive, Runs, Coalesced, HoldsPages, Allocated,
           RunPages, BlockSize, Idle, NoIdleRun, Holds, HandsOut, HoldsSame, PagesFree, Rounded;
      ghost var m, areas, len := heap.q.m, heap.areas, n * pagesz;
      BlockSizeExact(size);
      FreshRunCovers(size, pagesz);
      var blksz := BlockSize(size);
      AddPages(page, n * pagesz);
      ghost var m1, a1 := heap.q.m, heap.areas;
      mem := MemAlloc(page, blksz, 0);
      RunsAdded(areas, pages, page, len - 2 * QUEUE_SIZE);
      pages := pages + {page};
      AllocatedShape(a1, pages, 0, blksz);
      BigEnough(a1, 0, blksz, size);
      RunHolds(areas, page, len - 2 * QUEUE_SIZE);
      AllocatedHolds(a1, 0, blksz);
      AllocatedCut(a1, 0, blksz);
      if 1 < |heap.areas| && heap.areas[1].Free() { heap.IndexedFree(0, 1); }
      HandsOutTrans(areas, a1, heap.areas, mem, heap.areas[0].size);
      NewRunNotIdle(areas, a1, blksz);
      LiveBehind(a1[..2], areas);
      KeepsLiveMore(m, m1, heap.q.m, areas, a1);
    }

    lemma NewRunNotIdle(areas: seq<Area>, a1: seq<Area>, blksz: int)
      requires |a1| >= 2 && a1[0].Free() && 0 <= a1[0].flags < 8 && areas == a1[2..] && a1[1].term
      ensures NoIdleRun(areas) ==> NoIdleRun(Allocated(a1, 0, blksz))
    {
      hide Allocated;
      var r := Allocated(a1, 0, blksz);
      if NoIdleRun(areas) {
        forall k | 0 <= k < |r| ensures !Idle(r, k) {
          AllocatedIdleAt(a1, 0, blksz, k);
          var j := if |r| == |a1| then k else k - 1;
          assert 2 <= j < |a1| ==> !Idle(areas, j - 2);
        }
      }
    }

    /** Puts the two end nodes of a new run on the ring. */
    method AddPages(page: int, len: int)
      requires heap.Valid() && heap.mask == 8 && heap.pending == {}
      requires PagesFree(heap.q.m, heap.que, heap.free.que, heap.areas, page, len)
      modifies heap`areas, heap`pending, heap.q
      ensures heap.Valid() && heap.areas == WithRun(old(heap.areas), page, len - 2 * QUEUE_SIZE)
      ensures heap.pending == {page + QUEUE_SIZE}
      ensures KeepsLive(old(heap.q.m), heap.q.m, old(heap.areas))
    {
      hide Index, AreaRing, Tracks, Layout, LiveAt, KeepsLive, NoMoreLive, PagesFree, Core, WithRun;
      ghost var m, areas := heap.q.m, heap.areas;
      ghost var end := EndNode(page, len);
      AddEnd(page, len);
      ghost var m1 := heap.q.m;
      SameKeysLive(m, m1, areas);
      AddTop(page, len, m, areas);
      ghost var m2 := heap.q.m;
      MarkRun(page, len, areas);
      LiveBehind([end], areas);
      KeepsLiveMore(m, m1, m2, areas, [end] + areas);
      KeepsLiveTwice(m, m2, heap.q.m, areas);
    }

    method AddEnd(page: int, len: int)
      requires heap.Valid() && heap.mask == 8 && heap.pending == {}
      requires PagesFree(heap.q.m, heap.que, heap.free.que, heap.areas, page, len)
      modifies heap`areas, heap`pending, heap.q
      ensures heap.Valid() && heap.areas == [EndNode(page, len)] + old(heap.areas) && heap.pending == {}
      ensures KeepsLive(old(heap.q.m), heap.q.m, old(heap.areas)) && len > QUEUE_SIZE
    {
      hide Index, AreaRing, Tracks, Layout, LiveAt, KeepsLive, Harmless, NewNode, SizeAgrees, PagesFree;
      PagesLayout(heap.q.m, heap.areas, page, len);
      heap.InsertAreaQue(heap.que, page + len - QUEUE_SIZE, -1, [EndNode(page, len)] + heap.areas, {});
    }

    method AddTop(page: int, len: int, ghost m0: Memory, ghost areas: seq<Area>)
      requires heap.Valid() && heap.mask == 8 && heap.pending == {} && heap.areas == [EndNode(page, len)] + areas
      requires PagesFree(m0, heap.que, heap.free.que, areas, page, len) && heap.q.m.Keys == m0.Keys
      modifies heap`areas, heap`pending, heap.q
      ensures heap.Valid() && heap.areas == [TopArea(page, len)] + old(heap.areas)
      ensures heap.pending == {page + QUEUE_SIZE}
      ensures KeepsLive(old(heap.q.m), heap.q.m, old(heap.areas))
    {
      hide Index, AreaRing, Tracks, Layout, LiveAt, KeepsLive, Harmless, NewNode, SizeAgrees, PagesFree;
      PagesLayout2(m0, heap.q.m, areas, page, len);
      heap.InsertAreaQue(heap.que, page, -1, [TopArea(page, len)] + heap.areas, {TopArea(page, len).Block()});
    }

    /** The end node of the new run is marked END, its first area TOP. */
    method MarkRun(page: int, len: int, ghost areas: seq<Area>)
      requires heap.Valid() && heap.mask == 8 && heap.pending == {page + QUEUE_SIZE}
      requires heap.areas == [TopArea(page, len)] + ([EndNode(page, len)] + areas) && len > QUEUE_SIZE
      modifies heap`areas, heap`pending, heap.q
      ensures heap.Valid() && heap.areas == WithRun(areas, page, len - 2 * QUEUE_SIZE)
              && heap.pending == {page + QUEUE_SIZE}
      ensures KeepsLive(old(heap.q.m), heap.q.m, areas)
    {
      hide Index, AreaRing, Tracks, Layout, LiveAt, KeepsLive, NoMoreLive;
      ghost var m, a2 := heap.q.m, heap.areas;
      heap.SetFlag(page, AREA_TOP, 0);
      ghost var m1, a3 := heap.q.m, heap.areas;
      heap.SetFlag(page + len - QUEUE_SIZE, AREA_END, 1);
      ghost var top, end := a3[0], EndNode(page, len);
      assert a3 == [top, end] + areas && a2 == [TopArea(page, len), end] + areas;
      assert heap.areas == WithRun(areas, page, len - 2 * QUEUE_SIZE);
      LiveBehind([TopArea(page, len), end], areas);
      LiveBehind([top, end], areas);
      SameLiveUnder(m, m1, a2, areas);
      KeepsLiveMore(m, m1, heap.q.m, areas, a3);
    }

    lemma SameLiveUnder(m: Memory, m1: Memory, areas: seq<Area>, areas2: seq<Area>)
      requires KeepsLive(m, m1, areas) && NoMoreLive(areas, areas2)
      ensures KeepsLive(m, m1, areas2)
    {
    }

    lemma LiveBehind(front: seq<Area>, areas: seq<Area>)
      ensures NoMoreLive(front + areas, areas)
    {
      var r := front + areas;
      forall k | 0 <= k < |areas| ensures areas[k] in r { assert r[|front| + k] == areas[k]; }
      SubsetLive(r, areas);
    }

    lemma SameKeysLive(m: Memory, m2: Memory, areas: seq<Area>)
      requires KeepsLive(m, m2, areas)
      ensures m2.Keys == m.Keys
    {
    }

    lemma PagesLayout(m: Memory, areas: seq<Area>, page: int, len: int)
      requires Core(m, heap.que, heap.free.que, areas, 8, heap.hflags, heap.free.nodes, {})
      requires PagesFree(m, heap.que, heap.free.que, areas, page, len)
      ensures len > QUEUE_SIZE
      ensures var r := [EndNode(page, len)] + areas;
              && Layout(m, heap.que, heap.free.que, r, 8) && Tracks(r, heap.free.nodes, {})
              && NewNode(m, heap.que, areas, r[0]) && !LiveAt(areas, r[0].addr)
              && Harmless(heap.free.que, heap.free.nodes, r[0].addr)
              && forall f :: f in heap.free.nodes ==> SizeAgrees(areas, r, f)
    {
      hide Layout, Tracks, AreaRing;
      var end := EndNode(page, len);
      LayoutMask(m, heap.que, heap.free.que, areas, 8);
      HeadersAligned(m, heap.que, heap.free.que, areas);
      InOrOut(end, heap.que);
      InOrOut(end, heap.free.que);
      PrependLayout(m, heap.que, heap.free.que, areas, end, heap.free.nodes, {});
    }

    lemma HeadersAligned(m: Memory, que: int, fque: int, areas: seq<Area>)
      requires Layout(m, que, fque, areas, 8)
      ensures que % 8 == 0 && fque % 8 == 0
    {
    }

    lemma PagesLayout2(m0: Memory, m: Memory, areas: seq<Area>, page: int, len: int)
      requires m.Keys == m0.Keys && PagesFree(m0, heap.que, heap.free.que, areas, page, len)
      requires Core(m, heap.que, heap.free.que, [EndNode(page, len)] + areas, 8, heap.hflags, heap.free.nodes, {})
      ensures var a1 := [EndNode(page, len)] + areas;
              var r := [TopArea(page, len)] + a1;
              && Layout(m, heap.que, heap.free.que, r, 8) && Tracks(r, heap.free.nodes, {TopArea(page, len).Block()})
              && NewNode(m, heap.que, a1, r[0]) && !LiveAt(a1, r[0].addr)
              && Harmless(heap.free.que, heap.free.nodes, r[0].addr)
              && forall f :: f in heap.free.nodes ==> SizeAgrees(a1, r, f)
    {
      hide Layout, Tracks, AreaRing;
      var a1, top := [EndNode(page, len)] + areas, TopArea(page, len);
      HeadersAligned(m, heap.que, heap.free.que, a1);
      InOrOut(top, heap.que);
      InOrOut(top, heap.free.que);
      forall i | 0 <= i < |a1| ensures Disjoint(top, a1[i]) {
        if i > 0 { assert a1[i] == areas[i - 1]; }
      }
      PrependLayout(m, heap.que, heap.free.que, a1, top, heap.free.nodes, {});
      assert {} + {top.Block()} == {top.Block()};
    }

    /** ifree: what comes back joins the free areas beside it in its run; a run that is
        then all free goes back to the system, unless interrupts were disabled. */
    method IFree(ptr: int, di: bool, ghost i: nat) returns (released: Option<int>)
      requires Valid() && i < |heap.areas| && heap.areas[i].Live() && heap.areas[i].Block() == ptr
      modifies this`pages, heap`areas, heap`pending, heap.q, heap.free
      ensures Valid()
      ensures var r, j := Freed(old(heap.areas), i), FreedIndex(old(heap.areas), i);
              && 0 <= j < |r|
              && released == (if !di && Idle(r, j) then Some(r[j].addr) else None)
              && heap.areas == (if released.Some? then WithoutRun(r, j) else r)
              && (NoIdleRun(old(heap.areas)) ==> (NoIdleRun(heap.areas) <==> !di || !Idle(r, j)))
      ensures pages == if released.Some? then old(pages) - {released.value} else old(pages)
      ensures released.Some? ==> released.value in old(pages)
      ensures TakesBack(old(heap.areas), heap.areas, ptr)
      ensures KeepsLive(old(heap.q.m), heap.q.m, heap.areas)
    {
      hide Index, AreaRing, Tracks, Layout, LiveAt, KeepsLive, NoMoreLive, Freed, FreedIndex, HoldsPages, Idle,
           NoIdleRun, TakesBack, HoldsSame, Once, Holds;
      ghost var areas, m0 := heap.areas, heap.q.m;
      var aq;
      ghost var j;
      FlagValues(m0, heap.que, heap.free.que, areas);
      NodesOnce(m0, heap.que, heap.free.que, areas, 8, i);
      FreedHolds(areas, i);
      aq, j := FreeAndJoin(ptr - QUEUE_SIZE, i);
      ghost var r, m1 := heap.areas, heap.q.m;
      assert RunOk(r, j) && RunOk(r, j + 1);
      FlagValues(m1, heap.que, heap.free.que, r);
      FreeByFlags(r, j + 1);
      IdleByFlags(r, j);
      var isTop := heap.ChkFlag(aq, AREA_TOP, j);
      var endNext := heap.ChkNextFlag(aq, AREA_END, j);
      if !di && isTop && endNext {
        NodesOnce(m1, heap.que, heap.free.que, r, 8, j);
        TopIn(r, pages, j);
        RunsGone(r, pages, j);
        DropRun(aq, j);
        pages := pages - {aq};
        released := Some(aq);
        GoneIdle(areas, r, j);
        GoneHolds(r, j);
        TakesBackTrans(areas, r, heap.areas, ptr);
        SubsetLive(r, heap.areas);
        KeepsLiveTrans(m0, m1, m1, r, r) by { SubsetLive(r, r); KeepsLiveSame(m1, r); }
        KeepsLiveDown(m0, m1, heap.q.m, r, heap.areas);
      } else {
        heap.AppendFree(aq, j);
        released := None;
        IdleThere(areas, r, j);
        KeepsLiveTwice(m0, m1, heap.q.m, r);
      }
    }

    /** The areas freed and joined, still out of the index. */
    method FreeAndJoin(aq0: int, ghost i: nat) returns (aq: int, ghost j: nat)
      requires Valid() && i < |heap.areas| && heap.areas[i].Live() && heap.areas[i].addr == aq0
      modifies heap`areas, heap`pending, heap.q, heap.free
      ensures heap.Valid() && heap.areas == Freed(old(heap.areas), i) && j == FreedIndex(old(heap.areas), i)
      ensures j + 1 < |heap.areas| && heap.areas[j].Free() && heap.areas[j].addr == aq
              && heap.pending == {heap.areas[j].Block()}
      ensures Runs(heap.areas) && HoldsPages(heap.areas, pages) && Coalesced(heap.areas)
      ensures NoIdleRun(old(heap.areas)) ==> forall k :: 0 <= k < |heap.areas| && k != j ==> !Idle(heap.areas, k)
      ensures KeepsLive(old(heap.q.m), heap.q.m, heap.areas)
    {
      hide Index, AreaRing, Tracks, Layout, LiveAt, KeepsLive, NoMoreLive, HoldsPages, Idle, NoIdleRun, JoinNext,
           JoinPrev, Runs, Coalesced;
      ghost var areas, m := heap.areas, heap.q.m;
      FlagValues(m, heap.que, heap.free.que, areas);
      UnusedRuns(areas, pages, i);
      FreedShape(areas, pages, i);
      heap.ClearUseFlag(aq0, i);
      ghost var a1, m1 := heap.areas, heap.q.m;
      assert a1 == Unused(areas, i);
      JoinNextArea(aq0, i);
      ghost var a2, m2 := heap.areas, heap.q.m;
      aq := JoinPrevArea(aq0, i);
      j := |heap.areas| - |a2| + i;
      KeepsLiveTrans(m, m1, m2, a1, a2);
      KeepsLiveTrans(m, m2, heap.q.m, a2, heap.areas);
    }

    lemma UnusedRuns(areas: seq<Area>, pages: set<int>, i: nat)
      requires Runs(areas) && HoldsPages(areas, pages) && Coalesced(areas) && i < |areas| && areas[i].Live()
               && 0 <= areas[i].flags < 8
      ensures Runs(Unused(areas, i)) && i + 1 < |areas| && Unused(areas, i)[i].Free()
      ensures Unused(areas, i) == areas[i := areas[i].(flags := areas[i].flags - 1)]
      ensures Runs(JoinNext(Unused(areas, i), i))
    {
      FlagBits(areas[i].flags);
      assert RunOk(areas, i);
      RunsFlag(areas, pages, i, ClearBit(areas[i].flags, AREA_USE));
      JoinNextRuns(areas, Unused(areas, i), pages, i);
    }

    method JoinNextArea(aq: int, ghost i: nat)
      requires heap.Valid() && heap.mask == 8 && i + 1 < |heap.areas| && aq == heap.areas[i].addr
      requires heap.areas[i].Free() && heap.pending == {heap.areas[i].Block()} && Runs(heap.areas)
      modifies heap`areas, heap`pending, heap.q, heap.free
      ensures heap.Valid() && heap.areas == JoinNext(old(heap.areas), i) && heap.pending == {heap.areas[i].Block()}
      ensures i < |heap.areas| && heap.areas[i].Free() && heap.areas[i].addr == aq
      ensures NoMoreLive(old(heap.areas), heap.areas)
      ensures KeepsLive(old(heap.q.m), heap.q.m, heap.areas)
    {
      hide Index, AreaRing, Layout, LiveAt;
      ghost var areas := heap.areas;
      assert RunOk(areas, i + 1);
      FlagValues(heap.q.m, heap.que, heap.free.que, areas);
      FreeByFlags(areas, i + 1);
      var endNext := heap.ChkNextFlag(aq, AREA_END, i);
      var usedNext := heap.ChkNextFlag(aq, AREA_USE, i);
      if !(endNext || usedNext) {
        heap.IndexedFree(i, i + 1);
        AreaNext(heap.q.m, heap.que, heap.free.que, areas, 8, heap.hflags, i);
        MergeLive(areas, i);
        heap.TakeFree(heap.q.m[aq].next + QUEUE_SIZE);
        AreaNext(heap.q.m, heap.que, heap.free.que, areas, 8, heap.hflags, i);
        heap.Merge(heap.q.m[aq].next, i);
      }
    }

    method JoinPrevArea(aq0: int, ghost i: nat) returns (aq: int)
      requires heap.Valid() && heap.mask == 8 && i < |heap.areas| && aq0 == heap.areas[i].addr
      requires heap.areas[i].Free() && heap.pending == {heap.areas[i].Block()} && Runs(heap.areas)
      modifies heap`areas, heap`pending, heap.q, heap.free
      ensures heap.Valid() && heap.areas == JoinPrev(old(heap.areas), i)
      ensures var j := |heap.areas| - |old(heap.areas)| + i;
              && 0 <= j < |heap.areas| && heap.areas[j].Free() && heap.areas[j].addr == aq
              && heap.pending == {heap.areas[j].Block()}
      ensures NoMoreLive(old(heap.areas), heap.areas)
      ensures KeepsLive(old(heap.q.m), heap.q.m, heap.areas)
    {
      hide Index, AreaRing, Layout, LiveAt;
      ghost var areas := heap.areas;
      aq := aq0;
      FlagValues(heap.q.m, heap.que, heap.free.que, areas);
      AreaNext(heap.q.m, heap.que, heap.free.que, areas, 8, heap.hflags, i);
      assert RunOk(areas, i);
      var isTop := heap.ChkFlag(aq, AREA_TOP, i);
      if !isTop {
        NoFlags(areas[i].flags);
        assert RunOk(areas, i - 1);
        FreeByFlags(areas, i - 1);
        var prevUsed := heap.ChkFlag(heap.q.m[aq].prev, AREA_USE, i - 1);
        if !prevUsed {
          aq := heap.q.m[aq].prev;
          heap.IndexedFree(i, i - 1);
          MergeLive(areas, i - 1);
          heap.TakeFree(aq + QUEUE_SIZE);
          AreaNext(heap.q.m, heap.que, heap.free.que, areas, 8, heap.hflags, i - 1);
          heap.Merge(heap.q.m[aq].next, i - 1);
        }
      }
    }

    /** Frees the pages: the end node leaves the ring, then the area itself. */
    method DropRun(aq: int, ghost j: nat)
      requires heap.Valid() && heap.mask == 8 && j + 1 < |heap.areas| && aq == heap.areas[j].addr
      requires heap.areas[j].Free() && heap.pending == {heap.areas[j].Block()} && heap.areas[j + 1].term
      requires j == 0 || heap.areas[j - 1].term
      modifies heap`areas, heap`pending, heap.q
      ensures heap.Valid() && heap.areas == WithoutRun(old(heap.areas), j) && heap.pending == {}
      ensures KeepsLive(old(heap.q.m), heap.q.m, old(heap.areas))
    {
      hide Index, AreaRing, Layout, LiveAt, Tracks, KeepsLive, NoMoreLive, SizeAgrees;
      ghost var m, areas := heap.q.m, heap.areas;
      RetiredLayout(m, heap.que, heap.free.que, areas, heap.free.nodes, heap.pending, j);
      AreaNext(m, heap.que, heap.free.que, areas, 8, heap.hflags, j);
      assert heap.pending - {areas[j].Block()} == {};
      heap.RemoveAreaQue(heap.q.m[aq].next, j + 1, Retired(areas, j), {});
      ghost var m1, a1 := heap.q.m, heap.areas;
      DroppedLayout(m1, heap.que, heap.free.que, a1, heap.free.nodes, {}, j);
      heap.RemoveAreaQue(aq, j, RemoveAt(a1, j), {});
      assert RemoveAt(Retired(areas, j), j) == WithoutRun(areas, j);
      RetiredLive(areas, j);
      KeepsLiveMore(m, m1, heap.q.m, areas, a1);
    }

    lemma RetiredLive(areas: seq<Area>, j: nat)
      requires j + 1 < |areas| && areas[j].Free() && areas[j + 1].term
      ensures NoMoreLive(Retired(areas, j), areas)
    {
      var r := Retired(areas, j);
      forall k | 0 <= k < |areas| && areas[k].Live() ensures areas[k] in r {
        assert r[if k < j then k else k - 1] == areas[k];
      }
      SubsetLive(r, areas);
    }

    lemma KeepsLiveDown(m: Memory, m1: Memory, m2: Memory, areas: seq<Area>, areas2: seq<Area>)
      requires KeepsLive(m, m1, areas) && KeepsLive(m1, m2, areas) && NoMoreLive(areas, areas2)
      ensures KeepsLive(m, m2, areas2)
    {
    }

    lemma IdleByFlags(r: seq<Area>, j: nat)
      requires j + 1 < |r| && r[j].Free() && RunOk(r, j)
      ensures Idle(r, j) <==> TestBit(r[j].flags, AREA_TOP) && r[j + 1].term
      ensures TestBit(r[j].flags, AREA_TOP) ==> j == 0 || r[j - 1].term
    {
    }

    /** With the idle run gone, no run is idle. */
    lemma GoneIdle(areas: seq<Area>, r: seq<Area>, j: nat)
      requires j + 1 < |r| && (j == 0 || r[j - 1].term)
      requires NoIdleRun(areas) ==> forall k :: 0 <= k < |r| && k != j ==> !Idle(r, k)
      ensures NoIdleRun(areas) ==> NoIdleRun(WithoutRun(r, j))
    {
      if NoIdleRun(areas) {
        var w := WithoutRun(r, j);
        forall k | 0 <= k < |w| ensures !Idle(w, k) {
          var n := if k < j then k else k + 2;
          assert w[k] == r[n] && !Idle(r, n);
          assert k == j - 1 ==> !w[k].Free();
        }
      }
    }

    lemma IdleThere(areas: seq<Area>, r: seq<Area>, j: nat)
      requires j < |r|
      requires NoIdleRun(areas) ==> forall k :: 0 <= k < |r| && k != j ==> !Idle(r, k)
      ensures NoIdleRun(areas) ==> (NoIdleRun(r) <==> !Idle(r, j))
    {
    }
  }

  /** Without idle runs, every run held has an area in use. */
  lemma RunInUse(areas: seq<Area>, pages: set<int>, page: int) returns (i: int)
    requires Runs(areas) && Coalesced(areas) && HoldsPages(areas, pages) && NoIdleRun(areas) && page in pages
    ensures 0 <= i < |areas| && areas[i].Live()
    ensures areas[i].addr == page || (i > 0 && areas[i - 1].addr == page && areas[i - 1].Free())
  {
    i := TopOut(areas, pages, page);
    assert RunOk(areas, i) && !Idle(areas, i);
    if areas[i].Free() {
      i := i + 1;
      assert !(areas[i - 1].Free() && areas[i].Free());
    }
  }
}
