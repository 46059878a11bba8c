/** Boundary-tag areas: the ring that links all areas of a pool, with flag bits in
    the low bits of prev, kept in step with the index of free areas. Both
    allocators are built from these steps
    (kernel/tkernel/src/mempool.c:127-280, kernel/sysmgr/src/imalloc.c:100-239). */
module Areas {
  import opened Queue
  import opened FreeIndex

  /** AREA_USE, the lowest flag bit. */
  const AREA_USE := 1

  /** The smallest area: room for its two free-queue nodes. */
  const MIN_FRAGMENT := 2 * QUEUE_SIZE

  /** One area: its QUEUE node at addr, then size bytes. A terminator (the end node
      of a pool or page run) has no bytes and is never free. */
  datatype Area = Area(addr: int, size: int, term: bool, flags: int) {
    predicate Free() { !term && flags % 2 == 0 }
    predicate Live() { !term && flags % 2 == 1 }
    function End(): int { addr + QUEUE_SIZE + size }
    /** The outer free-queue node, which is also the address handed to the user. */
    function Block(): int { addr + QUEUE_SIZE }
  }

  // ---- flag bits ----

  /** x & f for a single flag bit f. */
  predicate TestBit(x: int, f: int)
    requires f == 1 || f == 2 || f == 4
  {
    if f == 1 then x % 2 == 1 else if f == 2 then x % 4 >= 2 else x % 8 >= 4
  }

  /** x | f */
  function SetBit(x: int, f: int): int
    requires f == 1 || f == 2 || f == 4
  {
    if TestBit(x, f) then x else x + f
  }

  /** x & ~f */
  function ClearBit(x: int, f: int): int
    requires f == 1 || f == 2 || f == 4
  {
    if TestBit(x, f) then x - f else x
  }

  /** x & AREA_MASK: one flag bit in a memory pool, three in imalloc. */
  function Low(x: int, mask: int): int {
    if mask == 2 then x % 2 else x % 8
  }

  /** Flags and address share a word without disturbing each other. */
  lemma FlagsInWord(a: int, fl: int)
    requires a % 8 == 0 && 0 <= fl < 8
    ensures (a + fl) % 8 == fl
    ensures (a + fl) % 4 == fl % 4
    ensures (a + fl) % 2 == fl % 2
  {
    var q := a / 8;
    assert a == 8 * q;
    LowPart(8, q, fl);
    LowPart(4, 2 * q, fl);
    LowPart(2, 4 * q, fl);
  }

  lemma LowPart(d: int, q: int, x: int)
    requires d > 0
    ensures (d * q + x) % d == x % d
  {
    var r := x % d;
    assert d * q + x == d * (q + x / d) + r by { Distribute(d, q, x / d); }
    Remainder(d, q + x / d, r);
  }

  lemma Distribute(d: int, a: int, b: int)
    ensures d * (a + b) == d * a + d * b
  {
  }

  lemma Remainder(d: int, q: int, r: int)
    requires 0 <= r < d
    ensures (d * q + r) % d == r
  {
    var y := d * q + r;
    var e := y / d - q;
    assert d * (y / d) - d * q == r - y % d;
    assert d * e == r - y % d by { Distribute(d, q, e); }
    if e >= 1 { AtLeastOnce(d, e); }
    if e <= -1 { AtLeastOnce(d, -e); }
  }

  lemma AtLeastOnce(d: int, e: int)
    requires d > 0 && e >= 1
    ensures d * e >= d
  {
  }

  // ---- the ring ----

  function Addrs(areas: seq<Area>): (s: seq<int>)
    ensures |s| == |areas| && forall i :: 0 <= i < |areas| ==> s[i] == areas[i].addr
  {
    seq(|areas|, i requires 0 <= i < |areas| => areas[i].addr)
  }

  /** Node i + 1 of the ring is area i, node 0 the header. */
  function RingNode(que: int, areas: seq<Area>, i: int): int
    requires -1 <= i <= |areas|
  {
    if 0 <= i < |areas| then areas[i].addr else que
  }

  ghost predicate AreaLink(m: Memory, que: int, areas: seq<Area>, hflags: int, i: int)
    requires -1 <= i < |areas|
  {
    var a, b := RingNode(que, areas, i), RingNode(que, areas, i + 1);
    var fb := if i + 1 < |areas| then areas[i + 1].flags else hflags;
    a in m && b in m && m[a].next == b && m[b].prev == a + fb
  }

  ghost predicate AreaRing(m: Memory, que: int, areas: seq<Area>, hflags: int) {
    forall i {:trigger AreaLink(m, que, areas, hflags, i)} :: -1 <= i < |areas| ==> AreaLink(m, que, areas, hflags, i)
  }

  // ---- the layout ----

  predicate AreaOk(areas: seq<Area>, i: int, mask: int)
    requires 0 <= i < |areas|
  {
    var a := areas[i];
    && a.addr % 8 == 0 && a.size % 8 == 0 && 0 <= a.flags < mask
    && (a.term ==> a.size == 0)
    && (!a.term ==> a.size >= 2 * QUEUE_SIZE && i + 1 < |areas| && areas[i + 1].addr == a.End())
  }

  predicate Disjoint(a: Area, b: Area) {
    a.End() <= b.addr || b.End() <= a.addr
  }

  /** No area covers the eight bytes at x. */
  predicate Outside(a: Area, x: int) {
    x + QUEUE_SIZE <= a.addr || a.End() <= x
  }

  ghost predicate Layout(m: Memory, que: int, fque: int, areas: seq<Area>, mask: int) {
    && (mask == 2 || mask == 8)
    && que % 8 == 0 && fque % 8 == 0 && que != fque && que in m && fque in m
    && (forall i :: 0 <= i < |areas| ==> AreaOk(areas, i, mask))
    && (forall i, j :: 0 <= i < j < |areas| ==> Disjoint(areas[i], areas[j]))
    && (forall i :: 0 <= i < |areas| ==> Outside(areas[i], que) && Outside(areas[i], fque))
    && (forall i, x :: 0 <= i < |areas| && areas[i].addr <= x < areas[i].End() && x % 8 == 0 ==> x in m)
  }

  ghost predicate FreeNode(areas: seq<Area>, f: int) {
    exists i :: 0 <= i < |areas| && areas[i].Free() && areas[i].Block() == f
  }

  /** The index holds exactly the free areas, but for those being worked on. */
  ghost predicate Tracks(areas: seq<Area>, nodes: set<int>, pending: set<int>) {
    && nodes !! pending
    && forall f {:trigger FreeNode(areas, f)} :: FreeNode(areas, f) <==> f in nodes || f in pending
  }

  /** Address x is inside a block that is in use. */
  ghost predicate LiveAt(areas: seq<Area>, x: int) {
    exists i :: 0 <= i < |areas| && areas[i].Live() && areas[i].Block() <= x < areas[i].End()
  }

  /** Nothing inside a block in use has changed. */
  ghost predicate KeepsLive(m: Memory, m2: Memory, areas: seq<Area>) {
    m2.Keys == m.Keys && forall x {:trigger m2[x]} :: x in m && LiveAt(areas, x) ==> m2[x] == m[x]
  }

  /** Every block in use among areas2 was in use among areas. */
  ghost predicate NoMoreLive(areas: seq<Area>, areas2: seq<Area>) {
    forall x {:trigger LiveAt(areas2, x)} :: LiveAt(areas2, x) ==> LiveAt(areas, x)
  }

  lemma KeepsLiveTrans(m: Memory, m1: Memory, m2: Memory, areas: seq<Area>, areas2: seq<Area>)
    requires KeepsLive(m, m1, areas) && KeepsLive(m1, m2, areas2) && NoMoreLive(areas, areas2)
    ensures KeepsLive(m, m2, areas2)
  {
  }

  lemma KeepsLiveMore(m: Memory, m1: Memory, m2: Memory, areas: seq<Area>, areas2: seq<Area>)
    requires KeepsLive(m, m1, areas) && KeepsLive(m1, m2, areas2) && NoMoreLive(areas2, areas)
    ensures KeepsLive(m, m2, areas)
  {
  }

  lemma KeepsLiveTwice(m: Memory, m1: Memory, m2: Memory, areas: seq<Area>)
    requires KeepsLive(m, m1, areas) && KeepsLive(m1, m2, areas)
    ensures KeepsLive(m, m2, areas)
  {
  }

  lemma KeepsLiveSame(m: Memory, areas: seq<Area>)
    ensures KeepsLive(m, m, areas)
  {
  }

  /** The areas, their ring and what is free, but for the rings of the index. */
  ghost predicate Core(m: Memory, que: int, fque: int, areas: seq<Area>, mask: int, hflags: int,
                       nodes: set<int>, pending: set<int>)
  {
    && Layout(m, que, fque, areas, mask)
    && 0 <= hflags < mask
    && AreaRing(m, que, areas, hflags)
    && Tracks(areas, nodes, pending)
  }

  // ---- consequences of the layout ----

  lemma AreaNext(m: Memory, que: int, fque: int, areas: seq<Area>, mask: int, hflags: int, i: int)
    requires Layout(m, que, fque, areas, mask) && AreaRing(m, que, areas, hflags) && -1 <= i < |areas|
    ensures RingNode(que, areas, i) in m && m[RingNode(que, areas, i)].next == RingNode(que, areas, i + 1)
    ensures 0 <= i && !areas[i].term ==> SizeIs(m, areas[i].Block(), areas[i].size)
    ensures 0 <= i ==> m[areas[i].addr].prev == RingNode(que, areas, i - 1) + areas[i].flags
  {
    assert AreaLink(m, que, areas, hflags, i);
    if 0 <= i {
      assert AreaLink(m, que, areas, hflags, i - 1);
      assert AreaOk(areas, i, mask);
    }
  }

  lemma TwoAreas(m: Memory, que: int, fque: int, areas: seq<Area>, mask: int, i: int, j: int)
    requires Layout(m, que, fque, areas, mask) && 0 <= i < |areas| && 0 <= j < |areas| && i != j
    ensures Disjoint(areas[i], areas[j]) && areas[i].addr != areas[j].addr
  {
    assert Disjoint(areas[if i < j then i else j], areas[if i < j then j else i]);
    assert AreaOk(areas, i, mask) && AreaOk(areas, j, mask);
  }

  /** The three nodes of a free area lie inside it. */
  lemma FreeNodeInside(m: Memory, que: int, fque: int, areas: seq<Area>, mask: int, f: int) returns (i: int)
    requires Layout(m, que, fque, areas, mask) && FreeNode(areas, f)
    ensures 0 <= i < |areas| && areas[i].Free() && areas[i].Block() == f && areas[i].size >= 16
    ensures f % 8 == 0 && f - QUEUE_SIZE in m && f in m && f + QUEUE_SIZE in m
    ensures areas[i].addr == f - QUEUE_SIZE && f + 2 * QUEUE_SIZE <= areas[i].End()
    ensures f != fque && f + QUEUE_SIZE != fque && f - QUEUE_SIZE != fque
  {
    i :| 0 <= i < |areas| && areas[i].Free() && areas[i].Block() == f;
    assert AreaOk(areas, i, mask) && Outside(areas[i], fque);
  }

  lemma CoreSpaced(m: Memory, que: int, fque: int, areas: seq<Area>, mask: int, all: set<int>)
    requires Layout(m, que, fque, areas, mask)
    requires forall f :: f in all ==> FreeNode(areas, f)
    ensures Spaced(m, fque, all)
  {
    forall f | f in all
      ensures f - QUEUE_SIZE in m && f in m && f + QUEUE_SIZE in m
      ensures f != fque && f + QUEUE_SIZE != fque && f - QUEUE_SIZE != fque
    {
      var i := FreeNodeInside(m, que, fque, areas, mask, f);
    }
    forall f, g | f in all && g in all ensures Apart(f, g) {
      var i := FreeNodeInside(m, que, fque, areas, mask, f);
      var j := FreeNodeInside(m, que, fque, areas, mask, g);
      if i != j { TwoAreas(m, que, fque, areas, mask, i, j); }
    }
  }

  /** An area node, the header, or a node outside the indexed areas is no index node. */
  ghost predicate Harmless(fque: int, nodes: set<int>, x: int) {
    x != fque && x !in nodes && x - QUEUE_SIZE !in nodes
  }

  lemma AreaNodeHarmless(m: Memory, que: int, fque: int, areas: seq<Area>, mask: int,
                         nodes: set<int>, pending: set<int>, i: int)
    requires Layout(m, que, fque, areas, mask) && Tracks(areas, nodes, pending) && -1 <= i <= |areas|
    ensures Harmless(fque, nodes, RingNode(que, areas, i))
  {
    var x := RingNode(que, areas, i);
    if 0 <= i < |areas| { assert Outside(areas[i], fque) && AreaOk(areas, i, mask); }
    forall f | f in nodes ensures x != f && x - QUEUE_SIZE != f {
      assert FreeNode(areas, f);
      var j := FreeNodeInside(m, que, fque, areas, mask, f);
      if 0 <= i < |areas| {
        if i != j { TwoAreas(m, que, fque, areas, mask, i, j); }
      } else {
        assert Outside(areas[j], que);
      }
    }
  }

  /** Inside an area that is being worked on there is no index node. */
  lemma PendingHarmless(m: Memory, que: int, fque: int, areas: seq<Area>, mask: int,
                        nodes: set<int>, pending: set<int>, i: int, x: int)
    requires Layout(m, que, fque, areas, mask) && Tracks(areas, nodes, pending)
    requires 0 <= i < |areas| && areas[i].Block() in pending && areas[i].Free()
    requires areas[i].addr <= x < areas[i].End() && x % 8 == 0
    ensures Harmless(fque, nodes, x)
  {
    assert AreaOk(areas, i, mask) && Outside(areas[i], fque);
    assert x % 8 == 0 && fque % 8 == 0;
    forall f | f in nodes ensures x != f && x - QUEUE_SIZE != f {
      assert f !in pending && FreeNode(areas, f);
      var j := FreeNodeInside(m, que, fque, areas, mask, f);
      assert j != i;
      if i != j { TwoAreas(m, que, fque, areas, mask, i, j); }
    }
  }

  /** Area steps leave the index as it was. */
  lemma IndexKept(m: Memory, m2: Memory, que: int, fque: int, areas: seq<Area>, areas2: seq<Area>, mask: int,
                  hflags: int, hflags2: int,
                  nodes: set<int>, pending: set<int>, pending2: set<int>, index: seq<Bucket>, touched: set<int>)
    requires Core(m, que, fque, areas, mask, hflags, nodes, pending)
    requires Core(m2, que, fque, areas2, mask, hflags2, nodes, pending2)
    requires SameOutside(m, m2, touched) && forall x :: x in touched ==> Harmless(fque, nodes, x)
    requires forall f :: f in nodes ==> SizeAgrees(areas, areas2, f)
    requires Index(m, fque, index, nodes)
    ensures Index(m2, fque, index, nodes)
  {
    hide Index, Layout, AreaRing;
    forall f | f in nodes
      ensures f - QUEUE_SIZE in m && m2[f - QUEUE_SIZE].next == m[f - QUEUE_SIZE].next
      ensures f in m && f + QUEUE_SIZE in m
      ensures f !in touched && f + QUEUE_SIZE !in touched
    {
      assert SizeAgrees(areas, areas2, f);
      var i, j :| 0 <= i < |areas| && 0 <= j < |areas2| && areas[i].Block() == areas2[j].Block() == f
                  && !areas[i].term && !areas2[j].term && areas[i].size == areas2[j].size;
      AreaNext(m, que, fque, areas, mask, hflags, i);
      AreaNext(m2, que, fque, areas2, mask, hflags2, j);
      assert FreeNode(areas, f);
      var k := FreeNodeInside(m, que, fque, areas, mask, f);
    }
    assert fque in m by { LayoutHeaders(m, que, fque, areas, mask); }
    assert fque !in touched;
    IndexFrame(m, m2, fque, index, nodes);
  }

  lemma LayoutHeaders(m: Memory, que: int, fque: int, areas: seq<Area>, mask: int)
    requires Layout(m, que, fque, areas, mask)
    ensures que in m && fque in m && que != fque
  {
  }

  /** Both lists have a real area with this block and the same size. */
  ghost predicate SizeAgrees(areas: seq<Area>, areas2: seq<Area>, f: int) {
    exists i, j :: 0 <= i < |areas| && 0 <= j < |areas2| && areas[i].Block() == areas2[j].Block() == f
                   && !areas[i].term && !areas2[j].term && areas[i].size == areas2[j].size
  }

  // ---- insertAreaQue, removeAreaQue and the flags, on the store ----

  function AreaInserted(m: Memory, que: int, ent: int, mask: int): Memory
    requires que in m && ent in m && m[que].next in m && ent != que
  {
    var nx := m[que].next;
    var m1 := m[ent := Node(nx, que)];
    var m2 := m1[nx := m1[nx].(prev := Low(m1[nx].prev, mask) + ent)];
    m2[que := m2[que].(next := ent)]
  }

  function AreaRemoved(m: Memory, aq: int, mask: int): Memory
    requires aq in m && m[aq].next in m && m[aq].prev - Low(m[aq].prev, mask) in m
  {
    var p := m[aq].prev - Low(m[aq].prev, mask);
    var m1 := m[p := m[p].(next := m[aq].next)];
    m1[m1[aq].next := m1[m1[aq].next].(prev := Low(m1[m1[aq].next].prev, mask) + p)]
  }

  lemma AreaInsertedNodes(m: Memory, que: int, ent: int, mask: int)
    requires que in m && ent in m && m[que].next in m && ent != que && ent != m[que].next
    ensures var nx, m2 := m[que].next, AreaInserted(m, que, ent, mask);
            && SameOutside(m, m2, {que, nx, ent})
            && m2[ent] == Node(nx, que) && m2[que].next == ent
            && m2[nx].prev == Low(m[nx].prev, mask) + ent
            && Relinked(m, m2, que, nx, ent)
  {
  }

  lemma AreaRemovedNodes(m: Memory, aq: int, mask: int)
    requires aq in m && m[aq].next in m && m[aq].prev - Low(m[aq].prev, mask) in m
    requires m[aq].next != aq && m[aq].prev - Low(m[aq].prev, mask) != aq
    ensures var p, nx, m2 := m[aq].prev - Low(m[aq].prev, mask), m[aq].next, AreaRemoved(m, aq, mask);
            && SameOutside(m, m2, {p, nx})
            && m2[p].next == nx && m2[nx].prev == Low(m[nx].prev, mask) + p
            && Relinked(m, m2, p, nx, aq)
  {
  }

  lemma NodesDiffer(m: Memory, que: int, fque: int, areas: seq<Area>, mask: int, a: int, b: int)
    requires Layout(m, que, fque, areas, mask) && -1 <= a <= |areas| && -1 <= b <= |areas|
    requires (if a == |areas| then -1 else a) != (if b == |areas| then -1 else b)
    ensures RingNode(que, areas, a) != RingNode(que, areas, b)
  {
    if 0 <= a < |areas| && 0 <= b < |areas| { TwoAreas(m, que, fque, areas, mask, a, b); }
    if 0 <= a < |areas| { assert Outside(areas[a], que) && AreaOk(areas, a, mask); }
    if 0 <= b < |areas| { assert Outside(areas[b], que) && AreaOk(areas, b, mask); }
  }

  /** The next node's flags survive, as its word still holds an address and flags. */
  lemma PrevFlags(m: Memory, que: int, fque: int, areas: seq<Area>, mask: int, hflags: int, i: int)
    requires Layout(m, que, fque, areas, mask) && AreaRing(m, que, areas, hflags) && -1 <= i < |areas|
             && 0 <= hflags < mask
    ensures var nx := RingNode(que, areas, i + 1);
            nx in m && Low(m[nx].prev, mask) == if i + 1 < |areas| then areas[i + 1].flags else hflags
    ensures var nx := RingNode(que, areas, i + 1);
            nx in m && m[nx].prev - Low(m[nx].prev, mask) == RingNode(que, areas, i)
  {
    assert AreaLink(m, que, areas, hflags, i);
    if i + 1 < |areas| { assert AreaOk(areas, i + 1, mask); }
    if 0 <= i { assert AreaOk(areas, i, mask); }
    FlagsInWord(RingNode(que, areas, i), if i + 1 < |areas| then areas[i + 1].flags else hflags);
  }

  /** Where e can go: a node of its own, with no flags. */
  ghost predicate NewNode(m: Memory, que: int, areas: seq<Area>, e: Area) {
    e.addr in m && e.flags == 0 && e.addr != que && forall k :: 0 <= k < |areas| ==> e.addr != areas[k].addr
  }

  lemma AreaInsertedRing(m: Memory, que: int, fque: int, areas: seq<Area>, mask: int, hflags: int, i: int, e: Area)
    requires Layout(m, que, fque, areas, mask) && AreaRing(m, que, areas, hflags) && -1 <= i < |areas|
             && 0 <= hflags < mask
    requires NewNode(m, que, areas, e)
    ensures var at, nx := RingNode(que, areas, i), RingNode(que, areas, i + 1);
            && at in m && m[at].next == nx && nx in m && e.addr != at
            && var m2 := AreaInserted(m, at, e.addr, mask);
            && AreaRing(m2, que, InsertAt(areas, i + 1, e), hflags)
            && SameOutside(m, m2, {at, nx, e.addr})
  {
    var at, nx := RingNode(que, areas, i), RingNode(que, areas, i + 1);
    assert AreaLink(m, que, areas, hflags, i);
    AreaInsertedNodes(m, at, e.addr, mask);
    var m2 := AreaInserted(m, at, e.addr, mask);
    var areas2 := InsertAt(areas, i + 1, e);
    hide Layout, AreaInserted, AreaLink;
    forall k | -1 <= k < |areas2| ensures AreaLink(m2, que, areas2, hflags, k) {
      AreaInsertedLink(m, que, fque, areas, mask, hflags, i, e, k);
    }
  }

  /** A link between two nodes whose words are unchanged, at its new place. */
  lemma LinkKept(m: Memory, m2: Memory, que: int, areas: seq<Area>, areas2: seq<Area>, hflags: int, j: int, k: int)
    requires -1 <= j < |areas| && -1 <= k < |areas2| && AreaLink(m, que, areas, hflags, j)
    requires j == -1 <==> k == -1
    requires 0 <= j ==> areas2[k] == areas[j]
    requires j + 1 == |areas| <==> k + 1 == |areas2|
    requires j + 1 < |areas| ==> areas2[k + 1] == areas[j + 1]
    requires RingNode(que, areas, j) in m2 && m2[RingNode(que, areas, j)].next == m[RingNode(que, areas, j)].next
    requires RingNode(que, areas, j + 1) in m2
    requires m2[RingNode(que, areas, j + 1)].prev == m[RingNode(que, areas, j + 1)].prev
    ensures AreaLink(m2, que, areas2, hflags, k)
  {
  }

  lemma AreaInsertedLink(m: Memory, que: int, fque: int, areas: seq<Area>, mask: int, hflags: int, i: int, e: Area,
                         k: int)
    requires Layout(m, que, fque, areas, mask) && AreaRing(m, que, areas, hflags) && -1 <= i < |areas|
             && 0 <= hflags < mask
    requires NewNode(m, que, areas, e) && -1 <= k < |areas| + 1
    ensures var at := RingNode(que, areas, i);
            && at in m && m[at].next in m && e.addr != at
            && AreaLink(AreaInserted(m, at, e.addr, mask), que, InsertAt(areas, i + 1, e), hflags, k)
  {
    var at, nx := RingNode(que, areas, i), RingNode(que, areas, i + 1);
    assert AreaLink(m, que, areas, hflags, i);
    PrevFlags(m, que, fque, areas, mask, hflags, i);
    AreaInsertedNodes(m, at, e.addr, mask);
    hide AreaInserted, Layout;
    if k < i || k > i + 1 {
      NodesDiffer(m, que, fque, areas, mask, i, i + 1);
      AreaInsertedOther(m, AreaInserted(m, at, e.addr, mask), que, fque, areas, mask, hflags, i, e, k);
    }
  }

  lemma AreaInsertedOther(m: Memory, m2: Memory, que: int, fque: int, areas: seq<Area>, mask: int, hflags: int,
                          i: int, e: Area, k: int)
    requires Layout(m, que, fque, areas, mask) && AreaRing(m, que, areas, hflags) && -1 <= i < |areas|
    requires NewNode(m, que, areas, e) && -1 <= k < |areas| + 1 && (k < i || k > i + 1)
    requires Relinked(m, m2, RingNode(que, areas, i), RingNode(que, areas, i + 1), e.addr)
    ensures AreaLink(m2, que, InsertAt(areas, i + 1, e), hflags, k)
  {
    hide Layout, AreaRing, AreaLink;
    var j := if k < i then k else k - 1;
    RingLink(m, que, areas, hflags, j);
    NodesDiffer(m, que, fque, areas, mask, j, i);
    NodesDiffer(m, que, fque, areas, mask, j + 1, i + 1);
    LinkNodes(m, que, areas, hflags, j);
    LinkKept(m, m2, que, areas, InsertAt(areas, i + 1, e), hflags, j, k);
  }

  /** Only next at p, prev at nx and the node at extra may differ. */
  ghost predicate Relinked(m: Memory, m2: Memory, p: int, nx: int, extra: int) {
    && m2.Keys == m.Keys && p in m && nx in m
    && (forall x {:trigger m2[x]} :: x in m && x != p && x != extra ==> m2[x].next == m[x].next)
    && (forall x {:trigger m2[x]} :: x in m && x != nx && x != extra ==> m2[x].prev == m[x].prev)
  }

  lemma LinkNodes(m: Memory, que: int, areas: seq<Area>, hflags: int, i: int)
    requires -1 <= i < |areas| && AreaLink(m, que, areas, hflags, i)
    ensures RingNode(que, areas, i) in m && RingNode(que, areas, i + 1) in m
  {
  }

  lemma RingLink(m: Memory, que: int, areas: seq<Area>, hflags: int, i: int)
    requires AreaRing(m, que, areas, hflags) && -1 <= i < |areas|
    ensures AreaLink(m, que, areas, hflags, i)
  {
  }

  lemma AreaRemovedRing(m: Memory, que: int, fque: int, areas: seq<Area>, mask: int, hflags: int, i: int)
    requires Layout(m, que, fque, areas, mask) && AreaRing(m, que, areas, hflags) && 0 <= i < |areas|
             && 0 <= hflags < mask
    ensures var aq, p, nx := areas[i].addr, RingNode(que, areas, i - 1), RingNode(que, areas, i + 1);
            && aq in m && m[aq].next == nx && nx in m && m[aq].prev - Low(m[aq].prev, mask) == p && p in m
            && AreaRing(AreaRemoved(m, aq, mask), que, RemoveAt(areas, i), hflags)
            && SameOutside(m, AreaRemoved(m, aq, mask), {p, nx})
  {
    var aq, p, nx := areas[i].addr, RingNode(que, areas, i - 1), RingNode(que, areas, i + 1);
    assert AreaLink(m, que, areas, hflags, i - 1) && AreaLink(m, que, areas, hflags, i);
    PrevFlags(m, que, fque, areas, mask, hflags, i - 1);
    NodesDiffer(m, que, fque, areas, mask, i - 1, i);
    NodesDiffer(m, que, fque, areas, mask, i, i + 1);
    AreaRemovedNodes(m, aq, mask);
    var m2 := AreaRemoved(m, aq, mask);
    var areas2 := RemoveAt(areas, i);
    hide Layout, AreaRemoved, AreaLink;
    forall k | -1 <= k < |areas2| ensures AreaLink(m2, que, areas2, hflags, k) {
      AreaRemovedLink(m, que, fque, areas, mask, hflags, i, k);
    }
  }

  lemma AreaRemovedLink(m: Memory, que: int, fque: int, areas: seq<Area>, mask: int, hflags: int, i: int, k: int)
    requires Layout(m, que, fque, areas, mask) && AreaRing(m, que, areas, hflags) && 0 <= i < |areas|
             && 0 <= hflags < mask
    requires -1 <= k < |areas| - 1
    ensures var aq := areas[i].addr;
            && aq in m && m[aq].next in m && m[aq].prev - Low(m[aq].prev, mask) in m
            && AreaLink(AreaRemoved(m, aq, mask), que, RemoveAt(areas, i), hflags, k)
  {
    var aq := areas[i].addr;
    AreaRemovedAt(m, que, fque, areas, mask, hflags, i);
    hide AreaRemoved, Layout, AreaRing, AreaLink, Relinked;
    if k != i - 1 {
      AreaRemovedOther(m, AreaRemoved(m, aq, mask), que, fque, areas, mask, hflags, i, k);
    }
  }

  /** The nodes on both sides are linked to each other. */
  lemma AreaRemovedAt(m: Memory, que: int, fque: int, areas: seq<Area>, mask: int, hflags: int, i: int)
    requires Layout(m, que, fque, areas, mask) && AreaRing(m, que, areas, hflags) && 0 <= i < |areas|
             && 0 <= hflags < mask
    ensures var aq := areas[i].addr;
            && aq in m && m[aq].next in m && m[aq].prev - Low(m[aq].prev, mask) in m
            && AreaLink(AreaRemoved(m, aq, mask), que, RemoveAt(areas, i), hflags, i - 1)
            && Relinked(m, AreaRemoved(m, aq, mask), RingNode(que, areas, i - 1), RingNode(que, areas, i + 1), aq)
  {
    assert AreaLink(m, que, areas, hflags, i - 1) && AreaLink(m, que, areas, hflags, i);
    PrevFlags(m, que, fque, areas, mask, hflags, i - 1);
    PrevFlags(m, que, fque, areas, mask, hflags, i);
    NodesDiffer(m, que, fque, areas, mask, i - 1, i);
    NodesDiffer(m, que, fque, areas, mask, i, i + 1);
    AreaRemovedNodes(m, areas[i].addr, mask);
    hide AreaRemoved, Layout;
  }

  lemma AreaRemovedOther(m: Memory, m2: Memory, que: int, fque: int, areas: seq<Area>, mask: int, hflags: int, i: int,
                         k: int)
    requires Layout(m, que, fque, areas, mask) && AreaRing(m, que, areas, hflags) && 0 <= i < |areas|
    requires -1 <= k < |areas| - 1 && k != i - 1
    requires Relinked(m, m2, RingNode(que, areas, i - 1), RingNode(que, areas, i + 1), RingNode(que, areas, i))
    ensures AreaLink(m2, que, RemoveAt(areas, i), hflags, k)
  {
    hide Layout, AreaRing, AreaLink;
    var j := if k < i then k else k + 1;
    RingLink(m, que, areas, hflags, j);
    NodesDiffer(m, que, fque, areas, mask, j, i - 1);
    NodesDiffer(m, que, fque, areas, mask, j + 1, i + 1);
    NodesDiffer(m, que, fque, areas, mask, j, i);
    NodesDiffer(m, que, fque, areas, mask, j + 1, i);
    LinkNodes(m, que, areas, hflags, j);
    LinkKept(m, m2, que, areas, RemoveAt(areas, i), hflags, j, k);
  }

  /** The ring sees only addresses and flags. */
  lemma AreaRingSame(m: Memory, que: int, areas: seq<Area>, areas2: seq<Area>, hflags: int)
    requires AreaRing(m, que, areas, hflags) && |areas2| == |areas|
    requires forall k :: 0 <= k < |areas| ==> areas2[k].addr == areas[k].addr && areas2[k].flags == areas[k].flags
    ensures AreaRing(m, que, areas2, hflags)
  {
    forall k | -1 <= k < |areas2| ensures AreaLink(m, que, areas2, hflags, k) {
      assert AreaLink(m, que, areas, hflags, k);
    }
  }

  lemma FlagSetRing(m: Memory, que: int, fque: int, areas: seq<Area>, mask: int, hflags: int, i: int, fl: int)
    requires Layout(m, que, fque, areas, mask) && AreaRing(m, que, areas, hflags) && 0 <= i < |areas|
    ensures var aq := areas[i].addr;
            && aq in m
            && var m2 := m[aq := m[aq].(prev := m[aq].prev - areas[i].flags + fl)];
               AreaRing(m2, que, areas[i := areas[i].(flags := fl)], hflags)
  {
    var aq := areas[i].addr;
    assert AreaLink(m, que, areas, hflags, i - 1) && AreaLink(m, que, areas, hflags, i);
    var m2 := m[aq := m[aq].(prev := m[aq].prev - areas[i].flags + fl)];
    var areas2 := areas[i := areas[i].(flags := fl)];
    forall k | -1 <= k < |areas2| ensures AreaLink(m2, que, areas2, hflags, k) {
      hide Layout;
      assert AreaLink(m, que, areas, hflags, k);
      if k + 1 != i { NodesDiffer(m, que, fque, areas, mask, k + 1, i); }
      assert RingNode(que, areas2, k) == RingNode(que, areas, k);
      assert RingNode(que, areas2, k + 1) == RingNode(que, areas, k + 1);
    }
  }

  lemma HeaderFlagSetRing(m: Memory, que: int, fque: int, areas: seq<Area>, mask: int, hflags: int, fl: int)
    requires Layout(m, que, fque, areas, mask) && AreaRing(m, que, areas, hflags) && |areas| > 0
    ensures && que in m
            && var m2 := m[que := m[que].(prev := m[que].prev - hflags + fl)];
               AreaRing(m2, que, areas, fl)
  {
    var n := |areas| - 1;
    assert AreaLink(m, que, areas, hflags, n) && AreaLink(m, que, areas, hflags, -1);
    var m2 := m[que := m[que].(prev := m[que].prev - hflags + fl)];
    forall k | -1 <= k < |areas| ensures AreaLink(m2, que, areas, fl, k) {
      hide Layout;
      assert AreaLink(m, que, areas, hflags, k);
      if k < n { NodesDiffer(m, que, fque, areas, mask, -1, k + 1); }
    }
  }

  // ---- what a step keeps ----

  lemma AreaNodeNotLive(m: Memory, que: int, fque: int, areas: seq<Area>, mask: int, i: int)
    requires Layout(m, que, fque, areas, mask) && -1 <= i <= |areas|
    ensures !LiveAt(areas, RingNode(que, areas, i))
  {
    var x := RingNode(que, areas, i);
    assert forall j :: 0 <= j < |areas| ==> Outside(areas[j], que) && AreaOk(areas, j, mask);
    forall j | 0 <= j < |areas| && areas[j].Live() && areas[j].Block() <= x < areas[j].End() ensures false {
      if 0 <= i < |areas| && i != j { TwoAreas(m, que, fque, areas, mask, i, j); }
    }
  }

  /** An address in a free area is in no block in use. */
  lemma FreeNotLive(m: Memory, que: int, fque: int, areas: seq<Area>, mask: int, i: int, x: int)
    requires Layout(m, que, fque, areas, mask) && 0 <= i < |areas| && areas[i].Free()
    requires areas[i].addr <= x < areas[i].End()
    ensures !LiveAt(areas, x)
  {
    forall j | 0 <= j < |areas| && areas[j].Live() && areas[j].Block() <= x < areas[j].End() ensures false {
      TwoAreas(m, que, fque, areas, mask, i, j);
    }
  }

  lemma IndexNodeNotLive(m: Memory, que: int, fque: int, areas: seq<Area>, mask: int, nodes: set<int>, x: int)
    requires Layout(m, que, fque, areas, mask) && forall f :: f in nodes ==> FreeNode(areas, f)
    requires x == fque || x in nodes || x - QUEUE_SIZE in nodes
    ensures !LiveAt(areas, x)
  {
    if x in nodes || x - QUEUE_SIZE in nodes {
      var i := FreeNodeInside(m, que, fque, areas, mask, if x in nodes then x else x - QUEUE_SIZE);
      FreeNotLive(m, que, fque, areas, mask, i, x);
    } else {
      assert forall j :: 0 <= j < |areas| ==> Outside(areas[j], fque);
    }
  }

  /** What users may do: write inside blocks in use. */
  ghost predicate UsersWrote(m: Memory, m2: Memory, areas: seq<Area>) {
    m2.Keys == m.Keys && forall x {:trigger m2[x]} :: x in m && !LiveAt(areas, x) ==> m2[x] == m[x]
  }

  /** Whatever users write into blocks in use, areas and index stay as they were. */
  lemma UsersWriteFreely(m: Memory, m2: Memory, que: int, fque: int, areas: seq<Area>, mask: int, hflags: int,
                         nodes: set<int>, pending: set<int>, index: seq<Bucket>)
    requires Core(m, que, fque, areas, mask, hflags, nodes, pending) && Index(m, fque, index, nodes)
    requires UsersWrote(m, m2, areas)
    ensures Core(m2, que, fque, areas, mask, hflags, nodes, pending) && Index(m2, fque, index, nodes)
  {
    hide Layout, Index, LiveAt;
    TracksNodes(areas, nodes, pending);
    LayoutFrame(m, m2, que, fque, areas, mask);
    LayoutHeaders(m, que, fque, areas, mask);
    forall i | -1 <= i < |areas| ensures AreaLink(m2, que, areas, hflags, i) {
      assert AreaLink(m, que, areas, hflags, i);
      AreaNodeNotLive(m, que, fque, areas, mask, i);
      AreaNodeNotLive(m, que, fque, areas, mask, i + 1);
    }
    IndexNodeNotLive(m, que, fque, areas, mask, nodes, fque);
    forall f | f in nodes
      ensures f - QUEUE_SIZE in m && f in m && f + QUEUE_SIZE in m
      ensures m2[f] == m[f] && m2[f + QUEUE_SIZE] == m[f + QUEUE_SIZE] && m2[f - QUEUE_SIZE] == m[f - QUEUE_SIZE]
    {
      assert FreeNode(areas, f);
      var i := FreeNodeInside(m, que, fque, areas, mask, f);
      IndexNodeNotLive(m, que, fque, areas, mask, nodes, f);
      IndexNodeNotLive(m, que, fque, areas, mask, nodes, f + QUEUE_SIZE);
      AreaNodeNotLive(m, que, fque, areas, mask, i);
    }
    IndexFrame(m, m2, fque, index, nodes);
  }

  /** Index steps leave the areas as they were. */
  lemma CoreKept(m: Memory, m2: Memory, que: int, fque: int, areas: seq<Area>, mask: int, hflags: int,
                 nodes: set<int>, pending: set<int>, touched: set<int>)
    requires Core(m, que, fque, areas, mask, hflags, nodes, pending)
    requires OnlyIndexNodes(m, m2, fque, touched) && touched <= nodes + pending
    ensures Layout(m2, que, fque, areas, mask) && AreaRing(m2, que, areas, hflags)
    ensures KeepsLive(m, m2, areas)
  {
    assert forall f :: f in touched ==> f in nodes + pending;
    assert Tracks(areas, nodes + pending, {}) ;
    assert Layout(m2, que, fque, areas, mask) by { LayoutFrame(m, m2, que, fque, areas, mask); }
    forall i | -1 <= i < |areas| ensures AreaLink(m2, que, areas, hflags, i) {
      assert AreaLink(m, que, areas, hflags, i);
      AreaNodeHarmless(m, que, fque, areas, mask, nodes + pending, {}, i);
      AreaNodeHarmless(m, que, fque, areas, mask, nodes + pending, {}, i + 1);
    }
    forall x | x in m && LiveAt(areas, x) ensures m2[x] == m[x] {
      if x == fque || x in touched || x - QUEUE_SIZE in touched {
        assert forall f :: f in touched ==> FreeNode(areas, f);
        IndexNodeNotLive(m, que, fque, areas, mask, touched, x);
      }
    }
  }

  lemma LayoutMask(m: Memory, que: int, fque: int, areas: seq<Area>, mask: int)
    requires Layout(m, que, fque, areas, mask)
    ensures (mask == 2 || mask == 8) && que % 8 == 0 && que in m
  {
  }

  lemma TracksNodes(areas: seq<Area>, nodes: set<int>, pending: set<int>)
    requires Tracks(areas, nodes, pending)
    ensures forall f :: f in nodes ==> FreeNode(areas, f)
  {
  }

  lemma LayoutFrame(m: Memory, m2: Memory, que: int, fque: int, areas: seq<Area>, mask: int)
    requires Layout(m, que, fque, areas, mask) && m2.Keys == m.Keys
    ensures Layout(m2, que, fque, areas, mask)
  {
  }

  lemma LiveKept(m: Memory, m2: Memory, areas: seq<Area>, touched: set<int>)
    requires SameOutside(m, m2, touched) && forall x :: x in touched ==> !LiveAt(areas, x)
    ensures KeepsLive(m, m2, areas)
  {
  }

  /** Flags change; everything else about the areas stays. */
  lemma FlagLayout(m: Memory, m2: Memory, que: int, fque: int, areas: seq<Area>, mask: int, i: int, fl: int)
    requires Layout(m, que, fque, areas, mask) && m2.Keys == m.Keys && 0 <= i < |areas| && 0 <= fl < mask
    ensures Layout(m2, que, fque, areas[i := areas[i].(flags := fl)], mask)
  {
    var areas2 := areas[i := areas[i].(flags := fl)];
    forall k | 0 <= k < |areas2| ensures AreaOk(areas2, k, mask) { assert AreaOk(areas, k, mask); }
    forall k, l | 0 <= k < l < |areas2| ensures Disjoint(areas2[k], areas2[l]) {
      assert Disjoint(areas[k], areas[l]);
    }
    forall k | 0 <= k < |areas2| ensures Outside(areas2[k], que) && Outside(areas2[k], fque) {
      assert Outside(areas[k], que) && Outside(areas[k], fque);
    }
    forall k, x | 0 <= k < |areas2| && areas2[k].addr <= x < areas2[k].End() && x % 8 == 0 ensures x in m2 {
      assert areas[k].addr <= x < areas[k].End();
    }
  }

  lemma FlagTracks(m: Memory, que: int, fque: int, areas: seq<Area>, mask: int, nodes: set<int>, pending: set<int>,
                   i: int, fl: int)
    requires Layout(m, que, fque, areas, mask) && Tracks(areas, nodes, pending) && 0 <= i < |areas|
    requires areas[i].Free() ==> areas[i].Block() in pending
    ensures var areas2 := areas[i := areas[i].(flags := fl)];
            var b := areas[i].Block();
            Tracks(areas2, nodes, if areas2[i].Free() then pending + {b} else pending - {b})
  {
    var areas2 := areas[i := areas[i].(flags := fl)];
    var b := areas[i].Block();
    forall f ensures FreeNode(areas2, f) <==> (FreeNode(areas, f) && f != b) || (f == b && areas2[i].Free()) {
      if FreeNode(areas2, f) {
        var k :| 0 <= k < |areas2| && areas2[k].Free() && areas2[k].Block() == f;
        if k != i { TwoAreas(m, que, fque, areas, mask, i, k); assert areas[k].Free(); }
      }
      if FreeNode(areas, f) && f != b {
        var k :| 0 <= k < |areas| && areas[k].Free() && areas[k].Block() == f;
        assert areas2[k].Free();
      }
      if f == b && areas2[i].Free() { assert areas2[i].Block() == b; }
    }
    if b in nodes {
      assert FreeNode(areas, b);
      var k :| 0 <= k < |areas| && areas[k].Free() && areas[k].Block() == b;
      if k != i { TwoAreas(m, que, fque, areas, mask, i, k); }
      assert false;
    }
  }

  lemma SizesAgree(areas: seq<Area>, areas2: seq<Area>, nodes: set<int>)
    requires forall f :: f in nodes ==> FreeNode(areas, f)
    requires |areas2| == |areas|
    requires forall k :: 0 <= k < |areas| ==>
               && areas2[k].addr == areas[k].addr && areas2[k].size == areas[k].size
               && areas2[k].term == areas[k].term
    ensures forall f :: f in nodes ==> SizeAgrees(areas, areas2, f)
  {
    forall f | f in nodes ensures SizeAgrees(areas, areas2, f) {
      assert FreeNode(areas, f);
      var k :| 0 <= k < |areas| && areas[k].Free() && areas[k].Block() == f;
      assert areas2[k].Block() == f;
    }
  }

  /** The areas and free queue of one pool, changed in place. */
  class AreaHeap {
    const q: QueueMemory
    const que: int       // header of areaque
    const mask: int      // 2: AREA_MASK is one bit, 8: three bits
    const free: FreeQue

    ghost var areas: seq<Area>
    ghost var hflags: int
    ghost var pending: set<int>

    ghost predicate Valid()
      reads this, q, free
    {
      && free.q == q
      && Core(q.m, que, free.que, areas, mask, hflags, free.nodes, pending)
      && free.Valid()
    }

    constructor (que0: int, fque0: int, mask0: int, quarter: nat, q0: QueueMemory)
      requires (mask0 == 2 || mask0 == 8) && que0 in q0.m && fque0 in q0.m && que0 != fque0
      requires que0 % 8 == 0 && fque0 % 8 == 0
      modifies q0
      ensures Valid() && fresh(free) && areas == [] && hflags == 0 && pending == {} && free.nodes == {}
      ensures q == q0 && que == que0 && mask == mask0 && free.que == fque0 && free.quarter == quarter
      ensures q.m.Keys == old(q0.m.Keys)
    {
      q, que, mask := q0, que0, mask0;
      areas, hflags, pending := [], 0, {};
      q0.QueInit(que0);
      var f := new FreeQue(q0, fque0, quarter);
      free := f;
    }

    /** Users may have written into their blocks since. */
    twostate lemma UsersWriteHere()
      requires old(Valid()) && unchanged(this) && unchanged(free) && UsersWrote(old(q.m), q.m, areas)
      ensures Valid()
    {
      hide Index, AreaRing, Layout, Tracks, LiveAt;
      UsersWriteFreely(old(q.m), q.m, que, free.que, areas, mask, hflags, free.nodes, pending, free.index);
    }

    /** setAreaFlag on the header, so that the first area never joins backwards. */
    method SetHeaderFlag(f: int)
      requires Valid() && |areas| > 0 && (f == 1 || f == 2 || f == 4) && SetBit(hflags, f) < mask
      modifies this`hflags, q
      ensures Valid() && hflags == SetBit(old(hflags), f)
      ensures KeepsLive(old(q.m), q.m, areas)
    {
      hide Index, Layout, AreaRing, Tracks;
      ghost var m, n := q.m, |areas| - 1;
      RingLink(m, que, areas, hflags, n);
      LayoutAt(m, que, free.que, areas, mask, n);
      LayoutMask(m, que, free.que, areas, mask);
      FlagsInWord(areas[n].addr, hflags);
      HeaderFlagSetRing(m, que, free.que, areas, mask, hflags, SetBit(hflags, f));
      q.m := q.m[que := q.m[que].(prev := SetBit(q.m[que].prev, f))];
      assert q.m.Keys == m.Keys;
      LayoutFrame(m, q.m, que, free.que, areas, mask);
      AreaNodeHarmless(m, que, free.que, areas, mask, free.nodes, pending, -1);
      AreaNodeNotLive(m, que, free.que, areas, mask, -1);
      LiveKept(m, q.m, areas, {que});
      assert forall f :: f in free.nodes ==> FreeNode(areas, f) by { TracksNodes(areas, free.nodes, pending); }
      SizesAgree(areas, areas, free.nodes);
      IndexKept(m, q.m, que, free.que, areas, areas, mask, hflags, SetBit(hflags, f), free.nodes, pending, pending,
                free.index, {que});
      hflags := SetBit(hflags, f);
    }

    /** chkAreaFlag on the area after position i. */
    method ChkNextFlag(aq: int, f: int, ghost i: int) returns (isSet: bool)
      requires Valid() && -1 <= i < |areas| && aq == RingNode(que, areas, i) && (f == 1 || f == 2 || f == 4)
      ensures isSet == TestBit(if i + 1 < |areas| then areas[i + 1].flags else hflags, f)
    {
      hide Index;
      assert AreaLink(q.m, que, areas, hflags, i);
      if 0 <= i { assert AreaOk(areas, i, mask); }
      if i + 1 < |areas| { assert AreaOk(areas, i + 1, mask); }
      FlagsInWord(aq, if i + 1 < |areas| then areas[i + 1].flags else hflags);
      isSet := TestBit(q.m[q.m[aq].next].prev, f);
    }

    /** chkAreaFlag on the area at position i, or on the header at -1. */
    method ChkFlag(aq: int, f: int, ghost i: int) returns (isSet: bool)
      requires Valid() && |areas| > 0 && -1 <= i < |areas| && aq == RingNode(que, areas, i)
               && (f == 1 || f == 2 || f == 4)
      ensures isSet == TestBit(if i == -1 then hflags else areas[i].flags, f)
    {
      hide Index, Layout, AreaRing, Tracks;
      if 0 <= i {
        WordOf(i);
        FlagsInWord(RingNode(que, areas, i - 1), areas[i].flags);
      } else {
        HeaderWord();
        FlagsInWord(RingNode(que, areas, |areas| - 1), hflags);
      }
      isSet := TestBit(q.m[aq].prev, f);
    }

    lemma HeaderWord()
      requires Valid() && |areas| > 0
      ensures que in q.m && q.m[que].prev == RingNode(que, areas, |areas| - 1) + hflags
      ensures RingNode(que, areas, |areas| - 1) % 8 == 0 && 0 <= hflags < 8
    {
      RingLink(q.m, que, areas, hflags, |areas| - 1);
      LayoutAt(q.m, que, free.que, areas, mask, |areas| - 1);
    }

    /** A free area other than the one being worked on is in the index. */
    lemma IndexedFree(i: nat, j: nat)
      requires Valid() && i < |areas| && j < |areas| && i != j && pending <= {areas[i].Block()} && areas[j].Free()
      ensures areas[j].Block() in free.nodes
    {
      assert FreeNode(areas, areas[j].Block());
      TwoAreas(q.m, que, free.que, areas, mask, i, j);
    }

    /** setAreaFlag(aq, f) for an area; AREA_USE on an area being worked on takes it out of there. */
    method SetFlag(aq: int, f: int, ghost i: nat)
      requires Valid() && i < |areas| && aq == areas[i].addr && (f == 1 || f == 2 || f == 4)
      requires SetBit(areas[i].flags, f) < mask
      requires areas[i].Free() ==> areas[i].Block() in pending
      modifies this`areas, this`pending, q
      ensures Valid()
      ensures areas == old(areas)[i := old(areas)[i].(flags := SetBit(old(areas)[i].flags, f))]
      ensures pending == if areas[i].Free() then old(pending) else old(pending) - {areas[i].Block()}
      ensures KeepsLive(old(q.m), q.m, old(areas))
    {
      hide Index, Layout, AreaRing, Tracks;
      WordOf(i);
      FlagsInWord(RingNode(que, areas, i - 1), areas[i].flags);
      q.m := q.m[aq := q.m[aq].(prev := SetBit(q.m[aq].prev, f))];
      NewFlags(old(q.m), i, SetBit(areas[i].flags, f));
      ghost var b := areas[i].Block();
      areas := areas[i := areas[i].(flags := SetBit(areas[i].flags, f))];
      pending := if areas[i].Free() then pending + {b} else pending - {b};
    }

    /** clrAreaFlag(aq, AREA_USE): the area is free but not yet in the index. */
    method ClearUseFlag(aq: int, ghost i: nat)
      requires Valid() && i < |areas| && aq == areas[i].addr && areas[i].Live()
      modifies this`areas, this`pending, q
      ensures Valid()
      ensures areas == old(areas)[i := old(areas)[i].(flags := old(areas)[i].flags - 1)]
      ensures pending == old(pending) + {areas[i].Block()}
      ensures KeepsLive(old(q.m), q.m, areas)
    {
      hide Index, Layout, AreaRing, Tracks;
      WordOf(i);
      FlagsInWord(RingNode(que, areas, i - 1), areas[i].flags);
      q.m := q.m[aq := q.m[aq].(prev := ClearBit(q.m[aq].prev, AREA_USE))];
      NewFlags(old(q.m), i, areas[i].flags - 1);
      pending := pending + {areas[i].Block()};
      areas := areas[i := areas[i].(flags := areas[i].flags - 1)];
      FewerLive(old(areas), areas, i);
    }

    lemma FewerLive(areas: seq<Area>, areas2: seq<Area>, i: nat)
      requires i < |areas| && areas2 == areas[i := areas[i].(flags := areas[i].flags - 1)] && areas[i].Live()
      ensures forall x {:trigger LiveAt(areas2, x)} :: LiveAt(areas2, x) ==> LiveAt(areas, x)
    {
      forall x | LiveAt(areas2, x) ensures LiveAt(areas, x) {
        var k :| 0 <= k < |areas2| && areas2[k].Live() && areas2[k].Block() <= x < areas2[k].End();
        assert areas[k].Live();
      }
    }

    lemma WordOf(i: nat)
      requires Valid() && i < |areas|
      ensures areas[i].addr in q.m && q.m[areas[i].addr].prev == RingNode(que, areas, i - 1) + areas[i].flags
      ensures RingNode(que, areas, i - 1) % 8 == 0 && 0 <= areas[i].flags < mask <= 8
    {
      AreaNext(q.m, que, free.que, areas, mask, hflags, i);
      if 0 < i { assert AreaOk(areas, i - 1, mask); }
      assert AreaOk(areas, i, mask);
    }

    /** Everything known after the flags of area i became fl. */
    lemma NewFlags(m: Memory, i: nat, fl: int)
      requires free.q == q && Core(m, que, free.que, areas, mask, hflags, free.nodes, pending)
      requires Index(m, free.que, free.index, free.nodes)
      requires i < |areas| && 0 <= fl < mask && (areas[i].Free() ==> areas[i].Block() in pending)
      requires areas[i].addr in m
      requires q.m == m[areas[i].addr := m[areas[i].addr].(prev := m[areas[i].addr].prev - areas[i].flags + fl)]
      ensures var areas2 := areas[i := areas[i].(flags := fl)];
              var pending2 := if areas2[i].Free() then pending + {areas[i].Block()} else pending - {areas[i].Block()};
              && Core(q.m, que, free.que, areas2, mask, hflags, free.nodes, pending2)
              && Index(q.m, free.que, free.index, free.nodes)
              && KeepsLive(m, q.m, areas)
    {
      hide Index, Layout, AreaRing;
      var areas2 := areas[i := areas[i].(flags := fl)];
      var pending2 := if areas2[i].Free() then pending + {areas[i].Block()} else pending - {areas[i].Block()};
      assert q.m.Keys == m.Keys;
      FlagSetRing(m, que, free.que, areas, mask, hflags, i, fl);
      FlagLayout(m, q.m, que, free.que, areas, mask, i, fl);
      FlagTracks(m, que, free.que, areas, mask, free.nodes, pending, i, fl);
      AreaNodeHarmless(m, que, free.que, areas, mask, free.nodes, pending, i);
      AreaNodeNotLive(m, que, free.que, areas, mask, i);
      SizesAgree(areas, areas2, free.nodes);
      LiveKept(m, q.m, areas, {areas[i].addr});
      IndexKept(m, q.m, que, free.que, areas, areas2, mask, hflags, hflags, free.nodes, pending, pending2, free.index,
                {areas[i].addr});
    }

    /** removeFreeQue: out of the index and being worked on. */
    method TakeFree(fq: int)
      requires Valid() && fq in free.nodes
      modifies this`pending, free, q
      ensures Valid() && pending == old(pending) + {fq} && free.nodes == old(free.nodes) - {fq}
      ensures KeepsLive(old(q.m), q.m, areas)
    {
      hide Index, Layout, AreaRing;
      ghost var m, nodes := q.m, free.nodes;
      free.RemoveFreeQue(fq);
      CoreKept(m, q.m, que, free.que, areas, mask, hflags, nodes, pending, nodes);
      pending := pending + {fq};
    }

    /** appendFreeArea: back into the index. */
    method AppendFree(aq: int, ghost i: nat)
      requires Valid() && i < |areas| && aq == areas[i].addr && areas[i].Free() && areas[i].Block() in pending
      modifies this`pending, free, q
      ensures Valid() && pending == old(pending) - {areas[i].Block()}
              && free.nodes == old(free.nodes) + {areas[i].Block()}
      ensures KeepsLive(old(q.m), q.m, areas)
    {
      hide Index, Layout, AreaRing;
      ghost var m, nodes := q.m, free.nodes;
      WordOf(i);
      FlagsInWord(RingNode(que, areas, i - 1), areas[i].flags);
      AreaNext(m, que, free.que, areas, mask, hflags, i);
      ghost var b := areas[i].Block();
      assert forall f :: f in nodes + {b} ==> FreeNode(areas, f) by { WithOneMore(areas, nodes, pending, b); }
      hide Tracks;
      CoreSpaced(m, que, free.que, areas, mask, nodes + {areas[i].Block()});
      SizeNat(i);
      free.AppendFreeArea(aq, q.m[aq].next - (aq + QUEUE_SIZE));
      assert m[aq := ClearUse(m[aq])] == m;
      CoreKept(m, q.m, que, free.que, areas, mask, hflags, nodes, pending, free.nodes);
      pending := pending - {areas[i].Block()};
    }

    lemma WithOneMore(areas: seq<Area>, nodes: set<int>, pending: set<int>, b: int)
      requires Tracks(areas, nodes, pending) && b in pending
      ensures forall f :: f in nodes + {b} ==> FreeNode(areas, f)
    {
    }

    lemma SizeNat(i: nat)
      requires Valid() && i < |areas|
      ensures areas[i].size >= 0 && areas[i].size % 8 == 0 && (!areas[i].term ==> areas[i].size >= 16)
    {
      assert AreaOk(areas, i, mask);
    }

    /** insertAreaQue, where areas2 is what the caller now makes of the areas. */
    method InsertAreaQue(at: int, ent: int, ghost i: int, ghost areas2: seq<Area>, ghost pending2: set<int>)
      requires Valid() && -1 <= i < |areas| && at == RingNode(que, areas, i)
      requires |areas2| == |areas| + 1 && ent == areas2[i + 1].addr && NewNode(q.m, que, areas, areas2[i + 1])
      requires forall k :: 0 <= k < |areas| ==>
                 var e := areas2[if k <= i then k else k + 1];
                 e.addr == areas[k].addr && e.flags == areas[k].flags
      requires Layout(q.m, que, free.que, areas2, mask) && Tracks(areas2, free.nodes, pending2)
      requires Harmless(free.que, free.nodes, ent) && !LiveAt(areas, ent)
      requires forall f :: f in free.nodes ==> SizeAgrees(areas, areas2, f)
      modifies this`areas, this`pending, q
      ensures Valid() && areas == areas2 && pending == pending2
      ensures KeepsLive(old(q.m), q.m, old(areas))
    {
      hide Index, Layout, AreaRing, Tracks;
      ghost var m := q.m;
      ghost var nx := RingNode(que, areas, i + 1);
      AreaInsertedRing(m, que, free.que, areas, mask, hflags, i, areas2[i + 1]);
      q.m := q.m[ent := q.m[ent].(prev := at)];
      q.m := q.m[ent := q.m[ent].(next := q.m[at].next)];
      var n := q.m[at].next;
      q.m := q.m[n := q.m[n].(prev := Low(q.m[n].prev, mask) + ent)];
      q.m := q.m[at := q.m[at].(next := ent)];
      assert q.m == AreaInserted(m, at, ent, mask);
      AreaRingSame(q.m, que, InsertAt(areas, i + 1, areas2[i + 1]), areas2, hflags);
      Inserted2(m, i, areas2, pending2, {at, nx, ent});
      areas, pending := areas2, pending2;
    }

    lemma Inserted2(m: Memory, i: int, areas2: seq<Area>, pending2: set<int>, touched: set<int>)
      requires free.q == q && Core(m, que, free.que, areas, mask, hflags, free.nodes, pending) && -1 <= i < |areas|
      requires Index(m, free.que, free.index, free.nodes) && |areas2| > i + 1
      requires touched == {RingNode(que, areas, i), RingNode(que, areas, i + 1), areas2[i + 1].addr}
      requires SameOutside(m, q.m, touched) && AreaRing(q.m, que, areas2, hflags)
      requires Layout(m, que, free.que, areas2, mask) && Tracks(areas2, free.nodes, pending2)
      requires Harmless(free.que, free.nodes, areas2[i + 1].addr) && !LiveAt(areas, areas2[i + 1].addr)
      requires forall f :: f in free.nodes ==> SizeAgrees(areas, areas2, f)
      ensures Core(q.m, que, free.que, areas2, mask, hflags, free.nodes, pending2)
      ensures Index(q.m, free.que, free.index, free.nodes)
      ensures KeepsLive(m, q.m, areas)
    {
      hide Index, Layout, AreaRing, Tracks;
      AreaNodeHarmless(m, que, free.que, areas, mask, free.nodes, pending, i);
      AreaNodeHarmless(m, que, free.que, areas, mask, free.nodes, pending, i + 1);
      AreaNodeNotLive(m, que, free.que, areas, mask, i);
      AreaNodeNotLive(m, que, free.que, areas, mask, i + 1);
      LayoutFrame(m, q.m, que, free.que, areas2, mask);
      LiveKept(m, q.m, areas, touched);
      IndexKept(m, q.m, que, free.que, areas, areas2, mask, hflags, hflags, free.nodes, pending, pending2, free.index,
                touched);
    }

    /** removeAreaQue, where areas2 is what the caller now makes of the areas. */
    method RemoveAreaQue(aq: int, ghost i: nat, ghost areas2: seq<Area>, ghost pending2: set<int>)
      requires Valid() && i < |areas| && aq == areas[i].addr
      requires |areas2| == |areas| - 1
      requires forall k :: 0 <= k < |areas2| ==>
                 var e := areas[if k < i then k else k + 1];
                 areas2[k].addr == e.addr && areas2[k].flags == e.flags
      requires Layout(q.m, que, free.que, areas2, mask) && Tracks(areas2, free.nodes, pending2)
      requires forall f :: f in free.nodes ==> SizeAgrees(areas, areas2, f)
      modifies this`areas, this`pending, q
      ensures Valid() && areas == areas2 && pending == pending2
      ensures KeepsLive(old(q.m), q.m, old(areas))
    {
      hide Index, Layout, AreaRing, Tracks;
      ghost var m := q.m;
      AreaRemovedRing(m, que, free.que, areas, mask, hflags, i);
      var p := q.m[aq].prev - Low(q.m[aq].prev, mask);
      q.m := q.m[p := q.m[p].(next := q.m[aq].next)];
      var n := q.m[aq].next;
      q.m := q.m[n := q.m[n].(prev := Low(q.m[n].prev, mask) + p)];
      assert q.m == AreaRemoved(m, aq, mask);
      AreaRingSame(q.m, que, RemoveAt(areas, i), areas2, hflags);
      Removed2(m, i, areas2, pending2);
      areas, pending := areas2, pending2;
    }

    lemma Removed2(m: Memory, i: nat, areas2: seq<Area>, pending2: set<int>)
      requires free.q == q && Core(m, que, free.que, areas, mask, hflags, free.nodes, pending) && i < |areas|
      requires Index(m, free.que, free.index, free.nodes)
      requires SameOutside(m, q.m, {RingNode(que, areas, i - 1), RingNode(que, areas, i + 1)})
               && AreaRing(q.m, que, areas2, hflags)
      requires Layout(m, que, free.que, areas2, mask) && Tracks(areas2, free.nodes, pending2)
      requires forall f :: f in free.nodes ==> SizeAgrees(areas, areas2, f)
      ensures Core(q.m, que, free.que, areas2, mask, hflags, free.nodes, pending2)
      ensures Index(q.m, free.que, free.index, free.nodes)
      ensures KeepsLive(m, q.m, areas)
    {
      hide Index, Layout, AreaRing, Tracks;
      var touched := {RingNode(que, areas, i - 1), RingNode(que, areas, i + 1)};
      AreaNodeHarmless(m, que, free.que, areas, mask, free.nodes, pending, i - 1);
      AreaNodeHarmless(m, que, free.que, areas, mask, free.nodes, pending, i + 1);
      AreaNodeNotLive(m, que, free.que, areas, mask, i - 1);
      AreaNodeNotLive(m, que, free.que, areas, mask, i + 1);
      LayoutFrame(m, q.m, que, free.que, areas2, mask);
      LiveKept(m, q.m, areas, touched);
      IndexKept(m, q.m, que, free.que, areas, areas2, mask, hflags, hflags, free.nodes, pending, pending2, free.index,
                touched);
    }

    /** Divides a free area being worked on; the rest is a free area of its own. */
    method Split(aq: int, blksz: int, ghost i: nat) returns (rest: int)
      requires Valid() && i < |areas| && aq == areas[i].addr && areas[i].Free() && areas[i].Block() in pending
      requires blksz % 8 == 0 && 16 <= blksz && areas[i].size - blksz >= 24
      modifies this`areas, this`pending, q
      ensures Valid() && rest == aq + QUEUE_SIZE + blksz && areas == SplitAt(old(areas), i, blksz)
      ensures pending == old(pending) + {rest + QUEUE_SIZE}
      ensures KeepsLive(old(q.m), q.m, old(areas))
    {
      hide Index, AreaRing;
      rest := aq + QUEUE_SIZE + blksz;
      ghost var areas2 := SplitAt(areas, i, blksz);
      ghost var pending2 := pending + {rest + QUEUE_SIZE};
      SplitLayout(q.m, que, free.que, areas, mask, i, blksz);
      SplitTracks(q.m, que, free.que, areas, mask, free.nodes, pending, i, blksz);
      assert AreaOk(areas, i, mask);
      FreeNotLive(q.m, que, free.que, areas, mask, i, rest);
      PendingHarmless(q.m, que, free.que, areas, mask, free.nodes, pending, i, rest);
      InsertAreaQue(aq, rest, i, areas2, pending2);
    }

    /** Joins area i + 1 to area i, both being worked on. */
    method Merge(aq: int, ghost i: nat)
      requires Valid() && i + 1 < |areas| && aq == areas[i + 1].addr
      requires areas[i].Free() && areas[i + 1].Free() && areas[i].Block() in pending && areas[i + 1].Block() in pending
      modifies this`areas, this`pending, q
      ensures Valid() && areas == MergeAt(old(areas), i)
      ensures pending == old(pending) - {old(areas)[i + 1].Block()}
      ensures KeepsLive(old(q.m), q.m, old(areas))
    {
      hide Index, AreaRing;
      MergeLayout(q.m, que, free.que, areas, mask, i);
      MergeTracks(q.m, que, free.que, areas, mask, free.nodes, pending, i);
      RemoveAreaQue(aq, i + 1, MergeAt(areas, i), pending - {areas[i + 1].Block()});
    }
  }

  // ---- dividing and joining areas ----

  function SplitAt(areas: seq<Area>, i: nat, blksz: int): (r: seq<Area>)
    requires i < |areas|
    ensures |r| == |areas| + 1
    ensures forall k {:trigger r[k]} :: 0 <= k < i ==> r[k] == areas[k]
    ensures r[i] == areas[i].(size := blksz)
    ensures r[i + 1] == Area(areas[i].addr + QUEUE_SIZE + blksz, areas[i].size - blksz - QUEUE_SIZE, false, 0)
    ensures forall k {:trigger r[k]} :: i + 1 < k <= |areas| ==> r[k] == areas[k - 1]
  {
    areas[..i]
    + [areas[i].(size := blksz), Area(areas[i].addr + QUEUE_SIZE + blksz, areas[i].size - blksz - QUEUE_SIZE, false, 0)]
    + areas[i + 1..]
  }

  function MergeAt(areas: seq<Area>, i: nat): (r: seq<Area>)
    requires i + 1 < |areas|
    ensures |r| == |areas| - 1
    ensures forall k {:trigger r[k]} :: 0 <= k < i ==> r[k] == areas[k]
    ensures r[i] == areas[i].(size := areas[i].size + QUEUE_SIZE + areas[i + 1].size)
    ensures forall k {:trigger r[k]} :: i < k < |r| ==> r[k] == areas[k + 1]
  {
    areas[..i] + [areas[i].(size := areas[i].size + QUEUE_SIZE + areas[i + 1].size)] + areas[i + 2..]
  }

  /** Joining undoes dividing. */
  lemma MergeSplit(areas: seq<Area>, i: nat, blksz: int)
    requires i < |areas|
    ensures MergeAt(SplitAt(areas, i, blksz), i) == areas
  {
    assert areas[i].(size := blksz).(size := areas[i].size) == areas[i];
  }

  /** All the layout says about one area on its own. */
  ghost predicate AreaIn(m: Memory, que: int, fque: int, areas: seq<Area>, mask: int, k: int)
    requires 0 <= k < |areas|
  {
    && AreaOk(areas, k, mask) && Outside(areas[k], que) && Outside(areas[k], fque)
    && forall x :: areas[k].addr <= x < areas[k].End() && x % 8 == 0 ==> x in m
  }

  lemma LayoutAt(m: Memory, que: int, fque: int, areas: seq<Area>, mask: int, k: int)
    requires Layout(m, que, fque, areas, mask) && 0 <= k < |areas|
    ensures AreaIn(m, que, fque, areas, mask, k)
  {
  }

  lemma LayoutFromParts(m: Memory, que: int, fque: int, areas: seq<Area>, mask: int, r: seq<Area>)
    requires Layout(m, que, fque, areas, mask)
    requires forall k :: 0 <= k < |r| ==> AreaIn(m, que, fque, r, mask, k)
    requires forall k, l :: 0 <= k < l < |r| ==> Disjoint(r[k], r[l])
    ensures Layout(m, que, fque, r, mask)
  {
    forall k | 0 <= k < |r|
      ensures AreaOk(r, k, mask) && Outside(r[k], que) && Outside(r[k], fque)
      ensures forall x :: r[k].addr <= x < r[k].End() && x % 8 == 0 ==> x in m
    {
      assert AreaIn(m, que, fque, r, mask, k);
    }
  }

  lemma SplitLayout(m: Memory, que: int, fque: int, areas: seq<Area>, mask: int, i: nat, blksz: int)
    requires Layout(m, que, fque, areas, mask) && i < |areas| && areas[i].Free()
    requires blksz % 8 == 0 && 16 <= blksz && areas[i].size - blksz >= 24
    ensures Layout(m, que, fque, SplitAt(areas, i, blksz), mask)
    ensures NewNode(m, que, areas, SplitAt(areas, i, blksz)[i + 1])
  {
    hide Layout, AreaIn, SplitAt, Disjoint;
    var r := SplitAt(areas, i, blksz);
    forall k | 0 <= k < |r| ensures AreaIn(m, que, fque, r, mask, k) {
      LayoutAt(m, que, fque, areas, mask, if k <= i then k else k - 1);
      SplitArea(m, que, fque, areas, mask, i, blksz, k);
    }
    forall k, l | 0 <= k < l < |r| ensures Disjoint(r[k], r[l]) {
      SplitDisjoint(m, que, fque, areas, mask, i, blksz, k, l);
    }
    LayoutFromParts(m, que, fque, areas, mask, r);
    SplitNode(m, que, fque, areas, mask, i, blksz);
  }

  lemma SplitArea(m: Memory, que: int, fque: int, areas: seq<Area>, mask: int, i: nat, blksz: int, k: int)
    requires i < |areas| && areas[i].Free() && 0 <= k <= |areas|
    requires blksz % 8 == 0 && 16 <= blksz && areas[i].size - blksz >= 24
    requires AreaIn(m, que, fque, areas, mask, if k <= i then k else k - 1)
    ensures AreaIn(m, que, fque, SplitAt(areas, i, blksz), mask, k)
  {
    hide SplitAt;
    var r, j := SplitAt(areas, i, blksz), if k <= i then k else k - 1;
    assert AreaOk(areas, j, mask);
    assert areas[j].addr <= r[k].addr && r[k].End() <= areas[j].End();
    assert k == i ==> r[k + 1] == r[i + 1];
    assert k + 1 < i ==> r[k + 1] == areas[k + 1];
  }

  lemma SplitDisjoint(m: Memory, que: int, fque: int, areas: seq<Area>, mask: int, i: nat, blksz: int, k: int, l: int)
    requires Layout(m, que, fque, areas, mask) && i < |areas|
    requires 16 <= blksz && areas[i].size - blksz >= 24 && 0 <= k < l <= |areas|
    ensures Disjoint(SplitAt(areas, i, blksz)[k], SplitAt(areas, i, blksz)[l])
  {
    hide Layout, SplitAt;
    var j, n := if k <= i then k else k - 1, if l <= i then l else l - 1;
    if j != n { TwoAreas(m, que, fque, areas, mask, j, n); }
  }

  lemma SplitNode(m: Memory, que: int, fque: int, areas: seq<Area>, mask: int, i: nat, blksz: int)
    requires Layout(m, que, fque, areas, mask) && i < |areas| && areas[i].Free()
    requires blksz % 8 == 0 && 16 <= blksz && areas[i].size - blksz >= 24
    ensures NewNode(m, que, areas, SplitAt(areas, i, blksz)[i + 1])
  {
    hide Layout, SplitAt;
    LayoutAt(m, que, fque, areas, mask, i);
    var e := SplitAt(areas, i, blksz)[i + 1];
    forall k | 0 <= k < |areas| ensures e.addr != areas[k].addr {
      LayoutAt(m, que, fque, areas, mask, k);
      if k != i { TwoAreas(m, que, fque, areas, mask, i, k); }
    }
  }

  lemma SplitTracks(m: Memory, que: int, fque: int, areas: seq<Area>, mask: int, nodes: set<int>, pending: set<int>,
                    i: nat, blksz: int)
    requires Layout(m, que, fque, areas, mask) && Tracks(areas, nodes, pending)
    requires i < |areas| && areas[i].Free() && areas[i].Block() in pending
    requires blksz % 8 == 0 && 16 <= blksz && areas[i].size - blksz >= 24
    ensures Tracks(SplitAt(areas, i, blksz), nodes, pending + {areas[i].addr + 2 * QUEUE_SIZE + blksz})
    ensures forall f :: f in nodes ==> SizeAgrees(areas, SplitAt(areas, i, blksz), f)
  {
    hide Layout, SplitAt;
    var r := SplitAt(areas, i, blksz);
    var b := areas[i].addr + 2 * QUEUE_SIZE + blksz;
    LayoutAt(m, que, fque, areas, mask, i);
    PendingHarmless(m, que, fque, areas, mask, nodes, pending, i, b - QUEUE_SIZE);
    PendingHarmless(m, que, fque, areas, mask, nodes, pending, i, b);
    forall f ensures FreeNode(r, f) <==> FreeNode(areas, f) || f == b {
      if FreeNode(r, f) {
        var k :| 0 <= k < |r| && r[k].Free() && r[k].Block() == f;
        if k != i + 1 { assert areas[if k <= i then k else k - 1].Free(); }
      }
      if FreeNode(areas, f) {
        var k :| 0 <= k < |areas| && areas[k].Free() && areas[k].Block() == f;
        assert r[if k <= i then k else k + 1].Free();
      }
      if f == b { assert r[i + 1].Free() && r[i + 1].Block() == b; }
    }
    forall f | f in nodes ensures SizeAgrees(areas, r, f) {
      assert FreeNode(areas, f) && f !in pending;
      var k :| 0 <= k < |areas| && areas[k].Free() && areas[k].Block() == f;
      assert k != i;
      assert r[if k <= i then k else k + 1] == areas[k];
    }
  }

  lemma MergeLayout(m: Memory, que: int, fque: int, areas: seq<Area>, mask: int, i: nat)
    requires Layout(m, que, fque, areas, mask) && i + 1 < |areas| && areas[i].Free() && areas[i + 1].Free()
    ensures Layout(m, que, fque, MergeAt(areas, i), mask)
  {
    hide Layout, AreaIn, MergeAt, Disjoint;
    var r := MergeAt(areas, i);
    forall k | 0 <= k < |r| ensures AreaIn(m, que, fque, r, mask, k) {
      LayoutAt(m, que, fque, areas, mask, if k <= i then k else k + 1);
      LayoutAt(m, que, fque, areas, mask, i + 1);
      MergedArea(m, que, fque, areas, mask, i, k);
    }
    forall k, l | 0 <= k < l < |r| ensures Disjoint(r[k], r[l]) {
      MergedDisjoint(m, que, fque, areas, mask, i, k, l);
    }
    LayoutFromParts(m, que, fque, areas, mask, r);
  }

  lemma MergedArea(m: Memory, que: int, fque: int, areas: seq<Area>, mask: int, i: nat, k: int)
    requires i + 1 < |areas| && areas[i].Free() && areas[i + 1].Free() && 0 <= k < |areas| - 1
    requires AreaIn(m, que, fque, areas, mask, if k <= i then k else k + 1) && AreaIn(m, que, fque, areas, mask, i + 1)
    ensures AreaIn(m, que, fque, MergeAt(areas, i), mask, k)
  {
    hide MergeAt;
    var r := MergeAt(areas, i);
    assert k + 1 < |r| ==> r[k + 1].addr == areas[if k + 1 <= i then k + 1 else k + 2].addr;
    if k == i {
      forall x | r[k].addr <= x < r[k].End() && x % 8 == 0 ensures x in m {
        assert areas[i].addr <= x < areas[i].End() || areas[i + 1].addr <= x < areas[i + 1].End();
      }
    }
  }

  lemma MergedDisjoint(m: Memory, que: int, fque: int, areas: seq<Area>, mask: int, i: nat, k: int, l: int)
    requires Layout(m, que, fque, areas, mask) && i + 1 < |areas| && areas[i].Free() && areas[i + 1].Free()
    requires 0 <= k < l < |areas| - 1
    ensures Disjoint(MergeAt(areas, i)[k], MergeAt(areas, i)[l])
  {
    hide Layout, MergeAt;
    var j, n := if k <= i then k else k + 1, if l <= i then l else l + 1;
    LayoutAt(m, que, fque, areas, mask, i);
    LayoutAt(m, que, fque, areas, mask, i + 1);
    LayoutAt(m, que, fque, areas, mask, j);
    LayoutAt(m, que, fque, areas, mask, n);
    TwoAreas(m, que, fque, areas, mask, j, n);
    if k == i { TwoAreas(m, que, fque, areas, mask, i + 1, n); }
    if l == i { TwoAreas(m, que, fque, areas, mask, j, i + 1); }
  }

  lemma MergeTracks(m: Memory, que: int, fque: int, areas: seq<Area>, mask: int, nodes: set<int>, pending: set<int>,
                    i: nat)
    requires Layout(m, que, fque, areas, mask) && Tracks(areas, nodes, pending) && i + 1 < |areas|
    requires areas[i].Free() && areas[i + 1].Free() && areas[i].Block() in pending && areas[i + 1].Block() in pending
    ensures Tracks(MergeAt(areas, i), nodes, pending - {areas[i + 1].Block()})
    ensures forall f :: f in nodes ==> SizeAgrees(areas, MergeAt(areas, i), f)
  {
    hide Layout, MergeAt;
    var r := MergeAt(areas, i);
    var b := areas[i + 1].Block();
    forall f ensures FreeNode(r, f) <==> FreeNode(areas, f) && f != b {
      MergedFreeNode(m, que, fque, areas, mask, i, f);
    }
    forall f | f in nodes ensures SizeAgrees(areas, r, f) {
      assert FreeNode(areas, f) && f !in pending;
      var k :| 0 <= k < |areas| && areas[k].Free() && areas[k].Block() == f;
      assert k != i && k != i + 1;
      assert r[if k <= i then k else k - 1] == areas[k];
    }
  }

  /** Joining free areas changes nothing for the blocks in use. */
  lemma MergeLive(areas: seq<Area>, i: nat)
    requires i + 1 < |areas| && areas[i].Free() && areas[i + 1].Free()
    ensures NoMoreLive(areas, MergeAt(areas, i)) && NoMoreLive(MergeAt(areas, i), areas)
  {
    var r := MergeAt(areas, i);
    forall x ensures LiveAt(r, x) <==> LiveAt(areas, x) {
      if LiveAt(r, x) {
        var k :| 0 <= k < |r| && r[k].Live() && r[k].Block() <= x < r[k].End();
        assert areas[if k <= i then k else k + 1].Live();
      }
      if LiveAt(areas, x) {
        var k :| 0 <= k < |areas| && areas[k].Live() && areas[k].Block() <= x < areas[k].End();
        assert r[if k <= i then k else k - 1].Live();
      }
    }
  }

  lemma SplitLive(areas: seq<Area>, i: nat, blksz: int)
    requires i < |areas| && areas[i].Free()
    ensures NoMoreLive(areas, SplitAt(areas, i, blksz)) && NoMoreLive(SplitAt(areas, i, blksz), areas)
  {
    var r := SplitAt(areas, i, blksz);
    forall x ensures LiveAt(r, x) <==> LiveAt(areas, x) {
      if LiveAt(r, x) {
        var k :| 0 <= k < |r| && r[k].Live() && r[k].Block() <= x < r[k].End();
        assert areas[if k <= i then k else k - 1].Live();
      }
      if LiveAt(areas, x) {
        var k :| 0 <= k < |areas| && areas[k].Live() && areas[k].Block() <= x < areas[k].End();
        assert r[if k <= i then k else k + 1].Live();
      }
    }
  }

  lemma MergedFreeNode(m: Memory, que: int, fque: int, areas: seq<Area>, mask: int, i: nat, f: int)
    requires Layout(m, que, fque, areas, mask) && i + 1 < |areas| && areas[i].Free() && areas[i + 1].Free()
    ensures FreeNode(MergeAt(areas, i), f) <==> FreeNode(areas, f) && f != areas[i + 1].Block()
  {
    hide Layout, MergeAt;
    var r, b := MergeAt(areas, i), areas[i + 1].Block();
    if FreeNode(r, f) {
      var k :| 0 <= k < |r| && r[k].Free() && r[k].Block() == f;
      var j := if k <= i then k else k + 1;
      assert areas[j].Free() && areas[j].Block() == f;
      TwoAreas(m, que, fque, areas, mask, j, i + 1);
    }
    if FreeNode(areas, f) && f != b {
      var k :| 0 <= k < |areas| && areas[k].Free() && areas[k].Block() == f;
      assert r[if k <= i then k else k - 1].Free();
    }
  }

  // ---- free areas side by side ----

  ghost predicate Coalesced(areas: seq<Area>) {
    forall i {:trigger areas[i].Free()} :: 0 <= i < |areas| - 1 ==> !(areas[i].Free() && areas[i + 1].Free())
  }

  ghost predicate NoFit(areas: seq<Area>, size: int) {
    forall i :: 0 <= i < |areas| && areas[i].Free() ==> areas[i].size < size
  }

  /** A free area that is big enough, and no free area that is big enough is smaller. */
  ghost predicate BestArea(areas: seq<Area>, size: int, i: int) {
    && 0 <= i < |areas| && areas[i].Free() && areas[i].size >= size
    && forall j :: 0 <= j < |areas| && areas[j].Free() && areas[j].size >= size ==> areas[j].size >= areas[i].size
  }

  lemma Fits(areas: seq<Area>, size: int, i: int)
    requires 0 <= i < |areas| && areas[i].Free() && areas[i].size >= size
    ensures !NoFit(areas, size)
  {
  }

  /** A block handed out: in use, and at least this big. */
  ghost predicate Holds(areas: seq<Area>, blk: int, size: int) {
    exists i :: 0 <= i < |areas| && areas[i].Live() && areas[i].Block() == blk && areas[i].size >= size
  }

  /** Just this block is handed out, with so many bytes, and every other one stays as it was. */
  ghost predicate HandsOut(areas: seq<Area>, r: seq<Area>, blk: int, size: int) {
    forall x, n {:trigger Holds(r, x, n)} {:trigger Holds(areas, x, n)} ::
      Holds(r, x, n) <==> Holds(areas, x, n) || (x == blk && n <= size)
  }

  /** Just this block comes back. */
  ghost predicate TakesBack(areas: seq<Area>, r: seq<Area>, blk: int) {
    forall x, n {:trigger Holds(r, x, n)} {:trigger Holds(areas, x, n)} ::
      Holds(r, x, n) <==> Holds(areas, x, n) && x != blk
  }

  ghost predicate HoldsSame(areas: seq<Area>, r: seq<Area>) {
    forall x, n {:trigger Holds(r, x, n)} {:trigger Holds(areas, x, n)} :: Holds(r, x, n) <==> Holds(areas, x, n)
  }

  /** Area i of r is the front of a, in use and less than a fragment larger than asked for;
      what is behind it in a is a free area of its own. */
  ghost predicate CutFrom(a: Area, r: seq<Area>, i: nat, blksz: int) {
    && i < |r| && r[i].Live() && r[i].addr == a.addr
    && blksz <= r[i].size < blksz + MIN_FRAGMENT + QUEUE_SIZE
    && (r[i].End() == a.End()
        || (i + 1 < |r| && r[i + 1].Free() && r[i + 1].addr == r[i].End() && r[i + 1].End() == a.End()))
  }

  /** No other area has the address of area i. */
  ghost predicate Once(areas: seq<Area>, i: int)
    requires 0 <= i < |areas|
  {
    forall k :: 0 <= k < |areas| && k != i ==> areas[k].addr != areas[i].addr
  }

  lemma NodesOnce(m: Memory, que: int, fque: int, areas: seq<Area>, mask: int, i: nat)
    requires Layout(m, que, fque, areas, mask) && i < |areas|
    ensures Once(areas, i)
  {
    forall k | 0 <= k < |areas| && k != i ensures areas[k].addr != areas[i].addr {
      TwoAreas(m, que, fque, areas, mask, i, k);
    }
  }

  /** The block of a free area is not handed out. */
  lemma FreeNotHeld(m: Memory, que: int, fque: int, areas: seq<Area>, mask: int, i: nat)
    requires Layout(m, que, fque, areas, mask) && i < |areas| && areas[i].Free()
    ensures forall n :: !Holds(areas, areas[i].Block(), n)
  {
    NodesOnce(m, que, fque, areas, mask, i);
  }

  lemma SameLiveHolds(areas: seq<Area>, r: seq<Area>)
    requires forall k :: 0 <= k < |areas| && areas[k].Live() ==> areas[k] in r
    requires forall k :: 0 <= k < |r| && r[k].Live() ==> r[k] in areas
    ensures HoldsSame(areas, r)
  {
    forall x, n ensures Holds(r, x, n) <==> Holds(areas, x, n) {
      if Holds(areas, x, n) {
        var k :| 0 <= k < |areas| && areas[k].Live() && areas[k].Block() == x && areas[k].size >= n;
        var j :| 0 <= j < |r| && r[j] == areas[k];
      }
      if Holds(r, x, n) {
        var k :| 0 <= k < |r| && r[k].Live() && r[k].Block() == x && r[k].size >= n;
        var j :| 0 <= j < |areas| && areas[j] == r[k];
      }
    }
  }

  lemma SplitHolds(areas: seq<Area>, i: nat, blksz: int)
    requires i < |areas| && areas[i].Free()
    ensures HoldsSame(areas, SplitAt(areas, i, blksz))
  {
    var r := SplitAt(areas, i, blksz);
    forall k | 0 <= k < |areas| && areas[k].Live() ensures areas[k] in r {
      assert r[if k <= i then k else k + 1] == areas[k];
    }
    SameLiveHolds(areas, r);
  }

  lemma MergeHolds(areas: seq<Area>, i: nat)
    requires i + 1 < |areas| && areas[i].Free() && areas[i + 1].Free()
    ensures HoldsSame(areas, MergeAt(areas, i))
  {
    var r := MergeAt(areas, i);
    forall k | 0 <= k < |areas| && areas[k].Live() ensures areas[k] in r {
      assert r[if k <= i then k else k - 1] == areas[k];
    }
    SameLiveHolds(areas, r);
  }

  /** A free area is marked as in use. */
  lemma UseHolds(areas: seq<Area>, i: nat, fl: int)
    requires i < |areas| && areas[i].Free() && fl % 2 == 1
    ensures HandsOut(areas, areas[i := areas[i].(flags := fl)], areas[i].Block(), areas[i].size)
  {
    var r := areas[i := areas[i].(flags := fl)];
    forall x, n ensures Holds(r, x, n) <==> Holds(areas, x, n) || (x == areas[i].Block() && n <= areas[i].size) {
      if Holds(areas, x, n) {
        var k :| 0 <= k < |areas| && areas[k].Live() && areas[k].Block() == x && areas[k].size >= n;
        assert r[k].Live();
      }
      if x == areas[i].Block() && n <= areas[i].size { assert r[i].Live() && r[i].Block() == x; }
      if Holds(r, x, n) {
        var k :| 0 <= k < |r| && r[k].Live() && r[k].Block() == x && r[k].size >= n;
        assert k != i ==> areas[k].Live();
      }
    }
  }

  /** An area in use is marked as free. */
  lemma UnuseHolds(areas: seq<Area>, i: nat, fl: int)
    requires i < |areas| && Once(areas, i) && fl % 2 == 0
    ensures TakesBack(areas, areas[i := areas[i].(flags := fl)], areas[i].Block())
  {
    var r := areas[i := areas[i].(flags := fl)];
    forall x, n ensures Holds(r, x, n) <==> Holds(areas, x, n) && x != areas[i].Block() {
      if Holds(areas, x, n) && x != areas[i].Block() {
        var k :| 0 <= k < |areas| && areas[k].Live() && areas[k].Block() == x && areas[k].size >= n;
        assert k != i && r[k].Live();
      }
      if Holds(r, x, n) {
        var k :| 0 <= k < |r| && r[k].Live() && r[k].Block() == x && r[k].size >= n;
        assert k != i && areas[k].Live();
      }
    }
  }

  lemma JoinHolds(areas: seq<Area>, i: nat)
    requires i < |areas| && areas[i].Free()
    ensures HoldsSame(areas, JoinNext(areas, i)) && HoldsSame(areas, JoinPrev(areas, i))
    ensures i < |JoinNext(areas, i)| && JoinNext(areas, i)[i].Free()
  {
    if i + 1 < |areas| && areas[i + 1].Free() { MergeHolds(areas, i); }
    if i > 0 && areas[i - 1].Free() { MergeHolds(areas, i - 1); }
  }

  function JoinNext(areas: seq<Area>, i: nat): seq<Area>
    requires i < |areas|
  {
    if i + 1 < |areas| && areas[i + 1].Free() then MergeAt(areas, i) else areas
  }

  function JoinPrev(areas: seq<Area>, i: nat): seq<Area>
    requires i < |areas|
  {
    if i > 0 && areas[i - 1].Free() then MergeAt(areas, i - 1) else areas
  }

  /** Coalesced, but for area i and its neighbours. */
  ghost predicate CoalescedBut(areas: seq<Area>, i: int, next: bool) {
    forall k {:trigger areas[k].Free()} :: 0 <= k < |areas| - 1 && k != i - 1 && (k == i ==> next)
                                           ==> !(areas[k].Free() && areas[k + 1].Free())
  }

  // ---- the index sees the areas ----

  lemma IndexedSize(m: Memory, que: int, fque: int, areas: seq<Area>, hflags: int, nodes: set<int>, pending: set<int>,
                    index: seq<Bucket>, mask: int, i: int) returns (k: int)
    requires Core(m, que, fque, areas, mask, hflags, nodes, pending) && Index(m, fque, index, nodes)
    requires 0 <= i < |areas| && areas[i].Free() && areas[i].Block() in nodes
    ensures 0 <= k < |index| && Has(index[k], areas[i].Block()) && index[k].size == areas[i].size
  {
    hide Layout, AreaRing, Ring;
    var f := areas[i].Block();
    AreaNext(m, que, fque, areas, mask, hflags, i);
    k := FindBucket(m, fque, index, nodes, f);
    assert SizeIs(m, f, index[k].size);
  }

  lemma HeadArea(m: Memory, que: int, fque: int, areas: seq<Area>, hflags: int, nodes: set<int>, pending: set<int>,
                 index: seq<Bucket>, mask: int, k: int) returns (i: int)
    requires Core(m, que, fque, areas, mask, hflags, nodes, pending) && Index(m, fque, index, nodes)
    requires 0 <= k < |index|
    ensures 0 <= i < |areas| && areas[i].Free() && areas[i].Block() == index[k].head && areas[i].size == index[k].size
    ensures areas[i].Block() in nodes
  {
    hide Layout, AreaRing, Ring;
    Member(index, k, index[k].head);
    assert FreeNode(areas, index[k].head);
    i :| 0 <= i < |areas| && areas[i].Free() && areas[i].Block() == index[k].head;
    AreaNext(m, que, fque, areas, mask, hflags, i);
    HeadSize(m, index[k]);
  }

  /** Searching the index by size is searching the areas. */
  lemma FitIsBest(m: Memory, que: int, fque: int, areas: seq<Area>, hflags: int, nodes: set<int>,
                  index: seq<Bucket>, mask: int, size: int, k: int) returns (i: int)
    requires Core(m, que, fque, areas, mask, hflags, nodes, {}) && Index(m, fque, index, nodes)
    requires BestFit(index, size, k)
    ensures k == |index| ==> NoFit(areas, size)
    ensures k < |index| ==> BestArea(areas, size, i) && areas[i].Block() == index[k].head && index[k].head in nodes
  {
    hide Layout, AreaRing, Ring;
    i := 0;
    if k < |index| { i := HeadArea(m, que, fque, areas, hflags, nodes, {}, index, mask, k); }
    forall j | 0 <= j < |areas| && areas[j].Free()
      ensures areas[j].size >= size ==> k < |index| && areas[j].size >= index[k].size
    {
      assert FreeNode(areas, areas[j].Block());
      var l := IndexedSize(m, que, fque, areas, hflags, nodes, {}, index, mask, j);
      assert l < k ==> index[l].size < size;
      assert k < l ==> index[k].size < index[l].size;
    }
  }

  /** The two states that init_mempool goes through. */
  lemma InitLayouts(m: Memory, que: int, fque: int, all: Area, end: Area)
    requires que % 8 == 0 && fque % 8 == 0 && que != fque && que in m && fque in m
    requires all.addr % 8 == 0 && all.size % 8 == 0 && MIN_FRAGMENT <= all.size && !all.term && all.flags == 0
    requires end == Area(all.End(), 0, true, 0)
    requires forall x :: all.addr <= x < end.End() && x % 8 == 0 ==> x in m && x != que && x != fque
    ensures Layout(m, que, fque, [end], 2) && Layout(m, que, fque, [all, end], 2)
    ensures Tracks([end], {}, {}) && Tracks([all, end], {}, {all.Block()})
    ensures NewNode(m, que, [], end) && NewNode(m, que, [end], all)
    ensures !LiveAt([], end.addr) && !LiveAt([end], all.addr)
    ensures Harmless(fque, {}, end.addr) && Harmless(fque, {}, all.addr)
  {
    assert Outside(all, que) by { InOrOut(all, que); }
    assert Outside(all, fque) by { InOrOut(all, fque); }
    InOrOut(end, que);
    InOrOut(end, fque);
    assert FreeNode([all, end], all.Block()) by { assert [all, end][0].Free(); }
    forall k | 0 <= k < 2 ensures AreaIn(m, que, fque, [all, end], 2, k) {
      assert [all, end][k] == if k == 0 then all else end;
    }
    LayoutEmpty(m, que, fque);
    LayoutFromParts(m, que, fque, [], 2, [all, end]);
    LayoutFromParts(m, que, fque, [], 2, [end]);
  }

  lemma LayoutEmpty(m: Memory, que: int, fque: int)
    requires que % 8 == 0 && fque % 8 == 0 && que != fque && que in m && fque in m
    ensures Layout(m, que, fque, [], 2)
  {
  }

  /** Aligned nodes either overlap an aligned area entirely or not at all. */
  lemma InOrOut(a: Area, x: int)
    requires a.addr % 8 == 0 && a.size % 8 == 0 && a.size >= 0 && x % 8 == 0
    ensures Outside(a, x) || a.addr <= x < a.End()
  {
  }
}
