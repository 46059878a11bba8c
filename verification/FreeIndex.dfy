/** The two-level index of free areas kept by both allocators
    (kernel/tkernel/src/mempool.c and kernel/sysmgr/src/imalloc.c).
    The outer ring links one area per size, sizes ascending; the inner ring of
    each of those areas links its siblings of the same size. A free area at
    address a has its outer node at a + 8 and its inner node at a + 16. */
module FreeIndex {
  import opened Queue

  /** The free areas of one size, each named by its outer node. */
  datatype Bucket = Bucket(size: int, head: int, sibs: seq<int>)

  ghost predicate Has(b: Bucket, f: int) {
    f == b.head || f in b.sibs
  }

  function InnerRing(b: Bucket): seq<int> {
    [b.head + QUEUE_SIZE] + b.sibs
  }

  function Heads(index: seq<Bucket>): (hs: seq<int>)
    ensures |hs| == |index| && forall k :: 0 <= k < |index| ==> hs[k] == index[k].head
  {
    seq(|index|, k requires 0 <= k < |index| => index[k].head)
  }

  /** The payload size of the area whose outer node is fq. */
  function FreeSize(m: Memory, fq: int): int
    requires fq - QUEUE_SIZE in m
  {
    m[fq - QUEUE_SIZE].next - fq
  }

  predicate SizeIs(m: Memory, fq: int, size: int) {
    fq - QUEUE_SIZE in m && FreeSize(m, fq) == size
  }

  predicate Apart(f: int, g: int) {
    f == g || f + 3 * QUEUE_SIZE <= g || g + 3 * QUEUE_SIZE <= f
  }

  /** The three nodes at the start of each free area exist and overlap nothing. */
  ghost predicate Spaced(m: Memory, que: int, nodes: set<int>) {
    && que in m
    && (forall f :: f in nodes ==> f - QUEUE_SIZE in m && f in m && f + QUEUE_SIZE in m)
    && (forall f :: f in nodes ==> que != f - QUEUE_SIZE && que != f && que != f + QUEUE_SIZE)
    && (forall f, g :: f in nodes && g in nodes ==> Apart(f, g))
  }

  ghost predicate BucketOk(m: Memory, b: Bucket) {
    && b.head !in b.sibs
    && Ring(m, InnerRing(b))
    && (forall f {:trigger f in b.sibs} :: f in b.sibs ==>
          f + QUEUE_SIZE in m && m[f + QUEUE_SIZE] == Node(f + QUEUE_SIZE, f + QUEUE_SIZE))
    && (forall f :: Has(b, f) ==> SizeIs(m, f, b.size))
  }

  ghost predicate Ascending(index: seq<Bucket>) {
    forall k, l :: 0 <= k < l < |index| ==> index[k].size < index[l].size
  }

  ghost predicate InIndex(index: seq<Bucket>, f: int) {
    exists k :: 0 <= k < |index| && Has(index[k], f)
  }

  /** index is what the rings from header que hold, and it holds the areas in nodes. */
  ghost predicate Index(m: Memory, que: int, index: seq<Bucket>, nodes: set<int>) {
    && Spaced(m, que, nodes)
    && (forall f {:trigger InIndex(index, f)} :: f in nodes <==> InIndex(index, f))
    && Ring(m, [que] + Heads(index))
    && (forall k :: 0 <= k < |index| ==> BucketOk(m, index[k]))
    && Ascending(index)
  }

  /** k is where an area of this size belongs: the first size not below it. */
  ghost predicate BestFit(index: seq<Bucket>, size: int, k: int) {
    && 0 <= k <= |index|
    && (forall i :: 0 <= i < k ==> index[i].size < size)
    && (forall i :: k <= i < |index| ==> index[i].size >= size)
  }

  /** m2 differs from m only on the index nodes of these areas and the header. */
  ghost predicate OnlyIndexNodes(m: Memory, m2: Memory, que: int, nodes: set<int>) {
    && m2.Keys == m.Keys
    && forall x {:trigger m2[x]} :: x in m && x != que && x !in nodes && x - QUEUE_SIZE !in nodes ==> m2[x] == m[x]
  }

  // ---- facts about one index ----

  lemma IndexParts(m: Memory, que: int, index: seq<Bucket>, nodes: set<int>)
    requires Index(m, que, index, nodes)
    ensures Spaced(m, que, nodes) && Ascending(index) && Ring(m, [que] + Heads(index))
    ensures forall k :: 0 <= k < |index| ==> BucketOk(m, index[k])
    ensures forall f {:trigger InIndex(index, f)} :: f in nodes <==> InIndex(index, f)
  {
  }

  lemma SpacedFrame(m: Memory, m2: Memory, que: int, nodes: set<int>, nodes2: set<int>)
    requires Spaced(m, que, nodes) && m2.Keys == m.Keys && nodes2 <= nodes
    ensures Spaced(m2, que, nodes2)
  {
  }

  lemma Member(index: seq<Bucket>, k: int, f: int)
    requires 0 <= k < |index| && Has(index[k], f)
    ensures InIndex(index, f)
  {
  }

  /** An area is in one bucket only, because buckets differ in size. */
  lemma BucketsDisjoint(m: Memory, que: int, index: seq<Bucket>, nodes: set<int>, k: int, l: int, f: int)
    requires Index(m, que, index, nodes) && 0 <= k < |index| && 0 <= l < |index|
    requires Has(index[k], f) && Has(index[l], f)
    ensures k == l
  {
    assert BucketOk(m, index[k]) && BucketOk(m, index[l]);
    assert SizeIs(m, f, index[k].size) && SizeIs(m, f, index[l].size);
  }

  lemma OnlyBucket(m: Memory, que: int, index: seq<Bucket>, nodes: set<int>, k: int)
    requires Index(m, que, index, nodes) && 0 <= k < |index|
    ensures forall l, f :: 0 <= l < |index| && l != k && Has(index[l], f) ==> !Has(index[k], f)
  {
    forall l, f | 0 <= l < |index| && l != k && Has(index[l], f) ensures !Has(index[k], f) {
      if Has(index[k], f) { BucketsDisjoint(m, que, index, nodes, k, l, f); }
    }
  }

  lemma BucketFrame(m: Memory, m2: Memory, b: Bucket)
    requires BucketOk(m, b) && m2.Keys == m.Keys
    requires forall f :: Has(b, f) ==> SizeIs(m2, f, b.size)
    requires forall f :: Has(b, f) ==> f + QUEUE_SIZE in m && m2[f + QUEUE_SIZE] == m[f + QUEUE_SIZE]
    requires forall f :: f in b.sibs ==> f in m && m2[f] == m[f]
    ensures BucketOk(m2, b)
  {
    assert Has(b, b.head);
    assert forall f :: f in b.sibs ==> Has(b, f);
    RingFrame(m, m2, InnerRing(b));
  }

  /** Only the links of the index nodes and the sizes matter. */
  lemma IndexFrame(m: Memory, m2: Memory, que: int, index: seq<Bucket>, nodes: set<int>)
    requires Index(m, que, index, nodes) && m2.Keys == m.Keys
    requires m2[que] == m[que]
    requires forall f :: f in nodes ==> m2[f] == m[f] && m2[f + QUEUE_SIZE] == m[f + QUEUE_SIZE]
    requires forall f :: f in nodes ==> m2[f - QUEUE_SIZE].next == m[f - QUEUE_SIZE].next
    ensures Index(m2, que, index, nodes)
  {
    forall x | x in [que] + Heads(index) ensures x in m2 && m2[x] == m[x] {
      if x != que {
        var k :| 0 <= k < |index| && x == Heads(index)[k];
        Member(index, k, x);
      }
    }
    RingFrame(m, m2, [que] + Heads(index));
    forall k | 0 <= k < |index| ensures BucketOk(m2, index[k]) {
      forall f | Has(index[k], f) ensures f in nodes && SizeIs(m2, f, index[k].size) {
        Member(index, k, f);
        assert SizeIs(m, f, index[k].size);
      }
      assert forall f :: f in index[k].sibs ==> Has(index[k], f);
      BucketFrame(m, m2, index[k]);
    }
  }

  lemma BestFitUnique(index: seq<Bucket>, size: int, k: int, l: int)
    requires BestFit(index, size, k) && BestFit(index, size, l)
    ensures k == l
  {
    assert k < |index| ==> index[k].size >= size;
    assert l < |index| ==> index[l].size >= size;
  }

  // ---- what one insertion or removal leaves alone ----

  /** Node x belongs to bucket b, to the header, to a head, or to the area extra. */
  ghost predicate MayTouch(que: int, index: seq<Bucket>, b: Bucket, extra: int, x: int) {
    || x == que || x == extra || x == extra + QUEUE_SIZE
    || x in Heads(index) || x in InnerRing(b)
  }

  /** The bucket at k, or for k past the end a new one holding extra. */
  function BucketAt(index: seq<Bucket>, k: nat, extra: int): Bucket {
    if k < |index| then index[k] else Bucket(0, extra, [])
  }

  /** extra is an area outside the index, or already a member of bucket k. */
  ghost predicate ExtraOk(m: Memory, que: int, index: seq<Bucket>, nodes: set<int>, k: nat, extra: int) {
    && Spaced(m, que, nodes + {extra})
    && (extra in nodes ==> k < |index| && Has(index[k], extra))
  }

  lemma UntouchedNode(m: Memory, que: int, index: seq<Bucket>, nodes: set<int>, k: nat, l: nat, extra: int, f: int)
    requires Index(m, que, index, nodes) && 0 <= l < |index| && k <= |index| && k != l
    requires ExtraOk(m, que, index, nodes, k, extra)
    requires Has(index[l], f)
    ensures var b := BucketAt(index, k, extra);
            && !MayTouch(que, index, b, extra, f - QUEUE_SIZE)
            && !MayTouch(que, index, b, extra, f + QUEUE_SIZE)
            && (f in index[l].sibs ==> !MayTouch(que, index, b, extra, f))
  {
    hide Ring;
    var b := BucketAt(index, k, extra);
    Member(index, l, f);
    assert f in nodes && f in nodes + {extra};
    forall g | Has(b, g) ensures g != f && Apart(f, g) && g in nodes + {extra} {
      if k < |index| { Member(index, k, g); }
      if g == f && k < |index| { BucketsDisjoint(m, que, index, nodes, k, l, f); }
    }
    forall i | 0 <= i < |index|
      ensures Apart(f, index[i].head)
      ensures f in index[l].sibs ==> f != index[i].head
    {
      Member(index, i, index[i].head);
      if f == index[i].head {
        BucketsDisjoint(m, que, index, nodes, i, l, f);
        assert BucketOk(m, index[l]);
      }
    }
    if f == extra && k < |index| { BucketsDisjoint(m, que, index, nodes, k, l, f); }
    assert Apart(f, extra);
    InnerMembers(b);
    assert forall x :: x in b.sibs ==> Has(b, x);
  }

  lemma OtherBucket(m: Memory, m2: Memory, que: int, index: seq<Bucket>, nodes: set<int>, k: nat, l: nat, extra: int)
    requires Index(m, que, index, nodes) && 0 <= l < |index| && k <= |index| && k != l
    requires ExtraOk(m, que, index, nodes, k, extra) && m2.Keys == m.Keys
    requires forall x {:trigger m2[x]} ::
               x in m && !MayTouch(que, index, BucketAt(index, k, extra), extra, x) ==> m2[x] == m[x]
    ensures BucketOk(m2, index[l])
  {
    hide Ring, MayTouch, ExtraOk;
    var b := BucketAt(index, k, extra);
    forall f | Has(index[l], f)
      ensures SizeIs(m2, f, index[l].size)
      ensures f + QUEUE_SIZE in m && m2[f + QUEUE_SIZE] == m[f + QUEUE_SIZE]
      ensures f in index[l].sibs ==> f in m && m2[f] == m[f]
    {
      Member(index, l, f);
      UntouchedNode(m, que, index, nodes, k, l, extra, f);
      assert BucketOk(m, index[l]) && SizeIs(m, f, index[l].size);
    }
    BucketFrame(m, m2, index[l]);
  }

  /** The outer ring runs through the header and areas of the index. */
  lemma OuterNodes(index: seq<Bucket>, que: int, nodes: set<int>)
    requires forall f {:trigger InIndex(index, f)} :: InIndex(index, f) ==> f in nodes
    ensures forall x :: x in [que] + Heads(index) ==> x == que || x in nodes
  {
    forall x | x in Heads(index) ensures x in nodes {
      var k :| 0 <= k < |index| && Heads(index)[k] == x;
      Member(index, k, x);
    }
  }

  lemma HeadsInserted(index: seq<Bucket>, que: int, k: nat, b: Bucket)
    requires k <= |index|
    ensures InsertAt([que] + Heads(index), k + 1, b.head) == [que] + Heads(InsertAt(index, k, b))
  {
  }

  lemma HeadsRemoved(index: seq<Bucket>, que: int, k: nat)
    requires k < |index|
    ensures RemoveAt([que] + Heads(index), k + 1) == [que] + Heads(RemoveAt(index, k))
  {
  }

  lemma InsertedMembers(index: seq<Bucket>, k: nat, b: Bucket, f: int)
    requires k <= |index|
    ensures InIndex(InsertAt(index, k, b), f) <==> InIndex(index, f) || Has(b, f)
  {
    var index2 := InsertAt(index, k, b);
    if InIndex(index, f) {
      var l :| 0 <= l < |index| && Has(index[l], f);
      Member(index2, if l < k then l else l + 1, f);
    }
    if Has(b, f) { Member(index2, k, f); }
    if InIndex(index2, f) {
      var l :| 0 <= l < |index2| && Has(index2[l], f);
      if l != k { Member(index, if l < k then l else l - 1, f); }
    }
  }

  lemma ReplacedMembers(index: seq<Bucket>, k: nat, b: Bucket, f: int)
    requires k < |index|
    ensures InIndex(index[k := b], f) <==> Has(b, f) || exists l :: 0 <= l < |index| && l != k && Has(index[l], f)
  {
    var index2 := index[k := b];
    if exists l :: 0 <= l < |index| && l != k && Has(index[l], f) {
      var l :| 0 <= l < |index| && l != k && Has(index[l], f);
      Member(index2, l, f);
    }
    if Has(b, f) { Member(index2, k, f); }
    if InIndex(index2, f) {
      var l :| 0 <= l < |index2| && Has(index2[l], f);
      assert l != k ==> Has(index[l], f);
    }
  }

  // ---- appendFreeArea ----

  /** m2 is m after QueInsert(aq + 1, at); QueInit(aq + 2), seen from the ring of at. */
  ghost predicate Joined(m: Memory, m2: Memory, ring: seq<int>, ring2: seq<int>, fq: int) {
    && Ring(m2, ring2)
    && m2.Keys == m.Keys
    && fq + QUEUE_SIZE in m2 && m2[fq + QUEUE_SIZE] == Node(fq + QUEUE_SIZE, fq + QUEUE_SIZE)
    && forall x {:trigger m2[x]} :: x in m && x !in ring && x != fq && x != fq + QUEUE_SIZE ==> m2[x] == m[x]
  }

  lemma OutsideOuter(m: Memory, que: int, index: seq<Bucket>, nodes: set<int>, fq: int)
    requires Spaced(m, que, nodes + {fq}) && fq !in nodes
    requires forall f {:trigger InIndex(index, f)} :: InIndex(index, f) ==> f in nodes
    ensures var outer := [que] + Heads(index);
            fq !in outer && fq + QUEUE_SIZE !in outer && fq - QUEUE_SIZE !in outer
  {
    OuterNodes(index, que, nodes);
    assert fq in nodes + {fq};
    assert forall x :: x in nodes ==> x in nodes + {fq} && Apart(fq, x);
  }

  /** No area of this size is indexed: the area becomes the head of a new bucket. */
  lemma JoinedOuter(m: Memory, m2: Memory, que: int, index: seq<Bucket>, nodes: set<int>, k: nat, fq: int, size: int)
    requires Index(m, que, index, nodes) && fq !in nodes && Spaced(m, que, nodes + {fq})
    requires SizeIs(m, fq, size) && BestFit(index, size, k) && (k < |index| ==> index[k].size != size)
    requires Joined(m, m2, [que] + Heads(index), [que] + Heads(InsertAt(index, k, Bucket(size, fq, []))), fq)
    ensures Index(m2, que, InsertAt(index, k, Bucket(size, fq, [])), nodes + {fq})
    ensures OnlyIndexNodes(m, m2, que, nodes + {fq})
  {
    assert OnlyIndexNodes(m, m2, que, nodes + {fq}) by { OuterNodes(index, que, nodes); }
    OutsideOuter(m, que, index, nodes, fq);
    assert SizeIs(m2, fq, size);
    NewBucket(m2, fq, size);
    forall l | 0 <= l < |index| ensures BucketOk(m2, index[l]) {
      OtherBucket(m, m2, que, index, nodes, |index|, l, fq);
    }
    IndexGrown(m2, que, index, nodes, k, Bucket(size, fq, []));
  }

  lemma NewBucket(m: Memory, fq: int, size: int)
    requires SizeIs(m, fq, size) && fq + QUEUE_SIZE in m
    requires m[fq + QUEUE_SIZE] == Node(fq + QUEUE_SIZE, fq + QUEUE_SIZE)
    ensures BucketOk(m, Bucket(size, fq, []))
  {
    assert InnerRing(Bucket(size, fq, [])) == [fq + QUEUE_SIZE];
  }

  /** Putting the parts together: one bucket more. */
  lemma IndexGrown(m: Memory, que: int, index: seq<Bucket>, nodes: set<int>, k: nat, b: Bucket)
    requires k <= |index| && BucketOk(m, b) && b.sibs == []
    requires forall l :: 0 <= l < |index| ==> BucketOk(m, index[l])
    requires Ring(m, [que] + Heads(InsertAt(index, k, b)))
    requires Ascending(index) && BestFit(index, b.size, k) && (k < |index| ==> index[k].size != b.size)
    requires Spaced(m, que, nodes + {b.head})
    requires forall f {:trigger InIndex(index, f)} :: f in nodes <==> InIndex(index, f)
    ensures Index(m, que, InsertAt(index, k, b), nodes + {b.head})
  {
    hide Ring, BucketOk, Spaced, InIndex;
    var index2 := InsertAt(index, k, b);
    forall f ensures f in nodes + {b.head} <==> InIndex(index2, f) { InsertedMembers(index, k, b, f); }
    assert forall l :: 0 <= l < |index2| ==> index2[l] == b || exists i :: 0 <= i < |index| && index2[l] == index[i];
  }

  lemma OutsideInner(m: Memory, que: int, nodes: set<int>, b: Bucket, fq: int)
    requires Spaced(m, que, nodes + {fq}) && fq !in nodes
    requires forall f :: Has(b, f) ==> f in nodes
    ensures fq !in InnerRing(b) && fq + QUEUE_SIZE !in InnerRing(b) && fq - QUEUE_SIZE !in InnerRing(b)
  {
    assert fq in nodes + {fq};
    assert forall x :: Has(b, x) ==> x in nodes + {fq} && Apart(fq, x);
    assert forall x :: x in b.sibs ==> Has(b, x);
    assert Has(b, b.head);
  }

  /** An area of this size is indexed: the new one joins its siblings, at the end. */
  lemma JoinedInner(m: Memory, m2: Memory, que: int, index: seq<Bucket>, nodes: set<int>, k: nat, fq: int)
    requires Index(m, que, index, nodes) && fq !in nodes && Spaced(m, que, nodes + {fq})
    requires k < |index| && SizeIs(m, fq, index[k].size)
    requires Joined(m, m2, InnerRing(index[k]), InnerRing(index[k].(sibs := index[k].sibs + [fq])), fq)
    ensures Index(m2, que, index[k := index[k].(sibs := index[k].sibs + [fq])], nodes + {fq})
    ensures OnlyIndexNodes(m, m2, que, nodes + {fq})
  {
    var b := index[k];
    var b2 := b.(sibs := b.sibs + [fq]);
    BucketNodes(m, que, index, nodes, k);
    assert BucketOk(m, b);
    assert OnlyIndexNodes(m, m2, que, nodes + {fq});
    assert Ring(m2, [que] + Heads(index[k := b2])) by {
      OutsideOuter(m, que, index, nodes, fq);
      RingFrame(m, m2, [que] + Heads(index));
      assert Heads(index[k := b2]) == Heads(index);
    }
    forall l | 0 <= l < |index| && l != k ensures BucketOk(m2, index[l]) {
      OtherBucket(m, m2, que, index, nodes, k, l, fq);
    }
    GrownBucket(m, m2, que, nodes, b, fq);
    OnlyBucket(m, que, index, nodes, k);
    IndexReplaced(m2, que, index, nodes, nodes + {fq}, k, b2);
  }

  /** Putting the parts together: bucket k replaced by one of the same size. */
  lemma IndexReplaced(m: Memory, que: int, index: seq<Bucket>, nodes: set<int>, nodes2: set<int>, k: nat, b: Bucket)
    requires k < |index| && BucketOk(m, b) && b.size == index[k].size
    requires forall l :: 0 <= l < |index| && l != k ==> BucketOk(m, index[l])
    requires Ring(m, [que] + Heads(index[k := b]))
    requires Ascending(index) && Spaced(m, que, nodes2)
    requires forall f {:trigger InIndex(index, f)} :: f in nodes <==> InIndex(index, f)
    requires forall f :: f in nodes2 <==> Has(b, f) || (f in nodes && !Has(index[k], f))
    requires forall l, f :: 0 <= l < |index| && l != k && Has(index[l], f) ==> !Has(index[k], f)
    ensures Index(m, que, index[k := b], nodes2)
  {
    var index2 := index[k := b];
    forall f ensures f in nodes2 <==> InIndex(index2, f) {
      ReplacedMembers(index, k, b, f);
      assert f in nodes <==> InIndex(index, f);
    }
  }

  lemma GrownBucket(m: Memory, m2: Memory, que: int, nodes: set<int>, b: Bucket, fq: int)
    requires BucketOk(m, b) && SizeIs(m, fq, b.size) && Spaced(m, que, nodes + {fq}) && fq !in nodes
    requires forall f :: Has(b, f) ==> f in nodes
    requires m2.Keys == m.Keys && m2[fq + QUEUE_SIZE] == Node(fq + QUEUE_SIZE, fq + QUEUE_SIZE)
    requires forall x {:trigger m2[x]} ::
               x in m && x !in InnerRing(b) && x != fq && x != fq + QUEUE_SIZE ==> m2[x] == m[x]
    requires Ring(m2, InnerRing(b.(sibs := b.sibs + [fq])))
    ensures BucketOk(m2, b.(sibs := b.sibs + [fq]))
  {
    hide Ring, Spaced, SizeIs, InnerRing;
    var b2 := b.(sibs := b.sibs + [fq]);
    assert forall f :: Has(b2, f) <==> Has(b, f) || f == fq;
    assert Has(b, b.head) && b.head != fq;
    forall f | Has(b2, f)
      ensures SizeIs(m2, f, b.size)
      ensures f in b2.sibs ==> f + QUEUE_SIZE in m && m2[f + QUEUE_SIZE] == Node(f + QUEUE_SIZE, f + QUEUE_SIZE)
    {
      assert f != fq ==> SizeIs(m, f, b.size);
      GrownAt(m, m2, que, nodes, b, fq, f);
    }
  }

  lemma GrownAt(m: Memory, m2: Memory, que: int, nodes: set<int>, b: Bucket, fq: int, f: int)
    requires BucketOk(m, b) && SizeIs(m, f, b.size) && Spaced(m, que, nodes + {fq}) && fq !in nodes
    requires (Has(b, f) || f == fq) && forall g :: Has(b, g) ==> g in nodes
    requires m2.Keys == m.Keys && m2[fq + QUEUE_SIZE] == Node(fq + QUEUE_SIZE, fq + QUEUE_SIZE)
    requires forall x {:trigger m2[x]} ::
               x in m && x !in InnerRing(b) && x != fq && x != fq + QUEUE_SIZE ==> m2[x] == m[x]
    ensures SizeIs(m2, f, b.size)
    ensures f != b.head ==> f + QUEUE_SIZE in m && m2[f + QUEUE_SIZE] == Node(f + QUEUE_SIZE, f + QUEUE_SIZE)
  {
    assert f != b.head && f != fq ==> f in b.sibs;
    hide Ring, InnerRing;
    GrownMember(m, que, nodes, b, fq, f);
    assert fq in nodes + {fq};
  }

  lemma GrownMember(m: Memory, que: int, nodes: set<int>, b: Bucket, fq: int, f: int)
    requires Spaced(m, que, nodes + {fq}) && (Has(b, f) || f == fq) && fq !in nodes
    requires forall f :: Has(b, f) ==> f in nodes
    ensures f - QUEUE_SIZE !in InnerRing(b) && f - QUEUE_SIZE != fq && f - QUEUE_SIZE != fq + QUEUE_SIZE
    ensures f != b.head && f != fq ==> f + QUEUE_SIZE !in InnerRing(b) && f + QUEUE_SIZE != fq
  {
    var b2 := b.(sibs := b.sibs + [fq]);
    assert forall g :: Has(b2, g) <==> Has(b, g) || g == fq;
    assert forall g :: Has(b2, g) ==> g in nodes + {fq};
    AroundMember(m, que, [], nodes + {fq}, b2, f);
    InnerMembers(b);
    InnerMembers(b2);
    assert Has(b2, fq) && Apart(f, fq);
  }

  /** The nodes of an inner ring meet no other node of any area, and no head. */
  lemma BucketNodes(m: Memory, que: int, index: seq<Bucket>, nodes: set<int>, k: nat)
    requires Index(m, que, index, nodes) && k < |index|
    ensures forall f :: Has(index[k], f) ==> f in nodes
    ensures forall x :: x in InnerRing(index[k]) <==> x - QUEUE_SIZE == index[k].head || x in index[k].sibs
    ensures forall l :: 0 <= l < |index| ==> index[l].head in nodes && index[l].head !in index[k].sibs
    ensures forall x :: x in [que] + Heads(index) ==> x !in InnerRing(index[k])
  {
    var b := index[k];
    forall f | Has(b, f) ensures f in nodes { Member(index, k, f); }
    forall l | 0 <= l < |index| ensures index[l].head in nodes && index[l].head !in b.sibs {
      Member(index, l, index[l].head);
      assert BucketOk(m, b);
      if index[l].head in b.sibs { BucketsDisjoint(m, que, index, nodes, k, l, index[l].head); }
    }
    forall x | x in [que] + Heads(index) ensures x !in InnerRing(b) {
      if x != que {
        var l :| 0 <= l < |index| && Heads(index)[l] == x;
        assert Apart(x, b.head);
      } else {
        assert forall f :: f in b.sibs ==> Has(b, f);
      }
    }
  }

  // ---- removeFreeQue ----

  /** m2 differs from m only on the nodes of these rings and on extra. */
  ghost predicate OnlyRings(m: Memory, m2: Memory, outer: seq<int>, inner: seq<int>, extra: int) {
    && m2.Keys == m.Keys
    && forall x {:trigger m2[x]} :: x in m && x !in outer && x !in inner && x != extra ==> m2[x] == m[x]
  }

  lemma OneRing(m: Memory, m2: Memory, ring: seq<int>, x: int, outer: seq<int>, inner: seq<int>, extra: int)
    requires SameOutside(m, m2, ToSet(ring) - {x}) && (ring == outer || ring == inner)
    ensures OnlyRings(m, m2, outer, inner, extra)
  {
  }

  lemma OnlyRingsOnlyNodes(m: Memory, m2: Memory, que: int, index: seq<Bucket>, nodes: set<int>, k: nat, extra: int)
    requires Index(m, que, index, nodes) && k < |index|
    requires Has(index[k], extra) || Has(index[k], extra - QUEUE_SIZE)
    requires OnlyRings(m, m2, [que] + Heads(index), InnerRing(index[k]), extra)
    ensures OnlyIndexNodes(m, m2, que, nodes)
  {
    hide Index, Ring, BucketOk, Ascending, Spaced;
    IndexParts(m, que, index, nodes);
    OuterNodes(index, que, nodes);
    BucketNodes(m, que, index, nodes, k);
    InnerMembers(index[k]);
    assert forall x :: x in index[k].sibs ==> Has(index[k], x);
    assert Has(index[k], index[k].head);
  }

  /** The buckets other than k survive a change to the outer ring and ring k. */
  lemma OtherBuckets(m: Memory, m2: Memory, que: int, index: seq<Bucket>, nodes: set<int>, k: nat, sib: int)
    requires Index(m, que, index, nodes) && k < |index| && Has(index[k], sib)
    requires OnlyRings(m, m2, [que] + Heads(index), InnerRing(index[k]), sib + QUEUE_SIZE)
    ensures forall l :: 0 <= l < |index| && l != k ==> BucketOk(m2, index[l])
  {
    Member(index, k, sib);
    assert nodes + {sib} == nodes;
    forall l | 0 <= l < |index| && l != k ensures BucketOk(m2, index[l]) {
      OtherBucket(m, m2, que, index, nodes, k, l, sib);
    }
  }

  /** Putting the parts together: bucket k gone. */
  lemma IndexShrunk(m: Memory, que: int, index: seq<Bucket>, nodes: set<int>, k: nat)
    requires k < |index| && index[k].sibs == []
    requires forall l :: 0 <= l < |index| && l != k ==> BucketOk(m, index[l])
    requires Ring(m, [que] + Heads(RemoveAt(index, k)))
    requires Ascending(index) && Spaced(m, que, nodes)
    requires forall f {:trigger InIndex(index, f)} :: f in nodes <==> InIndex(index, f)
    requires forall l, f :: 0 <= l < |index| && l != k && Has(index[l], f) ==> !Has(index[k], f)
    ensures Index(m, que, RemoveAt(index, k), nodes - {index[k].head})
  {
    var index2 := RemoveAt(index, k);
    forall f ensures f in nodes - {index[k].head} <==> InIndex(index2, f) {
      assert f in nodes <==> InIndex(index, f);
      ShrunkMembers(index, k, f);
    }
    forall l | 0 <= l < |index2| ensures BucketOk(m, index2[l]) {
      assert index2[l] == index[if l < k then l else l + 1];
    }
  }

  /** The only area of its size: its bucket goes. */
  lemma LeftOuter(m: Memory, m2: Memory, que: int, index: seq<Bucket>, nodes: set<int>, k: nat)
    requires Index(m, que, index, nodes) && k < |index| && index[k].sibs == []
    requires Ring(m2, RemoveAt([que] + Heads(index), k + 1))
    requires OnlyRings(m, m2, [que] + Heads(index), [], que)
    ensures Index(m2, que, RemoveAt(index, k), nodes - {index[k].head})
    ensures OnlyIndexNodes(m, m2, que, nodes)
  {
    var fq := index[k].head;
    HeadsRemoved(index, que, k);
    assert Has(index[k], fq);
    assert OnlyRings(m, m2, [que] + Heads(index), InnerRing(index[k]), fq + QUEUE_SIZE);
    OnlyRingsOnlyNodes(m, m2, que, index, nodes, k, fq + QUEUE_SIZE);
    OtherBuckets(m, m2, que, index, nodes, k, fq);
    OnlyBucket(m, que, index, nodes, k);
    IndexShrunk(m2, que, index, nodes, k);
  }

  lemma ShrunkMembers(index: seq<Bucket>, k: nat, f: int)
    requires k < |index| && index[k].sibs == []
    requires forall l, f :: 0 <= l < |index| && l != k && Has(index[l], f) ==> !Has(index[k], f)
    ensures InIndex(RemoveAt(index, k), f) <==> InIndex(index, f) && f != index[k].head
  {
    var index2 := RemoveAt(index, k);
    assert Has(index[k], f) <==> f == index[k].head;
    if InIndex(index2, f) {
      var l :| 0 <= l < |index2| && Has(index2[l], f);
      var i := if l < k then l else l + 1;
      assert index2[l] == index[i] && i != k;
      Member(index, i, f);
    }
    if InIndex(index, f) && f != index[k].head {
      var l :| 0 <= l < |index| && Has(index[l], f);
      assert l != k;
      Member(index2, if l < k then l else l - 1, f);
    }
  }

  /** A sibling: it leaves the inner ring and the head stays. */
  lemma LeftInner(m: Memory, m2: Memory, que: int, index: seq<Bucket>, nodes: set<int>, k: nat, j: nat)
    requires Index(m, que, index, nodes) && k < |index| && j < |index[k].sibs|
    requires Ring(m2, InnerRing(index[k].(sibs := RemoveAt(index[k].sibs, j))))
    requires OnlyRings(m, m2, [], InnerRing(index[k]), index[k].head + QUEUE_SIZE)
    ensures Index(m2, que, index[k := index[k].(sibs := RemoveAt(index[k].sibs, j))], nodes - {index[k].sibs[j]})
    ensures OnlyIndexNodes(m, m2, que, nodes)
  {
    var b, fq := index[k], index[k].sibs[j];
    var b2 := b.(sibs := RemoveAt(b.sibs, j));
    assert Has(b, fq);
    assert b.head + QUEUE_SIZE == InnerRing(b)[0];
    assert OnlyIndexNodes(m, m2, que, nodes) by {
      assert OnlyRings(m, m2, [que] + Heads(index), InnerRing(b), fq + QUEUE_SIZE);
      OnlyRingsOnlyNodes(m, m2, que, index, nodes, k, fq + QUEUE_SIZE);
    }
    OtherBuckets(m, m2, que, index, nodes, k, fq);
    OnlyBucket(m, que, index, nodes, k);
    assert Ring(m2, [que] + Heads(index[k := b2])) by {
      BucketNodes(m, que, index, nodes, k);
      RingFrame(m, m2, [que] + Heads(index));
      assert Heads(index[k := b2]) == Heads(index);
    }
    ShrunkBucket(m, m2, que, index, nodes, k, j);
    forall f | Has(b, f) ensures f in nodes { Member(index, k, f); }
    IndexReplaced(m2, que, index, nodes, nodes - {fq}, k, b2);
  }

  lemma ShrunkBucket(m: Memory, m2: Memory, que: int, index: seq<Bucket>, nodes: set<int>, k: nat, j: nat)
    requires Index(m, que, index, nodes) && k < |index| && j < |index[k].sibs|
    requires m2.Keys == m.Keys && Ring(m2, InnerRing(index[k].(sibs := RemoveAt(index[k].sibs, j))))
    requires forall x {:trigger m2[x]} :: x in m && x !in InnerRing(index[k]) ==> m2[x] == m[x]
    ensures BucketOk(m2, index[k].(sibs := RemoveAt(index[k].sibs, j)))
    ensures forall f ::
              Has(index[k].(sibs := RemoveAt(index[k].sibs, j)), f) <==> Has(index[k], f) && f != index[k].sibs[j]
  {
    var b, fq := index[k], index[k].sibs[j];
    var b2 := b.(sibs := RemoveAt(b.sibs, j));
    assert BucketOk(m, b);
    SibsDistinct(m, b);
    RemoveAtMembers(b.sibs, j);
    BucketNodes(m, que, index, nodes, k);
    forall f | Has(b2, f)
      ensures SizeIs(m2, f, b.size)
      ensures f in b2.sibs ==> f + QUEUE_SIZE in m && m2[f + QUEUE_SIZE] == m[f + QUEUE_SIZE]
    {
      assert Has(b, f) && SizeIs(m, f, b.size);
      assert Has(b, b.head) && Apart(f, b.head);
      assert forall x :: x in b.sibs ==> Has(b, x) && Apart(f, x);
    }
  }

  lemma SibsDistinct(m: Memory, b: Bucket)
    requires BucketOk(m, b)
    ensures Distinct(b.sibs)
  {
    forall i, j | 0 <= i < j < |b.sibs| ensures b.sibs[i] != b.sibs[j] {
      assert InnerRing(b)[i + 1] != InnerRing(b)[j + 1];
    }
  }

  lemma RemoveAtMembers<T>(s: seq<T>, i: nat)
    requires i < |s| && Distinct(s)
    ensures forall x :: x in RemoveAt(s, i) <==> x in s && x != s[i]
  {
    RemoveAtDistinct(s, i);
    assert s == s[..i] + [s[i]] + s[i + 1..];
  }

  /** A head with siblings: the first sibling becomes the head. */
  lemma PromotedSib(m: Memory, m5: Memory, que: int, index: seq<Bucket>, nodes: set<int>, k: nat)
    requires Index(m, que, index, nodes) && k < |index| && index[k].sibs != []
    requires var b := index[k];
             var nq := b.sibs[0];
             && Ring(m5, [nq + QUEUE_SIZE] + b.sibs[1..])
             && Ring(m5, ([que] + Heads(index))[k + 1 := nq])
             && OnlyRings(m, m5, [que] + Heads(index), InnerRing(b), nq + QUEUE_SIZE)
    ensures Index(m5, que, index[k := Bucket(index[k].size, index[k].sibs[0], index[k].sibs[1..])],
                  nodes - {index[k].head})
    ensures OnlyIndexNodes(m, m5, que, nodes)
  {
    hide Index, BucketOk, Ring, Spaced, Ascending, OnlyIndexNodes;
    var b := index[k];
    var nq := b.sibs[0];
    var b2 := Bucket(b.size, nq, b.sibs[1..]);
    assert Has(b, nq);
    OnlyRingsOnlyNodes(m, m5, que, index, nodes, k, nq + QUEUE_SIZE);
    OtherBuckets(m, m5, que, index, nodes, k, nq);
    OnlyBucket(m, que, index, nodes, k);
    assert Heads(index[k := b2]) == Heads(index)[k := nq];
    assert ([que] + Heads(index))[k + 1 := nq] == [que] + Heads(index[k := b2]);
    IndexParts(m, que, index, nodes);
    SibsDistinct(m, b);
    BucketNodes(m, que, index, nodes, k);
    OuterNodes(index, que, nodes);
    PromotedBucket(m, m5, que, [que] + Heads(index), nodes, b);
    SpacedFrame(m, m5, que, nodes, nodes - {b.head});
    IndexReplaced(m5, que, index, nodes, nodes - {b.head}, k, b2);
  }

  /** What TakeOver needs to know about the rings of bucket k. */
  lemma RingsApart(m: Memory, que: int, index: seq<Bucket>, nodes: set<int>, k: nat)
    requires Index(m, que, index, nodes) && k < |index| && index[k].sibs != []
    ensures var outer, inner, nq := [que] + Heads(index), InnerRing(index[k]), index[k].sibs[0];
            && (forall x :: x in outer ==> x !in inner)
            && nq + QUEUE_SIZE in m && nq + QUEUE_SIZE !in inner && nq + QUEUE_SIZE !in outer && nq !in outer
  {
    var b, nq := index[k], index[k].sibs[0];
    BucketNodes(m, que, index, nodes, k);
    OuterNodes(index, que, nodes);
    assert Has(b, nq) && nq in InnerRing(b) && BucketOk(m, b);
    AroundMember(m, que, [que] + Heads(index), nodes, b, nq);
  }

  lemma PromotedBucket(m: Memory, m5: Memory, que: int, outer: seq<int>, nodes: set<int>, b: Bucket)
    requires BucketOk(m, b) && b.sibs != [] && Distinct(b.sibs) && Spaced(m, que, nodes)
    requires forall f :: Has(b, f) ==> f in nodes
    requires forall x :: x in outer ==> x == que || x in nodes
    requires Ring(m5, [b.sibs[0] + QUEUE_SIZE] + b.sibs[1..])
    requires OnlyRings(m, m5, outer, InnerRing(b), b.sibs[0] + QUEUE_SIZE)
    ensures var b2 := Bucket(b.size, b.sibs[0], b.sibs[1..]);
            && BucketOk(m5, b2)
            && forall f :: Has(b2, f) <==> Has(b, f) && f != b.head
  {
    var nq := b.sibs[0];
    var b2 := Bucket(b.size, nq, b.sibs[1..]);
    RemoveAtMembers(b.sibs, 0);
    assert RemoveAt(b.sibs, 0) == b.sibs[1..];
    forall f | Has(b2, f)
      ensures SizeIs(m5, f, b.size)
      ensures f in b2.sibs ==> f + QUEUE_SIZE in m && m5[f + QUEUE_SIZE] == m[f + QUEUE_SIZE]
    {
      assert Has(b, f) && SizeIs(m, f, b.size);
      AroundMember(m, que, outer, nodes, b, f);
      AroundMember(m, que, outer, nodes, b, nq);
    }
  }

  /** The area node before and the inner node after a member's outer node. */
  lemma AroundMember(m: Memory, que: int, outer: seq<int>, nodes: set<int>, b: Bucket, f: int)
    requires Spaced(m, que, nodes) && Has(b, f)
    requires forall f :: Has(b, f) ==> f in nodes
    requires forall x :: x in outer ==> x == que || x in nodes
    ensures f - QUEUE_SIZE !in outer && f + QUEUE_SIZE !in outer
    ensures f - QUEUE_SIZE !in InnerRing(b)
    ensures f + QUEUE_SIZE in InnerRing(b) <==> f == b.head
    ensures forall g :: Has(b, g) ==> Apart(f, g)
  {
    InnerMembers(b);
    assert Has(b, b.head);
    assert Apart(f, b.head);
    assert f - QUEUE_SIZE in b.sibs ==> Has(b, f - QUEUE_SIZE) && Apart(f, f - QUEUE_SIZE);
    assert f + QUEUE_SIZE in b.sibs ==> Has(b, f + QUEUE_SIZE) && Apart(f, f + QUEUE_SIZE);
    assert f - QUEUE_SIZE in nodes ==> Apart(f, f - QUEUE_SIZE);
    assert f + QUEUE_SIZE in nodes ==> Apart(f, f + QUEUE_SIZE);
  }

  lemma InnerMembers(b: Bucket)
    ensures forall x :: x in InnerRing(b) <==> x == b.head + QUEUE_SIZE || x in b.sibs
  {
  }

  /** The bucket that fq is in, and that it is in no other role. */
  lemma FindBucket(m: Memory, que: int, index: seq<Bucket>, nodes: set<int>, fq: int) returns (k: nat)
    requires Index(m, que, index, nodes) && fq in nodes
    ensures k < |index| && Has(index[k], fq) && BucketOk(m, index[k])
  {
    assert InIndex(index, fq);
    k :| 0 <= k < |index| && Has(index[k], fq);
  }

  lemma AreaKnown(m: Memory, que: int, nodes: set<int>, f: int)
    requires Spaced(m, que, nodes + {f})
    ensures f - QUEUE_SIZE in m && f in m && f + QUEUE_SIZE in m
  {
    assert f in nodes + {f};
  }

  lemma BucketRing(m: Memory, b: Bucket)
    requires BucketOk(m, b)
    ensures Ring(m, InnerRing(b)) && b.head !in b.sibs && Distinct(b.sibs)
  {
    SibsDistinct(m, b);
  }

  lemma SameKeys(m: Memory, m2: Memory, s: set<int>)
    requires SameOutside(m, m2, s)
    ensures m2.Keys == m.Keys
  {
  }

  lemma NotHeader(m: Memory, que: int, nodes: set<int>, f: int)
    requires Spaced(m, que, nodes) && f in nodes
    ensures f != que
  {
  }

  lemma HeadSize(m: Memory, b: Bucket)
    requires BucketOk(m, b)
    ensures SizeIs(m, b.head, b.size)
  {
    assert Has(b, b.head);
  }

  /** Clearing the flag of an area outside the index changes nothing for the index. */
  lemma ClearedFrame(m0: Memory, m: Memory, que: int, index: seq<Bucket>, nodes: set<int>, aq: int)
    requires Index(m0, que, index, nodes) && aq + QUEUE_SIZE !in nodes
    requires Spaced(m0, que, nodes + {aq + QUEUE_SIZE})
    requires aq in m0 && m == m0[aq := ClearUse(m0[aq])]
    ensures Index(m, que, index, nodes) && Spaced(m, que, nodes + {aq + QUEUE_SIZE})
    ensures m.Keys == m0.Keys && forall fq, size :: SizeIs(m0, fq, size) ==> SizeIs(m, fq, size)
  {
    assert m.Keys == m0.Keys;
    var f := aq + QUEUE_SIZE;
    assert f in nodes + {f};
    assert forall g :: g in nodes ==> g in nodes + {f} && Apart(f, g);
    IndexFrame(m0, m, que, index, nodes);
    SpacedFrame(m0, m, que, nodes + {f}, nodes + {f});
  }

  function ClearUse(n: Node): Node {
    n.(prev := n.prev - n.prev % 2)
  }

  /** The free queue of one pool: search, registration and deletion of free areas. */
  class FreeQue {
    const q: QueueMemory
    const que: int       // address of the header
    const quarter: nat   // sizes above this are searched from the large end

    ghost var index: seq<Bucket>
    ghost var nodes: set<int>

    ghost predicate Valid()
      reads this, q
    {
      Index(q.m, que, index, nodes)
    }

    constructor (q0: QueueMemory, que0: int, quarter0: nat)
      requires que0 in q0.m
      modifies q0
      ensures q == q0 && que == que0 && quarter == quarter0
      ensures Valid() && index == [] && nodes == {}
      ensures q.m == Inited(old(q0.m), que0)
    {
      q, que, quarter := q0, que0, quarter0;
      index, nodes := [], {};
      new;
      q.QueInit(que);
      assert [que] + Heads([]) == [que];
    }

    /** The node at position i of the outer ring. */
    ghost function At(i: nat): int
      reads this
      requires i <= |index| + 1
    {
      if 1 <= i <= |index| then index[i - 1].head else que
    }

    lemma Step(i: nat)
      requires Valid() && i <= |index|
      ensures At(i) in q.m && q.m[At(i)].next == At(i + 1)
      ensures At(i + 1) in q.m && q.m[At(i + 1)].prev == At(i)
      ensures 1 <= i ==> At(i) != que && SizeIs(q.m, At(i), index[i - 1].size)
    {
      hide Index, BucketOk, Ring, Spaced, Ascending, OnlyIndexNodes;
      var outer := [que] + Heads(index);
      IndexParts(q.m, que, index, nodes);
      RingPred(q.m, outer, i);
      RingPred(q.m, outer, if i < |index| then i + 1 else 0);
      if 1 <= i {
        Member(index, i - 1, At(i));
        NotHeader(q.m, que, nodes, At(i));
        assert SizeIs(q.m, At(i), index[i - 1].size) by {
          assert BucketOk(q.m, index[i - 1]);
          HeadSize(q.m, index[i - 1]);
        }
      }
    }

    /** From the large end: stops at the first size not above blksz. */
    method SearchFromLarge(blksz: nat) returns (fq: int, ghost k: nat)
      requires Valid() && 0 < blksz
      ensures BestFit(index, blksz, k) && fq == At(k + 1)
    {
      hide Index, BucketOk, Ring, Spaced, OnlyIndexNodes;
      assert Ascending(index) by { IndexParts(q.m, que, index, nodes); }
      var fsz := 0;
      fq, k := que, |index|;
      Step(k);
      fq := q.m[fq].prev;
      while fq != que
        invariant k <= |index| && fq == At(k) && (k == 0 <==> fq == que)
        invariant forall i :: k <= i < |index| ==> index[i].size > blksz
        invariant fsz == if k < |index| then index[k].size else 0
        decreases k
      {
        Step(k);
        fsz := FreeSize(q.m, fq);
        if fsz <= blksz {
          fq := if fsz < blksz then q.m[fq].next else fq;
          k := if fsz < blksz then k else k - 1;
          return;
        }
        k := k - 1;
        Step(k);
        fq := q.m[fq].prev;
      }
      Step(0);
      fq := if fsz >= blksz then q.m[fq].next else fq;
    }

    /** From the small end: stops at the first size not below blksz. */
    method SearchFromSmall(blksz: nat) returns (fq: int, ghost k: nat)
      requires Valid()
      ensures BestFit(index, blksz, k) && fq == At(k + 1)
    {
      hide Index, BucketOk, Ring, Spaced, OnlyIndexNodes;
      assert Ascending(index) by { IndexParts(q.m, que, index, nodes); }
      k := 0;
      Step(0);
      fq := q.m[que].next;
      HeaderOnlyAtEnd(1);
      while fq != que
        invariant k <= |index| && fq == At(k + 1) && (k == |index| <==> fq == que)
        invariant forall i :: 0 <= i < k ==> index[i].size < blksz
        decreases |index| - k
      {
        Step(k + 1);
        if FreeSize(q.m, fq) >= blksz {
          break;
        }
        fq := q.m[fq].next;
        k := k + 1;
        HeaderOnlyAtEnd(k + 1);
      }
    }

    lemma HeaderOnlyAtEnd(i: nat)
      requires Valid() && 1 <= i <= |index| + 1
      ensures At(i) == que <==> i == |index| + 1
    {
      if i <= |index| { Step(i); }
    }

    /** Whichever end the size sends the search to, it finds the smallest size
        that fits, or the header when none does. */
    method SearchFreeArea(blksz: nat) returns (fq: int, ghost k: nat)
      requires Valid()
      ensures BestFit(index, blksz, k) && fq == At(k + 1)
      ensures fq == que <==> k == |index|
    {
      if blksz > quarter {
        fq, k := SearchFromLarge(blksz);
      } else {
        fq, k := SearchFromSmall(blksz);
      }
      HeaderOnlyAtEnd(k + 1);
    }

    /** Registers the area at aq as free. */
    method AppendFreeArea(aq: int, size: nat)
      requires Valid()
      requires aq + QUEUE_SIZE !in nodes && Spaced(q.m, que, nodes + {aq + QUEUE_SIZE})
      requires SizeIs(q.m, aq + QUEUE_SIZE, size)
      modifies this, q
      ensures Valid() && nodes == old(nodes) + {aq + QUEUE_SIZE}
      ensures aq in q.m && aq in old(q.m)
      ensures OnlyIndexNodes(old(q.m)[aq := ClearUse(old(q.m)[aq])], q.m, que, nodes)
    {
      hide Index, BucketOk, Ring, Spaced, Ascending, OnlyIndexNodes;
      ghost var f := aq + QUEUE_SIZE;
      ghost var k;
      var fq;
      fq, k := SearchFreeArea(size);
      ghost var m0 := q.m;
      AreaKnown(m0, que, nodes, f);
      q.m := q.m[aq := ClearUse(q.m[aq])];
      ghost var m := q.m;
      ClearedFrame(m0, m, que, index, nodes, aq);
      IndexParts(m, que, index, nodes);
      if k < |index| { Step(k + 1); }
      if fq != que && FreeSize(q.m, fq) == size {
        AppendSame(aq, fq, k);
      } else {
        AppendNew(aq, fq, k, size);
      }
      IndexParts(q.m, que, index, nodes + {f});
      AreaKnown(q.m, que, nodes, f);
      nodes := nodes + {f};
    }

    method AppendSame(aq: int, fq: int, ghost k: nat)
      requires Valid() && aq + QUEUE_SIZE !in nodes && Spaced(q.m, que, nodes + {aq + QUEUE_SIZE})
      requires k < |index| && fq == index[k].head && SizeIs(q.m, aq + QUEUE_SIZE, index[k].size)
      modifies this`index, q
      ensures Index(q.m, que, index, nodes + {aq + QUEUE_SIZE})
      ensures OnlyIndexNodes(old(q.m), q.m, que, nodes + {aq + QUEUE_SIZE})
    {
      hide Index, BucketOk, Ring, Spaced, Ascending, OnlyIndexNodes;
      ghost var f, m, b, inner := aq + QUEUE_SIZE, q.m, index[k], InnerRing(index[k]);
      IndexParts(m, que, index, nodes);
      BucketNodes(m, que, index, nodes, k);
      OutsideInner(m, que, nodes, b, f);
      AreaKnown(m, que, nodes, f);
      BucketRing(m, b);
      q.QueInsert(aq + QUEUE_SIZE, fq + QUEUE_SIZE, inner, |inner|);
      ghost var m1 := q.m;
      q.QueInit(aq + 2 * QUEUE_SIZE);
      ghost var b2 := b.(sibs := b.sibs + [f]);
      assert InsertAt(inner, |inner|, f) == InnerRing(b2);
      RingFrame(m1, q.m, InnerRing(b2));
      JoinedInner(m, q.m, que, index, nodes, k, f);
      index := index[k := b2];
    }

    method AppendNew(aq: int, fq: int, ghost k: nat, ghost size: int)
      requires Valid() && aq + QUEUE_SIZE !in nodes && Spaced(q.m, que, nodes + {aq + QUEUE_SIZE})
      requires SizeIs(q.m, aq + QUEUE_SIZE, size) && BestFit(index, size, k)
      requires fq == At(k + 1) && (k < |index| ==> index[k].size != size)
      modifies this`index, q
      ensures Index(q.m, que, index, nodes + {aq + QUEUE_SIZE})
      ensures OnlyIndexNodes(old(q.m), q.m, que, nodes + {aq + QUEUE_SIZE})
    {
      hide Index, BucketOk, Ring, Spaced, Ascending, OnlyIndexNodes;
      ghost var f, m, outer := aq + QUEUE_SIZE, q.m, [que] + Heads(index);
      IndexParts(m, que, index, nodes);
      OutsideOuter(m, que, index, nodes, f);
      AreaKnown(m, que, nodes, f);
      q.QueInsert(aq + QUEUE_SIZE, fq, outer, k + 1);
      ghost var m1 := q.m;
      q.QueInit(aq + 2 * QUEUE_SIZE);
      ghost var b := Bucket(size, f, []);
      HeadsInserted(index, que, k, b);
      RingFrame(m1, q.m, InsertAt(outer, k + 1, f));
      JoinedOuter(m, q.m, que, index, nodes, k, f, size);
      index := InsertAt(index, k, b);
    }

    /** The branch for a head with siblings, first half: the first sibling nq
        takes over the inner ring. */
    method TakeInner(fq: int, ghost inner: seq<int>) returns (nq: int)
      requires Ring(q.m, inner) && |inner| > 1 && inner[0] == fq + QUEUE_SIZE
      requires inner[1] + QUEUE_SIZE in q.m && inner[1] + QUEUE_SIZE !in inner
      modifies q
      ensures nq == inner[1]
      ensures Ring(q.m, [nq + QUEUE_SIZE] + inner[2..])
      ensures SameOutside(old(q.m), q.m, ToSet(inner) + {nq + QUEUE_SIZE})
    {
      hide Ring, SameOutside, ToSet, InsertAt, RemoveAt, Distinct;
      ghost var m, n := q.m, inner[1] + QUEUE_SIZE;
      ghost var s, t1, t2 := InnerRings(inner, n);
      RingFacts(m, inner);
      RingPred(m, inner, 0);
      nq := q.m[fq + QUEUE_SIZE].next;
      q.QueRemove(fq + QUEUE_SIZE, inner, 0);
      ghost var m1 := q.m;
      SameOutsideWider(m, m1, ToSet(inner) - {fq + QUEUE_SIZE}, s);
      SameKeys(m, m1, s);
      q.QueInsert(nq + QUEUE_SIZE, nq, t1, 0);
      ghost var m2 := q.m;
      SameOutsideTrans(m, m1, m2, s, ToSet(t1) + {n});
      q.QueRemove(nq, t2, 1);
      SameOutsideTrans(m, m2, q.m, s, ToSet(t2) - {nq});
    }

    /** The inner ring as it changes hands. */
    lemma InnerRings(inner: seq<int>, n: int) returns (s: set<int>, t1: seq<int>, t2: seq<int>)
      requires |inner| > 1 && n !in inner
      ensures s == ToSet(inner) + {n}
      ensures t1 == RemoveAt(inner, 0) && |t1| == |inner| - 1 && t1[0] == inner[1] && n !in t1
      ensures t2 == InsertAt(t1, 0, n) && |t2| == |inner| && t2[1] == inner[1]
      ensures RemoveAt(t2, 1) == [n] + inner[2..]
      ensures forall x :: ToSet(inner) - {x} <= s
      ensures ToSet(t1) + {n} <= s
      ensures forall x :: ToSet(t2) - {x} <= s
    {
      s, t1 := ToSet(inner) + {n}, RemoveAt(inner, 0);
      t2 := InsertAt(t1, 0, n);
      assert t1 == inner[1..];
    }

    /** The whole branch: then nq goes before fq in the outer ring. */
    method TakeOver(fq: int, ghost inner: seq<int>, ghost outer: seq<int>, ghost i: nat)
      requires Ring(q.m, inner) && |inner| > 1 && inner[0] == fq + QUEUE_SIZE
      requires Ring(q.m, outer) && 0 < i < |outer| && outer[i] == fq
      requires forall x :: x in outer ==> x !in inner
      requires var nq := inner[1];
               && nq + QUEUE_SIZE in q.m && nq + QUEUE_SIZE !in inner && nq + QUEUE_SIZE !in outer
      modifies q
      ensures Ring(q.m, [inner[1] + QUEUE_SIZE] + inner[2..])
      ensures Ring(q.m, InsertAt(outer, i, inner[1]))
      ensures OnlyRings(old(q.m), q.m, outer, inner, inner[1] + QUEUE_SIZE)
    {
      hide Ring;
      ghost var m := q.m;
      RingFacts(m, inner);
      RingFacts(m, outer);
      var nq := TakeInner(fq, inner);
      ghost var m3 := q.m;
      assert nq in inner;
      RingFrame(m, m3, outer);
      q.QueInsert(nq, fq, outer, i);
      ghost var t3 := [nq + QUEUE_SIZE] + inner[2..];
      forall x | x in t3 ensures x in q.m && q.m[x] == m3[x] {
        RingFacts(m3, t3);
        if x != nq + QUEUE_SIZE {
          var j :| 2 <= j < |inner| && inner[j] == x;
          assert inner[1] != inner[j] && inner[j] in inner;
        }
      }
      RingFrame(m3, q.m, t3);
    }

    /** Where fq sits: the ring through its inner node, and the ring that fq is on. */
    lemma Place(fq: int) returns (k: nat, j: nat, under: seq<int>, ring: seq<int>, i: nat)
      requires Valid() && fq in nodes
      ensures k < |index| && Has(index[k], fq)
      ensures Ring(q.m, under) && under[0] == fq + QUEUE_SIZE
      ensures Ring(q.m, ring) && i < |ring| && ring[i] == fq
      ensures fq == index[k].head ==> under == InnerRing(index[k]) && ring == [que] + Heads(index) && i == k + 1
      ensures fq != index[k].head ==> |under| == 1 && j < |index[k].sibs| && index[k].sibs[j] == fq
      ensures fq != index[k].head ==> ring == InnerRing(index[k]) && i == j + 1
    {
      k := FindBucket(q.m, que, index, nodes, fq);
      var b := index[k];
      if fq == b.head {
        j, under, ring, i := 0, InnerRing(b), [que] + Heads(index), k + 1;
      } else {
        j :| 0 <= j < |b.sibs| && b.sibs[j] == fq;
        SelfRing(q.m, b, fq);
        under, ring, i := [fq + QUEUE_SIZE], InnerRing(b), j + 1;
      }
    }

    /** Takes exactly this area out of the index, whatever its place in it: sole
        entry of its size, head with siblings, or sibling. */
    method RemoveFreeQue(fq: int)
      requires Valid() && fq in nodes
      modifies this, q
      ensures Valid() && nodes == old(nodes) - {fq}
      ensures OnlyIndexNodes(old(q.m), q.m, que, old(nodes))
    {
      hide Index, BucketOk, Ring, Spaced, Ascending, OnlyIndexNodes, OnlyRings, SameOutside;
      ghost var m := q.m;
      ghost var k, j, under, ring, i := Place(fq);
      ghost var b := index[k];
      var empty := q.IsQueEmpty(fq + QUEUE_SIZE, under);
      if !empty {
        RingsApart(m, que, index, nodes, k);
        assert under[1] == b.sibs[0] && under[2..] == b.sibs[1..];
        TakeOver(fq, under, ring, i);
        ring, i := InsertAt(ring, i, b.sibs[0]), i + 1;
        RingFacts(q.m, ring);
      }
      ghost var m4 := q.m;
      q.QueRemove(fq, ring, i);
      if !empty {
        TookOver(m, m4, q.m, index, nodes, k);
        index := index[k := Bucket(b.size, b.sibs[0], b.sibs[1..])];
      } else if fq == b.head {
        assert b.sibs == [] by { assert |under| == 1 + |b.sibs|; }
        OneRing(m, q.m, ring, fq, [que] + Heads(index), [], que);
        LeftOuter(m, q.m, que, index, nodes, k);
        index := RemoveAt(index, k);
      } else {
        assert RemoveAt(ring, i) == InnerRing(b.(sibs := RemoveAt(b.sibs, j)));
        OneRing(m, q.m, ring, fq, [], InnerRing(b), b.head + QUEUE_SIZE);
        LeftInner(m, q.m, que, index, nodes, k, j);
        index := index[k := b.(sibs := RemoveAt(b.sibs, j))];
      }
      nodes := nodes - {fq};
    }

    lemma Replaced(s: seq<int>, i: nat, x: int)
      requires i < |s|
      ensures RemoveAt(InsertAt(s, i, x), i + 1) == s[i := x]
    {
    }

    lemma TookOver(m: Memory, m4: Memory, m5: Memory, index: seq<Bucket>, nodes: set<int>, k: nat)
      requires Index(m, que, index, nodes) && k < |index| && index[k].sibs != []
      requires var outer, b := [que] + Heads(index), index[k];
               var nq := b.sibs[0];
               && Ring(m4, [nq + QUEUE_SIZE] + b.sibs[1..])
               && OnlyRings(m, m4, outer, InnerRing(b), nq + QUEUE_SIZE)
               && Ring(m5, RemoveAt(InsertAt(outer, k + 1, nq), k + 2))
               && SameOutside(m4, m5, ToSet(InsertAt(outer, k + 1, nq)) - {b.head})
      ensures Index(m5, que, index[k := Bucket(index[k].size, index[k].sibs[0], index[k].sibs[1..])],
                    nodes - {index[k].head})
      ensures OnlyIndexNodes(m, m5, que, nodes)
    {
      hide Index, BucketOk, Ring, Spaced, Ascending, OnlyIndexNodes;
      var outer, b := [que] + Heads(index), index[k];
      var nq := b.sibs[0];
      Replaced(outer, k + 1, nq);
      assert nq in InnerRing(b);
      RingsApart(m, que, index, nodes, k);
      IndexParts(m, que, index, nodes);
      BucketRing(m, b);
      RingFacts(m4, [nq + QUEUE_SIZE] + b.sibs[1..]);
      hide RemoveAt;
      forall x | x in [nq + QUEUE_SIZE] + b.sibs[1..] ensures m5[x] == m4[x] && x in m5 {
        if x != nq + QUEUE_SIZE { assert x in b.sibs && x in InnerRing(b) && x != nq; }
      }
      RingFrame(m4, m5, [nq + QUEUE_SIZE] + b.sibs[1..]);
      PromotedSib(m, m5, que, index, nodes, k);
    }
  }

  lemma SelfRing(m: Memory, b: Bucket, fq: int)
    requires BucketOk(m, b) && fq in b.sibs
    ensures Ring(m, [fq + QUEUE_SIZE])
  {
  }
}
