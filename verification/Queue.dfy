/** The doubly linked rings of include/sys/queue.h, over a store of QUEUE nodes.
    Every other list of the system (areas, free areas, waiting tasks, messages)
    is one of these rings. */
module Queue {

  datatype Option<+T> = None | Some(value: T)

  /** A QUEUE is eight bytes: the addresses of its two neighbours. */
  const QUEUE_SIZE := 8

  datatype Node = Node(next: int, prev: int)

  type Memory = map<int, Node>

  ghost predicate Distinct<T>(s: seq<T>) {
    forall i, j :: 0 <= i < j < |s| ==> s[i] != s[j]
  }

  function After<T>(s: seq<T>, i: int): T
    requires 0 <= i < |s|
  {
    if i + 1 < |s| then s[i + 1] else s[0]
  }

  function Pred(n: nat, i: int): (p: int)
    requires 0 <= i < n
    ensures 0 <= p < n
  {
    if i > 0 then i - 1 else n - 1
  }

  /** b directly follows a. */
  ghost predicate Link(m: Memory, a: int, b: int) {
    a in m && b in m && m[a].next == b && m[b].prev == a
  }

  /** The nodes of s, in this order, form a closed ring. */
  ghost predicate Ring(m: Memory, s: seq<int>) {
    && |s| > 0
    && Distinct(s)
    && (forall x :: x in s ==> x in m)
    && forall i {:trigger After(s, i)} :: 0 <= i < |s| ==> Link(m, s[i], After(s, i))
  }

  /** m2 differs from m at most on the nodes of touched. */
  ghost predicate SameOutside(m: Memory, m2: Memory, touched: set<int>) {
    m2.Keys == m.Keys && forall x {:trigger m2[x]} :: x in m && x !in touched ==> m2[x] == m[x]
  }

  lemma SameOutsideTrans(m: Memory, m1: Memory, m2: Memory, s: set<int>, t: set<int>)
    requires SameOutside(m, m1, s) && SameOutside(m1, m2, t) && t <= s
    ensures SameOutside(m, m2, s)
  {
  }

  lemma SameOutsideWider(m: Memory, m2: Memory, s: set<int>, t: set<int>)
    requires SameOutside(m, m2, s) && s <= t
    ensures SameOutside(m, m2, t)
  {
  }

  function InsertAt<T>(s: seq<T>, i: int, e: T): (r: seq<T>)
    requires 0 <= i <= |s|
    ensures |r| == |s| + 1
    ensures forall k {:trigger r[k]} :: 0 <= k <= |s| ==> r[k] == if k < i then s[k] else if k == i then e else s[k - 1]
  {
    s[..i] + [e] + s[i..]
  }

  function RemoveAt<T>(s: seq<T>, i: int): (r: seq<T>)
    requires 0 <= i < |s|
    ensures |r| == |s| - 1
    ensures forall k {:trigger r[k]} :: 0 <= k < |s| - 1 ==> r[k] == if k < i then s[k] else s[k + 1]
  {
    s[..i] + s[i + 1..]
  }

  lemma RemoveAtRest<T>(s: seq<T>, i: int)
    requires 0 <= i < |s|
    ensures RemoveAt(s, i) == if i == 0 then s[1..] else [s[0]] + RemoveAt(s[1..], i - 1)
  {
  }

  lemma InsertAtDistinct<T>(s: seq<T>, i: int, e: T)
    requires 0 <= i <= |s| && Distinct(s) && e !in s
    ensures Distinct(InsertAt(s, i, e))
  {
    var r := InsertAt(s, i, e);
    forall a, b | 0 <= a < b < |r| ensures r[a] != r[b] {
      if a != i && b != i {
        assert s[if a < i then a else a - 1] != s[if b < i then b else b - 1];
      }
    }
  }

  lemma RemoveAtDistinct<T>(s: seq<T>, i: int)
    requires 0 <= i < |s| && Distinct(s)
    ensures Distinct(RemoveAt(s, i)) && s[i] !in RemoveAt(s, i)
  {
    var r := RemoveAt(s, i);
    forall a, b | 0 <= a < b < |r| ensures r[a] != r[b] {
      assert s[if a < i then a else a + 1] != s[if b < i then b else b + 1];
    }
    forall a | 0 <= a < |r| ensures r[a] != s[i] {
    }
  }

  ghost function ToSet<T>(s: seq<T>): set<T> {
    set x | x in s
  }

  // ---- what the operations do to the store ----

  function Inited(m: Memory, que: int): Memory {
    m[que := Node(que, que)]
  }

  function Inserted(m: Memory, entry: int, que: int): Memory
    requires entry in m && que in m && m[que].prev in m
  {
    var p := m[que].prev;
    var m1 := m[entry := Node(que, p)];
    var m2 := m1[p := m1[p].(next := entry)];
    m2[que := m2[que].(prev := entry)]
  }

  function Removed(m: Memory, entry: int): Memory
    requires entry in m && m[entry].prev in m && m[entry].next in m
  {
    if m[entry].next == entry then m else
    var m1 := m[m[entry].prev := m[m[entry].prev].(next := m[entry].next)];
    m1[m[entry].next := m1[m[entry].next].(prev := m[entry].prev)]
  }

  // ---- what that means for rings ----

  lemma RingFrame(m: Memory, m2: Memory, s: seq<int>)
    requires Ring(m, s)
    requires forall x :: x in s ==> x in m2 && m2[x] == m[x]
    ensures Ring(m2, s)
  {
    forall i | 0 <= i < |s| ensures Link(m2, s[i], After(s, i)) {
      assert Link(m, s[i], After(s, i));
      assert s[i] in s && After(s, i) in s;
    }
  }

  lemma RingFacts(m: Memory, s: seq<int>)
    requires Ring(m, s)
    ensures |s| > 0 && Distinct(s) && forall x :: x in s ==> x in m
  {
  }

  lemma InitedRing(m: Memory, que: int)
    ensures Ring(Inited(m, que), [que])
    ensures forall x :: x in m && x != que ==> Inited(m, que)[x] == m[x]
  {
  }

  lemma RingPred(m: Memory, s: seq<int>, i: int)
    requires Ring(m, s) && 0 <= i < |s|
    ensures s[i] in m && m[s[i]].prev == s[Pred(|s|, i)] && m[s[i]].next == After(s, i)
    ensures s[Pred(|s|, i)] in m && After(s, i) in m
  {
    assert Link(m, s[i], After(s, i));
    assert Link(m, s[Pred(|s|, i)], After(s, Pred(|s|, i)));
  }

  /** Inserting before the node at position i puts the entry at position i;
      inserting before the first node closes the ring through the entry, so it is
      at the front or the back, whichever way one reads the ring. */
  lemma InsertedRing(m: Memory, s: seq<int>, i: int, entry: int)
    requires Ring(m, s) && 0 <= i <= |s| && entry in m && entry !in s
    ensures var que := if i < |s| then s[i] else s[0];
            && que in m && m[que].prev in m
            && Ring(Inserted(m, entry, que), InsertAt(s, i, entry))
            && SameOutside(m, Inserted(m, entry, que), ToSet(s) + {entry})
  {
    var c := if i < |s| then i else 0;
    var que, pi := s[c], Pred(|s|, c);
    RingPred(m, s, c);
    var m2 := Inserted(m, entry, que);
    InsertAtDistinct(s, i, entry);
    assert Link(m2, s[pi], entry) && Link(m2, entry, que);
    forall k | 0 <= k < |s| && k != pi ensures Link(m2, s[k], After(s, k)) {
      assert Link(m, s[k], After(s, k));
    }
    CloseOverInsert(m2, s, i, entry);
    assert que in ToSet(s) && s[pi] in ToSet(s);
  }

  lemma CloseOverInsert(m: Memory, s: seq<int>, i: int, entry: int)
    requires |s| > 0 && 0 <= i <= |s| && Distinct(InsertAt(s, i, entry))
    requires var c := if i < |s| then i else 0;
             var pi := Pred(|s|, c);
             && Link(m, s[pi], entry) && Link(m, entry, s[c])
             && forall k :: 0 <= k < |s| && k != pi ==> Link(m, s[k], After(s, k))
    ensures Ring(m, InsertAt(s, i, entry))
  {
    var r := InsertAt(s, i, entry);
    forall k | 0 <= k < |r| ensures Link(m, r[k], After(r, k)) {
      if k != i { assert r[k] == s[if k < i then k else k - 1]; }
    }
  }

  lemma CloseOverRemove(m: Memory, s: seq<int>, i: int)
    requires |s| > 1 && 0 <= i < |s| && Distinct(RemoveAt(s, i))
    requires var pi := Pred(|s|, i);
             && Link(m, s[pi], After(s, i))
             && forall k :: 0 <= k < |s| && k != pi && k != i ==> Link(m, s[k], After(s, k))
    ensures Ring(m, RemoveAt(s, i))
  {
    var r := RemoveAt(s, i);
    forall k | 0 <= k < |r| ensures Link(m, r[k], After(r, k)) {
      assert r[k] == s[if k < i then k else k + 1];
    }
  }

  lemma RemovedRing(m: Memory, s: seq<int>, i: int)
    requires Ring(m, s) && |s| > 1 && 0 <= i < |s|
    ensures var entry := s[i];
            && entry in m && m[entry].prev in m && m[entry].next in m
            && Ring(Removed(m, entry), RemoveAt(s, i))
            && SameOutside(m, Removed(m, entry), ToSet(s) - {entry})
  {
    var entry, pi := s[i], Pred(|s|, i);
    RingPred(m, s, i);
    var m2 := Removed(m, entry);
    RemoveAtDistinct(s, i);
    assert Link(m2, s[pi], After(s, i));
    forall k | 0 <= k < |s| && k != pi && k != i ensures Link(m2, s[k], After(s, k)) {
      assert Link(m, s[k], After(s, k));
    }
    CloseOverRemove(m2, s, i);
    assert s[pi] in ToSet(s) - {entry} && After(s, i) in ToSet(s) - {entry};
  }

  lemma RingAlone(m: Memory, s: seq<int>, i: nat)
    requires Ring(m, s) && i < |s|
    ensures s[i] in m && (m[s[i]].next == s[i] <==> |s| == 1)
  {
    RingPred(m, s, i);
  }

  /** QueInsert then QueRemove is the identity on the ring. */
  lemma InsertRemoveInverse(m: Memory, s: seq<int>, i: int, entry: int)
    requires Ring(m, s) && 0 <= i <= |s| && entry in m && entry !in s
    ensures var que := if i < |s| then s[i] else s[0];
            && que in m && m[que].prev in m
            && var m1 := Inserted(m, entry, que);
            entry in m1 && m1[entry].prev in m1 && m1[entry].next in m1
            && forall x :: x in s ==> Removed(m1, entry)[x] == m[x]
  {
    InsertedRing(m, s, i, entry);
    var que := if i < |s| then s[i] else s[0];
    var m1 := Inserted(m, entry, que);
    RemovedRing(m1, InsertAt(s, i, entry), i);
    assert RemoveAt(InsertAt(s, i, entry), i) == s && InsertAt(s, i, entry)[i] == entry;
    RingPred(m1, InsertAt(s, i, entry), i);
    forall x | x in s ensures Removed(m1, entry)[x] == m[x] {
      var k :| 0 <= k < |s| && s[k] == x;
      RingPred(m, s, k);
      RingPred(Removed(m1, entry), s, k);
    }
  }

  /** The store of QUEUE nodes, updated in place. */
  class QueueMemory {
    var m: Memory

    constructor (m0: Memory)
      ensures m == m0
    {
      m := m0;
    }

    method QueInit(que: int)
      requires que in m
      modifies this
      ensures Ring(m, [que]) && SameOutside(old(m), m, {que})
      ensures m == Inited(old(m), que)
    {
      InitedRing(m, que);
      m := m[que := Node(m[que].next, m[que].prev)];
      m := m[que := m[que].(next := que)];
      m := m[que := m[que].(prev := que)];
    }

    method IsQueEmpty(que: int, ghost s: seq<int>) returns (empty: bool)
      requires Ring(m, s) && s[0] == que
      ensures empty <==> |s| == 1
    {
      RingAlone(m, s, 0);
      empty := m[que].next == que;
    }

    /** Puts entry before que, which is node i of ring s (node 0 when i is past the end). */
    method QueInsert(entry: int, que: int, ghost s: seq<int>, ghost i: nat)
      requires Ring(m, s) && i <= |s| && que == (if i < |s| then s[i] else s[0])
      requires entry in m && entry !in s
      modifies this
      ensures Ring(m, InsertAt(s, i, entry))
      ensures SameOutside(old(m), m, ToSet(s) + {entry})
    {
      InsertedRing(m, s, i, entry);
      assert entry != que;
      m := m[entry := m[entry].(prev := m[que].prev)];
      m := m[entry := m[entry].(next := que)];
      assert m == old(m)[entry := Node(que, old(m[que].prev))];
      m := m[m[que].prev := m[m[que].prev].(next := entry)];
      m := m[que := m[que].(prev := entry)];
      assert m == Inserted(old(m), entry, que);
    }

    /** Takes entry, node i of ring s, off the ring. */
    method QueRemove(entry: int, ghost s: seq<int>, ghost i: nat)
      requires Ring(m, s) && i < |s| && s[i] == entry
      modifies this
      ensures Ring(m, if |s| == 1 then s else RemoveAt(s, i))
      ensures SameOutside(old(m), m, ToSet(s) - {entry})
    {
      RingPred(m, s, i);
      if m[entry].next != entry {
        if |s| > 1 { RemovedRing(m, s, i); }
        m := m[m[entry].prev := m[m[entry].prev].(next := m[entry].next)];
        m := m[m[entry].next := m[m[entry].next].(prev := m[entry].prev)];
        assert m == Removed(old(m), entry);
      } else {
        RingAlone(m, s, i);
      }
    }

    /** Takes the entry after que off its ring; None when there is none. */
    method QueRemoveNext(que: int, ghost s: seq<int>) returns (r: Option<int>)
      requires Ring(m, s) && s[0] == que
      modifies this
      ensures r == if |s| == 1 then None else Some(s[1])
      ensures Ring(m, if |s| == 1 then s else RemoveAt(s, 1))
      ensures SameOutside(old(m), m, ToSet(s))
    {
      RingPred(m, s, 0);
      if m[que].next == que {
        return None;
      }
      ghost var m0 := m;
      RemovedRing(m, s, 1);
      RingPred(m, s, 1);
      var entry := m[que].next;
      m := m[que := m[que].(next := m[entry].next)];
      m := m[m[entry].next := m[m[entry].next].(prev := que)];
      assert m == Removed(m0, entry);
      return Some(entry);
    }
  }
}
