/** Bit strings (kernel/tstdlib/bitop.c), for both byte orders: be says BIGENDIAN. */
module BitSearch {

  /** r is the first position in the width bits from offset that is want, or -1. */
  ghost predicate IsLeast(bits: seq<bool>, want: bool, offset: int, width: int, r: int)
    requires 0 <= offset && 0 <= width && offset + width <= |bits|
  {
    if r == -1 then Unfit(bits, want, offset, offset + width)
    else 0 <= r < width && bits[offset + r] == want && Unfit(bits, want, offset, offset + r)
  }

  /** No bit from a up to b is want. */
  ghost predicate Unfit(bits: seq<bool>, want: bool, a: int, b: int)
    requires 0 <= a && b <= |bits|
  {
    forall i :: a <= i < b ==> bits[i] != want
  }

  lemma LeastUnique(bits: seq<bool>, want: bool, offset: int, width: int, r: int, r2: int)
    requires 0 <= offset && 0 <= width && offset + width <= |bits|
    requires IsLeast(bits, want, offset, width, r) && IsLeast(bits, want, offset, width, r2)
    ensures r == r2
  {
  }

  lemma LeastNone(bits: seq<bool>, want: bool, offset: int, width: int)
    requires 0 <= offset && 0 <= width && offset + width <= |bits|
    ensures Unfit(bits, want, offset, offset)
    ensures Unfit(bits, want, offset, offset + width) ==> IsLeast(bits, want, offset, width, -1)
    ensures forall at {:trigger Unfit(bits, want, at, at)} :: 0 <= at <= |bits| ==> Unfit(bits, want, at, at)
  {
  }

  lemma LeastFound(bits: seq<bool>, want: bool, offset: int, width: int, i: int)
    requires 0 <= offset <= i < |bits| && 0 <= width && offset + width <= |bits| && bits[i] == want
    requires Unfit(bits, want, offset, i)
    ensures IsLeast(bits, want, offset, width, if i - offset < width then i - offset else -1)
  {
  }

  lemma UnfitTrans(bits: seq<bool>, want: bool, a: int, b: int, c: int)
    requires 0 <= a <= b <= c <= |bits| && Unfit(bits, want, a, b) && Unfit(bits, want, b, c)
    ensures Unfit(bits, want, a, c)
  {
  }

  lemma UnfitJoin(bits: seq<bool>, want: bool, offset: int, at: int, b: int, end: int)
    requires 0 <= offset <= at <= b <= |bits| && end <= |bits|
    requires Unfit(bits, want, offset, at) && Unfit(bits, want, at, b)
    ensures Unfit(bits, want, offset, if b < end then b else end)
  {
  }

  lemma UnfitOne(bits: seq<bool>, want: bool, at: int, i: int)
    requires 0 <= at <= i < |bits| && Unfit(bits, want, at, i) && bits[i] != want
    ensures Unfit(bits, want, at, i + 1)
  {
  }

  // ---- bits of a word, from its first one on ----

  function Moved1(be: bool, v: bv32): bv32 { if be then v << 1 else v >> 1 }
  function Moved2(be: bool, v: bv32): bv32 { if be then v << 2 else v >> 2 }
  function Moved4(be: bool, v: bv32): bv32 { if be then v << 4 else v >> 4 }
  function Moved8(be: bool, v: bv32): bv32 { if be then v << 8 else v >> 8 }
  function Moved16(be: bool, v: bv32): bv32 { if be then v << 16 else v >> 16 }

  predicate Clear1(be: bool, v: bv32) { if be then v & 0x80000000 == 0 else v & 0x1 == 0 }
  predicate Clear2(be: bool, v: bv32) { if be then v & 0xc0000000 == 0 else v & 0x3 == 0 }
  predicate Clear4(be: bool, v: bv32) { if be then v & 0xf0000000 == 0 else v & 0xf == 0 }
  predicate Clear8(be: bool, v: bv32) { if be then v & 0xff000000 == 0 else v & 0xff == 0 }
  predicate Clear16(be: bool, v: bv32) { if be then v & 0xffff0000 == 0 else v & 0xffff == 0 }

  /** Bit k, where bit 0 is the most significant one (BIGENDIAN) or the least. */
  predicate BitAt(be: bool, v: bv32, k: nat)
    decreases k
  {
    if k == 0 then !Clear1(be, v) else BitAt(be, Moved1(be, v), k - 1)
  }

  lemma MovedBit1(be: bool, v: bv32, k: nat)
    ensures BitAt(be, Moved1(be, v), k) == BitAt(be, v, k + 1)
  {
    hide Moved1, Clear1;
  }

  lemma MovedBit2(be: bool, v: bv32, k: nat)
    ensures BitAt(be, Moved2(be, v), k) == BitAt(be, v, k + 2)
  {
    assert Moved1(be, Moved1(be, v)) == Moved2(be, v);
    hide Moved1, Moved2, Clear1;
    assert BitAt(be, v, k + 2) == BitAt(be, Moved1(be, v), k + 1);
  }

  lemma MovedBit4(be: bool, v: bv32, k: nat)
    ensures BitAt(be, Moved4(be, v), k) == BitAt(be, v, k + 4)
  {
    assert Moved2(be, Moved2(be, v)) == Moved4(be, v);
    hide Moved2, Moved4, BitAt;
    MovedBit2(be, Moved2(be, v), k);
    MovedBit2(be, v, k + 2);
  }

  lemma MovedBit8(be: bool, v: bv32, k: nat)
    ensures BitAt(be, Moved8(be, v), k) == BitAt(be, v, k + 8)
  {
    assert Moved4(be, Moved4(be, v)) == Moved8(be, v);
    hide Moved4, Moved8, BitAt;
    MovedBit4(be, Moved4(be, v), k);
    MovedBit4(be, v, k + 4);
  }

  lemma MovedBit16(be: bool, v: bv32, k: nat)
    ensures BitAt(be, Moved16(be, v), k) == BitAt(be, v, k + 16)
  {
    assert Moved8(be, Moved8(be, v)) == Moved16(be, v);
    hide Moved8, Moved16, BitAt;
    MovedBit8(be, Moved8(be, v), k);
    MovedBit8(be, v, k + 8);
  }

  ghost predicate NoneBefore(be: bool, v: bv32, n: nat) {
    forall k :: 0 <= k < n ==> !BitAt(be, v, k)
  }

  /** w is v without its first n bits. */
  ghost predicate Shifted(be: bool, v: bv32, w: bv32, n: nat) {
    forall k: nat :: BitAt(be, w, k) == BitAt(be, v, k + n)
  }

  lemma Shift1(be: bool, v: bv32)
    ensures Shifted(be, v, Moved1(be, v), 1)
  {
    hide Moved1, Clear1;
    forall k: nat ensures BitAt(be, Moved1(be, v), k) == BitAt(be, v, k + 1) {
    }
  }

  lemma Shift2(be: bool, v: bv32)
    ensures Shifted(be, v, Moved2(be, v), 2)
  {
    hide Moved2, BitAt;
    forall k: nat ensures BitAt(be, Moved2(be, v), k) == BitAt(be, v, k + 2) { MovedBit2(be, v, k); }
  }

  lemma Shift4(be: bool, v: bv32)
    ensures Shifted(be, v, Moved4(be, v), 4)
  {
    hide Moved4, BitAt;
    forall k: nat ensures BitAt(be, Moved4(be, v), k) == BitAt(be, v, k + 4) { MovedBit4(be, v, k); }
  }

  lemma Shift8(be: bool, v: bv32)
    ensures Shifted(be, v, Moved8(be, v), 8)
  {
    hide Moved8, BitAt;
    forall k: nat ensures BitAt(be, Moved8(be, v), k) == BitAt(be, v, k + 8) { MovedBit8(be, v, k); }
  }

  lemma Shift16(be: bool, v: bv32)
    ensures Shifted(be, v, Moved16(be, v), 16)
  {
    hide Moved16, BitAt;
    forall k: nat ensures BitAt(be, Moved16(be, v), k) == BitAt(be, v, k + 16) { MovedBit16(be, v, k); }
  }

  lemma NoneJoin(be: bool, v: bv32, w: bv32, n: nat, m: nat)
    requires Shifted(be, v, w, n)
    ensures NoneBefore(be, v, n + m) <==> NoneBefore(be, v, n) && NoneBefore(be, w, m)
  {
    hide BitAt;
    if NoneBefore(be, v, n + m) {
      forall k | 0 <= k < m ensures !BitAt(be, w, k) { assert !BitAt(be, v, k + n); }
    }
    if NoneBefore(be, v, n) && NoneBefore(be, w, m) {
      forall k | 0 <= k < n + m ensures !BitAt(be, v, k) {
        if k >= n { assert BitAt(be, v, (k - n) + n) == BitAt(be, w, k - n); }
      }
    }
  }

  // A field is clear exactly when none of its bits is set.

  lemma Clear1Is(be: bool, v: bv32)
    ensures Clear1(be, v) <==> NoneBefore(be, v, 1)
  {
    hide Clear1;
    assert BitAt(be, v, 0) == !Clear1(be, v);
  }

  lemma Clear2Is(be: bool, v: bv32)
    ensures Clear2(be, v) <==> NoneBefore(be, v, 2)
  {
    assert Clear2(be, v) <==> Clear1(be, v) && Clear1(be, Moved1(be, v));
    hide Clear2, Clear1, Moved1, NoneBefore, Shifted;
    Clear1Is(be, v);
    Clear1Is(be, Moved1(be, v));
    Shift1(be, v);
    NoneJoin(be, v, Moved1(be, v), 1, 1);
  }

  lemma Clear4Is(be: bool, v: bv32)
    ensures Clear4(be, v) <==> NoneBefore(be, v, 4)
  {
    assert Clear4(be, v) <==> Clear2(be, v) && Clear2(be, Moved2(be, v));
    hide Clear4, Clear2, Moved2, NoneBefore, Shifted;
    Clear2Is(be, v);
    Clear2Is(be, Moved2(be, v));
    Shift2(be, v);
    NoneJoin(be, v, Moved2(be, v), 2, 2);
  }

  lemma Clear8Is(be: bool, v: bv32)
    ensures Clear8(be, v) <==> NoneBefore(be, v, 8)
  {
    assert Clear8(be, v) <==> Clear4(be, v) && Clear4(be, Moved4(be, v));
    hide Clear8, Clear4, Moved4, NoneBefore, Shifted;
    Clear4Is(be, v);
    Clear4Is(be, Moved4(be, v));
    Shift4(be, v);
    NoneJoin(be, v, Moved4(be, v), 4, 4);
  }

  lemma Clear16Is(be: bool, v: bv32)
    ensures Clear16(be, v) <==> NoneBefore(be, v, 16)
  {
    assert Clear16(be, v) <==> Clear8(be, v) && Clear8(be, Moved8(be, v));
    hide Clear16, Clear8, Moved8, NoneBefore, Shifted;
    Clear8Is(be, v);
    Clear8Is(be, Moved8(be, v));
    Shift8(be, v);
    NoneJoin(be, v, Moved8(be, v), 8, 8);
  }

  lemma WordClear(be: bool, v: bv32)
    ensures v == 0 <==> NoneBefore(be, v, 32)
  {
    assert v == 0 <==> Clear16(be, v) && Clear16(be, Moved16(be, v));
    hide Clear16, Moved16, NoneBefore, Shifted;
    Clear16Is(be, v);
    Clear16Is(be, Moved16(be, v));
    Shift16(be, v);
    NoneJoin(be, v, Moved16(be, v), 16, 16);
  }

  ghost predicate IsFirst(be: bool, v: bv32, k: int) {
    0 <= k < 32 && BitAt(be, v, k) && NoneBefore(be, v, k)
  }

  /** One step of the binary search: v has a bit in its first 2n; w is v without the first n. */
  lemma Halve(be: bool, v: bv32, w: bv32, n: nat, clear: bool)
    requires clear <==> NoneBefore(be, v, n)
    requires Shifted(be, v, w, n) && !NoneBefore(be, v, 2 * n) && n <= 16
    ensures clear ==> !NoneBefore(be, w, n) && forall k :: 0 <= k < n && IsFirst(be, w, k) ==> IsFirst(be, v, k + n)
  {
    hide BitAt;
    NoneJoin(be, v, w, n, n);
    if clear {
      forall k | 0 <= k < n && IsFirst(be, w, k) ensures IsFirst(be, v, k + n) {
        NoneJoin(be, v, w, n, k);
        assert BitAt(be, w, k) == BitAt(be, v, k + n);
      }
    }
  }

  lemma HalveAll(be: bool, v: bv32)
    ensures Clear1(be, v) <==> NoneBefore(be, v, 1)
    ensures Clear2(be, v) <==> NoneBefore(be, v, 2)
    ensures Clear4(be, v) <==> NoneBefore(be, v, 4)
    ensures Clear8(be, v) <==> NoneBefore(be, v, 8)
    ensures Clear16(be, v) <==> NoneBefore(be, v, 16)
    ensures Shifted(be, v, Moved1(be, v), 1) && Shifted(be, v, Moved2(be, v), 2) && Shifted(be, v, Moved4(be, v), 4)
    ensures Shifted(be, v, Moved8(be, v), 8) && Shifted(be, v, Moved16(be, v), 16)
  {
    hide NoneBefore, Shifted, Clear1, Clear2, Clear4, Clear8, Clear16, Moved1, Moved2, Moved4, Moved8, Moved16;
    Clear1Is(be, v);
    Clear2Is(be, v);
    Clear4Is(be, v);
    Clear8Is(be, v);
    Clear16Is(be, v);
    Shift1(be, v);
    Shift2(be, v);
    Shift4(be, v);
    Shift8(be, v);
    Shift16(be, v);
  }

  /** The in-word search: five tests instead of up to 32. */
  method FirstInWord(be: bool, v0: bv32) returns (position: int)
    requires v0 != 0
    ensures IsFirst(be, v0, position)
  {
    hide NoneBefore, Shifted, IsFirst, BitAt, Clear1, Clear2, Clear4, Clear8, Clear16, Moved1, Moved2, Moved4, Moved8,
         Moved16;
    WordClear(be, v0);
    var v := v0;
    position := 0;
    ghost var v16 := v;
    HalveAll(be, v);
    Halve(be, v, Moved16(be, v), 16, Clear16(be, v));
    if Clear16(be, v) {
      v := Moved16(be, v);
      position := position + 16;
    }
    ghost var v8 := v;
    HalveAll(be, v);
    Halve(be, v, Moved8(be, v), 8, Clear8(be, v));
    if Clear8(be, v) {
      v := Moved8(be, v);
      position := position + 8;
    }
    ghost var v4 := v;
    HalveAll(be, v);
    Halve(be, v, Moved4(be, v), 4, Clear4(be, v));
    if Clear4(be, v) {
      v := Moved4(be, v);
      position := position + 4;
    }
    ghost var v2 := v;
    HalveAll(be, v);
    Halve(be, v, Moved2(be, v), 2, Clear2(be, v));
    if Clear2(be, v) {
      v := Moved2(be, v);
      position := position + 2;
    }
    ghost var v1 := v;
    FirstOfTwo(be, v);
    if Clear1(be, v) {
      position := position + 1;
    }
    ghost var p := if Clear1(be, v1) then 1 else 0;
    p := if Clear2(be, v2) then p + 2 else p;
    assert IsFirst(be, v2, p) && p < 4;
    p := if Clear4(be, v4) then p + 4 else p;
    assert IsFirst(be, v4, p) && p < 8;
    p := if Clear8(be, v8) then p + 8 else p;
    assert IsFirst(be, v8, p) && p < 16;
    p := if Clear16(be, v16) then p + 16 else p;
    assert position == p;
  }

  lemma FirstOfTwo(be: bool, v: bv32)
    requires !NoneBefore(be, v, 2)
    ensures IsFirst(be, v, if Clear1(be, v) then 1 else 0)
  {
    hide Moved1, Clear1;
    assert BitAt(be, v, 0) == !Clear1(be, v);
  }

  // ---- the mask for the first word ----

  /** ((UW)1 << (32 - n)) - 1 or ~(((UW)1 << n) - 1) */
  function FirstMask(be: bool, n: int): bv32
    requires 0 < n < 32
  {
    if be then ((1 as bv32) << (32 - n)) - 1 else !(((1 as bv32) << n) - 1)
  }

  function Masked(be: bool, w: bv32, n: int): bv32
    requires 0 < n < 32
  {
    w & FirstMask(be, n)
  }

  /** All but the first n bits. */
  function KeepFrom(be: bool, n: nat): bv32 {
    if n == 0 then 0xffffffff else NextMask(be, KeepFrom(be, n - 1))
  }

  function Kept(be: bool, w: bv32, n: nat): bv32 {
    w & KeepFrom(be, n)
  }

  lemma KeptStep(be: bool, w: bv32, n: nat)
    requires n > 0
    ensures Clear1(be, Kept(be, w, n)) && Moved1(be, Kept(be, w, n)) == Kept(be, Moved1(be, w), n - 1)
  {
    hide Clear1, Moved1, KeepFrom, Kept, And, NextMask;
    var m := KeepFrom(be, n - 1);
    KeepStep(be, n);
    KeptIs(be, w, n, NextMask(be, m));
    KeptIs(be, Moved1(be, w), n - 1, m);
    MaskStep(be, w, m);
  }

  lemma KeepStep(be: bool, n: nat)
    requires n > 0
    ensures KeepFrom(be, n) == NextMask(be, KeepFrom(be, n - 1))
  {
  }

  function NextMask(be: bool, m: bv32): bv32 {
    if be then m >> 1 else m << 1
  }

  lemma KeptIs(be: bool, w: bv32, n: nat, m: bv32)
    requires m == KeepFrom(be, n)
    ensures Kept(be, w, n) == And(w, m)
  {
  }

  function And(w: bv32, m: bv32): bv32 {
    w & m
  }

  lemma MaskStep(be: bool, w: bv32, m: bv32)
    ensures Clear1(be, And(w, NextMask(be, m))) && Moved1(be, And(w, NextMask(be, m))) == And(Moved1(be, w), m)
  {
    MaskStepBits(be, w, m);
  }

  lemma MaskStepBits(be: bool, w: bv32, m: bv32)
    ensures be ==> (w & (m >> 1)) & 0x80000000 == 0 && (w & (m >> 1)) << 1 == (w << 1) & m
    ensures !be ==> (w & (m << 1)) & 0x1 == 0 && (w & (m << 1)) >> 1 == (w >> 1) & m
  {
  }

  lemma KeptAll(be: bool, w: bv32)
    ensures Kept(be, w, 0) == w
  {
  }

  lemma {:induction false} KeptBits(be: bool, w: bv32, n: nat, k: nat)
    ensures BitAt(be, Kept(be, w, n), k) <==> k >= n && BitAt(be, w, k)
    decreases n
  {
    hide Moved1, Clear1, Kept;
    if n == 0 {
      KeptAll(be, w);
    } else {
      KeptStep(be, w, n);
      if k > 0 { KeptBits(be, Moved1(be, w), n - 1, k - 1); }
    }
  }

  lemma {:induction false} FirstMaskKeeps(be: bool, n: int)
    requires 0 < n < 32
    ensures FirstMask(be, n) == KeepFrom(be, n)
  {
    if n > 1 {
      FirstMaskKeeps(be, n - 1);
      FirstMaskStep(be, n);
      KeepStep(be, n);
    } else {
      assert KeepFrom(be, 0) == 0xffffffff;
    }
  }

  lemma FirstMaskStep(be: bool, n: int)
    requires 1 < n < 32
    ensures FirstMask(be, n) == NextMask(be, FirstMask(be, n - 1))
  {
    var m := if be then 33 - n else n;
    Doubling(m);
    OneBit(m - 1);
    LowBits((1 as bv32) << (m - 1));
  }

  lemma LowBits(x: bv32)
    ensures !((x << 1) - 1) == !(x - 1) << 1
    ensures 0 < x <= 0x80000000 ==> ((x << 1) - 1) >> 1 == x - 1
  {
  }

  lemma Doubling(n: int)
    requires 2 <= n < 32
    ensures (1 as bv32) << n == ((1 as bv32) << (n - 1)) << 1
  {
    assert n == 2 || n == 3 || n == 4 || n == 5 || n == 6 || n == 7 || n == 8 || n == 9 || n == 10 || n == 11 ||
           n == 12 || n == 13 || n == 14 || n == 15 || n == 16 || n == 17 || n == 18 || n == 19 || n == 20 ||
           n == 21 || n == 22 || n == 23 || n == 24 || n == 25 || n == 26 || n == 27 || n == 28 || n == 29 ||
           n == 30 || n == 31;
  }

  lemma OneBit(n: int)
    requires 0 <= n < 32
    ensures 0 < (1 as bv32) << n <= 0x80000000
  {
    assert n == 0 || n == 1 || n == 2 || n == 3 || n == 4 || n == 5 || n == 6 || n == 7 || n == 8 || n == 9 ||
           n == 10 || n == 11 || n == 12 || n == 13 || n == 14 || n == 15 || n == 16 || n == 17 || n == 18 ||
           n == 19 || n == 20 || n == 21 || n == 22 || n == 23 || n == 24 || n == 25 || n == 26 || n == 27 ||
           n == 28 || n == 29 || n == 30 || n == 31;
  }

  // ---- the search by words ----

  function WordBits(be: bool, base: seq<bv32>): (bits: seq<bool>)
    ensures |bits| == 32 * |base|
    ensures forall i {:trigger bits[i]} :: 0 <= i < |bits| ==> bits[i] == BitAt(be, base[i / 32], i % 32)
  {
    seq(32 * |base|, i requires 0 <= i < 32 * |base| => BitAt(be, base[i / 32], i % 32))
  }

  /** What is read: the words that hold the bits, and one word more only if these words
      have no 1 from the offset on. */
  ghost predicate Readable(be: bool, base: seq<bv32>, offset: int, width: int)
    requires 0 <= offset && 0 <= width
  {
    && offset / 32 < |base|
    && (width > 0 ==>
          var last := (offset + width - 1) / 32;
          last < |base| && (last + 1 < |base| || !Unfit(WordBits(be, base), true, offset, 32 * (last + 1))))
  }

  method BinSearch(be: bool, base: seq<bv32>, offset: int, width: int) returns (r: int)
    requires 0 <= offset && 0 <= width ==> Readable(be, base, offset, width)
    ensures offset < 0 || width < 0 ==> r == -1
    ensures 0 <= offset && 0 <= width ==>
              && offset + width <= 32 * |base|
              && IsLeast(WordBits(be, base), true, offset, width, r)
  {
    hide BitAt, IsFirst, NoneBefore, Unfit, IsLeast, WordBits;
    if offset < 0 || width < 0 {
      return -1;
    }
    ghost var bits := WordBits(be, base);
    var cp := offset / 32;
    var v := FirstWord(be, base, offset);
    var position := 0;
    LeastNone(bits, true, offset, width);
    while position < width
      invariant 0 <= position && cp == (offset + position) / 32 < |base|
                && (position == 0 || (offset + position) % 32 == 0)
      invariant position < width + 32 && offset + width <= |bits|
      invariant Unfit(bits, true, offset, if position < width then offset + position else offset + width)
      invariant Sees(be, base, cp, offset + position, v)
      decreases width - position
    {
      ghost var at := offset + position;
      if v != 0 {
        if position == 0 { position := position - offset % 32; }
        var k := FirstInWord(be, v);
        position := position + k;
        FirstSeen(be, base, cp, at, v, k);
        UnfitTrans(bits, true, offset, at, 32 * cp + k);
        LeastFound(bits, true, offset, width, 32 * cp + k);
        if position < width {
          return position;
        } else {
          return -1;
        }
      } else {
        ZeroSeen(be, base, cp, at, v);
        UnfitTrans(bits, true, offset, at, 32 * (cp + 1));
        NextWord(be, base, offset, width, at);
        UnfitJoin(bits, true, offset, at, 32 * (cp + 1), offset + width);
        if position != 0 {
          position := position + 32;
        } else {
          position := 32 - offset % 32;
        }
        cp := cp + 1;
        v := base[cp];
        SeesWhole(be, base, cp);
      }
    }
    return -1;
  }

  lemma NextWord(be: bool, base: seq<bv32>, offset: int, width: int, at: int)
    requires 0 <= offset <= at < offset + width && Readable(be, base, offset, width)
    requires at / 32 < |base| && Unfit(WordBits(be, base), true, offset, 32 * (at / 32 + 1))
    ensures at / 32 + 1 < |base| && at < 32 * (at / 32 + 1) <= at + 32
  {
  }

  /** What v shows of word cp: its bits from position at on. */
  ghost predicate Sees(be: bool, base: seq<bv32>, cp: int, at: int, v: bv32)
    requires 0 <= cp < |base|
  {
    && 32 * cp <= at < 32 * cp + 32
    && forall k: nat :: k < 32 ==> BitAt(be, v, k) == (32 * cp + k >= at && BitAt(be, base[cp], k))
  }

  lemma SeesWhole(be: bool, base: seq<bv32>, cp: int)
    requires 0 <= cp < |base|
    ensures Sees(be, base, cp, 32 * cp, base[cp])
  {
  }

  /** The first word, without the bits before the offset. */
  method FirstWord(be: bool, base: seq<bv32>, offset: int) returns (v: bv32)
    requires 0 <= offset && offset / 32 < |base|
    ensures Sees(be, base, offset / 32, offset, v)
  {
    hide BitAt, Masked, KeepFrom, Kept;
    var cp, n := offset / 32, offset % 32;
    if n != 0 {
      v := Masked(be, base[cp], n);
      MaskedIsKept(be, base[cp], n, v);
      forall k: nat | k < 32 ensures BitAt(be, v, k) == (32 * cp + k >= offset && BitAt(be, base[cp], k)) {
        KeptBits(be, base[cp], n, k);
      }
    } else {
      v := base[cp];
    }
  }

  lemma MaskedIsKept(be: bool, w: bv32, n: int, v: bv32)
    requires 0 < n < 32 && v == Masked(be, w, n)
    ensures v == Kept(be, w, n)
  {
    hide FirstMask, KeepFrom;
    FirstMaskKeeps(be, n);
  }

  lemma FirstSeen(be: bool, base: seq<bv32>, cp: int, at: int, v: bv32, k: int)
    requires 0 <= cp < |base| && Sees(be, base, cp, at, v) && IsFirst(be, v, k)
    ensures at <= 32 * cp + k < |WordBits(be, base)| && WordBits(be, base)[32 * cp + k]
    ensures Unfit(WordBits(be, base), true, at, 32 * cp + k)
  {
    hide BitAt;
    var bits := WordBits(be, base);
    assert (32 * cp + k) / 32 == cp && (32 * cp + k) % 32 == k;
    forall i | at <= i < 32 * cp + k ensures !bits[i] {
      assert i / 32 == cp && i % 32 == i - 32 * cp;
      assert !BitAt(be, v, i - 32 * cp);
    }
  }

  lemma ZeroSeen(be: bool, base: seq<bv32>, cp: int, at: int, v: bv32)
    requires 0 <= cp < |base| && Sees(be, base, cp, at, v) && v == 0
    ensures Unfit(WordBits(be, base), true, at, 32 * (cp + 1))
  {
    WordClear(be, v);
    hide BitAt;
    var bits := WordBits(be, base);
    forall i | at <= i < 32 * (cp + 1) ensures !bits[i] {
      assert i / 32 == cp && i % 32 == i - 32 * cp;
      assert !BitAt(be, v, i - 32 * cp);
    }
  }

  // ---- the byte-wise searches ----

  /** _BIT_SET_N */
  function BitMask(be: bool, n: int): bv8
    requires 0 <= n < 8
  {
    if be then (0x80 as bv8) >> n else (0x01 as bv8) << n
  }

  /** _BIT_SHIFT */
  function NextBit(be: bool, mask: bv8): bv8 {
    if be then mask >> 1 else mask << 1
  }

  predicate ByteBit(be: bool, b: bv8, k: int)
    requires 0 <= k < 8
  {
    b & BitMask(be, k) != 0
  }

  function ByteBits(be: bool, bytes: seq<bv8>): (bits: seq<bool>)
    ensures |bits| == 8 * |bytes|
    ensures forall i {:trigger bits[i]} :: 0 <= i < |bits| ==> bits[i] == ByteBit(be, bytes[i / 8], i % 8)
  {
    seq(8 * |bytes|, i requires 0 <= i < 8 * |bytes| => ByteBit(be, bytes[i / 8], i % 8))
  }

  lemma NextMaskBit(be: bool, n: int)
    requires 0 <= n < 8
    ensures NextBit(be, BitMask(be, n)) == (if n < 7 then BitMask(be, n + 1) else 0) && NextBit(be, 0) == 0
  {
    assert n == 0 || n == 1 || n == 2 || n == 3 || n == 4 || n == 5 || n == 6 || n == 7;
  }

  lemma NoBits(be: bool, b: bv8)
    ensures b == 0 <==> forall k :: 0 <= k < 8 ==> !ByteBit(be, b, k)
    ensures b == 0xff <==> forall k :: 0 <= k < 8 ==> ByteBit(be, b, k)
  {
    EightBits(b);
    EightMasks(be);
    hide BitMask;
    assert ByteBit(be, b, 0) == (b & BitMask(be, 0) != 0) && ByteBit(be, b, 1) == (b & BitMask(be, 1) != 0)
           && ByteBit(be, b, 2) == (b & BitMask(be, 2) != 0) && ByteBit(be, b, 3) == (b & BitMask(be, 3) != 0)
           && ByteBit(be, b, 4) == (b & BitMask(be, 4) != 0) && ByteBit(be, b, 5) == (b & BitMask(be, 5) != 0)
           && ByteBit(be, b, 6) == (b & BitMask(be, 6) != 0) && ByteBit(be, b, 7) == (b & BitMask(be, 7) != 0);
  }

  lemma EightMasks(be: bool)
    ensures BitMask(be, if be then 0 else 7) == 0x80 && BitMask(be, if be then 1 else 6) == 0x40
    ensures BitMask(be, if be then 2 else 5) == 0x20 && BitMask(be, if be then 3 else 4) == 0x10
    ensures BitMask(be, if be then 4 else 3) == 0x08 && BitMask(be, if be then 5 else 2) == 0x04
    ensures BitMask(be, if be then 6 else 1) == 0x02 && BitMask(be, if be then 7 else 0) == 0x01
  {
  }

  lemma EightBits(b: bv8)
    ensures b == 0 <==> b & 0x80 == 0 && b & 0x40 == 0 && b & 0x20 == 0 && b & 0x10 == 0
                        && b & 0x08 == 0 && b & 0x04 == 0 && b & 0x02 == 0 && b & 0x01 == 0
    ensures b == 0xff <==> b & 0x80 != 0 && b & 0x40 != 0 && b & 0x20 != 0 && b & 0x10 != 0
                           && b & 0x08 != 0 && b & 0x04 != 0 && b & 0x02 != 0 && b & 0x01 != 0
  {
  }

  /** The first byte is not skipped although its searched bits are all unwanted. */
  predicate Missed(be: bool, bytes: seq<bv8>, want: bool, offset: int, width: int)
    requires 0 <= offset && 0 <= width && offset + width <= 8 * |bytes|
  {
    && width > 0 && (exists k :: 0 <= k < offset % 8 && ByteBit(be, bytes[offset / 8], k) == want)
    && forall k :: offset % 8 <= k < 8 ==> ByteBit(be, bytes[offset / 8], k) != want
  }

  /** From a byte boundary on that cannot happen. */
  lemma AlignedNotMissed(be: bool, bytes: seq<bv8>, want: bool, offset: int, width: int)
    requires 0 <= offset && 0 <= width && offset + width <= 8 * |bytes| && offset % 8 == 0
    ensures !Missed(be, bytes, want, offset, width)
  {
  }

  /** The inner loop of tstdlib_bitsearch1: at is where it starts, k a bit that ends it. */
  method Scan1(be: bool, bytes: seq<bv8>, cp: int, offset: int, width: int, position0: int, mask0: bv8, ghost k: int)
    returns (r: int)
    requires 0 <= offset && 0 <= position0 && 0 <= width && offset + width <= 8 * |bytes| && 0 <= cp < |bytes|
    requires 8 * cp <= offset + position0 <= 8 * cp + k < 8 * cp + 8
    requires mask0 == BitMask(be, offset + position0 - 8 * cp) && ByteBit(be, bytes[cp], k) == true
    requires Unfit(ByteBits(be, bytes), true, offset, offset + position0)
    ensures IsLeast(ByteBits(be, bytes), true, offset, width, r)
  {
    hide ByteBit, BitMask, NextBit, Unfit, IsLeast, ByteBits;
    ghost var bits := ByteBits(be, bytes);
    ByteAt(be, bytes, cp, 8 * cp + k);
    var position, mask := position0, mask0;
    while true
      invariant position0 <= position && offset + position <= 8 * cp + k
                && mask == BitMask(be, offset + position - 8 * cp)
      invariant Unfit(bits, true, offset, offset + position)
      decreases 8 * cp + k - position
    {
      ByteAt(be, bytes, cp, offset + position);
      if bytes[cp] & mask != 0 {
        LeastFound(bits, true, offset, width, offset + position);
        if position < width {
          return position;
        } else {
          return -1;
        }
      }
      NextMaskBit(be, offset + position - 8 * cp);
      UnfitOne(bits, true, offset, offset + position);
      mask := NextBit(be, mask);
      position := position + 1;
    }
  }

  /** tstdlib_bitsearch1, on all inputs that it treats as intended. */
  method BitSearch1(be: bool, bytes: seq<bv8>, offset: int, width: int) returns (r: int)
    requires 0 <= offset && 0 <= width ==> offset + width <= 8 * |bytes| && !Missed(be, bytes, true, offset, width)
    ensures offset < 0 || width < 0 ==> r == -1
    ensures 0 <= offset && 0 <= width ==> IsLeast(ByteBits(be, bytes), true, offset, width, r)
  {
    hide ByteBit, BitMask, NextBit, Unfit, IsLeast, ByteBits, Missed;
    if offset < 0 || width < 0 {
      return -1;
    }
    ghost var bits := ByteBits(be, bytes);
    var cp := offset / 8;
    var position := 0;
    var mask := BitMask(be, offset % 8);
    LeastNone(bits, true, offset, width);
    while position < width
      invariant 0 <= position && 8 * cp <= offset + position < 8 * cp + 8
      invariant position == 0 || offset + position == 8 * cp
      invariant mask == BitMask(be, offset + position - 8 * cp)
      invariant Unfit(bits, true, offset, if position < width then offset + position else offset + width)
      decreases width - position
    {
      ghost var at := offset + position;
      if bytes[cp] != 0 {
        ghost var k := Stops(be, bytes, true, offset, width, cp, at);
        r := Scan1(be, bytes, cp, offset, width, position, mask, k);
        return;
      } else {
        SkipByte(be, bytes, true, cp, at);
        UnfitJoin(bits, true, offset, at, 8 * (cp + 1), offset + width);
        if position != 0 {
          position := position + 8;
        } else {
          position := 8 - offset % 8;
          mask := BitMask(be, 0);
        }
        cp := cp + 1;
      }
    }
    return -1;
  }

  /** The inner loop of tstdlib_bitsearch0. Once the mask has lost its bit the test
      succeeds, so that position 8 of the byte passes for a 0; k is where the loop ends. */
  method Scan0(be: bool, bytes: seq<bv8>, cp: int, offset: int, width: int, position0: int, mask0: bv8, ghost k: int)
    returns (r: int)
    requires 0 <= offset && 0 <= position0 && 0 <= width && offset + width <= 8 * |bytes| && 0 <= cp < |bytes|
    requires 8 * cp <= offset + position0 < 8 * cp + 8 && offset + position0 <= 8 * cp + k <= 8 * cp + 8
    requires mask0 == BitMask(be, offset + position0 - 8 * cp) && (k < 8 ==> !ByteBit(be, bytes[cp], k))
    requires forall j :: offset + position0 - 8 * cp <= j < k ==> ByteBit(be, bytes[cp], j)
    requires Unfit(ByteBits(be, bytes), false, offset, offset + position0)
    ensures k < 8 ==> IsLeast(ByteBits(be, bytes), false, offset, width, r)
    ensures r == if 8 * cp + k - offset < width then 8 * cp + k - offset else -1
  {
    hide ByteBit, BitMask, NextBit, Unfit, IsLeast, ByteBits;
    ghost var bits := ByteBits(be, bytes);
    var position, mask := position0, mask0;
    while true
      invariant position0 <= position && offset + position <= 8 * cp + k
      invariant mask == MaskAt(be, offset + position - 8 * cp)
      invariant Unfit(bits, false, offset, offset + position)
      decreases 8 * cp + k - position
    {
      MaskTest(be, bytes[cp], offset + position - 8 * cp);
      if bytes[cp] & mask == 0 {
        if k < 8 {
          ByteAt(be, bytes, cp, offset + position);
          LeastFound(bits, false, offset, width, offset + position);
        }
        if position < width {
          return position;
        } else {
          return -1;
        }
      }
      ByteAt(be, bytes, cp, offset + position);
      NextMaskBit(be, offset + position - 8 * cp);
      UnfitOne(bits, false, offset, offset + position);
      mask := NextBit(be, mask);
      position := position + 1;
    }
  }

  function MaskAt(be: bool, n: int): bv8
    requires 0 <= n <= 8
  {
    if n < 8 then BitMask(be, n) else 0
  }

  lemma MaskTest(be: bool, b: bv8, n: int)
    requires 0 <= n <= 8
    ensures b & MaskAt(be, n) != 0 <==> n < 8 && ByteBit(be, b, n)
  {
    assert b & 0 == 0;
    hide BitMask;
  }

  /** tstdlib_bitsearch0: the first 0, or what it takes for one if the first byte is missed. */
  method BitSearch0(be: bool, bytes: seq<bv8>, offset: int, width: int) returns (r: int)
    requires 0 <= offset && 0 <= width ==> offset + width <= 8 * |bytes|
    ensures offset < 0 || width < 0 ==> r == -1
    ensures 0 <= offset && 0 <= width && !Missed(be, bytes, false, offset, width)
            ==> IsLeast(ByteBits(be, bytes), false, offset, width, r)
    ensures 0 <= offset && 0 <= width && Missed(be, bytes, false, offset, width) ==>
              r == if 8 - offset % 8 < width then 8 - offset % 8 else -1
  {
    hide ByteBit, BitMask, NextBit, Unfit, IsLeast, ByteBits;
    if offset < 0 || width < 0 {
      return -1;
    }
    ghost var bits := ByteBits(be, bytes);
    var cp := offset / 8;
    var position := 0;
    var mask := BitMask(be, offset % 8);
    LeastNone(bits, false, offset, width);
    while position < width
      invariant 0 <= position && 8 * cp <= offset + position < 8 * cp + 8
      invariant position == 0 || (offset + position == 8 * cp && !Missed(be, bytes, false, offset, width))
      invariant mask == BitMask(be, offset + position - 8 * cp)
      invariant Unfit(bits, false, offset, if position < width then offset + position else offset + width)
      decreases width - position
    {
      ghost var at := offset + position;
      if bytes[cp] != 0xff {
        ghost var k := FirstZero(be, bytes[cp], at - 8 * cp);
        ZeroMissed(be, bytes, offset, width, cp, at, k);
        r := Scan0(be, bytes, cp, offset, width, position, mask, k);
        return;
      } else {
        SkipByte(be, bytes, false, cp, at);
        FullNotMissed(be, bytes, offset, width, cp, at);
        UnfitJoin(bits, false, offset, at, 8 * (cp + 1), offset + width);
        if position != 0 {
          position := position + 8;
        } else {
          position := 8 - offset % 8;
          mask := BitMask(be, 0);
        }
        cp := cp + 1;
      }
    }
    LeastNone(bits, false, offset, width);
    return -1;
  }

  lemma FirstZero(be: bool, b: bv8, n: int) returns (k: int)
    requires 0 <= n <= 8
    ensures n <= k <= 8 && (k < 8 ==> !ByteBit(be, b, k)) && forall j :: n <= j < k ==> ByteBit(be, b, j)
    decreases 8 - n
  {
    hide ByteBit;
    if n == 8 || !ByteBit(be, b, n) {
      k := n;
    } else {
      k := FirstZero(be, b, n + 1);
    }
  }

  lemma ZeroMissed(be: bool, bytes: seq<bv8>, offset: int, width: int, cp: int, at: int, k: int)
    requires 0 <= offset <= at < offset + width <= 8 * |bytes| && 8 * cp <= at < 8 * cp + 8
    requires at == offset || (at == 8 * cp && !Missed(be, bytes, false, offset, width))
    requires bytes[cp] != 0xff && at - 8 * cp <= k <= 8 && (k < 8 ==> !ByteBit(be, bytes[cp], k))
    requires forall j :: at - 8 * cp <= j < k ==> ByteBit(be, bytes[cp], j)
    ensures k == 8 <==> Missed(be, bytes, false, offset, width)
    ensures k == 8 ==> 8 * cp + 8 - offset == 8 - offset % 8
  {
    hide ByteBit;
    NoBits(be, bytes[cp]);
    assert at == offset ==> cp == offset / 8 && offset % 8 == offset - 8 * cp;
    if k == 8 {
      var j :| 0 <= j < 8 && !ByteBit(be, bytes[cp], j);
      assert j < at - 8 * cp;
    }
  }

  lemma FullNotMissed(be: bool, bytes: seq<bv8>, offset: int, width: int, cp: int, at: int)
    requires 0 <= offset <= at < offset + width <= 8 * |bytes| && 8 * cp <= at < 8 * cp + 8 && bytes[cp] == 0xff
    requires at == offset || !Missed(be, bytes, false, offset, width)
    ensures !Missed(be, bytes, false, offset, width)
  {
    hide ByteBit;
    NoBits(be, bytes[cp]);
    assert at == offset ==> cp == offset / 8;
  }

  /** A search for 0 that misses is right exactly when the bit after the byte is a 0, or
      is not among those searched. */
  lemma MissedZeroRight(be: bool, bytes: seq<bv8>, offset: int, width: int)
    requires 0 <= offset && 0 <= width && offset + width <= 8 * |bytes| && Missed(be, bytes, false, offset, width)
    ensures var p, bits := 8 - offset % 8, ByteBits(be, bytes);
            IsLeast(bits, false, offset, width, if p < width then p else -1) <==> p >= width || !bits[offset + p]
  {
    hide ByteBit;
    var p, bits := 8 - offset % 8, ByteBits(be, bytes);
    var end := if p < width then p else width;
    forall i | offset <= i < offset + end ensures bits[i] {
      assert i / 8 == offset / 8 && i % 8 >= offset % 8;
    }
  }

  /** The mask of the inner loops after n rounds. */
  function MaskAfter(be: bool, start: int, n: nat): bv8
    requires 0 <= start < 8
  {
    if n == 0 then BitMask(be, start) else NextBit(be, MaskAfter(be, start, n - 1))
  }

  lemma {:induction false} MaskAfterIs(be: bool, start: int, n: nat)
    requires 0 <= start < 8
    ensures MaskAfter(be, start, n) == MaskAt(be, if start + n < 8 then start + n else 8)
  {
    hide BitMask, NextBit;
    if n > 0 {
      MaskAfterIs(be, start, n - 1);
      NextMaskBit(be, if start + n - 1 < 8 then start + n - 1 else 7);
    }
  }

  /** *cp & mask in round n. */
  predicate Hits(be: bool, b: bv8, start: int, n: nat)
    requires 0 <= start < 8
  {
    b & MaskAfter(be, start, n) != 0
  }

  /** The inner loop of tstdlib_bitsearch1 ends if and only if the byte has a 1 at the
      offset or after it: once the mask has lost its bit, no test succeeds. */
  lemma Search1Ends(be: bool, b: bv8, start: int)
    requires 0 <= start < 8
    ensures (exists n: nat :: Hits(be, b, start, n)) <==> exists k :: start <= k < 8 && ByteBit(be, b, k)
  {
    hide ByteBit, MaskAfter, BitMask, MaskAt;
    forall n: nat
      ensures Hits(be, b, start, n) <==> start + n < 8 && ByteBit(be, b, start + n)
    {
      MaskAfterIs(be, start, n);
      MaskTest(be, b, if start + n < 8 then start + n else 8);
    }
    if exists k :: start <= k < 8 && ByteBit(be, b, k) {
      var k :| start <= k < 8 && ByteBit(be, b, k);
      assert Hits(be, b, start, k - start);
    }
  }

  /** The byte is not skipped, and no round of the mask ends its inner loop. */
  ghost predicate Spins(be: bool, b: bv8, start: int)
    requires 0 <= start < 8
  {
    b != 0 && forall n: nat :: !Hits(be, b, start, n)
  }

  /** A call of tstdlib_bitsearch1 gets stuck in its first byte if and only if it is
      Missed, and in no later byte, where the mask starts at the first bit. */
  lemma SearchSpins(be: bool, bytes: seq<bv8>, offset: int, width: int)
    requires 0 <= offset && 0 < width && offset + width <= 8 * |bytes|
    ensures Spins(be, bytes[offset / 8], offset % 8) <==> Missed(be, bytes, true, offset, width)
    ensures forall cp :: 0 <= cp < |bytes| ==> !Spins(be, bytes[cp], 0)
  {
    hide ByteBit, Spins;
    SpinsIs(be, bytes[offset / 8], offset % 8);
    forall cp | 0 <= cp < |bytes| ensures !Spins(be, bytes[cp], 0) { SpinsIs(be, bytes[cp], 0); }
  }

  lemma SpinsIs(be: bool, b: bv8, start: int)
    requires 0 <= start < 8
    ensures Spins(be, b, start) <==>
              && (exists k :: 0 <= k < start && ByteBit(be, b, k))
              && (forall k :: start <= k < 8 ==> !ByteBit(be, b, k))
  {
    hide ByteBit, Hits;
    Search1Ends(be, b, start);
    NoBits(be, b);
  }

  /** A byte that is not skipped has a wanted bit from at on. */
  lemma Stops(be: bool, bytes: seq<bv8>, want: bool, offset: int, width: int, cp: int, at: int) returns (k: int)
    requires 0 <= offset <= at < offset + width <= 8 * |bytes| && 8 * cp <= at < 8 * cp + 8
             && (at == offset || at == 8 * cp)
    requires !Missed(be, bytes, want, offset, width) && bytes[cp] != (if want then 0 else 0xff)
    ensures at - 8 * cp <= k < 8 && ByteBit(be, bytes[cp], k) == want
  {
    hide ByteBit;
    NoBits(be, bytes[cp]);
    var j :| 0 <= j < 8 && ByteBit(be, bytes[cp], j) == want;
    assert at == offset ==> cp == offset / 8;
    if at == offset && j < offset % 8 {
      k :| offset % 8 <= k < 8 && ByteBit(be, bytes[offset / 8], k) == want;
    } else {
      k := j;
    }
  }

  lemma ByteAt(be: bool, bytes: seq<bv8>, cp: int, i: int)
    requires 0 <= cp < |bytes| && 8 * cp <= i < 8 * cp + 8
    ensures 0 <= i < |ByteBits(be, bytes)|
    ensures ByteBits(be, bytes)[i] == (bytes[cp] & BitMask(be, i - 8 * cp) != 0)
    ensures ByteBits(be, bytes)[i] == ByteBit(be, bytes[cp], i - 8 * cp)
  {
    hide BitMask;
    assert i / 8 == cp && i % 8 == i - 8 * cp;
  }

  lemma SkipByte(be: bool, bytes: seq<bv8>, want: bool, cp: int, at: int)
    requires 0 <= cp < |bytes| && 8 * cp <= at < 8 * cp + 8 && bytes[cp] == (if want then 0 else 0xff)
    ensures Unfit(ByteBits(be, bytes), want, at, 8 * (cp + 1))
  {
    hide ByteBit;
    NoBits(be, bytes[cp]);
    forall i | at <= i < 8 * (cp + 1) ensures ByteBits(be, bytes)[i] != want {
      assert i / 8 == cp;
    }
  }

  // ---- words as bytes ----

  /** Byte i of a word in memory. */
  function ByteOf(be: bool, v: bv32, i: int): bv8
    requires 0 <= i < 4
  {
    var w := if i == 0 then v else if i == 1 then Moved8(be, v) else if i == 2 then Moved16(be, v)
        else Moved8(be, Moved16(be, v));
    FirstByte(be, w)
  }

  function FirstByte(be: bool, v: bv32): bv8 {
    if be then ((v >> 24) & 0xff) as bv8 else (v & 0xff) as bv8
  }

  function BytesOf(be: bool, base: seq<bv32>): (bytes: seq<bv8>)
    ensures |bytes| == 4 * |base|
    ensures forall i {:trigger bytes[i]} :: 0 <= i < |bytes| ==> bytes[i] == ByteOf(be, base[i / 4], i % 4)
  {
    seq(4 * |base|, i requires 0 <= i < 4 * |base| => ByteOf(be, base[i / 4], i % 4))
  }

  /** A word whose first bit is bit k of v. */
  function From(be: bool, v: bv32, k: int): bv32
    requires 0 <= k < 8
  {
    if k == 0 then v
    else if k == 1 then Moved1(be, v)
    else if k == 2 then Moved2(be, v)
    else if k == 3 then Moved1(be, Moved2(be, v))
    else if k == 4 then Moved4(be, v)
    else if k == 5 then Moved1(be, Moved4(be, v))
    else if k == 6 then Moved2(be, Moved4(be, v))
    else Moved1(be, Moved2(be, Moved4(be, v)))
  }

  lemma FromBit(be: bool, v: bv32, k: int)
    requires 0 <= k < 8
    ensures BitAt(be, v, k) == BitAt(be, From(be, v, k), 0)
  {
    hide Moved1, Moved2, Moved4, BitAt;
    if k == 1 {
      MovedBit1(be, v, 0);
    } else if k == 2 {
      MovedBit2(be, v, 0);
    } else if k == 3 {
      MovedBit1(be, Moved2(be, v), 0);
      MovedBit2(be, v, 1);
    } else if k == 4 {
      MovedBit4(be, v, 0);
    } else if k == 5 {
      MovedBit1(be, Moved4(be, v), 0);
      MovedBit4(be, v, 1);
    } else if k == 6 {
      MovedBit2(be, Moved4(be, v), 0);
      MovedBit4(be, v, 2);
    } else if k == 7 {
      MovedBit1(be, Moved2(be, Moved4(be, v)), 0);
      MovedBit2(be, Moved4(be, v), 1);
      MovedBit4(be, v, 3);
    }
  }

  lemma FirstByteBig(v: bv32)
    ensures (v & 0x80000000 != 0) == ((((v >> 24) & 0xff) as bv8) & 0x80 != 0)
    ensures ((v << 1) & 0x80000000 != 0) == ((((v >> 24) & 0xff) as bv8) & 0x40 != 0)
    ensures ((v << 2) & 0x80000000 != 0) == ((((v >> 24) & 0xff) as bv8) & 0x20 != 0)
    ensures ((v << 3) & 0x80000000 != 0) == ((((v >> 24) & 0xff) as bv8) & 0x10 != 0)
    ensures ((v << 4) & 0x80000000 != 0) == ((((v >> 24) & 0xff) as bv8) & 0x8 != 0)
    ensures ((v << 5) & 0x80000000 != 0) == ((((v >> 24) & 0xff) as bv8) & 0x4 != 0)
    ensures ((v << 6) & 0x80000000 != 0) == ((((v >> 24) & 0xff) as bv8) & 0x2 != 0)
    ensures ((v << 7) & 0x80000000 != 0) == ((((v >> 24) & 0xff) as bv8) & 0x1 != 0)
  {
  }

  lemma FirstByteLittle(v: bv32)
    ensures (v & 0x1 != 0) == (((v & 0xff) as bv8) & 0x1 != 0)
    ensures ((v >> 1) & 0x1 != 0) == (((v & 0xff) as bv8) & 0x2 != 0)
    ensures ((v >> 2) & 0x1 != 0) == (((v & 0xff) as bv8) & 0x4 != 0)
    ensures ((v >> 3) & 0x1 != 0) == (((v & 0xff) as bv8) & 0x8 != 0)
    ensures ((v >> 4) & 0x1 != 0) == (((v & 0xff) as bv8) & 0x10 != 0)
    ensures ((v >> 5) & 0x1 != 0) == (((v & 0xff) as bv8) & 0x20 != 0)
    ensures ((v >> 6) & 0x1 != 0) == (((v & 0xff) as bv8) & 0x40 != 0)
    ensures ((v >> 7) & 0x1 != 0) == (((v & 0xff) as bv8) & 0x80 != 0)
  {
  }

  /** The bits of a word's first byte are the word's first bits. */
  lemma FirstByteBit(be: bool, v: bv32, k: int)
    requires 0 <= k < 8
    ensures ByteBit(be, FirstByte(be, v), k) == BitAt(be, v, k)
  {
    hide BitAt;
    FromBit(be, v, k);
    FromMask(be, v, k);
    FirstBit(be, From(be, v, k));
  }

  lemma FirstBit(be: bool, v: bv32)
    ensures BitAt(be, v, 0) == !Clear1(be, v)
  {
  }

  lemma FromMask(be: bool, v: bv32, k: int)
    requires 0 <= k < 8
    ensures ByteBit(be, FirstByte(be, v), k) == !Clear1(be, From(be, v, k))
  {
    hide ByteBit, FirstByte, Clear1, From;
    if be { FromMaskBig(v, k); } else { FromMaskLittle(v, k); }
  }

  lemma FromMaskBig(v: bv32, k: int)
    requires 0 <= k < 8
    ensures ByteBit(true, FirstByte(true, v), k) == !Clear1(true, From(true, v, k))
  {
    FirstByteBig(v);
    ShiftSums(v);
    EightMasks(true);
    hide BitMask;
    assert k == 0 || k == 1 || k == 2 || k == 3 || k == 4 || k == 5 || k == 6 || k == 7;
  }

  lemma FromMaskLittle(v: bv32, k: int)
    requires 0 <= k < 8
    ensures ByteBit(false, FirstByte(false, v), k) == !Clear1(false, From(false, v, k))
  {
    FirstByteLittle(v);
    ShiftSums(v);
    EightMasks(false);
    hide BitMask;
    assert k == 0 || k == 1 || k == 2 || k == 3 || k == 4 || k == 5 || k == 6 || k == 7;
  }

  lemma ShiftSums(v: bv32)
    ensures (v << 2) << 1 == v << 3 && (v << 4) << 1 == v << 5 && (v << 4) << 2 == v << 6
            && ((v << 4) << 2) << 1 == v << 7
    ensures (v >> 2) >> 1 == v >> 3 && (v >> 4) >> 1 == v >> 5 && (v >> 4) >> 2 == v >> 6
            && ((v >> 4) >> 2) >> 1 == v >> 7
  {
  }

  lemma WordByteBit(be: bool, v: bv32, i: int, k: int)
    requires 0 <= i < 4 && 0 <= k < 8
    ensures ByteBit(be, ByteOf(be, v, i), k) == BitAt(be, v, 8 * i + k)
  {
    hide ByteBit, BitAt, FirstByte, Moved8, Moved16;
    if i == 0 {
      FirstByteBit(be, v, k);
    } else if i == 1 {
      FirstByteBit(be, Moved8(be, v), k);
      MovedBit8(be, v, k);
    } else if i == 2 {
      FirstByteBit(be, Moved16(be, v), k);
      MovedBit16(be, v, k);
    } else {
      FirstByteBit(be, Moved8(be, Moved16(be, v)), k);
      MovedBit8(be, Moved16(be, v), k);
      MovedBit16(be, v, k + 8);
    }
  }

  /** Words and bytes are the same bit string, in either byte order. */
  lemma SameBits(be: bool, base: seq<bv32>)
    ensures WordBits(be, base) == ByteBits(be, BytesOf(be, base))
  {
    hide ByteBit, BitAt, ByteOf;
    var a, b, bytes := WordBits(be, base), ByteBits(be, BytesOf(be, base)), BytesOf(be, base);
    forall i | 0 <= i < |a| ensures a[i] == b[i] {
      Digits(i);
      WordByteBit(be, base[i / 32], i % 32 / 8, i % 8);
      assert b[i] == ByteBit(be, bytes[i / 8], i % 8);
    }
  }

  lemma Digits(i: int)
    requires 0 <= i
    ensures i / 8 / 4 == i / 32 && i / 8 % 4 == i % 32 / 8 && i % 32 / 8 * 8 + i % 8 == i % 32
  {
  }

  /** The word-wise search and the byte-wise one give the same result. */
  lemma SearchesAgree(be: bool, base: seq<bv32>, offset: int, width: int, r: int, r2: int)
    requires 0 <= offset && 0 <= width && offset + width <= 32 * |base|
    requires IsLeast(WordBits(be, base), true, offset, width, r)
    requires IsLeast(ByteBits(be, BytesOf(be, base)), true, offset, width, r2)
    ensures r == r2
  {
    hide IsLeast;
    SameBits(be, base);
    LeastUnique(WordBits(be, base), true, offset, width, r, r2);
  }

  // ---- single bits ----

  predicate TestMask(b: bv8, m: bv8) { b & m != 0 }
  function SetMask(b: bv8, m: bv8): bv8 { b | m }
  function ClearMask(b: bv8, m: bv8): bv8 { b & !m }

  /** Setting or clearing one bit leaves the others alone. */
  lemma OtherBits(be: bool, b: bv8, n: int, k: int)
    requires 0 <= n < 8 && 0 <= k < 8
    ensures ByteBit(be, SetMask(b, BitMask(be, n)), k) == (k == n || ByteBit(be, b, k))
    ensures ByteBit(be, ClearMask(b, BitMask(be, n)), k) == (k != n && ByteBit(be, b, k))
  {
    TestIs(be, b, k);
    TestIs(be, SetMask(b, BitMask(be, n)), k);
    TestIs(be, ClearMask(b, BitMask(be, n)), k);
    MaskPairs(be, n, k);
    SetClear(b, BitMask(be, n), BitMask(be, k));
    hide TestMask, SetMask, ClearMask, BitMask, ByteBit;
  }

  lemma TestIs(be: bool, b: bv8, k: int)
    requires 0 <= k < 8
    ensures ByteBit(be, b, k) == TestMask(b, BitMask(be, k))
  {
  }

  lemma MaskPairs(be: bool, n: int, k: int)
    requires 0 <= n < 8 && 0 <= k < 8
    ensures TestMask(BitMask(be, n), BitMask(be, k)) == (n == k)
    ensures n == k <==> BitMask(be, n) == BitMask(be, k)
  {
    assert n == 0 || n == 1 || n == 2 || n == 3 || n == 4 || n == 5 || n == 6 || n == 7;
    assert k == 0 || k == 1 || k == 2 || k == 3 || k == 4 || k == 5 || k == 6 || k == 7;
  }

  lemma SetClear(b: bv8, m: bv8, x: bv8)
    ensures !TestMask(m, x) ==>
              && TestMask(SetMask(b, m), x) == TestMask(b, x)
              && TestMask(ClearMask(b, m), x) == TestMask(b, x)
    ensures m == x && TestMask(m, x) ==> TestMask(SetMask(b, m), x) && !TestMask(ClearMask(b, m), x)
  {
  }

  /** tstdlib_bitset */
  method BitSet(be: bool, base: array<bv8>, offset: int)
    requires offset < 8 * base.Length
    modifies base
    ensures ByteBits(be, base[..]) == if offset < 0 then old(ByteBits(be, base[..]))
            else old(ByteBits(be, base[..]))[offset := true]
  {
    hide ByteBit, BitMask, SetMask, ByteBits;
    if offset < 0 {
      return;
    }
    ghost var b0 := base[..];
    var cp := offset / 8;
    base[cp] := SetMask(base[cp], BitMask(be, offset % 8));
    OneByte(be, b0, base[..], offset, true);
  }

  /** tstdlib_bitclr */
  method BitClr(be: bool, base: array<bv8>, offset: int)
    requires offset < 8 * base.Length
    modifies base
    ensures ByteBits(be, base[..]) == if offset < 0 then old(ByteBits(be, base[..]))
            else old(ByteBits(be, base[..]))[offset := false]
  {
    hide ByteBit, BitMask, ClearMask, ByteBits;
    if offset < 0 {
      return;
    }
    ghost var b0 := base[..];
    var cp := offset / 8;
    base[cp] := ClearMask(base[cp], BitMask(be, offset % 8));
    OneByte(be, b0, base[..], offset, false);
  }

  /** tstdlib_bittest */
  method BitTest(be: bool, base: seq<bv8>, offset: int) returns (isSet: bool)
    requires offset < 8 * |base|
    ensures isSet == (0 <= offset && ByteBits(be, base)[offset])
  {
    if offset < 0 {
      return false;
    }
    return TestMask(base[offset / 8], BitMask(be, offset % 8));
  }

  /** One byte changes in one bit: so does the bit string. */
  lemma OneByte(be: bool, b0: seq<bv8>, b1: seq<bv8>, offset: int, v: bool)
    requires 0 <= offset < 8 * |b0| && |b1| == |b0|
    requires var m, cp := BitMask(be, offset % 8), offset / 8;
             b1 == b0[cp := if v then SetMask(b0[cp], m) else ClearMask(b0[cp], m)]
    ensures ByteBits(be, b1) == ByteBits(be, b0)[offset := v]
  {
    hide ByteBit, BitMask, SetMask, ClearMask;
    var x, y := ByteBits(be, b0), ByteBits(be, b1);
    forall i | 0 <= i < |y| ensures y[i] == if i == offset then v else x[i] {
      OtherBits(be, b0[offset / 8], offset % 8, i % 8);
    }
  }
}
