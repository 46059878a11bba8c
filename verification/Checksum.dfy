/** The Internet checksum (usermain_t2ex/network_sample/util.c:66-89; RFC 1071, section 1).
    Its unsigned long has 32 bits. */
module Checksum {

  const WORD := 0x1_0000_0000

  type Half = h: int | 0 <= h < 0x1_0000

  /** The sum of all halfwords, without a limit. */
  function Total(buf: seq<Half>): (t: int)
    ensures 0 <= t <= 0xffff * |buf|
  {
    if buf == [] then 0 else buf[0] + Total(buf[1..])
  }

  lemma {:induction false} TotalJoin(a: seq<Half>, b: seq<Half>)
    ensures Total(a + b) == Total(a) + Total(b)
  {
    if a == [] {
      assert a + b == b;
    } else {
      TotalJoin(a[1..], b);
      assert (a + b)[1..] == a[1..] + b;
    }
  }

  lemma {:induction false} TotalStore(buf: seq<Half>, k: nat, v: Half)
    requires k < |buf|
    ensures Total(buf[k := v]) == Total(buf) - buf[k] + v
  {
    if k > 0 {
      TotalStore(buf[1..], k - 1, v);
      assert buf[k := v][1..] == buf[1..][k - 1 := v];
    } else {
      assert buf[k := v][1..] == buf[1..];
    }
  }

  /** (sum & 0xffff) + (sum >> 16) */
  function Fold(sum: int): int
    requires 0 <= sum < WORD
  {
    sum % 0x1_0000 + sum / 0x1_0000
  }

  /** One's-complement reduction: the number from 1 to 0xffff that sum is congruent to,
      or 0 for 0. */
  function Reduced(sum: int): (r: int)
    requires 0 <= sum
    ensures 0 <= r <= 0xffff && r % 0xffff == sum % 0xffff && (r == 0 <==> sum == 0)
  {
    if sum == 0 then 0 else if sum % 0xffff == 0 then 0xffff else sum % 0xffff
  }

  /** One fold keeps the value modulo 0xffff. */
  lemma FoldCongruent(sum: int)
    requires 0 <= sum < WORD
    ensures 0 <= Fold(sum) <= 0x1fffe && Fold(sum) % 0xffff == sum % 0xffff && (Fold(sum) == 0 <==> sum == 0)
  {
    var h, l := sum / 0x1_0000, sum % 0x1_0000;
    assert sum == Fold(sum) + 0xffff * h;
    ModPlus(Fold(sum), h);
  }

  lemma ModPlus(x: int, n: int)
    ensures (x + 0xffff * n) % 0xffff == x % 0xffff
  {
  }

  /** Two folds make 16 bits of any 32-bit sum, and the right ones. */
  lemma TwoFolds(sum: int)
    requires 0 <= sum < WORD
    ensures 0 <= Fold(sum) < WORD && Fold(Fold(sum)) == Reduced(sum)
  {
    FoldCongruent(sum);
    FoldCongruent(Fold(sum));
    Representative(Fold(Fold(sum)), sum);
  }

  lemma Representative(r: int, sum: int)
    requires 0 <= sum < WORD && 0 <= r <= 0xffff && r % 0xffff == sum % 0xffff && (r == 0 <==> sum == 0)
    ensures r == Reduced(sum)
  {
  }

  /** What checksum2 returns. */
  function Sum2(buf: seq<Half>, initial: int): (c: Half)
    requires 0 <= initial < WORD
  {
    0xffff - Reduced((initial + Total(buf)) % WORD)
  }

  /** checksum2: buf holds the whole halfwords, last the byte behind them, which counts as
      one more halfword if the number of bytes is odd. */
  method Checksum2(buf: seq<Half>, last: int, bufsz0: int, initial: int) returns (c: Half)
    requires 0 <= initial < WORD && 0 <= last < 0x100 && 0 <= bufsz0 && |buf| == bufsz0 / 2
    ensures c == Sum2(if bufsz0 % 2 == 0 then buf else buf + [last], initial)
  {
    hide Reduced, Fold, Total;
    var sum, bufsz := initial, bufsz0;
    var at := 0;
    while bufsz > 1
      invariant 0 <= at <= |buf| && bufsz == bufsz0 - 2 * at
      invariant sum == (initial + Total(buf[..at])) % WORD
    {
      assert buf[..at + 1] == buf[..at] + [buf[at]];
      Added(buf[..at], buf[at], initial);
      sum := (sum + buf[at]) % WORD;
      at := at + 1;
      bufsz := bufsz - 2;
    }
    assert buf[..at] == buf;
    if bufsz == 1 {
      Added(buf, last, initial);
      sum := (sum + last) % WORD;
    }
    TwoFolds(sum);
    sum := Fold(sum);
    sum := Fold(sum);
    c := 0xffff - sum;
  }

  lemma OneMore(t: int, h: Half)
    ensures (t % WORD + h) % WORD == (t + h) % WORD
  {
  }

  lemma TotalOne(h: Half)
    ensures Total([h]) == h
  {
  }

  /** One halfword more. */
  lemma Added(done: seq<Half>, h: Half, initial: int)
    ensures ((initial + Total(done)) % WORD + h) % WORD == (initial + Total(done + [h])) % WORD
  {
    TotalJoin(done, [h]);
    TotalOne(h);
    hide Total;
    OneMore(initial + Total(done), h);
  }

  /** checksum */
  method Checksum(buf: seq<Half>, last: int, bufsz: int) returns (c: Half)
    requires 0 <= last < 0x100 && 0 <= bufsz && |buf| == bufsz / 2
    ensures c == Sum2(if bufsz % 2 == 0 then buf else buf + [last], 0)
  {
    c := Checksum2(buf, last, bufsz, 0);
  }

  /** A header summed first can be passed as the initial value. */
  lemma InitialIsPrefix(header: seq<Half>, buf: seq<Half>)
    requires Total(header) < WORD
    ensures Sum2(buf, Total(header)) == Sum2(header + buf, 0)
  {
    hide Reduced, Total;
    TotalJoin(header, buf);
    assert Total(header) + Total(buf) == 0 + Total(header + buf);
  }

  /** The checksum is stored where a 0 was; recomputing then gives 0, whatever the length
      and the initial value, although carries out of the 32-bit sum are lost. */
  lemma RecomputedIsZero(buf: seq<Half>, k: nat, initial: int)
    requires k < |buf| && buf[k] == 0 && 0 <= initial < WORD
    ensures Sum2(buf[k := Sum2(buf, initial)], initial) == 0
  {
    var c, s := Sum2(buf, initial), (initial + Total(buf)) % WORD;
    TotalStore(buf, k, c);
    hide Reduced;
    SumMod(s, c, Reduced(s));
    OneMore(initial + Total(buf), c);
    ReducedZero(s + c);
  }

  /** A sum and its checksum make a multiple of 0xffff, and WORD - 1 is one, so that this
      step never carries over the end. */
  lemma SumMod(s: int, c: int, r: int)
    requires c == 0xffff - r && r % 0xffff == s % 0xffff && 0 <= s < WORD && 0 <= r <= 0xffff && (r == 0 <==> s == 0)
    ensures (s + c) % 0xffff == 0 && 0 < s + c < WORD
  {
    assert s + c == s - r + 0xffff;
    var q := s / 0xffff - r / 0xffff;
    assert s - r == 0xffff * q;
    ModPlus(0, q + 1);
    assert s + c == 0xffff * (q + 1) && WORD - 1 == 0xffff * 0x1_0001;
  }

  lemma ReducedZero(x: int)
    requires 0 < x && x % 0xffff == 0
    ensures Reduced(x) == 0xffff
  {
  }

  /** What the lost carries do break: the result is the one's-complement checksum of the
      halfwords (RFC 1071, section 1) if and only if their sum needs no more than 32 bits.
      This is for every even number of bytes that an int can hold. */
  lemma CarryLost(buf: seq<Half>, initial: int)
    requires 0 <= initial < WORD && 2 * |buf| <= 0x7fff_ffff
    ensures Sum2(buf, initial) == 0xffff - Reduced(initial + Total(buf)) <==> initial + Total(buf) < WORD
  {
    hide Reduced, Total;
    var t := initial + Total(buf);
    assert t < WORD * 0xffff;
    CarryReduced(t);
  }

  lemma CarryReduced(t: int)
    requires 0 <= t < WORD * 0xffff
    ensures Reduced(t % WORD) == Reduced(t) <==> t < WORD
  {
    var s, q := t % WORD, t / WORD;
    hide Reduced;
    assert t == s + q + 0xffff * (0x1_0001 * q);
    ModPlus(s + q, 0x1_0001 * q);
    if q > 0 && Reduced(s) == Reduced(t) {
      Shifted(s, q);
      assert false;
    }
  }

  /** Fewer than 0xffff steps never come back to the same number. */
  lemma Shifted(s: int, q: int)
    requires 0 < q < 0xffff
    ensures (s + q) % 0xffff != s % 0xffff
  {
  }

  /** The last byte of an odd number is added as a halfword of its own. In the high half,
      where RFC 1071 has it on a big-endian processor, it gives another result, unless
      it is 0. */
  lemma OddTail(buf: seq<Half>, last: int, initial: int)
    requires 0 <= last < 0x100 && 0 <= initial < WORD
    ensures Sum2(buf + [last], initial) == Sum2(buf + [0x100 * last], initial) <==> last == 0
  {
    var t := initial + Total(buf);
    hide Reduced, Total;
    TailSum(buf, last, initial);
    TailSum(buf, 0x100 * last, initial);
    if last != 0 {
      var s, s2 := (t + last) % WORD, (t + 0x100 * last) % WORD;
      Wrapped(t + last, 0xff * last);
      Shifted(s, if s2 == s + 0xff * last then 0xff * last else 0xff * last - 1);
      if s2 != s + 0xff * last { ModPlus(s2, 0x1_0001); }
      assert Reduced(s) % 0xffff == s % 0xffff && Reduced(s2) % 0xffff == s2 % 0xffff;
    }
  }

  lemma TailSum(buf: seq<Half>, h: Half, initial: int)
    requires 0 <= initial < WORD
    ensures Sum2(buf + [h], initial) == 0xffff - Reduced((initial + Total(buf) + h) % WORD)
  {
    TotalJoin(buf, [h]);
    TotalOne(h);
    hide Reduced, Total;
    assert initial + Total(buf + [h]) == initial + Total(buf) + h;
  }

  /** Adding less than WORD wraps around at most once. */
  lemma Wrapped(u: int, d: int)
    requires 0 <= u && 0 <= d < WORD
    ensures (u + d) % WORD == u % WORD + d || (u + d) % WORD == u % WORD + d - 1 - 0xffff * 0x1_0001
  {
  }

  /** Compared with RFC 1071 for any length: with q carries lost and s left, the result
      is the one's-complement checksum if and only if what is missing is a multiple of
      0xffff, and is 0 if s is. */
  lemma OddExact(buf: seq<Half>, last: int, initial: int)
    requires 0 <= last < 0x100 && 0 <= initial < WORD
    ensures var u := initial + Total(buf) + last;
            var missing := u / WORD + 0xff * last;
            Sum2(buf + [last], initial) == 0xffff - Reduced(initial + Total(buf) + 0x100 * last)
            <==> missing % 0xffff == 0 && (missing == 0 || u % WORD != 0)
  {
    var u := initial + Total(buf) + last;
    hide Reduced, Total;
    TailSum(buf, last, initial);
    SameAsRfc(u, 0xff * last);
  }

  lemma SameAsRfc(u: int, d: int)
    requires 0 <= u && 0 <= d
    ensures Reduced(u % WORD) == Reduced(u + d)
            <==> (u / WORD + d) % 0xffff == 0 && (u / WORD + d == 0 || u % WORD != 0)
  {
    var q, s := u / WORD, u % WORD;
    hide Reduced;
    assert u + d == s + (q + d) + 0xffff * (0x1_0001 * q);
    ModPlus(s + (q + d), 0x1_0001 * q);
    SameReduced(s, u + d);
    Unmoved(s, q + d);
  }

  lemma SameReduced(s: int, w: int)
    requires 0 <= s && 0 <= w
    ensures Reduced(s) == Reduced(w) <==> s % 0xffff == w % 0xffff && (s == 0 <==> w == 0)
  {
  }

  lemma Unmoved(s: int, e: int)
    ensures (s + e) % 0xffff == s % 0xffff <==> e % 0xffff == 0
  {
  }
}
