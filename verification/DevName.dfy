/** Device names (kernel/sysmgr/src/device.c:258-285, 388-445): a unit of a device is
    named by the device's name and the unit number less one. */
module DevName {

  type UB = b: int | 0 <= b < 256

  const L_DEVNM := 8
  const MAX_UNIT := 255
  const ZERO: UB := 48      // '0'
  const NINE: UB := 57      // '9'
  const INT_LIMIT := 0x8000_0000

  predicate IsDigit(c: UB) {
    ZERO <= c <= NINE
  }

  ghost predicate DigitFree(s: seq<UB>) {
    forall i :: 0 <= i < |s| ==> !IsDigit(s[i])
  }

  /** The characters of a string in memory, up to its terminating NUL. */
  ghost predicate Holds(buf: seq<UB>, s: seq<UB>) {
    && |s| < |buf| && buf[..|s|] == s && buf[|s|] == 0
    && forall i :: 0 <= i < |s| ==> s[i] != 0
  }

  function Decimal(n: nat): (d: seq<UB>)
    ensures |d| > 0 && forall i :: 0 <= i < |d| ==> IsDigit(d[i])
  {
    if n < 10 then [ZERO + n] else Decimal(n / 10) + [ZERO + n % 10]
  }

  /** The value of a string by the rule of phydevnm, which does not look for digits. */
  function Value(s: seq<UB>): int {
    if s == [] then 0 else Value(s[..|s| - 1]) * 10 + (s[|s| - 1] - ZERO)
  }

  lemma {:induction false} ValueOfDecimal(n: nat)
    ensures Value(Decimal(n)) == n
  {
    if n >= 10 {
      ValueOfDecimal(n / 10);
      var d := Decimal(n);
      assert d[..|d| - 1] == Decimal(n / 10);
    } else {
      assert [ZERO + n][..0] == [];
      assert Value([ZERO + n]) == Value([]) * 10 + n;
    }
  }

  /** Digit k from the right is that of 10^k, and the first one is no 0 but in 0 itself. */
  lemma {:induction false} DecimalDigit(n: nat, k: nat)
    requires k < |Decimal(n)|
    ensures Power10(k) > 0 && Decimal(n)[|Decimal(n)| - 1 - k] == ZERO + n / Power10(k) % 10
    ensures n > 0 ==> Decimal(n)[0] != ZERO
    decreases n
  {
    PowerPositive(k);
    if n >= 10 {
      var d := Decimal(n / 10);
      if k > 0 {
        DecimalDigit(n / 10, k - 1);
        DivTwice(n, Power10(k - 1));
        assert Decimal(n)[|Decimal(n)| - 1 - k] == d[|d| - 1 - (k - 1)];
      } else {
        DecimalDigit(n / 10, 0);
      }
      assert Decimal(n)[0] == d[0];
    }
  }

  lemma {:induction false} PowerPositive(k: nat)
    ensures Power10(k) > 0
  {
    if k > 0 { PowerPositive(k - 1); }
  }

  lemma DivTwice(n: nat, p: nat)
    requires p > 0
    ensures n / 10 / p == n / (10 * p)
  {
    var a, b := n / 10, n / 10 / p;
    var r := a % p;
    assert a == p * b + r;
    assert n == 10 * p * b + (10 * r + n % 10);
    Quotient(10 * p, b, 10 * r + n % 10, n);
  }

  lemma Quotient(d: int, q: int, r: int, n: int)
    requires n == d * q + r && 0 <= r < d
    ensures n / d == q
  {
    var e := n / d - q;
    assert d * (n / d) - d * q == r - n % d;
    assert d * e == r - n % d;
    if e >= 1 { TimesAtLeast(d, e); }
    if e <= -1 { TimesAtLeast(d, -e); }
  }

  lemma TimesAtLeast(d: int, e: int)
    requires d > 0 && e >= 1
    ensures d * e >= d
  {
  }

  lemma {:induction false} DecimalLength(n: nat, k: nat)
    requires k > 0
    ensures |Decimal(n)| <= k <==> n < Power10(k)
    decreases n
  {
    if n >= 10 {
      if k > 1 { DecimalLength(n / 10, k - 1); }
      assert |Decimal(n)| == |Decimal(n / 10)| + 1;
    } else {
      PowerBig(k);
    }
  }

  function Power10(k: nat): nat {
    if k == 0 then 1 else 10 * Power10(k - 1)
  }

  lemma {:induction false} PowerBig(k: nat)
    requires k > 0
    ensures Power10(k) >= 10
  {
    if k > 1 { PowerBig(k - 1); }
  }

  /** The logical name of a unit. */
  function LogName(pdevnm: seq<UB>, unitno: int): seq<UB> {
    if unitno > 0 then pdevnm + Decimal(unitno - 1) else pdevnm
  }

  /** INT arithmetic, modulo 2^32. */
  function ToInt(x: int): (r: int)
    ensures -INT_LIMIT <= r < INT_LIMIT && (r == x <==> -INT_LIMIT <= x < INT_LIMIT)
  {
    (x + INT_LIMIT) % (2 * INT_LIMIT) - INT_LIMIT
  }

  lemma ToIntOnce(x: int, a: int, b: int)
    ensures ToInt(ToInt(x) * a + b) == ToInt(x * a + b)
  {
    var n := 2 * INT_LIMIT;
    var q := (x + INT_LIMIT) / n;
    assert ToInt(x) * a + b + INT_LIMIT == x * a + b + INT_LIMIT - n * (q * a) by { assert ToInt(x) == x - n * q; }
    Shift(x * a + b + INT_LIMIT, n, q * a);
  }

  lemma Shift(x: int, n: int, k: int)
    requires n > 0
    ensures (x - n * k) % n == x % n
  {
    var q, r := x / n, x % n;
    var q2, r2 := (x - n * k) / n, (x - n * k) % n;
    assert n * (q - k - q2) == r2 - r;
    Small(n, q - k - q2, r2 - r);
  }

  lemma Small(n: int, d: int, e: int)
    requires n * d == e && -n < e < n && n > 0
    ensures e == 0
  {
    if d >= 1 { AtLeast(n, d); }
    if d <= -1 { AtLeast(n, -d); }
  }

  lemma AtLeast(n: int, d: int)
    requires n > 0 && d >= 1
    ensures n * d >= n
  {
  }

  /** Where the first digit is. */
  function FirstDigit(s: seq<UB>): (i: nat)
    ensures i <= |s| && (i < |s| ==> IsDigit(s[i])) && forall k :: 0 <= k < i ==> !IsDigit(s[k])
  {
    if s == [] || IsDigit(s[0]) then 0 else 1 + FirstDigit(s[1..])
  }

  /** The physical name and the unit number of a logical name. */
  function PhyName(ldevnm: seq<UB>): (seq<UB>, int) {
    var i := FirstDigit(ldevnm);
    (ldevnm[..i], if i < |ldevnm| then ToInt(Value(ldevnm[i..]) + 1) else 0)
  }

  lemma FirstDigitBehind(p: seq<UB>, d: seq<UB>)
    requires d != [] && IsDigit(d[0])
    ensures FirstDigit(p + d) <= |p|
    ensures FirstDigit(p + d) == |p| <==> DigitFree(p)
    ensures FirstDigit(p) == |p| <==> DigitFree(p)
  {
    var s, i := p + d, FirstDigit(p + d);
    assert s[|p|] == d[0];
    assert forall k :: 0 <= k < |p| ==> s[k] == p[k];
  }

  /** Reading a logical name gives back the device and the unit if and only if the
      device's own name has no digit. */
  lemma NameRoundTrip(p: seq<UB>, u: nat)
    requires u < INT_LIMIT
    ensures PhyName(LogName(p, u)) == (p, u) <==> DigitFree(p)
  {
    FirstDigitBehind(p, [ZERO]);
    if u > 0 {
      var d := Decimal(u - 1);
      var i := FirstDigit(p + d);
      FirstDigitBehind(p, d);
      ValueOfDecimal(u - 1);
      if DigitFree(p) {
        assert (p + d)[..|p|] == p && (p + d)[|p|..] == d;
      } else {
        assert |(p + d)[..i]| < |p|;
      }
    } else {
      if DigitFree(p) {
        assert p[..|p|] == p;
      } else {
        assert |p[..FirstDigit(p)]| < |p|;
      }
    }
  }

  /** logdevnm */
  method LogDevNm(ldevnm: array<UB>, pdevnm: seq<UB>, unitno0: int)
    requires forall i :: 0 <= i < |pdevnm| ==> pdevnm[i] != 0
    requires unitno0 < INT_LIMIT && |LogName(pdevnm, unitno0)| < ldevnm.Length
    modifies ldevnm
    ensures Holds(ldevnm[..], LogName(pdevnm, unitno0))
  {
    hide Decimal;
    forall k | 0 <= k <= |pdevnm| { ldevnm[k] := if k < |pdevnm| then pdevnm[k] else 0; }
    assert ldevnm[..|pdevnm|] == pdevnm;
    if unitno0 <= 0 {
      assert Holds(ldevnm[..], pdevnm);
    } else {
      hide Holds, IsDigit;
      var unostr := new UB[12](_ => 0);
      var cp := 11;
      var ld := 0;
      while ldevnm[ld] != 0
        invariant 0 <= ld <= |pdevnm|
        decreases |pdevnm| - ld
      {
        ld := ld + 1;
      }
      assert ld == |pdevnm|;
      var unitno := unitno0 - 1;
      cp := PrintDigits(unostr, unitno);
      ghost var d := Decimal(unitno0 - 1);
      StrCat(ldevnm, ld, unostr, cp);
      assert unostr[cp..] == d + [0];
      HoldsBoth(ldevnm[..], pdevnm, d);
    }
  }

  lemma HoldsBoth(buf: seq<UB>, p: seq<UB>, d: seq<UB>)
    requires (forall i :: 0 <= i < |p| ==> p[i] != 0) && forall i :: 0 <= i < |d| ==> IsDigit(d[i])
    requires |p| + |d| < |buf| && buf[..|p|] == p && buf[|p|..|p| + |d| + 1] == d + [0]
    ensures Holds(buf, p + d)
  {
    forall i | 0 <= i <= |d| ensures buf[|p| + i] == (d + [0])[i] {
      assert buf[|p|..|p| + |d| + 1][i] == buf[|p| + i];
    }
  }

  /** strcat, where the string in dst ends at n and the one in src begins at m. */
  method StrCat(dst: array<UB>, n: nat, src: array<UB>, m: nat)
    requires dst != src && m < src.Length && n + (src.Length - m) <= dst.Length
    modifies dst
    ensures dst[..n] == old(dst[..n]) && dst[n..n + (src.Length - m)] == src[m..]
  {
    forall k | 0 <= k < src.Length - m { dst[n + k] := src[m + k]; }
  }

  /** The digits, from the last one on, at the end of the buffer. */
  method PrintDigits(unostr: array<UB>, unitno0: int) returns (cp: int)
    requires unostr.Length == 12 && unostr[11] == 0 && 0 <= unitno0 < INT_LIMIT
    modifies unostr
    ensures 0 <= cp <= 11 && unostr[11] == 0 && unostr[cp..11] == Decimal(unitno0)
  {
    DecimalLength(unitno0, 10);
    TenDigits();
    var unitno := unitno0;
    cp := 11 - 1;
    unostr[cp] := ZERO + unitno % 10;
    unitno := unitno / 10;
    assert unostr[10..11] == [ZERO + unitno0 % 10];
    assert unitno0 < 10 ==> Decimal(unitno0) == unostr[10..11];
    while unitno != 0
      invariant 0 <= unitno && 1 <= cp <= 10 && unostr[11] == 0
      invariant Decimal(unitno0) == (if unitno == 0 then [] else Decimal(unitno)) + unostr[cp..11]
      decreases unitno
    {
      ghost var done := unostr[cp..11];
      ghost var u := unitno;
      cp := cp - 1;
      unostr[cp] := ZERO + unitno % 10;
      unitno := unitno / 10;
      assert unostr[cp..11] == [ZERO + u % 10] + done;
      assert Decimal(u) == (if unitno == 0 then [] else Decimal(unitno)) + [ZERO + u % 10];
    }
  }

  lemma TenDigits()
    ensures Power10(10) == 10_000_000_000
  {
    assert Power10(2) == 100;
    assert Power10(4) == 10_000;
    assert Power10(6) == 1_000_000;
    assert Power10(8) == 100_000_000;
  }

  /** phydevnm */
  method PhyDevNm(pdevnm: array<UB>, ldevnm: seq<UB>) returns (unitno: int)
    requires forall i :: 0 <= i < |ldevnm| ==> ldevnm[i] != 0
    requires |ldevnm| < pdevnm.Length
    modifies pdevnm
    ensures Holds(pdevnm[..], PhyName(ldevnm).0) && unitno == PhyName(ldevnm).1
  {
    hide Value, IsDigit, ToInt;
    var i := 0;
    while i < |ldevnm| && !IsDigit(ldevnm[i])
      invariant 0 <= i <= |ldevnm| && pdevnm[..i] == ldevnm[..i]
      invariant forall k :: 0 <= k < i ==> !IsDigit(ldevnm[k])
    {
      pdevnm[i] := ldevnm[i];
      i := i + 1;
      assert pdevnm[..i] == ldevnm[..i];
    }
    assert i == FirstDigit(ldevnm);
    pdevnm[i] := 0;
    unitno := 0;
    if i < |ldevnm| {
      unitno := ReadNumber(ldevnm, i);
      ToIntOnce(Value(ldevnm[i..]), 1, 1);
      unitno := ToInt(unitno + 1);
    }
  }

  /** The rest of the name as a number. */
  method ReadNumber(ldevnm: seq<UB>, n: nat) returns (unitno: int)
    requires n <= |ldevnm|
    ensures unitno == ToInt(Value(ldevnm[n..]))
  {
    hide ToInt;
    Zero();
    var i := n;
    unitno := 0;
    while i < |ldevnm|
      invariant n <= i <= |ldevnm| && unitno == ToInt(Value(ldevnm[n..i]))
    {
      ToIntOnce(Value(ldevnm[n..i]), 10, ldevnm[i] - ZERO);
      assert ldevnm[n..i + 1][..i - n] == ldevnm[n..i];
      unitno := ToInt(unitno * 10 + (ldevnm[i] - ZERO));
      i := i + 1;
    }
    assert ldevnm[n..i] == ldevnm[n..];
  }

  lemma Zero()
    ensures ToInt(0) == 0 && Value([]) == 0
  {
  }

  // ---- the length of names ----

  /** The checks of _tk_def_dev on a name of this length and a number of subunits. */
  method NameFits(len0: int, nsub: int) returns (ok: bool)
    ensures ok <==> Accepts(len0, nsub)
  {
    var len := len0;
    if len <= 0 || len > L_DEVNM {
      return false;
    }
    if nsub < 0 || nsub > MAX_UNIT {
      return false;
    }
    if nsub > 0 { len := len + 1; }
    if nsub > 10 { len := len + 1; }
    if nsub > 100 { len := len + 1; }
    if len > L_DEVNM {
      return false;
    }
    return true;
  }

  predicate Accepts(len: int, nsub: int) {
    && 0 < len <= L_DEVNM && 0 <= nsub <= MAX_UNIT
    && len + (if nsub > 100 then 3 else if nsub > 10 then 2 else if nsub > 0 then 1 else 0) <= L_DEVNM
  }

  /** A device is accepted exactly when the logical names of all its units fit. */
  lemma AcceptsIsExact(p: seq<UB>, nsub: int)
    ensures Accepts(|p|, nsub) <==>
              0 < |p| && 0 <= nsub <= MAX_UNIT && forall u :: 0 <= u <= nsub ==> |LogName(p, u)| <= L_DEVNM
  {
    if 0 <= nsub <= MAX_UNIT {
      forall u | 0 <= u <= nsub ensures |LogName(p, u)| <= |LogName(p, nsub)| {
        if u > 0 { LongerNumber(u - 1, nsub - 1); }
      }
      if nsub > 0 {
        Lengths(nsub - 1);
      }
      assert |LogName(p, nsub)| == |p| + if nsub > 100 then 3 else if nsub > 10 then 2 else if nsub > 0 then 1 else 0;
    }
  }

  lemma Lengths(n: nat)
    requires n < 1000
    ensures |Decimal(n)| == if n < 10 then 1 else if n < 100 then 2 else 3
  {
    DecimalLength(n, 1);
    DecimalLength(n, 2);
    DecimalLength(n, 3);
    assert Power10(1) == 10 && Power10(2) == 100;
    assert Power10(3) == 1000;
  }

  lemma {:induction false} LongerNumber(m: nat, n: nat)
    requires m <= n
    ensures |Decimal(m)| <= |Decimal(n)|
    decreases n
  {
    if m >= 10 {
      LongerNumber(m / 10, n / 10);
      assert |Decimal(m)| == |Decimal(m / 10)| + 1 && |Decimal(n)| == |Decimal(n / 10)| + 1;
    }
  }
}
