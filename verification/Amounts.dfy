/** Digit arrays with an exponent: what they are worth, and when two of them are worth the same. */
module Amounts {
  import opened Words
  import opened LongDivision

  /** m * 10^a and n * 10^b are the same number. */
  predicate SameAmount(m: int, a: int, n: int, b: int) {
    if a >= b then m * Pow10(a - b) == n else m == n * Pow10(b - a)
  }

  lemma CancelPow10(u: int, v: int, c: nat)
    ensures u * Pow10(c) == v * Pow10(c) <==> u == v
    ensures u * Pow10(c) < v * Pow10(c) <==> u < v
  {}

  lemma CancelFactor(k: int, u: int, v: int)
    requires k > 0
    ensures u * k == v * k <==> u == v
    ensures u * k < v * k <==> u < v
  {}

  lemma PowerOver(u: int, a: nat, b: nat)
    ensures u * Pow10(a + b) == (u * Pow10(a)) * Pow10(b)
  {
    hide Pow10;
    Pow10Add(a, b);
    Associate(u, Pow10(a), Pow10(b));
  }

  /** Amounts can be compared in any unit that divides both. */
  lemma SameInUnit(m: int, a: int, n: int, b: int, z: int)
    requires z <= a && z <= b
    ensures SameAmount(m, a, n, b) <==> m * Pow10(a - z) == n * Pow10(b - z)
  {
    hide Pow10;
    if a >= b {
      PowerOver(m, a - b, b - z);
      CancelPow10(m * Pow10(a - b), n, b - z);
    } else {
      PowerOver(n, b - a, a - z);
      CancelPow10(m, n * Pow10(b - a), a - z);
    }
  }

  lemma SameTransitive(m: int, a: int, n: int, b: int, p: int, c: int)
    requires SameAmount(m, a, n, b) && SameAmount(n, b, p, c)
    ensures SameAmount(m, a, p, c)
  {
    hide SameAmount;
    var z := if a <= b && a <= c then a else if b <= c then b else c;
    SameInUnit(m, a, n, b, z);
    SameInUnit(n, b, p, c, z);
    SameInUnit(m, a, p, c, z);
  }

  lemma SameSymmetric(m: int, a: int, n: int, b: int)
    requires SameAmount(m, a, n, b)
    ensures SameAmount(n, b, m, a)
  {}

  lemma SameItself(m: int, a: int)
    ensures SameAmount(m, a, m, a)
  {}

  /** k trailing zeros are worth k powers of ten. */
  lemma SameScaled(m: int, a: int, k: nat)
    ensures SameAmount(m, a + k, m * Pow10(k), a)
  {}

  // ---- Digit arrays with an exponent ----

  /** The power of ten that the last word of d counts, e being the power of ten of the first digit. */
  function Low(d: seq<int>, e: int): int {
    7 * (e / 7 - |d| + 1)
  }

  /** The number of decimal digits of d. */
  function Figures(d: seq<int>): nat
    requires |d| > 0 && d[0] >= 0
  {
    7 * (|d| - 1) + Digits(d[0])
  }

  /** `getBase10Exponent`: the power of ten of the leading digit, from the power of the base of the leading word. */
  function BaseTenExponent(d: seq<int>, e: int): int
    requires |d| > 0 && d[0] >= 0
  {
    e * LOG_BASE + Digits(d[0]) - 1
  }

  /** A non-zero digit array that starts at the digit of 10^e. */
  predicate Aligned(d: seq<int>, e: int) {
    |d| > 0 && AreWords(d) && d[0] > 0 && e % 7 == Digits(d[0]) - 1
  }

  /** The digit array of a non-zero finite Decimal. */
  predicate Canonical(d: seq<int>, e: int) {
    Aligned(d, e) && d[|d| - 1] > 0
  }

  lemma ZeroNotCanonical(d: seq<int>, e: int)
    requires d == [0]
    ensures !Canonical(d, e)
  {}

  /** d with exponent e is v units of 10^u. */
  predicate Denotes(d: seq<int>, e: int, v: int, u: int) {
    SameAmount(Val(d), Low(d, e), v, u)
  }

  lemma LowIs(d: seq<int>, e: int)
    requires Aligned(d, e)
    ensures Low(d, e) == e + 1 - Figures(d)
  {}

  /** The exponent is the power of ten of the leading digit. */
  lemma Magnitude(d: seq<int>, e: int)
    requires Aligned(d, e)
    ensures Pow10(Figures(d) - 1) <= Val(d) < Pow10(Figures(d))
  {
    hide Val, BasePow, Pow10, Digits;
    var n := |d| - 1;
    ValLead(d);
    DigitsBounds(d[0]);
    BasePowIs(n);
    Pow10Add(Digits(d[0]) - 1, 7 * n);
    Pow10Add(Digits(d[0]), 7 * n);
    AtLeastTimes(Pow10(Digits(d[0]) - 1), d[0], BasePow(n));
    AtLeastTimes(d[0] + 1, Pow10(Digits(d[0])), BasePow(n));
  }

  lemma ExponentOf(d: seq<int>, e: int, d': seq<int>, e': int)
    requires Aligned(d, e) && Aligned(d', e')
    requires Denotes(d, e, Val(d'), Low(d', e'))
    ensures e == e'
  {
    hide Val, Pow10, Digits, SameAmount;
    Magnitude(d, e);
    Magnitude(d', e');
    LowIs(d, e);
    LowIs(d', e');
    var z := if Low(d, e) <= Low(d', e') then Low(d, e) else Low(d', e');
    SameInUnit(Val(d), Low(d, e), Val(d'), Low(d', e'), z);
    Between(Val(d), Figures(d), Low(d, e) - z);
    Between(Val(d'), Figures(d'), Low(d', e') - z);
    OneMagnitude(Val(d) * Pow10(Low(d, e) - z), e - z, e' - z);
  }

  lemma Between(v: int, n: nat, k: nat)
    requires n > 0 && Pow10(n - 1) <= v < Pow10(n)
    ensures Pow10(n - 1 + k) <= v * Pow10(k) < Pow10(n + k)
  {
    hide Pow10;
    Pow10Add(n - 1, k);
    Pow10Add(n, k);
    AtLeastTimes(Pow10(n - 1), v, Pow10(k));
    AtLeastTimes(v + 1, Pow10(n), Pow10(k));
    assert (v + 1) * Pow10(k) == v * Pow10(k) + Pow10(k);
  }

  lemma OneMagnitude(v: int, a: int, b: int)
    requires 0 <= a && 0 <= b && Pow10(a) <= v < Pow10(a + 1) && Pow10(b) <= v < Pow10(b + 1)
    ensures a == b
  {
    hide Pow10;
    if a < b { Pow10Monotone(a + 1, b); }
    if b < a { Pow10Monotone(b + 1, a); }
  }

  // ---- A number has one canonical form ----

  lemma {:induction false} SameWords(d: seq<int>, d': seq<int>)
    requires AreWords(d) && AreWords(d') && |d| == |d'| && Val(d) == Val(d')
    ensures d == d'
  {
    if |d| > 0 {
      var n := |d| - 1;
      LastWordIs(Val(d[..n]), d[n], Val(d'[..n]), d'[n]);
      SameWords(d[..n], d'[..n]);
      assert d == d[..n] + [d[n]] && d' == d'[..n] + [d'[n]];
    }
  }

  lemma LastWordIs(a: int, w: int, a': int, w': int)
    requires 0 <= w < BASE && 0 <= w' < BASE && a * BASE + w == a' * BASE + w'
    ensures a == a' && w == w'
  {}

  lemma ZeroTail(d: seq<int>, n: nat)
    ensures Val(d + Zeros(n)) == Val(d) * BasePow(n)
    ensures BasePow(n) == Pow10(7 * n)
  {
    hide Val, BasePow, Pow10;
    ValConcat(d, Zeros(n));
    ValZeros(Zeros(n));
    BasePowIs(n);
  }

  lemma ZeroTailInTens(d: seq<int>, n: nat)
    ensures Val(d + Zeros(n)) == Val(d) * Pow10(7 * n)
  {
    hide Val, BasePow, Pow10;
    ZeroTail(d, n);
  }

  function Zeros(n: nat): (z: seq<int>)
    ensures |z| == n && forall i :: 0 <= i < n ==> z[i] == 0
  {
    seq(n, i => 0)
  }

  /** Two canonical arrays of one number are the same array. */
  lemma CanonicalUnique(d: seq<int>, e: int, d': seq<int>, e': int)
    requires Canonical(d, e) && Canonical(d', e') && Denotes(d, e, Val(d'), Low(d', e'))
    ensures d == d' && e == e'
  {
    hide Val, Digits, SameAmount, Pow10;
    ExponentOf(d, e, d', e');
    if |d| >= |d'| {
      SameFromShorter(d, d', e);
    } else {
      SameSymmetric(Val(d), Low(d, e), Val(d'), Low(d', e));
      SameFromShorter(d', d, e);
    }
  }

  lemma SameFromShorter(d: seq<int>, d': seq<int>, e: int)
    requires Canonical(d, e) && Canonical(d', e) && Denotes(d, e, Val(d'), Low(d', e)) && |d| >= |d'|
    ensures d == d'
  {
    hide Val, Digits, SameAmount, Pow10;
    var n := |d| - |d'|;
    ZeroTail(d', n);
    SameInUnit(Val(d), Low(d, e), Val(d'), Low(d', e), Low(d, e));
    SmallPowers();
    var z := d' + Zeros(n);
    assert if n > 0 then z[|z| - 1] == 0 else z == d';
    SameWords(d, z);
  }

  /** Words without their trailing zeros, e being the power of the base of the first one. */
  lemma TrimmedDenotes(r0: seq<int>, r: seq<int>, e: int)
    requires AreWords(r) && 0 < |r| <= |r0| && r[0] > 0 && r[|r| - 1] > 0 && r0 == r + Zeros(|r0| - |r|)
    ensures Canonical(r, BaseTenExponent(r, e)) && Denotes(r, BaseTenExponent(r, e), Val(r0), 7 * (e - |r0| + 1))
  {
    hide Val, Pow10, Digits, SameAmount;
    var z := |r0| - |r|;
    ZeroTail(r, z);
    WordDigits(r[0]);
    SameScaled(Val(r), 7 * (e - |r0| + 1), 7 * z);
    assert BaseTenExponent(r, e) / 7 == e;
  }
}
