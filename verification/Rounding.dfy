/** What the nine rounding modes select, and how a discarded digit and a sticky flag decide it. */
module Rounding {
  import opened LongDivision

  const ROUND_UP := 0
  const ROUND_DOWN := 1
  const ROUND_CEIL := 2
  const ROUND_FLOOR := 3
  const ROUND_HALF_UP := 4
  const ROUND_HALF_DOWN := 5
  const ROUND_HALF_EVEN := 6
  const ROUND_HALF_CEIL := 7
  const ROUND_HALF_FLOOR := 8

  /** Whether a magnitude that lies rest / den above the integer q goes to q + 1. */
  predicate GoesUp(rm: int, negative: bool, q: nat, rest: nat, den: nat) {
    rest > 0 &&
    if rm == ROUND_UP then true
    else if rm == ROUND_DOWN then false
    else if rm == ROUND_CEIL then !negative
    else if rm == ROUND_FLOOR then negative
    else
      || 2 * rest > den
      || (2 * rest == den
          && (rm == ROUND_HALF_UP || (rm == ROUND_HALF_EVEN && q % 2 == 1)
              || (rm == ROUND_HALF_CEIL && !negative) || (rm == ROUND_HALF_FLOOR && negative)))
  }

  /** The integer that mode rm selects for the magnitude num / den. */
  function Rounded(rm: int, negative: bool, num: nat, den: nat): (r: nat)
    requires den > 0
    ensures num / den <= r <= num / den + 1
  {
    DivMod(num, den);
    num / den + if GoesUp(rm, negative, num / den, num % den, den) then 1 else 0
  }

  /**
   * How far each mode moves: never a whole unit; modes 4 to 8 to the nearest, at most half a unit; modes 0 to 3 away
   * from zero, towards zero, upwards and downwards.
   */
  lemma RoundedIsClose(rm: int, negative: bool, num: nat, den: nat)
    requires den > 0 && 0 <= rm <= 8
    ensures var r := Rounded(rm, negative, num, den);
      && (r - 1) * den < num < (r + 1) * den
      && (rm >= 4 ==> 2 * num <= 2 * (r * den) + den && 2 * (r * den) <= 2 * num + den)
      && ((rm == 0 || rm == if negative then 3 else 2) ==> r * den >= num)
      && ((rm == 1 || rm == if negative then 2 else 3) ==> r * den <= num)
      && (num % den == 0 ==> r * den == num)
  {
    var q, rest := num / den, num % den;
    DivMod(num, den);
    TrialProducts(den, q);
    TrialProducts(den, q + 1);
  }

  /**
   * Where a magnitude half-way between q and q + 1 goes: modes 4 to 8 break ties away from zero, towards zero, to the
   * even neighbour, upwards and downwards.
   */
  lemma TiesAreBroken(rm: int, negative: bool, num: nat, den: nat, q: nat)
    requires den > 0 && 4 <= rm <= 8 && 2 * num == (2 * q + 1) * den
    ensures var r := Rounded(rm, negative, num, den);
      && (r == q || r == q + 1)
      && (rm == 4 ==> r == q + 1)
      && (rm == 5 ==> r == q)
      && (rm == 6 ==> r % 2 == 0)
      && (rm == 7 ==> r == if negative then q else q + 1)
      && (rm == 8 ==> r == if negative then q + 1 else q)
  {
    HalfIs(num, den, q);
    DivIs(num, den, q, num - q * den);
  }

  lemma HalfIs(num: nat, den: nat, q: nat)
    requires 2 * num == (2 * q + 1) * den
    ensures 2 * (num - q * den) == den
  {
    assert (2 * q + 1) * den == 2 * (q * den) + den;
  }

  lemma DivMod(n: int, d: int)
    requires d > 0
    ensures n == n / d * d + n % d && 0 <= n % d < d
    ensures n >= 0 ==> n / d >= 0
  {}

  lemma DivIs(n: int, d: int, q: int, r: int)
    requires d > 0 && n == q * d + r && 0 <= r < d
    ensures n / d == q && n % d == r
  {
    DivMod(n, d);
    var a := n / d;
    if a < q {
      Steps(a + 1, q, d);
    } else if a > q {
      Steps(q + 1, a, d);
    }
  }

  lemma Steps(a: int, b: int, d: int)
    requires a <= b && d > 0
    ensures (a - 1) * d + d <= b * d
  {}

  // ---- The rule of the discarded digit ----

  /**
   * The decision `finalise` takes from the first discarded digit, a flag for anything after it, and the digit before.
   */
  predicate RoundUp(rm: int, s: int, rd: int, isTruncated: bool, leftOdd: bool) {
    if rm < 4 then (rd != 0 || isTruncated) && (rm == 0 || rm == if s < 0 then 3 else 2)
    else
      rd > 5 || (rd == 5 && (rm == 4 || isTruncated || (rm == 6 && leftOdd) || rm == if s < 0 then 8 else 7))
  }

  lemma DiscardedPart(M: nat, K: nat)
    requires K > 0
    ensures var rd, t := M / K % 10, M % K;
      M / (10 * K) == M / K / 10 && M % (10 * K) == rd * K + t
  {
    var v := M / K;
    DivMod(M, K);
    DivMod(v, 10);
    DigitTimes(v / 10, v % 10, K);
    TimesAtLeast(K, v % 10, 9);
    DivIs(M, 10 * K, v / 10, v % 10 * K + M % K);
  }

  lemma DigitTimes(a: int, b: int, K: int)
    ensures (a * 10 + b) * K == a * (10 * K) + b * K
    ensures K * b == b * K
  {}

  lemma DigitRule(rm: int, s: int, M: nat, K: nat, leftOdd: bool)
    requires K > 0 && 0 <= rm <= 8 && (leftOdd <==> M / K / 10 % 2 == 1)
    ensures GoesUp(rm, s < 0, M / K / 10, M % (10 * K), 10 * K) <==> RoundUp(rm, s, M / K % 10, M % K != 0, leftOdd)
  {
    DiscardedPart(M, K);
    DivMod(M, K);
    var rd, t := M / K % 10, M % K;
    TimesCases(rd, K);
  }

  lemma TimesCases(rd: int, K: nat)
    requires 0 <= rd <= 9 && K > 0
    ensures rd <= 4 ==> rd * K <= 4 * K
    ensures rd == 5 ==> rd * K == 5 * K
    ensures rd >= 6 ==> rd * K >= 6 * K
    ensures rd == 0 <==> rd * K < K
    ensures rd >= 1 ==> rd * K >= K
  {}

  lemma ExactRounding(rm: int, s: int, M: nat, K: nat, leftOdd: bool)
    requires K > 0 && 0 <= rm <= 8 && (leftOdd <==> M / (10 * K) % 2 == 1)
    ensures Rounded(rm, s < 0, M, 10 * K) == M / (10 * K) + if RoundUp(rm, s, M / K % 10, M % K != 0, leftOdd) then 1
      else 0
  {
    DiscardedPart(M, K);
    DigitRule(rm, s, M, K, leftOdd);
  }

  /** A magnitude strictly between M and M + 1, in units of which 10 * K are kept. */
  lemma TruncatedRounding(rm: int, s: int, M: nat, K: nat, leftOdd: bool, num: nat, den: nat)
    requires K > 0 && den > 0 && 0 <= rm <= 8 && (leftOdd <==> M / (10 * K) % 2 == 1)
    requires M * den < num < (M + 1) * den
    ensures den * (10 * K) > 0
    ensures Rounded(rm, s < 0, num, den * (10 * K)) == M / (10 * K) + if RoundUp(rm, s, M / K % 10, true, leftOdd) then
      1 else 0
  {
    DiscardedPart(M, K);
    DivMod(M, K);
    var q, rd, t := M / (10 * K), M / K % 10, M % K;
    DivMod(M, 10 * K);
    var rest := num - q * (den * (10 * K));
    InsideUnit(M, q, rd * K + t, K, den, num);
    DivIs(num, den * (10 * K), q, rest);
    HalfOfUnit(rd, t, K, den, rest);
    StrictlyInside(rm, s, num, den * (10 * K), q, rest, rd, leftOdd);
  }

  lemma StrictlyInside(rm: int, s: int, num: nat, U: nat, q: nat, rest: nat, rd: int, leftOdd: bool)
    requires U > 0 && 0 <= rm <= 8 && 0 <= rd && num / U == q && num % U == rest > 0
    requires if rd >= 5 then 2 * rest > U else 2 * rest < U
    ensures Rounded(rm, s < 0, num, U) == q + if RoundUp(rm, s, rd, true, leftOdd) then 1 else 0
  {}

  lemma InsideUnit(M: int, q: int, r: int, K: int, den: int, num: int)
    requires K > 0 && den > 0 && M == q * (10 * K) + r && 0 <= r < 10 * K
    requires M * den < num < (M + 1) * den
    ensures den * (10 * K) > 0
    ensures r * den < num - q * (den * (10 * K)) < (r + 1) * den <= den * (10 * K)
  {
    AtLeastTimes(1, den, 10 * K);
    assert M * den == q * (den * (10 * K)) + r * den by {
      assert (q * (10 * K) + r) * den == q * (10 * K) * den + r * den;
    }
    assert (M + 1) * den == M * den + den;
    assert (r + 1) * den == r * den + den;
    AtLeastTimes(r + 1, 10 * K, den);
  }

  /** Half a unit is a whole number of discarded units, so what lies strictly between two of these is never half. */
  lemma HalfOfUnit(rd: int, t: int, K: int, den: int, rest: int)
    requires K > 0 && den > 0 && 0 <= rd <= 9 && 0 <= t < K
    requires (rd * K + t) * den < rest < (rd * K + t + 1) * den
    ensures rest > 0
    ensures rd >= 5 ==> 2 * rest > den * (10 * K)
    ensures rd < 5 ==> 2 * rest < den * (10 * K)
  {
    TimesCases(rd, K);
    AtLeastTimes(0, rd * K + t, den);
    HalfUnit(K, den);
    if rd >= 5 {
      AtLeastTimes(5 * K, rd * K + t, den);
    } else {
      AtLeastTimes(rd * K + t + 1, 5 * K, den);
    }
  }

  lemma HalfUnit(K: int, den: int)
    ensures den * (10 * K) == 2 * ((5 * K) * den)
  {}
}
