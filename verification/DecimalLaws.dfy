/** What the results of the operations on Decimal objects satisfy, whatever computes them. */
module DecimalLaws {
  import opened Words
  import opened Results
  import opened Rounding
  import opened Amounts
  import opened Finalise
  import opened Decimals
  import opened Division
  import opened Exact
  import opened Addition
  import opened PlusMinus

  // ---- Signs and ranges ----

  lemma SignsMultiply(xs: int, ys: int)
    requires xs == 1 || xs == -1
    requires ys == 1 || ys == -1
    ensures QuotientSign(xs, ys) == xs * ys
  {}

  /** A number outside the exponent range becomes infinite or zero, one inside stays. */
  lemma RangeIs(c: Config, d: seq<int>, e: int)
    requires ValidConfig(c)
    ensures c.minE <= e <= c.maxE ==> Clip(c, d, e) == (d, e)
    ensures e > c.maxE ==> Clip(c, d, e) == ([], 0)
    ensures e < c.minE ==> Clip(c, d, e) == ([0], 0)
  {}

  // ---- Rounding ----

  /** In steps of the last digit kept, an exact magnitude moves less than one, or at most half of one. */
  lemma ExactIsClose(rm: int, s: int, M: nat, T: nat, sd: int)
    requires 0 <= rm <= 8
    ensures var r := Target(rm, s, M, T, sd, false);
      if T <= sd then r == M * Pow10(sd - T)
      else
        var p := Pow10(T - sd);
        && (r - 1) * p < M < (r + 1) * p && (M % p == 0 ==> r * p == M)
        && (rm >= 4 ==> 2 * M <= 2 * (r * p) + p && 2 * (r * p) <= 2 * M + p)
  {
    hide Pow10, Rounded;
    if T > sd { RoundedIsClose(rm, s < 0, M, Pow10(T - sd)); }
  }

  /** A magnitude that lies between M and M + 1 likewise. */
  lemma TruncatedIsClose(rm: int, s: int, M: nat, T: nat, sd: int)
    requires 0 <= rm <= 8 && T > sd
    ensures var r, p := Target(rm, s, M, T, sd, true), Pow10(T - sd);
      && (r - 1) * p <= M < (r + 1) * p
      && (rm >= 4 ==> 2 * M + 1 <= 2 * (r * p) + p && 2 * (r * p) <= 2 * M + 1 + p)
  {
    hide Pow10, Rounded;
    var r: int, p: int := Target(rm, s, M, T, sd, true), Pow10(T - sd);
    RoundedIsClose(rm, s < 0, 2 * M + 1, 2 * p);
    Halved(r - 1, p);
    Halved(r, p);
    Halved(r + 1, p);
  }

  lemma Halved(r: int, p: int)
    ensures r * (2 * p) == 2 * (r * p)
  {}

  /**
   * A rounded quotient has pr digits, or is the power of ten after them, and in units of the last it is less than one
   * away from the quotient, or at most half of one.
   */
  lemma QuotientIsClose(c: Config, external: bool, s: int, pr: nat, rm: int, X: int, Y: int, k: int, u: int,
                        d: seq<int>, e: int)
    requires X > 0 && Y > 0 && pr > 0 && 0 <= rm <= 8
    requires RoundedInUnit(c, external, s, pr, rm, X, Y, k, u, d, e)
    ensures exists r: nat :: IsNear(rm, X, Y, k - u, pr, r) && Settles(c, external, r, u, d, e)
  {
    hide Pow10, Rounded, Settles, Num, Den;
    var n, t := Num(X, k - u), Den(Y, k - u);
    DenPositive(Y, k - u);
    NumPositive(X, k - u);
    var r := RoundedAt(rm, s, X, Y, k - u);
    RoundedIsClose(rm, s < 0, n, t);
    DivMod(n, t);
    FiguresOf(n, t, r, Pow10(pr - 1), Pow10(pr));
    assert IsNear(rm, X, Y, k - u, pr, r);
  }

  predicate IsNear(rm: int, X: int, Y: int, k: int, pr: nat, r: nat)
    requires pr > 0
  {
    && Pow10(pr - 1) <= r <= Pow10(pr)
    && (r - 1) * Den(Y, k) < Num(X, k) < (r + 1) * Den(Y, k)
    && (rm >= 4 ==>
          && 2 * Num(X, k) <= 2 * (r * Den(Y, k)) + Den(Y, k)
          && 2 * (r * Den(Y, k)) <= 2 * Num(X, k) + Den(Y, k))
  }

  lemma FiguresOf(n: nat, t: nat, r: nat, lo: nat, hi: nat)
    requires t > 0 && lo * t <= n < hi * t && n / t <= r <= n / t + 1
    ensures lo <= r <= hi
  {
    DivMod(n, t);
    var q := n / t;
    if q < lo { Steps(q + 1, lo, t); }
    if q >= hi { Steps(hi + 1, q + 1, t); }
  }

  // ---- Sums ----

  /** Sums commute, with all special values and the signs of zeros. */
  lemma SumsCommute(c: Config, xs: int, xd: seq<int>, xe: int, ys: int, yd: seq<int>, ye: int, s: int, d: seq<int>,
                    e: int)
    ensures AddsTo(c, xs, xd, xe, ys, yd, ye, s, d, e) <==> AddsTo(c, ys, yd, ye, xs, xd, xe, s, d, e)
  {
    hide Val, Total, Low, RoundedAmount;
    TotalCommutes(xs * Val(xd), Low(xd, xe), ys * Val(yd), Low(yd, ye));
  }

  /** Infinities and NaN. */
  lemma SpecialSums(c: Config, xs: int, ys: int, yd: seq<int>, ye: int, s: int, d: seq<int>, e: int)
    requires xs == 1 || xs == -1
    ensures AddsTo(c, 0, [], 0, ys, yd, ye, s, d, e) ==> s == 0
    ensures AddsTo(c, xs, [], 0, -xs, [], 0, s, d, e) ==> s == 0
    ensures AddsTo(c, xs, [], 0, xs, [], 0, s, d, e) ==> s == xs && d == []
    ensures ys != 0 && yd != [] && AddsTo(c, xs, [], 0, ys, yd, ye, s, d, e) ==> s == xs && d == []
  {
    hide IsSum;
  }

  /** A number less itself is -0 when rounding to -Infinity, and 0 otherwise; two zeros of one sign make that zero. */
  lemma DifferenceWithItself(c: Config, xs: int, xd: seq<int>, xe: int, s: int, d: seq<int>, e: int)
    requires xs == 1 || xs == -1
    ensures xd != [] && AddsTo(c, xs, xd, xe, -xs, xd, xe, s, d, e) ==>
      d == [0] && e == 0 && s == if c.rounding == 3 then -1 else 1
    ensures AddsTo(c, xs, [0], 0, xs, [0], 0, s, d, e) ==> d == [0] && e == 0 && s == xs
  {
    hide Val, Total, Low, IsSum;
    ZeroSum(c, xs, xd, xe, -xs, xd, xe, s, d, e) by { NothingLeft(xs, Val(xd), Low(xd, xe)); }
    ZeroSum(c, xs, [0], 0, xs, [0], 0, s, d, e) by {
      ValSingle(0);
      NothingLeft(xs, 0, Low([0], 0));
    }
  }

  lemma ZeroSum(c: Config, xs: int, xd: seq<int>, xe: int, ys: int, yd: seq<int>, ye: int, s: int, d: seq<int>, e: int)
    requires SignedTotal(xs, xd, xe, ys, yd, ye) == 0
    ensures IsSum(c, xs, xd, xe, ys, yd, ye, s, d, e) ==>
      d == [0] && e == 0 && s == if xs == ys then xs else if c.rounding == 3 then -1 else 1
  {
    hide SignedTotal, RoundedAmount;
  }

  lemma NothingLeft(s: int, x: int, a: int)
    ensures Total(s * x, a, -s * x, a) == 0
    ensures x == 0 ==> Total(s * x, a, s * x, a) == 0
  {}

  // ---- Comparisons ----

  /** Comparing the other way round gives the opposite answer. */
  lemma ComparisonsReverse(xs: int, xd: seq<int>, xe: int, ys: int, yd: seq<int>, ye: int, r: int)
    requires xs == 1 || xs == -1
    requires ys == 1 || ys == -1
    ensures ComparesTo(xs, xd, xe, ys, yd, ye, Some(r)) <==> ComparesTo(ys, yd, ye, xs, xd, xe, Some(-r))
  {
    hide Val, Total, Low;
    var x, a, y, b := xs * Val(xd), Low(xd, xe), ys * Val(yd), Low(yd, ye);
    TotalNegates(x, a, y, b);
    SignTotal(xs, ys, Val(xd), Val(yd), a, b);
  }

  lemma SignTotal(xs: int, ys: int, x: int, y: int, a: int, b: int)
    ensures Total(xs * x, a, -ys * y, b) == Total(xs * x, a, -(ys * y), b)
    ensures Total(ys * y, b, -xs * x, a) == Total(ys * y, b, -(xs * x), a)
  {}

  /** Infinity is more than every other number, -Infinity less, and NaN compares to nothing. */
  lemma SpecialComparisons(ys: int, yd: seq<int>, ye: int, r: Option<int>)
    requires ys == 1 || ys == -1
    ensures ComparesTo(1, [], 0, ys, yd, ye, r) <==> r == Some(if ys == 1 && yd == [] then 0 else 1)
    ensures ComparesTo(-1, [], 0, ys, yd, ye, r) <==> r == Some(if ys == -1 && yd == [] then 0 else -1)
    ensures ComparesTo(0, [], 0, ys, yd, ye, r) <==> r == None
  {
    hide SignedTotal;
  }
}
