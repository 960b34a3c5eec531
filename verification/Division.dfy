/** `divide`: the quotient of two Decimals, correctly rounded. */
module Division {
  import opened Words
  import opened LongDivision
  import opened Quotient
  import opened Rounding
  import opened Amounts
  import opened Finalise
  import opened Decimals

  // ---- Which fraction is smaller ----

  lemma FractionBelow(xd: seq<int>, yd: seq<int>, p: nat)
    requires AreWords(xd) && AreWords(yd) && Padded(xd, p) < Padded(yd, p)
    ensures Val(xd) * BasePow(|yd|) < Val(yd) * BasePow(|xd|)
  {
    hide Val, BasePow, Padded;
    var X, Y, u, v := Val(xd), Val(yd), BasePow(|xd|), BasePow(|yd|);
    PaddedBracket(xd, p);
    PaddedBracket(yd, p);
    CrossBracket(X, Y, u, v, BasePow(p), Padded(xd, p), Padded(yd, p));
  }

  lemma CrossBracket(X: int, Y: int, u: int, v: int, B: int, a: int, b: int)
    requires u > 0 && v > 0 && B > 0 && a < b
    requires X * B < (a + 1) * u && b * v <= Y * B
    ensures X * v < Y * u
  {}

  lemma Scaled(a: int, b: int, k: int)
    requires a < b && k > 0
    ensures a * k < b * k
  {}

  lemma Swap(a: int, b: int, c: int)
    ensures (a * b) * c == (a * c) * b
  {}

  lemma FractionNotBelow(xd: seq<int>, yd: seq<int>)
    requires AreWords(xd) && Padded(xd, |yd|) >= Val(yd)
    ensures Val(xd) * BasePow(|yd|) >= Val(yd) * BasePow(|xd|)
  {
    hide Val, BasePow, Padded;
    PaddedBracket(xd, |yd|);
    AtLeastTimes(Val(yd), Padded(xd, |yd|), BasePow(|xd|));
  }

  lemma FirstWordDiffers(xd: seq<int>, yd: seq<int>, i: nat)
    requires AreWords(xd) && AreWords(yd) && i <= |yd| && Padded(xd, i) == Padded(yd, i)
    requires i == |yd| || yd[i] != WordAt(xd, i)
    ensures Smaller(Val(xd), |xd|, Val(yd), |yd|) == if i < |yd| && yd[i] > WordAt(xd, i) then 1 else 0
  {
    hide Val, BasePow, Padded;
    if i == |yd| {
      PaddedAll(yd);
      FractionNotBelow(xd, yd);
    } else {
      PaddedStep(xd, i);
      PaddedStep(yd, i);
      if yd[i] > WordAt(xd, i) {
        FractionBelow(xd, yd, i + 1);
      } else {
        FractionBelow(yd, xd, i + 1);
      }
    }
  }

  lemma PaddedAll(d: seq<int>)
    ensures Padded(d, |d|) == Val(d)
  {
    assert d[..|d|] == d;
  }

  /** Whether the exponent of the quotient is one less than the difference of the exponents. */
  method OneLess(xd: seq<int>, yd: seq<int>) returns (r: int)
    requires AreWords(xd) && AreWords(yd) && |xd| > 0 && |yd| > 0
    ensures r == Smaller(Val(xd), |xd|, Val(yd), |yd|)
  {
    hide Val, Padded, Smaller;
    var i := 0;
    assert Padded(xd, 0) == Padded(yd, 0) by { assert xd[..0] == yd[..0]; PaddedZero(xd, yd); }
    while i < |yd| && yd[i] == WordAt(xd, i)
      invariant 0 <= i <= |yd| && Padded(xd, i) == Padded(yd, i)
    {
      PaddedStep(xd, i);
      PaddedStep(yd, i);
      i := i + 1;
    }
    FirstWordDiffers(xd, yd, i);
    r := if i < |yd| && yd[i] > WordAt(xd, i) then 1 else 0;
  }

  lemma PaddedZero(xd: seq<int>, yd: seq<int>)
    ensures Padded(xd, 0) == Padded(yd, 0)
  {}

  // ---- Quotients in units of a power of ten ----

  /** X * 10^k / Y as a fraction of integers. */
  function Num(X: int, k: int): int {
    if k >= 0 then X * Pow10(k) else X
  }

  function Den(Y: int, k: int): int {
    if k >= 0 then Y else Y * Pow10(-k)
  }

  lemma DenPositive(Y: int, k: int)
    requires Y > 0
    ensures Den(Y, k) > 0
  {}

  lemma NumPositive(X: int, k: int)
    requires X > 0
    ensures Num(X, k) > 0
  {}

  /** The magnitude X * 10^k / Y has pr digits before the point. */
  predicate HasFigures(X: int, Y: int, k: int, pr: nat)
    requires pr > 0
  {
    Pow10(pr - 1) * Den(Y, k) <= Num(X, k) < Pow10(pr) * Den(Y, k)
  }

  /**
   * d and e are X * 10^k / Y rounded to pr significant digits: the unit 10^u is the one in which the quotient has pr
   * digits before the point, and the digits are those of the integer that the mode selects for it.
   */
  ghost predicate RoundedQuotient(c: Config, external: bool, s: int, pr: nat, rm: int, X: int, Y: int, k: int,
                                  d: seq<int>, e: int)
    requires X > 0 && Y > 0 && pr > 0
  {
    exists u: int :: RoundedInUnit(c, external, s, pr, rm, X, Y, k, u, d, e)
  }

  ghost predicate RoundedInUnit(c: Config, external: bool, s: int, pr: nat, rm: int, X: int, Y: int, k: int, u: int,
                                d: seq<int>, e: int)
    requires X > 0 && Y > 0 && pr > 0
  {
    HasFigures(X, Y, k - u, pr) && Settles(c, external, RoundedAt(rm, s, X, Y, k - u), u, d, e)
  }

  function RoundedAt(rm: int, s: int, X: int, Y: int, k: int): nat
    requires X > 0 && Y > 0
  {
    DenPositive(Y, k);
    NumPositive(X, k);
    Rounded(rm, s < 0, Num(X, k), Den(Y, k))
  }

  lemma RoundedScale(rm: int, negative: bool, n: nat, d: nat, c: nat)
    requires d > 0 && c > 0
    ensures n * c >= 0 && d * c > 0
    ensures Rounded(rm, negative, n * c, d * c) == Rounded(rm, negative, n, d)
  {
    DivMod(n, d);
    var q, r := n / d, n % d;
    AtLeastTimes(1, d, c);
    AtLeastTimes(0, n, c);
    ScaleParts(n, d, c, q, r);
    DivIs(n * c, d * c, q, r * c);
    ScaleHalf(r, d, c);
  }

  lemma ScaleParts(n: int, d: int, c: int, q: int, r: int)
    requires c > 0 && n == q * d + r && 0 <= r < d
    ensures n * c == q * (d * c) + r * c && 0 <= r * c < d * c
  {}

  lemma ScaleHalf(r: int, d: int, c: int)
    requires c > 0
    ensures 2 * (r * c) > d * c <==> 2 * r > d
    ensures 2 * (r * c) == d * c <==> 2 * r == d
    ensures r * c > 0 <==> r > 0
  {}

  /** Equal fractions are rounded alike. */
  lemma RoundedSame(rm: int, negative: bool, n: nat, d: nat, n': nat, d': nat)
    requires d > 0 && d' > 0 && n * d' == n' * d
    ensures Rounded(rm, negative, n, d) == Rounded(rm, negative, n', d')
  {
    hide Rounded;
    RoundedScale(rm, negative, n, d, d');
    RoundedScale(rm, negative, n', d', d);
    assert d * d' == d' * d;
  }

  lemma FiguresSame(p: nat, p': nat, n: nat, d: nat, n': nat, d': nat)
    requires d > 0 && d' > 0 && n * d' == n' * d && p * d <= n < p' * d
    ensures p * d' <= n' < p' * d'
  {}

  // ---- Rounding the quotient words rounds the quotient ----

  lemma WideQuotient(rm: int, s: int, n: nat, d: nat, Q: nat, more: bool, T: nat, pr: nat)
    requires 0 <= rm <= 8 && d > 0 && Q * d <= n < (Q + 1) * d && (more <==> Q * d != n) && T > pr
    ensures d * Pow10(T - pr) > 0
    ensures Target(rm, s, Q, T, pr, more) == Rounded(rm, s < 0, n, d * Pow10(T - pr))
  {
    hide Pow10, Rounded, RoundUp;
    var K := Pow10(T - pr - 1);
    Pow10Add(1, T - pr - 1);
    SmallPowers();
    AtLeastTimes(1, d, Pow10(T - pr));
    if more {
      hide Target;
      var leftOdd := Q / (10 * K) % 2 == 1;
      Decision(rm, s, Q, T, pr, true, K, true, leftOdd);
      TruncatedRounding(rm, s, Q, K, leftOdd, n, d);
    } else {
      Associate(Q, d, Pow10(T - pr));
      RoundedSame(rm, s < 0, Q, Pow10(T - pr), n, d * Pow10(T - pr));
    }
  }

  lemma NarrowQuotient(rm: int, s: int, n: nat, d: nat, Q: nat, T: nat, pr: nat)
    requires 0 <= rm <= 8 && d > 0 && Q * d == n && T <= pr
    ensures n * Pow10(pr - T) >= 0
    ensures Target(rm, s, Q, T, pr, false) == Rounded(rm, s < 0, n * Pow10(pr - T), d)
  {
    hide Pow10;
    var p := Pow10(pr - T);
    Swap(Q, d, p);
    AtLeastTimes(0, Q, p);
    DivIs(n * p, d, Q * p, 0);
  }

  lemma QuotientFigures(n: nat, d: nat, Q: nat, T: nat, a: nat, b: nat, pr: nat)
    requires d > 0 && pr > 0 && T + a == pr + b && T > 0
    requires Q * d <= n < (Q + 1) * d && Pow10(T - 1) <= Q < Pow10(T)
    ensures Pow10(pr - 1) * (d * Pow10(b)) <= n * Pow10(a) < Pow10(pr) * (d * Pow10(b))
  {
    hide Pow10;
    AtLeastTimes(Pow10(T - 1), Q, d);
    AtLeastTimes(Q + 1, Pow10(T), d);
    AtLeastTimes(Pow10(T - 1) * d, n, Pow10(a));
    Scaled(n, Pow10(T) * d, Pow10(a));
    SamePower(T - 1, a, pr - 1, b, d);
    SamePower(T, a, pr, b, d);
  }

  lemma SamePower(i: nat, a: nat, j: nat, b: nat, d: int)
    requires i + a == j + b
    ensures (Pow10(i) * d) * Pow10(a) == Pow10(j) * (d * Pow10(b))
  {
    hide Pow10;
    PowerOver(d, i, a);
    PowerOver(d, j, b);
    PowerOver(d, b, j);
    Commute(Pow10(i), d);
    Commute(Pow10(j), d * Pow10(b));
  }

  lemma Commute(a: int, b: int)
    ensures a * b == b * a
  {}

  /** The fraction of scaled words is the fraction of scaled integers. */
  lemma SameFraction(X: int, Y: int, p: nat, q: nat, k: int, n: int, d: int)
    requires k == p - q && n == X * Pow10(p) && d == Y * Pow10(q)
    ensures n * Den(Y, k) == Num(X, k) * d
  {
    hide Pow10, Num, Den;
    NumDen(X, Y, k);
    if k >= 0 {
      CrossPowers(X, Y, p, q, k);
    } else {
      CrossPowers(Y, X, q, p, -k);
    }
  }

  lemma CrossPowers(X: int, Y: int, p: nat, q: nat, k: nat)
    requires p == q + k
    ensures (X * Pow10(p)) * Y == (X * Pow10(k)) * (Y * Pow10(q))
    ensures Y * (X * Pow10(p)) == (Y * Pow10(q)) * (X * Pow10(k))
  {
    hide Pow10;
    PowerOver(X, k, q);
    FourFactors(X * Pow10(k), Pow10(q), Y);
    Commute(Y, X * Pow10(p));
    Commute(Y * Pow10(q), X * Pow10(k));
  }

  lemma FourFactors(a: int, p: int, b: int)
    ensures (a * p) * b == a * (b * p)
  {}

  lemma NumDen(X: int, Y: int, k: int)
    ensures if k >= 0 then Num(X, k) == X * Pow10(k) && Den(Y, k) == Y else Num(X, k) == X && Den(Y, k) == Y * Pow10(-k)
  {}

  lemma WordsRound(rm: int, s: int, X: int, Y: int, A: nat, B: nat, Q: int, more: bool, T: nat, pr: nat)
    requires 0 <= rm <= 8 && X > 0 && Y > 0 && pr > 0 && T > 0
    requires IsQuotient(X, Y, A, B, Q, more) && Pow10(T - 1) <= Q < Pow10(T) && (more ==> T > pr)
    ensures var k := 7 * A - 7 * B - (T - pr);
      HasFigures(X, Y, k, pr) && Target(rm, s, Q, T, pr, more) == RoundedAt(rm, s, X, Y, k)
  {
    hide Pow10, BasePow, Target, Rounded, Num, Den;
    var n, d, k := X * BasePow(A), Y * BasePow(B), 7 * A - 7 * B - (T - pr);
    BasePowIs(A);
    BasePowIs(B);
    AtLeastTimes(1, X, BasePow(A));
    AtLeastTimes(1, Y, BasePow(B));
    DenPositive(Y, k);
    NumPositive(X, k);
    var a, b := if T <= pr then pr - T else 0, if T > pr then T - pr else 0;
    SmallPowers();
    if T > pr {
      WideQuotient(rm, s, n, d, Q, more, T, pr);
    } else {
      NarrowQuotient(rm, s, n, d, Q, T, pr);
    }
    PowerOver(X, 7 * A, a);
    PowerOver(Y, 7 * B, b);
    SameFraction(X, Y, 7 * A + a, 7 * B + b, k, n * Pow10(a), d * Pow10(b));
    QuotientFigures(n, d, Q, T, a, b, pr);
    AtLeastTimes(1, d, Pow10(b));
    FiguresSame(Pow10(pr - 1), Pow10(pr), n * Pow10(a), d * Pow10(b), Num(X, k), Den(Y, k));
    RoundedSame(rm, s < 0, n * Pow10(a), d * Pow10(b), Num(X, k), Den(Y, k));
  }

  // ---- divide ----

  /** d and e are the magnitude xd, xe over the magnitude yd, ye, rounded to pr significant digits. */
  ghost predicate Divides(c: Config, external: bool, s: int, pr: int, rm: int, xd: seq<int>, xe: int, yd: seq<int>,
                          ye: int,
                          d: seq<int>, e: int)
  {
    && Val(xd) > 0 && Val(yd) > 0 && pr > 0
    && RoundedQuotient(c, external, s, pr, rm, Val(xd), Val(yd), Low(xd, xe) - Low(yd, ye), d, e)
  }

  /** The exponent of the quotient words, and what rounding them gives. */
  lemma QuotientRounded(c: Config, external: bool, s: int, pr: nat, rm: int, xd: seq<int>, xe: int, yd: seq<int>,
                        ye: int,
                        qd: seq<int>, qe: int, more: bool, d: seq<int>, e: int)
    requires 0 <= rm <= 8 && pr > 0 && Canonical(xd, xe) && Canonical(yd, ye) && Aligned(qd, qe)
    requires (more ==> |qd| >= pr / 7 + 2)
    requires IsQuotient(Val(xd), Val(yd), |yd| + |qd| + Smaller(Val(xd), |xd|, Val(yd), |yd|), |xd| + 1, Val(qd), more)
    requires qe / 7 == xe / 7 - ye / 7 - Smaller(Val(xd), |xd|, Val(yd), |yd|)
    requires Val(qd) >= 0 && Settles(c, external, Target(rm, s, Val(qd), Figures(qd), pr, more), qe + 1 - pr, d, e)
    ensures Divides(c, external, s, pr, rm, xd, xe, yd, ye, d, e)
  {
    hide Val, BasePow, Pow10, Smaller, IsQuotient, Target, Settles, Digits;
    PositiveVal(xd);
    PositiveVal(yd);
    var X, Y, lt, T, u := Val(xd), Val(yd), Smaller(Val(xd), |xd|, Val(yd), |yd|), Figures(qd), qe + 1 - pr;
    Magnitude(qd, qe);
    LowIs(qd, qe);
    assert more ==> T > pr;
    WordsRound(rm, s, X, Y, |yd| + |qd| + lt, |xd| + 1, Val(qd), more, T, pr);
    var k := Low(xd, xe) - Low(yd, ye);
    assert k - u == 7 * (|yd| + |qd| + lt) - 7 * (|xd| + 1) - (T - pr);
    assert RoundedInUnit(c, external, s, pr, rm, X, Y, k, u, d, e);
  }

  lemma SettlesValid(c: Config, external: bool, v: int, u: int, d: seq<int>, e: int)
    requires Settles(c, external, v, u, d, e)
    ensures d == [] || (d == [0] && e == 0) || Canonical(d, e)
  {}

  function QuotientSign(xs: int, ys: int): int {
    if xs == ys then 1 else -1
  }

  method Divide(x: Decimal, y: Decimal, pr: int, rm: int, external: bool) returns (q: Decimal)
    requires x.Valid() && y.Valid() && 1 <= pr <= MAX_DIGITS && 0 <= rm <= 8
    ensures fresh(q) && q.Valid() && q.ctor == x.ctor
    ensures x.NonZero() && y.NonZero() ==>
      q.s == QuotientSign(x.s, y.s) && Divides(x.ctor, external, q.s, pr, rm, x.d, x.e, y.d, y.e, q.d, q.e)
    ensures q.s == 0 <==> x.s == 0 || y.s == 0 || (x.d == [] && y.d == []) || (x.d == [0] && y.d == [0])
    ensures q.s != 0 && (x.d == [0] || y.d == []) ==> q.s == QuotientSign(x.s, y.s) && q.d == [0]
    ensures q.s != 0 && (y.d == [0] || x.d == []) ==> q.s == QuotientSign(x.s, y.s) && q.d == []
  {
    hide Val, Smaller, IsQuotient, Target, Settles, Digits, Divides;
    var sign := QuotientSign(x.s, y.s);
    var xd, yd := x.d, y.d;
    if xd == [] || xd[0] == 0 || yd == [] || yd[0] == 0 {
      var isNaN := x.s == 0 || y.s == 0 || if xd != [] then yd != [] && xd[0] == yd[0] else yd == [];
      q := new Decimal(x.ctor, if isNaN then 0 else sign);
      if !isNaN && ((xd != [] && xd[0] == 0) || yd == []) {
        q.d := [0];
      }
      return;
    }
    var e := x.e / LOG_BASE - y.e / LOG_BASE;
    q := new Decimal(x.ctor, sign);
    var less := OneLess(xd, yd);
    e := e - less;
    var sd := ToInt32(pr / LOG_BASE + 2);
    var qd, more := QuotientWords(xd, yd, sd);
    WordDigits(qd[0]);
    var i := Digits(qd[0]);
    q.d := qd;
    q.e := i + e * LOG_BASE - 1;
    ghost var qe := q.e;
    q.Finalise(pr, rm, more, external);
    SettlesValid(q.ctor, external, Target(rm, q.s, Val(qd), Figures(qd), pr, more), qe + 1 - pr, q.d, q.e);
    QuotientRounded(q.ctor, external, q.s, pr, rm, xd, x.e, yd, y.e, qd, qe, more, q.d, q.e);
  }

  /** `x.dividedBy(y)`: the quotient at the precision and rounding mode of the constructor. */
  method DividedBy(x: Decimal, y: Decimal, external: bool) returns (q: Decimal)
    requires x.Valid() && y.Valid() && x.ctor == y.ctor
    ensures fresh(q) && q.Valid() && q.ctor == x.ctor
    ensures var (yd, ye) := Copied(x.ctor, external, y.d, y.e);
      && (q.s == 0 <==> x.s == 0 || y.s == 0 || (x.d == [] && yd == []) || (x.d == [0] && yd == [0]))
      && (q.s != 0 ==> q.s == QuotientSign(x.s, y.s))
      && (q.s != 0 && (x.d == [0] || yd == []) ==> q.d == [0])
      && (q.s != 0 && (x.d == [] || yd == [0]) ==> q.d == [])
      && (x.NonZero() && yd != [] && yd != [0] ==>
            Divides(x.ctor, external, q.s, x.ctor.precision, x.ctor.rounding, x.d, x.e, yd, ye, q.d, q.e))
  {
    hide Divides, Val, Copied;
    var c := new Decimal.Copy(y, external);
    q := Divide(x, c, x.ctor.precision, x.ctor.rounding, external);
  }
}
