/** The wallet's conversions between satoshis and bitcoin, on Decimals. */
module UnitToggle {
  import opened Words
  import opened LongDivision
  import opened Rounding
  import opened Amounts
  import opened Decimals
  import opened Division
  import opened Exact
  import opened Multiplication

  // ---- What rounding leaves alone ----

  /** A magnitude of at most pr digits is not changed by rounding to pr digits, only clipped to the exponent range. */
  lemma ShortAmountKept(c: Config, s: int, pr: nat, rm: int, v: int, u: int, d: seq<int>, e: int)
    requires RoundedAmount(c, s, pr, rm, v, u, d, e) && v < Pow10(pr)
    ensures exists d1, e1 :: Canonical(d1, e1) && Denotes(d1, e1, v, u) && (d, e) == Clip(c, d1, e1)
  {
    hide Val, Digits, Pow10, Num, Den, HasFigures, Settles, SameAmount, Rounded, RoundedAt;
    var w: int :| RoundedInUnit(c, true, s, pr, rm, v, 1, u, w, d, e);
    ShortInUnit(rm, s, pr, v, u - w);
    var V := v * Pow10(u - w);
    Unsettle(c, true, V, w, d, e);
    var d1, e1 :| Canonical(d1, e1) && Denotes(d1, e1, V, w) && (d, e) == Clip(c, d1, e1);
    SameScaled(v, w, u - w);
    SameSymmetric(v, w + (u - w), V, w);
    SameTransitive(Val(d1), Low(d1, e1), V, w, v, u);
  }

  lemma Unsettle(c: Config, external: bool, V: int, w: int, d: seq<int>, e: int)
    requires Settles(c, external, V, w, d, e) && V > 0 && external
    ensures exists d1, e1 :: Canonical(d1, e1) && Denotes(d1, e1, V, w) && (d, e) == Clip(c, d1, e1)
  {}

  lemma ShortInUnit(rm: int, s: int, pr: nat, v: int, k: int)
    requires pr > 0 && 0 < v < Pow10(pr) && HasFigures(v, 1, k, pr)
    ensures k >= 0 && v * Pow10(k) > 0 && RoundedAt(rm, s, v, 1, k) == v * Pow10(k)
  {
    hide Pow10;
    if k < 0 {
      Pow10Add(pr - 1, -k);
      Pow10Monotone(pr, pr - 1 - k);
    } else {
      AtLeastTimes(1, v, Pow10(k));
    }
  }

  /** Equal amounts are rounded alike. */
  lemma AmountTransfers(c: Config, s: int, pr: nat, rm: int, X: int, a: int, v: int, b: int, d: seq<int>, e: int)
    requires RoundedAmount(c, s, pr, rm, X, a, d, e) && SameAmount(X, a, v, b)
    ensures RoundedAmount(c, s, pr, rm, v, b, d, e)
  {
    hide Pow10, HasFigures, Settles, SameAmount, RoundedAt;
    var w: int :| RoundedInUnit(c, true, s, pr, rm, X, 1, a, w, d, e);
    PositiveAmount(X, a, v, b);
    SameRounding(rm, s, pr, X, a, v, b, w);
    assert RoundedInUnit(c, true, s, pr, rm, v, 1, b, w, d, e);
  }

  /** Ten in the divisor is a power of ten less in the dividend. */
  lemma TenDivides(X: int, k: int)
    ensures Num(X, k) * Den(1, k - 1) == Num(X, k - 1) * Den(10, k)
  {}

  lemma QuotientByTen(c: Config, s: int, pr: nat, rm: int, X: int, k: int, d: seq<int>, e: int)
    requires X > 0 && pr > 0 && RoundedQuotient(c, true, s, pr, rm, X, 10, k, d, e)
    ensures RoundedAmount(c, s, pr, rm, X, k - 1, d, e)
  {
    hide Pow10, Num, Den, Settles, Rounded;
    var w: int :| RoundedInUnit(c, true, s, pr, rm, X, 10, k, w, d, e);
    TenDivides(X, k - w);
    NumPositive(X, k - w);
    NumPositive(X, k - 1 - w);
    DenPositive(10, k - w);
    DenPositive(1, k - 1 - w);
    FiguresSame(Pow10(pr - 1), Pow10(pr), Num(X, k - w), Den(10, k - w), Num(X, k - 1 - w), Den(1, k - 1 - w));
    RoundedSame(rm, s < 0, Num(X, k - w), Den(10, k - w), Num(X, k - 1 - w), Den(1, k - 1 - w));
    assert RoundedInUnit(c, true, s, pr, rm, X, 1, k - 1, w, d, e);
  }

  // ---- Amounts of satoshis ----

  /** The Decimal of 100 000 000. */
  predicate IsHundredMillion(y: Decimal)
    reads y
  {
    y.s == 1 && y.d == [10] && y.e == 8
  }

  /** A constructor wide enough for every amount below 10^20 satoshis, in either unit; the default one is. */
  predicate WideEnough(c: Config) {
    ValidConfig(c) && c.precision >= 20 && c.minE <= -8 && c.maxE >= 19
  }

  const DEFAULTS := Config(20, 4, -7, 21, -EXP_LIMIT, EXP_LIMIT)

  lemma DefaultsWideEnough()
    ensures WideEnough(DEFAULTS)
  {}

  /** n is below 10^20, and so is the exponent of n units of 10^u. */
  lemma ExponentInRange(c: Config, d: seq<int>, e: int, n: int, u: int)
    requires WideEnough(c) && 0 < n < Pow10(20) && -8 <= u <= 0 && Canonical(d, e) && Denotes(d, e, n, u)
    ensures Clip(c, d, e) == (d, e)
  {
    hide Val, Pow10, Digits, SameAmount;
    var z := if Low(d, e) <= u then Low(d, e) else u;
    SameInUnit(Val(d), Low(d, e), n, u, z);
    Magnitude(d, e);
    LowIs(d, e);
    Between(Val(d), Figures(d), Low(d, e) - z);
    AtLeastTimes(1, n, Pow10(u - z));
    Pow10Add(20, u - z);
    CancelPow10(n, Pow10(20), u - z);
    if e < u { Pow10Monotone(e + 1 - z, u - z); }
    if e >= 20 + u { Pow10Monotone(20 + u - z, e - z); }
  }

  lemma HundredMillionIs(d: seq<int>, e: int)
    requires d == [10] && e == 8
    ensures Canonical(d, e) && Val(d) == 10 && Low(d, e) == 7
  {}

  /** `fromSatoshis`, before it is made a JavaScript number. */
  method FromSatoshis(sats: Decimal, y: Decimal, ghost n: int) returns (btc: Decimal)
    requires sats.Valid() && y.Valid() && sats.ctor == y.ctor && WideEnough(sats.ctor) && IsHundredMillion(y)
    requires 0 <= n < Pow10(20) && sats.s == 1 && Written(sats.d, sats.e, n, 0)
    ensures fresh(btc) && btc.Valid() && btc.ctor == sats.ctor && btc.s == 1 && Written(btc.d, btc.e, n, -8)
  {
    hide Val, Digits, Pow10, SameAmount, Canonical, RoundedAmount, Low, RoundedQuotient, Clip;
    HundredMillionIs(y.d, y.e);
    btc := DividedBy(sats, y, true);
    var c := sats.ctor;
    if n != 0 {
      CanonicalNonZero(sats.d, sats.e);
      QuotientByTen(c, 1, c.precision, c.rounding, Val(sats.d), Low(sats.d, sats.e) - 7, btc.d, btc.e);
      EighthPlace(Val(sats.d), Low(sats.d, sats.e), n);
      AmountTransfers(c, 1, c.precision, c.rounding, Val(sats.d), Low(sats.d, sats.e) - 8, n, -8, btc.d, btc.e);
      Pow10Monotone(20, c.precision);
      ShortAmountKept(c, 1, c.precision, c.rounding, n, -8, btc.d, btc.e);
      ghost var d1, e1 :| Canonical(d1, e1) && Denotes(d1, e1, n, -8) && (btc.d, btc.e) == Clip(c, d1, e1);
      ExponentInRange(c, d1, e1, n, -8);
    } else {
      ZeroNotCanonical(btc.d, btc.e);
    }
  }

  lemma CanonicalNonZero(d: seq<int>, e: int)
    requires Canonical(d, e)
    ensures d != [] && d[0] != 0
  {}

  lemma EighthPlace(x: int, a: int, n: int)
    requires SameAmount(x, a, n, 0)
    ensures SameAmount(x, a - 8, n, -8)
  {}

  /** `toSatoshis`, before it is made a JavaScript number. */
  method ToSatoshis(btc: Decimal, y: Decimal, ghost n: int) returns (sats: Decimal)
    requires btc.Valid() && y.Valid() && btc.ctor == y.ctor && WideEnough(btc.ctor) && IsHundredMillion(y)
    requires 0 <= n < Pow10(20) && btc.s == 1 && Written(btc.d, btc.e, n, -8)
    ensures fresh(sats) && sats.Valid() && sats.ctor == btc.ctor && sats.s == 1 && Written(sats.d, sats.e, n, 0)
  {
    hide Val, Digits, Pow10, SameAmount, Canonical, RoundedAmount, Low, Clip;
    HundredMillionIs(y.d, y.e);
    sats := Times(btc, y);
    var c := btc.ctor;
    if n != 0 {
      CanonicalNonZero(btc.d, btc.e);
      TimesTen(Val(btc.d), Low(btc.d, btc.e), n);
      AmountTransfers(c, 1, c.precision, c.rounding, Val(btc.d) * 10, Low(btc.d, btc.e) + 7, n, 0, sats.d, sats.e);
      Pow10Monotone(20, c.precision);
      ShortAmountKept(c, 1, c.precision, c.rounding, n, 0, sats.d, sats.e);
      ghost var d1, e1 :| Canonical(d1, e1) && Denotes(d1, e1, n, 0) && (sats.d, sats.e) == Clip(c, d1, e1);
      ExponentInRange(c, d1, e1, n, 0);
    } else {
      ZeroNotCanonical(sats.d, sats.e);
    }
  }

  lemma TimesTen(x: int, a: int, n: int)
    requires SameAmount(x, a, n, -8)
    ensures SameAmount(x * 10, a + 7, n, 0)
  {}

  /** Toggling the unit twice gives back every amount below 10^20 satoshis, digit for digit. */
  method ToggleTwice(sats: Decimal, y: Decimal, ghost n: int) returns (r: Decimal)
    requires sats.Valid() && y.Valid() && sats.ctor == y.ctor && WideEnough(sats.ctor) && IsHundredMillion(y)
    requires 0 <= n < Pow10(20) && sats.s == 1 && Written(sats.d, sats.e, n, 0)
    ensures fresh(r) && r.s == sats.s && r.d == sats.d && r.e == sats.e
  {
    hide Val, Digits, Pow10, SameAmount, Canonical, Low;
    var btc := FromSatoshis(sats, y, n);
    r := ToSatoshis(btc, y, n);
    if n != 0 {
      SameSymmetric(Val(sats.d), Low(sats.d, sats.e), n, 0);
      SameTransitive(Val(r.d), Low(r.d, r.e), n, 0, Val(sats.d), Low(sats.d, sats.e));
      CanonicalUnique(r.d, r.e, sats.d, sats.e);
    }
  }
}
