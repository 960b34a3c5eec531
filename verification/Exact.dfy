/** Rounding of a magnitude that is known exactly, or up to less than a digit that no rounding looks at. */
module Exact {
  import opened Words
  import opened LongDivision
  import opened Quotient
  import opened Rounding
  import opened Amounts
  import opened Finalise
  import opened Decimals
  import opened Division

  /** d and e are v units of 10^u, rounded to pr significant digits. */
  ghost predicate RoundedAmount(c: Config, s: int, pr: int, rm: int, v: int, u: int, d: seq<int>, e: int) {
    v > 0 && pr > 0 && RoundedQuotient(c, true, s, pr, rm, v, 1, u, d, e)
  }

  lemma NumScaled(X: int, k: int, j: nat)
    requires k + j >= 0
    ensures Num(X, k) * Pow10(j) == (X * Pow10(k + j)) * Den(1, k)
  {
    hide Pow10;
    if k >= 0 {
      PowerOver(X, k, j);
    } else {
      PowerOver(X, k + j, -k);
    }
  }

  /** Equal amounts are equal fractions in any unit. */
  lemma AmountFraction(X: int, a: int, v: int, b: int, w: int)
    requires SameAmount(X, a, v, b)
    ensures Num(X, a - w) * Den(1, b - w) == Num(v, b - w) * Den(1, a - w)
  {
    hide Pow10, Num, Den, SameAmount;
    var z := if a <= b && a <= w then a else if b <= w then b else w;
    SameInUnit(X, a, v, b, z);
    NumScaled(X, a - w, w - z);
    NumScaled(v, b - w, w - z);
    FractionsMeet(Num(X, a - w), Num(v, b - w), Den(1, a - w), Den(1, b - w), Pow10(w - z), X * Pow10(a - z));
  }

  lemma FractionsMeet(n: int, n': int, d: int, d': int, p: int, x: int)
    requires p > 0 && n * p == x * d && n' * p == x * d'
    ensures n * d' == n' * d
  {}

  lemma SameRounding(rm: int, s: int, pr: nat, X: int, a: int, v: int, b: int, w: int)
    requires X > 0 && v > 0 && pr > 0 && SameAmount(X, a, v, b) && HasFigures(X, 1, a - w, pr)
    ensures HasFigures(v, 1, b - w, pr) && RoundedAt(rm, s, X, 1, a - w) == RoundedAt(rm, s, v, 1, b - w)
  {
    hide Pow10, Num, Den, SameAmount, Rounded;
    AmountFraction(X, a, v, b, w);
    NumPositive(X, a - w);
    NumPositive(v, b - w);
    DenPositive(1, a - w);
    DenPositive(1, b - w);
    FiguresSame(Pow10(pr - 1), Pow10(pr), Num(X, a - w), Den(1, a - w), Num(v, b - w), Den(1, b - w));
    RoundedSame(rm, s < 0, Num(X, a - w), Den(1, a - w), Num(v, b - w), Den(1, b - w));
  }

  lemma PositiveAmount(X: int, a: int, v: int, b: int)
    requires X > 0 && SameAmount(X, a, v, b)
    ensures v > 0
  {}

  lemma WholeQuotient(X: int)
    requires X > 0
    ensures IsQuotient(X, 1, 0, 0, X, false)
  {}

  /** What `finalise` does to canonical digits, in terms of what they are worth. */
  lemma DigitsRounded(rm: int, s: int, pr: nat, d0: seq<int>, e0: int)
    requires 0 <= rm <= 8 && pr > 0 && Canonical(d0, e0)
    ensures var w := e0 + 1 - pr;
      && Val(d0) > 0 && HasFigures(Val(d0), 1, Low(d0, e0) - w, pr)
      && Target(rm, s, Val(d0), Figures(d0), pr, false) == RoundedAt(rm, s, Val(d0), 1, Low(d0, e0) - w)
  {
    hide Val, Pow10, Target, Digits, HasFigures, RoundedAt, IsQuotient;
    PositiveVal(d0);
    WholeQuotient(Val(d0));
    Magnitude(d0, e0);
    LowIs(d0, e0);
    WordsRound(rm, s, Val(d0), 1, 0, 0, Val(d0), false, Figures(d0), pr);
  }

  lemma ExactlyRounded(c: Config, s: int, pr: nat, rm: int, d0: seq<int>, e0: int, v: int, u: int, d: seq<int>, e: int)
    requires 0 <= rm <= 8 && pr > 0 && Canonical(d0, e0) && Denotes(d0, e0, v, u) && Val(d0) >= 0
    requires Settles(c, true, Target(rm, s, Val(d0), Figures(d0), pr, false), e0 + 1 - pr, d, e)
    ensures RoundedAmount(c, s, pr, rm, v, u, d, e)
  {
    hide Val, Pow10, Target, Digits, HasFigures, RoundedAt, SameAmount, Settles;
    var w := e0 + 1 - pr;
    DigitsRounded(rm, s, pr, d0, e0);
    PositiveAmount(Val(d0), Low(d0, e0), v, u);
    SameRounding(rm, s, pr, Val(d0), Low(d0, e0), v, u, w);
    assert RoundedInUnit(c, true, s, pr, rm, v, 1, u, w, d, e);
  }

  /** `finalise` leaves what the exact magnitude is rounded to. */
  lemma SettlesIn(c: Config, s: int, pr: nat, rm: int, d0: seq<int>, e0: int, v: int, u: int, d: seq<int>, e: int)
    requires 0 <= rm <= 8 && pr > 0 && Canonical(d0, e0) && Denotes(d0, e0, v, u) && Val(d0) >= 0
    requires Settles(c, true, Target(rm, s, Val(d0), Figures(d0), pr, false), e0 + 1 - pr, d, e)
    ensures RoundedAmount(c, s, pr, rm, v, u, d, e)
    ensures d == [] || (d == [0] && e == 0) || Canonical(d, e)
  {
    hide Val, Pow10, Target, Digits, SameAmount, Settles;
    ExactlyRounded(c, s, pr, rm, d0, e0, v, u, d, e);
    SettlesValid(c, true, Target(rm, s, Val(d0), Figures(d0), pr, false), e0 + 1 - pr, d, e);
  }

  // ---- Magnitudes that differ only where no rounding looks ----

  /** v units of 10^u lie strictly between m and m + 1 units of 10^t. */
  predicate StrictlyBetween(m: int, t: int, v: int, u: int) {
    t >= u && m * Pow10(t - u) < v < (m + 1) * Pow10(t - u)
  }

  /** In a unit 10^w of more than one digit over 10^t, the rounding is decided by m. */
  lemma DecidedBelow(rm: int, s: int, m: nat, t: int, v: nat, u: int, w: int)
    requires 0 <= rm <= 8 && StrictlyBetween(m, t, v, u) && w > t && v > 0
    ensures RoundedAt(rm, s, v, 1, u - w)
         == m / (10 * Pow10(w - t - 1))
            + if RoundUp(rm, s, m / Pow10(w - t - 1) % 10, true, m / (10 * Pow10(w - t - 1)) % 2 == 1) then 1 else 0
  {
    hide Pow10, Rounded, RoundUp;
    var K, den := Pow10(w - t - 1), Pow10(t - u);
    TruncatedRounding(rm, s, m, K, m / (10 * K) % 2 == 1, v, den);
    Pow10Add(1, w - t - 1);
    SmallPowers();
    Pow10Add(t - u, w - t);
    NumDen(v, 1, u - w);
  }

  lemma FiguresDecided(m: nat, t: int, v: nat, u: int, v': nat, u': int, w: int, pr: nat)
    requires StrictlyBetween(m, t, v, u) && StrictlyBetween(m, t, v', u') && w >= t && pr > 0
    requires HasFigures(v, 1, u - w, pr)
    ensures HasFigures(v', 1, u' - w, pr)
  {
    hide Pow10;
    var den, den' := Pow10(t - u), Pow10(t - u');
    NumDen(v, 1, u - w);
    NumDen(v', 1, u' - w);
    Pow10Add(pr - 1 + (w - t), t - u);
    Pow10Add(pr + (w - t), t - u);
    Pow10Add(pr - 1 + (w - t), t - u');
    Pow10Add(pr + (w - t), t - u');
    Pow10Add(pr - 1, w - u);
    Pow10Add(pr, w - u);
    Pow10Add(pr - 1, w - u');
    Pow10Add(pr, w - u');
    AcrossMultiples(m, den, v, den', v', Pow10(pr - 1 + (w - t)), Pow10(pr + (w - t)));
    if u == w { SmallPowers(); }
    if u' == w { SmallPowers(); }
  }

  lemma AcrossMultiples(m: int, den: nat, v: int, den': nat, v': int, p: int, q: int)
    requires den > 0 && den' > 0 && m * den < v < (m + 1) * den && m * den' < v' < (m + 1) * den'
    requires p * den <= v < q * den
    ensures p * den' <= v' < q * den'
  {
    CancelFactor(den, p, m + 1);
    CancelFactor(den, m, q);
    AtLeastTimes(p, m, den');
    AtLeastTimes(m + 1, q, den');
  }
}
