/** Decimal objects, and `finalise` on them: rounding in place, then the check of the exponent range. */
module Decimals {
  import opened Words
  import opened Rounding
  import opened Amounts
  import opened Finalise

  /** The largest precision. */
  const MAX_DIGITS: int := 1_000_000_000

  const EXP_LIMIT: int := 9_000_000_000_000_000

  /** The settings of a Decimal constructor. */
  datatype Config = Config(precision: int, rounding: int, toExpNeg: int, toExpPos: int, minE: int, maxE: int)

  predicate ValidConfig(c: Config) {
    && 1 <= c.precision <= MAX_DIGITS && 0 <= c.rounding <= 8
    && -EXP_LIMIT <= c.toExpNeg <= 0 <= c.toExpPos <= EXP_LIMIT
    && -EXP_LIMIT <= c.minE <= 0 <= c.maxE <= EXP_LIMIT
  }

  /** The digits and exponent of v units of 10^u, with zero written as the one word 0. */
  predicate Written(d: seq<int>, e: int, v: int, u: int) {
    if v == 0 then d == [0] && e == 0 else Canonical(d, e) && Denotes(d, e, v, u)
  }

  // ---- Fewer than one digit ----

  /** JavaScript's `%`, whose result has the sign of its left operand. */
  function JsMod(a: int, b: int): int
    requires b > 0
  {
    if a >= 0 then a % b else -((-a) % b)
  }

  lemma JsModWraps(a: int)
    ensures JsMod(LOG_BASE - JsMod(a, LOG_BASE), LOG_BASE) == (-a) % LOG_BASE
  {}

  lemma BelowFirstDigit(rm: int, s: int, d: seq<int>, sd: int, isTruncated: bool)
    requires AreWords(d) && |d| > 0 && d[0] > 0 && (isTruncated || d[|d| - 1] > 0) && sd < 1 && 0 <= rm <= 8
    ensures Val(d) >= 0
    ensures var digits := Digits(d[0]);
      Target(rm, s, Val(d), Figures(d), sd, isTruncated)
      == if RoundUp(rm, s, d[0] / Pow10(digits - sd - 1) % 10, Sticky(d, isTruncated, sd, 0, digits, sd), false) then 1
          else 0
  {
    hide Val, Pow10, Digits, RoundUp, Target;
    ValBounds(d);
    FirstDigitDropped(d, sd, isTruncated);
    Magnitude(d, Digits(d[0]) - 1 + 7 * 0) by { WordDigits(d[0]); DigitsLead(d[0]); }
    var K := Pow10(Figures(d) - sd - 1);
    Pow10Add(1, Figures(d) - sd - 1);
    SmallPowers();
    Pow10Monotone(Figures(d), Figures(d) - sd);
    DivIs(Val(d), 10 * K, 0, Val(d));
    Decision(rm, s, Val(d), Figures(d), sd, isTruncated, K, Sticky(d, isTruncated, sd, 0, Digits(d[0]), sd), false);
  }

  lemma DigitsLead(w: int)
    requires 0 < w < BASE
    ensures (Digits(w) - 1) % 7 == Digits(w) - 1
  {
    hide Digits;
    WordDigits(w);
  }

  lemma FirstDigitDropped(d: seq<int>, sd: int, isTruncated: bool)
    requires AreWords(d) && |d| > 0 && d[0] > 0 && (isTruncated || d[|d| - 1] > 0) && sd < 1
    ensures Val(d) >= 0 && Digits(d[0]) <= 7
    ensures var K := Pow10(Figures(d) - sd - 1);
      && Val(d) / K % 10 == d[0] / Pow10(Digits(d[0]) - sd - 1) % 10
      && (Sticky(d, isTruncated, sd, 0, Digits(d[0]), sd) <==> isTruncated || Val(d) % K != 0)
  {
    hide Val, Pow10, Digits;
    ValBounds(d);
    WordDigits(d[0]);
    DigitsLead(d[0]);
    if sd == 0 {
      DigitPlace(d, 0, 7 - Digits(d[0]));
      TailPositiveUnless(d, isTruncated);
    } else {
      Magnitude(d, Digits(d[0]) - 1);
      AllBelow(Val(d), Figures(d), Figures(d) - sd - 1);
      DigitsBounds(d[0]);
      AllBelow(d[0], Digits(d[0]), Digits(d[0]) - sd - 1);
      if Val(d) == 0 { PositiveVal(d); }
    }
  }

  lemma TailPositiveUnless(d: seq<int>, isTruncated: bool)
    requires AreWords(d) && |d| > 0 && (isTruncated || d[|d| - 1] > 0)
    ensures !isTruncated ==> (Val(d[1..]) != 0 <==> 1 < |d|)
  {}

  lemma PositiveVal(d: seq<int>)
    requires AreWords(d) && |d| > 0 && d[0] > 0
    ensures Val(d) > 0
  {}

  lemma AllBelow(v: nat, n: nat, m: nat)
    requires v < Pow10(n) && n <= m
    ensures v / Pow10(m) % 10 == 0 && v % Pow10(m) == v
  {
    hide Pow10;
    Pow10Monotone(n, m);
    DivIs(v, Pow10(m), 0, v);
  }

  lemma PowerOfTenWritten(e: int)
    ensures Written([Pow10(e % 7)], e, 1, e)
  {
    hide Pow10, Digits, Val;
    var m := e % 7;
    Pow10Less(m, m + 1);
    DigitsAre(Pow10(m), m + 1);
    SmallPowers();
    Pow10Monotone(m, 6);
    ValSingle(Pow10(m));
    assert 7 * (e / 7) + m == e;
  }

  method RoundToNothing(s: int, e0: int, d0: seq<int>, sd: int, rm: int, isTruncated: bool)
    returns (d: seq<int>, e: int)
    requires Aligned(d0, e0) && (isTruncated || d0[|d0| - 1] > 0) && 0 <= rm <= 8 && sd < 1
    ensures Val(d0) >= 0 && Written(d, e, Target(rm, s, Val(d0), Figures(d0), sd, isTruncated), e0 + 1 - sd)
  {
    hide Val, Pow10, Digits, Target, Written, JsMod;
    WordDigits(d0[0]);
    var digits := Digits(d0[0]);
    var j := sd;
    BelowFirstDigit(rm, s, d0, sd, isTruncated);
    var rd := ToInt32(d0[0] / Pow10(digits - j - 1) % 10);
    if RoundUp(rm, s, rd, Sticky(d0, isTruncated, sd, 0, digits, j),
               LeftOdd(d0, 0, digits, sd - digits + LOG_BASE, j)) {
      var places := sd - (e0 + 1);
      JsModWraps(places);
      PowerOfTenWritten(-places);
      d := [Pow10(JsMod(LOG_BASE - JsMod(places, LOG_BASE), LOG_BASE))];
      e := -places;
    } else {
      ZeroWritten(e0 + 1 - sd);
      d, e := [0], 0;
    }
  }

  lemma ZeroWritten(u: int)
    ensures Written([0], 0, 0, u)
  {}

  lemma KeptWritten(rm: int, s: int, d0: seq<int>, e0: int, sd: int, isTruncated: bool, d: seq<int>, e: int)
    requires Aligned(d0, e0) && 0 <= rm <= 8 && sd >= 1 && Val(d0) >= 0 && Canonical(d, e)
    requires Denotes(d, e, Target(rm, s, Val(d0), Figures(d0), sd, isTruncated), e0 + 1 - sd)
    ensures Written(d, e, Target(rm, s, Val(d0), Figures(d0), sd, isTruncated), e0 + 1 - sd)
  {
    hide Val, Pow10, Digits, Target, SameAmount;
    var v := Target(rm, s, Val(d0), Figures(d0), sd, isTruncated);
    if v == 0 { NotZero(d, e, e0 + 1 - sd); }
  }

  lemma NotZero(d: seq<int>, e: int, u: int)
    requires Canonical(d, e)
    ensures !Denotes(d, e, 0, u)
  {}

  // ---- Zero ----

  /**
   * What can be rounded: zero, or words without leading zeros, and without trailing ones unless something was cut off.
   */
  predicate Roundable(d: seq<int>, e: int, isTruncated: bool) {
    (Aligned(d, e) && (isTruncated || d[|d| - 1] > 0)) || (d == [0] && e == 0)
  }

  /** An exact zero that is rounded to fewer than no digits away from zero becomes a unit. */
  predicate Overshoots(rm: int, s: int, d: seq<int>, sd: int, isTruncated: bool) {
    d == [0] && sd < 0 && !isTruncated && (rm == ROUND_UP || rm == if s < 0 then ROUND_FLOOR else ROUND_CEIL)
  }

  lemma ZeroFigures()
    ensures Val([0]) == 0 && Figures([0]) == 1
  {}

  lemma ZeroTarget(rm: int, s: int, sd: int)
    ensures Target(rm, s, 0, 1, sd, false) == 0
  {
    hide Pow10;
    if 1 - sd >= 1 { DivIs(0, Pow10(1 - sd), 0, 0); }
  }

  /** Something too small for any digit, of which a mode that rounds away from zero makes a unit. */
  lemma TraceTarget(rm: int, s: int, sd: int)
    requires 0 <= rm <= 8
    ensures Target(rm, s, 0, 1, sd, true) == if RoundUp(rm, s, 0, true, false) then 1 else 0
  {
    hide Pow10;
    if sd < 1 {
      hide Rounded, Target;
      var K := Pow10(-sd);
      DivIs(0, K, 0, 0);
      DivIs(0, 10 * K, 0, 0);
      Decision(rm, s, 0, 1, sd, true, K, true, false);
    }
  }

  /** `finalise` on zero. */
  method RoundZero(s: int, sd: int, rm: int, isTruncated: bool) returns (d: seq<int>, e: int)
    requires 0 <= rm <= 8
    ensures sd >= 1 && !isTruncated ==> d == [0] && e == 0
    ensures Written(d, e, if Overshoots(rm, s, [0], sd, isTruncated) then 1
                    else Target(rm, s, 0, 1, sd, isTruncated), 1 - sd)
  {
    hide Val, Pow10, Digits, Target, Written, JsMod;
    ZeroTarget(rm, s, sd);
    TraceTarget(rm, s, sd);
    ZeroWritten(1 - sd);
    d, e := [0], 0;
    if sd >= 1 && !isTruncated {
      return;
    }
    var sticky := isTruncated || sd < 0;
    if RoundUp(rm, s, 0, sticky, false) {
      var places := sd - 1;
      JsModWraps(places);
      PowerOfTenWritten(-places);
      d := [Pow10(JsMod(LOG_BASE - JsMod(places, LOG_BASE), LOG_BASE))];
      e := -places;
    }
  }

  lemma ZeroInRange(c: Config, d: seq<int>)
    requires ValidConfig(c)
    ensures Clip(c, d, 0) == (d, 0)
  {}

  // ---- Decimal objects ----

  /** The check of the exponent range: too large becomes infinite, too small becomes zero. */
  function Clip(c: Config, d: seq<int>, e: int): (seq<int>, int) {
    if e > c.maxE then ([], 0) else if e < c.minE then ([0], 0) else (d, e)
  }

  predicate InRange(c: Config, e: int) {
    c.minE <= e <= c.maxE
  }

  /** What a copy of digits and exponent holds. */
  function Copied(c: Config, external: bool, d: seq<int>, e: int): (r: (seq<int>, int))
    ensures d != [] && (!external || InRange(c, e)) ==> r == (d, e)
    ensures d == [] ==> r.0 == []
  {
    if d == [] then ([], 0) else if external then Clip(c, d, e) else (d, e)
  }

  lemma CopiedTwice(c: Config, external: bool, d: seq<int>, e: int)
    requires ValidConfig(c)
    ensures var (yd, ye) := Copied(c, external, d, e); Copied(c, external, yd, ye) == (yd, ye)
  {}

  /** d and e are what v units of 10^u become, in a constructor whose exponents are checked when external is set. */
  ghost predicate Settles(c: Config, external: bool, v: int, u: int, d: seq<int>, e: int) {
    exists d1, e1 :: Written(d1, e1, v, u) && (d, e) == if external then Clip(c, d1, e1) else (d1, e1)
  }

  /** A sign, an exponent and a digit array; no digits for infinity and NaN, whose sign is 0 for NaN. */
  class Decimal {
    var s: int
    var e: int
    var d: seq<int>
    const ctor: Config

    predicate Valid()
      reads this
    {
      && ValidConfig(ctor) && -1 <= s <= 1
      && (d != [] ==> s != 0 && ((d == [0] && e == 0) || Canonical(d, e)))
    }

    predicate NonZero()
      reads this
    {
      d != [] && d[0] != 0
    }

    /** A new Decimal with the sign s and no digits yet. */
    constructor (ctor: Config, s: int)
      ensures this.s == s && this.ctor == ctor && e == 0 && d == []
    {
      this.ctor, this.s, this.e, this.d := ctor, s, 0, [];
    }

    /** A Decimal made from another one, its exponent checked when external is set. */
    constructor Copy(v: Decimal, external: bool)
      requires v.Valid()
      ensures Valid() && ctor == v.ctor && s == v.s
      ensures (d, e) == Copied(ctor, external, v.d, v.e)
    {
      ctor, s := v.ctor, v.s;
      if v.d == [] {
        d, e := [], 0;
      } else if external && v.e > v.ctor.maxE {
        d, e := [], 0;
      } else if external && v.e < v.ctor.minE {
        d, e := [0], 0;
      } else {
        d, e := v.d, v.e;
      }
    }

    /** The exponent check at the end of `finalise`. */
    method CheckRange(external: bool)
      modifies this`e, this`d
      ensures (d, e) == if external then Clip(ctor, old(d), old(e)) else (old(d), old(e))
    {
      if external {
        if e > ctor.maxE {
          d, e := [], 0;
        } else if e < ctor.minE {
          d, e := [0], 0;
        }
      }
    }

    /**
     * Rounds this Decimal to sd significant digits; isTruncated says that it stands for a slightly larger magnitude.
     * The exponent is checked when there are digits to keep.
     */
    method Finalise(sd: int, rm: int, isTruncated: bool, external: bool)
      requires ValidConfig(ctor) && 0 <= rm <= 8
      requires d != [] ==> Roundable(d, e, isTruncated)
      modifies this`e, this`d
      ensures old(d) == [] || (old(d) == [0] && sd >= 1 && !isTruncated) ==> d == old(d) && e == old(e)
      ensures Overshoots(rm, s, old(d), sd, isTruncated) ==> Written(d, e, 1, 1 - sd)
      ensures old(d) != [] && !Overshoots(rm, s, old(d), sd, isTruncated) ==>
        old(Val(d)) >= 0 &&
        Settles(ctor, external && sd >= 1 &&
                old(d) != [0], Target(rm, s, old(Val(d)), old(Figures(d)), sd, isTruncated),
                old(e) + 1 - sd, d, e)
    {
      hide Val, Target, Digits, Canonical, Pow10, Written, Clip;
      if d == [] {
        return;
      }
      ghost var d0, e0 := d, e;
      if d[0] == 0 {
        ZeroFigures();
        d, e := RoundZero(s, sd, rm, isTruncated);
        if !Overshoots(rm, s, d0, sd, isTruncated) {
          Settled(ctor, false, Target(rm, s, 0, 1, sd, isTruncated), 1 - sd, d, e);
        }
        if sd >= 1 && !isTruncated {
          ZeroInRange(ctor, d);
          CheckRange(external);
        }
        return;
      }
      if sd < 1 {
        d, e := RoundToNothing(s, e, d, sd, rm, isTruncated);
        Settled(ctor, false, Target(rm, s, Val(d0), Figures(d0), sd, isTruncated), e0 + 1 - sd, d, e);
        return;
      }
      d, e := RoundKept(s, e, d, sd, rm, isTruncated);
      KeptWritten(rm, s, d0, e0, sd, isTruncated, d, e);
      Settled(ctor, external, Target(rm, s, Val(d0), Figures(d0), sd, isTruncated), e0 + 1 - sd, d, e);
      CheckRange(external);
    }
  }

  lemma Settled(c: Config, external: bool, v: int, u: int, d: seq<int>, e: int)
    requires Written(d, e, v, u)
    ensures var r := if external then Clip(c, d, e) else (d, e);
      Settles(c, external, v, u, r.0, r.1)
  {}
}
