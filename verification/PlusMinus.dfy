/** `plus`, `minus` and `comparedTo` on Decimal objects. */
module PlusMinus {
  import opened Words
  import opened LongDivision
  import opened Results
  import opened Amounts
  import opened Finalise
  import opened Decimals
  import opened Exact
  import opened WordSums
  import opened Addition

  /** The signed sum of two magnitudes, in units of the smaller last word. */
  function SignedTotal(xs: int, xd: seq<int>, xe: int, ys: int, yd: seq<int>, ye: int): int {
    Total(xs * Val(xd), Low(xd, xe), ys * Val(yd), Low(yd, ye))
  }

  /** s, d and e are v units of 10^u, rounded by the constructor's settings; a zero keeps the sign it is given. */
  ghost predicate RoundedSum(c: Config, v: int, u: int, zeroSign: int, s: int, d: seq<int>, e: int) {
    if v == 0 then s == zeroSign && d == [0] && e == 0
    else s == Sign(v) && RoundedAmount(c, s, c.precision, c.rounding, if v < 0 then -v else v, u, d, e)
  }

  /** The sum of xs * x and ys * y, the zero of operands of opposite signs being -0 only when rounding to -Infinity. */
  ghost predicate IsSum(c: Config, xs: int, xd: seq<int>, xe: int, ys: int, yd: seq<int>, ye: int, s: int, d: seq<int>,
                        e: int) {
    RoundedSum(c, SignedTotal(xs, xd, xe, ys, yd, ye), Min(Low(xd, xe), Low(yd, ye)),
               if xs == ys then xs else if c.rounding == 3 then -1 else 1, s, d, e)
  }

  /** x + y for all operands: NaN, infinities, zeros and numbers. */
  ghost predicate AddsTo(c: Config, xs: int, xd: seq<int>, xe: int, ys: int, yd: seq<int>, ye: int, s: int, d: seq<int>,
                         e: int) {
    if xs == 0 || ys == 0 then s == 0
    else if xd == [] then d == [] && s == if yd != [] || xs == ys then xs else 0
    else if yd == [] then d == [] && s == ys
    else IsSum(c, xs, xd, xe, ys, yd, ye, s, d, e)
  }

  // ---- Signs ----

  lemma SignedSame(s: int, x: int, a: int, y: int, b: int)
    requires s == 1 || s == -1
    ensures Total(s * x, a, s * y, b) == s * Total(x, a, y, b)
    ensures Total(s * x, a, -s * y, b) == s * Total(x, a, -y, b)
  {}

  lemma TotalPositive(x: int, a: int, y: int, b: int)
    requires x > 0 && y > 0
    ensures Total(x, a, y, b) > 0
  {}

  /** A sum with zero is the other operand. */
  lemma ZeroOperand(s: int, d: seq<int>, e: int, b: int)
    requires Canonical(d, e) && (s == 1 || s == -1)
    ensures Val([0]) == 0
    ensures var v := Total(s * Val(d), Low(d, e), b * 0, Low([0], 0));
      && v == Total(b * 0, Low([0], 0), s * Val(d), Low(d, e))
      && Sign(v) == s && Denotes(d, e, if v < 0 then -v else v, Min(Low(d, e), Low([0], 0)))
  {
    hide Val, Digits, SameAmount, Total;
    ValSingle(0);
    PositiveVal(d);
    var a, z := Low(d, e), Low([0], 0);
    NothingOf(b);
    TotalCommutes(s * Val(d), a, 0, z);
    OneOperand(s, Val(d), a, z);
  }

  lemma OneOperand(s: int, x: int, a: int, z: int)
    requires x > 0 && (s == 1 || s == -1)
    ensures var v := Total(s * x, a, 0, z);
      && Sign(v) == s && SameAmount(x, a, if v < 0 then -v else v, Min(a, z))
  {}

  // ---- plus and minus ----

  /** Rounds v units of 10^u, standing in the digits of y, by the constructor's settings. */
  method Settle(y: Decimal, ghost v: int, ghost u: int, ghost zeroSign: int)
    requires ValidConfig(y.ctor) && v != 0 && y.s == Sign(v)
    requires Canonical(y.d, y.e) && Stands(y.d, y.e, if v < 0 then -v else v, u, y.ctor.precision)
    modifies y`d, y`e
    ensures y.Valid() && RoundedSum(y.ctor, v, u, zeroSign, y.s, y.d, y.e)
  {
    hide Val, Digits, Canonical, Aligned, Stands, Target, Settles, RoundedAmount;
    ghost var d0, e0 := y.d, y.e;
    Roundability(y.d, y.e);
    y.Finalise(y.ctor.precision, y.ctor.rounding, false, true);
    StandsRounded(y.ctor, y.s, y.ctor.precision, y.ctor.rounding, d0, e0, if v < 0 then -v else v, u, y.d, y.e);
  }

  lemma Roundability(d: seq<int>, e: int)
    requires Canonical(d, e)
    ensures Roundable(d, e, false) && Aligned(d, e) && d != []
  {}

  lemma ClipKeeps(c: Config, d: seq<int>, e: int)
    ensures InRange(c, e) ==> Clip(c, d, e) == (d, e)
    ensures Clip(c, d, e) == (d, e) || Clip(c, d, e) == ([], 0) || Clip(c, d, e) == ([0], 0)
  {}

  lemma NotFinite(c: Config, xs: int, xd: seq<int>, xe: int, ys: int, yd: seq<int>, ye: int, s: int, d: seq<int>,
                  e: int)
    requires xd == [] || yd == []
    requires d == [] && s == if xs == 0 || ys == 0 then 0
      else if xd == [] then (if yd != [] || xs == ys then xs else 0) else ys
    ensures AddsTo(c, xs, xd, xe, ys, yd, ye, s, d, e)
  {}

  lemma SumIs(c: Config, xs: int, xd: seq<int>, xe: int, ys: int, yd: seq<int>, ye: int, v: int, u: int, zeroSign: int,
              s: int, d: seq<int>, e: int)
    requires xs != 0 && ys != 0 && xd != [] && yd != []
    requires v == SignedTotal(xs, xd, xe, ys, yd, ye) && u == Min(Low(xd, xe), Low(yd, ye))
    requires zeroSign == if xs == ys then xs else if c.rounding == 3 then -1 else 1
    requires RoundedSum(c, v, u, zeroSign, s, d, e)
    ensures AddsTo(c, xs, xd, xe, ys, yd, ye, s, d, e)
  {}

  /** A sum one of whose operands is zero, or both. */
  lemma SumWithZero(xs: int, xd: seq<int>, xe: int, ys: int, yd: seq<int>, ye: int, pr: nat)
    requires xs == 1 || xs == -1
    requires ys == 1 || ys == -1
    requires (xd == [0] && xe == 0) || (yd == [0] && ye == 0)
    requires (xd == [0] && xe == 0) || Canonical(xd, xe)
    requires (yd == [0] && ye == 0) || Canonical(yd, ye)
    ensures var v, u := SignedTotal(xs, xd, xe, ys, yd, ye), Min(Low(xd, xe), Low(yd, ye));
      var s, d, e := if yd == [0] then xs else ys, if yd == [0] then xd else yd, if yd == [0] then xe else ye;
      if xd == [0] && yd == [0] then v == 0
      else v != 0 && Sign(v) == s && Canonical(d, e) && Stands(d, e, if v < 0 then -v else v, u, pr)
  {
    hide Val, Digits, Total, SameAmount, Low;
    ValSingle(0);
    if xd == [0] && yd == [0] {
      NothingOf(xs);
      NothingOf(ys);
      ZeroTotal(Low(xd, xe), Low(yd, ye));
    } else if yd == [0] {
      NotZeroDigits(xd, xe);
      ZeroOperand(xs, xd, xe, ys);
      NothingOf(ys);
    } else {
      NotZeroDigits(yd, ye);
      ZeroOperand(ys, yd, ye, xs);
      NothingOf(xs);
    }
  }

  lemma NotZeroDigits(d: seq<int>, e: int)
    requires d != [0] ==> Canonical(d, e)
    ensures d == [0] || d[0] > 0
  {}

  lemma ZeroTotal(a: int, b: int)
    ensures Total(0, a, 0, b) == 0
  {}

  /** The sum of magnitudes of one sign. */
  lemma SumOfSame(s: int, xd: seq<int>, xe: int, yd: seq<int>, ye: int)
    requires (s == 1 || s == -1) && Canonical(xd, xe) && Canonical(yd, ye)
    ensures var t := Total(Val(xd), Low(xd, xe), Val(yd), Low(yd, ye));
      SignedTotal(s, xd, xe, s, yd, ye) == s * t && t > 0
  {
    hide Val, Digits, Total, Low;
    PositiveVal(xd);
    PositiveVal(yd);
    TotalPositive(Val(xd), Low(xd, xe), Val(yd), Low(yd, ye));
    SignedSame(s, Val(xd), Low(xd, xe), Val(yd), Low(yd, ye));
  }

  /** The sum of magnitudes of opposite signs. */
  lemma SumOfOpposites(s: int, xd: seq<int>, xe: int, yd: seq<int>, ye: int)
    requires s == 1 || s == -1
    ensures var t := Total(Val(xd), Low(xd, xe), -Val(yd), Low(yd, ye));
      SignedTotal(s, xd, xe, -s, yd, ye) == s * t
  {
    hide Val, Digits, Total, Low;
    SignedSame(s, Val(xd), Low(xd, xe), Val(yd), Low(yd, ye));
  }

  function ZeroSign(c: Config): int {
    if c.rounding == 3 then -1 else 1
  }

  /** The sum of two finite numbers of one sign; y is a copy that the result is written to. */
  method PlusSameSign(x: Decimal, y: Decimal) returns (r: Decimal)
    requires x.Valid() && y.Valid() && x != y && x.ctor == y.ctor && x.d != [] && y.d != [] && x.s == y.s
    modifies y`d, y`e
    ensures (r == y || fresh(r)) && r.Valid() && r.ctor == x.ctor
    ensures InRange(x.ctor, x.e) || old(y.d) != [0] ==>
      AddsTo(x.ctor, x.s, x.d, x.e, x.s, old(y.d), old(y.e), r.s, r.d, r.e)
  {
    hide Val, Digits, Canonical, AddsTo, SignedTotal, Stands, Low, RoundedSum, Clip, Total;
    ghost var yd0, ye0 := y.d, y.e;
    ghost var v, u := SignedTotal(x.s, x.d, x.e, x.s, yd0, ye0), Min(Low(x.d, x.e), Low(yd0, ye0));
    FirstWords(x.d, x.e);
    FirstWords(y.d, y.e);
    if x.d[0] == 0 || y.d[0] == 0 {
      SumWithZero(x.s, x.d, x.e, x.s, yd0, ye0, x.ctor.precision);
      r := y;
      if y.d[0] == 0 {
        ClipKeeps(x.ctor, x.d, x.e);
        r := new Decimal.Copy(x, true);
      }
      if r.d == [] || r.d == [0] {
        r.Finalise(r.ctor.precision, r.ctor.rounding, false, true);
        if InRange(x.ctor, x.e) || yd0 != [0] {
          ZeroSettled(r.ctor, v, u, x.s, r.s, r.d, r.e);
        }
      } else {
        Settle(r, v, u, x.s);
      }
    } else {
      SumOfSame(x.s, x.d, x.e, yd0, ye0);
      y.d, y.e := SumDigits(x.d, x.e, y.d, y.e, x.ctor.precision);
      Settle(y, v, u, x.s);
      r := y;
    }
    if InRange(x.ctor, x.e) || yd0 != [0] {
      SumIs(x.ctor, x.s, x.d, x.e, x.s, yd0, ye0, v, u, x.s, r.s, r.d, r.e);
    }
  }

  lemma FirstWords(d: seq<int>, e: int)
    requires (d == [0] && e == 0) || Canonical(d, e)
    ensures |d| > 0 && (d[0] == 0 <==> d == [0]) && if d[0] == 0 then e == 0 else Canonical(d, e)
  {}

  lemma ZeroSettled(c: Config, v: int, u: int, zeroSign: int, s: int, d: seq<int>, e: int)
    requires v == 0 && s == zeroSign && d == [0] && e == 0
    ensures RoundedSum(c, v, u, zeroSign, s, d, e)
  {}

  /** The difference of two finite numbers of one sign; y is a copy that the result is written to. */
  method MinusSameSign(x: Decimal, y: Decimal) returns (r: Decimal)
    requires x.Valid() && y.Valid() && x != y && x.ctor == y.ctor && x.d != [] && y.d != [] && x.s == y.s
    modifies y
    ensures (r == y || fresh(r)) && r.Valid() && r.ctor == x.ctor
    ensures InRange(x.ctor, x.e) || old(y.d) != [0] ==>
      AddsTo(x.ctor, x.s, x.d, x.e, -x.s, old(y.d), old(y.e), r.s, r.d, r.e)
  {
    hide Val, Digits, Canonical, AddsTo, SignedTotal, Stands, Low, RoundedSum, Clip, Total, DifferenceStands;
    ghost var yd0, ye0 := y.d, y.e;
    ghost var v, u := SignedTotal(x.s, x.d, x.e, -x.s, yd0, ye0), Min(Low(x.d, x.e), Low(yd0, ye0));
    FirstWords(x.d, x.e);
    FirstWords(y.d, y.e);
    if x.d[0] == 0 || y.d[0] == 0 {
      SumWithZero(x.s, x.d, x.e, -x.s, yd0, ye0, x.ctor.precision);
      if y.d[0] != 0 {
        y.s := -y.s;
        r := y;
      } else if x.d[0] != 0 {
        ClipKeeps(x.ctor, x.d, x.e);
        r := new Decimal.Copy(x, true);
      } else {
        r := NewZero(x.ctor, v, u);
        SumIs(x.ctor, x.s, x.d, x.e, -x.s, yd0, ye0, v, u, ZeroSign(x.ctor), r.s, r.d, r.e);
        return;
      }
      if r.d == [] || r.d == [0] {
        r.Finalise(r.ctor.precision, r.ctor.rounding, false, true);
      } else {
        Settle(r, v, u, ZeroSign(x.ctor));
      }
    } else {
      SumOfOpposites(x.s, x.d, x.e, yd0, ye0);
      var d, e, xLTy := DifferenceDigits(x.d, x.e, y.d, y.e, x.ctor.precision);
      ghost var t := Total(Val(x.d), Low(x.d, x.e), -Val(yd0), Low(yd0, ye0));
      SignTimes(x.s, t);
      if xLTy {
        y.s := -y.s;
      }
      DifferenceIs(d, e, if t < 0 then -t else t, u, x.ctor.precision);
      if d == [] {
        r := NewZero(x.ctor, v, u);
      } else {
        y.d, y.e := d, e;
        Settle(y, v, u, ZeroSign(x.ctor));
        r := y;
      }
    }
    if InRange(x.ctor, x.e) || yd0 != [0] {
      SumIs(x.ctor, x.s, x.d, x.e, -x.s, yd0, ye0, v, u, ZeroSign(x.ctor), r.s, r.d, r.e);
    }
  }

  lemma SignTimes(s: int, t: int)
    requires s == 1 || s == -1
    ensures Sign(s * t) == s * Sign(t) && (if s * t < 0 then -(s * t) else s * t) == if t < 0 then -t else t
    ensures t < 0 ==> Sign(s * t) == -s
    ensures t > 0 ==> Sign(s * t) == s
    ensures s * t == 0 <==> t == 0
  {}

  lemma DifferenceIs(d: seq<int>, e: int, v: int, u: int, pr: nat)
    requires DifferenceStands(d, e, v, u, pr)
    ensures d == [] <==> v == 0
    ensures d != [] ==> Canonical(d, e) && Stands(d, e, v, u, pr)
  {}

  /** The zero of a difference: -0 only when rounding to -Infinity. */
  method NewZero(c: Config, ghost v: int, ghost u: int) returns (r: Decimal)
    requires ValidConfig(c) && v == 0
    ensures fresh(r) && r.Valid() && r.ctor == c && RoundedSum(c, v, u, ZeroSign(c), r.s, r.d, r.e)
  {
    r := new Decimal(c, if c.rounding == 3 then -1 else 1);
    r.d := [0];
    ZeroSettled(c, v, u, ZeroSign(c), r.s, r.d, r.e);
  }

  predicate Usable(c: Config, d: seq<int>, e: int) {
    d == [] || InRange(c, e)
  }

  method Plus(x: Decimal, y0: Decimal) returns (r: Decimal)
    requires x.Valid() && y0.Valid() && x.ctor == y0.ctor
    ensures fresh(r) && r.Valid() && r.ctor == x.ctor
    ensures var (yd, ye) := Copied(x.ctor, true, y0.d, y0.e);
      Usable(x.ctor, x.d, x.e) || yd != [0] ==> AddsTo(x.ctor, x.s, x.d, x.e, y0.s, yd, ye, r.s, r.d, r.e)
    decreases if x.s == y0.s then 0 else 1
  {
    hide Canonical, AddsTo, Copied;
    var y := new Decimal.Copy(y0, true);
    ghost var (yd, ye) := (y.d, y.e);
    if x.d == [] || y.d == [] {
      if x.s == 0 || y.s == 0 {
        r := new Decimal(x.ctor, 0);
      } else if x.d == [] {
        r := new Decimal(x.ctor, if y.d != [] || x.s == y.s then x.s else 0);
      } else {
        r := y;
      }
      NotFinite(x.ctor, x.s, x.d, x.e, y0.s, yd, ye, r.s, r.d, r.e);
      return;
    }
    if x.s != y.s {
      CopiedTwice(x.ctor, true, y0.d, y0.e);
      y.s := -y.s;
      r := Minus(x, y);
      return;
    }
    r := PlusSameSign(x, y);
  }

  method Minus(x: Decimal, y0: Decimal) returns (r: Decimal)
    requires x.Valid() && y0.Valid() && x.ctor == y0.ctor
    ensures fresh(r) && r.Valid() && r.ctor == x.ctor
    ensures var (yd, ye) := Copied(x.ctor, true, y0.d, y0.e);
      Usable(x.ctor, x.d, x.e) || yd != [0] ==> AddsTo(x.ctor, x.s, x.d, x.e, -y0.s, yd, ye, r.s, r.d, r.e)
    decreases if x.s == y0.s then 0 else 1
  {
    hide Canonical, AddsTo, Copied;
    var y := new Decimal.Copy(y0, true);
    ghost var (yd, ye) := (y.d, y.e);
    if x.d == [] || y.d == [] {
      if x.s == 0 || y.s == 0 {
        y := new Decimal(x.ctor, 0);
      } else if x.d != [] {
        y.s := -y.s;
      } else {
        y := new Decimal(x.ctor, if y.d != [] || x.s != y.s then x.s else 0);
      }
      r := y;
      NotFinite(x.ctor, x.s, x.d, x.e, -y0.s, yd, ye, r.s, r.d, r.e);
      return;
    }
    if x.s != y.s {
      CopiedTwice(x.ctor, true, y0.d, y0.e);
      y.s := -y.s;
      r := Plus(x, y);
      return;
    }
    r := MinusSameSign(x, y);
  }

  // ---- comparedTo ----

  lemma LargerExponent(xd: seq<int>, xe: int, yd: seq<int>, ye: int)
    requires Canonical(xd, xe) && Canonical(yd, ye) && xe > ye
    ensures Total(Val(xd), Low(xd, xe), -Val(yd), Low(yd, ye)) > 0
  {
    hide Val, Pow10, Digits;
    var u := Min(Low(xd, xe), Low(yd, ye));
    Magnitude(xd, xe);
    Magnitude(yd, ye);
    LowIs(xd, xe);
    LowIs(yd, ye);
    Between(Val(xd), Figures(xd), Low(xd, xe) - u);
    Between(Val(yd), Figures(yd), Low(yd, ye) - u);
    Pow10Monotone(ye + 1 - u, xe - u);
    NegativeTimes(Val(yd), Pow10(Low(yd, ye) - u));
  }

  /** The words of two numbers with one exponent decide which is larger. */
  method CompareDigits(xd: seq<int>, xe: int, yd: seq<int>, ye: int) returns (r: int)
    requires Canonical(xd, xe) && Canonical(yd, ye) && xe == ye
    ensures r == Sign(Total(Val(xd), Low(xd, xe), -Val(yd), Low(yd, ye)))
  {
    hide Val, BasePow, Total, Digits;
    LowIsUnit(xd, xe);
    LowIsUnit(yd, ye);
    TotalSign(xd, yd, xe / LOG_BASE);
    var i := 0;
    var j := if |xd| < |yd| then |xd| else |yd|;
    while i < j
      invariant 0 <= i <= j && xd[..i] == yd[..i]
    {
      if xd[i] != yd[i] {
        WordDecides(xd, yd, i);
        return if xd[i] > yd[i] then 1 else -1;
      }
      i := i + 1;
    }
    LengthDecides(xd, yd);
    r := if |xd| == |yd| then 0 else if |xd| > |yd| then 1 else -1;
  }

  /** The order of two operands, none when either is NaN: of numbers it is the sign of their difference. */
  predicate ComparesTo(xs: int, xd: seq<int>, xe: int, ys: int, yd: seq<int>, ye: int, r: Option<int>) {
    if xs == 0 || ys == 0 then r == None
    else if xd == [] && yd == [] then r == Some(if xs == ys then 0 else xs)
    else if xd == [] then r == Some(xs)
    else if yd == [] then r == Some(-ys)
    else r == Some(Sign(SignedTotal(xs, xd, xe, -ys, yd, ye)))
  }

  method ComparedTo(x: Decimal, y0: Decimal) returns (r: Option<int>)
    requires x.Valid() && y0.Valid() && x.ctor == y0.ctor
    ensures var (yd, ye) := Copied(x.ctor, true, y0.d, y0.e); ComparesTo(x.s, x.d, x.e, y0.s, yd, ye, r)
  {
    hide Val, Digits, Canonical, SignedTotal, Copied;
    var y := new Decimal.Copy(y0, true);
    var xd, yd, xs, ys := x.d, y.d, x.s, y.s;
    if xd == [] || yd == [] {
      if xs == 0 || ys == 0 {
        return None;
      }
      if xs != ys {
        return Some(xs);
      }
      return Some(if xd == yd then 0 else if (xd == []) != (xs < 0) then 1 else -1);
    }
    FirstWords(xd, x.e);
    FirstWords(yd, y.e);
    var c := CompareFinite(xs, xd, x.e, ys, yd, y.e);
    r := Some(c);
  }

  method CompareFinite(xs: int, xd: seq<int>, xe: int, ys: int, yd: seq<int>, ye: int) returns (r: int)
    requires xs == 1 || xs == -1
    requires ys == 1 || ys == -1
    requires |xd| > 0 && (xd[0] == 0 <==> xd == [0]) && if xd[0] == 0 then xe == 0 else Canonical(xd, xe)
    requires |yd| > 0 && (yd[0] == 0 <==> yd == [0]) && if yd[0] == 0 then ye == 0 else Canonical(yd, ye)
    ensures r == Sign(SignedTotal(xs, xd, xe, -ys, yd, ye))
  {
    hide Val, Digits, Canonical, SignedTotal, Total, Stands, Low;
    if xd[0] == 0 || yd[0] == 0 {
      SumWithZero(xs, xd, xe, -ys, yd, ye, 1);
      return if xd[0] != 0 then xs else if yd[0] != 0 then -ys else 0;
    }
    if xs != ys {
      SumOfSame(xs, xd, xe, yd, ye);
      SignTimes(xs, Total(Val(xd), Low(xd, xe), Val(yd), Low(yd, ye)));
      return xs;
    }
    SumOfOpposites(xs, xd, xe, yd, ye);
    SignTimes(xs, Total(Val(xd), Low(xd, xe), -Val(yd), Low(yd, ye)));
    TotalNegates(Val(xd), Low(xd, xe), Val(yd), Low(yd, ye));
    if xe != ye {
      if xe > ye { LargerExponent(xd, xe, yd, ye); } else { LargerExponent(yd, ye, xd, xe); }
      return if (xe > ye) != (xs < 0) then 1 else -1;
    }
    var c := CompareDigits(xd, xe, yd, ye);
    r := if c == 0 then 0 else if (c > 0) != (xs < 0) then 1 else -1;
  }
}
