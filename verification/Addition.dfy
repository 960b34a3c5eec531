/** `plus`, `minus` and `comparedTo`: sums and differences, correctly rounded however far apart the operands are. */
module Addition {
  import opened Words
  import opened LongDivision
  import opened Quotient
  import opened Rounding
  import opened Amounts
  import opened Finalise
  import opened Decimals
  import opened Division
  import opened Exact
  import opened Multiplication
  import opened WordSums

  // ---- Sums of amounts ----

  function Min(a: int, b: int): int {
    if a <= b then a else b
  }

  /** x units of 10^a and y units of 10^b, together, in units of the smaller of the two. */
  function Total(x: int, a: int, y: int, b: int): int {
    x * Pow10(a - Min(a, b)) + y * Pow10(b - Min(a, b))
  }

  lemma TotalCommutes(x: int, a: int, y: int, b: int)
    ensures Total(x, a, y, b) == Total(y, b, x, a)
  {}

  /** The power of ten that the last word of d counts, e being the power of the base of the first word. */
  function Unit(d: seq<int>, e: int): int {
    7 * (e - |d| + 1)
  }

  // ---- What digits stand for ----

  /** d and e are v units of 10^u, or differ from that only below a digit that rounding to pr digits looks at. */
  ghost predicate Stands(d: seq<int>, e: int, v: int, u: int, pr: nat) {
    Denotes(d, e, v, u) || exists m: nat, t: int :: AgreeAbove(d, e, v, u, pr, m, t)
  }

  predicate AgreeAbove(d: seq<int>, e: int, v: int, u: int, pr: nat, m: nat, t: int) {
    StrictlyBetween(m, t, v, u) && StrictlyBetween(m, t, Val(d), Low(d, e)) && t < e + 1 - pr
  }

  lemma AgreeingRounded(c: Config, s: int, pr: nat, rm: int, d0: seq<int>, e0: int, v: int, u: int, m: nat, t: int,
                        d: seq<int>, e: int)
    requires 0 <= rm <= 8 && pr > 0 && Canonical(d0, e0) && Val(d0) >= 0 && AgreeAbove(d0, e0, v, u, pr, m, t)
    requires Settles(c, true, Target(rm, s, Val(d0), Figures(d0), pr, false), e0 + 1 - pr, d, e)
    ensures RoundedAmount(c, s, pr, rm, v, u, d, e)
  {
    hide Val, Pow10, Target, Digits, HasFigures, RoundedAt, StrictlyBetween, Settles, RoundUp;
    var w := e0 + 1 - pr;
    DigitsRounded(rm, s, pr, d0, e0);
    BetweenPositive(m, t, v, u);
    FiguresDecided(m, t, Val(d0), Low(d0, e0), v, u, w, pr);
    DecidedBelow(rm, s, m, t, v, u, w);
    DecidedBelow(rm, s, m, t, Val(d0), Low(d0, e0), w);
    assert RoundedInUnit(c, true, s, pr, rm, v, 1, u, w, d, e);
  }

  lemma BetweenPositive(m: nat, t: int, v: int, u: int)
    requires StrictlyBetween(m, t, v, u)
    ensures v > 0
  {}

  lemma StandsRounded(c: Config, s: int, pr: nat, rm: int, d0: seq<int>, e0: int, v: int, u: int, d: seq<int>, e: int)
    requires 0 <= rm <= 8 && pr > 0 && Canonical(d0, e0) && Val(d0) >= 0 && Stands(d0, e0, v, u, pr)
    requires Settles(c, true, Target(rm, s, Val(d0), Figures(d0), pr, false), e0 + 1 - pr, d, e)
    ensures RoundedAmount(c, s, pr, rm, v, u, d, e)
    ensures d == [] || (d == [0] && e == 0) || Canonical(d, e)
  {
    hide Val, Pow10, Target, Digits, Settles, SameAmount, AgreeAbove, RoundedAmount;
    SettlesValid(c, true, Target(rm, s, Val(d0), Figures(d0), pr, false), e0 + 1 - pr, d, e);
    if Denotes(d0, e0, v, u) {
      ExactlyRounded(c, s, pr, rm, d0, e0, v, u, d, e);
    } else {
      var m: nat, t :| AgreeAbove(d0, e0, v, u, pr, m, t);
      AgreeingRounded(c, s, pr, rm, d0, e0, v, u, m, t, d, e);
    }
  }

  /** Being strictly between two multiples of a power of ten does not depend on the unit. */
  lemma BetweenSame(m: nat, t: int, v: int, u: int, v': int, u': int)
    requires StrictlyBetween(m, t, v, u) && SameAmount(v', u', v, u)
    ensures StrictlyBetween(m, t, v', u')
  {
    hide Pow10;
    var z := Min(u, u');
    SameInUnit(v', u', v, u, z);
    BetweenInUnit(m, t, v, u, z);
    if u' > t {
      PowerOver(v', u' - t, t - z);
      CancelPow10(m, v' * Pow10(u' - t), t - z);
      CancelPow10(v' * Pow10(u' - t), m + 1, t - z);
    } else {
      PowerOver(m, t - u', u' - z);
      PowerOver(m + 1, t - u', u' - z);
      CancelPow10(m * Pow10(t - u'), v', u' - z);
      CancelPow10(v', (m + 1) * Pow10(t - u'), u' - z);
    }
  }

  lemma BetweenInUnit(m: nat, t: int, v: int, u: int, z: int)
    requires StrictlyBetween(m, t, v, u) && z <= u
    ensures m * Pow10(t - z) < v * Pow10(u - z) < (m + 1) * Pow10(t - z)
  {
    hide Pow10;
    PowerOver(m, t - u, u - z);
    PowerOver(m + 1, t - u, u - z);
    CancelPow10(m * Pow10(t - u), v, u - z);
    CancelPow10(v, (m + 1) * Pow10(t - u), u - z);
  }

  /** A magnitude above 10^(j + t) has an exponent of at least j + t. */
  lemma ExponentAbove(d: seq<int>, e: int, m: nat, t: int, j: nat)
    requires Aligned(d, e) && StrictlyBetween(m, t, Val(d), Low(d, e)) && m >= Pow10(j)
    ensures e >= j + t
  {
    hide Val, Pow10, Digits;
    Magnitude(d, e);
    LowIs(d, e);
    Pow10Add(j, t - Low(d, e));
    AtLeastTimes(Pow10(j), m, Pow10(t - Low(d, e)));
    if e < j + t { Pow10Monotone(Figures(d), j + (t - Low(d, e))); }
  }

  // ---- Bringing the smaller operand under the larger ----

  /** The smaller operand, moved by gap words; past lim words only its first word is kept. */
  function Limited(d: seq<int>, gap: nat, lim: nat): seq<int>
    requires |d| > 0
  {
    if gap > lim then Zeros(lim) + d[..1] else Zeros(gap) + d
  }

  lemma LimitedWords(d: seq<int>, gap: nat, lim: nat)
    requires AreWords(d) && |d| > 0
    ensures var r := Limited(d, gap, lim);
      && AreWords(r) && |r| > 0 && (forall j :: 0 <= j < gap && j < lim ==> j < |r| && r[j] == 0)
      && Val(r) == (if gap > lim then d[0] else Val(d))
      && |r| == if gap > lim then lim + 1 else gap + |d|
  {
    hide Val, BasePow;
    LeadZeros(gap, d);
    LeadZeros(lim, d[..1]);
    assert d[..1] == [d[0]];
    ValSingle(d[0]);
  }

  lemma LeadZeros(n: nat, d: seq<int>)
    ensures Val(Zeros(n) + d) == Val(d)
  {
    hide Val, BasePow;
    ValConcat(Zeros(n), d);
    ValZeros(Zeros(n));
  }

  /** An amount and less than one unit of 10^t next to it. */
  lemma TailBetween(x: nat, a: int, y: int, b: int, t: int)
    requires b <= t <= a && 0 < y < Pow10(t - b)
    ensures StrictlyBetween(x * Pow10(a - t), t, Total(x, a, y, b), Min(a, b))
    ensures StrictlyBetween(x * Pow10(a - t) - 1, t, Total(x, a, -y, b), Min(a, b))
  {
    hide Pow10;
    PowerOver(x, a - t, t - b);
    SmallPowers();
    var m := x * Pow10(a - t);
    NextMultiple(m, Pow10(t - b));
    NextMultiple(m - 1, Pow10(t - b));
  }

  lemma ShortDigits(d: seq<int>, e: int, t: int)
    requires AreWords(d) && |d| > 0 && d[0] > 0 && 7 * (e + 1) <= t
    ensures 7 * (e - |d| + 1) <= t && 0 < Val(d) < Pow10(t - 7 * (e - |d| + 1))
  {
    hide Val, Pow10, BasePow;
    PositiveVal(d);
    ValBounds(d);
    BasePowIs(|d|);
    Pow10Monotone(7 * |d|, t - 7 * (e - |d| + 1));
  }

  /**
   * The sum with what is kept of the smaller operand, and the sum with all of it, round alike; so do the differences.
   */
  lemma LimitedTail(big: seq<int>, e: int, small: seq<int>, gap: nat, lim: nat)
    requires AreWords(big) && |big| > 0 && big[0] > 0 && AreWords(small) && |small| > 0 && small[0] > 0
    requires gap > lim >= |big|
    ensures var t, r := 7 * (e - lim + 1), Limited(small, gap, lim);
      var m := Val(big) * Pow10(Unit(big, e) - t);
      && Val(big) > 0 && m >= Pow10(7 * e - t)
      && StrictlyBetween(m, t, Total(Val(big), Unit(big, e), Val(small), Unit(small, e - gap)),
                         Min(Unit(big, e), Unit(small, e - gap)))
      && StrictlyBetween(m, t, Total(Val(big), Unit(big, e), Val(r), Unit(r, e)), Min(Unit(big, e), Unit(r, e)))
      && StrictlyBetween(m - 1, t, Total(Val(big), Unit(big, e), -Val(small), Unit(small, e - gap)),
                         Min(Unit(big, e), Unit(small, e - gap)))
      && StrictlyBetween(m - 1, t, Total(Val(big), Unit(big, e), -Val(r), Unit(r, e)), Min(Unit(big, e), Unit(r, e)))
  {
    hide Val, Pow10, BasePow, StrictlyBetween, Total, Limited;
    var t, r := 7 * (e - lim + 1), Limited(small, gap, lim);
    ValPositive(big);
    BasePowIs(|big| - 1);
    Pow10Add(7 * (|big| - 1), Unit(big, e) - t);
    AtLeastTimes(Pow10(7 * (|big| - 1)), Val(big), Pow10(Unit(big, e) - t));
    LimitedWords(small, gap, lim);
    ShortDigits(small, e - gap, t);
    SmallPowers();
    TailBetween(Val(big), Unit(big, e), Val(small), Unit(small, e - gap), t);
    TailBetween(Val(big), Unit(big, e), Val(r), Unit(r, e), t);
  }

  lemma LimitedExact(small: seq<int>, e: int, gap: nat, lim: nat)
    requires AreWords(small) && |small| > 0 && gap <= lim
    ensures var r := Limited(small, gap, lim);
      Val(r) == Val(small) && Unit(r, e) == Unit(small, e - gap)
  {
    hide Val;
    LimitedWords(small, gap, lim);
  }

  lemma WordsTotal(a: seq<int>, b: seq<int>, e: int)
    requires |a| >= |b|
    ensures Total(Val(a), Unit(a, e), Val(b), Unit(b, e)) == Val(a) + Val(b) * BasePow(|a| - |b|)
    ensures Total(Val(a), Unit(a, e), -Val(b), Unit(b, e)) == Val(a) - Val(b) * BasePow(|a| - |b|)
    ensures Min(Unit(a, e), Unit(b, e)) == Unit(a, e)
  {
    hide Val, BasePow, Pow10;
    BasePowIs(|a| - |b|);
    SmallPowers();
    NegativeTimes(Val(b), Pow10(7 * (|a| - |b|)));
  }

  lemma NegativeTimes(a: int, p: int)
    ensures -a * p == -(a * p)
  {}

  // ---- The digits of a sum ----

  function CeilWords(pr: nat): nat {
    (pr + LOG_BASE - 1) / LOG_BASE
  }

  /** The words of a sum of aligned arrays. */
  method AlignedSum(xd: seq<int>, yd: seq<int>, e0: int) returns (d: seq<int>, e: int)
    requires AreWords(xd) && AreWords(yd) && |xd| > 0 && |yd| > 0 && (xd[0] > 0 || yd[0] > 0)
    ensures Canonical(d, e) &&
      Denotes(d, e, Total(Val(xd), Unit(xd, e0), Val(yd), Unit(yd, e0)), Min(Unit(xd, e0), Unit(yd, e0)))
  {
    hide Val, BasePow, Digits, SameAmount, Total;
    var a, b := xd, yd;
    if |xd| < |yd| {
      a, b := yd, xd;
    }
    TotalCommutes(Val(xd), Unit(xd, e0), Val(yd), Unit(yd, e0));
    WordsTotal(a, b, e0);
    var r0, carry := AddWords(a, b);
    SumLeads(a, b, r0);
    d := DropTrailingZeros(r0);
    e := e0 + carry;
    TrimmedDenotes(r0, d, e);
    e := BaseTenExponent(d, e);
  }

  lemma SumLeads(a: seq<int>, b: seq<int>, r: seq<int>)
    requires AreWords(a) && AreWords(b) && |a| >= |b| > 0 && (a[0] > 0 || b[0] > 0)
    requires AreWords(r) && |a| <= |r| <= |a| + 1 && Val(r) == Val(a) + Val(b) * BasePow(|a| - |b|)
    requires |r| > |a| ==> r[0] > 0
    ensures Val(r) > 0 && r[0] > 0
  {
    hide Val, BasePow;
    SumAtLeast(a, b);
    if r[0] == 0 {
      DropZero(r);
      ValBounds(r[1..]);
    }
  }

  lemma SumAtLeast(a: seq<int>, b: seq<int>)
    requires AreWords(a) && AreWords(b) && |a| >= |b| > 0 && (a[0] > 0 || b[0] > 0)
    ensures Val(a) + Val(b) * BasePow(|a| - |b|) >= BasePow(|a| - 1)
  {
    hide Val, BasePow;
    ValBounds(a);
    ValBounds(b);
    var p := BasePow(|a| - |b|);
    if a[0] > 0 {
      ValPositive(a);
      AtLeastTimes(0, Val(b), p);
    } else {
      ValPositive(b);
      BasePowAdd(|b| - 1, |a| - |b|);
      AtLeastTimes(BasePow(|b| - 1), Val(b), p);
    }
  }

  /** The digits of the sum of two magnitudes, as far as a rounding to pr digits needs them. */
  method SumDigits(xd0: seq<int>, xe: int, yd0: seq<int>, ye: int, pr: nat) returns (d: seq<int>, e: int)
    requires Canonical(xd0, xe) && Canonical(yd0, ye) && pr > 0
    ensures Canonical(d, e)
    ensures Stands(d, e, Total(Val(xd0), Low(xd0, xe), Val(yd0), Low(yd0, ye)), Min(Low(xd0, xe), Low(yd0, ye)), pr)
  {
    hide Val, Digits, SameAmount, Total, Limited, Stands;
    var xd, yd := xd0, yd0;
    var k := xe / LOG_BASE;
    var words := ye / LOG_BASE;
    var i := k - words;
    if i < 0 {
      var len := if CeilWords(pr) > |yd| then CeilWords(pr) + 1 else |yd| + 1;
      xd := Limited(xd, -i, len);
      LimitedWords(xd0, -i, len);
      d, e := AlignedSum(xd, yd, words);
      TotalCommutes(Val(xd0), Low(xd0, xe), Val(yd0), Low(yd0, ye));
      TotalCommutes(Val(xd), Unit(xd, words), Val(yd), Unit(yd, words));
      SumStands(yd0, ye, xd0, xe, len, pr, d, e);
    } else if i > 0 {
      words := k;
      var len := if CeilWords(pr) > |xd| then CeilWords(pr) + 1 else |xd| + 1;
      yd := Limited(yd, i, len);
      LimitedWords(yd0, i, len);
      d, e := AlignedSum(xd, yd, words);
      SumStands(xd0, xe, yd0, ye, len, pr, d, e);
    } else {
      d, e := AlignedSum(xd, yd, words);
      ExactStands(d, e, Total(Val(xd0), Low(xd0, xe), Val(yd0), Low(yd0, ye)), Min(Low(xd0, xe), Low(yd0, ye)), pr);
    }
  }

  lemma ExactStands(d: seq<int>, e: int, v: int, u: int, pr: nat)
    requires Denotes(d, e, v, u)
    ensures Stands(d, e, v, u, pr)
  {}

  lemma SumStands(big: seq<int>, be: int, small: seq<int>, se: int, lim: nat, pr: nat, d: seq<int>, e: int)
    requires Canonical(big, be) && Canonical(small, se) && be / 7 >= se / 7 && pr > 0
    requires lim > CeilWords(pr) && lim > |big|
    requires Canonical(d, e)
    requires var r, w := Limited(small, be / 7 - se / 7, lim), be / 7;
      Denotes(d, e, Total(Val(big), Unit(big, w), Val(r), Unit(r, w)), Min(Unit(big, w), Unit(r, w)))
    ensures Stands(d, e, Total(Val(big), Low(big, be), Val(small), Low(small, se)), Min(Low(big, be), Low(small, se)),
                   pr)
  {
    hide Val, Pow10, Digits, SameAmount, Total, Limited, StrictlyBetween;
    var w, gap := be / 7, be / 7 - se / 7;
    var r := Limited(small, gap, lim);
    if gap <= lim {
      LimitedExact(small, w, gap, lim);
    } else {
      LimitedTail(big, w, small, gap, lim);
      var t := 7 * (w - lim + 1);
      var m := Val(big) * Pow10(Unit(big, w) - t);
      BetweenSame(m, t, Total(Val(big), Unit(big, w), Val(r), Unit(r, w)), Min(Unit(big, w), Unit(r, w)), Val(d),
                  Low(d, e));
      ExponentAbove(d, e, m, t, 7 * w - t);
      CeilEnough(pr);
      assert AgreeAbove(d, e, Total(Val(big), Low(big, be), Val(small), Low(small, se)),
                        Min(Low(big, be), Low(small, se)), pr, m, t);
    }
  }

  lemma CeilEnough(pr: nat)
    ensures pr <= 7 * CeilWords(pr)
  {}

  // ---- The digits of a difference ----

  /** Removes the zeros at both ends; e is the power of the base of the first word. */
  method TrimZeros(r0: seq<int>, e0: int) returns (r: seq<int>, e: int)
    requires AreWords(r0)
    ensures r == [] <==> Val(r0) == 0
    ensures r != [] ==>
      && r[0] > 0 && Canonical(r, BaseTenExponent(r, e))
      && Denotes(r, BaseTenExponent(r, e), Val(r0), Unit(r0, e0))
  {
    hide Val, Digits, SameAmount;
    r, e := r0, e0;
    while |r| > 0 && r[|r| - 1] == 0
      invariant |r| <= |r0| && AreWords(r) && r0 == r + Zeros(|r0| - |r|)
      decreases |r|
    {
      r := r[..|r| - 1];
      assert r0 == r + Zeros(|r0| - |r|);
    }
    if |r| == 0 {
      ValZeros(r0);
      return;
    }
    ghost var z, s, se := |r0| - |r|, r0, e0;
    TailNotZero(r0, r);
    while r[0] == 0
      invariant 0 < |r| && AreWords(r) && r[|r| - 1] > 0 && s == r + Zeros(z)
      invariant Val(s) == Val(r0) && Unit(s, e) == Unit(r0, e0) && Val(r0) != 0
      decreases |r|
    {
      DropZero(s);
      assert s[1..] == r[1..] + Zeros(z);
      s := s[1..];
      r := r[1..];
      e := e - 1;
    }
    TrimmedDenotes(s, r, e);
  }

  lemma TailNotZero(r0: seq<int>, r: seq<int>)
    requires AreWords(r0) && 0 < |r| <= |r0| && r0 == r + Zeros(|r0| - |r|) && r[|r| - 1] > 0
    ensures Val(r0) != 0
  {}

  /**
   * The words of a difference of aligned arrays, of which the first is the larger; the first k words of yd are zero.
   */
  method AlignedDifference(xd: seq<int>, yd: seq<int>, e0: int, k: nat) returns (d: seq<int>, e: int)
    requires AreWords(xd) && AreWords(yd) && |xd| > 0 && |yd| >= k && (forall j :: 0 <= j < k ==> yd[j] == 0)
    requires Val(xd) * BasePow(|yd|) >= Val(yd) * BasePow(|xd|)
    ensures var v, u := Total(Val(xd), Unit(xd, e0), -Val(yd), Unit(yd, e0)), Min(Unit(xd, e0), Unit(yd, e0));
      v >= 0 && if v == 0 then d == [] else Canonical(d, e) && Denotes(d, e, v, u)
  {
    hide Val, BasePow, Digits, SameAmount, Total;
    var a := xd;
    while |a| < |yd|
      invariant |a| >= |xd| && a == xd + Zeros(|a| - |xd|) && (|a| <= |yd| || |a| == |xd|)
    {
      a := a + [0];
      assert a == xd + Zeros(|a| - |xd|);
    }
    ZerosAppended(xd, yd, a, e0);
    WordsTotal(a, yd, e0);
    var r := SubtractWords(a, yd, k);
    ValBounds(r);
    d, e := TrimZeros(r, e0);
    if d != [] {
      e := BaseTenExponent(d, e);
    }
  }

  lemma ZerosAppended(xd: seq<int>, yd: seq<int>, a: seq<int>, e0: int)
    requires |a| >= |xd| && a == xd + Zeros(|a| - |xd|) && |a| >= |yd| && (|a| == |yd| || |a| == |xd|)
    requires Val(xd) * BasePow(|yd|) >= Val(yd) * BasePow(|xd|)
    ensures Val(a) >= Val(yd) * BasePow(|a| - |yd|)
    ensures Total(Val(a), Unit(a, e0), -Val(yd), Unit(yd, e0)) == Total(Val(xd), Unit(xd, e0), -Val(yd), Unit(yd, e0))
    ensures Min(Unit(a, e0), Unit(yd, e0)) == Min(Unit(xd, e0), Unit(yd, e0))
  {
    hide Val, BasePow, Total;
    if |a| == |xd| {
      assert a == xd;
      PowerSplit(Val(yd), |a| - |yd|, |yd|);
      CancelPower(Val(xd), Val(yd) * BasePow(|a| - |yd|), |yd|);
    } else {
      ZerosFill(xd, yd, a);
      ZerosTotal(xd, yd, |a| - |xd|, e0);
    }
  }

  lemma ZerosFill(xd: seq<int>, yd: seq<int>, a: seq<int>)
    requires |a| == |yd| >= |xd| && a == xd + Zeros(|a| - |xd|)
    requires Val(xd) * BasePow(|yd|) >= Val(yd) * BasePow(|xd|)
    ensures Val(a) >= Val(yd) * BasePow(|a| - |yd|)
  {
    hide Val, BasePow;
    ZeroTail(xd, |a| - |xd|);
    BasePowOne();
    PowerSplit(Val(xd), |a| - |xd|, |xd|);
    CancelPower(Val(a), Val(yd), |xd|);
  }

  lemma ZerosTotal(xd: seq<int>, yd: seq<int>, n: nat, e0: int)
    requires |xd| + n == |yd|
    ensures var a := xd + Zeros(n);
      Total(Val(a), Unit(a, e0), -Val(yd), Unit(yd, e0)) == Total(Val(xd), Unit(xd, e0), -Val(yd), Unit(yd, e0))
  {
    hide Val, Pow10, Total;
    ZeroTailInTens(xd, n);
    TotalInUnit(Val(xd), n, Val(xd + Zeros(n)), -Val(yd), Unit(yd, e0));
  }

  lemma TotalInUnit(x: int, n: nat, v: int, y: int, u: int)
    requires v == x * Pow10(7 * n)
    ensures Total(v, u, y, u) == Total(x, u + 7 * n, y, u)
  {}

  /** With the first words of equal weight, the difference has the sign of the cross products. */
  lemma TotalSign(xd: seq<int>, yd: seq<int>, e: int)
    ensures Sign(Total(Val(xd), Unit(xd, e), -Val(yd), Unit(yd, e)))
         == Sign(Val(xd) * BasePow(|yd|) - Val(yd) * BasePow(|xd|))
  {
    hide Val, BasePow, Total;
    if |xd| >= |yd| {
      WordsTotal(xd, yd, e);
      CrossSign(Val(xd), Val(yd), |xd|, |yd|);
    } else {
      WordsTotal(yd, xd, e);
      CrossSign(Val(yd), Val(xd), |yd|, |xd|);
      TotalNegates(Val(xd), Unit(xd, e), Val(yd), Unit(yd, e));
    }
  }

  lemma TotalNegates(x: int, a: int, y: int, b: int)
    ensures Total(x, a, -y, b) == -Total(y, b, -x, a)
  {}

  lemma CrossSign(x: int, y: int, p: nat, q: nat)
    requires p >= q
    ensures Sign(x - y * BasePow(p - q)) == Sign(x * BasePow(q) - y * BasePow(p))
  {
    hide BasePow;
    PowerSplit(y, p - q, q);
    CancelPower(x, y * BasePow(p - q), q);
  }

  /** Whether xd is the smaller of two arrays whose first words have equal weight. */
  method IsSmaller(xd: seq<int>, yd: seq<int>) returns (xLTy: bool)
    requires AreWords(xd) && AreWords(yd) && |xd| > 0 && |yd| > 0 && xd[|xd| - 1] > 0 && yd[|yd| - 1] > 0
    ensures xLTy <==> Val(xd) * BasePow(|yd|) < Val(yd) * BasePow(|xd|)
  {
    hide Val, BasePow;
    var i := |xd|;
    var len := |yd|;
    xLTy := i < len;
    if xLTy {
      len := i;
    }
    i := 0;
    while i < len
      invariant 0 <= i <= len && xd[..i] == yd[..i]
    {
      if xd[i] != yd[i] {
        xLTy := xd[i] < yd[i];
        WordDecides(xd, yd, i);
        return;
      }
      i := i + 1;
    }
    LengthDecides(xd, yd);
  }

  lemma WordDecides(xd: seq<int>, yd: seq<int>, i: nat)
    requires AreWords(xd) && AreWords(yd) && i < |xd| && i < |yd| && xd[..i] == yd[..i] && xd[i] != yd[i]
    ensures Sign(Val(xd) * BasePow(|yd|) - Val(yd) * BasePow(|xd|)) == Sign(xd[i] - yd[i])
  {
    hide Val, BasePow;
    PaddedStep(xd, i);
    PaddedStep(yd, i);
    if xd[i] < yd[i] {
      FractionBelow(xd, yd, i + 1);
    } else {
      FractionBelow(yd, xd, i + 1);
    }
  }

  lemma LengthDecides(xd: seq<int>, yd: seq<int>)
    requires AreWords(xd) && AreWords(yd) && |xd| > 0 && |yd| > 0 && xd[|xd| - 1] > 0 && yd[|yd| - 1] > 0
    requires if |xd| < |yd| then xd == yd[..|xd|] else xd[..|yd|] == yd
    ensures Sign(Val(xd) * BasePow(|yd|) - Val(yd) * BasePow(|xd|)) == Sign(|xd| - |yd|)
  {
    hide Val, BasePow;
    if |xd| < |yd| {
      TailPositive(yd, |xd|);
      PaddedBracket(yd, |xd|);
    } else {
      TailPositive(xd, |yd|);
      PaddedBracket(xd, |yd|);
    }
  }

  /** What the digits of a difference v units of 10^u are to be. */
  ghost predicate DifferenceStands(d: seq<int>, e: int, v: int, u: int, pr: nat) {
    if v == 0 then d == [] else Canonical(d, e) && Stands(d, e, v, u, pr)
  }

  /** The digits of the difference of two magnitudes, and whether the second is the larger. */
  method DifferenceDigits(xd0: seq<int>, xe: int, yd0: seq<int>, ye: int, pr: nat)
    returns (d: seq<int>, e: int, xLTy: bool)
    requires Canonical(xd0, xe) && Canonical(yd0, ye) && pr > 0
    ensures var v, u := Total(Val(xd0), Low(xd0, xe), -Val(yd0), Low(yd0, ye)), Min(Low(xd0, xe), Low(yd0, ye));
      && (xLTy <==> v < 0)
      && DifferenceStands(d, e, if v < 0 then -v else v, u, pr)
  {
    hide Val, BasePow, Digits, SameAmount, Total, Limited, Stands, Low, Canonical;
    CanonicalIs(xd0, xe);
    CanonicalIs(yd0, ye);
    TotalNegates(Val(xd0), Low(xd0, xe), Val(yd0), Low(yd0, ye));
    var words := ye / LOG_BASE;
    var k := xe / LOG_BASE - words;
    if k < 0 {
      xLTy := true;
      d, e := FarDifference(yd0, ye, xd0, xe, -k, pr);
    } else if k > 0 {
      xLTy := false;
      d, e := FarDifference(xd0, xe, yd0, ye, k, pr);
    } else {
      xLTy := IsSmaller(xd0, yd0);
      LowIsUnit(xd0, xe);
      LowIsUnit(yd0, ye);
      TotalSign(xd0, yd0, words);
      if xLTy {
        d, e := AlignedDifference(yd0, xd0, words, 0);
      } else {
        d, e := AlignedDifference(xd0, yd0, words, 0);
      }
      var v := Total(Val(xd0), Low(xd0, xe), -Val(yd0), Low(yd0, ye));
      ExactDifference(d, e, if v < 0 then -v else v, Min(Low(xd0, xe), Low(yd0, ye)), pr);
    }
  }

  lemma CanonicalIs(d: seq<int>, e: int)
    requires Canonical(d, e)
    ensures AreWords(d) && |d| > 0 && d[0] > 0 && d[|d| - 1] > 0
  {}

  lemma LowIsUnit(d: seq<int>, e: int)
    ensures Low(d, e) == Unit(d, e / 7)
  {}

  lemma ExactDifference(d: seq<int>, e: int, v: int, u: int, pr: nat)
    requires if v == 0 then d == [] else Canonical(d, e) && Denotes(d, e, v, u)
    ensures DifferenceStands(d, e, v, u, pr)
  {}

  /** The difference of magnitudes whose first words are gap words apart. */
  method FarDifference(big: seq<int>, be: int, small: seq<int>, se: int, gap: nat, pr: nat)
    returns (d: seq<int>, e: int)
    requires Canonical(big, be) && Canonical(small, se) && pr > 0 && gap == be / 7 - se / 7 > 0
    ensures Total(Val(big), Low(big, be), -Val(small), Low(small, se)) > 0
    ensures DifferenceStands(d, e, Total(Val(big), Low(big, be), -Val(small), Low(small, se)),
                             Min(Low(big, be), Low(small, se)), pr)
  {
    hide Val, BasePow, Digits, SameAmount, Total, Limited, Stands;
    var i := (if CeilWords(pr) > |big| then CeilWords(pr) else |big|) + 2;
    var r := Limited(small, gap, i);
    LimitedWords(small, gap, i);
    LeadDecides(big, r);
    TotalSign(big, r, be / LOG_BASE);
    d, e := AlignedDifference(big, r, be / LOG_BASE, if gap > i then i else gap);
    DifferenceAgrees(big, be, small, se, i, pr, d, e);
  }

  lemma LeadDecides(xd: seq<int>, yd: seq<int>)
    requires AreWords(xd) && AreWords(yd) && |xd| > 0 && |yd| > 0 && xd[0] > yd[0]
    ensures Val(xd) * BasePow(|yd|) > Val(yd) * BasePow(|xd|)
  {
    hide Val, BasePow;
    assert xd[..0] == yd[..0];
    WordDecides(xd, yd, 0);
  }

  lemma DifferenceAgrees(big: seq<int>, be: int, small: seq<int>, se: int, lim: nat, pr: nat, d: seq<int>, e: int)
    requires Canonical(big, be) && Canonical(small, se) && be / 7 >= se / 7 && pr > 0
    requires lim >= CeilWords(pr) + 2 && lim >= |big| + 2
    requires Canonical(d, e)
    requires var r, w := Limited(small, be / 7 - se / 7, lim), be / 7;
      && Total(Val(big), Unit(big, w), -Val(r), Unit(r, w)) > 0
      && Denotes(d, e, Total(Val(big), Unit(big, w), -Val(r), Unit(r, w)), Min(Unit(big, w), Unit(r, w)))
    ensures Total(Val(big), Low(big, be), -Val(small), Low(small, se)) > 0
    ensures Stands(d, e, Total(Val(big), Low(big, be), -Val(small), Low(small, se)), Min(Low(big, be), Low(small, se)),
                   pr)
  {
    hide Val, Pow10, Digits, SameAmount, Total, Limited, StrictlyBetween;
    var w, gap := be / 7, be / 7 - se / 7;
    var r := Limited(small, gap, lim);
    if gap <= lim {
      LimitedExact(small, w, gap, lim);
    } else {
      LimitedTail(big, w, small, gap, lim);
      var t := 7 * (w - lim + 1);
      var m := Val(big) * Pow10(Unit(big, w) - t) - 1;
      MostOfPower(m + 1, 7 * w - t);
      BetweenSame(m, t, Total(Val(big), Unit(big, w), -Val(r), Unit(r, w)), Min(Unit(big, w), Unit(r, w)), Val(d),
                  Low(d, e));
      ExponentAbove(d, e, m, t, 7 * w - t - 1);
      CeilEnough(pr);
      BetweenPositive(m, t, Total(Val(big), Low(big, be), -Val(small), Low(small, se)),
                      Min(Low(big, be), Low(small, se)));
      assert AgreeAbove(d, e, Total(Val(big), Low(big, be), -Val(small), Low(small, se)),
                        Min(Low(big, be), Low(small, se)), pr, m, t);
    }
  }

  lemma MostOfPower(m: int, j: nat)
    requires m >= Pow10(j) && j > 0
    ensures m - 1 >= Pow10(j - 1) > 0
  {}
}
