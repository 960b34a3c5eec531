/** The extended Euclidean algorithm of GF.euclidian in qr.js. */
module Euclid {
  import opened Gf256
  import opened Poly
  import opened PolyArrays
  import opened KeyEquation
  import opened ErrorLocator
  import opened Results

  /** What every pass keeps. The cofactors u of the larger input are not computed by the code;
      (t, tLast) and (u, uLast) have determinant one. */
  ghost predicate LoopState(rLast: Poly, r: Poly, tLast: Poly, t: Poly, uLast: Poly, u: Poly,
                      s: Poly, a: Poly, R: nat)
  {
    && Row(rLast, tLast, uLast, s, a)
    && Row(r, t, u, s, a)
    && Coprime(tLast, t, uLast, u)
    && rLast != [] && |r| <= |rLast|
    && t != [] && |tLast| <= |t| && (|r| == |rLast| ==> |tLast| < |t|)
    && |t| + |rLast| == R + 2
    && 2 * (|rLast| - 1) >= R
  }

  ghost predicate Coprime(tLast: Poly, t: Poly, uLast: Poly, u: Poly) {
    Plus(Times(t, uLast), Times(tLast, u)) == [ONE]
  }

  lemma Start(s: Poly, a: Poly, R: nat)
    requires |a| == R + 1 && |s| <= |a|
    ensures LoopState(a, s, [], [ONE], [ONE], [], s, a, R)
  {
    hide Times, Plus;
    TimesOne(s);
    TimesOne(a);
    TimesCommutes([], s);
    TimesZero(s);
    TimesCommutes([], a);
    TimesZero(a);
    TimesOne([ONE]);
    TimesZero([]);
    PlusZero(a);
    PlusZero(s);
    PlusZero([ONE]);
  }

  lemma RowStep(r0: Poly, t0: Poly, u0: Poly, r1: Poly, t1: Poly, u1: Poly, s: Poly, a: Poly, q: Poly)
    requires Row(r0, t0, u0, s, a) && Row(r1, t1, u1, s, a)
    ensures Row(Plus(Times(q, r1), r0), Plus(Times(q, t1), t0), Plus(Times(q, u1), u0), s, a)
  {
    hide Times, Plus;
    TimesPlus(q, Times(t1, s), Times(u1, a));
    TimesAssociates(q, t1, s);
    TimesAssociates(q, u1, a);
    PlusTimes(Times(q, t1), t0, s);
    PlusTimes(Times(q, u1), u0, a);
    PlusSwap(Times(Times(q, t1), s), Times(Times(q, u1), a), Times(t0, s), Times(u0, a));
  }

  lemma DeterminantStep(t0: Poly, u0: Poly, t1: Poly, u1: Poly, q: Poly)
    requires Coprime(t0, t1, u0, u1)
    ensures Coprime(t1, Plus(Times(q, t1), t0), u1, Plus(Times(q, u1), u0))
  {
    hide Times, Plus;
    PlusTimes(Times(q, t1), t0, u1);
    TimesPlus(t1, Times(q, u1), u0);
    SwapFactors(q, t1, u1);
    TimesAssociates(q, t1, u1);
    var x := Times(q, Times(t1, u1));
    PlusCommutes(x, Times(t0, u1));
    PlusAssociates(Times(t0, u1), x, Plus(x, Times(t1, u0)));
    PlusCancels(Times(t1, u0), x);
    PlusCommutes(Times(t0, u1), Times(t1, u0));
  }

  ghost predicate Division(whole: Poly, q: Poly, d: Poly, rest: Poly) {
    whole == Plus(Times(q, d), rest)
  }

  lemma StepRows(rLast: Poly, r: Poly, tLast: Poly, t: Poly, uLast: Poly, u: Poly, s: Poly, a: Poly,
                 q: Poly, rest: Poly)
    requires Row(rLast, tLast, uLast, s, a) && Row(r, t, u, s, a) && Coprime(tLast, t, uLast, u)
    requires Division(rLast, q, r, rest)
    ensures Row(rest, Plus(Times(q, t), tLast), Plus(Times(q, u), uLast), s, a)
    ensures Coprime(t, Plus(Times(q, t), tLast), u, Plus(Times(q, u), uLast))
  {
    hide Times, Plus, Row, Coprime;
    RowStep(rLast, tLast, uLast, r, t, u, s, a, q);
    DeterminantStep(tLast, uLast, t, u, q);
    assert rest == Plus(Times(q, r), rLast) by {
      PlusCancels(rest, Times(q, r));
    }
  }

  lemma StepDegrees(rLast: Poly, r: Poly, tLast: Poly, t: Poly, q: Poly, rest: Poly)
    requires |r| <= |rLast| && t != [] && |tLast| <= |t| && (|r| == |rLast| ==> |tLast| < |t|)
    requires |q| == |rLast| - |r| + 1
    ensures |t| <= |Plus(Times(q, t), tLast)|
    ensures |Plus(Times(q, t), tLast)| + |r| == |t| + |rLast|
  {
    hide Times, Plus;
    TimesLength(q, t);
    PlusLength(Times(q, t), tLast);
  }

  lemma NextState(rLast: Poly, r: Poly, tLast: Poly, t: Poly, uLast: Poly, u: Poly, s: Poly, a: Poly, R: nat,
                  rest: Poly, tNext: Poly, uNext: Poly)
    requires LoopState(rLast, r, tLast, t, uLast, u, s, a, R)
    requires |rest| < |r| && 2 * (|r| - 1) >= R
    requires |t| <= |tNext| && |tNext| + |r| == |t| + |rLast|
    requires Row(rest, tNext, uNext, s, a) && Coprime(t, tNext, u, uNext)
    ensures LoopState(r, rest, t, tNext, u, uNext, s, a, R)
  {}

  lemma StateParts(rLast: Poly, r: Poly, tLast: Poly, t: Poly, uLast: Poly, u: Poly, s: Poly, a: Poly, R: nat)
    requires LoopState(rLast, r, tLast, t, uLast, u, s, a, R)
    ensures Row(rLast, tLast, uLast, s, a) && Row(r, t, u, s, a) && Coprime(tLast, t, uLast, u)
    ensures |r| <= |rLast| && t != [] && |tLast| <= |t| && (|r| == |rLast| ==> |tLast| < |t|)
  {}

  /** One pass: divide rLast by r, with quotient q and a remainder of lower degree. */
  lemma Step(rLast: Poly, r: Poly, tLast: Poly, t: Poly, uLast: Poly, u: Poly, s: Poly, a: Poly, R: nat,
             q: Poly, rest: Poly)
    requires LoopState(rLast, r, tLast, t, uLast, u, s, a, R)
    requires Division(rLast, q, r, rest)
    requires |q| == |rLast| - |r| + 1 && |rest| < |r|
    requires 2 * (|r| - 1) >= R
    ensures LoopState(r, rest, t, Plus(Times(q, t), tLast), u, Plus(Times(q, u), uLast), s, a, R)
  {
    hide *;
    StateParts(rLast, r, tLast, t, uLast, u, s, a, R);
    StepRows(rLast, r, tLast, t, uLast, u, s, a, q, rest);
    StepDegrees(rLast, r, tLast, t, q, rest);
    NextState(rLast, r, tLast, t, uLast, u, s, a, R,
              rest, Plus(Times(q, t), tLast), Plus(Times(q, u), uLast));
  }

  // ---- Polynomial division by repeated cancellation of the leading term ----

  lemma {:induction false} PlusDrops(a: Poly, b: Poly)
    requires a != [] && |a| == |b| && a[0] == b[0]
    ensures |Plus(a, b)| < |a|
  {
    if |a| == 1 {
      AddCancels(a[0], a[0]);
    } else {
      PlusDrops(Init(a), Init(b));
    }
  }

  lemma {:induction false} ShiftByLead(p: Poly, n: nat)
    requires p != []
    ensures |ShiftBy(p, n)| == |p| + n && ShiftBy(p, n)[0] == p[0]
  {
    if n > 0 {
      ShiftByLead(p, n - 1);
    }
  }

  lemma {:induction false} ScaleLead(c: Byte, p: Poly)
    requires c != ZERO && p != []
    ensures |Scale(c, p)| == |p| && Scale(c, p)[0] == Mul(c, p[0])
  {
    hide Mul;
    ScaleLength(c, p);
    if |p| > 1 {
      ScaleLead(c, Init(p));
    }
  }

  /** The term scale * x^diff cancels the leading term of r against d. */
  lemma LeadCancels(r: Poly, d: Poly, scale: Byte)
    requires d != [] && |r| >= |d|
    requires scale == Mul(r[0], Inv(d[0]))
    ensures scale != ZERO
    ensures |Plus(r, ShiftBy(Scale(scale, d), |r| - |d|))| < |r|
  {
    hide Inv, Mul, Scale, ShiftBy, Plus;
    var i := Inv(d[0]);
    MulInverse(d[0]);
    MulNonZero(r[0], i);
    MulAssociates(r[0], i, d[0]);
    MulCommutes(i, d[0]);
    MulOne(r[0]);
    ScaleLead(scale, d);
    ShiftByLead(Scale(scale, d), |r| - |d|);
    PlusDrops(r, ShiftBy(Scale(scale, d), |r| - |d|));
  }

  lemma QuotientStep(whole: Poly, q: Poly, d: Poly, r: Poly, scale: Byte, diff: nat)
    requires whole == Plus(Times(q, d), r)
    ensures var term := ShiftBy(Snoc([], scale), diff);
      whole == Plus(Times(Plus(q, term), d), Plus(r, ShiftBy(Scale(scale, d), diff)))
  {
    hide Plus, Times, Scale, ShiftBy, Snoc;
    var (term, x) := (ShiftBy(Snoc([], scale), diff), ShiftBy(Scale(scale, d), diff));
    PlusTimes(q, term, d);
    TimesCommutes(term, d);
    ShiftByTimes(d, Snoc([], scale), diff);
    TimesByConstant(d, scale);
    var t := Times(q, d);
    PlusAssociates(t, x, Plus(r, x));
    PlusCommutes(r, x);
    PlusCancels(r, x);
  }

  lemma QuotientLength(q: Poly, scale: Byte, diff: nat)
    requires scale != ZERO
    ensures var term := ShiftBy(Snoc([], scale), diff);
      && |Plus([], term)| == diff + 1
      && (|q| > diff + 1 ==> |Plus(q, term)| == |q|)
  {
    hide Plus, ShiftBy;
    var term := ShiftBy(Snoc([], scale), diff);
    ShiftByLead(Snoc([], scale), diff);
    PlusZero(term);
    PlusLength(q, term);
  }

  method Divide(rLastLast: seq<Byte>, rLast: seq<Byte>) returns (q: seq<Byte>, r: seq<Byte>)
    requires Normal(rLastLast) && Normal(rLast) && |rLastLast| >= |rLast| >= 2
    ensures Normal(q) && Normal(r)
    ensures Division(Trim(rLastLast), Trim(q), Trim(rLast), Trim(r))
    ensures |Trim(q)| == |rLastLast| - |rLast| + 1
    ensures |r| < |rLast|
  {
    hide Plus, Times, Scale, ShiftBy, Trim, Snoc, Inv, Mul, Rep;
    r := rLastLast;
    q := [ZERO];
    ghost var (whole, d) := (Trim(rLastLast), Trim(rLast));
    DivideStart(rLastLast, rLast);
    var dltInverse := Inv(rLast[0]);
    while Degree(r) >= Degree(rLast) && r[0] != ZERO
      invariant Normal(q) && Normal(r) && Rep(Trim(r)) == r
      invariant whole == Plus(Times(Trim(q), d), Trim(r))
      invariant (Trim(q) == [] && r == rLastLast)
             || (|Trim(q)| == |rLastLast| - |rLast| + 1 && |r| < |rLastLast|)
      decreases |r|
    {
      var degreeDiff := Degree(r) - Degree(rLast);
      var scale := Mul(r[0], dltInverse);
      ghost var (r0, q0) := (Trim(r), Trim(q));
      NonZeroTrim(r);
      LeadCancels(r0, d, scale);
      QuotientStep(whole, q0, d, r0, scale, degreeDiff);
      QuotientLength(q0, scale, degreeDiff);
      var term := PolyArrays.Monomial(degreeDiff, scale);
      RepNormal(ShiftBy(Snoc([], scale), degreeDiff));
      q := AddPoly(q, term);
      RepNormal(Plus(q0, ShiftBy(Snoc([], scale), degreeDiff)));
      var product := MulPolyMonomial(rLast, degreeDiff, scale);
      RepNormal(ShiftBy(Scale(scale, d), degreeDiff));
      r := AddPoly(r, product);
      RepNormal(Plus(r0, ShiftBy(Scale(scale, d), degreeDiff)));
      RepLength(Plus(r0, ShiftBy(Scale(scale, d), degreeDiff)));
    }
  }

  lemma RepLength(p: Poly)
    ensures |Rep(p)| == if p == [] then 1 else |p|
  {}

  lemma NonZeroTrim(s: seq<Byte>)
    requires |s| > 0 && s[0] != ZERO
    ensures Trim(s) == s
  {
    TrimLength(s);
  }

  lemma DivideStart(a: seq<Byte>, b: seq<Byte>)
    requires Normal(a) && Normal(b) && |a| >= 2 && |b| >= 2
    ensures Normal([ZERO]) && Trim([ZERO]) == []
    ensures Trim(a) == a && Trim(b) == b && Rep(a) == a
    ensures Trim(a) == Plus(Times([], Trim(b)), Trim(a))
  {
    RepNormal([]);
    NonZeroTrim(a);
    NonZeroTrim(b);
    TimesCommutes([], b);
    TimesZero(b);
    PlusZero(a);
  }

  // ---- The loop ----

  /** The outer loop. On exit the determinant is one, t and r have low degree, and r and t
      satisfy r = t * (smaller input) modulo the larger input. */
  method Euclidian(a: seq<Byte>, b: seq<Byte>, R: nat)
    returns (res: Result<(seq<Byte>, seq<Byte>)>,
             ghost r: Poly, ghost t: Poly, ghost u: Poly, ghost tLast: Poly, ghost uLast: Poly)
    requires Normal(a) && Normal(b) && R > 0
    requires R == if Degree(a) < Degree(b) then Degree(b) else Degree(a)
    ensures var (hi, lo) := if Degree(a) < Degree(b) then (b, a) else (a, b);
      Row(r, t, u, Trim(lo), Trim(hi))
    ensures Coprime(tLast, t, uLast, u)
    ensures t != [] && 2 * (|t| - 1) <= R && (r != [] ==> 2 * (|r| - 1) < R)
    ensures Eval(t, ZERO) == ZERO ==> res.Err?
    ensures Eval(t, ZERO) != ZERO ==>
      var i := Inv(Eval(t, ZERO)); res == Ok((Rep(Scale(i, t)), Rep(Scale(i, r))))
  {
    hide Plus, Times, Scale, Trim, Inv, Row, Eval, Mul, Rep, Coprime, Division;
    var rLast, rNow := a, b;
    if Degree(a) < Degree(b) {
      rLast, rNow := b, a;
    }
    ghost var (hi, lo) := (Trim(rLast), Trim(rNow));
    var tLastArr, tArr := [ZERO], [ONE];
    tLast, t, uLast, u := [], [ONE], [ONE], [];
    r := lo;
    ghost var big := hi;
    InputTrims(rLast, rNow);
    Start(lo, hi, R);
    while 2 * Degree(rNow) >= R
      invariant LoopState(big, r, tLast, t, uLast, u, lo, hi, R)
      invariant rLast == Rep(big) && rNow == Rep(r) && tLastArr == Rep(tLast) && tArr == Rep(t)
      decreases |rNow|
    {
      var rLastLast, tLastLast := rLast, tLastArr;
      rLast := rNow;
      tLastArr := tArr;
      PassStart(big, r);
      assert rLast[0] != ZERO;
      var q;
      q, rNow := Divide(rLastLast, rLast);
      ghost var (quotient, rest) := (Trim(q), Trim(rNow));
      TrimLength(rNow);
      Step(big, r, tLast, t, uLast, u, lo, hi, R, quotient, rest);
      NormalRep(rNow);
      RepNormal(t);
      RepNormal(tLast);
      q := MulPoly(q, tLastArr);
      RepNormal(Times(quotient, t));
      tArr := AddPoly(q, tLastLast);
      ghost var (tNew, uNew) := (Plus(Times(quotient, t), tLast), Plus(Times(quotient, u), uLast));
      big, r, tLast, t, uLast, u := r, rest, t, tNew, u, uNew;
      if Degree(rNow) >= Degree(rLast) {
        assert false;
      }
    }
    LowDegrees(big, r, tLast, t, uLast, u, lo, hi, R);
    RepNormal(t);
    RepNormal(r);
    var sigmaTildeAtZero := tArr[|tArr| - 1];
    ConstantTerm(t);
    if sigmaTildeAtZero == ZERO {
      res := Err("sigmaTilde(0) was zero");
    } else {
      var inverse := Inv(sigmaTildeAtZero);
      var locator := MulPolyScalar(tArr, inverse);
      var evaluator := MulPolyScalar(rNow, inverse);
      res := Ok((locator, evaluator));
    }
  }

  lemma InputTrims(a: seq<Byte>, b: seq<Byte>)
    requires Normal(a) && Normal(b) && |a| >= 2
    ensures Trim(a) == a && |Trim(b)| <= |b|
    ensures Rep(Trim(a)) == a && Rep(Trim(b)) == b
    ensures Rep([]) == [ZERO] && Rep([ONE]) == [ONE]
  {
    NormalRep(a);
    NormalRep(b);
    TrimLength(a);
    TrimLength(b);
  }

  /** While the guard holds the current remainder is a nonzero polynomial of positive degree. */
  lemma PassStart(big: Poly, r: Poly)
    requires |Rep(r)| >= 2 && |r| <= |big|
    ensures r != [] && Rep(r) == r && Rep(big) == big
    ensures Normal(r) && Normal(big) && Trim(r) == r && Trim(big) == big
  {
    TrimPoly(r);
    TrimPoly(big);
  }

  lemma LowDegrees(rLast: Poly, r: Poly, tLast: Poly, t: Poly, uLast: Poly, u: Poly,
                   s: Poly, a: Poly, R: nat)
    requires LoopState(rLast, r, tLast, t, uLast, u, s, a, R)
    requires 2 * (|Rep(r)| - 1) < R
    ensures t != [] && 2 * (|t| - 1) <= R && (r != [] ==> 2 * (|r| - 1) < R)
  {}

  lemma ConstantTerm(t: Poly)
    requires t != []
    ensures Rep(t) == t && Eval(t, ZERO) == t[|t| - 1]
  {
    EvalAtZero(Init(t), Last(t));
    SnocInit(t);
  }
}
