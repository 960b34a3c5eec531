/** Roots and degrees of the locator, and why Euclid's algorithm cannot find any other one. */
module ErrorLocator {
  import opened Gf256
  import opened Poly
  import opened PolyArrays
  import opened KeyEquation

  ghost predicate Distinct(errors: seq<Fault>) {
    && (forall j :: 0 <= j < |errors| ==> errors[j].loc != ZERO && errors[j].value != ZERO)
    && (forall j, k :: 0 <= j < k < |errors| ==> errors[j].loc != errors[k].loc)
  }

  /** The product of the 1 + locs[k] x for k < n other than skip. */
  function Denominator(locs: seq<Byte>, skip: nat, x: Byte, n: nat): Byte
    requires n <= |locs|
  {
    if n == 0 then ONE
    else if n - 1 == skip then Denominator(locs, skip, x, n - 1)
    else Mul(Denominator(locs, skip, x, n - 1), Add(ONE, Mul(locs[n - 1], x)))
  }

  function Locations(errors: seq<Fault>): (locs: seq<Byte>)
    ensures |locs| == |errors|
    ensures forall j :: 0 <= j < |errors| ==> locs[j] == errors[j].loc
  {
    seq(|errors|, j requires 0 <= j < |errors| => errors[j].loc)
  }

  // ---- One factor ----

  lemma FactorEval(loc: Byte, x: Byte)
    ensures Eval(Factor(loc), x) == Add(ONE, Mul(loc, x))
  {
    hide Add, Mul;
    EvalSnoc(Snoc([], loc), ONE, x);
    EvalSnoc([], loc, x);
    MulNonZero(x, ZERO);
    AddCommutes(ZERO, loc);
    AddCancels(loc, ZERO);
    MulCommutes(x, loc);
    AddCommutes(ONE, Mul(loc, x));
  }

  lemma FactorVanishes(loc: Byte, x: Byte)
    requires loc != ZERO
    ensures Eval(Factor(loc), x) == ZERO <==> x == Inv(loc)
  {
    hide *;
    FactorEval(loc, x);
    MulInverse(loc);
    AddCancels(ONE, ONE);
    if Add(ONE, Mul(loc, x)) == ZERO {
      AddAssociates(ONE, ONE, Mul(loc, x));
      AddCommutes(ZERO, Mul(loc, x));
      AddCancels(Mul(loc, x), ZERO);
      MulCancels(loc, x, Inv(loc));
    }
  }

  lemma FactorIsLinear(loc: Byte)
    requires loc != ZERO
    ensures Factor(loc) == Scale(loc, Linear(Inv(loc)))
  {
    MulInverse(loc);
    hide Inv, Mul, Scale;
    ScaleLinear(loc, Inv(loc));
    MulCommutes(Inv(loc), loc);
  }

  lemma FactorLength(loc: Byte)
    requires loc != ZERO
    ensures |Factor(loc)| == 2
  {}

  // ---- The locator ----

  lemma {:induction false} LocatorLength(errors: seq<Fault>)
    requires Distinct(errors)
    ensures |Locator(errors)| == |errors| + 1
  {
    hide Times, Factor;
    if errors != [] {
      var (rest, last) := (errors[..|errors| - 1], errors[|errors| - 1]);
      LocatorLength(rest);
      FactorLength(last.loc);
      TimesLength(Factor(last.loc), Locator(rest));
    }
  }

  lemma {:induction false} EvaluatorLength(errors: seq<Fault>)
    requires Distinct(errors)
    ensures |Evaluator(errors)| <= |errors|
  {
    if errors != [] {
      var (rest, last) := (errors[..|errors| - 1], errors[|errors| - 1]);
      EvaluatorLength(rest);
      LocatorLength(rest);
      EvaluatorLengthStep(last, Evaluator(rest), Locator(rest));
    }
  }

  lemma EvaluatorLengthStep(last: Fault, w: Poly, l: Poly)
    requires last.loc != ZERO && last.value != ZERO && |w| < |l|
    ensures |Plus(Times(Factor(last.loc), w), Scale(last.value, l))| <= |l|
  {
    hide Times, Factor, Scale, Plus;
    FactorLength(last.loc);
    ScaleLength(last.value, l);
    if w == [] {
      TimesZero(Factor(last.loc));
    } else {
      TimesLength(Factor(last.loc), w);
    }
    PlusLength(Times(Factor(last.loc), w), Scale(last.value, l));
  }

  lemma {:induction false} LocatorAtZero(errors: seq<Fault>)
    ensures Eval(Locator(errors), ZERO) == ONE
  {
    hide Add, Mul, Times, Eval, Factor;
    if errors == [] {
      EvalOne(ZERO);
    } else {
      var (rest, last) := (errors[..|errors| - 1], errors[|errors| - 1]);
      LocatorAtZero(rest);
      EvalTimes(Factor(last.loc), Locator(rest), ZERO);
      FactorEval(last.loc, ZERO);
      MulNonZero(last.loc, ZERO);
      AddCancels(ONE, ZERO);
      MulOne(ONE);
    }
  }

  lemma EvalOne(x: Byte)
    ensures Eval([ONE], x) == ONE
  {}

  /** At any x the locator is the product of 1 + loc x over all errors. */
  lemma {:induction false} LocatorEval(errors: seq<Fault>, skip: nat, x: Byte)
    requires skip >= |errors|
    ensures Eval(Locator(errors), x) == Denominator(Locations(errors), skip, x, |errors|)
  {
    hide Add, Mul, Times, Eval, Factor;
    if errors == [] {
      EvalOne(x);
    } else {
      var (rest, last) := (errors[..|errors| - 1], errors[|errors| - 1]);
      LocatorEval(rest, skip, x);
      DenominatorPrefix(Locations(errors), Locations(rest), skip, x, |rest|);
      EvalTimes(Factor(last.loc), Locator(rest), x);
      FactorEval(last.loc, x);
      MulCommutes(Eval(Factor(last.loc), x), Eval(Locator(rest), x));
    }
  }

  lemma {:induction false} DenominatorPrefix(a: seq<Byte>, b: seq<Byte>, skip: nat, x: Byte, n: nat)
    requires n <= |a| && n <= |b| && a[..n] == b[..n]
    ensures Denominator(a, skip, x, n) == Denominator(b, skip, x, n)
  {
    if n > 0 {
      assert a[..n][..n - 1] == a[..n - 1] && b[..n][..n - 1] == b[..n - 1];
      assert a[n - 1] == a[..n][n - 1] == b[n - 1];
      DenominatorPrefix(a, b, skip, x, n - 1);
    }
  }

  lemma {:induction false} DenominatorSkip(a: seq<Byte>, i: nat, j: nat, x: Byte, n: nat)
    requires n <= |a| && i >= n && j >= n
    ensures Denominator(a, i, x, n) == Denominator(a, j, x, n)
  {
    if n > 0 {
      DenominatorSkip(a, i, j, x, n - 1);
    }
  }

  /** The roots of the locator are exactly the inverse locations. */
  lemma {:induction false} LocatorRoots(errors: seq<Fault>, x: Byte)
    requires Distinct(errors)
    ensures Eval(Locator(errors), x) == ZERO
       <==> exists j :: 0 <= j < |errors| && x == Inv(errors[j].loc)
  {
    hide Add, Mul, Times, Eval, Factor, Inv;
    if errors == [] {
      EvalOne(x);
    } else {
      var (rest, last) := (errors[..|errors| - 1], errors[|errors| - 1]);
      LocatorRoots(rest, x);
      EvalTimes(Factor(last.loc), Locator(rest), x);
      MulNonZero(Eval(Factor(last.loc), x), Eval(Locator(rest), x));
      FactorVanishes(last.loc, x);
      if Eval(Locator(rest), x) == ZERO {
        var j :| 0 <= j < |rest| && x == Inv(rest[j].loc);
        assert rest[j] == errors[j];
      }
      if exists j :: 0 <= j < |rest| && x == Inv(errors[j].loc) {
        var j :| 0 <= j < |rest| && x == Inv(errors[j].loc);
        assert rest[j] == errors[j];
      }
    }
  }

  lemma InvInjective(x: Byte, y: Byte)
    requires x != ZERO && y != ZERO && Inv(x) == Inv(y)
    ensures x == y
  {
    hide *;
    MulInverse(x);
    MulInverse(y);
    MulCommutes(x, Inv(x));
    MulCommutes(y, Inv(y));
    MulCancels(Inv(x), x, y);
  }

  /** Forney: at the inverse of a location the evaluator is the error's value times the
      product of the other factors. */
  lemma {:induction false} EvaluatorAt(errors: seq<Fault>, j: nat)
    requires Distinct(errors) && j < |errors|
    ensures var x := Inv(errors[j].loc);
      Eval(Evaluator(errors), x) == Mul(errors[j].value, Denominator(Locations(errors), j, x, |errors|))
  {
    hide Add, Mul, Times, Plus, Scale, Eval, Factor, Inv, Denominator;
    var (rest, last) := (errors[..|errors| - 1], errors[|errors| - 1]);
    var x := Inv(errors[j].loc);
    var (f, w, l) := (Factor(last.loc), Evaluator(rest), Locator(rest));
    EvalPlus(Times(f, w), Scale(last.value, l), x);
    EvalTimes(f, w, x);
    EvalScale(last.value, l, x);
    DenominatorPrefix(Locations(errors), Locations(rest), j, x, |rest|);
    if j == |rest| {
      FactorVanishes(last.loc, x);
      MulNonZero(Eval(f, x), Eval(w, x));
      LocatorEval(rest, j, x);
      DenominatorLast(Locations(errors), j, x);
      AddCommutes(ZERO, Mul(last.value, Eval(l, x)));
      AddCancels(Mul(last.value, Eval(l, x)), ZERO);
    } else {
      EvaluatorAt(rest, j);
      LocatorRoots(rest, x);
      assert rest[j] == errors[j];
      MulNonZero(last.value, ZERO);
      AddCancels(Mul(Eval(f, x), Eval(w, x)), ZERO);
      FactorEval(last.loc, x);
      DenominatorNext(Locations(errors), j, x);
      var d := Denominator(Locations(rest), j, x, |rest|);
      MulCommutes(Eval(f, x), Eval(w, x));
      MulAssociates(errors[j].value, d, Eval(f, x));
    }
  }

  lemma DenominatorLast(locs: seq<Byte>, skip: nat, x: Byte)
    requires |locs| > 0 && skip == |locs| - 1
    ensures Denominator(locs, skip, x, |locs|) == Denominator(locs, skip, x, |locs| - 1)
  {}

  lemma DenominatorNext(locs: seq<Byte>, skip: nat, x: Byte)
    requires |locs| > 0 && skip < |locs| - 1
    ensures Denominator(locs, skip, x, |locs|)
         == Mul(Denominator(locs, skip, x, |locs| - 1), Add(ONE, Mul(locs[|locs| - 1], x)))
  {}

  lemma {:induction false} DenominatorNonZero(errors: seq<Fault>, j: nat, n: nat)
    requires Distinct(errors) && j < |errors| && n <= |errors|
    ensures Denominator(Locations(errors), j, Inv(errors[j].loc), n) != ZERO
  {
    hide Add, Mul, Inv, Factor, Eval;
    if n > 0 {
      var x := Inv(errors[j].loc);
      DenominatorNonZero(errors, j, n - 1);
      if n - 1 != j {
        var loc := errors[n - 1].loc;
        FactorEval(loc, x);
        FactorVanishes(loc, x);
        if x == Inv(loc) {
          InvInjective(errors[j].loc, loc);
        }
        MulNonZero(Denominator(Locations(errors), j, x, n - 1), Add(ONE, Mul(loc, x)));
      }
    }
  }

  // ---- Divisibility by the locator ----

  ghost predicate VanishesAt(t: Poly, errors: seq<Fault>) {
    forall j :: 0 <= j < |errors| ==> errors[j].loc != ZERO && Eval(t, Inv(errors[j].loc)) == ZERO
  }

  lemma FactorOut(t: Poly, loc: Byte) returns (q: Poly)
    requires loc != ZERO && Eval(t, Inv(loc)) == ZERO
    ensures t == Times(Factor(loc), q)
  {
    MulInverse(loc);
    hide *;
    var p := RootQuotient(t, Inv(loc));
    FactorRoot(t, Inv(loc));
    q := Scale(Inv(loc), p);
    FactorIsLinear(loc);
    var line := Linear(Inv(loc));
    TimesScale(loc, line, q);
    TimesCommutes(line, q);
    TimesScale(Inv(loc), p, line);
    TimesCommutes(p, line);
    ScaleScale(loc, Inv(loc), t);
    ScaleOne(t);
  }

  lemma {:induction false} LocatorDivides(t: Poly, errors: seq<Fault>) returns (m: Poly)
    requires Distinct(errors) && VanishesAt(t, errors)
    ensures t == Times(Locator(errors), m)
    decreases |errors|
  {
    hide Times, Factor, Eval, Inv, Mul;
    if errors == [] {
      m := t;
      TimesOne(t);
    } else {
      var (rest, last) := (errors[..|errors| - 1], errors[|errors| - 1]);
      var q := FactorOut(t, last.loc);
      forall j | 0 <= j < |rest| ensures Eval(q, Inv(rest[j].loc)) == ZERO {
        var x := Inv(errors[j].loc);
        EvalTimes(Factor(last.loc), q, x);
        FactorVanishes(last.loc, x);
        if x == Inv(last.loc) {
          InvInjective(errors[j].loc, last.loc);
        }
        MulNonZero(Eval(Factor(last.loc), x), Eval(q, x));
      }
      m := LocatorDivides(q, rest);
      TimesAssociates(Factor(last.loc), Locator(rest), m);
    }
  }

  // ---- Uniqueness of low-degree solutions ----

  /** What Euclid's loop keeps about one row: r = t * s + u * a. */
  ghost predicate Row(r: Poly, t: Poly, u: Poly, s: Poly, a: Poly) {
    r == Plus(Times(t, s), Times(u, a))
  }

  /** x^R. */
  function Monomial(R: nat): Poly {
    ShiftBy([ONE], R)
  }

  lemma TimesMonomial(p: Poly, R: nat)
    ensures Times(p, Monomial(R)) == ShiftBy(p, R)
  {
    hide Times, ShiftBy;
    ShiftByTimes(p, [ONE], R);
    TimesOne(p);
  }

  /** Both sides of the key equation agree without the modulus once the degrees are low. */
  lemma CrossProducts(r: Poly, t: Poly, u: Poly, errors: seq<Fault>, R: nat)
    requires Distinct(errors) && 2 * |errors| <= R
    requires Row(r, t, u, SyndromePoly(errors, 0, R), Monomial(R))
    requires t != [] && 2 * (|t| - 1) <= R && (r != [] ==> 2 * (|r| - 1) < R)
    ensures Times(t, Evaluator(errors)) == Times(Locator(errors), r)
    ensures Times(t, Excess(errors, R)) == Times(Locator(errors), u)
  {
    var s := SyndromePoly(errors, 0, R);
    var (l, w, v) := (Locator(errors), Evaluator(errors), Excess(errors, R));
    KeyEquation.KeyEquation(errors, R);
    LocatorLength(errors);
    EvaluatorLength(errors);
    assert r == Plus(Times(t, s), Times(u, Monomial(R)));
    hide *;
    TimesMonomial(u, R);
    var tls := Times(t, Times(l, s));
    TimesPlus(t, w, ShiftBy(v, R));
    ShiftByTimes(t, v, R);
    assert tls == Plus(Times(t, w), ShiftBy(Times(t, v), R));
    TimesPlus(l, Times(t, s), ShiftBy(u, R));
    ShiftByTimes(l, u, R);
    SwapFactors(t, l, s);
    assert Times(l, r) == Plus(tls, ShiftBy(Times(l, u), R));
    LowPartsAgree(Times(t, w), Times(t, v), Times(l, r), Times(l, u), tls, R) by {
      ProductBound(t, w, |t| + |errors|, R);
      ProductBound(l, r, |errors| + 1 + |r|, R);
    }
  }

  lemma SwapFactors(t: Poly, l: Poly, s: Poly)
    ensures Times(l, Times(t, s)) == Times(t, Times(l, s))
  {
    hide *;
    TimesAssociates(l, t, s);
    TimesAssociates(t, l, s);
    TimesCommutes(t, l);
  }

  lemma ProductBound(a: Poly, b: Poly, n: nat, R: nat)
    requires |a| + |b| <= n && n <= R + 1
    ensures |Times(a, b)| <= R
  {
    hide Times;
    if a == [] || b == [] {
      TimesNonZero(a, b);
    } else {
      TimesLength(a, b);
    }
  }

  lemma LowPartsAgree(a: Poly, p: Poly, b: Poly, q: Poly, z: Poly, R: nat)
    requires z == Plus(a, ShiftBy(p, R)) && b == Plus(z, ShiftBy(q, R))
    requires |a| <= R && |b| <= R
    ensures a == b && p == q
  {
    hide Plus, ShiftBy;
    PlusAssociates(a, ShiftBy(p, R), ShiftBy(q, R));
    ShiftByPlus(p, q, R);
    var d := Plus(p, q);
    PlusCommutes(a, ShiftBy(d, R));
    PlusCancels(ShiftBy(d, R), a);
    PlusLength(b, a);
    ShiftByLength(d, R);
    PlusCancels(p, q);
    PlusZero(a);
    PlusZero(q);
    ShiftByZero(R);
    assert d == [];
  }

  /** A row of Euclid's algorithm with low degrees whose cofactors are coprime is a constant
      multiple of the true locator and evaluator. */
  lemma LocatorUnique(r: Poly, t: Poly, u: Poly, tLast: Poly, uLast: Poly, errors: seq<Fault>, R: nat)
    returns (m: Byte)
    requires Distinct(errors) && 2 * |errors| <= R
    requires Row(r, t, u, SyndromePoly(errors, 0, R), Monomial(R))
    requires Plus(Times(t, uLast), Times(tLast, u)) == [ONE]
    requires t != [] && 2 * (|t| - 1) <= R && (r != [] ==> 2 * (|r| - 1) < R)
    ensures m != ZERO
    ensures t == Scale(m, Locator(errors)) && r == Scale(m, Evaluator(errors))
  {
    CrossProducts(r, t, u, errors, R);
    RootsOfLocator(t, r, errors);
    LocatorLength(errors);
    var (l, w, v) := (Locator(errors), Evaluator(errors), Excess(errors, R));
    hide *;
    var p := LocatorDivides(t, errors);
    CancelLocator(l, p, w, r);
    CancelLocator(l, p, v, u);
    ConstantFactor(p, l, v, uLast, tLast);
    m := p[0];
    TimesCommutes(l, p);
    SingletonProduct(p, m, l);
    SingletonProduct(p, m, w);
  }

  /** Wherever the locator vanishes the evaluator does not, so t vanishes there too. */
  lemma RootsOfLocator(t: Poly, r: Poly, errors: seq<Fault>)
    requires Distinct(errors)
    requires Times(t, Evaluator(errors)) == Times(Locator(errors), r)
    ensures VanishesAt(t, errors)
  {
    hide Times, Eval, Inv, Mul, Locator, Evaluator, Denominator;
    forall j | 0 <= j < |errors| ensures Eval(t, Inv(errors[j].loc)) == ZERO {
      var x := Inv(errors[j].loc);
      LocatorRoots(errors, x);
      EvalTimes(Locator(errors), r, x);
      MulNonZero(ZERO, Eval(r, x));
      EvalTimes(t, Evaluator(errors), x);
      EvaluatorAt(errors, j);
      DenominatorNonZero(errors, j, |errors|);
      MulNonZero(errors[j].value, Denominator(Locations(errors), j, x, |errors|));
      MulNonZero(Eval(t, x), Eval(Evaluator(errors), x));
    }
  }

  lemma CancelLocator(l: Poly, p: Poly, w: Poly, r: Poly)
    requires l != [] && Times(Times(l, p), w) == Times(l, r)
    ensures r == Times(p, w)
  {
    hide *;
    TimesAssociates(l, p, w);
    TimesCancels(l, Times(p, w), r);
  }

  /** p divides both t = l p and u = p v, hence their unit combination. */
  lemma ConstantFactor(p: Poly, l: Poly, v: Poly, uLast: Poly, tLast: Poly)
    requires Plus(Times(Times(l, p), uLast), Times(tLast, Times(p, v))) == [ONE]
    ensures |p| == 1
  {
    hide *;
    TimesCommutes(l, p);
    TimesAssociates(p, l, uLast);
    SwapFactors(p, tLast, v);
    TimesPlus(p, Times(l, uLast), Times(tLast, v));
    var q := Plus(Times(l, uLast), Times(tLast, v));
    assert Times(p, q) == [ONE];
    TimesNonZero(p, q);
    TimesLength(p, q);
  }

  lemma SingletonProduct(p: Poly, m: Byte, q: Poly)
    requires |p| == 1 && p[0] == m
    ensures m != ZERO && Times(p, q) == Scale(m, q)
  {}
}
