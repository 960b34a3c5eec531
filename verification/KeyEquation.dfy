/** The algebra of error locations: the locator and evaluator of a list of errors satisfy the
    key equation, and any low-degree solution of it is a constant multiple of them. */
module KeyEquation {
  import opened Gf256
  import opened Poly
  import opened PolyArrays

  /** One error: the power of 2 naming its position, and the value added there. */
  datatype Fault = Fault(loc: Byte, value: Byte)

  /** 1 + loc * x. */
  function Factor(loc: Byte): Poly {
    Snoc(Snoc([], loc), ONE)
  }

  /** The polynomial whose roots are the inverse locations. */
  function Locator(errors: seq<Fault>): Poly {
    if errors == [] then [ONE]
    else Times(Factor(errors[|errors| - 1].loc), Locator(errors[..|errors| - 1]))
  }

  function Evaluator(errors: seq<Fault>): Poly {
    if errors == [] then [] else
      var (rest, last) := (errors[..|errors| - 1], errors[|errors| - 1]);
      Plus(Times(Factor(last.loc), Evaluator(rest)), Scale(last.value, Locator(rest)))
  }

  function Power(x: Byte, i: nat): Byte {
    if i == 0 then ONE else Mul(x, Power(x, i - 1))
  }

  /** The i-th power sum of the errors: what the i-th syndrome of a damaged codeword is. */
  function PowerSum(errors: seq<Fault>, i: nat): Byte {
    if errors == [] then ZERO else
      var (rest, last) := (errors[..|errors| - 1], errors[|errors| - 1]);
      Add(PowerSum(rest, i), Mul(last.value, Power(last.loc, i)))
  }

  /** S_i + S_(i+1) x + ... + S_(R-1) x^(R-1-i) for the power sums S. */
  function SyndromePoly(errors: seq<Fault>, i: nat, R: nat): Poly
    requires i <= R
    decreases R - i, errors
  {
    if i == R then [] else Snoc(SyndromePoly(errors, i + 1, R), PowerSum(errors, i))
  }

  /** The same for one location with value 1: a geometric progression. */
  function Geometric(loc: Byte, i: nat, R: nat): Poly
    requires i <= R
    decreases R - i, loc
  {
    if i == R then [] else Snoc(Geometric(loc, i + 1, R), Power(loc, i))
  }

  // ---- The key equation ----

  lemma FactorTimes(loc: Byte, p: Poly)
    ensures Times(Factor(loc), p) == Plus(Shift(Scale(loc, p)), p)
  {
    hide Times, Scale, Plus;
    TimesSnoc(Snoc([], loc), ONE, p);
    TimesConstant(loc, p);
    ScaleOne(p);
  }

  /** (1 + loc x)(loc^i + ... + loc^(R-1) x^(R-1-i)) = loc^i + loc^R x^(R-i). */
  lemma {:induction false} GeometricSum(loc: Byte, i: nat, R: nat)
    requires i <= R
    ensures Times(Factor(loc), Geometric(loc, i, R))
         == Plus(Snoc([], Power(loc, i)), ShiftBy(Snoc([], Power(loc, R)), R - i))
    decreases R - i
  {
    hide Times, Plus, Factor, Snoc, Power;
    if i == R {
      FactorTimes(loc, []);
      PlusSelf(Snoc([], Power(loc, R)));
      EmptyProduct(loc);
    } else {
      var g := Geometric(loc, i + 1, R);
      var c := Power(loc, i);
      GeometricSum(loc, i + 1, R);
      TimesBySnoc(Factor(loc), g, c);
      GeometricStep(loc, i, ShiftBy(Snoc([], Power(loc, R)), R - i - 1));
    }
  }

  lemma EmptyProduct(loc: Byte)
    ensures Times(Factor(loc), []) == []
  {
    TimesZero(Factor(loc));
  }

  lemma GeometricStep(loc: Byte, i: nat, high: Poly)
    ensures Plus(Shift(Plus(Snoc([], Power(loc, i + 1)), high)), Scale(Power(loc, i), Factor(loc)))
         == Plus(Snoc([], Power(loc, i)), Shift(high))
  {
    hide Plus, Scale, Mul, Power, Snoc;
    var c := Power(loc, i);
    var d := Power(loc, i + 1);
    assert d == Mul(loc, c) by { PowerStep(loc, i); }
    ScaleSnoc(c, Snoc([], loc), ONE);
    ScaleSnoc(c, [], loc);
    assert Scale(c, []) == [] by { ScaleEmpty(c); }
    MulOne(c);
    MulCommutes(c, loc);
    ShiftPlus(Snoc([], d), high);
    var e := Snoc(Snoc([], d), ZERO);
    assert Scale(c, Factor(loc)) == Snoc(Snoc([], d), c);
    PlusCommutes(e, Shift(high));
    PlusAssociates(Shift(high), e, Snoc(Snoc([], d), c));
    PlusSnoc(Snoc([], d), ZERO, Snoc([], d), c);
    PlusSelf(Snoc([], d));
    AddCommutes(ZERO, c);
    AddCancels(c, ZERO);
    PlusCommutes(Shift(high), Snoc([], c));
  }

  lemma PowerStep(x: Byte, i: nat)
    ensures Power(x, i + 1) == Mul(x, Power(x, i))
  {}

  lemma ScaleEmpty(c: Byte)
    ensures Scale(c, []) == []
  {}

  lemma {:induction false} SyndromeSplit(errors: seq<Fault>, i: nat, R: nat)
    requires i <= R && errors != []
    ensures SyndromePoly(errors, i, R)
         == Plus(SyndromePoly(errors[..|errors| - 1], i, R),
                 Scale(errors[|errors| - 1].value, Geometric(errors[|errors| - 1].loc, i, R)))
    decreases R - i
  {
    hide Plus, Scale, Snoc, Add, Mul, Power;
    var (rest, last) := (errors[..|errors| - 1], errors[|errors| - 1]);
    if i == R {
      ScaleEmpty(last.value);
      PlusZero([]);
    } else {
      SyndromeSplit(errors, i + 1, R);
      ScaleSnoc(last.value, Geometric(last.loc, i + 1, R), Power(last.loc, i));
      PlusSnoc(SyndromePoly(rest, i + 1, R), PowerSum(rest, i),
               Scale(last.value, Geometric(last.loc, i + 1, R)), Mul(last.value, Power(last.loc, i)));
    }
  }

  lemma {:induction false} SyndromeEmpty(i: nat, R: nat)
    requires i <= R
    ensures SyndromePoly([], i, R) == []
    decreases R - i
  {
    if i < R {
      SyndromeEmpty(i + 1, R);
    }
  }

  /** What the key equation leaves above degree R. */
  function Excess(errors: seq<Fault>, R: nat): Poly {
    if errors == [] then [] else
      var (rest, last) := (errors[..|errors| - 1], errors[|errors| - 1]);
      Plus(Times(Factor(last.loc), Excess(rest, R)),
           Scale(Mul(last.value, Power(last.loc, R)), Locator(rest)))
  }

  lemma {:induction false} ShiftByTimes(p: Poly, q: Poly, n: nat)
    ensures Times(p, ShiftBy(q, n)) == ShiftBy(Times(p, q), n)
  {
    hide Times, Shift;
    if n > 0 {
      ShiftByTimes(p, q, n - 1);
      TimesShift(p, ShiftBy(q, n - 1));
    }
  }

  lemma {:induction false} ShiftByPlus(p: Poly, q: Poly, n: nat)
    ensures ShiftBy(Plus(p, q), n) == Plus(ShiftBy(p, n), ShiftBy(q, n))
  {
    hide Plus, Shift;
    if n > 0 {
      ShiftByPlus(p, q, n - 1);
      ShiftPlus(ShiftBy(p, n - 1), ShiftBy(q, n - 1));
    }
  }

  lemma {:induction false} ShiftByScale(c: Byte, p: Poly, n: nat)
    ensures Scale(c, ShiftBy(p, n)) == ShiftBy(Scale(c, p), n)
  {
    hide Scale, Shift;
    if n > 0 {
      ShiftByScale(c, p, n - 1);
      ScaleShift(c, ShiftBy(p, n - 1));
    }
  }

  lemma {:induction false} ShiftByLength(p: Poly, n: nat)
    ensures |ShiftBy(p, n)| == if p == [] then 0 else |p| + n
  {
    if n > 0 {
      ShiftByLength(p, n - 1);
    }
  }

  /** locator * syndrome = evaluator + x^R * excess. */
  lemma {:induction false} KeyEquation(errors: seq<Fault>, R: nat)
    ensures Times(Locator(errors), SyndromePoly(errors, 0, R))
         == Plus(Evaluator(errors), ShiftBy(Excess(errors, R), R))
  {
    if errors == [] {
      SyndromeEmpty(0, R);
      TimesZero([ONE]);
      ShiftByZero(R);
      PlusZero([]);
    } else {
      var (rest, last) := (errors[..|errors| - 1], errors[|errors| - 1]);
      KeyEquation(rest, R);
      KeyEquationStep(errors, R);
    }
  }

  lemma KeyEquationStep(errors: seq<Fault>, R: nat)
    requires errors != []
    requires var rest := errors[..|errors| - 1];
      Times(Locator(rest), SyndromePoly(rest, 0, R)) == Plus(Evaluator(rest), ShiftBy(Excess(rest, R), R))
    ensures Times(Locator(errors), SyndromePoly(errors, 0, R))
         == Plus(Evaluator(errors), ShiftBy(Excess(errors, R), R))
  {
    var (rest, last) := (errors[..|errors| - 1], errors[|errors| - 1]);
    var (f, l, y) := (Factor(last.loc), Locator(rest), last.value);
    var (s, g) := (SyndromePoly(rest, 0, R), Geometric(last.loc, 0, R));
    var (w, v) := (Evaluator(rest), Excess(rest, R));
    var c := Mul(y, Power(last.loc, R));
    SyndromeSplit(errors, 0, R);
    // the two halves of (f l)(s + y g)
    OldErrors(f, l, s, w, v, R);
    NewError(last, l, R);
    hide *;
    var fl := Times(f, l);
    TimesPlus(fl, s, Scale(y, g));
    PlusSwap(Times(f, w), ShiftBy(Times(f, v), R), Scale(y, l), ShiftBy(Scale(c, l), R));
    ShiftByPlus(Times(f, v), Scale(c, l), R);
    LocatorDef(errors);
    EvaluatorDef(errors, R);
  }

  lemma LocatorDef(errors: seq<Fault>)
    requires errors != []
    ensures Locator(errors) == Times(Factor(errors[|errors| - 1].loc), Locator(errors[..|errors| - 1]))
  {}

  lemma EvaluatorDef(errors: seq<Fault>, R: nat)
    requires errors != []
    ensures var (rest, last) := (errors[..|errors| - 1], errors[|errors| - 1]);
      && Evaluator(errors) == Plus(Times(Factor(last.loc), Evaluator(rest)), Scale(last.value, Locator(rest)))
      && Excess(errors, R) == Plus(Times(Factor(last.loc), Excess(rest, R)),
                                   Scale(Mul(last.value, Power(last.loc, R)), Locator(rest)))
  {}

  lemma OldErrors(f: Poly, l: Poly, s: Poly, w: Poly, v: Poly, R: nat)
    requires Times(l, s) == Plus(w, ShiftBy(v, R))
    ensures Times(Times(f, l), s) == Plus(Times(f, w), ShiftBy(Times(f, v), R))
  {
    hide *;
    TimesAssociates(f, l, s);
    TimesPlus(f, w, ShiftBy(v, R));
    ShiftByTimes(f, v, R);
  }

  lemma NewError(last: Fault, l: Poly, R: nat)
    ensures Times(Times(Factor(last.loc), l), Scale(last.value, Geometric(last.loc, 0, R)))
         == Plus(Scale(last.value, l), ShiftBy(Scale(Mul(last.value, Power(last.loc, R)), l), R))
  {
    PowerZero(last.loc);
    hide *;
    var (f, y, p) := (Factor(last.loc), last.value, Power(last.loc, R));
    var g := Geometric(last.loc, 0, R);
    GeometricSum(last.loc, 0, R);
    TimesCommutes(f, l);
    TimesAssociates(l, f, Scale(y, g));
    TimesCommutes(f, Scale(y, g));
    TimesScale(y, g, f);
    TimesCommutes(g, f);
    var (one, high) := (Snoc([], ONE), ShiftBy(Snoc([], p), R));
    TimesCommutes(l, Scale(y, Plus(one, high)));
    TimesScale(y, Plus(one, high), l);
    PlusTimes(one, high, l);
    TimesConstant(ONE, l);
    ScaleOne(l);
    TimesCommutes(high, l);
    ShiftByTimes(l, Snoc([], p), R);
    TimesByConstant(l, p);
    ScalePlus(y, l, ShiftBy(Scale(p, l), R));
    ShiftByScale(y, Scale(p, l), R);
    ScaleScale(y, p, l);
  }

  lemma PowerZero(x: Byte)
    ensures Power(x, 0) == ONE
  {}
}
