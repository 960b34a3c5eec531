/** Polynomials over GF(256), highest coefficient first as in qr.js. The zero polynomial is
    the empty sequence here; qr.js writes it [0]. */
module Poly {
  import opened Gf256

  type Poly = p: seq<Byte> | p == [] || p[0] != ZERO

  function Init(p: Poly): Poly
    requires p != []
  {
    p[..|p| - 1]
  }

  function Last(p: Poly): Byte
    requires p != []
  {
    p[|p| - 1]
  }

  /** p * x + c. */
  function Snoc(p: Poly, c: Byte): (r: Poly)
    ensures r != [] ==> Init(r) == p && Last(r) == c
    ensures r == [] <==> p == [] && c == ZERO
    ensures r != [] ==> |r| == |p| + 1
  {
    if p == [] && c == ZERO then [] else p + [c]
  }

  lemma SnocInit(p: Poly)
    requires p != []
    ensures Snoc(Init(p), Last(p)) == p
  {}

  /** The polynomial a coefficient array denotes: leading zeros do not matter. */
  function Trim(s: seq<Byte>): Poly {
    if s == [] then [] else Snoc(Trim(s[..|s| - 1]), s[|s| - 1])
  }

  function Plus(a: Poly, b: Poly): Poly {
    if a == [] then b
    else if b == [] then a
    else Snoc(Plus(Init(a), Init(b)), Add(Last(a), Last(b)))
  }

  function Scale(c: Byte, p: Poly): Poly {
    if p == [] then [] else Snoc(Scale(c, Init(p)), Mul(c, Last(p)))
  }

  function Shift(p: Poly): Poly {
    Snoc(p, ZERO)
  }

  function Times(a: Poly, b: Poly): Poly {
    if a == [] then [] else Plus(Shift(Times(Init(a), b)), Scale(Last(a), b))
  }

  function Eval(p: Poly, x: Byte): Byte {
    if p == [] then ZERO else Add(Mul(x, Eval(Init(p), x)), Last(p))
  }

  // ---- Addition ----

  lemma PlusSnoc(a: Poly, x: Byte, b: Poly, y: Byte)
    ensures Plus(Snoc(a, x), Snoc(b, y)) == Snoc(Plus(a, b), Add(x, y))
  {
    hide Add;
    AddCancels(x, x);
    AddCancels(y, y);
    AddCommutes(x, y);
  }

  lemma {:induction false} PlusCommutes(a: Poly, b: Poly)
    ensures Plus(a, b) == Plus(b, a)
  {
    hide Add;
    if a != [] && b != [] {
      PlusCommutes(Init(a), Init(b));
      AddCommutes(Last(a), Last(b));
    }
  }

  lemma {:induction false} PlusAssociates(a: Poly, b: Poly, c: Poly)
    ensures Plus(Plus(a, b), c) == Plus(a, Plus(b, c))
  {
    hide Add, Snoc;
    if a != [] && b != [] && c != [] {
      var (a', b', c') := (Init(a), Init(b), Init(c));
      var (x, y, z) := (Last(a), Last(b), Last(c));
      SnocInit(a);
      SnocInit(b);
      SnocInit(c);
      PlusSnoc(a', x, b', y);
      PlusSnoc(b', y, c', z);
      PlusSnoc(Plus(a', b'), Add(x, y), c', z);
      PlusSnoc(a', x, Plus(b', c'), Add(y, z));
      PlusAssociates(a', b', c');
      AddAssociates(x, y, z);
    }
  }

  lemma {:induction false} PlusSelf(a: Poly)
    ensures Plus(a, a) == []
  {
    hide Add;
    if a != [] {
      PlusSelf(Init(a));
      AddCancels(Last(a), Last(a));
    }
  }

  lemma PlusZero(a: Poly)
    ensures Plus(a, []) == a && Plus([], a) == a
  {}

  lemma PlusCancels(a: Poly, b: Poly)
    ensures Plus(Plus(a, b), b) == a
    ensures Plus(b, Plus(b, a)) == a
  {
    PlusAssociates(a, b, b);
    PlusAssociates(b, b, a);
    PlusSelf(b);
  }

  lemma PlusSwap(a: Poly, b: Poly, c: Poly, d: Poly)
    ensures Plus(Plus(a, b), Plus(c, d)) == Plus(Plus(a, c), Plus(b, d))
  {
    hide Plus;
    PlusAssociates(a, b, Plus(c, d));
    PlusAssociates(b, c, d);
    PlusCommutes(b, c);
    PlusAssociates(c, b, d);
    PlusAssociates(a, c, Plus(b, d));
  }

  // ---- Scaling and shifting ----

  lemma ScaleSnoc(c: Byte, p: Poly, x: Byte)
    ensures Scale(c, Snoc(p, x)) == Snoc(Scale(c, p), Mul(c, x))
  {}

  lemma {:induction false} ScaleZero(p: Poly)
    ensures Scale(ZERO, p) == []
  {
    hide Mul;
    if p != [] {
      ScaleZero(Init(p));
      MulNonZero(ZERO, Last(p));
    }
  }

  lemma {:induction false} ScaleOne(p: Poly)
    ensures Scale(ONE, p) == p
  {
    hide Mul;
    if p != [] {
      ScaleOne(Init(p));
      MulOne(Last(p));
    }
  }

  lemma {:induction false} ScaleLength(c: Byte, p: Poly)
    requires c != ZERO
    ensures |Scale(c, p)| == |p|
  {
    hide Mul;
    if p != [] {
      ScaleLength(c, Init(p));
      MulNonZero(c, Last(p));
      if |p| == 1 {
        assert Last(p) != ZERO;
      }
    }
  }

  lemma {:induction false} ScalePlus(c: Byte, a: Poly, b: Poly)
    ensures Scale(c, Plus(a, b)) == Plus(Scale(c, a), Scale(c, b))
  {
    hide Mul, Add, Snoc;
    if a != [] && b != [] {
      SnocInit(a);
      SnocInit(b);
      ScalePlus(c, Init(a), Init(b));
      MulDistributes(c, Last(a), Last(b));
      ScaleSnoc(c, Plus(Init(a), Init(b)), Add(Last(a), Last(b)));
      PlusSnoc(Scale(c, Init(a)), Mul(c, Last(a)), Scale(c, Init(b)), Mul(c, Last(b)));
    }
  }

  lemma {:induction false} ScaleAdd(c: Byte, d: Byte, p: Poly)
    ensures Scale(Add(c, d), p) == Plus(Scale(c, p), Scale(d, p))
  {
    hide Mul, Add, Snoc;
    if p != [] {
      var x := Last(p);
      ScaleAdd(c, d, Init(p));
      MulCommutes(Add(c, d), x);
      MulCommutes(c, x);
      MulCommutes(d, x);
      MulDistributes(x, c, d);
      PlusSnoc(Scale(c, Init(p)), Mul(c, x), Scale(d, Init(p)), Mul(d, x));
    }
  }

  lemma {:induction false} ScaleScale(c: Byte, d: Byte, p: Poly)
    ensures Scale(c, Scale(d, p)) == Scale(Mul(c, d), p)
  {
    hide Mul, Snoc;
    if p != [] {
      ScaleScale(c, d, Init(p));
      MulAssociates(c, d, Last(p));
      ScaleSnoc(c, Scale(d, Init(p)), Mul(d, Last(p)));
    }
  }

  lemma ScaleShift(c: Byte, p: Poly)
    ensures Scale(c, Shift(p)) == Shift(Scale(c, p))
  {}

  lemma ShiftPlus(a: Poly, b: Poly)
    ensures Shift(Plus(a, b)) == Plus(Shift(a), Shift(b))
  {
    PlusSnoc(a, ZERO, b, ZERO);
    AddCancels(ZERO, ZERO);
  }

  // ---- Multiplication ----

  lemma TimesSnoc(a: Poly, x: Byte, b: Poly)
    ensures Times(Snoc(a, x), b) == Plus(Shift(Times(a, b)), Scale(x, b))
  {
    ScaleZero(b);
    PlusZero(Scale(x, b));
  }

  lemma {:induction false} TimesZero(a: Poly)
    ensures Times(a, []) == []
  {
    if a != [] {
      TimesZero(Init(a));
    }
  }

  lemma TimesConstant(c: Byte, b: Poly)
    ensures Times(Snoc([], c), b) == Scale(c, b)
  {}

  lemma {:induction false} TimesShift(a: Poly, b: Poly)
    ensures Times(a, Shift(b)) == Shift(Times(a, b))
  {
    hide Scale, Shift, Plus;
    if a != [] {
      TimesShift(Init(a), b);
      ScaleShift(Last(a), b);
      ShiftPlus(Shift(Times(Init(a), b)), Scale(Last(a), b));
    } else {
      assert Shift([]) == [] by { ShiftZero(); }
    }
  }

  lemma ShiftZero()
    ensures Shift([]) == []
  {}

  lemma ShiftTimes(a: Poly, b: Poly)
    ensures Times(Shift(a), b) == Shift(Times(a, b))
  {
    hide Plus, Snoc;
    TimesSnoc(a, ZERO, b);
    ScaleZero(b);
    PlusZero(Shift(Times(a, b)));
  }

  lemma {:induction false} TimesPlus(a: Poly, b: Poly, c: Poly)
    ensures Times(a, Plus(b, c)) == Plus(Times(a, b), Times(a, c))
  {
    hide Scale, Shift, Plus;
    if a == [] {
      PlusZero([]);
    } else {
      TimesPlus(Init(a), b, c);
      ScalePlus(Last(a), b, c);
      ShiftPlus(Times(Init(a), b), Times(Init(a), c));
      PlusSwap(Shift(Times(Init(a), b)), Shift(Times(Init(a), c)), Scale(Last(a), b), Scale(Last(a), c));
    }
  }

  lemma {:induction false} PlusTimes(a: Poly, b: Poly, c: Poly)
    ensures Times(Plus(a, b), c) == Plus(Times(a, c), Times(b, c))
  {
    if a == [] || b == [] {
      PlusZero(Times(a, c));
      PlusZero(Times(b, c));
    } else {
      PlusTimes(Init(a), Init(b), c);
      PlusTimesStep(Init(a), Last(a), Init(b), Last(b), c);
    }
  }

  lemma PlusTimesStep(a: Poly, x: Byte, b: Poly, y: Byte, c: Poly)
    requires Times(Plus(a, b), c) == Plus(Times(a, c), Times(b, c))
    ensures Times(Snoc(Plus(a, b), Add(x, y)), c)
         == Plus(Plus(Shift(Times(a, c)), Scale(x, c)), Plus(Shift(Times(b, c)), Scale(y, c)))
  {
    hide Times, Shift, Plus, Scale, Add, Snoc;
    TimesSnoc(Plus(a, b), Add(x, y), c);
    ScaleAdd(x, y, c);
    ShiftPlus(Times(a, c), Times(b, c));
    PlusSwap(Shift(Times(a, c)), Shift(Times(b, c)), Scale(x, c), Scale(y, c));
  }

  lemma {:induction false} TimesScale(c: Byte, a: Poly, b: Poly)
    ensures Times(Scale(c, a), b) == Scale(c, Times(a, b))
  {
    hide Mul, Plus, Shift, Snoc;
    if a != [] {
      TimesScale(c, Init(a), b);
      TimesSnoc(Scale(c, Init(a)), Mul(c, Last(a)), b);
      ScaleScale(c, Last(a), b);
      ScalePlus(c, Shift(Times(Init(a), b)), Scale(Last(a), b));
      ScaleShift(c, Times(Init(a), b));
    }
  }

  lemma {:induction false} TimesAssociates(a: Poly, b: Poly, c: Poly)
    ensures Times(Times(a, b), c) == Times(a, Times(b, c))
  {
    hide Scale, Shift, Plus;
    if a != [] {
      TimesAssociates(Init(a), b, c);
      PlusTimes(Shift(Times(Init(a), b)), Scale(Last(a), b), c);
      ShiftTimes(Times(Init(a), b), c);
      TimesScale(Last(a), b, c);
    }
  }

  lemma {:induction false} TimesBySnoc(a: Poly, b: Poly, y: Byte)
    ensures Times(a, Snoc(b, y)) == Plus(Shift(Times(a, b)), Scale(y, a))
  {
    TimesPlus(a, Shift(b), Snoc([], y));
    PlusSnoc(b, ZERO, [], y);
    AddCancels(y, ZERO);
    AddCommutes(y, ZERO);
    PlusZero(b);
    TimesShift(a, b);
    TimesByConstant(a, y);
  }

  lemma {:induction false} TimesByConstant(a: Poly, y: Byte)
    ensures Times(a, Snoc([], y)) == Scale(y, a)
  {
    hide Mul, Add, Snoc;
    if a != [] {
      TimesByConstant(Init(a), y);
      ScaleSnoc(Last(a), [], y);
      MulCommutes(Last(a), y);
      PlusSnoc(Scale(y, Init(a)), ZERO, [], Mul(y, Last(a)));
      AddCommutes(ZERO, Mul(y, Last(a)));
      AddCancels(Mul(y, Last(a)), ZERO);
      PlusZero(Scale(y, Init(a)));
    }
  }

  lemma {:induction false} TimesCommutes(a: Poly, b: Poly)
    ensures Times(a, b) == Times(b, a)
  {
    if a == [] {
      TimesZero(b);
    } else {
      TimesCommutes(Init(a), b);
      TimesBySnoc(b, Init(a), Last(a));
      SnocInit(a);
    }
  }

  lemma TimesOne(a: Poly)
    ensures Times([ONE], a) == a && Times(a, [ONE]) == a
  {
    assert Snoc([], ONE) == [ONE];
    TimesConstant(ONE, a);
    ScaleOne(a);
    TimesCommutes(a, [ONE]);
  }

  // ---- Evaluation ----

  lemma EvalSnoc(p: Poly, c: Byte, x: Byte)
    ensures Eval(Snoc(p, c), x) == Add(Mul(x, Eval(p, x)), c)
  {}

  lemma {:induction false} EvalPlus(a: Poly, b: Poly, x: Byte)
    ensures Eval(Plus(a, b), x) == Add(Eval(a, x), Eval(b, x))
  {
    hide Add, Mul, Snoc;
    AddCancels(Eval(a, x), ZERO);
    AddCancels(Eval(b, x), ZERO);
    AddCommutes(Eval(b, x), ZERO);
    if a != [] && b != [] {
      var (p, q) := (Eval(Init(a), x), Eval(Init(b), x));
      EvalPlus(Init(a), Init(b), x);
      EvalSnoc(Plus(Init(a), Init(b)), Add(Last(a), Last(b)), x);
      MulDistributes(x, p, q);
      AddSwap(Mul(x, p), Mul(x, q), Last(a), Last(b));
    }
  }

  lemma {:induction false} EvalScale(c: Byte, p: Poly, x: Byte)
    ensures Eval(Scale(c, p), x) == Mul(c, Eval(p, x))
  {
    hide Add, Mul, Snoc;
    if p == [] {
      MulNonZero(c, ZERO);
    } else {
      var e := Eval(Init(p), x);
      EvalScale(c, Init(p), x);
      EvalSnoc(Scale(c, Init(p)), Mul(c, Last(p)), x);
      MulDistributes(c, Mul(x, e), Last(p));
      MulAssociates(c, x, e);
      MulAssociates(x, c, e);
      MulCommutes(c, x);
    }
  }

  lemma EvalShift(p: Poly, x: Byte)
    ensures Eval(Shift(p), x) == Mul(x, Eval(p, x))
  {
    EvalSnoc(p, ZERO, x);
    AddCancels(Mul(x, Eval(p, x)), ZERO);
  }

  lemma {:induction false} EvalTimes(a: Poly, b: Poly, x: Byte)
    ensures Eval(Times(a, b), x) == Mul(Eval(a, x), Eval(b, x))
  {
    hide Add, Mul, Plus, Shift, Scale;
    if a == [] {
      MulNonZero(ZERO, Eval(b, x));
    } else {
      var (e, f) := (Eval(Init(a), x), Eval(b, x));
      EvalTimes(Init(a), b, x);
      EvalPlus(Shift(Times(Init(a), b)), Scale(Last(a), b), x);
      EvalShift(Times(Init(a), b), x);
      EvalScale(Last(a), b, x);
      MulAssociates(x, e, f);
      MulCommutes(f, Mul(x, e));
      MulCommutes(f, Last(a));
      MulDistributes(f, Mul(x, e), Last(a));
      MulCommutes(f, Add(Mul(x, e), Last(a)));
    }
  }

  // ---- Degrees ----

  lemma {:induction false} PlusLength(a: Poly, b: Poly)
    ensures |a| != |b| ==> |Plus(a, b)| == if |a| < |b| then |b| else |a|
    ensures |Plus(a, b)| <= if |a| < |b| then |b| else |a|
  {
    if a != [] && b != [] {
      PlusLength(Init(a), Init(b));
    }
  }

  lemma {:induction false} TimesLength(a: Poly, b: Poly)
    requires a != [] && b != []
    ensures |Times(a, b)| == |a| + |b| - 1
  {
    if |a| == 1 {
      PlusZero(Scale(Last(a), b));
      ScaleLength(Last(a), b);
    } else {
      TimesLength(Init(a), b);
      TimesLengthStep(Times(Init(a), b), Last(a), b);
    }
  }

  lemma TimesLengthStep(p: Poly, c: Byte, b: Poly)
    requires |b| <= |p|
    requires p != []
    ensures |Plus(Shift(p), Scale(c, b))| == |p| + 1
  {
    PlusLength(Shift(p), Scale(c, b));
    if c == ZERO {
      ScaleZero(b);
    } else {
      ScaleLength(c, b);
    }
  }

  lemma TimesNonZero(a: Poly, b: Poly)
    ensures Times(a, b) == [] <==> a == [] || b == []
  {
    TimesZero(a);
    if a != [] && b != [] {
      TimesLength(a, b);
    }
  }

  /** Multiplication by a nonzero polynomial can be undone. */
  lemma TimesCancels(a: Poly, b: Poly, c: Poly)
    requires a != [] && Times(a, b) == Times(a, c)
    ensures b == c
  {
    TimesPlus(a, b, c);
    PlusSelf(Times(a, b));
    TimesNonZero(a, Plus(b, c));
    PlusCancels(b, c);
    PlusZero(c);
  }

  // ---- Roots ----

  /** The quotient of p by x + root. */
  function RootQuotient(p: Poly, root: Byte): Poly {
    if p == [] then [] else Snoc(RootQuotient(Init(p), root), Eval(Init(p), root))
  }

  /** x + root. */
  function Linear(root: Byte): Poly {
    [ONE, root]
  }

  lemma {:induction false} RootDivision(p: Poly, root: Byte)
    ensures p == Plus(Times(Linear(root), RootQuotient(p, root)), Snoc([], Eval(p, root)))
  {
    if p == [] {
      TimesZero(Linear(root));
    } else {
      var (q, e) := (RootQuotient(Init(p), root), Eval(Init(p), root));
      RootDivision(Init(p), root);
      RootDivisionStep(q, e, Last(p), root);
      SnocInit(p);
    }
  }

  lemma RootDivisionStep(q: Poly, e: Byte, c: Byte, root: Byte)
    ensures Snoc(Plus(Times(Linear(root), q), Snoc([], e)), c)
         == Plus(Times(Linear(root), Snoc(q, e)), Snoc([], Add(Mul(root, e), c)))
  {
    hide Times, Plus, Snoc, Scale, Add, Mul;
    var l := Linear(root);
    var t := Times(l, q);
    TimesBySnoc(l, q, e);
    ScaleLinear(e, root);
    PlusAssociates(Shift(t), Snoc(Snoc([], e), Mul(root, e)), Snoc([], Add(Mul(root, e), c)));
    PlusSnoc(Snoc([], e), Mul(root, e), [], Add(Mul(root, e), c));
    AddAssociates(Mul(root, e), Mul(root, e), c);
    AddCancels(Mul(root, e), c);
    AddCommutes(c, ZERO);
    AddCancels(c, ZERO);
    PlusZero(Snoc([], e));
    PlusSnoc(t, ZERO, Snoc([], e), c);
  }

  lemma ScaleLinear(e: Byte, root: Byte)
    ensures Scale(e, Linear(root)) == Snoc(Snoc([], e), Mul(root, e))
  {
    hide Mul;
    assert Snoc(Snoc([], ONE), root) == Linear(root);
    ScaleSnoc(e, Snoc([], ONE), root);
    ScaleSnoc(e, [], ONE);
    MulOne(e);
    MulCommutes(e, root);
  }

  lemma FactorRoot(p: Poly, root: Byte)
    requires Eval(p, root) == ZERO
    ensures p == Times(Linear(root), RootQuotient(p, root))
  {
    RootDivision(p, root);
    PlusZero(Times(Linear(root), RootQuotient(p, root)));
  }
}
