/** The Reed-Solomon code of qr.js: generator polynomial, encoding, and the algebra of words
    with errors on which decoding rests (section 7.5.2 of ISO/IEC 18004:2015). */
module ReedSolomon {
  import opened Gf256
  import opened Poly
  import opened PolyArrays

  /** (x + 2^0)(x + 2^1) ... (x + 2^(n-1)). */
  function Generator(n: nat): Poly {
    if n == 0 then [ONE] else Times(Generator(n - 1), Linear(Exp(n - 1)))
  }

  /** A word all of whose n syndromes are zero. */
  ghost predicate IsCodeword(c: seq<Byte>, n: nat) {
    forall i :: 0 <= i < n ==> Eval(Trim(c), Exp(i)) == ZERO
  }

  // ---- The generator ----

  lemma {:induction false} GeneratorMonic(n: nat)
    ensures |Generator(n)| == n + 1 && Generator(n)[0] == ONE
  {
    hide Times, Linear;
    if n > 0 {
      GeneratorMonic(n - 1);
      TimesLinearMonic(Generator(n - 1), Exp(n - 1));
    }
  }

  lemma TimesLinearMonic(p: Poly, root: Byte)
    requires p != [] && p[0] == ONE
    ensures |Times(p, Linear(root))| == |p| + 1 && Times(p, Linear(root))[0] == ONE
  {
    hide Times, Scale;
    assert Snoc([ONE], root) == Linear(root);
    TimesBySnoc(p, [ONE], root);
    TimesOne(p);
    var low := Scale(root, p);
    if root == ZERO {
      ScaleZero(p);
    } else {
      ScaleLength(root, p);
    }
    PlusLead(Shift(p), low);
  }

  lemma {:induction false} PlusLead(a: Poly, b: Poly)
    requires |a| > |b|
    ensures |Plus(a, b)| == |a| && Plus(a, b)[0] == a[0]
  {
    if b != [] {
      PlusLead(Init(a), Init(b));
    }
  }

  lemma LinearRoot(root: Byte, x: Byte)
    ensures Eval(Linear(root), x) == Add(x, root)
  {
    hide Add, Mul;
    assert Snoc(Snoc([], ONE), root) == Linear(root);
    EvalSnoc(Snoc([], ONE), root, x);
    EvalSnoc([], ONE, x);
    MulNonZero(x, ZERO);
    AddCommutes(ZERO, ONE);
    AddCancels(ONE, ZERO);
    MulOne(x);
  }

  lemma {:induction false} GeneratorRoots(n: nat, i: nat)
    requires i < n
    ensures Eval(Generator(n), Exp(i)) == ZERO
  {
    hide Times, Add, Mul, Linear, Exp, Eval;
    var g := Generator(n - 1);
    EvalTimes(g, Linear(Exp(n - 1)), Exp(i));
    if i == n - 1 {
      LinearRoot(Exp(i), Exp(i));
      AddCancels(Exp(i), Exp(i));
      MulNonZero(Eval(g, Exp(i)), ZERO);
    } else {
      GeneratorRoots(n - 1, i);
      MulNonZero(ZERO, Eval(Linear(Exp(n - 1)), Exp(i)));
    }
  }

  lemma MultipleIsCodeword(c: seq<Byte>, q: Poly, n: nat)
    requires Trim(c) == Times(q, Generator(n))
    ensures IsCodeword(c, n)
  {
    hide Times, Generator, Mul, Eval, Exp;
    forall i | 0 <= i < n ensures Eval(Trim(c), Exp(i)) == ZERO {
      EvalTimes(q, Generator(n), Exp(i));
      GeneratorRoots(n, i);
      MulNonZero(Eval(q, Exp(i)), ZERO);
    }
  }

  method DivisorPoly(degree: nat) returns (g: seq<Byte>)
    ensures g == Generator(degree)
  {
    g := [ONE];
    TrimPoly([ONE]);
    for i := 0 to degree
      invariant g == Generator(i)
    {
      GeneratorMonic(i);
      ExpPeriod(i);
      NormalGenerator(i);
      g := MulPoly(g, Linear(Exp(i % 255)));
      TrimPoly(Generator(i));
      TrimPoly(Linear(Exp(i)));
    }
  }

  lemma NormalGenerator(i: nat)
    ensures Normal(Generator(i)) && Normal(Linear(Exp(i))) && Rep(Generator(i + 1)) == Generator(i + 1)
  {
    GeneratorMonic(i);
    GeneratorMonic(i + 1);
  }

  /** The error correction words of a block. */
  method Encode(eccWords: nat, from: seq<Byte>) returns (ecc: seq<Byte>)
    ensures |ecc| == eccWords
    ensures exists q: Poly :: Trim(from + ecc) == Times(q, Generator(eccWords))
    ensures IsCodeword(from + ecc, eccWords)
  {
    var d := DivisorPoly(eccWords);
    GeneratorMonic(eccWords);
    var pol := from + seq(|d| - 1, _ => ZERO);
    ghost var q;
    ecc, q := RemainderPoly(pol, d);
    assert pol == from + ZeroBytes(eccWords);
    EncodedIsMultiple(from, ecc, q, eccWords);
    MultipleIsCodeword(from + ecc, q, eccWords);
  }

  lemma EncodedIsMultiple(from: seq<Byte>, ecc: seq<Byte>, q: Poly, n: nat)
    requires |ecc| == n
    requires Trim(from + ZeroBytes(n)) == Plus(Times(q, Trim(Generator(n))), Trim(ecc))
    ensures Trim(from + ecc) == Times(q, Generator(n))
  {
    hide Times, Plus, Trim, Generator, Add, ZeroBytes, RowAdd;
    TrimPoly(Generator(n));
    var (padded, tail) := (from + ZeroBytes(n), ZeroBytes(|from|) + ecc);
    forall k | 0 <= k < |padded| ensures (from + ecc)[k] == Add(padded[k], tail[k]) {
      AddCancels(padded[k], ZERO);
      AddCommutes(ZERO, tail[k]);
      AddCancels(tail[k], ZERO);
    }
    RowAddIs(padded, tail, from + ecc);
    TrimRowAdd(padded, tail);
    TrimPadded(|from|, ecc);
    PlusCancels(Times(q, Generator(n)), Trim(ecc));
  }
}
