/** The polynomial routines of qr.js on coefficient arrays, each proved against the
    polynomials its arguments denote. */
module PolyArrays {
  import opened Gf256
  import opened Poly

  /** The array qr.js keeps for a polynomial. */
  function Rep(p: Poly): (s: seq<Byte>)
    ensures |s| > 0
  {
    if p == [] then [ZERO] else p
  }

  predicate Normal(s: seq<Byte>) {
    |s| > 0 && (s[0] != ZERO || |s| == 1)
  }

  function Degree(s: seq<Byte>): int {
    |s| - 1
  }

  // ---- What coefficient arrays denote ----

  function ZeroBytes(n: nat): (s: seq<Byte>)
    ensures |s| == n
    ensures forall k :: 0 <= k < n ==> s[k] == ZERO
  {
    seq(n, _ => ZERO)
  }

  lemma RepZero()
    ensures Rep([]) == [ZERO]
  {}

  lemma {:induction false} TrimPoly(p: Poly)
    ensures Trim(p) == p
  {
    if p != [] {
      TrimPoly(Init(p));
      SnocInit(p);
    }
  }

  lemma TrimEmpty(s: seq<Byte>)
    ensures s[..0] == [] && Trim([]) == []
  {}

  lemma TrimAppend(s: seq<Byte>, c: Byte)
    ensures Trim(s + [c]) == Snoc(Trim(s), c)
  {
    assert (s + [c])[..|s|] == s;
  }

  lemma {:induction false} TrimZeros(n: nat)
    ensures Trim(ZeroBytes(n)) == []
  {
    hide Trim;
    TrimEmpty([]);
    if n > 0 {
      TrimZeros(n - 1);
      assert ZeroBytes(n) == ZeroBytes(n - 1) + [ZERO];
      TrimAppend(ZeroBytes(n - 1), ZERO);
    }
  }

  lemma {:induction false} TrimPadded(n: nat, s: seq<Byte>)
    ensures Trim(ZeroBytes(n) + s) == Trim(s)
  {
    hide Trim, Snoc, ZeroBytes;
    TrimEmpty([]);
    if s == [] {
      TrimZeros(n);
      assert ZeroBytes(n) + s == ZeroBytes(n);
    } else {
      var m := |s| - 1;
      TrimPadded(n, s[..m]);
      assert ZeroBytes(n) + s == (ZeroBytes(n) + s[..m]) + [s[m]];
      TrimAppend(ZeroBytes(n) + s[..m], s[m]);
      assert s == s[..m] + [s[m]];
      TrimAppend(s[..m], s[m]);
    }
  }

  lemma TrimLeadingZero(s: seq<Byte>)
    requires |s| > 0 && s[0] == ZERO
    ensures Trim(s[1..]) == Trim(s)
  {
    TrimPadded(1, s[1..]);
    assert ZeroBytes(1) + s[1..] == s;
  }

  lemma {:induction false} TrimLength(s: seq<Byte>)
    ensures |Trim(s)| <= |s|
    ensures |s| > 0 && s[0] != ZERO ==> Trim(s) == s
  {
    if s != [] {
      TrimLength(s[..|s| - 1]);
    }
  }

  lemma RepNormal(p: Poly)
    ensures Normal(Rep(p)) && Trim(Rep(p)) == p
  {
    TrimPoly(p);
    TrimZeros(1);
    assert ZeroBytes(1) == [ZERO];
  }

  lemma NormalRep(s: seq<Byte>)
    requires Normal(s)
    ensures Rep(Trim(s)) == s
  {
    TrimLength(s);
    TrimZeros(1);
    assert ZeroBytes(1) == [ZERO];
    if s[0] == ZERO {
      assert s == [ZERO];
    }
  }

  /** Coefficientwise sum of two arrays of one length. */
  function RowAdd(s: seq<Byte>, t: seq<Byte>): (r: seq<Byte>)
    requires |s| == |t|
    ensures |r| == |s|
  {
    if s == [] then [] else RowAdd(s[..|s| - 1], t[..|t| - 1]) + [Add(s[|s| - 1], t[|t| - 1])]
  }

  lemma {:induction false} RowAddAt(s: seq<Byte>, t: seq<Byte>, k: nat)
    requires |s| == |t| && k < |s|
    ensures RowAdd(s, t)[k] == Add(s[k], t[k])
  {
    if k < |s| - 1 {
      RowAddAt(s[..|s| - 1], t[..|t| - 1], k);
    }
  }

  lemma RowAddIs(s: seq<Byte>, t: seq<Byte>, r: seq<Byte>)
    requires |s| == |t| == |r|
    requires forall k :: 0 <= k < |r| ==> r[k] == Add(s[k], t[k])
    ensures r == RowAdd(s, t)
  {
    hide Add, RowAdd;
    forall k | 0 <= k < |r| ensures r[k] == RowAdd(s, t)[k] {
      RowAddAt(s, t, k);
    }
  }

  lemma {:induction false} TrimRowAdd(s: seq<Byte>, t: seq<Byte>)
    requires |s| == |t|
    ensures Trim(RowAdd(s, t)) == Plus(Trim(s), Trim(t))
  {
    hide Add, Snoc, Plus;
    if s == [] {
      PlusZero([]);
    } else {
      var n := |s| - 1;
      TrimRowAdd(s[..n], t[..n]);
      PlusSnoc(Trim(s[..n]), s[n], Trim(t[..n]), t[n]);
      assert RowAdd(s, t)[..n] == RowAdd(s[..n], t[..n]);
    }
  }

  function RowScale(c: Byte, s: seq<Byte>): (r: seq<Byte>)
    ensures |r| == |s|
    ensures forall k :: 0 <= k < |s| ==> r[k] == Mul(c, s[k])
  {
    seq(|s|, k requires 0 <= k < |s| => Mul(c, s[k]))
  }

  lemma {:induction false} TrimRowScale(c: Byte, s: seq<Byte>)
    ensures Trim(RowScale(c, s)) == Scale(c, Trim(s))
  {
    hide Mul, Snoc;
    if s != [] {
      var n := |s| - 1;
      TrimRowScale(c, s[..n]);
      assert RowScale(c, s)[..n] == RowScale(c, s[..n]);
      ScaleSnoc(c, Trim(s[..n]), s[n]);
    }
  }

  function ShiftBy(p: Poly, n: nat): Poly {
    if n == 0 then p else Shift(ShiftBy(p, n - 1))
  }

  lemma {:induction false} TrimShifted(s: seq<Byte>, n: nat)
    ensures Trim(s + ZeroBytes(n)) == ShiftBy(Trim(s), n)
  {
    hide Trim, Snoc;
    if n == 0 {
      assert s + ZeroBytes(0) == s;
    } else {
      TrimShifted(s, n - 1);
      assert s + ZeroBytes(n) == s + ZeroBytes(n - 1) + [ZERO];
      TrimAppend(s + ZeroBytes(n - 1), ZERO);
    }
  }

  // ---- The routines ----

  /** Drops leading zeros but keeps one coefficient. */
  method Polynomial(poly: seq<Byte>) returns (r: seq<Byte>)
    requires |poly| > 0
    ensures r == Rep(Trim(poly))
  {
    if poly[0] != ZERO {
      NormalRep(poly);
      return poly;
    }
    var i := 0;
    while i < |poly| - 1 && poly[i] == ZERO
      invariant 0 <= i < |poly|
      invariant Trim(poly[i..]) == Trim(poly)
    {
      TrimLeadingZero(poly[i..]);
      assert poly[i..][1..] == poly[i + 1..];
      i := i + 1;
    }
    r := poly[i..];
    NormalRep(r);
  }

  method Monomial(degree: nat, coefficient: Byte) returns (r: seq<Byte>)
    ensures r == Rep(ShiftBy(Snoc([], coefficient), degree))
  {
    if coefficient == ZERO {
      ShiftByZero(degree);
      return [ZERO];
    }
    var coefficients := new Byte[degree + 1](_ => ZERO);
    coefficients[0] := coefficient;
    assert coefficients[..] == [coefficient] + ZeroBytes(degree);
    TrimShifted([coefficient], degree);
    TrimAppend([], coefficient);
    r := Polynomial(coefficients[..]);
  }

  lemma {:induction false} ShiftByZero(n: nat)
    ensures ShiftBy([], n) == []
  {
    if n > 0 {
      ShiftByZero(n - 1);
    }
  }

  lemma ZeroOperand(a: seq<Byte>)
    requires Normal(a)
    ensures a[0] == ZERO <==> Trim(a) == []
  {}

  /** Schoolbook multiplication into one result buffer. */
  method MulPoly(a: seq<Byte>, b: seq<Byte>) returns (r: seq<Byte>)
    requires Normal(a) && Normal(b)
    ensures r == Rep(Times(Trim(a), Trim(b)))
  {
    hide Mul, Add, Trim, Times, Plus, Scale, Snoc, Rep, ZeroBytes, RowScale, RowAdd;
    RepZero();
    ZeroOperand(a);
    ZeroOperand(b);
    TimesZero(Trim(a));
    TimesCommutes([], Trim(b));
    TimesZero(Trim(b));
    TrimEmpty(a);
    if a[0] == ZERO || b[0] == ZERO {
      return [ZERO];
    }
    var res := new Byte[|a| + |b| - 1](_ => ZERO);
    assert res[..|b| - 1] == ZeroBytes(|b| - 1);
    TrimZeros(|b| - 1);
    for i := 0 to |a|
      invariant Trim(res[..i + |b| - 1]) == Times(Trim(a[..i]), Trim(b))
      invariant forall k :: i + |b| - 1 <= k < res.Length ==> res[k] == ZERO
    {
      ghost var before := res[..];
      for j := 0 to |b|
        invariant forall k :: 0 <= k < res.Length && !(i <= k < i + j) ==> res[k] == before[k]
        invariant forall k :: 0 <= k < j ==> res[i + k] == Add(before[i + k], Mul(a[i], b[k]))
      {
        res[i + j] := Add(res[i + j], Mul(a[i], b[j]));
      }
      MulRow(before[..i + |b|], res[..i + |b|], a[i], b, i);
      assert before[..i + |b|][..i + |b| - 1] == before[..i + |b| - 1];
      assert a[..i + 1] == a[..i] + [a[i]];
      MulRowProduct(Trim(a[..i]), a[i], Trim(b));
      TrimAppend(a[..i], a[i]);
    }
    assert res[..] == res[..|a| + |b| - 1];
    assert a[..|a|] == a;
    r := Polynomial(res[..]);
  }

  lemma MulRowProduct(p: Poly, c: Byte, q: Poly)
    ensures Times(Snoc(p, c), q) == Plus(Snoc(Times(p, q), ZERO), Scale(c, q))
  {
    TimesSnoc(p, c, q);
  }

  /** One pass of the inner loop adds the row c * b at offset i. */
  lemma MulRow(before: seq<Byte>, after: seq<Byte>, c: Byte, b: seq<Byte>, i: nat)
    requires |before| == |after| == i + |b| && |b| > 0
    requires before[i + |b| - 1] == ZERO
    requires forall k :: 0 <= k < i ==> after[k] == before[k]
    requires forall k :: 0 <= k < |b| ==> after[i + k] == Add(before[i + k], Mul(c, b[k]))
    ensures Trim(after) == Plus(Snoc(Trim(before[..i + |b| - 1]), ZERO), Scale(c, Trim(b)))
  {
    hide Mul, Add, Trim, Times, Plus, Scale, Snoc, ZeroBytes, RowScale, RowAdd;
    var row := ZeroBytes(i) + RowScale(c, b);
    forall k | 0 <= k < |after| ensures after[k] == Add(before[k], row[k]) {
      AddCancels(before[k], ZERO);
      if k >= i {
        assert after[i + (k - i)] == Add(before[i + (k - i)], Mul(c, b[k - i]));
      }
    }
    RowAddIs(before, row, after);
    TrimRowAdd(before, row);
    assert before == before[..i + |b| - 1] + [ZERO];
    TrimAppend(before[..i + |b| - 1], ZERO);
    TrimPadded(i, RowScale(c, b));
    TrimRowScale(c, b);
  }

  method MulPolyScalar(a: seq<Byte>, scalar: Byte) returns (r: seq<Byte>)
    requires Normal(a)
    ensures r == Rep(Scale(scalar, Trim(a)))
  {
    hide Mul, Add, Trim, Times, Plus, Scale, Snoc, Rep, ZeroBytes, RowScale, RowAdd;
    RepZero();
    if scalar == ZERO {
      ScaleZero(Trim(a));
      return [ZERO];
    }
    if scalar == ONE {
      ScaleOne(Trim(a));
      NormalRep(a);
      return a;
    }
    var res := new Byte[|a|](_ => ZERO);
    for i := 0 to |a|
      invariant forall k :: 0 <= k < i ==> res[k] == Mul(a[k], scalar)
    {
      res[i] := Mul(a[i], scalar);
    }
    ScaledRow(a, scalar, res[..]);
    TrimRowScale(scalar, a);
    r := Polynomial(res[..]);
  }

  lemma ScaledRow(a: seq<Byte>, c: Byte, r: seq<Byte>)
    requires |r| == |a|
    requires forall k :: 0 <= k < |a| ==> r[k] == Mul(a[k], c)
    ensures r == RowScale(c, a)
  {}

  method MulPolyMonomial(a: seq<Byte>, degree: nat, coefficient: Byte) returns (r: seq<Byte>)
    requires Normal(a)
    ensures r == Rep(ShiftBy(Scale(coefficient, Trim(a)), degree))
  {
    hide Mul, Add, Trim, Times, Plus, Scale, Snoc, Rep, ZeroBytes, RowScale, RowAdd;
    RepZero();
    if coefficient == ZERO {
      ScaleZero(Trim(a));
      ShiftByZero(degree);
      return [ZERO];
    }
    var res := new Byte[|a| + degree](_ => ZERO);
    for i := 0 to |a|
      invariant forall k :: 0 <= k < i ==> res[k] == Mul(a[k], coefficient)
      invariant forall k :: |a| <= k < |a| + degree ==> res[k] == ZERO
    {
      res[i] := Mul(a[i], coefficient);
    }
    ScaledRow(a, coefficient, res[..|a|]);
    assert res[..] == RowScale(coefficient, a) + ZeroBytes(degree);
    TrimRowScale(coefficient, a);
    TrimShifted(RowScale(coefficient, a), degree);
    r := Polynomial(res[..]);
  }

  method AddPoly(a: seq<Byte>, b: seq<Byte>) returns (r: seq<Byte>)
    requires Normal(a) && Normal(b)
    ensures r == Rep(Plus(Trim(a), Trim(b)))
  {
    hide Mul, Add, Trim, Times, Plus, Scale, Snoc, Rep, ZeroBytes, RowScale, RowAdd;
    RepZero();
    ZeroOperand(a);
    ZeroOperand(b);
    PlusZero(Trim(a));
    PlusZero(Trim(b));
    if a[0] == ZERO {
      NormalRep(b);
      return b;
    }
    if b[0] == ZERO {
      NormalRep(a);
      return a;
    }
    var smaller, larger := a, b;
    if |smaller| > |larger| {
      smaller, larger := larger, smaller;
      PlusCommutes(Trim(a), Trim(b));
    }
    var sumDiff := new Byte[|larger|](_ => ZERO);
    var lengthDiff := |larger| - |smaller|;
    var s := larger[..lengthDiff];
    for i := 0 to |s|
      invariant forall k :: 0 <= k < i ==> sumDiff[k] == larger[k]
    {
      sumDiff[i] := s[i];
    }
    for i := lengthDiff to |larger|
      invariant forall k :: 0 <= k < lengthDiff ==> sumDiff[k] == larger[k]
      invariant forall k :: lengthDiff <= k < i ==> sumDiff[k] == Add(smaller[k - lengthDiff], larger[k])
    {
      sumDiff[i] := Add(smaller[i - lengthDiff], larger[i]);
    }
    AlignedSum(smaller, larger, sumDiff[..]);
    r := Polynomial(sumDiff[..]);
  }

  lemma AlignedSum(smaller: seq<Byte>, larger: seq<Byte>, sum: seq<Byte>)
    requires |smaller| <= |larger| == |sum|
    requires forall k :: 0 <= k < |larger| - |smaller| ==> sum[k] == larger[k]
    requires forall k :: |larger| - |smaller| <= k < |larger| ==>
               sum[k] == Add(smaller[k - (|larger| - |smaller|)], larger[k])
    ensures Trim(sum) == Plus(Trim(smaller), Trim(larger))
  {
    hide Mul, Add, Trim, Times, Plus, Scale, Snoc, ZeroBytes, RowScale, RowAdd;
    var d := |larger| - |smaller|;
    var padded := ZeroBytes(d) + smaller;
    forall k | 0 <= k < |sum| ensures sum[k] == Add(padded[k], larger[k]) {
      AddCommutes(ZERO, larger[k]);
      AddCancels(larger[k], ZERO);
    }
    RowAddIs(padded, larger, sum);
    TrimRowAdd(padded, larger);
    TrimPadded(d, smaller);
  }

  /** Horner evaluation. */
  method EvalPoly(poly: seq<Byte>, a: Byte) returns (res: Byte)
    requires |poly| > 0
    ensures res == Eval(Trim(poly), a)
  {
    hide Mul, Add, Trim, Times, Plus, Scale, Snoc, Rep, ZeroBytes, RowScale, RowAdd;
    RepZero();
    if a == ZERO {
      TrimAppend(poly[..|poly| - 1], poly[|poly| - 1]);
      assert poly == poly[..|poly| - 1] + [poly[|poly| - 1]];
      EvalAtZero(Trim(poly[..|poly| - 1]), poly[|poly| - 1]);
      return poly[|poly| - 1];
    }
    res := poly[0];
    HornerStart(poly, a);
    for i := 1 to |poly|
      invariant res == Eval(Trim(poly[..i]), a)
    {
      assert poly[..i + 1] == poly[..i] + [poly[i]];
      TrimAppend(poly[..i], poly[i]);
      EvalSnoc(Trim(poly[..i]), poly[i], a);
      res := Add(Mul(a, res), poly[i]);
    }
    assert poly[..|poly|] == poly;
  }

  lemma HornerStart(poly: seq<Byte>, a: Byte)
    requires |poly| > 0
    ensures Eval(Trim(poly[..1]), a) == poly[0]
  {}

  lemma EvalAtZero(p: Poly, c: Byte)
    ensures Eval(Snoc(p, c), ZERO) == c
  {}

  // ---- Division by a monic divisor, in place ----

  /** Returns the remainder: the last |divisor| - 1 entries after clearing the others in turn. */
  method RemainderPoly(data: seq<Byte>, divisor: seq<Byte>) returns (r: seq<Byte>, ghost q: Poly)
    requires |divisor| > 0 && divisor[0] == ONE
    requires |data| >= |divisor| - 1
    ensures |r| == |divisor| - 1
    ensures Trim(data) == Plus(Times(q, Trim(divisor)), Trim(r))
  {
    hide Mul, Add, Trim, Times, Plus, Scale, Snoc, Rep, ZeroBytes, RowScale, RowAdd;
    RepZero();
    var d := |divisor| - 1;
    var out := new Byte[|data|](i requires 0 <= i < |data| => data[i]);
    q := [];
    PlusZero(Trim(data[..d]));
    TimesCommutes([], Trim(divisor));
    TimesZero(Trim(divisor));
    assert out[0..d] == data[..d];
    var i := 0;
    while i < |data| - |divisor| + 1
      invariant 0 <= i <= |data| - d
      invariant Trim(data[..i + d]) == Plus(Times(q, Trim(divisor)), Trim(out[i..i + d]))
      invariant forall k :: i + d <= k < |data| ==> out[k] == data[k]
    {
      ghost var window := out[i..i + d + 1];
      assert window[..d] == out[i..i + d];
      var elm := out[i];
      if elm != ZERO {
        ClearEntry(out, i, divisor, elm);
      } else {
        AddZeroTerms(window, elm, divisor);
      }
      DivisionStep(data[..i + d], data[i + d], q, divisor, window, out[i + 1..i + 1 + d], elm);
      q := Snoc(q, elm);
      i := i + 1;
      assert data[..i + d] == data[..i - 1 + d] + [data[i - 1 + d]];
    }
    r := out[|data| - |divisor| + 1..];
    assert data[..|data|] == data;
    assert out[|data| - d..|data|] == r;
  }

  /** The inner loop: adds elm times the divisor below entry i. */
  method ClearEntry(out: array<Byte>, i: nat, divisor: seq<Byte>, elm: Byte)
    requires |divisor| > 0 && i + |divisor| <= out.Length
    modifies out
    ensures forall k :: 0 <= k < out.Length && !(i < k < i + |divisor|) ==> out[k] == old(out[k])
    ensures forall k :: 1 <= k < |divisor| ==> out[i + k] == Add(old(out[i + k]), Mul(divisor[k], elm))
  {
    hide Mul, Add;
    for j := 1 to |divisor|
      invariant forall k :: 0 <= k < out.Length && !(i < k < i + j) ==> out[k] == old(out[k])
      invariant forall k :: 1 <= k < j ==> out[i + k] == Add(old(out[i + k]), Mul(divisor[k], elm))
    {
      if divisor[j] != ZERO {
        out[i + j] := Add(out[i + j], Mul(divisor[j], elm));
      } else {
        AddOfZeroTerm(out[i + j], divisor[j], elm);
      }
    }
  }

  lemma AddZeroTerms(window: seq<Byte>, elm: Byte, divisor: seq<Byte>)
    requires elm == ZERO && |window| == |divisor|
    ensures forall k :: 0 <= k < |divisor| ==> window[k] == Add(window[k], Mul(divisor[k], elm))
  {}

  lemma AddOfZeroTerm(x: Byte, y: Byte, z: Byte)
    requires y == ZERO
    ensures x == Add(x, Mul(y, z))
  {}

  lemma DivisionStep(prefix: seq<Byte>, next: Byte, q: Poly, divisor: seq<Byte>,
                     window: seq<Byte>, rest: seq<Byte>, elm: Byte)
    requires |divisor| > 0 && divisor[0] == ONE
    requires |window| == |divisor| == |rest| + 1 && window[0] == elm && window[|rest|] == next
    requires Trim(prefix) == Plus(Times(q, Trim(divisor)), Trim(window[..|rest|]))
    requires forall k :: 1 <= k < |divisor| ==> rest[k - 1] == Add(window[k], Mul(divisor[k], elm))
    ensures Trim(prefix + [next]) == Plus(Times(Snoc(q, elm), Trim(divisor)), Trim(rest))
  {
    hide Mul, Add, Trim, Times, Plus, Scale, Snoc, ZeroBytes, RowScale, RowAdd;
    var (g, d) := (Trim(divisor), |rest|);
    var t := Times(q, g);
    TrimAppend(prefix, next);
    assert window == window[..d] + [next];
    TrimAppend(window[..d], next);
    PlusSnoc(t, ZERO, Trim(window[..d]), next);
    AddCommutes(ZERO, next);
    AddCancels(next, ZERO);
    TimesSnoc(q, elm, g);
    ClearedRow(divisor, window, rest, elm);
    PlusAssociates(Shift(t), Scale(elm, g), Trim(rest));
    PlusCommutes(Scale(elm, g), Trim(rest));
    PlusCancels(Trim(window), Scale(elm, g));
  }

  lemma ClearedRow(divisor: seq<Byte>, window: seq<Byte>, rest: seq<Byte>, elm: Byte)
    requires |divisor| > 0 && divisor[0] == ONE
    requires |window| == |divisor| == |rest| + 1 && window[0] == elm
    requires forall k :: 1 <= k < |divisor| ==> rest[k - 1] == Add(window[k], Mul(divisor[k], elm))
    ensures Trim(rest) == Plus(Trim(window), Scale(elm, Trim(divisor)))
  {
    hide Mul, Add, Trim, Times, Plus, Scale, Snoc, ZeroBytes, RowScale, RowAdd;
    var row := RowScale(elm, divisor);
    var sum := RowAdd(window, row);
    forall k | 0 <= k < |sum| ensures sum[k] == Add(window[k], Mul(divisor[k], elm)) {
      RowAddAt(window, row, k);
      MulCommutes(elm, divisor[k]);
    }
    MulOne(elm);
    AddCancels(elm, elm);
    assert sum[1..] == rest;
    TrimLeadingZero(sum);
    TrimRowAdd(window, row);
    TrimRowScale(elm, divisor);
  }
}
