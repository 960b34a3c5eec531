/** `times`: schoolbook multiplication of two Decimals. */
module Multiplication {
  import opened Words
  import opened LongDivision
  import opened Amounts
  import opened Finalise
  import opened Decimals
  import opened Exact

  // ---- One word of the multiplier ----

  /** Word y of weight B^q has been multiplied with the words of xd from m on; carry is due at word k. */
  ghost predicate PartialRow(r: seq<int>, V0: int, xd: seq<int>, y: int, q: nat, m: nat, k: int, carry: int) {
    && m <= |xd| && k == |r| - 1 - q - |xd| + m && k >= 0
    && Val(r) + carry * BasePow(|r| - 1 - k) == V0 + y * (Val(xd[m..]) * BasePow(q))
  }

  lemma RowStep(r: seq<int>, V0: int, xd: seq<int>, y: int, q: nat, m: nat, k: int, carry: int, w: int, carry': int)
    requires PartialRow(r, V0, xd, y, q, m, k, carry) && m > 0 && k > 0
    requires r[k] + y * xd[m - 1] + carry == carry' * BASE + w
    ensures PartialRow(r[k := w], V0, xd, y, q, m - 1, k - 1, carry')
  {
    hide Val, BasePow;
    var p := BasePow(|r| - 1 - k);
    ValUpdate(r, k, w);
    ValCons(xd[m - 1..]);
    assert xd[m - 1..][1..] == xd[m..];
    BasePowSucc(|r| - 1 - k);
    BasePowAdd(|xd| - m, q);
    RowArithmetic(p, BasePow(|xd| - m), BasePow(q), y, xd[m - 1], Val(xd[m..]), carry, carry', r[k], w);
  }

  lemma RowArithmetic(p: int, h: int, q: int, y: int, x: int, t: int, carry: int, carry': int, was: int, w: int)
    requires p == h * q && was + y * x + carry == carry' * BASE + w
    ensures (w - was) * p + carry' * (BASE * p) == carry * p + (y * ((x * h + t) * q) - y * (t * q))
  {}

  lemma RowStarts(r: seq<int>, xd: seq<int>, y: int, q: nat)
    requires |r| > q
    ensures PartialRow(r, Val(r), xd, y, q, |xd|, |r| - 1 - q, 0)
  {}

  lemma RowEnds(r: seq<int>, V0: int, xd: seq<int>, y: int, q: nat, k: nat, carry: int)
    requires PartialRow(r, V0, xd, y, q, 0, k, carry) && k < |r| && r[k] == 0
    ensures Val(r[k := carry]) == V0 + y * (Val(xd) * BasePow(q))
  {
    hide Val, BasePow;
    ValUpdate(r, k, carry);
    assert xd[0..] == xd;
  }

  lemma TermBounds(was: int, y: int, x: int, carry: int)
    requires 0 <= was < BASE && 0 <= y < BASE && 0 <= x < BASE && 0 <= carry < BASE
    ensures 0 <= was + y * x + carry < BASE * BASE
    ensures 0 <= (was + y * x + carry) / BASE < BASE && 0 <= (was + y * x + carry) % BASE < BASE
  {
    WordTimesBound(y, x);
    WordQuotient(was + y * x + carry, BASE);
  }

  /** Adds y * xd, shifted to word i, into r, whose words up to i are still zero. */
  method AddRow(r0: seq<int>, xd: seq<int>, y: int, i: nat, ghost q: nat) returns (r: seq<int>, carry: int)
    requires AreWords(r0) && AreWords(xd) && 0 <= y < BASE && |r0| == |xd| + i + 1 + q
    requires forall j :: 0 <= j <= i ==> r0[j] == 0
    ensures AreWords(r) && |r| == |r0| && r[i] == carry && 0 <= carry < BASE
    ensures Val(r) == Val(r0) + y * (Val(xd) * BasePow(q))
    ensures r[..i] == r0[..i]
  {
    hide Val, BasePow, PartialRow;
    r, carry := r0, 0;
    var k := |xd| + i;
    RowStarts(r0, xd, y, q);
    while k > i
      invariant i <= k <= |xd| + i && |r| == |r0| && AreWords(r) && 0 <= carry < BASE
      invariant r[..i + 1] == r0[..i + 1]
      invariant PartialRow(r, Val(r0), xd, y, q, k - i, k, carry)
    {
      ghost var before, c := r, carry;
      TermBounds(r[k], y, xd[k - i - 1], carry);
      var t := Safe(r[k] + WordTimes(y, xd[k - i - 1]) + carry);
      r := r[k := ToInt32(t % BASE)];
      carry := ToInt32(t / BASE);
      RowStep(before, Val(r0), xd, y, q, k - i, k, c, r[k], carry);
      k := k - 1;
    }
    assert r[k] == r[..i + 1][i] == 0;
    RowEnds(r, Val(r0), xd, y, q, k, carry);
    assert r[..i + 1][..i] == r[..i] && r0[..i + 1][..i] == r0[..i];
    r := r[k := ToInt32((r[k] + carry) % BASE)];
  }

  // ---- All words of the multiplier ----

  lemma RowsStep(X: int, V: int, V': int, yd: seq<int>, i: nat)
    requires i < |yd| && V == X * Val(yd[i + 1..]) && V' == V + yd[i] * (X * BasePow(|yd| - 1 - i))
    ensures V' == X * Val(yd[i..])
  {
    hide Val, BasePow;
    ValCons(yd[i..]);
    assert yd[i..][1..] == yd[i + 1..];
    Distribute(X, yd[i], BasePow(|yd| - 1 - i), Val(yd[i + 1..]));
  }

  lemma Distribute(X: int, y: int, p: int, t: int)
    ensures X * (y * p + t) == y * (X * p) + X * t
  {}

  /** The words of the product, one word longer than may be needed; carry is the first of them. */
  method Multiply(xd: seq<int>, yd: seq<int>) returns (r: seq<int>, carry: int)
    requires AreWords(xd) && AreWords(yd) && |xd| > 0 && |yd| > 0
    ensures AreWords(r) && |r| == |xd| + |yd| && r[0] == carry && Val(r) == Val(xd) * Val(yd)
  {
    hide Val, BasePow;
    r := Zeros(|xd| + |yd|);
    carry := 0;
    NoRows(xd, yd, r);
    var i := |yd|;
    while i > 0
      invariant 0 <= i <= |yd| && |r| == |xd| + |yd| && AreWords(r)
      invariant forall j :: 0 <= j < i ==> r[j] == 0
      invariant i < |yd| ==> r[i] == carry
      invariant Val(r) == Val(xd) * Val(yd[i..])
    {
      i := i - 1;
      ghost var before := r;
      r, carry := AddRow(r, xd, yd[i], i, |yd| - 1 - i);
      RowsStep(Val(xd), Val(before), Val(r), yd, i);
      assert forall j :: 0 <= j < i ==> r[j] == r[..i][j] == before[..i][j];
    }
    assert yd[0..] == yd;
  }

  lemma NoRows(xd: seq<int>, yd: seq<int>, r: seq<int>)
    requires r == Zeros(|xd| + |yd|)
    ensures Val(r) == Val(xd) * Val(yd[|yd|..])
  {
    hide BasePow;
    ValZeros(r);
    assert yd[|yd|..] == [];
    NothingTimes(Val(xd));
  }

  lemma NothingTimes(a: int)
    ensures a * 0 == 0
  {}

  // ---- times ----

  method DropTrailingZeros(r0: seq<int>) returns (r: seq<int>)
    requires AreWords(r0) && Val(r0) > 0
    ensures AreWords(r) && 0 < |r| <= |r0| && r[|r| - 1] > 0 && r0 == r + Zeros(|r0| - |r|)
  {
    hide Val;
    r := r0;
    NotEmpty(r0, r0);
    while r[|r| - 1] == 0
      invariant 0 < |r| <= |r0| && AreWords(r) && r0 == r + Zeros(|r0| - |r|)
      decreases |r|
    {
      r := r[..|r| - 1];
      assert r0 == r + Zeros(|r0| - |r|);
      NotEmpty(r0, r);
    }
  }

  lemma NotEmpty(r0: seq<int>, r: seq<int>)
    requires Val(r0) > 0 && |r| <= |r0| && r0 == r + Zeros(|r0| - |r|)
    ensures |r| > 0
  {}

  lemma ProductLeads(xd: seq<int>, yd: seq<int>, r: seq<int>)
    requires AreWords(xd) && AreWords(yd) && |xd| > 0 && |yd| > 0 && xd[0] > 0 && yd[0] > 0
    requires AreWords(r) && |r| == |xd| + |yd| && Val(r) == Val(xd) * Val(yd)
    ensures Val(r) > 0 && (r[0] == 0 ==> r[1] > 0)
  {
    hide Val, BasePow;
    ValPositive(xd);
    ValPositive(yd);
    ProductAtLeast(BasePow(|xd| - 1), Val(xd), BasePow(|yd| - 1), Val(yd));
    BasePowAdd(|xd| - 1, |yd| - 1);
    if r[0] == 0 && r[1] == 0 {
      DropZero(r);
      DropZero(r[1..]);
      ValBounds(r[1..][1..]);
    }
  }

  /** The words of the product, without the zeros at either end, and their exponent. */
  method ProductDigits(xd: seq<int>, xe: int, yd: seq<int>, ye: int) returns (d: seq<int>, e: int)
    requires Canonical(xd, xe) && Canonical(yd, ye)
    ensures Canonical(d, e) && Denotes(d, e, Val(xd) * Val(yd), Low(xd, xe) + Low(yd, ye))
  {
    hide Val, Digits, SameAmount;
    var words := xe / LOG_BASE + ye / LOG_BASE;
    var longer, shorter := xd, yd;
    if |xd| < |yd| {
      longer, shorter := yd, xd;
    }
    var r0, carry := Multiply(longer, shorter);
    Commutes(xd, yd);
    ProductLeads(xd, yd, r0);
    d := DropTrailingZeros(r0);
    LeadOf(r0, d);
    if carry != 0 {
      words := words + 1;
      TrimmedDenotes(r0, d, words);
    } else {
      DropZero(r0);
      d := d[1..];
      TrimmedDenotes(r0[1..], d, words);
    }
    e := BaseTenExponent(d, words);
  }

  lemma LeadOf(r0: seq<int>, r: seq<int>)
    requires 0 < |r| <= |r0| && r0 == r + Zeros(|r0| - |r|) && |r0| >= 2 && (r0[0] == 0 ==> r0[1] > 0)
    ensures r0[0] == r[0]
    ensures r[0] == 0 ==> |r| > 1 && r[1] == r0[1] && r0[1..] == r[1..] + Zeros(|r0| - |r|)
  {}

  method Times(x: Decimal, y0: Decimal) returns (p: Decimal)
    requires x.Valid() && y0.Valid() && x.ctor == y0.ctor
    ensures fresh(p) && p.Valid() && p.ctor == x.ctor
    ensures var (yd, ye) := Copied(x.ctor, true, y0.d, y0.e);
      && (p.s == 0 <==> x.s == 0 || y0.s == 0 || (x.d == [0] && yd == []) || (x.d == [] && yd == [0]))
      && (p.s != 0 ==> p.s == x.s * y0.s)
      && (p.s != 0 && (x.d == [] || yd == []) ==> p.d == [])
      && (p.s != 0 && (x.d == [0] || yd == [0]) ==> p.d == [0])
      && (x.NonZero() && yd != [] && yd != [0] ==>
            RoundedAmount(x.ctor, p.s, x.ctor.precision, x.ctor.rounding, Val(x.d) * Val(yd),
                          Low(x.d, x.e) + Low(yd, ye), p.d, p.e))
  {
    hide Val, Digits, Target, Settles, RoundedAmount, SameAmount, Copied;
    var y := new Decimal.Copy(y0, true);
    var xd, yd := x.d, y.d;
    SignProduct(x.s, y.s);
    var s := x.s * y.s;
    if xd == [] || xd[0] == 0 || yd == [] || yd[0] == 0 {
      var isNaN := s == 0 || (xd != [] && xd[0] == 0 && yd == []) || (yd != [] && yd[0] == 0 && xd == []);
      p := new Decimal(x.ctor, if isNaN then 0 else s);
      if !isNaN && xd != [] && yd != [] {
        p.d := [0];
      }
      return;
    }
    p := new Decimal(x.ctor, s);
    p.d, p.e := ProductDigits(xd, x.e, yd, y.e);
    ghost var d0, e0 := p.d, p.e;
    p.Finalise(x.ctor.precision, x.ctor.rounding, false, true);
    SettlesIn(p.ctor, p.s, p.ctor.precision, p.ctor.rounding, d0, e0, Val(xd) * Val(yd), Low(xd, x.e) + Low(yd, y.e),
              p.d, p.e);
  }

  lemma SignProduct(a: int, b: int)
    requires -1 <= a <= 1 && -1 <= b <= 1
    ensures -1 <= a * b <= 1 && (a * b == 0 <==> a == 0 || b == 0)
  {}

  lemma Commutes(xd: seq<int>, yd: seq<int>)
    ensures Val(xd) * Val(yd) == Val(yd) * Val(xd)
  {}
}
