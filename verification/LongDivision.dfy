/** Schoolbook division of digit arrays: the inner functions of `divide` and its two loops. */
module LongDivision {
  import opened Words

  // ---- multiplyInteger ----

  /** The part of x from i on has been multiplied by k; carry is what spills into word i - 1. */
  ghost predicate Multiplied(x0: seq<int>, x: seq<int>, k: int, i: nat, carry: int)
    requires |x0| == |x| && i <= |x|
  {
    carry * BasePow(|x| - i) + Val(x[i..]) == k * Val(x0[i..])
  }

  lemma MultiplyStep(x0: seq<int>, x: seq<int>, k: int, i: nat, carry: int, y: seq<int>, carry': int)
    requires |x0| == |x| == |y| && i < |x|
    requires Multiplied(x0, x, k, i + 1, carry)
    requires y[i + 1..] == x[i + 1..]
    requires x0[i] * k + carry == carry' * BASE + y[i]
    ensures Multiplied(x0, y, k, i, carry')
  {
    hide Val, BasePow;
    var p := BasePow(|x| - i - 1);
    ValCons(y[i..]);
    ValCons(x0[i..]);
    assert y[i..][1..] == y[i + 1..] && x0[i..][1..] == x0[i + 1..];
    BasePowSucc(|x| - i - 1);
    MultiplyArithmetic(p, x0[i], k, carry, carry', y[i], Val(x[i + 1..]), Val(x0[i + 1..]));
  }

  lemma BasePowSucc(n: nat)
    ensures BasePow(n + 1) == BASE * BasePow(n)
  {}

  lemma MultiplyArithmetic(p: int, w: int, k: int, carry: int, carry': int, v: int, t: int, t0: int)
    requires carry * p + t == k * t0
    requires w * k + carry == carry' * BASE + v
    ensures carry' * (BASE * p) + (v * p + t) == k * (w * p + t0)
  {}

  method MultiplyInteger(x: seq<int>, k: int) returns (r: seq<int>)
    requires AreWords(x) && |x| > 0 && x[0] > 0 && 0 < k < BASE
    ensures AreWords(r) && Val(r) == k * Val(x)
    ensures |x| <= |r| <= |x| + 1 && r[0] > 0
  {
    hide Val, BasePow, Multiplied;
    r := x;
    var carry := 0;
    var i := |x|;
    MultiplyNothing(x, k);
    while i > 0
      invariant 0 <= i <= |x| == |r| && AreWords(r) && r[..i] == x[..i]
      invariant 0 <= carry < k
      invariant Multiplied(x, r, k, i, carry)
      invariant i == 0 ==> r[0] > 0 || carry > 0
    {
      i := i - 1;
      var temp := Safe(WordTimes(r[i], k) + carry);
      MultiplyBounds(x[i], k, carry);
      ghost var before, c := r, carry;
      r := r[i := ToInt32(temp % BASE)];
      carry := ToInt32(temp / BASE);
      MultiplyStep(x, before, k, i, c, r, carry);
    }
    MultipliedAll(x, r, k, carry);
    if carry != 0 {
      r := [carry] + r;
    }
  }

  /** A product of two words. */
  function WordTimes(a: int, b: int): (r: int)
    requires 0 <= a < BASE && 0 <= b < BASE
    ensures 0 <= r <= 99_999_980_000_001 && r == a * b
  {
    WordTimesBound(a, b);
    a * b
  }

  lemma WordTimesBound(a: int, b: int)
    requires 0 <= a < BASE && 0 <= b < BASE
    ensures 0 <= a * b <= 99_999_980_000_001
  {
    ProductBound(a, b, BASE - 1, BASE - 1);
  }

  lemma ProductBound(a: int, b: int, m: int, n: int)
    requires 0 <= a <= m && 0 <= b <= n
    ensures 0 <= a * b <= m * n
  {}

  lemma MultiplyBounds(w: int, k: int, carry: int)
    requires 0 <= w < BASE && 0 <= carry < k < BASE
    ensures 0 <= (w * k + carry) / BASE < k
    ensures w > 0 ==> w * k + carry > 0
  {
    AtLeastTimes(w, BASE - 1, k);
    if w > 0 { AtLeastTimes(1, w, k); }
    WordQuotient(w * k + carry, k);
  }

  lemma WordQuotient(n: int, k: int)
    requires 0 <= n < BASE * k
    ensures 0 <= n / BASE < k
  {}

  lemma MultiplyNothing(x: seq<int>, k: int)
    ensures Multiplied(x, x, k, |x|, 0)
  {}

  lemma MultipliedAll(x: seq<int>, r: seq<int>, k: int, carry: int)
    requires |x| == |r| && Multiplied(x, r, k, 0, carry)
    ensures Val([carry] + r) == k * Val(x)
    ensures carry == 0 ==> Val(r) == k * Val(x)
  {
    hide Val, BasePow;
    assert x[0..] == x && r[0..] == r;
    ValConcat([carry], r);
    ValSingle(carry);
  }

  // ---- compare ----

  function Sign(n: int): int {
    if n > 0 then 1 else if n < 0 then -1 else 0
  }

  predicate NoLeadingZero(d: seq<int>) {
    |d| >= 1 && AreWords(d) && (|d| > 1 ==> d[0] > 0)
  }

  lemma LongerIsGreater(a: seq<int>, b: seq<int>)
    requires NoLeadingZero(a) && NoLeadingZero(b) && |a| > |b|
    ensures Val(a) > Val(b)
  {
    hide Val, BasePow;
    ValPositive(a);
    ValBounds(b);
    BasePowMonotone(|b|, |a| - 1);
  }

  lemma FirstDifference(a: seq<int>, b: seq<int>, i: nat)
    requires AreWords(a) && AreWords(b) && |a| == |b| && i < |a|
    requires a[..i] == b[..i] && a[i] > b[i]
    ensures Val(a) > Val(b)
  {
    hide Val, BasePow;
    ValSplit(a, i);
    ValSplit(b, i);
    LeadingWordDecides(a[i..], b[i..]);
  }

  lemma ValSplit(a: seq<int>, i: nat)
    requires i <= |a|
    ensures Val(a) == Val(a[..i]) * BasePow(|a| - i) + Val(a[i..])
  {
    hide Val, BasePow;
    assert a == a[..i] + a[i..];
    ValConcat(a[..i], a[i..]);
  }

  lemma ValUpdate(d: seq<int>, i: nat, v: int)
    requires i < |d|
    ensures Val(d[i := v]) == Val(d) + (v - d[i]) * BasePow(|d| - 1 - i)
  {
    hide Val, BasePow;
    var c := d[i := v];
    ValSplit(d, i);
    ValSplit(c, i);
    assert c[..i] == d[..i];
    ValCons(d[i..]);
    ValCons(c[i..]);
    assert c[i..][1..] == d[i..][1..];
    assert (v - d[i]) * BasePow(|d| - 1 - i) == v * BasePow(|d| - 1 - i) - d[i] * BasePow(|d| - 1 - i);
  }

  lemma LeadingWordDecides(a: seq<int>, b: seq<int>)
    requires AreWords(a) && AreWords(b) && |a| == |b| > 0 && a[0] > b[0]
    ensures Val(a) > Val(b)
  {}

  lemma AtLeastTimes(a: int, b: int, p: nat)
    requires a <= b
    ensures a * p <= b * p
  {}

  method Compare(a: seq<int>, b: seq<int>) returns (r: int)
    requires NoLeadingZero(a) && NoLeadingZero(b)
    ensures r == Sign(Val(a) - Val(b))
  {
    hide Val;
    if |a| != |b| {
      r := if |a| > |b| then 1 else -1;
      if |a| > |b| { LongerIsGreater(a, b); } else { LongerIsGreater(b, a); }
    } else {
      r := 0;
      var i := 0;
      while i < |a|
        invariant 0 <= i <= |a| && a[..i] == b[..i] && r == 0
      {
        if a[i] != b[i] {
          r := if a[i] > b[i] then 1 else -1;
          if a[i] > b[i] { FirstDifference(a, b, i); } else { FirstDifference(b, a, i); }
          break;
        }
        i := i + 1;
      }
      assert i == |a| ==> a[..i] == a && b[..i] == b;
    }
  }

  // ---- subtract ----

  ghost predicate Subtracted(a0: seq<int>, a: seq<int>, b: seq<int>, i: nat, borrow: int)
    requires |a0| == |a| == |b| && i <= |a|
  {
    Val(a[i..]) + Val(b[i..]) == Val(a0[i..]) + borrow * BasePow(|a| - i)
  }

  lemma SubtractStep(a0: seq<int>, a: seq<int>, b: seq<int>, i: nat, borrow: int, c: seq<int>, borrow': int)
    requires |a0| == |a| == |b| == |c| && i < |a|
    requires Subtracted(a0, a, b, i + 1, borrow)
    requires c[i + 1..] == a[i + 1..]
    requires c[i] == a0[i] - borrow + borrow' * BASE - b[i]
    ensures Subtracted(a0, c, b, i, borrow')
  {
    hide Val, BasePow;
    var p := BasePow(|a| - i - 1);
    ValCons(c[i..]);
    ValCons(a0[i..]);
    ValCons(b[i..]);
    assert c[i..][1..] == c[i + 1..] && a0[i..][1..] == a0[i + 1..] && b[i..][1..] == b[i + 1..];
    BasePowSucc(|a| - i - 1);
    SubtractArithmetic(p, a0[i], b[i], c[i], borrow, borrow');
  }

  lemma SubtractArithmetic(p: int, a: int, b: int, c: int, borrow: int, borrow': int)
    requires c == a - borrow + borrow' * BASE - b
    ensures c * p + b * p == a * p - borrow * p + borrow' * (BASE * p)
  {}

  lemma SubtractNothing(a: seq<int>, b: seq<int>)
    requires |a| == |b|
    ensures Subtracted(a, a, b, |a|, 0)
  {}

  lemma NoFinalBorrow(a0: seq<int>, a: seq<int>, b: seq<int>, borrow: int)
    requires |a0| == |a| == |b| && AreWords(a) && 0 <= borrow <= 1
    requires Subtracted(a0, a, b, 0, borrow) && Val(b) <= Val(a0)
    ensures Val(a) == Val(a0) - Val(b)
  {
    hide Val, BasePow;
    assert a[0..] == a && a0[0..] == a0 && b[0..] == b;
    ValBounds(a);
  }

  lemma DropZero(a: seq<int>)
    requires |a| > 0 && a[0] == 0
    ensures Val(a[1..]) == Val(a)
  {
    hide Val, BasePow;
    ValCons(a);
  }

  method Subtract(a0: seq<int>, b: seq<int>) returns (a: seq<int>)
    requires AreWords(a0) && AreWords(b) && |a0| == |b| >= 1 && Val(b) <= Val(a0)
    ensures NoLeadingZero(a) && Val(a) == Val(a0) - Val(b) && |a| <= |a0|
  {
    hide Val, BasePow, Subtracted;
    a := a0;
    var i := 0;
    var aL := |a|;
    SubtractNothing(a0, b);
    while aL > 0
      invariant 0 <= aL <= |a| == |a0| && 0 <= i <= 1
      invariant a[..aL] == a0[..aL]
      invariant forall m :: aL <= m < |a| ==> 0 <= a[m] < BASE
      invariant Subtracted(a0, a, b, aL, i)
    {
      aL := aL - 1;
      ghost var before, borrow := a, i;
      a := a[aL := a[aL] - i];
      i := if a[aL] < b[aL] then 1 else 0;
      a := a[aL := i * BASE + a[aL] - b[aL]];
      SubtractStep(a0, before, b, aL, borrow, a, i);
    }
    NoFinalBorrow(a0, a, b, i);
    while a[0] == 0 && |a| > 1
      invariant 1 <= |a| <= |a0| && AreWords(a) && Val(a) == Val(a0) - Val(b)
    {
      DropZero(a);
      a := a[1..];
    }
  }

  // ---- The trial digit ----

  const HALF: int := 5_000_000

  /** A divisor scaled until its leading word is at least half the base, and the word trial digits are made with. */
  predicate Normalised(yd: seq<int>, yd0: int) {
    && |yd| >= 2
    && AreWords(yd)
    && yd[0] >= HALF
    && yd0 == yd[0] + if yd[1] >= HALF then 1 else 0
  }

  /** The leading word, rounded down: the trial digit is never too small, and too large by one at most. */
  lemma TrialFromBelow(Y: int, P: int, y0: int, R: int, r0: int, k: int)
    requires P > 0 && HALF <= y0 && y0 * P <= Y && 2 * Y < (2 * y0 + 1) * P
    requires r0 * P <= R < (r0 + 1) * P && R < Y * BASE
    requires r0 >= 0 && k == if r0 / y0 >= BASE then BASE - 1 else r0 / y0
    ensures (k - 1) * Y < R < (k + 1) * Y
  {
    BelowUpper(Y, P, y0, R, r0, k);
    BelowLower(Y, P, y0, R, r0, k);
  }

  lemma BelowUpper(Y: int, P: int, y0: int, R: int, r0: int, k: int)
    requires P > 0 && HALF <= y0 && y0 * P <= Y
    requires R < (r0 + 1) * P && R < Y * BASE
    requires r0 >= 0 && k == if r0 / y0 >= BASE then BASE - 1 else r0 / y0
    ensures R < (k + 1) * Y
  {
    if r0 / y0 < BASE {
      assert r0 + 1 <= (k + 1) * y0;
      AtLeastTimes(r0 + 1, (k + 1) * y0, P);
      Associate(k + 1, y0, P);
      TimesAtLeast(k + 1, y0 * P, Y);
    }
  }

  lemma Associate(a: int, b: int, c: int)
    ensures (a * b) * c == a * (b * c)
  {}

  lemma TimesAtLeast(a: nat, b: int, c: int)
    requires b <= c
    ensures a * b <= a * c
  {}

  lemma BelowLower(Y: int, P: int, y0: int, R: int, r0: int, k: int)
    requires P > 0 && HALF <= y0 && y0 * P <= Y && 2 * Y < (2 * y0 + 1) * P
    requires r0 * P <= R
    requires r0 >= 0 && k == if r0 / y0 >= BASE then BASE - 1 else r0 / y0
    ensures (k - 1) * Y < R
  {
    assert 0 <= k * y0 <= r0;
    AtLeastTimes(k * y0, r0, P);
    Associate(k, y0, P);
    TimesAtLeast(k, 2 * Y, (2 * y0 + 1) * P);
    BelowExpand(k, Y, y0, P);
    AtLeastTimes(k + 1, 2 * y0, P);
    Associate(2, y0, P);
    BelowFinish(k, Y);
  }

  lemma BelowExpand(k: int, Y: int, y0: int, P: int)
    ensures k * (2 * Y) == 2 * (k * Y)
    ensures k * ((2 * y0 + 1) * P) == 2 * (k * (y0 * P)) + k * P
    ensures (k + 1) * P == k * P + P
  {}

  lemma BelowFinish(k: int, Y: int)
    ensures (k - 1) * Y == k * Y - Y
  {}

  /** The leading word, rounded up: the trial digit is never too large, and too small by one at most. */
  lemma TrialFromAbove(Y: int, P: int, y0: int, R: int, r0: int, k: int)
    requires P > 0 && HALF <= y0 && Y < (y0 + 1) * P && (2 * y0 + 1) * P <= 2 * Y
    requires r0 * P <= R < (r0 + 1) * P && R < Y * BASE
    requires r0 >= 0 && k == r0 / (y0 + 1)
    ensures 0 <= k < BASE && k * Y <= R < (k + 2) * Y
  {
    AboveLower(Y, P, y0, R, r0, k);
    QuotientFits(k, Y, R);
    AboveUpper(Y, P, y0, R, r0, k);
  }

  lemma QuotientFits(k: int, Y: int, R: int)
    requires 0 <= k && Y > 0 && k * Y <= R < Y * BASE
    ensures k < BASE
  {}

  lemma AboveLower(Y: int, P: int, y0: int, R: int, r0: int, k: int)
    requires P > 0 && HALF <= y0 && Y < (y0 + 1) * P && (2 * y0 + 1) * P <= 2 * Y
    requires r0 * P <= R
    requires r0 >= 0 && k == r0 / (y0 + 1)
    ensures 0 <= k && k * Y <= R && Y > 0
  {}

  lemma AboveUpper(Y: int, P: int, y0: int, R: int, r0: int, k: int)
    requires P > 0 && HALF <= y0 && (2 * y0 + 1) * P <= 2 * Y
    requires R < (r0 + 1) * P
    requires r0 >= 0 && k == r0 / (y0 + 1) && 0 <= k < BASE
    ensures R < (k + 2) * Y
  {
    assert r0 + 1 <= k * (y0 + 1) + y0 + 1;
    AtLeastTimes(r0 + 1, (k + 1) * (y0 + 1), P);
    TimesAtLeast(k + 2, (2 * y0 + 1) * P, 2 * Y);
    Associate(k + 2, 2 * y0 + 1, P);
    AboveCoefficients(k, y0);
    AtLeastTimes(2 * ((k + 1) * (y0 + 1)), (k + 2) * (2 * y0 + 1), P);
    AboveFinish(k, Y, y0, P);
  }

  lemma AboveCoefficients(k: int, y0: int)
    requires k <= 2 * y0
    ensures 2 * ((k + 1) * (y0 + 1)) <= (k + 2) * (2 * y0 + 1)
  {}

  lemma AboveFinish(k: int, Y: int, y0: int, P: int)
    ensures (k + 2) * (2 * Y) == 2 * ((k + 2) * Y)
    ensures (2 * ((k + 1) * (y0 + 1))) * P == 2 * (((k + 1) * (y0 + 1)) * P)
  {}

  // ---- One pass of the division loop ----

  /** What the leading words of rem are worth: its whole part above the divisor's lower words. */
  function Leading(rem: seq<int>, yL: nat): int
    requires yL >= 2 && yL <= |rem| <= yL + 1
  {
    if |rem| == yL then rem[0] else rem[0] * BASE + rem[1]
  }

  lemma LeadingIs(rem: seq<int>, yL: nat)
    requires yL >= 2 && yL <= |rem| <= yL + 1 && AreWords(rem)
    ensures Leading(rem, yL) * BasePow(yL - 1) <= Val(rem) < (Leading(rem, yL) + 1) * BasePow(yL - 1)
    ensures 0 <= Leading(rem, yL) < BASE * BASE
  {
    hide Val, BasePow;
    if |rem| == yL {
      ValLead(rem);
    } else {
      ValSplit(rem, 2);
      ValBounds(rem[2..]);
      assert rem[..2] == [rem[0]] + [rem[1]];
      ValSnoc([rem[0]], rem[1]);
      ValSingle(rem[0]);
    }
  }

  lemma DivisorIs(yd: seq<int>, yd0: int)
    requires Normalised(yd, yd0)
    ensures var P, Y := BasePow(|yd| - 1), Val(yd);
      && P > 0 && yd[0] * P <= Y < (yd[0] + 1) * P
      && (yd[1] < HALF ==> 2 * Y < (2 * yd[0] + 1) * P)
      && (yd[1] >= HALF ==> (2 * yd[0] + 1) * P <= 2 * Y)
  {
    hide Val, BasePow;
    ValLead(yd);
    ValCons(yd);
    ValLead(yd[1..]);
    BasePowSucc(|yd| - 2);
    HalfWord(yd[0], yd[1], BasePow(|yd| - 2), Val(yd[1..]));
  }

  lemma HalfWord(y0: int, y1: int, Q: int, t: int)
    requires Q > 0 && y1 * Q <= t < (y1 + 1) * Q
    ensures y1 < HALF ==> 2 * (y0 * (BASE * Q) + t) < (2 * y0 + 1) * (BASE * Q)
    ensures y1 >= HALF ==> (2 * y0 + 1) * (BASE * Q) <= 2 * (y0 * (BASE * Q) + t)
  {
    assert (2 * y0 + 1) * (BASE * Q) == 2 * (y0 * (BASE * Q)) + BASE * Q;
    if y1 < HALF { AtLeastTimes(y1 + 1, HALF, Q); } else { AtLeastTimes(HALF, y1, Q); }
  }

  /** The trial digit, before it is capped, and how far it can be from the true one. */
  predicate TrialIsClose(Y: int, R: int, k: int) {
    && 0 <= k < BASE
    && ((k * Y <= R < (k + 2) * Y) || (k >= 1 && (k - 1) * Y < R < (k + 1) * Y))
  }

  lemma Trial(yd: seq<int>, yd0: int, rem: seq<int>, k: int)
    requires Normalised(yd, yd0) && NoLeadingZero(rem) && |yd| <= |rem| <= |yd| + 1
    requires Val(yd) < Val(rem) < Val(yd) * BASE
    requires k == Leading(rem, |yd|) / yd0
    ensures 0 <= k <= 20_000_000
    ensures TrialIsClose(Val(yd), Val(rem), if k >= BASE then BASE - 1 else k)
    ensures k == 0 ==> Val(rem) < 2 * Val(yd)
  {
    hide Val, BasePow, Leading;
    LeadingIs(rem, |yd|);
    DivisorIs(yd, yd0);
    var P, Y, R, r0 := BasePow(|yd| - 1), Val(yd), Val(rem), Leading(rem, |yd|);
    TrialBound(r0, yd0);
    if yd[1] < HALF {
      var c := if k >= BASE then BASE - 1 else k;
      TrialFromBelow(Y, P, yd[0], R, r0, c);
    } else {
      TrialFromAbove(Y, P, yd[0], R, r0, k);
    }
  }

  lemma TrialBound(r0: int, y: int)
    requires 0 <= r0 < BASE * BASE && y >= HALF
    ensures 0 <= r0 / y <= 20_000_000
  {}

  lemma ProductAtLeast(a: nat, b: nat, c: nat, d: nat)
    requires a <= b && c <= d
    ensures a * c <= b * d
  {}

  lemma RemainderLength(yd: seq<int>, rem: seq<int>)
    requires |yd| >= 2 && NoLeadingZero(yd) && NoLeadingZero(rem)
    requires Val(yd) <= Val(rem) < Val(yd) * BASE
    ensures |yd| <= |rem| <= |yd| + 1
  {
    hide Val, BasePow;
    if |rem| < |yd| {
      LongerIsGreater(yd, rem);
    } else if |rem| > |yd| + 1 {
      ValPositive(rem);
      ValBounds(yd);
      BasePowMonotone(|yd| + 1, |rem| - 1);
      BasePowSucc(|yd|);
    }
  }

  lemma NotLonger(a: seq<int>, b: seq<int>)
    requires NoLeadingZero(a) && NoLeadingZero(b) && Val(a) <= Val(b)
    ensures |a| <= |b|
  {}

  lemma LeadZero(d: seq<int>)
    ensures Val([0] + d) == Val(d)
  {
    hide Val, BasePow;
    ValConcat([0], d);
    ValSingle(0);
  }

  /** The product of the divisor and a digit that is right, or too small by one, which cmp tells apart. */
  predicate Takes(Y: int, R: int, k: int, prod: int, cmp: int) {
    && 1 <= k < BASE && -1 <= cmp <= 1 && prod == k * Y && prod <= R
    && R < prod + (if cmp == -1 then 2 * Y else Y)
    && (cmp == 0 ==> prod == R)
  }

  method TrialProduct(yd: seq<int>, yz: seq<int>, yd0: int, rem: seq<int>) returns (k: int, prod: seq<int>, cmp: int)
    requires Normalised(yd, yd0) && yz == [0] + yd && NoLeadingZero(rem) && |yd| <= |rem| <= |yd| + 1
    requires Val(yd) < Val(rem) < Val(yd) * BASE
    ensures NoLeadingZero(prod) && Takes(Val(yd), Val(rem), k, Val(prod), cmp)
    ensures |yd| <= |prod|
  {
    hide Val, BasePow;
    cmp := -1;
    var rem0 := rem[0];
    if |yd| != |rem| {
      rem0 := Safe(rem0 * BASE + rem[1]);
    }
    assert rem0 == Leading(rem, |yd|);
    Trial(yd, yd0, rem, rem0 / yd0);
    k := ToInt32(rem0 / yd0);
    if k > 1 {
      if k >= BASE {
        k := BASE - 1;
      }
      prod := MultiplyInteger(yd, k);
      cmp := Compare(prod, rem);
      TrialCases(Val(yd), Val(rem), k, cmp);
      if cmp == 1 {
        k := k - 1;
        LeadZero(yd);
        prod := Subtract(prod, if |yd| < |prod| then yz else yd);
        NotLonger(yd, prod);
      }
    } else {
      if k == 0 {
        cmp, k := 1, 1;
      }
      prod := yd;
    }
  }

  lemma TrialCases(Y: int, R: int, k: int, cmp: int)
    requires 0 < Y < R && TrialIsClose(Y, R, k) && k > 1 && cmp == Sign(k * Y - R)
    ensures cmp == 1 ==> Takes(Y, R, k - 1, k * Y - Y, cmp) && Y <= k * Y - Y
    ensures cmp != 1 ==> Takes(Y, R, k, k * Y, cmp)
  {
    TrialProducts(Y, k);
    AtLeastTimes(2, k, Y);
  }

  lemma TrialProducts(Y: int, k: int)
    ensures (k - 1) * Y == k * Y - Y && (k + 1) * Y == k * Y + Y && (k + 2) * Y == k * Y + 2 * Y
  {}

  /** The pass of the loop that finds one quotient word: the trial digit, and at most one correction. */
  method DivideStep(yd: seq<int>, yz: seq<int>, yd0: int, rem0: seq<int>) returns (k: int, rem: seq<int>, cmp: int)
    requires Normalised(yd, yd0) && yz == [0] + yd && NoLeadingZero(rem0)
    requires Val(rem0) < Val(yd) * BASE
    ensures NoLeadingZero(rem) && 0 <= k < BASE
    ensures Val(rem0) == k * Val(yd) + Val(rem) && 0 <= Val(rem) < Val(yd)
    ensures cmp != 0 && rem[0] != 0 <==> Val(rem) != 0
  {
    hide Val, BasePow;
    rem := rem0;
    k := 0;
    ValBounds(rem0);
    cmp := Compare(yd, rem);
    if cmp < 0 {
      RemainderLength(yd, rem);
      var prod;
      k, prod, cmp := TrialProduct(yd, yz, yd0, rem);
      NotLonger(prod, rem);
      if |prod| < |rem| {
        LeadZero(prod);
        prod := [0] + prod;
      }
      rem := Subtract(rem, prod);
      if cmp == -1 {
        cmp := Compare(yd, rem);
        if cmp < 1 {
          NotLonger(yd, rem);
          LeadZero(yd);
          TrialProducts(Val(yd), k);
          k := k + 1;
          rem := Subtract(rem, if |yd| < |rem| then yz else yd);
        }
      }
      ValBounds(rem);
      QuotientFits(k, Val(yd), Val(rem0));
    } else if cmp == 0 {
      k := k + 1;
      ValSingle(0);
      rem := [0];
    }
    LeadDecidesZero(rem);
  }

  lemma LeadDecidesZero(d: seq<int>)
    requires NoLeadingZero(d)
    ensures d[0] == 0 <==> Val(d) == 0
  {}
}
