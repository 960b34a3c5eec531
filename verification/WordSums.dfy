/** Adding and subtracting digit arrays whose first words have the same weight. */
module WordSums {
  import opened Words
  import opened LongDivision
  import opened Quotient

  // ---- Adding ----

  /** Words i.. of b have been added into a, of which x is what is left to complete; carry is due at word i - 1. */
  ghost predicate Added(a: seq<int>, b: seq<int>, x: seq<int>, i: nat, carry: int) {
    && |x| == |a| >= |b| >= i
    && Val(x) + carry * BasePow(|a| - i) == Val(a) + Val(b[i..]) * BasePow(|a| - |b|)
  }

  lemma AddStep(a: seq<int>, b: seq<int>, x: seq<int>, i: nat, carry: int, w: int, carry': int)
    requires Added(a, b, x, i + 1, carry) && x[i] + b[i] + carry == carry' * BASE + w
    ensures Added(a, b, x[i := w], i, carry')
  {
    hide Val, BasePow;
    var p := BasePow(|a| - 1 - i);
    ValUpdate(x, i, w);
    ValCons(b[i..]);
    assert b[i..][1..] == b[i + 1..];
    BasePowSucc(|a| - 1 - i);
    BasePowAdd(|b| - 1 - i, |a| - |b|);
    AddArithmetic(p, BasePow(|b| - 1 - i), BasePow(|a| - |b|), x[i], b[i], carry, carry', w, Val(b[i + 1..]));
  }

  lemma AddArithmetic(p: int, h: int, q: int, x: int, y: int, carry: int, carry': int, w: int, t: int)
    requires p == h * q && x + y + carry == carry' * BASE + w
    ensures (w - x) * p + carry' * (BASE * p) == carry * p + ((y * h + t) * q - t * q)
  {}

  lemma AddNothing(a: seq<int>, b: seq<int>)
    requires |a| >= |b|
    ensures Added(a, b, a, |b|, 0)
  {}

  lemma NothingOf(p: int)
    ensures 0 * p == 0
  {}

  lemma AddedAll(a: seq<int>, b: seq<int>, x: seq<int>, carry: int)
    requires Added(a, b, x, 0, carry)
    ensures Val(if carry != 0 then [carry] + x else x) == Val(a) + Val(b) * BasePow(|a| - |b|)
  {
    hide Val, BasePow;
    assert b[0..] == b;
    ValConcat([carry], x);
    ValSingle(carry);
  }

  /** The sum, with one more word in front when there is a carry. */
  method AddWords(a: seq<int>, b: seq<int>) returns (x: seq<int>, carry: int)
    requires AreWords(a) && AreWords(b) && |a| >= |b|
    ensures AreWords(x) && 0 <= carry <= 1 && |x| == |a| + carry && (carry != 0 ==> x[0] == carry)
    ensures Val(x) == Val(a) + Val(b) * BasePow(|a| - |b|)
    ensures carry == 0 && |a| > 0 ==> x[0] >= a[0]
  {
    hide Val, BasePow, Added;
    x, carry := a, 0;
    var i := |b|;
    AddNothing(a, b);
    while i > 0
      invariant 0 <= i <= |b| && |x| == |a| && AreWords(x) && 0 <= carry <= 1
      invariant forall j :: 0 <= j < i ==> x[j] == a[j]
      invariant Added(a, b, x, i, carry)
      invariant i == 0 && carry == 0 && |a| > 0 ==> x[0] >= a[0]
    {
      i := i - 1;
      var t := Safe(x[i] + b[i] + carry);
      AddStep(a, b, x, i, carry, t % BASE, ToInt32(t / BASE));
      x := x[i := t % BASE];
      carry := ToInt32(t / BASE);
    }
    AddedAll(a, b, x, carry);
    if carry != 0 {
      x := [carry] + x;
    }
  }

  // ---- Subtracting ----

  lemma PrefixPositive(x: seq<int>, i: nat, j: nat)
    requires AreWords(x) && j <= i <= |x| && Val(x[..i]) > 0 && forall m :: j <= m < i ==> x[m] == 0
    ensures j > 0
  {
    hide Val;
    if j == 0 { ValZeros(x[..i]); }
  }

  /** One unit of word i - 1 is taken from the words before i, rippling through zeros. */
  method Borrow(x: seq<int>, i: nat) returns (r: seq<int>)
    requires AreWords(x) && i <= |x| && Val(x[..i]) > 0
    ensures AreWords(r) && |r| == |x| && r[i..] == x[i..]
    ensures Val(r) == Val(x) - BasePow(|x| - i)
  {
    hide Val, BasePow;
    r := x;
    PrefixPositive(x, i, i);
    var j := i - 1;
    while j > 0 && r[j] == 0
      invariant 0 <= j < i && |r| == |x| && AreWords(r)
      invariant forall m :: 0 <= m <= j ==> r[m] == x[m]
      invariant forall m :: i <= m < |x| ==> r[m] == x[m]
      invariant forall m :: j < m < i ==> x[m] == 0
      invariant Val(r) + BasePow(|x| - i) == Val(x) + BasePow(|x| - 1 - j)
    {
      ValUpdate(r, j, BASE - 1);
      BasePowSucc(|x| - 1 - j);
      LessOne(BasePow(|x| - 1 - j));
      r := r[j := BASE - 1];
      j := j - 1;
    }
    if r[j] == 0 { PrefixPositive(x, i, 0); }
    ValUpdate(r, j, r[j] - 1);
    r := r[j := r[j] - 1];
  }

  lemma LessOne(p: int)
    ensures (BASE - 1 - 0) * p == BASE * p - p
  {}

  /** Words i.. of b have been taken from a, leaving x. */
  ghost predicate Taken(a: seq<int>, b: seq<int>, x: seq<int>, i: nat) {
    && |x| == |a| >= |b| >= i
    && Val(x) == Val(a) - Val(b[i..]) * BasePow(|a| - |b|)
  }

  lemma TakeStep(a: seq<int>, b: seq<int>, x: seq<int>, i: nat, y: seq<int>)
    requires Taken(a, b, x, i + 1) && |y| == |x| && Val(y) == Val(x) - b[i] * BasePow(|a| - 1 - i)
    ensures Taken(a, b, y, i)
  {
    hide Val, BasePow;
    ValCons(b[i..]);
    assert b[i..][1..] == b[i + 1..];
    BasePowAdd(|b| - 1 - i, |a| - |b|);
    TakeArithmetic(BasePow(|b| - 1 - i), BasePow(|a| - |b|), b[i], Val(b[i + 1..]));
  }

  lemma TakeArithmetic(h: int, q: int, y: int, t: int)
    ensures (y * h + t) * q == y * (h * q) + t * q
  {}

  /** What is still to be taken fits the words in front. */
  lemma PrefixSuffices(a: seq<int>, b: seq<int>, x: seq<int>, i: nat)
    requires AreWords(x) && AreWords(b) && Taken(a, b, x, i) && Val(a) >= Val(b) * BasePow(|a| - |b|)
    ensures Val(x[..i]) >= Val(b[..i])
  {
    hide *;
    TakenIs(a, b, x, i);
    var h, q := BasePow(|b| - i), BasePow(|a| - |b|);
    assert Val(b) == Val(b[..i]) * h + Val(b[i..]) by { ValSplit(b, i); }
    TailBounds(x, i);
    BasePowAdd(|b| - i, |a| - |b|);
    PrefixArithmetic(Val(a), Val(b), Val(x), Val(b[..i]), Val(b[i..]), Val(x[..i]), Val(x[i..]), h, q,
                     BasePow(|a| - i));
  }

  lemma TakenIs(a: seq<int>, b: seq<int>, x: seq<int>, i: nat)
    requires Taken(a, b, x, i)
    ensures i <= |b| <= |a| == |x| && Val(x) == Val(a) - Val(b[i..]) * BasePow(|a| - |b|)
  {}

  lemma TailBounds(x: seq<int>, i: nat)
    requires AreWords(x) && i <= |x|
    ensures 0 <= Val(x[i..]) < BasePow(|x| - i) && BasePow(|x| - i) > 0
    ensures Val(x) == Val(x[..i]) * BasePow(|x| - i) + Val(x[i..])
  {
    ValBounds(x[i..]);
    hide Val, BasePow;
    ValSplit(x, i);
  }

  lemma PrefixArithmetic(A: int, B: int, X: int, b: int, t: int, x: int, r: int, h: int, q: int, P: int)
    requires P == h * q && P > 0 && B == b * h + t && X == x * P + r && 0 <= r < P
    requires X == A - t * q && A >= B * q
    ensures x >= b
  {
    TakeArithmetic(h, q, b, t);
    NextMultiple(x, P);
    LeadAtLeast(x, b, P);
  }

  lemma BorrowPossible(x: seq<int>, b: seq<int>, i: nat)
    requires AreWords(x) && AreWords(b) && i < |x| && i < |b| && Val(x[..i + 1]) >= Val(b[..i + 1]) && x[i] < b[i]
    ensures Val(x[..i]) > 0
  {
    hide Val, BasePow;
    assert x[..i + 1] == x[..i] + [x[i]] && b[..i + 1] == b[..i] + [b[i]];
    ValSnoc(x[..i], x[i]);
    ValSnoc(b[..i], b[i]);
    ValBounds(b[..i]);
  }

  /** The difference, for a minuend at least as long and as large; the first k words of b are zero. */
  method SubtractWords(a: seq<int>, b: seq<int>, k: nat) returns (x: seq<int>)
    requires AreWords(a) && AreWords(b) && |a| >= |b| >= k && (forall j :: 0 <= j < k ==> b[j] == 0)
    requires Val(a) >= Val(b) * BasePow(|a| - |b|)
    ensures AreWords(x) && |x| == |a| && Val(x) == Val(a) - Val(b) * BasePow(|a| - |b|)
  {
    hide Val, BasePow, Taken;
    x := a;
    var i := |b|;
    TakeNothing(a, b);
    while i > k
      invariant k <= i <= |b| && |x| == |a| && AreWords(x) && Taken(a, b, x, i)
    {
      PrefixSuffices(a, b, x, i);
      i := i - 1;
      ghost var before := x;
      var word := x[i];
      if x[i] < b[i] {
        BorrowPossible(x, b, i);
        x := Borrow(x, i);
        assert x[i] == x[i..][0] == before[i..][0];
        word := x[i] + BASE;
      }
      ValUpdate(x, i, word - b[i]);
      BasePowSucc(|a| - 1 - i);
      BorrowArithmetic(BasePow(|a| - 1 - i), x[i], b[i]);
      x := x[i := word - b[i]];
      TakeStep(a, b, before, i, x);
    }
    TakenAll(a, b, x, k);
  }

  lemma BorrowArithmetic(p: int, w: int, y: int)
    ensures (w + BASE - y - w) * p == BASE * p - y * p && (w - y - w) * p == -(y * p)
  {}

  lemma TakeNothing(a: seq<int>, b: seq<int>)
    requires |a| >= |b|
    ensures Taken(a, b, a, |b|)
  {}

  lemma TakenAll(a: seq<int>, b: seq<int>, x: seq<int>, k: nat)
    requires Taken(a, b, x, k) && forall j :: 0 <= j < k ==> b[j] == 0
    ensures Val(x) == Val(a) - Val(b) * BasePow(|a| - |b|)
  {
    hide Val, BasePow;
    ValSplit(b, k);
    ValZeros(b[..k]);
    NothingOf(BasePow(|b| - k));
  }
}
