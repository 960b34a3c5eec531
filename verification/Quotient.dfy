/** The two loops of `divide`, and what their quotient words are worth. */
module Quotient {
  import opened Words
  import opened LongDivision

  // ---- Reading a digit array word by word ----

  /** Word i of d, with zeros past its end. */
  function WordAt(d: seq<int>, i: nat): int {
    if i < |d| then d[i] else 0
  }

  /** The first p words of d, with zeros past its end. */
  function Padded(d: seq<int>, p: nat): int {
    if p <= |d| then Val(d[..p]) else Val(d) * BasePow(p - |d|)
  }

  lemma PaddedStep(d: seq<int>, p: nat)
    ensures Padded(d, p + 1) == Padded(d, p) * BASE + WordAt(d, p)
  {
    hide Val, BasePow;
    if p < |d| {
      assert d[..p + 1] == d[..p] + [d[p]];
      ValSnoc(d[..p], d[p]);
    } else if p == |d| {
      assert d[..p] == d;
      BasePowOne();
    } else {
      BasePowSucc(p - |d|);
    }
  }

  lemma BasePowOne()
    ensures BasePow(0) == 1 && BasePow(1) == BASE
  {}

  /** d as a fraction: p words of it fall short by less than one unit, and by nothing exactly when the rest is zero. */
  lemma PaddedBracket(d: seq<int>, p: nat)
    requires AreWords(d)
    ensures Padded(d, p) * BasePow(|d|) <= Val(d) * BasePow(p) < (Padded(d, p) + 1) * BasePow(|d|)
    ensures Padded(d, p) * BasePow(|d|) == Val(d) * BasePow(p) <==> p >= |d| || Val(d[p..]) == 0
  {
    hide Val, BasePow;
    if p >= |d| {
      hide Padded;
      PaddedPast(d, p);
      NextMultiple(Padded(d, p), BasePow(|d|));
    } else {
      ValSplit(d, p);
      ValBounds(d[p..]);
      BasePowAdd(|d| - p, p);
      FractionBracket(Padded(d, p), BasePow(|d| - p), BasePow(p), Val(d[p..]), Val(d), BasePow(|d|));
    }
  }

  lemma NextMultiple(v: int, b: int)
    ensures (v + 1) * b == v * b + b
  {}

  lemma PaddedPast(d: seq<int>, p: nat)
    requires p >= |d|
    ensures Padded(d, p) * BasePow(|d|) == Val(d) * BasePow(p)
  {
    hide Val, BasePow;
    if p == |d| {
      assert d[..p] == d;
    } else {
      BasePowAdd(p - |d|, |d|);
      Associate(Val(d), BasePow(p - |d|), BasePow(|d|));
    }
  }

  lemma FractionBracket(v: int, s: int, u: int, t: int, V: int, S: int)
    requires u > 0 && 0 <= t < s && V == v * s + t && S == s * u
    ensures v * S <= V * u < (v + 1) * S
    ensures v * S == V * u <==> t == 0
  {}

  lemma PaddedPositive(d: seq<int>, p: nat)
    requires AreWords(d) && |d| > 0 && d[0] > 0 && p > 0
    ensures Padded(d, p) >= BasePow(p - 1)
  {
    hide Val, BasePow;
    if p <= |d| {
      ValPositive(d[..p]);
    } else {
      ValPositive(d);
      BasePowAdd(|d| - 1, p - |d|);
      AtLeastTimes(BasePow(|d| - 1), Val(d), BasePow(p - |d|));
    }
  }

  // ---- What the loops keep ----

  /** The quotient words so far, and the remainder of the words of x that were read for them. */
  ghost predicate Divided(xd: seq<int>, Y: int, yL: nat, qd: seq<int>, R: int) {
    && AreWords(qd)
    && yL >= 1
    && 0 <= R < Y
    && (|qd| > 0 ==> Padded(xd, yL + |qd| - 1) == Val(qd) * Y + R)
    && (|qd| == 0 ==> Padded(xd, yL - 1) == R)
  }

  lemma DividedStep(xd: seq<int>, Y: int, yL: nat, qd: seq<int>, R: int, k: int, R': int)
    requires Divided(xd, Y, yL, qd, R)
    requires 0 <= k < BASE && 0 <= R' < Y
    requires R * BASE + WordAt(xd, yL + |qd| - 1) == k * Y + R'
    ensures Divided(xd, Y, yL, qd + [k], R')
  {
    hide Val, Padded;
    PaddedStep(xd, yL + |qd| - 1);
    ValSnoc(qd, k);
    if |qd| == 0 { ValEmpty(); }
    StepArithmetic(Val(qd), Y, R, k);
  }

  lemma StepArithmetic(q: int, Y: int, R: int, k: int)
    ensures (q * Y + R) * BASE == (q * BASE) * Y + R * BASE
    ensures (q * BASE + k) * Y == (q * BASE) * Y + k * Y
  {}

  /** How a loop may end: all of x read and nothing left over, or the wanted number of words reached. */
  predicate Stops(xL: nat, yL: nat, qd: seq<int>, R: int, sd: nat, more: bool) {
    && |qd| > 0
    && (more <==> R != 0 || yL + |qd| - 1 < xL)
    && (more ==> |qd| == sd + 1)
    && (!more && qd[|qd| - 1] == 0 ==> yL + |qd| - 1 <= xL)
  }

  /** A divisor of one word. */
  method DivideShort(xd: seq<int>, y: int, sd0: nat) returns (qd: seq<int>, more: bool, ghost R: int)
    requires AreWords(xd) && |xd| > 0 && 0 < y < BASE
    ensures Divided(xd, y, 1, qd, R) && Stops(|xd|, 1, qd, R, sd0, more)
  {
    hide Val, Padded, Divided;
    qd := [];
    var k := 0;
    var i := 0;
    var sd := sd0 + 1;
    DividedNothing(xd, y);
    while i < |xd| || k != 0
      invariant 0 <= i == |qd| && 0 <= k < y && sd + i == sd0 + 1 && sd >= 0
      invariant Divided(xd, y, 1, qd, k)
      invariant i > |xd| ==> k != 0 || qd[i - 1] != 0
      decreases sd
    {
      if sd == 0 {
        break;
      }
      sd := sd - 1;
      ShortBounds(k, WordAt(xd, i), y);
      var t := Safe(k * BASE + WordAt(xd, i));
      DividedStep(xd, y, 1, qd, k, t / y, t % y);
      if i >= |xd| { ShortNonZero(k, y); }
      qd := qd + [ToInt32(t / y)];
      k := ToInt32(t % y);
      i := i + 1;
    }
    more := k != 0 || i < |xd|;
    R := k;
  }

  lemma DividedNothing(xd: seq<int>, y: int)
    requires y > 0
    ensures Divided(xd, y, 1, [], 0)
  {}

  lemma ShortBounds(k: int, w: int, y: int)
    requires 0 <= k < y < BASE && 0 <= w < BASE
    ensures 0 <= k * BASE + w < BASE * BASE
    ensures 0 <= (k * BASE + w) / y < BASE
    ensures k * BASE + w == (k * BASE + w) / y * y + (k * BASE + w) % y
  {
    assert k * BASE + w < y * BASE;
    if (k * BASE + w) / y >= BASE { AtLeastTimes(BASE, (k * BASE + w) / y, y); }
  }

  /** Once x is used up, a pass leaves a remainder or makes a quotient word. */
  lemma ShortNonZero(k: int, y: int)
    requires 0 < k < y
    ensures k * BASE / y != 0 || k * BASE % y != 0
  {}

  // ---- A divisor of several words ----

  lemma ScaleHalf(y0: int, k: int)
    requires 1 <= y0 < BASE && k == BASE / (y0 + 1)
    ensures 1 <= k <= HALF && k * (y0 + 1) <= BASE && k * y0 >= HALF
  {
    var a := y0 + 1;
    assert k * a <= BASE < (k + 1) * a by { QuotientOf(BASE, a); }
    assert k * y0 == k * a - k && (k + 1) * a == k * a + a;
    if k == 1 {
    } else if a == 2 {
    } else if k == 2 {
    } else if k >= 3 && a >= 3 {
      ProductAtLeast(1, a - 2, 1, k - 2);
      assert (a - 2) * (k - 2) == k * a - 2 * a - 2 * k + 4;
    }
  }

  lemma QuotientOf(n: int, a: int)
    requires a > 0
    ensures n / a * a <= n < (n / a + 1) * a
  {}

  /** The factor that normalises a divisor with this leading word. */
  function ScaleFactor(lead: int): (k: int)
    requires 1 <= lead < BASE
    ensures 1 <= k <= HALF
  {
    ScaleHalf(lead, BASE / (lead + 1));
    ToInt32(BASE / (lead + 1))
  }

  lemma ScaleFactorIs(lead: int)
    requires 1 <= lead < BASE
    ensures ScaleFactor(lead) * (lead + 1) <= BASE && ScaleFactor(lead) * lead >= HALF
  {
    ScaleHalf(lead, BASE / (lead + 1));
  }

  /** Scaling keeps the divisor's length and brings its leading word to half the base. */
  lemma ScaleNormalises(yd: seq<int>, k: int, r: seq<int>)
    requires AreWords(yd) && |yd| > 0 && yd[0] > 0 && k == ScaleFactor(yd[0])
    requires AreWords(r) && |r| >= |yd| && r[0] > 0 && Val(r) == k * Val(yd)
    ensures |r| == |yd| && r[0] >= HALF
  {
    hide Val, BasePow, ScaleFactor;
    var P := BasePow(|yd| - 1);
    ScaleFactorIs(yd[0]);
    ValLead(yd);
    TimesAtLeast(k, Val(yd) + 1, (yd[0] + 1) * P);
    Associate(k, yd[0] + 1, P);
    AtLeastTimes(k * (yd[0] + 1), BASE, P);
    BasePowSucc(|yd| - 1);
    assert k * (Val(yd) + 1) == k * Val(yd) + k;
    if |r| > |yd| {
      ValPositive(r);
      BasePowMonotone(|yd|, |r| - 1);
    }
    TimesAtLeast(k, yd[0] * P, Val(yd));
    Associate(k, yd[0], P);
    AtLeastTimes(HALF, k * yd[0], P);
    ValLead(r);
    LeadAtLeast(r[0], HALF, P);
  }

  lemma LeadAtLeast(a: int, b: int, P: int)
    requires P > 0 && b * P < (a + 1) * P
    ensures a >= b
  {}

  /** The state before a pass: rem holds the last remainder followed by the next word of x. */
  ghost predicate Reading(xd: seq<int>, Y: int, yL: nat, qd: seq<int>, R: int, rem: seq<int>, xi: nat) {
    && Divided(xd, Y, yL, qd, R)
    && xi == yL + |qd|
    && NoLeadingZero(rem)
    && Val(rem) == R * BASE + WordAt(xd, xi - 1)
    && (|qd| > 0 ==> R != 0 || xi - 1 < |xd|)
  }

  lemma FirstReading(xd: seq<int>, Y: int, yL: nat, rem: seq<int>)
    requires AreWords(xd) && |xd| > 0 && xd[0] > 0 && yL >= 2 && Y >= BasePow(yL - 1)
    requires |rem| == yL && forall j :: 0 <= j < yL ==> rem[j] == WordAt(xd, j)
    ensures Reading(xd, Y, yL, [], Val(rem[..yL - 1]), rem, yL)
  {
    hide BasePow;
    hide Val;
    FirstWords(xd, yL - 1, rem[..yL - 1]);
    ValBounds(rem[..yL - 1]);
    assert rem == rem[..yL - 1] + [rem[yL - 1]];
    ValSnoc(rem[..yL - 1], rem[yL - 1]);
  }

  lemma FirstWords(xd: seq<int>, p: nat, r: seq<int>)
    requires |r| == p && forall j :: 0 <= j < p ==> r[j] == WordAt(xd, j)
    ensures Val(r) == Padded(xd, p)
  {
    hide Val, BasePow;
    if p <= |xd| {
      assert r == xd[..p];
    } else {
      assert r[..|xd|] == xd;
      ValSplit(r, |xd|);
      ValZeros(r[|xd|..]);
    }
  }

  lemma NextReading(xd: seq<int>, Y: int, yL: nat, qd: seq<int>, R: int, last: seq<int>, rem: seq<int>, xi: nat)
    requires AreWords(xd) && Divided(xd, Y, yL, qd, R) && |qd| > 0 && xi == yL + |qd| - 1
    requires NoLeadingZero(last) && Val(last) == R
    requires rem == if R != 0 then last + [WordAt(xd, xi)] else if xi < |xd| then [xd[xi]] else []
    ensures rem != [] <==> R != 0 || xi < |xd|
    ensures rem != [] ==> Reading(xd, Y, yL, qd, R, rem, xi + 1)
  {}

  lemma FirstRemainder(xd: seq<int>, Y: int, yL: nat, qd: seq<int>, R: int)
    requires AreWords(xd) && |xd| > 0 && xd[0] > 0 && Divided(xd, Y, yL, qd, R) && |qd| == 1
    ensures qd[0] != 0 || R != 0
  {
    hide Val, Padded;
    PaddedPositive(xd, yL);
    assert qd == [qd[0]];
    ValSingle(qd[0]);
  }

  /** A zero word with nothing left over after it was made from a zero word of x. */
  lemma LastWordZero(xd: seq<int>, Y: int, R: int, xi: nat, k: int, R': int)
    requires xi >= 1 && AreWords(xd) && 0 <= R < Y && R * BASE + WordAt(xd, xi - 1) == k * Y + R'
    requires R != 0 || xi - 1 < |xd|
    ensures k == 0 && R' == 0 ==> xi <= |xd|
  {}

  method DivideLong(x: seq<int>, y: seq<int>, sd0: nat)
    returns (qd: seq<int>, more: bool, ghost xd: seq<int>, ghost scale: int, ghost R: int)
    requires AreWords(x) && |x| > 0 && x[0] > 0
    requires AreWords(y) && |y| >= 2 && y[0] > 0 && sd0 > 0
    ensures scale > 0 && AreWords(xd) && |x| <= |xd| && xd[0] > 0 && Val(xd) == scale * Val(x)
    ensures scale * Val(y) < BasePow(|y|)
    ensures Divided(xd, scale * Val(y), |y|, qd, R) && Stops(|xd|, |y|, qd, R, sd0, more)
  {
    hide Val, BasePow, ScaledBy, Divided;
    var k, xs, yd := Scale(x, y);
    var yd0 := yd[0];
    if yd[1] >= HALF {
      yd0 := yd0 + 1;
    }
    ScaledIs(x, xs, k);
    ScaledIs(y, yd, k);
    ValBounds(yd);
    xd, scale := xs, k;
    qd, more, R := DivideWords(xs, yd, yd0, sd0);
  }

  predicate ScaledBy(x: seq<int>, r: seq<int>, k: int) {
    AreWords(r) && 0 < |x| <= |r| && r[0] > 0 && Val(r) == k * Val(x)
  }

  lemma ScaledIs(x: seq<int>, r: seq<int>, k: int)
    requires ScaledBy(x, r, k)
    ensures AreWords(r) && |x| <= |r| && r[0] > 0 && Val(r) == k * Val(x)
  {}

  method Scale(x: seq<int>, y: seq<int>) returns (k: int, xs: seq<int>, yd: seq<int>)
    requires AreWords(x) && |x| > 0 && x[0] > 0
    requires AreWords(y) && |y| > 0 && y[0] > 0
    ensures 1 <= k && ScaledBy(x, xs, k) && ScaledBy(y, yd, k)
    ensures |yd| == |y| && yd[0] >= HALF && AreWords(yd)
  {
    hide Val, ScaleFactor;
    k := ScaleFactor(y[0]);
    xs, yd := x, y;
    if k > 1 {
      yd := MultiplyInteger(y, k);
      xs := MultiplyInteger(x, k);
    }
    ScaleNormalises(y, k, yd);
  }

  method DivideWords(xd: seq<int>, yd: seq<int>, yd0: int, sd0: nat) returns (qd: seq<int>, more: bool, ghost R: int)
    requires AreWords(xd) && |xd| > 0 && xd[0] > 0 && Normalised(yd, yd0) && sd0 > 0
    ensures Divided(xd, Val(yd), |yd|, qd, R) && Stops(|xd|, |yd|, qd, R, sd0, more)
  {
    hide Val, BasePow, Divided, Reading;
    var xL, yL := |xd|, |yd|;
    var xi := yL;
    var rem := FirstRem(xd, yL);
    var yz := [0] + yd;
    qd := [];
    var sd := sd0;
    ghost var Y := Val(yd);
    ValPositive(yd);
    FirstReading(xd, Y, yL, rem);
    R := Val(rem[..yL - 1]);
    var again := true;
    while again
      invariant xi >= 0
      invariant again ==> Reading(xd, Y, yL, qd, R, rem, xi) && sd >= 0 && sd + |qd| == sd0
      invariant !again ==> Divided(xd, Y, yL, qd, R) && Stops(xL, yL, qd, R, sd0, rem != [])
      decreases again, sd
    {
      ReadingIs(xd, Y, yL, qd, R, rem, xi);
      var k, cmp;
      k, rem, cmp := DivideStep(yd, yz, yd0, rem);
      ghost var before, last := R, rem;
      R := Val(rem);
      DividedStep(xd, Y, yL, qd, before, k, R);
      if |qd| > 0 { LastWordZero(xd, Y, before, xi, k, R); }
      qd := qd + [k];
      if |qd| == 1 { FirstRemainder(xd, Y, yL, qd, R); }
      if cmp != 0 && rem[0] != 0 {
        rem := rem + [WordAt(xd, xi)];
      } else {
        rem := if xi < xL then [xd[xi]] else [];
      }
      NextReading(xd, Y, yL, qd, R, last, rem, xi);
      again := xi < xL || rem != [];
      xi := xi + 1;
      if again {
        again := sd != 0;
        sd := sd - 1;
      }
    }
    more := rem != [];
  }

  lemma ReadingIs(xd: seq<int>, Y: int, yL: nat, qd: seq<int>, R: int, rem: seq<int>, xi: nat)
    requires Reading(xd, Y, yL, qd, R, rem, xi) && AreWords(xd)
    ensures Divided(xd, Y, yL, qd, R) && xi == yL + |qd| && NoLeadingZero(rem) && 0 <= R < Y
    ensures Val(rem) == R * BASE + WordAt(xd, xi - 1) < Y * BASE
    ensures |qd| > 0 ==> R != 0 || xi - 1 < |xd|
  {}

  method FirstRem(xd: seq<int>, yL: nat) returns (rem: seq<int>)
    ensures |rem| == yL && forall j :: 0 <= j < yL ==> rem[j] == WordAt(xd, j)
  {
    rem := xd[..if yL <= |xd| then yL else |xd|];
    while |rem| < yL
      invariant |rem| <= yL && forall j :: 0 <= j < |rem| ==> rem[j] == WordAt(xd, j)
      invariant |rem| < yL ==> |rem| >= |xd|
    {
      rem := rem + [0];
    }
  }

  // ---- What the quotient words are worth ----

  /** Q is x / y * B^(a - b) rounded down, and inexact tells whether anything was lost. */
  ghost predicate IsQuotient(X: int, Y: int, a: nat, b: nat, Q: int, inexact: bool) {
    && Q * (Y * BasePow(b)) <= X * BasePow(a) < (Q + 1) * (Y * BasePow(b))
    && (inexact <==> Q * (Y * BasePow(b)) != X * BasePow(a))
  }

  lemma DividedBracket(xd: seq<int>, Y: int, yL: nat, qd: seq<int>, R: int)
    requires AreWords(xd) && Divided(xd, Y, yL, qd, R) && |qd| > 0
    ensures var p := yL + |qd| - 1;
      IsQuotient(Val(xd), Y, p, |xd|, Val(qd), R != 0 || (p < |xd| && Val(xd[p..]) != 0))
  {
    hide Val, BasePow, Padded;
    var p := yL + |qd| - 1;
    PaddedBracket(xd, p);
    RemainderBracket(Val(qd), Y, R, BasePow(|xd|));
  }

  lemma RemainderBracket(q: int, Y: int, R: int, b: int)
    requires 0 <= R < Y && b > 0
    ensures q * (Y * b) + R * b == (q * Y + R) * b
    ensures (q * Y + R + 1) * b <= (q + 1) * (Y * b)
    ensures R * b >= 0 && (R > 0 ==> R * b > 0)
  {
    assert (q * Y) * b == q * (Y * b);
    AtLeastTimes(R + 1, Y, b);
    assert (q + 1) * (Y * b) == q * (Y * b) + Y * b;
    if R > 0 { AtLeastTimes(1, R, b); }
  }

  /** Dividing the scaled operands divides the operands. */
  lemma Unscale(scale: int, X: int, Y: int, a: nat, b: nat, Q: int, inexact: bool)
    requires scale > 0 && IsQuotient(scale * X, scale * Y, a, b, Q, inexact)
    ensures IsQuotient(X, Y, a, b, Q, inexact)
  {
    hide BasePow;
    var u, v := X * BasePow(a), Y * BasePow(b);
    Associate(scale, X, BasePow(a));
    Associate(scale, Y, BasePow(b));
    ScaleOut(scale, Q, v);
    ScaleOut(scale, Q + 1, v);
    Cancel(scale, Q * v, u);
    Cancel(scale, u, (Q + 1) * v);
  }

  lemma ScaleOut(scale: int, Q: int, v: int)
    ensures Q * (scale * v) == scale * (Q * v)
  {}

  lemma Cancel(scale: int, u: int, v: int)
    requires scale > 0
    ensures scale * u < scale * v <==> u < v
    ensures scale * u == scale * v <==> u == v
  {}

  /** Nothing but zeros of x unread, and nothing left over: then x itself ended in a zero word. */
  lemma NoTrailingZeroLeft(X: int, xs: seq<int>, scale: int, Y: int, Q: int, p: nat)
    requires scale > 0 && AreWords(xs) && p < |xs| && Val(xs) == scale * X
    requires Val(xs[..p]) == Q * (scale * Y) && Val(xs[p..]) == 0
    ensures X % BASE == 0
  {
    hide Val, BasePow;
    ValSplit(xs, p);
    BasePowSucc(|xs| - p - 1);
    var B := BasePow(|xs| - p - 1);
    ScaleOut(scale, Q, Y);
    Associate(scale, Q * Y, BASE * B);
    Cancel(scale, X, (Q * Y) * (BASE * B));
    MultipleOfBase(Q * Y, B);
  }

  lemma MultipleOfBase(v: int, B: int)
    ensures (v * (BASE * B)) % BASE == 0
  {
    assert v * (BASE * B) == BASE * (v * B);
    MultipleModulo(v * B);
  }

  lemma MultipleModulo(v: int)
    ensures (BASE * v) % BASE == 0
  {}

  /** The flag `more` is exact: it is set just when the quotient words lose something. */
  lemma MoreIsExact(xd: seq<int>, xs: seq<int>, scale: int, Y: int, yL: nat, qd: seq<int>, R: int, sd: nat, more: bool)
    requires scale > 0 && AreWords(xd) && |xd| > 0 && xd[|xd| - 1] != 0
    requires AreWords(xs) && Val(xs) == scale * Val(xd)
    requires Divided(xs, scale * Y, yL, qd, R) && Stops(|xs|, yL, qd, R, sd, more)
    ensures more <==> R != 0 || (yL + |qd| - 1 < |xs| && Val(xs[yL + |qd| - 1..]) != 0)
  {
    hide Val, BasePow;
    var p := yL + |qd| - 1;
    if R == 0 && p < |xs| && Val(xs[p..]) == 0 {
      NoTrailingZeroLeft(Val(xd), xs, scale, Y, Val(qd), p);
      LastWord(xd);
    }
  }

  lemma QuotientOfWords(xd: seq<int>, xs: seq<int>, scale: int, Y: int, yL: nat, qd: seq<int>, R: int, sd: nat,
                        more: bool)
    requires scale > 0 && AreWords(xd) && |xd| > 0 && xd[|xd| - 1] != 0
    requires AreWords(xs) && Val(xs) == scale * Val(xd)
    requires Divided(xs, scale * Y, yL, qd, R) && Stops(|xs|, yL, qd, R, sd, more)
    ensures IsQuotient(Val(xd), Y, yL + |qd| - 1, |xs|, Val(qd), more)
  {
    hide Val, BasePow, IsQuotient, Divided;
    DividedBracket(xs, scale * Y, yL, qd, R);
    MoreIsExact(xd, xs, scale, Y, yL, qd, R, sd, more);
    Unscale(scale, Val(xd), Y, yL + |qd| - 1, |xs|, Val(qd), more);
  }

  /** An exact quotient has no trailing zero word. */
  lemma ExactEndsNonZero(xd: seq<int>, xs: seq<int>, scale: int, Y: int, yL: nat, qd: seq<int>, R: int, sd: nat)
    requires scale > 0 && AreWords(xd) && |xd| > 0 && xd[|xd| - 1] != 0
    requires AreWords(xs) && Val(xs) == scale * Val(xd)
    requires Divided(xs, scale * Y, yL, qd, R) && Stops(|xs|, yL, qd, R, sd, false)
    ensures qd[|qd| - 1] != 0
  {
    hide BasePow;
    hide Val;
    if qd[|qd| - 1] == 0 {
      assert xs[..|xs|] == xs;
      var q := qd[..|qd| - 1];
      assert qd == q + [0];
      ValSnoc(q, 0);
      ScaleOut(scale, Val(qd), Y);
      Cancel(scale, Val(xd), Val(qd) * Y);
      assert (Val(q) * BASE) * Y == BASE * (Val(q) * Y);
      MultipleModulo(Val(q) * Y);
      LastWord(xd);
    }
  }

  // ---- The leading word and the exponent ----

  lemma LeadingQuotient(xs: seq<int>, Y: int, yL: nat, qd: seq<int>, R: int)
    requires AreWords(xs) && |xs| > 0 && xs[0] > 0 && 0 < Y < BasePow(yL)
    requires Divided(xs, Y, yL, qd, R) && |qd| >= 2
    ensures Val(qd) >= BasePow(|qd| - 2)
  {
    hide Val, BasePow, Padded;
    var m := |qd|;
    PaddedPositive(xs, yL + m - 1);
    BasePowAdd(m - 2, yL);
    assert (Val(qd) + 1) * Y == Val(qd) * Y + Y;
    if Val(qd) + 1 <= BasePow(m - 2) {
      AtLeastTimes(Val(qd) + 1, BasePow(m - 2), Y);
      TimesAtLeast(BasePow(m - 2), Y, BasePow(yL));
    }
  }

  lemma OneLeadingZero(xs: seq<int>, Y: int, yL: nat, qd: seq<int>, R: int, sd: nat, more: bool)
    requires AreWords(xs) && |xs| > 0 && xs[0] > 0 && 0 < Y < BasePow(yL) && sd > 0
    requires Divided(xs, Y, yL, qd, R) && Stops(|xs|, yL, qd, R, sd, more)
    ensures qd[0] == 0 ==> |qd| >= 2 && qd[1] > 0
  {
    hide Val, BasePow, Padded;
    if qd[0] == 0 {
      if |qd| == 1 {
        FirstRemainder(xs, Y, yL, qd, R);
      } else if qd[1] == 0 {
        LeadingQuotient(xs, Y, yL, qd, R);
        DropZero(qd);
        DropZero(qd[1..]);
        ValBounds(qd[1..][1..]);
      }
    }
  }

  lemma CancelPower(u: int, v: int, c: nat)
    ensures u * BasePow(c) < v * BasePow(c) <==> u < v
    ensures u * BasePow(c) == v * BasePow(c) <==> u == v
  {}

  lemma PowerSplit(u: int, c: nat, d: nat)
    ensures u * BasePow(c + d) == (u * BasePow(c)) * BasePow(d)
  {
    hide BasePow;
    BasePowAdd(c, d);
    Associate(u, BasePow(c), BasePow(d));
  }

  lemma ShiftExponents(X: int, Y: int, a: nat, b: nat, c: nat, Q: int, inexact: bool)
    ensures IsQuotient(X, Y, a, b, Q, inexact) <==> IsQuotient(X, Y, a + c, b + c, Q, inexact)
  {
    hide BasePow;
    PowerSplit(X, a, c);
    PowerSplit(Y, b, c);
    var u, v := X * BasePow(a), Y * BasePow(b);
    Associate(Q, v, BasePow(c));
    Associate(Q + 1, v, BasePow(c));
    CancelPower(Q * v, u, c);
    CancelPower(u, (Q + 1) * v, c);
  }

  lemma SameExponents(X: int, Y: int, a: nat, b: nat, a': nat, b': nat, Q: int, inexact: bool)
    requires IsQuotient(X, Y, a, b, Q, inexact) && a + b' == a' + b
    ensures IsQuotient(X, Y, a', b', Q, inexact)
  {
    hide IsQuotient;
    if a <= a' {
      ShiftExponents(X, Y, a, b, a' - a, Q, inexact);
    } else {
      ShiftExponents(X, Y, a', b', a - a', Q, inexact);
    }
  }

  /** Whether x has the smaller fraction, when both are read with the point before the first word. */
  function Smaller(X: int, xL: nat, Y: int, yL: nat): nat {
    if X * BasePow(yL) < Y * BasePow(xL) then 1 else 0
  }

  lemma FractionsAreClose(X: int, xL: nat, Y: int, yL: nat)
    requires xL > 0 && yL > 0 && X < BasePow(xL) && BasePow(yL - 1) <= Y
    ensures X * BasePow(yL) < BASE * (Y * BasePow(xL))
  {
    hide BasePow;
    AtLeastTimes(BasePow(yL - 1), Y, BasePow(xL));
    AtLeastTimes(X + 1, BasePow(xL), BasePow(yL));
    BasePowSucc(yL - 1);
    assert (X + 1) * BasePow(yL) == X * BasePow(yL) + BasePow(yL);
    assert BasePow(xL) * (BASE * BasePow(yL - 1)) == BASE * (BasePow(yL - 1) * BasePow(xL));
  }

  lemma ExponentsMeet(u: int, v: int, c: nat, d: nat)
    requires 0 < u && 0 < v && u < BASE * v && v < BASE * u
    requires v * BasePow(c) <= u * BasePow(d) < v * BasePow(c + 1)
    ensures d == c + if u < v then 1 else 0
  {
    hide BasePow;
    if d < c {
      BasePowMonotone(d, c - 1);
      TimesAtLeast(u, BasePow(d), BasePow(c - 1));
      BasePowSucc(c - 1);
      Associate(v, BASE, BasePow(c - 1));
      CancelPower(u, v * BASE, c - 1);
    } else if d == c {
      CancelPower(u, v, c);
    } else {
      BasePowMonotone(c + 1, d);
      TimesAtLeast(u, BasePow(c + 1), BasePow(d));
      CancelPower(u, v, c + 1);
      if d > c + 1 {
        BasePowMonotone(c + 2, d);
        TimesAtLeast(u, BasePow(c + 2), BasePow(d));
        BasePowSucc(c + 1);
        Associate(u, BASE, BasePow(c + 1));
        CancelPower(u * BASE, v, c + 1);
      }
    }
  }

  lemma QuotientMagnitude(X: int, Y: int, a: nat, b: nat, Q: int, inexact: bool, n: nat)
    requires n > 0 && IsQuotient(X, Y, a, b, Q, inexact) && Y > 0
    requires BasePow(n - 1) <= Q < BasePow(n)
    ensures Y * BasePow(n - 1 + b) <= X * BasePow(a) < Y * BasePow(n + b)
  {
    hide BasePow;
    var v := Y * BasePow(b);
    AtLeastTimes(1, Y, BasePow(b));
    AtLeastTimes(BasePow(n - 1), Q, v);
    AtLeastTimes(Q + 1, BasePow(n), v);
    PowerSplit(Y, b, n - 1);
    PowerSplit(Y, b, n);
  }

  /** The number of quotient words tells where the point is. */
  lemma QuotientExponent(X: int, xL: nat, Y: int, yL: nat, a: nat, b: nat, Q: int, inexact: bool, n: nat)
    requires xL > 0 && yL > 0 && n > 0 && IsQuotient(X, Y, a, b, Q, inexact)
    requires BasePow(xL - 1) <= X < BasePow(xL) && BasePow(yL - 1) <= Y < BasePow(yL)
    requires BasePow(n - 1) <= Q < BasePow(n)
    ensures IsQuotient(X, Y, yL + n + Smaller(X, xL, Y, yL), xL + 1, Q, inexact)
  {
    hide BasePow, IsQuotient;
    QuotientMagnitude(X, Y, a, b, Q, inexact, n);
    var u, v := X * BasePow(yL), Y * BasePow(xL);
    FractionsAreClose(X, xL, Y, yL);
    FractionsAreClose(Y, yL, X, xL);
    AtLeastTimes(1, X, BasePow(yL));
    AtLeastTimes(1, Y, BasePow(xL));
    Raise(X, Y, xL, yL, a, n - 1 + b);
    ExponentsMeet(u, v, yL + (n - 1 + b), xL + a);
    SameExponents(X, Y, a, b, yL + n + Smaller(X, xL, Y, yL), xL + 1, Q, inexact);
  }

  lemma Raise(X: int, Y: int, xL: nat, yL: nat, a: nat, c: nat)
    requires Y * BasePow(c) <= X * BasePow(a) < Y * BasePow(c + 1)
    ensures var u, v := X * BasePow(yL), Y * BasePow(xL);
      v * BasePow(yL + c) <= u * BasePow(xL + a) < v * BasePow(yL + c + 1)
  {
    hide BasePow;
    var z := xL + yL;
    RaiseOne(Y, xL, yL, c);
    RaiseOne(Y, xL, yL, c + 1);
    RaiseOne(X, yL, xL, a);
    CancelPower(Y * BasePow(c), X * BasePow(a), z);
    CancelPower(X * BasePow(a), Y * BasePow(c + 1), z);
  }

  lemma RaiseOne(X: int, p: nat, q: nat, a: nat)
    ensures (X * BasePow(p)) * BasePow(q + a) == (X * BasePow(a)) * BasePow(q + p)
  {
    hide BasePow;
    PowerSplit(X, p, q + a);
    PowerSplit(X, a, q + p);
  }

  /** The quotient words of two digit arrays, and whether they lose anything. */
  method QuotientWords(xd: seq<int>, yd: seq<int>, sd: nat) returns (qd: seq<int>, more: bool)
    requires AreWords(xd) && |xd| > 0 && xd[0] > 0 && xd[|xd| - 1] > 0
    requires AreWords(yd) && |yd| > 0 && yd[0] > 0 && sd > 0
    ensures AreWords(qd) && |qd| > 0 && qd[0] > 0
    ensures if more then |qd| >= sd else qd[|qd| - 1] > 0
    ensures IsQuotient(Val(xd), Val(yd), |yd| + |qd| + Smaller(Val(xd), |xd|, Val(yd), |yd|), |xd| + 1, Val(qd), more)
  {
    hide Val, BasePow, Divided, IsQuotient, Smaller;
    ghost var xs, scale, R := xd, 1, 0;
    if |yd| == 1 {
      ValIsWord(yd);
      ValBounds(yd);
      qd, more, R := DivideShort(xd, yd[0], sd);
    } else {
      qd, more, xs, scale, R := DivideLong(xd, yd, sd);
    }
    Worth(xd, yd, xs, scale, qd, R, sd, more);
    if qd[0] == 0 {
      DropZero(qd);
      qd := qd[1..];
    }
    ValPositive(xd);
    ValBounds(xd);
    ValPositive(yd);
    ValBounds(yd);
    ValPositive(qd);
    ValBounds(qd);
    ghost var a, b :| IsQuotient(Val(xd), Val(yd), a, b, Val(qd), more);
    QuotientExponent(Val(xd), |xd|, Val(yd), |yd|, a, b, Val(qd), more, |qd|);
  }

  lemma ValIsWord(d: seq<int>)
    requires |d| == 1
    ensures Val(d) == d[0]
  {}

  lemma Worth(xd: seq<int>, yd: seq<int>, xs: seq<int>, scale: int, qd: seq<int>, R: int, sd: nat, more: bool)
    requires AreWords(xd) && |xd| > 0 && xd[0] > 0 && xd[|xd| - 1] > 0
    requires AreWords(yd) && |yd| > 0 && yd[0] > 0 && sd > 0
    requires scale > 0 && AreWords(xs) && |xs| > 0 && xs[0] > 0 && Val(xs) == scale * Val(xd)
    requires Divided(xs, scale * Val(yd), |yd|, qd, R) && Stops(|xs|, |yd|, qd, R, sd, more)
    requires scale * Val(yd) < BasePow(|yd|)
    ensures exists a: nat, b: nat :: IsQuotient(Val(xd), Val(yd), a, b, Val(qd), more)
    ensures AreWords(qd) && |qd| > 0 && (qd[0] == 0 ==> |qd| >= 2 && qd[1] > 0)
    ensures if more then |qd| == sd + 1 else qd[|qd| - 1] > 0
  {
    hide Val, BasePow, IsQuotient, Padded;
    QuotientOfWords(xd, xs, scale, Val(yd), |yd|, qd, R, sd, more);
    OneLeadingZero(xs, scale * Val(yd), |yd|, qd, R, sd, more);
    if !more {
      ExactEndsNonZero(xd, xs, scale, Val(yd), |yd|, qd, R, sd);
    }
  }
}
