/** `finalise`: rounding a digit array to a number of significant digits, in place, word by word. */
module Finalise {
  import opened Words
  import opened LongDivision
  import opened Rounding
  import opened Amounts

  // ---- Where the first discarded digit is ----

  /** The digit at place 10^(6 - i) of word xdi is the first of the digits that are dropped. */
  lemma DigitPlace(d: seq<int>, xdi: nat, i: nat)
    requires AreWords(d) && xdi < |d| && i <= 6
    ensures var K := Pow10(7 * (|d| - 1 - xdi) + 6 - i);
      && Val(d) / K % 10 == d[xdi] / Pow10(6 - i) % 10
      && (Val(d) % K == 0 <==> d[xdi] % Pow10(6 - i) == 0 && Val(d[xdi + 1..]) == 0)
      && Val(d) / (10 * K) == Val(d[..xdi]) * Pow10(i) + d[xdi] / Pow10(7 - i)
  {
    hide Val, BasePow, Pow10;
    var L := |d| - 1 - xdi;
    var A, w, t, S, p, r := Val(d[..xdi]), d[xdi], Val(d[xdi + 1..]), BasePow(L), Pow10(6 - i), Pow10(i);
    ValSplit(d, xdi);
    ValCons(d[xdi..]);
    assert d[xdi..][1..] == d[xdi + 1..];
    ValBounds(d[xdi + 1..]);
    ValBounds(d[..xdi]);
    BasePowSucc(L);
    BasePowIs(L);
    Pow10Add(7 * L, 6 - i);
    WordPowers(i);
    PlaceArithmetic(Val(d), A, w, t, S, p, r);
  }

  lemma WordPowers(i: nat)
    requires i <= 6
    ensures Pow10(i) * (10 * Pow10(6 - i)) == BASE && Pow10(7 - i) == 10 * Pow10(6 - i)
  {
    SmallPowers();
    Pow10Add(i, 7 - i);
  }

  lemma PlaceArithmetic(M: int, A: int, w: int, t: int, S: int, p: int, r: int)
    requires A >= 0 && 0 <= w < BASE && 0 <= t < S && p > 0 && r > 0 && r * (10 * p) == BASE
    requires M == A * (BASE * S) + (w * S + t)
    ensures S * p > 0 && M / (S * p) % 10 == w / p % 10
    ensures M % (S * p) == 0 <==> w % p == 0 && t == 0
    ensures M / (10 * (S * p)) == A * r + w / (10 * p)
  {
    var V := A * BASE + w;
    WordOf(A, w, p, r);
    UnitOf(M, A, w, t, S);
    DivMod(V, p);
    AtLeastTimes(1, S, p);
    AboveUnit(V, p, S, t);
    DivIs(M, S * p, V / p, V % p * S + t);
    DivMod(w, p);
    DivMod(w / p, 10);
    var a := A * r;
    DivIs(V / p, 10, a + w / p / 10, w / p % 10);
    DivideTwice(M, S * p);
    DivideTwice(w, p);
    ZeroBelow(V % p, S, t);
  }

  lemma ZeroBelow(r: int, S: int, t: int)
    requires 0 <= r && 0 <= t < S
    ensures r * S + t == 0 <==> r == 0 && t == 0
  {}

  lemma UnitOf(M: int, A: int, w: int, t: int, S: int)
    requires M == A * (BASE * S) + (w * S + t)
    ensures M == (A * BASE + w) * S + t
  {}

  lemma AboveUnit(V: int, p: int, S: int, t: int)
    requires p > 0 && 0 <= t < S && V == V / p * p + V % p && 0 <= V % p < p
    ensures V * S + t == V / p * (S * p) + (V % p * S + t)
    ensures 0 <= V % p * S + t < S * p
  {
    var a, b := V / p, V % p;
    assert (a * p + b) * S == a * (S * p) + b * S;
    AtLeastTimes(0, b, S);
    AtLeastTimes(b + 1, p, S);
    assert (b + 1) * S == b * S + S;
  }

  lemma WordOf(A: int, w: int, p: int, r: int)
    requires w >= 0 && p > 0 && r * (10 * p) == BASE
    ensures (A * BASE + w) / p == A * r * 10 + w / p && (A * BASE + w) % p == w % p
  {
    DivMod(w, p);
    var q := A * r * 10 + w / p;
    assert A * (r * (10 * p)) == (A * r * 10) * p;
    assert q * p == (A * r * 10) * p + w / p * p;
    DivIs(A * BASE + w, p, q, w % p);
  }

  lemma DivideTwice(n: int, k: int)
    requires k > 0 && n >= 0
    ensures n / (10 * k) == n / k / 10
  {
    DiscardedPart(n, k);
  }

  /** Where the first dropped digit is, in the terms of `finalise`: word xdi, and place i of its seven digits. */
  predicate Place(d: seq<int>, sd: int, xdi: nat, i: int, j: int, digits: nat) {
    && AreWords(d) && xdi < |d| && d[0] > 0
    && 0 <= i <= 6 && (xdi == 0 ==> i >= 1)
    && digits == Digits(d[xdi]) && j == i - 7 + digits
    && Figures(d) - sd == 7 * (|d| - 1 - xdi) + 7 - i
  }

  /** The digits of w from the place 10^(6 - i) on, counted as `finalise` does when w has leading zeros. */
  lemma LeadingZeroDigit(w: nat, i: int)
    requires 0 <= i <= 6 && i - 7 + Digits(w) < 0
    ensures w / Pow10(6 - i) == 0 && w % Pow10(6 - i) == w
  {
    hide Pow10, Digits;
    DigitsBounds(w);
    Pow10Monotone(Digits(w), 6 - i);
  }

  /** The word and digit at which a digit array is cut to sd digits. */
  method RoundingDigit(d0: seq<int>, sd: int, isTruncated: bool)
    returns (d: seq<int>, xdi: nat, i: int, j: int, digits: nat, rd: int, keep: bool)
    requires AreWords(d0) && |d0| > 0 && d0[0] > 0 && sd >= 1
    ensures keep <==> !isTruncated && sd >= Figures(d0)
    ensures !keep ==> Place(d, sd, xdi, i, j, digits) && rd == d[xdi] / Pow10(6 - i) % 10
    ensures !keep ==> |d| >= |d0| && d == d0 + Zeros(|d| - |d0|)
    ensures !keep && sd < Figures(d0) ==> d == d0
    ensures !keep && sd >= Figures(d0) ==> xdi == |d| - 1 && d[xdi] == 0
  {
    hide Pow10;
    d, xdi, j, rd, keep := d0, 0, 0, 0, false;
    WordDigits(d0[0]);
    digits := Digits(d0[0]);
    i := sd - digits;
    if i < 0 {
      i := i + LOG_BASE;
      j := sd;
      rd := ToInt32(d[0] / Pow10(digits - j - 1) % 10);
    } else {
      xdi := i / LOG_BASE + 1;
      var k := |d|;
      if xdi >= k {
        if isTruncated {
          d := PushZeros(d0, xdi + 1);
          digits := 1;
          i := i % LOG_BASE;
          j := i - LOG_BASE + 1;
          ZeroWordDigit(6 - i);
        } else {
          keep := true;
        }
      } else {
        digits := Digits(d[xdi]);
        WordDigits(d[xdi]);
        i := i % LOG_BASE;
        j := i - LOG_BASE + digits;
        if j < 0 { LeadingZeroDigit(d[xdi], i); }
        rd := if j < 0 then 0 else ToInt32(d[xdi] / Pow10(digits - j - 1) % 10);
      }
    }
  }

  lemma ZeroWordDigit(n: nat)
    ensures 0 / Pow10(n) % 10 == 0 && Digits(0) == 1
  {}

  method PushZeros(d0: seq<int>, n: nat) returns (d: seq<int>)
    requires |d0| <= n
    ensures |d| == n && d == d0 + Zeros(n - |d0|)
  {
    d := d0;
    var k := |d|;
    while k < n
      invariant |d| == k <= n && d == d0 + Zeros(k - |d0|)
    {
      d := d + [0];
      k := k + 1;
    }
  }

  // ---- What finalise is to compute ----

  /**
   * The magnitude M, or one just above it when truncated, rounded to sd of its T digits, in units of the last digit
   * kept.
   */
  function Target(rm: int, s: int, M: nat, T: nat, sd: int, truncated: bool): nat {
    var D := T - sd;
    if D >= 1 then
      if truncated then Rounded(rm, s < 0, 2 * M + 1, 2 * Pow10(D)) else Rounded(rm, s < 0, M, Pow10(D))
    else
      if truncated then Rounded(rm, s < 0, 10 * (M * Pow10(-D)) + 1, 10) else M * Pow10(-D)
  }

  /** The digit rule computes Target, and the words up to the cut hold what the rule starts from. */
  lemma Decision(rm: int, s: int, M: nat, T: nat, sd: int, truncated: bool, K: nat, sticky: bool, leftOdd: bool)
    requires 0 <= rm <= 8 && T - sd >= 1 && K == Pow10(T - sd - 1)
    requires sticky <==> truncated || M % K != 0
    requires leftOdd <==> M / (10 * K) % 2 == 1
    ensures Target(rm, s, M, T, sd, truncated)
         == M / (10 * K) + if RoundUp(rm, s, M / K % 10, sticky, leftOdd) then 1 else 0
  {
    assert Pow10(T - sd) == 10 * K;
    hide Pow10, Rounded, RoundUp;
    if truncated {
      TruncatedRounding(rm, s, M, K, leftOdd, 2 * M + 1, 2);
    } else {
      ExactRounding(rm, s, M, K, leftOdd);
    }
  }

  /** The parity of the last digit kept, from the words. */
  lemma LeftParity(A: int, w: int, i: nat, prev: int)
    requires 0 <= w < BASE && i <= 6 && A >= 0 && (i == 0 ==> A % BASE == prev)
    ensures (A * Pow10(i) + w / Pow10(7 - i)) % 2 == if i > 0 then w / Pow10(7 - i) % 10 % 2 else prev % 10 % 2
  {
    hide Pow10;
    SmallPowers();
    if i > 0 {
      Pow10Add(1, i - 1);
      EvenPart(A, Pow10(i - 1), w / Pow10(7 - i));
    } else {
      DivIs(w, BASE, 0, w);
      BaseParity(A);
    }
  }

  lemma EvenPart(A: int, p: int, b: int)
    ensures (A * (10 * p) + b) % 2 == b % 10 % 2
  {
    assert A * (10 * p) == 2 * (5 * (A * p));
  }

  lemma BaseParity(A: int)
    requires A >= 0
    ensures A % 2 == A % BASE % 10 % 2
  {
    DivMod(A, BASE);
    RestParity(A / BASE, A % BASE);
  }

  lemma RestParity(q: int, r: int)
    ensures (q * BASE + r) % 2 == r % 10 % 2
  {
    var tens, ones := r / 10, r % 10;
    assert q * BASE + r == 2 * (5_000_000 * q + 5 * tens) + ones;
    EvenShift(5_000_000 * q + 5 * tens, ones);
  }

  lemma EvenShift(m: int, b: int)
    ensures (2 * m + b) % 2 == b % 2
  {}

  // ---- Cutting and carrying ----

  /** What is kept: the words before the cut, their value, and the unit of the last digit kept. */
  predicate Cut(d: seq<int>, r: seq<int>, at: nat, z: nat, q: int) {
    && AreWords(r) && |r| == at + 1 && |r| <= |d| && z <= 6
    && |d| > 0 && d[0] > 0 && r[0] > 0 && Digits(r[0]) == Digits(d[0])
    && Val(r) == q * Pow10(z) && r[at] % Pow10(z) == 0
  }

  method RemoveExcess(d: seq<int>, sd: int, xdi: nat, i: int, j: int, digits: nat)
    returns (r: seq<int>, at: nat, k: int, ghost z: nat)
    requires Place(d, sd, xdi, i, j, digits) && sd >= 1
    ensures Cut(d, r, at, z, Val(d[..xdi]) * Pow10(i) + d[xdi] / Pow10(7 - i)) && k == Pow10(z)
    ensures Figures(d) - sd == 7 * (|d| - |r|) + z
  {
    hide Pow10, Val, Cut;
    if i == 0 {
      r := d[..xdi];
      k := 1;
      at := xdi - 1;
      z := 0;
      CutWord(d, xdi);
    } else {
      k := Pow10(LOG_BASE - i);
      z := LOG_BASE - i;
      var w := d[xdi];
      var v := if j > 0 then ToInt32(w / Pow10(digits - j) % Pow10(j)) * k else 0;
      CutDigits(d, sd, xdi, i, j, digits, v);
      r := d[..xdi] + [v];
      at := xdi;
    }
  }

  lemma CutWord(d: seq<int>, xdi: nat)
    requires AreWords(d) && 0 < xdi < |d| && d[0] > 0
    ensures Cut(d, d[..xdi], xdi - 1, 0, Val(d[..xdi]) * Pow10(0) + d[xdi] / Pow10(7))
    ensures Pow10(0) == 1
  {
    hide Pow10, Val, Digits;
    SmallPowers();
    DivIs(d[xdi], BASE, 0, d[xdi]);
  }

  lemma CutDigits(d: seq<int>, sd: int, xdi: nat, i: int, j: int, digits: nat, v: int)
    requires Place(d, sd, xdi, i, j, digits) && i >= 1 && sd >= 1
    requires v == if j > 0 then ToInt32(d[xdi] / Pow10(digits - j) % Pow10(j)) * Pow10(7 - i) else 0
    ensures Cut(d, d[..xdi] + [v], xdi, 7 - i, Val(d[..xdi]) * Pow10(i) + d[xdi] / Pow10(7 - i))
  {
    hide Pow10, Val, Digits, BasePow;
    var w, k := d[xdi], Pow10(7 - i);
    KeptDigits(w, i, j, v);
    ValSnoc(d[..xdi], v);
    WordPowers(i);
    KeptValue(Val(d[..xdi]), Pow10(i), k, w / k);
    if xdi == 0 {
      FirstWordKept(d, sd, i, j, digits, w / k * k);
    }
    DivIs(w / k * k, k, w / k, 0);
  }

  lemma KeptValue(A: int, p: int, k: int, q: int)
    requires p * k == BASE
    ensures A * BASE + q * k == (A * p + q) * k
  {}

  lemma KeptDigits(w: int, i: int, j: int, v: int)
    requires 0 <= w < BASE && 1 <= i <= 6 && j == i - 7 + Digits(w)
    requires v == if j > 0 then ToInt32(w / Pow10(7 - i) % Pow10(j)) * Pow10(7 - i) else 0
    ensures v == w / Pow10(7 - i) * Pow10(7 - i) && 0 <= v <= w
  {
    hide Pow10, Digits;
    var k := Pow10(7 - i);
    DigitsBounds(w);
    DivMod(w, k);
    if j > 0 {
      Pow10Add(j, 7 - i);
      Pow10Monotone(1, 7 - i);
      SmallPowers();
      QuotientBelow(w, k, Pow10(j));
      DivIs(w / k, Pow10(j), 0, w / k);
    } else {
      Pow10Monotone(Digits(w), 7 - i);
      DivIs(w, k, 0, w);
    }
  }

  lemma QuotientBelow(w: int, k: int, p: int)
    requires 0 <= w < BASE && w < p * k && k >= 1
    ensures 0 <= w / k < p && w / k < BASE
  {}

  /** Keeping at least the first digit of a word keeps its length. */
  lemma FirstWordKept(d: seq<int>, sd: int, i: int, j: int, digits: nat, v: int)
    requires Place(d, sd, 0, i, j, digits) && i >= 1 && sd >= 1 && v == d[0] / Pow10(7 - i) * Pow10(7 - i)
    ensures v > 0 && Digits(v) == Digits(d[0])
  {
    hide Pow10, Digits, Val;
    var w, k, n := d[0], Pow10(7 - i), Digits(d[0]);
    assert j >= 1;
    DigitsBounds(w);
    DivMod(w, k);
    Pow10Add(j - 1, 7 - i);
    if w / k < Pow10(j - 1) { Steps(w / k + 1, Pow10(j - 1), k); }
    AtLeastTimes(Pow10(j - 1), w / k, k);
    DigitsAre(v, n);
  }

  /** A multiple of k below the base leaves room for one more k. */
  lemma RoomForUnit(w: int, z: nat)
    requires 0 <= w < BASE && z <= 6 && w % Pow10(z) == 0
    ensures w + Pow10(z) <= BASE && (w > 0 ==> Pow10(z) <= w)
  {
    hide Pow10;
    SmallPowers();
    var k := Pow10(z);
    Pow10Add(7 - z, z);
    DivMod(w, k);
    if w / k >= Pow10(7 - z) { AtLeastTimes(Pow10(7 - z), w / k, k); }
    Steps(w / k + 1, Pow10(7 - z), k);
    if w > 0 { FactorPositive(w / k, k); AtLeastTimes(1, w / k, k); }
  }

  lemma FactorPositive(a: int, k: int)
    requires k > 0 && a * k > 0
    ensures a >= 1
  {}

  /**
   * A unit added to the first word lengthens it by one digit at most, and past seven digits only to the base itself.
   */
  lemma FirstWordCarry(w: int, k: int)
    requires 0 < k <= w < BASE && w + k <= BASE
    ensures Digits(w + k) == Digits(w) || (Digits(w + k) == Digits(w) + 1 && (w + k == BASE <==> Digits(w) == 7))
  {
    hide Pow10, Digits;
    var n := Digits(w);
    WordDigits(w);
    DigitsBounds(w);
    SmallPowers();
    Pow10Add(1, n);
    if w + k < Pow10(n) {
      DigitsAre(w + k, n);
    } else {
      DigitsAre(w + k, n + 1);
      if w + k == BASE { DigitsAre(BASE, 8); }
    }
  }

  /** k is still to be added to word xdi; the words after it have become zero. */
  predicate Carrying(d0: seq<int>, d: seq<int>, xdi: nat, added: int, k: int) {
    && |d| == |d0| > xdi && AreWords(d) && d[..xdi + 1] == d0[..xdi + 1]
    && (forall j :: xdi < j < |d| ==> d[j] == 0)
    && Val(d) + k * BasePow(|d| - 1 - xdi) == Val(d0) + added
  }

  lemma CarryStarts(d: seq<int>, k: int)
    requires |d| > 0 && AreWords(d)
    ensures Carrying(d, d, |d| - 1, k, k)
  {}

  lemma CarryMoves(d0: seq<int>, d: seq<int>, xdi: nat, added: int, k: int)
    requires Carrying(d0, d, xdi, added, k) && xdi > 0 && d[xdi] + k == BASE
    ensures Carrying(d0, d[xdi := 0], xdi - 1, added, 1)
  {
    hide Val, BasePow;
    ValUpdate(d, xdi, 0);
    BasePowSucc(|d| - 1 - xdi);
    var p := BasePow(|d| - 1 - xdi);
    assert (0 - d[xdi]) * p == -(d[xdi] * p);
    assert (d[xdi] + k) * p == d[xdi] * p + k * p;
  }

  lemma CarryEnds(d0: seq<int>, d: seq<int>, xdi: nat, added: int, k: int)
    requires Carrying(d0, d, xdi, added, k) && 0 <= d[xdi] + k
    ensures Val(d[xdi := d[xdi] + k]) == Val(d0) + added
  {
    hide Val, BasePow;
    ValUpdate(d, xdi, d[xdi] + k);
  }

  method AddUnit(d0: seq<int>, e0: int, k0: int, ghost z: nat) returns (d: seq<int>, e: int)
    requires Aligned(d0, e0) && k0 == Pow10(z) && z <= 6 && d0[|d0| - 1] % Pow10(z) == 0
    ensures Aligned(d, e) && Denotes(d, e, Val(d0) + k0, Low(d0, e0))
  {
    hide Val, BasePow, Pow10, Digits, SameAmount, Carrying;
    d, e := d0, e0;
    var k, xdi := k0, |d0| - 1;
    ghost var y := z;
    CarryStarts(d0, k0);
    assert Pow10(0) == 1 by { SmallPowers(); }
    while true
      invariant 0 <= xdi < |d0| && Carrying(d0, d, xdi, k0, k) && e == e0
      invariant |d| == |d0| && AreWords(d) && d[..xdi + 1] == d0[..xdi + 1]
      invariant y <= 6 && k == Pow10(y) && d0[xdi] % Pow10(y) == 0
      decreases xdi
    {
      assert d[xdi] == d0[..xdi + 1][xdi];
      RoomForUnit(d[xdi], y);
      CarryEnds(d0, d, xdi, k0, k);
      if xdi == 0 {
        var i := Digits(d[0]);
        FirstWordCarry(d[0], k);
        CarriedFirst(d0, d, e0, k0, k);
        d := d[0 := d[0] + k];
        if i != Digits(d[0]) {
          e := e + 1;
          if d[0] == BASE {
            d := d[0 := 1];
          }
        }
        break;
      } else {
        if d[xdi] + k != BASE {
          CarriedInside(d0, d, e0, xdi, k0, k);
          d := d[xdi := d[xdi] + k];
          break;
        }
        CarryMoves(d0, d, xdi, k0, k);
        d := d[xdi := 0];
        xdi := xdi - 1;
        k := 1;
        y := 0;
        AnyMultipleOfOne(d0[xdi]);
        assert d[..xdi + 1] == d0[..xdi + 1] by { CarryKeeps(d0, d, xdi, k0, k); }
      }
    }
  }

  lemma AnyMultipleOfOne(w: int)
    ensures w % 1 == 0
  {}

  lemma CarryKeeps(d0: seq<int>, d: seq<int>, xdi: nat, added: int, k: int)
    requires Carrying(d0, d, xdi, added, k)
    ensures |d| == |d0| && d[..xdi + 1] == d0[..xdi + 1]
  {}

  lemma CarriedInside(d0: seq<int>, d: seq<int>, e: int, xdi: nat, added: int, k: int)
    requires Aligned(d0, e) && Carrying(d0, d, xdi, added, k) && xdi > 0 && 0 < k && d[xdi] + k < BASE
    ensures var r := d[xdi := d[xdi] + k];
      Aligned(r, e) && Denotes(r, e, Val(d0) + added, Low(d0, e))
  {
    hide Val, BasePow, Digits, Pow10;
    CarryEnds(d0, d, xdi, added, k);
    assert d[0] == d[..xdi + 1][0] == d0[..xdi + 1][0];
    SameItself(Val(d0) + added, Low(d0, e));
  }

  lemma CarriedFirst(d0: seq<int>, d: seq<int>, e: int, added: int, k: int)
    requires Aligned(d0, e) && Carrying(d0, d, 0, added, k) && d[0] == d0[0] && 0 < k <= d[0] && d[0] + k <= BASE
    ensures var w := d[0] + k;
      if Digits(w) == Digits(d[0]) then
        Aligned(d[0 := w], e) && Denotes(d[0 := w], e, Val(d0) + added, Low(d0, e))
      else if w < BASE then
        Aligned(d[0 := w], e + 1) && Denotes(d[0 := w], e + 1, Val(d0) + added, Low(d0, e))
      else
        Aligned(d[0 := w][0 := 1], e + 1) && Denotes(d[0 := w][0 := 1], e + 1, Val(d0) + added, Low(d0, e))
  {
    hide Val, BasePow, Digits, Pow10, SameAmount;
    var w := d[0] + k;
    CarryEnds(d0, d, 0, added, k);
    FirstWordCarry(d[0], k);
    WordDigits(d[0]);
    SameItself(Val(d0) + added, Low(d0, e));
    if w == BASE {
      BaseDigits();
      OneWordUp(d, w);
      assert d[0 := w][0 := 1] == d[0 := 1];
      SameScaled(Val(d[0 := 1]), Low(d0, e), 7);
    } else {
      WordDigits(w);
    }
  }

  lemma BaseDigits()
    ensures Digits(BASE) == 8 && Digits(1) == 1 && Pow10(7) == BASE
  {
    SmallPowers();
    DigitsAre(BASE, 8);
  }

  /** When the first word overflows the rest is zero. */
  lemma OneWordUp(d: seq<int>, w: int)
    requires |d| > 0 && w == BASE && forall j :: 0 < j < |d| ==> d[j] == 0
    ensures Val(d[0 := w]) == Val(d[0 := 1]) * BASE
  {
    hide Val, BasePow;
    ValCons(d[0 := w]);
    ValCons(d[0 := 1]);
    ValZeros(d[0 := w][1..]);
    ValZeros(d[0 := 1][1..]);
  }

  // ---- Rounding to sd digits ----

  /** The flag for anything after the first dropped digit. */
  predicate Sticky(d: seq<int>, isTruncated: bool, sd: int, xdi: nat, digits: nat, j: int)
    requires xdi < |d| && d[xdi] >= 0 && (j >= 0 ==> digits - j - 1 >= 0)
  {
    isTruncated || sd < 0 || xdi + 1 < |d| || (if j < 0 then d[xdi] else d[xdi] % Pow10(digits - j - 1)) != 0
  }

  /** Whether the digit before the first dropped one is odd. */
  predicate LeftOdd(d: seq<int>, xdi: nat, digits: nat, i: int, j: int)
    requires xdi < |d| && d[xdi] >= 0 && (j >= 0 ==> digits - j >= 0)
  {
    if i > 0 then j > 0 && d[xdi] / Pow10(digits - j) % 10 % 2 == 1
    else xdi > 0 && d[xdi - 1] % 10 % 2 == 1
  }

  lemma StickyIs(d: seq<int>, isTruncated: bool, sd: int, xdi: nat, i: int, j: int, digits: nat)
    requires Place(d, sd, xdi, i, j, digits) && sd >= 1 && (isTruncated || d[|d| - 1] > 0)
    ensures Sticky(d, isTruncated, sd, xdi, digits, j)
       <==> isTruncated || Val(d) % Pow10(7 * (|d| - 1 - xdi) + 6 - i) != 0
  {
    hide Val, Pow10, Digits;
    DigitPlace(d, xdi, i);
    if j < 0 { LeadingZeroDigit(d[xdi], i); }
    if !isTruncated { TailPositive(d, xdi + 1); }
  }

  lemma TailPositive(d: seq<int>, n: nat)
    requires AreWords(d) && n <= |d| && |d| > 0 && d[|d| - 1] > 0
    ensures Val(d[n..]) != 0 <==> n < |d|
  {}

  lemma LeftOddIs(d: seq<int>, sd: int, xdi: nat, i: int, j: int, digits: nat)
    requires Place(d, sd, xdi, i, j, digits) && sd >= 1
    ensures LeftOdd(d, xdi, digits, i, j)
       <==> (Val(d[..xdi]) * Pow10(i) + d[xdi] / Pow10(7 - i)) % 2 == 1
  {
    hide Val, Pow10, Digits;
    var w := d[xdi];
    ValBounds(d[..xdi]);
    if i > 0 {
      LeftParity(Val(d[..xdi]), w, i, 0);
      if j <= 0 { NoKeptDigit(w, i); }
    } else {
      LastWord(d[..xdi]);
      LeftParity(Val(d[..xdi]), w, i, d[xdi - 1]);
    }
  }

  lemma NoKeptDigit(w: nat, i: nat)
    requires i <= 6 && i - 7 + Digits(w) <= 0
    ensures w / Pow10(7 - i) == 0
  {
    hide Pow10, Digits;
    DigitsBounds(w);
    Pow10Monotone(Digits(w), 7 - i);
  }

  /** Zeros pushed past the end do not change what is to be computed. */
  lemma PaddedTarget(rm: int, s: int, M: nat, T: nat, sd: int, n: nat)
    requires 0 <= rm <= 8 && T <= sd < T + n
    ensures Target(rm, s, M * Pow10(n), T + n, sd, true) == Target(rm, s, M, T, sd, true)
  {
    hide Pow10, Target;
    var D := T + n - sd;
    PowerOver(M, sd - T, D);
    PaddedDecision(rm, s, M * Pow10(n), T + n, sd, M * Pow10(sd - T));
    ShortTarget(rm, s, M, T, sd);
  }

  lemma ShortTarget(rm: int, s: int, M: nat, T: nat, sd: int)
    requires 0 <= rm <= 8 && T <= sd
    ensures Target(rm, s, M, T, sd, true)
         == M * Pow10(sd - T) + if RoundUp(rm, s, 0, true, M * Pow10(sd - T) % 2 == 1) then 1 else 0
  {}

  lemma PaddedDecision(rm: int, s: int, N: nat, T: nat, sd: int, q: nat)
    requires 0 <= rm <= 8 && T > sd && N == q * Pow10(T - sd)
    ensures Target(rm, s, N, T, sd, true) == q + if RoundUp(rm, s, 0, true, q % 2 == 1) then 1 else 0
  {
    hide Pow10, RoundUp, Target;
    var K := Pow10(T - sd - 1);
    Pow10Add(1, T - sd - 1);
    SmallPowers();
    TenTimes(q, K);
    DivIs(N, K, q * 10, 0);
    DivIs(N, 10 * K, q, 0);
    Decision(rm, s, N, T, sd, true, K, true, q % 2 == 1);
  }

  lemma TenTimes(q: int, K: int)
    ensures q * (10 * K) == (q * 10) * K + 0 && (q * 10) % 10 == 0
  {}

  /** The words RoundingDigit returns have the target of the words it was given. */
  lemma SameTarget(rm: int, s: int, d0: seq<int>, d: seq<int>, sd: int)
    requires 0 <= rm <= 8 && AreWords(d0) && |d0| > 0 && d0[0] > 0 && |d| >= |d0| && d == d0 + Zeros(|d| - |d0|)
    requires |d| > |d0| ==> Figures(d0) <= sd < Figures(d)
    ensures Val(d0) >= 0 && Val(d) >= 0
    ensures Target(rm, s, Val(d), Figures(d), sd, true) == Target(rm, s, Val(d0), Figures(d0), sd, true)
  {
    hide Val, Pow10, Target, Digits;
    ValBounds(d0);
    ValBounds(d);
    ZeroTail(d0, |d| - |d0|);
    if |d| == |d0| {
      assert d == d0;
    } else {
      PaddedTarget(rm, s, Val(d0), Figures(d0), sd, 7 * (|d| - |d0|));
    }
  }

  /** The decision taken from the words is the one the target asks for. */
  lemma DecisionAtPlace(rm: int, s: int, d: seq<int>, isTruncated: bool, sd: int, xdi: nat, i: int, j: int, digits: nat,
                        rd: int)
    requires Place(d, sd, xdi, i, j, digits) && sd >= 1 && (isTruncated || d[|d| - 1] > 0) && 0 <= rm <= 8
    requires rd == d[xdi] / Pow10(6 - i) % 10
    ensures Val(d) >= 0
    ensures Target(rm, s, Val(d), Figures(d), sd, isTruncated)
         == Val(d[..xdi]) * Pow10(i) + d[xdi] / Pow10(7 - i)
            + if RoundUp(rm, s, rd, Sticky(d, isTruncated, sd, xdi, digits, j), LeftOdd(d, xdi, digits, i, j)) then 1
                else 0
  {
    hide Val, Pow10, Digits, RoundUp, Target, Sticky, LeftOdd;
    ValBounds(d);
    DigitPlace(d, xdi, i);
    StickyIs(d, isTruncated, sd, xdi, i, j, digits);
    LeftOddIs(d, sd, xdi, i, j, digits);
    Decision(rm, s, Val(d), Figures(d), sd, isTruncated, Pow10(7 * (|d| - 1 - xdi) + 6 - i),
             Sticky(d, isTruncated, sd, xdi, digits, j), LeftOdd(d, xdi, digits, i, j));
  }

  /** The words kept are worth their units. */
  lemma CutDenotes(d: seq<int>, e: int, sd: int, r: seq<int>, at: nat, z: nat, q: int)
    requires Aligned(d, e) && Cut(d, r, at, z, q) && Figures(d) - sd == 7 * (|d| - |r|) + z
    ensures Aligned(r, e) && Denotes(r, e, q, e + 1 - sd) && e + 1 - sd == Low(r, e) + z
  {}

  lemma UnitAdded(r: seq<int>, e: int, z: nat, q: int, d: seq<int>, e': int)
    requires Val(r) == q * Pow10(z) && Denotes(d, e', Val(r) + Pow10(z), Low(r, e))
    ensures Denotes(d, e', q + 1, Low(r, e) + z)
  {
    hide Val, Pow10, SameAmount;
    assert (q + 1) * Pow10(z) == Val(r) + Pow10(z);
    SameScaled(q + 1, Low(r, e), z);
    SameSymmetric(q + 1, Low(r, e) + z, Val(r) + Pow10(z), Low(r, e));
    SameTransitive(Val(d), Low(d, e'), Val(r) + Pow10(z), Low(r, e), q + 1, Low(r, e) + z);
  }

  method RemoveTrailingZeros(d0: seq<int>, e: int, ghost v: int, ghost u: int) returns (d: seq<int>)
    requires Aligned(d0, e) && Denotes(d0, e, v, u)
    ensures Canonical(d, e) && Denotes(d, e, v, u)
  {
    hide Val, Digits, SameAmount;
    d := d0;
    while d[|d| - 1] == 0
      invariant Aligned(d, e) && Denotes(d, e, v, u)
      decreases |d|
    {
      PopZero(d, e, v, u);
      d := d[..|d| - 1];
    }
  }

  lemma PopZero(d: seq<int>, e: int, v: int, u: int)
    requires Aligned(d, e) && Denotes(d, e, v, u) && d[|d| - 1] == 0
    ensures |d| > 1 && Aligned(d[..|d| - 1], e) && Denotes(d[..|d| - 1], e, v, u)
  {
    hide Val, Digits, SameAmount, Pow10;
    var c := d[..|d| - 1];
    assert d == c + [0];
    ValSnoc(c, 0);
    SmallPowers();
    SameScaled(Val(c), Low(d, e), 7);
    SameTransitive(Val(c), Low(c, e), Val(d), Low(d, e), v, u);
  }

  method RoundKept(s: int, e0: int, d0: seq<int>, sd: int, rm: int, isTruncated: bool) returns (d: seq<int>, e: int)
    requires Aligned(d0, e0) && (isTruncated || d0[|d0| - 1] > 0) && 0 <= rm <= 8 && sd >= 1
    ensures Val(d0) >= 0 && Canonical(d, e)
    ensures Denotes(d, e, Target(rm, s, Val(d0), Figures(d0), sd, isTruncated), e0 + 1 - sd)
  {
    hide Val, Digits, SameAmount, Pow10, Target, RoundUp, Sticky, LeftOdd, Cut;
    ValBounds(d0);
    ghost var v := Target(rm, s, Val(d0), Figures(d0), sd, isTruncated);
    var xdi, i, j, digits, rd, keep;
    d, xdi, i, j, digits, rd, keep := RoundingDigit(d0, sd, isTruncated);
    e := e0;
    if keep {
      d := d0;
      KeptWhole(rm, s, d0, e0, sd);
      return;
    }
    assert |d| > |d0| ==> isTruncated && Figures(d0) <= sd < Figures(d);
    if isTruncated { SameTarget(rm, s, d0, d, sd); } else { assert d == d0; }
    DecisionAtPlace(rm, s, d, isTruncated, sd, xdi, i, j, digits, rd);
    var up := RoundUp(rm, s, rd, Sticky(d, isTruncated, sd, xdi, digits, j), LeftOdd(d, xdi, digits, i, j));
    ghost var q, was := Val(d[..xdi]) * Pow10(i) + d[xdi] / Pow10(7 - i), d;
    var at, k;
    ghost var z;
    d, at, k, z := RemoveExcess(d, sd, xdi, i, j, digits);
    CutDenotes(was, e0, sd, d, at, z, q);
    CutIs(was, d, at, z, q);
    if up {
      ghost var r := d;
      d, e := AddUnit(d, e, k, z);
      UnitAdded(r, e0, z, q, d, e);
    }
    d := RemoveTrailingZeros(d, e, v, e0 + 1 - sd);
  }

  lemma CutIs(d: seq<int>, r: seq<int>, at: nat, z: nat, q: int)
    requires Cut(d, r, at, z, q)
    ensures |r| == at + 1 && z <= 6 && Val(r) == q * Pow10(z) && r[|r| - 1] % Pow10(z) == 0
  {}

  /** With no more than sd digits there is nothing to drop. */
  lemma KeptWhole(rm: int, s: int, d: seq<int>, e: int, sd: int)
    requires Canonical(d, e) && sd >= Figures(d)
    ensures Val(d) >= 0 && Denotes(d, e, Target(rm, s, Val(d), Figures(d), sd, false), e + 1 - sd)
  {
    hide Val, Digits, Pow10;
    ValBounds(d);
    LowIs(d, e);
  }
}
