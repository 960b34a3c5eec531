/** Numbers as big-endian arrays of base 10^7 words, the digit arrays of a Decimal. */
module Words {
  const BASE: int := 10_000_000
  const LOG_BASE: int := 7

  // ---- JavaScript numbers ----

  /** An integer that a JavaScript number holds exactly. */
  function Safe(n: int): (r: int)
    requires -0x20_0000_0000_0000 <= n <= 0x20_0000_0000_0000
    ensures r == n
  {
    n
  }

  /** `n | 0`: the low 32 bits, read as a signed integer. */
  function ToInt32(n: int): (r: int)
    ensures -0x8000_0000 <= n < 0x8000_0000 ==> r == n
    ensures -0x8000_0000 <= r < 0x8000_0000
  {
    (n + 0x8000_0000) % 0x1_0000_0000 - 0x8000_0000
  }

  // ---- Powers ----

  function Pow10(n: nat): (r: nat)
    ensures r > 0
  {
    if n == 0 then 1 else 10 * Pow10(n - 1)
  }

  function BasePow(n: nat): (r: nat)
    ensures r > 0
  {
    if n == 0 then 1 else BASE * BasePow(n - 1)
  }

  lemma {:induction false} Pow10Add(a: nat, b: nat)
    ensures Pow10(a + b) == Pow10(a) * Pow10(b)
  {
    if a > 0 {
      Pow10Add(a - 1, b);
      assert 10 * (Pow10(a - 1) * Pow10(b)) == (10 * Pow10(a - 1)) * Pow10(b);
    }
  }

  lemma {:induction false} Pow10Less(a: nat, b: nat)
    requires a < b
    ensures Pow10(a) < Pow10(b)
  {
    if a + 1 < b {
      Pow10Less(a, b - 1);
    }
  }

  lemma Pow10Monotone(a: nat, b: nat)
    requires a <= b
    ensures Pow10(a) <= Pow10(b)
  {}

  lemma SmallPowers()
    ensures Pow10(0) == 1 && Pow10(1) == 10 && Pow10(2) == 100 && Pow10(3) == 1000
    ensures Pow10(4) == 10_000 && Pow10(5) == 100_000 && Pow10(6) == 1_000_000 && Pow10(7) == BASE
  {}

  lemma {:induction false} BasePowIs(n: nat)
    ensures BasePow(n) == Pow10(7 * n)
  {
    hide Pow10;
    SmallPowers();
    if n > 0 {
      BasePowIs(n - 1);
      Pow10Add(7, 7 * (n - 1));
    }
  }

  lemma {:induction false} BasePowAdd(a: nat, b: nat)
    ensures BasePow(a + b) == BasePow(a) * BasePow(b)
  {
    if a > 0 {
      BasePowAdd(a - 1, b);
      assert BASE * (BasePow(a - 1) * BasePow(b)) == (BASE * BasePow(a - 1)) * BasePow(b);
    }
  }

  // ---- Digit arrays ----

  predicate AreWords(d: seq<int>) {
    forall i :: 0 <= i < |d| ==> 0 <= d[i] < BASE
  }

  /** The integer whose base 10^7 digits, most significant first, are d. */
  function Val(d: seq<int>): int {
    if |d| == 0 then 0 else Val(d[..|d| - 1]) * BASE + d[|d| - 1]
  }

  lemma ValEmpty()
    ensures Val([]) == 0
  {}

  lemma ValSingle(w: int)
    ensures Val([w]) == w
  {}

  lemma ValSnoc(d: seq<int>, w: int)
    ensures Val(d + [w]) == Val(d) * BASE + w
  {}

  lemma {:induction false} ValConcat(a: seq<int>, b: seq<int>)
    ensures Val(a + b) == Val(a) * BasePow(|b|) + Val(b)
  {
    if |b| == 0 {
      assert a + b == a;
    } else {
      var c := b[..|b| - 1];
      assert a + b == (a + c) + [b[|b| - 1]];
      ValSnoc(a + c, b[|b| - 1]);
      ValConcat(a, c);
      Regroup(Val(a), BasePow(|c|), Val(c));
    }
  }

  lemma Regroup(a: int, p: int, c: int)
    ensures (a * p + c) * BASE == a * (BASE * p) + c * BASE
  {}

  lemma ValCons(d: seq<int>)
    requires |d| > 0
    ensures Val(d) == d[0] * BasePow(|d| - 1) + Val(d[1..])
  {
    hide Val, BasePow;
    assert d == [d[0]] + d[1..];
    ValConcat([d[0]], d[1..]);
    ValSingle(d[0]);
  }

  lemma {:induction false} ValBounds(d: seq<int>)
    requires AreWords(d)
    ensures 0 <= Val(d) < BasePow(|d|)
  {
    if |d| > 0 {
      ValBounds(d[..|d| - 1]);
    }
  }

  lemma {:induction false} ValZeros(d: seq<int>)
    requires forall i :: 0 <= i < |d| ==> d[i] == 0
    ensures Val(d) == 0
  {
    if |d| > 0 {
      ValZeros(d[..|d| - 1]);
    }
  }

  lemma LastWord(d: seq<int>)
    requires AreWords(d) && |d| > 0
    ensures Val(d) % BASE == d[|d| - 1]
  {
    var front := Val(d[..|d| - 1]);
    WordModulo(front, d[|d| - 1]);
  }

  lemma WordModulo(v: int, w: int)
    requires 0 <= w < BASE
    ensures (v * BASE + w) % BASE == w
  {}

  /** A word in front of the others outweighs all of them. */
  lemma ValLead(d: seq<int>)
    requires AreWords(d) && |d| > 0
    ensures d[0] * BasePow(|d| - 1) <= Val(d) < (d[0] + 1) * BasePow(|d| - 1)
  {
    hide Val, BasePow;
    ValCons(d);
    ValBounds(d[1..]);
  }

  lemma ValPositive(d: seq<int>)
    requires AreWords(d) && |d| > 0 && d[0] > 0
    ensures Val(d) >= BasePow(|d| - 1)
  {}

  lemma BasePowMonotone(a: nat, b: nat)
    requires a <= b
    ensures BasePow(a) <= BasePow(b)
  {}

  // ---- Decimal digits of a word ----

  /** The number of decimal digits of w, counting one for zero. */
  function Digits(w: nat): (n: nat)
    ensures n >= 1
  {
    if w < 10 then 1 else 1 + Digits(w / 10)
  }

  lemma {:induction false} DigitsBounds(w: nat)
    ensures w < Pow10(Digits(w))
    ensures if w > 0 then Pow10(Digits(w) - 1) <= w else Digits(w) == 1
  {
    if w >= 10 {
      DigitsBounds(w / 10);
    }
  }

  lemma DigitsAre(w: nat, n: nat)
    requires n >= 1 && Pow10(n - 1) <= w < Pow10(n)
    ensures Digits(w) == n
  {
    hide Pow10, Digits;
    DigitsBounds(w);
    if Digits(w) < n {
      Pow10Monotone(Digits(w), n - 1);
    } else if n < Digits(w) {
      Pow10Monotone(n, Digits(w) - 1);
    }
  }

  lemma WordDigits(w: nat)
    requires w < BASE
    ensures Digits(w) <= 7
  {
    hide Pow10, Digits;
    SmallPowers();
    DigitsBounds(w);
    if Digits(w) > 7 {
      Pow10Monotone(7, Digits(w) - 1);
    }
  }
}
