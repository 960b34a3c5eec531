/** Decimals as text: `digitsToString`, `finiteToString`, `parseDecimal`, and what reading undoes of writing. */
module DecimalText {
  import opened Words
  import opened LongDivision
  import opened Rounding
  import opened Amounts
  import opened Decimals
  import opened Results

  // ---- Digit strings ----

  predicate IsDigit(c: char) {
    '0' <= c <= '9'
  }

  predicate AllDigits(s: string) {
    forall i :: 0 <= i < |s| ==> IsDigit(s[i])
  }

  function DigitOf(c: char): (r: int)
    requires IsDigit(c)
    ensures 0 <= r <= 9 && (r == 0 <==> c == '0')
  {
    c as int - '0' as int
  }

  function DigitChar(n: nat): (c: char)
    requires n <= 9
    ensures IsDigit(c) && DigitOf(c) == n
  {
    ('0' as int + n) as char
  }

  const DIGITS: string := "0123456789"

  /** A digit stands for its place among the ten. */
  lemma DigitsInOrder(c: char)
    ensures IsDigit(c) <==> c in DIGITS
    ensures IsDigit(c) ==> DIGITS[DigitOf(c)] == c
  {}

  /** The number that a string of decimal digits writes. */
  function StrVal(s: string): (r: nat)
    requires AllDigits(s)
  {
    if |s| == 0 then 0 else StrVal(s[..|s| - 1]) * 10 + DigitOf(s[|s| - 1])
  }

  lemma StrSnoc(s: string, c: char)
    requires AllDigits(s) && IsDigit(c)
    ensures AllDigits(s + [c]) && StrVal(s + [c]) == StrVal(s) * 10 + DigitOf(c)
  {}

  lemma {:induction false} StrConcat(a: string, b: string)
    requires AllDigits(a) && AllDigits(b)
    ensures AllDigits(a + b) && StrVal(a + b) == StrVal(a) * Pow10(|b|) + StrVal(b)
  {
    if |b| == 0 {
      assert a + b == a;
    } else {
      var c := b[..|b| - 1];
      assert a + b == (a + c) + [b[|b| - 1]];
      StrConcat(a, c);
      StrSnoc(a + c, b[|b| - 1]);
      TenRegroup(StrVal(a), Pow10(|c|), StrVal(c));
    }
  }

  lemma TenRegroup(a: int, p: int, c: int)
    ensures (a * p + c) * 10 == a * (10 * p) + c * 10
  {}

  lemma {:induction false} StrBounds(s: string)
    requires AllDigits(s)
    ensures StrVal(s) < Pow10(|s|)
    ensures |s| > 0 && s[0] != '0' ==> StrVal(s) >= Pow10(|s| - 1)
  {
    if |s| > 1 {
      StrBounds(s[..|s| - 1]);
    } else if |s| == 1 {
      assert s[..0] == "";
    }
  }

  lemma StrPositive(s: string)
    requires AllDigits(s) && |s| > 0 && s[|s| - 1] != '0'
    ensures StrVal(s) > 0
  {}

  /** The string of n zeros. */
  function ZeroString(n: nat): (s: string)
    ensures |s| == n && AllDigits(s) && forall i :: 0 <= i < n ==> s[i] == '0'
  {
    seq(n, i => '0')
  }

  lemma {:induction false} StrZeros(s: string)
    requires forall i :: 0 <= i < |s| ==> s[i] == '0'
    ensures AllDigits(s) && StrVal(s) == 0
  {
    if |s| > 0 {
      StrZeros(s[..|s| - 1]);
    }
  }

  /** Zeros in front do not count, and each zero behind is a factor of ten. */
  lemma StrPadded(a: string, s: string, b: string)
    requires AllDigits(s) && (forall i :: 0 <= i < |a| ==> a[i] == '0') && (forall i :: 0 <= i < |b| ==> b[i] == '0')
    ensures AllDigits(a + s + b) && StrVal(a + s + b) == StrVal(s) * Pow10(|b|)
  {
    hide StrVal, Pow10;
    StrZeros(a);
    StrZeros(b);
    StrConcat(a, s);
    StrConcat(a + s, b);
  }

  /** A number as decimal digits, without leading zeros. */
  function NatText(n: nat): string {
    if n < 10 then [DigitChar(n)] else NatText(n / 10) + [DigitChar(n % 10)]
  }

  lemma {:induction false} NatTextIs(n: nat)
    ensures AllDigits(NatText(n)) && StrVal(NatText(n)) == n && |NatText(n)| == Digits(n)
    ensures n > 0 ==> NatText(n)[0] != '0'
  {
    if n < 10 {
      assert NatText(n)[..0] == "";
    } else {
      NatTextIs(n / 10);
      StrSnoc(NatText(n / 10), DigitChar(n % 10));
    }
  }

  // ---- digitsToString ----

  /** Words with a first and a last one that are not zero. */
  predicate Trimmed(d: seq<int>) {
    |d| > 0 && AreWords(d) && d[0] > 0 && d[|d| - 1] > 0
  }

  /** getZeroString */
  method GetZeroString(k: nat) returns (zs: string)
    ensures zs == ZeroString(k)
  {
    zs := "";
    var i := k;
    while i > 0
      invariant 0 <= i <= k && zs == ZeroString(k - i)
    {
      zs := zs + "0";
      i := i - 1;
    }
  }

  /** The digits of words i.., each in seven places, after those before them. */
  ghost predicate WordsWritten(d: seq<int>, str: string, i: nat) {
    && 0 < i <= |d| && AllDigits(str) && |str| > 0 && str[0] != '0' && d[0] > 0
    && StrVal(str) == Val(d[..i]) && |str| == 7 * (i - 1) + Digits(d[0])
  }

  lemma WordWritten(d: seq<int>, str: string, i: nat, zs: string, ws: string)
    requires AreWords(d) && WordsWritten(d, str, i) && i < |d|
    requires ws == NatText(d[i]) && |ws| <= 7 && zs == ZeroString(7 - |ws|)
    ensures WordsWritten(d, str + zs + ws, i + 1)
  {
    hide Val, StrVal, NatText, Digits, Pow10;
    NatTextIs(d[i]);
    StrZeros(zs);
    StrConcat(zs, ws);
    StrConcat(str, zs + ws);
    assert str + zs + ws == str + (zs + ws);
    assert d[..i + 1] == d[..i] + [d[i]];
    ValSnoc(d[..i], d[i]);
    SmallPowers();
  }

  /** The digits of d without trailing zeros. */
  ghost predicate DigitsWritten(d: seq<int>, str: string) {
    && |d| > 0 && d[0] >= 0
    && AllDigits(str) && 0 < |str| <= Figures(d) && str[0] != '0' && str[|str| - 1] != '0'
    && StrVal(str) * Pow10(Figures(d) - |str|) == Val(d)
  }

  /** The last word without its trailing zeros, after the others. */
  lemma LastWordWritten(d: seq<int>, str: string, zs: string, w: nat, z: nat)
    requires Trimmed(d) && |d| > 1 && WordsWritten(d, str, |d| - 1)
    requires w > 0 && w % 10 != 0 && w * Pow10(z) == d[|d| - 1]
    requires Digits(d[|d| - 1]) <= 7 && zs == ZeroString(7 - Digits(d[|d| - 1])) && Digits(d[|d| - 1]) == Digits(w) + z
    ensures DigitsWritten(d, str + zs + NatText(w))
  {
    hide Val, StrVal, NatText, Digits, Pow10;
    var n := |d| - 1;
    var ws := NatText(w);
    NatTextIs(w);
    StrZeros(zs);
    StrConcat(zs, ws);
    StrConcat(str, zs + ws);
    assert str + zs + ws == str + (zs + ws);
    assert d == d[..n] + [d[n]];
    ValSnoc(d[..n], d[n]);
    Pow10Add(7 - z, z);
    SmallPowers();
    LastDigitKept(w);
    WordDigits(d[n]);
    JoinWords(Val(d[..n]), Pow10(7 - z), w, Pow10(z));
  }

  lemma JoinWords(v: int, p: int, w: int, q: int)
    ensures (v * p + w) * q == v * (p * q) + w * q
  {}

  lemma LastDigitKept(w: nat)
    requires w % 10 != 0
    ensures |NatText(w)| > 0 && NatText(w)[|NatText(w)| - 1] != '0'
  {}

  method DigitsToString(d: seq<int>) returns (str: string)
    requires Trimmed(d) || d == [0]
    ensures if d == [0] then str == "0" else DigitsWritten(d, str)
  {
    hide Val, StrVal, NatText, Digits, Pow10, WordsWritten, DigitsWritten;
    var last := |d| - 1;
    var w := d[0];
    str := "";
    if last > 0 {
      str := NatText(w);
      FirstWordWritten(d);
      var i := 1;
      while i < last
        invariant 1 <= i <= last && WordsWritten(d, str, i)
      {
        var ws := NatText(d[i]);
        NatTextIs(d[i]);
        WordDigits(d[i]);
        var zs := GetZeroString(LOG_BASE - |ws|);
        WordWritten(d, str, i, zs, ws);
        str := str + zs + ws;
        i := i + 1;
      }
      w := d[i];
      NatTextIs(w);
      WordDigits(w);
      var zs := GetZeroString(LOG_BASE - |NatText(w)|);
      var front := str;
      str := str + zs;
      var v, z := RemoveZeros(w);
      LastWordWritten(d, front, zs, v, z);
      w := v;
    } else {
      if w == 0 {
        return "0";
      }
      var v, z := RemoveZeros(w);
      OnlyWordWritten(d, v, z);
      assert "" + NatText(v) == NatText(v);
      w := v;
    }
    str := str + NatText(w);
  }

  lemma FirstWordWritten(d: seq<int>)
    requires AreWords(d) && |d| > 0 && d[0] > 0
    ensures WordsWritten(d, NatText(d[0]), 1)
  {
    hide StrVal, NatText, Digits, Pow10, Val;
    NatTextIs(d[0]);
    assert d[..1] == [d[0]];
    ValSingle(d[0]);
  }

  lemma OnlyWordWritten(d: seq<int>, w: nat, z: nat)
    requires AreWords(d) && |d| == 1 && d[0] > 0
    requires w > 0 && w % 10 != 0 && w * Pow10(z) == d[0] && Digits(d[0]) == Digits(w) + z
    ensures DigitsWritten(d, NatText(w))
  {
    hide StrVal, NatText, Digits, Pow10, Val;
    NatTextIs(w);
    LastDigitKept(w);
    assert d == [d[0]];
    ValSingle(d[0]);
  }

  /** Removes the trailing zeros of a word. */
  method RemoveZeros(w0: nat) returns (w: nat, ghost z: nat)
    requires w0 > 0
    ensures w > 0 && w % 10 != 0 && w * Pow10(z) == w0 && Digits(w0) == Digits(w) + z
  {
    hide Pow10, Digits;
    SmallPowers();
    w, z := w0, 0;
    while w % 10 == 0
      invariant w > 0 && w * Pow10(z) == w0 && Digits(w0) == Digits(w) + z
      decreases w
    {
      TenthOf(w, z);
      w := w / 10;
      z := z + 1;
    }
  }

  lemma TenthOf(w: nat, z: nat)
    requires w > 0 && w % 10 == 0
    ensures w / 10 > 0 && w / 10 < w && w / 10 * Pow10(z + 1) == w * Pow10(z) && Digits(w) == Digits(w / 10) + 1
  {}

  // ---- Decimal literals ----

  /** The exponent part of a literal: its letter, its sign, which may be missing, and its digits. */
  datatype Exponent = Exponent(letter: char, sign: string, digits: string)

  /** Digits, perhaps a point, digits, and perhaps an exponent. */
  datatype Literal = Literal(whole: string, point: bool, frac: string, exp: Option<Exponent>)

  predicate WellFormed(l: Literal) {
    && AllDigits(l.whole) && AllDigits(l.frac) && |l.whole| + |l.frac| > 0 && (l.frac != "" ==> l.point)
    && (l.exp.Some? ==>
          var x := l.exp.value;
          && (x.letter == 'e' || x.letter == 'E') && (x.sign == "" || x.sign == "+" || x.sign == "-")
          && AllDigits(x.digits) && |x.digits| > 0)
  }

  function ExpText(exp: Option<Exponent>): string {
    if exp.None? then "" else [exp.value.letter] + exp.value.sign + exp.value.digits
  }

  function Text(l: Literal): string {
    l.whole + (if l.point then "." else "") + l.frac + ExpText(l.exp)
  }

  function ExpOf(exp: Option<Exponent>): int
    requires exp.Some? ==> AllDigits(exp.value.digits)
  {
    if exp.None? then 0 else if exp.value.sign == "-" then 0 - StrVal(exp.value.digits) else StrVal(exp.value.digits)
  }

  lemma DigitsTogether(l: Literal)
    requires WellFormed(l)
    ensures AllDigits(l.whole + l.frac)
  {}

  /** A literal is Mantissa(l) units of 10^Scale(l). */
  function Mantissa(l: Literal): nat
    requires WellFormed(l)
  {
    DigitsTogether(l);
    StrVal(l.whole + l.frac)
  }

  function Scale(l: Literal): int
    requires WellFormed(l)
  {
    ExpOf(l.exp) - |l.frac|
  }

  // ---- finiteToString ----

  /** The literal l writes the number with the digits d and the exponent e. */
  ghost predicate Writes(l: Literal, d: seq<int>, e: int) {
    WellFormed(l) && SameAmount(Mantissa(l), Scale(l), Val(d), Low(d, e))
  }

  /** m, one digit of it before the point, times 10^e, is the number. */
  ghost predicate Significand(m: string, d: seq<int>, e: int) {
    AllDigits(m) && |m| > 0 && SameAmount(StrVal(m), e + 1 - |m|, Val(d), Low(d, e))
  }

  lemma SignificandIs(m: string, d: seq<int>, e: int)
    requires if d == [0] then m == "0" && e == 0 else Canonical(d, e) && DigitsWritten(d, m)
    ensures Significand(m, d, e)
  {}

  /** Zeros around the significand do not change what is written, when the scale makes up for those behind. */
  lemma LiteralWrites(l: Literal, m: string, a: nat, b: nat, d: seq<int>, e: int)
    requires WellFormed(l) && Significand(m, d, e)
    requires l.whole + l.frac == ZeroString(a) + m + ZeroString(b) && Scale(l) == e + 1 - |m| - b
    ensures Writes(l, d, e)
  {
    hide Val, StrVal, SameAmount, Pow10;
    StrPadded(ZeroString(a), m, ZeroString(b));
    SameScaled(StrVal(m), Scale(l), b);
    SameSymmetric(StrVal(m), Scale(l) + b, Mantissa(l), Scale(l));
    SameTransitive(Mantissa(l), Scale(l), StrVal(m), e + 1 - |m|, Val(d), Low(d, e));
  }

  lemma ExponentWritten(e: int)
    ensures var x := Exponent('e', if e < 0 then "-" else "+", NatText(if e < 0 then -e else e));
      AllDigits(x.digits) && |x.digits| > 0 && ExpOf(Some(x)) == e
  {
    hide StrVal, NatText, Digits;
    NatTextIs(if e < 0 then -e else e);
  }

  /** Scientific notation: one digit before the point, and an exponent. */
  lemma ScientificWrites(m: string, k: nat, d: seq<int>, e: int)
    requires Significand(m, d, e)
    ensures var x := Exponent('e', if e < 0 then "-" else "+", NatText(if e < 0 then -e else e));
      Writes(Literal(m[..1], |m| > 1 || k > 0, m[1..] + ZeroString(k), Some(x)), d, e)
  {
    hide Val, StrVal, NatText, SameAmount, ExpOf;
    ExponentWritten(e);
    var x := Exponent('e', if e < 0 then "-" else "+", NatText(if e < 0 then -e else e));
    var l := Literal(m[..1], |m| > 1 || k > 0, m[1..] + ZeroString(k), Some(x));
    assert l.whole + l.frac == ZeroString(0) + m + ZeroString(k);
    LiteralWrites(l, m, 0, k, d, e);
  }

  /** Plain notation of a number below one. */
  lemma FractionWrites(m: string, k: nat, d: seq<int>, e: int)
    requires Significand(m, d, e) && e < 0
    ensures Writes(Literal("0", true, ZeroString(-e - 1) + m + ZeroString(k), None), d, e)
  {
    hide Val, StrVal, SameAmount;
    var l := Literal("0", true, ZeroString(-e - 1) + m + ZeroString(k), None);
    assert l.whole + l.frac == ZeroString(-e) + m + ZeroString(k);
    LiteralWrites(l, m, -e, k, d, e);
  }

  /** Plain notation of an integer that ends in zeros. */
  lemma IntegerWrites(m: string, k: nat, d: seq<int>, e: int)
    requires Significand(m, d, e) && e >= |m|
    ensures Writes(Literal(m + ZeroString(e + 1 - |m|), k > 0, ZeroString(k), None), d, e)
  {
    hide Val, StrVal, SameAmount;
    var l := Literal(m + ZeroString(e + 1 - |m|), k > 0, ZeroString(k), None);
    assert l.whole + l.frac == ZeroString(0) + m + ZeroString(e + 1 - |m| + k);
    LiteralWrites(l, m, 0, e + 1 - |m| + k, d, e);
  }

  /** Plain notation with the point among or after the digits. */
  lemma PointWrites(m: string, k: nat, d: seq<int>, e: int)
    requires Significand(m, d, e) && 0 <= e < |m|
    ensures Writes(Literal(m[..e + 1], e + 1 < |m| || k > 0, m[e + 1..] + ZeroString(k), None), d, e)
  {
    hide Val, StrVal, SameAmount;
    var l := Literal(m[..e + 1], e + 1 < |m| || k > 0, m[e + 1..] + ZeroString(k), None);
    assert l.whole + l.frac == ZeroString(0) + m + ZeroString(k);
    LiteralWrites(l, m, 0, k, d, e);
  }

  /**
   * The form of a written literal: no zero too many in front, a point just before decimals, one digit before the point
   * in scientific notation, and zeros behind the decimals only as far as sd digits are asked for.
   */
  predicate Shaped(l: Literal, e: int, sd: nat) {
    && |l.whole| > 0 && (|l.whole| > 1 ==> l.whole[0] != '0') && (l.point <==> l.frac != "")
    && (l.exp.Some? ==>
          |l.whole| == 1 && l.exp.value == Exponent('e', if e < 0 then "-" else "+", NatText(if e < 0 then -e else e)))
    && var digits := |l.frac| + if l.exp.Some? then 1 else e + 1;
       digits >= sd && (l.frac != "" && l.frac[|l.frac| - 1] == '0' ==> digits == sd)
  }

  /** The digits of a number, without zeros at either end. */
  predicate Bare(m: string, e: int) {
    |m| > 0 && ((m == "0" && e == 0) || (m[0] != '0' && m[|m| - 1] != '0'))
  }

  lemma DigitsAreBare(m: string, d: seq<int>, e: int)
    requires if d == [0] then m == "0" && e == 0 else DigitsWritten(d, m)
    ensures Bare(m, e)
  {}

  lemma PaddedEnd(a: string, k: nat)
    ensures k > 0 ==> a + ZeroString(k) != "" && (a + ZeroString(k))[|a| + k - 1] == '0'
    ensures k == 0 ==> a + ZeroString(k) == a
  {}

  lemma ScientificShaped(m: string, k: nat, e: int, sd: nat)
    requires Bare(m, e) && k == if sd > |m| then sd - |m| else 0
    ensures var x := Exponent('e', if e < 0 then "-" else "+", NatText(if e < 0 then -e else e));
      Shaped(Literal(m[..1], |m| > 1 || k > 0, m[1..] + ZeroString(k), Some(x)), e, sd)
  {
    hide NatText, ZeroString;
    PaddedEnd(m[1..], k);
    if |m| > 1 { assert m[1..][|m| - 2] == m[|m| - 1]; }
  }

  lemma FractionShaped(m: string, k: nat, e: int, sd: nat)
    requires Bare(m, e) && e < 0 && k == if sd > |m| then sd - |m| else 0
    ensures Shaped(Literal("0", true, ZeroString(-e - 1) + m + ZeroString(k), None), e, sd)
  {
    hide NatText;
    var front := ZeroString(-e - 1) + m;
    PaddedEnd(front, k);
    assert front[|front| - 1] == m[|m| - 1];
  }

  lemma IntegerShaped(m: string, k: nat, e: int, sd: nat)
    requires Bare(m, e) && e >= |m| && k == if sd > e + 1 then sd - e - 1 else 0
    ensures Shaped(Literal(m + ZeroString(e + 1 - |m|), k > 0, ZeroString(k), None), e, sd)
  {
    hide NatText;
  }

  lemma PointShaped(m: string, k: nat, e: int, sd: nat)
    requires Bare(m, e) && 0 <= e < |m| && k == if sd > |m| then sd - |m| else 0
    ensures Shaped(Literal(m[..e + 1], e + 1 < |m| || k > 0, m[e + 1..] + ZeroString(k), None), e, sd)
  {
    hide NatText, ZeroString;
    PaddedEnd(m[e + 1..], k);
    if e + 1 < |m| { assert m[e + 1..][|m| - e - 2] == m[|m| - 1]; }
  }

  /** The text of a finite magnitude, in scientific notation or plain; sd asks for at least that many digits. */
  method FiniteToString(d: seq<int>, e: int, isExp: bool, sd: nat) returns (str: string, ghost l: Literal)
    requires (d == [0] && e == 0) || Canonical(d, e)
    ensures Writes(l, d, e) && str == Text(l) && (l.exp.Some? <==> isExp) && Shaped(l, e, sd)
  {
    hide Val, StrVal, SameAmount, DigitsWritten, Significand, Writes, NatText, Shaped, Bare;
    str := DigitsToString(d);
    SignificandIs(str, d, e);
    DigitsAreBare(str, d, e);
    ghost var m := str;
    assert |m| > 0 by { SignificandNotEmpty(m, d, e); }
    var len := |str|;
    var k := 0;
    if isExp {
      if sd > len {
        k := sd - len;
        var zs := GetZeroString(k);
        str := str[..1] + "." + str[1..] + zs;
      } else if len > 1 {
        str := str[..1] + "." + str[1..];
      }
      ScientificWrites(m, k, d, e);
      ScientificShaped(m, k, e, sd);
      ghost var x := Exponent('e', if e < 0 then "-" else "+", NatText(if e < 0 then -e else e));
      l := Literal(m[..1], len > 1 || k > 0, m[1..] + ZeroString(k), Some(x));
      str := str + (if e < 0 then "e" else "e+") + (if e < 0 then "-" + NatText(-e) else NatText(e));
      ScientificText(m, k, e, str);
    } else if e < 0 {
      var zs := GetZeroString(-e - 1);
      str := "0." + zs + str;
      if sd > len {
        k := sd - len;
        zs := GetZeroString(k);
        str := str + zs;
      }
      FractionWrites(m, k, d, e);
      FractionShaped(m, k, e, sd);
      l := Literal("0", true, ZeroString(-e - 1) + m + ZeroString(k), None);
      assert str == Text(l);
    } else if e >= len {
      var zs := GetZeroString(e + 1 - len);
      str := str + zs;
      if sd > e + 1 {
        k := sd - e - 1;
        zs := GetZeroString(k);
        str := str + "." + zs;
      }
      IntegerWrites(m, k, d, e);
      IntegerShaped(m, k, e, sd);
      l := Literal(m + ZeroString(e + 1 - |m|), k > 0, ZeroString(k), None);
      assert str == Text(l);
    } else {
      if e + 1 < len {
        str := str[..e + 1] + "." + str[e + 1..];
      }
      if sd > len {
        k := sd - len;
        if e + 1 == len {
          str := str + ".";
        }
        var zs := GetZeroString(k);
        str := str + zs;
      }
      PointWrites(m, k, d, e);
      PointShaped(m, k, e, sd);
      l := Literal(m[..e + 1], e + 1 < |m| || k > 0, m[e + 1..] + ZeroString(k), None);
      assert str == Text(l);
    }
  }

  lemma SignificandNotEmpty(m: string, d: seq<int>, e: int)
    requires Significand(m, d, e)
    ensures |m| > 0
  {}

  lemma ScientificText(m: string, k: nat, e: int, str: string)
    requires |m| > 0
    requires str == (if k > 0 then m[..1] + "." + m[1..] + ZeroString(k) else if |m| > 1 then m[..1] + "." + m[1..]
                     else m)
                    + (if e < 0 then "e" else "e+") + (if e < 0 then "-" + NatText(-e) else NatText(e))
    ensures var x := Exponent('e', if e < 0 then "-" else "+", NatText(if e < 0 then -e else e));
      str == Text(Literal(m[..1], |m| > 1 || k > 0, m[1..] + ZeroString(k), Some(x)))
  {
    hide NatText;
  }

  // ---- parseDecimal ----

  /** Neither c nor c' is among the first n characters of s. */
  predicate NoneBefore(s: string, n: nat, c: char, c': char) {
    n <= |s| && forall i :: 0 <= i < n ==> s[i] != c && s[i] != c'
  }

  /** The first place of c or c' in s, or -1. */
  method IndexOf(s: string, c: char, c': char) returns (i: int)
    ensures -1 <= i < |s|
    ensures if i == -1 then NoneBefore(s, |s|, c, c') else (s[i] == c || s[i] == c') && NoneBefore(s, i, c, c')
  {
    i := 0;
    while i < |s|
      invariant 0 <= i <= |s| && NoneBefore(s, i, c, c')
    {
      if s[i] == c || s[i] == c' {
        return;
      }
      i := i + 1;
    }
    i := -1;
  }

  /** A sign, or none, and digits, read as a number. */
  method ParseInteger(s: string, ghost x: Exponent) returns (n: int)
    requires s == x.sign + x.digits && (x.sign == "" || x.sign == "+" || x.sign == "-")
    requires AllDigits(x.digits) && |x.digits| > 0
    ensures n == ExpOf(Some(x))
  {
    hide StrVal;
    if s[0] == '-' {
      assert x.sign == "-" && s[1..] == x.digits;
      n := 0 - StrVal(s[1..]);
    } else if s[0] == '+' {
      assert x.sign == "+" && s[1..] == x.digits;
      n := StrVal(s[1..]);
    } else {
      assert x.sign == "" && s == x.digits;
      n := StrVal(s);
    }
  }

  /** The digits of a literal without point and exponent, and the power of ten of the place before the first of them. */
  method SplitLiteral(str0: string, ghost l: Literal) returns (str: string, e: int)
    requires WellFormed(l) && str0 == Text(l)
    ensures str == l.whole + l.frac && e == |l.whole| + ExpOf(l.exp)
  {
    hide StrVal, ExpOf;
    NoExponentIsZero();
    str := str0;
    e := IndexOf(str, '.', '.');
    ghost var tail := ExpText(l.exp);
    PointPlace(l, str, e);
    if e > -1 {
      str := str[..e] + str[e + 1..];
    }
    assert str == (l.whole + l.frac) + tail;
    var i := IndexOf(str, 'e', 'E');
    if i > 0 {
      ExponentFollows(l, str, i);
      if e < 0 {
        e := i;
      }
      ghost var x := l.exp.value;
      assert str[i + 1..] == x.sign + x.digits;
      var n := ParseInteger(str[i + 1..], x);
      e := e + n;
      str := str[..i];
    } else {
      NoExponentLeft(l, str, i);
      if e < 0 {
        e := |str|;
      }
    }
  }

  lemma NoExponentIsZero()
    ensures ExpOf(None) == 0
  {}

  lemma PointPlace(l: Literal, s: string, i: int)
    requires WellFormed(l) && s == Text(l) && -1 <= i < |s|
    requires if i == -1 then NoneBefore(s, |s|, '.', '.') else s[i] == '.' && NoneBefore(s, i, '.', '.')
    ensures i >= 0 <==> l.point
    ensures if i >= 0 then i == |l.whole| && s[..i] == l.whole && s[i + 1..] == l.frac + ExpText(l.exp)
            else s == (l.whole + l.frac) + ExpText(l.exp)
  {
    hide ExpText;
    if l.point {
      PointIs(l, s);
    } else {
      assert s == l.whole + ExpText(l.exp);
      NoPointIn(l, s);
    }
  }

  lemma PointIs(l: Literal, s: string)
    requires WellFormed(l) && s == Text(l) && l.point
    ensures |l.whole| < |s| && s[|l.whole|] == '.' && s[..|l.whole|] == l.whole
    ensures s[|l.whole| + 1..] == l.frac + ExpText(l.exp) && forall i :: 0 <= i < |l.whole| ==> s[i] != '.'
  {
    hide ExpText;
    assert s == l.whole + "." + (l.frac + ExpText(l.exp));
  }

  lemma NoPointIn(l: Literal, s: string)
    requires WellFormed(l) && s == l.whole + ExpText(l.exp)
    ensures forall i :: 0 <= i < |s| ==> s[i] != '.'
  {}

  lemma ExponentFollows(l: Literal, s: string, i: nat)
    requires WellFormed(l) && s == (l.whole + l.frac) + ExpText(l.exp) && i < |s|
    requires (s[i] == 'e' || s[i] == 'E') && NoneBefore(s, i, 'e', 'E')
    ensures l.exp.Some? && i == |l.whole + l.frac| && s[..i] == l.whole + l.frac
    ensures s[i + 1..] == l.exp.value.sign + l.exp.value.digits
  {
    var m := l.whole + l.frac;
    assert AllDigits(m);
    if l.exp.Some? {
      assert s[|m|] == l.exp.value.letter;
    }
  }

  lemma NoExponentLeft(l: Literal, s: string, i: int)
    requires WellFormed(l) && s == (l.whole + l.frac) + ExpText(l.exp) && -1 <= i <= 0
    requires if i == -1 then NoneBefore(s, |s|, 'e', 'E') else |s| > 0 && (s[0] == 'e' || s[0] == 'E')
    ensures l.exp.None? && s == l.whole + l.frac
  {
    var m := l.whole + l.frac;
    assert AllDigits(m);
    if l.exp.Some? {
      LetterPlace(l, s);
    }
  }

  lemma LetterPlace(l: Literal, s: string)
    requires WellFormed(l) && s == (l.whole + l.frac) + ExpText(l.exp) && l.exp.Some?
    ensures |l.whole + l.frac| < |s| && s[|l.whole + l.frac|] == l.exp.value.letter
  {}

  // ---- The words of a literal ----

  /** d holds the first i digits of s, i leading ones in its first word and seven in each of the others. */
  ghost predicate WordsRead(s: string, i: nat, d: seq<int>, first: nat) {
    && i <= |s| && AllDigits(s) && AreWords(d)
    && (|d| == 0 ==> i == 0)
    && (|d| > 0 ==> i == first + 7 * (|d| - 1) && Digits(d[0]) == first && d[0] > 0 && Val(d) == StrVal(s[..i]))
  }

  lemma ChunkIsWord(s: string)
    requires AllDigits(s) && 0 < |s| <= 7
    ensures 0 <= StrVal(s) < BASE
    ensures s[0] != '0' ==> StrVal(s) > 0 && Digits(StrVal(s)) == |s|
  {
    hide StrVal, Pow10, Digits;
    SmallPowers();
    StrBounds(s);
    Pow10Monotone(|s|, 7);
    if s[0] != '0' { DigitsAre(StrVal(s), |s|); }
  }

  lemma WordRead(s: string, i: nat, d: seq<int>, first: nat, chunk: string)
    requires WordsRead(s, i, d, first) && |s| > 0 && s[0] != '0'
    requires |chunk| == (if |d| == 0 then first else 7) && 1 <= first <= 7 && i + |chunk| <= |s| &&
      chunk == s[i..i + |chunk|]
    ensures AllDigits(chunk) && WordsRead(s, i + |chunk|, d + [StrVal(chunk)], first)
  {
    hide StrVal, Pow10, Digits, Val;
    ChunkIsWord(chunk);
    assert s[..i + |chunk|] == s[..i] + chunk;
    StrConcat(s[..i], chunk);
    ValSnoc(d, StrVal(chunk));
    SmallPowers();
    if |d| == 0 {
      assert s[..i] == "";
      assert d + [StrVal(chunk)] == [StrVal(chunk)];
      ValSingle(StrVal(chunk));
      EmptyText();
    }
  }

  lemma EmptyText()
    ensures StrVal("") == 0 && Val([]) == 0
  {}

  /** The last word, filled up with zeros, makes the digits canonical. */
  lemma WordsComplete(s: string, pad: nat, d: seq<int>, first: nat, e: int)
    requires AllDigits(s) && |s| > 0 && s[0] != '0' && s[|s| - 1] != '0' && pad < 7
    requires WordsRead(s + ZeroString(pad), |s| + pad, d, first) && |d| > 0 && e % 7 == first - 1
    ensures Canonical(d, e) && Denotes(d, e, StrVal(s), e + 1 - |s|)
  {
    hide StrVal, Pow10, Digits, Val, WordsRead;
    WordsReadAll(s, pad, d, first);
    LastReadPositive(s, pad, d);
    FilledDenotes(s, pad, d, e);
  }

  lemma WordsReadAll(s: string, pad: nat, d: seq<int>, first: nat)
    requires AllDigits(s) && WordsRead(s + ZeroString(pad), |s| + pad, d, first) && |d| > 0
    ensures AreWords(d) && d[0] > 0 && Digits(d[0]) == first && Figures(d) == |s| + pad
    ensures Val(d) == StrVal(s) * Pow10(pad)
  {
    hide StrVal, Pow10, Digits, Val;
    var t := s + ZeroString(pad);
    assert t[..|s| + pad] == t;
    StrPadded("", s, ZeroString(pad));
    assert "" + s + ZeroString(pad) == t;
  }

  lemma FilledDenotes(s: string, pad: nat, d: seq<int>, e: int)
    requires AllDigits(s) && Aligned(d, e) && Figures(d) == |s| + pad && Val(d) == StrVal(s) * Pow10(pad)
    ensures Denotes(d, e, StrVal(s), e + 1 - |s|)
  {
    hide StrVal, Pow10, Digits, Val, SameAmount;
    LowIs(d, e);
    SameScaled(StrVal(s), Low(d, e), pad);
    SameSymmetric(StrVal(s), Low(d, e) + pad, Val(d), Low(d, e));
  }

  lemma LastReadPositive(s: string, pad: nat, d: seq<int>)
    requires AllDigits(s) && |s| > 0 && s[|s| - 1] != '0' && pad < 7
    requires AreWords(d) && |d| > 0 && Val(d) == StrVal(s) * Pow10(pad)
    ensures d[|d| - 1] > 0
  {
    hide StrVal, Pow10, Val;
    LastWord(d);
    LastNotMultiple(s, pad);
  }

  lemma LastNotMultiple(s: string, pad: nat)
    requires AllDigits(s) && |s| > 0 && s[|s| - 1] != '0' && pad < 7
    ensures (StrVal(s) * Pow10(pad)) % BASE > 0
  {
    hide Pow10;
    var p, q := Pow10(pad), Pow10(6 - pad);
    SmallPowers();
    Pow10Add(pad, 7 - pad);
    Pow10Add(1, 6 - pad);
    var a, b := StrVal(s[..|s| - 1]), DigitOf(s[|s| - 1]);
    NotMultiple(a, b, p, q);
  }

  lemma NotMultiple(a: int, b: int, p: int, q: int)
    requires 1 <= b <= 9 && p > 0 && q > 0 && p * (10 * q) == BASE && a >= 0
    ensures ((a * 10 + b) * p) % BASE > 0
  {
    var n := (a * 10 + b) * p;
    if n % BASE == 0 {
      DivMod(n, BASE);
      TenFactor(a * 10 + b, n / BASE, p, q);
      TenMultiple(n / BASE, q);
    }
  }

  lemma TenFactor(v: int, m: int, p: int, q: int)
    requires p > 0 && p * (10 * q) == BASE && v * p == m * BASE
    ensures v == m * (10 * q)
  {}

  lemma TenMultiple(m: int, q: int)
    ensures (m * (10 * q)) % 10 == 0
  {
    assert m * (10 * q) == 10 * (m * q);
  }

  /** The zeros that fill n digits up to whole words. */
  function Pad(n: nat): nat {
    if n % 7 == 0 then 0 else 7 - n % 7
  }

  lemma PadIs(n: nat)
    requires n > 0
    ensures if n <= 7 then Pad(n) == 7 - n else Pad(n - 7) == Pad(n)
    ensures Pad(n) < 7
  {}

  lemma SliceOfPadded(s: string, pad: nat, i: nat, j: nat)
    requires i <= j <= |s|
    ensures (s + ZeroString(pad))[i..j] == s[i..j]
    ensures (s + ZeroString(pad))[i..] == s[i..] + ZeroString(pad)
  {}

  /** The words of s when its first chunk has i digits, or seven when i is zero. */
  method ChunkWords(s: string, i0: nat, ghost first: nat) returns (d: seq<int>)
    requires AllDigits(s) && s != "" && s[0] != '0' && i0 < |s| && i0 <= 7 && first == if i0 == 0 then 7 else i0
    ensures var t := s + ZeroString(Pad(|s| - i0));
      AllDigits(t) && |d| > 0 && WordsRead(t, |t|, d, first)
  {
    hide StrVal, WordsRead, Pad;
    d := [];
    var i := i0;
    ghost var pad := Pad(|s| - i0);
    ghost var t := s + ZeroString(pad);
    NothingRead(t, first);
    if i != 0 {
      SliceOfPadded(s, pad, 0, i);
      WordRead(t, 0, d, first, s[..i]);
      d := d + [StrVal(s[..i])];
    }
    var len := |s| - LOG_BASE;
    while i < len
      invariant 0 <= i < |s| && len == |s| - 7 && pad == Pad(|s| - i)
      invariant WordsRead(t, i, d, first) && (d == [] ==> first == 7)
    {
      PadIs(|s| - i);
      SliceOfPadded(s, pad, i, i + LOG_BASE);
      WordRead(t, i, d, first, s[i..i + LOG_BASE]);
      d := d + [StrVal(s[i..i + LOG_BASE])];
      i := i + LOG_BASE;
    }
    PadIs(|s| - i);
    SliceOfPadded(s, pad, i, i);
    var zs := GetZeroString(LOG_BASE - (|s| - i));
    var str := s[i..] + zs;
    assert t[i..i + |str|] == t[i..];
    WordRead(t, i, d, first, str);
    d := d + [StrVal(str)];
  }

  /** Turns a digit string without zeros at either end into words; e is the exponent of its first digit. */
  method WordsOf(s: string, e: int) returns (d: seq<int>)
    requires AllDigits(s) && |s| > 0 && s[0] != '0' && s[|s| - 1] != '0'
    ensures Canonical(d, e) && Denotes(d, e, StrVal(s), e + 1 - |s|)
  {
    hide StrVal, Val, Digits, WordsRead, Canonical, SameAmount, Pad, JsMod;
    var i := JsMod(e + 1, LOG_BASE);
    if e < 0 {
      i := i + LOG_BASE;
    }
    FirstChunk(e, i);
    ghost var first := if i == 0 then 7 else i;
    var len := |s|;
    if i < len {
      d := ChunkWords(s, i, first);
      PadIs(len - i);
      WordsComplete(s, Pad(len - i), d, first, e);
    } else {
      var zs := GetZeroString(i - len);
      var str := s + zs;
      NothingRead(str, first);
      assert str[..i] == str;
      WordRead(str, 0, [], first, str);
      d := [StrVal(str)];
      assert d == [] + [StrVal(str)];
      WordsComplete(s, i - len, d, first, e);
    }
  }

  lemma FirstChunk(e: int, i: int)
    requires i == JsMod(e + 1, LOG_BASE) + if e < 0 then LOG_BASE else 0
    ensures 0 <= i <= 7 && e % 7 == (if i == 0 then 7 else i) - 1
  {}

  lemma NothingRead(t: string, first: nat)
    requires AllDigits(t)
    ensures WordsRead(t, 0, [], first)
  {}

  lemma ZerosStripped(l: Literal, a: nat, s: string, b: nat, d: seq<int>, e: int)
    requires WellFormed(l) && AllDigits(s) && |s| > 0 && StrVal(s) > 0
    requires l.whole + l.frac == ZeroString(a) + s + ZeroString(b)
    requires Canonical(d, e) && Denotes(d, e, StrVal(s), e + 1 - |s|) && e == |l.whole| + ExpOf(l.exp) - a - 1
    ensures Written(d, e, Mantissa(l), Scale(l))
  {
    hide StrVal, Val, Digits, SameAmount, Pow10, Canonical;
    StrPadded(ZeroString(a), s, ZeroString(b));
    SameScaled(StrVal(s), Scale(l), b);
    SameTransitive(Val(d), Low(d, e), StrVal(s), Scale(l) + b, Mantissa(l), Scale(l));
    AtLeastTimes(1, StrVal(s), Pow10(b));
  }

  lemma AllZeros(l: Literal)
    requires WellFormed(l) && forall i :: 0 <= i < |l.whole + l.frac| ==> (l.whole + l.frac)[i] == '0'
    ensures Written([0], 0, Mantissa(l), Scale(l))
  {
    hide StrVal;
    StrZeros(l.whole + l.frac);
  }

  /** Removes the zeros at both ends of a digit string; i of them are in front. */
  method StripZeros(str: string) returns (s: string, i: nat, ghost b: nat)
    requires AllDigits(str)
    ensures str == ZeroString(i) + s + ZeroString(b) && AllDigits(s)
    ensures s != "" ==> s[0] != '0' && s[|s| - 1] != '0'
  {
    i := 0;
    while i < |str| && str[i] == '0'
      invariant 0 <= i <= |str| && forall j :: 0 <= j < i ==> str[j] == '0'
    {
      i := i + 1;
    }
    var len := |str|;
    while len > i && str[len - 1] == '0'
      invariant i <= len <= |str| && forall j :: len <= j < |str| ==> str[j] == '0'
    {
      len := len - 1;
    }
    s := str[i..len];
    b := |str| - len;
  }

  lemma NothingButZeros(str: string, i: nat, s: string, b: nat)
    requires str == ZeroString(i) + s + ZeroString(b) && s == ""
    ensures forall j :: 0 <= j < |str| ==> str[j] == '0'
  {}

  /** The digits and the exponent that a literal writes. */
  method LiteralDigits(str0: string, ghost l: Literal) returns (d: seq<int>, e: int)
    requires WellFormed(l) && str0 == Text(l)
    ensures Written(d, e, Mantissa(l), Scale(l))
  {
    hide StrVal, Val, Digits, SameAmount, Pow10, Canonical, Written, Text, ExpOf;
    var str;
    str, e := SplitLiteral(str0, l);
    DigitsTogether(l);
    var s, i;
    ghost var b;
    s, i, b := StripZeros(str);
    if s != "" {
      e := e - i - 1;
      StrPositive(s);
      d := WordsOf(s, e);
      ZerosStripped(l, i, s, b, d, e);
    } else {
      NothingButZeros(str, i, s, b);
      AllZeros(l);
      d, e := [0], 0;
    }
  }

  /** Reads a literal into x, whose exponent is checked when external is set. */
  method ParseDecimal(x: Decimal, str: string, ghost l: Literal, external: bool)
    requires ValidConfig(x.ctor) && WellFormed(l) && str == Text(l)
    modifies x`d, x`e
    ensures Settles(x.ctor, external, Mantissa(l), Scale(l), x.d, x.e)
  {
    hide StrVal, Written, Text, Clip;
    x.d, x.e := LiteralDigits(str, l);
    Settled(x.ctor, external, Mantissa(l), Scale(l), x.d, x.e);
    x.CheckRange(external);
  }

  // ---- Reading undoes writing ----

  /** `valueOf`: the text of a number with its sign, scientific from the exponents on that the settings name. */
  method ValueOf(x: Decimal) returns (str: string, ghost l: Literal)
    requires x.Valid() && x.d != []
    ensures Writes(l, x.d, x.e) && str == (if x.s < 0 then "-" else "") + Text(l)
    ensures (l.exp.Some? <==> x.e <= x.ctor.toExpNeg || x.e >= x.ctor.toExpPos) && Shaped(l, x.e, 0)
  {
    hide Writes, Text, Canonical, Shaped;
    str, l := FiniteToString(x.d, x.e, x.e <= x.ctor.toExpNeg || x.e >= x.ctor.toExpPos, 0);
    if x.s < 0 {
      str := "-" + str;
    } else {
      assert "" + str == str;
    }
  }

  /** The constructor on a string that is a decimal literal with or without a sign. */
  method FromString(c: Config, v: string, ghost sign: string, ghost l: Literal) returns (x: Decimal)
    requires ValidConfig(c) && WellFormed(l) && (sign == "" || sign == "-" || sign == "+") && v == sign + Text(l)
    ensures fresh(x) && x.Valid() && x.ctor == c && x.s == (if sign == "-" then -1 else 1)
    ensures Settles(c, true, Mantissa(l), Scale(l), x.d, x.e)
  {
    hide StrVal, Settles, Text, Canonical;
    TextStarts(l);
    var str := v;
    assert sign == "" ==> v == Text(l);
    assert sign != "" ==> v[0] == sign[0] && v[1..] == Text(l);
    x := new Decimal(c, if v[0] == '-' then -1 else 1);
    if v[0] == '-' || v[0] == '+' {
      str := v[1..];
    }
    ParseDecimal(x, str, l, true);
    SettlesIsValid(c, Mantissa(l), Scale(l), x.d, x.e);
  }

  lemma SettlesIsValid(c: Config, v: int, u: int, d: seq<int>, e: int)
    requires Settles(c, true, v, u, d, e)
    ensures d == [] || (d == [0] && e == 0) || Canonical(d, e)
  {}

  lemma TextStarts(l: Literal)
    requires WellFormed(l)
    ensures |Text(l)| > 0 && Text(l)[0] != '-' && Text(l)[0] != '+'
  {}

  /** A literal that writes a number is read back as that number. */
  lemma ReadBack(c: Config, l: Literal, d: seq<int>, e: int, d': seq<int>, e': int)
    requires ValidConfig(c) && Writes(l, d, e) && ((d == [0] && e == 0) || Canonical(d, e)) && c.minE <= e <= c.maxE
    requires Settles(c, true, Mantissa(l), Scale(l), d', e')
    ensures d' == d && e' == e
  {
    hide Val, Digits, SameAmount, Canonical, StrVal;
    var d1, e1 :| Written(d1, e1, Mantissa(l), Scale(l)) && (d', e') == Clip(c, d1, e1);
    if d == [0] {
      ValSingle(0);
      ZeroNotCanonical(d, e);
      OnlyZeroIsZero(Mantissa(l), Scale(l), Low(d, e));
    } else {
      PositiveDigits(d, e);
      PositiveAmountBack(Mantissa(l), Scale(l), Val(d), Low(d, e));
      SameTransitive(Val(d1), Low(d1, e1), Mantissa(l), Scale(l), Val(d), Low(d, e));
      CanonicalUnique(d1, e1, d, e);
    }
  }

  lemma PositiveDigits(d: seq<int>, e: int)
    requires Canonical(d, e)
    ensures Val(d) > 0
  {
    PositiveVal(d);
  }

  lemma OnlyZeroIsZero(v: int, a: int, b: int)
    requires SameAmount(v, a, 0, b) && v >= 0
    ensures v == 0
  {}

  lemma PositiveAmountBack(v: int, a: int, n: int, b: int)
    requires SameAmount(v, a, n, b) && n > 0 && v >= 0
    ensures v > 0
  {}

  /** Every finite Decimal in range is read back from its text, sign, digits and exponent. */
  method WriteThenRead(x: Decimal) returns (r: Decimal)
    requires x.Valid() && x.d != [] && x.ctor.minE <= x.e <= x.ctor.maxE
    ensures fresh(r) && r.s == x.s && r.d == x.d && r.e == x.e
  {
    hide Writes, Text, Canonical, Settles, StrVal;
    ghost var l;
    var str;
    str, l := ValueOf(x);
    WritesWellFormed(l, x.d, x.e);
    r := FromString(x.ctor, str, if x.s < 0 then "-" else "", l);
    ReadBack(x.ctor, l, x.d, x.e, r.d, r.e);
  }

  lemma WritesWellFormed(l: Literal, d: seq<int>, e: int)
    requires Writes(l, d, e)
    ensures WellFormed(l)
  {}
}
