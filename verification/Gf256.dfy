/** The field GF(256) of qr.js: bytes, added by exclusive or and multiplied through the
    exponent and logarithm tables of the polynomial 285 (section 7.5.2 of ISO/IEC 18004:2015). */
module Gf256 {
  /** A byte as its eight bits, most significant first. */
  type Byte = x: seq<bool> | |x| == 8 witness [false, false, false, false, false, false, false, false]

  const ZERO: Byte := [false, false, false, false, false, false, false, false]
  const ONE: Byte := [false, false, false, false, false, false, false, true]

  // ---- Bytes as the numbers 0 to 255 ----

  /** The number a bit string denotes. */
  function BitsToNat(bits: seq<bool>): (n: nat)
  {
    if |bits| == 0 then 0 else 2 * BitsToNat(bits[..|bits| - 1]) + if bits[|bits| - 1] then 1 else 0
  }

  /** The bits of n, padded or cut to the given width. */
  function NatToBits(n: nat, width: nat): (bits: seq<bool>)
    ensures |bits| == width
  {
    if width == 0 then [] else NatToBits(n / 2, width - 1) + [n % 2 == 1]
  }

  function Pow2(k: nat): nat {
    if k == 0 then 1 else 2 * Pow2(k - 1)
  }

  lemma {:induction false} BitsRoundTrip(bits: seq<bool>)
    ensures NatToBits(BitsToNat(bits), |bits|) == bits
    ensures BitsToNat(bits) < Pow2(|bits|)
  {
    if bits != [] {
      BitsRoundTrip(bits[..|bits| - 1]);
    }
  }

  lemma {:induction false} NatRoundTrip(n: nat, width: nat)
    requires n < Pow2(width)
    ensures BitsToNat(NatToBits(n, width)) == n
  {
    if width > 0 {
      NatRoundTrip(n / 2, width - 1);
      assert NatToBits(n, width)[..width - 1] == NatToBits(n / 2, width - 1);
    }
  }

  function ToNat(x: Byte): (n: nat)
    ensures n < 256
  {
    BitsRoundTrip(x);
    assert Pow2(8) == 256;
    BitsToNat(x)
  }

  function FromNat(n: nat): Byte {
    NatToBits(n, 8)
  }

  /** FromNat and ToNat are each other's inverses. */
  lemma ByteNatRoundTrip(x: Byte, n: nat)
    requires n < 256
    ensures FromNat(ToNat(x)) == x
    ensures ToNat(FromNat(n)) == n
  {
    BitsRoundTrip(x);
    assert Pow2(8) == 256;
    NatRoundTrip(n, 8);
  }

  lemma ZeroFromNat()
    ensures FromNat(0) == ZERO && ToNat(ZERO) == 0
  {
    assert NatToBits(0, 4) == [false, false, false, false];
    ByteNatRoundTrip(ZERO, 0);
  }

  // ---- Addition and doubling ----

  function Add(x: Byte, y: Byte): Byte {
    seq(8, i requires 0 <= i < 8 => x[i] != y[i])
  }

  /** Multiplication by the generator 2: shift left, then cancel the ninth bit with 285. */
  function Double(x: Byte): Byte {
    seq(8, i requires 0 <= i < 8 =>
      (i < 7 && x[i + 1]) != (x[0] && (i == 3 || i == 4 || i == 5 || i == 7)))
  }

  /** y multiplied by the i-th power of the generator. */
  function Doubled(i: nat, y: Byte): Byte {
    if i == 0 then y else Double(Doubled(i - 1, y))
  }

  /** The i-th power of the generator. */
  function Exp(i: nat): Byte {
    Doubled(i, ONE)
  }

  lemma AddCommutes(x: Byte, y: Byte)
    ensures Add(x, y) == Add(y, x)
  {}

  lemma AddAssociates(x: Byte, y: Byte, z: Byte)
    ensures Add(Add(x, y), z) == Add(x, Add(y, z))
  {}

  lemma AddCancels(x: Byte, y: Byte)
    ensures Add(x, ZERO) == x && Add(x, x) == ZERO
    ensures Add(Add(x, y), y) == x
  {}

  lemma AddSwap(a: Byte, b: Byte, x: Byte, y: Byte)
    ensures Add(Add(a, b), Add(x, y)) == Add(Add(a, x), Add(b, y))
  {}

  lemma DoubleLinear(x: Byte, y: Byte)
    ensures Double(Add(x, y)) == Add(Double(x), Double(y))
  {}

  lemma DoubleInjective(x: Byte, y: Byte)
    requires Double(x) == Double(y)
    ensures x == y
  {
    assert x[0] == Double(x)[7] == Double(y)[7] == y[0];
    forall i | 0 < i < 8 ensures x[i] == y[i] {
      assert Double(x)[i - 1] == Double(y)[i - 1];
    }
  }

  lemma {:induction false} DoubledLinear(i: nat, x: Byte, y: Byte)
    ensures Doubled(i, Add(x, y)) == Add(Doubled(i, x), Doubled(i, y))
  {
    if i > 0 {
      DoubledLinear(i - 1, x, y);
      DoubleLinear(Doubled(i - 1, x), Doubled(i - 1, y));
    }
  }

  lemma {:induction false} DoubledSum(i: nat, j: nat, y: Byte)
    ensures Doubled(i + j, y) == Doubled(i, Doubled(j, y))
  {
    if i > 0 {
      DoubledSum(i - 1, j, y);
    }
  }

  lemma {:induction false} DoubledInjective(i: nat, x: Byte, y: Byte)
    requires Doubled(i, x) == Doubled(i, y)
    ensures x == y
  {
    if i > 0 {
      DoubleInjective(Doubled(i - 1, x), Doubled(i - 1, y));
      DoubledInjective(i - 1, x, y);
    }
  }

  lemma {:induction false} DoubledZero(i: nat)
    ensures Doubled(i, ZERO) == ZERO
  {
    if i > 0 {
      DoubledZero(i - 1);
    }
  }

  lemma ExpNonZero(i: nat)
    ensures Exp(i) != ZERO
  {
    DoubledZero(i);
    if Exp(i) == ZERO {
      DoubledInjective(i, ZERO, ONE);
    }
  }

  // ---- The generator has order exactly 255 ----

  /** Squaring, which is linear in characteristic two. */
  function Square(x: Byte): Byte {
    [x[1], (x[4] != x[2]) != x[1], x[2], ((x[5] != x[3]) != x[2]) != x[0],
     x[3] != x[1], ((x[6] != x[3]) != x[2]) != x[1], x[0], ((x[7] != x[3]) != x[1]) != x[0]]
  }

  lemma DoubleBits(x: Byte)
    ensures Double(x) == [x[1], x[2], x[3], x[4] != x[0], x[5] != x[0], x[6] != x[0], x[7], x[0]]
  {}

  lemma SquareDouble(x: Byte)
    ensures Square(Double(x)) == Double(Double(Square(x)))
  {
    hide Double;
    DoubleBits(x);
    DoubleBits(Square(x));
    DoubleBits(Double(Square(x)));
  }

  lemma {:induction false} SquareExp(i: nat)
    ensures Square(Exp(i)) == Exp(2 * i)
  {
    if i > 0 {
      SquareExp(i - 1);
      SquareDouble(Exp(i - 1));
      assert Exp(2 * i) == Double(Exp(2 * i - 1));
    }
  }

  lemma SquaredPowers()
    ensures Exp(1) == [false, false, false, false, false, false, true, false]
    ensures Exp(16) == [false, true, false, false, true, true, false, false]
    ensures Exp(32) == [true, false, false, true, true, true, false, true]
    ensures Exp(64) == [false, true, false, true, true, true, true, true]
    ensures Exp(256) == Exp(1)
  {
    assert Exp(1) == Double(ONE);
    SquareExp(1);
    SquareExp(2);
    SquareExp(4);
    SquareExp(8);
    SquareExp(16);
    SquareExp(32);
    SquareExp(64);
    SquareExp(128);
  }

  function Double5(x: Byte): Byte {
    Double(Double(Double(Double(Double(x)))))
  }

  lemma Doubled1(y: Byte)
    ensures Doubled(1, y) == Double(y)
  {}

  lemma Doubled5(y: Byte)
    ensures Doubled(5, y) == Double5(y)
  {
    assert Doubled(1, y) == Double(y);
    assert Doubled(2, y) == Double(Doubled(1, y));
    assert Doubled(3, y) == Double(Doubled(2, y));
    assert Doubled(4, y) == Double(Doubled(3, y));
  }

  lemma ExpStep(i: nat)
    ensures Exp(i + 1) == Double(Exp(i))
  {}

  lemma ExpStep5(i: nat)
    ensures Exp(i + 5) == Double5(Exp(i))
  {
    DoubledSum(5, i, ONE);
    Doubled5(Exp(i));
  }

  lemma Power51()
    ensures Exp(51) == [false, false, false, false, true, false, true, false]
  {
    hide Exp, Doubled;
    SquaredPowers();
    ExpStep5(32);
    assert Exp(37) == [false, true, false, false, true, false, true, false];
    ExpStep5(37);
    assert Exp(42) == [true, false, true, true, false, true, false, true];
    ExpStep5(42);
    assert Exp(47) == [false, false, true, false, false, false, true, true];
    ExpStep(47);
    ExpStep(48);
    ExpStep(49);
    ExpStep(50);
  }

  lemma Power85()
    ensures Exp(85) == [true, true, false, true, false, true, true, false]
  {
    hide Exp, Doubled;
    SquaredPowers();
    ExpStep5(64);
    assert Exp(69) == [false, false, true, false, true, true, true, true];
    ExpStep5(69);
    assert Exp(74) == [true, false, false, false, true, false, false, true];
    ExpStep5(74);
    assert Exp(79) == [true, true, true, true, false, false, false, false];
    ExpStep5(79);
    assert Exp(84) == [false, true, true, false, true, false, true, true];
    ExpStep(84);
  }

  lemma Power255()
    ensures Exp(255) == ONE
  {
    hide Doubled, Double;
    SquaredPowers();
    ExpStep(255);
    assert Exp(1) == Double(ONE) by { Doubled1(ONE); }
    DoubleInjective(ONE, Exp(255));
  }

  lemma {:induction false} ExpMultiple(k: nat, d: nat)
    requires Exp(d) == ONE
    ensures Exp(k * d) == ONE
  {
    if k > 0 {
      ExpMultiple(k - 1, d);
      assert k * d == (k - 1) * d + d;
      DoubledSum((k - 1) * d, d, ONE);
    }
  }

  lemma ExpShift(i: nat, j: nat)
    requires Exp(j) == ONE
    ensures Exp(i + j) == Exp(i)
  {
    DoubledSum(i, j, ONE);
  }

  /** Every proper divisor of 255 divides 15, 51 or 85. */
  lemma DivisorOf255(d: nat, q: nat)
    requires d * q == 255 && 0 < d < 255
    ensures 15 % d == 0 || 51 % d == 0 || 85 % d == 0
  {
    if d > 15 {
      assert q <= 15;
      assert q == 1 || q == 3 || q == 5 || q == 15;
    }
  }

  lemma {:induction false} NoSmallerOrder(d: nat)
    requires 0 < d < 255
    ensures Exp(d) != ONE
  {
    hide Exp;
    if Exp(d) == ONE {
      var q, r := 255 / d, 255 % d;
      assert Exp(r) == ONE by {
        Power255();
        ExpMultiple(q, d);
        assert 255 == d * q + r;
        ExpShift(r, q * d);
      }
      if r > 0 {
        NoSmallerOrder(r);
      } else {
        NotAProperDivisor(d, q);
      }
    }
  }

  lemma ExpNotOne()
    ensures Exp(15) != ONE && Exp(51) != ONE && Exp(85) != ONE
  {
    SquaredPowers();
    Power51();
    Power85();
    ExpStep(15);
    assert Exp(1) == Double(ONE) by { Doubled1(ONE); }
  }

  lemma NotAProperDivisor(d: nat, q: nat)
    requires 0 < d < 255 && d * q == 255
    ensures Exp(d) != ONE
  {
    if Exp(d) == ONE {
      DivisorOf255(d, q);
      var n := if 15 % d == 0 then 15 else if 51 % d == 0 then 51 else 85;
      ExpMultiple(n / d, d);
      assert n == (n / d) * d;
      ExpNotOne();
    }
  }

  lemma ExpInjective(i: nat, j: nat)
    requires 1 <= i <= j <= 255 && Exp(i) == Exp(j)
    ensures i == j
  {
    if i < j {
      DoubledSum(i, j - i, ONE);
      DoubledInjective(i, ONE, Exp(j - i));
      NoSmallerOrder(j - i);
    }
  }

  // ---- Every nonzero byte is a power of the generator ----

  ghost function FirstBytes(n: nat): (s: set<Byte>)
    requires n <= 255
    ensures |s| == n
    ensures forall x :: x in s ==> 1 <= ToNat(x) <= n
    ensures forall i :: 1 <= i <= n ==> FromNat(i) in s
  {
    if n == 0 then {} else
      ByteNatRoundTrip(ZERO, n);
      FirstBytes(n - 1) + {FromNat(n)}
  }

  ghost function FirstPowers(n: nat): (s: set<Byte>)
    requires n <= 255
    ensures |s| == n
    ensures forall x :: x in s ==> exists i :: 1 <= i <= n && Exp(i) == x
  {
    if n == 0 then {} else
      var s := FirstPowers(n - 1);
      assert Exp(n) !in s by {
        if Exp(n) in s {
          var i :| 1 <= i <= n - 1 && Exp(i) == Exp(n);
          ExpInjective(i, n);
        }
      }
      s + {Exp(n)}
  }

  lemma SubsetOfSameSize<T>(a: set<T>, b: set<T>)
    requires a <= b && |a| == |b|
    ensures a == b
  {
    assert |b - a| == |b| - |a|;
    assert b == a + (b - a);
  }

  lemma NonZeroInFirstBytes(x: Byte, n: nat)
    requires x != ZERO && ToNat(x) <= n <= 255
    ensures x in FirstBytes(n)
  {
    ByteNatRoundTrip(x, 0);
    ZeroFromNat();
  }

  lemma AllNonZeroBytes(s: set<Byte>, n: nat, x: Byte)
    requires n == 255 == |s| && ZERO !in s && x != ZERO
    ensures x in s
  {
    var bytes := FirstBytes(n);
    forall y | y in s ensures y in bytes {
      NonZeroInFirstBytes(y, n);
    }
    SubsetOfSameSize(s, bytes);
    NonZeroInFirstBytes(x, n);
  }

  lemma ZeroNotAPower(n: nat)
    requires n <= 255
    ensures ZERO !in FirstPowers(n)
  {
    if ZERO in FirstPowers(n) {
      var i :| 1 <= i <= n && Exp(i) == ZERO;
      ExpNonZero(i);
    }
  }

  lemma ExpSurjective(x: Byte)
    requires x != ZERO
    ensures exists i :: 1 <= i <= 255 && Exp(i) == x
  {
    var n: nat :| n == 255;
    ZeroNotAPower(n);
    AllNonZeroBytes(FirstPowers(n), n, x);
    assert x in FirstPowers(n);
  }

  // ---- The tables and what the code computes from them ----

  /** The value the log table ends up with: the last index up to 255 whose power is x. */
  function Log(x: Byte): (i: nat)
    requires x != ZERO
    ensures 1 <= i <= 255 && Exp(i) == x
  {
    ExpSurjective(x);
    FindLog(x, 1)
  }

  function FindLog(x: Byte, from: nat): (i: nat)
    requires exists i :: from <= i <= 255 && Exp(i) == x
    ensures from <= i <= 255 && Exp(i) == x
    decreases 255 - from, x
  {
    if Exp(from) == x then from else FindLog(x, from + 1)
  }

  lemma LogUnique(x: Byte, i: nat)
    requires x != ZERO && 1 <= i <= 255 && Exp(i) == x
    ensures Log(x) == i
  {
    if i < Log(x) {
      ExpInjective(i, Log(x));
    } else {
      ExpInjective(Log(x), i);
    }
  }

  /** Fills the two tables: exp holds the powers of the generator, log inverts them, and the
      pass at 255 overwrites the logarithm of 1 with 255. */
  method BuildTables() returns (exp: array<Byte>, log: array<nat>)
    ensures exp.Length == log.Length == 256
    ensures forall i :: 0 <= i < 256 ==> exp[i] == Exp(i)
    ensures log[0] == 0
    ensures forall x :: x != ZERO ==> log[ToNat(x)] == Log(x)
  {
    exp := new Byte[256](_ => ZERO);
    log := new nat[256](_ => 0);
    var i, x := 0, ONE;
    while i < 256
      invariant 0 <= i <= 256
      invariant x == Exp(i)
      invariant forall k :: 0 <= k < i ==> exp[k] == Exp(k)
      invariant log[0] == 0
      invariant forall k :: 1 <= k < i ==> log[ToNat(Exp(k))] == k
    {
      exp[i] := x;
      TableIndexFresh(i);
      log[ToNat(x)] := i;
      x := Double(x);
      i := i + 1;
    }
    forall x | x != ZERO ensures log[ToNat(x)] == Log(x) {
      assert log[ToNat(Exp(Log(x)))] == Log(x);
    }
  }

  lemma TableIndexFresh(i: nat)
    requires i <= 255
    ensures ToNat(Exp(i)) != 0
    ensures forall k :: 1 <= k < i ==> ToNat(Exp(k)) != ToNat(Exp(i))
  {
    ExpNonZero(i);
    ByteNatRoundTrip(Exp(i), 0);
    ZeroFromNat();
    forall k | 1 <= k < i ensures ToNat(Exp(k)) != ToNat(Exp(i)) {
      if ToNat(Exp(k)) == ToNat(Exp(i)) {
        ByteNatRoundTrip(Exp(k), 0);
        ExpInjective(k, i);
      }
    }
  }

  /** Multiplication through the tables. */
  function Mul(x: Byte, y: Byte): Byte {
    if x == ZERO || y == ZERO then ZERO else Exp((Log(x) + Log(y)) % 255)
  }

  /** The inverse as the tables give it. */
  function Inv(x: Byte): Byte
    requires x != ZERO
  {
    Exp(255 - Log(x))
  }

  lemma ExpPeriod(i: nat)
    ensures Exp(i) == Exp(i % 255)
  {
    hide Exp;
    if i >= 255 {
      Power255();
      ExpShift(i - 255, 255);
      ExpPeriod(i - 255);
    }
  }

  /** Table multiplication is repeated doubling, which is what makes it linear. */
  lemma MulIsTimes(x: Byte, y: Byte)
    requires x != ZERO
    ensures Mul(x, y) == Doubled(Log(x), y)
  {
    hide Log, Doubled;
    if y == ZERO {
      DoubledZero(Log(x));
    } else {
      DoubledSum(Log(x), Log(y), ONE);
      ExpPeriod(Log(x) + Log(y));
      assert Exp(Log(y)) == Doubled(Log(y), ONE);
    }
  }

  lemma ExpProduct(i: nat, j: nat)
    ensures Mul(Exp(i), Exp(j)) == Exp(i + j)
  {
    hide Mul, Log, Doubled;
    ExpNonZero(i);
    var k := Log(Exp(i));
    MulIsTimes(Exp(i), Exp(j));
    DoubledSum(k, j, ONE);
    DoubledSum(j, k, ONE);
    DoubledSum(j, i, ONE);
  }

  // ---- The field laws ----

  lemma MulCommutes(x: Byte, y: Byte)
    ensures Mul(x, y) == Mul(y, x)
  {}

  lemma MulDistributes(x: Byte, y: Byte, z: Byte)
    ensures Mul(x, Add(y, z)) == Add(Mul(x, y), Mul(x, z))
  {
    if x != ZERO {
      MulIsTimes(x, y);
      MulIsTimes(x, z);
      MulIsTimes(x, Add(y, z));
      DoubledLinear(Log(x), y, z);
    } else {
      assert Add(ZERO, ZERO) == ZERO;
    }
  }

  lemma MulAssociates(x: Byte, y: Byte, z: Byte)
    ensures Mul(Mul(x, y), z) == Mul(x, Mul(y, z))
  {
    hide Exp;
    if x != ZERO && y != ZERO && z != ZERO {
      var i, j, k := Log(x), Log(y), Log(z);
      ExpProduct(i, j);
      ExpProduct(j, k);
      ExpProduct(i + j, k);
      ExpProduct(i, j + k);
    }
  }

  lemma MulOne(x: Byte)
    ensures Mul(ONE, x) == x && Mul(x, ONE) == x
  {
    hide Mul, Log;
    if x == ZERO {
      MulNonZero(ONE, x);
    } else {
      assert Exp(0) == ONE;
      ExpProduct(0, Log(x));
    }
    MulCommutes(x, ONE);
  }

  /** There are no zero divisors. */
  lemma MulNonZero(x: Byte, y: Byte)
    ensures Mul(x, y) == ZERO <==> x == ZERO || y == ZERO
  {
    if x != ZERO && y != ZERO {
      ExpNonZero((Log(x) + Log(y)) % 255);
    }
  }

  lemma MulInverse(x: Byte)
    requires x != ZERO
    ensures Inv(x) != ZERO && Mul(x, Inv(x)) == ONE
  {
    ExpNonZero(255 - Log(x));
    ExpProduct(Log(x), 255 - Log(x));
    Power255();
  }

  lemma MulCancels(x: Byte, y: Byte, z: Byte)
    requires x != ZERO && Mul(x, y) == Mul(x, z)
    ensures y == z
  {
    MulInverse(x);
    MulAssociates(Inv(x), x, y);
    MulAssociates(Inv(x), x, z);
    MulOne(y);
    MulOne(z);
  }
}
