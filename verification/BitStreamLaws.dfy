/** What the written bit stream looks like, bit by bit (section 7.4 of ISO/IEC 18004:2015). */
module BitStreamLaws {
  import opened Gf256
  import opened BitStream

  // ---- Mode, count and alphabet ----

  /** The mode indicator, and the width of the count in versions 1 to 9, 10 to 26 and 27 to 40. */
  lemma HeadersAre(ver: nat, len: nat)
    requires 1 <= ver <= 40
    ensures ver <= 9 ==>
      && Header(ver, Numeric, len) == [false, false, false, true] + Bin(len, 10)
      && Header(ver, Alphanumeric, len) == [false, false, true, false] + Bin(len, 9)
      && Header(ver, Mode.Bytes, len) == [false, true, false, false] + Bin(len, 8)
    ensures 10 <= ver <= 26 ==>
      && Header(ver, Numeric, len) == [false, false, false, true] + Bin(len, 12)
      && Header(ver, Alphanumeric, len) == [false, false, true, false] + Bin(len, 11)
      && Header(ver, Mode.Bytes, len) == [false, true, false, false] + Bin(len, 16)
    ensures ver >= 27 ==>
      && Header(ver, Numeric, len) == [false, false, false, true] + Bin(len, 14)
      && Header(ver, Alphanumeric, len) == [false, false, true, false] + Bin(len, 13)
      && Header(ver, Mode.Bytes, len) == [false, true, false, false] + Bin(len, 16)
  {
    hide Bin;
  }

  /** Digits, capital letters, and nine other characters. */
  lemma AlphabetsAre(k: nat)
    requires k < 45
    ensures |NUMERIC| == 10 && (k < 10 ==> NUMERIC[k] == "0123456789"[k])
    ensures |ALPHANUMERIC| == 45 && (k < 10 ==> ALPHANUMERIC[k] == "0123456789"[k])
    ensures 10 <= k < 36 ==> ALPHANUMERIC[k] as int == 'A' as int + (k - 10)
    ensures k >= 36 ==> ALPHANUMERIC[k] == " $%*+-./:"[k - 36]
  {}

  // ---- Groups ----

  /** The number that the bits from place i on write. */
  function Field(bits: seq<bool>, i: nat, width: nat): nat
    requires i + width <= |bits|
  {
    BitsToNat(bits[i..i + width])
  }

  lemma BinIs(n: nat, width: nat, p: nat)
    requires 0 < width && p == Pow2(width) && n < p
    ensures |Bin(n, width)| == width && BitsToNat(Bin(n, width)) == n
  {
    BinReads(n, width);
  }

  lemma PowersAre()
    ensures Pow2(10) == 1024 && Pow2(7) == 128 && Pow2(4) == 16 && Pow2(11) == 2048 && Pow2(6) == 64
  {
    assert Pow2(4) == 16;
    assert Pow2(8) == 256;
  }

  lemma FieldOfConcat(a: seq<bool>, b: seq<bool>, i: nat, width: nat)
    requires i + width <= |b|
    ensures Field(a + b, |a| + i, width) == Field(b, i, width)
  {
    assert (a + b)[|a| + i..|a| + i + width] == b[i..i + width];
  }

  lemma FieldOfFirst(a: seq<bool>, b: seq<bool>)
    ensures Field(a + b, 0, |a|) == BitsToNat(a)
  {
    assert (a + b)[0..|a|] == a;
  }

  predicate AreDigits(t: seq<nat>) {
    forall k :: 0 <= k < |t| ==> t[k] < 10
  }

  predicate AreLetters(t: seq<nat>) {
    forall k :: 0 <= k < |t| ==> t[k] < 45
  }

  predicate TripleAt(bits: seq<bool>, t: seq<nat>, k: nat)
    requires 3 * k + 3 <= |t| && 10 * k + 10 <= |bits|
  {
    Field(bits, 10 * k, 10) == 100 * t[3 * k] + 10 * t[3 * k + 1] + t[3 * k + 2]
  }

  /** The digits are written three at a time in ten bits, and the last two or one in seven or four. */
  predicate IsNumeric(bits: seq<bool>, t: seq<nat>) {
    && |bits| == 10 * (|t| / 3) + (if |t| % 3 == 2 then 7 else if |t| % 3 == 1 then 4 else 0)
    && (forall k :: 0 <= k < |t| / 3 ==> TripleAt(bits, t, k))
    && (|t| % 3 == 2 ==> Field(bits, |bits| - 7, 7) == 10 * t[|t| - 2] + t[|t| - 1])
    && (|t| % 3 == 1 ==> Field(bits, |bits| - 4, 4) == t[|t| - 1])
  }

  lemma NumericStep(bits: seq<bool>, t: seq<nat>)
    requires |t| >= 3 && AreDigits(t) && IsNumeric(bits, t[3..])
    ensures IsNumeric(Bin(t[0] * 100 + t[1] * 10 + t[2], 10) + bits, t)
  {
    hide Bin, BitsToNat;
    PowersAre();
    var v := t[0] * 100 + t[1] * 10 + t[2];
    BinIs(v, 10, 1024);
    var all := Bin(v, 10) + bits;
    forall k | 0 <= k < |t| / 3 ensures TripleAt(all, t, k) {
      if k == 0 {
        FieldOfFirst(Bin(v, 10), bits);
      } else {
        assert TripleAt(bits, t[3..], k - 1);
        FieldOfConcat(Bin(v, 10), bits, 10 * (k - 1), 10);
      }
    }
    if |t| % 3 == 2 { FieldOfConcat(Bin(v, 10), bits, |bits| - 7, 7); }
    if |t| % 3 == 1 { FieldOfConcat(Bin(v, 10), bits, |bits| - 4, 4); }
  }

  lemma NumericEnd(t: seq<nat>)
    requires |t| < 3 && AreDigits(t)
    ensures IsNumeric(NumericBits(t, 0), t)
  {
    hide BitsToNat, Bin;
    PowersAre();
    if |t| == 2 {
      BinIs(t[0] * 10 + t[1], 7, 128);
      WholeField(NumericBits(t, 0));
    } else if |t| == 1 {
      BinIs(t[0], 4, 16);
      WholeField(NumericBits(t, 0));
    }
  }

  lemma WholeField(bits: seq<bool>)
    ensures Field(bits, 0, |bits|) == BitsToNat(bits)
  {
    assert bits[0..|bits|] == bits;
  }

  lemma {:induction false} NumericShift(t: seq<nat>, i: nat)
    requires 3 <= i <= |t|
    ensures NumericBits(t, i) == NumericBits(t[3..], i - 3)
    decreases |t| - i
  {
    hide Bin;
    if i + 3 <= |t| {
      NumericShift(t, i + 3);
    }
  }

  /** Numeric text. */
  lemma {:induction false} NumericIs(t: seq<nat>)
    requires AreDigits(t)
    ensures IsNumeric(NumericBits(t, 0), t)
  {
    if |t| >= 3 {
      hide Bin, IsNumeric;
      NumericIs(t[3..]);
      NumericShift(t, 3);
      NumericStep(NumericBits(t[3..], 0), t);
    } else {
      NumericEnd(t);
    }
  }

  predicate PairAt(bits: seq<bool>, t: seq<nat>, k: nat)
    requires 2 * k + 2 <= |t| && 11 * k + 11 <= |bits|
  {
    Field(bits, 11 * k, 11) == 45 * t[2 * k] + t[2 * k + 1]
  }

  /** The characters are written two at a time in eleven bits, and the last one in six. */
  predicate IsAlphanumeric(bits: seq<bool>, t: seq<nat>) {
    && |bits| == 11 * (|t| / 2) + (if |t| % 2 == 1 then 6 else 0)
    && (forall k :: 0 <= k < |t| / 2 ==> PairAt(bits, t, k))
    && (|t| % 2 == 1 ==> Field(bits, |bits| - 6, 6) == t[|t| - 1])
  }

  lemma AlphanumericStep(bits: seq<bool>, t: seq<nat>)
    requires |t| >= 2 && AreLetters(t) && IsAlphanumeric(bits, t[2..])
    ensures IsAlphanumeric(Bin(t[0] * 45 + t[1], 11) + bits, t)
  {
    hide Bin, BitsToNat;
    PowersAre();
    var v := t[0] * 45 + t[1];
    BinIs(v, 11, 2048);
    var all := Bin(v, 11) + bits;
    forall k | 0 <= k < |t| / 2 ensures PairAt(all, t, k) {
      if k == 0 {
        FieldOfFirst(Bin(v, 11), bits);
      } else {
        assert PairAt(bits, t[2..], k - 1);
        FieldOfConcat(Bin(v, 11), bits, 11 * (k - 1), 11);
      }
    }
    if |t| % 2 == 1 { FieldOfConcat(Bin(v, 11), bits, |bits| - 6, 6); }
  }

  lemma AlphanumericEnd(t: seq<nat>)
    requires |t| < 2 && AreLetters(t)
    ensures IsAlphanumeric(AlphanumericBits(t, 0), t)
  {
    hide BitsToNat, Bin;
    PowersAre();
    if |t| == 1 {
      BinIs(t[0], 6, 64);
      WholeField(AlphanumericBits(t, 0));
    }
  }

  lemma {:induction false} AlphanumericShift(t: seq<nat>, i: nat)
    requires 2 <= i <= |t|
    ensures AlphanumericBits(t, i) == AlphanumericBits(t[2..], i - 2)
    decreases |t| - i
  {
    hide Bin;
    if i + 2 <= |t| {
      AlphanumericShift(t, i + 2);
    }
  }

  /** Alphanumeric text. */
  lemma {:induction false} AlphanumericIs(t: seq<nat>)
    requires AreLetters(t)
    ensures IsAlphanumeric(AlphanumericBits(t, 0), t)
  {
    if |t| >= 2 {
      hide Bin, IsAlphanumeric;
      AlphanumericIs(t[2..]);
      AlphanumericShift(t, 2);
      AlphanumericStep(AlphanumericBits(t[2..], 0), t);
    } else {
      AlphanumericEnd(t);
    }
  }

  /** The payload of a text, in the numbers that the alphabet gives its characters. */
  lemma PayloadIs(text: string, t: seq<nat>)
    requires |t| == |text|
    ensures (forall k :: 0 <= k < |t| ==> t[k] < 10 && "0123456789"[t[k]] == text[k]) ==>
      InAlphabet(NUMERIC, text) && IsNumeric(Payload(Numeric, text, []), t)
    ensures (forall k :: 0 <= k < |t| ==> t[k] < 45 && ALPHANUMERIC[t[k]] == text[k]) ==>
      InAlphabet(ALPHANUMERIC, text) && IsAlphanumeric(Payload(Alphanumeric, text, []), t)
  {
    hide IsNumeric, IsAlphanumeric, NumericBits, AlphanumericBits, Indices;
    if forall k :: 0 <= k < |t| ==> t[k] < 10 && "0123456789"[t[k]] == text[k] {
      IndicesAre(NUMERIC, text, t) by { NumericOnce(); }
      NumericIs(t);
    }
    if forall k :: 0 <= k < |t| ==> t[k] < 45 && ALPHANUMERIC[t[k]] == text[k] {
      IndicesAre(ALPHANUMERIC, text, t) by { AlphanumericOnce(); }
      AlphanumericIs(t);
    }
  }

  predicate EachOnce(alphabet: string) {
    forall i, j :: 0 <= i < j < |alphabet| ==> alphabet[i] != alphabet[j]
  }

  lemma NumericOnce()
    ensures EachOnce(NUMERIC)
  {}

  lemma AlphanumericOnce()
    ensures EachOnce(ALPHANUMERIC)
  {
    forall i, j | 0 <= i < j < |ALPHANUMERIC| ensures ALPHANUMERIC[i] != ALPHANUMERIC[j] {
      AlphabetsAre(i);
      AlphabetsAre(j);
    }
  }

  lemma IndicesAre(alphabet: string, text: string, t: seq<nat>)
    requires |t| == |text| && EachOnce(alphabet)
    requires forall k :: 0 <= k < |t| ==> t[k] < |alphabet| && alphabet[t[k]] == text[k]
    ensures InAlphabet(alphabet, text) && Indices(alphabet, text) == t
  {}

  // ---- Padding ----

  /** The number that a byte of the stream writes. */
  function ByteAt(stream: seq<bool>, q: nat): nat
    requires 8 * q + 8 <= |stream|
  {
    Field(stream, 8 * q, 8)
  }

  /** 236 and 17 in turn. */
  lemma PadBytesAre()
    ensures BitsToNat(PADDING[..8]) == 236 && BitsToNat(PADDING[8..]) == 17
  {
    assert PADDING[..8] == [true, true, true, false, true, true, false, false];
    assert PADDING[8..] == [false, false, false, true, false, false, false, true];
    EightBits(PADDING[..8]);
    EightBits(PADDING[8..]);
  }

  lemma EightBits(b: seq<bool>)
    requires |b| == 8
    ensures BitsToNat(b) == (if b[0] then 128 else 0) + (if b[1] then 64 else 0) + (if b[2] then 32 else 0) +
      (if b[3] then 16 else 0) + (if b[4] then 8 else 0) + (if b[5] then 4 else 0) + (if b[6] then 2 else 0) +
      if b[7] then 1 else 0
  {
    hide BitsToNat;
    FourBits(b[..4]);
    var (b5, b6, b7) := (b[..5], b[..6], b[..7]);
    LastBit(b);
    LastBit(b7);
    LastBit(b6);
    LastBit(b5);
    assert b7[..6] == b6 && b6[..5] == b5 && b5[..4] == b[..4];
  }

  lemma FourBits(b: seq<bool>)
    requires |b| == 4
    ensures BitsToNat(b) == (if b[0] then 8 else 0) + (if b[1] then 4 else 0) + (if b[2] then 2 else 0) +
      if b[3] then 1 else 0
  {
    hide BitsToNat;
    var (b1, b2, b3) := (b[..1], b[..2], b[..3]);
    LastBit(b);
    LastBit(b3);
    LastBit(b2);
    LastBit(b1);
    NoBits();
    assert b3[..2] == b2 && b2[..1] == b1 && b1[..0] == [];
  }

  lemma LastBit(b: seq<bool>)
    requires |b| > 0
    ensures BitsToNat(b) == 2 * BitsToNat(b[..|b| - 1]) + if b[|b| - 1] then 1 else 0
  {}

  lemma NoBits()
    ensures BitsToNat([]) == 0
  {}

  /**
   * A full stream begins with the given bits, goes on with up to four zeros and zeros to the end of a byte, and is
   * filled with the bytes 236 and 17 in turn.
   */
  lemma StreamIs(bits: seq<bool>, capacity: nat, stream: seq<bool>, q: nat)
    requires IsStream(bits, capacity, stream) && |stream| == capacity && capacity % 8 == 0 && |bits| <= capacity
    ensures bits <= stream
    ensures var start := if |bits| + 4 <= capacity then (|bits| + 11) / 8 else capacity / 8;
      && (forall i :: |bits| <= i < |stream| && i < 8 * start ==> !stream[i])
      && (start <= q < capacity / 8 ==> ByteAt(stream, q) == if (q - start) % 2 == 0 then 236 else 17)
  {
    hide BitsToNat, ByteAt, PadStart;
    PadStartBounds(|bits|, capacity);
    StartIs(|bits|, capacity);
    var start := PadStart(|bits|, capacity) / 8;
    assert forall i :: 0 <= i < |bits| ==> bits[i] == stream[i];
    if start <= q < capacity / 8 { PadByte(bits, capacity, stream, start, q); }
  }

  lemma PadByte(bits: seq<bool>, capacity: nat, stream: seq<bool>, start: nat, q: nat)
    requires IsStream(bits, capacity, stream) && |stream| == capacity
    requires |bits| <= PadStart(|bits|, capacity) == 8 * start
    requires start <= q && 8 * q + 8 <= capacity
    ensures ByteAt(stream, q) == if (q - start) % 2 == 0 then 236 else 17
  {
    hide BitsToNat, PadStart;
    PadBytesAre();
    var m := q - start;
    var b := stream[8 * q..8 * q + 8];
    var half := if m % 2 == 0 then PADDING[..8] else PADDING[8..];
    forall r | 0 <= r < 8 ensures b[r] == half[r] {
      PadPlace(m, r);
      assert stream[8 * q + r] == StreamBit(bits, capacity, 8 * q + r);
    }
    assert b == half;
  }

  lemma StartIs(used: nat, capacity: nat)
    requires used <= capacity && capacity % 8 == 0
    ensures PadStart(used, capacity) == 8 * if used + 4 <= capacity then (used + 11) / 8 else capacity / 8
  {}

  lemma PadPlace(m: nat, r: nat)
    requires r < 8
    ensures (8 * m + r) % 16 == if m % 2 == 0 then r else 8 + r
  {}
}
