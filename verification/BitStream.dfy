/** The bit stream of a QR symbol: mode, count, character groups, terminator and padding written
    by encode, and the segment reader of decodeBitmap (section 7.4 of ISO/IEC 18004:2015). */
module BitStream {
  import opened Gf256
  import opened Results

  datatype Mode = Numeric | Alphanumeric | Bytes

  /** A decoded segment: characters, or UTF-8 bytes that the caller turns into text. */
  datatype Piece = Chars(text: string) | Utf8(bytes: seq<Byte>)

  const NUMERIC: string := "0123456789"
  const ALPHANUMERIC: string := "0123456789ABCDEFGHIJKLMNOPQRSTUVWXYZ $%*+-./:"

  function SizeType(ver: nat): nat {
    (ver + 7) / 17
  }

  /** The width of the count field. */
  function LengthBits(ver: nat, mode: Mode): nat
    requires 1 <= ver <= 40
  {
    var t := SizeType(ver);
    match mode
    case Numeric => if t == 0 then 10 else if t == 1 then 12 else 14
    case Alphanumeric => if t == 0 then 9 else if t == 1 then 11 else 13
    case Bytes => if t == 0 then 8 else 16
  }

  function ModeBits(mode: Mode): seq<bool> {
    match mode
    case Numeric => [false, false, false, true]
    case Alphanumeric => [false, false, true, false]
    case Bytes => [false, true, false, false]
  }

  // ---- Numbers in binary ----

  function Pad(s: seq<bool>, width: int): seq<bool> {
    if |s| >= width then s else seq(width - |s|, _ => false) + s
  }

  /** dec.toString(2). */
  function ToBinary(n: nat): (s: seq<bool>)
    ensures |s| > 0
  {
    if n < 2 then [n == 1] else ToBinary(n / 2) + [n % 2 == 1]
  }

  /** n in binary, at least width digits; more when n needs them. */
  function Bin(n: nat, width: nat): seq<bool> {
    Pad(ToBinary(n), width)
  }

  lemma {:induction false} BinFits(n: nat, width: nat)
    requires width > 0 && n < Pow2(width)
    ensures Bin(n, width) == NatToBits(n, width)
  {
    if n < 2 {
      ZeroBits(width - 1);
      assert NatToBits(n, width) == NatToBits(n / 2, width - 1) + [n % 2 == 1];
    } else {
      BinFits(n / 2, width - 1);
      assert |ToBinary(n / 2)| <= width - 1 by { BinaryLength(n / 2, width - 1); }
    }
  }

  lemma {:induction false} BinaryLength(n: nat, width: nat)
    requires width > 0 && n < Pow2(width)
    ensures |ToBinary(n)| <= width
  {
    if n >= 2 {
      BinaryLength(n / 2, width - 1);
    }
  }

  lemma {:induction false} ZeroBits(width: nat)
    ensures NatToBits(0, width) == seq(width, _ => false)
  {
    if width > 0 {
      ZeroBits(width - 1);
    }
  }

  lemma BinReads(n: nat, width: nat)
    requires width > 0 && n < Pow2(width)
    ensures |Bin(n, width)| == width && BitsToNat(Bin(n, width)) == n
  {
    BinFits(n, width);
    NatRoundTrip(n, width);
  }

  // ---- Alphabets ----

  function IndexOf(alphabet: string, c: char): (i: int)
    ensures -1 <= i < |alphabet|
    ensures i >= 0 ==> alphabet[i] == c
    ensures i < 0 ==> c !in alphabet
  {
    if alphabet == [] then -1
    else if IndexOf(alphabet[..|alphabet| - 1], c) >= 0 then IndexOf(alphabet[..|alphabet| - 1], c)
    else if alphabet[|alphabet| - 1] == c then |alphabet| - 1 else -1
  }

  function AlphabetOf(mode: Mode): string {
    if mode == Numeric then NUMERIC else ALPHANUMERIC
  }

  predicate InAlphabet(alphabet: string, text: string) {
    forall c :: c in text ==> c in alphabet
  }

  function Indices(alphabet: string, text: string): (t: seq<nat>)
    requires InAlphabet(alphabet, text)
    ensures |t| == |text|
    ensures forall i :: 0 <= i < |t| ==> t[i] < |alphabet| && alphabet[t[i]] == text[i]
  {
    if text == [] then [] else
      var rest := text[..|text| - 1];
      assert text[|text| - 1] in text;
      Indices(alphabet, rest) + [IndexOf(alphabet, text[|text| - 1])]
  }

  // ---- Character groups ----

  /** The groups for the digits from index i on. */
  function NumericBits(t: seq<nat>, i: nat): seq<bool>
    requires i <= |t|
    decreases |t| - i
  {
    if |t| - i >= 3 then Bin(t[i] * 100 + t[i + 1] * 10 + t[i + 2], 10) + NumericBits(t, i + 3)
    else if |t| - i == 2 then Bin(t[i] * 10 + t[i + 1], 7)
    else if |t| - i == 1 then Bin(t[i], 4)
    else []
  }

  function AlphanumericBits(t: seq<nat>, i: nat): seq<bool>
    requires i <= |t|
    decreases |t| - i
  {
    if |t| - i >= 2 then Bin(t[i] * 45 + t[i + 1], 11) + AlphanumericBits(t, i + 2)
    else if |t| - i == 1 then Bin(t[i], 6)
    else []
  }

  function ByteBits(utf8: seq<Byte>): seq<bool> {
    if utf8 == [] then [] else ByteBits(utf8[..|utf8| - 1]) + utf8[|utf8| - 1]
  }

  /** The group bits of a text; utf8 is its encoding, used in byte mode. */
  function Payload(mode: Mode, text: string, utf8: seq<Byte>): seq<bool>
    requires mode != Bytes ==> InAlphabet(AlphabetOf(mode), text)
  {
    match mode
    case Numeric => NumericBits(Indices(NUMERIC, text), 0)
    case Alphanumeric => AlphanumericBits(Indices(ALPHANUMERIC, text), 0)
    case Bytes => ByteBits(utf8)
  }

  function DataLength(mode: Mode, text: string, utf8: seq<Byte>): nat {
    if mode == Bytes then |utf8| else |text|
  }

  function Header(ver: nat, mode: Mode, len: nat): seq<bool>
    requires 1 <= ver <= 40
  {
    ModeBits(mode) + Bin(len, LengthBits(ver, mode))
  }

  method EncodeNumeric(t: seq<nat>) returns (bits: seq<bool>)
    ensures bits == NumericBits(t, 0)
  {
    hide Bin;
    var n := |t|;
    bits := [];
    var i := 0;
    while i < n - 2
      invariant 0 <= i <= n && bits + NumericBits(t, i) == NumericBits(t, 0)
      invariant (n - i) % 3 == n % 3
    {
      ghost var (before, group) := (bits, Bin(t[i] * 100 + t[i + 1] * 10 + t[i + 2], 10));
      bits := bits + Bin(t[i] * 100 + t[i + 1] * 10 + t[i + 2], 10);
      i := i + 3;
      ConcatAssociates(before, group, NumericBits(t, i));
    }
    if n % 3 == 1 {
      bits := bits + Bin(t[n - 1], 4);
    } else if n % 3 == 2 {
      bits := bits + Bin(t[n - 2] * 10 + t[n - 1], 7);
    } else {
      assert bits + [] == bits;
    }
  }

  method EncodeAlphanumeric(t: seq<nat>) returns (bits: seq<bool>)
    ensures bits == AlphanumericBits(t, 0)
  {
    hide Bin;
    var n := |t|;
    bits := [];
    var i := 0;
    while i < n - 1
      invariant 0 <= i <= n && bits + AlphanumericBits(t, i) == AlphanumericBits(t, 0)
      invariant (n - i) % 2 == n % 2
    {
      ghost var (before, group) := (bits, Bin(t[i] * 45 + t[i + 1], 11));
      bits := bits + Bin(t[i] * 45 + t[i + 1], 11);
      i := i + 2;
      ConcatAssociates(before, group, AlphanumericBits(t, i));
    }
    if n % 2 == 1 {
      bits := bits + Bin(t[n - 1], 6);
    } else {
      assert bits + [] == bits;
    }
  }

  lemma ConcatAssociates<T>(a: seq<T>, b: seq<T>, c: seq<T>)
    ensures (a + b) + c == a + (b + c)
  {}

  method EncodeBytes(utf8: seq<Byte>) returns (bits: seq<bool>)
    ensures bits == ByteBits(utf8)
  {
    bits := [];
    for i := 0 to |utf8|
      invariant bits == ByteBits(utf8[..i])
    {
      assert utf8[..i + 1][..i] == utf8[..i];
      bits := bits + utf8[i];
    }
    assert utf8[..|utf8|] == utf8;
  }

  method EncodePayload(mode: Mode, text: string, utf8: seq<Byte>) returns (encoded: Result<seq<bool>>)
    ensures encoded.Ok? <==> mode == Bytes || InAlphabet(AlphabetOf(mode), text)
    ensures encoded.Ok? ==> encoded.value == Payload(mode, text, utf8)
  {
    if mode != Bytes && !InAlphabet(AlphabetOf(mode), text) {
      return Err("Unknown letter");
    }
    var bits;
    match mode {
      case Numeric => bits := EncodeNumeric(Indices(NUMERIC, text));
      case Alphanumeric => bits := EncodeAlphanumeric(Indices(ALPHANUMERIC, text));
      case Bytes => bits := EncodeBytes(utf8);
    }
    encoded := Ok(bits);
  }

  // ---- Terminator and padding ----

  const PADDING: seq<bool> := [true, true, true, false, true, true, false, false,
                               false, false, false, true, false, false, false, true]

  /** The length of the terminator, cut to the spare bits. */
  function TerminatorLength(spare: int): int {
    if spare < 4 then spare else 4
  }

  /** Where the alternating pad bytes begin. */
  function PadStart(used: nat, capacity: nat): int {
    (used + TerminatorLength(capacity - used) + 7) / 8 * 8
  }

  /** The i-th bit of the finished stream. */
  function StreamBit(bits: seq<bool>, capacity: nat, i: nat): bool {
    if i < |bits| then bits[i]
    else if i < PadStart(|bits|, capacity) then false
    else PADDING[(i - PadStart(|bits|, capacity)) % 16]
  }

  ghost predicate IsStream(bits: seq<bool>, capacity: nat, stream: seq<bool>) {
    && |stream| <= capacity
    && forall i :: 0 <= i < |stream| ==> stream[i] == StreamBit(bits, capacity, i)
  }

  lemma StreamStart(bits: seq<bool>, capacity: nat, zeros: nat)
    requires |bits| + zeros == PadStart(|bits|, capacity) <= capacity
    ensures IsStream(bits, capacity, bits + seq(zeros, _ => false))
  {}

  lemma StreamGrows(bits: seq<bool>, capacity: nat, stream: seq<bool>)
    requires IsStream(bits, capacity, stream) && |bits| <= PadStart(|bits|, capacity) <= |stream| < capacity
    ensures IsStream(bits, capacity, stream + [PADDING[(|stream| - PadStart(|bits|, capacity)) % 16]])
  {}

  lemma PadStartBounds(used: nat, capacity: nat)
    requires used <= capacity && capacity % 8 == 0
    ensures used <= PadStart(used, capacity) <= capacity && PadStart(used, capacity) % 8 == 0
    ensures var n := used + TerminatorLength(capacity - used);
      PadStart(used, capacity) == if n % 8 == 0 then n else n + 8 - n % 8
  {
    hide TerminatorLength;
    var n := used + TerminatorLength(capacity - used);
    TerminatorFits(capacity - used);
    NextByte(n, capacity);
  }

  lemma TerminatorFits(spare: nat)
    ensures 0 <= TerminatorLength(spare) <= spare
  {}

  /** The next multiple of eight. */
  lemma NextByte(n: nat, capacity: nat)
    requires n <= capacity && capacity % 8 == 0
    ensures var m := (n + 7) / 8 * 8; n <= m <= capacity && m % 8 == 0 && m == if n % 8 == 0 then n else n + 8 - n % 8
  {}

  /** Fills the stream up to the capacity: at most four zero bits, zero bits up to a byte
      boundary, then the padding pattern. */
  method Fill(bits: seq<bool>, capacity: nat) returns (stream: seq<bool>)
    requires |bits| <= capacity && capacity % 8 == 0
    ensures |stream| == capacity && IsStream(bits, capacity, stream)
  {
    hide IsStream, PadStart;
    var terminator := TerminatorLength(if capacity > |bits| then capacity - |bits| else 0);
    stream := bits + seq(terminator, _ => false);
    PadStartBounds(|bits|, capacity);
    if |stream| % 8 != 0 {
      stream := stream + seq(8 - |stream| % 8, _ => false);
    }
    assert stream == bits + seq(|stream| - |bits|, _ => false);
    StreamStart(bits, capacity, |stream| - |bits|);
    var idx := 0;
    while |stream| != capacity
      invariant idx == |stream| - PadStart(|bits|, capacity) && |stream| <= capacity
      invariant IsStream(bits, capacity, stream)
      decreases capacity - |stream|
    {
      StreamGrows(bits, capacity, stream);
      stream := stream + [PADDING[idx % |PADDING|]];
      idx := idx + 1;
    }
  }

  function ToBytes(stream: seq<bool>): (bytes: seq<Byte>)
    requires |stream| % 8 == 0
    ensures |bytes| == |stream| / 8
  {
    if stream == [] then [] else
      var n := |stream| - 8;
      var last: Byte := stream[n..];
      ToBytes(stream[..n]) + [last]
  }

  lemma {:induction false} BytesToBits(stream: seq<bool>)
    requires |stream| % 8 == 0
    ensures ByteBits(ToBytes(stream)) == stream
  {
    if stream != [] {
      var n := |stream| - 8;
      BytesToBits(stream[..n]);
      assert ToBytes(stream)[..|ToBytes(stream)| - 1] == ToBytes(stream[..n]);
      assert stream == stream[..n] + stream[n..];
    }
  }

  /** encode up to the call of interleave: the data bytes of a symbol of the given capacity. */
  method Encode(ver: nat, capacity: nat, mode: Mode, text: string, utf8: seq<Byte>) returns (res: Result<seq<Byte>>)
    requires 1 <= ver <= 40 && capacity % 8 == 0
    ensures res.Ok? <==>
      && (mode == Bytes || InAlphabet(AlphabetOf(mode), text))
      && |Header(ver, mode, DataLength(mode, text, utf8))| + |Payload(mode, text, utf8)| <= capacity
    ensures res.Ok? ==> |res.value| == capacity / 8
    ensures res.Ok? ==>
      IsStream(Header(ver, mode, DataLength(mode, text, utf8)) + Payload(mode, text, utf8), capacity,
               ByteBits(res.value))
  {
    hide Payload, Bin, IsStream, ModeBits;
    var encoded := EncodePayload(mode, text, utf8);
    if encoded.Err? {
      return Err(encoded.error);
    }
    var len := Bin(DataLength(mode, text, utf8), LengthBits(ver, mode));
    var bits := ModeBits(mode) + len + encoded.value;
    if |bits| > capacity {
      return Err("Capacity overflow");
    }
    bits := Fill(bits, capacity);
    BytesToBits(bits);
    res := Ok(ToBytes(bits));
  }

  // ---- The reader ----

  function Digit(v: nat): char
    requires v < 10
  {
    NUMERIC[v]
  }

  /** Reads count digits in groups of three. */
  function ReadNumeric(bits: seq<bool>, count: nat): Result<(string, seq<bool>)>
    decreases count
  {
    if count >= 3 then
      if |bits| < 10 then Err("Not enough bits") else
      var v := BitsToNat(bits[..10]);
      if v >= 1000 then Err("numberic(3)") else
      match ReadNumeric(bits[10..], count - 3)
      case Err(e) => Err(e)
      case Ok((text, rest)) => Ok(([Digit(v / 100), Digit(v / 10 % 10), Digit(v % 10)] + text, rest))
    else if count == 2 then
      if |bits| < 7 then Err("Not enough bits") else
      var v := BitsToNat(bits[..7]);
      if v >= 100 then Err("numeric(2)") else Ok(([Digit(v / 10), Digit(v % 10)], bits[7..]))
    else if count == 1 then
      if |bits| < 4 then Err("Not enough bits") else
      var v := BitsToNat(bits[..4]);
      if v >= 10 then Err("Numeric(1)") else Ok(([Digit(v)], bits[4..]))
    else Ok(("", bits))
  }

  function ReadAlphanumeric(bits: seq<bool>, count: nat): Result<(string, seq<bool>)>
    decreases count
  {
    if count >= 2 then
      if |bits| < 11 then Err("Not enough bits") else
      var v := BitsToNat(bits[..11]);
      if v / 45 >= |ALPHANUMERIC| then Err("Digit index outside alphabet") else
      match ReadAlphanumeric(bits[11..], count - 2)
      case Err(e) => Err(e)
      case Ok((text, rest)) => Ok(([ALPHANUMERIC[v / 45], ALPHANUMERIC[v % 45]] + text, rest))
    else if count == 1 then
      if |bits| < 6 then Err("Not enough bits") else
      var v := BitsToNat(bits[..6]);
      if v >= |ALPHANUMERIC| then Err("Digit index outside alphabet") else Ok(([ALPHANUMERIC[v]], bits[6..]))
    else Ok(("", bits))
  }

  function ReadByteMode(bits: seq<bool>, count: nat): Result<(seq<Byte>, seq<bool>)>
    decreases count
  {
    if count == 0 then Ok(([], bits))
    else if |bits| < 8 then Err("Not enough bits")
    else
      var b: Byte := bits[..8];
      match ReadByteMode(bits[8..], count - 1)
      case Err(e) => Err(e)
      case Ok((utf8, rest)) => Ok(([b] + utf8, rest))
  }

  function ReadSegment(mode: Mode, bits: seq<bool>, count: nat): Result<(Piece, seq<bool>)> {
    match mode
    case Numeric =>
      (match ReadNumeric(bits, count)
       case Err(e) => Err(e)
       case Ok((text, rest)) => Ok((Chars(text), rest)))
    case Alphanumeric =>
      (match ReadAlphanumeric(bits, count)
       case Err(e) => Err(e)
       case Ok((text, rest)) => Ok((Chars(text), rest)))
    case Bytes =>
      (match ReadByteMode(bits, count)
       case Err(e) => Err(e)
       case Ok((utf8, rest)) => Ok((Utf8(utf8), rest)))
  }

  datatype Tag = Terminator | Data(mode: Mode) | Unsupported | Unknown

  function TagOf(bits: seq<bool>): Tag
    requires |bits| == 4
  {
    if bits == [false, false, false, false] then Terminator
    else if bits == [false, false, false, true] then Data(Numeric)
    else if bits == [false, false, true, false] then Data(Alphanumeric)
    else if bits == [false, true, false, false] then Data(Bytes)
    else if bits == [false, true, true, true] || bits == [true, false, false, false] then Unsupported
    else Unknown
  }

  // ---- Groups read back ----

  function Text(alphabet: string, t: seq<nat>): (text: string)
    requires forall k :: 0 <= k < |t| ==> t[k] < |alphabet|
    ensures |text| == |t| && forall k :: 0 <= k < |t| ==> text[k] == alphabet[t[k]]
  {
    seq(|t|, k requires 0 <= k < |t| => alphabet[t[k]])
  }

  lemma GroupReads(n: nat, width: nat, limit: nat, rest: seq<bool>)
    requires n < limit <= Pow2(width) && width > 0
    ensures var bits := Bin(n, width) + rest;
      |bits| >= width && BitsToNat(bits[..width]) == n && bits[width..] == rest
  {
    hide Bin;
    BinReads(n, width);
    assert (Bin(n, width) + rest)[..width] == Bin(n, width);
  }

  lemma FieldWidths()
    ensures Pow2(4) == 16 && Pow2(6) == 64 && Pow2(7) == 128 && Pow2(10) == 1024 && Pow2(11) == 2048
  {}

  lemma NumericGroup(a: nat, b: nat, c: nat, tail: seq<bool>, count: nat, text: string, rest: seq<bool>)
    requires a < 10 && b < 10 && c < 10 && count >= 3
    requires ReadNumeric(tail, count - 3) == Ok((text, rest))
    ensures ReadNumeric(Bin(a * 100 + b * 10 + c, 10) + tail, count)
         == Ok(([Digit(a), Digit(b), Digit(c)] + text, rest))
  {
    hide Bin, BitsToNat, Pow2, Digit;
    FieldWidths();
    var v := a * 100 + b * 10 + c;
    GroupReads(v, 10, 1000, tail);
    assert v / 100 == a && v / 10 % 10 == b && v % 10 == c;
  }

  lemma NumericPair(a: nat, b: nat, rest: seq<bool>)
    requires a < 10 && b < 10
    ensures ReadNumeric(Bin(a * 10 + b, 7) + rest, 2) == Ok(([Digit(a), Digit(b)], rest))
  {
    hide Bin, BitsToNat, Pow2, Digit;
    FieldWidths();
    GroupReads(a * 10 + b, 7, 100, rest);
  }

  lemma NumericSingle(a: nat, rest: seq<bool>)
    requires a < 10
    ensures ReadNumeric(Bin(a, 4) + rest, 1) == Ok(([Digit(a)], rest))
  {
    hide Bin, BitsToNat, Pow2, Digit;
    FieldWidths();
    GroupReads(a, 4, 10, rest);
  }

  lemma NumericNone(rest: seq<bool>)
    ensures ReadNumeric([] + rest, 0) == Ok(("", rest))
  {
    assert [] + rest == rest;
  }

  lemma NumericTail(t: seq<nat>, i: nat, rest: seq<bool>)
    requires i <= |t| < i + 3 && forall k :: 0 <= k < |t| ==> t[k] < 10
    ensures ReadNumeric(NumericBits(t, i) + rest, |t| - i) == Ok((Text(NUMERIC, t[i..]), rest))
  {
    hide Bin, ReadNumeric;
    if |t| - i == 2 {
      NumericPair(t[i], t[i + 1], rest);
      assert Text(NUMERIC, t[i..]) == [Digit(t[i]), Digit(t[i + 1])];
    } else if |t| - i == 1 {
      NumericSingle(t[i], rest);
      assert Text(NUMERIC, t[i..]) == [Digit(t[i])];
    } else {
      NumericNone(rest);
    }
  }

  lemma {:induction false} NumericReads(t: seq<nat>, i: nat, rest: seq<bool>)
    requires i <= |t| && forall k :: 0 <= k < |t| ==> t[k] < 10
    ensures ReadNumeric(NumericBits(t, i) + rest, |t| - i) == Ok((Text(NUMERIC, t[i..]), rest))
    decreases |t| - i
  {
    hide Bin, ReadNumeric;
    if |t| - i >= 3 {
      var tail := NumericBits(t, i + 3) + rest;
      NumericReads(t, i + 3, rest);
      ConcatAssociates(Bin(t[i] * 100 + t[i + 1] * 10 + t[i + 2], 10), NumericBits(t, i + 3), rest);
      NumericGroup(t[i], t[i + 1], t[i + 2], tail, |t| - i, Text(NUMERIC, t[i + 3..]), rest);
      assert Text(NUMERIC, t[i..]) == [Digit(t[i]), Digit(t[i + 1]), Digit(t[i + 2])] + Text(NUMERIC, t[i + 3..]);
    } else {
      NumericTail(t, i, rest);
    }
  }

  lemma AlphanumericGroup(a: nat, b: nat, tail: seq<bool>, count: nat, text: string, rest: seq<bool>)
    requires a < 45 && b < 45 && count >= 2 && |ALPHANUMERIC| == 45
    requires ReadAlphanumeric(tail, count - 2) == Ok((text, rest))
    ensures ReadAlphanumeric(Bin(a * 45 + b, 11) + tail, count)
         == Ok(([ALPHANUMERIC[a], ALPHANUMERIC[b]] + text, rest))
  {
    hide Bin, BitsToNat, Pow2;
    FieldWidths();
    var v := a * 45 + b;
    GroupReads(v, 11, 2025, tail);
    assert v / 45 == a && v % 45 == b;
  }

  lemma AlphanumericSingle(a: nat, rest: seq<bool>)
    requires a < 45 && |ALPHANUMERIC| == 45
    ensures ReadAlphanumeric(Bin(a, 6) + rest, 1) == Ok(([ALPHANUMERIC[a]], rest))
  {
    hide Bin, BitsToNat, Pow2;
    FieldWidths();
    GroupReads(a, 6, 45, rest);
  }

  lemma AlphanumericNone(rest: seq<bool>)
    ensures ReadAlphanumeric([] + rest, 0) == Ok(("", rest))
  {
    assert [] + rest == rest;
  }

  lemma AlphabetSize()
    ensures |ALPHANUMERIC| == 45
  {}

  lemma {:induction false} AlphanumericReads(t: seq<nat>, i: nat, rest: seq<bool>)
    requires i <= |t| && forall k :: 0 <= k < |t| ==> t[k] < |ALPHANUMERIC|
    ensures ReadAlphanumeric(AlphanumericBits(t, i) + rest, |t| - i) == Ok((Text(ALPHANUMERIC, t[i..]), rest))
    decreases |t| - i
  {
    hide Bin, ReadAlphanumeric;
    AlphabetSize();
    if |t| - i >= 2 {
      var tail := AlphanumericBits(t, i + 2) + rest;
      AlphanumericReads(t, i + 2, rest);
      ConcatAssociates(Bin(t[i] * 45 + t[i + 1], 11), AlphanumericBits(t, i + 2), rest);
      AlphanumericGroup(t[i], t[i + 1], tail, |t| - i, Text(ALPHANUMERIC, t[i + 2..]), rest);
      assert Text(ALPHANUMERIC, t[i..])
          == [ALPHANUMERIC[t[i]], ALPHANUMERIC[t[i + 1]]] + Text(ALPHANUMERIC, t[i + 2..]);
    } else if |t| - i == 1 {
      AlphanumericSingle(t[i], rest);
      assert Text(ALPHANUMERIC, t[i..]) == [ALPHANUMERIC[t[i]]];
    } else {
      AlphanumericNone(rest);
    }
  }

  lemma {:induction false} ByteBitsFirst(utf8: seq<Byte>)
    requires utf8 != []
    ensures ByteBits(utf8) == utf8[0] + ByteBits(utf8[1..])
  {
    if |utf8| > 1 {
      var n := |utf8| - 1;
      ByteBitsFirst(utf8[..n]);
      assert utf8[..n][1..] == utf8[1..][..n - 1];
      ConcatAssociates(utf8[0], ByteBits(utf8[1..n]), utf8[n]);
    } else {
      assert utf8[..0] == [] && utf8[1..] == [];
      assert ByteBits(utf8) == utf8[0] == utf8[0] + [];
    }
  }

  lemma {:induction false} ByteModeReads(utf8: seq<Byte>, rest: seq<bool>)
    ensures ReadByteMode(ByteBits(utf8) + rest, |utf8|) == Ok((utf8, rest))
  {
    if utf8 == [] {
      assert [] + rest == rest;
    } else {
      ByteBitsFirst(utf8);
      var tail := ByteBits(utf8[1..]) + rest;
      var first: seq<bool> := utf8[0];
      var bits := first + tail;
      assert ByteBits(utf8) + rest == bits && bits[..8] == utf8[0] && bits[8..] == tail;
      ByteModeReads(utf8[1..], rest);
      assert [utf8[0]] + utf8[1..] == utf8;
    }
  }

  /** A written segment is read back whole, whatever follows it. */
  lemma SegmentReads(mode: Mode, text: string, utf8: seq<Byte>, rest: seq<bool>)
    requires mode != Bytes ==> InAlphabet(AlphabetOf(mode), text)
    ensures ReadSegment(mode, Payload(mode, text, utf8) + rest, DataLength(mode, text, utf8))
         == Ok((if mode == Bytes then Utf8(utf8) else Chars(text), rest))
  {
    match mode
    case Numeric =>
      var t := Indices(NUMERIC, text);
      NumericReads(t, 0, rest);
      assert t[0..] == t && Text(NUMERIC, t) == text;
    case Alphanumeric =>
      var t := Indices(ALPHANUMERIC, text);
      AlphanumericReads(t, 0, rest);
      assert t[0..] == t && Text(ALPHANUMERIC, t) == text;
    case Bytes =>
      ByteModeReads(utf8, rest);
  }

  // ---- The reading loop ----

  lemma {:induction false} ReadNumericShrinks(bits: seq<bool>, count: nat)
    ensures ReadNumeric(bits, count).Ok? ==> |ReadNumeric(bits, count).value.1| <= |bits|
  {
    hide BitsToNat;
    if count >= 3 && |bits| >= 10 {
      ReadNumericShrinks(bits[10..], count - 3);
    }
  }

  lemma {:induction false} ReadAlphanumericShrinks(bits: seq<bool>, count: nat)
    ensures ReadAlphanumeric(bits, count).Ok? ==> |ReadAlphanumeric(bits, count).value.1| <= |bits|
  {
    hide BitsToNat;
    if count >= 2 && |bits| >= 11 {
      ReadAlphanumericShrinks(bits[11..], count - 2);
    }
  }

  lemma {:induction false} ReadByteModeShrinks(bits: seq<bool>, count: nat)
    ensures ReadByteMode(bits, count).Ok? ==> |ReadByteMode(bits, count).value.1| <= |bits|
  {
    if count > 0 && |bits| >= 8 {
      ReadByteModeShrinks(bits[8..], count - 1);
    }
  }

  /** One segment after its mode bits, or why it cannot be read. */
  function ReadTagged(ver: nat, tag: Tag, bits: seq<bool>): (res: Result<(Piece, seq<bool>)>)
    requires 1 <= ver <= 40 && tag != Terminator
    ensures res.Ok? ==> |res.value.1| <= |bits|
  {
    if tag == Unknown then Err("Unknown modeBits")
    else if tag == Unsupported then Err("Unknown mode")
    else
      var width := LengthBits(ver, tag.mode);
      if |bits| < width then Err("Not enough bits") else
      var (count, rest) := (BitsToNat(bits[..width]), bits[width..]);
      ReadNumericShrinks(rest, count);
      ReadAlphanumericShrinks(rest, count);
      ReadByteModeShrinks(rest, count);
      ReadSegment(tag.mode, rest, count)
  }

  /** All segments up to a terminator or until fewer than four bits are left. */
  function ReadAll(ver: nat, bits: seq<bool>): Result<seq<Piece>>
    requires 1 <= ver <= 40
    decreases |bits|
  {
    if |bits| < 4 || TagOf(bits[..4]) == Terminator then Ok([])
    else match ReadTagged(ver, TagOf(bits[..4]), bits[4..])
      case Err(e) => Err(e)
      case Ok((piece, rest)) => After([piece], ReadAll(ver, rest))
  }

  function After<T>(done: seq<T>, rest: Result<seq<T>>): Result<seq<T>> {
    match rest
    case Err(e) => Err(e)
    case Ok(more) => Ok(done + more)
  }

  function AfterText(done: string, rest: Result<(string, seq<bool>)>): Result<(string, seq<bool>)> {
    match rest
    case Err(e) => Err(e)
    case Ok((text, bits)) => Ok((done + text, bits))
  }

  method ReadNumericLoop(input: seq<bool>, total: nat) returns (res: Result<(string, seq<bool>)>)
    ensures res == ReadNumeric(input, total)
  {
    hide BitsToNat, Digit;
    var bits, count, text := input, total, "";
    AfterNothing(ReadNumeric(input, total));
    while count >= 3
      invariant ReadNumeric(input, total) == AfterText(text, ReadNumeric(bits, count))
    {
      if |bits| < 10 {
        return Err("Not enough bits");
      }
      var v := BitsToNat(bits[..10]);
      if v >= 1000 {
        return Err("numberic(3)");
      }
      var digits := [Digit(v / 100), Digit(v / 10 % 10), Digit(v % 10)];
      AfterBoth(text, digits, ReadNumeric(bits[10..], count - 3));
      text := text + digits;
      bits := bits[10..];
      count := count - 3;
    }
    if count == 2 {
      if |bits| < 7 {
        return Err("Not enough bits");
      }
      var v := BitsToNat(bits[..7]);
      if v >= 100 {
        return Err("numeric(2)");
      }
      return Ok((text + [Digit(v / 10), Digit(v % 10)], bits[7..]));
    } else if count == 1 {
      if |bits| < 4 {
        return Err("Not enough bits");
      }
      var v := BitsToNat(bits[..4]);
      if v >= 10 {
        return Err("Numeric(1)");
      }
      return Ok((text + [Digit(v)], bits[4..]));
    }
    assert text + "" == text;
    res := Ok((text, bits));
  }

  lemma AfterNothing(r: Result<(string, seq<bool>)>)
    ensures AfterText("", r) == r
  {
    if r.Ok? {
      assert "" + r.value.0 == r.value.0;
    }
  }

  lemma AfterBoth(a: string, b: string, r: Result<(string, seq<bool>)>)
    ensures AfterText(a, AfterText(b, r)) == AfterText(a + b, r)
  {
    if r.Ok? {
      ConcatAssociates(a, b, r.value.0);
    }
  }

  method ReadAlphanumericLoop(input: seq<bool>, total: nat) returns (res: Result<(string, seq<bool>)>)
    ensures res == ReadAlphanumeric(input, total)
  {
    hide BitsToNat;
    var bits, count, text := input, total, "";
    AfterNothing(ReadAlphanumeric(input, total));
    while count >= 2
      invariant ReadAlphanumeric(input, total) == AfterText(text, ReadAlphanumeric(bits, count))
    {
      if |bits| < 11 {
        return Err("Not enough bits");
      }
      var v := BitsToNat(bits[..11]);
      if v / 45 >= |ALPHANUMERIC| {
        return Err("Digit index outside alphabet");
      }
      var chars := [ALPHANUMERIC[v / 45], ALPHANUMERIC[v % 45]];
      AfterBoth(text, chars, ReadAlphanumeric(bits[11..], count - 2));
      text := text + chars;
      bits := bits[11..];
      count := count - 2;
    }
    if count == 1 {
      if |bits| < 6 {
        return Err("Not enough bits");
      }
      var v := BitsToNat(bits[..6]);
      if v >= |ALPHANUMERIC| {
        return Err("Digit index outside alphabet");
      }
      return Ok((text + [ALPHANUMERIC[v]], bits[6..]));
    }
    assert text + "" == text;
    res := Ok((text, bits));
  }

  method ReadByteModeLoop(input: seq<bool>, total: nat) returns (res: Result<(seq<Byte>, seq<bool>)>)
    ensures res == ReadByteMode(input, total)
  {
    var bits: seq<bool>, utf8: seq<Byte> := input, [];
    ghost var whole := ReadByteMode(input, total);
    for i := 0 to total
      invariant whole.Ok? <==> ReadByteMode(bits, total - i).Ok?
      invariant whole.Ok? ==> whole.value.0 == utf8 + ReadByteMode(bits, total - i).value.0
      invariant whole.Ok? ==> whole.value.1 == ReadByteMode(bits, total - i).value.1
      invariant whole.Err? ==> whole == ReadByteMode(bits, total - i)
    {
      if |bits| < 8 {
        return Err("Not enough bits");
      }
      var b: Byte := bits[..8];
      utf8 := utf8 + [b];
      bits := bits[8..];
    }
    assert utf8 + [] == utf8;
    res := Ok((utf8, bits));
  }

  method Read(ver: nat, input: seq<bool>) returns (res: Result<seq<Piece>>)
    requires 1 <= ver <= 40
    ensures res == ReadAll(ver, input)
  {
    hide TagOf, BitsToNat, ReadNumeric, ReadAlphanumeric, ReadByteMode;
    var bits: seq<bool>, pieces: seq<Piece> := input, [];
    AfterNone(ReadAll(ver, input));
    while true
      invariant ReadAll(ver, input) == After(pieces, ReadAll(ver, bits))
      decreases |bits|
    {
      if |bits| < 4 {
        break;
      }
      var tag := TagOf(bits[..4]);
      if tag == Unknown {
        return Err("Unknown modeBits");
      }
      if tag == Terminator {
        break;
      }
      if tag == Unsupported {
        return Err("Unknown mode");
      }
      bits := bits[4..];
      var width := LengthBits(ver, tag.mode);
      if |bits| < width {
        return Err("Not enough bits");
      }
      var count := BitsToNat(bits[..width]);
      bits := bits[width..];
      var piece;
      match tag.mode {
        case Numeric =>
          var r := ReadNumericLoop(bits, count);
          if r.Err? {
            return Err(r.error);
          }
          piece, bits := Chars(r.value.0), r.value.1;
        case Alphanumeric =>
          var r := ReadAlphanumericLoop(bits, count);
          if r.Err? {
            return Err(r.error);
          }
          piece, bits := Chars(r.value.0), r.value.1;
        case Bytes =>
          var r := ReadByteModeLoop(bits, count);
          if r.Err? {
            return Err(r.error);
          }
          piece, bits := Utf8(r.value.0), r.value.1;
      }
      AfterMore(pieces, [piece], ReadAll(ver, bits));
      pieces := pieces + [piece];
    }
    assert pieces + [] == pieces;
    res := Ok(pieces);
  }

  lemma AfterNone<T>(r: Result<seq<T>>)
    ensures After([], r) == r
  {
    if r.Ok? {
      assert [] + r.value == r.value;
    }
  }

  lemma AfterMore<T>(a: seq<T>, b: seq<T>, r: Result<seq<T>>)
    ensures After(a, After(b, r)) == After(a + b, r)
  {
    if r.Ok? {
      ConcatAssociates(a, b, r.value);
    }
  }

  // ---- Round trip ----

  /** After the data the reader stops: too few bits are left, or the terminator follows. */
  lemma StopsAfterData(ver: nat, bits: seq<bool>, capacity: nat, stream: seq<bool>)
    requires 1 <= ver <= 40 && |bits| <= capacity == |stream| && capacity % 8 == 0
    requires IsStream(bits, capacity, stream)
    ensures ReadAll(ver, stream[|bits|..]) == Ok([])
  {
    var rest := stream[|bits|..];
    PadStartBounds(|bits|, capacity);
    if |rest| >= 4 {
      forall k | 0 <= k < 4 ensures !rest[k] {
        assert rest[k] == stream[|bits| + k];
      }
      assert rest[..4] == [false, false, false, false];
    }
  }

  /** Every text that fits is read back exactly, for every version, mode and capacity. */
  lemma StreamRoundTrip(ver: nat, capacity: nat, mode: Mode, text: string, utf8: seq<Byte>, stream: seq<bool>)
    requires 1 <= ver <= 40 && capacity % 8 == 0 && |stream| == capacity
    requires mode != Bytes ==> InAlphabet(AlphabetOf(mode), text)
    requires DataLength(mode, text, utf8) < Pow2(LengthBits(ver, mode))
    requires var bits := Header(ver, mode, DataLength(mode, text, utf8)) + Payload(mode, text, utf8);
      |bits| <= capacity && IsStream(bits, capacity, stream)
    ensures ReadAll(ver, stream) == Ok([if mode == Bytes then Utf8(utf8) else Chars(text)])
  {
    hide *;
    var len := DataLength(mode, text, utf8);
    var payload := Payload(mode, text, utf8);
    var bits := Header(ver, mode, len) + payload;
    var rest := stream[|bits|..];
    StreamPrefix(bits, capacity, stream);
    StopsAfterData(ver, bits, capacity, stream);
    HeaderReads(ver, mode, len, payload, rest);
    SegmentReads(mode, text, utf8, rest);
    TaggedReads(ver, mode, len, payload + rest);
    AllReads(ver, stream, mode, Bin(len, LengthBits(ver, mode)) + (payload + rest));
    AfterOnly(if mode == Bytes then Utf8(utf8) else Chars(text));
  }

  lemma AfterOnly(piece: Piece)
    ensures After([piece], Ok([])) == Ok([piece])
  {
    assert [piece] + [] == [piece];
  }

  lemma HeaderReads(ver: nat, mode: Mode, len: nat, payload: seq<bool>, rest: seq<bool>)
    requires 1 <= ver <= 40
    ensures Header(ver, mode, len) + payload + rest
         == ModeBits(mode) + (Bin(len, LengthBits(ver, mode)) + (payload + rest))
  {}

  lemma TaggedReads(ver: nat, mode: Mode, len: nat, body: seq<bool>)
    requires 1 <= ver <= 40 && len < Pow2(LengthBits(ver, mode))
    ensures ReadTagged(ver, Data(mode), Bin(len, LengthBits(ver, mode)) + body) == ReadSegment(mode, body, len)
  {
    hide Bin, LengthBits, Pow2, BitsToNat, ReadSegment;
    WidthPositive(ver, mode);
    var width := LengthBits(ver, mode);
    BinReads(len, width);
    var bits := Bin(len, width) + body;
    assert bits[..width] == Bin(len, width) && bits[width..] == body;
  }

  lemma AllReads(ver: nat, stream: seq<bool>, mode: Mode, body: seq<bool>)
    requires 1 <= ver <= 40 && stream == ModeBits(mode) + body
    ensures ReadAll(ver, stream) ==
      match ReadTagged(ver, Data(mode), body)
      case Err(e) => Err(e)
      case Ok((piece, rest)) => After([piece], ReadAll(ver, rest))
  {
    hide ReadTagged;
    assert stream[..4] == ModeBits(mode) && stream[4..] == body;
  }

  lemma WidthPositive(ver: nat, mode: Mode)
    requires 1 <= ver <= 40
    ensures LengthBits(ver, mode) > 0
  {}

  lemma StreamPrefix(bits: seq<bool>, capacity: nat, stream: seq<bool>)
    requires |bits| <= |stream| && IsStream(bits, capacity, stream)
    ensures stream == bits + stream[|bits|..]
  {}

  // ---- How long a payload is ----

  lemma {:induction false} NumericLength(t: seq<nat>, i: nat)
    requires i <= |t|
    ensures 3 * |NumericBits(t, i)| >= 10 * (|t| - i)
    decreases |t| - i
  {
    hide ToBinary;
    if |t| - i >= 3 {
      NumericLength(t, i + 3);
    }
  }

  lemma {:induction false} AlphanumericLength(t: seq<nat>, i: nat)
    requires i <= |t|
    ensures 2 * |AlphanumericBits(t, i)| >= 11 * (|t| - i)
    decreases |t| - i
  {
    hide ToBinary;
    if |t| - i >= 2 {
      AlphanumericLength(t, i + 2);
    }
  }

  lemma {:induction false} ByteLength(utf8: seq<Byte>)
    ensures |ByteBits(utf8)| == 8 * |utf8|
  {
    if utf8 != [] {
      ByteLength(utf8[..|utf8| - 1]);
    }
  }

  lemma PayloadLength(mode: Mode, text: string, utf8: seq<Byte>)
    requires mode != Bytes ==> InAlphabet(AlphabetOf(mode), text)
    ensures var (n, bits) := (DataLength(mode, text, utf8), |Payload(mode, text, utf8)|);
      match mode
      case Numeric => 3 * bits >= 10 * n
      case Alphanumeric => 2 * bits >= 11 * n
      case Bytes => bits == 8 * n
  {
    hide NumericBits, AlphanumericBits, ByteBits;
    match mode
    case Numeric => NumericLength(Indices(NUMERIC, text), 0);
    case Alphanumeric => AlphanumericLength(Indices(ALPHANUMERIC, text), 0);
    case Bytes => ByteLength(utf8);
  }

  lemma FieldPowers()
    ensures Pow2(8) == 256 && Pow2(9) == 512 && Pow2(10) == 1024 && Pow2(11) == 2048
    ensures Pow2(12) == 4096 && Pow2(13) == 8192 && Pow2(14) == 16384 && Pow2(16) == 65536
  {}

  /** A payload that fits the symbol also fits its count field. */
  lemma CountFits(ver: nat, dataBytes: nat, mode: Mode, text: string, utf8: seq<Byte>)
    requires 1 <= ver <= 40 && (mode != Bytes ==> InAlphabet(AlphabetOf(mode), text))
    requires 4 + |Payload(mode, text, utf8)| <= 8 * dataBytes
    requires dataBytes <= if ver <= 9 then 255 else if ver <= 26 then 1400 else 3706
    ensures DataLength(mode, text, utf8) < Pow2(LengthBits(ver, mode))
  {
    hide Payload, DataLength, Pow2;
    PayloadLength(mode, text, utf8);
    FieldPowers();
  }
}
