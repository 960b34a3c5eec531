/** Outpoints as text: the keys of stored forfeits and the outpoint column. */
module OutpointText {
  import opened Results
  import opened Tasks
  import opened DecimalText
  import opened Words

  predicate IsHexDigit(c: char) {
    '0' <= c <= '9' || 'a' <= c <= 'f' || 'A' <= c <= 'F'
  }

  function LowerCase(c: char): char {
    if 'A' <= c <= 'F' then (c as int - 'A' as int + 'a' as int) as char else c
  }

  predicate AllHex(s: string) {
    forall i :: 0 <= i < |s| ==> IsHexDigit(s[i])
  }

  /** An outpoint as a transaction has it: 32 bytes of hash, written in lower case, and a 32-bit index. */
  predicate ValidOutpoint(o: Outpoint) {
    |o.hash| == 64 && AllHex(o.hash) && (forall i :: 0 <= i < 64 ==> LowerCase(o.hash[i]) == o.hash[i]) &&
        o.index < 0x1_0000_0000
  }

  /** NewHashFromStr: at most 64 hexadecimal digits, filled up with zeros in front. */
  function ParseHash(s: string): Option<string> {
    if |s| > 64 || !AllHex(s) then None
    else Some(ZeroString(64 - |s|) + seq(|s|, i requires 0 <= i < |s| => LowerCase(s[i])))
  }

  lemma HashParses(o: Outpoint)
    requires ValidOutpoint(o)
    ensures ParseHash(o.hash) == Some(o.hash)
  {
    assert ZeroString(0) + seq(64, i requires 0 <= i < 64 => LowerCase(o.hash[i])) == o.hash;
  }

  /** "hash:index" */
  function Key(o: Outpoint): string {
    o.hash + ":" + NatText(o.index)
  }

  /** The place of the last colon, or -1. */
  function LastColon(s: string): (i: int)
    ensures -1 <= i < |s|
    ensures i >= 0 ==> s[i] == ':'
    ensures forall j :: i < j < |s| ==> s[j] != ':'
  {
    if s == "" then -1
    else if s[|s| - 1] == ':' then |s| - 1
    else LastColon(s[..|s| - 1])
  }

  method FindLastColon(key: string) returns (lastColonIdx: int)
    ensures lastColonIdx == LastColon(key)
  {
    lastColonIdx := -1;
    var i := |key| - 1;
    while i >= 0
      invariant -1 <= i < |key| && lastColonIdx == -1 && forall j :: i < j < |key| ==> key[j] != ':'
    {
      if key[i] == ':' {
        lastColonIdx := i;
        break;
      }
      i := i - 1;
    }
  }

  /** The number of decimal digits s starts with. */
  function DigitPrefix(s: string): (n: nat)
    ensures n <= |s| && AllDigits(s[..n]) && (n < |s| ==> !IsDigit(s[n]))
  {
    if s == "" || !IsDigit(s[0]) then 0
    else
      var n := 1 + DigitPrefix(s[1..]);
      assert forall i :: 0 < i < n ==> s[i] == s[1..][i - 1];
      n
  }

  /** Reading an unsigned 32-bit number with Sscanf: the digits in front count, and there must be some. */
  function ScanUint32(s: string): Option<nat> {
    var n := DigitPrefix(s);
    if n == 0 || StrVal(s[..n]) >= 0x1_0000_0000 then None else Some(StrVal(s[..n]))
  }

  lemma ScansText(n: nat)
    requires n < 0x1_0000_0000
    ensures ScanUint32(NatText(n)) == Some(n)
  {
    hide NatText, Digits, StrVal;
    NatTextIs(n);
    var s := NatText(n);
    assert DigitPrefix(s) == |s|;
    assert s[..|s|] == s;
  }

  /** A stored key, split at its last colon. */
  function ParseKey(key: string): Option<Outpoint> {
    var i := LastColon(key);
    if i == -1 then None
    else
      var index := ScanUint32(key[i + 1..]);
      var hash := ParseHash(key[..i]);
      if index.None? || hash.None? then None else Some(Outpoint(hash.value, index.value))
  }

  /** Every key is read back as its outpoint. */
  lemma KeyParses(o: Outpoint)
    requires ValidOutpoint(o)
    ensures ParseKey(Key(o)) == Some(o)
  {
    hide NatText, Digits, StrVal, ParseHash, ScanUint32;
    NatTextIs(o.index);
    ColonAt(o.hash, NatText(o.index));
    var key := Key(o);
    assert key[..64] == o.hash && key[65..] == NatText(o.index);
    HashParses(o);
    ScansText(o.index);
  }

  lemma ColonAt(hash: string, digits: string)
    requires AllHex(hash) && AllDigits(digits)
    ensures LastColon(hash + ":" + digits) == |hash|
  {
    var s := hash + ":" + digits;
    var i := LastColon(s);
    assert s[|hash|] == ':';
    assert forall j :: |hash| < j < |s| ==> s[j] == digits[j - |hash| - 1];
  }

  /**
   * NewOutPointFromString: exactly one colon, 64 hexadecimal digits before it, and nothing but the digits of an
   * unsigned 32-bit number behind it.
   */
  function ParseOutpoint(s: string): Option<Outpoint> {
    var i := LastColon(s);
    if i != 64 || !AllHex(s[..i]) || !AllDigits(s[i + 1..]) || |s| == 65 ||
        StrVal(s[i + 1..]) >= 0x1_0000_0000 then None
    else Some(Outpoint(seq(64, k requires 0 <= k < 64 => LowerCase(s[k])), StrVal(s[i + 1..])))
  }

  /** The text of every outpoint is read back. */
  lemma OutpointParses(o: Outpoint)
    requires ValidOutpoint(o)
    ensures ParseOutpoint(Key(o)) == Some(o)
  {
    hide NatText, Digits, StrVal;
    NatTextIs(o.index);
    ColonAt(o.hash, NatText(o.index));
    var key := Key(o);
    assert key[..64] == o.hash && key[65..] == NatText(o.index);
    assert seq(64, k requires 0 <= k < 64 => LowerCase(key[k])) == o.hash;
  }

  /** No two outpoints share a key. */
  lemma KeysDistinct(a: Outpoint, b: Outpoint)
    requires ValidOutpoint(a) && ValidOutpoint(b) && Key(a) == Key(b)
    ensures a == b
  {
    hide ParseKey, Key;
    KeyParses(a);
    KeyParses(b);
  }

  // ---- Any text ----

  const UPPER: string := "ABCDEF"
  const LOWER: string := "abcdef"

  /** Hexadecimal digits, and their lower case. */
  lemma HexDigits(c: char)
    ensures IsHexDigit(c) <==> c in "0123456789abcdefABCDEF"
    ensures forall k :: 0 <= k < 6 ==> LowerCase(UPPER[k]) == LOWER[k]
    ensures c !in "ABCDEF" ==> LowerCase(c) == c
  {}

  /** A hash is read from at most 64 hexadecimal digits: in lower case, and after zeros for those that are missing. */
  lemma HashReads(s: string)
    ensures ParseHash(s).Some? <==> |s| <= 64 && forall i :: 0 <= i < |s| ==> IsHexDigit(s[i])
    ensures ParseHash(s).Some? ==>
      var h := ParseHash(s).value;
      && |h| == 64 && (forall i :: 0 <= i < 64 - |s| ==> h[i] == '0')
      && forall i :: 0 <= i < |s| ==> h[64 - |s| + i] == LowerCase(s[i])
  {
    hide LowerCase, IsHexDigit;
  }

  /** The digits in front count, and there must be some. */
  lemma IndexReads(digits: string, rest: string)
    requires AllDigits(digits) && (rest == "" || !IsDigit(rest[0]))
    ensures digits == "" ==> ScanUint32(digits + rest) == None
    ensures digits != "" ==>
      ScanUint32(digits + rest) == if StrVal(digits) < 4_294_967_296 then Some(StrVal(digits)) else None
  {
    hide StrVal;
    DigitsEnd(digits, rest);
    assert (digits + rest)[..|digits|] == digits;
  }

  lemma {:induction false} DigitsEnd(digits: string, rest: string)
    requires AllDigits(digits) && (rest == "" || !IsDigit(rest[0]))
    ensures DigitPrefix(digits + rest) == |digits|
  {
    if digits == "" {
      assert digits + rest == rest;
    } else {
      DigitsEnd(digits[1..], rest);
      assert (digits + rest)[1..] == digits[1..] + rest;
    }
  }

  /** A stored key is cut at its last colon, and both parts must be read. */
  lemma KeyReads(hash: string, index: string)
    requires forall i :: 0 <= i < |index| ==> index[i] != ':'
    ensures ParseKey(hash + ":" + index)
         == if ParseHash(hash).Some? && ScanUint32(index).Some?
            then Some(Outpoint(ParseHash(hash).value, ScanUint32(index).value)) else None
    ensures ParseKey(index) == None
  {
    hide ParseHash, ScanUint32;
    var s := hash + ":" + index;
    var i := LastColon(s);
    assert s[|hash|] == ':';
    assert forall j :: |hash| < j < |s| ==> s[j] == index[j - |hash| - 1];
    assert i == |hash|;
    assert s[..i] == hash && s[i + 1..] == index;
  }

  /** 64 hexadecimal digits, a colon, and the digits of an unsigned 32-bit number. */
  predicate IsOutpoint(s: string, hash: string, index: string) {
    s == hash + ":" + index && |hash| == 64 && AllHex(hash) && AllDigits(index) && index != "" &&
        StrVal(index) < 4_294_967_296
  }

  /** The column is read just when it has that form. */
  lemma OutpointReads(s: string)
    ensures ParseOutpoint(s).Some? <==> exists hash, index :: IsOutpoint(s, hash, index)
    ensures forall hash, index :: IsOutpoint(s, hash, index) ==>
      && ParseOutpoint(s).Some? && ParseOutpoint(s).value.index == StrVal(index)
      && Some(ParseOutpoint(s).value.hash) == ParseHash(hash)
  {
    hide StrVal, ParseOutpoint;
    if ParseOutpoint(s).Some? { OutpointForm(s); }
    forall hash, index | IsOutpoint(s, hash, index)
      ensures ParseOutpoint(s).Some? && ParseOutpoint(s).value.index == StrVal(index)
      ensures Some(ParseOutpoint(s).value.hash) == ParseHash(hash)
    {
      FormReads(s, hash, index);
    }
  }

  lemma OutpointForm(s: string)
    requires ParseOutpoint(s).Some?
    ensures IsOutpoint(s, s[..64], s[65..])
  {
    hide StrVal;
    assert s == s[..64] + ":" + s[65..];
  }

  lemma FormReads(s: string, hash: string, index: string)
    requires IsOutpoint(s, hash, index)
    ensures ParseOutpoint(s).Some? && ParseOutpoint(s).value.index == StrVal(index)
    ensures Some(ParseOutpoint(s).value.hash) == ParseHash(hash)
  {
    hide StrVal, LowerCase, IsHexDigit;
    ColonAt(hash, index) by { HexHasNoColon(hash); }
    assert s[..64] == hash && s[65..] == index;
    assert ParseOutpoint(s).value.hash == ZeroString(0) + seq(64, i requires 0 <= i < 64 => LowerCase(hash[i]));
  }

  lemma HexHasNoColon(s: string)
    requires AllHex(s)
    ensures forall i :: 0 <= i < |s| ==> s[i] != ':'
  {}
}
