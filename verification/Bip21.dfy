/** Payment URIs: what NewAddress writes and what the bip21 helpers read, on any string. */
module Bip21 {
  import opened Results
  import opened Words
  import opened Rounding
  import opened DecimalText

  // ---- Strings ----

  predicate NoneOf(s: string, c: char) {
    forall i :: 0 <= i < |s| ==> s[i] != c
  }

  /** The first place of c, or the length of s. */
  function Find(s: string, c: char): (i: nat)
    ensures i <= |s| && (forall j :: 0 <= j < i ==> s[j] != c) && (i < |s| ==> s[i] == c)
  {
    if s == "" || s[0] == c then 0
    else
      var i := 1 + Find(s[1..], c);
      assert forall j :: 0 < j < i ==> s[j] == s[1..][j - 1];
      i
  }

  /** The pieces of s between the separators c. */
  function Split(s: string, c: char): (r: seq<string>)
    ensures |r| >= 1
    decreases |s|
  {
    var i := Find(s, c);
    if i == |s| then [s] else [s[..i]] + Split(s[i + 1..], c)
  }

  /** A parameter cut at its first equals sign, or nothing when it has none. */
  function KeyValue(param: string): Option<(string, string)> {
    var i := Find(param, '=');
    if i == |param| then None else Some((param[..i], param[i + 1..]))
  }

  lemma FindAfter(a: string, c: char, b: string)
    requires NoneOf(a, c)
    ensures Find(a + [c] + b, c) == |a|
  {
    var s := a + [c] + b;
    assert s[|a|] == c;
    assert forall j :: 0 <= j < |a| ==> s[j] == a[j];
  }

  lemma SplitAt(a: string, c: char, b: string)
    requires NoneOf(a, c)
    ensures Split(a + [c] + b, c) == [a] + Split(b, c)
  {
    FindAfter(a, c, b);
    var s := a + [c] + b;
    assert s[..|a|] == a && s[|a| + 1..] == b;
  }

  lemma SplitWhole(a: string, c: char)
    requires NoneOf(a, c)
    ensures Split(a, c) == [a]
  {}

  lemma KeyValueOf(key: string, value: string)
    requires NoneOf(key, '=')
    ensures KeyValue(key + "=" + value) == Some((key, value))
  {
    FindAfter(key, '=', value);
    var s := key + "=" + value;
    assert s == key + ['='] + value;
    assert s[..|key|] == key && s[|key| + 1..] == value;
  }

  // ---- Addresses ----

  predicate IsAlphanumeric(c: char) {
    'a' <= c <= 'z' || 'A' <= c <= 'Z' || '0' <= c <= '9'
  }

  predicate AllAlphanumeric(s: string) {
    forall i :: 0 <= i < |s| ==> IsAlphanumeric(s[i])
  }

  /** A prefix followed by at least lo and at most hi letters and digits. */
  predicate Prefixed(s: string, prefix: string, lo: nat, hi: nat) {
    prefix <= s && lo <= |s| - |prefix| <= hi && AllAlphanumeric(s[|prefix|..])
  }

  predicate IsValidOffchainAddress(address: string) {
    Prefixed(address, "tark", 110, 118) || Prefixed(address, "ark", 110, 118)
  }

  predicate IsValidBtcAddress(address: string) {
    Prefixed(address, "bc", 25, 62) || Prefixed(address, "tb", 25, 62) || Prefixed(address, "1", 25, 62) ||
        Prefixed(address, "3", 25, 62)
  }

  /** None of the separators of a URI occurs in an address. */
  lemma AddressIsPlain(a: string, c: char)
    requires IsValidOffchainAddress(a) || IsValidBtcAddress(a)
    requires !IsAlphanumeric(c)
    ensures NoneOf(a, c) && a != ""
  {
    if Prefixed(a, "tark", 110, 118) { PlainAfter(a, "tark", c); }
    if Prefixed(a, "ark", 110, 118) { PlainAfter(a, "ark", c); }
    if Prefixed(a, "bc", 25, 62) { PlainAfter(a, "bc", c); }
    if Prefixed(a, "tb", 25, 62) { PlainAfter(a, "tb", c); }
    if Prefixed(a, "1", 25, 62) { PlainAfter(a, "1", c); }
    if Prefixed(a, "3", 25, 62) { PlainAfter(a, "3", c); }
  }

  lemma PlainAfter(a: string, prefix: string, c: char)
    requires prefix <= a && AllAlphanumeric(prefix) && AllAlphanumeric(a[|prefix|..]) && !IsAlphanumeric(c)
    ensures NoneOf(a, c)
  {}

  // ---- Amounts ----

  const COIN: nat := 100_000_000

  /** "%.8f" of an amount in bitcoin, exactly. */
  function AmountText(sats: nat): string {
    var frac := NatText(sats % COIN);
    NatText(sats / COIN) + "." + ZeroString(if |frac| <= 8 then 8 - |frac| else 0) + frac
  }

  /** A decimal number of bitcoin, in satoshis, to the nearest and upwards from half. */
  function ParseAmount(s: string): Option<nat> {
    var i := Find(s, '.');
    var whole, frac := s[..i], if i < |s| then s[i + 1..] else "";
    if !AllDigits(whole) || !AllDigits(frac) || |whole| + |frac| == 0 then None
    else
      AllTogether(whole, frac);
      DivMod(2 * (StrVal(whole + frac) * COIN) + Pow10(|frac|), 2 * Pow10(|frac|));
      Some((2 * (StrVal(whole + frac) * COIN) + Pow10(|frac|)) / (2 * Pow10(|frac|)))
  }

  lemma AllTogether(a: string, b: string)
    requires AllDigits(a) && AllDigits(b)
    ensures AllDigits(a + b)
  {}

  lemma FractionText(n: nat)
    requires n < COIN
    ensures |NatText(n)| <= 8
    ensures var frac := ZeroString(8 - |NatText(n)|) + NatText(n); AllDigits(frac) && |frac| == 8 && StrVal(frac) == n
  {
    hide NatText, StrVal, Digits, Pow10;
    NatTextIs(n);
    DigitsBounds(n);
    EightPlaces();
    if Digits(n) > 8 { Pow10Monotone(8, Digits(n) - 1); }
    StrZeros(ZeroString(8 - |NatText(n)|));
    StrConcat(ZeroString(8 - |NatText(n)|), NatText(n));
  }

  lemma EightPlaces()
    ensures Pow10(8) == COIN
  {}

  /** Amounts are read back exactly. */
  lemma AmountReadBack(sats: nat)
    ensures ParseAmount(AmountText(sats)) == Some(sats)
  {
    hide NatText, StrVal, Digits, Pow10;
    var whole, n := NatText(sats / COIN), sats % COIN;
    FractionText(n);
    var frac := ZeroString(8 - |NatText(n)|) + NatText(n);
    NatTextIs(sats / COIN);
    FindAfter(whole, '.', frac);
    var s := AmountText(sats);
    assert s == whole + ['.'] + frac;
    assert s[..|whole|] == whole && s[|whole| + 1..] == frac;
    StrConcat(whole, frac);
    EightPlaces();
    HalfUp(sats);
  }

  lemma HalfUp(sats: nat)
    ensures sats / COIN * COIN + sats % COIN == sats
    ensures (2 * (sats * COIN) + COIN) / (2 * COIN) == sats
  {}

  /** The amount of w.f bitcoin in satoshis, to the nearest and upwards from half. */
  ghost predicate Nearest(w: string, f: string, sats: nat)
    requires AllDigits(w + f)
  {
    var v := StrVal(w + f);
    2 * v * 100_000_000 - Pow10(|f|) < 2 * sats * Pow10(|f|) <= 2 * v * 100_000_000 + Pow10(|f|)
  }

  lemma NearestHalfUp(v: nat, p: nat)
    requires p > 0
    ensures var r := (2 * (v * COIN) + p) / (2 * p);
      2 * v * 100_000_000 - p < 2 * r * p <= 2 * v * 100_000_000 + p
  {
    var n := 2 * (v * COIN) + p;
    DivMod(n, 2 * p);
    assert n / (2 * p) * (2 * p) == 2 * (n / (2 * p)) * p;
  }

  lemma NearestUnique(p: nat, x: int, a: int, b: int)
    requires p > 0 && x - p < 2 * a * p <= x + p && x - p < 2 * b * p <= x + p
    ensures a == b
  {
    if a < b { NearestApart(p, a, b); } else if b < a { NearestApart(p, b, a); }
  }

  lemma NearestApart(p: nat, a: int, b: int)
    requires a < b
    ensures 2 * a * p + 2 * p <= 2 * b * p
  {
    OneMore(b - a, p);
    assert b * p == a * p + (b - a) * p;
  }

  lemma OneMore(n: int, p: nat)
    requires n >= 1
    ensures n * p >= p
  {
    assert n * p == (n - 1) * p + p;
  }

  lemma PlainDigits(w: string)
    requires AllDigits(w)
    ensures NoneOf(w, '.')
  {}

  /** A text of whole digits, a point and more digits, one of both empty perhaps, is read as the nearest amount. */
  lemma PointAmount(w: string, f: string)
    requires AllDigits(w) && AllDigits(f) && |w| + |f| > 0
    ensures AllDigits(w + f) && ParseAmount(w + "." + f).Some? && Nearest(w, f, ParseAmount(w + "." + f).value)
  {
    hide StrVal, Pow10;
    PlainDigits(w);
    FindAfter(w, '.', f);
    var s := w + "." + f;
    assert s == w + ['.'] + f;
    assert s[..|w|] == w && s[|w| + 1..] == f;
    AllTogether(w, f);
    NearestHalfUp(StrVal(w + f), Pow10(|f|));
  }

  /** So an amount of w.f bitcoin that is a whole number of satoshis is read as just that number. */
  lemma ExactAmount(w: string, f: string, sats: nat)
    requires AllDigits(w) && AllDigits(f) && |w| + |f| > 0 && AllDigits(w + f)
    requires StrVal(w + f) * 100_000_000 == sats * Pow10(|f|)
    ensures ParseAmount(w + "." + f) == Some(sats)
  {
    hide StrVal, Pow10, ParseAmount;
    PointAmount(w, f);
    NearestIs(StrVal(w + f), Pow10(|f|), sats, ParseAmount(w + "." + f).value);
  }

  lemma NearestIs(v: nat, p: nat, sats: nat, r: nat)
    requires p > 0 && v * 100_000_000 == sats * p
    requires 2 * v * 100_000_000 - p < 2 * r * p <= 2 * v * 100_000_000 + p
    ensures r == sats
  {
    assert 2 * v * 100_000_000 == 2 * sats * p;
    NearestUnique(p, 2 * v * 100_000_000, sats, r);
  }

  /** Without a point, the digits are whole bitcoin. */
  lemma WholeAmount(w: string)
    requires AllDigits(w) && |w| > 0
    ensures ParseAmount(w) == Some(StrVal(w) * 100_000_000)
  {
    hide StrVal, Pow10, ParseAmount;
    NoPoint(w);
    assert w + "" == w;
    OnePlace(StrVal(w) * 100_000_000);
    ExactAmount(w, "", StrVal(w) * 100_000_000);
  }

  lemma NoPoint(w: string)
    requires AllDigits(w)
    ensures ParseAmount(w) == ParseAmount(w + "." + "")
  {
    hide StrVal, Pow10;
    PlainDigits(w);
    FindAfter(w, '.', "");
    var s := w + "." + "";
    assert s == w + ['.'] + "";
    assert s[..|w|] == w && s[|w| + 1..] == "" && w[..|w|] == w;
  }

  lemma OnePlace(n: nat)
    ensures Pow10(0) == 1 && n * Pow10(0) == n
  {}

  /** Only such texts are amounts. */
  lemma AmountForm(s: string)
    ensures ParseAmount(s).Some? <==>
      (s != "" && AllDigits(s)) ||
      (exists w, f :: IsPoint(s, w, f))
  {
    hide StrVal, Pow10;
    var i := Find(s, '.');
    if ParseAmount(s).Some? {
      if i < |s| {
        assert s == s[..i] + "." + s[i + 1..];
        assert IsPoint(s, s[..i], s[i + 1..]);
      } else {
        assert s[..i] == s;
      }
    }
    if s != "" && AllDigits(s) { WholeAmount(s); }
    if w, f :| IsPoint(s, w, f) { PointAmount(w, f); }
  }

  predicate IsPoint(s: string, w: string, f: string) {
    s == w + "." + f && AllDigits(w) && AllDigits(f) && |w| + |f| > 0
  }

  /** Written amounts have eight decimals. */
  lemma AmountTextIs(sats: nat)
    ensures exists w, f ::
      IsPoint(AmountText(sats), w, f) && |w| > 0 && |f| == 8 && AllDigits(w + f) && StrVal(w + f) == sats
  {
    hide NatText, StrVal, Digits, Pow10;
    var w, n := NatText(sats / COIN), sats % COIN;
    FractionText(n);
    NatTextIs(sats / COIN);
    DigitsBounds(sats / COIN);
    var f := ZeroString(8 - |NatText(n)|) + NatText(n);
    assert IsPoint(AmountText(sats), w, f);
    StrConcat(w, f);
    EightPlaces();
    HalfUp(sats);
  }

  // ---- Reading ----

  predicate StartsWithBitcoinPrefix(s: string) {
    |s| >= 8 && s[..8] == "bitcoin:"
  }

  /** The first valid offchain address among the ark parameters. */
  function FirstArk(params: seq<string>): (r: string)
    ensures r == "" || IsValidOffchainAddress(r)
  {
    if params == [] then ""
    else
      var kv := KeyValue(params[0]);
      if kv.Some? && kv.value.0 == "ark" && IsValidOffchainAddress(kv.value.1) then kv.value.1
          else FirstArk(params[1..])
  }

  function GetOffchainAddress(bip21: string): (r: string)
    ensures r == "" || IsValidOffchainAddress(r)
  {
    var aux := Split(bip21, '?');
    if |aux| < 2 then "" else FirstArk(Split(aux[1], '&'))
  }

  function GetBtcAddress(bip21: string): (r: string)
    ensures r == "" || IsValidBtcAddress(r)
  {
    var aux := Split(bip21, '?');
    if !StartsWithBitcoinPrefix(aux[0]) then ""
    else
      var xua := Split(aux[0], ':');
      if |xua| > 1 && IsValidBtcAddress(xua[1]) then xua[1] else ""
  }

  predicate IsBip21(text: string) {
    StartsWithBitcoinPrefix(text) && |GetBtcAddress(text)| + |GetOffchainAddress(text)| > 0
  }

  /** The first amount parameter; one that is no number counts as none. */
  function FirstAmount(params: seq<string>): nat {
    if params == [] then 0
    else
      var kv := KeyValue(params[0]);
      if kv.Some? && kv.value.0 == "amount" then
        match ParseAmount(kv.value.1) case None => 0 case Some(sats) => sats
      else FirstAmount(params[1..])
  }

  function SatsFromBip21(bip21: string): nat {
    if !IsBip21(bip21) then 0
    else
      var aux := Split(bip21, '?');
      if |aux| < 2 then 0 else FirstAmount(Split(aux[1], '&'))
  }

  // ---- What is read ----

  /** The pieces with the separator between them. */
  function Join(pieces: seq<string>, c: char): string
    requires |pieces| >= 1
  {
    if |pieces| == 1 then pieces[0] else pieces[0] + [c] + Join(pieces[1..], c)
  }

  /** Splitting loses nothing, and cuts at every separator. */
  lemma SplitIsComplete(s: string, c: char)
    ensures Join(Split(s, c), c) == s
    ensures forall k :: 0 <= k < |Split(s, c)| ==> NoneOf(Split(s, c)[k], c)
  {
    hide Split, Join, NoneOf;
    SplitJoins(s, c);
    SplitIsPlain(s, c);
  }

  lemma {:induction false} SplitJoins(s: string, c: char)
    ensures Join(Split(s, c), c) == s
    decreases |s|
  {
    hide Split, Join;
    var i := Find(s, c);
    if i < |s| {
      var rest := s[i + 1..];
      SplitJoins(rest, c);
      SplitStep(s, c);
      JoinMore(s[..i], Split(rest, c), c);
      CutAt(s, c, i);
    } else {
      SplitEnd(s, c);
    }
  }

  lemma SplitEnd(s: string, c: char)
    requires Find(s, c) == |s|
    ensures Split(s, c) == [s] && Join(Split(s, c), c) == s
  {}

  lemma CutAt(s: string, c: char, i: nat)
    requires i < |s| && s[i] == c
    ensures s == s[..i] + [c] + s[i + 1..]
  {}

  lemma {:induction false} SplitIsPlain(s: string, c: char)
    ensures forall k :: 0 <= k < |Split(s, c)| ==> NoneOf(Split(s, c)[k], c)
    decreases |s|
  {
    hide NoneOf;
    var i := Find(s, c);
    PlainBefore(s, c);
    if i < |s| {
      hide Split;
      SplitIsPlain(s[i + 1..], c);
      SplitStep(s, c);
    } else {
      assert s[..i] == s;
    }
  }

  lemma SplitStep(s: string, c: char)
    requires Find(s, c) < |s|
    ensures Split(s, c) == [s[..Find(s, c)]] + Split(s[Find(s, c) + 1..], c)
  {}

  lemma PlainBefore(s: string, c: char)
    ensures NoneOf(s[..Find(s, c)], c)
  {}

  lemma JoinMore(piece: string, pieces: seq<string>, c: char)
    requires |pieces| >= 1
    ensures Join([piece] + pieces, c) == piece + [c] + Join(pieces, c)
  {
    assert ([piece] + pieces)[1..] == pieces;
  }

  lemma KeyValueIs(param: string, key: string, value: string)
    requires NoneOf(key, '=')
    ensures KeyValue(param) == Some((key, value)) <==> param == key + "=" + value
  {
    if param == key + "=" + value {
      KeyValueOf(key, value);
    }
  }

  /** A parameter that names a valid offchain address. */
  predicate ArkParam(param: string, address: string) {
    param == "ark=" + address && IsValidOffchainAddress(address)
  }

  predicate FirstIs(params: seq<string>, k: nat, address: string)
    requires k < |params|
  {
    ArkParam(params[k], address)
  }

  /** The address is that of the first parameter that names one, or nothing when none does. */
  lemma {:induction false} FirstArkIs(params: seq<string>)
    ensures var r := FirstArk(params);
      && (r == "" ==> forall k: nat, a :: k < |params| ==> !ArkParam(params[k], a))
      && (r != "" ==> exists k: nat ::
          (k < |params| && FirstIs(params, k, r) && forall j: nat, a :: j < k ==> !ArkParam(params[j], a)))
  {
    hide IsValidOffchainAddress;
    if params != [] {
      forall a ensures KeyValue(params[0]) == Some(("ark", a)) <==> params[0] == "ark=" + a {
        KeyValueIs(params[0], "ark", a);
        assert "ark" + "=" + a == "ark=" + a;
      }
      var rest := params[1..];
      FirstArkIs(rest);
      var r := FirstArk(params);
      var kv := KeyValue(params[0]);
      if kv.Some? && kv.value.0 == "ark" && IsValidOffchainAddress(kv.value.1) {
        AddressIsPlain(r, '?');
        assert FirstIs(params, 0, r);
      } else {
        assert forall k: nat :: 0 < k < |params| ==> params[k] == rest[k - 1];
        if r != "" {
          var k: nat :| k < |rest| && FirstIs(rest, k, r) && forall j: nat, a :: j < k ==> !ArkParam(rest[j], a);
          assert FirstIs(params, k + 1, r);
        }
      }
    }
  }

  /** The URI starts with bitcoin: and the address, which ends there or at a question mark or colon. */
  predicate StartsWithAddress(uri: string, address: string) {
    "bitcoin:" + address <= uri && (|uri| > 8 + |address| ==> uri[8 + |address|] == '?' || uri[8 + |address|] == ':')
  }

  /** The bitcoin address of a URI is the one it starts with. */
  lemma BtcAddressExactly(uri: string, address: string)
    requires IsValidBtcAddress(address)
    ensures GetBtcAddress(uri) == address <==> StartsWithAddress(uri, address)
  {
    hide IsValidBtcAddress, Split;
    AddressIsPlain(address, '?');
    AddressIsPlain(address, ':');
    var i := Find(uri, '?');
    var head := uri[..i];
    SplitFirst(uri, '?');
    if StartsWithBitcoinPrefix(head) {
      var rest := head[8..];
      var j := Find(rest, ':');
      assert head == "bitcoin" + [':'] + rest;
      SplitAt("bitcoin", ':', rest);
      SplitFirst(rest, ':');
      assert Split(head, ':')[1] == rest[..j];
      CutIs(uri, address, i, j);
    } else if StartsWithAddress(uri, address) {
      NoMarkBefore(uri, address);
    }
  }

  lemma SplitFirst(s: string, c: char)
    ensures Split(s, c)[0] == s[..Find(s, c)]
  {}

  lemma NoMarkBefore(uri: string, address: string)
    requires StartsWithAddress(uri, address) && NoneOf(address, '?')
    ensures Find(uri, '?') >= 8 + |address| && uri[..8] == "bitcoin:"
  {
    var whole := "bitcoin:" + address;
    assert forall k :: 0 <= k < |whole| ==> uri[k] == whole[k];
  }

  lemma CutIs(uri: string, address: string, i: nat, j: nat)
    requires i == Find(uri, '?') && i >= 8 && uri[..8] == "bitcoin:" && j == Find(uri[..i][8..], ':')
    requires NoneOf(address, '?') && NoneOf(address, ':')
    ensures uri[..i][8..][..j] == address <==> StartsWithAddress(uri, address)
  {
    var rest := uri[..i][8..];
    assert rest == uri[8..i] && forall k :: 0 <= k < |rest| ==> rest[k] == uri[8 + k];
    if StartsWithAddress(uri, address) {
      var n := |address|;
      NoMarkBefore(uri, address);
      assert ("bitcoin:" + address)[8..] == address;
      assert forall k :: 0 <= k < n ==> rest[k] == address[k];
      assert j == n;
      assert rest[..j] == address;
    }
  }

  // ---- Whole URIs ----

  lemma {:induction false} JoinSplits(pieces: seq<string>, c: char)
    requires |pieces| >= 1 && forall k :: 0 <= k < |pieces| ==> NoneOf(pieces[k], c)
    ensures Split(Join(pieces, c), c) == pieces
  {
    if |pieces| == 1 {
      SplitWhole(pieces[0], c);
    } else {
      JoinSplits(pieces[1..], c);
      SplitAt(pieces[0], c, Join(pieces[1..], c));
    }
  }

  lemma {:induction false} JoinIsPlain(pieces: seq<string>, c: char, d: char)
    requires |pieces| >= 1 && c != d && forall k :: 0 <= k < |pieces| ==> NoneOf(pieces[k], d)
    ensures NoneOf(Join(pieces, c), d)
  {
    if |pieces| > 1 {
      JoinIsPlain(pieces[1..], c, d);
    }
  }

  /** A URI with these parameters: they stand between its first question mark and the next, or the end. */
  predicate HasParams(uri: string, head: string, params: seq<string>, rest: string) {
    && |params| >= 1 && uri == head + "?" + Join(params, '&') + rest
    && NoneOf(head, '?') && (rest == "" || rest[0] == '?')
    && forall k :: 0 <= k < |params| ==> NoneOf(params[k], '&') && NoneOf(params[k], '?')
  }

  lemma ParamsAre(uri: string, head: string, params: seq<string>, rest: string)
    requires HasParams(uri, head, params, rest)
    ensures |Split(uri, '?')| >= 2 && Split(Split(uri, '?')[1], '&') == params
  {
    hide Split, Join;
    var query := Join(params, '&');
    JoinIsPlain(params, '&', '?');
    JoinSplits(params, '&');
    assert uri == head + ['?'] + (query + rest);
    SplitAt(head, '?', query + rest);
    SplitFirst(query + rest, '?');
    var s := query + rest;
    assert forall i :: 0 <= i < |query| ==> s[i] == query[i];
    assert |rest| > 0 ==> s[|query|] == rest[0];
    assert s[..|query|] == query;
  }

  predicate AmountIs(param: string, text: string) {
    param == "amount=" + text
  }

  lemma {:induction false} FirstAmountIs(params: seq<string>, k: nat, text: string)
    requires k < |params| && AmountIs(params[k], text)
    requires forall j: nat, u :: j < k ==> !AmountIs(params[j], u)
    ensures FirstAmount(params) == match ParseAmount(text) case None => 0 case Some(sats) => sats
  {
    hide ParseAmount, KeyValue;
    KeyValueIsAmount(params[0]);
    if k == 0 {
      assert KeyValue(params[0]) == Some(("amount", text));
    } else {
      var rest := params[1..];
      assert forall j: nat :: j < |rest| ==> rest[j] == params[j + 1];
      FirstAmountIs(rest, k - 1, text);
    }
  }

  lemma {:induction false} NoAmountIs(params: seq<string>)
    requires forall j: nat, u :: j < |params| ==> !AmountIs(params[j], u)
    ensures FirstAmount(params) == 0
  {
    hide ParseAmount, KeyValue;
    if params != [] {
      KeyValueIsAmount(params[0]);
      var rest := params[1..];
      assert forall j: nat :: j < |rest| ==> rest[j] == params[j + 1];
      NoAmountIs(rest);
    }
  }

  lemma KeyValueIsAmount(param: string)
    ensures forall u :: AmountIs(param, u) <==> KeyValue(param) == Some(("amount", u))
  {
    hide KeyValue;
    forall u ensures AmountIs(param, u) <==> KeyValue(param) == Some(("amount", u)) {
      KeyValueIs(param, "amount", u);
      assert "amount" + "=" + u == "amount=" + u;
    }
  }

  /** The amount of a bip21 URI is that of its first amount parameter, if that is a number of bitcoin. */
  lemma SatsOfUri(uri: string, head: string, params: seq<string>, rest: string, k: nat, text: string)
    requires HasParams(uri, head, params, rest) && IsBip21(uri) && k < |params| && AmountIs(params[k], text)
    requires forall j: nat, u :: j < k ==> !AmountIs(params[j], u)
    ensures SatsFromBip21(uri) == match ParseAmount(text) case None => 0 case Some(sats) => sats
  {
    hide Split, HasParams, IsBip21, ParseAmount;
    ParamsAre(uri, head, params, rest);
    FirstAmountIs(params, k, text);
  }

  /** Without an amount parameter, without parameters, and when the text is no bip21 URI, it is 0. */
  lemma NoSatsOfUri(uri: string)
    requires IsBip21(uri) ==> forall head, params, rest, j: nat, u ::
      HasParams(uri, head, params, rest) && j < |params| ==> !AmountIs(params[j], u)
    ensures SatsFromBip21(uri) == 0
  {
    hide Split, IsBip21, HasParams, ParseAmount;
    if IsBip21(uri) && |Split(uri, '?')| >= 2 {
      var params := Split(Split(uri, '?')[1], '&');
      var head, rest := UriForm(uri);
      NoAmountIs(params);
    }
  }

  /** Every URI with a question mark has parameters. */
  lemma UriForm(uri: string) returns (head: string, rest: string)
    requires |Split(uri, '?')| >= 2
    ensures HasParams(uri, head, Split(Split(uri, '?')[1], '&'), rest)
  {
    hide Split, Join;
    var pieces := Split(uri, '?');
    var params := Split(pieces[1], '&');
    SplitIsComplete(uri, '?');
    SplitIsComplete(pieces[1], '&');
    JoinCut(pieces);
    head := pieces[0];
    rest := if |pieces| == 2 then "" else "?" + Join(pieces[2..], '?');
    PiecesArePlain(params, '&', '?');
  }

  lemma JoinCut(pieces: seq<string>)
    requires |pieces| >= 2
    ensures Join(pieces, '?')
         == pieces[0] + "?" + pieces[1] + (if |pieces| == 2 then "" else "?" + Join(pieces[2..], '?'))
  {
    assert pieces[1..][1..] == pieces[2..];
    if |pieces| > 2 {
      var tail := Join(pieces[2..], '?');
      assert pieces[0] + ['?'] + (pieces[1] + ['?'] + tail) == pieces[0] + "?" + pieces[1] + ("?" + tail);
    }
  }

  /** What does not occur in the whole does not occur in a piece. */
  lemma {:induction false} PiecesArePlain(pieces: seq<string>, c: char, d: char)
    requires |pieces| >= 1 && NoneOf(Join(pieces, c), d)
    ensures forall k :: 0 <= k < |pieces| ==> NoneOf(pieces[k], d)
  {
    if |pieces| > 1 {
      var tail := Join(pieces[1..], c);
      var whole := pieces[0] + [c] + tail;
      assert forall i :: 0 <= i < |pieces[0]| ==> whole[i] == pieces[0][i];
      assert forall i :: 0 <= i < |tail| ==> whole[|pieces[0]| + 1 + i] == tail[i];
      PiecesArePlain(pieces[1..], c, d);
      assert forall k :: 1 <= k < |pieces| ==> pieces[k] == pieces[1..][k - 1];
    }
  }

  /** The offchain address likewise is that of the first ark parameter that holds a valid one. */
  lemma ArkOfUri(uri: string, head: string, params: seq<string>, rest: string)
    requires HasParams(uri, head, params, rest)
    ensures GetOffchainAddress(uri) == FirstArk(params)
  {
    hide Split, HasParams, FirstArk;
    ParamsAre(uri, head, params, rest);
  }

  /** A bip21 URI starts with bitcoin: and names an address of one kind or the other. */
  lemma Bip21Exactly(uri: string)
    ensures IsBip21(uri) <==>
      ("bitcoin:" <= uri &&
       (GetOffchainAddress(uri) != "" || exists a :: IsValidBtcAddress(a) && StartsWithAddress(uri, a)))
  {
    hide IsValidBtcAddress, StartsWithAddress, GetBtcAddress, GetOffchainAddress;
    assert StartsWithBitcoinPrefix(uri) <==> "bitcoin:" <= uri;
    var r := GetBtcAddress(uri);
    if r != "" { BtcAddressExactly(uri, r); }
    if a :| IsValidBtcAddress(a) && StartsWithAddress(uri, a) {
      BtcAddressExactly(uri, a);
      AddressIsPlain(a, '?');
    }
  }

  /** The forms of the addresses. */
  lemma AddressForms(address: string)
    ensures IsValidOffchainAddress(address) <==>
      (exists body :: (address == "tark" + body || address == "ark" + body) && OffchainBody(body))
    ensures IsValidBtcAddress(address) <==>
      (exists body :: (address == "bc" + body || address == "tb" + body || address == "1" + body ||
                       address == "3" + body) && BtcBody(body))
  {
    hide AllAlphanumeric;
    forall prefix: string, lo: nat, hi: nat | Prefixed(address, prefix, lo, hi)
      ensures address == prefix + address[|prefix|..]
    {}
  }

  predicate OffchainBody(body: string) {
    110 <= |body| <= 118 && AllAlphanumeric(body)
  }

  predicate BtcBody(body: string) {
    25 <= |body| <= 62 && AllAlphanumeric(body)
  }

  // ---- Writing ----

  /** The URI of NewAddress. */
  function Uri(boarding: string, offchain: string, sats: nat): string {
    "bitcoin:" + boarding + "?ark=" + offchain + if sats == 0 then "" else "&amount=" + AmountText(sats)
  }

  /** The parameters of a written URI. */
  function Query(offchain: string, sats: nat): string {
    "ark=" + offchain + if sats == 0 then "" else "&amount=" + AmountText(sats)
  }

  lemma AmountIsPlain(sats: nat, c: char)
    requires c != '.' && !IsDigit(c)
    ensures NoneOf(AmountText(sats), c)
  {
    hide NatText, StrVal, Digits;
    NatTextIs(sats / COIN);
    NatTextIs(sats % COIN);
  }

  lemma UriSplits(boarding: string, offchain: string, sats: nat)
    requires IsValidBtcAddress(boarding) && IsValidOffchainAddress(offchain)
    ensures Split(Uri(boarding, offchain, sats), '?') == ["bitcoin:" + boarding, Query(offchain, sats)]
    ensures Split("bitcoin:" + boarding, ':') == ["bitcoin", boarding]
  {
    hide Split, AmountText, IsValidBtcAddress, IsValidOffchainAddress;
    AddressIsPlain(boarding, '?');
    AddressIsPlain(boarding, ':');
    AddressIsPlain(offchain, '?');
    AmountIsPlain(sats, '?');
    var head, query := "bitcoin:" + boarding, Query(offchain, sats);
    assert Uri(boarding, offchain, sats) == head + ['?'] + query;
    SplitAt(head, '?', query);
    SplitWhole(query, '?');
    assert head == "bitcoin" + [':'] + boarding;
    SplitAt("bitcoin", ':', boarding);
    SplitWhole(boarding, ':');
  }

  lemma QuerySplits(offchain: string, sats: nat)
    requires IsValidOffchainAddress(offchain)
    ensures Split(Query(offchain, sats), '&')
         == if sats == 0 then ["ark=" + offchain] else ["ark=" + offchain, "amount=" + AmountText(sats)]
    ensures KeyValue("ark=" + offchain) == Some(("ark", offchain))
    ensures KeyValue("amount=" + AmountText(sats)) == Some(("amount", AmountText(sats)))
  {
    hide Split, AmountText, IsValidOffchainAddress;
    AddressIsPlain(offchain, '&');
    AmountIsPlain(sats, '&');
    KeyValueOf("ark", offchain);
    KeyValueOf("amount", AmountText(sats));
    assert "ark" + "=" + offchain == "ark=" + offchain;
    assert "amount" + "=" + AmountText(sats) == "amount=" + AmountText(sats);
    var ark, amount := "ark=" + offchain, "amount=" + AmountText(sats);
    if sats == 0 {
      assert Query(offchain, sats) == ark;
      SplitWhole(ark, '&');
    } else {
      assert Query(offchain, sats) == ark + ['&'] + amount;
      SplitAt(ark, '&', amount);
      SplitWhole(amount, '&');
    }
  }

  /** A written URI is a bip21 URI, and gives back both addresses and the amount, 0 being no amount. */
  lemma UriRoundTrip(boarding: string, offchain: string, sats: nat)
    requires IsValidBtcAddress(boarding) && IsValidOffchainAddress(offchain)
    ensures var uri := Uri(boarding, offchain, sats);
      && IsBip21(uri)
      && GetBtcAddress(uri) == boarding
      && GetOffchainAddress(uri) == offchain
      && SatsFromBip21(uri) == sats
  {
    hide Split, AmountText, IsValidBtcAddress, IsValidOffchainAddress, ParseAmount, KeyValue, Query;
    UriSplits(boarding, offchain, sats);
    QuerySplits(offchain, sats);
    AddressIsPlain(boarding, '?');
    var uri := Uri(boarding, offchain, sats);
    assert uri[..8] == "bitcoin:" && ("bitcoin:" + boarding)[..8] == "bitcoin:";
    assert GetBtcAddress(uri) == boarding;
    var params := Split(Query(offchain, sats), '&');
    assert FirstArk(params) == offchain;
    AmountReadBack(sats);
    AmountParam(params, offchain, sats);
  }

  lemma AmountParam(params: seq<string>, offchain: string, sats: nat)
    requires params == if sats == 0 then ["ark=" + offchain] else ["ark=" + offchain, "amount=" + AmountText(sats)]
    requires KeyValue("ark=" + offchain) == Some(("ark", offchain))
    requires KeyValue("amount=" + AmountText(sats)) == Some(("amount", AmountText(sats)))
    requires ParseAmount(AmountText(sats)) == Some(sats)
    ensures FirstAmount(params) == sats
  {
    hide KeyValue, ParseAmount, AmountText;
    if sats == 0 {
      assert params[1..] == [];
    } else {
      assert params[1..] == ["amount=" + AmountText(sats)];
    }
  }
}
