/** RS.decode of qr.js: a codeword of any length is returned as it is, and a word of at most 255 bytes at most
    floor(eccWords / 2) bytes away from a codeword is restored to it. */
module RsDecode {
  import opened Gf256
  import opened Poly
  import opened PolyArrays
  import opened ReedSolomon
  import opened KeyEquation
  import opened ErrorLocator
  import opened Euclid
  import opened Results

  /** The number of positions at which two words differ. */
  function Distance(a: seq<Byte>, b: seq<Byte>): (n: nat)
    requires |a| == |b|
  {
    if a == [] then 0
    else Distance(a[..|a| - 1], b[..|b| - 1]) + if a[|a| - 1] == b[|b| - 1] then 0 else 1
  }

  /** The distance of two words is the number of places at which they differ. */
  lemma {:induction false} DistanceCounts(a: seq<Byte>, b: seq<Byte>)
    requires |a| == |b|
    ensures Distance(a, b) == |set i | 0 <= i < |a| && a[i] != b[i]|
  {
    var places := set i | 0 <= i < |a| && a[i] != b[i];
    if a != [] {
      var n := |a| - 1;
      var (x, y) := (a[..n], b[..n]);
      DistanceCounts(x, y);
      var fewer := set i | 0 <= i < |x| && x[i] != y[i];
      assert places == fewer + if a[n] != b[n] then {n} else {};
    }
  }

  function NonZeros(s: seq<Byte>): nat {
    if s == [] then 0 else NonZeros(s[..|s| - 1]) + if s[|s| - 1] == ZERO then 0 else 1
  }

  // ---- The errors of a word, in the order in which the root search meets them ----

  /** The index that the decoder derives from a location, negative when outside the word. */
  function Position(n: nat, loc: Byte): (p: int)
    requires loc != ZERO
    ensures p < n
  {
    n - 1 - Log(loc) % 255
  }

  /** The location whose inverse the search tries at step i. */
  function LocationAt(i: nat): (loc: Byte)
    requires 1 <= i <= 255
    ensures loc != ZERO
  {
    NonZeroFromNat(i);
    MulInverse(FromNat(i));
    Inv(FromNat(i))
  }

  lemma NonZeroFromNat(i: nat)
    requires 1 <= i <= 255
    ensures FromNat(i) != ZERO
  {
    ByteNatRoundTrip(ZERO, i);
    ZeroFromNat();
  }

  predicate HasFault(err: seq<Byte>, i: nat)
    requires 1 <= i <= 255
  {
    var p := Position(|err|, LocationAt(i));
    0 <= p && err[p] != ZERO
  }

  function Faults(err: seq<Byte>, m: nat): seq<Fault>
    requires m <= 255
    decreases m, |err|
  {
    if m == 0 then []
    else if HasFault(err, m) then
      Faults(err, m - 1) + [Fault(LocationAt(m), err[Position(|err|, LocationAt(m))])]
    else Faults(err, m - 1)
  }

  /** err without the errors already met. */
  function Remaining(err: seq<Byte>, m: nat): (r: seq<Byte>)
    requires m <= 255
    ensures |r| == |err|
    decreases m, |err|
  {
    if m == 0 then err
    else if HasFault(err, m) then Remaining(err, m - 1)[Position(|err|, LocationAt(m)) := ZERO]
    else Remaining(err, m - 1)
  }

  lemma InvInv(x: Byte)
    requires x != ZERO
    ensures Inv(x) != ZERO && Inv(Inv(x)) == x
  {
    hide *;
    MulInverse(x);
    MulInverse(Inv(x));
    MulCommutes(x, Inv(x));
    MulCancels(Inv(x), x, Inv(Inv(x)));
  }

  lemma LocationInjective(i: nat, j: nat)
    requires 1 <= i <= 255 && 1 <= j <= 255 && LocationAt(i) == LocationAt(j)
    ensures i == j
  {
    hide Inv, FromNat, ToNat;
    NonZeroFromNat(i);
    NonZeroFromNat(j);
    InvInjective(FromNat(i), FromNat(j));
    ByteNatRoundTrip(ZERO, i);
    ByteNatRoundTrip(ZERO, j);
  }

  lemma PositionInjective(n: nat, i: nat, j: nat)
    requires 1 <= i <= 255 && 1 <= j <= 255
    requires Position(n, LocationAt(i)) == Position(n, LocationAt(j))
    ensures i == j
  {
    hide LocationAt, Log, Exp;
    var (x, y) := (LocationAt(i), LocationAt(j));
    assert Log(x) == Log(y);
    assert x == Exp(Log(x)) == Exp(Log(y)) == y;
    LocationInjective(i, j);
  }

  /** Every position of a word of at most 255 bytes is met at some step. */
  lemma StepOf(n: nat, p: nat) returns (i: nat)
    requires p < n <= 255
    ensures 1 <= i <= 255 && Position(n, LocationAt(i)) == p
    ensures LocationAt(i) == Exp(n - 1 - p)
  {
    hide Log, Exp, Inv, FromNat, ToNat;
    var x := Exp(n - 1 - p);
    ExpNonZero(n - 1 - p);
    InvInv(x);
    i := ToNat(Inv(x));
    ByteNatRoundTrip(Inv(x), 0);
    ZeroFromNat();
    LogOfExp(n - 1 - p);
  }

  lemma LogOfExp(k: nat)
    requires k < 255
    ensures Exp(k) != ZERO && Log(Exp(k)) % 255 == k
  {
    hide Exp;
    ExpNonZero(k);
    if k == 0 {
      Power255();
      assert Exp(0) == ONE by { ExpZero(); }
      LogUnique(Exp(0), 255);
    } else {
      LogUnique(Exp(k), k);
    }
  }

  lemma ExpZero()
    ensures Exp(0) == ONE
  {}

  lemma LocationIsExp(i: nat, n: nat)
    requires 1 <= i <= 255 && Position(n, LocationAt(i)) >= 0
    ensures LocationAt(i) == Exp(n - 1 - Position(n, LocationAt(i)))
  {
    hide LocationAt, Log, Exp;
    var x := LocationAt(i);
    ExpPeriod(Log(x));
  }

  /** A position keeps its error until the step that meets it. */
  lemma {:induction false} RemainingAt(err: seq<Byte>, m: nat, i: nat)
    requires m < i <= 255 && 0 <= Position(|err|, LocationAt(i))
    ensures Remaining(err, m)[Position(|err|, LocationAt(i))] == err[Position(|err|, LocationAt(i))]
  {
    hide Position, LocationAt;
    if m > 0 {
      RemainingAt(err, m - 1, i);
      if Position(|err|, LocationAt(m)) == Position(|err|, LocationAt(i)) {
        PositionInjective(|err|, m, i);
      }
    }
  }

  lemma {:induction false} RemainingDone(err: seq<Byte>, m: nat, i: nat)
    requires 1 <= i <= m <= 255 && 0 <= Position(|err|, LocationAt(i))
    ensures Remaining(err, m)[Position(|err|, LocationAt(i))] == ZERO
  {
    hide Position, LocationAt;
    if i == m {
      RemainingAt(err, m - 1, m);
    } else {
      RemainingDone(err, m - 1, i);
    }
  }

  lemma NothingRemains(err: seq<Byte>, m: nat)
    requires |err| <= 255 && m == 255
    ensures Remaining(err, m) == ZeroBytes(|err|)
  {
    hide Position, LocationAt, Remaining, ZeroBytes;
    forall p | 0 <= p < |err| ensures Remaining(err, m)[p] == ZeroBytes(|err|)[p] {
      var i := StepOf(|err|, p);
      RemainingDone(err, m, i);
    }
  }

  lemma {:induction false} FaultsKnown(err: seq<Byte>, m: nat)
    requires m <= 255
    ensures forall f :: f in Faults(err, m) ==>
      exists i :: 1 <= i <= m && HasFault(err, i) && f.loc == LocationAt(i)
               && f.value == err[Position(|err|, LocationAt(i))]
    ensures forall i :: 1 <= i <= m && HasFault(err, i) ==>
      Fault(LocationAt(i), err[Position(|err|, LocationAt(i))]) in Faults(err, m)
  {
    hide HasFault, Position, LocationAt;
    if m > 0 {
      FaultsKnown(err, m - 1);
      FaultsStep(err, m);
    }
  }

  lemma FaultsStep(err: seq<Byte>, m: nat)
    requires 0 < m <= 255
    ensures HasFault(err, m) ==>
      (&& 0 <= Position(|err|, LocationAt(m)) < |err|
       && Faults(err, m) == Faults(err, m - 1) + [Fault(LocationAt(m), err[Position(|err|, LocationAt(m))])])
    ensures !HasFault(err, m) ==> Faults(err, m) == Faults(err, m - 1)
  {}

  lemma {:induction false} FaultsDistinct(err: seq<Byte>, m: nat)
    requires m <= 255
    ensures Distinct(Faults(err, m))
  {
    hide HasFault, Position, LocationAt;
    if m > 0 {
      FaultsDistinct(err, m - 1);
      FaultsStep(err, m);
      FaultsKnown(err, m - 1);
      if HasFault(err, m) {
        FaultValue(err, m);
        var known := Faults(err, m - 1);
        forall j | 0 <= j < |known| ensures known[j].loc != LocationAt(m) {
          var f := known[j];
          var i :| 1 <= i <= m - 1 && HasFault(err, i) && f.loc == LocationAt(i);
          if f.loc == LocationAt(m) {
            LocationInjective(i, m);
          }
        }
      }
    }
  }

  lemma FaultValue(err: seq<Byte>, m: nat)
    requires 1 <= m <= 255 && HasFault(err, m)
    ensures 0 <= Position(|err|, LocationAt(m)) && err[Position(|err|, LocationAt(m))] != ZERO
  {}

  // ---- How many errors there are ----

  lemma {:induction false} NonZerosUpdate(s: seq<Byte>, p: nat)
    requires p < |s| && s[p] != ZERO
    ensures NonZeros(s) == NonZeros(s[p := ZERO]) + 1
  {
    var n := |s| - 1;
    if p < n {
      NonZerosUpdate(s[..n], p);
      assert s[p := ZERO][..n] == s[..n][p := ZERO];
    } else {
      assert s[p := ZERO][..n] == s[..n];
    }
  }

  lemma {:induction false} FaultCount(err: seq<Byte>, m: nat)
    requires m <= 255
    ensures |Faults(err, m)| + NonZeros(Remaining(err, m)) == NonZeros(err)
  {
    hide HasFault, Position, LocationAt, NonZeros;
    if m > 0 {
      FaultCount(err, m - 1);
      FaultsStep(err, m);
      if HasFault(err, m) {
        FaultValue(err, m);
        RemainingAt(err, m - 1, m);
        NonZerosUpdate(Remaining(err, m - 1), Position(|err|, LocationAt(m)));
      }
    }
  }

  lemma {:induction false} NonZerosOfZeros(n: nat)
    ensures NonZeros(ZeroBytes(n)) == 0
  {
    if n > 0 {
      NonZerosOfZeros(n - 1);
      assert ZeroBytes(n)[..n - 1] == ZeroBytes(n - 1);
    }
  }

  lemma AddIsZero(x: Byte, y: Byte)
    ensures Add(x, y) == ZERO <==> x == y
  {
    hide Add, ZERO;
    AddCancels(x, y);
    AddCancels(x, x);
    AddCommutes(ZERO, y);
    AddCancels(y, y);
    AddCommutes(x, y);
    if Add(x, y) == ZERO {
      assert Add(Add(x, y), y) == x;
    }
  }

  lemma {:induction false} DistanceIsNonZeros(a: seq<Byte>, b: seq<Byte>)
    requires |a| == |b|
    ensures Distance(a, b) == NonZeros(RowAdd(a, b))
  {
    hide Add;
    if a != [] {
      var n := |a| - 1;
      DistanceIsNonZeros(a[..n], b[..n]);
      AddIsZero(a[n], b[n]);
      assert RowAdd(a, b)[..n] == RowAdd(a[..n], b[..n]);
    }
  }

  // ---- Syndromes are the power sums of the errors ----

  lemma {:induction false} PowerOfExp(a: nat, b: nat)
    ensures Power(Exp(a), b) == Exp(a * b)
  {
    hide Exp, Mul;
    if b == 0 {
      ExpZero();
    } else {
      PowerOfExp(a, b - 1);
      ExpProduct(a, a * (b - 1));
      assert a + a * (b - 1) == a * b;
    }
  }

  lemma {:induction false} EvalUpdate(s: seq<Byte>, p: nat, x: Byte)
    requires p < |s|
    ensures Eval(Trim(s), x)
         == Add(Eval(Trim(s[p := ZERO]), x), Mul(s[p], Power(x, |s| - 1 - p)))
  {
    hide Add, Mul, Eval, Power, Trim;
    var n := |s| - 1;
    var t := s[p := ZERO];
    assert s == s[..n] + [s[n]] && t == t[..n] + [t[n]];
    TrimAppend(s[..n], s[n]);
    TrimAppend(t[..n], t[n]);
    EvalSnoc(Trim(s[..n]), s[n], x);
    EvalSnoc(Trim(t[..n]), t[n], x);
    var e := Mul(x, Eval(Trim(t[..n]), x));
    if p == n {
      assert t[..n] == s[..n];
      PowerZero(x);
      MulOne(s[n]);
      AddCancels(e, ZERO);
    } else {
      EvalUpdate(s[..n], p, x);
      assert t[..n] == s[..n][p := ZERO];
      EvalUpdateStep(Eval(Trim(t[..n]), x), s[p], Power(x, n - 1 - p), x, s[n]);
      PowerStep(x, n - 1 - p);
    }
  }

  lemma EvalUpdateStep(e: Byte, y: Byte, w: Byte, x: Byte, c: Byte)
    ensures Add(Mul(x, Add(e, Mul(y, w))), c) == Add(Add(Mul(x, e), c), Mul(y, Mul(x, w)))
  {
    hide Add, Mul;
    MulDistributes(x, e, Mul(y, w));
    MulAssociates(x, y, w);
    MulAssociates(y, x, w);
    MulCommutes(x, y);
    var (a, b) := (Mul(x, e), Mul(y, Mul(x, w)));
    AddAssociates(a, b, c);
    AddCommutes(b, c);
    AddAssociates(a, c, b);
  }

  lemma {:induction false} PartialPowerSum(err: seq<Byte>, m: nat, k: nat)
    requires m <= 255
    ensures Eval(Trim(err), Exp(k)) == Add(PowerSum(Faults(err, m), k), Eval(Trim(Remaining(err, m)), Exp(k)))
  {
    hide HasFault, Position, LocationAt, Exp, Eval, Trim, Add, Mul, Power;
    if m == 0 {
      AddCommutes(ZERO, Eval(Trim(err), Exp(k)));
      AddCancels(Eval(Trim(err), Exp(k)), ZERO);
    } else {
      PartialPowerSum(err, m - 1, k);
      FaultsStep(err, m);
      if HasFault(err, m) {
        var (p, loc) := (Position(|err|, LocationAt(m)), LocationAt(m));
        FaultValue(err, m);
        RemainingAt(err, m - 1, m);
        EvalUpdate(Remaining(err, m - 1), p, Exp(k));
        LocationIsExp(m, |err|);
        PowerOfExp(k, |err| - 1 - p);
        PowerOfExp(|err| - 1 - p, k);
        assert k * (|err| - 1 - p) == (|err| - 1 - p) * k;
        var (a, b, c) := (PowerSum(Faults(err, m - 1), k), Eval(Trim(Remaining(err, m)), Exp(k)),
                          Mul(err[p], Power(loc, k)));
        AddCommutes(b, c);
        AddAssociates(a, c, b);
      }
    }
  }

  lemma SyndromeIsPowerSum(err: seq<Byte>, m: nat, k: nat)
    requires |err| <= 255 && m == 255
    ensures Eval(Trim(err), Exp(k)) == PowerSum(Faults(err, m), k)
  {
    hide Exp, Eval, Trim, Add, Faults, PowerSum;
    PartialPowerSum(err, m, k);
    NothingRemains(err, m);
    TrimZeros(|err|);
    EvalEmpty(Exp(k));
    AddCancels(PowerSum(Faults(err, m), k), ZERO);
  }

  lemma EvalEmpty(x: Byte)
    ensures Eval([], x) == ZERO
  {}

  // ---- The root search ----

  /** The inverses of the roots among the bytes 1 to m, in the order of the search. */
  function RootInverses(locator: Poly, m: nat): seq<Byte>
    requires m <= 255
    decreases m, |locator|
  {
    if m == 0 then []
    else if Eval(locator, FromNat(m)) == ZERO then RootInverses(locator, m - 1) + [LocationAt(m)]
    else RootInverses(locator, m - 1)
  }

  lemma InverseOfLocation(i: nat)
    requires 1 <= i <= 255
    ensures Inv(LocationAt(i)) == FromNat(i)
  {
    NonZeroFromNat(i);
    InvInv(FromNat(i));
  }

  /** A byte is a root of the locator exactly when its step meets an error. */
  lemma RootIffFault(err: seq<Byte>, all: nat, i: nat)
    requires all == 255 && 1 <= i <= 255
    ensures Eval(Locator(Faults(err, all)), FromNat(i)) == ZERO <==> HasFault(err, i)
  {
    hide HasFault, Position, LocationAt, Inv, FromNat, Eval, Locator, Faults;
    var faults := Faults(err, all);
    FaultsDistinct(err, all);
    FaultsKnown(err, all);
    LocatorRoots(faults, FromNat(i));
    InverseOfLocation(i);
    if HasFault(err, i) {
      var f := Fault(LocationAt(i), err[FaultPosition(err, i)]);
      assert f in faults;
    }
    if Eval(Locator(faults), FromNat(i)) == ZERO {
      var j :| 0 <= j < |faults| && FromNat(i) == Inv(faults[j].loc);
      var f := faults[j];
      assert f in faults;
      var k :| 1 <= k <= all && HasFault(err, k) && f.loc == LocationAt(k);
      InverseOfLocation(k);
      FromNatInjective(i, k);
    }
  }

  function FaultPosition(err: seq<Byte>, i: nat): (p: nat)
    requires 1 <= i <= 255 && HasFault(err, i)
    ensures p < |err| && p == Position(|err|, LocationAt(i))
  {
    Position(|err|, LocationAt(i))
  }

  lemma FromNatInjective(i: nat, j: nat)
    requires i < 256 && j < 256 && FromNat(i) == FromNat(j)
    ensures i == j
  {
    ByteNatRoundTrip(ZERO, i);
    ByteNatRoundTrip(ZERO, j);
  }

  lemma {:induction false} SearchFindsFaults(err: seq<Byte>, all: nat, m: nat)
    requires all == 255 && m <= 255
    ensures RootInverses(Locator(Faults(err, all)), m) == Locations(Faults(err, m))
  {
    hide HasFault, Position, LocationAt, FromNat, Eval, Locator;
    if m > 0 {
      SearchFindsFaults(err, all, m - 1);
      RootIffFault(err, all, m);
      FaultsStep(err, m);
      if HasFault(err, m) {
        LocationsAppend(Faults(err, m - 1), Fault(LocationAt(m), err[FaultPosition(err, m)]));
      }
    }
  }

  lemma LocationsAppend(faults: seq<Fault>, f: Fault)
    ensures Locations(faults + [f]) == Locations(faults) + [f.loc]
  {}

  // ---- The corrections ----

  /** The word after the corrections for the first i locations. */
  function Corrected(w: seq<Byte>, locs: seq<Byte>, evaluator: Poly, i: nat): (res: Result<seq<Byte>>)
    requires i <= |locs|
    requires forall k :: 0 <= k < |locs| ==> locs[k] != ZERO
    ensures res.Ok? ==> |res.value| == |w|
  {
    if i == 0 then Ok(w) else
      var prev := Corrected(w, locs, evaluator, i - 1);
      if prev.Err? then prev else
      var pos := Position(|w|, locs[i - 1]);
      if pos < 0 then Results.Err("RS.decode: invalid error location") else
      var denominator := DenominatorOf(locs, i - 1);
      if denominator == ZERO then Results.Err("GF.inverse: invalid arg") else
      Ok(prev.value[pos := Add(prev.value[pos], Magnitude(evaluator, locs[i - 1], denominator))])
  }

  function DenominatorOf(locs: seq<Byte>, i: nat): Byte
    requires i < |locs| && locs[i] != ZERO
  {
    Denominator(locs, i, Inv(locs[i]), |locs|)
  }

  function Magnitude(evaluator: Poly, loc: Byte, denominator: Byte): Byte
    requires loc != ZERO && denominator != ZERO
  {
    Mul(Eval(evaluator, Inv(loc)), Inv(denominator))
  }

  /** For the true evaluator the computed magnitude is the value of the error. */
  lemma MagnitudeIsValue(faults: seq<Fault>, j: nat)
    requires Distinct(faults) && j < |faults|
    ensures var d := DenominatorOf(Locations(faults), j);
      d != ZERO && Magnitude(Evaluator(faults), faults[j].loc, d) == faults[j].value
  {
    hide Inv, Mul, Eval, Denominator, Evaluator;
    var x := Inv(faults[j].loc);
    var d := Denominator(Locations(faults), j, x, |faults|);
    DenominatorNonZero(faults, j, |faults|);
    EvaluatorAt(faults, j);
    MulInverse(d);
    MulAssociates(faults[j].value, d, Inv(d));
    MulOne(faults[j].value);
  }

  /** Correcting the faults met by step m leaves the codeword plus the remaining errors. */
  lemma {:induction false} CorrectedSoFar(c: seq<Byte>, w: seq<Byte>, all: nat, m: nat)
    requires |c| == |w| && all == 255 && m <= 255
    requires var err := RowAdd(w, c); Faults(err, m) <= Faults(err, all)
    requires var faults := Faults(RowAdd(w, c), all);
      forall k :: 0 <= k < |faults| ==> Locations(faults)[k] != ZERO
    ensures var (err, faults) := (RowAdd(w, c), Faults(RowAdd(w, c), all));
      Corrected(w, Locations(faults), Evaluator(faults), |Faults(err, m)|) == Ok(RowAdd(c, Remaining(err, m)))
  {
    hide HasFault, Position, LocationAt, RowAdd, Locator, Evaluator, Locations, DenominatorOf, Magnitude, Corrected,
        Faults;
    var err := RowAdd(w, c);
    var faults := Faults(err, all);
    if m == 0 {
      FaultsZero(err);
      CorrectedStart(w, Locations(faults), Evaluator(faults));
      ErrorRestores(c, w);
    } else {
      FaultsStep(err, m);
      if HasFault(err, m) {
        assert Faults(err, m - 1) <= Faults(err, m);
        CorrectedSoFar(c, w, all, m - 1);
        var i := |Faults(err, m - 1)|;
        assert faults[i] == Faults(err, m)[i];
        FaultsDistinct(err, all);
        MagnitudeIsValue(faults, i);
        CorrectedStep(w, Locations(faults), Evaluator(faults), i);
        LocationsLength(faults);
        var p := FaultPosition(err, m);
        FaultValue(err, m);
        RemainingAt(err, m - 1, m);
        RowAddUpdate(c, Remaining(err, m - 1), p);
      } else {
        CorrectedSoFar(c, w, all, m - 1);
      }
    }
  }

  lemma LocationsLength(faults: seq<Fault>)
    ensures |Locations(faults)| == |faults|
    ensures forall j :: 0 <= j < |faults| ==> Locations(faults)[j] == faults[j].loc
  {}

  lemma FaultsZero(err: seq<Byte>)
    ensures Faults(err, 0) == []
  {}

  lemma CorrectedStart(w: seq<Byte>, locs: seq<Byte>, evaluator: Poly)
    requires forall k :: 0 <= k < |locs| ==> locs[k] != ZERO
    ensures Corrected(w, locs, evaluator, 0) == Ok(w)
  {}

  lemma CorrectedStep(w: seq<Byte>, locs: seq<Byte>, evaluator: Poly, i: nat)
    requires i < |locs| && forall k :: 0 <= k < |locs| ==> locs[k] != ZERO
    requires Corrected(w, locs, evaluator, i).Ok?
    requires 0 <= Position(|w|, locs[i]) && DenominatorOf(locs, i) != ZERO
    ensures var (prev, p) := (Corrected(w, locs, evaluator, i).value, Position(|w|, locs[i]));
      Corrected(w, locs, evaluator, i + 1)
        == Ok(prev[p := Add(prev[p], Magnitude(evaluator, locs[i], DenominatorOf(locs, i)))])
  {}

  lemma ErrorRestores(c: seq<Byte>, w: seq<Byte>)
    requires |c| == |w|
    ensures RowAdd(c, RowAdd(w, c)) == w
  {
    hide Add, RowAdd;
    forall k | 0 <= k < |w| ensures w[k] == Add(c[k], RowAdd(w, c)[k]) {
      RowAddAt(w, c, k);
      AddCommutes(w[k], c[k]);
      AddCommutes(c[k], Add(c[k], w[k]));
      AddCommutes(c[k], w[k]);
      AddCancels(w[k], c[k]);
    }
    RowAddIs(c, RowAdd(w, c), w);
  }

  lemma RowAddUpdate(c: seq<Byte>, r: seq<Byte>, p: nat)
    requires |c| == |r| && p < |c|
    ensures RowAdd(c, r)[p := Add(RowAdd(c, r)[p], r[p])] == RowAdd(c, r[p := ZERO])
  {
    hide Add, RowAdd;
    var (s, t) := (RowAdd(c, r)[p := Add(RowAdd(c, r)[p], r[p])], r[p := ZERO]);
    forall k | 0 <= k < |c| ensures s[k] == Add(c[k], t[k]) {
      RowAddAt(c, r, k);
      AddCancels(c[k], r[k]);
    }
    RowAddIs(c, t, s);
  }

  lemma CorrectedIsCodeword(c: seq<Byte>, w: seq<Byte>, all: nat)
    requires |c| == |w| <= 255 && all == 255
    ensures var faults := Faults(RowAdd(w, c), all);
      && (forall k :: 0 <= k < |faults| ==> Locations(faults)[k] != ZERO)
      && Corrected(w, Locations(faults), Evaluator(faults), |faults|) == Ok(c)
  {
    hide RowAdd, Locations, Corrected, Faults, Evaluator, Remaining, ZeroBytes;
    var err := RowAdd(w, c);
    FaultsDistinct(err, all);
    LocationsLength(Faults(err, all));
    CorrectedSoFar(c, w, all, all);
    NothingRemains(err, all);
    forall k | 0 <= k < |c| ensures c[k] == Add(c[k], ZeroBytes(|c|)[k]) {
      AddCancels(c[k], ZERO);
    }
    RowAddIs(c, ZeroBytes(|c|), c);
  }

  // ---- The decoder ----

  /** The syndromes of a word, highest first, and whether any is nonzero. */
  method Syndromes(poly: seq<Byte>, eccWords: nat) returns (syndrome: seq<Byte>, hasError: bool)
    requires |poly| > 0 && eccWords <= 255
    ensures |syndrome| == eccWords
    ensures forall i :: 0 <= i < eccWords ==> syndrome[eccWords - 1 - i] == Eval(Trim(poly), Exp(i))
    ensures hasError <==> exists i :: 0 <= i < eccWords && Eval(Trim(poly), Exp(i)) != ZERO
  {
    hide Eval, Trim, Exp;
    var buffer := new Byte[eccWords](_ => ZERO);
    hasError := false;
    for i := 0 to eccWords
      invariant forall k :: 0 <= k < i ==> buffer[eccWords - 1 - k] == Eval(Trim(poly), Exp(k))
      invariant hasError <==> exists k :: 0 <= k < i && Eval(Trim(poly), Exp(k)) != ZERO
    {
      var evl := EvalPoly(poly, Exp(i));
      buffer[eccWords - 1 - i] := evl;
      if evl != ZERO {
        hasError := true;
      }
    }
    syndrome := buffer[..];
  }

  /** Tries the bytes 1 to 255 as roots, stopping once as many as the degree are found. */
  method FindLocations(errorLocator: seq<Byte>) returns (res: Result<seq<Byte>>)
    requires |errorLocator| > 0
    ensures var all := RootInverses(Trim(errorLocator), 255);
      && (res.Ok? ==> |res.value| == Degree(errorLocator) && res.value <= all)
      && (|all| == Degree(errorLocator) ==> res == Ok(all))
    ensures res.Ok? ==> forall k :: 0 <= k < |res.value| ==> res.value[k] != ZERO
  {
    hide Eval, Trim, FromNat, LocationAt;
    var n := Degree(errorLocator);
    var locations := new Byte[n](_ => ZERO);
    var e, i := 0, 1;
    ghost var locator := Trim(errorLocator);
    while i < 256 && e < n
      invariant 1 <= i <= 256 && 0 <= e <= n
      invariant locations[..e] == RootInverses(locator, i - 1)
      invariant forall k :: 0 <= k < e ==> locations[k] != ZERO
    {
      var value := EvalPoly(errorLocator, FromNat(i));
      if value == ZERO {
        locations[e] := LocationAt(i);
        e := e + 1;
      }
      i := i + 1;
    }
    RootInversesPrefix(locator, i - 1, 255);
    ghost var all := RootInverses(locator, 255);
    assert locations[..e] <= all && (e < n ==> locations[..e] == all);
    if e != n {
      res := Result.Err("RS.decode: invalid errors number");
    } else {
      assert locations[..] == locations[..e];
      PrefixOfSameLength(locations[..], all);
      res := Ok(locations[..]);
    }
  }

  lemma PrefixOfSameLength(a: seq<Byte>, b: seq<Byte>)
    requires a <= b
    ensures |a| == |b| ==> a == b
  {}

  lemma {:induction false} RootInversesPrefix(locator: Poly, m: nat, all: nat)
    requires m <= all <= 255
    ensures RootInverses(locator, m) <= RootInverses(locator, all)
    decreases all - m
  {
    hide Eval, FromNat, LocationAt;
    if m < all {
      RootInversesPrefix(locator, m + 1, all);
    }
  }

  method ComputeDenominator(locations: seq<Byte>, i: nat, xiInverse: Byte) returns (denominator: Byte)
    requires i < |locations|
    ensures denominator == Denominator(locations, i, xiInverse, |locations|)
  {
    hide Mul, Add;
    denominator := ONE;
    for j := 0 to |locations|
      invariant denominator == Denominator(locations, i, xiInverse, j)
    {
      if i != j {
        denominator := Mul(denominator, Add(ONE, Mul(locations[j], xiInverse)));
      }
    }
  }

  /** What the pass for location i does to the word. */
  lemma CorrectedNext(w: seq<Byte>, locs: seq<Byte>, evaluator: Poly, i: nat, now: seq<Byte>)
    requires i < |locs| && forall k :: 0 <= k < |locs| ==> locs[k] != ZERO
    requires Corrected(w, locs, evaluator, i) == Ok(now)
    ensures var pos := |w| - 1 - Log(locs[i]) % 255;
      var x := Inv(locs[i]);
      var denominator := Denominator(locs, i, x, |locs|);
      Corrected(w, locs, evaluator, i + 1) ==
        if pos < 0 then Result.Err("RS.decode: invalid error location")
        else if denominator == ZERO then Result.Err("GF.inverse: invalid arg")
        else Ok(now[pos := Add(now[pos], Mul(Eval(evaluator, x), Inv(denominator)))])
  {}

  /** Adds the magnitude of each error at its position, in place. */
  method Correct(to: seq<Byte>, locations: seq<Byte>, errorEvaluator: seq<Byte>)
    returns (res: Result<seq<Byte>>)
    requires |errorEvaluator| > 0
    requires forall k :: 0 <= k < |locations| ==> locations[k] != ZERO
    ensures res == Corrected(to, locations, Trim(errorEvaluator), |locations|)
  {
    hide Mul, Add, Eval, Trim, Inv, Denominator, Log, Corrected;
    var buffer := new Byte[|to|](k requires 0 <= k < |to| => to[k]);
    ghost var evaluator := Trim(errorEvaluator);
    assert buffer[..] == to;
    CorrectedStart(to, locations, evaluator);
    for i := 0 to |locations|
      invariant Corrected(to, locations, evaluator, i) == Ok(buffer[..])
    {
      var loc := locations[i];
      var pos := |to| - 1 - Log(loc) % 255;
      CorrectedNext(to, locations, evaluator, i, buffer[..]);
      if pos < 0 {
        CorrectedError(to, locations, evaluator, i + 1, |locations|);
        return Result.Err("RS.decode: invalid error location");
      }
      var xiInverse := Inv(loc);
      var denominator := ComputeDenominator(locations, i, xiInverse);
      if denominator == ZERO {
        CorrectedError(to, locations, evaluator, i + 1, |locations|);
        return Result.Err("GF.inverse: invalid arg");
      }
      var value := EvalPoly(errorEvaluator, xiInverse);
      ghost var before := buffer[..];
      buffer[pos] := Add(buffer[pos], Mul(value, Inv(denominator)));
      assert buffer[..] == before[pos := buffer[pos]];
    }
    res := Ok(buffer[..]);
  }

  lemma {:induction false} CorrectedError(w: seq<Byte>, locs: seq<Byte>, evaluator: Poly, i: nat, n: nat)
    requires i <= n <= |locs| && forall k :: 0 <= k < |locs| ==> locs[k] != ZERO
    requires Corrected(w, locs, evaluator, i).Err?
    ensures Corrected(w, locs, evaluator, n) == Corrected(w, locs, evaluator, i)
  {
    hide Position, DenominatorOf, Magnitude, Add;
    if i < n {
      CorrectedError(w, locs, evaluator, i, n - 1);
    }
  }

  // ---- Why the decoder restores the codeword ----

  lemma WordSyndrome(c: seq<Byte>, w: seq<Byte>, R: nat, all: nat, i: nat)
    requires |c| == |w| <= 255 && all == 255 && IsCodeword(c, R) && i < R
    ensures PowerSum(Faults(RowAdd(w, c), all), i) == Eval(Trim(w), Exp(i))
  {
    hide Exp, Eval, Trim, Add, Plus, Faults, PowerSum, RowAdd;
    SyndromeIsPowerSum(RowAdd(w, c), all, i);
    TrimRowAdd(w, c);
    EvalPlus(Trim(w), Trim(c), Exp(i));
    AddCancels(Eval(Trim(w), Exp(i)), ZERO);
  }

  lemma {:induction false} SyndromeArray(faults: seq<Fault>, raw: seq<Byte>, i: nat, R: nat)
    requires |raw| == R && i <= R
    requires forall k :: 0 <= k < R ==> raw[R - 1 - k] == PowerSum(faults, k)
    ensures Trim(raw[..R - i]) == SyndromePoly(faults, i, R)
    decreases R - i
  {
    hide Snoc, PowerSum;
    if i == R {
      assert raw[..0] == [];
    } else {
      SyndromeArray(faults, raw, i + 1, R);
      assert raw[..R - i] == raw[..R - i - 1] + [raw[R - 1 - i]];
      TrimAppend(raw[..R - i - 1], raw[R - 1 - i]);
    }
  }

  /** Few errors with all syndromes zero are no errors: the code has distance over R. */
  lemma NoSyndromeNoFault(faults: seq<Fault>, R: nat)
    requires Distinct(faults) && |faults| <= R
    requires SyndromePoly(faults, 0, R) == []
    ensures faults == []
  {
    hide Times, Plus, Locator, Evaluator, Excess, Eval, Denominator;
    KeyEquation.KeyEquation(faults, R);
    var high := ShiftBy(Excess(faults, R), R);
    TimesZero(Locator(faults));
    PlusCancels(Evaluator(faults), high);
    PlusZero(high);
    EvaluatorLength(faults);
    ShiftByLength(Excess(faults, R), R);
    if faults != [] {
      var x := Inv(faults[0].loc);
      EvaluatorAt(faults, 0);
      DenominatorNonZero(faults, 0, |faults|);
      MulNonZero(faults[0].value, Denominator(Locations(faults), 0, x, |faults|));
      EvalEmpty(x);
    }
  }

  lemma CleanWordIsCodeword(c: seq<Byte>, w: seq<Byte>, R: nat, all: nat)
    requires |c| == |w| <= 255 && all == 255 && IsCodeword(c, R) && IsCodeword(w, R)
    requires 2 * Distance(w, c) <= R
    ensures w == c
  {
    hide RowAdd, Faults, Eval, Trim, Exp, PowerSum, SyndromePoly, ZeroBytes;
    var err := RowAdd(w, c);
    var faults := Faults(err, all);
    forall i | 0 <= i < R ensures PowerSum(faults, i) == ZERO {
      WordSyndrome(c, w, R, all, i);
    }
    FaultsDistinct(err, all);
    FaultTotal(c, w, all);
    forall k | 0 <= k < R ensures ZeroBytes(R)[R - 1 - k] == PowerSum(faults, k) {
    }
    SyndromeArray(faults, ZeroBytes(R), 0, R);
    assert ZeroBytes(R)[..R] == ZeroBytes(R);
    TrimZeros(R);
    NoSyndromeNoFault(faults, R);
    CorrectedIsCodeword(c, w, all);
    CorrectedEmpty(w, Locations(faults), Evaluator(faults));
  }

  lemma CorrectedEmpty(w: seq<Byte>, locs: seq<Byte>, evaluator: Poly)
    requires locs == []
    ensures Corrected(w, locs, evaluator, 0) == Ok(w)
  {}

  lemma FaultTotal(c: seq<Byte>, w: seq<Byte>, all: nat)
    requires |c| == |w| <= 255 && all == 255
    ensures |Faults(RowAdd(w, c), all)| == Distance(w, c)
  {
    hide RowAdd, Faults, NonZeros, Remaining, ZeroBytes;
    FaultCount(RowAdd(w, c), all);
    NothingRemains(RowAdd(w, c), all);
    NonZerosOfZeros(|RowAdd(w, c)|);
    DistanceIsNonZeros(w, c);
  }

  /** Euclid's output, once normalised, is the locator and evaluator of the word's errors. */
  lemma TrueLocator(c: seq<Byte>, w: seq<Byte>, R: nat, all: nat, raw: seq<Byte>,
                    r: Poly, t: Poly, u: Poly, tLast: Poly, uLast: Poly)
    requires |c| == |w| <= 255 && all == 255 && IsCodeword(c, R) && 2 * Distance(w, c) <= R
    requires |raw| == R && forall k :: 0 <= k < R ==> raw[R - 1 - k] == Eval(Trim(w), Exp(k))
    requires Row(r, t, u, Trim(raw), ErrorLocator.Monomial(R)) && Coprime(tLast, t, uLast, u)
    requires t != [] && 2 * (|t| - 1) <= R && (r != [] ==> 2 * (|r| - 1) < R)
    ensures var faults := Faults(RowAdd(w, c), all);
      && Eval(t, ZERO) != ZERO
      && Scale(Inv(Eval(t, ZERO)), t) == Locator(faults)
      && Scale(Inv(Eval(t, ZERO)), r) == Evaluator(faults)
  {
    hide RowAdd, Faults, Eval, Trim, Exp, PowerSum, SyndromePoly, Row, Scale, Locator, Evaluator, Inv, Times, Plus;
    var faults := Faults(RowAdd(w, c), all);
    forall i | 0 <= i < R ensures PowerSum(faults, i) == Eval(Trim(w), Exp(i)) {
      WordSyndrome(c, w, R, all, i);
    }
    SyndromeArray(faults, raw, 0, R);
    assert raw[..R] == raw;
    FaultsDistinct(RowAdd(w, c), all);
    FaultTotal(c, w, all);
    var m := LocatorUnique(r, t, u, tLast, uLast, faults, R);
    NormaliseRow(m, t, Locator(faults), r, Evaluator(faults), faults);
  }

  lemma NormaliseRow(m: Byte, t: Poly, l: Poly, r: Poly, w: Poly, faults: seq<Fault>)
    requires m != ZERO && t == Scale(m, l) && r == Scale(m, w) && l == Locator(faults)
    ensures Eval(t, ZERO) == m && Scale(Inv(m), t) == l && Scale(Inv(m), r) == w
  {
    hide *;
    EvalScale(m, l, ZERO);
    LocatorAtZero(faults);
    MulOne(m);
    MulInverse(m);
    MulCommutes(m, Inv(m));
    ScaleScale(Inv(m), m, l);
    ScaleScale(Inv(m), m, w);
    ScaleOne(l);
    ScaleOne(w);
  }

  /** With the true locator and evaluator the search and the corrections give the codeword. */
  lemma FinishRestores(c: seq<Byte>, w: seq<Byte>, all: nat, locator: seq<Byte>, evaluator: seq<Byte>,
                       found: Result<seq<Byte>>, res: Result<seq<Byte>>)
    requires |c| == |w| <= 255 && all == 255
    requires var faults := Faults(RowAdd(w, c), all);
      locator == Rep(Locator(faults)) && evaluator == Rep(Evaluator(faults))
    requires |RootInverses(Trim(locator), all)| == Degree(locator) ==> found == Ok(RootInverses(Trim(locator), all))
    requires found.Ok? ==> forall k :: 0 <= k < |found.value| ==> found.value[k] != ZERO
    requires found.Ok? ==> res == Corrected(w, found.value, Trim(evaluator), |found.value|)
    ensures res == Ok(c)
  {
    hide RowAdd, Faults, Trim, Locator, Evaluator, RootInverses, Corrected, Rep;
    var faults := Faults(RowAdd(w, c), all);
    RepNormal(Locator(faults));
    RepNormal(Evaluator(faults));
    FaultsDistinct(RowAdd(w, c), all);
    LocatorLength(faults);
    RepLength(Locator(faults));
    SearchFindsFaults(RowAdd(w, c), all, all);
    CorrectedIsCodeword(c, w, all);
  }

  /** What is known when the decoder returns implies the answer for any codeword in range. */
  lemma DecodeRestores(c: seq<Byte>, w: seq<Byte>, R: nat, all: nat, raw: seq<Byte>,
                       r: Poly, t: Poly, u: Poly, tLast: Poly, uLast: Poly,
                       euclid: Result<(seq<Byte>, seq<Byte>)>, found: Result<seq<Byte>>, res: Result<seq<Byte>>)
    requires |c| == |w| <= 255 && all == 255 && IsCodeword(c, R) && 2 * Distance(w, c) <= R
    requires |raw| == R && forall k :: 0 <= k < R ==> raw[R - 1 - k] == Eval(Trim(w), Exp(k))
    requires Row(r, t, u, Trim(raw), ErrorLocator.Monomial(R)) && Coprime(tLast, t, uLast, u)
    requires t != [] && 2 * (|t| - 1) <= R && (r != [] ==> 2 * (|r| - 1) < R)
    requires Eval(t, ZERO) != ZERO ==>
      var i := Inv(Eval(t, ZERO)); euclid == Ok((Rep(Scale(i, t)), Rep(Scale(i, r))))
    requires euclid.Ok? ==> Searched(euclid.value, found, all) && Finished(w, euclid.value, found, res)
    ensures res == Ok(c)
  {
    hide RowAdd, Faults, Eval, Trim, Exp, Row, Scale, Locator, Evaluator, Inv, Rep, RootInverses, Corrected, Coprime;
    TrueLocator(c, w, R, all, raw, r, t, u, tLast, uLast);
    FinishRestores(c, w, all, euclid.value.0, euclid.value.1, found, res);
  }

  ghost predicate Searched(value: (seq<Byte>, seq<Byte>), found: Result<seq<Byte>>, all: nat)
    requires all <= 255
  {
    && |value.0| > 0
    && (|RootInverses(Trim(value.0), all)| == Degree(value.0) ==> found == Ok(RootInverses(Trim(value.0), all)))
    && (found.Ok? ==> forall k :: 0 <= k < |found.value| ==> found.value[k] != ZERO)
  }

  ghost predicate Finished(w: seq<Byte>, value: (seq<Byte>, seq<Byte>), found: Result<seq<Byte>>,
                           res: Result<seq<Byte>>)
    requires found.Ok? ==> forall k :: 0 <= k < |found.value| ==> found.value[k] != ZERO
  {
    found.Ok? ==> res == Corrected(w, found.value, Trim(value.1), |found.value|)
  }

  /**
   * Returns codewords of any length unchanged, and restores every one of at most 255 bytes at most eccWords / 2 bytes
   * away.
   */
  method Decode(eccWords: nat, to: seq<Byte>) returns (res: Result<seq<Byte>>)
    requires eccWords <= 255
    ensures res.Ok? ==> |res.value| == |to|
    ensures |to| > 0 && IsCodeword(to, eccWords) ==> res == Ok(to)
    ensures forall c :: 0 < |c| == |to| <= 255 && IsCodeword(c, eccWords) && 2 * Distance(to, c) <= eccWords
              ==> res == Ok(c)
  {
    hide Trim, Eval, Exp, Row, Coprime, Rep, Scale, Inv, RootInverses, Corrected, Normal, ErrorLocator.Monomial,
        ShiftBy, Distance;
    if |to| == 0 {
      return Result.Err("GF.polymomial: invalid length");
    }
    var poly := Polynomial(to);
    RepNormal(Trim(to));
    var syndrome, hasError := Syndromes(poly, eccWords);
    ghost var all: nat :| all == 255;
    if !hasError {
      forall c | 0 < |c| == |to| <= 255 && IsCodeword(c, eccWords) && 2 * Distance(to, c) <= eccWords
        ensures to == c
      {
        CleanWordIsCodeword(c, to, eccWords, all);
      }
      return Ok(to);
    }
    ghost var raw := syndrome;
    syndrome := Polynomial(syndrome);
    var monomial := PolyArrays.Monomial(eccWords, ONE);
    EuclidInputs(raw, eccWords);
    var euclid;
    ghost var r, t, u, tLast, uLast;
    euclid, r, t, u, tLast, uLast := Euclidian(monomial, syndrome, eccWords);
    var found: Result<seq<Byte>> := Result.Err("");
    if euclid.Err? {
      res := Result.Err(euclid.error);
    } else {
      var (errorLocator, errorEvaluator) := euclid.value;
      found := FindLocations(errorLocator);
      if found.Err? {
        res := Result.Err(found.error);
      } else {
        res := Correct(to, found.value, errorEvaluator);
      }
    }
    forall c | 0 < |c| == |to| <= 255 && IsCodeword(c, eccWords) && 2 * Distance(to, c) <= eccWords
      ensures res == Ok(c)
    {
      DecodeRestores(c, to, eccWords, all, raw, r, t, u, tLast, uLast, euclid, found, res);
    }
  }

  /** Every message, of any length, comes back from its code. */
  method EncodeThenDecode(eccWords: nat, from: seq<Byte>) returns (res: Result<seq<Byte>>)
    requires eccWords <= 255 && |from| + eccWords > 0
    ensures res.Ok? && |res.value| == |from| + eccWords && res.value[..|from|] == from
  {
    hide IsCodeword;
    var ecc := ReedSolomon.Encode(eccWords, from);
    assert (from + ecc)[..|from|] == from;
    res := Decode(eccWords, from + ecc);
  }

  /** The two polynomials handed to Euclid: x^R and the syndromes without leading zeros. */
  lemma EuclidInputs(raw: seq<Byte>, R: nat)
    requires |raw| == R > 0
    ensures var m := Rep(ShiftBy(Snoc([], ONE), R));
      Normal(m) && Trim(m) == ErrorLocator.Monomial(R) && Degree(m) == R
    ensures var s := Rep(Trim(raw)); Normal(s) && Trim(s) == Trim(raw) && Degree(s) < R
  {
    hide Trim;
    RepNormal(ShiftBy(Snoc([], ONE), R));
    RepNormal(Trim(raw));
    assert Snoc([], ONE) == [ONE];
    ShiftByLength([ONE], R);
    TrimLength(raw);
  }
}
