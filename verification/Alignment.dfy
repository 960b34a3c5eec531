/** The centres of the alignment patterns of a symbol (info.alignmentPatterns in qr.js). */
module Alignment {
  import opened Results

  function Size(ver: nat): nat {
    21 + 4 * (ver - 1)
  }

  /** The number of gaps between centres in a row. */
  function Gaps(ver: nat): (n: nat)
    requires 2 <= ver <= 40
    ensures 1 <= n <= 6
  {
    (4 * ver + 4 + 27) / 28
  }

  /** The width of all gaps but the first. */
  function Interval(ver: nat): nat
    requires 2 <= ver <= 40
  {
    var distance := 4 * ver + 4;
    var i := distance / Gaps(ver);
    if i % 2 == 1 then i + 1 else if distance % Gaps(ver) * 2 >= Gaps(ver) then i + 2 else i
  }

  function Number(ver: nat): nat
    requires 1 <= ver <= 40
  {
    if ver == 1 then 0 else Gaps(ver) + 1
  }

  function Centre(ver: nat, m: nat): int
    requires 2 <= ver <= 40
  {
    if m == 0 then 6 else Size(ver) - 7 - (Gaps(ver) - m) * Interval(ver)
  }

  method AlignmentPatterns(ver: nat) returns (res: seq<int>)
    requires 1 <= ver <= 40
    ensures |res| == Number(ver) && forall m :: 0 <= m < |res| ==> res[m] == Centre(ver, m)
  {
    if ver == 1 {
      return [];
    }
    var first := 6;
    var last := Size(ver) - first - 1;
    var distance := last - first;
    var count := (distance + 27) / 28;
    var interval := distance / count;
    if interval % 2 == 1 {
      interval := interval + 1;
    } else if distance % count * 2 >= count {
      interval := interval + 2;
    }
    CentreIs(ver, count, interval);
    res := [first];
    hide Centre, Gaps, Interval;
    for m := 1 to count
      invariant |res| == m && forall k :: 0 <= k < m ==> res[k] == Centre(ver, k)
    {
      res := res + [last - (count - m) * interval];
    }
    res := res + [last];
  }

  lemma CentreIs(ver: nat, count: nat, interval: nat)
    requires 2 <= ver <= 40 && count == Gaps(ver) && interval == Interval(ver)
    ensures Centre(ver, 0) == 6 && Centre(ver, count) == Size(ver) - 7
    ensures forall m: nat :: m > 0 ==> Centre(ver, m) == Size(ver) - 7 - (count - m) * interval
  {
    hide Gaps, Interval;
  }

  // ---- How far apart they are ----

  lemma Spread(ver: nat)
    requires 2 <= ver <= 40
    ensures Interval(ver) >= 12 && Centre(ver, 1) >= 18
  {
    var n := Gaps(ver);
    assert n == 1 || n == 2 || n == 3 || n == 4 || n == 5 || n == 6;
  }

  lemma CentresApart(ver: nat, i: nat, j: nat)
    requires 2 <= ver <= 40 && i < j <= Gaps(ver)
    ensures Centre(ver, j) - Centre(ver, i) >= 12
  {
    hide Interval, Gaps;
    Spread(ver);
    var n, w := Gaps(ver), Interval(ver);
    Distribute(n - j, j - i, w);
    AtLeastOnce(j - i, w);
    if i == 0 && j > 1 {
      Distribute(n - j, j - 1, w);
      AtLeastOnce(j - 1, w);
    }
  }

  lemma Distribute(a: nat, b: nat, w: nat)
    ensures (a + b) * w == a * w + b * w
  {}

  lemma AtLeastOnce(a: nat, w: nat)
    requires a >= 1
    ensures a * w >= w
  {}

  lemma LastCentre(ver: nat)
    requires 2 <= ver <= 40
    ensures Centre(ver, Gaps(ver)) == Size(ver) - 7
  {}

  // ---- The pattern near a place ----

  predicate IsNear(ver: nat, z: int, m: nat)
    requires 2 <= ver <= 40
  {
    -2 <= z - Centre(ver, m) <= 2
  }

  /** The centre within two of a column or row. */
  function Near(ver: nat, z: int, k: nat): (r: Option<nat>)
    requires 2 <= ver <= 40
    ensures r.Some? ==> r.value < k && IsNear(ver, z, r.value)
    ensures r.None? ==> forall m :: 0 <= m < k ==> !IsNear(ver, z, m)
  {
    if k == 0 then None
    else if IsNear(ver, z, k - 1) then Some(k - 1)
    else Near(ver, z, k - 1)
  }

  /** No other centre is as near. */
  lemma NearOnly(ver: nat, z: int, m: nat)
    requires 2 <= ver <= 40 && m <= Gaps(ver) && IsNear(ver, z, m)
    ensures Near(ver, z, Gaps(ver) + 1) == Some(m)
  {
    hide Centre, Gaps, Near;
    var n := Near(ver, z, Gaps(ver) + 1).value;
    if n < m { CentresApart(ver, n, m); } else if m < n { CentresApart(ver, m, n); }
  }
}
