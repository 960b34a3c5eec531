/** The function patterns as the standard shows them (section 6.3 and Annex E of ISO/IEC 18004:2015). */
module TemplatePictures {
  import opened Results
  import opened Alignment
  import opened Template

  // ---- Centres ----

  /** The second centre of versions 2 to 40; the others follow it at equal distances. */
  const SECOND: seq<nat> := [
     18, 22, 26, 30, 34, 22, 24, 26, 28, 30, 32, 34, 26, 26, 26, 30, 30, 30, 34, 28, 26, 30, 28, 32, 30, 34, 26, 30,
     26, 30, 34, 30, 34, 30, 24, 28, 32, 26, 30]

  lemma GapsAre(ver: nat)
    requires 2 <= ver <= 40
    ensures Gaps(ver) == ver / 7 + 1
  {}

  /** The width of the gaps, when their number is known. */
  lemma IntervalIs(ver: nat, n: nat)
    requires 2 <= ver <= 40 && n == Gaps(ver)
    ensures var d := 4 * ver + 4;
      Interval(ver) == if d / n % 2 == 1 then d / n + 1 else if d % n * 2 >= n then d / n + 2 else d / n
    ensures Centre(ver, 1) == 4 * ver + 10 - (n - 1) * Interval(ver)
  {
    hide Gaps;
  }

  lemma SecondOne(ver: nat)
    requires 2 <= ver <= 6
    ensures |SECOND| == 39 && Centre(ver, 1) == SECOND[ver - 2] && Interval(ver) % 2 == 0
  {
    hide Gaps, Interval, Centre;
    GapsAre(ver);
    IntervalIs(ver, 1);
  }

  lemma SecondTwo(ver: nat)
    requires 7 <= ver <= 13
    ensures |SECOND| == 39 && Centre(ver, 1) == SECOND[ver - 2] && Interval(ver) % 2 == 0
  {
    hide Gaps, Interval, Centre;
    GapsAre(ver);
    IntervalIs(ver, 2);
  }

  lemma SecondThree(ver: nat)
    requires 14 <= ver <= 20
    ensures |SECOND| == 39 && Centre(ver, 1) == SECOND[ver - 2] && Interval(ver) % 2 == 0
  {
    hide Gaps, Interval, Centre;
    GapsAre(ver);
    IntervalIs(ver, 3);
  }

  lemma SecondFour(ver: nat)
    requires 21 <= ver <= 27
    ensures |SECOND| == 39 && Centre(ver, 1) == SECOND[ver - 2] && Interval(ver) % 2 == 0
  {
    hide Gaps, Interval, Centre;
    GapsAre(ver);
    IntervalIs(ver, 4);
  }

  lemma SecondFive(ver: nat)
    requires 28 <= ver <= 34
    ensures |SECOND| == 39 && Centre(ver, 1) == SECOND[ver - 2] && Interval(ver) % 2 == 0
  {
    hide Gaps, Interval, Centre;
    GapsAre(ver);
    IntervalIs(ver, 5);
  }

  lemma SecondSix(ver: nat)
    requires 35 <= ver <= 40
    ensures |SECOND| == 39 && Centre(ver, 1) == SECOND[ver - 2] && Interval(ver) % 2 == 0
  {
    hide Gaps, Interval, Centre;
    GapsAre(ver);
    IntervalIs(ver, 6);
  }

  lemma SecondIs(ver: nat)
    requires 2 <= ver <= 40
    ensures |SECOND| == 39 && Centre(ver, 1) == SECOND[ver - 2] && Interval(ver) % 2 == 0
  {
    hide Gaps, Interval, Centre;
    if ver < 7 {
      SecondOne(ver);
    } else if ver < 14 {
      SecondTwo(ver);
    } else if ver < 21 {
      SecondThree(ver);
    } else if ver < 28 {
      SecondFour(ver);
    } else if ver < 35 {
      SecondFive(ver);
    } else {
      SecondSix(ver);
    }
  }

  /** One centre more every seven versions: 6, the one of the table, and the others evenly spaced to the end. */
  lemma CentresAreTabled(ver: nat, m: nat)
    requires 2 <= ver <= 40
    ensures |SECOND| == 39 && Number(ver) == ver / 7 + 2
    ensures Centre(ver, 0) == 6 && Centre(ver, 1) == SECOND[ver - 2] && Centre(ver, ver / 7 + 1) == 4 * ver + 10
    ensures 2 <= m <= ver / 7 ==> Centre(ver, m + 1) - Centre(ver, m) == Centre(ver, 2) - Centre(ver, 1)
  {
    hide Centre, Gaps, Interval;
    SecondIs(ver);
    GapsAre(ver);
    FirstCentre(ver);
    LastCentre(ver);
    if 2 <= m <= ver / 7 {
      EvenlySpaced(ver, 1);
      EvenlySpaced(ver, m);
    }
  }

  lemma EvenlySpaced(ver: nat, m: nat)
    requires 2 <= ver <= 40 && 1 <= m < Gaps(ver)
    ensures Centre(ver, m + 1) - Centre(ver, m) == Interval(ver)
  {
    hide Interval, Gaps;
    var a, w := Gaps(ver) - m, Interval(ver);
    assert (a - 1) * w == a * w - w;
  }

  // ---- Pictures ----

  const FINDER: seq<string> := [
     "XXXXXXX.",
     "X.....X.",
     "X.XXX.X.",
     "X.XXX.X.",
     "X.XXX.X.",
     "X.....X.",
     "XXXXXXX.",
     "........"]

  const ALIGNMENT: seq<string> := [
     "XXXXX",
     "X...X",
     "X.X.X",
     "X...X",
     "XXXXX"]

  predicate IsSquare(rows: seq<string>, n: nat) {
    |rows| == n && forall y :: 0 <= y < n ==> |rows[y]| == n
  }

  lemma FinderUpper(x: nat, y: nat)
    requires x < 8 && y < 3
    ensures IsSquare(FINDER, 8) && Finder(x - 3, y - 3) == Some(FINDER[y][x] == 'X')
  {}

  lemma FinderMiddle(x: nat, y: nat)
    requires x < 8 && 3 <= y < 6
    ensures IsSquare(FINDER, 8) && Finder(x - 3, y - 3) == Some(FINDER[y][x] == 'X')
  {}

  lemma FinderLower(x: nat, y: nat)
    requires x < 8 && 6 <= y < 8
    ensures IsSquare(FINDER, 8) && Finder(x - 3, y - 3) == Some(FINDER[y][x] == 'X')
  {}

  lemma FinderIs(x: nat, y: nat)
    requires x < 8 && y < 8
    ensures IsSquare(FINDER, 8) && Finder(x - 3, y - 3) == Some(FINDER[y][x] == 'X')
  {
    hide Finder;
    if y < 3 { FinderUpper(x, y); } else if y < 6 { FinderMiddle(x, y); } else { FinderLower(x, y); }
  }

  lemma FinderMirrors(dx: int, dy: int)
    ensures Finder(-dx, dy) == Finder(dx, dy) == Finder(dx, -dy)
    ensures Finder(dx, dy).Some? <==> -4 <= dx <= 4 && -4 <= dy <= 4
  {}

  /** Three corners show the finder pattern and its separator, mirrored, and nothing else is a finder pattern. */
  lemma FindersAreCorners(size: nat, x: nat, y: nat)
    requires size >= 21 && x < size && y < size
    ensures IsSquare(FINDER, 8)
    ensures x < 8 && y < 8 ==>
      && FindersAt(size, x, y) == Some(FINDER[y][x] == 'X')
      && FindersAt(size, size - 1 - x, y) == Some(FINDER[y][x] == 'X')
      && FindersAt(size, x, size - 1 - y) == Some(FINDER[y][x] == 'X')
    ensures FindersAt(size, x, y).Some? <==>
      (x < 8 && y < 8) || (x >= size - 8 && y < 8) || (x < 8 && y >= size - 8)
  {
    hide Finder;
    SquareIs();
    FinderMirrors(x - 3, y - 3);
    FinderMirrors(x - (size - 4), y - 3);
    FinderMirrors(x - 3, y - (size - 4));
    if x < 8 && y < 8 {
      FinderIs(x, y);
      FinderMirrors(size - 1 - x - 3, y - 3);
      FinderMirrors(x - 3, size - 1 - y - 3);
      FinderMirrors(x - (size - 4), size - 1 - y - 3);
    }
  }

  lemma SquareIs()
    ensures IsSquare(FINDER, 8)
  {}

  /** The alignment pattern of a pair of centres. */
  lemma AlignedIs(ver: nat, i: nat, j: nat, u: nat, v: nat)
    requires 2 <= ver <= 40 && u < 5 && v < 5
    ensures IsSquare(ALIGNMENT, 5)
    ensures Aligned(ver, i, j, Centre(ver, i) - 2 + u, Centre(ver, j) - 2 + v) == Some(ALIGNMENT[v][u] == 'X')
  {
    hide Centre;
  }

  // ---- Timing ----

  lemma CentreIsEven(ver: nat, m: nat)
    requires 2 <= ver <= 40 && m <= Gaps(ver)
    ensures Centre(ver, m) % 2 == 0
  {
    hide Gaps, Interval, Centre;
    SecondIs(ver);
    CentreAt(ver, m);
    EvenProduct(Gaps(ver) - m, Interval(ver));
    if m > 0 { EvenLess(4 * ver + 10, (Gaps(ver) - m) * Interval(ver)); }
  }

  lemma EvenLess(a: int, b: int)
    requires a % 2 == 0 && b % 2 == 0
    ensures (a - b) % 2 == 0
  {}

  lemma CentreAt(ver: nat, m: nat)
    requires 2 <= ver <= 40
    ensures Centre(ver, m) == if m == 0 then 6 else 4 * ver + 10 - (Gaps(ver) - m) * Interval(ver)
  {
    hide Gaps, Interval;
  }

  lemma EvenProduct(a: int, w: int)
    requires w % 2 == 0
    ensures a * w % 2 == 0
  {
    var h := w / 2;
    assert a * w == 2 * (a * h) by { assert w == 2 * h; }
  }

  /** The timing patterns alternate between the finder patterns, and through the alignment patterns on their way. */
  lemma TimingAlternates(ver: nat, x: nat)
    requires 1 <= ver <= 40 && 8 <= x < Size(ver) - 8
    ensures TimedAt(ver, x, 6) == Some(x % 2 == 0) && TimedAt(ver, 6, x) == Some(x % 2 == 0)
  {
    hide FindersAt, Near, Centre, Gaps, Aligned, Corner;
    FindersAreCorners(Size(ver), x, 6);
    FindersAreCorners(Size(ver), 6, x);
    if ver > 1 {
      RowCrossed(ver, x);
      ColumnCrossed(ver, x);
    }
  }

  /** An alignment pattern in row or column 6 goes with the timing pattern. */
  lemma CrossingAlternates(ver: nat, i: nat, x: int)
    requires 2 <= ver <= 40 && i <= Gaps(ver) && IsNear(ver, x, i) && IsNear(ver, 6, 0)
    ensures Aligned(ver, i, 0, x, 6) == Some(x % 2 == 0) == Aligned(ver, 0, i, 6, x)
  {
    CentreIsEven(ver, i);
    FirstCentre(ver);
    hide Centre, Gaps, Ring;
    var c := Centre(ver, i);
    RingCrossed(x - c);
    SameParity(x, c);
    CrossingIs(ver, i, x);
  }

  lemma CrossingIs(ver: nat, i: nat, x: int)
    requires 2 <= ver <= 40 && Centre(ver, 0) == 6
    ensures Aligned(ver, i, 0, x, 6) == Some(Ring(x - Centre(ver, i), 0) != 1)
    ensures Aligned(ver, 0, i, 6, x) == Some(Ring(0, x - Centre(ver, i)) != 1)
  {
    hide Centre, Ring;
  }

  lemma SameParity(x: int, c: int)
    requires c % 2 == 0
    ensures (x - c) % 2 == x % 2
  {}

  lemma RingCrossed(dx: int)
    requires -2 <= dx <= 2
    ensures (Ring(dx, 0) != 1) == (dx % 2 == 0) == (Ring(0, dx) != 1)
  {}

  lemma RowCrossed(ver: nat, x: nat)
    requires 2 <= ver <= 40 && 8 <= x < Size(ver) - 8
    ensures var m := PatternsAt(ver, Number(ver), 0, x, 6); m == None || m == Some(x % 2 == 0)
  {
    hide FindersAt, Near, Centre, Gaps, Aligned, Corner, IsNear;
    FindersAreCorners(Size(ver), x, 6);
    SixIsFirst(ver);
    var i := Near(ver, x, Gaps(ver) + 1);
    if i.Some? { CrossingAlternates(ver, i.value, x); }
  }

  lemma ColumnCrossed(ver: nat, x: nat)
    requires 2 <= ver <= 40 && 8 <= x < Size(ver) - 8
    ensures var m := PatternsAt(ver, Number(ver), 0, 6, x); m == None || m == Some(x % 2 == 0)
  {
    hide FindersAt, Near, Centre, Gaps, Aligned, Corner, IsNear;
    FindersAreCorners(Size(ver), 6, x);
    SixIsFirst(ver);
    var i := Near(ver, x, Gaps(ver) + 1);
    if i.Some? { CrossingAlternates(ver, i.value, x); }
  }

  lemma SixIsFirst(ver: nat)
    requires 2 <= ver <= 40
    ensures IsNear(ver, 6, 0) && Near(ver, 6, Gaps(ver) + 1) == Some(0)
  {
    FirstCentre(ver);
    hide Centre, Gaps, Near;
    NearOnly(ver, 6, 0);
  }

  // ---- Format bits ----

  /**
   * Each of the fifteen format bits stands at two places: around the finder pattern in the upper left, and along the
   * other two.
   */
  lemma FormatStandsTwice(size: nat, x: nat, y: nat, k: nat)
    requires size >= 21 && x < size && y < size && k < 15
    ensures FormatIndex(size, x, y) == Some(k) <==>
      || (if k < 6 then x == 8 && y == k else if k < 8 then x == 8 && y == k + 1
          else if k == 8 then x == 7 && y == 8 else x == 14 - k && y == 8)
      || (if k < 8 then x == size - 1 - k && y == 8 else x == 8 && y == size - 15 + k)
  {}

  /** Each of the eighteen version bits stands beside two finder patterns, in blocks three wide. */
  lemma VersionStandsTwice(size: nat, x: nat, y: nat, k: nat)
    requires size >= 21 && x < size && y < size && k < 18
    ensures VersionIndex(size, x, y) == Some(k) <==>
      (x == size - 11 + k % 3 && y == k / 3) || (x == k / 3 && y == size - 11 + k % 3)
  {}

  /** A symbol shows its bits and the dark module beside them, and a test symbol shows them all light. */
  lemma BitsAreDrawn(l: Layout, x: nat, y: nat, k: nat)
    requires ValidLayout(l) && x < Size(l.ver) && y < Size(l.ver)
    ensures k < 15 && FormatIndex(Size(l.ver), x, y) == Some(k) ==>
      TemplateAt(l, x, y) == Some(if l.test then false else l.format[k])
    ensures k < 18 && l.ver >= 7 && VersionIndex(Size(l.ver), x, y) == Some(k) ==>
      TemplateAt(l, x, y) == Some(if l.test then false else l.version[k])
    ensures TemplateAt(l, 8, Size(l.ver) - 8) == Some(!l.test)
  {
    hide TimedAt;
  }

  /** Everything else is that of finders, alignment and timing, the same for every symbol of a version. */
  lemma RestIsFixed(l: Layout, x: nat, y: nat)
    requires ValidLayout(l) && x < Size(l.ver) && y < Size(l.ver)
    requires FormatIndex(Size(l.ver), x, y) == None && (x, y) != (8, Size(l.ver) - 8)
    requires l.ver < 7 || VersionIndex(Size(l.ver), x, y) == None
    ensures TemplateAt(l, x, y) == TimedAt(l.ver, x, y)
  {
    hide TimedAt;
  }
}
