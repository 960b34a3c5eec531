/** How many modules the template of each version leaves for data. */
module TemplateRoom {
  import opened Results
  import opened QrInfo
  import opened Zigzag
  import opened Alignment
  import opened Template

  // ---- Counting ----

  function Span(lo: nat, hi: nat): (s: set<nat>)
    ensures forall z :: z in s <==> lo <= z < hi
    decreases hi
  {
    if hi <= lo then {} else Span(lo, hi - 1) + {hi - 1}
  }

  lemma {:induction false} SpanSize(lo: nat, hi: nat)
    requires lo <= hi
    ensures |Span(lo, hi)| == hi - lo
    decreases hi
  {
    if lo < hi {
      SpanSize(lo, hi - 1);
    }
  }

  function Product(xs: set<nat>, ys: set<nat>): (s: set<Cell>)
    ensures forall c :: c in s <==> c.x in xs && c.y in ys
  {
    set x, y | x in xs && y in ys :: Cell(x, y)
  }

  lemma {:induction false} ColumnSize(x: nat, ys: set<nat>)
    ensures |Product({x}, ys)| == |ys|
  {
    if ys != {} {
      var y :| y in ys;
      ColumnSize(x, ys - {y});
      assert Product({x}, ys) == Product({x}, ys - {y}) + {Cell(x, y)};
    } else {
      assert Product({x}, ys) == {};
    }
  }

  lemma {:induction false} ProductSize(xs: set<nat>, ys: set<nat>)
    ensures |Product(xs, ys)| == |xs| * |ys|
  {
    if xs != {} {
      var x :| x in xs;
      var rest := xs - {x};
      ProductSize(rest, ys);
      ColumnSize(x, ys);
      Split(Product(xs, ys), Product(rest, ys), Product({x}, ys));
      OneMore(|rest|, |ys|);
    } else {
      assert Product(xs, ys) == {};
    }
  }

  lemma OneMore(a: nat, b: nat)
    ensures (a + 1) * b == a * b + b
  {}

  lemma Split<T>(s: set<T>, a: set<T>, b: set<T>)
    requires (forall c :: c in s <==> c in a || c in b) && forall c :: c in a ==> c !in b
    ensures |s| == |a| + |b|
  {
    assert s == a + b;
  }

  // ---- Bands of alignment patterns ----

  /** The columns or rows within two of the centres from a on and before b. */
  function Bands(ver: nat, a: nat, b: nat): set<nat>
    requires 2 <= ver <= 40 && 1 <= a && b <= Gaps(ver) + 1
    decreases b
  {
    if b <= a then {} else Bands(ver, a, b - 1) + Span(Abs(Centre(ver, b - 1) - 2), Abs(Centre(ver, b - 1) + 3))
  }

  lemma {:induction false} InBands(ver: nat, a: nat, b: nat, z: nat)
    requires 2 <= ver <= 40 && 1 <= a && b <= Gaps(ver) + 1
    ensures z in Bands(ver, a, b) <==> exists m :: a <= m < b && IsNear(ver, z, m)
    decreases b
  {
    hide Centre, Gaps, Span;
    if b > a {
      CentreBounds(ver, b - 1);
      InBands(ver, a, b - 1, z);
      assert z in Span(Abs(Centre(ver, b - 1) - 2), Abs(Centre(ver, b - 1) + 3)) <==> IsNear(ver, z, b - 1);
    }
  }

  lemma {:induction false} BandsSize(ver: nat, a: nat, b: nat)
    requires 2 <= ver <= 40 && 1 <= a <= b <= Gaps(ver) + 1
    ensures |Bands(ver, a, b)| == 5 * (b - a)
    decreases b
  {
    hide Centre, Gaps, Span;
    if b > a {
      var lo := Centre(ver, b - 1) - 2;
      CentreBounds(ver, b - 1);
      BandsSize(ver, a, b - 1);
      SpanSize(lo, lo + 5);
      var before := Bands(ver, a, b - 1);
      forall z | z in before ensures z !in Span(lo, lo + 5) {
        InBands(ver, a, b - 1, z);
        var m :| a <= m < b - 1 && IsNear(ver, z, m);
        CentresApart(ver, m, b - 1);
      }
      Split(Bands(ver, a, b), before, Span(lo, lo + 5));
    }
  }

  /** Where bands lie. */
  lemma BandBounds(ver: nat, b: nat, z: nat)
    requires 2 <= ver <= 40 && b <= Gaps(ver) + 1 && z in Bands(ver, 1, b)
    ensures 16 <= z < Size(ver) - 4 && (b <= Gaps(ver) ==> z < Size(ver) - 16)
  {
    hide Centre, Gaps, Bands;
    InBands(ver, 1, b, z);
    var m :| 1 <= m < b && IsNear(ver, z, m);
    CentreBounds(ver, m);
  }

  // ---- The regions of a template ----

  /**
   * The rows or columns of all alignment patterns but those on the timing patterns, and of those between the corners.
   */
  function AllBands(ver: nat): set<nat>
    requires 2 <= ver <= 40
  {
    Bands(ver, 1, Gaps(ver) + 1)
  }

  function MiddleBands(ver: nat): set<nat>
    requires 2 <= ver <= 40
  {
    Bands(ver, 1, Gaps(ver))
  }

  predicate InPattern(ver: nat, z: nat)
    requires 1 <= ver <= 40
  {
    ver >= 2 && z in AllBands(ver)
  }

  predicate InMiddlePattern(ver: nat, z: nat)
    requires 1 <= ver <= 40
  {
    ver >= 2 && z in MiddleBands(ver)
  }

  /** Which pattern a module belongs to, or 0 when it is left for data. */
  function Region(ver: nat, c: Cell): nat
    requires 1 <= ver <= 40
  {
    var size, x, y := Size(ver), c.x, c.y;
    if x < 9 && y < 9 then 1
    else if x >= size - 8 && y < 9 then 2
    else if x < 9 && y >= size - 8 then 3
    else if y == 6 then 4
    else if x == 6 then 5
    else if ver >= 7 && y < 6 && size - 11 <= x < size - 8 then 6
    else if ver >= 7 && x < 6 && size - 11 <= y < size - 8 then 7
    else if InPattern(ver, x) && InPattern(ver, y) then 8
    else if InMiddlePattern(ver, x) && 4 <= y < 9 then 9
    else if 4 <= x < 9 && InMiddlePattern(ver, y) then 10
    else 0
  }

  lemma InPatternIs(ver: nat, z: nat)
    requires 2 <= ver <= 40
    ensures var n := Near(ver, z, Gaps(ver) + 1);
      && (InPattern(ver, z) <==> n.Some? && n.value > 0)
      && (InMiddlePattern(ver, z) <==> n.Some? && 0 < n.value < Gaps(ver))
      && (4 <= z < 9 <==> n == Some(0))
  {
    hide Centre, Gaps, Bands, Near;
    InBands(ver, 1, Gaps(ver) + 1, z);
    InBands(ver, 1, Gaps(ver), z);
    FirstCentre(ver);
    var n := Near(ver, z, Gaps(ver) + 1);
    forall m: nat | m <= Gaps(ver) && IsNear(ver, z, m) ensures n == Some(m) {
      NearOnly(ver, z, m);
    }
    if n.Some? { CentreBounds(ver, n.value); }
    assert 4 <= z < 9 <==> IsNear(ver, z, 0);
  }

  /** Where finder patterns are, with their separators. */
  lemma FindersAre(size: nat, x: nat, y: nat)
    requires size >= 21 && x < size && y < size
    ensures FindersAt(size, x, y).Some? <==> (x < 8 && y < 8) || (x >= size - 8 && y < 8) || (x < 8 && y >= size - 8)
  {}

  /** A module is drawn just when it lies in a region. */
  lemma DrawnIs(l: Layout, x: nat, y: nat)
    requires ValidLayout(l) && x < Size(l.ver) && y < Size(l.ver)
    ensures TemplateAt(l, x, y).Some? <==> Region(l.ver, Cell(x, y)) != 0
  {
    hide FindersAt, Centre, Gaps, Near, InPattern, InMiddlePattern, Ring;
    FindersAre(Size(l.ver), x, y);
    if l.ver >= 2 {
      InPatternIs(l.ver, x);
      InPatternIs(l.ver, y);
    } else {
      NoPatterns(x);
      NoPatterns(y);
    }
  }

  lemma NoPatterns(z: nat)
    ensures !InPattern(1, z) && !InMiddlePattern(1, z)
  {}

  // ---- Their sizes ----

  /** The cells of a symbol in region k. */
  ghost function Cells(ver: nat, k: nat): (s: set<Cell>)
    requires 1 <= ver <= 40
    ensures forall c :: c in s <==> c.x < Size(ver) && c.y < Size(ver) && Region(ver, c) == k
  {
    set c | c in Grid(Size(ver), Size(ver)) && Region(ver, c) == k
  }

  lemma IsProduct(s: set<Cell>, xs: set<nat>, ys: set<nat>)
    requires forall c :: c in s <==> c.x in xs && c.y in ys
    ensures |s| == |xs| * |ys|
  {
    ProductSize(xs, ys);
    assert s == Product(xs, ys);
  }

  lemma TopLeft(ver: nat)
    requires 1 <= ver <= 40
    ensures |Cells(ver, 1)| == 81
  {
    hide Centre, Gaps, Bands, AllBands, MiddleBands, Span;
    var size := Size(ver);
    SpanSize(0, 9);
    IsProduct(Cells(ver, 1), Span(0, 9), Span(0, 9));
  }

  lemma TopRight(ver: nat)
    requires 1 <= ver <= 40
    ensures |Cells(ver, 2)| == 72
  {
    hide Centre, Gaps, Bands, AllBands, MiddleBands, Span;
    var size := Size(ver);
    SpanSize(size - 8, size);
    SpanSize(0, 9);
    IsProduct(Cells(ver, 2), Span(size - 8, size), Span(0, 9));
  }

  lemma BottomLeft(ver: nat)
    requires 1 <= ver <= 40
    ensures |Cells(ver, 3)| == 72
  {
    hide Centre, Gaps, Bands, AllBands, MiddleBands, Span;
    var size := Size(ver);
    SpanSize(size - 8, size);
    SpanSize(0, 9);
    IsProduct(Cells(ver, 3), Span(0, 9), Span(size - 8, size));
  }

  lemma TimingRow(ver: nat)
    requires 1 <= ver <= 40
    ensures |Cells(ver, 4)| == Size(ver) - 17
  {
    hide Centre, Gaps, Bands, AllBands, MiddleBands, Span;
    var size := Size(ver);
    SpanSize(9, size - 8);
    SpanSize(6, 7);
    IsProduct(Cells(ver, 4), Span(9, size - 8), Span(6, 7));
  }

  lemma TimingColumn(ver: nat)
    requires 1 <= ver <= 40
    ensures |Cells(ver, 5)| == Size(ver) - 17
  {
    hide Centre, Gaps, Bands, AllBands, MiddleBands, Span;
    var size := Size(ver);
    SpanSize(9, size - 8);
    SpanSize(6, 7);
    IsProduct(Cells(ver, 5), Span(6, 7), Span(9, size - 8));
  }

  lemma VersionTop(ver: nat)
    requires 7 <= ver <= 40
    ensures |Cells(ver, 6)| == 18
  {
    hide Centre, Gaps, Bands, AllBands, MiddleBands, Span;
    var size := Size(ver);
    SpanSize(size - 11, size - 8);
    SpanSize(0, 6);
    IsProduct(Cells(ver, 6), Span(size - 11, size - 8), Span(0, 6));
  }

  lemma VersionLeft(ver: nat)
    requires 7 <= ver <= 40
    ensures |Cells(ver, 7)| == 18
  {
    hide Centre, Gaps, Bands, AllBands, MiddleBands, Span;
    var size := Size(ver);
    SpanSize(size - 11, size - 8);
    SpanSize(0, 6);
    IsProduct(Cells(ver, 7), Span(0, 6), Span(size - 11, size - 8));
  }

  /** The rows of a pattern on the timing row, without that row. */
  function Beside(): (s: set<nat>)
    ensures forall z :: z in s <==> 4 <= z < 9 && z != 6
    ensures |s| == 4
  {
    {4, 5, 7, 8}
  }

  lemma BandsInside(ver: nat)
    requires 2 <= ver <= 40
    ensures forall z :: z in AllBands(ver) ==> 16 <= z < Size(ver) - 4
    ensures forall z :: z in MiddleBands(ver) ==> 16 <= z < Size(ver) - 16 && z in AllBands(ver)
    ensures |AllBands(ver)| == 5 * Gaps(ver) && |MiddleBands(ver)| == 5 * (Gaps(ver) - 1)
  {
    hide Gaps;
    forall z | z in AllBands(ver) ensures 16 <= z < Size(ver) - 4 {
      BandBounds(ver, Gaps(ver) + 1, z);
    }
    forall z | z in MiddleBands(ver) ensures 16 <= z < Size(ver) - 16 {
      BandBounds(ver, Gaps(ver), z);
    }
    BandsSize(ver, 1, Gaps(ver) + 1);
    BandsSize(ver, 1, Gaps(ver));
  }

  lemma PatternsInside(ver: nat)
    requires 2 <= ver <= 40
    ensures |Cells(ver, 8)| == (5 * Gaps(ver)) * (5 * Gaps(ver))
  {
    hide Centre, Gaps, Bands, AllBands, MiddleBands, Span;
    var size := Size(ver);
    BandsInside(ver);
    IsProduct(Cells(ver, 8), AllBands(ver), AllBands(ver));
  }

  lemma PatternsOnRow(ver: nat)
    requires 2 <= ver <= 40
    ensures |Cells(ver, 9)| == 5 * (Gaps(ver) - 1) * 4
  {
    hide Centre, Gaps, Bands, AllBands, MiddleBands, Span;
    var size := Size(ver);
    BandsInside(ver);
    IsProduct(Cells(ver, 9), MiddleBands(ver), Beside());
  }

  lemma PatternsOnColumn(ver: nat)
    requires 2 <= ver <= 40
    ensures |Cells(ver, 10)| == 5 * (Gaps(ver) - 1) * 4
  {
    hide Centre, Gaps, Bands, AllBands, MiddleBands, Span;
    var size := Size(ver);
    BandsInside(ver);
    IsProduct(Cells(ver, 10), Beside(), MiddleBands(ver));
  }

  lemma NoVersionBits(ver: nat)
    requires 1 <= ver < 7
    ensures Cells(ver, 6) == {} && Cells(ver, 7) == {}
  {}

  lemma NoAlignment(ver: nat)
    requires ver == 1
    ensures Cells(ver, 8) == {} && Cells(ver, 9) == {} && Cells(ver, 10) == {}
  {}

  // ---- What is left ----

  ghost function UpTo(ver: nat, k: nat): (s: set<Cell>)
    requires 1 <= ver <= 40
    ensures forall c :: c in s <==> c.x < Size(ver) && c.y < Size(ver) && Region(ver, c) <= k
  {
    set c | c in Grid(Size(ver), Size(ver)) && Region(ver, c) <= k
  }

  lemma NextRegion(ver: nat, k: nat)
    requires 1 <= ver <= 40 && k > 0
    ensures |UpTo(ver, k)| == |UpTo(ver, k - 1)| + |Cells(ver, k)|
  {
    hide Region;
    Split(UpTo(ver, k), UpTo(ver, k - 1), Cells(ver, k));
  }

  lemma WholeGrid(ver: nat)
    requires 1 <= ver <= 40
    ensures |UpTo(ver, 10)| == Size(ver) * Size(ver) && UpTo(ver, 0) == Cells(ver, 0)
  {
    hide InPattern, InMiddlePattern, Span;
    SpanSize(0, Size(ver));
    IsProduct(UpTo(ver, 10), Span(0, Size(ver)), Span(0, Size(ver)));
  }

  /** The number of modules that the patterns of a version leave. */
  function DataModules(ver: nat): int
    requires 1 <= ver <= 40
  {
    Size(ver) * Size(ver) - 225 - 2 * (Size(ver) - 17) - (if ver >= 7 then 36 else 0)
    - if ver >= 2 then (5 * Gaps(ver)) * (5 * Gaps(ver)) + 40 * (Gaps(ver) - 1) else 0
  }

  lemma DataModulesLeft(ver: nat)
    requires 1 <= ver <= 40
    ensures |Cells(ver, 0)| == DataModules(ver)
  {
    hide Region, Cells, UpTo, Gaps;
    WholeGrid(ver);
    NextRegion(ver, 1);
    NextRegion(ver, 2);
    NextRegion(ver, 3);
    NextRegion(ver, 4);
    NextRegion(ver, 5);
    NextRegion(ver, 6);
    NextRegion(ver, 7);
    NextRegion(ver, 8);
    NextRegion(ver, 9);
    NextRegion(ver, 10);
    TopLeft(ver);
    TopRight(ver);
    BottomLeft(ver);
    TimingRow(ver);
    TimingColumn(ver);
    VersionCells(ver);
    AlignmentCells(ver);
  }

  lemma VersionCells(ver: nat)
    requires 1 <= ver <= 40
    ensures |Cells(ver, 6)| + |Cells(ver, 7)| == if ver >= 7 then 36 else 0
  {
    hide Region, Cells;
    if ver >= 7 {
      VersionTop(ver);
      VersionLeft(ver);
    } else {
      NoVersionBits(ver);
    }
  }

  lemma AlignmentCells(ver: nat)
    requires 1 <= ver <= 40
    ensures |Cells(ver, 8)| + |Cells(ver, 9)| + |Cells(ver, 10)|
         == if ver >= 2 then (5 * Gaps(ver)) * (5 * Gaps(ver)) + 40 * (Gaps(ver) - 1) else 0
  {
    hide Region, Cells, Gaps;
    if ver >= 2 {
      PatternsInside(ver);
      PatternsOnRow(ver);
      PatternsOnColumn(ver);
    } else {
      NoAlignment(ver);
    }
  }

  // ---- Room for the codewords ----

  lemma FirstVersionsFit(v: nat)
    requires v < 10
    ensures |BYTES| == 40 && DataModules(v + 1) / 8 == BYTES[v]
  {}

  lemma SecondVersionsFit(v: nat)
    requires 10 <= v < 20
    ensures |BYTES| == 40 && DataModules(v + 1) / 8 == BYTES[v]
  {}

  lemma ThirdVersionsFit(v: nat)
    requires 20 <= v < 30
    ensures |BYTES| == 40 && DataModules(v + 1) / 8 == BYTES[v]
  {}

  lemma LastVersionsFit(v: nat)
    requires 30 <= v < 40
    ensures |BYTES| == 40 && DataModules(v + 1) / 8 == BYTES[v]
  {}

  lemma {:induction false} FreeSize(tpl: map<Cell, Module>, cells: seq<Cell>, s: set<Cell>)
    requires forall c :: Count(cells, c) <= 1
    requires forall c :: c in s <==> c in cells && c in tpl && tpl[c] == None
    ensures |Free(tpl, cells)| == |s|
  {
    if cells == [] {
      assert s == {};
    } else {
      var rest, last := cells[..|cells| - 1], cells[|cells| - 1];
      assert cells == rest + [last];
      forall c ensures Count(rest, c) <= 1 && (c == last ==> Count(rest, c) == 0) {
        CountAppend(rest, last, c);
      }
      CountPositive(rest, last);
      FreeSize(tpl, rest, s - {last});
      if last in s { assert s == (s - {last}) + {last}; } else { assert s == s - {last}; }
    }
  }

  /** The template of every version leaves room for its codewords, and less than a byte more. */
  lemma TemplateHasRoom(l: Layout, tpl: map<Cell, Module>)
    requires ValidLayout(l) && tpl.Keys == Grid(Size(l.ver), Size(l.ver))
    requires forall c :: c in tpl ==> tpl[c] == TemplateAt(l, c.x, c.y)
    ensures ValidSize(Size(l.ver))
    ensures |Free(tpl, Path(Size(l.ver), Strips(Size(l.ver))))| / 8 == QrInfo.Bytes(l.ver)
  {
    hide TemplateAt, Region, Path, Free, DataModules, BYTES, QrInfo.Bytes;
    var size := Size(l.ver);
    var path := Path(size, Strips(size));
    forall c ensures Count(path, c) <= 1 && (c in path <==> InGrid(size, c) && c.x != 6) {
      VisitsOnce(size, c);
      CountPositive(path, c);
    }
    forall c | c in tpl ensures c in Cells(l.ver, 0) <==> c in path && tpl[c] == None {
      DrawnIs(l, c.x, c.y);
      if c.x == 6 { ColumnSixDrawn(l.ver, c); }
    }
    FreeSize(tpl, path, Cells(l.ver, 0));
    DataModulesLeft(l.ver);
    AllVersionsFit(l.ver);
  }

  lemma ColumnSixDrawn(ver: nat, c: Cell)
    requires 1 <= ver <= 40 && c.x == 6
    ensures Region(ver, c) != 0
  {}

  lemma AllVersionsFit(ver: nat)
    requires 1 <= ver <= 40
    ensures DataModules(ver) / 8 == QrInfo.Bytes(ver)
  {
    hide DataModules;
    if ver <= 10 { FirstVersionsFit(ver - 1); }
    else if ver <= 20 { SecondVersionsFit(ver - 1); }
    else if ver <= 30 { ThirdVersionsFit(ver - 1); }
    else { LastVersionsFit(ver - 1); }
  }
}
