/**
 * The function patterns of a symbol, drawn step by step into a bitmap (drawTemplate in qr.js; section 6.3 of
 * ISO/IEC 18004:2015).
 */
module Template {
  import opened Results
  import opened Zigzag
  import opened Alignment

  // ---- What is where ----

  function Abs(z: int): nat {
    if z < 0 then -z else z
  }

  /** The square ring around a centre that a place lies on. */
  function Ring(dx: int, dy: int): nat {
    if Abs(dx) < Abs(dy) then Abs(dy) else Abs(dx)
  }

  /** A finder pattern and the light separator around it. */
  function Finder(dx: int, dy: int): Module {
    if Ring(dx, dy) <= 4 then Some(Ring(dx, dy) != 2 && Ring(dx, dy) != 4) else None
  }

  function FindersAt(size: nat, x: int, y: int): Module {
    if Finder(x - 3, y - 3).Some? then Finder(x - 3, y - 3)
    else if Finder(x - (size - 4), y - 3).Some? then Finder(x - (size - 4), y - 3)
    else Finder(x - 3, y - (size - 4))
  }

  /** The pairs of centres that a finder pattern takes. */
  predicate Corner(ver: nat, i: nat, j: nat)
    requires 2 <= ver <= 40
  {
    (i == 0 && j == 0) || (i == 0 && j == Gaps(ver)) || (i == Gaps(ver) && j == 0)
  }

  /** The alignment pattern of centres i and j. */
  function Aligned(ver: nat, i: nat, j: nat, x: int, y: int): Module
    requires 2 <= ver <= 40
  {
    Some(Ring(x - Centre(ver, i), y - Centre(ver, j)) != 1)
  }

  /** Finders, and the alignment patterns of the first rows of centres and of the first columns of the next row. */
  function PatternsAt(ver: nat, rows: nat, columns: nat, x: int, y: int): Module
    requires 1 <= ver <= 40
  {
    if FindersAt(Size(ver), x, y).Some? then FindersAt(Size(ver), x, y)
    else if ver == 1 then None
    else
      var i, j := Near(ver, x, Gaps(ver) + 1), Near(ver, y, Gaps(ver) + 1);
      if i.Some? && j.Some? && !Corner(ver, i.value, j.value) &&
          (j.value < rows || (j.value == rows && i.value < columns))
      then Aligned(ver, i.value, j.value, x, y) else None
  }

  /** The timing patterns run between all that. */
  function TimedAt(ver: nat, x: int, y: int): Module
    requires 1 <= ver <= 40
  {
    var m := PatternsAt(ver, Number(ver), 0, x, y);
    if m.Some? then m else if y == 6 then Some(x % 2 == 0) else if x == 6 then Some(y % 2 == 0) else None
  }

  /** The bits that a symbol carries beside its data; a test symbol has them all light. */
  datatype Layout = Layout(ver: nat, test: bool, format: seq<bool>, version: seq<bool>)

  predicate ValidLayout(l: Layout) {
    1 <= l.ver <= 40 && |l.format| == 15 && |l.version| == 18
  }

  /** The format bit at a place, each of which stands twice. */
  function FormatIndex(size: nat, x: int, y: int): (r: Option<nat>)
    ensures r.Some? && 0 <= x < size && 0 <= y < size && size >= 21 ==> r.value < 15
  {
    if x == 8 && 0 <= y < 6 then Some(y)
    else if x == 8 && 7 <= y <= 8 then Some(y - 1)
    else if x == 8 && size - 7 <= y then Some(Abs(y - size + 15))
    else if y == 8 && size - 8 <= x < size then Some(size - 1 - x)
    else if y == 8 && x == 7 then Some(8)
    else if y == 8 && 0 <= x < 6 then Some(14 - x)
    else None
  }

  /** The version bit at a place, each of which stands twice. */
  function VersionIndex(size: nat, x: int, y: int): (r: Option<nat>)
    ensures r.Some? ==> r.value < 18
  {
    if 0 <= y < 6 && size - 11 <= x < size - 8 then Some(3 * y + (x - (size - 11)))
    else if 0 <= x < 6 && size - 11 <= y < size - 8 then Some(3 * x + (y - (size - 11)))
    else None
  }

  function FormattedAt(l: Layout, x: int, y: int): Module
    requires ValidLayout(l) && 0 <= x < Size(l.ver) && 0 <= y < Size(l.ver)
  {
    var i := FormatIndex(Size(l.ver), x, y);
    if i.Some? then Some(!l.test && l.format[i.value])
    else if x == 8 && y == Size(l.ver) - 8 then Some(!l.test)
    else TimedAt(l.ver, x, y)
  }

  /** The template of a symbol. */
  function TemplateAt(l: Layout, x: int, y: int): Module
    requires ValidLayout(l) && 0 <= x < Size(l.ver) && 0 <= y < Size(l.ver)
  {
    var i := VersionIndex(Size(l.ver), x, y);
    if l.ver >= 7 && i.Some? then Some(!l.test && l.version[i.value]) else FormattedAt(l, x, y)
  }

  // ---- Bitmaps ----

  /** A bitmap of n by n equal modules. */
  method Square(n: nat, value: Module) returns (b: array2<Module>)
    ensures fresh(b) && b.Length0 == b.Length1 == n
    ensures forall y, x :: 0 <= y < n && 0 <= x < n ==> b[y, x] == value
  {
    b := new Module[n, n]((y, x) => value);
  }

  /** The bitmap with one more ring around it. */
  method Border(bm: array2<Module>, value: bool) returns (b: array2<Module>)
    requires bm.Length0 == bm.Length1
    ensures fresh(b) && b.Length0 == b.Length1 == bm.Length0 + 2
    ensures forall y, x :: 0 <= y < b.Length0 && 0 <= x < b.Length0 ==>
      b[y, x] == if 1 <= y <= bm.Length0 && 1 <= x <= bm.Length0 then bm[y - 1, x - 1] else Some(value)
  {
    b := Square(bm.Length0 + 2, Some(value));
    Embed(b, 1, 1, bm);
  }

  /** Copies bm into b with its corner at (cx, cy), counted from the far edges when negative, and cut at them. */
  method Embed(b: array2<Module>, cx: int, cy: int, bm: array2<Module>)
    requires b != bm && b.Length0 > 0 && b.Length1 > 0
    modifies b
    ensures var x0, y0 := cx % b.Length1, cy % b.Length0;
      forall y, x :: 0 <= y < b.Length0 && 0 <= x < b.Length1 ==>
        b[y, x] == if 0 <= y - y0 < bm.Length0 && 0 <= x - x0 < bm.Length1 then bm[y - y0, x - x0] else old(b[y, x])
  {
    var x0, y0 := cx % b.Length1, cy % b.Length0;
    var height := if bm.Length0 < b.Length0 - y0 then bm.Length0 else b.Length0 - y0;
    var width := if bm.Length1 < b.Length1 - x0 then bm.Length1 else b.Length1 - x0;
    for yPos := 0 to height
      invariant forall y, x :: 0 <= y < b.Length0 && 0 <= x < b.Length1 ==>
        b[y, x] == if 0 <= y - y0 < yPos && 0 <= x - x0 < width then bm[y - y0, x - x0] else old(b[y, x])
    {
      for xPos := 0 to width
        invariant forall y, x :: 0 <= y < b.Length0 && 0 <= x < b.Length1 ==>
          b[y, x] == if (0 <= y - y0 < yPos && 0 <= x - x0 < width) || (y - y0 == yPos && 0 <= x - x0 < xPos)
                     then bm[y - y0, x - x0] else old(b[y, x])
      {
        b[y0 + yPos, x0 + xPos] := bm[yPos, xPos];
      }
    }
  }

  /** The part of a square bitmap inside its outermost ring. */
  method Inside(b: array2<Module>) returns (r: array2<Module>)
    requires b.Length0 == b.Length1 >= 2
    ensures fresh(r) && r.Length0 == r.Length1 == b.Length0 - 2
    ensures forall y, x :: 0 <= y < r.Length0 && 0 <= x < r.Length0 ==> r[y, x] == b[y + 1, x + 1]
  {
    var size := b.Length0 - 2;
    r := Square(size, None);
    for y := 0 to size
      invariant forall v, u :: 0 <= v < y && 0 <= u < size ==> r[v, u] == b[v + 1, u + 1]
    {
      for x := 0 to size
        invariant forall v, u :: 0 <= v < y && 0 <= u < size ==> r[v, u] == b[v + 1, u + 1]
        invariant forall u :: 0 <= u < x ==> r[y, u] == b[y + 1, u + 1]
      {
        r[y, x] := b[y + 1, x + 1];
      }
    }
  }

  // ---- Finders ----

  method FinderPattern() returns (f: array2<Module>)
    ensures fresh(f) && f.Length0 == f.Length1 == 9
    ensures forall y, x :: 0 <= y < 9 && 0 <= x < 9 ==> f[y, x] == Finder(x - 4, y - 4)
  {
    f := Square(3, Some(true));
    f := Border(f, false);
    f := Border(f, true);
    f := Border(f, false);
  }

  method DrawFinders(size: nat) returns (b: array2<Module>)
    requires size >= 21
    ensures fresh(b) && b.Length0 == b.Length1 == size
    ensures forall y, x :: 0 <= y < size && 0 <= x < size ==> b[y, x] == FindersAt(size, x, y)
  {
    var big := Square(size + 2, None);
    var finder := FinderPattern();
    Embed(big, 0, 0, finder);
    FromFarEdge(size + 2, finder.Length1);
    Embed(big, -finder.Length1, 0, finder);
    Embed(big, 0, -finder.Length0, finder);
    b := Inside(big);
    forall y, x | 0 <= y < size && 0 <= x < size ensures b[y, x] == FindersAt(size, x, y) {
      assert b[y, x] == big[y + 1, x + 1];
    }
  }

  lemma FromFarEdge(size: nat, n: nat)
    requires 0 < n < size
    ensures (0 - n) % size == size - n && 0 % size == 0
  {}

  // ---- Alignment patterns ----

  method AlignmentPattern() returns (a: array2<Module>)
    ensures fresh(a) && a.Length0 == a.Length1 == 5
    ensures forall y, x :: 0 <= y < 5 && 0 <= x < 5 ==> a[y, x] == Some(Ring(x - 2, y - 2) != 1)
  {
    a := Square(1, Some(true));
    a := Border(a, false);
    a := Border(a, true);
  }

  /** Between the first and the last, centres keep away from the finder patterns. */
  lemma CentreBounds(ver: nat, m: nat)
    requires 2 <= ver <= 40 && m <= Gaps(ver)
    ensures m > 0 ==> Centre(ver, m) >= 18
    ensures m < Gaps(ver) ==> Centre(ver, m) <= Size(ver) - 19
    ensures 6 <= Centre(ver, m) <= Size(ver) - 7
  {
    hide Centre, Gaps;
    Spread(ver);
    LastCentre(ver);
    FirstCentre(ver);
    if m > 1 { CentresApart(ver, 1, m); }
    if m < Gaps(ver) { CentresApart(ver, m, Gaps(ver)); }
    if m > 0 { CentresApart(ver, 0, m); }
  }

  lemma FirstCentre(ver: nat)
    requires 2 <= ver <= 40
    ensures Centre(ver, 0) == 6
  {}

  /** No finder pattern reaches into the square of an alignment pattern. */
  lemma SquareIsClear(ver: nat, i: nat, j: nat, x: int, y: int)
    requires 2 <= ver <= 40 && i <= Gaps(ver) && j <= Gaps(ver) && !Corner(ver, i, j) && IsNear(ver, x, i) &&
      IsNear(ver, y, j)
    ensures FindersAt(Size(ver), x, y) == None
  {
    hide Centre, Gaps;
    CentreBounds(ver, i);
    CentreBounds(ver, j);
    FirstCentre(ver);
  }

  lemma CornerIsDrawn(ver: nat, i: nat, j: nat)
    requires 2 <= ver <= 40 && i <= Gaps(ver) && j <= Gaps(ver) && Corner(ver, i, j)
    ensures FindersAt(Size(ver), Centre(ver, i), Centre(ver, j)).Some?
  {
    hide Gaps, Interval;
    FirstCentre(ver);
    LastCentre(ver);
  }

  /** What one more pair of centres changes. */
  lemma PairStep(ver: nat, rows: nat, columns: nat, x: int, y: int)
    requires 2 <= ver <= 40 && rows <= Gaps(ver) && columns <= Gaps(ver)
    ensures PatternsAt(ver, rows, columns + 1, x, y)
         == if !Corner(ver, columns, rows) && IsNear(ver, x, columns) && IsNear(ver, y, rows)
            then Aligned(ver, columns, rows, x, y) else PatternsAt(ver, rows, columns, x, y)
  {
    hide Gaps, Centre, IsNear, FindersAt, Aligned, Corner;
    if IsNear(ver, x, columns) && IsNear(ver, y, rows) {
      NearOnly(ver, x, columns);
      NearOnly(ver, y, rows);
      if !Corner(ver, columns, rows) { SquareIsClear(ver, columns, rows, x, y); }
    }
  }

  /** A pair of centres is skipped exactly when a finder pattern is there. */
  lemma CentreIsFree(ver: nat, rows: nat, columns: nat)
    requires 2 <= ver <= 40 && rows <= Gaps(ver) && columns <= Gaps(ver)
    ensures PatternsAt(ver, rows, columns, Centre(ver, columns), Centre(ver, rows)).Some? <==>
      Corner(ver, columns, rows)
  {
    var x, y := Centre(ver, columns), Centre(ver, rows);
    assert IsNear(ver, x, columns) && IsNear(ver, y, rows);
    NearOnly(ver, x, columns);
    NearOnly(ver, y, rows);
    hide Gaps, Centre, IsNear, FindersAt, Aligned, Corner;
    if Corner(ver, columns,
              rows) { CornerIsDrawn(ver, columns, rows); } else { SquareIsClear(ver, columns, rows, x, y); }
  }

  lemma RowDone(ver: nat, rows: nat, x: int, y: int)
    requires 2 <= ver <= 40 && rows <= Gaps(ver)
    ensures PatternsAt(ver, rows, Gaps(ver) + 1, x, y) == PatternsAt(ver, rows + 1, 0, x, y)
  {
    hide Gaps, FindersAt, Aligned, Corner;
  }

  ghost predicate ShowsPatterns(b: array2<Module>, ver: nat, rows: nat, columns: nat)
    requires 1 <= ver <= 40
    reads b
  {
    && b.Length0 == b.Length1 == Size(ver)
    && forall y, x :: 0 <= y < Size(ver) && 0 <= x < Size(ver) ==> b[y, x] == PatternsAt(ver, rows, columns, x, y)
  }

  method DrawAlignment(b: array2<Module>, ver: nat)
    requires 1 <= ver <= 40 && b.Length0 == b.Length1 == Size(ver)
    requires forall y, x :: 0 <= y < Size(ver) && 0 <= x < Size(ver) ==> b[y, x] == FindersAt(Size(ver), x, y)
    modifies b
    ensures ShowsPatterns(b, ver, Number(ver), 0)
  {
    hide PatternsAt, FindersAt, Centre, Gaps;
    var align := AlignmentPattern();
    var alignPos := AlignmentPatterns(ver);
    StartPatterns(b, ver);
    for j := 0 to |alignPos|
      modifies b
      invariant ShowsPatterns(b, ver, j, 0)
    {
      for i := 0 to |alignPos|
        modifies b
        invariant ShowsPatterns(b, ver, j, i)
      {
        DrawPair(b, align, ver, j, i, alignPos[i], alignPos[j]);
      }
      EndRow(b, ver, j);
    }
  }

  lemma StartPatterns(b: array2<Module>, ver: nat)
    requires 1 <= ver <= 40 && b.Length0 == b.Length1 == Size(ver)
    requires forall y, x :: 0 <= y < Size(ver) && 0 <= x < Size(ver) ==> b[y, x] == FindersAt(Size(ver), x, y)
    ensures ShowsPatterns(b, ver, 0, 0)
  {
    hide FindersAt;
  }

  lemma EndRow(b: array2<Module>, ver: nat, j: nat)
    requires 2 <= ver <= 40 && j <= Gaps(ver) && ShowsPatterns(b, ver, j, Gaps(ver) + 1)
    ensures ShowsPatterns(b, ver, j + 1, 0)
  {
    hide PatternsAt, Gaps;
    forall y, x | 0 <= y < Size(ver) && 0 <= x < Size(ver) ensures b[y, x] == PatternsAt(ver, j + 1, 0, x, y) {
      RowDone(ver, j, x, y);
    }
  }

  method DrawPair(b: array2<Module>, align: array2<Module>, ver: nat, j: nat, i: nat, x0: int, y0: int)
    requires 2 <= ver <= 40 && j <= Gaps(ver) && i <= Gaps(ver) && b != align && ShowsPatterns(b, ver, j, i)
    requires x0 == Centre(ver, i) && y0 == Centre(ver, j) && align.Length0 == align.Length1 == 5
    requires forall y, x :: 0 <= y < 5 && 0 <= x < 5 ==> align[y, x] == Some(Ring(x - 2, y - 2) != 1)
    modifies b
    ensures ShowsPatterns(b, ver, j, i + 1)
  {
    hide PatternsAt, Centre, Gaps, Corner, Ring;
    CentreBounds(ver, i);
    CentreBounds(ver, j);
    CentreIsFree(ver, j, i);
    ghost var skipped := b[y0, x0] != None;
    if b[y0, x0] == None {
      Small(x0 - 2, b.Length1);
      Small(y0 - 2, b.Length0);
      Embed(b, x0 - 2, y0 - 2, align);
    }
    forall y, x | 0 <= y < Size(ver) && 0 <= x < Size(ver) ensures b[y, x] == PatternsAt(ver, j, i + 1, x, y) {
      PairStep(ver, j, i, x, y);
      if !skipped && IsNear(ver, x, i) && IsNear(ver, y, j) { AlignedShift(ver, i, j, x, y); }
    }
  }

  lemma Small(a: int, n: nat)
    requires 0 <= a < n
    ensures a % n == a
  {}

  lemma AlignedShift(ver: nat, i: nat, j: nat, x: int, y: int)
    requires 2 <= ver <= 40
    ensures Aligned(ver, i, j, x, y) == Some(Ring(x - (Centre(ver, i) - 2) - 2, y - (Centre(ver, j) - 2) - 2) != 1)
  {
    hide Centre;
  }

  // ---- Timing patterns ----

  method DrawTiming(b: array2<Module>, ver: nat)
    requires 1 <= ver <= 40 && ShowsPatterns(b, ver, Number(ver), 0)
    modifies b
    ensures b.Length0 == b.Length1 == Size(ver)
    ensures forall y, x :: 0 <= y < Size(ver) && 0 <= x < Size(ver) ==> b[y, x] == TimedAt(ver, x, y)
  {
    hide PatternsAt;
    var size := b.Length0;
    for x := 0 to size
      invariant forall v, u :: 0 <= v < size && 0 <= u < size ==>
        b[v, u] == if v == 6 && u < x && old(b[v, u]) == None then Some(u % 2 == 0) else old(b[v, u])
    {
      b[6, x] := if b[6, x] == None then Some(x % 2 == 0) else b[6, x];
    }
    for y := 0 to size
      invariant forall v, u :: 0 <= v < size && 0 <= u < size ==>
        b[v, u] == if old(b[v, u]) != None then old(b[v, u])
                   else if v == 6 then Some(u % 2 == 0) else if u == 6 && v < y then Some(v % 2 == 0) else None
    {
      b[y, 6] := if b[y, 6] == None then Some(y % 2 == 0) else b[y, 6];
    }
  }

  // ---- Format and version bits ----

  /** The bits down column 8. */
  method DrawFormatColumn(b: array2<Module>, l: Layout)
    requires ValidLayout(l) && b.Length0 == b.Length1 == Size(l.ver)
    modifies b
    ensures forall y, x :: 0 <= y < Size(l.ver) && 0 <= x < Size(l.ver) ==>
      b[y, x] == if x == 8 && FormatIndex(Size(l.ver), x, y).Some?
                 then Some(!l.test && l.format[FormatIndex(Size(l.ver), x, y).value]) else old(b[y, x])
  {
    var size := b.Length0;
    for i := 0 to 6
      invariant forall y, x :: 0 <= y < size && 0 <= x < size ==>
        b[y, x] == if x == 8 && y < i then Some(!l.test && l.format[y]) else old(b[y, x])
    {
      b[i, 8] := Some(!l.test && l.format[i]);
    }
    for i := 6 to 8
      invariant forall y, x :: 0 <= y < size && 0 <= x < size ==>
        b[y, x] == if x == 8 && y < 6 then Some(!l.test && l.format[y])
                   else if x == 8 && 7 <= y <= i then Some(!l.test && l.format[y - 1]) else old(b[y, x])
    {
      b[i + 1, 8] := Some(!l.test && l.format[i]);
    }
    for i := 8 to 15
      invariant forall y, x :: 0 <= y < size && 0 <= x < size ==>
        b[y, x] == if x == 8 && y < 6 then Some(!l.test && l.format[y])
                   else if x == 8 && 7 <= y <= 8 then Some(!l.test && l.format[y - 1])
                   else if x == 8 && size - 7 <= y < size - 15 + i then Some(!l.test && l.format[y - size + 15])
                       else old(b[y, x])
    {
      b[size - 15 + i, 8] := Some(!l.test && l.format[i]);
    }
  }

  /** The bits along row 8, and the dark module. */
  method DrawFormatRow(b: array2<Module>, l: Layout)
    requires ValidLayout(l) && b.Length0 == b.Length1 == Size(l.ver)
    modifies b
    ensures forall y, x :: 0 <= y < Size(l.ver) && 0 <= x < Size(l.ver) ==>
      b[y, x] == if x == 8 && y == Size(l.ver) - 8 then Some(!l.test)
                 else if x != 8 && FormatIndex(Size(l.ver), x, y).Some?
                 then Some(!l.test && l.format[FormatIndex(Size(l.ver), x, y).value]) else old(b[y, x])
  {
    var size := b.Length0;
    for i := 0 to 8
      invariant forall y, x :: 0 <= y < size && 0 <= x < size ==>
        b[y, x] == if y == 8 && size - i <= x then Some(!l.test && l.format[size - 1 - x]) else old(b[y, x])
    {
      b[8, size - i - 1] := Some(!l.test && l.format[i]);
    }
    b[8, 7] := Some(!l.test && l.format[8]);
    for i := 9 to 15
      invariant forall y, x :: 0 <= y < size && 0 <= x < size ==>
        b[y, x] == if y == 8 && size - 8 <= x then Some(!l.test && l.format[size - 1 - x])
                   else if y == 8 && x == 7 then Some(!l.test && l.format[8])
                   else if y == 8 && 15 - i <= x < 6 then Some(!l.test && l.format[14 - x]) else old(b[y, x])
    {
      b[8, 15 - i - 1] := Some(!l.test && l.format[i]);
    }
    b[size - 8, 8] := Some(!l.test);
  }

  method DrawVersion(b: array2<Module>, l: Layout)
    requires ValidLayout(l) && b.Length0 == b.Length1 == Size(l.ver)
    modifies b
    ensures forall y, x :: 0 <= y < Size(l.ver) && 0 <= x < Size(l.ver) ==>
      b[y, x] == if VersionIndex(Size(l.ver), x, y).Some?
                 then Some(!l.test && l.version[VersionIndex(Size(l.ver), x, y).value]) else old(b[y, x])
  {
    var size := b.Length0;
    for i := 0 to 18
      invariant forall y, x :: 0 <= y < size && 0 <= x < size ==>
        var k := VersionIndex(size, x, y);
        b[y, x] == if k.Some? && k.value < i then Some(!l.test && l.version[k.value]) else old(b[y, x])
    {
      var bit := !l.test && l.version[i];
      var x, y := i / 3, i % 3 + size - 8 - 3;
      VersionPlaces(size, i);
      b[x, y] := Some(bit);
      b[y, x] := Some(bit);
    }
  }

  lemma VersionPlaces(size: nat, i: nat)
    requires i < 18 && size >= 21
    ensures forall x, y :: 0 <= x < size && 0 <= y < size ==>
      (VersionIndex(size, x, y) == Some(i) <==>
        (y == i / 3 && x == i % 3 + size - 11) || (x == i / 3 && y == i % 3 + size - 11))
  {}

  method DrawTemplate(l: Layout) returns (b: array2<Module>)
    requires ValidLayout(l)
    ensures fresh(b) && b.Length0 == b.Length1 == Size(l.ver)
    ensures forall y, x :: 0 <= y < Size(l.ver) && 0 <= x < Size(l.ver) ==> b[y, x] == TemplateAt(l, x, y)
  {
    hide FindersAt, TimedAt, VersionIndex;
    b := DrawFinders(Size(l.ver));
    DrawAlignment(b, l.ver);
    DrawTiming(b, l.ver);
    DrawFormatColumn(b, l);
    DrawFormatRow(b, l);
    if l.ver >= 7 {
      DrawVersion(b, l);
    }
  }
}
