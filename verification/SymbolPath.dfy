/** Where each bit of the data stands in a symbol (section 7.7.3 of ISO/IEC 18004:2015). */
module SymbolPath {
  import opened Gf256
  import opened Results
  import opened Masks
  import opened Zigzag

  // ---- The order of the modules ----

  lemma {:induction false} StripLength(size: nat, k: nat, r: nat)
    requires ValidSize(size) && k < Strips(size) && r <= size
    ensures |Strip(size, k, r)| == 2 * r
  {
    if r > 0 {
      StripLength(size, k, r - 1);
    }
  }

  /** A row of a strip, the right module before the left one. */
  lemma {:induction false} StripAt(size: nat, k: nat, n: nat, r: nat)
    requires ValidSize(size) && k < Strips(size) && r < n <= size && |Strip(size, k, n)| == 2 * n
    ensures 0 < StripX(size, k) && 0 <= StripY(size, k, r)
    ensures Strip(size, k, n)[2 * r] == Cell(StripX(size, k), StripY(size, k, r))
    ensures Strip(size, k, n)[2 * r + 1] == Cell(StripX(size, k) - 1, StripY(size, k, r))
  {
    StripLength(size, k, n - 1);
    if r < n - 1 {
      StripAt(size, k, n - 1, r);
    }
  }

  lemma {:induction false} PathLength(size: nat, k: nat)
    requires ValidSize(size) && k <= Strips(size)
    ensures |Path(size, k)| == k * (2 * size)
  {
    hide Strip;
    if k > 0 {
      PathLength(size, k - 1);
      StripLength(size, k - 1, size);
      OneStripMore(k - 1, 2 * size);
    }
  }

  lemma OneStripMore(k: nat, n: nat)
    ensures (k + 1) * n == k * n + n
  {}

  lemma {:induction false} PathAt(size: nat, n: nat, k: nat, i: nat)
    requires ValidSize(size) && k < n <= Strips(size) && i < 2 * size
    ensures k * (2 * size) + i < |Path(size, n)| && |Strip(size, k, size)| == 2 * size
    ensures Path(size, n)[k * (2 * size) + i] == Strip(size, k, size)[i]
  {
    hide Strip;
    PathLength(size, n - 1);
    PathLength(size, n);
    StripLength(size, n - 1, size);
    OneStripMore(n - 1, 2 * size);
    if k < n - 1 {
      PathAt(size, n - 1, k, i);
    }
  }

  /** The strip of a column: strips are two columns wide and run from the right edge, past column 6. */
  function StripOf(size: nat, x: nat): nat
    requires ValidSize(size) && x < size && x != 6
  {
    (if x > 6 then size - 1 - x else size - 2 - x) / 2
  }

  /** 0 for the right column of a strip, 1 for the left one. */
  function SideOf(size: nat, x: nat): nat
    requires ValidSize(size) && x < size && x != 6
  {
    (if x > 6 then size - 1 - x else size - 2 - x) % 2
  }

  lemma ColumnIs(size: nat, x: nat)
    requires ValidSize(size) && x < size && x != 6
    ensures StripOf(size, x) < Strips(size) && SideOf(size, x) < 2
    ensures StripX(size, StripOf(size, x)) - SideOf(size, x) == x
  {}

  /**
   * The modules are met strip by strip, the strips running upwards and downwards in turn, the first one upwards; in
   * each row the right module comes first.
   */
  lemma VisitedAt(size: nat, x: nat, y: nat)
    requires ValidSize(size) && x < size && y < size && x != 6
    ensures var k := StripOf(size, x);
      var r := if k % 2 == 0 then size - 1 - y else y;
      var i := k * (2 * size) + 2 * r + SideOf(size, x);
      0 <= i < |Path(size, Strips(size))| && Path(size, Strips(size))[i] == Cell(x, y)
  {
    hide Path, Strip, StripX, StripOf, SideOf, Strips;
    ColumnIs(size, x);
    var k := StripOf(size, x);
    var r := if k % 2 == 0 then size - 1 - y else y;
    StripLength(size, k, size);
    StripAt(size, k, size, r);
    PathAt(size, Strips(size), k, 2 * r + SideOf(size, x));
  }

  // ---- The bits ----

  /** Drawing shows bit m of byte q, the most significant one first, inverted where the mask is dark. */
  lemma BitsAreShown(now: map<Cell, Module>, tpl: map<Cell, Module>, path: seq<Cell>, maskIdx: nat, data: seq<Byte>,
                     i: nat)
    requires maskIdx < 8 && DrawnSoFar(now, tpl, path, maskIdx, data) && i < |Free(tpl, path)|
    ensures var c := Free(tpl, path)[i];
      && c in now
      && (i < 8 * |data| ==> now[c] == Some(data[i / 8][i % 8] != Mask(maskIdx, c.x, c.y)))
      && (i >= 8 * |data| ==> now[c] == Some(Mask(maskIdx, c.x, c.y)))
  {
    hide Mask, Free;
  }

  /** Reading takes a module for light unless it is dark, and inverts it where the mask is dark. */
  lemma BitsAreRead(now: map<Cell, Module>, free: seq<Cell>, maskIdx: nat, total: nat, res: seq<Byte>, q: nat, m: nat)
    requires maskIdx < 8 && ReadOut(now, free, maskIdx, total, res) && q < total && m < 8
    ensures 8 * q + m < |free|
    ensures var c := free[8 * q + m];
      c in now && res[q][m] == ((now[c] == Some(true)) != Mask(maskIdx, c.x, c.y))
  {
    hide Mask;
  }
}
