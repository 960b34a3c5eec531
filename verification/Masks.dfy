/** The eight data masks of a symbol (PATTERNS in qr.js; section 7.8.2 of ISO/IEC 18004:2015). */
module Masks {
  /** The eight data masks. */
  function Mask(maskIdx: nat, x: nat, y: nat): bool
    requires maskIdx < 8
  {
    match maskIdx
    case 0 => (x + y) % 2 == 0
    case 1 => y % 2 == 0
    case 2 => x % 3 == 0
    case 3 => (x + y) % 3 == 0
    case 4 => (y / 2 + x / 3) % 2 == 0
    case 5 => x * y % 2 + x * y % 3 == 0
    case 6 => (x * y % 2 + x * y % 3) % 2 == 0
    case _ => ((x + y) % 2 + x * y % 3) % 2 == 0
  }

  /** A chessboard, rows and columns. */
  lemma PlainMasks(x: nat, y: nat)
    ensures Mask(0, 0, 0) && Mask(0, x + 1, y) != Mask(0, x, y) && Mask(0, x, y + 1) != Mask(0, x, y)
    ensures Mask(1, 0, 0) && Mask(1, x + 1, y) == Mask(1, x, y) && Mask(1, x, y + 1) != Mask(1, x, y)
    ensures Mask(2, 0, 0) && !Mask(2, 1, 0) && !Mask(2, 2, 0)
    ensures Mask(2, x + 3, y) == Mask(2, x, y) && Mask(2, x, y + 1) == Mask(2, x, y)
  {}

  /** Diagonals, and a chessboard of blocks three wide and two high. */
  lemma DiagonalAndBlockMasks(x: nat, y: nat)
    ensures Mask(3, 0, 0) && !Mask(3, 1, 0) && !Mask(3, 2, 0)
    ensures Mask(3, x + 3, y) == Mask(3, x, y) && Mask(3, x, y + 1) == Mask(3, x + 1, y)
    ensures x < 3 && y < 2 ==> Mask(4, x, y)
    ensures Mask(4, x + 3, y) != Mask(4, x, y) && Mask(4, x, y + 2) != Mask(4, x, y)
  {}

  // The other masks as pictures, six modules wide and high, which repeat over the symbol.
  const MASK_5: seq<string> := ["XXXXXX", "X.....", "X..X..", "X.X.X.", "X..X..", "X....."]
  const MASK_6: seq<string> := ["XXXXXX", "XXX...", "XX.XX.", "X.X.X.", "X.XX.X", "X...XX"]
  const MASK_7: seq<string> := ["X.X.X.", "...XXX", "X...XX", ".X.X.X", "XXX...", ".XXX.."]

  predicate IsPicture(rows: seq<string>) {
    |rows| == 6 && forall v :: 0 <= v < 6 ==> |rows[v]| == 6
  }

  lemma UpperRows5(x: nat, y: nat)
    requires x < 6 && 0 <= y < 3
    ensures IsPicture(MASK_5) && (Mask(5, x, y) <==> MASK_5[y][x] == 'X')
  {}

  lemma LowerRows5(x: nat, y: nat)
    requires x < 6 && 3 <= y < 6
    ensures IsPicture(MASK_5) && (Mask(5, x, y) <==> MASK_5[y][x] == 'X')
  {}

  lemma UpperRows6(x: nat, y: nat)
    requires x < 6 && 0 <= y < 3
    ensures IsPicture(MASK_6) && (Mask(6, x, y) <==> MASK_6[y][x] == 'X')
  {}

  lemma LowerRows6(x: nat, y: nat)
    requires x < 6 && 3 <= y < 6
    ensures IsPicture(MASK_6) && (Mask(6, x, y) <==> MASK_6[y][x] == 'X')
  {}

  lemma UpperRows7(x: nat, y: nat)
    requires x < 6 && y < 3
    ensures IsPicture(MASK_7) && (Mask(7, x, y) <==> MASK_7[y][x] == 'X')
  {
    hide Mask, IsPicture;
    if y == 0 { FirstRow7(x); } else { NextRows7(x, y); }
  }

  lemma FirstRow7(x: nat)
    requires x < 6
    ensures IsPicture(MASK_7) && (Mask(7, x, 0) <==> MASK_7[0][x] == 'X')
  {}

  lemma NextRows7(x: nat, y: nat)
    requires x < 6 && 1 <= y < 3
    ensures IsPicture(MASK_7) && (Mask(7, x, y) <==> MASK_7[y][x] == 'X')
  {}

  lemma LowerRows7(x: nat, y: nat)
    requires x < 6 && 3 <= y < 6
    ensures IsPicture(MASK_7) && (Mask(7, x, y) <==> MASK_7[y][x] == 'X')
  {}

  lemma SixMore(x: nat, y: nat)
    ensures (x + 6) * y % 2 == x * y % 2 && (x + 6) * y % 3 == x * y % 3 && x * y == y * x
  {
    assert (x + 6) * y == x * y + 6 * y;
  }

  /** The others are symmetric and repeat every six columns, and so every six rows. */
  lemma OtherMasksRepeat(m: nat, x: nat, y: nat)
    requires 5 <= m < 8
    ensures Mask(m, x, y) == Mask(m, y, x) && Mask(m, x + 6, y) == Mask(m, x, y)
  {
    SixMore(x, y);
  }

  /** And there they show their pictures. */
  lemma OtherMasksArePictures(x: nat, y: nat)
    requires x < 6 && y < 6
    ensures IsPicture(MASK_5) && IsPicture(MASK_6) && IsPicture(MASK_7)
    ensures Mask(5, x, y) <==> MASK_5[y][x] == 'X'
    ensures Mask(6, x, y) <==> MASK_6[y][x] == 'X'
    ensures Mask(7, x, y) <==> MASK_7[y][x] == 'X'
  {
    hide Mask, IsPicture;
    if y < 3 {
      UpperRows5(x, y);
      UpperRows6(x, y);
      UpperRows7(x, y);
    } else {
      LowerRows5(x, y);
      LowerRows6(x, y);
      LowerRows7(x, y);
    }
  }
}
