/** The zigzag traversal of a QR symbol, drawing data along it in place and reading it back
    (zigzag, drawQR and the first half of decodeBitmap in qr.js; section 7.7.3 of
    ISO/IEC 18004:2015). */
module Zigzag {
  import opened Gf256
  import opened Results
  import opened Masks

  datatype Cell = Cell(x: nat, y: nat)

  predicate ValidSize(size: nat) {
    size % 2 == 1 && size >= 7
  }

  // ---- The path ----

  /** The right column of strip k: column 6, the vertical timing pattern, is passed over. */
  function StripX(size: nat, k: nat): int {
    var o := size - 1 - 2 * k;
    if o > 6 then o else o - 1
  }

  /** Strips run upwards and downwards in turn. */
  function StripY(size: nat, k: nat, r: nat): int {
    if k % 2 == 0 then size - 1 - r else r
  }

  function Strips(size: nat): nat {
    size / 2
  }

  /** The first r rows of strip k. */
  function Strip(size: nat, k: nat, r: nat): seq<Cell>
    requires ValidSize(size) && k < Strips(size) && r <= size
  {
    if r == 0 then [] else
      var (x, y) := (StripX(size, k), StripY(size, k, r - 1));
      Strip(size, k, r - 1) + [Cell(x, y), Cell(x - 1, y)]
  }

  /** The first k strips. */
  function Path(size: nat, k: nat): seq<Cell>
    requires ValidSize(size) && k <= Strips(size)
  {
    if k == 0 then [] else Path(size, k - 1) + Strip(size, k - 1, size)
  }

  predicate InGrid(size: nat, c: Cell) {
    c.x < size && c.y < size
  }

  /** c lies in the first r rows of strip k. */
  predicate InStrip(size: nat, k: nat, r: nat, c: Cell) {
    && (c.x == StripX(size, k) || c.x == StripX(size, k) - 1)
    && (if k % 2 == 0 then size - r <= c.y < size else c.y < r)
  }

  /** How often c occurs in s. */
  function Count(s: seq<Cell>, c: Cell): nat {
    if s == [] then 0 else Count(s[..|s| - 1], c) + if s[|s| - 1] == c then 1 else 0
  }

  lemma {:induction false} CountConcat(s: seq<Cell>, t: seq<Cell>, c: Cell)
    ensures Count(s + t, c) == Count(s, c) + Count(t, c)
  {
    if t == [] {
      assert s + t == s;
    } else {
      assert (s + t)[..|s + t| - 1] == s + t[..|t| - 1];
      CountConcat(s, t[..|t| - 1], c);
    }
  }

  lemma CountAppend(s: seq<Cell>, d: Cell, c: Cell)
    ensures Count(s + [d], c) == Count(s, c) + if c == d then 1 else 0
  {}

  lemma {:induction false} CountPositive(s: seq<Cell>, c: Cell)
    ensures c in s <==> Count(s, c) > 0
  {
    if s != [] {
      CountPositive(s[..|s| - 1], c);
      assert s == s[..|s| - 1] + [s[|s| - 1]];
    }
  }

  lemma {:induction false} StripOnce(size: nat, k: nat, r: nat, c: Cell)
    requires ValidSize(size) && k < Strips(size) && r <= size
    ensures Count(Strip(size, k, r), c) == if InStrip(size, k, r, c) then 1 else 0
  {
    hide Count;
    if r == 0 {
      CountPositive([], c);
    } else {
      var s := Strip(size, k, r - 1);
      var (x, y) := (StripX(size, k), StripY(size, k, r - 1));
      StripOnce(size, k, r - 1, c);
      assert Strip(size, k, r) == (s + [Cell(x, y)]) + [Cell(x - 1, y)];
      CountAppend(s, Cell(x, y), c);
      CountAppend(s + [Cell(x, y)], Cell(x - 1, y), c);
    }
  }

  /** c lies in one of the first k strips. */
  predicate InStrips(size: nat, k: nat, c: Cell) {
    InGrid(size, c) && (if c.x > 6 then size - 1 - 2 * k < c.x else c.x < 6 && size - 1 - 2 * k <= c.x)
  }

  lemma {:induction false} PathCount(size: nat, k: nat, c: Cell)
    requires ValidSize(size) && k <= Strips(size)
    ensures Count(Path(size, k), c) == if InStrips(size, k, c) then 1 else 0
  {
    hide Count, Strip;
    if k == 0 {
      CountPositive([], c);
    } else {
      PathCount(size, k - 1, c);
      StripOnce(size, k - 1, size, c);
      CountConcat(Path(size, k - 1), Strip(size, k - 1, size), c);
    }
  }

  /** The traversal visits every cell outside column 6 exactly once and column 6 never. */
  lemma VisitsOnce(size: nat, c: Cell)
    requires ValidSize(size)
    ensures Count(Path(size, Strips(size)), c) == if InGrid(size, c) && c.x != 6 then 1 else 0
  {
    PathCount(size, Strips(size), c);
  }

  // ---- Bitmaps ----

  /** A module is dark, light or not yet drawn. */
  type Module = Option<bool>

  ghost function Contents(b: array2<Module>): (m: map<Cell, Module>)
    reads b
    ensures forall c :: c in m <==> c.y < b.Length0 && c.x < b.Length1
    ensures forall c :: c in m ==> m[c] == b[c.y, c.x]
  {
    map c: Cell | c in Grid(b.Length1, b.Length0) :: b[c.y, c.x]
  }

  ghost function Grid(width: nat, height: nat): (s: set<Cell>)
    ensures forall c :: c in s <==> c.x < width && c.y < height
  {
    set x: nat, y: nat | x < width && y < height :: Cell(x, y)
  }

  /** The undrawn modules of a template among the given cells, in order. */
  ghost function Free(tpl: map<Cell, Module>, cells: seq<Cell>): seq<Cell> {
    if cells == [] then [] else
      var (rest, c) := (cells[..|cells| - 1], cells[|cells| - 1]);
      if c in tpl && tpl[c] == None then Free(tpl, rest) + [c] else Free(tpl, rest)
  }

  /** The i-th bit to draw: the data bits, then light padding. */
  function DataBit(data: seq<Byte>, i: nat): bool {
    i < 8 * |data| && data[i / 8][i % 8]
  }

  /** The value drawn at the i-th free cell. */
  function Drawn(data: seq<Byte>, i: nat, maskIdx: nat, c: Cell): Module
    requires maskIdx < 8
  {
    Some(DataBit(data, i) != Mask(maskIdx, c.x, c.y))
  }

  /** The bitmap after the cells in done have been processed. */
  ghost predicate DrawnSoFar(now: map<Cell, Module>, tpl: map<Cell, Module>, done: seq<Cell>, maskIdx: nat,
                             data: seq<Byte>)
    requires maskIdx < 8
  {
    && now.Keys == tpl.Keys
    && (forall c :: c in done ==> c in tpl)
    && (forall c :: c in tpl && (c !in done || tpl[c] != None) ==> now[c] == tpl[c])
    && var free := Free(tpl, done);
       forall i :: 0 <= i < |free| ==> free[i] in now && now[free[i]] == Drawn(data, i, maskIdx, free[i])
  }

  lemma {:induction false} FreeInCells(tpl: map<Cell, Module>, cells: seq<Cell>)
    ensures |Free(tpl, cells)| <= |cells|
    ensures forall i :: 0 <= i < |Free(tpl, cells)| ==> Free(tpl, cells)[i] in cells && Free(tpl, cells)[i] in tpl
  {
    if cells != [] {
      FreeInCells(tpl, cells[..|cells| - 1]);
    }
  }

  lemma FreeAppend(tpl: map<Cell, Module>, cells: seq<Cell>, c: Cell)
    requires c in tpl
    ensures Free(tpl, cells + [c]) == if tpl[c] == None then Free(tpl, cells) + [c] else Free(tpl, cells)
  {}

  /** Processing one more cell, not met before. */
  lemma DrawStep(now: map<Cell, Module>, next: map<Cell, Module>, tpl: map<Cell, Module>, done: seq<Cell>, c: Cell,
                 maskIdx: nat, data: seq<Byte>)
    requires maskIdx < 8 && DrawnSoFar(now, tpl, done, maskIdx, data)
    requires c in tpl && c !in done
    requires next == if tpl[c] == None then now[c := Drawn(data, |Free(tpl, done)|, maskIdx, c)] else now
    ensures DrawnSoFar(next, tpl, done + [c], maskIdx, data)
  {
    hide Drawn, Free;
    FreeInCells(tpl, done);
    FreeAppend(tpl, done, c);
  }

  // ---- The traversal meets fresh cells of the grid ----

  lemma CellFresh(size: nat, k: nat, r: nat)
    requires ValidSize(size) && k < Strips(size) && r < size
    ensures var (x, y) := (StripX(size, k), StripY(size, k, r));
      var done := Path(size, k) + Strip(size, k, r);
      && 0 < x < size && 0 <= y < size
      && Cell(x, y) !in done && Cell(x - 1, y) !in done + [Cell(x, y)]
      && Path(size, k) + Strip(size, k, r + 1) == done + [Cell(x, y)] + [Cell(x - 1, y)]
  {
    hide Count, Path;
    var (x, y) := (StripX(size, k), StripY(size, k, r));
    forall c | c == Cell(x, y) || c == Cell(x - 1, y) ensures c !in Path(size, k) && c !in Strip(size, k, r) {
      PathCount(size, k, c);
      StripOnce(size, k, r, c);
      CountPositive(Path(size, k), c);
      CountPositive(Strip(size, k, r), c);
    }
  }

  // ---- Drawing ----

  ghost function BitsDrawn(tpl: map<Cell, Module>, done: seq<Cell>, data: seq<Byte>): nat
  {
    if |Free(tpl, done)| < 8 * |data| then |Free(tpl, done)| else 8 * |data|
  }

  /** The body of the traversal with the callback of drawQR: skips drawn modules, otherwise
      draws the next bit. */
  method DrawCell(b: array2<Module>, x: nat, y: nat, maskIdx: nat, data: seq<Byte>, i: nat,
                  ghost tpl: map<Cell, Module>, ghost done: seq<Cell>)
    returns (next: nat)
    requires maskIdx < 8 && x < b.Length1 && y < b.Length0
    requires DrawnSoFar(Contents(b), tpl, done, maskIdx, data) && Cell(x, y) !in done
    requires i == BitsDrawn(tpl, done, data)
    modifies b
    ensures DrawnSoFar(Contents(b), tpl, done + [Cell(x, y)], maskIdx, data)
    ensures next == BitsDrawn(tpl, done + [Cell(x, y)], data)
  {
    hide Free, Mask, BitsDrawn;
    ghost var now := Contents(b);
    ghost var c := Cell(x, y);
    next := i;
    FreeAppend(tpl, done, c);
    BitsDrawnIs(tpl, done, data);
    BitsDrawnIs(tpl, done + [c], data);
    if b[y, x] == None {
      var value := false;
      if i < 8 * |data| {
        value := data[i / 8][i % 8];
        next := i + 1;
      }
      b[y, x] := Some(value != Mask(maskIdx, x, y));
      assert b[y, x] == Drawn(data, |Free(tpl, done)|, maskIdx, c);
    }
    assert Contents(b) == if tpl[c] == None then now[c := Drawn(data, |Free(tpl, done)|, maskIdx, c)] else now;
    DrawStep(now, Contents(b), tpl, done, c, maskIdx, data);
  }

  lemma BitsDrawnIs(tpl: map<Cell, Module>, done: seq<Cell>, data: seq<Byte>)
    ensures BitsDrawn(tpl, done, data) == if |Free(tpl, done)| < 8 * |data| then |Free(tpl, done)| else 8 * |data|
  {}

  /** The cells in done are processed and i data bits are used up. */
  ghost predicate Progress(b: array2<Module>, tpl: map<Cell, Module>, done: seq<Cell>, maskIdx: nat, data: seq<Byte>,
                           i: nat)
    requires maskIdx < 8
    reads b
  {
    && tpl.Keys == Grid(b.Length1, b.Length0)
    && DrawnSoFar(Contents(b), tpl, done, maskIdx, data)
    && i == BitsDrawn(tpl, done, data)
  }

  lemma DrawStart(b: array2<Module>, maskIdx: nat, data: seq<Byte>)
    requires maskIdx < 8
    ensures Progress(b, Contents(b), [], maskIdx, data, 0)
  {}

  method DrawNext(b: array2<Module>, x: nat, y: nat, maskIdx: nat, data: seq<Byte>, i: nat,
                  ghost tpl: map<Cell, Module>, ghost done: seq<Cell>)
    returns (next: nat)
    requires maskIdx < 8 && x < b.Length1 && y < b.Length0
    requires Progress(b, tpl, done, maskIdx, data, i) && Cell(x, y) !in done
    modifies b
    ensures Progress(b, tpl, done + [Cell(x, y)], maskIdx, data, next)
  {
    hide DrawnSoFar, BitsDrawn;
    next := DrawCell(b, x, y, maskIdx, data, i, tpl, done);
  }

  /** One strip, two columns wide, from row start to the opposite edge; returns the last row. */
  method DrawStrip(b: array2<Module>, xOffset: nat, start: nat, dir: int, maskIdx: nat, data: seq<Byte>, used: nat,
                   ghost tpl: map<Cell, Module>, ghost k: nat)
    returns (y: nat, i: nat)
    requires maskIdx < 8 && b.Length0 == b.Length1 && ValidSize(b.Length0) && k < Strips(b.Length0)
    requires xOffset == StripX(b.Length0, k) && start == StripY(b.Length0, k, 0)
    requires dir == if k % 2 == 0 then -1 else 1
    requires Progress(b, tpl, Path(b.Length0, k), maskIdx, data, used)
    modifies b
    ensures y == StripY(b.Length0, k, b.Length0 - 1)
    ensures Progress(b, tpl, Path(b.Length0, k + 1), maskIdx, data, i)
  {
    hide Progress, Path, Strip, StripX, StripY;
    var size := b.Length0;
    y, i := start, used;
    ghost var done := Path(size, k);
    ghost var r := 0;
    StripStart(size, k);
    while true
      invariant 0 <= r < size
      invariant y == StripY(size, k, r) && 0 <= y < size
      invariant done == Path(size, k) + Strip(size, k, r)
      invariant Progress(b, tpl, done, maskIdx, data, i)
      decreases size - r
    {
      CellFresh(size, k, r);
      RowStep(size, k, r);
      for j := 0 to 2
        invariant j == 0 ==> done == Path(size, k) + Strip(size, k, r)
        invariant j == 1 ==> done == Path(size, k) + Strip(size, k, r) + [Cell(xOffset, y)]
        invariant j == 2 ==> done == Path(size, k) + Strip(size, k, r + 1)
        invariant Progress(b, tpl, done, maskIdx, data, i)
      {
        var x := xOffset - j;
        i := DrawNext(b, x, y, maskIdx, data, i, tpl, done);
        done := done + [Cell(x, y)];
      }
      if y + dir < 0 || y + dir >= size {
        break;
      }
      r := r + 1;
      y := y + dir;
    }
    PathStep(size, k);
  }

  /** Draws data into the template b, in place, over the cells that are undrawn on entry; false
      when there are too few of them. */
  method DrawQR(b: array2<Module>, maskIdx: nat, data: seq<Byte>) returns (ok: bool)
    requires maskIdx < 8 && b.Length0 == b.Length1 && ValidSize(b.Length0)
    modifies b
    ensures var path := Path(b.Length0, Strips(b.Length0));
      && DrawnSoFar(Contents(b), old(Contents(b)), path, maskIdx, data)
      && (ok <==> 8 * |data| <= |Free(old(Contents(b)), path)|)
  {
    hide DrawnSoFar, Path, Strip, StripX, StripY, Free, BitsDrawn, Contents, Grid;
    var size := b.Length0;
    var i, dir, y, xOffset := 0, -1, size - 1, size - 1;
    ghost var (tpl, k) := (Contents(b), 0);
    DrawStart(b, maskIdx, data);
    PathStart(size);
    StripBounds(size, 0);
    while xOffset > 0
      invariant 0 <= k <= Strips(size)
      invariant k == Strips(size) <==> xOffset <= 0
      invariant k < Strips(size) ==> StripX(size, k) == (if xOffset == 6 then 5 else xOffset) && y == StripY(size, k, 0)
      invariant dir == if k % 2 == 0 then -1 else 1
      invariant Progress(b, tpl, Path(size, k), maskIdx, data, i)
      decreases Strips(size) - k
    {
      if xOffset == 6 {
        xOffset := 5;
      }
      StripStart(size, k);
      y, i := DrawStrip(b, xOffset, y, dir, maskIdx, data, i, tpl, k);
      PathStep(size, k);
      dir := -dir;
      xOffset := xOffset - 2;
      k := k + 1;
    }
    BitsDrawnIs(tpl, Path(size, k), data);
    ok := i == 8 * |data|;
  }

  lemma PathStart(size: nat)
    requires ValidSize(size)
    ensures Path(size, 0) == []
  {}

  lemma PathStep(size: nat, k: nat)
    requires ValidSize(size) && k < Strips(size)
    ensures Path(size, k + 1) == Path(size, k) + Strip(size, k, size)
    ensures k + 1 < Strips(size) ==> StripY(size, k, size - 1) == StripY(size, k + 1, 0)
    ensures k + 1 < Strips(size) ==> StripX(size, k + 1) == if StripX(size, k) == 8 then 5 else StripX(size, k) - 2
    ensures k + 1 == Strips(size) <==> StripX(size, k) == 1
    ensures StripX(size, k) >= 1 && StripX(size, k) != 2 && StripX(size, k) != 6
  {}

  lemma StripStart(size: nat, k: nat)
    requires ValidSize(size) && k < Strips(size)
    ensures Path(size, k) + Strip(size, k, 0) == Path(size, k)
    ensures 0 <= StripY(size, k, 0) < size && StripX(size, k) > 0
  {}

  lemma StripBounds(size: nat, k: nat)
    requires ValidSize(size) && k <= Strips(size)
    ensures k == 0 ==> StripX(size, k) == (if size - 1 == 6 then 5 else size - 1) && StripY(size, k, 0) == size - 1
    ensures k < Strips(size) ==> StripX(size, k) >= 1 && StripX(size, k) != 6
  {}

  lemma RowStep(size: nat, k: nat, r: nat)
    requires ValidSize(size) && k < Strips(size) && r < size
    ensures var (y, dir) := (StripY(size, k, r), if k % 2 == 0 then -1 else 1);
      if y + dir < 0 || y + dir >= size then r == size - 1 else r < size - 1 && StripY(size, k, r + 1) == y + dir
  {}

  // ---- Reading ----

  /** The bit a bitmap shows at a cell once unmasked; an undrawn module reads as light. */
  function ReadBit(m: Module, maskIdx: nat, c: Cell): bool
    requires maskIdx < 8
  {
    (m == Some(true)) != Mask(maskIdx, c.x, c.y)
  }

  ghost function BitsRead(now: map<Cell, Module>, cells: seq<Cell>, maskIdx: nat): (bits: seq<bool>)
    requires maskIdx < 8 && forall c :: c in cells ==> c in now
    ensures |bits| == |cells|
    ensures forall i :: 0 <= i < |cells| ==> bits[i] == ReadBit(now[cells[i]], maskIdx, cells[i])
  {
    seq(|cells|, i requires 0 <= i < |cells| => ReadBit(now[cells[i]], maskIdx, cells[i]))
  }

  /** The variables of the reading callback: the output buffer, how many bytes are complete, and
      the bits of the next one. */
  datatype Reader = Reader(bytes: seq<Byte>, pos: nat, buf: seq<bool>)

  /** The reader has consumed exactly these bits; bytes beyond the buffer are counted but lost. */
  ghost predicate Consumed(st: Reader, bits: seq<bool>, total: nat) {
    && |st.bytes| == total && |st.buf| < 8
    && |bits| == 8 * st.pos + |st.buf|
    && st.buf == bits[8 * st.pos..]
    && forall q :: 0 <= q < st.pos && q < total ==> st.bytes[q] == bits[8 * q..8 * q + 8]
  }

  function Push(st: Reader, bit: bool): Reader {
    var buf := st.buf + [bit];
    if |buf| != 8 then st.(buf := buf)
    else Reader(if st.pos < |st.bytes| then st.bytes[st.pos := buf] else st.bytes, st.pos + 1, [])
  }

  lemma PushConsumes(st: Reader, bits: seq<bool>, total: nat, bit: bool)
    requires Consumed(st, bits, total)
    ensures Consumed(Push(st, bit), bits + [bit], total)
  {
    var (next, more) := (Push(st, bit), bits + [bit]);
    assert more[8 * st.pos..] == st.buf + [bit];
    forall q | 0 <= q < next.pos && q < total ensures next.bytes[q] == more[8 * q..8 * q + 8] {
      if q < st.pos {
        assert more[8 * q..8 * q + 8] == bits[8 * q..8 * q + 8];
      } else {
        assert more[8 * q..8 * q + 8] == more[8 * q..];
      }
    }
  }

  ghost predicate ReadSoFar(now: map<Cell, Module>, tpl: map<Cell, Module>, done: seq<Cell>, maskIdx: nat,
                            st: Reader, total: nat)
    requires maskIdx < 8
  {
    && now.Keys == tpl.Keys
    && (forall c :: c in done ==> c in tpl)
    && (forall c :: c in Free(tpl, done) ==> c in now)
    && Consumed(st, BitsRead(now, Free(tpl, done), maskIdx), total)
  }

  lemma ReadStep(now: map<Cell, Module>, tpl: map<Cell, Module>, done: seq<Cell>, c: Cell, maskIdx: nat,
                 st: Reader, total: nat)
    requires maskIdx < 8 && c in tpl && ReadSoFar(now, tpl, done, maskIdx, st, total)
    ensures ReadSoFar(now, tpl, done + [c], maskIdx,
                      if tpl[c] == None then Push(st, ReadBit(now[c], maskIdx, c)) else st, total)
  {
    hide Free, Mask, Push, Consumed;
    FreeAppend(tpl, done, c);
    if tpl[c] == None {
      var bits := BitsRead(now, Free(tpl, done), maskIdx);
      PushConsumes(st, bits, total, ReadBit(now[c], maskIdx, c));
      assert BitsRead(now, Free(tpl, done + [c]), maskIdx) == bits + [ReadBit(now[c], maskIdx, c)];
    }
  }

  method ReadCell(b: array2<Module>, tpl: array2<Module>, x: nat, y: nat, maskIdx: nat, st: Reader,
                  ghost done: seq<Cell>, total: nat)
    returns (next: Reader)
    requires maskIdx < 8 && x < b.Length1 && y < b.Length0 && x < tpl.Length1 && y < tpl.Length0
    requires ReadSoFar(Contents(b), Contents(tpl), done, maskIdx, st, total)
    ensures ReadSoFar(Contents(b), Contents(tpl), done + [Cell(x, y)], maskIdx, next, total)
  {
    hide ReadSoFar, Mask;
    ReadStep(Contents(b), Contents(tpl), done, Cell(x, y), maskIdx, st, total);
    next := st;
    if tpl[y, x] == None {
      next := Push(st, (b[y, x] == Some(true)) != Mask(maskIdx, x, y));
    }
  }

  method ReadStrip(b: array2<Module>, tpl: array2<Module>, xOffset: nat, start: nat, dir: int, maskIdx: nat,
                   st: Reader, ghost k: nat, total: nat)
    returns (y: nat, next: Reader)
    requires maskIdx < 8 && tpl.Length0 == tpl.Length1 == b.Length0 == b.Length1
    requires ValidSize(b.Length0) && k < Strips(b.Length0)
    requires xOffset == StripX(b.Length0, k) && start == StripY(b.Length0, k, 0)
    requires dir == if k % 2 == 0 then -1 else 1
    requires ReadSoFar(Contents(b), Contents(tpl), Path(b.Length0, k), maskIdx, st, total)
    ensures y == StripY(b.Length0, k, b.Length0 - 1)
    ensures ReadSoFar(Contents(b), Contents(tpl), Path(b.Length0, k + 1), maskIdx, next, total)
  {
    hide ReadSoFar, Contents, Path, Strip, StripX, StripY;
    var size := b.Length0;
    y, next := start, st;
    ghost var done := Path(size, k);
    ghost var r := 0;
    StripStart(size, k);
    while true
      invariant 0 <= r < size
      invariant y == StripY(size, k, r) && 0 <= y < size
      invariant done == Path(size, k) + Strip(size, k, r)
      invariant ReadSoFar(Contents(b), Contents(tpl), done, maskIdx, next, total)
      decreases size - r
    {
      CellFresh(size, k, r);
      RowStep(size, k, r);
      for j := 0 to 2
        invariant j == 0 ==> done == Path(size, k) + Strip(size, k, r)
        invariant j == 1 ==> done == Path(size, k) + Strip(size, k, r) + [Cell(xOffset, y)]
        invariant j == 2 ==> done == Path(size, k) + Strip(size, k, r + 1)
        invariant ReadSoFar(Contents(b), Contents(tpl), done, maskIdx, next, total)
      {
        var x := xOffset - j;
        next := ReadCell(b, tpl, x, y, maskIdx, next, done, total);
        done := done + [Cell(x, y)];
      }
      if y + dir < 0 || y + dir >= size {
        break;
      }
      r := r + 1;
      y := y + dir;
    }
    PathStep(size, k);
  }

  /** res holds the first total bytes shown at the free cells. */
  ghost predicate ReadOut(now: map<Cell, Module>, free: seq<Cell>, maskIdx: nat, total: nat, res: seq<Byte>)
    requires maskIdx < 8
  {
    && |res| == total
    && (forall c :: c in free ==> c in now)
    && var bits := BitsRead(now, free, maskIdx);
       forall q :: 0 <= q < total ==> 8 * q + 8 <= |bits| && res[q] == bits[8 * q..8 * q + 8]
  }

  /** Reads total bytes back along the cells that the template leaves undrawn. */
  method ReadBytes(b: array2<Module>, tpl: array2<Module>, maskIdx: nat, total: nat) returns (res: Result<seq<Byte>>)
    requires maskIdx < 8 && tpl.Length0 == tpl.Length1 == b.Length0 == b.Length1 && ValidSize(b.Length0)
    ensures res.Ok? <==> |Free(Contents(tpl), Path(b.Length0, Strips(b.Length0)))| / 8 == total
    ensures res.Ok? ==> ReadOut(Contents(b), Free(Contents(tpl), Path(b.Length0, Strips(b.Length0))), maskIdx, total,
                                res.value)
  {
    hide ReadSoFar, Contents, Path, Strip, StripX, StripY;
    var size := b.Length0;
    var st := Reader(seq(total, _ => ZERO), 0, []);
    var dir, y, xOffset := -1, size - 1, size - 1;
    ghost var k := 0;
    ReadStart(b, tpl, maskIdx, st, total);
    PathStart(size);
    StripBounds(size, 0);
    while xOffset > 0
      invariant 0 <= k <= Strips(size)
      invariant k == Strips(size) <==> xOffset <= 0
      invariant k < Strips(size) ==> StripX(size, k) == (if xOffset == 6 then 5 else xOffset) && y == StripY(size, k, 0)
      invariant dir == if k % 2 == 0 then -1 else 1
      invariant ReadSoFar(Contents(b), Contents(tpl), Path(size, k), maskIdx, st, total)
      decreases Strips(size) - k
    {
      if xOffset == 6 {
        xOffset := 5;
      }
      StripStart(size, k);
      y, st := ReadStrip(b, tpl, xOffset, y, dir, maskIdx, st, k, total);
      PathStep(size, k);
      dir := -dir;
      xOffset := xOffset - 2;
      k := k + 1;
    }
    ReadEnd(Contents(b), Contents(tpl), Path(size, k), maskIdx, st, total);
    if st.pos != total {
      res := Err("decode: pos");
    } else {
      res := Ok(st.bytes);
    }
  }

  lemma ReadStart(b: array2<Module>, tpl: array2<Module>, maskIdx: nat, st: Reader, total: nat)
    requires maskIdx < 8 && tpl.Length0 == tpl.Length1 == b.Length0 == b.Length1
    requires st.pos == 0 && st.buf == [] && |st.bytes| == total
    ensures ReadSoFar(Contents(b), Contents(tpl), [], maskIdx, st, total)
  {}

  lemma ReadEnd(now: map<Cell, Module>, tpl: map<Cell, Module>, done: seq<Cell>, maskIdx: nat, st: Reader, total: nat)
    requires maskIdx < 8 && ReadSoFar(now, tpl, done, maskIdx, st, total)
    ensures (forall c :: c in done ==> c in tpl) && (forall c :: c in Free(tpl, done) ==> c in now)
    ensures |st.bytes| == total && st.pos == |Free(tpl, done)| / 8
    ensures var bits := BitsRead(now, Free(tpl, done), maskIdx);
      forall q :: 0 <= q < st.pos && q < total ==> 8 * q + 8 <= |bits| && st.bytes[q] == bits[8 * q..8 * q + 8]
  {}

  /** Bits read from a drawn bitmap are the drawn bits. */
  lemma ReadsWhatWasDrawn(now: map<Cell, Module>, tpl: map<Cell, Module>, path: seq<Cell>, maskIdx: nat,
                          data: seq<Byte>, res: seq<Byte>)
    requires maskIdx < 8 && DrawnSoFar(now, tpl, path, maskIdx, data)
    requires 8 * |data| <= |Free(tpl, path)| && ReadOut(now, Free(tpl, path), maskIdx, |data|, res)
    ensures res == data
  {
    hide Free, Mask;
    var bits := BitsRead(now, Free(tpl, path), maskIdx);
    forall i | 0 <= i < |bits| ensures bits[i] == DataBit(data, i) {
      assert now[Free(tpl, path)[i]] == Drawn(data, i, maskIdx, Free(tpl, path)[i]);
    }
    forall q | 0 <= q < |data| ensures res[q] == data[q] {
      forall m | 0 <= m < 8 ensures res[q][m] == data[q][m] {
        assert bits[8 * q + m] == DataBit(data, 8 * q + m);
      }
    }
  }

  /** Drawing into a template and reading with the same template and mask gives the bytes back,
      when the template leaves between 8n and 8n + 7 modules for the n bytes. */
  method DrawThenRead(b: array2<Module>, tpl: array2<Module>, maskIdx: nat, data: seq<Byte>)
    returns (res: Result<seq<Byte>>)
    requires maskIdx < 8 && b != tpl && ValidSize(b.Length0)
    requires tpl.Length0 == tpl.Length1 == b.Length0 == b.Length1 && Contents(b) == Contents(tpl)
    requires |Free(Contents(tpl), Path(b.Length0, Strips(b.Length0)))| / 8 == |data|
    modifies b
    ensures res == Ok(data)
  {
    hide Contents, Path, Free, DrawnSoFar, ReadOut;
    ghost var path := Path(b.Length0, Strips(b.Length0));
    ghost var before := Contents(tpl);
    var ok := DrawQR(b, maskIdx, data);
    assert Contents(tpl) == before;
    res := ReadBytes(b, tpl, maskIdx, |data|);
    ReadsWhatWasDrawn(Contents(b), before, path, maskIdx, data, res.value);
  }
}
