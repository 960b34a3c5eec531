/** A whole QR symbol: text to codewords to modules and back, also when some codewords of every
    block are read wrongly (encode and decodeBitmap in qr.js). */
module QrSymbol {
  import opened Gf256
  import opened Interleave
  import opened Zigzag
  import opened Alignment
  import opened Template
  import opened TemplateRoom
  import opened QrInfo
  import opened BitStream
  import opened Results

  function PieceOf(mode: Mode, text: string, utf8: seq<Byte>): Piece {
    if mode == Bytes then Utf8(utf8) else Chars(text)
  }

  /** The text can be written: it is in the mode's alphabet and fits the capacity. */
  predicate Writable(ver: nat, ecc: Level, mode: Mode, text: string, utf8: seq<Byte>)
    requires 1 <= ver <= 40
  {
    CapacityFits(ver, ecc);
    && (mode == Mode.Bytes || InAlphabet(AlphabetOf(mode), text))
    && |Header(ver, mode, DataLength(mode, text, utf8))| + |Payload(mode, text, utf8)|
         <= 8 * DataTotal(Capacity(ver, ecc))
  }

  /** bytes are the data bytes of the text. */
  ghost predicate DataBytes(ver: nat, ecc: Level, mode: Mode, text: string, utf8: seq<Byte>, bytes: seq<Byte>)
    requires 1 <= ver <= 40
  {
    CapacityFits(ver, ecc);
    var total := DataTotal(Capacity(ver, ecc));
    && Writable(ver, ecc, mode, text, utf8) && |bytes| == total
    && IsStream(Header(ver, mode, DataLength(mode, text, utf8)) + Payload(mode, text, utf8), 8 * total, ByteBits(bytes))
  }

  /** data holds the codewords of the text, each block with at most half as many wrong bytes as
      it has correction words. */
  ghost predicate Shows(ver: nat, ecc: Level, mode: Mode, text: string, utf8: seq<Byte>, data: seq<Byte>)
    requires 1 <= ver <= 40
  {
    CapacityFits(ver, ecc);
    exists bytes, clean :: DataBytes(ver, ecc, mode, text, utf8, bytes)
      && Recoverable(Capacity(ver, ecc), bytes, clean, data)
  }

  // ---- Codewords ----

  method EncodeData(ver: nat, ecc: Level, mode: Mode, text: string, utf8: seq<Byte>) returns (res: Result<seq<Byte>>)
    requires 1 <= ver <= 40
    ensures res.Ok? <==> Writable(ver, ecc, mode, text, utf8)
    ensures res.Ok? ==> |res.value| == QrInfo.Bytes(ver) && Shows(ver, ecc, mode, text, utf8, res.value)
  {
    hide DataTotal, Header, Payload, IsStream, Encodes, Capacity;
    CapacityFits(ver, ecc);
    var shape := Capacity(ver, ecc);
    var bytes := BitStream.Encode(ver, 8 * DataTotal(shape), mode, text, utf8);
    if bytes.Err? {
      return Err(bytes.error);
    }
    var data := Interleave.Encode(shape, bytes.value);
    EncodedLength(shape, bytes.value, data);
    CleanIsRecoverable(shape, bytes.value, data);
    assert DataBytes(ver, ecc, mode, text, utf8, bytes.value);
    res := Ok(data);
  }

  lemma {:induction false} NoDistance(a: seq<Byte>)
    ensures RsDecode.Distance(a, a) == 0
  {
    if a != [] {
      NoDistance(a[..|a| - 1]);
    }
  }

  lemma CleanIsRecoverable(shape: Shape, bytes: seq<Byte>, data: seq<Byte>)
    requires ValidShape(shape) && Encodes(shape, bytes, data)
    ensures Recoverable(shape, bytes, data, data)
  {
    hide Total, Block, BlockEncodes, RsDecode.Distance;
    forall j | 0 <= j < shape.numBlocks
      ensures 2 * RsDecode.Distance(Block(shape, data, j), Block(shape, data, j)) <= shape.words
    {
      NoDistance(Block(shape, data, j));
    }
  }

  method DecodeData(ver: nat, ecc: Level, data: seq<Byte>) returns (res: Result<seq<Piece>>)
    requires 1 <= ver <= 40
    ensures forall mode, text, utf8 :: Shows(ver, ecc, mode, text, utf8, data) ==>
      res == Ok([PieceOf(mode, text, utf8)])
  {
    hide Shows, Recoverable, Capacity, ValidShape, ReadAll;
    CapacityFits(ver, ecc);
    var bytes := Interleave.Decode(Capacity(ver, ecc), data);
    if bytes.Err? {
      forall mode, text, utf8 ensures !Shows(ver, ecc, mode, text, utf8, data) {
        NotShown(ver, ecc, mode, text, utf8, data, bytes);
      }
      return Err(bytes.error);
    }
    var bits := EncodeBytes(bytes.value);
    res := Read(ver, bits);
    forall mode, text, utf8 | Shows(ver, ecc, mode, text, utf8, data)
      ensures res == Ok([PieceOf(mode, text, utf8)])
    {
      ShownIsRead(ver, ecc, mode, text, utf8, data, bytes);
    }
  }

  lemma NotShown(ver: nat, ecc: Level, mode: Mode, text: string, utf8: seq<Byte>, data: seq<Byte>,
                 res: Result<seq<Byte>>)
    requires 1 <= ver <= 40 && ValidShape(Capacity(ver, ecc)) && res.Err?
    requires forall bytes, clean :: Recoverable(Capacity(ver, ecc), bytes, clean, data) ==> res == Ok(bytes)
    ensures !Shows(ver, ecc, mode, text, utf8, data)
  {
    hide Recoverable, Capacity, ValidShape, DataBytes;
  }

  lemma ShownIsRead(ver: nat, ecc: Level, mode: Mode, text: string, utf8: seq<Byte>, data: seq<Byte>,
                    res: Result<seq<Byte>>)
    requires 1 <= ver <= 40 && ValidShape(Capacity(ver, ecc)) && res.Ok?
    requires forall bytes, clean :: Recoverable(Capacity(ver, ecc), bytes, clean, data) ==> res == Ok(bytes)
    requires Shows(ver, ecc, mode, text, utf8, data)
    ensures ReadAll(ver, ByteBits(res.value)) == Ok([PieceOf(mode, text, utf8)])
  {
    hide Recoverable, Capacity, ValidShape, DataBytes, ReadAll;
    var bytes, clean :| DataBytes(ver, ecc, mode, text, utf8, bytes) &&
        Recoverable(Capacity(ver, ecc), bytes, clean, data);
    assert bytes == res.value;
    DataBytesRead(ver, ecc, mode, text, utf8, bytes);
  }

  lemma DataBytesRead(ver: nat, ecc: Level, mode: Mode, text: string, utf8: seq<Byte>, bytes: seq<Byte>)
    requires 1 <= ver <= 40 && DataBytes(ver, ecc, mode, text, utf8, bytes)
    ensures ReadAll(ver, ByteBits(bytes)) == Ok([PieceOf(mode, text, utf8)])
  {
    hide IsStream, ReadAll, Header, Payload, Capacity, DataTotal, ByteBits, LengthBits, DataLength, InAlphabet;
    CapacityFits(ver, ecc);
    DataBytesWithin(ver, ecc);
    var total := DataTotal(Capacity(ver, ecc));
    HeaderLength(ver, mode, DataLength(mode, text, utf8));
    CountFits(ver, total, mode, text, utf8);
    ByteLength(bytes);
    StreamRoundTrip(ver, 8 * total, mode, text, utf8, ByteBits(bytes));
  }

  lemma HeaderLength(ver: nat, mode: Mode, len: nat)
    requires 1 <= ver <= 40
    ensures |Header(ver, mode, len)| >= 4
  {}

  // ---- Symbols ----

  /** The template of a symbol leaves room for the codewords of its version and less than a byte more. */
  ghost predicate RoomFor(tpl: map<Cell, Module>, ver: nat)
    requires 1 <= ver <= 40
  {
    |Free(tpl, Path(17 + 4 * ver, Strips(17 + 4 * ver)))| / 8 == QrInfo.Bytes(ver)
  }

  lemma VersionSize(ver: nat)
    requires 1 <= ver <= 40
    ensures ValidSize(17 + 4 * ver)
  {}

  lemma RoomForIs(tpl: map<Cell, Module>, ver: nat, size: nat)
    requires 1 <= ver <= 40 && size == 17 + 4 * ver
    ensures ValidSize(size)
    ensures RoomFor(tpl, ver) <==> |Free(tpl, Path(size, Strips(size)))| / 8 == QrInfo.Bytes(ver)
  {
    hide Path, Free, QrInfo.Bytes, Strips;
  }

  /** Reads a symbol whose version, level and mask are known. */
  method DecodeBitmap(b: array2<Module>, tpl: array2<Module>, maskIdx: nat, ver: nat, ecc: Level)
    returns (res: Result<seq<Piece>>, ghost codewords: Result<seq<Byte>>)
    requires 1 <= ver <= 40 && maskIdx < 8
    requires tpl.Length0 == tpl.Length1 == b.Length0 == b.Length1 == 17 + 4 * ver
    ensures RoomFor(Contents(tpl), ver) <==> codewords.Ok?
    ensures codewords.Ok? ==>
      ReadOut(Contents(b), Free(Contents(tpl), Path(b.Length0, Strips(b.Length0))), maskIdx, QrInfo.Bytes(ver),
              codewords.value)
    ensures codewords.Ok? ==> forall mode, text, utf8 ::
      Shows(ver, ecc, mode, text, utf8, codewords.value) ==> res == Ok([PieceOf(mode, text, utf8)])
    ensures codewords.Err? ==> res.Err?
  {
    hide *;
    VersionSize(ver);
    RoomForIs(Contents(tpl), ver, b.Length0);
    var data := ReadBytes(b, tpl, maskIdx, QrInfo.Bytes(ver));
    codewords := data;
    if data.Err? {
      res := Err(data.error);
    } else {
      res := DecodeData(ver, ecc, data.value);
    }
  }

  /** The whole way: every writable text, drawn into the template b of a symbol and read back with
      the same template, comes back as written. */
  method RoundTrip(b: array2<Module>, tpl: array2<Module>, maskIdx: nat, ver: nat, ecc: Level,
                   mode: Mode, text: string, utf8: seq<Byte>)
    returns (res: Result<seq<Piece>>)
    requires 1 <= ver <= 40 && maskIdx < 8 && b != tpl && Writable(ver, ecc, mode, text, utf8)
    requires tpl.Length0 == tpl.Length1 == b.Length0 == b.Length1 == 17 + 4 * ver
    requires Contents(b) == Contents(tpl) && RoomFor(Contents(tpl), ver)
    modifies b
    ensures res == Ok([PieceOf(mode, text, utf8)])
  {
    hide Shows, Contents, Path, Free, Writable, DrawnSoFar, ReadOut, QrInfo.Bytes;
    var data := EncodeData(ver, ecc, mode, text, utf8);
    ghost var path := Path(b.Length0, Strips(b.Length0));
    ghost var before := Contents(tpl);
    var ok := DrawQR(b, maskIdx, data.value);
    assert Contents(tpl) == before;
    ghost var codewords;
    res, codewords := DecodeBitmap(b, tpl, maskIdx, ver, ecc);
    ReadsWhatWasDrawn(Contents(b), before, path, maskIdx, data.value, codewords.value);
  }

  /** The template that the drawing steps leave has room for its version. */
  lemma DrawnTemplateHasRoom(l: Layout, b: array2<Module>)
    requires ValidLayout(l) && b.Length0 == b.Length1 == Size(l.ver)
    requires forall y, x :: 0 <= y < Size(l.ver) && 0 <= x < Size(l.ver) ==> b[y, x] == TemplateAt(l, x, y)
    ensures Size(l.ver) == 17 + 4 * l.ver && RoomFor(Contents(b), l.ver)
  {
    hide TemplateAt, Path, Free, QrInfo.Bytes;
    VersionSize(l.ver);
    RoomForIs(Contents(b), l.ver, Size(l.ver));
    TemplateHasRoom(l, Contents(b));
  }

  lemma SameTemplate(l: Layout, a: array2<Module>, b: array2<Module>)
    requires ValidLayout(l) && a.Length0 == a.Length1 == b.Length0 == b.Length1 == Size(l.ver)
    requires forall y, x :: 0 <= y < Size(l.ver) && 0 <= x < Size(l.ver) ==> a[y, x] == TemplateAt(l, x, y) == b[y, x]
    ensures Contents(a) == Contents(b)
  {
    hide TemplateAt;
  }

  /**
   * Every writable text comes back from a symbol: the template is drawn, the codewords are drawn into it, and the
   * reader, who draws the template anew, reads them back.
   */
  method DrawAndRead(l: Layout, maskIdx: nat, ecc: Level, mode: Mode, text: string, utf8: seq<Byte>)
    returns (res: Result<seq<Piece>>)
    requires ValidLayout(l) && maskIdx < 8 && Writable(l.ver, ecc, mode, text, utf8)
    ensures res == Ok([PieceOf(mode, text, utf8)])
  {
    hide TemplateAt, RoomFor, Writable, Contents;
    var b := DrawTemplate(l);
    var tpl := DrawTemplate(l);
    DrawnTemplateHasRoom(l, tpl);
    SameTemplate(l, b, tpl);
    res := RoundTrip(b, tpl, maskIdx, l.ver, ecc, mode, text, utf8);
  }
}
