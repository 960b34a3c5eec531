/** Splitting data into Reed-Solomon blocks and interleaving them, and the reverse
    (interleave in qr.js; section 7.6 of ISO/IEC 18004:2015). */
module Interleave {
  import opened Gf256
  import opened PolyArrays
  import opened ReedSolomon
  import opened RsDecode
  import opened Results

  /** The block layout of a version and correction level: shortBlocks blocks carry blockLen data
      words, the remaining ones one word more, and every block ends with the correction words. */
  datatype Shape = Shape(words: nat, numBlocks: nat, shortBlocks: nat, blockLen: nat)

  predicate ValidShape(s: Shape) {
    && 1 <= s.words <= 255 && s.shortBlocks <= s.numBlocks && s.numBlocks > 0 && s.blockLen > 0
    && s.words + s.blockLen + 1 <= 255
  }

  function DataLen(s: Shape, j: nat): nat {
    s.blockLen + if j < s.shortBlocks then 0 else 1
  }

  /** Where row i of a grid n wide starts. */
  function RowStart(i: nat, n: nat): (r: nat)
    ensures i == 0 ==> r == 0
  {
    i * n
  }

  lemma NextRow(i: nat, n: nat)
    ensures RowStart(i + 1, n) == RowStart(i, n) + n
  {
    assert (i + 1) * n == i * n + n;
  }

  lemma RowsOrdered(i: nat, rows: nat, n: nat)
    requires i < rows
    ensures RowStart(i, n) + n <= RowStart(rows, n)
  {
    assert (i + 1) * n <= rows * n;
    assert (i + 1) * n == i * n + n;
  }

  /** Where the data of block j starts. */
  function DataStart(s: Shape, j: nat): nat {
    if j == 0 then 0 else DataStart(s, j - 1) + DataLen(s, j - 1)
  }

  function DataTotal(s: Shape): nat
    requires s.shortBlocks <= s.numBlocks
  {
    RowStart(s.blockLen, s.numBlocks) + (s.numBlocks - s.shortBlocks)
  }

  function Total(s: Shape): nat
    requires s.shortBlocks <= s.numBlocks
  {
    (s.words + s.blockLen) * s.numBlocks + s.numBlocks - s.shortBlocks
  }

  /** Where byte k of block j stands in the interleaved sequence. */
  function Source(s: Shape, j: nat, k: nat): int
    requires s.shortBlocks <= s.numBlocks
  {
    if k < s.blockLen then RowStart(k, s.numBlocks) + j
    else if k < DataLen(s, j) then RowStart(s.blockLen, s.numBlocks) + j - s.shortBlocks
    else DataTotal(s) + RowStart(k - DataLen(s, j), s.numBlocks) + j
  }

  lemma TotalSplit(s: Shape)
    requires s.shortBlocks <= s.numBlocks
    ensures Total(s) == DataTotal(s) + RowStart(s.words, s.numBlocks)
  {
    assert (s.words + s.blockLen) * s.numBlocks == s.words * s.numBlocks + s.blockLen * s.numBlocks;
  }

  lemma SourceInRange(s: Shape, j: nat, k: nat)
    requires ValidShape(s) && j < s.numBlocks && k < DataLen(s, j) + s.words
    ensures 0 <= Source(s, j, k) < Total(s)
    ensures k < DataLen(s, j) ==> Source(s, j, k) < DataTotal(s)
  {
    hide Total, RowStart;
    TotalSplit(s);
    if k < s.blockLen {
      RowsOrdered(k, s.blockLen, s.numBlocks);
    } else if k >= DataLen(s, j) {
      RowsOrdered(k - DataLen(s, j), s.words, s.numBlocks);
    }
  }

  /** Block j as the decoder gathers it. */
  function Block(s: Shape, data: seq<Byte>, j: nat): (b: seq<Byte>)
    requires ValidShape(s) && |data| == Total(s) && j < s.numBlocks
    ensures |b| == DataLen(s, j) + s.words
  {
    seq(DataLen(s, j) + s.words, k requires 0 <= k < DataLen(s, j) + s.words =>
      SourceInRange(s, j, k); data[Source(s, j, k)])
  }

  lemma {:induction false} DataStartClosed(s: Shape, j: nat)
    requires s.shortBlocks <= s.numBlocks && j <= s.numBlocks
    ensures DataStart(s, j) == RowStart(j, s.blockLen) + if j < s.shortBlocks then 0 else j - s.shortBlocks
  {
    hide RowStart;
    if j > 0 {
      DataStartClosed(s, j - 1);
      NextRow(j - 1, s.blockLen);
    }
  }

  lemma DataStartEnd(s: Shape)
    requires s.shortBlocks <= s.numBlocks
    ensures DataStart(s, s.numBlocks) == DataTotal(s)
  {
    DataStartClosed(s, s.numBlocks);
    assert s.numBlocks * s.blockLen == s.blockLen * s.numBlocks;
  }

  lemma {:induction false} DataStartMonotone(s: Shape, i: nat, j: nat)
    requires i <= j
    ensures DataStart(s, i) <= DataStart(s, j)
  {
    if i < j {
      DataStartMonotone(s, i, j - 1);
    }
  }

  lemma DataStartStep(s: Shape, j: nat)
    ensures DataStart(s, j + 1) == DataStart(s, j) + DataLen(s, j)
  {}

  lemma SliceInRange(s: Shape, j: nat)
    requires s.shortBlocks <= s.numBlocks && j < s.numBlocks
    ensures DataStart(s, j) + DataLen(s, j) <= DataTotal(s)
  {
    hide DataTotal, DataStart;
    DataStartStep(s, j);
    DataStartMonotone(s, j + 1, s.numBlocks);
    DataStartEnd(s);
  }

  /** The data words of block j. */
  function Slice(s: Shape, bytes: seq<Byte>, j: nat): (r: seq<Byte>)
    requires s.shortBlocks <= s.numBlocks && j < s.numBlocks && |bytes| == DataTotal(s)
    ensures |r| == DataLen(s, j)
  {
    SliceInRange(s, j);
    bytes[DataStart(s, j)..DataStart(s, j) + DataLen(s, j)]
  }

  /** data is the interleaving of bytes: each gathered block is a codeword that begins with its
      share of the bytes. */
  ghost predicate Encodes(s: Shape, bytes: seq<Byte>, data: seq<Byte>)
    requires ValidShape(s)
  {
    && |bytes| == DataTotal(s) && |data| == Total(s)
    && forall j :: 0 <= j < s.numBlocks ==> BlockEncodes(s, bytes, data, j)
  }

  ghost predicate BlockEncodes(s: Shape, bytes: seq<Byte>, data: seq<Byte>, j: nat)
    requires ValidShape(s) && j < s.numBlocks && |bytes| == DataTotal(s) && |data| == Total(s)
  {
    && Slice(s, bytes, j) <= Block(s, data, j)
    && IsCodeword(Block(s, data, j), s.words)
  }

  /** In every block at most half as many bytes differ as there are correction words. */
  ghost predicate Correctable(s: Shape, damaged: seq<Byte>, clean: seq<Byte>)
    requires ValidShape(s) && |damaged| == |clean| == Total(s)
  {
    forall j :: 0 <= j < s.numBlocks ==> 2 * Distance(Block(s, damaged, j), Block(s, clean, j)) <= s.words
  }

  /** data is an interleaving of bytes, damaged within what every block can correct. */
  ghost predicate Recoverable(s: Shape, bytes: seq<Byte>, clean: seq<Byte>, data: seq<Byte>)
    requires ValidShape(s)
  {
    |data| == Total(s) && Encodes(s, bytes, clean) && Correctable(s, data, clean)
  }

  // ---- interleaveBytes ----

  /** The i-th entries of the blocks long enough to have one, among the first n blocks. */
  function Column(blocks: seq<seq<Byte>>, i: nat, n: nat): seq<Byte>
    requires n <= |blocks|
  {
    if n == 0 then []
    else Column(blocks, i, n - 1) + if i < |blocks[n - 1]| then [blocks[n - 1][i]] else []
  }

  function Columns(blocks: seq<seq<Byte>>, i: nat): seq<Byte> {
    if i == 0 then [] else Columns(blocks, i - 1) + Column(blocks, i - 1, |blocks|)
  }

  function MaxLength(blocks: seq<seq<Byte>>, n: nat): nat
    requires n <= |blocks|
  {
    if n == 0 then 0
    else if MaxLength(blocks, n - 1) < |blocks[n - 1]| then |blocks[n - 1]| else MaxLength(blocks, n - 1)
  }

  method InterleaveBytes(blocks: seq<seq<Byte>>) returns (res: seq<Byte>)
    ensures res == Columns(blocks, MaxLength(blocks, |blocks|))
  {
    var len := 0;
    for j := 0 to |blocks|
      invariant len == MaxLength(blocks, j)
    {
      len := if len < |blocks[j]| then |blocks[j]| else len;
    }
    res := [];
    for i := 0 to len
      invariant res == Columns(blocks, i)
    {
      for j := 0 to |blocks|
        invariant res == Columns(blocks, i) + Column(blocks, i, j)
      {
        if i < |blocks[j]| {
          res := res + [blocks[j][i]];
        }
      }
    }
  }

  // ---- Blocks of one length, or with the long ones last ----

  lemma {:induction false} FullColumn(blocks: seq<seq<Byte>>, i: nat, n: nat)
    requires n <= |blocks| && forall j :: 0 <= j < n ==> i < |blocks[j]|
    ensures |Column(blocks, i, n)| == n
    ensures forall j :: 0 <= j < n ==> Column(blocks, i, n)[j] == blocks[j][i]
  {
    if n > 0 {
      FullColumn(blocks, i, n - 1);
    }
  }

  lemma {:induction false} LastColumn(blocks: seq<seq<Byte>>, i: nat, n: nat, short: nat)
    requires short <= n <= |blocks|
    requires forall j :: 0 <= j < short ==> |blocks[j]| <= i
    requires forall j :: short <= j < n ==> i < |blocks[j]|
    ensures |Column(blocks, i, n)| == n - short
    ensures forall j :: short <= j < n ==> Column(blocks, i, n)[j - short] == blocks[j][i]
  {
    if n > short {
      LastColumn(blocks, i, n - 1, short);
    } else if n > 0 {
      LastColumn(blocks, i, n - 1, short - 1);
    }
  }

  lemma {:induction false} FullColumnsLength(blocks: seq<seq<Byte>>, rows: nat)
    requires forall b :: 0 <= b < |blocks| ==> rows <= |blocks[b]|
    ensures |Columns(blocks, rows)| == RowStart(rows, |blocks|)
  {
    hide RowStart, Column;
    if rows > 0 {
      FullColumnsLength(blocks, rows - 1);
      FullColumn(blocks, rows - 1, |blocks|);
      NextRow(rows - 1, |blocks|);
    }
  }

  lemma {:induction false} FullColumnsAt(blocks: seq<seq<Byte>>, rows: nat, i: nat, j: nat)
    requires forall b :: 0 <= b < |blocks| ==> rows <= |blocks[b]|
    requires i < rows && j < |blocks|
    ensures RowStart(i, |blocks|) + j < |Columns(blocks, rows)|
    ensures Columns(blocks, rows)[RowStart(i, |blocks|) + j] == blocks[j][i]
  {
    hide RowStart, Column;
    FullColumn(blocks, rows - 1, |blocks|);
    FullColumnsLength(blocks, rows - 1);
    if i < rows - 1 {
      FullColumnsAt(blocks, rows - 1, i, j);
    }
  }

  lemma {:induction false} MaxLengthIs(blocks: seq<seq<Byte>>, n: nat, len: nat)
    requires n <= |blocks| && forall j :: 0 <= j < n ==> |blocks[j]| <= len
    requires exists j :: 0 <= j < n && |blocks[j]| == len
    ensures MaxLength(blocks, n) == len
  {
    MaxLengthAtMost(blocks, n, len);
    if |blocks[n - 1]| < len {
      MaxLengthIs(blocks, n - 1, len);
    } else {
      MaxLengthAtMost(blocks, n - 1, len);
    }
  }

  lemma {:induction false} MaxLengthAtMost(blocks: seq<seq<Byte>>, n: nat, len: nat)
    requires n <= |blocks| && forall j :: 0 <= j < n ==> |blocks[j]| <= len
    ensures MaxLength(blocks, n) <= len
  {
    if n > 0 {
      MaxLengthAtMost(blocks, n - 1, len);
    }
  }

  // ---- Encoding ----

  /** Data and correction blocks as the encoder collects them. */
  ghost predicate SplitBlocks(s: Shape, bytes: seq<Byte>, blocks: seq<seq<Byte>>, eccBlocks: seq<seq<Byte>>, n: nat)
    requires ValidShape(s) && |bytes| == DataTotal(s) && n <= s.numBlocks
  {
    && |blocks| == |eccBlocks| == n
    && forall j :: 0 <= j < n ==>
         blocks[j] == Slice(s, bytes, j) && |eccBlocks[j]| == s.words && IsCodeword(blocks[j] + eccBlocks[j], s.words)
  }

  lemma DataColumns(s: Shape, bytes: seq<Byte>, blocks: seq<seq<Byte>>, eccBlocks: seq<seq<Byte>>)
    requires ValidShape(s) && |bytes| == DataTotal(s) && SplitBlocks(s, bytes, blocks, eccBlocks, s.numBlocks)
    ensures var data := Columns(blocks, MaxLength(blocks, |blocks|));
      && |data| == DataTotal(s)
      && forall j, k :: 0 <= j < s.numBlocks && 0 <= k < DataLen(s, j) ==>
           0 <= Source(s, j, k) < |data| && data[Source(s, j, k)] == blocks[j][k]
  {
    hide Slice, Columns, RowStart, IsCodeword;
    var (n, len) := (s.numBlocks, s.blockLen);
    var data := Columns(blocks, MaxLength(blocks, |blocks|));
    FullColumnsLength(blocks, len);
    if s.shortBlocks == n {
      assert |blocks[0]| == len;
      MaxLengthIs(blocks, n, len);
    } else {
      assert |blocks[n - 1]| == len + 1;
      MaxLengthIs(blocks, n, len + 1);
      LastColumn(blocks, len, n, s.shortBlocks);
      assert data == Columns(blocks, len) + Column(blocks, len, n) by { ColumnsStep(blocks, len); }
    }
    forall j, k | 0 <= j < n && 0 <= k < DataLen(s, j)
      ensures 0 <= Source(s, j, k) < |data| && data[Source(s, j, k)] == blocks[j][k]
    {
      if k < len {
        FullColumnsAt(blocks, len, k, j);
      }
    }
  }

  lemma ColumnsStep(blocks: seq<seq<Byte>>, i: nat)
    ensures Columns(blocks, i + 1) == Columns(blocks, i) + Column(blocks, i, |blocks|)
  {}

  lemma EccColumns(s: Shape, eccBlocks: seq<seq<Byte>>)
    requires ValidShape(s) && |eccBlocks| == s.numBlocks
    requires forall j :: 0 <= j < s.numBlocks ==> |eccBlocks[j]| == s.words
    ensures var ecc := Columns(eccBlocks, MaxLength(eccBlocks, |eccBlocks|));
      && |ecc| == RowStart(s.words, s.numBlocks)
      && forall j, k :: 0 <= j < s.numBlocks && 0 <= k < s.words ==>
           RowStart(k, s.numBlocks) + j < |ecc| && ecc[RowStart(k, s.numBlocks) + j] == eccBlocks[j][k]
  {
    hide Columns, RowStart;
    FullColumnsLength(eccBlocks, s.words);
    assert |eccBlocks[0]| == s.words;
    MaxLengthIs(eccBlocks, s.numBlocks, s.words);
    var ecc := Columns(eccBlocks, s.words);
    forall j, k | 0 <= j < s.numBlocks && 0 <= k < s.words
      ensures RowStart(k, s.numBlocks) + j < |ecc| && ecc[RowStart(k, s.numBlocks) + j] == eccBlocks[j][k]
    {
      FullColumnsAt(eccBlocks, s.words, k, j);
    }
  }

  lemma Interleaved(s: Shape, bytes: seq<Byte>, blocks: seq<seq<Byte>>, eccBlocks: seq<seq<Byte>>, data: seq<Byte>)
    requires ValidShape(s) && |bytes| == DataTotal(s) && SplitBlocks(s, bytes, blocks, eccBlocks, s.numBlocks)
    requires data == Columns(blocks, MaxLength(blocks, |blocks|)) + Columns(eccBlocks,
      MaxLength(eccBlocks, |eccBlocks|))
    ensures Encodes(s, bytes, data)
  {
    hide Columns, MaxLength, Slice, IsCodeword, Total, RowStart, DataTotal;
    DataColumns(s, bytes, blocks, eccBlocks);
    EccColumns(s, eccBlocks);
    TotalSplit(s);
    forall j | 0 <= j < s.numBlocks ensures BlockEncodes(s, bytes, data, j) {
      GatheredBlock(s, blocks[j], eccBlocks[j], data, j);
    }
  }

  lemma GatheredBlock(s: Shape, block: seq<Byte>, ecc: seq<Byte>, data: seq<Byte>, j: nat)
    requires ValidShape(s) && |data| == Total(s) && j < s.numBlocks
    requires |block| == DataLen(s, j) && |ecc| == s.words
    requires forall k :: 0 <= k < |block| ==> 0 <= Source(s, j, k) < |data| && data[Source(s, j, k)] == block[k]
    requires forall k :: 0 <= k < s.words ==>
               DataTotal(s) + RowStart(k, s.numBlocks) + j < |data|
               && data[DataTotal(s) + RowStart(k, s.numBlocks) + j] == ecc[k]
    ensures Block(s, data, j) == block + ecc
  {
    hide Total, RowStart, DataTotal;
    var b := Block(s, data, j);
    forall k | 0 <= k < |b| ensures b[k] == (block + ecc)[k] {
      SourceInRange(s, j, k);
      if k >= |block| {
        var m := k - |block|;
        assert data[DataTotal(s) + RowStart(m, s.numBlocks) + j] == ecc[m];
      }
    }
  }

  method Encode(s: Shape, bytes: seq<Byte>) returns (res: seq<Byte>)
    requires ValidShape(s) && |bytes| == DataTotal(s)
    ensures Encodes(s, bytes, res)
  {
    hide IsCodeword, DataTotal, DataStart, Encodes, Columns, MaxLength, SplitBlocks, Slice, ValidShape, DataLen;
    var blocks, eccBlocks := [], [];
    var rest := bytes;
    DataStartZero(s);
    NoBlocks(s, bytes);
    for i := 0 to s.numBlocks
      invariant DataStart(s, i) <= |bytes| && rest == bytes[DataStart(s, i)..]
      invariant SplitBlocks(s, bytes, blocks, eccBlocks, i)
    {
      var isShort := i < s.shortBlocks;
      var len := s.blockLen + if isShort then 0 else 1;
      DataStartStep(s, i);
      SliceIs(s, bytes, i, len);
      assert rest[..len] == bytes[DataStart(s, i)..DataStart(s, i) + len];
      var ecc := ReedSolomon.Encode(s.words, rest[..len]);
      BlockAppended(s, bytes, blocks, eccBlocks, i, rest[..len], ecc);
      blocks := blocks + [rest[..len]];
      eccBlocks := eccBlocks + [ecc];
      rest := rest[len..];
    }
    var resBlocks := InterleaveBytes(blocks);
    var resECC := InterleaveBytes(eccBlocks);
    res := resBlocks + resECC;
    Interleaved(s, bytes, blocks, eccBlocks, res);
  }

  lemma NoBlocks(s: Shape, bytes: seq<Byte>)
    requires ValidShape(s) && |bytes| == DataTotal(s)
    ensures 0 < s.words <= 255 && s.shortBlocks <= s.numBlocks && SplitBlocks(s, bytes, [], [], 0)
  {}

  lemma SliceIs(s: Shape, bytes: seq<Byte>, i: nat, len: nat)
    requires ValidShape(s) && |bytes| == DataTotal(s) && i < s.numBlocks
    requires len == s.blockLen + if i < s.shortBlocks then 0 else 1
    ensures len == DataLen(s, i) && DataStart(s, i) + len <= |bytes|
    ensures Slice(s, bytes, i) == bytes[DataStart(s, i)..DataStart(s, i) + len]
  {
    hide DataTotal, DataStart;
    SliceInRange(s, i);
  }

  lemma BlockAppended(s: Shape, bytes: seq<Byte>, blocks: seq<seq<Byte>>, eccBlocks: seq<seq<Byte>>, i: nat,
                      block: seq<Byte>, ecc: seq<Byte>)
    requires ValidShape(s) && |bytes| == DataTotal(s) && i < s.numBlocks
    requires SplitBlocks(s, bytes, blocks, eccBlocks, i)
    requires block == Slice(s, bytes, i) && |ecc| == s.words && IsCodeword(block + ecc, s.words)
    ensures SplitBlocks(s, bytes, blocks + [block], eccBlocks + [ecc], i + 1)
  {
    hide IsCodeword, DataTotal, Slice;
  }

  lemma DataStartZero(s: Shape)
    ensures DataStart(s, 0) == 0
  {}

  // ---- Decoding ----

  predicate Buffers(s: Shape, blocks: seq<seq<Byte>>) {
    |blocks| == s.numBlocks && forall j :: 0 <= j < s.numBlocks ==> |blocks[j]| == DataLen(s, j) + s.words
  }

  /** The first counts[j] bytes of every block j are in place. */
  ghost predicate Filled(s: Shape, data: seq<Byte>, blocks: seq<seq<Byte>>, counts: seq<nat>)
    requires ValidShape(s) && |data| == Total(s) && Buffers(s, blocks)
  {
    |counts| == s.numBlocks && forall j :: 0 <= j < s.numBlocks ==> BlockFilled(s, data, blocks, j, counts[j])
  }

  ghost predicate BlockFilled(s: Shape, data: seq<Byte>, blocks: seq<seq<Byte>>, j: nat, n: nat)
    requires ValidShape(s) && |data| == Total(s) && Buffers(s, blocks) && j < s.numBlocks
  {
    n <= |blocks[j]| && blocks[j][..n] == Block(s, data, j)[..n]
  }

  function Put(blocks: seq<seq<Byte>>, j: nat, k: nat, b: Byte): (r: seq<seq<Byte>>)
    requires j < |blocks| && k < |blocks[j]|
    ensures |r| == |blocks| && r[j] == blocks[j][k := b]
    ensures forall i :: 0 <= i < |r| && i != j ==> r[i] == blocks[i]
  {
    var row: seq<Byte> := blocks[j][k := b];
    blocks[j := row]
  }

  lemma PutFills(s: Shape, data: seq<Byte>, blocks: seq<seq<Byte>>, counts: seq<nat>, j: nat, k: nat)
    requires ValidShape(s) && |data| == Total(s) && Buffers(s, blocks) && j < s.numBlocks
    requires Filled(s, data, blocks, counts) && |counts| == s.numBlocks && counts[j] == k < DataLen(s, j) + s.words
    ensures 0 <= Source(s, j, k) < |data| && |blocks| == s.numBlocks && k < |blocks[j]|
    ensures var after := Put(blocks, j, k, data[Source(s, j, k)]);
      Buffers(s, after) && Filled(s, data, after, counts[j := k + 1])
  {
    hide Total, Source, Put;
    SourceInRange(s, j, k);
    var (b, after) := (Block(s, data, j), Put(blocks, j, k, data[Source(s, j, k)]));
    assert BlockFilled(s, data, blocks, j, k);
    assert after[j][..k + 1] == blocks[j][..k] + [b[k]];
    assert b[..k + 1] == b[..k] + [b[k]];
    var next: seq<nat> := counts[j := k + 1];
    forall i | 0 <= i < s.numBlocks ensures BlockFilled(s, data, after, i, next[i]) {
      assert BlockFilled(s, data, blocks, i, counts[i]);
    }
  }

  /** Distributes the interleaved sequence over the blocks, reading it once from start to end. */
  method Gather(s: Shape, data: seq<Byte>) returns (blocks: seq<seq<Byte>>)
    requires ValidShape(s) && |data| == Total(s)
    ensures |blocks| == s.numBlocks
    ensures forall j :: 0 <= j < s.numBlocks ==> blocks[j] == Block(s, data, j)
  {
    hide Total, RowStart, Block, Filled, Buffers, Source, Put, ZeroBytes, DataTotal;
    blocks := seq(s.numBlocks, j requires 0 <= j < s.numBlocks => ZeroBytes(DataLen(s, j) + s.words));
    ghost var counts: seq<nat> := seq(s.numBlocks, j => 0);
    EmptyBuffers(s, data, blocks, counts);
    var pos := 0;
    for i := 0 to s.blockLen
      invariant pos == RowStart(i, s.numBlocks)
      invariant Buffers(s, blocks) && Filled(s, data, blocks, counts) && |counts| == s.numBlocks
      invariant forall b :: 0 <= b < s.numBlocks ==> counts[b] == i
    {
      for j := 0 to s.numBlocks
        invariant pos == RowStart(i, s.numBlocks) + j
        invariant Buffers(s, blocks) && Filled(s, data, blocks, counts) && |counts| == s.numBlocks
        invariant forall b :: 0 <= b < s.numBlocks ==> counts[b] == if b < j then i + 1 else i
      {
        PutFills(s, data, blocks, counts, j, i);
        SourceIs(s, j, i);
        blocks := Put(blocks, j, i, data[pos]);
        counts := counts[j := i + 1];
        pos := pos + 1;
      }
      NextRow(i, s.numBlocks);
    }
    for j := s.shortBlocks to s.numBlocks
      invariant pos == RowStart(s.blockLen, s.numBlocks) + j - s.shortBlocks
      invariant Buffers(s, blocks) && Filled(s, data, blocks, counts) && |counts| == s.numBlocks
      invariant forall b :: 0 <= b < s.numBlocks ==> counts[b] == if b < j then DataLen(s, b) else s.blockLen
    {
      PutFills(s, data, blocks, counts, j, s.blockLen);
      SourceIs(s, j, s.blockLen);
      blocks := Put(blocks, j, s.blockLen, data[pos]);
      counts := counts[j := s.blockLen + 1];
      pos := pos + 1;
    }
    assert pos == DataTotal(s) by { DataTotalIs(s); }
    for i := 0 to s.words
      invariant pos == DataTotal(s) + RowStart(i, s.numBlocks)
      invariant Buffers(s, blocks) && Filled(s, data, blocks, counts) && |counts| == s.numBlocks
      invariant forall b :: 0 <= b < s.numBlocks ==> counts[b] == DataLen(s, b) + i
    {
      for j := 0 to s.numBlocks
        invariant pos == DataTotal(s) + RowStart(i, s.numBlocks) + j
        invariant Buffers(s, blocks) && Filled(s, data, blocks, counts) && |counts| == s.numBlocks
        invariant forall b :: 0 <= b < s.numBlocks ==> counts[b] == DataLen(s, b) + if b < j then i + 1 else i
      {
        var isShort := j < s.shortBlocks;
        var k := s.blockLen + i + if isShort then 0 else 1;
        PutFills(s, data, blocks, counts, j, k);
        SourceIs(s, j, k);
        blocks := Put(blocks, j, k, data[pos]);
        counts := counts[j := k + 1];
        pos := pos + 1;
      }
      NextRow(i, s.numBlocks);
    }
    AllFilled(s, data, blocks, counts);
  }

  lemma DataTotalIs(s: Shape)
    requires s.shortBlocks <= s.numBlocks
    ensures DataTotal(s) == RowStart(s.blockLen, s.numBlocks) + (s.numBlocks - s.shortBlocks)
  {}

  lemma SourceIs(s: Shape, j: nat, k: nat)
    requires ValidShape(s)
    ensures k < s.blockLen ==> Source(s, j, k) == RowStart(k, s.numBlocks) + j
    ensures s.blockLen == k < DataLen(s, j) ==> Source(s, j, k) == RowStart(s.blockLen, s.numBlocks) + j - s.shortBlocks
    ensures k >= DataLen(s, j) ==> Source(s, j, k) == DataTotal(s) + RowStart(k - DataLen(s, j), s.numBlocks) + j
  {}

  lemma EmptyBuffers(s: Shape, data: seq<Byte>, blocks: seq<seq<Byte>>, counts: seq<nat>)
    requires ValidShape(s) && |data| == Total(s) && |blocks| == |counts| == s.numBlocks
    requires forall j :: 0 <= j < s.numBlocks ==> blocks[j] == ZeroBytes(DataLen(s, j) + s.words) && counts[j] == 0
    ensures Buffers(s, blocks) && Filled(s, data, blocks, counts)
    ensures RowStart(0, s.numBlocks) == 0
  {
    hide Total, Block;
    forall j | 0 <= j < s.numBlocks ensures BlockFilled(s, data, blocks, j, counts[j]) {
      assert blocks[j][..0] == Block(s, data, j)[..0];
    }
  }

  lemma AllFilled(s: Shape, data: seq<Byte>, blocks: seq<seq<Byte>>, counts: seq<nat>)
    requires ValidShape(s) && |data| == Total(s) && Buffers(s, blocks) && Filled(s, data, blocks, counts)
    requires |counts| == s.numBlocks && forall b :: 0 <= b < s.numBlocks ==> counts[b] == DataLen(s, b) + s.words
    ensures |blocks| == s.numBlocks
    ensures forall j :: 0 <= j < s.numBlocks ==> blocks[j] == Block(s, data, j)
  {
    hide Total, Block, Source;
    forall j | 0 <= j < s.numBlocks ensures blocks[j] == Block(s, data, j) {
      assert BlockFilled(s, data, blocks, j, counts[j]);
      var n := |blocks[j]|;
      assert blocks[j][..n] == blocks[j] && Block(s, data, j)[..n] == Block(s, data, j);
    }
  }

  /** The data parts of the first n decoded blocks. */
  function Joined(s: Shape, decoded: seq<seq<Byte>>, n: nat): seq<Byte>
    requires n <= |decoded| && forall j :: 0 <= j < |decoded| ==> s.words <= |decoded[j]|
  {
    if n == 0 then [] else Joined(s, decoded, n - 1) + decoded[n - 1][..|decoded[n - 1]| - s.words]
  }

  lemma {:induction false} JoinedIsPrefix(s: Shape, bytes: seq<Byte>, clean: seq<Byte>, decoded: seq<seq<Byte>>, n: nat)
    requires ValidShape(s) && Encodes(s, bytes, clean) && n <= |decoded| == s.numBlocks
    requires forall j :: 0 <= j < s.numBlocks ==> s.words <= |decoded[j]| && decoded[j] == Block(s, clean, j)
    ensures DataStart(s, n) <= |bytes| && Joined(s, decoded, n) == bytes[..DataStart(s, n)]
  {
    hide Total, DataTotal, Source, Block, IsCodeword;
    if n > 0 {
      JoinedIsPrefix(s, bytes, clean, decoded, n - 1);
      assert BlockEncodes(s, bytes, clean, n - 1);
      SliceInRange(s, n - 1);
      assert decoded[n - 1][..DataLen(s, n - 1)] == Slice(s, bytes, n - 1);
    }
  }

  /** A block that decodes to something decodes to its clean original whenever that is near. */
  ghost predicate Restored(s: Shape, damaged: seq<Byte>, decoded: Result<seq<Byte>>) {
    forall c :: 0 < |c| == |damaged| <= 255 && IsCodeword(c, s.words) && 2 * Distance(damaged, c) <= s.words ==>
      decoded == Ok(c)
  }

  lemma BlockRestored(s: Shape, bytes: seq<Byte>, clean: seq<Byte>, damaged: seq<Byte>, j: nat,
                      decoded: Result<seq<Byte>>)
    requires ValidShape(s) && |damaged| == Total(s) && j < s.numBlocks
    requires Recoverable(s, bytes, clean, damaged)
    requires Restored(s, Block(s, damaged, j), decoded)
    ensures decoded == Ok(Block(s, clean, j))
  {
    hide Total, DataTotal, Source, Block, IsCodeword, Distance, Slice;
    assert BlockEncodes(s, bytes, clean, j);
  }

  lemma AllRestored(s: Shape, bytes: seq<Byte>, clean: seq<Byte>, damaged: seq<Byte>, decoded: seq<seq<Byte>>)
    requires ValidShape(s) && |damaged| == Total(s) && |decoded| == s.numBlocks
    requires forall j :: 0 <= j < s.numBlocks ==> |decoded[j]| == DataLen(s, j) + s.words
    requires forall j :: 0 <= j < s.numBlocks ==> Restored(s, Block(s, damaged, j), Ok(decoded[j]))
    requires Recoverable(s, bytes, clean, damaged)
    ensures Joined(s, decoded, s.numBlocks) == bytes
  {
    hide Total, DataTotal, Source, Block, Encodes, Correctable, Restored, DataStart, Joined;
    EncodedLength(s, bytes, clean);
    forall j | 0 <= j < s.numBlocks ensures decoded[j] == Block(s, clean, j) {
      BlockRestored(s, bytes, clean, damaged, j, Ok(decoded[j]));
    }
    JoinedIsPrefix(s, bytes, clean, decoded, s.numBlocks);
    DataStartEnd(s);
    assert bytes[..|bytes|] == bytes;
  }

  lemma EncodedLength(s: Shape, bytes: seq<Byte>, clean: seq<Byte>)
    requires ValidShape(s) && Encodes(s, bytes, clean)
    ensures |bytes| == DataTotal(s) && |clean| == Total(s)
  {}

  lemma NotRestorable(s: Shape, bytes: seq<Byte>, clean: seq<Byte>, damaged: seq<Byte>, j: nat,
                      decoded: Result<seq<Byte>>)
    requires ValidShape(s) && |damaged| == Total(s) && j < s.numBlocks && decoded.Err?
    requires Restored(s, Block(s, damaged, j), decoded)
    ensures !Recoverable(s, bytes, clean, damaged)
  {
    hide Total, Block, Restored, Correctable;
    if Recoverable(s, bytes, clean, damaged) {
      BlockRestored(s, bytes, clean, damaged, j, decoded);
    }
  }

  /** Undoes Encode, also when each block has up to half as many wrong bytes as correction words. */
  method Decode(s: Shape, data: seq<Byte>) returns (res: Result<seq<Byte>>)
    requires ValidShape(s)
    ensures |data| != Total(s) ==> res.Err?
    ensures forall bytes, clean :: Recoverable(s, bytes, clean, data) ==> res == Ok(bytes)
  {
    hide Total, DataTotal, Block, Recoverable, Restored, Joined, IsCodeword, Distance;
    if |data| != Total(s) {
      WrongLength(s, data);
      return Result.Err("interleave.decode");
    }
    var blocks := Gather(s, data);
    var acc: seq<Byte> := [];
    ghost var decoded: seq<seq<Byte>> := [];
    JoinedStart(s);
    for j := 0 to s.numBlocks
      invariant |decoded| == j
      invariant forall i :: 0 <= i < j ==> |decoded[i]| == DataLen(s, i) + s.words
      invariant forall i :: 0 <= i < j ==> Restored(s, Block(s, data, i), Ok(decoded[i]))
      invariant acc == Joined(s, decoded, j)
    {
      var block := RsDecode.Decode(s.words, blocks[j]);
      RestoredIs(s, blocks[j], block);
      if block.Err? {
        NothingRecoverable(s, data, j, block);
        return Result.Err(block.error);
      }
      JoinedAppend(s, decoded, block.value);
      acc := acc + block.value[..|block.value| - s.words];
      decoded := decoded + [block.value];
    }
    AllRecovered(s, data, decoded);
    res := Ok(acc);
  }

  lemma WrongLength(s: Shape, data: seq<Byte>)
    requires ValidShape(s) && |data| != Total(s)
    ensures forall bytes, clean :: !Recoverable(s, bytes, clean, data)
  {
    hide Total, Encodes, Correctable;
    forall bytes, clean ensures !Recoverable(s, bytes, clean, data) {
      if Recoverable(s, bytes, clean, data) { EncodedLength(s, bytes, clean); }
    }
  }

  lemma NothingRecoverable(s: Shape, data: seq<Byte>, j: nat, block: Result<seq<Byte>>)
    requires ValidShape(s) && |data| == Total(s) && j < s.numBlocks && block.Err? &&
      Restored(s, Block(s, data, j), block)
    ensures forall bytes, clean :: !Recoverable(s, bytes, clean, data)
  {
    hide Total, Block, Restored, Recoverable;
    forall bytes, clean ensures !Recoverable(s, bytes, clean, data) {
      NotRestorable(s, bytes, clean, data, j, block);
    }
  }

  lemma AllRecovered(s: Shape, data: seq<Byte>, decoded: seq<seq<Byte>>)
    requires ValidShape(s) && |data| == Total(s) && |decoded| == s.numBlocks
    requires forall j :: 0 <= j < s.numBlocks ==> |decoded[j]| == DataLen(s, j) + s.words
    requires forall j :: 0 <= j < s.numBlocks ==> Restored(s, Block(s, data, j), Ok(decoded[j]))
    ensures forall bytes, clean :: Recoverable(s, bytes, clean, data) ==> Joined(s, decoded, s.numBlocks) == bytes
  {
    hide Total, Block, Restored, Recoverable, Joined;
    forall bytes, clean | Recoverable(s, bytes, clean, data) ensures Joined(s, decoded, s.numBlocks) == bytes {
      AllRestored(s, bytes, clean, data, decoded);
    }
  }

  lemma JoinedStart(s: Shape)
    ensures Joined(s, [], 0) == []
  {}

  lemma RestoredIs(s: Shape, damaged: seq<Byte>, decoded: Result<seq<Byte>>)
    requires forall c ::
      0 < |c| == |damaged| <= 255 && IsCodeword(c, s.words) && 2 * Distance(damaged, c) <= s.words ==>
               decoded == Ok(c)
    ensures Restored(s, damaged, decoded)
  {}

  lemma {:induction false} JoinedPrefix(s: Shape, decoded: seq<seq<Byte>>, next: seq<Byte>, n: nat)
    requires n <= |decoded| && s.words <= |next| && forall j :: 0 <= j < |decoded| ==> s.words <= |decoded[j]|
    ensures Joined(s, decoded + [next], n) == Joined(s, decoded, n)
  {
    if n > 0 {
      JoinedPrefix(s, decoded, next, n - 1);
    }
  }

  lemma JoinedAppend(s: Shape, decoded: seq<seq<Byte>>, next: seq<Byte>)
    requires s.words <= |next| && forall j :: 0 <= j < |decoded| ==> s.words <= |decoded[j]|
    ensures Joined(s, decoded + [next], |decoded| + 1) == Joined(s, decoded, |decoded|) + next[..|next| - s.words]
  {
    JoinedPrefix(s, decoded, next, |decoded|);
  }
}
