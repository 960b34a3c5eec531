/** The data codewords of every version and level (Table 7 of ISO/IEC 18004:2015), which the tables of qr.js give. */
module QrTables {
  import opened Gf256
  import opened ReedSolomon
  import opened Interleave
  import opened QrInfo

  const LOW_DATA: seq<nat> := [
    19, 34, 55, 80, 108, 136, 156, 194, 232, 274, 324, 370, 428, 461, 523, 589, 647, 721, 795, 861, 932, 1006,
    1094, 1174, 1276, 1370, 1468, 1531, 1631, 1735, 1843, 1955, 2071, 2191, 2306, 2434, 2566, 2702, 2812, 2956]

  const MEDIUM_DATA: seq<nat> := [
    16, 28, 44, 64, 86, 108, 124, 154, 182, 216, 254, 290, 334, 365, 415, 453, 507, 563, 627, 669, 714, 782,
    860, 914, 1000, 1062, 1128, 1193, 1267, 1373, 1455, 1541, 1631, 1725, 1812, 1914, 1992, 2102, 2216, 2334]

  const QUARTILE_DATA: seq<nat> := [
    13, 22, 34, 48, 62, 76, 88, 110, 132, 154, 180, 206, 244, 261, 295, 325, 367, 397, 445, 485, 512, 568, 614,
    664, 718, 754, 808, 871, 911, 985, 1033, 1115, 1171, 1231, 1286, 1354, 1426, 1502, 1582, 1666]

  const HIGH_DATA: seq<nat> := [
    9, 16, 26, 36, 46, 60, 66, 86, 100, 122, 140, 158, 180, 197, 223, 253, 283, 313, 341, 385, 406, 442, 464,
    514, 538, 596, 628, 661, 701, 745, 793, 845, 901, 961, 986, 1054, 1096, 1142, 1222, 1276]

  function DataCodewords(ecc: Level): seq<nat> {
    match ecc
    case Low => LOW_DATA
    case Medium => MEDIUM_DATA
    case Quartile => QUARTILE_DATA
    case High => HIGH_DATA
  }

  /** The blocks of a version leave just its data codewords beside their correction words. */
  predicate Leaves(bytes: nat, words: nat, blocks: nat, data: nat) {
    bytes == words * blocks + data
  }

  lemma LowFirst(v: nat)
    requires 0 <= v < 10
    ensures |BYTES| == |LOW_WORDS| == |LOW_BLOCKS| == |LOW_DATA| == 40
    ensures Leaves(BYTES[v], LOW_WORDS[v], LOW_BLOCKS[v], LOW_DATA[v])
  {}

  lemma LowSecond(v: nat)
    requires 10 <= v < 20
    ensures |BYTES| == |LOW_WORDS| == |LOW_BLOCKS| == |LOW_DATA| == 40
    ensures Leaves(BYTES[v], LOW_WORDS[v], LOW_BLOCKS[v], LOW_DATA[v])
  {}

  lemma LowThird(v: nat)
    requires 20 <= v < 30
    ensures |BYTES| == |LOW_WORDS| == |LOW_BLOCKS| == |LOW_DATA| == 40
    ensures Leaves(BYTES[v], LOW_WORDS[v], LOW_BLOCKS[v], LOW_DATA[v])
  {}

  lemma LowFourth(v: nat)
    requires 30 <= v < 40
    ensures |BYTES| == |LOW_WORDS| == |LOW_BLOCKS| == |LOW_DATA| == 40
    ensures Leaves(BYTES[v], LOW_WORDS[v], LOW_BLOCKS[v], LOW_DATA[v])
  {}

  lemma MediumFirst(v: nat)
    requires 0 <= v < 10
    ensures |BYTES| == |MEDIUM_WORDS| == |MEDIUM_BLOCKS| == |MEDIUM_DATA| == 40
    ensures Leaves(BYTES[v], MEDIUM_WORDS[v], MEDIUM_BLOCKS[v], MEDIUM_DATA[v])
  {}

  lemma MediumSecond(v: nat)
    requires 10 <= v < 20
    ensures |BYTES| == |MEDIUM_WORDS| == |MEDIUM_BLOCKS| == |MEDIUM_DATA| == 40
    ensures Leaves(BYTES[v], MEDIUM_WORDS[v], MEDIUM_BLOCKS[v], MEDIUM_DATA[v])
  {}

  lemma MediumThird(v: nat)
    requires 20 <= v < 30
    ensures |BYTES| == |MEDIUM_WORDS| == |MEDIUM_BLOCKS| == |MEDIUM_DATA| == 40
    ensures Leaves(BYTES[v], MEDIUM_WORDS[v], MEDIUM_BLOCKS[v], MEDIUM_DATA[v])
  {}

  lemma MediumFourth(v: nat)
    requires 30 <= v < 40
    ensures |BYTES| == |MEDIUM_WORDS| == |MEDIUM_BLOCKS| == |MEDIUM_DATA| == 40
    ensures Leaves(BYTES[v], MEDIUM_WORDS[v], MEDIUM_BLOCKS[v], MEDIUM_DATA[v])
  {}

  lemma QuartileFirst(v: nat)
    requires 0 <= v < 10
    ensures |BYTES| == |QUARTILE_WORDS| == |QUARTILE_BLOCKS| == |QUARTILE_DATA| == 40
    ensures Leaves(BYTES[v], QUARTILE_WORDS[v], QUARTILE_BLOCKS[v], QUARTILE_DATA[v])
  {}

  lemma QuartileSecond(v: nat)
    requires 10 <= v < 20
    ensures |BYTES| == |QUARTILE_WORDS| == |QUARTILE_BLOCKS| == |QUARTILE_DATA| == 40
    ensures Leaves(BYTES[v], QUARTILE_WORDS[v], QUARTILE_BLOCKS[v], QUARTILE_DATA[v])
  {}

  lemma QuartileThird(v: nat)
    requires 20 <= v < 30
    ensures |BYTES| == |QUARTILE_WORDS| == |QUARTILE_BLOCKS| == |QUARTILE_DATA| == 40
    ensures Leaves(BYTES[v], QUARTILE_WORDS[v], QUARTILE_BLOCKS[v], QUARTILE_DATA[v])
  {}

  lemma QuartileFourth(v: nat)
    requires 30 <= v < 40
    ensures |BYTES| == |QUARTILE_WORDS| == |QUARTILE_BLOCKS| == |QUARTILE_DATA| == 40
    ensures Leaves(BYTES[v], QUARTILE_WORDS[v], QUARTILE_BLOCKS[v], QUARTILE_DATA[v])
  {}

  lemma HighFirst(v: nat)
    requires 0 <= v < 10
    ensures |BYTES| == |HIGH_WORDS| == |HIGH_BLOCKS| == |HIGH_DATA| == 40
    ensures Leaves(BYTES[v], HIGH_WORDS[v], HIGH_BLOCKS[v], HIGH_DATA[v])
  {}

  lemma HighSecond(v: nat)
    requires 10 <= v < 20
    ensures |BYTES| == |HIGH_WORDS| == |HIGH_BLOCKS| == |HIGH_DATA| == 40
    ensures Leaves(BYTES[v], HIGH_WORDS[v], HIGH_BLOCKS[v], HIGH_DATA[v])
  {}

  lemma HighThird(v: nat)
    requires 20 <= v < 30
    ensures |BYTES| == |HIGH_WORDS| == |HIGH_BLOCKS| == |HIGH_DATA| == 40
    ensures Leaves(BYTES[v], HIGH_WORDS[v], HIGH_BLOCKS[v], HIGH_DATA[v])
  {}

  lemma HighFourth(v: nat)
    requires 30 <= v < 40
    ensures |BYTES| == |HIGH_WORDS| == |HIGH_BLOCKS| == |HIGH_DATA| == 40
    ensures Leaves(BYTES[v], HIGH_WORDS[v], HIGH_BLOCKS[v], HIGH_DATA[v])
  {}

  lemma LowLeaves(v: nat)
    requires v < 40
    ensures |BYTES| == |LOW_WORDS| == |LOW_BLOCKS| == |LOW_DATA| == 40
    ensures Leaves(BYTES[v], LOW_WORDS[v], LOW_BLOCKS[v], LOW_DATA[v])
  {
    hide Leaves;
    if v < 10 {
      LowFirst(v);
    } else if v < 20 {
      LowSecond(v);
    } else if v < 30 {
      LowThird(v);
    } else {
      LowFourth(v);
    }
  }

  lemma MediumLeaves(v: nat)
    requires v < 40
    ensures |BYTES| == |MEDIUM_WORDS| == |MEDIUM_BLOCKS| == |MEDIUM_DATA| == 40
    ensures Leaves(BYTES[v], MEDIUM_WORDS[v], MEDIUM_BLOCKS[v], MEDIUM_DATA[v])
  {
    hide Leaves;
    if v < 10 {
      MediumFirst(v);
    } else if v < 20 {
      MediumSecond(v);
    } else if v < 30 {
      MediumThird(v);
    } else {
      MediumFourth(v);
    }
  }

  lemma QuartileLeaves(v: nat)
    requires v < 40
    ensures |BYTES| == |QUARTILE_WORDS| == |QUARTILE_BLOCKS| == |QUARTILE_DATA| == 40
    ensures Leaves(BYTES[v], QUARTILE_WORDS[v], QUARTILE_BLOCKS[v], QUARTILE_DATA[v])
  {
    hide Leaves;
    if v < 10 {
      QuartileFirst(v);
    } else if v < 20 {
      QuartileSecond(v);
    } else if v < 30 {
      QuartileThird(v);
    } else {
      QuartileFourth(v);
    }
  }

  lemma HighLeaves(v: nat)
    requires v < 40
    ensures |BYTES| == |HIGH_WORDS| == |HIGH_BLOCKS| == |HIGH_DATA| == 40
    ensures Leaves(BYTES[v], HIGH_WORDS[v], HIGH_BLOCKS[v], HIGH_DATA[v])
  {
    hide Leaves;
    if v < 10 {
      HighFirst(v);
    } else if v < 20 {
      HighSecond(v);
    } else if v < 30 {
      HighThird(v);
    } else {
      HighFourth(v);
    }
  }

  lemma TablesLeave(ver: nat, ecc: Level)
    requires 1 <= ver <= 40
    ensures |BYTES| == |WordsPerBlock(ecc)| == |EccBlocks(ecc)| == |DataCodewords(ecc)| == 40
    ensures Leaves(BYTES[ver - 1], WordsPerBlock(ecc)[ver - 1], EccBlocks(ecc)[ver - 1], DataCodewords(ecc)[ver - 1])
  {
    hide Leaves;
    match ecc
    case Low => LowLeaves(ver - 1);
    case Medium => MediumLeaves(ver - 1);
    case Quartile => QuartileLeaves(ver - 1);
    case High => HighLeaves(ver - 1);
  }

  lemma CapacityIs(ver: nat, ecc: Level)
    requires 1 <= ver <= 40
    ensures |BYTES| == |WordsPerBlock(ecc)| == |EccBlocks(ecc)| == 40
    ensures Fits(BYTES[ver - 1], WordsPerBlock(ecc)[ver - 1], EccBlocks(ecc)[ver - 1])
    ensures Capacity(ver, ecc) == ShapeFor(BYTES[ver - 1], WordsPerBlock(ecc)[ver - 1], EccBlocks(ecc)[ver - 1])
  {
    hide Fits, ShapeFor, WordsPerBlock, EccBlocks;
    TablesFit(ver, ecc);
  }

  /** Every version and level holds the data codewords of the standard. */
  lemma DataCodewordsFit(ver: nat, ecc: Level)
    requires 1 <= ver <= 40
    ensures |DataCodewords(ecc)| == 40 && ValidShape(Capacity(ver, ecc))
    ensures DataTotal(Capacity(ver, ecc)) == DataCodewords(ecc)[ver - 1]
  {
    hide Fits, ShapeFor, WordsPerBlock, EccBlocks, DataCodewords, DataTotal, ValidShape;
    TablesLeave(ver, ecc);
    CapacityIs(ver, ecc);
    ShapeForFits(BYTES[ver - 1], WordsPerBlock(ecc)[ver - 1], EccBlocks(ecc)[ver - 1]);
  }

  // ---- Where the bytes stand ----

  lemma SliceAt(s: Shape, bytes: seq<Byte>, data: seq<Byte>, j: nat, k: nat)
    requires ValidShape(s) && Encodes(s, bytes, data) && j < s.numBlocks && k < DataLen(s, j)
    ensures DataStart(s, j) + k < |bytes| && 0 <= Source(s, j, k) < |data|
    ensures data[Source(s, j, k)] == bytes[DataStart(s, j) + k]
  {
    hide IsCodeword, DataStart, DataTotal, Total, Source, Slice;
    SliceInRange(s, j);
    SourceInRange(s, j, k);
    assert BlockEncodes(s, bytes, data, j);
    SliceIs(s, bytes, j, k);
    assert Block(s, data, j)[k] == data[Source(s, j, k)];
  }

  lemma SliceIs(s: Shape, bytes: seq<Byte>, j: nat, k: nat)
    requires s.shortBlocks <= s.numBlocks && j < s.numBlocks && |bytes| == DataTotal(s) && k < DataLen(s, j)
    ensures DataStart(s, j) + k < |bytes| && Slice(s, bytes, j)[k] == bytes[DataStart(s, j) + k]
  {
    hide DataStart, DataTotal;
    SliceInRange(s, j);
  }

  /**
   * The data bytes go to the blocks in turn, the first shortBlocks of which take blockLen bytes and the others one
   * more, and the symbol shows the first bytes of all blocks, then the second, and so on; the bytes by which the
   * others are longer stand together at the end.
   */
  lemma DataStandsInColumns(s: Shape, bytes: seq<Byte>, data: seq<Byte>, j: nat, k: nat)
    requires ValidShape(s) && Encodes(s, bytes, data) && j < s.numBlocks
    requires k < s.blockLen || (k == s.blockLen && j >= s.shortBlocks)
    ensures var from := j * s.blockLen + (if j < s.shortBlocks then 0 else j - s.shortBlocks) + k;
      var to := k * s.numBlocks + if k < s.blockLen then j else j - s.shortBlocks;
      0 <= from < |bytes| && 0 <= to < |data| && data[to] == bytes[from]
  {
    hide Encodes, DataStart;
    SliceAt(s, bytes, data, j, k);
    DataStartClosed(s, j);
  }
}
