/** The size tables of qr.js (info.capacity and its tables, versions 1 to 40). */
module QrInfo {
  import opened Interleave

  datatype Level = Low | Medium | Quartile | High

  const BYTES: seq<nat> := [
     26, 44, 70, 100, 134, 172, 196, 242, 292, 346, 404, 466, 532, 581, 655, 733, 815, 901, 991, 1085, 1156,
     1258, 1364, 1474, 1588, 1706, 1828, 1921, 2051, 2185, 2323, 2465, 2611, 2761, 2876, 3034, 3196, 3362,
     3532, 3706]

  const LOW_WORDS: seq<nat> := [
     7, 10, 15, 20, 26, 18, 20, 24, 30, 18, 20, 24, 26, 30, 22, 24, 28, 30, 28, 28, 28, 28, 30, 30, 26, 28,
     30, 30, 30, 30, 30, 30, 30, 30, 30, 30, 30, 30, 30, 30]

  const LOW_BLOCKS: seq<nat> := [
     1, 1, 1, 1, 1, 2, 2, 2, 2, 4, 4, 4, 4, 4, 6, 6, 6, 6, 7, 8, 8, 9, 9, 10, 12, 12, 12, 13, 14, 15, 16, 17,
     18, 19, 19, 20, 21, 22, 24, 25]

  const MEDIUM_WORDS: seq<nat> := [
     10, 16, 26, 18, 24, 16, 18, 22, 22, 26, 30, 22, 22, 24, 24, 28, 28, 26, 26, 26, 26, 28, 28, 28, 28, 28,
     28, 28, 28, 28, 28, 28, 28, 28, 28, 28, 28, 28, 28, 28]

  const MEDIUM_BLOCKS: seq<nat> := [
     1, 1, 1, 2, 2, 4, 4, 4, 5, 5, 5, 8, 9, 9, 10, 10, 11, 13, 14, 16, 17, 17, 18, 20, 21, 23, 25, 26, 28,
     29, 31, 33, 35, 37, 38, 40, 43, 45, 47, 49]

  const QUARTILE_WORDS: seq<nat> := [
     13, 22, 18, 26, 18, 24, 18, 22, 20, 24, 28, 26, 24, 20, 30, 24, 28, 28, 26, 30, 28, 30, 30, 30, 30, 28,
     30, 30, 30, 30, 30, 30, 30, 30, 30, 30, 30, 30, 30, 30]

  const QUARTILE_BLOCKS: seq<nat> := [
     1, 1, 2, 2, 4, 4, 6, 6, 8, 8, 8, 10, 12, 16, 12, 17, 16, 18, 21, 20, 23, 23, 25, 27, 29, 34, 34, 35, 38,
     40, 43, 45, 48, 51, 53, 56, 59, 62, 65, 68]

  const HIGH_WORDS: seq<nat> := [
     17, 28, 22, 16, 22, 28, 26, 26, 24, 28, 24, 28, 22, 24, 24, 30, 28, 28, 26, 28, 30, 24, 30, 30, 30, 30,
     30, 30, 30, 30, 30, 30, 30, 30, 30, 30, 30, 30, 30, 30]

  const HIGH_BLOCKS: seq<nat> := [
     1, 1, 2, 4, 4, 4, 5, 6, 8, 8, 11, 11, 16, 16, 18, 16, 19, 21, 25, 25, 25, 34, 30, 32, 35, 37, 40, 42,
     45, 48, 51, 54, 57, 60, 63, 66, 70, 74, 77, 81]

  function WordsPerBlock(ecc: Level): seq<nat> {
    match ecc
    case Low => LOW_WORDS
    case Medium => MEDIUM_WORDS
    case Quartile => QUARTILE_WORDS
    case High => HIGH_WORDS
  }

  function EccBlocks(ecc: Level): seq<nat> {
    match ecc
    case Low => LOW_BLOCKS
    case Medium => MEDIUM_BLOCKS
    case Quartile => QUARTILE_BLOCKS
    case High => HIGH_BLOCKS
  }

  /** What the tables must satisfy for one version. */
  predicate Fits(bytes: nat, words: nat, blocks: nat) {
    1 <= blocks && 1 <= words && (words + 1) * blocks <= bytes < 255 * blocks
  }

  lemma LowSmallFits(v: nat)
    requires v < 10
    ensures |BYTES| == |LOW_WORDS| == |LOW_BLOCKS| == 40
    ensures Fits(BYTES[v], LOW_WORDS[v], LOW_BLOCKS[v])
  {}

  lemma LowMidFits(v: nat)
    requires 10 <= v < 20
    ensures |BYTES| == |LOW_WORDS| == |LOW_BLOCKS| == 40
    ensures Fits(BYTES[v], LOW_WORDS[v], LOW_BLOCKS[v])
  {}

  lemma LowLargeFits(v: nat)
    requires 20 <= v < 40
    ensures |BYTES| == |LOW_WORDS| == |LOW_BLOCKS| == 40
    ensures Fits(BYTES[v], LOW_WORDS[v], LOW_BLOCKS[v])
  {}

  lemma MediumSmallFits(v: nat)
    requires v < 10
    ensures |BYTES| == |MEDIUM_WORDS| == |MEDIUM_BLOCKS| == 40
    ensures Fits(BYTES[v], MEDIUM_WORDS[v], MEDIUM_BLOCKS[v])
  {}

  lemma MediumMidFits(v: nat)
    requires 10 <= v < 20
    ensures |BYTES| == |MEDIUM_WORDS| == |MEDIUM_BLOCKS| == 40
    ensures Fits(BYTES[v], MEDIUM_WORDS[v], MEDIUM_BLOCKS[v])
  {}

  lemma MediumLargeFits(v: nat)
    requires 20 <= v < 40
    ensures |BYTES| == |MEDIUM_WORDS| == |MEDIUM_BLOCKS| == 40
    ensures Fits(BYTES[v], MEDIUM_WORDS[v], MEDIUM_BLOCKS[v])
  {}

  lemma QuartileSmallFits(v: nat)
    requires v < 10
    ensures |BYTES| == |QUARTILE_WORDS| == |QUARTILE_BLOCKS| == 40
    ensures Fits(BYTES[v], QUARTILE_WORDS[v], QUARTILE_BLOCKS[v])
  {}

  lemma QuartileMidFits(v: nat)
    requires 10 <= v < 20
    ensures |BYTES| == |QUARTILE_WORDS| == |QUARTILE_BLOCKS| == 40
    ensures Fits(BYTES[v], QUARTILE_WORDS[v], QUARTILE_BLOCKS[v])
  {}

  lemma QuartileLargeFits(v: nat)
    requires 20 <= v < 40
    ensures |BYTES| == |QUARTILE_WORDS| == |QUARTILE_BLOCKS| == 40
    ensures Fits(BYTES[v], QUARTILE_WORDS[v], QUARTILE_BLOCKS[v])
  {}

  lemma HighSmallFits(v: nat)
    requires v < 10
    ensures |BYTES| == |HIGH_WORDS| == |HIGH_BLOCKS| == 40
    ensures Fits(BYTES[v], HIGH_WORDS[v], HIGH_BLOCKS[v])
  {}

  lemma HighMidFits(v: nat)
    requires 10 <= v < 20
    ensures |BYTES| == |HIGH_WORDS| == |HIGH_BLOCKS| == 40
    ensures Fits(BYTES[v], HIGH_WORDS[v], HIGH_BLOCKS[v])
  {}

  lemma HighLargeFits(v: nat)
    requires 20 <= v < 40
    ensures |BYTES| == |HIGH_WORDS| == |HIGH_BLOCKS| == 40
    ensures Fits(BYTES[v], HIGH_WORDS[v], HIGH_BLOCKS[v])
  {}

  /** The data bytes of small versions, which decide the width of the count field. */
  predicate DataWithin(bytes: nat, words: nat, blocks: nat, limit: nat) {
    bytes <= words * blocks + limit
  }

  lemma LowData(v: nat)
    requires v < 26
    ensures |BYTES| == |LOW_WORDS| == |LOW_BLOCKS| == 40
    ensures DataWithin(BYTES[v], LOW_WORDS[v], LOW_BLOCKS[v], if v < 9 then 255 else 1400)
  {
    if v < 9 {
    } else if v < 18 {
    }
  }

  lemma MediumData(v: nat)
    requires v < 26
    ensures |BYTES| == |MEDIUM_WORDS| == |MEDIUM_BLOCKS| == 40
    ensures DataWithin(BYTES[v], MEDIUM_WORDS[v], MEDIUM_BLOCKS[v], if v < 9 then 255 else 1400)
  {
    if v < 9 {
    } else if v < 18 {
    }
  }

  lemma QuartileData(v: nat)
    requires v < 26
    ensures |BYTES| == |QUARTILE_WORDS| == |QUARTILE_BLOCKS| == 40
    ensures DataWithin(BYTES[v], QUARTILE_WORDS[v], QUARTILE_BLOCKS[v], if v < 9 then 255 else 1400)
  {
    if v < 9 {
    } else if v < 18 {
    }
  }

  lemma HighData(v: nat)
    requires v < 26
    ensures |BYTES| == |HIGH_WORDS| == |HIGH_BLOCKS| == 40
    ensures DataWithin(BYTES[v], HIGH_WORDS[v], HIGH_BLOCKS[v], if v < 9 then 255 else 1400)
  {
    if v < 9 {
    } else if v < 18 {
    }
  }

  lemma LowFits(v: nat)
    requires v < 40
    ensures |BYTES| == |LOW_WORDS| == |LOW_BLOCKS| == 40
    ensures Fits(BYTES[v], LOW_WORDS[v], LOW_BLOCKS[v])
  {
    hide Fits;
    if v < 10 {
      LowSmallFits(v);
    } else if v < 20 {
      LowMidFits(v);
    } else {
      LowLargeFits(v);
    }
  }

  lemma MediumFits(v: nat)
    requires v < 40
    ensures |BYTES| == |MEDIUM_WORDS| == |MEDIUM_BLOCKS| == 40
    ensures Fits(BYTES[v], MEDIUM_WORDS[v], MEDIUM_BLOCKS[v])
  {
    hide Fits;
    if v < 10 {
      MediumSmallFits(v);
    } else if v < 20 {
      MediumMidFits(v);
    } else {
      MediumLargeFits(v);
    }
  }

  lemma QuartileFits(v: nat)
    requires v < 40
    ensures |BYTES| == |QUARTILE_WORDS| == |QUARTILE_BLOCKS| == 40
    ensures Fits(BYTES[v], QUARTILE_WORDS[v], QUARTILE_BLOCKS[v])
  {
    hide Fits;
    if v < 10 {
      QuartileSmallFits(v);
    } else if v < 20 {
      QuartileMidFits(v);
    } else {
      QuartileLargeFits(v);
    }
  }

  lemma HighFits(v: nat)
    requires v < 40
    ensures |BYTES| == |HIGH_WORDS| == |HIGH_BLOCKS| == 40
    ensures Fits(BYTES[v], HIGH_WORDS[v], HIGH_BLOCKS[v])
  {
    hide Fits;
    if v < 10 {
      HighSmallFits(v);
    } else if v < 20 {
      HighMidFits(v);
    } else {
      HighLargeFits(v);
    }
  }

  lemma TablesFit(ver: nat, ecc: Level)
    requires 1 <= ver <= 40
    ensures |BYTES| == |WordsPerBlock(ecc)| == |EccBlocks(ecc)| == 40
    ensures Fits(BYTES[ver - 1], WordsPerBlock(ecc)[ver - 1], EccBlocks(ecc)[ver - 1])
  {
    hide Fits;
    match ecc
    case Low => LowFits(ver - 1);
    case Medium => MediumFits(ver - 1);
    case Quartile => QuartileFits(ver - 1);
    case High => HighFits(ver - 1);
  }

  function Bytes(ver: nat): nat
    requires 1 <= ver <= 40
  {
    TablesFit(ver, Low);
    BYTES[ver - 1]
  }

  /** The block layout of a version and correction level. */
  function Capacity(ver: nat, ecc: Level): Shape
    requires 1 <= ver <= 40
  {
    TablesFit(ver, ecc);
    ShapeFor(BYTES[ver - 1], WordsPerBlock(ecc)[ver - 1], EccBlocks(ecc)[ver - 1])
  }

  function ShapeFor(bytes: nat, words: nat, numBlocks: nat): Shape
    requires Fits(bytes, words, numBlocks)
  {
    QuotientBetween(bytes, numBlocks, words);
    Shape(words, numBlocks, numBlocks - bytes % numBlocks, bytes / numBlocks - words)
  }

  lemma QuotientBetween(bytes: nat, n: nat, words: nat)
    requires 1 <= n && (words + 1) * n <= bytes < 255 * n
    ensures words < bytes / n <= 254
  {}

  lemma ShapeForFits(bytes: nat, words: nat, numBlocks: nat)
    requires Fits(bytes, words, numBlocks)
    ensures var s := ShapeFor(bytes, words, numBlocks);
      ValidShape(s) && Total(s) == bytes && DataTotal(s) == bytes - words * numBlocks
  {}

  /** Every version's blocks fit the code and together take exactly the version's bytes. */
  lemma CapacityFits(ver: nat, ecc: Level)
    requires 1 <= ver <= 40
    ensures ValidShape(Capacity(ver, ecc)) && Total(Capacity(ver, ecc)) == Bytes(ver)
    ensures DataTotal(Capacity(ver, ecc)) == Bytes(ver) - Capacity(ver, ecc).words * Capacity(ver, ecc).numBlocks
  {
    hide Fits;
    TablesFit(ver, ecc);
    ShapeForFits(BYTES[ver - 1], WordsPerBlock(ecc)[ver - 1], EccBlocks(ecc)[ver - 1]);
  }

  lemma TableData(ver: nat, ecc: Level)
    requires 1 <= ver <= 26
    ensures |BYTES| == |WordsPerBlock(ecc)| == |EccBlocks(ecc)| == 40
    ensures DataWithin(BYTES[ver - 1], WordsPerBlock(ecc)[ver - 1], EccBlocks(ecc)[ver - 1],
                       if ver <= 9 then 255 else 1400)
  {
    hide DataWithin;
    LowData(ver - 1);
    MediumData(ver - 1);
    QuartileData(ver - 1);
    HighData(ver - 1);
  }

  lemma ShapeData(bytes: nat, words: nat, numBlocks: nat, limit: nat)
    requires Fits(bytes, words, numBlocks) && DataWithin(bytes, words, numBlocks, limit)
    ensures var s := ShapeFor(bytes, words, numBlocks);
      ValidShape(s) && DataTotal(s) <= limit
  {}

  lemma DataBytesWithin(ver: nat, ecc: Level)
    requires 1 <= ver <= 40
    ensures ValidShape(Capacity(ver, ecc))
    ensures DataTotal(Capacity(ver, ecc)) <= if ver <= 9 then 255 else if ver <= 26 then 1400 else 3706
  {
    hide Fits, DataTotal, DataWithin, ShapeFor, ValidShape, WordsPerBlock, EccBlocks;
    TablesFit(ver, ecc);
    var (bytes, words, blocks) := (BYTES[ver - 1], WordsPerBlock(ecc)[ver - 1], EccBlocks(ecc)[ver - 1]);
    if ver <= 26 {
      TableData(ver, ecc);
      ShapeData(bytes, words, blocks, if ver <= 9 then 255 else 1400);
    } else {
      LargestVersion(ver - 1);
      ShapeForFits(bytes, words, blocks);
    }
  }

  lemma LargestVersion(v: nat)
    requires v < 40
    ensures |BYTES| == 40 && BYTES[v] <= 3706
  {}
}
