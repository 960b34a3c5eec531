# Fulmine: verified models of its codecs, decimals and delegate protocol

Fulmine is a wallet daemon for the Ark protocol. This project models the parts of it where a mistake is hardest to
see, and proves what each part is for.

**QR codec** (`internal/interface/web/static/qr.js`, after ISO/IEC 18004:2015, sections 7.4 to 7.8). `Gf256` derives
the laws of the field from the two generated tables; `Poly` and `PolyArrays` relate the array loops to polynomials;
`ReedSolomon`, `KeyEquation`, `ErrorLocator`, `Euclid` and `RsDecode` show that decoding restores every codeword with
at most half as many wrong bytes as correction words; `Interleave`, `Zigzag` and `BitStream` build on that, and
`Masks` holds the eight masks. What all of these put where is said once more in the terms of the standard, as numbers,
tables and pictures, in `BitStreamLaws`, `SymbolPath`, `QrTables` and `TemplatePictures`. `Alignment` and `Template`
draw the function patterns of a symbol, and `TemplateRoom` counts what they leave for data in all 40 versions, so that
in `QrSymbol` every text that fits comes back from the symbol it was drawn into.

**Decimals** (`internal/interface/web/static/decimal.js`). `Words`, `LongDivision`, `Quotient`, `WordSums` and
`Multiplication` are the loops on base 10^7 words. `Rounding` defines what each of the nine modes selects, on integers
and independently of digits; `Finalise` and `Decimals` show that `finalise` does that, and `Division`,
`Multiplication`, `Addition` and `PlusMinus` that each operation is the exact result, rounded once. `DecimalLaws` says
what such results satisfy, whatever computes them. `UnitToggle` and `DecimalText` hold the conversions of the user
interface and the text format. Products and sums of words, and the leading words that give a trial digit, pass through
`Words.Safe`, which asks for 53 bits; quotients and remainders pass through `Words.ToInt32`, which is the identity
only below 2^31. `Safe` therefore proves that no such intermediate loses a bit, and the value contracts of the loops
would fail if the truncation ever changed one.

**Delegate protocol** (`delegate_service.go`, `delegate_batch_handler.go`). `Tasks` is the abstract repository,
`DelegateProtocol` the steps of every goroutine over the repository, the map of registered intents, the mutex and the
buffer of spent outpoints, and `DelegateSafety` the invariant and what it means for whole runs, restarts included;
scheduled jobs run once. `DelegateRuns` names the step behind every move of a goroutine; from there `DelegateOrigins`
and `DelegateOutcomes` lead what a run adds, replaces and settles back to the submissions and answers that caused it,
`DelegateTracking` shows that no pending delegate task is lost without a fault, `DelegateSessions` what sessions
select and forget, and `DelegateMonitor` that no spent outpoint is lost. `Forfeits` models which forfeits are accepted
and which transactions are submitted, and `DelegateBatches` which delegate tasks a session can select for that.

**Unlocking** (`service.go`). `UnlockGate` gives every goroutine of `UnlockNode`, `LockNode` and the readiness check a
program counter, `GateChecks` says what a check has seen before it lets a call through, and `UnlockRuns` gives runs
from the start to the states in which things go wrong.

**Migration and stores**. `Migration` is the restartable loop over legacy rows. `OutpointText`, `BadgerStore` and
`SqliteStore` show that both stores implement the operations of `Tasks`. `Bip21` is the payment URI, read from any
text.

Findings, each stated by a lemma:

- A batch session can select one delegate task twice: registering it again after a failed batch keeps the older
  intent, and when the server names both intents in one event, both are selected. `submitForfeitTxs` then submits two
  transactions that spend the same vtxo with two connectors (`DelegateBatches.SelectionCanRepeat`,
  `DelegateBatches.RepeatedSelectionSpendsTwice`). It can also select a cancelled delegate task together with the one
  that replaced it on the same inputs (`DelegateBatches.SelectionCanOverlap`). `Forfeits.SpentOnceExactly` and
  `DelegateBatches.PendingSpentOnceExactly` say exactly when each vtxo is spent once.
- A call of `UnlockNode` that fails between unlocking the wallet and making the channel, or an unwinding whose re-lock
  fails, leaves a wallet that neither `UnlockNode` nor `LockNode` can move again (`UnlockGate.StuckExactly`,
  `UnlockGate.StuckToTheEnd`, with runs that get there in `UnlockRuns.StuckAfterConfig` and
  `UnlockRuns.StuckAfterRelock`); the comment on `unwindFailedUnlock` promises a clean locked state.
- A failed sync goes unnoticed: the event is stored whatever it says, so the check whether it is there always passes
  (`UnlockGate.SyncFailureIsIgnored`), and the gate opens (`UnlockRuns.GateOpensAfterFailedSync` is a run). Behind an
  open gate the wallet is synced if and only if the event of the last unlock said so
  (`UnlockGate.OpenGateSyncedExactly`).
- The readiness check reads its fields one after the other and can pass beside `LockNode` after the signer key is gone
  (`UnlockRuns.GatePassesWithoutKey` is a run, `UnlockGate.PassingGate` the exact condition).
- `finalise` turns an exact zero into a unit when it is asked for fewer than no digits in a mode that rounds away from
  zero (`Decimals.Overshoots`, `Decimals.RoundZero`); no caller modelled here asks for that.
- The page limits of the sqlite `GetAll` count joined rows, not delegate tasks, so a page can cut one in half
  (`SqliteStore.PageCanSplitTask`, with the exact condition in `SqliteStore.PageKeepsInputs`); a page of badger holds
  whole delegate tasks (`BadgerStore.Repository.GetAll`).
- The outcome of the migration is independent of crashes if and only if legacy rows with one id that is not recorded
  yet have one script (`Migration.CrashProofExactly`). A legacy table keyed by that id has no two such rows.

## Model

| member | source | states |
|---|---|---|
| Gf256.BuildTables | internal/interface/web/static/qr.js:502-513 | the loop leaves the powers of 2 modulo the polynomial 285 in one table and the logarithms in the other, log(1) being overwritten |
| Gf256.ExpInjective | internal/interface/web/static/qr.js:502-514 | the 255 powers of the generator are different |
| Gf256.ExpSurjective | internal/interface/web/static/qr.js:502-519 | every nonzero byte is a power of the generator, so a logarithm exists |
| Gf256.MulAssociates | internal/interface/web/static/qr.js:520-524 | table multiplication is associative, zero included |
| Gf256.MulDistributes | internal/interface/web/static/qr.js:520-525 | table multiplication distributes over exclusive or |
| Gf256.MulInverse | internal/interface/web/static/qr.js:527-531 | the table inverse is one |
| PolyArrays.MulPoly | internal/interface/web/static/qr.js:553-563 | the convolution loop in one buffer computes the product of the polynomials, without leading zeros |
| PolyArrays.AddPoly | internal/interface/web/static/qr.js:584-601 | adding arrays of different lengths computes the sum of the polynomials, without leading zeros |
| PolyArrays.MulPolyMonomial | internal/interface/web/static/qr.js:574-583 | multiplication by a monomial, without leading zeros |
| PolyArrays.EvalPoly | internal/interface/web/static/qr.js:621-628 | Horner's loop and the shortcut at zero compute the value of the polynomial |
| PolyArrays.RemainderPoly | internal/interface/web/static/qr.js:602-614 | data is a multiple of a monic divisor plus the returned remainder, which has fewer entries than the divisor |
| ReedSolomon.DivisorPoly | internal/interface/web/static/qr.js:615-620 | the generator is the product of the x + 2^i |
| ReedSolomon.GeneratorRoots | internal/interface/web/static/qr.js:615-620 | its roots include 2^0 to 2^(n-1) |
| ReedSolomon.Encode | internal/interface/web/static/qr.js:667-672 | a message followed by its correction words is a multiple of the generator and has only zero syndromes |
| KeyEquation.KeyEquation | internal/interface/web/static/qr.js:673-688 | locator times syndromes is the evaluator modulo x^R, for every set of errors |
| ErrorLocator.LocatorRoots | internal/interface/web/static/qr.js:689-694 | the roots of the locator are exactly the inverse locations of the errors |
| ErrorLocator.LocatorUnique | internal/interface/web/static/qr.js:643-663 | what the Euclid loop ends with is the locator and the evaluator up to one common factor, when at most half as many errors as syndromes exist |
| Euclid.Divide | internal/interface/web/static/qr.js:643-655 | the inner loop terminates with quotient and remainder, the remainder having lower degree, which makes the failure after it unreachable |
| Euclid.StepDegrees | internal/interface/web/static/qr.js:643-655 | a pass keeps deg t + deg of the previous r constant |
| Euclid.Euclidian | internal/interface/web/static/qr.js:630-663 | the loop terminates with r equal to t times the syndromes modulo x^R, coprime rows and deg t at most R/2, and fails only when t(0) is zero |
| RsDecode.Syndromes | internal/interface/web/static/qr.js:675-683 | the syndrome array, highest first, and an exact error flag |
| RsDecode.SearchFindsFaults | internal/interface/web/static/qr.js:689-696 | trying the bytes 1 to 255 as roots finds exactly the positions of the wrong bytes |
| RsDecode.CorrectedIsCodeword | internal/interface/web/static/qr.js:697-709 | the magnitudes computed from evaluator and denominators turn the damaged word into the codeword |
| RsDecode.NoSyndromeNoFault | internal/interface/web/static/qr.js:684-685 | returning the word when all syndromes are zero is right: at most R errors cannot cancel out |
| RsDecode.Decode | internal/interface/web/static/qr.js:673-711 | a codeword of any length is returned unchanged, and every codeword of at most 255 bytes is restored from any word that differs from it in at most half as many bytes as there are correction words |
| RsDecode.EncodeThenDecode | internal/interface/web/static/qr.js:667-686 | every message, of any length, comes back from its code |
| RsDecode.DistanceCounts | internal/interface/web/static/qr.js:676-708 | the distance that correction is promised for is the number of wrong bytes |
| Interleave.InterleaveBytes | internal/interface/web/static/qr.js:52-65 | blocks of different lengths are written column by column |
| Interleave.Encode | internal/interface/web/static/qr.js:718-734 | short and long blocks with their correction words, each byte at its computed place |
| Interleave.Decode | internal/interface/web/static/qr.js:735-760 | undoes encode for every block shape, also when each block has as many wrong bytes as its code corrects; a wrong length is an error |
| QrTables.DataStandsInColumns | internal/interface/web/static/qr.js:718-736 | the data bytes go to the blocks in turn and are shown column by column, with the places given in numbers |
| QrInfo.CapacityFits | internal/interface/web/static/qr.js:349-406 | for every version and level of the tables, the blocks fit the code and take together exactly the bytes of the version |
| QrInfo.DataBytesWithin | internal/interface/web/static/qr.js:458-489 | the data bytes of every version stay within what the count field of its size class can hold |
| QrTables.DataCodewordsFit | internal/interface/web/static/qr.js:475-488 | every version and level holds the number of data codewords that the standard tabulates |
| BitStream.EncodePayload | internal/interface/web/static/qr.js:848-871 | the groups of each mode, failing exactly on letters outside the alphabet |
| BitStream.Fill | internal/interface/web/static/qr.js:877-882 | terminator, zeros to the byte and alternating pad bytes, ending exactly at the capacity even with fewer than four spare bits |
| BitStream.Encode | internal/interface/web/static/qr.js:845-883 | succeeds exactly when letters and capacity allow it, and the bytes are that stream |
| BitStream.Read | internal/interface/web/static/qr.js:1744-1808 | the reading loops are the recursive reader, errors included, and terminate |
| BitStream.StopsAfterData | internal/interface/web/static/qr.js:1762-1770 | whatever follows the data never yields another segment or an error |
| BitStream.StreamRoundTrip | internal/interface/web/static/qr.js:845-885 | every text that fits is read back exactly, for every version, mode and capacity |
| BitStreamLaws.HeadersAre | internal/interface/web/static/qr.js:458-474 | the mode bits and the width of the count in the three ranges of versions |
| BitStreamLaws.AlphabetsAre | internal/interface/web/static/qr.js:453-457 | the number of each character of both alphabets |
| BitStreamLaws.PayloadIs | internal/interface/web/static/qr.js:848-868 | each group of bits is the number of its two or three characters, and of the one or two left over, for any text of the alphabet |
| BitStreamLaws.StreamIs | internal/interface/web/static/qr.js:874-883 | the stream goes on with up to four zero bits, zero bits to the end of a byte, and the bytes 236 and 17 in turn |
| Zigzag.VisitsOnce | internal/interface/web/static/qr.js:808-828 | for every odd size from 7 the traversal meets each cell outside column 6 once and column 6 never |
| SymbolPath.VisitedAt | internal/interface/web/static/qr.js:808-829 | the place of every module in the order of the traversal: strips from the right edge, upwards and downwards in turn, the right module first |
| Zigzag.DrawQR | internal/interface/web/static/qr.js:886-901 | drawing in the bitmap that decides which cells are free: each free cell gets its masked bit, the rest is untouched, and the failure is exact |
| SymbolPath.BitsAreShown | internal/interface/web/static/qr.js:890-898 | the module for bit m of byte q, the most significant first, is that bit inverted where the mask is dark |
| Zigzag.ReadBytes | internal/interface/web/static/qr.js:1728-1743 | reading with the shift buffer collects the unmasked free cells, failing exactly when their number does not make the expected bytes |
| SymbolPath.BitsAreRead | internal/interface/web/static/qr.js:1733-1737 | and is read so |
| Masks.PlainMasks | internal/interface/web/static/qr.js:492-494 | masks 0 to 2 are a chessboard, rows, and every third column |
| Masks.DiagonalAndBlockMasks | internal/interface/web/static/qr.js:495-496 | masks 3 and 4 are diagonals, and a chessboard of blocks three wide and two high |
| Masks.OtherMasksRepeat | internal/interface/web/static/qr.js:497-499 | masks 5 to 7 are symmetric and repeat every six modules |
| Masks.OtherMasksArePictures | internal/interface/web/static/qr.js:497-499 | and show three given pictures of six by six modules |
| Zigzag.DrawThenRead | internal/interface/web/static/qr.js:1721-1743 | what was drawn is read back, given between 8n and 8n + 7 free modules for n bytes |
| Alignment.AlignmentPatterns | internal/interface/web/static/qr.js:415-432 | the centres of the alignment patterns, the last ones evenly spaced from the far edge |
| Alignment.CentresApart | internal/interface/web/static/qr.js:415-432 | any two centres of a version are at least twelve modules apart |
| TemplatePictures.CentresAreTabled | internal/interface/web/static/qr.js:415-432 | the number of centres and the second of them are those that Annex E of the standard tabulates, the others follow evenly |
| Template.DrawFinders | internal/interface/web/static/qr.js:764-768 | the three finder patterns with separators, by distance from their centres, from bordered squares embedded at wrapped corners |
| Template.CentreIsFree | internal/interface/web/static/qr.js:771-777 | a pair of centres is skipped exactly at the three corners that finder patterns take |
| Template.DrawAlignment | internal/interface/web/static/qr.js:769-777 | every other pair gets its alignment pattern, and nothing else changes |
| Template.DrawTiming | internal/interface/web/static/qr.js:778 | the timing patterns fill what is undrawn in row and column 6 |
| Template.DrawTemplate | internal/interface/web/static/qr.js:763-807 | the whole template, module by module: finder, alignment and timing patterns, format and version bits and the dark module |
| TemplatePictures.FindersAreCorners | internal/interface/web/static/qr.js:764-768 | the three corners show a given picture of the finder pattern, mirrored, and nothing else is one |
| TemplatePictures.AlignedIs | internal/interface/web/static/qr.js:769-777 | each alignment pattern shows a given picture around its pair of centres |
| TemplatePictures.TimingAlternates | internal/interface/web/static/qr.js:778 | the timing patterns alternate without a break, through the alignment patterns on their way |
| TemplatePictures.FormatStandsTwice | internal/interface/web/static/qr.js:782-794 | each of the fifteen format bits stands at two given places |
| TemplatePictures.VersionStandsTwice | internal/interface/web/static/qr.js:796-804 | and each of the eighteen version bits |
| TemplatePictures.BitsAreDrawn | internal/interface/web/static/qr.js:779-804 | where a symbol shows them, with the dark module, and a test symbol shows light modules |
| TemplatePictures.RestIsFixed | internal/interface/web/static/qr.js:763-807 | every other module is the same for all symbols of a version |
| TemplateRoom.DrawnIs | internal/interface/web/static/qr.js:763-807 | a module is drawn just when it lies in one of ten regions |
| TemplateRoom.DataModulesLeft | internal/interface/web/static/qr.js:763-807 | the exact number of modules left for data in each version |
| TemplateRoom.TemplateHasRoom | internal/interface/web/static/qr.js:349-392 | in every version that is room for its codewords, and less than a byte more, along the zigzag |
| QrSymbol.EncodeData | internal/interface/web/static/qr.js:845-885 | the codewords of a text for every version and level, failing exactly when it cannot be written |
| QrSymbol.DecodeBitmap | internal/interface/web/static/qr.js:1721-1809 | any text whose codewords, correctably damaged, are shown is read |
| QrSymbol.RoundTrip | internal/interface/web/static/qr.js:1721-1809 | the same for any bitmap and equal template with room for the codewords |
| QrSymbol.DrawAndRead | internal/interface/web/static/qr.js:1721-1809 | drawing the template, drawing a text into it and reading it with a template drawn anew gives the text back, for every version, level, mask and mode and whatever the format and version bits |
| LongDivision.MultiplyInteger | internal/interface/web/static/decimal.js:2718-2732 | the product of an array and a word, no intermediate reaching 2^53 and no truncated one 2^31 |
| LongDivision.Compare | internal/interface/web/static/decimal.js:2734-2749 | the comparison by length and words is the comparison of values |
| LongDivision.Subtract | internal/interface/web/static/decimal.js:2751-2763 | the difference by borrowing, without leading zero words |
| LongDivision.TrialFromBelow | internal/interface/web/static/decimal.js:2876-2904 | with the leading word rounded down, the trial digit is never too small and too large by one at most, for every length |
| LongDivision.TrialFromAbove | internal/interface/web/static/decimal.js:2876-2904 | with the leading word rounded up, it is never too large and too small by one at most |
| LongDivision.DivideStep | internal/interface/web/static/decimal.js:2880-2965 | every pass leaves old remainder = digit * divisor + new remainder with the new remainder below the divisor, after at most one correction |
| Quotient.DivideShort | internal/interface/web/static/decimal.js:2841-2853 | division by one word |
| Quotient.DivideWords | internal/interface/web/static/decimal.js:2867-2969 | the words of a long quotient and its remainder, for any lengths, stopping at the end or at the requested precision |
| Quotient.DivideLong | internal/interface/web/static/decimal.js:2856-2970 | the same with the normalising factor, which scales both operands alike |
| Quotient.MoreIsExact | internal/interface/web/static/decimal.js:2853-2969 | the flag that something is left over is set exactly when the quotient words lose something |
| Quotient.QuotientExponent | internal/interface/web/static/decimal.js:2809-2821 | the number of quotient words and the comparison of the leading words give the place of the point |
| Quotient.QuotientWords | internal/interface/web/static/decimal.js:2812-2974 | the words are the quotient cut at a known power of the base, exact or strictly below it |
| Rounding.RoundedIsClose | internal/interface/web/static/decimal.js:3078-3094 | what the modes mean: never a whole unit away, to the nearest at most half a unit, and in the direction the mode names |
| Rounding.TiesAreBroken | internal/interface/web/static/decimal.js:3078-3094 | an exact half goes away from zero, towards zero, to the even neighbour, upwards or downwards, as the mode says |
| Rounding.DigitRule | internal/interface/web/static/decimal.js:3067-3094 | the decision from one digit, a sticky flag and the digit before agrees with that meaning in all nine modes |
| Rounding.TruncatedRounding | internal/interface/web/static/decimal.js:3068-3094 | it also does for a number known only to lie strictly between two neighbours |
| Amounts.CanonicalUnique | internal/interface/web/static/decimal.js:3153-3154 | two digit arrays without zeros at the ends that denote one number are equal, as are their exponents |
| Amounts.TrimmedDenotes | internal/interface/web/static/decimal.js:3209-3215 | the base 10 exponent from the base 10^7 one: the array without trailing zero words still denotes the number |
| Finalise.RoundingDigit | internal/interface/web/static/decimal.js:3023-3065 | finds the word and place of the first dropped digit in all three cases of the code |
| Finalise.DecisionAtPlace | internal/interface/web/static/decimal.js:3067-3094 | the decision taken from those words is the one that rounding the whole number asks for |
| Finalise.RemoveExcess | internal/interface/web/static/decimal.js:3113-3126 | the cut array holds exactly the kept digits |
| Finalise.AddUnit | internal/interface/web/static/decimal.js:3128-3151 | adding a unit of the last place, carries rippling through any number of words and raising the exponent |
| Finalise.RoundKept | internal/interface/web/static/decimal.js:3008-3154 | for every digit array, sd from 1 and mode, the result is the multiple of the last kept place that the mode selects, canonical again |
| DecimalLaws.ExactIsClose | internal/interface/web/static/decimal.js:2996-3147 | in units of the last digit kept, `finalise` moves an exact number by less than one, or at most half of one |
| DecimalLaws.TruncatedIsClose | internal/interface/web/static/decimal.js:2996-3147 | and likewise one that was cut |
| Decimals.RoundToNothing | internal/interface/web/static/decimal.js:3096-3111 | fewer than one digit: the result is zero or one unit, as the mode selects |
| Decimals.RoundZero | internal/interface/web/static/decimal.js:3023-3111 | what becomes of zero, exact or with something cut off, for every sd and mode |
| Decimals.Decimal.Copy | internal/interface/web/static/decimal.js:4387-4409 | a duplicate, clipped to the exponent range when `external` is set; a duplicate of it is the same (`Decimals.CopiedTwice`) |
| Decimals.Decimal.CheckRange | internal/interface/web/static/decimal.js:3157-3171 | overflow to infinity and underflow to zero |
| DecimalLaws.RangeIs | internal/interface/web/static/decimal.js:3154-3168 | a number keeps its digits from the smallest to the largest exponent, both included, and becomes zero below and infinite above |
| Decimals.Decimal.Finalise | internal/interface/web/static/decimal.js:2996-3174 | the rounded number in place for every number, sign, mode and sd, followed by the range check when digits are kept; a unit instead of zero exactly for an exact zero cut to fewer than no digits away from zero |
| Division.Divide | internal/interface/web/static/decimal.js:2765-2989 | the quotient of any two numbers rounded once to pr digits in the given mode; NaN, infinities and zeros as the code decides |
| DecimalLaws.QuotientIsClose | internal/interface/web/static/decimal.js:2782-2986 | a rounded quotient has just the digits asked for, or is the power of ten after them, and is less than one unit, or at most half of one, from the quotient |
| DecimalLaws.SignsMultiply | internal/interface/web/static/decimal.js:2786 | its sign is the product of the signs |
| Division.DividedBy | internal/interface/web/static/decimal.js:465-467 | the same at the settings of the constructor, for every divisor, clipped to the exponent range by its copy |
| Multiplication.AddRow | internal/interface/web/static/decimal.js:1942-1949 | one row adds a word times the other factor at its place, with every intermediate below 10^14 |
| Multiplication.Multiply | internal/interface/web/static/decimal.js:1935-1950 | the words are the integer product |
| Multiplication.ProductDigits | internal/interface/web/static/decimal.js:1921-1959 | the trimmed words and exponent denote the product exactly |
| Multiplication.Times | internal/interface/web/static/decimal.js:1889-1962 | the product of any two numbers rounded once, the second clipped by its copy; exactly when it is NaN, infinite or zero, and its sign |
| WordSums.AddWords | internal/interface/web/static/decimal.js:1622-1642 | the sum of arrays aligned at the front, with its carry word |
| WordSums.Borrow | internal/interface/web/static/decimal.js:1404-1407 | a borrow that ripples through zero words takes exactly one unit |
| WordSums.SubtractWords | internal/interface/web/static/decimal.js:1402-1411 | the difference of aligned arrays |
| Addition.LimitedTail | internal/interface/web/static/decimal.js:1607-1614 | an operand too small to matter may be cut to one word: the sum and the difference stay strictly between the same neighbours |
| Addition.SumDigits | internal/interface/web/static/decimal.js:1588-1649 | the sum, exact or good for rounding to pr digits in every mode, whatever the gap of exponents |
| Addition.DifferenceDigits | internal/interface/web/static/decimal.js:1334-1423 | the same for the difference, and which operand was the larger |
| Exact.DecidedBelow | internal/interface/web/static/decimal.js:1355-1363 | rounding depends only on those neighbours |
| PlusMinus.Plus | internal/interface/web/static/decimal.js:1537-1652 | the sum of any two numbers, of either sign, rounded once, the second clipped by its copy; NaN, infinities and signed zeros |
| DecimalLaws.SumsCommute | internal/interface/web/static/decimal.js:1537-1651 | sums commute, with infinities, NaN and the signs of zeros |
| DecimalLaws.SpecialSums | internal/interface/web/static/decimal.js:1554-1564 | infinities of opposite signs make NaN, and an infinity outweighs every number |
| DecimalLaws.DifferenceWithItself | internal/interface/web/static/decimal.js:1420 | a number less itself is -0 when rounding to -Infinity and 0 otherwise |
| PlusMinus.Minus | internal/interface/web/static/decimal.js:1276-1426 | the difference of any two numbers rounded once, a zero being negative only when rounding to minus infinity |
| PlusMinus.ComparedTo | internal/interface/web/static/decimal.js:226-269 | the comparison of words, exponents and signs is the comparison of values, for any two numbers, the second clipped by its copy; NaN compares to nothing |
| DecimalLaws.ComparisonsReverse | internal/interface/web/static/decimal.js:226-257 | comparing the other way round gives the opposite answer |
| DecimalLaws.SpecialComparisons | internal/interface/web/static/decimal.js:236-246 | infinities are beyond every number, and NaN compares to nothing |
| UnitToggle.FromSatoshis | internal/interface/web/templates/main_templ.go:52 | n satoshis are n units of 10^-8 bitcoin, exactly |
| UnitToggle.ToSatoshis | internal/interface/web/templates/main_templ.go:52 | and back |
| UnitToggle.ToggleTwice | internal/interface/web/templates/main_templ.go:52 | toggling the unit twice keeps sign, digits and exponent of every amount below 10^20 satoshis |
| UnitToggle.DefaultsWideEnough | internal/interface/web/static/decimal.js:28-83 | the default settings are wide enough for that |
| DecimalText.DigitsToString | internal/interface/web/static/decimal.js:2553-2582 | the text has the digits of the array, inner words filled with zeros, trailing zeros gone |
| DecimalText.DigitsInOrder | internal/interface/web/static/decimal.js:2553-2581 | the ten digits and what each stands for |
| DecimalText.FiniteToString | internal/interface/web/static/decimal.js:3176-3206 | the text is a decimal literal that denotes the number, in either notation, with no zero too many in front and zeros behind only as far as digits are asked for |
| DecimalText.ValueOf | internal/interface/web/static/decimal.js:2498-2504 | the same with the sign and without padding, scientific exactly from the exponents on that the settings name |
| DecimalText.SplitLiteral | internal/interface/web/static/decimal.js:3594-3606 | the digits and the place of the point of every literal with or without point and exponent |
| DecimalText.WordsOf | internal/interface/web/static/decimal.js:3620-3638 | the words cut from a digit string denote its value and are canonical |
| DecimalText.ParseDecimal | internal/interface/web/static/decimal.js:3591-3662 | every literal is read as the number it denotes, then checked for the exponent range |
| DecimalText.FromString | internal/interface/web/static/decimal.js:4463-4473 | a literal with or without a sign makes that number |
| DecimalText.WriteThenRead | internal/interface/web/static/decimal.js:3591-3662 | every finite number in range is read back from its text with the same sign, digits and exponent |
| DelegateSafety.StepKeeps | internal/core/application/delegate_service.go:111-155 | every step of every goroutine keeps the invariant |
| DelegateSafety.RunKeeps | internal/core/application/delegate_service.go:493-582 | so it holds in every state of every run, restarts included |
| DelegateSafety.PendingTasksDisjoint | internal/core/application/delegate_service.go:118-143 | pending delegate tasks never share an input, whatever interleaves |
| DelegateSafety.OnePendingTaskPerIntent | internal/core/application/delegate_service.go:111-118 | at most one pending delegate task per intent transaction, although the duplicate check is outside the lock and its failure is ignored |
| DelegateSafety.RegisteredIntentsMatch | internal/core/application/delegate_service.go:493-526 | every registered intent has the inputs of its stored delegate task, which was seen pending before the registration |
| DelegateSafety.CompletedTasksWereBatched | internal/core/application/delegate_batch_handler.go:40-53 | a completed delegate task carries the transaction of a finalized batch whose session had selected an intent registered for it after a check that saw it pending |
| DelegateSafety.StepSettles | internal/infrastructure/db/badger/delegate_repo.go:222-324 | a step leaves a stored delegate task alone or settles it from pending |
| DelegateSafety.TerminalForever | internal/core/application/delegate_service.go:502-505 | a delegate task leaves pending at most once and never changes once it is terminal |
| DelegateSafety.SweepClears | internal/core/application/delegate_service.go:762-788 | a sweep whose repository calls succeed leaves nothing pending on the spent outpoints it took |
| DelegateRuns.RunHasSteps | internal/core/application/delegate_service.go:95-158 | every run takes named steps, so what follows about such runs holds for every run |
| DelegateOutcomes.TasksWereSubmitted | internal/core/application/delegate_service.go:116-141 | in every run a delegate task is stored as a submission gave it, when nothing pending has one of its inputs, and a submission that must not replace others found nothing to replace |
| DelegateOutcomes.TasksAreSettledFor | internal/core/application/delegate_service.go:128-154 | it is cancelled only by a submission that may replace others and has one of its inputs, or by a sweep that took one; it fails only when it could not be scheduled or was refused; it is completed only by a session that had selected it |
| DelegateOutcomes.OverlapIsRefused | internal/core/application/delegate_service.go:124-131 | a submission that must not replace others and meets a pending delegate task on one of its inputs changes nothing, then or later |
| DelegateOutcomes.OverlapIsFound | internal/core/application/delegate_service.go:124-136 | one that may replace others goes on to cancel just those it meets |
| DelegateOutcomes.DuplicatesAreRefused | internal/core/application/delegate_service.go:111-116 | a submission goes past the duplicate check exactly when no pending delegate task has its transaction or the query fails; otherwise it changes nothing, then or later |
| DelegateOutcomes.NoReplacementWithoutLeave | internal/core/application/delegate_service.go:128-154 | a submission that must not replace others settles no stored delegate task but its own, when that could not be scheduled |
| DelegateTracking.NoPendingTaskIsLost | internal/core/application/delegate_service.go:139-154 | without a fault that concerns it, a pending delegate task always has a job, a goroutine or a session in charge of it, or a registered intent |
| DelegateSessions.IntentsChangeSo | internal/core/application/delegate_service.go:511-521 | an intent is registered with the id and inputs of its delegate task, and stays so until a session forgets it or the process restarts |
| DelegateSessions.SelectIsRegistered | internal/core/application/delegate_service.go:562-569 | a session selects the intents registered under the hashes of the event, in their order |
| DelegateSessions.FinalizedIntentsAreForgotten | internal/core/application/delegate_batch_handler.go:40-54 | when a session completes its delegate tasks, each intent it had selected has been removed since its batch was finalized |
| DelegateMonitor.NoSpentIsLost | internal/core/application/delegate_service.go:751-775 | as long as the monitor runs, a spent outpoint is waiting, taken, or has been swept |
| DelegateMonitor.SpentIsFound | internal/core/application/delegate_service.go:770-776 | its query finds just the pending delegate tasks on the outpoints taken |
| DelegateMonitor.SeenWasPending | internal/core/application/delegate_service.go:495-505 | a delegate task passes the status check of its registration only if it was pending |
| Forfeits.ValidateForfeits | internal/core/application/delegate_service.go:822-983 | accepts exactly the lists in which every forfeit has the required shape, amount and signature |
| Forfeits.AcceptForfeits | internal/core/application/delegate_service.go:191-288 | a submission is accepted exactly when all forfeits are valid and spend intent inputs; each is stored under the outpoint it spends |
| Forfeits.AcceptableIsForfeit | internal/core/application/delegate_service.go:822-983 | what is accepted spends one outpoint and pays its value and the dust amount to the forfeit address, with the anchor as second output |
| Forfeits.ExtractConnector | internal/core/application/utils.go:78-93 | the first output of a leaf that is not the anchor |
| Forfeits.HasConnectorIs | internal/core/application/utils.go:78-93 | there is one exactly when some output is not the anchor |
| Forfeits.SubmitForfeitTxs | internal/core/application/delegate_batch_handler.go:87-184 | submits nothing, or one completed transaction per collected forfeit with the connector of its own leaf, succeeding exactly when all can be completed |
| Forfeits.OnePerWantedVtxo | internal/core/application/delegate_batch_handler.go:100-144 | one forfeit for each time a non-recoverable vtxo with a stored one is met, in order, over the delegate tasks whose vtxo lookup succeeds |
| Forfeits.SpentIfNeeded | internal/core/application/delegate_batch_handler.go:121-144 | a vtxo is spent if and only if a selected delegate task has a forfeit for it and the indexer lists it for that task as not recoverable |
| Forfeits.CollectingFailsExactly | internal/core/application/delegate_batch_handler.go:99-142 | collecting fails exactly when a delegate task is missing or a forfeit that is needed cannot be read |
| Forfeits.SubmissionIsSound | internal/core/application/delegate_batch_handler.go:146-183 | each transaction spends its vtxo and its connector, pays the forfeit address, and with a dust connector pays out what it spends |
| Forfeits.SpentOnceExactly | internal/core/application/delegate_batch_handler.go:87-144 | no two transactions spend one vtxo if and only if no id with a wanted vtxo is repeated, the indexer lists none twice, and no two delegate tasks want the same |
| Forfeits.NothingTwiceExactly | internal/core/application/delegate_batch_handler.go:153-181 | with different leaves no outpoint at all is spent twice if and only if no vtxo is and none of them is a connector |
| Forfeits.RepeatedIdSpendsTwice | internal/core/application/delegate_batch_handler.go:100-144 | with a repeated id two transactions spend one vtxo with two connectors |
| Forfeits.DisjointTasksApart | internal/core/application/delegate_service.go:280-288 | delegate tasks without a common input want no vtxo in common, as forfeits are keyed by inputs |
| DelegateBatches.PendingTasksApart | internal/core/application/delegate_service.go:118-135 | in every run that holds for delegate tasks that are pending |
| DelegateBatches.PendingSpentOnceExactly | internal/core/application/delegate_batch_handler.go:87-144 | so for pending delegate tasks each vtxo is spent once if and only if no id is repeated and none is listed twice |
| DelegateBatches.SelectionCanRepeat | internal/core/application/delegate_batch_handler.go:56-67 | a run in which a delegate task is registered again after a failed batch and a session then selects it twice, under two intents |
| DelegateBatches.RepeatedSelectionSpendsTwice | internal/core/application/delegate_batch_handler.go:73-144 | whose submission spends a vtxo twice |
| DelegateBatches.SelectionCanOverlap | internal/core/application/delegate_service.go:130-135 | a run in which a session selects a cancelled delegate task beside the one that replaced it |
| Forfeits.EnoughConnectors | internal/core/application/delegate_batch_handler.go:146-151 | a submission needs a leaf for every wanted vtxo |
| UnlockGate.RunKeeps | internal/core/application/service.go:347-455 | the invariant of channel, mutex, goroutines and fields holds in every state of every run |
| UnlockGate.NeverPanics | internal/core/application/service.go:296-299 | no run sends on a closed channel or closes one twice, however often an unlock fails and is retried |
| UnlockGate.SyncNeverBlocks | internal/core/application/service.go:384-392 | a sync goroutine with its event always finds a channel to send it on |
| UnlockGate.GateOpensWhenAssembled | internal/core/application/service.go:408-448 | the gate opens only when the sync event has arrived, whatever it says, a migration was attempted and, with the delegate enabled, key and service are there |
| UnlockGate.OpenGateIsAssembled | internal/core/application/service.go:897-915 | outside `LockNode` an open gate means that wallet |
| UnlockGate.SyncFailureIsIgnored | internal/core/application/service.go:386-412 | the finishing goroutine never returns for lack of an event, so a failed sync does not stop it |
| UnlockGate.OpenGateSyncedExactly | internal/core/application/service.go:386-412 | outside `LockNode` a wallet behind an open gate is synced if and only if the event of the last unlock said so |
| UnlockGate.FailureUnwinds | internal/core/application/service.go:307-345 | after loading the key failed, the seventh step of that goroutine, if the re-lock in it succeeds, leaves the clean locked state, whatever runs beside it |
| UnlockGate.Unwinding | internal/core/application/service.go:410-424 | until then the goroutine can always take its next step, and has as many left as it has not taken |
| UnlockGate.StuckForever | internal/core/application/service.go:347-353 | a wallet left unlocked behind a shut gate stays so |
| UnlockGate.StuckToTheEnd | internal/core/application/service.go:347-353 | over the rest of every run |
| UnlockGate.StuckExactly | internal/core/application/service.go:359-378 | the steps that lead there are exactly the failures after unlocking and before the channel, and the failed re-lock |
| UnlockGate.GateCanPassWhileLocking | internal/core/application/service.go:257-271 | a readiness check can pass after `LockNode` dropped the signer key |
| UnlockGate.PassingGate | internal/core/application/service.go:897-915 | and it finds the key as configured if and only if `LockNode` is not between dropping the key and lowering the gate, or the delegate is off |
| GateChecks.PassedGateSawAll | internal/core/application/service.go:897-915 | in every run a check that passed saw the wallet unlocked, then synced, then ready, and one that was refused met a moment without one of these |
| GateChecks.CallsPassTheirGates | internal/core/application/service.go:257-353 | `LockNode` takes the wallet apart only after it saw the same, and `UnlockNode` opens it only after it saw it locked |
| UnlockRuns.StuckAfterConfig | internal/core/application/service.go:366-369 | a run from the start to a stuck wallet, by an unlock that fails to read the configuration |
| UnlockRuns.StuckAfterRelock | internal/core/application/service.go:342-344 | and one by a failed re-lock |
| UnlockRuns.GatePassesWithoutKey | internal/core/application/service.go:257-271 | a run in which a readiness check passes when the wallet is locked and the signer key gone |
| UnlockRuns.GateOpensAfterFailedSync | internal/core/application/service.go:386-446 | a run in which the gate opens after a sync that failed |
| Migration.Migrator.MigrateVhtlcs | internal/core/application/vhtlc_migration.go:112-181 | the loop with every failure point is the fold of its passes; the legacy table is dropped exactly when nothing was skipped and the drop succeeds |
| Migration.NoSkipMeansAll | internal/core/application/vhtlc_migration.go:131-176 | a pass without a skip found or recorded every row |
| Migration.MigratedCounts | internal/core/application/vhtlc_migration.go:170-174 | the number reported as migrated is that of the ids newly recorded |
| Migration.UnrecordedRow | internal/core/application/vhtlc_migration.go:131-174 | a row that can be rebuilt is recorded unless a call it needs fails |
| Migration.DropsExactly | internal/core/application/vhtlc_migration.go:131-180 | an undisturbed pass drops the legacy table exactly when each row is recorded or can be |
| Migration.DroppedOnlyWhenComplete | internal/core/application/vhtlc_migration.go:176-180 | after any number of crashed starts, the legacy table is gone only when every id is in the new one |
| Migration.EachScriptImportedOnce | internal/core/application/vhtlc_migration.go:153-168 | no script is imported twice over all starts, nor one that was tracked |
| Migration.RecordedIsTracked | internal/core/application/vhtlc_migration.go:147-174 | over all starts, what is newly recorded is tracked, and just those scripts are newly tracked that were imported |
| Migration.DroppedMeansImported | internal/core/application/vhtlc_migration.go:147-180 | once the legacy table is gone, each newly recorded script is tracked, and was imported exactly once unless it was tracked before |
| Migration.CrashesDoNotMatter | internal/core/application/vhtlc_migration.go:109-181 | an undisturbed start after any history leaves the table of a single undisturbed run, when rows with one unrecorded id have one script |
| Migration.CrashProofExactly | internal/core/application/vhtlc_migration.go:131-176 | and only then: for any rows with a clash there is a history after which the table differs |
| Migration.OneIdTwoScripts | internal/core/application/vhtlc_migration.go:142-145 | an instance: two rows with one id and two scripts, and one failed lookup |
| OutpointText.KeyParses | internal/infrastructure/db/badger/delegate_repo.go:380-402 | a key split at its last colon gives back its outpoint |
| OutpointText.OutpointParses | internal/infrastructure/db/sqlite/delegate_repo.go:84-87 | the stricter reader of the outpoint column gives back the outpoint too |
| OutpointText.KeysDistinct | internal/infrastructure/db/badger/delegate_repo.go:433-436 | different outpoints have different keys |
| OutpointText.HexDigits | internal/infrastructure/db/badger/delegate_repo.go:397-400 | the hexadecimal digits and their lower case |
| OutpointText.HashReads | internal/infrastructure/db/badger/delegate_repo.go:397-400 | on any text, a hash is read from at most 64 hexadecimal digits, in lower case and after zeros for those missing |
| OutpointText.IndexReads | internal/infrastructure/db/badger/delegate_repo.go:393-396 | and an index from the digits in front, which must be some and below 2^32 |
| OutpointText.KeyReads | internal/infrastructure/db/badger/delegate_repo.go:380-401 | a key is cut at its last colon, and both parts must be read |
| OutpointText.OutpointReads | internal/infrastructure/db/sqlite/delegate_repo.go:84-87 | the outpoint column is read exactly when it is 64 hexadecimal digits, a colon and a 32-bit number |
| BadgerStore.ToTask | internal/infrastructure/db/badger/delegate_repo.go:349-418 | conversion succeeds exactly when every hash and key can be parsed, and yields a delegate task the record reads as |
| BadgerStore.RecordRoundTrip | internal/infrastructure/db/badger/delegate_repo.go:349-451 | a stored delegate task is read back unchanged, up to whole seconds of its schedule |
| BadgerStore.KeptIs | internal/infrastructure/db/badger/delegate_repo.go:411-413 | which means that only the schedule can differ, by less than a second |
| BadgerStore.Repository.Add | internal/infrastructure/db/badger/delegate_repo.go:40-49 | adds to the abstract map, failing exactly for an id that is taken |
| BadgerStore.Repository.GetByID | internal/infrastructure/db/badger/delegate_repo.go:51-70 | reads the abstract map |
| BadgerStore.Repository.SettleTasks | internal/infrastructure/db/badger/delegate_repo.go:222-324 | the three loops are the abstract settling of the ids before the first pending one whose update fails, and fail exactly when there is one |
| BadgerStore.Repository.GetPendingTaskIDsByInputs | internal/infrastructure/db/badger/delegate_repo.go:130-173 | the comparison of key texts finds exactly the pending delegate tasks that share an input |
| BadgerStore.Repository.GetAll | internal/infrastructure/db/badger/delegate_repo.go:190-219 | limit and offset count delegate tasks, each of which is returned whole |
| SqliteStore.Repository.Add | internal/infrastructure/db/sqlite/delegate_repo.go:32-67 | one row per delegate task and input, or none at all |
| SqliteStore.AddRefines | internal/infrastructure/db/sqlite/delegate_repo.go:51-61 | the tables represent the map with the new delegate task |
| SqliteStore.UpdateRefines | internal/infrastructure/db/sqlite/sqlc/query.sql:65-78 | the three updates are the abstract settling |
| Tasks.SettledIs | internal/infrastructure/db/sqlite/sqlc/query.sql:65-78 | settling changes only pending delegate tasks, and of these only the status and the field that goes with it |
| SqliteStore.QueryRefines | internal/infrastructure/db/sqlite/sqlc/query.sql:80-84 | the overlap query is the abstract one |
| SqliteStore.GetByID | internal/infrastructure/db/sqlite/delegate_repo.go:69-114 | the loop over joined rows, failing exactly without rows or on an unreadable outpoint |
| SqliteStore.GetInputs | internal/infrastructure/db/sqlite/delegate_repo.go:82-88 | add then get: exactly the inputs of the delegate task |
| SqliteStore.GetForfeit | internal/infrastructure/db/sqlite/delegate_repo.go:90-92 | add then get loses no forfeit that is not empty, and invents none |
| SqliteStore.GetColumns | internal/infrastructure/db/sqlite/delegate_repo.go:96-113 | and everything else of the delegate task, its schedule cut to whole seconds |
| SqliteStore.GetAll | internal/infrastructure/db/sqlite/delegate_repo.go:171-233 | the grouping loop returns each delegate task once, in first-seen order, with the columns of its first row |
| SqliteStore.SeenInOrder | internal/infrastructure/db/sqlite/delegate_repo.go:195-224 | that is the order of their first rows |
| SqliteStore.EachOutpointOnce | internal/infrastructure/db/sqlite/delegate_repo.go:173-224 | the grouped delegate tasks have together exactly as many inputs as there are rows with an outpoint |
| SqliteStore.PageKeepsInputs | internal/infrastructure/db/sqlite/sqlc/query.sql:100-104 | a delegate task keeps its inputs if and only if each of its outpoint rows stands at a place from the offset on and before the limit |
| SqliteStore.PageCanSplitTask | internal/infrastructure/db/sqlite/sqlc/query.sql:104 | a page of one row cuts a delegate task with two inputs |
| Bip21.FirstArkIs | utils/bip21.go:25-39 | the offchain address is that of the first parameter that names a valid one, and there is none exactly when no parameter does |
| Bip21.SplitIsComplete | utils/bip21.go:21-34 | splitting loses nothing and cuts at every separator |
| Bip21.BtcAddressExactly | utils/bip21.go:42-52 | on any string, a valid address is returned if and only if the string starts with it after the scheme and goes on, if at all, with a question mark or colon |
| Bip21.AmountReadBack | utils/bip21.go:71-84 | an amount written with eight places is read back exactly |
| Bip21.PointAmount | utils/bip21.go:71-84 | any digits with a point are read as the nearest number of satoshis, a half upwards |
| Bip21.WholeAmount | utils/bip21.go:71-84 | digits without a point are whole bitcoin |
| Bip21.ExactAmount | utils/bip21.go:71-84 | so an amount that is a whole number of satoshis, with any number of decimals, is read as just that |
| Bip21.AmountForm | utils/bip21.go:71-75 | other texts are no amounts |
| Bip21.SatsOfUri | utils/bip21.go:59-86 | the amount of any BIP 21 URI is that of its first amount parameter |
| Bip21.NoSatsOfUri | utils/bip21.go:59-86 | and 0 when it has none or the text is no such URI |
| Bip21.ArkOfUri | utils/bip21.go:20-40 | the parameters are those between the first question mark and the next |
| Bip21.Bip21Exactly | utils/bip21.go:11-18 | a text is a BIP 21 URI exactly when it starts with the scheme and names a valid address of either kind |
| Bip21.AddressForms | utils/bip21.go:92-100 | the forms of valid addresses |
| Bip21.AmountTextIs | internal/core/application/service.go:541-543 | a written amount has eight decimals and denotes just the satoshis |
| Bip21.UriRoundTrip | internal/core/application/service.go:535-547 | the URI of `NewAddress` is a BIP 21 URI and gives back both addresses and the amount, 0 being none |

## Left out

QR codec:

- QrSymbol.DecodeBitmap: version, level and mask are parameters; how format and version bits are computed and found again in a bitmap is not modelled, nor the choice of version, mode and mask.
- The camera, image and detection half of `qr.js`, the kanji and eci modes beyond their errors, and the conversion between text and UTF-8 bytes, which are values here.

Decimals:

- Division.Divide: does not model division to a number of decimal places or in another base, which the arithmetic operations do not use.
- Multiplication.Times: models `external` set to true, as do `Plus` and `Minus`; the other value serves the transcendental functions, which are left out with roots, powers and base conversion.
- PlusMinus.Plus: the sum of a zero and a number `x` that is itself outside the exponent range is not stated, nor is the difference for Minus; only `external` set to false or a later change of the settings makes such an `x`.
- UnitToggle.ToggleTwice: models the Decimal computation, not the conversion of its result to a floating-point number.
- DecimalText.ParseDecimal: the exponent of a literal is an exact integer here, a floating-point number beyond 2^53 in the code.
- JavaScript numbers are integers here: quotients that are cut at once are integer quotients, and counting digits by repeated division by ten is the number of digits.

Delegate protocol, unlocking and stores:

- DelegateSafety.RunKeeps: repository calls are atomic, batch events arrive in any order, and re-registration after a failed batch is done by a goroutine that the session waits for; signing of the tree is not modelled.
- The fee output and the delegate address, the scheduling horizon and the lookup of spent inputs in `newDelegateTask`: simple checks that can only reject more.
- Forfeits.SubmitForfeitTxs: the delegate tasks are read at one moment; a status that changes between the lookups makes no difference to their forfeits.
- Forfeits.ValidateForfeits: signatures, leaf scripts and sighash types are one uninterpreted check; psbt encoding is a pair of inverse functions.
- UnlockGate.RunKeeps: calls of `UnlockNode` and `LockNode` are serialised, `ResetWallet` is left out, and scheduler, subscription and event listener are one flag.
- Migration.CrashesDoNotMatter: `buildVhtlcContractArgs` and the building of contracts are functions of a row that no failure changes; the backfill of the legacy table and the drop of an empty one are left out.
- BadgerStore.RecordRoundTrip: JSON columns are values, and outpoints are written with a hash of 64 lower-case digits and a 32-bit index.
- BadgerStore.Repository.GetAll: the records come sorted, in any order that the schedules allow.
- BadgerStore.Repository.GetPendingTaskIDsByInputs: returns a set, the order of the badger store being unknown.
- SqliteStore.GetByID: NewOutPointFromString is modelled after btcd, whose source is not part of this repository.
- SqliteStore.GetInputs: inputs come back in the order of the database and without repetitions, so only membership is stated.
- SqliteStore.UpdateRefines: the SQL statements are modelled by what they select and set; the generated Go code for them is not part of this model.
- Bip21.PointAmount: amounts are exact decimals, where the code rounds through a floating-point number, and the other number syntaxes of ParseFloat (signs, exponents, hexadecimal, underscores) count as no amount.
- OutpointText.IndexReads: blanks in front of the index, which Sscanf skips, are an error here; no written key has any.
- Handlers, the scheduler, subscriptions, logging, telemetry and configuration.
