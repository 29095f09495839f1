# Verified models of the BTClock firmware

Dafny models of four parts of the firmware, and proofs about them. Each imperative piece of the source is a method over arrays or
object fields that is proved against a specification on values; the properties are then lemmas about those specifications.

## QR Code encoder

`components/qrcode/qrcodegen.c` turns text into a grid of modules. The model follows it stage by stage:

- `Bits`, `Segments`, `TextSegments`, `DataStream`: text to segments to a bit stream with terminator and pad bytes.
- `GaloisField`, `FieldInverse`, `ReedSolomon`, `ErrorCorrection`: the field GF(2^8) reduced by 0x11D, generator polynomial,
  remainder, and what the remainder is for: the minimum distance of the code.
- `Versions`, `Indexing`, `Interleaving`: the tables of the forty versions, division into blocks, interleaving.
- `Modules`, `FunctionModules`, `LightModules`, `FormatBits`, `Zigzag`, `RawModules`: the bit-packed grid, the two passes that draw
  the function patterns, format information, the zigzag scan, and the count of data modules.
- `StreamLayout`, `InterleavedOrder`, `ScanOrder`, `MaskPatterns`, `StandardPatterns`, `StandardTables`, `PenaltyValues`: what the stages
  write, in the numbers, tables and pictures of ISO/IEC 18004:2015, without the functions that encoder and decoder share.
- `CheckBits`: the version and format words as words of two linear codes, and how far apart those are.
- `Masking`, `Penalty`: the eight masks and the penalty score.
- `Symbol`, `Encoder`, `TextEncoder`: the decoder the source does not contain, as a function, and the entry points.
- `Distances`, `SymbolInformation`, `SymbolDamage`: reading the version and format words, and what damage a symbol bears.

The main result is `TextEncoder.TextRoundTrip`: whatever the encoder accepts can be read back. It rests on three facts about different
stages: drawing light patterns and format information touches marked modules only, the scan visits every data module once while the
grid it tests is being written, and the number of data modules is exactly what `getNumRawDataModules` computes. `DamagedGridDecides`
adds that reading back is still unambiguous after damage to half as many symbols of each block as it has error correction codewords,
and to three modules of the format information.

## Font routines

`components/fonts/stb_truetype.h` is compiled into the firmware. Modelled are its discrete algorithms:

- `GlyphLoader`, `Outline`: a TrueType outline whose points and vertices share one array. The specification names the path of a contour
  by neighbouring points only; the conversion is proved to compute it without overwriting a point before it is read.
- `GlyphWriter`, `OutlineReader`, `CharstringWriter`, `CmapWriter`: writers and readers the source does not contain, for the points and
  vertices of a glyph, charstrings, and character maps. What they write the source reads, and the other way round.
- `GlyphPath`, `GlyphOperators`, `OperatorForms`, `Charstring`, `GlyphContours`: the Type 2 charstring interpreter as an abstract machine with a run
  function, the drawing operators by the positions of their operands, and the two runs that count and store.
- `EdgeSort`: quicksort with unguarded scans, then insertion sort. Quicksort does not always leave short runs that are in order among
  each other: when its scans cross, the element they stop at is left between the parts although it may belong further to the front.
  Insertion sort makes up for it; `ChainExactly` says when it has to.
- `Prefilter`: the ring-buffer box filters.
- `Cmap`: lookup in formats 4, 12 and 13.
- `RectPacker`: the shelf packer, over any number of calls.

## Settings and buttons

- `OrderText`, `ScreenOrder`: the order of the screens in `components/settings/settings_api.cpp`, as PATCH stores it and GET lists it.
  A comment in the source calls an accepted reorder full, but the code compares numbers of screens only; `CompleteExactly` says when
  the comment is right.
- `Buttons`: the button reader of `components/buttons/buttons.cpp`, over whole traces of samples.

`Wrappers` and `Arithmetic` hold what several modules share.

Where the model says less than a reader might expect, "Left out" says so.

## Model

| member | source | states |
|---|---|---|
| `TextEncoder.TextRoundTrip` | components/qrcode/qrcodegen.c:133-167 | for every text, version range, level, mask and boost flag: the symbol the encoder promises, read by size, format, mask, scan, de-interleaving and parsing, says exactly that text |
| `TextEncoder.BinaryRoundTrip` | components/qrcode/qrcodegen.c:171-186 | the same for every byte string: reading the symbol returns the bytes |
| `TextEncoder.EncodeText` | components/qrcode/qrcodegen.c:133-167 | succeeds exactly when some version in the range has room for the text in the densest mode its characters allow; then the grid is an encoding of that text at the least such version, otherwise the size byte is 0 |
| `TextEncoder.EncodeBinary` | components/qrcode/qrcodegen.c:171-186 | succeeds exactly when some version in the range has room for the bytes; then the grid is an encoding of them as they were on entry, although the buffer that held them is overwritten |
| `TextEncoder.MakeText` | components/qrcode/qrcodegen.c:142-161 | the segment built holds the text in its densest mode; when it is refused for want of buffer, no version up to the largest could have held it |
| `TextEncoder.TextReadsBack` | components/qrcode/qrcodegen.c:142-161 | the mode chosen for a text loses nothing: the piece it becomes reads back as the text and is well formed |
| `TextEncoder.ModeOfText` | components/qrcode/qrcodegen.c:142-161 | a text becomes a numeric segment exactly if it has digits only, and bytes exactly if it has a character other than digits, capital letters and nine signs |
| `Encoder.EncodeSegmentsAdvanced` | components/qrcode/qrcodegen.c:208-288 | succeeds exactly when some version in the range fits; then the grid is a masked symbol of the segments at the least fitting version and the boosted level, with the given mask or the best of all eight; segment data may share the scratch buffer |
| `Encoder.DecodeEncoded` | components/qrcode/qrcodegen.c:208-288 | every grid that meets the encoder's promise decodes to the very segments, in order, whatever the parameters |
| `Encoder.ChooseVersion` | components/qrcode/qrcodegen.c:214-226 | the version taken fits and no smaller one in the range does; failure means that none does |
| `Encoder.BoostLevel` | components/qrcode/qrcodegen.c:228-232 | the level is the highest at which the data still fit the version, and never below the one asked for |
| `Encoder.BuildCodewords` | components/qrcode/qrcodegen.c:234-263 | the scratch buffer ends up holding the data stream of the segments cut into blocks, each with its error correction, interleaved, although both buffers are reused on the way |
| `Encoder.DrawUnmasked` | components/qrcode/qrcodegen.c:264-266 | function patterns stand where they must and the modules of the scan carry the codeword bits in order, the left-over ones light |
| `Encoder.ChooseMask` | components/qrcode/qrcodegen.c:269-283 | the mask returned has the least penalty of all eight finished candidates, the lowest number among equals, and the trials leave every module outside the format area as it was |
| `Encoder.TryMask` | components/qrcode/qrcodegen.c:272-282 | the score is that of the finished candidate with this mask, and masking again restores all modules but the format information |
| `Encoder.TrialUndone` | components/qrcode/qrcodegen.c:274-281 | undoing the mask of a finished candidate gives back the unmasked symbol everywhere but in the format area |
| `Symbol.DecodeShown` | components/qrcode/qrcodegen.c:208-288 | a grid that shows segments at some version, level and mask decodes to them: no step of drawing loses or disturbs what another wrote |
| `Symbol.BitsRead` | components/qrcode/qrcodegen.c:581-635 | unmasking a finished candidate along the scan returns the codewords byte for byte |
| `Symbol.FormatRead` | components/qrcode/qrcodegen.c:520-550 | level and mask are read back from the format area of any finished candidate |
| `Symbol.PathIsData` | components/qrcode/qrcodegen.c:581-604 | no module that carries a codeword bit belongs to a function pattern |
| `Segments.ParseDataBits` | components/qrcode/qrcodegen.c:234-260 | parsing the data stream of any well-formed segments whose counts fit returns the segments; terminator, alignment and pad bytes never read as more data |
| `Segments.ParseAll` | components/qrcode/qrcodegen.c:237-245 | the encodings of a list of segments, followed by anything, parse as those segments followed by what the rest parses as |
| `Segments.ParsePiece` | components/qrcode/qrcodegen.c:238-244 | one encoded segment in front of any bits parses as that segment |
| `Segments.ParseFiller` | components/qrcode/qrcodegen.c:248-260 | the filler ends the data for every fill level |
| `StreamLayout.NumericStands` | components/qrcode/qrcodegen.c:236-245 | in the stream every numeric segment stands as mode indicator 1, its count in 10, 12 or 14 bits (versions 1 to 9, 10 to 26, 27 to 40), and its payload, right after the segment before it |
| `StreamLayout.AlphanumericStands` | components/qrcode/qrcodegen.c:1015-1027 | the same for alphanumeric segments: indicator 2, counts of 9, 11 or 13 bits |
| `StreamLayout.BytesStand` | components/qrcode/qrcodegen.c:1015-1027 | the same for bytes: indicator 4, counts of 8 bits up to version 9 and of 16 bits from version 10 on |
| `StreamLayout.KanjiStands` | components/qrcode/qrcodegen.c:1015-1027 | the same for Kanji: indicator 8, counts of 8, 10 or 12 bits |
| `StreamLayout.EciStands` | components/qrcode/qrcodegen.c:1015-1027 | a designator stands as indicator 7 and its payload, without a count |
| `StreamLayout.FirstStands` | components/qrcode/qrcodegen.c:234-244 | the first segment begins with the stream |
| `StreamLayout.PayloadBits` | components/qrcode/qrcodegen.c:853-877 | a payload has 10, 4 or 7 bits for three, one or two digits, 11 or 6 for two or one characters, 8 for a byte, 13 for a Kanji character, and 8, 16 or 24 for a designator |
| `StreamLayout.FillerStands` | components/qrcode/qrcodegen.c:248-260 | after the segments come at most four zeros, zeros up to a whole byte, and the bytes 236 and 17 by turns |
| `StreamLayout.ByteAt` | components/qrcode/qrcodegen.c:189-195 | the bits of a codeword run from the highest to the lowest |
| `DataStream.WriteDataBits` | components/qrcode/qrcodegen.c:234-260 | the buffer holds exactly the data stream up to its capacity, and the segments are still what they were |
| `DataStream.WriteFiller` | components/qrcode/qrcodegen.c:248-260 | what follows the data is the terminator cut to the room left, zeros to a byte boundary and alternating pad bytes |
| `DataStream.WriteSegments` | components/qrcode/qrcodegen.c:236-246 | all segments are appended in order and the length written is the predicted one |
| `DataStream.AppendSegment` | components/qrcode/qrcodegen.c:238-244 | mode indicator, count field and payload bits are appended after what is there already |
| `DataStream.GetTotalBits` | components/qrcode/qrcodegen.c:992-1012 | the number of bits, or overflow exactly when a count does not fit its field or the total exceeds 32767 |
| `DataStream.TotalIsLength` | components/qrcode/qrcodegen.c:992-1012 | the arithmetic total is the length of the bit string that is written |
| `Bits.AppendBits` | components/qrcode/qrcodegen.c:189-195 | the low bits of the value follow the bits already in the buffer, most significant first; bytes past the capacity are untouched |
| `Bits.NatBitsRoundTrip` | components/qrcode/qrcodegen.c:189-195 | a value that fits the width is recovered from the bits written for it |
| `Bits.BytesOfStream` | components/qrcode/qrcodegen.c:189-195 | reading a buffer as bits and packing them again is the identity |
| `TextSegments.MakeNumeric` | components/qrcode/qrcodegen.c:895-926 | the payload is the digits packed in threes into ten bits with four or seven for the rest |
| `TextSegments.MakeAlphanumeric` | components/qrcode/qrcodegen.c:929-960 | the payload is the characters packed in pairs into eleven bits with six for a last one |
| `TextSegments.MakeBytes` | components/qrcode/qrcodegen.c:880-892 | the payload is the bytes in order, for any length whose bit count fits 32767 |
| `TextSegments.MakeEci` | components/qrcode/qrcodegen.c:963-988 | the designator takes 8, 16 or 24 bits by the size of the assignment value |
| `TextSegments.EciRoundTrip` | components/qrcode/qrcodegen.c:963-988 | the assignment value is read back from the designator made for it |
| `TextSegments.NumericRoundTrip` | components/qrcode/qrcodegen.c:895-926 | unpacking packed digits returns them, for every length |
| `TextSegments.AlphanumericRoundTrip` | components/qrcode/qrcodegen.c:929-960 | unpacking packed characters returns them, for every length |
| `TextSegments.NumericTextRoundTrip` | components/qrcode/qrcodegen.c:895-926 | the text of a numeric segment is the text it was made from |
| `TextSegments.AlphanumericTextRoundTrip` | components/qrcode/qrcodegen.c:929-960 | the text of an alphanumeric segment is the text it was made from |
| `StreamLayout.DigitsAt` | components/qrcode/qrcodegen.c:907-921 | ten bits hold the number of three digits, seven that of two, and four a single one |
| `StreamLayout.CharactersAt` | components/qrcode/qrcodegen.c:941-955 | eleven bits hold 45 times the value of a character plus that of the next, six the value of a single one |
| `StreamLayout.CharacterValues` | components/qrcode/qrcodegen.c:93-95 | digits have the values 0 to 9, capital letters 10 to 35 |
| `StreamLayout.SignValues` | components/qrcode/qrcodegen.c:93-95 | space and the eight signs have the values 36 to 44 |
| `StreamLayout.TextByteAt` | components/qrcode/qrcodegen.c:150-161 | eight bits hold the character of a text at their place |
| `StreamLayout.DesignatorNumber` | components/qrcode/qrcodegen.c:963-988 | a designator is the assignment value after no, one or two leading ones and a zero |
| `TextSegments.ByteTextRoundTrip` | components/qrcode/qrcodegen.c:150-161 | the text of a byte segment is the text it was made from |
| `TextSegments.NumericLen` | components/qrcode/qrcodegen.c:895-926 | packing n digits takes ten thirds of n bits, rounded up |
| `TextSegments.AlphanumericLen` | components/qrcode/qrcodegen.c:929-960 | packing n characters takes eleven halves of n bits, rounded up |
| `TextSegments.CalcIsPayloadLen` | components/qrcode/qrcodegen.c:853-877 | overflow is reported exactly when the payload exceeds 32767 bits; otherwise the announced length is exact |
| `TextSegments.EciWellFormed` | components/qrcode/qrcodegen.c:963-988 | a designator announces its own length in its leading bits |
| `Versions.BlocksFit` | components/qrcode/qrcodegen.c:331-336 | at every version and level each block has at least one data codeword |
| `Versions.CapacityRange` | components/qrcode/qrcodegen.c:331-336 | capacities lie between 9 and 2956 codewords |
| `Versions.LevelCostsCapacity` | components/qrcode/qrcodegen.c:331-336 | a higher level always leaves fewer data codewords |
| `Versions.ShortBlocks` | components/qrcode/qrcodegen.c:92-119 | no block of any version and level exceeds 255 codewords |
| `StandardTables.DataCodewordsAre` | components/qrcode/qrcodegen.c:331-336 | the numbers of data codewords of all versions and levels are those of table 7 of ISO/IEC 18004:2015 |
| `GaloisField.Multiply` | components/qrcode/qrcodegen.c:406-418 | the shift-and-add loop computes the product in GF(2^8) reduced by 0x11D |
| `GaloisField.MulByTwo` | components/qrcode/qrcodegen.c:406-418 | twice a byte is the byte shifted, less 0x11D if a bit falls out |
| `GaloisField.MulCommutes` | components/qrcode/qrcodegen.c:406-418 | the product does not depend on the order of its factors, although the loop treats them differently |
| `GaloisField.MulAssociates` | components/qrcode/qrcodegen.c:406-418 | the product is associative |
| `GaloisField.MulDistributes` | components/qrcode/qrcodegen.c:406-418 | the product distributes over exclusive or, on both sides |
| `FieldInverse.NoZeroDivisors` | components/qrcode/qrcodegen.c:406-418 | the product of non-zero elements is never zero |
| `FieldInverse.Pow255` | components/qrcode/qrcodegen.c:406-418 | the 255th power of every non-zero element is 1 |
| `FieldInverse.OrderOfTwo` | components/qrcode/qrcodegen.c:362-384 | no lower power of 2 is 1 |
| `FieldInverse.PowersDistinct` | components/qrcode/qrcodegen.c:362-384 | the first 255 powers of 2 are all different |
| `ReedSolomon.ComputeDivisor` | components/qrcode/qrcodegen.c:362-384 | the array holds the product of the linear factors x - 2^i without its leading coefficient |
| `ReedSolomon.GeneratorIsProduct` | components/qrcode/qrcodegen.c:362-384 | the value of the generator polynomial at any point is the product of the values of its factors |
| `ReedSolomon.ComputeRemainder` | components/qrcode/qrcodegen.c:388-402 | the array holds the remainder of the data, even when data and result share one array |
| `ReedSolomon.DataAndRemainder` | components/qrcode/qrcodegen.c:388-402 | data followed by remainder is, at every point, quotient times generator |
| `ReedSolomon.CodewordVanishes` | components/qrcode/qrcodegen.c:362-402 | every block followed by its remainder is zero at 2^0 up to 2^(degree-1) |
| `ErrorCorrection.LeastWeight` | components/qrcode/qrcodegen.c:362-402 | a word of at most 255 symbols that is zero at the first d powers of 2 has no non-zero symbol or more than d of them |
| `ErrorCorrection.MinimumDistance` | components/qrcode/qrcodegen.c:362-402 | blocks made from different data differ in more symbols than there are error correction codewords |
| `ErrorCorrection.DamageDecides` | components/qrcode/qrcodegen.c:362-402 | with at most half as many damaged symbols as error correction codewords only one block is possible |
| `SymbolDamage.DamagedSymbolDecides` | components/qrcode/qrcodegen.c:298-326 | the same for a whole interleaved symbol: damage bearable in each block leaves one data sequence possible |
| `SymbolDamage.DamagedSymbolShowsOneText` | components/qrcode/qrcodegen.c:208-288 | of one version and level, codewords that are bearably damaged are consistent with at most one list of segments |
| `SymbolDamage.DamagedGridDecides` | components/qrcode/qrcodegen.c:208-288 | two finished symbols that the same damaged grid could have come from, with at most three wrong modules in the copy of the format information read and bearable damage in every block, have the same level, mask and version and show the same segments |
| `SymbolDamage.SymbolBlocksShort` | components/qrcode/qrcodegen.c:298-326 | the layouts of all versions and levels meet the length condition of those two results |
| `Interleaving.AddEccAndInterleave` | components/qrcode/qrcodegen.c:298-326 | every data and error correction codeword of every block stands at its interleaved place; only the scratch area behind the data and the result area are written |
| `Interleaving.PlaceBlock` | components/qrcode/qrcodegen.c:310-325 | one block is placed without touching the place of any other or the data not yet read |
| `Interleaving.OwnersDisjoint` | components/qrcode/qrcodegen.c:315-324 | no result position belongs to two blocks |
| `Interleaving.EveryPositionOwned` | components/qrcode/qrcodegen.c:315-324 | every result position belongs to some block |
| `Interleaving.BlockReadBack` | components/qrcode/qrcodegen.c:298-326 | reading the places of a block gives its data followed by the remainder of that data |
| `Interleaving.DeinterleaveInverts` | components/qrcode/qrcodegen.c:298-326 | reading the blocks back in order gives the data sequence |
| `InterleavedOrder.BlocksTile` | components/qrcode/qrcodegen.c:300-321 | the blocks are the data in order, as even as possible and the shorter ones first |
| `InterleavedOrder.InterleavedIsRows` | components/qrcode/qrcodegen.c:314-321 | the interleaved sequence is the first codewords of all blocks, then the second ones, and so on, then the error correction codewords in the same way |
| `Interleaving.LayoutOf` | components/qrcode/qrcodegen.c:298-306 | the layout computed from the tables is a proper division for every version and level |
| `Modules.PaintOneBit` | components/qrcode/qrcodegen.c:783-794 | changing one packed bit repaints one module and no other |
| `Modules.SetModuleBounded` | components/qrcode/qrcodegen.c:783-794 | the grid differs in the one module addressed, and the size byte stands |
| `Modules.SetModuleUnbounded` | components/qrcode/qrcodegen.c:797-800 | outside the grid nothing happens |
| `Modules.GetModuleBounded` | components/qrcode/qrcodegen.c:774-780 | the bit read is the module at that row and column |
| `Modules.ModuleBit` | components/qrcode/qrcodegen.c:774-780 | modules are stored row by row, the lowest bit of a byte first, after the byte for the size |
| `FunctionModules.InitializeFunctionModules` | components/qrcode/qrcodegen.c:422-455 | exactly the modules of timing, finder, format, alignment and version patterns are dark |
| `FunctionModules.GetAlignmentPatternPositions` | components/qrcode/qrcodegen.c:554-565 | the array receives as many positions as it returns, each the one the two lemmas below are about |
| `FunctionModules.AlignGap` | components/qrcode/qrcodegen.c:554-565 | alignment positions ascend by at least twelve, so that patterns never overlap, and the last is seven short of the side |
| `FunctionModules.AlignRange` | components/qrcode/qrcodegen.c:554-565 | alignment positions are even, start at 6, and the inner ones keep clear of the finder and version patterns at both ends |
| `StandardTables.AlignmentsAre` | components/qrcode/qrcodegen.c:557-568 | the positions are those of annex E of ISO/IEC 18004:2015, for every version |
| `FunctionModules.FillRectangle` | components/qrcode/qrcodegen.c:568-573 | the rectangle becomes dark and nothing else changes |
| `LightModules.DrawLightFunctionModules` | components/qrcode/qrcodegen.c:459-516 | the grid after the light pass, for every module and whatever stood there |
| `LightModules.LightPassFrame` | components/qrcode/qrcodegen.c:459-516 | the light pass changes no module outside the marked function modules |
| `LightModules.TwoPassesDrawTheStandard` | components/qrcode/qrcodegen.c:422-516 | marking everything dark and then painting the light parts gives the rings, timing and alignment patterns of section 6.3 of ISO/IEC 18004:2015 |
| `StandardPatterns.FindersShown` | components/qrcode/qrcodegen.c:467-480 | in three corners of every finished symbol stand the modules of a finder pattern with its separator, each turned to its corner |
| `StandardPatterns.AlignmentsShown` | components/qrcode/qrcodegen.c:482-493 | a five by five pattern stands at every pair of positions but three corners |
| `StandardPatterns.TimingShown` | components/qrcode/qrcodegen.c:460-465 | row 6 and column 6 alternate between the finder patterns |
| `SymbolInformation.VersionReadsBack` | components/qrcode/qrcodegen.c:495-513 | the six highest modules of either version block of any finished candidate spell the version |
| `CheckBits.VersionWordDivides` | components/qrcode/qrcodegen.c:498-502 | the version word is a multiple of the generator polynomial 0x1F25 over GF(2) |
| `CheckBits.VersionsFarApart` | components/qrcode/qrcodegen.c:498-502 | the words of two versions differ in at least eight of their eighteen bits |
| `SymbolInformation.VersionDecides` | components/qrcode/qrcodegen.c:495-513 | a version block with at most three wrong modules belongs to one version only |
| `FormatBits.DrawFormatBits` | components/qrcode/qrcodegen.c:520-550 | both copies of the format word and the one dark module are drawn, nothing else changes |
| `StandardPatterns.FormatPlaces` | components/qrcode/qrcodegen.c:533-547 | the modules at which each bit of the format word stands, twice, and the one that is always dark |
| `StandardTables.FormatWordsAre` | components/qrcode/qrcodegen.c:520-531 | the words of all levels and masks are those of annex C of ISO/IEC 18004:2015 |
| `FormatBits.FormatReadsBack` | components/qrcode/qrcodegen.c:520-550 | level and mask are recovered from the drawn format information for all 32 combinations |
| `CheckBits.FormatWordDivides` | components/qrcode/qrcodegen.c:520-531 | the format word, freed of its fixed pattern, is a multiple of the generator polynomial 0x537 over GF(2) |
| `CheckBits.FormatsFarApart` | components/qrcode/qrcodegen.c:520-531 | the format words of two different pairs of level and mask differ in at least seven of their fifteen bits |
| `SymbolInformation.FormatDecides` | components/qrcode/qrcodegen.c:520-550 | a copy of the format information with at most three wrong modules belongs to one level and mask only |
| `CheckBits.WordAdds` | components/qrcode/qrcodegen.c:498-531 | both codes are linear, which carries the least weight of a word over to the distance of two |
| `FormatBits.FormatIsFunction` | components/qrcode/qrcodegen.c:520-550 | format information touches only marked function modules |
| `Zigzag.DrawCodewords` | components/qrcode/qrcodegen.c:581-604 | the light modules in scan order carry the codeword bits; modules dark at the start and those past the data keep their colour, although the grid tested is the one being written |
| `ScanOrder.ScanPlaces` | components/qrcode/qrcodegen.c:583-593 | the place of every module in the scan in closed form: column pairs from the right, stepping over column 6, up and down by turns, in every row the right module first |
| `ScanOrder.ScanBegins` | components/qrcode/qrcodegen.c:583-593 | the scan begins in the lower right corner |
| `Zigzag.CodewordBit` | components/qrcode/qrcodegen.c:594-595 | bit i of the codewords is bit 7 - i % 8 of byte i / 8 |
| `Zigzag.ScanVisitsOnce` | components/qrcode/qrcodegen.c:581-604 | for every odd size the scan visits each module outside column 6 exactly once and no other |
| `RawModules.RawModulesCounted` | components/qrcode/qrcodegen.c:343-355 | the closed formula equals the number of modules that are no function modules, for all forty versions |
| `RawModules.RoomForCodewords` | components/qrcode/qrcodegen.c:343-355 | the scan meets exactly that many data modules, so that every codeword bit finds a place |
| `Masking.ApplyMask` | components/qrcode/qrcodegen.c:612-635 | each data module is flipped where the mask formula says so |
| `Masking.MaskTwice` | components/qrcode/qrcodegen.c:612-635 | the same mask twice is the identity, and function modules never change |
| `MaskPatterns.MaskFlips` | components/qrcode/qrcodegen.c:617-632 | a mask flips exactly the modules that its pattern on an empty symbol shows and that are no function modules |
| `MaskPatterns.SameInAnySize` | components/qrcode/qrcodegen.c:617-632 | the pattern does not depend on the size of the symbol |
| `MaskPatterns.Mask0` | components/qrcode/qrcodegen.c:620-621 | mask 0 is a chessboard |
| `MaskPatterns.Mask1` | components/qrcode/qrcodegen.c:622-622 | mask 1 is every other row |
| `MaskPatterns.Mask2` | components/qrcode/qrcodegen.c:623-623 | mask 2 is every third column |
| `MaskPatterns.Mask3` | components/qrcode/qrcodegen.c:624-624 | mask 3 is every third diagonal |
| `MaskPatterns.Mask4` | components/qrcode/qrcodegen.c:625-625 | mask 4 alternates blocks three wide and two high |
| `MaskPatterns.Masks5To7` | components/qrcode/qrcodegen.c:626-628 | masks 5 to 7 repeat their patterns of six by six modules both ways and are symmetric |
| `Penalty.GetPenaltyScore` | components/qrcode/qrcodegen.c:640-717 | the score is the declarative one: run lengths, finder windows, blocks and balance of the grid; it never exceeds 2568888 |
| `Penalty.LinePenalty` | components/qrcode/qrcodegen.c:644-687 | the streaming counters equal the score of the run-length encoding of the line: length minus two for each maximal run from five on, and the finder windows over the line with its light border |
| `Penalty.FinderPenaltyTerminateAndCount` | components/qrcode/qrcodegen.c:732-742 | closing a line adds the windows that end in its border |
| `Penalty.FinderPenaltyCountPatterns` | components/qrcode/qrcodegen.c:720-728 | the history holds a window in proportion 1:1:3:1:1 with light four times as wide on a side, counted for each side |
| `Penalty.FinderPenaltyAddHistory` | components/qrcode/qrcodegen.c:744-750 | the history is the last seven runs, the first of them widened by the border |
| `Penalty.CountBlocks` | components/qrcode/qrcodegen.c:689-698 | every two by two block of one colour counts, overlapping ones separately |
| `Penalty.BalanceFormula` | components/qrcode/qrcodegen.c:708-711 | the rounded quotient is the least band of five percent steps around one half that contains the dark share |
| `Penalty.PenaltyUnique` | components/qrcode/qrcodegen.c:640-717 | the declarative score determines a single number |
| `PenaltyValues.UniformPenalty` | components/qrcode/qrcodegen.c:640-712 | the penalty of n by n modules that are all dark, or all light, is 2n(n - 2) + 3(n - 1)(n - 1) + 90 |
| `PenaltyValues.RunsReadBack` | components/qrcode/qrcodegen.c:646-669 | the runs of a line are those it was put together from |
| `PenaltyValues.FinderPenalty` | components/qrcode/qrcodegen.c:715-749 | a line with a pattern like a finder, in any unit, costs 40 for each side with at least four light units if there is one on the other side, besides two less than the length of every run of five or more |
| `EdgeSort.SortEdges` | components/fonts/stb_truetype.h:3731-3734 | the edges are rearranged into ascending order of their upper ends; those past the count are untouched |
| `EdgeSort.Quicksort` | components/fonts/stb_truetype.h:3670-3729 | the range ends up as its parts do round by round, one nested call for the smaller part; each nested call has a budget one less, so that calls nest at most as often as n / 12 can be halved |
| `EdgeSort.Nesting` | components/fonts/stb_truetype.h:3719-3727 | the budget that suffices for n edges is below log2(n / 6) |
| `EdgeSort.Partition` | components/fonts/stb_truetype.h:3697-3718 | the unguarded scans stop inside the range, and what they leave are the parts of the round |
| `EdgeSort.PartedParts` | components/fonts/stb_truetype.h:3674-3718 | a round leaves something on both sides, the pivot in front of a left part that it bounds from above, a right part that it bounds from below, and at most one element in between |
| `EdgeSort.MedianIsBetween` | components/fonts/stb_truetype.h:3674-3696 | the element moved to the front lies between the middle and the last one |
| `EdgeSort.CoarseCounts` | components/fonts/stb_truetype.h:3670-3729 | quicksort only rearranges |
| `EdgeSort.CoarseParts` | components/fonts/stb_truetype.h:3719-3727 | after all rounds everything up to the end of a round's left part, and the element left behind, is at most the pivot and everything in its right part at least; nothing bounds the element left behind by those before it |
| `EdgeSort.MarksAreClose` | components/fonts/stb_truetype.h:3670-3729 | the ends of the rounds cut the range into runs of at most twelve elements |
| `EdgeSort.ChainExactly` | components/fonts/stb_truetype.h:3670-3729 | no element has to cross the end of a run any more if and only if no round has left an element below its pivot between its parts |
| `EdgeSort.ShortMoves` | components/fonts/stb_truetype.h:3654-3668 | in that case elements twelve places apart are in order already |
| `EdgeSort.LeastLeftBehind` | components/fonts/stb_truetype.h:3674-3729 | when the edges stand in order already, the first round leaves the least of them behind in the middle, after half of the others, so that insertion sort has to carry it past them all |
| `EdgeSort.ThirteenInOrder` | components/fonts/stb_truetype.h:3674-3729 | an input for which a run is not separated from the next |
| `EdgeSort.InsertionSort` | components/fonts/stb_truetype.h:3654-3668 | the first n elements are sorted and rearranged only among themselves |
| `Prefilter.PrefilterBitmap` | components/fonts/stb_truetype.h:4510-4526 | rows, then columns: each pixel becomes the floor of the mean of the window that ends at it; the clear margin the second pass relies on survives the first |
| `Prefilter.HorizontalPrefilter` | components/fonts/stb_truetype.h:4323-4386 | every row is smoothed, padding between rows is untouched |
| `Prefilter.VerticalPrefilter` | components/fonts/stb_truetype.h:4388-4456 | every column is smoothed, padding is untouched |
| `Prefilter.FilterLine` | components/fonts/stb_truetype.h:4331-4385 | overwriting in place with an eight-entry ring and a running total gives the direct windowed means of the original pixels, for kernels of 1 to 8 |
| `Prefilter.SmoothedIsFloor` | components/fonts/stb_truetype.h:4350-4365 | a smoothed pixel is the sum of the window divided by its width and rounded down |
| `Prefilter.WindowSlides` | components/fonts/stb_truetype.h:4342-4346 | moving the window adds one pixel and drops the one a kernel width back; the sum never exceeds 255 times the width |
| `Prefilter.RingStep` | components/fonts/stb_truetype.h:4342-4346 | after a slot is overwritten the ring still holds, for each of the next positions a kernel width on, the pixel that has to be subtracted there |
| `Prefilter.BottomStaysClear` | components/fonts/stb_truetype.h:4510-4526 | smoothing rows keeps clear rows clear |
| `GlyphLoader.DecodeSimpleGlyph` | components/fonts/stb_truetype.h:1821-1967 | for every glyph with its bytes present and any contour ends in its header, one array that first holds the points and then the vertices ends up with the outlines of the contours met, unless a contour is begun with a control at the last point |
| `GlyphLoader.LoadFlags` | components/fonts/stb_truetype.h:1863-1872 | the flags are those of the run-length code, also when the last run announces more points than there are |
| `GlyphLoader.LoadCoordinates` | components/fonts/stb_truetype.h:1874-1904 | each coordinate is the sum of the differences so far, cut to 16 bits; the other fields stand |
| `GlyphWriter.PointsReadBack` | components/fonts/stb_truetype.h:1860-1904 | points written as flags, however grouped into runs, and differences in one or two bytes are read back, for every list of points whose differences fit 16 bits |
| `GlyphWriter.SingleRunsFit` | components/fonts/stb_truetype.h:1860-1872 | every list of points has flags and runs to be written with |
| `Outline.Convert` | components/fonts/stb_truetype.h:1906-1967 | for any contour ends: the conversion stays inside the array if and only if no contour is begun with a control at the last point; writing from the front then never overwrites a point not yet read, and the front holds the paths of all contours met, in order |
| `Outline.BegunInsideExactly` | components/fonts/stb_truetype.h:1920-1942 | that is the same as every contour met having the points it needs to begin |
| `Outline.LoneControlAtTheEnd` | components/fonts/stb_truetype.h:1920-1942 | points and ends for which the source reads past the array |
| `Outline.MetFits` | components/fonts/stb_truetype.h:1916-1947 | the contours met have the ends of the header until one has been passed already when its contour begins; that contour goes on to the last point |
| `Outline.AllMet` | components/fonts/stb_truetype.h:1916-1947 | ends that ascend, with two points for a contour that begins with a control, are all met, so that each contour has the points the header gives it |
| `Outline.CloseShape` | components/fonts/stb_truetype.h:1803-1819 | the strokes back to the start, including the one implied between a last and a first control, are appended |
| `Outline.BeginContour` | components/fonts/stb_truetype.h:1920-1946 | the path starts at the first point on the curve, at the second if the first is a control, or between two controls; only a control at the last point looks outside the array |
| `Outline.AddPoint` | components/fonts/stb_truetype.h:1948-1963 | one point adds the stroke from the point before it |
| `Outline.RoomToWrite` | components/fonts/stb_truetype.h:1856-1861 | inside a contour at most one vertex is written for every point consumed, so that the writes stay behind the reads |
| `Outline.ContourPathLength` | components/fonts/stb_truetype.h:1847-1848 | a contour yields at most one vertex more than it has points |
| `Outline.OutlinesLength` | components/fonts/stb_truetype.h:1847-1848 | all contours together have at most one vertex for each point and one for each contour, within the loose bound the array is allocated by |
| `Outline.ImpliedPoint` | components/fonts/stb_truetype.h:1948-1963 | spelling out the point implied between two controls does not change the path |
| `Outline.RotatedContour` | components/fonts/stb_truetype.h:1922-1942 | a contour that starts with a control has the path of the contour rotated to start on the curve |
| `OutlineReader.ContourRead` | components/fonts/stb_truetype.h:1922-1966 | the vertices of a contour read back as its start on the curve, its points with the implied ones spelled out, and the way back to the start |
| `Charstring.GetGlyphShape` | components/fonts/stb_truetype.h:2450-2467 | the counting run and the storing run give the same verdict and count, the array is exactly filled, and it holds what the run draws |
| `Charstring.GetGlyphInfo` | components/fonts/stb_truetype.h:2469-2478 | the box is the least one around everything drawn, control points included, and zero for a failed run |
| `Charstring.RunCharstring` | components/fonts/stb_truetype.h:2182-2448 | for every byte string the interpreter ends, with an operand stack of at most 48 and at most 10 calls, and draws what the run of the abstract machine draws |
| `CharstringWriter.GlyphDraws` | components/fonts/stb_truetype.h:2182-2448 | a glyph written as operands and operators of the Type 2 format draws the legs of its operators in order and closes its last contour |
| `CharstringWriter.NumberRead` | components/fonts/stb_truetype.h:1336-1351 | an operand written in one, two, three or five bytes is read as its value, whole or in 65536ths |
| `CharstringWriter.OperandsNeeded` | components/fonts/stb_truetype.h:2215-2425 | with fewer operands than an operator needs the run stops |
| `CharstringWriter.LimitsStop` | components/fonts/stb_truetype.h:2320-2440 | a forty-ninth operand and an eleventh call stop the run |
| `CharstringWriter.SubroutineEntered` | components/fonts/stb_truetype.h:2141-2152 | with fewer than ten calls open, a local or global subroutine k is entered by the number k less 107, 1131 or 32768, depending on how many there are |
| `Charstring.StepKeeps` | components/fonts/stb_truetype.h:2195-2445 | each step keeps the limits and makes the bytes left per call level fall lexicographically |
| `Charstring.QuietOperator` | components/fonts/stb_truetype.h:2199-2442 | hints, calls, returns and numbers change the machine as the abstract step does and draw nothing |
| `GlyphOperators.DrawOperator` | components/fonts/stb_truetype.h:2215-2425 | each drawing operator draws the legs its operands describe by position, never reading an operand that is not on the stack |
| `GlyphOperators.AlternatingCurveLegs` | components/fonts/stb_truetype.h:2255-2271 | the loop entered in the middle draws curves that alternate between horizontal and vertical tangents, with the fifth operand on the last only |
| `GlyphOperators.StraightCurveLegs` | components/fonts/stb_truetype.h:2297-2314 | curves with parallel tangents, the extra leading operand bending only the first |
| `GlyphOperators.FlexCurves` | components/fonts/stb_truetype.h:2344-2425 | the four flex forms draw the two curves their operands describe |
| `GlyphOperators.FlexReturns` | components/fonts/stb_truetype.h:2344-2425 | the two level forms end level with their start; the last form moves by its last operand in the longer direction and returns to its start in the other |
| `OperatorForms.AlternatingLinesAreLines` | components/fonts/stb_truetype.h:2215-2254 | hlineto and vlineto draw what rlineto draws with the zeros written out |
| `OperatorForms.TurningCurvesAreCurves` | components/fonts/stb_truetype.h:2255-2271 | hvcurveto and vhcurveto draw what rrcurveto draws with all six operands of every curve written out, the tangents turning from curve to curve |
| `OperatorForms.LevelCurvesAreCurves` | components/fonts/stb_truetype.h:2297-2314 | hhcurveto and vvcurveto draw what rrcurveto draws with all operands written out, an odd one at the front slanting the first curve |
| `GlyphPath.Context.AddVertex` | components/fonts/stb_truetype.h:2092-2107 | counting extends the box to exactly the new marks; storing writes the vertex at the next place; both count it |
| `GlyphPath.Context.RMoveTo` | components/fonts/stb_truetype.h:2115-2120 | the open contour is closed before the pen moves |
| `GlyphPath.WidenedIsExtent` | components/fonts/stb_truetype.h:2084-2090 | the tracked box stays the least box around all points seen |
| `GlyphPath.TruncIs` | components/fonts/stb_truetype.h:2117-2138 | coordinates are cut towards zero |
| `GlyphContours.RunClosesContours` | components/fonts/stb_truetype.h:2109-2120 | over any run, the path is back at the start of its contour whenever it moves on, and when the run ends well also at the end |
| `GlyphContours.GlyphClosesContours` | components/fonts/stb_truetype.h:2182-2448 | every contour of a glyph is closed, the last one if the glyph is interpreted successfully |
| `Cmap.FindSegment` | components/fonts/stb_truetype.h:1653-1679 | the biased power-of-two search stays in the table and, if ends ascend, finds the first segment that ends at or after the code point, or the last segment when none does |
| `Cmap.FindGlyph4` | components/fonts/stb_truetype.h:1652-1697 | the glyph is the one that the segment found gives, 0 outside it and above 0xFFFF |
| `Cmap.SearchIsScan` | components/fonts/stb_truetype.h:1652-1697 | without overlapping segments that is the answer of a linear scan |
| `Cmap.FindGlyph12` | components/fonts/stb_truetype.h:1698-1722 | the glyph is 0 or that of a group that contains the code point; with sorted groups it is that of whichever group contains it, in formats 12 and 13 |
| `CmapWriter.FindWritten4` | components/fonts/stb_truetype.h:1652-1697 | in a table of format 4 written from segments with counted or listed glyphs every code point of a segment has the glyph of the mapping, and any other code point none |
| `CmapWriter.FindWritten12` | components/fonts/stb_truetype.h:1698-1722 | the same for tables of formats 12 and 13 written from groups, for glyph numbers below 2^31 |
| `RectPacker.Context.PackRects` | components/fonts/stb_truetype.h:4229-4257 | over any sequence of calls all packed rectangles are pairwise apart, each is inside the target if and only if it is no wider than it, and each call packs exactly the rectangles before the first that is too high for what is left, at the places along the shelves |
| `RectPacker.TooWideSticksOut` | components/fonts/stb_truetype.h:4244-4254 | a rectangle wider than the target that is packed all the same |
| `RectPacker.PlaceOne` | components/fonts/stb_truetype.h:4244-4254 | placing a rectangle on the shelf keeps all that |
| `RectPacker.NewShelf` | components/fonts/stb_truetype.h:4245-4248 | so does starting a new shelf |
| `Buttons.ButtonReader.Run` | components/buttons/buttons.cpp:74-180 | the reader's state and everything it has sent are functions of the successful samples alone |
| `Buttons.ButtonReader.Poll` | components/buttons/buttons.cpp:88-178 | one sample adds the events and the callback that the trace calls for |
| `Buttons.ButtonReader.PollButton` | components/buttons/buttons.cpp:88-152 | the counters of a button track the stability, hold and long-press state of its trace, through saturation |
| `Buttons.PressHasOneEvent` | components/buttons/buttons.cpp:88-152 | every press that ends gives exactly one event: a long press at its fortieth sample if it lasts so long, otherwise a click at its end |
| `Buttons.NoEventAtRest` | components/buttons/buttons.cpp:88-152 | a released button sends nothing |
| `Buttons.BounceIgnored` | components/buttons/buttons.cpp:93-104 | a level that lasts one sample changes nothing |
| `Buttons.TwoSamplesDecide` | components/buttons/buttons.cpp:92-110 | two equal samples decide whether a button is pressed, a low level for pressed |
| `Buttons.ButtonHasPin` | components/buttons/buttons.cpp:88-152 | which pin a button is, upright and upside down: its events are those of the levels of that pin |
| `Buttons.StretchHasOneCombo` | components/buttons/buttons.cpp:159-178 | a stretch with all buttons held makes the callback once if it reaches 250 samples and not otherwise |
| `Buttons.NoComboAtRest` | components/buttons/buttons.cpp:159-178 | without all buttons held the callback is never made |
| `ScreenOrder.BuildScreens` | components/settings/settings_api.cpp:275-329 | the slots are the stored ids that are known, visible and new, then the omitted visible ones in catalogue order, numbered from 0, each under its own name |
| `ScreenOrder.ReadOrder` | components/settings/settings_api.cpp:278-304 | every token that is no number, unknown, hidden or repeated is skipped |
| `ScreenOrder.ListedIsVisible` | components/settings/settings_api.cpp:275-309 | whatever text is stored, every visible screen is listed exactly once |
| `ScreenOrder.ListedExactly` | components/settings/settings_api.cpp:244-309 | GET lists a screen exactly if the device has it and does not hide it, and the feature of screens 70 to 72, 80 and 81, or 90 is on |
| `ScreenOrder.ApplyReorder` | components/settings/settings_api.cpp:1053-1162 | accepted exactly when no entry carries a place or the entries are sound and as many as the visible screens or as all of them; then the ids are stored by place, and a rejected request changes nothing |
| `ScreenOrder.CompleteExactly` | components/settings/settings_api.cpp:1141-1151 | an accepted reorder covers every visible screen if and only if it names no hidden one or all screens there are |
| `ScreenOrder.IncompleteAccepted` | components/settings/settings_api.cpp:1141-1151 | a reorder that is accepted although it leaves a visible screen out |
| `ScreenOrder.CollectPairs` | components/settings/settings_api.cpp:1101-1140 | the error is that of the first entry that is malformed, unknown, repeated or out of range |
| `ScreenOrder.SortedArranges` | components/settings/settings_api.cpp:1152-1157 | distinct places in range put exactly one entry at each place |
| `ScreenOrder.PatchThenGet` | components/settings/settings_api.cpp:1053-1162 | after an accepted reorder GET lists the new order without hidden ids and then the omitted visible ids in catalogue order, also when visibility has changed in between |
| `ScreenOrder.GetIsStable` | components/settings/settings_api.cpp:275-309 | storing the order GET lists leaves what GET lists unchanged |
| `OrderText.ListRoundTrip` | components/settings/settings_api.cpp:1153-1157 | a stored list of numbers reads back as that list |
| `OrderText.NumberRoundTrip` | components/settings/settings_api.cpp:287-298 | a number written in decimal reads back |
| `OrderText.WrittenInDecimal` | components/settings/settings_api.cpp:1153-1157 | numbers are written in decimal digits, the last one last |

## Left out

- Everything behind ESP-IDF (HTTP, Wi-Fi, NVS, I2C, FreeRTOS): a queue send is an attempt recorded in a sequence, a failed port read a missing sample, a stored preference a field.
- Whether a queue accepts an event: only the attempts are modelled, not the drop counter.
- The `uint32_t` and `int` widths of the QR encoder where the source asserts that nothing overflows: quantities are unbounded, with the asserted ranges proved where they matter (lengths up to 32767 bits, penalties up to 2568888).
- Decoding a damaged symbol: the decoder reads intact symbols; for damaged ones it is proved that the answer is unique, not how to compute it.
- Repairing the format and version words: that few wrong modules leave one word possible is proved, how to find it is not. The decoder reads the first copy of the format word as it stands and takes the version from the size.
- Kanji segments: the source has no function that makes them; they are parsed and written as given.
- The loops of `isNumeric`, `isAlphanumeric` and `strchr` are predicates and functions; so are the table lookups.
- `encodeSegments`, `getSize`, `getModule` and `calcSegmentBufferSize` beyond its use in `encodeText`: one branch each.
- Interleaving.AddEccAndInterleave: takes the layout instead of version and level; `LayoutOf` computes it from the tables and `BuildCodewords` passes it on.
- Penalty.LinePenalty: the row loop and the column loop of the source are one method with a flag.
- Floating point in the font routines: edges and charstring operands are real numbers, so rounding, infinities and NaN are not modelled; conversion to integers truncates as in C but without a range limit.
- The five copies of the filter loop for fixed kernel widths in each prefilter are one loop; they differ only in a constant divisor.
- GlyphLoader.DecodeSimpleGlyph: asks that the bytes of the glyph are there. Where the source would read past the vertex array, the model stops and says so.
- Compound glyphs, the glyph locator tables and everything that draws: rasterising, curve flattening, distance fields, kerning.
- The CFF container: the font is given as lists of charstrings and subroutines, and the local subroutines of a glyph are those its font dictionary selects. INDEX parsing and `fdselect` are not modelled.
- The check for a missing last leg in `rcurveline` and `rlinecurve` of the interpreter cannot fail once the operand count has passed and is left out of the loops.
- Cmap.FindGlyph4: asks for a search header that belongs to the segment count, as the OpenType specification does, and for glyph arrays that are there; formats 0, 2 and 6 are not modelled.
- Cmap.FindGlyph12: of groups that are not sorted it is stated that a glyph found is that of a group with the code point, not which one is found.
- ScreenOrder.ApplyReorder: ids and places are integers already cut from JSON numbers, an entry's missing or non-numeric field is an empty option, and the visibility toggles of the second pass are not modelled.
- ScreenOrder.ListedIsVisible: asks for a catalogue without repeated ids, as do the other lemmas on the listed order; `BuildScreens` does not.
- The library sort in the reorder is an insertion sort of which only the contract is used.
- Token values in a stored order are unbounded; the source multiplies in a signed 32-bit integer.
- All other settings, DND, currencies, Nostr relays, screens' `enabled` flags, and the remaining components of the firmware.
