# Filmstund, modelled and proved

Filmstund arranges visits to the cinema: people join a showing, somebody buys the tickets, the others
pay. This project models the parts of it that compute something hard and proves what they are for.

- **QR codes** (`Bits` to `TextEncoding`, with `Pictures` and `InfoDistance`). The whole encoder for ISO/IEC 18004:2015 Model 2 symbols: arithmetic
  in the field of 256 elements, Reed-Solomon codes, segments and bit streams, blocks and interleaving,
  function patterns, the zigzag scan, masks and penalties, and the choice of version, level and mask. The
  main result is `Encoder.SymbolReadsBack`, with `Encoder.EncodedIsReadBack` for the symbols the encoder
  makes: whatever is encoded, a reader that is given nothing but the finished grid gets exactly that back.
  Beside it stand the minimum distance of the codes, which makes a damaged symbol determine its data, the
  count of modules left for data in all 40 versions, the optimality of the automatic mask, the law that
  masking a symbol again is the same as masking its codewords, and the pictures that a scanner looks for.
  What a reader does is written without the encoder's tables: field widths, places of format bits, the path
  of the scan and the places of codewords are stated by themselves.
- **The batching loader** (`Loader`). Callers, timers and fetches as interleaved critical sections. In
  every run a batch is fetched and closed exactly once, loads share a batch until its timer fires or it is
  full, at most three events lie between a thunk and its answer however many loads go on, and every load is a plain lookup, or the error of its batch's one fetch.
- **Tickets and payments** (`Tickets`, `Payments`). Handing out tickets fairly for any order of picks, all
  or nothing, and the tables of showings and attendees as a state machine whose mutations are transactions.
- **Seats and money** (`Decimals`, `Seats`, `Money`). Two printers with the exact conditions under which
  they can be read back.

Classes are what the program updates in place: the coefficient array, the bit buffer, the symbol with its
two grids, the loader, the database. Each of their methods states its new state through a function, and the
lemmas are about those functions. Bytes are integers from 0 to 255 and bit operations are written out on
integers; the 32-bit arithmetic of amounts and of `appendBits` is explicit.

Where the program and its comments differ, the model follows the program: the limits in the comments of
`encodeText` and `encodeBinary` hold for the lowest level only, a barcode that cannot be fetched stops the
handing out of tickets rather than being skipped, and a ticket that cannot be inserted undoes all of them
rather than just being logged. Most mutations end in a query for what they reply with; if that fails, the
caller gets an error although the change is stored.

To verify: `dafny verify dfyconfig.toml`.

## Model

| member | source | states |
|---|---|---|
| ReedSolomon.Multiply | web/src/lib/qrcode.js:1372-1382 | the shift-and-reduce loop returns the field product of its two bytes, for all 65536 pairs, and never leaves the byte range |
| Gf256.MulCommutes | web/src/lib/qrcode.js:1372-1382 | multiplication modulo 0x11D is commutative |
| Gf256.MulAssociates | web/src/lib/qrcode.js:1372-1382 | multiplication modulo 0x11D is associative |
| Gf256.MulAdds | web/src/lib/qrcode.js:1372-1382 | multiplication distributes over XOR |
| Generator.PowersDistinct | web/src/lib/qrcode.js:1341-1350 | the first 255 powers of r = 2 are pairwise different: r is a generator of the field, as the comment there says |
| Generator.Logarithm | web/src/lib/qrcode.js:1341-1350 | every non-zero byte is a power of r |
| Generator.NoZeroDivisors | web/src/lib/qrcode.js:1372-1382 | a product of bytes is zero only if a factor is: the bytes form a field |
| ReedSolomon.NewGenerator | web/src/lib/qrcode.js:1328-1351 | fails exactly outside degrees 1 to 255, and otherwise leaves the generator polynomial without its leading coefficient in the array |
| ReedSolomon.ReedSolomonGenerator.MultiplyIn | web/src/lib/qrcode.js:1343-1348 | one pass over the coefficient array, in place, multiplies the stored product by (x - r^i) |
| ReedSolomon.GeneratorRoots | web/src/lib/qrcode.js:1341-1350 | for every degree n the product vanishes at r^0, ..., r^(n-1) and at no other byte |
| ReedSolomon.ReedSolomonGenerator.GetRemainder | web/src/lib/qrcode.js:1354-1367 | the shift register computes the remainder of data(x) * x^degree by the generator polynomial, for every byte list, the empty one too |
| ReedSolomon.RemainderCompletes | web/src/lib/qrcode.js:1354-1367 | data followed by the computed bytes is a multiple of the divisor |
| ReedSolomon.RemainderUnique | web/src/lib/qrcode.js:1354-1367 | no other bytes of that length make it a multiple |
| ReedSolomon.CodewordRoots | web/src/lib/qrcode.js:1354-1367 | data followed by its n error correction bytes evaluates to zero at r^0, ..., r^(n-1) |
| ReedSolomon.RemainderLinear | web/src/lib/qrcode.js:1354-1367 | the error correction bytes of an XOR of blocks are the XOR of their error correction bytes |
| Distance.MinimumWeight | web/src/lib/qrcode.js:1354-1367 | a non-zero polynomial of at most 255 bytes with those n roots has more than n non-zero bytes (the Singleton bound is met) |
| Distance.DistinctDataFarApart | web/src/lib/qrcode.js:369-381 | blocks with different data differ in more than n bytes once their n error correction bytes are appended |
| Distance.DamagedBlockIdentifiesData | web/src/lib/qrcode.js:369-381 | a block with at most n/2 damaged bytes still determines the data it was made from |
| BitStream.BitBuffer.AppendBits | web/src/lib/qrcode.js:1415-1424 | fails exactly if the length is not 0 to 32 or the value, taken as 32 bits, does not fit; otherwise appends its bits, most significant first |
| BitStream.BitBuffer.AppendData | web/src/lib/qrcode.js:1427-1432 | appends the bits of a segment |
| BitStream.BitBuffer.GetBytes | web/src/lib/qrcode.js:1403-1411 | packs the bits into bytes, the last one filled with zeros |
| BitStream.UnpackPack | web/src/lib/qrcode.js:1403-1411 | unpacking the bytes gives the bits back, followed only by the zero fill |
| BitStream.BitsOfAt | web/src/lib/qrcode.js:1420-1432 | bit k of what is appended is bit len - 1 - k of the value |
| BitStream.PackUnpack | web/src/lib/qrcode.js:1403-1411 | packing the bits of a byte list gives the bytes back |
| BitStream.ValueRoundTrip | web/src/lib/qrcode.js:1415-1424 | a value is recovered from its low `len` bits if and only if it fits them |
| Segments.MakeNumeric | web/src/lib/qrcode.js:1130-1147 | fails exactly on text with other characters than digits; otherwise groups of three digits take 10 bits, a last group 7 or 4 |
| Segments.NumericRoundTrip | web/src/lib/qrcode.js:1130-1147 | reading a numeric segment returns its digits, leading zeros included, for every length |
| Segments.GroupFits | web/src/lib/qrcode.js:1130-1147 | the value of a group of digits never overflows its bits |
| Segments.MakeAlphanumeric | web/src/lib/qrcode.js:1153-1174 | fails exactly on unencodable text; otherwise pairs take 11 bits in base 45, a last character 6 |
| Segments.AlphanumericCodeInverse | web/src/lib/qrcode.js:1213-1276 | the encoding table gives no two characters the same code |
| Segments.CodeIsPlace | web/src/lib/qrcode.js:1213-1276 | the code of a character is its place among digits, upper case letters, space and the eight signs, in the order of the standard |
| Segments.AlphanumericRoundTrip | web/src/lib/qrcode.js:1153-1174 | reading an alphanumeric segment returns its text, for every length |
| Segments.MakeBytes | web/src/lib/qrcode.js:1119-1125 | a byte segment holds the bits of its bytes and their number |
| Segments.BytesRoundTrip | web/src/lib/qrcode.js:1119-1125 | reading a byte segment returns its bytes |
| Segments.GetTotalBits | web/src/lib/qrcode.js:1190-1201 | the length of the whole bit stream, or nothing exactly if some character count does not fit its field |
| Segments.StreamRoundTrip | web/src/lib/qrcode.js:632-636 | a reader with the field widths of the standard, written out by version range and not taken from the encoder, gets exactly the segments that were written, up to the terminator |
| Segments.WritesFieldWidth | web/src/lib/qrcode.js:1283-1304 | for every mode and version the count field has the width that this reader expects |
| Capacity.TableSplits | web/src/lib/qrcode.js:713-1064 | for all 40 versions and 4 levels the error correction codewords divide evenly among the blocks, and every block has data and at most 255 bytes |
| Blocks.LayoutTotals | web/src/lib/qrcode.js:352-364 | the block lengths add up to the data capacity, and the interleaved rows to the raw capacity |
| Blocks.SplitPartitions | web/src/lib/qrcode.js:366-381 | the slices, concatenated, are the data |
| Blocks.SplitIntoBlocks | web/src/lib/qrcode.js:366-381 | the stored blocks: slices with their remainders, and a padding byte in the short ones |
| Blocks.InterleaveBlocks | web/src/lib/qrcode.js:383-391 | row after row of the blocks, leaving out exactly the padding bytes |
| Blocks.AppendErrorCorrection | web/src/lib/qrcode.js:348-395 | fails exactly if the data has the wrong length: the assertions on the tables and on the result length cannot fail |
| Blocks.ReadBack | web/src/lib/qrcode.js:348-395 | de-interleaving gives back every block with its error correction codewords, and all the data |
| Blocks.LayoutIs | web/src/lib/qrcode.js:352-366 | the numbers of blocks, of error correction codewords in each, and of shorter blocks, from the tables and the capacity |
| Blocks.DataPlace | web/src/lib/qrcode.js:370-392 | codeword t of block j is at place t * n + j of the final sequence, where the blocks start one after another and the longer ones come last |
| Blocks.LastDataPlace | web/src/lib/qrcode.js:370-392 | after those come the last data codewords of the longer blocks |
| Blocks.CheckPlace | web/src/lib/qrcode.js:370-392 | and then, at t * n + j, error correction codeword t of block j, which is the remainder of just its data |
| Blocks.UndamagedIsNear | web/src/lib/qrcode.js:348-395 | what is read of an undamaged sequence is within the correction radius of its data |
| Blocks.DamagedSymbolIdentifiesData | web/src/lib/qrcode.js:348-395 | any received codeword sequence within the correction radius, in every block, of two data sequences shows that they are equal |
| Zigzag.ScanIsBijection | web/src/lib/qrcode.js:404-418 | for every odd size from 9 on the zigzag visits each module outside column 6 exactly once, and nothing else |
| Zigzag.ScanIsPath | web/src/lib/qrcode.js:404-418 | the scan starts at the lower right corner and goes to a neighbour every time, but for one step across column 6 within a row: this and the bijection fix every direction |
| Zigzag.ScanInTwos | web/src/lib/qrcode.js:404-418 | it visits two modules of a row at a time, the right one first |
| Zigzag.DataPathLength | web/src/lib/qrcode.js:404-418 | with column 6 reserved the scan finds as many data modules as there are modules without a function |
| Zigzag.PlaceAt | web/src/lib/qrcode.js:404-418 | drawing puts the k-th bit on the k-th data module and touches no other module |
| Zigzag.CollectPlaced | web/src/lib/qrcode.js:404-418 | the same scan reads back the bits it drew |
| QrCodes.QrCode.DrawCodewords | web/src/lib/qrcode.js:399-423 | fails exactly on a wrong codeword count, so the assertion that all bits were drawn cannot fail; otherwise bit i is on data module i and nothing else has changed |
| QrCodes.QrCode.DrawPair | web/src/lib/qrcode.js:407-416 | a pair of columns continues the drawing from where the pairs before it stopped |
| FunctionModules.GetAlignmentPatternPositions | web/src/lib/qrcode.js:662-678 | fails exactly outside versions 1 to 40; otherwise the spliced list is 6 followed by equal steps up to size - 7 |
| FunctionModules.PositionsSpaced | web/src/lib/qrcode.js:659-678 | the positions ascend, far enough apart that no two patterns overlap, and clear of the finder patterns |
| FunctionModules.GapsEqual | web/src/lib/qrcode.js:659-678 | from the second position on the gaps are equal, and the least even number that keeps the first gap within it, but for version 32, where it is 26 |
| FunctionModules.FreeModules | web/src/lib/qrcode.js:683-693 | for all 40 versions the modules without a function number exactly what the capacity formula says |
| Pictures.FindersShown | web/src/lib/qrcode.js:228-341 | whatever its version, level, mask and data, a symbol shows the finder picture with its light frame in three corners, module by module |
| Pictures.AlignmentsShown | web/src/lib/qrcode.js:242-256 | it shows the alignment picture around every pair of positions but three |
| Pictures.TimingShown | web/src/lib/qrcode.js:231-235 | between the finder patterns row 6 and column 6 alternate, dark at even places, all the way through alignment patterns |
| Pictures.DarkModuleShown | web/src/lib/qrcode.js:282-288 | the module beside the lower left finder pattern is always dark |
| QrCodes.QrCode.SetFunctionModule | web/src/lib/qrcode.js:339-342 | sets the colour of one module, marks it, and changes no other |
| QrCodes.QrCode.DrawTimingPatterns | web/src/lib/qrcode.js:231-235 | column 6 and row 6 alternate, and nothing else changes |
| QrCodes.QrCode.DrawFinderPattern | web/src/lib/qrcode.js:313-323 | the 9 by 9 square around a centre, clipped by the grid, has its rings, and nothing else changes |
| QrCodes.QrCode.DrawAlignmentPattern | web/src/lib/qrcode.js:326-335 | the 5 by 5 square around a centre has its rings, and nothing else changes |
| QrCodes.QrCode.DrawAlignmentPatterns | web/src/lib/qrcode.js:243-257 | exactly the alignment patterns outside the three finder corners are drawn |
| FormatInfo.CalculateCheckBits | web/src/lib/qrcode.js:267-269 | the shift-and-XOR loop computes the remainder of long division by the generator |
| FormatInfo.CalculateFormatWord | web/src/lib/qrcode.js:267-272 | the format word, which fits 15 bits: the assertion cannot fail |
| FormatInfo.FormatWordIsCode | web/src/lib/qrcode.js:267-272 | without its constant the format word is a multiple of 0x537 as a polynomial over bits |
| FormatInfo.FormatRoundTrip | web/src/lib/qrcode.js:267-271 | level and mask are recovered from the format word |
| FormatInfo.CalculateVersionWord | web/src/lib/qrcode.js:297-300 | the version word, which fits 18 bits: the assertion cannot fail |
| FormatInfo.VersionWordIsCode | web/src/lib/qrcode.js:297-300 | the version word is a multiple of 0x1F25 as a polynomial over bits |
| QrCodes.QrCode.DrawFormatBits | web/src/lib/qrcode.js:265-289 | both copies show the format word and the fixed module is dark; format modules are marked and no other module changes |
| QrCodes.QrCode.DrawVersion | web/src/lib/qrcode.js:293-310 | from version 7 on both copies show the version word; before that nothing changes |
| QrCodes.QrCode.DrawFunctionPatterns | web/src/lib/qrcode.js:230-261 | afterwards exactly the function modules are marked, and each shows its pattern, whatever was drawn under it |
| QrCodes.QrCode.ApplyMask | web/src/lib/qrcode.js:429-465 | exactly the data modules that the pattern names are inverted |
| Mask.FormulaInverts | web/src/lib/qrcode.js:434-458 | the formulas of the switch are the eight patterns, with the products of the last ones taken modulo 6 |
| Mask.MaskTwice | web/src/lib/qrcode.js:425-428 | applying a mask twice changes nothing |
| Mask.PatternsAre | web/src/lib/qrcode.js:429-460 | the eight patterns as the standard writes them, by x and y |
| Penalty.ScoreRuns | web/src/lib/qrcode.js:472-499 | the one-pass run counter computes the run score of a line |
| Penalty.RunScoreIsTotal | web/src/lib/qrcode.js:472-499 | that score is the sum, over the maximal runs of the line, of L - 2 for each run of length L >= 5 |
| Penalty.RunsOf | web/src/lib/qrcode.js:472-499 | every line has such a decomposition into maximal runs |
| Penalty.ScoreFinders | web/src/lib/qrcode.js:514-535 | the rolling 11-bit value scores 40 for each finder-like window |
| Penalty.WindowsArePlaces | web/src/lib/qrcode.js:514-535 | the windows counted are exactly the places of the line where one of the two patterns stands |
| Penalty.ScoreBlocks | web/src/lib/qrcode.js:501-512 | 3 for each 2 by 2 block of one colour |
| Penalty.ScoreBalance | web/src/lib/qrcode.js:537-551 | 10 times the least k for which the dark share is within 45-5k to 55+5k percent; k is at most 9 |
| Penalty.GetPenaltyScore | web/src/lib/qrcode.js:469-553 | the penalty of a grid of any size is the sum of the declarative scores of its rows, columns, blocks and balance |
| QrCodes.QrCode.Trial | web/src/lib/qrcode.js:123-132 | scores the symbol that a mask gives, and leaves every module outside the format information as it was |
| QrCodes.QrCode.HandleMasking | web/src/lib/qrcode.js:119-136 | a mask asked for is the one used; with -1 no other mask gives a lower penalty and none before it the same; the final grid is the one that was scored for it, whatever the trials drew |
| Symbols.SymbolIsTheGrid | web/src/lib/qrcode.js:78-136 | a grid is the symbol for version, level, mask and codewords if and only if its function modules show their patterns and format bits, and its data modules the codeword bits in scan order, then zeros, inverted by the mask |
| Symbols.DataModulesAll | web/src/lib/qrcode.js:399-423 | the data modules are all the modules without a function, with room for all codewords and at most 7 bits more |
| Symbols.ReadWritten | web/src/lib/qrcode.js:399-465 | unmasking and scanning a symbol gives back its codewords |
| Symbols.Remask | web/src/lib/qrcode.js:110-136 | taking the mask off a symbol and finishing it with any mask gives the symbol and the penalty that its codewords give with that mask |
| QrCodes.FromCodewords | web/src/lib/qrcode.js:78-136 | fails exactly on a mask or version out of range or a wrong data length; otherwise shows the symbol of the final codeword sequence, with the mask asked for, or with -1 the first of the masks whose symbols have the lowest penalty |
| QrCodes.FromSymbol | web/src/lib/qrcode.js:78-136 | an existing symbol with another mask: the symbol of its codewords with the mask asked for, or with -1 the first of lowest penalty |
| QrCodes.QrCode.CopyGrids | web/src/lib/qrcode.js:109-115 | copies both grids of an existing symbol module by module |
| Encoder.FindVersion | web/src/lib/qrcode.js:606-616 | the least version in the range that fits, or nothing exactly if none does |
| Encoder.BoostLevel | web/src/lib/qrcode.js:619-627 | High if that fits, else Quartile if that fits, else Medium if that fits, else Low; or the requested level if it is not to be raised |
| Encoder.BoostedFits | web/src/lib/qrcode.js:618-627 | the level used fits and is never below the requested one |
| Encoder.BuildCodewords | web/src/lib/qrcode.js:630-649 | stream, terminator, byte alignment and alternating pad bytes fill exactly the data capacity, with no append out of range |
| Encoder.PadBytes | web/src/lib/qrcode.js:643-648 | pads 0xEC and 0x11 alternately until the capacity is reached |
| Encoder.PaddingIs | web/src/lib/qrcode.js:638-648 | the data codewords are the stream, zeros for a terminator of up to four bits and the rest of a byte, and then 0xEC and 0x11 by turns |
| Encoder.FilledEnds | web/src/lib/qrcode.js:638-648 | a reader of the filled codewords meets the end of the data right after the last segment |
| Encoder.EncodeSegments | web/src/lib/qrcode.js:587-653 | fails exactly on invalid arguments or if no version in the range fits; otherwise least version, highest level, and the symbol of the padded codewords with the mask asked for, or with -1 the first of lowest penalty |
| Encoder.FormatCopiesShown | web/src/lib/qrcode.js:265-288 | both copies spell the format word, read from written-out lists of modules |
| Encoder.VersionCopiesShown | web/src/lib/qrcode.js:293-309 | from version 7 on both copies spell the version word, whose six highest bits are the version |
| InfoDistance.VersionWordsApart | web/src/lib/qrcode.js:293-299 | the words of two versions differ in at least 8 bits |
| InfoDistance.FormatWordsApart | web/src/lib/qrcode.js:265-273 | the format words of two pairs of level and mask differ in at least 7 bits |
| Encoder.SymbolReadsBack | web/src/lib/qrcode.js:587-653 | for all lists of numeric, alphanumeric and byte segments, and all versions and levels they fit and all masks, a reader given only the grid gets exactly those segments |
| Encoder.EncodedIsReadBack | web/src/lib/qrcode.js:587-653 | every symbol that encodeSegments makes of such segments reads back as them |
| Encoder.SymbolIsNear | web/src/lib/qrcode.js:587-653 | the symbol of a list of segments lies within the correction radius of it |
| Encoder.DamagedGridIdentifiesSegments | web/src/lib/qrcode.js:587-653 | a grid from which, in every block, codewords within the correction radius of two lists of segments are read shows that the lists are equal |
| Utf8.RoundTrip | web/src/lib/qrcode.js:1307-1319 | decoding the bytes of a text returns it, for every list of code points |
| TextEncoding.MakeSegments | web/src/lib/qrcode.js:1180-1187 | no segment for the empty text, else one: numeric for digits, else alphanumeric if it can be, else the bytes in UTF-8, with their counts |
| TextEncoding.SomeVersionFits | web/src/lib/qrcode.js:606-616 | a single segment fits some version exactly up to the largest count of its mode and level: for the lowest level 7089 digits, 4296 alphanumeric characters or 2953 bytes |
| TextEncoding.FitsVersion | web/src/lib/qrcode.js:606-616 | what fits one version and level, in closed form: counts below 2 to the field width of the version range, and so many bits |
| TextEncoding.EncodeText | web/src/lib/qrcode.js:564-567 | succeeds exactly up to 7089, 5596, 3993 or 3057 digits, 4296, 3391, 2420 or 1852 alphanumeric characters, or 2953, 2331, 1663 or 1273 bytes in UTF-8; the symbol has the least version, the highest level and the best mask, and a reader of the grid gets the text |
| TextEncoding.GuaranteedCodePoints | web/src/lib/qrcode.js:557-567 | n code points fit a level whatever they are if and only if 4 * n bytes do |
| TextEncoding.DocumentedCodePoints | web/src/lib/qrcode.js:557-567 | so the documented 738 code points are guaranteed for the lowest level and for no other: 583 characters of four bytes each are refused by the next |
| TextEncoding.EncodeBinary | web/src/lib/qrcode.js:569-578 | succeeds exactly up to 2953, 2331, 1663 or 1273 bytes, so the documented 2953 hold for the lowest level only; the symbol has the least version, the highest level and the best mask, and the grid reads back as the bytes |
| Loader.RunUses | internal/graph/dataloader/publicuserloader_gen.go:182-225 | over every run, whatever callers do meanwhile, every batch uses up one timer, one fetch and one close, and never has more than one of each before it |
| Loader.StaysEnabled | internal/graph/dataloader/publicuserloader_gen.go:206-225 | no event disables another batch event: one that can happen still can at any later time, until it does |
| Loader.ThreeEventsAnswer | internal/graph/dataloader/publicuserloader_gen.go:90-113 | at most three events lie between a thunk and its answer however many loads go on, and it can be resolved exactly when its batch's close has happened |
| Loader.InternalRunsEnd | internal/graph/dataloader/publicuserloader_gen.go:206-225 | in a run without calls the number of timers, fetches and closes is bounded by the work there was at its start |
| Loader.LoadAllAgrees | internal/graph/dataloader/publicuserloader_gen.go:115-130 | a LoadAll in any run, its keys asked for in order and its thunks called in order with anything in between, agrees with the lookup at every index, or has the error of the fetch of that index's batch; indices of one batch fail or succeed together, and a repeated key gets the same answer there, error included |
| Loader.RunKeepsInv | internal/graph/dataloader/publicuserloader_gen.go:182-225 | in every state of every interleaving no channel is closed twice, a detached batch has exactly one end, keys are distinct and at most maxBatch, and each returned position names its key |
| Loader.RunExtends | internal/graph/dataloader/publicuserloader_gen.go:82-87 | over every run keys are only appended to, and a detached batch is frozen, so end may read it without the lock |
| Loader.ClosedEarlyIsFull | internal/graph/dataloader/publicuserloader_gen.go:182-204 | with a limit, at every point of every run a batch has at most so many keys, and one that is closed before its timer has fired has exactly so many |
| Loader.LoadsShareBatch | internal/graph/dataloader/publicuserloader_gen.go:74-88 | loads of keys that are not cached wait for one batch as long as its timer has not fired and it is not full |
| Loader.ClearForgets | internal/graph/dataloader/publicuserloader_gen.go:166-171 | after a key is cleared its next load waits, unless it is primed or resolved in between |
| Loader.CacheRemembers | internal/graph/dataloader/publicuserloader_gen.go:74-112 | once a key is primed, or answered by a fetch that came back well, its loads are answered at once with the lookup value until it is cleared |
| Loader.PrimeOnlyAdds | internal/graph/dataloader/publicuserloader_gen.go:150-164 | priming leaves a key that is present as it is and caches one that is not, and nothing else changes |
| Loader.ClearThenPrime | internal/graph/dataloader/publicuserloader_gen.go:150-171 | clearing a key first primes it by force, as the comment there says |
| Loader.NoThunkWaitsForever | internal/graph/dataloader/publicuserloader_gen.go:90-113 | while a thunk waits, a timer, fetch or close of its batch is pending; done is closed exactly once when it stops waiting |
| Loader.RunErrors | internal/graph/dataloader/publicuserloader_gen.go:222-225 | over every run, whoever loads, primes or clears meanwhile, the errors of a batch are those its one fetch came back with: none, or that one error |
| Loader.RunAnswers | internal/graph/dataloader/publicuserloader_gen.go:90-113 | over every run with a fixed user table and truthful Prime calls the cache holds values of the table only; a batch holds an answer exactly if its fetch happened, which is the table's value for each key if that came back well, and otherwise the one error and nothing else |
| Loader.FetchedFinds | internal/graph/dataloader/ctx.go:44-77 | realigned rows answer every key, in whatever order the query returned them |
| Loader.LoadIsLookup | internal/graph/dataloader/publicuserloader_gen.go:67-114 | in every run a load returns what the plain lookup returns, unless the key was not cached and the fetch of its batch failed, and then exactly that error and no value |
| Loader.FailureCachesNothing | internal/graph/dataloader/publicuserloader_gen.go:103-112 | a thunk of a failed batch leaves the cache as it is, one of a successful batch stores the lookup value |
| Loader.ThunkAnswered | internal/graph/dataloader/publicuserloader_gen.go:90-113 | a thunk whose batch is done returns the lookup value if the fetch of its batch came back well, and otherwise the error of that fetch |
| Loader.FetchModels | internal/graph/dataloader/ctx.go:44-77 | the fetch closure: one model per key in key order, or one error |
| Loader.PublicUserLoader.LoadThunk | internal/graph/dataloader/publicuserloader_gen.go:74-88 | the critical section of a load is one step of the interleaving model |
| Loader.PublicUserLoader.KeyIndex | internal/graph/dataloader/publicuserloader_gen.go:182-204 | finds the key or appends it, starts the timer with the first key, and closes a full batch |
| Loader.PublicUserLoader.WakeTimer | internal/graph/dataloader/publicuserloader_gen.go:206-220 | does nothing to a closing batch, and otherwise detaches it and starts its end |
| Loader.PublicUserLoader.EndFetch | internal/graph/dataloader/publicuserloader_gen.go:222-225 | stores the answers for the batch's keys |
| Loader.PublicUserLoader.EndClose | internal/graph/dataloader/publicuserloader_gen.go:222-225 | closes done, which panics if it is closed already |
| Loader.PublicUserLoader.CallThunk | internal/graph/dataloader/publicuserloader_gen.go:90-113 | returns the value or error at its position, and caches a value that came without error |
| Loader.PublicUserLoader.Prime | internal/graph/dataloader/publicuserloader_gen.go:153-164 | sets the cache unless the key is there, and says whether it did |
| Loader.PublicUserLoader.Clear | internal/graph/dataloader/publicuserloader_gen.go:167-171 | removes the key from the cache |
| Tickets.AssignTickets | internal/graph/ticket.helpers.go:102-181 | for every order of picks owners are chosen fairly, and the transaction holds exactly their rows, or is aborted from the first refused insert on; it stops at the first ticket whose time or date cannot be parsed (an error) or whose barcode is missing (a nil dereference, although the log says it is skipped) |
| Tickets.InsertsAllOrNothing | internal/graph/ticket.helpers.go:151-173 | the inserts one by one arrive at the rows of all tickets if every id is new and every row meets the other constraints, and at an aborted transaction otherwise, although a refused insert is only logged |
| Tickets.OneRefusalDoomsAll | internal/graph/ticket.helpers.go:151-173 | the inserts one by one end in an aborted transaction if and only if one of them is refused, whatever comes before or after it |
| Tickets.DoneMeansAllUsable | internal/graph/ticket.helpers.go:138-155 | all tickets can be handed out if and only if each has a time and a date that can be parsed and a barcode |
| Tickets.MissingBarcodeDoomsAll | internal/graph/ticket.helpers.go:138-160 | a single missing barcode dooms all tickets, by a nil dereference unless an unreadable time or date comes before it |
| Tickets.ProcessTickets | internal/graph/ticket.resolvers.go:20-58 | commits if and only if there is nothing to do, or no statement fails, every ticket is usable and every row is accepted; otherwise the table is as before. When it commits, old rows are as before, each ticket belongs to its one owner, exactly min(m, N) attendees without a ticket gain one, nobody gets another while somebody has none, and the surplus is with the admin. If then the query for the showing that is replied with fails, the caller gets an error and everything stays stored |
| Tickets.AcceptedKeeps | internal/graph/ticket.helpers.go:151-173 | accepted inserts leave the rows that were there as they are, and add one row for each ticket and no others |
| Tickets.AcceptedStored | internal/graph/ticket.helpers.go:151-173 | each accepted ticket belongs to the one user chosen for it |
| Tickets.FairGivesNobodyTwo | internal/graph/ticket.helpers.go:126-178 | in the stored table, while some attendee has no ticket the next one goes to an attendee who has none |
| Tickets.TicketsGained | internal/graph/ticket.helpers.go:102-181 | in the stored table exactly min(m, N) of the attendees without a ticket have one afterwards |
| Tickets.FetchTicketAssignments | internal/graph/ticket.helpers.go:183-199 | marks exactly the attendees who have a ticket for the showing, whatever the order of the joined rows |
| Tickets.NextTicketless | internal/graph/ticket.helpers.go:92-100 | some attendee without a ticket, or none exactly if all have one |
| Tickets.FairCounts | internal/graph/ticket.helpers.go:126-178 | with m attendees without a ticket and N tickets exactly min(m, N) gain one, first one each, and all other max(0, N - m) tickets go to the admin |
| Tickets.GroupRows | internal/graph/ticket.helpers.go:202-209 | each row is mapped to its seats in the order of the tickets |
| Tickets.SeatsOnAll | internal/graph/ticket.helpers.go:202-209 | grouping loses and invents no seat |
| Tickets.SeatsInOrder | internal/graph/ticket.helpers.go:202-209 | the seats on a row are those of all its tickets, in the order of the tickets |
| Payments.Database.ExecMarkGiftCertificates | internal/database/dao/attendees.sql.go:225-249 | the admin's own row and those with a gift certificate become paid and owe nothing, keeping type and certificate; no other row changes, none comes or goes, and for anyone but the admin nothing changes |
| Payments.Database.ExecSetAmountOwed | internal/database/dao/attendees.sql.go:250-274 | what is owed is set in the rows of those who have neither paid nor a certificate, for the admin only; nothing else changes |
| Payments.Database.ExecMarkShowingAsBought | internal/database/dao/showings.sql.go:105-124 | the admin's update of a showing not yet bought; a negative price is refused |
| Payments.Database.AttendShowing | internal/graph/showing.resolvers.go:25-71 | adds the caller exactly if the showing is there and not bought, key and certificate are unused and neither statement fails; the row owes the price for Swish and nothing for a gift certificate, which alone counts as paid, and no other row changes; replies with the showing, or with an error if that query fails, which undoes nothing |
| Payments.Database.UnattendShowing | internal/graph/showing.resolvers.go:73-93 | removes the caller's row and no other, exactly if attending and the statement does not fail; then replies with the showing, or with an error that undoes nothing |
| Payments.Database.CreateShowing | internal/graph/showing.resolvers.go:95-193 | adds a showing that the caller administers and is paid for, at no price yet, with the caller as a paid attendee, or neither row |
| Payments.Database.DeleteShowing | internal/graph/showing.resolvers.go:195-211 | removes a showing that exists, with its attendees; an error of the list query of the reply undoes nothing |
| Payments.Database.MarkAsBought | internal/graph/showing.resolvers.go:213-275 | commits exactly if the showing is there and not bought and no statement of the transaction fails; whichever of them fails, nothing changes; an error of the reply after the commit undoes nothing |
| Payments.Database.UpdateShowing | internal/graph/showing.resolvers.go:277-332 | sets price and payee of a showing for its admin, and nothing for anyone else; replies with the showing, and with an error for a showing that does not exist |
| Payments.Database.PromoteToAdmin | internal/graph/showing.resolvers.go:334-353 | makes a user admin and payee for the admin, unless the tickets are bought; replies with the showing, and with an error for a showing that does not exist |
| Payments.Database.FindShowing | internal/graph/showing.resolvers.go:355-378 | the query that ends most mutations: the showing as it is stored, or an error exactly if there is none or the query fails |
| Payments.Database.UpdatePayment | internal/graph/payment.resolvers.go:50-66 | sets both payment fields freely; an error of the query after the update does not undo it |
| Payments.PurchaseSettles | internal/graph/showing.resolvers.go:213-275 | a committed purchase by the admin leaves every attendee paid or owing exactly the price, so that unpaid debt is price times the number unpaid, and changes no other showing |
| Payments.AttendingOwesPrice | internal/graph/showing.resolvers.go:25-71 | attending raises the unpaid debt by exactly the price for a Swish payer, and not at all for a gift certificate |
| Payments.LeavingCancelsDebt | internal/graph/showing.resolvers.go:73-93 | leaving takes what the leaver still owes from the debt |
| Payments.OnlyAdminBuys | internal/graph/showing.resolvers.go:233-261 | a purchase by anyone else changes nothing |
| Payments.RunConsistent | internal/database/dao/attendees.sql.go:13-37 | over every run attendees attend showings that exist, prices are not negative, and no gift certificate is used twice |
| Payments.RunKeepsBought | internal/database/dao/showings.sql.go:105-145 | over every run a bought showing stays bought with the same admin, as long as it exists |
| Payments.RunKeepsSettled | internal/graph/showing.resolvers.go:25-353 | over every run after a purchase, without payments set by hand, every attendee has paid or owes the price of the purchase, even if the price is changed later |
| Payments.RunPrice | internal/database/dao/showings.sql.go:351-389 | the price of a bought showing after any calls is the one of its admin's last update that was not refused, whoever else calls what |
| Payments.ShownPriceIsOwed | internal/graph/showing.resolvers.go:277-332 | after a purchase, and without payments set by hand, the price shown is what every attendee has paid or owes if and only if the admin's updates end at the price of the purchase or everybody has paid |
| Seats.GroupSeatingRange | web/src/lib/summarizeSeatingRange.ts:1-12 | the reduce with its last element computes the groups, for every list of integers |
| Seats.GroupsAreGrouping | web/src/lib/summarizeSeatingRange.ts:1-12 | the groups concatenate to the list, each is a non-empty run of consecutive numbers, and none continues the one before it |
| Seats.GroupingUnique | web/src/lib/summarizeSeatingRange.ts:1-12 | no other grouping has these properties |
| Seats.GroupingShortest | web/src/lib/summarizeSeatingRange.ts:1-12 | no way to cut the list into runs needs fewer of them |
| Seats.FormatSeatingRow | web/src/lib/summarizeSeatingRange.ts:14-24 | the formatted row of seats that are not negative reads back as the list |
| Seats.RowRoundTrip | web/src/lib/summarizeSeatingRange.ts:14-24 | reading the joined ranges returns the list |
| Seats.PrintReads | web/src/lib/summarizeSeatingRange.ts:14-21 | any number is printed in decimal, with a minus sign exactly if it is negative |
| Money.Sek.UnmarshalGQL | internal/currency/sek.go:27-51 | parses kronor and ören separately, with 32-bit wrap-around; a value that cannot be parsed leaves the amount as it was |
| Money.ParseAmounts | internal/currency/sek.go:27-51 | for all whole numbers of kronor and ören the amount is 100 times the one plus the other, in 32 bits, whatever follows a space; numbers beyond 64 bits are refused |
| Money.ParsePrinted | internal/currency/sek.go:18-51 | what parsing a printed amount returns, for every 32-bit amount |
| Money.RoundTrip | internal/currency/sek.go:18-51 | that is the amount itself if and only if it is whole kronor, or positive with ören that are not a multiple of 10 |
| Money.RoundTripLosses | internal/currency/sek.go:18-51 | examples: 1.5 kr is read as 105 ören, -0.5 kr as 5 |
| Money.KronorIsNearest | internal/currency/sek.go:23-25 | rounding to whole kronor gives a nearest amount, halves away from zero |

## Left out

- Drawing on a canvas and the SVG text: output.
- Lone surrogates, which `encodeURI` throws on: a text is a list of Unicode scalar values.
- Kanji and ECI payloads: the program has no maker for them. A Kanji segment can still be encoded, but the reader of the model does not decode it.
- Dynamic type checks of JavaScript (`instanceof`, `undefined` arguments).
- A decoder that corrects errors: what is proved is that damage within the radius leaves only one data sequence possible.
- Dates, titles, places, cinema screens and logging of showings and tickets; the download of tickets and shows. A download is a parameter that may fail.
- Isolation of concurrent transactions, foreign keys to users and gift certificates, and certificates being deleted: each mutation is atomic, a failed statement dooms its transaction, and users and certificates are taken to exist.
- The check that a caller is the admin, which a GraphQL directive makes before a resolver runs: the resolvers are modelled for every caller.
- Loader.PublicUserLoader.EndFetch: does not split the query into sending and receiving; nothing can change the keys in between, as Loader.RunExtends shows.
- Payments.Database.DeleteShowing: the list it replies with; only whether that query fails is modelled.
- Payments.Database.FindShowing: what others change between a mutation and its reply.
- Loader.LoadAllAgrees: LoadAll itself is not a method, as other goroutines run between its steps; it is modelled by its events within a run.
- Tickets.ProcessTickets: the update of the showing that comes before it can only fail or not; what it sets is the statement of Payments.Database.UpdateShowing.
- Money.ParsePrinted: printing is exact decimal printing; that `FormatFloat` prints a 32-bit amount divided by 100 so is not proved.
- Seats.GroupSeatingRange: numbers are unbounded integers; JavaScript's are exact up to 2^53.
- Filmstaden, TMDB, Auth0, sessions, HTTP, configuration, React components and generated GraphQL code: plumbing over libraries that are not part of this model.
