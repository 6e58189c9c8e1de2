# bzip2 and zlib: what goes in comes out

A Dafny model of the two compression libraries that the repository carries under `dep/`: bzip2's block pipeline in both
directions (`dep/bzip2`), zlib's deflate and inflate (`dep/zlib`), and zlib's two checksums. Loops, arrays and
structures are modelled as methods, arrays and classes. Each is proved against functions on sequences: sorted rotations,
plain move-to-front lists, canonical codes, bit lists, LZ77 expansion. The main results are

- `Bzip2.RoundTrip`: for every input, cut up in any way and with any flushes in between, and every block size,
  decompressing what was compressed ends well and gives the input back;
- `Zlib.RoundTrip`: the same for every level from 1 to 9, strategy, window and token buffer, as long as in no block the
  output reaches a token that has not been read yet, for the two share memory. It is stated exactly for which blocks
  that is so, and for which calls it follows;
- `Bzip2.SameInBothModes`: on all data, damaged or not, and for all slices of output space, the fast and the small
  decompressor report the same; they show the same output if and only if decompression does not stop at corrupt runs;
- `InflateLoop.SameState` and `InflateLoop.Compare`: `inflate_fast` and the slow states of `inflate` stop in the same
  state, at the same bit, with the same output, whatever tables and windows they work on;
- `InflateTable.SpaceSuffices`: the 852 and 592 table entries of `inftrees.h`, found there by exhaustive search, are
  enough for every complete code of 286 and 30 symbols, by an argument;
- `BlockCoder.Coder.FlushBlock`: the sizes computed from the symbol frequencies are the numbers of bits sent, with the
  same proviso;
- `CodeLengths.MakeCodeLengths`: length limiting by halving the weights ends for every frequency table;
- `CrcCombine.Combine` and `Adler32.Combine`: combined checksums are those of the concatenation.

Some properties hold only in part, and the exact condition is proved:

- deflate writes a block over the buffers of its tokens. Each token must be read before the output gets there
  (`Overlay.EntrySpared`), and it is if and only if `DeflateBlock.PlanInTime` holds of the form in
  which the block is sent. The comment in
  `deflate.c` gives as the reason that a match takes 24 bits on average. With Z_FIXED it can take 31: of all windows
  only the smallest, of 512 bytes, is safe then (`OverlayLimits.SmallestWindow`), and in `OverlayLimits.FarBlockFails`
  the 71st of equal matches is read wrong. Blocks of literals only and short blocks are safe with every strategy
  (`BlockTiming.SafeInTime`).
- bzip2's decompressor accepts up to 32767 selectors and has arrays for 18002. All stores are in bounds if and only if
  there are no more of them than that (`BlockFormat.SelectorLimit`); beyond, the model ends with the outcome
  `ArrayOverrun`, since what the code does then is undefined.
- A block whose runs are corrupt: the fast un-RLE routine returns before it saves how far it has written, the small one
  counts every byte. What the two show is the same if and only if the runs are not corrupt
  (`StreamDecompressor.SeenAlike`); `StreamDecompressor.CorruptSlices` is a block of 101 bytes of which fast mode shows
  none or 100.
- A window smaller than 32K refuses a distance that can be reached, or the other way round, unless it holds as much as
  is within reach or as the greatest distance (`InflateLoop.ReachIsChecked`, `InflateLoop.RefusedInReach`).
- `inflateSync` shifts its accumulator up where the byte boundary lies below, so that the bytes it searches first are
  the ones in the stream only if the accumulator holds whole bytes or no whole byte (`SyncSearch.HeldInOrder`);
  otherwise it can miss a mark and can find one where there is none (`SyncSearch.MissedAndInvented`).

## Modules

- Common: `Bits`, `Bytes`, `Permutations`, `Counting`, `Canonical` (canonical codes).
- bzip2 sorting: `Rotations`, `BucketSort`, `QuickSort`, `FallbackSort`; `Bwt` and `InverseBwt`.
- bzip2 stages: `RunLength`, `RunEncoder`, `Output`; `Mtf`, `ByteMap`, `MtfEncoder`, `MtfTable`; `NodeHeap`,
  `HuffmanTree`, `HuffmanForest`, `CodeLengths`, `SymbolFetch`; `BitIO`, `BlockCrc`.
- bzip2 blocks and streams: `BlockFormat`, `BlockData`, `BlockHeader`, `BlockCodec`, `TableChoice`, `BlockWriter`,
  `BlockCompressor`, `BlockReader`, `ColumnReader`, `BlockDecompressor`, `BlockMeaning`, `StreamCompressor`,
  `StreamDecompressor`, `StreamMeaning`, `ParseProgress`, `Bzip2`.
- deflate, matches: `Lz77`, `HashChain`, `Deflate`, `DeflateStream`.
- deflate, trees: `DeflateHeap`, `DeflateTree`, `DepthClamp`, `TreeLengths`, `LengthRepair`, `TreeCodes`, `TreeGrowth`,
  `Trees`, `StaticTrees`.
- deflate, bits: `ZBits`, `LengthCodes`, `TokenCode`, `CodeLengthCode`, `TreeTransmission`, `DynamicHeader`,
  `BlockCost`, `Overlay`, `DeflateBlock`, `BlockCoder`, `BlockTiming`, `OverlayLimits`, `DeflateEncoder`.
- inflate, tables: `DeflateCodes` (section 3.2.2 of RFC 1951), `SortedCodes`, `HuffStep`, `TableSlots`, `TableSpace`,
  `TableBuilder`, `InflateTable`, `EntryCode`.
- inflate, decoding: `InflateSpec`, `BitSource`, `SlidingWindow`, `InflateLoop`, `InflateHeader`, `InflateStream`,
  `SyncSearch`; `PlanReading` and `Zlib` for both directions.
- Checksums: `Word32`, `Crc32`, `CrcCombine`, `Adler32`.

## Model

| member | source | states |
|---|---|---|
| `Bzip2.RoundTrip` | dep/bzip2/bzlib.c:407-463 | compressing any list of inputs with any runs and flushes between them, then decompressing in either memory mode into buffers of any sizes, ends with the stream end and gives exactly the inputs |
| `Bzip2.Decompress` | dep/bzip2/bzlib.c:808-858 | for all data and all slices of output space the outcome is a function of the data alone, and so is the output, apart from corrupt runs, of which small mode shows all and fast mode what the calls before the last one took; success is reported only where an end mark is followed by the combined CRC of what was written; a compressed stream gives its runs back |
| `Bzip2.SameInBothModes` | dep/bzip2/bzlib.c:817-840 | for all data, damaged or not, fast and small mode end alike whatever the slices of output space; fast mode shows no more, and the same if and only if decompression does not stop at corrupt runs; an overrun of the selector arrays comes only from a field that says more than 18002 |
| `StreamDecompressor.SeenAlike` | dep/bzip2/bzlib.c:621-684 | of a block both modes show the same, for any slices of output space, if and only if its runs are not corrupt |
| `StreamDecompressor.CorruptSlices` | dep/bzip2/bzlib.c:638-639 | four equal bytes without a count: small mode shows 101 bytes, fast mode none in one large buffer and 100 in buffers of 50 |
| `StreamMeaning.CorruptTail` | dep/bzip2/bzlib.c:817-823 | a turn has output that counts in one mode only exactly when the block's runs are corrupt, and then ends in a data error |
| `Bzip2.Compress` | dep/bzip2/bzlib.c:407-463 | the stream is header, blocks, trailer and padding for blocks of maximal runs that together stand for the input |
| `BlockMeaning.SameBlock` | dep/bzip2/decompress.c:74-102 | what a block's bits decode to does not depend on which proper decoding tables were made for its lengths |
| `BlockCodec.BlockRoundTrip` | dep/bzip2/compress.c:602-668 | the bits of a block parse back to its column, primary index and CRC, and not a bit more or less is taken |
| `BlockCompressor.CompressBlock` | dep/bzip2/compress.c:602-668 | what is appended is the mark and the bits of a legal choice of order, tables and selectors for the block |
| `BlockCompressor.BlockSort` | dep/bzip2/blocksort.c:1031-1089 | the sorted rotation order, the block unchanged, and an index at which the order has rotation 0 |
| `BlockDecompressor.ReadBlock` | dep/bzip2/decompress.c:220-492 | Ok, starved, corrupt or out of bounds exactly as the bits parse; when Ok, column, fields, position and byte tallies are the parsed ones |
| `BlockFormat.SelectorLimit` | dep/bzip2/decompress.c:286-318 | of the numbers of selectors from 1 to 32767, which are all accepted, those up to 18002 and no others keep every store within the arrays whatever follows; for each larger one a block that overruns them |
| `ParseProgress.BlockOverrun` | dep/bzip2/decompress.c:220-492 | no other part of a block can overrun an array: where a block does, its number of selectors is above 18002 |
| `BlockReader.ReadPlaces` | dep/bzip2/decompress.c:291-301 | fills selectorMtf with the places the bits spell, and reports the store behind its end exactly where the bits ask for one |
| `BlockReader.UndoSelectors` | dep/bzip2/decompress.c:303-318 | the selectors are the places undone by a plain move-to-front list |
| `RunEncoder.EState.Compress` | dep/bzip2/bzlib.c:361-463 | no input byte is lost or doubled, blocks already handed over stay, flush and finish leave no open run and no open block; every block is a list of maximal runs within the size limit, with their CRC |
| `RunLength.RunsRoundTrip` | dep/bzip2/bzlib.c:216-247 | a block written from maximal runs expands to what the runs stand for |
| `Output.DState.UnRleFast` | dep/bzip2/bzlib.c:536-684 | reports corruption exactly when the pending runs are corrupt and the room reaches to their end, and then nothing counts as written and no field has changed; otherwise writes as much of what is pending as there is room for and moves the CRC along with it |
| `Output.DState.UnRleSmall` | dep/bzip2/bzlib.c:705-801 | writes as much of what is pending as there is room for and moves the CRC along with it; reports corruption exactly when the pending runs are corrupt and there is room left behind them |
| `Bwt.BwtRoundTrip` | dep/bzip2/decompress.c:559-573 | for every block, periodic ones included, and every sorted rotation order, the last column listed by a stable counting sort and walked from the primary index is the block |
| `InverseBwt.ReverseLinks` | dep/bzip2/decompress.c:536-545 | pointer reversal over the packed 20-bit links inverts the permutation on the primary index's cycle and ends |
| `InverseBwt.IndexIntoF` | dep/bzip2/bzlib.c:687-698 | the byte whose range of the cumulative table holds the index |
| `InverseBwt.CumulativeInRange` | dep/bzip2/decompress.c:494-517 | the checks on tallies and cumulative table never fail for a column of bytes |
| `FallbackSort.FallbackSort` | dep/bzip2/blocksort.c:212-329 | ends for every legal block size with a rotation order that is a permutation sorted by cyclic rotations, and with the overwritten block rebuilt |
| `FallbackSort.BucketsSorted` | dep/bzip2/blocksort.c:256-313 | either way out of the doubling loop makes the bucket invariant a sorted rotation order |
| `QuickSort.FallbackQSort3` | dep/bzip2/blocksort.c:93-180 | rearranges any range of a legal block into class order, and the stack assertion holds at every pop |
| `BucketSort.FallbackSimpleSort` | dep/bzip2/blocksort.c:32-59 | the two insertion passes rearrange the range into class order |
| `MtfEncoder.GenerateMTFValues` | dep/bzip2/compress.c:120-231 | the symbols are the plain move-to-front code of the column with bijective run digits and the end mark, no more of them than there are bytes, plus one |
| `Mtf.MtfRoundTrip` | dep/bzip2/decompress.c:377-486 | decoding the symbols of a column, from the same list and with any run pending, gives the pending run and the column |
| `MtfTable.Table.MoveToFront` | dep/bzip2/decompress.c:430-478 | the sliding 16x16 table stays the plain list with entry nn moved to the front, re-basing included |
| `ColumnReader.Unpacker.ReadColumn` | dep/bzip2/decompress.c:349-486 | Ok, starved or corrupt exactly as the symbol list in the bits is, and when Ok the column is the one it stands for |
| `CodeLengths.MakeCodeLengths` | dep/bzip2/huffman.c:63-148 | ends for every frequency table of 2 to 258 symbols, with lengths from 1 to maxLen and a Kraft sum of exactly one |
| `HuffmanForest.DeepIsHeavy` | dep/bzip2/huffman.c:120-147 | a Huffman tree deeper than twelve weighs at least 610, so halving the weights cannot go on for ever |
| `Canonical.AssignCodes` | dep/bzip2/huffman.c:152-166 | every symbol gets its number of the canonical code |
| `SymbolFetch.FetchCodeword` | dep/bzip2/decompress.c:74-102 | a codeword followed by anything is read as its symbol and used up exactly |
| `SymbolFetch.FetchOnlyCodewords` | dep/bzip2/decompress.c:74-102 | a symbol is read exactly when its codeword stands in the bits, for every length vector with Kraft sum at most one |
| `SymbolFetch.PrefixCode` | dep/bzip2/huffman.c:152-166 | no codeword begins another |
| `TableChoice.ChooseTables` | dep/bzip2/compress.c:265-456 | two to six complete codes for the whole alphabet and one legal selector for each group of 50 |
| `BitIO.BitWriter.Put` | dep/bzip2/compress.c:71-78 | appends exactly the n bits of the value to what has been written |
| `BitIO.BitReader.GetBits` | dep/bzip2/decompress.c:43-65 | delivers the next n bits once they are there, and otherwise nothing |
| `Zlib.RoundTrip` | dep/zlib/deflate.c:665-976 | for levels 1 to 9, every strategy, window, hash size and token buffer, every cutting of the input and every flush: inflate ends well on what deflate made, gives the input back and leaves no byte over, if in every block of the stream each token is read in time; and they are with Z_HUFFMAN_ONLY, with so little input that 31 bits for each byte fit the buffer's first quarter, and with Z_FIXED and a window of 512 bytes |
| `Zlib.Compress` | dep/zlib/deflate.c:665-976 | all tokens are read in time if and only if each of the blocks that the input is sent in, in its best form and where it stands in the stream, keeps its output behind its tokens; then the bytes are a stream of these blocks that stands for the input, padded to a whole byte |
| `DeflateEncoder.EncodeOne` | dep/zlib/deflate.c:1538-1547 | a block is sent in its best form and adds what it stands for, if and only if its tokens are read in time |
| `Overlay.EntrySpared` | dep/zlib/deflate.c:299-313 | an entry of the shared buffer survives any output if and only if that ends at the entry's distance or before |
| `Overlay.LaidKept` | dep/zlib/trees.c:1098-1100 | output up to an entry leaves it and all entries behind it as they were tallied |
| `BlockTiming.SafeInTime` | dep/zlib/deflate.c:228-230 | in whichever form it is chosen to be sent, a short block, one of literals only, and with Z_FIXED one without distances above 256 has its tokens read in time |
| `OverlayLimits.StaticLimit` | dep/zlib/trees.c:1098-1100 | every block that fits the buffer is sent right with the static trees if and only if no distance exceeds 256 |
| `OverlayLimits.SmallestWindow` | dep/zlib/deflate.c:228-230 | of the windows from 512 bytes to 32K only the smallest one keeps all static blocks right |
| `OverlayLimits.FarBlockFails` | dep/zlib/trees.c:967-973 | with Z_FIXED and 128 tokens, a block of equal matches 20000 bytes back: the first 70 are read in time, by then 270 bytes are written, and the distance read next is not the one tallied |
| `DeflateStream.Tokenize` | dep/zlib/deflate.c:897-945 | over any number of calls and flushes the blocks expand to exactly the bytes that went in, every match is legal, and only the last block is marked last |
| `Deflate.Deflater.DeflateFast` | dep/zlib/deflate.c:1628-1725 | keeps the invariant that the tallied tokens expand to the bytes consumed, the window holds the input and the hash chains hold what was inserted |
| `Deflate.Deflater.DeflateSlow` | dep/zlib/deflate.c:1730-1855 | the same with a match or literal held back, which is settled when the call finishes |
| `Deflate.Deflater.DeflateRle` | dep/zlib/deflate.c:1861-1928 | the same for matches of distance one |
| `Deflate.Deflater.DeflateHuff` | dep/zlib/deflate.c:1934-1967 | the same for literals only |
| `Deflate.Deflater.LongestMatch` | dep/zlib/deflate.c:1148-1290 | a result better than before is a real match within reach, although its third byte is never compared: chain members share it through their key |
| `Deflate.Deflater.FillWindow` | dep/zlib/deflate.c:1390-1532 | input moves into the window in order, none lost; sliding keeps window, chains, match and block positions together |
| `Deflate.Deflater.InsertString` | dep/zlib/deflate.c:181-190 | the chains stay those of the positions inserted so far, and the head returned has the same key |
| `Deflate.Deflater.ForgetHistory` | dep/zlib/deflate.c:931-938 | after a full flush nothing before it can be matched, and the invariant holds from there |
| `Lz77.RepeatAt` | dep/zlib/inflate.c:1123-1166 | every byte of a copied match is the one dist bytes before it |
| `LengthCodes.InitLengths` | dep/zlib/trees.c:257-270 | the table gives every match length the code whose range holds it, and every code its base |
| `LengthCodes.InitDists` | dep/zlib/trees.c:272-288 | the two-part table gives every distance the code whose range holds it, and every code its base |
| `StaticTrees.StaticLitTree` | dep/zlib/trees.c:290-301 | the static codes are the canonical ones of the fixed lengths |
| `StaticTrees.SameDistWord` | dep/zlib/trees.c:303-307 | deflate's five-bit static distance codes are those that inflate reads |
| `Trees.Builder.BuildTree` | dep/zlib/trees.c:617-699 | a complete code within the length limit for every symbol that occurs, with its reversed codewords; the sizes grow by exactly what the symbols cost, forced codes compensated; rarer symbols never get shorter codes |
| `LengthRepair.GenBitlen` | dep/zlib/trees.c:488-565 | the lengths form a complete code within the limit, counted in bl_count, and the sizes are those of the repaired lengths |
| `DepthClamp.BalanceEnd` | dep/zlib/trees.c:505-528 | the nodes cut off are even in number and twice the excess of the Kraft sum |
| `DepthClamp.ShorterLeaf` | dep/zlib/trees.c:533-536 | while there is an excess a leaf above the greatest depth exists |
| `DepthClamp.RepairStep` | dep/zlib/trees.c:534-544 | a repair step takes exactly one unit off the excess |
| `TreeCodes.GenCodes` | dep/zlib/trees.c:575-607 | every symbol in use gets its reversed codeword, and the consistency check holds exactly for complete codes |
| `DeflateBlock.CodeFromTree` | dep/zlib/inftrees.c:131-138 | inflate_table does not turn down a code that build_tree made, cut off behind its last symbol or anywhere beyond |
| `DeflateHeap.PqDownHeap` | dep/zlib/trees.c:453-476 | restores the heap property from k on by rearranging |
| `TreeTransmission.ScanTree` | dep/zlib/trees.c:705-744 | counts for every bit length symbol how often send_tree will send it |
| `TreeTransmission.SendTree` | dep/zlib/trees.c:750-795 | sends the items of the tree's lengths, which are the ones that were counted |
| `CodeLengthCode.LengthsRoundTrip` | dep/zlib/inflate.c:936-982 | the items of both trees, sent one after the other, are expanded to exactly both length arrays, repeats crossing from one to the other not confused |
| `DynamicHeader.HeaderSent` | dep/zlib/trees.c:836-860 | a dynamic block's header reads back as both codes, and nothing behind it is touched |
| `BlockCost.TokensCost` | dep/zlib/trees.c:1060-1105 | tokens and end of block take as many bits as their frequencies cost |
| `BlockCost.ItemsCost` | dep/zlib/trees.c:750-795 | transmitted lengths take as many bits as the frequencies of the bit length code cost |
| `BlockCost.DescsFit` | dep/zlib/trees.c:125-133 | the three tree descriptions are such as build_tree needs them |
| `BlockCoder.Coder.Tally` | dep/zlib/trees.c:1010-1055 | the token goes into the shared buffer behind the others, and the frequencies stay those of the tallied tokens |
| `BlockCoder.Coder.BuildTrees` | dep/zlib/trees.c:924-938 | opt_len and static_len are the numbers of bits of header and tokens in the dynamic form, and of the tokens in the static form |
| `BlockCoder.Coder.FlushBlock` | dep/zlib/trees.c:907-1004 | the shortest of the forms allowed is chosen, and opt_len + 3 and static_len + 3 are the bits that the two forms take; the block is sent in it and the frequencies start anew, if and only if the form's output does not reach a token before it is read, which can be seen beforehand of blocks that are short, of literals only, or with Z_FIXED without distances above 256 |
| `DeflateBlock.SendAllTrees` | dep/zlib/trees.c:836-860 | sends counts, bit length code in its order, and the items of both trees |
| `DeflateBlock.CompressBlock` | dep/zlib/trees.c:1060-1105 | reads each token from the buffer that its own output grows into; exactly the bits of the tallied tokens and of the end of the block are sent, if and only if before each token the bytes written end at its entry or before |
| `DeflateBlock.CopyBlock` | dep/zlib/trees.c:1205-1226 | pads to a byte and sends length, complement and bytes |
| `ZBits.BitSink.SendBits` | dep/zlib/trees.c:188-211 | appends exactly the low bits of the value, across the 16-bit buffer |
| `ZBits.BitSink.Windup` | dep/zlib/trees.c:1186-1199 | pads with zeros to the next byte and empties the buffer |
| `ZBits.BitSink.FlushPending` | dep/zlib/deflate.c:642-662 | all whole bytes leave, so that every block begins with an empty pending buffer and less than a byte in the bit buffer |
| `DeflateEncoder.EncodeMark` | dep/zlib/deflate.c:923-939 | what a flush puts behind a block decodes to nothing, and after a sync or full flush the bytes end with the mark that inflateSync looks for |
| `PlanReading.PlanSent` | dep/zlib/inflate.c:826-1173 | a block in any of the three forms reads back as its tokens or bytes, and nothing behind it is touched |
| `InflateTable.Build` | dep/zlib/inftrees.c:32-306 | -1 exactly for lengths that are turned down, never out of space for the sizes inflate asks for, and otherwise a table from which every codeword reaches its symbol through the root table and at most one sub-table, other entries untouched |
| `InflateTable.LookupDecodes` | dep/zlib/inftrees.c:172-306 | looking up any bits gives the symbol whose codeword of section 3.2.2 of RFC 1951 they begin with, with its length, or the mark for an invalid code |
| `InflateTable.SpaceSuffices` | dep/zlib/inftrees.h:38-51 | 852 and 592 entries hold the tables of every complete code of at most 286 and 30 symbols with root sizes 9 and 6 |
| `TableSpace.AllTables` | dep/zlib/inftrees.c:259-290 | sub-tables belong to the root strings that no short codeword begins, have two leaves each at least, and need hardly more entries than leaves and the deepest table together |
| `TableBuilder.SubTableBits` | dep/zlib/inftrees.c:268-276 | wide enough for every codeword with these root bits, and not wider than one of them needs |
| `HuffStep.Increment` | dep/zlib/inftrees.c:241-250 | the backwards increment gives the reversed successor |
| `EntryCode.PaddedIsRight` | dep/zlib/inflate.c:1031-1035 | an entry found with too few bits, filled up with zeros, is right exactly when it needs no more than have arrived |
| `BitSource.Source.NextEntry` | dep/zlib/inflate.c:1031-1048 | the slow states decode the next symbol of the code, or stop for lack of input with nothing used, and never pull a byte too many |
| `BitSource.Source.FastEntry` | dep/zlib/inffast.c:120-138 | the fast loop decodes the same symbol, and goes to a second level at most once |
| `BitSource.Source.GiveBack` | dep/zlib/inffast.c:309-313 | unused whole bytes go back to the input and no bit of the stream is lost or doubled |
| `SlidingWindow.Sink.CopyMatch` | dep/zlib/inffast.c:187-282 | in all three window cases, wrapped or not, the copied bytes are those of the history dist bytes back; too far is refused |
| `SlidingWindow.Sink.CopyPiece` | dep/zlib/inflate.c:1123-1166 | the slow copy does the same for as much as one piece allows |
| `SlidingWindow.Sink.UpdateWindow` | dep/zlib/inflate.c:379-427 | the circular window ends up holding the last bytes of all output |
| `SlidingWindow.Sink.GetDictionary` | dep/zlib/inflate.c:1268-1289 | delivers the last bytes of the history in order, wherever the window's write index stands |
| `InflateLoop.Inflater.Slow` | dep/zlib/inflate.c:1021-1173 | the states LEN to LIT reach a point where nothing more can be done without changing what the rest of the bits means |
| `InflateSpec.BlockSent` | dep/zlib/inflate.c:1021-1173 | a block that was sent with distances up to a limit decodes to what its tokens stand for, ends right behind it, and keeps to that limit |
| `InflateLoop.Inflater.Fast` | dep/zlib/inffast.c:67-324 | the fast loop keeps that meaning too, without checking input or room, and ends in a state of the slow loop |
| `InflateLoop.Inflater.Run` | dep/zlib/inflate.c:1021-1173 | the same for inflate with inflate_fast wherever input and room suffice |
| `InflateLoop.SameState` | dep/zlib/inffast.c:37-66 | two stuck states that mean the same have the same mode, output, input position, accumulator, and length, offset and extra bits where the mode uses them |
| `InflateLoop.Compare` | dep/zlib/inffast.c:37-66 | with and without inflate_fast, from the same bits and history, both stop with the same output in the same state at the same bit |
| `InflateLoop.Inflater.Calls` | dep/zlib/inflate.c:1216-1252 | the meaning of a block survives any number of calls with inputs and buffers of any sizes, for every window and bits whose distances it can hold |
| `InflateLoop.NeverStrays` | dep/zlib/inftrees.c:66-73 | with a limit of 32768 no bits exceed it, whatever the codes |
| `InflateLoop.ReachIsChecked` | dep/zlib/inflate.c:1125-1133 | the window's check on distances agrees with what is within reach for all positions and all distances up to a limit if and only if the window has as much as is within reach, or as that limit |
| `InflateLoop.RefusedInReach` | dep/zlib/inflate.c:1125-1133 | a window that holds less than the history refuses a distance beyond it that the history reaches, where the match stands for bytes of the history |
| `InflateHeader.ReadCodeLens` | dep/zlib/inflate.c:936-982 | the lengths read through the built table are those the bits spell, starved or invalid exactly as they are |
| `InflateHeader.ReadDynamic` | dep/zlib/inflate.c:897-1018 | done, starved or invalid exactly as the header's bits, and when done the tables decode both codes |
| `InflateStream.ReadStoredBlock` | dep/zlib/inflate.c:864-896 | the bytes of a stored block, or the reason why not |
| `InflateStream.FixedTables` | dep/zlib/inflate.c:261-320 | the tables of the static codes decode them |
| `InflateStream.Inflate` | dep/zlib/inflate.c:605-1252 | for all data: done with exactly what the blocks stand for and the whole bytes left over, cut off, or invalid, as the bits are |
| `SyncSearch.SyncSearch` | dep/zlib/inflate.c:1354-1375 | over any cutting of the bytes the search stops behind the first mark, and knows how much of a mark the bytes end with |
| `SyncSearch.HeldInOrder` | dep/zlib/inflate.c:1392-1404 | the held bytes are searched as they stand in the stream, for all contents, if and only if the accumulator holds whole bytes or no whole byte |
| `SyncSearch.MissedAndInvented` | dep/zlib/inflate.c:1388-1411 | with two and a half bytes held and two to come, a mark in the stream is missed and one is found where none stands |
| `SyncSearch.InOrderBits` | dep/zlib/inflate.c:1392-1404 | what should be searched: the whole bytes whose bits are still to be read |
| `Crc32.MakeCrcTable` | dep/zlib/crc32.c:90-130 | the four tables hold the register after one to four quiet bytes |
| `Crc32.Crc32Little` | dep/zlib/crc32.c:247-278 | slicing by four, for any alignment, is the bit-at-a-time CRC |
| `Crc32.Crc32Bytes` | dep/zlib/crc32.c:204-240 | the table-driven CRC is the bit-at-a-time CRC |
| `CrcCombine.Combine` | dep/zlib/crc32.c:355-408 | the alternating matrices apply exactly len2 zero bytes, so that the CRCs of two strings combine to that of their concatenation |
| `Adler32.Adler32` | dep/zlib/adler32.c:65-133 | the deferred modulo never overflows 32 bits and gives the byte-at-a-time checksum |
| `Adler32.UpdateConcat` | dep/zlib/adler32.c:65-133 | going on from the checksum of a first string with a second one gives the checksum of both together |
| `Adler32.NmaxIsLargest` | dep/zlib/adler32.c:14-16 | NMAX bytes cannot overflow, one more can |
| `Adler32.Combine` | dep/zlib/adler32.c:136-162 | the checksums of two strings combine to that of their concatenation, for every length that fits |

## Left out

- BlockCompressor.BlockSort: sorts blocks of every size with the fallback sorter, while the code sends blocks of 10000
  bytes and more through `mainSort` first; `mainSort`, `mainQSort3` and `mainGtU` are not modelled.
- Randomised bzip2 blocks: they are recognised and end decompression; the encoder never makes them.
- bzip2's CRC table is a parameter of 256 words, so results hold for any table; the values of `crctable.c` are not
  stated.
- Buffers that share memory in the C code (the sorter's two views of one array, `mtfv` over `ptr`) are separate arrays.
- What bzip2's decompressor does after a store past the end of the selector arrays, and what deflate sends after a token
  that its output has written over: decompression ends with `ArrayOverrun`, compression with `inTime` false.
- Decompression of a bzip2 stream takes the slices of output space block by block; a call that ends one block and begins
  the next one counts as a slice of either.
- bzip2's suspension in the middle of a header: decompression sees all input at once, output is drained in pieces.
- How good the chosen tables, matches and block forms are, apart from the shortest block form being taken.
- The unrolled 50-symbol path of `sendMTFValues` and the unrolled comparison loops are plain loops.
- Level 0, `deflateParams`, `deflateTune`, `deflatePrime`, preset dictionaries, and the zlib and gzip wrappers.
- Zeroing of the window beyond the input (`high_water`) and a hash table that is not empty at the start.
- deflate runs its two halves, tokens and bits, one after the other over a list of events; limited output space only
  delays them. `Deflate` has its own arrays for tokens, from which they are tallied into the shared buffer of
  `BlockCoder`; `BitSink` holds all output as a sequence, of which the part since the last flush_pending is also stored
  in the shared buffer while a block's tokens are sent.
- Zlib.RoundTrip: for strategies other than Z_FIXED and Z_HUFFMAN_ONLY and more input than its conditions allow, that
  all tokens are read in time is stated block by block, by the condition that decides it, and not from the call alone.
- InflateStream.Inflate: one call that sees all input and one buffer for all output, without a window and without the
  zlib wrapper; suspension inside a block header or a stored block is not modelled. Inside a block with codes it is, for
  any calls, buffers and windows, by `InflateLoop.Inflater.Calls`.
- InflateLoop.Inflater.Calls: asks that the window holds the greatest distance in the bits, because otherwise the
  meaning is not kept; deflate sends no distance above its own window's size less 262.
- `inflateMark`, `inflateCopy`, `infback.c`, the gz and bzFile layers, memory allocation and error messages.
- That the 852 and 592 entries of `InflateTable.SpaceSuffices` are needed by some code, that is, that they are least.
- Big-endian CRC and the variants that `#ifdef` selects.
- Everything outside `dep/bzip2` and `dep/zlib`.
