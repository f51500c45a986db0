# The vendored bzip2, zlib checksums and PCG, in Dafny

This project models the algorithmic core of three libraries kept under `dep/`: the bzip2 1.0.6 block
compressor, the CRC-32 and Adler-32 checksums of zlib, and the PCG random number generators. Arrays, in-place
updates, explicit stacks, retry loops and resumable calls are kept as the C and C++ code has them; each method is
proved against a specification function or predicate, and lemmas state what those mean.

## bzip2

*The format.* `BlockFormat` and `StreamFormat` define, by recursion over a bit string, what a block and a whole
stream mean; nothing in them depends on the encoder or the decoder. `BlockRoundTrip` and `StreamRoundTrip` say that
every bit string the encoder may send (for any rotation-sorted order, any prefix-code tables with lengths of 1 to 20
bits, any selectors) parses back to the data, stops exactly at its end and meets no error branch.

*Compression.* The two block sorts (`MainSort`, with its quadrant cache, copy scans and work budget; `FallbackSort`, with
its header bitmap and prefix doubling) both establish `RotationSorted`. `MtfEncoder`, `TableChoice` with
`HuffmanLengths`, `CanonicalCodes`, `Sender` and `BitIO` turn such an order into bits; `HuffmanOptimal` shows why merging the
two lightest gives the cheapest code. `InputRuns` and `Compressor` are the streaming run-length stage and the
`BZ2_bzCompress` state machine, for any sequence of calls with any chunks; `BlockSize` and `StreamSize` bound what comes out.

*Decompression.* `Receiver`, `ColumnReader` (over the two-level list of `TwoLevelMtf`) and the two inverses of `InverseBwt`
agree with the format on every input, well-formed or not. `RunDecoder` and `Decompressor` deliver the bytes into
output buffers of any sizes, randomised blocks (`Randomising`) included, and `MoreBits` shows that what some of the input
decides stands whatever follows. `BuffToBuff` puts both ends together.

## Checksums and generators

`CrcField` is the arithmetic modulo the CRC polynomial, with `multmodp` as its product; `CrcPowers` proves the shipped
table of powers and why it may be indexed modulo 32; `CrcBraid`, `CrcTables` and `CrcBlocks` show that the
interleaved word loop is the byte-at-a-time CRC, `CrcSwap` and `CrcBig` that the big-endian loop on swapped words gives the
same, and `Crc32` that combination is exact. `Adler32` has the deferred reduction and the combination.
`Lcg`, `LcgJumps` and `LcgDistance` cover jumping ahead, back, and measuring a distance; `OutputPermutation` the
invertible output function; `Uint128`, `Uint128Shifts` and `Uint128Division` the 128-bit arithmetic
on four 32-bit words.

## Findings

- *Selectors past the end of their arrays.* `dep/bzip2/decompress.c:289-300` takes the number of selectors from 15 bits
  and rejects only 0, while `selector` and `selectorMtf` hold 18002 entries (`dep/bzip2/bzlib_private.h:125` and
  `:402-403`). The model keeps the arrays at that size and reports `Overrun` where the code would store outside.
  `SelectorBounds.CountExact` says that all inputs declaring a count stay inside if and only if the count is at most 18002;
  `SelectorBounds.PastTheEnd` gives, for every count from 18003 to 32767, a whole stream on which the code would store
  outside. The statements about the decoder hold on all inputs, with this outcome named among the results.
- *An empty result buffer.* Compressing nothing into a buffer of length 0 makes `BZ2_bzBuffToBuffCompress` return
  `BZ_SEQUENCE_ERROR` instead of `BZ_OUTBUFF_FULL` (`dep/bzip2/bzlib.c:452-457`, a FINISH call that can make no progress).
  `BuffToBuff.Compress` states that an error other than a full buffer comes if and only if the source and the buffer are empty.
- *MOD28 by itself* does not reduce everything below 2^32: `Adler32.Mod28Exact` states for which arguments it does. Where
  `dep/zlib/adler32.c` uses it alone the argument is in range.

## Model

| member | source | states |
|---|---|---|
| BlockFormat.BlockRoundTrip | dep/bzip2/compress.c:120-598 | every bit string the encoder may send for a block parses back to that block, with no data error, and the parse stops exactly at its end |
| StreamFormat.StreamRoundTrip | dep/bzip2/compress.c:602-672 | reading the padded bits of any sequence of blocks, with their checksums, header and trailer, yields the concatenation of what went into them |
| BuffToBuff.Compress | dep/bzip2/bzlib.c:1247-1295 | returns a stream within the given length that reads back as the source, and always one when the buffer has Bound(length of the source, level) bytes; the buffer is called full only below that, and only when every stream beginning with the blocks made of a beginning of the source is too long for it; an error if and only if nothing is compressed into nothing |
| BuffToBuff.Decompress | dep/bzip2/bzlib.c:1299-1352 | for every input: a full buffer exactly when more bytes come out than fit, otherwise all bytes of a stream the format accepts, or the error for what is wrong with one it does not; a truncated input may be reported as broken if it is, and an input that turns out broken right where the buffer ends may be reported as a full buffer |
| BuffToBuff.RoundTrip | dep/bzip2/bzlib.c:1247-1352 | whatever compression returned within the buffer is restored to the source, with either inverse; with Bound bytes of buffer the source is always restored |
| StreamSize.StreamFits | dep/bzip2/bzlib.c:365-397 | a stream whose pieces are as the sender sends them, all but the last full, has at most Bound bytes, whatever its level and however the source is cut |
| BlockSize.SentSize | dep/bzip2/compress.c:239-598 | what is sent for a block of n bytes can be read back as that block and takes at most 51428 + 6 ((n + 50) / 50) + 17 (n + 1) bits |
| Compressor.Compressor.OutBounded | dep/bzip2/bzlib.c:361-403 | while output is left over and no flush has been asked for, fewer than Bound bytes are out |
| Compressor.Compressor.Compress | dep/bzip2/bzlib.c:407-464 | over any sequence of calls, at the end of the stream the bytes handed out read back as the bytes taken in; each return code is tied to the mode, the action, the declared input and the progress made |
| Compressor.Compressor.HandleCompress | dep/bzip2/bzlib.c:361-403 | moves input in and output out, reports progress exactly when a byte moved, and keeps the state from which the end of the stream is sound |
| Compressor.CompressBlock | dep/bzip2/compress.c:602-672 | appends to the bits the header if first, the block with its checksum, and the trailer if last, as the stream format has them |
| InputRuns.RunEncoder.AddChar | dep/bzip2/bzlib.c:260-284 | the block and the pending run together stand for the bytes so far plus this one, inUse and the block checksum match the block, and at most five bytes are added |
| InputRuns.RunEncoder.AddPair | dep/bzip2/bzlib.c:216-247 | the pending run is now in the block, in the encoding that expands to it, and marked in inUse |
| RunLength.RunsRoundTrip | dep/bzip2/bzlib.c:216-284 | expanding the encoded runs gives back what was encoded, whatever bytes lie beyond the block |
| RunLength.FourAtEnd | dep/bzip2/bzlib.c:536-683 | a block that ends inside a run of four takes its count from beyond the block, and this is the case the decoder reports |
| BlockSort.BlockSort | dep/bzip2/blocksort.c:1031-1089 | whichever sort runs, and whether or not the budget runs out, ptr is a permutation in order of the full rotations and origPtr is the place of the block itself |
| MainSort.MainSort | dep/bzip2/blocksort.c:751-1011 | unless the budget goes negative, ptr is a permutation in order of the full rotations; the block is unchanged |
| MainCompare.MainGtU | dep/bzip2/blocksort.c:347-472 | with quadrant values that are ordered as the rotations, the comparison decides the order of two rotations and never reads past the overshoot area |
| MainSimpleSort.MainSimpleSort | dep/bzip2/blocksort.c:485-555 | permutes only lo..hi and sorts it by rotation, unless the budget goes negative |
| MainQSort.MainQSort3 | dep/bzip2/blocksort.c:621-737 | permutes only loSt..hiSt and sorts it by rotation, unless the budget goes negative; the stack never overflows |
| MainQSort.TaperedBound | dep/bzip2/blocksort.c:641-646 | pushing the largest part first keeps the stack at 66 entries or fewer for any range below 2^31, so the assertion on 100 entries holds |
| CopyScan.NotTooMany | dep/bzip2/blocksort.c:919-935 | the copy scans never give a bucket more positions than it has |
| BigBucket.ScanUp | dep/bzip2/blocksort.c:923-928 | the upward scan fills every unfinished bucket [t, ss] from below with the predecessors of the small ones, in order of rotation, and stops where it has caught up with itself |
| BigBucket.ScanDown | dep/bzip2/blocksort.c:929-934 | the downward scan does the same from above and disturbs nothing the upward scan wrote |
| BigBucket.ScansFill | dep/bzip2/blocksort.c:911-945 | after both scans every bucket [t, ss] is complete and sorted, and the assertion on the two ends holds |
| FallbackSort.FallbackSort | dep/bzip2/blocksort.c:212-329 | fmap becomes a permutation in order of the full rotations, and the block, overwritten meanwhile, is back byte for byte |
| FallbackSort.Refine | dep/bzip2/blocksort.c:259-311 | one round takes the header bits from the classes of positions that agree on H bytes to those that agree on 2H |
| FallbackQSort.FallbackQSort3 | dep/bzip2/blocksort.c:93-200 | permutes only loSt..hiSt and sorts it by class; the stack of 100 entries is never full |
| RadixStart.Reconstruct | dep/bzip2/blocksort.c:316-328 | the sorted order and the byte counts alone give the block back |
| BurrowsWheeler.InverseTransform | dep/bzip2/decompress.c:494-576 | for any rotation-sorted permutation, following the links of its last column from origPtr for the length of the block spells the block |
| BurrowsWheeler.LastColumnUnique | dep/bzip2/compress.c:161-168 | the last column does not depend on which sort ran or on how it ordered equal rotations |
| InverseBwt.Fast.Build | dep/bzip2/decompress.c:558-576 | tt holds in each word a byte of the column and, above it, the link of the inverse |
| InverseBwt.Small.SetLL | dep/bzip2/bzlib_private.h:458-470 | packing one 20-bit link disturbs no other |
| InverseBwt.Small.ReverseCycle | dep/bzip2/decompress.c:536-545 | for any permutation of links the loop ends and reverses exactly the cycle through origPtr, leaving the rest |
| InverseBwt.IndexIntoF | dep/bzip2/bzlib.c:687-698 | the binary search finds the byte whose bucket holds the index, also across bytes that do not occur |
| BlockDecoder.LoadFast | dep/bzip2/decompress.c:251-576 | on every input the outcome is the one the format gives, and on success the FAST reader stands at the start of the block |
| BlockDecoder.LoadSmall | dep/bzip2/decompress.c:251-576 | the same for the SMALL inverse: the same outcome and the same block on every input |
| MoveToFront.RoundTrip | dep/bzip2/compress.c:161-230 | decoding the move-to-front and run symbols of a column restores it, whatever run is pending |
| MoveToFront.RunCodeShort | dep/bzip2/decompress.c:381-395 | runs below 2^20 use at most 20 digits, so the limit on N never rejects one |
| MtfEncoder.GenerateMtfValues | dep/bzip2/compress.c:120-230 | writes the symbols of the last column, at most one more than the block has bytes, with their counts, and never overtakes the order it reads |
| TwoLevelMtf.MtfList.Take | dep/bzip2/decompress.c:423-474 | the sixteen sliding windows stand for one list, and taking entry nn returns it and moves it to the front, on every path and across repacking |
| TwoLevelMtf.MtfList.Repack | dep/bzip2/decompress.c:462-473 | the in-place copy to the top of the arena keeps the content of all sixteen windows |
| ColumnReader.ReadColumn | dep/bzip2/decompress.c:371-483 | delivers the column the scanned symbols stand for, with its byte counts, or the error the format assigns, on every input |
| HuffmanLengths.MakeCodeLengths | dep/bzip2/huffman.c:63-148 | ends for every frequency vector of 2 to 258 symbols with total up to 2^22, with lengths within the limit whose Kraft sum is exactly one; the code is optimal for the frequencies unless an optimal code for them is too long, and then for the weights halved as often as that stays so |
| HuffmanOptimal.GreedyOptimal | dep/bzip2/huffman.c:94-110 | if every merge takes two lightest roots, the leaf depths cost no more than any lengths that satisfy Kraft's inequality |
| HuffmanOptimal.Cheapest | dep/bzip2/huffman.c:94-110 | the same between any two merges, for the roots there are then |
| HuffmanTree.CompleteCode | dep/bzip2/huffman.c:94-122 | the leaf depths of any tree the merging builds have Kraft sum one |
| NodeHeap.UpHeap | dep/bzip2/huffman.c:33-42 | restores the heap order by moving one entry up, and permutes the heap |
| NodeHeap.DownHeap | dep/bzip2/huffman.c:44-59 | restores the heap order by moving the first entry down, and permutes the heap |
| CanonicalCodes.AssignCodes | dep/bzip2/huffman.c:152-166 | each symbol gets its canonical code: the first code of its length plus its rank in that length |
| CanonicalCodes.CreateDecodeTables | dep/bzip2/huffman.c:170-200 | limit, base and perm are the last code, the offset and the ranking of each length, also across lengths no symbol has |
| CanonicalCodes.CodeRoundTrip | dep/bzip2/huffman.c:152-166 | the shortest prefix of the bits that is a code word of the lengths is the one assigned to the symbol, whatever follows it |
| Receiver.ReadSymbol | dep/bzip2/decompress.c:74-102 | decoding with limit, base and perm finds the shortest code word that prefixes the input, for any lengths an input may give, and never indexes perm outside the alphabet |
| TableChoice.ChooseTables | dep/bzip2/compress.c:258-453 | the tables have lengths of 1 to 17 and are the best ones for how often the final selectors use them for each symbol; each selector names a cheapest table of the round it was chosen in; the selectors fit their array |
| TableChoice.InitialTables | dep/bzip2/compress.c:279-317 | the first tables are made of consecutive ranges of the symbols, none of which has its share of the remaining frequency before its last symbol, and only symbols that do not occur are left out |
| TableChoice.FastCosts | dep/bzip2/compress.c:362-395 | the three packed sums are the costs of the six tables, with no carry between halves |
| Sender.SendBlock | dep/bzip2/compress.c:239-598 | what is sent for a rotation-sorted block is a string the format reads as that block |
| Sender.SendSelectors | dep/bzip2/compress.c:461-524 | sends the count and the positions of the selectors in a list moved to front, in unary |
| Wire.SelectorsBack | dep/bzip2/decompress.c:302-314 | undoing the positions restores the selectors and the list |
| Wire.DeltaRoundTrip | dep/bzip2/compress.c:534-538 | the delta-coded length is read back, whichever way it moves |
| Wire.DataRoundTrip | dep/bzip2/compress.c:544-594 | the symbols sent, in groups of fifty with the table of each selector, are the symbols scanned |
| Receiver.ReceiveSelectors | dep/bzip2/decompress.c:286-314 | agrees with the format on every input, and stores only inside arrays of 18002 entries |
| SelectorBounds.PastTheEnd | dep/bzip2/decompress.c:289-300 | for every declared count from 18003 to 32767 there is an input, given as bytes, whose reading as a stream makes the code store outside the arrays |
| SelectorBounds.CountExact | dep/bzip2/decompress.c:289-300 | for every count from 1 to 32767: all inputs that declare it stay inside the arrays if and only if it is at most 18002 |
| SelectorBounds.InsideIff | dep/bzip2/decompress.c:291-300 | all stores are inside the arrays if and only if no overrun is reported |
| SelectorBounds.GuardSuffices | dep/bzip2/decompress.c:289-290 | a declared count of at most 18002 keeps every store of any input inside |
| BitIO.BitWriter.Put | dep/bzip2/compress.c:58-78 | appends exactly the low bits of the value, most significant first, for a buffer that is flushed a byte at a time |
| BitIO.BitWriter.Finish | dep/bzip2/compress.c:46-54 | pads the last byte with zeros |
| BitIO.BitReader.Get | dep/bzip2/decompress.c:43-65 | the next bits as a number, or not enough input |
| MoreBits.PiecesAgree | dep/bzip2/decompress.c:43-65 | input that arrives in two pieces: whatever the first piece decides, but for running out, stands for the whole, and what came out by then is the beginning of what comes out |
| RunDecoder.RunDecoder.UnRleFast | dep/bzip2/bzlib.c:536-683 | randomised or not, hands out the next bytes of the expansion until the room or the block is used up, with the checksum of what came out, and stops only where it can go on; corruption is reported when all that can come out is out |
| RunDecoder.RunDecoder.UnRleSmall | dep/bzip2/bzlib.c:706-804 | the same bytes from the other inverse |
| Randomising.TurnedOver | dep/bzip2/bzlib_private.h:133-149 | the mask turns over the low bit of byte i exactly when i + 2 is a sum of the first distances of the table, taken around as often as needed, the last of them above one |
| Decompressor.Decompressor.Decompress | dep/bzip2/bzlib.c:808-858 | over any sequence of output buffers, what has come out is a prefix of what the format assigns to the input, sound or not; the end is reported exactly with all of it, and an error only when all that comes before it is out, with the code the format calls for, where broken data may be reported before the input runs out |
| Decompressor.Decompressor.ReadBlock | dep/bzip2/decompress.c:222-264 | the next block header, checksum and body, or the trailer with the combined checksum, as the format has them |
| CrcField.MultModP | dep/zlib/crc32.c:542-560 | for a nonzero first factor the loop ends with the product of the two polynomials modulo the CRC polynomial |
| CrcField.MulCommutes | dep/zlib/crc32.c:542-560 | the product does not depend on the order of its factors |
| CrcField.MulPower | dep/zlib/crc32.c:566-580 | multiplying by x^n, from either side, is n shift register steps |
| CrcPowers.ShippedPowers | dep/zlib/crc32.h:9439-9446 | entry i of the shipped table is x^(2^i) |
| CrcPowers.PowersRepeat | dep/zlib/crc32.c:576 | x^(2^32) is x modulo the polynomial |
| CrcPowers.PowerWraps | dep/zlib/crc32.c:576 | for every k, multiplying by x^(2^k) is multiplying by x^(2^(k mod 32)) |
| CrcPowers.X2NModP | dep/zlib/crc32.c:566-580 | returns x^(n 2^k), for every n and k |
| CrcBytes.MakeTable | dep/zlib/crc32.c:278-284 | the table holds eight shift register steps of every byte |
| CrcBytes.Byte | dep/zlib/crc32.c:1053 | the table step is eight shift register steps of the register with the byte added |
| CrcBytes.FeedLinear | dep/zlib/crc32.c:717-724 | a value added to the register at the start comes out multiplied by x to the number of bits fed |
| CrcBraid.WordFeeds | dep/zlib/crc32.c:717-724 | adding a little-endian word and stepping over it is feeding its bytes in order |
| CrcBraid.BraidStep | dep/zlib/crc32.c:823-880 | the words of a block may each be carried over the n words of a block and added to the next block |
| CrcTables.MakeBraid | dep/zlib/crc32.c:505-522 | row k of the little-endian braid table carries byte k of a word over a whole block |
| CrcBig.MakeBraids | dep/zlib/crc32.c:505-522 | the big-endian table made with it has the swapped entries, in rows of the opposite order |
| CrcBlocks.CrcWord | dep/zlib/crc32.c:717-724 | steps a word over its own bytes |
| CrcBig.CrcWordBig | dep/zlib/crc32.c:726-734 | steps a swapped word over its own bytes, swapped |
| CrcBlocks.Braids | dep/zlib/crc32.c:769-905 | the little-endian braided loop over any number of blocks, for any number of braids of words of four to eight bytes, is the CRC register over the bytes |
| CrcBig.BraidsBig | dep/zlib/crc32.c:906-1029 | the big-endian braided loop, on swapped words with swapped tables, gives the same register |
| CrcSwap.SwapTwice | dep/zlib/crc32.c:117-137 | swapping the bytes of a word of four or eight bytes twice gives it back |
| CrcSwap.ByteSwapped | dep/zlib/crc32.c:117-137 | byte k of a swapped word is byte w - 1 - k of the word |
| Crc32.MakeTables | dep/zlib/crc32.c:273-299 | all tables of the calculation, each as the calculation needs it |
| Crc32.Crc32Z | dep/zlib/crc32.c:739-1058 | for every start value, length and address, on a machine of either byte order, the result is the byte-at-a-time CRC of the buffer, and 0 without a buffer |
| Crc32.CrcOfBoth | dep/zlib/crc32.c:1072-1081 | the CRC of a concatenation is that of the first part times x to the bit length of the second, plus that of the second |
| Crc32.CrcContinues | dep/zlib/crc32.c:739-1058 | bytes may be fed in pieces |
| Crc32.Combine64 | dep/zlib/crc32.c:1072-1081 | combining the CRCs of any two byte strings gives the CRC of their concatenation |
| Adler32.ModReduces | dep/zlib/adler32.c:38-42 | MOD reduces fully every value below 2^32 |
| Adler32.Mod28Reduces | dep/zlib/adler32.c:33-37 | MOD28 reduces fully every value below 2^28 |
| Adler32.ChopKeeps | dep/zlib/adler32.c:27-32 | CHOP keeps the residue of every value |
| Adler32.Mod63Reduces | dep/zlib/adler32.c:43-55 | MOD63 reduces fully every value below 2^63 |
| Adler32.Mod28Exact | dep/zlib/adler32.c:33-37 | MOD28 alone reduces fully if and only if one CHOP leaves less than twice the base |
| Adler32.Adler32 | dep/zlib/adler32.c:63-131 | from reduced sums, deferring the reduction by up to 5552 bytes gives the sums reduced at every byte, with no 32-bit overflow on the way |
| Adler32.Combine | dep/zlib/adler32.c:143-169 | the combined sums, fully reduced, or the error value for a negative length |
| Adler32.CombinesWhole | dep/zlib/adler32.c:143-169 | those sums are the checksum of the concatenation, from any start |
| Lcg.Advance | dep/PCG/pcg_random.hpp:640-668 | returns the state after delta single steps, for every modulus |
| LcgJumps.BackstepUndoes | dep/PCG/pcg_random.hpp:462-465 | advancing by the negated distance undoes an advance, for every odd multiplier and every width |
| LcgJumps.FullCircle | dep/PCG/pcg_random.hpp:462-465 | 2^w steps of any odd multiplier lead back to the start |
| LcgDistance.Distance | dep/PCG/pcg_random.hpp:670-693 | for any mask of k bits, ends within k rounds with its assertion true in each, and advancing by the result leads to a state that the mask cannot tell from the wanted one; with all bits in the mask, to that state |
| LcgDistance.DistanceUnique | dep/PCG/pcg_random.hpp:670-693 | there is only one such distance below the period |
| LcgDistance.Shipped | dep/PCG/pcg_random.hpp:149-177 | the shipped multipliers, the cheap one for 128 bits included, meet the condition the distance needs |
| OutputPermutation.Inverses | dep/PCG/pcg_extras.hpp:263-281 | unxorshift and the xorshift undo each other, for every width and shift |
| OutputPermutation.OutputInvertible | dep/PCG/pcg_random.hpp:946-986 | output and unoutput are inverse to each other on all states, when result and state have the same width |
| OutputPermutation.SmallWidthsFit | dep/PCG/pcg_random.hpp:927-934 | the shipped constants of 8, 16 and 32 bits meet the condition for that |
| OutputPermutation.BigWidthsFit | dep/PCG/pcg_random.hpp:936-942 | the shipped constants of 64 and 128 bits meet it too |
| Uint128.Add | dep/PCG/pcg_uint128.hpp:283-289 | word-wise addition with carries is addition modulo 2^128 |
| Uint128.Sub | dep/PCG/pcg_uint128.hpp:292-298 | word-wise subtraction with borrows is subtraction modulo 2^128 |
| Uint128.Mul | dep/PCG/pcg_uint128.hpp:645-687 | the product from word products and carries is the product modulo 2^128 |
| Uint128Division.DivMod | dep/PCG/pcg_uint128.hpp:586-629 | on the four words: for a nonzero divisor the loop ends, no shift loses a bit, and dividend = quotient * divisor + remainder with the remainder below the divisor |
| Uint128Shifts.Shl | dep/PCG/pcg_uint128.hpp:902-938 | shifting the words left by less than 128 multiplies by the power of two modulo 2^128 |
| Uint128Shifts.Shr | dep/PCG/pcg_uint128.hpp:940-973 | shifting the words right by less than 128 divides by the power of two |
| Uint128Shifts.Less | dep/PCG/pcg_uint128.hpp:870-876 | comparing word by word from the top compares the numbers |
| Uint128Shifts.Flog2X4 | dep/PCG/pcg_uint128.hpp:539-552 | the position of the highest bit of the highest word that is not zero is that of the highest bit of the number |
| Uint128.DividedIs | dep/PCG/pcg_uint128.hpp:586-629 | so they are the quotient and the remainder of arithmetic |

## Left out

bzip2

- The resumable input switch of `BZ2_decompress`: the compressed input is given whole when a decompressor is made, so running out of it is final. Output may be taken in pieces of any size. What `MoreBits.PiecesAgree` says of input in pieces is about the format, not about the saved locals of the switch.
- The contents of `crctable.c` and `randtable.c`: the block checksum uses any table of 256 entries and the mask any table of 512 positive ones, so the statements hold for the shipped ones.
- The overlaid arrays `arr1` and `arr2`: block, order, symbols, quadrant and output bits are separate arrays. That writing never overtakes reading, which the overlay relies on, is proved in `MtfEncoder.GenerateMtfValues`.
- The output bits are kept cumulatively instead of being reset for each block, and the block of the run-length stage is a sequence that is copied into an array for sorting.
- The explicit stacks of the two quicksorts are sequences, with the bound on their depth proved; words of the header bitmap are sequences of 32 bits; two-dimensional tables are sequences of rows.
- Unrolled copies of the same step are written as loops or repeated calls, and the two copies of the input loop for a known and an unknown total as one.
- Allocation and its failures, verbosity, error strings, the FILE and `bzopen` layers: input and output around the core.
- HuffmanLengths.MakeCodeLengths: once an optimal code is too long the result is optimal for the halved weights, not among the codes within the limit.
- StreamSize.Bound is a bound, not the greatest length that occurs: it takes 17 bits for every code word and full blocks of encoded runs.
- Decompressor.Decompressor.Decompress: when input that is already broken also runs out, either may be reported; which of the two follows from how far the code has read, which the format does not tell.

zlib

- The ARM instructions, the printing of tables and the once guard. Both byte orders are modelled, as a parameter of `Crc32.Crc32Z`.
- The interleaving of the braids within one table row: the braids are independent, and the model finishes one before the next.
- Negative lengths in `crc32_combine64`, for which the loop over an arithmetic shift does not end, and CRC arguments wider than 32 bits.
- The table of powers is the shipped one; the loop that computes it when tables are made at run time is not modelled, but each entry is proved to be the square of the one before.
- In `adler32_z` the missing buffer, which only returns 1.

PCG

- `extended`, `inside_out`, streams that depend on an address, seed sequences, `bounded_rand`, formatting, and any claim on statistical quality.
- Widths are arithmetic modulo 2^w; `unxorshift` is stated on sequences of bits with the most significant first, and tied to numbers by `OutputPermutation.Inverses`.
- LcgDistance.Distance: without an increment the two states must be odd and agree in their low two bits, which the generator keeps by construction.
- The specialisations of `uint_x4` for 64-bit halves and the order of words on big-endian machines: words are numbered from the lowest.

Not modelled at all: the gSOAP generated code, the scripts, the web interface and the experiment runner, which are glue around files, network and user interface.
