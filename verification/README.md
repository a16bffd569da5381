# getmatvar: a verified model

This project models three parts of getmatvar and proves what they promise.

- **The bundled DEFLATE codec** (RFC 1951). The compressor at every level: hash-chain and binary-tree matchfinders, greedy,
  lazy and near-optimal parsing, length-limited canonical Huffman codes, run-length coded code lengths, the choice of the
  cheapest block type, and the bit writer. The decompressor: refills by word or by byte, two-level decode tables, the decode
  loop and its fast match copies, stored blocks, and all block types in a loop. `RoundTrip.CompressThenDecompress` joins all of
  it: what is compressed is decompressed to the same bytes, for every input. The checksums Adler-32 and CRC-32 stand beside it.
- **Chunk reassembly and its worker pool.** Walking the tree of chunks, merging the page buckets into one queue, scattering a
  chunk of any rank into a column-major array with an odometer, and the page map protocol of several workers as a state machine
  over atomic steps: safety in every interleaving, the final array, and completion of every fair schedule.
- **The replayable queue** with its absolute front, moving front, back and traversal cursor, as a sequence with cursors.

One module stands for each component; a module's methods follow the code step by step and are proved against functions of the
module or of the one it builds on. Bit strings are sequences of booleans with the lowest bit first, words of the bit buffers and
of CRC-32 are such strings of fixed length, and other unsigned arithmetic is on numbers with the wrap-around written out where
the code relies on it or could meet it.

## Model

| member | source | states |
|---|---|---|
| RoundTrip.CompressThenDecompress | src/extlib/libdeflate/unix/lib/deflate_compress.c:2782-2800 | For every input (the empty one included), every level, every splitting into blocks, every output size and either way of flushing and refilling: compressed output that fits is decompressed, with the exact size asked for, to exactly the input; the static codes are those made at start-up. |
| RoundTrip.DecompressExamples | src/extlib/libdeflate/unix/lib/decompress_impl.h:55-394 | Three streams given byte by byte decompress to data given byte by byte: static blocks with a literal and with a match, and a block with codes of its own whose header has all three kinds of runs. |
| Deflate.Compress | src/extlib/libdeflate/unix/lib/deflate_compress.c:2782-2800 | Output is returned exactly when the blocks written have fewer whole bytes than the buffer has before its eight bytes of padding; it then holds, from its first bit on, good blocks of which only the last is flagged and which unpack to the data. Inputs below 16 bytes are one stored block; otherwise the blocks are, piece after piece, those of the level's parser, each in whichever way is cheapest. |
| Deflate.NextBlock | src/extlib/libdeflate/unix/lib/deflate_compress.c:1982-2041 | Parsing and flushing one block extends a stream that unpacks to the input so far into one that unpacks to the input up to the end of the block, and what is written, unless stored, are the items of the greedy or lazy choice. |
| Deflate.NextOptimalBlock | src/extlib/libdeflate/unix/lib/deflate_compress.c:2499-2631 | The same for a block that is parsed near-optimally, whatever costs the passes use: the items written follow a cheapest path, under the costs of the last pass, through the positions with all matches reported. |
| Inflate.Decompress | src/extlib/libdeflate/unix/lib/decompress_impl.h:37-404 | For a stream of good blocks whose last is flagged the result is its size and exactly its data if they fit, the insufficient-space error if they do not, and with the exact size asked for and space left over the short-output error. Any other input ends too, with an error or some output, and nothing is written past the output's end. |
| Inflate.ReadBlock | src/extlib/libdeflate/unix/lib/decompress_impl.h:55-394 | A block of any kind whose bits stand at the current position has 0, 1 or 2 in its second and third bit as it is stored, static or dynamic; it yields its flag and appends its output if there is room, else the insufficient-space error, and the position moves by exactly its bits. Type 3 is bad data; whatever the input, a block that is accepted starts before the end of the input and takes some bits. |
| Inflate.ReadStored | src/extlib/libdeflate/unix/lib/decompress_impl.h:196-219 | After alignment a stored block's length fields are checked against each other (else bad data) and against the space left (else insufficient space) and its bytes are copied; the position ends up behind them. |
| Inflate.StaticIsComplete | src/extlib/libdeflate/unix/lib/decompress_impl.h:228-240 | The static lengths fill the codespace of both alphabets exactly, so their tables are accepted. |
| FormatNumbers.BlockTypes | src/extlib/libdeflate/unix/lib/deflate_constants.h:9-11 | A block starts with its flag and then 0, 1 or 2, the lower bit first. |
| FormatNumbers.StaticCodewords | src/extlib/libdeflate/unix/lib/decompress_impl.h:228-240 | The canonical codewords of the static lengths are those tabulated in section 3.2.6 of RFC 1951: 0x30 on for literals below 144, 0x190 on for the others, 0 on for lengths, 0xC0 on for the last eight. |
| FormatNumbers.LengthSlots | src/extlib/libdeflate/unix/lib/deflate_compress.c:123-137 | Bases and extra bits of the length slots by rule: eight single lengths, four slots for each number of extra bits from one to five, the greatest length alone. |
| FormatNumbers.OffsetSlots | src/extlib/libdeflate/unix/lib/deflate_compress.c:139-160 | Bases and extra bits of the offset slots by rule: two single offsets, two slots for each number of extra bits from none to thirteen. |
| FormatNumbers.PermutationIs | src/extlib/libdeflate/unix/lib/deflate_compress.c:174-176 | The order of precode lengths by rule: the three runs, 0, then from 8 outwards. |
| StreamExamples.LettersStream | src/extlib/libdeflate/unix/lib/decompress_impl.h:220-240 | The five bytes 4B 4C 42 86 00 are a stream for the letters a and b seven times: two literals and a match of twelve bytes two back. |
| OwnCodesExample.OwnCodesStream | src/extlib/libdeflate/unix/lib/decompress_impl.h:72-195 | Eighteen given bytes are a stream for abbbb twice, in codes of its own with runs of all three kinds in its header. |
| ShortCodes.SameDecoding | src/extlib/libdeflate/unix/lib/decompress_impl.h:246-247 | A table built for the lengths up to the last used symbol decodes every codeword of the whole list of lengths. |
| DeflateStream.StreamAppend | src/extlib/libdeflate/unix/lib/deflate_compress.c:1701-1807 | Good blocks after good blocks are good blocks: their bits are the bits of both one after the other, at the right phase for stored blocks, and they unpack to what the second list makes of the output of the first. |
| StaticTables.InitStaticCodes | src/extlib/libdeflate/unix/lib/deflate_compress.c:1232-1250 | The codes made from the start-up frequencies have exactly the lengths of RFC 1951 section 3.2.6 in both alphabets, and the tables hold their reversed codewords. |
| StaticTables.MadeIsDyadic | src/extlib/libdeflate/unix/lib/deflate_compress.c:1087-1153 | Frequencies 2^(top - len) for the lengths of a complete code give back just these lengths, under any limit that admits them: no other lengths that fit cost as little. |
| FlushBlock.Flush | src/extlib/libdeflate/unix/lib/deflate_compress.c:1700-1807 | From a finished block's tally alone the codes, the header and three costs are computed; each cost is exactly the bits of that way to write the block less the three of its start, all three ways unpack to the block's bytes, and what is written is the way with the least bits. |
| FlushBlock.WaysOf | src/extlib/libdeflate/unix/lib/deflate_compress.c:1700-1807 | All three ways are for the block's own items; the dynamic codes are made from its tally with limits 14 and 15 and the header leaves out what can be left out. |
| FlushBlock.CostsAreExact | src/extlib/libdeflate/unix/lib/deflate_compress.c:1717-1768 | The dynamic cost, summed from the length array that preparing the header has left stale entries in, the static cost with its literal lengths written out, and the uncompressed cost are the sizes of the three blocks. |
| FlushBlock.StoredCost | src/extlib/libdeflate/unix/lib/deflate_compress.c:1764-1768 | The uncompressed prediction is exact if and only if the block is not empty; for an empty block forty bits more are written and the prediction is negative before it wraps. |
| FlushBlock.EmptyBlockCost | src/extlib/libdeflate/unix/lib/deflate_compress.c:1764-1768 | At the start of a stream an empty block is predicted to take -3 bits after its start; with its start it takes 40. |
| FlushBlock.Prepare | src/extlib/libdeflate/unix/lib/deflate_compress.c:1192-1228 | The two codes made from the tally, reversed for writing, with the length array as it is read after the header has been prepared: it agrees with the codes wherever a symbol has a codeword, and the header stands for the used part of both. |
| FlushBlock.StoredUnpack | src/extlib/libdeflate/unix/lib/deflate_compress.c:1681-1694 | Data split into stored blocks of at most 65535 bytes unpacks to the data, and only the last block has the final flag. |
| FlushBlock.WriteUncompressedBlocks | src/extlib/libdeflate/unix/lib/deflate_compress.c:1681-1694 | Exactly the bits of those blocks are written, from any bit position, for any data including none. |
| PrecomputeHeader.StaleIsHarmless | src/extlib/libdeflate/unix/lib/deflate_compress.c:1386-1421 | Lengths that differ only where the frequency is zero give the same cost. |
| PrecomputeHeader.Precompute | src/extlib/libdeflate/unix/lib/deflate_compress.c:1362-1422 | The header prepared in place stands for exactly the used lengths of both codes, in the run items below, leaves out trailing zeros of both codes and of the precode, and has a complete precode made from its items' tally with limit 7; afterwards all offset lengths and the used literal/length ones are back in place. |
| BlockCost.BodyCost | src/extlib/libdeflate/unix/lib/deflate_compress.c:1728-1762 | The bits of a block's body equal the sum over symbols of frequency times codeword length and extra bits. |
| BlockCost.HeaderCost | src/extlib/libdeflate/unix/lib/deflate_compress.c:1719-1726 | The bits of a header equal 14, three for each explicit length, and the sum over precode symbols. |
| Parsers.ParseBlock | src/extlib/libdeflate/unix/lib/deflate_compress.c:1982-2040 | A block parsed greedily or lazily is a list of runs and matches that expands to exactly its bytes, with its own tally; its items are those of the recursive choice, step by step up to where the block ends. It is not empty, is at least 10000 bytes unless it ends the input, overruns the soft limit by one step at most, and never has more sequences than the array has room for. |
| Parsers.LazyStep | src/extlib/libdeflate/unix/lib/deflate_compress.c:2077-2178 | The items chosen are those of the lazy choice: the choices go on covering the input, the matchfinder follows, and at most two match lengths are consumed. |
| ParserChoices.EndsForAReason | src/extlib/libdeflate/unix/lib/deflate_compress.c:1982-2035 | A block ends where a step ends: at the end of the input, from 300000 bytes on, or where its statistics say so and both it and the rest of the input have 10000 bytes. |
| ParserChoices.NoEarlierEnd | src/extlib/libdeflate/unix/lib/deflate_compress.c:1982-2035 | It does not go on past a step after which one of these is so. |
| ParserChoices.LazyStepIs | src/extlib/libdeflate/unix/lib/deflate_compress.c:2077-2178 | A lazy step is a literal where nothing is found; otherwise a match after literals up to where it is found, each find on the way longer than the one before, which reaches the nice length or is not bettered one position on at half the depth. |
| Parsers.GreedyStep | src/extlib/libdeflate/unix/lib/deflate_compress.c:1994-2031 | The match found by a search from two bytes up, with its length and offset, if it finds three bytes or more, and else the literal; the choices go on covering the input and the matchfinder follows. |
| BlockChoices.MatchChosen | src/extlib/libdeflate/unix/lib/deflate_compress.c:1817-1842 | Adding a true match to the sequences and tallies keeps them covering the input, now up to the end of the match. |
| BlockChoices.BlockFinished | src/extlib/libdeflate/unix/lib/deflate_compress.c:1838-1842 | Closing the list with its last run gives sequences whose items are tallied, valid and expand to the block. |
| NearOptimal.CachePosition | src/extlib/libdeflate/unix/lib/deflate_compress.c:2503-2622 | A recorded position has exactly the matches reported, in order, with that of the 3-byte bucket and, unless the search ran out of depth, one that covers each position of the tree; a position passed over has none. |
| NearOptimal.CacheBlock | src/extlib/libdeflate/unix/lib/deflate_compress.c:2503-2622 | Every position of the block is cached with its byte and all matches reported, those that a long enough match covers excepted, up to where the block ends: a function of the buffer, the level and the splitting. The cache never outgrows its array, the block fits the node array, and matches are looked for only below the soft limit, across window slides. |
| NearOptimal.OptimizeBlock | src/extlib/libdeflate/unix/lib/deflate_compress.c:2432-2466 | Whatever the costs of the passes, following the final choices leads exactly to the end of the block, the choices are a cheapest path under the last pass's costs, they are tallied, and they expand to the block's bytes. |
| ItemList.PathExpands | src/extlib/libdeflate/unix/lib/deflate_compress.c:2200-2219 | The items along a settled path over true matches are valid and expand to the rest of the block. |
| ItemList.TallyItemList | src/extlib/libdeflate/unix/lib/deflate_compress.c:2200-2219 | Following the choices counts each literal, length and offset symbol exactly as often as it occurs in the items. |
| ItemList.WriteItemList | src/extlib/libdeflate/unix/lib/deflate_compress.c:1592-1646 | Following the choices writes exactly the bits of the items, in order. |
| MinCostPath.FindMinCostPath | src/extlib/libdeflate/unix/lib/deflate_compress.c:2355-2419 | The backwards pass over the flat match cache settles every node: no choice at it does better than its cost, its item does as well, and the 32-bit sums do not overflow although nodes past the end carry the sentinel. |
| MinCostPath.NoPathCheaper | src/extlib/libdeflate/unix/lib/deflate_compress.c:2355-2419 | No path of literals and matches, each length with the first cached match that reaches it, costs less than what was computed for its start. |
| MinCostPath.ItemsLeadToEnd | src/extlib/libdeflate/unix/lib/deflate_compress.c:2200-2219 | Following the items from any node lands exactly on the end of the block, at the computed cost. |
| MinCostPath.FollowedIsCheapest | src/extlib/libdeflate/unix/lib/deflate_compress.c:2355-2419 | The path followed from the start costs no more than any path through the block. |
| BtMatchfinder.BtMatchfinder.AdvanceOneByte | src/extlib/libdeflate/unix/lib/bt_matchfinder.h:141-267 | With every bucket's tree in the link table sorted by the first n bytes, one step searches the tree of the new string, re-roots it and keeps all trees sorted; the report is the match that the two newest positions with the 3-byte hash offer, whenever one of them is in the window and agrees on three bytes, followed by those the search finds, with true matches, strictly increasing lengths and non-decreasing offsets, no more than n - 2 of them, and unless the depth ran out no position of the bucket offers more. |
| BtHeads.ReportedThree | src/extlib/libdeflate/unix/lib/bt_matchfinder.h:181-206 | A report starts with a match of length 3 and offset cur - z when the newest position z with the current 3-byte hash lies in the window and agrees on three bytes, with the one before it when that agrees and z does not, and has no match of length 3 otherwise. |
| BtHeads.HeadsNext | src/extlib/libdeflate/unix/lib/bt_matchfinder.h:181-186 | Entering a position leaves each 3-byte bucket with the two newest positions of its hash. |
| BtHeads.AbcIsReported | src/extlib/libdeflate/unix/lib/bt_matchfinder.h:187-206 | In xabcdabcefgh the second abc is reported with length 3 and offset 4. |
| BtMatchfinder.BtMatchfinder.SlideWindow | src/extlib/libdeflate/unix/lib/bt_matchfinder.h:115-120 | After a whole window has been entered, rebasing the whole structure keeps all trees, now relative to a base one window further on. |
| BtForest.ForestShorter | src/extlib/libdeflate/unix/lib/deflate_compress.c:2526-2531 | Trees sorted by n bytes are sorted by any smaller number of bytes, which is why the nice length may shrink but never grow. |
| SearchTree.RerootOrdered | src/extlib/libdeflate/unix/lib/bt_matchfinder.h:141-267 | Putting the new string on top of the two halves of its tree gives a tree that is sorted, with later positions above earlier ones. |
| SearchTree.SplitKeeps | src/extlib/libdeflate/unix/lib/bt_matchfinder.h:141-267 | Unless the depth limit stops the search, re-rooting drops no position but one whose string equals the new one on all n bytes. |
| SearchTree.FoundAreMatches | src/extlib/libdeflate/unix/lib/bt_matchfinder.h:141-267 | On the tree value: every match recorded on the way down is true, longer than all before and further back. |
| SearchTree.FoundCoversAll | src/extlib/libdeflate/unix/lib/bt_matchfinder.h:141-267 | On the tree value: unless the depth limit stops the search, every position of the tree that shares more than the least length with the new string is covered by a recorded match at least as long, or as long and no further. |
| SearchTree.OutOfDepthIff | src/extlib/libdeflate/unix/lib/bt_matchfinder.h:262-267 | The depth limit stops a search exactly when its path is longer, and no path is longer than the tree has positions. |
| SearchTree.MetAreCovered | src/extlib/libdeflate/unix/lib/bt_matchfinder.h:223-267 | Whatever the limit, each position met is covered by a recorded match. |
| SearchTree.SplitDrops | src/extlib/libdeflate/unix/lib/bt_matchfinder.h:262-267 | A search out of depth drops just the subtree it has not come to. |
| LzExtend.Extend | src/extlib/libdeflate/unix/lib/matchfinder_common.h:159-203 | By four words, then words, then bytes the exact length of the match up to the maximum is found, from any length already known to agree. |
| LzExtend.WordsDiffer | src/extlib/libdeflate/unix/lib/matchfinder_common.h:196-202 | The lowest bit in which two little-endian words differ lies in their first differing byte. |
| RebaseBits.RebaseSaturates | src/extlib/libdeflate/unix/lib/matchfinder_common.h:119-132 | The branchless bit operations subtract a window from a position in the current window and turn every older one into the oldest. |
| HcMatchfinder.HcMatchfinder.LongestMatch | src/extlib/libdeflate/unix/lib/hc_matchfinder.h:182-342 | With 16-bit relative tables and window slides the match returned is exactly what walking the bucket's positions of the buffer, newest first and within the depth, gives; the position is entered and the next hashes are right. |
| HcMatchfinder.HcMatchfinder.SkipPositions | src/extlib/libdeflate/unix/lib/hc_matchfinder.h:362-403 | After the positions skipped the tables again hold the newest positions and chains of the buffer before the next position, or fewer than five bytes are left and nothing is needed. |
| HashChains.EnteredNext | src/extlib/libdeflate/unix/lib/hc_matchfinder.h:221-233 | The three stores that enter a position leave tables that hold exactly the newest positions of each hash and each position's predecessor. |
| HashChains.EnteredRebased | src/extlib/libdeflate/unix/lib/hc_matchfinder.h:144-149 | Rebasing keeps what the tables hold, relative to a base one window on; positions that have left the window saturate. |
| HashChains.SearchIsTrue | src/extlib/libdeflate/unix/lib/hc_matchfinder.h:182-342 | Whatever is found is a true match, longer than what was to be exceeded, at most the maximum, and less than 32768 bytes back; a match of four bytes or more goes as far as the strings agree. |
| HashChains.SearchIsLongest | src/extlib/libdeflate/unix/lib/hc_matchfinder.h:182-342 | A search that ends below the nice length has found the longest match of four bytes or more with every position of the window that is in the current 4-byte hash's chain within the depth; for the very first position of the stream, provided that the chain is looked into: some position of the window has the 3-byte hash, or four bytes are already matched. |
| HashChains.SearchIsFirst | src/extlib/libdeflate/unix/lib/hc_matchfinder.h:258-342 | What is taken lies within the depth; every later position of its chain has a shorter match, and one that is too short to stop at. |
| HashChains.FirstIsMissed | src/extlib/libdeflate/unix/lib/deflate_compress.c:1977 | The first position of the stream is entered under hash 0. Where the 4-byte hash is another, no search reports it for more than three bytes, and for three only where the 3-byte hash is 0 and no later position has it. |
| HashChains.FirstFoundIff | src/extlib/libdeflate/unix/lib/hc_matchfinder.h:221-257 | When the first position alone has the longest match, that match is found if and only if the current 4-byte hash is 0 and the chain is looked into; the latter follows when the 3-byte hash is 0 too. |
| HashChains.FirstMissed | src/extlib/libdeflate/unix/lib/deflate_compress.c:2062 | The bytes 1 2 3 4 1 2 3 4 5 6: at the fifth nothing is found, at any depth, although the first position has the same four bytes. |
| HashChains.ShortIsFound | src/extlib/libdeflate/unix/lib/hc_matchfinder.h:241-257 | When the newest position with the same 3-byte hash has the same three bytes, the match found is at least three long. |
| HeapSort.Sort | src/extlib/libdeflate/unix/lib/deflate_compress.c:581-640 | The stretch ends up sorted in place, a rearrangement of what it was, and everything outside it is unchanged. |
| SortSymbols.Sort | src/extlib/libdeflate/unix/lib/deflate_compress.c:666-764 | The used symbols end up listed in order of frequency, then of symbol, each once with its frequency, and unused symbols get length zero. |
| HuffmanTree.BuildTree | src/extlib/libdeflate/unix/lib/deflate_compress.c:768-824 | For ascending frequencies with total below 2^22 the in-place two-queue loop makes, at each step, a node of the two lightest items left; parents stay in increasing order and no leaf is overwritten before it has been taken. |
| HuffmanOptimality.HuffmanIsOptimal | src/extlib/libdeflate/unix/lib/deflate_compress.c:768-824 | The depths of the leaves have the least weighted sum among all lengths that satisfy Kraft's inequality, and so among all binary trees on those leaves. |
| LengthCounts.ComputeLengthCounts | src/extlib/libdeflate/unix/lib/deflate_compress.c:853-920 | For any tree and any limit with room for the symbols the counts of lengths fill the codespace exactly; they are the tree's own depths when those are within the limit, and otherwise each node at or beyond it splits the longest codeword that is shorter. |
| LengthCounts.SomeShorter | src/extlib/libdeflate/unix/lib/deflate_compress.c:907-917 | Counts that fill the codespace with fewer than 2^max codewords include a length below the limit, so the search for one ends. |
| GenCodewords.AssignLengths | src/extlib/libdeflate/unix/lib/deflate_compress.c:944-965 | The lengths, longest first, go to the symbols in order of frequency, as many of each as counted. |
| MakeCode.MakeCanonicalHuffmanCode | src/extlib/libdeflate/unix/lib/deflate_compress.c:1087-1153 | Every used symbol gets a length within the limit and the canonical codeword of RFC 1951 section 3.2.2, the code is complete, the lengths go, longest first, to the symbols in order of frequency and then of symbol, as many of each as counted from the tree, and the code is optimal when the limit was not reached, or when no optimal code goes beyond it; one used symbol gets a companion, none gets no code. |
| CanonicalCode.PrefixFree | src/extlib/libdeflate/unix/lib/deflate_compress.c:944-985 | No canonical codeword is the start of another. |
| CanonicalCode.EveryStringDecodes | src/extlib/libdeflate/unix/lib/deflate_decompress.c:529-611 | With a complete code every bit string starts with some codeword. |
| BuildDecodeTable.BuildTable | src/extlib/libdeflate/unix/lib/deflate_decompress.c:529-727 | A table is built exactly for complete codes, empty codes and codes of a single one-bit codeword; then any bits that start with a symbol's codeword look up, through main table and subtable, its result and exact length, other bits give a default, and entries beyond the exact size the code needs are untouched. |
| BuildDecodeTable.TableIsTotal | src/extlib/libdeflate/unix/lib/deflate_decompress.c:529-727 | With a complete code any bits at all look up a symbol whose codeword they start with. |
| SubtableWidth.WidthFrom | src/extlib/libdeflate/unix/lib/deflate_decompress.c:655-666 | The width found from the counts left is that of the longest codeword with the prefix, so the subtable is filled completely. |
| TableFilling.OpenSubtable | src/extlib/libdeflate/unix/lib/deflate_decompress.c:638-681 | Opening a subtable puts it right behind the ones before it and keeps everything that was already entered. |
| BitWriter.OutputBitstream.FlushWord | src/extlib/libdeflate/unix/lib/deflate_compress.c:529-549 | Storing a whole word and counting only its full bytes keeps the buffer and the waiting bits together equal to every bit added; reaching the end of the buffer is remembered. |
| BitWriter.OutputBitstream.FlushOutput | src/extlib/libdeflate/unix/lib/deflate_compress.c:562-575 | The bytes returned hold every bit added, padded with zeros, or the size is 0 when something was lost. |
| BitReader.InputBitstream.FillBitsWordwise | src/extlib/libdeflate/unix/lib/deflate_decompress.c:237-242 | A word refill leaves the buffer holding the stream's next bits; bits above the count are right too, and are put in again later. |
| BitReader.InputBitstream.EnsureBits | src/extlib/libdeflate/unix/lib/deflate_decompress.c:220-262 | Under any mix of word and byte refills the register holds the next bits of the stream, zeros past its end. |
| BitReader.InputBitstream.PopBits | src/extlib/libdeflate/unix/lib/deflate_decompress.c:267-277 | What is taken is the number in the next n bits of the stream. |
| BitReader.InputBitstream.AlignInput | src/extlib/libdeflate/unix/lib/deflate_decompress.c:288-293 | The input goes on with the next byte of the stream if and only if the overrun count was zero when last aligned, or has grown since by at least the whole bytes in the register; otherwise it goes on later. |
| BitReader.AlignTwice | src/extlib/libdeflate/unix/lib/deflate_decompress.c:288-293 | Seven bytes, filled and aligned twice with nothing taken in between: the input goes on with byte 1 instead of byte 0. |
| BitReader.InputBitstream.ReadStoredHeader | src/extlib/libdeflate/unix/lib/decompress_impl.h:201-211 | Between blocks the late alignment does no harm: the header is accepted, with its length, exactly when the fields at the right byte agree. |
| BlockDecoder.DecodeBlock | src/extlib/libdeflate/unix/lib/decompress_impl.h:246-387 | The loop with its two-level tables, refills and fast copies ends as decoding the items of the stream one by one does: with the same output and position, or the same error. |
| BlockRoundTrip.DecodeUndoesEncode | src/extlib/libdeflate/unix/lib/decompress_impl.h:246-387 | Any valid items, encoded with fitting codes and ended by the end-of-block symbol, decode to exactly what they expand to, and decoding stops right behind that symbol. |
| BlockRoundTrip.OwnCodesInflate | src/extlib/libdeflate/unix/lib/decompress_impl.h:246-387 | The same for codes made from the block's own tally, anywhere in a stream. |
| BlockItems.OwnTallyEncodes | src/extlib/libdeflate/unix/lib/deflate_compress.c:1211-1228 | Codes made from a block's tally have a codeword for each of its symbols and for its end. |
| BlockWriter.WriteSequences | src/extlib/libdeflate/unix/lib/deflate_compress.c:1462-1580 | Literals four at a time between flushes and matches are written as exactly the bits of the items, in order, with lengths read from the array that may have stale entries. |
| BlockWriter.SequencesAreItems | src/extlib/libdeflate/unix/lib/deflate_compress.c:1462-1580 | The bits of sequences are those of the literals and matches they stand for. |
| MatchCopy.Copy | src/extlib/libdeflate/unix/lib/decompress_impl.h:328-386 | By three words, words, a repeated byte or bytes: the output ends with the match exactly as copied byte by byte, nothing before it changes and nothing is stored past the end of the buffer. |
| MatchCopy.RepeatsIsExtended | src/extlib/libdeflate/unix/lib/decompress_impl.h:328-386 | Bytes that repeat those an offset before are the byte-by-byte overlapping copy. |
| PrecodeItems.ComputePrecodeItems | src/extlib/libdeflate/unix/lib/deflate_compress.c:1275-1349 | The run-length items of any list of lengths below 16 stand for exactly that list, each is counted once, and they are those of its runs one after the other. |
| PrecodeItems.RunItemsSize | src/extlib/libdeflate/unix/lib/deflate_compress.c:1305-1345 | A run of zeroes takes one item for each 138 and one for the rest, or one for each of one or two; a run of another length one item, one for each further six and one for the rest, or one for each of one or two; up to three lengths are not repeated. |
| CodeLengths.ExpandLens | src/extlib/libdeflate/unix/lib/decompress_impl.h:115-195 | Always storing the greatest run agrees with exact expansion of the items, for any input, and stores at most 137 cells past the wanted lengths. |
| DynamicHeader.LensRoundTrip | src/extlib/libdeflate/unix/lib/decompress_impl.h:115-195 | Lengths written as items through a precode are read back unchanged. |
| DynamicHeader.ReadHeader | src/extlib/libdeflate/unix/lib/decompress_impl.h:64-195 | A written header is read back with its counts and exactly the lengths its items stand for; whatever the input, accepted lengths are below 16. |
| Adler32.Generic | src/extlib/libdeflate/unix/lib/adler32.c:106-137 | For every buffer and valid start the chunked sums equal the definition of RFC 1950 that reduces after every byte: the low half is the sum of the bytes and the high half the sum of all sums on the way, modulo 65521. |
| Adler32.DefinitionIsAdler | src/extlib/libdeflate/unix/lib/adler32.c:106-137 | In numbers: r mod 65536 is the start's low half plus the bytes, r / 65536 its high half plus its low half once for each byte plus each byte as often as there are bytes from it on, both modulo 65521. |
| Adler32.SomeChecksums | src/extlib/libdeflate/unix/lib/adler32.c:106-137 | From 1, the byte 97 gives 00620062 and the nine letters of Wikipedia give 11E60398. |
| Adler32.ReducedAtTheEnd | src/extlib/libdeflate/unix/lib/adler32.c:106-137 | Reducing once after any number of bytes gives what reducing after every byte gives. |
| Adler32.ChunkFits | src/extlib/libdeflate/unix/lib/adler32.c:36-58 | In 5552 bytes, from reduced sums, neither sum leaves 32 bits. |
| AdlerLanes.Sse2 | src/extlib/libdeflate/unix/lib/adler32_impl.h:64-275 | SSE2: for a buffer at any address the 32-byte iterations in 16- and 32-bit lanes, with aligning prefix and rest, equal the definition. |
| AdlerLanes.VectorChunk | src/extlib/libdeflate/unix/lib/adler32_impl.h:142-214 | In at most 128 iterations no lane leaves its width or becomes negative, and the horizontal sums give the exact sums of the chunk. |
| Crc32.LateFormDivides | src/extlib/libdeflate/unix/lib/crc32.c:66-121 | Taking each message bit only when it is about to leave the register gives the remainder of the long division with 32 zero bits appended. |
| Crc32.ChecksumDivides | src/extlib/libdeflate/unix/lib/crc32.c:66-121 | From the initial value the checksum of a buffer is the inverted remainder of that division. |
| Crc32.DivisorIs | src/extlib/libdeflate/unix/lib/crc32.c:78 | The divisor's coefficients are those of x^32 + x^26 + x^23 + x^22 + x^16 + x^12 + x^11 + x^10 + x^8 + x^7 + x^5 + x^4 + x^2 + x + 1. |
| Crc32.ChecksumOfA | src/extlib/libdeflate/unix/lib/crc32.c:66-121 | The checksum of the byte 97 is E8B7BE43. |
| Crc32.ChecksumContinues | src/extlib/libdeflate/unix/lib/crc32.c:362-368 | The checksum of a buffer may be computed in pieces. |
| Crc32.Linear | src/extlib/libdeflate/unix/lib/crc32.c:106-121 | The register is linear over exclusive or in start and message together. |
| Crc32Slices.FillTable | src/extlib/libdeflate/unix/tools/gen_crc32_table.c:66-74 | The recurrence fills every entry with the remainder of its byte followed by its number of zero bytes. |
| Crc32Slices.UpdateByteIs | src/extlib/libdeflate/unix/lib/crc32.c:227-231 | One table look-up is eight bit steps. |
| Crc32Slices.Slice4 | src/extlib/libdeflate/unix/lib/crc32.c:247-274 | Four look-ups at once equal the bit-wise definition, for every buffer at any address. |
| Crc32Slices.Slice8 | src/extlib/libdeflate/unix/lib/crc32.c:277-310 | Eight look-ups at once equal the bit-wise definition, for every buffer at any address. |
| ChunkScatter.CopyChunk | src/placeChunkedData.c:385-442 | For every rank up to 32, array shape, chunk shape and start inside the array, and whatever edges the chunk collides with, the copy ends and every element inside the array is at its column-major place; nothing else changes. |
| ChunkScatter.CopyRows | src/placeChunkedData.c:418-442 | The loop ends by its position alone, as the count of used elements is never advanced: the last carry takes the position past the array. |
| ChunkScatter.NextRow | src/placeChunkedData.c:428-439 | Carrying in the coordinates that are in use, with the highest one in use growing by need, is advancing an odometer, and counts its carries. |
| ChunkScatter.MakeChunkedUpdates | src/placeChunkedData.c:609-623 | The precomputed distances are those between consecutive rows when a number of coordinates wrap. |
| ChunkIndex.NextJumps | src/placeChunkedData.c:609-623 | Advancing the odometer moves the column-major position by the jump of its number of carries. |
| ChunkIndex.LastJump | src/placeChunkedData.c:609-623 | After the last row the jump over all dimensions is the size of the whole array. |
| ChunkIndex.PositionOfThree | src/placeChunkedData.c:460-475 | The array position of three coordinates x, y, z is x + a y + a b z. |
| ChunkTree.PageBooks.FillNode | src/placeChunkedData.c:479-598 | After the tree has been walked every page has counted the chunks that start in it and holds them in order; its mapping size reaches from its start to the last byte of each of them, is no less than before and no more than one of them or the earlier size needs. A node of a group tree is an error. |
| ChunkTree.LeafByPath | src/placeChunkedData.c:479-598 | Every chunk to which a path of child numbers leads is among those entered. |
| ChunkTree.PathToLeaf | src/placeChunkedData.c:479-598 | To every chunk that is entered such a path leads. |
| ChunkTree.EachChunkQueued | src/mtezq.c:298-317 | After the buckets have been merged every chunk of the tree is in the queue exactly once. |
| ChunkTree.BooksMatchQueue | src/placeChunkedData.c:582-587 | The counts and mapping sizes are what the workers' protocol starts from. |
| TreeToArray.Collect | src/placeChunkedData.c:119-128 | Walking the tree and merging the buckets fails exactly on a node of a group tree; otherwise the queue holds every chunk of the tree once, each page has counted the chunks that start in it, and every chunk's bytes lie between the start of its page and the start plus the page's mapping size, which some chunk or an earlier dataset needs. |
| TreeToArray.BytesAreMapped | src/navigate.c:220-361 | In every run a worker between navigating and releasing has all bytes of its chunk in the present mapping of the page that the chunk starts in. |
| TreeToArray.BehindPageStart | src/placeChunkedData.c:582-587 | A chunk of 2000 bytes, 3000 bytes into its page, takes a mapping of 5000. |
| TreeToArray.TreeFillsArray | src/placeChunkedData.c:288-442 | From what was collected, in every interleaving: when all workers have finished, every element of every chunk of the tree is at its place in the array, and no page is mapped. |
| ChunkGrid.FinalArrayIsGrid | src/placeChunkedData.c:288-442 | In every interleaving, when all workers have finished every element of the array is the one its grid cell defines. |
| ChunkGrid.StoresAreCopy | src/placeChunkedData.c:418-442 | The stores of a chunk, one after the other, leave exactly the array that the copy loop leaves. |
| PoolArray.FinalArray | src/placeChunkedData.c:288-442 | In every interleaving of workers whose chunks share no element, the finished array has every element in place and is otherwise as before. |
| PoolRuns.StepKeeps | src/navigate.c:220-297 | Every atomic step of every worker keeps the invariant of pages, use counts, locks, pointers and chunks, as long as no page can have more than 256 users. |
| PoolRuns.PointerIsGood | src/navigate.c:220-361 | In every run of at most 256 workers, or of any number with at most 256 chunks on each page, between navigating and releasing a worker's pointer leads into the mapping that is there, which covers its chunk. |
| UseCountWraps.SafeIff | src/headers/getDataObjects.h:366 | Pointers are good in every run if and only if there are at most 256 workers or at most 256 chunks on each page. |
| UseCountWraps.CountWraps | src/navigate.c:228-274 | With 257 workers and 257 chunks on one page, wherever they are in the queue, some run drops the mapping while a worker has a pointer into it. |
| UseCountWraps.OnOnePageSafe | src/headers/getDataObjects.h:366 | As many workers as chunks on a single page are safe exactly up to 256. |
| PoolRuns.PointerStays | src/navigate.c:220-361 | No step of another worker unmaps or replaces that mapping. |
| PoolRuns.CompleteRun | src/placeChunkedData.c:288-442 | In every run that ends each queued chunk has been processed exactly once and every page is unmapped. |
| PoolProgress.FairRunCompletes | src/navigate.c:220-297 | In every fair schedule, after finitely many turns all workers have finished, each chunk has been processed exactly once and no page is mapped: looking at a page in use again and again does not go on for ever. |
| PageRemaps.MappedOnceIff | src/navigate.c:220-297 | Each page is mapped at most once in every run if and only if there is a single worker or no two chunks share a page. |
| PageRemaps.OnePageTwice | src/navigate.c:246-271 | Two workers and two chunks on one page: some run maps the page twice. |
| Queue.Queue.Enqueue | src/ezq.c:21-66 | The item is appended to all items and to the live ones, and a traversal under way still comes to it unless it had come to its end. |
| Queue.Queue.PriorityEnqueue | src/ezq.c:69-130 | The item is put before the live ones, or at the back when none is live; a traversal under way comes to it exactly if it is not yet at the first live item. |
| Queue.Queue.Dequeue | src/ezq.c:163-177 | The first live item is returned and stays in the queue; nothing when none is live. |
| Queue.Queue.Restart | src/ezq.c:148-160 | All items not freed are live again, in order; a traversal is not disturbed. |
| Queue.Queue.Reset | src/ezq.c:133-145 | No item is live afterwards; the queue stays sound if and only if it has an item or its back pointer is null. |
| Queue.Queue.Clean | src/ezq.c:255-279 | Exactly the taken items are freed, in order, and the live ones stay; a traversal survives if and only if it does not stand at a freed item. |
| Queue.Queue.Flush | src/ezq.c:226-252 | Every item is freed in order and the queue is empty. |
| Queue.Queue.InitTraversal | src/ezq.c:282-294 | The traversal starts with the live items; its count is exact if and only if an item is live or the front is null, which fails only after a reset. |
| Queue.Queue.TraverseAll | src/utils.c:7-18 | The callers' loop over the count of a traversal meets exactly the items to go, in order. |
| Queue.MergeQueue | src/ezq.c:204-223 | The live items of each source in turn are appended, every source starts over with all its items, and traversals of all of them go on as they were. |
| Queue.ResetAfterClean | src/ezq.c:133-145 | Enqueue, dequeue, clean, reset: front is left at the freed node. |
| Queue.TraverseAfterClean | src/ezq.c:255-279 | Enqueue, start a traversal of all items, dequeue, clean: the traversal is left at the freed node. |
| Queue.TraverseAfterReset | src/ezq.c:282-294 | Enqueue, reset, start a traversal: an item is met although the count is zero, and the count wraps to its greatest value. |

## Findings

- `Queue.Reset`: resetting a queue that cleaning has emptied copies the stale back pointer to the front (src/ezq.c:133-145,
  src/ezq.c:255-279). Sound exactly when the queue has an item or its back pointer is null; `Queue.ResetAfterClean` gets there.
- `Queue.Clean`: cleaning does not look at the traversal pointer (src/ezq.c:255-279). A traversal survives exactly when it does
  not stand at a freed item; `Queue.TraverseAfterClean` gets there.
- `Queue.InitTraversal`: after a reset the traversal has one item to go but a count of zero, and the count then wraps
  (src/ezq.c:282-324); `Queue.TraverseAfterReset` gets there.
- `BitReader.InputBitstream.AlignInput`: the overrun count is not reset (src/extlib/libdeflate/unix/lib/deflate_decompress.c:288-293),
  so a second alignment near the end of the input can go on too late; the exact condition is in its contract and
  `BitReader.AlignTwice` gets there. `BitReader.InputBitstream.ReadStoredHeader` shows that no stored block is decoded differently for it.
- `PageRemaps.MappedOnceIff`: a page can be mapped again after its mapping was found missing and another worker has mapped and
  released it (src/navigate.c:246-271); this is possible exactly with two workers and a shared page, and `PageRemaps.OnePageTwice`
  is such a run. The earlier mapping is unmapped first, and no pointer is lost as long as no use count wraps.
- `FlushBlock.StoredCost`: for an empty block the predicted cost of uncompressed blocks wraps around
  (src/extlib/libdeflate/unix/lib/deflate_compress.c:1764-1768). The parsers hand over no empty block.
- The number of counters for sorting symbols is the number of symbols rounded up to a multiple of four, not a quarter of it as
  the comment suggests (src/extlib/libdeflate/unix/lib/deflate_compress.c:639, 676-684): the operand order makes 3 / 4 vanish.
- `HashChains.FirstFoundIff`: the hashes of a stream's first position are taken to be 0 whatever its bytes
  (src/extlib/libdeflate/unix/lib/deflate_compress.c:1977, 2062), and it is entered under them
  (src/extlib/libdeflate/unix/lib/hc_matchfinder.h:221-233). A longest match with it alone is found exactly when the 4-byte hash of
  the current position is 0 and the chain is looked into, for which it is enough that the 3-byte hash is 0. With a 4-byte hash of 0
  and another 3-byte hash it takes a later position with that 3-byte hash; with a 3-byte hash of 0 and another 4-byte hash three
  bytes at most are found. `HashChains.FirstMissed` is a stream where it is missed. What is found is a true match all the same.
- `UseCountWraps.SafeIff`: a page's use count has eight bits (src/headers/getDataObjects.h:366), while the number of workers is the
  caller's choice (src/getmatvar_.c:205). With 257 workers on 257 chunks of one page the count comes back to 0 while 256 of them
  use the mapping, and one that had found the page unmapped drops it (src/navigate.c:228-274). Runs are safe exactly when there
  are no more than 256 workers, or no more than 256 chunks on any page; that is assumed in `PoolRuns.Initial`.

## Left out

- AdlerLanes.Sse2: states the SSE2 version of the template; its AVX2 and NEON branches are not modelled.
- ChunkTree.PageBooks.FillNode: the bytes of B-tree nodes and keys are not read; the tree is a value whose nodes carry their kind,
  their children and the chunks' places, so only the accounting, the buckets and the error are stated.
- The zlib and gzip wrappers around DEFLATE, and dispatch on the processor's features; the AVX2, NEON and carry-less-multiply
  versions of checksums and of initialising or rebasing tables: thin or intrinsic versions of what is proved.
- Byte order: only the little-endian, fast-unaligned paths of `lz_extend`, of the hash-chain candidate test and of the word
  loads are modelled; MATLAB data of the other byte order in `placeData` is not.
- Reversing a codeword by swapping in sixteen bits, and the slot look-up tables: the reversal and the search for the slot that they stand for are used directly.
- The 1334 and 402 entries the decode tables are declared with: any size that is enough for every complete code is allowed, and
  `Inflate.CrudelyEnough` gives one. The exact size each code needs is computed and never exceeded.
- Sharing of memory between the length list, the precode table and the literal/length table in the decompressor, and between the
  sequences and the near-optimal parser's arrays in the compressor; the packing of run length and match length in one word.
- The statistics that decide where a block ends, and the costs that near-optimal parsing assumes: any decision at any position
  and any costs within their bounds are allowed, so every theorem holds for those of the code.
- Widths of cost sums outside the shortest-path pass, and of positions: blocks are far below what 32 bits hold.
- Streams whose precode has a single codeword, which the compressor never writes: `Inflate.ReadBlock` says of them only what it says of any input.
- Queue nodes: `removeAtTraverseNode`, which does not maintain the back pointer; failed allocations; the first node's backward
  link, which is never followed; null data.
- Queues of the pool: the page buckets and the shared queue are sequences in the tree walk and in the state machine, not the linked queue; taking an item is one step under its lock.
- Reading the page pointer after unlocking is one step with the unlocking; `PoolRuns.PointerStays` shows that nobody changes it until the worker has released the page.
- Decompression inside a worker is abstract; all chunks decompress. How a worker reports an
  error through the field that all of them share is not modelled.
- Mapping files, the single-threaded navigation with eviction, MATLAB and MEX calls, and reading of HDF5 headers.
