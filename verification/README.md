# Verified models of mkcdrec's compressors, package checker and media path

mkcdrec writes a running system to CDs and brings it back from them. What it ships for that is
mostly in C: a busybox with `gzip`, `lzop` and `dpkg`, the `mediacheck` pair that implants and
checks the MD5 sum of an ISO image, and `cutstream`/`pastestream`, which cut a backup over volumes
and paste it together again. This project models the hard core of those programs in Dafny, in the
form the C code has (classes and arrays where it updates things in place, loops where it loops), and
proves what they are for.

**gzip** (`busybox/archival/gzip.c`). The compressor is modelled whole, from the bit buffer to
`zip`. The specification is a reference decoder for DEFLATE (`Inflate.dfy`, sections 3.2.3 to 3.2.7
of RFC 1951; `InflateExamples` holds it to streams written out by hand). The layers are `BitWriter`;
`CanonicalCode`, `HuffmanHeap`, `HuffmanTree`, `BitLengths`, `LengthCounts`, `GenBitlen`,
`LengthOrder`, `ForcedCodes`, `TreeBuilder` for the trees; `HuffmanOptimal`, `HuffmanDepth`,
`OptimalCode`, `CodeTooLong`, `BlockOptimum` for their optimality; `CodeLengthRuns`, `TreeHeader`,
`BlockTrees` for the header of a block; `CodeTables`, `TokenBuffer`, `SymbolTally`, `BlockPrices`,
`BlockEnds`, `CompressBlock`, `BlockCoder` for the block; `BlockEncoding`, `Reading`, `BlockStream`
for reading it back; `MatchHash`, `HashChains`, `MatchSearch`, `SlidingWindow`, `Lz77`,
`LazyMatching`, `Deflate`, `LateMatch` for the matcher; and `Gzip`. The top result, `Gzip.Zip`, says
that the reference decoder gives back exactly the bytes read, whatever sizes the reads return.

**lzop** (`busybox/archival/lzop.c`). `Lzo1x` gives the LZO1X instruction stream a small-step
meaning, as `lzo1x_optimize` itself reads it; `LzoRewrites` shows for each of the five rewrites that
the decoder goes through an equivalent run; `LzoPass` says which rewrite is made where;
`LzoOptimize` is the optimizer, in place on its array. `Adler` is `lzo_adler32`.

**dpkg** (`busybox/archival/dpkg.c`). `Probing` and `NameTable` are the three hash tables,
`VersionOrder` the Debian version order (section 5.6.12 of the Debian Policy Manual),
`DependencyText` and `DependencyFormat` the reading of dependency fields, `Dependencies` the
dependency phase of `check_deps`.

**The media path** (`mediacheck/`, `cutstream/`, `pastestream-0.3/`). `Md5` is streaming MD5 over an
arbitrary block transform (sections 3.1 to 3.5 of RFC 1321), `IsoSum` implanting and checking (sections
8.4.8 and 8.4.32 of ECMA-119), `StreamVolumes` cutting and pasting.

`dafny verify dfyconfig.toml` checks everything. Proofs that only pass a fact on hide its definition
with `hide`. A few class invariants are written `forall k :: Open(k) ==> …`, which folds them up for
the methods that merely keep them; `Bits.Open` is always true.

## Model

| member | source | states |
|---|---|---|
| `Gzip.Zip` | busybox/archival/gzip.c:1960-1993 | The file written is a gzip header, a DEFLATE stream that the reference decoder expands to exactly the bytes read (whatever follows it), the check word and the length modulo 2^32; the stream is that of the tokens which lazy matching makes of the bytes read, divided into blocks; all of the input has been read unless a read failed. |
| `Gzip.HeaderBytes` | busybox/archival/gzip.c:1964-1984 | The header is, byte by byte, that of section 2.3.1 of RFC 1952, with the time stamp least significant byte first. |
| `Deflate.Deflater.Run` | busybox/archival/gzip.c:1702-1805 | Whatever sizes the reads return, the tokens given to ct_tally are those of lazy matching over all bytes read, every search at its place having found the longest of the strings it tries; expanded as LZ77 copies they are the bytes read, with lengths of 3 to 258 and distances of 1 to MAX_DIST; a block ends exactly where ct_tally asks for it, each in its smallest form, and the blocks form a complete stream. |
| `Deflate.Deflater.Step` | busybox/archival/gzip.c:1718-1799 | One round of lazy matching makes one search at strstart, correct for all the data, and what it codes is what the rule of lazy matching makes of the searches so far; blocks and buffered tokens stand for the data up to strstart, or up to the byte before it while that one waits. |
| `LazyMatching.MatchRule` | busybox/archival/gzip.c:1746-1770 | A match that is found is coded as a match, of that length and distance, unless the search at the next byte finds a longer one; the next search is behind it. |
| `LazyMatching.LiteralRule` | busybox/archival/gzip.c:1771-1790 | If the next search finds a longer match, or nothing was found, the byte is coded as a literal. |
| `LazyMatching.OutcomeShown` | busybox/archival/gzip.c:1719-1742 | What the search in the window finds, clipped to the lookahead and given up if it has three bytes more than TOO_FAR away, is a longest match among the strings tried in all the data, and the latest of its length, the end of the data apart. |
| `LazyMatching.NoLonger` | busybox/archival/gzip.c:582-656 | A match longer than the one found, in reach and still in the window, is one with as many later strings of its hash as the search tries. |
| `LazyMatching.NothingMissed` | busybox/archival/gzip.c:582-656 | If nothing is found, three bytes not at the end of the data that occurred up to 4096 bytes before have as many later strings of their hash as the search tries. |
| `Lz77.CopyMatch` | busybox/archival/gzip.c:1743-1748 | Copying a match byte by byte, overlapping or not, continues the data exactly where the match was found. |
| `Lz77.CodedPiece` | busybox/archival/gzip.c:1678-1687 | A flushed block stands for its stretch of the data whether it carries the tokens or the stored bytes. |
| `SlidingWindow.Window.FillWindow` | busybox/archival/gzip.c:518-566 | After any read the window still holds the data from its base on, slides keep every position's place in the data, hash chains and rolling hash stay right, and end of file is only set when the input is used up or a read failed. |
| `SlidingWindow.Window.Slide` | busybox/archival/gzip.c:532-556 | Sliding by WSIZE keeps the window's contents and the meaning of every head and prev entry that does not fall off. |
| `SlidingWindow.Window.InsertString` | busybox/archival/gzip.c:1695-1700 | The string is entered under the hash of its three bytes; what is returned is the head of that chain, the latest earlier string with the same hash, or none. |
| `SlidingWindow.Window.LongestMatch` | busybox/archival/gzip.c:582-656 | The result is the larger of prev_length and the longest run, up to 258 bytes, of any of the strings tried: the latest ones with the hash of the string at strstart, 4096 of them or 1024 from a prev_length of 32 on, within reach; match_start is the latest string with a run of that length, and is unchanged if none is longer than prev_length. Byte 2 is never compared. |
| `MatchSearch.Passed` | busybox/archival/gzip.c:643-655 | When the chain, the limit or chain_length ends the search, the best so far is the longest of all strings that are to be tried; otherwise the next older entry is the next one of them. |
| `LateMatch.LookaheadSuffices` | busybox/archival/gzip.c:608-608 | The assertion holds until the end of the input has been seen, and from then on exactly if the rest of the input and the room behind it in the window make up MIN_LOOKAHEAD bytes. |
| `LateMatch.LateSearch` | busybox/archival/gzip.c:608-608 | On an input of 65300 bytes, whatever sizes the reads return, deflate comes to a call of longest_match at position 65280, where the assertion fails. |
| `SlidingWindow.Window.Compare` | busybox/archival/gzip.c:630-641 | The unrolled comparison stops at the first difference, or at 258. |
| `MatchHash.ThirdByte` | busybox/archival/gzip.c:624-630 | Two positions with the same rolling hash that agree in the first two bytes agree in the third. |
| `MatchHash.PrimedNext` | busybox/archival/gzip.c:1665-1665 | The rolling hash after the next byte is the hash of exactly three bytes, whatever came before. |
| `HashChains.ChainsSlid` | busybox/archival/gzip.c:544-553 | Lowering all entries by WSIZE with a floor of none keeps all chains: every entry is the latest earlier string with the same hash, or there is none left in the window. |
| `HashChains.Inserted` | busybox/archival/gzip.c:1695-1700 | Entering a position keeps all chains exact although prev is addressed modulo WSIZE. |
| `BlockCoding.BlockCoder.Tally` | busybox/archival/gzip.c:1467-1517 | The token is appended to the block, frequencies and flag bits are kept up to date, and a flush is asked for exactly if a buffer is full or, at every 4096th token, matches are few and the bound on the block's size is below half of its bytes. |
| `BlockEnds.EstimateIs` | busybox/archival/gzip.c:1496-1506 | The sum over the distance frequencies is five bits and the extra bits of every match, so it bounds the block's size from its tokens alone. |
| `BlockCoding.BlockCoder.FlushBlock` | busybox/archival/gzip.c:1574-1656 | The bits sent are one block in its smallest form, bit for bit; a block that is not the last is appended to the stream and the buffers start anew, the last one closes the stream on a byte boundary with fewer than eight bits of padding; the length returned is the bits sent, in bytes, modulo 2^32. |
| `BlockCoding.BlockCoder.EndBlock` | busybox/archival/gzip.c:1596-1646 | The bits are exactly those of the form chosen: stored if the data is at hand and that is no longer than both other forms, else the shorter of static and dynamic; compressed_len is advanced by exactly the bits sent. |
| `BlockCoding.SmallestSize` | busybox/archival/gzip.c:1596-1644 | If the block is not stored, its bytes are the lesser of what the static and the dynamic form take; it is stored only if that takes no more. |
| `BlockCoding.BlockCoder.BuildDataTrees` | busybox/archival/gzip.c:1582-1589 | opt_len and static_len are exactly the bits that compress_block will send under either pair of trees; and no codes at all make the data of the block shorter, if optimal codes of at most 15 bits exist for it, and in any case if it has fewer than 2583 tokens. |
| `BlockCoding.BlockCoder.BuildHeader` | busybox/archival/gzip.c:1403-1430 | opt_len grows by exactly the bits of the header, which ends at a length that is not 0; the code for the code lengths is optimal if and only if an optimal one of at most 7 bits exists, and in any case for fewer than 55 items. |
| `BlockCoding.BlockCoder.InitBlock` | busybox/archival/gzip.c:978-1000 | All frequencies are cleared but that of the end-of-block symbol. |
| `BlockStream.WholeStreamBack` | busybox/archival/gzip.c:1574-1656 | The reference decoder, run on the bits of all blocks and anything after them, returns all tokens in order and stops where the last block ends. |
| `BlockStream.BlockBack` | busybox/archival/gzip.c:1620-1644 | Every block of the three kinds is decoded to its own tokens, at any bit position of any stream. |
| `BlockStream.SentIsBlock` | busybox/archival/gzip.c:1620-1644 | What flush_block sends for valid codes is a block for every surrounding stream. |
| `BlockEncoding.TokensBack` | busybox/archival/gzip.c:1523-1566 | The bits of the tokens and the end-of-block code are decoded to the same tokens, for any prefix codes that cover them. |
| `BlockEncoding.HeaderBack` | busybox/archival/gzip.c:1438-1460 | The counts, the code-length code and the run-coded lengths are decoded to the same two length arrays. |
| `BlockEncoding.StoredBack` | busybox/archival/gzip.c:490-508 | A stored block is decoded to its bytes, from any bit position. |
| `CompressBlock.Compress` | busybox/archival/gzip.c:1523-1566 | Walking the three buffers with the flag bits sends the bits of exactly the tokens tallied, then the end of the block. |
| `TokenBuffers.TokenBuffer.Save` | busybox/archival/gzip.c:1469-1494 | The buffers hold one token more: l_buf, d_buf and the flag bits of the current byte. |
| `CodeTables.FillTables` | busybox/archival/gzip.c:1884-1914 | For all 256 lengths and 32768 distances the tables give the code whose base and extra bits (section 3.2.5 of RFC 1951) contain the value. |
| `CodeTables.FillStaticLits` | busybox/archival/gzip.c:1916-1942 | The static literal tree has the fixed lengths of section 3.2.6 of RFC 1951 and their canonical codes, reversed. |
| `CodeTables.FillStaticDists` | busybox/archival/gzip.c:1944-1948 | The static distance tree has the fixed five-bit codes, reversed. |
| `BlockPrices.DataSize` | busybox/archival/gzip.c:1523-1566 | The length of a block's data is the sum of code length and extra bits over its symbols. |
| `BlockPrices.TreePrice` | busybox/archival/gzip.c:1087-1090 | The frequencies weighed by the lengths, as gen_bitlen adds them up, are the bits of the symbols one by one. |
| `BlockOptimum.LeastData` | busybox/archival/gzip.c:1582-1589 | With optimal lengths in both trees, the block's data is not longer than under any other decodable pair of codes. |
| `TreeBuilding.TreeBuilder.BuildTree` | busybox/archival/gzip.c:1200-1274 | The lengths form a complete prefix code within max_length that covers every symbol that occurs, the codes are canonical, and opt_len and static_len grow by exactly the price of the symbols in spite of forced codes. For frequencies that add up to less than 2^16 the lengths are optimal among all codes, of any lengths, if and only if some optimal code keeps max_length; they are whenever the symbols occur fewer times than the Fibonacci number max_length + 3. Of two symbols the less frequent one never has the shorter code, below that sum. |
| `TreeBuilding.TreeBuilder.GenBitLen` | busybox/archival/gzip.c:1046-1131 | After the overflow repair no length exceeds max_length, the leaves are the same, bl_count is their statistics, the Kraft sum is exactly one and the totals are the price of the lengths; without overflow the lengths are the depths. With overflow, the lengths are those of the repaired counts, handed out along the list. |
| `TreeBuilding.TreeBuilder.CombineLoop` | busybox/archival/gzip.c:1251-1272 | The loop keeps heap order and ends with one root, heap and list never meeting in their common array. |
| `TreeBuilding.TreeBuilder.ForceCodes` | busybox/archival/gzip.c:1230-1239 | At least two codes take part, the forced ones are among the first three and were free, and the totals are corrected for them in advance. |
| `ForcedCodes.OneForced` | busybox/archival/gzip.c:1230-1239 | Beside a single symbol exactly one code is forced, so opt_len, then 0, is -1 for a while. |
| `LengthCounts.Repair` | busybox/archival/gzip.c:1098-1110 | The repair loop always finds a shorter length with a leaf, never drives a count negative, ends because the overflow is even, and reaches Kraft sum one with the number of leaves unchanged. The counts are those of the rule that moves down a leaf of the longest length that can grow. |
| `BitLengths.LeavesBalanced` | busybox/archival/gzip.c:1064-1091 | After cutting the depths off at max_length, the Kraft sum exceeds one by half the number of cut nodes, which is therefore even, and enough leaves lie at the bottom. |
| `BitLengths.FatherFirst` | busybox/archival/gzip.c:1064-1078 | In the list every father stands before its sons, so the Dad field is read before Len overwrites it and Len is set before a son needs it. |
| `BitLengths.FinalList` | busybox/archival/gzip.c:1251-1274 | At the end of the combining loop the list is a full binary tree over exactly the used symbols. |
| `GenBitlen.SecondPassWorks` | busybox/archival/gzip.c:1112-1130 | Handing out the repaired lengths from the end of the list gives every leaf a length and updates opt_len to the new price. |
| `LengthOrder.LengthsOrdered` | busybox/archival/gzip.c:1098-1130 | With or without repair, of two symbols the less frequent one never gets the shorter code, for frequencies that add up to less than 2^16. |
| `HuffmanTree.StepKeeps` | busybox/archival/gzip.c:1251-1270 | A round keeps heap order, keeps heap and list apart and complete, and joins the two least nodes. |
| `HuffmanHeap.SinkRestores` | busybox/archival/gzip.c:1011-1033 | Sinking the entry at k restores heap order from k on, with the same elements and nothing else touched. |
| `HuffmanHeap.PqDownHeap` | busybox/archival/gzip.c:1011-1033 | The loop computes that sinking. |
| `HuffmanOptimal.NoCheaper` | busybox/archival/gzip.c:1251-1272 | No lengths with a Kraft sum of at most one, over the nodes in the heap, cost less than the frequencies of the fathers still to be made. |
| `HuffmanOptimal.TreeIsCheapest` | busybox/archival/gzip.c:1251-1272 | The depths in the finished tree cost no more than any code of any lengths. |
| `HuffmanDepth.NoDeeper` | busybox/archival/gzip.c:1011-1033 | Because ties between frequencies go to the lower subtree, no cheapest code has its longest word shorter than the tree is deep. |
| `HuffmanDepth.FinalGrown` | busybox/archival/gzip.c:1251-1272 | A tree of depth d takes frequencies that add up to at least the Fibonacci number d + 2; so neither the 16-bit frequencies nor the 8-bit depths wrap around below 2^16. |
| `OptimalCode.DepthsOptimal` | busybox/archival/gzip.c:1177-1186 | The depths are a code for the symbols that occur and no code, however long its words, needs fewer bits, forced codes included. |
| `OptimalCode.FirstPassSettles` | busybox/archival/gzip.c:1064-1093 | If no leaf is deeper than max_length the first pass finds no overflow and sets every symbol's length to its depth. |
| `OptimalCode.TreeIsOptimal` | busybox/archival/gzip.c:1177-1186 | The lengths are optimal exactly if some optimal code keeps the limit, and always below a Fibonacci number of occurrences. |
| `CodeTooLong.SevenBitsTooFew` | busybox/archival/gzip.c:1177-1186 | For nine symbols with frequencies 1, 1, 2, 4 and so on up to 128 every optimal code has a word of eight bits. |
| `CodeTooLong.NotOptimal` | busybox/archival/gzip.c:1177-1186 | So the lengths that build_tree gives them in the code length tree are not optimal. |
| `OptimalCode.LeastCost` | busybox/archival/gzip.c:1087-1090 | Among all decodable codes within 15 bits an optimal code has the least price, extra bits included. |
| `CanonicalCode.GenCodes` | busybox/archival/gzip.c:1142-1175 | Every symbol with a length gets its canonical code of section 3.2.2 of RFC 1951, bit-reversed, and it fits its length; other entries stay. |
| `CanonicalCode.BiReverse` | busybox/archival/gzip.c:455-465 | The low bits of the result are the bits of the code in reverse. |
| `CanonicalCode.PrefixFree` | busybox/archival/gzip.c:1142-1175 | No code is the beginning of another. |
| `CanonicalCode.DecodeUnique` | busybox/archival/gzip.c:1142-1175 | Wherever a symbol's code stands in a stream, the decoder finds that symbol and no other. |
| `TreeHeader.ScanTree` | busybox/archival/gzip.c:1292-1338 | The frequencies counted are those of the items of the run-length coding, and only the guard entry changes. |
| `TreeHeader.SendTree` | busybox/archival/gzip.c:1345-1396 | The bits sent are those of the same items. |
| `CodeLengthRuns.TwoTreesExpand` | busybox/archival/gzip.c:1292-1396 | Expanding the items of both trees by section 3.2.7 of RFC 1951 restores both length arrays, and every repeat count fits its field. |
| `BlockTrees.BuildBlTree` | busybox/archival/gzip.c:1403-1430 | The code-length tree covers all items, opt_len grows by the bits of the whole header, and the index returned is that of the last length that is not 0. |
| `BlockTrees.SendAllTrees` | busybox/archival/gzip.c:1438-1460 | The bits sent are the header that HeaderBack reads. |
| `InflateExamples.Rfc1951Order` | busybox/archival/gzip.c:772-773 | The order of the code length code lengths is 16, 17, 18, 0, 8, 7, 9, 6, 10, 5, 11, 4, 12, 3, 13, 2, 14, 1, 15. |
| `InflateExamples.DynamicExample` | busybox/archival/gzip.c:1438-1460 | A dynamic block written out bit by bit, with all three repeat codes in its header, is decoded to its ten bytes. |
| `InflateExamples.FixedExample` | busybox/archival/gzip.c:1634-1637 | So is a static block of three given bytes, |
| `InflateExamples.StoredExample` | busybox/archival/gzip.c:1619-1632 | and a stored one of six. |
| `BitOutput.BitWriter.SendBits` | busybox/archival/gzip.c:427-447 | The field is appended least significant bit first, through a 16-bit buffer and the output buffer. |
| `BitOutput.BitWriter.BiWindup` | busybox/archival/gzip.c:471-483 | Zero bits are appended up to a byte boundary. |
| `BitOutput.BitWriter.CopyBlock` | busybox/archival/gzip.c:490-508 | Padding, the length and its complement if asked for, and the bytes are appended. |
| `LzoOptimize.OptimizeBlock` | busybox/archival/lzop.c:78-328 | On every well-formed stream the buffer is rewritten in place to one of the same length that decodes to the same bytes and ends at the same place; it is the result of a pass in which at every match the rewrite whose conditions hold is made, and none where they do not; the output buffer holds those bytes; the status is OK exactly if the whole input was consumed. |
| `LzoOptimize.Optimizer.Rewrite` | busybox/archival/lzop.c:149-298 | After a match, optimizer and decoder stand at the same point with the same output, and the pass goes on by exactly the rewrite that the match, the literals before it and the byte behind it call for, or by none. |
| `LzoPass.ExampleMerged` | busybox/archival/lzop.c:213-227 | Every pass over a given stream of four literals, a match of three and four literals leaves a given stream of eleven literals. |
| `LzoRewrites.AppendPoint` | busybox/archival/lzop.c:159-167 | Turning a short match into trailing literals keeps the decoder's run. |
| `LzoRewrites.InsertPoint` | busybox/archival/lzop.c:170-191 | Turning a match between literals into one literal run keeps it. |
| `LzoRewrites.ExtendPoint` | busybox/archival/lzop.c:213-227 | Joining two literal runs over a match keeps it. |
| `LzoOptimize.Optimizer.Copy3` | busybox/archival/lzop.c:56-70 | The three bytes copied are those of the match, also at offsets 1 and 2, where it overlaps itself. |
| `Adler.Adler32` | busybox/archival/lzop.c:439-466 | Started from 1 or any earlier result, it equals the checksum reduced modulo 65521 after every byte. |
| `Adler.ChecksumConcat` | busybox/archival/lzop.c:439-466 | Hashing x and then y is hashing their concatenation. |
| `Adler.TopFits` | busybox/archival/lzop.c:444-446 | No sum overflows 32 bits within 5552 bytes, and 5552 is the largest such number. |
| `Adler.LargestPrime` | busybox/archival/lzop.c:443-443 | 65521 is the largest prime below 65536. |
| `Adler.Wikipedia` | busybox/archival/lzop.c:439-466 | The checksum of "Wikipedia" from 1 is 0x11E60398. |
| `Probing.ProbesCover` | busybox/archival/dpkg.c:146-167 | In a table of prime size every probe comes to every slot within that many steps. |
| `NameTable.TablesCovered` | busybox/archival/dpkg.c:49-77 | So it is at the three table sizes in use, which are primes. |
| `NameTable.Search` | busybox/archival/dpkg.c:172-188 | While a slot is free, or an entry that fits is stored, the search ends within p steps at an entry that fits or a free slot, with entries that do not fit before it. |
| `NameTable.SearchFinds` | busybox/archival/dpkg.c:317-338 | If a fitting entry is stored where its key leads, the search does not end at a free slot. |
| `NameTable.Names.Intern` | busybox/archival/dpkg.c:150-167 | A string gets the index it has or a free slot, and every string stays stored once. |
| `NameTable.SameIndexSameString` | busybox/archival/dpkg.c:150-167 | Over a whole run of interning, two calls return the same index exactly if they were given the same string. |
| `VersionOrder.ComparePart` | busybox/archival/dpkg.c:201-242 | The sign of the result is that of the lexicographic order on keys, in which digit runs count as numbers of any size; the scan stays inside both strings. |
| `VersionOrder.VersionCompare` | busybox/archival/dpkg.c:244-295 | The sign of the result is that of the order by epoch, upstream version and revision. |
| `VersionOrder.OrderTransitive` | busybox/archival/dpkg.c:244-295 | The order of versions is transitive, strictly so if one step is strict. |
| `VersionOrder.OrderReverse` | busybox/archival/dpkg.c:244-295 | Exchanging the versions reverses the result. |
| `VersionOrder.TildeFirst` | busybox/archival/dpkg.c:190-199 | A version followed by "~" and anything sorts before the version alone. |
| `VersionOrder.TextOrder` | busybox/archival/dpkg.c:190-199 | Of two different characters other than digits, behind the same text, "~" comes first, then the letters, then all others, each class by its bytes; the first difference decides whatever follows. |
| `VersionOrder.EndFirst` | busybox/archival/dpkg.c:201-242 | The end of a version comes before every such character but "~". |
| `VersionOrder.DigitFirst` | busybox/archival/dpkg.c:201-242 | A digit, too, comes before every such character but "~". |
| `VersionOrder.NumberOrder` | busybox/archival/dpkg.c:201-242 | Digit runs are compared as numbers of any size; equal ones leave it to what follows. |
| `VersionOrder.SplitBack` | busybox/archival/dpkg.c:244-295 | A version written with or without an epoch and a revision is split into what it was written from. |
| `Dependencies.FindPackage` | busybox/archival/dpkg.c:317-338 | A matching package is returned if one is stored, otherwise a free slot. |
| `Dependencies.OperatorLaws` | busybox/archival/dpkg.c:297-315 | Exactly one of less, equal and more holds, the other two operators are made of these, and exchanging the versions exchanges less and more; no operator matches without one. |
| `Dependencies.LessTransitive` | busybox/archival/dpkg.c:297-315 | Less is transitive. |
| `Dependencies.TildeIsLess` | busybox/archival/dpkg.c:297-315 | A version followed by "~" and anything is less than it. |
| `Dependencies.LargerEpochIsMore` | busybox/archival/dpkg.c:297-315 | A version with the larger epoch is more. |
| `Dependencies.RevisionLast` | busybox/archival/dpkg.c:297-315 | Without epochs, one is less than another exactly if its upstream version sorts first, or sorts the same and its revision sorts first. |
| `Dependencies.FindStatus` | busybox/archival/dpkg.c:172-188 | The status of the name is returned if there is one, otherwise a free slot. |
| `Dependencies.StatusWords` | busybox/archival/dpkg.c:653-673 | The words of a status are the three that stand in it, whatever spaces are between them. |
| `Dependencies.SatisfiesDependency` | busybox/archival/dpkg.c:931-946 | Whether the status of the package, or what is wanted of it, satisfies a dependency of this kind. |
| `Dependencies.EdgeSatisfied` | busybox/archival/dpkg.c:1081-1115 | An edge is satisfied exactly if a version-matching package or a provider is available for it. |
| `Dependencies.CheckEdges` | busybox/archival/dpkg.c:1064-1144 | The walk with its counter over roots and alternatives accepts exactly if every dependency, alone or in an OR-group, has an alternative that is satisfied. |
| `Dependencies.CheckDependencies` | busybox/archival/dpkg.c:1033-1145 | The phase accepts exactly if that holds of every package wanted as "install". |
| `DependencyText.Node.AddSplitDependencies` | busybox/archival/dpkg.c:390-480 | The edges appended are the encoding of what the line says, for every line; an illegal operator, a missing one and an empty field are told apart. |
| `DependencyText.UnsetOperatorExample` | busybox/archival/dpkg.c:434-452 | "a (1)" leaves the operator of its edge unset. |
| `DependencyText.UnsetExactly` | busybox/archival/dpkg.c:426-447 | The operator stays unset if and only if there is a "(" and no operator character behind the run of blanks and "(" that the first one starts. |
| `DependencyText.IllegalExactly` | busybox/archival/dpkg.c:436-451 | The program stops at an illegal operator if and only if the run of operator characters there is not empty and is none of =, <, <<, <=, >, >> and >=. |
| `DependencyText.OperatorTable` | busybox/archival/dpkg.c:436-451 | Each operator is read from exactly its one or two texts; a single < or > is the strict one. |
| `DependencyFormat.LineBack` | busybox/archival/dpkg.c:390-480 | A well-formed line, with any number of blanks in any gap, is read as the groups and alternatives it was written from. |
| `DependencyFormat.ReadControl` | busybox/archival/dpkg.c:612-635 | All dependency fields of a package, once split, become the edges of its node. |
| `DependencyFormat.CheckControls` | busybox/archival/dpkg.c:1033-1145 | Over packages whose edges were read from well-formed fields, the dependency phase accepts exactly if for every package wanted as "install" each comma-separated group of Depends and Pre-Depends has a satisfied alternative. |
| `Md5.HashChunks` | mediacheck/md5.c:54-156 | Any sequence of updates followed by the final step gives the padded-block fold over the concatenation. |
| `Md5.Context.Update` | mediacheck/md5.c:69-111 | The context stands for the bytes fed before, followed by the new ones. |
| `Md5.Context.Final` | mediacheck/md5.c:117-156 | The digest is that of all bytes fed, padding and length included. |
| `Md5.CountStep` | mediacheck/md5.c:73-78 | The two words count eight times the bytes modulo 2^64. |
| `Md5.InitialBytes` | mediacheck/md5.c:54-63 | The initial words are the bytes that section 3.3 of RFC 1321 gives. |
| `Md5.PaddingLaw` | mediacheck/md5.c:117-147 | Behind the data come 0x80, zero bytes and the bit count modulo 2^64 in eight bytes, low byte first, up to the first multiple of 64. |
| `IsoSum.Image.Implant` | mediacheck/implantisomd5.c:109-175 | The note is written exactly if there is a primary volume descriptor whose application area is blank, and nothing else changes. |
| `IsoSum.Image.HashRegion` | mediacheck/implantisomd5.c:131-154 | The digest is that of the region's bytes, or of the whole file where the 32-bit count cannot reach the region's end. |
| `IsoSum.RegionSize` | mediacheck/implantisomd5.c:61-63 | The region is the volume space size at byte 84 of the descriptor, in sectors, without the last 150. |
| `IsoSum.NoteAt` | mediacheck/implantisomd5.c:166-175 | The note fills the 512 bytes from byte 883 of the descriptor. |
| `IsoSum.NoteText` | mediacheck/implantisomd5.c:166-169 | The note is a title, the sum with a zero byte, a space, a sentence given word for word, and spaces. |
| `IsoSum.HexDigits` | mediacheck/implantisomd5.c:156-161 | The digits are 0 to 9 and a to f. |
| `IsoSum.Check` | mediacheck/checkisomd5.c:71-154 | No sum, match, mismatch and the negative blanking length are told apart. |
| `IsoSum.ImplantChecks` | mediacheck/checkisomd5.c:71-154 | Implanting and then checking finds a match although the two hash in chunks of different size, if the blanking reaches behind the note and the region is below 2^32 bytes or covers the file. |
| `IsoSum.ImplantChecksAt16` | mediacheck/checkisomd5.c:71-154 | So it is for every descriptor at sector 16 with a region below 2^32 bytes. |
| `IsoSum.HashesAgreeExactly` | mediacheck/checkisomd5.c:100-134 | The checker of an implanted image hashes the bytes that the implanter hashed if and only if that condition holds. |
| `IsoSum.OverrunExactly` | mediacheck/checkisomd5.c:110-115 | The blanking length is negative exactly if less than twice the descriptor's distance into its chunk was read. |
| `IsoSum.ImplantOverrunsExactly` | mediacheck/checkisomd5.c:110-115 | After implanting it is negative under the same condition. |
| `IsoSum.LateImageOverruns` | mediacheck/checkisomd5.c:110-115 | A concrete image, its descriptor at sector 24, is such a case. |
| `IsoSum.LargeImageDiffers` | mediacheck/implantisomd5.c:79-152 | On a concrete image with a region of 2^32 bytes the implanter hashes the whole file and the checker does not. |
| `IsoSum.ImplantOnce` | mediacheck/implantisomd5.c:118-128 | An image that has been implanted is refused the next time. |
| `StreamVolumes.Cut` | cutstream/cutstream.c:147-190 | If the volumes behind the first hold something, or the stream does not fill the first, the loop ends; the volumes are those of the specification, the volume number rises once per cut, and the variables of the loop go through the turns of EndsExactly. |
| `StreamVolumes.EndsExactly` | cutstream/cutstream.c:147-190 | The loop ends if and only if maxcdsize is not 0 or the stream is shorter than the first capacity. |
| `StreamVolumes.EmptyVolume` | cutstream/cutstream.c:147-190 | With both at 0 a turn changes nothing but the volume number. |
| `StreamVolumes.VolumeSizes` | cutstream/cutstream.c:147-190 | Every cut volume has exactly its capacity, the last is shorter. |
| `StreamVolumes.VolumesConcat` | cutstream/cutstream.c:147-190 | The volumes joined are the stream. |
| `StreamVolumes.Paste` | pastestream-0.3/pastestream.c:35-76 | The output is the volumes up to the first one that says no more are to come, in order. |
| `StreamVolumes.CutAndPaste` | pastestream-0.3/pastestream.c:35-100 | Cutting a stream and pasting its volumes gives the stream, for all capacities for which cutting ends. |

## Findings

What the proofs show where the code and what it says of itself part ways.

- `longest_match` asserts `strstart <= WINDOW_SIZE - MIN_LOOKAHEAD` (busybox/archival/gzip.c:608). `LookaheadSuffices` shows when that holds, `LateSearch` an input on which it fails: near the end of the input, where `fill_window` cannot add any more. The comparison can then look at bytes past the 2*WSIZE that are allocated. The model gives the window cells of unspecified contents there; decoding is right whatever they hold, though which match is taken may depend on them.
- `build_tree` says it sets "the optimal bit length" (busybox/archival/gzip.c:1182). It does exactly if an optimal code keeps max_length (`OptimalWhereAttainable` in the contract of `BuildTree`); `SevenBitsTooFew` and `NotOptimal` have frequencies for the code length tree for which it does not.
- `build_tree` says of a forced code "new is 0 or 1" (busybox/archival/gzip.c:1238). It can be 2, if symbol 1 is the only one used. Symbol 2 has no extra bits either, so the totals stay right (`ForcedIsFresh`, `TreeDesc.Wf`).
- `opt_len` passes through -1 while a code is forced beside a lone symbol, before `gen_bitlen` adds its bit back (`OneForced` and the contract of `ForceCodes`); it is a `ulg` in the source, so this relies on unsigned arithmetic going round.
- `match_start` becomes negative when the window slides past it (busybox/archival/gzip.c:539). The distance computed from it afterwards is right all the same.
- `checkmd5sum` blanks a negative length when the descriptor lies in the second half of the chunk read (mediacheck/checkisomd5.c:110-115); `OverrunExactly` has the exact condition, `LateImageOverruns` an image. The descriptor at sector 16, which ECMA-119 prescribes for the first volume descriptor, is always early enough (`Sector16`).
- `implantisomd5` counts in an `unsigned int` (mediacheck/implantisomd5.c:79): for a region of 2^32 bytes or more that ends before the file does, it hashes the whole file and the checker does not (`HashesAgreeExactly`; `LargeImageDiffers` has an image).
- `add_split_dependencies` leaves `edge->operator` unset when a version comes without an operator (busybox/archival/dpkg.c:437-452), whereas an illegal operator ends the program. `UnsetExactly` and `IllegalExactly` say for which texts, `UnsetOperatorExample` has one.
- `cutstream` cuts empty volumes for ever if maxcdsize is 0 and the stream holds at least CAPACITY Kbytes (`EmptyVolume`), and otherwise ends (`EndsExactly`). A CAPACITY of 0 alone gives one empty volume.
- `MD5_Final` means to clear the context but clears only as many bytes as a pointer has (mediacheck/md5.c:155); the digest has been copied by then.

## Left out

- gzip: the command line, the time stamp of the input and file handling. `updcrc` is in a library that is not part of the model; the check word is a function parameter of `Zip`.
- gzip: widths of counters that cannot be reached. Leaf frequencies are natural numbers; a father's frequency and depth are cut to 16 and 8 bits as in the source.
- gzip: `head` and `prev` are two arrays here; in the source they are the two halves of one.
- gzip: `bi_init` and the clearing of the globals in `pack_gzip`, which are the constructors here.
- TreeBuilding.TreeBuilder.BuildTree: says nothing of optimality for frequencies that add up to 2^16 or more, which a buffer of 8192 tokens cannot hold, and not how far from optimal the lengths are where none within the limit is optimal.
- BlockOptimum.LeastData: compares the data of a block, and `BuildHeader` its header; that the two together are the shortest possible is not claimed.
- lzop: the LZO compressors and the safe decompressor, the file format, and streams that are not well-formed, on which `lzo1x_optimize` reads without bounds.
- dpkg: unpacking archives, maintainer scripts, removing files, writing the status file, the conflicts phase of `check_deps`.
- DependencyFormat.ReadControl: starts from the fields; `read_package_field`, which splits the control buffer, is not modelled.
- dpkg: `Dependencies` names packages by strings where the program uses their indices in the name table; `SameIndexSameString` is why that is the same.
- VersionOrder.VersionCompare: epochs are natural numbers, the source reads them with `atoi` into an `unsigned`; the two agree for epochs that fit an `int`.
- NameTable.Search: the hash takes bytes as unsigned and adds modulo 2^64; `make_hash` works on `char`, which may be signed, and shifts an `int`. Where a search ends does depend on the hash, what is proved of it does not.
- NameTable.Names.Intern: asks for a free slot or a stored string; the source loops for ever on a full table.
- IsoSum.Check: short reads, images that end inside a sector, the progress display and the `-f` option of the implanter are not modelled.
- Md5.HashChunks: the block transform is a parameter, so MD5's own rounds are not part of the model; `byteReverse` is the identity of a little-endian machine.
- StreamVolumes.Cut: one input stream; environment variables, calls of `system`, the printed totals, capacities beyond `int` and failing writes are left out.
- mediacheck/mediacheck.c (the same check behind a user interface) and the other busybox applets.
