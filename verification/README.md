# Verified models of allonet's codecs, synchronisation and asset handling

A Dafny model of the parts of allonet where several pieces of code have to agree: the JPEG entropy coder behind the
`mjpeg` video format, the synchronisation of world states, and the storage, transfer and naming of assets, together with
the entity graph. Code that works in place is modelled as methods on arrays and classes, each proved against a
specification; what the code is for is then proved about the specifications.

`dafny verify dfyconfig.toml` verifies the whole project.

**JPEG.** allonet encodes video with tiny_jpeg and decodes it with jpgd (`src/media/video/mjpeg.cpp:35` and `:45`), two
unrelated implementations. `EntropyRoundTrip` puts the whole path together, from quantised coefficients to samples: code
tables (`Canonical`, `CodeTrees`, `HuffTables`, `TreeRoom`, `StandardTables`), bits (`Bits`, `BitWriter`, `BitReader`,
inverse to each other: `BitRoundTrip`), the default tables (`DefaultSymbols`), symbols (`HuffDecoder`, `Coefficients`),
blocks (`BlockEncoder`, `BlockDecoder`), units (`Scan`), the pruned inverse DCT (`Idct`) and how close it comes to the
exact one (`DctAccuracy`). jpge's table optimiser is next to it: `PrefixCodes` (optimal prefix codes), `TwoQueues` and
`MinimumRedundancy` (the in-place algorithm), `LengthLimiter`, `RadixSort` and `OptimizeTable`.

**Synchronisation.** `MergePatches` are the patches, `StateHistory` the ring of states and its delta cache, `Sync` and
`SyncInOrder` the protocol as a step system with a ring of any length, `Acknowledgements` what the client's
acknowledgements do to it, `SyncServer` the server's tick, `StateDiff` and `EntityMirror` the client's differences and
its list of entities.

**Assets and entities.** `AssetRanges` and `AssetFetch` are the store and the transfer in chunks, `Relay` the server's table
of wanted assets, `Sha256` the hash that names assets, with the origin of its constants (`Sha256Constants`) and a
published example (`Sha256Example`), `EntityGraph` the adding and removing of entities.

## What came out

- Every decoded sample is within 0.7 and a 16384th of the sum of the magnitudes of its block's coefficients of the exact
  inverse cosine transform (`DctAccuracy.SamplesAccurate`), whichever of the pruned forms computes it.
- The decoder accepts a proper Huffman table if and only if its tree has room for the proper prefixes of the words
  (`HuffTables.Tables.MakeHuffTable`, `TreeRoom.AcceptedIfRoom`); not every proper table passes
  (`StandardTables.ProperButRefused`), the default ones do.
- After the end of the file the decoder's padding alternates between 0xFF and 0xD9; the comment at
  `lib/richgel9999-jpegcompressor/jpgd.cpp:426` speaks of 0xFF only.
- `src/client/client.c:57-67` would reset the acknowledgement after a delta that cannot be merged, but is never reached:
  `allo_delta_apply` returns before it calls the handler (`src/delta.c:113-122`). A rejected delta changes nothing.
- The protocol does not need the reset as long as the client acknowledges what it has applied: in order no delta is
  rejected (`SyncInOrder.SyncNeverStalls`), and out of order an acknowledgement of the latest revision is enough
  (`Sync.Recovers`). But the client reads its revision as an int (`src/client/client.c:69`), and from 2147483648 on
  acknowledges 2147483647 for good (`EntityMirror.FollowRun`). If it has missed that revision, deltas are rejected until
  the server's ring has dropped it (`Acknowledgements.Stalls`, `Acknowledgements.OwnAckNext`); from then on the server
  sends nothing but full states.
- The total size of an asset is read as an int as well (`src/asset.c:122`): a larger asset arrives cut off after 2147483647
  bytes, and counts as complete (`AssetFetch.Fetch`).
- An asset of no bytes is reported as not available by a provider that has it in its store (`AssetFetch.FetchEmpty`). If a
  provider's own callback sends an empty chunk, the asset becomes complete, but nobody is told (`AssetFetch.EmptyChunk`).
- When the peer that the server takes an asset from is lost, the entry goes on waiting for it, and refuses the data of all
  others (`Relay.LostSource`, `Relay.WaitsForLostSource`).
- For 255 and more symbols a byte can be too small for the number of words of one length, and the optimised table then
  lists too few (`OptimizeTable.WideBits`, `OptimizeTable.TooManyAlike`).
- A peer that asks twice for an asset and is then lost stays a recipient (`Relay.LostStillWaits` says exactly when).
- The only client's request for an asset makes an entry that no peer can fill (`Relay.BecomesUnfillable`); it goes with the
  next sweep (`Relay.SweptHaveSources`).
- Reparenting deletes the first member `relationships` in any spelling but the parent is read from the first in one
  spelling: a child with another spelling before it keeps the parent that is gone (`EntityGraph.OtherSpellingFirst`), and a
  child that was added with relationships of its own gets the parent it was added under
  (`EntityGraph.SecondRelationships`). `EntityGraph.State.RemoveEntityId` says exactly when all parents stay resolved.

## Model

| member | source | states |
|---|---|---|
| `EntropyRoundTrip.RoundTrip` | lib/tinyjpeg/tiny_jpeg.h:1089-1162 | For every sequence of 8x8 Y/Cb/Cr units whose DC differences have category at most 11 and AC values category at most 10, all Huffman tables that list the symbols needed and all quantisers: the decoder refuses the tables exactly when one of them has more proper prefixes than its tree has cells for; otherwise it decodes the whole stream, and unit by unit the samples are the inverse transform of the encoded coefficients times their quantisers: integer sums over rows and then columns, each rounded to the nearest, moved up by 128 and saturated |
| `EntropyRoundTrip.BlockAccurate` | lib/richgel9999-jpegcompressor/jpgd.cpp:86-100 | Every sample so decoded differs by at most 0.7 and the sum of the magnitudes of the block’s restored coefficients divided by 16384 from the exact inverse cosine transform of section A.3.3 of ITU-T T.81, moved up and saturated |
| `EntropyRoundTrip.EncodeScan` | lib/tinyjpeg/tiny_jpeg.h:1089-1153 | The bits written are those of all blocks in order, each component predicted from its own last DC value |
| `EntropyRoundTrip.Encode` | lib/tinyjpeg/tiny_jpeg.h:1155-1162 | The file from the scan on is the stuffed form of bytes that begin with the bits of the scan, and the end marker |
| `EntropyRoundTrip.BothTables` | lib/tinyjpeg/tiny_jpeg.h:902-941 | From one table of the file, encoder and decoder get the same words for the same symbols, unless the decoder refuses it, exactly where its tree is too small |
| `EntropyRoundTrip.DecodeRows` | lib/richgel9999-jpegcompressor/jpgd.cpp:1480-1592 | Row after row, the samples are the transforms of the restored blocks, with DC prediction carried over |
| `EntropyRoundTrip.DecodeStream` | lib/richgel9999-jpegcompressor/jpgd.cpp:1468-1475 | Decoding a stuffed scan from a freshly primed register succeeds and gives the samples of every block |
| `StandardTables.DefaultRoundTrip` | lib/tinyjpeg/tiny_jpeg.h:310-366 | The video path, with the scalar transform: with the tables that tiny_jpeg writes, for every sequence of units in the range of the baseline process and all quantisers, decoding the encoded file never fails and gives these samples |
| `StandardTables.DefaultAccepted` | lib/tinyjpeg/tiny_jpeg.h:310-366 | The four default length lists make proper codes (12 and 162 words), and the decoder has room for them |
| `StandardTables.DcDefault` | lib/tinyjpeg/tiny_jpeg.h:310-330 | The default DC tables list every category up to 11 once, and are accepted |
| `StandardTables.AcDefault` | lib/tinyjpeg/tiny_jpeg.h:332-366 | The default AC tables list every run with every category up to 10, end of block and sixteen zeros, and are accepted |
| `DefaultSymbols.LumaListing` | lib/tinyjpeg/tiny_jpeg.h:336-349 | Every symbol of the luma list is one that can occur, at the place an inverse table has for it |
| `DefaultSymbols.ChromaListing` | lib/tinyjpeg/tiny_jpeg.h:355-368 | The same for chroma |
| `DefaultSymbols.ListedOnce` | lib/tinyjpeg/tiny_jpeg.h:336-368 | A list whose symbols all stand at their places has every symbol that can occur exactly once |
| `StandardTables.ProperButRefused` | lib/richgel9999-jpegcompressor/jpgd.cpp:2402-2405 | One word of 15 bits and 255 of 16 bits: a proper table that the decoder refuses |
| `BlockEncoder.EncodeBlock` | lib/tinyjpeg/tiny_jpeg.h:826-884 | A block appends exactly its DC and AC code to the bits written, for every block in range, and leaves the DC value as the next prediction |
| `BlockEncoder.EncodeDc` | lib/tinyjpeg/tiny_jpeg.h:828-839 | The DC difference is written as its category word and amplitude |
| `BlockEncoder.EncodeAc` | lib/tinyjpeg/tiny_jpeg.h:841-882 | The loop with its zero counter writes what the recursive run-length code of the coefficients says: 16-zero symbols, run and size, and an end-of-block unless the last coefficient is coded |
| `BlockEncoder.LastNonZero` | lib/tinyjpeg/tiny_jpeg.h:843-850 | All coefficients after the one found are zero, and it is not, unless it is the first |
| `BlockEncoder.GetCodeLengths` | lib/tinyjpeg/tiny_jpeg.h:541-551 | The sizes are those that the counts say, in order, ended by a zero |
| `BlockEncoder.GetCodes` | lib/tinyjpeg/tiny_jpeg.h:554-572 | The 16-bit counter that wraps gives the canonical code of every word |
| `BlockEncoder.GetExtended` | lib/tinyjpeg/tiny_jpeg.h:574-587 | Every symbol has the size and code of its place; all others keep size zero |
| `BlockEncoder.HuffExpand` | lib/tinyjpeg/tiny_jpeg.h:902-941 | The book of symbols holds exactly the canonical words of the table |
| `Coefficients.VariableLengthInt` | lib/tinyjpeg/tiny_jpeg.h:593-605 | Number of bits and truncated amplitude, also for negative values |
| `Coefficients.ExtendIs` | lib/richgel9999-jpegcompressor/jpgd.cpp:619-623 | The two 16-entry tables are the extension of section F.2.2.1 of ITU-T T.81 |
| `Coefficients.ExtendInverts` | lib/richgel9999-jpegcompressor/jpgd.cpp:619-623 | The decoder’s extension undoes the encoder’s category and amplitude for every nonzero value |
| `Coefficients.ExtendOnto` | lib/richgel9999-jpegcompressor/jpgd.cpp:619-623 | And the encoder’s undoes the decoder’s: every amplitude of a category stands for one value of it |
| `Coefficients.ZigZagInverse` | lib/tinyjpeg/tiny_jpeg.h:376-386 | The zig-zag tables of the two libraries are inverse permutations of each other |
| `Coefficients.ZigZagWalk` | lib/richgel9999-jpegcompressor/jpgd.cpp:65 | The order is that of figure 5 of ITU-T T.81: along the diagonals to and fro, turning at the edges |
| `BitRoundTrip.WriteThenRead` | lib/tinyjpeg/tiny_jpeg.h:608-638 | Writer and reader are inverse: for all numbers written with 1 to 16 bits each, reading as many bits from the stuffed and padded file gives the numbers back, whatever the register held before |
| `BitWriter.Writer.WriteBits` | lib/tinyjpeg/tiny_jpeg.h:608-638 | Appends exactly these bits to what is written; full bytes leave the register, with a zero after 0xFF |
| `BitWriter.Writer.WriteByte` | lib/tinyjpeg/tiny_jpeg.h:624-637 | The byte out of the register and the bits left in it are together what was written |
| `BitWriter.Writer.Finish` | lib/tinyjpeg/tiny_jpeg.h:1155-1162 | The file is the stuffed bytes and the end marker; the bytes are the bits written and at most seven zero bits |
| `BitWriter.StuffedOctets` | lib/richgel9999-jpegcompressor/jpgd.cpp:427-455 | Reading octets undoes the stuffing, for every data and whatever follows |
| `BitWriter.NoMarkers` | lib/tinyjpeg/tiny_jpeg.h:626-634 | Stuffed data holds no marker: a zero follows every 0xFF |
| `BitWriter.StuffedUpcoming` | lib/richgel9999-jpegcompressor/jpgd.cpp:427-455 | Every prefix of the bits of the data is what an empty register has coming from its stuffed form |
| `BitReader.Reader.GetChar` | lib/richgel9999-jpegcompressor/jpgd.cpp:393-416 | After the end, padding alternates between 0xFF and the end marker’s 0xD9 |
| `BitReader.Reader.StuffChar` | lib/richgel9999-jpegcompressor/jpgd.cpp:419-424 | Puts a byte back in front of what is left |
| `BitReader.Reader.GetOctet` | lib/richgel9999-jpegcompressor/jpgd.cpp:427-455 | The next octet, with stuffing undone and markers not passed |
| `BitReader.AtMarker` | lib/richgel9999-jpegcompressor/jpgd.cpp:427-455 | A marker is never passed: from there on every octet is 0xFF, however many are read |
| `BitReader.AfterEnd` | lib/richgel9999-jpegcompressor/jpgd.cpp:393-455 | After the end of the file the octets are 0xFF and 0xD9 by turns |
| `BitReader.Reader.GetWord` | lib/richgel9999-jpegcompressor/jpgd.cpp:499-510 | The two-byte refill gives the same bits and leaves the same rest as two octets |
| `BitReader.PlainOctets` | lib/richgel9999-jpegcompressor/jpgd.cpp:499-510 | Two bytes other than 0xFF are the next two octets |
| `BitReader.Reader.GetBitsNoMarkers` | lib/richgel9999-jpegcompressor/jpgd.cpp:486-522 | The number read is the next n bits; the 32-bit register, its negative bit counts and its refill lose nothing of what is upcoming |
| `BitReader.Reader.StartScan` | lib/richgel9999-jpegcompressor/jpgd.cpp:1472-1474 | Whatever the register held, after priming the bits of the stream come next |
| `HuffTables.Tables.MakeHuffTable` | lib/richgel9999-jpegcompressor/jpgd.cpp:2274-2434 | For every Huffman table with distinct symbols that meets the Kraft inequality, the look-up tables, code sizes and tree hold exactly its canonical words; it is refused if and only if the words have more proper prefixes than the tree has room for |
| `HuffTables.ExpandCounts` | lib/richgel9999-jpegcompressor/jpgd.cpp:2288-2301 | The sizes are those that the counts say, in order, ended by a zero |
| `HuffTables.AssignCodes` | lib/richgel9999-jpegcompressor/jpgd.cpp:2305-2321 | The codes are the canonical ones |
| `HuffTables.EnterShort` | lib/richgel9999-jpegcompressor/jpgd.cpp:2342-2380 | A short word fills exactly the entries of the bytes that start with it, with its extra bits packed in where they fit |
| `HuffTables.EnterLong` | lib/richgel9999-jpegcompressor/jpgd.cpp:2381-2430 | A long word gets its path in the tree, and all others keep theirs; a refusal means that there are too many prefixes |
| `HuffTables.EnteredNotOverfull` | lib/richgel9999-jpegcompressor/jpgd.cpp:2381-2430 | If all words are entered, there are no more prefixes than the tree has room for |
| `TreeRoom.AcceptedIfRoom` | lib/richgel9999-jpegcompressor/jpgd.cpp:2402-2427 | The decoder accepts a code if and only if its tree has two cells for every proper prefix of 8 bits and more, and how many these are follows from the number of words of each length |
| `TreeRoom.PrefixesAreNodes` | lib/richgel9999-jpegcompressor/jpgd.cpp:2402-2427 | The prefixes of each length are exactly the numbers from the end of the shorter words to the end of the code |
| `Canonical.CodesPrefixFree` | lib/richgel9999-jpegcompressor/jpgd.cpp:2305-2321 | Canonical codes of lengths that meet the Kraft inequality are prefix codes |
| `Canonical.CodeFits` | lib/richgel9999-jpegcompressor/jpgd.cpp:2305-2321 | Every canonical code fits into its length |
| `Canonical.AllOnes` | lib/richgel9999-jpegcompressor/jpge.cpp:266-270 | A word is all ones exactly when the code space ends with it |
| `HuffDecoder.HuffDecode` | lib/richgel9999-jpegcompressor/jpgd.cpp:525-557 | If the upcoming bits start with a word, its symbol is returned and exactly its bits are consumed, through the table or the tree |
| `HuffDecoder.HuffDecodeExtra` | lib/richgel9999-jpegcompressor/jpgd.cpp:560-616 | The same, and the extra bits are those that follow, whether packed into the table, read in one go or read apart |
| `HuffDecoder.PackedSymbol` | lib/richgel9999-jpegcompressor/jpgd.cpp:588-610 | A packed entry stands for the symbol of every word that the byte starts with |
| `BlockDecoder.PlaceSymbol` | lib/richgel9999-jpegcompressor/jpgd.cpp:1519-1573 | On a block with stale coefficients, one symbol does what it does on a cleared block, and fails where that fails |
| `BlockDecoder.DecodeAc` | lib/richgel9999-jpegcompressor/jpgd.cpp:1513-1581 | Whatever the block held before, it then holds what the symbols read put into a block of zeros, and only zeros from the recorded bound on |
| `BlockDecoder.DecodeBlock` | lib/richgel9999-jpegcompressor/jpgd.cpp:1496-1583 | In every case only zeros from the bound on; at the code of a block, exactly its coefficients times their quantisers, and the reader is at what follows |
| `BlockDecoder.FirstSymbol` | lib/richgel9999-jpegcompressor/jpgd.cpp:1514-1574 | The code of a block starts with a symbol that takes the decoder to the next coefficient, or to the end |
| `BlockDecoder.ReadDc` | lib/richgel9999-jpegcompressor/jpgd.cpp:1498-1505 | The DC difference that was encoded |
| `Scan.UnitDecoder.DecodeBlockOf` | lib/richgel9999-jpegcompressor/jpgd.cpp:1490-1583 | In a scan, each block is restored in its place with the tables, quantiser and predictor of its component |
| `Scan.UnitDecoder.DecodeUnit` | lib/richgel9999-jpegcompressor/jpgd.cpp:1489-1586 | All blocks of a unit |
| `Scan.UnitDecoder.TransformUnit` | lib/richgel9999-jpegcompressor/jpgd.cpp:1337-1351 | The samples of all blocks of the unit are their full inverse DCT |
| `Scan.UnitDecoder.DecodeRow` | lib/richgel9999-jpegcompressor/jpgd.cpp:1480-1592 | All units of a row: the reused blocks never leak into the samples of the next unit |
| `Scan.DequantisedIs` | lib/richgel9999-jpegcompressor/jpgd.cpp:1545 | Both zig-zag orders cancel out |
| `Idct.Butterfly` | lib/richgel9999-jpegcompressor/jpgd.cpp:115-155 | The butterfly of 12 multiplications is the matrix product with the DCT basis, over the integers |
| `Idct.TableRows` | lib/richgel9999-jpegcompressor/jpgd.cpp:265-282 | The tables of the pruned transform cover every bound: rows and columns never narrower than for a smaller one, and wide enough for its own coefficient |
| `Idct.Covers` | lib/richgel9999-jpegcompressor/jpgd.cpp:265-282 | An entry covers every coefficient before its bound |
| `Idct.LeftOutZero` | lib/richgel9999-jpegcompressor/jpgd.cpp:316-338 | What the pruned transform leaves out is zero |
| `Idct.InverseDct` | lib/richgel9999-jpegcompressor/jpgd.cpp:284-363 | The transform pruned by the bound gives the samples of the full one, and touches nothing else; they come from integer sums over each row, rounded to the nearest at two extra bits, and then over each column, rounded to the nearest, moved up by 128 and saturated to 0..255 |
| `Idct.FullIsIdct` | lib/richgel9999-jpegcompressor/jpgd.cpp:99-104 | What the full transform computes with shifts and comparisons is that, for every block |
| `DctAccuracy.SamplesAccurate` | lib/richgel9999-jpegcompressor/jpgd.cpp:86-104 | For every block and every sample: the distance to the exact inverse cosine transform of section A.3.3 of ITU-T T.81, moved up and saturated, is at most 0.7 plus the sum of the magnitudes of the coefficients divided by 16384 |
| `DctAccuracy.FactorsClose` | lib/richgel9999-jpegcompressor/jpgd.cpp:86-97 | Every factor that the 12 constants of the butterfly come to is 8192 times the square root of 2 times the cosine it stands for, up to 1.2 |
| `DctAccuracy.ColumnClose` | lib/richgel9999-jpegcompressor/jpgd.cpp:115-155 | How far the errors of the first pass carry through the second |
| `PrefixCodes.PrefixFreeKraft` | lib/richgel9999-jpegcompressor/jpge.cpp:196-217 | Every prefix code meets the Kraft inequality |
| `PrefixCodes.HuffmanIsLeast` | lib/richgel9999-jpegcompressor/jpge.cpp:196-217 | No lengths that meet the Kraft inequality cost less than merging the two smallest weights |
| `PrefixCodes.NoPrefixCodeCheaper` | lib/richgel9999-jpegcompressor/jpge.cpp:196-217 | No prefix code costs less than merging the two smallest weights |
| `TwoQueues.BuildCost` | lib/richgel9999-jpegcompressor/jpge.cpp:200-207 | Taking the smaller heads of two queues merges the two smallest: the internal weights add up to the least cost |
| `MinimumRedundancy.MergePairs` | lib/richgel9999-jpegcompressor/jpge.cpp:200-207 | The first phase leaves the parent of every internal node in the array |
| `MinimumRedundancy.ParentsToDepths` | lib/richgel9999-jpegcompressor/jpge.cpp:208-209 | The second phase leaves the depth of every internal node |
| `MinimumRedundancy.DepthsToLengths` | lib/richgel9999-jpegcompressor/jpge.cpp:210-216 | The third phase leaves the depth of every leaf |
| `MinimumRedundancy.TotalCost` | lib/richgel9999-jpegcompressor/jpge.cpp:196-217 | The weighted length is the sum of the internal weights |
| `MinimumRedundancy.TreeLengths` | lib/richgel9999-jpegcompressor/jpge.cpp:196-217 | Lengths never increase with the weight and fill the code space exactly |
| `MinimumRedundancy.LongestWord` | lib/richgel9999-jpegcompressor/jpge.cpp:253-256 | A word of length L needs a total weight of at least the Fibonacci number of L + 2 |
| `MinimumRedundancy.CalculateMinimumRedundancy` | lib/richgel9999-jpegcompressor/jpge.cpp:196-217 | In place, ascending positive weights with a sum below 2^32 become the shortest code lengths: they never increase with the weight, meet the Kraft sum exactly, and cost no more than any prefix code; the longest is bounded by the Fibonacci numbers |
| `LengthLimiter.Folded` | lib/richgel9999-jpegcompressor/jpge.cpp:224-230 | The longest bucket has more words than the Kraft sum is over |
| `LengthLimiter.ShiftKeeps` | lib/richgel9999-jpegcompressor/jpge.cpp:232-237 | A step keeps the number of words and takes one off the Kraft sum |
| `LengthLimiter.TakeExcess` | lib/richgel9999-jpegcompressor/jpge.cpp:230-238 | The loop: the longest bucket keeps more words than the Kraft sum is over, so that a word can always move |
| `LengthLimiter.EnforceMaxCodeSize` | lib/richgel9999-jpegcompressor/jpge.cpp:220-239 | For at most as many words as the limit can code, with a Kraft sum that is met exactly: terminates with the number of words kept, the code space filled exactly and no length over the limit; nothing changes if none was over it |
| `RadixSort.RadixSortSyms` | lib/richgel9999-jpegcompressor/jpge.cpp:176-193 | The result is a sorted permutation in which equal keys keep their order, also when high passes are skipped |
| `RadixSort.PassStable` | lib/richgel9999-jpegcompressor/jpge.cpp:185-189 | Equal keys keep their order through a pass |
| `RadixSort.PassSorts` | lib/richgel9999-jpegcompressor/jpge.cpp:183-191 | A pass extends the order by one digit |
| `RadixSort.Distribute` | lib/richgel9999-jpegcompressor/jpge.cpp:188-189 | Writing to running offsets gives the buckets one after the other |
| `RadixSort.SkipPass` | lib/richgel9999-jpegcompressor/jpge.cpp:182 | A skipped pass would not have changed the order |
| `RadixSort.SameByKey` | lib/richgel9999-jpegcompressor/jpge.cpp:176-193 | Stability of every key makes it a permutation |
| `OptimizeTable.DummyFirst` | lib/richgel9999-jpegcompressor/jpge.cpp:244-250 | The dummy symbol stays first |
| `OptimizeTable.SizesExpanded` | lib/richgel9999-jpegcompressor/jpge.cpp:272-274 | Expanding the counts of sizes gives the sizes back, the shortest first |
| `OptimizeTable.RoomLeft` | lib/richgel9999-jpegcompressor/jpge.cpp:266-270 | With the dummy’s word gone, no code is all ones |
| `OptimizeTable.HuffBits` | lib/richgel9999-jpegcompressor/jpge.cpp:261-270 | The counts as bytes, less one in the longest bucket that a byte does not count as empty |
| `OptimizeTable.NarrowBits` | lib/richgel9999-jpegcompressor/jpge.cpp:261-270 | If no length has more words than a byte can count, the table has all words but the dummy’s, and none is all ones |
| `OptimizeTable.WideBits` | lib/richgel9999-jpegcompressor/jpge.cpp:261-270 | If a length has more, the table has too few words |
| `OptimizeTable.TooManyAlike` | lib/richgel9999-jpegcompressor/jpge.cpp:261-270 | For 255 symbols that occur once each, the table has too few words |
| `OptimizeTable.OptimizeHuffmanTable` | lib/richgel9999-jpegcompressor/jpge.cpp:242-275 | For counts that add up to less than Fibonacci(35) - 1: every used symbol is listed once, the table has as many words if and only if no length has more than a byte can count, which holds for fewer than 255 symbols; it is then a proper table with shorter codes for more frequent symbols, none all ones; with the dummy the lengths are optimal unless they had to be limited |
| `MergePatches.PatchRoundTrip` | src/delta.c:38-45 | The generated merge patch (RFC 7396, section 2), applied to the old value, gives the new one, for all values without null members |
| `MergePatches.PatchOfNothing` | src/delta.c:134-135 | A patch without nulls, applied to no object, is the patch itself |
| `StateHistory.SetAccepted` | src/delta.c:124-131 | A full state is accepted in whatever ring |
| `StateHistory.MergeAccepted` | src/delta.c:113-135 | A patch is rejected by a ring without the revision it starts from, and gives its state in a ring with it |
| `StateHistory.History.Get` | src/delta.c:10-17 | The slot of a revision modulo the ring’s length |
| `StateHistory.History.Insert` | src/delta.c:19-28 | The ring with the new state in its slot; ascending revisions keep the cache coherent |
| `StateHistory.History.Compute` | src/delta.c:47-88 | Cached or not, the delta is the full state or the patch from the acknowledged revision |
| `StateHistory.History.Apply` | src/delta.c:92-143 | The outcome of applying a delta; a rejected one changes nothing |
| `Sync.KeepsInsert` | src/delta.c:19-28 | After a tick the ring has the most recent states, and loses only the one as old as it has slots |
| `Sync.SentNow` | src/delta.c:51-80 | A tick sends a patch exactly when the acknowledged revision is still in the server’s ring, and the full state otherwise |
| `Sync.AppliedGenuine` | src/delta.c:92-143 | Whatever the client’s ring holds, a delta that was ever sent gives a state of the server, or is rejected |
| `Sync.SafeTick` | src/standalone_server.cpp:727-743 | A tick keeps the invariant |
| `Sync.SafeDeliver` | src/delta.c:92-143 | A delivery of anything ever sent keeps the invariant |
| `Sync.AlwaysSafe` | src/standalone_server.cpp:727-743 | The invariant holds in every run |
| `Sync.SyncSafety` | src/delta.c:92-143 | In every run, under loss, delay, duplication and reordering and any acknowledgement: a state that is accepted equals the server’s state of that revision, no assertion of the client fails, and every filled slot holds the state it claims |
| `Sync.LatestHeld` | src/delta.c:19-28 | In every run the client has the state of its latest revision |
| `Sync.Recovers` | src/delta.c:113-122 | After any run, whatever was lost or reordered: once the client’s latest revision is acknowledged, the delta of the next tick is accepted if it arrives next, and brings the client to the server’s state |
| `Acknowledgements.ServerHolds` | src/delta.c:51-69 | The server’s ring has a revision exactly if it is among the newest, as many as there are slots |
| `Acknowledgements.AckedNext` | src/delta.c:113-122 | After any run and any acknowledgement, the delta of the next tick is rejected exactly if the server’s ring then has the acknowledged revision and the client’s has not; it is the full state if the server’s ring has not |
| `Acknowledgements.OwnAckNext` | src/client/client.c:69-70 | After any run, with what the client itself acknowledges, the next delta is rejected exactly if the client is past revision 2147483647 without having applied it and the server’s ring still has it; once it has not, only full states are sent |
| `Acknowledgements.MissesOne` | src/client/client.c:69-70 | A possible run in which the client misses a given revision and applies the next |
| `Acknowledgements.Stalls` | src/client/client.c:69-70 | A possible run after which the client is at revision 2147483648, acknowledges 2147483647, which it never applied, and the next delta is rejected |
| `JsonInts.ValueInt` | src/client/client.c:69 | The int read from a number: the number itself exactly up to 2147483647 |
| `SyncInOrder.Accepts` | src/delta.c:113-122 | In order, the next delta’s base is still in the client’s ring |
| `SyncInOrder.AlwaysInOrder` | src/standalone_server.cpp:727-743 | The invariant of runs in order, with losses |
| `SyncInOrder.SyncNeverStalls` | src/delta.c:113-122 | In every run with deltas in order, any of them lost, and acknowledgements of revisions that were applied: whichever delta arrives next is accepted and brings the client to the server’s state |
| `SyncServer.Server.HandleIntent` | src/standalone_server.cpp:111-117 | The server makes the protocol’s step of an acknowledgement for this client, and none for the others |
| `SyncServer.Server.BroadcastServerState` | src/standalone_server.cpp:727-743 | Below the rollover, the server makes the protocol’s step of a tick for every client, and sends each of them exactly the delta of that step |
| `StateDiff.PatchOfEntities` | src/delta.c:146-152 | What a patch between two states says of the entities |
| `StateDiff.GeneratedEntities` | src/delta.c:146-152 | A patch between two states has an entry for exactly the entities that differ, and in it for the components that differ |
| `StateDiff.DiffComponent` | src/delta.c:214-235 | A component that differs goes to the list it belongs to, and no other |
| `StateDiff.DiffEntity` | src/delta.c:171-238 | An entity that differs, with its components, goes to the lists it belongs to |
| `StateDiff.MergeDiff` | src/delta.c:146-240 | The new, deleted and updated entities and components listed are exactly the differences between the two states, each once |
| `EntityMirror.Client.ParseStateDiff` | src/client/client.c:38-106 | For every delta that the server may have sent, unless it gives the client’s latest state again: the differences are those from the latest state even if the patch is from an older one, the list mirrors the new state, and the int read from the new revision is acknowledged; a rejected delta changes nothing |
| `EntityMirror.FollowRun` | src/client/client.c:38-106 | In every run of the protocol in which no delta arrives that gives the client’s latest state again: the client’s ring is that of the protocol, its list of entities mirrors its latest state, and it acknowledges that revision if and only if it is at most 2147483647, otherwise 2147483647 |
| `EntityMirror.HandleStateDiff` | src/client/client.c:72-95 | A list with one entry per entity of the old state becomes one for the new state |
| `EntityMirror.RemoveAll` | src/client/client.c:79-84 | Every entity to delete is found |
| `EntityMirror.UpdateAll` | src/client/client.c:86-95 | Every entity of the state is found and gets its components |
| `EntityMirror.FitsApplies` | src/delta.c:113-135 | When a delta from the server is accepted |
| `EntityMirror.SentFits` | src/standalone_server.cpp:727-743 | In every run, what the server has sent is what the client’s method expects |
| `AssetRanges.CanonicalUnique` | src/assetstore.c:183-241 | A sorted list without overlapping or adjacent ranges is determined by its positions |
| `AssetRanges.FindPlace` | src/assetstore.c:194-214 | The binary search ends at the first range that starts after the new one |
| `AssetRanges.RangeList.MergeRange` | src/assetstore.c:183-241 | The list stays canonical, and has exactly the old positions and the new ones |
| `AssetRanges.RangeList.MergeAt` | src/assetstore.c:216-239 | Any number of ranges on the right and at most one on the left are merged |
| `AssetRanges.MergeAll` | src/assetstore.c:183-241 | Writes with the same positions leave the same list, in any order and repetition |
| `AssetRanges.GapsComplement` | src/assetstore.c:56-82 | The gaps are exactly the missing positions up to the total size, but for a last position that alone is missing |
| `AssetRanges.GapsCanonical` | src/assetstore.c:56-82 | The gaps are in order and maximal |
| `AssetRanges.MissingRanges` | src/assetstore.c:56-82 | The gaps in order, up to the limit |
| `AssetFetch.Asset.UpdateState` | src/assetstore.c:243-259 | Complete exactly when the one range is everything; the ranges then go |
| `AssetFetch.Asset.Write` | src/assetstore.c:510-560 | The bytes are stored, all others are kept, the positions are recorded, and the asset is complete when they are everything |
| `AssetFetch.Read` | src/assetstore.c:477-508 | The bytes of the asset from the offset on, as many as asked for or all up to the end of the asset, and the total size |
| `AssetFetch.Serve` | src/client/client.c:185-203 | A client answers from its store with the bytes at the offset, as many as asked for or all up to the end of the asset, or that the chunk is not available, which is exactly when there are none |
| `AssetFetch.HandleData` | src/asset.c:239-259 | A chunk is stored, and the reply asks for the rest or signals that the asset is there |
| `AssetFetch.Fetch` | src/asset.c:239-259 | For every asset of at least one byte and every chunk size: the transfer takes exactly the size divided by the chunk requests, rounded up, signals once, and leaves one range, the complete flag and the bytes of the source, cut off after 2147483647 bytes; so they are all bytes if and only if the asset has no more than that |
| `AssetFetch.FetchEmpty` | src/client/client.c:195-199 | An asset without bytes in the provider’s store is reported as not available |
| `AssetFetch.EmptyChunk` | src/asset.c:247-258 | An empty chunk, as a provider’s own callback may send it, makes an asset without bytes complete, and nothing is signalled |
| `Relay.RunInv` | src/server.c:458-486 | In every run there is at most one entry for an asset, and its potential sources are distinct connected peers other than the first asker |
| `Relay.StepInv` | src/server.c:446-578 | Every step keeps that |
| `Relay.StepBalance` | src/server.c:496-578 | What no longer waits after a step has been answered in it, or went with a lost peer |
| `Relay.RunBalance` | src/server.c:446-578 | In every run each request is still waiting, has been answered exactly once, or went when its peer was lost |
| `Relay.StepDelivers` | src/server.c:192-206 | A step sends the first bytes of an asset to a peer exactly once for each of its requests that waits if the asset is complete, and otherwise not at all |
| `Relay.StepFails` | src/server.c:207-221 | A step tells a peer that an asset is missing exactly once for each of its requests that is still there if the last potential source of the entry fails or is lost, and otherwise not at all |
| `Relay.StepAsks` | src/server.c:470-486 | A step asks a peer for an asset exactly if another one wants it that is not in the table, and then once |
| `Relay.RunTells` | src/server.c:192-221 | In every run, a peer gets an asset as often as requests of it waited when the asset was completed, and is told that it is missing as often as requests of it waited when the last potential source went |
| `Relay.StepListed` | src/server.c:458-578 | An entry appears exactly when its asset is wanted, and goes exactly when the asset is complete or no potential source is left |
| `Relay.StepSources` | src/server.c:470-480 | The potential sources of a new entry are all other clients, and it loses exactly those that fail or are lost |
| `Relay.StepSource` | src/server.c:176-189 | The first peer that sends data becomes the source, and stays it |
| `Relay.SweptBalance` | src/server.c:542-578 | The sweep takes one request of the lost peer out of an entry and answers all others of an entry that goes |
| `Relay.LostStillWaits` | src/server.c:551-560 | A lost peer is still a recipient exactly when it had asked more than once and another source is left |
| `Relay.LingeringPeer` | src/server.c:551-560 | A run with such a peer |
| `Relay.RunConnected` | src/server.c:551-560 | If no peer asks for what it waits for, only connected peers wait, once each |
| `Relay.SweptHaveSources` | src/server.c:571-576 | After a peer is lost every entry has a potential source |
| `Relay.BecomesUnfillable` | src/server.c:470-480 | An entry without a potential source appears exactly when the only client asks for an asset |
| `Relay.LostSource` | src/server.c:176-189 | In any continuation in which it does not connect again, an entry keeps a source that is lost as long as the entry remains, and takes no data from any other peer |
| `Relay.WaitsForLostSource` | src/server.c:551-570 | A possible run after which a recipient waits for an asset from a lost source, although a potential source is connected |
| `Relay.Server.IsWanted` | src/server.c:446-455 | The entry of an asset, if there is one |
| `Relay.Server.Connect` | src/server.c:84-105 | The step of a connection |
| `Relay.Server.RequestMissingAsset` | src/server.c:458-486 | The step of a request: a recipient more, or an entry with all others as potential sources, who are asked |
| `Relay.Server.AssetWrite` | src/server.c:176-189 | Data is taken from the first peer that sends some, and from no other |
| `Relay.Server.NowAvailable` | src/server.c:192-206 | The step of a complete asset: every request for it that waits is answered with its first bytes |
| `Relay.Server.NowUnavailable` | src/server.c:207-221 | The step of a peer that fails |
| `Relay.Server.ForwardWantedAsset` | src/server.c:517-540 | All recipients are served, and the entry goes |
| `Relay.Server.ForwardWantedAssetFailure` | src/server.c:496-515 | All recipients are told, and the entry goes |
| `Relay.Server.RemoveClientFromWanted` | src/server.c:542-578 | While the table shrinks under the index, every entry is gone through once |
| `Relay.Server.LoseConnection` | src/server.c:258-274 | The step of a lost peer |
| `Sha256.DoRound` | src/sha256.c:71-82 | The round of section 6.2.2 of FIPS 180-4, from the shorter forms of Ch and Maj |
| `Sha256.Context.Guts` | src/sha256.c:212-319 | With four pointers into the schedule and 16 times four rounds, the compression of section 6.2.2 on the big-endian words of the block |
| `Sha256.Context.Update` | src/sha256.c:321-394 | For every split of a message the context stands for the whole of it |
| `Sha256.TakeMore` | src/sha256.c:369-389 | Filling the buffer, with or without completing a block |
| `Sha256.PadIs` | src/sha256.c:403-410 | The padding is that of section 5.1.1 |
| `Sha256.SpreadIs` | src/sha256.c:112-121 | The eight length bytes are the number, the highest byte first |
| `Sha256.StoredIs` | src/sha256.c:112-121 | The swapped length lies in memory with its highest byte first |
| `Sha256.Context.Final` | src/sha256.c:396-425 | The bytes are the hash of the padded message, for every message below 2^61 bytes |
| `Sha256.DigestOf` | src/sha256.c:321-425 | Init, any number of updates, and final: the digest of the whole message, which `Sha256Constants` and `Sha256Example` tie to the standard |
| `Sha256.DigestUnique` | src/sha256.c:412-424 | A hash has one digest |
| `Sha256Constants.RoundConstants` | src/sha256.c:84-101 | Each of the 64 round constants is the first 32 bits of the fractional part of the cube root of a prime, which are the first 64 primes in order |
| `Sha256Constants.InitialHash` | src/sha256.c:190-197 | The initial hash is that of the square roots of the first eight |
| `Sha256Constants.SievedIsPrime` | src/sha256.c:84-101 | Below 361 a number is prime exactly if no smaller prime below 19 divides it |
| `Sha256Example.DigestOfLetters` | src/sha256.c:63-82 | The digest of the letters abc is ba7816bf 8f01cfea 414140de 5dae2223 b00361a3 96177a9c b410ff61 f20015ad, as published in appendix B.1 of FIPS 180-2, and no other, through all 64 rounds |
| `EntityGraph.State.GetEntity` | src/state.c:494-507 | The entity of an id, none for the empty one |
| `EntityGraph.State.RemoveEntity` | src/state.c:456-492 | Cascading, exactly the entities whose parent chain reaches the removed one go, cycles or not, and the others keep their order; reparenting, only that one goes, and its children are released |
| `EntityGraph.State.RemoveEntityId` | src/state.c:447-455 | If every parent was there before, every parent is there after a cascade, and after reparenting if and only if every child has no other spelling of the member before its own, and names no second parent behind it that is missing |
| `EntityGraph.CascadeNext` | src/state.c:476-483 | The descendants of the children go one child at a time, and no child goes before its turn |
| `EntityGraph.CascadeEnd` | src/state.c:476-492 | When the last child is done, exactly the descendants have gone |
| `EntityGraph.LeastRemoval` | src/state.c:456-492 | The descendants are the least set whose removal can leave every parent resolved |
| `EntityGraph.ReleasedParent` | src/state.c:484-487 | For every list of members: after deleting the relationships an entity names the parent that comes behind them, or still its old one if another spelling of the name came first |
| `EntityGraph.ReleasedMeans` | src/state.c:484-487 | Deleting takes exactly the first member with that name in any spelling, and nothing if there is none |
| `EntityGraph.ParentMeans` | src/state.c:469-471 | An entity names a parent exactly if its first member of that very name is an object with that string |
| `EntityGraph.FoldedAlike` | src/state.c:426 | Names are the same without case exactly if they differ in nothing but the case of letters |
| `EntityGraph.OtherSpellingFirst` | src/state.c:484-487 | A child with another spelling first, which keeps its parent |
| `EntityGraph.SecondRelationships` | src/state.c:419-424 | A child that was added with relationships of its own, which is released into the second ones |
| `EntityGraph.ResolvesMeans` | src/state.c:456-474 | The parents resolve exactly when every entity’s is in the list |
| `EntityGraph.State.AddFromSpec` | src/state.c:400-445 | The entities of the tree come to the head of the list, with the ids in order. Each belongs to the agent, or to the place without one; the members of its spec come first, unchanged, then relationships if and only if it has a parent, then an identity transform if and only if no member has that name in any spelling |
| `EntityGraph.FilledCompleted` | src/state.c:419-430 | The same of the components of one entity |
| `EntityGraph.AddedRooted` | src/state.c:419-444 | If no descendant brings relationships of its own, every entity of the tree but its root names another one of it as parent |
| `EntityGraph.State.AddThenRemove` | src/state.c:400-492 | Adding a tree with new ids and removing its root with all descendants restores the list if and only if everything that was added descends from the root, and always if no descendant brings relationships of its own |
| `EntityGraph.GrownDown` | src/state.c:400-492 | Among what was added, exactly that descends from the root which does so by the parents added |

## Left out

- ENet, threads, locks, timers, logging, language bindings, media other than mjpeg: input and output, or foreign code.
- cJSON is not part of this model: JSON is a datatype with maps, merge patches follow section 2 of RFC 7396, and values are compared exactly, where cJSON compares numbers within a tolerance. Names are matched without case only where the source does so: for the transform of an added entity, and where an entity is released.
- Revisions up to 2^53 are exact as JSON numbers; `valueint` is taken to be the largest int for larger numbers (cJSON is not part of this model).
- MergePatches.PatchRoundTrip: states have no null members, since a merge patch cannot carry them.
- SyncServer.Server.BroadcastServerState: not for the tick that rolls the revision over (`src/standalone_server.cpp:729-731`), nor for a client that acknowledges the revision that is just being made, as `src/delta.c:41` asserts that there is no patch from a revision to itself. Revisions are not negative.
- EntityMirror.Client.ParseStateDiff: not for a delta that is accepted with a state that is the client’s latest already, for the same assertion; `EntityMirror.FollowRun` is for runs without such deltas.
- EntityMirror: the list of entities is a sequence of values, so that pointers into it from elsewhere are not modelled; the media callback of `src/client/client.c:97` is left out.
- EntropyRoundTrip.RoundTrip: forward DCT, quantisation and colour conversion are floating point and come before the model. Its tables are any that list the symbols that can occur; that the default ones do is `StandardTables.DefaultRoundTrip`.
- Marker parsing, restart markers, `fix_in_buffer`, progressive JPEG, chroma upsampling and the SSE path of `idct` are not part of this model.
- HuffTables.Tables.MakeHuffTable: only for tables with distinct symbols and lengths that meet the Kraft inequality; other tables may be refused earlier or later.
- Idct.InverseDct: over the mathematical integers; the 32-bit products of the original may overflow for coefficients that no encoder writes. The same holds for the DC product at `lib/richgel9999-jpegcompressor/jpgd.cpp:1507`, while its truncation to 16 bits is modelled.
- DctAccuracy.SamplesAccurate: the cosines are any numbers that solve the formula for the double angle, of which there is only one positive choice.
- Scan.UnitDecoder: the coefficients of each block are an array of their own, where the original has one for the unit.
- BitWriter.Writer.WriteBits: the output buffer of `tjei_write` is a sequence without chunks; the or of the new bits is an addition to zero places.
- jpge's `compute_huffman_table` (`lib/richgel9999-jpegcompressor/jpge.cpp:401-432`): its loops are those of `HuffTables.ExpandCounts` and `HuffTables.AssignCodes`.
- OptimizeTable.OptimizeHuffmanTable: for counts that add up to less than Fibonacci(35) - 1, as beyond that a length could be over the 32 that there are counters for; where lengths had to be limited, no claim is made about optimality.
- MinimumRedundancy.CalculateMinimumRedundancy: for weights that add up to less than 2^32, as the sums of the original wrap around beyond that.
- The (int) casts of ranges and sizes above 2147483647 in writes other than those of a transfer, malloc failure, the pruning of the least recently used assets (`src/assetstore.c:283-292`), the conversion of ranges at `src/assetstore.c:174-177`, and the base `_assetstore_write`, which asserts data it never stores.
- AssetFetch.Asset.Write: a write is recorded as one position more than it has bytes, so that two writes one byte apart count as adjacent; for writes out of order the bytes of a complete asset are therefore not claimed.
- AssetFetch.Read: a read from beyond the end, whose length wraps around in the original, is not modelled.
- AssetFetch.Serve: the server’s answer for a chunk that is not there is an entry in the table of wanted assets, as in `Relay`.
- Relay: peers are numbers, messages go to a list in the order of sending. That a complete asset can be read when it is forwarded is taken as given.
- Sha256.Context.Update: the variant that copies byte by byte for all splits (`src/sha256.c:368-390`); `SHA256_FAST_COPY`, the clearing of the stack and a big-endian machine are left out. `SHA256_UNROLL` is 4.
- EntityGraph.State.AddFromSpec: components loose in the object; the branch with a member of that name, which reads an object it has deleted, is left out. Generated ids are given, and are distinct and new where that is needed.
- EntityGraph.State.RemoveEntityId: ids are distinct, as generated ids are. The list is a sequence of entities rather than linked by pointers, and members whose names differ only in letters outside A to Z count as different.
- EntityGraph.AddedRooted: not for trees in which a descendant brings relationships of its own, which come before those that are added; `EntityGraph.State.AddThenRemove` covers these.
- EntityGraph.State.AddThenRemove: the ids given are distinct, and no entity of the list has or names one of them.
- Intents, interactions, simulation, matrices, media tracks, the client proxy's queues and the owner sweep of the place server would add easy members, or are floating point.
