# A verified model of the bundled bzip2 codec, the PKWARE expander and HTTP chunked framing

The server carries three pieces of code whose correctness is not visible from
reading any one function: the bzip2 1.0.6 library (`dep/bzip2`), the expander
for PKWARE-imploded data (`dep/libmpq/explode.cpp`) and the chunked transfer
framing of its SOAP library (`dep/gsoap/stdsoap2.cpp`). This project models the
algorithms as they are written, loops over arrays, explicit stacks and objects
with fields, and proves them against short mathematical specifications.

## The pieces

**Block sort.** `Rotations` orders the cyclic rotations of a block to a given
depth; equal rotations (periodic blocks) are allowed throughout. Both sorts are
proved to leave all rotations in order: `FallbackSort` (doubling with a bitmap
of bucket heads, over `FallbackQSort` and `Bitmap`) and `MainSort` (radix pass,
three-way quicksort in `MainQSort`, the two copy scans in `CopyScan`, the
quadrant cache in `MainCompare`). `ThreeWay` and `SegmentStack` hold what the
two quicksorts share, `BlockSort` chooses between the sorts. `BurrowsWheeler`
shows that sorted orders agree on the last column and that the inverse vector
rebuilds the block; `Counting` is the counting sort behind it.

**Entropy coding.** `MoveToFront` gives one meaning to a sequence of coded
symbols; `MtfEncode` writes such a sequence over the array it reads from; the
decoder reads it through the two-level list of `TwoLevelList`, and `MtfDecode`
says what its column and counts then hold. `ByteMaps` numbers the characters in
use, `SymbolStream` codes symbols in groups of 50.
`HuffmanHeap`, `CodeForest` and `CodeLengths` build length-limited codes with
Kraft sum 1, and `OptimalCode` proves that no code does better; `CanonicalCode`
assigns and recognises the codes.
`BitStream`, `BitWriter` and `BitReader` are the bit level.

**Run-length coding.** `RunLength` says what a block stands for; `RunEncoder`
builds it, the two expanders of `RunExpander` show it through output windows of
any size. `InverseVector` holds both decoders' inverse vectors. `ChecksumBits`
says what the checksum of `Crc` is, bit by bit, and which changes it always shows.

**Format and protocols.** `BlockFormat` and `StreamFormat` give the bits of a
block and of a stream. `BlockWriter` writes a block, `Compressor` is the
resumable stream machine with its four modes, `BlockSize` the bound that keeps
its output inside its buffer. `DecoderMachine` says what a single-shot run of
the decoder does with any bits: the stages at which it waits for a field, and
what each field makes of a stage. `Decompressor` is the decoder itself, with a
label for every field, the save area, the tables of `BlockTables` and the two
ways to show a block; it is proved to do what the single-shot run does for every cut of the input and all windows.
`BlockLanguage` and `StreamLanguage` say which bits are a stream, whoever wrote
them. `BlockReading` and `StreamReading` prove that the single-shot run accepts
every stream, `AcceptedBlock` and `AcceptedStream` that it accepts nothing else
and that every stored checksum counts; `GenuineStream` shows that what the
compressor writes is a stream. `RoundTrip` joins both ends.

**Adapters.** `Explode` refines expansion over an unbounded history by a
sliding buffer. `ChunkedTransfer` joins sender and receiver of section 4.1 of
RFC 7230 for every way the connection cuts the bytes; `ChunkedGrammar` proves the
receiver for every message of that grammar, whoever sent it.

A method that works in place is proved against a function or predicate of
sequences, and the properties the source promises are lemmas about those.
Bits are sequences of booleans, bytes and words are integers with explicit
ranges.

## Where code and comments differ, or a promise has a condition

- `soap_flush_raw` taken alone: a flush of no bytes sends the line that ends a
  message, so later flushes would be lost to the receiver (`ClosedEarly` in
  `ChunkedTransfer` is a concrete case, `AllReceived` the exact condition). No
  caller does that: `soap_send_raw` returns for no bytes, `soap_flush` and the
  compression tail look first, and the other calls pass constants. For flushes
  that are not empty `Transfer` receives everything.
- The size line is printed into 16 characters; `SizeLineFits` says for which
  sizes that is enough.
- The `memcpy` that slides the expander's buffer copies between regions that
  overlap unless exactly half a buffer was filled (`SlideApart`).
- The run expanders: a block that ends in four equal bytes without a count is
  the only one that is reported as corrupt at this stage.
- The comment on the block sort promises sorted rotations; equal rotations may
  stand in any order, so what is proved of two sorts is that they agree row by
  row on the characters.

## Model

| member | source | states |
|---|---|---|
| `RoundTrip.CompressThenDecompress` | dep/bzip2/bzlib.c:1246-1347 | End to end: for all data (the empty one too), every block size 1..9, work factor, choice of coding tables and either decoder kind, what the compressor produced decompresses without any error to exactly the data; compression itself fails only for lack of room |
| `RoundTrip.BuffToBuffCompress` | dep/bzip2/bzlib.c:1246-1294 | On success the output is one whole stream (at most 7 padding bits) whose blocks stand for exactly the source; it fails only when the destination is filled to the last byte, as OUTBUFF_FULL but for nothing compressed into no room |
| `RoundTrip.BuffToBuffDecompress` | dep/bzip2/bzlib.c:1298-1347 | Succeeds if and only if the single-shot run over the bytes reaches the end of the stream and its output fits the destination, and then with just that output, for any bytes and either decoder kind |
| `RoundTrip.WrittenDecodes` | dep/bzip2/bzlib.c:1298-1347 | What the compressor wrote ends well in the single-shot run, with exactly the data |
| `RoundTrip.UnpackInPieces` | dep/bzip2/bzlib.c:807-857 | A stream that was written, in any pieces and through any windows: never an error, at the end exactly the data, before only its beginning, and with room left the end is reached |
| `Rotations.Trichotomy` | dep/bzip2/blocksort.c:347-469 | Of any two rotations, compared to any depth, exactly one of before, equal, after holds |
| `Rotations.Split` | dep/bzip2/blocksort.c:247-251 | Comparing a+b characters is comparing a characters and then, where they are equal, b more from the places further on: the doubling step |
| `Rotations.DeepEnough` | dep/bzip2/blocksort.c:311-312 | Looking further than one full turn never changes a verdict, so depth H > nblock is a full sort |
| `Rotations.FullCircle` | dep/bzip2/blocksort.c:347-469 | Rotations equal for one full turn are equal at every depth (periodic blocks) |
| `BurrowsWheeler.SortsAgree` | dep/bzip2/blocksort.c:1031-1089 | Any two sorted orders show equal rotations row by row, so both block sorts hand on the same last column wherever they place equal rotations |
| `BurrowsWheeler.RowNotSmaller` | dep/bzip2/blocksort.c:1056-1062 | No sorted order has a smaller rotation at a row than another has (pigeonhole) |
| `BurrowsWheeler.InverseRebuildsBlock` | dep/bzip2/decompress.c:559-574 | Following the inverse vector of the last column from the row of rotation 0 for nblock steps rebuilds the block, for every sorted order, periodic blocks included |
| `BurrowsWheeler.WalkFollowsBlock` | dep/bzip2/decompress.c:559-574 | After k steps the walk stands at a row whose rotation equals the one that starts at character k |
| `BurrowsWheeler.InverseStep` | dep/bzip2/decompress.c:559-566 | The column entry one step leads to is the first character of the row stepped from |
| `BurrowsWheeler.ResortedIsSorted` | dep/bzip2/decompress.c:559-564 | Sorting the predecessors of all rows stably by their first character gives a sorted order again |
| `ThreeWay.Partition` | dep/bzip2/blocksort.c:132-170 | The fat partition of both quicksorts: a permutation in which smaller, equal and larger keys stand in this order with the middle part exactly the equal ones, or everything equal |
| `ThreeWay.VectorSwap` | dep/bzip2/blocksort.c:66-75 | Exchanges two blocks of rows and moves nothing else |
| `SegmentStack.StackBound` | dep/bzip2/blocksort.c:111 | A stack onto which the larger parts go first never holds more than a logarithmic number of segments: fewer than its 100 slots, so assertions 1004 and 1001 hold for every block |
| `SegmentStack.PushParts` | dep/bzip2/blocksort.c:172-178 | Pushing the parts of the top segment, larger ones first, keeps the logarithmic bound |
| `SegmentStack.DropMeasures` | dep/bzip2/blocksort.c:109-117 | The measure of the work on the stack falls with every segment that is finished |
| `SegmentStack.Refine` | dep/bzip2/blocksort.c:109-179 | Rows that were in order across segments stay so when one segment is rearranged into ordered parts |
| `FallbackQSort.SimpleSort` | dep/bzip2/blocksort.c:32-59 | Sorts the rows lo..hi by eclass and permutes only them (stride-4 pass, then insertion) |
| `FallbackQSort.QSort3` | dep/bzip2/blocksort.c:93-180 | Terminates with rows loSt..hiSt a permutation sorted by eclass; the explicit stack never overflows (assertion 1004) |
| `Bitmap.Set` | dep/bzip2/blocksort.c:205 | Sets just the bit zz of the bitmap |
| `Bitmap.Clear` | dep/bzip2/blocksort.c:206 | Clears just the bit zz of the bitmap |
| `Bitmap.SkipSet` | dep/bzip2/blocksort.c:279-283 | The first clear bit at or after k, found bit by bit, word by word and bit by bit again |
| `Bitmap.SkipClear` | dep/bzip2/blocksort.c:286-290 | The first set bit at or after k |
| `Bitmap.NextBucket` | dep/bzip2/blocksort.c:277-292 | Finds exactly the next bucket of more than one row, or that there is none; the sentinel bits end the word scan |
| `FallbackSort.SetByte` | dep/bzip2/blocksort.c:326 | Writing one byte through the byte view of the words changes that byte and no other |
| `FallbackSort.Place` | dep/bzip2/blocksort.c:236-241 | The rows lie in the buckets of their first characters, each rotation once |
| `FallbackSort.SetClasses` | dep/bzip2/blocksort.c:266-271 | Every rotation gets as class the rank of the H characters that start H places after it: a smaller class exactly when those are smaller |
| `FallbackSort.SameClassesKeep` | dep/bzip2/blocksort.c:295-305 | Two permutations whose rows agree in their first H characters have the same order to depth H, the same buckets and the same bucket heads |
| `FallbackSort.DoubleDepth` | dep/bzip2/blocksort.c:261-312 | Order and classes for H characters and for the H after them give order for 2H |
| `FallbackSort.RefineBucket` | dep/bzip2/blocksort.c:295-305 | After the sort of one bucket and the scan of its headers the bucket is ordered to depth 2H and its head bits mark exactly the changes of class |
| `FallbackSort.RefineRound` | dep/bzip2/blocksort.c:273-306 | One round refines every bucket: afterwards the rows are in order to depth 2H, heads mark exactly the classes of equal first 2H characters, and nNotDone is 0 only when all rotations are in order |
| `FallbackSort.Reconstruct` | dep/bzip2/blocksort.c:322-328 | The block bytes overwritten by the classes are back in place (assertion 1005) |
| `FallbackSort.FallbackSort` | dep/bzip2/blocksort.c:212-329 | Terminates for every block with all rotations in cyclic order in fmap and the block restored in the bytes of eclass |
| `MainCompare.GtU` | dep/bzip2/blocksort.c:347-469 | From offset d <= 15, under the quadrant invariant: True means rotation i1 not before i2, False means not after; never reads beyond nblock+33; ends after at least nblock characters; only the budget changes |
| `MainCompare.CompareSome` | dep/bzip2/blocksort.c:353-390 | Compares characters (and quadrants) one by one until they decide, keeping what a verdict on the rest means for the whole |
| `MainCompare.ReducesVerdict` | dep/bzip2/blocksort.c:395-468 | A difference of characters or, with equal characters, of quadrants decides the whole comparison |
| `MainCompare.ReducesFar` | dep/bzip2/blocksort.c:462-468 | Rotations found equal for nblock characters are equal |
| `MainQSort.Med3` | dep/bzip2/blocksort.c:583-592 | One of its three arguments, with one of the others on either side |
| `MainQSort.SimpleSort` | dep/bzip2/blocksort.c:485-555 | Shell sort: unless the budget runs out, rows lo..hi come out in cyclic order; always a permutation of them alone |
| `MainQSort.QSort3` | dep/bzip2/blocksort.c:621-717 | Unless the budget runs out, rows loSt..hiSt come out in cyclic order; always a permutation of them alone; the stack never overflows (assertion 1001) |
| `MainQSort.SortOrSplit` | dep/bzip2/blocksort.c:648-715 | One turn of the loop: the top segment is sorted, deepened or split into three parts in order |
| `MainQSort.PartsOrder` | dep/bzip2/blocksort.c:702-704 | Rows of the three parts are in order across the parts at depth d |
| `PairBuckets.AllBucketsSorted` | dep/bzip2/blocksort.c:832-836 | Rows in their two-character buckets, each bucket in order, are all rotations in order |
| `PairBuckets.FullIsPerm` | dep/bzip2/blocksort.c:802-830 | Rows that fill every bucket with its own rotations are a permutation |
| `CopyScan.ScanUp` | dep/bzip2/blocksort.c:923-929 | The upward copy scan writes, in every bucket [t,ss] not done, the predecessors that go up, in sorted order from below |
| `CopyScan.ScanDown` | dep/bzip2/blocksort.c:930-935 | The downward copy scan writes those that go down, in sorted order from above |
| `CopyScan.Meet` | dep/bzip2/blocksort.c:937-944 | The two scans of a bucket meet exactly: every place is written once (assertion 1007, its rare case included) |
| `CopyScan.MeetSorted` | dep/bzip2/blocksort.c:911-944 | What both scans wrote into [t,ss] is that bucket's rotations in sorted order |
| `CopyScan.GoesOneWay` | dep/bzip2/blocksort.c:911-917 | A rotation that starts with a run of ss goes either up or down, never both, by the character that ends its run |
| `MainSort.CountPairs` | dep/bzip2/blocksort.c:769-792 | ftab counts every pair of adjacent characters, cyclically, and the quadrants are zero |
| `MainSort.PlacePairs` | dep/bzip2/blocksort.c:802-830 | Every rotation lies in the bucket of its first two characters and ftab holds the first row of every bucket |
| `MainSort.RunningOrder` | dep/bzip2/blocksort.c:832-860 | The 256 big buckets from the smallest to the largest, each once |
| `MainSort.SortBigBucket` | dep/bzip2/blocksort.c:879-907 | Step 1: every small bucket [ss,j], j != ss, is sorted, or the budget ran out |
| `MainSort.CopyScans` | dep/bzip2/blocksort.c:918-946 | Step 2: afterwards the buckets [t,ss] of all t are sorted, [ss,ss] included, and nothing else moved |
| `MainSort.UpdateQuadrants` | dep/bzip2/blocksort.c:987-1004 | Step 3 keeps the documented meaning of quadrant for rotations of done buckets, read weakly for equal ones, also in the overshoot (assertion 1002) |
| `MainSort.BigBucket` | dep/bzip2/blocksort.c:868-1006 | One turn of the main loop: bucket ss is done, the invariant on done buckets, marks and quadrants holds again |
| `MainSort.MainSort` | dep/bzip2/blocksort.c:751-1011 | Unless the budget runs out, ptr holds all rotations in cyclic order; the block is unchanged either way |
| `BlockSort.Sort` | dep/bzip2/blocksort.c:1031-1089 | Whichever sort is used: all rotations in cyclic order, the block still in arr2, origPtr the row of rotation 0 (assertion 1003) |
| `HuffmanHeap.UpHeap` | dep/bzip2/huffman.c:33-42 | Restores the heap order upwards, keeping the nodes |
| `HuffmanHeap.DownHeap` | dep/bzip2/huffman.c:44-59 | Restores the heap order downwards, keeping the nodes |
| `HuffmanHeap.PopLightest` | dep/bzip2/huffman.c:101-102 | Takes off a node of least weight; the rest is a heap of the other nodes |
| `HuffmanHeap.Push` | dep/bzip2/huffman.c:107-109 | The heap holds one node more |
| `CodeForest.JoinForest` | dep/bzip2/huffman.c:100-110 | Joining two lightest trees keeps: every leaf reaches its root in its recorded number of steps, Kraft sum 1 per tree, Fibonacci-sized weight per height |
| `CodeForest.HeightBound` | dep/bzip2/huffman.c:114-121 | A tree of height h weighs at least a Fibonacci number of h, so the total weight bounds every depth |
| `CodeForest.KraftOfAll` | dep/bzip2/huffman.c:114-121 | The lengths of one tree over all symbols have Kraft sum 1 |
| `OptimalCode.Exchange` | dep/bzip2/huffman.c:100-110 | Moving the lighter of two trees deeper saves bits and keeps the Kraft sum |
| `OptimalCode.JoinKraft` | dep/bzip2/huffman.c:100-110 | With the two lightest trees deepest, both have room one below a common root, Kraft's inequality still holding |
| `OptimalCode.JoinPromising` | dep/bzip2/huffman.c:100-110 | Joining two lightest trees loses nothing: if the forest could be completed to a code no worse than any other, the joined forest can |
| `OptimalCode.TreeIsCheapest` | dep/bzip2/huffman.c:100-110 | Huffman's law: the depths in the finished tree code the leaves in no more bits than any lengths that satisfy Kraft's inequality |
| `CodeLengths.AddPacked` | dep/bzip2/huffman.c:25-31 | Adding packed weights adds the weights and takes one more than the greater height, without mixing the two |
| `CodeLengths.JoinLightest` | dep/bzip2/huffman.c:100-110 | Joins two lightest roots; arrays, heap and forest agree again |
| `CodeLengths.DeepIsHeavy` | dep/bzip2/huffman.c:114-123 | A leaf too deep needs a total weight that halved weights no longer have |
| `CodeLengths.HalvedTotal` | dep/bzip2/huffman.c:142-146 | Halving lowers the total as long as it exceeds 2 per symbol, so the retry loop ends |
| `CodeLengths.MakeCodeLengths` | dep/bzip2/huffman.c:63-148 | Terminates with lengths 1..maxLen whose Kraft sum is exactly 1 (assertions 2001, 2002) and that are best: with the frequencies, 0 counted as 1, halved k times, no lengths that satisfy Kraft's inequality code the symbols in fewer bits; for every smaller number of halvings some best lengths exceed maxLen, and k is 0 if the total is small enough for that |
| `CodeLengths.SeventeenBitsSuffice` | dep/bzip2/compress.c:449-452 | For every alphabet up to 258 symbols 17 bits meet the condition under which that holds |
| `CanonicalCode.AssignCodes` | dep/bzip2/huffman.c:152-166 | The canonical code: by length, then by symbol |
| `CanonicalCode.PrefixFree` | dep/bzip2/huffman.c:152-166 | No bits start with the codes of two symbols, for any lengths |
| `CanonicalCode.CodesFit` | dep/bzip2/huffman.c:152-166 | With Kraft's inequality every code fits into the bits of its length |
| `CanonicalCode.CreateDecodeTables` | dep/bzip2/huffman.c:170-200 | limit, base and perm describe exactly the canonical code of the lengths, for all lengths 1..20 |
| `CanonicalCode.CodeRead` | dep/bzip2/decompress.c:88-102 | For every set of lengths, over-full or incomplete ones included: the comparison with limit tells if and only if the bits read are the code of a symbol, base and perm tell which, and the range check of perm never fires |
| `CanonicalCode.WrittenMatches` | dep/bzip2/compress.c:583-587 | The bits of a written code followed by anything are recognised as that symbol |
| `CanonicalCode.EndIsKraft` | dep/bzip2/huffman.c:160-165 | The first code beyond length n is the Kraft sum of lengths up to n, scaled |
| `BitStream.ValueOfField` | dep/bzip2/compress.c:73-78 | A field reads back as the number written |
| `BitStream.FieldSplit` | dep/bzip2/compress.c:83-89 | A field is the field of its upper bits followed by that of its lower bits |
| `BitWriter.Writer.W` | dep/bzip2/compress.c:73-78 | Appends exactly the n-bit big-endian field of v to everything written so far |
| `BitWriter.Writer.NeedW` | dep/bzip2/compress.c:58-67 | Moves whole bytes out; fewer than 8 bits stay pending and nothing is lost |
| `BitWriter.Writer.PutUInt32` | dep/bzip2/compress.c:83-89 | Appends the 32-bit field of u |
| `BitWriter.Writer.FinishWrite` | dep/bzip2/compress.c:46-54 | The bytes hold everything written and fewer than 8 zero bits more |
| `BitReader.Reader.GetBits` | dep/bzip2/decompress.c:43-66 | Takes exactly the next n bits when they have arrived, and nothing otherwise; no bit is lost in the 32-bit buffer |
| `BitReader.Reader.Supply` | dep/bzip2/decompress.c:54-64 | More input only extends what is still to be read: fields do not depend on how the input was cut |
| `TwoLevelList.Mtfa.constructor` | dep/bzip2/decompress.c:358-370 | The 16 windows show the characters 0..255 in order |
| `TwoLevelList.Mtfa.Take` | dep/bzip2/decompress.c:423-475 | The character at place nn of the list, which comes to the front as in a plain list; windows stay ordered, apart and inside 4096 slots |
| `TwoLevelList.Mtfa.TakeFar` | dep/bzip2/decompress.c:445-463 | Beyond the first window only the last entry of each window before moves on, and the list is that after a plain move |
| `TwoLevelList.Mtfa.Repack` | dep/bzip2/decompress.c:464-473 | Moving the windows back to the top, in place, keeps the list |
| `TwoLevelList.SlideOn` | dep/bzip2/decompress.c:455-460 | One window takes over the last entry of the one before, which may share its slot |
| `ByteMaps.MakeMapsE` | dep/bzip2/compress.c:106-115 | Characters in use are numbered in order |
| `ByteMaps.MakeMapsD` | dep/bzip2/decompress.c:27-36 | Lists the characters in use in order |
| `ByteMaps.CharAt` | dep/bzip2/decompress.c:27-36 | The decoder's list of characters undoes the encoder's numbering |
| `MtfEncode.FlushRun` | dep/bzip2/compress.c:174-188 | The run digits written mean exactly the pending number of copies of the front character, in no more symbols than copies |
| `MtfEncode.Bring` | dep/bzip2/compress.c:189-207 | Finds the character's place and brings it to the front of the list |
| `MtfEncode.GenerateMTFValues` | dep/bzip2/compress.c:120-231 | The 16-bit values written over the row pointers mean exactly the last column, end with EOB and number at most nblock+1; no pointer is overwritten before it was read |
| `SymbolStream.CodedSplit` | dep/bzip2/compress.c:548-594 | The coded symbols up to k and from k on make up all |
| `SymbolStream.NextMatches` | dep/bzip2/decompress.c:74-102 | The symbol at place k is recognised by the table its group's selector names, whatever follows the block |
| `MtfDecode.PendingNext` | dep/bzip2/decompress.c:388-392 | One more run digit: es + 1 is the length that the digits so far mean, and N the weight of the next |
| `MtfDecode.ColumnRun` | dep/bzip2/decompress.c:398-412 | The column with the finished run at its end is what the symbols with its digits stand for |
| `MtfDecode.ColumnNext` | dep/bzip2/decompress.c:423-482 | The same for one character that comes to the front |
| `MtfDecode.PutRun` | dep/bzip2/decompress.c:403-414 | Appends es copies, or finds that the block is full, if and only if they do not fit |
| `BlockTables.SelectorRoom` | dep/bzip2/decompress.c:289-300 | The places at which nSelectors selectors are stored are all below BZ_MAX_SELECTORS if and only if nSelectors is at most that |
| `BlockTables.UndoMoves` | dep/bzip2/decompress.c:302-314 | The selectors that the move-to-front values came from |
| `BlockTables.BuildTable` | dep/bzip2/decompress.c:331-347 | Decode tables of the canonical code of the lengths, and the shortest length |
| `InverseVector.SetUpCftab` | dep/bzip2/decompress.c:494-516 | cftab holds the number of smaller characters, and none of the range and order checks fires |
| `InverseVector.BuildFast` | dep/bzip2/decompress.c:559-564 | The upper 24 bits of tt become the vector that undoes the sort of the column, the low bytes stay the column |
| `InverseVector.SetLL` | dep/bzip2/bzlib_private.h:458-470 | Stores any 20-bit number and changes no other entry |
| `InverseVector.BuildSmall` | dep/bzip2/decompress.c:526-534 | The entries become the row of every column entry, in place of the column |
| `InverseVector.Reverse` | dep/bzip2/decompress.c:536-545 | Pointer reversal ends and turns exactly the cycle through origPtr into that of the inverse vector |
| `InverseVector.ChainNext` | dep/bzip2/decompress.c:539-545 | The next entry of the cycle was not turned yet |
| `InverseVector.IndexIntoF` | dep/bzip2/bzlib.c:686-697 | Finds the character whose rows in the first column include the index |
| `InverseVector.FirstColumn` | dep/bzip2/bzlib_private.h:475-479 | The first-column character found by binary search is the column entry the inverse vector leads to |
| `InverseVector.GetFast` | dep/bzip2/bzlib_private.h:444-456 | The k-th byte of the block and the next position; the range check never fires |
| `InverseVector.GetSmall` | dep/bzip2/bzlib_private.h:475-479 | The same k-th byte from the reversed 20-bit vector |
| `InverseVector.InverseUnique` | dep/bzip2/decompress.c:524-564 | There is only one vector that undoes the sort of a column, for every column |
| `RunLength.CodedRun` | dep/bzip2/bzlib.c:223-245 | A coded run stands for the run, unless the block ends in the same character without a count |
| `RunEncoder.Encoder.AddPairToBlock` | dep/bzip2/bzlib.c:215-246 | The block grows by the coded run; the checksum is that of the raw bytes; inUse marks exactly the block's bytes |
| `ChecksumBits.ByteStep` | dep/bzip2/bzlib_private.h:167-172 | One table step is eight steps of the 32-bit register that takes off the polynomial 0x04c11db7 when the bit shifted out differs from the data bit, if the table holds what eight steps make of each byte |
| `ChecksumBits.OverIsRegister` | dep/bzip2/bzlib_private.h:167-172 | The checksum of any bytes is that register after their bits, most significant first |
| `ChecksumBits.BurstShows` | dep/bzip2/bzlib_private.h:167-172 | Any change within 32 bits in a row changes the register after all later bits |
| `ChecksumBits.ChangeShows` | dep/bzip2/bzlib.c:823-832 | Data in which up to four bytes in a row were changed never has the same checksum |
| `ChecksumBits.FinalBit` | dep/bzip2/bzlib_private.h:162-165 | The final checksum has every bit turned over |
| `ChecksumBits.CombineBit` | dep/bzip2/compress.c:607-608 | Bit i of the combined checksum is bit i - 1, cyclically, of the one before, exclusive-or bit i of the block's |
| `RunEncoder.Encoder.FlushRL` | dep/bzip2/bzlib.c:251-255 | The pending run moves into the block; nothing stays pending |
| `RunEncoder.Encoder.AddChar` | dep/bzip2/bzlib.c:259-283 | What block and pending run stand for grows by exactly the byte, for runs of any length: the pending run goes on up to 255, and only otherwise goes into the block, which grows by at most 5 |
| `RunEncoder.Encoder.PrepareNewBlock` | dep/bzip2/bzlib.c:116-125 | An empty block; a pending run stays pending across blocks |
| `RunExpander.Small.Unrle` | dep/bzip2/bzlib.c:758-802 | Through output windows of any size: the bytes the block stands for, in order, with their checksum; corrupt only when the block ends in four equal bytes without a count |
| `RunExpander.Fast.Unrle` | dep/bzip2/bzlib.c:588-681 | The same contract as the SMALL form although runs are started with a full window and runs of one are shown by a jump |
| `RunExpander.FastAndSmallAgree` | dep/bzip2/bzlib.c:588-800 | Both readers of one block, whatever windows each was given, showed the same bytes with the same checksum once through; each gets through if and only if the block does not end in four equal bytes without a count |
| `RunExpander.ShortRun` | dep/bzip2/bzlib.c:781-795 | One to three equal bytes are shown as they are |
| `RunExpander.LongRun` | dep/bzip2/bzlib.c:797-799 | Four equal bytes and a count are shown as the whole run |
| `RunExpander.EnoughShown` | dep/bzip2/bzlib.c:823 | A reader that has shown all the block stands for is at its end |
| `BlockWriter.WriteMap` | dep/bzip2/compress.c:494-511 | The mapping bits: used rows of 16, then the used rows' bits |
| `BlockWriter.MoveSelectors` | dep/bzip2/compress.c:461-478 | Tells for every selector its place in the move-to-front list of tables |
| `BlockWriter.WriteSelectors` | dep/bzip2/compress.c:521-524 | The move-to-front values in unary |
| `BlockWriter.WriteTables` | dep/bzip2/compress.c:531-539 | The lengths of every table by steps of one from the length before |
| `BlockWriter.CountSymbols` | dep/bzip2/compress.c:429-434 | rfreq becomes, for every symbol, how often the table has to code it in the groups that chose it; the total keeps the packed weights in range |
| `BlockWriter.MakeTable` | dep/bzip2/compress.c:449-492 | Lengths 1..17 (assertions 3004, 3005) of a complete code and their canonical codes; no code for the symbols that chose the table takes fewer bits, counts being halved only as often as best codes exceed 17 bits |
| `BlockWriter.WriteSymbols` | dep/bzip2/compress.c:546-594 | Every symbol coded with its group's table; as many groups as selectors (assertion 3007) |
| `BlockWriter.SendMTFValues` | dep/bzip2/compress.c:239-598 | Mapping table, table count, selectors, tables and symbols, for any choice of selectors; never more than BZ_MAX_SELECTORS selectors (assertion 3003); every table is a best one for the groups that chose it |
| `StreamFormat.BlocksSnoc` | dep/bzip2/compress.c:602-667 | One more block appends just its bits |
| `StreamFormat.CombinedSnoc` | dep/bzip2/compress.c:607-608 | The stream's checksum takes in one block's more |
| `DecoderMachine.AfterOk` | dep/bzip2/decompress.c:195-610 | Whatever field arrives at whatever stage, the next stage is well formed: lengths are 1..20, selectors below the number of tables, symbols within their groups, a block to show not empty |
| `DecoderMachine.DecodeSplit` | dep/bzip2/decompress.c:43-66 | The input may be cut anywhere: the single-shot run over two parts is the run over the first, continued over the second from where it stopped |
| `DecoderMachine.StoppedStays` | dep/bzip2/bzlib.c:841-857 | A run that ended or failed is not changed by more input |
| `DecoderMachine.DecodeEnds` | dep/bzip2/decompress.c:43-66 | A run ends only with the stream, with an error, or short of the bits of the next field; never inside a block that is complete |
| `BlockReading.MapRun` | dep/bzip2/decompress.c:266-284 | A mapping table, with any rows flagged that hold its characters, is read |
| `BlockReading.SelectorsRun` | dep/bzip2/decompress.c:290-314 | Selectors are read from the bits of their move-to-front values |
| `BlockReading.PathRun` | dep/bzip2/decompress.c:319-329 | The lengths of a table are read along any path of steps of one within 1..20 |
| `BlockReading.CodeRun` | dep/bzip2/decompress.c:74-102 | The bits of a code, taken as the shortest length and then one by one, give its symbol and no other on the way, over-full tables included |
| `BlockReading.SymbolPasses` | dep/bzip2/decompress.c:379-421 | No check on symbols fires in a block of the language: neither the 2-million check of run weights nor the block size |
| `BlockReading.SymbolsRun` | dep/bzip2/decompress.c:372-486 | The coded symbols of a block are read up to EOB, with nothing after it |
| `BlockReading.BodyRun` | dep/bzip2/decompress.c:266-486 | Every body of the language, followed by anything, leads to the block that its symbols and origPtr describe |
| `StreamReading.HeaderRun` | dep/bzip2/decompress.c:197-209 | A header is accepted and gives the block size |
| `StreamReading.HeadRun` | dep/bzip2/decompress.c:241-264 | Checksum, flag and origPtr are read, by whole bytes |
| `StreamReading.PieceShown` | dep/bzip2/decompress.c:222-578 | A block that stores the checksum of its data decodes to the data, and the stream checksum takes it in |
| `StreamReading.TrailerRun` | dep/bzip2/decompress.c:582-610 | A trailer with the combined checksum is accepted |
| `StreamReading.StreamRun` | dep/bzip2/bzlib.c:807-857 | Completeness: every stream of the language is accepted, with the data of its blocks, and what follows it is left |
| `AcceptedBlock.SelectorsRead` | dep/bzip2/decompress.c:290-314 | If the stream is accepted, the bits read for the selectors are their move-to-front values in unary, each below the number of tables |
| `AcceptedBlock.StepsRead` | dep/bzip2/decompress.c:319-329 | The bits read for the lengths of a table spell them by steps of one that stay within 1..20 |
| `AcceptedBlock.SymbolsRead` | dep/bzip2/decompress.c:372-486 | The bits read for the symbols are their codes in the tables that the selectors name, ended by EOB and by nothing else |
| `AcceptedBlock.BodyRead` | dep/bzip2/decompress.c:266-486 | What an accepted stream holds between origPtr and the end of a block is a body of the language, and the bytes shown are those it describes; origPtr is a place in them and they fit the block size |
| `AcceptedStream.AcceptedIs` | dep/bzip2/bzlib.c:807-857 | Soundness: a run that ends well took a header, blocks and a trailer; the output is the data of the blocks, the 32-bit field of every block is the checksum of its data, and the last 32 bits are all of them combined |
| `AcceptedStream.AcceptedIff` | dep/bzip2/bzlib.c:807-857 | The inputs that are accepted are the streams of the language, with anything behind them: if and only if |
| `AcceptedStream.ChangedIsRefused` | dep/bzip2/bzlib.c:823-847 | An accepted stream with any other 32 bits stored for the checksum of one block, or for the combined one, is refused at that place, after the data of the blocks before |
| `GenuineStream.MapSame` | dep/bzip2/decompress.c:266-284 | The mapping table that is written flags just the rows that hold characters |
| `GenuineStream.DeltasSpell` | dep/bzip2/decompress.c:319-329 | The written differences spell the lengths |
| `GenuineStream.CodeIsRead` | dep/bzip2/decompress.c:74-102 | In a prefix code the bits of a code are no other code and contain none at their front |
| `GenuineStream.Accepted` | dep/bzip2/decompress.c:379-421 | No check on symbols fires in a block the compressor wrote |
| `GenuineStream.ColumnRestored` | dep/bzip2/decompress.c:372-486 | The column decoded from a genuine block is the last column of its sorted rotations |
| `GenuineStream.BlockRestored` | dep/bzip2/decompress.c:559-574 | The block described by the last column of sorted rotations and the row of rotation 0 is the block that was sorted |
| `GenuineStream.BlockIsPiece` | dep/bzip2/decompress.c:222-578 | The bits of a written block are those of a block of the language that stores the checksum of its data |
| `GenuineStream.StreamRun` | dep/bzip2/bzlib.c:807-857 | A stream that was written decodes to exactly the data of its blocks; no data error or checksum exit fires, and what follows it is left |
| `GenuineStream.ChangedIsRefused` | dep/bzip2/bzlib.c:823-847 | A written stream in which any stored checksum was changed is never accepted |
| `Decompressor.DState.NextRow` | dep/bzip2/decompress.c:275-284 | Goes on with the next used row of the mapping table, or lists the characters in use |
| `Decompressor.DState.AtSelector3` | dep/bzip2/decompress.c:292-314 | One bit of a selector, with all that follows up to the next field |
| `Decompressor.DState.AtCoding2` | dep/bzip2/decompress.c:319-373 | The end of a difference: next length, next table, or decode tables, list and counts for the first symbol |
| `Decompressor.DState.AtMtf` | dep/bzip2/decompress.c:74-102 | The bits of a symbol so far, from the tables: more bits, an error, or the symbol and what it does |
| `Decompressor.DState.TakeNext` | dep/bzip2/decompress.c:375-486 | One symbol at any of the three places that read one: run digit, end of a run, character, or end of the block |
| `Decompressor.DState.Digit` | dep/bzip2/decompress.c:381-394 | One turn of the loop over run digits, with its 2-million check |
| `Decompressor.DState.EndRun` | dep/bzip2/decompress.c:398-414 | The end of a run: counts and column, or an error if and only if the block would overflow |
| `Decompressor.DState.PutChar` | dep/bzip2/decompress.c:423-482 | One character from the two-level list into the column and its counts |
| `Decompressor.DState.FinishBlock` | dep/bzip2/decompress.c:488-578 | Checks origPtr, sets up cftab, whose checks all pass, and builds the vector of either kind; what will be shown is the block the column describes, whatever the column |
| `Decompressor.DState.Turn` | dep/bzip2/decompress.c:43-66 | One GET_BITS and the code up to the next label: just one step of the machine, or nothing for want of input |
| `Decompressor.DState.Decompress` | dep/bzip2/decompress.c:106-640 | Goes on from the save area until a block is read, the stream ends, an error is found or the input is used up; with the save area everything still to be done is what the single-shot run does |
| `Decompressor.DState.Supply` | dep/bzip2/decompress.c:54-64 | More input keeps that: the single-shot run over all input is what was written and what is still to be done |
| `Decompressor.DState.ShowBlock` | dep/bzip2/bzlib.c:816-839 | Shows what fits the window; when all was shown the checksum is compared; before, what was shown is the beginning of what the single-shot run puts out |
| `Decompressor.DState.BzDecompress` | dep/bzip2/bzlib.c:807-857 | For any input, any cuts of it, any windows and either decoder kind: errors and the end of the stream come just as in the single-shot run over all bits supplied, at the end with its output; it asks for more only with a full window and an unfinished block, or where the single-shot run stops as well |
| `Decompressor.DecompressInPieces` | dep/bzip2/bzlib.c:807-857 | A call for every piece of input with a window for it: verdict and, on success, output are those of the single-shot run; with room left in the last window it asks for more if and only if the single-shot run stops short |
| `BlockSize.BlockFits` | dep/bzip2/compress.c:494-594 | Worst case of mapping, selectors, table differences and 17-bit symbols for a block of n bytes |
| `BlockSize.RoomBehindBlock` | dep/bzip2/bzlib.c:173-177 | With header, trailer and pending bits that is less room than arr2 has behind the block, for every block size |
| `Compressor.WriteBlock` | dep/bzip2/compress.c:602-650 | Sorts, codes and writes a block whose parts describe exactly its bytes and data |
| `Compressor.EState.CompressBlock` | dep/bzip2/compress.c:602-667 | Everything made is the header, the blocks' bits and, for the last block, the trailer; what is made fits into arr2 behind the block; taken bytes are conserved |
| `Compressor.EState.CopyInputUntilStop` | dep/bzip2/bzlib.c:288-328 | Moves input into block and pending run, byte for byte; a full block leaves a pending run |
| `Compressor.EState.CopyOutputUntilStop` | dep/bzip2/bzlib.c:333-355 | Writes what was made, in order, until the window is full or all is written |
| `Compressor.EState.StartBlock` | dep/bzip2/bzlib.c:374-375 | A new block begins only when all was written; pending bits go on |
| `Compressor.EState.InputTurn` | dep/bzip2/bzlib.c:381-397 | The trailer is made if and only if finishing has all its input; a block is made only when it is full, or when flushing or finishing has all its input; otherwise the machine stops for more input |
| `Compressor.EState.HandleCompress` | dep/bzip2/bzlib.c:360-402 | Terminates; stops only with a full window, with everything done that was asked for, or for more input; progress says whether anything was taken or written, and of the blocks made all are full but perhaps the last of a flush or finish |
| `Compressor.EState.BzCompress` | dep/bzip2/bzlib.c:406-463 | The whole table of modes and actions: after the end, with another action than the one under way, or with other input than was there when it began, SEQUENCE_ERROR and nothing changes; all blocks made are full but perhaps the last of a FLUSH or FINISH; RUN answers RUN_OK if and only if something was taken or written and goes on until the input is used up or the window is full; FLUSH answers FLUSH_OK if and only if output waits, otherwise all that was taken is in finished blocks; FINISH answers SEQUENCE_ERROR if and only if nothing moved, FINISH_OK if output waits, and STREAM_END only after the trailer was made once and everything was written, a whole stream of blocks for exactly what was taken |
| `Compressor.EState.constructor` | dep/bzip2/bzlib.c:147-210 | The invariant of the stream machine holds at the start |
| `Explode.CopyBytes` | dep/libmpq/explode.cpp:389-396 | The copy in the buffer is the copy in the unbounded history, overlapping ones included |
| `Explode.FlushHalf` | dep/libmpq/explode.cpp:403-417 | Writes the upper half and slides the rest down, as an upward copy; buffer and written bytes still are the history |
| `Explode.SlideApart` | dep/libmpq/explode.cpp:415 | The two regions of the memcpy have no byte in common if and only if out_pos is 0x2000 |
| `Explode.Expand` | dep/libmpq/explode.cpp:362-422 | What goes to write_buf is exactly the expansion over an unbounded history that starts with 4096 zero bytes, up to the end or to a distance that could not be read |
| `ChunkedTransfer.Receiver.GetChunkChar` | dep/gsoap/stdsoap2.cpp:1014-1024 | The next wire byte, from the buffer or the connection, or EOF when both are used up |
| `ChunkedTransfer.Receiver.GetChunkSize` | dep/gsoap/stdsoap2.cpp:1123-1140 | Reads exactly one size line, wherever the connection cuts it (`ChunkedGrammar.SizeLineRead` says what the line is worth) |
| `ChunkedTransfer.Receiver.RecvRaw` | dep/gsoap/stdsoap2.cpp:1096-1164 | The next window is the next part of the payload of the wire bytes; nothing is left when none is exposed, for any wire bytes and any fragmentation |
| `ChunkedTransfer.Receiver.RecvAll` | dep/gsoap/stdsoap2.cpp:1096-1164 | All windows together are the payload |
| `ChunkedTransfer.PayloadPart` | dep/gsoap/stdsoap2.cpp:1100-1107 | A chunk may be passed on in parts |
| `ChunkedTransfer.SizeLine` | dep/gsoap/stdsoap2.cpp:810-817 | A size line is read as the size it was printed from, up to 16 digits |
| `ChunkedTransfer.SizeLineFits` | dep/gsoap/stdsoap2.cpp:811-812 | The printed line with its closing zero fits t[16] if and only if the size has at most 11 hexadecimal digits, 13 in the first line |
| `ChunkedTransfer.WireCarries` | dep/gsoap/stdsoap2.cpp:801-821 | The payload of what is sent is the flushed data before the first empty flush |
| `ChunkedTransfer.AllReceived` | dep/gsoap/stdsoap2.cpp:801-821 | Of the wire bytes that soap_flush_raw alone would send: everything flushed is received if and only if no flush of some bytes follows an empty one |
| `ChunkedTransfer.ClosedEarly` | dep/gsoap/stdsoap2.cpp:801-821 | A concrete case: after a flush of no bytes the byte of the next flush is lost |
| `ChunkedTransfer.Sender.FlushRaw` | dep/gsoap/stdsoap2.cpp:801-821 | Sends the size line, with a leading CRLF only after earlier data, and the data |
| `ChunkedTransfer.Sender.EndSend` | dep/gsoap/stdsoap2.cpp:8033-8037 | Sends the empty chunk that ends the message |
| `ChunkedTransfer.Transfer` | dep/gsoap/stdsoap2.cpp:1096-1164 | Sender and receiver together, however the connection delivers the bytes: what is received is all that was flushed if no flush is empty, and in general if and only if nothing but empty flushes follows an empty one |
| `ChunkedGrammar.DigitIsHex` | dep/gsoap/stdsoap2.cpp:9463-9470 | The hexadecimal digits are those of 0123456789abcdef, upper case equal to lower, and each is worth its place there |
| `ChunkedGrammar.SizeLineRead` | dep/gsoap/stdsoap2.cpp:1123-1140 | Any size line of 1 to 16 digits in either case, leading zeros and extensions included, is read as the size its digits give, and to its end |
| `ChunkedGrammar.MessagePayload` | dep/gsoap/stdsoap2.cpp:1096-1164 | The payload of every message of the grammar is the concatenation of its chunks |
| `ChunkedGrammar.ReceiveMessage` | dep/gsoap/stdsoap2.cpp:1096-1164 | Any message of the grammar, whoever sent it and however its bytes arrive: what is received is the data of its chunks |

## Left out

- BlockWriter.SendMTFValues: the choice of selectors is any sequence a parameter names, and code lengths come from one pass; how good the choice is, the initial tables, the packed cost sums and `mtfFreq` are not modelled.
- CodeLengths.MakeCodeLengths: for alphabets of 2 to 258 symbols and totals up to 2^23 - 1, which covers every call; other inputs are not modelled.
- Manual unrolling (`mainGtU`'s 12 and 8 comparisons, the radix passes, the three shell-sort copies, the groups of 50, the steps of 4 in move-to-front) is folded into loops.
- `quadrant` is an array of its own and the output `zbits` a sequence behind the block instead of parts of `arr2`; that they fit there is proved in `BlockSize`. `mtfv` over `ptr` and the block bytes inside the words of `eclass` are modelled in place, in little-endian layout only.
- The block is packed into `arr2` when it is sorted instead of being built there.
- Scratch arrays of the compressor are new in every block.
- BlockTables.UndoMoves: `selectorMtf` and `selector` are sequences, not arrays of BZ_MAX_SELECTORS = 18002 entries. Places 0 to nSelectors - 1 are stored, so the arrays hold them if and only if nSelectors <= 18002 (`BlockTables.SelectorRoom`); that is so for every block the compressor writes (`BlockFormat.PartsOk`, `BlockWriter.SendMTFValues`), while the 15-bit field of other streams can say up to 32767.
- Decompressor.DState.BzDecompress: calls after one that returned an error are not modelled; after the end of the stream a call gives the sequence error.
- Decompressor.DState.AtCCrc: the comparison of the combined checksums, which follows in `BZ2_bzDecompress`, is made here.
- The pointers `gLimit`, `gBase` and `gPerm` are the tables that `gSel` names; `zt` and `zj`, which no code reads across a field, are not saved.
- Some masks and unions of disjoint bits are written as arithmetic (`SETMASK`, pair numbers, `SET_LL`, `GET_LL`).
- FAST expansion works on the fields themselves, not on cached locals.
- Randomised blocks: the flag is read, a block with flag 1 ends in a verdict of its own.
- Allocation, null checks, `total_in` and `total_out`, verbosity, the file and stdio wrappers.
- The contents of the checksum table: the table is a parameter; `ChecksumBits.TableOk` says what its entries must be.
- Explode.FlushHalf: the `memcpy` is an upward copy; for overlapping regions (see `SlideApart`) the language leaves its result open.
- The PKWARE bit buffer and code tables: expansion starts from decoded literals and copies; the buffer is sized to what the invariant needs.
- ChunkedTransfer.Sender.FlushRaw: sizes up to 16 hexadecimal digits are printed without a bound on the line (see `SizeLineFits`).
- ChunkedGrammar.MessagePayload: sizes are those of at most 16 digits, read with an `unsigned long` of 64 bits; a shorter one and the replacement for a missing `strtoul` stop earlier. Trailer fields are skipped unread.
- Chunked transfer: bytes are not negative, so a byte that equals EOF as a signed char is not modelled; counters do not wrap; zlib, DIME and other modes, send errors and TLS are left out.
- Between calls of the compressor the caller sets the buffers through a method; it does not move pointers behind the library's back.
