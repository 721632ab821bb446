# Verification of the feature extractor

A Dafny model of the algorithms behind the EMBER2024 feature extractor, with proofs about
them. `dafny verify dfyconfig.toml` checks everything, with the option that
`dfyconfig.toml` sets: to warn about contradictory assumptions.

The extractor reads a file in blocks, feeds the blocks to feature types that keep counters,
buffers and hash tables, and has each of them write its own slice of one output vector. Five
parts of it are modelled:

* **Feature hashing.** `Murmur32`, `Murmur128x86` and `Murmur128x64` are the three hash functions
  on bit vectors, with inverses for every step. `FeatureHashers.FeatureHasher` is the streaming
  hasher: it pushes hashed features into growing vectors, hands them to `CsrMatrices.CsrMatrix`,
  which sums duplicates and sorts, and writes the matrix out by overwriting cells. The result is
  proved to be the bucket totals of the features, and the vectors before canonicalisation
  are proved to be those of the batch reference in `HashingFast`.
* **The block pipeline.** `BlockStreams.MemoryBlockStream` cuts a buffer into blocks. The
  reducers (`ByteReducers`, `SlidingWindows`, `EntropyBins`, `ByteEntropy`, `StringExtractors`,
  `GeneralInfo`) each have state that is a function of the bytes seen so far.
  `StaticFeatureTypes` holds the eight features that write their slices when they start; among
  them sections (`SectionInfos`), imports (`ImportsInfos`), exports (`ExportsInfos`) and the rich
  header (`RichHeaders`) feed ten hashers. `Extractors.Extractor.Run` is the driver: after a run
  the vector is a function of the current file, whatever the object held before.
* **Calendar arithmetic** (`Timestamps`), against stepping the calendar one day at a time.
* **The LRU cache** (`LruCaches`, over `RecencyLists`), against recency lists on values.
* **The doubly linked list** (`LkLists`), against one sequence of nodes.

Where the code works in place the model does too: classes with the fields of the source,
methods with loops over arrays, and ghost fields only for what has been fed in so far. Each
method is tied to a function of its input, and the properties are lemmas about that function.

Idealisations: `float` and `double` are `real`; entropy is an arbitrary function of the
counts; 32-bit and 64-bit reads are little-endian; allocation succeeds. Widths matter where
the code depends on them: hashes are bit vectors, a hash is read back as a signed 32-bit
integer, the calendar uses C's truncating division and unsigned conversions, and timestamps
wrap around at 64 bits.

Three things that do not hold everywhere, with the exact conditions under which they do:

* The block size is visible in the string features. `BlockwiseSearch` and
  `BlockSizeIndependence` say exactly when it is not: when no five printable bytes lie across a
  block boundary. `BlockSizeMatters` gives, for every block size, a file to which it matters.
* A timestamp is unsigned, so a time before 1970 gets a larger number than one after it.
  `TimestampOrder` says that this is the only exception to the order;
  `LastSecondBeforeEpoch` is a pair of times one second apart.
* Writing a matrix out by overwriting can lose values. `OverwritingExactly` says when it does not:
  when, in each column of a row, nothing is left of the cells in front of the last one. With
  positive values that means that no column comes twice (`PositiveOverwriting`).
  `OverwritingAloneIsWrong` is a row on which it fails, and after duplicates have been summed it
  is always right (`OverwritingIsSumming`).

The comment on `days_from_civil` gives an exact range of validity. `OverflowExactly` and
`OverflowByDate` confirm it, in days and in dates.

What a slice holds is stated twice: by the functions that the methods are proved against, and by
lemmas that give every cell in numbers, down to offsets, byte ranges and hash parameters, without
the constants and helper functions of the definitions (`HistogramCell`, `ShareTimesSize`,
`MaximalRunFound`, `HashedRanges`, `PairInNumbers` and their neighbours). `Core.ReaderSlices` and
`Core.StaticSlices` say where the slices stand in the vector.

The last lemmas of the table are known answers: the expected output of the repository's hasher
test, a digest of each 128-bit hash, a string with a space in it, and the sequences of the list's
own demonstration.

## Model

| member | source | states |
|---|---|---|
| BlockFolds.FoldUnfold | murmur3/src/murmur3.c:114-125 | undoing the steps last to first recovers the state before the block loop, and the other way round |
| BlockFolds.FoldSeparates | murmur3/src/murmur3.c:114-125 | block sequences that differ in one block lead a loop of reversible steps to different states |
| BlockFolds.DigestSeparates | murmur3/src/murmur3.c:114-149 | with a reversible finish, keys that differ in one block or only in the tail have different digests |
| BlockFolds.DigestInverse | murmur3/src/murmur3.c:114-149 | for fixed blocks and tail the digest is a bijection of the starting state, with its inverse given |
| MurmurMix.Fmix32Inverse | murmur3/src/murmur3.c:72-81 | the 32-bit finalizer is a bijection; its inverse is given and both compositions are the identity |
| MurmurMix.Fmix64Inverse | murmur3/src/murmur3.c:85-94 | the same for the 64-bit finalizer |
| MurmurMix.Fmix32InPlace | murmur3/src/murmur3.c:72-81 | the sequence of assignments computes the 32-bit finalizer |
| MurmurMix.Fmix64InPlace | murmur3/src/murmur3.c:85-94 | the sequence of assignments computes the 64-bit finalizer |
| KeyWords.Word32Agree | murmur3/src/murmur3.c:59-62 | two little-endian words, padded with zeros past the end of the key, are equal if and only if their four bytes are |
| KeyWords.ReadTail32 | murmur3/src/murmur3.c:130-139 | the fall-through switch over up to three or four bytes reads the zero-padded last word |
| KeyWords.ReadTail64 | murmur3/src/murmur3.c:298-316 | the same for up to eight bytes |
| Murmur32.StepUndone | murmur3/src/murmur3.c:118-124 | the block step is undone by its inverse, for every block |
| Murmur32.StepRedone | murmur3/src/murmur3.c:118-124 | and redone, so it is a bijection of the state |
| Murmur32.StepRecovers | murmur3/src/murmur3.c:118-124 | the block can be recovered from the states around it, so different blocks give different states |
| Murmur32.MixReversible | murmur3/src/murmur3.c:110-149 | block step and finish together meet the conditions of the general digest theorems |
| Murmur32.SeedRecovered | murmur3/src/murmur3.c:98-150 | the seed can be computed from key and digest: for a fixed key the hash is injective in the seed |
| Murmur32.EveryDigestReached | murmur3/src/murmur3.c:98-150 | every 32-bit digest is reached by a seed, so the hash is a bijection of the seed |
| Murmur32.OneWordDiffers | murmur3/src/murmur3.c:112-139 | keys of equal length that differ inside one aligned four-byte block differ in exactly one word read, or only in the tail word |
| Murmur32.OneWordNeverCollides | murmur3/src/murmur3.c:98-150 | such keys never collide, under any seed |
| Murmur32.MixBlocks | murmur3/src/murmur3.c:112-125 | the loop over negative indices is a forward fold over the full words of the key |
| Murmur32.MixTail | murmur3/src/murmur3.c:127-140 | the fall-through tail mixes in the zero-padded last word |
| Murmur32.EmptyTail | murmur3/src/murmur3.c:134-140 | skipping an empty tail is the same as mixing in zero |
| Murmur32.MurmurHash3_x86_32 | murmur3/src/murmur3.c:98-150 | the procedure as a whole computes the digest about which the lemmas speak, for every key and seed |
| Murmur128x86.StepUndone | murmur3/src/murmur3.c:182-196 | the step on four 32-bit lanes is undone by its inverse |
| Murmur128x86.StepRedone | murmur3/src/murmur3.c:182-196 | and redone, so it is a bijection of the state |
| Murmur128x86.StepRecovers | murmur3/src/murmur3.c:182-196 | the block can be recovered from the states around it |
| Murmur128x86.AvalancheInverse | murmur3/src/murmur3.c:240-249 | the finalisation of the four lanes is a bijection |
| Murmur128x86.MixReversible | murmur3/src/murmur3.c:173-249 | step and finish meet the conditions of the general digest theorems |
| Murmur128x86.OneBlockNeverCollides | murmur3/src/murmur3.c:154-255 | keys of equal length that differ in one aligned sixteen-byte block have different digests |
| Murmur128x86.InjectiveOnSixteenBytes | murmur3/src/murmur3.c:154-255 | on sixteen-byte keys the hash is injective |
| Murmur128x86.MixBlocks | murmur3/src/murmur3.c:173-197 | the loop over negative indices is a forward fold over the full blocks |
| Murmur128x86.MixTail | murmur3/src/murmur3.c:199-233 | the fall-through tail mixes in four zero-padded words, whichever of its lanes it skips |
| Murmur128x86.MurmurHash3_x86_128 | murmur3/src/murmur3.c:154-255 | the procedure as a whole computes the digest about which the lemmas speak |
| Murmur128x64.StepUndone | murmur3/src/murmur3.c:281-287 | the step on two 64-bit lanes is undone by its inverse |
| Murmur128x64.StepRedone | murmur3/src/murmur3.c:281-287 | and redone, so it is a bijection of the state |
| Murmur128x64.StepRecovers | murmur3/src/murmur3.c:281-287 | the block can be recovered from the states around it |
| Murmur128x64.AvalancheInverse | murmur3/src/murmur3.c:325-332 | the finalisation of the two lanes is a bijection |
| Murmur128x64.MixReversible | murmur3/src/murmur3.c:274-332 | step and finish meet the conditions of the general digest theorems |
| Murmur128x64.OneBlockNeverCollides | murmur3/src/murmur3.c:259-336 | keys of equal length that differ in one aligned sixteen-byte block have different digests |
| Murmur128x64.InjectiveOnSixteenBytes | murmur3/src/murmur3.c:259-336 | on sixteen-byte keys the hash is injective |
| Murmur128x64.MixBlocks | murmur3/src/murmur3.c:274-288 | the loop is a fold over the full blocks |
| Murmur128x64.MixTail | murmur3/src/murmur3.c:290-318 | the fall-through tail mixes in two zero-padded words, whichever of its lanes it skips |
| Murmur128x64.MurmurHash3_x64_128 | murmur3/src/murmur3.c:259-336 | the procedure as a whole computes the digest about which the lemmas speak |
| CsrRows.SumRowCanonical | featurehasher/src/featurehasher.cpp:191-213 | after summing, columns are strictly increasing and no column is lost or added |
| CsrRows.SumRowKeepsSums | featurehasher/src/featurehasher.cpp:191-213 | summing duplicates keeps the total of every column |
| CsrRows.CanonicalUnique | featurehasher/src/featurehasher.cpp:191-213 | a row with increasing columns is determined by its columns and their totals, so map and sort order cannot matter |
| CsrRows.SumRowIdempotent | featurehasher/src/featurehasher.cpp:187-216 | summing twice is summing once |
| CsrRows.OverwritingIsSumming | featurehasher/src/featurehasher.cpp:228-242 | after summing, writing cells by overwriting gives the dense row of totals |
| CsrRows.OverwritingExactly | featurehasher/src/featurehasher.cpp:235-238 | for any row: overwriting gives its column totals if and only if, in each column, the cells before the last one cancel out |
| CsrRows.DistinctOverwritable | featurehasher/src/featurehasher.cpp:235-238 | a row of distinct columns, sorted or not, may be overwritten |
| CsrRows.PositiveOverwriting | featurehasher/src/featurehasher.cpp:235-238 | with positive values overwriting is right if and only if no column comes twice |
| CsrRows.OverwritingAloneIsWrong | featurehasher/src/featurehasher.cpp:235-238 | a row with a repeated column on which it goes wrong |
| CsrRows.StartsMonotone | featurehasher/src/featurehasher.cpp:183-215 | row starts grow from 0 to the number of cells |
| CsrRows.RowSlice | featurehasher/src/featurehasher.cpp:188-189 | the cells between two starts are exactly the row |
| CsrMatrices.SortByColumn | featurehasher/src/featurehasher.cpp:206-207 | the sort yields the same cells, as a multiset, in increasing columns |
| CsrMatrices.MapCells | featurehasher/src/featurehasher.cpp:200-204 | in whatever order the map is walked, every column comes out once, with its total |
| CsrMatrices.SortedCellsAreSumRow | featurehasher/src/featurehasher.cpp:191-213 | those cells, sorted, are the canonical row |
| CsrMatrices.CsrMatrix.CanonicalRow | featurehasher/src/featurehasher.cpp:187-207 | accumulating into a map, listing and sorting gives the canonical row |
| CsrMatrices.CsrMatrix.SumDuplicatesAndSort | featurehasher/src/featurehasher.cpp:175-222 | the three vectors hold the canonical rows afterwards, with their starts |
| CsrMatrices.CsrMatrix.FillRow | featurehasher/src/featurehasher.cpp:231-239 | one row is written to its place and nothing else |
| CsrMatrices.CsrMatrix.ToDense | featurehasher/src/featurehasher.cpp:228-242 | the output is all rows written by overwriting, row after row |
| CsrMatrices.OverwrittenIsDense | featurehasher/src/featurehasher.cpp:228-242 | which for canonical rows is dense summation of the original ones |
| CsrMatrices.OverwrittenExactly | featurehasher/src/featurehasher.cpp:228-242 | without canonicalising, the whole matrix comes out right if and only if every row may be overwritten |
| FeatureHashing.ColumnIsModulus | featurehasher/src/featurehasher.cpp:92-98 | the special case for INT32_MIN lands where the absolute value would: the column is the absolute hash modulo the size, for every hash and every size up to 2^31 |
| FeatureHashing.EncodeSums | featurehasher/src/featurehasher.cpp:72-116 | the column totals of the pushed cells are the bucket totals of the sample, skipped zero values included |
| FeatureHashing.DenseIsBuckets | featurehasher/src/featurehasher.cpp:131-168 | dense summation of all pushed rows is the buckets of all samples |
| FeatureHashing.BucketsAt | featurehasher/src/featurehasher.cpp:237 | bucket c of sample r is at row-major position |
| FeatureHashing.CStringWhole | featurehasher/src/featurehasher.cpp:82 | a name is hashed whole if and only if it has no NUL |
| FeatureHashing.CStringEnds | featurehasher/src/featurehasher.cpp:82 | a C string has no NUL, and a NUL or the end of the buffer follows it |
| FeatureHashing.Strlen | featurehasher/src/featurehasher.cpp:82 | the name ends before its first NUL |
| FeatureHashers.PushValue | featurehasher/src/featurehasher.cpp:107-114 | the buffer doubles when full: its size stays a power of two, old values stay, the new one is stored |
| FeatureHashers.PushedCell | featurehasher/src/featurehasher.cpp:100-114 | pushing index and value extends the open sample by one cell and keeps everything closed |
| FeatureHashers.PushedSample | featurehasher/src/featurehasher.cpp:124-129 | closing a sample appends its row |
| FeatureHashers.FeatureHasher.Start | featurehasher/src/featurehasher.cpp:57-70 | the first `size` cells are cleared, no other; after a reset the hasher holds nothing, without one the old indices and row starts stay |
| FeatureHashers.FeatureHasher.Reduce | featurehasher/src/featurehasher.cpp:72-116 | one feature, cut at its first NUL, joins the open sample; the vectors stay consistent and as large as needed |
| FeatureHashers.FeatureHasher.ReduceString | featurehasher/src/featurehasher.cpp:118-122 | a string value counts as 1 |
| FeatureHashers.FeatureHasher.FinalizeSample | featurehasher/src/featurehasher.cpp:124-129 | the open sample is closed |
| FeatureHashers.FeatureHasher.Finalize | featurehasher/src/featurehasher.cpp:131-168 | the closed samples' bucket totals replace exactly their range of the output; features after the last closed sample contribute nothing in multi-sample mode |
| HasherRuns.RunHasher | featurehasher/src/featurehasher.cpp:57-168 | any run from reset to finalize, with any commands and parameters: the bucket totals under MurmurHash3 with the given seed, and every other cell as it was |
| HasherRuns.WroteBucket | featurehasher/src/featurehasher.cpp:57-168 | cell by cell: output (r, c) is the total of signed values of the features of sample r whose absolute hash modulo size is c |
| HashingFast.Transform | featurehasher/include/efe/featurehasher/hashing_fast.h:38-118 | the batch reference yields the rows of its samples, names with string values joined by = |
| HashingFast.JoinedName | featurehasher/include/efe/featurehasher/hashing_fast.h:63-69 | a text value is hashed as the name, byte 61 and the text, and counts one |
| HashingFast.StreamMatchesBatch | featurehasher/src/featurehasher.cpp:72-143 | for names without NUL the streaming hasher's three vectors equal the batch ones, although the buffers grow differently |
| Bytes.BinsAddUp | common/src/bytecounter.cpp:13-18 | bins that cover all values add up to the number of bytes |
| Bytes.CountIsNumber | common/src/bytecounter.cpp:13-18 | a count is the cardinality of the positions that hold the byte |
| Bytes.BinTotalIsNumber | common/src/bytecounter.cpp:13-18 | adding up bins gives the number of bytes in their range |
| ByteReducers.ByteCounter.Reduce | common/src/bytecounter.cpp:13-18 | after any blocks each bin is the count of its byte in everything seen |
| ByteReducers.ByteCatcher.WantByteAtOffset | common/src/bytecatcher.cpp:9-11 | asking for an offset twice changes nothing; a new offset holds 0, which is its byte unless it has been passed already and is not 0 there |
| ByteReducers.ByteCatcher.Start | common/src/bytecatcher.cpp:13-21 | no wanted offset exceeds the maximum found |
| ByteReducers.ByteCatcher.Reduce | common/src/bytecatcher.cpp:23-37 | each wanted offset holds the byte of the file there, or 0 when it has not been reached, despite the early exit |
| SlidingWindows.WindowFits | common/src/slidingbytewindow.cpp:52-75 | how many windows there are: window k exists if and only if k * step + window bytes do |
| SlidingWindows.EmittedAll | common/src/slidingbytewindow.cpp:52-75 | the calls made while reducing, with the last one in finalize, are all complete windows in order, once each |
| SlidingWindows.SlidingByteWindow.Reduce | common/src/slidingbytewindow.cpp:52-68 | for every way to cut the input: the buffer is what arrived from a known start on, never longer than a window, and the loop ends |
| SlidingWindows.SlidingByteWindow.FillOrSlide | common/src/slidingbytewindow.cpp:55-67 | each round takes bytes or makes the full buffer smaller |
| SlidingWindows.SlidingByteWindow.Finalize | common/src/slidingbytewindow.cpp:70-75 | the callback has been called with exactly the windows of the input |
| EntropyBins.AddBlockSum | core/src/f_byte_entropy_histogram.cpp:77-103 | a block adds to cells of one row only: the sum over the first n cells, for every n |
| EntropyBins.CellsConserve | core/src/f_byte_entropy_histogram.cpp:77-103 | the 256 cells add up to the bytes of all blocks |
| EntropyBins.NibbleCountIsRange | core/src/f_byte_entropy_histogram.cpp:81-85 | the count for high nibble i is the number of bytes from 16 * i to 16 * i + 15 |
| EntropyBins.RowInNumbers | core/src/f_byte_entropy_histogram.cpp:94-99 | with h the entropy of the block, the row is 0 below 4 * h = 1, 15 from 4 * h = 15 on, and otherwise the only one with row <= 4 * h < row + 1 |
| EntropyBins.AddBlockCell | core/src/f_byte_entropy_histogram.cpp:99-102 | what a block adds to each of the 256 cells, in numbers |
| EntropyBins.CellIsRowTotal | core/src/f_byte_entropy_histogram.cpp:77-103 | cell 16 * row + i is the number of bytes with high nibble i in the blocks whose entropy selects the row |
| EntropyBins.WindowCallback.Begin | core/src/f_byte_entropy_histogram.cpp:33-41 | the slice is cleared and nothing else |
| EntropyBins.WindowCallback.Call | core/src/f_byte_entropy_histogram.cpp:47-51 | the slice holds the cells of all windows so far; cells outside it keep their values |
| EntropyBins.WindowCallback.WriteEntropyBinCounts | core/src/f_byte_entropy_histogram.cpp:77-103 | the counts of high nibbles go to the row of the clamped entropy bin |
| ByteEntropy.CellTotal | core/src/f_byte_entropy_histogram.cpp:53-62 | before normalisation the cells add up to 2048 per complete window, or to the file size below 2048 bytes |
| ByteEntropy.BlocksInNumbers | core/include/efe/core/f_byte_entropy_histogram.h:12-14 | a file of n >= 2048 bytes has (n - 2048) / 1024 + 1 blocks, block k being the 2048 bytes from 1024 * k on; a shorter one is one block |
| ByteEntropy.HistogramCell | core/src/f_byte_entropy_histogram.cpp:53-72 | every cell of the final histogram in numbers: bytes of that nibble and row over the bytes of all blocks |
| ByteEntropy.EmptyFileCells | core/src/f_byte_entropy_histogram.cpp:56-66 | on an empty file every cell is 0 |
| ByteEntropy.HistogramTotal | core/src/f_byte_entropy_histogram.cpp:64-71 | after it they add up to 1, unless the file is empty |
| ByteEntropy.NormaliseCells | core/src/f_byte_entropy_histogram.cpp:64-71 | each cell is divided by the sum, in place; a zero sum leaves them alone |
| ByteEntropy.ByteEntropyHistogram.Start | core/src/f_byte_entropy_histogram.cpp:33-41 | whatever the object held, it has seen nothing of the new file |
| ByteEntropy.ByteEntropyHistogram.Reduce | core/src/f_byte_entropy_histogram.cpp:43-45 | it has seen one more block |
| ByteEntropy.ByteEntropyHistogram.Finalize | core/src/f_byte_entropy_histogram.cpp:53-72 | the slice is the histogram of the whole file, however it was cut, short files included; no other cell changes |
| BlockStreams.ChunksConcat | core/src/core.cpp:45-55 | the blocks, put together, are the file |
| BlockStreams.ChunkAt | common/src/memoryblockstream.cpp:22-30 | block k begins at k times the block size and is full unless it is the last one |
| BlockStreams.MemoryBlockStream.StartReading | common/src/blockstream.cpp:11-20 | a stream starts once and not with size 0; a null buffer is reported although the stream counts as started |
| BlockStreams.MemoryBlockStream.StopReading | common/src/blockstream.cpp:22-28 | only a started stream is stopped, and it forgets its buffer |
| BlockStreams.MemoryBlockStream.ReadNext | common/src/blockstream.cpp:30-45 | the next block is copied out at contiguous offsets; the number of bytes left never wraps; an ended stream stays ended |
| BlockStreams.MemoryBlockStream.DoReadNext | common/src/memoryblockstream.cpp:22-30 | the smaller of block size and rest is copied |
| ReadableStrings.FindAndConsume | core/src/f_string_extractor.cpp:26 | leftmost and longest, in numbers: a match consists of bytes from 0x20 to 0x7f, no five of them in a row begin before it, and it cannot be longer |
| ReadableStrings.ConsumeStep | core/src/f_string_extractor.cpp:167 | a match is the first string, and the strings of the rest are the other ones |
| ReadableStrings.MaximalRunFound | core/src/f_string_extractor.cpp:167-171 | every maximal run of at least five bytes from 0x20 to 0x7f is found, in its place |
| ReadableStrings.StringsAreRuns | core/src/f_string_extractor.cpp:26 | every string found is a maximal run of at least five bytes from 0x20 to 0x7f, so nothing else is found |
| ReadableStrings.JoinStatistics | core/src/f_string_extractor.cpp:160-181 | searching two blocks apart finds the same strings unless a run is cut; if one is, bytes are missed or there is one string more |
| ReadableStrings.BlockStatistics | core/src/f_string_extractor.cpp:160-181 | the same for any number of blocks: block by block never finds more bytes |
| ReadableStrings.NoCutsNoStraddle | core/src/f_string_extractor.cpp:160-181 | a cut is five printable bytes of the file across a boundary |
| ReadableStrings.BlockwiseSearch | core/src/f_string_extractor.cpp:160-181 | number and total length of the strings are those of the whole file if and only if no five printable bytes lie across a boundary, and then the strings are the same |
| StringExtractors.HitsCount | core/src/f_string_extractor.cpp:173-178 | a byte counter fed with pattern numbers counts the strings that match each pattern |
| StringExtractors.FoundConsistent | core/src/f_string_extractor.cpp:167-171 | for every split, total length = counted bytes = sum of the 96 bins >= 5 times the number of strings |
| StringExtractors.SliceParts | core/src/f_string_extractor.cpp:183-229 | the 177 cells are three totals, 96 shares, an entropy and 77 counts, in this order |
| StringExtractors.AverageInNumbers | core/src/f_string_extractor.cpp:194-198 | the mean length times the number of strings is the number of their bytes; without strings it is 0 |
| StringExtractors.ReadableShare | core/src/f_string_extractor.cpp:205-217 | cell 3 + i times the number of bytes found is the number of bytes 0x20 + i among them; without strings it is 0 |
| StringExtractors.ReadableEntropy | core/src/f_string_extractor.cpp:219-221 | cell 99 is the entropy of those 96 counts |
| StringExtractors.PatternCell | core/src/f_string_extractor.cpp:223-227 | cell 100 + i is the number of strings found that match pattern i |
| StringExtractors.StringExtractor.Reset | core/src/f_string_extractor.cpp:148-153 | nothing is left of an earlier file |
| StringExtractors.StringExtractor.Reduce | core/src/f_string_extractor.cpp:160-181 | a block adds exactly its strings, and all counters follow |
| StringExtractors.StringExtractor.Finalize | core/src/f_string_extractor.cpp:183-229 | the 177 cells as a function of the strings found; no other cell changes |
| GeneralInfo.GeneralFileInfo.Reset | core/src/f_general_file_info.cpp:15-22 | nothing is left of an earlier file and the first four offsets are wanted |
| GeneralInfo.GeneralFileInfo.Reduce | core/src/f_general_file_info.cpp:30-34 | counter and catcher have seen one more block |
| GeneralInfo.HeaderCells | core/src/f_general_file_info.cpp:42-48 | size, entropy of the 256 byte counts, and 1 or 0 for whether the file parses |
| GeneralInfo.FirstByteCell | core/src/f_general_file_info.cpp:50-59 | cells 3 to 6 hold the first four bytes, 0 past the end of the file |
| GeneralInfo.ShareTimesSize | core/src/f_general_file_info.cpp:61-64 | on a nonempty file cell 7 + b times the size is the number of bytes b |
| GeneralInfo.SharesAddUp | core/src/f_general_file_info.cpp:61-64 | on a nonempty file cells 7 to 262 add up to 1 |
| GeneralInfo.GeneralFileInfo.Finalize | core/src/f_general_file_info.cpp:36-65 | the 263 cells as a function of the file; no other cell changes |
| ImportsInfos.CountsAreTotals | core/src/f_imports_info.cpp:64-93 | the counts of libraries and functions in the slice are the totals of its two histograms |
| ImportsInfos.LibraryAt | core/src/f_imports_info.cpp:69-71 | the sample of libraries has one feature of value 1 per library, under its name |
| ImportsInfos.FunctionsAt | core/src/f_imports_info.cpp:74-83 | the sample of a library has one feature of value 1 per function, under the name of the library, byte 58 and the name of the function |
| ImportsInfos.FunctionsByLibrary | core/src/f_imports_info.cpp:69-87 | the sample of functions is those of the libraries one after the other |
| ImportsInfos.SliceParts | core/src/f_imports_info.cpp:16-30 | the slice is two counts, 256 buckets of libraries and 1024 buckets of functions, with seed 0 and without alternating signs |
| ImportsInfos.BuildName | core/src/f_imports_info.cpp:75-81 | the name under which a function is hashed: behind the library, its own name cut to 10000 bytes and at a NUL, or one made from its ordinal |
| ImportsInfos.ImportsInfo.FeedFunction | core/src/f_imports_info.cpp:74-86 | one function joins the sample under the name built for it |
| ImportsInfos.ImportsInfo.FeedFunctions | core/src/f_imports_info.cpp:74-86 | the functions of a library join the sample and are counted |
| ImportsInfos.ImportsInfo.FeedAll | core/src/f_imports_info.cpp:69-87 | the samples of both hashers and the number of functions after all libraries |
| ImportsInfos.ImportsInfo.Start | core/src/f_imports_info.cpp:46-96 | all 1282 cells are written, as a function of the imports, or with zeros when there is no import directory; no other cell changes, and nothing depends on earlier files |
| HasherSlices.BucketsAddUp | core/src/f_imports_info.cpp:52-62 | without alternating signs the buckets of a hasher add up to the number of features |
| HasherSlices.StartHasher | core/src/f_imports_info.cpp:52-56 | whatever a hasher held, it has seen nothing, and only its part of the output is cleared |
| HasherSlices.FinishHasher | core/src/f_imports_info.cpp:89-90 | its part of the output holds the bucket totals of its sample; no other cell changes |
| HashedNames.PlainNameWhole | core/src/f_exports_info.cpp:50-57 | the name of a function, cut or made from its ordinal, has no NUL left and is hashed whole |
| HashedNames.DecimalValue | core/src/f_imports_info.cpp:80 | reading the decimal digits of a number gives the number back |
| HashedNames.DecimalDigits | core/src/f_imports_info.cpp:80 | there are only digits, and no leading zero |
| HashedNames.DecimalUnique | core/src/f_imports_info.cpp:80 | every string of digits without a leading zero is the one made from its value, so the two are inverse |
| HashedNames.OrdinalName | core/src/f_exports_info.cpp:54-55 | a function without a name is called ordinal, followed by digits that read as its number |
| HashedNames.LongestName | core/src/f_exports_info.cpp:51-52 | any other name is the longest beginning of at most 10000 bytes without a NUL |
| ExportsInfos.BuildName | core/src/f_exports_info.cpp:50-57 | the name under which an exported function is hashed |
| ExportsInfos.ExportedAt | core/src/f_exports_info.cpp:49-58 | the sample has one feature of value 1 per exported function, under its name |
| ExportsInfos.SliceCells | core/src/f_exports_info.cpp:41-66 | the slice is the number 128, whatever the number of exports, and 128 buckets with seed 0 and alternating signs |
| ExportsInfos.ExportsInfo.Start | core/src/f_exports_info.cpp:35-67 | all 129 cells are written, as a function of the exports, although the hasher is used again for every file; no other cell changes |
| RichHeaders.PairName | core/src/f_rich_header.cpp:70-74 | the decimal name of a word is hashed whole |
| RichHeaders.DwordBytes | core/src/f_rich_header.cpp:62 | the four bytes of a word can be read off it, the lowest one first |
| RichHeaders.PairAt | core/src/f_rich_header.cpp:69-74 | one feature for every pair, in order |
| RichHeaders.PairInNumbers | core/src/f_rich_header.cpp:69-74 | pair k in terms of the eight bytes from 8 * k on: its name reads as the first word, its value is the second one |
| RichHeaders.SliceCells | core/src/f_rich_header.cpp:55-76 | the slice is the number of pairs less three, at least 0, and 32 buckets with seed 0 and alternating signs |
| RichHeaders.NoPairs | core/src/f_rich_header.cpp:50-53 | a header shorter than eight bytes leaves zeros |
| RichHeaders.FeedPair | core/src/f_rich_header.cpp:70-74 | a pair of little-endian words joins the sample: the first one as a decimal number, the second one as its value |
| RichHeaders.Start | core/src/f_rich_header.cpp:33-77 | all 33 cells are written, as a function of the header's bytes, on the early returns too; no other cell changes |
| Sections.LargestIsMaximum | core/src/f_section_info.cpp:207-232 | a running maximum is the greatest of its start and the values of all sections |
| Sections.SmallestIsMinimum | core/src/f_section_info.cpp:208-233 | a running minimum is the least of them |
| Sections.EntrySectionMeaning | core/src/f_section_info.cpp:247-273 | the entry section is the last one that contains the entry point; if none does, the first executable one; otherwise there is none |
| Sections.ContainsInNumbers | pefile/src/section.cpp:8-11 | a section contains an address at or behind its beginning if it lies before the virtual or the raw end; an end of 65 bits wraps around |
| Sections.MeasuredSamples | core/src/f_section_info.cpp:126-128 | the three samples pair each section name, cut at a NUL, with raw size, virtual size and entropy |
| Sections.FlagsAt | core/src/f_section_info.cpp:129-136 | a section contributes one feature of value 1 per characteristic, under its name, byte 58 and the name of the characteristic |
| Sections.FlagsBySection | core/src/f_section_info.cpp:129-136 | the sample of characteristics is those of the sections one after the other |
| Sections.CountCells | core/src/f_section_info.cpp:276-280 | cells 0 to 4: the number of sections, and how many have raw size 0, an empty name, both bits 0x40000000 and 0x20000000, and bit 0x80000000 |
| Sections.ExtremeCells | core/src/f_section_info.cpp:281-286 | cells 5 to 10: greatest and least of 0, the value of the overlay and the values of all sections, for entropy, size ratio and, without the overlay, virtual size ratio |
| Sections.HashedRanges | core/src/f_section_info.cpp:16-43 | which 50 or 10 buckets are made of which sample, with seed 0 and alternating signs |
| Sections.OverlayInNumbers | core/src/f_section_info.cpp:187-205 | the overlay ratio times the file size is the overlay size, and 0 for an empty file; the entropy is that of 256 counts, 0 without an overlay |
| Sections.SliceParts | core/src/f_section_info.cpp:276-291 | the 224 cells are eleven, 210 hashed ones and three about the overlay |
| SectionInfos.AddSection | core/src/f_section_info.cpp:227-261 | one section changes counts, extremes and entry candidates as it does those of the sequence |
| SectionInfos.SectionInfoFeatureHashers.Start | core/src/f_section_info.cpp:94-120 | five hashers on adjoining parts of the slice have seen nothing |
| SectionInfos.SectionInfoFeatureHashers.ReduceFromSection | core/src/f_section_info.cpp:122-137 | a section joins four samples: size, virtual size, entropy and one feature per characteristic |
| SectionInfos.SectionInfoFeatureHashers.Finalize | core/src/f_section_info.cpp:144-151 | the 210 hashed cells; no other cell changes |
| SectionInfos.ReduceAll | core/src/f_section_info.cpp:227-261 | after the pass hashers and totals are those of all sections |
| SectionInfos.EntropyOfOverlay | core/src/f_section_info.cpp:190-202 | a local byte counter yields the entropy of the overlay, 0 for an empty one |
| SectionInfos.WriteSlice | core/src/f_section_info.cpp:223-291 | without clearing anything, eleven cells, five hashers and three cells cover the slice |
| SectionInfos.Start | core/src/f_section_info.cpp:181-292 | all 224 cells are written, as a function of sections, overlay and file size, or with zeros when the file does not parse; no other cell changes |
| StaticFeatureTypes.StaticFeatures.StartFeature | core/src/all_feature_types.cpp:72-80 | each feature that reads no blocks fills its slice and no other cell, whatever its hashers and the slice held |
| StaticFeatureTypes.StaticFeatures.Start | core/src/all_feature_types.cpp:72-80 | the eight of them fill cells 696 to 2567, each its own slice |
| Core.OffsetValues | core/src/all_feature_types.cpp:33-50 | where the slices begin, and that they end at 2568 |
| Core.SlicesTile | core/src/all_feature_types.cpp:63-98 | every cell of the vector lies in exactly one slice |
| Core.ReaderSlices | core/src/all_feature_types.cpp:33-50 | cells 0 to 262, 263 to 518 and 519 to 695 are the general, the entropy and the string feature |
| Core.StaticSlices | core/src/all_feature_types.cpp:33-50 | cells 770 to 993, 994 to 2275, 2276 to 2404 and 2439 to 2471 are sections, imports, exports and rich header, and cells 2480 to 2567 are 0 |
| Core.GetFeatureTypeAndOffsetByName | core/src/all_feature_types.cpp:104-119 | the lookup gives the offset of the passes, of the first type so named, and an error exactly for unknown names |
| Core.BlockSizeIndependence | core/src/core.cpp:45-58 | the vector equals the whole-file one if and only if no five printable bytes lie across a block boundary, for every file and block size |
| Core.BlockSizeMatters | core/src/core.cpp:45-58 | for every block size, a file whose vector differs from the whole-file one |
| Extractors.Extractor.ResetAll | core/src/all_feature_types.cpp:63-70 | every feature forgets earlier files |
| Extractors.Extractor.StartAll | core/src/all_feature_types.cpp:72-80 | all features have seen nothing; writing one slice leaves the others alone |
| Extractors.Extractor.ReduceAll | core/src/all_feature_types.cpp:82-89 | all features have seen the same block; none disturbs another |
| Extractors.Extractor.FinalizeAll | core/src/all_feature_types.cpp:91-98 | the whole vector, slice by slice, as a function of the file |
| Extractors.Extractor.ReadAndReduce | core/src/core.cpp:45-55 | one round of the loop: the features have seen a longer part of the file, and stop exactly at its end |
| Extractors.Extractor.Run | core/src/core.cpp:22-63 | from any earlier state, the vector after a run is a function of the file and the block size alone |
| Extractors.Extractor.RunMany | core/src/core.cpp:22-63 | one object run on any sequence of files gives for each the vector it would give alone |
| Extractors.ExtractAll | core/src/core.cpp:22-63 | the same for a new object, without reference to its state |
| Timestamps.EraIsFloor | common/src/timestamps.cpp:25-26 | truncating division with the correction for negative years is floor division, and the year of the era its remainder |
| Timestamps.Ranges | common/src/timestamps.cpp:26-28 | the documented ranges of yoe, doy and doe |
| Timestamps.OverflowExactly | common/src/timestamps.cpp:12-14 | no signed intermediate value overflows if and only if the day number lies between INT_MIN and INT_MAX - 719468 |
| Timestamps.OverflowByDate | common/src/timestamps.cpp:12-14 | which holds if and only if the date is not before June 23 of -5877641 and not after September 9 of 5879610 |
| Timestamps.FiveMillionYears | common/src/timestamps.cpp:10-14 | no overflow for years up to five million on both sides |
| Timestamps.Epoch | common/src/timestamps.cpp:5-6 | 1970-01-01 is day 0 |
| Timestamps.Successor | common/src/timestamps.cpp:18-30 | the next day of the calendar has the next number, for every date of every year |
| Timestamps.OrderPreserved | common/src/timestamps.cpp:18-30 | day numbers are ordered as dates are, and equal only for equal dates |
| Timestamps.DaysOfWalk | common/src/timestamps.cpp:18-30 | the date reached by n single steps from the epoch, forward or back, has number n: every integer is reached |
| Timestamps.Bijection | common/src/timestamps.cpp:18-30 | a valid date has number n if and only if it is the date reached by n steps |
| Timestamps.TimestampValue | common/src/timestamps.cpp:35-47 | a timestamp is exact from the epoch on and larger by 2^64 before it |
| Timestamps.TimestampOrder | common/src/timestamps.cpp:35-47 | for dates in that range an earlier time has a smaller timestamp if and only if the two do not lie on different sides of the epoch |
| Timestamps.LastSecondBeforeEpoch | common/src/timestamps.cpp:46 | two times one second apart of which the earlier one has the larger timestamp |
| Timestamps.TimestampIsStandard | common/src/timestamps.cpp:35-47 | from 1970 on the timestamp is the expression of section 4.16, Seconds Since the Epoch, of IEEE Std 1003.1-2017, Base Definitions |
| RecencyLists.ReachedDistinct | caching/include/caching/lru_cache.h:18-40 | after every trace keys are distinct and the capacity is kept |
| RecencyLists.EntryIsLatestPut | caching/include/caching/lru_cache.h:18-40 | after every trace each entry holds the value of the latest put of its key |
| RecencyLists.ReachedOrdered | caching/include/caching/lru_cache.h:18-40 | after every trace the list is ordered by last use, where a missed get is no use |
| RecencyLists.Eviction | caching/include/caching/lru_cache.h:31-39 | a key leaves if and only if a new key is put into a full cache and it was used before all others |
| RecencyLists.StackInclusion | caching/include/caching/lru_cache.h:18-40 | after every trace the list of a smaller cache is a subsequence of that of a larger one |
| RecencyLists.HitsIncluded | caching/include/caching/lru_cache.h:18-24 | every hit of the smaller cache is a hit of the larger one, with the same value |
| RecencyLists.NotAPrefix | caching/include/caching/lru_cache.h:20 | the lists need not be prefixes of each other: a concrete trace |
| LruCaches.LruCache.Get | caching/include/caching/lru_cache.h:18-24 | splicing the node to the front is the recency list's get; on a miss the value is left alone; list and index stay consistent |
| LruCaches.LruCache.Put | caching/include/caching/lru_cache.h:26-40 | updating in place, evicting the last node and inserting in front are the recency list's put; list and index stay consistent |
| LruCaches.LruCache.MoveToFront | caching/include/caching/lru_cache.h:21-30 | the splice moves one node and keeps the order of the others |
| LruCaches.Replay | caching/include/caching/lru_cache.h:14-46 | a new cache answers every get of every trace as the recency lists do |
| LkLists.InsertedLinked | lklist/src/lklist.c:124-146 | neighbours that make room for a node give a well-linked sequence with the node in its place |
| LkLists.RemovedLinked | lklist/src/lklist.c:151-165 | neighbours that close up give a well-linked sequence without the node |
| LkLists.LkList.Insert | lklist/src/lklist.c:117-149 | inserting in front of a node, or at NULL at the end, splices there and nowhere else; in an empty list the position is ignored |
| LkLists.LkList.Remove | lklist/src/lklist.c:151-172 | exactly the given node is taken out |
| LkLists.LkList.Locate | lklist/src/lklist.c:74-90 | the node at a position, NULL behind the end, the head for a negative position |
| LkLists.LkList.Next | lklist/src/lklist.c:174-179 | the cursor moves to the next node and reports the end |
| LkLists.LkList.Find | lklist/src/lklist.c:181-193 | the first element that satisfies the predicate, or -1 when none does |
| LkLists.LkList.IndexOf | lklist/src/lklist.c:195-207 | the first equal element, or -1 exactly when there is none |
| LkLists.LkList.CopyToArray | lklist/src/lklist.c:237-246 | the elements in order, and nothing behind them |
| LkLists.LkList.Chains | lklist/src/lklist.c:37-48 | next from the head and prev from the tail meet the same nodes in opposite order, and end after `size` of them |
| LkLists.RunScript | lklist/src/lklist.c:74-172 | after every sequence of insertions and removals the list holds what the same steps make of a sequence |
| HasherExample.ExpectedOutput | tests/src/featurehasher/featurehasher.test.cpp:30-57 | known answer: any run of the test's four keys in two samples, with ten buckets and alternating signs, leaves exactly the expected twenty cells |
| Murmur128x86Answer.KnownDigest | murmur3/src/murmur3.c:154-255 | known answer: the digest of the bytes 1 to 31 under a seed other than 0 |
| Murmur128x64Answer.KnownDigest | murmur3/src/murmur3.c:259-336 | known answer: the same for the 64-bit variant |
| ReadableStrings.HelloWorld | core/src/f_string_extractor.cpp:26 | known answer: two words with a space between them are one string |
| LkLists.Demonstration | lklist/src/lklist.c:280-289 | known answer: the sequences the list's demonstration prints |

## Left out

- PE parsing: LIEF and the authenticode parser are not part of this model. `Core.Parser` stands for what they yield, as functions of the file's bytes: whether it parses, sections, imports, exports, the rich header, and the contents of three slices.
- StaticFeatureTypes.StaticFeatures.StartFeature: header, datadirectories and authenticode are copies of parsed fields into a cleared slice; that they write all of it is taken for granted.
- Sections.FlagName: the table that names section characteristics; the names come with the section.
- RE2: the readable-run expression has a direct leftmost-longest specification, and the 77 interesting patterns are an arbitrary predicate.
- Floating point: rounding, overflow and NaN, and the mix of float and double.
- Shannon entropy: its value; it is an arbitrary function of counts and total.
- GeneralInfo.GeneralFileInfo.Finalize: on an empty file the code writes NaN, zero divided by zero; here these cells hold one unknown real number.
- Extractors.Extractor.Run: takes the file from memory; opening, mapping and error codes are left out, and the buffer of 4 MB becomes a buffer of any positive size.
- Extractors.Extractor.ResetAll: calls the features one by one where the source loops over objects of a common base class.
- SlidingWindows.SlidingByteWindow.Start: an unset size, step or callback and a step above the window end the program; here they are preconditions. The callback is the one class that is used, instead of any function.
- BlockStreams.MemoryBlockStream.ReadNext: base class and memory source are one class; position arithmetic is unbounded.
- FeatureHashers.FeatureHasher.Start: an unset output or size ends the program; both are preconditions here. What follows a start without reset, or a size above 2^31, for which column indices do not fit, is not stated.
- FeatureHashers.FeatureHasher.Reduce: names of 2^31 bytes or more, whose length is not an int, are excluded.
- FeatureHashers.FeatureHasher.Finalize: an output too short for all samples is excluded; the log message for no samples is left out.
- ImportsInfos.ImportsInfo.Start: names to be hashed of 2^31 bytes or more are excluded, as they are for sections.
- LruCaches.LruCache.Get: capacity 0 is excluded; the code then takes the last node of an empty list. The hash function of the index is left out.
- CachedFunction: it expects a get with another signature, so it does not fit the cache as written.
- LkLists.LkList.Remove: releasing the node and the element callback are left out.
- LkLists.LkList.Clear: empties the list only; which nodes are released is not stated.
- LkLists.LkList.IndexOf: elements are compared as values, not as bytes, and positions are not limited to an int.
- Timestamps.TimestampOrder: times that do not exist, such as month 13 or second 60, are excluded.
- The field copies of those three feature types and their constant tables: they would only add easy members.
- Command-line programs, the C interface, logging and iconv.
