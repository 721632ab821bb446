/** The driver: reset and start every feature, feed the file block by block, finalize. */
module Extractors {
  import opened Bytes
  import opened BlockStreams
  import opened OutputSlices
  import opened Core
  import opened StaticFeatureTypes
  import EntropyBins
  import ReadableStrings
  import GeneralInfo
  import ByteEntropy
  import StringExtractors

  class Extractor {
    const general: GeneralInfo.GeneralFileInfo
    const byteEntropy: ByteEntropy.ByteEntropyHistogram
    const strings: StringExtractors.StringExtractor
    const statics: StaticFeatures
    const parser: Parser
    const buf: array<Byte>
    const output: array<real>

    constructor (shannon: EntropyBins.Entropy, matcher: StringExtractors.Matcher, parser: Parser, blockSize: nat)
      requires blockSize > 0 && ValidParser(parser)
      ensures Separate()
      ensures fresh(general.Repr()) && fresh(byteEntropy.Parts()) && fresh(strings.Parts()) && fresh(statics.Repr())
      ensures fresh(buf) && fresh(output)
      ensures general.shannon == byteEntropy.callback.shannon == strings.shannon == shannon
      ensures strings.matcher == matcher && this.parser == parser && buf.Length == blockSize
    {
      var g := new GeneralInfo.GeneralFileInfo(shannon);
      var e := new ByteEntropy.ByteEntropyHistogram(shannon);
      var s := new StringExtractors.StringExtractor(shannon, matcher);
      var f := new StaticFeatures();
      assert g.Repr() !! e.Parts() !! s.Parts() !! f.Repr();
      var block := new Byte[blockSize](_ => 0);
      var features := new real[NUM_FEATURES];
      assert {block as object, features as object} !! g.Repr() + e.Parts() + s.Parts() + f.Repr();
      general, byteEntropy, strings, statics := g, e, s, f;
      this.parser, buf, output := parser, block, features;
    }

    /** The eight slices of the features that do not read blocks. */
    ghost function Static(file: seq<Byte>): seq<real>
      requires ValidParser(parser)
    {
      StaticRows(strings.shannon, parser, file, |DIMS|)
    }

    /** No object is shared between two feature types. */
    ghost predicate Separate() {
      && general.Repr() !! byteEntropy.Parts() !! strings.Parts() !! statics.Repr() !! {buf as object, output as object}
      && statics.Distinct()
      && general.byteCounter.byteCounts.Length == 256
      && byteEntropy.callback.byteCounter.byteCounts.Length == 256
      && strings.Separate()
      && general.shannon == byteEntropy.callback.shannon == strings.shannon
      && ValidParser(parser)
      && buf.Length > 0 && output.Length == NUM_FEATURES
    }

    ghost function Vector(file: seq<Byte>): seq<real>
      requires buf.Length > 0 && ValidParser(parser)
    {
      FeatureVector(strings.shannon, strings.matcher, parser, file, buf.Length)
    }

    ghost predicate ReadingGeneral(seen: seq<Byte>)
      reads general.Repr()
    {
      general.Running(seen)
    }

    ghost predicate EntropyStarted(seen: seq<Byte>)
      reads byteEntropy.Parts(), output, byteEntropy.slidingByteWindow.callback, byteEntropy.callback.Repr()
    {
      && byteEntropy.Running() && byteEntropy.slidingByteWindow.input == seen
      && byteEntropy.callback.output == output && byteEntropy.callback.base == 263
    }

    ghost predicate ReadingEntropy(file: seq<Byte>, seen: seq<Byte>)
      requires ValidParser(parser)
      reads byteEntropy.Parts(), output, byteEntropy.slidingByteWindow.callback, byteEntropy.callback.Repr()
    {
      && EntropyStarted(seen)
      && HoldsAt(output[..], 696, Static(file))
    }

    ghost predicate ReadingStrings(blocks: seq<seq<Byte>>)
      reads strings.Parts()
    {
      strings.Running() && strings.found == ReadableStrings.Found(blocks)
    }

    /** What holds between two blocks: every reducer has seen the same part of the file, and
        the slices of the other features are already written. */
    ghost predicate Reading(file: seq<Byte>, seen: seq<Byte>, blocks: seq<seq<Byte>>)
      reads general.Repr(), byteEntropy.Parts(), strings.Parts(), output
      reads byteEntropy.slidingByteWindow.callback, byteEntropy.callback.Repr()
    {
      Separate() && ReadingGeneral(seen) && ReadingEntropy(file, seen) && ReadingStrings(blocks)
    }

    method ResetAll()
      requires Separate()
      modifies general.Repr(), byteEntropy.slidingByteWindow, strings.Parts()
      ensures general.Wanting([])
      ensures byteEntropy.slidingByteWindow.callback == byteEntropy.callback
      ensures byteEntropy.slidingByteWindow.windowSize == ByteEntropy.WINDOW_SIZE
      ensures byteEntropy.slidingByteWindow.step == ByteEntropy.WINDOW_STEP
      ensures strings.Running() && strings.found == []
    {
      general.Reset();
      byteEntropy.Reset();
      strings.Reset();
    }

    method StartAll(file: seq<Byte>)
      requires Separate()
      requires general.Wanting([])
      requires byteEntropy.slidingByteWindow.callback == byteEntropy.callback
      requires byteEntropy.slidingByteWindow.windowSize == ByteEntropy.WINDOW_SIZE
      requires byteEntropy.slidingByteWindow.step == ByteEntropy.WINDOW_STEP
      requires strings.Running() && strings.found == []
      modifies general.byteAtOffsetCatcher, byteEntropy.slidingByteWindow, byteEntropy.callback, output
      modifies statics.Repr()
      ensures Reading(file, [], [])
    {
      StartReaders();
      StartStatic(file);
    }

    method StartReaders()
      requires Separate()
      requires general.Wanting([])
      requires byteEntropy.slidingByteWindow.callback == byteEntropy.callback
      requires byteEntropy.slidingByteWindow.windowSize == ByteEntropy.WINDOW_SIZE
      requires byteEntropy.slidingByteWindow.step == ByteEntropy.WINDOW_STEP
      requires strings.Running() && strings.found == []
      modifies general.byteAtOffsetCatcher, byteEntropy.slidingByteWindow, byteEntropy.callback, output
      ensures ReadingGeneral([]) && EntropyStarted([]) && ReadingStrings([])
    {
      general.Start();
      byteEntropy.Start(output, 263);
    }

    method StartStatic(file: seq<Byte>)
      requires Separate()
      requires ReadingGeneral([]) && EntropyStarted([]) && ReadingStrings([])
      modifies output, statics.Repr()
      ensures Reading(file, [], [])
    {
      ghost var middle := output[..];
      statics.Start(strings.shannon, parser, file, output);
      SliceUnchanged(middle, output[..], 263, 256, 696, 1872);
    }

    method ReduceAll(ghost file: seq<Byte>, ghost seen: seq<Byte>, ghost blocks: seq<seq<Byte>>,
                     bufOffset: nat, block: seq<Byte>)
      requires Reading(file, seen, blocks) && bufOffset == |seen|
      modifies general.Repr(), strings.Parts(), byteEntropy.slidingByteWindow
      modifies byteEntropy.callback`withCompleteWindowCalled, byteEntropy.callback`blocks, byteEntropy.callback.Repr()
      ensures Reading(file, seen + block, blocks + [block])
    {
      ReduceGeneral(file, seen, blocks, bufOffset, block);
      ReduceEntropy(file, seen, seen + block, blocks, block);
      ReduceStrings(file, seen + block, blocks, block);
    }

    method ReduceGeneral(ghost file: seq<Byte>, ghost seen: seq<Byte>, ghost blocks: seq<seq<Byte>>,
                         bufOffset: nat, block: seq<Byte>)
      requires Separate() && bufOffset == |seen|
      requires ReadingGeneral(seen) && ReadingEntropy(file, seen) && ReadingStrings(blocks)
      modifies general.Repr()
      ensures ReadingGeneral(seen + block) && ReadingEntropy(file, seen) && ReadingStrings(blocks)
    {
      general.Reduce(seen, bufOffset, block);
    }

    method ReduceEntropy(ghost file: seq<Byte>, ghost seen: seq<Byte>, ghost after: seq<Byte>,
                         ghost blocks: seq<seq<Byte>>, block: seq<Byte>)
      requires Separate()
      requires ReadingGeneral(after) && ReadingEntropy(file, seen) && ReadingStrings(blocks)
      modifies byteEntropy.slidingByteWindow
      modifies byteEntropy.callback`withCompleteWindowCalled, byteEntropy.callback`blocks, byteEntropy.callback.Repr()
      ensures ReadingGeneral(after) && ReadingEntropy(file, seen + block) && ReadingStrings(blocks)
    {
      ghost var before := output[..];
      byteEntropy.Reduce(block);
      HoldsKept(before, output[..], 696, Static(file), 263, 256);
    }

    method ReduceStrings(ghost file: seq<Byte>, ghost seen: seq<Byte>, ghost blocks: seq<seq<Byte>>, block: seq<Byte>)
      requires Separate()
      requires ReadingGeneral(seen) && ReadingEntropy(file, seen) && ReadingStrings(blocks)
      modifies strings.Parts()
      ensures ReadingGeneral(seen) && ReadingEntropy(file, seen) && ReadingStrings(blocks + [block])
    {
      strings.Reduce(block);
      FoundSnoc(blocks, block);
    }

    /** The slices of the general feature and of the features that do not read blocks. */
    ghost predicate OuterSlices(file: seq<Byte>)
      requires ValidParser(parser)
      reads output
    {
      && HoldsAt(output[..], 0, GeneralInfo.Features(general.shannon, parser.isPE(file), file))
      && HoldsAt(output[..], 696, Static(file))
    }

    ghost predicate EntropySlice(file: seq<Byte>)
      reads output
    {
      HoldsAt(output[..], 263, ByteEntropy.Histogram(byteEntropy.callback.shannon, file))
    }

    /** Writing cells in front of 696 and behind 263 keeps the outer slices. */
    lemma OuterSlicesKept(file: seq<Byte>, before: seq<real>, after: seq<real>, at: nat, n: nat)
      requires ValidParser(parser)
      requires HoldsAt(before, 0, GeneralInfo.Features(general.shannon, parser.isPE(file), file))
      requires HoldsAt(before, 696, Static(file))
      requires SameOutside(before, after, at, n) && 263 <= at && at + n <= 696
      ensures HoldsAt(after, 0, GeneralInfo.Features(general.shannon, parser.isPE(file), file))
      ensures HoldsAt(after, 696, Static(file))
    {
      HoldsKept(before, after, 0, GeneralInfo.Features(general.shannon, parser.isPE(file), file), at, n);
      HoldsKept(before, after, 696, Static(file), at, n);
    }

    method FinalizeGeneral(file: seq<Byte>, ghost blocks: seq<seq<Byte>>)
      requires Reading(file, file, blocks)
      modifies output
      ensures Separate() && OuterSlices(file)
      ensures byteEntropy.Running() && strings.Running()
    {
      ghost var before := output[..];
      general.Finalize(file, parser.isPE(file), output, 0);
      SliceUnchanged(before, output[..], 263, 256, 0, 263);
      HoldsKept(before, output[..], 696, Static(file), 0, 263);
    }

    method FinalizeEntropy(ghost file: seq<Byte>)
      requires byteEntropy.Parts() !! strings.Parts() && output !in strings.Parts() && output.Length == NUM_FEATURES
      requires ValidParser(parser) && OuterSlices(file) && strings.Running()
      requires byteEntropy.Running() && byteEntropy.slidingByteWindow.input == file
      requires byteEntropy.callback.output == output && byteEntropy.callback.base == 263
      modifies byteEntropy.callback`withCompleteWindowCalled, byteEntropy.callback`blocks, byteEntropy.callback.Repr()
      ensures OuterSlices(file) && EntropySlice(file) && strings.Running()
    {
      ghost var before := output[..];
      byteEntropy.Finalize();
      OuterSlicesKept(file, before, output[..], 263, 256);
    }

    method FinalizeStrings(ghost file: seq<Byte>)
      requires output.Length == NUM_FEATURES && ValidParser(parser)
      requires OuterSlices(file) && EntropySlice(file) && strings.Running()
      modifies output
      ensures output[..] == GeneralInfo.Features(general.shannon, parser.isPE(file), file)
                          + ByteEntropy.Histogram(byteEntropy.callback.shannon, file)
                          + StringExtractors.Features(strings.shannon, strings.matcher, strings.found)
                          + Static(file)
    {
      ghost var before := output[..];
      strings.Finalize(output, 519);
      OuterSlicesKept(file, before, output[..], 519, 177);
      HoldsKept(before, output[..], 263, ByteEntropy.Histogram(byteEntropy.callback.shannon, file), 519, 177);
      AllSlices(output[..], GeneralInfo.Features(general.shannon, parser.isPE(file), file),
                ByteEntropy.Histogram(byteEntropy.callback.shannon, file),
                StringExtractors.Features(strings.shannon, strings.matcher, strings.found),
                strings.shannon, parser, file);
    }

    method FinalizeAll(file: seq<Byte>)
      requires buf.Length > 0
      requires Reading(file, file, Chunks(file, buf.Length))
      modifies byteEntropy.callback`withCompleteWindowCalled, byteEntropy.callback`blocks, byteEntropy.callback.Repr()
      ensures output[..] == Vector(file)
    {
      FinalizeGeneral(file, Chunks(file, buf.Length));
      FinalizeEntropy(file);
      FinalizeStrings(file);
    }

    /** The stream stands behind the bytes already seen. */
    ghost predicate At(blockStream: MemoryBlockStream, file: seq<Byte>, seen: seq<Byte>)
      reads blockStream
    {
      && blockStream.Valid() && blockStream.started && !blockStream.finished
      && blockStream.buf == To(file) && blockStream.blockSize == buf.Length
      && blockStream.nextOffset == |seen|
    }

    ghost predicate Outside(blockStream: MemoryBlockStream) {
      blockStream as object !in general.Repr() + byteEntropy.Parts() + strings.Parts() + statics.Repr()
                                + {buf as object, output as object}
    }

    /** One round of the driver loop; `bufSize` is 0 at the end of the file. */
    method ReadAndReduce(ghost file: seq<Byte>, ghost seen: seq<Byte>, ghost blocks: seq<seq<Byte>>,
                         blockStream: MemoryBlockStream)
      returns (bufSize: nat, ghost block: seq<Byte>)
      requires Outside(blockStream) && At(blockStream, file, seen)
      requires Reading(file, seen, blocks) && Progress(file, seen, blocks, buf.Length)
      modifies blockStream, buf, general.Repr(), strings.Parts(), byteEntropy.slidingByteWindow
      modifies byteEntropy.callback`withCompleteWindowCalled, byteEntropy.callback`blocks, byteEntropy.callback.Repr()
      ensures blockStream.Valid()
      ensures bufSize == 0 ==> seen == file && blocks == Chunks(file, buf.Length) && Reading(file, seen, blocks)
      ensures bufSize > 0 ==> |block| == bufSize && At(blockStream, file, seen + block)
      ensures bufSize > 0 ==>
                && Reading(file, seen + block, blocks + [block])
                && Progress(file, seen + block, blocks + [block], buf.Length)
    {
      bufSize := ReadInto(file, seen, blocks, blockStream);
      ProgressStep(file, seen, blocks, buf.Length, bufSize);
      block := [];
      if bufSize != 0 {
        block := buf[..bufSize];
        var bufOffset := blockStream.offset;
        ReduceAll(file, seen, blocks, bufOffset, buf[..bufSize]);
      }
    }

    method ReadInto(ghost file: seq<Byte>, ghost seen: seq<Byte>, ghost blocks: seq<seq<Byte>>,
                    blockStream: MemoryBlockStream)
      returns (bufSize: nat)
      requires Outside(blockStream) && At(blockStream, file, seen) && |seen| <= |file|
      requires Reading(file, seen, blocks)
      modifies blockStream, buf
      ensures Reading(file, seen, blocks) && blockStream.Valid() && blockStream.offset == |seen|
      ensures bufSize == (if |file| - |seen| < buf.Length then |file| - |seen| else buf.Length)
      ensures bufSize > 0 ==> At(blockStream, file, file[..|seen| + bufSize])
      ensures bufSize > 0 ==> buf[..bufSize] == file[|seen|..|seen| + bufSize]
    {
      bufSize := blockStream.ReadNext(buf);
    }

    method ReadAll(ghost file: seq<Byte>, blockStream: MemoryBlockStream)
      requires Outside(blockStream) && At(blockStream, file, []) && Reading(file, [], [])
      modifies blockStream, buf, general.Repr(), strings.Parts(), byteEntropy.slidingByteWindow
      modifies byteEntropy.callback`withCompleteWindowCalled, byteEntropy.callback`blocks, byteEntropy.callback.Repr()
      ensures Reading(file, file, Chunks(file, buf.Length)) && blockStream.Valid()
    {
      ghost var seen, blocks: seq<seq<Byte>> := [], [];
      assert file[0..] == file && [] + Chunks(file, buf.Length) == Chunks(file, buf.Length);
      while true
        invariant At(blockStream, file, seen)
        invariant Reading(file, seen, blocks) && Progress(file, seen, blocks, buf.Length)
        decreases |file| - |seen|
      {
        ghost var block;
        var bufSize;
        bufSize, block := ReadAndReduce(file, seen, blocks, blockStream);
        if bufSize == 0 {
          break;
        }
        seen, blocks := seen + block, blocks + [block];
      }
    }

    method OpenStream(file: seq<Byte>) returns (blockStream: MemoryBlockStream)
      requires buf.Length > 0
      ensures fresh(blockStream) && At(blockStream, file, [])
    {
      blockStream := new MemoryBlockStream();
      blockStream.Setup(To(file));
      blockStream.SetBlockSize(buf.Length);
      var ok := blockStream.StartReading();
    }

    /** After a run the vector depends on the current file only: on nothing that the
        extractor, its counters or the output held before. */
    method Run(file: seq<Byte>)
      requires Separate()
      modifies this.buf, output, general.Repr(), byteEntropy.Parts(), strings.Parts(), statics.Repr()
      ensures output[..] == Vector(file)
    {
      var blockStream := OpenStream(file);
      RunOn(file, blockStream);
    }

    method RunOn(file: seq<Byte>, blockStream: MemoryBlockStream)
      requires Separate() && Outside(blockStream) && At(blockStream, file, [])
      modifies blockStream, this.buf, output
      modifies general.Repr(), byteEntropy.Parts(), strings.Parts(), statics.Repr()
      ensures output[..] == Vector(file)
    {
      BeginRun(file);
      ReadToEnd(file, blockStream);
    }

    method BeginRun(file: seq<Byte>)
      requires Separate()
      modifies output, general.Repr(), byteEntropy.Parts(), strings.Parts(), statics.Repr()
      ensures Reading(file, [], [])
    {
      ResetAll();
      StartAll(file);
    }

    method ReadToEnd(file: seq<Byte>, blockStream: MemoryBlockStream)
      requires Outside(blockStream) && At(blockStream, file, []) && Reading(file, [], [])
      modifies blockStream, buf, general.Repr(), byteEntropy.Parts(), strings.Parts(), output
      ensures output[..] == Vector(file)
    {
      ReadAll(file, blockStream);
      FinishRun(file, blockStream);
    }

    method FinishRun(file: seq<Byte>, blockStream: MemoryBlockStream)
      requires Outside(blockStream) && blockStream.Valid()
      requires buf.Length > 0 && Reading(file, file, Chunks(file, buf.Length))
      modifies blockStream
      modifies byteEntropy.callback`withCompleteWindowCalled, byteEntropy.callback`blocks, byteEntropy.callback.Repr()
      ensures output[..] == Vector(file)
    {
      FinalizeAll(file);
      blockStream.StopReading();
    }

    /** One object serves any number of files, in any order. */
    method RunMany(files: seq<seq<Byte>>) returns (vectors: seq<seq<real>>)
      requires Separate()
      modifies this.buf, output, general.Repr(), byteEntropy.Parts(), strings.Parts(), statics.Repr()
      ensures AreVectors(files, vectors)
    {
      vectors := [];
      for i := 0 to |files|
        invariant AreVectors(files[..i], vectors)
      {
        Run(files[i]);
        AreVectorsSnoc(files[..i], vectors, files[i]);
        TakeMore(files, i);
        vectors := vectors + [output[..]];
      }
      TakeMore(files, |files|);
    }

    ghost predicate AreVectors(files: seq<seq<Byte>>, vectors: seq<seq<real>>)
    {
      && buf.Length > 0 && ValidParser(parser) && |vectors| == |files|
      && forall i :: 0 <= i < |files| ==> vectors[i] == Vector(files[i])
    }

    lemma AreVectorsSnoc(files: seq<seq<Byte>>, vectors: seq<seq<real>>, file: seq<Byte>)
      requires AreVectors(files, vectors)
      ensures AreVectors(files + [file], vectors + [Vector(file)])
    {}
  }

  lemma TakeMore<T>(s: seq<T>, i: nat)
    requires i <= |s|
    ensures i < |s| ==> s[..i] + [s[i]] == s[..i + 1]
    ensures s[..|s|] == s
  {}

  /** A new extractor, run on any number of files: each vector is a function of its file. */
  method ExtractAll(shannon: EntropyBins.Entropy, matcher: StringExtractors.Matcher, parser: Parser,
                    blockSize: nat, files: seq<seq<Byte>>)
    returns (vectors: seq<seq<real>>)
    requires blockSize > 0 && ValidParser(parser)
    ensures |vectors| == |files|
    ensures forall i :: 0 <= i < |files| ==>
              vectors[i] == FeatureVector(shannon, matcher, parser, files[i], blockSize)
  {
    var extractor := new Extractor(shannon, matcher, parser, blockSize);
    vectors := extractor.RunMany(files);
  }

  /** The blocks so far and those still to come are the blocks of the file. */
  ghost predicate Progress(file: seq<Byte>, seen: seq<Byte>, blocks: seq<seq<Byte>>, blockSize: nat)
    requires blockSize > 0
  {
    && |seen| <= |file| && seen == file[..|seen|]
    && blocks + Chunks(file[|seen|..], blockSize) == Chunks(file, blockSize)
  }

  lemma ProgressStep(file: seq<Byte>, seen: seq<Byte>, blocks: seq<seq<Byte>>, blockSize: nat, n: nat)
    requires blockSize > 0 && Progress(file, seen, blocks, blockSize)
    requires n == if |file| - |seen| < blockSize then |file| - |seen| else blockSize
    ensures n == 0 ==> seen == file && blocks == Chunks(file, blockSize)
    ensures var block := file[|seen|..|seen| + n];
            && seen + block == file[..|seen| + n]
            && (n > 0 ==> Progress(file, seen + block, blocks + [block], blockSize))
  {
    ChunksStep(file, blockSize, |seen|, n);
    var block := file[|seen|..|seen| + n];
    assert blocks + ([block] + Chunks(file[|seen| + n..], blockSize))
        == blocks + [block] + Chunks(file[|seen| + n..], blockSize);
  }

  lemma SliceUnchanged(before: seq<real>, after: seq<real>, at: nat, n: nat, at': nat, n': nat)
    requires SameOutside(before, after, at', n') && at + n <= |before|
    requires at + n <= at' || at' + n' <= at
    ensures after[at..at + n] == before[at..at + n]
  {}

  lemma FoundSnoc(blocks: seq<seq<Byte>>, b: seq<Byte>)
    ensures ReadableStrings.Found(blocks + [b]) == ReadableStrings.Found(blocks) + ReadableStrings.Strings(b)
  {
    assert (blocks + [b])[..|blocks|] == blocks;
  }

  lemma AllSlices(s: seq<real>, a: seq<real>, b: seq<real>, c: seq<real>,
                  shannon: EntropyBins.Entropy, p: Parser, file: seq<Byte>)
    requires |s| == NUM_FEATURES && |a| == 263 && |b| == 256 && |c| == 177 && ValidParser(p)
    requires HoldsAt(s, 0, a) && HoldsAt(s, 263, b) && HoldsAt(s, 519, c)
    requires HoldsAt(s, 696, StaticRows(shannon, p, file, |DIMS|))
    ensures s == a + b + c + StaticRows(shannon, p, file, |DIMS|)
  {
    StaticLength(shannon, p, file, |DIMS|);
    OffsetValues();
    HoldsJoin(s, 0, a, b);
    HoldsJoin(s, 0, a + b, c);
    HoldsJoin(s, 0, a + b + c, StaticRows(shannon, p, file, |DIMS|));
    assert s[0..|s|] == s;
  }
}
