/** The section feature type: one pass over the sections feeds five hashers and keeps the
    counts and extremes. On a file that parses nothing clears the slice first. */
module SectionInfos {
  import opened Bytes
  import opened ByteReducers
  import opened CsrRows
  import opened EntropyBins
  import opened FeatureHashing
  import opened FeatureHashers
  import opened HasherSlices
  import opened OutputSlices
  import opened Sections
  import GeneralInfo

  class SectionInfoFeatureHashers {
    const sectionSizeFH: FeatureHasher
    const sectionVSizeFH: FeatureHasher
    const sectionEntropyFH: FeatureHasher
    const characteristicsFH: FeatureHasher
    const entrySectionNameFH: FeatureHasher

    constructor ()
      ensures fresh(Repr()) && Distinct()
    {
      sectionSizeFH := new FeatureHasher();
      sectionVSizeFH := new FeatureHasher();
      sectionEntropyFH := new FeatureHasher();
      characteristicsFH := new FeatureHasher();
      entrySectionNameFH := new FeatureHasher();
    }

    ghost function Repr(): set<object> {
      {sectionSizeFH, sectionVSizeFH, sectionEntropyFH, characteristicsFH, entrySectionNameFH}
    }

    ghost predicate Distinct() {
      && sectionSizeFH != sectionVSizeFH && sectionSizeFH != sectionEntropyFH
      && sectionSizeFH != characteristicsFH && sectionSizeFH != entrySectionNameFH
      && sectionVSizeFH != sectionEntropyFH && sectionVSizeFH != characteristicsFH
      && sectionVSizeFH != entrySectionNameFH && sectionEntropyFH != characteristicsFH
      && sectionEntropyFH != entrySectionNameFH && characteristicsFH != entrySectionNameFH
    }

    /** What the hashers hold after some sections. The slice begins at `at`. */
    ghost predicate Fed(output: array<real>, at: nat, sections: seq<Section>, entry: seq<Feature>)
      requires AllSized(sections)
      reads Repr()
    {
      && Distinct()
      && Holding(sectionSizeFH, output, at + 11, SliceConfig(50, true), Measured(sections, SizeRaw))
      && Holding(sectionVSizeFH, output, at + 61, SliceConfig(50, true), Measured(sections, VSize))
      && Holding(sectionEntropyFH, output, at + 111, SliceConfig(50, true), Measured(sections, Entropy))
      && Holding(characteristicsFH, output, at + 161, SliceConfig(50, true), AllFlags(sections))
      && Holding(entrySectionNameFH, output, at + 211, SliceConfig(10, true), entry)
    }

    method Start(output: array<real>, at: nat)
      requires Distinct() && at + DIM <= output.Length
      modifies Repr(), output
      ensures Fed(output, at, [], [])
      ensures SameOutside(old(output[..]), output[..], at + 11, HASHED_CELLS)
    {
      ghost var s0 := output[..];
      StartHasher(sectionSizeFH, output, at + 11, 50, true);
      ghost var s1 := output[..];
      StartHasher(sectionVSizeFH, output, at + 61, 50, true);
      ghost var s2 := output[..];
      StartHasher(sectionEntropyFH, output, at + 111, 50, true);
      ghost var s3 := output[..];
      StartHasher(characteristicsFH, output, at + 161, 50, true);
      ghost var s4 := output[..];
      StartHasher(entrySectionNameFH, output, at + 211, 10, true);
      FiveOutside(s0, s1, s2, s3, s4, output[..], at + 11);
    }

    method ReduceFromSection(ghost output: array<real>, ghost at: nat, ghost done: seq<Section>, section: Section)
      requires AllSized(done) && Sized(section) && Fed(output, at, done, [])
      modifies Repr()
      ensures AllSized(done + [section]) && Fed(output, at, done + [section], [])
    {
      FeedMeasure(sectionSizeFH, output, at + 11, SliceConfig(50, true), done, section, SizeRaw);
      FeedMeasure(sectionVSizeFH, output, at + 61, SliceConfig(50, true), done, section, VSize);
      FeedMeasure(sectionEntropyFH, output, at + 111, SliceConfig(50, true), done, section, Entropy);
      FeedFlags(characteristicsFH, output, at + 161, SliceConfig(50, true), done, section);
    }

    method ReduceFromEntrySectionName(ghost output: array<real>, ghost at: nat, ghost sections: seq<Section>,
                                      entry: Section)
      requires AllSized(sections) && Sized(entry) && Fed(output, at, sections, [])
      modifies Repr()
      ensures Fed(output, at, sections, EntryName(Entry.Entry(entry)))
    {
      FeedName(entrySectionNameFH, entry.name, output, at + 211, SliceConfig(10, true), []);
      assert [] + EntryName(Entry.Entry(entry)) == EntryName(Entry.Entry(entry));
    }

    method Finalize(output: array<real>, at: nat, ghost sections: seq<Section>, ghost entry: Entry)
      requires AllSized(sections) && EntryFits(entry)
      requires Fed(output, at, sections, EntryName(entry)) && at + DIM <= output.Length
      modifies Repr(), output
      ensures HoldsAt(output[..], at + 11, HashedCells(sections, entry))
      ensures SameOutside(old(output[..]), output[..], at + 11, HASHED_CELLS)
    {
      ghost var s0 := output[..];
      FinishHasher(sectionSizeFH, output, at + 11, SliceConfig(50, true), Measured(sections, SizeRaw));
      ghost var s1 := output[..];
      FinishHasher(sectionVSizeFH, output, at + 61, SliceConfig(50, true), Measured(sections, VSize));
      ghost var s2 := output[..];
      FinishHasher(sectionEntropyFH, output, at + 111, SliceConfig(50, true), Measured(sections, Entropy));
      ghost var s3 := output[..];
      FinishHasher(characteristicsFH, output, at + 161, SliceConfig(50, true), AllFlags(sections));
      ghost var s4 := output[..];
      FinishHasher(entrySectionNameFH, output, at + 211, SliceConfig(10, true), EntryName(entry));
      FiveOutside(s0, s1, s2, s3, s4, output[..], at + 11);
      FiveRows(s1, s2, s3, s4, output[..], at + 11,
               BucketRow(SliceConfig(50, true), Measured(sections, SizeRaw)),
               BucketRow(SliceConfig(50, true), Measured(sections, VSize)),
               BucketRow(SliceConfig(50, true), Measured(sections, Entropy)),
               BucketRow(SliceConfig(50, true), AllFlags(sections)),
               BucketRow(SliceConfig(10, true), EntryName(entry)));
    }
  }

  method FeedMeasure(fh: FeatureHasher, ghost output: array<real>, ghost base: nat, ghost cfg: Config,
                     ghost done: seq<Section>, s: Section, m: Measure)
    requires AllSized(done) && Sized(s) && Holding(fh, output, base, cfg, Measured(done, m))
    modifies fh
    ensures AllSized(done + [s]) && Holding(fh, output, base, cfg, Measured(done + [s], m))
  {
    MeasuredSnoc(done, s, m);
    FeedHasher(fh, s.name, MeasureOf(s, m), output, base, cfg, Measured(done, m));
  }

  method FeedFlags(fh: FeatureHasher, ghost output: array<real>, ghost base: nat, ghost cfg: Config,
                   ghost done: seq<Section>, s: Section)
    requires AllSized(done) && Sized(s) && Holding(fh, output, base, cfg, AllFlags(done))
    modifies fh
    ensures AllSized(done + [s]) && Holding(fh, output, base, cfg, AllFlags(done + [s]))
  {
    AllFlagsSnoc(done, s);
    FeedEachFlag(fh, output, base, cfg, done, s);
  }

  method FeedEachFlag(fh: FeatureHasher, ghost output: array<real>, ghost base: nat, ghost cfg: Config,
                      ghost done: seq<Section>, s: Section)
    requires AllSized(done) && Sized(s) && Holding(fh, output, base, cfg, SomeFlags(done, s, 0))
    modifies fh
    ensures Holding(fh, output, base, cfg, SomeFlags(done, s, |s.flags|))
  {
    for i := 0 to |s.flags|
      invariant Holding(fh, output, base, cfg, SomeFlags(done, s, i))
    {
      FeedFlag(fh, output, base, cfg, done, s, i);
    }
  }

  method FeedFlag(fh: FeatureHasher, ghost output: array<real>, ghost base: nat, ghost cfg: Config,
                  ghost done: seq<Section>, s: Section, i: nat)
    requires AllSized(done) && Sized(s) && i < |s.flags|
    requires Holding(fh, output, base, cfg, SomeFlags(done, s, i))
    modifies fh
    ensures Holding(fh, output, base, cfg, SomeFlags(done, s, i + 1))
  {
    SomeFlagsSnoc(done, s, i);
    FeedName(fh, FlagName(s, i), output, base, cfg, SomeFlags(done, s, i));
  }

  /** The characteristics of some sections and the first `n` of the next one. */
  ghost function SomeFlags(done: seq<Section>, s: Section, n: nat): seq<Feature>
    requires AllSized(done) && Sized(s) && n <= |s.flags|
  {
    AllFlags(done) + Flags(s, n)
  }

  lemma SomeFlagsSnoc(done: seq<Section>, s: Section, i: nat)
    requires AllSized(done) && Sized(s) && i < |s.flags|
    ensures SomeFlags(done, s, i + 1) == SomeFlags(done, s, i) + [Feature(CString(FlagName(s, i)), 1.0)]
  {}

  lemma MeasuredSnoc(done: seq<Section>, s: Section, m: Measure)
    requires AllSized(done) && Sized(s)
    ensures AllSized(done + [s])
    ensures Measured(done + [s], m) == Measured(done, m) + [Feature(CString(s.name), MeasureOf(s, m))]
  {
    assert (done + [s])[..|done|] == done;
  }

  lemma AllFlagsSnoc(done: seq<Section>, s: Section)
    requires AllSized(done) && Sized(s)
    ensures AllSized(done + [s])
    ensures SomeFlags(done, s, 0) == AllFlags(done)
    ensures SomeFlags(done, s, |s.flags|) == AllFlags(done + [s])
  {
    assert (done + [s])[..|done|] == done;
  }

  // ---------- the counts and extremes

  /** What the pass over the sections keeps. */
  datatype Totals = Totals(
    zeroSize: nat, emptyName: nat, readableAndExecutable: nat, writable: nat,
    maxEntropy: real, minEntropy: real, maxSizeRatio: real, minSizeRatio: real,
    maxVSizeRatio: real, minVSizeRatio: real, entry: Entry, potentialEntry: Entry)

  function TotalsOf(sections: seq<Section>, overlayEntropy: real, overlayRatio: real, rva: nat): Totals {
    Totals(
      CountOf(sections, ZeroSize), CountOf(sections, EmptyName),
      CountOf(sections, ReadableAndExecutable), CountOf(sections, Writable),
      Largest(Max(0.0, overlayEntropy), sections, Entropy), Smallest(Min(0.0, overlayEntropy), sections, Entropy),
      Largest(Max(0.0, overlayRatio), sections, SizeRatio), Smallest(Min(0.0, overlayRatio), sections, SizeRatio),
      Largest(0.0, sections, VSizeRatio), Smallest(0.0, sections, VSizeRatio),
      LastContaining(sections, rva), FirstExecutable(sections))
  }

  method AddSection(t0: Totals, ghost done: seq<Section>, s: Section, ghost overlayEntropy: real,
                    ghost overlayRatio: real, rva: nat)
    returns (t: Totals)
    requires t0 == TotalsOf(done, overlayEntropy, overlayRatio, rva)
    ensures t == TotalsOf(done + [s], overlayEntropy, overlayRatio, rva)
  {
    assert (done + [s])[..|done|] == done;
    t := t0;
    t := t.(maxEntropy := Max(t.maxEntropy, s.entropy), minEntropy := Min(t.minEntropy, s.entropy));
    t := t.(maxSizeRatio := Max(t.maxSizeRatio, s.sizeRatio), minSizeRatio := Min(t.minSizeRatio, s.sizeRatio));
    t := t.(maxVSizeRatio := Max(t.maxVSizeRatio, s.vsizeRatio), minVSizeRatio := Min(t.minVSizeRatio, s.vsizeRatio));
    if s.sizeRaw == 0 {
      t := t.(zeroSize := t.zeroSize + 1);
    }
    if s.name == [] {
      t := t.(emptyName := t.emptyName + 1);
    }
    if Has(s, MEM_WRITE) {
      t := t.(writable := t.writable + 1);
    }
    if ContainsRVA(s, rva) {
      t := t.(entry := Entry.Entry(s));
    }
    if Has(s, MEM_EXECUTE) {
      if t.potentialEntry.NoEntry? {
        t := t.(potentialEntry := Entry.Entry(s));
      }
      if Has(s, MEM_READ) {
        t := t.(readableAndExecutable := t.readableAndExecutable + 1);
      }
    }
  }

  /** The pass: every section is fed to the hashers and added to the totals. */
  method ReduceAll(fh: SectionInfoFeatureHashers, ghost output: array<real>, ghost at: nat, sections: seq<Section>,
                   overlayEntropy: real, overlayRatio: real, rva: nat)
    returns (t: Totals)
    requires AllSized(sections) && fh.Fed(output, at, [], [])
    modifies fh.Repr()
    ensures fh.Fed(output, at, sections, []) && t == TotalsOf(sections, overlayEntropy, overlayRatio, rva)
  {
    t := Totals(0, 0, 0, 0, Max(0.0, overlayEntropy), Min(0.0, overlayEntropy), Max(0.0, overlayRatio),
                Min(0.0, overlayRatio), 0.0, 0.0, NoEntry, NoEntry);
    TakeMore(sections, 0);
    for i := 0 to |sections|
      invariant AllSized(sections[..i]) && fh.Fed(output, at, sections[..i], [])
      invariant t == TotalsOf(sections[..i], overlayEntropy, overlayRatio, rva)
    {
      TakeMore(sections, i);
      fh.ReduceFromSection(output, at, sections[..i], sections[i]);
      t := AddSection(t, sections[..i], sections[i], overlayEntropy, overlayRatio, rva);
    }
    TakeMore(sections, |sections|);
  }

  // ---------- the feature type

  /** SectionInfo::start */
  method Start(shannon: EntropyBins.Entropy, output: array<real>, at: nat, p: Parsed, fileSize: nat)
    requires at + DIM <= output.Length && ValidParsed(p)
    modifies output
    ensures HoldsAt(output[..], at, SliceOf(shannon, p, fileSize))
    ensures SameOutside(old(output[..]), output[..], at, DIM)
  {
    if p.NotPE? {
      ghost var before := output[..];
      ClearCells(output, at, DIM);
      ReplacesHolds(before, output[..], at, Zeros(DIM));
      return;
    }
    var overlayEntropy := EntropyOfOverlay(shannon, p.overlay);
    var overlayRatio := if fileSize == 0 then 0.0 else |p.overlay| as real / fileSize as real;
    WriteSlice(output, at, p, overlayEntropy, overlayRatio);
  }

  method EntropyOfOverlay(shannon: EntropyBins.Entropy, overlay: seq<Byte>) returns (h: real)
    ensures h == OverlayEntropy(shannon, overlay)
  {
    h := 0.0;
    if |overlay| > 0 {
      var overlayByteCounter := new ByteCounter();
      overlayByteCounter.Reset();
      overlayByteCounter.Reduce(overlay);
      assert [] + overlay == overlay;
      var counts := overlayByteCounter.byteCounts[..];
      assert counts == GeneralInfo.ByteCounts(overlay);
      h := shannon(overlayByteCounter.totalNumBytes, counts);
    }
  }

  /** Nothing has been cleared: eleven cells, five hashers and three cells cover the slice. */
  method WriteSlice(output: array<real>, at: nat, p: Parsed, overlayEntropy: real, overlayRatio: real)
    requires at + DIM <= output.Length && p.PE? && AllSized(p.sections)
    modifies output
    ensures EntryFits(EntrySection(p.sections, p.entrypointRVA))
    ensures HoldsAt(output[..], at, FirstCells(p.sections, overlayEntropy, overlayRatio)
                                    + HashedCells(p.sections, EntrySection(p.sections, p.entrypointRVA))
                                    + [|p.overlay| as real, overlayRatio, overlayEntropy])
    ensures SameOutside(old(output[..]), output[..], at, DIM)
  {
    EntrySized(p.sections, p.entrypointRVA);
    ghost var s0 := output[..];
    var t := WriteHashes(output, at, p, overlayEntropy, overlayRatio);
    ghost var s1 := output[..];
    WriteFirstCells(output, at, |p.sections|, t);
    ghost var s2 := output[..];
    WriteLastCells(output, at + 221, |p.overlay|, overlayRatio, overlayEntropy);
    ThreeParts(s0, s1, s2, output[..], at, FirstCells(p.sections, overlayEntropy, overlayRatio),
               HashedCells(p.sections, EntrySection(p.sections, p.entrypointRVA)),
               [|p.overlay| as real, overlayRatio, overlayEntropy]);
  }

  method WriteHashes(output: array<real>, at: nat, p: Parsed, overlayEntropy: real, overlayRatio: real)
    returns (t: Totals)
    requires at + DIM <= output.Length && p.PE? && AllSized(p.sections)
    requires EntryFits(EntrySection(p.sections, p.entrypointRVA))
    modifies output
    ensures t == TotalsOf(p.sections, overlayEntropy, overlayRatio, p.entrypointRVA)
    ensures HoldsAt(output[..], at + 11, HashedCells(p.sections, EntrySection(p.sections, p.entrypointRVA)))
    ensures SameOutside(old(output[..]), output[..], at + 11, HASHED_CELLS)
  {
    var fh := new SectionInfoFeatureHashers();
    ghost var s0 := output[..];
    fh.Start(output, at);
    ghost var s1 := output[..];
    t := ReduceAll(fh, output, at, p.sections, overlayEntropy, overlayRatio, p.entrypointRVA);
    var entry := if t.entry.NoEntry? then t.potentialEntry else t.entry;
    if entry.Entry? {
      fh.ReduceFromEntrySectionName(output, at, p.sections, entry.section);
    }
    fh.Finalize(output, at, p.sections, entry);
    SameOutsideChain(s0, s1, output[..], at + 11, HASHED_CELLS);
  }

  method WriteFirstCells(output: array<real>, at: nat, numSections: nat, t: Totals)
    requires at + FIRST_CELLS <= output.Length
    modifies output
    ensures HoldsAt(output[..], at, CellsOf(numSections, t))
    ensures SameOutside(old(output[..]), output[..], at, FIRST_CELLS)
  {
    output[at] := numSections as real;
    output[at + 1] := t.zeroSize as real;
    output[at + 2] := t.emptyName as real;
    output[at + 3] := t.readableAndExecutable as real;
    output[at + 4] := t.writable as real;
    output[at + 5] := t.maxEntropy;
    output[at + 6] := t.minEntropy;
    output[at + 7] := t.maxSizeRatio;
    output[at + 8] := t.minSizeRatio;
    output[at + 9] := t.maxVSizeRatio;
    output[at + 10] := t.minVSizeRatio;
  }

  function CellsOf(numSections: nat, t: Totals): seq<real> {
    [numSections as real, t.zeroSize as real, t.emptyName as real, t.readableAndExecutable as real,
     t.writable as real, t.maxEntropy, t.minEntropy, t.maxSizeRatio, t.minSizeRatio, t.maxVSizeRatio, t.minVSizeRatio]
  }

  method WriteLastCells(output: array<real>, at: nat, overlaySize: nat, overlayRatio: real, overlayEntropy: real)
    requires at + 3 <= output.Length
    modifies output
    ensures HoldsAt(output[..], at, [overlaySize as real, overlayRatio, overlayEntropy])
    ensures SameOutside(old(output[..]), output[..], at, 3)
  {
    output[at] := overlaySize as real;
    output[at + 1] := overlayRatio;
    output[at + 2] := overlayEntropy;
  }

  // ---------- parts of the slice

  lemma TakeMore(s: seq<Section>, i: nat)
    requires i <= |s|
    ensures s[..0] == [] && s[..|s|] == s
    ensures i < |s| ==> s[..i] + [s[i]] == s[..i + 1]
  {}

  /** Three adjoining parts, the middle one written first. */
  lemma ThreeParts(s0: seq<real>, s1: seq<real>, s2: seq<real>, s3: seq<real>, at: nat,
                   a: seq<real>, b: seq<real>, c: seq<real>)
    requires |a| == FIRST_CELLS && |b| == HASHED_CELLS && |c| == 3
    requires SameOutside(s0, s1, at + 11, HASHED_CELLS) && HoldsAt(s1, at + 11, b)
    requires SameOutside(s1, s2, at, FIRST_CELLS) && HoldsAt(s2, at, a)
    requires SameOutside(s2, s3, at + 221, 3) && HoldsAt(s3, at + 221, c)
    ensures HoldsAt(s3, at, a + b + c) && SameOutside(s0, s3, at, DIM)
  {
    HoldsKept(s1, s2, at + 11, b, at, FIRST_CELLS);
    HoldsJoin(s2, at, a, b);
    HoldsKept(s2, s3, at, a + b, at + 221, 3);
    HoldsJoin(s3, at, a + b, c);
  }

  /** Five adjoining parts, written one after the other. */
  lemma FiveOutside(s0: seq<real>, s1: seq<real>, s2: seq<real>, s3: seq<real>, s4: seq<real>, s5: seq<real>, at: nat)
    requires SameOutside(s0, s1, at, 50) && SameOutside(s1, s2, at + 50, 50)
    requires SameOutside(s2, s3, at + 100, 50) && SameOutside(s3, s4, at + 150, 50)
    requires SameOutside(s4, s5, at + 200, 10)
    ensures SameOutside(s0, s5, at, HASHED_CELLS)
  {}

  lemma FiveRows(s1: seq<real>, s2: seq<real>, s3: seq<real>, s4: seq<real>, s5: seq<real>, at: nat,
                 a: seq<real>, b: seq<real>, c: seq<real>, d: seq<real>, e: seq<real>)
    requires |a| == |b| == |c| == |d| == 50 && |e| == 10
    requires HoldsAt(s1, at, a)
    requires SameOutside(s1, s2, at + 50, 50) && HoldsAt(s2, at + 50, b)
    requires SameOutside(s2, s3, at + 100, 50) && HoldsAt(s3, at + 100, c)
    requires SameOutside(s3, s4, at + 150, 50) && HoldsAt(s4, at + 150, d)
    requires SameOutside(s4, s5, at + 200, 10) && HoldsAt(s5, at + 200, e)
    ensures HoldsAt(s5, at, a + b + c + d + e)
  {
    HoldsKept(s1, s2, at, a, at + 50, 50);
    HoldsJoin(s2, at, a, b);
    HoldsKept(s2, s3, at, a + b, at + 100, 50);
    HoldsJoin(s3, at, a + b, c);
    HoldsKept(s3, s4, at, a + b + c, at + 150, 50);
    HoldsJoin(s4, at, a + b + c, d);
    HoldsKept(s4, s5, at, a + b + c + d, at + 200, 10);
    HoldsJoin(s5, at, a + b + c + d, e);
  }
}
