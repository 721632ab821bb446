/** The sections of a parsed file, and what the section feature type makes of them. */
module Sections {
  import opened Bytes
  import opened Collections
  import opened CsrRows
  import opened EntropyBins
  import opened FeatureHashing
  import opened HashedNames
  import opened HasherSlices
  import opened OutputSlices
  import GeneralInfo

  const SECTION_BUCKETS: nat := 50
  const ENTRY_BUCKETS: nat := 10
  const FIRST_CELLS: nat := 11
  const HASHED_CELLS: nat := 4 * SECTION_BUCKETS + ENTRY_BUCKETS
  const DIM: nat := FIRST_CELLS + HASHED_CELLS + 3

  const MEM_EXECUTE: bv32 := 0x2000_0000
  const MEM_READ: bv32 := 0x4000_0000
  const MEM_WRITE: bv32 := 0x8000_0000

  /** `flags` are the names of the characteristics, in the order of their table. */
  datatype Section = Section(
    name: seq<bv8>, sizeRaw: nat, vsize: nat, vaddr: nat,
    entropy: real, sizeRatio: real, vsizeRatio: real,
    characteristics: bv32, flags: seq<seq<bv8>>)

  datatype Parsed = NotPE | PE(sections: seq<Section>, entrypointRVA: nat, overlay: seq<Byte>)

  /** name:characteristic */
  function FlagName(s: Section, i: nat): seq<bv8>
    requires i < |s.flags|
  {
    s.name + COLON + s.flags[i]
  }

  /** The length of every name to be hashed is an int. */
  predicate Sized(s: Section) {
    && |s.name| < 0x8000_0000
    && forall i :: 0 <= i < |s.flags| ==> |FlagName(s, i)| < 0x8000_0000
  }

  predicate AllSized(sections: seq<Section>) {
    forall i :: 0 <= i < |sections| ==> Sized(sections[i])
  }

  // ---------- counts and extremes

  predicate Has(s: Section, characteristic: bv32) {
    s.characteristics & characteristic != 0
  }

  datatype Kind = ZeroSize | EmptyName | ReadableAndExecutable | Writable

  predicate Is(s: Section, kind: Kind) {
    match kind
    case ZeroSize => s.sizeRaw == 0
    case EmptyName => s.name == []
    case ReadableAndExecutable => Has(s, MEM_EXECUTE) && Has(s, MEM_READ)
    case Writable => Has(s, MEM_WRITE)
  }

  function CountOf(sections: seq<Section>, kind: Kind): nat {
    if sections == [] then 0
    else CountOf(sections[..|sections| - 1], kind) + (if Is(sections[|sections| - 1], kind) then 1 else 0)
  }

  datatype Measure = SizeRaw | VSize | Entropy | SizeRatio | VSizeRatio

  function MeasureOf(s: Section, m: Measure): real {
    match m
    case SizeRaw => s.sizeRaw as real
    case VSize => s.vsize as real
    case Entropy => s.entropy
    case SizeRatio => s.sizeRatio
    case VSizeRatio => s.vsizeRatio
  }

  function Max(x: real, y: real): real { if x < y then y else x }

  function Min(x: real, y: real): real { if y < x then y else x }

  function Largest(start: real, sections: seq<Section>, m: Measure): real {
    if sections == [] then start
    else Max(Largest(start, sections[..|sections| - 1], m), MeasureOf(sections[|sections| - 1], m))
  }

  function Smallest(start: real, sections: seq<Section>, m: Measure): real {
    if sections == [] then start
    else Min(Smallest(start, sections[..|sections| - 1], m), MeasureOf(sections[|sections| - 1], m))
  }

  lemma {:induction false} LargestIsMaximum(start: real, sections: seq<Section>, m: Measure)
    ensures var x := Largest(start, sections, m);
            && x >= start && (forall i :: 0 <= i < |sections| ==> x >= MeasureOf(sections[i], m))
            && (x == start || exists i :: 0 <= i < |sections| && x == MeasureOf(sections[i], m))
  {
    if sections == [] {
    } else {
      var n := |sections| - 1;
      LargestIsMaximum(start, sections[..n], m);
      if Largest(start, sections[..n], m) < MeasureOf(sections[n], m) {
        assert Largest(start, sections, m) == MeasureOf(sections[n], m);
      } else if Largest(start, sections[..n], m) != start {
        var i :| 0 <= i < n && Largest(start, sections[..n], m) == MeasureOf(sections[..n][i], m);
        assert sections[..n][i] == sections[i];
      }
    }
  }

  lemma {:induction false} SmallestIsMinimum(start: real, sections: seq<Section>, m: Measure)
    ensures var x := Smallest(start, sections, m);
            && x <= start && (forall i :: 0 <= i < |sections| ==> x <= MeasureOf(sections[i], m))
            && (x == start || exists i :: 0 <= i < |sections| && x == MeasureOf(sections[i], m))
  {
    if sections == [] {
    } else {
      var n := |sections| - 1;
      SmallestIsMinimum(start, sections[..n], m);
      if MeasureOf(sections[n], m) < Smallest(start, sections[..n], m) {
        assert Smallest(start, sections, m) == MeasureOf(sections[n], m);
      } else if Smallest(start, sections[..n], m) != start {
        var i :| 0 <= i < n && Smallest(start, sections[..n], m) == MeasureOf(sections[..n][i], m);
        assert sections[..n][i] == sections[i];
      }
    }
  }

  // ---------- the entry section

  datatype Entry = NoEntry | Entry(section: Section)

  /** The end of a section is computed in 64 bits. */
  predicate ContainsRVA(s: Section, rva: nat) {
    s.vaddr <= rva < (s.vaddr + if s.vsize < s.sizeRaw then s.sizeRaw else s.vsize) % 0x1_0000_0000_0000_0000
  }

  function LastContaining(sections: seq<Section>, rva: nat): Entry {
    if sections == [] then NoEntry
    else if ContainsRVA(sections[|sections| - 1], rva) then Entry.Entry(sections[|sections| - 1])
    else LastContaining(sections[..|sections| - 1], rva)
  }

  function FirstExecutable(sections: seq<Section>): Entry {
    if sections == [] then NoEntry
    else
      var before := FirstExecutable(sections[..|sections| - 1]);
      if before.NoEntry? && Has(sections[|sections| - 1], MEM_EXECUTE) then Entry.Entry(sections[|sections| - 1])
      else before
  }

  /** The section of the entry point; if there is none, the first executable section. */
  function EntrySection(sections: seq<Section>, rva: nat): Entry {
    var usual := LastContaining(sections, rva);
    if usual.NoEntry? then FirstExecutable(sections) else usual
  }

  ghost predicate IsLastContaining(sections: seq<Section>, rva: nat, i: nat) {
    i < |sections| && ContainsRVA(sections[i], rva) && forall j :: i < j < |sections| ==> !ContainsRVA(sections[j], rva)
  }

  ghost predicate IsFirstExecutable(sections: seq<Section>, i: nat) {
    i < |sections| && Has(sections[i], MEM_EXECUTE) && forall j :: 0 <= j < i ==> !Has(sections[j], MEM_EXECUTE)
  }

  lemma {:induction false} LastContainingMeaning(sections: seq<Section>, rva: nat) returns (i: nat)
    ensures LastContaining(sections, rva).NoEntry? ==>
              forall j :: 0 <= j < |sections| ==> !ContainsRVA(sections[j], rva)
    ensures LastContaining(sections, rva).Entry? ==>
              IsLastContaining(sections, rva, i) && LastContaining(sections, rva).section == sections[i]
  {
    i := 0;
    if sections == [] {
    } else if ContainsRVA(sections[|sections| - 1], rva) {
      i := |sections| - 1;
    } else {
      i := LastContainingMeaning(sections[..|sections| - 1], rva);
    }
  }

  lemma {:induction false} FirstExecutableMeaning(sections: seq<Section>) returns (i: nat)
    ensures FirstExecutable(sections).NoEntry? ==>
              forall j :: 0 <= j < |sections| ==> !Has(sections[j], MEM_EXECUTE)
    ensures FirstExecutable(sections).Entry? ==>
              IsFirstExecutable(sections, i) && FirstExecutable(sections).section == sections[i]
  {
    i := 0;
    if sections == [] {
    } else {
      var n := |sections| - 1;
      i := FirstExecutableMeaning(sections[..n]);
      if FirstExecutable(sections[..n]).NoEntry? {
        i := n;
      }
    }
  }

  ghost predicate NoneContains(sections: seq<Section>, rva: nat) {
    forall j :: 0 <= j < |sections| ==> !ContainsRVA(sections[j], rva)
  }

  ghost predicate NoneExecutable(sections: seq<Section>) {
    forall j :: 0 <= j < |sections| ==> !Has(sections[j], MEM_EXECUTE)
  }

  ghost predicate IsEntry(sections: seq<Section>, rva: nat, i: nat) {
    IsLastContaining(sections, rva, i) || (NoneContains(sections, rva) && IsFirstExecutable(sections, i))
  }

  /** Of several sections that contain the entry point it is the last one; if none does, it
      is the first executable one; and if there is none, no name is hashed. */
  lemma EntrySectionMeaning(sections: seq<Section>, rva: nat)
    ensures EntrySection(sections, rva).NoEntry? <==> NoneContains(sections, rva) && NoneExecutable(sections)
    ensures EntrySection(sections, rva).Entry? ==>
              exists i: nat :: IsEntry(sections, rva, i) && EntrySection(sections, rva).section == sections[i]
  {
    var i := LastContainingMeaning(sections, rva);
    var k := FirstExecutableMeaning(sections);
    assert LastContaining(sections, rva).Entry? ==> IsEntry(sections, rva, i);
    assert LastContaining(sections, rva).NoEntry? && FirstExecutable(sections).Entry? ==> IsEntry(sections, rva, k);
  }

  // ---------- the samples of the five hashers

  function MeasureFeature(s: Section, m: Measure): Feature
    requires Sized(s)
  {
    Feature(CString(s.name), MeasureOf(s, m))
  }

  function Measured(sections: seq<Section>, m: Measure): seq<Feature>
    requires AllSized(sections)
  {
    if sections == [] then []
    else Measured(sections[..|sections| - 1], m) + [MeasureFeature(sections[|sections| - 1], m)]
  }

  function FlagFeature(s: Section, i: nat): Feature
    requires Sized(s) && i < |s.flags|
  {
    Feature(CString(FlagName(s, i)), 1.0)
  }

  /** The first `n` characteristics of a section. */
  function Flags(s: Section, n: nat): seq<Feature>
    requires Sized(s) && n <= |s.flags|
  {
    if n == 0 then [] else Flags(s, n - 1) + [FlagFeature(s, n - 1)]
  }

  function AllFlags(sections: seq<Section>): seq<Feature>
    requires AllSized(sections)
  {
    if sections == [] then []
    else
      var last := sections[|sections| - 1];
      AllFlags(sections[..|sections| - 1]) + Flags(last, |last.flags|)
  }

  predicate EntryFits(entry: Entry) {
    entry.Entry? ==> Sized(entry.section)
  }

  function EntryName(entry: Entry): seq<Feature>
    requires EntryFits(entry)
  {
    if entry.NoEntry? then [] else [Feature(CString(entry.section.name), 1.0)]
  }

  lemma EntrySized(sections: seq<Section>, rva: nat)
    requires AllSized(sections)
    ensures EntryFits(EntrySection(sections, rva))
  {
    EntrySectionMeaning(sections, rva);
  }

  // ---------- the samples in numbers

  /** One feature for every section: its name, cut at a NUL, and one of its values. */
  function Named(sections: seq<Section>, value: Section -> real): (sample: seq<Feature>)
    requires AllSized(sections)
  {
    seq(|sections|, i requires 0 <= i < |sections| && Sized(sections[i]) =>
      Feature(CString(sections[i].name), value(sections[i])))
  }

  lemma {:induction false} MeasuredIsNamed(sections: seq<Section>, m: Measure, value: Section -> real)
    requires AllSized(sections) && forall s: Section :: MeasureOf(s, m) == value(s)
    ensures Measured(sections, m) == Named(sections, value)
  {
    if sections == [] {
    } else {
      var n := |sections| - 1;
      MeasuredIsNamed(sections[..n], m, value);
      assert Named(sections, value) == Named(sections[..n], value) + [MeasureFeature(sections[n], m)];
    }
  }

  /** Raw sizes, virtual sizes and entropies, each under the name of its section. */
  lemma MeasuredSamples(sections: seq<Section>)
    requires AllSized(sections)
    ensures Measured(sections, SizeRaw) == Named(sections, (s: Section) => s.sizeRaw as real)
    ensures Measured(sections, VSize) == Named(sections, (s: Section) => s.vsize as real)
    ensures Measured(sections, Entropy) == Named(sections, (s: Section) => s.entropy)
  {
    MeasuredIsNamed(sections, SizeRaw, (s: Section) => s.sizeRaw as real);
    MeasuredIsNamed(sections, VSize, (s: Section) => s.vsize as real);
    MeasuredIsNamed(sections, Entropy, (s: Section) => s.entropy);
  }

  lemma {:induction false} FlagsAt(s: Section, n: nat, i: nat)
    requires Sized(s) && i < n <= |s.flags|
    ensures |Flags(s, n)| == n && FlagName(s, i) == s.name + [58] + s.flags[i]
    ensures Flags(s, n)[i] == Feature(CString(s.name + [58] + s.flags[i]), 1.0)
  {
    if n > 1 {
      FlagsAt(s, n - 1, if i < n - 1 then i else 0);
    }
  }

  /** The sample is put together from the characteristics of one section after the other. */
  lemma {:induction false} FlagsBySection(sections: seq<Section>, parts: seq<seq<Feature>>)
    requires AllSized(sections) && |parts| == |sections|
    requires forall i :: 0 <= i < |sections| ==> parts[i] == Flags(sections[i], |sections[i].flags|)
    ensures AllFlags(sections) == Flatten(parts)
  {
    if sections == [] {
    } else {
      FlagsBySection(sections[..|sections| - 1], parts[..|sections| - 1]);
    }
  }

  /** A section contains an address from its beginning on, up to its virtual or its raw size,
      whichever is larger, as long as its end is a 64-bit number; if it is not, the end wraps
      around. */
  lemma ContainsInNumbers(s: Section, rva: nat)
    ensures var end := s.vaddr + if s.vsize < s.sizeRaw then s.sizeRaw else s.vsize;
            && (end < 0x1_0000_0000_0000_0000 ==>
                  (ContainsRVA(s, rva)
                   <==> s.vaddr <= rva && (rva < s.vaddr + s.vsize || rva < s.vaddr + s.sizeRaw)))
            && (0x1_0000_0000_0000_0000 <= end < 0x2_0000_0000_0000_0000 ==>
                  (ContainsRVA(s, rva) <==> s.vaddr <= rva < end - 0x1_0000_0000_0000_0000))
  {}

  // ---------- the counts and extremes in numbers

  lemma {:induction false} CountIsNumber(sections: seq<Section>, kind: Kind, p: Section -> bool)
    requires forall s: Section :: Is(s, kind) <==> p(s)
    ensures CountOf(sections, kind) == Number(sections, p)
  {
    if sections == [] {
      NumberOfNone(sections, p);
    } else {
      var n := |sections| - 1;
      CountIsNumber(sections[..n], kind, p);
      NumberSnoc(sections[..n], sections[n], p);
      assert sections == sections[..n] + [sections[n]];
    }
  }

  /** Sections without data, without a name, to be read and executed, to be written. */
  lemma CountsInNumbers(sections: seq<Section>)
    ensures CountOf(sections, ZeroSize) == Number(sections, (s: Section) => s.sizeRaw == 0)
    ensures CountOf(sections, EmptyName) == Number(sections, (s: Section) => |s.name| == 0)
    ensures CountOf(sections, ReadableAndExecutable)
         == Number(sections, (s: Section) =>
              s.characteristics & 0x4000_0000 != 0 && s.characteristics & 0x2000_0000 != 0)
    ensures CountOf(sections, Writable) == Number(sections, (s: Section) => s.characteristics & 0x8000_0000 != 0)
  {
    CountIsNumber(sections, ZeroSize, (s: Section) => s.sizeRaw == 0);
    CountIsNumber(sections, EmptyName, (s: Section) => |s.name| == 0);
    CountIsNumber(sections, ReadableAndExecutable,
                  (s: Section) => s.characteristics & 0x4000_0000 != 0 && s.characteristics & 0x2000_0000 != 0);
    CountIsNumber(sections, Writable, (s: Section) => s.characteristics & 0x8000_0000 != 0);
  }

  /** The greatest of 0, a start value and one value of every section. */
  ghost predicate IsLargest(x: real, start: real, sections: seq<Section>, value: Section -> real) {
    && x >= 0.0 && x >= start && (forall i :: 0 <= i < |sections| ==> x >= value(sections[i]))
    && (x == 0.0 || x == start || exists i :: 0 <= i < |sections| && x == value(sections[i]))
  }

  ghost predicate IsSmallest(x: real, start: real, sections: seq<Section>, value: Section -> real) {
    && x <= 0.0 && x <= start && (forall i :: 0 <= i < |sections| ==> x <= value(sections[i]))
    && (x == 0.0 || x == start || exists i :: 0 <= i < |sections| && x == value(sections[i]))
  }

  lemma ExtremesInNumbers(start: real, sections: seq<Section>, m: Measure, value: Section -> real)
    requires forall s: Section :: MeasureOf(s, m) == value(s)
    ensures IsLargest(Largest(Max(0.0, start), sections, m), start, sections, value)
    ensures IsSmallest(Smallest(Min(0.0, start), sections, m), start, sections, value)
  {
    LargestIsMaximum(Max(0.0, start), sections, m);
    SmallestIsMinimum(Min(0.0, start), sections, m);
  }

  // ---------- the slice

  function OverlayEntropy(shannon: EntropyBins.Entropy, overlay: seq<Byte>): real {
    if overlay == [] then 0.0 else shannon(|overlay|, GeneralInfo.ByteCounts(overlay))
  }

  function OverlayRatio(overlay: seq<Byte>, fileSize: nat): real {
    if fileSize == 0 then 0.0 else |overlay| as real / fileSize as real
  }

  function FirstCells(sections: seq<Section>, overlayEntropy: real, overlayRatio: real): (r: seq<real>)
    ensures |r| == FIRST_CELLS
  {
    [|sections| as real,
     CountOf(sections, ZeroSize) as real,
     CountOf(sections, EmptyName) as real,
     CountOf(sections, ReadableAndExecutable) as real,
     CountOf(sections, Writable) as real,
     Largest(Max(0.0, overlayEntropy), sections, Entropy),
     Smallest(Min(0.0, overlayEntropy), sections, Entropy),
     Largest(Max(0.0, overlayRatio), sections, SizeRatio),
     Smallest(Min(0.0, overlayRatio), sections, SizeRatio),
     Largest(0.0, sections, VSizeRatio),
     Smallest(0.0, sections, VSizeRatio)]
  }

  function HashedCells(sections: seq<Section>, entry: Entry): (r: seq<real>)
    requires AllSized(sections) && EntryFits(entry)
    ensures |r| == HASHED_CELLS
  {
    BucketRow(SliceConfig(SECTION_BUCKETS, true), Measured(sections, SizeRaw))
    + BucketRow(SliceConfig(SECTION_BUCKETS, true), Measured(sections, VSize))
    + BucketRow(SliceConfig(SECTION_BUCKETS, true), Measured(sections, Entropy))
    + BucketRow(SliceConfig(SECTION_BUCKETS, true), AllFlags(sections))
    + BucketRow(SliceConfig(ENTRY_BUCKETS, true), EntryName(entry))
  }

  ghost predicate ValidParsed(p: Parsed) {
    p.PE? ==> AllSized(p.sections)
  }

  /** The slice as a function of the sections, the overlay and the size of the file. */
  function SliceOf(shannon: EntropyBins.Entropy, p: Parsed, fileSize: nat): (r: seq<real>)
    requires ValidParsed(p)
    ensures |r| == DIM
  {
    match p
    case NotPE => Zeros(DIM)
    case PE(sections, rva, overlay) =>
      var h, q := OverlayEntropy(shannon, overlay), OverlayRatio(overlay, fileSize);
      EntrySized(sections, rva);
      FirstCells(sections, h, q) + HashedCells(sections, EntrySection(sections, rva)) + [|overlay| as real, q, h]
  }

  // ---------- the slice in numbers

  /** The number of sections and four counts. */
  lemma CountCells(sections: seq<Section>, h: real, q: real)
    ensures FirstCells(sections, h, q)[..5] == [
              |sections| as real,
              Number(sections, (s: Section) => s.sizeRaw == 0) as real,
              Number(sections, (s: Section) => |s.name| == 0) as real,
              Number(sections, (s: Section) =>
                s.characteristics & 0x4000_0000 != 0 && s.characteristics & 0x2000_0000 != 0) as real,
              Number(sections, (s: Section) => s.characteristics & 0x8000_0000 != 0) as real]
  {
    CountsInNumbers(sections);
  }

  /** The greatest and the least entropy, size ratio and virtual size ratio. */
  lemma ExtremeCells(sections: seq<Section>, h: real, q: real)
    ensures IsLargest(FirstCells(sections, h, q)[5], h, sections, (s: Section) => s.entropy)
    ensures IsSmallest(FirstCells(sections, h, q)[6], h, sections, (s: Section) => s.entropy)
    ensures IsLargest(FirstCells(sections, h, q)[7], q, sections, (s: Section) => s.sizeRatio)
    ensures IsSmallest(FirstCells(sections, h, q)[8], q, sections, (s: Section) => s.sizeRatio)
    ensures IsLargest(FirstCells(sections, h, q)[9], 0.0, sections, (s: Section) => s.vsizeRatio)
    ensures IsSmallest(FirstCells(sections, h, q)[10], 0.0, sections, (s: Section) => s.vsizeRatio)
  {
    ExtremesInNumbers(h, sections, Entropy, (s: Section) => s.entropy);
    ExtremesInNumbers(q, sections, SizeRatio, (s: Section) => s.sizeRatio);
    ExtremesInNumbers(0.0, sections, VSizeRatio, (s: Section) => s.vsizeRatio);
  }

  /** Fifty cells each for sizes, virtual sizes, entropies and characteristics, ten for the
      name of the entry section. */
  lemma HashedRanges(sections: seq<Section>, entry: Entry)
    requires AllSized(sections) && EntryFits(entry)
    ensures var r := HashedCells(sections, entry);
            && r[..50] == BucketRow(MurmurConfig(50, true, 0), Named(sections, (s: Section) => s.sizeRaw as real))
            && r[50..100] == BucketRow(MurmurConfig(50, true, 0), Named(sections, (s: Section) => s.vsize as real))
            && r[100..150] == BucketRow(MurmurConfig(50, true, 0), Named(sections, (s: Section) => s.entropy))
            && r[150..200] == BucketRow(MurmurConfig(50, true, 0), AllFlags(sections))
            && r[200..] == BucketRow(MurmurConfig(10, true, 0),
                                     if entry.NoEntry? then [] else [Feature(CString(entry.section.name), 1.0)])
  {
    MeasuredSamples(sections);
    FiveSlices(BucketRow(SliceConfig(SECTION_BUCKETS, true), Measured(sections, SizeRaw)),
               BucketRow(SliceConfig(SECTION_BUCKETS, true), Measured(sections, VSize)),
               BucketRow(SliceConfig(SECTION_BUCKETS, true), Measured(sections, Entropy)),
               BucketRow(SliceConfig(SECTION_BUCKETS, true), AllFlags(sections)),
               BucketRow(SliceConfig(ENTRY_BUCKETS, true), EntryName(entry)));
  }

  lemma FiveSlices(a: seq<real>, b: seq<real>, c: seq<real>, d: seq<real>, e: seq<real>)
    requires |a| == |b| == |c| == |d| == 50 && |e| == 10
    ensures (a + b + c + d + e)[..50] == a && (a + b + c + d + e)[50..100] == b
    ensures (a + b + c + d + e)[100..150] == c && (a + b + c + d + e)[150..200] == d
    ensures (a + b + c + d + e)[200..] == e
  {}

  /** The share of the overlay is a share of the file's size. */
  lemma OverlayInNumbers(shannon: EntropyBins.Entropy, overlay: seq<Byte>, fileSize: nat, counts: seq<nat>)
    requires |counts| == 256 && forall b :: 0 <= b < 256 ==> counts[b] == Count(overlay, b)
    ensures OverlayRatio(overlay, fileSize) * fileSize as real == if fileSize == 0 then 0.0 else |overlay| as real
    ensures fileSize == 0 ==> OverlayRatio(overlay, fileSize) == 0.0
    ensures OverlayEntropy(shannon, overlay) == if overlay == [] then 0.0 else shannon(|overlay|, counts)
  {
    assert counts == GeneralInfo.ByteCounts(overlay);
  }

  /** Eleven cells, the hashed ones, and three about the overlay. */
  lemma SliceParts(shannon: EntropyBins.Entropy, sections: seq<Section>, rva: nat, overlay: seq<Byte>, fileSize: nat)
    requires AllSized(sections)
    ensures var r := SliceOf(shannon, PE(sections, rva, overlay), fileSize);
            var h, q := OverlayEntropy(shannon, overlay), OverlayRatio(overlay, fileSize);
            && |r| == 224 && EntryFits(EntrySection(sections, rva))
            && r[..11] == FirstCells(sections, h, q)
            && r[11..221] == HashedCells(sections, EntrySection(sections, rva))
            && r[221..] == [|overlay| as real, q, h]
  {
    var h, q := OverlayEntropy(shannon, overlay), OverlayRatio(overlay, fileSize);
    EntrySized(sections, rva);
    ThreeSlices(FirstCells(sections, h, q), HashedCells(sections, EntrySection(sections, rva)),
                [|overlay| as real, q, h]);
  }

  lemma NotParsed(shannon: EntropyBins.Entropy, fileSize: nat, c: nat)
    requires c < 224
    ensures SliceOf(shannon, NotPE, fileSize)[c] == 0.0
  {}
}
