/** The extractor: eleven feature types share one output vector, each of them owns one slice
    of it, and one extractor object serves any number of files. */
module Core {
  import opened Bytes
  import opened BlockStreams
  import opened OutputSlices
  import EntropyBins
  import ReadableStrings
  import GeneralInfo
  import ByteEntropy
  import StringExtractors
  import Sections
  import ImportsInfos
  import ExportsInfos
  import RichHeaders
  import CsrRows

  // ---------- the layout

  /** The number of features of each type, in output order. */
  const DIMS: seq<nat> := [263, 256, 177, 74, 224, 1282, 129, 34, 33, 8, 88]

  const NAMES: seq<string> := [
    "general,histogram", "byteentropy", "strings", "header", "section", "imports", "exports",
    "datadirectories", "richheader", "authenticode", "pefilewarnings"]

  const NUM_FEATURES: nat := 2568

  /** Where slice `k` begins: the moving pointer of all four passes. */
  function Offset(k: nat): nat
    requires k <= |DIMS|
  {
    if k == 0 then 0 else Offset(k - 1) + DIMS[k - 1]
  }

  lemma {:induction false} OffsetsGrow(i: nat, j: nat)
    requires i <= j <= |DIMS|
    ensures Offset(i) <= Offset(j)
  {
    if i == j {
    } else {
      OffsetsGrow(i, j - 1);
    }
  }

  lemma OffsetValues()
    ensures Offset(0) == 0 && Offset(1) == 263 && Offset(2) == 519 && Offset(3) == 696
    ensures Offset(4) == 770 && Offset(5) == 994 && Offset(6) == 2276 && Offset(7) == 2405
    ensures Offset(8) == 2439 && Offset(9) == 2472 && Offset(10) == 2480 && Offset(11) == NUM_FEATURES
  {
    OffsetValuesLow();
    assert Offset(7) == Offset(6) + 129 && Offset(8) == Offset(7) + 34 && Offset(9) == Offset(8) + 33;
    assert Offset(10) == Offset(9) + 8 && Offset(11) == Offset(10) + 88;
  }

  lemma OffsetValuesLow()
    ensures Offset(0) == 0 && Offset(1) == 263 && Offset(2) == 519 && Offset(3) == 696
    ensures Offset(4) == 770 && Offset(5) == 994 && Offset(6) == 2276
  {
    assert Offset(1) == Offset(0) + 263 && Offset(2) == Offset(1) + 256 && Offset(3) == Offset(2) + 177;
    assert Offset(4) == Offset(3) + 74 && Offset(5) == Offset(4) + 224 && Offset(6) == Offset(5) + 1282;
  }

  predicate InSlice(k: nat, cell: nat)
    requires k < |DIMS|
  {
    Offset(k) <= cell < Offset(k) + DIMS[k]
  }

  /** The slices are disjoint and cover the whole vector: every cell lies in exactly one. */
  lemma SlicesTile(cell: nat)
    requires cell < NUM_FEATURES
    ensures exists k: nat :: k < |DIMS| && InSlice(k, cell)
    ensures forall i: nat, j: nat :: i < j < |DIMS| && InSlice(i, cell) ==> !InSlice(j, cell)
  {
    OffsetValues();
    var k := SliceBelow(cell, |DIMS|);
    forall i: nat, j: nat | i < j < |DIMS| && InSlice(i, cell) ensures !InSlice(j, cell) {
      OffsetsGrow(i + 1, j);
    }
  }

  lemma {:induction false} SliceBelow(cell: nat, n: nat) returns (k: nat)
    requires n <= |DIMS| && cell < Offset(n)
    ensures k < n && InSlice(k, cell)
  {
    if cell >= Offset(n - 1) {
      k := n - 1;
    } else {
      k := SliceBelow(cell, n - 1);
    }
  }

  datatype Lookup = Found(index: nat, offset: nat) | NoSuchFeature

  /** The offset of a feature type by name: of the first one so named, and the same as in
      the passes. An unknown name is an error. */
  method GetFeatureTypeAndOffsetByName(name: string) returns (r: Lookup)
    ensures r.Found? ==> r.index < |DIMS| && NAMES[r.index] == name && r.offset == Offset(r.index)
    ensures r.Found? ==> forall k :: 0 <= k < r.index ==> NAMES[k] != name
    ensures r.NoSuchFeature? <==> name !in NAMES
  {
    var offset := 0;
    for k := 0 to |DIMS|
      invariant offset == Offset(k)
      invariant forall i :: 0 <= i < k ==> NAMES[i] != name
    {
      if NAMES[k] == name {
        return Found(k, offset);
      }
      offset := offset + DIMS[k];
    }
    r := NoSuchFeature;
  }

  // ---------- a file as the features see it

  /** What the features that do not read blocks take from the parsed file: whether it
      parses, its sections, imports, exports and rich header, and the contents of the three
      slices that are copies of header fields. */
  datatype Parser = Parser(
    isPE: seq<Byte> -> bool,
    sections: seq<Byte> -> Sections.Parsed,
    imports: seq<Byte> -> ImportsInfos.Imports,
    exports: seq<Byte> -> ExportsInfos.Exports,
    richHeader: seq<Byte> -> seq<Byte>,
    fields: (nat, seq<Byte>) -> seq<real>)

  const FIRST_STATIC: nat := 3
  const SECTIONS: nat := 4
  const IMPORTS: nat := 5
  const EXPORTS: nat := 6
  const RICH_HEADER: nat := 8
  const WARNINGS: nat := 10

  ghost predicate ValidParser(p: Parser) {
    && (forall file {:trigger p.sections(file)} :: Sections.ValidParsed(p.sections(file)))
    && (forall file {:trigger p.imports(file)} :: ImportsInfos.AllSized(p.imports(file)))
    && (forall k: nat, file :: FIRST_STATIC <= k < |DIMS| ==> |p.fields(k, file)| == DIMS[k])
  }

  function StaticRow(shannon: EntropyBins.Entropy, p: Parser, file: seq<Byte>, k: nat): (r: seq<real>)
    requires ValidParser(p) && FIRST_STATIC <= k < |DIMS|
    ensures |r| == DIMS[k]
  {
    if k == SECTIONS then Sections.SliceOf(shannon, p.sections(file), |file|)
    else if k == IMPORTS then ImportsInfos.SliceOf(p.imports(file))
    else if k == EXPORTS then ExportsInfos.SliceOf(p.exports(file))
    else if k == RICH_HEADER then RichHeaders.SliceOf(p.richHeader(file))
    else if k == WARNINGS then CsrRows.Zeros(88)
    else p.fields(k, file)
  }

  /** The slices FIRST_STATIC, ..., `n - 1`, one after the other. */
  function StaticRows(shannon: EntropyBins.Entropy, p: Parser, file: seq<Byte>, n: nat): seq<real>
    requires ValidParser(p) && FIRST_STATIC <= n <= |DIMS|
  {
    if n == FIRST_STATIC then [] else StaticRows(shannon, p, file, n - 1) + StaticRow(shannon, p, file, n - 1)
  }

  lemma {:induction false} StaticLength(shannon: EntropyBins.Entropy, p: Parser, file: seq<Byte>, n: nat)
    requires ValidParser(p) && FIRST_STATIC <= n <= |DIMS|
    ensures |StaticRows(shannon, p, file, n)| == Offset(n) - Offset(FIRST_STATIC)
    ensures Offset(FIRST_STATIC) <= Offset(n)
  {
    if n <= FIRST_STATIC {
    } else {
      StaticLength(shannon, p, file, n - 1);
    }
  }

  /** The feature vector as a function of the file alone. The block size matters to the
      readable strings and to nothing else. */
  function FeatureVector(shannon: EntropyBins.Entropy, m: StringExtractors.Matcher, p: Parser,
                         file: seq<Byte>, blockSize: nat): seq<real>
    requires blockSize > 0 && ValidParser(p)
  {
    GeneralInfo.Features(shannon, p.isPE(file), file)
    + ByteEntropy.Histogram(shannon, file)
    + StringExtractors.Features(shannon, m, ReadableStrings.Found(Chunks(file, blockSize)))
    + StaticRows(shannon, p, file, |DIMS|)
  }

  // ---------- where the slices stand

  lemma LastStaticSlice(shannon: EntropyBins.Entropy, p: Parser, file: seq<Byte>, k: nat)
    requires ValidParser(p) && FIRST_STATIC <= k < |DIMS|
    ensures 696 <= Offset(k)
    ensures HoldsAt(StaticRows(shannon, p, file, k + 1), Offset(k) - 696, StaticRow(shannon, p, file, k))
  {
    OffsetValuesLow();
    StaticLength(shannon, p, file, k);
    HoldsLast(StaticRows(shannon, p, file, k), StaticRow(shannon, p, file, k));
  }

  lemma {:induction false} StaticSlice(shannon: EntropyBins.Entropy, p: Parser, file: seq<Byte>, n: nat, k: nat)
    requires ValidParser(p) && FIRST_STATIC <= k < n <= |DIMS|
    ensures 696 <= Offset(k)
    ensures HoldsAt(StaticRows(shannon, p, file, n), Offset(k) - 696, StaticRow(shannon, p, file, k))
  {
    if n == k + 1 {
      LastStaticSlice(shannon, p, file, k);
    } else {
      StaticSlice(shannon, p, file, n - 1, k);
      HoldsBefore(StaticRows(shannon, p, file, n - 1), Offset(k) - 696, StaticRow(shannon, p, file, k),
                  StaticRow(shannon, p, file, n - 1));
    }
  }

  /** The features that read blocks have the first three slices. */
  lemma ReaderSlices(shannon: EntropyBins.Entropy, m: StringExtractors.Matcher, p: Parser,
                     file: seq<Byte>, blockSize: nat)
    requires blockSize > 0 && ValidParser(p)
    ensures var v := FeatureVector(shannon, m, p, file, blockSize);
            && |v| == 2568
            && v[..263] == GeneralInfo.Features(shannon, p.isPE(file), file)
            && v[263..519] == ByteEntropy.Histogram(shannon, file)
            && v[519..696] == StringExtractors.Features(shannon, m, ReadableStrings.Found(Chunks(file, blockSize)))
            && v[696..] == StaticRows(shannon, p, file, |DIMS|)
  {
    OffsetValues();
    StaticLength(shannon, p, file, |DIMS|);
    FourSlices(GeneralInfo.Features(shannon, p.isPE(file), file), ByteEntropy.Histogram(shannon, file),
               StringExtractors.Features(shannon, m, ReadableStrings.Found(Chunks(file, blockSize))),
               StaticRows(shannon, p, file, |DIMS|));
  }

  /** Sections, imports, exports, the rich header and the warnings, which are all zero. */
  lemma StaticSlices(shannon: EntropyBins.Entropy, m: StringExtractors.Matcher, p: Parser,
                     file: seq<Byte>, blockSize: nat, v: seq<real>)
    requires blockSize > 0 && ValidParser(p) && v == FeatureVector(shannon, m, p, file, blockSize)
    ensures |v| == 2568
    ensures v[770..994] == Sections.SliceOf(shannon, p.sections(file), |file|)
    ensures v[994..2276] == ImportsInfos.SliceOf(p.imports(file))
    ensures v[2276..2405] == ExportsInfos.SliceOf(p.exports(file))
    ensures v[2439..2472] == RichHeaders.SliceOf(p.richHeader(file))
    ensures v[2480..2568] == seq(88, _ => 0.0)
  {
    OffsetValues();
    ReaderSlices(shannon, m, p, file, blockSize);
    StaticSliceOfVector(shannon, m, p, file, blockSize, 4);
    StaticSliceOfVector(shannon, m, p, file, blockSize, 5);
    StaticSliceOfVector(shannon, m, p, file, blockSize, 6);
    StaticSliceOfVector(shannon, m, p, file, blockSize, 8);
    StaticSliceOfVector(shannon, m, p, file, blockSize, 10);
  }

  lemma StaticSliceOfVector(shannon: EntropyBins.Entropy, m: StringExtractors.Matcher, p: Parser,
                            file: seq<Byte>, blockSize: nat, k: nat)
    requires blockSize > 0 && ValidParser(p) && FIRST_STATIC <= k < |DIMS|
    ensures HoldsAt(FeatureVector(shannon, m, p, file, blockSize), Offset(k), StaticRow(shannon, p, file, k))
  {
    StaticSlice(shannon, p, file, |DIMS|, k);
    ReaderSlices(shannon, m, p, file, blockSize);
    HoldsBehind(FeatureVector(shannon, m, p, file, blockSize), 696, Offset(k) - 696, StaticRow(shannon, p, file, k));
  }

  /** The vector that a search of the whole file for strings would give. */
  function WholeFileVector(shannon: EntropyBins.Entropy, m: StringExtractors.Matcher, p: Parser,
                           file: seq<Byte>): seq<real>
    requires ValidParser(p)
  {
    GeneralInfo.Features(shannon, p.isPE(file), file)
    + ByteEntropy.Histogram(shannon, file)
    + StringExtractors.Features(shannon, m, ReadableStrings.Strings(file))
    + StaticRows(shannon, p, file, |DIMS|)
  }

  /** The block size does not matter to a file if and only if no five printable bytes of the
      file lie across a block boundary. */
  lemma BlockSizeIndependence(shannon: EntropyBins.Entropy, m: StringExtractors.Matcher, p: Parser,
                              file: seq<Byte>, blockSize: nat)
    requires blockSize > 0 && ValidParser(p)
    ensures FeatureVector(shannon, m, p, file, blockSize) == WholeFileVector(shannon, m, p, file)
       <==> forall q: nat :: ReadableStrings.Boundary(Chunks(file, blockSize), q)
                             ==> !ReadableStrings.Straddles(file, q)
  {
    ChunksConcat(file, blockSize);
    ReadableStrings.BlockwiseSearch(Chunks(file, blockSize));
    var found, whole := ReadableStrings.Found(Chunks(file, blockSize)), ReadableStrings.Strings(file);
    var v, w := FeatureVector(shannon, m, p, file, blockSize), WholeFileVector(shannon, m, p, file);
    StringCells(shannon, m, p, file, found);
    StringCells(shannon, m, p, file, whole);
  }

  /** The number of strings and of their bytes can be read off a vector. */
  lemma StringCells(shannon: EntropyBins.Entropy, m: StringExtractors.Matcher, p: Parser,
                    file: seq<Byte>, found: seq<seq<Byte>>)
    requires ValidParser(p)
    ensures var v := GeneralInfo.Features(shannon, p.isPE(file), file)
                     + ByteEntropy.Histogram(shannon, file)
                     + StringExtractors.Features(shannon, m, found)
                     + StaticRows(shannon, p, file, |DIMS|);
            |v| > 521 && v[519] == |found| as real && v[521] == TotalLength(found) as real
  {}

  /** For every block size there is a file to which it matters: printable bytes, four more of
      them than a block has. */
  lemma BlockSizeMatters(shannon: EntropyBins.Entropy, m: StringExtractors.Matcher, p: Parser, blockSize: nat)
    requires blockSize > 0 && ValidParser(p)
    ensures var file := seq(blockSize + 4, _ => 0x61);
            FeatureVector(shannon, m, p, file, blockSize) != WholeFileVector(shannon, m, p, file)
  {
    var file: seq<Byte> := seq(blockSize + 4, _ => 0x61);
    var blocks := Chunks(file, blockSize);
    BlockSizeIndependence(shannon, m, p, file, blockSize);
    ChunksBegin(file, blockSize);
    assert ReadableStrings.Boundary(blocks, blockSize);
    assert ReadableStrings.Window(file, blockSize - 1);
    assert ReadableStrings.Straddles(file, blockSize);
  }

  lemma ChunksBegin(file: seq<Byte>, blockSize: nat)
    requires 0 < blockSize < |file|
    ensures |Chunks(file, blockSize)| > 1 && |Concat(Chunks(file, blockSize)[..1])| == blockSize
  {
    var blocks := Chunks(file, blockSize);
    assert blocks[..1] == [] + [file[..blockSize]] && Chunks(file[blockSize..], blockSize) != [];
    ConcatSnoc([], file[..blockSize]);
  }
}
