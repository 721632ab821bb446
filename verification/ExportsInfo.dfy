/** The feature type of exports: the names of the exported functions, hashed. The hasher lives
    as long as the feature type and is used again for every file. */
module ExportsInfos {
  import opened CsrRows
  import opened FeatureHashing
  import opened FeatureHashers
  import opened HashedNames
  import opened HasherSlices
  import opened OutputSlices

  const FUNCTION_BUCKETS: nat := 128
  const DIM: nat := 1 + FUNCTION_BUCKETS

  /** The number that is written instead of the number of functions. */
  const NUM_EXPORTED_FUNCTIONS: real := 128.0

  /** What the parsed file says about exports: nothing when it does not parse or has no
      export directory. */
  datatype Exports = NoExports | Exports(functions: seq<Function>)

  /** The first `n` functions. */
  function Exported(functions: seq<Function>, n: nat): seq<Feature>
    requires n <= |functions|
  {
    if n == 0 then [] else Exported(functions, n - 1) + [Feature(PlainName(functions[n - 1]), 1.0)]
  }

  /** The slice as a function of the exports. */
  function SliceOf(exports: Exports): (r: seq<real>)
    ensures |r| == DIM
  {
    match exports
    case NoExports => Zeros(DIM)
    case Exports(functions) =>
      [NUM_EXPORTED_FUNCTIONS]
      + BucketRow(SliceConfig(FUNCTION_BUCKETS, true), Exported(functions, |functions|))
  }

  // ---------- the slice in numbers

  lemma {:induction false} ExportedAt(functions: seq<Function>, n: nat, i: nat)
    requires i < n <= |functions|
    ensures |Exported(functions, n)| == n && Exported(functions, n)[i] == Feature(PlainName(functions[i]), 1.0)
  {
    if n > 1 {
      ExportedAt(functions, n - 1, if i < n - 1 then i else 0);
    }
  }

  /** 128 whatever the number of exports is, and the buckets of one feature for each of them. */
  lemma SliceCells(functions: seq<Function>, sample: seq<Feature>)
    requires |sample| == |functions|
    requires forall i :: 0 <= i < |functions| ==> sample[i] == Feature(PlainName(functions[i]), 1.0)
    ensures SliceOf(Exports(functions)) == [128.0] + BucketRow(MurmurConfig(128, true, 0), sample)
  {
    var n := |functions|;
    if n == 0 {
      assert sample == Exported(functions, n);
    } else {
      forall i | 0 <= i < n ensures |Exported(functions, n)| == n && Exported(functions, n)[i] == sample[i] {
        ExportedAt(functions, n, i);
      }
      ExportedAt(functions, n, 0);
      assert sample == Exported(functions, n);
    }
  }

  lemma NothingExported(c: nat)
    requires c < 129
    ensures SliceOf(NoExports)[c] == 0.0
  {}

  class ExportsInfo {
    const functionsFH: FeatureHasher

    constructor ()
      ensures fresh(functionsFH)
    {
      functionsFH := new FeatureHasher();
    }

    /** Whatever the hasher held: the whole slice is written, and nothing else. */
    method Start(output: array<real>, at: nat, exports: Exports)
      requires at + DIM <= output.Length
      modifies functionsFH, output
      ensures HoldsAt(output[..], at, SliceOf(exports))
      ensures SameOutside(old(output[..]), output[..], at, DIM)
    {
      ghost var s0 := output[..];
      ClearCells(output, at, DIM);
      ReplacesHolds(s0, output[..], at, Zeros(DIM));
      if exports.NoExports? {
        return;
      }
      var functions := exports.functions;
      ghost var sample, row := Exported(functions, |functions|), SliceOf(exports)[1..];
      StartHasher(functionsFH, output, at + 1, FUNCTION_BUCKETS, true);
      FeedAll(functions, output, at + 1, SliceConfig(FUNCTION_BUCKETS, true));
      FinishHasher(functionsFH, output, at + 1, SliceConfig(FUNCTION_BUCKETS, true), sample);
      ghost var s1 := output[..];
      output[at] := NUM_EXPORTED_FUNCTIONS;
      HoldsKept(s1, output[..], at + 1, row, at, 1);
      HoldsCell(output[..], at, NUM_EXPORTED_FUNCTIONS, row);
    }

    method FeedAll(functions: seq<Function>, ghost output: array<real>, ghost base: nat, ghost cfg: Config)
      requires Holding(functionsFH, output, base, cfg, [])
      modifies functionsFH
      ensures Holding(functionsFH, output, base, cfg, Exported(functions, |functions|))
    {
      for i := 0 to |functions|
        invariant Holding(functionsFH, output, base, cfg, Exported(functions, i))
      {
        PlainNameWhole(functions[i]);
        var name := BuildName(functions[i]);
        FeedHasher(functionsFH, name, 1.0, output, base, cfg, Exported(functions, i));
      }
    }
  }

  method BuildName(f: Function) returns (name: seq<bv8>)
    ensures |name| <= MAX_NAME && CString(name) == PlainName(f)
  {
    PlainNameWhole(f);
    if f.name != [] {
      name := Cut(f.name);
    } else {
      name := ORDINAL_PREFIX;
      name := name + Decimal(f.ordinal);
    }
  }
}
