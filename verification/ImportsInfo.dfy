/** The feature type of imports: names of libraries and of their functions, hashed without
    alternating signs, and how many there are of each. */
module ImportsInfos {
  import opened Collections
  import opened CsrRows
  import opened FeatureHashing
  import opened FeatureHashers
  import opened HashedNames
  import opened HasherSlices
  import opened OutputSlices
  import EntropyBins

  const LIBRARY_BUCKETS: nat := 256
  const FUNCTION_BUCKETS: nat := 1024
  const DIM: nat := 2 + LIBRARY_BUCKETS + FUNCTION_BUCKETS

  datatype ImportLibrary = ImportLibrary(dllName: seq<bv8>, functions: seq<Function>)

  /** library:function */
  function FunctionName(dllName: seq<bv8>, f: Function): seq<bv8> {
    dllName + COLON + PlainName(f)
  }

  /** The length of every name to be hashed is an int. */
  predicate Sized(lib: ImportLibrary) {
    && |lib.dllName| < 0x8000_0000
    && forall i :: 0 <= i < |lib.functions| ==> |FunctionName(lib.dllName, lib.functions[i])| < 0x8000_0000
  }

  /** What the parsed file says about imports: nothing when it does not parse or has no
      import directory. */
  datatype Imports = NoImports | Imports(libs: seq<ImportLibrary>)

  predicate AllSized(imports: Imports) {
    imports.Imports? ==> forall i :: 0 <= i < |imports.libs| ==> Sized(imports.libs[i])
  }

  // ---------- the samples

  function Libraries(libs: seq<ImportLibrary>): seq<Feature>
    requires forall i :: 0 <= i < |libs| ==> Sized(libs[i])
  {
    if libs == [] then []
    else
      var last := libs[|libs| - 1];
      assert Sized(last);
      Libraries(libs[..|libs| - 1]) + [Feature(CString(last.dllName), 1.0)]
  }

  function FunctionFeature(lib: ImportLibrary, i: nat): (f: Feature)
    requires Sized(lib) && i < |lib.functions|
    ensures f.value == 1.0
  {
    Feature(CString(FunctionName(lib.dllName, lib.functions[i])), 1.0)
  }

  /** The first `n` functions of a library. */
  function Functions(lib: ImportLibrary, n: nat): seq<Feature>
    requires Sized(lib) && n <= |lib.functions|
  {
    if n == 0 then [] else Functions(lib, n - 1) + [FunctionFeature(lib, n - 1)]
  }

  function AllFunctions(libs: seq<ImportLibrary>): seq<Feature>
    requires forall i :: 0 <= i < |libs| ==> Sized(libs[i])
  {
    if libs == [] then []
    else
      var last := libs[|libs| - 1];
      AllFunctions(libs[..|libs| - 1]) + Functions(last, |last.functions|)
  }

  function NumFunctions(libs: seq<ImportLibrary>): nat {
    if libs == [] then 0 else NumFunctions(libs[..|libs| - 1]) + |libs[|libs| - 1].functions|
  }

  lemma OneMoreLibrary(libs: seq<ImportLibrary>, i: nat)
    requires (forall k :: 0 <= k < |libs| ==> Sized(libs[k])) && i < |libs|
    ensures Libraries(libs[..i + 1]) == Libraries(libs[..i]) + [Feature(CString(libs[i].dllName), 1.0)]
    ensures AllFunctions(libs[..i + 1]) == AllFunctions(libs[..i]) + Functions(libs[i], |libs[i].functions|)
    ensures NumFunctions(libs[..i + 1]) == NumFunctions(libs[..i]) + |libs[i].functions|
  {
    assert libs[..i + 1][..i] == libs[..i];
  }

  /** The slice as a function of the imports. */
  function Features(libs: seq<ImportLibrary>): (r: seq<real>)
    requires forall i :: 0 <= i < |libs| ==> Sized(libs[i])
    ensures |r| == DIM
  {
    [NumFunctions(libs) as real, |libs| as real]
    + BucketRow(SliceConfig(LIBRARY_BUCKETS, false), Libraries(libs))
    + BucketRow(SliceConfig(FUNCTION_BUCKETS, false), AllFunctions(libs))
  }

  function SliceOf(imports: Imports): (r: seq<real>)
    requires AllSized(imports)
    ensures |r| == DIM
  {
    match imports
    case NoImports => Zeros(DIM)
    case Imports(libs) => Features(libs)
  }

  // ---------- the slice in numbers

  /** One feature for every library, under its name. */
  lemma {:induction false} LibraryAt(libs: seq<ImportLibrary>, j: nat)
    requires (forall i :: 0 <= i < |libs| ==> Sized(libs[i])) && j < |libs|
    ensures |Libraries(libs)| == |libs| && Libraries(libs)[j] == Feature(CString(libs[j].dllName), 1.0)
  {
    var n := |libs| - 1;
    if n > 0 {
      LibraryAt(libs[..n], if j < n then j else 0);
    }
  }

  lemma {:induction false} FunctionsAt(lib: ImportLibrary, n: nat, i: nat)
    requires Sized(lib) && i < n <= |lib.functions|
    ensures |Functions(lib, n)| == n
    ensures Functions(lib, n)[i] == Feature(CString(lib.dllName + [58] + PlainName(lib.functions[i])), 1.0)
  {
    if n > 1 {
      FunctionsAt(lib, n - 1, if i < n - 1 then i else 0);
    }
  }

  /** The sample is put together from the functions of one library after the other. */
  lemma {:induction false} FunctionsByLibrary(libs: seq<ImportLibrary>, parts: seq<seq<Feature>>)
    requires (forall i :: 0 <= i < |libs| ==> Sized(libs[i])) && |parts| == |libs|
    requires forall i :: 0 <= i < |libs| ==> parts[i] == Functions(libs[i], |libs[i].functions|)
    ensures AllFunctions(libs) == Flatten(parts)
  {
    if libs == [] {
    } else {
      FunctionsByLibrary(libs[..|libs| - 1], parts[..|libs| - 1]);
    }
  }

  /** Two counts, 256 cells for the libraries, 1024 for the functions. */
  lemma SliceParts(libs: seq<ImportLibrary>)
    requires forall i :: 0 <= i < |libs| ==> Sized(libs[i])
    ensures |SliceOf(Imports(libs))| == 1282
    ensures SliceOf(Imports(libs))[..2] == [|AllFunctions(libs)| as real, |libs| as real]
    ensures SliceOf(Imports(libs))[2..258] == BucketRow(MurmurConfig(256, false, 0), Libraries(libs))
    ensures SliceOf(Imports(libs))[258..] == BucketRow(MurmurConfig(1024, false, 0), AllFunctions(libs))
  {
    SamplesAreOnes(libs);
    ThreeSlices([NumFunctions(libs) as real, |libs| as real],
                BucketRow(SliceConfig(LIBRARY_BUCKETS, false), Libraries(libs)),
                BucketRow(SliceConfig(FUNCTION_BUCKETS, false), AllFunctions(libs)));
  }

  lemma NothingImported(c: nat)
    requires c < 1282
    ensures SliceOf(NoImports)[c] == 0.0
  {}

  /** One feature for every function of a library. */
  ghost predicate Lists(all: seq<Feature>, lib: ImportLibrary)
    requires Sized(lib)
  {
    |all| == |lib.functions| && forall i :: 0 <= i < |all| ==> all[i] == FunctionFeature(lib, i)
  }

  /** A sample and the first `n` of more features. */
  ghost function Extended(before: seq<Feature>, all: seq<Feature>, n: nat): seq<Feature>
    requires n <= |all|
  {
    before + all[..n]
  }

  lemma AllListed(before: seq<Feature>, lib: ImportLibrary)
    requires Sized(lib)
    ensures var all := Functions(lib, |lib.functions|);
            Lists(all, lib) && Extended(before, all, 0) == before && Extended(before, all, |all|) == before + all
  {
    var n := |lib.functions|;
    var all := Functions(lib, n);
    if n > 0 {
      forall i | 0 <= i < n ensures |all| == n && all[i] == FunctionFeature(lib, i) {
        FunctionsAt(lib, n, i);
      }
      FunctionsAt(lib, n, 0);
    }
    assert all[..0] == [] && all[..|all|] == all;
  }

  lemma OneMoreFunction(before: seq<Feature>, all: seq<Feature>, lib: ImportLibrary, n: nat)
    requires Sized(lib) && Lists(all, lib) && n < |all|
    ensures |FunctionName(lib.dllName, lib.functions[n])| < 0x8000_0000
    ensures Extended(before, all, n + 1)
         == Extended(before, all, n) + [Feature(CString(FunctionName(lib.dllName, lib.functions[n])), 1.0)]
  {}

  // ---------- conservation

  lemma AllOnesSnoc(sample: seq<Feature>, f: Feature)
    requires AllOnes(sample) && f.value == 1.0
    ensures AllOnes(sample + [f])
  {}

  lemma {:induction false} FunctionsAreOnes(lib: ImportLibrary, n: nat)
    requires Sized(lib) && n <= |lib.functions|
    ensures |Functions(lib, n)| == n && AllOnes(Functions(lib, n))
  {
    if n == 0 {
    } else {
      FunctionsAreOnes(lib, n - 1);
      AllOnesSnoc(Functions(lib, n - 1), FunctionFeature(lib, n - 1));
    }
  }

  lemma {:induction false} SamplesAreOnes(libs: seq<ImportLibrary>)
    requires forall i :: 0 <= i < |libs| ==> Sized(libs[i])
    ensures |Libraries(libs)| == |libs| && AllOnes(Libraries(libs))
    ensures |AllFunctions(libs)| == NumFunctions(libs) && AllOnes(AllFunctions(libs))
  {
    if libs == [] {
    } else {
      var last := libs[|libs| - 1];
      SamplesAreOnes(libs[..|libs| - 1]);
      FunctionsAreOnes(last, |last.functions|);
    }
  }

  /** The two counts in the slice are the totals of its two histograms. */
  lemma CountsAreTotals(libs: seq<ImportLibrary>)
    requires forall i :: 0 <= i < |libs| ==> Sized(libs[i])
    ensures var r := Features(libs);
            && r[1] == EntropyBins.Sum(r[2..258])
            && r[0] == EntropyBins.Sum(r[258..])
  {
    var r, cfgL, cfgF := Features(libs), SliceConfig(LIBRARY_BUCKETS, false), SliceConfig(FUNCTION_BUCKETS, false);
    SamplesAreOnes(libs);
    BucketsAddUp(cfgL, Libraries(libs));
    BucketsAddUp(cfgF, AllFunctions(libs));
    assert r[2..258] == BucketRow(cfgL, Libraries(libs));
    assert r[258..] == BucketRow(cfgF, AllFunctions(libs));
  }

  // ---------- the feature type

  class ImportsInfo {
    const librariesFH: FeatureHasher
    const functionsFH: FeatureHasher

    constructor ()
      ensures librariesFH != functionsFH && fresh(librariesFH) && fresh(functionsFH)
    {
      librariesFH := new FeatureHasher();
      functionsFH := new FeatureHasher();
    }

    /** Everything happens at the start; without an import directory the slice is zero. */
    method Start(output: array<real>, at: nat, imports: Imports)
      requires librariesFH != functionsFH
      requires at + DIM <= output.Length
      requires AllSized(imports)
      modifies librariesFH, functionsFH, output
      ensures SameOutside(old(output[..]), output[..], at, DIM)
      ensures HoldsAt(output[..], at, SliceOf(imports))
    {
      ghost var s0 := output[..];
      ClearCells(output, at, DIM);
      ReplacesHolds(s0, output[..], at, Zeros(DIM));
      if imports.NoImports? {
        return;
      }
      var libs := imports.libs;
      ghost var s1 := output[..];
      StartHasher(librariesFH, output, at + 2, LIBRARY_BUCKETS, false);
      ghost var s2 := output[..];
      StartHasher(functionsFH, output, at + 258, FUNCTION_BUCKETS, false);
      ghost var s3 := output[..];
      var numFunctions := FeedAll(libs, output, at, SliceConfig(LIBRARY_BUCKETS, false),
                                  SliceConfig(FUNCTION_BUCKETS, false));
      Finish(output, at, libs, numFunctions);
      SameOutsideWiden(s1, s2, at + 2, LIBRARY_BUCKETS, at, DIM);
      SameOutsideWiden(s2, s3, at + 258, FUNCTION_BUCKETS, at, DIM);
      SameOutsideChain(s0, s1, s2, at, DIM);
      SameOutsideChain(s0, s2, s3, at, DIM);
      SameOutsideChain(s0, s3, output[..], at, DIM);
    }

    /** What the two hashers hold. The slice begins at `at`. */
    ghost predicate Fed(output: array<real>, at: nat, cfgL: Config, cfgF: Config,
                        byLibrary: seq<Feature>, byFunction: seq<Feature>)
      reads librariesFH, functionsFH
    {
      && Holding(librariesFH, output, at + 2, cfgL, byLibrary)
      && Holding(functionsFH, output, at + 258, cfgF, byFunction)
    }

    method FeedAll(libs: seq<ImportLibrary>, ghost output: array<real>, ghost at: nat, ghost cfgL: Config,
                   ghost cfgF: Config)
      returns (numFunctions: nat)
      requires librariesFH != functionsFH && Fed(output, at, cfgL, cfgF, [], [])
      requires forall i :: 0 <= i < |libs| ==> Sized(libs[i])
      modifies librariesFH, functionsFH
      ensures Fed(output, at, cfgL, cfgF, Libraries(libs), AllFunctions(libs))
      ensures numFunctions == NumFunctions(libs)
    {
      numFunctions := 0;
      for i := 0 to |libs|
        invariant Fed(output, at, cfgL, cfgF, Libraries(libs[..i]), AllFunctions(libs[..i]))
        invariant numFunctions == NumFunctions(libs[..i])
      {
        OneMoreLibrary(libs, i);
        var n := FeedLibrary(libs[i], output, at, cfgL, cfgF, Libraries(libs[..i]), AllFunctions(libs[..i]));
        numFunctions := numFunctions + n;
      }
      assert libs[..|libs|] == libs;
    }

    method FeedLibrary(lib: ImportLibrary, ghost output: array<real>, ghost at: nat, ghost cfgL: Config,
                       ghost cfgF: Config, ghost byLibrary: seq<Feature>, ghost byFunction: seq<Feature>)
      returns (n: nat)
      requires librariesFH != functionsFH && Sized(lib) && Fed(output, at, cfgL, cfgF, byLibrary, byFunction)
      modifies librariesFH, functionsFH
      ensures n == |lib.functions|
      ensures Fed(output, at, cfgL, cfgF, byLibrary + [Feature(CString(lib.dllName), 1.0)],
                  byFunction + Functions(lib, |lib.functions|))
    {
      FeedHasher(librariesFH, lib.dllName, 1.0, output, at + 2, cfgL, byLibrary);
      n := FeedFunctions(lib, output, at + 258, cfgF, byFunction);
    }

    method FeedFunctions(lib: ImportLibrary, ghost output: array<real>, ghost base: nat, ghost cfg: Config,
                         ghost before: seq<Feature>)
      returns (n: nat)
      requires Sized(lib) && Holding(functionsFH, output, base, cfg, before)
      modifies functionsFH
      ensures n == |lib.functions|
      ensures Holding(functionsFH, output, base, cfg, before + Functions(lib, |lib.functions|))
    {
      ghost var all := Functions(lib, |lib.functions|);
      AllListed(before, lib);
      n := FeedEachFunction(lib, output, base, cfg, before, all);
    }

    method FeedEachFunction(lib: ImportLibrary, ghost output: array<real>, ghost base: nat, ghost cfg: Config,
                            ghost before: seq<Feature>, ghost all: seq<Feature>)
      returns (n: nat)
      requires Sized(lib) && Lists(all, lib) && Holding(functionsFH, output, base, cfg, Extended(before, all, 0))
      modifies functionsFH
      ensures n == |lib.functions|
      ensures Holding(functionsFH, output, base, cfg, Extended(before, all, |all|))
    {
      n := 0;
      while n < |lib.functions|
        invariant n <= |lib.functions|
        invariant Holding(functionsFH, output, base, cfg, Extended(before, all, n))
      {
        FeedFunction(lib, n, output, base, cfg, before, all);
        n := n + 1;
      }
    }

    method FeedFunction(lib: ImportLibrary, n: nat, ghost output: array<real>, ghost base: nat, ghost cfg: Config,
                        ghost before: seq<Feature>, ghost all: seq<Feature>)
      requires Sized(lib) && Lists(all, lib) && n < |all|
      requires Holding(functionsFH, output, base, cfg, Extended(before, all, n))
      modifies functionsFH
      ensures Holding(functionsFH, output, base, cfg, Extended(before, all, n + 1))
    {
      OneMoreFunction(before, all, lib, n);
      var funcName := BuildName(lib.dllName, lib.functions[n]);
      FeedName(functionsFH, funcName, output, base, cfg, Extended(before, all, n));
    }

    method Finish(output: array<real>, at: nat, libs: seq<ImportLibrary>, numFunctions: nat)
      requires librariesFH != functionsFH
      requires at + DIM <= output.Length
      requires forall i :: 0 <= i < |libs| ==> Sized(libs[i])
      requires Holding(librariesFH, output, at + 2, SliceConfig(LIBRARY_BUCKETS, false), Libraries(libs))
      requires Holding(functionsFH, output, at + 258, SliceConfig(FUNCTION_BUCKETS, false), AllFunctions(libs))
      requires numFunctions == NumFunctions(libs)
      modifies librariesFH, functionsFH, output
      ensures HoldsAt(output[..], at, Features(libs))
      ensures SameOutside(old(output[..]), output[..], at, DIM)
    {
      ghost var counts := [numFunctions as real, |libs| as real];
      ghost var byLibrary := BucketRow(SliceConfig(LIBRARY_BUCKETS, false), Libraries(libs));
      ghost var byFunction := BucketRow(SliceConfig(FUNCTION_BUCKETS, false), AllFunctions(libs));
      ghost var s0 := output[..];
      FinishHasher(librariesFH, output, at + 2, SliceConfig(LIBRARY_BUCKETS, false), Libraries(libs));
      ghost var s1 := output[..];
      FinishHasher(functionsFH, output, at + 258, SliceConfig(FUNCTION_BUCKETS, false), AllFunctions(libs));
      ghost var s2 := output[..];
      WriteCounts(output, at, numFunctions, |libs|);
      ghost var s3 := output[..];
      ThreeParts(s0, s1, s2, s3, at, counts, byLibrary, byFunction);
    }
  }

  method BuildName(dllName: seq<bv8>, f: Function) returns (buffer: seq<bv8>)
    ensures buffer == FunctionName(dllName, f)
  {
    buffer := dllName + COLON;
    if f.name != [] {
      var len := Strlen(Cut(f.name));
      buffer := buffer + Cut(f.name)[..len];
    } else {
      buffer := buffer + (ORDINAL_PREFIX + Decimal(f.ordinal));
    }
  }

  method WriteCounts(output: array<real>, at: nat, numFunctions: nat, numLibraries: nat)
    requires at + 2 <= output.Length
    modifies output
    ensures HoldsAt(output[..], at, [numFunctions as real, numLibraries as real])
    ensures SameOutside(old(output[..]), output[..], at, 2)
  {
    output[at] := numFunctions as real;
    output[at + 1] := numLibraries as real;
  }

  /** The three parts of the slice, written last to first. */
  lemma ThreeParts(s0: seq<real>, s1: seq<real>, s2: seq<real>, s3: seq<real>, at: nat,
                   a: seq<real>, b: seq<real>, c: seq<real>)
    requires |a| == 2 && |b| == LIBRARY_BUCKETS && |c| == FUNCTION_BUCKETS
    requires SameOutside(s0, s1, at + 2, LIBRARY_BUCKETS) && HoldsAt(s1, at + 2, b)
    requires SameOutside(s1, s2, at + 258, FUNCTION_BUCKETS) && HoldsAt(s2, at + 258, c)
    requires SameOutside(s2, s3, at, 2) && HoldsAt(s3, at, a)
    ensures HoldsAt(s3, at, a + b + c) && SameOutside(s0, s3, at, DIM)
  {
    HoldsKept(s1, s2, at + 2, b, at + 258, FUNCTION_BUCKETS);
    HoldsKept(s2, s3, at + 2, b, at, 2);
    HoldsKept(s2, s3, at + 258, c, at, 2);
    HoldsJoin(s3, at, a, b);
    HoldsJoin(s3, at, a + b, c);
  }
}
