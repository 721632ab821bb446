/** The batch reference that the streaming hasher was derived from. */
module HashingFast {
  import opened CsrRows
  import opened CsrMatrices
  import opened FeatureHashing
  import opened FeatureHashers
  import opened HasherRuns
  import Murmur32

  datatype FeatureValue =
    | Text(feature: seq<bv8>, text: seq<bv8>)
    | Number(feature: seq<bv8>, number: real)

  /** A text value becomes part of the name and counts one. */
  function NameOf(fv: FeatureValue): seq<bv8> {
    match fv
    case Text(feature, text) => feature + [0x3d] + text
    case Number(feature, _) => feature
  }

  function ValueOf(fv: FeatureValue): real {
    match fv
    case Text(_, _) => 1.0
    case Number(_, number) => number
  }

  /** The name, the byte 61, the text; the feature then counts one. */
  lemma JoinedName(feature: seq<bv8>, text: seq<bv8>)
    ensures var name := NameOf(Text(feature, text));
            && |name| == |feature| + 1 + |text| && name[..|feature|] == feature && name[|feature|] == 61
            && name[|feature| + 1..] == text && ValueOf(Text(feature, text)) == 1.0
  {}

  type RawFeature = fv: FeatureValue | |NameOf(fv)| < 0x8000_0000 witness Number([], 0.0)

  type RawSample = seq<RawFeature>

  /** The batch hashes whole names. */
  function Named(raw: RawSample): seq<Feature> {
    if raw == [] then []
    else
      var fv := raw[|raw| - 1];
      Named(raw[..|raw| - 1]) + [Feature(NameOf(fv), ValueOf(fv))]
  }

  function NamedAll(raws: seq<RawSample>): seq<seq<Feature>> {
    seq(|raws|, i requires 0 <= i < |raws| => Named(raws[i]))
  }

  /** Hashes one name and appends its cell. */
  method PushHashed(ghost cfg: Config, ghost closed: seq<seq<Feature>>, ghost open: seq<Feature>,
                    f: Name, value0: real, nFeatures: nat, alternateSign: bool, seed: bv32,
                    indices: seq<int>, ghost indptr: seq<int>, values: seq<real>)
    returns (indices': seq<int>, values': seq<real>)
    requires Supported(cfg) && Configures(cfg, nFeatures, alternateSign, seed)
    requires Pushed(cfg, closed, open, indices, indptr, values, |indices|) && PowerOfTwo(|values|)
    requires value0 != 0.0
    ensures Pushed(cfg, closed, open + [Feature(f, value0)], indices', indptr, values', |indices'|)
    ensures PowerOfTwo(|values'|)
  {
    var h := HashName(cfg, f, seed);
    var idx := Column(h, nFeatures);
    var value := value0;
    if alternateSign {
      value := value * (if h >= 0 then 1.0 else -1.0);
    }
    ghost var feature := Feature(f, value0);
    assert value == SignedValue(cfg, feature) && idx == EncodeFeature(cfg, feature).col;
    values' := PushValue(values, |indices|, value);
    PushedCell(cfg, closed, open, feature, indices, indptr, values, values');
    indices' := indices + [idx];
  }

  method HashName(ghost cfg: Config, f: Name, seed: bv32) returns (h: int)
    requires HashesWith(cfg, seed)
    ensures h == cfg.hash(f)
  {
    var u := Murmur32.MurmurHash3_x86_32(f, seed);
    h := AsInt32(u);
  }

  method TransformSample(ghost cfg: Config, ghost closed: seq<seq<Feature>>, sample: RawSample,
                         nFeatures: nat, alternateSign: bool, seed: bv32,
                         indices: seq<int>, ghost indptr: seq<int>, values: seq<real>)
    returns (indices': seq<int>, values': seq<real>)
    requires Supported(cfg) && Configures(cfg, nFeatures, alternateSign, seed)
    requires Pushed(cfg, closed, [], indices, indptr, values, |indices|) && PowerOfTwo(|values|)
    ensures Pushed(cfg, closed, Named(sample), indices', indptr, values', |indices'|)
    ensures PowerOfTwo(|values'|)
  {
    indices', values' := indices, values;
    assert sample[..0] == [];
    for j := 0 to |sample|
      invariant Pushed(cfg, closed, Named(sample[..j]), indices', indptr, values', |indices'|)
      invariant PowerOfTwo(|values'|)
    {
      assert sample[..j + 1][..j] == sample[..j];
      var f, value := NameOf(sample[j]), ValueOf(sample[j]);
      if value == 0.0 {
        PushedZero(cfg, closed, Named(sample[..j]), Feature(f, value), indices', indptr, values');
      } else {
        indices', values' := PushHashed(cfg, closed, Named(sample[..j]), f, value, nFeatures, alternateSign, seed,
                                        indices', indptr, values');
      }
    }
    assert sample[..|sample|] == sample;
  }

  /** transform: all samples into one compressed matrix, with a buffer of 8192 values to
      start with. */
  method Transform(ghost cfg: Config, rawX: seq<RawSample>, nFeatures: nat, alternateSign: bool, seed: bv32)
    returns (indices: seq<int>, indptr: seq<int>, values: seq<real>)
    requires Supported(cfg) && Configures(cfg, nFeatures, alternateSign, seed)
    ensures |indices| == |values| && (forall i :: 0 <= i < |indices| ==> 0 <= indices[i])
    ensures CellsOf(indices, values) == Flat(EncodeAll(cfg, NamedAll(rawX)))
    ensures indptr == Starts(EncodeAll(cfg, NamedAll(rawX)))
  {
    indices, indptr := [], [0];
    values := Resized([], 8192);
    EightKilo();
    ghost var samples := NamedAll(rawX);
    assert samples[..0] == [];
    NothingPushed(cfg, values);
    for i := 0 to |rawX|
      invariant Pushed(cfg, samples[..i], [], indices, indptr, values, |indices|)
      invariant PowerOfTwo(|values|)
    {
      indices, values := TransformSample(cfg, samples[..i], rawX[i], nFeatures, alternateSign, seed,
                                         indices, indptr, values);
      PushedSample(cfg, samples[..i], samples[i], indices, indptr, values);
      assert samples[..i + 1] == samples[..i] + [samples[i]];
      indptr := indptr + [|indices|];
    }
    assert samples[..|rawX|] == samples;
    AllPushed(cfg, samples, indices, indptr, values);
    values := Resized(values, |indices|);
  }

  lemma NothingPushed(cfg: Config, values: seq<real>)
    requires Supported(cfg)
    ensures Pushed(cfg, [], [], [], [0], values, 0)
  {
    assert EncodeAll(cfg, []) == [];
  }

  lemma AllPushed(cfg: Config, samples: seq<seq<Feature>>, indices: seq<int>, indptr: seq<int>, values: seq<real>)
    requires Supported(cfg) && Pushed(cfg, samples, [], indices, indptr, values, |indices|)
    ensures CellsOf(indices, Resized(values, |indices|)) == Flat(EncodeAll(cfg, samples))
    ensures indptr == Starts(EncodeAll(cfg, samples))
  {
    assert Resized(values, |indices|) == values[..|indices|];
  }

  lemma EightKilo()
    ensures PowerOfTwo(8192)
  {
    assert PowerOfTwo(2) && PowerOfTwo(4) && PowerOfTwo(8) && PowerOfTwo(16) && PowerOfTwo(32);
    assert PowerOfTwo(64) && PowerOfTwo(128) && PowerOfTwo(256) && PowerOfTwo(512);
    assert PowerOfTwo(1024) && PowerOfTwo(2048) && PowerOfTwo(4096);
  }

  /** The script that streams the same samples. */
  function Streamed(raw: RawSample): Script {
    if raw == [] then [] else Streamed(raw[..|raw| - 1]) + [StreamedFeature(raw[|raw| - 1])]
  }

  function StreamedAll(raws: seq<RawSample>): Script {
    if raws == [] then []
    else StreamedAll(raws[..|raws| - 1]) + Streamed(raws[|raws| - 1]) + [EndSample]
  }

  ghost predicate NulFreeSample(raw: RawSample) {
    forall i :: 0 <= i < |raw| ==> 0 !in NameOf(raw[i])
  }

  ghost predicate NulFree(raws: seq<RawSample>) {
    forall i :: 0 <= i < |raws| ==> NulFreeSample(raws[i])
  }

  function StreamedFeature(fv: RawFeature): Command {
    match fv
    case Text(_, _) => PushString(NameOf(fv))
    case Number(feature, number) => Push(feature, number)
  }

  lemma PushSnoc(before: Script, fv: RawFeature)
    requires 0 !in NameOf(fv)
    ensures var script: Script := before + [StreamedFeature(fv)];
            && Closed(script) == Closed(before)
            && Open(script) == Open(before) + [Feature(NameOf(fv), ValueOf(fv))]
  {
    var script: Script := before + [StreamedFeature(fv)];
    assert script[..|script| - 1] == before;
    CStringWhole(NameOf(fv));
  }

  lemma {:induction false} StreamedSample(before: Script, raw: RawSample)
    requires NulFreeSample(raw)
    requires Open(before) == []
    ensures Closed(before + Streamed(raw)) == Closed(before)
    ensures Open(before + Streamed(raw)) == Named(raw)
  {
    if raw == [] {
      assert before + Streamed(raw) == before;
    } else {
      var n := |raw| - 1;
      StreamedSample(before, raw[..n]);
      PushSnoc(before + Streamed(raw[..n]), raw[n]);
      assert before + Streamed(raw) == before + Streamed(raw[..n]) + [StreamedFeature(raw[n])];
    }
  }

  lemma {:induction false} StreamedSamples(raws: seq<RawSample>)
    requires NulFree(raws)
    ensures Closed(StreamedAll(raws)) == NamedAll(raws)
    ensures Open(StreamedAll(raws)) == []
  {
    if raws == [] {
    } else {
      var k := |raws| - 1;
      var before := StreamedAll(raws[..k]);
      StreamedSamples(raws[..k]);
      StreamedSample(before, raws[k]);
      var script := StreamedAll(raws);
      assert script[..|script| - 1] == before + Streamed(raws[k]);
      assert NamedAll(raws) == NamedAll(raws[..k]) + [Named(raws[k])];
    }
  }

  /** A running hasher that is fed the samples of a batch holds, just before it is
      finalised, exactly the vectors that the batch computes. */
  method StreamMatchesBatch(fh: FeatureHasher, rawX: seq<RawSample>)
    returns (indices: seq<int>, indptr: seq<int>, values: seq<real>)
    requires fh.Running() && fh.closed == [] && fh.open == []
    requires NulFree(rawX)
    modifies fh`indices, fh`indptr, fh`values, fh`sz, fh`closed, fh`open
    ensures fh.sz == |fh.indices| <= |fh.values|
    ensures indices == fh.indices && indptr == fh.indptr && values == fh.values[..fh.sz]
  {
    indices, indptr, values := Transform(fh.cfg, rawX, fh.size, fh.alternateSign, fh.seed);
    RunCommands(fh, StreamedAll(rawX));
    StreamedSamples(rawX);
    SameCells(fh.indices, fh.values[..fh.sz], indices, values);
  }

  lemma SameCells(is1: seq<int>, vs1: seq<real>, is2: seq<int>, vs2: seq<real>)
    requires |is1| == |vs1| && |is2| == |vs2|
    requires forall i :: 0 <= i < |is1| ==> 0 <= is1[i]
    requires forall i :: 0 <= i < |is2| ==> 0 <= is2[i]
    requires CellsOf(is1, vs1) == CellsOf(is2, vs2)
    ensures is1 == is2 && vs1 == vs2
  {
    assert |CellsOf(is1, vs1)| == |is1| && |CellsOf(is2, vs2)| == |is2|;
    forall i | 0 <= i < |is1| ensures is1[i] == is2[i] && vs1[i] == vs2[i] {
      assert CellsOf(is1, vs1)[i] == Cell(is1[i], vs1[i]);
      assert CellsOf(is2, vs2)[i] == Cell(is2[i], vs2[i]);
    }
  }
}
