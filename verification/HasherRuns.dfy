/** Whole runs of the hasher, and its agreement with the batch reference. */
module HasherRuns {
  import opened CsrRows
  import opened FeatureHashing
  import opened FeatureHashers
  import opened OutputSlices

  datatype Command =
    | Push(name: Name, value: real)
    | PushString(name: Name)
    | EndSample

  type Script = seq<Command>

  /** The samples that a script has closed. */
  function Closed(script: Script): seq<seq<Feature>> {
    if script == [] then []
    else
      var before := script[..|script| - 1];
      if script[|script| - 1].EndSample? then Closed(before) + [Open(before)] else Closed(before)
  }

  /** The features pushed since the last closed sample. */
  function Open(script: Script): seq<Feature> {
    if script == [] then []
    else
      var before := script[..|script| - 1];
      match script[|script| - 1]
      case Push(name, value) => Open(before) + [Feature(CString(name), value)]
      case PushString(name) => Open(before) + [Feature(CString(name), 1.0)]
      case EndSample => []
  }

  function Written(script: Script, multipleSamples: bool): seq<seq<Feature>> {
    if multipleSamples then Closed(script) else Closed(script) + [Open(script)]
  }

  /** The rows of the samples replace what was there; without any sample it is one row
      of zeros. No other cell changes. */
  ghost predicate Wrote(before: seq<real>, after: seq<real>, base: nat, cfg: Config, samples: seq<seq<Feature>>)
    requires cfg.size > 0
  {
    Replaces(before, after, base, if samples == [] then Zeros(cfg.size) else Buckets(cfg, samples))
  }

  /** One command on a running hasher. */
  method RunCommand(fh: FeatureHasher, c: Command)
    requires fh.Running()
    modifies fh`indices, fh`indptr, fh`values, fh`sz, fh`closed, fh`open
    ensures fh.Running()
    ensures match c
            case Push(name, value) =>
              fh.closed == old(fh.closed) && fh.open == old(fh.open) + [Feature(CString(name), value)]
            case PushString(name) =>
              fh.closed == old(fh.closed) && fh.open == old(fh.open) + [Feature(CString(name), 1.0)]
            case EndSample =>
              fh.closed == old(fh.closed) + [old(fh.open)] && fh.open == []
  {
    match c {
      case Push(name, value) => fh.Reduce(name, value);
      case PushString(name) => fh.ReduceString(name);
      case EndSample => fh.FinalizeSample();
    }
  }

  method RunCommands(fh: FeatureHasher, script: Script)
    requires fh.Running() && fh.closed == [] && fh.open == []
    modifies fh`indices, fh`indptr, fh`values, fh`sz, fh`closed, fh`open
    ensures fh.Running() && fh.closed == Closed(script) && fh.open == Open(script)
  {
    assert script[..0] == [];
    for i := 0 to |script|
      invariant fh.Running()
      invariant fh.closed == Closed(script[..i]) && fh.open == Open(script[..i])
    {
      assert script[..i + 1][..i] == script[..i];
      RunCommand(fh, script[i]);
    }
    assert script[..|script|] == script;
  }

  /** reset, configure, start, any commands, finalize: every cell of the output after
      such a run, the cells outside the written range included. */
  method RunHasher(output: array<real>, base: nat, size: nat, alternateSign: bool, seed: bv32,
                   multipleSamples: bool, script: Script)
    requires 1 <= size <= 0x8000_0000
    requires base + size <= output.Length
    requires base + |Written(script, multipleSamples)| * size <= output.Length
    modifies output
    ensures Wrote(old(output[..]), output[..], base, MurmurConfig(size, alternateSign, seed),
                  Written(script, multipleSamples))
  {
    var fh := StartHasher(output, base, size, alternateSign, seed, multipleSamples);
    ghost var cfg := fh.cfg;
    ghost var samples := Written(script, multipleSamples);
    BucketsLength(cfg, samples);
    ghost var rows := Buckets(cfg, samples);
    ghost var cleared := output[..];
    assert base + |rows| <= |cleared|;
    FinishHasher(fh, script);
    assert Replaces(cleared, output[..], base, rows);
    RowsReplace(old(output[..]), cleared, output[..], base, size, cfg, samples);
  }

  method FinishHasher(fh: FeatureHasher, script: Script)
    requires fh.Running() && fh.closed == [] && fh.open == []
    requires fh.base + |Buckets(fh.cfg, Written(script, fh.multipleSamples))| <= fh.output.Length
    modifies fh`indices, fh`indptr, fh`values, fh`sz, fh`closed, fh`open, fh.output
    ensures Replaces(old(fh.output[..]), fh.output[..], fh.base, Buckets(fh.cfg, Written(script, fh.multipleSamples)))
  {
    ghost var cfg, samples := fh.cfg, Written(script, fh.multipleSamples);
    ghost var rows := Buckets(cfg, samples);
    assert fh.base + |rows| <= fh.output.Length;
    RunCommands(fh, script);
    assert fh.base + |rows| <= fh.output.Length;
    assert fh.cfg == cfg;
    assert fh.Samples() == samples;
    assert Buckets(fh.cfg, fh.Samples()) == rows;
    assert fh.base + |Buckets(fh.cfg, fh.Samples())| <= fh.output.Length;
    fh.Finalize();
  }

  method StartHasher(output: array<real>, base: nat, size: nat, alternateSign: bool, seed: bv32,
                     multipleSamples: bool) returns (fh: FeatureHasher)
    requires 1 <= size <= 0x8000_0000
    requires base + size <= output.Length
    modifies output
    ensures fresh(fh) && fh.Running() && fh.closed == [] && fh.open == []
    ensures fh.output == output && fh.base == base && fh.size == size && fh.multipleSamples == multipleSamples
    ensures fh.cfg == MurmurConfig(size, alternateSign, seed)
    ensures Replaces(old(output[..]), output[..], base, Zeros(size))
  {
    fh := new FeatureHasher();
    fh.Reset();
    fh.SetSize(size);
    fh.SetOutput(output, base);
    fh.SetAlternateSign(alternateSign);
    fh.SetSeed(seed);
    fh.SetMultipleSamples(multipleSamples);
    fh.Start();
  }

  /** At least one sample row covers everything that start has cleared. */
  lemma RowsReplace(before: seq<real>, cleared: seq<real>, after: seq<real>, base: nat, size: nat,
                    cfg: Config, samples: seq<seq<Feature>>)
    requires cfg.size == size > 0
    requires Replaces(before, cleared, base, Zeros(size))
    requires Replaces(cleared, after, base, Buckets(cfg, samples))
    ensures Wrote(before, after, base, cfg, samples)
  {
    var rows := Buckets(cfg, samples);
    if samples == [] {
      assert rows == [];
    } else {
      assert |rows| >= size;
      assert cleared[base + |rows|..] == before[base + |rows|..];
    }
  }

  /** Cell by cell: after a run, output cell (r, c) is the total of bucket `c` of sample `r`. */
  lemma WroteBucket(before: seq<real>, after: seq<real>, base: nat, cfg: Config,
                    samples: seq<seq<Feature>>, r: nat, c: nat)
    requires cfg.size > 0 && Wrote(before, after, base, cfg, samples)
    requires r < |samples| && c < cfg.size
    ensures base + r * cfg.size + c < |after| == |before|
    ensures after[base + r * cfg.size + c] == BucketSum(cfg, samples[r], c)
  {
    var rows := Buckets(cfg, samples);
    BucketsAt(cfg, samples, r, c);
    var k := r * cfg.size + c;
    assert after[base + k] == (before[..base] + rows)[base + k];
  }
}
