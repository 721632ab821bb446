/** Hashers that fill one part of a slice each, with one sample, as the feature types use them. */
module HasherSlices {
  import opened CsrRows
  import opened FeatureHashing
  import opened FeatureHashers
  import opened OutputSlices
  import EntropyBins

  /** Every feature type leaves the seed at 0. */
  function SliceConfig(size: nat, alternateSign: bool): (cfg: Config)
    ensures cfg.size == size && cfg.alternateSign == alternateSign
  {
    MurmurConfig(size, alternateSign, 0)
  }

  function BucketRow(cfg: Config, sample: seq<Feature>): (row: seq<real>)
    requires cfg.size > 0
    ensures |row| == cfg.size
  {
    seq(cfg.size, c requires 0 <= c => BucketSum(cfg, sample, c))
  }

  lemma OneSample(cfg: Config, sample: seq<Feature>)
    requires cfg.size > 0
    ensures Buckets(cfg, [sample]) == BucketRow(cfg, sample)
  {
    assert [sample][..0] == [];
    assert Buckets(cfg, [sample]) == [] + BucketRow(cfg, sample);
  }

  /** A hasher that has been fed one sample. */
  ghost predicate Holding(fh: FeatureHasher, output: array<real>, base: nat, cfg: Config, sample: seq<Feature>)
    reads fh
  {
    && fh.Running() && !fh.multipleSamples && fh.closed == [] && fh.open == sample
    && fh.output == output && fh.base == base
    && fh.cfg == cfg
  }

  method StartHasher(fh: FeatureHasher, output: array<real>, base: nat, size: nat, alternateSign: bool)
    requires 1 <= size <= 0x8000_0000 && base + size <= output.Length
    modifies fh, output
    ensures Holding(fh, output, base, SliceConfig(size, alternateSign), [])
    ensures SameOutside(old(output[..]), output[..], base, size)
  {
    ghost var before := output[..];
    ConfigureHasher(fh, output, base, size, alternateSign);
    fh.Start();
    ReplacesHolds(before, output[..], base, Zeros(size));
  }

  method ConfigureHasher(fh: FeatureHasher, output: array<real>, base: nat, size: nat, alternateSign: bool)
    modifies fh
    ensures fh.Fresh() && fh.output == output && fh.base == base && fh.size == size
    ensures fh.alternateSign == alternateSign && fh.seed == 0 && !fh.multipleSamples
  {
    fh.Reset();
    fh.SetOutput(output, base);
    fh.SetSize(size);
    if !alternateSign {
      fh.SetAlternateSign(false);
    }
  }

  method FeedHasher(fh: FeatureHasher, name: seq<bv8>, value: real, ghost output: array<real>, ghost base: nat,
                    ghost cfg: Config, ghost sample: seq<Feature>)
    requires Holding(fh, output, base, cfg, sample) && |name| < 0x8000_0000
    modifies fh
    ensures Holding(fh, output, base, cfg, sample + [Feature(CString(name), value)])
  {
    fh.Reduce(name, value);
  }

  /** A string counts as one. */
  method FeedName(fh: FeatureHasher, name: seq<bv8>, ghost output: array<real>, ghost base: nat,
                  ghost cfg: Config, ghost sample: seq<Feature>)
    requires Holding(fh, output, base, cfg, sample) && |name| < 0x8000_0000
    modifies fh
    ensures Holding(fh, output, base, cfg, sample + [Feature(CString(name), 1.0)])
  {
    fh.ReduceString(name);
  }

  method FinishHasher(fh: FeatureHasher, output: array<real>, base: nat, ghost cfg: Config, ghost sample: seq<Feature>)
    requires Holding(fh, output, base, cfg, sample)
    requires base + cfg.size <= output.Length
    modifies fh, output
    ensures cfg.size > 0 && HoldsAt(output[..], base, BucketRow(cfg, sample))
    ensures SameOutside(old(output[..]), output[..], base, cfg.size)
  {
    ghost var before := output[..];
    OneSample(cfg, sample);
    assert fh.Samples() == [sample];
    fh.Finalize();
    ReplacesHolds(before, output[..], base, BucketRow(cfg, sample));
  }

  // ---------- conservation

  ghost predicate AllOnes(sample: seq<Feature>) {
    forall i :: 0 <= i < |sample| ==> sample[i].value == 1.0
  }

  function BelowColumn(cfg: Config, f: Feature, n: nat): real
    requires cfg.size > 0
  {
    if Abs(cfg.hash(f.name)) % cfg.size < n then SignedValue(cfg, f) else 0.0
  }

  /** What one feature puts into the first `n` buckets. */
  lemma {:induction false} PrefixSum(cfg: Config, sample: seq<Feature>, row: seq<real>, n: nat)
    requires cfg.size > 0 && n <= |row| <= cfg.size && sample != []
    requires forall c :: 0 <= c < |row| ==> row[c] == BucketSum(cfg, sample, c)
    ensures EntropyBins.Sum(row[..n])
         == EntropyBins.Sum(BucketRow(cfg, sample[..|sample| - 1])[..n]) + BelowColumn(cfg, sample[|sample| - 1], n)
  {
    if n == 0 {
    } else {
      var before := BucketRow(cfg, sample[..|sample| - 1]);
      PrefixSum(cfg, sample, row, n - 1);
      assert row[..n][..n - 1] == row[..n - 1] && before[..n][..n - 1] == before[..n - 1];
    }
  }

  /** Without alternating signs the buckets add up to the number of features. */
  lemma {:induction false} BucketsAddUp(cfg: Config, sample: seq<Feature>)
    requires cfg.size > 0 && !cfg.alternateSign && AllOnes(sample)
    ensures EntropyBins.Sum(BucketRow(cfg, sample)) == |sample| as real
  {
    var row := BucketRow(cfg, sample);
    if sample == [] {
      EntropyBins.SumZeros(row);
    } else {
      var before := BucketRow(cfg, sample[..|sample| - 1]);
      BucketsAddUp(cfg, sample[..|sample| - 1]);
      PrefixSum(cfg, sample, row, cfg.size);
      assert row[..cfg.size] == row && before[..cfg.size] == before;
    }
  }
}
