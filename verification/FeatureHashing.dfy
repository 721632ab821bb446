/** What feature hashing computes: every feature adds its signed value to one bucket. */
module FeatureHashing {
  import opened CsrRows
  import Murmur32

  /** A string as the hash sees it; its length is an int. */
  type Name = s: seq<bv8> | |s| < 0x8000_0000 witness []

  datatype Feature = Feature(name: Name, value: real)

  /** A hasher's parameters, with the hash function it ends up with. */
  datatype Config = Config(size: nat, alternateSign: bool, hash: Name -> int)

  function MurmurConfig(size: nat, alternateSign: bool, seed: bv32): Config {
    Config(size, alternateSign, (name: Name) => AsInt32(Murmur32.Hash(name, seed)))
  }

  /** Column indices are 32-bit signed integers. */
  ghost predicate Supported(cfg: Config) {
    1 <= cfg.size <= 0x8000_0000
  }

  // ---------- the meaning

  function Abs(x: int): nat { if x < 0 then -x else x }

  function AsInt32(u: bv32): (h: int)
    ensures -0x8000_0000 <= h < 0x8000_0000
  {
    var v := u as int;
    if v < 0x8000_0000 then v else v - 0x1_0000_0000
  }

  function SignedValue(cfg: Config, f: Feature): real {
    if cfg.alternateSign && cfg.hash(f.name) < 0 then -f.value else f.value
  }

  /** The total that bucket `c` of a sample receives. */
  function BucketSum(cfg: Config, sample: seq<Feature>, c: nat): real
    requires cfg.size > 0
  {
    if sample == [] then 0.0
    else
      var f := sample[|sample| - 1];
      BucketSum(cfg, sample[..|sample| - 1], c)
      + (if Abs(cfg.hash(f.name)) % cfg.size == c then SignedValue(cfg, f) else 0.0)
  }

  /** The buckets of all samples, one sample after the other. */
  function Buckets(cfg: Config, samples: seq<seq<Feature>>): seq<real>
    requires cfg.size > 0
  {
    if samples == [] then []
    else
      var last := samples[|samples| - 1];
      Buckets(cfg, samples[..|samples| - 1])
      + seq(cfg.size, c requires 0 <= c => BucketSum(cfg, last, c))
  }

  lemma {:induction false} BucketsLength(cfg: Config, samples: seq<seq<Feature>>)
    requires cfg.size > 0
    ensures |Buckets(cfg, samples)| == |samples| * cfg.size
  {
    if samples == [] {
    } else {
      BucketsLength(cfg, samples[..|samples| - 1]);
      assert |samples| * cfg.size == (|samples| - 1) * cfg.size + cfg.size;
    }
  }

  /** Bucket `c` of sample `r` is found in row-major order. */
  lemma {:induction false} BucketsAt(cfg: Config, samples: seq<seq<Feature>>, r: nat, c: nat)
    requires r < |samples| && c < cfg.size
    ensures 0 <= r * cfg.size + c < |Buckets(cfg, samples)|
    ensures Buckets(cfg, samples)[r * cfg.size + c] == BucketSum(cfg, samples[r], c)
  {
    var k := |samples| - 1;
    BucketsLength(cfg, samples[..k]);
    if r == k {
    } else {
      BucketsAt(cfg, samples[..k], r, c);
    }
  }

  // ---------- how the code finds a bucket

  /** The column of a hash, with the smallest int set apart because its absolute value
      does not exist as an int. */
  function Column(h: int, size: nat): nat
    requires 1 <= size <= 0x8000_0000
  {
    if h == -0x8000_0000 then (2147483647 - (size - 1)) % size else Abs(h) % size
  }

  /** The special case lands where the rule would have put it. */
  lemma ColumnIsModulus(h: int, size: nat)
    requires 1 <= size <= 0x8000_0000
    ensures Column(h, size) == Abs(h) % size < size
  {
    if h == -0x8000_0000 {
      SubtractModulus(0x8000_0000, size);
    }
  }

  lemma SubtractModulus(a: nat, n: nat)
    requires 1 <= n <= a
    ensures (a - n) % n == a % n
  {
    var q, r := (a - n) / n, (a - n) % n;
    assert a == (q + 1) * n + r;
    DivModUnique(a, n, q + 1, r);
  }

  lemma DivModUnique(a: nat, n: nat, q: nat, r: nat)
    requires n > 0 && r < n && a == q * n + r
    ensures a % n == r
  {
    var d := a / n - q;
    assert d * n == r - a % n;
    assert d >= 1 ==> d * n >= n;
    assert d <= -1 ==> d * n + n <= 0;
  }

  function EncodeFeature(cfg: Config, f: Feature): Cell
    requires Supported(cfg)
  {
    Cell(Column(cfg.hash(f.name), cfg.size), SignedValue(cfg, f))
  }

  /** The cells pushed for a sample: zero values are skipped. */
  function Encode(cfg: Config, sample: seq<Feature>): Row
    requires Supported(cfg)
  {
    if sample == [] then []
    else
      var f := sample[|sample| - 1];
      Encode(cfg, sample[..|sample| - 1]) + (if f.value == 0.0 then [] else [EncodeFeature(cfg, f)])
  }

  function EncodeAll(cfg: Config, samples: seq<seq<Feature>>): seq<Row>
    requires Supported(cfg)
  {
    seq(|samples|, r requires 0 <= r < |samples| => Encode(cfg, samples[r]))
  }

  lemma {:induction false} EncodeInRange(cfg: Config, sample: seq<Feature>)
    requires Supported(cfg)
    ensures InRange(Encode(cfg, sample), cfg.size)
  {
    if sample == [] {
    } else {
      EncodeInRange(cfg, sample[..|sample| - 1]);
      ColumnIsModulus(cfg.hash(sample[|sample| - 1].name), cfg.size);
    }
  }

  /** The column sums of the pushed cells are the buckets of the sample. */
  lemma {:induction false} EncodeSums(cfg: Config, sample: seq<Feature>, c: nat)
    requires Supported(cfg)
    ensures ColumnSum(Encode(cfg, sample), c) == BucketSum(cfg, sample, c)
  {
    if sample == [] {
    } else {
      var n := |sample| - 1;
      var f := sample[n];
      EncodeSums(cfg, sample[..n], c);
      ColumnIsModulus(cfg.hash(f.name), cfg.size);
      if f.value != 0.0 {
        ColumnSumSnoc(Encode(cfg, sample[..n]), EncodeFeature(cfg, f), c);
        assert Encode(cfg, sample) == Encode(cfg, sample[..n]) + [EncodeFeature(cfg, f)];
      } else {
        assert SignedValue(cfg, f) == 0.0;
        assert Encode(cfg, sample) == Encode(cfg, sample[..n]);
      }
    }
  }

  lemma {:induction false} DenseIsBuckets(cfg: Config, samples: seq<seq<Feature>>)
    requires Supported(cfg)
    ensures Dense(EncodeAll(cfg, samples), cfg.size) == Buckets(cfg, samples)
  {
    if samples == [] {
    } else {
      var k := |samples| - 1;
      assert EncodeAll(cfg, samples)[..k] == EncodeAll(cfg, samples[..k]);
      DenseIsBuckets(cfg, samples[..k]);
      forall c | 0 <= c < cfg.size
        ensures ColumnSum(Encode(cfg, samples[k]), c) == BucketSum(cfg, samples[k], c)
      {
        EncodeSums(cfg, samples[k], c);
      }
    }
  }

  // ---------- C strings

  /** What strlen leaves of a buffer: everything before the first NUL. */
  function CString(buffer: seq<bv8>): (s: seq<bv8>)
    ensures s <= buffer
  {
    if buffer == [] || buffer[0] == 0 then [] else [buffer[0]] + CString(buffer[1..])
  }

  lemma {:induction false} CStringWhole(buffer: seq<bv8>)
    ensures CString(buffer) == buffer <==> 0 !in buffer
  {
    if buffer == [] {
    } else {
      assert buffer == [buffer[0]] + buffer[1..];
      CStringWhole(buffer[1..]);
    }
  }

  /** It has no NUL, and a NUL or the end of the buffer follows it. */
  lemma {:induction false} CStringEnds(buffer: seq<bv8>)
    ensures 0 !in CString(buffer)
    ensures |CString(buffer)| < |buffer| ==> buffer[|CString(buffer)|] == 0
  {
    if buffer == [] || buffer[0] == 0 {
    } else {
      CStringEnds(buffer[1..]);
    }
  }

  lemma CStringStep(buffer: seq<bv8>, n: nat)
    requires n <= |buffer| && CString(buffer[n..]) == []
    requires forall i :: 0 <= i < n ==> buffer[i] != 0
    ensures CString(buffer) == buffer[..n]
  {
    if n > 0 {
      assert buffer[1..][n - 1..] == buffer[n..];
      CStringStep(buffer[1..], n - 1);
      assert buffer[..n] == [buffer[0]] + buffer[1..][..n - 1];
    }
  }

  method Strlen(buffer: seq<bv8>) returns (len: nat)
    ensures len <= |buffer| && buffer[..len] == CString(buffer)
  {
    len := 0;
    while len < |buffer| && buffer[len] != 0
      invariant len <= |buffer|
      invariant forall i :: 0 <= i < len ==> buffer[i] != 0
    {
      len := len + 1;
    }
    CStringStep(buffer, len);
  }
}
