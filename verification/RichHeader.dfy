/** The feature type of the rich header: pairs of 32-bit words, the first one hashed as a
    decimal number, the second one its value. */
module RichHeaders {
  import opened Bytes
  import opened CsrRows
  import opened FeatureHashing
  import opened FeatureHashers
  import opened HashedNames
  import opened HasherSlices
  import opened OutputSlices

  const PAIR_BUCKETS: nat := 32
  const DIM: nat := 1 + PAIR_BUCKETS

  /** Word `i` of the header; its bytes are in little-endian order. */
  function Dword(raw: seq<Byte>, i: nat): (w: nat)
    requires 4 * i + 4 <= |raw|
    ensures w < 0x1_0000_0000
  {
    var b0: int, b1: int, b2: int, b3: int := raw[4 * i], raw[4 * i + 1], raw[4 * i + 2], raw[4 * i + 3];
    b0 + 0x100 * b1 + 0x1_0000 * b2 + 0x100_0000 * b3
  }

  function NumPairs(raw: seq<Byte>): (n: nat)
    ensures 8 * n <= |raw|
  {
    |raw| / 4 / 2
  }

  function PairFeature(raw: seq<Byte>, k: nat): Feature
    requires 8 * k + 8 <= |raw|
  {
    Feature(Decimal(Dword(raw, 2 * k)), Dword(raw, 2 * k + 1) as real)
  }

  /** The first `n` pairs. */
  function Pairs(raw: seq<Byte>, n: nat): seq<Feature>
    requires 8 * n <= |raw|
  {
    if n == 0 then [] else Pairs(raw, n - 1) + [PairFeature(raw, n - 1)]
  }

  function PairCount(raw: seq<Byte>): real {
    if NumPairs(raw) < 3 then 0.0 else (NumPairs(raw) - 3) as real
  }

  /** The slice as a function of the header's bytes. Without two words, as in a file that
      does not parse or has no such header, it is zero. */
  function SliceOf(raw: seq<Byte>): (r: seq<real>)
    ensures |r| == DIM
  {
    if |raw| / 4 < 2 then Zeros(DIM)
    else [PairCount(raw)] + BucketRow(SliceConfig(PAIR_BUCKETS, true), Pairs(raw, NumPairs(raw)))
  }

  // ---------- the slice in numbers

  lemma LowestByte(b: Byte, rest: nat)
    ensures (b + 256 * rest) % 256 == b && (b + 256 * rest) / 256 == rest
  {}

  /** The four bytes of a word can be read off it, the lowest one first. */
  lemma DwordBytes(raw: seq<Byte>, i: nat)
    requires 4 * i + 4 <= |raw|
    ensures var w := Dword(raw, i);
            && w % 256 == raw[4 * i] && w / 256 % 256 == raw[4 * i + 1]
            && w / 256 / 256 % 256 == raw[4 * i + 2] && w / 256 / 256 / 256 == raw[4 * i + 3]
  {
    var b1: int, b2: int, b3: int := raw[4 * i + 1], raw[4 * i + 2], raw[4 * i + 3];
    LowestByte(raw[4 * i], b1 + 256 * (b2 + 256 * b3));
    LowestByte(raw[4 * i + 1], b2 + 256 * b3);
    LowestByte(raw[4 * i + 2], b3);
  }

  /** Pair `k` stands in the eight bytes from 8 * k on. */
  lemma {:induction false} PairAt(raw: seq<Byte>, n: nat, k: nat)
    requires 8 * n <= |raw| && k < n
    ensures |Pairs(raw, n)| == n && Pairs(raw, n)[k] == PairFeature(raw, k)
  {
    if n > 1 {
      PairAt(raw, n - 1, if k < n - 1 then k else 0);
    }
  }

  /** The first word of a pair, in decimal, is the name, and the second word the value. */
  lemma PairInNumbers(raw: seq<Byte>, k: nat, b: seq<int>)
    requires 8 * k + 8 <= |raw|
    requires |b| == 8 && forall i :: 0 <= i < 8 ==> b[i] == raw[8 * k + i]
    ensures var f := PairFeature(raw, k);
            && IsNumeral(f.name) && Value(f.name) == b[0] + 256 * b[1] + 65536 * b[2] + 16777216 * b[3]
            && f.value == (b[4] + 256 * b[5] + 65536 * b[6] + 16777216 * b[7]) as real
  {
    PairWords(raw, k, b);
    DecimalValue(Dword(raw, 2 * k));
    DecimalDigits(Dword(raw, 2 * k));
  }

  lemma PairWords(raw: seq<Byte>, k: nat, b: seq<int>)
    requires 8 * k + 8 <= |raw|
    requires |b| == 8 && forall i :: 0 <= i < 8 ==> b[i] == raw[8 * k + i]
    ensures Dword(raw, 2 * k) == b[0] + 256 * b[1] + 65536 * b[2] + 16777216 * b[3]
    ensures Dword(raw, 2 * k + 1) == b[4] + 256 * b[5] + 65536 * b[6] + 16777216 * b[7]
  {}

  lemma PairsOfEight(n: nat)
    ensures n / 4 / 2 == n / 8 && (n / 4 < 2 <==> n < 8) && (n / 8 < 3 <==> n < 24)
  {}

  /** The number of whole pairs less three, but not less than zero, and the buckets of the pairs. */
  lemma SliceCells(raw: seq<Byte>)
    requires |raw| >= 8
    ensures SliceOf(raw) == [if |raw| < 24 then 0.0 else (|raw| / 8 - 3) as real]
                            + BucketRow(MurmurConfig(32, true, 0), Pairs(raw, |raw| / 8))
  {
    PairsOfEight(|raw|);
  }

  /** Without a whole pair there are only zeros. */
  lemma NoPairs(raw: seq<Byte>)
    requires |raw| < 8
    ensures forall c :: 0 <= c < 33 ==> SliceOf(raw)[c] == 0.0
  {
    PairsOfEight(|raw|);
  }

  /** Where the method returns early, too, the whole slice is written, and nothing else. */
  method Start(output: array<real>, at: nat, raw: seq<Byte>)
    requires at + DIM <= output.Length
    modifies output
    ensures HoldsAt(output[..], at, SliceOf(raw))
    ensures SameOutside(old(output[..]), output[..], at, DIM)
  {
    ghost var s0 := output[..];
    ClearCells(output, at, DIM);
    ReplacesHolds(s0, output[..], at, Zeros(DIM));
    var numDwords := |raw| / 4;
    if numDwords < 2 {
      return;
    }
    ghost var s1 := output[..];
    WriteHeader(output, at, raw, numDwords / 2);
    SameOutsideChain(s0, s1, output[..], at, DIM);
  }

  method WriteHeader(output: array<real>, at: nat, raw: seq<Byte>, numPairs: nat)
    requires at + DIM <= output.Length && numPairs == NumPairs(raw) > 0
    modifies output
    ensures HoldsAt(output[..], at, SliceOf(raw))
    ensures SameOutside(old(output[..]), output[..], at, DIM)
  {
    var fh := new FeatureHasher();
    ghost var s0 := output[..];
    StartHasher(fh, output, at + 1, PAIR_BUCKETS, true);
    ghost var s1 := output[..];
    FillHeader(fh, output, at, SliceConfig(PAIR_BUCKETS, true), raw, numPairs);
    SameOutsideWiden(s0, s1, at + 1, PAIR_BUCKETS, at, DIM);
    SameOutsideChain(s0, s1, output[..], at, DIM);
  }

  method FillHeader(fh: FeatureHasher, output: array<real>, at: nat, ghost cfg: Config, raw: seq<Byte>, numPairs: nat)
    requires Holding(fh, output, at + 1, cfg, []) && cfg.size == PAIR_BUCKETS
    requires at + DIM <= output.Length && numPairs == NumPairs(raw)
    modifies fh, output
    ensures HoldsAt(output[..], at, [PairCount(raw)] + BucketRow(cfg, Pairs(raw, numPairs)))
    ensures SameOutside(old(output[..]), output[..], at, DIM)
  {
    ghost var s1 := output[..];
    output[at] := if numPairs < 3 then 0.0 else (numPairs - 3) as real;
    ghost var s2 := output[..];
    HashPairs(fh, output, at + 1, cfg, raw, numPairs);
    CellInFront(s1, s2, output[..], at, PairCount(raw), BucketRow(cfg, Pairs(raw, numPairs)));
  }

  method HashPairs(fh: FeatureHasher, output: array<real>, base: nat, ghost cfg: Config, raw: seq<Byte>, numPairs: nat)
    requires Holding(fh, output, base, cfg, []) && cfg.size == PAIR_BUCKETS
    requires base + PAIR_BUCKETS <= output.Length && 8 * numPairs <= |raw|
    modifies fh, output
    ensures HoldsAt(output[..], base, BucketRow(cfg, Pairs(raw, numPairs)))
    ensures SameOutside(old(output[..]), output[..], base, PAIR_BUCKETS)
  {
    FeedPairs(fh, output, base, cfg, raw, numPairs);
    FinishHasher(fh, output, base, cfg, Pairs(raw, numPairs));
  }

  lemma CellInFront(s1: seq<real>, s2: seq<real>, s3: seq<real>, at: nat, cell: real, row: seq<real>)
    requires at < |s1| && s2 == s1[at := cell]
    requires SameOutside(s2, s3, at + 1, |row|) && HoldsAt(s3, at + 1, row)
    ensures HoldsAt(s3, at, [cell] + row) && SameOutside(s1, s3, at, 1 + |row|)
  {
    HoldsCell(s3, at, cell, row);
  }

  lemma PairName(raw: seq<Byte>, k: nat)
    requires 8 * k + 8 <= |raw|
    ensures var f := PairFeature(raw, k); |f.name| < 0x8000_0000 && Feature(CString(f.name), f.value) == f
  {
    DecimalWhole(Dword(raw, 2 * k));
  }

  method FeedPairs(fh: FeatureHasher, ghost output: array<real>, ghost base: nat, ghost cfg: Config,
                   raw: seq<Byte>, numPairs: nat)
    requires Holding(fh, output, base, cfg, []) && 8 * numPairs <= |raw|
    modifies fh
    ensures Holding(fh, output, base, cfg, Pairs(raw, numPairs))
  {
    for k := 0 to numPairs
      invariant Holding(fh, output, base, cfg, Pairs(raw, k))
    {
      FeedPair(fh, output, base, cfg, raw, k);
    }
  }

  method FeedPair(fh: FeatureHasher, ghost output: array<real>, ghost base: nat, ghost cfg: Config,
                  raw: seq<Byte>, k: nat)
    requires 8 * k + 8 <= |raw|
    requires Holding(fh, output, base, cfg, Pairs(raw, k))
    modifies fh
    ensures Holding(fh, output, base, cfg, Pairs(raw, k + 1))
  {
    var f := PairFeature(raw, k);
    PairName(raw, k);
    assert Pairs(raw, k + 1) == Pairs(raw, k) + [f];
    FeedHasher(fh, f.name, f.value, output, base, cfg, Pairs(raw, k));
  }
}
