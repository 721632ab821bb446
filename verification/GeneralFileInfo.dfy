/** The general feature type: size, entropy, whether the file parses, its first four bytes
    and the distribution of its bytes. */
module GeneralInfo {
  import opened Bytes
  import opened ByteReducers
  import opened EntropyBins
  import opened OutputSlices

  const NUM_FIRST_BYTES: nat := 4
  const DIM: nat := 3 + NUM_FIRST_BYTES + 256

  function ByteCounts(file: seq<Byte>): (c: seq<nat>)
    ensures |c| == 256
  {
    seq<nat>(256, b requires 0 <= b => Count(file, b))
  }

  function FirstBytes(file: seq<Byte>): (r: seq<real>)
    ensures |r| == NUM_FIRST_BYTES
  {
    seq(NUM_FIRST_BYTES, i requires 0 <= i => ByteAt(file, i) as real)
  }

  /** What a division of zero by zero yields. No real number is NaN; about this one nothing
      is known. */
  const NAN: real

  function Quotient(count: nat, size: nat): real {
    if size == 0 then NAN else count as real / size as real
  }

  function Quotients(counts: seq<nat>, size: nat): (r: seq<real>)
    ensures |r| == |counts|
  {
    seq(|counts|, i requires 0 <= i < |counts| => Quotient(counts[i], size))
  }

  /** The feature as a function of the whole file. */
  function Features(shannon: Entropy, isPE: bool, file: seq<Byte>): (r: seq<real>)
    ensures |r| == DIM
  {
    [|file| as real, shannon(|file|, ByteCounts(file)), if isPE then 1.0 else 0.0]
    + FirstBytes(file)
    + Quotients(ByteCounts(file), |file|)
  }

  // ---------- the cells in numbers

  /** The parts of the slice: three cells, the first bytes, the distribution. */
  lemma PartsOfSlice(shannon: Entropy, isPE: bool, file: seq<Byte>)
    ensures Features(shannon, isPE, file)[..3]
         == [|file| as real, shannon(|file|, ByteCounts(file)), if isPE then 1.0 else 0.0]
    ensures Features(shannon, isPE, file)[3..7] == FirstBytes(file)
    ensures Features(shannon, isPE, file)[7..263] == Quotients(ByteCounts(file), |file|)
  {
    ThreeSlices([|file| as real, shannon(|file|, ByteCounts(file)), if isPE then 1.0 else 0.0],
                FirstBytes(file), Quotients(ByteCounts(file), |file|));
  }

  lemma HeaderCells(shannon: Entropy, isPE: bool, file: seq<Byte>, counts: seq<nat>)
    requires |counts| == 256 && forall b :: 0 <= b < 256 ==> counts[b] == Count(file, b)
    ensures Features(shannon, isPE, file)[..3] == [|file| as real, shannon(|file|, counts), if isPE then 1.0 else 0.0]
  {
    assert counts == ByteCounts(file);
    PartsOfSlice(shannon, isPE, file);
  }

  lemma FirstByteCell(shannon: Entropy, isPE: bool, file: seq<Byte>, i: nat)
    requires i < 4
    ensures Features(shannon, isPE, file)[3..7][i] == if i < |file| then file[i] as real else 0.0
  {
    PartsOfSlice(shannon, isPE, file);
  }

  lemma ShareCell(shannon: Entropy, isPE: bool, file: seq<Byte>, b: nat)
    requires b < 256
    ensures Features(shannon, isPE, file)[7 + b] == Quotient(Count(file, b), |file|)
  {
    PartsOfSlice(shannon, isPE, file);
    SliceAt(Features(shannon, isPE, file), 7, 263, b);
  }

  lemma ShareTimesSize(shannon: Entropy, isPE: bool, file: seq<Byte>, b: nat, size: nat, share: real)
    requires b < 256 && 0 < size == |file| && share == Features(shannon, isPE, file)[7 + b]
    ensures share * size as real == Count(file, b) as real
  {
    ShareCell(shannon, isPE, file, b);
    QuotientTimes(share, Count(file, b), size);
  }

  lemma SliceAt(r: seq<real>, lo: nat, hi: nat, b: nat)
    requires lo <= hi <= |r| && b < hi - lo
    ensures r[lo..hi][b] == r[lo + b]
  {}

  lemma QuotientTimes(q: real, count: nat, size: nat)
    requires size > 0 && q == Quotient(count, size)
    ensures q * size as real == count as real
  {}

  lemma QuotientsAdd(a: nat, b: nat, size: nat)
    requires size > 0
    ensures Quotient(a, size) + Quotient(b, size) == Quotient(a + b, size)
    ensures Quotient(0, size) == 0.0 && Quotient(size, size) == 1.0
  {
    var d := size as real;
    assert (a as real / d + b as real / d) * d == (a + b) as real;
    assert 0.0 / d * d == 0.0;
  }

  lemma {:induction false} SharesBelow(file: seq<Byte>, n: nat)
    requires file != [] && n <= 256
    ensures Sum(Quotients(ByteCounts(file), |file|)[..n]) == Quotient(BinTotal(file, 0, n), |file|)
  {
    var q := Quotients(ByteCounts(file), |file|);
    if n == 0 {
      QuotientsAdd(0, 0, |file|);
    } else {
      SharesBelow(file, n - 1);
      assert q[..n][..n - 1] == q[..n - 1];
      QuotientsAdd(BinTotal(file, 0, n - 1), Count(file, n - 1), |file|);
    }
  }

  /** The distribution of the bytes of a nonempty file adds up to one. */
  lemma SharesAddUp(shannon: Entropy, isPE: bool, file: seq<Byte>)
    requires file != []
    ensures Sum(Features(shannon, isPE, file)[7..263]) == 1.0
  {
    var q := Quotients(ByteCounts(file), |file|);
    SharesBelow(file, 256);
    BinsAddUp(file, 0, 256);
    QuotientsAdd(0, 0, |file|);
    PartsOfSlice(shannon, isPE, file);
    assert q[..256] == q;
  }

  function OffsetsBelow(n: nat): set<nat> {
    if n == 0 then {} else OffsetsBelow(n - 1) + {n - 1}
  }

  class GeneralFileInfo {
    const shannon: Entropy
    const byteCounter: ByteCounter
    const byteAtOffsetCatcher: ByteCatcher

    constructor (shannon: Entropy)
      ensures this.shannon == shannon
      ensures fresh(Repr()) && byteCounter.byteCounts.Length == 256
    {
      this.shannon := shannon;
      byteCounter := new ByteCounter();
      byteAtOffsetCatcher := new ByteCatcher();
    }

    ghost function Repr(): set<object> {
      {byteCounter, byteCounter.byteCounts, byteAtOffsetCatcher}
    }

    /** Both reducers have seen the same bytes, and the first four offsets are wanted. */
    ghost predicate Wanting(file: seq<Byte>)
      reads Repr()
    {
      && byteCounter.Valid() && byteCounter.seen == file
      && byteAtOffsetCatcher.Caught() && byteAtOffsetCatcher.seen == file
      && byteAtOffsetCatcher.offsetToByteMap.Keys == {0, 1, 2, 3}
    }

    ghost predicate Running(file: seq<Byte>)
      reads Repr()
    {
      Wanting(file) && byteAtOffsetCatcher.Started()
    }

    method Reset()
      requires byteCounter.byteCounts.Length == 256
      modifies Repr()
      ensures Wanting([])
    {
      byteCounter.Reset();
      byteAtOffsetCatcher.Reset();
      for i := 0 to NUM_FIRST_BYTES
        invariant byteCounter.Valid() && byteCounter.seen == []
        invariant byteAtOffsetCatcher.Caught() && byteAtOffsetCatcher.seen == []
        invariant byteAtOffsetCatcher.offsetToByteMap.Keys == OffsetsBelow(i)
      {
        byteAtOffsetCatcher.WantByteAtOffset(i);
      }
      assert OffsetsBelow(2) == {0, 1} && OffsetsBelow(4) == {0, 1, 2, 3};
    }

    method Start()
      requires Wanting([])
      modifies byteAtOffsetCatcher
      ensures Running([])
    {
      byteAtOffsetCatcher.Start();
    }

    method Reduce(ghost file: seq<Byte>, bufOffset: nat, buf: seq<Byte>)
      requires Running(file) && bufOffset == |file|
      modifies Repr()
      ensures Running(file + buf)
    {
      byteCounter.Reduce(buf);
      byteAtOffsetCatcher.Reduce(bufOffset, buf);
    }

    /** The byte counts are divided by the size of the file, even when that is zero. */
    method Finalize(ghost file: seq<Byte>, isPE: bool, output: array<real>, at: nat)
      requires Running(file)
      requires at + DIM <= output.Length
      modifies output
      ensures HoldsAt(output[..], at, Features(shannon, isPE, file))
      ensures SameOutside(old(output[..]), output[..], at, DIM)
    {
      ghost var first := [|file| as real, shannon(|file|, ByteCounts(file)), if isPE then 1.0 else 0.0];
      WriteHeader(file, isPE, output, at);
      ghost var s1 := output[..];
      WriteFirstBytes(file, output, at + 3);
      ghost var s2 := output[..];
      WriteShares(file, output, at + 7);
      ghost var s3 := output[..];
      HoldsKept(s1, s2, at, first, at + 3, 4);
      HoldsKept(s2, s3, at, first, at + 7, 256);
      HoldsKept(s2, s3, at + 3, FirstBytes(file), at + 7, 256);
      HoldsJoin(s3, at, first, FirstBytes(file));
      HoldsJoin(s3, at, first + FirstBytes(file), Quotients(ByteCounts(file), |file|));
    }

    method WriteHeader(ghost file: seq<Byte>, isPE: bool, output: array<real>, at: nat)
      requires Running(file)
      requires at + 3 <= output.Length
      modifies output
      ensures HoldsAt(output[..], at, [|file| as real, shannon(|file|, ByteCounts(file)), if isPE then 1.0 else 0.0])
      ensures SameOutside(old(output[..]), output[..], at, 3)
    {
      var counts := byteCounter.byteCounts[..];
      assert counts == ByteCounts(file);
      output[at] := byteCounter.totalNumBytes as real;
      output[at + 1] := shannon(byteCounter.totalNumBytes, counts);
      output[at + 2] := if isPE then 1.0 else 0.0;
    }

    method WriteFirstBytes(ghost file: seq<Byte>, output: array<real>, at: nat)
      requires Running(file)
      requires at + NUM_FIRST_BYTES <= output.Length
      modifies output
      ensures HoldsAt(output[..], at, FirstBytes(file))
      ensures SameOutside(old(output[..]), output[..], at, NUM_FIRST_BYTES)
    {
      var offsets := byteAtOffsetCatcher.offsetToByteMap;
      for i := 0 to NUM_FIRST_BYTES
        invariant forall k :: 0 <= k < output.Length ==>
          output[k] == if at <= k < at + i then ByteAt(file, k - at) as real else old(output[k])
      {
        output[at + i] := if i in offsets then offsets[i] as real else 0.0;
      }
    }

    method WriteShares(ghost file: seq<Byte>, output: array<real>, at: nat)
      requires Running(file)
      requires at + 256 <= output.Length
      modifies output
      ensures HoldsAt(output[..], at, Quotients(ByteCounts(file), |file|))
      ensures SameOutside(old(output[..]), output[..], at, 256)
    {
      var size := byteCounter.totalNumBytes;
      for i := 0 to 256
        invariant forall k :: 0 <= k < output.Length ==>
          output[k] == if at <= k < at + i then Quotients(ByteCounts(file), |file|)[k - at] else old(output[k])
      {
        output[at + i] := Quotient(byteCounter.byteCounts[i], size);
      }
    }
  }
}
