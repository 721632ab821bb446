/** The feature type of readable strings. */
module StringExtractors {
  import opened Collections
  import opened Bytes
  import opened ByteReducers
  import opened EntropyBins
  import opened OutputSlices
  import opened ReadableStrings

  /** Whether a string matches an interesting pattern; the patterns are not modelled. */
  type Matcher = (nat, seq<Byte>) -> bool

  const NUM_PATTERNS: nat := 77
  const FIRST_READABLE: nat := 0x20
  const NUM_READABLE: nat := 96
  const DIM: nat := 3 + NUM_READABLE + 1 + NUM_PATTERNS

  // ---------- the feature as a function of the strings found

  /** How many of the strings match pattern `i`. */
  function Matches(m: Matcher, found: seq<seq<Byte>>, i: nat): nat {
    if found == [] then 0
    else Matches(m, found[..|found| - 1], i) + (if m(i, found[|found| - 1]) then 1 else 0)
  }

  function ReadableCounts(found: seq<seq<Byte>>): (c: seq<nat>)
    ensures |c| == NUM_READABLE
  {
    seq<nat>(NUM_READABLE, i requires 0 <= i => Count(Concat(found), FIRST_READABLE + i))
  }

  function PatternCounts(m: Matcher, found: seq<seq<Byte>>): (c: seq<nat>)
    ensures |c| == NUM_PATTERNS
  {
    seq(NUM_PATTERNS, i requires 0 <= i => Matches(m, found, i))
  }

  function Average(found: seq<seq<Byte>>): real {
    if found == [] then 0.0 else TotalLength(found) as real / |found| as real
  }

  /** Number of strings, mean length, number of bytes; the distribution of the bytes and its
      entropy; how many strings match each pattern. */
  function Features(shannon: Entropy, m: Matcher, found: seq<seq<Byte>>): (r: seq<real>)
    ensures |r| == DIM
  {
    var counts := ReadableCounts(found);
    var total := TotalLength(found);
    [|found| as real, Average(found), total as real]
    + Shares(counts, total)
    + [shannon(total, counts)]
    + AsReals(PatternCounts(m, found))
  }

  // ---------- the slice in numbers

  /** How many strings match a pattern. */
  lemma {:induction false} MatchesIsNumber(m: Matcher, found: seq<seq<Byte>>, i: nat, p: seq<Byte> -> bool)
    requires forall s :: p(s) <==> m(i, s)
    ensures Matches(m, found, i) == Number(found, p)
  {
    if found == [] {
      NumberOfNone(found, p);
    } else {
      var n := |found| - 1;
      MatchesIsNumber(m, found[..n], i, p);
      NumberSnoc(found[..n], found[n], p);
      assert found == found[..n] + [found[n]];
    }
  }

  /** Four parts: three totals, the distribution of 96 bytes, its entropy, 77 pattern counts. */
  lemma SliceParts(shannon: Entropy, m: Matcher, found: seq<seq<Byte>>)
    ensures var r := Features(shannon, m, found);
            && |r| == 177
            && r[..3] == [|found| as real, Average(found), TotalLength(found) as real]
            && r[3..99] == Shares(ReadableCounts(found), TotalLength(found))
            && r[99..100] == [shannon(TotalLength(found), ReadableCounts(found))]
            && r[100..] == AsReals(PatternCounts(m, found))
  {
    FourSlices([|found| as real, Average(found), TotalLength(found) as real],
               Shares(ReadableCounts(found), TotalLength(found)),
               [shannon(TotalLength(found), ReadableCounts(found))], AsReals(PatternCounts(m, found)));
  }

  /** The mean length times the number of strings is the number of their bytes. */
  lemma AverageInNumbers(found: seq<seq<Byte>>, average: real, n: nat, total: nat)
    requires average == Average(found) && n == |found| && total == TotalLength(found)
    ensures average * n as real == total as real
    ensures n == 0 ==> average == 0.0
  {}

  lemma ReadableShares(shannon: Entropy, m: Matcher, found: seq<seq<Byte>>)
    ensures Features(shannon, m, found)[3..99] == Shares(ReadableCounts(found), TotalLength(found))
  {
    SliceParts(shannon, m, found);
  }

  lemma NothingToCount(found: seq<seq<Byte>>, b: int)
    ensures TotalLength(found) == 0 ==> Count(Concat(found), b) == 0
  {
    ConcatLength(found);
  }

  /** Cell 3 + i holds the share of byte 0x20 + i, or 0 when there are no strings. */
  lemma ReadableShare(shannon: Entropy, m: Matcher, found: seq<seq<Byte>>, i: nat, share: real, total: nat)
    requires i < 96 && share == Features(shannon, m, found)[3..99][i] && total == TotalLength(found)
    ensures share * total as real == Count(Concat(found), 0x20 + i) as real
    ensures total == 0 ==> share == 0.0
  {
    ReadableShares(shannon, m, found);
    NothingToCount(found, 0x20 + i);
    ShareTimes(ReadableCounts(found), total, i, share);
  }

  lemma ReadableEntropy(shannon: Entropy, m: Matcher, found: seq<seq<Byte>>, counts: seq<nat>)
    requires |counts| == 96 && forall i :: 0 <= i < 96 ==> counts[i] == Count(Concat(found), 0x20 + i)
    ensures Features(shannon, m, found)[99..100] == [shannon(TotalLength(found), counts)]
  {
    assert counts == ReadableCounts(found);
    SliceParts(shannon, m, found);
  }

  /** Cell 100 + i holds the number of strings that match pattern i. */
  lemma PatternCell(shannon: Entropy, m: Matcher, found: seq<seq<Byte>>, i: nat)
    requires i < 77
    ensures Features(shannon, m, found)[100..][i] == Number(found, (s: seq<Byte>) => m(i, s)) as real
  {
    SliceParts(shannon, m, found);
    MatchesIsNumber(m, found, i, (s: seq<Byte>) => m(i, s));
  }

  // ---------- what the counters hold

  /** The patterns below `n` that a string matches, in order. */
  function HitsOf(m: Matcher, s: seq<Byte>, n: nat): seq<Byte>
    requires n <= NUM_PATTERNS
  {
    if n == 0 then [] else HitsOf(m, s, n - 1) + (if m(n - 1, s) then [n - 1] else [])
  }

  function Hits(m: Matcher, found: seq<seq<Byte>>): seq<Byte> {
    if found == [] then []
    else Hits(m, found[..|found| - 1]) + HitsOf(m, found[|found| - 1], NUM_PATTERNS)
  }

  lemma {:induction false} HitsOfCount(m: Matcher, s: seq<Byte>, n: nat, i: nat)
    requires n <= NUM_PATTERNS
    ensures Count(HitsOf(m, s, n), i) == if i < n && m(i, s) then 1 else 0
  {
    if n == 0 {
    } else {
      HitsOfCount(m, s, n - 1, i);
      if m(n - 1, s) {
        CountSnoc(HitsOf(m, s, n - 1), n - 1, i);
      } else {
        assert HitsOf(m, s, n) == HitsOf(m, s, n - 1);
      }
    }
  }

  /** A byte counter fed with pattern numbers counts the strings that match each pattern. */
  lemma {:induction false} HitsCount(m: Matcher, found: seq<seq<Byte>>, i: nat)
    requires i < NUM_PATTERNS
    ensures Count(Hits(m, found), i) == Matches(m, found, i)
  {
    if found == [] {
    } else {
      var n := |found| - 1;
      HitsCount(m, found[..n], i);
      HitsOfCount(m, found[n], NUM_PATTERNS, i);
      CountConcat(Hits(m, found[..n]), HitsOf(m, found[n], NUM_PATTERNS), i);
    }
  }

  lemma {:induction false} FoundWellFormed(blocks: seq<seq<Byte>>)
    ensures forall k :: 0 <= k < |Found(blocks)| ==> |Found(blocks)[k]| >= MIN_LENGTH && AllPrintable(Found(blocks)[k])
  {
    if blocks == [] {
    } else {
      FoundWellFormed(blocks[..|blocks| - 1]);
      StringsWellFormed(blocks[|blocks| - 1]);
    }
  }

  lemma {:induction false} ConcatReadable(found: seq<seq<Byte>>)
    requires forall k :: 0 <= k < |found| ==> |found[k]| >= MIN_LENGTH && AllPrintable(found[k])
    ensures AllPrintable(Concat(found)) && TotalLength(found) >= MIN_LENGTH * |found|
  {
    if found == [] {
    } else {
      ConcatReadable(found[..|found| - 1]);
    }
  }

  /** However the file is cut: the total length is the number of counted bytes, all of which
      fall into the 96 readable bins, and it is at least five for every string. */
  lemma FoundConsistent(blocks: seq<seq<Byte>>)
    ensures var found := Found(blocks);
            && TotalLength(found) == |Concat(found)|
            && TotalLength(found) == BinTotal(Concat(found), 0x20, 0x80)
            && TotalLength(found) >= 5 * |found|
  {
    var found := Found(blocks);
    FoundWellFormed(blocks);
    ConcatReadable(found);
    ConcatLength(found);
    BinsAddUp(Concat(found), FIRST_READABLE, FIRST_READABLE + NUM_READABLE);
  }

  // ---------- the feature type

  class StringExtractor {
    const shannon: Entropy
    const matcher: Matcher
    const readableByteCounter: ByteCounter
    const interestingStringCounter: ByteCounter
    var sumReadableStringLengths: real
    var numReadableStrings: nat
    ghost var found: seq<seq<Byte>>

    constructor (shannon: Entropy, matcher: Matcher)
      ensures this.shannon == shannon && this.matcher == matcher
      ensures fresh(Parts()) && Separate()
    {
      this.shannon, this.matcher := shannon, matcher;
      readableByteCounter := new ByteCounter();
      interestingStringCounter := new ByteCounter();
      sumReadableStringLengths, numReadableStrings, found := 0.0, 0, [];
    }

    ghost function Repr(): set<object> {
      {readableByteCounter, readableByteCounter.byteCounts,
       interestingStringCounter, interestingStringCounter.byteCounts}
    }

    ghost function Parts(): set<object> {
      {this as object} + Repr()
    }

    ghost predicate Separate() {
      && readableByteCounter != interestingStringCounter
      && readableByteCounter.byteCounts != interestingStringCounter.byteCounts
      && readableByteCounter.byteCounts.Length == 256
      && interestingStringCounter.byteCounts.Length == 256
    }

    /** The counters hold exactly what the strings found so far amount to. */
    ghost predicate Running()
      reads this, Repr()
    {
      && Separate()
      && readableByteCounter.Valid() && readableByteCounter.seen == Concat(found)
      && interestingStringCounter.Valid() && interestingStringCounter.seen == Hits(matcher, found)
      && sumReadableStringLengths == TotalLength(found) as real
      && numReadableStrings == |found|
    }

    method Reset()
      requires Separate()
      modifies this, Repr()
      ensures Running() && found == []
    {
      sumReadableStringLengths := 0.0;
      numReadableStrings := 0;
      found := [];
      readableByteCounter.Reset();
      interestingStringCounter.Reset();
    }

    /** A block adds the strings that it contains. */
    method Reduce(buf: seq<Byte>)
      requires Running()
      modifies this, Repr()
      ensures Running() && found == old(found) + Strings(buf)
    {
      var input := buf;
      assert found + Strings(input) == found + Strings(buf);
      while true
        invariant Running()
        invariant found + Strings(input) == old(found) + Strings(buf)
        decreases |input|
      {
        var matched, from, to := FindAndConsume(input);
        if !matched {
          NoWindowNoString(input);
          assert found + [] == found;
          break;
        }
        ConsumeStep(input, from, to);
        ConcatOne(found, input[from..to], Strings(input[to..]));
        TakeString(input[from..to]);
        input := input[to..];
      }
    }

    method TakeString(s: seq<Byte>)
      requires Running()
      modifies this, Repr()
      ensures Running() && found == old(found) + [s]
    {
      FoundSnoc(matcher, found, s);
      sumReadableStringLengths := sumReadableStringLengths + |s| as real;
      numReadableStrings := numReadableStrings + 1;
      readableByteCounter.Reduce(s);
      CountPatterns(s);
      found := found + [s];
    }

    /** The counter is used for pattern numbers, of which there are fewer than 256. */
    method CountPatterns(s: seq<Byte>)
      requires interestingStringCounter.Valid()
      modifies interestingStringCounter, interestingStringCounter.byteCounts
      ensures interestingStringCounter.Valid()
      ensures interestingStringCounter.seen
           == old(interestingStringCounter.seen) + HitsOf(matcher, s, NUM_PATTERNS)
    {
      ghost var seen0 := interestingStringCounter.seen;
      assert seen0 + [] == seen0;
      for i := 0 to NUM_PATTERNS
        invariant interestingStringCounter.Valid()
        invariant interestingStringCounter.seen == seen0 + HitsOf(matcher, s, i)
      {
        if matcher(i, s) {
          interestingStringCounter.Reduce([i]);
        }
      }
    }

    method Finalize(output: array<real>, at: nat)
      requires Running()
      requires at + DIM <= output.Length
      modifies output
      ensures HoldsAt(output[..], at, Features(shannon, matcher, found))
      ensures SameOutside(old(output[..]), output[..], at, DIM)
    {
      ConcatLength(found);
      ghost var total := TotalLength(found);
      ghost var first := [|found| as real, Average(found), total as real];
      ghost var shares := Shares(ReadableCounts(found), total);
      ghost var third := [shannon(total, ReadableCounts(found))];
      ghost var fourth := AsReals(PatternCounts(matcher, found));

      WriteTotals(output, at);
      ghost var s1 := output[..];
      WriteReadable(output, at + 3);
      ghost var s2 := output[..];
      WriteEntropy(output, at + 99);
      ghost var s3 := output[..];
      WritePatterns(output, at + 100);
      ghost var s4 := output[..];

      HoldsKept(s1, s2, at, first, at + 3, 96);
      HoldsKept(s2, s3, at, first, at + 99, 1);
      HoldsKept(s3, s4, at, first, at + 100, 77);
      HoldsKept(s2, s3, at + 3, shares, at + 99, 1);
      HoldsKept(s3, s4, at + 3, shares, at + 100, 77);
      HoldsKept(s3, s4, at + 99, third, at + 100, 77);
      HoldsJoin(s4, at, first, shares);
      HoldsJoin(s4, at, first + shares, third);
      HoldsJoin(s4, at, first + shares + third, fourth);
    }

    method WriteTotals(output: array<real>, at: nat)
      requires Running()
      requires at + DIM <= output.Length
      modifies output
      ensures HoldsAt(output[..], at, [|found| as real, Average(found), TotalLength(found) as real])
      ensures SameOutside(old(output[..]), output[..], at, 3)
    {
      ConcatLength(found);
      output[at] := numReadableStrings as real;
      output[at + 1] := if numReadableStrings == 0 then 0.0
                        else sumReadableStringLengths / numReadableStrings as real;
      output[at + 2] := readableByteCounter.totalNumBytes as real;
    }

    /** Copy the readable bins, then scale them by the inverse total. */
    method WriteReadable(output: array<real>, at: nat)
      requires Running()
      requires at + NUM_READABLE <= output.Length
      modifies output
      ensures HoldsAt(output[..], at, Shares(ReadableCounts(found), TotalLength(found)))
      ensures SameOutside(old(output[..]), output[..], at, NUM_READABLE)
    {
      ConcatLength(found);
      var total := readableByteCounter.totalNumBytes;
      var counts := readableByteCounter.byteCounts[FIRST_READABLE..FIRST_READABLE + NUM_READABLE];
      assert counts == ReadableCounts(found);
      var invTotal := if total == 0 then 1.0 else 1.0 / total as real;
      ArrayCopy(output, at, counts);
      ArrayMul(invTotal, output, at, NUM_READABLE);
      InverseShares(counts, total, invTotal);
    }

    method WriteEntropy(output: array<real>, at: nat)
      requires Running()
      requires at < output.Length
      modifies output
      ensures HoldsAt(output[..], at, [shannon(TotalLength(found), ReadableCounts(found))])
      ensures SameOutside(old(output[..]), output[..], at, 1)
    {
      ConcatLength(found);
      var counts := readableByteCounter.byteCounts[FIRST_READABLE..FIRST_READABLE + NUM_READABLE];
      assert counts == ReadableCounts(found);
      output[at] := shannon(readableByteCounter.totalNumBytes, counts);
    }

    method WritePatterns(output: array<real>, at: nat)
      requires Running()
      requires at + NUM_PATTERNS <= output.Length
      modifies output
      ensures HoldsAt(output[..], at, AsReals(PatternCounts(matcher, found)))
      ensures SameOutside(old(output[..]), output[..], at, NUM_PATTERNS)
    {
      var counts := interestingStringCounter.byteCounts[..NUM_PATTERNS];
      forall i | 0 <= i < NUM_PATTERNS ensures counts[i] == Matches(matcher, found, i) {
        HitsCount(matcher, found, i);
      }
      assert counts == PatternCounts(matcher, found);
      ArrayCopy(output, at, counts);
    }
  }

  lemma ConcatOne(found: seq<seq<Byte>>, s: seq<Byte>, rest: seq<seq<Byte>>)
    ensures found + ([s] + rest) == (found + [s]) + rest
  {}

  lemma FoundSnoc(m: Matcher, found: seq<seq<Byte>>, s: seq<Byte>)
    ensures Concat(found + [s]) == Concat(found) + s
    ensures Hits(m, found + [s]) == Hits(m, found) + HitsOf(m, s, NUM_PATTERNS)
    ensures TotalLength(found + [s]) == TotalLength(found) + |s|
  {
    assert (found + [s])[..|found|] == found;
  }

  function Times(x: real, y: real): real { x * y }

  function Scaled(row: seq<real>, x: real): (r: seq<real>)
    ensures |r| == |row|
  {
    seq(|row|, i requires 0 <= i < |row| => Times(row[i], x))
  }

  lemma InverseShares(c: seq<nat>, total: nat, inv: real)
    requires inv == if total == 0 then 1.0 else 1.0 / total as real
    ensures Scaled(AsReals(c), inv) == Shares(c, total)
  {
    forall i | 0 <= i < |c| ensures Scaled(AsReals(c), inv)[i] == Shares(c, total)[i] {
      if total != 0 {
        TimesInverse(c[i] as real, total as real);
      }
    }
  }

  lemma TimesInverse(x: real, y: real)
    requires y != 0.0
    ensures x * (1.0 / y) == x / y
  {
    assert (x / y) * y == x;
  }

  method ArrayCopy(dest: array<real>, at: nat, src: seq<nat>)
    requires at + |src| <= dest.Length
    modifies dest
    ensures HoldsAt(dest[..], at, AsReals(src))
    ensures SameOutside(old(dest[..]), dest[..], at, |src|)
  {
    for i := 0 to |src|
      invariant forall k :: 0 <= k < dest.Length ==>
        dest[k] == if at <= k < at + i then src[k - at] as real else old(dest[k])
    {
      dest[at + i] := src[i] as real;
    }
  }

  method ArrayMul(multiplier: real, arr: array<real>, at: nat, n: nat)
    requires at + n <= arr.Length
    modifies arr
    ensures HoldsAt(arr[..], at, Scaled(old(arr[at..at + n]), multiplier))
    ensures SameOutside(old(arr[..]), arr[..], at, n)
  {
    for i := 0 to n
      invariant forall k :: 0 <= k < arr.Length ==>
        arr[k] == if at <= k < at + i then Times(old(arr[k]), multiplier) else old(arr[k])
    {
      arr[at + i] := Times(arr[at + i], multiplier);
    }
  }
}
