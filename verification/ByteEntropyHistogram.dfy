/** The byte-entropy feature: windows of 2048 bytes every 1024 bytes, or the whole file
    when it is shorter than one window. */
module ByteEntropy {
  import opened Bytes
  import opened EntropyBins
  import opened OutputSlices
  import opened SlidingWindows

  const WINDOW_SIZE: nat := 2048
  const WINDOW_STEP: nat := 1024
  const DIM: nat := 256

  /** The blocks whose entropy is taken. */
  function BlocksOf(file: seq<Byte>): seq<seq<Byte>> {
    if |file| < WINDOW_SIZE then [file] else Windows(file, WINDOW_SIZE, WINDOW_STEP)
  }

  function Ratio(x: real, d: real): real
    requires d != 0.0
  {
    x / d
  }

  function Divided(cells: seq<real>, d: real): (r: seq<real>)
    requires d != 0.0
    ensures |r| == |cells|
  {
    seq(|cells|, i requires 0 <= i < |cells| => Ratio(cells[i], d))
  }

  function Normalised(cells: seq<real>): (r: seq<real>)
    ensures |r| == |cells|
  {
    if Sum(cells) == 0.0 then cells else Divided(cells, Sum(cells))
  }

  /** The feature as a function of the whole file. */
  function Histogram(shannon: Entropy, file: seq<Byte>): (r: seq<real>)
    ensures |r| == DIM
  {
    Normalised(Cells(shannon, BlocksOf(file)))
  }

  /** How many blocks there are and where they begin. */
  lemma BlocksInNumbers(file: seq<Byte>)
    ensures |file| < 2048 ==> BlocksOf(file) == [file]
    ensures |file| >= 2048 ==>
              && |BlocksOf(file)| == (|file| - 2048) / 1024 + 1
              && (forall k :: 0 <= k < |BlocksOf(file)| ==> 1024 * k + 2048 <= |file|)
              && (forall k :: 0 <= k < |BlocksOf(file)| ==> BlocksOf(file)[k] == file[1024 * k..1024 * k + 2048])
  {
    if |file| >= 2048 {
      forall k | 0 <= k < |BlocksOf(file)|
        ensures 1024 * k + 2048 <= |file| && BlocksOf(file)[k] == file[1024 * k..1024 * k + 2048]
      {
        WindowFits(|file|, WINDOW_SIZE, WINDOW_STEP, k);
      }
    }
  }

  // ---------- conservation

  lemma {:induction false} EqualBlocksLength(blocks: seq<seq<Byte>>, n: nat)
    requires forall k :: 0 <= k < |blocks| ==> |blocks[k]| == n
    ensures TotalLength(blocks) == |blocks| * n
  {
    if blocks == [] {
    } else {
      EqualBlocksLength(blocks[..|blocks| - 1], n);
      assert |blocks| * n == (|blocks| - 1) * n + n;
    }
  }

  /** The bytes of all blocks, windows counted as often as they overlap. */
  function BlockBytes(file: seq<Byte>): nat {
    if |file| < 2048 then |file| else 2048 * ((|file| - 2048) / 1024 + 1)
  }

  /** Before normalisation the cells add up to 2048 for every complete window, or to the
      length of a file that has none. */
  lemma CellTotal(shannon: Entropy, file: seq<Byte>)
    ensures Sum(Cells(shannon, BlocksOf(file))) == BlockBytes(file) as real
  {
    var blocks := BlocksOf(file);
    CellsConserve(shannon, blocks);
    if |file| < WINDOW_SIZE {
      assert blocks[..0] == [];
    } else {
      forall k | 0 <= k < |blocks| ensures |blocks[k]| == 2048 {
        WindowFits(|file|, WINDOW_SIZE, WINDOW_STEP, k);
      }
      EqualBlocksLength(blocks, 2048);
    }
  }

  lemma RatiosAdd(a: real, b: real, d: real)
    requires d != 0.0
    ensures Ratio(a, d) + Ratio(b, d) == Ratio(a + b, d)
    ensures Ratio(0.0, d) == 0.0 && Ratio(d, d) == 1.0
  {
    assert (a / d + b / d) * d == a + b;
    assert 0.0 / d * d == 0.0;
  }

  lemma {:induction false} SumDivided(cells: seq<real>, d: real, n: nat)
    requires d != 0.0 && n <= |cells|
    ensures Sum(Divided(cells, d)[..n]) == Ratio(Sum(cells[..n]), d)
  {
    var q := Divided(cells, d);
    if n == 0 {
      RatiosAdd(0.0, 0.0, d);
    } else {
      SumDivided(cells, d, n - 1);
      assert q[..n][..n - 1] == q[..n - 1] && cells[..n][..n - 1] == cells[..n - 1];
      RatiosAdd(Sum(cells[..n - 1]), cells[n - 1], d);
    }
  }

  /** After normalisation they add up to one, unless the file is empty. */
  lemma HistogramTotal(shannon: Entropy, file: seq<Byte>)
    ensures Sum(Histogram(shannon, file)) == if file == [] then 0.0 else 1.0
  {
    var cells := Cells(shannon, BlocksOf(file));
    CellTotal(shannon, file);
    if file != [] {
      assert Sum(cells) > 0.0;
      SumDivided(cells, Sum(cells), |cells|);
      RatiosAdd(0.0, 0.0, Sum(cells));
      var h := Histogram(shannon, file);
      assert h[..|cells|] == h && cells[..|cells|] == cells;
    }
  }

  lemma CellRatio(shannon: Entropy, file: seq<Byte>, row: nat, i: nat)
    requires row < 16 && i < 16 && file != []
    ensures Histogram(shannon, file)[16 * row + i]
         == Ratio(RowTotal(shannon, BlocksOf(file), row, i) as real, BlockBytes(file) as real)
  {
    CellTotal(shannon, file);
    CellIsRowTotal(shannon, BlocksOf(file), row, i);
  }

  lemma RatioIsQuotient(q: real, x: nat, total: nat)
    requires total > 0 && q == Ratio(x as real, total as real)
    ensures q == x as real / total as real
  {}

  /** Every cell of the feature in numbers: it is the share of the bytes of all blocks that
      have high nibble `i` and stand in a block whose entropy selects `row`. */
  lemma HistogramCell(shannon: Entropy, file: seq<Byte>, row: nat, i: nat)
    requires row < 16 && i < 16 && file != []
    ensures Histogram(shannon, file)[16 * row + i]
         == RowTotal(shannon, BlocksOf(file), row, i) as real / BlockBytes(file) as real
  {
    CellRatio(shannon, file, row, i);
    RatioIsQuotient(Histogram(shannon, file)[16 * row + i],
                    RowTotal(shannon, BlocksOf(file), row, i), BlockBytes(file));
  }

  /** An empty file is one empty block, which adds nothing. */
  lemma EmptyFileCells(shannon: Entropy, row: nat, i: nat)
    requires row < 16 && i < 16
    ensures Histogram(shannon, [])[16 * row + i] == 0.0
  {
    CellTotal(shannon, []);
    CellIsRowTotal(shannon, BlocksOf([]), row, i);
    EmptyBins(16 * i, 16 * i + 16);
    assert BlocksOf([])[..0] == [];
  }

  // ---------- the feature type

  class ByteEntropyHistogram {
    const slidingByteWindow: SlidingByteWindow
    const callback: WindowCallback

    constructor (shannon: Entropy)
      ensures fresh(Parts())
      ensures callback.shannon == shannon && callback.byteCounter.byteCounts.Length == 256
    {
      slidingByteWindow := new SlidingByteWindow();
      callback := new WindowCallback(shannon);
    }

    /** The objects that it is made of; the output is not one of them. */
    ghost function Parts(): set<object> {
      {slidingByteWindow, callback, callback.byteCounter, callback.byteCounter.byteCounts}
    }

    ghost predicate Running()
      reads slidingByteWindow, slidingByteWindow.callback, callback, callback.Repr()
    {
      && slidingByteWindow.callback == callback
      && slidingByteWindow.windowSize == WINDOW_SIZE && slidingByteWindow.step == WINDOW_STEP
      && slidingByteWindow.Running()
    }

    method Reset()
      modifies slidingByteWindow
      ensures slidingByteWindow.callback == callback
      ensures slidingByteWindow.windowSize == WINDOW_SIZE && slidingByteWindow.step == WINDOW_STEP
    {
      slidingByteWindow.Reset();
      slidingByteWindow.SetWindowSize(WINDOW_SIZE);
      slidingByteWindow.SetStep(WINDOW_STEP);
      slidingByteWindow.SetCallback(callback);
    }

    method Start(output: array<real>, at: nat)
      requires slidingByteWindow.callback == callback
      requires slidingByteWindow.windowSize == WINDOW_SIZE && slidingByteWindow.step == WINDOW_STEP
      requires callback.byteCounter.byteCounts.Length == 256
      requires at + DIM <= output.Length
      modifies slidingByteWindow, callback, output
      ensures Running() && slidingByteWindow.input == []
      ensures callback.output == output && callback.base == at
      ensures SameOutside(old(output[..]), output[..], at, DIM)
    {
      callback.Begin(output, at);
      slidingByteWindow.Start();
    }

    method Reduce(buf: seq<Byte>)
      requires Running()
      modifies slidingByteWindow
      modifies callback`withCompleteWindowCalled, callback`blocks, callback.Repr()
      ensures Running() && slidingByteWindow.input == old(slidingByteWindow.input) + buf
      ensures SameOutside(old(callback.output[..]), callback.output[..], callback.base, DIM)
    {
      slidingByteWindow.Reduce(buf);
    }

    /** Whatever blocks the file came in, its slice now holds the histogram of the file. */
    method Finalize()
      requires Running()
      modifies callback`withCompleteWindowCalled, callback`blocks, callback.Repr()
      ensures callback.output[callback.base..callback.base + DIM]
           == Histogram(callback.shannon, slidingByteWindow.input)
      ensures SameOutside(old(callback.output[..]), callback.output[..], callback.base, DIM)
    {
      ghost var file, before := slidingByteWindow.input, callback.output[..];
      FinishBlocks();
      ghost var middle := callback.output[..];
      NormaliseCells(callback.output, callback.base);
      SameOutsideChain(before, middle, callback.output[..], callback.base, DIM);
    }

    method FinishBlocks()
      requires Running()
      modifies callback`withCompleteWindowCalled, callback`blocks, callback.Repr()
      ensures callback.output[callback.base..callback.base + DIM]
           == Cells(callback.shannon, BlocksOf(slidingByteWindow.input))
      ensures SameOutside(old(callback.output[..]), callback.output[..], callback.base, DIM)
    {
      ghost var file, before := slidingByteWindow.input, callback.output[..];
      OneBuffer(slidingByteWindow);
      slidingByteWindow.Finalize();
      if !callback.withCompleteWindowCalled {
        ghost var middle := callback.output[..];
        var theOnlyBlock := slidingByteWindow.GetLastBlockAnyway();
        OneBlock(callback.shannon, file);
        callback.WriteEntropyBinCounts(theOnlyBlock);
        SameOutsideChain(before, middle, callback.output[..], callback.base, DIM);
      }
    }
  }

  lemma OneBlock(shannon: Entropy, file: seq<Byte>)
    ensures Cells(shannon, [file]) == AddBlock(shannon, Cells(shannon, []), file)
  {
    CellsSnoc(shannon, [], file);
    assert [] + [file] == [file];
  }

  /** A file shorter than a window is still entirely in the buffer. */
  lemma OneBuffer(w: SlidingByteWindow)
    requires w.Running() && w.windowSize == WINDOW_SIZE && w.step == WINDOW_STEP
    ensures |Windows(w.input, WINDOW_SIZE, WINDOW_STEP)| == 0 <==> |w.input| < WINDOW_SIZE
    ensures |w.input| < WINDOW_SIZE ==> w.block == w.input
  {
    if |w.input| < WINDOW_SIZE {
      assert w.callback.blocks == [];
      assert w.input[0..|w.input|] == w.input;
    }
  }

  method NormaliseCells(output: array<real>, base: nat)
    requires base + DIM <= output.Length
    modifies output
    ensures output[base..base + DIM] == Normalised(old(output[base..base + DIM]))
    ensures SameOutside(old(output[..]), output[..], base, DIM)
  {
    var sum := ArraySum(output, base, DIM);
    if sum == 0.0 {
    } else {
      for i := 0 to DIM
        invariant forall k :: 0 <= k < output.Length ==>
          output[k] == if base <= k < base + i then Ratio(old(output[k]), sum) else old(output[k])
      {
        output[base + i] := Ratio(output[base + i], sum);
      }
    }
  }

  method ArraySum(arr: array<real>, base: nat, n: nat) returns (s: real)
    requires base + n <= arr.Length
    ensures s == Sum(arr[base..base + n])
  {
    s := 0.0;
    for i := 0 to n
      invariant s == Sum(arr[base..base + i])
    {
      assert arr[base..base + i + 1][..i] == arr[base..base + i];
      s := s + arr[base + i];
    }
  }
}
