/** The 16 by 16 histogram of byte entropy: every block adds the counts of its high
    nibbles to the one row that its entropy selects. */
module EntropyBins {
  import opened Bytes
  import opened ByteReducers
  import opened OutputSlices

  /** The entropy of 16 counts with the given total; its value is not modelled. */
  type Entropy = (nat, seq<nat>) -> real

  function Nibbles(block: seq<Byte>): (n: seq<Byte>)
    ensures |n| == |block| && forall i :: 0 <= i < |n| ==> 0 <= n[i] < 16
  {
    seq(|block|, i requires 0 <= i < |block| => block[i] / 16)
  }

  /** A conversion to int drops the fraction. */
  function Truncated(x: real): int {
    if x >= 0.0 then x.Floor else -((-x).Floor)
  }

  function BinOf(h: real): (bin: nat)
    ensures bin < 16
  {
    var b := Truncated(h * 2.0);
    if b < 0 then 0 else if b > 15 then 15 else b
  }

  function NibbleCounts(block: seq<Byte>): (counts: seq<nat>)
    ensures |counts| == 16
  {
    seq(16, b requires 0 <= b => Count(Nibbles(block), b))
  }

  function RowOf(shannon: Entropy, block: seq<Byte>): (row: nat)
    ensures row < 16
  {
    BinOf(shannon(|block|, NibbleCounts(block)) * 2.0)
  }

  function AddCounts(cells: seq<real>, row: nat, counts: seq<nat>): (r: seq<real>)
    requires |cells| == 256 && |counts| == 16
    ensures |r| == 256
  {
    seq(256, i requires 0 <= i < 256 => cells[i] + (if i / 16 == row then counts[i % 16] as real else 0.0))
  }

  function AddBlock(shannon: Entropy, cells: seq<real>, block: seq<Byte>): (r: seq<real>)
    requires |cells| == 256
    ensures |r| == 256
  {
    AddCounts(cells, RowOf(shannon, block), NibbleCounts(block))
  }

  function Cells(shannon: Entropy, blocks: seq<seq<Byte>>): (cells: seq<real>)
    ensures |cells| == 256
  {
    if blocks == [] then seq(256, _ => 0.0)
    else AddBlock(shannon, Cells(shannon, blocks[..|blocks| - 1]), blocks[|blocks| - 1])
  }

  lemma CellsSnoc(shannon: Entropy, blocks: seq<seq<Byte>>, block: seq<Byte>)
    ensures Cells(shannon, blocks + [block]) == AddBlock(shannon, Cells(shannon, blocks), block)
  {
    assert (blocks + [block])[..|blocks|] == blocks;
  }

  // ---------- conservation

  function Sum(cells: seq<real>): real {
    if cells == [] then 0.0 else Sum(cells[..|cells| - 1]) + cells[|cells| - 1]
  }

  /** What a block adds to the first `n` cells. */
  function Added(row: nat, nibbles: seq<Byte>, n: nat): nat {
    if n <= 16 * row then 0
    else if n <= 16 * row + 16 then BinTotal(nibbles, 0, n - 16 * row)
    else BinTotal(nibbles, 0, 16)
  }

  lemma CellOfRow(i: nat, row: nat)
    ensures i / 16 == row <==> 16 * row <= i < 16 * row + 16
    ensures i / 16 == row ==> i % 16 == i - 16 * row
  {}

  lemma AddedStep(row: nat, nibbles: seq<Byte>, n: nat)
    ensures Added(row, nibbles, n + 1)
         == Added(row, nibbles, n) + (if n / 16 == row then Count(nibbles, n % 16) else 0)
  {
    CellOfRow(n, row);
  }

  lemma {:induction false} AddBlockSum(shannon: Entropy, cells: seq<real>, block: seq<Byte>, n: nat)
    requires |cells| == 256 && n <= 256
    ensures Sum(AddBlock(shannon, cells, block)[..n])
         == Sum(cells[..n]) + Added(RowOf(shannon, block), Nibbles(block), n) as real
  {
    if n == 0 {
    } else {
      AddBlockSum(shannon, cells, block, n - 1);
      AddedStep(RowOf(shannon, block), Nibbles(block), n - 1);
      var after := AddBlock(shannon, cells, block);
      assert after[..n][..n - 1] == after[..n - 1] && cells[..n][..n - 1] == cells[..n - 1];
    }
  }

  /** No byte is lost: the cells add up to the bytes of all blocks. */
  lemma {:induction false} CellsConserve(shannon: Entropy, blocks: seq<seq<Byte>>)
    ensures Sum(Cells(shannon, blocks)) == TotalLength(blocks) as real
  {
    var cells := Cells(shannon, blocks);
    if blocks == [] {
      SumZeros(cells);
    } else {
      var before := Cells(shannon, blocks[..|blocks| - 1]);
      var block := blocks[|blocks| - 1];
      CellsConserve(shannon, blocks[..|blocks| - 1]);
      AddBlockSum(shannon, before, block, 256);
      assert cells[..256] == cells && before[..256] == before;
      BinsAddUp(Nibbles(block), 0, 16);
    }
  }

  lemma {:induction false} SumZeros(cells: seq<real>)
    requires forall i :: 0 <= i < |cells| ==> cells[i] == 0.0
    ensures Sum(cells) == 0.0
  {
    if cells == [] {
    } else {
      SumZeros(cells[..|cells| - 1]);
    }
  }

  // ---------- the cells in numbers

  /** Column `i` counts the bytes from 16 * i to 16 * i + 15. */
  lemma {:induction false} NibbleCountIsRange(block: seq<Byte>, i: nat)
    requires i < 16
    ensures NibbleCounts(block)[i] == BinTotal(block, 16 * i, 16 * i + 16)
  {
    if block == [] {
      EmptyBins(16 * i, 16 * i + 16);
    } else {
      var n := |block| - 1;
      var front, x := block[..n], block[n];
      assert block == front + [x] && Nibbles(block) == Nibbles(front) + [x / 16];
      NibbleCountIsRange(front, i);
      CountSnoc(Nibbles(front), x / 16, i);
      BinTotalSnoc(front, x, 16 * i, 16 * i + 16);
    }
  }

  function EntropyOf(shannon: Entropy, block: seq<Byte>): real {
    shannon(|block|, NibbleCounts(block))
  }

  /** Four times the entropy of four-bit values lies between 0 and 16: one row for every
      unit, with the first and the last row open to what lies beyond. */
  predicate InRow(h: real, row: nat) {
    (row == 0 || row as real <= 4.0 * h) && (row == 15 || 4.0 * h < (row + 1) as real)
  }

  lemma RowInNumbers(shannon: Entropy, block: seq<Byte>, row: nat)
    requires row < 16
    ensures RowOf(shannon, block) == row <==> InRow(EntropyOf(shannon, block), row)
  {
    var x := EntropyOf(shannon, block) * 2.0 * 2.0;
    var b := RowOf(shannon, block);
    assert x < 1.0 ==> b == 0;
    assert x >= 15.0 ==> b == 15;
    assert 1.0 <= x < 15.0 ==> b as real <= x < (b + 1) as real;
  }

  /** What a block adds to one cell. */
  lemma AddBlockCell(shannon: Entropy, cells: seq<real>, block: seq<Byte>, row: nat, i: nat)
    requires |cells| == 256 && row < 16 && i < 16
    ensures AddBlock(shannon, cells, block)[16 * row + i]
         == cells[16 * row + i]
            + if InRow(EntropyOf(shannon, block), row) then BinTotal(block, 16 * i, 16 * i + 16) as real else 0.0
  {
    CellOfRow(16 * row + i, RowOf(shannon, block));
    CellOfRow(16 * row + i, row);
    RowInNumbers(shannon, block, row);
    NibbleCountIsRange(block, i);
  }

  /** The bytes with high nibble `i` in the blocks whose entropy selects `row`. */
  function RowTotal(shannon: Entropy, blocks: seq<seq<Byte>>, row: nat, i: nat): nat {
    if blocks == [] then 0
    else
      var block := blocks[|blocks| - 1];
      RowTotal(shannon, blocks[..|blocks| - 1], row, i)
      + if InRow(EntropyOf(shannon, block), row) then BinTotal(block, 16 * i, 16 * i + 16) else 0
  }

  /** Every cell in numbers. */
  lemma {:induction false} CellIsRowTotal(shannon: Entropy, blocks: seq<seq<Byte>>, row: nat, i: nat)
    requires row < 16 && i < 16
    ensures Cells(shannon, blocks)[16 * row + i] == RowTotal(shannon, blocks, row, i) as real
  {
    if blocks == [] {
    } else {
      var n := |blocks| - 1;
      CellIsRowTotal(shannon, blocks[..n], row, i);
      AddBlockCell(shannon, Cells(shannon, blocks[..n]), blocks[n], row, i);
    }
  }

  // ---------- the callback

  class WindowCallback {
    const shannon: Entropy
    const byteCounter: ByteCounter
    var output: array<real>
    var base: nat // the output pointer points here
    var withCompleteWindowCalled: bool
    ghost var blocks: seq<seq<Byte>> // the windows it has been called with

    constructor (shannon: Entropy)
      ensures this.shannon == shannon
      ensures fresh(Repr()) && byteCounter.byteCounts.Length == 256
    {
      this.shannon := shannon;
      byteCounter := new ByteCounter();
      output := new real[0];
      base, withCompleteWindowCalled, blocks := 0, false, [];
    }

    ghost function Repr(): set<object>
      reads this
    {
      {byteCounter, byteCounter.byteCounts, output}
    }

    ghost predicate Valid()
      reads this, Repr()
    {
      && byteCounter.byteCounts.Length == 256
      && base + 256 <= output.Length
      && output[base..base + 256] == Cells(shannon, blocks)
      && (withCompleteWindowCalled <==> blocks != [])
    }

    /** A new file: clear the slice that the histogram is accumulated in. */
    method Begin(newOutput: array<real>, newBase: nat)
      requires byteCounter.byteCounts.Length == 256
      requires newBase + 256 <= newOutput.Length
      modifies this, newOutput
      ensures Valid() && blocks == [] && output == newOutput && base == newBase
      ensures SameOutside(old(newOutput[..]), newOutput[..], newBase, 256)
    {
      withCompleteWindowCalled, blocks := false, [];
      output, base := newOutput, newBase;
      for i := 0 to 256
        invariant output == newOutput && base == newBase && blocks == [] && !withCompleteWindowCalled
        invariant forall k :: 0 <= k < output.Length ==>
          output[k] == if base <= k < base + i then 0.0 else old(newOutput[k])
      {
        output[base + i] := 0.0;
      }
    }

    /** withCompleteWindow */
    method Call(block: seq<Byte>)
      requires Valid()
      modifies `withCompleteWindowCalled, `blocks, Repr()
      ensures Valid() && blocks == old(blocks) + [block]
      ensures SameOutside(old(output[..]), output[..], base, 256)
    {
      ghost var cells := Cells(shannon, blocks + [block]);
      CellsSnoc(shannon, blocks, block);
      withCompleteWindowCalled := true;
      WriteEntropyBinCounts(block);
      assert output[base..base + 256] == cells;
      blocks := blocks + [block];
    }

    method WriteEntropyBinCounts(block: seq<Byte>)
      requires byteCounter.byteCounts.Length == 256
      requires base + 256 <= output.Length
      modifies Repr()
      ensures output[base..base + 256] == AddBlock(shannon, old(output[base..base + 256]), block)
      ensures SameOutside(old(output[..]), output[..], base, 256)
    {
      byteCounter.Reset();
      var temp := HighNibbles(block);
      byteCounter.Reduce(temp);
      assert [] + temp == temp;
      var c := byteCounter.byteCounts[..16];
      assert c == NibbleCounts(block);
      var hBin := BinOf(shannon(byteCounter.totalNumBytes, c) * 2.0);
      AddRow(output, base, hBin, c);
    }
  }

  method HighNibbles(block: seq<Byte>) returns (temp: seq<Byte>)
    ensures temp == Nibbles(block)
  {
    temp := [];
    for i := 0 to |block|
      invariant |temp| == i && forall k :: 0 <= k < i ==> temp[k] == Nibbles(block)[k]
    {
      temp := temp + [block[i] / 16];
    }
  }

  method AddRow(output: array<real>, base: nat, row: nat, c: seq<nat>)
    requires row < 16 && |c| == 16 && base + 256 <= output.Length
    modifies output
    ensures output[base..base + 256] == AddCounts(old(output[base..base + 256]), row, c)
    ensures SameOutside(old(output[..]), output[..], base, 256)
  {
    var vector := base + row * 16;
    for i := 0 to 16
      invariant forall k :: 0 <= k < output.Length ==>
        output[k] == if vector <= k < vector + i then old(output[k]) + c[k - vector] as real else old(output[k])
    {
      output[vector + i] := output[vector + i] + c[i] as real;
    }
  }
}
