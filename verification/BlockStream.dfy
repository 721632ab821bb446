/** Reading a memory buffer in blocks. */
module BlockStreams {
  import opened Bytes

  /** The blocks that a reader with the given block size yields. */
  function Chunks(file: seq<Byte>, blockSize: nat): seq<seq<Byte>>
    requires blockSize > 0
  {
    if file == [] then []
    else if |file| <= blockSize then [file]
    else [file[..blockSize]] + Chunks(file[blockSize..], blockSize)
  }

  lemma {:induction false} ConcatCons(block: seq<Byte>, blocks: seq<seq<Byte>>)
    ensures Concat([block] + blocks) == block + Concat(blocks)
  {
    if blocks == [] {
      ConcatSnoc([], block);
      assert [block] + [] == [] + [block];
    } else {
      var n := |blocks| - 1;
      ConcatCons(block, blocks[..n]);
      ConcatSnoc([block] + blocks[..n], blocks[n]);
      assert [block] + blocks == [block] + blocks[..n] + [blocks[n]];
    }
  }

  /** The blocks are the file, cut up: nothing is lost, repeated or moved. */
  lemma {:induction false} ChunksConcat(file: seq<Byte>, blockSize: nat)
    requires blockSize > 0
    ensures Concat(Chunks(file, blockSize)) == file
    decreases |file|
  {
    if |file| > blockSize {
      ChunksConcat(file[blockSize..], blockSize);
      ConcatCons(file[..blockSize], Chunks(file[blockSize..], blockSize));
    } else if file != [] {
      ConcatCons(file, []);
      assert [file] + [] == [file];
    }
  }

  /** Block `k` starts at `k * blockSize`, and every block but the last one is full. */
  lemma {:induction false} ChunkAt(file: seq<Byte>, blockSize: nat, k: nat, from: nat)
    requires blockSize > 0 && k < |Chunks(file, blockSize)|
    requires from == k * blockSize
    ensures from < |file|
    ensures Chunks(file, blockSize)[k]
         == file[from..if from + blockSize < |file| then from + blockSize else |file|]
    decreases k
  {
    if k == 0 {
    } else {
      var rest := file[blockSize..];
      PreviousStart(k, blockSize);
      ChunkAt(rest, blockSize, k - 1, from - blockSize);
    }
  }

  lemma PreviousStart(k: nat, blockSize: nat)
    requires k > 0
    ensures (k - 1) * blockSize == k * blockSize - blockSize >= 0
  {}

  datatype Pointer = Null | To(content: seq<Byte>)

  /** BlockStream together with the memory source it reads from. */
  class MemoryBlockStream {
    var blockSize: nat
    var offset: nat
    var nextOffset: nat
    var started: bool
    var finished: bool
    var buf: Pointer
    var bufSize: nat

    constructor ()
      ensures Valid() && !started && !finished && blockSize == 0 && buf == Null
    {
      blockSize, offset, nextOffset, started, finished := 0, 0, 0, false, false;
      buf, bufSize := Null, 0;
    }

    /** While a file is being read the position never passes its end, so the number of
        bytes left does not wrap around. */
    ghost predicate Valid()
      reads this
    {
      && bufSize == Content(buf)
      && (started && !finished ==> nextOffset <= bufSize && blockSize > 0)
    }

    static function Content(p: Pointer): nat {
      if p == Null then 0 else |p.content|
    }

    method Setup(content: Pointer)
      requires Valid() && !started
      modifies `buf, `bufSize
      ensures Valid() && buf == content
    {
      buf := content;
      bufSize := Content(content);
    }

    method SetBlockSize(newBlockSize: nat)
      requires Valid() && !started
      modifies `blockSize
      ensures Valid() && blockSize == newBlockSize
    {
      blockSize := newBlockSize;
    }

    /** A stream starts once, and never with blocks of size 0. A null buffer is reported,
        but the stream counts as started. */
    method StartReading() returns (ok: bool)
      requires Valid()
      modifies this
      ensures Valid()
      ensures buf == old(buf) && blockSize == old(blockSize) && finished == old(finished)
      ensures old(started || finished || blockSize == 0) ==>
                !ok && started == old(started) && offset == old(offset) && nextOffset == old(nextOffset)
      ensures !old(started || finished || blockSize == 0) ==>
                started && offset == nextOffset == 0 && (ok <==> buf != Null)
    {
      if started || finished || blockSize == 0 {
        return false;
      }
      offset, nextOffset := 0, 0;
      finished := false;
      started := true;
      ok := buf != Null;
    }

    method StopReading()
      requires Valid()
      modifies this
      ensures Valid() && started == old(started)
      ensures started ==> finished && buf == Null
      ensures !started ==> finished == old(finished) && buf == old(buf)
      ensures offset == old(offset) && nextOffset == old(nextOffset) && blockSize == old(blockSize)
    {
      if !started {
        return;
      }
      buf, bufSize := Null, 0;
      finished := true;
    }

    /** The next block is copied out and the position moves behind it. The stream ends
        when no byte is left, and stays ended. */
    method ReadNext(outputBuf: array<Byte>) returns (numBytesRead: nat)
      requires Valid()
      requires blockSize <= outputBuf.Length
      modifies this, outputBuf
      ensures Valid()
      ensures blockSize == old(blockSize) && buf == old(buf) && started == old(started)
      ensures !started || old(finished) ==> numBytesRead == 0 && finished == old(finished)
      ensures started && !old(finished) ==>
                && offset == old(nextOffset) <= bufSize
                && numBytesRead == (if bufSize - offset < blockSize then bufSize - offset else blockSize)
                && (finished <==> numBytesRead == 0)
                && nextOffset == offset + numBytesRead
                && (numBytesRead > 0 ==> outputBuf[..numBytesRead] == buf.content[offset..nextOffset])
    {
      if !started || finished {
        return 0;
      }
      offset := nextOffset;
      numBytesRead := DoReadNext(outputBuf);
      if numBytesRead == 0 {
        finished := true;
        return 0;
      }
      nextOffset := offset + numBytesRead;
    }

    method DoReadNext(outputBuf: array<Byte>) returns (numBytesRead: nat)
      requires Valid() && offset <= bufSize
      requires blockSize <= outputBuf.Length
      modifies outputBuf
      ensures numBytesRead == (if bufSize - offset < blockSize then bufSize - offset else blockSize)
      ensures numBytesRead > 0 ==> outputBuf[..numBytesRead] == buf.content[offset..offset + numBytesRead]
    {
      var numBytesLeft := bufSize - offset;
      numBytesRead := if numBytesLeft < blockSize then numBytesLeft else blockSize;
      for i := 0 to numBytesRead
        invariant forall k :: 0 <= k < i ==> outputBuf[k] == buf.content[offset + k]
      {
        outputBuf[i] := buf.content[offset + i];
      }
    }
  }

  /** One more block read from `offset` on. */
  lemma ChunksStep(file: seq<Byte>, blockSize: nat, offset: nat, n: nat)
    requires blockSize > 0 && offset <= |file|
    requires n == (if |file| - offset < blockSize then |file| - offset else blockSize)
    ensures n == 0 ==> Chunks(file[offset..], blockSize) == []
    ensures n > 0 ==>
              Chunks(file[offset..], blockSize) == [file[offset..offset + n]] + Chunks(file[offset + n..], blockSize)
  {
    var rest := file[offset..];
    if n > 0 {
      assert rest[n..] == file[offset + n..];
      assert rest[..n] == file[offset..offset + n];
      if |rest| <= blockSize {
        assert rest == file[offset..offset + n];
        assert [rest] == [file[offset..offset + n]] + [];
      }
    }
  }
}
