/** The windows of a byte string, and the buffer that produces them from blocks. */
module SlidingWindows {
  import opened Bytes
  import opened EntropyBins
  import opened OutputSlices

  /** How many complete windows `n` bytes have. */
  function NumWindows(n: int, window: nat, step: nat): nat
    requires 1 <= step <= window
  {
    if n < window then 0 else (n - window) / step + 1
  }

  lemma WindowFits(n: int, window: nat, step: nat, k: nat)
    requires 1 <= step <= window
    ensures k < NumWindows(n, window, step) <==> k * step + window <= n
  {
    if n >= window {
      QuotientBounds(n - window, step, k);
    } else {
      assert k * step >= 0;
    }
  }

  lemma QuotientBounds(a: nat, d: nat, k: nat)
    requires d >= 1
    ensures k <= a / d <==> k * d <= a
  {
    var q, r := a / d, a % d;
    assert a == q * d + r;
    if k <= q {
      MulMonotone(k, q, d);
    } else {
      MulMonotone(q + 1, k, d);
    }
  }

  lemma MulMonotone(x: nat, y: nat, d: nat)
    requires x <= y
    ensures x * d <= y * d
  {
    assert y * d == x * d + (y - x) * d;
  }

  /** All complete windows: window `k` starts at `k * step`. */
  function Windows(input: seq<Byte>, window: nat, step: nat): seq<seq<Byte>>
    requires 1 <= step <= window
  {
    seq(NumWindows(|input|, window, step), k requires 0 <= k < NumWindows(|input|, window, step) =>
      WindowFits(|input|, window, step, k); input[k * step..k * step + window])
  }

  /** The windows handed out so far, each of them followed by at least one more byte;
      the next one begins at `start`. */
  ghost predicate Emitted(input: seq<Byte>, start: nat, calls: seq<seq<Byte>>, window: nat, step: nat)
    requires 1 <= step <= window
    decreases |calls|
  {
    if calls == [] then start == 0
    else
      && step <= start
      && start - step + window < |input|
      && calls[|calls| - 1] == input[start - step..start - step + window]
      && Emitted(input, start - step, calls[..|calls| - 1], window, step)
  }

  lemma {:induction false} EmittedAppend(
    input: seq<Byte>, more: seq<Byte>, start: nat, calls: seq<seq<Byte>>, window: nat, step: nat)
    requires 1 <= step <= window
    requires Emitted(input, start, calls, window, step)
    ensures Emitted(input + more, start, calls, window, step)
    decreases |calls|
  {
    if calls == [] {
    } else {
      var from := start - step;
      assert (input + more)[from..from + window] == input[from..from + window];
      EmittedAppend(input, more, from, calls[..|calls| - 1], window, step);
    }
  }

  lemma EmittedCall(input: seq<Byte>, start: nat, calls: seq<seq<Byte>>, window: nat, step: nat)
    requires 1 <= step <= window
    requires Emitted(input, start, calls, window, step)
    requires start + window < |input|
    ensures Emitted(input, start + step, calls + [input[start..start + window]], window, step)
  {
    assert (calls + [input[start..start + window]])[..|calls|] == calls;
  }

  lemma {:induction false} EmittedAt(
    input: seq<Byte>, start: nat, calls: seq<seq<Byte>>, window: nat, step: nat, k: nat)
    requires 1 <= step <= window
    requires Emitted(input, start, calls, window, step)
    ensures start == |calls| * step
    ensures k < |calls| ==> k * step + window <= |input| && calls[k] == input[k * step..k * step + window]
    decreases |calls|
  {
    if calls == [] {
    } else {
      var n := |calls| - 1;
      EmittedAt(input, start - step, calls[..n], window, step, k);
      assert (n + 1) * step == n * step + step;
    }
  }

  lemma EmittedCount(input: seq<Byte>, start: nat, calls: seq<seq<Byte>>, window: nat, step: nat)
    requires 1 <= step <= window
    requires Emitted(input, start, calls, window, step)
    requires start <= |input| <= start + window
    ensures NumWindows(|input|, window, step) == |calls| + (if |input| == start + window then 1 else 0)
  {
    var n := |calls|;
    EmittedAt(input, start, calls, window, step, n);
    WindowFits(|input|, window, step, n);
    StepMore(n, step);
    WindowFits(|input|, window, step, n + 1);
    if n > 0 {
      StepMore(n - 1, step);
      WindowFits(|input|, window, step, n - 1);
    }
  }

  lemma StepMore(n: nat, step: nat)
    ensures (n + 1) * step == n * step + step
  {}

  lemma WindowAt(input: seq<Byte>, window: nat, step: nat, k: nat, from: nat)
    requires 1 <= step <= window
    requires from == k * step && from + window <= |input|
    ensures k < |Windows(input, window, step)|
    ensures Windows(input, window, step)[k] == input[from..from + window]
  {
    WindowFits(|input|, window, step, k);
  }

  lemma EmittedIsWindow(input: seq<Byte>, start: nat, calls: seq<seq<Byte>>, window: nat, step: nat, k: nat)
    requires 1 <= step <= window
    requires Emitted(input, start, calls, window, step)
    requires k < |calls|
    ensures k < |Windows(input, window, step)| && calls[k] == Windows(input, window, step)[k]
  {
    EmittedAt(input, start, calls, window, step, k);
    WindowAt(input, window, step, k, k * step);
  }

  /** With the last full buffer handed out too, the calls are all complete windows. */
  lemma EmittedAll(input: seq<Byte>, start: nat, calls: seq<seq<Byte>>, window: nat, step: nat)
    requires 1 <= step <= window
    requires Emitted(input, start, calls, window, step)
    requires start <= |input| <= start + window
    ensures |input| == start + window ==> calls + [input[start..|input|]] == Windows(input, window, step)
    ensures |input| < start + window ==> calls == Windows(input, window, step)
  {
    ghost var all := Windows(input, window, step);
    EmittedCount(input, start, calls, window, step);
    forall k | 0 <= k < |calls| ensures k < |all| && calls[k] == all[k] {
      EmittedIsWindow(input, start, calls, window, step, k);
    }
    if |input| == start + window {
      EmittedAt(input, start, calls, window, step, |calls|);
      WindowAt(input, window, step, |calls|, start);
    }
  }

  /** The buffer holds what has arrived from `start` on. */
  ghost predicate Buffered(whole: seq<Byte>, start: nat, arrived: nat, block: seq<Byte>) {
    start <= arrived <= |whole| && block == whole[start..arrived]
  }

  lemma BufferedFirst(before: seq<Byte>, buf: seq<Byte>, start: nat, block: seq<Byte>)
    requires Buffered(before, start, |before|, block)
    ensures Buffered(before + buf, start, |before|, block)
  {}

  lemma BufferedFill(input: seq<Byte>, buf: seq<Byte>, start: nat, at: nat, n: nat, block: seq<Byte>)
    requires at + n <= |buf|
    requires Buffered(input + buf, start, |input| + at, block)
    ensures Buffered(input + buf, start, |input| + at + n, block + buf[at..at + n])
  {
    var whole := input + buf;
    var k := |input| + at;
    assert buf[at..at + n] == whole[k..k + n];
    assert whole[start..k] + whole[k..k + n] == whole[start..k + n];
  }

  lemma BufferedSlide(whole: seq<Byte>, start: nat, arrived: nat, block: seq<Byte>, step: nat)
    requires Buffered(whole, start, arrived, block) && step <= |block|
    ensures Buffered(whole, start + step, arrived, block[step..])
  {}

  class SlidingByteWindow {
    var block: seq<Byte>
    var windowSize: nat
    var step: nat
    var callback: WindowCallback?
    ghost var input: seq<Byte> // everything reduced since start
    ghost var start: nat       // where the buffer begins in it

    constructor ()
      ensures block == [] && windowSize == 0 && step == 0 && callback == null
    {
      block, windowSize, step, callback := [], 0, 0, null;
      input, start := [], 0;
    }

    method Reset()
      modifies this
      ensures block == [] && windowSize == 0 && step == 0 && callback == null
    {
      block, windowSize, step, callback := [], 0, 0, null;
    }

    method SetWindowSize(newWindowSize: nat)
      modifies `windowSize
      ensures windowSize == newWindowSize
    {
      windowSize := newWindowSize;
    }

    method SetStep(newStep: nat)
      modifies `step
      ensures step == newStep
    {
      step := newStep;
    }

    method SetCallback(newCallback: WindowCallback)
      modifies `callback
      ensures callback == newCallback
    {
      callback := newCallback;
    }

    /** The buffer is what has arrived from `start` on, never longer than a window, and
        the callback has had every window that another byte of `whole` follows. */
    ghost predicate Consistent(whole: seq<Byte>, arrived: nat)
      reads this, callback, if callback == null then {} else callback.Repr()
    {
      && 1 <= step <= windowSize
      && callback != null && callback.Valid()
      && Buffered(whole, start, arrived, block)
      && |block| <= windowSize
      && Emitted(whole, start, callback.blocks, windowSize, step)
    }

    ghost predicate Running()
      reads this, callback, if callback == null then {} else callback.Repr()
    {
      Consistent(input, |input|)
    }

    method Start()
      requires callback != null && callback.Valid() && callback.blocks == []
      requires 1 <= step <= windowSize
      modifies `block, `input, `start
      ensures Running() && input == []
    {
      block := [];
      input, start := [], 0;
    }

    method Reduce(buf: seq<Byte>)
      requires Running()
      modifies `block, `input, `start
      modifies callback`withCompleteWindowCalled, callback`blocks, callback.Repr()
      ensures Running() && input == old(input) + buf
      ensures SameOutside(old(callback.output[..]), callback.output[..], callback.base, 256)
    {
      ghost var before, whole, output0 := input, input + buf, callback.output[..];
      var at := 0;
      EmittedAppend(input, buf, start, callback.blocks, windowSize, step);
      BufferedFirst(input, buf, start, block);
      while at < |buf|
        invariant at <= |buf| && Consistent(whole, |before| + at)
        invariant SameOutside(output0, callback.output[..], callback.base, 256)
        decreases |buf| - at, |block|
      {
        ghost var output1 := callback.output[..];
        at := FillOrSlide(before, buf, at);
        SameOutsideChain(output0, output1, callback.output[..], callback.base, 256);
      }
      input := whole;
    }

    /** One round: either bytes are taken, or the full buffer gets smaller. */
    method FillOrSlide(ghost before: seq<Byte>, buf: seq<Byte>, at: nat) returns (at': nat)
      requires at < |buf| && Consistent(before + buf, |before| + at)
      modifies `block, `start
      modifies callback`withCompleteWindowCalled, callback`blocks, callback.Repr()
      ensures at <= at' <= |buf| && Consistent(before + buf, |before| + at')
      ensures at < at' || |block| < |old(block)|
      ensures SameOutside(old(callback.output[..]), callback.output[..], callback.base, 256)
    {
      var spaceInBlock := windowSize - |block|;
      if spaceInBlock > 0 {
        at' := Fill(before, buf, at, spaceInBlock);
      } else {
        CallAndSlide(before + buf, |before| + at);
        at' := at;
      }
    }

    /** The buffer has room: copy as much as fits. */
    method Fill(ghost before: seq<Byte>, buf: seq<Byte>, at: nat, spaceInBlock: nat) returns (at': nat)
      requires at < |buf| && spaceInBlock > 0
      requires Buffered(before + buf, start, |before| + at, block)
      modifies `block
      ensures at < at' <= |buf| && |block| - |old(block)| == at' - at <= spaceInBlock
      ensures Buffered(before + buf, start, |before| + at', block)
    {
      var bytesToCopy := if spaceInBlock < |buf| - at then spaceInBlock else |buf| - at;
      BufferedFill(before, buf, start, at, bytesToCopy, block);
      block := block + buf[at..at + bytesToCopy];
      at' := at + bytesToCopy;
    }

    /** The buffer is full: call the callback, then slide by `step` bytes. */
    method CallAndSlide(ghost whole: seq<Byte>, ghost arrived: nat)
      requires callback != null && callback.Valid() && 1 <= step <= windowSize == |block|
      requires Buffered(whole, start, arrived, block) && arrived < |whole|
      requires Emitted(whole, start, callback.blocks, windowSize, step)
      modifies `block, `start
      modifies callback`withCompleteWindowCalled, callback`blocks, callback.Repr()
      ensures callback.Valid() && SameOutside(old(callback.output[..]), callback.output[..], callback.base, 256)
      ensures Buffered(whole, start, arrived, block) && |block| == windowSize - step
      ensures Emitted(whole, start, callback.blocks, windowSize, step)
    {
      EmittedCall(whole, start, callback.blocks, windowSize, step);
      BufferedSlide(whole, start, arrived, block, step);
      callback.Call(block);
      block := block[step..];
      start := start + step;
    }

    method Finalize()
      requires Running()
      modifies callback`withCompleteWindowCalled, callback`blocks, callback.Repr()
      ensures callback.Valid() && callback.blocks == Windows(input, windowSize, step)
      ensures SameOutside(old(callback.output[..]), callback.output[..], callback.base, 256)
    {
      EmittedAll(input, start, callback.blocks, windowSize, step);
      if |block| == windowSize {
        callback.Call(block);
      }
    }

    function GetLastBlockAnyway(): seq<Byte>
      reads this
    {
      block
    }
  }
}
