/** Bytes, and how often each of them occurs. */
module Bytes {
  import opened Collections

  type Byte = b: int | 0 <= b < 256

  function Count(s: seq<Byte>, b: int): nat {
    if s == [] then 0 else Count(s[..|s| - 1], b) + (if s[|s| - 1] == b then 1 else 0)
  }

  /** The number of bytes of `s` in [lo, hi), counted bin by bin. */
  function BinTotal(s: seq<Byte>, lo: int, hi: int): nat
    decreases hi - lo
  {
    if hi <= lo then 0 else BinTotal(s, lo, hi - 1) + Count(s, hi - 1)
  }

  function Concat(blocks: seq<seq<Byte>>): seq<Byte> {
    if blocks == [] then [] else Concat(blocks[..|blocks| - 1]) + blocks[|blocks| - 1]
  }

  function TotalLength(blocks: seq<seq<Byte>>): nat {
    if blocks == [] then 0 else TotalLength(blocks[..|blocks| - 1]) + |blocks[|blocks| - 1]|
  }

  /** A count is the number of bytes that are equal to it. */
  lemma {:induction false} CountIsNumber(s: seq<Byte>, b: int, p: Byte -> bool)
    requires forall x: Byte :: p(x) <==> x == b
    ensures Count(s, b) == Number(s, p)
  {
    if s == [] {
      NumberOfNone(s, p);
    } else {
      var n := |s| - 1;
      CountIsNumber(s[..n], b, p);
      NumberSnoc(s[..n], s[n], p);
      assert s == s[..n] + [s[n]];
    }
  }

  /** A range total is the number of bytes in the range. */
  lemma {:induction false} BinTotalIsNumber(s: seq<Byte>, lo: int, hi: int, p: Byte -> bool)
    requires forall x: Byte :: p(x) <==> lo <= x < hi
    ensures BinTotal(s, lo, hi) == Number(s, p)
  {
    if s == [] {
      NumberOfNone(s, p);
      EmptyBins(lo, hi);
    } else {
      var n := |s| - 1;
      BinTotalIsNumber(s[..n], lo, hi, p);
      NumberSnoc(s[..n], s[n], p);
      BinTotalSnoc(s[..n], s[n], lo, hi);
      assert s == s[..n] + [s[n]];
    }
  }

  lemma CountSnoc(s: seq<Byte>, x: Byte, b: int)
    ensures Count(s + [x], b) == Count(s, b) + (if x == b then 1 else 0)
  {
    assert (s + [x])[..|s|] == s;
  }

  lemma {:induction false} CountConcat(s: seq<Byte>, t: seq<Byte>, b: int)
    ensures Count(s + t, b) == Count(s, b) + Count(t, b)
  {
    if t == [] {
      assert s + t == s;
    } else {
      var n := |t| - 1;
      assert s + t == (s + t[..n]) + [t[n]];
      CountSnoc(s + t[..n], t[n], b);
      CountConcat(s, t[..n], b);
    }
  }

  lemma {:induction false} BinTotalSnoc(s: seq<Byte>, x: Byte, lo: int, hi: int)
    ensures BinTotal(s + [x], lo, hi) == BinTotal(s, lo, hi) + (if lo <= x < hi then 1 else 0)
    decreases hi - lo
  {
    if lo >= hi {
    } else {
      BinTotalSnoc(s, x, lo, hi - 1);
      CountSnoc(s, x, hi - 1);
    }
  }

  /** Bins that cover all bytes of a string add up to its length. */
  lemma {:induction false} BinsAddUp(s: seq<Byte>, lo: int, hi: int)
    requires forall i :: 0 <= i < |s| ==> lo <= s[i] < hi
    ensures BinTotal(s, lo, hi) == |s|
  {
    if s == [] {
      EmptyBins(lo, hi);
    } else {
      var n := |s| - 1;
      assert s == s[..n] + [s[n]];
      BinsAddUp(s[..n], lo, hi);
      BinTotalSnoc(s[..n], s[n], lo, hi);
    }
  }

  lemma {:induction false} EmptyBins(lo: int, hi: int)
    ensures BinTotal([], lo, hi) == 0
    decreases hi - lo
  {
    if lo >= hi {
    } else {
      EmptyBins(lo, hi - 1);
    }
  }

  lemma ConcatSnoc(blocks: seq<seq<Byte>>, b: seq<Byte>)
    ensures Concat(blocks + [b]) == Concat(blocks) + b
  {
    assert (blocks + [b])[..|blocks|] == blocks;
  }

  lemma {:induction false} ConcatLength(blocks: seq<seq<Byte>>)
    ensures |Concat(blocks)| == TotalLength(blocks)
  {
    if blocks == [] {
    } else {
      ConcatLength(blocks[..|blocks| - 1]);
    }
  }
}
