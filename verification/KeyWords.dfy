/** Little-endian words over a byte string. Bytes past the end read as zero, which is
    what a hash tail sees when it starts from an all-zero word. */
module KeyWords {

  function ByteAt(key: seq<bv8>, p: nat): bv8 {
    if p < |key| then key[p] else 0
  }

  function Pack32(a: bv8, b: bv8, c: bv8, d: bv8): bv32 {
    (a as bv32) | ((b as bv32) << 8) | ((c as bv32) << 16) | ((d as bv32) << 24)
  }

  function Word32(key: seq<bv8>, p: nat): bv32 {
    Pack32(ByteAt(key, p), ByteAt(key, p + 1), ByteAt(key, p + 2), ByteAt(key, p + 3))
  }

  function Word64(key: seq<bv8>, p: nat): bv64 {
    (Word32(key, p) as bv64) | ((Word32(key, p + 4) as bv64) << 32)
  }

  /** Equal-length keys that differ, all of whose differences lie in [lo, hi). */
  ghost predicate DifferWithin(x: seq<bv8>, y: seq<bv8>, lo: nat, hi: nat) {
    && |x| == |y|
    && x != y
    && forall p :: 0 <= p < |x| && !(lo <= p < hi) ==> x[p] == y[p]
  }

  lemma Pack32Injective(a: bv8, b: bv8, c: bv8, d: bv8, a': bv8, b': bv8, c': bv8, d': bv8)
    requires Pack32(a, b, c, d) == Pack32(a', b', c', d')
    ensures a == a' && b == b' && c == c' && d == d'
  {}

  lemma Join64Injective(a: bv32, b: bv32, a': bv32, b': bv32)
    requires (a as bv64) | ((b as bv64) << 32) == (a' as bv64) | ((b' as bv64) << 32)
    ensures a == a' && b == b'
  {}

  /** Two keys agree on a 32-bit word exactly when they agree on its four bytes. */
  lemma Word32Agree(x: seq<bv8>, y: seq<bv8>, p: nat)
    ensures Word32(x, p) == Word32(y, p)
       <==> forall q :: p <= q < p + 4 ==> ByteAt(x, q) == ByteAt(y, q)
  {
    if Word32(x, p) == Word32(y, p) {
      Pack32Injective(ByteAt(x, p), ByteAt(x, p + 1), ByteAt(x, p + 2), ByteAt(x, p + 3),
                      ByteAt(y, p), ByteAt(y, p + 1), ByteAt(y, p + 2), ByteAt(y, p + 3));
    }
  }

  lemma Word64Agree(x: seq<bv8>, y: seq<bv8>, p: nat)
    ensures Word64(x, p) == Word64(y, p)
       <==> Word32(x, p) == Word32(y, p) && Word32(x, p + 4) == Word32(y, p + 4)
  {
    if Word64(x, p) == Word64(y, p) {
      Join64Injective(Word32(x, p), Word32(x, p + 4), Word32(y, p), Word32(y, p + 4));
    }
  }

  /** The switch that reads at most four tail bytes from the highest down, falling
      through, builds the zero-padded word. */
  method ReadTail32(tail: seq<bv8>) returns (k: bv32)
    requires |tail| <= 4
    ensures k == Word32(tail, 0)
  {
    k := 0;
    if |tail| >= 4 { k := k ^ ((tail[3] as bv32) << 24); }
    if |tail| >= 3 { k := k ^ ((tail[2] as bv32) << 16); }
    if |tail| >= 2 { k := k ^ ((tail[1] as bv32) << 8); }
    if |tail| >= 1 { k := k ^ (tail[0] as bv32); }
  }

  method ReadTail64(tail: seq<bv8>) returns (k: bv64)
    requires |tail| <= 8
    ensures k == Word64(tail, 0)
  {
    k := 0;
    if |tail| >= 8 { k := k ^ ((tail[7] as bv64) << 56); }
    if |tail| >= 7 { k := k ^ ((tail[6] as bv64) << 48); }
    if |tail| >= 6 { k := k ^ ((tail[5] as bv64) << 40); }
    if |tail| >= 5 { k := k ^ ((tail[4] as bv64) << 32); }
    if |tail| >= 4 { k := k ^ ((tail[3] as bv64) << 24); }
    if |tail| >= 3 { k := k ^ ((tail[2] as bv64) << 16); }
    if |tail| >= 2 { k := k ^ ((tail[1] as bv64) << 8); }
    if |tail| >= 1 { k := k ^ (tail[0] as bv64); }
  }

  /** A word of a slice is the word of the key, if the slice ends with the key or
      covers the whole word. */
  lemma SliceWord32(key: seq<bv8>, p: nat, hi: nat, q: nat)
    requires p <= hi <= |key|
    requires hi == |key| || p + q + 4 <= hi
    ensures Word32(key[p..hi], q) == Word32(key, p + q)
  {
    forall i | q <= i < q + 4 ensures ByteAt(key[p..hi], i) == ByteAt(key, p + i) {}
  }

  lemma SliceWord64(key: seq<bv8>, p: nat, hi: nat)
    requires p <= hi <= |key|
    requires hi == |key| || p + 8 <= hi
    ensures Word64(key[p..hi], 0) == Word64(key, p)
  {
    SliceWord32(key, p, hi, 0);
    SliceWord32(key, p, hi, 4);
  }

  /** The word of the tail at `p`, which stays zero when no byte is left there. */
  method TailWord32(key: seq<bv8>, p: nat) returns (k: bv32)
    ensures k == Word32(key, p)
    ensures |key| <= p ==> k == 0
  {
    k := 0;
    if p < |key| {
      var hi := if p + 4 < |key| then p + 4 else |key|;
      k := ReadTail32(key[p..hi]);
      SliceWord32(key, p, hi, 0);
    }
  }

  method TailWord64(key: seq<bv8>, p: nat) returns (k: bv64)
    ensures k == Word64(key, p)
    ensures |key| <= p ==> k == 0
  {
    k := 0;
    if p < |key| {
      var hi := if p + 8 < |key| then p + 8 else |key|;
      k := ReadTail64(key[p..hi]);
      SliceWord64(key, p, hi);
    }
  }
}
