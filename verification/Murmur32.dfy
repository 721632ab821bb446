/** MurmurHash3_x86_32. */
module Murmur32 {
  import opened BlockFolds
  import opened KeyWords
  import opened MurmurMix

  /** What happens to a block, or to the tail, before it meets the state. */
  function Scramble(k: bv32): bv32 {
    Mul32(Rotl32(Mul32(k, 0xcc9e2d51), 15), 0x1b873593)
  }

  function Unscramble(k: bv32): bv32 {
    Mul32(Rotl32(Mul32(k, 0x56ed309b), 17), 0xdee13bb1)
  }

  function Step(h: bv32, k: bv32): bv32 {
    Add32(Mul32(Rotl32(Xor32(h, Scramble(k)), 13), 5), 0xe6546b64)
  }

  function Unstep(h: bv32, k: bv32): bv32 {
    Xor32(Rotl32(Mul32(Sub32(h, 0xe6546b64), 0xcccccccd), 19), Scramble(k))
  }

  /** The block that takes state `h` to state `h'`. */
  function BlockOf(h: bv32, h': bv32): bv32 {
    Unscramble(Xor32(h, Rotl32(Mul32(Sub32(h', 0xe6546b64), 0xcccccccd), 19)))
  }

  /** Mixing in the tail word and the length, and the final avalanche. */
  function Finish(h: bv32, tail: bv32, len: bv32): bv32 {
    Fmix32(Xor32(Xor32(h, Scramble(tail)), len))
  }

  function Unfinish(h: bv32, tail: bv32, len: bv32): bv32 {
    Xor32(Xor32(Unfmix32(h), len), Scramble(tail))
  }

  function TailOf(h: bv32, h': bv32, len: bv32): bv32 {
    Unscramble(Xor32(h, Xor32(Unfmix32(h'), len)))
  }

  function Mix(len: bv32): Mixer<bv32, bv32> {
    Mixer(Step, Unstep, BlockOf,
          (h: bv32, t: bv32) => Finish(h, t, len),
          (h: bv32, t: bv32) => Unfinish(h, t, len),
          (h: bv32, h': bv32) => TailOf(h, h', len))
  }

  function Blocks(key: seq<bv8>): seq<bv32> {
    seq(|key| / 4, i requires 0 <= i => Word32(key, 4 * i))
  }

  function Tail(key: seq<bv8>): bv32 {
    Word32(key, 4 * (|key| / 4))
  }

  predicate Hashable(key: seq<bv8>) {
    |key| < 0x8000_0000 // the length is passed as an int
  }

  /** The digest: fold the whole words forwards, mix in the zero-padded rest, finish. */
  function Hash(key: seq<bv8>, seed: bv32): bv32
    requires Hashable(key)
  {
    Digest(Mix(|key| as bv32), seed, Blocks(key), Tail(key))
  }

  /** The only seed under which `key` has digest `h`. */
  function SeedFor(key: seq<bv8>, h: bv32): bv32
    requires Hashable(key)
  {
    Unfold(Unstep, Unfinish(h, Tail(key), |key| as bv32), Blocks(key))
  }

  // ---------- the steps are bijections

  lemma Rot15Inverse(x: bv32)
    ensures Rotl32(Rotl32(x, 15), 17) == x
    ensures Rotl32(Rotl32(x, 17), 15) == x
  {
    assert Rotl32((x << 15) | (x >> 17), 17) == x;
    assert Rotl32((x << 17) | (x >> 15), 15) == x;
  }

  lemma Rot13Inverse(x: bv32)
    ensures Rotl32(Rotl32(x, 13), 19) == x
    ensures Rotl32(Rotl32(x, 19), 13) == x
  {
    assert Rotl32((x << 13) | (x >> 19), 19) == x;
    assert Rotl32((x << 19) | (x >> 13), 13) == x;
  }

  lemma MultiplierC1(x: bv32)
    ensures Mul32(Mul32(x, 0xcc9e2d51), 0xdee13bb1) == x
  {
    assert Mul32(x * 0xcc9e2d51, 0xdee13bb1) == x;
    assert Mul32(x, 0xcc9e2d51) == x * 0xcc9e2d51;
  }

  lemma MultiplierC2(x: bv32)
    ensures Mul32(Mul32(x, 0x1b873593), 0x56ed309b) == x
  {
    assert Mul32(x * 0x1b873593, 0x56ed309b) == x;
    assert Mul32(x, 0x1b873593) == x * 0x1b873593;
  }

  lemma ScrambleInverse(k: bv32)
    ensures Unscramble(Scramble(k)) == k
  {
    var a := Mul32(k, 0xcc9e2d51);
    MultiplierC1(k);
    Rot15Inverse(a);
    MultiplierC2(Rotl32(a, 15));
  }

  lemma ScrambleZero()
    ensures Scramble(0) == 0
  {
    assert Mul32(0, 0xcc9e2d51) == 0;
    assert Rotl32(0, 15) == 0;
  }

  lemma StepUndone(h: bv32, k: bv32)
    ensures Unstep(Step(h, k), k) == h
  {
    var a := Xor32(h, Scramble(k));
    Xor32Inverse(h, Scramble(k));
    Rot13Inverse(a);
    Mul32ByFive(Rotl32(a, 13));
    Add32Inverse(Mul32(Rotl32(a, 13), 5), 0xe6546b64);
  }

  lemma StepRedone(h: bv32, k: bv32)
    ensures Step(Unstep(h, k), k) == h
  {
    var a := Sub32(h, 0xe6546b64);
    var b := Mul32(a, 0xcccccccd);
    Add32Inverse(h, 0xe6546b64);
    Mul32ByFive(a);
    Rot13Inverse(b);
    Xor32Inverse(Rotl32(b, 19), Scramble(k));
  }

  lemma StepRecovers(h: bv32, k: bv32)
    ensures BlockOf(h, Step(h, k)) == k
  {
    var a := Xor32(h, Scramble(k));
    Add32Inverse(Mul32(Rotl32(a, 13), 5), 0xe6546b64);
    Mul32ByFive(Rotl32(a, 13));
    Rot13Inverse(a);
    Xor32Inverse(h, Scramble(k));
    ScrambleInverse(k);
  }

  lemma FinishInverse(h: bv32, t: bv32, len: bv32)
    ensures Unfinish(Finish(h, t, len), t, len) == h
    ensures TailOf(h, Finish(h, t, len), len) == t
  {
    var a := Xor32(h, Scramble(t));
    Fmix32Inverse(Xor32(a, len));
    Xor32Inverse(a, len);
    Xor32Inverse(h, Scramble(t));
    ScrambleInverse(t);
  }

  lemma UnfinishInverse(h: bv32, t: bv32, len: bv32)
    ensures Finish(Unfinish(h, t, len), t, len) == h
  {
    var a := Xor32(Unfmix32(h), len);
    Fmix32Inverse(h);
    Xor32Inverse(Unfmix32(h), len);
    Xor32Inverse(a, Scramble(t));
  }

  lemma MixReversible(len: bv32)
    ensures Reversible(Mix(len))
  {
    var m := Mix(len);
    forall s, b ensures m.undo(m.step(s, b), b) == s && m.blockOf(s, m.step(s, b)) == b {
      StepUndone(s, b);
      StepRecovers(s, b);
    }
    forall s, b ensures m.step(m.undo(s, b), b) == s {
      StepRedone(s, b);
    }
    forall s, b ensures m.unfinish(m.finish(s, b), b) == s && m.tailOf(s, m.finish(s, b)) == b {
      FinishInverse(s, b, len);
    }
    forall s, b ensures m.finish(m.unfinish(s, b), b) == s {
      UnfinishInverse(s, b, len);
    }
  }

  // ---------- main results

  /** For a fixed key the digest is a bijection of the seed: no two seeds share a digest. */
  lemma SeedRecovered(key: seq<bv8>, seed: bv32)
    requires Hashable(key)
    ensures SeedFor(key, Hash(key, seed)) == seed
  {
    var len := |key| as bv32;
    MixReversible(len);
    DigestInverse(Mix(len), seed, Blocks(key), Tail(key));
  }

  /** And every digest is reached. */
  lemma EveryDigestReached(key: seq<bv8>, h: bv32)
    requires Hashable(key)
    ensures Hash(key, SeedFor(key, h)) == h
  {
    var len := |key| as bv32;
    MixReversible(len);
    DigestInverse(Mix(len), h, Blocks(key), Tail(key));
  }

  /** Equal-length keys whose differences all lie in one aligned word, the partial last
      one included, differ in exactly that word. */
  lemma OneWordDiffers(x: seq<bv8>, y: seq<bv8>, b: nat)
    requires DifferWithin(x, y, 4 * b, 4 * b + 4)
    ensures b < |x| / 4 ==> DifferOnlyAt(Blocks(x), Blocks(y), b) && Tail(x) == Tail(y)
    ensures b >= |x| / 4 ==> Blocks(x) == Blocks(y) && Tail(x) != Tail(y)
  {
    var n := |x| / 4;
    var p :| 0 <= p < |x| && x[p] != y[p];
    assert ByteAt(x, p) != ByteAt(y, p);
    Word32Agree(x, y, 4 * b);
    forall i | 0 <= i <= n && i != b ensures Word32(x, 4 * i) == Word32(y, 4 * i) {
      Word32Agree(x, y, 4 * i);
    }
  }

  /** Such keys never collide, whatever the seed. */
  lemma OneWordNeverCollides(x: seq<bv8>, y: seq<bv8>, b: nat, seed: bv32)
    requires Hashable(x)
    requires DifferWithin(x, y, 4 * b, 4 * b + 4)
    ensures Hash(x, seed) != Hash(y, seed)
  {
    OneWordDiffers(x, y, b);
    MixReversible(|x| as bv32);
    DigestSeparates(Mix(|x| as bv32), seed, Blocks(x), Blocks(y), Tail(x), Tail(y), b);
  }

  method ScrambleInPlace(k: bv32) returns (k1: bv32)
    ensures k1 == Scramble(k)
  {
    k1 := k;
    k1 := Mul32(k1, 0xcc9e2d51);
    k1 := Rotl32(k1, 15);
    k1 := Mul32(k1, 0x1b873593);
  }

  /** The block loop, which counts a negative index up to zero. */
  method MixBlocks(key: seq<bv8>, seed: bv32) returns (h1: bv32)
    requires Hashable(key)
    ensures h1 == Fold(Step, seed, Blocks(key))
  {
    var nblocks := |key| / 4;
    h1 := seed;
    var i := -nblocks;
    assert Blocks(key)[..0] == [];
    while i != 0
      invariant -nblocks <= i <= 0
      invariant h1 == Fold(Step, seed, Blocks(key)[..nblocks + i])
    {
      var k1 := Word32(key, nblocks * 4 + i * 4);
      assert k1 == Blocks(key)[nblocks + i];
      FoldSnoc(Step, seed, Blocks(key), nblocks + i);
      k1 := ScrambleInPlace(k1);
      h1 := Xor32(h1, k1);
      h1 := Rotl32(h1, 13);
      h1 := Add32(Mul32(h1, 5), 0xe6546b64);
      i := i + 1;
    }
    assert Blocks(key)[..nblocks] == Blocks(key);
  }

  /** The fall-through switch over the last bytes, which does nothing when there are none. */
  method MixTail(key: seq<bv8>, h: bv32) returns (h1: bv32)
    requires Hashable(key)
    ensures h1 == Xor32(h, Scramble(Tail(key)))
  {
    h1 := h;
    var at := 4 * (|key| / 4);
    if at < |key| {
      var k1 := ReadTail32(key[at..]);
      SliceWord32(key, at, |key|, 0);
      assert k1 == Tail(key);
      k1 := ScrambleInPlace(k1);
      h1 := Xor32(h1, k1);
    } else {
      EmptyTail(key, h);
    }
  }

  /** Skipping an empty tail equals mixing in a zero word. */
  lemma EmptyTail(key: seq<bv8>, h: bv32)
    requires |key| % 4 == 0
    ensures Xor32(h, Scramble(Tail(key))) == h
  {
    assert 4 * (|key| / 4) == |key|;
    assert Word32(key, |key|) == 0;
    ScrambleZero();
    assert Xor32(h, 0) == h;
  }

  method MurmurHash3_x86_32(key: seq<bv8>, seed: bv32) returns (out: bv32)
    requires Hashable(key)
    ensures out == Hash(key, seed)
  {
    var h1 := MixBlocks(key, seed);
    h1 := MixTail(key, h1);
    h1 := Xor32(h1, |key| as bv32);
    out := Fmix32InPlace(h1);
  }
}
