/** MurmurHash3_x64_128: two 64-bit lanes, each fed by one half of a 16-byte block. */
module Murmur128x64 {
  import opened BlockFolds
  import opened KeyWords
  import opened MurmurMix

  datatype Pair = Pair(w1: bv64, w2: bv64)

  // ---------- the parts of a lane

  function Scramble1(k: bv64): bv64 { Mul64(Rotl64(Mul64(k, 0x87c37b91114253d5), 31), 0x4cf5ad432745937f) }
  function Scramble2(k: bv64): bv64 { Mul64(Rotl64(Mul64(k, 0x4cf5ad432745937f), 33), 0x87c37b91114253d5) }

  function Unscramble1(k: bv64): bv64 { Mul64(Rotl64(Mul64(k, 0xa81e14edd9de2c7f), 33), 0xa98409e882ce4d7d) }
  function Unscramble2(k: bv64): bv64 { Mul64(Rotl64(Mul64(k, 0xa98409e882ce4d7d), 31), 0xa81e14edd9de2c7f) }

  /** What a lane does after the rotation; `add` is the other lane. */
  function Turn(x: bv64, add: bv64, n: bv64): bv64 {
    Add64(Mul64(Add64(x, add), 5), n)
  }

  function Unturn(x: bv64, add: bv64, n: bv64): bv64 {
    Sub64(Mul64(Sub64(x, n), 0xcccccccccccccccd), add)
  }

  // ---------- one block, the end, and how to undo them

  function Step(h: Pair, k: Pair): Pair {
    var w1 := Turn(Rotl64(Xor64(h.w1, Scramble1(k.w1)), 27), h.w2, 0x52dce729);
    var w2 := Turn(Rotl64(Xor64(h.w2, Scramble2(k.w2)), 31), w1, 0x38495ab5);
    Pair(w1, w2)
  }

  function Unstep(h: Pair, k: Pair): Pair {
    var w2 := Xor64(Rotl64(Unturn(h.w2, h.w1, 0x38495ab5), 33), Scramble2(k.w2));
    var w1 := Xor64(Rotl64(Unturn(h.w1, w2, 0x52dce729), 37), Scramble1(k.w1));
    Pair(w1, w2)
  }

  /** The block that takes state `h` to state `h'`. */
  function BlockOf(h: Pair, h': Pair): Pair {
    Pair(Unscramble1(Xor64(h.w1, Rotl64(Unturn(h'.w1, h.w2, 0x52dce729), 37))),
         Unscramble2(Xor64(h.w2, Rotl64(Unturn(h'.w2, h'.w1, 0x38495ab5), 33))))
  }

  function XorPair(h: Pair, k: Pair): Pair {
    Pair(Xor64(h.w1, k.w1), Xor64(h.w2, k.w2))
  }

  function ScramblePair(k: Pair): Pair {
    Pair(Scramble1(k.w1), Scramble2(k.w2))
  }

  function UnscramblePair(k: Pair): Pair {
    Pair(Unscramble1(k.w1), Unscramble2(k.w2))
  }

  function Spread(h: Pair): Pair {
    var w1 := Add64(h.w1, h.w2);
    Pair(w1, Add64(h.w2, w1))
  }

  function Unspread(h: Pair): Pair {
    var w2 := Sub64(h.w2, h.w1);
    Pair(Sub64(h.w1, w2), w2)
  }

  function FmixPair(h: Pair): Pair {
    Pair(Fmix64(h.w1), Fmix64(h.w2))
  }

  function UnfmixPair(h: Pair): Pair {
    Pair(Unfmix64(h.w1), Unfmix64(h.w2))
  }

  function Same(len: bv64): Pair { Pair(len, len) }

  function Avalanche(h: Pair): Pair { Spread(FmixPair(Spread(h))) }
  function Unavalanche(h: Pair): Pair { Unspread(UnfmixPair(Unspread(h))) }

  function Finish(h: Pair, tail: Pair, len: bv64): Pair {
    Avalanche(XorPair(XorPair(h, ScramblePair(tail)), Same(len)))
  }

  function Unfinish(h: Pair, tail: Pair, len: bv64): Pair {
    XorPair(XorPair(Unavalanche(h), Same(len)), ScramblePair(tail))
  }

  function TailOf(h: Pair, h': Pair, len: bv64): Pair {
    UnscramblePair(XorPair(h, XorPair(Unavalanche(h'), Same(len))))
  }

  function Mix(len: bv64): Mixer<Pair, Pair> {
    Mixer(Step, Unstep, BlockOf,
          (h: Pair, t: Pair) => Finish(h, t, len),
          (h: Pair, t: Pair) => Unfinish(h, t, len),
          (h: Pair, h': Pair) => TailOf(h, h', len))
  }

  // ---------- keys

  function WordsAt(key: seq<bv8>, p: nat): Pair {
    Pair(Word64(key, p), Word64(key, p + 8))
  }

  function Blocks(key: seq<bv8>): seq<Pair> {
    seq(|key| / 16, i requires 0 <= i => WordsAt(key, 16 * i))
  }

  function Tail(key: seq<bv8>): Pair {
    WordsAt(key, 16 * (|key| / 16))
  }

  predicate Hashable(key: seq<bv8>) {
    |key| < 0x8000_0000
  }

  function Hash(key: seq<bv8>, seed: bv32): Pair
    requires Hashable(key)
  {
    Digest(Mix(|key| as bv64), Same(seed as bv64), Blocks(key), Tail(key))
  }

  // ---------- inverses, part by part

  lemma Rotations(x: bv64)
    ensures Rotl64(Rotl64(x, 27), 37) == x && Rotl64(Rotl64(x, 37), 27) == x
    ensures Rotl64(Rotl64(x, 31), 33) == x && Rotl64(Rotl64(x, 33), 31) == x
  {
    assert Rotl64((x << 27) | (x >> 37), 37) == x;
    assert Rotl64((x << 37) | (x >> 27), 27) == x;
    assert Rotl64((x << 31) | (x >> 33), 33) == x;
    assert Rotl64((x << 33) | (x >> 31), 31) == x;
  }

  lemma Multiplier1(x: bv64)
    ensures Mul64(Mul64(x, 0x87c37b91114253d5), 0xa98409e882ce4d7d) == x
  {
    assert Mul64(x * 0x87c37b91114253d5, 0xa98409e882ce4d7d) == x;
    assert Mul64(x, 0x87c37b91114253d5) == x * 0x87c37b91114253d5;
  }

  lemma Multiplier2(x: bv64)
    ensures Mul64(Mul64(x, 0x4cf5ad432745937f), 0xa81e14edd9de2c7f) == x
  {
    assert Mul64(x * 0x4cf5ad432745937f, 0xa81e14edd9de2c7f) == x;
    assert Mul64(x, 0x4cf5ad432745937f) == x * 0x4cf5ad432745937f;
  }

  lemma Scramble1Inverse(k: bv64)
    ensures Unscramble1(Scramble1(k)) == k
  {
    var a := Mul64(k, 0x87c37b91114253d5);
    Multiplier1(k);
    Rotations(a);
    Multiplier2(Rotl64(a, 31));
  }

  lemma Scramble2Inverse(k: bv64)
    ensures Unscramble2(Scramble2(k)) == k
  {
    var a := Mul64(k, 0x4cf5ad432745937f);
    Multiplier2(k);
    Rotations(a);
    Multiplier1(Rotl64(a, 33));
  }

  lemma ScramblePairInverse(k: Pair)
    ensures UnscramblePair(ScramblePair(k)) == k
  {
    Scramble1Inverse(k.w1);
    Scramble2Inverse(k.w2);
  }

  lemma XorPairInverse(h: Pair, k: Pair)
    ensures XorPair(XorPair(h, k), k) == h
    ensures XorPair(h, XorPair(h, k)) == k
  {
    Xor64Inverse(h.w1, k.w1);
    Xor64Inverse(h.w2, k.w2);
  }

  lemma TurnUndone(x: bv64, add: bv64, n: bv64)
    ensures Unturn(Turn(x, add, n), add, n) == x
  {
    var b := Add64(x, add);
    Add64Inverse(Mul64(b, 5), n);
    Mul64ByFive(b);
    Add64Inverse(x, add);
  }

  lemma TurnRedone(x: bv64, add: bv64, n: bv64)
    ensures Turn(Unturn(x, add, n), add, n) == x
  {
    var a := Sub64(x, n);
    Add64Inverse(x, n);
    Mul64ByFive(a);
    Add64Inverse(Mul64(a, 0xcccccccccccccccd), add);
  }

  lemma SpreadInverse(h: Pair)
    ensures Unspread(Spread(h)) == h
    ensures Spread(Unspread(h)) == h
  {
    Add64Inverse(h.w1, h.w2);
    Add64Inverse(h.w2, Add64(h.w1, h.w2));
    Add64Inverse(h.w2, h.w1);
    Add64Inverse(h.w1, Sub64(h.w2, h.w1));
  }

  lemma FmixPairInverse(h: Pair)
    ensures UnfmixPair(FmixPair(h)) == h
    ensures FmixPair(UnfmixPair(h)) == h
  {
    Fmix64Inverse(h.w1);
    Fmix64Inverse(h.w2);
  }

  /** The final avalanche is a bijection of the two lanes. */
  lemma AvalancheInverse(h: Pair)
    ensures Unavalanche(Avalanche(h)) == h
    ensures Avalanche(Unavalanche(h)) == h
  {
    SpreadInverse(h);
    FmixPairInverse(Spread(h));
    SpreadInverse(FmixPair(Spread(h)));
    FmixPairInverse(Unspread(h));
    SpreadInverse(UnfmixPair(Unspread(h)));
  }

  /** A block step is a bijection of the state. */
  lemma StepUndone(h: Pair, k: Pair)
    ensures Unstep(Step(h, k), k) == h
  {
    var s := ScramblePair(k);
    var x1, x2 := Xor64(h.w1, s.w1), Xor64(h.w2, s.w2);
    Rotations(x1);
    Rotations(x2);
    TurnUndone(Rotl64(x1, 27), h.w2, 0x52dce729);
    TurnUndone(Rotl64(x2, 31), Step(h, k).w1, 0x38495ab5);
    XorPairInverse(h, s);
  }

  lemma StepRedone(h: Pair, k: Pair)
    ensures Step(Unstep(h, k), k) == h
  {
    var s := ScramblePair(k);
    var y2 := Unturn(h.w2, h.w1, 0x38495ab5);
    var y1 := Unturn(h.w1, Unstep(h, k).w2, 0x52dce729);
    TurnRedone(h.w2, h.w1, 0x38495ab5);
    TurnRedone(h.w1, Unstep(h, k).w2, 0x52dce729);
    Rotations(y1);
    Rotations(y2);
    Xor64Inverse(Rotl64(y1, 37), s.w1);
    Xor64Inverse(Rotl64(y2, 33), s.w2);
  }

  lemma StepRecovers(h: Pair, k: Pair)
    ensures BlockOf(h, Step(h, k)) == k
  {
    var s := ScramblePair(k);
    var x1, x2 := Xor64(h.w1, s.w1), Xor64(h.w2, s.w2);
    Rotations(x1);
    Rotations(x2);
    TurnUndone(Rotl64(x1, 27), h.w2, 0x52dce729);
    TurnUndone(Rotl64(x2, 31), Step(h, k).w1, 0x38495ab5);
    XorPairInverse(h, s);
    ScramblePairInverse(k);
  }

  lemma FinishInverse(h: Pair, t: Pair, len: bv64)
    ensures Unfinish(Finish(h, t, len), t, len) == h
    ensures TailOf(h, Finish(h, t, len), len) == t
  {
    var a := XorPair(h, ScramblePair(t));
    AvalancheInverse(XorPair(a, Same(len)));
    XorPairInverse(a, Same(len));
    XorPairInverse(h, ScramblePair(t));
    ScramblePairInverse(t);
  }

  lemma UnfinishInverse(h: Pair, t: Pair, len: bv64)
    ensures Finish(Unfinish(h, t, len), t, len) == h
  {
    var a := XorPair(Unavalanche(h), Same(len));
    AvalancheInverse(h);
    XorPairInverse(Unavalanche(h), Same(len));
    XorPairInverse(a, ScramblePair(t));
  }

  lemma MixReversible(len: bv64)
    ensures Reversible(Mix(len))
  {
    var m := Mix(len);
    forall s, b ensures m.undo(m.step(s, b), b) == s {
      StepUndone(s, b);
    }
    forall s, b ensures m.blockOf(s, m.step(s, b)) == b {
      StepRecovers(s, b);
    }
    forall s, b ensures m.step(m.undo(s, b), b) == s {
      StepRedone(s, b);
    }
    forall s, b ensures m.unfinish(m.finish(s, b), b) == s && m.tailOf(s, m.finish(s, b)) == b {
      FinishInverse(s, b, len);
    }
    forall s, b ensures m.finish(m.unfinish(s, b), b) == s {
      UnfinishInverse(s, b, len);
    }
  }

  // ---------- main results

  lemma WordsAgree(x: seq<bv8>, y: seq<bv8>, p: nat)
    ensures WordsAt(x, p) == WordsAt(y, p)
       <==> forall q :: p <= q < p + 16 ==> ByteAt(x, q) == ByteAt(y, q)
  {
    Word64Agree(x, y, p);
    Word64Agree(x, y, p + 8);
    Word32Agree(x, y, p);
    Word32Agree(x, y, p + 4);
    Word32Agree(x, y, p + 8);
    Word32Agree(x, y, p + 12);
  }

  lemma OtherBlocksAgree(x: seq<bv8>, y: seq<bv8>, b: nat, i: nat)
    requires DifferWithin(x, y, 16 * b, 16 * b + 16) && i != b
    ensures WordsAt(x, 16 * i) == WordsAt(y, 16 * i)
  {
    WordsAgree(x, y, 16 * i);
  }

  lemma ThisBlockDiffers(x: seq<bv8>, y: seq<bv8>, b: nat)
    requires DifferWithin(x, y, 16 * b, 16 * b + 16)
    ensures WordsAt(x, 16 * b) != WordsAt(y, 16 * b)
  {
    var p :| 0 <= p < |x| && x[p] != y[p];
    assert ByteAt(x, p) != ByteAt(y, p);
    WordsAgree(x, y, 16 * b);
  }

  /** A difference inside one aligned block is a difference of exactly that block. */
  lemma OneBlockDiffers(x: seq<bv8>, y: seq<bv8>, b: nat)
    requires DifferWithin(x, y, 16 * b, 16 * b + 16)
    ensures b < |x| / 16 ==> DifferOnlyAt(Blocks(x), Blocks(y), b) && Tail(x) == Tail(y)
    ensures b >= |x| / 16 ==> Blocks(x) == Blocks(y) && Tail(x) != Tail(y)
  {
    var n := |x| / 16;
    forall i | 0 <= i < n && i != b ensures Blocks(x)[i] == Blocks(y)[i] {
      OtherBlocksAgree(x, y, b, i);
    }
    if b < n {
      FullBlockDiffers(x, y, b);
      TailsAgree(x, y, b);
    } else {
      assert b == n;
      ThisBlockDiffers(x, y, n);
    }
  }

  lemma FullBlockDiffers(x: seq<bv8>, y: seq<bv8>, b: nat)
    requires DifferWithin(x, y, 16 * b, 16 * b + 16)
    requires b < |x| / 16
    ensures Blocks(x)[b] != Blocks(y)[b]
  {
    ThisBlockDiffers(x, y, b);
  }

  lemma TailsAgree(x: seq<bv8>, y: seq<bv8>, b: nat)
    requires DifferWithin(x, y, 16 * b, 16 * b + 16)
    requires b < |x| / 16
    ensures Tail(x) == Tail(y)
  {
    OtherBlocksAgree(x, y, b, |x| / 16);
  }

  /** Equal-length keys that differ inside one aligned 16-byte block only, the partial
      last one included, never collide. */
  lemma OneBlockNeverCollides(x: seq<bv8>, y: seq<bv8>, b: nat, seed: bv32)
    requires Hashable(x)
    requires DifferWithin(x, y, 16 * b, 16 * b + 16)
    ensures Hash(x, seed) != Hash(y, seed)
  {
    OneBlockDiffers(x, y, b);
    MixReversible(|x| as bv64);
    DigestSeparates(Mix(|x| as bv64), Same(seed as bv64), Blocks(x), Blocks(y), Tail(x), Tail(y), b);
  }

  /** The hash is injective on 16-byte keys. */
  lemma InjectiveOnSixteenBytes(x: seq<bv8>, y: seq<bv8>, seed: bv32)
    requires |x| == |y| == 16
    ensures Hash(x, seed) == Hash(y, seed) <==> x == y
  {
    if x != y {
      OneBlockNeverCollides(x, y, 0, seed);
    }
  }

  // ---------- the code

  method MixLane(h0: bv64, k: bv64, r: bv7, add: bv64, n: bv64) returns (h: bv64)
    requires r <= 64
    ensures h == Turn(Rotl64(Xor64(h0, k), r), add, n)
  {
    h := h0;
    h := Xor64(h, k);
    h := Rotl64(h, r);
    h := Add64(h, add);
    h := Add64(Mul64(h, 5), n);
  }

  /** One block: the second lane reads the first one after its update. */
  method MixBlock(h: Pair, k: Pair) returns (h': Pair)
    ensures h' == Step(h, k)
  {
    var h1, h2 := h.w1, h.w2;
    h1 := MixLane(h1, Scramble1(k.w1), 27, h2, 0x52dce729);
    h2 := MixLane(h2, Scramble2(k.w2), 31, h1, 0x38495ab5);
    h' := Pair(h1, h2);
  }

  /** The block loop, which here counts forwards. */
  method MixBlocks(key: seq<bv8>, seed: bv64) returns (h: Pair)
    requires Hashable(key)
    ensures h == Fold(Step, Same(seed), Blocks(key))
  {
    var nblocks := |key| / 16;
    h := Same(seed);
    assert Blocks(key)[..0] == [];
    for i := 0 to nblocks
      invariant h == Fold(Step, Same(seed), Blocks(key)[..i])
    {
      var k := WordsAt(key, 16 * i);
      assert k == Blocks(key)[i];
      FoldSnoc(Step, Same(seed), Blocks(key), i);
      h := MixBlock(h, k);
    }
    assert Blocks(key)[..nblocks] == Blocks(key);
  }

  /** The fall-through switch over at most fifteen last bytes. */
  method MixTail(key: seq<bv8>, h: Pair) returns (t: Pair)
    requires Hashable(key)
    ensures t == XorPair(h, ScramblePair(Tail(key)))
  {
    var at := 16 * (|key| / 16);
    var k2 := TailWord64(key, at + 8);
    var k1 := TailWord64(key, at);
    t := MixTailLanes(h, Pair(k1, k2), |key| % 16);
  }

  method MixTailLanes(h: Pair, k: Pair, left: nat) returns (t: Pair)
    requires left <= 8 ==> k.w2 == 0
    requires left == 0 ==> k.w1 == 0
    ensures t == XorPair(h, ScramblePair(k))
  {
    t := h;
    ZeroLane(h.w1);
    ZeroLane(h.w2);
    if left > 8 { t := t.(w2 := Xor64(t.w2, Scramble2(k.w2))); }
    if left > 0 { t := t.(w1 := Xor64(t.w1, Scramble1(k.w1))); }
  }

  /** Skipping a lane without bytes equals mixing a zero word into it. */
  lemma ZeroLane(h: bv64)
    ensures Xor64(h, Scramble1(0)) == Xor64(h, Scramble2(0)) == h
  {
    ScrambleZero();
    assert Xor64(h, 0) == h;
  }

  lemma ScrambleZero()
    ensures Scramble1(0) == Scramble2(0) == 0
  {
    assert forall c :: Mul64(0, c) == 0;
    assert Rotl64(0, 31) == Rotl64(0, 33) == 0;
  }

  method MurmurHash3_x64_128(key: seq<bv8>, seed: bv32) returns (out: Pair)
    requires Hashable(key)
    ensures out == Hash(key, seed)
  {
    var len := |key| as bv64;
    var h := MixBlocks(key, seed as bv64);
    h := MixTail(key, h);
    h := XorPair(h, Same(len));
    out := AvalancheInPlace(h);
  }

  method AvalancheInPlace(h0: Pair) returns (h: Pair)
    ensures h == Avalanche(h0)
  {
    h := Spread(h0);
    var h1 := Fmix64InPlace(h.w1);
    var h2 := Fmix64InPlace(h.w2);
    h := Spread(Pair(h1, h2));
  }
}
