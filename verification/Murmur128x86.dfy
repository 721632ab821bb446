/** MurmurHash3_x86_128: four 32-bit lanes, each fed by one word of a 16-byte block. */
module Murmur128x86 {
  import opened BlockFolds
  import opened KeyWords
  import opened MurmurMix

  datatype Quad = Quad(w1: bv32, w2: bv32, w3: bv32, w4: bv32)

  // ---------- the parts of a lane

  function Scramble1(k: bv32): bv32 { Mul32(Rotl32(Mul32(k, 0x239b961b), 15), 0xab0e9789) }
  function Scramble2(k: bv32): bv32 { Mul32(Rotl32(Mul32(k, 0xab0e9789), 16), 0x38b34ae5) }
  function Scramble3(k: bv32): bv32 { Mul32(Rotl32(Mul32(k, 0x38b34ae5), 17), 0xa1e38b93) }
  function Scramble4(k: bv32): bv32 { Mul32(Rotl32(Mul32(k, 0xa1e38b93), 18), 0x239b961b) }

  function Unscramble1(k: bv32): bv32 { Mul32(Rotl32(Mul32(k, 0xdf130eb9), 17), 0x89c95413) }
  function Unscramble2(k: bv32): bv32 { Mul32(Rotl32(Mul32(k, 0x747862ed), 16), 0xdf130eb9) }
  function Unscramble3(k: bv32): bv32 { Mul32(Rotl32(Mul32(k, 0x58d64a9b), 15), 0x747862ed) }
  function Unscramble4(k: bv32): bv32 { Mul32(Rotl32(Mul32(k, 0x89c95413), 14), 0x58d64a9b) }

  /** What a lane does after the rotation; `add` is another lane. */
  function Turn(x: bv32, add: bv32, n: bv32): bv32 {
    Add32(Mul32(Add32(x, add), 5), n)
  }

  function Unturn(x: bv32, add: bv32, n: bv32): bv32 {
    Sub32(Mul32(Sub32(x, n), 0xcccccccd), add)
  }

  // ---------- one block, the end, and how to undo them

  function Step(h: Quad, k: Quad): Quad {
    var w1 := Turn(Rotl32(Xor32(h.w1, Scramble1(k.w1)), 19), h.w2, 0x561ccd1b);
    var w2 := Turn(Rotl32(Xor32(h.w2, Scramble2(k.w2)), 17), h.w3, 0x0bcaa747);
    var w3 := Turn(Rotl32(Xor32(h.w3, Scramble3(k.w3)), 15), h.w4, 0x96cd1c35);
    var w4 := Turn(Rotl32(Xor32(h.w4, Scramble4(k.w4)), 13), w1, 0x32ac3b17);
    Quad(w1, w2, w3, w4)
  }

  function Unstep(h: Quad, k: Quad): Quad {
    var w4 := Xor32(Rotl32(Unturn(h.w4, h.w1, 0x32ac3b17), 19), Scramble4(k.w4));
    var w3 := Xor32(Rotl32(Unturn(h.w3, w4, 0x96cd1c35), 17), Scramble3(k.w3));
    var w2 := Xor32(Rotl32(Unturn(h.w2, w3, 0x0bcaa747), 15), Scramble2(k.w2));
    var w1 := Xor32(Rotl32(Unturn(h.w1, w2, 0x561ccd1b), 13), Scramble1(k.w1));
    Quad(w1, w2, w3, w4)
  }

  /** The block that takes state `h` to state `h'`. */
  function BlockOf(h: Quad, h': Quad): Quad {
    Quad(Unscramble1(Xor32(h.w1, Rotl32(Unturn(h'.w1, h.w2, 0x561ccd1b), 13))),
         Unscramble2(Xor32(h.w2, Rotl32(Unturn(h'.w2, h.w3, 0x0bcaa747), 15))),
         Unscramble3(Xor32(h.w3, Rotl32(Unturn(h'.w3, h.w4, 0x96cd1c35), 17))),
         Unscramble4(Xor32(h.w4, Rotl32(Unturn(h'.w4, h'.w1, 0x32ac3b17), 19))))
  }

  function XorQuad(h: Quad, k: Quad): Quad {
    Quad(Xor32(h.w1, k.w1), Xor32(h.w2, k.w2), Xor32(h.w3, k.w3), Xor32(h.w4, k.w4))
  }

  function ScrambleQuad(k: Quad): Quad {
    Quad(Scramble1(k.w1), Scramble2(k.w2), Scramble3(k.w3), Scramble4(k.w4))
  }

  function UnscrambleQuad(k: Quad): Quad {
    Quad(Unscramble1(k.w1), Unscramble2(k.w2), Unscramble3(k.w3), Unscramble4(k.w4))
  }

  /** The sum of all lanes into the first one, and of the first one into all others. */
  function Spread(h: Quad): Quad {
    var w1 := Add32(Add32(Add32(h.w1, h.w2), h.w3), h.w4);
    Quad(w1, Add32(h.w2, w1), Add32(h.w3, w1), Add32(h.w4, w1))
  }

  function Unspread(h: Quad): Quad {
    var w2, w3, w4 := Sub32(h.w2, h.w1), Sub32(h.w3, h.w1), Sub32(h.w4, h.w1);
    Quad(Sub32(Sub32(Sub32(h.w1, w4), w3), w2), w2, w3, w4)
  }

  function FmixQuad(h: Quad): Quad {
    Quad(Fmix32(h.w1), Fmix32(h.w2), Fmix32(h.w3), Fmix32(h.w4))
  }

  function UnfmixQuad(h: Quad): Quad {
    Quad(Unfmix32(h.w1), Unfmix32(h.w2), Unfmix32(h.w3), Unfmix32(h.w4))
  }

  function Same(len: bv32): Quad { Quad(len, len, len, len) }

  function Avalanche(h: Quad): Quad { Spread(FmixQuad(Spread(h))) }
  function Unavalanche(h: Quad): Quad { Unspread(UnfmixQuad(Unspread(h))) }

  function Finish(h: Quad, tail: Quad, len: bv32): Quad {
    Avalanche(XorQuad(XorQuad(h, ScrambleQuad(tail)), Same(len)))
  }

  function Unfinish(h: Quad, tail: Quad, len: bv32): Quad {
    XorQuad(XorQuad(Unavalanche(h), Same(len)), ScrambleQuad(tail))
  }

  function TailOf(h: Quad, h': Quad, len: bv32): Quad {
    UnscrambleQuad(XorQuad(h, XorQuad(Unavalanche(h'), Same(len))))
  }

  function Mix(len: bv32): Mixer<Quad, Quad> {
    Mixer(Step, Unstep, BlockOf,
          (h: Quad, t: Quad) => Finish(h, t, len),
          (h: Quad, t: Quad) => Unfinish(h, t, len),
          (h: Quad, h': Quad) => TailOf(h, h', len))
  }

  // ---------- keys

  function WordsAt(key: seq<bv8>, p: nat): Quad {
    Quad(Word32(key, p), Word32(key, p + 4), Word32(key, p + 8), Word32(key, p + 12))
  }

  function Blocks(key: seq<bv8>): seq<Quad> {
    seq(|key| / 16, i requires 0 <= i => WordsAt(key, 16 * i))
  }

  function Tail(key: seq<bv8>): Quad {
    WordsAt(key, 16 * (|key| / 16))
  }

  predicate Hashable(key: seq<bv8>) {
    |key| < 0x8000_0000
  }

  function Hash(key: seq<bv8>, seed: bv32): Quad
    requires Hashable(key)
  {
    Digest(Mix(|key| as bv32), Same(seed), Blocks(key), Tail(key))
  }

  // ---------- inverses, part by part

  lemma Rotations(x: bv32)
    ensures Rotl32(Rotl32(x, 13), 19) == x && Rotl32(Rotl32(x, 19), 13) == x
    ensures Rotl32(Rotl32(x, 15), 17) == x && Rotl32(Rotl32(x, 17), 15) == x
    ensures Rotl32(Rotl32(x, 16), 16) == x
    ensures Rotl32(Rotl32(x, 18), 14) == x
  {
    assert Rotl32((x << 13) | (x >> 19), 19) == x;
    assert Rotl32((x << 19) | (x >> 13), 13) == x;
    assert Rotl32((x << 15) | (x >> 17), 17) == x;
    assert Rotl32((x << 17) | (x >> 15), 15) == x;
    assert Rotl32((x << 16) | (x >> 16), 16) == x;
    assert Rotl32((x << 18) | (x >> 14), 14) == x;
  }

  lemma Multiplier1(x: bv32)
    ensures Mul32(Mul32(x, 0x239b961b), 0x89c95413) == x
  {
    assert Mul32(x * 0x239b961b, 0x89c95413) == x;
    assert Mul32(x, 0x239b961b) == x * 0x239b961b;
  }

  lemma Multiplier2(x: bv32)
    ensures Mul32(Mul32(x, 0xab0e9789), 0xdf130eb9) == x
  {
    assert Mul32(x * 0xab0e9789, 0xdf130eb9) == x;
    assert Mul32(x, 0xab0e9789) == x * 0xab0e9789;
  }

  lemma Multiplier3(x: bv32)
    ensures Mul32(Mul32(x, 0x38b34ae5), 0x747862ed) == x
  {
    assert Mul32(x * 0x38b34ae5, 0x747862ed) == x;
    assert Mul32(x, 0x38b34ae5) == x * 0x38b34ae5;
  }

  lemma Multiplier4(x: bv32)
    ensures Mul32(Mul32(x, 0xa1e38b93), 0x58d64a9b) == x
  {
    assert Mul32(x * 0xa1e38b93, 0x58d64a9b) == x;
    assert Mul32(x, 0xa1e38b93) == x * 0xa1e38b93;
  }

  lemma Scramble1Inverse(k: bv32)
    ensures Unscramble1(Scramble1(k)) == k
  {
    var a := Mul32(k, 0x239b961b);
    Multiplier1(k);
    Rotations(a);
    Multiplier2(Rotl32(a, 15));
  }

  lemma Scramble2Inverse(k: bv32)
    ensures Unscramble2(Scramble2(k)) == k
  {
    var a := Mul32(k, 0xab0e9789);
    Multiplier2(k);
    Rotations(a);
    Multiplier3(Rotl32(a, 16));
  }

  lemma Scramble3Inverse(k: bv32)
    ensures Unscramble3(Scramble3(k)) == k
  {
    var a := Mul32(k, 0x38b34ae5);
    Multiplier3(k);
    Rotations(a);
    Multiplier4(Rotl32(a, 17));
  }

  lemma Scramble4Inverse(k: bv32)
    ensures Unscramble4(Scramble4(k)) == k
  {
    var a := Mul32(k, 0xa1e38b93);
    Multiplier4(k);
    Rotations(a);
    Multiplier1(Rotl32(a, 18));
  }

  lemma ScrambleQuadInverse(k: Quad)
    ensures UnscrambleQuad(ScrambleQuad(k)) == k
  {
    Scramble1Inverse(k.w1);
    Scramble2Inverse(k.w2);
    Scramble3Inverse(k.w3);
    Scramble4Inverse(k.w4);
  }

  lemma XorQuadInverse(h: Quad, k: Quad)
    ensures XorQuad(XorQuad(h, k), k) == h
    ensures XorQuad(h, XorQuad(h, k)) == k
  {
    Xor32Inverse(h.w1, k.w1);
    Xor32Inverse(h.w2, k.w2);
    Xor32Inverse(h.w3, k.w3);
    Xor32Inverse(h.w4, k.w4);
  }

  lemma TurnInverse(x: bv32, add: bv32, n: bv32)
    ensures Unturn(Turn(x, add, n), add, n) == x
    ensures Turn(Unturn(x, add, n), add, n) == x
  {
    TurnUndone(x, add, n);
    TurnRedone(x, add, n);
  }

  lemma TurnUndone(x: bv32, add: bv32, n: bv32)
    ensures Unturn(Turn(x, add, n), add, n) == x
  {
    var b := Add32(x, add);
    Add32Inverse(Mul32(b, 5), n);
    Mul32ByFive(b);
    Add32Inverse(x, add);
  }

  lemma TurnRedone(x: bv32, add: bv32, n: bv32)
    ensures Turn(Unturn(x, add, n), add, n) == x
  {
    var a := Sub32(x, n);
    Add32Inverse(x, n);
    Mul32ByFive(a);
    Add32Inverse(Mul32(a, 0xcccccccd), add);
  }

  lemma SpreadInverse(h: Quad)
    ensures Unspread(Spread(h)) == h
    ensures Spread(Unspread(h)) == h
  {
    SpreadUndone(h);
    SpreadRedone(h);
  }

  lemma SpreadUndone(h: Quad)
    ensures Unspread(Spread(h)) == h
  {
    var a := Add32(h.w1, h.w2);
    var b := Add32(a, h.w3);
    var c := Add32(b, h.w4);
    Add32Inverse(h.w1, h.w2);
    Add32Inverse(a, h.w3);
    Add32Inverse(b, h.w4);
    Add32Inverse(h.w2, c);
    Add32Inverse(h.w3, c);
    Add32Inverse(h.w4, c);
  }

  lemma SpreadRedone(h: Quad)
    ensures Spread(Unspread(h)) == h
  {
    var w2, w3, w4 := Sub32(h.w2, h.w1), Sub32(h.w3, h.w1), Sub32(h.w4, h.w1);
    var a := Sub32(h.w1, w4);
    var b := Sub32(a, w3);
    Add32Inverse(h.w1, w4);
    Add32Inverse(a, w3);
    Add32Inverse(b, w2);
    Add32Inverse(h.w2, h.w1);
    Add32Inverse(h.w3, h.w1);
    Add32Inverse(h.w4, h.w1);
  }

  lemma FmixQuadInverse(h: Quad)
    ensures UnfmixQuad(FmixQuad(h)) == h
    ensures FmixQuad(UnfmixQuad(h)) == h
  {
    Fmix32Inverse(h.w1);
    Fmix32Inverse(h.w2);
    Fmix32Inverse(h.w3);
    Fmix32Inverse(h.w4);
  }

  /** The final avalanche is a bijection of the four lanes. */
  lemma AvalancheInverse(h: Quad)
    ensures Unavalanche(Avalanche(h)) == h
    ensures Avalanche(Unavalanche(h)) == h
  {
    SpreadInverse(h);
    FmixQuadInverse(Spread(h));
    SpreadInverse(FmixQuad(Spread(h)));
    FmixQuadInverse(Unspread(h));
    SpreadInverse(UnfmixQuad(Unspread(h)));
  }

  /** A block step is a bijection of the state. */
  lemma StepUndone(h: Quad, k: Quad)
    ensures Unstep(Step(h, k), k) == h
  {
    var s := ScrambleQuad(k);
    Rotations(Xor32(h.w1, s.w1));
    TurnInverse(Rotl32(Xor32(h.w1, s.w1), 19), h.w2, 0x561ccd1b);
    Rotations(Xor32(h.w2, s.w2));
    TurnInverse(Rotl32(Xor32(h.w2, s.w2), 17), h.w3, 0x0bcaa747);
    Rotations(Xor32(h.w3, s.w3));
    TurnInverse(Rotl32(Xor32(h.w3, s.w3), 15), h.w4, 0x96cd1c35);
    Rotations(Xor32(h.w4, s.w4));
    TurnInverse(Rotl32(Xor32(h.w4, s.w4), 13), Step(h, k).w1, 0x32ac3b17);
    XorQuadInverse(h, s);
  }

  lemma StepRedone(h: Quad, k: Quad)
    ensures Step(Unstep(h, k), k) == h
  {
    var s := ScrambleQuad(k);
    var u := Unstep(h, k);
    LaneRedone(h.w4, h.w1, 0x32ac3b17, s.w4);
    LaneRedone(h.w3, u.w4, 0x96cd1c35, s.w3);
    LaneRedone(h.w2, u.w3, 0x0bcaa747, s.w2);
    LaneRedone(h.w1, u.w2, 0x561ccd1b, s.w1);
  }

  lemma LaneRedone(x: bv32, add: bv32, n: bv32, k: bv32)
    ensures Turn(Rotl32(Xor32(Xor32(Rotl32(Unturn(x, add, n), 19), k), k), 13), add, n) == x
    ensures Turn(Rotl32(Xor32(Xor32(Rotl32(Unturn(x, add, n), 17), k), k), 15), add, n) == x
    ensures Turn(Rotl32(Xor32(Xor32(Rotl32(Unturn(x, add, n), 15), k), k), 17), add, n) == x
    ensures Turn(Rotl32(Xor32(Xor32(Rotl32(Unturn(x, add, n), 13), k), k), 19), add, n) == x
  {
    var y := Unturn(x, add, n);
    TurnInverse(x, add, n);
    Rotations(y);
    Xor32Inverse(Rotl32(y, 19), k);
    Xor32Inverse(Rotl32(y, 17), k);
    Xor32Inverse(Rotl32(y, 15), k);
    Xor32Inverse(Rotl32(y, 13), k);
  }

  lemma StepRecovers(h: Quad, k: Quad)
    ensures BlockOf(h, Step(h, k)) == k
  {
    var s := ScrambleQuad(k);
    Rotations(Xor32(h.w1, s.w1));
    TurnInverse(Rotl32(Xor32(h.w1, s.w1), 19), h.w2, 0x561ccd1b);
    Rotations(Xor32(h.w2, s.w2));
    TurnInverse(Rotl32(Xor32(h.w2, s.w2), 17), h.w3, 0x0bcaa747);
    Rotations(Xor32(h.w3, s.w3));
    TurnInverse(Rotl32(Xor32(h.w3, s.w3), 15), h.w4, 0x96cd1c35);
    Rotations(Xor32(h.w4, s.w4));
    TurnInverse(Rotl32(Xor32(h.w4, s.w4), 13), Step(h, k).w1, 0x32ac3b17);
    XorQuadInverse(h, s);
    ScrambleQuadInverse(k);
  }

  lemma FinishInverse(h: Quad, t: Quad, len: bv32)
    ensures Unfinish(Finish(h, t, len), t, len) == h
    ensures TailOf(h, Finish(h, t, len), len) == t
  {
    var a := XorQuad(h, ScrambleQuad(t));
    AvalancheInverse(XorQuad(a, Same(len)));
    XorQuadInverse(a, Same(len));
    XorQuadInverse(h, ScrambleQuad(t));
    ScrambleQuadInverse(t);
  }

  lemma UnfinishInverse(h: Quad, t: Quad, len: bv32)
    ensures Finish(Unfinish(h, t, len), t, len) == h
  {
    var a := XorQuad(Unavalanche(h), Same(len));
    AvalancheInverse(h);
    XorQuadInverse(Unavalanche(h), Same(len));
    XorQuadInverse(a, ScrambleQuad(t));
  }

  lemma MixReversible(len: bv32)
    ensures Reversible(Mix(len))
  {
    var m := Mix(len);
    forall s, b ensures m.undo(m.step(s, b), b) == s {
      StepUndone(s, b);
    }
    forall s, b ensures m.blockOf(s, m.step(s, b)) == b {
      StepRecovers(s, b);
    }
    forall s, b ensures m.step(m.undo(s, b), b) == s {
      StepRedone(s, b);
    }
    forall s, b ensures m.unfinish(m.finish(s, b), b) == s && m.tailOf(s, m.finish(s, b)) == b {
      FinishInverse(s, b, len);
    }
    forall s, b ensures m.finish(m.unfinish(s, b), b) == s {
      UnfinishInverse(s, b, len);
    }
  }

  // ---------- main results

  lemma WordsAgree(x: seq<bv8>, y: seq<bv8>, p: nat)
    ensures WordsAt(x, p) == WordsAt(y, p)
       <==> forall q :: p <= q < p + 16 ==> ByteAt(x, q) == ByteAt(y, q)
  {
    Word32Agree(x, y, p);
    Word32Agree(x, y, p + 4);
    Word32Agree(x, y, p + 8);
    Word32Agree(x, y, p + 12);
  }

  lemma OtherBlocksAgree(x: seq<bv8>, y: seq<bv8>, b: nat, i: nat)
    requires DifferWithin(x, y, 16 * b, 16 * b + 16) && i != b
    ensures WordsAt(x, 16 * i) == WordsAt(y, 16 * i)
  {
    WordsAgree(x, y, 16 * i);
  }

  lemma ThisBlockDiffers(x: seq<bv8>, y: seq<bv8>, b: nat)
    requires DifferWithin(x, y, 16 * b, 16 * b + 16)
    ensures WordsAt(x, 16 * b) != WordsAt(y, 16 * b)
  {
    var p :| 0 <= p < |x| && x[p] != y[p];
    assert ByteAt(x, p) != ByteAt(y, p);
    WordsAgree(x, y, 16 * b);
  }

  /** A difference inside one aligned block is a difference of exactly that block. */
  lemma OneBlockDiffers(x: seq<bv8>, y: seq<bv8>, b: nat)
    requires DifferWithin(x, y, 16 * b, 16 * b + 16)
    ensures b < |x| / 16 ==> DifferOnlyAt(Blocks(x), Blocks(y), b) && Tail(x) == Tail(y)
    ensures b >= |x| / 16 ==> Blocks(x) == Blocks(y) && Tail(x) != Tail(y)
  {
    var n := |x| / 16;
    forall i | 0 <= i < n && i != b ensures Blocks(x)[i] == Blocks(y)[i] {
      OtherBlocksAgree(x, y, b, i);
    }
    if b < n {
      FullBlockDiffers(x, y, b);
      TailsAgree(x, y, b);
    } else {
      assert b == n;
      ThisBlockDiffers(x, y, n);
    }
  }

  lemma FullBlockDiffers(x: seq<bv8>, y: seq<bv8>, b: nat)
    requires DifferWithin(x, y, 16 * b, 16 * b + 16)
    requires b < |x| / 16
    ensures Blocks(x)[b] != Blocks(y)[b]
  {
    ThisBlockDiffers(x, y, b);
  }

  lemma TailsAgree(x: seq<bv8>, y: seq<bv8>, b: nat)
    requires DifferWithin(x, y, 16 * b, 16 * b + 16)
    requires b < |x| / 16
    ensures Tail(x) == Tail(y)
  {
    OtherBlocksAgree(x, y, b, |x| / 16);
  }

  /** Equal-length keys that differ inside one aligned 16-byte block only, the partial
      last one included, never collide. */
  lemma OneBlockNeverCollides(x: seq<bv8>, y: seq<bv8>, b: nat, seed: bv32)
    requires Hashable(x)
    requires DifferWithin(x, y, 16 * b, 16 * b + 16)
    ensures Hash(x, seed) != Hash(y, seed)
  {
    OneBlockDiffers(x, y, b);
    MixReversible(|x| as bv32);
    DigestSeparates(Mix(|x| as bv32), Same(seed), Blocks(x), Blocks(y), Tail(x), Tail(y), b);
  }

  /** The hash is injective on 16-byte keys. */
  lemma InjectiveOnSixteenBytes(x: seq<bv8>, y: seq<bv8>, seed: bv32)
    requires |x| == |y| == 16
    ensures Hash(x, seed) == Hash(y, seed) <==> x == y
  {
    if x != y {
      OneBlockNeverCollides(x, y, 0, seed);
    }
  }

  // ---------- the code

  method MixLane(h0: bv32, k: bv32, r: bv6, add: bv32, n: bv32) returns (h: bv32)
    requires r <= 32
    ensures h == Turn(Rotl32(Xor32(h0, k), r), add, n)
  {
    h := h0;
    h := Xor32(h, k);
    h := Rotl32(h, r);
    h := Add32(h, add);
    h := Add32(Mul32(h, 5), n);
  }

  /** One block, lane by lane: a lane already updated is read by the last one. */
  method MixBlock(h: Quad, k: Quad) returns (h': Quad)
    ensures h' == Step(h, k)
  {
    var h1, h2, h3, h4 := h.w1, h.w2, h.w3, h.w4;
    h1 := MixLane(h1, Scramble1(k.w1), 19, h2, 0x561ccd1b);
    h2 := MixLane(h2, Scramble2(k.w2), 17, h3, 0x0bcaa747);
    h3 := MixLane(h3, Scramble3(k.w3), 15, h4, 0x96cd1c35);
    h4 := MixLane(h4, Scramble4(k.w4), 13, h1, 0x32ac3b17);
    h' := Quad(h1, h2, h3, h4);
  }

  method MixBlocks(key: seq<bv8>, seed: bv32) returns (h: Quad)
    requires Hashable(key)
    ensures h == Fold(Step, Same(seed), Blocks(key))
  {
    var nblocks := |key| / 16;
    h := Same(seed);
    var i := -nblocks;
    assert Blocks(key)[..0] == [];
    while i != 0
      invariant -nblocks <= i <= 0
      invariant h == Fold(Step, Same(seed), Blocks(key)[..nblocks + i])
    {
      var at := nblocks * 16 + i * 16;
      var k := WordsAt(key, at);
      assert at == 16 * (nblocks + i);
      assert k == Blocks(key)[nblocks + i];
      FoldSnoc(Step, Same(seed), Blocks(key), nblocks + i);
      h := MixBlock(h, k);
      i := i + 1;
    }
    assert Blocks(key)[..nblocks] == Blocks(key);
  }

  /** The fall-through switch over at most fifteen last bytes: every lane that has a
      byte is mixed, the fourth lane first. */
  method MixTail(key: seq<bv8>, h: Quad) returns (t: Quad)
    requires Hashable(key)
    ensures t == XorQuad(h, ScrambleQuad(Tail(key)))
  {
    var at := 16 * (|key| / 16);
    var k4 := TailWord32(key, at + 12);
    var k3 := TailWord32(key, at + 8);
    var k2 := TailWord32(key, at + 4);
    var k1 := TailWord32(key, at);
    t := MixTailLanes(h, Quad(k1, k2, k3, k4), |key| % 16);
  }

  method MixTailLanes(h: Quad, k: Quad, left: nat) returns (t: Quad)
    requires left <= 12 ==> k.w4 == 0
    requires left <= 8 ==> k.w3 == 0
    requires left <= 4 ==> k.w2 == 0
    requires left == 0 ==> k.w1 == 0
    ensures t == XorQuad(h, ScrambleQuad(k))
  {
    t := h;
    ZeroLane(h.w1);
    ZeroLane(h.w2);
    ZeroLane(h.w3);
    ZeroLane(h.w4);
    if left > 12 { t := t.(w4 := Xor32(t.w4, Scramble4(k.w4))); }
    if left > 8 { t := t.(w3 := Xor32(t.w3, Scramble3(k.w3))); }
    if left > 4 { t := t.(w2 := Xor32(t.w2, Scramble2(k.w2))); }
    if left > 0 { t := t.(w1 := Xor32(t.w1, Scramble1(k.w1))); }
  }

  /** Skipping a lane without bytes equals mixing a zero word into it. */
  lemma ZeroLane(h: bv32)
    ensures Xor32(h, Scramble1(0)) == Xor32(h, Scramble2(0)) == h
    ensures Xor32(h, Scramble3(0)) == Xor32(h, Scramble4(0)) == h
  {
    ScrambleZero();
    assert Xor32(h, 0) == h;
  }

  lemma ScrambleZero()
    ensures Scramble1(0) == Scramble2(0) == Scramble3(0) == Scramble4(0) == 0
  {
    assert forall c :: Mul32(0, c) == 0;
    assert Rotl32(0, 15) == Rotl32(0, 16) == Rotl32(0, 17) == Rotl32(0, 18) == 0;
  }

  method MurmurHash3_x86_128(key: seq<bv8>, seed: bv32) returns (out: Quad)
    requires Hashable(key)
    ensures out == Hash(key, seed)
  {
    var len := |key| as bv32;
    var h := MixBlocks(key, seed);
    h := MixTail(key, h);
    h := XorQuad(h, Same(len));
    out := AvalancheInPlace(h);
  }

  method AvalancheInPlace(h0: Quad) returns (h: Quad)
    ensures h == Avalanche(h0)
  {
    h := Spread(h0);
    var h1 := Fmix32InPlace(h.w1);
    var h2 := Fmix32InPlace(h.w2);
    var h3 := Fmix32InPlace(h.w3);
    var h4 := Fmix32InPlace(h.w4);
    h := Spread(Quad(h1, h2, h3, h4));
  }
}
