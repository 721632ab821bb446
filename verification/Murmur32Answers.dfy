/** Four digests that the repository's hasher test depends on, evaluated by the verifier.
    They pin the constants, the byte order and the treatment of the tail, which the
    bijection results leave open. */
module Murmur32Answers {
  import opened BlockFolds
  import opened KeyWords
  import opened MurmurMix
  import opened Murmur32

  const DOG: seq<bv8> := [0x64, 0x6f, 0x67]
  const CAT: seq<bv8> := [0x63, 0x61, 0x74]
  const RUN: seq<bv8> := [0x72, 0x75, 0x6e]
  const ELEPHANT: seq<bv8> := [0x65, 0x6c, 0x65, 0x70, 0x68, 0x61, 0x6e, 0x74]

  lemma HashParts(key: seq<bv8>, seed: bv32, h: bv32, t: bv32, len: bv32)
    requires Hashable(key)
    requires Fold(Step, seed, Blocks(key)) == h && Tail(key) == t && |key| as bv32 == len
    ensures Hash(key, seed) == Finish(h, t, len)
  {}

  /** A key shorter than a word: no block, three tail bytes. */
  lemma ThreeBytes(key: seq<bv8>, w: bv32)
    requires |key| == 3 && Word32(key, 0) == w
    ensures Hash(key, 0) == Finish(0, w, 3)
  {
    assert Blocks(key) == [];
    assert Fold(Step, 0, []) == 0;
    HashParts(key, 0, 0, w, 3);
  }

  lemma DogScramble()
    ensures Scramble(0x00676f64) == 0xb727f739
  {
    assert Mul32(0x00676f64, 0xcc9e2d51) == 0xbf06d2a4 && Rotl32(0xbf06d2a4, 15) == 0x69525f83;
    assert Mul32(0x69525f83, 0x1b873593) == 0xb727f739;
  }

  lemma DogFmix()
    ensures Fmix32(0xb727f73a) == 0xb1c109db
  {
    assert XorShift32(0xb727f73a, 16) == 0xb727401d && Mul32(0xb727401d, 0x85ebca6b) == 0x719dae1f;
    assert XorShift32(0x719dae1f, 13) == 0x719e22f2 && Mul32(0x719e22f2, 0xc2b2ae35) == 0xb1c1b81a;
    assert XorShift32(0xb1c1b81a, 16) == 0xb1c109db;
  }

  lemma Dog()
    ensures Hash(DOG, 0) == 0xb1c109db
  {
    DogScramble();
    DogFmix();
    assert Xor32(0, 0xb727f739) == 0xb727f739 && Xor32(0xb727f739, 3) == 0xb727f73a;
    ThreeBytes(DOG, 0x00676f64);
  }

  lemma CatScramble()
    ensures Scramble(0x00746163) == 0x6afaf95f
  {
    assert Mul32(0x00746163, 0xcc9e2d51) == 0x990b3753 && Rotl32(0x990b3753, 15) == 0x9ba9cc85;
    assert Mul32(0x9ba9cc85, 0x1b873593) == 0x6afaf95f;
  }

  lemma CatFmix()
    ensures Fmix32(0x6afaf95c) == 0x68649727
  {
    assert XorShift32(0x6afaf95c, 16) == 0x6afa93a6 && Mul32(0x6afa93a6, 0x85ebca6b) == 0x369eb262;
    assert XorShift32(0x369eb262, 13) == 0x369f0697 && Mul32(0x369f0697, 0xc2b2ae35) == 0x6864ff43;
    assert XorShift32(0x6864ff43, 16) == 0x68649727;
  }

  lemma Cat()
    ensures Hash(CAT, 0) == 0x68649727
  {
    CatScramble();
    CatFmix();
    assert Xor32(0, 0x6afaf95f) == 0x6afaf95f && Xor32(0x6afaf95f, 3) == 0x6afaf95c;
    ThreeBytes(CAT, 0x00746163);
  }

  lemma RunScramble()
    ensures Scramble(0x006e7572) == 0x1025a18e
  {
    assert Mul32(0x006e7572, 0xcc9e2d51) == 0xe1f43312 && Rotl32(0xe1f43312, 15) == 0x198970fa;
    assert Mul32(0x198970fa, 0x1b873593) == 0x1025a18e;
  }

  lemma RunFmix()
    ensures Fmix32(0x1025a18d) == 0xf1764c48
  {
    assert XorShift32(0x1025a18d, 16) == 0x1025b1a8 && Mul32(0x1025b1a8, 0x85ebca6b) == 0xdb27d138;
    assert XorShift32(0xdb27d138, 13) == 0xdb210806 && Mul32(0xdb210806, 0xc2b2ae35) == 0xf176bd3e;
    assert XorShift32(0xf176bd3e, 16) == 0xf1764c48;
  }

  lemma Run()
    ensures Hash(RUN, 0) == 0xf1764c48
  {
    RunScramble();
    RunFmix();
    assert Xor32(0, 0x1025a18e) == 0x1025a18e && Xor32(0x1025a18e, 3) == 0x1025a18d;
    ThreeBytes(RUN, 0x006e7572);
  }

  lemma ElephantScrambleFirst()
    ensures Scramble(0x70656c65) == 0xedc71d07
  {
    assert Mul32(0x70656c65, 0xcc9e2d51) == 0xc67b0cf5 && Rotl32(0xc67b0cf5, 15) == 0x867ae33d;
    assert Mul32(0x867ae33d, 0x1b873593) == 0xedc71d07;
  }

  lemma ElephantFirst()
    ensures Step(0, 0x70656c65) == 0x58795ffc
  {
    ElephantScrambleFirst();
    assert Xor32(0, 0xedc71d07) == 0xedc71d07 && Rotl32(0xedc71d07, 13) == 0xe3a0fdb8;
    assert Mul32(0xe3a0fdb8, 5) == 0x7224f498 && Add32(0x7224f498, 0xe6546b64) == 0x58795ffc;
  }

  lemma ElephantScrambleSecond()
    ensures Scramble(0x746e6168) == 0x063b813a
  {
    assert Mul32(0x746e6168, 0xcc9e2d51) == 0x3c3c19e8 && Rotl32(0x3c3c19e8, 15) == 0x0cf41e1e;
    assert Mul32(0x0cf41e1e, 0x1b873593) == 0x063b813a;
  }

  lemma ElephantSecond()
    ensures Step(0x58795ffc, 0x746e6168) == 0xb190664c
  {
    ElephantScrambleSecond();
    assert Xor32(0x58795ffc, 0x063b813a) == 0x5e42dec6 && Rotl32(0x5e42dec6, 13) == 0x5bd8cbc8;
    assert Mul32(0x5bd8cbc8, 5) == 0xcb3bfae8 && Add32(0xcb3bfae8, 0xe6546b64) == 0xb190664c;
  }

  lemma ElephantFmix()
    ensures Fmix32(0xb1906644) == 0xc0a151d2
  {
    assert XorShift32(0xb1906644, 16) == 0xb190d7d4 && Mul32(0xb190d7d4, 0x85ebca6b) == 0xc5737d9c;
    assert XorShift32(0xc5737d9c, 13) == 0xc5755607 && Mul32(0xc5755607, 0xc2b2ae35) == 0xc0a19173;
    assert XorShift32(0xc0a19173, 16) == 0xc0a151d2;
  }

  lemma ElephantFinish()
    ensures Finish(0xb190664c, 0, 8) == 0xc0a151d2
  {
    ScrambleZero();
    ElephantFmix();
    assert Xor32(0xb190664c, 0) == 0xb190664c && Xor32(0xb190664c, 8) == 0xb1906644;
  }

  lemma ElephantWords()
    ensures Word32(ELEPHANT, 0) == 0x70656c65 && Word32(ELEPHANT, 4) == 0x746e6168
    ensures Word32(ELEPHANT, 8) == 0
  {}

  lemma ElephantBlocks()
    ensures Fold(Step, 0, Blocks(ELEPHANT)) == 0xb190664c
  {
    ElephantWords();
    var blocks: seq<bv32> := [0x70656c65, 0x746e6168];
    assert Blocks(ELEPHANT) == blocks;
    assert blocks[..0] == [] && blocks[..2] == blocks;
    FoldSnoc(Step, 0, blocks, 0);
    FoldSnoc(Step, 0, blocks, 1);
    ElephantFirst();
    ElephantSecond();
  }

  /** Two whole words and an empty tail. */
  lemma Elephant()
    ensures Hash(ELEPHANT, 0) == 0xc0a151d2
  {
    ElephantBlocks();
    ElephantWords();
    ElephantFinish();
    HashParts(ELEPHANT, 0, 0xb190664c, 0, 8);
  }
}
