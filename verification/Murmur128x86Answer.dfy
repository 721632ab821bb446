/** A digest of MurmurHash3_x86_128, evaluated by the verifier. It pins what the bijection
    results leave open: the constants, the byte order, the seed and the length. */
module Murmur128x86Answer {
  import opened BlockFolds
  import opened KeyWords
  import opened MurmurMix
  import opened Murmur128x86

  /** One whole block and a tail that reaches every lane. */
  const BLOCK: seq<bv8> := [1, 2, 3, 4, 5, 6, 7, 8, 9, 10, 11, 12, 13, 14, 15, 16]
  const REST: seq<bv8> := [17, 18, 19, 20, 21, 22, 23, 24, 25, 26, 27, 28, 29, 30, 31]

  lemma HashParts(key: seq<bv8>, seed: bv32, h: Quad, t: Quad, len: bv32)
    requires Hashable(key)
    requires Fold(Step, Same(seed), Blocks(key)) == h && Tail(key) == t && |key| as bv32 == len
    ensures Hash(key, seed) == Finish(h, t, len)
  {}

  lemma BlockScramble()
    ensures Scramble1(0x04030201) == 0xfff4c2ec
    ensures Scramble2(0x08070605) == 0xfd01be49
    ensures Scramble3(0x0c0b0a09) == 0x42032719
    ensures Scramble4(0x100f0e0d) == 0xacfbc27c
  {
    assert Mul32(0x04030201, 0x239b961b) == 0x8918cc1b && Rotl32(0x8918cc1b, 15) == 0x660dc48c;
    assert Mul32(0x660dc48c, 0xab0e9789) == 0xfff4c2ec;
    assert Mul32(0x08070605, 0xab0e9789) == 0x1b952bad && Rotl32(0x1b952bad, 16) == 0x2bad1b95;
    assert Mul32(0x2bad1b95, 0x38b34ae5) == 0xfd01be49;
    assert Mul32(0x0c0b0a09, 0x38b34ae5) == 0xf311940d && Rotl32(0xf311940d, 17) == 0x281be623;
    assert Mul32(0x281be623, 0xa1e38b93) == 0x42032719;
    assert Mul32(0x100f0e0d, 0xa1e38b93) == 0x07cd2077 && Rotl32(0x07cd2077, 18) == 0x81dc1f34;
    assert Mul32(0x81dc1f34, 0x239b961b) == 0xacfbc27c;
  }

  lemma Lanes()
    ensures Turn(Rotl32(Xor32(0x9747b28c, 0xfff4c2ec), 19), 0x9747b28c, 0x561ccd1b) == 0xd993a5de
    ensures Turn(Rotl32(Xor32(0x9747b28c, 0xfd01be49), 17), 0x9747b28c, 0xbcaa747) == 0x7fe74abf
    ensures Turn(Rotl32(Xor32(0x9747b28c, 0x42032719), 15), 0x9747b28c, 0x96cd1c35) == 0x012a2e1b
    ensures Turn(Rotl32(Xor32(0x9747b28c, 0xacfbc27c), 13), 0xd993a5de, 0x32ac3b17) == 0x39249dc0
  {
    assert Xor32(0x9747b28c, 0xfff4c2ec) == 0x68b37060 && Rotl32(0x68b37060, 19) == 0x8303459b;
    assert Add32(0x8303459b, 0x9747b28c) == 0x1a4af827 && Mul32(0x1a4af827, 5) == 0x8376d8c3;
    assert Add32(0x8376d8c3, 0x561ccd1b) == 0xd993a5de;
    assert Xor32(0x9747b28c, 0xfd01be49) == 0x6a460cc5 && Rotl32(0x6a460cc5, 17) == 0x198ad48c;
    assert Add32(0x198ad48c, 0x9747b28c) == 0xb0d28718 && Mul32(0xb0d28718, 5) == 0x741ca378;
    assert Add32(0x741ca378, 0xbcaa747) == 0x7fe74abf;
    assert Xor32(0x9747b28c, 0x42032719) == 0xd5449595 && Rotl32(0xd5449595, 15) == 0x4acaeaa2;
    assert Add32(0x4acaeaa2, 0x9747b28c) == 0xe2129d2e && Mul32(0xe2129d2e, 5) == 0x6a5d11e6;
    assert Add32(0x6a5d11e6, 0x96cd1c35) == 0x012a2e1b;
    assert Xor32(0x9747b28c, 0xacfbc27c) == 0x3bbc70f0 && Rotl32(0x3bbc70f0, 13) == 0x8e1e0777;
    assert Add32(0x8e1e0777, 0xd993a5de) == 0x67b1ad55 && Mul32(0x67b1ad55, 5) == 0x067862a9;
    assert Add32(0x067862a9, 0x32ac3b17) == 0x39249dc0;
  }

  lemma FirstBlock()
    ensures Step(Same(0x9747b28c), Quad(0x04030201, 0x08070605, 0x0c0b0a09, 0x100f0e0d))
         == Quad(0xd993a5de, 0x7fe74abf, 0x012a2e1b, 0x39249dc0)
  {
    BlockScramble();
    Lanes();
  }

  lemma TailScramble()
    ensures Scramble1(0x14131211) == 0x3d7d9df9
    ensures Scramble2(0x18171615) == 0x54b374c3
    ensures Scramble3(0x1c1b1a19) == 0x5e94f7ab
    ensures Scramble4(0x001f1e1d) == 0x054200d4
  {
    assert Mul32(0x14131211, 0x239b961b) == 0x8de3ddcb && Rotl32(0x8de3ddcb, 15) == 0xeee5c6f1;
    assert Mul32(0xeee5c6f1, 0xab0e9789) == 0x3d7d9df9;
    assert Mul32(0x18171615, 0xab0e9789) == 0xbe87343d && Rotl32(0xbe87343d, 16) == 0x343dbe87;
    assert Mul32(0x343dbe87, 0x38b34ae5) == 0x54b374c3;
    assert Mul32(0x1c1b1a19, 0x38b34ae5) == 0xb144925d && Rotl32(0xb144925d, 17) == 0x24bb6289;
    assert Mul32(0x24bb6289, 0xa1e38b93) == 0x5e94f7ab;
    assert Mul32(0x001f1e1d, 0xa1e38b93) == 0xe7ef09a7 && Rotl32(0xe7ef09a7, 18) == 0x269f9fbc;
    assert Mul32(0x269f9fbc, 0x239b961b) == 0x054200d4;
  }

  lemma BeforeAvalanche()
    ensures XorQuad(XorQuad(Quad(0xd993a5de, 0x7fe74abf, 0x012a2e1b, 0x39249dc0),
                            ScrambleQuad(Quad(0x14131211, 0x18171615, 0x1c1b1a19, 0x001f1e1d))), Same(31))
         == Quad(0xe4ee3838, 0x2b543e63, 0x5fbed9af, 0x3c669d0b)
  {
    TailScramble();
    assert Xor32(0xd993a5de, 0x3d7d9df9) == 0xe4ee3827 && Xor32(0xe4ee3827, 31) == 0xe4ee3838;
    assert Xor32(0x7fe74abf, 0x54b374c3) == 0x2b543e7c && Xor32(0x2b543e7c, 31) == 0x2b543e63;
    assert Xor32(0x012a2e1b, 0x5e94f7ab) == 0x5fbed9b0 && Xor32(0x5fbed9b0, 31) == 0x5fbed9af;
    assert Xor32(0x39249dc0, 0x054200d4) == 0x3c669d14 && Xor32(0x3c669d14, 31) == 0x3c669d0b;
  }

  lemma SpreadFirst()
    ensures Spread(Quad(0xe4ee3838, 0x2b543e63, 0x5fbed9af, 0x3c669d0b))
         == Quad(0xac67ed55, 0xd7bc2bb8, 0x0c26c704, 0xe8ce8a60)
  {
    assert Add32(0xe4ee3838, 0x2b543e63) == 0x1042769b;
    assert Add32(0x1042769b, 0x5fbed9af) == 0x7001504a;
    assert Add32(0x7001504a, 0x3c669d0b) == 0xac67ed55;
    assert Add32(0x2b543e63, 0xac67ed55) == 0xd7bc2bb8;
    assert Add32(0x5fbed9af, 0xac67ed55) == 0x0c26c704;
    assert Add32(0x3c669d0b, 0xac67ed55) == 0xe8ce8a60;
  }

  lemma FmixFirst()
    ensures Fmix32(0xac67ed55) == 0x067ee1e9
  {
    assert XorShift32(0xac67ed55, 16) == 0xac674132 && Mul32(0xac674132, 0x85ebca6b) == 0x5b7fb3e6;
    assert XorShift32(0x5b7fb3e6, 13) == 0x5b7d681b && Mul32(0x5b7d681b, 0xc2b2ae35) == 0x067ee797;
    assert XorShift32(0x067ee797, 16) == 0x067ee1e9;
  }

  lemma FmixSecond()
    ensures Fmix32(0xd7bc2bb8) == 0x834b6fd0
  {
    assert XorShift32(0xd7bc2bb8, 16) == 0xd7bcfc04 && Mul32(0xd7bcfc04, 0x85ebca6b) == 0xb6847dac;
    assert XorShift32(0xb6847dac, 13) == 0xb681c98f && Mul32(0xb681c98f, 0xc2b2ae35) == 0x834bec9b;
    assert XorShift32(0x834bec9b, 16) == 0x834b6fd0;
  }

  lemma FmixThird()
    ensures Fmix32(0x0c26c704) == 0x468c469b
  {
    assert XorShift32(0x0c26c704, 16) == 0x0c26cb22 && Mul32(0x0c26cb22, 0x85ebca6b) == 0xd2b5bb36;
    assert XorShift32(0xd2b5bb36, 13) == 0xd2b32e9b && Mul32(0xd2b32e9b, 0xc2b2ae35) == 0x468c0017;
    assert XorShift32(0x468c0017, 16) == 0x468c469b;
  }

  lemma FmixFourth()
    ensures Fmix32(0xe8ce8a60) == 0x3bd44512
  {
    assert XorShift32(0xe8ce8a60, 16) == 0xe8ce62ae && Mul32(0xe8ce62ae, 0x85ebca6b) == 0x23da8aba;
    assert XorShift32(0x23da8aba, 13) == 0x23db946e && Mul32(0x23db946e, 0xc2b2ae35) == 0x3bd47ec6;
    assert XorShift32(0x3bd47ec6, 16) == 0x3bd44512;
  }

  lemma SpreadSecond()
    ensures Spread(Quad(0x067ee1e9, 0x834b6fd0, 0x468c469b, 0x3bd44512))
         == Quad(0x0c2add66, 0x8f764d36, 0x52b72401, 0x47ff2278)
  {
    assert Add32(0x067ee1e9, 0x834b6fd0) == 0x89ca51b9;
    assert Add32(0x89ca51b9, 0x468c469b) == 0xd0569854;
    assert Add32(0xd0569854, 0x3bd44512) == 0x0c2add66;
    assert Add32(0x834b6fd0, 0x0c2add66) == 0x8f764d36;
    assert Add32(0x468c469b, 0x0c2add66) == 0x52b72401;
    assert Add32(0x3bd44512, 0x0c2add66) == 0x47ff2278;
  }

  lemma LastSteps()
    ensures Finish(Quad(0xd993a5de, 0x7fe74abf, 0x012a2e1b, 0x39249dc0),
                   Quad(0x14131211, 0x18171615, 0x1c1b1a19, 0x001f1e1d), 31)
         == Quad(0x0c2add66, 0x8f764d36, 0x52b72401, 0x47ff2278)
  {
    BeforeAvalanche();
    SpreadFirst();
    FmixFirst();
    FmixSecond();
    FmixThird();
    FmixFourth();
    SpreadSecond();
  }

  lemma FirstBytes(key: seq<bv8>)
    requires key == BLOCK + REST
    ensures |key| == 31
    ensures key[0] == 1 && key[1] == 2 && key[2] == 3 && key[3] == 4
    ensures key[4] == 5 && key[5] == 6 && key[6] == 7 && key[7] == 8
    ensures key[8] == 9 && key[9] == 10 && key[10] == 11 && key[11] == 12
    ensures key[12] == 13 && key[13] == 14 && key[14] == 15 && key[15] == 16
  {
    assert key[..16] == BLOCK;
  }

  lemma LastBytes(key: seq<bv8>)
    requires key == BLOCK + REST
    ensures |key| == 31
    ensures key[16] == 17 && key[17] == 18 && key[18] == 19 && key[19] == 20
    ensures key[20] == 21 && key[21] == 22 && key[22] == 23 && key[23] == 24
    ensures key[24] == 25 && key[25] == 26 && key[26] == 27 && key[27] == 28
    ensures key[28] == 29 && key[29] == 30 && key[30] == 31
  {
    assert key[16..] == REST;
  }

  lemma BlockWords(key: seq<bv8>)
    requires key == BLOCK + REST
    ensures WordsAt(key, 0) == Quad(0x04030201, 0x08070605, 0x0c0b0a09, 0x100f0e0d)
  {
    FirstBytes(key);
    assert Pack32(1, 2, 3, 4) == 0x04030201;
    assert Pack32(5, 6, 7, 8) == 0x08070605;
    assert Pack32(9, 10, 11, 12) == 0x0c0b0a09;
    assert Pack32(13, 14, 15, 16) == 0x100f0e0d;
  }

  lemma TailWords(key: seq<bv8>)
    requires key == BLOCK + REST
    ensures WordsAt(key, 16) == Quad(0x14131211, 0x18171615, 0x1c1b1a19, 0x001f1e1d)
  {
    LastBytes(key);
    assert Pack32(17, 18, 19, 20) == 0x14131211;
    assert Pack32(21, 22, 23, 24) == 0x18171615;
    assert Pack32(25, 26, 27, 28) == 0x1c1b1a19;
    assert Pack32(29, 30, 31, 0) == 0x001f1e1d;
  }

  lemma OneBlock(key: seq<bv8>, seed: bv32, block: Quad)
    requires |key| == 31 && WordsAt(key, 0) == block
    ensures Fold(Step, Same(seed), Blocks(key)) == Step(Same(seed), block)
  {
    assert Blocks(key) == [block];
    assert [block][..0] == [] && [block][..1] == [block];
    FoldSnoc(Step, Same(seed), [block], 0);
  }

  lemma TailAndLength(key: seq<bv8>)
    requires |key| == 31
    ensures Tail(key) == WordsAt(key, 16) && |key| as bv32 == 31
  {}

  lemma DigestOfWords(key: seq<bv8>)
    requires |key| == 31
    requires WordsAt(key, 0) == Quad(0x04030201, 0x08070605, 0x0c0b0a09, 0x100f0e0d)
    requires WordsAt(key, 16) == Quad(0x14131211, 0x18171615, 0x1c1b1a19, 0x001f1e1d)
    ensures Hash(key, 0x9747b28c) == Quad(0x0c2add66, 0x8f764d36, 0x52b72401, 0x47ff2278)
  {
    TailAndLength(key);
    OneBlock(key, 0x9747b28c, Quad(0x04030201, 0x08070605, 0x0c0b0a09, 0x100f0e0d));
    FirstBlock();
    LastSteps();
    HashParts(key, 0x9747b28c, Quad(0xd993a5de, 0x7fe74abf, 0x012a2e1b, 0x39249dc0),
              Quad(0x14131211, 0x18171615, 0x1c1b1a19, 0x001f1e1d), 31);
  }

  lemma KnownDigest(key: seq<bv8>)
    requires key == BLOCK + REST
    ensures Hash(key, 0x9747b28c) == Quad(0x0c2add66, 0x8f764d36, 0x52b72401, 0x47ff2278)
  {
    BlockWords(key);
    TailWords(key);
    DigestOfWords(key);
  }
}
