/** A digest of MurmurHash3_x64_128, evaluated by the verifier. It pins what the bijection
    results leave open: the constants, the byte order, the seed and the length. */
module Murmur128x64Answer {
  import opened BlockFolds
  import opened KeyWords
  import opened MurmurMix
  import opened Murmur128x64

  /** One whole block and a tail that reaches every lane. */
  const BLOCK: seq<bv8> := [1, 2, 3, 4, 5, 6, 7, 8, 9, 10, 11, 12, 13, 14, 15, 16]
  const REST: seq<bv8> := [17, 18, 19, 20, 21, 22, 23, 24, 25, 26, 27, 28, 29, 30, 31]

  lemma HashParts(key: seq<bv8>, seed: bv32, h: Pair, t: Pair, len: bv64)
    requires Hashable(key)
    requires Fold(Step, Same(seed as bv64), Blocks(key)) == h && Tail(key) == t && |key| as bv64 == len
    ensures Hash(key, seed) == Finish(h, t, len)
  {}

  lemma BlockScramble()
    ensures Scramble1(0x0807060504030201) == 0x84912ea0966db987
    ensures Scramble2(0x100f0e0d0c0b0a09) == 0x1c70dd70c03cdcd6
  {
    assert Mul64(0x0807060504030201, 0x87c37b91114253d5) == 0x9cc87bf2e568fdd5;
    assert Rotl64(0x9cc87bf2e568fdd5, 31) == 0x72b47eeace643df9;
    assert Mul64(0x72b47eeace643df9, 0x4cf5ad432745937f) == 0x84912ea0966db987;
    assert Mul64(0x100f0e0d0c0b0a09, 0x4cf5ad432745937f) == 0x462c193f63aa2577;
    assert Rotl64(0x462c193f63aa2577, 33) == 0xc7544aee8c58327e;
    assert Mul64(0xc7544aee8c58327e, 0x87c37b91114253d5) == 0x1c70dd70c03cdcd6;
  }

  lemma Lanes()
    ensures Turn(Rotl64(Xor64(0x000000009747b28c, 0x84912ea0966db987), 27), 0x000000009747b28c, 0x52dce729)
         == 0x002e91bd13fa132e
    ensures Turn(Rotl64(Xor64(0x000000009747b28c, 0x1c70dd70c03cdcd6), 31), 0x002e91bd13fa132e, 0x38495ab5)
         == 0xdb9d6c92e345e433
  {
    assert Xor64(0x000000009747b28c, 0x84912ea0966db987) == 0x84912ea0012a0b0b;
    assert Rotl64(0x84912ea0012a0b0b, 27) == 0x000950585c248975;
    assert Add64(0x000950585c248975, 0x000000009747b28c) == 0x00095058f36c3c01;
    assert Mul64(0x00095058f36c3c01, 5) == 0x002e91bcc11d2c05;
    assert Add64(0x002e91bcc11d2c05, 0x52dce729) == 0x002e91bd13fa132e;
    assert Xor64(0x000000009747b28c, 0x1c70dd70c03cdcd6) == 0x1c70dd70577b6e5a;
    assert Rotl64(0x1c70dd70577b6e5a, 31) == 0x2bbdb72d0e386eb8;
    assert Add64(0x2bbdb72d0e386eb8, 0x002e91bd13fa132e) == 0x2bec48ea223281e6;
    assert Mul64(0x2bec48ea223281e6, 5) == 0xdb9d6c92aafc897e;
    assert Add64(0xdb9d6c92aafc897e, 0x38495ab5) == 0xdb9d6c92e345e433;
  }

  lemma FirstBlock()
    ensures Step(Same(0x000000009747b28c), Pair(0x0807060504030201, 0x100f0e0d0c0b0a09))
         == Pair(0x002e91bd13fa132e, 0xdb9d6c92e345e433)
  {
    BlockScramble();
    Lanes();
  }

  lemma TailScramble()
    ensures Scramble1(0x1817161514131211) == 0x5e88441d34dfab1b
    ensures Scramble2(0x001f1e1d1c1b1a19) == 0x80470889891e6766
  {
    assert Mul64(0x1817161514131211, 0x87c37b91114253d5) == 0xe1910ccaac1b8b25;
    assert Rotl64(0xe1910ccaac1b8b25, 31) == 0x560dc592f0c88665;
    assert Mul64(0x560dc592f0c88665, 0x4cf5ad432745937f) == 0x5e88441d34dfab1b;
    assert Mul64(0x001f1e1d1c1b1a19, 0x4cf5ad432745937f) == 0x8c831567592b4d67;
    assert Rotl64(0x8c831567592b4d67, 33) == 0xb2569acf19062ace;
    assert Mul64(0xb2569acf19062ace, 0x87c37b91114253d5) == 0x80470889891e6766;
  }

  lemma BeforeAvalanche()
    ensures XorPair(XorPair(Pair(0x002e91bd13fa132e, 0xdb9d6c92e345e433),
                            ScramblePair(Pair(0x1817161514131211, 0x001f1e1d1c1b1a19))), Same(31))
         == Pair(0x5ea6d5a02725b82a, 0x5bda641b6a5b834a)
  {
    TailScramble();
    assert Xor64(0x002e91bd13fa132e, 0x5e88441d34dfab1b) == 0x5ea6d5a02725b835;
    assert Xor64(0x5ea6d5a02725b835, 31) == 0x5ea6d5a02725b82a;
    assert Xor64(0xdb9d6c92e345e433, 0x80470889891e6766) == 0x5bda641b6a5b8355;
    assert Xor64(0x5bda641b6a5b8355, 31) == 0x5bda641b6a5b834a;
  }

  lemma SpreadFirst()
    ensures Spread(Pair(0x5ea6d5a02725b82a, 0x5bda641b6a5b834a))
         == Pair(0xba8139bb91813b74, 0x165b9dd6fbdcbebe)
  {
    assert Add64(0x5ea6d5a02725b82a, 0x5bda641b6a5b834a) == 0xba8139bb91813b74;
    assert Add64(0x5bda641b6a5b834a, 0xba8139bb91813b74) == 0x165b9dd6fbdcbebe;
  }

  lemma FmixFirst()
    ensures Fmix64(0xba8139bb91813b74) == 0x567dac32859e79af
  {
    assert XorShift64(0xba8139bb91813b74, 33) == 0xba8139bbccc1a7a9;
    assert Mul64(0xba8139bbccc1a7a9, 0xff51afd7ed558ccd) == 0xc8b189cffee0ae55;
    assert XorShift64(0xc8b189cffee0ae55, 33) == 0xc8b189cf9ab86ab2;
    assert Mul64(0xc8b189cf9ab86ab2, 0xc4ceb9fe1a85ec53) == 0x567dac32aea0afb6;
    assert XorShift64(0x567dac32aea0afb6, 33) == 0x567dac32859e79af;
  }

  lemma FmixSecond()
    ensures Fmix64(0x165b9dd6fbdcbebe) == 0x8614a123e01e30c3
  {
    assert XorShift64(0x165b9dd6fbdcbebe, 33) == 0x165b9dd6f0f17055;
    assert Mul64(0x165b9dd6f0f17055, 0xff51afd7ed558ccd) == 0x0390e86ef7fe7011;
    assert XorShift64(0x0390e86ef7fe7011, 33) == 0x0390e86ef6360426;
    assert Mul64(0x0390e86ef6360426, 0xc4ceb9fe1a85ec53) == 0x8614a123a3146052;
    assert XorShift64(0x8614a123a3146052, 33) == 0x8614a123e01e30c3;
  }

  lemma SpreadSecond()
    ensures Spread(Pair(0x567dac32859e79af, 0x8614a123e01e30c3))
         == Pair(0xdc924d5665bcaa72, 0x62a6ee7a45dadb35)
  {
    assert Add64(0x567dac32859e79af, 0x8614a123e01e30c3) == 0xdc924d5665bcaa72;
    assert Add64(0x8614a123e01e30c3, 0xdc924d5665bcaa72) == 0x62a6ee7a45dadb35;
  }

  lemma LastSteps()
    ensures Finish(Pair(0x002e91bd13fa132e, 0xdb9d6c92e345e433), Pair(0x1817161514131211, 0x001f1e1d1c1b1a19), 31)
         == Pair(0xdc924d5665bcaa72, 0x62a6ee7a45dadb35)
  {
    BeforeAvalanche();
    SpreadFirst();
    FmixFirst();
    FmixSecond();
    SpreadSecond();
  }

  lemma FirstBytes(key: seq<bv8>)
    requires key == BLOCK + REST
    ensures |key| == 31
    ensures key[0] == 1 && key[1] == 2 && key[2] == 3 && key[3] == 4
    ensures key[4] == 5 && key[5] == 6 && key[6] == 7 && key[7] == 8
    ensures key[8] == 9 && key[9] == 10 && key[10] == 11 && key[11] == 12
    ensures key[12] == 13 && key[13] == 14 && key[14] == 15 && key[15] == 16
  {
    assert key[..16] == BLOCK;
  }

  lemma LastBytes(key: seq<bv8>)
    requires key == BLOCK + REST
    ensures |key| == 31
    ensures key[16] == 17 && key[17] == 18 && key[18] == 19 && key[19] == 20
    ensures key[20] == 21 && key[21] == 22 && key[22] == 23 && key[23] == 24
    ensures key[24] == 25 && key[25] == 26 && key[26] == 27 && key[27] == 28
    ensures key[28] == 29 && key[29] == 30 && key[30] == 31
  {
    assert key[16..] == REST;
  }

  lemma BlockWords(key: seq<bv8>)
    requires key == BLOCK + REST
    ensures WordsAt(key, 0) == Pair(0x0807060504030201, 0x100f0e0d0c0b0a09)
  {
    FirstBytes(key);
    assert Pack32(1, 2, 3, 4) == 0x04030201;
    assert Pack32(5, 6, 7, 8) == 0x08070605;
    assert Pack32(9, 10, 11, 12) == 0x0c0b0a09;
    assert Pack32(13, 14, 15, 16) == 0x100f0e0d;
  }

  lemma TailWords(key: seq<bv8>)
    requires key == BLOCK + REST
    ensures WordsAt(key, 16) == Pair(0x1817161514131211, 0x001f1e1d1c1b1a19)
  {
    LastBytes(key);
    assert Pack32(17, 18, 19, 20) == 0x14131211;
    assert Pack32(21, 22, 23, 24) == 0x18171615;
    assert Pack32(25, 26, 27, 28) == 0x1c1b1a19;
    assert Pack32(29, 30, 31, 0) == 0x001f1e1d;
  }

  lemma OneBlock(key: seq<bv8>, seed: bv64, block: Pair)
    requires |key| == 31 && WordsAt(key, 0) == block
    ensures Fold(Step, Same(seed), Blocks(key)) == Step(Same(seed), block)
  {
    assert Blocks(key) == [block];
    assert [block][..0] == [] && [block][..1] == [block];
    FoldSnoc(Step, Same(seed), [block], 0);
  }

  lemma TailAndLength(key: seq<bv8>)
    requires |key| == 31
    ensures Tail(key) == WordsAt(key, 16) && |key| as bv64 == 31
  {}

  lemma DigestOfWords(key: seq<bv8>)
    requires |key| == 31
    requires WordsAt(key, 0) == Pair(0x0807060504030201, 0x100f0e0d0c0b0a09)
    requires WordsAt(key, 16) == Pair(0x1817161514131211, 0x001f1e1d1c1b1a19)
    ensures Hash(key, 0x9747b28c) == Pair(0xdc924d5665bcaa72, 0x62a6ee7a45dadb35)
  {
    TailAndLength(key);
    OneBlock(key, 0x9747b28c, Pair(0x0807060504030201, 0x100f0e0d0c0b0a09));
    FirstBlock();
    LastSteps();
    HashParts(key, 0x9747b28c, Pair(0x002e91bd13fa132e, 0xdb9d6c92e345e433),
              Pair(0x1817161514131211, 0x001f1e1d1c1b1a19), 31);
  }

  lemma KnownDigest(key: seq<bv8>)
    requires key == BLOCK + REST
    ensures Hash(key, 0x9747b28c) == Pair(0xdc924d5665bcaa72, 0x62a6ee7a45dadb35)
  {
    BlockWords(key);
    TailWords(key);
    DigestOfWords(key);
  }
}
