/** The word operations MurmurHash3 is built from, and their inverses. Each operation
    has a name of its own, so that a composition is inverted by naming the inverse of
    every part and never by arithmetic on whole words. */
module MurmurMix {

  // ---------- 32-bit words

  function Rotl32(x: bv32, r: bv6): bv32
    requires r <= 32
  {
    (x << r) | (x >> (32 - r))
  }

  function XorShift32(x: bv32, r: bv6): bv32
    requires r <= 32
  {
    x ^ (x >> r)
  }

  function Mul32(x: bv32, c: bv32): bv32 { x * c }
  function Add32(x: bv32, y: bv32): bv32 { x + y }
  function Sub32(x: bv32, y: bv32): bv32 { x - y }
  function Xor32(x: bv32, y: bv32): bv32 { x ^ y }

  lemma Xor32Inverse(x: bv32, y: bv32)
    ensures Xor32(Xor32(x, y), y) == x
    ensures Xor32(x, Xor32(x, y)) == y
  {
    assert Xor32(x ^ y, y) == x;
    assert Xor32(x, x ^ y) == y;
  }

  lemma Add32Inverse(x: bv32, y: bv32)
    ensures Sub32(Add32(x, y), y) == x
    ensures Add32(Sub32(x, y), y) == x
  {
    assert Sub32(x + y, y) == x;
    assert Add32(x - y, y) == x;
  }

  lemma Mul32ByFive(x: bv32)
    ensures Mul32(Mul32(x, 5), 0xcccccccd) == x
    ensures Mul32(Mul32(x, 0xcccccccd), 5) == x
  {
    Mul32FiveUndone(x);
    Mul32FiveRedone(x);
  }

  lemma Mul32FiveUndone(x: bv32)
    ensures Mul32(Mul32(x, 5), 0xcccccccd) == x
  {
    assert Mul32(x * 5, 0xcccccccd) == x;
    assert Mul32(x, 5) == x * 5;
  }

  lemma Mul32FiveRedone(x: bv32)
    ensures Mul32(Mul32(x, 0xcccccccd), 5) == x
  {
    assert Mul32(x * 0xcccccccd, 5) == x;
    assert Mul32(x, 0xcccccccd) == x * 0xcccccccd;
  }

  function Unxor13(x: bv32): bv32 { x ^ (x >> 13) ^ (x >> 26) }

  /** fmix32 as one composition of its five steps. */
  function Fmix32(h: bv32): bv32 {
    XorShift32(Mul32(XorShift32(Mul32(XorShift32(h, 16), 0x85ebca6b), 13), 0xc2b2ae35), 16)
  }

  function Unfmix32(h: bv32): bv32 {
    XorShift32(Mul32(Unxor13(Mul32(XorShift32(h, 16), 0x7ed1b41d)), 0xa5cb9243), 16)
  }

  lemma XorShift16Inverse(x: bv32)
    ensures XorShift32(XorShift32(x, 16), 16) == x
  {
    assert XorShift32(x ^ (x >> 16), 16) == x;
  }

  lemma XorShift13Inverse(x: bv32)
    ensures Unxor13(XorShift32(x, 13)) == x
    ensures XorShift32(Unxor13(x), 13) == x
  {
    assert Unxor13(x ^ (x >> 13)) == x;
    assert XorShift32(x ^ (x >> 13) ^ (x >> 26), 13) == x;
  }

  lemma FmixMultipliers32(x: bv32)
    ensures Mul32(Mul32(x, 0x85ebca6b), 0xa5cb9243) == x
    ensures Mul32(Mul32(x, 0xa5cb9243), 0x85ebca6b) == x
    ensures Mul32(Mul32(x, 0xc2b2ae35), 0x7ed1b41d) == x
    ensures Mul32(Mul32(x, 0x7ed1b41d), 0xc2b2ae35) == x
  {
    assert Mul32(x * 0x85ebca6b, 0xa5cb9243) == x;
    assert Mul32(x * 0xa5cb9243, 0x85ebca6b) == x;
    assert Mul32(x * 0xc2b2ae35, 0x7ed1b41d) == x;
    assert Mul32(x * 0x7ed1b41d, 0xc2b2ae35) == x;
  }

  /** fmix32 is a bijection on 32-bit words. */
  lemma Fmix32Inverse(h: bv32)
    ensures Unfmix32(Fmix32(h)) == h
    ensures Fmix32(Unfmix32(h)) == h
  {
    Fmix32Undone(h);
    Fmix32Redone(h);
  }

  lemma Fmix32Undone(h: bv32)
    ensures Unfmix32(Fmix32(h)) == h
  {
    var a := XorShift32(h, 16);
    var b := Mul32(a, 0x85ebca6b);
    var c := XorShift32(b, 13);
    XorShift16Inverse(h);
    FmixMultipliers32(a);
    XorShift13Inverse(b);
    FmixMultipliers32(c);
    XorShift16Inverse(Mul32(c, 0xc2b2ae35));
  }

  lemma Fmix32Redone(h: bv32)
    ensures Fmix32(Unfmix32(h)) == h
  {
    var a := XorShift32(h, 16);
    var b := Mul32(a, 0x7ed1b41d);
    var c := Unxor13(b);
    XorShift16Inverse(h);
    FmixMultipliers32(a);
    XorShift13Inverse(b);
    FmixMultipliers32(c);
    XorShift16Inverse(Mul32(c, 0xa5cb9243));
  }

  /** fmix32 the way the code runs it, one reassignment at a time. */
  method Fmix32InPlace(h0: bv32) returns (h: bv32)
    ensures h == Fmix32(h0)
  {
    h := h0;
    h := XorShift32(h, 16);
    h := Mul32(h, 0x85ebca6b);
    h := XorShift32(h, 13);
    h := Mul32(h, 0xc2b2ae35);
    h := XorShift32(h, 16);
  }

  // ---------- 64-bit words

  function Rotl64(x: bv64, r: bv7): bv64
    requires r <= 64
  {
    (x << r) | (x >> (64 - r))
  }

  function XorShift64(x: bv64, r: bv7): bv64
    requires r <= 64
  {
    x ^ (x >> r)
  }

  function Mul64(x: bv64, c: bv64): bv64 { x * c }
  function Add64(x: bv64, y: bv64): bv64 { x + y }
  function Sub64(x: bv64, y: bv64): bv64 { x - y }
  function Xor64(x: bv64, y: bv64): bv64 { x ^ y }

  lemma Xor64Inverse(x: bv64, y: bv64)
    ensures Xor64(Xor64(x, y), y) == x
    ensures Xor64(x, Xor64(x, y)) == y
  {
    assert Xor64(x ^ y, y) == x;
    assert Xor64(x, x ^ y) == y;
  }

  lemma Add64Inverse(x: bv64, y: bv64)
    ensures Sub64(Add64(x, y), y) == x
    ensures Add64(Sub64(x, y), y) == x
  {
    assert Sub64(x + y, y) == x;
    assert Add64(x - y, y) == x;
  }

  lemma Mul64ByFive(x: bv64)
    ensures Mul64(Mul64(x, 5), 0xcccccccccccccccd) == x
    ensures Mul64(Mul64(x, 0xcccccccccccccccd), 5) == x
  {
    Mul64FiveUndone(x);
    Mul64FiveRedone(x);
  }

  lemma Mul64FiveUndone(x: bv64)
    ensures Mul64(Mul64(x, 5), 0xcccccccccccccccd) == x
  {
    assert Mul64(x * 5, 0xcccccccccccccccd) == x;
    assert Mul64(x, 5) == x * 5;
  }

  lemma Mul64FiveRedone(x: bv64)
    ensures Mul64(Mul64(x, 0xcccccccccccccccd), 5) == x
  {
    assert Mul64(x * 0xcccccccccccccccd, 5) == x;
    assert Mul64(x, 0xcccccccccccccccd) == x * 0xcccccccccccccccd;
  }

  function Fmix64(k: bv64): bv64 {
    XorShift64(Mul64(XorShift64(Mul64(XorShift64(k, 33), 0xff51afd7ed558ccd), 33), 0xc4ceb9fe1a85ec53), 33)
  }

  function Unfmix64(k: bv64): bv64 {
    XorShift64(Mul64(XorShift64(Mul64(XorShift64(k, 33), 0x9cb4b2f8129337db), 33), 0x4f74430c22a54005), 33)
  }

  lemma XorShift33Inverse(x: bv64)
    ensures XorShift64(XorShift64(x, 33), 33) == x
  {
    assert XorShift64(x ^ (x >> 33), 33) == x;
  }

  lemma FmixMultipliers64(x: bv64)
    ensures Mul64(Mul64(x, 0xff51afd7ed558ccd), 0x4f74430c22a54005) == x
    ensures Mul64(Mul64(x, 0x4f74430c22a54005), 0xff51afd7ed558ccd) == x
    ensures Mul64(Mul64(x, 0xc4ceb9fe1a85ec53), 0x9cb4b2f8129337db) == x
    ensures Mul64(Mul64(x, 0x9cb4b2f8129337db), 0xc4ceb9fe1a85ec53) == x
  {
    assert Mul64(x * 0xff51afd7ed558ccd, 0x4f74430c22a54005) == x;
    assert Mul64(x * 0x4f74430c22a54005, 0xff51afd7ed558ccd) == x;
    assert Mul64(x * 0xc4ceb9fe1a85ec53, 0x9cb4b2f8129337db) == x;
    assert Mul64(x * 0x9cb4b2f8129337db, 0xc4ceb9fe1a85ec53) == x;
  }

  /** fmix64 is a bijection on 64-bit words. */
  lemma Fmix64Inverse(k: bv64)
    ensures Unfmix64(Fmix64(k)) == k
    ensures Fmix64(Unfmix64(k)) == k
  {
    Fmix64Undone(k);
    Fmix64Redone(k);
  }

  lemma Fmix64Undone(k: bv64)
    ensures Unfmix64(Fmix64(k)) == k
  {
    var a := XorShift64(k, 33);
    var b := Mul64(a, 0xff51afd7ed558ccd);
    var c := XorShift64(b, 33);
    XorShift33Inverse(k);
    FmixMultipliers64(a);
    XorShift33Inverse(b);
    FmixMultipliers64(c);
    XorShift33Inverse(Mul64(c, 0xc4ceb9fe1a85ec53));
  }

  lemma Fmix64Redone(k: bv64)
    ensures Fmix64(Unfmix64(k)) == k
  {
    var a := XorShift64(k, 33);
    var b := Mul64(a, 0x9cb4b2f8129337db);
    var c := XorShift64(b, 33);
    XorShift33Inverse(k);
    FmixMultipliers64(a);
    XorShift33Inverse(b);
    FmixMultipliers64(c);
    XorShift33Inverse(Mul64(c, 0x4f74430c22a54005));
  }

  method Fmix64InPlace(k0: bv64) returns (k: bv64)
    ensures k == Fmix64(k0)
  {
    k := k0;
    k := XorShift64(k, 33);
    k := Mul64(k, 0xff51afd7ed558ccd);
    k := XorShift64(k, 33);
    k := Mul64(k, 0xc4ceb9fe1a85ec53);
    k := XorShift64(k, 33);
  }
}
