/** SHA-256 as FIPS 180-4 defines it (sections 4.1.2, 4.2.2, 5.1.1, 5.2.1, 5.3.3 and 6.2), on bytes. */
module Sha256Spec {

  type Byte = bv8
  type Word = bv32

  /** The eight working variables, or the eight hash words. */
  datatype Words8 = Words8(a: Word, b: Word, c: Word, d: Word, e: Word, f: Word, g: Word, h: Word)

  const K0: seq<Word> := [0x428a2f98, 0x71374491, 0xb5c0fbcf, 0xe9b5dba5, 0x3956c25b, 0x59f111f1, 0x923f82a4, 0xab1c5ed5]
  const K1: seq<Word> := [0xd807aa98, 0x12835b01, 0x243185be, 0x550c7dc3, 0x72be5d74, 0x80deb1fe, 0x9bdc06a7, 0xc19bf174]
  const K2: seq<Word> := [0xe49b69c1, 0xefbe4786, 0x0fc19dc6, 0x240ca1cc, 0x2de92c6f, 0x4a7484aa, 0x5cb0a9dc, 0x76f988da]
  const K3: seq<Word> := [0x983e5152, 0xa831c66d, 0xb00327c8, 0xbf597fc7, 0xc6e00bf3, 0xd5a79147, 0x06ca6351, 0x14292967]
  const K4: seq<Word> := [0x27b70a85, 0x2e1b2138, 0x4d2c6dfc, 0x53380d13, 0x650a7354, 0x766a0abb, 0x81c2c92e, 0x92722c85]
  const K5: seq<Word> := [0xa2bfe8a1, 0xa81a664b, 0xc24b8b70, 0xc76c51a3, 0xd192e819, 0xd6990624, 0xf40e3585, 0x106aa070]
  const K6: seq<Word> := [0x19a4c116, 0x1e376c08, 0x2748774c, 0x34b0bcb5, 0x391c0cb3, 0x4ed8aa4a, 0x5b9cca4f, 0x682e6ff3]
  const K7: seq<Word> := [0x748f82ee, 0x78a5636f, 0x84c87814, 0x8cc70208, 0x90befffa, 0xa4506ceb, 0xbef9a3f7, 0xc67178f2]

  /** The 64 round constants. */
  const K: seq<Word> := K0 + K1 + K2 + K3 + K4 + K5 + K6 + K7

  const IV := Words8(0x6a09e667, 0xbb67ae85, 0x3c6ef372, 0xa54ff53a, 0x510e527f, 0x9b05688c, 0x1f83d9ab, 0x5be0cd19)

  // ---- Functions (section 4.1.2) ----

  /** Rotations to the right. */
  function Rotr2(x: Word): Word { (x >> 2) | (x << 30) }
  function Rotr6(x: Word): Word { (x >> 6) | (x << 26) }
  function Rotr7(x: Word): Word { (x >> 7) | (x << 25) }
  function Rotr11(x: Word): Word { (x >> 11) | (x << 21) }
  function Rotr13(x: Word): Word { (x >> 13) | (x << 19) }
  function Rotr17(x: Word): Word { (x >> 17) | (x << 15) }
  function Rotr18(x: Word): Word { (x >> 18) | (x << 14) }
  function Rotr19(x: Word): Word { (x >> 19) | (x << 13) }
  function Rotr22(x: Word): Word { (x >> 22) | (x << 10) }
  function Rotr25(x: Word): Word { (x >> 25) | (x << 7) }

  /** Addition modulo 2^32. */
  function Plus(x: Word, y: Word): Word { x + y }

  function Ch(x: Word, y: Word, z: Word): Word { (x & y) ^ (!x & z) }

  function Maj(x: Word, y: Word, z: Word): Word { (x & y) ^ (x & z) ^ (y & z) }

  /** The sum of three words without carries. */
  function Parity(x: Word, y: Word, z: Word): Word { x ^ y ^ z }

  function Shr3(x: Word): Word { x >> 3 }

  function Shr10(x: Word): Word { x >> 10 }

  function BigSigma0(x: Word): Word { Parity(Rotr2(x), Rotr13(x), Rotr22(x)) }

  function BigSigma1(x: Word): Word { Parity(Rotr6(x), Rotr11(x), Rotr25(x)) }

  function SmallSigma0(x: Word): Word { Parity(Rotr7(x), Rotr18(x), Shr3(x)) }

  function SmallSigma1(x: Word): Word { Parity(Rotr17(x), Rotr19(x), Shr10(x)) }

  // ---- Hash computation (section 6.2.2) ----

  /** Four bytes as a big-endian word. */
  function BigEndian(b0: Byte, b1: Byte, b2: Byte, b3: Byte): Word {
    ((b0 as bv32) << 24) | ((b1 as bv32) << 16) | ((b2 as bv32) << 8) | (b3 as bv32)
  }

  /** Word t of a block of 64 bytes. */
  function MessageWord(block: seq<Byte>, t: nat): Word
    requires |block| == 64 && t < 16
  {
    BigEndian(block[4 * t], block[4 * t + 1], block[4 * t + 2], block[4 * t + 3])
  }

  /** A later word of the schedule from the words 2, 7, 15 and 16 places before it. */
  function Extend(w2: Word, w7: Word, w15: Word, w16: Word): Word {
    Plus(Plus(Plus(SmallSigma1(w2), w7), SmallSigma0(w15)), w16)
  }

  /** Word t of the message schedule. */
  function Schedule(block: seq<Byte>, t: nat): Word
    requires |block| == 64
  {
    if t < 16 then MessageWord(block, t)
    else
      Extend(Schedule(block, t - 2), Schedule(block, t - 7), Schedule(block, t - 15), Schedule(block, t - 16))
  }

  function Round(v: Words8, k: Word, w: Word): Words8 {
    var t1 := Plus(Plus(Plus(Plus(v.h, BigSigma1(v.e)), Ch(v.e, v.f, v.g)), k), w);
    var t2 := Plus(BigSigma0(v.a), Maj(v.a, v.b, v.c));
    Words8(Plus(t1, t2), v.a, v.b, v.c, Plus(v.d, t1), v.e, v.f, v.g)
  }

  /** The working variables after the first t rounds. */
  function Rounds(v: Words8, block: seq<Byte>, t: nat): Words8
    requires |block| == 64 && t <= 64
  {
    if t == 0 then v else Round(Rounds(v, block, t - 1), K[t - 1], Schedule(block, t - 1))
  }

  function Add8(x: Words8, y: Words8): Words8 {
    Words8(Plus(x.a, y.a), Plus(x.b, y.b), Plus(x.c, y.c), Plus(x.d, y.d),
           Plus(x.e, y.e), Plus(x.f, y.f), Plus(x.g, y.g), Plus(x.h, y.h))
  }

  function Compress(hash: Words8, block: seq<Byte>): Words8
    requires |block| == 64
  {
    Add8(hash, Rounds(hash, block, 64))
  }

  lemma OneBlockLess(n: nat)
    requires n > 0 && n % 64 == 0
    ensures n >= 64 && (n - 64) % 64 == 0
  {
    assert n == 64 * (n / 64);
    assert n - 64 == 64 * (n / 64 - 1);
  }

  /** The hash words after absorbing whole blocks. */
  function Absorb(hash: Words8, bytes: seq<Byte>): Words8
    requires |bytes| % 64 == 0
    decreases |bytes|
  {
    if bytes == [] then hash else
    OneBlockLess(|bytes|);
    Absorb(Compress(hash, bytes[..64]), bytes[64..])
  }

  // ---- Padding (section 5.1.1) ----

  /** How many zero bytes follow the byte 0x80. */
  function ZeroCount(n: nat): nat {
    (119 - n % 64) % 64
  }

  /** It is the least number that leaves room for exactly the length in the last block. */
  lemma ZeroCountIsLeast(n: nat, k: nat)
    ensures (n + 1 + ZeroCount(n)) % 64 == 56
    ensures (n + 1 + k) % 64 == 56 ==> ZeroCount(n) <= k
  {
    var r, q := n % 64, n / 64;
    assert n == 64 * q + r;
    if r <= 55 {
      assert ZeroCount(n) == 55 - r;
    } else {
      assert ZeroCount(n) == 119 - r;
    }
  }

  lemma PaddedLength(n: nat, zeros: nat)
    requires zeros == ZeroCount(n)
    ensures (n + (1 + zeros + 8)) % 64 == 0
  {
    var r, q := n % 64, n / 64;
    assert n == 64 * q + r;
    if r <= 55 {
      assert zeros == 55 - r;
      assert n + (1 + zeros + 8) == 64 * (q + 1);
    } else {
      assert zeros == 119 - r;
      assert n + (1 + zeros + 8) == 64 * (q + 2);
    }
  }

  function Zeros(k: nat): (s: seq<Byte>)
    ensures |s| == k
  {
    seq(k, _ => 0)
  }

  /** The bytes of a 64-bit number, from the least significant one. */
  function Byte0(x: bv64): Byte { (x & 0xff) as bv8 }
  function Byte1(x: bv64): Byte { ((x >> 8) & 0xff) as bv8 }
  function Byte2(x: bv64): Byte { ((x >> 16) & 0xff) as bv8 }
  function Byte3(x: bv64): Byte { ((x >> 24) & 0xff) as bv8 }
  function Byte4(x: bv64): Byte { ((x >> 32) & 0xff) as bv8 }
  function Byte5(x: bv64): Byte { ((x >> 40) & 0xff) as bv8 }
  function Byte6(x: bv64): Byte { ((x >> 48) & 0xff) as bv8 }
  function Byte7(x: bv64): Byte { ((x >> 56) & 0xff) as bv8 }

  /** A 64-bit number, most significant byte first. */
  function BigEndian64(x: bv64): (s: seq<Byte>)
    ensures |s| == 8
  {
    [Byte7(x), Byte6(x), Byte5(x), Byte4(x), Byte3(x), Byte2(x), Byte1(x), Byte0(x)]
  }

  const TWO64: nat := 0x1_0000_0000_0000_0000

  /** The length of a message in bits. FIPS 180-4 allows less than 2^64 of them. */
  function BitLength(n: nat): bv64 {
    ((8 * n) % TWO64) as bv64
  }

  function Padding(n: nat): (s: seq<Byte>)
    ensures (n + |s|) % 64 == 0
  {
    PaddedLength(n, ZeroCount(n));
    [0x80] + Zeros(ZeroCount(n)) + BigEndian64(BitLength(n))
  }

  function Digest(message: seq<Byte>): Words8 {
    Absorb(IV, message + Padding(|message|))
  }

  /** A word, most significant byte first. */
  function WordBytes(w: Word): (s: seq<Byte>)
    ensures |s| == 4
  {
    [((w >> 24) & 0xff) as bv8, ((w >> 16) & 0xff) as bv8, ((w >> 8) & 0xff) as bv8, (w & 0xff) as bv8]
  }

  /** The 32 bytes of the digest. */
  function DigestBytes(message: seq<Byte>): seq<Byte> {
    var d := Digest(message);
    WordBytes(d.a) + WordBytes(d.b) + WordBytes(d.c) + WordBytes(d.d) +
    WordBytes(d.e) + WordBytes(d.f) + WordBytes(d.g) + WordBytes(d.h)
  }

  /** Absorbing in two parts is absorbing once. */
  lemma {:induction false} AbsorbConcat(hash: Words8, a: seq<Byte>, b: seq<Byte>)
    requires |a| % 64 == 0 && |b| % 64 == 0
    ensures |a + b| % 64 == 0 && Absorb(hash, a + b) == Absorb(Absorb(hash, a), b)
    decreases |a|
  {
    hide Compress;
    if a == [] {
      assert a + b == b;
    } else {
      assert (a + b)[..64] == a[..64] && (a + b)[64..] == a[64..] + b;
      AbsorbConcat(Compress(hash, a[..64]), a[64..], b);
    }
  }

  lemma AbsorbBlock(hash: Words8, a: seq<Byte>, block: seq<Byte>)
    requires |a| % 64 == 0 && |block| == 64
    ensures |a + block| % 64 == 0 && Absorb(hash, a + block) == Compress(Absorb(hash, a), block)
  {
    hide Compress;
    AbsorbConcat(hash, a, block);
    assert block[..64] == block && block[64..] == [];
    assert Absorb(Absorb(hash, a), block) == Absorb(Compress(Absorb(hash, a), block), []);
  }

  /** Padding loses nothing: different messages stay different. */
  lemma PaddingIsInjective(a: seq<Byte>, b: seq<Byte>)
    requires a + Padding(|a|) == b + Padding(|b|)
    ensures a == b
  {
    LongerDiffers(a, b);
    LongerDiffers(b, a);
    assert a == (a + Padding(|a|))[..|a|] && b == (b + Padding(|b|))[..|b|];
  }

  /** Where the longer message has its marker byte, the padding of the shorter one has a zero. */
  lemma LongerDiffers(a: seq<Byte>, b: seq<Byte>)
    ensures |a| < |b| ==> a + Padding(|a|) != b + Padding(|b|)
  {
    hide BigEndian64, BitLength;
    var p, q := a + Padding(|a|), b + Padding(|b|);
    assert |p| == |a| + 9 + ZeroCount(|a|) && |q| == |b| + 9 + ZeroCount(|b|);
    if |a| < |b| && |p| == |q| {
      assert q[|b|] == Padding(|b|)[0] == 0x80;
      assert p[|b|] == Padding(|a|)[|b| - |a|] == Zeros(ZeroCount(|a|))[|b| - |a| - 1] == 0;
    }
  }
}
