/** The functions of SHA-256 bit by bit (section 4.1.2 of FIPS 180-4). Bit 0 is the lowest. */
module Sha256Bits {
  import opened Sha256Spec

  function RotateOne(x: Word): Word { (x >> 1) | (x << 31) }

  function Rotate(x: Word, n: nat): Word
    decreases n
  {
    if n == 0 then x else Rotate(RotateOne(x), n - 1)
  }

  predicate LowBit(x: Word) { x & 1 != 0 }

  /** Bit j of a word is the one that j rotations to the right bring to the lowest place. */
  predicate BitOf(x: Word, j: nat) { LowBit(Rotate(x, j)) }

  lemma {:induction false} RotateAgain(x: Word, m: nat, n: nat)
    ensures Rotate(Rotate(x, m), n) == Rotate(x, m + n)
    decreases m
  {
    hide RotateOne;
    if m > 0 {
      RotateAgain(RotateOne(x), m - 1, n);
    }
  }

  // ---- Rotations by powers of two, and by the numbers of the standard ----

  function Rotr4(x: Word): Word { (x >> 4) | (x << 28) }
  function Rotr8(x: Word): Word { (x >> 8) | (x << 24) }
  function Rotr16(x: Word): Word { (x >> 16) | (x << 16) }

  lemma Meet2(x: Word) ensures RotateOne(RotateOne(x)) == Rotr2(x) { }
  lemma Meet4(x: Word) ensures Rotr2(Rotr2(x)) == Rotr4(x) { }
  lemma Meet8(x: Word) ensures Rotr4(Rotr4(x)) == Rotr8(x) { }
  lemma Meet16(x: Word) ensures Rotr8(Rotr8(x)) == Rotr16(x) { }
  lemma Meet32(x: Word) ensures Rotr16(Rotr16(x)) == x { }

  lemma By1(x: Word)
    ensures Rotate(x, 1) == RotateOne(x)
  {
    hide RotateOne;
    assert Rotate(RotateOne(x), 0) == RotateOne(x);
  }

  lemma By2(x: Word)
    ensures Rotate(x, 2) == Rotr2(x)
  {
    hide *;
    RotateAgain(x, 1, 1);
    By1(x);
    By1(Rotate(x, 1));
    Meet2(x);
  }

  lemma By4(x: Word)
    ensures Rotate(x, 4) == Rotr4(x)
  {
    hide *;
    RotateAgain(x, 2, 2);
    By2(x);
    By2(Rotate(x, 2));
    Meet4(x);
  }

  lemma By8(x: Word)
    ensures Rotate(x, 8) == Rotr8(x)
  {
    hide *;
    RotateAgain(x, 4, 4);
    By4(x);
    By4(Rotate(x, 4));
    Meet8(x);
  }

  lemma By16(x: Word)
    ensures Rotate(x, 16) == Rotr16(x)
  {
    hide *;
    RotateAgain(x, 8, 8);
    By8(x);
    By8(Rotate(x, 8));
    Meet16(x);
  }

  lemma By32(x: Word)
    ensures Rotate(x, 32) == x
  {
    hide *;
    RotateAgain(x, 16, 16);
    By16(x);
    By16(Rotate(x, 16));
    Meet32(x);
  }

  lemma Meet6(x: Word) ensures Rotr4(Rotr2(x)) == Rotr6(x) { }
  lemma Meet7(x: Word) ensures Rotr4(Rotr2(RotateOne(x))) == Rotr7(x) { }
  lemma Meet11(x: Word) ensures Rotr8(Rotr2(RotateOne(x))) == Rotr11(x) { }
  lemma Meet13(x: Word) ensures Rotr8(Rotr4(RotateOne(x))) == Rotr13(x) { }
  lemma Meet17(x: Word) ensures Rotr16(RotateOne(x)) == Rotr17(x) { }
  lemma Meet18(x: Word) ensures Rotr16(Rotr2(x)) == Rotr18(x) { }
  lemma Meet19(x: Word) ensures Rotr16(Rotr2(RotateOne(x))) == Rotr19(x) { }
  lemma Meet22(x: Word) ensures Rotr16(Rotr4(Rotr2(x))) == Rotr22(x) { }
  lemma Meet25(x: Word) ensures Rotr16(Rotr8(RotateOne(x))) == Rotr25(x) { }

  lemma By6(x: Word)
    ensures Rotate(x, 6) == Rotr6(x)
  {
    hide *;
    By2(x);
    RotateAgain(x, 2, 4);
    By4(Rotate(x, 2));
    Meet6(x);
  }

  lemma By7(x: Word)
    ensures Rotate(x, 7) == Rotr7(x)
  {
    hide *;
    By1(x);
    RotateAgain(x, 1, 2);
    By2(Rotate(x, 1));
    RotateAgain(x, 3, 4);
    By4(Rotate(x, 3));
    Meet7(x);
  }

  lemma By11(x: Word)
    ensures Rotate(x, 11) == Rotr11(x)
  {
    hide *;
    By1(x);
    RotateAgain(x, 1, 2);
    By2(Rotate(x, 1));
    RotateAgain(x, 3, 8);
    By8(Rotate(x, 3));
    Meet11(x);
  }

  lemma By13(x: Word)
    ensures Rotate(x, 13) == Rotr13(x)
  {
    hide *;
    By1(x);
    RotateAgain(x, 1, 4);
    By4(Rotate(x, 1));
    RotateAgain(x, 5, 8);
    By8(Rotate(x, 5));
    Meet13(x);
  }

  lemma By17(x: Word)
    ensures Rotate(x, 17) == Rotr17(x)
  {
    hide *;
    By1(x);
    RotateAgain(x, 1, 16);
    By16(Rotate(x, 1));
    Meet17(x);
  }

  lemma By18(x: Word)
    ensures Rotate(x, 18) == Rotr18(x)
  {
    hide *;
    By2(x);
    RotateAgain(x, 2, 16);
    By16(Rotate(x, 2));
    Meet18(x);
  }

  lemma By19(x: Word)
    ensures Rotate(x, 19) == Rotr19(x)
  {
    hide *;
    By1(x);
    RotateAgain(x, 1, 2);
    By2(Rotate(x, 1));
    RotateAgain(x, 3, 16);
    By16(Rotate(x, 3));
    Meet19(x);
  }

  lemma By22(x: Word)
    ensures Rotate(x, 22) == Rotr22(x)
  {
    hide *;
    By2(x);
    RotateAgain(x, 2, 4);
    By4(Rotate(x, 2));
    RotateAgain(x, 6, 16);
    By16(Rotate(x, 6));
    Meet22(x);
  }

  lemma By25(x: Word)
    ensures Rotate(x, 25) == Rotr25(x)
  {
    hide *;
    By1(x);
    RotateAgain(x, 1, 8);
    By8(Rotate(x, 1));
    RotateAgain(x, 9, 16);
    By16(Rotate(x, 9));
    Meet25(x);
  }

  /** Rotating moves the bits down, and the lowest ones to the top. */
  lemma RotatedBit(x: Word, n: nat, j: nat)
    requires j < 32 && n < 32
    ensures BitOf(Rotate(x, n), j) == BitOf(x, (j + n) % 32)
  {
    hide LowBit, Rotate;
    RotateAgain(x, n, j);
    if j + n >= 32 {
      RotateAgain(x, 32, j + n - 32);
      By32(x);
    }
  }

  // ---- Shifts ----

  function Both(x: Word, y: Word): Word { x & y }

  lemma Shift3(x: Word) ensures Shr3(x) == Both(RotateOne(Rotr2(x)), 0x1fff_ffff) { }
  lemma Shift10(x: Word) ensures Shr10(x) == Both(Rotr8(Rotr2(x)), 0x003f_ffff) { }

  lemma AndOne(x: Word, y: Word) ensures RotateOne(Both(x, y)) == Both(RotateOne(x), RotateOne(y)) { }
  lemma AndLow(x: Word, y: Word) ensures LowBit(Both(x, y)) == (LowBit(x) && LowBit(y)) { }

  lemma {:induction false} AndBit(x: Word, y: Word, j: nat)
    ensures BitOf(Both(x, y), j) == (BitOf(x, j) && BitOf(y, j))
    decreases j
  {
    hide RotateOne, LowBit, Both;
    if j == 0 {
      AndLow(x, y);
    } else {
      AndOne(x, y);
      AndBit(RotateOne(x), RotateOne(y), j - 1);
    }
  }

  /** From place j on, the first k places of all 32 hold a one and the others none. */
  predicate OnesFrom(x: Word, j: nat, k: nat)
    decreases 32 - j
  {
    j >= 32 || (LowBit(x) == (j < k) && OnesFrom(RotateOne(x), j + 1, k))
  }

  lemma {:induction false} OnesBit(x: Word, i: nat, j: nat, k: nat)
    requires OnesFrom(x, i, k) && i <= j < 32
    ensures BitOf(x, j - i) == (j < k)
    decreases j - i
  {
    hide RotateOne, LowBit;
    if i < j {
      OnesBit(RotateOne(x), i + 1, j, k);
    }
  }

  lemma OnesStep(x: Word, y: Word, j: nat, k: nat)
    requires RotateOne(x) == y && LowBit(x) == (j < k) && OnesFrom(y, j + 1, k)
    ensures OnesFrom(x, j, k)
  {
  }

  lemma Ones29()
    ensures OnesFrom(0x1fff_ffff, 0, 29)
  {
    hide OnesFrom;
    NoMore(0x1fffffff, 29);
    OnesStep(0x3ffffffe, 0x1fffffff, 31, 29);
    OnesStep(0x7ffffffc, 0x3ffffffe, 30, 29);
    OnesStep(0xfffffff8, 0x7ffffffc, 29, 29);
    OnesStep(0xfffffff1, 0xfffffff8, 28, 29);
    OnesStep(0xffffffe3, 0xfffffff1, 27, 29);
    OnesStep(0xffffffc7, 0xffffffe3, 26, 29);
    OnesStep(0xffffff8f, 0xffffffc7, 25, 29);
    OnesStep(0xffffff1f, 0xffffff8f, 24, 29);
    OnesStep(0xfffffe3f, 0xffffff1f, 23, 29);
    OnesStep(0xfffffc7f, 0xfffffe3f, 22, 29);
    OnesStep(0xfffff8ff, 0xfffffc7f, 21, 29);
    OnesStep(0xfffff1ff, 0xfffff8ff, 20, 29);
    OnesStep(0xffffe3ff, 0xfffff1ff, 19, 29);
    OnesStep(0xffffc7ff, 0xffffe3ff, 18, 29);
    OnesStep(0xffff8fff, 0xffffc7ff, 17, 29);
    OnesStep(0xffff1fff, 0xffff8fff, 16, 29);
    OnesStep(0xfffe3fff, 0xffff1fff, 15, 29);
    OnesStep(0xfffc7fff, 0xfffe3fff, 14, 29);
    OnesStep(0xfff8ffff, 0xfffc7fff, 13, 29);
    OnesStep(0xfff1ffff, 0xfff8ffff, 12, 29);
    OnesStep(0xffe3ffff, 0xfff1ffff, 11, 29);
    OnesStep(0xffc7ffff, 0xffe3ffff, 10, 29);
    OnesStep(0xff8fffff, 0xffc7ffff, 9, 29);
    OnesStep(0xff1fffff, 0xff8fffff, 8, 29);
    OnesStep(0xfe3fffff, 0xff1fffff, 7, 29);
    OnesStep(0xfc7fffff, 0xfe3fffff, 6, 29);
    OnesStep(0xf8ffffff, 0xfc7fffff, 5, 29);
    OnesStep(0xf1ffffff, 0xf8ffffff, 4, 29);
    OnesStep(0xe3ffffff, 0xf1ffffff, 3, 29);
    OnesStep(0xc7ffffff, 0xe3ffffff, 2, 29);
    OnesStep(0x8fffffff, 0xc7ffffff, 1, 29);
    OnesStep(0x1fffffff, 0x8fffffff, 0, 29);
  }

  lemma Ones22()
    ensures OnesFrom(0x003f_ffff, 0, 22)
  {
    hide OnesFrom;
    NoMore(0x003fffff, 22);
    OnesStep(0x007ffffe, 0x003fffff, 31, 22);
    OnesStep(0x00fffffc, 0x007ffffe, 30, 22);
    OnesStep(0x01fffff8, 0x00fffffc, 29, 22);
    OnesStep(0x03fffff0, 0x01fffff8, 28, 22);
    OnesStep(0x07ffffe0, 0x03fffff0, 27, 22);
    OnesStep(0x0fffffc0, 0x07ffffe0, 26, 22);
    OnesStep(0x1fffff80, 0x0fffffc0, 25, 22);
    OnesStep(0x3fffff00, 0x1fffff80, 24, 22);
    OnesStep(0x7ffffe00, 0x3fffff00, 23, 22);
    OnesStep(0xfffffc00, 0x7ffffe00, 22, 22);
    OnesStep(0xfffff801, 0xfffffc00, 21, 22);
    OnesStep(0xfffff003, 0xfffff801, 20, 22);
    OnesStep(0xffffe007, 0xfffff003, 19, 22);
    OnesStep(0xffffc00f, 0xffffe007, 18, 22);
    OnesStep(0xffff801f, 0xffffc00f, 17, 22);
    OnesStep(0xffff003f, 0xffff801f, 16, 22);
    OnesStep(0xfffe007f, 0xffff003f, 15, 22);
    OnesStep(0xfffc00ff, 0xfffe007f, 14, 22);
    OnesStep(0xfff801ff, 0xfffc00ff, 13, 22);
    OnesStep(0xfff003ff, 0xfff801ff, 12, 22);
    OnesStep(0xffe007ff, 0xfff003ff, 11, 22);
    OnesStep(0xffc00fff, 0xffe007ff, 10, 22);
    OnesStep(0xff801fff, 0xffc00fff, 9, 22);
    OnesStep(0xff003fff, 0xff801fff, 8, 22);
    OnesStep(0xfe007fff, 0xff003fff, 7, 22);
    OnesStep(0xfc00ffff, 0xfe007fff, 6, 22);
    OnesStep(0xf801ffff, 0xfc00ffff, 5, 22);
    OnesStep(0xf003ffff, 0xf801ffff, 4, 22);
    OnesStep(0xe007ffff, 0xf003ffff, 3, 22);
    OnesStep(0xc00fffff, 0xe007ffff, 2, 22);
    OnesStep(0x801fffff, 0xc00fffff, 1, 22);
    OnesStep(0x003fffff, 0x801fffff, 0, 22);
  }

  lemma NoMore(x: Word, k: nat)
    ensures OnesFrom(x, 32, k)
  {
  }

  lemma Shift3Bit(x: Word, j: nat)
    requires j < 32
    ensures BitOf(Shr3(x), j) == (j + 3 < 32 && BitOf(x, j + 3))
  {
    hide *;
    Shift3(x);
    By2(x);
    By1(Rotate(x, 2));
    RotateAgain(x, 2, 1);
    AndBit(Rotate(x, 3), 0x1fff_ffff, j);
    Ones29();
    OnesBit(0x1fff_ffff, 0, j, 29);
    RotatedBit(x, 3, j);
  }

  lemma Shift10Bit(x: Word, j: nat)
    requires j < 32
    ensures BitOf(Shr10(x), j) == (j + 10 < 32 && BitOf(x, j + 10))
  {
    hide *;
    Shift10(x);
    By2(x);
    By8(Rotate(x, 2));
    RotateAgain(x, 2, 8);
    AndBit(Rotate(x, 10), 0x003f_ffff, j);
    Ones22();
    OnesBit(0x003f_ffff, 0, j, 22);
    RotatedBit(x, 10, j);
  }

  // ---- The functions ----

  /** An odd number of the three. */
  predicate Odd(a: bool, b: bool, c: bool) { (a != b) != c }

  predicate Most(a: bool, b: bool, c: bool) { (a && b) || (a && c) || (b && c) }

  lemma ParityOne(x: Word, y: Word, z: Word) ensures RotateOne(Parity(x, y, z)) == Parity(RotateOne(x), RotateOne(y), RotateOne(z)) { }
  lemma ParityLow(x: Word, y: Word, z: Word) ensures LowBit(Parity(x, y, z)) == Odd(LowBit(x), LowBit(y), LowBit(z)) { }
  lemma ChOne(x: Word, y: Word, z: Word) ensures RotateOne(Ch(x, y, z)) == Ch(RotateOne(x), RotateOne(y), RotateOne(z)) { }
  lemma ChLow(x: Word, y: Word, z: Word) ensures LowBit(Ch(x, y, z)) == if LowBit(x) then LowBit(y) else LowBit(z) { }
  lemma MajOne(x: Word, y: Word, z: Word) ensures RotateOne(Maj(x, y, z)) == Maj(RotateOne(x), RotateOne(y), RotateOne(z)) { }
  lemma MajLow(x: Word, y: Word, z: Word) ensures LowBit(Maj(x, y, z)) == Most(LowBit(x), LowBit(y), LowBit(z)) { }

  /** The bits of a sum without carries. */
  lemma {:induction false} ParityBit(x: Word, y: Word, z: Word, j: nat)
    ensures BitOf(Parity(x, y, z), j) == Odd(BitOf(x, j), BitOf(y, j), BitOf(z, j))
    decreases j
  {
    hide RotateOne, LowBit, Parity, Ch, Maj, Odd, Most;
    if j == 0 {
      ParityLow(x, y, z);
    } else {
      ParityOne(x, y, z);
      ParityBit(RotateOne(x), RotateOne(y), RotateOne(z), j - 1);
    }
  }

  /** Ch takes the bit of y where x has one, and that of z where it has none. */
  lemma {:induction false} ChBit(x: Word, y: Word, z: Word, j: nat)
    ensures BitOf(Ch(x, y, z), j) == (if BitOf(x, j) then BitOf(y, j) else BitOf(z, j))
    decreases j
  {
    hide RotateOne, LowBit, Parity, Ch, Maj, Odd, Most;
    if j == 0 {
      ChLow(x, y, z);
    } else {
      ChOne(x, y, z);
      ChBit(RotateOne(x), RotateOne(y), RotateOne(z), j - 1);
    }
  }

  /** Maj has a bit where two at least of the three have it. */
  lemma {:induction false} MajBit(x: Word, y: Word, z: Word, j: nat)
    ensures BitOf(Maj(x, y, z), j) == Most(BitOf(x, j), BitOf(y, j), BitOf(z, j))
    decreases j
  {
    hide RotateOne, LowBit, Parity, Ch, Maj, Odd, Most;
    if j == 0 {
      MajLow(x, y, z);
    } else {
      MajOne(x, y, z);
      MajBit(RotateOne(x), RotateOne(y), RotateOne(z), j - 1);
    }
  }

  lemma BigSigma0Bit(x: Word, j: nat)
    requires j < 32
    ensures BitOf(BigSigma0(x), j) == Odd(BitOf(x, (j + 2) % 32), BitOf(x, (j + 13) % 32), BitOf(x, (j + 22) % 32))
  {
    hide BitOf, Odd, Parity, Rotate, Rotr2, Rotr13, Rotr22;
    ParityBit(Rotr2(x), Rotr13(x), Rotr22(x), j);
    By2(x);
    RotatedBit(x, 2, j);
    By13(x);
    RotatedBit(x, 13, j);
    By22(x);
    RotatedBit(x, 22, j);
  }

  lemma BigSigma1Bit(x: Word, j: nat)
    requires j < 32
    ensures BitOf(BigSigma1(x), j) == Odd(BitOf(x, (j + 6) % 32), BitOf(x, (j + 11) % 32), BitOf(x, (j + 25) % 32))
  {
    hide BitOf, Odd, Parity, Rotate, Rotr6, Rotr11, Rotr25;
    ParityBit(Rotr6(x), Rotr11(x), Rotr25(x), j);
    By6(x);
    RotatedBit(x, 6, j);
    By11(x);
    RotatedBit(x, 11, j);
    By25(x);
    RotatedBit(x, 25, j);
  }

  lemma SmallSigma0Bit(x: Word, j: nat)
    requires j < 32
    ensures BitOf(SmallSigma0(x), j) == Odd(BitOf(x, (j + 7) % 32), BitOf(x, (j + 18) % 32), j + 3 < 32 && BitOf(x, j + 3))
  {
    hide BitOf, Odd, Parity, Rotate, Rotr7, Rotr18, Shr3, Shr10;
    ParityBit(Rotr7(x), Rotr18(x), Shr3(x), j);
    By7(x);
    RotatedBit(x, 7, j);
    By18(x);
    RotatedBit(x, 18, j);
    Shift3Bit(x, j);
  }

  lemma SmallSigma1Bit(x: Word, j: nat)
    requires j < 32
    ensures BitOf(SmallSigma1(x), j) == Odd(BitOf(x, (j + 17) % 32), BitOf(x, (j + 19) % 32), j + 10 < 32 && BitOf(x, j + 10))
  {
    hide BitOf, Odd, Parity, Rotate, Rotr17, Rotr19, Shr3, Shr10;
    ParityBit(Rotr17(x), Rotr19(x), Shr10(x), j);
    By17(x);
    RotatedBit(x, 17, j);
    By19(x);
    RotatedBit(x, 19, j);
    Shift10Bit(x, j);
  }
}
