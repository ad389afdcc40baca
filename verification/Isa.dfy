/** The instruction formats of RISC-V: how an instruction is laid out in a word, and how the simulator takes
    the word apart. */
module Isa {
  import opened Arith
  import opened Bits
  import opened Words

  type Reg = r: nat | r < 32

  // ---- Taking apart: get_opcode to get_f7 and imm_I to imm_J ----

  function Opcode(w: U32): nat { w % 0x80 }
  function Rd(w: U32): Reg { w / 0x80 % 32 }
  function F3(w: U32): nat { w / 0x1000 % 8 }
  function Rs1(w: U32): Reg { w / 0x8000 % 32 }
  function Rs2(w: U32): Reg { w / 0x10_0000 % 32 }
  function F7(w: U32): nat { w / 0x200_0000 % 128 }

  /** sign_extend, with the sign bit as a mask: flip the bit and take it away. */
  function SignExtend(value: int, mask: int): int
    requires mask > 0
  {
    (if value / mask % 2 == 1 then value - mask else value + mask) - mask
  }

  function ImmI(w: U32): int { SignExtend(w / 0x10_0000, 0x800) }

  function ImmS(w: U32): int { SignExtend(w / 0x200_0000 * 32 + w / 0x80 % 32, 0x800) }

  function ImmB(w: U32): int {
    SignExtend(w / 0x8000_0000 % 2 * 0x1000 + w / 0x80 % 2 * 0x800 + w / 0x200_0000 % 64 * 32 + w / 0x100 % 16 * 2, 0x1000)
  }

  function ImmU(w: U32): U32 { w - w % 0x1000 }

  function ImmJ(w: U32): int {
    SignExtend(w / 0x8000_0000 % 2 * 0x10_0000 + w / 0x20_0000 % 0x400 * 2 + w / 0x10_0000 % 2 * 0x800 + w / 0x1000 % 256 * 0x1000,
               0x10_0000)
  }

  // ---- Putting together ----

  /** The fields that the formats R, I, S and B share; `high` is what lies above them. */
  function Layout(op: nat, rd: nat, f3: nat, rs1: nat, high: nat): (w: U32)
    requires op < 0x80 && rd < 32 && f3 < 8 && rs1 < 32 && high < 0x1000
  {
    op + 0x80 * (rd + 32 * (f3 + 8 * (rs1 + 32 * high)))
  }

  /** The formats U and J. */
  function LayoutU(op: nat, rd: nat, high: nat): (w: U32)
    requires op < 0x80 && rd < 32 && high < 0x10_0000
  {
    op + 0x80 * (rd + 32 * high)
  }

  function EncodeR(op: nat, rd: Reg, f3: nat, rs1: Reg, rs2: Reg, f7: nat): U32
    requires op < 0x80 && f3 < 8 && f7 < 128
  {
    Layout(op, rd, f3, rs1, rs2 + 32 * f7)
  }

  function EncodeI(op: nat, rd: Reg, f3: nat, rs1: Reg, imm: int): U32
    requires op < 0x80 && f3 < 8
  {
    Layout(op, rd, f3, rs1, imm % 0x1000)
  }

  function EncodeS(op: nat, f3: nat, rs1: Reg, rs2: Reg, imm: int): U32
    requires op < 0x80 && f3 < 8
  {
    Layout(op, imm % 32, f3, rs1, rs2 + 32 * (imm / 32 % 128))
  }

  /** The bits of the immediate are 12, 10 to 5, 4 to 1 and 11. */
  function EncodeB(op: nat, f3: nat, rs1: Reg, rs2: Reg, imm: int): U32
    requires op < 0x80 && f3 < 8
  {
    Layout(op, imm / 2 % 16 * 2 + imm / 0x800 % 2, f3, rs1, rs2 + 32 * (imm / 0x1000 % 2 * 64 + imm / 32 % 64))
  }

  function EncodeU(op: nat, rd: Reg, imm: nat): U32
    requires op < 0x80 && imm < 0x10_0000
  {
    LayoutU(op, rd, imm)
  }

  /** The bits of the immediate are 20, 10 to 1, 11 and 19 to 12. */
  function EncodeJ(op: nat, rd: Reg, imm: int): U32
    requires op < 0x80
  {
    LayoutU(op, rd, imm / 0x10_0000 % 2 * 0x8_0000 + imm / 2 % 0x400 * 0x200 + imm / 0x800 % 2 * 0x100 + imm / 0x1000 % 256)
  }

  // ---- Taking apart undoes putting together ----

  lemma Peel(x: int, d: int, y: int)
    requires 0 <= x < d
    ensures (x + d * y) % d == x && (x + d * y) / d == y
  {
    ModUnique(x + d * y, y, x, d);
  }

  lemma LayoutUFields(op: nat, rd: nat, high: nat)
    requires op < 0x80 && rd < 32 && high < 0x10_0000
    ensures var w := LayoutU(op, rd, high); Opcode(w) == op && Rd(w) == rd && w / 0x1000 == high
  {
    var w := LayoutU(op, rd, high);
    Peel(op, 0x80, rd + 32 * high);
    Peel(rd, 32, high);
    DivideTwice(w, 0x80, 32);
  }

  lemma LayoutFields(op: nat, rd: nat, f3: nat, rs1: nat, high: nat)
    requires op < 0x80 && rd < 32 && f3 < 8 && rs1 < 32 && high < 0x1000
    ensures var w := Layout(op, rd, f3, rs1, high);
      Opcode(w) == op && w / 0x80 % 32 == rd && F3(w) == f3 && Rs1(w) == rs1 && w / 0x10_0000 == high
  {
    var w := Layout(op, rd, f3, rs1, high);
    LayoutUFields(op, rd, f3 + 8 * (rs1 + 32 * high));
    Peel(f3, 8, rs1 + 32 * high);
    Peel(rs1, 32, high);
    DivideTwice(w, 0x1000, 8);
    DivideTwice(w, 0x8000, 32);
  }

  /** The two fields above. */
  lemma HighFields(w: U32, rs2: nat, f7: nat)
    requires rs2 < 32 && f7 < 128 && w / 0x10_0000 == rs2 + 32 * f7
    ensures Rs2(w) == rs2 && F7(w) == f7 && w / 0x200_0000 == f7
  {
    Peel(rs2, 32, f7);
    DivideTwice(w, 0x10_0000, 32);
  }

  lemma DecodeR(op: nat, rd: Reg, f3: nat, rs1: Reg, rs2: Reg, f7: nat)
    requires op < 0x80 && f3 < 8 && f7 < 128
    ensures var w := EncodeR(op, rd, f3, rs1, rs2, f7);
      Opcode(w) == op && Rd(w) == rd && F3(w) == f3 && Rs1(w) == rs1 && Rs2(w) == rs2 && F7(w) == f7
  {
    LayoutFields(op, rd, f3, rs1, rs2 + 32 * f7);
    HighFields(EncodeR(op, rd, f3, rs1, rs2, f7), rs2, f7);
  }

  /** A number is recovered from its lowest bits when it lies in their signed range. */
  lemma Extends(imm: int, mask: int)
    requires mask > 0 && -mask <= imm < mask
    ensures SignExtend(imm % (2 * mask), mask) == imm
  {
    if imm >= 0 {
      ModUnique(imm, 0, imm, 2 * mask);
      ModUnique(imm, 0, imm, mask);
    } else {
      ModUnique(imm, -1, imm + 2 * mask, 2 * mask);
      ModUnique(imm + 2 * mask, 1, imm + mask, mask);
    }
  }

  lemma DecodeI(op: nat, rd: Reg, f3: nat, rs1: Reg, imm: int)
    requires op < 0x80 && f3 < 8 && -0x800 <= imm < 0x800
    ensures var w := EncodeI(op, rd, f3, rs1, imm);
      Opcode(w) == op && Rd(w) == rd && F3(w) == f3 && Rs1(w) == rs1 && ImmI(w) == imm
  {
    hide SignExtend;
    LayoutFields(op, rd, f3, rs1, imm % 0x1000);
    Extends(imm, 0x800);
  }

  /** The digits above and below a place make the number up. */
  lemma Recombine(x: int, a: int, b: int)
    requires a > 0 && b > 0
    ensures a * b > 0 && x % (a * b) == x / a % b * a + x % a
  {
    var q, r := x / a, x % a;
    var k, s := q / b, q % b;
    assert x == q * a + r && q == k * b + s;
    assert q * a == k * (a * b) + s * a by { Distribute(a, k * b, s); Regroup(a, k, b); Regroup(k, a, b); }
    assert 0 <= s * a + r < a * b by { Below(a, b, r, s); }
    ModUnique(x, k, s * a + r, a * b);
  }

  lemma DecodeS(op: nat, f3: nat, rs1: Reg, rs2: Reg, imm: int)
    requires op < 0x80 && f3 < 8 && -0x800 <= imm < 0x800
    ensures var w := EncodeS(op, f3, rs1, rs2, imm);
      Opcode(w) == op && F3(w) == f3 && Rs1(w) == rs1 && Rs2(w) == rs2 && ImmS(w) == imm
  {
    hide SignExtend;
    var w := EncodeS(op, f3, rs1, rs2, imm);
    LayoutFields(op, imm % 32, f3, rs1, rs2 + 32 * (imm / 32 % 128));
    HighFields(w, rs2, imm / 32 % 128);
    Recombine(imm, 32, 128);
    Extends(imm, 0x800);
  }

  /** Splitting a field in two. */
  lemma LowPart(x: int, n: int, a: int, b: int, hi: int, lo: int)
    requires a > 0 && b > 0 && n == a * b && x % n == hi * a + lo && 0 <= lo < a && 0 <= hi < b
    ensures x % a == lo && x / a % b == hi
  {
    var k := x / n;
    assert x == k * n + (hi * a + lo);
    assert k * (a * b) == (k * b) * a by { Regroup(k, a, b); Regroup(a, b, k); }
    ModUnique(x, k * b + hi, lo, a);
    ModUnique(k * b + hi, k, hi, b);
  }

  function SumB(b12: int, b11: int, b10: int, b4: int): int { b12 * 0x1000 + b11 * 0x800 + b10 * 32 + b4 * 2 }

  lemma PiecesB(imm: int)
    requires imm % 2 == 0
    ensures SumB(imm / 0x1000 % 2, imm / 0x800 % 2, imm / 32 % 64, imm / 2 % 16) == imm % 0x2000
  {
    Recombine(imm, 0x1000, 2);
    Recombine(imm, 0x800, 2);
    Recombine(imm, 32, 64);
    Recombine(imm, 2, 16);
  }

  lemma FieldsB(w: U32, b12: int, b11: int, b10: int, b4: int)
    requires 0 <= b12 < 2 && 0 <= b11 < 2 && 0 <= b10 < 64 && 0 <= b4 < 16
    requires w / 0x80 % 32 == b4 * 2 + b11 && w / 0x200_0000 == b12 * 64 + b10
    ensures w / 0x8000_0000 % 2 == b12 && w / 0x80 % 2 == b11 && w / 0x200_0000 % 64 == b10 && w / 0x100 % 16 == b4
  {
    LowPart(w / 0x80, 32, 2, 16, b4, b11);
    DivideTwice(w, 0x80, 2);
    Peel(b10, 64, b12);
    DivideTwice(w, 0x200_0000, 64);
  }

  lemma DecodeB(op: nat, f3: nat, rs1: Reg, rs2: Reg, imm: int)
    requires op < 0x80 && f3 < 8 && -0x1000 <= imm < 0x1000 && imm % 2 == 0
    ensures var w := EncodeB(op, f3, rs1, rs2, imm);
      Opcode(w) == op && F3(w) == f3 && Rs1(w) == rs1 && Rs2(w) == rs2 && ImmB(w) == imm
  {
    hide SignExtend;
    var w := EncodeB(op, f3, rs1, rs2, imm);
    var (b12, b11, b10, b4) := (imm / 0x1000 % 2, imm / 0x800 % 2, imm / 32 % 64, imm / 2 % 16);
    LayoutFields(op, b4 * 2 + b11, f3, rs1, rs2 + 32 * (b12 * 64 + b10));
    HighFields(w, rs2, b12 * 64 + b10);
    FieldsB(w, b12, b11, b10, b4);
    PiecesB(imm);
    Extends(imm, 0x1000);
  }

  lemma DecodeU(op: nat, rd: Reg, imm: nat)
    requires op < 0x80 && imm < 0x10_0000
    ensures var w := EncodeU(op, rd, imm); Opcode(w) == op && Rd(w) == rd && ImmU(w) == imm * 0x1000
  {
    var w := EncodeU(op, rd, imm);
    LayoutUFields(op, rd, imm);
    assert w == w / 0x1000 * 0x1000 + w % 0x1000;
  }

  function SumJ(b20: int, b10: int, b11: int, b19: int): int { b20 * 0x10_0000 + b10 * 2 + b11 * 0x800 + b19 * 0x1000 }

  lemma PiecesJ(imm: int)
    requires imm % 2 == 0
    ensures SumJ(imm / 0x10_0000 % 2, imm / 2 % 0x400, imm / 0x800 % 2, imm / 0x1000 % 256) == imm % 0x20_0000
  {
    Recombine(imm, 0x10_0000, 2);
    Recombine(imm, 0x1000, 256);
    Recombine(imm, 0x800, 2);
    Recombine(imm, 2, 0x400);
  }

  lemma FieldsJ(w: U32, b20: int, b10: int, b11: int, b19: int)
    requires 0 <= b20 < 2 && 0 <= b10 < 0x400 && 0 <= b11 < 2 && 0 <= b19 < 256
    requires w / 0x1000 == b20 * 0x8_0000 + b10 * 0x200 + b11 * 0x100 + b19
    ensures w / 0x8000_0000 % 2 == b20 && w / 0x20_0000 % 0x400 == b10 && w / 0x10_0000 % 2 == b11 && w / 0x1000 % 256 == b19
  {
    Peel(b19, 256, b11 + 2 * (b10 + 0x400 * b20));
    Peel(b11, 2, b10 + 0x400 * b20);
    Peel(b10, 0x400, b20);
    DivideTwice(w, 0x1000, 256);
    DivideTwice(w, 0x10_0000, 2);
    DivideTwice(w, 0x20_0000, 0x400);
  }

  lemma DecodeJ(op: nat, rd: Reg, imm: int)
    requires op < 0x80 && -0x10_0000 <= imm < 0x10_0000 && imm % 2 == 0
    ensures var w := EncodeJ(op, rd, imm); Opcode(w) == op && Rd(w) == rd && ImmJ(w) == imm
  {
    hide SignExtend;
    var w := EncodeJ(op, rd, imm);
    var (b20, b10, b11, b19) := (imm / 0x10_0000 % 2, imm / 2 % 0x400, imm / 0x800 % 2, imm / 0x1000 % 256);
    LayoutUFields(op, rd, b20 * 0x8_0000 + b10 * 0x200 + b11 * 0x100 + b19);
    FieldsJ(w, b20, b10, b11, b19);
    PiecesJ(imm);
    Extends(imm, 0x10_0000);
  }
}
