/** What each instruction means: from its encoding in memory to the next state of the machine, over signed and
    unsigned numbers. */
module Instructions {
  import opened Arith
  import opened Words
  import opened Isa
  import opened Memory
  import opened Simulator
  import opened Predictor
  import opened Bits

  datatype RegOp =
    | ADD | SUB | SLL | SLT | SLTU | XOR | SRL | SRA | OR | AND
    | MUL | MULH | MULHSU | MULHU | DIV | DIVU | REM | REMU

  datatype ImmOp = ADDI | SLTI | SLTIU | XORI | ORI | ANDI

  datatype ShiftOp = SLLI | SRLI | SRAI

  datatype Cond = BEQ | BNE | BLT | BGE | BLTU | BGEU

  datatype LoadOp = LB | LBU | LH | LHU | LW

  datatype StoreOp = SB | SH | SW

  datatype Instr =
    | Register(rop: RegOp, rd: Reg, rs1: Reg, rs2: Reg)
    | Immediate(iop: ImmOp, rd: Reg, rs1: Reg, imm: int)
    | ShiftBy(sop: ShiftOp, rd: Reg, rs1: Reg, shamt: nat)
    | Conditional(cond: Cond, rs1: Reg, rs2: Reg, imm: int)
    | Load(lop: LoadOp, rd: Reg, rs1: Reg, imm: int)
    | Store(wop: StoreOp, rs1: Reg, rs2: Reg, imm: int)
    | Lui(rd: Reg, upper: nat)
    | Auipc(rd: Reg, upper: nat)
    | Jal(rd: Reg, imm: int)
    | Jalr(rd: Reg, rs1: Reg, imm: int)
    | Ecall

  /** The immediates fit their formats. */
  predicate InstrOk(i: Instr) {
    match i
    case Immediate(_, _, _, imm) => -0x800 <= imm < 0x800
    case ShiftBy(_, _, _, shamt) => shamt < 32
    case Conditional(_, _, _, imm) => -0x1000 <= imm < 0x1000 && imm % 2 == 0
    case Load(_, _, _, imm) => -0x800 <= imm < 0x800
    case Store(_, _, _, imm) => -0x800 <= imm < 0x800
    case Lui(_, upper) => upper < 0x10_0000
    case Auipc(_, upper) => upper < 0x10_0000
    case Jal(_, imm) => -0x10_0000 <= imm < 0x10_0000 && imm % 2 == 0
    case Jalr(_, _, imm) => -0x800 <= imm < 0x800
    case _ => true
  }

  // ---- Encoding ----

  function RegF3(op: RegOp): nat {
    match op
    case ADD => 0 case SUB => 0 case MUL => 0
    case SLL => 1 case MULH => 1
    case SLT => 2 case MULHSU => 2
    case SLTU => 3 case MULHU => 3
    case XOR => 4 case DIV => 4
    case SRL => 5 case SRA => 5 case DIVU => 5
    case OR => 6 case REM => 6
    case AND => 7 case REMU => 7
  }

  function RegF7(op: RegOp): nat {
    match op
    case SUB => 0x20 case SRA => 0x20
    case MUL => 1 case MULH => 1 case MULHSU => 1 case MULHU => 1
    case DIV => 1 case DIVU => 1 case REM => 1 case REMU => 1
    case _ => 0
  }

  function ImmF3(op: ImmOp): nat {
    match op case ADDI => 0 case SLTI => 2 case SLTIU => 3 case XORI => 4 case ORI => 6 case ANDI => 7
  }

  function ShiftF3(op: ShiftOp): nat {
    match op case SLLI => 1 case _ => 5
  }

  function CondF3(c: Cond): nat {
    match c case BEQ => 0 case BNE => 1 case BLT => 4 case BGE => 5 case BLTU => 6 case BGEU => 7
  }

  function LoadF3(op: LoadOp): nat {
    match op case LB => 0 case LH => 1 case LW => 2 case LBU => 4 case LHU => 5
  }

  function StoreF3(op: StoreOp): nat {
    match op case SB => 0 case SH => 1 case SW => 2
  }

  function Encode(i: Instr): U32
    requires InstrOk(i)
  {
    match i
    case Register(op, rd, rs1, rs2) => EncodeR(0x33, rd, RegF3(op), rs1, rs2, RegF7(op))
    case Immediate(op, rd, rs1, imm) => EncodeI(0x13, rd, ImmF3(op), rs1, imm)
    case ShiftBy(op, rd, rs1, shamt) => EncodeR(0x13, rd, ShiftF3(op), rs1, shamt, if op == SRAI then 0x20 else 0)
    case Conditional(c, rs1, rs2, imm) => EncodeB(0x63, CondF3(c), rs1, rs2, imm)
    case Load(op, rd, rs1, imm) => EncodeI(0x03, rd, LoadF3(op), rs1, imm)
    case Store(op, rs1, rs2, imm) => EncodeS(0x23, StoreF3(op), rs1, rs2, imm)
    case Lui(rd, upper) => EncodeU(0x37, rd, upper)
    case Auipc(rd, upper) => EncodeU(0x17, rd, upper)
    case Jal(rd, imm) => EncodeJ(0x6f, rd, imm)
    case Jalr(rd, rs1, imm) => EncodeI(0x67, rd, 0, rs1, imm)
    case Ecall => 0x73
  }

  // ---- Values ----

  /** The quotient and the remainder of a division that rounds towards zero. */
  ghost predicate Quotient(x: int, y: int, q: int) { exists r :: Truncates(x, y, q, r) }

  ghost predicate Remainder(x: int, y: int, r: int) { exists q :: Truncates(x, y, q, r) }

  /** The value of a register operation on the contents of two registers, if it has one. */
  ghost predicate RegValue(op: RegOp, a: U32, b: U32, v: Option<U32>) {
    match op
    case ADD => v == Some(Wrap(Signed(a) + Signed(b)))
    case SUB => v == Some(Wrap(Signed(a) - Signed(b)))
    case MUL => v == Some(Wrap(Signed(a) * Signed(b)))
    case SLL => v == Some(Wrap(Signed(a) * Pow2(b % 32)))
    case SRL => v == Some(a / Pow2(b % 32))
    case SRA => v == Some(Wrap(Signed(a) / Pow2(b % 32)))
    case SLT => v == Some(if Signed(a) < Signed(b) then 1 else 0)
    case SLTU => v == Some(if a < b then 1 else 0)
    case XOR => v == Some(XorWords(a, b))
    case OR => v == Some(OrWords(a, b))
    case AND => v == Some(AndWords(a, b))
    case DIV => if b == 0 then v == None else v.Some? && exists q :: Quotient(Signed(a), Signed(b), q) && v.value == Wrap(q)
    case REM => if b == 0 then v == None else v.Some? && exists r :: Remainder(Signed(a), Signed(b), r) && v.value == Wrap(r)
    case DIVU => if b == 0 then v == None else v.Some? && b * v.value <= a < b * (v.value + 1)
    case REMU => if b == 0 then v == None else v.Some? && v.value < b && exists q :: a == b * q + v.value
    case _ => v == Some(Wrap(Signed(a) * Signed(b) / 0x1_0000_0000))
  }

  function ImmValue(op: ImmOp, a: U32, imm: int): U32 {
    match op
    case ADDI => Wrap(Signed(a) + imm)
    case SLTI => if Signed(a) < imm then 1 else 0
    case SLTIU => if a < Wrap(imm) then 1 else 0
    case XORI => XorWords(a, Wrap(imm))
    case ORI => OrWords(a, Wrap(imm))
    case ANDI => AndWords(a, Wrap(imm))
  }

  function ShiftValue(op: ShiftOp, a: U32, shamt: nat): U32
    requires shamt < 32
  {
    match op
    case SLLI => Wrap(Signed(a) * Pow2(shamt))
    case SRLI => Shifted(a, shamt)
    case SRAI => Wrap(Signed(a) / Pow2(shamt))
  }

  /** Whether a branch is taken. */
  predicate Holds(c: Cond, a: U32, b: U32) {
    match c
    case BEQ => Signed(a) == Signed(b)
    case BNE => Signed(a) != Signed(b)
    case BLT => Signed(a) < Signed(b)
    case BGE => Signed(a) >= Signed(b)
    case BLTU => a < b
    case BGEU => a >= b
  }

  // ---- The simulator computes these values ----

  lemma DivisionMeans(a: U32, b: U32)
    requires b != 0
    ensures exists q :: Quotient(Signed(a), Signed(b), q) && DivSigned(a, b) == Wrap(q)
    ensures exists r :: Remainder(Signed(a), Signed(b), r) && RemSigned(a, b) == Wrap(r)
  {
    hide Signed, Truncates, DivSigned, RemSigned, Wrap;
    var q, r := DivMeaning(a, b);
    assert Quotient(Signed(a), Signed(b), q) && Remainder(Signed(a), Signed(b), r);
  }

  lemma UnsignedMeans(a: U32, b: U32)
    requires b != 0
    ensures b * DivUnsigned(a, b) <= a < b * (DivUnsigned(a, b) + 1)
    ensures a % b < b && exists q :: a == b * q + a % b
  {
    var q := a / b;
    assert a == b * q + a % b;
    Distribute(b, q, 1);
  }

  lemma RegisterMeans(op: RegOp, rd: Reg, rs1: Reg, rs2: Reg, a: U32, b: U32)
    ensures RegValue(op, a, b, AluRegister(Encode(Register(op, rd, rs1, rs2)), a, b))
  {
    hide EncodeR, F3, F7;
    hide Signed, Wrap, Add, Sub, Mul, ShiftLeft, ShiftRightSigned, MulHigh, LessSigned, DivSigned, RemSigned, DivUnsigned;
    hide XorWords, OrWords, AndWords, Quotient, Remainder;
    var w := Encode(Register(op, rd, rs1, rs2));
    DecodeR(0x33, rd, RegF3(op), rs1, rs2, RegF7(op));
    assert F3(w) == RegF3(op) && F7(w) == RegF7(op);
    AluMeans(op, a, b, w);
  }

  lemma AluMeans(op: RegOp, a: U32, b: U32, w: U32)
    requires F3(w) == RegF3(op) && F7(w) == RegF7(op)
    ensures RegValue(op, a, b, AluRegister(w, a, b))
  {
    hide F3, F7;
    hide Signed, Wrap, Add, Sub, Mul, ShiftLeft, ShiftRightSigned, MulHigh, LessSigned, DivSigned, RemSigned, DivUnsigned;
    hide XorWords, OrWords, AndWords, Quotient, Remainder;
    match op
    case ADD => AddMeaning(a, b);
    case SUB => SubMeaning(a, b);
    case MUL => MulMeaning(a, b);
    case SLL => ShiftLeftMeaning(a, b);
    case SRL =>
    case SRA => ShiftRightMeaning(a, b);
    case SLT => LessMeaning(a, b);
    case SLTU =>
    case XOR =>
    case OR =>
    case AND =>
    case MULH => MulHighMeaning(a, b);
    case MULHSU => MulHighMeaning(a, b);
    case MULHU => MulHighMeaning(a, b);
    case DIV => if b != 0 { DivisionMeans(a, b); }
    case REM => if b != 0 { DivisionMeans(a, b); }
    case DIVU => if b != 0 { UnsignedMeans(a, b); }
    case REMU => if b != 0 { UnsignedMeans(a, b); }
  }

  lemma ImmediateMeans(op: ImmOp, rd: Reg, rs1: Reg, imm: int, a: U32)
    requires -0x800 <= imm < 0x800
    ensures AluImmediate(Encode(Immediate(op, rd, rs1, imm)), a) == ImmValue(op, a, imm)
  {
    hide EncodeI, F3, ImmI, Signed, Wrap, Add, LessSigned, XorWords, OrWords, AndWords;
    DecodeI(0x13, rd, ImmF3(op), rs1, imm);
    SignedOfWrap(imm);
    AddMeaning(a, Wrap(imm));
    LessMeaning(a, Wrap(imm));
  }

  lemma ShiftFields(op: ShiftOp, rd: Reg, rs1: Reg, shamt: nat)
    requires shamt < 32
    ensures var w := Encode(ShiftBy(op, rd, rs1, shamt));
      F3(w) == ShiftF3(op) && w / 0x10_0000 % 32 == shamt && w / 0x4000_0000 % 2 == (if op == SRAI then 1 else 0)
  {
    hide EncodeR, F3, Layout;
    var f7 := if op == SRAI then 0x20 else 0;
    var w := EncodeR(0x13, rd, ShiftF3(op), rs1, shamt, f7);
    DecodeR(0x13, rd, ShiftF3(op), rs1, shamt, f7);
    EncodedHigh(0x13, rd, ShiftF3(op), rs1, shamt, f7);
    HighFields(w, shamt, f7);
    DivideTwice(w, 0x200_0000, 32);
  }

  lemma EncodedHigh(op: nat, rd: Reg, f3: nat, rs1: Reg, rs2: Reg, f7: nat)
    requires op < 0x80 && f3 < 8 && f7 < 128
    ensures EncodeR(op, rd, f3, rs1, rs2, f7) / 0x10_0000 == rs2 + 32 * f7
  {
    hide Layout;
    LayoutFields(op, rd, f3, rs1, rs2 + 32 * f7);
  }

  lemma ShiftMeans(op: ShiftOp, rd: Reg, rs1: Reg, shamt: nat, a: U32)
    requires shamt < 32
    ensures AluImmediate(Encode(ShiftBy(op, rd, rs1, shamt)), a) == ShiftValue(op, a, shamt)
  {
    hide Encode, F3, Signed, Wrap, ShiftLeft, ShiftRightSigned, Pow2, Shifted;
    ShiftFields(op, rd, rs1, shamt);
    ShiftLeftMeaning(a, shamt);
    ShiftRightMeaning(a, shamt);
  }

  lemma BranchMeans(c: Cond, a: U32, b: U32)
    ensures BranchTaken(CondF3(c), a, b) <==> Holds(c, a, b)
  {
    hide LessSigned;
    LessMeaning(a, b);
  }

  // ---- The effect of an instruction ----

  /** The registers with one of them set; register 0 stays zero, and all others keep their values. */
  function With(regs: Registers, rd: Reg, v: U32): Registers {
    seq(32, r requires 0 <= r < 32 => if r == 0 then 0 else if r == rd then v else regs[r])
  }

  function Moved(cpu: Cpu, rd: Reg, v: U32, pc: U32): Cpu {
    Cpu(pc, With(cpu.regs, rd, v), cpu.input, cpu.output)
  }

  function WidthOf(op: LoadOp): Width {
    match op case LB => One case LBU => One case LH => Two case LHU => Two case LW => Four
  }

  function StoreWidth(op: StoreOp): Width {
    match op case SB => One case SH => Two case SW => Four
  }

  /** What an instruction does to the processor and what it asks of memory. */
  ghost predicate Executes(i: Instr, cpu: Cpu, e: Effect) {
    var pc, regs, next := cpu.pc, cpu.regs, Wrap(cpu.pc + 4);
    match i
    case Register(op, rd, rs1, rs2) =>
      exists v :: RegValue(op, regs[rs1], regs[rs2], v) && e == (if v.None? then Undefined else Go(Moved(cpu, rd, v.value, next)))
    case Immediate(op, rd, rs1, imm) => e == Go(Moved(cpu, rd, ImmValue(op, regs[rs1], imm), next))
    case ShiftBy(op, rd, rs1, shamt) => shamt < 32 && e == Go(Moved(cpu, rd, ShiftValue(op, regs[rs1], shamt), next))
    case Conditional(c, rs1, rs2, imm) => e == Go(Moved(cpu, 0, 0, if Holds(c, regs[rs1], regs[rs2]) then Wrap(pc + imm) else next))
    case Load(op, rd, rs1, imm) =>
      e == LoadTo(Moved(cpu, 0, 0, next), rd, Wrap(Signed(regs[rs1]) + imm), WidthOf(op), op == LB || op == LH)
    case Store(op, rs1, rs2, imm) =>
      e == StoreTo(Moved(cpu, 0, 0, next), Wrap(Signed(regs[rs1]) + imm), StoreWidth(op), regs[rs2])
    case Lui(rd, upper) => e == Go(Moved(cpu, rd, Wrap(upper * 0x1000), next))
    case Auipc(rd, upper) => e == Go(Moved(cpu, rd, Wrap(pc + upper * 0x1000), next))
    case Jal(rd, imm) => e == Go(Moved(cpu, rd, next, Wrap(pc + imm)))
    case Jalr(rd, rs1, imm) => var to := Wrap(Signed(regs[rs1]) + imm); e == Go(Moved(cpu, rd, next, to / 2 * 2))
    case Ecall => EcallDoes(cpu, e)
  }

  /** getchar, putchar, exit, or nothing, by register 17; register 10 takes or gives the character. */
  predicate EcallDoes(cpu: Cpu, e: Effect) {
    var next := Wrap(cpu.pc + 4);
    match cpu.regs[17]
    case 1 =>
      if cpu.input == [] then e == Go(Moved(cpu, 10, Wrap(-1), next))
      else e == Go(Moved(cpu.(input := cpu.input[1..]), 10, cpu.input[0], next))
    case 2 => e == Go(Moved(cpu.(output := cpu.output + [cpu.regs[10]]), 0, 0, next))
    case 3 => e == Exit
    case 93 => e == Exit
    case _ => e == Go(Moved(cpu, 0, 0, next))
  }

  lemma FinishMoves(cpu: Cpu, rd: Reg, v: U32, pc: U32)
    ensures Finish(cpu, cpu.regs[rd := v], pc) == Moved(cpu, rd, v, pc)
    ensures Finish(cpu, cpu.regs, pc) == Moved(cpu, 0, 0, pc)
  {
    assert cpu.regs[rd := v][0 := 0] == With(cpu.regs, rd, v);
    assert cpu.regs[0 := 0] == With(cpu.regs, 0, 0);
  }

  lemma RegisterExecutes(cpu: Cpu, op: RegOp, rd: Reg, rs1: Reg, rs2: Reg)
    ensures exists v :: (
      && RegValue(op, cpu.regs[rs1], cpu.regs[rs2], v)
      && Execute(cpu, Encode(Register(op, rd, rs1, rs2)))
         == (if v.None? then Undefined else Go(Moved(cpu, rd, v.value, Wrap(cpu.pc + 4)))))
  {
    hide EncodeR, Opcode, Rd, Rs1, Rs2, RegValue, AluRegister, Finish, Moved, Wrap;
    var i := Register(op, rd, rs1, rs2);
    RegisterMeans(op, rd, rs1, rs2, cpu.regs[rs1], cpu.regs[rs2]);
    DecodeR(0x33, rd, RegF3(op), rs1, rs2, RegF7(op));
    var v := AluRegister(Encode(i), cpu.regs[rs1], cpu.regs[rs2]);
    if v.Some? {
      FinishMoves(cpu, rd, v.value, Wrap(cpu.pc + 4));
    }
    assert RegValue(op, cpu.regs[rs1], cpu.regs[rs2], v);
  }

  lemma ImmediateExecutes(cpu: Cpu, op: ImmOp, rd: Reg, rs1: Reg, imm: int)
    requires -0x800 <= imm < 0x800
    ensures Execute(cpu, Encode(Immediate(op, rd, rs1, imm)))
         == Go(Moved(cpu, rd, ImmValue(op, cpu.regs[rs1], imm), Wrap(cpu.pc + 4)))
  {
    hide EncodeI, Opcode, Rd, Rs1, ImmValue, AluImmediate, Finish, Moved, Wrap;
    ImmediateMeans(op, rd, rs1, imm, cpu.regs[rs1]);
    DecodeI(0x13, rd, ImmF3(op), rs1, imm);
    FinishMoves(cpu, rd, ImmValue(op, cpu.regs[rs1], imm), Wrap(cpu.pc + 4));
  }

  lemma ShiftExecutes(cpu: Cpu, op: ShiftOp, rd: Reg, rs1: Reg, shamt: nat)
    requires shamt < 32
    ensures Execute(cpu, Encode(ShiftBy(op, rd, rs1, shamt)))
         == Go(Moved(cpu, rd, ShiftValue(op, cpu.regs[rs1], shamt), Wrap(cpu.pc + 4)))
  {
    hide EncodeR, Opcode, Rd, Rs1, ShiftValue, AluImmediate, Finish, Moved, Wrap;
    ShiftMeans(op, rd, rs1, shamt, cpu.regs[rs1]);
    DecodeR(0x13, rd, ShiftF3(op), rs1, shamt, if op == SRAI then 0x20 else 0);
    FinishMoves(cpu, rd, ShiftValue(op, cpu.regs[rs1], shamt), Wrap(cpu.pc + 4));
  }

  lemma ConditionalExecutes(cpu: Cpu, c: Cond, rs1: Reg, rs2: Reg, imm: int)
    requires -0x1000 <= imm < 0x1000 && imm % 2 == 0
    ensures Execute(cpu, Encode(Conditional(c, rs1, rs2, imm)))
         == Go(Moved(cpu, 0, 0, Wrap(if Holds(c, cpu.regs[rs1], cpu.regs[rs2]) then cpu.pc + imm else cpu.pc + 4)))
  {
    hide Encode, EncodeB, Opcode, F3, Rs1, Rs2, ImmB, Finish, Moved, Wrap, BranchTaken, Holds, Execute;
    BranchMeans(c, cpu.regs[rs1], cpu.regs[rs2]);
    DecodeB(0x63, CondF3(c), rs1, rs2, imm);
    EncodedConditional(c, rs1, rs2, imm);
    ConditionalByFields(cpu, Encode(Conditional(c, rs1, rs2, imm)));
    FinishMoves(cpu, 0, 0, Wrap(cpu.pc + imm));
    FinishMoves(cpu, 0, 0, Wrap(cpu.pc + 4));
  }

  lemma EncodedConditional(c: Cond, rs1: Reg, rs2: Reg, imm: int)
    requires -0x1000 <= imm < 0x1000 && imm % 2 == 0
    ensures Encode(Conditional(c, rs1, rs2, imm)) == EncodeB(0x63, CondF3(c), rs1, rs2, imm)
  {
    hide EncodeB;
  }

  lemma ConditionalByFields(cpu: Cpu, w: U32)
    requires Opcode(w) == 0x63
    ensures Execute(cpu, w)
         == Go(Finish(cpu, cpu.regs, Wrap(if BranchTaken(F3(w), cpu.regs[Rs1(w)], cpu.regs[Rs2(w)]) then cpu.pc + ImmB(w) else cpu.pc + 4)))
  {
    hide Opcode, F3, Rs1, Rs2, ImmB, Finish, Wrap, BranchTaken;
  }

  /** An address is computed on signed or on unsigned numbers alike. */
  lemma AddressMeans(a: U32, imm: int)
    ensures Wrap(a + imm) == Wrap(Signed(a) + imm)
  {
    hide Wrap, Signed;
    SignedIs(a);
    WrapShift(Signed(a) + imm, Turns(a));
  }

  lemma LoadExecutes(cpu: Cpu, op: LoadOp, rd: Reg, rs1: Reg, imm: int)
    requires -0x800 <= imm < 0x800
    ensures Execute(cpu, Encode(Instr.Load(op, rd, rs1, imm)))
         == LoadTo(Moved(cpu, 0, 0, Wrap(cpu.pc + 4)), rd, Wrap(Signed(cpu.regs[rs1]) + imm), WidthOf(op), op == LB || op == LH)
  {
    hide Encode, EncodeI, Opcode, F3, Rd, Rs1, ImmI, Finish, Moved, Wrap, Signed, Execute;
    DecodeI(0x03, rd, LoadF3(op), rs1, imm);
    AddressMeans(cpu.regs[rs1], imm);
    var i := Instr.Load(op, rd, rs1, imm);
    EncodedLoad(op, rd, rs1, imm);
    LoadByFields(cpu, Encode(i), op);
    FinishMoves(cpu, 0, 0, Wrap(cpu.pc + 4));
  }

  lemma EncodedLoad(op: LoadOp, rd: Reg, rs1: Reg, imm: int)
    requires -0x800 <= imm < 0x800
    ensures Encode(Instr.Load(op, rd, rs1, imm)) == EncodeI(0x03, rd, LoadF3(op), rs1, imm)
  {
    hide EncodeI;
  }

  lemma LoadByFields(cpu: Cpu, w: U32, op: LoadOp)
    requires Opcode(w) == 0x03 && F3(w) == LoadF3(op)
    ensures Execute(cpu, w) == LoadTo(Finish(cpu, cpu.regs, Wrap(cpu.pc + 4)), Rd(w), Wrap(cpu.regs[Rs1(w)] + ImmI(w)),
                                      WidthOf(op), op == LB || op == LH)
  {
    hide Opcode, F3, Rd, Rs1, ImmI, Finish, Wrap;
  }

  lemma StoreExecutes(cpu: Cpu, op: StoreOp, rs1: Reg, rs2: Reg, imm: int)
    requires -0x800 <= imm < 0x800
    ensures Execute(cpu, Encode(Instr.Store(op, rs1, rs2, imm)))
         == StoreTo(Moved(cpu, 0, 0, Wrap(cpu.pc + 4)), Wrap(Signed(cpu.regs[rs1]) + imm), StoreWidth(op), cpu.regs[rs2])
  {
    hide Encode, EncodeS, Opcode, F3, Rs1, Rs2, ImmS, Finish, Moved, Wrap, Signed, Execute;
    DecodeS(0x23, StoreF3(op), rs1, rs2, imm);
    AddressMeans(cpu.regs[rs1], imm);
    var i := Instr.Store(op, rs1, rs2, imm);
    EncodedStore(op, rs1, rs2, imm);
    StoreByFields(cpu, Encode(i), op);
    FinishMoves(cpu, 0, 0, Wrap(cpu.pc + 4));
  }

  lemma EncodedStore(op: StoreOp, rs1: Reg, rs2: Reg, imm: int)
    requires -0x800 <= imm < 0x800
    ensures Encode(Instr.Store(op, rs1, rs2, imm)) == EncodeS(0x23, StoreF3(op), rs1, rs2, imm)
  {
    hide EncodeS;
  }

  lemma StoreByFields(cpu: Cpu, w: U32, op: StoreOp)
    requires Opcode(w) == 0x23 && F3(w) == StoreF3(op)
    ensures Execute(cpu, w) == StoreTo(Finish(cpu, cpu.regs, Wrap(cpu.pc + 4)), Wrap(cpu.regs[Rs1(w)] + ImmS(w)),
                                       StoreWidth(op), cpu.regs[Rs2(w)])
  {
    hide Opcode, F3, Rs1, Rs2, ImmS, Finish, Wrap;
  }

  lemma UpperExecutes(cpu: Cpu, rd: Reg, upper: nat)
    requires upper < 0x10_0000
    ensures Execute(cpu, Encode(Lui(rd, upper))) == Go(Moved(cpu, rd, Wrap(upper * 0x1000), Wrap(cpu.pc + 4)))
    ensures Execute(cpu, Encode(Auipc(rd, upper))) == Go(Moved(cpu, rd, Wrap(cpu.pc + upper * 0x1000), Wrap(cpu.pc + 4)))
  {
    hide EncodeU, Opcode, Rd, ImmU, Finish, Moved, Wrap;
    DecodeU(0x37, rd, upper);
    DecodeU(0x17, rd, upper);
    SmallWraps(upper * 0x1000);
    FinishMoves(cpu, rd, Wrap(upper * 0x1000), Wrap(cpu.pc + 4));
    FinishMoves(cpu, rd, Wrap(cpu.pc + upper * 0x1000), Wrap(cpu.pc + 4));
  }

  lemma JumpExecutes(cpu: Cpu, rd: Reg, imm: int)
    requires -0x10_0000 <= imm < 0x10_0000 && imm % 2 == 0
    ensures Execute(cpu, Encode(Jal(rd, imm))) == Go(Moved(cpu, rd, Wrap(cpu.pc + 4), Wrap(cpu.pc + imm)))
  {
    hide Encode, EncodeJ, Opcode, Rd, ImmJ, Finish, Moved, Wrap, Execute;
    DecodeJ(0x6f, rd, imm);
    EncodedJump(rd, imm);
    JumpByFields(cpu, Encode(Jal(rd, imm)));
    FinishMoves(cpu, rd, Wrap(cpu.pc + 4), Wrap(cpu.pc + imm));
  }

  lemma EncodedJump(rd: Reg, imm: int)
    requires -0x10_0000 <= imm < 0x10_0000 && imm % 2 == 0
    ensures Encode(Jal(rd, imm)) == EncodeJ(0x6f, rd, imm)
  {
    hide EncodeJ;
  }

  lemma JumpByFields(cpu: Cpu, w: U32)
    requires Opcode(w) == 0x6f
    ensures Execute(cpu, w) == Go(Finish(cpu, cpu.regs[Rd(w) := Wrap(cpu.pc + 4)], Wrap(cpu.pc + ImmJ(w))))
  {
    hide Opcode, Rd, ImmJ, Finish, Wrap;
  }

  lemma JumpRegisterExecutes(cpu: Cpu, rd: Reg, rs1: Reg, imm: int)
    requires -0x800 <= imm < 0x800
    ensures Execute(cpu, Encode(Jalr(rd, rs1, imm)))
         == Go(Moved(cpu, rd, Wrap(cpu.pc + 4), Wrap(Signed(cpu.regs[rs1]) + imm) / 2 * 2))
  {
    hide EncodeI, Opcode, Rd, Rs1, ImmI, Finish, Moved, Wrap, Signed;
    DecodeI(0x67, rd, 0, rs1, imm);
    AddressMeans(cpu.regs[rs1], imm);
    var to := Wrap(Signed(cpu.regs[rs1]) + imm);
    assert to / 2 * 2 == ClearLowest(to);
    FinishMoves(cpu, rd, Wrap(cpu.pc + 4), ClearLowest(to));
  }

  lemma SmallWraps(x: U32)
    ensures Wrap(x) == x
  {
  }

  lemma EcallNumbers()
    ensures Opcode(0x73) == 0x73 && Wrap(-1) == 0xffff_ffff
  {
  }

  lemma EcallExecutes(cpu: Cpu)
    ensures EcallDoes(cpu, Execute(cpu, 0x73))
  {
    hide Finish, Moved, Wrap, Opcode;
    EcallNumbers();
    var next := Wrap(cpu.pc + 4);
    FinishMoves(cpu, 10, 0xffff_ffff, next);
    FinishMoves(cpu.(output := cpu.output + [cpu.regs[10]]), 0, 0, next);
    if cpu.input != [] {
      FinishMoves(cpu.(input := cpu.input[1..]), 10, cpu.input[0], next);
    }
  }

  /** Executing the encoding of an instruction does what the instruction means. */
  lemma EncodedExecutes(i: Instr, cpu: Cpu)
    requires InstrOk(i)
    ensures Executes(i, cpu, Execute(cpu, Encode(i)))
  {
    hide Execute, Encode, RegValue, ImmValue, ShiftValue, Holds, Moved, Wrap, Signed, EcallDoes, WidthOf, StoreWidth;
    match i
    case Register(op, rd, rs1, rs2) => RegisterExecutes(cpu, op, rd, rs1, rs2);
    case Immediate(op, rd, rs1, imm) => ImmediateExecutes(cpu, op, rd, rs1, imm);
    case ShiftBy(op, rd, rs1, shamt) => ShiftExecutes(cpu, op, rd, rs1, shamt);
    case Conditional(c, rs1, rs2, imm) => ConditionalExecutes(cpu, c, rs1, rs2, imm);
    case Load(op, rd, rs1, imm) => LoadExecutes(cpu, op, rd, rs1, imm);
    case Store(op, rs1, rs2, imm) => StoreExecutes(cpu, op, rs1, rs2, imm);
    case Lui(rd, upper) => UpperExecutes(cpu, rd, upper);
    case Auipc(rd, upper) => UpperExecutes(cpu, rd, upper);
    case Jal(rd, imm) => JumpExecutes(cpu, rd, imm);
    case Jalr(rd, rs1, imm) => JumpRegisterExecutes(cpu, rd, rs1, imm);
    case Ecall => EcallExecutes(cpu); EcallWord();
  }

  lemma EcallWord()
    ensures Encode(Ecall) == 0x73
  {
  }

  // ---- Memory ----

  /** The number of a byte. */
  function Value(b: Byte): (n: nat)
    ensures n < 256
  {
    b as int
  }

  /** The number in the bytes from an address on, the lowest first. */
  function BytesAt(m: Flat, addr: nat, width: Width): int {
    match width
    case One => Value(m(addr))
    case Two => Value(m(addr)) + 0x100 * Value(m(addr + 1))
    case Four =>
      Value(m(addr)) + 0x100 * Value(m(addr + 1)) + 0x1_0000 * Value(m(addr + 2)) + 0x100_0000 * Value(m(addr + 3))
  }

  /** The same as a two's complement number, when a sign is asked for. */
  function NumberAt(m: Flat, addr: nat, width: Width, signed: bool): int {
    var n := BytesAt(m, addr, width);
    if signed && width == One && n >= 0x80 then n - 0x100
    else if signed && width == Two && n >= 0x8000 then n - 0x1_0000
    else n
  }

  lemma Join1Number(a: Byte)
    ensures Join1(a) as int == Value(a)
  {
  }

  /** Shifted bytes add up. The bytes stand with the highest first, so that they are read as one word. */
  lemma TwoBytes(b: Byte, a: Byte)
    ensures (((b as bv32) << 8) | (a as bv32)) as int == a as int + 0x100 * (b as int)
  {
  }

  lemma FourBytes(d: Byte, c: Byte, b: Byte, a: Byte)
    ensures (((d as bv32) << 24) | ((c as bv32) << 16) | ((b as bv32) << 8) | (a as bv32)) as int
         == a as int + 0x100 * (b as int) + 0x1_0000 * (c as int) + 0x100_0000 * (d as int)
  {
  }

  lemma JoinReversed(a: Byte, b: Byte, c: Byte, d: Byte)
    ensures Join2(a, b) == ((b as bv32) << 8) | (a as bv32)
    ensures Join4(a, b, c, d) == ((d as bv32) << 24) | ((c as bv32) << 16) | ((b as bv32) << 8) | (a as bv32)
  {
  }

  lemma Join2Number(a: Byte, b: Byte)
    ensures Join2(a, b) as int == Value(a) + 0x100 * Value(b)
  {
    hide Join2, Join4;
    JoinReversed(a, b, 0, 0);
    TwoBytes(b, a);
  }

  lemma Join4Number(a: Byte, b: Byte, c: Byte, d: Byte)
    ensures Join4(a, b, c, d) as int == Value(a) + 0x100 * Value(b) + 0x1_0000 * Value(c) + 0x100_0000 * Value(d)
  {
    hide Join2, Join4;
    JoinReversed(a, b, c, d);
    FourBytes(d, c, b, a);
  }

  lemma ReadMeans(m: Flat, addr: nat, width: Width)
    ensures Number(FlatRead(m, addr, width)) == BytesAt(m, addr, width)
  {
    hide Join1, Join2, Join4, Value;
    match width
    case One => Join1Number(m(addr));
    case Two => Join2Number(m(addr), m(addr + 1));
    case Four => Join4Number(m(addr), m(addr + 1), m(addr + 2), m(addr + 3));
  }

  lemma LoadMeans(m: Flat, addr: nat, width: Width, signed: bool)
    ensures Loaded(Number(FlatRead(m, addr, width)), width, signed) == Wrap(NumberAt(m, addr, width, signed))
  {
    hide FlatRead, Number, Wrap, BytesAt;
    ReadMeans(m, addr, width);
    var n := BytesAt(m, addr, width);
    BytesBound(m, addr, width);
    SmallWraps(n);
    if width == One {
      ExtendsDown(n, 0x80);
    } else if width == Two {
      ExtendsDown(n, 0x8000);
    }
  }

  lemma BytesBound(m: Flat, addr: nat, width: Width)
    ensures 0 <= BytesAt(m, addr, width) < (match width case One => 0x100 case Two => 0x1_0000 case Four => 0x1_0000_0000)
  {
    hide Value;
  }

  lemma ExtendsDown(n: int, mask: int)
    requires mask > 0 && 0 <= n < 2 * mask
    ensures SignExtend(n, mask) == if n < mask then n else n - 2 * mask
  {
    if n < mask {
      ModUnique(n, 0, n, mask);
    } else {
      ModUnique(n, 1, n - mask, mask);
    }
  }

  /** Byte k of a number. */
  function ByteOfNumber(n: nat, k: nat): nat {
    if k == 0 then n % 256 else if k == 1 then n / 0x100 % 256 else if k == 2 then n / 0x1_0000 % 256 else n / 0x100_0000 % 256
  }

  lemma ByteRound(n: nat)
    requires n < 256
    ensures Value(n as bv8) == n
  {
  }

  lemma BytesOfJoin(a: Byte, b: Byte, c: Byte, d: Byte)
    ensures Byte0(Join4(a, b, c, d)) == a && Byte1(Join4(a, b, c, d)) == b
    ensures Byte2(Join4(a, b, c, d)) == c && Byte3(Join4(a, b, c, d)) == d
  {
  }

  lemma StoredByte(n: U32, k: nat)
    requires k < 4
    ensures Value(ByteOf(Stored(n), k)) == ByteOfNumber(n, k)
  {
    var (a, b, c, d) := (n % 256, n / 0x100 % 256, n / 0x1_0000 % 256, n / 0x100_0000 % 256);
    hide Join4, Byte0, Byte1, Byte2, Byte3, Value;
    BytesOfJoin(a as bv8, b as bv8, c as bv8, d as bv8);
    ByteRound(a);
    ByteRound(b);
    ByteRound(c);
    ByteRound(d);
  }

  /** A store puts the bytes of the number at the address and leaves all others. */
  lemma StoreMeans(m: Flat, addr: nat, width: Width, n: U32, a: nat)
    ensures Value(FlatWrite(m, addr, width, Stored(n))(a))
         == if addr <= a < addr + Bytes(width) then ByteOfNumber(n, a - addr) else Value(m(a))
  {
    hide Stored, ByteOf, ByteOfNumber, Value;
    if addr <= a < addr + Bytes(width) {
      StoredByte(n, a - addr);
    }
  }

  // ---- The machine ----

  /** The machine g is f after the effect. */
  ghost predicate Applies(e: Effect, f: FlatMachine, g: FlatMachine) {
    match e
    case Go(cpu) => g == FlatMachine(Running, cpu, f.flat)
    case LoadTo(cpu, rd, addr, width, signed) =>
      if !Aligned(addr, width) then g == f.(status := Faulted)
      else g == FlatMachine(Running, cpu.(regs := With(cpu.regs, rd, Wrap(NumberAt(f.flat, addr, width, signed)))), f.flat)
    case StoreTo(cpu, addr, width, data) =>
      if !Aligned(addr, width) then g == f.(status := Faulted)
      else
        && g.status == Running && g.cpu == cpu
        && forall a: nat :: Value(g.flat(a))
             == if addr <= a < addr + Bytes(width) then ByteOfNumber(data, a - addr) else Value(f.flat(a))
    case Exit => g == f.(status := Exited)
    case Undefined => g == f.(status := Stopped)
  }

  /** The machine is about to execute the instruction. */
  predicate Fetches(f: FlatMachine, i: Instr) {
    InstrOk(i) && f.status == Running && f.cpu.pc % 4 == 0 && BytesAt(f.flat, f.cpu.pc, Four) == Encode(i)
  }

  /** A round of the loop with an instruction in memory at the program counter does what it means. */
  lemma StepMeans(f: FlatMachine, i: Instr)
    requires Fetches(f, i)
    ensures exists e :: Executes(i, f.cpu, e) && Applies(e, f, FlatStep(f))
  {
    hide Executes, Execute, Encode, BytesAt, FlatRead, Number, InstrOk;
    ReadMeans(f.flat, f.cpu.pc, Four);
    var e := Execute(f.cpu, Encode(i));
    EncodedExecutes(i, f.cpu);
    EffectApplies(f, e);
    StepIsEffect(f, e);
  }

  /** What the loop makes of an effect. */
  function Effected(f: FlatMachine, e: Effect): FlatMachine {
    match e
    case Go(cpu) => FlatMachine(Running, cpu, f.flat)
    case LoadTo(cpu, rd, addr, width, signed) =>
      if !Aligned(addr, width) then FlatMachine(Faulted, f.cpu, f.flat)
      else FlatMachine(Running, Land(cpu, rd, Loaded(Number(FlatRead(f.flat, addr, width)), width, signed)), f.flat)
    case StoreTo(cpu, addr, width, data) =>
      if !Aligned(addr, width) then FlatMachine(Faulted, f.cpu, f.flat)
      else FlatMachine(Running, cpu, FlatWrite(f.flat, addr, width, Stored(data)))
    case Exit => FlatMachine(Exited, f.cpu, f.flat)
    case Undefined => FlatMachine(Stopped, f.cpu, f.flat)
  }

  lemma StepIsEffect(f: FlatMachine, e: Effect)
    requires f.status == Running && f.cpu.pc % 4 == 0 && e == Execute(f.cpu, Number(FlatRead(f.flat, f.cpu.pc, Four)))
    ensures FlatStep(f) == Effected(f, e)
  {
    hide Execute, FlatRead, FlatWrite, Number, Stored, Loaded, Land;
  }

  lemma EffectApplies(f: FlatMachine, e: Effect)
    requires f.status == Running
    ensures Applies(e, f, Effected(f, e))
  {
    hide FlatRead, FlatWrite, Number, Stored, Loaded, Wrap, NumberAt, ByteOfNumber, Aligned, Bytes, Value;
    match e
    case LoadTo(cpu, rd, addr, width, signed) =>
      LoadMeans(f.flat, addr, width, signed);
      var v := Wrap(NumberAt(f.flat, addr, width, signed));
      assert cpu.regs[rd := v][0 := 0] == With(cpu.regs, rd, v);
    case StoreTo(cpu, addr, width, data) =>
      forall a: nat ensures Value(FlatWrite(f.flat, addr, width, Stored(data))(a))
             == if addr <= a < addr + Bytes(width) then ByteOfNumber(data, a - addr) else Value(f.flat(a))
      {
        StoreMeans(f.flat, addr, width, data, a);
      }
    case _ =>
  }

  /** What the predictors see of an instruction: the branches, and the jumps as branches that are taken. */
  lemma PredictorSees(i: Instr, cpu: Cpu)
    requires InstrOk(i)
    ensures BranchOf(cpu, Encode(i)) ==
      match i
      case Conditional(c, rs1, rs2, _) => Some(Branch(cpu.pc / 4, Holds(c, cpu.regs[rs1], cpu.regs[rs2])))
      case Jal(_, _) => Some(Branch(cpu.pc / 4, true))
      case Jalr(_, _, _) => Some(Branch(cpu.pc / 4, true))
      case _ => None
  {
    hide EncodeR, EncodeI, EncodeS, EncodeB, EncodeU, EncodeJ, Opcode, F3, Rs1, Rs2, BranchTaken, Holds;
    match i
    case Register(op, rd, rs1, rs2) => DecodeR(0x33, rd, RegF3(op), rs1, rs2, RegF7(op));
    case Immediate(op, rd, rs1, imm) => DecodeI(0x13, rd, ImmF3(op), rs1, imm);
    case ShiftBy(op, rd, rs1, shamt) => DecodeR(0x13, rd, ShiftF3(op), rs1, shamt, if op == SRAI then 0x20 else 0);
    case Conditional(c, rs1, rs2, imm) =>
      DecodeB(0x63, CondF3(c), rs1, rs2, imm);
      BranchMeans(c, cpu.regs[rs1], cpu.regs[rs2]);
    case Load(op, rd, rs1, imm) => DecodeI(0x03, rd, LoadF3(op), rs1, imm);
    case Store(op, rs1, rs2, imm) => DecodeS(0x23, StoreF3(op), rs1, rs2, imm);
    case Lui(rd, upper) => DecodeU(0x37, rd, upper);
    case Auipc(rd, upper) => DecodeU(0x17, rd, upper);
    case Jal(rd, imm) => DecodeJ(0x6f, rd, imm);
    case Jalr(rd, rs1, imm) => DecodeI(0x67, rd, 0, rs1, imm);
    case Ecall => EcallNumbers();
  }

  // ---- Words that encode no instruction ----

  /** An unknown opcode, and a load, store or branch with an unknown number, is passed over. */
  lemma UnknownPassedOver(cpu: Cpu, w: U32)
    requires
      || Opcode(w) !in {0x37, 0x17, 0x6f, 0x67, 0x63, 0x03, 0x23, 0x13, 0x33, 0x73}
      || (Opcode(w) == 0x03 && F3(w) in {3, 6, 7})
      || (Opcode(w) == 0x23 && F3(w) !in {0, 1, 2})
      || (Opcode(w) == 0x63 && F3(w) in {2, 3})
    ensures Execute(cpu, w) == Go(Moved(cpu, 0, 0, Wrap(cpu.pc + 4)))
  {
    hide Opcode, F3, Rd, Rs1, Rs2, ImmI, ImmS, ImmB, Finish, Moved, Wrap, LessSigned;
    FinishMoves(cpu, 0, 0, Wrap(cpu.pc + 4));
  }

  /** An R-type word with another number in its highest field is taken for the operation with zero there. */
  lemma UnknownVariant(op: RegOp, w: U32, a: U32, b: U32)
    requires F7(w) !in {0, 1, 0x20} && RegF7(op) == 0 && F3(w) == RegF3(op)
    ensures RegValue(op, a, b, AluRegister(w, a, b))
  {
    hide F3, F7;
    hide Signed, Wrap, Add, Sub, Mul, ShiftLeft, ShiftRightSigned, MulHigh, LessSigned, DivSigned, RemSigned, DivUnsigned;
    hide XorWords, OrWords, AndWords, Quotient, Remainder;
    AddMeaning(a, b);
    ShiftLeftMeaning(a, b);
    LessMeaning(a, b);
  }

  /** A program counter that is no multiple of four stops the machine with a fault, and a machine that has stopped stays as it is. */
  lemma NoFetch(f: FlatMachine)
    requires f.status != Running || f.cpu.pc % 4 != 0
    ensures FlatStep(f) == if f.status == Running then f.(status := Faulted) else f
  {
    hide Execute, FlatRead, FlatWrite;
  }
}
