/** The RISC-V simulator: one step of the fetch and execute loop, and whole runs over the paged memory and
    over a flat one. Signed arithmetic wraps around at 32 bits. */
module Simulator {
  import opened Memory
  import opened Predictor
  import opened Bits
  import opened Words
  import opened Isa

  datatype Option<+T> = None | Some(value: T)

  // ---- Words of memory and of registers ----

  /** The number in a word of memory. */
  function Number(w: Word): U32 { w as nat }

  /** The word of memory that holds a number. */
  function Stored(n: U32): Word {
    Join4((n % 256) as bv8, (n / 0x100 % 256) as bv8, (n / 0x1_0000 % 256) as bv8, (n / 0x100_0000 % 256) as bv8)
  }

  // ---- Arithmetic instructions ----

  /** I-type arithmetic. */
  function AluImmediate(inst: U32, v1: U32): U32 {
    var imm, f3, shamt := Wrap(ImmI(inst)), F3(inst), inst / 0x10_0000 % 32;
    if f3 == 0 then Add(v1, imm)
    else if f3 == 2 then Flag(LessSigned(v1, imm))
    else if f3 == 3 then Flag(v1 < imm)
    else if f3 == 4 then XorWords(v1, imm)
    else if f3 == 6 then OrWords(v1, imm)
    else if f3 == 7 then AndWords(v1, imm)
    else if f3 == 1 then ShiftLeft(v1, shamt)
    else if inst / 0x4000_0000 % 2 == 1 then ShiftRightSigned(v1, shamt)
    else ShiftRight(v1, shamt)
  }

  /** R-type arithmetic; a division by zero is undefined. */
  function AluRegister(inst: U32, v1: U32, v2: U32): Option<U32> {
    var f3, f7 := F3(inst), F7(inst);
    if f3 == 0 then Some(if f7 == 0x20 then Sub(v1, v2) else if f7 == 0x01 then Mul(v1, v2) else Add(v1, v2))
    else if f3 == 1 then Some(if f7 == 0x01 then MulHigh(v1, v2) else ShiftLeft(v1, v2))
    else if f3 == 2 then Some(if f7 == 0x01 then MulHigh(v1, v2) else Flag(LessSigned(v1, v2)))
    else if f3 == 3 then Some(if f7 == 0x01 then MulHigh(v1, v2) else Flag(v1 < v2))
    else if f3 == 4 then
      if f7 != 0x01 then Some(XorWords(v1, v2)) else if v2 == 0 then None else Some(DivSigned(v1, v2))
    else if f3 == 5 then
      if f7 == 0x20 then Some(ShiftRightSigned(v1, v2))
      else if f7 != 0x01 then Some(ShiftRight(v1, v2))
      else if v2 == 0 then None else Some(DivUnsigned(v1, v2))
    else if f3 == 6 then
      if f7 != 0x01 then Some(OrWords(v1, v2)) else if v2 == 0 then None else Some(RemSigned(v1, v2))
    else
      if f7 != 0x01 then Some(AndWords(v1, v2)) else if v2 == 0 then None else Some(v1 % v2)
  }

  function BranchTaken(f3: nat, v1: U32, v2: U32): bool {
    || (f3 == 0 && v1 == v2) || (f3 == 1 && v1 != v2)
    || (f3 == 4 && LessSigned(v1, v2)) || (f3 == 5 && !LessSigned(v1, v2))
    || (f3 == 6 && v1 < v2) || (f3 == 7 && v1 >= v2)
  }

  // ---- One instruction ----

  type Registers = r: seq<U32> | |r| == 32 witness seq(32, _ => 0)

  /** What the simulator holds besides memory: the program counter, the registers, the characters still to
      be read and those written. */
  datatype Cpu = Cpu(pc: U32, regs: Registers, input: seq<U32>, output: seq<U32>)

  /** What an instruction asks of memory, or that it ends the run. */
  datatype Effect =
    | Go(cpu: Cpu)
    | LoadTo(cpu: Cpu, rd: Reg, addr: U32, width: Width, signed: bool)
    | StoreTo(cpu: Cpu, addr: U32, width: Width, data: U32)
    | Exit
    | Undefined

  /** The end of the loop body: move on, and register 0 is zero. */
  function Finish(cpu: Cpu, regs: Registers, pc: U32): (r: Cpu)
    ensures r.regs[0] == 0
  {
    cpu.(pc := pc, regs := regs[0 := 0])
  }

  function LoadEffect(cpu: Cpu, inst: U32): Effect {
    var f3, addr := F3(inst), Wrap(cpu.regs[Rs1(inst)] + ImmI(inst));
    var next := Finish(cpu, cpu.regs, Wrap(cpu.pc + 4));
    if f3 == 0 then LoadTo(next, Rd(inst), addr, One, true)
    else if f3 == 4 then LoadTo(next, Rd(inst), addr, One, false)
    else if f3 == 1 then LoadTo(next, Rd(inst), addr, Two, true)
    else if f3 == 5 then LoadTo(next, Rd(inst), addr, Two, false)
    else if f3 == 2 then LoadTo(next, Rd(inst), addr, Four, false)
    else Go(next)
  }

  function StoreEffect(cpu: Cpu, inst: U32): Effect {
    var f3, addr, v2 := F3(inst), Wrap(cpu.regs[Rs1(inst)] + ImmS(inst)), cpu.regs[Rs2(inst)];
    var next := Finish(cpu, cpu.regs, Wrap(cpu.pc + 4));
    if f3 == 0 then StoreTo(next, addr, One, v2)
    else if f3 == 1 then StoreTo(next, addr, Two, v2)
    else if f3 == 2 then StoreTo(next, addr, Four, v2)
    else Go(next)
  }

  /** handle_ecall: getchar (with -1 at the end of the input), putchar, exit. */
  function EcallEffect(cpu: Cpu): Effect {
    var a7, pc := cpu.regs[17], Wrap(cpu.pc + 4);
    if a7 == 1 then
      if cpu.input == [] then Go(Finish(cpu, cpu.regs[10 := 0xffff_ffff], pc))
      else Go(Finish(cpu.(input := cpu.input[1..]), cpu.regs[10 := cpu.input[0]], pc))
    else if a7 == 2 then Go(Finish(cpu.(output := cpu.output + [cpu.regs[10]]), cpu.regs, pc))
    else if a7 == 3 || a7 == 93 then Exit
    else Go(Finish(cpu, cpu.regs, pc))
  }

  function Execute(cpu: Cpu, inst: U32): Effect {
    var op, rd, pc, regs := Opcode(inst), Rd(inst), cpu.pc, cpu.regs;
    var v1, v2, next := regs[Rs1(inst)], regs[Rs2(inst)], Wrap(cpu.pc + 4);
    if op == 0x37 then Go(Finish(cpu, regs[rd := ImmU(inst)], next))
    else if op == 0x17 then Go(Finish(cpu, regs[rd := Add(pc, ImmU(inst))], next))
    else if op == 0x6f then Go(Finish(cpu, regs[rd := next], Wrap(pc + ImmJ(inst))))
    else if op == 0x67 then Go(Finish(cpu, regs[rd := next], ClearLowest(Wrap(v1 + ImmI(inst)))))
    else if op == 0x63 then Go(Finish(cpu, regs, if BranchTaken(F3(inst), v1, v2) then Wrap(pc + ImmB(inst)) else next))
    else if op == 0x03 then LoadEffect(cpu, inst)
    else if op == 0x23 then StoreEffect(cpu, inst)
    else if op == 0x13 then Go(Finish(cpu, regs[rd := AluImmediate(inst, v1)], next))
    else if op == 0x33 then
      match AluRegister(inst, v1, v2)
      case None => Undefined
      case Some(w) => Go(Finish(cpu, regs[rd := w], next))
    else if op == 0x73 then EcallEffect(cpu)
    else Go(Finish(cpu, regs, next))
  }

  /** & ~1 */
  function ClearLowest(w: U32): U32 { w - w % 2 }

  /** What a load puts into the register: the sign is extended, or not. */
  function Loaded(w: U32, width: Width, signed: bool): U32 {
    if !signed then w
    else if width == One then Wrap(SignExtend(w, 0x80))
    else if width == Two then Wrap(SignExtend(w, 0x8000)) else w
  }

  function Land(cpu: Cpu, rd: Reg, w: U32): Cpu {
    cpu.(regs := cpu.regs[rd := w][0 := 0])
  }

  // ---- Runs on the two memories ----

  datatype Status = Running | Exited | Faulted | Stopped

  datatype PagedMachine = PagedMachine(status: Status, cpu: Cpu, pages: Pages)

  datatype FlatMachine = FlatMachine(status: Status, cpu: Cpu, flat: Flat)

  function PagedStep(s: PagedMachine): (s': PagedMachine)
    requires PagesOk(s.pages)
    ensures PagesOk(s'.pages)
  {
    var pc := s.cpu.pc;
    if s.status != Running then s
    else if !Aligned(pc, Four) then s.(status := Faulted)
    else
      var (p, inst) := Read(s.pages, pc, Four);
      match Execute(s.cpu, Number(inst))
      case Go(cpu) => PagedMachine(Running, cpu, p)
      case LoadTo(cpu, rd, addr, width, signed) =>
        if !Aligned(addr, width) then PagedMachine(Faulted, s.cpu, p)
        else
          var (q, w) := Read(p, addr, width);
          PagedMachine(Running, Land(cpu, rd, Loaded(Number(w), width, signed)), q)
      case StoreTo(cpu, addr, width, data) =>
        if !Aligned(addr, width) then PagedMachine(Faulted, s.cpu, p)
        else PagedMachine(Running, cpu, Write(p, addr, width, Stored(data)))
      case Exit => PagedMachine(Exited, s.cpu, p)
      case Undefined => PagedMachine(Stopped, s.cpu, p)
  }

  function FlatStep(s: FlatMachine): FlatMachine {
    var pc := s.cpu.pc;
    if s.status != Running then s
    else if !Aligned(pc, Four) then s.(status := Faulted)
    else
      match Execute(s.cpu, Number(FlatRead(s.flat, pc, Four)))
      case Go(cpu) => FlatMachine(Running, cpu, s.flat)
      case LoadTo(cpu, rd, addr, width, signed) =>
        if !Aligned(addr, width) then FlatMachine(Faulted, s.cpu, s.flat)
        else FlatMachine(Running, Land(cpu, rd, Loaded(Number(FlatRead(s.flat, addr, width)), width, signed)), s.flat)
      case StoreTo(cpu, addr, width, data) =>
        if !Aligned(addr, width) then FlatMachine(Faulted, s.cpu, s.flat)
        else FlatMachine(Running, cpu, FlatWrite(s.flat, addr, width, Stored(data)))
      case Exit => FlatMachine(Exited, s.cpu, s.flat)
      case Undefined => FlatMachine(Stopped, s.cpu, s.flat)
  }

  ghost predicate SameMachine(s: PagedMachine, f: FlatMachine) {
    s.status == f.status && s.cpu == f.cpu && Refines(s.pages, f.flat)
  }

  /** One step of the loop does the same on either memory. */
  lemma StepsAgree(s: PagedMachine, f: FlatMachine)
    requires SameMachine(s, f)
    ensures PagesOk(s.pages) && SameMachine(PagedStep(s), FlatStep(f))
  {
    hide Execute, Loaded, Land, Read, Write, FlatRead, FlatWrite, Refines;
    PagesOfRefinement(s.pages, f.flat);
    var pc := s.cpu.pc;
    if s.status == Running && Aligned(pc, Four) {
      ReadRefines(s.pages, f.flat, pc, Four);
      var (p, inst) := Read(s.pages, pc, Four);
      match Execute(s.cpu, Number(inst))
      case LoadTo(cpu, rd, addr, width, signed) =>
        if Aligned(addr, width) {
          ReadRefines(p, f.flat, addr, width);
        }
      case StoreTo(cpu, addr, width, data) =>
        if Aligned(addr, width) {
          WriteRefines(p, f.flat, addr, width, Stored(data));
        }
      case _ =>
    }
  }

  /** The machine after n rounds of the loop. */
  function PagedRun(s: PagedMachine, n: nat): (r: PagedMachine)
    requires PagesOk(s.pages)
    ensures PagesOk(r.pages)
  {
    if n == 0 then s else PagedStep(PagedRun(s, n - 1))
  }

  function FlatRun(s: FlatMachine, n: nat): FlatMachine {
    if n == 0 then s else FlatStep(FlatRun(s, n - 1))
  }

  /** Every run visits the same program counters and registers on the pages as on the flat memory. */
  lemma {:induction false} RunsAgree(s: PagedMachine, f: FlatMachine, n: nat)
    requires SameMachine(s, f)
    ensures PagesOk(s.pages) && SameMachine(PagedRun(s, n), FlatRun(f, n))
  {
    hide PagedStep, FlatStep, Refines;
    PagesOfRefinement(s.pages, f.flat);
    if n > 0 {
      RunsAgree(s, f, n - 1);
      StepsAgree(PagedRun(s, n - 1), FlatRun(f, n - 1));
    }
  }

  /** Register 0 is zero at every loop head. */
  lemma {:induction false} ZeroStaysZero(s: PagedMachine, n: nat)
    requires PagesOk(s.pages) && s.cpu.regs[0] == 0
    ensures PagedRun(s, n).cpu.regs[0] == 0
  {
    hide PagedStep;
    if n > 0 {
      ZeroStaysZero(s, n - 1);
      ZeroStep(PagedRun(s, n - 1));
    }
  }

  lemma ZeroStep(s: PagedMachine)
    requires PagesOk(s.pages) && s.cpu.regs[0] == 0
    ensures PagedStep(s).cpu.regs[0] == 0
  {
    hide Read, Write, Loaded, Execute, Finish;
    if s.status == Running && Aligned(s.cpu.pc, Four) {
      var inst := Number(Read(s.pages, s.cpu.pc, Four).1);
      ExecuteZero(s.cpu, inst);
    }
  }

  lemma ExecuteZero(cpu: Cpu, inst: U32)
    ensures var e := Execute(cpu, inst); e.Go? || e.LoadTo? || e.StoreTo? ==> e.cpu.regs[0] == 0
  {
    hide AluImmediate, AluRegister, BranchTaken, ImmI, ImmS, ImmB, ImmU, ImmJ, Opcode, F3, F7, Rs1, Rs2, Rd, Finish;
    hide LoadEffect, StoreEffect, EcallEffect;
    LoadZero(cpu, inst);
    StoreZero(cpu, inst);
    EcallZero(cpu);
  }

  lemma LoadZero(cpu: Cpu, inst: U32)
    ensures var e := LoadEffect(cpu, inst); (e.Go? || e.LoadTo?) && e.cpu.regs[0] == 0
  {
    hide ImmI, F3, Rs1, Rd, Finish;
  }

  lemma StoreZero(cpu: Cpu, inst: U32)
    ensures var e := StoreEffect(cpu, inst); (e.Go? || e.StoreTo?) && e.cpu.regs[0] == 0
  {
    hide ImmS, F3, Rs1, Rs2, Finish;
  }

  lemma EcallZero(cpu: Cpu)
    ensures var e := EcallEffect(cpu); e.Exit? || (e.Go? && e.cpu.regs[0] == 0)
  {
    hide Finish;
  }

  // ---- Branch prediction along a run ----

  /** What the predictors see of an instruction: jumps are branches that are always taken. */
  function BranchOf(cpu: Cpu, inst: U32): Option<Branch> {
    var op, word := Opcode(inst), cpu.pc / 4;
    if op == 0x6f || op == 0x67 then Some(Branch(word, true))
    else if op == 0x63 then Some(Branch(word, BranchTaken(F3(inst), cpu.regs[Rs1(inst)], cpu.regs[Rs2(inst)])))
    else None
  }

  /** The branch, if any, that a machine is about to execute. */
  function NextBranch(s: PagedMachine): seq<Branch>
    requires PagesOk(s.pages)
  {
    if s.status != Running || !Aligned(s.cpu.pc, Four) then [] else
    match BranchOf(s.cpu, Number(Read(s.pages, s.cpu.pc, Four).1))
    case None => []
    case Some(b) => [b]
  }

  /** The branches of the first n rounds. */
  function Branches(s: PagedMachine, n: nat): seq<Branch>
    requires PagesOk(s.pages)
  {
    if n == 0 then [] else Branches(s, n - 1) + NextBranch(PagedRun(s, n - 1))
  }

  lemma TablesGrow(run: seq<Branch>, b: Branch, size: nat)
    requires size > 0
    ensures BimodalEvents(run + [b], size) == BimodalEvents(run, size) + [Event(b.word % size, b.taken)]
    ensures GshareEvents(run + [b], size)
         == GshareEvents(run, size) + [Event(Xor(b.word, HistoryAfter(run)) % size, b.taken)]
    ensures HistoryAfter(run + [b]) == History(HistoryAfter(run), b.taken)
  {
    hide Xor, History, HistoryAfter;
    var r, i := run + [b], |run|;
    assert r[..i] == run && r[..i + 1] == r && r[i] == b;
    EventsGrow(r, size, i);
  }

  /** simulate: n rounds of the loop with the tables of one size. The machine is the one that the steps
      define, and the error counters are those of the branches it executed, within their bound. */
  method Simulate(start: PagedMachine, n: nat, size: nat) returns (s: PagedMachine, bimodalErrors: nat, gshareErrors: nat)
    requires PagesOk(start.pages) && size > 0
    ensures s == PagedRun(start, n)
    ensures var events := BimodalEvents(Branches(start, n), size);
      bimodalErrors == Errors(Fresh(size), events) <= Budget(events, size)
    ensures var events := GshareEvents(Branches(start, n), size);
      gshareErrors == Errors(Fresh(size), events) <= Budget(events, size)
  {
    hide PagedStep, Xor, Errors, Fresh, Final, History, HistoryAfter, Budget, NextBranch, BimodalEvents, GshareEvents;
    s := start;
    var bimodal := new Table(size);
    var gshare := new Table(size);
    var ghr := 0;
    NoEvents(size);
    for i := 0 to n
      invariant PagesOk(s.pages) && s == PagedRun(start, i)
      invariant fresh(bimodal) && fresh(bimodal.counters) && fresh(gshare) && fresh(gshare.counters)
      invariant bimodal != gshare && bimodal.counters != gshare.counters
      invariant bimodal.counters.Length == gshare.counters.Length == size
      invariant bimodal.Valid() && bimodal.events == BimodalEvents(Branches(start, i), size)
      invariant gshare.Valid() && gshare.events == GshareEvents(Branches(start, i), size)
      invariant ghr == HistoryAfter(Branches(start, i))
    {
      ghost var run := Branches(start, i);
      var next := NextBranch(s);
      NextBranchIsOne(s);
      if next != [] {
        var b := next[0];
        TablesGrow(run, b, size);
        assert Branches(start, i + 1) == run + [b];
        var p := bimodal.Observe(b.word % size, b.taken);
        var g := gshare.Observe(Xor(b.word, ghr) % size, b.taken);
        ghr := History(ghr, b.taken);
      } else {
        assert Branches(start, i + 1) == run;
      }
      s := PagedStep(s);
    }
    bimodalErrors, gshareErrors := bimodal.errors, gshare.errors;
    ErrorBound(size, BimodalEvents(Branches(start, n), size));
    ErrorBound(size, GshareEvents(Branches(start, n), size));
  }

  lemma NextBranchIsOne(s: PagedMachine)
    requires PagesOk(s.pages)
    ensures NextBranch(s) == [] || NextBranch(s) == [NextBranch(s)[0]]
  {
    hide BranchOf, Read;
  }

  lemma NoEvents(size: nat)
    requires size > 0
    ensures BimodalEvents([], size) == [] && GshareEvents([], size) == [] && HistoryAfter([]) == 0
  {
  }
}
