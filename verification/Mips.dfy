/** The MIPS processor of machine/mipssim.cc: decoding, execution of one
    instruction, delayed loads, and an immediate-load machine that it refines. */
module Mips {
  import opened Words
  import opened VirtualMemory
  import Multiply

  const HiReg := 32
  const LoReg := 33
  const PCReg := 34
  const NextPCReg := 35
  const PrevPCReg := 36
  const LoadReg := 37
  const LoadValueReg := 38
  const BadVAddrReg := 39
  const NumTotalRegs := 40

  datatype Op =
    | ADD | ADDI | ADDIU | ADDU | AND | ANDI
    | BEQ | BGEZ | BGEZAL | BGTZ | BLEZ | BLTZ | BLTZAL | BNE
    | DIV | DIVU | J | JAL | JALR | JR
    | LB | LBU | LH | LHU | LUI | LW | LWL | LWR
    | MFHI | MFLO | MTHI | MTLO | MULT | MULTU | NOR | OR | ORI
    | SB | SH | SLL | SLLV | SLT | SLTI | SLTIU | SLTU | SRA | SRAV | SRL | SRLV
    | SUB | SUBU | SW | SWL | SWR | XOR | XORI | SYSCALL | UNIMP | RES

  type reg = x: int | 0 <= x < 32

  datatype Instr = Instr(op: Op, rs: reg, rt: reg, rd: reg, extra: word)

  // ------------------------------------------------------------------ decoding

  datatype Format = IFMT | JFMT | RFMT
  datatype OpInfo = SPECIAL | BCOND | Info(op: Op, format: Format)

  /** opTable: what bits 26 to 31 of an instruction stand for. */
  function OpTable(k: nat): OpInfo {
    match k
    case 0 => SPECIAL
    case 1 => BCOND
    case 2 => Info(J, JFMT)
    case 3 => Info(JAL, JFMT)
    case 4 => Info(BEQ, IFMT)
    case 5 => Info(BNE, IFMT)
    case 6 => Info(BLEZ, IFMT)
    case 7 => Info(BGTZ, IFMT)
    case 8 => Info(ADDI, IFMT)
    case 9 => Info(ADDIU, IFMT)
    case 10 => Info(SLTI, IFMT)
    case 11 => Info(SLTIU, IFMT)
    case 12 => Info(ANDI, IFMT)
    case 13 => Info(ORI, IFMT)
    case 14 => Info(XORI, IFMT)
    case 15 => Info(LUI, IFMT)
    case 32 => Info(LB, IFMT)
    case 33 => Info(LH, IFMT)
    case 34 => Info(LWL, IFMT)
    case 35 => Info(LW, IFMT)
    case 36 => Info(LBU, IFMT)
    case 37 => Info(LHU, IFMT)
    case 38 => Info(LWR, IFMT)
    case 40 => Info(SB, IFMT)
    case 41 => Info(SH, IFMT)
    case 42 => Info(SWL, IFMT)
    case 43 => Info(SW, IFMT)
    case 46 => Info(SWR, IFMT)
    case 16 | 17 | 18 | 19 | 48 | 49 | 50 | 51 | 56 | 57 | 58 | 59 => Info(UNIMP, IFMT)
    case _ => Info(RES, IFMT)
  }

  /** specialTable: the operation of a SPECIAL instruction, from its low 6 bits. */
  function SpecialTable(k: nat): Op {
    match k
    case 0 => SLL
    case 2 => SRL
    case 3 => SRA
    case 4 => SLLV
    case 6 => SRLV
    case 7 => SRAV
    case 8 => JR
    case 9 => JALR
    case 12 => SYSCALL
    case 13 => UNIMP
    case 16 => MFHI
    case 17 => MTHI
    case 18 => MFLO
    case 19 => MTLO
    case 24 => MULT
    case 25 => MULTU
    case 26 => DIV
    case 27 => DIVU
    case 32 => ADD
    case 33 => ADDU
    case 34 => SUB
    case 35 => SUBU
    case 36 => AND
    case 37 => OR
    case 38 => XOR
    case 39 => NOR
    case 42 => SLT
    case 43 => SLTU
    case _ => RES
  }

  /** A 16-bit immediate, sign-extended. */
  function Immediate(value: word): word {
    var low := value % 0x1_0000;
    if low >= 0x8000 then low + 0xffff_0000 else low
  }

  function Decode(value: word): Instr {
    var rs, rt, rd := (value / 0x20_0000) % 32, (value / 0x1_0000) % 32, (value / 0x800) % 32;
    match OpTable(value / 0x400_0000)
    case SPECIAL => Instr(SpecialTable(value % 64), rs, rt, rd, (value / 64) % 32)
    case BCOND =>
      var op := if rt == 0 then BLTZ else if rt == 1 then BGEZ
                else if rt == 0x10 then BLTZAL else if rt == 0x11 then BGEZAL else UNIMP;
      Instr(op, rs, rt, rd, Immediate(value))
    case Info(op, IFMT) => Instr(op, rs, rt, rd, Immediate(value))
    case Info(op, RFMT) => Instr(op, rs, rt, rd, (value / 64) % 32)
    case Info(op, JFMT) => Instr(op, rs, rt, rd, value % 0x400_0000)
  }

  /** The fields of an instruction word, as its three formats lay them out. */
  lemma DecodeRegister(rs: reg, rt: reg, rd: reg, shift: nat, funct: nat)
    requires shift < 32 && funct < 64
    ensures var value := funct + 64 * (shift + 32 * (rd + 32 * (rt + 32 * rs)));
      value < WORD && Decode(value) == Instr(SpecialTable(funct), rs, rt, rd, shift)
  {
    hide SpecialTable;
    var c4: nat := rs;
    var c3 := rt + 32 * c4;
    var c2 := rd + 32 * c3;
    var c1 := shift + 32 * c2;
    var value := funct + 64 * c1;
    ModUnique(value, 64, c1, funct);
    ModUnique(c1, 32, c2, shift);
    ModUnique(value, 0x800, c2, funct + 64 * shift);
    ModUnique(c2, 32, c3, rd);
    ModUnique(value, 0x1_0000, c3, funct + 64 * shift + 0x800 * rd);
    ModUnique(c3, 32, c4, rt);
    ModUnique(value, 0x20_0000, c4, funct + 64 * shift + 0x800 * rd + 0x1_0000 * rt);
    ModUnique(value, 0x400_0000, 0, value);
  }

  lemma DecodeImmediate(op: nat, rs: reg, rt: reg, imm: int)
    requires op < 64 && OpTable(op).Info? && OpTable(op).format == IFMT && -0x8000 <= imm < 0x8000
    ensures var value := imm % 0x1_0000 + 0x1_0000 * (rt + 32 * (rs + 32 * op));
      && value < WORD
      && var i := Decode(value); i.op == OpTable(op).op && i.rs == rs && i.rt == rt && Signed(i.extra) == imm
  {
    hide Signed, OpTable, SpecialTable;
    var low := imm % 0x1_0000;
    var c1 := rs + 32 * op;
    var c0 := rt + 32 * c1;
    var value := low + 0x1_0000 * c0;
    ModUnique(value, 0x1_0000, c0, low);
    ModUnique(c0, 32, c1, rt);
    ModUnique(value, 0x20_0000, c1, low + 0x1_0000 * rt);
    ModUnique(c1, 32, op, rs);
    ModUnique(value, 0x400_0000, op, low + 0x1_0000 * rt + 0x20_0000 * rs);
    SignExtends(imm);
  }

  lemma SignExtends(imm: int)
    requires -0x8000 <= imm < 0x8000
    ensures Signed(Immediate(imm % 0x1_0000)) == imm
  {}

  // --------------------------------------------------------------- arithmetic

  predicate Negative(w: word) { w >= 0x8000_0000 }

  /** C's division and remainder, which truncate toward zero. */
  function Quotient(a: int, b: int): int
    requires b != 0
  {
    var q := Abs(a) / Abs(b);
    if (a < 0) == (b < 0) then q else 0 - q
  }

  function Remainder(a: int, b: int): int
    requires b != 0
  {
    var r := Abs(a) % Abs(b);
    if a < 0 then 0 - r else r
  }

  /** The sign tests of ADD, ADDI and SUB find exactly the signed overflows. */
  predicate AddOverflows(a: word, b: word) {
    var sum := Wrap(a + b);
    Negative(a) == Negative(b) && Negative(a) != Negative(sum)
  }

  predicate SubOverflows(a: word, b: word) {
    var diff := Wrap(a - b);
    Negative(a) != Negative(b) && Negative(a) != Negative(diff)
  }

  lemma OverflowExact(a: word, b: word)
    ensures AddOverflows(a, b) <==> !(-0x8000_0000 <= Signed(a) + Signed(b) < 0x8000_0000)
    ensures SubOverflows(a, b) <==> !(-0x8000_0000 <= Signed(a) - Signed(b) < 0x8000_0000)
    ensures !AddOverflows(a, b) ==> Signed(Wrap(a + b)) == Signed(a) + Signed(b)
    ensures !SubOverflows(a, b) ==> Signed(Wrap(a - b)) == Signed(a) - Signed(b)
  {
    hide AddOverflows, SubOverflows, Signed, Wrap;
    AddExact(a, b);
    SubExact(a, b);
  }

  lemma AddExact(a: word, b: word)
    ensures AddOverflows(a, b) <==> !(-0x8000_0000 <= Signed(a) + Signed(b) < 0x8000_0000)
    ensures !AddOverflows(a, b) ==> Signed(Wrap(a + b)) == Signed(a) + Signed(b)
  {}

  lemma SubExact(a: word, b: word)
    ensures SubOverflows(a, b) <==> !(-0x8000_0000 <= Signed(a) - Signed(b) < 0x8000_0000)
    ensures !SubOverflows(a, b) ==> Signed(Wrap(a - b)) == Signed(a) - Signed(b)
  {}

  function ShiftLeft(w: word, k: nat): word { Wrap(w * Pow2(k)) }

  /** The shift of an int to the right, which copies the sign. */
  function ShiftRight(w: word, k: nat): word { Wrap(Signed(w) / Pow2(k)) }

  lemma DivideExact(a: int, b: int)
    requires b != 0
    ensures Quotient(a, b) * b + Remainder(a, b) == a
    ensures Abs(Remainder(a, b)) < Abs(b) && (Remainder(a, b) == 0 || (Remainder(a, b) < 0) == (a < 0))
  {
    var q, r := Abs(a) / Abs(b), Abs(a) % Abs(b);
    DivMod(Abs(a), Abs(b));
    Multiply.Signs(q, b);
    assert q * Abs(b) == if b < 0 then 0 - q * b else q * b;
  }

  lemma FloorDivide(x: int, p: nat, q: int)
    requires p > 0 && q == x / p
    ensures q * p <= x < q * p + p
  {
    assert x == q * p + x % p;
  }

  lemma FloorRange(x: int32, p: nat, q: int)
    requires p > 0 && q * p <= x < q * p + p
    ensures -0x8000_0000 <= q < 0x8000_0000
  {
    assert q * p == q + q * (p - 1);
    assert q * p + p == (q + 1) + (q + 1) * (p - 1);
  }

  /** Right shifts are the floor of a division by a power of two, also for SRL. */
  lemma ShiftRightExact(w: word, k: nat)
    ensures var q := Signed(ShiftRight(w, k));
      q * Pow2(k) <= Signed(w) < q * Pow2(k) + Pow2(k)
  {
    hide Pow2;
    var q := Signed(w) / Pow2(k);
    FloorDivide(Signed(w), Pow2(k), q);
    FloorRange(Signed(w), Pow2(k), q);
    assert Signed(Wrap(q)) == q;
  }

  /** So SRL is the shift that brings in zeros exactly if there is no sign to copy, or
      nothing to shift. */
  lemma LogicalShift(w: word, k: nat)
    ensures ShiftRight(w, k) == w / Pow2(k) <==> !Negative(w) || k == 0
  {
    hide Pow2, Wrap;
    if k == 0 {
      WrapsBack(w);
    } else {
      Pow2Step(k);
      ShiftedParts(w, Pow2(k));
    }
  }

  lemma WrapsBack(w: word)
    ensures Pow2(0) == 1 && Wrap(Signed(w) / 1) == w
  {}

  lemma ShiftedParts(w: word, p: nat)
    requires p >= 2
    ensures Wrap(Signed(w) / p) == w / p <==> !Negative(w)
  {
    hide Wrap;
    var q, r := w / p, Signed(w) / p;
    FloorDivide(w, p, q);
    FloorDivide(Signed(w), p, r);
    Halved(w, p, q);
    FloorRange(Signed(w), p, r);
    if Negative(w) { StaysNegative(Signed(w), p, r); }
    Wrapped(r);
  }

  lemma Wrapped(r: int32)
    ensures Wrap(r) == if r < 0 then r + WORD else r
  {}

  lemma Halved(w: word, p: nat, q: nat)
    requires p >= 2 && q * p <= w
    ensures q < 0x8000_0000
  {
    if q >= 0x8000_0000 { Multiply.MulMono(0x8000_0000, 2, q, p); }
  }

  lemma StaysNegative(x: int, p: nat, q: int)
    requires x < 0 < p && q * p <= x
    ensures q < 0
  {
    if q >= 0 { Multiply.MulMono(0, p, q, p); }
  }

  lemma BitwiseExact(op: LogicOp, a: word, b: word, i: nat)
    requires i < 32
    ensures Bit(Bitwise(op, a, b), i) == Apply(op, Bit(a, i), Bit(b, i))
  {
    LogicBit(op, 32, a, b, i);
  }

  function Flag(b: bool): word { if b then 1 else 0 }

  /** LWL and LWR: the memory word v merged into the register's value was, for an
      address that is byte bytes into its word. */
  function MergeLeft(was: word, v: word, byte: nat): word {
    if byte == 3 then v
    else if byte == 2 then Or(And(was, 0xff), ShiftLeft(v, 8))
    else if byte == 1 then Or(And(was, 0xffff), ShiftLeft(v, 16))
    else Or(And(was, 0xff_ffff), ShiftLeft(v, 24))
  }

  function MergeRight(was: word, v: word, byte: nat): word {
    if byte == 3 then Or(And(was, 0xffff_ff00), And(ShiftRight(v, 24), 0xff))
    else if byte == 2 then Or(And(was, 0xffff_0000), And(ShiftRight(v, 16), 0xffff))
    else if byte == 1 then Or(And(was, 0xff00_0000), And(ShiftRight(v, 8), 0xff_ffff))
    else v
  }

  /** SWL and SWR: the register's value w merged into the memory word v. */
  function SpillLeft(v: word, w: word, byte: nat): word {
    if byte == 3 then w
    else if byte == 2 then Or(And(v, 0xff00_0000), And(ShiftRight(w, 8), 0xff_ffff))
    else if byte == 1 then Or(And(v, 0xffff_0000), And(ShiftRight(w, 16), 0xffff))
    else Or(And(v, 0xffff_ff00), And(ShiftRight(w, 24), 0xff))
  }

  function SpillRight(v: word, w: word, byte: nat): word {
    if byte == 3 then Or(And(v, 0xff_ffff), ShiftLeft(w, 24))
    else if byte == 2 then Or(And(v, 0xffff), ShiftLeft(w, 16))
    else if byte == 1 then Or(And(v, 0xff), ShiftLeft(w, 8))
    else w
  }

  // ---------------------------------------------------------------- execution

  /** What an instruction does, short of writing registers: it traps, or writes
      one register (register 0 if none) and HI and LO, asks for a load, and says
      where to go after the next instruction. */
  datatype Outcome =
    | Trap(e: Exception, bad: word)
    | Done(dest: reg, value: word, hi: word, lo: word, loadReg: reg, loadValue: word, pcAfter: word)

  /** An outcome, and the memory and tables after it. */
  datatype Effect = Effect(o: Outcome, vm: VM)

  /** The values an instruction works on: registers rs and rt, the value that LWL
      and LWR merge into, HI, LO and the next program counter. */
  datatype Operands = Operands(a: word, b: word, was: word, hi: word, lo: word, npc: word)

  /** Whether a branch is taken; a jump always is. */
  predicate Taken(op: Op, a: word, b: word) {
    match op
    case BEQ => a == b
    case BNE => a != b
    case BGTZ => Signed(a) > 0
    case BLEZ => Signed(a) <= 0
    case BGEZ | BGEZAL => !Negative(a)
    case BLTZ | BLTZAL => Negative(a)
    case _ => true
  }

  function Target(i: Instr, a: word, npc: word): word {
    match i.op
    case J | JAL => Or(And(Wrap(npc + 4), 0xf000_0000), Wrap(4 * i.extra))
    case JR | JALR => a
    case _ => Wrap(npc + 4 * i.extra)
  }

  predicate Links(op: Op) { op == BGEZAL || op == BLTZAL || op == JAL || op == JALR }

  function LinkReg(i: Instr): reg {
    if !Links(i.op) then 0 else if i.op == JALR then i.rd else 31
  }

  /** The branches and jumps.  Those with a link write it before they read rs. */
  function Jump(i: Instr, x: Operands): Outcome {
    var after := Wrap(x.npc + 4);
    var a := if Links(i.op) && LinkReg(i) == i.rs then after else x.a;
    var pcAfter := if Taken(i.op, a, x.b) then Target(i, a, x.npc) else after;
    Done(LinkReg(i), if Links(i.op) then after else 0, x.hi, x.lo, 0, 0, pcAfter)
  }

  /** The same, with rs read before the link is written, as on the hardware. */
  function JumpReadingFirst(i: Instr, x: Operands): Outcome {
    var after := Wrap(x.npc + 4);
    var pcAfter := if Taken(i.op, x.a, x.b) then Target(i, x.a, x.npc) else after;
    Done(LinkReg(i), if Links(i.op) then after else 0, x.hi, x.lo, 0, 0, pcAfter)
  }

  /** The order makes no difference, whatever the operands, exactly if the instruction
      does not read the register it links, or branches to where it would go anyway. */
  lemma LinkOrder(i: Instr)
    ensures (forall x :: Jump(i, x) == JumpReadingFirst(i, x)) <==>
      || !Links(i.op) || i.op == JAL || LinkReg(i) != i.rs
      || (i.op != JALR && Wrap(4 * i.extra) == 4)
  {
    hide Jump, JumpReadingFirst, Wrap;
    if Links(i.op) && i.op != JAL && LinkReg(i) == i.rs && (i.op == JALR || Wrap(4 * i.extra) != 4) {
      OrderMatters(i);
    } else {
      forall x ensures Jump(i, x) == JumpReadingFirst(i, x) { OrderSame(i, x); }
    }
  }

  lemma OrderSame(i: Instr, x: Operands)
    requires !Links(i.op) || i.op == JAL || LinkReg(i) != i.rs || (i.op != JALR && Wrap(4 * i.extra) == 4)
    ensures Jump(i, x) == JumpReadingFirst(i, x)
  {
    hide And, Or, Wrap, Negative, Signed;
    if Links(i.op) && i.op != JAL && i.op != JALR && Wrap(4 * i.extra) == 4 { NextAnyway(x.npc, i.extra); }
  }

  lemma NextAnyway(npc: word, extra: word)
    requires Wrap(4 * extra) == 4
    ensures Wrap(npc + 4 * extra) == Wrap(npc + 4)
  {}

  /** JALR goes to its own link; a branch tests the sign of the link. */
  lemma OrderMatters(i: Instr)
    requires Links(i.op) && i.op != JAL && LinkReg(i) == i.rs && (i.op == JALR || Wrap(4 * i.extra) != 4)
    ensures exists x :: Jump(i, x) != JumpReadingFirst(i, x)
  {
    hide And, Or;
    var x := Operands(0x8000_0000, 0, 0, 0, 0, 0);
    assert Jump(i, x).pcAfter != JumpReadingFirst(i, x).pcAfter;
  }

  /** The value a load delivers, from what ReadMem returned. */
  function Loaded(op: Op, was: word, v: word, byte: nat): word {
    match op
    case LB => if v % 0x100 >= 0x80 then v % 0x100 + 0xffff_ff00 else v % 0x100
    case LBU => v % 0x100
    case LH => if v % 0x1_0000 >= 0x8000 then v % 0x1_0000 + 0xffff_0000 else v % 0x1_0000
    case LHU => v % 0x1_0000
    case LWL => MergeLeft(was, v, byte)
    case LWR => MergeRight(was, v, byte)
    case _ => v
  }

  /** The address a load or store computes, the word it lies in, and where. */
  function Address(i: Instr, a: word): word { Wrap(a + i.extra) }

  function WordAt(addr: word): word { addr - addr % 4 }

  function ByteIn(addr: word): nat { addr % 4 }

  /** How many bytes a load reads, and from where. */
  function LoadSize(op: Op): nat {
    if op == LB || op == LBU then 1 else if op == LH || op == LHU then 2 else 4
  }

  function LoadFrom(op: Op, tmp: word): word {
    if op == LWL || op == LWR then WordAt(tmp) else tmp
  }

  /** The alignment test that LH, LHU and LW make themselves. */
  predicate Unaligned(op: Op, tmp: word) {
    (LoadSize(op) == 2 && tmp % 2 != 0) || (op == LW && tmp % 4 != 0)
  }

  /** The loads, which read memory and ask for a delayed load. */
  function LoadOp(i: Instr, x: Operands, vm: VM): (f: Effect)
    requires ValidVM(vm)
    ensures ValidVM(f.vm)
  {
    var tmp := Address(i, x.a);
    if Unaligned(i.op, tmp) then Effect(Trap(AddressErrorException, tmp), vm)
    else match ReadMem(vm, LoadFrom(i.op, tmp), LoadSize(i.op))
      case ReadFault(e) => Effect(Trap(e, LoadFrom(i.op, tmp)), vm)
      case Value(vm', v) =>
        Effect(Done(0, 0, x.hi, x.lo, i.rt, Loaded(i.op, x.was, v, ByteIn(tmp)), Wrap(x.npc + 4)), vm')
  }

  function StoreSize(op: Op): nat {
    if op == SB then 1 else if op == SH then 2 else 4
  }

  function Spilled(op: Op, v: word, w: word, byte: nat): word {
    if op == SWL then SpillLeft(v, w, byte) else SpillRight(v, w, byte)
  }

  function StoreOp(i: Instr, x: Operands, vm: VM): (f: Effect)
    requires ValidVM(vm)
    ensures ValidVM(f.vm)
  {
    var tmp := Address(i, x.a);
    var done := Done(0, 0, x.hi, x.lo, 0, 0, Wrap(x.npc + 4));
    if i.op == SWL || i.op == SWR then
      match ReadMem(vm, WordAt(tmp), 4)
      case ReadFault(e) => Effect(Trap(e, WordAt(tmp)), vm)
      case Value(vm1, v) =>
        match WriteMem(vm1, WordAt(tmp), 4, Spilled(i.op, v, x.b, ByteIn(tmp)))
        case WriteFault(e) => Effect(Trap(e, WordAt(tmp)), vm1)
        case Written(vm2) => Effect(done, vm2)
    else
      match WriteMem(vm, tmp, StoreSize(i.op), x.b)
      case WriteFault(e) => Effect(Trap(e, tmp), vm)
      case Written(vm') => Effect(done, vm')
  }

  /** The instructions that write HI or LO. */
  function HiLo(i: Instr, x: Operands): Outcome {
    var no := Done(0, 0, x.hi, x.lo, 0, 0, Wrap(x.npc + 4));
    match i.op
    case DIV =>
      if x.b == 0 then no.(hi := 0, lo := 0)
      else no.(hi := Wrap(Remainder(Signed(x.a), Signed(x.b))), lo := Wrap(Quotient(Signed(x.a), Signed(x.b))))
    case DIVU =>
      if x.b == 0 then no.(hi := 0, lo := 0) else no.(hi := x.a % x.b, lo := Wrap(x.a / x.b))
    case MULT => var p := Multiply.Split(Signed(x.a) * Signed(x.b)); no.(hi := p.0, lo := p.1)
    case MULTU => var p := Multiply.Split(x.a * x.b); no.(hi := p.0, lo := p.1)
    case MTHI => no.(hi := x.a)
    case _ => no.(lo := x.a)
  }

  /** The instructions that write register rd. */
  function RegisterOp(i: Instr, x: Operands): Outcome {
    var no := Done(i.rd, 0, x.hi, x.lo, 0, 0, Wrap(x.npc + 4));
    match i.op
    case ADD =>
      if AddOverflows(x.a, x.b) then Trap(OverflowException, 0) else no.(value := Wrap(x.a + x.b))
    case SUB =>
      if SubOverflows(x.a, x.b) then Trap(OverflowException, 0) else no.(value := Wrap(x.a - x.b))
    case ADDU => no.(value := Wrap(x.a + x.b))
    case SUBU => no.(value := Wrap(x.a - x.b))
    case AND => no.(value := Bitwise(AndOp, x.a, x.b))
    case OR => no.(value := Bitwise(OrOp, x.a, x.b))
    case XOR => no.(value := Bitwise(XorOp, x.a, x.b))
    case NOR => no.(value := Bitwise(NorOp, x.a, x.b))
    case SLT => no.(value := Flag(Signed(x.a) < Signed(x.b)))
    case SLTU => no.(value := Flag(x.a < x.b))
    case SLL => no.(value := ShiftLeft(x.b, i.extra))
    case SLLV => no.(value := ShiftLeft(x.b, x.a % 32))
    case SRA => no.(value := ShiftRight(x.b, i.extra))
    case SRAV => no.(value := ShiftRight(x.b, x.a % 32))
    case SRL => no.(value := ShiftRight(x.b, i.extra))
    case SRLV => no.(value := ShiftRight(x.b, x.a % 32))
    case MFHI => no.(value := x.hi)
    case _ => no.(value := x.lo)
  }

  /** The instructions with an immediate operand, which write register rt, and
      those that only trap. */
  function ImmediateOp(i: Instr, x: Operands): Outcome {
    var no := Done(i.rt, 0, x.hi, x.lo, 0, 0, Wrap(x.npc + 4));
    match i.op
    case ADDI =>
      if AddOverflows(x.a, i.extra) then Trap(OverflowException, 0) else no.(value := Wrap(x.a + i.extra))
    case ADDIU => no.(value := Wrap(x.a + i.extra))
    case ANDI => no.(value := Bitwise(AndOp, x.a, i.extra % 0x1_0000))
    case ORI => no.(value := Bitwise(OrOp, x.a, i.extra % 0x1_0000))
    case XORI => no.(value := Bitwise(XorOp, x.a, i.extra % 0x1_0000))
    case LUI => no.(value := ShiftLeft(i.extra, 16))
    case SLTI => no.(value := Flag(Signed(x.a) < Signed(i.extra)))
    case SLTIU => no.(value := Flag(x.a < i.extra))
    case SYSCALL => Trap(SyscallException, 0)
    case _ => Trap(IllegalInstrException, 0)
  }

  datatype Kind = Jumps | Loads | Stores | HiLos | Registers | Immediates

  function KindOf(op: Op): Kind {
    match op
    case BEQ | BNE | BGTZ | BLEZ | BGEZ | BLTZ | BGEZAL | BLTZAL | J | JAL | JR | JALR => Jumps
    case LB | LBU | LH | LHU | LW | LWL | LWR => Loads
    case SB | SH | SW | SWL | SWR => Stores
    case DIV | DIVU | MULT | MULTU | MTHI | MTLO => HiLos
    case ADD | SUB | ADDU | SUBU | AND | OR | XOR | NOR | SLT | SLTU
      | SLL | SLLV | SRA | SRAV | SRL | SRLV | MFHI | MFLO => Registers
    case _ => Immediates
  }

  function Execute(i: Instr, x: Operands, vm: VM): (f: Effect)
    requires ValidVM(vm)
    ensures ValidVM(f.vm)
  {
    match KindOf(i.op)
    case Jumps => Effect(Jump(i, x), vm)
    case Loads => LoadOp(i, x, vm)
    case Stores => StoreOp(i, x, vm)
    case HiLos => Effect(HiLo(i, x), vm)
    case Registers => Effect(RegisterOp(i, x), vm)
    case Immediates => Effect(ImmediateOp(i, x), vm)
  }

  // --------------------------------------------------------------- the machine

  datatype Cpu = Cpu(regs: seq<word>, vm: VM)

  predicate Shape(s: Cpu) { |s.regs| == NumTotalRegs && s.regs[LoadReg] < 32 && ValidVM(s.vm) }

  /** What holds before and after every instruction. */
  predicate Inv(s: Cpu) { Shape(s) && s.regs[0] == 0 }

  /** DelayedLoad: finish the load in progress and put another in its place. */
  function DelayedLoad(regs: seq<word>, r: reg, v: word): (regs': seq<word>)
    requires |regs| == NumTotalRegs && regs[LoadReg] < 32
    ensures |regs'| == NumTotalRegs
  {
    regs[regs[LoadReg] := regs[LoadValueReg]][LoadReg := r][LoadValueReg := v][0 := 0]
  }

  function Flush(s: Cpu): Cpu
    requires Shape(s)
  {
    s.(regs := DelayedLoad(s.regs, 0, 0))
  }

  datatype Result = Trapped(e: Exception, s: Cpu) | Ran(s: Cpu)

  /** RaiseException, up to the call of the exception handler. */
  function Raise(s: Cpu, e: Exception, bad: word): Result
    requires Shape(s)
  {
    Trapped(e, Flush(s.(regs := s.regs[BadVAddrReg := bad])))
  }

  function WriteBack(regs: seq<word>, o: Outcome): (regs': seq<word>)
    requires |regs| == NumTotalRegs && o.Done?
    ensures |regs'| == NumTotalRegs && regs'[LoadReg] == regs[LoadReg]
  {
    regs[o.dest := o.value][HiReg := o.hi][LoReg := o.lo]
  }

  function Advance(regs: seq<word>, pcAfter: word): (regs': seq<word>)
    requires |regs| == NumTotalRegs
    ensures |regs'| == NumTotalRegs
  {
    regs[PrevPCReg := regs[PCReg]][PCReg := regs[NextPCReg]][NextPCReg := pcAfter]
  }

  function OperandsOf(regs: seq<word>, i: Instr, was: word): Operands
    requires |regs| == NumTotalRegs
  {
    Operands(regs[i.rs], regs[i.rt], was, regs[HiReg], regs[LoReg], regs[NextPCReg])
  }

  /** LWL and LWR merge into the load in progress, if that is for their target. */
  function Forwarded(regs: seq<word>, rt: reg): word
    requires |regs| == NumTotalRegs
  {
    if regs[LoadReg] == rt then regs[LoadValueReg] else regs[rt]
  }

  /** OneInstruction once the instruction is fetched. */
  function Perform(s: Cpu, i: Instr): Result
    requires Shape(s)
  {
    var f := Execute(i, OperandsOf(s.regs, i, Forwarded(s.regs, i.rt)), s.vm);
    if f.o.Trap? then Raise(Cpu(s.regs, f.vm), f.o.e, f.o.bad)
    else
      var regs := DelayedLoad(WriteBack(s.regs, f.o), f.o.loadReg, f.o.loadValue);
      Ran(Cpu(Advance(regs, f.o.pcAfter), f.vm))
  }

  /** OneInstruction: fetch, decode, execute. */
  function Next(s: Cpu): Result
    requires Shape(s)
  {
    match ReadMem(s.vm, s.regs[PCReg], 4)
    case ReadFault(e) => Raise(s, e, s.regs[PCReg])
    case Value(vm, raw) => Perform(s.(vm := vm), Decode(raw))
  }

  // ------------------------------------------------ delayed against immediate

  /** Whether an instruction reads registers rs and rt, other than by merging. */
  predicate ReadsRs(op: Op) {
    match op
    case J | JAL | MFHI | MFLO | LUI | SYSCALL | UNIMP | RES | SLL | SRA | SRL => false
    case _ => true
  }

  predicate ReadsRt(op: Op) {
    match KindOf(op)
    case Stores => true
    case Registers => op != MFHI && op != MFLO
    case _ => op == BEQ || op == BNE || op == DIV || op == DIVU || op == MULT || op == MULTU
  }

  /** The register an instruction writes at once, or 0. */
  function Writes(i: Instr): reg {
    match i.op
    case BGEZAL | BLTZAL | JAL | JALR => LinkReg(i)
    case ADDI | ADDIU | ANDI | ORI | XORI | LUI | SLTI | SLTIU => i.rt
    case _ => if KindOf(i.op) == Registers then i.rd else 0
  }

  /** No use of the target of the load in progress. */
  predicate NoHazard(s: Cpu, i: Instr)
    requires Shape(s)
  {
    NoReadHazard(s, i) && (s.regs[LoadReg] == 0 || s.regs[LoadReg] != Writes(i))
  }

  predicate NoReadHazard(s: Cpu, i: Instr)
    requires Shape(s)
  {
    var p := s.regs[LoadReg];
    p == 0 || ((ReadsRs(i.op) ==> p != i.rs) && (ReadsRt(i.op) ==> p != i.rt))
  }

  /** A machine whose loads take effect at once. */
  function PerformAtOnce(s: Cpu, i: Instr): Result
    requires Shape(s)
  {
    var f := Execute(i, OperandsOf(s.regs, i, s.regs[i.rt]), s.vm);
    if f.o.Trap? then Trapped(f.o.e, Cpu(s.regs[BadVAddrReg := f.o.bad], f.vm))
    else Ran(Cpu(Advance(WriteBack(s.regs, f.o)[f.o.loadReg := f.o.loadValue][0 := 0], f.o.pcAfter), f.vm))
  }

  function NextAtOnce(s: Cpu): Result
    requires Shape(s)
  {
    match ReadMem(s.vm, s.regs[PCReg], 4)
    case ReadFault(e) => Trapped(e, s.(regs := s.regs[BadVAddrReg := s.regs[PCReg]]))
    case Value(vm, raw) => PerformAtOnce(s.(vm := vm), Decode(raw))
  }

  /** The two sets of operands agree on what the instruction reads. */
  predicate SameReads(i: Instr, x: Operands, y: Operands) {
    && (ReadsRs(i.op) ==> x.a == y.a)
    && (ReadsRt(i.op) ==> x.b == y.b)
    && ((i.op == LWL || i.op == LWR) && i.rt != 0 ==> x.was == y.was)
    && x.hi == y.hi && x.lo == y.lo && x.npc == y.npc
  }

  /** Equal, except perhaps for what is loaded into register 0. */
  predicate Interchangeable(o: Outcome, p: Outcome) {
    o == p || (o.Done? && p.Done? && o.loadReg == 0 && p == o.(loadValue := p.loadValue))
  }

  predicate SameEffect(f: Effect, g: Effect) { f.vm == g.vm && Interchangeable(f.o, g.o) }

  /** An instruction does not depend on the registers it does not read. */
  lemma Irrelevant(i: Instr, x: Operands, y: Operands, vm: VM)
    requires ValidVM(vm) && SameReads(i, x, y)
    ensures SameEffect(Execute(i, x, vm), Execute(i, y, vm))
  {
    hide SameReads, Jump, LoadOp, StoreOp, HiLo, RegisterOp, ImmediateOp, KindOf;
    match KindOf(i.op)
    case Jumps => JumpIrrelevant(i, x, y);
    case Loads => LoadIrrelevant(i, x, y, vm);
    case Stores => StoreIrrelevant(i, x, y, vm);
    case HiLos => HiLoIrrelevant(i, x, y);
    case Registers => RegisterIrrelevant(i, x, y);
    case Immediates => ImmediateIrrelevant(i, x, y);
  }

  lemma JumpIrrelevant(i: Instr, x: Operands, y: Operands)
    requires SameReads(i, x, y) && KindOf(i.op) == Jumps
    ensures Jump(i, x) == Jump(i, y)
  {
    hide Wrap, Signed, Negative, And, Or, Links, LinkReg;
  }

  lemma LoadIrrelevant(i: Instr, x: Operands, y: Operands, vm: VM)
    requires ValidVM(vm) && SameReads(i, x, y) && KindOf(i.op) == Loads
    ensures SameEffect(LoadOp(i, x, vm), LoadOp(i, y, vm))
  {
    hide ReadMem, Loaded, Address, LoadSize, LoadFrom, Unaligned, ByteIn, Wrap;
    var tmp := Address(i, x.a);
    assert LoadSize(i.op) == 1 || LoadSize(i.op) == 2 || LoadSize(i.op) == 4 by { LoadSizes(i.op); }
    var r := ReadMem(vm, LoadFrom(i.op, tmp), LoadSize(i.op));
    if r.Value? && i.rt != 0 { LoadedIrrelevant(i.op, x.was, y.was, r.value, ByteIn(tmp)); }
  }

  lemma LoadSizes(op: Op)
    ensures LoadSize(op) == 1 || LoadSize(op) == 2 || LoadSize(op) == 4
  {}

  lemma LoadedIrrelevant(op: Op, x: word, y: word, v: word, byte: nat)
    requires op == LWL || op == LWR ==> x == y
    ensures Loaded(op, x, v, byte) == Loaded(op, y, v, byte)
  {
    hide MergeLeft, MergeRight;
  }

  lemma StoreIrrelevant(i: Instr, x: Operands, y: Operands, vm: VM)
    requires ValidVM(vm) && SameReads(i, x, y) && KindOf(i.op) == Stores
    ensures StoreOp(i, x, vm) == StoreOp(i, y, vm)
  {
    hide ReadMem, WriteMem, Spilled, Address, WordAt, ByteIn, Wrap;
  }

  lemma HiLoIrrelevant(i: Instr, x: Operands, y: Operands)
    requires SameReads(i, x, y) && KindOf(i.op) == HiLos
    ensures HiLo(i, x) == HiLo(i, y)
  {
    hide Wrap, Signed, Quotient, Remainder, Multiply.Split;
  }

  lemma RegisterIrrelevant(i: Instr, x: Operands, y: Operands)
    requires SameReads(i, x, y) && KindOf(i.op) == Registers
    ensures RegisterOp(i, x) == RegisterOp(i, y)
  {
    hide Wrap, Signed, AddOverflows, SubOverflows, Bitwise, ShiftLeft, ShiftRight, Flag;
  }

  lemma ImmediateIrrelevant(i: Instr, x: Operands, y: Operands)
    requires SameReads(i, x, y)
    ensures ImmediateOp(i, x) == ImmediateOp(i, y)
  {
    hide Wrap, Signed, AddOverflows, SubOverflows, Bitwise, ShiftLeft, KindOf, ReadsRt, Flag;
  }

  /** Which registers an outcome writes and loads. */
  lemma OutcomeShape(i: Instr, x: Operands, vm: VM)
    requires ValidVM(vm)
    ensures var o := Execute(i, x, vm).o;
      o.Done? ==> o.dest == Writes(i) && o.loadReg == if KindOf(i.op) == Loads then i.rt else 0
  {
    hide ReadMem, WriteMem, Wrap, Signed, Negative, AddOverflows, SubOverflows, Bitwise, ShiftLeft, ShiftRight,
      Quotient, Remainder, Multiply.Split, Spilled, Loaded, Address, WordAt, ByteIn, LoadSize, LoadFrom, Unaligned;
  }

  /** Every instruction keeps the invariant, trapped or not. */
  lemma PerformKeeps(s: Cpu, i: Instr)
    requires Shape(s)
    ensures Inv(Perform(s, i).s)
    ensures Perform(s, i).Trapped? ==> Flushed(Perform(s, i).s)
  {
    hide Execute;
  }

  /** No load in progress. */
  predicate Flushed(s: Cpu) { Inv(s) && s.regs[LoadReg] == 0 && s.regs[LoadValueReg] == 0 }

  lemma FlushFlushes(s: Cpu)
    requires Shape(s)
    ensures Flushed(Flush(s)) && Flush(Flush(s)) == Flush(s)
  {
    assert Flush(Flush(s)).regs == Flush(s).regs;
  }

  function FlushResult(r: Result): Result
    requires Shape(r.s)
  {
    r.(s := Flush(r.s))
  }

  /** Writing back and loading commute with finishing the load in progress. */
  lemma Commutes(regs: seq<word>, o: Outcome)
    requires |regs| == NumTotalRegs && regs[LoadReg] < 32 && regs[0] == 0 && o.Done?
    requires regs[LoadReg] == 0 || regs[LoadReg] != o.dest || o.value == regs[LoadValueReg]
    ensures var after := Advance(DelayedLoad(WriteBack(regs, o), o.loadReg, o.loadValue), o.pcAfter);
      var atOnce := WriteBack(DelayedLoad(regs, 0, 0), o)[o.loadReg := o.loadValue][0 := 0];
      DelayedLoad(after, 0, 0) == Advance(atOnce, o.pcAfter)
  {
    var after := Advance(DelayedLoad(WriteBack(regs, o), o.loadReg, o.loadValue), o.pcAfter);
    var u := DelayedLoad(after, 0, 0);
    var v := Advance(WriteBack(DelayedLoad(regs, 0, 0), o)[o.loadReg := o.loadValue][0 := 0], o.pcAfter);
    forall k | 0 <= k < NumTotalRegs ensures u[k] == v[k] {}
  }

  /** What an instruction works on here, and on the machine with immediate loads. */
  function Here(s: Cpu, i: Instr): Operands
    requires Shape(s)
  {
    OperandsOf(s.regs, i, Forwarded(s.regs, i.rt))
  }

  function There(s: Cpu, i: Instr): Operands
    requires Shape(s)
  {
    var f := Flush(s);
    OperandsOf(f.regs, i, f.regs[i.rt])
  }

  predicate SparesLoad(regs: seq<word>, o: Outcome)
    requires |regs| == NumTotalRegs
  {
    o.Trap? || regs[LoadReg] == 0 || o.dest != regs[LoadReg] || o.value == regs[LoadValueReg]
  }

  /** If the operands agree, and the instruction writes into the load in progress at
      most what is being loaded, the load may as well be immediate. */
  lemma OperandsDecide(s: Cpu, i: Instr)
    requires Inv(s) && SameReads(i, Here(s, i), There(s, i))
    requires SparesLoad(s.regs, Execute(i, Here(s, i), s.vm).o)
    ensures Inv(Perform(s, i).s) && FlushResult(Perform(s, i)) == PerformAtOnce(Flush(s), i)
  {
    hide Execute, SameReads, Advance, WriteBack;
    var f := Flush(s);
    Irrelevant(i, Here(s, i), There(s, i), s.vm);
    PerformKeeps(s, i);
    var ex := Execute(i, Here(s, i), s.vm);
    if ex.o.Trap? {
      TrapRefines(Cpu(s.regs, ex.vm), ex.o.e, ex.o.bad);
    } else {
      Commutes(s.regs, ex.o);
      DeadLoad(f.regs, ex.o, Execute(i, There(s, i), s.vm).o);
    }
  }

  /** One instruction with a delayed load does what it does with immediate loads. */
  lemma PerformRefines(s: Cpu, i: Instr)
    requires Inv(s) && NoHazard(s, i)
    ensures Inv(Perform(s, i).s) && FlushResult(Perform(s, i)) == PerformAtOnce(Flush(s), i)
  {
    hide Execute, Perform, PerformAtOnce, SameReads;
    SameOperands(s, i);
    OutcomeShape(i, Here(s, i), s.vm);
    OperandsDecide(s, i);
  }

  lemma TrapRefines(s: Cpu, e: Exception, bad: word)
    requires Shape(s)
    ensures Inv(Raise(s, e, bad).s)
    ensures FlushResult(Raise(s, e, bad)) == Trapped(e, Flush(s).(regs := Flush(s).regs[BadVAddrReg := bad]))
  {
    assert FlushResult(Raise(s, e, bad)).s.regs == Flush(s).regs[BadVAddrReg := bad];
  }

  lemma DeadLoad(regs: seq<word>, o: Outcome, p: Outcome)
    requires |regs| == NumTotalRegs && Interchangeable(o, p) && o.Done?
    ensures p.Done? && p.pcAfter == o.pcAfter
    ensures WriteBack(regs, o)[o.loadReg := o.loadValue][0 := 0] == WriteBack(regs, p)[p.loadReg := p.loadValue][0 := 0]
  {}

  lemma SameOperands(s: Cpu, i: Instr)
    requires Inv(s) && NoReadHazard(s, i)
    ensures SameReads(i, Here(s, i), There(s, i))
  {
    hide ReadsRs, ReadsRt, Writes;
  }

  // --------------------------------------------------------------------- runs

  /** The kernel's exception handler: what it makes of the machine at a time. */
  type Handler = (nat, Exception, Cpu) -> Cpu

  /** A handler returns with no load in progress and register 0 intact. */
  ghost predicate GoodHandler(h: Handler) {
    forall t, e, s :: Flushed(s) ==> Flushed(h(t, e, s))
  }

  lemma NextKeeps(s: Cpu)
    requires Shape(s)
    ensures Inv(Next(s).s) && (Next(s).Trapped? ==> Flushed(Next(s).s))
  {
    hide Perform, ReadMem;
    match ReadMem(s.vm, s.regs[PCReg], 4)
    case ReadFault(e) =>
    case Value(vm, raw) => PerformKeeps(s.(vm := vm), Decode(raw));
  }

  /** One round of Machine::Run: an instruction, and the handler if it traps. */
  ghost function Step(h: Handler, t: nat, s: Cpu): (s': Cpu)
    requires GoodHandler(h) && Shape(s)
    ensures Inv(s')
  {
    NextKeeps(s);
    match Next(s)
    case Ran(s') => s'
    case Trapped(e, s') => h(t, e, s')
  }

  /** The machine after n rounds, interrupted after those rounds that ints names.
      Every state it reaches has register 0 zero and a load in progress, if any,
      for a general register. */
  ghost function Delayed(h: Handler, s: Cpu, n: nat, ints: nat -> bool): (s': Cpu)
    requires GoodHandler(h) && Inv(s)
    ensures Inv(s')
  {
    if n == 0 then s
    else
      var s1 := Step(h, n - 1, Delayed(h, s, n - 1, ints));
      FlushFlushes(s1);
      if ints(n - 1) then Flush(s1) else s1
  }

  ghost function StepAtOnce(h: Handler, t: nat, s: Cpu): (s': Cpu)
    requires GoodHandler(h) && Flushed(s)
    ensures Flushed(s')
  {
    NextAtOnceKeeps(s);
    match NextAtOnce(s)
    case Ran(s') => s'
    case Trapped(e, s') => h(t, e, s')
  }

  lemma NextAtOnceKeeps(s: Cpu)
    requires Flushed(s)
    ensures Flushed(NextAtOnce(s).s)
  {
    hide PerformAtOnce, ReadMem, Decode;
    match ReadMem(s.vm, s.regs[PCReg], 4)
    case ReadFault(e) =>
    case Value(vm, raw) => PerformAtOnceKeeps(s.(vm := vm), Decode(raw));
  }

  lemma PerformAtOnceKeeps(s: Cpu, i: Instr)
    requires Flushed(s)
    ensures Flushed(PerformAtOnce(s, i).s)
  {
    hide Execute;
  }

  /** The machine with immediate loads after n rounds. */
  ghost function AtOnce(h: Handler, s: Cpu, n: nat): (s': Cpu)
    requires GoodHandler(h) && Flushed(s)
    ensures Flushed(s')
  {
    if n == 0 then s else StepAtOnce(h, n - 1, AtOnce(h, s, n - 1))
  }

  /** The instruction about to run does not use the load in progress. */
  predicate Safe(s: Cpu)
    requires Shape(s)
  {
    match ReadMem(s.vm, s.regs[PCReg], 4)
    case ReadFault(_) => true
    case Value(vm, raw) => NoHazard(s.(vm := vm), Decode(raw))
  }

  predicate Never(t: nat) { false }

  /** No instruction of the uninterrupted run uses a load in progress. */
  ghost predicate HazardFree(h: Handler, s: Cpu, n: nat)
    requires GoodHandler(h) && Inv(s)
  {
    forall k | 0 <= k < n :: Safe(Delayed(h, s, k, Never))
  }

  lemma KeepsPC(s: Cpu)
    requires Shape(s)
    ensures Flush(s).regs[PCReg] == s.regs[PCReg]
  {}

  lemma NextRefines(s: Cpu)
    requires Inv(s) && Safe(s)
    ensures Inv(Next(s).s) && FlushResult(Next(s)) == NextAtOnce(Flush(s))
  {
    hide Perform, PerformAtOnce, ReadMem, Raise, DelayedLoad, Decode;
    var f := Flush(s);
    assert f.regs[PCReg] == s.regs[PCReg] by { KeepsPC(s); }
    match ReadMem(s.vm, s.regs[PCReg], 4)
    case ReadFault(e) => TrapRefines(s, e, s.regs[PCReg]);
    case Value(vm, raw) =>
      assert Flush(s.(vm := vm)) == f.(vm := vm);
      PerformRefines(s.(vm := vm), Decode(raw));
  }

  /** t is s, perhaps with the load in progress already finished. */
  predicate Ahead(s: Cpu, t: Cpu) {
    Inv(s) && Inv(t) && Flush(s) == Flush(t) && (t.regs[LoadReg] == s.regs[LoadReg] || t.regs[LoadReg] == 0)
  }

  lemma AheadSafe(s: Cpu, t: Cpu)
    requires Ahead(s, t) && Safe(s)
    ensures Safe(t)
  {
    hide ReadMem, Decode, ReadsRs, ReadsRt, Writes;
    SameFlush(s, t);
  }

  lemma SameFlush(s: Cpu, t: Cpu)
    requires Shape(s) && Shape(t) && Flush(s) == Flush(t)
    ensures s.vm == t.vm && s.regs[PCReg] == t.regs[PCReg]
  {
    assert Flush(s).regs[PCReg] == s.regs[PCReg] && Flush(t).regs[PCReg] == t.regs[PCReg];
  }

  /** The target of the load that an instruction leaves in progress. */
  lemma LoadTarget(s: Cpu, i: Instr)
    requires Shape(s)
    ensures var r := Perform(s, i);
      |r.s.regs| == NumTotalRegs && (r.Ran? ==> r.s.regs[LoadReg] == if KindOf(i.op) == Loads then i.rt else 0)
  {
    hide Execute, KindOf;
    var x := OperandsOf(s.regs, i, Forwarded(s.regs, i.rt));
    OutcomeShape(i, x, s.vm);
  }

  lemma NextAhead(s: Cpu, t: Cpu)
    requires Ahead(s, t) && Safe(s)
    ensures Next(s).Ran? == Next(t).Ran? && Ahead(Next(s).s, Next(t).s)
    ensures Next(s).Trapped? ==> Next(s) == Next(t)
  {
    hide Perform, NextAtOnce, ReadMem, Decode, KindOf, Safe;
    AheadSafe(s, t);
    NextRefines(s);
    NextRefines(t);
    SameFlush(s, t);
    NextKeeps(s);
    NextKeeps(t);
    match ReadMem(s.vm, s.regs[PCReg], 4)
    case ReadFault(e) => FlushedIs(Next(s).s); FlushedIs(Next(t).s);
    case Value(vm, raw) =>
      LoadTarget(s.(vm := vm), Decode(raw));
      LoadTarget(t.(vm := vm), Decode(raw));
      if Next(s).Trapped? { FlushedIs(Next(s).s); FlushedIs(Next(t).s); }
  }

  lemma FlushedIs(s: Cpu)
    requires Flushed(s)
    ensures Flush(s) == s
  {
    assert Flush(s).regs == s.regs;
  }

  lemma StepsAhead(h: Handler, k: nat, s: Cpu, t: Cpu)
    requires GoodHandler(h) && Ahead(s, t) && Safe(s)
    ensures Ahead(Step(h, k, s), Step(h, k, t))
    ensures Flushed(Flush(t)) && Flush(Step(h, k, t)) == StepAtOnce(h, k, Flush(t))
  {
    hide Next, NextAtOnce, Safe;
    FlushFlushes(t);
    AheadSafe(s, t);
    NextAhead(s, t);
    NextKeeps(t);
    NextRefines(t);
    if Next(t).Trapped? {
      FlushedIs(Next(t).s);
      FlushedIs(Step(h, k, t));
    }
  }

  /** Delayed loads refine immediate loads: if the program never uses a load in
      progress, then wherever interrupts fall, finishing the last load gives the
      state of the machine with immediate loads. */
  lemma {:induction false} DelayedRefines(h: Handler, s: Cpu, n: nat, ints: nat -> bool)
    requires GoodHandler(h) && Inv(s) && HazardFree(h, s, n)
    ensures Flushed(Flush(s)) && Flush(Delayed(h, s, n, ints)) == AtOnce(h, Flush(s), n)
    ensures Ahead(Delayed(h, s, n, Never), Delayed(h, s, n, ints))
  {
    hide Step, StepAtOnce, Safe, Flush, Flushed, GoodHandler;
    FlushFlushes(s);
    if n > 0 {
      DelayedRefines(h, s, n - 1, ints);
      var d, u := Delayed(h, s, n - 1, ints), Delayed(h, s, n - 1, Never);
      assert Safe(u);
      StepsAhead(h, n - 1, u, d);
      var d1 := Step(h, n - 1, d);
      FlushFlushes(d1);
      NoLoad(d1);
    }
  }

  lemma NoLoad(s: Cpu)
    requires Shape(s)
    ensures Flush(s).regs[LoadReg] == 0
  {}
}
