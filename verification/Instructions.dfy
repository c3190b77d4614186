/** The instruction set, one operation code at a time: the code each is recognised by,
    and what it leaves in its target, in plain arithmetic or bits
    (machine/mipssim.cc, machine/mipssim.h). */
module Instructions {
  import opened Words
  import opened VirtualMemory
  import opened Mips
  import Multiply
  import Programs

  // -------------------------------------------------------------------- codes

  /** The operations that are coded in bits 26 to 31, or -1. */
  function MajorOf(op: Op): int {
    match op
    case J => 2 case JAL => 3 case BEQ => 4 case BNE => 5 case BLEZ => 6 case BGTZ => 7
    case ADDI => 8 case ADDIU => 9 case SLTI => 10 case SLTIU => 11
    case ANDI => 12 case ORI => 13 case XORI => 14 case LUI => 15
    case LB => 32 case LH => 33 case LWL => 34 case LW => 35 case LBU => 36 case LHU => 37 case LWR => 38
    case SB => 40 case SH => 41 case SWL => 42 case SW => 43 case SWR => 46
    case _ => -1
  }

  /** Those with 0 there, which are coded in the low six bits. */
  function FunctOf(op: Op): int {
    match op
    case SLL => 0 case SRL => 2 case SRA => 3 case SLLV => 4 case SRLV => 6 case SRAV => 7
    case JR => 8 case JALR => 9 case SYSCALL => 12
    case MFHI => 16 case MTHI => 17 case MFLO => 18 case MTLO => 19
    case MULT => 24 case MULTU => 25 case DIV => 26 case DIVU => 27
    case ADD => 32 case ADDU => 33 case SUB => 34 case SUBU => 35
    case AND => 36 case OR => 37 case XOR => 38 case NOR => 39 case SLT => 42 case SLTU => 43
    case _ => -1
  }

  /** Those with 1 there, which are coded in the rt field. */
  function BcondOf(op: Op): int {
    match op
    case BLTZ => 0 case BGEZ => 1 case BLTZAL => 16 case BGEZAL => 17
    case _ => -1
  }

  predicate HasCode(value: word, op: Op) {
    var major := value / 0x400_0000;
    if major == 0 then value % 64 == FunctOf(op)
    else if major == 1 then (value / 0x1_0000) % 32 == BcondOf(op)
    else major == MajorOf(op)
  }

  predicate IsOp(op: Op) { op != UNIMP && op != RES }

  lemma MajorTable(op: Op)
    ensures MajorOf(op) >= 0 ==> OpTable(MajorOf(op)).Info? && OpTable(MajorOf(op)).op == op
  {}

  lemma MajorCode(k: nat)
    ensures OpTable(k).Info? && IsOp(OpTable(k).op) ==> MajorOf(OpTable(k).op) == k
  {}

  lemma FunctTable(op: Op)
    ensures FunctOf(op) >= 0 ==> SpecialTable(FunctOf(op)) == op
  {}

  lemma FunctCode(k: nat)
    ensures IsOp(SpecialTable(k)) ==> FunctOf(SpecialTable(k)) == k
  {}

  /** A word is decoded as an operation exactly if it has that operation's code; all
      other words are unimplemented or reserved. */
  lemma OpcodeExact(value: word, op: Op)
    requires IsOp(op)
    ensures Decode(value).op == op <==> HasCode(value, op)
  {
    hide OpTable, SpecialTable, Immediate, MajorOf, FunctOf, BcondOf;
    var k := value / 0x400_0000;
    FormatOf(k);
    MajorTable(op);
    MajorCode(k);
    FunctTable(op);
    FunctCode(value % 64);
    BcondCode(op, (value / 0x1_0000) % 32);
  }

  lemma BcondCode(op: Op, rt: nat)
    requires IsOp(op)
    ensures BcondOf(op) == rt <==>
      op == if rt == 0 then BLTZ else if rt == 1 then BGEZ
            else if rt == 0x10 then BLTZAL else if rt == 0x11 then BGEZAL else UNIMP
  {}

  /** The fields of every word; the last field is the shift distance, the index of a
      jump, or the immediate with its sign. */
  lemma FieldsExact(value: word)
    ensures var i := Decode(value);
      && i.rs == (value / 0x20_0000) % 32 && i.rt == (value / 0x1_0000) % 32 && i.rd == (value / 0x800) % 32
      && (value / 0x400_0000 == 0 ==> i.extra == (value / 64) % 32)
      && (value / 0x400_0000 == 2 || value / 0x400_0000 == 3 ==> i.extra == value % 0x400_0000)
      && (value / 0x400_0000 == 1 || value / 0x400_0000 > 3 ==>
            -0x8000 <= Signed(i.extra) < 0x8000 && (Signed(i.extra) - value) % 0x1_0000 == 0)
  {
    hide SpecialTable;
    ImmediateExact(value);
    FormatOf(value / 0x400_0000);
    hide OpTable, Immediate, Signed;
  }

  lemma FormatOf(k: nat)
    ensures k == 0 <==> OpTable(k) == SPECIAL
    ensures k == 1 <==> OpTable(k) == BCOND
    ensures k == 2 || k == 3 ==> OpTable(k).Info? && OpTable(k).format == JFMT
    ensures k > 3 ==> OpTable(k).Info? && OpTable(k).format == IFMT
  {}

  lemma ImmediateExact(value: word)
    ensures -0x8000 <= Signed(Immediate(value)) < 0x8000 && (Signed(Immediate(value)) - value) % 0x1_0000 == 0
  {}

  // --------------------------------------------------------------- arithmetic

  /** An instruction that only puts a value in a register. */
  function Plain(dest: reg, value: word, x: Operands): Outcome {
    Done(dest, value, x.hi, x.lo, 0, 0, Wrap(x.npc + 4))
  }

  lemma AdduIs(i: Instr, x: Operands, vm: VM)
    requires ValidVM(vm) && i.op == ADDU
    ensures Execute(i, x, vm) == Effect(Plain(i.rd, Wrap(x.a + x.b), x), vm)
  {
    hide Wrap, Bitwise, Signed, ShiftLeft, ShiftRight, Flag, AddOverflows, SubOverflows,
      LoadOp, StoreOp, Jump, HiLo, ImmediateOp;
  }

  lemma SubuIs(i: Instr, x: Operands, vm: VM)
    requires ValidVM(vm) && i.op == SUBU
    ensures Execute(i, x, vm) == Effect(Plain(i.rd, Wrap(x.a - x.b), x), vm)
  {
    hide Wrap, Bitwise, Signed, ShiftLeft, ShiftRight, Flag, AddOverflows, SubOverflows,
      LoadOp, StoreOp, Jump, HiLo, ImmediateOp;
  }

  lemma AddiuIs(i: Instr, x: Operands, vm: VM)
    requires ValidVM(vm) && i.op == ADDIU
    ensures Execute(i, x, vm) == Effect(Plain(i.rt, Wrap(x.a + i.extra), x), vm)
  {
    hide Wrap, Bitwise, Signed, ShiftLeft, ShiftRight, Flag, AddOverflows, SubOverflows,
      LoadOp, StoreOp, Jump, HiLo, RegisterOp;
  }

  lemma AndIs(i: Instr, x: Operands, vm: VM)
    requires ValidVM(vm) && i.op == AND
    ensures Execute(i, x, vm) == Effect(Plain(i.rd, Bitwise(AndOp, x.a, x.b), x), vm)
  {
    hide Wrap, Bitwise, Signed, ShiftLeft, ShiftRight, Flag, AddOverflows, SubOverflows,
      LoadOp, StoreOp, Jump, HiLo, ImmediateOp;
  }

  lemma OrIs(i: Instr, x: Operands, vm: VM)
    requires ValidVM(vm) && i.op == OR
    ensures Execute(i, x, vm) == Effect(Plain(i.rd, Bitwise(OrOp, x.a, x.b), x), vm)
  {
    hide Wrap, Bitwise, Signed, ShiftLeft, ShiftRight, Flag, AddOverflows, SubOverflows,
      LoadOp, StoreOp, Jump, HiLo, ImmediateOp;
  }

  lemma XorIs(i: Instr, x: Operands, vm: VM)
    requires ValidVM(vm) && i.op == XOR
    ensures Execute(i, x, vm) == Effect(Plain(i.rd, Bitwise(XorOp, x.a, x.b), x), vm)
  {
    hide Wrap, Bitwise, Signed, ShiftLeft, ShiftRight, Flag, AddOverflows, SubOverflows,
      LoadOp, StoreOp, Jump, HiLo, ImmediateOp;
  }

  lemma NorIs(i: Instr, x: Operands, vm: VM)
    requires ValidVM(vm) && i.op == NOR
    ensures Execute(i, x, vm) == Effect(Plain(i.rd, Bitwise(NorOp, x.a, x.b), x), vm)
  {
    hide Wrap, Bitwise, Signed, ShiftLeft, ShiftRight, Flag, AddOverflows, SubOverflows,
      LoadOp, StoreOp, Jump, HiLo, ImmediateOp;
  }

  lemma AndiIs(i: Instr, x: Operands, vm: VM)
    requires ValidVM(vm) && i.op == ANDI
    ensures Execute(i, x, vm) == Effect(Plain(i.rt, Bitwise(AndOp, x.a, i.extra % 0x1_0000), x), vm)
  {
    hide Wrap, Bitwise, Signed, ShiftLeft, ShiftRight, Flag, AddOverflows, SubOverflows,
      LoadOp, StoreOp, Jump, HiLo, RegisterOp;
  }

  lemma OriIs(i: Instr, x: Operands, vm: VM)
    requires ValidVM(vm) && i.op == ORI
    ensures Execute(i, x, vm) == Effect(Plain(i.rt, Bitwise(OrOp, x.a, i.extra % 0x1_0000), x), vm)
  {
    hide Wrap, Bitwise, Signed, ShiftLeft, ShiftRight, Flag, AddOverflows, SubOverflows,
      LoadOp, StoreOp, Jump, HiLo, RegisterOp;
  }

  lemma XoriIs(i: Instr, x: Operands, vm: VM)
    requires ValidVM(vm) && i.op == XORI
    ensures Execute(i, x, vm) == Effect(Plain(i.rt, Bitwise(XorOp, x.a, i.extra % 0x1_0000), x), vm)
  {
    hide Wrap, Bitwise, Signed, ShiftLeft, ShiftRight, Flag, AddOverflows, SubOverflows,
      LoadOp, StoreOp, Jump, HiLo, RegisterOp;
  }

  lemma SltIs(i: Instr, x: Operands, vm: VM)
    requires ValidVM(vm) && i.op == SLT
    ensures Execute(i, x, vm) == Effect(Plain(i.rd, Flag(Signed(x.a) < Signed(x.b)), x), vm)
  {
    hide Wrap, Bitwise, Signed, ShiftLeft, ShiftRight, Flag, AddOverflows, SubOverflows,
      LoadOp, StoreOp, Jump, HiLo, ImmediateOp;
  }

  lemma SltuIs(i: Instr, x: Operands, vm: VM)
    requires ValidVM(vm) && i.op == SLTU
    ensures Execute(i, x, vm) == Effect(Plain(i.rd, Flag(x.a < x.b), x), vm)
  {
    hide Wrap, Bitwise, Signed, ShiftLeft, ShiftRight, Flag, AddOverflows, SubOverflows,
      LoadOp, StoreOp, Jump, HiLo, ImmediateOp;
  }

  lemma SltiIs(i: Instr, x: Operands, vm: VM)
    requires ValidVM(vm) && i.op == SLTI
    ensures Execute(i, x, vm) == Effect(Plain(i.rt, Flag(Signed(x.a) < Signed(i.extra)), x), vm)
  {
    hide Wrap, Bitwise, Signed, ShiftLeft, ShiftRight, Flag, AddOverflows, SubOverflows,
      LoadOp, StoreOp, Jump, HiLo, RegisterOp;
  }

  lemma SltiuIs(i: Instr, x: Operands, vm: VM)
    requires ValidVM(vm) && i.op == SLTIU
    ensures Execute(i, x, vm) == Effect(Plain(i.rt, Flag(x.a < i.extra), x), vm)
  {
    hide Wrap, Bitwise, Signed, ShiftLeft, ShiftRight, Flag, AddOverflows, SubOverflows,
      LoadOp, StoreOp, Jump, HiLo, RegisterOp;
  }

  lemma SllIs(i: Instr, x: Operands, vm: VM)
    requires ValidVM(vm) && i.op == SLL
    ensures Execute(i, x, vm) == Effect(Plain(i.rd, ShiftLeft(x.b, i.extra), x), vm)
  {
    hide Wrap, Bitwise, Signed, ShiftLeft, ShiftRight, Flag, AddOverflows, SubOverflows,
      LoadOp, StoreOp, Jump, HiLo, ImmediateOp;
  }

  lemma SllvIs(i: Instr, x: Operands, vm: VM)
    requires ValidVM(vm) && i.op == SLLV
    ensures Execute(i, x, vm) == Effect(Plain(i.rd, ShiftLeft(x.b, x.a % 32), x), vm)
  {
    hide Wrap, Bitwise, Signed, ShiftLeft, ShiftRight, Flag, AddOverflows, SubOverflows,
      LoadOp, StoreOp, Jump, HiLo, ImmediateOp;
  }

  lemma SraIs(i: Instr, x: Operands, vm: VM)
    requires ValidVM(vm) && i.op == SRA
    ensures Execute(i, x, vm) == Effect(Plain(i.rd, ShiftRight(x.b, i.extra), x), vm)
  {
    hide Wrap, Bitwise, Signed, ShiftLeft, ShiftRight, Flag, AddOverflows, SubOverflows,
      LoadOp, StoreOp, Jump, HiLo, ImmediateOp;
  }

  lemma SravIs(i: Instr, x: Operands, vm: VM)
    requires ValidVM(vm) && i.op == SRAV
    ensures Execute(i, x, vm) == Effect(Plain(i.rd, ShiftRight(x.b, x.a % 32), x), vm)
  {
    hide Wrap, Bitwise, Signed, ShiftLeft, ShiftRight, Flag, AddOverflows, SubOverflows,
      LoadOp, StoreOp, Jump, HiLo, ImmediateOp;
  }

  lemma SrlIs(i: Instr, x: Operands, vm: VM)
    requires ValidVM(vm) && i.op == SRL
    ensures Execute(i, x, vm) == Effect(Plain(i.rd, ShiftRight(x.b, i.extra), x), vm)
  {
    hide Wrap, Bitwise, Signed, ShiftLeft, ShiftRight, Flag, AddOverflows, SubOverflows,
      LoadOp, StoreOp, Jump, HiLo, ImmediateOp;
  }

  lemma SrlvIs(i: Instr, x: Operands, vm: VM)
    requires ValidVM(vm) && i.op == SRLV
    ensures Execute(i, x, vm) == Effect(Plain(i.rd, ShiftRight(x.b, x.a % 32), x), vm)
  {
    hide Wrap, Bitwise, Signed, ShiftLeft, ShiftRight, Flag, AddOverflows, SubOverflows,
      LoadOp, StoreOp, Jump, HiLo, ImmediateOp;
  }

  lemma LuiIs(i: Instr, x: Operands, vm: VM)
    requires ValidVM(vm) && i.op == LUI
    ensures Execute(i, x, vm) == Effect(Plain(i.rt, ShiftLeft(i.extra, 16), x), vm)
  {
    hide Wrap, Bitwise, Signed, ShiftLeft, ShiftRight, Flag, AddOverflows, SubOverflows,
      LoadOp, StoreOp, Jump, HiLo, RegisterOp;
  }

  lemma AddIs(i: Instr, x: Operands, vm: VM)
    requires ValidVM(vm) && i.op == ADD
    ensures Execute(i, x, vm).vm == vm
    ensures Execute(i, x, vm).o ==
      if AddOverflows(x.a, x.b) then Trap(OverflowException, 0) else Plain(i.rd, Wrap(x.a + x.b), x)
  {
    hide Wrap, Bitwise, Signed, ShiftLeft, ShiftRight, Flag, AddOverflows, SubOverflows,
      LoadOp, StoreOp, Jump, HiLo, ImmediateOp;
  }

  lemma SubIs(i: Instr, x: Operands, vm: VM)
    requires ValidVM(vm) && i.op == SUB
    ensures Execute(i, x, vm).vm == vm
    ensures Execute(i, x, vm).o ==
      if SubOverflows(x.a, x.b) then Trap(OverflowException, 0) else Plain(i.rd, Wrap(x.a - x.b), x)
  {
    hide Wrap, Bitwise, Signed, ShiftLeft, ShiftRight, Flag, AddOverflows, SubOverflows,
      LoadOp, StoreOp, Jump, HiLo, ImmediateOp;
  }

  lemma AddiIs(i: Instr, x: Operands, vm: VM)
    requires ValidVM(vm) && i.op == ADDI
    ensures Execute(i, x, vm).vm == vm
    ensures Execute(i, x, vm).o ==
      if AddOverflows(x.a, i.extra) then Trap(OverflowException, 0) else Plain(i.rt, Wrap(x.a + i.extra), x)
  {
    hide Wrap, Bitwise, Signed, ShiftLeft, ShiftRight, Flag, AddOverflows, SubOverflows,
      LoadOp, StoreOp, Jump, HiLo, RegisterOp;
  }

  /** What the instructions that compute a value leave alone. */
  predicate OnlyWrites(x: Operands, f: Effect, vm: VM, dest: reg) {
    && f.vm == vm && f.o.Done? && f.o.dest == dest && f.o.hi == x.hi && f.o.lo == x.lo
    && f.o.loadReg == 0 && f.o.pcAfter == Wrap(x.npc + 4)
  }

  predicate InRange(v: int) { -0x8000_0000 <= v < 0x8000_0000 }

  /** ADD, ADDI and SUB: the exact signed result, or the overflow trap. */
  lemma Arithmetic(i: Instr, x: Operands, vm: VM)
    requires ValidVM(vm) && (i.op == ADD || i.op == ADDI || i.op == SUB)
    ensures var f := Execute(i, x, vm);
      var exact := if i.op == ADD then Signed(x.a) + Signed(x.b)
                   else if i.op == SUB then Signed(x.a) - Signed(x.b) else Signed(x.a) + Signed(i.extra);
      if InRange(exact)
      then OnlyWrites(x, f, vm, if i.op == ADDI then i.rt else i.rd) && Signed(f.o.value) == exact
      else f.o == Trap(OverflowException, 0) && f.vm == vm
  {
    hide Wrap, Signed, AddOverflows, SubOverflows, Execute;
    OverflowExact(x.a, x.b);
    OverflowExact(x.a, i.extra);
    if i.op == ADD {
      AddIs(i, x, vm);
    } else if i.op == SUB {
      SubIs(i, x, vm);
    } else {
      AddiIs(i, x, vm);
    }
  }

  /** ADDU, ADDIU and SUBU: the result modulo 2^32. */
  lemma Modular(i: Instr, x: Operands, vm: VM)
    requires ValidVM(vm) && (i.op == ADDU || i.op == ADDIU || i.op == SUBU)
    ensures var f := Execute(i, x, vm);
      var exact := if i.op == ADDU then x.a + x.b else if i.op == SUBU then x.a - x.b else x.a + i.extra;
      OnlyWrites(x, f, vm, if i.op == ADDIU then i.rt else i.rd) && Congruent(f.o.value, exact)
  {
    hide Wrap, Execute, Congruent;
    WrapCongruent(x.a + x.b);
    WrapCongruent(x.a - x.b);
    WrapCongruent(x.a + i.extra);
    if i.op == ADDU {
      AdduIs(i, x, vm);
    } else if i.op == SUBU {
      SubuIs(i, x, vm);
    } else {
      AddiuIs(i, x, vm);
    }
  }

  predicate Congruent(v: int, w: int) { (v - w) % WORD == 0 }

  lemma WrapCongruent(v: int)
    ensures Congruent(Wrap(v), v)
  {}

  predicate IsLogical(op: Op) {
    op == AND || op == OR || op == XOR || op == NOR || op == ANDI || op == ORI || op == XORI
  }

  /** The bits of the logical operations; an immediate has zeros above bit 15. */
  predicate BitAfter(i: Instr, x: Operands, k: nat) {
    var a, b, low := Bit(x.a, k), Bit(x.b, k), k < 16 && Bit(i.extra, k);
    if i.op == AND then a && b else if i.op == OR then a || b else if i.op == XOR then a != b
    else if i.op == NOR then !a && !b else if i.op == ANDI then a && low else if i.op == ORI then a || low else a != low
  }

  lemma Logical(i: Instr, x: Operands, vm: VM, k: nat)
    requires ValidVM(vm) && k < 32 && IsLogical(i.op)
    ensures var f := Execute(i, x, vm);
      && OnlyWrites(x, f, vm, if i.op == ANDI || i.op == ORI || i.op == XORI then i.rt else i.rd)
      && Bit(f.o.value, k) == BitAfter(i, x, k)
  {
    hide Bit, Bitwise, Wrap, Execute;
    LowHalf(i.extra, k);
    forall op: LogicOp
      ensures Bit(Bitwise(op, x.a, x.b), k) == Apply(op, Bit(x.a, k), Bit(x.b, k))
      ensures Bit(Bitwise(op, x.a, i.extra % 0x1_0000), k) == Apply(op, Bit(x.a, k), Bit(i.extra % 0x1_0000, k))
    {
      BitwiseExact(op, x.a, x.b, k);
      BitwiseExact(op, x.a, i.extra % 0x1_0000, k);
    }
    if i.op == AND {
      AndIs(i, x, vm);
    } else if i.op == OR {
      OrIs(i, x, vm);
    } else if i.op == XOR {
      XorIs(i, x, vm);
    } else if i.op == NOR {
      NorIs(i, x, vm);
    } else if i.op == ANDI {
      AndiIs(i, x, vm);
    } else if i.op == ORI {
      OriIs(i, x, vm);
    } else {
      XoriIs(i, x, vm);
    }
  }

  lemma LowHalf(w: word, k: nat)
    ensures Bit(w % 0x1_0000, k) == (k < 16 && Bit(w, k))
  {
    hide Bit;
    Pow2Sixteen();
    LowBits(w, 16, k);
  }

  lemma Pow2Sixteen()
    ensures Pow2(16) == 0x1_0000
  {
    Pow2Values();
  }

  lemma {:induction false} LowBits(w: nat, n: nat, k: nat)
    ensures Bit(w % Pow2(n), k) == (k < n && Bit(w, k))
  {
    hide Pow2;
    if n == 0 {
      NoBits(w);
      ZeroBit(k);
    } else {
      Pow2Step(n);
      HalfMod(w, Pow2(n - 1));
      var r := w % Pow2(n);
      assert r / 2 == (w / 2) % Pow2(n - 1) && r % 2 == w % 2;
      if k > 0 { LowBits(w / 2, n - 1, k - 1); }
    }
  }

  lemma NoBits(w: nat)
    ensures Pow2(0) == 1 && w % Pow2(0) == 0
  {}

  /** SLT, SLTU, SLTI and SLTIU: 1 if the first operand is smaller, signed or not. */
  predicate Less(i: Instr, x: Operands) {
    if i.op == SLT then Signed(x.a) < Signed(x.b) else if i.op == SLTU then x.a < x.b
    else if i.op == SLTI then Signed(x.a) < Signed(i.extra) else x.a < i.extra
  }

  lemma Comparison(i: Instr, x: Operands, vm: VM)
    requires ValidVM(vm) && (i.op == SLT || i.op == SLTU || i.op == SLTI || i.op == SLTIU)
    ensures var f := Execute(i, x, vm);
      && OnlyWrites(x, f, vm, if i.op == SLT || i.op == SLTU then i.rd else i.rt)
      && f.o.value == if Less(i, x) then 1 else 0
  {
    hide Wrap, Signed, Execute;
    if i.op == SLT {
      SltIs(i, x, vm);
    } else if i.op == SLTU {
      SltuIs(i, x, vm);
    } else if i.op == SLTI {
      SltiIs(i, x, vm);
    } else {
      SltiuIs(i, x, vm);
    }
  }

  /** The distance of a shift: in the instruction, or the low five bits of rs. */
  function Distance(i: Instr, x: Operands): nat {
    if i.op == SLLV || i.op == SRAV || i.op == SRLV then x.a % 32 else i.extra
  }

  /** Left shifts multiply modulo 2^32. */
  lemma LeftShift(i: Instr, x: Operands, vm: VM)
    requires ValidVM(vm) && (i.op == SLL || i.op == SLLV)
    ensures var f := Execute(i, x, vm);
      OnlyWrites(x, f, vm, i.rd) && Congruent(f.o.value, x.b * Pow2(Distance(i, x)))
  {
    hide Wrap, Pow2, Execute, Congruent;
    WrapCongruent(x.b * Pow2(Distance(i, x)));
    if i.op == SLL {
      SllIs(i, x, vm);
    } else {
      SllvIs(i, x, vm);
    }
  }

  /** Right shifts divide, rounding down; SRL and SRLV do too. */
  lemma RightShift(i: Instr, x: Operands, vm: VM)
    requires ValidVM(vm) && (i.op == SRA || i.op == SRAV || i.op == SRL || i.op == SRLV)
    ensures var f, p := Execute(i, x, vm), Pow2(Distance(i, x));
      && OnlyWrites(x, f, vm, i.rd)
      && Signed(f.o.value) * p <= Signed(x.b) < Signed(f.o.value) * p + p
  {
    hide Wrap, Signed, Pow2, Execute, ShiftRight;
    ShiftRightExact(x.b, Distance(i, x));
    if i.op == SRA {
      SraIs(i, x, vm);
    } else if i.op == SRAV {
      SravIs(i, x, vm);
    } else if i.op == SRL {
      SrlIs(i, x, vm);
    } else {
      SrlvIs(i, x, vm);
    }
  }

  /** LUI: the immediate in the upper half, zeros in the lower. */
  lemma LoadUpper(i: Instr, x: Operands, vm: VM)
    requires ValidVM(vm) && i.op == LUI
    ensures var f := Execute(i, x, vm);
      OnlyWrites(x, f, vm, i.rt) && f.o.value == (i.extra % 0x1_0000) * 0x1_0000
  {
    hide Pow2, Wrap, Execute;
    LuiIs(i, x, vm);
    Pow2Sixteen();
    UpperHalf(i.extra);
  }

  lemma UpperHalf(w: word)
    ensures Wrap(w * 0x1_0000) == (w % 0x1_0000) * 0x1_0000
  {
    var q, r := w / 0x1_0000, w % 0x1_0000;
    assert w * 0x1_0000 == q * WORD + r * 0x1_0000;
    ModUnique(w * 0x1_0000, WORD, q, r * 0x1_0000);
  }

  // ----------------------------------------------------------------- HI and LO

  predicate OnlyHiLo(x: Operands, f: Effect, vm: VM) {
    f.vm == vm && f.o.Done? && f.o.dest == 0 && f.o.loadReg == 0 && f.o.pcAfter == Wrap(x.npc + 4)
  }

  /** DIVU: quotient in LO and remainder in HI; both zero for divisor 0. */
  lemma DivideUnsigned(i: Instr, x: Operands, vm: VM)
    requires ValidVM(vm) && i.op == DIVU
    ensures var f := Execute(i, x, vm);
      && OnlyHiLo(x, f, vm)
      && if x.b == 0 then f.o.hi == f.o.lo == 0 else f.o.lo * x.b + f.o.hi == x.a && f.o.hi < x.b
  {
    hide Wrap;
    if x.b != 0 {
      DivMod(x.a, x.b);
      Programs.Bounded(x.a, x.b);
      Small(x.a / x.b);
    }
  }

  lemma Small(v: nat)
    ensures v < WORD ==> Wrap(v) == v
  {}

  /** DIV: the truncating division, unless the quotient does not fit. */
  lemma DivideSigned(i: Instr, x: Operands, vm: VM)
    requires ValidVM(vm) && i.op == DIV && (Signed(x.a) != -0x8000_0000 || Signed(x.b) != -1)
    ensures var f := Execute(i, x, vm);
      var a, b, q, r := Signed(x.a), Signed(x.b), Signed(f.o.lo), Signed(f.o.hi);
      && OnlyHiLo(x, f, vm)
      && if b == 0 then q == r == 0 else q * b + r == a && Abs(r) < Abs(b) && (r == 0 || (r < 0) == (a < 0))
  {
    hide Wrap, Quotient, Remainder;
    if x.b != 0 {
      DivideExact(Signed(x.a), Signed(x.b));
      Programs.QuotientRange(Signed(x.a), Signed(x.b));
      Programs.Fits(Quotient(Signed(x.a), Signed(x.b)));
      Programs.Fits(Remainder(Signed(x.a), Signed(x.b)));
    }
  }

  /** MULTU and MULT: HI and LO are the exact product. */
  lemma Product(i: Instr, x: Operands, vm: VM)
    requires ValidVM(vm) && (i.op == MULT || i.op == MULTU)
    ensures var f := Execute(i, x, vm);
      && OnlyHiLo(x, f, vm)
      && (i.op == MULTU ==> f.o.hi * WORD + f.o.lo == x.a * x.b)
      && (i.op == MULT ==> Signed(f.o.hi) * WORD + f.o.lo == Signed(x.a) * Signed(x.b))
  {
    hide Wrap, Signed, Multiply.Split;
    Programs.ProductRange(x.a, x.b);
    Programs.SplitSigned(Signed(x.a) * Signed(x.b));
    Programs.SplitUnsigned(x.a * x.b);
  }

  /** MFHI, MFLO, MTHI and MTLO. */
  lemma HiLoMoves(i: Instr, x: Operands, vm: VM)
    requires ValidVM(vm)
    ensures var f := Execute(i, x, vm);
      && (i.op == MFHI ==> OnlyWrites(x, f, vm, i.rd) && f.o.value == x.hi)
      && (i.op == MFLO ==> OnlyWrites(x, f, vm, i.rd) && f.o.value == x.lo)
      && (i.op == MTHI ==> OnlyHiLo(x, f, vm) && f.o.hi == x.a && f.o.lo == x.lo)
      && (i.op == MTLO ==> OnlyHiLo(x, f, vm) && f.o.lo == x.a && f.o.hi == x.hi)
  {
    hide Wrap, LoadOp, StoreOp, Jump, ImmediateOp;
  }

  // ------------------------------------------------------- branches and jumps

  /** When a branch is taken. */
  predicate Condition(op: Op, x: Operands) {
    match op
    case BEQ => x.a == x.b
    case BNE => x.a != x.b
    case BGTZ => Signed(x.a) > 0
    case BLEZ => Signed(x.a) <= 0
    case BGEZ => Signed(x.a) >= 0
    case BGEZAL => Signed(x.a) >= 0
    case _ => Signed(x.a) < 0
  }

  predicate IsBranch(op: Op) {
    op == BEQ || op == BNE || op == BGTZ || op == BLEZ || op == BGEZ || op == BLTZ || op == BGEZAL || op == BLTZAL
  }

  predicate OnlyJumps(i: Instr, x: Operands, f: Effect, vm: VM) {
    && f.vm == vm && f.o.Done? && f.o.hi == x.hi && f.o.lo == x.lo && f.o.loadReg == 0
    && f.o.dest == (if i.op == JALR then i.rd else if i.op == JAL || i.op == BGEZAL || i.op == BLTZAL then 31 else 0)
    && (f.o.dest != 0 ==> f.o.value == Wrap(x.npc + 4))
  }

  /** A branch that does not read its own link goes, if its condition holds, its offset
      in words from the delay slot, and otherwise straight on. */
  lemma Branch(i: Instr, x: Operands, vm: VM)
    requires ValidVM(vm) && IsBranch(i.op) && ((i.op == BGEZAL || i.op == BLTZAL) ==> i.rs != 31)
    ensures var f := Execute(i, x, vm);
      && OnlyJumps(i, x, f, vm)
      && Congruent(f.o.pcAfter, x.npc + if Condition(i.op, x) then 4 * Signed(i.extra) else 4)
  {
    hide Wrap, Execute, Jump, Condition, Signed, Congruent, IsBranch, OnlyJumps;
    BranchKind(i.op);
    Jumped(i, x, vm);
    BranchIs(i, x);
    WrapCongruent(x.npc + 4);
    SignedOffset(x.npc, i.extra);
  }

  lemma BranchKind(op: Op)
    requires IsBranch(op)
    ensures KindOf(op) == Jumps
  {}

  lemma Jumped(i: Instr, x: Operands, vm: VM)
    requires ValidVM(vm) && KindOf(i.op) == Jumps
    ensures Execute(i, x, vm) == Effect(Jump(i, x), vm) && OnlyJumps(i, x, Execute(i, x, vm), vm)
  {
    hide Wrap, KindOf, Taken, Target;
  }

  lemma BranchIs(i: Instr, x: Operands)
    requires IsBranch(i.op) && ((i.op == BGEZAL || i.op == BLTZAL) ==> i.rs != 31)
    ensures Jump(i, x).pcAfter == if Condition(i.op, x) then Wrap(x.npc + 4 * i.extra) else Wrap(x.npc + 4)
  {
    hide Wrap, And, Or;
  }

  lemma SignedOffset(npc: word, extra: word)
    ensures Congruent(Wrap(npc + 4 * extra), npc + 4 * Signed(extra))
  {}

  /** J and JAL: the index in words within the 256 megabytes of the delay slot's
      successor. */
  lemma JumpIndex(i: Instr, x: Operands, vm: VM)
    requires ValidVM(vm) && (i.op == J || i.op == JAL) && i.extra < 0x400_0000
    ensures var f, after := Execute(i, x, vm), Wrap(x.npc + 4);
      && OnlyJumps(i, x, f, vm)
      && f.o.pcAfter == after - after % 0x1000_0000 + 4 * i.extra
  {
    hide And, Or, Wrap, Execute, Jump, OnlyJumps, KindOf;
    IndexIs(i, x);
    Jumped(i, x, vm);
    Small(4 * i.extra);
    Region(Wrap(x.npc + 4), 4 * i.extra);
  }

  lemma IndexIs(i: Instr, x: Operands)
    requires i.op == J || i.op == JAL
    ensures KindOf(i.op) == Jumps
    ensures Jump(i, x).pcAfter == Or(And(Wrap(x.npc + 4), 0xf000_0000), Wrap(4 * i.extra))
  {
    hide And, Or, Wrap;
  }

  lemma Region(w: word, index: nat)
    requires index < 0x1000_0000
    ensures Or(And(w, 0xf000_0000), index) == w - w % 0x1000_0000 + index
  {
    Pow2Region();
    hide Pow2;
    var hi := w / 0x1000_0000;
    HighMask(w);
    OrSum(32, 28, index, hi);
    OrSwaps(32, hi * 0x1000_0000, index);
  }

  lemma Pow2Region()
    ensures Pow2(28) == 0x1000_0000 && Pow2(4) == 16 && Pow2(32) == WORD
  {
    Pow2Values();
  }

  lemma HighMask(w: word)
    ensures And(w, 0xf000_0000) == (w / 0x1000_0000) * 0x1000_0000
  {
    Pow2Region();
    MaskHigh(32, 28, w);
  }

  lemma {:induction false} OrSwaps(n: nat, a: nat, b: nat)
    ensures Logic(OrOp, n, a, b) == Logic(OrOp, n, b, a)
  {
    if n > 0 { OrSwaps(n - 1, a / 2, b / 2); }
  }

  /** JR and JALR: to the address in rs, unless JALR has put its link there. */
  lemma JumpRegister(i: Instr, x: Operands, vm: VM)
    requires ValidVM(vm) && (i.op == JR || (i.op == JALR && i.rd != i.rs))
    ensures OnlyJumps(i, x, Execute(i, x, vm), vm) && Execute(i, x, vm).o.pcAfter == x.a
  {
    hide Wrap, Execute;
    Jumped(i, x, vm);
  }

  /** SYSCALL, and everything that is no instruction, traps. */
  lemma Traps(i: Instr, x: Operands, vm: VM)
    requires ValidVM(vm) && (i.op == SYSCALL || i.op == UNIMP || i.op == RES)
    ensures Execute(i, x, vm) ==
      Effect(Trap(if i.op == SYSCALL then SyscallException else IllegalInstrException, 0), vm)
  {
    hide Wrap, AddOverflows, Bitwise, ShiftLeft, LoadOp, StoreOp, Jump, HiLo, RegisterOp;
  }

  // --------------------------------------------------------- loads and stores

  predicate IsLoad(op: Op) { op == LB || op == LBU || op == LH || op == LHU || op == LW }

  /** How many bytes an aligned load or store moves. */
  function Width(op: Op): nat {
    match op
    case LB => 1 case LBU => 1 case SB => 1
    case LH => 2 case LHU => 2 case SH => 2
    case _ => 4
  }

  /** The address: the base plus the signed offset. */
  lemma AddressIs(i: Instr, a: word)
    ensures Congruent(Address(i, a), a + Signed(i.extra))
  {}

  /** The number that bytes stand for. */
  function Number(b: seq<int>): int {
    if b == [] then 0 else b[0] + 0x100 * Number(b[1..])
  }

  function BytesFrom(vm: VM, at: nat, n: nat): (b: seq<int>)
    requires ValidVM(vm)
    ensures |b| == n
  {
    seq(n, k requires 0 <= k < n => ByteAt(vm, at + k))
  }

  /** A load that does not trap asks for its register to be loaded with the bytes at
      its address, extended with zeros or with their sign. */
  predicate LoadedIs(i: Instr, vm: VM, at: word, v: word)
    requires ValidVM(vm)
  {
    var n := Number(BytesFrom(vm, at, Width(i.op)));
    match i.op
    case LB => Signed(v) == if n < 0x80 then n else n - 0x100
    case LH => Signed(v) == if n < 0x8000 then n else n - 0x1_0000
    case _ => v == n
  }

  /** A load traps on an address that is not a multiple of its width, or as reading
      memory does; otherwise the register is to be loaded. */
  lemma LoadExact(i: Instr, x: Operands, vm: VM)
    requires ValidVM(vm) && IsLoad(i.op)
    ensures var f, at := Execute(i, x, vm), Address(i, x.a);
      if at % Width(i.op) != 0 then f == Effect(Trap(AddressErrorException, at), vm)
      else match ReadMem(vm, at, Width(i.op))
        case ReadFault(e) => f == Effect(Trap(e, at), vm)
        case Value(vm', _) =>
          && f.vm == vm' && f.o.Done? && f.o.dest == 0 && f.o.hi == x.hi && f.o.lo == x.lo
          && f.o.pcAfter == Wrap(x.npc + 4) && f.o.loadReg == i.rt && LoadedIs(i, vm, at, f.o.loadValue)
  {
    hide Wrap, ReadMem, Address, LoadedIs, Loaded, Execute;
    LoadIs(i, x, vm);
    var at := Address(i, x.a);
    match ReadMem(vm, at, Width(i.op))
    case ReadFault(_) =>
    case Value(_, v) => LoadedNumber(i, vm, at, x.was, v);
  }

  lemma LoadIs(i: Instr, x: Operands, vm: VM)
    requires ValidVM(vm) && IsLoad(i.op)
    ensures var f, at := Execute(i, x, vm), Address(i, x.a);
      if at % Width(i.op) != 0 then f == Effect(Trap(AddressErrorException, at), vm)
      else match ReadMem(vm, at, Width(i.op))
        case ReadFault(e) => f == Effect(Trap(e, at), vm)
        case Value(vm', v) =>
          f == Effect(Done(0, 0, x.hi, x.lo, i.rt, Loaded(i.op, x.was, v, ByteIn(at)), Wrap(x.npc + 4)), vm')
  {
    hide Wrap, ReadMem, Address, Loaded, ByteIn, StoreOp, Jump, HiLo, RegisterOp, ImmediateOp;
  }

  lemma LoadedNumber(i: Instr, vm: VM, at: word, was: word, v: word)
    requires ValidVM(vm) && IsLoad(i.op)
    requires ReadMem(vm, at, Width(i.op)).Value? && ReadMem(vm, at, Width(i.op)).value == v
    ensures LoadedIs(i, vm, at, Loaded(i.op, was, v, ByteIn(at)))
  {
    hide ReadMem, ByteAt, ByteOf, Number, MergeLeft, MergeRight;
    var n := Width(i.op);
    ReadExact(vm, at, n, at);
    var b := BytesFrom(vm, at, n);
    assert forall k | 0 <= k < n :: b[k] == ByteOf(v, k);
    NumberOf(b, v);
  }

  /** Bytes put together again. */
  lemma NumberOf(b: seq<int>, v: word)
    requires (|b| == 1 || |b| == 2 || |b| == 4) && forall k | 0 <= k < |b| :: b[k] == ByteOf(v, k)
    ensures Number(b) == if |b| == 1 then v % 0x100 else if |b| == 2 then v % 0x1_0000 else v
  {
    hide ByteOf;
    WordBytes(v);
    LowBytes(v);
    Sum(b);
  }

  lemma Sum(b: seq<int>)
    requires |b| == 1 || |b| == 2 || |b| == 4
    ensures Number(b) ==
      if |b| == 1 then b[0] else if |b| == 2 then b[0] + 0x100 * b[1]
      else b[0] + 0x100 * (b[1] + 0x100 * (b[2] + 0x100 * b[3]))
  {
    assert Number(b) == b[0] + 0x100 * Number(b[1..]);
    if |b| > 1 {
      assert Number(b[1..]) == b[1] + 0x100 * Number(b[2..]) by { assert b[1..][1..] == b[2..]; }
      if |b| == 4 {
        assert Number(b[2..]) == b[2] + 0x100 * Number(b[3..]) by { assert b[2..][1..] == b[3..]; }
        assert Number(b[3..]) == b[3] + 0x100 * Number(b[4..]) by { assert b[3..][1..] == b[4..]; }
      }
    }
  }

  /** A store writes the low bytes of rt, or traps as writing memory does. */
  lemma StoreExact(i: Instr, x: Operands, vm: VM)
    requires ValidVM(vm) && (i.op == SB || i.op == SH || i.op == SW)
    ensures var f, at := Execute(i, x, vm), Address(i, x.a);
      match WriteMem(vm, at, Width(i.op), x.b)
      case WriteFault(e) => f == Effect(Trap(e, at), vm)
      case Written(vm') => OnlyWrites(x, f, vm', 0)
  {
    hide Wrap, WriteMem, ReadMem, Address, Jump, HiLo, RegisterOp, ImmediateOp, LoadOp;
  }

  /** The address of the word around an address. */
  function Around(at: word): word { at - at % 4 }

  /** LWL and LWR read the word around their address, and merge; a failure is reported at
      the word's address. */
  lemma LoadAround(i: Instr, x: Operands, vm: VM)
    requires ValidVM(vm) && (i.op == LWL || i.op == LWR)
    ensures var f, at := Execute(i, x, vm), Address(i, x.a);
      match ReadMem(vm, Around(at), 4)
      case ReadFault(e) => f == Effect(Trap(e, Around(at)), vm)
      case Value(vm', v) =>
        var merged := if i.op == LWL then MergeLeft(x.was, v, at % 4) else MergeRight(x.was, v, at % 4);
        f == Effect(Done(0, 0, x.hi, x.lo, i.rt, merged, Wrap(x.npc + 4)), vm')
  {
    hide Wrap, ReadMem, Address, MergeLeft, MergeRight, StoreOp, Jump, HiLo, RegisterOp, ImmediateOp;
  }

  /** SWL and SWR read the word around their address, merge and write it back. */
  lemma StoreAround(i: Instr, x: Operands, vm: VM)
    requires ValidVM(vm) && (i.op == SWL || i.op == SWR)
    ensures var f, at := Execute(i, x, vm), Address(i, x.a);
      match ReadMem(vm, Around(at), 4)
      case ReadFault(e) => f == Effect(Trap(e, Around(at)), vm)
      case Value(vm1, v) =>
        var merged := if i.op == SWL then SpillLeft(v, x.b, at % 4) else SpillRight(v, x.b, at % 4);
        match WriteMem(vm1, Around(at), 4, merged)
        case WriteFault(e) => f == Effect(Trap(e, Around(at)), vm1)
        case Written(vm2) => f == Effect(Plain(0, 0, x), vm2)
  {
    hide Wrap, ReadMem, WriteMem, Address, SpillLeft, SpillRight, LoadOp, Jump, HiLo, RegisterOp, ImmediateOp;
  }

  // -------------------------------------------------------------------- fetch

  /** The instruction that is carried out is the four bytes at the program counter. */
  lemma FetchExact(s: Cpu)
    requires Shape(s)
    ensures var pc := s.regs[PCReg];
      match ReadMem(s.vm, pc, 4)
      case ReadFault(e) => Next(s) == Raise(s, e, pc)
      case Value(vm, raw) =>
        raw == Number(BytesFrom(s.vm, pc, 4)) && Next(s) == Perform(Cpu(s.regs, vm), Decode(raw))
  {
    hide ReadMem, Perform, Decode, ByteAt, ByteOf, Number;
    match ReadMem(s.vm, s.regs[PCReg], 4)
    case ReadFault(_) =>
    case Value(_, raw) =>
      ReadExact(s.vm, s.regs[PCReg], 4, 0);
      NumberOf(BytesFrom(s.vm, s.regs[PCReg], 4), raw);
  }

  /** An instruction works on its two registers, HI, LO and the next program counter;
      LWL and LWR see the load in progress. */
  lemma OperandsExact(s: Cpu, i: Instr)
    requires Shape(s)
    ensures var x := Here(s, i);
      && x.a == s.regs[i.rs] && x.b == s.regs[i.rt] && x.hi == s.regs[HiReg] && x.lo == s.regs[LoReg]
      && x.npc == s.regs[NextPCReg]
      && x.was == if s.regs[LoadReg] == i.rt then s.regs[LoadValueReg] else s.regs[i.rt]
  {}

  function AfterTrap(regs: seq<word>, bad: word, k: nat): word
    requires |regs| == NumTotalRegs && k < NumTotalRegs
  {
    if k == 0 || k == LoadReg || k == LoadValueReg then 0
    else if k == BadVAddrReg then bad else if k == regs[LoadReg] then regs[LoadValueReg] else regs[k]
  }

  function AfterDone(regs: seq<word>, o: Outcome, k: nat): word
    requires |regs| == NumTotalRegs && k < NumTotalRegs && o.Done?
  {
    if k == 0 then 0 else if k == HiReg then o.hi else if k == LoReg then o.lo
    else if k == PrevPCReg then regs[PCReg] else if k == PCReg then regs[NextPCReg]
    else if k == NextPCReg then o.pcAfter else if k == LoadReg then o.loadReg else if k == LoadValueReg then o.loadValue
    else if k == regs[LoadReg] then regs[LoadValueReg] else if k == o.dest then o.value else regs[k]
  }

  /** All registers after an instruction: the load in progress is finished, over what the
      instruction writes, and its own load takes that place; after a trap nothing else
      has changed but the bad address. */
  lemma RetireExact(s: Cpu, i: Instr, k: nat)
    requires Inv(s) && k < NumTotalRegs
    ensures var f, r := Execute(i, Here(s, i), s.vm), Perform(s, i);
      && r.s.vm == f.vm && |r.s.regs| == NumTotalRegs
      && (f.o.Trap? <==> r.Trapped?)
      && (f.o.Trap? ==> r.e == f.o.e && r.s.regs[k] == AfterTrap(s.regs, f.o.bad, k))
      && (f.o.Done? ==> r.s.regs[k] == AfterDone(s.regs, f.o, k))
  {
    hide Execute;
  }
}
