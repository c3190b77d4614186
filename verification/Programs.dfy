/** Short instruction sequences: what programs rely on across instructions. */
module Programs {
  import opened Words
  import opened VirtualMemory
  import opened Mips
  import opened Unaligned
  import Multiply

  /** The machine between instructions, with no load in progress. */
  predicate Ready(s: Cpu) { Inv(s) && s.regs[LoadReg] == 0 }

  /** The instruction takes s to s', without a trap. */
  predicate Runs(s: Cpu, i: Instr, s': Cpu) { Ready(s) && Shape(s') && Perform(s, i) == Ran(s') }

  /** What an instruction that neither loads nor traps leaves in each register. */
  lemma RegistersAfter(s: Cpu, i: Instr)
    requires Ready(s) && Execute(i, Here(s, i), s.vm).o.Done? && KindOf(i.op) != Loads
    ensures var f := Execute(i, Here(s, i), s.vm);
      var r := Perform(s, i);
      && r.Ran? && Ready(r.s) && r.s.vm == f.vm
      && r.s.regs[HiReg] == f.o.hi && r.s.regs[LoReg] == f.o.lo
      && r.s.regs[PCReg] == s.regs[NextPCReg] && r.s.regs[NextPCReg] == f.o.pcAfter
      && forall k | 1 <= k < 32 :: r.s.regs[k] == if k == f.o.dest then f.o.value else s.regs[k]
  {
    hide Execute, KindOf;
    OutcomeShape(i, Here(s, i), s.vm);
    PerformKeeps(s, i);
  }

  // ------------------------------------------------------------------- products

  lemma SplitSigned(v: int)
    requires -0x4000_0000_0000_0000 <= v <= 0x4000_0000_0000_0000
    ensures var p := Multiply.Split(v); Signed(p.0) * WORD + p.1 == v
  {
    assert v == (v / WORD) * WORD + v % WORD;
  }

  lemma SplitUnsigned(v: nat)
    requires v < WORD * WORD
    ensures var p := Multiply.Split(v); p.0 * WORD + p.1 == v
  {
    assert v == (v / WORD) * WORD + v % WORD;
  }

  lemma ProductRange(a: word, b: word)
    ensures -0x4000_0000_0000_0000 <= Signed(a) * Signed(b) <= 0x4000_0000_0000_0000
    ensures 0 <= a * b < WORD * WORD
  {
    Multiply.MulMono(a, b, WORD - 1, WORD - 1);
    if Signed(a) != 0 && Signed(b) != 0 {
      Multiply.SignedMagnitude(Signed(a), Signed(b));
    } else {
      Multiply.ZeroProduct(Signed(a), Signed(b));
    }
  }

  function ProductOf(op: Op, a: word, b: word): int {
    if op == MULT then Signed(a) * Signed(b) else (a as int) * (b as int)
  }

  lemma MulRuns(s: Cpu, i: Instr) returns (s': Cpu)
    requires Ready(s) && (i.op == MULT || i.op == MULTU)
    ensures Runs(s, i, s') && Ready(s')
    ensures (s'.regs[HiReg], s'.regs[LoReg]) == Multiply.Split(ProductOf(i.op, s.regs[i.rs], s.regs[i.rt]))
  {
    hide Perform, Multiply.Split, Signed, Jump, LoadOp, StoreOp, ImmediateOp, RegisterOp, Wrap;
    RegistersAfter(s, i);
    s' := Perform(s, i).s;
  }

  lemma MoveRuns(s: Cpu, i: Instr) returns (s': Cpu)
    requires Ready(s) && (i.op == MFHI || i.op == MFLO) && i.rd != 0
    ensures Runs(s, i, s') && Ready(s') && s'.regs[HiReg] == s.regs[HiReg] && s'.regs[LoReg] == s.regs[LoReg]
    ensures s'.regs[i.rd] == if i.op == MFHI then s.regs[HiReg] else s.regs[LoReg]
    ensures forall k | 1 <= k < 32 && k != i.rd :: s'.regs[k] == s.regs[k]
  {
    hide Perform, Jump, LoadOp, StoreOp, ImmediateOp, HiLo, Wrap, Signed, Bitwise, ShiftLeft, ShiftRight;
    RegistersAfter(s, i);
    s' := Perform(s, i).s;
  }

  /** The two words that MFHI and MFLO fetch after MULT or MULTU are the product. */
  lemma ProductMoves(s: Cpu, mul: Instr, high: Instr, low: Instr) returns (s1: Cpu, s2: Cpu, s3: Cpu)
    requires Ready(s) && (mul.op == MULT || mul.op == MULTU) && high.op == MFHI && low.op == MFLO
    requires high.rd != 0 && low.rd != 0 && high.rd != low.rd
    ensures Runs(s, mul, s1) && Runs(s1, high, s2) && Runs(s2, low, s3)
    ensures mul.op == MULT ==>
      Signed(s3.regs[high.rd]) * WORD + s3.regs[low.rd] == Signed(s.regs[mul.rs]) * Signed(s.regs[mul.rt])
    ensures mul.op == MULTU ==>
      (s3.regs[high.rd] as int) * WORD + s3.regs[low.rd] == (s.regs[mul.rs] as int) * (s.regs[mul.rt] as int)
  {
    hide Perform, Runs, Multiply.Split, Signed;
    var a, b := s.regs[mul.rs], s.regs[mul.rt];
    s1 := MulRuns(s, mul);
    s2 := MoveRuns(s1, high);
    s3 := MoveRuns(s2, low);
    ProductRange(a, b);
    if mul.op == MULT { SplitSigned(ProductOf(MULT, a, b)); } else { SplitUnsigned(ProductOf(MULTU, a, b)); }
  }

  // ------------------------------------------------------------------ quotients

  lemma DivRuns(s: Cpu, i: Instr) returns (s': Cpu)
    requires Ready(s) && i.op == DIV
    ensures Runs(s, i, s') && Ready(s')
    ensures s.regs[i.rt] == 0 ==> s'.regs[LoReg] == s'.regs[HiReg] == 0
    ensures s.regs[i.rt] != 0 ==>
      && s'.regs[LoReg] == Wrap(Quotient(Signed(s.regs[i.rs]), Signed(s.regs[i.rt])))
      && s'.regs[HiReg] == Wrap(Remainder(Signed(s.regs[i.rs]), Signed(s.regs[i.rt])))
  {
    hide Perform, Jump, LoadOp, StoreOp, ImmediateOp, RegisterOp, Wrap, Quotient, Remainder;
    RegistersAfter(s, i);
    s' := Perform(s, i).s;
  }

  lemma Fits(q: int)
    requires -0x8000_0000 <= q < 0x8000_0000
    ensures Signed(Wrap(q)) == q
  {}

  lemma QuotientRange(a: int32, b: int32)
    requires b != 0 && (a != -0x8000_0000 || b != -1)
    ensures -0x8000_0000 <= Quotient(a, b) < 0x8000_0000 && -0x8000_0000 <= Remainder(a, b) < 0x8000_0000
  {
    Bounded(Abs(a), Abs(b));
  }

  lemma Bounded(x: nat, y: nat)
    requires y > 0
    ensures 0 <= x / y <= x && (y == 1 ==> x / y == x) && (y >= 2 ==> 2 * (x / y) <= x) && 0 <= x % y < y
  {
    var q := x / y;
    DivMod(x, y);
    if y == 1 {
      assert q * y == q;
    } else {
      Multiply.MulMono(2, q, y, q);
    }
  }

  /** After DIV, MFLO fetches the quotient and MFHI the remainder of the truncating
      division, or both zero if the divisor is; a quotient that does not fit in a
      word is undefined in the host's division. */
  lemma QuotientMoves(s: Cpu, div: Instr, high: Instr, low: Instr) returns (s1: Cpu, s2: Cpu, s3: Cpu)
    requires Ready(s) && div.op == DIV && high.op == MFHI && low.op == MFLO
    requires high.rd != 0 && low.rd != 0 && high.rd != low.rd
    requires Signed(s.regs[div.rs]) != -0x8000_0000 || Signed(s.regs[div.rt]) != -1
    ensures Runs(s, div, s1) && Runs(s1, high, s2) && Runs(s2, low, s3)
    ensures var a, b, h, l := Signed(s.regs[div.rs]), Signed(s.regs[div.rt]), Signed(s3.regs[high.rd]),
      Signed(s3.regs[low.rd]);
      if b == 0 then h == l == 0 else l == Quotient(a, b) && h == Remainder(a, b)
  {
    hide Perform, Runs, Quotient, Remainder, Wrap;
    s1 := DivRuns(s, div);
    s2 := MoveRuns(s1, high);
    s3 := MoveRuns(s2, low);
    var a, b := Signed(s.regs[div.rs]), Signed(s.regs[div.rt]);
    if b != 0 {
      QuotientRange(a, b);
      Fits(Quotient(a, b));
      Fits(Remainder(a, b));
    }
  }

  // --------------------------------------------------------------------- calls

  lemma JumpRuns(s: Cpu, i: Instr)
    requires Ready(s) && KindOf(i.op) == Jumps
    ensures var o := Jump(i, Here(s, i));
      var r := Perform(s, i);
      && r.Ran? && Ready(r.s) && r.s.regs[PCReg] == s.regs[NextPCReg] && r.s.regs[NextPCReg] == o.pcAfter
      && forall k | 1 <= k < 32 :: r.s.regs[k] == if k == o.dest then o.value else s.regs[k]
  {
    hide Perform, Jump, LoadOp, StoreOp, ImmediateOp, HiLo, RegisterOp;
    assert Execute(i, Here(s, i), s.vm) == Effect(Jump(i, Here(s, i)), s.vm);
    JumpIsDone(i, Here(s, i));
    RegistersAfter(s, i);
  }

  lemma JumpIsDone(i: Instr, x: Operands)
    ensures Jump(i, x).Done? && Jump(i, x).dest == LinkReg(i)
    ensures Links(i.op) ==> Jump(i, x).value == Wrap(x.npc + 4)
    ensures i.op == JR ==> Jump(i, x).pcAfter == x.a
  {}

  /** A jump back through the register that a call linked resumes two instructions
      after the call. */
  lemma CallReturns(s: Cpu, call: Instr, back: Instr) returns (s1: Cpu, s2: Cpu)
    requires Ready(s) && Links(call.op) && back.op == JR && back.rs == LinkReg(call) != 0
    ensures Runs(s, call, s1) && s1.regs[PCReg] == s.regs[NextPCReg]
    ensures Runs(s1, back, s2) && s2.regs[PCReg] == s1.regs[NextPCReg]
    ensures s2.regs[NextPCReg] == Wrap((s.regs[NextPCReg] as int) + 4)
  {
    hide Perform, Jump, Wrap;
    JumpRuns(s, call);
    JumpIsDone(call, Here(s, call));
    s1 := Perform(s, call).s;
    JumpRuns(s1, back);
    JumpIsDone(back, Here(s1, back));
    s2 := Perform(s1, back).s;
  }

  // ------------------------------------------------------- stores and loads

  predicate Pairs(st: Op, ld: Op) {
    match st
    case SW => ld == LW
    case SH => ld == LH || ld == LHU
    case SB => ld == LB || ld == LBU
    case _ => false
  }

  /** The low part of a word, with or without its sign, as the load reads it. */
  function Narrowed(ld: Op, w: word): word {
    match ld
    case LB => if w % 0x100 >= 0x80 then w % 0x100 + 0xffff_ff00 else w % 0x100
    case LBU => w % 0x100
    case LH => if w % 0x1_0000 >= 0x8000 then w % 0x1_0000 + 0xffff_0000 else w % 0x1_0000
    case LHU => w % 0x1_0000
    case _ => w
  }

  /** What ReadMem returns of a word written with the given size. */
  function ReadBack(size: nat, w: word): word {
    if size == 4 then w
    else if size == 2 then w % 0x1_0000
    else if w % 0x100 < 0x80 then w % 0x100 else w % 0x100 + 0xffff_ff00
  }

  lemma NarrowedIs(st: Op, ld: Op, was: word, w: word, byte: nat)
    requires Pairs(st, ld)
    ensures Loaded(ld, was, ReadBack(StoreSize(st), w), byte) == Narrowed(ld, w)
  {}

  lemma StoreWrites(st: Instr, x: Operands, vm: VM)
    requires ValidVM(vm) && (st.op == SW || st.op == SH || st.op == SB) && StoreOp(st, x, vm).o.Done?
    ensures WriteMem(vm, Address(st, x.a), StoreSize(st.op), x.b) == Written(StoreOp(st, x, vm).vm)
  {
    hide Address, WriteMem, ReadMem, Wrap;
  }

  lemma LoadReads(ld: Instr, y: Operands, vm: VM)
    requires ValidVM(vm) && (ld.op == LW || LoadSize(ld.op) < 4) && !Misaligned(Address(ld, y.a), LoadSize(ld.op))
    requires ReadMem(vm, Address(ld, y.a), LoadSize(ld.op)).Value?
    ensures var f, tmp := LoadOp(ld, y, vm), Address(ld, y.a);
      && f.o.Done? && f.o.loadReg == ld.rt
      && f.o.loadValue == Loaded(ld.op, y.was, ReadMem(vm, tmp, LoadSize(ld.op)).value, ByteIn(tmp))
  {
    hide Address, ReadMem, Loaded, ByteIn, Wrap;
  }

  /** A load after a store of the same width at the same address delivers what was
      stored, narrowed to that width; through any tables, TLB or page table. */
  lemma LoadAfterStore(vm: VM, st: Instr, ld: Instr, x: Operands, y: Operands)
    requires ValidVM(vm) && Pairs(st.op, ld.op) && Address(st, x.a) == Address(ld, y.a)
    requires StoreOp(st, x, vm).o.Done?
    ensures var f := LoadOp(ld, y, StoreOp(st, x, vm).vm);
      f.o.Done? && f.o.loadReg == ld.rt && f.o.loadValue == Narrowed(ld.op, x.b)
  {
    hide Address, ReadMem, WriteMem, Loaded, StoreOp, LoadOp, Narrowed, ByteIn, Misaligned;
    var addr, size := Address(st, x.a), StoreSize(st.op);
    StoreWrites(st, x, vm);
    AlignedStore(vm, addr, size, x.b);
    ReadAfterWrite(vm, addr, size, x.b);
    LoadReads(ld, y, StoreOp(st, x, vm).vm);
    NarrowedIs(st.op, ld.op, y.was, x.b, ByteIn(addr));
  }

  lemma AlignedStore(vm: VM, addr: word, size: nat, w: word)
    requires ValidVM(vm) && (size == 1 || size == 2 || size == 4) && WriteMem(vm, addr, size, w).Written?
    ensures !Misaligned(addr, size)
  {}

  lemma StoreEffect(s: Cpu, st: Instr, s1: Cpu)
    requires Runs(s, st, s1) && KindOf(st.op) == Stores
    ensures var f := StoreOp(st, Here(s, st), s.vm);
      Ready(s1) && f.o.Done? && s1.vm == f.vm && forall k | 0 <= k < 32 :: s1.regs[k] == s.regs[k]
  {
    hide StoreOp, LoadOp, Jump, HiLo, RegisterOp, ImmediateOp;
    StoresWriteNothing(s, st);
    RegistersAfter(s, st);
  }

  lemma LoadEffect(s: Cpu, ld: Instr)
    requires Ready(s) && KindOf(ld.op) == Loads && LoadOp(ld, Here(s, ld), s.vm).o.Done?
    ensures var r := Perform(s, ld);
      var o := LoadOp(ld, Here(s, ld), s.vm).o;
      && r.Ran? && Inv(r.s) && r.s.regs[LoadReg] == o.loadReg && r.s.regs[LoadValueReg] == o.loadValue
  {
    hide StoreOp, LoadOp, Jump, HiLo, RegisterOp, ImmediateOp;
    PerformKeeps(s, ld);
  }

  lemma StoreThenLoad(s: Cpu, st: Instr, ld: Instr, s1: Cpu) returns (s2: Cpu)
    requires Ready(s) && Pairs(st.op, ld.op) && ld.rt != 0 && Runs(s, st, s1)
    requires Address(st, s.regs[st.rs]) == Address(ld, s.regs[ld.rs])
    ensures Runs(s1, ld, s2) && Flush(s2).regs[ld.rt] == Narrowed(ld.op, s.regs[st.rt])
  {
    hide StoreOp, LoadOp, Execute, Perform, Narrowed, Address;
    StoreEffect(s, st, s1);
    LoadAfterStore(s.vm, st, ld, Here(s, st), Here(s1, ld));
    LoadEffect(s1, ld);
    s2 := Perform(s1, ld).s;
  }

  lemma StoresWriteNothing(s: Cpu, st: Instr)
    requires Ready(s) && KindOf(st.op) == Stores && Perform(s, st).Ran?
    ensures forall k | 0 <= k < 32 :: Perform(s, st).s.regs[k] == s.regs[k]
  {
    forall r: reg ensures Perform(s, st).s.regs[r] == s.regs[r] {
      KeepsRegister(s, st, r);
    }
  }
}
