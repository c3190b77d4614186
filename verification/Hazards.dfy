/** Load delay hazards: exactly when an instruction that finds a load in progress does
    what it would do if loads were immediate (machine/mipssim.cc). */
module Hazards {
  import opened Words
  import opened VirtualMemory
  import opened Mips

  // ---------------------------------------------------------- all instructions

  /** f is what the instruction does with register p still to be loaded with v, and g
      what it does once that is loaded: they come to the same. */
  predicate Agree(p: reg, v: word, f: Effect, g: Effect) {
    && f.vm == g.vm
    && if f.o.Trap? || g.o.Trap? then f.o == g.o
       else SameDone(p, v, f.o, g.o)
  }

  predicate SameDone(p: reg, v: word, o: Outcome, q: Outcome)
    requires o.Done? && q.Done?
  {
    && o.hi == q.hi && o.lo == q.lo && o.pcAfter == q.pcAfter
    && (o.dest == 0 || q.value == if o.dest == p then v else o.value)
    && (o.loadReg == 0 || o.loadValue == q.loadValue)
  }

  /** The delayed machine agrees with the immediate one, on any instruction and in any
      state, exactly if the instruction has the same outcome on the operands that it
      finds as on those that the load would have left; but into the register being
      loaded it must write what is loaded, because here the load comes last. */
  lemma HazardExact(s: Cpu, i: Instr)
    requires Inv(s)
    ensures Inv(Perform(s, i).s)
    ensures FlushResult(Perform(s, i)) == PerformAtOnce(Flush(s), i) <==>
      Agree(s.regs[LoadReg], s.regs[LoadValueReg], Execute(i, Here(s, i), s.vm), Execute(i, There(s, i), s.vm))
  {
    hide Execute, Here, There, OperandsOf, Advance, WriteBack, DelayedLoad, SameDone;
    PerformKeeps(s, i);
    OperandsAre(s, i);
    var f, g := Execute(i, Here(s, i), s.vm), Execute(i, There(s, i), s.vm);
    if f.o.Trap? {
      TrapRefines(Cpu(s.regs, f.vm), f.o.e, f.o.bad);
      TrapExact(s, i);
    } else if g.o.Done? {
      OutcomeShape(i, Here(s, i), s.vm);
      OutcomeShape(i, There(s, i), s.vm);
      LoadsWriteNothing(i);
      DoneExact(s.regs, f.o, g.o);
    }
  }

  lemma OperandsAre(s: Cpu, i: Instr)
    requires Shape(s)
    ensures Here(s, i) == OperandsOf(s.regs, i, Forwarded(s.regs, i.rt))
    ensures There(s, i) == OperandsOf(Flush(s).regs, i, Flush(s).regs[i.rt])
  {}

  lemma LoadsWriteNothing(i: Instr)
    ensures KindOf(i.op) == Loads ==> Writes(i) == 0
  {}

  lemma TrapExact(s: Cpu, i: Instr)
    requires Inv(s) && Execute(i, Here(s, i), s.vm).o.Trap?
    ensures var f, g := Execute(i, Here(s, i), s.vm), Execute(i, There(s, i), s.vm);
      FlushResult(Perform(s, i)) == PerformAtOnce(Flush(s), i) <==> f.vm == g.vm && f.o == g.o
  {
    hide Execute, Here, There, OperandsOf, Advance, WriteBack;
    OperandsAre(s, i);
    PerformKeeps(s, i);
    var f, g := Execute(i, Here(s, i), s.vm), Execute(i, There(s, i), s.vm);
    TrapRefines(Cpu(s.regs, f.vm), f.o.e, f.o.bad);
    if g.o.Trap? {
      var u, v := Flush(s).regs[BadVAddrReg := f.o.bad], Flush(s).regs[BadVAddrReg := g.o.bad];
      assert u[BadVAddrReg] == f.o.bad && v[BadVAddrReg] == g.o.bad;
    }
  }

  /** The registers after the instruction and the loads, one by one. */
  function HereAfter(regs: seq<word>, o: Outcome): (u: seq<word>)
    requires |regs| == NumTotalRegs && regs[LoadReg] < 32 && o.Done?
    ensures |u| == NumTotalRegs
  {
    DelayedLoad(Advance(DelayedLoad(WriteBack(regs, o), o.loadReg, o.loadValue), o.pcAfter), 0, 0)
  }

  function ThereAfter(regs: seq<word>, o: Outcome): (v: seq<word>)
    requires |regs| == NumTotalRegs && regs[LoadReg] < 32 && o.Done?
    ensures |v| == NumTotalRegs
  {
    Advance(WriteBack(DelayedLoad(regs, 0, 0), o)[o.loadReg := o.loadValue][0 := 0], o.pcAfter)
  }

  function Special(regs: seq<word>, o: Outcome, k: nat): word
    requires |regs| == NumTotalRegs && o.Done? && 32 <= k < NumTotalRegs
  {
    if k == HiReg then o.hi else if k == LoReg then o.lo
    else if k == PrevPCReg then regs[PCReg] else if k == PCReg then regs[NextPCReg]
    else if k == NextPCReg then o.pcAfter else if k == BadVAddrReg then regs[BadVAddrReg] else 0
  }

  lemma HereIs(regs: seq<word>, o: Outcome, k: nat)
    requires |regs| == NumTotalRegs && regs[LoadReg] < 32 && o.Done? && k < NumTotalRegs
    ensures HereAfter(regs, o)[k] ==
      if k >= 32 then Special(regs, o, k) else if k == 0 then 0
      else if k == o.loadReg then o.loadValue
      else if k == regs[LoadReg] then regs[LoadValueReg] else if k == o.dest then o.value else regs[k]
  {}

  lemma ThereIs(regs: seq<word>, o: Outcome, k: nat)
    requires |regs| == NumTotalRegs && regs[LoadReg] < 32 && o.Done? && k < NumTotalRegs
    ensures ThereAfter(regs, o)[k] ==
      if k >= 32 then Special(regs, o, k) else if k == 0 then 0
      else if k == o.loadReg then o.loadValue
      else if k == o.dest then o.value else if k == regs[LoadReg] then regs[LoadValueReg] else regs[k]
  {}

  lemma DoneExact(regs: seq<word>, o: Outcome, q: Outcome)
    requires |regs| == NumTotalRegs && regs[LoadReg] < 32 && o.Done? && q.Done?
    requires o.dest == q.dest && o.loadReg == q.loadReg && (o.dest == 0 || o.loadReg == 0)
    ensures HereAfter(regs, o) == ThereAfter(regs, q) <==> SameDone(regs[LoadReg], regs[LoadValueReg], o, q)
  {
    hide HereAfter, ThereAfter;
    var u, v := HereAfter(regs, o), ThereAfter(regs, q);
    forall k | 0 <= k < NumTotalRegs
      ensures SameDone(regs[LoadReg], regs[LoadValueReg], o, q) ==> u[k] == v[k]
    {
      HereIs(regs, o, k);
      ThereIs(regs, q, k);
    }
    if u == v {
      SameAt(regs, o, q, HiReg);
      SameAt(regs, o, q, LoReg);
      SameAt(regs, o, q, NextPCReg);
      SameAt(regs, o, q, o.dest);
      SameAt(regs, o, q, o.loadReg);
    }
  }

  lemma SameAt(regs: seq<word>, o: Outcome, q: Outcome, k: nat)
    requires |regs| == NumTotalRegs && regs[LoadReg] < 32 && o.Done? && q.Done? && k < NumTotalRegs
    requires o.dest == q.dest && o.loadReg == q.loadReg && (o.dest == 0 || o.loadReg == 0)
    requires HereAfter(regs, o) == ThereAfter(regs, q)
    ensures k >= 32 ==> Special(regs, o, k) == Special(regs, q, k)
    ensures k == o.dest != 0 ==> q.value == if k == regs[LoadReg] then regs[LoadValueReg] else o.value
    ensures k == o.loadReg != 0 ==> q.loadValue == o.loadValue
  {
    hide HereAfter, ThereAfter;
    HereIs(regs, o, k);
    ThereIs(regs, q, k);
  }

  // ---------------------------------------------------------- write hazards

  /** An instruction that writes the register being loaded without reading it agrees
      with immediate loads exactly if it writes what is loaded. */
  lemma WriteHazard(s: Cpu, i: Instr)
    requires Inv(s) && s.regs[LoadReg] != 0 && Writes(i) == s.regs[LoadReg] && NoReadHazard(s, i)
    requires Execute(i, Here(s, i), s.vm).o.Done?
    ensures Inv(Perform(s, i).s)
    ensures FlushResult(Perform(s, i)) == PerformAtOnce(Flush(s), i) <==>
      Execute(i, Here(s, i), s.vm).o.value == s.regs[LoadValueReg]
  {
    hide Execute, SameReads, Here, There, NoReadHazard, Perform, PerformAtOnce, KindOf, Writes;
    HazardExact(s, i);
    SameOperands(s, i);
    Irrelevant(i, Here(s, i), There(s, i), s.vm);
    OutcomeShape(i, Here(s, i), s.vm);
    LoadsWriteNothing(i);
  }

  // ----------------------------------------------------------- read hazards

  /** Instructions whose result gives away each operand that they read, if the other
      is known. */
  predicate Reveals(i: Instr) {
    match i.op
    case ADDU | SUBU | XOR => i.rd != 0
    case ADDIU | XORI => i.rt != 0
    case JR | MTHI | MTLO => true
    case _ => false
  }

  /** Such an instruction, if it reads the register being loaded as one operand only
      and does not write it, agrees with immediate loads exactly if the load does not
      change that register. */
  lemma ReadHazard(s: Cpu, i: Instr)
    requires Inv(s) && s.regs[LoadReg] != 0 && Reveals(i) && Writes(i) != s.regs[LoadReg]
    requires var p := s.regs[LoadReg]; (ReadsRs(i.op) && i.rs == p) != (ReadsRt(i.op) && i.rt == p)
    ensures Inv(Perform(s, i).s)
    ensures FlushResult(Perform(s, i)) == PerformAtOnce(Flush(s), i) <==>
      s.regs[LoadValueReg] == s.regs[s.regs[LoadReg]]
  {
    hide Execute, Perform, PerformAtOnce, Reveals, Writes, ReadsRs, ReadsRt, Agree;
    HazardExact(s, i);
    ReadsDiffer(s, i);
    if s.regs[LoadValueReg] == s.regs[s.regs[LoadReg]] {
      Irrelevant(i, Here(s, i), There(s, i), s.vm);
      OutcomeShape(i, Here(s, i), s.vm);
      AgreeAlike(s.regs[LoadReg], s.regs[LoadValueReg], Execute(i, Here(s, i), s.vm), Execute(i, There(s, i), s.vm));
    } else {
      Revealed(i, Here(s, i), There(s, i), s.vm, s.regs[LoadReg], s.regs[LoadValueReg]);
    }
  }

  /** Unless the load changes nothing, exactly one of the operands read differs. */
  lemma ReadsDiffer(s: Cpu, i: Instr)
    requires Inv(s) && s.regs[LoadReg] != 0 && Reveals(i)
    requires var p := s.regs[LoadReg]; (ReadsRs(i.op) && i.rs == p) != (ReadsRt(i.op) && i.rt == p)
    ensures var x, y := Here(s, i), There(s, i);
      && x.hi == y.hi && x.lo == y.lo && x.npc == y.npc
      && if s.regs[LoadValueReg] == s.regs[s.regs[LoadReg]] then SameReads(i, x, y)
         else (ReadsRs(i.op) && x.a != y.a) != (ReadsRt(i.op) && x.b != y.b)
  {
    hide KindOf;
  }

  lemma AgreeAlike(p: reg, v: word, f: Effect, g: Effect)
    requires SameEffect(f, g) && (f.o.Done? ==> f.o.dest != p)
    ensures Agree(p, v, f, g)
  {}

  lemma Revealed(i: Instr, x: Operands, y: Operands, vm: VM, p: reg, v: word)
    requires ValidVM(vm) && Reveals(i) && Writes(i) != p
    requires (ReadsRs(i.op) && x.a != y.a) != (ReadsRt(i.op) && x.b != y.b)
    ensures !Agree(p, v, Execute(i, x, vm), Execute(i, y, vm))
  {
    hide Execute, Shown;
    Shows(i, x, vm);
    Shows(i, y, vm);
    ShownDiffer(i, x, y);
  }

  /** The result that gives the operands away. */
  function Shown(i: Instr, x: Operands): word
    requires Reveals(i)
  {
    match i.op
    case ADDU => Wrap(x.a + x.b)
    case SUBU => Wrap(x.a - x.b)
    case XOR => Bitwise(XorOp, x.a, x.b)
    case ADDIU => Wrap(x.a + i.extra)
    case XORI => Bitwise(XorOp, x.a, i.extra % 0x1_0000)
    case _ => x.a
  }

  lemma Shows(i: Instr, x: Operands, vm: VM)
    requires ValidVM(vm) && Reveals(i)
    ensures var f := Execute(i, x, vm);
      && f.o.Done? && f.o.dest == Writes(i)
      && Shown(i, x) == if i.op == JR then f.o.pcAfter else if i.op == MTHI then f.o.hi
                        else if i.op == MTLO then f.o.lo else f.o.value
  {
    hide Wrap, Bitwise, AddOverflows, SubOverflows, ShiftLeft, ShiftRight, Signed, Flag, Quotient, Remainder,
      LoadOp, StoreOp;
  }

  lemma ReadsOf(i: Instr)
    requires Reveals(i)
    ensures ReadsRs(i.op) && (ReadsRt(i.op) <==> i.op == ADDU || i.op == SUBU || i.op == XOR)
  {}

  lemma ShownDiffer(i: Instr, x: Operands, y: Operands)
    requires Reveals(i) && (ReadsRs(i.op) && x.a != y.a) != (ReadsRt(i.op) && x.b != y.b)
    ensures Shown(i, x) != Shown(i, y)
  {
    hide Wrap, Bitwise, ReadsRs, ReadsRt;
    ReadsOf(i);
    match i.op
    case ADDU => Sums(x.a, x.b, y.a, y.b);
    case SUBU => Differences(x.a, x.b, y.a, y.b);
    case XOR => Xors(x.a, x.b, y.a, y.b);
    case ADDIU => Sums(x.a, i.extra, y.a, i.extra);
    case XORI => Xors(x.a, i.extra % 0x1_0000, y.a, i.extra % 0x1_0000);
    case JR | MTHI | MTLO =>
  }

  lemma Sums(a: word, b: word, c: word, d: word)
    requires (a == c) != (b == d)
    ensures Wrap(a + b) != Wrap(c + d)
  {}

  lemma Differences(a: word, b: word, c: word, d: word)
    requires (a == c) != (b == d)
    ensures Wrap(a - b) != Wrap(c - d)
  {}

  lemma Xors(a: word, b: word, c: word, d: word)
    requires (a == c) != (b == d)
    ensures Bitwise(XorOp, a, b) != Bitwise(XorOp, c, d)
  {
    Pow2Values();
    if Bitwise(XorOp, a, b) == Bitwise(XorOp, c, d) {
      if a == c {
        XorDetermines(32, a, b, d);
      } else {
        XorSwaps(32, a, b);
        XorSwaps(32, c, d);
        XorDetermines(32, b, a, c);
      }
    }
  }

  lemma {:induction false} XorDetermines(n: nat, a: nat, b: nat, d: nat)
    requires b < Pow2(n) && d < Pow2(n) && Logic(XorOp, n, a, b) == Logic(XorOp, n, a, d)
    ensures b == d
  {
    if n > 0 { XorDetermines(n - 1, a / 2, b / 2, d / 2); }
  }

  lemma {:induction false} XorSwaps(n: nat, a: nat, b: nat)
    ensures Logic(XorOp, n, a, b) == Logic(XorOp, n, b, a)
  {
    if n > 0 { XorSwaps(n - 1, a / 2, b / 2); }
  }
}
