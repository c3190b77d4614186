/** class Machine of machine/machine.h: the registers, memory and translation table
    that translate.cc and mipssim.cc update in place, tied to the functions of
    VirtualMemory and Mips. */
module Machines {
  import opened Collections
  import opened Words
  import VirtualMemory
  import M = Mips
  import Multiply

  class Machine {
    const registers: array<word>
    const mainMemory: array<byte>
    /** The page table, or the TLB if there is one. */
    const table: array<VirtualMemory.Entry>
    const hasTlb: bool

    /** All registers and memory zero; a TLB with no valid entry, or no table yet. */
    constructor (tlb: bool)
      ensures Valid() && fresh(registers) && fresh(mainMemory) && fresh(table) && hasTlb == tlb
      ensures M.Flushed(State()) && (forall k | 0 <= k < M.NumTotalRegs :: registers[k] == 0)
      ensures forall p | 0 <= p < VirtualMemory.MemorySize :: mainMemory[p] == 0
      ensures table.Length == (if tlb then VirtualMemory.TLBSize else 0)
      ensures forall i | 0 <= i < table.Length :: !table[i].valid
    {
      registers := new word[M.NumTotalRegs](_ => 0);
      mainMemory := new byte[VirtualMemory.MemorySize](_ => 0);
      table := new VirtualMemory.Entry[if tlb then VirtualMemory.TLBSize else 0](
        _ => VirtualMemory.Entry(0, 0, false, false, false, false));
      hasTlb := tlb;
    }

    predicate Valid()
      reads registers
    {
      && registers.Length == M.NumTotalRegs && mainMemory.Length == VirtualMemory.MemorySize
      && (hasTlb ==> table.Length == VirtualMemory.TLBSize)
      && (registers as object) != mainMemory && (registers as object) != table && (mainMemory as object) != table
      && registers[M.LoadReg] < 32
    }

    ghost function Tables(): VirtualMemory.Tables
      reads table
    {
      if hasTlb then VirtualMemory.Tlb(table[..]) else VirtualMemory.PageTable(table[..])
    }

    ghost function Memory(): VirtualMemory.VM
      reads mainMemory, table
    {
      VirtualMemory.VM(mainMemory[..], Tables())
    }

    ghost function State(): M.Cpu
      reads registers, mainMemory, table
    {
      M.Cpu(registers[..], Memory())
    }

    /** The search of the TLB. */
    method FindInTlb(vpn: nat) returns (k: nat)
      ensures k == VirtualMemory.FirstHit(table[..], vpn, 0)
    {
      k := 0;
      while k < table.Length
        invariant k <= table.Length
        invariant VirtualMemory.FirstHit(table[..], vpn, 0) == VirtualMemory.FirstHit(table[..], vpn, k)
      {
        if VirtualMemory.Hit(table[k], vpn) { return; }
        k := k + 1;
      }
    }

    method Translate(addr: word, size: nat, writing: bool) returns (t: VirtualMemory.Translation)
      requires Valid()
      modifies table
      ensures t == VirtualMemory.Translate(old(Tables()), addr, size, writing)
      ensures t.At? ==> t.index < table.Length && Tables() == VirtualMemory.Touch(old(Tables()), t.index, writing)
      ensures t.Fault? ==> Tables() == old(Tables())
    {
      if VirtualMemory.Misaligned(addr, size) {
        return VirtualMemory.Fault(VirtualMemory.AddressErrorException);
      }
      var vpn, offset := addr / VirtualMemory.PageSize, addr % VirtualMemory.PageSize;
      var k := vpn;
      if hasTlb {
        k := FindInTlb(vpn);
        if k == table.Length { return VirtualMemory.Fault(VirtualMemory.PageFaultException); }
      } else {
        if vpn >= table.Length { return VirtualMemory.Fault(VirtualMemory.AddressErrorException); }
        if !table[vpn].valid { return VirtualMemory.Fault(VirtualMemory.PageFaultException); }
      }
      if table[k].readOnly && writing { return VirtualMemory.Fault(VirtualMemory.ReadOnlyException); }
      var frame := Unsigned(table[k].physicalPage);
      if frame >= VirtualMemory.NumPhysPages { return VirtualMemory.Fault(VirtualMemory.BusErrorException); }
      t := VirtualMemory.At(k, frame * VirtualMemory.PageSize + offset);
      table[k] := table[k].(used := true);
      if writing { table[k] := table[k].(dirty := true); }
    }

    method ReadMem(addr: word, size: nat) returns (fault: Option<VirtualMemory.Exception>, value: word)
      requires Valid() && (size == 1 || size == 2 || size == 4)
      modifies table
      ensures VirtualMemory.ValidVM(old(Memory())) && Valid()
      ensures match VirtualMemory.ReadMem(old(Memory()), addr, size)
        case ReadFault(e) => fault == Some(e) && Memory() == old(Memory())
        case Value(vm, v) => fault.None? && value == v && Memory() == vm
    {
      var t := Translate(addr, size, false);
      if t.Fault? { return Some(t.e), 0; }
      VirtualMemory.InBounds(old(Tables()), addr, size, false);
      var p := t.phys;
      fault := None;
      if size == 1 {
        var c: word := mainMemory[p];
        value := if c < 0x80 then c else c + 0xffff_ff00;
      } else if size == 2 {
        value := LittleEndian(mainMemory[p], mainMemory[p + 1], 0, 0);
      } else {
        value := LittleEndian(mainMemory[p], mainMemory[p + 1], mainMemory[p + 2], mainMemory[p + 3]);
      }
    }

    method WriteMem(addr: word, size: nat, value: word) returns (fault: Option<VirtualMemory.Exception>)
      requires Valid() && (size == 1 || size == 2 || size == 4)
      modifies table, mainMemory
      ensures VirtualMemory.ValidVM(old(Memory())) && Valid()
      ensures match VirtualMemory.WriteMem(old(Memory()), addr, size, value)
        case WriteFault(e) => fault == Some(e) && Memory() == old(Memory())
        case Written(vm) => fault.None? && Memory() == vm
    {
      var t := Translate(addr, size, true);
      if t.Fault? { return Some(t.e); }
      VirtualMemory.InBounds(old(Tables()), addr, size, true);
      var p := t.phys;
      fault := None;
      mainMemory[p] := ByteOf(value, 0);
      if size >= 2 { mainMemory[p + 1] := ByteOf(value, 1); }
      if size == 4 {
        mainMemory[p + 2] := ByteOf(value, 2);
        mainMemory[p + 3] := ByteOf(value, 3);
      }
    }

    method DelayedLoad(nextReg: M.reg, nextValue: word)
      requires Valid()
      modifies registers
      ensures Valid() && registers[..] == M.DelayedLoad(old(registers[..]), nextReg, nextValue)
    {
      registers[registers[M.LoadReg]] := registers[M.LoadValueReg];
      registers[M.LoadReg] := nextReg;
      registers[M.LoadValueReg] := nextValue;
      registers[0] := 0;
    }

    method RaiseException(e: VirtualMemory.Exception, bad: word)
      requires Valid()
      modifies registers
      ensures M.Shape(old(State())) && Valid() && M.Trapped(e, State()) == M.Raise(old(State()), e, bad)
    {
      registers[M.BadVAddrReg] := bad;
      DelayedLoad(0, 0);
    }

    method Load(i: M.Instr, x: M.Operands) returns (o: M.Outcome)
      requires Valid()
      modifies table
      ensures VirtualMemory.ValidVM(old(Memory())) && Valid()
      ensures M.Effect(o, Memory()) == M.LoadOp(i, x, old(Memory()))
    {
      hide VirtualMemory.ReadMem, M.Loaded, M.Address, M.Unaligned, M.LoadFrom, Wrap;
      var tmp := M.Address(i, x.a);
      if M.Unaligned(i.op, tmp) { return M.Trap(VirtualMemory.AddressErrorException, tmp); }
      var from := M.LoadFrom(i.op, tmp);
      var fault, value := ReadMem(from, M.LoadSize(i.op));
      if fault.Some? { return M.Trap(fault.value, from); }
      o := M.Done(0, 0, x.hi, x.lo, i.rt, M.Loaded(i.op, x.was, value, M.ByteIn(tmp)), Wrap(x.npc + 4));
    }

    method Store(i: M.Instr, x: M.Operands) returns (o: M.Outcome)
      requires Valid()
      modifies table, mainMemory
      ensures VirtualMemory.ValidVM(old(Memory())) && Valid()
      ensures M.Effect(o, Memory()) == M.StoreOp(i, x, old(Memory()))
    {
      hide VirtualMemory.WriteMem, M.Address, Wrap;
      if i.op == M.SWL || i.op == M.SWR {
        o := Spill(i, x);
        return;
      }
      var tmp := M.Address(i, x.a);
      var fault := WriteMem(tmp, M.StoreSize(i.op), x.b);
      if fault.Some? { return M.Trap(fault.value, tmp); }
      o := M.Done(0, 0, x.hi, x.lo, 0, 0, Wrap(x.npc + 4));
    }

    /** SWL and SWR: read, merge, write back. */
    method Spill(i: M.Instr, x: M.Operands) returns (o: M.Outcome)
      requires Valid() && (i.op == M.SWL || i.op == M.SWR)
      modifies table, mainMemory
      ensures VirtualMemory.ValidVM(old(Memory())) && Valid()
      ensures M.Effect(o, Memory()) == M.StoreOp(i, x, old(Memory()))
    {
      hide VirtualMemory.ReadMem, VirtualMemory.WriteMem, M.Spilled, M.Address, M.WordAt, M.ByteIn, Wrap;
      var tmp := M.Address(i, x.a);
      var at := M.WordAt(tmp);
      var fault, was := ReadMem(at, 4);
      if fault.Some? { return M.Trap(fault.value, at); }
      fault := WriteMem(at, 4, M.Spilled(i.op, was, x.b, M.ByteIn(tmp)));
      if fault.Some? { return M.Trap(fault.value, at); }
      o := M.Done(0, 0, x.hi, x.lo, 0, 0, Wrap(x.npc + 4));
    }

    /** MULT and MULTU run the shift-and-add loop. */
    method Product(i: M.Instr, x: M.Operands) returns (o: M.Outcome)
      requires i.op == M.MULT || i.op == M.MULTU
      ensures o == M.HiLo(i, x)
    {
      var hi, lo := Multiply.Mult(Signed(x.a), Signed(x.b), i.op == M.MULT);
      CastsInvert(x.a);
      CastsInvert(x.b);
      o := M.Done(0, 0, Unsigned(hi), Unsigned(lo), 0, 0, Wrap(x.npc + 4));
    }

    /** The switch on the operation code. */
    method Execute(i: M.Instr, x: M.Operands) returns (o: M.Outcome)
      requires Valid()
      modifies table, mainMemory
      ensures VirtualMemory.ValidVM(old(Memory())) && Valid()
      ensures M.Effect(o, Memory()) == M.Execute(i, x, old(Memory()))
    {
      hide M.Jump, M.HiLo, M.RegisterOp, M.ImmediateOp, M.LoadOp, M.StoreOp, M.KindOf;
      match M.KindOf(i.op) {
        case Jumps => o := M.Jump(i, x);
        case Loads => o := Load(i, x);
        case Stores => o := Store(i, x);
        case HiLos =>
          if i.op == M.MULT || i.op == M.MULTU { o := Product(i, x); } else { o := M.HiLo(i, x); }
        case Registers => o := M.RegisterOp(i, x);
        case Immediates => o := M.ImmediateOp(i, x);
      }
    }

    /** OneInstruction: runs the next instruction; a trap is returned with the
        registers as the exception handler finds them. */
    method OneInstruction() returns (trap: Option<VirtualMemory.Exception>)
      requires Valid()
      modifies registers, table, mainMemory
      ensures M.Shape(old(State())) && Valid()
      ensures match M.Next(old(State()))
        case Trapped(e, s) => trap == Some(e) && State() == s
        case Ran(s) => trap.None? && State() == s
    {
      var fault, raw := ReadMem(registers[M.PCReg], 4);
      if fault.Some? {
        RaiseException(fault.value, registers[M.PCReg]);
        return fault;
      }
      trap := Finish(M.Decode(raw));
    }

    /** The instruction once it is fetched and decoded. */
    method Finish(i: M.Instr) returns (trap: Option<VirtualMemory.Exception>)
      requires Valid()
      modifies registers, table, mainMemory
      ensures M.Shape(old(State())) && Valid()
      ensures match M.Perform(old(State()), i)
        case Trapped(e, s) => trap == Some(e) && State() == s
        case Ran(s) => trap.None? && State() == s
    {
      var was := if registers[M.LoadReg] == i.rt then registers[M.LoadValueReg] else registers[i.rt];
      var x := M.Operands(registers[i.rs], registers[i.rt], was, registers[M.HiReg], registers[M.LoReg],
        registers[M.NextPCReg]);
      var o := Execute(i, x);
      if o.Trap? {
        RaiseException(o.e, o.bad);
        return Some(o.e);
      }
      Retire(o);
      trap := None;
    }

    /** Writing back, the delayed load, and the program counters. */
    method Retire(o: M.Outcome)
      requires Valid() && o.Done?
      modifies registers
      ensures Valid()
      ensures registers[..] == M.Advance(M.DelayedLoad(M.WriteBack(old(registers[..]), o), o.loadReg, o.loadValue),
        o.pcAfter)
    {
      registers[o.dest] := o.value;
      registers[M.HiReg] := o.hi;
      registers[M.LoReg] := o.lo;
      DelayedLoad(o.loadReg, o.loadValue);
      registers[M.PrevPCReg] := registers[M.PCReg];
      registers[M.PCReg] := registers[M.NextPCReg];
      registers[M.NextPCReg] := o.pcAfter;
    }
  }
}
