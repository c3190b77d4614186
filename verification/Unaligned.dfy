/** Loads and stores of a word at any address, by the LWL/LWR and SWL/SWR pairs. */
module Unaligned {
  import opened Words
  import opened VirtualMemory
  import opened Mips

  // -------------------------------------------------- merging words, by bytes

  lemma {:induction false} OrCommutes(n: nat, a: nat, b: nat)
    ensures Logic(OrOp, n, a, b) == Logic(OrOp, n, b, a)
  {
    if n > 0 { OrCommutes(n - 1, a / 2, b / 2); }
  }

  /** The low k bits of x under m shifted left by k. */
  lemma JoinLow(x: word, y: word, k: nat, lo: nat, m: nat)
    requires k <= 32 && Pow2(k) <= WORD && lo == x % Pow2(k) && y == m * Pow2(k) && lo + y < WORD
    ensures Or(And(x, Pow2(k) - 1), y) == lo + y
  {
    hide Logic, Pow2;
    Pow2Values();
    MaskLow(32, k, x);
    OrSum(32, k, lo, m);
  }

  /** The high bits of x, from k up, over lo. */
  lemma JoinHigh(x: word, k: nat, lo: nat, hi: nat)
    requires k <= 32 && lo < Pow2(k) <= WORD && x == hi * Pow2(k) + x % Pow2(k) && hi * Pow2(k) + lo < WORD
    ensures Or(And(x, WORD - Pow2(k)), lo) == hi * Pow2(k) + lo
  {
    hide Logic, Pow2;
    Pow2Values();
    MaskHigh(32, k, x);
    OrCommutes(32, hi * Pow2(k), lo);
    OrSum(32, k, lo, hi);
  }

  lemma Shl(w: word, k: nat, d: nat, hi: nat, lo: nat)
    requires Pow2(k) * d == WORD && d > 0 && w == hi * d + lo && lo < d
    ensures ShiftLeft(w, k) == lo * Pow2(k)
  {
    var p := Pow2(k);
    assert w * p == hi * WORD + lo * p by { assert hi * d * p == hi * (p * d); }
    Apart(lo, d, p);
    ModUnique(w * p, WORD, hi, lo * p);
  }

  /** A word cut in two after its first i bytes. */
  lemma Cut(w: word, w0: byte, w1: byte, w2: byte, w3: byte)
    requires w == LittleEndian(w0, w1, w2, w3)
    ensures w % 0x100 == w0 && w / 0x100 == w1 + 0x100 * (w2 + 0x100 * w3)
    ensures w % 0x1_0000 == w0 + 0x100 * w1 && w / 0x1_0000 == w2 + 0x100 * w3
    ensures w % 0x100_0000 == w0 + 0x100 * (w1 + 0x100 * w2) && w / 0x100_0000 == w3
  {
    ModUnique(w, 0x100, w1 + 0x100 * (w2 + 0x100 * w3), w0);
    ModUnique(w, 0x1_0000, w2 + 0x100 * w3, w0 + 0x100 * w1);
    ModUnique(w, 0x100_0000, w3, w0 + 0x100 * (w1 + 0x100 * w2));
  }

  /** SWR keeps the low bytes of memory and puts the register's low bytes above. */
  lemma SpillRightWord(v: word, w: word, byte: nat, v0: byte, v1: byte, v2: byte, v3: byte, w0: byte, w1: byte,
    w2: byte, w3: byte)
    requires v == LittleEndian(v0, v1, v2, v3) && w == LittleEndian(w0, w1, w2, w3) && byte < 4
    ensures SpillRight(v, w, byte) ==
      if byte == 0 then w
      else if byte == 1 then LittleEndian(v0, w0, w1, w2)
      else if byte == 2 then LittleEndian(v0, v1, w0, w1)
      else LittleEndian(v0, v1, v2, w0)
  {
    hide And, Or, ShiftLeft;
    Pow2Values();
    Cut(v, v0, v1, v2, v3);
    if byte == 1 {
      var lo := w0 + 0x100 * (w1 + 0x100 * w2);
      Shl(w, 8, 0x100_0000, w3, lo);
      JoinLow(v, ShiftLeft(w, 8), 8, v0, lo);
    } else if byte == 2 {
      var lo := w0 + 0x100 * w1;
      Shl(w, 16, 0x1_0000, w2 + 0x100 * w3, lo);
      JoinLow(v, ShiftLeft(w, 16), 16, v0 + 0x100 * v1, lo);
    } else if byte == 3 {
      Shl(w, 24, 0x100, w1 + 0x100 * (w2 + 0x100 * w3), w0);
      JoinLow(v, ShiftLeft(w, 24), 24, v0 + 0x100 * (v1 + 0x100 * v2), w0);
    }
  }

  /** The sign that the shift copies is masked off: what is left is q. */
  lemma ShrMasked(w: word, k: nat, d: nat, q: nat, r: nat)
    requires k <= 32 && Pow2(32 - k) == d && Pow2(k) * d == WORD && 0 < d < WORD
    requires w == q * Pow2(k) + r && r < Pow2(k) && q < d
    ensures And(ShiftRight(w, k), d - 1) == q
  {
    hide Pow2, Logic;
    var p := Pow2(k);
    MaskLow(32, 32 - k, ShiftRight(w, k));
    if w < 0x8000_0000 {
      ModUnique(w, p, q, r);
      assert Signed(w) / p == q;
      ModUnique(q, WORD, 0, q);
      ModUnique(q, d, 0, q);
    } else {
      FloorNegative(w, p, d, q, r);
      assert Signed(w) / p == q - d;
      assert ShiftRight(w, k) == q + WORD - d;
      assert p >= 1;
      assert q + WORD - d == (p - 1) * d + q;
      ModUnique(q + WORD - d, d, p - 1, q);
    }
  }

  lemma FloorNegative(w: word, p: nat, d: nat, q: nat, r: nat)
    requires p > 0 && p * d == WORD && w == q * p + r && r < p && q < d
    ensures (w - WORD) / p == q - d
  {
    var e := d - q;
    assert w - WORD == 0 - e * p + r;
    var f := (w - WORD) / p;
    assert w - WORD == f * p + (w - WORD) % p;
    var g := f + e;
    assert g * p == r - (w - WORD) % p;
    if g >= 1 {
      Apart(0, g, p);
    } else if g <= -1 {
      Apart(0, 0 - g, p);
    }
  }

  /** SWL keeps the high bytes of memory and puts the register's high bytes below. */
  lemma SpillLeftWord(v: word, w: word, byte: nat, v0: byte, v1: byte, v2: byte, v3: byte, w0: byte, w1: byte,
    w2: byte, w3: byte)
    requires v == LittleEndian(v0, v1, v2, v3) && w == LittleEndian(w0, w1, w2, w3) && byte < 4
    ensures SpillLeft(v, w, byte) ==
      if byte == 3 then w
      else if byte == 2 then LittleEndian(w1, w2, w3, v3)
      else if byte == 1 then LittleEndian(w2, w3, v2, v3)
      else LittleEndian(w3, v1, v2, v3)
  {
    hide And, Or, ShiftRight;
    Pow2Values();
    Cut(v, v0, v1, v2, v3);
    if byte == 2 {
      var q := w1 + 0x100 * (w2 + 0x100 * w3);
      ShrMasked(w, 8, 0x100_0000, q, w0);
      JoinHigh(v, 24, q, v3);
    } else if byte == 1 {
      var q := w2 + 0x100 * w3;
      ShrMasked(w, 16, 0x1_0000, q, w0 + 0x100 * w1);
      JoinHigh(v, 16, q, v2 + 0x100 * v3);
    } else if byte == 0 {
      ShrMasked(w, 24, 0x100, w3, w0 + 0x100 * (w1 + 0x100 * w2));
      JoinHigh(v, 8, w3, v1 + 0x100 * (v2 + 0x100 * v3));
    }
  }

  /** Byte j of what SWL and SWR store. */
  lemma SpillBytes(v: word, w: word, byte: nat, j: nat)
    requires byte < 4 && j < 4
    ensures ByteOf(SpillLeft(v, w, byte), j) == if j <= byte then ByteOf(w, 3 - byte + j) else ByteOf(v, j)
    ensures ByteOf(SpillRight(v, w, byte), j) == if j >= byte then ByteOf(w, j - byte) else ByteOf(v, j)
  {
    hide ByteOf, SpillLeft, SpillRight, LittleEndian;
    var v0, v1, v2, v3 := ByteOf(v, 0), ByteOf(v, 1), ByteOf(v, 2), ByteOf(v, 3);
    var w0, w1, w2, w3 := ByteOf(w, 0), ByteOf(w, 1), ByteOf(w, 2), ByteOf(w, 3);
    WordBytes(v);
    WordBytes(w);
    SpillLeftWord(v, w, byte, v0, v1, v2, v3, w0, w1, w2, w3);
    SpillRightWord(v, w, byte, v0, v1, v2, v3, w0, w1, w2, w3);
    if byte == 0 {
      BytesWord(w3, v1, v2, v3);
    } else if byte == 1 {
      BytesWord(w2, w3, v2, v3);
      BytesWord(v0, w0, w1, w2);
    } else if byte == 2 {
      BytesWord(w1, w2, w3, v3);
      BytesWord(v0, v1, w0, w1);
    } else {
      BytesWord(v0, v1, v2, w0);
    }
  }

  /** LWL merges as SWR does, and LWR as SWL, from the other end. */
  lemma MergesAreSpills(was: word, v: word, byte: nat)
    requires byte < 4
    ensures MergeLeft(was, v, byte) == SpillRight(was, v, 3 - byte)
    ensures MergeRight(was, v, byte) == SpillLeft(was, v, 3 - byte)
  {}

  // ------------------------------------------------------- one memory access

  lemma WordInside(vm: VM, addr: word)
    requires FullyMapped(vm) && addr < Size(vm)
    ensures ValidVM(vm) && WordAt(addr) % 4 == 0 && WordAt(addr) + 4 <= Size(vm)
  {
    var k, n := addr / 4, |vm.tables.entries|;
    assert addr == 4 * k + addr % 4;
    assert Size(vm) == 4 * (32 * n);
  }

  /** The word around addr, as ReadMem delivers it. */
  lemma ReadAround(vm: VM, addr: word)
    requires FullyMapped(vm) && addr < Size(vm)
    ensures ValidVM(vm) && WordAt(addr) + 4 <= Size(vm)
    ensures var r := ReadMem(vm, WordAt(addr), 4);
      && r.Value? && SameMap(vm, r.vm) && FullyMapped(r.vm) && r.vm.mem == vm.mem
      && forall j | 0 <= j < 4 :: ByteOf(r.value, j) == VByte(vm, WordAt(addr) + j)
  {
    hide FullyMapped, ReadMem, VByte, WordAt, ByteOf, Size, SameMap;
    WordInside(vm, addr);
    var b := WordAt(addr);
    ReadWord(vm, b);
    MapsFully(vm, ReadMem(vm, b, 4).vm);
    BytesWord(VByte(vm, b), VByte(vm, b + 1), VByte(vm, b + 2), VByte(vm, b + 3));
    forall j | 0 <= j < 4 ensures ByteOf(ReadMem(vm, b, 4).value, j) == VByte(vm, b + j) {
      if j == 0 {} else if j == 1 {} else if j == 2 {} else {}
    }
  }

  lemma MapsFully(vm: VM, vm': VM)
    requires SameMap(vm, vm')
    ensures FullyMapped(vm) && FullyMapped(vm') && Size(vm') == Size(vm) && ValidVM(vm) && ValidVM(vm')
  {}

  lemma MapsTrans(vm: VM, vm1: VM, vm2: VM)
    requires SameMap(vm, vm1) && SameMap(vm1, vm2)
    ensures SameMap(vm, vm2)
  {}

  lemma SameBytes(vm: VM, vm': VM, va: nat)
    requires SameMap(vm, vm') && vm.mem == vm'.mem && va < Size(vm)
    ensures FullyMapped(vm) && FullyMapped(vm') && Size(vm') == Size(vm) && VByte(vm', va) == VByte(vm, va)
  {}

  /** The bytes that SWL or SWR at addr writes, and byte va of what it writes. */
  predicate Covers(op: Op, addr: word, va: nat) {
    if op == SWL then WordAt(addr) <= va <= addr else addr <= va < WordAt(addr) + 4
  }

  function Piece(op: Op, addr: word, w: word, va: nat): byte
    requires Covers(op, addr, va)
  {
    if op == SWL then ByteOf(w, va + 3 - addr) else ByteOf(w, va - addr)
  }

  /** vm' is vm with the covered bytes replaced by those of w, and no other change
      anywhere in physical memory. */
  ghost predicate Replaced(vm: VM, vm': VM, op: Op, addr: word, w: word) {
    && SameMap(vm, vm')
    && (forall va | 0 <= va < Size(vm) ::
          VByte(vm', va) == if Covers(op, addr, va) then Piece(op, addr, w, va) else VByte(vm, va))
    && (forall p | 0 <= p < MemorySize && vm'.mem[p] != vm.mem[p] ::
          exists va | 0 <= va < Size(vm) && Covers(op, addr, va) :: p == PhysOf(vm, va))
  }

  /** What WriteMem does to a virtual byte and to a physical one. */
  lemma SpillByte(vm: VM, vm1: VM, vm2: VM, op: Op, addr: word, v: word, w: word, va: nat)
    requires SameMap(vm, vm1) && vm1.mem == vm.mem && addr < Size(vm) && (op == SWL || op == SWR) && va < Size(vm)
    requires WordAt(addr) % 4 == 0 && WordAt(addr) + 4 <= Size(vm)
    requires FullyMapped(vm2) && Size(vm2) == Size(vm)
    requires forall j | 0 <= j < 4 :: ByteOf(v, j) == VByte(vm, WordAt(addr) + j)
    requires VByte(vm2, va) ==
      if WordAt(addr) <= va < WordAt(addr) + 4 then ByteOf(Spilled(op, v, w, ByteIn(addr)), va - WordAt(addr))
        else VByte(vm1, va)
    ensures VByte(vm2, va) == if Covers(op, addr, va) then Piece(op, addr, w, va) else VByte(vm, va)
  {
    hide FullyMapped, VByte, SameMap, ByteOf, SpillLeft, SpillRight;
    var b := WordAt(addr);
    assert addr == b + ByteIn(addr);
    SameBytes(vm, vm1, va);
    if b <= va < b + 4 { SpillBytes(v, w, ByteIn(addr), va - b); }
  }

  lemma StoreHalf(i: Instr, x: Operands, vm: VM)
    requires (i.op == SWL || i.op == SWR) && FullyMapped(vm) && Address(i, x.a) < Size(vm)
    ensures ValidVM(vm)
    ensures var f := StoreOp(i, x, vm);
      f.o.Done? && f.o.dest == 0 && f.o.loadReg == 0 && Replaced(vm, f.vm, i.op, Address(i, x.a), x.b)
  {
    hide FullyMapped, ReadMem, WriteMem, VByte, WordAt, ByteOf, Size, SameMap, Address, PhysOf, Spilled, Covers,
      Piece, Store;
    var addr := Address(i, x.a);
    var b := WordAt(addr);
    WordInside(vm, addr);
    ReadAround(vm, addr);
    var r := ReadMem(vm, b, 4);
    MapsFully(vm, r.vm);
    var w := Spilled(i.op, r.value, x.b, ByteIn(addr));
    WriteWord(r.vm, b, w);
    var vm2 := WriteMem(r.vm, b, 4, w).vm;
    MapsTrans(vm, r.vm, vm2);
    Translates(r.vm, b, true);
    forall va | 0 <= va < Size(vm)
      ensures VByte(vm2, va) == if Covers(i.op, addr, va) then Piece(i.op, addr, x.b, va) else VByte(vm, va)
    {
      SpillByte(vm, r.vm, vm2, i.op, addr, r.value, x.b, va);
    }
    forall p | 0 <= p < MemorySize && vm2.mem[p] != vm.mem[p]
      ensures exists va | 0 <= va < Size(vm) && Covers(i.op, addr, va) :: p == PhysOf(vm, va)
    {
      ChangedByte(vm, r.vm, vm2, b, w, p);
    }
  }

  /** A physical byte that the store changes is a virtual byte of the word, with
      a changed value. */
  lemma ChangedByte(vm: VM, vm1: VM, vm2: VM, b: word, w: word, p: nat)
    requires SameMap(vm, vm1) && SameMap(vm1, vm2) && vm1.mem == vm.mem && b % 4 == 0 && b + 4 <= Size(vm)
    requires |vm.mem| == MemorySize && PhysOf(vm1, b) + 4 <= MemorySize
    requires vm2.mem == Store(vm.mem, PhysOf(vm1, b), 4, w)
    requires p < MemorySize && vm2.mem[p] != vm.mem[p]
    ensures exists va | 0 <= va < Size(vm) :: p == PhysOf(vm, va) && VByte(vm2, va) != VByte(vm, va)
  {
    var j := p - PhysOf(vm1, b);
    assert 0 <= j < 4;
    SamePhys(vm, vm1, b);
    Consecutive(vm, b, j);
    SamePhys(vm, vm1, b + j);
    SamePhys(vm1, vm2, b + j);
    assert p == PhysOf(vm, b + j);
  }

  // ------------------------------------------------------------- the two pairs

  /** The register is not the target of a load in progress. */
  predicate Idle(s: Cpu, r: reg)
    requires Shape(s)
  {
    s.regs[LoadReg] == 0 || s.regs[LoadReg] != r
  }

  /** After an instruction that writes no register, an idle register is as it was. */
  lemma KeepsRegister(s: Cpu, i: Instr, r: reg)
    requires Inv(s) && Idle(s, r) && (KindOf(i.op) == Stores || KindOf(i.op) == Loads)
    ensures Inv(Perform(s, i).s) && (Perform(s, i).Ran? ==> Perform(s, i).s.regs[r] == s.regs[r])
  {
    hide Execute, KindOf;
    PerformKeeps(s, i);
    OutcomeShape(i, OperandsOf(s.regs, i, Forwarded(s.regs, i.rt)), s.vm);
    assert Writes(i) == 0 by { WritesNone(i); }
  }

  lemma WritesNone(i: Instr)
    requires KindOf(i.op) == Stores || KindOf(i.op) == Loads
    ensures Writes(i) == 0
  {}

  lemma StoreRuns(s: Cpu, i: Instr)
    requires Inv(s) && (i.op == SWL || i.op == SWR) && FullyMapped(s.vm) && Address(i, s.regs[i.rs]) < Size(s.vm)
    ensures var r := Perform(s, i);
      && r.Ran? && Inv(r.s) && r.s.regs[LoadReg] == 0
      && Replaced(s.vm, r.s.vm, i.op, Address(i, s.regs[i.rs]), s.regs[i.rt])
  {
    hide StoreOp, Replaced, Address, FullyMapped, Jump, LoadOp, HiLo, RegisterOp, ImmediateOp;
    PerformKeeps(s, i);
    StoreHalf(i, OperandsOf(s.regs, i, Forwarded(s.regs, i.rt)), s.vm);
  }

  /** SWL at a + 3 and then SWR at a write the register's word at a, in
      little-endian order, and nothing else; a may be any address. */
  lemma StorePair(s: Cpu, left: Instr, right: Instr, a: word)
    requires Inv(s) && FullyMapped(s.vm) && a + 4 <= Size(s.vm)
    requires left.op == SWL && right.op == SWR && left.rs == right.rs && left.rt == right.rt
    requires Idle(s, left.rs) && Idle(s, left.rt)
    requires Address(left, s.regs[left.rs]) == a + 3 && Address(right, s.regs[right.rs]) == a
    ensures var r1 := Perform(s, left);
      && r1.Ran? && Inv(r1.s)
      && var r2 := Perform(r1.s, right);
      && r2.Ran? && Inv(r2.s) && r2.s.regs[LoadReg] == 0 && WordWritten(s.vm, r2.s.vm, a, s.regs[left.rt])
      && forall r: reg | Idle(s, r) :: r2.s.regs[r] == s.regs[r]
  {
    hide FullyMapped, Perform, Replaced, WordWritten, Address, Idle;
    StoreRuns(s, left);
    var s1 := Perform(s, left).s;
    KeepsRegister(s, left, left.rs);
    KeepsRegister(s, left, left.rt);
    ReplacedMaps(s.vm, s1.vm, left.op, a + 3, s.regs[left.rt]);
    StoreRuns(s1, right);
    var s2 := Perform(s1, right).s;
    Meets(s.vm, s1.vm, s2.vm, a, s.regs[left.rt]);
    forall r: reg | Idle(s, r) ensures s2.regs[r] == s.regs[r] {
      KeepsRegister(s, left, r);
      assert Idle(s1, r) by { NoLoadIdle(s1, r); }
      KeepsRegister(s1, right, r);
    }
  }

  lemma NoLoadIdle(s: Cpu, r: reg)
    requires Shape(s) && s.regs[LoadReg] == 0
    ensures Idle(s, r)
  {}

  lemma ReplacedMaps(vm: VM, vm': VM, op: Op, addr: word, w: word)
    requires Replaced(vm, vm', op, addr, w)
    ensures FullyMapped(vm) && FullyMapped(vm') && Size(vm') == Size(vm)
  {}

  /** vm' is vm with the word w at a. */
  ghost predicate WordWritten(vm: VM, vm': VM, a: word, w: word) {
    && SameMap(vm, vm')
    && (forall va | 0 <= va < Size(vm) ::
          VByte(vm', va) == if a <= va < a + 4 then ByteOf(w, va - a) else VByte(vm, va))
    && (forall p | 0 <= p < MemorySize && vm'.mem[p] != vm.mem[p] ::
          exists va | a <= va < a + 4 && va < Size(vm) :: p == PhysOf(vm, va))
  }

  /** The two halves meet. */
  lemma Tile(a: word, va: nat)
    requires a + 4 <= WORD
    ensures Covers(SWL, a + 3, va) ==> a <= va < a + 4
    ensures Covers(SWR, a, va) ==> a <= va < a + 4
    ensures a <= va < a + 4 ==> Covers(SWL, a + 3, va) || Covers(SWR, a, va)
  {}

  lemma Meets(vm: VM, vm1: VM, vm2: VM, a: word, w: word)
    requires FullyMapped(vm) && a + 4 <= Size(vm)
    requires Replaced(vm, vm1, SWL, a + 3, w) && Replaced(vm1, vm2, SWR, a, w)
    ensures WordWritten(vm, vm2, a, w)
  {
    hide FullyMapped, SameMap, VByte, ByteOf, PhysOf, Covers;
    MapsFully(vm, vm1);
    MapsFully(vm1, vm2);
    MapsTrans(vm, vm1, vm2);
    forall va | 0 <= va < Size(vm)
      ensures VByte(vm2, va) == if a <= va < a + 4 then ByteOf(w, va - a) else VByte(vm, va)
    {
      Tile(a, va);
    }
    forall p | 0 <= p < MemorySize && vm2.mem[p] != vm.mem[p]
      ensures exists va | a <= va < a + 4 && va < Size(vm) :: p == PhysOf(vm, va)
    {
      if vm1.mem[p] != vm.mem[p] {
        var va :| 0 <= va < Size(vm) && Covers(SWL, a + 3, va) && p == PhysOf(vm, va);
        Tile(a, va);
      } else {
        var va :| 0 <= va < Size(vm1) && Covers(SWR, a, va) && p == PhysOf(vm1, va);
        Tile(a, va);
        SamePhys(vm, vm1, va);
      }
    }
  }

  /** Byte j of what LWL at a + 3 and LWR at a deliver, from the words around. */
  lemma MergeBytes(a: word, was: word, v1: word, v2: word, j: nat)
    requires a + 4 <= WORD && j < 4
    ensures var k := ByteIn(a);
      var half := MergeLeft(was, v1, ByteIn(a + 3));
      ByteOf(MergeRight(half, v2, k), j) == if k + j < 4 then ByteOf(v2, k + j) else ByteOf(v1, k + j - 4)
  {
    hide ByteOf, SpillLeft, SpillRight, MergeLeft, MergeRight, ByteIn, WordAt;
    var k1, k := ByteIn(a + 3), ByteIn(a);
    var half := MergeLeft(was, v1, k1);
    Residues(a);
    MergesAreSpills(was, v1, k1);
    MergesAreSpills(half, v2, k);
    SpillBytes(was, v1, 3 - k1, j);
    SpillBytes(half, v2, 3 - k, j);
  }

  /** The words around a and a + 3 are the same one, or neighbours. */
  lemma Residues(a: word)
    requires a + 3 < WORD
    ensures ByteIn(a) < 4 && a == WordAt(a) + ByteIn(a)
    ensures ByteIn(a + 3) == if ByteIn(a) == 0 then 3 else ByteIn(a) - 1
    ensures WordAt(a + 3) == if ByteIn(a) == 0 then WordAt(a) else WordAt(a) + 4
  {
    var q, r := a / 4, a % 4;
    if r == 0 {
      ModUnique(a + 3, 4, q, 3);
    } else {
      ModUnique(a + 3, 4, q + 1, r - 1);
    }
  }

  lemma LoadRuns(s: Cpu, i: Instr)
    requires Inv(s) && (i.op == LWL || i.op == LWR) && FullyMapped(s.vm) && Address(i, s.regs[i.rs]) < Size(s.vm)
    ensures ValidVM(s.vm)
    ensures var addr := Address(i, s.regs[i.rs]);
      var r, m := Perform(s, i), ReadMem(s.vm, WordAt(addr), 4);
      && m.Value? && r.Ran? && Inv(r.s) && SameMap(s.vm, r.s.vm) && r.s.vm.mem == s.vm.mem
      && r.s.regs[LoadReg] == i.rt
      && r.s.regs[LoadValueReg] == Loaded(i.op, Forwarded(s.regs, i.rt), m.value, ByteIn(addr))
  {
    hide Address, FullyMapped, Jump, StoreOp, HiLo, RegisterOp, ImmediateOp, ReadMem, WordAt, ByteIn, Loaded, SameMap;
    PerformKeeps(s, i);
    ReadAround(s.vm, Address(i, s.regs[i.rs]));
  }

  /** LWL at a + 3 and then LWR at a load the word at a, whatever a and whatever
      the target held; the second instruction takes the first one's half from the
      load in progress, and may even overwrite the base register. */
  lemma LoadPair(s: Cpu, left: Instr, right: Instr, a: word)
    requires Inv(s) && FullyMapped(s.vm) && a + 4 <= Size(s.vm)
    requires left.op == LWL && right.op == LWR && left.rs == right.rs && left.rt == right.rt != 0
    requires Idle(s, left.rs)
    requires Address(left, s.regs[left.rs]) == a + 3 && Address(right, s.regs[right.rs]) == a
    ensures var r1 := Perform(s, left);
      && r1.Ran? && Inv(r1.s)
      && var r2 := Perform(r1.s, right);
      && r2.Ran? && Inv(r2.s) && r2.s.vm.mem == s.vm.mem && SameMap(s.vm, r2.s.vm)
      && Flush(r2.s).regs[left.rt] ==
        LittleEndian(VByte(s.vm, a), VByte(s.vm, a + 1), VByte(s.vm, a + 2), VByte(s.vm, a + 3))
  {
    hide FullyMapped, Perform, Address, Idle, SameMap, VByte, LittleEndian, ReadMem, WordAt, ByteIn, MergeLeft,
      MergeRight, ByteOf;
    LoadRuns(s, left);
    ReadAround(s.vm, a + 3);
    var s1 := Perform(s, left).s;
    KeepsRegister(s, left, left.rs);
    MapsFully(s.vm, s1.vm);
    LoadRuns(s1, right);
    ReadAround(s1.vm, a);
    var s2 := Perform(s1, right).s;
    MapsTrans(s.vm, s1.vm, s2.vm);
    var v1, v2 := ReadMem(s.vm, WordAt(a + 3), 4).value, ReadMem(s1.vm, WordAt(a), 4).value;
    var got := Flush(s2).regs[left.rt];
    assert got == MergeRight(MergeLeft(Forwarded(s.regs, left.rt), v1, ByteIn(a + 3)), v2, ByteIn(a));
    forall j | 0 <= j < 4 ensures ByteOf(got, j) == VByte(s.vm, a + j) {
      MergeBytes(a, Forwarded(s.regs, left.rt), v1, v2, j);
      Near(s.vm, s1.vm, a, j, v1, v2);
    }
    WordBytes(got);
  }

  /** Byte a + j, in one of the two words around. */
  lemma Near(vm: VM, vm1: VM, a: word, j: nat, v1: word, v2: word)
    requires SameMap(vm, vm1) && vm1.mem == vm.mem && j < 4 && a + 3 < WORD
    requires a + 4 <= Size(vm) && FullyMapped(vm) && FullyMapped(vm1) && Size(vm1) == Size(vm)
    requires WordAt(a + 3) + 4 <= Size(vm) && WordAt(a) + 4 <= Size(vm)
    requires forall k | 0 <= k < 4 :: ByteOf(v1, k) == VByte(vm, WordAt(a + 3) + k)
    requires forall k | 0 <= k < 4 :: ByteOf(v2, k) == VByte(vm1, WordAt(a) + k)
    ensures VByte(vm, a + j) == if ByteIn(a) + j < 4 then ByteOf(v2, ByteIn(a) + j) else ByteOf(v1, ByteIn(a) + j - 4)
  {
    hide FullyMapped, SameMap, VByte, ByteOf, ByteIn, WordAt;
    Residues(a);
    SameBytes(vm, vm1, a + j);
    if ByteIn(a) + j < 4 {
      assert ByteOf(v2, ByteIn(a) + j) == VByte(vm1, WordAt(a) + (ByteIn(a) + j));
    } else {
      assert ByteOf(v1, ByteIn(a) + j - 4) == VByte(vm, WordAt(a + 3) + (ByteIn(a) + j - 4));
    }
  }

  /** What the store pair wrote, the load pair reads back. */
  lemma UnalignedRoundTrip(s: Cpu, swl: Instr, swr: Instr, lwl: Instr, lwr: Instr, a: word)
    requires Inv(s) && FullyMapped(s.vm) && a + 4 <= Size(s.vm)
    requires swl.op == SWL && swr.op == SWR && lwl.op == LWL && lwr.op == LWR
    requires swl.rs == swr.rs && swl.rt == swr.rt && lwl.rs == lwr.rs && lwl.rt == lwr.rt != 0
    requires Idle(s, swl.rs) && Idle(s, swl.rt) && Idle(s, lwl.rs)
    requires Address(swl, s.regs[swl.rs]) == a + 3 && Address(swr, s.regs[swr.rs]) == a
    requires Address(lwl, s.regs[lwl.rs]) == a + 3 && Address(lwr, s.regs[lwr.rs]) == a
    ensures var r1 := Perform(s, swl);
      && r1.Ran? && Shape(r1.s)
      && var r2 := Perform(r1.s, swr);
      && r2.Ran? && Shape(r2.s)
      && var r3 := Perform(r2.s, lwl);
      && r3.Ran? && Shape(r3.s)
      && var r4 := Perform(r3.s, lwr);
      && r4.Ran? && Shape(r4.s)
      && Flush(r4.s).regs[lwl.rt] == s.regs[swl.rt]
  {
    hide FullyMapped, Perform, Address, Idle, SameMap, VByte, LittleEndian, ByteOf, WordWritten;
    StorePair(s, swl, swr, a);
    var s2 := Perform(Perform(s, swl).s, swr).s;
    NoLoadIdle(s2, lwl.rs);
    WrittenBytes(s.vm, s2.vm, a, s.regs[swl.rt]);
    LoadPair(s2, lwl, lwr, a);
  }

  lemma WrittenBytes(vm: VM, vm': VM, a: word, w: word)
    requires WordWritten(vm, vm', a, w) && a + 4 <= Size(vm)
    ensures FullyMapped(vm') && Size(vm') == Size(vm)
    ensures LittleEndian(VByte(vm', a), VByte(vm', a + 1), VByte(vm', a + 2), VByte(vm', a + 3)) == w
  {
    hide VByte, ByteOf, LittleEndian;
    WordBytes(w);
  }
}
