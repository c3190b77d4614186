/** Address translation and memory access of the simulated machine
    (machine/translate.cc), for a little-endian host. */
module VirtualMemory {
  import opened Words

  const PageSize := 128
  const NumPhysPages := 128
  const MemorySize := NumPhysPages * PageSize
  const TLBSize := 4

  datatype Exception =
    | SyscallException | PageFaultException | ReadOnlyException | BusErrorException
    | AddressErrorException | OverflowException | IllegalInstrException

  datatype Entry = Entry(virtualPage: int32, physicalPage: int32, valid: bool, readOnly: bool, used: bool, dirty: bool)

  /** The machine has a page table indexed by virtual page, or a TLB. */
  datatype Tables = PageTable(entries: seq<Entry>) | Tlb(entries: seq<Entry>)

  datatype VM = VM(mem: seq<byte>, tables: Tables)

  predicate ValidVM(vm: VM) {
    |vm.mem| == MemorySize && (vm.tables.Tlb? ==> |vm.tables.entries| == TLBSize)
  }

  /** The outcome of a translation: the entry used, and the physical address. */
  datatype Translation = Fault(e: Exception) | At(index: nat, phys: nat)

  predicate Misaligned(addr: word, size: nat) {
    (size == 4 && addr % 4 != 0) || (size == 2 && addr % 2 != 0)
  }

  predicate Hit(e: Entry, vpn: nat) {
    e.valid && e.virtualPage == vpn
  }

  /** The index of the first TLB entry for vpn, from i on, or the TLB's size. */
  function FirstHit(tlb: seq<Entry>, vpn: nat, i: nat): (k: nat)
    requires i <= |tlb|
    ensures i <= k <= |tlb| && (forall j | i <= j < k :: !Hit(tlb[j], vpn)) && (k < |tlb| ==> Hit(tlb[k], vpn))
    decreases |tlb| - i
  {
    if i == |tlb| || Hit(tlb[i], vpn) then i else FirstHit(tlb, vpn, i + 1)
  }

  /** The checks made on the entry once it is found. */
  function ThroughEntry(entries: seq<Entry>, k: nat, addr: word, writing: bool): Translation
    requires k < |entries|
  {
    var e := entries[k];
    if e.readOnly && writing then Fault(ReadOnlyException)
    else if Unsigned(e.physicalPage) >= NumPhysPages then Fault(BusErrorException)
    else At(k, e.physicalPage * PageSize + addr % PageSize)
  }

  function Translate(tables: Tables, addr: word, size: nat, writing: bool): Translation {
    var vpn := addr / PageSize;
    if Misaligned(addr, size) then Fault(AddressErrorException)
    else match tables
      case PageTable(entries) =>
        if vpn >= |entries| then Fault(AddressErrorException)
        else if !entries[vpn].valid then Fault(PageFaultException)
        else ThroughEntry(entries, vpn, addr, writing)
      case Tlb(entries) =>
        var k := FirstHit(entries, vpn, 0);
        if k == |entries| then Fault(PageFaultException)
        else ThroughEntry(entries, k, addr, writing)
  }

  /** Setting the use and dirty bits of the entry that was used. */
  function Touch(tables: Tables, k: nat, writing: bool): Tables
    requires k < |tables.entries|
  {
    var e := tables.entries[k];
    tables.(entries := tables.entries[k := e.(used := true, dirty := e.dirty || writing)])
  }

  /** An aligned access does not leave its page. */
  lemma Aligned(addr: word, size: nat)
    requires size == 1 || size == 2 || size == 4
    requires !Misaligned(addr, size)
    ensures addr % PageSize + size <= PageSize && (addr % PageSize) % size == 0
  {
    var q, r, k := addr / PageSize, addr % PageSize, addr / size;
    assert addr == PageSize * q + r;
    if size == 4 {
      assert r == 4 * (k - 32 * q);
    } else if size == 2 {
      assert r == 2 * (k - 64 * q);
    }
  }

  /** On success the whole access lies in physical memory. */
  lemma InBounds(tables: Tables, addr: word, size: nat, writing: bool)
    requires size == 1 || size == 2 || size == 4
    requires Translate(tables, addr, size, writing).At?
    ensures var t := Translate(tables, addr, size, writing);
      t.index < |tables.entries| && t.phys + size <= MemorySize
  {
    Aligned(addr, size);
    InFrame(tables, addr, size, writing);
  }

  lemma InFrame(tables: Tables, addr: word, size: nat, writing: bool)
    requires Translate(tables, addr, size, writing).At?
    ensures var t := Translate(tables, addr, size, writing);
      && t.index < |tables.entries| && 0 <= tables.entries[t.index].physicalPage < NumPhysPages
      && t.phys == tables.entries[t.index].physicalPage * PageSize + addr % PageSize
  {}

  /** Entry k is the one for the page of addr: the page table's, if it is valid, or the
      first that matches in the TLB. */
  predicate Serves(tables: Tables, addr: word, k: nat) {
    var vpn, entries := addr / PageSize, tables.entries;
    && k < |entries|
    && if tables.PageTable? then k == vpn && entries[k].valid
       else Hit(entries[k], vpn) && forall j | 0 <= j < k :: !Hit(entries[j], vpn)
  }

  predicate Refuses(e: Entry, writing: bool) { writing && e.readOnly }

  predicate HasFrame(e: Entry) { 0 <= e.physicalPage < NumPhysPages }

  /** Exactly which accesses succeed, and where; and exactly which exception the others
      raise. */
  lemma TranslateExact(tables: Tables, addr: word, size: nat, writing: bool)
    requires size == 1 || size == 2 || size == 4
    ensures var t, entries := Translate(tables, addr, size, writing), tables.entries;
      && (t == Fault(AddressErrorException) <==>
            addr % size != 0 || (tables.PageTable? && addr / PageSize >= |entries|))
      && (t == Fault(PageFaultException) <==>
            && addr % size == 0 && (tables.PageTable? ==> addr / PageSize < |entries|)
            && forall k | 0 <= k < |entries| :: !Serves(tables, addr, k))
      && (t == Fault(ReadOnlyException) <==>
            && addr % size == 0
            && exists k | 0 <= k < |entries| :: Serves(tables, addr, k) && Refuses(entries[k], writing))
      && (t == Fault(BusErrorException) <==>
            && addr % size == 0
            && exists k | 0 <= k < |entries| ::
              Serves(tables, addr, k) && !Refuses(entries[k], writing) && !HasFrame(entries[k]))
      && (t.At? <==>
            && addr % size == 0
            && exists k | 0 <= k < |entries| ::
              Serves(tables, addr, k) && !Refuses(entries[k], writing) && HasFrame(entries[k]))
      && (t.At? ==>
            && Serves(tables, addr, t.index)
            && t.phys == entries[t.index].physicalPage * PageSize + addr % PageSize)
  {
    hide Hit;
    var vpn, entries := addr / PageSize, tables.entries;
    var k := if tables.PageTable? then vpn else FirstHit(entries, vpn, 0);
    assert forall j | 0 <= j < |entries| && Serves(tables, addr, j) :: j == k;
    assert k < |entries| ==> (Serves(tables, addr, k) <==> tables.Tlb? || entries[k].valid);
  }

  // ----------------------------------------------------------------- accesses

  /** The size bytes at p, read into an int; a single byte is a signed char. */
  function Load(mem: seq<byte>, p: nat, size: nat): word
    requires size == 1 || size == 2 || size == 4
    requires p + size <= |mem|
  {
    if size == 1 then (if mem[p] < 0x80 then mem[p] else mem[p] + 0xffff_ff00)
    else if size == 2 then LittleEndian(mem[p], mem[p + 1], 0, 0)
    else LittleEndian(mem[p], mem[p + 1], mem[p + 2], mem[p + 3])
  }

  function Store(mem: seq<byte>, p: nat, size: nat, w: word): (mem': seq<byte>)
    requires size == 1 || size == 2 || size == 4
    requires p + size <= |mem|
    ensures |mem'| == |mem|
    ensures forall i | 0 <= i < |mem| :: mem'[i] == if p <= i < p + size then ByteOf(w, i - p) else mem[i]
  {
    if size == 1 then mem[p := ByteOf(w, 0)]
    else if size == 2 then mem[p := ByteOf(w, 0)][p + 1 := ByteOf(w, 1)]
    else mem[p := ByteOf(w, 0)][p + 1 := ByteOf(w, 1)][p + 2 := ByteOf(w, 2)][p + 3 := ByteOf(w, 3)]
  }

  datatype ReadResult = ReadFault(e: Exception) | Value(vm: VM, value: word)
  datatype WriteResult = WriteFault(e: Exception) | Written(vm: VM)

  function ReadMem(vm: VM, addr: word, size: nat): (r: ReadResult)
    requires ValidVM(vm) && (size == 1 || size == 2 || size == 4)
    ensures r.Value? ==> ValidVM(r.vm) && r.vm.mem == vm.mem
  {
    match Translate(vm.tables, addr, size, false)
    case Fault(e) => ReadFault(e)
    case At(k, p) =>
      InBounds(vm.tables, addr, size, false);
      Value(vm.(tables := Touch(vm.tables, k, false)), Load(vm.mem, p, size))
  }

  function WriteMem(vm: VM, addr: word, size: nat, value: word): (r: WriteResult)
    requires ValidVM(vm) && (size == 1 || size == 2 || size == 4)
    ensures r.Written? ==> ValidVM(r.vm)
  {
    match Translate(vm.tables, addr, size, true)
    case Fault(e) => WriteFault(e)
    case At(k, p) =>
      InBounds(vm.tables, addr, size, true);
      Written(VM(Store(vm.mem, p, size, value), Touch(vm.tables, k, true)))
  }

  /** Each successful access marks the entry it uses, a write also as dirty, and leaves
      all else in the table as it was. */
  predicate Marks(vm: VM, vm': VM, k: nat, wrote: bool) {
    var e, e' := vm.tables.entries, vm'.tables.entries;
    && vm'.tables.Tlb? == vm.tables.Tlb? && |e'| == |e| && k < |e|
    && (forall j | 0 <= j < |e| && j != k :: e'[j] == e[j])
    && e'[k].used && (e'[k].dirty <==> e[k].dirty || wrote)
    && e'[k].virtualPage == e[k].virtualPage && e'[k].physicalPage == e[k].physicalPage
    && e'[k].valid == e[k].valid && e'[k].readOnly == e[k].readOnly
  }

  lemma AccessMarks(vm: VM, addr: word, size: nat, value: word)
    requires ValidVM(vm) && (size == 1 || size == 2 || size == 4)
    ensures var r := ReadMem(vm, addr, size);
      r.Value? ==> exists k | 0 <= k < |vm.tables.entries| :: Serves(vm.tables, addr, k) && Marks(vm, r.vm, k, false)
    ensures var r := WriteMem(vm, addr, size, value);
      r.Written? ==> exists k | 0 <= k < |vm.tables.entries| :: Serves(vm.tables, addr, k) && Marks(vm, r.vm, k, true)
    ensures ReadMem(vm, addr, size).ReadFault? ==>
      Translate(vm.tables, addr, size, false) == Fault(ReadMem(vm, addr, size).e)
    ensures WriteMem(vm, addr, size, value).WriteFault? ==>
      Translate(vm.tables, addr, size, true) == Fault(WriteMem(vm, addr, size, value).e)
  {
    hide Translate, Serves, Load;
    TranslateExact(vm.tables, addr, size, false);
    TranslateExact(vm.tables, addr, size, true);
    if ReadMem(vm, addr, size).Value? {
      var t := Translate(vm.tables, addr, size, false);
      InBounds(vm.tables, addr, size, false);
      assert Marks(vm, ReadMem(vm, addr, size).vm, t.index, false);
    }
    if WriteMem(vm, addr, size, value).Written? {
      var t := Translate(vm.tables, addr, size, true);
      InBounds(vm.tables, addr, size, true);
      assert Marks(vm, WriteMem(vm, addr, size, value).vm, t.index, true);
    }
  }

  /** Use and dirty bits never influence a translation. */
  lemma TouchTranslates(tables: Tables, k: nat, wrote: bool, addr: word, size: nat, writing: bool)
    requires k < |tables.entries|
    ensures Translate(Touch(tables, k, wrote), addr, size, writing) == Translate(tables, addr, size, writing)
  {
    if tables.Tlb? { TouchHits(tables, k, wrote, addr / PageSize, 0); }
  }

  lemma {:induction false} TouchHits(tables: Tables, k: nat, wrote: bool, vpn: nat, i: nat)
    requires k < |tables.entries| && i <= |tables.entries|
    ensures FirstHit(Touch(tables, k, wrote).entries, vpn, i) == FirstHit(tables.entries, vpn, i)
    decreases |tables.entries| - i
  {
    if i < |tables.entries| { TouchHits(tables, k, wrote, vpn, i + 1); }
  }

  /** What was written is read back, through a page table or a TLB: the whole word,
      or its low half, or its low byte with its sign. */
  lemma ReadAfterWrite(vm: VM, addr: word, size: nat, value: word)
    requires ValidVM(vm) && (size == 1 || size == 2 || size == 4)
    requires WriteMem(vm, addr, size, value).Written?
    ensures var r := ReadMem(WriteMem(vm, addr, size, value).vm, addr, size);
      r.Value? && r.value ==
        if size == 4 then value
        else if size == 2 then value % 0x1_0000
        else if value % 0x100 < 0x80 then value % 0x100 else value % 0x100 + 0xffff_ff00
  {
    hide Translate, Touch, ByteOf, LittleEndian;
    var vm1 := WriteMem(vm, addr, size, value).vm;
    var t := Translate(vm.tables, addr, size, true);
    InBounds(vm.tables, addr, size, true);
    TouchTranslates(vm.tables, t.index, true, addr, size, false);
    ReadsWhereWrites(vm.tables, addr, size);
    WordBytes(value);
    LowBytes(value);
  }

  /** A read goes where a write goes. */
  lemma ReadsWhereWrites(tables: Tables, addr: word, size: nat)
    requires Translate(tables, addr, size, true).At?
    ensures Translate(tables, addr, size, false) == Translate(tables, addr, size, true)
  {}

  lemma LowBytes(w: word)
    ensures ByteOf(w, 0) == w % 0x100 && LittleEndian(ByteOf(w, 0), ByteOf(w, 1), 0, 0) == w % 0x1_0000
  {
    var q1 := w / 0x100;
    var q2 := q1 / 0x100;
    assert ByteOf(w, 1) == q1 % 0x100;
    assert w == q2 * 0x1_0000 + (w % 0x100 + 0x100 * (q1 % 0x100));
    ModUnique(w, 0x1_0000, q2, w % 0x100 + 0x100 * (q1 % 0x100));
  }

  // ----------------------------------------------------- memory as bytes

  /** The byte that a program can read at a virtual address, if any. */
  function ByteAt(vm: VM, va: nat): (b: int)
    requires ValidVM(vm)
    ensures -1 <= b < 256
  {
    if va >= WORD then -1
    else match Translate(vm.tables, va, 1, false)
      case Fault(_) => -1
      case At(k, p) =>
        InBounds(vm.tables, va, 1, false);
        vm.mem[p]
  }

  /** The bytes of an access are consecutive in one frame. */
  lemma AccessBytes(tables: Tables, addr: word, size: nat, writing: bool, i: nat)
    requires size == 1 || size == 2 || size == 4
    requires Translate(tables, addr, size, writing).At? && i < size
    ensures addr + i < WORD
    ensures var t := Translate(tables, addr, size, writing);
      Translate(tables, addr + i, 1, false) == At(t.index, t.phys + i)
  {
    Aligned(addr, size);
    var q, r := addr / PageSize, addr % PageSize;
    assert addr + i == PageSize * q + (r + i);
    ModUnique(addr + i, PageSize, q, r + i);
    assert addr + i < WORD by { assert addr < WORD && PageSize * (q + 1) <= WORD by { PageFits(addr); } }
  }

  lemma PageFits(addr: word)
    ensures PageSize * (addr / PageSize + 1) <= WORD
  {}

  // ------------------------------------------------------------ TLB agreement

  /** Every valid TLB entry is a copy of its valid page table entry. */
  ghost predicate Agrees(tlb: seq<Entry>, table: seq<Entry>) {
    forall i | 0 <= i < |tlb| && tlb[i].valid ::
      var v := tlb[i].virtualPage;
      0 <= v < |table| && table[v].valid
      && table[v].physicalPage == tlb[i].physicalPage && table[v].readOnly == tlb[i].readOnly
  }

  predicate SameOutcome(x: Translation, y: Translation) {
    if x.At? then y.At? && x.phys == y.phys else y.Fault? && x.e == y.e
  }

  /** A TLB that agrees with the page table gives the page table's answer for
      every access, or a page fault because the page is not in it. */
  lemma TlbAgrees(tlb: seq<Entry>, table: seq<Entry>, addr: word, size: nat, writing: bool)
    requires Agrees(tlb, table)
    ensures var x, y := Translate(Tlb(tlb), addr, size, writing), Translate(PageTable(table), addr, size, writing);
      SameOutcome(x, y) || x == Fault(PageFaultException)
    ensures var x := Translate(Tlb(tlb), addr, size, writing);
      !Misaligned(addr, size) ==>
        (x == Fault(PageFaultException) <==> forall i | 0 <= i < |tlb| :: !Hit(tlb[i], addr / PageSize))
  {
    var k := FirstHit(tlb, addr / PageSize, 0);
    if k < |tlb| {
      assert tlb[k].valid;
    }
  }

  ghost predicate DistinctFrames(table: seq<Entry>) {
    forall v, w | 0 <= v < w < |table| && table[v].valid && table[w].valid ::
      table[v].physicalPage != table[w].physicalPage
  }

  /** Distinct virtual bytes are distinct physical bytes, through the page table
      or through any TLB that agrees with it. */
  lemma TranslateInjective(tables: Tables, table: seq<Entry>, a: word, b: word, writingA: bool, writingB: bool)
    requires tables == PageTable(table) || (tables.Tlb? && Agrees(tables.entries, table))
    requires DistinctFrames(table) && a != b
    requires Translate(tables, a, 1, writingA).At? && Translate(tables, b, 1, writingB).At?
    ensures Translate(tables, a, 1, writingA).phys != Translate(tables, b, 1, writingB).phys
  {
    if tables.Tlb? {
      TlbAgrees(tables.entries, table, a, 1, writingA);
      TlbAgrees(tables.entries, table, b, 1, writingB);
    }
    InFrame(PageTable(table), a, 1, writingA);
    InFrame(PageTable(table), b, 1, writingB);
    var v, w := a / PageSize, b / PageSize;
    if v != w {
      assert table[v].physicalPage != table[w].physicalPage;
    }
  }

  /** What ReadMem delivers is the bytes at the virtual addresses, in little-endian
      order, a single byte with its sign; and no byte changes. */
  lemma ReadExact(vm: VM, addr: word, size: nat, va: nat)
    requires ValidVM(vm) && (size == 1 || size == 2 || size == 4) && ReadMem(vm, addr, size).Value?
    ensures var r := ReadMem(vm, addr, size);
      && (forall i | 0 <= i < size :: ByteAt(vm, addr + i) == ByteOf(r.value, i))
      && (size == 2 ==> r.value < 0x1_0000) && (size == 1 ==> r.value < 0x80 || r.value >= 0xffff_ff80)
      && ByteAt(r.vm, va) == ByteAt(vm, va)
  {
    hide Translate, Touch, ByteOf, LittleEndian, Load;
    var r := ReadMem(vm, addr, size);
    var t := Translate(vm.tables, addr, size, false);
    InBounds(vm.tables, addr, size, false);
    forall i | 0 <= i < size ensures ByteAt(vm, addr + i) == ByteOf(r.value, i) {
      AccessBytes(vm.tables, addr, size, false, i);
      LoadBytes(vm.mem, t.phys, size, i);
    }
    LoadBytes(vm.mem, t.phys, size, 0);
    if va < WORD { TouchTranslates(vm.tables, t.index, false, va, 1, false); }
  }

  lemma LoadBytes(mem: seq<byte>, p: nat, size: nat, i: nat)
    requires (size == 1 || size == 2 || size == 4) && p + size <= |mem| && i < size
    ensures var v := Load(mem, p, size);
      && ByteOf(v, i) == mem[p + i]
      && (size == 2 ==> v < 0x1_0000) && (size == 1 ==> v < 0x80 || v >= 0xffff_ff80)
  {
    if size == 2 {
      BytesWord(mem[p], mem[p + 1], 0, 0);
    } else if size == 4 {
      BytesWord(mem[p], mem[p + 1], mem[p + 2], mem[p + 3]);
    } else if mem[p] >= 0x80 {
      LowByte(mem[p], 0xff_ffff);
    }
  }

  /** WriteMem changes exactly the bytes at its virtual addresses, to those of the
      value, for any page table with distinct frames, some of its pages perhaps
      invalid or read-only, and for any TLB that agrees with it. */
  lemma WriteExact(vm: VM, table: seq<Entry>, addr: word, size: nat, value: word, va: nat)
    requires ValidVM(vm) && (size == 1 || size == 2 || size == 4) && WriteMem(vm, addr, size, value).Written?
    requires vm.tables == PageTable(table) || (vm.tables.Tlb? && Agrees(vm.tables.entries, table))
    requires DistinctFrames(table)
    ensures ByteAt(WriteMem(vm, addr, size, value).vm, va) ==
      if addr <= va < addr + size then ByteOf(value, va - addr) else ByteAt(vm, va)
  {
    hide Translate, Touch, ByteOf, Agrees, DistinctFrames;
    var t := Translate(vm.tables, addr, size, true);
    InBounds(vm.tables, addr, size, true);
    if addr <= va < addr + size {
      var i := va - addr;
      AccessBytes(vm.tables, addr, size, true, i);
      assert va == addr + i;
    }
    if va < WORD {
      TouchTranslates(vm.tables, t.index, true, va, 1, false);
      var u := Translate(vm.tables, va, 1, false);
      if u.At? { InBounds(vm.tables, va, 1, false); }
      if u.At? && !(addr <= va < addr + size) && t.phys <= u.phys < t.phys + size {
        var i := u.phys - t.phys;
        AccessBytes(vm.tables, addr, size, true, i);
        TranslateInjective(vm.tables, table, va, addr + i, false, false);
      }
    }
  }

  // --------------------------------------------------------- virtual contents

  /** A page table that maps every page it has, writable, to its own frame. */
  ghost predicate FullyMapped(vm: VM) {
    && ValidVM(vm) && vm.tables.PageTable? && |vm.tables.entries| * PageSize <= WORD
    && (forall v | 0 <= v < |vm.tables.entries| ::
          vm.tables.entries[v].valid && !vm.tables.entries[v].readOnly
          && 0 <= vm.tables.entries[v].physicalPage < NumPhysPages)
    && forall v, w | 0 <= v < w < |vm.tables.entries| ::
         vm.tables.entries[v].physicalPage != vm.tables.entries[w].physicalPage
  }

  function Size(vm: VM): nat { |vm.tables.entries| * PageSize }

  ghost function PhysOf(vm: VM, va: nat): (p: nat)
    requires FullyMapped(vm) && va < Size(vm)
    ensures p < MemorySize
  {
    vm.tables.entries[va / PageSize].physicalPage * PageSize + va % PageSize
  }

  /** The byte that a program sees at virtual address va. */
  ghost function VByte(vm: VM, va: nat): byte
    requires FullyMapped(vm) && va < Size(vm)
  {
    vm.mem[PhysOf(vm, va)]
  }

  /** Distinct virtual bytes are distinct physical bytes. */
  lemma PhysInjective(vm: VM, a: nat, b: nat)
    requires FullyMapped(vm) && a < Size(vm) && b < Size(vm) && a != b
    ensures PhysOf(vm, a) != PhysOf(vm, b)
  {
    var v, w := a / PageSize, b / PageSize;
    if v != w {
      assert vm.tables.entries[v].physicalPage != vm.tables.entries[w].physicalPage;
    }
  }

  /** vm' maps the same pages as vm. */
  ghost predicate SameMap(vm: VM, vm': VM) {
    && FullyMapped(vm) && FullyMapped(vm') && |vm'.tables.entries| == |vm.tables.entries|
    && forall v | 0 <= v < |vm.tables.entries| ::
         vm'.tables.entries[v].physicalPage == vm.tables.entries[v].physicalPage
  }

  /** Use and dirty bits, and the contents of memory, leave the mapping alone. */
  lemma TouchKeeps(vm: VM, mem: seq<byte>, k: nat, writing: bool)
    requires FullyMapped(vm) && k < |vm.tables.entries| && |mem| == MemorySize
    ensures SameMap(vm, VM(mem, Touch(vm.tables, k, writing)))
  {}

  lemma Translates(vm: VM, a: word, writing: bool)
    requires FullyMapped(vm) && a % 4 == 0 && a + 4 <= Size(vm)
    ensures Translate(vm.tables, a, 4, writing) == At(a / PageSize, PhysOf(vm, a))
    ensures ValidVM(vm) && PhysOf(vm, a) + 4 <= MemorySize && a / PageSize < |vm.tables.entries|
  {
    Aligned(a, 4);
  }

  /** The bytes of an aligned word are consecutive in physical memory. */
  lemma Consecutive(vm: VM, a: word, i: nat)
    requires FullyMapped(vm) && a % 4 == 0 && a + 4 <= Size(vm) && i < 4
    ensures PhysOf(vm, a + i) == PhysOf(vm, a) + i
  {
    Aligned(a, 4);
    var q, r := a / PageSize, a % PageSize;
    assert a + i == PageSize * q + (r + i);
    assert (a + i) / PageSize == q && (a + i) % PageSize == r + i;
  }

  /** A word read at an aligned address is the four bytes there; only use bits
      change. */
  lemma ReadWord(vm: VM, a: word)
    requires FullyMapped(vm) && a % 4 == 0 && a + 4 <= Size(vm)
    ensures var r := ReadMem(vm, a, 4);
      && r.Value? && SameMap(vm, r.vm) && r.vm.mem == vm.mem
      && r.value == LittleEndian(VByte(vm, a), VByte(vm, a + 1), VByte(vm, a + 2), VByte(vm, a + 3))
  {
    hide Translate, FullyMapped, PhysOf, SameMap, Touch;
    Translates(vm, a, false);
    TouchKeeps(vm, vm.mem, a / PageSize, false);
    Consecutive(vm, a, 1);
    Consecutive(vm, a, 2);
    Consecutive(vm, a, 3);
  }

  lemma SamePhys(vm: VM, vm': VM, va: nat)
    requires SameMap(vm, vm') && va < Size(vm)
    ensures FullyMapped(vm) && FullyMapped(vm') && Size(vm') == Size(vm) && PhysOf(vm', va) == PhysOf(vm, va)
  {}

  /** A word written at an aligned address changes exactly the four bytes there. */
  lemma WriteWord(vm: VM, a: word, w: word)
    requires FullyMapped(vm) && a % 4 == 0 && a + 4 <= Size(vm)
    ensures var r := WriteMem(vm, a, 4, w);
      && r.Written? && SameMap(vm, r.vm) && FullyMapped(r.vm) && Size(r.vm) == Size(vm)
      && r.vm.mem == Store(vm.mem, PhysOf(vm, a), 4, w)
      && forall va | 0 <= va < Size(vm) ::
           VByte(r.vm, va) == if a <= va < a + 4 then ByteOf(w, va - a) else VByte(vm, va)
  {
    hide Translate, FullyMapped, PhysOf, SameMap, Touch, Store;
    var p := PhysOf(vm, a);
    Translates(vm, a, true);
    TouchKeeps(vm, Store(vm.mem, p, 4, w), a / PageSize, true);
    var vm' := WriteMem(vm, a, 4, w).vm;
    SamePhys(vm, vm', a);
    forall va | 0 <= va < Size(vm)
      ensures VByte(vm', va) == if a <= va < a + 4 then ByteOf(w, va - a) else VByte(vm, va)
    {
      Outside(vm, a, va);
      SamePhys(vm, vm', va);
    }
  }

  /** Where byte va lies, seen from the aligned word at a. */
  lemma Outside(vm: VM, a: word, va: nat)
    requires FullyMapped(vm) && a % 4 == 0 && a + 4 <= Size(vm) && va < Size(vm)
    ensures var p := PhysOf(vm, a);
      if a <= va < a + 4 then PhysOf(vm, va) == p + (va - a) else !(p <= PhysOf(vm, va) < p + 4)
  {
    hide PhysOf, FullyMapped;
    if a <= va < a + 4 {
      Consecutive(vm, a, va - a);
    } else if PhysOf(vm, a) <= PhysOf(vm, va) < PhysOf(vm, a) + 4 {
      var i := PhysOf(vm, va) - PhysOf(vm, a);
      Consecutive(vm, a, i);
      PhysInjective(vm, va, a + i);
    }
  }
}
