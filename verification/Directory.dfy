/** The directory (filesys/directory.cc): a table of names and header sectors, kept
    in a file. */
module Directories {
  import opened Collections
  import opened Words
  import opened FileHeaders
  import opened OpenFiles

  const FileNameMaxLen := 9
  const EntrySize := 20

  /** An entry as the compiler lays it out: a flag, three bytes of padding, the
      sector, ten bytes of name, two bytes of padding. */
  datatype RawEntry = Entry(inUse: byte, gap: seq<byte>, sector: int32, name: seq<byte>, tail: seq<byte>)

  type DirEntry = e: RawEntry | |e.gap| == 3 && |e.name| == FileNameMaxLen + 1 && |e.tail| == 2
    witness Entry(0, [0, 0, 0], 0, [0, 0, 0, 0, 0, 0, 0, 0, 0, 0], [0, 0])

  type Table = seq<DirEntry>

  // -------------------------------------------------------------------- layout

  function EntryByte(e: DirEntry, c: nat): byte
    requires c < EntrySize
  {
    if c == 0 then e.inUse
    else if c < 4 then e.gap[c - 1]
    else if c < 8 then ByteOf(Unsigned(e.sector), c - 4)
    else if c < 18 then e.name[c - 8]
    else e.tail[c - 18]
  }

  function EncodeTable(t: Table): (b: seq<byte>)
    ensures |b| == EntrySize * |t|
  {
    seq(EntrySize * |t|, k requires 0 <= k < EntrySize * |t| => EntryByte(t[k / EntrySize], k % EntrySize))
  }

  function DecodeEntry(b: seq<byte>): DirEntry
    requires |b| == EntrySize
  {
    Entry(b[0], b[1..4], Signed(LittleEndian(b[4], b[5], b[6], b[7])), b[8..18], b[18..20])
  }

  function DecodeTable(b: seq<byte>, n: nat): (t: Table)
    requires EntrySize * n <= |b|
    ensures |t| == n
  {
    seq(n, i requires 0 <= i < n => DecodeEntry(b[EntrySize * i..EntrySize * (i + 1)]))
  }

  lemma EntryRoundTrip(e: DirEntry, b: seq<byte>)
    requires |b| == EntrySize && forall c | 0 <= c < EntrySize :: b[c] == EntryByte(e, c)
    ensures DecodeEntry(b) == e
  {
    WordBytes(Unsigned(e.sector));
    assert b[1..4] == e.gap && b[8..18] == e.name && b[18..20] == e.tail;
    assert b[4] == EntryByte(e, 4) && b[5] == EntryByte(e, 5) && b[6] == EntryByte(e, 6) && b[7] == EntryByte(e, 7);
  }

  /** A table written to its file and fetched again is the same table. */
  lemma TableRoundTrip(t: Table)
    ensures DecodeTable(EncodeTable(t), |t|) == t
  {
    hide EntryByte, DecodeEntry;
    var b := EncodeTable(t);
    forall i | 0 <= i < |t| ensures DecodeTable(b, |t|)[i] == t[i] {
      var chunk := b[EntrySize * i..EntrySize * (i + 1)];
      forall c | 0 <= c < EntrySize ensures chunk[c] == EntryByte(t[i], c) {
        assert (EntrySize * i + c) / EntrySize == i && (EntrySize * i + c) % EntrySize == c;
      }
      EntryRoundTrip(t[i], chunk);
    }
  }

  lemma EntryBytes(b: seq<byte>, c: nat)
    requires |b| == EntrySize && c < EntrySize
    ensures EntryByte(DecodeEntry(b), c) == b[c]
  {
    hide ByteOf, LittleEndian;
    BytesWord(b[4], b[5], b[6], b[7]);
    CastsInvert(LittleEndian(b[4], b[5], b[6], b[7]));
  }

  /** And bytes fetched as a table and written again are the same bytes. */
  lemma TableBytes(b: seq<byte>, n: nat)
    requires |b| == EntrySize * n
    ensures EncodeTable(DecodeTable(b, n)) == b
  {
    hide EntryByte, DecodeEntry;
    forall k | 0 <= k < |b| ensures EncodeTable(DecodeTable(b, n))[k] == b[k] {
      var i, c := k / EntrySize, k % EntrySize;
      assert k == EntrySize * i + c;
      EntryBytes(b[EntrySize * i..EntrySize * (i + 1)], c);
    }
  }

  lemma TableIs(b: seq<byte>, t: Table)
    requires |b| == EntrySize * |t|
    requires forall i | 0 <= i < |t| :: t[i] == DecodeEntry(b[EntrySize * i..EntrySize * (i + 1)])
    ensures t == DecodeTable(b, |t|)
  {
    hide DecodeEntry;
  }

  // --------------------------------------------------------------------- names

  /** The characters of a C string, at most n of them: what strncmp looks at. */
  function CName(b: seq<byte>, n: nat): (r: seq<byte>)
    ensures |r| <= n && r <= b
    ensures |r| < n && |r| < |b| ==> b[|r|] == 0
    ensures 0 !in r
  {
    if n == 0 || b == [] || b[0] == 0 then [] else [b[0]] + CName(b[1..], n - 1)
  }

  function Key(name: seq<byte>): seq<byte> { CName(name, FileNameMaxLen) }

  /** strncpy of a name into the entry's ten bytes: the last is left alone. */
  function StrNCpy(to: seq<byte>, name: seq<byte>): (r: seq<byte>)
    requires |to| == FileNameMaxLen + 1
    ensures |r| == FileNameMaxLen + 1
  {
    var k := Key(name);
    k + seq(FileNameMaxLen - |k|, _ => 0) + to[FileNameMaxLen..]
  }

  /** Character i of a C string, which ends with a zero. */
  function Ch(b: seq<byte>, i: nat): byte {
    if i < |b| then b[i] else 0
  }

  /** The first place at which strncmp finds two strings to differ. */
  ghost predicate DifferFirst(a: seq<byte>, b: seq<byte>, i: nat) {
    (forall j | 0 <= j < i :: Ch(a, j) == Ch(b, j) != 0) && Ch(a, i) != Ch(b, i)
  }

  lemma {:induction false} CNameExact(a: seq<byte>, b: seq<byte>, n: nat)
    ensures CName(a, n) == CName(b, n) <==> forall i | 0 <= i < n :: !DifferFirst(a, b, i)
  {
    if n > 0 {
      if Ch(a, 0) != Ch(b, 0) {
        assert DifferFirst(a, b, 0);
      } else if Ch(a, 0) == 0 {
        assert forall i | 0 < i < n :: !DifferFirst(a, b, i);
      } else {
        CNameExact(a[1..], b[1..], n - 1);
        forall i: nat ensures DifferFirst(a, b, i + 1) == DifferFirst(a[1..], b[1..], i) { Later(a, b, i); }
        forall i | 0 < i < n ensures DifferFirst(a, b, i) == DifferFirst(a[1..], b[1..], i - 1) { Later(a, b, i - 1); }
      }
    }
  }

  lemma Later(a: seq<byte>, b: seq<byte>, i: nat)
    requires Ch(a, 0) == Ch(b, 0) != 0
    ensures DifferFirst(a, b, i + 1) == DifferFirst(a[1..], b[1..], i)
  {
    assert forall j: nat :: Ch(a[1..], j) == Ch(a, j + 1) && Ch(b[1..], j) == Ch(b, j + 1);
    if DifferFirst(a[1..], b[1..], i) {
      assert forall j | 0 < j < i + 1 :: Ch(a[1..], j - 1) == Ch(a, j) && Ch(b[1..], j - 1) == Ch(b, j);
    }
  }

  /** Two names are the same to the directory exactly if strncmp of nine characters
      finds no difference. */
  lemma KeyExact(a: seq<byte>, b: seq<byte>)
    ensures Key(a) == Key(b) <==> forall i | 0 <= i < 9 :: !DifferFirst(a, b, i)
  {
    CNameExact(a, b, 9);
  }

  /** strncpy of nine characters, byte by byte: the name up to its end, then zeros. */
  lemma StrNCpyExact(to: seq<byte>, name: seq<byte>, i: nat)
    requires |to| == 10 && i < 10
    ensures StrNCpy(to, name)[i] ==
      if i == 9 then to[9] else if forall j | 0 <= j < i :: Ch(name, j) != 0 then Ch(name, i) else 0
  {
    var k := Key(name);
    if i < |k| {
      assert forall j | 0 <= j <= i :: name[j] == k[j] && k[j] in k;
    } else if |k| < i < 9 {
      assert Ch(name, |k|) == 0;
    }
  }

  lemma {:induction false} CNamePrefix(k: seq<byte>, rest: seq<byte>, n: nat)
    requires 0 !in k && |k| <= n && (|k| == n || (rest != [] && rest[0] == 0))
    ensures CName(k + rest, n) == k
  {
    if k == [] {
      assert k + rest == rest;
    } else {
      assert (k + rest)[1..] == k[1..] + rest;
      CNamePrefix(k[1..], rest, n - 1);
    }
  }

  lemma StoredName(to: seq<byte>, name: seq<byte>)
    requires |to| == FileNameMaxLen + 1
    ensures Key(StrNCpy(to, name)) == Key(name)
  {
    var k := Key(name);
    var rest := seq(FileNameMaxLen - |k|, _ => 0) + to[FileNameMaxLen..];
    assert StrNCpy(to, name) == k + rest;
    CNamePrefix(k, rest, FileNameMaxLen);
  }

  // ---------------------------------------------------------------- operations

  predicate Live(e: DirEntry) { e.inUse != 0 }

  predicate Matches(e: DirEntry, name: seq<byte>) { Live(e) && Key(e.name) == Key(name) }

  /** The first live entry of that name from i on, or the table's size. */
  function FindIndex(t: Table, name: seq<byte>, i: nat): (k: nat)
    requires i <= |t|
    ensures i <= k <= |t| && (forall j | i <= j < k :: !Matches(t[j], name)) && (k < |t| ==> Matches(t[k], name))
    decreases |t| - i
  {
    if i == |t| || Matches(t[i], name) then i else FindIndex(t, name, i + 1)
  }

  function Lookup(t: Table, name: seq<byte>): int {
    var k := FindIndex(t, name, 0);
    if k < |t| then t[k].sector else -1
  }

  predicate Present(t: Table, name: seq<byte>) { FindIndex(t, name, 0) < |t| }

  function FreeSlot(t: Table, i: nat): (k: nat)
    requires i <= |t|
    ensures i <= k <= |t| && (forall j | i <= j < k :: Live(t[j])) && (k < |t| ==> !Live(t[k]))
    decreases |t| - i
  {
    if i == |t| || !Live(t[i]) then i else FreeSlot(t, i + 1)
  }

  predicate Full(t: Table) { FreeSlot(t, 0) == |t| }

  function Added(t: Table, name: seq<byte>, sector: int32): Table
    requires !Full(t)
  {
    var k := FreeSlot(t, 0);
    t[k := t[k].(inUse := 1, name := StrNCpy(t[k].name, name), sector := sector)]
  }

  function Removed(t: Table, name: seq<byte>): Table
    requires Present(t, name)
  {
    var k := FindIndex(t, name, 0);
    t[k := t[k].(inUse := 0)]
  }

  /** No two files have the same first nine characters. */
  predicate UniqueNames(t: Table) {
    forall i, j | 0 <= i < j < |t| && Live(t[i]) && Live(t[j]) :: Key(t[i].name) != Key(t[j].name)
  }

  lemma IndexIs(t: Table, name: seq<byte>, k: nat)
    requires k <= |t| && (forall j | 0 <= j < k :: !Matches(t[j], name)) && (k < |t| ==> Matches(t[k], name))
    ensures FindIndex(t, name, 0) == k
  {}

  lemma AddKeepsUnique(t: Table, name: seq<byte>, sector: int32)
    requires UniqueNames(t) && !Present(t, name) && !Full(t)
    ensures UniqueNames(Added(t, name, sector))
  {
    StoredName(t[FreeSlot(t, 0)].name, name);
  }

  lemma RemoveKeepsUnique(t: Table, name: seq<byte>)
    requires UniqueNames(t) && Present(t, name)
    ensures UniqueNames(Removed(t, name))
  {}

  /** After Add, the name is found at its sector and every other lookup is as
      before. */
  lemma AddedLookup(t: Table, name: seq<byte>, sector: int32, other: seq<byte>)
    requires !Present(t, name) && !Full(t)
    ensures Lookup(Added(t, name, sector), other) == if Key(other) == Key(name) then sector as int else Lookup(t, other)
    ensures Present(Added(t, name, sector), name) && FindIndex(Added(t, name, sector), name, 0) == FreeSlot(t, 0)
  {
    hide Key, StrNCpy;
    var k := FreeSlot(t, 0);
    StoredName(t[k].name, name);
    var t' := Added(t, name, sector);
    IndexIs(t', name, k);
    IndexIs(t', other, if Key(other) == Key(name) then k else FindIndex(t, other, 0));
  }

  /** After Remove, the name is not found and every other lookup is as before. */
  lemma RemovedLookup(t: Table, name: seq<byte>, other: seq<byte>)
    requires UniqueNames(t) && Present(t, name)
    ensures Lookup(Removed(t, name), other) == if Key(other) == Key(name) then -1 else Lookup(t, other)
  {
    hide Key;
    var k := FindIndex(t, name, 0);
    var t' := Removed(t, name);
    IndexIs(t', other, if Key(other) == Key(name) then |t| else FindIndex(t, other, 0));
  }

  class Directory {
    const table: array<DirEntry>

    constructor (size: nat)
      ensures fresh(table) && table.Length == size && forall i | 0 <= i < size :: !Live(table[i])
    {
      table := new DirEntry[size];
      new;
      forall i | 0 <= i < size { table[i] := table[i].(inUse := 0); }
    }

    /** FetchFrom reads as much as the file has over the bytes of the table. */
    method FetchFrom(file: OpenFile)
      requires file.Valid() && table as object != file.hdr.dataSectors
      modifies table
      ensures file.Valid() && EncodeTable(table[..]) == Overlay(file.Bytes(), old(EncodeTable(table[..])))
      ensures file.hdr.numBytes == EntrySize * table.Length ==> table[..] == DecodeTable(file.Bytes(), table.Length)
    {
      hide Contents, DecodeEntry, EntryByte, EncodeTable;
      var n := table.Length;
      var b := file.ReadOver(EncodeTable(table[..]));
      forall i | 0 <= i < n { table[i] := DecodeEntry(b[EntrySize * i..EntrySize * (i + 1)]); }
      TableIs(b, table[..]);
      TableBytes(b, n);
    }

    /** WriteBack writes as much of the table as the file has room for. */
    method WriteBack(file: OpenFile)
      requires file.Valid() && NoDup(DataSectors(file.hdr.Value()))
      modifies file.disk
      ensures file.Valid() && file.Bytes() == Overlay(EncodeTable(table[..]), old(file.Bytes()))
      ensures file.hdr.numBytes == EntrySize * table.Length ==> DecodeTable(file.Bytes(), table.Length) == table[..]
      ensures forall s | 0 <= s < |file.disk.sectors| && s !in DataSectors(file.hdr.Value()) ::
        file.disk.sectors[s] == old(file.disk.sectors[s])
    {
      hide Contents, DecodeTable, EncodeTable;
      var from := EncodeTable(table[..]);
      SpliceOverlays(file.Bytes(), from);
      var _ := file.WriteAt(from, |from|, 0);
      TableRoundTrip(table[..]);
    }

    method Index(name: seq<byte>) returns (k: int)
      ensures k == if Present(table[..], name) then FindIndex(table[..], name, 0) else -1
    {
      for i := 0 to table.Length
        invariant FindIndex(table[..], name, 0) == FindIndex(table[..], name, i)
      {
        if Matches(table[i], name) { return i; }
      }
      return -1;
    }

    method Find(name: seq<byte>) returns (sector: int)
      ensures sector == Lookup(table[..], name)
    {
      var i := Index(name);
      return if i != -1 then table[i].sector else -1;
    }

    method Add(name: seq<byte>, newSector: int32) returns (ok: bool)
      modifies table
      ensures ok == (!Present(old(table[..]), name) && !Full(old(table[..])))
      ensures table[..] == if ok then Added(old(table[..]), name, newSector) else old(table[..])
    {
      var found := Index(name);
      if found != -1 { return false; }
      for i := 0 to table.Length
        invariant table[..] == old(table[..]) && FreeSlot(table[..], 0) == FreeSlot(table[..], i)
      {
        if !Live(table[i]) {
          table[i] := table[i].(inUse := 1, name := StrNCpy(table[i].name, name), sector := newSector);
          return true;
        }
      }
      return false;
    }

    method Remove(name: seq<byte>) returns (ok: bool)
      modifies table
      ensures ok == Present(old(table[..]), name)
      ensures table[..] == if ok then Removed(old(table[..]), name) else old(table[..])
    {
      var i := Index(name);
      if i == -1 { return false; }
      table[i] := table[i].(inUse := 0);
      return true;
    }
  }
}
