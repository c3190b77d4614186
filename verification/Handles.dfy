/** Handles that outlive what happens to the directory: an open file keeps the header
    it was opened with (filesys/openfile.cc), whatever becomes of the file. */
module Handles {
  import opened Collections
  import opened Words
  import opened Bitmaps
  import opened Disks
  import opened FileHeaders
  import opened OpenFiles
  import opened Directories
  import opened FileSystems

  // ------------------------------------------------------------- good handles

  /** A handle stays good when another file is created. */
  lemma CreateKeepsOpen(d: Image, d': Image, other: seq<byte>, size: nat, h: Header, name: seq<byte>)
    requires Ok(d) && CanCreate(d, other, size) && Created(d, d', other, size) && IsOpen(d, h, name)
    ensures IsOpen(d', h, name)
  {
    hide Grab, FreeMap, Dir, Partition, UniqueNames, Holdings, Key, EntriesAreFiles, IsFile, Created;
    var s0 := Grab(FreeMap(d), 1 + DivRoundUp(size)).0[0];
    AfterCreate(d, d', other, size);
    NewSector(d, other, size);
    AddedLookup(Dir(d), other, s0, name);
    KeysDiffer(Dir(d), name, other);
    var i := FindIndex(Dir(d), name, 0);
    CreateKeepsHeader(d, d', other, size, i);
    CreateKeeps(d, d', other, size);
    LookupPresent(d', name);
    LookupPresent(d, name);
  }

  lemma KeysDiffer(t: Table, name: seq<byte>, other: seq<byte>)
    requires Present(t, name) && !Present(t, other)
    ensures Key(name) != Key(other)
  {
    hide Key;
    var i := FindIndex(t, name, 0);
    assert !Matches(t[i], other);
  }

  lemma CreateKeepsHeader(d: Image, d': Image, other: seq<byte>, size: nat, i: nat)
    requires Ok(d) && CanCreate(d, other, size) && Created(d, d', other, size) && i < NumDirEntries && Live(Dir(d)[i])
    ensures SameHeader(d, d', Dir(d)[i].sector)
  {
    hide Grab, FreeMap, Dir, Partition, UniqueNames, Holdings, EntriesAreFiles;
    var s0 := Grab(FreeMap(d), 1 + DivRoundUp(size)).0[0];
    EntryHeld(d, i);
    NewSector(d, other, size);
    var s := Dir(d)[i].sector;
    assert s in Claims(d, s);
    FileApart(d, i, s);
    SameClaims(d, d', SystemData(d) + {s0}, s);
  }

  /** A handle stays good when another file is removed. */
  lemma RemoveKeepsOpen(d: Image, d': Image, other: seq<byte>, h: Header, name: seq<byte>)
    requires Ok(d) && Present(Dir(d), other) && IsFile(d, HeaderSector(d, other)) && RemovedFile(d, d', other)
    requires IsOpen(d, h, name) && Key(name) != Key(other)
    ensures IsOpen(d', h, name)
  {
    hide FreeMap, Dir, Partition, UniqueNames, Holdings, Key, EntriesAreFiles, IsFile, RemovedFile;
    AfterRemove(d, d', other);
    RemovedLookup(Dir(d), other, name);
    RemoveKeepsHeader(d, d', other, FindIndex(Dir(d), name, 0));
    RemoveKeeps(d, d', other);
    LookupPresent(d', name);
    LookupPresent(d, name);
  }

  lemma RemoveKeepsHeader(d: Image, d': Image, other: seq<byte>, i: nat)
    requires Ok(d) && Present(Dir(d), other) && IsFile(d, HeaderSector(d, other)) && RemovedFile(d, d', other)
    requires i < NumDirEntries && Live(Dir(d)[i])
    ensures SameHeader(d, d', Dir(d)[i].sector)
  {
    hide FreeMap, Dir, Partition, UniqueNames, Holdings, EntriesAreFiles;
    EntryHeld(d, i);
    var s := Dir(d)[i].sector;
    assert s in Claims(d, s);
    FileApart(d, i, s);
    SameClaims(d, d', SystemData(d), s);
  }

  /** Removing the file itself is what makes a handle stale. */
  lemma RemoveMakesStale(d: Image, d': Image, h: Header, name: seq<byte>)
    requires Ok(d) && Present(Dir(d), name) && IsFile(d, HeaderSector(d, name)) && RemovedFile(d, d', name)
    ensures !IsOpen(d', h, name)
  {
    hide FreeMap, Dir, Partition, UniqueNames, Holdings, Key, EntriesAreFiles, IsFile, RemovedFile;
    AfterRemove(d, d', name);
    RemovedLookup(Dir(d), name, name);
    RemoveKeeps(d, d', name);
    LookupPresent(d', name);
  }

  // ------------------------------------------------------------ stale handles

  /** File a is created and removed again; h is its header, kept by a handle. */
  predicate Stale(d: Image, d1: Image, d2: Image, a: seq<byte>, size: nat, h: Header)
    requires Formatted(d) && CanCreate(d, a, size)
  {
    && Created(d, d1, a, size) && Present(Dir(d1), a) && IsFile(d1, HeaderSector(d1, a))
    && RemovedFile(d1, d2, a) && h == HeaderAt(d1, HeaderSector(d1, a))
  }

  lemma StaleFacts(d: Image, d1: Image, d2: Image, a: seq<byte>, size: nat, h: Header)
    requires Ok(d) && CanCreate(d, a, size) && Stale(d, d1, d2, a, size, h)
    ensures Ok(d2) && FreeMap(d2) == FreeMap(d) && ValidHeader(h) && h.numBytes == size && NoDup(DataSectors(h))
    ensures DataSectors(h) == Grab(FreeMap(d), 1 + DivRoundUp(size)).0[1..]
  {
    hide Grab, FreeMap, Dir, Partition, UniqueNames, Holdings, Key, EntriesAreFiles, Decode, ValidHeader;
    RemoveUndoesCreate(d, d1, d2, a, size);
    MadeAt(d, d1, a, size);
  }

  /** Where Create puts the header of the new file, and which sectors it names. */
  lemma MadeAt(d: Image, d1: Image, a: seq<byte>, size: nat)
    requires Ok(d) && CanCreate(d, a, size) && Created(d, d1, a, size)
    ensures var s := Grab(FreeMap(d), 1 + DivRoundUp(size)).0;
      && HeaderSector(d1, a) == s[0] && IsFile(d1, s[0]) && Sectors(d1, s[0]) == s[1..]
      && HeaderAt(d1, s[0]).numBytes == size && s[0] !in s[1..] && NoDup(s[1..])
  {
    hide Grab, FreeMap, Dir, Partition, UniqueNames, Holdings, Key, EntriesAreFiles, IsFile;
    var s := Grab(FreeMap(d), 1 + DivRoundUp(size)).0;
    NewSector(d, a, size);
    AddedLookup(Dir(d), a, s[0], a);
    GrabAscends(FreeMap(d), 1 + DivRoundUp(size));
  }

  /** Contents depend on the length and the sectors in use only. */
  lemma SameView(e: Image, h: Header, k: Header)
    requires ValidImage(e) && ValidHeader(h) && ValidHeader(k)
    requires h.numBytes == k.numBytes && DataSectors(h) == DataSectors(k)
    ensures Contents(e, h) == Contents(e, k)
  {
    forall i | 0 <= i < h.numBytes ensures Contents(e, h)[i] == Contents(e, k)[i] {
      assert DataSectors(h)[i / SectorSize] == DataSectors(k)[i / SectorSize];
    }
  }

  /** If a file b of the same size is created next, it gets the same sectors: on every
      later disk, as long as b's header is there, the stale handle of a shows b. */
  lemma StaleAliases(d: Image, d1: Image, d2: Image, a: seq<byte>, size: nat, h: Header, b: seq<byte>, d3: Image,
    e: Image)
    requires Ok(d) && CanCreate(d, a, size) && Stale(d, d1, d2, a, size, h)
    requires Ok(d2) && CanCreate(d2, b, size) && Created(d2, d3, b, size)
    requires Formatted(d3) && SameHeader(d3, e, HeaderSector(d3, b))
    ensures ValidHeader(h) && FileAt(e, HeaderSector(d3, b)) == Contents(e, h)
  {
    hide Grab, FreeMap, Dir, Ok, Decode, ValidHeader, Contents, Created, CanCreate, Stale;
    StaleFacts(d, d1, d2, a, size, h);
    MadeAt(d2, d3, b, size);
    SameView(e, HeaderAt(e, HeaderSector(d3, b)), h);
  }

  /** So a write through it that changes what it shows changes b: the sectors of a
      stale handle may belong to another file. */
  lemma StaleWriteHitsOther(d: Image, d1: Image, d2: Image, a: seq<byte>, size: nat, h: Header, b: seq<byte>,
    d3: Image, d4: Image)
    requires Ok(d) && CanCreate(d, a, size) && Stale(d, d1, d2, a, size, h)
    requires Ok(d2) && CanCreate(d2, b, size) && Created(d2, d3, b, size)
    requires ValidHeader(h) && SameBut(d3, d4, Touched(DataSectors(h))) && Contents(d4, h) != Contents(d3, h)
    ensures Formatted(d3) && !SameFileAt(d3, d4, HeaderSector(d3, b))
    ensures forall s | s != HeaderSector(d3, b) :: !OthersSame(d3, d4, s)
  {
    hide Grab, FreeMap, Dir, Partition, UniqueNames, EntriesAreFiles, Holdings, Decode, ValidHeader, Contents,
      CanCreate, Stale, Key, DataSectors;
    StaleFacts(d, d1, d2, a, size, h);
    MadeAt(d2, d3, b, size);
    var t := HeaderSector(d3, b);
    SameClaims(d3, d4, Touched(DataSectors(h)), t);
    StaleAliases(d, d1, d2, a, size, h, b, d3, d3);
    StaleAliases(d, d1, d2, a, size, h, b, d3, d4);
    Listed(d2, d3, b, size);
  }

  lemma Listed(d: Image, d1: Image, b: seq<byte>, size: nat)
    requires Ok(d) && CanCreate(d, b, size) && Created(d, d1, b, size)
    ensures exists j | 0 <= j < NumDirEntries && Live(Dir(d1)[j]) :: Dir(d1)[j].sector == HeaderSector(d1, b)
  {
    hide Grab, FreeMap, Dir, Partition, UniqueNames, EntriesAreFiles, Holdings, Key;
    CreateKeeps(d, d1, b, size);
    LookupPresent(d1, b);
    MadeAt(d, d1, b, size);
    var j := FindIndex(Dir(d1), b, 0);
    assert Live(Dir(d1)[j]) && Dir(d1)[j].sector == HeaderSector(d1, b);
  }

  // ------------------------------------------- exactly when a write is harmless

  /** The disk with the first byte of a sector changed. */
  function Poke(d: Image, x: int, v: byte): (e: Image)
    requires ValidImage(d) && 0 <= x < NumSectors
    ensures SameBut(d, e, {x}) && e[x] == d[x][0 := v]
  {
    var b: seq<byte> := d[x][0 := v];
    d[x := b]
  }

  /** That is what a one-byte write leaves, through any handle that names the sector:
      the first byte of each data sector lies inside the file. */
  lemma PokeIsWrite(d: Image, h: Header, k: nat, v: byte)
    requires ValidImage(d) && ValidHeader(h) && NoDup(DataSectors(h)) && k < h.numSectors
    ensures WroteThrough(d, Poke(d, h.dataSectors[k], v), h, k * SectorSize, [v])
  {
    var x := h.dataSectors[k];
    var e := Poke(d, x, v);
    assert DataSectors(h)[k] == x;
    assert SameBut(d, e, Touched(DataSectors(h)));
    var want := Splice(Contents(d, h), k * SectorSize, [v]);
    forall i | 0 <= i < h.numBytes ensures Contents(e, h)[i] == want[i] {
      PokedByte(d, h, k, v, i);
    }
  }

  lemma PokedByte(d: Image, h: Header, k: nat, v: byte, i: nat)
    requires ValidImage(d) && ValidHeader(h) && NoDup(DataSectors(h)) && k < h.numSectors && i < h.numBytes
    ensures Contents(Poke(d, h.dataSectors[k], v), h)[i] == if i == k * SectorSize then v else Contents(d, h)[i]
  {
    var j := i / SectorSize;
    assert DataSectors(h)[j] == h.dataSectors[j] && DataSectors(h)[k] == h.dataSectors[k];
    assert j != k ==> h.dataSectors[j] != h.dataSectors[k];
  }

  /** A first byte that makes a header lie about the number of its sectors. */
  function Spoiler(b: byte): byte {
    if b == 0 then 1 else if b <= 128 then 200 else 0
  }

  function Spoiled(d: Image, x: int): Image
    requires ValidImage(d) && 0 <= x < NumSectors
  {
    Poke(d, x, Spoiler(d[x][0]))
  }

  lemma SpoiledHeader(b: seq<byte>)
    requires |b| == SectorSize && ValidHeader(FileHeaders.Decode(b))
    ensures !ValidHeader(FileHeaders.Decode(b[0 := Spoiler(b[0])]))
  {
    var c := b[0 := Spoiler(b[0])];
    assert IntAt(c, 1) == IntAt(b, 1);
    SpoiledLength(b[0], b[1], b[2], b[3]);
  }

  lemma SpoiledLength(b0: byte, b1: byte, b2: byte, b3: byte)
    ensures var was, now := Signed(LittleEndian(b0, b1, b2, b3)), Signed(LittleEndian(Spoiler(b0), b1, b2, b3));
      was >= 0 ==> now >= 0 && DivRoundUp(now) != DivRoundUp(was)
  {
    hide DivRoundUp;
    var m := b1 + 256 * b2 + 65536 * b3;
    assert LittleEndian(b0, b1, b2, b3) == b0 + 256 * m;
    assert LittleEndian(Spoiler(b0), b1, b2, b3) == Spoiler(b0) + 256 * m;
    if b3 < 128 { SpoiledSum(b0, m); }
  }

  lemma SpoiledSum(b0: byte, m: nat)
    ensures DivRoundUp(Spoiler(b0) + 256 * m) != DivRoundUp(b0 + 256 * m)
  {
    RoundUp(b0, m);
    RoundUp(Spoiler(b0), m);
  }

  lemma RoundUp(b: byte, m: nat)
    ensures DivRoundUp(b + 256 * m) == 2 * m + if b == 0 then 0 else if b <= 128 then 1 else 2
  {}

  /** One wrong byte in the header of a listed file breaks the file system. */
  lemma SpoilBreaks(d: Image, j: nat)
    requires Ok(d) && j < NumDirEntries && Live(Dir(d)[j]) && IsFile(d, Dir(d)[j].sector)
    ensures var x := Dir(d)[j].sector; var e := Spoiled(d, x); !IsFile(e, x) && !Ok(e)
  {
    hide FreeMap, Partition, UniqueNames, Holdings, Decode, DecodeTable, Spoiler;
    var x := Dir(d)[j].sector;
    var e := Spoiled(d, x);
    SpoiledHeader(d[x]);
    assert x in Claims(d, x);
    FileApart(d, j, x);
    forall y | y in Claims(d, DirectorySector) ensures y != x {
      assert y != DirectorySector ==> y in SystemData(d);
    }
    SameFile(d, e, {x as int}, DirectorySector);
    SameClaims(d, e, {x as int}, FreeMapSector);
    assert Dir(e)[j] == Dir(d)[j] && !IsFile(e, x);
  }

  lemma SpoilThrough(d: Image, h: Header, k: nat, j: nat)
    requires Ok(d) && ValidHeader(h) && NoDup(DataSectors(h)) && k < |DataSectors(h)|
    requires j < NumDirEntries && Live(Dir(d)[j]) && Dir(d)[j].sector == DataSectors(h)[k]
    ensures exists e, v :: WroteThrough(d, e, h, k * SectorSize, [v]) && !Ok(e)
  {
    hide FreeMap, Dir, Partition, UniqueNames, Holdings, EntriesAreFiles, Decode, Spoiler, Contents, Splice;
    EntryHeld(d, j);
    SpoilBreaks(d, j);
    PokeIsWrite(d, h, k, Spoiler(d[Dir(d)[j].sector][0]));
  }

  /** Changes outside the system's sectors are harmless, whatever they are, exactly if
      they hit no listed header. */
  lemma ChangesSafe(d: Image, changed: set<int>)
    requires Ok(d) && changed !! System(d)
    ensures (forall e | SameBut(d, e, changed) :: Ok(e)) <==> HitsNoHeader(d, changed)
  {
    hide FreeMap, Dir, Partition, UniqueNames, Holdings, EntriesAreFiles, System, Decode, ValidHeader, Spoiler;
    if HitsNoHeader(d, changed) {
      forall e | SameBut(d, e, changed) ensures Ok(e) { DataOnly(d, e, changed); }
    } else {
      var j :| 0 <= j < NumDirEntries && Live(Dir(d)[j]) && Dir(d)[j].sector in changed;
      EntryHeld(d, j);
      SpoilBreaks(d, j);
      var x := Dir(d)[j].sector;
      assert SameBut(d, Spoiled(d, x), changed);
    }
  }

  /** A handle is safe exactly if no listed header is among its sectors: otherwise a
      write of one byte through it breaks the file system. */
  lemma WritesSafe(d: Image, h: Header)
    requires Ok(d) && HandleOk(d, h)
    ensures (forall e, position, data | WroteThrough(d, e, h, position, data) :: Ok(e)) <==>
      HitsNoHeader(d, Touched(DataSectors(h)))
  {
    hide FreeMap, Dir, Partition, UniqueNames, Holdings, EntriesAreFiles, System, Decode, Spoiler, Contents, Splice;
    var changed := Touched(DataSectors(h));
    ChangesSafe(d, changed);
    if !HitsNoHeader(d, changed) {
      var j :| 0 <= j < NumDirEntries && Live(Dir(d)[j]) && Dir(d)[j].sector in changed;
      var k :| 0 <= k < h.numSectors && DataSectors(h)[k] == Dir(d)[j].sector;
      SpoilThrough(d, h, k, j);
    }
  }

  predicate Misses(s: seq<int>, changed: set<int>) { forall x | x in s :: x !in changed }

  /** No sector of a listed file, but the one whose header is in sector s, is among
      the given ones. */
  ghost predicate MissesOthers(d: Image, changed: set<int>, s: int)
    requires Formatted(d) && EntriesAreFiles(d)
  {
    forall j | 0 <= j < NumDirEntries && Live(Dir(d)[j]) && Dir(d)[j].sector != s ::
      Misses(Claims(d, Dir(d)[j].sector), changed)
  }

  /** Any sector of a file shows: change its first byte and the file is not the same. */
  lemma PokeShows(d: Image, j: nat, x: int)
    requires Ok(d) && j < NumDirEntries && Live(Dir(d)[j]) && IsFile(d, Dir(d)[j].sector)
    requires x in Claims(d, Dir(d)[j].sector)
    ensures 0 <= x < NumSectors && !SameFileAt(d, Spoiled(d, x), Dir(d)[j].sector)
  {
    hide FreeMap, Dir, Partition, UniqueNames, Holdings, EntriesAreFiles, Decode, Contents;
    var t := Dir(d)[j].sector;
    FileApart(d, j, x);
    if x == t {
      SpoilBreaks(d, j);
    } else {
      var h := HeaderAt(d, t);
      var k :| 0 <= k < h.numSectors && DataSectors(h)[k] == x;
      var e := Spoiled(d, x);
      SameClaims(d, e, {x}, t);
      FirstByte(d, h, k);
      FirstByte(e, h, k);
    }
  }

  lemma FirstByte(d: Image, h: Header, k: nat)
    requires ValidImage(d) && ValidHeader(h) && k < h.numSectors
    ensures k * SectorSize < h.numBytes && Contents(d, h)[k * SectorSize] == d[h.dataSectors[k]][0]
  {}

  /** Changes leave the other files alone, whatever they are, exactly if they miss
      every sector of those, header or data. */
  lemma ChangesKeepOthers(d: Image, changed: set<int>, s: int)
    requires Ok(d)
    ensures (forall e | SameBut(d, e, changed) :: OthersSame(d, e, s)) <==> MissesOthers(d, changed, s)
  {
    hide FreeMap, Dir, Partition, UniqueNames, Holdings, IsFile, FileAt, Claims, Spoiler;
    if MissesOthers(d, changed, s) {
      forall e | SameBut(d, e, changed) ensures OthersSame(d, e, s) { OthersMissed(d, e, changed, s); }
    } else {
      var j :| 0 <= j < NumDirEntries && Live(Dir(d)[j]) && Dir(d)[j].sector != s
        && !Misses(Claims(d, Dir(d)[j].sector), changed);
      var x :| x in Claims(d, Dir(d)[j].sector) && x in changed;
      EntryHeld(d, j);
      PokeShows(d, j, x);
      assert SameBut(d, Spoiled(d, x), changed);
    }
  }

  lemma OthersMissed(d: Image, e: Image, changed: set<int>, s: int)
    requires Ok(d) && SameBut(d, e, changed) && MissesOthers(d, changed, s)
    ensures OthersSame(d, e, s)
  {
    hide FreeMap, Dir, Partition, UniqueNames, Holdings, IsFile, FileAt, Claims;
    forall j | 0 <= j < NumDirEntries && Live(Dir(d)[j]) && Dir(d)[j].sector != s
      ensures SameFileAt(d, e, Dir(d)[j].sector)
    {
      SameFile(d, e, changed, Dir(d)[j].sector);
    }
  }

  /** A handle leaves the other files alone exactly if it names no sector of theirs:
      otherwise a write of one byte through it changes one of them. */
  lemma WritesKeepOthers(d: Image, h: Header, s: int)
    requires Ok(d) && ValidHeader(h) && NoDup(DataSectors(h))
    ensures (forall e, position, data | WroteThrough(d, e, h, position, data) :: OthersSame(d, e, s)) <==>
      MissesOthers(d, Touched(DataSectors(h)), s)
  {
    hide FreeMap, Dir, Partition, UniqueNames, Holdings, IsFile, FileAt, Claims, Spoiler, OthersSame, Contents, Splice;
    var changed := Touched(DataSectors(h));
    ChangesKeepOthers(d, changed, s);
    if !MissesOthers(d, changed, s) {
      var j :| 0 <= j < NumDirEntries && Live(Dir(d)[j]) && Dir(d)[j].sector != s
        && !Misses(Claims(d, Dir(d)[j].sector), changed);
      var x :| x in Claims(d, Dir(d)[j].sector) && x in changed;
      var k :| 0 <= k < h.numSectors && DataSectors(h)[k] == x;
      EntryHeld(d, j);
      PokeShows(d, j, x);
      PokeIsWrite(d, h, k, Spoiler(d[x][0]));
      NotAllSame(d, Spoiled(d, x), s, j);
    }
  }

  lemma NotAllSame(d: Image, e: Image, s: int, j: nat)
    requires Formatted(d) && j < NumDirEntries && Live(Dir(d)[j]) && Dir(d)[j].sector != s
    requires !SameFileAt(d, e, Dir(d)[j].sector)
    ensures !OthersSame(d, e, s)
  {}

  // ------------------------------------------- a stale handle over a header

  /** If, instead, two files b and c are created, b empty, then c's header lies in the
      first data sector of the stale handle, and a write of one byte at the start of
      it breaks the file system. */
  lemma StaleHitsHeader(d: Image, d1: Image, d2: Image, a: seq<byte>, size: nat, h: Header,
                        b: seq<byte>, d3: Image, c: seq<byte>, m: nat, d4: Image)
    requires Ok(d) && 0 < size && CanCreate(d, a, size) && Stale(d, d1, d2, a, size, h)
    requires Ok(d2) && CanCreate(d2, b, 0) && Created(d2, d3, b, 0)
    requires Ok(d3) && CanCreate(d3, c, m) && Created(d3, d4, c, m)
    ensures ValidHeader(h) && DataSectors(h) != [] && Formatted(d4) && HeaderSector(d4, c) == DataSectors(h)[0]
    ensures exists e, v :: WroteThrough(d4, e, h, 0, [v]) && !Ok(e)
  {
    hide Grab, FreeMap, Dir, Partition, UniqueNames, EntriesAreFiles, Holdings, Decode, ValidHeader, Stale, Key,
      Present, Full, Spoiler, Contents, Splice;
    StaleFacts(d, d1, d2, a, size, h);
    AfterCreate(d2, d3, b, 0);
    NextFree(FreeMap(d), DivRoundUp(size), DivRoundUp(m), FreeMap(d3));
    MadeAt(d3, d4, c, m);
    CreateKeeps(d3, d4, c, m);
    Listed(d3, d4, c, m);
    var j :| 0 <= j < NumDirEntries && Live(Dir(d4)[j]) && Dir(d4)[j].sector == HeaderSector(d4, c);
    EntryHeld(d4, j);
    assert DataSectors(h)[0] == Dir(d4)[j].sector;
    SpoilThrough(d4, h, 0, j);
  }

  /** The second sector taken by one allocation is the first taken after the first. */
  lemma NextFree(bits: seq<bool>, n: nat, m: nat, after: seq<bool>)
    requires 0 < n && 1 + n <= NumClear(bits) && after == Grab(bits, 1).1 && 1 + m <= NumClear(after)
    ensures Grab(after, 1 + m).0[0] == Grab(bits, 1 + n).0[1]
  {
    hide Grab, FirstClear, NumClear;
    GrabStep(bits, 1);
    GrabStep(bits, 1 + n);
    var k := FirstClear(bits, 0);
    GrabNone(bits[k := true]);
    GrabStep(bits[k := true], n);
    GrabStep(after, 1 + m);
  }

  // ----------------------------------------------------------------------- runs

  /** In every state of every run, whatever became of the files: the next write through
      a handle keeps the file system in order, whatever is written, exactly if no
      listed header is among the handle's sectors then. */
  lemma RunExact(run: seq<State>, ops: seq<Op>, n: nat, h: Header)
    requires IsRun(run, ops) && n <= |ops| && h in run[n].handles
    requires forall i | 0 <= i < n :: Clear(run[i], ops[i])
    ensures Ok(run[n].disk) && HandleOk(run[n].disk, h)
    ensures (forall e, position, data | WroteThrough(run[n].disk, e, h, position, data) :: Ok(e)) <==>
      HitsNoHeader(run[n].disk, Touched(DataSectors(h)))
  {
    hide Ok, Step, Clear, HandleOk, HitsNoHeader, WroteThrough;
    RunKeeps(run, ops, n);
    WritesSafe(run[n].disk, h);
  }

  /** No file of the name was removed by operations i to n - 1. */
  ghost predicate NotRemoved(ops: seq<Op>, name: seq<byte>, i: nat, n: nat)
    requires i <= n <= |ops|
  {
    forall k | i <= k < n && ops[k].Remove? :: Key(ops[k].name) != Key(name)
  }

  /** A handle opened on a name is still that name's, as long as the name has not been
      removed. */
  lemma StepKeepsOpen(s: State, s': State, op: Op, h: Header, name: seq<byte>)
    requires StateOk(s) && Step(s, s', op) && Clear(s, op) && IsOpen(s.disk, h, name)
    requires op.Remove? ==> Key(op.name) != Key(name)
    ensures IsOpen(s'.disk, h, name)
  {
    hide FreeMap, Dir, Partition, UniqueNames, Holdings, Key, EntriesAreFiles, Created, RemovedFile, CanCreate,
      Contents, Splice, HitsNoHeader, System, ValidHeader;
    match op
    case Create(other, size) =>
      if CanCreate(s.disk, other, size) { CreateKeepsOpen(s.disk, s'.disk, other, size, h, name); }
    case Remove(other) =>
      if Present(Dir(s.disk), other) && IsFile(s.disk, HeaderSector(s.disk, other)) {
        RemoveKeepsOpen(s.disk, s'.disk, other, h, name);
      }
    case Open(_) =>
    case Write(k, _, _) =>
      DataOnly(s.disk, s'.disk, Touched(DataSectors(k)));
      NamedEntry(s.disk, name);
  }

  lemma NamedEntry(d: Image, name: seq<byte>)
    requires Formatted(d) && Present(Dir(d), name)
    ensures exists j | 0 <= j < NumDirEntries && Live(Dir(d)[j]) :: Dir(d)[j].sector == HeaderSector(d, name)
  {
    hide Dir, Key;
    PresentIndex(Dir(d), name);
    var j := FindIndex(Dir(d), name, 0);
    assert Live(Dir(d)[j]) && Dir(d)[j].sector == HeaderSector(d, name);
  }

  lemma {:induction false} HandleStaysOpen(run: seq<State>, ops: seq<Op>, i: nat, n: nat, h: Header, name: seq<byte>)
    requires IsRun(run, ops) && i <= n <= |ops| && forall k | 0 <= k < n :: Clear(run[k], ops[k])
    requires IsOpen(run[i].disk, h, name) && NotRemoved(ops, name, i, n)
    ensures IsOpen(run[n].disk, h, name)
  {
    hide Step, Clear, IsOpen, HandleOk, Ok, Key;
    if i < n {
      HandleStaysOpen(run, ops, i, n - 1, h, name);
      RunKeeps(run, ops, n - 1);
      StepKeepsOpen(run[n - 1], run[n], ops[n - 1], h, name);
    }
  }

  /** The handle was opened on a name that has not been removed since. */
  ghost predicate Current(run: seq<State>, ops: seq<Op>, n: nat, h: Header)
    requires n <= |ops| && |run| == |ops| + 1
  {
    exists i: nat, name | i <= n && NotRemoved(ops, name, i, n) :: IsOpen(run[i].disk, h, name)
  }

  /** Programs that do not write through a handle once its name has been removed never
      break the file system. */
  lemma {:induction false} DisciplinedRun(run: seq<State>, ops: seq<Op>, n: nat)
    requires IsRun(run, ops) && n <= |ops|
    requires forall k | 0 <= k < n && ops[k].Write? :: Current(run, ops, k, ops[k].h)
    ensures StateOk(run[n]) && forall k | 0 <= k < n :: Clear(run[k], ops[k])
  {
    hide Step, Clear, IsOpen, HandleOk, Ok, NotRemoved;
    if n > 0 {
      DisciplinedRun(run, ops, n - 1);
      if ops[n - 1].Write? {
        var h := ops[n - 1].h;
        var i: nat, name :| i <= n - 1 && NotRemoved(ops, name, i, n - 1) && IsOpen(run[i].disk, h, name);
        HandleStaysOpen(run, ops, i, n - 1, h, name);
        OpenIsClear(run[n - 1], ops[n - 1], name);
      } else {
        OnlyWrites(run[n - 1], ops[n - 1]);
      }
      StepKeeps(run[n - 1], run[n], ops[n - 1]);
    }
  }

  /** The file of the name has the data at the position, and no other file changed. */
  ghost predicate WroteOnly(d: Image, d': Image, name: seq<byte>, position: nat, data: seq<byte>) {
    && Formatted(d)
    && var s := HeaderSector(d, name);
      && OthersSame(d, d', s) && IsFile(d, s) && IsFile(d', s)
      && if data == [] then FileAt(d', s) == FileAt(d, s)
         else position + |data| <= |FileAt(d, s)| && FileAt(d', s) == Splice(FileAt(d, s), position, data)
  }

  /** And each of their writes changes the file of the handle's name as asked, and no
      other listed file. */
  lemma DisciplinedWrite(run: seq<State>, ops: seq<Op>, n: nat) returns (name: seq<byte>)
    requires IsRun(run, ops) && n < |ops| && ops[n].Write?
    requires forall k | 0 <= k <= n && ops[k].Write? :: Current(run, ops, k, ops[k].h)
    ensures IsOpen(run[n].disk, ops[n].h, name)
    ensures WroteOnly(run[n].disk, run[n + 1].disk, name, ops[n].position, ops[n].data)
  {
    hide Step, Clear, IsOpen, HandleOk, Ok, NotRemoved, WroteOnly;
    DisciplinedRun(run, ops, n);
    var h := ops[n].h;
    var i: nat, x :| i <= n && NotRemoved(ops, x, i, n) && IsOpen(run[i].disk, h, x);
    HandleStaysOpen(run, ops, i, n, h, x);
    name := x;
    WroteNamed(run[n], run[n + 1], ops[n], name);
  }

  lemma WroteNamed(s: State, s': State, op: Op, name: seq<byte>)
    requires Ok(s.disk) && op.Write? && Step(s, s', op) && IsOpen(s.disk, op.h, name)
    ensures WroteOnly(s.disk, s'.disk, name, op.position, op.data)
  {
    hide Partition, Holdings, EntriesAreFiles, UniqueNames, Dir, FreeMap, Present, OthersSame, Contents, Splice,
      ValidHeader, Decode;
    WriteNamed(s.disk, s'.disk, name);
  }

  lemma OnlyWrites(s: State, op: Op)
    requires !op.Write?
    ensures Clear(s, op)
  {}

  lemma OpenIsClear(s: State, op: Op, name: seq<byte>)
    requires Ok(s.disk) && op.Write? && IsOpen(s.disk, op.h, name)
    ensures Clear(s, op)
  {
    hide Ok, Dir, HitsNoHeader;
    OpenedIsOk(s.disk, name);
  }
}
