/** The file system (filesys/filesys.cc): a free map and a directory that are
    themselves files on the disk they describe. */
module FileSystems {
  import opened Collections
  import opened Words
  import opened Bitmaps
  import opened Disks
  import opened FileHeaders
  import opened OpenFiles
  import PersistentBitmaps
  import opened Directories

  const FreeMapSector := 0
  const DirectorySector := 1
  const FreeMapFileSize := 128
  const NumDirEntries := 20
  const DirectoryFileSize := EntrySize * NumDirEntries

  // ------------------------------------------------------ what the disk holds

  function HeaderAt(d: Image, s: int): Header
    requires ValidImage(d) && 0 <= s < NumSectors
  {
    Decode(d[s])
  }

  predicate IsFile(d: Image, s: int) {
    ValidImage(d) && 0 <= s < NumSectors && ValidHeader(HeaderAt(d, s))
  }

  function Sectors(d: Image, s: int): seq<int>
    requires IsFile(d, s)
  {
    DataSectors(HeaderAt(d, s))
  }

  function FileAt(d: Image, s: int): seq<byte>
    requires IsFile(d, s)
  {
    Contents(d, HeaderAt(d, s))
  }

  /** The two system files, as their well-known headers describe them. */
  predicate Formatted(d: Image) {
    && IsFile(d, FreeMapSector) && HeaderAt(d, FreeMapSector).numBytes == FreeMapFileSize
    && IsFile(d, DirectorySector) && HeaderAt(d, DirectorySector).numBytes == DirectoryFileSize
  }

  function FreeMap(d: Image): (bits: seq<bool>)
    requires Formatted(d)
    ensures |bits| == NumSectors
  {
    PersistentBitmaps.MapBits(FileAt(d, FreeMapSector), NumSectors)
  }

  function Dir(d: Image): (t: Table)
    requires Formatted(d)
    ensures |t| == NumDirEntries
  {
    DecodeTable(FileAt(d, DirectorySector), NumDirEntries)
  }

  /** A file's header sector and data sectors. */
  function Claims(d: Image, s: int): seq<int>
    requires IsFile(d, s)
  {
    [s] + Sectors(d, s)
  }

  // ------------------------------------------------------------------ ownership

  const Owners := NumDirEntries + 2

  predicate EntriesAreFiles(d: Image)
    requires Formatted(d)
  {
    forall i | 0 <= i < NumDirEntries && Live(Dir(d)[i]) :: IsFile(d, Dir(d)[i].sector)
  }

  /** What each owner holds: the free map, the directory, and each entry's file. */
  function Holdings(d: Image): (g: seq<seq<int>>)
    requires Formatted(d) && EntriesAreFiles(d)
    ensures |g| == Owners
  {
    seq(Owners, i requires 0 <= i < Owners =>
      if i == 0 then Claims(d, FreeMapSector)
      else if i == 1 then Claims(d, DirectorySector)
      else if Live(Dir(d)[i - 2]) then Claims(d, Dir(d)[i - 2].sector) else [])
  }

  predicate Marked(s: seq<int>, bits: seq<bool>) { forall x | x in s :: 0 <= x < |bits| && bits[x] }

  predicate Disjoint(s: seq<int>, t: seq<int>) { forall x | x in s :: x !in t }

  /** The set bits are exactly the disjoint union of the holdings. */
  ghost predicate Partition(g: seq<seq<int>>, bits: seq<bool>) {
    && (forall i | 0 <= i < |g| :: NoDup(g[i]) && Marked(g[i], bits))
    && (forall i, j | 0 <= i < |g| && 0 <= j < |g| && i != j :: Disjoint(g[i], g[j]))
    && (forall s: int | 0 <= s < |bits| && bits[s] :: Owned(g, s))
  }

  ghost predicate Owned(g: seq<seq<int>>, s: int) { exists i | 0 <= i < |g| :: s in g[i] }

  /** What holds of the disk between operations. */
  ghost predicate Ok(d: Image) {
    && Formatted(d) && EntriesAreFiles(d) && UniqueNames(Dir(d))
    && Partition(Holdings(d), FreeMap(d))
  }

  lemma PartitionAdds(g: seq<seq<int>>, bits: seq<bool>, i: nat, more: seq<int>, bits': seq<bool>)
    requires Partition(g, bits) && i < |g| && g[i] == [] && NoDup(more) && |bits'| == |bits|
    requires forall x | x in more :: 0 <= x < |bits| && !bits[x]
    requires forall s: int | 0 <= s < |bits| :: bits'[s] == (bits[s] || s in more)
    ensures Partition(g[i := more], bits')
  {
    var g' := g[i := more];
    forall s: int | 0 <= s < |bits'| && bits'[s] ensures Owned(g', s) {
      if s in more {
        assert s in g'[i];
      } else {
        assert Owned(g, s);
        var j :| 0 <= j < |g| && s in g[j];
        assert s in g'[j];
      }
    }
    forall j, k | 0 <= j < |g'| && 0 <= k < |g'| && j != k ensures Disjoint(g'[j], g'[k]) {
      assert Disjoint(g[j], g[k]) && Marked(g[j], bits) && Marked(g[k], bits);
    }
    assert forall j | 0 <= j < |g| :: Marked(g[j], bits);
  }

  lemma PartitionRemoves(g: seq<seq<int>>, bits: seq<bool>, i: nat)
    requires Partition(g, bits) && i < |g|
    ensures Partition(g[i := []], Cleared(bits, g[i]))
  {
    var g', bits' := g[i := []], Cleared(bits, g[i]);
    forall s: int | 0 <= s < |bits'| && bits'[s] ensures Owned(g', s) {
      assert Owned(g, s);
      var j :| 0 <= j < |g| && s in g[j];
      assert s in g'[j];
    }
    forall j | 0 <= j < |g'| ensures Marked(g'[j], bits') {
      assert Marked(g[j], bits) && (j != i ==> Disjoint(g[j], g[i]));
    }
    forall j, k | 0 <= j < |g'| && 0 <= k < |g'| && j != k ensures Disjoint(g'[j], g'[k]) {
      assert Disjoint(g[j], g[k]);
    }
  }

  // ----------------------------------------------------------- frames of a file

  /** d' is d but for the sectors in s. */
  predicate SameBut(d: Image, d': Image, s: set<int>) {
    ValidImage(d) && ValidImage(d') && forall k | 0 <= k < NumSectors && k !in s :: d'[k] == d[k]
  }

  function Touched(s: seq<int>): set<int> { set x | x in s }

  /** A file none of whose sectors change is the same file. */
  lemma SameFile(d: Image, d': Image, changed: set<int>, s: int)
    requires SameBut(d, d', changed) && IsFile(d, s) && forall x | x in Claims(d, s) :: x !in changed
    ensures IsFile(d', s) && HeaderAt(d', s) == HeaderAt(d, s) && Claims(d', s) == Claims(d, s)
      && FileAt(d', s) == FileAt(d, s)
  {
    assert s in Claims(d, s);
    assert forall x | x in Sectors(d, s) :: x in Claims(d, s);
    var h := HeaderAt(d, s);
    forall k | 0 <= k < h.numBytes ensures Contents(d', h)[k] == Contents(d, h)[k] {
      var x := DataSectors(h)[k / SectorSize];
      assert x in DataSectors(h) && x in Claims(d, s);
    }
  }

  /** A file whose header sector does not change keeps its sectors. */
  lemma SameClaims(d: Image, d': Image, changed: set<int>, s: int)
    requires SameBut(d, d', changed) && IsFile(d, s) && s !in changed
    ensures IsFile(d', s) && HeaderAt(d', s) == HeaderAt(d, s) && Claims(d', s) == Claims(d, s)
  {}

  /** The data sectors of the two system files. */
  function SystemData(d: Image): set<int>
    requires Formatted(d)
  {
    Touched(Sectors(d, FreeMapSector)) + Touched(Sectors(d, DirectorySector))
  }

  lemma Held(d: Image)
    requires Ok(d)
    ensures Formatted(d) && EntriesAreFiles(d) && Partition(Holdings(d), FreeMap(d))
    ensures Holdings(d)[0] == Claims(d, FreeMapSector) && Holdings(d)[1] == Claims(d, DirectorySector)
  {
    hide FreeMap, Dir, Claims, Partition, UniqueNames;
  }

  lemma EntryHeld(d: Image, i: nat)
    requires Ok(d) && i < NumDirEntries && Live(Dir(d)[i])
    ensures IsFile(d, Dir(d)[i].sector) && Holdings(d)[i + 2] == Claims(d, Dir(d)[i].sector)
  {
    hide FreeMap, Dir, Claims, Partition, UniqueNames, IsFile;
  }

  lemma Parts(g: seq<seq<int>>, bits: seq<bool>, i: nat, j: nat)
    requires Partition(g, bits) && i < |g| && j < |g| && i != j
    ensures NoDup(g[i]) && Marked(g[i], bits) && Disjoint(g[i], g[j]) && Disjoint(g[j], g[i])
  {}

  lemma TailDistinct(s: seq<int>)
    requires NoDup(s) && s != []
    ensures NoDup(s[1..]) && s[0] !in s[1..] && s[0] in s && forall x | x in s[1..] :: x in s
  {}

  /** The system headers are not system data, and the two system files share no
      sector. */
  lemma SystemApart(d: Image)
    requires Ok(d)
    ensures FreeMapSector !in SystemData(d) && DirectorySector !in SystemData(d)
    ensures Touched(Sectors(d, FreeMapSector)) !! Touched(Sectors(d, DirectorySector))
    ensures NoDup(Sectors(d, FreeMapSector)) && NoDup(Sectors(d, DirectorySector))
    ensures FreeMap(d)[FreeMapSector] && FreeMap(d)[DirectorySector]
    ensures forall x | x in SystemData(d) :: 0 <= x < NumSectors && FreeMap(d)[x]
  {
    hide FreeMap, Dir, Holdings, Partition, UniqueNames, Sectors, IsFile, EntriesAreFiles, NoDup;
    Held(d);
    var g := Holdings(d);
    Parts(g, FreeMap(d), 0, 1);
    Parts(g, FreeMap(d), 1, 0);
    TailDistinct(g[0]);
    TailDistinct(g[1]);
    assert g[0][1..] == Sectors(d, FreeMapSector) && g[1][1..] == Sectors(d, DirectorySector);
  }

  /** A user's file has no sector in common with the system. */
  lemma FileApart(d: Image, i: nat, x: int)
    requires Ok(d) && i < NumDirEntries && Live(Dir(d)[i]) && x in Claims(d, Dir(d)[i].sector)
    ensures x !in SystemData(d) && x != FreeMapSector && x != DirectorySector
    ensures 0 <= x < NumSectors && FreeMap(d)[x]
  {
    hide FreeMap, Dir, Holdings, Partition, UniqueNames, Sectors, IsFile, EntriesAreFiles, NoDup;
    Held(d);
    EntryHeld(d, i);
    var g := Holdings(d);
    Parts(g, FreeMap(d), i + 2, 0);
    Parts(g, FreeMap(d), i + 2, 1);
    assert g[0][1..] == Sectors(d, FreeMapSector) && g[1][1..] == Sectors(d, DirectorySector);
    assert x !in g[0] && x !in g[1];
  }

  // --------------------------------------------------------------------- Create

  /** When Create succeeds. */
  predicate CanCreate(d: Image, name: seq<byte>, size: nat)
    requires Formatted(d)
  {
    !Present(Dir(d), name) && !Full(Dir(d)) && 1 + DivRoundUp(size) <= NumClear(FreeMap(d))
  }

  /** A successful Create: the lowest free sector for the header and the next ones
      for the data, all marked; the name in the first free entry; a header that
      says so; and nothing else but the system files' data touched. */
  predicate Created(d: Image, d': Image, name: seq<byte>, size: nat)
    requires Formatted(d) && CanCreate(d, name, size)
  {
    var (s, after) := Grab(FreeMap(d), 1 + DivRoundUp(size));
    && s[0] < NumSectors && SameBut(d, d', SystemData(d) + {s[0]})
    && Formatted(d') && Dir(d') == Added(Dir(d), name, s[0]) && FreeMap(d') == after
    && IsFile(d', s[0]) && HeaderAt(d', s[0]).numBytes == size && Sectors(d', s[0]) == s[1..]
  }

  lemma NewSector(d: Image, name: seq<byte>, size: nat)
    requires Ok(d) && CanCreate(d, name, size)
    ensures var s := Grab(FreeMap(d), 1 + DivRoundUp(size)).0;
      && s[0] < NumSectors && s[0] !in SystemData(d) && s[0] != FreeMapSector && s[0] != DirectorySector
      && (forall i | 0 <= i < NumDirEntries && Live(Dir(d)[i]) :: s[0] !in Claims(d, Dir(d)[i].sector))
  {
    hide Grab, FreeMap, Dir, Partition, UniqueNames, Holdings, Claims, IsFile;
    var s := Grab(FreeMap(d), 1 + DivRoundUp(size)).0;
    GrabSets(FreeMap(d), 1 + DivRoundUp(size));
    assert s[0] in s;
    SystemApart(d);
    forall i | 0 <= i < NumDirEntries && Live(Dir(d)[i]) ensures s[0] !in Claims(d, Dir(d)[i].sector) {
      EntryHeld(d, i);
      if s[0] in Claims(d, Dir(d)[i].sector) { FileApart(d, i, s[0]); }
    }
  }

  /** Every file there was is still there, untouched. */
  lemma CreateKeepsFiles(d: Image, d': Image, name: seq<byte>, size: nat, i: nat)
    requires Ok(d) && CanCreate(d, name, size) && Created(d, d', name, size)
    requires i < NumDirEntries && Live(Dir(d)[i])
    ensures var s := Dir(d)[i].sector;
      IsFile(d', s) && Claims(d', s) == Claims(d, s) && FileAt(d', s) == FileAt(d, s) && Dir(d')[i] == Dir(d)[i]
  {
    hide Grab, FreeMap, Dir, Partition, UniqueNames, FileAt, Claims;
    var s := Dir(d)[i].sector;
    var s0 := Grab(FreeMap(d), 1 + DivRoundUp(size)).0[0];
    NewSector(d, name, size);
    forall x | x in Claims(d, s) ensures x !in SystemData(d) + {s0} { FileApart(d, i, x); }
    SameFile(d, d', SystemData(d) + {s0}, s);
  }

  lemma EntryAfterCreate(d: Image, d': Image, name: seq<byte>, size: nat, j: nat)
    requires Ok(d) && CanCreate(d, name, size) && Created(d, d', name, size) && j < NumDirEntries
    ensures var s, k := Grab(FreeMap(d), 1 + DivRoundUp(size)).0, FreeSlot(Dir(d), 0);
      && Live(Dir(d')[j]) == (j == k || Live(Dir(d)[j]))
      && (Live(Dir(d')[j]) ==> IsFile(d', Dir(d')[j].sector))
      && (Live(Dir(d')[j]) ==> Claims(d', Dir(d')[j].sector) == if j == k then s else Claims(d, Dir(d)[j].sector))
  {
    hide Grab, FreeMap, Dir, Partition, UniqueNames, Holdings, IsFile, EntriesAreFiles, StrNCpy;
    var s, k := Grab(FreeMap(d), 1 + DivRoundUp(size)).0, FreeSlot(Dir(d), 0);
    if j == k {
      assert Claims(d', s[0]) == s;
    } else if Live(Dir(d)[j]) {
      CreateKeepsFiles(d, d', name, size, j);
    }
  }

  lemma HoldingsAfterCreate(d: Image, d': Image, name: seq<byte>, size: nat)
    requires Ok(d) && CanCreate(d, name, size) && Created(d, d', name, size)
    ensures EntriesAreFiles(d')
    ensures var s, k := Grab(FreeMap(d), 1 + DivRoundUp(size)).0, FreeSlot(Dir(d), 0);
      (forall x | x in s :: x < NumSectors) && Holdings(d)[k + 2] == [] && Holdings(d') == Holdings(d)[k + 2 := s]
  {
    hide Grab, FreeMap, Dir, Partition, UniqueNames, Claims, IsFile, StrNCpy, Created;
    var (s, after) := Grab(FreeMap(d), 1 + DivRoundUp(size));
    var k := FreeSlot(Dir(d), 0);
    GrabSets(FreeMap(d), 1 + DivRoundUp(size));
    AfterCreate(d, d', name, size);
    forall j | 0 <= j < NumDirEntries && Live(Dir(d')[j]) ensures IsFile(d', Dir(d')[j].sector) {
      EntryAfterCreate(d, d', name, size, j);
    }
    forall i | 0 <= i < Owners ensures Holdings(d')[i] == Holdings(d)[k + 2 := s][i] {
      if i >= 2 { EntryAfterCreate(d, d', name, size, i - 2); }
    }
  }

  lemma AfterCreate(d: Image, d': Image, name: seq<byte>, size: nat)
    requires Ok(d) && CanCreate(d, name, size) && Created(d, d', name, size)
    ensures Formatted(d') && Dir(d') == Added(Dir(d), name, Grab(FreeMap(d), 1 + DivRoundUp(size)).0[0])
    ensures FreeMap(d') == Grab(FreeMap(d), 1 + DivRoundUp(size)).1
    ensures Claims(d', FreeMapSector) == Claims(d, FreeMapSector)
      && Claims(d', DirectorySector) == Claims(d, DirectorySector)
  {
    hide Grab, FreeMap, Dir, Partition, UniqueNames, Holdings, EntriesAreFiles, StrNCpy, Claims;
    var s0 := Grab(FreeMap(d), 1 + DivRoundUp(size)).0[0];
    NewSector(d, name, size);
    SystemApart(d);
    SameClaims(d, d', SystemData(d) + {s0}, FreeMapSector);
    SameClaims(d, d', SystemData(d) + {s0}, DirectorySector);
  }

  /** Create keeps the file system in order. */
  lemma CreateKeeps(d: Image, d': Image, name: seq<byte>, size: nat)
    requires Ok(d) && CanCreate(d, name, size) && Created(d, d', name, size)
    ensures Ok(d')
  {
    hide Grab, FreeMap, Dir, Partition, Holdings, EntriesAreFiles, Created, UniqueNames, IsFile;
    var (s, after) := Grab(FreeMap(d), 1 + DivRoundUp(size));
    AfterCreate(d, d', name, size);
    HoldingsAfterCreate(d, d', name, size);
    assert s[0] in s;
    AddKeepsUnique(Dir(d), name, s[0]);
    GrabSets(FreeMap(d), 1 + DivRoundUp(size));
    GrabAscends(FreeMap(d), 1 + DivRoundUp(size));
    PartitionAdds(Holdings(d), FreeMap(d), FreeSlot(Dir(d), 0) + 2, s, after);
  }

  // --------------------------------------------------------------------- Remove

  function HeaderSector(d: Image, name: seq<byte>): int
    requires Formatted(d)
  {
    Lookup(Dir(d), name)
  }

  /** A successful Remove: the file's sectors cleared, its entry freed, and nothing
      but the system files' data touched. */
  predicate RemovedFile(d: Image, d': Image, name: seq<byte>)
    requires Formatted(d) && Present(Dir(d), name) && IsFile(d, HeaderSector(d, name))
  {
    && SameBut(d, d', SystemData(d)) && Formatted(d')
    && Dir(d') == Removed(Dir(d), name)
    && FreeMap(d') == Cleared(FreeMap(d), Claims(d, HeaderSector(d, name)))
  }

  lemma PresentIsFile(d: Image, name: seq<byte>)
    requires Ok(d) && Present(Dir(d), name)
    ensures IsFile(d, HeaderSector(d, name))
    ensures Holdings(d)[FindIndex(Dir(d), name, 0) + 2] == Claims(d, HeaderSector(d, name))
  {
    hide FreeMap, Dir, Claims, Partition, UniqueNames, IsFile, EntriesAreFiles, Holdings, Key;
    EntryHeld(d, FindIndex(Dir(d), name, 0));
  }

  /** Every file that stays is untouched. */
  lemma RemoveKeepsFiles(d: Image, d': Image, name: seq<byte>, i: nat)
    requires Ok(d) && Present(Dir(d), name) && IsFile(d, HeaderSector(d, name)) && RemovedFile(d, d', name)
    requires i < NumDirEntries && Live(Dir(d)[i])
    ensures var s := Dir(d)[i].sector;
      IsFile(d', s) && Claims(d', s) == Claims(d, s) && FileAt(d', s) == FileAt(d, s)
  {
    hide FreeMap, Dir, Partition, UniqueNames, FileAt, Claims, Holdings;
    var s := Dir(d)[i].sector;
    forall x | x in Claims(d, s) ensures x !in SystemData(d) { FileApart(d, i, x); }
    SameFile(d, d', SystemData(d), s);
  }

  lemma HoldingsAfterRemove(d: Image, d': Image, name: seq<byte>)
    requires Ok(d) && Present(Dir(d), name) && IsFile(d, HeaderSector(d, name)) && RemovedFile(d, d', name)
    ensures EntriesAreFiles(d')
    ensures Holdings(d') == Holdings(d)[FindIndex(Dir(d), name, 0) + 2 := []]
  {
    hide FreeMap, Dir, Partition, UniqueNames, Claims, IsFile, Key;
    var k := FindIndex(Dir(d), name, 0);
    SystemApart(d);
    SameClaims(d, d', SystemData(d), FreeMapSector);
    SameClaims(d, d', SystemData(d), DirectorySector);
    forall j | 0 <= j < NumDirEntries && Live(Dir(d')[j]) ensures IsFile(d', Dir(d')[j].sector) {
      RemoveKeepsFiles(d, d', name, j);
    }
    forall i | 0 <= i < Owners ensures Holdings(d')[i] == Holdings(d)[k + 2 := []][i] {
      if i >= 2 && i != k + 2 && Live(Dir(d)[i - 2]) { RemoveKeepsFiles(d, d', name, i - 2); }
    }
  }

  /** Remove keeps the file system in order. */
  lemma RemoveKeeps(d: Image, d': Image, name: seq<byte>)
    requires Ok(d) && Present(Dir(d), name) && IsFile(d, HeaderSector(d, name)) && RemovedFile(d, d', name)
    ensures Ok(d')
  {
    hide FreeMap, Dir, Partition, UniqueNames, Claims, IsFile, Key, Holdings, EntriesAreFiles, Cleared;
    HoldingsAfterRemove(d, d', name);
    PresentIsFile(d, name);
    RemoveKeepsUnique(Dir(d), name);
    PartitionRemoves(Holdings(d), FreeMap(d), FindIndex(Dir(d), name, 0) + 2);
  }

  // ---------------------------------------------------------------------- Write

  /** A write to a file: only its data sectors change. */
  predicate WroteFile(d: Image, d': Image, s: int)
    requires IsFile(d, s)
  {
    SameBut(d, d', Touched(Sectors(d, s)))
  }

  /** A handle with header h is open on the file of that name. */
  predicate IsOpen(d: Image, h: Header, name: seq<byte>) {
    && Formatted(d) && Present(Dir(d), name)
    && IsFile(d, HeaderSector(d, name)) && h == HeaderAt(d, HeaderSector(d, name))
  }

  predicate SameHeader(d: Image, d': Image, s: int) {
    IsFile(d, s) && IsFile(d', s) && HeaderAt(d', s) == HeaderAt(d, s)
  }

  /** The sectors of the two system files, headers and data. */
  function System(d: Image): set<int>
    requires Formatted(d)
  {
    {FreeMapSector, DirectorySector} + SystemData(d)
  }

  /** None of the sectors is the header of a listed file. */
  ghost predicate HitsNoHeader(d: Image, changed: set<int>)
    requires Formatted(d)
  {
    forall i | 0 <= i < NumDirEntries && Live(Dir(d)[i]) :: Dir(d)[i].sector !in changed
  }

  /** None of the sectors is a header or holds system data. */
  ghost predicate NoMetadata(d: Image, changed: set<int>)
    requires Formatted(d)
  {
    changed !! System(d) && HitsNoHeader(d, changed)
  }

  /** A write that hits no header and no system data, through whatever handle, keeps
      the file system in order. */
  lemma DataOnly(d: Image, d': Image, changed: set<int>)
    requires Ok(d) && SameBut(d, d', changed) && NoMetadata(d, changed)
    ensures Ok(d') && FreeMap(d') == FreeMap(d) && Dir(d') == Dir(d) && Holdings(d') == Holdings(d)
    ensures SameHeader(d, d', FreeMapSector) && SameHeader(d, d', DirectorySector)
    ensures forall j | 0 <= j < NumDirEntries && Live(Dir(d)[j]) :: SameHeader(d, d', Dir(d)[j].sector)
  {
    hide FreeMap, Dir, Partition, UniqueNames, Claims, IsFile, FileAt, SystemData;
    SystemUntouched(d, d', changed);
    forall j | 0 <= j < NumDirEntries && Live(Dir(d)[j])
      ensures SameHeader(d, d', Dir(d)[j].sector) && Claims(d', Dir(d)[j].sector) == Claims(d, Dir(d)[j].sector)
    {
      EntryHeld(d, j);
      SameClaims(d, d', changed, Dir(d)[j].sector);
    }
    assert Holdings(d') == Holdings(d);
  }

  lemma SystemUntouched(d: Image, d': Image, changed: set<int>)
    requires Formatted(d) && SameBut(d, d', changed) && NoMetadata(d, changed)
    ensures Formatted(d') && FreeMap(d') == FreeMap(d) && Dir(d') == Dir(d)
    ensures SameHeader(d, d', FreeMapSector) && SameHeader(d, d', DirectorySector)
    ensures Claims(d', FreeMapSector) == Claims(d, FreeMapSector)
    ensures Claims(d', DirectorySector) == Claims(d, DirectorySector)
  {
    hide HitsNoHeader, FileAt, DecodeTable, PersistentBitmaps.MapBits, Decode;
    forall x | x in Claims(d, FreeMapSector) ensures x !in changed {
      assert x != FreeMapSector ==> x in SystemData(d);
    }
    forall x | x in Claims(d, DirectorySector) ensures x !in changed {
      assert x != DirectorySector ==> x in SystemData(d);
    }
    SameFile(d, d', changed, FreeMapSector);
    SameFile(d, d', changed, DirectorySector);
  }

  /** A listed file's data sectors are no metadata, and no other file's. */
  lemma OwnData(d: Image, i: nat)
    requires Ok(d) && i < NumDirEntries && Live(Dir(d)[i]) && IsFile(d, Dir(d)[i].sector)
    ensures NoMetadata(d, Touched(Sectors(d, Dir(d)[i].sector)))
    ensures forall j | 0 <= j < NumDirEntries && j != i && Live(Dir(d)[j]) ::
      IsFile(d, Dir(d)[j].sector) && Disjoint(Claims(d, Dir(d)[j].sector), Sectors(d, Dir(d)[i].sector))
  {
    hide FreeMap, Dir, Partition, UniqueNames, Holdings, EntriesAreFiles, IsFile, SystemData;
    var s := Dir(d)[i].sector;
    forall x | x in Sectors(d, s) ensures x !in SystemData(d) && x != FreeMapSector && x != DirectorySector {
      FileApart(d, i, x);
    }
    forall j | 0 <= j < NumDirEntries && Live(Dir(d)[j])
      ensures IsFile(d, Dir(d)[j].sector) && Dir(d)[j].sector !in Sectors(d, s)
      ensures j != i ==> Disjoint(Claims(d, Dir(d)[j].sector), Sectors(d, s))
    {
      PairApart(d, i, j);
    }
  }

  lemma PairApart(d: Image, i: nat, j: nat)
    requires Ok(d) && i < NumDirEntries && Live(Dir(d)[i]) && IsFile(d, Dir(d)[i].sector)
    requires j < NumDirEntries && Live(Dir(d)[j])
    ensures IsFile(d, Dir(d)[j].sector) && Dir(d)[j].sector !in Sectors(d, Dir(d)[i].sector)
    ensures j != i ==> Disjoint(Claims(d, Dir(d)[j].sector), Sectors(d, Dir(d)[i].sector))
  {
    hide FreeMap, Dir, Partition, UniqueNames, Holdings, EntriesAreFiles, IsFile, Sectors;
    var s, t := Dir(d)[i].sector, Dir(d)[j].sector;
    Held(d);
    EntryHeld(d, i);
    EntryHeld(d, j);
    var g := Holdings(d);
    Parts(g, FreeMap(d), i + 2, 0);
    TailDistinct(g[i + 2]);
    assert g[i + 2][1..] == Sectors(d, s) && g[j + 2][0] == t;
    if j != i { Parts(g, FreeMap(d), j + 2, i + 2); }
  }

  /** Writing one file changes no other file, no header, not the free map and not
      the directory. */
  lemma WriteKeeps(d: Image, d': Image, i: nat)
    requires Ok(d) && i < NumDirEntries && Live(Dir(d)[i]) && IsFile(d, Dir(d)[i].sector)
    requires WroteFile(d, d', Dir(d)[i].sector)
    ensures Ok(d') && FreeMap(d') == FreeMap(d) && Dir(d') == Dir(d) && Holdings(d') == Holdings(d)
    ensures SameHeader(d, d', FreeMapSector) && SameHeader(d, d', DirectorySector)
    ensures forall j | 0 <= j < NumDirEntries && Live(Dir(d)[j]) ::
      var s := Dir(d)[j].sector;
      SameHeader(d, d', s) && (j != i ==> FileAt(d', s) == FileAt(d, s))
  {
    hide FreeMap, Dir, Partition, UniqueNames, EntriesAreFiles, Claims, IsFile, FileAt, Sectors, Holdings, NoMetadata;
    var changed := Touched(Sectors(d, Dir(d)[i].sector));
    OwnData(d, i);
    DataOnly(d, d', changed);
    forall j | 0 <= j < NumDirEntries && Live(Dir(d)[j]) && j != i
      ensures FileAt(d', Dir(d)[j].sector) == FileAt(d, Dir(d)[j].sector)
    {
      SameFile(d, d', changed, Dir(d)[j].sector);
    }
  }

  // ----------------------------------------------------------------------- runs

  /** Remove undoes Create: the free sectors, every lookup and every other file are
      as before the file was made. */
  lemma RemoveUndoesCreate(d: Image, d1: Image, d2: Image, name: seq<byte>, size: nat)
    requires Ok(d) && CanCreate(d, name, size) && Created(d, d1, name, size)
    ensures Ok(d1) && Present(Dir(d1), name) && IsFile(d1, HeaderSector(d1, name))
    ensures RemovedFile(d1, d2, name) ==>
      && Ok(d2) && FreeMap(d2) == FreeMap(d)
      && (forall other :: Lookup(Dir(d2), other) == Lookup(Dir(d), other))
      && forall i | 0 <= i < NumDirEntries && Live(Dir(d)[i]) :: SameFileAt(d, d2, Dir(d)[i].sector)
  {
    hide Grab, FreeMap, Dir, Partition, UniqueNames, Holdings, IsFile, Key, EntriesAreFiles, Created, RemovedFile;
    var (s, after) := Grab(FreeMap(d), 1 + DivRoundUp(size));
    CreateKeeps(d, d1, name, size);
    AfterCreate(d, d1, name, size);
    NewSector(d, name, size);
    AddedLookup(Dir(d), name, s[0], name);
    PresentIsFile(d1, name);
    if RemovedFile(d1, d2, name) {
      RemoveKeeps(d1, d2, name);
      BitsRestored(d, d1, d2, name, size);
      AfterRemove(d1, d2, name);
      forall other ensures Lookup(Dir(d2), other) == Lookup(Dir(d), other) {
        AddedLookup(Dir(d), name, s[0], other);
        RemovedLookup(Dir(d1), name, other);
        if Key(other) == Key(name) { SameKeyAbsent(Dir(d), name, other); }
      }
      forall i | 0 <= i < NumDirEntries && Live(Dir(d)[i]) ensures SameFileAt(d, d2, Dir(d)[i].sector) {
        FileSurvives(d, d1, d2, name, size, i);
      }
    }
  }

  predicate SameFileAt(d: Image, d': Image, s: int) {
    IsFile(d, s) && IsFile(d', s) && FileAt(d', s) == FileAt(d, s)
  }

  lemma FileSurvives(d: Image, d1: Image, d2: Image, name: seq<byte>, size: nat, i: nat)
    requires Ok(d) && CanCreate(d, name, size) && Created(d, d1, name, size)
    requires Ok(d1) && Present(Dir(d1), name) && IsFile(d1, HeaderSector(d1, name)) && RemovedFile(d1, d2, name)
    requires i < NumDirEntries && Live(Dir(d)[i])
    ensures SameFileAt(d, d2, Dir(d)[i].sector)
  {
    hide Grab, FreeMap, Dir, Partition, UniqueNames, Holdings, Key, EntriesAreFiles, Created, RemovedFile, FileAt;
    CreateKeepsFiles(d, d1, name, size, i);
    EntryHeld(d, i);
    RemoveKeepsFiles(d1, d2, name, i);
  }

  lemma AfterRemove(d: Image, d': Image, name: seq<byte>)
    requires Ok(d) && Present(Dir(d), name) && IsFile(d, HeaderSector(d, name)) && RemovedFile(d, d', name)
    ensures Formatted(d') && Dir(d') == Removed(Dir(d), name)
  {}

  lemma SameKeyAbsent(t: Table, name: seq<byte>, other: seq<byte>)
    requires !Present(t, name) && Key(other) == Key(name)
    ensures Lookup(t, other) == -1
  {
    hide Key;
    assert forall j | 0 <= j < |t| :: !Matches(t[j], name);
  }

  lemma BitsRestored(d: Image, d1: Image, d2: Image, name: seq<byte>, size: nat)
    requires Ok(d) && CanCreate(d, name, size) && Created(d, d1, name, size)
    requires Ok(d1) && Present(Dir(d1), name) && IsFile(d1, HeaderSector(d1, name)) && RemovedFile(d1, d2, name)
    ensures Formatted(d2) && FreeMap(d2) == FreeMap(d)
  {
    hide Grab, FreeMap, Dir, Partition, UniqueNames, Holdings, Key, EntriesAreFiles, IsFile, Sectors;
    var (s, after) := Grab(FreeMap(d), 1 + DivRoundUp(size));
    GrabSets(FreeMap(d), 1 + DivRoundUp(size));
    NewSector(d, name, size);
    AddedLookup(Dir(d), name, s[0], name);
    assert HeaderSector(d1, name) == s[0];
    assert Claims(d1, s[0]) == s;
    assert FreeMap(d2) == Cleared(after, s);
  }

  /** What a write through a handle may leave: the file that its header describes has
      the data at the position, and no sector outside that file is changed.  Past the
      end of the file its last sector may hold anything. */
  predicate WroteThrough(d: Image, d': Image, h: Header, position: nat, data: seq<byte>) {
    && ValidHeader(h) && SameBut(d, d', Touched(DataSectors(h)))
    && if data == [] then d' == d
       else position + |data| <= h.numBytes && Contents(d', h) == Splice(Contents(d, h), position, data)
  }

  /** The header that a handle keeps is well formed and names no system sector.  It
      need not be the header of a listed file any more. */
  ghost predicate HandleOk(d: Image, h: Header) {
    Formatted(d) && ValidHeader(h) && NoDup(DataSectors(h)) && Touched(DataSectors(h)) !! System(d)
  }

  /** The disk, and the header in every handle that was ever opened. */
  datatype State = State(disk: Image, handles: set<Header>)

  ghost predicate StateOk(s: State) {
    Ok(s.disk) && forall h | h in s.handles :: HandleOk(s.disk, h)
  }

  datatype Op =
    | Create(name: seq<byte>, size: nat)
    | Remove(name: seq<byte>)
    | Open(name: seq<byte>)
    | Write(h: Header, position: nat, data: seq<byte>)

  /** What one operation may do.  A write goes through any handle there is, whether
      or not its file has been removed. */
  ghost predicate Step(s: State, s': State, op: Op)
    requires Formatted(s.disk) && EntriesAreFiles(s.disk)
  {
    var d, d' := s.disk, s'.disk;
    match op
    case Create(name, size) =>
      && s'.handles == s.handles && size <= MaxFileSize
      && if CanCreate(d, name, size) then Created(d, d', name, size) else d' == d
    case Remove(name) =>
      && s'.handles == s.handles
      && if Present(Dir(d), name) && IsFile(d, HeaderSector(d, name)) then RemovedFile(d, d', name) else d' == d
    case Open(name) =>
      && d' == d
      && if Present(Dir(d), name) && IsFile(d, HeaderSector(d, name))
         then s'.handles == s.handles + {HeaderAt(d, HeaderSector(d, name))} else s'.handles == s.handles
    case Write(h, position, data) =>
      s'.handles == s.handles && h in s.handles && WroteThrough(d, d', h, position, data)
  }

  /** What the methods of the file system do are such steps, and no other disks and
      handles can come of them. */
  lemma StepsAre(s: State, s': State)
    requires Ok(s.disk)
    ensures forall name, size: nat :: Step(s, s', Create(name, size)) <==>
      && s'.handles == s.handles && size <= MaxFileSize
      && (CanCreate(s.disk, name, size) ==> Created(s.disk, s'.disk, name, size))
      && (!CanCreate(s.disk, name, size) ==> s'.disk == s.disk)
    ensures forall name :: Step(s, s', Remove(name)) <==>
      && s'.handles == s.handles
      && (Present(Dir(s.disk), name) ==>
            IsFile(s.disk, HeaderSector(s.disk, name)) && RemovedFile(s.disk, s'.disk, name))
      && (!Present(Dir(s.disk), name) ==> s'.disk == s.disk)
    ensures forall name :: Step(s, s', Open(name)) <==>
      && s'.disk == s.disk
      && (Present(Dir(s.disk), name) ==> exists h :: IsOpen(s.disk, h, name) && s'.handles == s.handles + {h})
      && (!Present(Dir(s.disk), name) ==> s'.handles == s.handles)
    ensures forall h, position: nat, data :: Step(s, s', Write(h, position, data)) <==>
      s'.handles == s.handles && h in s.handles && WroteThrough(s.disk, s'.disk, h, position, data)
  {
    hide FreeMap, Dir, Partition, UniqueNames, Holdings, Key, EntriesAreFiles, Created, RemovedFile, CanCreate,
      WroteThrough, IsFile;
    forall name | Present(Dir(s.disk), name) ensures IsFile(s.disk, HeaderSector(s.disk, name)) {
      PresentIsFile(s.disk, name);
    }
  }

  /** A write finds no listed header among the sectors of its handle. */
  ghost predicate Clear(s: State, op: Op) {
    op.Write? && Formatted(s.disk) && ValidHeader(op.h) ==> HitsNoHeader(s.disk, Touched(DataSectors(op.h)))
  }

  lemma OpenedIsOk(d: Image, name: seq<byte>)
    requires Ok(d) && Present(Dir(d), name)
    ensures IsFile(d, HeaderSector(d, name)) && HandleOk(d, HeaderAt(d, HeaderSector(d, name)))
    ensures HitsNoHeader(d, Touched(Sectors(d, HeaderSector(d, name))))
  {
    hide FreeMap, Dir, Partition, UniqueNames, Holdings, EntriesAreFiles, Key, SystemData;
    PresentIsFile(d, name);
    PresentIndex(Dir(d), name);
    OwnData(d, FindIndex(Dir(d), name, 0));
    RemovableFile(d, name);
  }

  /** Handles never come to name system sectors, because those stay where they are. */
  lemma HandlesStayOk(d: Image, d': Image, h: Header)
    requires HandleOk(d, h) && Formatted(d')
    requires Claims(d', FreeMapSector) == Claims(d, FreeMapSector)
    requires Claims(d', DirectorySector) == Claims(d, DirectorySector)
    ensures HandleOk(d', h)
  {
    assert Claims(d, FreeMapSector)[1..] == Sectors(d, FreeMapSector) == Sectors(d', FreeMapSector);
    assert Claims(d, DirectorySector)[1..] == Sectors(d, DirectorySector) == Sectors(d', DirectorySector);
  }

  lemma SystemAfterRemove(d: Image, d': Image, name: seq<byte>)
    requires Ok(d) && Present(Dir(d), name) && IsFile(d, HeaderSector(d, name)) && RemovedFile(d, d', name)
    ensures Formatted(d') && Claims(d', FreeMapSector) == Claims(d, FreeMapSector)
    ensures Claims(d', DirectorySector) == Claims(d, DirectorySector)
  {
    hide FreeMap, Dir, Partition, UniqueNames, Holdings, Key, EntriesAreFiles, Claims;
    SystemApart(d);
    SameClaims(d, d', SystemData(d), FreeMapSector);
    SameClaims(d, d', SystemData(d), DirectorySector);
  }

  /** Every operation keeps the file system in order and its handles off the system's
      sectors, unless it writes through a handle onto a listed header. */
  lemma StepKeeps(s: State, s': State, op: Op)
    requires StateOk(s) && Step(s, s', op) && Clear(s, op)
    ensures StateOk(s')
  {
    hide FreeMap, Dir, Partition, UniqueNames, Holdings, Key, IsFile, Created, RemovedFile, CanCreate, System,
      HitsNoHeader, DataSectors, Contents, Splice;
    var d, d' := s.disk, s'.disk;
    match op
    case Create(name, size) =>
      if CanCreate(d, name, size) {
        CreateKeeps(d, d', name, size);
        AfterCreate(d, d', name, size);
        forall h | h in s'.handles ensures HandleOk(d', h) { HandlesStayOk(d, d', h); }
      }
    case Remove(name) =>
      if Present(Dir(d), name) {
        PresentIsFile(d, name);
        RemoveKeeps(d, d', name);
        SystemAfterRemove(d, d', name);
        forall h | h in s'.handles ensures HandleOk(d', h) { HandlesStayOk(d, d', h); }
      }
    case Open(name) => if Present(Dir(d), name) { OpenedIsOk(d, name); }
    case Write(h, position, data) =>
      DataOnly(d, d', Touched(DataSectors(h)));
      SystemUntouched(d, d', Touched(DataSectors(h)));
      forall k | k in s'.handles ensures HandleOk(d', k) { HandlesStayOk(d, d', k); }
  }

  /** A run of the file system from any disk in order, with no handle open.  Once the
      disk is not in order, anything may happen. */
  ghost predicate IsRun(run: seq<State>, ops: seq<Op>) {
    && |run| == |ops| + 1 && Ok(run[0].disk) && run[0].handles == {}
    && forall i | 0 <= i < |ops| :: Ok(run[i].disk) ==> Step(run[i], run[i + 1], ops[i])
  }

  /** Sector ownership holds after every run of creations, removals, openings and
      writes, as long as no write finds a listed header among its handle's sectors. */
  lemma {:induction false} RunKeeps(run: seq<State>, ops: seq<Op>, n: nat)
    requires IsRun(run, ops) && n <= |ops| && forall i | 0 <= i < n :: Clear(run[i], ops[i])
    ensures StateOk(run[n])
  {
    hide Ok, Step, Clear, HandleOk;
    if n > 0 {
      RunKeeps(run, ops, n - 1);
      StepKeeps(run[n - 1], run[n], ops[n - 1]);
    }
  }

  // ----------------------------------------------------------------- operations

  lemma SameContents(d: Image, d': Image, changed: set<int>, h: Header)
    requires ValidHeader(h) && SameBut(d, d', changed) && Touched(DataSectors(h)) !! changed
    ensures Contents(d', h) == Contents(d, h)
  {
    forall k | 0 <= k < h.numBytes ensures Contents(d', h)[k] == Contents(d, h)[k] {
      assert DataSectors(h)[k / SectorSize] in Touched(DataSectors(h));
    }
  }

  lemma Chains(d: Image, d1: Image, d2: Image, a: set<int>, b: set<int>)
    requires SameBut(d, d1, a) && SameBut(d1, d2, b)
    ensures SameBut(d, d2, a + b)
  {}

  /** The system files read through the headers that were there before. */
  lemma SystemRead(d: Image, d': Image, changed: set<int>, t: Table, bits: seq<bool>)
    requires Formatted(d) && SameBut(d, d', changed) && FreeMapSector !in changed && DirectorySector !in changed
    requires DecodeTable(Contents(d', HeaderAt(d, DirectorySector)), NumDirEntries) == t
    requires PersistentBitmaps.MapBits(Contents(d', HeaderAt(d, FreeMapSector)), NumSectors) == bits
    ensures Formatted(d') && Dir(d') == t && FreeMap(d') == bits
    ensures HeaderAt(d', FreeMapSector) == HeaderAt(d, FreeMapSector)
      && HeaderAt(d', DirectorySector) == HeaderAt(d, DirectorySector)
  {
    hide DecodeTable, PersistentBitmaps.MapBits, Contents, Decode;
  }

  // ----------------------------------------------------------------- formatting

  /** The bits once the two header sectors are marked. */
  function Reserved(): (bits: seq<bool>)
    ensures |bits| == NumSectors
  {
    seq(NumSectors, k => k == FreeMapSector || k == DirectorySector)
  }

  lemma {:induction false} AllClear(n: nat, m: nat)
    requires m <= n
    ensures ClearBelow(seq(n, _ => false), m) == m
  {
    if m > 0 { AllClear(n, m - 1); }
  }

  lemma ReservedClear()
    ensures NumClear(Reserved()) == NumSectors - 2
  {
    var none := seq(NumSectors, _ => false);
    AllClear(NumSectors, NumSectors);
    ClearBelowSet(none, FreeMapSector, NumSectors);
    ClearBelowSet(none[FreeMapSector := true], DirectorySector, NumSectors);
    assert none[FreeMapSector := true][DirectorySector := true] == Reserved();
  }

  /** The sectors that formatting takes for the two system files, and the bits. */
  function MapTaken(): (r: (seq<nat>, seq<bool>))
    ensures |r.0| == 1 && |r.1| == NumSectors
  {
    ReservedClear();
    Grab(Reserved(), 1)
  }

  function DirTaken(): (r: (seq<nat>, seq<bool>))
    ensures |r.0| == 4 && |r.1| == NumSectors
  {
    ReservedClear();
    GrabSets(Reserved(), 1);
    Grab(MapTaken().1, 4)
  }

  lemma TakenFacts()
    ensures Ascending(MapTaken().0) && Ascending(DirTaken().0)
    ensures forall x | x in MapTaken().0 :: 2 <= x < NumSectors
    ensures forall x | x in DirTaken().0 :: 2 <= x < NumSectors && x !in MapTaken().0
    ensures forall x | 0 <= x < NumSectors :: DirTaken().1[x] == (x < 2 || x in MapTaken().0 || x in DirTaken().0)
  {
    hide Grab, NumClear;
    ReservedClear();
    GrabSets(Reserved(), 1);
    GrabAscends(Reserved(), 1);
    var bits1 := MapTaken().1;
    assert forall x | 0 <= x < NumSectors :: bits1[x] == (x < 2 || x in MapTaken().0);
    GrabSets(bits1, 4);
    GrabAscends(bits1, 4);
  }

  lemma HeadDistinct(x: int, s: seq<nat>)
    requires Ascending(s) && x !in s
    ensures NoDup([x] + s)
  {}

  /** A freshly formatted disk is in order. */
  lemma FormatOk(d: Image)
    requires Formatted(d) && Sectors(d, FreeMapSector) == MapTaken().0 && Sectors(d, DirectorySector) == DirTaken().0
    requires FreeMap(d) == DirTaken().1 && forall i | 0 <= i < NumDirEntries :: !Live(Dir(d)[i])
    ensures Ok(d)
  {
    hide FreeMap, Dir, MapTaken, DirTaken, IsFile, Key, Sectors, Partition, Ascending, NoDup;
    var s1, s2 := MapTaken().0, DirTaken().0;
    TakenFacts();
    HeadDistinct(FreeMapSector, s1);
    HeadDistinct(DirectorySector, s2);
    var none: seq<seq<int>> := seq(Owners, _ => []);
    var clear := seq(NumSectors, _ => false);
    NothingHeld(none, clear);
    var g1: seq<int>, g2: seq<int> := [FreeMapSector] + s1, [DirectorySector] + s2;
    var half := seq(NumSectors, k requires 0 <= k < NumSectors => k in g1);
    PartitionAdds(none, clear, 0, g1, half);
    PartitionAdds(none[0 := g1], half, 1, g2, FreeMap(d));
    assert EntriesAreFiles(d) && UniqueNames(Dir(d));
    assert Claims(d, FreeMapSector) == g1 && Claims(d, DirectorySector) == g2;
    forall i | 0 <= i < Owners ensures Holdings(d)[i] == none[0 := g1][1 := g2][i] {
      if i >= 2 { assert !Live(Dir(d)[i - 2]); }
    }
    assert Holdings(d) == none[0 := g1][1 := g2];
  }

  lemma NothingHeld(g: seq<seq<int>>, bits: seq<bool>)
    requires (forall i | 0 <= i < |g| :: g[i] == []) && forall k | 0 <= k < |bits| :: !bits[k]
    ensures Partition(g, bits)
  {}

  lemma StillFormatted(d: Image, d': Image, changed: set<int>)
    requires Formatted(d) && SameBut(d, d', changed) && FreeMapSector !in changed && DirectorySector !in changed
    ensures Formatted(d')
    ensures HeaderAt(d', FreeMapSector) == HeaderAt(d, FreeMapSector)
      && HeaderAt(d', DirectorySector) == HeaderAt(d, DirectorySector)
  {}

  lemma FormatApart(d: Image)
    requires Formatted(d) && Sectors(d, FreeMapSector) == MapTaken().0 && Sectors(d, DirectorySector) == DirTaken().0
    ensures FreeMapSector !in SystemData(d) && DirectorySector !in SystemData(d)
    ensures Touched(Sectors(d, FreeMapSector)) !! Touched(Sectors(d, DirectorySector))
    ensures NoDup(Sectors(d, FreeMapSector)) && NoDup(Sectors(d, DirectorySector))
  {
    hide MapTaken, DirTaken, Sectors;
    TakenFacts();
  }

  /** Formatting's last two writes, of the free map and then of the directory. */
  lemma FormatFlushed(d1: Image, d2: Image, d3: Image, t: Table)
    requires Formatted(d1) && Sectors(d1, FreeMapSector) == MapTaken().0 && Sectors(d1, DirectorySector) == DirTaken().0
    requires SameBut(d1, d2, Touched(Sectors(d1, FreeMapSector)))
    requires PersistentBitmaps.MapBits(Contents(d2, HeaderAt(d1, FreeMapSector)), NumSectors) == DirTaken().1
    requires SameBut(d2, d3, Touched(Sectors(d1, DirectorySector)))
    requires DecodeTable(Contents(d3, HeaderAt(d1, DirectorySector)), NumDirEntries) == t
    requires forall i | 0 <= i < |t| :: !Live(t[i])
    ensures Ok(d3) && Dir(d3) == t
    ensures HeaderAt(d3, FreeMapSector) == HeaderAt(d1, FreeMapSector)
      && HeaderAt(d3, DirectorySector) == HeaderAt(d1, DirectorySector)
  {
    hide MapTaken, DirTaken, PersistentBitmaps.MapBits, DecodeTable, Contents, Decode;
    FormatApart(d1);
    Chains(d1, d2, d3, Touched(Sectors(d1, FreeMapSector)), Touched(Sectors(d1, DirectorySector)));
    SameContents(d2, d3, Touched(Sectors(d1, DirectorySector)), HeaderAt(d1, FreeMapSector));
    SystemRead(d1, d3, SystemData(d1), t, DirTaken().1);
    FormatOk(d3);
  }

  lemma MadeHeader(h: Header, size: nat, s: seq<nat>)
    requires |h.dataSectors| == NumDirect && size <= MaxFileSize && h.numBytes == size
      && h.numSectors == DivRoundUp(size)
    requires h.numSectors <= NumDirect && h.dataSectors[..h.numSectors] == s && forall x | x in s :: x < NumSectors
    ensures ValidHeader(h) && DataSectors(h) == s
  {
    forall i | 0 <= i < h.numSectors ensures 0 <= h.dataSectors[i] < NumSectors {
      assert h.dataSectors[i] == s[i] && s[i] in s;
    }
  }

  class FileSystem {
    const disk: Disk
    const freeMapFile: OpenFile
    const directoryFile: OpenFile

    ghost predicate Linked()
      reads disk, freeMapFile.hdr, freeMapFile.hdr.dataSectors, directoryFile.hdr, directoryFile.hdr.dataSectors
    {
      && Formatted(disk.sectors) && freeMapFile.disk == disk && directoryFile.disk == disk
      && freeMapFile.hdr.Valid() && freeMapFile.hdr.Value() == HeaderAt(disk.sectors, FreeMapSector)
      && directoryFile.hdr.Valid() && directoryFile.hdr.Value() == HeaderAt(disk.sectors, DirectorySector)
    }

    ghost predicate Valid()
      reads disk, freeMapFile.hdr, freeMapFile.hdr.dataSectors, directoryFile.hdr, directoryFile.hdr.dataSectors
    {
      Linked() && Ok(disk.sectors)
    }

    /** The format branch: an empty directory, and a free map that marks just the
        sectors of the two system files. */
    constructor Format(disk: Disk)
      requires disk.Valid()
      modifies disk
      ensures Valid() && this.disk == disk && fresh(freeMapFile) && fresh(directoryFile)
      ensures forall i | 0 <= i < NumDirEntries :: !Live(Dir(disk.sectors)[i])
    {
      hide Ok, MapTaken, DirTaken, Reserved, Decode, Contents;
      var freeMap := NewFreeMap();
      var directory := new Directory(NumDirEntries);
      WriteHeaders(disk, freeMap);
      this.disk := disk;
      freeMapFile := new OpenFile(disk, FreeMapSector);
      directoryFile := new OpenFile(disk, DirectorySector);
      new;
      FirstFlush(freeMap, directory);
    }

    static method NewFreeMap() returns (freeMap: Bitmap)
      ensures fresh(freeMap) && fresh(freeMap.words) && freeMap.Valid() && freeMap.numBits == NumSectors
      ensures freeMap.Bits() == Reserved()
    {
      hide BitsOf;
      freeMap := new Bitmap(NumSectors);
      freeMap.Mark(FreeMapSector);
      freeMap.Mark(DirectorySector);
    }

    method FirstFlush(freeMap: Bitmap, directory: Directory)
      requires Linked() && freeMap.Valid() && freeMap.numBits == NumSectors && directory.table.Length == NumDirEntries
      requires Sectors(disk.sectors, FreeMapSector) == MapTaken().0
        && Sectors(disk.sectors, DirectorySector) == DirTaken().0
      requires freeMap.Bits() == DirTaken().1 && forall i | 0 <= i < NumDirEntries :: !Live(directory.table[i])
      modifies disk
      ensures Valid() && forall i | 0 <= i < NumDirEntries :: !Live(Dir(disk.sectors)[i])
    {
      hide MapTaken, DirTaken, PersistentBitmaps.MapBits, DecodeTable, Contents, Decode, BitsOf, Reserved, Ok;
      ghost var d1 := disk.sectors;
      FormatApart(d1);
      FlushFreeMap(freeMap);
      ghost var d2 := disk.sectors;
      StillFormatted(d1, d2, Touched(Sectors(d1, FreeMapSector)));
      FlushDirectory(directory);
      FormatFlushed(d1, d2, disk.sectors, directory.table[..]);
    }

    /** The two headers, allocated and written to their sectors. */
    static method WriteHeaders(disk: Disk, freeMap: Bitmap)
      requires disk.Valid() && freeMap.Valid() && freeMap.numBits == NumSectors && freeMap.Bits() == Reserved()
      modifies disk, freeMap.words
      ensures disk.Valid() && Formatted(disk.sectors)
      ensures Sectors(disk.sectors, FreeMapSector) == MapTaken().0
        && Sectors(disk.sectors, DirectorySector) == DirTaken().0
      ensures freeMap.Bits() == DirTaken().1
    {
      hide Grab, NumClear, BitsOf, Encode, Decode, Reserved, ValidHeader;
      ReservedClear();
      GrabSets(Reserved(), 1);
      var mapHdr := new FileHeader();
      var dirHdr := new FileHeader();
      var ok := mapHdr.Allocate(freeMap, FreeMapFileSize);
      assert ok;
      ok := dirHdr.Allocate(freeMap, DirectoryFileSize);
      assert ok;
      TakenFacts();
      MadeHeader(mapHdr.Value(), FreeMapFileSize, MapTaken().0);
      MadeHeader(dirHdr.Value(), DirectoryFileSize, DirTaken().0);
      HeaderRoundTrip(mapHdr.Value());
      HeaderRoundTrip(dirHdr.Value());
      mapHdr.WriteBack(disk, FreeMapSector);
      dirHdr.WriteBack(disk, DirectorySector);
    }

    method FetchDirectory() returns (directory: Directory)
      requires Linked()
      ensures fresh(directory) && fresh(directory.table) && directory.table[..] == Dir(disk.sectors)
    {
      hide Contents, DecodeTable;
      directory := new Directory(NumDirEntries);
      directory.FetchFrom(directoryFile);
    }

    method FetchFreeMap() returns (freeMap: Bitmap)
      requires Linked()
      ensures fresh(freeMap) && fresh(freeMap.words) && freeMap.Valid() && freeMap.numBits == NumSectors
      ensures freeMap.Bits() == FreeMap(disk.sectors)
    {
      hide Contents, BitsOf, PersistentBitmaps.MapBits, PersistentBitmaps.WordsBytes, Overlay, Decode, DivRoundUp;
      freeMap := new Bitmap(NumSectors);
      PersistentBitmaps.FetchFrom(freeMap, freeMapFile);
    }

    method FlushDirectory(directory: Directory)
      requires Linked() && directory.table.Length == NumDirEntries && NoDup(Sectors(disk.sectors, DirectorySector))
      modifies disk
      ensures disk.Valid() && SameBut(old(disk.sectors), disk.sectors,
        Touched(Sectors(old(disk.sectors), DirectorySector)))
      ensures DecodeTable(Contents(disk.sectors, old(HeaderAt(disk.sectors, DirectorySector))), NumDirEntries) ==
        directory.table[..]
    {
      hide Contents, DecodeTable;
      directory.WriteBack(directoryFile);
    }

    method FlushFreeMap(freeMap: Bitmap)
      requires Linked() && freeMap.Valid() && freeMap.numBits == NumSectors
        && NoDup(Sectors(disk.sectors, FreeMapSector))
      modifies disk
      ensures disk.Valid() && SameBut(old(disk.sectors), disk.sectors,
        Touched(Sectors(old(disk.sectors), FreeMapSector)))
      ensures PersistentBitmaps.MapBits(Contents(disk.sectors, old(HeaderAt(disk.sectors, FreeMapSector))),
        NumSectors) == freeMap.Bits()
    {
      hide Contents, BitsOf, PersistentBitmaps.MapBits;
      PersistentBitmaps.WriteBack(freeMap, freeMapFile);
    }

    /** Create: succeeds exactly when the name is new, an entry is free and there is
        room; otherwise the disk is as it was. */
    method Create(name: seq<byte>, initialSize: nat) returns (success: bool)
      requires Valid() && initialSize <= MaxFileSize
      modifies disk
      ensures Valid() && success == CanCreate(old(disk.sectors), name, initialSize)
      ensures success ==> Created(old(disk.sectors), disk.sectors, name, initialSize)
      ensures !success ==> disk.sectors == old(disk.sectors)
    {
      hide Ok, Grab, FirstClear, Dir, FreeMap, BitsOf, Contents, Decode, Added, FindIndex, FreeSlot, Created,
        UniqueNames, ValidHeader;
      ghost var d := disk.sectors;
      var directory := FetchDirectory();
      var found := directory.Find(name);
      LookupPresent(d, name);
      if found != -1 { return false; }
      var freeMap := FetchFreeMap();
      FindsOne(freeMap.Bits());
      var sector := freeMap.FindAndSet();
      if sector == -1 { return false; }
      var added := directory.Add(name, sector);
      if !added { return false; }
      var hdr := new FileHeader();
      var ok := hdr.Allocate(freeMap, initialSize);
      if !ok { return false; }
      GrabStep(FreeMap(d), 1 + DivRoundUp(initialSize));
      FlushNew(name, initialSize, hdr, sector, directory, freeMap);
      return true;
    }

    /** The three writes of a successful Create. */
    method FlushNew(name: seq<byte>, size: nat, hdr: FileHeader, sector: nat, directory: Directory, freeMap: Bitmap)
      requires Valid() && size <= MaxFileSize && CanCreate(disk.sectors, name, size)
      requires hdr.Valid() && freeMap.Valid() && freeMap.numBits == NumSectors
        && directory.table.Length == NumDirEntries
      requires hdr.numBytes == size && hdr.numSectors == DivRoundUp(size) <= NumDirect
      requires var (s, after) := Grab(FreeMap(disk.sectors), 1 + DivRoundUp(size));
        && sector == s[0] < NumSectors && hdr.dataSectors[..hdr.numSectors] == s[1..] && freeMap.Bits() == after
        && directory.table[..] == Added(Dir(disk.sectors), name, s[0])
      modifies disk
      ensures Valid() && Created(old(disk.sectors), disk.sectors, name, size)
    {
      hide Ok, Grab, Dir, FreeMap, BitsOf, Contents, Decode, Encode, Added, DecodeTable, PersistentBitmaps.MapBits,
        CanCreate, Created, ValidHeader;
      ghost var d := disk.sectors;
      ghost var h := hdr.Value();
      NewHeader(d, name, size, h);
      SystemApart(d);
      hdr.WriteBack(disk, sector);
      ghost var d1 := disk.sectors;
      SetSector(d, sector, h);
      StillFormatted(d, d1, {sector});
      FlushDirectory(directory);
      ghost var d2 := disk.sectors;
      StillFormatted(d1, d2, Touched(Sectors(d, DirectorySector)));
      FlushFreeMap(freeMap);
      CreateFlushed(d, d1, d2, disk.sectors, name, size, sector, h);
    }

    /** Remove: the source's assertions that the file's sectors are marked hold. */
    method Remove(name: seq<byte>) returns (removed: bool)
      requires Valid()
      modifies disk
      ensures Valid() && removed == Present(Dir(old(disk.sectors)), name)
      ensures removed ==>
        IsFile(old(disk.sectors), HeaderSector(old(disk.sectors), name))
          && RemovedFile(old(disk.sectors), disk.sectors, name)
      ensures !removed ==> disk.sectors == old(disk.sectors)
    {
      hide Ok, Dir, FreeMap, BitsOf, Contents, Decode, Removed, FindIndex, UniqueNames, ValidHeader, RemovedFile,
        Cleared, NoDup;
      ghost var d := disk.sectors;
      var directory := FetchDirectory();
      var sector := directory.Find(name);
      LookupPresent(d, name);
      if sector == -1 { return false; }
      RemovableFile(d, name);
      var fileHdr := new FileHeader();
      fileHdr.FetchFrom(disk, sector);
      var freeMap := FetchFreeMap();
      fileHdr.Deallocate(freeMap);
      freeMap.Clear(sector);
      ClearedAll(FreeMap(d), sector, Sectors(d, sector));
      var _ := directory.Remove(name);
      FlushRemoved(name, directory, freeMap);
      return true;
    }

    /** Open: the file of that name, if there is one, at its beginning. */
    method Open(name: seq<byte>) returns (file: OpenFile?)
      requires Valid()
      ensures (file != null) == Present(Dir(disk.sectors), name)
      ensures file != null ==>
        && fresh(file) && fresh(file.hdr) && fresh(file.hdr.dataSectors) && file.seekPosition == 0 && Opened(file, name)
    {
      hide Ok, Dir, FreeMap, Contents, Decode, FindIndex, UniqueNames, ValidHeader, NoDup;
      var directory := FetchDirectory();
      var sector := directory.Find(name);
      LookupPresent(disk.sectors, name);
      if sector < 0 { return null; }
      RemovableFile(disk.sectors, name);
      file := new OpenFile(disk, sector);
    }

    /** The file holds the header that the directory gives for the name. */
    ghost predicate Opened(file: OpenFile, name: seq<byte>)
      reads disk, file, file.hdr, file.hdr.dataSectors
    {
      file.disk == disk && file.hdr.Valid() && IsOpen(disk.sectors, file.hdr.Value(), name)
    }

    /** A write through an open file: that file changes as asked, and nothing else
        that the file system holds. */
    method WriteFile(file: OpenFile, name: seq<byte>, from: seq<byte>, numBytes: int, position: nat) returns (n: nat)
      requires Valid() && Opened(file, name) && numBytes <= |from|
      modifies disk
      ensures Valid() && Opened(file, name)
      ensures var d, d', s := old(disk.sectors), disk.sectors, HeaderSector(old(disk.sectors), name);
        && n == Clip(HeaderAt(d, s).numBytes, numBytes, position)
        && IsFile(d', s) && FileAt(d', s) == Splice(FileAt(d, s), position, from[..n])
        && FreeMap(d') == FreeMap(d) && Dir(d') == Dir(d)
        && OthersSame(d, d', s)
    {
      hide Ok, Dir, FreeMap, Contents, Decode, FindIndex, UniqueNames, NoDup, OthersSame, Splice;
      ghost var d := disk.sectors;
      ghost var s := HeaderSector(d, name);
      RemovableFile(d, name);
      n := file.WriteAt(from, numBytes, position);
      WriteNamed(d, disk.sectors, name);
    }

    /** A write through any handle, also one whose file was removed: the file system
        stays in order if no listed header is among the handle's sectors. */
    method WriteHandle(file: OpenFile, from: seq<byte>, numBytes: int, position: nat) returns (n: nat)
      requires Valid() && file.disk == disk && file.hdr.Valid() && numBytes <= |from|
      requires HandleOk(disk.sectors, file.hdr.Value())
      modifies disk
      ensures n == Clip(file.hdr.numBytes, numBytes, position)
      ensures WroteThrough(old(disk.sectors), disk.sectors, file.hdr.Value(), position, from[..n])
      ensures HitsNoHeader(old(disk.sectors), Touched(DataSectors(file.hdr.Value()))) ==>
        Valid() && FreeMap(disk.sectors) == old(FreeMap(disk.sectors)) && Dir(disk.sectors) == old(Dir(disk.sectors))
    {
      hide Ok, Dir, FreeMap, Contents, Decode, UniqueNames, NoDup, HitsNoHeader, System, Splice;
      ghost var d := disk.sectors;
      ghost var changed := Touched(DataSectors(file.hdr.Value()));
      n := file.WriteAt(from, numBytes, position);
      if HitsNoHeader(d, changed) { DataOnly(d, disk.sectors, changed); }
    }

    /** The two writes of Remove. */
    method FlushRemoved(name: seq<byte>, directory: Directory, freeMap: Bitmap)
      requires Valid() && Present(Dir(disk.sectors), name) && IsFile(disk.sectors, HeaderSector(disk.sectors, name))
      requires freeMap.Valid() && freeMap.numBits == NumSectors && directory.table.Length == NumDirEntries
      requires directory.table[..] == Removed(Dir(disk.sectors), name)
      requires freeMap.Bits() == Cleared(FreeMap(disk.sectors), Claims(disk.sectors, HeaderSector(disk.sectors, name)))
      modifies disk
      ensures Valid() && RemovedFile(old(disk.sectors), disk.sectors, name)
    {
      hide Ok, Dir, FreeMap, BitsOf, Contents, Decode, Removed, DecodeTable, PersistentBitmaps.MapBits, ValidHeader,
        RemovedFile, Cleared, Claims, Present;
      ghost var d := disk.sectors;
      SystemApart(d);
      FlushFreeMap(freeMap);
      ghost var d1 := disk.sectors;
      StillFormatted(d, d1, Touched(Sectors(d, FreeMapSector)));
      FlushDirectory(directory);
      RemoveFlushed(d, d1, disk.sectors, name);
    }
  }

  /** The file to be removed: its sectors are distinct and marked. */
  lemma RemovableFile(d: Image, name: seq<byte>)
    requires Ok(d) && Present(Dir(d), name)
    ensures var s := HeaderSector(d, name);
      && IsFile(d, s) && 0 <= HeaderAt(d, s).numSectors <= NumDirect && FreeMap(d)[s] && s !in Sectors(d, s)
      && NoDup(Sectors(d, s)) && forall i | 0 <= i < HeaderAt(d, s).numSectors ::
           0 <= HeaderAt(d, s).dataSectors[i] < NumSectors && FreeMap(d)[HeaderAt(d, s).dataSectors[i]]
  {
    hide Dir, FreeMap, Partition, UniqueNames, Holdings, Key, EntriesAreFiles, Decode, Present, NoDup;
    var s := HeaderSector(d, name);
    PresentIsFile(d, name);
    Held(d);
    var k := FindIndex(Dir(d), name, 0);
    var g := Holdings(d);
    assert k < NumDirEntries by { PresentIndex(Dir(d), name); }
    Parts(g, FreeMap(d), k + 2, 0);
    TailDistinct(g[k + 2]);
    assert g[k + 2][1..] == Sectors(d, s);
    forall i | 0 <= i < HeaderAt(d, s).numSectors
      ensures 0 <= HeaderAt(d, s).dataSectors[i] < NumSectors && FreeMap(d)[HeaderAt(d, s).dataSectors[i]]
    {
      assert Sectors(d, s)[i] in g[k + 2];
    }
  }

  /** Every other file in the directory is as it was. */
  ghost predicate OthersSame(d: Image, d': Image, s: int)
    requires Formatted(d)
  {
    forall j | 0 <= j < NumDirEntries && Live(Dir(d)[j]) && Dir(d)[j].sector != s :: SameFileAt(d, d', Dir(d)[j].sector)
  }

  lemma WriteNamed(d: Image, d': Image, name: seq<byte>)
    requires Ok(d) && Present(Dir(d), name) && IsFile(d, HeaderSector(d, name))
      && WroteFile(d, d', HeaderSector(d, name))
    ensures var s := HeaderSector(d, name);
      Ok(d') && FreeMap(d') == FreeMap(d) && Dir(d') == Dir(d) && SameHeader(d, d', s) && OthersSame(d, d', s)
    ensures SameHeader(d, d', FreeMapSector) && SameHeader(d, d', DirectorySector)
  {
    hide Partition, Holdings, EntriesAreFiles, UniqueNames, Dir, FreeMap, Key, FileAt, Sectors;
    var k := FindIndex(Dir(d), name, 0);
    WriteKeeps(d, d', k);
  }

  lemma PresentIndex(t: Table, name: seq<byte>)
    requires Present(t, name)
    ensures FindIndex(t, name, 0) < |t|
  {}

  lemma ClearedAll(bits: seq<bool>, s: int, data: seq<int>)
    requires 0 <= s < |bits|
    ensures Cleared(bits, data)[s := false] == Cleared(bits, [s] + data)
  {}

  lemma RemoveFlushed(d: Image, d1: Image, d2: Image, name: seq<byte>)
    requires Ok(d) && Present(Dir(d), name) && IsFile(d, HeaderSector(d, name))
    requires SameBut(d, d1, Touched(Sectors(d, FreeMapSector))) && SameBut(d1, d2, Touched(Sectors(d, DirectorySector)))
    requires PersistentBitmaps.MapBits(Contents(d1, HeaderAt(d, FreeMapSector)), NumSectors)
      == Cleared(FreeMap(d), Claims(d, HeaderSector(d, name)))
    requires DecodeTable(Contents(d2, HeaderAt(d, DirectorySector)), NumDirEntries) == Removed(Dir(d), name)
    ensures RemovedFile(d, d2, name) && Ok(d2)
    ensures HeaderAt(d2, FreeMapSector) == HeaderAt(d, FreeMapSector)
      && HeaderAt(d2, DirectorySector) == HeaderAt(d, DirectorySector)
  {
    hide Partition, Holdings, EntriesAreFiles, UniqueNames, Present, Dir, FreeMap, Contents, Decode, Removed,
      DecodeTable, PersistentBitmaps.MapBits, ValidHeader, Cleared, Claims;
    var dirData, mapData := Touched(Sectors(d, DirectorySector)), Touched(Sectors(d, FreeMapSector));
    SystemApart(d);
    Chains(d, d1, d2, mapData, dirData);
    SameContents(d1, d2, dirData, HeaderAt(d, FreeMapSector));
    SystemRead(d, d2, SystemData(d), Removed(Dir(d), name), Cleared(FreeMap(d), Claims(d, HeaderSector(d, name))));
    RemoveKeeps(d, d2, name);
  }

  lemma LookupPresent(d: Image, name: seq<byte>)
    requires Ok(d)
    ensures if Present(Dir(d), name) then Lookup(Dir(d), name) >= 0 else Lookup(Dir(d), name) == -1
  {
    hide Dir, FreeMap, Partition, UniqueNames, Holdings, Key;
    if Present(Dir(d), name) { PresentIsFile(d, name); }
  }

  lemma SetSector(d: Image, s: nat, h: Header)
    requires ValidImage(d) && s < NumSectors && |h.dataSectors| == NumDirect
    ensures SameBut(d, d[s := Encode(h)], {s as int}) && HeaderAt(d[s := Encode(h)], s) == h
  {
    HeaderRoundTrip(h);
  }

  /** The header that Create made is a good one, in a sector of its own. */
  lemma NewHeader(d: Image, name: seq<byte>, size: nat, h: Header)
    requires Ok(d) && CanCreate(d, name, size) && size <= MaxFileSize && |h.dataSectors| == NumDirect
    requires h.numBytes == size && h.numSectors == DivRoundUp(size) <= NumDirect
    requires h.dataSectors[..h.numSectors] == Grab(FreeMap(d), 1 + DivRoundUp(size)).0[1..]
    ensures ValidHeader(h) && DataSectors(h) == Grab(FreeMap(d), 1 + DivRoundUp(size)).0[1..]
    ensures var s0 := Grab(FreeMap(d), 1 + DivRoundUp(size)).0[0];
      s0 < NumSectors && s0 !in SystemData(d) && s0 != FreeMapSector && s0 != DirectorySector
  {
    hide Partition, Holdings, EntriesAreFiles, Grab, Dir, FreeMap, Decode, ValidHeader, UniqueNames, DivRoundUp,
      Present, Full;
    var s := Grab(FreeMap(d), 1 + DivRoundUp(size)).0;
    GrabSets(FreeMap(d), 1 + DivRoundUp(size));
    NewSector(d, name, size);
    forall x | x in s[1..] ensures x < NumSectors { assert x in s; }
    MadeHeader(h, size, s[1..]);
  }

  lemma CreateFlushed(d: Image, d1: Image, d2: Image, d3: Image, name: seq<byte>, size: nat, sector: nat, h: Header)
    requires Ok(d) && CanCreate(d, name, size) && sector < NumSectors && ValidHeader(h)
    requires sector !in SystemData(d) && sector != FreeMapSector && sector != DirectorySector
    requires SameBut(d, d1, {sector as int}) && HeaderAt(d1, sector) == h
    requires SameBut(d1, d2, Touched(Sectors(d, DirectorySector)))
      && SameBut(d2, d3, Touched(Sectors(d, FreeMapSector)))
    requires var (s, after) := Grab(FreeMap(d), 1 + DivRoundUp(size));
      && sector == s[0] && DataSectors(h) == s[1..] && h.numBytes == size
      && DecodeTable(Contents(d2, HeaderAt(d, DirectorySector)), NumDirEntries) == Added(Dir(d), name, s[0])
      && PersistentBitmaps.MapBits(Contents(d3, HeaderAt(d, FreeMapSector)), NumSectors) == after
    ensures Created(d, d3, name, size) && Ok(d3)
    ensures HeaderAt(d3, FreeMapSector) == HeaderAt(d, FreeMapSector)
      && HeaderAt(d3, DirectorySector) == HeaderAt(d, DirectorySector)
  {
    hide Partition, Holdings, EntriesAreFiles, UniqueNames, Present, Full, Grab, Dir, FreeMap, Contents, Decode, Added,
      DecodeTable, PersistentBitmaps.MapBits, ValidHeader;
    var (s, after) := Grab(FreeMap(d), 1 + DivRoundUp(size));
    var dirData, mapData := Touched(Sectors(d, DirectorySector)), Touched(Sectors(d, FreeMapSector));
    SystemApart(d);
    Chains(d, d1, d2, {sector as int}, dirData);
    Chains(d, d2, d3, {sector as int} + dirData, mapData);
    assert {sector as int} + dirData + mapData == SystemData(d) + {s[0]};
    SameContents(d2, d3, mapData, HeaderAt(d, DirectorySector));
    SystemRead(d, d3, SystemData(d) + {s[0]}, Added(Dir(d), name, s[0]), after);
    assert d3[sector] == d1[sector];
    CreateKeeps(d, d3, name, size);
  }
}
