/** The disk as its contents: sectors of 128 bytes (machine/disk.h), read and
    written whole through SynchDisk. */
module Disks {
  import opened Words

  const SectorSize := 128
  const SectorsPerTrack := 32
  const NumTracks := 32
  const NumSectors := SectorsPerTrack * NumTracks

  type Image = seq<seq<byte>>

  predicate ValidImage(d: Image) {
    |d| == NumSectors && forall i | 0 <= i < |d| :: |d[i]| == SectorSize
  }

  class Disk {
    var sectors: Image

    predicate Valid()
      reads this
    {
      ValidImage(sectors)
    }

    method ReadSector(n: nat, buf: array<byte>, at: nat)
      requires Valid() && n < NumSectors && at + SectorSize <= buf.Length
      modifies buf
      ensures buf[..] == old(buf[..at]) + sectors[n] + old(buf[at + SectorSize..])
    {
      var data := sectors[n];
      forall i | 0 <= i < SectorSize { buf[at + i] := data[i]; }
    }

    method WriteSector(n: nat, buf: array<byte>, at: nat)
      requires Valid() && n < NumSectors && at + SectorSize <= buf.Length
      modifies this
      ensures Valid() && sectors == old(sectors)[n := buf[at..at + SectorSize]]
    {
      sectors := sectors[n := buf[at..at + SectorSize]];
    }
  }
}

/** File headers (filesys/filehdr.cc): a file's length and its data sectors. */
module FileHeaders {
  import opened Collections
  import opened Words
  import opened Bitmaps
  import opened Disks

  const NumDirect := 30
  const MaxFileSize := NumDirect * SectorSize

  /** The header as it lies in its sector: 32 little-endian ints. */
  datatype Header = Header(numBytes: int32, numSectors: int32, dataSectors: seq<int32>)

  function DivRoundUp(n: nat): nat { (n + SectorSize - 1) / SectorSize }

  // -------------------------------------------------------------------- layout

  function Field(h: Header, j: nat): int32
    requires |h.dataSectors| == NumDirect && j < 32
  {
    if j == 0 then h.numBytes else if j == 1 then h.numSectors else h.dataSectors[j - 2]
  }

  function Encode(h: Header): (b: seq<byte>)
    requires |h.dataSectors| == NumDirect
    ensures |b| == SectorSize
  {
    seq(SectorSize, k requires 0 <= k < SectorSize => ByteOf(Unsigned(Field(h, k / 4)), k % 4))
  }

  function IntAt(b: seq<byte>, j: nat): int32
    requires 4 * j + 4 <= |b|
  {
    Signed(LittleEndian(b[4 * j], b[4 * j + 1], b[4 * j + 2], b[4 * j + 3]))
  }

  function Decode(b: seq<byte>): (h: Header)
    requires |b| == SectorSize
    ensures |h.dataSectors| == NumDirect
  {
    Header(IntAt(b, 0), IntAt(b, 1), seq(NumDirect, j requires 0 <= j < NumDirect => IntAt(b, j + 2)))
  }

  lemma IntOfEncoded(h: Header, j: nat)
    requires |h.dataSectors| == NumDirect && j < 32
    ensures IntAt(Encode(h), j) == Field(h, j)
  {
    hide ByteOf, LittleEndian;
    WordBytes(Unsigned(Field(h, j)));
    var b := Encode(h);
    assert b[4 * j] == ByteOf(Unsigned(Field(h, j)), 0);
    assert b[4 * j + 1] == ByteOf(Unsigned(Field(h, j)), 1);
    assert b[4 * j + 2] == ByteOf(Unsigned(Field(h, j)), 2);
    assert b[4 * j + 3] == ByteOf(Unsigned(Field(h, j)), 3);
  }

  /** A header written to its sector and fetched again is the same header. */
  lemma HeaderRoundTrip(h: Header)
    requires |h.dataSectors| == NumDirect
    ensures Decode(Encode(h)) == h
  {
    hide Encode, IntAt;
    IntOfEncoded(h, 0);
    IntOfEncoded(h, 1);
    forall j | 0 <= j < NumDirect ensures Decode(Encode(h)).dataSectors[j] == h.dataSectors[j] {
      IntOfEncoded(h, j + 2);
    }
  }

  // ---------------------------------------------------------------- allocation

  /** The n lowest clear bits, and the bits once they are set: n times FindAndSet. */
  function Grab(bits: seq<bool>, n: nat): (r: (seq<nat>, seq<bool>))
    requires n <= NumClear(bits)
    ensures |r.0| == n && |r.1| == |bits|
    decreases n
  {
    if n == 0 then ([], bits)
    else
      FindsOne(bits);
      var k := FirstClear(bits, 0);
      var r := Grab(bits[k := true], n - 1);
      ([k] + r.0, r.1)
  }

  lemma GrabStep(bits: seq<bool>, n: nat)
    requires 0 < n <= NumClear(bits)
    ensures var k := FirstClear(bits, 0);
      && k < |bits| && NumClear(bits[k := true]) == NumClear(bits) - 1
      && var (s, after) := Grab(bits[k := true], n - 1);
      Grab(bits, n) == ([k] + s, after)
  {
    FindsOne(bits);
  }

  lemma GrabNone(bits: seq<bool>)
    ensures Grab(bits, 0) == ([], bits)
  {}

  predicate Ascending(s: seq<nat>) { forall i, j | 0 <= i < j < |s| :: s[i] < s[j] }

  /** They were clear, no other bit changes, and the count goes down by n. */
  lemma {:induction false} GrabSets(bits: seq<bool>, n: nat)
    requires n <= NumClear(bits)
    ensures var (s, after) := Grab(bits, n);
      && (forall k | k in s :: k < |bits| && !bits[k])
      && (forall k | 0 <= k < |bits| :: after[k] == (bits[k] || k in s))
      && NumClear(after) == NumClear(bits) - n
    decreases n
  {
    hide FirstClear, NumClear, Grab;
    if n > 0 {
      GrabStep(bits, n);
      var k := FirstClear(bits, 0);
      assert !bits[k] by { FirstIsClear(bits); }
      GrabSets(bits[k := true], n - 1);
    } else {
      GrabNone(bits);
    }
  }

  lemma FirstIsClear(bits: seq<bool>)
    ensures var k := FirstClear(bits, 0);
      k <= |bits| && (k < |bits| ==> !bits[k]) && forall j | 0 <= j < k :: bits[j]
  {}

  /** They are distinct and ascending, and every bit left clear lies above them. */
  lemma {:induction false} GrabAscends(bits: seq<bool>, n: nat)
    requires n <= NumClear(bits)
    ensures var (s, after) := Grab(bits, n);
      Ascending(s) && forall k, i | 0 <= k < |bits| && !after[k] && 0 <= i < n :: s[i] < k
    decreases n
  {
    hide FirstClear, NumClear, Grab;
    if n > 0 {
      GrabStep(bits, n);
      var k := FirstClear(bits, 0);
      FirstIsClear(bits);
      GrabSets(bits[k := true], n - 1);
      GrabAscends(bits[k := true], n - 1);
      var s1 := Grab(bits[k := true], n - 1).0;
      assert forall i | 0 <= i < |s1| :: s1[i] in s1;
    } else {
      GrabNone(bits);
    }
  }

  /** The bits once those of the given sectors are cleared. */
  function Cleared(bits: seq<bool>, sectors: seq<int>): (r: seq<bool>)
    ensures |r| == |bits|
  {
    seq(|bits|, k requires 0 <= k < |bits| => bits[k] && k !in sectors)
  }

  class FileHeader {
    var numBytes: int32
    var numSectors: int32
    const dataSectors: array<int32>

    predicate Valid() { dataSectors.Length == NumDirect }

    ghost function Value(): (h: Header)
      reads this, dataSectors
      requires Valid()
      ensures |h.dataSectors| == NumDirect
    {
      Header(numBytes, numSectors, dataSectors[..])
    }

    constructor ()
      ensures Valid() && fresh(dataSectors)
    {
      dataSectors := new int32[NumDirect];
    }

    /** Allocate: takes the lowest free sectors, or none if there are too few. */
    method Allocate(freeMap: Bitmap, fileSize: nat) returns (ok: bool)
      requires Valid() && freeMap.Valid() && freeMap.numBits == NumSectors
      requires freeMap.words as object != dataSectors
      requires fileSize <= MaxFileSize
      modifies this, dataSectors, freeMap.words
      ensures numBytes == fileSize && numSectors == DivRoundUp(fileSize) <= NumDirect
      ensures ok == (DivRoundUp(fileSize) <= NumClear(old(freeMap.Bits())))
      ensures !ok ==> freeMap.Bits() == old(freeMap.Bits())
      ensures ok ==> dataSectors[..numSectors] == Grab(old(freeMap.Bits()), numSectors).0
      ensures ok ==> freeMap.Bits() == Grab(old(freeMap.Bits()), numSectors).1
    {
      numBytes := fileSize;
      numSectors := DivRoundUp(fileSize);
      var free := freeMap.CountClear();
      if free < numSectors { return false; }
      TakeSectors(freeMap, numSectors);
      return true;
    }

    /** The loop of Allocate, whose assertion never fails. */
    method TakeSectors(freeMap: Bitmap, n: nat)
      requires Valid() && freeMap.Valid() && freeMap.numBits == NumSectors && freeMap.words as object != dataSectors
      requires n <= NumDirect && n <= NumClear(freeMap.Bits())
      modifies dataSectors, freeMap.words
      ensures dataSectors[..n] == Grab(old(freeMap.Bits()), n).0
      ensures freeMap.Bits() == Grab(old(freeMap.Bits()), n).1
    {
      hide Grab, NumClear, FirstClear, BitsOf;
      ghost var (s, after) := Grab(freeMap.Bits(), n);
      var i := 0;
      while i < n
        invariant 0 <= i <= n <= NumClear(freeMap.Bits()) + i
        invariant dataSectors[..i] == s[..i]
        invariant Grab(freeMap.Bits(), n - i) == (s[i..], after)
      {
        GrabStep(freeMap.Bits(), n - i);
        var k := freeMap.FindAndSet();
        assert k >= 0 && k == s[i];
        dataSectors[i] := k;
        i := i + 1;
        assert Grab(freeMap.Bits(), n - i).0 == s[i - 1..][1..] == s[i..];
      }
      GrabNone(freeMap.Bits());
    }

    /** Deallocate: the source asserts that each sector is marked when its turn
        comes, that is, that they are distinct and all marked. */
    method Deallocate(freeMap: Bitmap)
      requires Valid() && freeMap.Valid() && 0 <= numSectors <= NumDirect
      requires freeMap.words as object != dataSectors
      requires forall i | 0 <= i < numSectors :: 0 <= dataSectors[i] < freeMap.numBits && freeMap.Bits()[dataSectors[i]]
      requires NoDup<int>(dataSectors[..numSectors])
      modifies freeMap.words
      ensures freeMap.Bits() == Cleared(old(freeMap.Bits()), dataSectors[..numSectors])
    {
      ghost var bits := freeMap.Bits();
      var i := 0;
      while i < numSectors
        invariant 0 <= i <= numSectors && freeMap.Bits() == Cleared(bits, dataSectors[..i])
      {
        var marked := freeMap.Test(dataSectors[i]);
        assert marked;
        freeMap.Clear(dataSectors[i]);
        assert dataSectors[..i + 1] == dataSectors[..i] + [dataSectors[i]];
        i := i + 1;
      }
    }

    method FetchFrom(disk: Disk, sector: nat)
      requires Valid() && disk.Valid() && sector < NumSectors
      modifies this, dataSectors
      ensures Value() == Decode(disk.sectors[sector])
    {
      var b := disk.sectors[sector];
      numBytes, numSectors := IntAt(b, 0), IntAt(b, 1);
      forall j | 0 <= j < NumDirect { dataSectors[j] := IntAt(b, j + 2); }
    }

    method WriteBack(disk: Disk, sector: nat)
      requires Valid() && disk.Valid() && sector < NumSectors
      modifies disk
      ensures disk.Valid() && disk.sectors == old(disk.sectors)[sector := Encode(Value())]
    {
      disk.sectors := disk.sectors[sector := Encode(Header(numBytes, numSectors, dataSectors[..]))];
    }
  }
}
