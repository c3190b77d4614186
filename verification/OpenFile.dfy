/** Open files (filesys/openfile.cc): bytes read and written through whole sectors. */
module OpenFiles {
  import opened Collections
  import opened Words
  import opened Disks
  import opened FileHeaders

  predicate ValidHeader(h: Header) {
    && |h.dataSectors| == NumDirect && 0 <= h.numBytes <= MaxFileSize
    && h.numSectors == DivRoundUp(h.numBytes)
    && forall i | 0 <= i < h.numSectors :: 0 <= h.dataSectors[i] < NumSectors
  }

  function DataSectors(h: Header): seq<int>
    requires ValidHeader(h)
  {
    h.dataSectors[..h.numSectors]
  }

  /** Byte k of the file's sectors, laid end to end. */
  function RawByte(d: Image, h: Header, k: nat): byte
    requires ValidImage(d) && ValidHeader(h) && k < h.numSectors * SectorSize
  {
    d[h.dataSectors[k / SectorSize]][k % SectorSize]
  }

  lemma RawSector(d: Image, h: Header, i: nat, c: nat)
    requires ValidImage(d) && ValidHeader(h) && i < h.numSectors && c < SectorSize
    ensures i * SectorSize + c < h.numSectors * SectorSize
      && RawByte(d, h, i * SectorSize + c) == d[h.dataSectors[i]][c]
  {
    assert (i * SectorSize + c) / SectorSize == i && (i * SectorSize + c) % SectorSize == c;
  }

  /** The file: an array of bytes as long as its header says. */
  function Contents(d: Image, h: Header): (b: seq<byte>)
    requires ValidImage(d) && ValidHeader(h)
    ensures |b| == h.numBytes
  {
    seq(h.numBytes, k requires 0 <= k < h.numBytes => RawByte(d, h, k))
  }

  /** How much of a request falls inside a file of the given length. */
  function Clip(length: nat, numBytes: int, position: nat): (n: nat)
    ensures n == 0 || position + n <= length
  {
    if numBytes <= 0 || position >= length then 0
    else if position + numBytes > length then length - position else numBytes
  }

  /** The most bytes, up to numBytes, that fit from the position to the end. */
  lemma ClipExact(length: nat, numBytes: int, position: nat, m: nat)
    ensures var n := Clip(length, numBytes, position);
      && (n == 0 || (n <= numBytes && position + n <= length))
      && (m <= numBytes && position + m <= length ==> m <= n)
  {}

  function Splice(b: seq<byte>, position: nat, data: seq<byte>): (r: seq<byte>)
    requires data == [] || position + |data| <= |b|
    ensures |r| == |b|
  {
    if data == [] then b else b[..position] + data + b[position + |data|..]
  }

  lemma SpliceExact(b: seq<byte>, position: nat, data: seq<byte>, k: nat)
    requires (data == [] || position + |data| <= |b|) && k < |b|
    ensures Splice(b, position, data)[k] == if position <= k < position + |data| then data[k - position] else b[k]
  {}

  /** As much of over as fits, on top of under: what a read from the start of a file
      leaves in memory, and a write from the start in the file. */
  function Overlay(over: seq<byte>, under: seq<byte>): (r: seq<byte>)
    ensures |r| == |under|
    ensures |over| == |under| ==> r == over
  {
    if |over| >= |under| then over[..|under|] else over + under[|over|..]
  }

  lemma SpliceOverlays(b: seq<byte>, from: seq<byte>)
    ensures Splice(b, 0, from[..Clip(|b|, |from|, 0)]) == Overlay(from, b)
  {}

  /** The sectors of a request inside the file are sectors of the file. */
  lemma SpanInside(length: nat, position: nat, n: nat)
    requires 0 < n && position + n <= length
    ensures var first, last := position / SectorSize, (position + n - 1) / SectorSize;
      && first <= last < DivRoundUp(length) && first * SectorSize <= position
      && position + n <= (last + 1) * SectorSize
  {}

  lemma SliceIs(d: Image, h: Header, buf: seq<byte>, first: nat, position: nat, n: nat)
    requires ValidImage(d) && ValidHeader(h) && first * SectorSize <= position && position + n <= h.numBytes
    requires position + n <= first * SectorSize + |buf| <= h.numSectors * SectorSize
    requires forall k | 0 <= k < |buf| :: buf[k] == RawByte(d, h, first * SectorSize + k)
    ensures var skip := position - first * SectorSize;
      buf[skip..skip + n] == Contents(d, h)[position..position + n]
  {
    hide RawByte;
  }

  // ---------------------------------------------------- sectors written over

  /** Bytes at * SectorSize and on of a buffer. */
  function Chunk(b: seq<byte>, at: nat): (c: seq<byte>)
    requires (at + 1) * SectorSize <= |b|
    ensures |c| == SectorSize
  {
    b[at * SectorSize..(at + 1) * SectorSize]
  }

  /** d is d0 with sectors ds[first] to ds[i - 1] taken from the buffer b. */
  predicate Overwritten(d0: Image, d: Image, ds: seq<int>, b: seq<byte>, first: nat, i: nat)
    requires first <= i <= |ds| && (i - first) * SectorSize <= |b|
    requires ValidImage(d0) && forall j | first <= j < i :: 0 <= ds[j] < NumSectors
  {
    && ValidImage(d)
    && (forall j | first <= j < i :: d[ds[j]] == Chunk(b, j - first))
    && (forall s | 0 <= s < NumSectors && s !in ds[first..i] :: d[s] == d0[s])
  }

  lemma ChunkIs(b: seq<byte>, at: nat)
    requires (at + 1) * SectorSize <= |b|
    ensures b[at * SectorSize..at * SectorSize + SectorSize] == Chunk(b, at)
  {}

  lemma OverwriteNone(d: Image, ds: seq<int>, b: seq<byte>, first: nat)
    requires first <= |ds| && ValidImage(d)
    ensures Overwritten(d, d, ds, b, first, first)
  {}

  lemma OverwriteNext(d0: Image, d: Image, ds: seq<int>, b: seq<byte>, first: nat, i: nat)
    requires first <= i < |ds| && (i + 1 - first) * SectorSize <= |b| && NoDup(ds)
    requires ValidImage(d0) && forall j | 0 <= j < |ds| :: 0 <= ds[j] < NumSectors
    requires Overwritten(d0, d, ds, b, first, i)
    ensures Overwritten(d0, d[ds[i] := Chunk(b, i - first)], ds, b, first, i + 1)
  {
    hide Chunk;
    var d' := d[ds[i] := Chunk(b, i - first)];
    assert ds[first..i + 1] == ds[first..i] + [ds[i]];
    forall j | first <= j < i ensures d'[ds[j]] == Chunk(b, j - first) { assert ds[j] != ds[i]; }
  }

  /** If the buffer agrees with the wanted bytes wherever the file has any, the
      file becomes the wanted bytes. */
  lemma OverwriteContents(d0: Image, d: Image, h: Header, b: seq<byte>, first: nat, last: nat, want: seq<byte>)
    requires ValidHeader(h) && ValidImage(d0) && NoDup(DataSectors(h))
    requires first <= last < h.numSectors && |b| == (last + 1 - first) * SectorSize
    requires Overwritten(d0, d, DataSectors(h), b, first, last + 1) && |want| == h.numBytes
    requires forall k | 0 <= k < |b| && first * SectorSize + k < h.numBytes :: b[k] == want[first * SectorSize + k]
    requires forall k | 0 <= k < h.numBytes && !(first <= k / SectorSize <= last) :: want[k] == Contents(d0, h)[k]
    ensures Contents(d, h) == want
  {
    forall k | 0 <= k < h.numBytes ensures Contents(d, h)[k] == want[k] {
      var j := k / SectorSize;
      if first <= j <= last {
        ChunkByte(b, first, j, k);
      } else {
        Elsewhere(DataSectors(h), first, last + 1, j);
      }
    }
  }

  lemma ChunkByte(b: seq<byte>, first: nat, j: nat, k: nat)
    requires first <= j == k / SectorSize && (j + 1 - first) * SectorSize <= |b|
    ensures 0 <= k - first * SectorSize < |b| && Chunk(b, j - first)[k % SectorSize] == b[k - first * SectorSize]
  {
    assert k == j * SectorSize + k % SectorSize;
  }

  lemma Elsewhere(ds: seq<int>, first: nat, end: nat, j: nat)
    requires NoDup(ds) && first <= end <= |ds| && j < |ds| && !(first <= j < end)
    ensures ds[j] !in ds[first..end]
  {}

  class OpenFile {
    const disk: Disk
    const hdr: FileHeader
    var seekPosition: int

    ghost predicate Valid()
      reads hdr, hdr.dataSectors, disk
    {
      disk.Valid() && hdr.Valid() && ValidHeader(hdr.Value())
    }

    /** The file's bytes, as they are on the disk. */
    ghost function Bytes(): seq<byte>
      reads hdr, hdr.dataSectors, disk
      requires Valid()
    {
      Contents(disk.sectors, hdr.Value())
    }

    constructor (disk: Disk, sector: nat)
      requires disk.Valid() && sector < NumSectors && ValidHeader(Decode(disk.sectors[sector]))
      ensures Valid() && this.disk == disk && fresh(hdr) && fresh(hdr.dataSectors)
      ensures hdr.Value() == Decode(disk.sectors[sector]) && seekPosition == 0
    {
      this.disk := disk;
      hdr := new FileHeader();
      seekPosition := 0;
      new;
      hdr.FetchFrom(disk, sector);
    }

    /** Sectors first to last of the file, whole. */
    method ReadSectors(first: nat, last: nat) returns (buf: array<byte>)
      requires Valid() && first <= last < hdr.numSectors
      ensures fresh(buf) && buf.Length == (last + 1 - first) * SectorSize
      ensures forall k | 0 <= k < buf.Length :: buf[k] == RawByte(disk.sectors, hdr.Value(), first * SectorSize + k)
    {
      buf := new byte[(last + 1 - first) * SectorSize];
      var i := first;
      while i <= last
        invariant first <= i <= last + 1
        invariant forall k | 0 <= k < (i - first) * SectorSize ::
          buf[k] == RawByte(disk.sectors, hdr.Value(), first * SectorSize + k)
      {
        var at := (i - first) * SectorSize;
        disk.ReadSector(hdr.dataSectors[i], buf, at);
        forall k | 0 <= k < (i + 1 - first) * SectorSize
          ensures buf[k] == RawByte(disk.sectors, hdr.Value(), first * SectorSize + k)
        {
          if k >= at { RawSector(disk.sectors, hdr.Value(), i, k - at); }
        }
        i := i + 1;
      }
    }

    /** ReadAt: the part of the file asked for, cut at its end; nothing else of the
        buffer changes. */
    method ReadAt(into: array<byte>, at: nat, numBytes: int, position: nat) returns (n: nat)
      requires Valid() && at + Clip(hdr.numBytes, numBytes, position) <= into.Length
      modifies into
      ensures n == Clip(hdr.numBytes, numBytes, position)
      ensures into[..] == if n == 0 then old(into[..])
        else old(into[..at]) + Bytes()[position..position + n] + old(into[at + n..])
    {
      hide Contents, RawByte;
      n := Clip(hdr.numBytes, numBytes, position);
      if n == 0 { return; }
      var first, last := position / SectorSize, (position + n - 1) / SectorSize;
      SpanInside(hdr.numBytes, position, n);
      var buf := ReadSectors(first, last);
      var skip := position - first * SectorSize;
      SliceIs(disk.sectors, hdr.Value(), buf[..], first, position, n);
      forall i | 0 <= i < n { into[at + i] := buf[skip + i]; }
    }

    /** ReadAt of one sector of the file into its place in a buffer. */
    method ReadBack(buf: array<byte>, at: nat, i: nat)
      requires Valid() && i < hdr.numSectors && at + SectorSize <= buf.Length
      modifies buf
      ensures forall k | 0 <= k < buf.Length ::
        buf[k] == if at <= k < at + SectorSize && i * SectorSize + (k - at) < hdr.numBytes
          then Bytes()[i * SectorSize + (k - at)] else old(buf[k])
    {
      hide Contents;
      var n := ReadAt(buf, at, SectorSize, i * SectorSize);
      ghost var now := buf[..];
      assert forall k | 0 <= k < buf.Length :: buf[k] == now[k];
    }

    /** A buffer for sectors first to last, with the bytes that a write leaves alone
        read in.  Past the end of the file it holds nothing in particular. */
    method ReadEnds(n: nat, position: nat, first: nat, last: nat) returns (buf: array<byte>)
      requires Valid() && 0 < n && position + n <= hdr.numBytes
      requires first * SectorSize <= position < (first + 1) * SectorSize
      requires last * SectorSize < position + n <= (last + 1) * SectorSize
      ensures fresh(buf) && buf.Length == (last + 1 - first) * SectorSize
      ensures forall k | 0 <= k < buf.Length ::
        var at := first * SectorSize + k;
        at < position || position + n <= at < hdr.numBytes ==> buf[k] == Bytes()[at]
    {
      hide Contents;
      buf := new byte[(last + 1 - first) * SectorSize];
      var start, lastAt := first * SectorSize, (last - first) * SectorSize;
      var firstAligned := position == start;
      var lastAligned := position + n == (last + 1) * SectorSize;
      if !firstAligned { ReadBack(buf, 0, first); }
      if !lastAligned && (first != last || firstAligned) { ReadBack(buf, lastAt, last); }
    }

    method FillBuffer(from: seq<byte>, n: nat, position: nat, first: nat, last: nat) returns (buf: array<byte>)
      requires Valid() && 0 < n <= |from| && position + n <= hdr.numBytes
      requires first * SectorSize <= position < (first + 1) * SectorSize
      requires last * SectorSize < position + n <= (last + 1) * SectorSize
      ensures fresh(buf) && buf.Length == (last + 1 - first) * SectorSize
      ensures forall k | 0 <= k < buf.Length && first * SectorSize + k < hdr.numBytes ::
        buf[k] == Splice(Bytes(), position, from[..n])[first * SectorSize + k]
    {
      hide Contents;
      buf := ReadEnds(n, position, first, last);
      var skip := position - first * SectorSize;
      forall i | 0 <= i < n { buf[skip + i] := from[i]; }
    }

    /** The buffer written over sectors first to last of the file. */
    method WriteSectors(buf: array<byte>, first: nat, last: nat)
      requires Valid() && first <= last < hdr.numSectors && buf.Length == (last + 1 - first) * SectorSize
      requires NoDup(DataSectors(hdr.Value()))
      modifies disk
      ensures Valid()
      ensures Overwritten(old(disk.sectors), disk.sectors, DataSectors(hdr.Value()), buf[..], first, last + 1)
    {
      hide Overwritten, Chunk;
      ghost var ds := DataSectors(hdr.Value());
      OverwriteNone(disk.sectors, ds, buf[..], first);
      var i := first;
      while i <= last
        invariant first <= i <= last + 1 && Valid()
        invariant Overwritten(old(disk.sectors), disk.sectors, ds, buf[..], first, i)
      {
        OverwriteNext(old(disk.sectors), disk.sectors, ds, buf[..], first, i);
        assert buf[(i - first) * SectorSize..(i - first) * SectorSize + SectorSize] == Chunk(buf[..], i - first) by {
          ChunkIs(buf[..], i - first);
        }
        disk.WriteSector(hdr.dataSectors[i], buf, (i - first) * SectorSize);
        i := i + 1;
      }
    }

    /** WriteAt: the file is the old one with the bytes written over, cut at its
        end, and no sector but the file's own data sectors changes. */
    method WriteAt(from: seq<byte>, numBytes: int, position: nat) returns (n: nat)
      requires Valid() && numBytes <= |from| && NoDup(DataSectors(hdr.Value()))
      modifies disk
      ensures Valid() && n == Clip(hdr.numBytes, numBytes, position)
      ensures Bytes() == Splice(old(Bytes()), position, from[..n])
      ensures forall s | 0 <= s < NumSectors && s !in DataSectors(hdr.Value()) ::
        disk.sectors[s] == old(disk.sectors[s])
      ensures n == 0 ==> disk.sectors == old(disk.sectors)
    {
      n := Clip(hdr.numBytes, numBytes, position);
      if n == 0 { return; }
      var first, last := position / SectorSize, (position + n - 1) / SectorSize;
      var buf := FillBuffer(from, n, position, first, last);
      WriteSectors(buf, first, last);
      ghost var want := Splice(old(Bytes()), position, from[..n]);
      OverwriteContents(old(disk.sectors), disk.sectors, hdr.Value(), buf[..], first, last, want);
    }

    /** ReadAt from the start, over the bytes that are in memory. */
    method ReadOver(under: seq<byte>) returns (b: seq<byte>)
      requires Valid()
      ensures b == Overlay(Bytes(), under)
    {
      hide Contents;
      var buf := new byte[|under|](i requires 0 <= i < |under| => under[i]);
      assert buf[..] == under;
      var _ := ReadAt(buf, 0, |under|, 0);
      b := buf[..];
    }

    method Seek(position: int)
      modifies this
      ensures seekPosition == position
    {
      seekPosition := position;
    }

    method Read(into: array<byte>, numBytes: int) returns (n: nat)
      requires Valid() && seekPosition >= 0 && Clip(hdr.numBytes, numBytes, seekPosition) <= into.Length
      modifies into, `seekPosition
      ensures Valid() && n == Clip(hdr.numBytes, numBytes, old(seekPosition)) && seekPosition == old(seekPosition) + n
      ensures into[..] ==
        if n == 0 then old(into[..]) else Bytes()[old(seekPosition)..seekPosition] + old(into[n..])
    {
      hide Contents, ValidHeader, Clip;
      n := ReadAt(into, 0, numBytes, seekPosition);
      seekPosition := seekPosition + n;
    }

    method Write(from: seq<byte>, numBytes: int) returns (n: nat)
      requires Valid() && seekPosition >= 0 && numBytes <= |from| && NoDup(DataSectors(hdr.Value()))
      modifies disk, `seekPosition
      ensures Valid() && n == Clip(hdr.numBytes, numBytes, old(seekPosition)) && seekPosition == old(seekPosition) + n
      ensures Bytes() == Splice(old(Bytes()), old(seekPosition), from[..n])
      ensures forall s | 0 <= s < NumSectors && s !in DataSectors(hdr.Value()) ::
        disk.sectors[s] == old(disk.sectors[s])
    {
      hide Contents, ValidHeader, Clip, Splice;
      n := WriteAt(from, numBytes, seekPosition);
      seekPosition := seekPosition + n;
    }
  }

  /** What was written is read back, and a second write at the same place wins. */
  lemma SpliceReads(b: seq<byte>, position: nat, data: seq<byte>, data': seq<byte>)
    requires data != [] && |data'| == |data| && position + |data| <= |b|
    ensures Splice(b, position, data)[position..position + |data|] == data
    ensures Splice(Splice(b, position, data), position, data') == Splice(b, position, data')
  {}
}
