/** A bitmap kept in a file (filesys/pbitmap.cc): its words, byte by byte. */
module PersistentBitmaps {
  import opened Collections
  import opened Words
  import opened Bitmaps
  import opened FileHeaders
  import opened OpenFiles

  /** Bits in bytes: what the file holds. */
  function MapBits(b: seq<byte>, n: nat): (bits: seq<bool>)
    requires n <= 8 * |b|
    ensures |bits| == n
  {
    seq(n, i requires 0 <= i < n => Bit(b[i / 8], i % 8))
  }

  function WordsBytes(words: seq<word>): (b: seq<byte>)
    ensures |b| == 4 * |words|
  {
    seq(4 * |words|, k requires 0 <= k < 4 * |words| => ByteOf(words[k / 4], k % 4))
  }

  function BytesWords(b: seq<byte>, n: nat): (words: seq<word>)
    requires 4 * n <= |b|
    ensures |words| == n
  {
    seq(n, j requires 0 <= j < n => LittleEndian(b[4 * j], b[4 * j + 1], b[4 * j + 2], b[4 * j + 3]))
  }

  lemma HalfDiv(w: nat, p: nat)
    requires p > 0
    ensures (w / 2) / p == w / (2 * p)
  {
    var q, r := (w / 2) / p, (w / 2) % p;
    DivMod(w / 2, p);
    assert q * (2 * p) == 2 * (q * p);
    ModUnique(w, 2 * p, q, 2 * r + w % 2);
  }

  lemma {:induction false} BitShift(w: nat, k: nat, q: nat, j: nat)
    requires q == w / Pow2(k)
    ensures Bit(w, k + j) == Bit(q, j)
  {
    if k > 0 {
      HalfDiv(w, Pow2(k - 1));
      BitShift(w / 2, k - 1, q, j);
    }
  }

  lemma {:induction false} LowBit(w: nat, k: nat, r: nat, i: nat)
    requires i < k && r == w % Pow2(k)
    ensures Bit(r, i) == Bit(w, i)
  {
    hide Pow2;
    Pow2Step(k);
    HalfMod(w, Pow2(k - 1));
    assert r / 2 == (w / 2) % Pow2(k - 1) && r % 2 == w % 2;
    if i > 0 { LowBit(w / 2, k - 1, r / 2, i - 1); }
  }

  /** Bit 8c + r of a word is bit r of its byte c. */
  lemma {:induction false} ByteBit(w: nat, c: nat, r: nat)
    requires r < 8
    ensures Bit(ByteOf(w, c), r) == Bit(w, 8 * c + r)
    decreases c
  {
    hide Bit, Pow2;
    Pow2Values();
    if c == 0 {
      LowBit(w, 8, w % 0x100, r);
    } else {
      ByteBit(w / 0x100, c - 1, r);
      BitShift(w, 8, w / 0x100, 8 * (c - 1) + r);
    }
  }

  lemma BitPlace(i: nat)
    ensures i / 32 == (i / 8) / 4 && i % 32 == 8 * ((i / 8) % 4) + i % 8
  {
    var q, c, r := (i / 8) / 4, (i / 8) % 4, i % 8;
    assert i == 32 * q + (8 * c + r);
    ModUnique(i, 32, q, 8 * c + r);
  }

  /** Writing the words out keeps the bits, and reading them in does. */
  lemma WrittenBits(words: seq<word>, n: nat)
    requires n <= 32 * |words|
    ensures MapBits(WordsBytes(words), n) == BitsOf(words, n)
  {
    hide Bit, ByteOf;
    forall i | 0 <= i < n ensures MapBits(WordsBytes(words), n)[i] == BitsOf(words, n)[i] {
      BitPlace(i);
      ByteBit(words[i / 32], (i / 8) % 4, i % 8);
    }
  }

  lemma FetchedBits(b: seq<byte>, m: nat, n: nat)
    requires 4 * m <= |b| && n <= 32 * m
    ensures BitsOf(BytesWords(b, m), n) == MapBits(b, n)
  {
    hide Bit, ByteOf, LittleEndian;
    forall i | 0 <= i < n ensures BitsOf(BytesWords(b, m), n)[i] == MapBits(b, n)[i] {
      BitPlace(i);
      var q, c := i / 32, (i / 8) % 4;
      BytesWord(b[4 * q], b[4 * q + 1], b[4 * q + 2], b[4 * q + 3]);
      ByteBit(BytesWords(b, m)[q], c, i % 8);
      assert i / 8 == 4 * q + c;
    }
  }

  lemma BytesOfWords(b: seq<byte>, n: nat)
    requires |b| == 4 * n
    ensures WordsBytes(BytesWords(b, n)) == b
  {
    hide ByteOf, LittleEndian;
    forall k | 0 <= k < |b| ensures WordsBytes(BytesWords(b, n))[k] == b[k] {
      var j := k / 4;
      BytesWord(b[4 * j], b[4 * j + 1], b[4 * j + 2], b[4 * j + 3]);
    }
  }

  /** FetchFrom reads as much as the file has over the bytes of the map. */
  method FetchFrom(bitmap: Bitmap, file: OpenFile)
    requires bitmap.Valid() && file.Valid() && bitmap.words as object != file.hdr.dataSectors
    modifies bitmap.words
    ensures file.Valid() && WordsBytes(bitmap.words[..]) == Overlay(file.Bytes(), old(WordsBytes(bitmap.words[..])))
    ensures file.hdr.numBytes == 4 * bitmap.words.Length ==> bitmap.Bits() == MapBits(file.Bytes(), bitmap.numBits)
  {
    hide Contents, BitsOf, MapBits, WordsBytes, BytesWords, Overlay;
    var n := bitmap.words.Length;
    var b := file.ReadOver(WordsBytes(bitmap.words[..]));
    var words := BytesWords(b, n);
    forall j | 0 <= j < n { bitmap.words[j] := words[j]; }
    assert bitmap.words[..] == words;
    FetchedBits(b, n, bitmap.numBits);
    BytesOfWords(b, n);
  }

  /** WriteBack writes as much of the map as the file has room for. */
  method WriteBack(bitmap: Bitmap, file: OpenFile)
    requires bitmap.Valid() && file.Valid() && NoDup(DataSectors(file.hdr.Value()))
    modifies file.disk
    ensures file.Valid() && file.Bytes() == Overlay(WordsBytes(bitmap.words[..]), old(file.Bytes()))
    ensures file.hdr.numBytes == 4 * bitmap.words.Length ==> MapBits(file.Bytes(), bitmap.numBits) == bitmap.Bits()
    ensures forall s | 0 <= s < |file.disk.sectors| && s !in DataSectors(file.hdr.Value()) ::
      file.disk.sectors[s] == old(file.disk.sectors[s])
  {
    hide Contents, BitsOf, MapBits, WordsBytes, Overlay;
    var from := WordsBytes(bitmap.words[..]);
    SpliceOverlays(file.Bytes(), from);
    var _ := file.WriteAt(from, |from|, 0);
    WrittenBits(bitmap.words[..], bitmap.numBits);
  }
}
