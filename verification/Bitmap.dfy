/** Bitmap of lib/bitmap.cc: bits packed in words. */
module Bitmaps {
  import opened Words

  // ---------------------------------------------------- a bitmap as a sequence

  /** The first clear bit from i on, or the number of bits. */
  function FirstClear(bits: seq<bool>, i: nat): (k: nat)
    requires i <= |bits|
    ensures i <= k <= |bits| && (forall j | i <= j < k :: bits[j]) && (k < |bits| ==> !bits[k])
    decreases |bits| - i
  {
    if i == |bits| || !bits[i] then i else FirstClear(bits, i + 1)
  }

  /** How many of the first n bits are clear. */
  function ClearBelow(bits: seq<bool>, n: nat): nat
    requires n <= |bits|
  {
    if n == 0 then 0 else ClearBelow(bits, n - 1) + if bits[n - 1] then 0 else 1
  }

  function NumClear(bits: seq<bool>): nat { ClearBelow(bits, |bits|) }

  lemma {:induction false} ClearBelowSet(bits: seq<bool>, k: nat, n: nat)
    requires k < |bits| && !bits[k] && n <= |bits|
    ensures ClearBelow(bits[k := true], n) == ClearBelow(bits, n) - if k < n then 1 else 0
  {
    if n > 0 { ClearBelowSet(bits, k, n - 1); }
  }

  lemma {:induction false} ClearBelowSame(bits: seq<bool>, n: nat)
    requires n <= |bits| && forall j | 0 <= j < n :: bits[j]
    ensures ClearBelow(bits, n) == 0
  {
    if n > 0 { ClearBelowSame(bits, n - 1); }
  }

  lemma {:induction false} ClearBelowSome(bits: seq<bool>, k: nat, n: nat)
    requires k < n <= |bits| && !bits[k]
    ensures ClearBelow(bits, n) > 0
  {
    if k < n - 1 { ClearBelowSome(bits, k, n - 1); }
  }

  /** There is a clear bit to find exactly when the count is not zero; setting it
      takes one off the count. */
  lemma FindsOne(bits: seq<bool>)
    ensures var k := FirstClear(bits, 0);
      && (k < |bits| <==> NumClear(bits) > 0)
      && (k < |bits| ==> NumClear(bits[k := true]) == NumClear(bits) - 1)
  {
    var k := FirstClear(bits, 0);
    if k < |bits| {
      ClearBelowSome(bits, k, |bits|);
      ClearBelowSet(bits, k, |bits|);
    } else {
      ClearBelowSame(bits, |bits|);
    }
  }

  // ------------------------------------------------------------- bits in words

  lemma {:induction false} Pow2Grows(i: nat, j: nat)
    requires i <= j
    ensures Pow2(i) <= Pow2(j)
  {
    if i < j { Pow2Grows(i, j - 1); }
  }

  /** The word with only bit k set: 1 << k. */
  function Mask(k: nat): word
    requires k < 32
  {
    Pow2Grows(k, 31);
    Pow2Values();
    Pow2(k)
  }

  lemma SetsBit(w: word, k: nat, i: nat)
    requires k < 32 && i < 32
    ensures Bit(Or(w, Mask(k)), i) == (Bit(w, i) || i == k)
  {
    LogicBit(OrOp, 32, w, Pow2(k), i);
    Pow2Bit(k, i);
  }

  lemma ClearsBit(w: word, k: nat, i: nat)
    requires k < 32 && i < 32
    ensures Bit(And(w, Not(Mask(k))), i) == (Bit(w, i) && i != k)
  {
    hide Logic, Bit;
    var m := Not(Mask(k));
    LogicBit(AndOp, 32, w, m, i);
    Pow2Values();
    NotBit(32, Mask(k), i);
    Pow2Bit(k, i);
  }

  lemma TestsBit(w: word, k: nat)
    requires k < 32
    ensures And(w, Mask(k)) != 0 <==> Bit(w, k)
  {
    hide Logic, Bit;
    var r := And(w, Mask(k));
    LogicBit(AndOp, 32, w, Pow2(k), k);
    Pow2Bit(k, k);
    ZeroBit(k);
    if !Bit(w, k) {
      Pow2Values();
      forall i | 0 <= i < 32 ensures Bit(r, i) == Bit(0, i) {
        LogicBit(AndOp, 32, w, Pow2(k), i);
        Pow2Bit(k, i);
        ZeroBit(i);
      }
      SameBits(32, r, 0);
    }
  }

  /** The first n bits of a sequence of words. */
  function BitsOf(words: seq<word>, n: nat): (bits: seq<bool>)
    requires n <= 32 * |words|
  {
    seq(n, i requires 0 <= i < n => Bit(words[i / 32], i % 32))
  }

  lemma MarkWord(words: seq<word>, n: nat, which: nat)
    requires which < n <= 32 * |words|
    ensures BitsOf(words[which / 32 := Or(words[which / 32], Mask(which % 32))], n) == BitsOf(words, n)[which := true]
  {
    hide Bit, Or, Mask;
    var words' := words[which / 32 := Or(words[which / 32], Mask(which % 32))];
    forall i | 0 <= i < n ensures BitsOf(words', n)[i] == BitsOf(words, n)[which := true][i] {
      SetsBit(words[which / 32], which % 32, i % 32);
    }
  }

  lemma ClearWord(words: seq<word>, n: nat, which: nat)
    requires which < n <= 32 * |words|
    ensures BitsOf(words[which / 32 := And(words[which / 32], Not(Mask(which % 32)))], n) ==
      BitsOf(words, n)[which := false]
  {
    hide Bit, And, Not, Mask;
    var words' := words[which / 32 := And(words[which / 32], Not(Mask(which % 32)))];
    forall i | 0 <= i < n ensures BitsOf(words', n)[i] == BitsOf(words, n)[which := false][i] {
      ClearsBit(words[which / 32], which % 32, i % 32);
    }
  }

  class Bitmap {
    const numBits: nat
    const words: array<word>

    predicate Valid() { 0 < numBits && words.Length == (numBits + 31) / 32 }

    ghost function Bits(): (bits: seq<bool>)
      reads words
      requires Valid()
      ensures |bits| == numBits
    {
      BitsOf(words[..], numBits)
    }

    constructor (numItems: nat)
      requires numItems > 0
      ensures Valid() && fresh(words) && numBits == numItems
      ensures Bits() == seq(numItems, _ => false)
    {
      numBits := numItems;
      words := new word[(numItems + 31) / 32](_ => 0);
      new;
      forall i | 0 <= i < numBits ensures !Bits()[i] { ZeroBit(i % 32); }
    }

    method Test(which: nat) returns (b: bool)
      requires Valid() && which < numBits
      ensures b == Bits()[which]
    {
      TestsBit(words[which / 32], which % 32);
      b := And(words[which / 32], Mask(which % 32)) != 0;
    }

    method Mark(which: nat)
      requires Valid() && which < numBits
      modifies words
      ensures Bits() == old(Bits())[which := true]
    {
      MarkWord(words[..], numBits, which);
      words[which / 32] := Or(words[which / 32], Mask(which % 32));
      assert words[..] == old(words[..])[which / 32 := words[which / 32]];
    }

    method Clear(which: nat)
      requires Valid() && which < numBits
      modifies words
      ensures Bits() == old(Bits())[which := false]
    {
      ClearWord(words[..], numBits, which);
      words[which / 32] := And(words[which / 32], Not(Mask(which % 32)));
      assert words[..] == old(words[..])[which / 32 := words[which / 32]];
    }

    /** The first clear bit, now set, or -1 if there is none. */
    method FindAndSet() returns (k: int)
      requires Valid()
      modifies words
      ensures var first := FirstClear(old(Bits()), 0);
        if first < numBits then k == first && Bits() == old(Bits())[first := true]
        else k == -1 && Bits() == old(Bits())
    {
      var i := 0;
      while i < numBits
        invariant i <= numBits && words[..] == old(words[..])
        invariant FirstClear(Bits(), 0) == FirstClear(Bits(), i)
      {
        var b := Test(i);
        if !b {
          Mark(i);
          return i;
        }
        i := i + 1;
      }
      return -1;
    }

    method CountClear() returns (count: nat)
      requires Valid()
      ensures count == NumClear(Bits())
    {
      count := 0;
      for i := 0 to numBits
        invariant count == ClearBelow(Bits(), i)
      {
        var b := Test(i);
        if !b { count := count + 1; }
      }
    }
  }
}
