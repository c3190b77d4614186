/** The shift-and-add multiplication of the simulator (Mult in
    machine/mipssim.cc). */
module Multiply {
  import opened Words

  lemma MulMono(b: nat, x: nat, bMax: nat, xMax: nat)
    requires b <= bMax && x <= xMax
    ensures b * x <= bMax * xMax
  {
    assert b * (xMax - x) >= 0;
    assert (bMax - b) * xMax >= 0;
  }

  /** Splitting off the lowest remaining bit of the multiplier. */
  lemma NextBit(rest: nat, p: nat, low: nat)
    ensures rest * p + low == (rest / 2) * (2 * p) + (if rest % 2 == 1 then low + p else low)
  {
    var h := rest / 2;
    assert h * (2 * p) == 2 * h * p;
    if rest % 2 == 1 {
      assert rest == 2 * h + 1;
      assert (2 * h + 1) * p == 2 * h * p + p;
    } else {
      assert rest == 2 * h;
    }
  }

  lemma Weights(p: nat, q: nat)
    requires p * q == WORD && q % 2 == 0
    ensures 2 * p <= WORD && (2 * p) * (q / 2) == WORD
  {
    var h := q / 2;
    assert q == 2 * h;
    assert p * (2 * h) == (2 * p) * h;
    assert h != 0;
    assert (2 * p) * (h - 1) >= 0;
  }

  /** The 64-bit number held in two words. */
  function Val(hi: word, lo: word): nat {
    hi * WORD + lo
  }

  /** One addition of the shifted multiplicand: the 64-bit sum is exact. */
  method AddShifted(hi: word, lo: word, bHi: word, bLo: word) returns (hi': word, lo': word)
    requires Val(hi, lo) + Val(bHi, bLo) < WORD * WORD
    ensures Val(hi', lo') == Val(hi, lo) + Val(bHi, bLo)
  {
    lo' := Wrap(lo + bLo);
    hi' := hi;
    if lo' < bLo {          // carry out of the low bits
      hi' := Wrap(hi' + 1);
    }
    hi' := Wrap(hi' + bHi);
  }

  /** One left shift of the 64-bit multiplicand. */
  method Double(bHi: word, bLo: word) returns (bHi': word, bLo': word)
    requires 2 * Val(bHi, bLo) < WORD * WORD
    ensures Val(bHi', bLo') == 2 * Val(bHi, bLo)
  {
    bHi' := Wrap(2 * bHi);
    if bLo >= 0x8000_0000 {
      bHi' := bHi' + 1;
    }
    bLo' := Wrap(2 * bLo);
  }

  /** The two's complement of a 64-bit number, word by word. */
  method Negate(hi: word, lo: word) returns (hi': word, lo': word)
    requires Val(hi, lo) > 0
    ensures Val(hi', lo') == WORD * WORD - Val(hi, lo)
  {
    hi', lo' := WORD - 1 - hi, WORD - 1 - lo;
    lo' := Wrap(lo' + 1);
    if lo' == 0 {
      hi' := Wrap(hi' + 1);
    }
  }

  /** The state of the main loop before the multiplier bit of weight p: low is the
      part of the multiplier already consumed, rest the part still to come, and
      rest < q where p * q == WORD. */
  datatype Ghosts = Ghosts(rest: nat, low: nat, p: nat, q: nat)

  ghost predicate Consumed(m: nat, b: word, product: nat, shifted: nat, g: Ghosts) {
    && m == g.rest * g.p + g.low && g.low < g.p && g.rest < g.q && g.p * g.q == WORD
    && product == b * g.low && shifted == b * g.p
  }

  function Advance(g: Ghosts): Ghosts {
    Ghosts(g.rest / 2, if g.rest % 2 == 1 then g.low + g.p else g.low, 2 * g.p, g.q / 2)
  }

  lemma AdvanceKeeps(m: nat, b: word, product: nat, shifted: nat, g: Ghosts)
    requires Consumed(m, b, product, shifted, g) && g.q % 2 == 0
    ensures Consumed(m, b, if g.rest % 2 == 1 then product + shifted else product, 2 * shifted, Advance(g))
    ensures product + shifted < WORD * WORD && 2 * shifted < WORD * WORD
  {
    NextBit(g.rest, g.p, g.low);
    Weights(g.p, g.q);
    Exact(b, g.low, g.p);
  }

  /** Neither the sum nor the shift of the multiplicand leaves 64 bits. */
  lemma Exact(b: word, low: nat, p: nat)
    requires low < p && 2 * p <= WORD
    ensures b * (low + p) == b * low + b * p && b * (2 * p) == 2 * (b * p)
    ensures b * low + b * p < WORD * WORD && 2 * (b * p) < WORD * WORD
  {
    MulMono(b, 2 * p, WORD - 1, WORD);
    MulMono(b, low + p, WORD - 1, WORD);
  }

  lemma AllConsumed(m: nat, b: word, product: nat, shifted: nat, g: Ghosts)
    requires Consumed(m, b, product, shifted, g) && g.rest == 0
    ensures product == m * b
  {}

  /** The multiplier variable after some arithmetic shifts to the right, with k
      bits still to come: its sign bits are never consumed. */
  ghost predicate Tracks(a0: int32, a: int32, g: Ghosts, k: nat) {
    g.q == Pow2(k) && g.rest < g.q && a == if a0 < 0 then g.rest - g.q else g.rest
  }

  lemma HalveMultiplier(a0: int32, a: int32, g: Ghosts, k: nat)
    requires k > 0 && Tracks(a0, a, g, k)
    ensures Tracks(a0, a / 2, Advance(g), k - 1) && g.q % 2 == 0 && a % 2 == g.rest % 2
    ensures (a == 0 || a == 1) ==> Advance(g).rest == 0
  {}

  /** The main loop: the product of a and b read as unsigned numbers, although a
      is shifted right arithmetically and the loop may stop early. */
  method UnsignedProduct(a0: int32, b: word) returns (hi: word, lo: word)
    ensures Val(hi, lo) == Unsigned(a0) * b
  {
    hide Consumed, Val, Pow2, Advance;
    var a: int32, bLo: word, bHi: word := a0, b, 0;
    lo, hi := 0, 0;
    ghost var m: nat := Unsigned(a0);
    ghost var g := Ghosts(m, 0, 1, WORD);
    Start(m, b);
    for i := 0 to 32
      invariant Consumed(m, b, Val(hi, lo), Val(bHi, bLo), g)
      invariant Tracks(a0, a, g, 32 - i)
    {
      HalveMultiplier(a0, a, g, 32 - i);
      AdvanceKeeps(m, b, Val(hi, lo), Val(bHi, bLo), g);
      if a % 2 == 1 {
        hi, lo := AddShifted(hi, lo, bHi, bLo);
        if a == 0 || a == 1 {
          AllConsumed(m, b, Val(hi, lo), 2 * Val(bHi, bLo), Advance(g));
          return;
        }
      }
      bHi, bLo := Double(bHi, bLo);
      a := a / 2;
      g := Advance(g);
    }
    AllConsumed(m, b, Val(hi, lo), Val(bHi, bLo), g);
  }

  lemma Start(m: word, b: word)
    ensures Consumed(m, b, Val(0, 0), Val(0, b), Ghosts(m, 0, 1, WORD)) && Pow2(32) == WORD && Pow2(0) == 1
  {
    Pow2Values();
  }

  /** The high and the low word of a 64-bit product. */
  function Split(v: int): (word, word) {
    (Wrap(v / WORD), Wrap(v))
  }

  function Magnitude(a: int32): word {
    if a < 0 then 0 - a else a
  }

  /** Mult: the exact 64-bit product, signed or unsigned, of any two words. */
  method Mult(a: int32, b: int32, signedArith: bool) returns (hi: int32, lo: int32)
    ensures !signedArith ==> Unsigned(hi) * WORD + Unsigned(lo) == Unsigned(a) * Unsigned(b)
    ensures signedArith ==> hi * WORD + Unsigned(lo) == a * b
    ensures (Unsigned(hi), Unsigned(lo)) == Split(if signedArith then a * b else Unsigned(a) * Unsigned(b))
  {
    hide Val, Split, Wrap, Signed, Unsigned, Magnitude;
    if a == 0 || b == 0 {
      ZeroProduct(a, b);
      return 0, 0;
    }
    var x, y, negative := a, b, false;
    if signedArith {
      if a < 0 {
        negative := !negative;
        x := Signed(Wrap(0 - a));
      }
      if b < 0 {
        negative := !negative;
        y := Signed(Wrap(0 - b));
      }
      SignAway(a);
      SignAway(b);
      SignedMagnitude(a, b);
    }
    var h, l := UnsignedProduct(x, Unsigned(y));
    if negative {
      h, l := Negate(h, l);
    }
    hi, lo := Signed(h), Signed(l);
    if signedArith {
      SignedResult(h, l, a * b);
    } else {
      UnsignedResult(h, l);
    }
  }

  lemma ZeroProduct(a: int32, b: int32)
    requires a == 0 || b == 0
    ensures a * b == 0 && Unsigned(a) * Unsigned(b) == 0 && Split(0) == (0, 0) && Unsigned(0) == 0
  {}

  lemma SignAway(a: int32)
    ensures Unsigned(if a < 0 then Signed(Wrap(0 - a)) else a) == Magnitude(a)
  {}

  lemma SignedMagnitude(a: int32, b: int32)
    requires a != 0 && b != 0
    ensures 0 < Magnitude(a) * Magnitude(b) <= 0x4000_0000_0000_0000
    ensures Magnitude(a) * Magnitude(b) == if (a < 0) != (b < 0) then 0 - a * b else a * b
  {
    MulMono(Magnitude(a), Magnitude(b), 0x8000_0000, 0x8000_0000);
    Signs(a, b);
  }

  lemma Signs(a: int, b: int)
    ensures (0 - a) * b == 0 - a * b && a * (0 - b) == 0 - a * b && (0 - a) * (0 - b) == a * b
    ensures a != 0 && b != 0 ==> a * b != 0
  {}

  /** A 64-bit two's complement number, with the high word read as signed. */
  lemma SignedResult(h: word, l: word, v: int)
    requires -0x4000_0000_0000_0000 <= v <= 0x4000_0000_0000_0000
    requires Val(h, l) == if v < 0 then WORD * WORD + v else v
    ensures Signed(h) * WORD + l == v && Split(v) == (h, l)
    ensures Unsigned(Signed(h)) == h && Unsigned(Signed(l)) == l
  {}

  lemma UnsignedResult(h: word, l: word)
    ensures Split(Val(h, l)) == (h, l) && Val(h, l) == h * WORD + l
    ensures Unsigned(Signed(h)) == h && Unsigned(Signed(l)) == l
  {}
}
