/** 32-bit words, their signed reading and the bitwise operations on them.  A word
    is a natural number; C's wrap-around is written out with %. */
module Words {

  const WORD := 0x1_0000_0000

  type word = x: int | 0 <= x < WORD
  type int32 = x: int | -0x8000_0000 <= x < 0x8000_0000
  type byte = x: int | 0 <= x < 256

  function Abs(x: int): nat { if x < 0 then 0 - x else x }

  function Wrap(x: int): word { x % WORD }

  /** The cast from unsigned to int. */
  function Signed(w: word): int32 {
    if w < 0x8000_0000 then w else w - WORD
  }

  /** The cast from int to unsigned. */
  function Unsigned(x: int32): word {
    if x < 0 then x + WORD else x
  }

  lemma CastsInvert(w: word)
    ensures Unsigned(Signed(w)) == w
  {}

  function Pow2(n: nat): (p: nat)
    ensures p > 0
  {
    if n == 0 then 1 else 2 * Pow2(n - 1)
  }

  lemma Pow2Values()
    ensures Pow2(8) == 0x100 && Pow2(16) == 0x1_0000 && Pow2(24) == 0x100_0000 && Pow2(32) == WORD
  {
    assert Pow2(8) == 0x100;
    assert Pow2(16) == 0x1_0000;
    assert Pow2(24) == 0x100_0000;
  }

  // ------------------------------------------------------------------- bytes

  /** Byte i of a number, the lowest first. */
  function ByteOf(w: nat, i: nat): byte
    decreases i
  {
    if i == 0 then w % 0x100 else ByteOf(w / 0x100, i - 1)
  }

  function LittleEndian(b0: byte, b1: byte, b2: byte, b3: byte): word {
    b0 + 0x100 * (b1 + 0x100 * (b2 + 0x100 * b3))
  }

  lemma WordBytes(w: word)
    ensures LittleEndian(ByteOf(w, 0), ByteOf(w, 1), ByteOf(w, 2), ByteOf(w, 3)) == w
  {
    var q1 := w / 0x100;
    var q2 := q1 / 0x100;
    var q3 := q2 / 0x100;
    assert q3 % 0x100 == q3;
    assert ByteOf(w, 1) == q1 % 0x100;
    assert ByteOf(w, 2) == ByteOf(q1, 1) == q2 % 0x100;
    assert ByteOf(w, 3) == ByteOf(q1, 2) == ByteOf(q2, 1) == q3 % 0x100;
  }

  lemma LowByte(b: byte, q: nat)
    ensures (b + 0x100 * q) % 0x100 == b && (b + 0x100 * q) / 0x100 == q
  {}

  lemma BytesWord(b0: byte, b1: byte, b2: byte, b3: byte)
    ensures var v := LittleEndian(b0, b1, b2, b3);
      ByteOf(v, 0) == b0 && ByteOf(v, 1) == b1 && ByteOf(v, 2) == b2 && ByteOf(v, 3) == b3
  {
    var v := LittleEndian(b0, b1, b2, b3);
    LowByte(b0, b1 + 0x100 * (b2 + 0x100 * b3));
    LowByte(b1, b2 + 0x100 * b3);
    LowByte(b2, b3);
    LowByte(b3, 0);
    assert ByteOf(v, 1) == ByteOf(b1 + 0x100 * (b2 + 0x100 * b3), 0);
    assert ByteOf(v, 2) == ByteOf(b1 + 0x100 * (b2 + 0x100 * b3), 1) == ByteOf(b2 + 0x100 * b3, 0);
    assert ByteOf(v, 3) == ByteOf(b1 + 0x100 * (b2 + 0x100 * b3), 2) == ByteOf(b2 + 0x100 * b3, 1) == ByteOf(b3, 0);
  }

  // ------------------------------------------------------- bitwise operations

  datatype LogicOp = AndOp | OrOp | XorOp | NorOp

  predicate Apply(op: LogicOp, x: bool, y: bool) {
    match op
    case AndOp => x && y
    case OrOp => x || y
    case XorOp => x != y
    case NorOp => !(x || y)
  }

  /** The operation on the n low bits of a and b. */
  function Logic(op: LogicOp, n: nat, a: nat, b: nat): (r: nat)
    ensures r < Pow2(n)
  {
    if n == 0 then 0
    else (if Apply(op, a % 2 == 1, b % 2 == 1) then 1 else 0) + 2 * Logic(op, n - 1, a / 2, b / 2)
  }

  function Bitwise(op: LogicOp, a: word, b: word): word {
    Pow2Values();
    Logic(op, 32, a, b)
  }

  function And(a: word, b: word): word { Bitwise(AndOp, a, b) }
  function Or(a: word, b: word): word { Bitwise(OrOp, a, b) }
  function Not(a: word): word { WORD - 1 - a }

  predicate Bit(a: nat, i: nat)
    decreases i
  {
    if i == 0 then a % 2 == 1 else Bit(a / 2, i - 1)
  }

  lemma {:induction false} LogicBit(op: LogicOp, n: nat, a: nat, b: nat, i: nat)
    requires i < n
    ensures Bit(Logic(op, n, a, b), i) == Apply(op, Bit(a, i), Bit(b, i))
  {
    var r := Logic(op, n - 1, a / 2, b / 2);
    assert Logic(op, n, a, b) / 2 == r;
    if i > 0 { LogicBit(op, n - 1, a / 2, b / 2, i - 1); }
  }

  lemma {:induction false} Pow2Bit(i: nat, j: nat)
    ensures Bit(Pow2(i), j) <==> i == j
  {
    if i > 0 && j > 0 {
      Pow2Bit(i - 1, j - 1);
    } else if j > 0 {
      ZeroBit(j - 1);
    }
  }

  lemma {:induction false} ZeroBit(j: nat)
    ensures !Bit(0, j)
  {
    if j > 0 { ZeroBit(j - 1); }
  }

  lemma {:induction false} NotBit(n: nat, a: nat, i: nat)
    requires a < Pow2(n) && i < n
    ensures Bit(Pow2(n) - 1 - a, i) == !Bit(a, i)
  {
    if i > 0 {
      assert (Pow2(n) - 1 - a) / 2 == Pow2(n - 1) - 1 - a / 2;
      NotBit(n - 1, a / 2, i - 1);
    }
  }

  /** Two numbers with the same n low bits and nothing above are equal. */
  lemma {:induction false} SameBits(n: nat, a: nat, b: nat)
    requires a < Pow2(n) && b < Pow2(n) && forall i | 0 <= i < n :: Bit(a, i) == Bit(b, i)
    ensures a == b
  {
    if n > 0 {
      assert Bit(a, 0) == Bit(b, 0);
      forall i | 0 <= i < n - 1 ensures Bit(a / 2, i) == Bit(b / 2, i) {
        assert Bit(a, i + 1) == Bit(b, i + 1);
      }
      SameBits(n - 1, a / 2, b / 2);
    }
  }

  // --------------------------------------- masks and merges as plain arithmetic

  lemma HalfMod(x: nat, p: nat)
    requires p > 0
    ensures x % (2 * p) == x % 2 + 2 * ((x / 2) % p)
  {
    var q, r := (x / 2) / p, (x / 2) % p;
    DivMod(x / 2, p);
    assert q * (2 * p) == 2 * (q * p);
    ModUnique(x, 2 * p, q, x % 2 + 2 * r);
  }

  lemma DivMod(x: nat, d: nat)
    requires d > 0
    ensures x == (x / d) * d + x % d && 0 <= x % d < d
  {}

  lemma ModUnique(x: nat, d: nat, q: nat, r: nat)
    requires d > 0 && x == q * d + r && r < d
    ensures x % d == r && x / d == q
  {
    DivMod(x, d);
    var q1 := x / d;
    Apart(q, q1, d);
    Apart(q1, q, d);
  }

  lemma Apart(a: nat, b: nat, d: nat)
    ensures a < b ==> a * d + d <= b * d
  {
    if a < b {
      var c := b - a - 1;
      assert (a + 1 + c) * d == a * d + d + c * d;
    }
  }

  lemma Pow2Step(k: nat)
    requires k > 0
    ensures Pow2(k) == 2 * Pow2(k - 1)
  {}

  lemma AndStep(n: nat, x: nat, m: nat)
    requires n > 0
    ensures Logic(AndOp, n, x, 2 * m + 1) == x % 2 + 2 * Logic(AndOp, n - 1, x / 2, m)
    ensures Logic(AndOp, n, x, 2 * m) == 2 * Logic(AndOp, n - 1, x / 2, m)
  {
    assert (2 * m + 1) / 2 == m && (2 * m + 1) % 2 == 1;
    assert (2 * m) / 2 == m && (2 * m) % 2 == 0;
    hide Pow2;
  }

  lemma {:induction false} MaskLow(n: nat, k: nat, x: nat)
    requires k <= n
    ensures Logic(AndOp, n, x, Pow2(k) - 1) == x % Pow2(k)
  {
    hide Logic, Pow2;
    if k == 0 {
      Pow2Zero();
      AndZero(n, x);
    } else {
      var p := Pow2(k - 1);
      Pow2Step(k);
      AndStep(n, x, p - 1);
      HalfMod(x, p);
      MaskLow(n - 1, k - 1, x / 2);
    }
  }

  lemma {:induction false} AndZero(n: nat, x: nat)
    ensures Logic(AndOp, n, x, 0) == 0
  {
    if n > 0 { AndZero(n - 1, x / 2); }
  }

  lemma {:induction false} MaskHigh(n: nat, k: nat, x: nat)
    requires k <= n && x < Pow2(n)
    ensures Pow2(k) <= Pow2(n) && Logic(AndOp, n, x, Pow2(n) - Pow2(k)) == x - x % Pow2(k)
  {
    hide Logic, Pow2;
    if k == 0 {
      MaskLow(n, n, x);
      ModUnique(x, Pow2(n), 0, x);
      assert Pow2(0) == 1 by { Pow2Zero(); }
    } else {
      Pow2Step(k);
      Pow2Step(n);
      HalfMod(x, Pow2(k - 1));
      MaskHigh(n - 1, k - 1, x / 2);
      AndStep(n, x, Pow2(n - 1) - Pow2(k - 1));
    }
  }

  lemma Pow2Zero()
    ensures Pow2(0) == 1
  {}

  lemma {:induction false} OrSum(n: nat, k: nat, lo: nat, m: nat)
    requires k <= n && lo < Pow2(k) && lo + m * Pow2(k) < Pow2(n)
    ensures Logic(OrOp, n, lo, m * Pow2(k)) == lo + m * Pow2(k)
  {
    if k == 0 {
      OrZero(n, m);
    } else {
      assert m * Pow2(k) == 2 * (m * Pow2(k - 1));
      OrSum(n - 1, k - 1, lo / 2, m);
    }
  }

  lemma {:induction false} OrZero(n: nat, m: nat)
    requires m < Pow2(n)
    ensures Logic(OrOp, n, 0, m) == m
  {
    if n > 0 { OrZero(n - 1, m / 2); }
  }
}
