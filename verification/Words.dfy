/**
 Unsigned 32-bit words and bytes as bounded integers, with the C operators on them:
 shifts are multiplication and division by powers of two (as the C standard defines
 them for unsigned operands), and the bitwise operators work bit by bit.
 */
module Words {
  const WORD_SIZE := 0x1_0000_0000

  type Byte = x: int | 0 <= x < 256
  type Word = x: int | 0 <= x < 0x1_0000_0000

  function Pow2(n: nat): (p: nat)
    ensures 0 < p
  {
    if n == 0 then 1 else 2 * Pow2(n - 1)
  }

  lemma {:induction false} Pow2Sum(m: nat, n: nat)
    ensures Pow2(m + n) == Pow2(m) * Pow2(n)
  {
    if m != 0 {
      Pow2Sum(m - 1, n);
      assert m - 1 + n == m + n - 1;
      var p, q := Pow2(m - 1), Pow2(n);
      assert (2 * p) * q == 2 * (p * q);
    }
  }

  lemma WordBits()
    ensures Pow2(32) == WORD_SIZE
  {
    assert Pow2(8) == 0x100;
    Pow2Sum(8, 8);
    assert Pow2(16) == 0x1_0000;
    Pow2Sum(16, 16);
  }

  datatype BitOp = And | Or | Xor

  function OnBits(op: BitOp, a: int, b: int): int {
    match op
    case And => if a == 1 && b == 1 then 1 else 0
    case Or => if a == 1 || b == 1 then 1 else 0
    case Xor => if a != b then 1 else 0
  }

  /** The bitwise operator op on two non-negative integers. */
  function Bitwise(op: BitOp, x: nat, y: nat): nat
    decreases x + y
  {
    if x == 0 && y == 0 then 0
    else OnBits(op, x % 2, y % 2) + 2 * Bitwise(op, x / 2, y / 2)
  }

  lemma {:induction false} BitwiseBound(op: BitOp, x: nat, y: nat, n: nat)
    requires x < Pow2(n) && y < Pow2(n)
    ensures Bitwise(op, x, y) < Pow2(n)
    decreases n
  {
    if n != 0 {
      BitwiseBound(op, x / 2, y / 2, n - 1);
    }
  }

  lemma {:induction false} OrZero(y: nat)
    ensures Bitwise(Or, 0, y) == y
  {
    if y != 0 {
      OrZero(y / 2);
    }
  }

  lemma {:induction false} OrCommutes(x: nat, y: nat)
    ensures Bitwise(Or, x, y) == Bitwise(Or, y, x)
    decreases x + y
  {
    if x != 0 || y != 0 {
      OrCommutes(x / 2, y / 2);
    }
  }

  /** OR of numbers that share no bit position is their sum. */
  lemma {:induction false} OrDisjoint(x: nat, y: nat, n: nat)
    requires x < Pow2(n)
    ensures Bitwise(Or, x, y * Pow2(n)) == x + y * Pow2(n)
    decreases n
  {
    if n == 0 {
      OrZero(y);
    } else {
      var half := y * Pow2(n - 1);
      assert y * Pow2(n) == 2 * half;
      OrDisjoint(x / 2, y, n - 1);
      if x != 0 || half != 0 {
        assert (2 * half) / 2 == half && (2 * half) % 2 == 0;
      }
    }
  }

  function BitAnd(x: Word, y: Word): Word {
    WordBits();
    BitwiseBound(And, x, y, 32);
    Bitwise(And, x, y)
  }

  function BitOr(x: Word, y: Word): Word {
    WordBits();
    BitwiseBound(Or, x, y, 32);
    Bitwise(Or, x, y)
  }

  function BitXor(x: Word, y: Word): Word {
    WordBits();
    BitwiseBound(Xor, x, y, 32);
    Bitwise(Xor, x, y)
  }

  function BitNot(x: Word): Word {
    WORD_SIZE - 1 - x
  }

  function Add(x: Word, y: Word): Word {
    (x + y) % WORD_SIZE
  }

  function ShiftLeft(x: Word, n: nat): Word {
    (x * Pow2(n)) % WORD_SIZE
  }

  function ShiftRight(x: Word, n: nat): Word {
    DivBound(x, Pow2(n));
    x / Pow2(n)
  }

  lemma DivBound(x: nat, d: nat)
    requires 0 < d
    ensures 0 <= x / d <= x
  {
    if x / d > 0 {
      MulMonotone(x / d, 1, d);
    }
  }

  /** Circular shift: the n high bits of x move to the low end, the others move up n places. */
  function Circular(x: Word, n: nat): Word
    requires 0 < n < 32
  {
    CircularBound(x, n);
    (x % Pow2(32 - n)) * Pow2(n) + x / Pow2(32 - n)
  }

  lemma MulMonotone(p: nat, a: int, b: int)
    requires a <= b
    ensures p * a <= p * b
  {
  }

  /** The two pieces a left shift by n splits a word into: p is 2^(32-n) and q is 2^n. */
  lemma Pieces(x: Word, p: nat, q: nat)
    requires 0 < p && 0 < q && p * q == WORD_SIZE
    ensures 0 <= x / p < q
    ensures 0 <= (x % p) * q <= WORD_SIZE - q
    ensures (x * q) % WORD_SIZE == (x % p) * q
  {
    var hi, lo := x / p, x % p;
    if hi >= q {
      MulMonotone(p, q, hi);
    }
    MulMonotone(q, lo, p - 1);
    DistributePieces(hi, lo, p, q);
    DivModUnique(x * q, WORD_SIZE, hi, lo * q);
  }

  lemma DistributePieces(hi: nat, lo: nat, p: nat, q: nat)
    ensures (p * hi + lo) * q == (p * q) * hi + lo * q
  {
    assert (p * hi) * q == (p * q) * hi;
  }

  lemma CircularBound(x: Word, n: nat)
    requires 0 < n < 32
    ensures Pow2(32 - n) * Pow2(n) == WORD_SIZE
    ensures x / Pow2(32 - n) < Pow2(n)
    ensures 0 <= (x % Pow2(32 - n)) * Pow2(n) + x / Pow2(32 - n) < WORD_SIZE
  {
    WordBits();
    Pow2Sum(32 - n, n);
    Pieces(x, Pow2(32 - n), Pow2(n));
  }

  /** The C idiom: two shifts joined by OR. */
  function RotateLeft(x: Word, n: nat): Word
    requires n < 32
  {
    BitOr(ShiftLeft(x, n), ShiftRight(x, 32 - n))
  }

  /** The shift-and-OR idiom is the circular shift. */
  lemma RotateIsCircular(x: Word, n: nat)
    requires 0 < n < 32
    ensures RotateLeft(x, n) == Circular(x, n)
  {
    var p, q := Pow2(32 - n), Pow2(n);
    CircularBound(x, n);
    Pieces(x, p, q);
    OrCommutes((x % p) * q, x / p);
    OrDisjoint(x / p, x % p, n);
  }

  /** AND with 2^n - 1 keeps the n low bits. */
  lemma {:induction false} AndMask(x: nat, n: nat)
    ensures Bitwise(And, x, Pow2(n) - 1) == x % Pow2(n)
    decreases n
  {
    hide Bitwise;
    if n == 0 {
      AndZero(x);
    } else {
      AndMask(x / 2, n - 1);
      HalfMod(x, Pow2(n - 1));
      AndOdd(x, Pow2(n - 1) - 1);
    }
  }

  lemma AndOdd(x: nat, m: nat)
    ensures Bitwise(And, x, 2 * m + 1) == x % 2 + 2 * Bitwise(And, x / 2, m)
  {
    assert (2 * m + 1) / 2 == m && (2 * m + 1) % 2 == 1;
  }

  lemma {:induction false} AndZero(x: nat)
    ensures Bitwise(And, x, 0) == 0
  {
    if x != 0 {
      AndZero(x / 2);
    }
  }

  lemma HalfMod(x: nat, p: nat)
    requires 0 < p
    ensures x % (2 * p) == x % 2 + 2 * ((x / 2) % p)
  {
    var h := x / 2;
    var q, r := h / p, h % p;
    assert h == p * q + r;
    assert x == (2 * p) * q + (2 * r + x % 2);
    DivModUnique(x, 2 * p, q, 2 * r + x % 2);
  }

  lemma DivModUnique(x: nat, d: nat, q: nat, r: nat)
    requires x == d * q + r && r < d
    ensures x / d == q && x % d == r
  {
    var k := x / d - q;
    assert x == d * (x / d) + x % d;
    assert d * k == r - x % d by {
      assert d * k == d * (x / d) - d * q;
    }
    if k > 0 {
      MulMonotone(d, 1, k);
    } else if k < 0 {
      MulMonotone(d, k, -1);
    }
  }

  lemma AddReduced(x: nat, y: Word)
    ensures Add(x % WORD_SIZE, y) == (x + y) % WORD_SIZE
  {
    var q, r := x / WORD_SIZE, x % WORD_SIZE;
    if r + y < WORD_SIZE {
      DivModUnique(x + y, WORD_SIZE, q, r + y);
    } else {
      DivModUnique(x + y, WORD_SIZE, q + 1, r + y - WORD_SIZE);
    }
  }
}
