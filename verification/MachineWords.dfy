/**
 The bounded integers of Words stand for 32-bit machine words: the operators on them are those on
 bit vectors, which is what C computes with.
 */
module MachineWords {
  import opened Words

  // ---- Bits

  function Bit(x: nat, n: nat): nat {
    (x / Pow2(n)) % 2
  }

  lemma BitNext(x: nat, n: nat)
    ensures Bit(x, n + 1) == Bit(x / 2, n)
  {
    var p, h := Pow2(n), x / 2;
    assert h == p * (h / p) + h % p;
    DivModUnique(x, 2 * p, h / p, 2 * (h % p) + x % 2);
  }

  /** A bitwise operator on numbers written as twice a number and a bit. */
  lemma BitwiseHalves(op: BitOp, h: nat, i: nat, k: nat, j: nat)
    requires i < 2 && j < 2
    ensures Bitwise(op, 2 * h + i, 2 * k + j) == OnBits(op, i, j) + 2 * Bitwise(op, h, k)
  {
    assert (2 * h + i) / 2 == h && (2 * h + i) % 2 == i && (2 * k + j) / 2 == k && (2 * k + j) % 2 == j;
  }

  lemma BitZero(x: nat)
    ensures Bit(x, 0) == x % 2
  {
  }

  /** A bitwise operator works on each bit by itself. */
  lemma {:induction false} BitwiseBit(op: BitOp, x: nat, y: nat, n: nat)
    ensures Bit(Bitwise(op, x, y), n) == OnBits(op, Bit(x, n), Bit(y, n))
    decreases n
  {
    hide Bitwise, Bit;
    var r := Bitwise(op, x, y);
    BitwiseHalves(op, x / 2, x % 2, y / 2, y % 2);
    assert r / 2 == Bitwise(op, x / 2, y / 2) && r % 2 == OnBits(op, x % 2, y % 2);
    hide OnBits;
    if n == 0 {
      BitZero(x);
      BitZero(y);
      BitZero(r);
    } else {
      BitNext(x, n - 1);
      BitNext(y, n - 1);
      BitNext(r, n - 1);
      BitwiseBit(op, x / 2, y / 2, n - 1);
    }
  }

  lemma BitAbove(h: nat, i: nat, n: nat)
    requires i < 2
    ensures Bit(2 * h + i, 0) == i && Bit(2 * h + i, n + 1) == Bit(h, n)
  {
    BitZero(2 * h + i);
    BitNext(2 * h + i, n);
    hide Bit;
  }

  /** 2^n - 1 - x has the opposite bits of x. */
  lemma {:induction false} ComplementBit(x: nat, n: nat, k: nat)
    requires x < Pow2(n) && k < n
    ensures Bit(Pow2(n) - 1 - x, k) == 1 - Bit(x, k)
    decreases k
  {
    var p, h, i := Pow2(n - 1), x / 2, x % 2;
    assert Pow2(n) == 2 * p && x == 2 * h + i;
    hide Bit, Pow2;
    assert Pow2(n) - 1 - x == 2 * (p - 1 - h) + (1 - i);
    BitAbove(h, i, if k == 0 then 0 else k - 1);
    BitAbove(p - 1 - h, 1 - i, if k == 0 then 0 else k - 1);
    if k > 0 {
      ComplementBit(h, n - 1, k - 1);
    }
  }

  lemma NotBit(x: Word, k: nat)
    requires k < 32
    ensures Bit(BitNot(x), k) == 1 - Bit(x, k)
  {
    WordBits();
    ComplementBit(x, 32, k);
  }

  /** Words with the same bits are the same. */
  lemma {:induction false} SameBits(x: nat, y: nat, n: nat)
    requires x < Pow2(n) && y < Pow2(n) && forall k :: 0 <= k < n ==> Bit(x, k) == Bit(y, k)
    ensures x == y
    decreases n
  {
    if n > 0 {
      assert Bit(x, 0) == x % 2 && Bit(y, 0) == y % 2;
      forall k | 0 <= k < n - 1
        ensures Bit(x / 2, k) == Bit(y / 2, k)
      {
        BitNext(x, k);
        BitNext(y, k);
      }
      SameBits(x / 2, y / 2, n - 1);
    }
  }

  // ---- The value of a machine word

  function Byte0(x: bv32): bv8 { (x & 0xff) as bv8 }
  function Byte1(x: bv32): bv8 { ((x >> 8) & 0xff) as bv8 }
  function Byte2(x: bv32): bv8 { ((x >> 16) & 0xff) as bv8 }
  function Byte3(x: bv32): bv8 { (x >> 24) as bv8 }

  function ByteValue(x: bv8): (b: Byte) {
    x as int
  }

  function FromBytes(b0: Byte, b1: Byte, b2: Byte, b3: Byte): Word {
    b0 + 0x100 * (b1 + 0x100 * (b2 + 0x100 * b3))
  }

  function Value(x: bv32): Word {
    FromBytes(ByteValue(Byte0(x)), ByteValue(Byte1(x)), ByteValue(Byte2(x)), ByteValue(Byte3(x)))
  }

  function OnBytes(op: BitOp, x: bv8, y: bv8): bv8 {
    if op == And then x & y else if op == Or then x | y else x ^ y
  }

  function Half(x: bv8): bv8 { x >> 1 }
  function Low(x: bv8): bv8 { x & 1 }

  lemma HalfByte(x: bv8)
    ensures ByteValue(x) == 2 * ByteValue(Half(x)) + ByteValue(Low(x)) && ByteValue(Low(x)) < 2
    ensures ByteValue(x) == 0 <==> x == 0
  {
  }

  lemma HalfAnd(x: bv8, y: bv8)
    ensures Half(OnBytes(And, x, y)) == OnBytes(And, Half(x), Half(y))
    ensures Low(OnBytes(And, x, y)) == OnBytes(And, Low(x), Low(y))
  {
  }

  lemma HalfOr(x: bv8, y: bv8)
    ensures Half(OnBytes(Or, x, y)) == OnBytes(Or, Half(x), Half(y))
    ensures Low(OnBytes(Or, x, y)) == OnBytes(Or, Low(x), Low(y))
  {
  }

  lemma HalfXor(x: bv8, y: bv8)
    ensures Half(OnBytes(Xor, x, y)) == OnBytes(Xor, Half(x), Half(y))
    ensures Low(OnBytes(Xor, x, y)) == OnBytes(Xor, Low(x), Low(y))
  {
  }

  lemma HalfOnBytes(op: BitOp, x: bv8, y: bv8)
    ensures Half(OnBytes(op, x, y)) == OnBytes(op, Half(x), Half(y))
    ensures Low(OnBytes(op, x, y)) == OnBytes(op, Low(x), Low(y))
  {
    hide Half, Low, OnBytes;
    match op
    case And => HalfAnd(x, y);
    case Or => HalfOr(x, y);
    case Xor => HalfXor(x, y);
  }

  lemma OneBit(op: BitOp, x: bv8, y: bv8)
    ensures ByteValue(OnBytes(op, Low(x), Low(y))) == OnBits(op, ByteValue(Low(x)), ByteValue(Low(y)))
  {
    assert x & 1 == 0 || x & 1 == 1;
    assert y & 1 == 0 || y & 1 == 1;
  }

  lemma NothingBitwise(op: BitOp)
    ensures Bitwise(op, 0, 0) == 0 && OnBytes(op, 0, 0) == 0 && ByteValue(0) == 0
  {
  }

  lemma {:induction false} BytesValue(op: BitOp, x: bv8, y: bv8)
    ensures ByteValue(OnBytes(op, x, y)) == Bitwise(op, ByteValue(x), ByteValue(y))
    decreases ByteValue(x) + ByteValue(y)
  {
    hide OnBytes, Bitwise, OnBits, ByteValue, Half, Low;
    HalfByte(x);
    HalfByte(y);
    if x == 0 && y == 0 {
      NothingBitwise(op);
    } else {
      HalfByte(OnBytes(op, x, y));
      HalfOnBytes(op, x, y);
      OneBit(op, x, y);
      BytesValue(op, Half(x), Half(y));
      BitwiseHalves(op, ByteValue(Half(x)), ByteValue(Low(x)), ByteValue(Half(y)), ByteValue(Low(y)));
    }
  }

  function Shifted(h: nat, n: nat): nat {
    h * Pow2(n)
  }

  lemma ShiftedNext(h: nat, n: nat)
    ensures Shifted(h, 0) == h && Shifted(h, n + 1) == 2 * Shifted(h, n)
  {
    assert h * (2 * Pow2(n)) == 2 * (h * Pow2(n));
  }

  lemma JoinHalves(op: BitOp, a: nat, h: nat, b: nat, k: nat)
    ensures Bitwise(op, a + 2 * h, b + 2 * k) == OnBits(op, a % 2, b % 2) + 2 * Bitwise(op, a / 2 + h, b / 2 + k)
  {
    hide Bitwise, OnBits;
    BitwiseHalves(op, a / 2 + h, a % 2, b / 2 + k, b % 2);
  }

  /** A bitwise operator on numbers that are joined from n low bits and the bits above. */
  lemma {:induction false} BitwiseJoin(op: BitOp, a: nat, h: nat, b: nat, k: nat, n: nat)
    requires a < Pow2(n) && b < Pow2(n)
    ensures Bitwise(op, a + Shifted(h, n), b + Shifted(k, n)) == Bitwise(op, a, b) + Shifted(Bitwise(op, h, k), n)
    decreases n
  {
    hide Bitwise, OnBits, Shifted;
    if n == 0 {
      NothingBitwise(op);
      ShiftedNext(h, 0);
      ShiftedNext(k, 0);
      ShiftedNext(Bitwise(op, h, k), 0);
    } else {
      BitwiseJoin(op, a / 2, h, b / 2, k, n - 1);
      ShiftedNext(h, n - 1);
      ShiftedNext(k, n - 1);
      ShiftedNext(Bitwise(op, h, k), n - 1);
      JoinHalves(op, a, 0, b, 0);
      JoinHalves(op, a, Shifted(h, n - 1), b, Shifted(k, n - 1));
    }
  }

  /** Byte by byte. */
  lemma BitwiseBytes(op: BitOp, a: Byte, h: nat, b: Byte, k: nat)
    ensures Bitwise(op, a + 0x100 * h, b + 0x100 * k) == Bitwise(op, a, b) + 0x100 * Bitwise(op, h, k)
  {
    hide Bitwise;
    assert Pow2(8) == 0x100;
    BitwiseJoin(op, a, h, b, k, 8);
    assert Shifted(h, 8) == 0x100 * h && Shifted(k, 8) == 0x100 * k;
  }

  function BothOf(x: bv32, y: bv32): bv32 { x & y }
  function EitherOf(x: bv32, y: bv32): bv32 { x | y }
  function DifferenceOf(x: bv32, y: bv32): bv32 { x ^ y }
  function NotOf(x: bv32): bv32 { !x }

  lemma EachByteAnd(x: bv32, y: bv32)
    ensures Byte0(x & y) == Byte0(x) & Byte0(y) && Byte1(x & y) == Byte1(x) & Byte1(y)
    ensures Byte2(x & y) == Byte2(x) & Byte2(y) && Byte3(x & y) == Byte3(x) & Byte3(y)
  {
  }

  lemma BytesOfAnd(x: bv32, y: bv32)
    ensures Byte0(BothOf(x, y)) == OnBytes(And, Byte0(x), Byte0(y))
    ensures Byte1(BothOf(x, y)) == OnBytes(And, Byte1(x), Byte1(y))
    ensures Byte2(BothOf(x, y)) == OnBytes(And, Byte2(x), Byte2(y))
    ensures Byte3(BothOf(x, y)) == OnBytes(And, Byte3(x), Byte3(y))
  {
    hide Byte0, Byte1, Byte2, Byte3;
    EachByteAnd(x, y);
  }

  lemma EachByteOr(x: bv32, y: bv32)
    ensures Byte0(x | y) == Byte0(x) | Byte0(y) && Byte1(x | y) == Byte1(x) | Byte1(y)
    ensures Byte2(x | y) == Byte2(x) | Byte2(y) && Byte3(x | y) == Byte3(x) | Byte3(y)
  {
  }

  lemma BytesOfOr(x: bv32, y: bv32)
    ensures Byte0(EitherOf(x, y)) == OnBytes(Or, Byte0(x), Byte0(y))
    ensures Byte1(EitherOf(x, y)) == OnBytes(Or, Byte1(x), Byte1(y))
    ensures Byte2(EitherOf(x, y)) == OnBytes(Or, Byte2(x), Byte2(y))
    ensures Byte3(EitherOf(x, y)) == OnBytes(Or, Byte3(x), Byte3(y))
  {
    hide Byte0, Byte1, Byte2, Byte3;
    EachByteOr(x, y);
  }

  lemma EachByteXor(x: bv32, y: bv32)
    ensures Byte0(x ^ y) == Byte0(x) ^ Byte0(y) && Byte1(x ^ y) == Byte1(x) ^ Byte1(y)
    ensures Byte2(x ^ y) == Byte2(x) ^ Byte2(y) && Byte3(x ^ y) == Byte3(x) ^ Byte3(y)
  {
  }

  lemma BytesOfXor(x: bv32, y: bv32)
    ensures Byte0(DifferenceOf(x, y)) == OnBytes(Xor, Byte0(x), Byte0(y))
    ensures Byte1(DifferenceOf(x, y)) == OnBytes(Xor, Byte1(x), Byte1(y))
    ensures Byte2(DifferenceOf(x, y)) == OnBytes(Xor, Byte2(x), Byte2(y))
    ensures Byte3(DifferenceOf(x, y)) == OnBytes(Xor, Byte3(x), Byte3(y))
  {
    hide Byte0, Byte1, Byte2, Byte3;
    EachByteXor(x, y);
  }

  lemma BytesOfNot(x: bv32)
    ensures Byte0(NotOf(x)) == !Byte0(x)
    ensures Byte1(NotOf(x)) == !Byte1(x)
    ensures Byte2(NotOf(x)) == !Byte2(x)
    ensures Byte3(NotOf(x)) == !Byte3(x)
  {
  }

  lemma JoinFour(op: BitOp, a0: Byte, a1: Byte, a2: Byte, a3: Byte, b0: Byte, b1: Byte, b2: Byte, b3: Byte)
    ensures Bitwise(op, FromBytes(a0, a1, a2, a3), FromBytes(b0, b1, b2, b3)) ==
            Bitwise(op, a0, b0) + 0x100 * (Bitwise(op, a1, b1) +
            0x100 * (Bitwise(op, a2, b2) + 0x100 * Bitwise(op, a3, b3)))
  {
    hide Bitwise;
    BitwiseBytes(op, a2, a3, b2, b3);
    BitwiseBytes(op, a1, a2 + 0x100 * a3, b1, b2 + 0x100 * b3);
    BitwiseBytes(op, a0, a1 + 0x100 * (a2 + 0x100 * a3), b0, b1 + 0x100 * (b2 + 0x100 * b3));
  }

  lemma BothValue(x: bv32, y: bv32)
    ensures Value(BothOf(x, y)) == BitAnd(Value(x), Value(y))
  {
    hide Byte0, Byte1, Byte2, Byte3, OnBytes, Bitwise, ByteValue, FromBytes, BothOf;
    BytesOfAnd(x, y);
    OnFourBytes(And, Byte0(x), Byte1(x), Byte2(x), Byte3(x), Byte0(y), Byte1(y), Byte2(y), Byte3(y));
  }

  lemma EitherValue(x: bv32, y: bv32)
    ensures Value(EitherOf(x, y)) == BitOr(Value(x), Value(y))
  {
    hide Byte0, Byte1, Byte2, Byte3, OnBytes, Bitwise, ByteValue, FromBytes, EitherOf;
    BytesOfOr(x, y);
    OnFourBytes(Or, Byte0(x), Byte1(x), Byte2(x), Byte3(x), Byte0(y), Byte1(y), Byte2(y), Byte3(y));
  }

  lemma DifferenceValue(x: bv32, y: bv32)
    ensures Value(DifferenceOf(x, y)) == BitXor(Value(x), Value(y))
  {
    hide Byte0, Byte1, Byte2, Byte3, OnBytes, Bitwise, ByteValue, FromBytes, DifferenceOf;
    BytesOfXor(x, y);
    OnFourBytes(Xor, Byte0(x), Byte1(x), Byte2(x), Byte3(x), Byte0(y), Byte1(y), Byte2(y), Byte3(y));
  }

  lemma OnFourBytes(op: BitOp, a0: bv8, a1: bv8, a2: bv8, a3: bv8, b0: bv8, b1: bv8, b2: bv8, b3: bv8)
    ensures FromBytes(ByteValue(OnBytes(op, a0, b0)), ByteValue(OnBytes(op, a1, b1)),
                      ByteValue(OnBytes(op, a2, b2)), ByteValue(OnBytes(op, a3, b3))) ==
            Bitwise(op, FromBytes(ByteValue(a0), ByteValue(a1), ByteValue(a2), ByteValue(a3)),
                    FromBytes(ByteValue(b0), ByteValue(b1), ByteValue(b2), ByteValue(b3)))
  {
    hide OnBytes, Bitwise, ByteValue;
    BytesValue(op, a0, b0);
    BytesValue(op, a1, b1);
    BytesValue(op, a2, b2);
    BytesValue(op, a3, b3);
    JoinFour(op, ByteValue(a0), ByteValue(a1), ByteValue(a2), ByteValue(a3),
             ByteValue(b0), ByteValue(b1), ByteValue(b2), ByteValue(b3));
  }

  lemma NotByte(x: bv8)
    ensures ByteValue(!x) == 255 - ByteValue(x)
  {
  }

  lemma NotOfValue(x: bv32)
    ensures Value(NotOf(x)) == BitNot(Value(x))
  {
    BytesOfNot(x);
    hide Byte0, Byte1, Byte2, Byte3, ByteValue, NotOf;
    NotByte(Byte0(x));
    NotByte(Byte1(x));
    NotByte(Byte2(x));
    NotByte(Byte3(x));
  }

  // ---- Addition

  function SmallValue(x: bv9): (n: nat) {
    x as int
  }

  function HalfSmall(x: bv9): bv9 { x >> 1 }
  function LowSmall(x: bv9): bv9 { x & 1 }

  /** The sum of two bytes and a carry. */
  function Sum(p: bv9, q: bv9, c: bv9): bv9 {
    p + q + c
  }

  /** The carry of the sum of the lowest bits. */
  function Carry(p: bv9, q: bv9, c: bv9): bv9 {
    ((p & q) | (p & c) | (q & c)) & 1
  }

  predicate Addable(p: bv9, q: bv9, c: bv9) {
    p <= 0xff && q <= 0xff && c <= 1
  }

  lemma HalvesOf(x: bv9)
    ensures SmallValue(x) == 2 * SmallValue(HalfSmall(x)) + SmallValue(LowSmall(x))
    ensures SmallValue(x) == 0 <==> x == 0
  {
  }

  lemma HalfSum(p: bv9, q: bv9, c: bv9)
    requires Addable(p, q, c)
    ensures HalfSmall(Sum(p, q, c)) == Sum(HalfSmall(p), HalfSmall(q), Carry(p, q, c))
    ensures Addable(HalfSmall(p), HalfSmall(q), Carry(p, q, c))
  {
  }

  lemma BitSum(p: bv9, q: bv9, c: bv9)
    requires Addable(p, q, c)
    ensures SmallValue(LowSmall(p)) + SmallValue(LowSmall(q)) + SmallValue(c) ==
            2 * SmallValue(Carry(p, q, c)) + SmallValue(LowSmall(Sum(p, q, c)))
  {
    assert p & 1 == 0 || p & 1 == 1;
    assert q & 1 == 0 || q & 1 == 1;
    assert c == 0 || c == 1;
    assert Carry(p, q, c) == ((p & 1) & (q & 1)) | ((p & 1) & c) | ((q & 1) & c);
    assert (p + q + c) & 1 == (p & 1) ^ (q & 1) ^ c;
  }

  lemma SumOfNothing(c: bv9)
    ensures Sum(0, 0, c) == c && SmallValue(0) == 0
  {
  }

  lemma {:induction false} SmallSum(p: bv9, q: bv9, c: bv9)
    requires Addable(p, q, c)
    ensures SmallValue(Sum(p, q, c)) == SmallValue(p) + SmallValue(q) + SmallValue(c)
    decreases SmallValue(p) + SmallValue(q)
  {
    hide SmallValue, Carry, Sum, Addable, HalfSmall, LowSmall;
    HalvesOf(p);
    HalvesOf(q);
    if p == 0 && q == 0 {
      SumOfNothing(c);
    } else {
      HalvesOf(Sum(p, q, c));
      HalfSum(p, q, c);
      BitSum(p, q, c);
      SmallSum(HalfSmall(p), HalfSmall(q), Carry(p, q, c));
    }
  }

  function Wide(b: bv8): bv9 { b as bv9 }
  function LowByte(s: bv9): bv8 { (s & 0xff) as bv8 }
  function Over(s: bv9): bv9 { s >> 8 }

  lemma WideValue(b: bv8)
    ensures SmallValue(Wide(b)) == ByteValue(b)
  {
  }

  lemma SplitSum(s: bv9)
    ensures SmallValue(s) == ByteValue(LowByte(s)) + 0x100 * SmallValue(Over(s))
  {
  }

  lemma WideAddable(a: bv8, b: bv8, c: bv9)
    requires c <= 1
    ensures Addable(Wide(a), Wide(b), c)
  {
  }

  /** The sum of two bytes and the carry from the byte before. */
  function ByteSum(a: bv8, b: bv8, c: bv9): bv9 {
    Sum(Wide(a), Wide(b), c)
  }

  lemma ByteSumValue(a: bv8, b: bv8, c: bv9)
    requires c <= 1
    ensures var s := ByteSum(a, b, c);
            ByteValue(a) + ByteValue(b) + SmallValue(c) == ByteValue(LowByte(s)) + 0x100 * SmallValue(Over(s))
  {
    hide Sum, Wide, Over, Addable, SmallValue, ByteValue, LowByte;
    WideAddable(a, b, c);
    SmallSum(Wide(a), Wide(b), c);
    WideValue(a);
    WideValue(b);
    SplitSum(ByteSum(a, b, c));
  }

  /** The carries into the bytes of a sum. */
  function Carry1(x: bv32, y: bv32): bv9 { (((x & 0xff) + (y & 0xff)) >> 8) as bv9 }
  function Carry2(x: bv32, y: bv32): bv9 { (((x & 0xffff) + (y & 0xffff)) >> 16) as bv9 }
  function Carry3(x: bv32, y: bv32): bv9 { (((x & 0xff_ffff) + (y & 0xff_ffff)) >> 24) as bv9 }

  lemma SumByte0(x: bv32, y: bv32)
    ensures Byte0(x + y) == LowByte(ByteSum(Byte0(x), Byte0(y), 0))
    ensures Over(ByteSum(Byte0(x), Byte0(y), 0)) == Carry1(x, y) <= 1
  {
  }

  lemma SumByte1(x: bv32, y: bv32)
    ensures Byte1(x + y) == LowByte(ByteSum(Byte1(x), Byte1(y), Carry1(x, y)))
  {
  }

  lemma OverByte1(x: bv32, y: bv32)
    ensures Over(ByteSum(Byte1(x), Byte1(y), Carry1(x, y))) == Carry2(x, y) <= 1
  {
  }

  lemma SumByte2(x: bv32, y: bv32)
    ensures Byte2(x + y) == LowByte(ByteSum(Byte2(x), Byte2(y), Carry2(x, y)))
  {
  }

  lemma OverByte2(x: bv32, y: bv32)
    ensures Over(ByteSum(Byte2(x), Byte2(y), Carry2(x, y))) == Carry3(x, y) <= 1
  {
  }

  lemma SumByte3(x: bv32, y: bv32)
    ensures Byte3(x + y) == LowByte(ByteSum(Byte3(x), Byte3(y), Carry3(x, y)))
  {
  }

  lemma NoCarry()
    ensures SmallValue(0) == 0
  {
  }

  lemma AddValue(x: bv32, y: bv32)
    ensures Value(x + y) == Add(Value(x), Value(y))
  {
    hide Byte0, Byte1, Byte2, Byte3, ByteSum, LowByte, Over, SmallValue, ByteValue, Carry1, Carry2, Carry3;
    SumByte0(x, y);
    SumByte1(x, y);
    OverByte1(x, y);
    SumByte2(x, y);
    OverByte2(x, y);
    SumByte3(x, y);
    NoCarry();
    ByteSumValue(Byte0(x), Byte0(y), 0);
    ByteSumValue(Byte1(x), Byte1(y), Carry1(x, y));
    ByteSumValue(Byte2(x), Byte2(y), Carry2(x, y));
    ByteSumValue(Byte3(x), Byte3(y), Carry3(x, y));
    AddedBytes(ByteValue(Byte0(x)), ByteValue(Byte1(x)), ByteValue(Byte2(x)), ByteValue(Byte3(x)),
               ByteValue(Byte0(y)), ByteValue(Byte1(y)), ByteValue(Byte2(y)), ByteValue(Byte3(y)),
               ByteValue(Byte0(x + y)), ByteValue(Byte1(x + y)), ByteValue(Byte2(x + y)), ByteValue(Byte3(x + y)),
               SmallValue(Carry1(x, y)), SmallValue(Carry2(x, y)), SmallValue(Carry3(x, y)),
               SmallValue(Over(ByteSum(Byte3(x), Byte3(y), Carry3(x, y)))));
  }

  lemma AddedBytes(a0: Byte, a1: Byte, a2: Byte, a3: Byte, b0: Byte, b1: Byte, b2: Byte, b3: Byte,
                   r0: Byte, r1: Byte, r2: Byte, r3: Byte, c1: nat, c2: nat, c3: nat, c4: nat)
    requires a0 + b0 == r0 + 0x100 * c1 && a1 + b1 + c1 == r1 + 0x100 * c2
    requires a2 + b2 + c2 == r2 + 0x100 * c3 && a3 + b3 + c3 == r3 + 0x100 * c4
    ensures Add(FromBytes(a0, a1, a2, a3), FromBytes(b0, b1, b2, b3)) == FromBytes(r0, r1, r2, r3)
  {
    var a, b, r := FromBytes(a0, a1, a2, a3), FromBytes(b0, b1, b2, b3), FromBytes(r0, r1, r2, r3);
    SumOver(a, b, r, c4);
  }

  lemma SumOver(a: Word, b: Word, r: Word, c: nat)
    requires a + b == r + WORD_SIZE * c
    ensures Add(a, b) == r
  {
    DivModUnique(a + b, WORD_SIZE, c, r);
  }

  // ---- Shifts

  function Amount(n: nat): bv6
    requires n <= 32
  {
    n as bv6
  }

  function ShiftedUp(x: bv32, k: bv6): bv32
    requires k <= 32
  {
    x << k
  }

  function ShiftedDown(x: bv32, k: bv6): bv32
    requires k <= 32
  {
    x >> k
  }

  lemma NextAmount(n: nat)
    requires n < 32
    ensures Amount(n + 1) == Amount(n) + 1
  {
    AmountBound(n);
  }

  lemma NoAmount()
    ensures Amount(0) == 0
  {
  }

  lemma AmountBelow(n: nat)
    requires n < 32
    ensures Amount(n) < 32
  {
  }

  lemma AmountBound(n: nat)
    requires n <= 32
    ensures Amount(n) <= 32
  {
  }

  lemma UpOnce(x: bv32, k: bv6)
    requires k < 32
    ensures ShiftedUp(x, k + 1) == TwiceOf(ShiftedUp(x, k)) && ShiftedUp(x, 0) == x
  {
  }

  lemma DownOnce(x: bv32, k: bv6)
    requires k < 32
    ensures ShiftedDown(x, k + 1) == Half32(ShiftedDown(x, k)) && ShiftedDown(x, 0) == x
  {
  }

  function Half32(x: bv32): bv32 { x >> 1 }
  function TwiceOf(x: bv32): bv32 { x + x }

  function Left(x: bv32, n: nat): bv32
    requires n <= 32
  {
    AmountBound(n);
    ShiftedUp(x, Amount(n))
  }

  function Right(x: bv32, n: nat): bv32
    requires n <= 32
  {
    AmountBound(n);
    ShiftedDown(x, Amount(n))
  }

  lemma LeftNext(x: bv32, n: nat)
    requires n < 32
    ensures Left(x, 0) == x && Left(x, n + 1) == TwiceOf(Left(x, n))
  {
    hide Amount, ShiftedUp, TwiceOf;
    NoAmount();
    AmountBelow(n);
    NextAmount(n);
    UpOnce(x, Amount(n));
  }

  lemma RightNext(x: bv32, n: nat)
    requires n < 32
    ensures Right(x, 0) == x && Right(x, n + 1) == Half32(Right(x, n))
  {
    hide Amount, ShiftedDown, Half32;
    NoAmount();
    AmountBelow(n);
    NextAmount(n);
    DownOnce(x, Amount(n));
  }

  lemma TwiceValue(x: bv32)
    ensures Value(TwiceOf(x)) == Add(Value(x), Value(x))
  {
    hide Value, Add;
    AddValue(x, x);
  }

  lemma DoubleReduced(m: nat)
    ensures Add(m % WORD_SIZE, m % WORD_SIZE) == (2 * m) % WORD_SIZE
  {
    var q, r := m / WORD_SIZE, m % WORD_SIZE;
    if 2 * r < WORD_SIZE {
      DivModUnique(2 * m, WORD_SIZE, 2 * q, 2 * r);
    } else {
      DivModUnique(2 * m, WORD_SIZE, 2 * q + 1, 2 * r - WORD_SIZE);
    }
  }

  lemma ShiftLeftNext(v: Word, n: nat)
    ensures ShiftLeft(v, 0) == v && ShiftLeft(v, n + 1) == Add(ShiftLeft(v, n), ShiftLeft(v, n))
  {
    hide Add;
    DoubleReduced(v * Pow2(n));
    assert v * (2 * Pow2(n)) == 2 * (v * Pow2(n));
  }

  lemma {:induction false} LeftValue(x: bv32, n: nat)
    requires n < 32
    ensures Value(Left(x, n)) == ShiftLeft(Value(x), n)
    decreases n
  {
    hide Value, Left, Add, ShiftLeft, TwiceOf;
    ShiftLeftNext(Value(x), 0);
    if n == 0 {
      LeftNext(x, 0);
    } else {
      LeftNext(x, n - 1);
      LeftValue(x, n - 1);
      TwiceValue(Left(x, n - 1));
      ShiftLeftNext(Value(x), n - 1);
    }
  }

  function HalfOf(b: bv8, above: bv8): bv8 { (b >> 1) | (above << 7) }

  lemma HalfOfValue(b: bv8, above: bv8)
    ensures ByteValue(b) + 0x100 * ByteValue(Low(above)) == 2 * ByteValue(HalfOf(b, above)) + ByteValue(Low(b))
    ensures ByteValue(Low(b)) < 2
  {
  }

  lemma BytesOfHalf(x: bv32)
    ensures Byte0(Half32(x)) == HalfOf(Byte0(x), Byte1(x))
    ensures Byte1(Half32(x)) == HalfOf(Byte1(x), Byte2(x))
    ensures Byte2(Half32(x)) == HalfOf(Byte2(x), Byte3(x))
    ensures Byte3(Half32(x)) == HalfOf(Byte3(x), 0)
  {
  }

  lemma LowOfZero()
    ensures ByteValue(Low(0)) == 0
  {
  }

  lemma HalfValue(x: bv32)
    ensures Value(Half32(x)) == Value(x) / 2
  {
    hide Byte0, Byte1, Byte2, Byte3, HalfOf, Low, ByteValue, Half32;
    BytesOfHalf(x);
    LowOfZero();
    HalfOfValue(Byte0(x), Byte1(x));
    HalfOfValue(Byte1(x), Byte2(x));
    HalfOfValue(Byte2(x), Byte3(x));
    HalfOfValue(Byte3(x), 0);
  }

  lemma HalvedAgain(v: nat, p: nat)
    requires 0 < p
    ensures v / p / 2 == v / (2 * p)
  {
    var q, r := v / p, v % p;
    var h, e := q / 2, q % 2;
    assert v == p * (2 * h + e) + r;
    HalvedParts(v, p, h, e, r);
  }

  lemma HalvedParts(v: nat, p: nat, h: nat, e: nat, r: nat)
    requires v == p * (2 * h + e) + r && e < 2 && r < p
    ensures v / (2 * p) == h
  {
    assert p * e == if e == 0 then 0 else p;
    assert p * (2 * h + e) == (2 * p) * h + p * e;
    DivModUnique(v, 2 * p, h, p * e + r);
  }

  lemma {:induction false} RightValue(x: bv32, n: nat)
    requires n <= 32
    ensures Value(Right(x, n)) == ShiftRight(Value(x), n)
    decreases n
  {
    hide Value, Right, Half32;
    if n == 0 {
      RightNext(x, 0);
    } else {
      RightNext(x, n - 1);
      RightValue(x, n - 1);
      HalfValue(Right(x, n - 1));
      HalvedAgain(Value(x), Pow2(n - 1));
    }
  }

  /** The C idiom for a circular shift. */
  function Rotated(x: bv32, n: nat): bv32
    requires n <= 32
  {
    EitherOf(Left(x, n), Right(x, 32 - n))
  }

  lemma RotatedValue(x: bv32, n: nat)
    requires n < 32
    ensures Value(Rotated(x, n)) == RotateLeft(Value(x), n)
  {
    hide Value, Left, Right, ShiftLeft, ShiftRight, BitOr, EitherOf;
    LeftValue(x, n);
    RightValue(x, 32 - n);
    EitherValue(Left(x, n), Right(x, 32 - n));
  }
}
