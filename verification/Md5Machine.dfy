/** What the round functions of MD5 do to each bit, and one operation as a 32-bit machine computes it. */
module Md5Machine {
  import opened Words
  import opened Md5Spec
  import opened MachineWords
  import opened Md5Block

  // ---- What the round functions compute

  /** F takes each bit from y where x has a one, and from z where it has a zero. */
  lemma FSelects(x: Word, y: Word, z: Word, n: nat)
    requires n < 32
    ensures Bit(F(x, y, z), n) == if Bit(x, n) == 1 then Bit(y, n) else Bit(z, n)
  {
    hide Bitwise, Bit;
    BitIsBit(y, n);
    BitIsBit(z, n);
    NotBit(x, n);
    BitwiseBit(And, x, y, n);
    BitwiseBit(And, BitNot(x), z, n);
    BitwiseBit(Or, BitAnd(x, y), BitAnd(BitNot(x), z), n);
  }

  lemma BitIsBit(x: nat, n: nat)
    ensures Bit(x, n) < 2
  {
  }

  /** G takes each bit from x where z has a one, and from y where it has a zero. */
  lemma GSelects(x: Word, y: Word, z: Word, n: nat)
    requires n < 32
    ensures Bit(G(x, y, z), n) == if Bit(z, n) == 1 then Bit(x, n) else Bit(y, n)
  {
    hide Bitwise, Bit;
    BitIsBit(x, n);
    BitIsBit(y, n);
    NotBit(z, n);
    BitwiseBit(And, x, z, n);
    BitwiseBit(And, y, BitNot(z), n);
    BitwiseBit(Or, BitAnd(x, z), BitAnd(y, BitNot(z)), n);
  }

  /** H is the parity of the three bits. */
  lemma HIsParity(x: Word, y: Word, z: Word, n: nat)
    requires n < 32
    ensures Bit(H(x, y, z), n) == (Bit(x, n) + Bit(y, n) + Bit(z, n)) % 2
  {
    hide Bitwise, Bit;
    BitIsBit(x, n);
    BitIsBit(y, n);
    BitIsBit(z, n);
    BitwiseBit(Xor, x, y, n);
    BitwiseBit(Xor, BitXor(x, y), z, n);
  }

  /** I turns the bit of y over where x has a one or z a zero. */
  lemma ITurnsOver(x: Word, y: Word, z: Word, n: nat)
    requires n < 32
    ensures Bit(I(x, y, z), n) == if Bit(x, n) == 1 || Bit(z, n) == 0 then 1 - Bit(y, n) else Bit(y, n)
  {
    hide Bitwise, Bit;
    BitIsBit(x, n);
    BitIsBit(y, n);
    BitIsBit(z, n);
    NotBit(z, n);
    BitwiseBit(Or, x, BitNot(z), n);
    BitwiseBit(Xor, y, BitOr(x, BitNot(z)), n);
  }

  // ---- One operation on machine words

  datatype Registers = Registers(a: bv32, b: bv32, c: bv32, d: bv32)

  function StateOf(r: Registers): State {
    State(Value(r.a), Value(r.b), Value(r.c), Value(r.d))
  }

  function Mixed(round: nat, x: bv32, y: bv32, z: bv32): bv32 {
    match round
    case 0 => EitherOf(BothOf(x, y), BothOf(NotOf(x), z))
    case 1 => EitherOf(BothOf(x, z), BothOf(y, NotOf(z)))
    case 2 => DifferenceOf(DifferenceOf(x, y), z)
    case _ => DifferenceOf(y, EitherOf(x, NotOf(z)))
  }

  lemma MixedValue(round: nat, x: bv32, y: bv32, z: bv32)
    ensures Value(Mixed(round, x, y, z)) == Mix(round, Value(x), Value(y), Value(z))
  {
    hide Value, BitAnd, BitOr, BitXor, BitNot, EitherOf, BothOf, DifferenceOf, NotOf;
    NotOfValue(x);
    NotOfValue(z);
    match round
    case 0 =>
      BothValue(x, y);
      BothValue(NotOf(x), z);
      EitherValue(BothOf(x, y), BothOf(NotOf(x), z));
    case 1 =>
      BothValue(x, z);
      BothValue(y, NotOf(z));
      EitherValue(BothOf(x, z), BothOf(y, NotOf(z)));
    case 2 =>
      DifferenceValue(x, y);
      DifferenceValue(DifferenceOf(x, y), z);
    case _ =>
      EitherValue(x, NotOf(z));
      DifferenceValue(y, EitherOf(x, NotOf(z)));
  }

  function Plus(x: bv32, y: bv32): bv32 { x + y }

  lemma PlusValue(x: bv32, y: bv32)
    ensures Value(Plus(x, y)) == Add(Value(x), Value(y))
  {
    hide Value, Add;
    AddValue(x, y);
  }

  /** The recomputed register: message word w, table entry t, and a turn by n places. */
  function Recomputed(r: Registers, round: nat, w: bv32, t: bv32, n: nat): bv32
    requires n <= 32
  {
    Plus(Rotated(Plus(r.a, Plus(Plus(Mixed(round, r.b, r.c, r.d), w), t)), n), r.b)
  }

  /** One operation is what the machine computes. */
  lemma OperationOnMachine(r: Registers, x: seq<Word>, round: nat, i: nat, w: bv32, t: bv32)
    requires |x| == 16 && round < 4 && i < 16
    requires Value(w) == x[MessageIndex(round, i)] && Value(t) == T(round, i)
    ensures Operation(StateOf(r), x, round, i) ==
            StateOf(Registers(r.d, Recomputed(r, round, w, t, ShiftAmount(round, i)), r.b, r.c))
  {
    hide Value, Mixed, Mix, T, MessageIndex, ShiftAmount, Rotated, Plus, RotateLeft, Operation;
    var mixed, n := Mixed(round, r.b, r.c, r.d), ShiftAmount(round, i);
    MixedValue(round, r.b, r.c, r.d);
    PlusValue(mixed, w);
    PlusValue(Plus(mixed, w), t);
    PlusValue(r.a, Plus(Plus(mixed, w), t));
    var sum := Plus(r.a, Plus(Plus(mixed, w), t));
    RotatedValue(sum, n);
    PlusValue(Rotated(sum, n), r.b);
    StepIsOperation(StateOf(r), x, round, i);
  }
}
