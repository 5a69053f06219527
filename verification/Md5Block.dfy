/**
 The streaming MD5 implementation: a context with a four-word state, a 64-bit bit counter held
 in two words and a 64-byte carry buffer, updated in place.
 */
module Md5Block {
  import opened Words
  import opened Md5Spec

  // ---- Encode and Decode

  method Encode(output: array<Byte>, input: array<Word>, len: nat)
    requires len % 4 == 0 && len <= output.Length && len <= 4 * input.Length
    modifies output
    ensures output[..len] == BytesOf(input[..len / 4])
    ensures output[len..] == old(output[len..])
  {
    hide BitAnd, ShiftRight, ByteAt;
    var i, j := 0, 0;
    while j < len
      invariant j == 4 * i && j <= len
      invariant forall m :: 0 <= m < i ==> Quad(output[..], m, input[m])
      invariant forall k :: len <= k < output.Length ==> output[k] == old(output[k])
    {
      EncodeStep(input[i]);
      output[j] := BitAnd(input[i], 0xff);
      output[j + 1] := BitAnd(ShiftRight(input[i], 8), 0xff);
      output[j + 2] := BitAnd(ShiftRight(input[i], 16), 0xff);
      output[j + 3] := BitAnd(ShiftRight(input[i], 24), 0xff);
      i, j := i + 1, j + 4;
    }
    QuadsAreBytes(output[..len], input[..i]);
  }

  /** bytes 4m to 4m + 3 are the coding of w. */
  predicate Quad(bytes: seq<Byte>, m: nat, w: Word) {
    4 * m + 3 < |bytes| &&
    bytes[4 * m] == ByteAt(w, 0) && bytes[4 * m + 1] == ByteAt(w, 1) &&
    bytes[4 * m + 2] == ByteAt(w, 2) && bytes[4 * m + 3] == ByteAt(w, 3)
  }

  lemma QuadsAreBytes(bytes: seq<Byte>, ws: seq<Word>)
    requires |bytes| == 4 * |ws|
    requires forall m :: 0 <= m < |ws| ==> Quad(bytes, m, ws[m])
    ensures bytes == BytesOf(ws)
  {
    hide ByteAt;
    forall k | 0 <= k < |bytes|
      ensures bytes[k] == ByteAt(ws[k / 4], k % 4)
    {
      assert Quad(bytes, k / 4, ws[k / 4]);
      assert k == 4 * (k / 4) + k % 4;
    }
  }

  lemma BytePowers()
    ensures Pow2(8) == 0x100 && Pow2(16) == 0x1_0000 && Pow2(24) == 0x100_0000
  {
    Pow2Sum(4, 4);
    Pow2Sum(8, 8);
    Pow2Sum(8, 16);
  }

  lemma EncodeStep(w: Word)
    ensures BitAnd(w, 0xff) == ByteAt(w, 0)
    ensures BitAnd(ShiftRight(w, 8), 0xff) == ByteAt(w, 1)
    ensures BitAnd(ShiftRight(w, 16), 0xff) == ByteAt(w, 2)
    ensures BitAnd(ShiftRight(w, 24), 0xff) == ByteAt(w, 3)
  {
    BytePowers();
    AndMask(w, 8);
    AndMask(ShiftRight(w, 8), 8);
    AndMask(ShiftRight(w, 16), 8);
    AndMask(ShiftRight(w, 24), 8);
  }

  method Decode(output: array<Word>, input: seq<Byte>, len: nat)
    requires len % 4 == 0 && len <= |input| && len <= 4 * output.Length
    modifies output
    ensures output[..len / 4] == WordsOf(input[..len])
    ensures output[len / 4..] == old(output[len / 4..])
  {
    var i, j := 0, 0;
    while j < len
      invariant j == 4 * i && j <= len
      invariant forall k :: 0 <= k < i ==>
        output[k] == WordFrom(input[4 * k], input[4 * k + 1], input[4 * k + 2], input[4 * k + 3])
      invariant forall k :: len / 4 <= k < output.Length ==> output[k] == old(output[k])
    {
      hide BitOr, ShiftLeft;
      DecodeStep(input[j], input[j + 1], input[j + 2], input[j + 3]);
      output[i] := BitOr(BitOr(BitOr(input[j], ShiftLeft(input[j + 1], 8)), ShiftLeft(input[j + 2], 16)),
                         ShiftLeft(input[j + 3], 24));
      i, j := i + 1, j + 4;
    }
  }

  lemma DecodeStep(b0: Byte, b1: Byte, b2: Byte, b3: Byte)
    ensures BitOr(BitOr(BitOr(b0, ShiftLeft(b1, 8)), ShiftLeft(b2, 16)), ShiftLeft(b3, 24)) == WordFrom(b0, b1, b2, b3)
  {
    BytePowers();
    hide Pow2, Bitwise;
    OrDisjoint(b0, b1, 8);
    var w1 := b0 + 0x100 * b1;
    assert BitOr(b0, ShiftLeft(b1, 8)) == w1;
    OrDisjoint(w1, b2, 16);
    var w2 := w1 + 0x1_0000 * b2;
    assert BitOr(w1, ShiftLeft(b2, 16)) == w2;
    OrDisjoint(w2, b3, 24);
  }

  // ---- Transform

  /** The common shape of the four step macros, mixed being the round function's value. */
  function Step(mixed: Word, a: Word, b: Word, x: Word, s: nat, ac: Word): Word
    requires s < 32
  {
    Add(RotateLeft(Add(a, Add(Add(mixed, x), ac)), s), b)
  }

  function FF(a: Word, b: Word, c: Word, d: Word, x: Word, s: nat, ac: Word): Word
    requires s < 32
  {
    Step(F(b, c, d), a, b, x, s, ac)
  }

  function GG(a: Word, b: Word, c: Word, d: Word, x: Word, s: nat, ac: Word): Word
    requires s < 32
  {
    Step(G(b, c, d), a, b, x, s, ac)
  }

  function HH(a: Word, b: Word, c: Word, d: Word, x: Word, s: nat, ac: Word): Word
    requires s < 32
  {
    Step(H(b, c, d), a, b, x, s, ac)
  }

  function II(a: Word, b: Word, c: Word, d: Word, x: Word, s: nat, ac: Word): Word
    requires s < 32
  {
    Step(I(b, c, d), a, b, x, s, ac)
  }

  /** A step macro's nested additions and shift idiom compute the operation of RFC 1321. */
  lemma StepIsOperation(s: State, x: seq<Word>, round: nat, i: nat)
    requires |x| == 16 && round < 4 && i < 16
    ensures Operation(s, x, round, i) ==
            State(s.d,
                  Step(Mix(round, s.b, s.c, s.d), s.a, s.b, x[MessageIndex(round, i)], ShiftAmount(round, i),
                       T(round, i)),
                  s.b, s.c)
  {
    hide Mix, Circular, RotateLeft, T, MessageIndex, ShiftAmount;
    var m, w, t := Mix(round, s.b, s.c, s.d), x[MessageIndex(round, i)], T(round, i);
    SumOfFour(s.a, m, w, t);
    var sum := (s.a + m + w + t) % WORD_SIZE;
    RotateIsCircular(sum, ShiftAmount(round, i));
    assert Add(Circular(sum, ShiftAmount(round, i)), s.b) == (s.b + Circular(sum, ShiftAmount(round, i))) % WORD_SIZE;
    hide Add;
  }

  lemma SumOfFour(a: Word, m: Word, w: Word, t: Word)
    ensures Add(a, Add(Add(m, w), t)) == (a + m + w + t) % WORD_SIZE
  {
    AddReduced(m + w, t);
    AddReduced(m + w + t, a);
  }

  /** One register update of the unrolled code. */
  function Unrolled(round: nat, i: nat, a: Word, b: Word, c: Word, d: Word, x: seq<Word>): Word
    requires |x| == 16 && round < 4 && i < 16
  {
    Step(Mix(round, b, c, d), a, b, x[MessageIndex(round, i)], ShiftAmount(round, i), T(round, i))
  }

  /** Four unrolled updates bring the registers back to their names. */
  lemma FourSteps(s: State, x: seq<Word>, round: nat, i: nat)
    requires |x| == 16 && round < 4 && i + 4 <= 16
    ensures var o := Operations(s, x, round, i);
            var a := Unrolled(round, i, o.a, o.b, o.c, o.d, x);
            var d := Unrolled(round, i + 1, o.d, a, o.b, o.c, x);
            var c := Unrolled(round, i + 2, o.c, d, a, o.b, x);
            var b := Unrolled(round, i + 3, o.b, c, d, a, x);
            Operations(s, x, round, i + 4) == State(a, b, c, d)
  {
    hide Operation, Step, Mix, MessageIndex, ShiftAmount, T;
    var o0 := Operations(s, x, round, i);
    var o1 := Operations(s, x, round, i + 1);
    var o2 := Operations(s, x, round, i + 2);
    var o3 := Operations(s, x, round, i + 3);
    StepIsOperation(o0, x, round, i);
    StepIsOperation(o1, x, round, i + 1);
    StepIsOperation(o2, x, round, i + 2);
    StepIsOperation(o3, x, round, i + 3);
  }

  method Round1(s: State, x: array<Word>) returns (r: State)
    requires x.Length == 16
    ensures r == Operations(s, x[..], 0, 16)
  {
    hide Step, F, Operation;
    var a, b, c, d := s.a, s.b, s.c, s.d;
    a := FF(a, b, c, d, x[0], 7, 0xd76aa478);
    d := FF(d, a, b, c, x[1], 12, 0xe8c7b756);
    c := FF(c, d, a, b, x[2], 17, 0x242070db);
    b := FF(b, c, d, a, x[3], 22, 0xc1bdceee);
    FourSteps(s, x[..], 0, 0);
    a := FF(a, b, c, d, x[4], 7, 0xf57c0faf);
    d := FF(d, a, b, c, x[5], 12, 0x4787c62a);
    c := FF(c, d, a, b, x[6], 17, 0xa8304613);
    b := FF(b, c, d, a, x[7], 22, 0xfd469501);
    FourSteps(s, x[..], 0, 4);
    a := FF(a, b, c, d, x[8], 7, 0x698098d8);
    d := FF(d, a, b, c, x[9], 12, 0x8b44f7af);
    c := FF(c, d, a, b, x[10], 17, 0xffff5bb1);
    b := FF(b, c, d, a, x[11], 22, 0x895cd7be);
    FourSteps(s, x[..], 0, 8);
    a := FF(a, b, c, d, x[12], 7, 0x6b901122);
    d := FF(d, a, b, c, x[13], 12, 0xfd987193);
    c := FF(c, d, a, b, x[14], 17, 0xa679438e);
    b := FF(b, c, d, a, x[15], 22, 0x49b40821);
    FourSteps(s, x[..], 0, 12);
    r := State(a, b, c, d);
  }

  method Round2(s: State, x: array<Word>) returns (r: State)
    requires x.Length == 16
    ensures r == Operations(s, x[..], 1, 16)
  {
    hide Step, G, Operation;
    var a, b, c, d := s.a, s.b, s.c, s.d;
    a := GG(a, b, c, d, x[1], 5, 0xf61e2562);
    d := GG(d, a, b, c, x[6], 9, 0xc040b340);
    c := GG(c, d, a, b, x[11], 14, 0x265e5a51);
    b := GG(b, c, d, a, x[0], 20, 0xe9b6c7aa);
    FourSteps(s, x[..], 1, 0);
    a := GG(a, b, c, d, x[5], 5, 0xd62f105d);
    d := GG(d, a, b, c, x[10], 9, 0x2441453);
    c := GG(c, d, a, b, x[15], 14, 0xd8a1e681);
    b := GG(b, c, d, a, x[4], 20, 0xe7d3fbc8);
    FourSteps(s, x[..], 1, 4);
    a := GG(a, b, c, d, x[9], 5, 0x21e1cde6);
    d := GG(d, a, b, c, x[14], 9, 0xc33707d6);
    c := GG(c, d, a, b, x[3], 14, 0xf4d50d87);
    b := GG(b, c, d, a, x[8], 20, 0x455a14ed);
    FourSteps(s, x[..], 1, 8);
    a := GG(a, b, c, d, x[13], 5, 0xa9e3e905);
    d := GG(d, a, b, c, x[2], 9, 0xfcefa3f8);
    c := GG(c, d, a, b, x[7], 14, 0x676f02d9);
    b := GG(b, c, d, a, x[12], 20, 0x8d2a4c8a);
    FourSteps(s, x[..], 1, 12);
    r := State(a, b, c, d);
  }

  method Round3(s: State, x: array<Word>) returns (r: State)
    requires x.Length == 16
    ensures r == Operations(s, x[..], 2, 16)
  {
    hide Step, H, Operation;
    var a, b, c, d := s.a, s.b, s.c, s.d;
    a := HH(a, b, c, d, x[5], 4, 0xfffa3942);
    d := HH(d, a, b, c, x[8], 11, 0x8771f681);
    c := HH(c, d, a, b, x[11], 16, 0x6d9d6122);
    b := HH(b, c, d, a, x[14], 23, 0xfde5380c);
    FourSteps(s, x[..], 2, 0);
    a := HH(a, b, c, d, x[1], 4, 0xa4beea44);
    d := HH(d, a, b, c, x[4], 11, 0x4bdecfa9);
    c := HH(c, d, a, b, x[7], 16, 0xf6bb4b60);
    b := HH(b, c, d, a, x[10], 23, 0xbebfbc70);
    FourSteps(s, x[..], 2, 4);
    a := HH(a, b, c, d, x[13], 4, 0x289b7ec6);
    d := HH(d, a, b, c, x[0], 11, 0xeaa127fa);
    c := HH(c, d, a, b, x[3], 16, 0xd4ef3085);
    b := HH(b, c, d, a, x[6], 23, 0x4881d05);
    FourSteps(s, x[..], 2, 8);
    a := HH(a, b, c, d, x[9], 4, 0xd9d4d039);
    d := HH(d, a, b, c, x[12], 11, 0xe6db99e5);
    c := HH(c, d, a, b, x[15], 16, 0x1fa27cf8);
    b := HH(b, c, d, a, x[2], 23, 0xc4ac5665);
    FourSteps(s, x[..], 2, 12);
    r := State(a, b, c, d);
  }

  method Round4(s: State, x: array<Word>) returns (r: State)
    requires x.Length == 16
    ensures r == Operations(s, x[..], 3, 16)
  {
    hide Step, I, Operation;
    var a, b, c, d := s.a, s.b, s.c, s.d;
    a := II(a, b, c, d, x[0], 6, 0xf4292244);
    d := II(d, a, b, c, x[7], 10, 0x432aff97);
    c := II(c, d, a, b, x[14], 15, 0xab9423a7);
    b := II(b, c, d, a, x[5], 21, 0xfc93a039);
    FourSteps(s, x[..], 3, 0);
    a := II(a, b, c, d, x[12], 6, 0x655b59c3);
    d := II(d, a, b, c, x[3], 10, 0x8f0ccc92);
    c := II(c, d, a, b, x[10], 15, 0xffeff47d);
    b := II(b, c, d, a, x[1], 21, 0x85845dd1);
    FourSteps(s, x[..], 3, 4);
    a := II(a, b, c, d, x[8], 6, 0x6fa87e4f);
    d := II(d, a, b, c, x[15], 10, 0xfe2ce6e0);
    c := II(c, d, a, b, x[6], 15, 0xa3014314);
    b := II(b, c, d, a, x[13], 21, 0x4e0811a1);
    FourSteps(s, x[..], 3, 8);
    a := II(a, b, c, d, x[4], 6, 0xf7537e82);
    d := II(d, a, b, c, x[11], 10, 0xbd3af235);
    c := II(c, d, a, b, x[2], 15, 0x2ad7d2bb);
    b := II(b, c, d, a, x[9], 21, 0xeb86d391);
    FourSteps(s, x[..], 3, 12);
    r := State(a, b, c, d);
  }

  method Transform(state: array<Word>, block: Block)
    requires state.Length == 4
    modifies state
    ensures StateOf(state) == Compress(old(StateOf(state)), block)
  {
    hide Operations;
    var x := new Word[16];
    Decode(x, block, 64);
    assert block[..64] == block && x[..16] == x[..];
    var s := State(state[0], state[1], state[2], state[3]);
    var r := Round1(s, x);
    r := Round2(r, x);
    r := Round3(r, x);
    r := Round4(r, x);
    state[0] := Add(state[0], r.a);
    state[1] := Add(state[1], r.b);
    state[2] := Add(state[2], r.c);
    state[3] := Add(state[3], r.d);
  }

  function StateOf(state: array<Word>): State
    requires state.Length == 4
    reads state
  {
    State(state[0], state[1], state[2], state[3])
  }
}
