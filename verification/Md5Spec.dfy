/**
 The MD5 message-digest function of RFC 1321, stated over whole messages: little-endian
 codings (section 2), padding and length (sections 3.1 and 3.2), initial state (3.3),
 the 64 operations as one indexed loop (3.4), and the digest (3.5).
 */
module Md5Spec {
  import opened Words

  // ---- Little-endian codings

  function ByteAt(w: Word, j: nat): Byte
    requires j < 4
  {
    match j
    case 0 => w % 0x100
    case 1 => (w / 0x100) % 0x100
    case 2 => (w / 0x1_0000) % 0x100
    case _ => (w / 0x100_0000) % 0x100
  }

  function WordFrom(b0: Byte, b1: Byte, b2: Byte, b3: Byte): Word {
    b0 + 0x100 * b1 + 0x1_0000 * b2 + 0x100_0000 * b3
  }

  function BytesOf(ws: seq<Word>): seq<Byte> {
    seq(4 * |ws|, j requires 0 <= j < 4 * |ws| => ByteAt(ws[j / 4], j % 4))
  }

  function WordsOf(bs: seq<Byte>): seq<Word> {
    seq(|bs| / 4, i requires 0 <= i < |bs| / 4 => WordFrom(bs[4 * i], bs[4 * i + 1], bs[4 * i + 2], bs[4 * i + 3]))
  }

  lemma WordSplit(w: Word)
    ensures w == WordFrom(ByteAt(w, 0), ByteAt(w, 1), ByteAt(w, 2), ByteAt(w, 3))
  {
    var h1 := w / 0x100;
    var h2 := h1 / 0x100;
    assert w == w % 0x100 + 0x100 * h1 && h1 == h1 % 0x100 + 0x100 * h2;
    assert w / 0x1_0000 == h2 && w / 0x100_0000 == h2 / 0x100;
  }

  lemma ByteJoin(b0: Byte, b1: Byte, b2: Byte, b3: Byte)
    ensures var w := WordFrom(b0, b1, b2, b3);
            ByteAt(w, 0) == b0 && ByteAt(w, 1) == b1 && ByteAt(w, 2) == b2 && ByteAt(w, 3) == b3
  {
    var h2 := b2 + 0x100 * b3;
    var h1 := b1 + 0x100 * h2;
    var w := b0 + 0x100 * h1;
    assert w / 0x100 == h1 && h1 / 0x100 == h2 && h2 / 0x100 == b3;
    assert w / 0x1_0000 == h2 && w / 0x100_0000 == b3;
  }

  lemma EncodedBytes(ws: seq<Word>, i: nat)
    requires i < |ws|
    ensures var bs := BytesOf(ws);
            bs[4 * i] == ByteAt(ws[i], 0) && bs[4 * i + 1] == ByteAt(ws[i], 1) &&
            bs[4 * i + 2] == ByteAt(ws[i], 2) && bs[4 * i + 3] == ByteAt(ws[i], 3)
  {
    assert (4 * i + 1) / 4 == i && (4 * i + 2) / 4 == i && (4 * i + 3) / 4 == i;
    assert (4 * i + 1) % 4 == 1 && (4 * i + 2) % 4 == 2 && (4 * i + 3) % 4 == 3;
  }

  /** Decoding undoes encoding. */
  lemma WordsOfBytesOf(ws: seq<Word>)
    ensures WordsOf(BytesOf(ws)) == ws
  {
    var bs := BytesOf(ws);
    forall i | 0 <= i < |ws|
      ensures WordsOf(bs)[i] == ws[i]
    {
      EncodedBytes(ws, i);
      WordSplit(ws[i]);
    }
  }

  /** Encoding undoes decoding, on whole words. */
  lemma BytesOfWordsOf(bs: seq<Byte>)
    requires |bs| % 4 == 0
    ensures BytesOf(WordsOf(bs)) == bs
  {
    var ws := WordsOf(bs);
    forall j | 0 <= j < |bs|
      ensures BytesOf(ws)[j] == bs[j]
    {
      var i := j / 4;
      assert j == 4 * i + j % 4 && i < |ws|;
      ByteJoin(bs[4 * i], bs[4 * i + 1], bs[4 * i + 2], bs[4 * i + 3]);
    }
  }

  // ---- The compression function

  datatype State = State(a: Word, b: Word, c: Word, d: Word)

  const INITIAL := State(0x67452301, 0xefcdab89, 0x98badcfe, 0x10325476)

  function F(x: Word, y: Word, z: Word): Word { BitOr(BitAnd(x, y), BitAnd(BitNot(x), z)) }
  function G(x: Word, y: Word, z: Word): Word { BitOr(BitAnd(x, z), BitAnd(y, BitNot(z))) }
  function H(x: Word, y: Word, z: Word): Word { BitXor(BitXor(x, y), z) }
  function I(x: Word, y: Word, z: Word): Word { BitXor(y, BitOr(x, BitNot(z))) }

  function Mix(round: nat, x: Word, y: Word, z: Word): Word {
    match round
    case 0 => F(x, y, z)
    case 1 => G(x, y, z)
    case 2 => H(x, y, z)
    case _ => I(x, y, z)
  }

  /** Which message word operation i of a round uses. */
  function MessageIndex(round: nat, i: nat): (k: nat)
    ensures k < 16
  {
    match round
    case 0 => i % 16
    case 1 => (5 * i + 1) % 16
    case 2 => (3 * i + 5) % 16
    case _ => (7 * i) % 16
  }

  function ShiftAmount(round: nat, i: nat): (s: nat)
    ensures 0 < s < 32
  {
    var k := i % 4;
    match round
    case 0 => if k == 0 then 7 else if k == 1 then 12 else if k == 2 then 17 else 22
    case 1 => if k == 0 then 5 else if k == 1 then 9 else if k == 2 then 14 else 20
    case 2 => if k == 0 then 4 else if k == 1 then 11 else if k == 2 then 16 else 23
    case _ => if k == 0 then 6 else if k == 1 then 10 else if k == 2 then 15 else 21
  }

  /** The table T of section 3.4, sixteen entries for each round. */
  function T(round: nat, i: nat): Word
    requires round < 4 && i < 16
  {
    match round
    case 0 => Row0(i)
    case 1 => Row1(i)
    case 2 => Row2(i)
    case _ => Row3(i)
  }

  function Row0(i: nat): Word {
    match i
    case 0 => 0xd76aa478
    case 1 => 0xe8c7b756
    case 2 => 0x242070db
    case 3 => 0xc1bdceee
    case 4 => 0xf57c0faf
    case 5 => 0x4787c62a
    case 6 => 0xa8304613
    case 7 => 0xfd469501
    case 8 => 0x698098d8
    case 9 => 0x8b44f7af
    case 10 => 0xffff5bb1
    case 11 => 0x895cd7be
    case 12 => 0x6b901122
    case 13 => 0xfd987193
    case 14 => 0xa679438e
    case _ => 0x49b40821
  }

  function Row1(i: nat): Word {
    match i
    case 0 => 0xf61e2562
    case 1 => 0xc040b340
    case 2 => 0x265e5a51
    case 3 => 0xe9b6c7aa
    case 4 => 0xd62f105d
    case 5 => 0x02441453
    case 6 => 0xd8a1e681
    case 7 => 0xe7d3fbc8
    case 8 => 0x21e1cde6
    case 9 => 0xc33707d6
    case 10 => 0xf4d50d87
    case 11 => 0x455a14ed
    case 12 => 0xa9e3e905
    case 13 => 0xfcefa3f8
    case 14 => 0x676f02d9
    case _ => 0x8d2a4c8a
  }

  function Row2(i: nat): Word {
    match i
    case 0 => 0xfffa3942
    case 1 => 0x8771f681
    case 2 => 0x6d9d6122
    case 3 => 0xfde5380c
    case 4 => 0xa4beea44
    case 5 => 0x4bdecfa9
    case 6 => 0xf6bb4b60
    case 7 => 0xbebfbc70
    case 8 => 0x289b7ec6
    case 9 => 0xeaa127fa
    case 10 => 0xd4ef3085
    case 11 => 0x04881d05
    case 12 => 0xd9d4d039
    case 13 => 0xe6db99e5
    case 14 => 0x1fa27cf8
    case _ => 0xc4ac5665
  }

  function Row3(i: nat): Word {
    match i
    case 0 => 0xf4292244
    case 1 => 0x432aff97
    case 2 => 0xab9423a7
    case 3 => 0xfc93a039
    case 4 => 0x655b59c3
    case 5 => 0x8f0ccc92
    case 6 => 0xffeff47d
    case 7 => 0x85845dd1
    case 8 => 0x6fa87e4f
    case 9 => 0xfe2ce6e0
    case 10 => 0xa3014314
    case 11 => 0x4e0811a1
    case 12 => 0xf7537e82
    case 13 => 0xbd3af235
    case 14 => 0x2ad7d2bb
    case _ => 0xeb86d391
  }

  /** Operation i of a round: the four registers move one place and one is recomputed. */
  function Operation(s: State, x: seq<Word>, round: nat, i: nat): State
    requires |x| == 16 && round < 4 && i < 16
  {
    var sum := (s.a + Mix(round, s.b, s.c, s.d) + x[MessageIndex(round, i)] + T(round, i)) % WORD_SIZE;
    State(s.d, (s.b + Circular(sum, ShiftAmount(round, i))) % WORD_SIZE, s.b, s.c)
  }

  /** The first n operations of a round. */
  function Operations(s: State, x: seq<Word>, round: nat, n: nat): State
    requires |x| == 16 && round < 4 && n <= 16
    decreases |x|, n
  {
    if n == 0 then s else Operation(Operations(s, x, round, n - 1), x, round, n - 1)
  }

  function Rounds(s: State, x: seq<Word>): State
    requires |x| == 16
  {
    var s1 := Operations(s, x, 0, |x|);
    var s2 := Operations(s1, x, 1, |x|);
    var s3 := Operations(s2, x, 2, |x|);
    Operations(s3, x, 3, |x|)
  }

  type Block = b: seq<Byte> | |b| == 64 witness seq(64, _ => 0)

  function Compress(s: State, block: Block): State
  {
    var t := Rounds(s, WordsOf(block));
    State((s.a + t.a) % WORD_SIZE, (s.b + t.b) % WORD_SIZE, (s.c + t.c) % WORD_SIZE, (s.d + t.d) % WORD_SIZE)
  }

  // ---- Whole messages

  /** The state after the blocks of bytes, for any compression function. */
  function Fold(compress: (State, Block) -> State, s: State, bytes: seq<Byte>): State
    requires |bytes| % 64 == 0
    decreases |bytes|
  {
    if |bytes| < 64 then s else Fold(compress, compress(s, bytes[..64]), bytes[64..])
  }

  lemma {:induction false} FoldAppend(compress: (State, Block) -> State, s: State, xs: seq<Byte>, ys: seq<Byte>)
    requires |xs| % 64 == 0 && |ys| % 64 == 0
    ensures Fold(compress, s, xs + ys) == Fold(compress, Fold(compress, s, xs), ys)
    decreases |xs|
  {
    if |xs| < 64 {
      assert xs == [] && xs + ys == ys;
    } else {
      assert (xs + ys)[..64] == xs[..64] && (xs + ys)[64..] == xs[64..] + ys;
      FoldAppend(compress, compress(s, xs[..64]), xs[64..], ys);
    }
  }

  lemma FoldBlock(compress: (State, Block) -> State, s: State, xs: seq<Byte>, block: Block)
    requires |xs| % 64 == 0
    ensures Fold(compress, s, xs + block) == compress(Fold(compress, s, xs), block)
  {
    FoldAppend(compress, s, xs, block);
    assert block[..64] == block && block[64..] == [];
  }

  /** A one bit and then zero bits up to 448 modulo 512 bits; at least one bit is added. */
  function Padding(length: nat): seq<Byte> {
    [0x80] + seq((55 - length) % 64, _ => 0)
  }

  /** The message length in bits modulo 2^64, low-order word first. */
  function LengthWords(length: nat): (words: seq<Word>)
    ensures |words| == 2
  {
    [(8 * length) % WORD_SIZE, (8 * length / WORD_SIZE) % WORD_SIZE]
  }

  function Padded(message: seq<Byte>): (r: seq<Byte>)
    ensures |r| % 64 == 0
  {
    message + Padding(|message|) + BytesOf(LengthWords(|message|))
  }

  function Md5(message: seq<Byte>): (digest: seq<Byte>)
    ensures |digest| == 16
  {
    var s := Fold(Compress, INITIAL, Padded(message));
    BytesOf([s.a, s.b, s.c, s.d])
  }
}
