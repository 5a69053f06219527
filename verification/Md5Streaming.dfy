/** The streaming interface: Init, any number of Update calls, Final. */
module Md5Streaming {
  import opened Words
  import opened Md5Spec
  import Md5Block

  /** The whole blocks of a message, which the state has absorbed. */
  function Whole(message: seq<Byte>): (w: seq<Byte>)
    ensures |w| % 64 == 0 && |w| + |message| % 64 == |message|
  {
    message[..|message| - |message| % 64]
  }

  /** The bytes after the last whole block, which wait in the carry buffer. */
  function Tail(message: seq<Byte>): seq<Byte> {
    message[|message| - |message| % 64..]
  }

  class Context {
    const state: array<Word>
    const count: array<Word>
    const buffer: array<Byte>
    ghost var message: seq<Byte>

    ghost predicate Shape()
      reads this
    {
      state.Length == 4 && count.Length == 2 && buffer.Length == 64 && state != count
    }

    /** The state is that of the whole blocks that make up the bytes. */
    ghost predicate Absorbed(bytes: seq<Byte>)
      requires Shape()
      reads this, state
    {
      |bytes| % 64 == 0 && Md5Block.StateOf(state) == Fold(Compress, INITIAL, bytes)
    }

    /** The context represents the bytes received since Init. */
    ghost predicate Valid()
      reads this, state, count, buffer
    {
      Shape() &&
      Absorbed(Whole(message)) &&
      count[..] == LengthWords(|message|) &&
      buffer[..|message| % 64] == Tail(message)
    }

    constructor ()
      ensures Shape() && fresh(state) && fresh(count) && fresh(buffer)
    {
      state := new Word[4];
      count := new Word[2];
      buffer := new Byte[64];
    }

    method Init()
      requires Shape()
      modifies this, state, count
      ensures Valid() && message == []
    {
      count[0], count[1] := 0, 0;
      state[0] := 0x67452301;
      state[1] := 0xefcdab89;
      state[2] := 0x98badcfe;
      state[3] := 0x10325476;
      message := [];
    }

    /** memcpy into the carry buffer. */
    method CopyIn(index: nat, bytes: seq<Byte>)
      requires Shape() && index + |bytes| <= 64
      modifies buffer
      ensures buffer[..index + |bytes|] == old(buffer[..index]) + bytes
    {
      forall k | 0 <= k < |bytes| {
        buffer[index + k] := bytes[k];
      }
    }

    /** Adds 8 * inputLen to the 64-bit counter with 32-bit operations. */
    method CountBits(inputLen: nat)
      requires Valid() && inputLen < WORD_SIZE
      modifies count
      ensures count[..] == LengthWords(|message| + inputLen)
    {
      hide ShiftLeft, ShiftRight, Add, LengthWords, Absorbed, Whole, Tail;
      CountCarries(|message|, inputLen);
      var bits := ShiftLeft(inputLen, 3);
      count[0] := Add(count[0], bits);
      if count[0] < bits {
        count[1] := Add(count[1], 1);
      }
      count[1] := Add(count[1], ShiftRight(inputLen, 29));
    }

    /**
     Transforms the 64-byte blocks of input from byte i on and returns where it stopped; the
     blocks before byte i are already in the state.
     */
    method TransformBlocks(input: seq<Byte>, partLen: nat, ghost before: seq<Byte>) returns (i: nat)
      requires Shape() && 0 < partLen <= 64 && partLen <= |input|
      requires (64 - partLen) + |input| < WORD_SIZE
      requires Absorbed(before + input[..partLen])
      modifies state
      ensures partLen <= i <= |input| < i + 64
      ensures Absorbed(before + input[..i])
    {
      hide Compress, Fold, Md5Block.StateOf;
      var inputLen := |input|;
      i := partLen;
      while (i + 63) % WORD_SIZE < inputLen
        invariant partLen <= i <= inputLen && (i - partLen) % 64 == 0
        invariant Absorbed(before + input[..i])
        decreases inputLen - i
      {
        NoWrap(partLen, inputLen, i);
        FoldBlock(Compress, INITIAL, before + input[..i], input[i..i + 64]);
        assert before + input[..i] + input[i..i + 64] == before + input[..i + 64];
        Md5Block.Transform(state, input[i..i + 64]);
        i := i + 64;
      }
      NoWrap(partLen, inputLen, i);
    }

    /** The 32-bit loop counter must not wrap: the bytes waiting and the new ones stay below 2^32. */
    method Update(input: seq<Byte>)
      requires Valid() && |message| % 64 + |input| < WORD_SIZE
      modifies this, state, count, buffer
      ensures Valid() && message == old(message) + input
    {
      hide Compress, Fold, Whole, Tail, LengthWords, Md5Block.StateOf;
      var inputLen := |input|;
      var index := BufferIndex();
      CountBits(inputLen);
      var partLen := 64 - index;
      var i := 0;
      if inputLen >= partLen {
        i := FillAndTransform(input, index, Whole(message), Tail(message));
        index := 0;
      }
      CopyIn(index, input[i..]);
      AfterUpdate(message, input, i);
      message := message + input;
    }

    /**
     Completes the buffered block, transforms it and then the whole blocks that follow in input.
     Before the call the state stands for whole and the buffer for waiting.
     */
    method FillAndTransform(input: seq<Byte>, index: nat, ghost whole: seq<Byte>, ghost waiting: seq<Byte>)
      returns (i: nat)
      requires Shape() && index < 64 && 64 - index <= |input| && index + |input| < WORD_SIZE
      requires |waiting| == index && Absorbed(whole)
      requires buffer[..index] == waiting
      modifies state, buffer
      ensures 0 < i <= |input| < i + 64
      ensures Absorbed(whole + waiting + input[..i])
    {
      hide Compress, Fold, Md5Block.StateOf;
      var partLen := 64 - index;
      CopyIn(index, input[..partLen]);
      ghost var first := waiting + input[..partLen];
      assert buffer[..] == first;
      FoldBlock(Compress, INITIAL, whole, first);
      Md5Block.Transform(state, buffer[..]);
      assert whole + first == (whole + waiting) + input[..partLen];
      i := TransformBlocks(input, partLen, whole + waiting);
    }

    /** Number of bytes waiting in the buffer, computed from the bit counter. */
    method BufferIndex() returns (index: nat)
      requires Valid()
      ensures index == |message| % 64
    {
      CounterIndex(|message|);
      index := BitAnd(ShiftRight(count[0], 3), 0x3f);
    }

    method Final(digest: array<Byte>)
      requires Valid() && digest.Length == 16 && digest != buffer
      modifies this, state, count, buffer, digest
      ensures digest[..] == Md5(old(message))
      ensures Shape() && AllZero(state[..]) && AllZero(count[..]) && AllZero(buffer[..])
    {
      hide Compress, Fold, LengthWords, BytesOf, Padding, Whole, Tail;
      var bits := new Byte[8];
      Md5Block.Encode(bits, count, 8);
      assert bits[..] == BytesOf(LengthWords(|message|)) by {
        assert bits[..8] == bits[..] && count[..2] == count[..];
      }
      var index := BufferIndex();
      var padLen := if index < 56 then 56 - index else 120 - index;
      var padding := [0x80] + seq(63, _ => 0);
      PaddingPrefix(|message|, padding);
      Update(padding[..padLen]);
      Update(bits[..]);
      WholePadded(old(message));
      Md5Block.Encode(digest, state, 16);
      assert digest[..16] == digest[..];
      assert state[..4] == [state[0], state[1], state[2], state[3]];
      Clear();
    }

    method Clear()
      requires Shape()
      modifies this, state, count, buffer
      ensures AllZero(state[..]) && AllZero(count[..]) && AllZero(buffer[..])
    {
      forall k | 0 <= k < 4 { state[k] := 0; }
      forall k | 0 <= k < 2 { count[k] := 0; }
      forall k | 0 <= k < 64 { buffer[k] := 0; }
      message := [];
    }
  }

  lemma WholePadded(message: seq<Byte>)
    ensures message + Padding(|message|) + BytesOf(LengthWords(|message|)) == Padded(message)
    ensures Whole(Padded(message)) == Padded(message)
  {
  }

  predicate AllZero(s: seq<int>) {
    forall k :: 0 <= k < |s| ==> s[k] == 0
  }

  lemma PaddingPrefix(n: nat, padding: seq<Byte>)
    requires padding == [0x80] + seq(63, _ => 0)
    ensures var index := n % 64;
            var padLen := if index < 56 then 56 - index else 120 - index;
            1 <= padLen <= 64 && padding[..padLen] == Padding(n)
  {
    var index := n % 64;
    var q := n / 64;
    if index < 56 {
      DivMod(55 - n, 64, -q, 55 - index);
    } else {
      DivMod(55 - n, 64, -q - 1, 119 - index);
    }
  }

  lemma DivMod(x: int, d: nat, q: int, r: nat)
    requires x == d * q + r && r < d && d == 64
    ensures x % d == r
  {
  }

  lemma CountCarries(n: nat, inputLen: nat)
    requires inputLen < WORD_SIZE
    ensures var low, high := LengthWords(n)[0], LengthWords(n)[1];
            var bits := ShiftLeft(inputLen, 3);
            var low' := Add(low, bits);
            var high' := Add(if low' < bits then Add(high, 1) else high, ShiftRight(inputLen, 29));
            [low', high'] == LengthWords(n + inputLen)
  {
    hide ShiftLeft, ShiftRight, Add;
    var x, y := 8 * n, 8 * inputLen;
    ShiftValues(inputLen);
    CarryRule(x % WORD_SIZE, y % WORD_SIZE);
    SumWithCarry(x, y);
    var carry := if x % WORD_SIZE + y % WORD_SIZE >= WORD_SIZE then 1 else 0;
    AddMod(x / WORD_SIZE, y / WORD_SIZE, carry);
  }

  lemma SumWithCarry(x: nat, y: nat)
    ensures var carry := if x % WORD_SIZE + y % WORD_SIZE >= WORD_SIZE then 1 else 0;
            (x + y) % WORD_SIZE == x % WORD_SIZE + y % WORD_SIZE - carry * WORD_SIZE &&
            (x + y) / WORD_SIZE == x / WORD_SIZE + y / WORD_SIZE + carry
  {
    var carry := if x % WORD_SIZE + y % WORD_SIZE >= WORD_SIZE then 1 else 0;
    DivModUnique(x + y, WORD_SIZE, x / WORD_SIZE + y / WORD_SIZE + carry,
                 x % WORD_SIZE + y % WORD_SIZE - carry * WORD_SIZE);
  }

  lemma CarryRule(low: Word, b: Word)
    ensures Add(low, b) == if low + b >= WORD_SIZE then low + b - WORD_SIZE else low + b
    ensures Add(low, b) < b <==> low + b >= WORD_SIZE
  {
  }

  lemma AddMod(hi: nat, h: Word, carry: Word)
    ensures Add(Add(hi % WORD_SIZE, carry), h) == (hi + h + carry) % WORD_SIZE
    ensures Add(hi % WORD_SIZE, h) == (hi + h) % WORD_SIZE
  {
    AddReduced(hi, carry);
    AddReduced(hi + carry, h);
    AddReduced(hi, h);
  }

  lemma ShiftValues(L: Word)
    ensures ShiftLeft(L, 3) == (8 * L) % WORD_SIZE
    ensures ShiftRight(L, 29) == 8 * L / WORD_SIZE
  {
    Pow2Sum(1, 2);
    Pow2Sum(3, 29);
    WordBits();
    assert Pow2(3) == 8 && Pow2(29) == 0x2000_0000;
  }

  lemma CounterIndex(n: nat)
    ensures BitAnd(ShiftRight((8 * n) % WORD_SIZE, 3), 0x3f) == n % 64
  {
    var q, r := n / 0x2000_0000, n % 0x2000_0000;
    DivModUnique(8 * n, WORD_SIZE, q, 8 * r);
    assert Pow2(3) == 8 && Pow2(6) == 64;
    DivModUnique(8 * r, 8, r, 0);
    AndMask(r, 6);
    var q', r' := r / 64, r % 64;
    assert n == 64 * (0x80_0000 * q + q') + r';
    DivModUnique(n, 64, 0x80_0000 * q + q', r');
  }

  lemma NoWrap(partLen: nat, inputLen: nat, i: nat)
    requires 0 < partLen <= 64 && (64 - partLen) + inputLen < WORD_SIZE
    requires partLen <= i <= inputLen && (i - partLen) % 64 == 0
    ensures i + 63 < WORD_SIZE
  {
    var k := (i - partLen) / 64;
    assert i + 64 - partLen == 64 * (k + 1);
  }

  lemma AfterUpdate(message: seq<Byte>, input: seq<Byte>, i: nat)
    requires i <= |input|
    requires if i == 0 then |message| % 64 + |input| < 64 else |input| - i < 64 && (|message| + i) % 64 == 0
    ensures i == 0 ==> Whole(message + input) == Whole(message) && Tail(message + input) == Tail(message) + input
    ensures i != 0 ==>
              Whole(message + input) == Whole(message) + Tail(message) + input[..i] &&
              Tail(message + input) == input[i..]
  {
    var n := |message|;
    assert Whole(message) + Tail(message) == message;
    if i == 0 {
      DivModUnique(n + |input|, 64, n / 64, n % 64 + |input|);
    } else {
      DivModUnique(n + |input|, 64, (n + i) / 64, |input| - i);
    }
  }

  // ---- Runs

  function Flatten(chunks: seq<seq<Byte>>): seq<Byte> {
    if chunks == [] then [] else Flatten(chunks[..|chunks| - 1]) + chunks[|chunks| - 1]
  }

  /** Every chunk is short enough for the loop counter, given what is waiting when it arrives. */
  predicate Fits(chunks: seq<seq<Byte>>) {
    forall i :: 0 <= i < |chunks| ==> |Flatten(chunks[..i])| % 64 + |chunks[i]| < WORD_SIZE
  }

  /** Any run Init, Update*, Final gives the one-shot digest, however the message is cut. */
  method DigestOfRun(chunks: seq<seq<Byte>>) returns (digest: seq<Byte>)
    requires Fits(chunks)
    ensures digest == Md5(Flatten(chunks))
  {
    var context := new Context();
    context.Init();
    for i := 0 to |chunks|
      invariant fresh(context) && fresh(context.state) && fresh(context.count) && fresh(context.buffer)
      invariant context.Valid() && context.message == Flatten(chunks[..i])
    {
      assert chunks[..i + 1][..i] == chunks[..i];
      context.Update(chunks[i]);
    }
    assert chunks[..|chunks|] == chunks;
    var out := new Byte[16];
    context.Final(out);
    digest := out[..];
  }

  // ---- Exactly when Update's loop stays inside its input

  function Counter(partLen: nat, k: nat): nat {
    partLen + 64 * k
  }

  /** The loop guard, with the wrap-around of the 32-bit addition. */
  predicate Enters(partLen: nat, inputLen: nat, k: nat) {
    (Counter(partLen, k) + 63) % WORD_SIZE < inputLen
  }

  /** Some iteration is reached whose 64-byte block is not all inside the input. */
  ghost predicate Overruns(partLen: nat, inputLen: nat) {
    exists k: nat :: (forall j: nat :: j <= k ==> Enters(partLen, inputLen, j)) && Counter(partLen, k) + 64 > inputLen
  }

  lemma OverrunsExactly(partLen: nat, inputLen: nat)
    requires 0 < partLen <= 64 && partLen <= inputLen < WORD_SIZE
    ensures Overruns(partLen, inputLen) <==> (64 - partLen) + inputLen >= WORD_SIZE
  {
    if (64 - partLen) + inputLen >= WORD_SIZE {
      var k := WORD_SIZE / 64 - 1;
      forall j: nat | j <= k
        ensures Enters(partLen, inputLen, j)
      {
        if j < k {
          assert Counter(partLen, j) + 63 < inputLen;
        } else {
          assert Counter(partLen, j) + 63 == WORD_SIZE + (partLen - 1);
        }
      }
      assert Counter(partLen, k) + 64 > inputLen;
    } else if Overruns(partLen, inputLen) {
      var k: nat :| (forall j: nat :: j <= k ==> Enters(partLen, inputLen, j)) && Counter(partLen, k) + 64 > inputLen;
      StaysInside(partLen, inputLen, k);
    }
  }

  lemma {:induction false} StaysInside(partLen: nat, inputLen: nat, k: nat)
    requires 0 < partLen <= 64 && partLen <= inputLen && (64 - partLen) + inputLen < WORD_SIZE
    requires forall j: nat :: j <= k ==> Enters(partLen, inputLen, j)
    ensures Counter(partLen, k) + 64 <= inputLen
  {
    if k > 0 {
      StaysInside(partLen, inputLen, k - 1);
    }
    assert Enters(partLen, inputLen, k);
    NoWrap(partLen, inputLen, Counter(partLen, k));
  }
}
