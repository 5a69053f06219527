/**
 The digest that section A.5 of RFC 1321 gives for "abc", computed operation by operation on machine words:
 it fixes the tables, shifts, message order, initial state, padding and codings.
 */
module Md5Suite {
  import opened Words
  import opened Md5Spec
  import opened MachineWords
  import opened Md5Machine

  /** The words of the one block: the three bytes and the one bit, zeros, and the length of 24 bits. */
  function AbcWords(): seq<Word> {
    [0x80636261, 0, 0, 0, 0, 0, 0, 0, 0, 0, 0, 0, 0, 0, 24, 0]
  }

  lemma TableWords0()
    ensures Value(0xd76aa478) == T(0, 0)
    ensures Value(0xe8c7b756) == T(0, 1)
    ensures Value(0x242070db) == T(0, 2)
    ensures Value(0xc1bdceee) == T(0, 3)
  {
  }

  lemma TableWords4()
    ensures Value(0xf57c0faf) == T(0, 4)
    ensures Value(0x4787c62a) == T(0, 5)
    ensures Value(0xa8304613) == T(0, 6)
    ensures Value(0xfd469501) == T(0, 7)
  {
  }

  lemma TableWords8()
    ensures Value(0x698098d8) == T(0, 8)
    ensures Value(0x8b44f7af) == T(0, 9)
    ensures Value(0xffff5bb1) == T(0, 10)
    ensures Value(0x895cd7be) == T(0, 11)
  {
  }

  lemma TableWords12()
    ensures Value(0x6b901122) == T(0, 12)
    ensures Value(0xfd987193) == T(0, 13)
    ensures Value(0xa679438e) == T(0, 14)
    ensures Value(0x49b40821) == T(0, 15)
  {
  }

  lemma TableWords16()
    ensures Value(0xf61e2562) == T(1, 0)
    ensures Value(0xc040b340) == T(1, 1)
    ensures Value(0x265e5a51) == T(1, 2)
    ensures Value(0xe9b6c7aa) == T(1, 3)
  {
  }

  lemma TableWords20()
    ensures Value(0xd62f105d) == T(1, 4)
    ensures Value(0x02441453) == T(1, 5)
    ensures Value(0xd8a1e681) == T(1, 6)
    ensures Value(0xe7d3fbc8) == T(1, 7)
  {
  }

  lemma TableWords24()
    ensures Value(0x21e1cde6) == T(1, 8)
    ensures Value(0xc33707d6) == T(1, 9)
    ensures Value(0xf4d50d87) == T(1, 10)
    ensures Value(0x455a14ed) == T(1, 11)
  {
  }

  lemma TableWords28()
    ensures Value(0xa9e3e905) == T(1, 12)
    ensures Value(0xfcefa3f8) == T(1, 13)
    ensures Value(0x676f02d9) == T(1, 14)
    ensures Value(0x8d2a4c8a) == T(1, 15)
  {
  }

  lemma TableWords32()
    ensures Value(0xfffa3942) == T(2, 0)
    ensures Value(0x8771f681) == T(2, 1)
    ensures Value(0x6d9d6122) == T(2, 2)
    ensures Value(0xfde5380c) == T(2, 3)
  {
  }

  lemma TableWords36()
    ensures Value(0xa4beea44) == T(2, 4)
    ensures Value(0x4bdecfa9) == T(2, 5)
    ensures Value(0xf6bb4b60) == T(2, 6)
    ensures Value(0xbebfbc70) == T(2, 7)
  {
  }

  lemma TableWords40()
    ensures Value(0x289b7ec6) == T(2, 8)
    ensures Value(0xeaa127fa) == T(2, 9)
    ensures Value(0xd4ef3085) == T(2, 10)
    ensures Value(0x04881d05) == T(2, 11)
  {
  }

  lemma TableWords44()
    ensures Value(0xd9d4d039) == T(2, 12)
    ensures Value(0xe6db99e5) == T(2, 13)
    ensures Value(0x1fa27cf8) == T(2, 14)
    ensures Value(0xc4ac5665) == T(2, 15)
  {
  }

  lemma TableWords48()
    ensures Value(0xf4292244) == T(3, 0)
    ensures Value(0x432aff97) == T(3, 1)
    ensures Value(0xab9423a7) == T(3, 2)
    ensures Value(0xfc93a039) == T(3, 3)
  {
  }

  lemma TableWords52()
    ensures Value(0x655b59c3) == T(3, 4)
    ensures Value(0x8f0ccc92) == T(3, 5)
    ensures Value(0xffeff47d) == T(3, 6)
    ensures Value(0x85845dd1) == T(3, 7)
  {
  }

  lemma TableWords56()
    ensures Value(0x6fa87e4f) == T(3, 8)
    ensures Value(0xfe2ce6e0) == T(3, 9)
    ensures Value(0xa3014314) == T(3, 10)
    ensures Value(0x4e0811a1) == T(3, 11)
  {
  }

  lemma TableWords60()
    ensures Value(0xf7537e82) == T(3, 12)
    ensures Value(0xbd3af235) == T(3, 13)
    ensures Value(0x2ad7d2bb) == T(3, 14)
    ensures Value(0xeb86d391) == T(3, 15)
  {
  }

  lemma FirstWord()
    ensures Value(0x80636261) == 0x80636261
  {
  }

  lemma ZeroWord()
    ensures Value(0) == 0
  {
  }

  lemma LengthWord()
    ensures Value(24) == 24
  {
  }

  lemma AbcWordValues()
    ensures |AbcWords()| == 16 && AbcWords()[0] == Value(0x80636261) && AbcWords()[14] == Value(24)
    ensures forall i :: 0 < i < 16 && i != 14 ==> AbcWords()[i] == Value(0)
  {
    hide Value;
    FirstWord();
    ZeroWord();
    LengthWord();
  }

  /** An operation with its message word, table entry and shift amount. */
  lemma OperationIs(r: Registers, round: nat, i: nat, w: bv32, t: bv32, n: nat, next: bv32)
    requires round < 4 && i < 16 && n <= 32
    requires Value(w) == AbcWords()[MessageIndex(round, i)] && Value(t) == T(round, i)
    requires ShiftAmount(round, i) == n && Recomputed(r, round, w, t, n) == next
    ensures Operation(StateOf(r), AbcWords(), round, i) == StateOf(Registers(r.d, next, r.b, r.c))
  {
    hide Value, T, Recomputed, Operation;
    OperationOnMachine(r, AbcWords(), round, i, w, t);
  }

  lemma StepsNext(s: State, x: seq<Word>, round: nat, i: nat)
    requires |x| == 16 && round < 4 && i < 16
    ensures Operations(s, x, round, 0) == s
    ensures Operations(s, x, round, i + 1) == Operation(Operations(s, x, round, i), x, round, i)
  {
    hide Operation;
  }

  function FourOperations(s: State, x: seq<Word>, round: nat, i: nat): State
    requires |x| == 16 && round < 4 && i + 4 <= 16
  {
    Operation(Operation(Operation(Operation(s, x, round, i), x, round, i + 1), x, round, i + 2), x, round, i + 3)
  }

  lemma FourNext(s: State, x: seq<Word>, round: nat, i: nat)
    requires |x| == 16 && round < 4 && i + 4 <= 16
    ensures Operations(s, x, round, i + 4) == FourOperations(Operations(s, x, round, i), x, round, i)
  {
    hide Operation;
    StepsNext(s, x, round, i);
    StepsNext(s, x, round, i + 1);
    StepsNext(s, x, round, i + 2);
    StepsNext(s, x, round, i + 3);
  }

  lemma Abc0()
    ensures FourOperations(StateOf(Registers(0x67452301, 0xefcdab89, 0x98badcfe, 0x10325476)), AbcWords(), 0, 0) ==
            StateOf(Registers(0xd6d117b4, 0x7ad956f2, 0x2f6fbd72, 0x344a8432))
  {
    hide Value, T, Operation, StateOf, AbcWords;
    TableWords0();
    AbcWordValues();
    OperationIs(Registers(0x67452301, 0xefcdab89, 0x98badcfe, 0x10325476), 0, 0, 0x80636261, 0xd76aa478, 7,
                0xd6d117b4);
    OperationIs(Registers(0x10325476, 0xd6d117b4, 0xefcdab89, 0x98badcfe), 0, 1, 0x0, 0xe8c7b756, 12,
                0x344a8432);
    OperationIs(Registers(0x98badcfe, 0x344a8432, 0xd6d117b4, 0xefcdab89), 0, 2, 0x0, 0x242070db, 17,
                0x2f6fbd72);
    OperationIs(Registers(0xefcdab89, 0x2f6fbd72, 0x344a8432, 0xd6d117b4), 0, 3, 0x0, 0xc1bdceee, 22,
                0x7ad956f2);
  }

  lemma Abc4()
    ensures FourOperations(StateOf(Registers(0xd6d117b4, 0x7ad956f2, 0x2f6fbd72, 0x344a8432)), AbcWords(), 0, 4) ==
            StateOf(Registers(0xc73741ef, 0x928d99f6, 0x207dc67b, 0x8bac3051))
  {
    hide Value, T, Operation, StateOf, AbcWords;
    TableWords4();
    AbcWordValues();
    OperationIs(Registers(0xd6d117b4, 0x7ad956f2, 0x2f6fbd72, 0x344a8432), 0, 4, 0x0, 0xf57c0faf, 7,
                0xc73741ef);
    OperationIs(Registers(0x344a8432, 0xc73741ef, 0x7ad956f2, 0x2f6fbd72), 0, 5, 0x0, 0x4787c62a, 12,
                0x8bac3051);
    OperationIs(Registers(0x2f6fbd72, 0x8bac3051, 0xc73741ef, 0x7ad956f2), 0, 6, 0x0, 0xa8304613, 17,
                0x207dc67b);
    OperationIs(Registers(0x7ad956f2, 0x207dc67b, 0x8bac3051, 0xc73741ef), 0, 7, 0x0, 0xfd469501, 22,
                0x928d99f6);
  }

  lemma Abc8()
    ensures FourOperations(StateOf(Registers(0xc73741ef, 0x928d99f6, 0x207dc67b, 0x8bac3051)), AbcWords(), 0, 8) ==
            StateOf(Registers(0x854b3712, 0x5ed49596, 0x3020401c, 0x74e2f284))
  {
    hide Value, T, Operation, StateOf, AbcWords;
    TableWords8();
    AbcWordValues();
    OperationIs(Registers(0xc73741ef, 0x928d99f6, 0x207dc67b, 0x8bac3051), 0, 8, 0x0, 0x698098d8, 7,
                0x854b3712);
    OperationIs(Registers(0x8bac3051, 0x854b3712, 0x928d99f6, 0x207dc67b), 0, 9, 0x0, 0x8b44f7af, 12,
                0x74e2f284);
    OperationIs(Registers(0x207dc67b, 0x74e2f284, 0x854b3712, 0x928d99f6), 0, 10, 0x0, 0xffff5bb1, 17,
                0x3020401c);
    OperationIs(Registers(0x928d99f6, 0x3020401c, 0x74e2f284, 0x854b3712), 0, 11, 0x0, 0x895cd7be, 22,
                0x5ed49596);
  }

  lemma Abc12()
    ensures FourOperations(StateOf(Registers(0x854b3712, 0x5ed49596, 0x3020401c, 0x74e2f284)), AbcWords(), 0, 12) ==
            StateOf(Registers(0xdda9b9a6, 0x72aff2e0, 0xe396856b, 0xa1051895))
  {
    hide Value, T, Operation, StateOf, AbcWords;
    TableWords12();
    AbcWordValues();
    OperationIs(Registers(0x854b3712, 0x5ed49596, 0x3020401c, 0x74e2f284), 0, 12, 0x0, 0x6b901122, 7,
                0xdda9b9a6);
    OperationIs(Registers(0x74e2f284, 0xdda9b9a6, 0x5ed49596, 0x3020401c), 0, 13, 0x0, 0xfd987193, 12,
                0xa1051895);
    OperationIs(Registers(0x3020401c, 0xa1051895, 0xdda9b9a6, 0x5ed49596), 0, 14, 0x18, 0xa679438e, 17,
                0xe396856b);
    OperationIs(Registers(0x5ed49596, 0xe396856b, 0xa1051895, 0xdda9b9a6), 0, 15, 0x0, 0x49b40821, 22,
                0x72aff2e0);
  }

  lemma Abc16()
    ensures FourOperations(StateOf(Registers(0xdda9b9a6, 0x72aff2e0, 0xe396856b, 0xa1051895)), AbcWords(), 1, 0) ==
            StateOf(Registers(0x3e9e9126, 0xb5b204e4, 0xe25e1652, 0x4a1d804e))
  {
    hide Value, T, Operation, StateOf, AbcWords;
    TableWords16();
    AbcWordValues();
    OperationIs(Registers(0xdda9b9a6, 0x72aff2e0, 0xe396856b, 0xa1051895), 1, 0, 0x0, 0xf61e2562, 5,
                0x3e9e9126);
    OperationIs(Registers(0xa1051895, 0x3e9e9126, 0x72aff2e0, 0xe396856b), 1, 1, 0x0, 0xc040b340, 9,
                0x4a1d804e);
    OperationIs(Registers(0xe396856b, 0x4a1d804e, 0x3e9e9126, 0x72aff2e0), 1, 2, 0x0, 0x265e5a51, 14,
                0xe25e1652);
    OperationIs(Registers(0x72aff2e0, 0xe25e1652, 0x4a1d804e, 0x3e9e9126), 1, 3, 0x80636261, 0xe9b6c7aa, 20,
                0xb5b204e4);
  }

  lemma Abc20()
    ensures FourOperations(StateOf(Registers(0x3e9e9126, 0xb5b204e4, 0xe25e1652, 0x4a1d804e)), AbcWords(), 1, 4) ==
            StateOf(Registers(0x59a8ffda, 0x47092c07, 0xabfc7920, 0x6d002f1e))
  {
    hide Value, T, Operation, StateOf, AbcWords;
    TableWords20();
    AbcWordValues();
    OperationIs(Registers(0x3e9e9126, 0xb5b204e4, 0xe25e1652, 0x4a1d804e), 1, 4, 0x0, 0xd62f105d, 5,
                0x59a8ffda);
    OperationIs(Registers(0x4a1d804e, 0x59a8ffda, 0xb5b204e4, 0xe25e1652), 1, 5, 0x0, 0x02441453, 9,
                0x6d002f1e);
    OperationIs(Registers(0xe25e1652, 0x6d002f1e, 0x59a8ffda, 0xb5b204e4), 1, 6, 0x0, 0xd8a1e681, 14,
                0xabfc7920);
    OperationIs(Registers(0xb5b204e4, 0xabfc7920, 0x6d002f1e, 0x59a8ffda), 1, 7, 0x0, 0xe7d3fbc8, 20,
                0x47092c07);
  }

  lemma Abc24()
    ensures FourOperations(StateOf(Registers(0x59a8ffda, 0x47092c07, 0xabfc7920, 0x6d002f1e)), AbcWords(), 1, 8) ==
            StateOf(Registers(0xb7f268cf, 0x786acb8f, 0xfe1623b1, 0x09388eff))
  {
    hide Value, T, Operation, StateOf, AbcWords;
    TableWords24();
    AbcWordValues();
    OperationIs(Registers(0x59a8ffda, 0x47092c07, 0xabfc7920, 0x6d002f1e), 1, 8, 0x0, 0x21e1cde6, 5,
                0xb7f268cf);
    OperationIs(Registers(0x6d002f1e, 0xb7f268cf, 0x47092c07, 0xabfc7920), 1, 9, 0x18, 0xc33707d6, 9,
                0x09388eff);
    OperationIs(Registers(0xabfc7920, 0x09388eff, 0xb7f268cf, 0x47092c07), 1, 10, 0x0, 0xf4d50d87, 14,
                0xfe1623b1);
    OperationIs(Registers(0x47092c07, 0xfe1623b1, 0x09388eff, 0xb7f268cf), 1, 11, 0x0, 0x455a14ed, 20,
                0x786acb8f);
  }

  lemma Abc28()
    ensures FourOperations(StateOf(Registers(0xb7f268cf, 0x786acb8f, 0xfe1623b1, 0x09388eff)), AbcWords(), 1, 12) ==
            StateOf(Registers(0x790a77fb, 0x726342d3, 0xa62884aa, 0x9f47e4f8))
  {
    hide Value, T, Operation, StateOf, AbcWords;
    TableWords28();
    AbcWordValues();
    OperationIs(Registers(0xb7f268cf, 0x786acb8f, 0xfe1623b1, 0x09388eff), 1, 12, 0x0, 0xa9e3e905, 5,
                0x790a77fb);
    OperationIs(Registers(0x09388eff, 0x790a77fb, 0x786acb8f, 0xfe1623b1), 1, 13, 0x0, 0xfcefa3f8, 9,
                0x9f47e4f8);
    OperationIs(Registers(0xfe1623b1, 0x9f47e4f8, 0x790a77fb, 0x786acb8f), 1, 14, 0x0, 0x676f02d9, 14,
                0xa62884aa);
    OperationIs(Registers(0x786acb8f, 0xa62884aa, 0x9f47e4f8, 0x790a77fb), 1, 15, 0x0, 0x8d2a4c8a, 20,
                0x726342d3);
  }

  lemma Abc32()
    ensures FourOperations(StateOf(Registers(0x790a77fb, 0x726342d3, 0xa62884aa, 0x9f47e4f8)), AbcWords(), 2, 0) ==
            StateOf(Registers(0xb3707ebf, 0x3b0875c7, 0x8d212ff5, 0x60127b2e))
  {
    hide Value, T, Operation, StateOf, AbcWords;
    TableWords32();
    AbcWordValues();
    OperationIs(Registers(0x790a77fb, 0x726342d3, 0xa62884aa, 0x9f47e4f8), 2, 0, 0x0, 0xfffa3942, 4,
                0xb3707ebf);
    OperationIs(Registers(0x9f47e4f8, 0xb3707ebf, 0x726342d3, 0xa62884aa), 2, 1, 0x0, 0x8771f681, 11,
                0x60127b2e);
    OperationIs(Registers(0xa62884aa, 0x60127b2e, 0xb3707ebf, 0x726342d3), 2, 2, 0x0, 0x6d9d6122, 16,
                0x8d212ff5);
    OperationIs(Registers(0x726342d3, 0x8d212ff5, 0x60127b2e, 0xb3707ebf), 2, 3, 0x18, 0xfde5380c, 23,
                0x3b0875c7);
  }

  lemma Abc36()
    ensures FourOperations(StateOf(Registers(0xb3707ebf, 0x3b0875c7, 0x8d212ff5, 0x60127b2e)), AbcWords(), 2, 4) ==
            StateOf(Registers(0x21b117b9, 0x5a2f5ea5, 0x3575227e, 0x6e7429d5))
  {
    hide Value, T, Operation, StateOf, AbcWords;
    TableWords36();
    AbcWordValues();
    OperationIs(Registers(0xb3707ebf, 0x3b0875c7, 0x8d212ff5, 0x60127b2e), 2, 4, 0x0, 0xa4beea44, 4,
                0x21b117b9);
    OperationIs(Registers(0x60127b2e, 0x21b117b9, 0x3b0875c7, 0x8d212ff5), 2, 5, 0x0, 0x4bdecfa9, 11,
                0x6e7429d5);
    OperationIs(Registers(0x8d212ff5, 0x6e7429d5, 0x21b117b9, 0x3b0875c7), 2, 6, 0x0, 0xf6bb4b60, 16,
                0x3575227e);
    OperationIs(Registers(0x3b0875c7, 0x3575227e, 0x6e7429d5, 0x21b117b9), 2, 7, 0x0, 0xbebfbc70, 23,
                0x5a2f5ea5);
  }

  lemma Abc40()
    ensures FourOperations(StateOf(Registers(0x21b117b9, 0x5a2f5ea5, 0x3575227e, 0x6e7429d5)), AbcWords(), 2, 8) ==
            StateOf(Registers(0x11de1779, 0x4c6124f4, 0x31c465ca, 0xfadcaa38))
  {
    hide Value, T, Operation, StateOf, AbcWords;
    TableWords40();
    AbcWordValues();
    OperationIs(Registers(0x21b117b9, 0x5a2f5ea5, 0x3575227e, 0x6e7429d5), 2, 8, 0x0, 0x289b7ec6, 4,
                0x11de1779);
    OperationIs(Registers(0x6e7429d5, 0x11de1779, 0x5a2f5ea5, 0x3575227e), 2, 9, 0x80636261, 0xeaa127fa, 11,
                0xfadcaa38);
    OperationIs(Registers(0x3575227e, 0xfadcaa38, 0x11de1779, 0x5a2f5ea5), 2, 10, 0x0, 0xd4ef3085, 16,
                0x31c465ca);
    OperationIs(Registers(0x5a2f5ea5, 0x31c465ca, 0xfadcaa38, 0x11de1779), 2, 11, 0x0, 0x04881d05, 23,
                0x4c6124f4);
  }

  lemma Abc44()
    ensures FourOperations(StateOf(Registers(0x11de1779, 0x4c6124f4, 0x31c465ca, 0xfadcaa38)), AbcWords(), 2, 12) ==
            StateOf(Registers(0x7f2e507b, 0x7beb9700, 0x8fae6399, 0x99d9679d))
  {
    hide Value, T, Operation, StateOf, AbcWords;
    TableWords44();
    AbcWordValues();
    OperationIs(Registers(0x11de1779, 0x4c6124f4, 0x31c465ca, 0xfadcaa38), 2, 12, 0x0, 0xd9d4d039, 4,
                0x7f2e507b);
    OperationIs(Registers(0xfadcaa38, 0x7f2e507b, 0x4c6124f4, 0x31c465ca), 2, 13, 0x0, 0xe6db99e5, 11,
                0x99d9679d);
    OperationIs(Registers(0x31c465ca, 0x99d9679d, 0x7f2e507b, 0x4c6124f4), 2, 14, 0x0, 0x1fa27cf8, 16,
                0x8fae6399);
    OperationIs(Registers(0x4c6124f4, 0x8fae6399, 0x99d9679d, 0x7f2e507b), 2, 15, 0x0, 0xc4ac5665, 23,
                0x7beb9700);
  }

  lemma Abc48()
    ensures FourOperations(StateOf(Registers(0x7f2e507b, 0x7beb9700, 0x8fae6399, 0x99d9679d)), AbcWords(), 3, 0) ==
            StateOf(Registers(0x7b201df8, 0x8bf025c4, 0xb298cefd, 0xf4e8e96e))
  {
    hide Value, T, Operation, StateOf, AbcWords;
    TableWords48();
    AbcWordValues();
    OperationIs(Registers(0x7f2e507b, 0x7beb9700, 0x8fae6399, 0x99d9679d), 3, 0, 0x80636261, 0xf4292244, 6,
                0x7b201df8);
    OperationIs(Registers(0x99d9679d, 0x7b201df8, 0x7beb9700, 0x8fae6399), 3, 1, 0x0, 0x432aff97, 10,
                0xf4e8e96e);
    OperationIs(Registers(0x8fae6399, 0xf4e8e96e, 0x7b201df8, 0x7beb9700), 3, 2, 0x18, 0xab9423a7, 15,
                0xb298cefd);
    OperationIs(Registers(0x7beb9700, 0xb298cefd, 0xf4e8e96e, 0x7b201df8), 3, 3, 0x0, 0xfc93a039, 21,
                0x8bf025c4);
  }

  lemma Abc52()
    ensures FourOperations(StateOf(Registers(0x7b201df8, 0x8bf025c4, 0xb298cefd, 0xf4e8e96e)), AbcWords(), 3, 4) ==
            StateOf(Registers(0x06cc5e8a, 0x3bfa2c27, 0x7d632dd0, 0x5b0d97aa))
  {
    hide Value, T, Operation, StateOf, AbcWords;
    TableWords52();
    AbcWordValues();
    OperationIs(Registers(0x7b201df8, 0x8bf025c4, 0xb298cefd, 0xf4e8e96e), 3, 4, 0x0, 0x655b59c3, 6,
                0x06cc5e8a);
    OperationIs(Registers(0xf4e8e96e, 0x06cc5e8a, 0x8bf025c4, 0xb298cefd), 3, 5, 0x0, 0x8f0ccc92, 10,
                0x5b0d97aa);
    OperationIs(Registers(0xb298cefd, 0x5b0d97aa, 0x06cc5e8a, 0x8bf025c4), 3, 6, 0x0, 0xffeff47d, 15,
                0x7d632dd0);
    OperationIs(Registers(0x8bf025c4, 0x7d632dd0, 0x5b0d97aa, 0x06cc5e8a), 3, 7, 0x0, 0x85845dd1, 21,
                0x3bfa2c27);
  }

  lemma Abc56()
    ensures FourOperations(StateOf(Registers(0x06cc5e8a, 0x3bfa2c27, 0x7d632dd0, 0x5b0d97aa)), AbcWords(), 3, 8) ==
            StateOf(Registers(0x7f81cc35, 0x7327d604, 0x4f9dbe3f, 0x094454ab))
  {
    hide Value, T, Operation, StateOf, AbcWords;
    TableWords56();
    AbcWordValues();
    OperationIs(Registers(0x06cc5e8a, 0x3bfa2c27, 0x7d632dd0, 0x5b0d97aa), 3, 8, 0x0, 0x6fa87e4f, 6,
                0x7f81cc35);
    OperationIs(Registers(0x5b0d97aa, 0x7f81cc35, 0x3bfa2c27, 0x7d632dd0), 3, 9, 0x0, 0xfe2ce6e0, 10,
                0x094454ab);
    OperationIs(Registers(0x7d632dd0, 0x094454ab, 0x7f81cc35, 0x3bfa2c27), 3, 10, 0x0, 0xa3014314, 15,
                0x4f9dbe3f);
    OperationIs(Registers(0x3bfa2c27, 0x4f9dbe3f, 0x094454ab, 0x7f81cc35), 3, 11, 0x0, 0x4e0811a1, 21,
                0x7327d604);
  }

  lemma Abc60()
    ensures FourOperations(StateOf(Registers(0x7f81cc35, 0x7327d604, 0x4f9dbe3f, 0x094454ab)), AbcWords(), 3, 12) ==
            StateOf(Registers(0x310ade8f, 0xc08226b3, 0xe484b9d8, 0x624d8cb2))
  {
    hide Value, T, Operation, StateOf, AbcWords;
    TableWords60();
    AbcWordValues();
    OperationIs(Registers(0x7f81cc35, 0x7327d604, 0x4f9dbe3f, 0x094454ab), 3, 12, 0x0, 0xf7537e82, 6,
                0x310ade8f);
    OperationIs(Registers(0x094454ab, 0x310ade8f, 0x7327d604, 0x4f9dbe3f), 3, 13, 0x0, 0xbd3af235, 10,
                0x624d8cb2);
    OperationIs(Registers(0x4f9dbe3f, 0x624d8cb2, 0x310ade8f, 0x7327d604), 3, 14, 0x0, 0x2ad7d2bb, 15,
                0xe484b9d8);
    OperationIs(Registers(0x7327d604, 0xe484b9d8, 0x624d8cb2, 0x310ade8f), 3, 15, 0x0, 0xeb86d391, 21,
                0xc08226b3);
  }

  lemma FourFours(s0: State, s1: State, s2: State, s3: State, s4: State, x: seq<Word>, round: nat)
    requires |x| == 16 && round < 4
    requires FourOperations(s0, x, round, 0) == s1 && FourOperations(s1, x, round, 4) == s2
    requires FourOperations(s2, x, round, 8) == s3 && FourOperations(s3, x, round, 12) == s4
    ensures Operations(s0, x, round, 16) == s4
  {
    hide FourOperations, Operations;
    StepsNext(s0, x, round, 0);
    FourNext(s0, x, round, 0);
    FourNext(s0, x, round, 4);
    FourNext(s0, x, round, 8);
    FourNext(s0, x, round, 12);
  }

  lemma AbcRound0()
    ensures Operations(StateOf(Registers(0x67452301, 0xefcdab89, 0x98badcfe, 0x10325476)), AbcWords(), 0, 16) ==
            StateOf(Registers(0xdda9b9a6, 0x72aff2e0, 0xe396856b, 0xa1051895))
  {
    hide StateOf, AbcWords, FourOperations, Operations;
    AbcWordValues();
    Abc0();
    Abc4();
    Abc8();
    Abc12();
    FourFours(StateOf(Registers(0x67452301, 0xefcdab89, 0x98badcfe, 0x10325476)),
              StateOf(Registers(0xd6d117b4, 0x7ad956f2, 0x2f6fbd72, 0x344a8432)),
              StateOf(Registers(0xc73741ef, 0x928d99f6, 0x207dc67b, 0x8bac3051)),
              StateOf(Registers(0x854b3712, 0x5ed49596, 0x3020401c, 0x74e2f284)),
              StateOf(Registers(0xdda9b9a6, 0x72aff2e0, 0xe396856b, 0xa1051895)),
              AbcWords(), 0);
  }

  lemma AbcRound1()
    ensures Operations(StateOf(Registers(0xdda9b9a6, 0x72aff2e0, 0xe396856b, 0xa1051895)), AbcWords(), 1, 16) ==
            StateOf(Registers(0x790a77fb, 0x726342d3, 0xa62884aa, 0x9f47e4f8))
  {
    hide StateOf, AbcWords, FourOperations, Operations;
    AbcWordValues();
    Abc16();
    Abc20();
    Abc24();
    Abc28();
    FourFours(StateOf(Registers(0xdda9b9a6, 0x72aff2e0, 0xe396856b, 0xa1051895)),
              StateOf(Registers(0x3e9e9126, 0xb5b204e4, 0xe25e1652, 0x4a1d804e)),
              StateOf(Registers(0x59a8ffda, 0x47092c07, 0xabfc7920, 0x6d002f1e)),
              StateOf(Registers(0xb7f268cf, 0x786acb8f, 0xfe1623b1, 0x09388eff)),
              StateOf(Registers(0x790a77fb, 0x726342d3, 0xa62884aa, 0x9f47e4f8)),
              AbcWords(), 1);
  }

  lemma AbcRound2()
    ensures Operations(StateOf(Registers(0x790a77fb, 0x726342d3, 0xa62884aa, 0x9f47e4f8)), AbcWords(), 2, 16) ==
            StateOf(Registers(0x7f2e507b, 0x7beb9700, 0x8fae6399, 0x99d9679d))
  {
    hide StateOf, AbcWords, FourOperations, Operations;
    AbcWordValues();
    Abc32();
    Abc36();
    Abc40();
    Abc44();
    FourFours(StateOf(Registers(0x790a77fb, 0x726342d3, 0xa62884aa, 0x9f47e4f8)),
              StateOf(Registers(0xb3707ebf, 0x3b0875c7, 0x8d212ff5, 0x60127b2e)),
              StateOf(Registers(0x21b117b9, 0x5a2f5ea5, 0x3575227e, 0x6e7429d5)),
              StateOf(Registers(0x11de1779, 0x4c6124f4, 0x31c465ca, 0xfadcaa38)),
              StateOf(Registers(0x7f2e507b, 0x7beb9700, 0x8fae6399, 0x99d9679d)),
              AbcWords(), 2);
  }

  lemma AbcRound3()
    ensures Operations(StateOf(Registers(0x7f2e507b, 0x7beb9700, 0x8fae6399, 0x99d9679d)), AbcWords(), 3, 16) ==
            StateOf(Registers(0x310ade8f, 0xc08226b3, 0xe484b9d8, 0x624d8cb2))
  {
    hide StateOf, AbcWords, FourOperations, Operations;
    AbcWordValues();
    Abc48();
    Abc52();
    Abc56();
    Abc60();
    FourFours(StateOf(Registers(0x7f2e507b, 0x7beb9700, 0x8fae6399, 0x99d9679d)),
              StateOf(Registers(0x7b201df8, 0x8bf025c4, 0xb298cefd, 0xf4e8e96e)),
              StateOf(Registers(0x06cc5e8a, 0x3bfa2c27, 0x7d632dd0, 0x5b0d97aa)),
              StateOf(Registers(0x7f81cc35, 0x7327d604, 0x4f9dbe3f, 0x094454ab)),
              StateOf(Registers(0x310ade8f, 0xc08226b3, 0xe484b9d8, 0x624d8cb2)),
              AbcWords(), 3);
  }

  lemma InitialRegisters()
    ensures INITIAL == StateOf(Registers(0x67452301, 0xefcdab89, 0x98badcfe, 0x10325476))
  {
  }

  lemma AbcRounds()
    ensures Rounds(INITIAL, AbcWords()) ==
            StateOf(Registers(0x310ade8f, 0xc08226b3, 0xe484b9d8, 0x624d8cb2))
  {
    hide StateOf, AbcWords, Operations;
    AbcWordValues();
    InitialRegisters();
    AbcRound0();
    AbcRound1();
    AbcRound2();
    AbcRound3();
  }

  lemma AbcSums()
    ensures StateOf(Registers(0x310ade8f, 0xc08226b3, 0xe484b9d8, 0x624d8cb2)) ==
            State(0x310ade8f, 0xc08226b3, 0xe484b9d8, 0x624d8cb2)
  {
  }

  lemma LengthBytes()
    ensures BytesOf(LengthWords(3)) == [24, 0, 0, 0, 0, 0, 0, 0]
  {
    var length := LengthWords(3);
    assert length == [24, 0];
    EncodedBytes(length, 0);
    EncodedBytes(length, 1);
  }

  /** The padded message is one block. */
  lemma AbcPadded()
    ensures var p := Padded([0x61, 0x62, 0x63]);
            |p| == 64 && WordsOf(p) == AbcWords()
  {
    hide LengthWords, BytesOf;
    LengthBytes();
    var p := Padded([0x61, 0x62, 0x63]);
    assert p[..4] == [0x61, 0x62, 0x63, 0x80] && p[56..] == [24, 0, 0, 0, 0, 0, 0, 0];
    assert forall k :: 4 <= k < 56 ==> p[k] == 0;
    assert p[56..] == [24] + [0, 0, 0, 0, 0, 0, 0];
    assert forall k :: 56 < k < 64 ==> p[k] == p[56..][k - 56] == 0;
    BlockWords(p);
  }

  lemma BlockWords(p: seq<Byte>)
    requires |p| == 64 && p[0] == 0x61 && p[1] == 0x62 && p[2] == 0x63 && p[3] == 0x80
    requires p[56] == 24 && forall k :: 4 <= k < 64 && k != 56 ==> p[k] == 0
    ensures WordsOf(p) == AbcWords()
  {
    hide AbcWords, WordsOf;
    AbcElements();
    WordsCount(p);
    forall i | 0 <= i < 16
      ensures WordsOf(p)[i] == AbcWords()[i]
    {
      WordOfBlock(p, i);
    }
  }

  lemma WordsCount(p: seq<Byte>)
    ensures |WordsOf(p)| == |p| / 4
  {
  }

  lemma WordValues()
    ensures WordFrom(0x61, 0x62, 0x63, 0x80) == 0x80636261 && WordFrom(24, 0, 0, 0) == 24 && WordFrom(0, 0, 0, 0) == 0
  {
  }

  lemma WordAt(p: seq<Byte>, i: nat)
    requires i < |p| / 4
    ensures WordsOf(p)[i] == WordFrom(p[4 * i], p[4 * i + 1], p[4 * i + 2], p[4 * i + 3])
  {
  }

  lemma WordOfBlock(p: seq<Byte>, i: nat)
    requires |p| == 64 && p[0] == 0x61 && p[1] == 0x62 && p[2] == 0x63 && p[3] == 0x80 && i < 16
    requires p[56] == 24 && forall k :: 4 <= k < 64 && k != 56 ==> p[k] == 0
    ensures i < |WordsOf(p)| && WordsOf(p)[i] == if i == 0 then 0x80636261 else if i == 14 then 24 else 0
  {
    hide WordsOf, WordFrom;
    WordsCount(p);
    WordAt(p, i);
    WordValues();
    var k := 4 * i;
    if i != 0 {
      assert p[k + 1] == 0 && p[k + 2] == 0 && p[k + 3] == 0;
      assert p[k] == if i == 14 then 24 else 0;
    }
  }

  lemma AbcElements()
    ensures |AbcWords()| == 16 && AbcWords()[0] == 0x80636261 && AbcWords()[14] == 24
    ensures forall i :: 0 < i < 16 && i != 14 ==> AbcWords()[i] == 0
  {
  }

  lemma AbcCompressed(block: Block)
    requires WordsOf(block) == AbcWords()
    ensures Compress(INITIAL, block) == State(0x98500190, 0xb04fd23c, 0x7d3f96d6, 0x727fe128)
  {
    hide Rounds, WordsOf, StateOf, AbcWords;
    AbcRounds();
    AbcSums();
  }

  lemma OneBlock(block: Block)
    ensures Fold(Compress, INITIAL, block) == Compress(INITIAL, block)
  {
    hide Compress;
    assert block[..64] == block && block[64..] == [];
  }

  lemma BytesOfWord0()
    ensures ByteAt(0x98500190, 0) == 0x90 && ByteAt(0x98500190, 1) == 0x01
    ensures ByteAt(0x98500190, 2) == 0x50 && ByteAt(0x98500190, 3) == 0x98
  {
  }

  lemma BytesOfWord1()
    ensures ByteAt(0xb04fd23c, 0) == 0x3c && ByteAt(0xb04fd23c, 1) == 0xd2
    ensures ByteAt(0xb04fd23c, 2) == 0x4f && ByteAt(0xb04fd23c, 3) == 0xb0
  {
  }

  lemma BytesOfWord2()
    ensures ByteAt(0x7d3f96d6, 0) == 0xd6 && ByteAt(0x7d3f96d6, 1) == 0x96
    ensures ByteAt(0x7d3f96d6, 2) == 0x3f && ByteAt(0x7d3f96d6, 3) == 0x7d
  {
  }

  lemma BytesOfWord3()
    ensures ByteAt(0x727fe128, 0) == 0x28 && ByteAt(0x727fe128, 1) == 0xe1
    ensures ByteAt(0x727fe128, 2) == 0x7f && ByteAt(0x727fe128, 3) == 0x72
  {
  }

  lemma LengthOfBytes(ws: seq<Word>)
    ensures |BytesOf(ws)| == 4 * |ws|
  {
  }

  lemma DigestBytes()
    ensures BytesOf([0x98500190, 0xb04fd23c, 0x7d3f96d6, 0x727fe128]) ==
            [0x90, 0x01, 0x50, 0x98, 0x3c, 0xd2, 0x4f, 0xb0,
             0xd6, 0x96, 0x3f, 0x7d, 0x28, 0xe1, 0x7f, 0x72]
  {
    hide BytesOf, ByteAt;
    var words := [0x98500190, 0xb04fd23c, 0x7d3f96d6, 0x727fe128];
    BytesOfWord0();
    BytesOfWord1();
    BytesOfWord2();
    BytesOfWord3();
    EncodedBytes(words, 0);
    EncodedBytes(words, 1);
    EncodedBytes(words, 2);
    EncodedBytes(words, 3);
    LengthOfBytes(words);
  }

  /** The digest in section A.5 of RFC 1321. */
  lemma AbcDigest()
    ensures Md5([0x61, 0x62, 0x63]) ==
            [0x90, 0x01, 0x50, 0x98, 0x3c, 0xd2, 0x4f, 0xb0,
             0xd6, 0x96, 0x3f, 0x7d, 0x28, 0xe1, 0x7f, 0x72]
  {
    hide Compress, Padded, WordsOf, Fold, BytesOf;
    AbcPadded();
    var block := Padded([0x61, 0x62, 0x63]);
    AbcCompressed(block);
    OneBlock(block);
    DigestBytes();
  }
}
