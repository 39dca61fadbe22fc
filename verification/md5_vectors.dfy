/** Known digests of MD5 (the test suite of appendix A.5 of RFC 1321): every step of the message "abc", and
    of a message of 62 bytes that needs two blocks, is written out. */
module Md5Vectors {
  import opened Common
  import opened HashBlocks
  import opened HashCounts
  import opened Md5Rounds
  import opened Md5Digest

  lemma NoSteps(q: Quad, x: seq<Word>)
    requires |x| == 16
    ensures Steps(q, x, 0) == q
  {
  }

  /** One step. */
  lemma Go(r: Quad, x: seq<Word>, i: nat, n: nat, k: nat, t: Word, s: nat,
           a: Word, b: Word, c: Word, d: Word, w: Word, y: Word)
    requires |x| == 16 && Steps(r, x, i) == Quad(a, b, c, d)
    requires Takes(i, n, k, t, s) && 0 < s < 32 && k < 16 && x[k] == w
    requires Mix(n, a, b, c, d, w, t, s) == y
    ensures Steps(r, x, i + 1) == Quad(d, y, b, c)
  {
    hide Mix, Sine, Index, Shift, Round;
  }

  /** One word of a block. */
  lemma Loads(b: seq<Byte>, i: nat, b0: Byte, b1: Byte, b2: Byte, b3: Byte, x: Word)
    requires |b| == 64 && i < 16
    requires b[4 * i] == b0 && b[4 * i + 1] == b1 && b[4 * i + 2] == b2 && b[4 * i + 3] == b3
    requires LittleEndian(Bits(b0), Bits(b1), Bits(b2), Bits(b3)) == x
    ensures |Words(b)| == 16 && Words(b)[i] == x
  {
    hide LittleEndian, Bits;
  }

  lemma ZeroWord()
    ensures LittleEndian(Bits(0), Bits(0), Bits(0), Bits(0)) == 0
  {
  }

  /** The words of a run of zero bytes. */
  lemma LoadsZeros(b: seq<Byte>, lo: nat, hi: nat)
    requires |b| == 64 && lo <= hi <= 16 && forall k :: 4 * lo <= k < 4 * hi ==> b[k] == 0
    ensures |Words(b)| == 16 && forall i :: lo <= i < hi ==> Words(b)[i] == 0
  {
    hide LittleEndian, Bits;
    ZeroWord();
  }

  // ---------------------------------------------------------------- abc

  const Abc: Quad := Quad(0x67452301, 0xefcdab89, 0x98badcfe, 0x10325476)

  /** The sixteen words of the block. */
  ghost predicate AbcWords(x: seq<Word>) {
    && |x| == 16
    && x[0] == 0x80636261 && x[1] == 0x00000000 && x[2] == 0x00000000 && x[3] == 0x00000000
    && x[4] == 0x00000000 && x[5] == 0x00000000 && x[6] == 0x00000000 && x[7] == 0x00000000
    && x[8] == 0x00000000 && x[9] == 0x00000000 && x[10] == 0x00000000 && x[11] == 0x00000000
    && x[12] == 0x00000000 && x[13] == 0x00000000 && x[14] == 0x00000018 && x[15] == 0x00000000
  }

  lemma AbcSteps1(x: seq<Word>)
    requires AbcWords(x)
    ensures Steps(Abc, x, 8) == Quad(0xc73741ef, 0x928d99f6, 0x207dc67b, 0x8bac3051)
  {
    hide Steps, Sine, Index, Shift, Round, Takes;
    NoSteps(Abc, x);
    Takes00();
    Takes01();
    Go(Abc, x, 0, 1, 0, 0xd76aa478, 7, 0x67452301, 0xefcdab89, 0x98badcfe, 0x10325476, 0x80636261, 0xd6d117b4);
    Go(Abc, x, 1, 1, 1, 0xe8c7b756, 12, 0x10325476, 0xd6d117b4, 0xefcdab89, 0x98badcfe, 0x00000000, 0x344a8432);
    Go(Abc, x, 2, 1, 2, 0x242070db, 17, 0x98badcfe, 0x344a8432, 0xd6d117b4, 0xefcdab89, 0x00000000, 0x2f6fbd72);
    Go(Abc, x, 3, 1, 3, 0xc1bdceee, 22, 0xefcdab89, 0x2f6fbd72, 0x344a8432, 0xd6d117b4, 0x00000000, 0x7ad956f2);
    Go(Abc, x, 4, 1, 4, 0xf57c0faf, 7, 0xd6d117b4, 0x7ad956f2, 0x2f6fbd72, 0x344a8432, 0x00000000, 0xc73741ef);
    Go(Abc, x, 5, 1, 5, 0x4787c62a, 12, 0x344a8432, 0xc73741ef, 0x7ad956f2, 0x2f6fbd72, 0x00000000, 0x8bac3051);
    Go(Abc, x, 6, 1, 6, 0xa8304613, 17, 0x2f6fbd72, 0x8bac3051, 0xc73741ef, 0x7ad956f2, 0x00000000, 0x207dc67b);
    Go(Abc, x, 7, 1, 7, 0xfd469501, 22, 0x7ad956f2, 0x207dc67b, 0x8bac3051, 0xc73741ef, 0x00000000, 0x928d99f6);
  }

  lemma AbcSteps2(x: seq<Word>)
    requires AbcWords(x) && Steps(Abc, x, 8) == Quad(0xc73741ef, 0x928d99f6, 0x207dc67b, 0x8bac3051)
    ensures Steps(Abc, x, 16) == Quad(0xdda9b9a6, 0x72aff2e0, 0xe396856b, 0xa1051895)
  {
    hide Steps, Sine, Index, Shift, Round, Takes;
    Takes02();
    Takes03();
    Go(Abc, x, 8, 1, 8, 0x698098d8, 7, 0xc73741ef, 0x928d99f6, 0x207dc67b, 0x8bac3051, 0x00000000, 0x854b3712);
    Go(Abc, x, 9, 1, 9, 0x8b44f7af, 12, 0x8bac3051, 0x854b3712, 0x928d99f6, 0x207dc67b, 0x00000000, 0x74e2f284);
    Go(Abc, x, 10, 1, 10, 0xffff5bb1, 17, 0x207dc67b, 0x74e2f284, 0x854b3712, 0x928d99f6, 0x00000000, 0x3020401c);
    Go(Abc, x, 11, 1, 11, 0x895cd7be, 22, 0x928d99f6, 0x3020401c, 0x74e2f284, 0x854b3712, 0x00000000, 0x5ed49596);
    Go(Abc, x, 12, 1, 12, 0x6b901122, 7, 0x854b3712, 0x5ed49596, 0x3020401c, 0x74e2f284, 0x00000000, 0xdda9b9a6);
    Go(Abc, x, 13, 1, 13, 0xfd987193, 12, 0x74e2f284, 0xdda9b9a6, 0x5ed49596, 0x3020401c, 0x00000000, 0xa1051895);
    Go(Abc, x, 14, 1, 14, 0xa679438e, 17, 0x3020401c, 0xa1051895, 0xdda9b9a6, 0x5ed49596, 0x00000018, 0xe396856b);
    Go(Abc, x, 15, 1, 15, 0x49b40821, 22, 0x5ed49596, 0xe396856b, 0xa1051895, 0xdda9b9a6, 0x00000000, 0x72aff2e0);
  }

  lemma AbcSteps3(x: seq<Word>)
    requires AbcWords(x) && Steps(Abc, x, 16) == Quad(0xdda9b9a6, 0x72aff2e0, 0xe396856b, 0xa1051895)
    ensures Steps(Abc, x, 24) == Quad(0x59a8ffda, 0x47092c07, 0xabfc7920, 0x6d002f1e)
  {
    hide Steps, Sine, Index, Shift, Round, Takes;
    Takes10();
    Takes11();
    Go(Abc, x, 16, 2, 1, 0xf61e2562, 5, 0xdda9b9a6, 0x72aff2e0, 0xe396856b, 0xa1051895, 0x00000000, 0x3e9e9126);
    Go(Abc, x, 17, 2, 6, 0xc040b340, 9, 0xa1051895, 0x3e9e9126, 0x72aff2e0, 0xe396856b, 0x00000000, 0x4a1d804e);
    Go(Abc, x, 18, 2, 11, 0x265e5a51, 14, 0xe396856b, 0x4a1d804e, 0x3e9e9126, 0x72aff2e0, 0x00000000, 0xe25e1652);
    Go(Abc, x, 19, 2, 0, 0xe9b6c7aa, 20, 0x72aff2e0, 0xe25e1652, 0x4a1d804e, 0x3e9e9126, 0x80636261, 0xb5b204e4);
    Go(Abc, x, 20, 2, 5, 0xd62f105d, 5, 0x3e9e9126, 0xb5b204e4, 0xe25e1652, 0x4a1d804e, 0x00000000, 0x59a8ffda);
    Go(Abc, x, 21, 2, 10, 0x02441453, 9, 0x4a1d804e, 0x59a8ffda, 0xb5b204e4, 0xe25e1652, 0x00000000, 0x6d002f1e);
    Go(Abc, x, 22, 2, 15, 0xd8a1e681, 14, 0xe25e1652, 0x6d002f1e, 0x59a8ffda, 0xb5b204e4, 0x00000000, 0xabfc7920);
    Go(Abc, x, 23, 2, 4, 0xe7d3fbc8, 20, 0xb5b204e4, 0xabfc7920, 0x6d002f1e, 0x59a8ffda, 0x00000000, 0x47092c07);
  }

  lemma AbcSteps4(x: seq<Word>)
    requires AbcWords(x) && Steps(Abc, x, 24) == Quad(0x59a8ffda, 0x47092c07, 0xabfc7920, 0x6d002f1e)
    ensures Steps(Abc, x, 32) == Quad(0x790a77fb, 0x726342d3, 0xa62884aa, 0x9f47e4f8)
  {
    hide Steps, Sine, Index, Shift, Round, Takes;
    Takes12();
    Takes13();
    Go(Abc, x, 24, 2, 9, 0x21e1cde6, 5, 0x59a8ffda, 0x47092c07, 0xabfc7920, 0x6d002f1e, 0x00000000, 0xb7f268cf);
    Go(Abc, x, 25, 2, 14, 0xc33707d6, 9, 0x6d002f1e, 0xb7f268cf, 0x47092c07, 0xabfc7920, 0x00000018, 0x09388eff);
    Go(Abc, x, 26, 2, 3, 0xf4d50d87, 14, 0xabfc7920, 0x09388eff, 0xb7f268cf, 0x47092c07, 0x00000000, 0xfe1623b1);
    Go(Abc, x, 27, 2, 8, 0x455a14ed, 20, 0x47092c07, 0xfe1623b1, 0x09388eff, 0xb7f268cf, 0x00000000, 0x786acb8f);
    Go(Abc, x, 28, 2, 13, 0xa9e3e905, 5, 0xb7f268cf, 0x786acb8f, 0xfe1623b1, 0x09388eff, 0x00000000, 0x790a77fb);
    Go(Abc, x, 29, 2, 2, 0xfcefa3f8, 9, 0x09388eff, 0x790a77fb, 0x786acb8f, 0xfe1623b1, 0x00000000, 0x9f47e4f8);
    Go(Abc, x, 30, 2, 7, 0x676f02d9, 14, 0xfe1623b1, 0x9f47e4f8, 0x790a77fb, 0x786acb8f, 0x00000000, 0xa62884aa);
    Go(Abc, x, 31, 2, 12, 0x8d2a4c8a, 20, 0x786acb8f, 0xa62884aa, 0x9f47e4f8, 0x790a77fb, 0x00000000, 0x726342d3);
  }

  lemma AbcSteps5(x: seq<Word>)
    requires AbcWords(x) && Steps(Abc, x, 32) == Quad(0x790a77fb, 0x726342d3, 0xa62884aa, 0x9f47e4f8)
    ensures Steps(Abc, x, 40) == Quad(0x21b117b9, 0x5a2f5ea5, 0x3575227e, 0x6e7429d5)
  {
    hide Steps, Sine, Index, Shift, Round, Takes;
    Takes20();
    Takes21();
    Go(Abc, x, 32, 3, 5, 0xfffa3942, 4, 0x790a77fb, 0x726342d3, 0xa62884aa, 0x9f47e4f8, 0x00000000, 0xb3707ebf);
    Go(Abc, x, 33, 3, 8, 0x8771f681, 11, 0x9f47e4f8, 0xb3707ebf, 0x726342d3, 0xa62884aa, 0x00000000, 0x60127b2e);
    Go(Abc, x, 34, 3, 11, 0x6d9d6122, 16, 0xa62884aa, 0x60127b2e, 0xb3707ebf, 0x726342d3, 0x00000000, 0x8d212ff5);
    Go(Abc, x, 35, 3, 14, 0xfde5380c, 23, 0x726342d3, 0x8d212ff5, 0x60127b2e, 0xb3707ebf, 0x00000018, 0x3b0875c7);
    Go(Abc, x, 36, 3, 1, 0xa4beea44, 4, 0xb3707ebf, 0x3b0875c7, 0x8d212ff5, 0x60127b2e, 0x00000000, 0x21b117b9);
    Go(Abc, x, 37, 3, 4, 0x4bdecfa9, 11, 0x60127b2e, 0x21b117b9, 0x3b0875c7, 0x8d212ff5, 0x00000000, 0x6e7429d5);
    Go(Abc, x, 38, 3, 7, 0xf6bb4b60, 16, 0x8d212ff5, 0x6e7429d5, 0x21b117b9, 0x3b0875c7, 0x00000000, 0x3575227e);
    Go(Abc, x, 39, 3, 10, 0xbebfbc70, 23, 0x3b0875c7, 0x3575227e, 0x6e7429d5, 0x21b117b9, 0x00000000, 0x5a2f5ea5);
  }

  lemma AbcSteps6(x: seq<Word>)
    requires AbcWords(x) && Steps(Abc, x, 40) == Quad(0x21b117b9, 0x5a2f5ea5, 0x3575227e, 0x6e7429d5)
    ensures Steps(Abc, x, 48) == Quad(0x7f2e507b, 0x7beb9700, 0x8fae6399, 0x99d9679d)
  {
    hide Steps, Sine, Index, Shift, Round, Takes;
    Takes22();
    Takes23();
    Go(Abc, x, 40, 3, 13, 0x289b7ec6, 4, 0x21b117b9, 0x5a2f5ea5, 0x3575227e, 0x6e7429d5, 0x00000000, 0x11de1779);
    Go(Abc, x, 41, 3, 0, 0xeaa127fa, 11, 0x6e7429d5, 0x11de1779, 0x5a2f5ea5, 0x3575227e, 0x80636261, 0xfadcaa38);
    Go(Abc, x, 42, 3, 3, 0xd4ef3085, 16, 0x3575227e, 0xfadcaa38, 0x11de1779, 0x5a2f5ea5, 0x00000000, 0x31c465ca);
    Go(Abc, x, 43, 3, 6, 0x04881d05, 23, 0x5a2f5ea5, 0x31c465ca, 0xfadcaa38, 0x11de1779, 0x00000000, 0x4c6124f4);
    Go(Abc, x, 44, 3, 9, 0xd9d4d039, 4, 0x11de1779, 0x4c6124f4, 0x31c465ca, 0xfadcaa38, 0x00000000, 0x7f2e507b);
    Go(Abc, x, 45, 3, 12, 0xe6db99e5, 11, 0xfadcaa38, 0x7f2e507b, 0x4c6124f4, 0x31c465ca, 0x00000000, 0x99d9679d);
    Go(Abc, x, 46, 3, 15, 0x1fa27cf8, 16, 0x31c465ca, 0x99d9679d, 0x7f2e507b, 0x4c6124f4, 0x00000000, 0x8fae6399);
    Go(Abc, x, 47, 3, 2, 0xc4ac5665, 23, 0x4c6124f4, 0x8fae6399, 0x99d9679d, 0x7f2e507b, 0x00000000, 0x7beb9700);
  }

  lemma AbcSteps7(x: seq<Word>)
    requires AbcWords(x) && Steps(Abc, x, 48) == Quad(0x7f2e507b, 0x7beb9700, 0x8fae6399, 0x99d9679d)
    ensures Steps(Abc, x, 56) == Quad(0x06cc5e8a, 0x3bfa2c27, 0x7d632dd0, 0x5b0d97aa)
  {
    hide Steps, Sine, Index, Shift, Round, Takes;
    Takes30();
    Takes31();
    Go(Abc, x, 48, 4, 0, 0xf4292244, 6, 0x7f2e507b, 0x7beb9700, 0x8fae6399, 0x99d9679d, 0x80636261, 0x7b201df8);
    Go(Abc, x, 49, 4, 7, 0x432aff97, 10, 0x99d9679d, 0x7b201df8, 0x7beb9700, 0x8fae6399, 0x00000000, 0xf4e8e96e);
    Go(Abc, x, 50, 4, 14, 0xab9423a7, 15, 0x8fae6399, 0xf4e8e96e, 0x7b201df8, 0x7beb9700, 0x00000018, 0xb298cefd);
    Go(Abc, x, 51, 4, 5, 0xfc93a039, 21, 0x7beb9700, 0xb298cefd, 0xf4e8e96e, 0x7b201df8, 0x00000000, 0x8bf025c4);
    Go(Abc, x, 52, 4, 12, 0x655b59c3, 6, 0x7b201df8, 0x8bf025c4, 0xb298cefd, 0xf4e8e96e, 0x00000000, 0x06cc5e8a);
    Go(Abc, x, 53, 4, 3, 0x8f0ccc92, 10, 0xf4e8e96e, 0x06cc5e8a, 0x8bf025c4, 0xb298cefd, 0x00000000, 0x5b0d97aa);
    Go(Abc, x, 54, 4, 10, 0xffeff47d, 15, 0xb298cefd, 0x5b0d97aa, 0x06cc5e8a, 0x8bf025c4, 0x00000000, 0x7d632dd0);
    Go(Abc, x, 55, 4, 1, 0x85845dd1, 21, 0x8bf025c4, 0x7d632dd0, 0x5b0d97aa, 0x06cc5e8a, 0x00000000, 0x3bfa2c27);
  }

  lemma AbcSteps8(x: seq<Word>)
    requires AbcWords(x) && Steps(Abc, x, 56) == Quad(0x06cc5e8a, 0x3bfa2c27, 0x7d632dd0, 0x5b0d97aa)
    ensures Steps(Abc, x, 64) == Quad(0x310ade8f, 0xc08226b3, 0xe484b9d8, 0x624d8cb2)
  {
    hide Steps, Sine, Index, Shift, Round, Takes;
    Takes32();
    Takes33();
    Go(Abc, x, 56, 4, 8, 0x6fa87e4f, 6, 0x06cc5e8a, 0x3bfa2c27, 0x7d632dd0, 0x5b0d97aa, 0x00000000, 0x7f81cc35);
    Go(Abc, x, 57, 4, 15, 0xfe2ce6e0, 10, 0x5b0d97aa, 0x7f81cc35, 0x3bfa2c27, 0x7d632dd0, 0x00000000, 0x094454ab);
    Go(Abc, x, 58, 4, 6, 0xa3014314, 15, 0x7d632dd0, 0x094454ab, 0x7f81cc35, 0x3bfa2c27, 0x00000000, 0x4f9dbe3f);
    Go(Abc, x, 59, 4, 13, 0x4e0811a1, 21, 0x3bfa2c27, 0x4f9dbe3f, 0x094454ab, 0x7f81cc35, 0x00000000, 0x7327d604);
    Go(Abc, x, 60, 4, 4, 0xf7537e82, 6, 0x7f81cc35, 0x7327d604, 0x4f9dbe3f, 0x094454ab, 0x00000000, 0x310ade8f);
    Go(Abc, x, 61, 4, 11, 0xbd3af235, 10, 0x094454ab, 0x310ade8f, 0x7327d604, 0x4f9dbe3f, 0x00000000, 0x624d8cb2);
    Go(Abc, x, 62, 4, 2, 0x2ad7d2bb, 15, 0x4f9dbe3f, 0x624d8cb2, 0x310ade8f, 0x7327d604, 0x00000000, 0xe484b9d8);
    Go(Abc, x, 63, 4, 9, 0xeb86d391, 21, 0x7327d604, 0xe484b9d8, 0x624d8cb2, 0x310ade8f, 0x00000000, 0xc08226b3);
  }

  lemma AbcBlock(b: seq<Byte>)
    requires |b| == 64 && AbcWords(Words(b))
    ensures Block(Abc, b) == Quad(0x98500190, 0xb04fd23c, 0x7d3f96d6, 0x727fe128)
  {
    hide Steps, AbcWords, Words;
    var x := Words(b);
    AbcSteps1(x);
    AbcSteps2(x);
    AbcSteps3(x);
    AbcSteps4(x);
    AbcSteps5(x);
    AbcSteps6(x);
    AbcSteps7(x);
    AbcSteps8(x);
  }

  // ---------------------------------------------------------------- first block of two

  const One: Quad := Quad(0x67452301, 0xefcdab89, 0x98badcfe, 0x10325476)

  /** The sixteen words of the block. */
  ghost predicate OneWords(x: seq<Word>) {
    && |x| == 16
    && x[0] == 0x44434241 && x[1] == 0x48474645 && x[2] == 0x4c4b4a49 && x[3] == 0x504f4e4d
    && x[4] == 0x54535251 && x[5] == 0x58575655 && x[6] == 0x62615a59 && x[7] == 0x66656463
    && x[8] == 0x6a696867 && x[9] == 0x6e6d6c6b && x[10] == 0x7271706f && x[11] == 0x76757473
    && x[12] == 0x7a797877 && x[13] == 0x33323130 && x[14] == 0x37363534 && x[15] == 0x00803938
  }

  lemma OneSteps1(x: seq<Word>)
    requires OneWords(x)
    ensures Steps(One, x, 8) == Quad(0xf22e6c4e, 0xa4799506, 0xa95a2fc0, 0xb4ac9218)
  {
    hide Steps, Sine, Index, Shift, Round, Takes;
    NoSteps(One, x);
    Takes00();
    Takes01();
    Go(One, x, 0, 1, 0, 0xd76aa478, 7, 0x67452301, 0xefcdab89, 0x98badcfe, 0x10325476, 0x44434241, 0xc6c10796);
    Go(One, x, 1, 1, 1, 0xe8c7b756, 12, 0x10325476, 0xc6c10796, 0xefcdab89, 0x98badcfe, 0x48474645, 0x99a09999);
    Go(One, x, 2, 1, 2, 0x242070db, 17, 0x98badcfe, 0x99a09999, 0xc6c10796, 0xefcdab89, 0x4c4b4a49, 0x11067980);
    Go(One, x, 3, 1, 3, 0xc1bdceee, 22, 0xefcdab89, 0x11067980, 0x99a09999, 0xc6c10796, 0x504f4e4d, 0x27bce07a);
    Go(One, x, 4, 1, 4, 0xf57c0faf, 7, 0xc6c10796, 0x27bce07a, 0x11067980, 0x99a09999, 0x54535251, 0xf22e6c4e);
    Go(One, x, 5, 1, 5, 0x4787c62a, 12, 0x99a09999, 0xf22e6c4e, 0x27bce07a, 0x11067980, 0x58575655, 0xb4ac9218);
    Go(One, x, 6, 1, 6, 0xa8304613, 17, 0x11067980, 0xb4ac9218, 0xf22e6c4e, 0x27bce07a, 0x62615a59, 0xa95a2fc0);
    Go(One, x, 7, 1, 7, 0xfd469501, 22, 0x27bce07a, 0xa95a2fc0, 0xb4ac9218, 0xf22e6c4e, 0x66656463, 0xa4799506);
  }

  lemma OneSteps2(x: seq<Word>)
    requires OneWords(x) && Steps(One, x, 8) == Quad(0xf22e6c4e, 0xa4799506, 0xa95a2fc0, 0xb4ac9218)
    ensures Steps(One, x, 16) == Quad(0x3cbdcd45, 0x5d38e690, 0xfa148c8a, 0xb8dec763)
  {
    hide Steps, Sine, Index, Shift, Round, Takes;
    Takes02();
    Takes03();
    Go(One, x, 8, 1, 8, 0x698098d8, 7, 0xf22e6c4e, 0xa4799506, 0xa95a2fc0, 0xb4ac9218, 0x6a696867, 0x1eb3e7c1);
    Go(One, x, 9, 1, 9, 0x8b44f7af, 12, 0xb4ac9218, 0x1eb3e7c1, 0xa4799506, 0xa95a2fc0, 0x6e6d6c6b, 0xa6e70cfe);
    Go(One, x, 10, 1, 10, 0xffff5bb1, 17, 0xa95a2fc0, 0xa6e70cfe, 0x1eb3e7c1, 0xa4799506, 0x7271706f, 0xca27520b);
    Go(One, x, 11, 1, 11, 0x895cd7be, 22, 0xa4799506, 0xca27520b, 0xa6e70cfe, 0x1eb3e7c1, 0x76757473, 0x8a7612ec);
    Go(One, x, 12, 1, 12, 0x6b901122, 7, 0x1eb3e7c1, 0x8a7612ec, 0xca27520b, 0xa6e70cfe, 0x7a797877, 0x3cbdcd45);
    Go(One, x, 13, 1, 13, 0xfd987193, 12, 0xa6e70cfe, 0x3cbdcd45, 0x8a7612ec, 0xca27520b, 0x33323130, 0xb8dec763);
    Go(One, x, 14, 1, 14, 0xa679438e, 17, 0xca27520b, 0xb8dec763, 0x3cbdcd45, 0x8a7612ec, 0x37363534, 0xfa148c8a);
    Go(One, x, 15, 1, 15, 0x49b40821, 22, 0x8a7612ec, 0xfa148c8a, 0xb8dec763, 0x3cbdcd45, 0x00803938, 0x5d38e690);
  }

  lemma OneSteps3(x: seq<Word>)
    requires OneWords(x) && Steps(One, x, 16) == Quad(0x3cbdcd45, 0x5d38e690, 0xfa148c8a, 0xb8dec763)
    ensures Steps(One, x, 24) == Quad(0x2d7d8a3f, 0x75292030, 0x4b534dc3, 0xd1210823)
  {
    hide Steps, Sine, Index, Shift, Round, Takes;
    Takes10();
    Takes11();
    Go(One, x, 16, 2, 1, 0xf61e2562, 5, 0x3cbdcd45, 0x5d38e690, 0xfa148c8a, 0xb8dec763, 0x48474645, 0x04b9d52a);
    Go(One, x, 17, 2, 6, 0xc040b340, 9, 0xb8dec763, 0x04b9d52a, 0x5d38e690, 0xfa148c8a, 0x62615a59, 0x783002eb);
    Go(One, x, 18, 2, 11, 0x265e5a51, 14, 0xfa148c8a, 0x783002eb, 0x04b9d52a, 0x5d38e690, 0x76757473, 0xd3ee3ed1);
    Go(One, x, 19, 2, 0, 0xe9b6c7aa, 20, 0x5d38e690, 0xd3ee3ed1, 0x783002eb, 0x04b9d52a, 0x44434241, 0x47ae7c81);
    Go(One, x, 20, 2, 5, 0xd62f105d, 5, 0x04b9d52a, 0x47ae7c81, 0xd3ee3ed1, 0x783002eb, 0x58575655, 0x2d7d8a3f);
    Go(One, x, 21, 2, 10, 0x02441453, 9, 0x783002eb, 0x2d7d8a3f, 0x47ae7c81, 0xd3ee3ed1, 0x7271706f, 0xd1210823);
    Go(One, x, 22, 2, 15, 0xd8a1e681, 14, 0xd3ee3ed1, 0xd1210823, 0x2d7d8a3f, 0x47ae7c81, 0x00803938, 0x4b534dc3);
    Go(One, x, 23, 2, 4, 0xe7d3fbc8, 20, 0x47ae7c81, 0x4b534dc3, 0xd1210823, 0x2d7d8a3f, 0x54535251, 0x75292030);
  }

  lemma OneSteps4(x: seq<Word>)
    requires OneWords(x) && Steps(One, x, 24) == Quad(0x2d7d8a3f, 0x75292030, 0x4b534dc3, 0xd1210823)
    ensures Steps(One, x, 32) == Quad(0x9b085fa9, 0xdd789ecc, 0x5993248f, 0x4400a9bd)
  {
    hide Steps, Sine, Index, Shift, Round, Takes;
    Takes12();
    Takes13();
    Go(One, x, 24, 2, 9, 0x21e1cde6, 5, 0x2d7d8a3f, 0x75292030, 0x4b534dc3, 0xd1210823, 0x6e6d6c6b, 0x9d2a6e33);
    Go(One, x, 25, 2, 14, 0xc33707d6, 9, 0xd1210823, 0x9d2a6e33, 0x75292030, 0x4b534dc3, 0x37363534, 0x0e8d2e44);
    Go(One, x, 26, 2, 3, 0xf4d50d87, 14, 0x4b534dc3, 0x0e8d2e44, 0x9d2a6e33, 0x75292030, 0x504f4e4d, 0xd473b564);
    Go(One, x, 27, 2, 8, 0x455a14ed, 20, 0x75292030, 0xd473b564, 0x0e8d2e44, 0x9d2a6e33, 0x6a696867, 0xf2ff6ea0);
    Go(One, x, 28, 2, 13, 0xa9e3e905, 5, 0x9d2a6e33, 0xf2ff6ea0, 0xd473b564, 0x0e8d2e44, 0x33323130, 0x9b085fa9);
    Go(One, x, 29, 2, 2, 0xfcefa3f8, 9, 0x0e8d2e44, 0x9b085fa9, 0xf2ff6ea0, 0xd473b564, 0x4c4b4a49, 0x4400a9bd);
    Go(One, x, 30, 2, 7, 0x676f02d9, 14, 0xd473b564, 0x4400a9bd, 0x9b085fa9, 0xf2ff6ea0, 0x66656463, 0x5993248f);
    Go(One, x, 31, 2, 12, 0x8d2a4c8a, 20, 0xf2ff6ea0, 0x5993248f, 0x4400a9bd, 0x9b085fa9, 0x7a797877, 0xdd789ecc);
  }

  lemma OneSteps5(x: seq<Word>)
    requires OneWords(x) && Steps(One, x, 32) == Quad(0x9b085fa9, 0xdd789ecc, 0x5993248f, 0x4400a9bd)
    ensures Steps(One, x, 40) == Quad(0x436b7fe9, 0xcf0341ed, 0xf404c2f6, 0x075800c1)
  {
    hide Steps, Sine, Index, Shift, Round, Takes;
    Takes20();
    Takes21();
    Go(One, x, 32, 3, 5, 0xfffa3942, 4, 0x9b085fa9, 0xdd789ecc, 0x5993248f, 0x4400a9bd, 0x58575655, 0x21c8d2b7);
    Go(One, x, 33, 3, 8, 0x8771f681, 11, 0x4400a9bd, 0x21c8d2b7, 0xdd789ecc, 0x5993248f, 0x6a696867, 0x1d55a18e);
    Go(One, x, 34, 3, 11, 0x6d9d6122, 16, 0x5993248f, 0x1d55a18e, 0x21c8d2b7, 0xdd789ecc, 0x76757473, 0x056ec119);
    Go(One, x, 35, 3, 14, 0xfde5380c, 23, 0xdd789ecc, 0x056ec119, 0x1d55a18e, 0x21c8d2b7, 0x37363534, 0x1b9504f8);
    Go(One, x, 36, 3, 1, 0xa4beea44, 4, 0x21c8d2b7, 0x1b9504f8, 0x056ec119, 0x1d55a18e, 0x48474645, 0x436b7fe9);
    Go(One, x, 37, 3, 4, 0x4bdecfa9, 11, 0x1d55a18e, 0x436b7fe9, 0x1b9504f8, 0x056ec119, 0x54535251, 0x075800c1);
    Go(One, x, 38, 3, 7, 0xf6bb4b60, 16, 0x056ec119, 0x075800c1, 0x436b7fe9, 0x1b9504f8, 0x66656463, 0xf404c2f6);
    Go(One, x, 39, 3, 10, 0xbebfbc70, 23, 0x1b9504f8, 0xf404c2f6, 0x075800c1, 0x436b7fe9, 0x7271706f, 0xcf0341ed);
  }

  lemma OneSteps6(x: seq<Word>)
    requires OneWords(x) && Steps(One, x, 40) == Quad(0x436b7fe9, 0xcf0341ed, 0xf404c2f6, 0x075800c1)
    ensures Steps(One, x, 48) == Quad(0x2dbee21d, 0xf166f514, 0xee46e961, 0xe95c3a43)
  {
    hide Steps, Sine, Index, Shift, Round, Takes;
    Takes22();
    Takes23();
    Go(One, x, 40, 3, 13, 0x289b7ec6, 4, 0x436b7fe9, 0xcf0341ed, 0xf404c2f6, 0x075800c1, 0x33323130, 0x888e7d8a);
    Go(One, x, 41, 3, 0, 0xeaa127fa, 11, 0x075800c1, 0x888e7d8a, 0xcf0341ed, 0xf404c2f6, 0x44434241, 0xbbdaecd8);
    Go(One, x, 42, 3, 3, 0xd4ef3085, 16, 0xf404c2f6, 0xbbdaecd8, 0x888e7d8a, 0xcf0341ed, 0x504f4e4d, 0xce620273);
    Go(One, x, 43, 3, 6, 0x04881d05, 23, 0xcf0341ed, 0xce620273, 0xbbdaecd8, 0x888e7d8a, 0x62615a59, 0x047b9419);
    Go(One, x, 44, 3, 9, 0xd9d4d039, 4, 0x888e7d8a, 0x047b9419, 0xce620273, 0xbbdaecd8, 0x6e6d6c6b, 0x2dbee21d);
    Go(One, x, 45, 3, 12, 0xe6db99e5, 11, 0xbbdaecd8, 0x2dbee21d, 0x047b9419, 0xce620273, 0x7a797877, 0xe95c3a43);
    Go(One, x, 46, 3, 15, 0x1fa27cf8, 16, 0xce620273, 0xe95c3a43, 0x2dbee21d, 0x047b9419, 0x00803938, 0xee46e961);
    Go(One, x, 47, 3, 2, 0xc4ac5665, 23, 0x047b9419, 0xee46e961, 0xe95c3a43, 0x2dbee21d, 0x4c4b4a49, 0xf166f514);
  }

  lemma OneSteps7(x: seq<Word>)
    requires OneWords(x) && Steps(One, x, 48) == Quad(0x2dbee21d, 0xf166f514, 0xee46e961, 0xe95c3a43)
    ensures Steps(One, x, 56) == Quad(0xa691d430, 0xefb0e72f, 0x3fc23df6, 0x528452f2)
  {
    hide Steps, Sine, Index, Shift, Round, Takes;
    Takes30();
    Takes31();
    Go(One, x, 48, 4, 0, 0xf4292244, 6, 0x2dbee21d, 0xf166f514, 0xee46e961, 0xe95c3a43, 0x44434241, 0xe47fd4f3);
    Go(One, x, 49, 4, 7, 0x432aff97, 10, 0xe95c3a43, 0xe47fd4f3, 0xf166f514, 0xee46e961, 0x66656463, 0xfb887751);
    Go(One, x, 50, 4, 14, 0xab9423a7, 15, 0xee46e961, 0xfb887751, 0xe47fd4f3, 0xf166f514, 0x37363534, 0xf22aedcc);
    Go(One, x, 51, 4, 5, 0xfc93a039, 21, 0xf166f514, 0xf22aedcc, 0xfb887751, 0xe47fd4f3, 0x58575655, 0x7a13bc5c);
    Go(One, x, 52, 4, 12, 0x655b59c3, 6, 0xe47fd4f3, 0x7a13bc5c, 0xf22aedcc, 0xfb887751, 0x7a797877, 0xa691d430);
    Go(One, x, 53, 4, 3, 0x8f0ccc92, 10, 0xfb887751, 0xa691d430, 0x7a13bc5c, 0xf22aedcc, 0x504f4e4d, 0x528452f2);
    Go(One, x, 54, 4, 10, 0xffeff47d, 15, 0xf22aedcc, 0x528452f2, 0xa691d430, 0x7a13bc5c, 0x7271706f, 0x3fc23df6);
    Go(One, x, 55, 4, 1, 0x85845dd1, 21, 0x7a13bc5c, 0x3fc23df6, 0x528452f2, 0xa691d430, 0x48474645, 0xefb0e72f);
  }

  lemma OneSteps8(x: seq<Word>)
    requires OneWords(x) && Steps(One, x, 56) == Quad(0xa691d430, 0xefb0e72f, 0x3fc23df6, 0x528452f2)
    ensures Steps(One, x, 64) == Quad(0x1cb80f0a, 0xef2e3a46, 0x10f68731, 0xea3d3eb4)
  {
    hide Steps, Sine, Index, Shift, Round, Takes;
    Takes32();
    Takes33();
    Go(One, x, 56, 4, 8, 0x6fa87e4f, 6, 0xa691d430, 0xefb0e72f, 0x3fc23df6, 0x528452f2, 0x6a696867, 0x27145703);
    Go(One, x, 57, 4, 15, 0xfe2ce6e0, 10, 0x528452f2, 0x27145703, 0xefb0e72f, 0x3fc23df6, 0x00803938, 0x21a11069);
    Go(One, x, 58, 4, 6, 0xa3014314, 15, 0x3fc23df6, 0x21a11069, 0x27145703, 0xefb0e72f, 0x62615a59, 0x374fbe79);
    Go(One, x, 59, 4, 13, 0x4e0811a1, 21, 0xefb0e72f, 0x374fbe79, 0x21a11069, 0x27145703, 0x33323130, 0x49d9a5b4);
    Go(One, x, 60, 4, 4, 0xf7537e82, 6, 0x27145703, 0x49d9a5b4, 0x374fbe79, 0x21a11069, 0x54535251, 0x1cb80f0a);
    Go(One, x, 61, 4, 11, 0xbd3af235, 10, 0x21a11069, 0x1cb80f0a, 0x49d9a5b4, 0x374fbe79, 0x76757473, 0xea3d3eb4);
    Go(One, x, 62, 4, 2, 0x2ad7d2bb, 15, 0x374fbe79, 0xea3d3eb4, 0x1cb80f0a, 0x49d9a5b4, 0x4c4b4a49, 0x10f68731);
    Go(One, x, 63, 4, 9, 0xeb86d391, 21, 0x49d9a5b4, 0x10f68731, 0xea3d3eb4, 0x1cb80f0a, 0x6e6d6c6b, 0xef2e3a46);
  }

  lemma OneBlock(b: seq<Byte>)
    requires |b| == 64 && OneWords(Words(b))
    ensures Block(One, b) == Quad(0x83fd320b, 0xdefbe5cf, 0xa9b1642f, 0xfa6f932a)
  {
    hide Steps, OneWords, Words;
    var x := Words(b);
    OneSteps1(x);
    OneSteps2(x);
    OneSteps3(x);
    OneSteps4(x);
    OneSteps5(x);
    OneSteps6(x);
    OneSteps7(x);
    OneSteps8(x);
  }

  // ---------------------------------------------------------------- second block of two

  const Two: Quad := Quad(0x83fd320b, 0xdefbe5cf, 0xa9b1642f, 0xfa6f932a)

  /** The sixteen words of the block. */
  ghost predicate TwoWords(x: seq<Word>) {
    && |x| == 16
    && x[0] == 0x00000000 && x[1] == 0x00000000 && x[2] == 0x00000000 && x[3] == 0x00000000
    && x[4] == 0x00000000 && x[5] == 0x00000000 && x[6] == 0x00000000 && x[7] == 0x00000000
    && x[8] == 0x00000000 && x[9] == 0x00000000 && x[10] == 0x00000000 && x[11] == 0x00000000
    && x[12] == 0x00000000 && x[13] == 0x00000000 && x[14] == 0x000001f0 && x[15] == 0x00000000
  }

  lemma TwoSteps1(x: seq<Word>)
    requires TwoWords(x)
    ensures Steps(Two, x, 8) == Quad(0x75144433, 0x99b6b699, 0xc783cb60, 0xc8875807)
  {
    hide Steps, Sine, Index, Shift, Round, Takes;
    NoSteps(Two, x);
    Takes00();
    Takes01();
    Go(Two, x, 0, 1, 0, 0xd76aa478, 7, 0x83fd320b, 0xdefbe5cf, 0xa9b1642f, 0xfa6f932a, 0x00000000, 0xeda23ed1);
    Go(Two, x, 1, 1, 1, 0xe8c7b756, 12, 0xfa6f932a, 0xeda23ed1, 0xdefbe5cf, 0xa9b1642f, 0x00000000, 0x989939cf);
    Go(Two, x, 2, 1, 2, 0x242070db, 17, 0xa9b1642f, 0x989939cf, 0xeda23ed1, 0xdefbe5cf, 0x00000000, 0x3c307338);
    Go(Two, x, 3, 1, 3, 0xc1bdceee, 22, 0xdefbe5cf, 0x3c307338, 0x989939cf, 0xeda23ed1, 0x00000000, 0xddcf0634);
    Go(Two, x, 4, 1, 4, 0xf57c0faf, 7, 0xeda23ed1, 0xddcf0634, 0x3c307338, 0x989939cf, 0x00000000, 0x75144433);
    Go(Two, x, 5, 1, 5, 0x4787c62a, 12, 0x989939cf, 0x75144433, 0xddcf0634, 0x3c307338, 0x00000000, 0xc8875807);
    Go(Two, x, 6, 1, 6, 0xa8304613, 17, 0x3c307338, 0xc8875807, 0x75144433, 0xddcf0634, 0x00000000, 0xc783cb60);
    Go(Two, x, 7, 1, 7, 0xfd469501, 22, 0xddcf0634, 0xc783cb60, 0xc8875807, 0x75144433, 0x00000000, 0x99b6b699);
  }

  lemma TwoSteps2(x: seq<Word>)
    requires TwoWords(x) && Steps(Two, x, 8) == Quad(0x75144433, 0x99b6b699, 0xc783cb60, 0xc8875807)
    ensures Steps(Two, x, 16) == Quad(0xa70737da, 0xa36f556f, 0x96f6586e, 0x5473f8a7)
  {
    hide Steps, Sine, Index, Shift, Round, Takes;
    Takes02();
    Takes03();
    Go(Two, x, 8, 1, 8, 0x698098d8, 7, 0x75144433, 0x99b6b699, 0xc783cb60, 0xc8875807, 0x00000000, 0xa60a3f69);
    Go(Two, x, 9, 1, 9, 0x8b44f7af, 12, 0xc8875807, 0xa60a3f69, 0x99b6b699, 0xc783cb60, 0x00000000, 0xaa6630be);
    Go(Two, x, 10, 1, 10, 0xffff5bb1, 17, 0xc783cb60, 0xaa6630be, 0xa60a3f69, 0x99b6b699, 0x00000000, 0x64db26e9);
    Go(Two, x, 11, 1, 11, 0x895cd7be, 22, 0x99b6b699, 0x64db26e9, 0xaa6630be, 0xa60a3f69, 0x00000000, 0x64cc7c5a);
    Go(Two, x, 12, 1, 12, 0x6b901122, 7, 0xa60a3f69, 0x64cc7c5a, 0x64db26e9, 0xaa6630be, 0x00000000, 0xa70737da);
    Go(Two, x, 13, 1, 13, 0xfd987193, 12, 0xaa6630be, 0xa70737da, 0x64cc7c5a, 0x64db26e9, 0x00000000, 0x5473f8a7);
    Go(Two, x, 14, 1, 14, 0xa679438e, 17, 0x64db26e9, 0x5473f8a7, 0xa70737da, 0x64cc7c5a, 0x000001f0, 0x96f6586e);
    Go(Two, x, 15, 1, 15, 0x49b40821, 22, 0x64cc7c5a, 0x96f6586e, 0x5473f8a7, 0xa70737da, 0x00000000, 0xa36f556f);
  }

  lemma TwoSteps3(x: seq<Word>)
    requires TwoWords(x) && Steps(Two, x, 16) == Quad(0xa70737da, 0xa36f556f, 0x96f6586e, 0x5473f8a7)
    ensures Steps(Two, x, 24) == Quad(0xe04f070c, 0xdf35cb56, 0xc0d22b61, 0x2f3cd2a2)
  {
    hide Steps, Sine, Index, Shift, Round, Takes;
    Takes10();
    Takes11();
    Go(Two, x, 16, 2, 1, 0xf61e2562, 5, 0xa70737da, 0xa36f556f, 0x96f6586e, 0x5473f8a7, 0x00000000, 0xa5050ad3);
    Go(Two, x, 17, 2, 6, 0xc040b340, 9, 0x5473f8a7, 0xa5050ad3, 0xa36f556f, 0x96f6586e, 0x00000000, 0x28776046);
    Go(Two, x, 18, 2, 11, 0x265e5a51, 14, 0x96f6586e, 0x28776046, 0xa5050ad3, 0xa36f556f, 0x00000000, 0x27dcd8b4);
    Go(Two, x, 19, 2, 0, 0xe9b6c7aa, 20, 0xa36f556f, 0x27dcd8b4, 0x28776046, 0xa5050ad3, 0x00000000, 0x82b8827c);
    Go(Two, x, 20, 2, 5, 0xd62f105d, 5, 0xa5050ad3, 0x82b8827c, 0x27dcd8b4, 0x28776046, 0x00000000, 0xe04f070c);
    Go(Two, x, 21, 2, 10, 0x02441453, 9, 0x28776046, 0xe04f070c, 0x82b8827c, 0x27dcd8b4, 0x00000000, 0x2f3cd2a2);
    Go(Two, x, 22, 2, 15, 0xd8a1e681, 14, 0x27dcd8b4, 0x2f3cd2a2, 0xe04f070c, 0x82b8827c, 0x00000000, 0xc0d22b61);
    Go(Two, x, 23, 2, 4, 0xe7d3fbc8, 20, 0x82b8827c, 0xc0d22b61, 0x2f3cd2a2, 0xe04f070c, 0x00000000, 0xdf35cb56);
  }

  lemma TwoSteps4(x: seq<Word>)
    requires TwoWords(x) && Steps(Two, x, 24) == Quad(0xe04f070c, 0xdf35cb56, 0xc0d22b61, 0x2f3cd2a2)
    ensures Steps(Two, x, 32) == Quad(0x24eba695, 0x9c03e2e8, 0x10c42a2f, 0x4bd0378b)
  {
    hide Steps, Sine, Index, Shift, Round, Takes;
    Takes12();
    Takes13();
    Go(Two, x, 24, 2, 9, 0x21e1cde6, 5, 0xe04f070c, 0xdf35cb56, 0xc0d22b61, 0x2f3cd2a2, 0x00000000, 0x242dd210);
    Go(Two, x, 25, 2, 14, 0xc33707d6, 9, 0x2f3cd2a2, 0x242dd210, 0xdf35cb56, 0xc0d22b61, 0x000001f0, 0x576ace33);
    Go(Two, x, 26, 2, 3, 0xf4d50d87, 14, 0xc0d22b61, 0x576ace33, 0x242dd210, 0xdf35cb56, 0x00000000, 0x5c295967);
    Go(Two, x, 27, 2, 8, 0x455a14ed, 20, 0xdf35cb56, 0x5c295967, 0x576ace33, 0x242dd210, 0x00000000, 0x2291191a);
    Go(Two, x, 28, 2, 13, 0xa9e3e905, 5, 0x242dd210, 0x2291191a, 0x5c295967, 0x576ace33, 0x00000000, 0x24eba695);
    Go(Two, x, 29, 2, 2, 0xfcefa3f8, 9, 0x576ace33, 0x24eba695, 0x2291191a, 0x5c295967, 0x00000000, 0x4bd0378b);
    Go(Two, x, 30, 2, 7, 0x676f02d9, 14, 0x5c295967, 0x4bd0378b, 0x24eba695, 0x2291191a, 0x00000000, 0x10c42a2f);
    Go(Two, x, 31, 2, 12, 0x8d2a4c8a, 20, 0x2291191a, 0x10c42a2f, 0x4bd0378b, 0x24eba695, 0x00000000, 0x9c03e2e8);
  }

  lemma TwoSteps5(x: seq<Word>)
    requires TwoWords(x) && Steps(Two, x, 32) == Quad(0x24eba695, 0x9c03e2e8, 0x10c42a2f, 0x4bd0378b)
    ensures Steps(Two, x, 40) == Quad(0xe14e403d, 0xfe314121, 0x60cc183a, 0xe8cfd670)
  {
    hide Steps, Sine, Index, Shift, Round, Takes;
    Takes20();
    Takes21();
    Go(Two, x, 32, 3, 5, 0xfffa3942, 4, 0x24eba695, 0x9c03e2e8, 0x10c42a2f, 0x4bd0378b, 0x00000000, 0x5be1d526);
    Go(Two, x, 33, 3, 8, 0x8771f681, 11, 0x4bd0378b, 0x5be1d526, 0x9c03e2e8, 0x10c42a2f, 0x00000000, 0x9e414279);
    Go(Two, x, 34, 3, 11, 0x6d9d6122, 16, 0x10c42a2f, 0x9e414279, 0x5be1d526, 0x9c03e2e8, 0x00000000, 0x9f4a1a7e);
    Go(Two, x, 35, 3, 14, 0xfde5380c, 23, 0x9c03e2e8, 0x9f4a1a7e, 0x9e414279, 0x5be1d526, 0x000001f0, 0xa2448453);
    Go(Two, x, 36, 3, 1, 0xa4beea44, 4, 0x5be1d526, 0xa2448453, 0x9f4a1a7e, 0x9e414279, 0x00000000, 0xe14e403d);
    Go(Two, x, 37, 3, 4, 0x4bdecfa9, 11, 0x9e414279, 0xe14e403d, 0xa2448453, 0x9f4a1a7e, 0x00000000, 0xe8cfd670);
    Go(Two, x, 38, 3, 7, 0xf6bb4b60, 16, 0x9f4a1a7e, 0xe8cfd670, 0xe14e403d, 0xa2448453, 0x00000000, 0x60cc183a);
    Go(Two, x, 39, 3, 10, 0xbebfbc70, 23, 0xa2448453, 0x60cc183a, 0xe8cfd670, 0xe14e403d, 0x00000000, 0xfe314121);
  }

  lemma TwoSteps6(x: seq<Word>)
    requires TwoWords(x) && Steps(Two, x, 40) == Quad(0xe14e403d, 0xfe314121, 0x60cc183a, 0xe8cfd670)
    ensures Steps(Two, x, 48) == Quad(0x54c9eb3a, 0x79c0710a, 0x2ec86f72, 0xd4d9c6ac)
  {
    hide Steps, Sine, Index, Shift, Round, Takes;
    Takes22();
    Takes23();
    Go(Two, x, 40, 3, 13, 0x289b7ec6, 4, 0xe14e403d, 0xfe314121, 0x60cc183a, 0xe8cfd670, 0x00000000, 0xfff62809);
    Go(Two, x, 41, 3, 0, 0xeaa127fa, 11, 0xe8cfd670, 0xfff62809, 0xfe314121, 0x60cc183a, 0x00000000, 0xe37209ac);
    Go(Two, x, 42, 3, 3, 0xd4ef3085, 16, 0x60cc183a, 0xe37209ac, 0xfff62809, 0xfe314121, 0x00000000, 0x8cb5221c);
    Go(Two, x, 43, 3, 6, 0x04881d05, 23, 0xfe314121, 0x8cb5221c, 0xe37209ac, 0xfff62809, 0x00000000, 0x7c7e974c);
    Go(Two, x, 44, 3, 9, 0xd9d4d039, 4, 0xfff62809, 0x7c7e974c, 0x8cb5221c, 0xe37209ac, 0x00000000, 0x54c9eb3a);
    Go(Two, x, 45, 3, 12, 0xe6db99e5, 11, 0xe37209ac, 0x54c9eb3a, 0x7c7e974c, 0x8cb5221c, 0x00000000, 0xd4d9c6ac);
    Go(Two, x, 46, 3, 15, 0x1fa27cf8, 16, 0x8cb5221c, 0xd4d9c6ac, 0x54c9eb3a, 0x7c7e974c, 0x00000000, 0x2ec86f72);
    Go(Two, x, 47, 3, 2, 0xc4ac5665, 23, 0x7c7e974c, 0x2ec86f72, 0xd4d9c6ac, 0x54c9eb3a, 0x00000000, 0x79c0710a);
  }

  lemma TwoSteps7(x: seq<Word>)
    requires TwoWords(x) && Steps(Two, x, 48) == Quad(0x54c9eb3a, 0x79c0710a, 0x2ec86f72, 0xd4d9c6ac)
    ensures Steps(Two, x, 56) == Quad(0xe126c1aa, 0xfb7bcee0, 0x6f287ff5, 0x96b00fa7)
  {
    hide Steps, Sine, Index, Shift, Round, Takes;
    Takes30();
    Takes31();
    Go(Two, x, 48, 4, 0, 0xf4292244, 6, 0x54c9eb3a, 0x79c0710a, 0x2ec86f72, 0xd4d9c6ac, 0x00000000, 0x02095af1);
    Go(Two, x, 49, 4, 7, 0x432aff97, 10, 0xd4d9c6ac, 0x02095af1, 0x79c0710a, 0x2ec86f72, 0x00000000, 0x13d245fd);
    Go(Two, x, 50, 4, 14, 0xab9423a7, 15, 0x2ec86f72, 0x13d245fd, 0x02095af1, 0x79c0710a, 0x000001f0, 0xa8dcfe26);
    Go(Two, x, 51, 4, 5, 0xfc93a039, 21, 0x79c0710a, 0xa8dcfe26, 0x13d245fd, 0x02095af1, 0x00000000, 0x2ba98e3f);
    Go(Two, x, 52, 4, 12, 0x655b59c3, 6, 0x02095af1, 0x2ba98e3f, 0xa8dcfe26, 0x13d245fd, 0x00000000, 0xe126c1aa);
    Go(Two, x, 53, 4, 3, 0x8f0ccc92, 10, 0x13d245fd, 0xe126c1aa, 0x2ba98e3f, 0xa8dcfe26, 0x00000000, 0x96b00fa7);
    Go(Two, x, 54, 4, 10, 0xffeff47d, 15, 0xa8dcfe26, 0x96b00fa7, 0xe126c1aa, 0x2ba98e3f, 0x00000000, 0x6f287ff5);
    Go(Two, x, 55, 4, 1, 0x85845dd1, 21, 0x2ba98e3f, 0x6f287ff5, 0x96b00fa7, 0xe126c1aa, 0x00000000, 0xfb7bcee0);
  }

  lemma TwoSteps8(x: seq<Word>)
    requires TwoWords(x) && Steps(Two, x, 56) == Quad(0xe126c1aa, 0xfb7bcee0, 0x6f287ff5, 0x96b00fa7)
    ensures Steps(Two, x, 64) == Quad(0x14ae42c6, 0x16dd9203, 0x826afd76, 0xa52dae75)
  {
    hide Steps, Sine, Index, Shift, Round, Takes;
    Takes32();
    Takes33();
    Go(Two, x, 56, 4, 8, 0x6fa87e4f, 6, 0xe126c1aa, 0xfb7bcee0, 0x6f287ff5, 0x96b00fa7, 0x00000000, 0x452c1099);
    Go(Two, x, 57, 4, 15, 0xfe2ce6e0, 10, 0x96b00fa7, 0x452c1099, 0xfb7bcee0, 0x6f287ff5, 0x00000000, 0xca801ba6);
    Go(Two, x, 58, 4, 6, 0xa3014314, 15, 0x6f287ff5, 0xca801ba6, 0x452c1099, 0xfb7bcee0, 0x00000000, 0xc197ea8e);
    Go(Two, x, 59, 4, 13, 0x4e0811a1, 21, 0xfb7bcee0, 0xc197ea8e, 0xca801ba6, 0x452c1099, 0x00000000, 0x5ac74608);
    Go(Two, x, 60, 4, 4, 0xf7537e82, 6, 0x452c1099, 0x5ac74608, 0xc197ea8e, 0xca801ba6, 0x00000000, 0x14ae42c6);
    Go(Two, x, 61, 4, 11, 0xbd3af235, 10, 0xca801ba6, 0x14ae42c6, 0x5ac74608, 0xc197ea8e, 0x00000000, 0xa52dae75);
    Go(Two, x, 62, 4, 2, 0x2ad7d2bb, 15, 0xc197ea8e, 0xa52dae75, 0x14ae42c6, 0x5ac74608, 0x00000000, 0x826afd76);
    Go(Two, x, 63, 4, 9, 0xeb86d391, 21, 0x5ac74608, 0x826afd76, 0xa52dae75, 0x14ae42c6, 0x00000000, 0x16dd9203);
  }

  lemma TwoBlock(b: seq<Byte>)
    requires |b| == 64 && TwoWords(Words(b))
    ensures Block(Two, b) == Quad(0x98ab74d1, 0xf5d977d2, 0x2c1c61a5, 0x9f9d419f)
  {
    hide Steps, TwoWords, Words;
    var x := Words(b);
    TwoSteps1(x);
    TwoSteps2(x);
    TwoSteps3(x);
    TwoSteps4(x);
    TwoSteps5(x);
    TwoSteps6(x);
    TwoSteps7(x);
    TwoSteps8(x);
  }

  // ---------------------------------------------------------------- the digests

  lemma AbcLoads(b: seq<Byte>)
    requires b == [97, 98, 99, 128] + Zeros(52) + [24, 0, 0, 0, 0, 0, 0, 0]
    ensures |b| == 64 && AbcWords(Words(b))
  {
    hide Words;
    Loads(b, 0, 97, 98, 99, 128, 0x80636261);
    LoadsZeros(b, 1, 14);
    Loads(b, 14, 24, 0, 0, 0, 24);
    LoadsZeros(b, 15, 16);
  }

  lemma AbcPadded()
    ensures Padded([97, 98, 99]) == [97, 98, 99, 128] + Zeros(52) + [24, 0, 0, 0, 0, 0, 0, 0]
  {
    assert LengthField(3) == [24, 0, 0, 0, 0, 0, 0, 0];
    assert ZeroCount(3) == 52;
  }

  lemma AbcBytes()
    ensures QuadBytes(Quad(0x98500190, 0xb04fd23c, 0x7d3f96d6, 0x727fe128))
         == [0x90, 0x01, 0x50, 0x98, 0x3c, 0xd2, 0x4f, 0xb0, 0xd6, 0x96, 0x3f, 0x7d, 0x28, 0xe1, 0x7f, 0x72]
  {
  }

  /** The digest of "abc". */
  lemma AbcDigest()
    ensures Digest([97, 98, 99])
         == [0x90, 0x01, 0x50, 0x98, 0x3c, 0xd2, 0x4f, 0xb0, 0xd6, 0x96, 0x3f, 0x7d, 0x28, 0xe1, 0x7f, 0x72]
  {
    hide Block, QuadBytes, Words, AbcWords, Padded, Fold;
    var b := Padded([97, 98, 99]);
    AbcPadded();
    AbcLoads(b);
    AbcBlock(b);
    OneFold(Block, START, b);
    AbcBytes();
  }

  function AlnumByte(k: nat): Byte
    requires k < 62
  {
    if k < 26 then 65 + k else if k < 52 then 71 + k else k - 4
  }

  /** The 62 bytes of A to Z, a to z and 0 to 9. */
  function Alnum(): (m: seq<Byte>)
    ensures |m| == 62
  {
    seq(62, k requires 0 <= k < 62 => AlnumByte(k))
  }

  lemma AlnumWord(b: seq<Byte>, i: nat, c0: Byte, c1: Byte, c2: Byte, c3: Byte, x: Word)
    requires |b| == 64 && b[..62] == Alnum() && i < 15
    requires c0 == AlnumByte(4 * i) && c1 == AlnumByte(4 * i + 1)
    requires c2 == AlnumByte(4 * i + 2) && c3 == AlnumByte(4 * i + 3)
    requires LittleEndian(Bits(c0), Bits(c1), Bits(c2), Bits(c3)) == x
    ensures |Words(b)| == 16 && Words(b)[i] == x
  {
    hide LittleEndian, Bits, Words, AlnumByte;
    assert forall k :: 0 <= k < 62 ==> b[k] == Alnum()[k];
    Loads(b, i, c0, c1, c2, c3, x);
  }

  lemma OneLoads(b: seq<Byte>)
    requires b == Alnum() + [128, 0]
    ensures |b| == 64 && OneWords(Words(b))
  {
    hide Words, Alnum;
    assert b[..62] == Alnum();
    LastWord(b);
    AlnumWord(b, 0, 65, 66, 67, 68, 0x44434241);
    AlnumWord(b, 1, 69, 70, 71, 72, 0x48474645);
    AlnumWord(b, 2, 73, 74, 75, 76, 0x4c4b4a49);
    AlnumWord(b, 3, 77, 78, 79, 80, 0x504f4e4d);
    AlnumWord(b, 4, 81, 82, 83, 84, 0x54535251);
    AlnumWord(b, 5, 85, 86, 87, 88, 0x58575655);
    AlnumWord(b, 6, 89, 90, 97, 98, 0x62615a59);
    AlnumWord(b, 7, 99, 100, 101, 102, 0x66656463);
    AlnumWord(b, 8, 103, 104, 105, 106, 0x6a696867);
    AlnumWord(b, 9, 107, 108, 109, 110, 0x6e6d6c6b);
    AlnumWord(b, 10, 111, 112, 113, 114, 0x7271706f);
    AlnumWord(b, 11, 115, 116, 117, 118, 0x76757473);
    AlnumWord(b, 12, 119, 120, 121, 122, 0x7a797877);
    AlnumWord(b, 13, 48, 49, 50, 51, 0x33323130);
    AlnumWord(b, 14, 52, 53, 54, 55, 0x37363534);
  }

  lemma LastWord(b: seq<Byte>)
    requires b == Alnum() + [128, 0]
    ensures |Words(b)| == 16 && Words(b)[15] == 0x00803938
  {
    hide Words;
    assert b[60] == Alnum()[60] && b[61] == Alnum()[61];
    Loads(b, 15, 56, 57, 128, 0, 0x00803938);
  }

  lemma TwoLoads(b: seq<Byte>)
    requires b == Zeros(56) + [240, 1, 0, 0, 0, 0, 0, 0]
    ensures |b| == 64 && TwoWords(Words(b))
  {
    hide Words;
    LoadsZeros(b, 0, 14);
    Loads(b, 14, 240, 1, 0, 0, 496);
    LoadsZeros(b, 15, 16);
  }

  lemma TwoPadded(b: seq<Byte>, c: seq<Byte>)
    requires b == Alnum() + [128, 0] && c == Zeros(56) + [240, 1, 0, 0, 0, 0, 0, 0]
    ensures Padded(Alnum()) == b + c
  {
    hide Alnum;
    assert LengthField(62) == [240, 1, 0, 0, 0, 0, 0, 0];
    assert ZeroCount(62) == 57;
    assert Zeros(57) == [0] + Zeros(56);
  }

  lemma TwoBytes()
    ensures QuadBytes(Quad(0x98ab74d1, 0xf5d977d2, 0x2c1c61a5, 0x9f9d419f))
         == [0xd1, 0x74, 0xab, 0x98, 0xd2, 0x77, 0xd9, 0xf5, 0xa5, 0x61, 0x1c, 0x2c, 0x9f, 0x41, 0x9d, 0x9f]
  {
  }

  /** The digest of the message of two blocks. */
  lemma AlnumDigest()
    ensures Digest(Alnum())
         == [0xd1, 0x74, 0xab, 0x98, 0xd2, 0x77, 0xd9, 0xf5, 0xa5, 0x61, 0x1c, 0x2c, 0x9f, 0x41, 0x9d, 0x9f]
  {
    hide Block, QuadBytes, Words, OneWords, TwoWords, Padded, Fold, Alnum;
    var b, c := Alnum() + [128, 0], Zeros(56) + [240, 1, 0, 0, 0, 0, 0, 0];
    TwoPadded(b, c);
    OneLoads(b);
    TwoLoads(c);
    FirstBlock(Block, START, b + c, b, c);
    OneBlock(b);
    OneFold(Block, Block(START, b), c);
    TwoBlock(c);
    TwoBytes();
  }
}
