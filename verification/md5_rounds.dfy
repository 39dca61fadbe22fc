/** The 64 steps of MD5 in the two forms: the rounds of section 3.4 of RFC 1321, whose registers move one
    place every step, and the code of src/md5.c, where four registers stay put and change roles and two of
    the functions are rewritten. */
module Md5Rounds {

  type Word = bv32

  datatype Quad = Quad(a: Word, b: Word, c: Word, d: Word)

  function Rot(x: Word, n: nat): Word
    requires 0 < n < 32
  {
    (x << n) | (x >> (32 - n))
  }

  /** F, G, H and I of RFC 1321, by number of the round. */
  function Logic(n: nat, x: Word, y: Word, z: Word): Word {
    if n == 1 then (x & y) | (!x & z)
    else if n == 2 then (x & z) | (y & !z)
    else if n == 3 then x ^ y ^ z
    else y ^ (x | !z)
  }

  /** F1 to F4 of the code. */
  function Rewritten(n: nat, x: Word, y: Word, z: Word): Word {
    if n == 1 then z ^ (x & (y ^ z))
    else if n == 2 then y ^ (z & (x ^ y))
    else if n == 3 then x ^ y ^ z
    else y ^ (x | !z)
  }

  lemma RewrittenBits(x: bv32, y: bv32, z: bv32)
    ensures z ^ (x & (y ^ z)) == (x & y) | (!x & z)
    ensures y ^ (z & (x ^ y)) == (x & z) | (y & !z)
  {
  }

  /** The rewritten functions are those of the standard. */
  lemma RewrittenIsLogic(n: nat, x: Word, y: Word, z: Word)
    ensures Rewritten(n, x, y, z) == Logic(n, x, y, z)
  {
    RewrittenBits(x, y, z);
  }

  function Plus(x: Word, y: Word): Word { x + y }

  lemma PlusSwaps(x: Word, y: Word)
    ensures Plus(x, y) == Plus(y, x)
  {
  }

  lemma PlusIs(x: Word, y: Word)
    ensures Plus(x, y) == x + y
  {
  }

  lemma PlusRegroups(x: Word, y: Word, z: Word)
    ensures Plus(x, y + z) == Plus(x + y, z)
  {
  }

  lemma PlusAssociates(x: Word, y: Word, z: Word)
    ensures Plus(x, Plus(y, z)) == Plus(Plus(x, y), z)
  {
    hide Plus;
    PlusIs(y, z);
    PlusIs(x, y);
    PlusRegroups(x, y, z);
  }

  /** The round step i belongs to. */
  function Round(i: nat): nat { 1 + i / 16 }

  /** The word of the block that step i takes. */
  function Index(i: nat): (k: nat)
    ensures k < 16
  {
    match i / 16
    case 0 => i % 16
    case 1 => (5 * i + 1) % 16
    case 2 => (3 * i + 5) % 16
    case _ => 7 * i % 16
  }

  /** How far step i rotates. */
  function Shift(i: nat): (s: nat)
    ensures 0 < s < 32
  {
    match (i / 16, i % 4)
    case (0, 0) => 7 case (0, 1) => 12 case (0, 2) => 17 case (0, _) => 22
    case (1, 0) => 5 case (1, 1) => 9 case (1, 2) => 14 case (1, _) => 20
    case (2, 0) => 4 case (2, 1) => 11 case (2, 2) => 16 case (2, _) => 23
    case (_, 0) => 6 case (_, 1) => 10 case (_, 2) => 15 case (_, _) => 21
  }

  /** The table T: the integer part of 2^32 times the absolute value of sin(i + 1). */
  function Sine(i: nat): Word {
    if i < 16 then Sine1(i) else if i < 32 then Sine2(i) else if i < 48 then Sine3(i) else Sine4(i)
  }

  function Sine1(i: nat): Word {
    match i
    case 0 => 0xd76aa478 case 1 => 0xe8c7b756 case 2 => 0x242070db case 3 => 0xc1bdceee
    case 4 => 0xf57c0faf case 5 => 0x4787c62a case 6 => 0xa8304613 case 7 => 0xfd469501
    case 8 => 0x698098d8 case 9 => 0x8b44f7af case 10 => 0xffff5bb1 case 11 => 0x895cd7be
    case 12 => 0x6b901122 case 13 => 0xfd987193 case 14 => 0xa679438e case _ => 0x49b40821
  }

  function Sine2(i: nat): Word {
    match i
    case 16 => 0xf61e2562 case 17 => 0xc040b340 case 18 => 0x265e5a51 case 19 => 0xe9b6c7aa
    case 20 => 0xd62f105d case 21 => 0x02441453 case 22 => 0xd8a1e681 case 23 => 0xe7d3fbc8
    case 24 => 0x21e1cde6 case 25 => 0xc33707d6 case 26 => 0xf4d50d87 case 27 => 0x455a14ed
    case 28 => 0xa9e3e905 case 29 => 0xfcefa3f8 case 30 => 0x676f02d9 case _ => 0x8d2a4c8a
  }

  function Sine3(i: nat): Word {
    match i
    case 32 => 0xfffa3942 case 33 => 0x8771f681 case 34 => 0x6d9d6122 case 35 => 0xfde5380c
    case 36 => 0xa4beea44 case 37 => 0x4bdecfa9 case 38 => 0xf6bb4b60 case 39 => 0xbebfbc70
    case 40 => 0x289b7ec6 case 41 => 0xeaa127fa case 42 => 0xd4ef3085 case 43 => 0x04881d05
    case 44 => 0xd9d4d039 case 45 => 0xe6db99e5 case 46 => 0x1fa27cf8 case _ => 0xc4ac5665
  }

  function Sine4(i: nat): Word {
    match i
    case 48 => 0xf4292244 case 49 => 0x432aff97 case 50 => 0xab9423a7 case 51 => 0xfc93a039
    case 52 => 0x655b59c3 case 53 => 0x8f0ccc92 case 54 => 0xffeff47d case 55 => 0x85845dd1
    case 56 => 0x6fa87e4f case 57 => 0xfe2ce6e0 case 58 => 0xa3014314 case 59 => 0x4e0811a1
    case 60 => 0xf7537e82 case 61 => 0xbd3af235 case 62 => 0x2ad7d2bb case _ => 0xeb86d391
  }

  /** b + ((a + f(b, c, d) + x + t) <<< s). */
  function Mix(n: nat, a: Word, b: Word, c: Word, d: Word, x: Word, t: Word, s: nat): Word
    requires 0 < s < 32
  {
    Plus(b, Rot(Plus(Plus(Plus(a, Logic(n, b, c, d)), x), t), s))
  }

  /** One step of the standard. */
  function Step(i: nat, q: Quad, x: seq<Word>): Quad
    requires |x| == 16
  {
    Quad(q.d, Mix(Round(i), q.a, q.b, q.c, q.d, x[Index(i)], Sine(i), Shift(i)), q.b, q.c)
  }

  /** The first i steps. */
  function Steps(q: Quad, x: seq<Word>, i: nat): Quad
    requires |x| == 16
  {
    if i == 0 then q else Step(i - 1, Steps(q, x, i - 1), x)
  }

  function Sum(p: Quad, q: Quad): Quad {
    Quad(Plus(p.a, q.a), Plus(p.b, q.b), Plus(p.c, q.c), Plus(p.d, q.d))
  }

  // ---------------------------------------------------------------- the code

  /** MD5STEP: what is assigned to the register w. */
  function Md5Step(n: nat, w: Word, x: Word, y: Word, z: Word, inp: Word, s: nat): Word
    requires 0 < s < 32
  {
    Plus(Rot(Plus(w, Plus(Rewritten(n, x, y, z), inp)), s), x)
  }

  lemma Md5StepIsMix(n: nat, w: Word, x: Word, y: Word, z: Word, inp: Word, t: Word, s: nat)
    requires 0 < s < 32
    ensures Md5Step(n, w, x, y, z, Plus(inp, t), s) == Mix(n, w, x, y, z, inp, t, s)
  {
    hide Plus, Rot, Rewritten, Logic;
    RewrittenIsLogic(n, x, y, z);
    var f := Logic(n, x, y, z);
    PlusAssociates(w, f, Plus(inp, t));
    PlusAssociates(Plus(w, f), inp, t);
    PlusSwaps(Rot(Plus(Plus(Plus(w, f), inp), t), s), x);
  }

  /** The four ways the code calls MD5STEP; the registers stay in place. */
  function StepA(n: nat, q: Quad, inp: Word, s: nat): Quad
    requires 0 < s < 32
  {
    q.(a := Md5Step(n, q.a, q.b, q.c, q.d, inp, s))
  }

  function StepD(n: nat, q: Quad, inp: Word, s: nat): Quad
    requires 0 < s < 32
  {
    q.(d := Md5Step(n, q.d, q.a, q.b, q.c, inp, s))
  }

  function StepC(n: nat, q: Quad, inp: Word, s: nat): Quad
    requires 0 < s < 32
  {
    q.(c := Md5Step(n, q.c, q.d, q.a, q.b, inp, s))
  }

  function StepB(n: nat, q: Quad, inp: Word, s: nat): Quad
    requires 0 < s < 32
  {
    q.(b := Md5Step(n, q.b, q.c, q.d, q.a, inp, s))
  }

  /** Which registers play a to d after k steps: the roles come back every four steps. */
  function View(k: nat, q: Quad): Quad {
    match k
    case 0 => q
    case 1 => Quad(q.d, q.a, q.b, q.c)
    case 2 => Quad(q.c, q.d, q.a, q.b)
    case _ => Quad(q.b, q.c, q.d, q.a)
  }

  /** The registers in their roles show the first i steps of the standard on r. */
  ghost predicate Shows(k: nat, q: Quad, x: seq<Word>, i: nat, r: Quad) {
    |x| == 16 && View(k, q) == Steps(r, x, i)
  }

  /** The word, constant and rotation of step i. */
  ghost predicate Takes(i: nat, n: nat, k: nat, t: Word, s: nat) {
    n == Round(i) && k == Index(i) && t == Sine(i) && s == Shift(i)
  }

  lemma TurnA(i: nat, n: nat, k: nat, t: Word, s: nat, q: Quad, x: seq<Word>, r: Quad)
    requires Shows(0, q, x, i, r) && Takes(i, n, k, t, s)
    ensures 0 < s < 32 && k < 16 && Shows(1, StepA(n, q, Plus(x[k], t), s), x, i + 1, r)
  {
    hide Md5Step, Mix, Sine, Index, Shift, Round, Plus;
    var v := View(0, q);
    Md5StepIsMix(n, v.a, v.b, v.c, v.d, x[k], t, s);
  }

  lemma TurnD(i: nat, n: nat, k: nat, t: Word, s: nat, q: Quad, x: seq<Word>, r: Quad)
    requires Shows(1, q, x, i, r) && Takes(i, n, k, t, s)
    ensures 0 < s < 32 && k < 16 && Shows(2, StepD(n, q, Plus(x[k], t), s), x, i + 1, r)
  {
    hide Md5Step, Mix, Sine, Index, Shift, Round, Plus;
    var v := View(1, q);
    Md5StepIsMix(n, v.a, v.b, v.c, v.d, x[k], t, s);
  }

  lemma TurnC(i: nat, n: nat, k: nat, t: Word, s: nat, q: Quad, x: seq<Word>, r: Quad)
    requires Shows(2, q, x, i, r) && Takes(i, n, k, t, s)
    ensures 0 < s < 32 && k < 16 && Shows(3, StepC(n, q, Plus(x[k], t), s), x, i + 1, r)
  {
    hide Md5Step, Mix, Sine, Index, Shift, Round, Plus;
    var v := View(2, q);
    Md5StepIsMix(n, v.a, v.b, v.c, v.d, x[k], t, s);
  }

  lemma TurnB(i: nat, n: nat, k: nat, t: Word, s: nat, q: Quad, x: seq<Word>, r: Quad)
    requires Shows(3, q, x, i, r) && Takes(i, n, k, t, s)
    ensures 0 < s < 32 && k < 16 && Shows(0, StepB(n, q, Plus(x[k], t), s), x, i + 1, r)
  {
    hide Md5Step, Mix, Sine, Index, Shift, Round, Plus;
    var v := View(3, q);
    Md5StepIsMix(n, v.a, v.b, v.c, v.d, x[k], t, s);
  }

  lemma Takes00()
    ensures Takes(0, 1, 0, 0xd76aa478, 7)
    ensures Takes(1, 1, 1, 0xe8c7b756, 12)
    ensures Takes(2, 1, 2, 0x242070db, 17)
    ensures Takes(3, 1, 3, 0xc1bdceee, 22)
  {
  }

  lemma Takes01()
    ensures Takes(4, 1, 4, 0xf57c0faf, 7)
    ensures Takes(5, 1, 5, 0x4787c62a, 12)
    ensures Takes(6, 1, 6, 0xa8304613, 17)
    ensures Takes(7, 1, 7, 0xfd469501, 22)
  {
  }

  lemma Takes02()
    ensures Takes(8, 1, 8, 0x698098d8, 7)
    ensures Takes(9, 1, 9, 0x8b44f7af, 12)
    ensures Takes(10, 1, 10, 0xffff5bb1, 17)
    ensures Takes(11, 1, 11, 0x895cd7be, 22)
  {
  }

  lemma Takes03()
    ensures Takes(12, 1, 12, 0x6b901122, 7)
    ensures Takes(13, 1, 13, 0xfd987193, 12)
    ensures Takes(14, 1, 14, 0xa679438e, 17)
    ensures Takes(15, 1, 15, 0x49b40821, 22)
  {
  }

  lemma Takes10()
    ensures Takes(16, 2, 1, 0xf61e2562, 5)
    ensures Takes(17, 2, 6, 0xc040b340, 9)
    ensures Takes(18, 2, 11, 0x265e5a51, 14)
    ensures Takes(19, 2, 0, 0xe9b6c7aa, 20)
  {
  }

  lemma Takes11()
    ensures Takes(20, 2, 5, 0xd62f105d, 5)
    ensures Takes(21, 2, 10, 0x02441453, 9)
    ensures Takes(22, 2, 15, 0xd8a1e681, 14)
    ensures Takes(23, 2, 4, 0xe7d3fbc8, 20)
  {
  }

  lemma Takes12()
    ensures Takes(24, 2, 9, 0x21e1cde6, 5)
    ensures Takes(25, 2, 14, 0xc33707d6, 9)
    ensures Takes(26, 2, 3, 0xf4d50d87, 14)
    ensures Takes(27, 2, 8, 0x455a14ed, 20)
  {
  }

  lemma Takes13()
    ensures Takes(28, 2, 13, 0xa9e3e905, 5)
    ensures Takes(29, 2, 2, 0xfcefa3f8, 9)
    ensures Takes(30, 2, 7, 0x676f02d9, 14)
    ensures Takes(31, 2, 12, 0x8d2a4c8a, 20)
  {
  }

  lemma Takes20()
    ensures Takes(32, 3, 5, 0xfffa3942, 4)
    ensures Takes(33, 3, 8, 0x8771f681, 11)
    ensures Takes(34, 3, 11, 0x6d9d6122, 16)
    ensures Takes(35, 3, 14, 0xfde5380c, 23)
  {
  }

  lemma Takes21()
    ensures Takes(36, 3, 1, 0xa4beea44, 4)
    ensures Takes(37, 3, 4, 0x4bdecfa9, 11)
    ensures Takes(38, 3, 7, 0xf6bb4b60, 16)
    ensures Takes(39, 3, 10, 0xbebfbc70, 23)
  {
  }

  lemma Takes22()
    ensures Takes(40, 3, 13, 0x289b7ec6, 4)
    ensures Takes(41, 3, 0, 0xeaa127fa, 11)
    ensures Takes(42, 3, 3, 0xd4ef3085, 16)
    ensures Takes(43, 3, 6, 0x04881d05, 23)
  {
  }

  lemma Takes23()
    ensures Takes(44, 3, 9, 0xd9d4d039, 4)
    ensures Takes(45, 3, 12, 0xe6db99e5, 11)
    ensures Takes(46, 3, 15, 0x1fa27cf8, 16)
    ensures Takes(47, 3, 2, 0xc4ac5665, 23)
  {
  }

  lemma Takes30()
    ensures Takes(48, 4, 0, 0xf4292244, 6)
    ensures Takes(49, 4, 7, 0x432aff97, 10)
    ensures Takes(50, 4, 14, 0xab9423a7, 15)
    ensures Takes(51, 4, 5, 0xfc93a039, 21)
  {
  }

  lemma Takes31()
    ensures Takes(52, 4, 12, 0x655b59c3, 6)
    ensures Takes(53, 4, 3, 0x8f0ccc92, 10)
    ensures Takes(54, 4, 10, 0xffeff47d, 15)
    ensures Takes(55, 4, 1, 0x85845dd1, 21)
  {
  }

  lemma Takes32()
    ensures Takes(56, 4, 8, 0x6fa87e4f, 6)
    ensures Takes(57, 4, 15, 0xfe2ce6e0, 10)
    ensures Takes(58, 4, 6, 0xa3014314, 15)
    ensures Takes(59, 4, 13, 0x4e0811a1, 21)
  {
  }

  lemma Takes33()
    ensures Takes(60, 4, 4, 0xf7537e82, 6)
    ensures Takes(61, 4, 11, 0xbd3af235, 10)
    ensures Takes(62, 4, 2, 0x2ad7d2bb, 15)
    ensures Takes(63, 4, 9, 0xeb86d391, 21)
  {
  }

  /** Round 1 of MD5Transform. */
  method Transform1(q0: Quad, x: seq<Word>, ghost r: Quad) returns (q: Quad)
    requires |x| == 16 && Shows(0, q0, x, 0, r)
    ensures Shows(0, q, x, 16, r)
  {
    hide Shows, Takes, StepA, StepB, StepC, StepD, Plus;
    Takes00();
    Takes01();
    Takes02();
    Takes03();
    q := q0;
    TurnA(0, 1, 0, 0xd76aa478, 7, q, x, r); q := StepA(1, q, Plus(x[0], 0xd76aa478), 7);
    TurnD(1, 1, 1, 0xe8c7b756, 12, q, x, r); q := StepD(1, q, Plus(x[1], 0xe8c7b756), 12);
    TurnC(2, 1, 2, 0x242070db, 17, q, x, r); q := StepC(1, q, Plus(x[2], 0x242070db), 17);
    TurnB(3, 1, 3, 0xc1bdceee, 22, q, x, r); q := StepB(1, q, Plus(x[3], 0xc1bdceee), 22);
    TurnA(4, 1, 4, 0xf57c0faf, 7, q, x, r); q := StepA(1, q, Plus(x[4], 0xf57c0faf), 7);
    TurnD(5, 1, 5, 0x4787c62a, 12, q, x, r); q := StepD(1, q, Plus(x[5], 0x4787c62a), 12);
    TurnC(6, 1, 6, 0xa8304613, 17, q, x, r); q := StepC(1, q, Plus(x[6], 0xa8304613), 17);
    TurnB(7, 1, 7, 0xfd469501, 22, q, x, r); q := StepB(1, q, Plus(x[7], 0xfd469501), 22);
    TurnA(8, 1, 8, 0x698098d8, 7, q, x, r); q := StepA(1, q, Plus(x[8], 0x698098d8), 7);
    TurnD(9, 1, 9, 0x8b44f7af, 12, q, x, r); q := StepD(1, q, Plus(x[9], 0x8b44f7af), 12);
    TurnC(10, 1, 10, 0xffff5bb1, 17, q, x, r); q := StepC(1, q, Plus(x[10], 0xffff5bb1), 17);
    TurnB(11, 1, 11, 0x895cd7be, 22, q, x, r); q := StepB(1, q, Plus(x[11], 0x895cd7be), 22);
    TurnA(12, 1, 12, 0x6b901122, 7, q, x, r); q := StepA(1, q, Plus(x[12], 0x6b901122), 7);
    TurnD(13, 1, 13, 0xfd987193, 12, q, x, r); q := StepD(1, q, Plus(x[13], 0xfd987193), 12);
    TurnC(14, 1, 14, 0xa679438e, 17, q, x, r); q := StepC(1, q, Plus(x[14], 0xa679438e), 17);
    TurnB(15, 1, 15, 0x49b40821, 22, q, x, r); q := StepB(1, q, Plus(x[15], 0x49b40821), 22);
  }

  /** Round 2 of MD5Transform. */
  method Transform2(q0: Quad, x: seq<Word>, ghost r: Quad) returns (q: Quad)
    requires |x| == 16 && Shows(0, q0, x, 16, r)
    ensures Shows(0, q, x, 32, r)
  {
    hide Shows, Takes, StepA, StepB, StepC, StepD, Plus;
    Takes10();
    Takes11();
    Takes12();
    Takes13();
    q := q0;
    TurnA(16, 2, 1, 0xf61e2562, 5, q, x, r); q := StepA(2, q, Plus(x[1], 0xf61e2562), 5);
    TurnD(17, 2, 6, 0xc040b340, 9, q, x, r); q := StepD(2, q, Plus(x[6], 0xc040b340), 9);
    TurnC(18, 2, 11, 0x265e5a51, 14, q, x, r); q := StepC(2, q, Plus(x[11], 0x265e5a51), 14);
    TurnB(19, 2, 0, 0xe9b6c7aa, 20, q, x, r); q := StepB(2, q, Plus(x[0], 0xe9b6c7aa), 20);
    TurnA(20, 2, 5, 0xd62f105d, 5, q, x, r); q := StepA(2, q, Plus(x[5], 0xd62f105d), 5);
    TurnD(21, 2, 10, 0x02441453, 9, q, x, r); q := StepD(2, q, Plus(x[10], 0x02441453), 9);
    TurnC(22, 2, 15, 0xd8a1e681, 14, q, x, r); q := StepC(2, q, Plus(x[15], 0xd8a1e681), 14);
    TurnB(23, 2, 4, 0xe7d3fbc8, 20, q, x, r); q := StepB(2, q, Plus(x[4], 0xe7d3fbc8), 20);
    TurnA(24, 2, 9, 0x21e1cde6, 5, q, x, r); q := StepA(2, q, Plus(x[9], 0x21e1cde6), 5);
    TurnD(25, 2, 14, 0xc33707d6, 9, q, x, r); q := StepD(2, q, Plus(x[14], 0xc33707d6), 9);
    TurnC(26, 2, 3, 0xf4d50d87, 14, q, x, r); q := StepC(2, q, Plus(x[3], 0xf4d50d87), 14);
    TurnB(27, 2, 8, 0x455a14ed, 20, q, x, r); q := StepB(2, q, Plus(x[8], 0x455a14ed), 20);
    TurnA(28, 2, 13, 0xa9e3e905, 5, q, x, r); q := StepA(2, q, Plus(x[13], 0xa9e3e905), 5);
    TurnD(29, 2, 2, 0xfcefa3f8, 9, q, x, r); q := StepD(2, q, Plus(x[2], 0xfcefa3f8), 9);
    TurnC(30, 2, 7, 0x676f02d9, 14, q, x, r); q := StepC(2, q, Plus(x[7], 0x676f02d9), 14);
    TurnB(31, 2, 12, 0x8d2a4c8a, 20, q, x, r); q := StepB(2, q, Plus(x[12], 0x8d2a4c8a), 20);
  }

  /** Round 3 of MD5Transform. */
  method Transform3(q0: Quad, x: seq<Word>, ghost r: Quad) returns (q: Quad)
    requires |x| == 16 && Shows(0, q0, x, 32, r)
    ensures Shows(0, q, x, 48, r)
  {
    hide Shows, Takes, StepA, StepB, StepC, StepD, Plus;
    Takes20();
    Takes21();
    Takes22();
    Takes23();
    q := q0;
    TurnA(32, 3, 5, 0xfffa3942, 4, q, x, r); q := StepA(3, q, Plus(x[5], 0xfffa3942), 4);
    TurnD(33, 3, 8, 0x8771f681, 11, q, x, r); q := StepD(3, q, Plus(x[8], 0x8771f681), 11);
    TurnC(34, 3, 11, 0x6d9d6122, 16, q, x, r); q := StepC(3, q, Plus(x[11], 0x6d9d6122), 16);
    TurnB(35, 3, 14, 0xfde5380c, 23, q, x, r); q := StepB(3, q, Plus(x[14], 0xfde5380c), 23);
    TurnA(36, 3, 1, 0xa4beea44, 4, q, x, r); q := StepA(3, q, Plus(x[1], 0xa4beea44), 4);
    TurnD(37, 3, 4, 0x4bdecfa9, 11, q, x, r); q := StepD(3, q, Plus(x[4], 0x4bdecfa9), 11);
    TurnC(38, 3, 7, 0xf6bb4b60, 16, q, x, r); q := StepC(3, q, Plus(x[7], 0xf6bb4b60), 16);
    TurnB(39, 3, 10, 0xbebfbc70, 23, q, x, r); q := StepB(3, q, Plus(x[10], 0xbebfbc70), 23);
    TurnA(40, 3, 13, 0x289b7ec6, 4, q, x, r); q := StepA(3, q, Plus(x[13], 0x289b7ec6), 4);
    TurnD(41, 3, 0, 0xeaa127fa, 11, q, x, r); q := StepD(3, q, Plus(x[0], 0xeaa127fa), 11);
    TurnC(42, 3, 3, 0xd4ef3085, 16, q, x, r); q := StepC(3, q, Plus(x[3], 0xd4ef3085), 16);
    TurnB(43, 3, 6, 0x04881d05, 23, q, x, r); q := StepB(3, q, Plus(x[6], 0x04881d05), 23);
    TurnA(44, 3, 9, 0xd9d4d039, 4, q, x, r); q := StepA(3, q, Plus(x[9], 0xd9d4d039), 4);
    TurnD(45, 3, 12, 0xe6db99e5, 11, q, x, r); q := StepD(3, q, Plus(x[12], 0xe6db99e5), 11);
    TurnC(46, 3, 15, 0x1fa27cf8, 16, q, x, r); q := StepC(3, q, Plus(x[15], 0x1fa27cf8), 16);
    TurnB(47, 3, 2, 0xc4ac5665, 23, q, x, r); q := StepB(3, q, Plus(x[2], 0xc4ac5665), 23);
  }

  /** Round 4 of MD5Transform. */
  method Transform4(q0: Quad, x: seq<Word>, ghost r: Quad) returns (q: Quad)
    requires |x| == 16 && Shows(0, q0, x, 48, r)
    ensures Shows(0, q, x, 64, r)
  {
    hide Shows, Takes, StepA, StepB, StepC, StepD, Plus;
    Takes30();
    Takes31();
    Takes32();
    Takes33();
    q := q0;
    TurnA(48, 4, 0, 0xf4292244, 6, q, x, r); q := StepA(4, q, Plus(x[0], 0xf4292244), 6);
    TurnD(49, 4, 7, 0x432aff97, 10, q, x, r); q := StepD(4, q, Plus(x[7], 0x432aff97), 10);
    TurnC(50, 4, 14, 0xab9423a7, 15, q, x, r); q := StepC(4, q, Plus(x[14], 0xab9423a7), 15);
    TurnB(51, 4, 5, 0xfc93a039, 21, q, x, r); q := StepB(4, q, Plus(x[5], 0xfc93a039), 21);
    TurnA(52, 4, 12, 0x655b59c3, 6, q, x, r); q := StepA(4, q, Plus(x[12], 0x655b59c3), 6);
    TurnD(53, 4, 3, 0x8f0ccc92, 10, q, x, r); q := StepD(4, q, Plus(x[3], 0x8f0ccc92), 10);
    TurnC(54, 4, 10, 0xffeff47d, 15, q, x, r); q := StepC(4, q, Plus(x[10], 0xffeff47d), 15);
    TurnB(55, 4, 1, 0x85845dd1, 21, q, x, r); q := StepB(4, q, Plus(x[1], 0x85845dd1), 21);
    TurnA(56, 4, 8, 0x6fa87e4f, 6, q, x, r); q := StepA(4, q, Plus(x[8], 0x6fa87e4f), 6);
    TurnD(57, 4, 15, 0xfe2ce6e0, 10, q, x, r); q := StepD(4, q, Plus(x[15], 0xfe2ce6e0), 10);
    TurnC(58, 4, 6, 0xa3014314, 15, q, x, r); q := StepC(4, q, Plus(x[6], 0xa3014314), 15);
    TurnB(59, 4, 13, 0x4e0811a1, 21, q, x, r); q := StepB(4, q, Plus(x[13], 0x4e0811a1), 21);
    TurnA(60, 4, 4, 0xf7537e82, 6, q, x, r); q := StepA(4, q, Plus(x[4], 0xf7537e82), 6);
    TurnD(61, 4, 11, 0xbd3af235, 10, q, x, r); q := StepD(4, q, Plus(x[11], 0xbd3af235), 10);
    TurnC(62, 4, 2, 0x2ad7d2bb, 15, q, x, r); q := StepC(4, q, Plus(x[2], 0x2ad7d2bb), 15);
    TurnB(63, 4, 9, 0xeb86d391, 21, q, x, r); q := StepB(4, q, Plus(x[9], 0xeb86d391), 21);
  }

  lemma FirstRoles(q: Quad, x: seq<Word>)
    requires |x| == 16
    ensures Shows(0, q, x, 0, q)
  {
  }

  lemma LastRoles(q: Quad, x: seq<Word>, r: Quad)
    requires Shows(0, q, x, 64, r)
    ensures |x| == 16 && q == Steps(r, x, 64)
  {
    hide Steps;
  }

  /** MD5Transform: for every state and block the code computes the 64 steps of the standard. */
  method Md5Transform(buf: Quad, x: seq<Word>) returns (q: Quad)
    requires |x| == 16
    ensures q == Sum(buf, Steps(buf, x, 64))
  {
    hide Shows, Steps, Sum;
    FirstRoles(buf, x);
    q := Transform1(buf, x, buf);
    q := Transform2(q, x, buf);
    q := Transform3(q, x, buf);
    q := Transform4(q, x, buf);
    LastRoles(q, x, buf);
    q := Sum(buf, q);
  }

  // ---------------------------------------------------------------- what the four functions are

  lemma FBits(x: Word, y: Word, z: Word, m: Word)
    ensures x & m == m ==> Logic(1, x, y, z) & m == y & m
    ensures x & m == 0 ==> Logic(1, x, y, z) & m == z & m
  {
  }

  lemma GBits(x: Word, y: Word, z: Word, m: Word)
    ensures z & m == m ==> Logic(2, x, y, z) & m == x & m
    ensures z & m == 0 ==> Logic(2, x, y, z) & m == y & m
  {
  }

  lemma HBits1(x: Word, y: Word, z: Word, m: Word)
    requires x & m == y & m
    ensures Logic(3, x, y, z) & m == z & m
  {
  }

  lemma HBits2(x: Word, y: Word, z: Word, m: Word)
    requires x & m == z & m
    ensures Logic(3, x, y, z) & m == y & m
  {
  }

  lemma HBits3(x: Word, y: Word, z: Word, m: Word)
    requires y & m == z & m
    ensures Logic(3, x, y, z) & m == x & m
  {
  }

  lemma IBits1(x: Word, y: Word, z: Word, m: Word)
    requires x & m == m
    ensures Logic(4, x, y, z) & m == !y & m
  {
  }

  lemma IBits2(x: Word, y: Word, z: Word, m: Word)
    requires z & m == 0
    ensures Logic(4, x, y, z) & m == !y & m
  {
  }

  lemma IBits3(x: Word, y: Word, z: Word, m: Word)
    requires x & m == 0 && z & m == m
    ensures Logic(4, x, y, z) & m == y & m
  {
  }

  /** Under every mask, and so bit by bit: in F the word x chooses between y and z, in G the word z chooses
      between x and y, H is parity (where two agree the third decides), and I complements y except where
      x is clear and z is set. */
  lemma LogicBits(x: Word, y: Word, z: Word, m: Word)
    ensures x & m == m ==> Logic(1, x, y, z) & m == y & m
    ensures x & m == 0 ==> Logic(1, x, y, z) & m == z & m
    ensures z & m == m ==> Logic(2, x, y, z) & m == x & m
    ensures z & m == 0 ==> Logic(2, x, y, z) & m == y & m
    ensures x & m == y & m ==> Logic(3, x, y, z) & m == z & m
    ensures x & m == z & m ==> Logic(3, x, y, z) & m == y & m
    ensures y & m == z & m ==> Logic(3, x, y, z) & m == x & m
    ensures x & m == m || z & m == 0 ==> Logic(4, x, y, z) & m == !y & m
    ensures x & m == 0 && z & m == m ==> Logic(4, x, y, z) & m == y & m
  {
    hide Logic;
    FBits(x, y, z, m);
    GBits(x, y, z, m);
    if x & m == y & m { HBits1(x, y, z, m); }
    if x & m == z & m { HBits2(x, y, z, m); }
    if y & m == z & m { HBits3(x, y, z, m); }
    if x & m == m { IBits1(x, y, z, m); }
    if z & m == 0 { IBits2(x, y, z, m); }
    if x & m == 0 && z & m == m { IBits3(x, y, z, m); }
  }
}
