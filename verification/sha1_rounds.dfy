/** The eighty rounds of SHA-1 in the two forms src/sha1.c has: the generic loop, whose five registers move
    one place every round, and the unravelled one, where six registers stay put and change roles. */
module Sha1Rounds {

  type Word = bv32

  /** R32. */
  function Rot(x: Word, n: nat): Word
    requires 0 < n < 32
  {
    (x << n) | (x >> (32 - n))
  }

  /** f1 to f4, by number of the group of twenty rounds. */
  function Logic(n: nat, x: Word, y: Word, z: Word): Word {
    if n == 1 then (x & y) | (!x & z)
    else if n == 2 then x ^ y ^ z
    else if n == 3 then (x & y) | (x & z) | (y & z)
    else x ^ y ^ z
  }

  /** CONST1 to CONST4. */
  function Const(n: nat): Word {
    if n == 1 then 0x5a827999 else if n == 2 then 0x6ed9eba1 else if n == 3 then 0x8f1bbcdc else 0xca62c1d6
  }

  /** The sum every round computes. */
  function Mix(n: nat, a: Word, b: Word, c: Word, d: Word, e: Word, w: Word): Word {
    Rot(a, 5) + Logic(n, b, c, d) + e + w + Const(n)
  }

  function Turn(x: Word): Word { Rot(x, 30) }

  datatype Regs = Regs(a: Word, b: Word, c: Word, d: Word, e: Word)

  /** FG, which is the round of section 6.1.2 of FIPS 180-4. */
  function Round(n: nat, r: Regs, w: Word): Regs {
    Regs(Mix(n, r.a, r.b, r.c, r.d, r.e, w), r.a, Turn(r.b), r.c, r.d)
  }

  /** The group round i belongs to. */
  function Group(i: nat): nat { 1 + i / 20 }

  /** The first i rounds. */
  function Rounds(r: Regs, w: seq<Word>, i: nat): Regs
    requires i <= |w|
  {
    if i == 0 then r else Round(Group(i - 1), Rounds(r, w, i - 1), w[i - 1])
  }

  /** A word of the message schedule, from those 3, 8, 14 and 16 places before it. */
  function NextWord(x3: Word, x8: Word, x14: Word, x16: Word): Word {
    Rot(x3 ^ x8 ^ x14 ^ x16, 1)
  }

  /** The message schedule of sixteen words, extended to n. */
  function Schedule(w: seq<Word>, n: nat): (r: seq<Word>)
    requires |w| == 16 && n >= 16
    ensures |r| == n
  {
    if n == 16 then w
    else var p := Schedule(w, n - 1); p + [NextWord(p[n - 4], p[n - 9], p[n - 15], p[n - 17])]
  }

  /** The method form of the loop that fills W. */
  method Extend(w: array<Word>)
    requires w.Length == 80
    modifies w
    ensures w[..] == Schedule(old(w[..16]), 80)
  {
    hide NextWord;
    var i := 16;
    while i < 80
      invariant 16 <= i <= 80 && w[..i] == Schedule(old(w[..16]), i)
    {
      ghost var p := w[..i];
      w[i] := NextWord(w[i - 3], w[i - 8], w[i - 14], w[i - 16]);
      i := i + 1;
      assert w[..i] == p + [w[i - 1]];
    }
    assert w[..80] == w[..];
  }

  // ---------------------------------------------------------------- unravelled rounds

  /** The six registers of the unravelled form. */
  datatype Six = Six(A: Word, B: Word, C: Word, D: Word, E: Word, T: Word)

  function FA(n: nat, s: Six, w: Word): Six { s.(T := Mix(n, s.A, s.B, s.C, s.D, s.E, w), B := Turn(s.B)) }
  function FB(n: nat, s: Six, w: Word): Six { s.(E := Mix(n, s.T, s.A, s.B, s.C, s.D, w), A := Turn(s.A)) }
  function FC(n: nat, s: Six, w: Word): Six { s.(D := Mix(n, s.E, s.T, s.A, s.B, s.C, w), T := Turn(s.T)) }
  function FD(n: nat, s: Six, w: Word): Six { s.(C := Mix(n, s.D, s.E, s.T, s.A, s.B, w), E := Turn(s.E)) }
  function FE(n: nat, s: Six, w: Word): Six { s.(B := Mix(n, s.C, s.D, s.E, s.T, s.A, w), D := Turn(s.D)) }
  function FT(n: nat, s: Six, w: Word): Six { s.(A := Mix(n, s.B, s.C, s.D, s.E, s.T, w), C := Turn(s.C)) }

  /** Which registers play a to e when the macro number k is next: the roles come back every six rounds. */
  function View(k: nat, s: Six): Regs {
    match k
    case 0 => Regs(s.A, s.B, s.C, s.D, s.E)
    case 1 => Regs(s.T, s.A, s.B, s.C, s.D)
    case 2 => Regs(s.E, s.T, s.A, s.B, s.C)
    case 3 => Regs(s.D, s.E, s.T, s.A, s.B)
    case 4 => Regs(s.C, s.D, s.E, s.T, s.A)
    case _ => Regs(s.B, s.C, s.D, s.E, s.T)
  }

  /** Each macro, seen through the roles before and after it, is the generic round. */
  lemma RolesTurn(n: nat, s: Six, w: Word)
    ensures View(1, FA(n, s, w)) == Round(n, View(0, s), w)
    ensures View(2, FB(n, s, w)) == Round(n, View(1, s), w)
    ensures View(3, FC(n, s, w)) == Round(n, View(2, s), w)
    ensures View(4, FD(n, s, w)) == Round(n, View(3, s), w)
    ensures View(5, FE(n, s, w)) == Round(n, View(4, s), w)
    ensures View(0, FT(n, s, w)) == Round(n, View(5, s), w)
  {
    hide Mix, Turn;
  }

  /** Macro number k is next, and the registers in their roles show the first i generic rounds on r. */
  ghost predicate Shows(k: nat, s: Six, w: seq<Word>, i: nat, r: Regs) {
    i <= |w| && View(k, s) == Rounds(r, w, i)
  }

  lemma TurnA(n: nat, s: Six, w: seq<Word>, i: nat, r: Regs)
    requires Shows(0, s, w, i, r) && i < |w| && n == Group(i)
    ensures Shows(1, FA(n, s, w[i]), w, i + 1, r)
  {
    hide View, FA, Round;
    RolesTurn(n, s, w[i]);
  }

  lemma TurnB(n: nat, s: Six, w: seq<Word>, i: nat, r: Regs)
    requires Shows(1, s, w, i, r) && i < |w| && n == Group(i)
    ensures Shows(2, FB(n, s, w[i]), w, i + 1, r)
  {
    hide View, FB, Round;
    RolesTurn(n, s, w[i]);
  }

  lemma TurnC(n: nat, s: Six, w: seq<Word>, i: nat, r: Regs)
    requires Shows(2, s, w, i, r) && i < |w| && n == Group(i)
    ensures Shows(3, FC(n, s, w[i]), w, i + 1, r)
  {
    hide View, FC, Round;
    RolesTurn(n, s, w[i]);
  }

  lemma TurnD(n: nat, s: Six, w: seq<Word>, i: nat, r: Regs)
    requires Shows(3, s, w, i, r) && i < |w| && n == Group(i)
    ensures Shows(4, FD(n, s, w[i]), w, i + 1, r)
  {
    hide View, FD, Round;
    RolesTurn(n, s, w[i]);
  }

  lemma TurnE(n: nat, s: Six, w: seq<Word>, i: nat, r: Regs)
    requires Shows(4, s, w, i, r) && i < |w| && n == Group(i)
    ensures Shows(5, FE(n, s, w[i]), w, i + 1, r)
  {
    hide View, FE, Round;
    RolesTurn(n, s, w[i]);
  }

  lemma TurnT(n: nat, s: Six, w: seq<Word>, i: nat, r: Regs)
    requires Shows(5, s, w, i, r) && i < |w| && n == Group(i)
    ensures Shows(0, FT(n, s, w[i]), w, i + 1, r)
  {
    hide View, FT, Round;
    RolesTurn(n, s, w[i]);
  }

  /** Rounds 0 to 19. */
  method Rounds1(s0: Six, w: seq<Word>, ghost r: Regs) returns (s: Six)
    requires |w| == 80 && Shows(0, s0, w, 0, r)
    ensures Shows(2, s, w, 20, r)
  {
    hide Shows, View, FA, FB, FC, FD, FE, FT, Rounds;
    s := s0;
    TurnA(1, s, w, 0, r); s := FA(1, s, w[0]);
    TurnB(1, s, w, 1, r); s := FB(1, s, w[1]);
    TurnC(1, s, w, 2, r); s := FC(1, s, w[2]);
    TurnD(1, s, w, 3, r); s := FD(1, s, w[3]);
    TurnE(1, s, w, 4, r); s := FE(1, s, w[4]);
    TurnT(1, s, w, 5, r); s := FT(1, s, w[5]);
    TurnA(1, s, w, 6, r); s := FA(1, s, w[6]);
    TurnB(1, s, w, 7, r); s := FB(1, s, w[7]);
    TurnC(1, s, w, 8, r); s := FC(1, s, w[8]);
    TurnD(1, s, w, 9, r); s := FD(1, s, w[9]);
    TurnE(1, s, w, 10, r); s := FE(1, s, w[10]);
    TurnT(1, s, w, 11, r); s := FT(1, s, w[11]);
    TurnA(1, s, w, 12, r); s := FA(1, s, w[12]);
    TurnB(1, s, w, 13, r); s := FB(1, s, w[13]);
    TurnC(1, s, w, 14, r); s := FC(1, s, w[14]);
    TurnD(1, s, w, 15, r); s := FD(1, s, w[15]);
    TurnE(1, s, w, 16, r); s := FE(1, s, w[16]);
    TurnT(1, s, w, 17, r); s := FT(1, s, w[17]);
    TurnA(1, s, w, 18, r); s := FA(1, s, w[18]);
    TurnB(1, s, w, 19, r); s := FB(1, s, w[19]);
  }

  /** Rounds 20 to 39. */
  method Rounds2(s0: Six, w: seq<Word>, ghost r: Regs) returns (s: Six)
    requires |w| == 80 && Shows(2, s0, w, 20, r)
    ensures Shows(4, s, w, 40, r)
  {
    hide Shows, View, FA, FB, FC, FD, FE, FT, Rounds;
    s := s0;
    TurnC(2, s, w, 20, r); s := FC(2, s, w[20]);
    TurnD(2, s, w, 21, r); s := FD(2, s, w[21]);
    TurnE(2, s, w, 22, r); s := FE(2, s, w[22]);
    TurnT(2, s, w, 23, r); s := FT(2, s, w[23]);
    TurnA(2, s, w, 24, r); s := FA(2, s, w[24]);
    TurnB(2, s, w, 25, r); s := FB(2, s, w[25]);
    TurnC(2, s, w, 26, r); s := FC(2, s, w[26]);
    TurnD(2, s, w, 27, r); s := FD(2, s, w[27]);
    TurnE(2, s, w, 28, r); s := FE(2, s, w[28]);
    TurnT(2, s, w, 29, r); s := FT(2, s, w[29]);
    TurnA(2, s, w, 30, r); s := FA(2, s, w[30]);
    TurnB(2, s, w, 31, r); s := FB(2, s, w[31]);
    TurnC(2, s, w, 32, r); s := FC(2, s, w[32]);
    TurnD(2, s, w, 33, r); s := FD(2, s, w[33]);
    TurnE(2, s, w, 34, r); s := FE(2, s, w[34]);
    TurnT(2, s, w, 35, r); s := FT(2, s, w[35]);
    TurnA(2, s, w, 36, r); s := FA(2, s, w[36]);
    TurnB(2, s, w, 37, r); s := FB(2, s, w[37]);
    TurnC(2, s, w, 38, r); s := FC(2, s, w[38]);
    TurnD(2, s, w, 39, r); s := FD(2, s, w[39]);
  }

  /** Rounds 40 to 59. */
  method Rounds3(s0: Six, w: seq<Word>, ghost r: Regs) returns (s: Six)
    requires |w| == 80 && Shows(4, s0, w, 40, r)
    ensures Shows(0, s, w, 60, r)
  {
    hide Shows, View, FA, FB, FC, FD, FE, FT, Rounds;
    s := s0;
    TurnE(3, s, w, 40, r); s := FE(3, s, w[40]);
    TurnT(3, s, w, 41, r); s := FT(3, s, w[41]);
    TurnA(3, s, w, 42, r); s := FA(3, s, w[42]);
    TurnB(3, s, w, 43, r); s := FB(3, s, w[43]);
    TurnC(3, s, w, 44, r); s := FC(3, s, w[44]);
    TurnD(3, s, w, 45, r); s := FD(3, s, w[45]);
    TurnE(3, s, w, 46, r); s := FE(3, s, w[46]);
    TurnT(3, s, w, 47, r); s := FT(3, s, w[47]);
    TurnA(3, s, w, 48, r); s := FA(3, s, w[48]);
    TurnB(3, s, w, 49, r); s := FB(3, s, w[49]);
    TurnC(3, s, w, 50, r); s := FC(3, s, w[50]);
    TurnD(3, s, w, 51, r); s := FD(3, s, w[51]);
    TurnE(3, s, w, 52, r); s := FE(3, s, w[52]);
    TurnT(3, s, w, 53, r); s := FT(3, s, w[53]);
    TurnA(3, s, w, 54, r); s := FA(3, s, w[54]);
    TurnB(3, s, w, 55, r); s := FB(3, s, w[55]);
    TurnC(3, s, w, 56, r); s := FC(3, s, w[56]);
    TurnD(3, s, w, 57, r); s := FD(3, s, w[57]);
    TurnE(3, s, w, 58, r); s := FE(3, s, w[58]);
    TurnT(3, s, w, 59, r); s := FT(3, s, w[59]);
  }

  /** Rounds 60 to 79. */
  method Rounds4(s0: Six, w: seq<Word>, ghost r: Regs) returns (s: Six)
    requires |w| == 80 && Shows(0, s0, w, 60, r)
    ensures Shows(2, s, w, 80, r)
  {
    hide Shows, View, FA, FB, FC, FD, FE, FT, Rounds;
    s := s0;
    TurnA(4, s, w, 60, r); s := FA(4, s, w[60]);
    TurnB(4, s, w, 61, r); s := FB(4, s, w[61]);
    TurnC(4, s, w, 62, r); s := FC(4, s, w[62]);
    TurnD(4, s, w, 63, r); s := FD(4, s, w[63]);
    TurnE(4, s, w, 64, r); s := FE(4, s, w[64]);
    TurnT(4, s, w, 65, r); s := FT(4, s, w[65]);
    TurnA(4, s, w, 66, r); s := FA(4, s, w[66]);
    TurnB(4, s, w, 67, r); s := FB(4, s, w[67]);
    TurnC(4, s, w, 68, r); s := FC(4, s, w[68]);
    TurnD(4, s, w, 69, r); s := FD(4, s, w[69]);
    TurnE(4, s, w, 70, r); s := FE(4, s, w[70]);
    TurnT(4, s, w, 71, r); s := FT(4, s, w[71]);
    TurnA(4, s, w, 72, r); s := FA(4, s, w[72]);
    TurnB(4, s, w, 73, r); s := FB(4, s, w[73]);
    TurnC(4, s, w, 74, r); s := FC(4, s, w[74]);
    TurnD(4, s, w, 75, r); s := FD(4, s, w[75]);
    TurnE(4, s, w, 76, r); s := FE(4, s, w[76]);
    TurnT(4, s, w, 77, r); s := FT(4, s, w[77]);
    TurnA(4, s, w, 78, r); s := FA(4, s, w[78]);
    TurnB(4, s, w, 79, r); s := FB(4, s, w[79]);
  }

  /** The words added to the digest at the end of a block. */
  function Sum(d: Regs, r: Regs): Regs {
    Regs(d.a + r.a, d.b + r.b, d.c + r.c, d.d + r.d, d.e + r.e)
  }

  lemma FirstRoles(d: Regs, w: seq<Word>)
    ensures Shows(0, Six(d.a, d.b, d.c, d.d, d.e, 0), w, 0, d)
  {
  }

  lemma LastRoles(s: Six, d: Regs, w: seq<Word>)
    requires |w| == 80 && Shows(2, s, w, 80, d)
    ensures Rounds(d, w, 80) == Regs(s.E, s.T, s.A, s.B, s.C)
  {
    hide Rounds;
  }

  /** The unravelled form computes what the generic form does. */
  method UnravelledForm(d: Regs, w: seq<Word>) returns (r: Regs)
    requires |w| == 80
    ensures r == Sum(d, Rounds(d, w, 80))
  {
    hide Rounds, Shows, Sum;
    FirstRoles(d, w);
    var s := Six(d.a, d.b, d.c, d.d, d.e, 0);
    s := Rounds1(s, w, d);
    s := Rounds2(s, w, d);
    s := Rounds3(s, w, d);
    s := Rounds4(s, w, d);
    LastRoles(s, d, w);
    r := Sum(d, Regs(s.E, s.T, s.A, s.B, s.C));
  }

  /** Rounds i to hi of the generic form. */
  method GenericGroup(r0: Regs, w: seq<Word>, n: nat, lo: nat, hi: nat, ghost d: Regs) returns (r: Regs)
    requires |w| == 80 && lo <= hi <= 80 && (forall i :: lo <= i < hi ==> Group(i) == n) && r0 == Rounds(d, w, lo)
    ensures r == Rounds(d, w, hi)
  {
    hide Mix;
    r := r0;
    for i := lo to hi
      invariant r == Rounds(d, w, i)
    {
      var t := Mix(n, r.a, r.b, r.c, r.d, r.e, w[i]);
      r := Regs(t, r.a, Turn(r.b), r.c, r.d);
    }
  }

  method GenericForm(d: Regs, w: seq<Word>) returns (r: Regs)
    requires |w| == 80
    ensures r == Sum(d, Rounds(d, w, 80))
  {
    hide Round;
    r := GenericGroup(d, w, 1, 0, 20, d);
    r := GenericGroup(r, w, 2, 20, 40, d);
    r := GenericGroup(r, w, 3, 40, 60, d);
    r := GenericGroup(r, w, 4, 60, 80, d);
    r := Sum(d, r);
  }

  // ---------------------------------------------------------------- bytes to words

  function BigEndian(b0: bv8, b1: bv8, b2: bv8, b3: bv8): Word {
    (b0 as bv32 << 24) | (b1 as bv32 << 16) | (b2 as bv32 << 8) | (b3 as bv32)
  }

  /** The word a little-endian machine reads at an address; of a longer read only these bits matter. */
  function Fetch(b0: bv8, b1: bv8, b2: bv8, b3: bv8): Word {
    (b0 as bv32) | (b1 as bv32 << 8) | (b2 as bv32 << 16) | (b3 as bv32 << 24)
  }

  function Swap(t: Word): Word {
    ((t << 24) & 0xff000000) | ((t << 8) & 0x00ff0000) | ((t >> 8) & 0x0000ff00) | ((t >> 24) & 0x000000ff)
  }

  lemma SwapFetched(b0: bv8, b1: bv8, b2: bv8, b3: bv8)
    ensures Swap(Fetch(b0, b1, b2, b3)) == BigEndian(b0, b1, b2, b3)
  {
  }

  // ---------------------------------------------------------------- what the parts are

  /** The constants are 2^30 times the square roots of 2, 3, 5 and 10, rounded down. */
  lemma ConstSquares()
    ensures var c := Const(1) as int; c * c <= 2 * 0x1000_0000_0000_0000 < (c + 1) * (c + 1)
    ensures var c := Const(2) as int; c * c <= 3 * 0x1000_0000_0000_0000 < (c + 1) * (c + 1)
    ensures var c := Const(3) as int; c * c <= 5 * 0x1000_0000_0000_0000 < (c + 1) * (c + 1)
    ensures var c := Const(4) as int; c * c <= 10 * 0x1000_0000_0000_0000 < (c + 1) * (c + 1)
  {
  }

  lemma ChoiceBits(x: Word, y: Word, z: Word, m: Word)
    ensures x & m == m ==> Logic(1, x, y, z) & m == y & m
    ensures x & m == 0 ==> Logic(1, x, y, z) & m == z & m
  {
  }

  lemma ParityBits1(x: Word, y: Word, z: Word, m: Word)
    requires x & m == y & m
    ensures Logic(2, x, y, z) & m == z & m
  {
  }

  lemma ParityBits2(x: Word, y: Word, z: Word, m: Word)
    requires x & m == z & m
    ensures Logic(2, x, y, z) & m == y & m
  {
  }

  lemma ParityBits3(x: Word, y: Word, z: Word, m: Word)
    requires y & m == z & m
    ensures Logic(2, x, y, z) & m == x & m
  {
  }

  lemma ParityTwice(x: Word, y: Word, z: Word)
    ensures Logic(4, x, y, z) == Logic(2, x, y, z)
  {
  }

  lemma MajorityBits1(x: Word, y: Word, z: Word, m: Word)
    requires x & m == y & m
    ensures Logic(3, x, y, z) & m == x & m
  {
  }

  lemma MajorityBits2(x: Word, y: Word, z: Word, m: Word)
    requires x & m == z & m
    ensures Logic(3, x, y, z) & m == x & m
  {
  }

  lemma MajorityBits3(x: Word, y: Word, z: Word, m: Word)
    requires y & m == z & m
    ensures Logic(3, x, y, z) & m == y & m
  {
  }

  /** Under every mask, and so bit by bit: the first function lets x choose between y and z; in the second
      and fourth the third word decides where two agree, which is parity; in the third the two that agree
      decide, which is majority. Of three bits some two agree. */
  lemma LogicBits(x: Word, y: Word, z: Word, m: Word)
    ensures x & m == m ==> Logic(1, x, y, z) & m == y & m
    ensures x & m == 0 ==> Logic(1, x, y, z) & m == z & m
    ensures x & m == y & m ==> Logic(2, x, y, z) & m == z & m
    ensures x & m == z & m ==> Logic(2, x, y, z) & m == y & m
    ensures y & m == z & m ==> Logic(2, x, y, z) & m == x & m
    ensures x & m == y & m ==> Logic(3, x, y, z) & m == x & m
    ensures x & m == z & m ==> Logic(3, x, y, z) & m == x & m
    ensures y & m == z & m ==> Logic(3, x, y, z) & m == y & m
    ensures Logic(4, x, y, z) == Logic(2, x, y, z)
  {
    hide Logic;
    ParityTwice(x, y, z);
    ChoiceBits(x, y, z, m);
    if x & m == y & m {
      ParityBits1(x, y, z, m);
      MajorityBits1(x, y, z, m);
    }
    if x & m == z & m {
      ParityBits2(x, y, z, m);
      MajorityBits2(x, y, z, m);
    }
    if y & m == z & m {
      ParityBits3(x, y, z, m);
      MajorityBits3(x, y, z, m);
    }
  }

  lemma Rotated1(x: Word)
    ensures ((x << 1) | (x >> 31)) as int == (x as int) % 0x8000_0000 * 2 + (x as int) / 0x8000_0000
  {
  }

  lemma Rotated2(x: Word)
    ensures ((x << 2) | (x >> 30)) as int == (x as int) % 0x4000_0000 * 4 + (x as int) / 0x4000_0000
  {
  }

  lemma Rotated5(x: Word)
    ensures ((x << 5) | (x >> 27)) as int == (x as int) % 0x800_0000 * 32 + (x as int) / 0x800_0000
  {
  }

  lemma RotBack(x: Word)
    ensures Rot(Rot(x, 30), 2) == x
  {
    assert Rot(x, 30) == (x << 30) | (x >> 2);
  }

  lemma Congruent(x: int, y: int, k: int)
    requires x == y + 0xffff_ffff * k
    ensures x % 0xffff_ffff == y % 0xffff_ffff
  {
  }

  lemma Rot1Multiplies(x: Word)
    ensures Rot(x, 1) as int % 0xffff_ffff == 2 * (x as int) % 0xffff_ffff
  {
    assert Rot(x, 1) == (x << 1) | (x >> 31);
    Rotated1(x);
    Congruent(Rot(x, 1) as int, 2 * (x as int), -((x as int) / 0x8000_0000));
  }

  lemma Rot5Multiplies(x: Word)
    ensures Rot(x, 5) as int % 0xffff_ffff == 32 * (x as int) % 0xffff_ffff
  {
    assert Rot(x, 5) == (x << 5) | (x >> 27);
    Rotated5(x);
    Congruent(Rot(x, 5) as int, 32 * (x as int), -((x as int) / 0x800_0000));
  }

  lemma Rot2Is(x: Word)
    ensures Rot(x, 2) as int == (x as int) % 0x4000_0000 * 4 + (x as int) / 0x4000_0000
  {
    assert Rot(x, 2) == (x << 2) | (x >> 30);
    Rotated2(x);
  }

  lemma TurnBack(x: Word)
    ensures Rot(Turn(x), 2) == x
  {
    hide Rot;
    RotBack(x);
  }

  lemma Rot1Back(x: Word)
    ensures Rot(Rot(x, 1), 31) == x
  {
    assert Rot(x, 1) == (x << 1) | (x >> 31);
  }

  /** A word of the schedule, turned back by one place, is the exclusive or of the four before it. */
  lemma NextWordBack(x3: Word, x8: Word, x14: Word, x16: Word)
    ensures Rot(NextWord(x3, x8, x14, x16), 31) == x3 ^ x8 ^ x14 ^ x16
  {
    hide Rot;
    Rot1Back(x3 ^ x8 ^ x14 ^ x16);
  }

  lemma TurnMultiplies(x: Word)
    ensures Turn(x) as int % 0xffff_ffff == 0x4000_0000 * (x as int) % 0xffff_ffff
  {
    hide Rot, Turn;
    var r := Turn(x);
    TurnBack(x);
    Rot2Is(r);
    var q := (r as int) / 0x4000_0000;
    Congruent(r as int, 0x4000_0000 * (x as int), 0x4000_0000 * q - (r as int));
  }

  /** The rotations by 1, 5 and 30 multiply by 2, 2^5 and 2^30 modulo 2^32 - 1. */
  lemma RotMultiplies(x: Word)
    ensures Rot(x, 1) as int % 0xffff_ffff == 2 * (x as int) % 0xffff_ffff
    ensures Rot(x, 5) as int % 0xffff_ffff == 32 * (x as int) % 0xffff_ffff
    ensures Turn(x) as int % 0xffff_ffff == 0x4000_0000 * (x as int) % 0xffff_ffff
  {
    hide Rot, Turn;
    Rot1Multiplies(x);
    Rot5Multiplies(x);
    TurnMultiplies(x);
  }
}
