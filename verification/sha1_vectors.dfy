/** Known digests of SHA-1 (appendix A of FIPS 180-2): every word of the schedule and every round of the
    message "abc", and of a message of 56 bytes that needs two blocks, is written out. */
module Sha1Vectors {
  import opened Common
  import opened HashBlocks
  import opened HashCounts
  import opened Sha1Rounds
  import opened Sha1Digest

  lemma {:induction false} SchedulePrefix(w: seq<Word>, n: nat, i: nat)
    requires |w| == 16 && 16 <= i <= n
    ensures Schedule(w, n)[..i] == Schedule(w, i)
  {
    hide NextWord;
    if n > i {
      SchedulePrefix(w, n - 1, i);
    }
  }

  lemma FirstWords(w: seq<Word>)
    requires |w| == 16
    ensures |Schedule(w, 80)| == 80 && forall i :: 0 <= i < 16 ==> Schedule(w, 80)[i] == w[i]
  {
    hide NextWord;
    SchedulePrefix(w, 80, 16);
  }

  lemma ScheduleStep(w: seq<Word>, i: nat)
    requires |w| == 16 && i >= 16
    ensures var p := Schedule(w, i); Schedule(w, i + 1) == p + [NextWord(p[i - 3], p[i - 8], p[i - 14], p[i - 16])]
  {
    hide NextWord;
  }

  /** One word of the schedule from the four it depends on. */
  lemma Next(w: seq<Word>, s: seq<Word>, i: nat, x3: Word, x8: Word, x14: Word, x16: Word, y: Word)
    requires |w| == 16 && s == Schedule(w, 80) && 16 <= i < 80
    requires s[i - 3] == x3 && s[i - 8] == x8 && s[i - 14] == x14 && s[i - 16] == x16
    requires NextWord(x3, x8, x14, x16) == y
    ensures s[i] == y
  {
    hide NextWord, Schedule;
    SchedulePrefix(w, 80, i);
    SchedulePrefix(w, 80, i + 1);
    ScheduleStep(w, i);
    assert s[i] == s[..i + 1][i];
    assert forall k :: 0 <= k < i ==> s[k] == s[..i][k];
  }

  lemma NoRounds(r: Regs, s: seq<Word>)
    ensures Rounds(r, s, 0) == r
  {
  }

  /** One round. */
  lemma Go(r: Regs, s: seq<Word>, i: nat, n: nat,
           a: Word, b: Word, c: Word, d: Word, e: Word, x: Word, t: Word, u: Word)
    requires i < |s| && Rounds(r, s, i) == Regs(a, b, c, d, e) && s[i] == x && n == 1 + i / 20
    requires Mix(n, a, b, c, d, e, x) == t && Turn(b) == u
    ensures Rounds(r, s, i + 1) == Regs(t, a, u, c, d)
  {
    hide Mix, Turn;
  }

  /** One word of a block. */
  lemma Loads(b: seq<Byte>, i: nat, b0: Byte, b1: Byte, b2: Byte, b3: Byte, x: Word)
    requires |b| == 64 && i < 16
    requires b[4 * i] == b0 && b[4 * i + 1] == b1 && b[4 * i + 2] == b2 && b[4 * i + 3] == b3
    requires BigEndian(Bits(b0), Bits(b1), Bits(b2), Bits(b3)) == x
    ensures |Load(b)| == 16 && Load(b)[i] == x
  {
    hide BigEndian, Bits;
  }

  lemma ZeroWord()
    ensures BigEndian(Bits(0), Bits(0), Bits(0), Bits(0)) == 0
  {
  }

  /** The words of a run of zero bytes. */
  lemma LoadsZeros(b: seq<Byte>, lo: nat, hi: nat)
    requires |b| == 64 && lo <= hi <= 16 && forall k :: 4 * lo <= k < 4 * hi ==> b[k] == 0
    ensures |Load(b)| == 16 && forall i :: lo <= i < hi ==> Load(b)[i] == 0
  {
    hide BigEndian, Bits;
    ZeroWord();
  }

  // ---------------------------------------------------------------- abc

  const Abc: Regs := Regs(0x67452301, 0xefcdab89, 0x98badcfe, 0x10325476, 0xc3d2e1f0)

  /** The sixteen words of the block. */
  ghost predicate AbcLoaded(w: seq<Word>) {
    && |w| == 16
    && w[0] == 0x61626380 && w[1] == 0x00000000 && w[2] == 0x00000000 && w[3] == 0x00000000
    && w[4] == 0x00000000 && w[5] == 0x00000000 && w[6] == 0x00000000 && w[7] == 0x00000000
    && w[8] == 0x00000000 && w[9] == 0x00000000 && w[10] == 0x00000000 && w[11] == 0x00000000
    && w[12] == 0x00000000 && w[13] == 0x00000000 && w[14] == 0x00000000 && w[15] == 0x00000018
  }

  ghost predicate AbcWords1(s: seq<Word>) {
    && |s| == 80
    && s[0] == 0x61626380 && s[1] == 0x00000000 && s[2] == 0x00000000 && s[3] == 0x00000000
    && s[4] == 0x00000000 && s[5] == 0x00000000 && s[6] == 0x00000000 && s[7] == 0x00000000
    && s[8] == 0x00000000 && s[9] == 0x00000000 && s[10] == 0x00000000 && s[11] == 0x00000000
    && s[12] == 0x00000000 && s[13] == 0x00000000 && s[14] == 0x00000000 && s[15] == 0x00000018
    && s[16] == 0xc2c4c700 && s[17] == 0x00000000 && s[18] == 0x00000030 && s[19] == 0x85898e01
  }

  ghost predicate AbcWords2(s: seq<Word>) {
    && |s| == 80
    && s[20] == 0x00000000 && s[21] == 0x00000060 && s[22] == 0x0b131c03 && s[23] == 0x00000030
    && s[24] == 0x85898ec1 && s[25] == 0x16263806 && s[26] == 0x00000000 && s[27] == 0x00000180
    && s[28] == 0x2c4c700c && s[29] == 0x000000f0 && s[30] == 0x93afb507 && s[31] == 0x5898e048
    && s[32] == 0x8e9a9202 && s[33] == 0x00000600 && s[34] == 0xb131c0f0 && s[35] == 0x16263bc6
    && s[36] == 0x4ebed41e && s[37] == 0x626380a1 && s[38] == 0x16263806 && s[39] == 0x000018c0
  }

  ghost predicate AbcWords3(s: seq<Word>) {
    && |s| == 80
    && s[40] == 0xd2e138c4 && s[41] == 0x00000f00 && s[42] == 0x3afb5079 && s[43] == 0x898e04e5
    && s[44] == 0xe2ba3c2b && s[45] == 0x000060c0 && s[46] == 0x053a37cd && s[47] == 0x74458547
    && s[48] == 0xda9415ed && s[49] == 0x26380a16 && s[50] == 0x626383a1 && s[51] == 0x4ebf54de
    && s[52] == 0x3835b44b && s[53] == 0x0000f600 && s[54] == 0x1e84c7a3 && s[55] == 0x98e04d98
    && s[56] == 0x651d16a0 && s[57] == 0x62658ca1 && s[58] == 0x458544d6 && s[59] == 0x44584cb7
  }

  ghost predicate AbcWords4(s: seq<Word>) {
    && |s| == 80
    && s[60] == 0x7ba06619 && s[61] == 0x6380aea2 && s[62] == 0x0ae55269 && s[63] == 0x627b49a1
    && s[64] == 0x7cd45c9d && s[65] == 0x000f0000 && s[66] == 0xfb50753a && s[67] == 0xec6765e8
    && s[68] == 0xba3c2be2 && s[69] == 0x0060c000 && s[70] == 0x3a37cd05 && s[71] == 0x458546f4
    && s[72] == 0xb8599dd6 && s[73] == 0x380a1a26 && s[74] == 0x01e02203 && s[75] == 0xe7cc3456
    && s[76] == 0xe6e60b69 && s[77] == 0x00f60a00 && s[78] == 0x5795ef4f && s[79] == 0x822e0879
  }

  lemma AbcSchedule1(w: seq<Word>, s: seq<Word>)
    requires |w| == 16 && s == Schedule(w, 80) && AbcLoaded(w)
    ensures AbcWords1(s)
  {
    hide Schedule;
    FirstWords(w);
    Next(w, s, 16, 0x00000000, 0x00000000, 0x00000000, 0x61626380, 0xc2c4c700);
    Next(w, s, 17, 0x00000000, 0x00000000, 0x00000000, 0x00000000, 0x00000000);
    Next(w, s, 18, 0x00000018, 0x00000000, 0x00000000, 0x00000000, 0x00000030);
    Next(w, s, 19, 0xc2c4c700, 0x00000000, 0x00000000, 0x00000000, 0x85898e01);
  }

  lemma AbcSchedule2(w: seq<Word>, s: seq<Word>)
    requires |w| == 16 && s == Schedule(w, 80) && AbcWords1(s)
    ensures AbcWords2(s)
  {
    hide Schedule;
    Next(w, s, 20, 0x00000000, 0x00000000, 0x00000000, 0x00000000, 0x00000000);
    Next(w, s, 21, 0x00000030, 0x00000000, 0x00000000, 0x00000000, 0x00000060);
    Next(w, s, 22, 0x85898e01, 0x00000000, 0x00000000, 0x00000000, 0x0b131c03);
    Next(w, s, 23, 0x00000000, 0x00000018, 0x00000000, 0x00000000, 0x00000030);
    Next(w, s, 24, 0x00000060, 0xc2c4c700, 0x00000000, 0x00000000, 0x85898ec1);
    Next(w, s, 25, 0x0b131c03, 0x00000000, 0x00000000, 0x00000000, 0x16263806);
    Next(w, s, 26, 0x00000030, 0x00000030, 0x00000000, 0x00000000, 0x00000000);
    Next(w, s, 27, 0x85898ec1, 0x85898e01, 0x00000000, 0x00000000, 0x00000180);
    Next(w, s, 28, 0x16263806, 0x00000000, 0x00000000, 0x00000000, 0x2c4c700c);
    Next(w, s, 29, 0x00000000, 0x00000060, 0x00000018, 0x00000000, 0x000000f0);
    Next(w, s, 30, 0x00000180, 0x0b131c03, 0xc2c4c700, 0x00000000, 0x93afb507);
    Next(w, s, 31, 0x2c4c700c, 0x00000030, 0x00000000, 0x00000018, 0x5898e048);
    Next(w, s, 32, 0x000000f0, 0x85898ec1, 0x00000030, 0xc2c4c700, 0x8e9a9202);
    Next(w, s, 33, 0x93afb507, 0x16263806, 0x85898e01, 0x00000000, 0x00000600);
    Next(w, s, 34, 0x5898e048, 0x00000000, 0x00000000, 0x00000030, 0xb131c0f0);
    Next(w, s, 35, 0x8e9a9202, 0x00000180, 0x00000060, 0x85898e01, 0x16263bc6);
    Next(w, s, 36, 0x00000600, 0x2c4c700c, 0x0b131c03, 0x00000000, 0x4ebed41e);
    Next(w, s, 37, 0xb131c0f0, 0x000000f0, 0x00000030, 0x00000060, 0x626380a1);
    Next(w, s, 38, 0x16263bc6, 0x93afb507, 0x85898ec1, 0x0b131c03, 0x16263806);
    Next(w, s, 39, 0x4ebed41e, 0x5898e048, 0x16263806, 0x00000030, 0x000018c0);
  }

  lemma AbcSchedule3(w: seq<Word>, s: seq<Word>)
    requires |w| == 16 && s == Schedule(w, 80) && AbcWords2(s)
    ensures AbcWords3(s)
  {
    hide Schedule;
    Next(w, s, 40, 0x626380a1, 0x8e9a9202, 0x00000000, 0x85898ec1, 0xd2e138c4);
    Next(w, s, 41, 0x16263806, 0x00000600, 0x00000180, 0x16263806, 0x00000f00);
    Next(w, s, 42, 0x000018c0, 0xb131c0f0, 0x2c4c700c, 0x00000000, 0x3afb5079);
    Next(w, s, 43, 0xd2e138c4, 0x16263bc6, 0x000000f0, 0x00000180, 0x898e04e5);
    Next(w, s, 44, 0x00000f00, 0x4ebed41e, 0x93afb507, 0x2c4c700c, 0xe2ba3c2b);
    Next(w, s, 45, 0x3afb5079, 0x626380a1, 0x5898e048, 0x000000f0, 0x000060c0);
    Next(w, s, 46, 0x898e04e5, 0x16263806, 0x8e9a9202, 0x93afb507, 0x053a37cd);
    Next(w, s, 47, 0xe2ba3c2b, 0x000018c0, 0x00000600, 0x5898e048, 0x74458547);
    Next(w, s, 48, 0x000060c0, 0xd2e138c4, 0xb131c0f0, 0x8e9a9202, 0xda9415ed);
    Next(w, s, 49, 0x053a37cd, 0x00000f00, 0x16263bc6, 0x00000600, 0x26380a16);
    Next(w, s, 50, 0x74458547, 0x3afb5079, 0x4ebed41e, 0xb131c0f0, 0x626383a1);
    Next(w, s, 51, 0xda9415ed, 0x898e04e5, 0x626380a1, 0x16263bc6, 0x4ebf54de);
    Next(w, s, 52, 0x26380a16, 0xe2ba3c2b, 0x16263806, 0x4ebed41e, 0x3835b44b);
    Next(w, s, 53, 0x626383a1, 0x000060c0, 0x000018c0, 0x626380a1, 0x0000f600);
    Next(w, s, 54, 0x4ebf54de, 0x053a37cd, 0xd2e138c4, 0x16263806, 0x1e84c7a3);
    Next(w, s, 55, 0x3835b44b, 0x74458547, 0x00000f00, 0x000018c0, 0x98e04d98);
    Next(w, s, 56, 0x0000f600, 0xda9415ed, 0x3afb5079, 0xd2e138c4, 0x651d16a0);
    Next(w, s, 57, 0x1e84c7a3, 0x26380a16, 0x898e04e5, 0x00000f00, 0x62658ca1);
    Next(w, s, 58, 0x98e04d98, 0x626383a1, 0xe2ba3c2b, 0x3afb5079, 0x458544d6);
    Next(w, s, 59, 0x651d16a0, 0x4ebf54de, 0x000060c0, 0x898e04e5, 0x44584cb7);
  }

  lemma AbcSchedule4(w: seq<Word>, s: seq<Word>)
    requires |w| == 16 && s == Schedule(w, 80) && AbcWords3(s)
    ensures AbcWords4(s)
  {
    hide Schedule;
    Next(w, s, 60, 0x62658ca1, 0x3835b44b, 0x053a37cd, 0xe2ba3c2b, 0x7ba06619);
    Next(w, s, 61, 0x458544d6, 0x0000f600, 0x74458547, 0x000060c0, 0x6380aea2);
    Next(w, s, 62, 0x44584cb7, 0x1e84c7a3, 0xda9415ed, 0x053a37cd, 0x0ae55269);
    Next(w, s, 63, 0x7ba06619, 0x98e04d98, 0x26380a16, 0x74458547, 0x627b49a1);
    Next(w, s, 64, 0x6380aea2, 0x651d16a0, 0x626383a1, 0xda9415ed, 0x7cd45c9d);
    Next(w, s, 65, 0x0ae55269, 0x62658ca1, 0x4ebf54de, 0x26380a16, 0x000f0000);
    Next(w, s, 66, 0x627b49a1, 0x458544d6, 0x3835b44b, 0x626383a1, 0xfb50753a);
    Next(w, s, 67, 0x7cd45c9d, 0x44584cb7, 0x0000f600, 0x4ebf54de, 0xec6765e8);
    Next(w, s, 68, 0x000f0000, 0x7ba06619, 0x1e84c7a3, 0x3835b44b, 0xba3c2be2);
    Next(w, s, 69, 0xfb50753a, 0x6380aea2, 0x98e04d98, 0x0000f600, 0x0060c000);
    Next(w, s, 70, 0xec6765e8, 0x0ae55269, 0x651d16a0, 0x1e84c7a3, 0x3a37cd05);
    Next(w, s, 71, 0xba3c2be2, 0x627b49a1, 0x62658ca1, 0x98e04d98, 0x458546f4);
    Next(w, s, 72, 0x0060c000, 0x7cd45c9d, 0x458544d6, 0x651d16a0, 0xb8599dd6);
    Next(w, s, 73, 0x3a37cd05, 0x000f0000, 0x44584cb7, 0x62658ca1, 0x380a1a26);
    Next(w, s, 74, 0x458546f4, 0xfb50753a, 0x7ba06619, 0x458544d6, 0x01e02203);
    Next(w, s, 75, 0xb8599dd6, 0xec6765e8, 0x6380aea2, 0x44584cb7, 0xe7cc3456);
    Next(w, s, 76, 0x380a1a26, 0xba3c2be2, 0x0ae55269, 0x7ba06619, 0xe6e60b69);
    Next(w, s, 77, 0x01e02203, 0x0060c000, 0x627b49a1, 0x6380aea2, 0x00f60a00);
    Next(w, s, 78, 0xe7cc3456, 0x3a37cd05, 0x7cd45c9d, 0x0ae55269, 0x5795ef4f);
    Next(w, s, 79, 0xe6e60b69, 0x458546f4, 0x000f0000, 0x627b49a1, 0x822e0879);
  }

  lemma AbcRounds1(s: seq<Word>)
    requires AbcWords1(s)
    ensures Rounds(Abc, s, 20) == Regs(0xfd9e1d7d, 0xdc64901d, 0x20aa99ca, 0xd3a49608, 0xc82f758b)
  {
    hide Rounds;
    NoRounds(Abc, s);
    Go(Abc, s, 0, 1, 0x67452301, 0xefcdab89, 0x98badcfe, 0x10325476, 0xc3d2e1f0, 0x61626380, 0x0116fc33, 0x7bf36ae2);
    Go(Abc, s, 1, 1, 0x0116fc33, 0x67452301, 0x7bf36ae2, 0x98badcfe, 0x10325476, 0x00000000, 0x8990536d, 0x59d148c0);
    Go(Abc, s, 2, 1, 0x8990536d, 0x0116fc33, 0x59d148c0, 0x7bf36ae2, 0x98badcfe, 0x00000000, 0xa1390f08, 0xc045bf0c);
    Go(Abc, s, 3, 1, 0xa1390f08, 0x8990536d, 0xc045bf0c, 0x59d148c0, 0x7bf36ae2, 0x00000000, 0xcdd8e11b, 0x626414db);
    Go(Abc, s, 4, 1, 0xcdd8e11b, 0xa1390f08, 0x626414db, 0xc045bf0c, 0x59d148c0, 0x00000000, 0xcfd499de, 0x284e43c2);
    Go(Abc, s, 5, 1, 0xcfd499de, 0xcdd8e11b, 0x284e43c2, 0x626414db, 0xc045bf0c, 0x00000000, 0x3fc7ca40, 0xf3763846);
    Go(Abc, s, 6, 1, 0x3fc7ca40, 0xcfd499de, 0xf3763846, 0x284e43c2, 0x626414db, 0x00000000, 0x993e30c1, 0xb3f52677);
    Go(Abc, s, 7, 1, 0x993e30c1, 0x3fc7ca40, 0xb3f52677, 0xf3763846, 0x284e43c2, 0x00000000, 0x9e8c07d4, 0x0ff1f290);
    Go(Abc, s, 8, 1, 0x9e8c07d4, 0x993e30c1, 0x0ff1f290, 0xb3f52677, 0xf3763846, 0x00000000, 0x4b6ae328, 0x664f8c30);
    Go(Abc, s, 9, 1, 0x4b6ae328, 0x9e8c07d4, 0x664f8c30, 0x0ff1f290, 0xb3f52677, 0x00000000, 0x8351f929, 0x27a301f5);
    Go(Abc, s, 10, 1, 0x8351f929, 0x4b6ae328, 0x27a301f5, 0x664f8c30, 0x0ff1f290, 0x00000000, 0xfbda9e89, 0x12dab8ca);
    Go(Abc, s, 11, 1, 0xfbda9e89, 0x8351f929, 0x12dab8ca, 0x27a301f5, 0x664f8c30, 0x00000000, 0x63188fe4, 0x60d47e4a);
    Go(Abc, s, 12, 1, 0x63188fe4, 0xfbda9e89, 0x60d47e4a, 0x12dab8ca, 0x27a301f5, 0x00000000, 0x4607b664, 0x7ef6a7a2);
    Go(Abc, s, 13, 1, 0x4607b664, 0x63188fe4, 0x7ef6a7a2, 0x60d47e4a, 0x12dab8ca, 0x00000000, 0x9128f695, 0x18c623f9);
    Go(Abc, s, 14, 1, 0x9128f695, 0x4607b664, 0x18c623f9, 0x7ef6a7a2, 0x60d47e4a, 0x00000000, 0x196bee77, 0x1181ed99);
    Go(Abc, s, 15, 1, 0x196bee77, 0x9128f695, 0x1181ed99, 0x18c623f9, 0x7ef6a7a2, 0x00000018, 0x20bdd62f, 0x644a3da5);
    Go(Abc, s, 16, 1, 0x20bdd62f, 0x196bee77, 0x644a3da5, 0x1181ed99, 0x18c623f9, 0xc2c4c700, 0x4e925823, 0xc65afb9d);
    Go(Abc, s, 17, 1, 0x4e925823, 0x20bdd62f, 0xc65afb9d, 0x644a3da5, 0x1181ed99, 0x00000000, 0x82aa6728, 0xc82f758b);
    Go(Abc, s, 18, 1, 0x82aa6728, 0x4e925823, 0xc82f758b, 0xc65afb9d, 0x644a3da5, 0x00000030, 0xdc64901d, 0xd3a49608);
    Go(Abc, s, 19, 1, 0xdc64901d, 0x82aa6728, 0xd3a49608, 0xc82f758b, 0xc65afb9d, 0x85898e01, 0xfd9e1d7d, 0x20aa99ca);
  }

  lemma AbcRounds2(s: seq<Word>)
    requires AbcWords2(s) && Rounds(Abc, s, 20) == Regs(0xfd9e1d7d, 0xdc64901d, 0x20aa99ca, 0xd3a49608, 0xc82f758b)
    ensures Rounds(Abc, s, 40) == Regs(0x32de1cba, 0x4c986405, 0xf718e5cf, 0x03d447f6, 0xf72eec32)
  {
    hide Rounds;
    Go(Abc, s, 20, 2, 0xfd9e1d7d, 0xdc64901d, 0x20aa99ca, 0xd3a49608, 0xc82f758b, 0x00000000, 0x1a37b0ca, 0x77192407);
    Go(Abc, s, 21, 2, 0x1a37b0ca, 0xfd9e1d7d, 0x77192407, 0x20aa99ca, 0xd3a49608, 0x00000060, 0x33a23bfc, 0x7f67875f);
    Go(Abc, s, 22, 2, 0x33a23bfc, 0x1a37b0ca, 0x7f67875f, 0x77192407, 0x20aa99ca, 0x0b131c03, 0x21283486, 0x868dec32);
    Go(Abc, s, 23, 2, 0x21283486, 0x33a23bfc, 0x868dec32, 0x7f67875f, 0x77192407, 0x00000030, 0xd541f12d, 0x0ce88eff);
    Go(Abc, s, 24, 2, 0xd541f12d, 0x21283486, 0x0ce88eff, 0x868dec32, 0x7f67875f, 0x85898ec1, 0xc7567dc6, 0x884a0d21);
    Go(Abc, s, 25, 2, 0xc7567dc6, 0xd541f12d, 0x884a0d21, 0x0ce88eff, 0x868dec32, 0x16263806, 0x48413ba4, 0x75507c4b);
    Go(Abc, s, 26, 2, 0x48413ba4, 0xc7567dc6, 0x75507c4b, 0x884a0d21, 0x0ce88eff, 0x00000000, 0xbe35fbd5, 0xb1d59f71);
    Go(Abc, s, 27, 2, 0xbe35fbd5, 0x48413ba4, 0xb1d59f71, 0x75507c4b, 0x884a0d21, 0x00000180, 0x4aa84d97, 0x12104ee9);
    Go(Abc, s, 28, 2, 0x4aa84d97, 0xbe35fbd5, 0x12104ee9, 0xb1d59f71, 0x75507c4b, 0x2c4c700c, 0x8370b52e, 0x6f8d7ef5);
    Go(Abc, s, 29, 2, 0x8370b52e, 0x4aa84d97, 0x6f8d7ef5, 0x12104ee9, 0xb1d59f71, 0x000000f0, 0xc5fbaf5d, 0xd2aa1365);
    Go(Abc, s, 30, 2, 0xc5fbaf5d, 0x8370b52e, 0xd2aa1365, 0x6f8d7ef5, 0x12104ee9, 0x93afb507, 0x1267b407, 0xa0dc2d4b);
    Go(Abc, s, 31, 2, 0x1267b407, 0xc5fbaf5d, 0xa0dc2d4b, 0xd2aa1365, 0x6f8d7ef5, 0x5898e048, 0x3b845d33, 0x717eebd7);
    Go(Abc, s, 32, 2, 0x3b845d33, 0x1267b407, 0x717eebd7, 0xa0dc2d4b, 0xd2aa1365, 0x8e9a9202, 0x046faa0a, 0xc499ed01);
    Go(Abc, s, 33, 2, 0x046faa0a, 0x3b845d33, 0xc499ed01, 0x717eebd7, 0xa0dc2d4b, 0x00000600, 0x2c0ebc11, 0xcee1174c);
    Go(Abc, s, 34, 2, 0x2c0ebc11, 0x046faa0a, 0xcee1174c, 0xc499ed01, 0x717eebd7, 0xb131c0f0, 0x21796ad4, 0x811bea82);
    Go(Abc, s, 35, 2, 0x21796ad4, 0x2c0ebc11, 0x811bea82, 0xcee1174c, 0xc499ed01, 0x16263bc6, 0xdcbbb0cb, 0x4b03af04);
    Go(Abc, s, 36, 2, 0xdcbbb0cb, 0x21796ad4, 0x4b03af04, 0x811bea82, 0xcee1174c, 0x4ebed41e, 0x0f511fd8, 0x085e5ab5);
    Go(Abc, s, 37, 2, 0x0f511fd8, 0xdcbbb0cb, 0x085e5ab5, 0x4b03af04, 0x811bea82, 0x626380a1, 0xdc63973f, 0xf72eec32);
    Go(Abc, s, 38, 2, 0xdc63973f, 0x0f511fd8, 0xf72eec32, 0x085e5ab5, 0x4b03af04, 0x16263806, 0x4c986405, 0x03d447f6);
    Go(Abc, s, 39, 2, 0x4c986405, 0xdc63973f, 0x03d447f6, 0xf72eec32, 0x085e5ab5, 0x000018c0, 0x32de1cba, 0xf718e5cf);
  }

  lemma AbcRounds3(s: seq<Word>)
    requires AbcWords3(s) && Rounds(Abc, s, 40) == Regs(0x32de1cba, 0x4c986405, 0xf718e5cf, 0x03d447f6, 0xf72eec32)
    ensures Rounds(Abc, s, 60) == Regs(0x3f52de5a, 0x09d785fd, 0x3498bfd4, 0xf211824f, 0xd79915ab)
  {
    hide Rounds;
    Go(Abc, s, 40, 3, 0x32de1cba, 0x4c986405, 0xf718e5cf, 0x03d447f6, 0xf72eec32, 0xd2e138c4, 0xfc87dedf, 0x53261901);
    Go(Abc, s, 41, 3, 0xfc87dedf, 0x32de1cba, 0x53261901, 0xf718e5cf, 0x03d447f6, 0x00000f00, 0x970a0d5c, 0x8cb7872e);
    Go(Abc, s, 42, 3, 0x970a0d5c, 0xfc87dedf, 0x8cb7872e, 0x53261901, 0xf718e5cf, 0x3afb5079, 0x7f193dc5, 0xff21f7b7);
    Go(Abc, s, 43, 3, 0x7f193dc5, 0x970a0d5c, 0xff21f7b7, 0x8cb7872e, 0x53261901, 0x898e04e5, 0xee1b1aaf, 0x25c28357);
    Go(Abc, s, 44, 3, 0xee1b1aaf, 0x7f193dc5, 0x25c28357, 0xff21f7b7, 0x8cb7872e, 0xe2ba3c2b, 0x40f28e09, 0x5fc64f71);
    Go(Abc, s, 45, 3, 0x40f28e09, 0xee1b1aaf, 0x5fc64f71, 0x25c28357, 0xff21f7b7, 0x000060c0, 0x1c51e1f2, 0xfb86c6ab);
    Go(Abc, s, 46, 3, 0x1c51e1f2, 0x40f28e09, 0xfb86c6ab, 0x5fc64f71, 0x25c28357, 0x053a37cd, 0xa01b846c, 0x503ca382);
    Go(Abc, s, 47, 3, 0xa01b846c, 0x1c51e1f2, 0x503ca382, 0xfb86c6ab, 0x5fc64f71, 0x74458547, 0xbead02ca, 0x8714787c);
    Go(Abc, s, 48, 3, 0xbead02ca, 0xa01b846c, 0x8714787c, 0x503ca382, 0xfb86c6ab, 0xda9415ed, 0xbaf39337, 0x2806e11b);
    Go(Abc, s, 49, 3, 0xbaf39337, 0xbead02ca, 0x2806e11b, 0x8714787c, 0x503ca382, 0x26380a16, 0x120731c5, 0xafab40b2);
    Go(Abc, s, 50, 3, 0x120731c5, 0xbaf39337, 0xafab40b2, 0x2806e11b, 0x8714787c, 0x626383a1, 0x641db2ce, 0xeebce4cd);
    Go(Abc, s, 51, 3, 0x641db2ce, 0x120731c5, 0xeebce4cd, 0xafab40b2, 0x2806e11b, 0x4ebf54de, 0x3847ad66, 0x4481cc71);
    Go(Abc, s, 52, 3, 0x3847ad66, 0x641db2ce, 0x4481cc71, 0xeebce4cd, 0xafab40b2, 0x3835b44b, 0xe490436d, 0x99076cb3);
    Go(Abc, s, 53, 3, 0xe490436d, 0x3847ad66, 0x99076cb3, 0x4481cc71, 0xeebce4cd, 0x0000f600, 0x27e9f1d8, 0x8e11eb59);
    Go(Abc, s, 54, 3, 0x27e9f1d8, 0xe490436d, 0x8e11eb59, 0x99076cb3, 0x4481cc71, 0x1e84c7a3, 0x7b71f76d, 0x792410db);
    Go(Abc, s, 55, 3, 0x7b71f76d, 0x27e9f1d8, 0x792410db, 0x8e11eb59, 0x99076cb3, 0x98e04d98, 0x5e6456af, 0x09fa7c76);
    Go(Abc, s, 56, 3, 0x5e6456af, 0x7b71f76d, 0x09fa7c76, 0x792410db, 0x8e11eb59, 0x651d16a0, 0xc846093f, 0x5edc7ddb);
    Go(Abc, s, 57, 3, 0xc846093f, 0x5e6456af, 0x5edc7ddb, 0x09fa7c76, 0x792410db, 0x62658ca1, 0xd262ff50, 0xd79915ab);
    Go(Abc, s, 58, 3, 0xd262ff50, 0xc846093f, 0xd79915ab, 0x5edc7ddb, 0x09fa7c76, 0x458544d6, 0x09d785fd, 0xf211824f);
    Go(Abc, s, 59, 3, 0x09d785fd, 0xd262ff50, 0xf211824f, 0xd79915ab, 0x5edc7ddb, 0x44584cb7, 0x3f52de5a, 0x3498bfd4);
  }

  lemma AbcRounds4(s: seq<Word>)
    requires AbcWords4(s) && Rounds(Abc, s, 60) == Regs(0x3f52de5a, 0x09d785fd, 0x3498bfd4, 0xf211824f, 0xd79915ab)
    ensures Rounds(Abc, s, 80) == Regs(0x42541b35, 0x5738d5e1, 0x21834873, 0x681e6df6, 0xd8fdf6ad)
  {
    hide Rounds;
    Go(Abc, s, 60, 4, 0x3f52de5a, 0x09d785fd, 0x3498bfd4, 0xf211824f, 0xd79915ab, 0x7ba06619, 0xd756c147, 0x4275e17f);
    Go(Abc, s, 61, 4, 0xd756c147, 0x3f52de5a, 0x4275e17f, 0x3498bfd4, 0xf211824f, 0x6380aea2, 0x548c9cb2, 0x8fd4b796);
    Go(Abc, s, 62, 4, 0x548c9cb2, 0xd756c147, 0x8fd4b796, 0x4275e17f, 0x3498bfd4, 0x0ae55269, 0xb66c020b, 0xf5d5b051);
    Go(Abc, s, 63, 4, 0xb66c020b, 0x548c9cb2, 0xf5d5b051, 0x8fd4b796, 0x4275e17f, 0x627b49a1, 0x6b61c9e1, 0x9523272c);
    Go(Abc, s, 64, 4, 0x6b61c9e1, 0xb66c020b, 0x9523272c, 0xf5d5b051, 0x8fd4b796, 0x7cd45c9d, 0x19dfa7ac, 0xed9b0082);
    Go(Abc, s, 65, 4, 0x19dfa7ac, 0x6b61c9e1, 0xed9b0082, 0x9523272c, 0xf5d5b051, 0x000f0000, 0x101655f9, 0x5ad87278);
    Go(Abc, s, 66, 4, 0x101655f9, 0x19dfa7ac, 0x5ad87278, 0xed9b0082, 0x9523272c, 0xfb50753a, 0x0c3df2b4, 0x0677e9eb);
    Go(Abc, s, 67, 4, 0x0c3df2b4, 0x101655f9, 0x0677e9eb, 0x5ad87278, 0xed9b0082, 0xec6765e8, 0x78dd4d2b, 0x4405957e);
    Go(Abc, s, 68, 4, 0x78dd4d2b, 0x0c3df2b4, 0x4405957e, 0x0677e9eb, 0x5ad87278, 0xba3c2be2, 0x497093c0, 0x030f7cad);
    Go(Abc, s, 69, 4, 0x497093c0, 0x78dd4d2b, 0x030f7cad, 0x4405957e, 0x0677e9eb, 0x0060c000, 0x3f2588c2, 0xde37534a);
    Go(Abc, s, 70, 4, 0x3f2588c2, 0x497093c0, 0xde37534a, 0x030f7cad, 0x4405957e, 0x3a37cd05, 0xc199f8c7, 0x125c24f0);
    Go(Abc, s, 71, 4, 0xc199f8c7, 0x3f2588c2, 0x125c24f0, 0xde37534a, 0x030f7cad, 0x458546f4, 0x39859de7, 0x8fc96230);
    Go(Abc, s, 72, 4, 0x39859de7, 0xc199f8c7, 0x8fc96230, 0x125c24f0, 0xde37534a, 0xb8599dd6, 0xedb42de4, 0xf0667e31);
    Go(Abc, s, 73, 4, 0xedb42de4, 0x39859de7, 0xf0667e31, 0x8fc96230, 0x125c24f0, 0x380a1a26, 0x11793f6f, 0xce616779);
    Go(Abc, s, 74, 4, 0x11793f6f, 0xedb42de4, 0xce616779, 0xf0667e31, 0x8fc96230, 0x01e02203, 0x5ee76897, 0x3b6d0b79);
    Go(Abc, s, 75, 4, 0x5ee76897, 0x11793f6f, 0x3b6d0b79, 0xce616779, 0xf0667e31, 0xe7cc3456, 0x63f7dab7, 0xc45e4fdb);
    Go(Abc, s, 76, 4, 0x63f7dab7, 0x5ee76897, 0xc45e4fdb, 0x3b6d0b79, 0xce616779, 0xe6e60b69, 0xa079b7d9, 0xd7b9da25);
    Go(Abc, s, 77, 4, 0xa079b7d9, 0x63f7dab7, 0xd7b9da25, 0xc45e4fdb, 0x3b6d0b79, 0x00f60a00, 0x860d21cc, 0xd8fdf6ad);
    Go(Abc, s, 78, 4, 0x860d21cc, 0xa079b7d9, 0xd8fdf6ad, 0xd7b9da25, 0xc45e4fdb, 0x5795ef4f, 0x5738d5e1, 0x681e6df6);
    Go(Abc, s, 79, 4, 0x5738d5e1, 0x860d21cc, 0x681e6df6, 0xd8fdf6ad, 0xd7b9da25, 0x822e0879, 0x42541b35, 0x21834873);
  }

  lemma AbcBlock(b: seq<Byte>)
    requires |b| == 64 && AbcLoaded(Load(b))
    ensures Block(Abc, b) == Regs(0xa9993e36, 0x4706816a, 0xba3e2571, 0x7850c26c, 0x9cd0d89d)
  {
    hide Schedule, Rounds, AbcLoaded, AbcWords1, AbcWords2, AbcWords3, AbcWords4;
    var w := Load(b);
    var s := Schedule(w, 80);
    AbcSchedule1(w, s);
    AbcSchedule2(w, s);
    AbcSchedule3(w, s);
    AbcSchedule4(w, s);
    AbcRounds1(s);
    AbcRounds2(s);
    AbcRounds3(s);
    AbcRounds4(s);
  }

  // ---------------------------------------------------------------- first block of two

  const One: Regs := Regs(0x67452301, 0xefcdab89, 0x98badcfe, 0x10325476, 0xc3d2e1f0)

  /** The sixteen words of the block. */
  ghost predicate OneLoaded(w: seq<Word>) {
    && |w| == 16
    && w[0] == 0x61626364 && w[1] == 0x62636465 && w[2] == 0x63646566 && w[3] == 0x64656667
    && w[4] == 0x65666768 && w[5] == 0x66676869 && w[6] == 0x6768696a && w[7] == 0x68696a6b
    && w[8] == 0x696a6b6c && w[9] == 0x6a6b6c6d && w[10] == 0x6b6c6d6e && w[11] == 0x6c6d6e6f
    && w[12] == 0x6d6e6f70 && w[13] == 0x6e6f7071 && w[14] == 0x80000000 && w[15] == 0x00000000
  }

  ghost predicate OneWords1(s: seq<Word>) {
    && |s| == 80
    && s[0] == 0x61626364 && s[1] == 0x62636465 && s[2] == 0x63646566 && s[3] == 0x64656667
    && s[4] == 0x65666768 && s[5] == 0x66676869 && s[6] == 0x6768696a && s[7] == 0x68696a6b
    && s[8] == 0x696a6b6c && s[9] == 0x6a6b6c6d && s[10] == 0x6b6c6d6e && s[11] == 0x6c6d6e6f
    && s[12] == 0x6d6e6f70 && s[13] == 0x6e6f7071 && s[14] == 0x80000000 && s[15] == 0x00000000
    && s[16] == 0x0a063a3e && s[17] == 0xd8dadcdf && s[18] == 0xdadcdec0 && s[19] == 0xc8d2b4be
  }

  ghost predicate OneWords2(s: seq<Word>) {
    && |s| == 80
    && s[20] == 0x6f757b5b && s[21] == 0x757b5967 && s[22] == 0x8da16d70 && s[23] == 0xdaeefaba
    && s[24] == 0xfaf6cab6 && s[25] == 0xa6fb675a && s[26] == 0x0c604cc8 && s[27] == 0x604cc02c
    && s[28] == 0x49c0e6e2 && s[29] == 0x2ee8cbbc && s[30] == 0xcfd72ec4 && s[31] == 0x97e9810e
    && s[32] == 0x0989cbe8 && s[33] == 0xf24843fe && s[34] == 0x5c40d0ba && s[35] == 0xa8d9cc3b
    && s[36] == 0xb2b9666e && s[37] == 0xba7b71b7 && s[38] == 0x20b28a72 && s[39] == 0xb28af500
  }

  ghost predicate OneWords3(s: seq<Word>) {
    && |s| == 80
    && s[40] == 0x8ac87842 && s[41] == 0x289addf4 && s[42] == 0x56d51f21 && s[43] == 0xd96b7fd2
    && s[44] == 0x3868e778 && s[45] == 0xab5e4848 && s[46] == 0x7f0e2118 && s[47] == 0xde87a111
    && s[48] == 0xe8be56b0 && s[49] == 0x1a0ae652 && s[50] == 0xcd5611c8 && s[51] == 0x46ef29dc
    && s[52] == 0x60d3da6d && s[53] == 0xddf3ba6e && s[54] == 0x2737f5e9 && s[55] == 0x4888a710
    && s[56] == 0xd2a1177b && s[57] == 0x9999633b && s[58] == 0xd6c69d03 && s[59] == 0xccf6127b
  }

  ghost predicate OneWords4(s: seq<Word>) {
    && |s| == 80
    && s[60] == 0x7c58fe6d && s[61] == 0xfdd99c68 && s[62] == 0xf8e32074 && s[63] == 0xe0ba3c7d
    && s[64] == 0x152198d6 && s[65] == 0x7b3f1982 && s[66] == 0x37f2d5b7 && s[67] == 0x8596323e
    && s[68] == 0x810790d6 && s[69] == 0xbea0a942 && s[70] == 0x11c7e1b1 && s[71] == 0x6158d101
    && s[72] == 0x5fcd77d9 && s[73] == 0x7f2f12e6 && s[74] == 0xf868cfb1 && s[75] == 0xd6e997e9
    && s[76] == 0xf526b852 && s[77] == 0xb7578dcc && s[78] == 0x55d99df4 && s[79] == 0x1ff69958
  }

  lemma OneSchedule1(w: seq<Word>, s: seq<Word>)
    requires |w| == 16 && s == Schedule(w, 80) && OneLoaded(w)
    ensures OneWords1(s)
  {
    hide Schedule;
    FirstWords(w);
    Next(w, s, 16, 0x6e6f7071, 0x696a6b6c, 0x63646566, 0x61626364, 0x0a063a3e);
    Next(w, s, 17, 0x80000000, 0x6a6b6c6d, 0x64656667, 0x62636465, 0xd8dadcdf);
    Next(w, s, 18, 0x00000000, 0x6b6c6d6e, 0x65666768, 0x63646566, 0xdadcdec0);
    Next(w, s, 19, 0x0a063a3e, 0x6c6d6e6f, 0x66676869, 0x64656667, 0xc8d2b4be);
  }

  lemma OneSchedule2(w: seq<Word>, s: seq<Word>)
    requires |w| == 16 && s == Schedule(w, 80) && OneWords1(s)
    ensures OneWords2(s)
  {
    hide Schedule;
    Next(w, s, 20, 0xd8dadcdf, 0x6d6e6f70, 0x6768696a, 0x65666768, 0x6f757b5b);
    Next(w, s, 21, 0xdadcdec0, 0x6e6f7071, 0x68696a6b, 0x66676869, 0x757b5967);
    Next(w, s, 22, 0xc8d2b4be, 0x80000000, 0x696a6b6c, 0x6768696a, 0x8da16d70);
    Next(w, s, 23, 0x6f757b5b, 0x00000000, 0x6a6b6c6d, 0x68696a6b, 0xdaeefaba);
    Next(w, s, 24, 0x757b5967, 0x0a063a3e, 0x6b6c6d6e, 0x696a6b6c, 0xfaf6cab6);
    Next(w, s, 25, 0x8da16d70, 0xd8dadcdf, 0x6c6d6e6f, 0x6a6b6c6d, 0xa6fb675a);
    Next(w, s, 26, 0xdaeefaba, 0xdadcdec0, 0x6d6e6f70, 0x6b6c6d6e, 0x0c604cc8);
    Next(w, s, 27, 0xfaf6cab6, 0xc8d2b4be, 0x6e6f7071, 0x6c6d6e6f, 0x604cc02c);
    Next(w, s, 28, 0xa6fb675a, 0x6f757b5b, 0x80000000, 0x6d6e6f70, 0x49c0e6e2);
    Next(w, s, 29, 0x0c604cc8, 0x757b5967, 0x00000000, 0x6e6f7071, 0x2ee8cbbc);
    Next(w, s, 30, 0x604cc02c, 0x8da16d70, 0x0a063a3e, 0x80000000, 0xcfd72ec4);
    Next(w, s, 31, 0x49c0e6e2, 0xdaeefaba, 0xd8dadcdf, 0x00000000, 0x97e9810e);
    Next(w, s, 32, 0x2ee8cbbc, 0xfaf6cab6, 0xdadcdec0, 0x0a063a3e, 0x0989cbe8);
    Next(w, s, 33, 0xcfd72ec4, 0xa6fb675a, 0xc8d2b4be, 0xd8dadcdf, 0xf24843fe);
    Next(w, s, 34, 0x97e9810e, 0x0c604cc8, 0x6f757b5b, 0xdadcdec0, 0x5c40d0ba);
    Next(w, s, 35, 0x0989cbe8, 0x604cc02c, 0x757b5967, 0xc8d2b4be, 0xa8d9cc3b);
    Next(w, s, 36, 0xf24843fe, 0x49c0e6e2, 0x8da16d70, 0x6f757b5b, 0xb2b9666e);
    Next(w, s, 37, 0x5c40d0ba, 0x2ee8cbbc, 0xdaeefaba, 0x757b5967, 0xba7b71b7);
    Next(w, s, 38, 0xa8d9cc3b, 0xcfd72ec4, 0xfaf6cab6, 0x8da16d70, 0x20b28a72);
    Next(w, s, 39, 0xb2b9666e, 0x97e9810e, 0xa6fb675a, 0xdaeefaba, 0xb28af500);
  }

  lemma OneSchedule3(w: seq<Word>, s: seq<Word>)
    requires |w| == 16 && s == Schedule(w, 80) && OneWords2(s)
    ensures OneWords3(s)
  {
    hide Schedule;
    Next(w, s, 40, 0xba7b71b7, 0x0989cbe8, 0x0c604cc8, 0xfaf6cab6, 0x8ac87842);
    Next(w, s, 41, 0x20b28a72, 0xf24843fe, 0x604cc02c, 0xa6fb675a, 0x289addf4);
    Next(w, s, 42, 0xb28af500, 0x5c40d0ba, 0x49c0e6e2, 0x0c604cc8, 0x56d51f21);
    Next(w, s, 43, 0x8ac87842, 0xa8d9cc3b, 0x2ee8cbbc, 0x604cc02c, 0xd96b7fd2);
    Next(w, s, 44, 0x289addf4, 0xb2b9666e, 0xcfd72ec4, 0x49c0e6e2, 0x3868e778);
    Next(w, s, 45, 0x56d51f21, 0xba7b71b7, 0x97e9810e, 0x2ee8cbbc, 0xab5e4848);
    Next(w, s, 46, 0xd96b7fd2, 0x20b28a72, 0x0989cbe8, 0xcfd72ec4, 0x7f0e2118);
    Next(w, s, 47, 0x3868e778, 0xb28af500, 0xf24843fe, 0x97e9810e, 0xde87a111);
    Next(w, s, 48, 0xab5e4848, 0x8ac87842, 0x5c40d0ba, 0x0989cbe8, 0xe8be56b0);
    Next(w, s, 49, 0x7f0e2118, 0x289addf4, 0xa8d9cc3b, 0xf24843fe, 0x1a0ae652);
    Next(w, s, 50, 0xde87a111, 0x56d51f21, 0xb2b9666e, 0x5c40d0ba, 0xcd5611c8);
    Next(w, s, 51, 0xe8be56b0, 0xd96b7fd2, 0xba7b71b7, 0xa8d9cc3b, 0x46ef29dc);
    Next(w, s, 52, 0x1a0ae652, 0x3868e778, 0x20b28a72, 0xb2b9666e, 0x60d3da6d);
    Next(w, s, 53, 0xcd5611c8, 0xab5e4848, 0xb28af500, 0xba7b71b7, 0xddf3ba6e);
    Next(w, s, 54, 0x46ef29dc, 0x7f0e2118, 0x8ac87842, 0x20b28a72, 0x2737f5e9);
    Next(w, s, 55, 0x60d3da6d, 0xde87a111, 0x289addf4, 0xb28af500, 0x4888a710);
    Next(w, s, 56, 0xddf3ba6e, 0xe8be56b0, 0x56d51f21, 0x8ac87842, 0xd2a1177b);
    Next(w, s, 57, 0x2737f5e9, 0x1a0ae652, 0xd96b7fd2, 0x289addf4, 0x9999633b);
    Next(w, s, 58, 0x4888a710, 0xcd5611c8, 0x3868e778, 0x56d51f21, 0xd6c69d03);
    Next(w, s, 59, 0xd2a1177b, 0x46ef29dc, 0xab5e4848, 0xd96b7fd2, 0xccf6127b);
  }

  lemma OneSchedule4(w: seq<Word>, s: seq<Word>)
    requires |w| == 16 && s == Schedule(w, 80) && OneWords3(s)
    ensures OneWords4(s)
  {
    hide Schedule;
    Next(w, s, 60, 0x9999633b, 0x60d3da6d, 0x7f0e2118, 0x3868e778, 0x7c58fe6d);
    Next(w, s, 61, 0xd6c69d03, 0xddf3ba6e, 0xde87a111, 0xab5e4848, 0xfdd99c68);
    Next(w, s, 62, 0xccf6127b, 0x2737f5e9, 0xe8be56b0, 0x7f0e2118, 0xf8e32074);
    Next(w, s, 63, 0x7c58fe6d, 0x4888a710, 0x1a0ae652, 0xde87a111, 0xe0ba3c7d);
    Next(w, s, 64, 0xfdd99c68, 0xd2a1177b, 0xcd5611c8, 0xe8be56b0, 0x152198d6);
    Next(w, s, 65, 0xf8e32074, 0x9999633b, 0x46ef29dc, 0x1a0ae652, 0x7b3f1982);
    Next(w, s, 66, 0xe0ba3c7d, 0xd6c69d03, 0x60d3da6d, 0xcd5611c8, 0x37f2d5b7);
    Next(w, s, 67, 0x152198d6, 0xccf6127b, 0xddf3ba6e, 0x46ef29dc, 0x8596323e);
    Next(w, s, 68, 0x7b3f1982, 0x7c58fe6d, 0x2737f5e9, 0x60d3da6d, 0x810790d6);
    Next(w, s, 69, 0x37f2d5b7, 0xfdd99c68, 0x4888a710, 0xddf3ba6e, 0xbea0a942);
    Next(w, s, 70, 0x8596323e, 0xf8e32074, 0xd2a1177b, 0x2737f5e9, 0x11c7e1b1);
    Next(w, s, 71, 0x810790d6, 0xe0ba3c7d, 0x9999633b, 0x4888a710, 0x6158d101);
    Next(w, s, 72, 0xbea0a942, 0x152198d6, 0xd6c69d03, 0xd2a1177b, 0x5fcd77d9);
    Next(w, s, 73, 0x11c7e1b1, 0x7b3f1982, 0xccf6127b, 0x9999633b, 0x7f2f12e6);
    Next(w, s, 74, 0x6158d101, 0x37f2d5b7, 0x7c58fe6d, 0xd6c69d03, 0xf868cfb1);
    Next(w, s, 75, 0x5fcd77d9, 0x8596323e, 0xfdd99c68, 0xccf6127b, 0xd6e997e9);
    Next(w, s, 76, 0x7f2f12e6, 0x810790d6, 0xf8e32074, 0x7c58fe6d, 0xf526b852);
    Next(w, s, 77, 0xf868cfb1, 0xbea0a942, 0xe0ba3c7d, 0xfdd99c68, 0xb7578dcc);
    Next(w, s, 78, 0xd6e997e9, 0x11c7e1b1, 0x152198d6, 0xf8e32074, 0x55d99df4);
    Next(w, s, 79, 0xf526b852, 0x6158d101, 0x7b3f1982, 0xe0ba3c7d, 0x1ff69958);
  }

  lemma OneRounds1(s: seq<Word>)
    requires OneWords1(s)
    ensures Rounds(One, s, 20) == Regs(0x6c445652, 0x944b1bd1, 0x509ae70d, 0x1ac1a012, 0x5098df8e)
  {
    hide Rounds;
    NoRounds(One, s);
    Go(One, s, 0, 1, 0x67452301, 0xefcdab89, 0x98badcfe, 0x10325476, 0xc3d2e1f0, 0x61626364, 0x0116fc17, 0x7bf36ae2);
    Go(One, s, 1, 1, 0x0116fc17, 0x67452301, 0x7bf36ae2, 0x98badcfe, 0x10325476, 0x62636465, 0xebf3b452, 0x59d148c0);
    Go(One, s, 2, 1, 0xebf3b452, 0x0116fc17, 0x59d148c0, 0x7bf36ae2, 0x98badcfe, 0x63646566, 0x5109913a, 0xc045bf05);
    Go(One, s, 3, 1, 0x5109913a, 0xebf3b452, 0xc045bf05, 0x59d148c0, 0x7bf36ae2, 0x64656667, 0x2c4f6eac, 0xbafced14);
    Go(One, s, 4, 1, 0x2c4f6eac, 0x5109913a, 0xbafced14, 0xc045bf05, 0x59d148c0, 0x65666768, 0x33f4ae5b, 0x9442644e);
    Go(One, s, 5, 1, 0x33f4ae5b, 0x2c4f6eac, 0x9442644e, 0xbafced14, 0xc045bf05, 0x66676869, 0x96b85189, 0x0b13dbab);
    Go(One, s, 6, 1, 0x96b85189, 0x33f4ae5b, 0x0b13dbab, 0x9442644e, 0xbafced14, 0x6768696a, 0xdb04cb58, 0xccfd2b96);
    Go(One, s, 7, 1, 0xdb04cb58, 0x96b85189, 0xccfd2b96, 0x0b13dbab, 0x9442644e, 0x68696a6b, 0x45833f0f, 0x65ae1462);
    Go(One, s, 8, 1, 0x45833f0f, 0xdb04cb58, 0x65ae1462, 0xccfd2b96, 0x0b13dbab, 0x696a6b6c, 0xc565c35e, 0x36c132d6);
    Go(One, s, 9, 1, 0xc565c35e, 0x45833f0f, 0x36c132d6, 0x65ae1462, 0xccfd2b96, 0x6a6b6c6d, 0x6350afda, 0xd160cfc3);
    Go(One, s, 10, 1, 0x6350afda, 0xc565c35e, 0xd160cfc3, 0x36c132d6, 0x65ae1462, 0x6b6c6d6e, 0x8993ea77, 0xb15970d7);
    Go(One, s, 11, 1, 0x8993ea77, 0x6350afda, 0xb15970d7, 0xd160cfc3, 0x36c132d6, 0x6c6d6e6f, 0xe19ecaa2, 0x98d42bf6);
    Go(One, s, 12, 1, 0xe19ecaa2, 0x8993ea77, 0x98d42bf6, 0xb15970d7, 0xd160cfc3, 0x6d6e6f70, 0x8603481e, 0xe264fa9d);
    Go(One, s, 13, 1, 0x8603481e, 0xe19ecaa2, 0xe264fa9d, 0x98d42bf6, 0xb15970d7, 0x6e6f7071, 0x32f94a85, 0xb867b2a8);
    Go(One, s, 14, 1, 0x32f94a85, 0x8603481e, 0xb867b2a8, 0xe264fa9d, 0x98d42bf6, 0x80000000, 0xb2e7a8be, 0xa180d207);
    Go(One, s, 15, 1, 0xb2e7a8be, 0x32f94a85, 0xa180d207, 0xb867b2a8, 0xe264fa9d, 0x00000000, 0x42637e39, 0x4cbe52a1);
    Go(One, s, 16, 1, 0x42637e39, 0xb2e7a8be, 0x4cbe52a1, 0xa180d207, 0xb867b2a8, 0x0a063a3e, 0x6b068048, 0xacb9ea2f);
    Go(One, s, 17, 1, 0x6b068048, 0x42637e39, 0xacb9ea2f, 0x4cbe52a1, 0xa180d207, 0xd8dadcdf, 0x426b9c35, 0x5098df8e);
    Go(One, s, 18, 1, 0x426b9c35, 0x6b068048, 0x5098df8e, 0xacb9ea2f, 0x4cbe52a1, 0xdadcdec0, 0x944b1bd1, 0x1ac1a012);
    Go(One, s, 19, 1, 0x944b1bd1, 0x426b9c35, 0x1ac1a012, 0x5098df8e, 0xacb9ea2f, 0xc8d2b4be, 0x6c445652, 0x509ae70d);
  }

  lemma OneRounds2(s: seq<Word>)
    requires OneWords2(s) && Rounds(One, s, 20) == Regs(0x6c445652, 0x944b1bd1, 0x509ae70d, 0x1ac1a012, 0x5098df8e)
    ensures Rounds(One, s, 40) == Regs(0xadeb7478, 0x24957f22, 0x50fe1eba, 0x564cff26, 0xaadf0cbb)
  {
    hide Rounds;
    Go(One, s, 20, 2, 0x6c445652, 0x944b1bd1, 0x509ae70d, 0x1ac1a012, 0x5098df8e, 0x6f757b5b, 0x95836da5, 0x6512c6f4);
    Go(One, s, 21, 2, 0x95836da5, 0x6c445652, 0x6512c6f4, 0x509ae70d, 0x1ac1a012, 0x757b5967, 0x09511177, 0x9b111594);
    Go(One, s, 22, 2, 0x09511177, 0x95836da5, 0x9b111594, 0x6512c6f4, 0x509ae70d, 0x8da16d70, 0xe2b92dc4, 0x6560db69);
    Go(One, s, 23, 2, 0xe2b92dc4, 0x09511177, 0x6560db69, 0x9b111594, 0x6512c6f4, 0xdaeefaba, 0xfd224575, 0xc254445d);
    Go(One, s, 24, 2, 0xfd224575, 0xe2b92dc4, 0xc254445d, 0x6560db69, 0x9b111594, 0xfaf6cab6, 0xeeb82d9a, 0x38ae4b71);
    Go(One, s, 25, 2, 0xeeb82d9a, 0xfd224575, 0x38ae4b71, 0xc254445d, 0x6560db69, 0xa6fb675a, 0x5a142c1a, 0x7f48915d);
    Go(One, s, 26, 2, 0x5a142c1a, 0xeeb82d9a, 0x7f48915d, 0x38ae4b71, 0xc254445d, 0x0c604cc8, 0x2972f7c7, 0xbbae0b66);
    Go(One, s, 27, 2, 0x2972f7c7, 0x5a142c1a, 0xbbae0b66, 0x7f48915d, 0x38ae4b71, 0x604cc02c, 0xd526a644, 0x96850b06);
    Go(One, s, 28, 2, 0xd526a644, 0x2972f7c7, 0x96850b06, 0xbbae0b66, 0x7f48915d, 0x49c0e6e2, 0xe1122421, 0xca5cbdf1);
    Go(One, s, 29, 2, 0xe1122421, 0xd526a644, 0xca5cbdf1, 0x96850b06, 0xbbae0b66, 0x2ee8cbbc, 0x05b457b2, 0x3549a991);
    Go(One, s, 30, 2, 0x05b457b2, 0xe1122421, 0x3549a991, 0xca5cbdf1, 0x96850b06, 0xcfd72ec4, 0xa9c84bec, 0x78448908);
    Go(One, s, 31, 2, 0xa9c84bec, 0x05b457b2, 0x78448908, 0x3549a991, 0xca5cbdf1, 0x97e9810e, 0x52e31f60, 0x816d15ec);
    Go(One, s, 32, 2, 0x52e31f60, 0xa9c84bec, 0x816d15ec, 0x78448908, 0x3549a991, 0x0989cbe8, 0x5af3242c, 0x2a7212fb);
    Go(One, s, 33, 2, 0x5af3242c, 0x52e31f60, 0x2a7212fb, 0x816d15ec, 0x78448908, 0xf24843fe, 0x31c756a9, 0x14b8c7d8);
    Go(One, s, 34, 2, 0x31c756a9, 0x5af3242c, 0x14b8c7d8, 0x2a7212fb, 0x816d15ec, 0x5c40d0ba, 0xe9ac987c, 0x16bcc90b);
    Go(One, s, 35, 2, 0xe9ac987c, 0x31c756a9, 0x16bcc90b, 0x14b8c7d8, 0x2a7212fb, 0xa8d9cc3b, 0xab7c32ee, 0x4c71d5aa);
    Go(One, s, 36, 2, 0xab7c32ee, 0xe9ac987c, 0x4c71d5aa, 0x16bcc90b, 0x14b8c7d8, 0xb2b9666e, 0x5933fc99, 0x3a6b261f);
    Go(One, s, 37, 2, 0x5933fc99, 0xab7c32ee, 0x3a6b261f, 0x4c71d5aa, 0x16bcc90b, 0xba7b71b7, 0x43f87ae9, 0xaadf0cbb);
    Go(One, s, 38, 2, 0x43f87ae9, 0x5933fc99, 0xaadf0cbb, 0x3a6b261f, 0x4c71d5aa, 0x20b28a72, 0x24957f22, 0x564cff26);
    Go(One, s, 39, 2, 0x24957f22, 0x43f87ae9, 0x564cff26, 0xaadf0cbb, 0x3a6b261f, 0xb28af500, 0xadeb7478, 0x50fe1eba);
  }

  lemma OneRounds3(s: seq<Word>)
    requires OneWords3(s) && Rounds(One, s, 40) == Regs(0xadeb7478, 0x24957f22, 0x50fe1eba, 0x564cff26, 0xaadf0cbb)
    ensures Rounds(One, s, 60) == Regs(0x9ef775c3, 0xf03d3782, 0xeb029e53, 0xe9a06dc8, 0x1ddb0e44)
  {
    hide Rounds;
    Go(One, s, 40, 3, 0xadeb7478, 0x24957f22, 0x50fe1eba, 0x564cff26, 0xaadf0cbb, 0x8ac87842, 0xd70e5010, 0x89255fc8);
    Go(One, s, 41, 3, 0xd70e5010, 0xadeb7478, 0x89255fc8, 0x50fe1eba, 0x564cff26, 0x289addf4, 0x79bcfb08, 0x2b7add1e);
    Go(One, s, 42, 3, 0x79bcfb08, 0xd70e5010, 0x2b7add1e, 0x89255fc8, 0x50fe1eba, 0x56d51f21, 0xf9bcb8de, 0x35c39404);
    Go(One, s, 43, 3, 0xf9bcb8de, 0x79bcfb08, 0x35c39404, 0x2b7add1e, 0x89255fc8, 0xd96b7fd2, 0x633e9561, 0x1e6f3ec2);
    Go(One, s, 44, 3, 0x633e9561, 0xf9bcb8de, 0x1e6f3ec2, 0x35c39404, 0x2b7add1e, 0x3868e778, 0x98c1ea64, 0xbe6f2e37);
    Go(One, s, 45, 3, 0x98c1ea64, 0x633e9561, 0xbe6f2e37, 0x1e6f3ec2, 0x35c39404, 0xab5e4848, 0xc6ea241e, 0x58cfa558);
    Go(One, s, 46, 3, 0xc6ea241e, 0x98c1ea64, 0x58cfa558, 0xbe6f2e37, 0x1e6f3ec2, 0x7f0e2118, 0xa2ad4f02, 0x26307a99);
    Go(One, s, 47, 3, 0xa2ad4f02, 0xc6ea241e, 0x26307a99, 0x58cfa558, 0xbe6f2e37, 0xde87a111, 0xc8a69090, 0xb1ba8907);
    Go(One, s, 48, 3, 0xc8a69090, 0xa2ad4f02, 0xb1ba8907, 0x26307a99, 0x58cfa558, 0xe8be56b0, 0x88341600, 0xa8ab53c0);
    Go(One, s, 49, 3, 0x88341600, 0xc8a69090, 0xa8ab53c0, 0xb1ba8907, 0x26307a99, 0x1a0ae652, 0x7e846f58, 0x3229a424);
    Go(One, s, 50, 3, 0x7e846f58, 0x88341600, 0x3229a424, 0xa8ab53c0, 0xb1ba8907, 0xcd5611c8, 0x86e358ba, 0x220d0580);
    Go(One, s, 51, 3, 0x86e358ba, 0x7e846f58, 0x220d0580, 0x3229a424, 0xa8ab53c0, 0x46ef29dc, 0x8d2e76c8, 0x1fa11bd6);
    Go(One, s, 52, 3, 0x8d2e76c8, 0x86e358ba, 0x1fa11bd6, 0x220d0580, 0x3229a424, 0x60d3da6d, 0xce892e10, 0xa1b8d62e);
    Go(One, s, 53, 3, 0xce892e10, 0x8d2e76c8, 0xa1b8d62e, 0x1fa11bd6, 0x220d0580, 0xddf3ba6e, 0xedea95b1, 0x234b9db2);
    Go(One, s, 54, 3, 0xedea95b1, 0xce892e10, 0x234b9db2, 0xa1b8d62e, 0x1fa11bd6, 0x2737f5e9, 0x36d1230a, 0x33a24b84);
    Go(One, s, 55, 3, 0x36d1230a, 0xedea95b1, 0x33a24b84, 0x234b9db2, 0xa1b8d62e, 0x4888a710, 0x776c3910, 0x7b7aa56c);
    Go(One, s, 56, 3, 0x776c3910, 0x36d1230a, 0x7b7aa56c, 0x33a24b84, 0x234b9db2, 0xd2a1177b, 0xa681b723, 0x8db448c2);
    Go(One, s, 57, 3, 0xa681b723, 0x776c3910, 0x8db448c2, 0x7b7aa56c, 0x33a24b84, 0x9999633b, 0xac0a794f, 0x1ddb0e44);
    Go(One, s, 58, 3, 0xac0a794f, 0xa681b723, 0x1ddb0e44, 0x8db448c2, 0x7b7aa56c, 0xd6c69d03, 0xf03d3782, 0xe9a06dc8);
    Go(One, s, 59, 3, 0xf03d3782, 0xac0a794f, 0xe9a06dc8, 0x1ddb0e44, 0x8db448c2, 0xccf6127b, 0x9ef775c3, 0xeb029e53);
  }

  lemma OneRounds4(s: seq<Word>)
    requires OneWords4(s) && Rounds(One, s, 60) == Regs(0x9ef775c3, 0xf03d3782, 0xeb029e53, 0xe9a06dc8, 0x1ddb0e44)
    ensures Rounds(One, s, 80) == Regs(0x8ce34517, 0xd3ad7c25, 0x6b4e1883, 0x74351cd2, 0x86838382)
  {
    hide Rounds;
    Go(One, s, 60, 4, 0x9ef775c3, 0xf03d3782, 0xeb029e53, 0xe9a06dc8, 0x1ddb0e44, 0x7c58fe6d, 0x36254b13, 0xbc0f4de0);
    Go(One, s, 61, 4, 0x36254b13, 0x9ef775c3, 0xbc0f4de0, 0xeb029e53, 0xe9a06dc8, 0xfdd99c68, 0x4080d4dc, 0xe7bddd70);
    Go(One, s, 62, 4, 0x4080d4dc, 0x36254b13, 0xe7bddd70, 0xbc0f4de0, 0xeb029e53, 0xf8e32074, 0x2bfaf7a8, 0xcd8952c4);
    Go(One, s, 63, 4, 0x2bfaf7a8, 0x4080d4dc, 0xcd8952c4, 0xe7bddd70, 0xbc0f4de0, 0xe0ba3c7d, 0x513f9ca0, 0x10203537);
    Go(One, s, 64, 4, 0x513f9ca0, 0x2bfaf7a8, 0x10203537, 0xcd8952c4, 0xe7bddd70, 0x152198d6, 0xe5895c81, 0x0afebdea);
    Go(One, s, 65, 4, 0xe5895c81, 0x513f9ca0, 0x0afebdea, 0x10203537, 0xcd8952c4, 0x7b3f1982, 0x1037d2d5, 0x144fe728);
    Go(One, s, 66, 4, 0x1037d2d5, 0xe5895c81, 0x144fe728, 0x0afebdea, 0x10203537, 0x37f2d5b7, 0x14a82da9, 0x79625720);
    Go(One, s, 67, 4, 0x14a82da9, 0x1037d2d5, 0x79625720, 0x144fe728, 0x0afebdea, 0x8596323e, 0x6d17c9fd, 0x440df4b5);
    Go(One, s, 68, 4, 0x6d17c9fd, 0x14a82da9, 0x440df4b5, 0x79625720, 0x144fe728, 0x810790d6, 0x2c7b07bd, 0x452a0b6a);
    Go(One, s, 69, 4, 0x2c7b07bd, 0x6d17c9fd, 0x452a0b6a, 0x440df4b5, 0x79625720, 0xbea0a942, 0xfdf6efff, 0x5b45f27f);
    Go(One, s, 70, 4, 0xfdf6efff, 0x2c7b07bd, 0x5b45f27f, 0x452a0b6a, 0x440df4b5, 0x11c7e1b1, 0x112b96e3, 0x4b1ec1ef);
    Go(One, s, 71, 4, 0x112b96e3, 0xfdf6efff, 0x4b1ec1ef, 0x5b45f27f, 0x452a0b6a, 0x6158d101, 0x84065712, 0xff7dbbff);
    Go(One, s, 72, 4, 0x84065712, 0x112b96e3, 0xff7dbbff, 0x4b1ec1ef, 0x5b45f27f, 0x5fcd77d9, 0xab89fb71, 0xc44ae5b8);
    Go(One, s, 73, 4, 0xab89fb71, 0x84065712, 0xc44ae5b8, 0xff7dbbff, 0x4b1ec1ef, 0x7f2f12e6, 0xc5210e35, 0xa10195c4);
    Go(One, s, 74, 4, 0xc5210e35, 0xab89fb71, 0xa10195c4, 0xc44ae5b8, 0xff7dbbff, 0xf868cfb1, 0x352d9f4b, 0x6ae27edc);
    Go(One, s, 75, 4, 0x352d9f4b, 0xc5210e35, 0x6ae27edc, 0xa10195c4, 0xc44ae5b8, 0xd6e997e9, 0x1a0e0e0a, 0x7148438d);
    Go(One, s, 76, 4, 0x1a0e0e0a, 0x352d9f4b, 0x7148438d, 0x6ae27edc, 0xa10195c4, 0xf526b852, 0xd0d47349, 0xcd4b67d2);
    Go(One, s, 77, 4, 0xd0d47349, 0x1a0e0e0a, 0xcd4b67d2, 0x7148438d, 0x6ae27edc, 0xb7578dcc, 0xad38620d, 0x86838382);
    Go(One, s, 78, 4, 0xad38620d, 0xd0d47349, 0x86838382, 0xcd4b67d2, 0x7148438d, 0x55d99df4, 0xd3ad7c25, 0x74351cd2);
    Go(One, s, 79, 4, 0xd3ad7c25, 0xad38620d, 0x74351cd2, 0x86838382, 0xcd4b67d2, 0x1ff69958, 0x8ce34517, 0x6b4e1883);
  }

  lemma OneBlock(b: seq<Byte>)
    requires |b| == 64 && OneLoaded(Load(b))
    ensures Block(One, b) == Regs(0xf4286818, 0xc37b27ae, 0x0408f581, 0x84677148, 0x4a566572)
  {
    hide Schedule, Rounds, OneLoaded, OneWords1, OneWords2, OneWords3, OneWords4;
    var w := Load(b);
    var s := Schedule(w, 80);
    OneSchedule1(w, s);
    OneSchedule2(w, s);
    OneSchedule3(w, s);
    OneSchedule4(w, s);
    OneRounds1(s);
    OneRounds2(s);
    OneRounds3(s);
    OneRounds4(s);
  }

  // ---------------------------------------------------------------- second block of two

  const Two: Regs := Regs(0xf4286818, 0xc37b27ae, 0x0408f581, 0x84677148, 0x4a566572)

  /** The sixteen words of the block. */
  ghost predicate TwoLoaded(w: seq<Word>) {
    && |w| == 16
    && w[0] == 0x00000000 && w[1] == 0x00000000 && w[2] == 0x00000000 && w[3] == 0x00000000
    && w[4] == 0x00000000 && w[5] == 0x00000000 && w[6] == 0x00000000 && w[7] == 0x00000000
    && w[8] == 0x00000000 && w[9] == 0x00000000 && w[10] == 0x00000000 && w[11] == 0x00000000
    && w[12] == 0x00000000 && w[13] == 0x00000000 && w[14] == 0x00000000 && w[15] == 0x000001c0
  }

  ghost predicate TwoWords1(s: seq<Word>) {
    && |s| == 80
    && s[0] == 0x00000000 && s[1] == 0x00000000 && s[2] == 0x00000000 && s[3] == 0x00000000
    && s[4] == 0x00000000 && s[5] == 0x00000000 && s[6] == 0x00000000 && s[7] == 0x00000000
    && s[8] == 0x00000000 && s[9] == 0x00000000 && s[10] == 0x00000000 && s[11] == 0x00000000
    && s[12] == 0x00000000 && s[13] == 0x00000000 && s[14] == 0x00000000 && s[15] == 0x000001c0
    && s[16] == 0x00000000 && s[17] == 0x00000000 && s[18] == 0x00000380 && s[19] == 0x00000000
  }

  ghost predicate TwoWords2(s: seq<Word>) {
    && |s| == 80
    && s[20] == 0x00000000 && s[21] == 0x00000700 && s[22] == 0x00000000 && s[23] == 0x00000380
    && s[24] == 0x00000e00 && s[25] == 0x00000000 && s[26] == 0x00000000 && s[27] == 0x00001c00
    && s[28] == 0x00000000 && s[29] == 0x00000d80 && s[30] == 0x00003800 && s[31] == 0x00000480
    && s[32] == 0x00000000 && s[33] == 0x00007000 && s[34] == 0x00000e00 && s[35] == 0x00003600
    && s[36] == 0x0000e000 && s[37] == 0x00000e00 && s[38] == 0x00000000 && s[39] == 0x0001ce00
  }

  ghost predicate TwoWords3(s: seq<Word>) {
    && |s| == 80
    && s[40] == 0x00000000 && s[41] == 0x0000d800 && s[42] == 0x00038000 && s[43] == 0x00004f00
    && s[44] == 0x00000000 && s[45] == 0x00070e00 && s[46] == 0x0000ee00 && s[47] == 0x00037500
    && s[48] == 0x000e0000 && s[49] == 0x0000e000 && s[50] == 0x00003600 && s[51] == 0x001cee00
    && s[52] == 0x00000000 && s[53] == 0x000df000 && s[54] == 0x00380000 && s[55] == 0x0004c600
    && s[56] == 0x0000e000 && s[57] == 0x0070ee00 && s[58] == 0x000ee000 && s[59] == 0x00369e00
  }

  ghost predicate TwoWords4(s: seq<Word>) {
    && |s| == 80
    && s[60] == 0x00e00000 && s[61] == 0x000ed600 && s[62] == 0x0000e000 && s[63] == 0x01cea600
    && s[64] == 0x00000000 && s[65] == 0x00d80000 && s[66] == 0x0380e000 && s[67] == 0x004f0000
    && s[68] == 0x00000000 && s[69] == 0x070e0000 && s[70] == 0x00ee0000 && s[71] == 0x03751c00
    && s[72] == 0x0e000000 && s[73] == 0x00e0e000 && s[74] == 0x00363800 && s[75] == 0x1cee9000
    && s[76] == 0x00000000 && s[77] == 0x0df09000 && s[78] == 0x3800e000 && s[79] == 0x04c77400
  }

  lemma TwoSchedule1(w: seq<Word>, s: seq<Word>)
    requires |w| == 16 && s == Schedule(w, 80) && TwoLoaded(w)
    ensures TwoWords1(s)
  {
    hide Schedule;
    FirstWords(w);
    Next(w, s, 16, 0x00000000, 0x00000000, 0x00000000, 0x00000000, 0x00000000);
    Next(w, s, 17, 0x00000000, 0x00000000, 0x00000000, 0x00000000, 0x00000000);
    Next(w, s, 18, 0x000001c0, 0x00000000, 0x00000000, 0x00000000, 0x00000380);
    Next(w, s, 19, 0x00000000, 0x00000000, 0x00000000, 0x00000000, 0x00000000);
  }

  lemma TwoSchedule2(w: seq<Word>, s: seq<Word>)
    requires |w| == 16 && s == Schedule(w, 80) && TwoWords1(s)
    ensures TwoWords2(s)
  {
    hide Schedule;
    Next(w, s, 20, 0x00000000, 0x00000000, 0x00000000, 0x00000000, 0x00000000);
    Next(w, s, 21, 0x00000380, 0x00000000, 0x00000000, 0x00000000, 0x00000700);
    Next(w, s, 22, 0x00000000, 0x00000000, 0x00000000, 0x00000000, 0x00000000);
    Next(w, s, 23, 0x00000000, 0x000001c0, 0x00000000, 0x00000000, 0x00000380);
    Next(w, s, 24, 0x00000700, 0x00000000, 0x00000000, 0x00000000, 0x00000e00);
    Next(w, s, 25, 0x00000000, 0x00000000, 0x00000000, 0x00000000, 0x00000000);
    Next(w, s, 26, 0x00000380, 0x00000380, 0x00000000, 0x00000000, 0x00000000);
    Next(w, s, 27, 0x00000e00, 0x00000000, 0x00000000, 0x00000000, 0x00001c00);
    Next(w, s, 28, 0x00000000, 0x00000000, 0x00000000, 0x00000000, 0x00000000);
    Next(w, s, 29, 0x00000000, 0x00000700, 0x000001c0, 0x00000000, 0x00000d80);
    Next(w, s, 30, 0x00001c00, 0x00000000, 0x00000000, 0x00000000, 0x00003800);
    Next(w, s, 31, 0x00000000, 0x00000380, 0x00000000, 0x000001c0, 0x00000480);
    Next(w, s, 32, 0x00000d80, 0x00000e00, 0x00000380, 0x00000000, 0x00000000);
    Next(w, s, 33, 0x00003800, 0x00000000, 0x00000000, 0x00000000, 0x00007000);
    Next(w, s, 34, 0x00000480, 0x00000000, 0x00000000, 0x00000380, 0x00000e00);
    Next(w, s, 35, 0x00000000, 0x00001c00, 0x00000700, 0x00000000, 0x00003600);
    Next(w, s, 36, 0x00007000, 0x00000000, 0x00000000, 0x00000000, 0x0000e000);
    Next(w, s, 37, 0x00000e00, 0x00000d80, 0x00000380, 0x00000700, 0x00000e00);
    Next(w, s, 38, 0x00003600, 0x00003800, 0x00000e00, 0x00000000, 0x00000000);
    Next(w, s, 39, 0x0000e000, 0x00000480, 0x00000000, 0x00000380, 0x0001ce00);
  }

  lemma TwoSchedule3(w: seq<Word>, s: seq<Word>)
    requires |w| == 16 && s == Schedule(w, 80) && TwoWords2(s)
    ensures TwoWords3(s)
  {
    hide Schedule;
    Next(w, s, 40, 0x00000e00, 0x00000000, 0x00000000, 0x00000e00, 0x00000000);
    Next(w, s, 41, 0x00000000, 0x00007000, 0x00001c00, 0x00000000, 0x0000d800);
    Next(w, s, 42, 0x0001ce00, 0x00000e00, 0x00000000, 0x00000000, 0x00038000);
    Next(w, s, 43, 0x00000000, 0x00003600, 0x00000d80, 0x00001c00, 0x00004f00);
    Next(w, s, 44, 0x0000d800, 0x0000e000, 0x00003800, 0x00000000, 0x00000000);
    Next(w, s, 45, 0x00038000, 0x00000e00, 0x00000480, 0x00000d80, 0x00070e00);
    Next(w, s, 46, 0x00004f00, 0x00000000, 0x00000000, 0x00003800, 0x0000ee00);
    Next(w, s, 47, 0x00000000, 0x0001ce00, 0x00007000, 0x00000480, 0x00037500);
    Next(w, s, 48, 0x00070e00, 0x00000000, 0x00000e00, 0x00000000, 0x000e0000);
    Next(w, s, 49, 0x0000ee00, 0x0000d800, 0x00003600, 0x00007000, 0x0000e000);
    Next(w, s, 50, 0x00037500, 0x00038000, 0x0000e000, 0x00000e00, 0x00003600);
    Next(w, s, 51, 0x000e0000, 0x00004f00, 0x00000e00, 0x00003600, 0x001cee00);
    Next(w, s, 52, 0x0000e000, 0x00000000, 0x00000000, 0x0000e000, 0x00000000);
    Next(w, s, 53, 0x00003600, 0x00070e00, 0x0001ce00, 0x00000e00, 0x000df000);
    Next(w, s, 54, 0x001cee00, 0x0000ee00, 0x00000000, 0x00000000, 0x00380000);
    Next(w, s, 55, 0x00000000, 0x00037500, 0x0000d800, 0x0001ce00, 0x0004c600);
    Next(w, s, 56, 0x000df000, 0x000e0000, 0x00038000, 0x00000000, 0x0000e000);
    Next(w, s, 57, 0x00380000, 0x0000e000, 0x00004f00, 0x0000d800, 0x0070ee00);
    Next(w, s, 58, 0x0004c600, 0x00003600, 0x00000000, 0x00038000, 0x000ee000);
    Next(w, s, 59, 0x0000e000, 0x001cee00, 0x00070e00, 0x00004f00, 0x00369e00);
  }

  lemma TwoSchedule4(w: seq<Word>, s: seq<Word>)
    requires |w| == 16 && s == Schedule(w, 80) && TwoWords3(s)
    ensures TwoWords4(s)
  {
    hide Schedule;
    Next(w, s, 60, 0x0070ee00, 0x00000000, 0x0000ee00, 0x00000000, 0x00e00000);
    Next(w, s, 61, 0x000ee000, 0x000df000, 0x00037500, 0x00070e00, 0x000ed600);
    Next(w, s, 62, 0x00369e00, 0x00380000, 0x000e0000, 0x0000ee00, 0x0000e000);
    Next(w, s, 63, 0x00e00000, 0x0004c600, 0x0000e000, 0x00037500, 0x01cea600);
    Next(w, s, 64, 0x000ed600, 0x0000e000, 0x00003600, 0x000e0000, 0x00000000);
    Next(w, s, 65, 0x0000e000, 0x0070ee00, 0x001cee00, 0x0000e000, 0x00d80000);
    Next(w, s, 66, 0x01cea600, 0x000ee000, 0x00000000, 0x00003600, 0x0380e000);
    Next(w, s, 67, 0x00000000, 0x00369e00, 0x000df000, 0x001cee00, 0x004f0000);
    Next(w, s, 68, 0x00d80000, 0x00e00000, 0x00380000, 0x00000000, 0x00000000);
    Next(w, s, 69, 0x0380e000, 0x000ed600, 0x0004c600, 0x000df000, 0x070e0000);
    Next(w, s, 70, 0x004f0000, 0x0000e000, 0x0000e000, 0x00380000, 0x00ee0000);
    Next(w, s, 71, 0x00000000, 0x01cea600, 0x0070ee00, 0x0004c600, 0x03751c00);
    Next(w, s, 72, 0x070e0000, 0x00000000, 0x000ee000, 0x0000e000, 0x0e000000);
    Next(w, s, 73, 0x00ee0000, 0x00d80000, 0x00369e00, 0x0070ee00, 0x00e0e000);
    Next(w, s, 74, 0x03751c00, 0x0380e000, 0x00e00000, 0x000ee000, 0x00363800);
    Next(w, s, 75, 0x0e000000, 0x004f0000, 0x000ed600, 0x00369e00, 0x1cee9000);
    Next(w, s, 76, 0x00e0e000, 0x00000000, 0x0000e000, 0x00e00000, 0x00000000);
    Next(w, s, 77, 0x00363800, 0x070e0000, 0x01cea600, 0x000ed600, 0x0df09000);
    Next(w, s, 78, 0x1cee9000, 0x00ee0000, 0x00000000, 0x0000e000, 0x3800e000);
    Next(w, s, 79, 0x00000000, 0x03751c00, 0x00d80000, 0x01cea600, 0x04c77400);
  }

  lemma TwoRounds1(s: seq<Word>)
    requires TwoWords1(s)
    ensures Rounds(Two, s, 20) == Regs(0xd8992153, 0xc2eb709f, 0x2946d62f, 0x9541f6db, 0x365dc8d8)
  {
    hide Rounds;
    NoRounds(Two, s);
    Go(Two, s, 0, 1, 0xf4286818, 0xc37b27ae, 0x0408f581, 0x84677148, 0x4a566572, 0x00000000, 0x2df257e9, 0xb0dec9eb);
    Go(Two, s, 1, 1, 0x2df257e9, 0xf4286818, 0xb0dec9eb, 0x0408f581, 0x84677148, 0x00000000, 0x4d3dc58f, 0x3d0a1a06);
    Go(Two, s, 2, 1, 0x4d3dc58f, 0x2df257e9, 0x3d0a1a06, 0xb0dec9eb, 0x0408f581, 0x00000000, 0xc352bb05, 0x4b7c95fa);
    Go(Two, s, 3, 1, 0xc352bb05, 0x4d3dc58f, 0x4b7c95fa, 0x3d0a1a06, 0xb0dec9eb, 0x00000000, 0xeef743c6, 0xd34f7163);
    Go(Two, s, 4, 1, 0xeef743c6, 0xc352bb05, 0xd34f7163, 0x4b7c95fa, 0x3d0a1a06, 0x00000000, 0x41e34277, 0x70d4aec1);
    Go(Two, s, 5, 1, 0x41e34277, 0xeef743c6, 0x70d4aec1, 0xd34f7163, 0x4b7c95fa, 0x00000000, 0x5443915c, 0xbbbdd0f1);
    Go(Two, s, 6, 1, 0x5443915c, 0x41e34277, 0xbbbdd0f1, 0x70d4aec1, 0xd34f7163, 0x00000000, 0xe7fa0377, 0xd078d09d);
    Go(Two, s, 7, 1, 0xe7fa0377, 0x5443915c, 0xd078d09d, 0xbbbdd0f1, 0x70d4aec1, 0x00000000, 0xc6946813, 0x1510e457);
    Go(Two, s, 8, 1, 0xc6946813, 0xe7fa0377, 0x1510e457, 0xd078d09d, 0xbbbdd0f1, 0x00000000, 0xfdde1de1, 0xf9fe80dd);
    Go(Two, s, 9, 1, 0xfdde1de1, 0xc6946813, 0xf9fe80dd, 0x1510e457, 0xd078d09d, 0x00000000, 0xb8538aca, 0xf1a51a04);
    Go(Two, s, 10, 1, 0xb8538aca, 0xfdde1de1, 0xf1a51a04, 0xf9fe80dd, 0x1510e457, 0x00000000, 0x6ba94f63, 0x7f778778);
    Go(Two, s, 11, 1, 0x6ba94f63, 0xb8538aca, 0x7f778778, 0xf1a51a04, 0xf9fe80dd, 0x00000000, 0x43a2792f, 0xae14e2b2);
    Go(Two, s, 12, 1, 0x43a2792f, 0x6ba94f63, 0xae14e2b2, 0x7f778778, 0xf1a51a04, 0x00000000, 0xfecd7bbf, 0xdaea53d8);
    Go(Two, s, 13, 1, 0xfecd7bbf, 0x43a2792f, 0xdaea53d8, 0xae14e2b2, 0x7f778778, 0x00000000, 0xa2604ca8, 0xd0e89e4b);
    Go(Two, s, 14, 1, 0xa2604ca8, 0xfecd7bbf, 0xd0e89e4b, 0xdaea53d8, 0xae14e2b2, 0x00000000, 0x258b0baa, 0xffb35eef);
    Go(Two, s, 15, 1, 0x258b0baa, 0xa2604ca8, 0xffb35eef, 0xd0e89e4b, 0xdaea53d8, 0x000001c0, 0xd9772360, 0x2898132a);
    Go(Two, s, 16, 1, 0xd9772360, 0x258b0baa, 0x2898132a, 0xffb35eef, 0xd0e89e4b, 0x00000000, 0x5507db6e, 0x8962c2ea);
    Go(Two, s, 17, 1, 0x5507db6e, 0xd9772360, 0x8962c2ea, 0x2898132a, 0xffb35eef, 0x00000000, 0xa51b58bc, 0x365dc8d8);
    Go(Two, s, 18, 1, 0xa51b58bc, 0x5507db6e, 0x365dc8d8, 0x8962c2ea, 0x2898132a, 0x00000380, 0xc2eb709f, 0x9541f6db);
    Go(Two, s, 19, 1, 0xc2eb709f, 0xa51b58bc, 0x9541f6db, 0x365dc8d8, 0x8962c2ea, 0x00000000, 0xd8992153, 0x2946d62f);
  }

  lemma TwoRounds2(s: seq<Word>)
    requires TwoWords2(s) && Rounds(Two, s, 20) == Regs(0xd8992153, 0xc2eb709f, 0x2946d62f, 0x9541f6db, 0x365dc8d8)
    ensures Rounds(Two, s, 40) == Regs(0x03bb6310, 0x84e2a5f2, 0x21f56e03, 0xb3bd6b84, 0x1a5b6901)
  {
    hide Rounds;
    Go(Two, s, 20, 2, 0xd8992153, 0xc2eb709f, 0x2946d62f, 0x9541f6db, 0x365dc8d8, 0x00000000, 0x37482f5f, 0xf0badc27);
    Go(Two, s, 21, 2, 0x37482f5f, 0xd8992153, 0xf0badc27, 0x2946d62f, 0x9541f6db, 0x00000700, 0xee8700bd, 0xf6264854);
    Go(Two, s, 22, 2, 0xee8700bd, 0x37482f5f, 0xf6264854, 0xf0badc27, 0x2946d62f, 0x00000000, 0x9ad594b9, 0xcdd20bd7);
    Go(Two, s, 23, 2, 0x9ad594b9, 0xee8700bd, 0xcdd20bd7, 0xf6264854, 0xf0badc27, 0x00000380, 0x8fbaa5b9, 0x7ba1c02f);
    Go(Two, s, 24, 2, 0x8fbaa5b9, 0x9ad594b9, 0x7ba1c02f, 0xcdd20bd7, 0xf6264854, 0x00000e00, 0x88fb5867, 0x66b5652e);
    Go(Two, s, 25, 2, 0x88fb5867, 0x8fbaa5b9, 0x66b5652e, 0x7ba1c02f, 0xcdd20bd7, 0x00000000, 0xeec50521, 0x63eea96e);
    Go(Two, s, 26, 2, 0xeec50521, 0x88fb5867, 0x63eea96e, 0x66b5652e, 0x7ba1c02f, 0x00000000, 0x50bce434, 0xe23ed619);
    Go(Two, s, 27, 2, 0x50bce434, 0xeec50521, 0xe23ed619, 0x63eea96e, 0x66b5652e, 0x00001c00, 0x5c416daf, 0x7bb14148);
    Go(Two, s, 28, 2, 0x5c416daf, 0x50bce434, 0x7bb14148, 0xe23ed619, 0x63eea96e, 0x00000000, 0x2429be5f, 0x142f390d);
    Go(Two, s, 29, 2, 0x2429be5f, 0x5c416daf, 0x142f390d, 0x7bb14148, 0xe23ed619, 0x00000d80, 0x0a2fb108, 0xd7105b6b);
    Go(Two, s, 30, 2, 0x0a2fb108, 0x2429be5f, 0xd7105b6b, 0x142f390d, 0x7bb14148, 0x00003800, 0x17986223, 0xc90a6f97);
    Go(Two, s, 31, 2, 0x17986223, 0x0a2fb108, 0xc90a6f97, 0xd7105b6b, 0x142f390d, 0x00000480, 0x8a4af384, 0x028bec42);
    Go(Two, s, 32, 2, 0x8a4af384, 0x17986223, 0x028bec42, 0xc90a6f97, 0xd7105b6b, 0x00000000, 0x6b629993, 0xc5e61888);
    Go(Two, s, 33, 2, 0x6b629993, 0x8a4af384, 0xc5e61888, 0x028bec42, 0xc90a6f97, 0x00007000, 0xf15f04f3, 0x2292bce1);
    Go(Two, s, 34, 2, 0xf15f04f3, 0x6b629993, 0x2292bce1, 0xc5e61888, 0x028bec42, 0x00000e00, 0x295cc25b, 0xdad8a664);
    Go(Two, s, 35, 2, 0x295cc25b, 0xf15f04f3, 0xdad8a664, 0x2292bce1, 0xc5e61888, 0x00003600, 0x696da404, 0xfc57c13c);
    Go(Two, s, 36, 2, 0x696da404, 0x295cc25b, 0xfc57c13c, 0xdad8a664, 0x2292bce1, 0x0000e000, 0xcef5ae12, 0xca573096);
    Go(Two, s, 37, 2, 0xcef5ae12, 0x696da404, 0xca573096, 0xfc57c13c, 0xdad8a664, 0x00000e00, 0x87d5b80c, 0x1a5b6901);
    Go(Two, s, 38, 2, 0x87d5b80c, 0xcef5ae12, 0x1a5b6901, 0xca573096, 0xfc57c13c, 0x00000000, 0x84e2a5f2, 0xb3bd6b84);
    Go(Two, s, 39, 2, 0x84e2a5f2, 0x87d5b80c, 0xb3bd6b84, 0x1a5b6901, 0xca573096, 0x0001ce00, 0x03bb6310, 0x21f56e03);
  }

  lemma TwoRounds3(s: seq<Word>)
    requires TwoWords3(s) && Rounds(Two, s, 40) == Regs(0x03bb6310, 0x84e2a5f2, 0x21f56e03, 0xb3bd6b84, 0x1a5b6901)
    ensures Rounds(Two, s, 60) == Regs(0xa65818f7, 0x5b086c42, 0xb9e15956, 0xea1256a6, 0xdb69cb9f)
  {
    hide Rounds;
    Go(Two, s, 40, 3, 0x03bb6310, 0x84e2a5f2, 0x21f56e03, 0xb3bd6b84, 0x1a5b6901, 0x00000000, 0xc2d8f75f, 0xa138a97c);
    Go(Two, s, 41, 3, 0xc2d8f75f, 0x03bb6310, 0xa138a97c, 0x21f56e03, 0xb3bd6b84, 0x0000d800, 0xbfb25768, 0x00eed8c4);
    Go(Two, s, 42, 3, 0xbfb25768, 0xc2d8f75f, 0x00eed8c4, 0xa138a97c, 0x21f56e03, 0x00038000, 0x28589152, 0xf0b63dd7);
    Go(Two, s, 43, 3, 0x28589152, 0xbfb25768, 0xf0b63dd7, 0x00eed8c4, 0xa138a97c, 0x00004f00, 0xec1d3d61, 0x2fec95da);
    Go(Two, s, 44, 3, 0xec1d3d61, 0x28589152, 0x2fec95da, 0xf0b63dd7, 0x00eed8c4, 0x00000000, 0x3caed7af, 0x8a162454);
    Go(Two, s, 45, 3, 0x3caed7af, 0xec1d3d61, 0x8a162454, 0x2fec95da, 0xf0b63dd7, 0x00070e00, 0xc3d033ea, 0x7b074f58);
    Go(Two, s, 46, 3, 0xc3d033ea, 0x3caed7af, 0x7b074f58, 0x8a162454, 0x2fec95da, 0x0000ee00, 0x7316056a, 0xcf2bb5eb);
    Go(Two, s, 47, 3, 0x7316056a, 0xc3d033ea, 0xcf2bb5eb, 0x7b074f58, 0x8a162454, 0x00037500, 0x46f93b68, 0xb0f40cfa);
    Go(Two, s, 48, 3, 0x46f93b68, 0x7316056a, 0xb0f40cfa, 0xcf2bb5eb, 0x7b074f58, 0x000e0000, 0xdc8e7f26, 0x9cc5815a);
    Go(Two, s, 49, 3, 0xdc8e7f26, 0x46f93b68, 0x9cc5815a, 0xb0f40cfa, 0xcf2bb5eb, 0x0000e000, 0x850d411c, 0x11be4eda);
    Go(Two, s, 50, 3, 0x850d411c, 0xdc8e7f26, 0x11be4eda, 0x9cc5815a, 0xb0f40cfa, 0x00003600, 0x7e4672c0, 0xb7239fc9);
    Go(Two, s, 51, 3, 0x7e4672c0, 0x850d411c, 0xb7239fc9, 0x11be4eda, 0x9cc5815a, 0x001cee00, 0x89fbd41d, 0x21435047);
    Go(Two, s, 52, 3, 0x89fbd41d, 0x7e4672c0, 0x21435047, 0xb7239fc9, 0x11be4eda, 0x00000000, 0x1797e228, 0x1f919cb0);
    Go(Two, s, 53, 3, 0x1797e228, 0x89fbd41d, 0x1f919cb0, 0x21435047, 0xb7239fc9, 0x000df000, 0x431d65bc, 0x627ef507);
    Go(Two, s, 54, 3, 0x431d65bc, 0x1797e228, 0x627ef507, 0x1f919cb0, 0x21435047, 0x00380000, 0x2bdbb8cb, 0x05e5f88a);
    Go(Two, s, 55, 3, 0x2bdbb8cb, 0x431d65bc, 0x05e5f88a, 0x627ef507, 0x1f919cb0, 0x0004c600, 0x6da72e7f, 0x10c7596f);
    Go(Two, s, 56, 3, 0x6da72e7f, 0x2bdbb8cb, 0x10c7596f, 0x05e5f88a, 0x627ef507, 0x0000e000, 0xa8495a9b, 0xcaf6ee32);
    Go(Two, s, 57, 3, 0xa8495a9b, 0x6da72e7f, 0xcaf6ee32, 0x10c7596f, 0x05e5f88a, 0x0070ee00, 0xe785655a, 0xdb69cb9f);
    Go(Two, s, 58, 3, 0xe785655a, 0xa8495a9b, 0xdb69cb9f, 0xcaf6ee32, 0x10c7596f, 0x000ee000, 0x5b086c42, 0xea1256a6);
    Go(Two, s, 59, 3, 0x5b086c42, 0xe785655a, 0xea1256a6, 0xdb69cb9f, 0xcaf6ee32, 0x00369e00, 0xa65818f7, 0xb9e15956);
  }

  lemma TwoRounds4(s: seq<Word>)
    requires TwoWords4(s) && Rounds(Two, s, 60) == Regs(0xa65818f7, 0x5b086c42, 0xb9e15956, 0xea1256a6, 0xdb69cb9f)
    ensures Rounds(Two, s, 80) == Regs(0x906fd62c, 0x58c0aac0, 0xb6a55520, 0x74e9b89d, 0x9af00b7f)
  {
    hide Rounds;
    Go(Two, s, 60, 4, 0xa65818f7, 0x5b086c42, 0xb9e15956, 0xea1256a6, 0xdb69cb9f, 0x00e00000, 0x7aab101b, 0x96c21b10);
    Go(Two, s, 61, 4, 0x7aab101b, 0xa65818f7, 0x96c21b10, 0xb9e15956, 0xea1256a6, 0x000ed600, 0x93614c9c, 0xe996063d);
    Go(Two, s, 62, 4, 0x93614c9c, 0x7aab101b, 0xe996063d, 0x96c21b10, 0xb9e15956, 0x0000e000, 0xf66d9bf4, 0xdeaac406);
    Go(Two, s, 63, 4, 0xf66d9bf4, 0x93614c9c, 0xdeaac406, 0xe996063d, 0x96c21b10, 0x01cea600, 0xd504902b, 0x24d85327);
    Go(Two, s, 64, 4, 0xd504902b, 0xf66d9bf4, 0x24d85327, 0xdeaac406, 0xe996063d, 0x00000000, 0x60a9da62, 0x3d9b66fd);
    Go(Two, s, 65, 4, 0x60a9da62, 0xd504902b, 0x3d9b66fd, 0x24d85327, 0xdeaac406, 0x00d80000, 0x8b687819, 0xf541240a);
    Go(Two, s, 66, 4, 0x8b687819, 0x60a9da62, 0xf541240a, 0x3d9b66fd, 0x24d85327, 0x0380e000, 0x083e90c3, 0x982a7698);
    Go(Two, s, 67, 4, 0x083e90c3, 0x8b687819, 0x982a7698, 0xf541240a, 0x3d9b66fd, 0x004f0000, 0xf6226bbf, 0x62da1e06);
    Go(Two, s, 68, 4, 0xf6226bbf, 0x083e90c3, 0x62da1e06, 0x982a7698, 0xf541240a, 0x00000000, 0x76c0563b, 0xc20fa430);
    Go(Two, s, 69, 4, 0x76c0563b, 0xf6226bbf, 0xc20fa430, 0x62da1e06, 0x982a7698, 0x070e0000, 0x989dd165, 0xfd889aef);
    Go(Two, s, 70, 4, 0x989dd165, 0x76c0563b, 0xfd889aef, 0xc20fa430, 0x62da1e06, 0x00ee0000, 0x8b2c7573, 0xddb0158e);
    Go(Two, s, 71, 4, 0x8b2c7573, 0x989dd165, 0xddb0158e, 0xfd889aef, 0xc20fa430, 0x03751c00, 0xae1b8e7b, 0x66277459);
    Go(Two, s, 72, 4, 0xae1b8e7b, 0x8b2c7573, 0x66277459, 0xddb0158e, 0xfd889aef, 0x0e000000, 0xca1840de, 0xe2cb1d5c);
    Go(Two, s, 73, 4, 0xca1840de, 0xae1b8e7b, 0xe2cb1d5c, 0x66277459, 0xddb0158e, 0x00e0e000, 0x16f3babb, 0xeb86e39e);
    Go(Two, s, 74, 4, 0x16f3babb, 0xca1840de, 0xeb86e39e, 0xe2cb1d5c, 0x66277459, 0x00363800, 0xd28d83ad, 0xb2861037);
    Go(Two, s, 75, 4, 0xd28d83ad, 0x16f3babb, 0xb2861037, 0xeb86e39e, 0xe2cb1d5c, 0x1cee9000, 0x6bc02dfe, 0xc5bceeae);
    Go(Two, s, 76, 4, 0x6bc02dfe, 0xd28d83ad, 0xc5bceeae, 0xb2861037, 0xeb86e39e, 0x00000000, 0xd3a6e275, 0x74a360eb);
    Go(Two, s, 77, 4, 0xd3a6e275, 0x6bc02dfe, 0x74a360eb, 0xc5bceeae, 0xb2861037, 0x0df09000, 0xda955482, 0x9af00b7f);
    Go(Two, s, 78, 4, 0xda955482, 0xd3a6e275, 0x9af00b7f, 0x74a360eb, 0xc5bceeae, 0x3800e000, 0x58c0aac0, 0x74e9b89d);
    Go(Two, s, 79, 4, 0x58c0aac0, 0xda955482, 0x74e9b89d, 0x9af00b7f, 0x74a360eb, 0x04c77400, 0x906fd62c, 0xb6a55520);
  }

  lemma TwoBlock(b: seq<Byte>)
    requires |b| == 64 && TwoLoaded(Load(b))
    ensures Block(Two, b) == Regs(0x84983e44, 0x1c3bd26e, 0xbaae4aa1, 0xf95129e5, 0xe54670f1)
  {
    hide Schedule, Rounds, TwoLoaded, TwoWords1, TwoWords2, TwoWords3, TwoWords4;
    var w := Load(b);
    var s := Schedule(w, 80);
    TwoSchedule1(w, s);
    TwoSchedule2(w, s);
    TwoSchedule3(w, s);
    TwoSchedule4(w, s);
    TwoRounds1(s);
    TwoRounds2(s);
    TwoRounds3(s);
    TwoRounds4(s);
  }

  // ---------------------------------------------------------------- the digests

  lemma AbcLoads(b: seq<Byte>)
    requires b == [97, 98, 99, 128] + Zeros(52) + [0, 0, 0, 0, 0, 0, 0, 24]
    ensures |b| == 64 && AbcLoaded(Load(b))
  {
    hide Load;
    Loads(b, 0, 97, 98, 99, 128, 0x61626380);
    LoadsZeros(b, 1, 15);
    Loads(b, 15, 0, 0, 0, 24, 24);
  }

  lemma AbcPadded()
    ensures Padded([97, 98, 99]) == [97, 98, 99, 128] + Zeros(52) + [0, 0, 0, 0, 0, 0, 0, 24]
  {
    assert LengthField(3) == [0, 0, 0, 0, 0, 0, 0, 24];
    assert ZeroCount(3) == 52;
  }

  lemma AbcBytes()
    ensures RegsBytes(Regs(0xa9993e36, 0x4706816a, 0xba3e2571, 0x7850c26c, 0x9cd0d89d))
         == [0xa9, 0x99, 0x3e, 0x36, 0x47, 0x06, 0x81, 0x6a, 0xba, 0x3e, 0x25, 0x71,
             0x78, 0x50, 0xc2, 0x6c, 0x9c, 0xd0, 0xd8, 0x9d]
  {
  }

  /** The digest of "abc". */
  lemma AbcDigest()
    ensures Digest([97, 98, 99])
         == [0xa9, 0x99, 0x3e, 0x36, 0x47, 0x06, 0x81, 0x6a, 0xba, 0x3e, 0x25, 0x71,
             0x78, 0x50, 0xc2, 0x6c, 0x9c, 0xd0, 0xd8, 0x9d]
  {
    hide Block, RegsBytes, Load, AbcLoaded, Padded, Fold;
    var b := Padded([97, 98, 99]);
    AbcPadded();
    AbcLoads(b);
    AbcBlock(b);
    OneFold(Block, INIT, b);
    AbcBytes();
  }

  /** The 56 bytes of "abcdbcdecdefdefgefghfghighijhijkijkljklmklmnlmnomnopnopq". */
  function Alphabet(): (m: seq<Byte>)
    ensures |m| == 56
  {
    seq(56, k requires 0 <= k < 56 => 97 + k / 4 + k % 4)
  }

  lemma AlphabetWord(b: seq<Byte>, i: nat, c: Byte, x: Word)
    requires |b| == 64 && b[..56] == Alphabet() && i < 14 && c == 97 + i
    requires BigEndian(Bits(c), Bits(c + 1), Bits(c + 2), Bits(c + 3)) == x
    ensures |Load(b)| == 16 && Load(b)[i] == x
  {
    hide BigEndian, Bits, Load;
    assert forall k :: 0 <= k < 56 ==> b[k] == Alphabet()[k];
    Loads(b, i, c, c + 1, c + 2, c + 3, x);
  }

  lemma AlphabetSpelled1()
    ensures BigEndian(Bits(97), Bits(98), Bits(99), Bits(100)) == 0x61626364
    ensures BigEndian(Bits(98), Bits(99), Bits(100), Bits(101)) == 0x62636465
    ensures BigEndian(Bits(99), Bits(100), Bits(101), Bits(102)) == 0x63646566
    ensures BigEndian(Bits(100), Bits(101), Bits(102), Bits(103)) == 0x64656667
    ensures BigEndian(Bits(101), Bits(102), Bits(103), Bits(104)) == 0x65666768
  {
  }

  lemma AlphabetSpelled2()
    ensures BigEndian(Bits(102), Bits(103), Bits(104), Bits(105)) == 0x66676869
    ensures BigEndian(Bits(103), Bits(104), Bits(105), Bits(106)) == 0x6768696a
    ensures BigEndian(Bits(104), Bits(105), Bits(106), Bits(107)) == 0x68696a6b
    ensures BigEndian(Bits(105), Bits(106), Bits(107), Bits(108)) == 0x696a6b6c
    ensures BigEndian(Bits(106), Bits(107), Bits(108), Bits(109)) == 0x6a6b6c6d
  {
  }

  lemma AlphabetSpelled3()
    ensures BigEndian(Bits(107), Bits(108), Bits(109), Bits(110)) == 0x6b6c6d6e
    ensures BigEndian(Bits(108), Bits(109), Bits(110), Bits(111)) == 0x6c6d6e6f
    ensures BigEndian(Bits(109), Bits(110), Bits(111), Bits(112)) == 0x6d6e6f70
    ensures BigEndian(Bits(110), Bits(111), Bits(112), Bits(113)) == 0x6e6f7071
  {
  }

  lemma LastLoads(b: seq<Byte>)
    requires b == Alphabet() + [128] + Zeros(7)
    ensures |Load(b)| == 16 && Load(b)[14] == 0x80000000 && Load(b)[15] == 0
  {
    hide Load, Alphabet;
    Loads(b, 14, 128, 0, 0, 0, 0x80000000);
    LoadsZeros(b, 15, 16);
  }

  lemma OneLoads(b: seq<Byte>)
    requires b == Alphabet() + [128] + Zeros(7)
    ensures |b| == 64 && OneLoaded(Load(b))
  {
    hide Load, Alphabet, BigEndian, Bits;
    assert b[..56] == Alphabet();
    LastLoads(b);
    AlphabetSpelled1();
    AlphabetSpelled2();
    AlphabetSpelled3();
    AlphabetWord(b, 0, 97, 0x61626364);
    AlphabetWord(b, 1, 98, 0x62636465);
    AlphabetWord(b, 2, 99, 0x63646566);
    AlphabetWord(b, 3, 100, 0x64656667);
    AlphabetWord(b, 4, 101, 0x65666768);
    AlphabetWord(b, 5, 102, 0x66676869);
    AlphabetWord(b, 6, 103, 0x6768696a);
    AlphabetWord(b, 7, 104, 0x68696a6b);
    AlphabetWord(b, 8, 105, 0x696a6b6c);
    AlphabetWord(b, 9, 106, 0x6a6b6c6d);
    AlphabetWord(b, 10, 107, 0x6b6c6d6e);
    AlphabetWord(b, 11, 108, 0x6c6d6e6f);
    AlphabetWord(b, 12, 109, 0x6d6e6f70);
    AlphabetWord(b, 13, 110, 0x6e6f7071);
  }

  lemma TwoLoads(b: seq<Byte>)
    requires b == Zeros(56) + [0, 0, 0, 0, 0, 0, 1, 192]
    ensures |b| == 64 && TwoLoaded(Load(b))
  {
    hide Load;
    LoadsZeros(b, 0, 15);
    Loads(b, 15, 0, 0, 1, 192, 448);
  }

  lemma TwoPadded(b: seq<Byte>, c: seq<Byte>)
    requires b == Alphabet() + [128] + Zeros(7) && c == Zeros(56) + [0, 0, 0, 0, 0, 0, 1, 192]
    ensures Padded(Alphabet()) == b + c
  {
    hide Alphabet, Zeros;
    assert LengthField(56) == [0, 0, 0, 0, 0, 0, 1, 192];
    assert ZeroCount(56) == 63;
    ZerosSplit(7, 56);
  }

  lemma TwoBytes()
    ensures RegsBytes(Regs(0x84983e44, 0x1c3bd26e, 0xbaae4aa1, 0xf95129e5, 0xe54670f1))
         == [0x84, 0x98, 0x3e, 0x44, 0x1c, 0x3b, 0xd2, 0x6e, 0xba, 0xae, 0x4a, 0xa1,
             0xf9, 0x51, 0x29, 0xe5, 0xe5, 0x46, 0x70, 0xf1]
  {
  }

  /** The digest of the message of two blocks. */
  lemma AlphabetDigest()
    ensures Digest(Alphabet())
         == [0x84, 0x98, 0x3e, 0x44, 0x1c, 0x3b, 0xd2, 0x6e, 0xba, 0xae, 0x4a, 0xa1,
             0xf9, 0x51, 0x29, 0xe5, 0xe5, 0x46, 0x70, 0xf1]
  {
    hide Block, RegsBytes, Load, OneLoaded, TwoLoaded, Padded, Fold, Alphabet;
    var b, c := Alphabet() + [128] + Zeros(7), Zeros(56) + [0, 0, 0, 0, 0, 0, 1, 192];
    TwoPadded(b, c);
    OneLoads(b);
    TwoLoads(c);
    FirstBlock(Block, INIT, b + c, b, c);
    OneBlock(b);
    OneFold(Block, Block(INIT, b), c);
    TwoBlock(c);
    TwoBytes();
  }
}
