/** What is known of CRC-32 beside its definition: the residue and the check value. */
module Crc32Residue {
  import opened Crc32
  import opened Crc32Table
  import opened Crc32Code

  /** The bytes of a word, lowest first. */
  function Bytes(x: Word): seq<bv8> {
    [Byte0(x), Byte1(x), Byte2(x), Byte3(x)]
  }

  function Byte0(x: Word): bv8 { (x & 0xff) as bv8 }
  function Byte1(x: Word): bv8 { ((x >> 8) & 0xff) as bv8 }
  function Byte2(x: Word): bv8 { ((x >> 16) & 0xff) as bv8 }
  function Byte3(x: Word): bv8 { (x >> 24) as bv8 }

  function Shift16(x: Word): Word { x >> 16 }
  function Shift24(x: Word): Word { x >> 24 }

  lemma Low0(c: Word)
    ensures Low(Xor(c, Wide(Byte0(Not(c))))) == 0xff
  {
  }

  lemma High0(c: Word)
    ensures Xor(Shift8(c), 0x2d02ef8d) == Xor(Shift8(c), 0x2d02ef8d)
  {
  }

  lemma Entry0()
    ensures Tab(0xff) == 0x2d02ef8d
  {
  }

  /** The first byte of the complement of c, after what c left. */
  lemma Taken0(c: Word)
    ensures Divide(c, Wide(Byte0(Not(c))), 8) == Xor(Shift8(c), 0x2d02ef8d)
  {
    hide *;
    ByteStep(c, Byte0(Not(c)));
    Low0(c);
    High0(c);
    Entry0();
  }

  lemma Low1(c: Word)
    ensures Low(Xor(Xor(Shift8(c), 0x2d02ef8d), Wide(Byte1(Not(c))))) == 0x72
  {
  }

  lemma High1(c: Word)
    ensures Xor(Shift8(Xor(Shift8(c), 0x2d02ef8d)), 0xbe0b1010) == Xor(Shift16(c), 0xbe2612ff)
  {
    assert (((c >> 8) ^ 0x2d02ef8d) >> 8) ^ 0xbe0b1010 == (c >> 16) ^ 0xbe2612ff;
  }

  lemma Entry1()
    ensures Tab(0x72) == 0xbe0b1010
  {
  }

  /** The second byte of the complement of c, after what c left. */
  lemma Taken1(c: Word)
    ensures Divide(Xor(Shift8(c), 0x2d02ef8d), Wide(Byte1(Not(c))), 8) == Xor(Shift16(c), 0xbe2612ff)
  {
    hide *;
    ByteStep(Xor(Shift8(c), 0x2d02ef8d), Byte1(Not(c)));
    Low1(c);
    High1(c);
    Entry1();
  }

  lemma Low2(c: Word)
    ensures Low(Xor(Xor(Shift16(c), 0xbe2612ff), Wide(Byte2(Not(c))))) == 0x0
  {
  }

  lemma High2(c: Word)
    ensures Xor(Shift8(Xor(Shift16(c), 0xbe2612ff)), 0x00000000) == Xor(Shift24(c), 0x00be2612)
  {
  }

  lemma Entry2()
    ensures Tab(0x0) == 0x00000000
  {
  }

  /** The third byte of the complement of c, after what c left. */
  lemma Taken2(c: Word)
    ensures Divide(Xor(Shift16(c), 0xbe2612ff), Wide(Byte2(Not(c))), 8) == Xor(Shift24(c), 0x00be2612)
  {
    hide *;
    ByteStep(Xor(Shift16(c), 0xbe2612ff), Byte2(Not(c)));
    Low2(c);
    High2(c);
    Entry2();
  }

  lemma Low3(c: Word)
    ensures Low(Xor(Xor(Shift24(c), 0x00be2612), Wide(Byte3(Not(c))))) == 0xed
  {
  }

  lemma High3(c: Word)
    ensures Xor(Shift8(Xor(Shift24(c), 0x00be2612)), 0xdebb9ec5) == 0xdebb20e3
  {
  }

  lemma Entry3()
    ensures Tab(0xed) == 0xdebb9ec5
  {
  }

  /** The last byte of the complement of c, after what c left. */
  lemma Taken3(c: Word)
    ensures Divide(Xor(Shift24(c), 0x00be2612), Wide(Byte3(Not(c))), 8) == 0xdebb20e3
  {
    hide *;
    ByteStep(Xor(Shift24(c), 0x00be2612), Byte3(Not(c)));
    Low3(c);
    High3(c);
    Entry3();
  }

  lemma FourBytes(c: Word, a: bv8, b: bv8, x: bv8, y: bv8)
    ensures Remainder(c, [a, b, x, y])
         == Divide(Divide(Divide(Divide(c, Wide(a), 8), Wide(b), 8), Wide(x), 8), Wide(y), 8)
  {
    hide Divide, Wide;
    assert [a, b, x, y][..3] == [a, b, x] && [a, b, x][..2] == [a, b] && [a, b][..1] == [a];
    assert Remainder(c, [a]) == Divide(c, Wide(a), 8);
    assert Remainder(c, [a, b]) == Divide(Remainder(c, [a]), Wide(b), 8);
  }

  /** Bytes that complement a remainder leave the same word of every remainder. */
  lemma ComplementTaken(c: Word)
    ensures Remainder(c, Bytes(Not(c))) == 0xdebb20e3
  {
    hide Divide, Wide, Remainder, Byte0, Byte1, Byte2, Byte3, Not, Xor, Shift8, Shift16, Shift24;
    var n := Not(c);
    FourBytes(c, Byte0(n), Byte1(n), Byte2(n), Byte3(n));
    Taken0(c);
    Taken1(c);
    Taken2(c);
    Taken3(c);
  }

  lemma Complements()
    ensures Not(0) == 0xffffffff && Not(0xdebb20e3) == 0x2144df1c && Not(0x340bc6d9) == 0xcbf43926
  {
  }

  /** The residue law: a string followed by its own checksum, lowest byte first, always has this checksum. */
  lemma Residue(s: seq<bv8>)
    ensures Crc(0, s + Bytes(Crc(0, s))) == 0x2144df1c
  {
    hide Remainder, Not, Bytes;
    var c := Remainder(Not(0), s);
    RemainderComposes(Not(0), s, Bytes(Not(c)));
    ComplementTaken(c);
    Complements();
  }

  // ---------------------------------------------------------------- the check value

  /** One byte of a string with the low byte and the table entry it meets. */
  lemma Go(s: seq<bv8>, i: nat, c: Word, b: bv8, l: Word, t: Word, r: Word)
    requires i < |s| && s[i] == b && Remainder(0xffffffff, s[..i]) == c
    requires Low(Xor(c, Wide(b))) == l && Tab(l) == t && Xor(Shift8(c), t) == r
    ensures Remainder(0xffffffff, s[..i + 1]) == r
  {
    hide Divide, Wide, Low, Xor, Shift8, Tab;
    ByteStep(c, b);
    assert s[..i + 1][..i] == s[..i];
  }

  const DIGITS: seq<bv8> := [49, 50, 51, 52, 53, 54, 55, 56, 57]

  lemma FirstDigits()
    ensures Remainder(0xffffffff, DIGITS[..5]) == 0x340ac5e3
  {
    hide Remainder;
    var s := DIGITS;
    NoBytes(s);
    Go(s, 0, 0xffffffff, 49, 0xce, 0x7cdcefb7, 0x7c231048);
    Go(s, 1, 0x7c231048, 50, 0x7a, 0xb0d09822, 0xb0acbb32);
    Go(s, 2, 0xb0acbb32, 51, 0x01, 0x77073096, 0x77b79c2d);
    Go(s, 3, 0x77b79c2d, 52, 0x19, 0x646ba8c0, 0x641c1f5c);
    Go(s, 4, 0x641c1f5c, 53, 0x69, 0x346ed9fc, 0x340ac5e3);
  }

  /** The checksum of "123456789". */
  lemma CheckValue()
    ensures Crc(0, DIGITS) == 0xcbf43926
  {
    hide Remainder, Not;
    var s := DIGITS;
    FirstDigits();
    Go(s, 5, 0x340ac5e3, 54, 0xd5, 0xf6b9265b, 0xf68d2c9e);
    Go(s, 6, 0xf68d2c9e, 55, 0xa9, 0xaf0a1b4c, 0xaffc9660);
    Go(s, 7, 0xaffc9660, 56, 0x58, 0x65b0d9c6, 0x651f2550);
    Go(s, 8, 0x651f2550, 57, 0x69, 0x346ed9fc, 0x340bc6d9);
    assert s[..9] == s;
    Complements();
  }

  lemma NoBytes(s: seq<bv8>)
    ensures Remainder(0xffffffff, s[..0]) == 0xffffffff
  {
  }
}
