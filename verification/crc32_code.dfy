/** The checksum functions of src/crc32.c. */
module Crc32Code {
  import opened Crc32
  import opened Crc32Table

  /** The remainder of dividing a string of bytes, each taken in lowest bit first, continued from c. */
  function Remainder(c: Word, s: seq<bv8>): Word {
    if s == [] then c else Divide(Remainder(c, s[..|s| - 1]), Wide(s[|s| - 1]), 8)
  }

  function Not(c: Word): Word { !c }

  /** The checksum of s continued from a previous one; both are kept complemented. */
  function Crc(crc: Word, s: seq<bv8>): Word {
    Not(Remainder(Not(crc), s))
  }

  /** One round of the loop: a shift and a table entry stand for eight division steps. */
  lemma ByteStep(c: Word, b: bv8)
    ensures Divide(c, Wide(b), 8) == Xor(Shift8(c), Tab(Low(Xor(c, Wide(b)))))
  {
    hide *;
    ByteEnds(b);
    DivideIsSteps(c, Wide(b), 8);
    var x := Xor(c, Wide(b));
    EightSteps(x);
    SplitByte(x);
    TableIsDivision(Low(x));
    ByteHigh(c, b);
  }

  lemma ByteHigh(c: Word, b: bv8)
    ensures Shift8(Xor(c, Wide(b))) == Shift8(c)
  {
    assert (c ^ (b as bv32)) >> 8 == c >> 8;
  }

  /** Checksums compose: continuing over b after a is the checksum of the concatenation. */
  lemma {:induction false} CrcComposes(crc: Word, a: seq<bv8>, b: seq<bv8>)
    ensures Crc(Crc(crc, a), b) == Crc(crc, a + b)
  {
    hide Not, Remainder;
    NotNot(Remainder(Not(crc), a));
    RemainderComposes(Not(crc), a, b);
  }

  lemma NotNot(c: Word)
    ensures Not(Not(c)) == c
  {
  }

  lemma {:induction false} RemainderComposes(c: Word, a: seq<bv8>, b: seq<bv8>)
    ensures Remainder(Remainder(c, a), b) == Remainder(c, a + b)
    decreases |b|
  {
    hide Divide, Wide;
    if b == [] {
      assert a + b == a;
    } else {
      assert (a + b)[..|a + b| - 1] == a + b[..|b| - 1];
      RemainderComposes(c, a, b[..|b| - 1]);
    }
  }

  /** crc32_partial_sz. */
  method Crc32Partial(crcIn: Word, buf: array<bv8>, size: nat) returns (crc: Word)
    requires size <= buf.Length
    ensures crc == Crc(crcIn, buf[..size])
  {
    hide Not, Divide, Xor, Shift8, Low, Wide, Tab;
    crc := Not(crcIn);
    var p := 0;
    while p < size
      invariant p <= size && crc == Remainder(Not(crcIn), buf[..p])
    {
      ByteStep(crc, buf[p]);
      crc := Xor(Shift8(crc), Tab(Low(Xor(crc, Wide(buf[p])))));
      assert buf[..p + 1][..p] == buf[..p];
      p := p + 1;
    }
    crc := Not(crc);
  }

  /** crc32_sz. */
  method Crc32Whole(buf: array<bv8>, size: nat) returns (crc: Word)
    requires size <= buf.Length
    ensures crc == Crc(0, buf[..size])
  {
    crc := Crc32Partial(0, buf, size);
  }
}
