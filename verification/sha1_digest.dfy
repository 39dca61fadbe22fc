/** The incremental SHA-1 of src/sha1.c: a context fed piece by piece. */
module Sha1Digest {
  import opened Common
  import opened HashBlocks
  import opened HashCounts
  import opened Sha1Rounds

  /** The sixteen words of a block. */
  function Load(b: seq<Byte>): seq<Word>
    requires |b| == 64
  {
    seq(16, i requires 0 <= i < 16 =>
      BigEndian(Bits(b[4 * i]), Bits(b[4 * i + 1]), Bits(b[4 * i + 2]), Bits(b[4 * i + 3])))
  }

  function Bits(b: Byte): bv8 { b as bv8 }

  /** One block of SHA-1 (section 6.1.2 of FIPS 180-4). */
  function Block(d: Regs, b: seq<Byte>): Regs {
    if |b| == 64 then Sum(d, Rounds(d, Schedule(Load(b), 80), 80)) else d
  }

  const INIT: Regs := Regs(0x67452301, 0xefcdab89, 0x98badcfe, 0x10325476, 0xc3d2e1f0)

  /** The length field: the number of bits modulo 2^64, most significant byte first. */
  function LengthField(n: nat): (r: seq<Byte>)
    ensures |r| == 8
  {
    Bytes4(8 * n % M64 / M32) + Bytes4(8 * n % M32)
  }

  /** The padded message (section 5.1.1 of FIPS 180-4). */
  function Padded(m: seq<Byte>): seq<Byte> {
    m + Padding(|m|, LengthField(|m|))
  }

  function WordBytes(x: Word): seq<Byte> {
    [LowByte(x >> 24), LowByte(x >> 16), LowByte(x >> 8), LowByte(x)]
  }

  function RegsBytes(r: Regs): seq<Byte> {
    WordBytes(r.a) + WordBytes(r.b) + WordBytes(r.c) + WordBytes(r.d) + WordBytes(r.e)
  }

  /** The digest of a whole message. */
  function Digest(m: seq<Byte>): seq<Byte> {
    RegsBytes(Fold(Block, INIT, Padded(m)))
  }

  // ---------------------------------------------------------------- the bit count

  /** count_lo and count_hi hold the number of bits; of count_hi only 32 bits matter. */
  ghost predicate Counts(n: nat, lo: nat, hi: nat) {
    lo == 8 * n % M32 && hi % M32 == 8 * n / M32 % M32
  }

  /** The number of bytes in the buffer, from the low word of the bit count. */
  function Buffered(lo: nat): nat { lo / 8 % 64 }

  lemma CountsAdd(n: nat, c: nat, lo: nat, hi: nat, lo': nat, hi1: nat, hi': nat)
    requires Counts(n, lo, hi) && lo' == (lo + 8 * c) % M32
    requires hi1 == if lo' < lo then (hi + 1) % M64 else hi
    requires hi' == (hi1 + c / 0x2000_0000) % M64
    ensures Counts(n + c, lo', hi')
  {
    hide Counts;
    CountsMeans(n, lo, hi);
    LowCarry(8 * n, 8 * c);
    assert 8 * n + 8 * c == 8 * (n + c);
    assert 8 * c / M32 == c / 0x2000_0000;
    var k := if lo' < lo then 1 else 0;
    Mod64(hi + 1);
    Mod64(hi1 + c / 0x2000_0000);
    ModAdd(hi1, hi + k, c / 0x2000_0000);
    ModAdd(hi, 8 * n / M32, k + c / 0x2000_0000);
    CountsMeans(n + c, lo', hi');
  }

  lemma CountsMeans(n: nat, lo: nat, hi: nat)
    ensures Counts(n, lo, hi) <==> lo == 8 * n % M32 && hi % M32 == 8 * n / M32 % M32
  {
  }

  /** The number of buffered bytes, from the bit count. */
  lemma CountTail(n: nat)
    ensures Buffered(8 * n % M32) == n % 64
  {
    var q := 8 * n / M32;
    assert 8 * n % M32 == 8 * n - M32 * q;
    assert 8 * n % M32 / 8 == n - 0x2000_0000 * q;
    assert (n - 0x2000_0000 * q) % 64 == n % 64 by { ModShift(n - 0x2000_0000 * q, 0x80_0000 * q); }
  }

  /** The eight bytes written at the end of the last block. */
  lemma LengthBytes(n: nat, lo: nat, hi: nat)
    requires Counts(n, lo, hi)
    ensures Bytes4(hi) + Bytes4(lo) == LengthField(n)
  {
    hide Bytes4;
    Bytes4Mod(hi);
    assert 8 * n % M64 / M32 == 8 * n / M32 % M32 by { HighWord(8 * n); }
  }

  // ---------------------------------------------------------------- the context

  /** The first sixteen words of W. */
  method LoadWords(data: array<Byte>) returns (w: array<Word>)
    requires data.Length == 64
    ensures fresh(w) && w.Length == 80 && w[..16] == Load(data[..])
  {
    hide BigEndian, Fetch, Swap, Bits;
    w := new Word[80](i => 0);
    var i := 0;
    while i < 16
      invariant 0 <= i <= 16 && forall k :: 0 <= k < i ==> w[k] == Load(data[..])[k]
    {
      SwapFetched(Bits(data[4 * i]), Bits(data[4 * i + 1]), Bits(data[4 * i + 2]), Bits(data[4 * i + 3]));
      w[i] := Swap(Fetch(Bits(data[4 * i]), Bits(data[4 * i + 1]), Bits(data[4 * i + 2]), Bits(data[4 * i + 3])));
      i := i + 1;
    }
  }

  lemma NothingFed()
    ensures Fold(Block, INIT, []) == INIT && Tail([]) == [] && Counts(0, 0, 0)
  {
    hide *;
    NoFold(Block, INIT, []);
    ShortTail([]);
    CountsZero();
  }

  lemma CountsZero()
    ensures Counts(0, 0, 0)
  {
  }

  /** SHA_INFO. The ghost field is the message fed so far. */
  class Sha1 {
    var digest: Regs
    var countLo: nat
    var countHi: nat
    const data: array<Byte>
    var used: nat
    ghost var msg: seq<Byte>

    /** The digest is the fold over the full blocks, the buffer holds the tail, the counters the length. */
    ghost predicate Valid()
      reads this, data
    {
      && data.Length == 64 && used == |Tail(msg)| < 64 && data[..used] == Tail(msg)
      && digest == Fold(Block, INIT, msg) && Counts(|msg|, countLo, countHi)
    }

    constructor ()
      ensures Valid() && msg == [] && fresh(data)
    {
      hide Fold, Block, Counts, Tail;
      digest, countLo, countHi, used, msg := INIT, 0, 0, 0, [];
      data := new Byte[64](i => 0);
      NothingFed();
    }

    /** sha_transform: load, extend, and the unravelled rounds. */
    method Transform()
      requires data.Length == 64
      modifies this`digest
      ensures digest == Block(old(digest), data[..])
    {
      hide Rounds, Schedule, Sum, Load;
      var w := LoadWords(data);
      Extend(w);
      digest := UnravelledForm(digest, w[..]);
    }

    /** The bit count moves on. */
    method CountUp(count: nat)
      requires count < 0x8000_0000 && Counts(|msg|, countLo, countHi)
      modifies this`countLo, this`countHi
      ensures Counts(|msg| + count, countLo, countHi)
    {
      hide Counts;
      ghost var lo, hi := countLo, countHi;
      var clo := (countLo + 8 * count) % M32;
      if clo < countLo { countHi := (countHi + 1) % M64; }
      ghost var hi1 := countHi;
      countLo := clo;
      countHi := (countHi + count / 0x2000_0000) % M64;
      CountsAdd(|msg|, count, lo, hi, countLo, hi1, countHi);
    }

    /** Full blocks straight from the input; what is left stays in the buffer. */
    method Absorb(input: seq<Byte>)
      requires data.Length == 64
      modifies this`digest, this`used, data
      ensures digest == Fold(Block, old(digest), input) && used == |Tail(input)| < 64 && data[..used] == Tail(input)
    {
      hide Fold, Tail, Block;
      var rest := input;
      while |rest| >= 64
        invariant Fold(Block, digest, rest) == Fold(Block, old(digest), input) && Tail(rest) == Tail(input)
        decreases |rest|
      {
        Copy(data, 0, rest[..64]);
        assert data[..] == rest[..64];
        FirstBlock(Block, digest, rest, rest[..64], rest[64..]);
        Transform();
        rest := rest[64..];
      }
      Copy(data, 0, rest);
      ShortFold(Block, digest, rest);
      used := |rest|;
    }

    /** sha_update: the context has now seen the buffer too. */
    method Update(buffer: seq<Byte>)
      requires Valid() && |buffer| < 0x8000_0000
      modifies this, data
      ensures Valid() && msg == old(msg) + buffer
    {
      hide Fold, Tail, Block, Counts;
      CountUp(|buffer|);
      var rest := buffer;
      if used != 0 {
        var i := 64 - used;
        if i > |buffer| { i := |buffer|; }
        Copy(data, used, buffer[..i]);
        rest := buffer[i..];
        used := used + i;
        assert data[..used] == Tail(msg) + buffer[..i];
        if used == 64 {
          assert data[..] == data[..64];
          FeedBlock(Block, INIT, msg, buffer, i);
          Transform();
        } else {
          assert buffer[..i] == buffer;
          FeedShort(Block, INIT, msg, buffer);
          msg := msg + buffer;
          return;
        }
      } else {
        assert Tail(msg) == [] && [] + buffer == buffer;
        Feed(Block, INIT, msg, buffer);
      }
      msg := msg + buffer;
      Absorb(rest);
    }

    /** Padding up to the length field. */
    method PadBuffer(count0: nat, ghost len8: seq<Byte>)
      requires Valid() && count0 == |Tail(msg)| && |len8| == 8
      modifies this`digest, data
      ensures Block(digest, data[..56] + len8) == Fold(Block, INIT, msg + Padding(|msg|, len8))
    {
      hide Fold, Tail, Block, Counts, Padding, Zeros;
      var count := count0;
      ghost var t := Tail(msg);
      Copy(data, count, [0x80]);
      count := count + 1;
      assert data[..count] == t + [0x80];
      if count > 56 {
        TwoBlockPad(Block, INIT, msg, len8, t);
        Copy(data, count, Zeros(64 - count));
        assert data[..] == t + [0x80] + Zeros(63 - |t|);
        Transform();
        Copy(data, 0, Zeros(56));
        assert data[..56] == Zeros(56);
      } else {
        OneBlockPad(Block, INIT, msg, len8, t);
        Copy(data, count, Zeros(56 - count));
        assert data[..56] == t + [0x80] + Zeros(55 - |t|);
      }
    }

    /** sha_final: pads, in one block or two, and returns the digest of everything fed. */
    method Final() returns (out: seq<Byte>)
      requires Valid()
      modifies this, data
      ensures out == Digest(old(msg))
    {
      hide Fold, Tail, Block, Counts, Bytes4, RegsBytes, Padding, LengthField, Zeros;
      var lo, hi := countLo, countHi;
      CountTail(|msg|);
      CountsMeans(|msg|, lo, hi);
      TailLen(msg);
      LengthBytes(|msg|, lo, hi);
      ghost var len8 := LengthField(|msg|);
      PadBuffer(Buffered(lo), len8);
      ghost var head := data[..56];
      Copy(data, 56, Bytes4(hi) + Bytes4(lo));
      assert data[..] == head + len8;
      Transform();
      out := RegsBytes(digest);
    }
  }

  /** However a message is cut into pieces, the digest is that of the whole. */
  method DigestOfPieces(pieces: seq<seq<Byte>>) returns (out: seq<Byte>)
    requires forall i :: 0 <= i < |pieces| ==> |pieces[i]| < 0x8000_0000
    ensures out == Digest(Joined(pieces))
  {
    hide Digest, Fold, Tail, Block, Counts, Joined;
    var ctx := new Sha1();
    var i := 0;
    assert Joined(pieces[..0]) == [] by { JoinedNone(pieces[..0]); }
    while i < |pieces|
      invariant 0 <= i <= |pieces| && ctx.Valid() && fresh(ctx) && fresh(ctx.data) && ctx.msg == Joined(pieces[..i])
    {
      JoinedNext(pieces, i);
      ctx.Update(pieces[i]);
      i := i + 1;
    }
    assert pieces[..i] == pieces;
    out := ctx.Final();
  }

  /** The length field spells the number of bits of the message, modulo 2^64. */
  lemma LengthFieldValue(n: nat)
    ensures Spelled(LengthField(n)) == 8 * n % M64
  {
    hide Bytes4, Spelled;
    var x := 8 * n % M64;
    assert x % M32 == 8 * n % M32 by { Mod64(8 * n); }
    SpelledConcat4([], x / M32);
    SpelledConcat4(Bytes4(x / M32), x % M32);
    SpelledNone();
    assert [] + Bytes4(x / M32) == Bytes4(x / M32);
  }

}
