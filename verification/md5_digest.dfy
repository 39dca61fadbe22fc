/** The incremental MD5 of src/md5.c: a context fed piece by piece. */
module Md5Digest {
  import opened Common
  import opened HashBlocks
  import opened HashCounts
  import opened Md5Rounds

  /** The word at four bytes, least significant first. */
  function LittleEndian(b0: bv8, b1: bv8, b2: bv8, b3: bv8): Word {
    (b0 as bv32) | (b1 as bv32 << 8) | (b2 as bv32 << 16) | (b3 as bv32 << 24)
  }

  function Bits(b: Byte): bv8 { b as bv8 }

  /** The sixteen words of a block. */
  function Words(b: seq<Byte>): seq<Word>
    requires |b| == 64
  {
    seq(16, i requires 0 <= i < 16 =>
      LittleEndian(Bits(b[4 * i]), Bits(b[4 * i + 1]), Bits(b[4 * i + 2]), Bits(b[4 * i + 3])))
  }

  /** One block of MD5 (section 3.4 of RFC 1321). */
  function Block(q: Quad, b: seq<Byte>): Quad {
    if |b| == 64 then Sum(q, Steps(q, Words(b), 64)) else q
  }

  const START: Quad := Quad(0x67452301, 0xefcdab89, 0x98badcfe, 0x10325476)

  /** The four bytes of the low 32 bits of x, least significant first. */
  function Little4(x: nat): (r: seq<Byte>)
    ensures |r| == 4
  {
    [Low8(x), Low8(x / 0x100), Low8(x / 0x1_0000), Low8(x / 0x100_0000)]
  }

  /** The length field: the number of bits modulo 2^64, low-order word first (section 3.2 of RFC 1321). */
  function LengthField(n: nat): (r: seq<Byte>)
    ensures |r| == 8
  {
    Little4(8 * n % M32) + Little4(8 * n % M64 / M32)
  }

  /** The padded message. */
  function Padded(m: seq<Byte>): seq<Byte> {
    m + Padding(|m|, LengthField(|m|))
  }

  function WordBytes(x: Word): seq<Byte> {
    [LowByte(x), LowByte(x >> 8), LowByte(x >> 16), LowByte(x >> 24)]
  }

  function QuadBytes(q: Quad): seq<Byte> {
    WordBytes(q.a) + WordBytes(q.b) + WordBytes(q.c) + WordBytes(q.d)
  }

  /** The digest of a whole message. */
  function Digest(m: seq<Byte>): seq<Byte> {
    QuadBytes(Fold(Block, START, Padded(m)))
  }

  // ---------------------------------------------------------------- the byte count

  /** ctx->bytes holds the number of bytes, modulo 2^64. */
  ghost predicate Counts(n: nat, lo: nat, hi: nat) {
    lo == n % M32 && hi == n / M32 % M32
  }

  /** The number of bytes in the buffer. */
  function Buffered(bytes0: nat): nat { bytes0 % 64 }

  /** What goes into in[15]. */
  function SecondWord(hi: nat, lo: nat): nat {
    hi * 8 % M32 + lo / 0x2000_0000
  }

  lemma CountsAdd(n: nat, c: nat, lo: nat, hi: nat, lo': nat, hi': nat)
    requires Counts(n, lo, hi) && c < M32 && lo' == (lo + c) % M32
    requires hi' == if lo' < lo then (hi + 1) % M32 else hi
    ensures Counts(n + c, lo', hi')
  {
    LowCarry(n, c);
    ModAdd(hi, n / M32, 1);
  }

  lemma CountTail(n: nat)
    ensures n % M32 % 64 == n % 64
  {
    ModShift(n % M32, n / M32 * 0x400_0000);
    assert n == n % M32 + 64 * (n / M32 * 0x400_0000);
  }

  /** The two words in[14] and in[15]: the byte count times eight. */
  lemma LengthWords(n: nat, lo: nat, hi: nat)
    requires Counts(n, lo, hi)
    ensures lo * 8 % M32 == 8 * n % M32
    ensures SecondWord(hi, lo) == 8 * n % M64 / M32
  {
    var q := n / M32;
    assert n == M32 * q + lo;
    var a, b := lo / 0x2000_0000, lo % 0x2000_0000;
    assert lo * 8 == M32 * a + 8 * b;
    DivUnique(lo * 8, a, 8 * b);
    DivUnique(8 * n, 8 * q + a, 8 * b);
    HighWord(8 * n);
    var p, r := q / 0x2000_0000, q % 0x2000_0000;
    assert q == 0x2000_0000 * p + r;
    DivUnique(8 * q + a, p, 8 * r + a);
    var k := q / M32;
    assert q == M32 * k + hi;
    DivUnique(8 * q, p, 8 * r);
    assert hi * 8 % M32 == 8 * r by { ModShift32(hi * 8, 8 * k); }
  }

  lemma ModShift32(a: nat, k: nat)
    ensures (a + M32 * k) % M32 == a % M32
  {
  }

  /** The number that bytes spell, least significant first. */
  function Spelled(s: seq<Byte>): nat {
    if s == [] then 0 else s[0] + 256 * Spelled(s[1..])
  }

  lemma SpelledPrepend(b: Byte, s: seq<Byte>)
    ensures Spelled([b] + s) == b + 256 * Spelled(s)
  {
    assert ([b] + s)[1..] == s;
  }

  lemma Spelled4(x: nat, s: seq<Byte>)
    requires x < M32
    ensures Spelled(Little4(x) + s) == x + M32 * Spelled(s)
  {
    hide Spelled;
    var a, b, c := x / 0x100_0000, x / 0x1_0000, x / 0x100;
    assert Little4(x) + s == [Low8(x)] + ([Low8(c)] + ([Low8(b)] + ([Low8(a)] + s)));
    SpelledPrepend(Low8(a), s);
    SpelledPrepend(Low8(b), [Low8(a)] + s);
    SpelledPrepend(Low8(c), [Low8(b)] + ([Low8(a)] + s));
    SpelledPrepend(Low8(x), [Low8(c)] + ([Low8(b)] + ([Low8(a)] + s)));
    FourDigits(x);
  }

  /** The length field spells the number of bits of the message, modulo 2^64. */
  lemma LengthFieldValue(n: nat)
    ensures Spelled(LengthField(n)) == 8 * n % M64
  {
    hide Little4;
    var x := 8 * n % M64;
    assert x % M32 == 8 * n % M32 by { Mod64(8 * n); }
    Spelled4(x / M32, []);
    Spelled4(x % M32, Little4(x / M32));
    assert Little4(x / M32) + [] == Little4(x / M32);
  }

  // ---------------------------------------------------------------- the context

  /** struct MD5Context, with the buffer as bytes. The ghost field is the message fed so far. */
  class Md5 {
    var buf: Quad
    var bytes0: nat
    var bytes1: nat
    const data: array<Byte>
    ghost var msg: seq<Byte>

    /** The state is the fold over the full blocks, the buffer holds the tail, the counters the length. */
    ghost predicate Valid()
      reads this, data
    {
      && data.Length == 64 && |Tail(msg)| < 64 && data[..|Tail(msg)|] == Tail(msg)
      && buf == Fold(Block, START, msg) && Counts(|msg|, bytes0, bytes1)
    }

    /** MD5Init. */
    constructor ()
      ensures Valid() && msg == [] && fresh(data)
    {
      hide Fold, Block, Counts, Tail;
      buf, bytes0, bytes1, msg := START, 0, 0, [];
      data := new Byte[64](i => 0);
      NothingFed();
    }

    /** MD5Transform on the words of the buffer. */
    method Transform()
      requires data.Length == 64
      modifies this`buf
      ensures buf == Block(old(buf), data[..])
    {
      hide LittleEndian, Bits, Steps, Sum;
      var x := seq(16, i requires 0 <= i < 16 && data.Length == 64 reads this, data =>
        LittleEndian(Bits(data[4 * i]), Bits(data[4 * i + 1]), Bits(data[4 * i + 2]), Bits(data[4 * i + 3])));
      assert x == Words(data[..]);
      buf := Md5Transform(buf, x);
    }

    /** Full blocks straight from the input; what is left stays in the buffer. */
    method Absorb(input: seq<Byte>)
      requires data.Length == 64
      modifies this`buf, data
      ensures buf == Fold(Block, old(buf), input) && |Tail(input)| < 64 && data[..|Tail(input)|] == Tail(input)
    {
      hide Fold, Block, Tail;
      var rest := input;
      while |rest| >= 64
        invariant Fold(Block, buf, rest) == Fold(Block, old(buf), input) && Tail(rest) == Tail(input)
        decreases |rest|
      {
        Copy(data, 0, rest[..64]);
        assert data[..] == rest[..64];
        FirstBlock(Block, buf, rest, rest[..64], rest[64..]);
        Transform();
        rest := rest[64..];
      }
      Copy(data, 0, rest);
      ShortFold(Block, buf, rest);
    }

    /** MD5Update: the context has now seen the input too. */
    method Update(input: seq<Byte>)
      requires Valid() && |input| < M32
      modifies this, data
      ensures Valid() && msg == old(msg) + input
    {
      hide Fold, Block, Tail, Counts;
      CountsMeans(|msg|, bytes0, bytes1);
      CountTail(|msg|);
      TailLen(msg);
      var t := bytes0;
      bytes0 := (t + |input|) % M32;
      if bytes0 < t { bytes1 := (bytes1 + 1) % M32; }
      CountsAdd(|msg|, |input|, t, old(bytes1), bytes0, bytes1);
      t := 64 - Buffered(t);
      if t > |input| {
        Copy(data, 64 - t, input);
        FeedShort(Block, START, msg, input);
        msg := msg + input;
        assert data[..|Tail(msg)|] == Tail(msg);
        return;
      }
      Copy(data, 64 - t, input[..t]);
      assert data[..] == Tail(msg) + input[..t];
      FeedBlock(Block, START, msg, input, t);
      Transform();
      msg := msg + input;
      Absorb(input[t..]);
    }

    /** Padding up to the length field. */
    method PadBuffer(count0: nat, ghost len8: seq<Byte>)
      requires Valid() && count0 == |Tail(msg)| && |len8| == 8
      modifies this`buf, data
      ensures Block(buf, data[..56] + len8) == Fold(Block, START, msg + Padding(|msg|, len8))
    {
      hide Fold, Block, Tail, Counts, Padding, Zeros;
      ghost var t := Tail(msg);
      var p := count0;
      Copy(data, p, [0x80]);
      p := p + 1;
      assert data[..p] == t + [0x80];
      var count := 56 - 1 - count0;
      if count < 0 {
        TwoBlockPad(Block, START, msg, len8, t);
        Copy(data, p, Zeros(count + 8));
        assert data[..] == t + [0x80] + Zeros(63 - |t|);
        Transform();
        p, count := 0, 56;
      } else {
        OneBlockPad(Block, START, msg, len8, t);
      }
      Copy(data, p, Zeros(count));
      assert count0 > 55 ==> data[..56] == Zeros(56);
      assert count0 <= 55 ==> data[..56] == t + [0x80] + Zeros(55 - |t|);
    }

    /** MD5Final: pads, in one block or two, and returns the digest of everything fed. The or of the
        second length word is a sum, as BitMasks.LengthWord shows. */
    method Final() returns (out: seq<Byte>)
      requires Valid()
      modifies this, data
      ensures out == Digest(old(msg))
    {
      hide Fold, Block, Tail, Counts, QuadBytes, Little4, Padding, Zeros;
      CountsMeans(|msg|, bytes0, bytes1);
      CountTail(|msg|);
      TailLen(msg);
      LengthWords(|msg|, bytes0, bytes1);
      ghost var len8 := LengthField(|msg|);
      PadBuffer(Buffered(bytes0), len8);
      ghost var head := data[..56];
      Copy(data, 56, Little4(bytes0 * 8 % M32));
      Copy(data, 60, Little4(SecondWord(bytes1, bytes0)));
      assert data[..] == head + len8;
      Transform();
      out := QuadBytes(buf);
    }
  }

  lemma NothingFed()
    ensures Fold(Block, START, []) == START && Tail([]) == [] && Counts(0, 0, 0)
  {
    hide Block;
    NoFold(Block, START, []);
    ShortTail([]);
  }

  lemma CountsMeans(n: nat, lo: nat, hi: nat)
    ensures Counts(n, lo, hi) <==> lo == n % M32 && hi == n / M32 % M32
  {
  }

  /** However a message is cut into pieces, the digest is that of the whole. */
  method DigestOfPieces(pieces: seq<seq<Byte>>) returns (out: seq<Byte>)
    requires forall i :: 0 <= i < |pieces| ==> |pieces[i]| < M32
    ensures out == Digest(Joined(pieces))
  {
    hide Digest, Fold, Block, Tail, Counts, Joined;
    var ctx := new Md5();
    var i := 0;
    assert Joined(pieces[..0]) == [] by { JoinedNone(pieces[..0]); }
    while i < |pieces|
      invariant 0 <= i <= |pieces| && ctx.Valid() && fresh(ctx) && fresh(ctx.data) && ctx.msg == Joined(pieces[..i])
    {
      JoinedNext(pieces, i);
      ctx.Update(pieces[i]);
      i := i + 1;
    }
    assert pieces[..i] == pieces;
    out := ctx.Final();
  }
}
