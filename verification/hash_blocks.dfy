/** What block hashes have in common: a compression function folded over the 64-byte blocks of a padded
    message, and the part of it an incremental implementation holds at any time. */
module HashBlocks {
  import opened Common

  type Compress<!H> = (H, seq<Byte>) -> H

  /** The compression function folded over the full blocks of m. */
  function Fold<H>(f: Compress<H>, h: H, m: seq<Byte>): H
    decreases |m|
  {
    if |m| < 64 then h else Fold(f, f(h, m[..64]), m[64..])
  }

  /** The bytes after the last full block. */
  function Tail(m: seq<Byte>): seq<Byte> {
    m[|m| - |m| % 64..]
  }

  lemma {:induction false} FoldConcat<H>(f: Compress<H>, h: H, a: seq<Byte>, b: seq<Byte>)
    requires |a| % 64 == 0
    ensures Fold(f, h, a + b) == Fold(f, Fold(f, h, a), b)
    decreases |a|
  {
    if a == [] {
      assert a + b == b;
    } else {
      assert (a + b)[..64] == a[..64] && (a + b)[64..] == a[64..] + b;
      FoldConcat(f, f(h, a[..64]), a[64..], b);
    }
  }

  /** Feeding x to a state that has seen m: only the tail of m still matters. */
  lemma {:induction false} Feed<H>(f: Compress<H>, h: H, m: seq<Byte>, x: seq<Byte>)
    ensures Fold(f, h, m + x) == Fold(f, Fold(f, h, m), Tail(m) + x)
    ensures Tail(m + x) == Tail(Tail(m) + x)
  {
    var k := |m| - |m| % 64;
    assert m == m[..k] + Tail(m);
    assert m + x == m[..k] + (Tail(m) + x);
    FoldConcat(f, h, m[..k], Tail(m) + x);
    FoldConcat(f, h, m[..k], Tail(m));
    TailConcat(m[..k], Tail(m) + x);
  }

  lemma TailConcat(a: seq<Byte>, b: seq<Byte>)
    requires |a| % 64 == 0
    ensures Tail(a + b) == Tail(b)
  {
    assert |a + b| % 64 == |b| % 64;
  }

  /** A short message is its own tail, a message of one block has none. */
  lemma ShortFold<H>(f: Compress<H>, h: H, m: seq<Byte>)
    ensures |m| < 64 ==> Fold(f, h, m) == h && Tail(m) == m
    ensures |m| == 64 ==> Fold(f, h, m) == f(h, m) && Tail(m) == []
  {
    hide *;
    ShortTail(m);
    if |m| < 64 { NoFold(f, h, m); }
    if |m| == 64 { OneFold(f, h, m); }
  }

  lemma NoFold<H>(f: Compress<H>, h: H, m: seq<Byte>)
    requires |m| < 64
    ensures Fold(f, h, m) == h
  {
  }

  lemma OneFold<H>(f: Compress<H>, h: H, m: seq<Byte>)
    requires |m| == 64
    ensures Fold(f, h, m) == f(h, m)
  {
    assert m[..64] == m;
    NoFold(f, f(h, m), m[64..]);
  }

  lemma ShortTail(m: seq<Byte>)
    ensures |m| < 64 ==> Tail(m) == m
    ensures |m| == 64 ==> Tail(m) == []
  {
  }

  /** Taking one block off the front. */
  lemma FirstBlock<H>(f: Compress<H>, h: H, m: seq<Byte>, b: seq<Byte>, rest: seq<Byte>)
    requires m == b + rest && |b| == 64
    ensures Fold(f, h, m) == Fold(f, f(h, b), rest) && Tail(m) == Tail(rest)
  {
    assert m[..64] == b && m[64..] == rest;
    TailConcat(b, rest);
  }

  /** Input that does not fill the block only adds to the tail. */
  lemma FeedShort<H>(f: Compress<H>, h: H, m: seq<Byte>, x: seq<Byte>)
    requires |Tail(m)| + |x| < 64
    ensures Fold(f, h, m + x) == Fold(f, h, m) && Tail(m + x) == Tail(m) + x
  {
    hide *;
    Feed(f, h, m, x);
    ShortFold(f, Fold(f, h, m), Tail(m) + x);
  }

  /** Input that fills the block: the block goes first, then the rest of the input. */
  lemma FeedBlock<H>(f: Compress<H>, h: H, m: seq<Byte>, x: seq<Byte>, i: nat)
    requires |Tail(m)| + i == 64 && i <= |x|
    ensures Fold(f, h, m + x) == Fold(f, f(Fold(f, h, m), Tail(m) + x[..i]), x[i..]) && Tail(m + x) == Tail(x[i..])
  {
    hide *;
    Feed(f, h, m, x);
    var t := Tail(m);
    assert t + x == (t + x[..i]) + x[i..];
    FirstBlock(f, Fold(f, h, m), t + x, t + x[..i], x[i..]);
  }

  // ---------------------------------------------------------------- padding

  function Zeros(n: nat): (r: seq<Byte>)
    ensures |r| == n
  {
    seq(n, i => 0)
  }

  /** How many zero bytes follow the 0x80 of a message of n bytes. */
  function ZeroCount(n: nat): nat {
    (55 - n) % 64
  }

  /** One 1 bit, zeros, and the length: eight bytes. */
  function Padding(n: nat, len8: seq<Byte>): seq<Byte> {
    [0x80] + Zeros(ZeroCount(n)) + len8
  }

  /** The padding fills the last block, and no smaller number of zeros would. */
  lemma PaddingFills(n: nat, len8: seq<Byte>, k: nat)
    requires |len8| == 8
    ensures (n + |Padding(n, len8)|) % 64 == 0
    ensures (n + 1 + k + 8) % 64 == 0 ==> k >= ZeroCount(n)
  {
  }

  lemma ZerosSplit(a: nat, b: nat)
    ensures Zeros(a + b) == Zeros(a) + Zeros(b)
  {
  }

  lemma CountZeros(n: nat, m: nat)
    requires m == n % 64
    ensures ZeroCount(n) == if m <= 55 then 55 - m else (63 - m) + 56
  {
  }

  lemma Associate(a: seq<Byte>, b: seq<Byte>, c: seq<Byte>, d: seq<Byte>)
    ensures a + (b + c + d) == a + b + c + d
  {
  }

  /** Padding after the tail fits the current block. */
  lemma OneBlockPad<H>(f: Compress<H>, h: H, m: seq<Byte>, len8: seq<Byte>, t: seq<Byte>)
    requires |len8| == 8 && t == Tail(m) && |t| <= 55
    ensures Fold(f, h, m + Padding(|m|, len8)) == f(Fold(f, h, m), t + [0x80] + Zeros(55 - |t|) + len8)
  {
    hide *;
    Feed(f, h, m, Padding(|m|, len8));
    TailPadding(m, len8);
    assert t + Padding(|m|, len8) == t + [0x80] + Zeros(55 - |t|) + len8 by {
      Associate(t, [0x80], Zeros(55 - |t|), len8);
    }
    ZerosLen(55 - |t|);
    ShortFold(f, Fold(f, h, m), t + Padding(|m|, len8));
  }

  lemma TailPadding(m: seq<Byte>, len8: seq<Byte>)
    ensures var k := |Tail(m)|;
            k < 64 && Padding(|m|, len8) == [0x80] + Zeros(if k <= 55 then 55 - k else (63 - k) + 56) + len8
  {
    hide Zeros;
    CountZeros(|m|, |Tail(m)|);
  }

  lemma ZerosLen(n: nat)
    ensures |Zeros(n)| == n
  {
  }

  /** Padding after the tail needs an extra block. */
  lemma TwoBlockPad<H>(f: Compress<H>, h: H, m: seq<Byte>, len8: seq<Byte>, t: seq<Byte>)
    requires |len8| == 8 && t == Tail(m) && |t| > 55
    ensures Fold(f, h, m + Padding(|m|, len8))
         == f(f(Fold(f, h, m), t + [0x80] + Zeros(63 - |t|)), Zeros(56) + len8)
  {
    hide *;
    Feed(f, h, m, Padding(|m|, len8));
    TailPadding(m, len8);
    ZerosSplit(63 - |t|, 56);
    ZerosLen(63 - |t|);
    ZerosLen(56);
    var b, c := t + [0x80] + Zeros(63 - |t|), Zeros(56) + len8;
    SplitPad(t, [0x80], Zeros(63 - |t|), Zeros(56), len8);
    FirstBlock(f, Fold(f, h, m), t + Padding(|m|, len8), b, c);
    ShortFold(f, f(Fold(f, h, m), b), c);
  }

  lemma SplitPad(a: seq<Byte>, b: seq<Byte>, c: seq<Byte>, d: seq<Byte>, e: seq<Byte>)
    ensures a + (b + (c + d) + e) == (a + b + c) + (d + e)
  {
  }

  // ---------------------------------------------------------------- pieces

  /** A message handed over in pieces. */
  function Joined(pieces: seq<seq<Byte>>): seq<Byte> {
    if pieces == [] then [] else Joined(pieces[..|pieces| - 1]) + pieces[|pieces| - 1]
  }

  lemma JoinedNone(pieces: seq<seq<Byte>>)
    requires pieces == []
    ensures Joined(pieces) == []
  {
  }

  lemma JoinedNext(pieces: seq<seq<Byte>>, i: nat)
    requires i < |pieces|
    ensures Joined(pieces[..i + 1]) == Joined(pieces[..i]) + pieces[i]
  {
    assert pieces[..i + 1][..i] == pieces[..i];
  }
}
