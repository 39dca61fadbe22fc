/** Base64 as src/buffer.c writes and reads it (section 4 of RFC 4648). Shifts and masks are written as
    arithmetic; BitMasks shows that they are the same. */
module Base64 {
  import opened Common

  type Sextet = x: int | 0 <= x < 64

  /** base64tab. */
  function Letter(x: Sextet): Byte {
    if x < 26 then 65 + x
    else if x < 52 then 97 + (x - 26)
    else if x < 62 then 48 + (x - 52)
    else if x == 62 then 43 else 47
  }

  /** b64_decode_tab: -1 for everything outside the alphabet. */
  function Decoded(c: Byte): int
    ensures -1 <= Decoded(c) < 64
  {
    if c == 43 then 62
    else if c == 47 then 63
    else if 48 <= c <= 57 then 52 + (c - 48)
    else if 65 <= c <= 90 then c - 65
    else if 97 <= c <= 122 then 26 + (c - 97)
    else -1
  }

  const PAD: Byte := 61

  /** The two tables are inverse to each other. */
  lemma TablesInverse(x: Sextet, c: Byte)
    ensures Decoded(Letter(x)) == x
    ensures Decoded(c) != -1 ==> Letter(Decoded(c)) == c
    ensures Decoded(PAD) == -1
  {
  }

  /** The alphabet of section 4 of RFC 4648, and its padding character. */
  lemma AlphabetIs(x: Sextet)
    ensures x < 26 ==> Letter(x) == 'A' as int + x
    ensures 26 <= x < 52 ==> Letter(x) == 'a' as int + (x - 26)
    ensures 52 <= x < 62 ==> Letter(x) == '0' as int + (x - 52)
    ensures x == 62 ==> Letter(x) == '+' as int
    ensures x == 63 ==> Letter(x) == '/' as int
    ensures PAD == '=' as int == 61
  {
  }

  // ---------------------------------------------------------------- encoder

  /** Three bytes as four sextets. */
  function First(a: Byte): Sextet { a / 4 }
  function Second(a: Byte, b: Byte): Sextet { a % 4 * 16 + b / 16 }
  function Third(b: Byte, c: Byte): Sextet { b % 16 * 4 + c / 64 }
  function Fourth(c: Byte): Sextet { c % 64 }

  function Group(a: Byte, b: Byte, c: Byte): seq<Byte> {
    [Letter(First(a)), Letter(Second(a, b)), Letter(Third(b, c)), Letter(Fourth(c))]
  }

  /** The text of s: groups of four letters, the last one padded. */
  function Encode(s: seq<Byte>): seq<Byte> {
    if |s| == 0 then []
    else if |s| == 1 then Group(s[0], 0, 0)[..2] + [PAD, PAD]
    else if |s| == 2 then Group(s[0], s[1], 0)[..3] + [PAD]
    else Group(s[0], s[1], s[2]) + Encode(s[3..])
  }

  // ---------------------------------------------------------------- decoder

  /** The sextets of a text; characters outside the alphabet are skipped. */
  function Sextets(t: seq<Byte>): seq<Sextet> {
    if t == [] then []
    else
      var q, d := Sextets(t[..|t| - 1]), Decoded(t[|t| - 1]);
      if d == -1 then q else q + [d]
  }

  function Byte1(p: Sextet, d: Sextet): Byte { p * 4 + d / 16 }
  function Byte2(p: Sextet, d: Sextet): Byte { p % 16 * 16 + d / 4 }
  function Byte3(p: Sextet, d: Sextet): Byte { p % 4 * 64 + d }

  /** The bytes that sextets spell: three for four, and the whole ones of a short last group. */
  function Unpack(q: seq<Sextet>): seq<Byte> {
    if |q| < 2 then []
    else if |q| == 2 then [Byte1(q[0], q[1])]
    else if |q| == 3 then [Byte1(q[0], q[1]), Byte2(q[1], q[2])]
    else [Byte1(q[0], q[1]), Byte2(q[1], q[2]), Byte3(q[2], q[3])] + Unpack(q[4..])
  }

  function Decode(t: seq<Byte>): seq<Byte> {
    Unpack(Sextets(t))
  }

  /** One more sextet: nothing, or one byte made of it and the one before. */
  function Emitted(q: seq<Sextet>, d: Sextet): seq<Byte> {
    if |q| % 4 == 0 then []
    else if |q| % 4 == 1 then [Byte1(q[|q| - 1], d)]
    else if |q| % 4 == 2 then [Byte2(q[|q| - 1], d)]
    else [Byte3(q[|q| - 1], d)]
  }

  lemma {:induction false} UnpackNext(q: seq<Sextet>, d: Sextet)
    ensures Unpack(q + [d]) == Unpack(q) + Emitted(q, d)
    decreases |q|
  {
    hide Byte1, Byte2, Byte3, Unpack, Emitted;
    if |q| >= 4 {
      EmittedTail(q, d);
      assert (q + [d])[4..] == q[4..] + [d];
      UnpackNext(q[4..], d);
      UnpackGroup(q);
      UnpackGroup(q + [d]);
      Reassociate([Byte1(q[0], q[1]), Byte2(q[1], q[2]), Byte3(q[2], q[3])], Unpack(q[4..]), Emitted(q[4..], d));
    } else {
      UnpackShort(q, d);
    }
  }

  lemma EmittedTail(q: seq<Sextet>, d: Sextet)
    requires |q| >= 4
    ensures Emitted(q, d) == Emitted(q[4..], d)
  {
    hide Byte1, Byte2, Byte3;
    assert |q[4..]| % 4 == |q| % 4;
  }

  /** Sextets spell fewer bytes than there are sextets. */
  lemma {:induction false} UnpackShrinks(q: seq<Sextet>)
    ensures |Unpack(q)| <= |q|
    decreases |q|
  {
    hide Byte1, Byte2, Byte3;
    if |q| >= 4 { UnpackShrinks(q[4..]); }
  }

  lemma UnpackGroup(q: seq<Sextet>)
    requires |q| >= 4
    ensures Unpack(q) == [Byte1(q[0], q[1]), Byte2(q[1], q[2]), Byte3(q[2], q[3])] + Unpack(q[4..])
  {
  }

  lemma UnpackShort(q: seq<Sextet>, d: Sextet)
    requires |q| < 4
    ensures Unpack(q + [d]) == Unpack(q) + Emitted(q, d)
  {
    hide *;
    UnpackFew(q);
    EmittedFew(q, d);
    if |q| == 3 {
      Last3(q, d);
    } else {
      var r := q + [d];
      assert r[|q|] == d && forall k :: 0 <= k < |q| ==> r[k] == q[k];
      UnpackFew(r);
    }
  }

  lemma Last3(q: seq<Sextet>, d: Sextet)
    requires |q| == 3
    ensures Unpack(q + [d]) == [Byte1(q[0], q[1]), Byte2(q[1], q[2]), Byte3(q[2], d)]
  {
    hide *;
    assert q + [d] == [q[0], q[1], q[2], d];
    UnpackFour(q[0], q[1], q[2], d);
  }

  lemma EmittedFew(q: seq<Sextet>, d: Sextet)
    requires |q| < 4
    ensures |q| == 0 ==> Emitted(q, d) == []
    ensures |q| == 1 ==> Emitted(q, d) == [Byte1(q[0], d)]
    ensures |q| == 2 ==> Emitted(q, d) == [Byte2(q[1], d)]
    ensures |q| == 3 ==> Emitted(q, d) == [Byte3(q[2], d)]
  {
    hide Byte1, Byte2, Byte3;
  }

  lemma UnpackFour(a: Sextet, b: Sextet, c: Sextet, d: Sextet)
    ensures Unpack([a, b, c, d]) == [Byte1(a, b), Byte2(b, c), Byte3(c, d)]
  {
    hide Byte1, Byte2, Byte3;
    assert [a, b, c, d][4..] == [];
  }

  lemma UnpackFew(q: seq<Sextet>)
    requires |q| < 4
    ensures |q| < 2 ==> Unpack(q) == []
    ensures |q| == 2 ==> Unpack(q) == [Byte1(q[0], q[1])]
    ensures |q| == 3 ==> Unpack(q) == [Byte1(q[0], q[1]), Byte2(q[1], q[2])]
  {
    hide Byte1, Byte2, Byte3;
  }

  lemma {:induction false} SextetsConcat(s: seq<Byte>, t: seq<Byte>)
    ensures Sextets(s + t) == Sextets(s) + Sextets(t)
    decreases |t|
  {
    if t == [] {
      assert s + t == s;
    } else {
      assert (s + t)[..|s + t| - 1] == s + t[..|t| - 1];
      SextetsConcat(s, t[..|t| - 1]);
    }
  }

  lemma {:induction false} UnpackConcat(q: seq<Sextet>, r: seq<Sextet>)
    requires |q| == 4
    ensures Unpack(q + r) == Unpack(q) + Unpack(r)
  {
    hide Byte1, Byte2, Byte3;
    assert (q + r)[4..] == r && q[4..] == [];
  }

  // ---------------------------------------------------------------- round trip

  lemma SextetsOf4(a: Byte, b: Byte, c: Byte, d: Byte)
    ensures Sextets([a, b, c, d]) == Sextets([a]) + Sextets([b]) + Sextets([c]) + Sextets([d])
  {
    hide Sextets;
    SextetsConcat([a], [b]);
    SextetsConcat([a, b], [c]);
    SextetsConcat([a, b, c], [d]);
    assert [a] + [b] == [a, b] && [a, b] + [c] == [a, b, c] && [a, b, c] + [d] == [a, b, c, d];
  }

  lemma SextetsOf1(c: Byte)
    ensures Sextets([c]) == if Decoded(c) == -1 then [] else [Decoded(c)]
  {
    assert [c][..0] == [];
  }

  lemma SextetsOfLetter(x: Sextet)
    ensures Sextets([Letter(x)]) == [x] && Sextets([PAD]) == []
  {
    hide Sextets, Letter, Decoded;
    TablesInverse(x, PAD);
    SextetsOf1(Letter(x));
    SextetsOf1(PAD);
  }

  /** A full group decodes to its three bytes, whatever follows. */
  lemma GroupBack(a: Byte, b: Byte, c: Byte)
    ensures Sextets(Group(a, b, c)) == [First(a), Second(a, b), Third(b, c), Fourth(c)]
    ensures Sextets(Group(a, b, c)[..3] + [PAD]) == [First(a), Second(a, b), Third(b, c)]
    ensures Sextets(Group(a, b, c)[..2] + [PAD, PAD]) == [First(a), Second(a, b)]
  {
    hide Sextets, Letter, Decoded, First, Second, Third, Fourth;
    SextetsOfLetter(First(a));
    SextetsOfLetter(Second(a, b));
    SextetsOfLetter(Third(b, c));
    SextetsOfLetter(Fourth(c));
    SextetsOf4(Letter(First(a)), Letter(Second(a, b)), Letter(Third(b, c)), Letter(Fourth(c)));
    SextetsOf4(Letter(First(a)), Letter(Second(a, b)), Letter(Third(b, c)), PAD);
    SextetsOf4(Letter(First(a)), Letter(Second(a, b)), PAD, PAD);
    assert Group(a, b, c)[..3] + [PAD] == [Letter(First(a)), Letter(Second(a, b)), Letter(Third(b, c)), PAD];
    assert Group(a, b, c)[..2] + [PAD, PAD] == [Letter(First(a)), Letter(Second(a, b)), PAD, PAD];
  }

  lemma BytesBack(a: Byte, b: Byte, c: Byte)
    ensures Byte1(First(a), Second(a, b)) == a
    ensures Byte2(Second(a, b), Third(b, c)) == b
    ensures Byte3(Third(b, c), Fourth(c)) == c
  {
  }

  /** Decoding an encoded string gives it back, for every string of bytes. */
  lemma {:induction false} RoundTrip(s: seq<Byte>)
    ensures Decode(Encode(s)) == s
    decreases |s|
  {
    hide Sextets, Group, First, Second, Third, Fourth, Byte1, Byte2, Byte3;
    if |s| == 0 {
      assert Sextets([]) == [] by { SextetsOfNone(); }
    } else if |s| == 1 {
      GroupBack(s[0], 0, 0);
      BytesBack(s[0], 0, 0);
      assert s == [s[0]];
    } else if |s| == 2 {
      GroupBack(s[0], s[1], 0);
      BytesBack(s[0], s[1], 0);
      assert s == [s[0], s[1]];
    } else {
      RoundTrip(s[3..]);
      GroupBack(s[0], s[1], s[2]);
      BytesBack(s[0], s[1], s[2]);
      SextetsConcat(Group(s[0], s[1], s[2]), Encode(s[3..]));
      UnpackConcat([First(s[0]), Second(s[0], s[1]), Third(s[1], s[2]), Fourth(s[2])], Sextets(Encode(s[3..])));
      assert s == [s[0], s[1], s[2]] + s[3..];
    }
  }

  lemma SextetsOfNone()
    ensures Sextets([]) == []
  {
  }

  /** The output is plain text: no byte of it is negative as a char. */
  lemma {:induction false} EncodeIsText(s: seq<Byte>, k: nat)
    requires k < |Encode(s)|
    ensures Encode(s)[k] < 128
    decreases |s|
  {
    hide Group;
    GroupIsText(s[0], if |s| > 1 then s[1] else 0, if |s| > 2 then s[2] else 0);
    if |s| >= 3 && k >= 4 { EncodeIsText(s[3..], k - 4); }
  }

  lemma LetterIsText(x: Sextet)
    ensures Letter(x) < 128
  {
  }

  lemma GroupIsText(a: Byte, b: Byte, c: Byte)
    ensures |Group(a, b, c)| == 4 && forall k :: 0 <= k < 4 ==> Group(a, b, c)[k] < 128
  {
    hide Letter, First, Second, Third, Fourth;
    LetterIsText(First(a));
    LetterIsText(Second(a, b));
    LetterIsText(Third(b, c));
    LetterIsText(Fourth(c));
  }

  // ---------------------------------------------------------------- the code

  /** http2d_buffer_encode_base64, on a destination with the size the code asks for. */
  method EncodeBase64(src: seq<Byte>, out: array<Byte>) returns (len: nat)
    requires out.Length >= (|src| + 4) * 4 / 3 + 1
    modifies out
    ensures len < out.Length && out[..len] == Encode(src) && out[len] == 0
  {
    hide Letter, First, Second, Third, Fourth, Encode;
    var i, j := 0, 0;
    var n := |src|;
    ghost var k := 0;
    assert src[0..] == src;
    while i < n
      invariant i == 3 * k && j == 4 * k && 3 * k <= n + 2 && j < out.Length
      invariant out[..j] + Encode(From(src, i)) == Encode(src)
      decreases n - i
    {
      EncodeStep(src, i);
      var a, b, c := src[i], if i + 1 < |src| then src[i + 1] else 0, if i + 2 < |src| then src[i + 2] else 0;
      var d, e, f, g := Letter(First(a)), Letter(Second(a, b)), Letter(Third(b, c)), Letter(Fourth(c));
      if i + 1 >= |src| { f := PAD; }
      if i + 2 >= |src| { g := PAD; }
      Reassociate(out[..j], [d, e, f, g], Encode(From(src, i + 3)));
      PutGroup(out, j, [d, e, f, g]);
      j := j + 4;
      i := i + 3;
      k := k + 1;
    }
    EncodeEmpty(From(src, i));
    out[j] := 0;
    len := j;
  }

  method PutGroup(out: array<Byte>, j: nat, g: seq<Byte>)
    requires j + 4 <= out.Length && |g| == 4
    modifies out
    ensures out[..j + 4] == old(out[..j]) + g
  {
    out[j] := g[0];
    out[j + 1] := g[1];
    out[j + 2] := g[2];
    out[j + 3] := g[3];
  }

  /** What is left of s from position i on. */
  function From(s: seq<Byte>, i: nat): seq<Byte> {
    if i < |s| then s[i..] else []
  }

  lemma EncodeEmpty(s: seq<Byte>)
    requires s == []
    ensures Encode(s) == []
  {
  }

  /** The group that starts at position i. */
  lemma EncodeStep(s: seq<Byte>, i: nat)
    requires i < |s|
    ensures var a, b, c := s[i], if i + 1 < |s| then s[i + 1] else 0, if i + 2 < |s| then s[i + 2] else 0;
            Encode(From(s, i)) == [Letter(First(a)), Letter(Second(a, b)),
                               if i + 1 < |s| then Letter(Third(b, c)) else PAD,
                               if i + 2 < |s| then Letter(Fourth(c)) else PAD]
                              + Encode(From(s, i + 3))
  {
    hide Letter, First, Second, Third, Fourth;
    var t := s[i..];
    if |t| >= 3 { assert t[3..] == s[i + 3..]; }
  }

  lemma SextetsNext(t: seq<Byte>, i: nat)
    requires i < |t|
    ensures Sextets(t[..i + 1]) == Sextets(t[..i]) + if Decoded(t[i]) == -1 then [] else [Decoded(t[i])]
  {
    hide Decoded;
    assert t[..i + 1][..i] == t[..i];
  }

  lemma {:induction false} SextetsCount(t: seq<Byte>)
    ensures |Sextets(t)| <= |t|
    decreases |t|
  {
    if t != [] { SextetsCount(t[..|t| - 1]); }
  }

  /** The switch on the phase: the byte the decoded sextet completes, if any. */
  method Phase(phase: nat, prev: Sextet, d: Sextet, space: array<Byte>, idx: nat, ghost q: seq<Sextet>)
    returns (phase': nat, idx': nat)
    requires phase == |q| % 4 && (q != [] ==> prev == q[|q| - 1]) && idx < space.Length
    modifies space
    ensures phase' == |q + [d]| % 4 && idx' <= idx + 1 && space[..idx'] == old(space[..idx]) + Emitted(q, d)
  {
    if phase == 0 {
      phase', idx' := 1, idx;
    } else if phase == 1 {
      space[idx] := Byte1(prev, d);
      phase', idx' := 2, idx + 1;
    } else if phase == 2 {
      space[idx] := Byte2(prev, d);
      phase', idx' := 3, idx + 1;
    } else {
      space[idx] := Byte3(prev, d);
      phase', idx' := 0, idx + 1;
    }
  }

  /** What the decoder has done after i characters: all decoded bytes are in the buffer or in the local
      block, and the buffer is untouched from position i on. */
  ghost predicate Halfway(t: seq<Byte>, i: nat, buf: seq<Byte>, at: nat, space: seq<Byte>, idx: nat)
  {
    && i <= |t| < |buf| && idx <= |space| && at + idx <= i
    && buf[i..] == t[i..] + buf[|t|..]
    && buf[..at] + space[..idx] == Decode(t[..i])
  }

  /** A char used as an index. */
  function CharIndex(signed: bool, c: Byte): int {
    if signed && c >= 128 then c as int - 256 else c
  }

  /** One character read, and its byte, if any, put into the local block. */
  lemma OneMore(t: seq<Byte>, i: nat, buf: seq<Byte>, at: nat, space: seq<Byte>, idx: nat, space': seq<Byte>, idx': nat)
    requires Halfway(t, i, buf, at, space, idx) && i < |t| && idx' <= |space'|
    requires var q, d := Sextets(t[..i]), Decoded(t[i]);
             space'[..idx'] == space[..idx] + if d == -1 then [] else Emitted(q, d)
    ensures Halfway(t, i + 1, buf, at, space', idx')
  {
    hide Sextets, Unpack, Emitted, Decoded;
    var q, d := Sextets(t[..i]), Decoded(t[i]);
    SextetsNext(t, i);
    if d != -1 {
      UnpackNext(q, d);
      Reassociate(buf[..at], space[..idx], Emitted(q, d));
    } else {
      assert q + [] == q;
    }
    SextetsCount(t[..i + 1]);
    UnpackShrinks(Sextets(t[..i + 1]));
    assert |buf[..at] + space'[..idx']| == at + idx';
    assert buf[i + 1..] == buf[i..][1..];
  }

  /** A block moved into the buffer. */
  lemma Flushed(t: seq<Byte>, i: nat, buf: seq<Byte>, at: nat, space: seq<Byte>, idx: nat, buf': seq<Byte>)
    requires Halfway(t, i, buf, at, space, idx)
    requires buf' == buf[..at] + space[..idx] + buf[at + idx..]
    ensures Halfway(t, i, buf', at + idx, space, 0)
  {
    hide Decode;
    assert buf'[..at + idx] + space[..0] == buf[..at] + space[..idx];
    assert buf'[i..] == buf[i..] && buf'[|t|..] == buf[|t|..];
  }

  /** The body of the decoding loop up to the flush. */
  method ReadChar(signed: bool, buf: array<Byte>, i: nat, at: nat, space: array<Byte>, spaceIdx: nat, phase: nat,
                  prev: Sextet, ghost t: seq<Byte>) returns (phase': nat, prev': Sextet, idx': nat)
    requires buf != space && i < |t| && (signed ==> t[i] < 128)
    requires Halfway(t, i, buf[..], at, space[..], spaceIdx) && spaceIdx < 127 < space.Length
    requires var q := Sextets(t[..i]); phase == |q| % 4 && (q != [] ==> prev == q[|q| - 1])
    modifies space
    ensures idx' <= 127 && Halfway(t, i + 1, buf[..], at, space[..], idx')
    ensures var q := Sextets(t[..i + 1]); phase' == |q| % 4 && (q != [] ==> prev' == q[|q| - 1])
  {
    hide Decoded, Byte1, Byte2, Byte3, Sextets, Unpack, Emitted, Decode, Halfway;
    ghost var q, before := Sextets(t[..i]), space[..];
    SextetsNext(t, i);
    HalfwayFacts(t, i, buf[..], at, space[..], spaceIdx);
    phase', prev', idx' := phase, prev, spaceIdx;
    var d := Decoded(CharIndex(signed, buf[i]));
    if d != -1 {
      phase', idx' := Phase(phase, prev, d, space, spaceIdx, q);
      prev' := d;
    }
    assert before[..spaceIdx] + [] == before[..spaceIdx];
    OneMore(t, i, buf[..], at, before, spaceIdx, space[..], idx');
  }

  /** http2d_buffer_decode_base64, in place: the write position never passes the read position. The
      buffer holds one byte more than its content, for the terminator. Where char is signed, a byte of
      128 and more would index before the table. */
  method DecodeBase64(signed: bool, buf: array<Byte>, len: nat) returns (len': nat)
    requires len < buf.Length && (signed ==> forall k :: 0 <= k < len ==> buf[k] < 128)
    modifies buf
    ensures len' <= len && buf[..len'] == Decode(old(buf[..len])) && buf[len'] == 0
  {
    hide Decoded, Byte1, Byte2, Byte3, Sextets, Unpack, Emitted, Decode, Halfway;
    var space := new Byte[128](i => 0);
    var spaceIdx: nat, phase: nat, prev: Sextet, at: nat := 0, 0, 0, 0;
    ghost var t := buf[..len];
    var i := 0;
    NothingRead(t, buf[..], space[..]);
    while i < len
      invariant i <= len && Halfway(t, i, buf[..], at, space[..], spaceIdx) && spaceIdx < 127
      invariant var q := Sextets(t[..i]); phase == |q| % 4 && (q != [] ==> prev == q[|q| - 1])
    {
      phase, prev, spaceIdx := ReadChar(signed, buf, i, at, space, spaceIdx, phase, prev, t);
      i := i + 1;
      if spaceIdx == 127 {
        FullFlush(buf, at, space, t, i);
        at, spaceIdx := at + 127, 0;
      }
    }
    HalfwayFacts(t, i, buf[..], at, space[..], spaceIdx);
    assert t[..i] == t;
    LastFlush(buf, at, space, spaceIdx);
    len' := at + spaceIdx;
  }

  /** A full space goes out. */
  method FullFlush(buf: array<Byte>, at: nat, space: array<Byte>, ghost t: seq<Byte>, ghost i: nat)
    requires buf != space && Halfway(t, i, buf[..], at, space[..], 127)
    modifies buf
    ensures Halfway(t, i, buf[..], at + 127, space[..], 0)
  {
    hide Decode, Halfway;
    HalfwayFacts(t, i, buf[..], at, space[..], 127);
    Flushed(t, i, buf[..], at, space[..], 127, buf[..at] + space[..127] + buf[at + 127..]);
    Copy(buf, at, space[..127]);
  }

  /** What is left in space goes out with a terminator. */
  method LastFlush(buf: array<Byte>, at: nat, space: array<Byte>, idx: nat)
    requires buf != space && at + idx < buf.Length && idx < space.Length
    modifies buf, space
    ensures buf[..at + idx] == old(buf[..at] + space[..idx]) && buf[at + idx] == 0
  {
    space[idx] := 0;
    Copy(buf, at, space[..idx + 1]);
  }

  lemma HalfwayFacts(t: seq<Byte>, i: nat, buf: seq<Byte>, at: nat, space: seq<Byte>, idx: nat)
    requires Halfway(t, i, buf, at, space, idx)
    ensures at + idx <= i <= |t| < |buf| && idx <= |space| && buf[..at] + space[..idx] == Decode(t[..i])
    ensures i < |t| ==> buf[i] == t[i]
  {
    hide Decode;
    if i < |t| { assert buf[i] == buf[i..][0] && t[i] == t[i..][0]; }
  }

  lemma NothingRead(t: seq<Byte>, buf: seq<Byte>, space: seq<Byte>)
    requires |t| < |buf| && t == buf[..|t|]
    ensures Halfway(t, 0, buf, 0, space, 0) && Sextets(t[..0]) == []
  {
    assert t[..0] == [];
    SextetsOfNone();
    UnpackFew([]);
    assert buf[0..] == t[0..] + buf[|t|..];
  }

  /** The two functions in a row, whatever the sign of char: every string comes back. */
  method EncodeThenDecode(signed: bool, src: seq<Byte>) returns (buf: array<Byte>, len: nat)
    ensures len < buf.Length && buf[..len] == src && buf[len] == 0
  {
    hide Encode, Decode;
    buf := new Byte[(|src| + 4) * 4 / 3 + 1](i => 0);
    len := EncodeBase64(src, buf);
    forall k | 0 <= k < len ensures buf[k] < 128 {
      EncodeIsText(src, k);
      assert buf[k] == buf[..len][k];
    }
    RoundTrip(src);
    len := DecodeBase64(signed, buf, len);
  }

  /** A byte outside the alphabet, the padding character among them, is skipped wherever it stands. */
  lemma SkipsOutside(a: seq<Byte>, c: Byte, b: seq<Byte>)
    requires !('A' as int <= c <= 'Z' as int) && !('a' as int <= c <= 'z' as int) && !('0' as int <= c <= '9' as int)
    requires c != '+' as int && c != '/' as int
    ensures Decode(a + [c] + b) == Decode(a + b)
  {
    hide Sextets, Unpack;
    SextetsOf1(c);
    SextetsConcat(a, [c]);
    SextetsConcat(a + [c], b);
    SextetsConcat(a, b);
    assert Sextets(a) + [] == Sextets(a);
  }

  // ---------------------------------------------------------------- test vectors

  lemma OneByte(a: Byte)
    ensures Encode([a]) == [Letter(a / 4), Letter(a % 4 * 16), PAD, PAD]
  {
  }

  lemma TwoBytes(a: Byte, b: Byte)
    ensures Encode([a, b]) == [Letter(a / 4), Letter(a % 4 * 16 + b / 16), Letter(b % 16 * 4), PAD]
  {
  }

  lemma ThreeBytes(a: Byte, b: Byte, c: Byte, rest: seq<Byte>)
    ensures Encode([a, b, c] + rest)
         == [Letter(a / 4), Letter(a % 4 * 16 + b / 16), Letter(b % 16 * 4 + c / 64), Letter(c % 64)] + Encode(rest)
  {
    hide Letter;
    assert ([a, b, c] + rest)[3..] == rest;
  }

  /** The test vectors of section 10 of RFC 4648: "f", "fo", "foo" and so on to "foobar". */
  lemma TestVectors()
    ensures Encode([]) == []
    ensures Encode([102]) == [90, 103, 61, 61]
    ensures Encode([102, 111]) == [90, 109, 56, 61]
    ensures Encode([102, 111, 111]) == [90, 109, 57, 118]
    ensures Encode([102, 111, 111, 98]) == [90, 109, 57, 118, 89, 103, 61, 61]
    ensures Encode([102, 111, 111, 98, 97]) == [90, 109, 57, 118, 89, 109, 69, 61]
    ensures Encode([102, 111, 111, 98, 97, 114]) == [90, 109, 57, 118, 89, 109, 70, 121]
  {
    hide Encode;
    NothingEncoded();
    OneByte(102);
    TwoBytes(102, 111);
    var foo: seq<Byte> := [102, 111, 111];
    ThreeBytes(102, 111, 111, []);
    assert foo + [] == foo;
    LaterVectors(foo);
  }

  lemma NothingEncoded()
    ensures Encode([]) == []
  {
  }

  lemma LaterVectors(foo: seq<Byte>)
    requires foo == [102, 111, 111]
    ensures Encode([102, 111, 111, 98]) == [90, 109, 57, 118, 89, 103, 61, 61]
    ensures Encode([102, 111, 111, 98, 97]) == [90, 109, 57, 118, 89, 109, 69, 61]
    ensures Encode([102, 111, 111, 98, 97, 114]) == [90, 109, 57, 118, 89, 109, 70, 121]
  {
    hide Encode;
    NothingEncoded();
    ThreeBytes(102, 111, 111, [98]);
    ThreeBytes(102, 111, 111, [98, 97]);
    ThreeBytes(102, 111, 111, [98, 97, 114]);
    OneByte(98);
    TwoBytes(98, 97);
    ThreeBytes(98, 97, 114, []);
    assert [98, 97, 114] + [] == [98, 97, 114];
    assert foo + [98] == [102, 111, 111, 98] && foo + [98, 97] == [102, 111, 111, 98, 97];
    assert foo + [98, 97, 114] == [102, 111, 111, 98, 97, 114];
  }
}
