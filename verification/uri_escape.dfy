/** Percent escapes as src/buffer.c writes and reads them (section 2.1 of RFC 3986). Strings end in a NUL
    that is not part of their content. */
module UriEscape {
  import opened Common

  const PERCENT: Byte := 37

  /** A character's bit in an escape table. */
  type Table = Byte -> bool

  predicate IsHex(c: Byte) {
    48 <= c <= 57 || 65 <= c <= 70 || 97 <= c <= 102
  }

  /** hex2dec_tab. */
  function HexValue(c: Byte): (v: int)
    ensures 0 <= v < 16
  {
    if 48 <= c <= 57 then c - 48 else if 65 <= c <= 70 then c - 55 else if 97 <= c <= 102 then c - 87 else 0
  }

  /** hex_chars. */
  function HexChar(v: int): (c: Byte)
    requires 0 <= v < 16
    ensures IsHex(c) && HexValue(c) == v
  {
    if v < 10 then 48 + v else 87 + v
  }

  // ---------------------------------------------------------------- characters

  /** The byte at position i; past the end there is the terminator. */
  function At(s: seq<Byte>, i: nat): Byte {
    if i < |s| then s[i] else 0
  }

  /** utf8_get_next_char: the length of the first character, as its lead byte announces it, cut short by
      a NUL. */
  function CharLen(s: seq<Byte>): (n: nat)
    ensures 1 <= n <= 4 && (s != [] ==> n <= |s|)
    ensures forall k :: 1 <= k < n ==> At(s, k) != 0
    ensures n > 1 ==> At(s, 0) >= 0xC0
  {
    if At(s, 0) / 32 == 6 then
      if At(s, 1) == 0 then 1 else 2
    else if At(s, 0) / 16 == 14 then
      if At(s, 1) == 0 then 1 else if At(s, 2) == 0 then 2 else 3
    else if At(s, 0) / 8 == 30 then
      if At(s, 1) == 0 then 1 else if At(s, 2) == 0 then 2 else if At(s, 3) == 0 then 3 else 4
    else
      1
  }

  // ---------------------------------------------------------------- escaping

  function Escape1(c: Byte): seq<Byte> {
    [PERCENT, HexChar(c / 16), HexChar(c % 16)]
  }

  /** The first character: longer ones are copied, single bytes are escaped when the table says so. */
  function EscapeChar(t: Table, s: seq<Byte>): seq<Byte>
    requires s != []
  {
    if CharLen(s) > 1 then s[..CharLen(s)] else if t(s[0]) then Escape1(s[0]) else [s[0]]
  }

  function Escape(t: Table, s: seq<Byte>): seq<Byte> {
    if s == [] then [] else EscapeChar(t, s) + Escape(t, s[CharLen(s)..])
  }

  /** What the counting pass counts. */
  function CountEscapes(t: Table, s: seq<Byte>): nat {
    if s == [] then 0
    else (if CharLen(s) == 1 && t(s[0]) then 1 else 0) + CountEscapes(t, s[CharLen(s)..])
  }

  /** The counting pass predicts the length of the output. */
  lemma {:induction false} EscapeLength(t: Table, s: seq<Byte>)
    ensures |Escape(t, s)| == |s| + 2 * CountEscapes(t, s)
    decreases |s|
  {
    hide CharLen;
    if s != [] { EscapeLength(t, s[CharLen(s)..]); }
  }

  // ---------------------------------------------------------------- unescaping

  /** An escape sequence starts here. */
  predicate Escaped(s: seq<Byte>) {
    |s| >= 3 && s[0] == PERCENT && IsHex(s[1]) && IsHex(s[2])
  }

  /** The value of two hexadecimal digits; a NUL becomes a space. */
  function Unescape1(a: Byte, b: Byte): Byte {
    var v := HexValue(a) * 16 + HexValue(b);
    if v != 0 then v else 32
  }

  function Unescape(s: seq<Byte>): seq<Byte> {
    if s == [] then []
    else if Escaped(s) then [Unescape1(s[1], s[2])] + Unescape(s[3..])
    else [s[0]] + Unescape(s[1..])
  }

  /** Text without NUL stays so: an escaped NUL is read as a space. */
  lemma {:induction false} UnescapeNulFree(s: seq<Byte>)
    requires NulFree(s)
    ensures NulFree(Unescape(s))
    decreases |s|
  {
    hide HexValue;
    if s != [] {
      UnescapeNulFree(if Escaped(s) then s[3..] else s[1..]);
    }
  }

  // ---------------------------------------------------------------- round trip

  /** A table that escapes NUL and the percent sign, and no hexadecimal digit. */
  ghost predicate Sound(t: Table) {
    t(0) && t(PERCENT) && forall c: Byte :: IsHex(c) ==> !t(c)
  }

  /** The text as it comes out when its first r bytes belong to a character that is being copied. */
  function Output(t: Table, s: seq<Byte>, r: nat): seq<Byte>
    requires r <= |s|
  {
    s[..r] + Escape(t, s[r..])
  }

  /** How many bytes remain to be copied once the first byte is out. */
  function Copying(s: seq<Byte>, r: nat): (r': nat)
    requires s != [] && r <= |s|
    ensures r' <= |s[1..]|
  {
    if r > 0 then r - 1 else CharLen(s) - 1
  }

  /** The first byte is escaped. */
  predicate Marked(t: Table, s: seq<Byte>, r: nat)
    requires s != []
  {
    r == 0 && CharLen(s) == 1 && t(s[0])
  }

  /** Copying r bytes is copying one and then the others. */
  lemma CopyOne(s: seq<Byte>, r: nat, rest: seq<Byte>)
    requires 1 <= r <= |s|
    ensures s[..r] + rest == [s[0]] + (s[1..][..r - 1] + rest) && s[r..] == s[1..][r - 1..]
  {
    assert s[..r] == [s[0]] + s[1..][..r - 1];
  }

  /** Output byte by byte. */
  lemma OutputStep(t: Table, s: seq<Byte>, r: nat)
    requires s != [] && r <= |s|
    ensures Output(t, s, r) == (if Marked(t, s, r) then Escape1(s[0]) else [s[0]]) + Output(t, s[1..], Copying(s, r))
  {
    hide CharLen, Escape1, Escape;
    if r > 0 {
      CopyOne(s, r, Escape(t, s[r..]));
    } else {
      var n := CharLen(s);
      assert s[0..] == s && s[..0] + Escape(t, s) == Escape(t, s);
      EscapeUnfold(t, s);
      CopyOne(s, n, Escape(t, s[n..]));
      if n == 1 { assert s[1..][..0] + Escape(t, s[1..]) == Escape(t, s[1..]); }
    }
  }

  lemma EscapeUnfold(t: Table, s: seq<Byte>)
    requires s != []
    ensures Escape(t, s) == EscapeChar(t, s) + Escape(t, s[CharLen(s)..])
  {
    hide CharLen, EscapeChar;
  }

  /** Bytes inside a longer character, together with what follows, spell an escape sequence. */
  predicate Hidden(s: seq<Byte>, r: nat)
    requires r <= |s|
    decreases |s|
  {
    s != [] && ((r > 0 && Escaped(s)) || Hidden(s[1..], Copying(s, r)))
  }

  lemma Unmarked(t: Table, s: seq<Byte>, r: nat)
    requires Sound(t) && s != [] && r <= |s| && !Marked(t, s, r)
    ensures Output(t, s, r) == [s[0]] + Output(t, s[1..], Copying(s, r))
    ensures Output(t, s, r)[0] == s[0] && Output(t, s, r)[1..] == Output(t, s[1..], Copying(s, r))
    ensures r == 0 ==> s[0] != PERCENT && s[0] != 0
  {
    hide Output, Escape1;
    OutputStep(t, s, r);
  }

  /** The output starts with a hexadecimal digit exactly when the text does. */
  lemma HexHead(t: Table, s: seq<Byte>, r: nat)
    requires Sound(t) && r <= |s|
    ensures |Output(t, s, r)| >= |s|
    ensures s == [] ==> Output(t, s, r) == []
    ensures s != [] ==> (IsHex(Output(t, s, r)[0]) <==> IsHex(s[0]))
    ensures s != [] && IsHex(s[0]) ==> !Marked(t, s, r)
  {
    hide Output, Escape1;
    if s != [] { OutputStep(t, s, r); Escape1Head(s[0]); } else { OutputNone(t, s, r); }
    OutputLong(t, s, r);
  }

  lemma OutputLong(t: Table, s: seq<Byte>, r: nat)
    requires r <= |s|
    ensures |Output(t, s, r)| >= |s|
  {
    hide Escape;
    EscapeLength(t, s[r..]);
  }

  lemma OutputNone(t: Table, s: seq<Byte>, r: nat)
    requires s == [] && r <= |s|
    ensures Output(t, s, r) == []
  {
  }

  lemma Escape1Head(c: Byte)
    ensures |Escape1(c)| == 3 && Escape1(c)[0] == PERCENT && !IsHex(PERCENT)
    ensures forall s :: Escaped(Escape1(c) + s) && (Escape1(c) + s)[3..] == s
    ensures Unescape1(Escape1(c)[1], Escape1(c)[2]) == if c == 0 then 32 else c
  {
  }

  /** Two more bytes that are hexadecimal digits. */
  lemma TwoDigits(t: Table, s: seq<Byte>, r: nat)
    requires Sound(t) && r <= |s|
    ensures var o := Output(t, s, r);
            |o| >= 2 && IsHex(o[0]) && IsHex(o[1]) <==> |s| >= 2 && IsHex(s[0]) && IsHex(s[1])
    ensures |s| >= 2 && IsHex(s[0]) && IsHex(s[1]) ==>
              exists r' :: 0 <= r' <= |s| - 2 && Output(t, s, r)[2..] == Output(t, s[2..], r')
  {
    hide Output, Escape1, CharLen, Sound;
    HexHead(t, s, r);
    if s != [] && IsHex(s[0]) {
      Unmarked(t, s, r);
      var s1, r1 := s[1..], Copying(s, r);
      HexHead(t, s1, r1);
      if s1 != [] && IsHex(s1[0]) {
        Unmarked(t, s1, r1);
        assert s1[1..] == s[2..];
        assert Output(t, s, r)[2..] == Output(t, s[2..], Copying(s1, r1));
      }
    }
  }

  /** A copied percent sign is read as the start of an escape exactly when the text spells one. */
  lemma CopiedPercent(t: Table, s: seq<Byte>, r: nat)
    requires Sound(t) && s != [] && r <= |s| && !Marked(t, s, r)
    ensures Escaped(Output(t, s, r)) <==> r > 0 && Escaped(s)
    ensures Escaped(s) && r > 0 ==> exists r' :: 0 <= r' <= |s| - 3 && Output(t, s, r)[3..] == Output(t, s[3..], r')
  {
    hide Output, Sound, Marked, CharLen;
    Unmarked(t, s, r);
    var s1, r1 := s[1..], Copying(s, r);
    TwoDigits(t, s1, r1);
    OutputLong(t, s1, r1);
    var o, o1 := Output(t, s, r), Output(t, s1, r1);
    assert |o| == |o1| + 1;
    if |o1| >= 2 { assert o[1] == o1[0] && o[2] == o1[1]; }
    if |s| >= 3 { assert s[1] == s1[0] && s[2] == s1[1] && s1[2..] == s[3..] && o[3..] == o1[2..]; }
  }

  lemma UnescapeTail(o: seq<Byte>)
    requires o != []
    ensures Escaped(o) ==> Unescape(o) == [Unescape1(o[1], o[2])] + Unescape(o[3..])
    ensures !Escaped(o) ==> Unescape(o) == [o[0]] + Unescape(o[1..])
  {
  }

  /** An escaped byte comes back; only NUL turns into a space. */
  lemma MarkedBack(t: Table, s: seq<Byte>, r: nat)
    requires s != [] && r <= |s| && Marked(t, s, r)
    ensures Unescape(Output(t, s, r)) == [if s[0] == 0 then 32 else s[0]] + Unescape(Output(t, s[1..], Copying(s, r)))
  {
    hide Output, Marked, CharLen, Unescape, Unescape1, Escape1;
    OutputStep(t, s, r);
    Escape1Head(s[0]);
    UnescapeTail(Output(t, s, r));
  }

  /** Reading never makes a text longer. */
  lemma {:induction false} NeverLonger(t: Table, s: seq<Byte>, r: nat)
    requires Sound(t) && r <= |s|
    ensures |Unescape(Output(t, s, r))| <= |s|
    decreases |s|
  {
    hide Output, Sound, CharLen, Unescape, Marked, Escape1, Unescape1;
    var o := Output(t, s, r);
    if s == [] {
      OutputNone(t, s, r);
      UnescapeNone(o);
    } else if Marked(t, s, r) {
      MarkedBack(t, s, r);
      NeverLonger(t, s[1..], Copying(s, r));
    } else {
      Unmarked(t, s, r);
      CopiedPercent(t, s, r);
      UnescapeTail(o);
      if Escaped(o) {
        var r' :| 0 <= r' <= |s| - 3 && o[3..] == Output(t, s[3..], r');
        NeverLonger(t, s[3..], r');
      } else {
        NeverLonger(t, s[1..], Copying(s, r));
      }
    }
  }

  lemma UnescapeNone(o: seq<Byte>)
    requires o == []
    ensures Unescape(o) == []
  {
  }

  lemma NulFreeStep(s: seq<Byte>, r: nat)
    requires s != [] && r <= |s| && NulFree(s[..r])
    ensures NulFree(s) <==> s[0] != 0 && NulFree(s[1..])
    ensures NulFree(s[1..][..Copying(s, r)])
  {
    if NulFree(s[1..]) && s[0] != 0 {
      forall k | 0 <= k < |s| ensures s[k] != 0 { if k > 0 { assert s[k] == s[1..][k - 1]; } }
    }
    var c := Copying(s, r);
    forall k | 0 <= k < c ensures s[1..][..c][k] != 0 {
      assert s[1..][..c][k] == s[k + 1];
      if r > 0 { assert s[..r][k + 1] == s[k + 1]; } else { assert At(s, k + 1) == s[k + 1]; }
    }
  }

  lemma HiddenStep(s: seq<Byte>, r: nat)
    requires s != [] && r <= |s|
    ensures Hidden(s, r) <==> (r > 0 && Escaped(s)) || Hidden(s[1..], Copying(s, r))
  {
  }

  lemma ConsEqual(a: Byte, u: seq<Byte>, s: seq<Byte>)
    requires s != []
    ensures [a] + u == s <==> a == s[0] && u == s[1..]
  {
    assert s == [s[0]] + s[1..];
    if [a] + u == s { assert ([a] + u)[1..] == u; }
  }

  /** Exactly when the text comes back, from any point in the middle of a character. */
  lemma {:induction false} BackIff(t: Table, s: seq<Byte>, r: nat)
    requires Sound(t) && r <= |s| && NulFree(s[..r])
    ensures Unescape(Output(t, s, r)) == s <==> NulFree(s) && !Hidden(s, r)
    decreases |s|
  {
    hide Output, Sound, CharLen, Unescape, Marked, Escape1, Unescape1, Hidden, NulFree, Copying;
    var o := Output(t, s, r);
    if s == [] {
      OutputNone(t, s, r);
      UnescapeNone(o);
      NothingHidden(s, r);
    } else {
      NulFreeStep(s, r);
      HiddenStep(s, r);
      var s1, r1 := s[1..], Copying(s, r);
      if Marked(t, s, r) {
        MarkedFirst(t, s, r);
        MarkedBack(t, s, r);
        BackIff(t, s1, r1);
        ConsEqual(if s[0] == 0 then 32 else s[0], Unescape(Output(t, s1, r1)), s);
      } else {
        UnmarkedNul(t, s, r);
        Unmarked(t, s, r);
        CopiedPercent(t, s, r);
        UnescapeTail(o);
        if Escaped(o) {
          var r' :| 0 <= r' <= |s| - 3 && o[3..] == Output(t, s[3..], r');
          NeverLonger(t, s[3..], r');
        } else {
          BackIff(t, s1, r1);
          ConsEqual(s[0], Unescape(Output(t, s1, r1)), s);
        }
      }
    }
  }

  lemma NothingHidden(s: seq<Byte>, r: nat)
    requires s == [] && r <= |s|
    ensures !Hidden(s, r) && NulFree(s)
  {
  }

  lemma MarkedFirst(t: Table, s: seq<Byte>, r: nat)
    requires s != [] && Marked(t, s, r)
    ensures r == 0
  {
  }

  lemma UnmarkedNul(t: Table, s: seq<Byte>, r: nat)
    requires s != [] && r <= |s| && Sound(t) && NulFree(s[..r]) && !Marked(t, s, r)
    ensures s[0] != 0
  {
    if r > 0 { assert s[..r][0] == s[0]; }
  }

  /** For every text: unescaping what was escaped gives the text back exactly when it holds no NUL and
      no escape sequence that starts inside a longer character. */
  lemma RoundTripIff(t: Table, s: seq<Byte>)
    requires Sound(t)
    ensures Unescape(Escape(t, s)) == s <==> NulFree(s) && !Hidden(s, 0)
  {
    hide Escape, Unescape, Sound, Hidden, NulFree;
    assert Output(t, s, 0) == Escape(t, s) by { assert s[0..] == s && s[..0] == []; }
    NoNulYet(s[..0]);
    BackIff(t, s, 0);
  }

  lemma NoNulYet(s: seq<Byte>)
    requires s == []
    ensures NulFree(s)
  {
  }

  /** A text that does not come back: a lead byte, then "%41". */
  lemma HiddenExample(t: Table)
    requires Sound(t)
    ensures Unescape(Escape(t, [0xC3, PERCENT, 52, 49])) != [0xC3, PERCENT, 52, 49]
  {
    hide Escape, Unescape, Sound, CharLen;
    var s: seq<Byte> := [0xC3, PERCENT, 52, 49];
    LeadByte(s);
    HiddenStep(s, 0);
    HiddenStep(s[1..], 1);
    RoundTripIff(t, s);
  }

  lemma LeadByte(s: seq<Byte>)
    requires |s| == 4 && s[0] == 0xC3 && s[1] == PERCENT
    ensures CharLen(s) == 2
  {
  }

  // ---------------------------------------------------------------- UTF-8

  predicate Continues(s: seq<Byte>, n: nat) {
    n <= |s| && forall k :: 1 <= k < n ==> 0x80 <= s[k] < 0xC0
  }

  /** The length a lead byte announces; 0 for bytes that cannot start a character (section 3 of RFC 3629). */
  function Announced(c: Byte): nat {
    if c < 0x80 then 1
    else if c < 0xC0 then 0
    else if c < 0xE0 then 2
    else if c < 0xF0 then 3
    else if c < 0xF8 then 4
    else 0
  }

  /** The text is a sequence of complete characters. */
  predicate Utf8(s: seq<Byte>) {
    s == [] || (Announced(s[0]) >= 1 && Continues(s, Announced(s[0])) && Utf8(s[Announced(s[0])..]))
  }

  lemma AnnouncedIsLen(s: seq<Byte>)
    requires s != [] && Announced(s[0]) >= 1 && Continues(s, Announced(s[0]))
    ensures CharLen(s) == Announced(s[0])
  {
  }

  /** In UTF-8 text nothing is hidden: the bytes a longer character continues with are no percent signs. */
  lemma {:induction false} Utf8HidesNothing(s: seq<Byte>, r: nat)
    requires r <= |s| && (forall k :: 0 <= k < r ==> s[k] >= 0x80) && Utf8(s[r..])
    ensures !Hidden(s, r)
    decreases |s|
  {
    hide CharLen;
    if s != [] {
      var r1 := Copying(s, r);
      if r == 0 {
        assert s[0..] == s;
        AnnouncedIsLen(s);
        assert s[1..][r1..] == s[Announced(s[0])..];
      } else {
        assert s[1..][r1..] == s[r..];
      }
      Utf8HidesNothing(s[1..], r1);
    }
  }

  /** UTF-8 text without NUL comes back for every sound table. */
  lemma Utf8RoundTrip(t: Table, s: seq<Byte>)
    requires Sound(t) && NulFree(s) && Utf8(s)
    ensures Unescape(Escape(t, s)) == s
  {
    hide *;
    assert s[0..] == s;
    Utf8HidesNothing(s, 0);
    RoundTripIff(t, s);
  }

  // ---------------------------------------------------------------- the tables

  /** Bit k of a word. */
  predicate Bit(w: bv32, k: int)
    requires 0 <= k < 32
  {
    (w >> k) & 1 == 1
  }

  /** Eight words, one bit per character. */
  function FromWords(w: seq<bv32>): Table
    requires |w| == 8
  {
    (c: Byte) => Bit(w[c / 32], c % 32)
  }

  const ESCAPE_URI: seq<bv32> :=
    [0xffffffff, 0x80000029, 0x00000000, 0x80000000, 0xffffffff, 0xffffffff, 0xffffffff, 0xffffffff]

  const ESCAPE_URI_DELIMS: seq<bv32> :=
    [0xffffffff, 0x84000029, 0x28000001, 0x80000000, 0xffffffff, 0xffffffff, 0xffffffff, 0xffffffff]

  const ESCAPE_ARG: seq<bv32> :=
    [0xffffffff, 0x88000869, 0x00000000, 0x80000000, 0xffffffff, 0xffffffff, 0xffffffff, 0xffffffff]

  /** The bits that matter for the round trip. */
  lemma SoundWords(w: seq<bv32>)
    requires |w| == 8 && Bit(w[0], 0) && Bit(w[1], 5)
    requires w[1] & 0x03ff0000 == 0 && w[2] & 0x7e == 0 && w[3] & 0x7e == 0
    ensures Sound(FromWords(w))
  {
    forall c: Byte | IsHex(c) ensures !FromWords(w)(c) {
      ClearBit(w[c / 32], c % 32);
    }
  }

  lemma ClearBit(w: bv32, k: int)
    requires 0 <= k < 32
    requires (w & 0x03ff0000 == 0 && 16 <= k <= 25) || (w & 0x7e == 0 && 1 <= k <= 6)
    ensures !Bit(w, k)
  {
  }

  /** All three tables escape NUL and the percent sign, and no hexadecimal digit. */
  lemma TablesSound()
    ensures Sound(FromWords(ESCAPE_URI)) && Sound(FromWords(ESCAPE_URI_DELIMS)) && Sound(FromWords(ESCAPE_ARG))
  {
    hide Sound, FromWords;
    SoundWords(ESCAPE_URI);
    SoundWords(ESCAPE_URI_DELIMS);
    SoundWords(ESCAPE_ARG);
  }

  lemma BitsUri(k: int)
    requires 0 <= k < 32
    ensures Bit(0x80000029, k) <==> k in {0, 3, 5, 31}
  {
  }

  lemma BitsDelims(k: int)
    requires 0 <= k < 32
    ensures Bit(0x84000029, k) <==> k in {0, 3, 5, 26, 31}
  {
  }

  lemma BitsArg(k: int)
    requires 0 <= k < 32
    ensures Bit(0x88000869, k) <==> k in {0, 3, 5, 6, 11, 27, 31}
  {
  }

  lemma BitsMid(k: int)
    requires 0 <= k < 32
    ensures Bit(0x28000001, k) <==> k in {0, 27, 29}
  {
  }

  lemma BitsTop(k: int)
    requires 0 <= k < 32
    ensures Bit(0x80000000, k) <==> k in {31}
  {
  }

  lemma BitsEnds(k: int)
    requires 0 <= k < 32
    ensures Bit(0xffffffff, k) && !Bit(0, k)
  {
  }

  /** Control characters, space, #, % and ?, and everything from DEL on. */
  predicate InUri(c: Byte) {
    c < 32 || c >= 127 || c in {' ' as int, '#' as int, '%' as int, '?' as int}
  }

  lemma UriTable(c: Byte)
    ensures FromWords(ESCAPE_URI)(c) <==> InUri(c)
  {
    hide Bit;
    BitsUri(c % 32);
    BitsTop(c % 32);
    BitsEnds(c % 32);
  }

  lemma DelimsTable(c: Byte)
    ensures FromWords(ESCAPE_URI_DELIMS)(c) <==>
            InUri(c) || c in {':' as int, '@' as int, '[' as int, ']' as int}
  {
    hide Bit;
    BitsDelims(c % 32);
    BitsMid(c % 32);
    BitsTop(c % 32);
    BitsEnds(c % 32);
  }

  lemma ArgTable(c: Byte)
    ensures FromWords(ESCAPE_ARG)(c) <==> InUri(c) || c in {'&' as int, '+' as int, ';' as int}
  {
    hide Bit;
    BitsArg(c % 32);
    BitsTop(c % 32);
    BitsEnds(c % 32);
  }

  /** Exactly which bytes each table escapes. */
  lemma TablesExact(c: Byte)
    ensures FromWords(ESCAPE_URI)(c) <==> InUri(c)
    ensures FromWords(ESCAPE_URI_DELIMS)(c) <==>
            InUri(c) || c in {':' as int, '@' as int, '[' as int, ']' as int}
    ensures FromWords(ESCAPE_ARG)(c) <==> InUri(c) || c in {'&' as int, '+' as int, ';' as int}
  {
    hide *;
    UriTable(c);
    DelimsTable(c);
    ArgTable(c);
  }

  // ---------------------------------------------------------------- digits

  const DIGITS: string := "0123456789abcdef"

  const CAPITALS: string := "0123456789ABCDEF"

  lemma DigitIs(v: int)
    requires 0 <= v < 16
    ensures HexChar(v) == DIGITS[v] as int
    ensures IsHex(DIGITS[v] as int) && HexValue(DIGITS[v] as int) == v
    ensures IsHex(CAPITALS[v] as int) && HexValue(CAPITALS[v] as int) == v
  {
  }

  /** An escape is a percent sign and the two digits of the byte, small letters written and both cases read;
      a NUL comes back as a space. */
  lemma EscapeIs(c: Byte)
    ensures Escape1(c) == ['%' as int, DIGITS[c / 16] as int, DIGITS[c % 16] as int]
    ensures Unescape(Escape1(c)) == [if c == 0 then ' ' as int else c]
    ensures Unescape(['%' as int, CAPITALS[c / 16] as int, CAPITALS[c % 16] as int])
         == [if c == 0 then ' ' as int else c]
  {
    hide HexChar, HexValue, IsHex;
    DigitIs(c / 16);
    DigitIs(c % 16);
    OneEscape(DIGITS[c / 16] as int, DIGITS[c % 16] as int);
    OneEscape(CAPITALS[c / 16] as int, CAPITALS[c % 16] as int);
  }

  lemma OneEscape(a: Byte, b: Byte)
    requires IsHex(a) && IsHex(b)
    ensures var v := HexValue(a) * 16 + HexValue(b);
            Unescape([PERCENT, a, b]) == [if v == 0 then 32 else v]
  {
    hide IsHex, HexValue;
    assert Unescape([PERCENT, a, b][3..]) == [];
  }
}
