/** The loops of src/buffer.c that escape and unescape. */
module UriCode {
  import opened Common
  import opened UriEscape

  lemma UnescapePlain(s: seq<Byte>, p: nat)
    requires p <= |s| && PERCENT !in s[..p]
    ensures Unescape(s) == s[..p] + Unescape(s[p..])
    decreases p
  {
    hide Unescape1;
    if p == 0 {
      assert s[0..] == s && s[..0] + Unescape(s) == Unescape(s);
    } else {
      assert s[0] == s[..p][0];
      assert s[1..][..p - 1] == s[..p][1..] && s[1..][p - 1..] == s[p..];
      UnescapePlain(s[1..], p - 1);
      assert s[..p] == [s[0]] + s[1..][..p - 1];
    }
  }

  /** What is done: the text up to src has been read, its meaning is in front, the rest is untouched. */
  ghost predicate Reading(t: seq<Byte>, buf: seq<Byte>, tgt: nat, src: nat) {
    && tgt <= src <= |t| < |buf|
    && (forall k :: src <= k < |t| ==> buf[k] == t[k]) && buf[|t|] == 0
    && buf[..tgt] + Unescape(t[src..]) == Unescape(t)
  }

  /** One step forward, writing v over n bytes read. */
  lemma ReadOn(t: seq<Byte>, buf: seq<Byte>, tgt: nat, src: nat, n: nat, v: Byte)
    requires Reading(t, buf, tgt, src) && 1 <= n && src + n <= |t|
    requires Unescape(t[src..]) == [v] + Unescape(t[src + n..])
    ensures Reading(t, buf[tgt := v], tgt + 1, src + n)
  {
    hide Unescape;
    assert buf[tgt := v][..tgt + 1] == buf[..tgt] + [v];
  }

  lemma Here(t: seq<Byte>, buf: seq<Byte>, tgt: nat, src: nat)
    requires Reading(t, buf, tgt, src) && NulFree(t)
    ensures buf[src] == 0 <==> src == |t|
    ensures src < |t| ==> (Escaped(t[src..]) <==> buf[src] == PERCENT && IsHex(buf[src + 1]) && IsHex(buf[src + 2]))
    ensures src < |t| && IsHex(buf[src + 1]) ==> src + 2 < |buf|
    ensures src < |t| ==> t[src..][0] == buf[src] && t[src..][1..] == t[src + 1..]
    ensures src < |t| && Escaped(t[src..]) ==>
              && src + 3 <= |t| && t[src..][1] == buf[src + 1] && t[src..][2] == buf[src + 2]
              && t[src..][3..] == t[src + 3..]
  {
    hide Unescape;
  }

  /** The body of the loop: one byte is written for one or three bytes read. */
  method ReadOne(buf: array<Byte>, tgt: nat, src: nat, ghost t: seq<Byte>) returns (n: nat)
    requires Reading(t, buf[..], tgt, src) && NulFree(t) && src < |t| && buf.Length > |t|
    modifies buf
    ensures (n == 1 || n == 3) && src + n <= |t| && Reading(t, buf[..], tgt + 1, src + n)
  {
    hide Unescape, HexValue, Unescape1, Escaped, NulFree;
    ghost var b := buf[..];
    Here(t, b, tgt, src);
    UnescapeTail(t[src..]);
    if buf[src] != PERCENT || !IsHex(buf[src + 1]) || !IsHex(buf[src + 2]) {
      ReadOn(t, b, tgt, src, 1, buf[src]);
      buf[tgt] := buf[src];
      n := 1;
    } else {
      ValueOf(buf[src + 1], buf[src + 2]);
      var v := HexValue(buf[src + 1]) * 16 + HexValue(buf[src + 2]);
      ReadOn(t, b, tgt, src, 3, if v != 0 then v else 32);
      buf[tgt] := v;
      if v == 0 { buf[tgt] := 32; }
      n := 3;
    }
    assert buf[..] == b[tgt := buf[tgt]];
  }

  /** http2d_buffer_unescape_uri, in place; the length kept is the real one. The code assumes that there
      is no NUL inside the text. */
  method UnescapeUri(buf: array<Byte>, len: nat) returns (len': nat)
    requires len < buf.Length && NulFree(buf[..len])
    modifies buf
    ensures len' <= len && buf[..len'] == Unescape(old(buf[..len]))
    ensures NulFree(buf[..len']) && buf[len'] == 0
  {
    hide Unescape, HexValue, Unescape1, Escaped, NulFree, Reading;
    ghost var t := buf[..len];
    UnescapeNulFree(t);
    if buf[len] != 0 { buf[len] := 0; }
    var src := FindPercent(buf, len);
    UnescapePlain(t, src);
    if src == len {
      UnescapeNone(t[src..]);
      return len;
    }
    var tgt: nat, n: int := src, len;
    StartReading(t, buf[..], src);
    Here(t, buf[..], tgt, src);
    while buf[src] != 0
      invariant tgt <= src <= len && n == len - (src - tgt) && Reading(t, buf[..], tgt, src)
      invariant buf[src] == 0 <==> src == len
      decreases len - src
    {
      var read := ReadOne(buf, tgt, src, t);
      src := src + read;
      if read == 3 { n := n - 2; }
      tgt := tgt + 1;
      Here(t, buf[..], tgt, src);
    }
    ReadAll(t, buf[..], tgt);
    buf[tgt] := 0;
    len' := n;
  }

  lemma ValueOf(a: Byte, b: Byte)
    ensures Unescape1(a, b) == var v := HexValue(a) * 16 + HexValue(b); if v != 0 then v else 32
  {
  }

  lemma StartReading(t: seq<Byte>, buf: seq<Byte>, p: nat)
    requires |t| < |buf| && buf[..|t|] == t && buf[|t|] == 0 && p <= |t| && Unescape(t) == t[..p] + Unescape(t[p..])
    ensures Reading(t, buf, p, p)
  {
    hide Unescape;
    assert buf[..p] == t[..p];
    forall k | 0 <= k < |t| ensures buf[k] == t[k] { assert buf[..|t|][k] == buf[k]; }
  }

  lemma ReadAll(t: seq<Byte>, buf: seq<Byte>, tgt: nat)
    requires Reading(t, buf, tgt, |t|)
    ensures buf[..tgt] == Unescape(t)
  {
    UnescapeNone(t[|t|..]);
  }

  /** strchr: the first percent sign, or the terminator. */
  method FindPercent(buf: array<Byte>, len: nat) returns (p: nat)
    requires len < buf.Length && buf[len] == 0 && NulFree(buf[..len])
    ensures p <= len && PERCENT !in buf[..p] && (p < len ==> buf[p] == PERCENT)
  {
    p := 0;
    while buf[p] != 0 && buf[p] != PERCENT
      invariant p <= len && PERCENT !in buf[..p]
      decreases len - p
    {
      assert buf[..p + 1] == buf[..p] + [buf[p]];
      p := p + 1;
    }
    if p < len { assert buf[..len][p] != 0; }
  }

  // ---------------------------------------------------------------- escaping

  /** A source buffer: its content and, after it, the terminator. */
  ghost predicate Holds(src: array<Byte>, s: seq<Byte>)
    reads src
  {
    |s| < src.Length && src[..|s|] == s && src[|s|] == 0
  }

  lemma HoldsAt(src: array<Byte>, s: seq<Byte>, i: nat, k: nat)
    requires Holds(src, s) && i + k <= |s|
    ensures src[i + k] == At(s[i..], k)
  {
    if i + k < |s| { assert src[..|s|][i + k] == s[i + k]; }
  }

  /** utf8_get_next_char on a position of the buffer. */
  method NextChar(src: array<Byte>, i: nat, ghost s: seq<Byte>) returns (j: nat)
    requires Holds(src, s) && i <= |s|
    ensures j == i + CharLen(s[i..])
  {
    HoldsAt(src, s, i, 0);
    var c := src[i];
    if i < |s| { HoldsAt(src, s, i, 1); }
    if i + 1 < |s| { HoldsAt(src, s, i, 2); }
    if i + 2 < |s| { HoldsAt(src, s, i, 3); }
    if c / 32 == 6 {
      if src[i + 1] == 0 { return i + 1; }
      return i + 2;
    }
    if c / 16 == 14 {
      if src[i + 1] == 0 { return i + 1; }
      if src[i + 2] == 0 { return i + 2; }
      return i + 3;
    }
    if c / 8 == 30 {
      if src[i + 1] == 0 { return i + 1; }
      if src[i + 2] == 0 { return i + 2; }
      if src[i + 3] == 0 { return i + 3; }
      return i + 4;
    }
    j := i + 1;
  }

  /** The number of escapes the code finds. The loops test at their end, so an empty source is treated as
      if it held its terminator. */
  function Counted(t: Table, s: seq<Byte>): nat {
    if s == [] then (if t(0) then 1 else 0) else CountEscapes(t, s)
  }

  lemma CountOn(t: Table, s: seq<Byte>, i: nat)
    requires i < |s|
    ensures var n := CharLen(s[i..]);
            && i + n <= |s|
            && CountEscapes(t, s[i..]) == (if n == 1 && t(s[i]) then 1 else 0) + CountEscapes(t, s[i + n..])
  {
    hide CharLen;
    assert s[i..][CharLen(s[i..])..] == s[i + CharLen(s[i..])..];
  }

  /** The counting pass. */
  method CountPass(t: Table, src: array<Byte>, len: nat, ghost s: seq<Byte>) returns (n: nat)
    requires Holds(src, s) && len == |s|
    ensures n == Counted(t, s)
  {
    hide CountEscapes, CharLen;
    n := 0;
    var i := 0;
    assert s[0..] == s;
    while true
      invariant i <= len && (s != [] ==> i < len && n + CountEscapes(t, s[i..]) == CountEscapes(t, s))
      invariant (s == [] ==> n == 0)
      decreases len - i
    {
      HoldsAt(src, s, i, 0);
      CharLenEnd(s[i..]);
      var next := NextChar(src, i, s);
      if s != [] { CountOn(t, s, i); }
      if next - i == 1 && t(src[i]) { n := n + 1; }
      i := next;
      if !(i < len) { break; }
    }
    if s != [] { CountNone(t, s[i..]); }
  }

  lemma CharLenEnd(s: seq<Byte>)
    ensures s == [] ==> CharLen(s) == 1
    ensures 1 <= CharLen(s) && (s != [] ==> CharLen(s) <= |s|)
  {
  }

  lemma CountNone(t: Table, s: seq<Byte>)
    requires s == []
    ensures CountEscapes(t, s) == 0
  {
  }

  /** http2d_buffer_ensure_addlen. */
  method EnsureAddLen(buf: array<Byte>, len: nat, add: nat) returns (out: array<Byte>)
    requires len <= buf.Length
    ensures out.Length > len + add && out[..len] == buf[..len] && (out == buf || fresh(out))
  {
    if len + add < buf.Length { return buf; }
    out := new Byte[len + add + 1](i => 0);
    forall k | 0 <= k < len { out[k] := buf[k]; }
  }

  lemma EscapeOn(t: Table, s: seq<Byte>, i: nat)
    requires i < |s|
    ensures var n := CharLen(s[i..]);
            && i + n <= |s|
            && Escape(t, s[i..]) == EscapeChar(t, s[i..]) + Escape(t, s[i + n..])
  {
    hide CharLen, EscapeChar;
    assert s[i..][CharLen(s[i..])..] == s[i + CharLen(s[i..])..];
  }

  /** A longer character is copied. */
  method CopyChar(src: array<Byte>, i: nat, next: nat, out: array<Byte>, k: nat, ghost s: seq<Byte>) returns (k': nat)
    requires Holds(src, s) && i <= next <= |s| && src != out && k + (next - i) <= out.Length
    modifies out
    ensures k' == k + (next - i) && out[..k'] == old(out[..k]) + s[i..next]
  {
    var j := i;
    k' := k;
    while j < next
      invariant i <= j <= next && k' == k + (j - i) && Holds(src, s) && out[..k'] == old(out[..k]) + s[i..j]
    {
      HoldsAt(src, s, 0, j);
      out[k'] := src[j];
      assert out[..k' + 1] == out[..k'] + [s[j]];
      assert s[i..j + 1] == s[i..j] + [s[j]];
      j, k' := j + 1, k' + 1;
    }
  }

  /** The characters of one step of the writing pass. */
  method WriteChar(t: Table, src: array<Byte>, i: nat, next: nat, out: array<Byte>, k: nat, ghost s: seq<Byte>)
    returns (k': nat)
    requires Holds(src, s) && i < |s| && next == i + CharLen(s[i..]) && src != out
    requires k + |EscapeChar(t, s[i..])| <= out.Length
    modifies out
    ensures k' == k + |EscapeChar(t, s[i..])| && out[..k'] == old(out[..k]) + EscapeChar(t, s[i..])
  {
    hide CharLen;
    CharLenEnd(s[i..]);
    HoldsAt(src, s, i, 0);
    if next - i > 1 {
      k' := CopyChar(src, i, next, out, k, s);
      assert s[i..next] == s[i..][..next - i];
    } else if t(src[i]) {
      out[k] := PERCENT;
      out[k + 1] := HexChar(src[i] / 16);
      out[k + 2] := HexChar(src[i] % 16);
      k' := k + 3;
    } else {
      out[k] := src[i];
      k' := k + 1;
    }
  }

  /** The writing pass over a source that is not empty. */
  method WritePass(t: Table, src: array<Byte>, len: nat, out: array<Byte>, at: nat, ghost s: seq<Byte>) returns (k: nat)
    requires Holds(src, s) && len == |s| && s != [] && src != out && at + |Escape(t, s)| < out.Length
    modifies out
    ensures k == at + |Escape(t, s)| && out[..k] == old(out[..at]) + Escape(t, s)
  {
    hide Escape, CharLen, EscapeChar;
    k := at;
    var i := 0;
    assert s[0..] == s;
    while true
      invariant i < |s| && k + |Escape(t, s[i..])| == at + |Escape(t, s)|
      invariant Holds(src, s) && k < out.Length && out[..k] + Escape(t, s[i..]) == old(out[..at]) + Escape(t, s)
      decreases |s| - i
    {
      EscapeOn(t, s, i);
      CharLenEnd(s[i..]);
      var next := NextChar(src, i, s);
      Reassociate(out[..k], EscapeChar(t, s[i..]), Escape(t, s[next..]));
      k := WriteChar(t, src, i, next, out, k, s);
      i := next;
      if !(i < len) { break; }
    }
    EscapeNone(t, s[i..]);
  }

  lemma EscapeNone(t: Table, s: seq<Byte>)
    requires s == []
    ensures Escape(t, s) == []
  {
  }

  /** The text the code puts into the buffer. Of an empty source the terminator is escaped, and only two
      of its three bytes are counted. */
  function Written(t: Table, s: seq<Byte>): seq<Byte> {
    if s == [] then Escape1(0)[..2] else Escape(t, s)
  }

  /** escape_with_table: the text is appended to a buffer that grows as needed. The length set from the
      counting pass is that of the text the writing pass wrote. */
  method EscapeWithTable(t: Table, buf: array<Byte>, blen: nat, src: array<Byte>, slen: nat, ghost s: seq<Byte>)
    returns (out: array<Byte>, len: nat)
    requires t(0) && Holds(src, s) && slen == |s| && blen <= buf.Length && src != buf
    modifies buf
    ensures out == buf || fresh(out)
    ensures len < out.Length && out[..len] == old(buf[..blen]) + Written(t, s)
    ensures s != [] ==> out[len] == 0
    ensures s == [] ==> out[..len] == old(buf[..blen]) + ['%' as int, '0' as int]
    ensures len == blen + slen + 2 * Counted(t, s)
  {
    hide Escape, Escape1, CharLen, CountEscapes, HexChar;
    NothingWritten(t);
    var n := CountPass(t, src, slen, s);
    out := EnsureAddLen(buf, blen, slen + n * 3);
    var k;
    if slen == 0 {
      k := WriteTerminator(out, blen);
    } else {
      EscapeLength(t, s);
      k := WritePass(t, src, slen, out, blen, s);
    }
    out[k] := 0;
    len := blen + slen + n * 2;
  }

  lemma NothingWritten(t: Table)
    ensures Written(t, []) == ['%' as int, '0' as int] && |Escape1(0)| == 3
  {
  }

  /** The writing pass over an empty source. */
  method WriteTerminator(out: array<Byte>, at: nat) returns (k: nat)
    requires at + 3 < out.Length
    modifies out
    ensures k == at + 3 && out[..k] == old(out[..at]) + Escape1(0)
  {
    out[at] := PERCENT;
    out[at + 1] := HexChar(0);
    out[at + 2] := HexChar(0);
    k := at + 3;
  }

  /** Escaping a non-empty text into an empty buffer and unescaping the result gives the text back, exactly
      when it holds no NUL and hides no escape. */
  method EscapeThenUnescape(t: Table, src: array<Byte>, slen: nat, ghost s: seq<Byte>)
    returns (out: array<Byte>, len: nat)
    requires Sound(t) && Holds(src, s) && slen == |s| && s != []
    ensures len < out.Length && out[len] == 0
    ensures out[..len] == s <==> NulFree(s) && !Hidden(s, 0)
  {
    hide Escape, Unescape, Hidden, NulFree;
    var empty := new Byte[0];
    out, len := EscapeWithTable(t, empty, 0, src, slen, s);
    RoundTripIff(t, s);
    EscapedNulFree(t, s);
    assert out[..len] == Escape(t, s);
    len := UnescapeUri(out, len);
  }

  /** Escaped text holds no NUL. */
  lemma {:induction false} EscapedNulFree(t: Table, s: seq<Byte>)
    requires t(0)
    ensures NulFree(Escape(t, s))
    decreases |s|
  {
    if s != [] {
      EscapedNulFree(t, s[CharLen(s)..]);
      CharNulFree(t, s);
      hide CharLen, EscapeChar;
      var a, b := EscapeChar(t, s), Escape(t, s[CharLen(s)..]);
      assert Escape(t, s) == a + b;
    }
  }

  lemma CharNulFree(t: Table, s: seq<Byte>)
    requires t(0) && s != []
    ensures NulFree(EscapeChar(t, s))
  {
    var n := CharLen(s);
    if n > 1 {
      forall k | 0 <= k < n ensures s[..n][k] != 0 { assert At(s, k) == s[k]; }
    }
  }
}
