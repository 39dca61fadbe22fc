/** Substring replacement in src/buffer.c, in place and into another buffer. Texts hold no NUL: the search
    stops there. */
module BufferReplace {
  import opened Common
  import opened ByteBuffer

  predicate OccursAt(s: seq<Byte>, sub: seq<Byte>, i: int) {
    0 <= i <= |s| - |sub| && s[i..i + |sub|] == sub
  }

  /** strstr: the first occurrence, or -1. */
  function Find(s: seq<Byte>, sub: seq<Byte>): (r: int)
    ensures r >= 0 ==> OccursAt(s, sub, r)
    ensures -1 <= r
  {
    if |s| < |sub| then -1
    else if s[..|sub|] == sub then 0
    else
      var r := Find(s[1..], sub);
      if r < 0 then -1 else assert s[1..][r..r + |sub|] == s[r + 1..r + 1 + |sub|]; r + 1
  }

  /** The occurrence found is the first one; none is found only when there is none. */
  lemma {:induction false} FindFirst(s: seq<Byte>, sub: seq<Byte>, i: int)
    requires OccursAt(s, sub, i)
    ensures 0 <= Find(s, sub) <= i
    decreases |s|
  {
    if s[..|sub|] != sub {
      assert s[1..][i - 1..i - 1 + |sub|] == s[i..i + |sub|];
      FindFirst(s[1..], sub, i - 1);
    }
  }

  /** Leftmost replacement, occurrences not overlapping. */
  function Replaced(s: seq<Byte>, sub: seq<Byte>, rep: seq<Byte>): seq<Byte>
    requires |sub| >= 1
    decreases |s|
  {
    var i := Find(s, sub);
    if i < 0 then s else s[..i] + rep + Replaced(s[i + |sub|..], sub, rep)
  }

  // ---------------------------------------------------------------- what replacement means

  /** Pieces joined by a separator. */
  function Join(pieces: seq<seq<Byte>>, sep: seq<Byte>): seq<Byte>
    requires pieces != []
  {
    if |pieces| == 1 then pieces[0] else pieces[0] + sep + Join(pieces[1..], sep)
  }

  /** A cut of s at occurrences of sub that a scan from the left finds: in each piece but the last, followed
      by its separator, the separator is the first occurrence; in the last piece there is none. */
  ghost predicate Cut(pieces: seq<seq<Byte>>, s: seq<Byte>, sub: seq<Byte>) {
    && pieces != [] && s == Join(pieces, sub)
    && (forall k :: 0 <= k < |pieces| - 1 ==> NotBefore(pieces[k] + sub, sub, |pieces[k]|))
    && (var last := pieces[|pieces| - 1]; NotBefore(last, sub, |last|))
  }

  /** No occurrence starts before position n. */
  ghost predicate NotBefore(s: seq<Byte>, sub: seq<Byte>, n: nat) {
    forall i :: 0 <= i < n ==> !OccursAt(s, sub, i)
  }

  /** Some cut exists, and replacing is joining the same pieces with the replacement. */
  lemma {:induction false} ReplacedIsRejoined(s: seq<Byte>, sub: seq<Byte>, rep: seq<Byte>)
    returns (pieces: seq<seq<Byte>>)
    requires |sub| >= 1
    ensures Cut(pieces, s, sub) && Replaced(s, sub, rep) == Join(pieces, rep)
    decreases |s|
  {
    hide OccursAt, Find, Replaced, NotBefore, Join;
    ReplacedUnfold(s, sub, rep);
    var i := Find(s, sub);
    if i < 0 {
      pieces := [s];
      JoinOne(s, sub);
      JoinOne(s, rep);
      NothingBefore(s, sub);
    } else {
      var rest := s[i + |sub|..];
      var tail := ReplacedIsRejoined(rest, sub, rep);
      pieces := [s[..i]] + tail;
      JoinMore(s[..i], tail, rep);
      FoundFirst(s, sub);
      CutGrows(s[..i], tail, rest, sub);
    }
  }

  lemma ReplacedUnfold(s: seq<Byte>, sub: seq<Byte>, rep: seq<Byte>)
    requires |sub| >= 1
    ensures var i := Find(s, sub);
            if i < 0 then Replaced(s, sub, rep) == s
            else i + |sub| <= |s| && Replaced(s, sub, rep) == s[..i] + rep + Replaced(s[i + |sub|..], sub, rep)
  {
    hide Find;
  }

  lemma JoinOne(s: seq<Byte>, sep: seq<Byte>)
    ensures Join([s], sep) == s
  {
  }

  lemma JoinMore(first: seq<Byte>, tail: seq<seq<Byte>>, sep: seq<Byte>)
    requires tail != []
    ensures Join([first] + tail, sep) == first + sep + Join(tail, sep)
  {
    assert ([first] + tail)[1..] == tail;
  }

  lemma NothingBefore(s: seq<Byte>, sub: seq<Byte>)
    requires Find(s, sub) < 0
    ensures NotBefore(s, sub, |s|)
  {
    hide OccursAt, Find;
    forall k | 0 <= k < |s| ensures !OccursAt(s, sub, k) { if OccursAt(s, sub, k) { FindFirst(s, sub, k); } }
  }

  lemma FoundFirst(s: seq<Byte>, sub: seq<Byte>)
    requires Find(s, sub) >= 0
    ensures var i := Find(s, sub);
            i + |sub| <= |s| && s == s[..i] + sub + s[i + |sub|..] && NotBefore(s[..i] + sub, sub, i)
  {
    hide Find;
    var i := Find(s, sub);
    FoundAt(s, sub, i);
    hide OccursAt;
    forall k | 0 <= k < i ensures !OccursAt(s[..i] + sub, sub, k) {
      if OccursAt(s[..i + |sub|], sub, k) {
        OccursInPrefix(s, i + |sub|, sub, k);
        FindFirst(s, sub, k);
      }
    }
  }

  lemma FoundAt(s: seq<Byte>, sub: seq<Byte>, i: int)
    requires OccursAt(s, sub, i)
    ensures i + |sub| <= |s| && s == s[..i] + sub + s[i + |sub|..] && s[..i] + sub == s[..i + |sub|]
  {
  }

  lemma OccursInPrefix(s: seq<Byte>, n: nat, sub: seq<Byte>, k: int)
    requires n <= |s| && OccursAt(s[..n], sub, k)
    ensures OccursAt(s, sub, k)
  {
    assert s[..n][k..k + |sub|] == s[k..k + |sub|];
  }

  lemma CutGrows(first: seq<Byte>, tail: seq<seq<Byte>>, rest: seq<Byte>, sub: seq<Byte>)
    requires Cut(tail, rest, sub) && NotBefore(first + sub, sub, |first|)
    ensures Cut([first] + tail, first + sub + rest, sub)
  {
    hide NotBefore, Join;
    var pieces := [first] + tail;
    JoinMore(first, tail, sub);
    assert pieces[|pieces| - 1] == tail[|tail| - 1];
    forall k | 0 <= k < |pieces| - 1 ensures NotBefore(pieces[k] + sub, sub, |pieces[k]|) {
      if k > 0 { assert pieces[k] == tail[k - 1]; }
    }
  }

  /** There is only one such cut. */
  lemma {:induction false} CutUnique(p: seq<seq<Byte>>, q: seq<seq<Byte>>, s: seq<Byte>, sub: seq<Byte>)
    requires |sub| >= 1 && Cut(p, s, sub) && Cut(q, s, sub)
    ensures p == q
    decreases |p|
  {
    hide OccursAt, NotBefore, Join;
    FirstCut(p, s, sub);
    FirstCut(q, s, sub);
    if |p| == 1 || |q| == 1 {
      assert p == [s] && q == [s];
    } else {
      assert p[0] == q[0];
      CutUnique(p[1..], q[1..], s[|p[0]| + |sub|..], sub);
      assert p == [p[0]] + p[1..] && q == [q[0]] + q[1..];
    }
  }

  /** The first piece of a cut ends where the search finds the first occurrence. */
  lemma FirstCut(p: seq<seq<Byte>>, s: seq<Byte>, sub: seq<Byte>)
    requires |sub| >= 1 && Cut(p, s, sub)
    ensures |p| == 1 ==> p == [s] && Find(s, sub) < 0
    ensures |p| > 1 ==>
              && Find(s, sub) == |p[0]| && |p[0]| + |sub| <= |s| && p[0] == s[..|p[0]|]
              && Cut(p[1..], s[|p[0]| + |sub|..], sub)
  {
    hide Find;
    if |p| == 1 {
      assert p == [s];
      AbsentFind(s, sub);
    } else {
      var n, rest := |p[0]|, Join(p[1..], sub);
      JoinMore(p[0], p[1..], sub);
      assert p == [p[0]] + p[1..];
      assert s == (p[0] + sub) + rest;
      assert s[n..n + |sub|] == sub && s[n + |sub|..] == rest;
      FindFirst(s, sub, n);
      var i := Find(s, sub);
      assert s[..n + |sub|] == p[0] + sub;
      assert (p[0] + sub)[i..i + |sub|] == s[i..i + |sub|];
      assert OccursAt(p[0] + sub, sub, i);
      CutRest(p, sub);
    }
  }

  lemma AbsentFind(s: seq<Byte>, sub: seq<Byte>)
    requires |sub| >= 1 && NotBefore(s, sub, |s|)
    ensures Find(s, sub) < 0
  {
    hide Find;
  }

  lemma CutRest(p: seq<seq<Byte>>, sub: seq<Byte>)
    requires |p| > 1 && Cut(p, Join(p, sub), sub)
    ensures Cut(p[1..], Join(p[1..], sub), sub)
  {
    hide NotBefore, Join;
    var q := p[1..];
    assert q[|q| - 1] == p[|p| - 1];
    forall k | 0 <= k < |q| - 1 ensures NotBefore(q[k] + sub, sub, |q[k]|) { assert q[k] == p[k + 1]; }
  }

  // ---------------------------------------------------------------- the code

  datatype Ret = RetOk | RetDeny | RetNotFound

  lemma ReplacedStep(s: seq<Byte>, p: nat, sub: seq<Byte>, rep: seq<Byte>)
    requires |sub| >= 1 && p <= |s|
    ensures var i := Find(s[p..], sub);
            if i < 0 then Replaced(s[p..], sub, rep) == s[p..]
            else
              && p + i + |sub| <= |s|
              && Replaced(s[p..], sub, rep) == s[p..p + i] + rep + Replaced(s[p + i + |sub|..], sub, rep)
  {
    hide Find, Replaced;
    ReplacedUnfold(s[p..], sub, rep);
    var i := Find(s[p..], sub);
    if i >= 0 { assert s[p..][i + |sub|..] == s[p + i + |sub|..] && s[p..][..i] == s[p..p + i]; }
  }

  /** The sizing pass. */
  method ResultLength(s: seq<Byte>, sub: seq<Byte>, rep: seq<Byte>) returns (n: int, p: nat)
    requires |sub| >= 1
    ensures n == |Replaced(s, sub, rep)| && (p == 0 <==> Find(s, sub) < 0)
  {
    hide Find, Replaced;
    n, p := |s|, 0;
    assert s[0..] == s;
    while true
      invariant p <= |s| && n + |Replaced(s[p..], sub, rep)| - |s[p..]| == |Replaced(s, sub, rep)|
      invariant p > 0 ==> Find(s, sub) >= 0
      decreases |s| - p
    {
      ReplacedStep(s, p, sub, rep);
      var i := Find(s[p..], sub);
      if i < 0 { break; }
      n := n + (|rep| - |sub|);
      p := p + i + |sub|;
    }
  }

  method WritePiece(out: array<Byte>, k: nat, x: seq<Byte>, rep: seq<Byte>)
    requires k + |x| + |rep| <= out.Length
    modifies out
    ensures out[..k + |x| + |rep|] == old(out[..k]) + (x + rep)
  {
    Reassociate(out[..k], x, rep);
    Copy(out, k, x);
    Copy(out, k + |x|, rep);
  }

  /** The writing pass; it fills exactly what the sizing pass predicted. */
  method WriteResult(s: seq<Byte>, sub: seq<Byte>, rep: seq<Byte>, out: array<Byte>) returns (k: nat)
    requires |sub| >= 1 && |Replaced(s, sub, rep)| < out.Length
    modifies out
    ensures k == |Replaced(s, sub, rep)| && out[..k] == Replaced(s, sub, rep) && out[k] == 0
  {
    hide Find, Replaced;
    k := 0;
    var p := 0;
    assert s[0..] == s && out[..0] + Replaced(s, sub, rep) == Replaced(s, sub, rep);
    while true
      invariant p <= |s| && k + |Replaced(s[p..], sub, rep)| == |Replaced(s, sub, rep)|
      invariant out[..k] + Replaced(s[p..], sub, rep) == Replaced(s, sub, rep)
      decreases |s| - p
    {
      ReplacedStep(s, p, sub, rep);
      var i := Find(s[p..], sub);
      if i < 0 {
        Copy(out, k, s[p..]);
        k := k + (|s| - p);
        break;
      }
      Reassociate(out[..k], s[p..p + i] + rep, Replaced(s[p + i + |sub|..], sub, rep));
      WritePiece(out, k, s[p..p + i], rep);
      k := k + i + |rep|;
      p := p + i + |sub|;
    }
    out[k] := 0;
  }

  /** http2d_buffer_replace_string. */
  method ReplaceString(buf: Buffer, sub: seq<Byte>, rep: seq<Byte>) returns (ret: Ret)
    requires buf.Valid() && NulFree(buf.Content()) && NulFree(sub)
    modifies buf, buf.data
    ensures buf.Valid() && (buf.data == old(buf.data) || fresh(buf.data))
    ensures ret == if |sub| < 1 || old(buf.data.Length) == 0 then RetDeny else RetOk
    ensures buf.Content() == if ret == RetDeny then old(buf.Content()) else Replaced(old(buf.Content()), sub, rep)
  {
    hide Find, Replaced;
    if buf.data.Length == 0 || |sub| < 1 { return RetDeny; }
    var s := buf.data[..buf.len];
    var n, p := ResultLength(s, sub, rep);
    NoneReplaced(s, sub, rep);
    if p == 0 { return RetOk; }
    if n < 1 {
      buf.Clean();
      return RetOk;
    }
    var result := new Byte[n + 1](i => 0);
    var k := WriteResult(s, sub, rep, result);
    buf.data := result;
    buf.len := n;
    ret := RetOk;
  }

  /** http2d_buffer_substitute_string: the destination is emptied first; it stays so when nothing is
      found. */
  method SubstituteString(src: Buffer, dst: Buffer, sub: seq<Byte>, rep: seq<Byte>) returns (ret: Ret)
    requires src.Valid() && dst.Valid() && dst != src && dst.data != src.data && NulFree(src.Content()) && NulFree(sub)
    modifies dst, dst.data
    ensures dst.Valid() && src.Valid() && src.Content() == old(src.Content())
    ensures ret == if |sub| < 1 || src.data.Length == 0 || old(dst.data.Length) == 0 then RetDeny
                   else if Find(src.Content(), sub) < 0 then RetNotFound else RetOk
    ensures ret == RetOk ==> dst.Content() == Replaced(src.Content(), sub, rep)
    ensures ret == RetNotFound ==> dst.Content() == []
    ensures ret == RetDeny ==> dst.Content() == old(dst.Content())
  {
    hide Find, Replaced;
    if src.data.Length == 0 || dst.data.Length == 0 || |sub| < 1 { return RetDeny; }
    dst.Clean();
    var s := src.data[..src.len];
    var n, p := ResultLength(s, sub, rep);
    if p == 0 { return RetNotFound; }
    if n < 1 { return RetOk; }
    if n + 2 > dst.data.Length {
      dst.data := new Byte[n + 2](i => 0);
    }
    var k := WriteResult(s, sub, rep, dst.data);
    dst.len := n;
    ret := RetOk;
  }

  lemma NoneReplaced(s: seq<Byte>, sub: seq<Byte>, rep: seq<Byte>)
    requires |sub| >= 1
    ensures Find(s, sub) < 0 ==> Replaced(s, sub, rep) == s
  {
  }
}
