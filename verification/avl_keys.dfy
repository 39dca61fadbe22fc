/** Keys of the AVL tree (src/avl.c): byte strings ordered by length first and then by strncmp or
    strncasecmp, with the comparison result squeezed into a C short by the tree code. */
module AvlKeys {
  import opened Common

  type Key = seq<Byte>

  /** tolower() in the C locale. */
  function Lower(c: Byte): Byte {
    if 65 <= c <= 90 then c + 32 else c
  }

  function FoldByte(ignoreCase: bool, c: Byte): Byte {
    if ignoreCase then Lower(c) else c
  }

  /** strncmp / strncasecmp over the common length: stops at the first difference or at a NUL. */
  function StrNCmp(ignoreCase: bool, a: Key, b: Key): int
    requires |a| == |b|
  {
    if a == [] then 0
    else
      var x, y := FoldByte(ignoreCase, a[0]), FoldByte(ignoreCase, b[0]);
      if x != y then x - y
      else if x == 0 then 0
      else StrNCmp(ignoreCase, a[1..], b[1..])
  }

  /** http2d_buffer_cmp_buf and http2d_buffer_case_cmp_buf. */
  function CmpBuf(ignoreCase: bool, a: Key, b: Key): int {
    if |a| != |b| then |a| - |b| else StrNCmp(ignoreCase, a, b)
  }

  /** Conversion of an int to a 16-bit short: wraps modulo 2^16. */
  function Short(x: int): int {
    (x + 0x8000) % 0x1_0000 - 0x8000
  }

  /** What the tree code sees: the comparison result stored in a short. */
  function NodeCmp(ignoreCase: bool, a: Key, b: Key): int {
    Short(CmpBuf(ignoreCase, a, b))
  }

  function Sign(x: int): int {
    if x < 0 then -1 else if x > 0 then 1 else 0
  }

  /** A key as the comparison sees it: bytes folded, everything after the first NUL blanked. */
  function Canon(ignoreCase: bool, k: Key): (c: Key)
    ensures |c| == |k|
  {
    if k == [] then []
    else if FoldByte(ignoreCase, k[0]) == 0 then seq(|k|, _ => 0)
    else [FoldByte(ignoreCase, k[0])] + Canon(ignoreCase, k[1..])
  }

  /** Base-256 value of s appended to the digits already read. */
  function Digits(acc: int, s: Key): int
    decreases |s|
  {
    if s == [] then acc else Digits(acc * 256 + s[0], s[1..])
  }

  /** The position of a key in the order: the number whose base-256 digits are 1 followed by the key. */
  function Rank(ignoreCase: bool, k: Key): int {
    Digits(1, Canon(ignoreCase, k))
  }

  lemma {:induction false} DigitsSameLength(x: int, a: Key, y: int, b: Key)
    requires |a| == |b| && x < y
    ensures Digits(x, a) < Digits(y, b)
    decreases |a|
  {
    if a != [] {
      DigitsSameLength(x * 256 + a[0], a[1..], y * 256 + b[0], b[1..]);
    }
  }

  lemma {:induction false} DigitsLonger(x: int, a: Key, y: int, b: Key)
    requires |a| < |b| && 1 <= x <= y
    ensures Digits(x, a) < Digits(y, b)
    decreases |b|
  {
    if |b| == |a| + 1 {
      DigitsSameLength(x, a, y * 256 + b[0], b[1..]);
    } else {
      DigitsLonger(x, a, y * 256 + b[0], b[1..]);
    }
  }

  lemma {:induction false} SameLengthByDigits(ignoreCase: bool, acc: int, a: Key, b: Key)
    requires |a| == |b|
    ensures Sign(StrNCmp(ignoreCase, a, b)) ==
            Sign(Digits(acc, Canon(ignoreCase, a)) - Digits(acc, Canon(ignoreCase, b)))
    decreases |a|
  {
    if a != [] {
      var x, y := FoldByte(ignoreCase, a[0]), FoldByte(ignoreCase, b[0]);
      var ca, cb := Canon(ignoreCase, a), Canon(ignoreCase, b);
      assert ca[0] == x && cb[0] == y;
      if x < y {
        DigitsSameLength(acc * 256 + x, ca[1..], acc * 256 + y, cb[1..]);
      } else if y < x {
        DigitsSameLength(acc * 256 + y, cb[1..], acc * 256 + x, ca[1..]);
      } else if x == 0 {
        assert ca == cb;
      } else {
        SameLengthByDigits(ignoreCase, acc * 256 + x, a[1..], b[1..]);
        assert ca[1..] == Canon(ignoreCase, a[1..]) && cb[1..] == Canon(ignoreCase, b[1..]);
      }
    }
  }

  /** The comparison is exactly the order of the ranks, for every pair of keys, NUL bytes included. */
  lemma CmpBufIsRankOrder(ignoreCase: bool, a: Key, b: Key)
    ensures Sign(CmpBuf(ignoreCase, a, b)) == Sign(Rank(ignoreCase, a) - Rank(ignoreCase, b))
  {
    if |a| < |b| {
      DigitsLonger(1, Canon(ignoreCase, a), 1, Canon(ignoreCase, b));
    } else if |b| < |a| {
      DigitsLonger(1, Canon(ignoreCase, b), 1, Canon(ignoreCase, a));
    } else {
      SameLengthByDigits(ignoreCase, 1, a, b);
    }
  }

  lemma {:induction false} StrNCmpRange(ignoreCase: bool, a: Key, b: Key)
    requires |a| == |b|
    ensures -256 < StrNCmp(ignoreCase, a, b) < 256
    decreases |a|
  {
    if a != [] {
      StrNCmpRange(ignoreCase, a[1..], b[1..]);
    }
  }

  lemma ShortByRemainder(d: int, q: int, r: int)
    requires d == q * 0x1_0000 + r && 0 <= r < 0x1_0000
    ensures Short(d) == if r < 0x8000 then r else r - 0x1_0000
  {
    if r < 0x8000 {
      RemainderIs(d + 0x8000, q, r + 0x8000);
    } else {
      RemainderIs(d + 0x8000, q + 1, r - 0x8000);
    }
  }

  lemma RemainderIs(x: int, q: int, r: int)
    requires x == q * 0x1_0000 + r && 0 <= r < 0x1_0000
    ensures x % 0x1_0000 == r
  {
  }

  /** A length difference whose sign survives a short. */
  predicate Survives(d: int) {
    d == 0 || (d > 0 && 0 < d % 0x1_0000 < 0x8000) || (d < 0 && 0 < (-d) % 0x1_0000 <= 0x8000)
  }

  /** Exactly when squeezing a length difference into a short keeps its sign. */
  lemma ShortKeepsSignIff(d: int)
    ensures Sign(Short(d)) == Sign(d) <==> Survives(d)
  {
    var q, r := d / 0x1_0000, d % 0x1_0000;
    ShortByRemainder(d, q, r);
    if r == 0 {
      RemainderIs(-d, -q, 0);
    } else {
      RemainderIs(-d, -q - 1, 0x1_0000 - r);
    }
  }

  /** Keys the tree orders rightly. */
  predicate Comparable(a: Key, b: Key) { Survives(|a| - |b|) }

  lemma SameLengthInRange(ignoreCase: bool, a: Key, b: Key)
    requires |a| == |b|
    ensures NodeCmp(ignoreCase, a, b) == CmpBuf(ignoreCase, a, b)
  {
    StrNCmpRange(ignoreCase, a, b);
  }

  /** For every two keys: the sign the tree branches on is the order of the ranks exactly when the length
      difference survives the short. */
  lemma NodeCmpIsRankOrderIff(ignoreCase: bool, a: Key, b: Key)
    ensures Sign(NodeCmp(ignoreCase, a, b)) == Sign(Rank(ignoreCase, a) - Rank(ignoreCase, b)) <==> Comparable(a, b)
  {
    hide Rank, Short, StrNCmp;
    CmpBufIsRankOrder(ignoreCase, a, b);
    if |a| == |b| {
      SameLengthInRange(ignoreCase, a, b);
    } else {
      ShortKeepsSignIff(|a| - |b|);
    }
  }

  /** Lengths less than 2^15 apart are close enough. */
  lemma CloseKeysCompare(a: Key, b: Key)
    requires -0x8000 < |a| - |b| < 0x8000
    ensures Comparable(a, b)
  {
  }

  /** For every two keys: the tree takes them for the same key exactly when they share a rank, or when
      their lengths differ by a multiple of 2^16 although their ranks are different. */
  lemma LookEqualIff(ignoreCase: bool, a: Key, b: Key)
    ensures |a| != |b| ==> Rank(ignoreCase, a) != Rank(ignoreCase, b)
    ensures NodeCmp(ignoreCase, a, b) == 0 <==>
            if |a| == |b| then Rank(ignoreCase, a) == Rank(ignoreCase, b) else (|a| - |b|) % 0x1_0000 == 0
  {
    hide Rank, Short, StrNCmp;
    CmpBufIsRankOrder(ignoreCase, a, b);
    if |a| == |b| {
      SameLengthInRange(ignoreCase, a, b);
    } else {
      var d := |a| - |b|;
      ShortByRemainder(d, d / 0x1_0000, d % 0x1_0000);
    }
  }

  lemma {:induction false} DigitsInjective(x: int, a: Key, y: int, b: Key)
    requires |a| == |b| && Digits(x, a) == Digits(y, b)
    ensures x == y && a == b
    decreases |a|
  {
    if x < y {
      DigitsSameLength(x, a, y, b);
    } else if y < x {
      DigitsSameLength(y, b, x, a);
    } else if a != [] {
      DigitsInjective(x * 256 + a[0], a[1..], y * 256 + b[0], b[1..]);
      assert a == [a[0]] + a[1..] && b == [b[0]] + b[1..];
    }
  }

  /** Two keys share a rank exactly when they are the same up to case folding and bytes after a NUL. */
  lemma SameRankIff(ignoreCase: bool, a: Key, b: Key)
    ensures Rank(ignoreCase, a) == Rank(ignoreCase, b) <==> Canon(ignoreCase, a) == Canon(ignoreCase, b)
  {
    if Rank(ignoreCase, a) == Rank(ignoreCase, b) {
      if |a| < |b| {
        DigitsLonger(1, Canon(ignoreCase, a), 1, Canon(ignoreCase, b));
      } else if |b| < |a| {
        DigitsLonger(1, Canon(ignoreCase, b), 1, Canon(ignoreCase, a));
      } else {
        DigitsInjective(1, Canon(ignoreCase, a), 1, Canon(ignoreCase, b));
      }
    }
  }

  /** The same byte, or one letter in its two cases. */
  predicate SameLetter(x: Byte, y: Byte) {
    x == y || (65 <= x <= 90 && y == x + 32) || (65 <= y <= 90 && x == y + 32)
  }

  /** The same byte for a tree that minds case, or does not. */
  predicate SameByte(ignoreCase: bool, x: Byte, y: Byte) {
    x == y || (ignoreCase && SameLetter(x, y))
  }

  /** Two spellings of one key: of one length, the same at every position that no NUL of the first precedes. */
  ghost predicate SameKey(ignoreCase: bool, a: Key, b: Key) {
    |a| == |b| && forall i :: 0 <= i < |a| && NulFree(a[..i]) ==> SameByte(ignoreCase, a[i], b[i])
  }

  lemma FoldSame(ignoreCase: bool, x: Byte, y: Byte)
    ensures FoldByte(ignoreCase, x) == FoldByte(ignoreCase, y) <==> SameByte(ignoreCase, x, y)
    ensures FoldByte(ignoreCase, x) == 0 <==> x == 0
  {
  }

  lemma NulFreeRest(a: Key, i: nat)
    requires 0 < i <= |a|
    ensures NulFree(a[..i]) <==> a[0] != 0 && NulFree(a[1..][..i - 1])
  {
    assert a[..i] == [a[0]] + a[1..][..i - 1];
  }

  lemma SameKeyStep(ignoreCase: bool, a: Key, b: Key)
    requires |a| == |b| != 0
    ensures SameKey(ignoreCase, a, b) <==>
            SameByte(ignoreCase, a[0], b[0]) && (a[0] == 0 || SameKey(ignoreCase, a[1..], b[1..]))
  {
    hide SameByte;
    assert NulFree(a[..0]);
    if SameKey(ignoreCase, a, b) && a[0] != 0 {
      forall i | 0 <= i < |a| - 1 && NulFree(a[1..][..i])
        ensures SameByte(ignoreCase, a[1..][i], b[1..][i])
      {
        NulFreeRest(a, i + 1);
      }
    }
    if SameByte(ignoreCase, a[0], b[0]) && (a[0] == 0 || SameKey(ignoreCase, a[1..], b[1..])) {
      forall i | 0 < i < |a| && NulFree(a[..i])
        ensures SameByte(ignoreCase, a[i], b[i])
      {
        NulFreeRest(a, i);
        assert a[1..][i - 1] == a[i] && b[1..][i - 1] == b[i];
      }
    }
  }

  lemma {:induction false} CanonSame(ignoreCase: bool, a: Key, b: Key)
    requires |a| == |b|
    ensures Canon(ignoreCase, a) == Canon(ignoreCase, b) <==> SameKey(ignoreCase, a, b)
    decreases |a|
  {
    hide FoldByte, SameByte, SameKey;
    if a == [] {
      NoLetters(ignoreCase, a, b);
    } else {
      FoldSame(ignoreCase, a[0], b[0]);
      SameKeyStep(ignoreCase, a, b);
      CanonSame(ignoreCase, a[1..], b[1..]);
      CanonStep(ignoreCase, a);
      CanonStep(ignoreCase, b);
      var x, y := Canon(ignoreCase, a), Canon(ignoreCase, b);
      if a[0] != 0 && x == y {
        assert x[1..] == y[1..] && x[0] == y[0];
      }
    }
  }

  lemma NoLetters(ignoreCase: bool, a: Key, b: Key)
    requires a == [] == b
    ensures SameKey(ignoreCase, a, b)
  {
  }

  lemma CanonStep(ignoreCase: bool, a: Key)
    requires a != []
    ensures Canon(ignoreCase, a)[0] == FoldByte(ignoreCase, a[0])
    ensures a[0] == 0 ==> Canon(ignoreCase, a) == seq(|a|, _ => 0)
    ensures a[0] != 0 ==> Canon(ignoreCase, a)[1..] == Canon(ignoreCase, a[1..])
  {
  }

  /** For every two keys: they share a rank, and the tree takes one for the other, exactly when they are
      spellings of one key. */
  lemma SameRankOfSpellings(ignoreCase: bool, a: Key, b: Key)
    ensures Rank(ignoreCase, a) == Rank(ignoreCase, b) <==> SameKey(ignoreCase, a, b)
  {
    hide Rank, Canon;
    SameRankIff(ignoreCase, a, b);
    if |a| == |b| {
      CanonSame(ignoreCase, a, b);
    }
  }

  /** For keys without NUL bytes that is: of one length and the same at every position. */
  lemma SpellingsOfText(ignoreCase: bool, a: Key, b: Key)
    requires NulFree(a)
    ensures Rank(ignoreCase, a) == Rank(ignoreCase, b) <==>
            |a| == |b| && forall i :: 0 <= i < |a| ==> SameByte(ignoreCase, a[i], b[i])
  {
    hide Rank, SameByte;
    SameRankOfSpellings(ignoreCase, a, b);
  }

  /** The spelling of a byte that decides the order: its small letter when case is ignored. */
  predicate Decides(ignoreCase: bool, x: Byte, small: Byte) {
    SameByte(ignoreCase, x, small) && (ignoreCase ==> !(65 <= small <= 90))
  }

  lemma FoldDecides(ignoreCase: bool, x: Byte, small: Byte)
    requires Decides(ignoreCase, x, small)
    ensures FoldByte(ignoreCase, x) == small
  {
  }

  lemma {:induction false} DigitsDiffer(ignoreCase: bool, acc: int, a: Key, b: Key, i: nat, x: Byte, y: Byte)
    requires |a| == |b| && i < |a| && NulFree(a[..i]) && SameKey(ignoreCase, a[..i], b[..i])
    requires Decides(ignoreCase, a[i], x) && Decides(ignoreCase, b[i], y) && x < y
    ensures Digits(acc, Canon(ignoreCase, a)) < Digits(acc, Canon(ignoreCase, b))
    decreases i
  {
    hide SameKey, Decides, SameByte, FoldByte, Canon;
    var ca, cb := Canon(ignoreCase, a), Canon(ignoreCase, b);
    CanonStep(ignoreCase, a);
    CanonStep(ignoreCase, b);
    if i == 0 {
      FoldDecides(ignoreCase, a[0], x);
      FoldDecides(ignoreCase, b[0], y);
      DigitsSameLength(acc * 256 + x, ca[1..], acc * 256 + y, cb[1..]);
    } else {
      SameKeyStep(ignoreCase, a[..i], b[..i]);
      FoldSame(ignoreCase, a[0], b[0]);
      FoldSame(ignoreCase, b[0], a[0]);
      assert a[..i][0] == a[0] && a[..i][1..] == a[1..][..i - 1] && b[..i][1..] == b[1..][..i - 1];
      NulFreeRest(a, i);
      DigitsDiffer(ignoreCase, acc * 256 + ca[0], a[1..], b[1..], i - 1, x, y);
    }
  }

  /** The shorter of two keys ranks lower. */
  lemma ShorterRanksLower(ignoreCase: bool, a: Key, b: Key)
    requires |a| < |b|
    ensures Rank(ignoreCase, a) < Rank(ignoreCase, b)
  {
    hide Canon;
    DigitsLonger(1, Canon(ignoreCase, a), 1, Canon(ignoreCase, b));
  }

  /** Of two keys of one length that with the lower byte ranks lower, letters taken small when case is
      ignored, at the first position where they are not the same. */
  lemma LowerByteRanksLower(ignoreCase: bool, a: Key, b: Key, i: nat, x: Byte, y: Byte)
    requires |a| == |b| && i < |a| && NulFree(a[..i]) && SameKey(ignoreCase, a[..i], b[..i])
    requires Decides(ignoreCase, a[i], x) && Decides(ignoreCase, b[i], y) && x < y
    ensures Rank(ignoreCase, a) < Rank(ignoreCase, b)
  {
    hide SameKey, Decides, Canon;
    DigitsDiffer(ignoreCase, 1, a, b, i, x, y);
  }

  /** NUL-free keys of a case-sensitive tree are their own canonical form. */
  lemma {:induction false} CanonOfText(k: Key)
    requires 0 !in k
    ensures Canon(false, k) == k
  {
    if k != [] {
      CanonOfText(k[1..]);
      assert k == [k[0]] + k[1..];
    }
  }
}
