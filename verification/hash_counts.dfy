/** Arithmetic of message lengths: two-word counters and numbers spelled in bytes. */
module HashCounts {
  import opened Common
  import opened HashBlocks

  const M32: nat := 0x1_0000_0000

  const M64: nat := 0x1_0000_0000_0000_0000

  function Low8(x: nat): Byte { x % 256 }

  /** The four bytes of the low 32 bits of x, most significant first. */
  function Bytes4(x: nat): (r: seq<Byte>)
    ensures |r| == 4
  {
    [Low8(x / 0x100_0000), Low8(x / 0x1_0000), Low8(x / 0x100), Low8(x)]
  }

  /** Adding to the low word carries exactly when the sum comes out smaller. */
  lemma LowCarry(x: nat, c: nat)
    ensures var lo, lo' := x % M32, (x % M32 + c) % M32;
            && lo' == (x + c) % M32
            && (x + c) / M32 == x / M32 + c / M32 + if lo' < lo then 1 else 0
  {
    var lo, k := x % M32, c % M32;
    assert x == M32 * (x / M32) + lo && c == M32 * (c / M32) + k;
    var q := if lo + k < M32 then 0 else 1;
    DivUnique(x + c, x / M32 + c / M32 + q, lo + k - q * M32);
    DivUnique(lo + c, c / M32 + q, lo + k - q * M32);
  }

  lemma DivUnique(x: nat, q: nat, r: nat)
    requires x == M32 * q + r && r < M32
    ensures x / M32 == q && x % M32 == r
  {
  }

  lemma ModAdd(a: nat, b: nat, k: nat)
    requires a % M32 == b % M32
    ensures (a + k) % M32 == (b + k) % M32
  {
  }

  lemma Mod64(x: nat)
    ensures x % M64 % M32 == x % M32
  {
  }

  lemma ModShift(a: nat, k: nat)
    ensures (a + 64 * k) % 64 == a % 64
  {
  }

  lemma HighWord(x: nat)
    ensures x % M64 / M32 == x / M32 % M32
  {
    var q := x / M64;
    var r := x % M64;
    assert x == M64 * q + r;
    DivUnique(x, M32 * q + r / M32, r % M32);
    assert r / M32 < M32;
    DivUnique(x / M32, q, r / M32);
  }

  lemma Bytes4Mod(x: nat)
    ensures Bytes4(x) == Bytes4(x % M32)
  {
    hide Low8;
    Digits(x / M32, x % M32);
    Low8Mod(x / 0x100_0000, x % M32 / 0x100_0000, x / M32);
    Low8Mod(x / 0x1_0000, x % M32 / 0x1_0000, 0x100 * (x / M32));
    Low8Mod(x / 0x100, x % M32 / 0x100, 0x1_0000 * (x / M32));
    Low8Mod(x, x % M32, 0x100_0000 * (x / M32));
  }

  lemma Digits(q: nat, r: nat)
    requires r < M32
    ensures (M32 * q + r) / 0x100_0000 == 256 * q + r / 0x100_0000
    ensures (M32 * q + r) / 0x1_0000 == 256 * (0x100 * q) + r / 0x1_0000
    ensures (M32 * q + r) / 0x100 == 256 * (0x1_0000 * q) + r / 0x100
  {
  }

  lemma Low8Mod(x: nat, y: nat, k: nat)
    requires x == 256 * k + y
    ensures Low8(x) == Low8(y)
  {
  }

  lemma TailLen(m: seq<Byte>)
    ensures |Tail(m)| == |m| % 64
  {
  }

  /** The number that bytes spell, most significant first. */
  function Spelled(s: seq<Byte>): nat {
    if s == [] then 0 else 256 * Spelled(s[..|s| - 1]) + s[|s| - 1]
  }

  lemma SpelledAppend(s: seq<Byte>, b: Byte)
    ensures Spelled(s + [b]) == 256 * Spelled(s) + b
  {
    assert (s + [b])[..|s|] == s;
  }

  lemma {:induction false} SpelledConcat4(s: seq<Byte>, x: nat)
    requires x < M32
    ensures Spelled(s + Bytes4(x)) == M32 * Spelled(s) + x
  {
    hide Spelled;
    var a, b, c := x / 0x100_0000, x / 0x1_0000, x / 0x100;
    assert s + Bytes4(x) == s + [Low8(a)] + [Low8(b)] + [Low8(c)] + [Low8(x)];
    SpelledAppend(s, Low8(a));
    SpelledAppend(s + [Low8(a)], Low8(b));
    SpelledAppend(s + [Low8(a)] + [Low8(b)], Low8(c));
    SpelledAppend(s + [Low8(a)] + [Low8(b)] + [Low8(c)], Low8(x));
    FourDigits(x);
  }

  lemma FourDigits(x: nat)
    requires x < M32
    ensures x == 0x100_0000 * (x / 0x100_0000 % 256) + 0x1_0000 * (x / 0x1_0000 % 256)
               + 0x100 * (x / 0x100 % 256) + x % 256
  {
    var c := x / 0x100;
    var b := c / 0x100;
    assert x / 0x1_0000 == b;
    assert x / 0x100_0000 == b / 0x100;
  }

  lemma SpelledNone()
    ensures Spelled([]) == 0
  {
  }
}
