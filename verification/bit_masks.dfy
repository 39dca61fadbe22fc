/** Masks and ors of the source on non-negative numbers, and the arithmetic the models write for them. A
    shift is a product or a quotient by a power of two. */
module BitMasks {
  import opened Common
  import Base64
  import M = Md5Digest
  import S = Sha1Digest
  import U = UriEscape
  import F = SpdyFrames

  /** The operators & and |, bit by bit. */
  function And(x: nat, y: nat): nat {
    if x == 0 || y == 0 then 0 else 2 * And(x / 2, y / 2) + if x % 2 == 1 && y % 2 == 1 then 1 else 0
  }

  function Or(x: nat, y: nat): nat
    decreases x + y
  {
    if x == 0 then y else if y == 0 then x
    else 2 * Or(x / 2, y / 2) + if x % 2 == 1 || y % 2 == 1 then 1 else 0
  }

  /** The operators << and >>. */
  function Shl(x: nat, k: nat): nat {
    if k == 0 then x else 2 * Shl(x, k - 1)
  }

  function Shr(x: nat, k: nat): nat
    decreases k
  {
    if k == 0 then x else Shr(x / 2, k - 1)
  }

  /** The k lowest bits, and a number of k bits that are all set. */
  function Low(x: nat, k: nat): nat
    decreases k
  {
    if k == 0 then 0 else 2 * Low(x / 2, k - 1) + x % 2
  }

  function Ones(k: nat): nat {
    if k == 0 then 0 else 2 * Ones(k - 1) + 1
  }

  function Pow2(k: nat): (p: nat)
    ensures p >= 1
  {
    if k == 0 then 1 else 2 * Pow2(k - 1)
  }

  // ---------------------------------------------------------------- laws

  lemma AndStep(x: nat, y: nat)
    ensures And(x, y) == 2 * And(x / 2, y / 2) + if x % 2 == 1 && y % 2 == 1 then 1 else 0
  {
  }

  lemma OrStep(x: nat, y: nat)
    ensures Or(x, y) == 2 * Or(x / 2, y / 2) + if x % 2 == 1 || y % 2 == 1 then 1 else 0
  {
  }

  /** A mask of low bits keeps those. */
  lemma {:induction false} LowMask(x: nat, k: nat)
    ensures And(x, Ones(k)) == Low(x, k)
    decreases k
  {
    hide And;
    if k > 0 {
      AndStep(x, Ones(k));
      LowMask(x / 2, k - 1);
    } else {
      NoBits(x);
    }
  }

  lemma NoBits(x: nat)
    ensures And(x, 0) == 0
  {
  }

  /** A mask whose low bits are zero. */
  lemma {:induction false} HighMask(x: nat, y: nat, k: nat)
    ensures And(x, Shl(y, k)) == Shl(And(Shr(x, k), y), k)
    decreases k
  {
    hide And;
    if k > 0 {
      AndStep(x, Shl(y, k));
      HighMask(x / 2, y, k - 1);
    }
  }

  /** An operand whose low bits are zero. */
  lemma {:induction false} OrHigh(x: nat, y: nat, k: nat)
    ensures Or(x, Shl(y, k)) == Shl(Or(Shr(x, k), y), k) + Low(x, k)
    decreases k
  {
    hide Or;
    if k > 0 {
      OrStep(x, Shl(y, k));
      OrHigh(x / 2, y, k - 1);
    }
  }

  lemma {:induction false} OrSwaps(x: nat, y: nat)
    ensures Or(x, y) == Or(y, x)
    decreases x + y
  {
    if x > 0 && y > 0 { OrSwaps(x / 2, y / 2); }
  }

  lemma {:induction false} Split(x: nat, k: nat)
    ensures Shl(Shr(x, k), k) + Low(x, k) == x
    decreases k
  {
    if k > 0 { Split(x / 2, k - 1); }
  }

  /** Operands that share no bit: or is a sum. */
  lemma OrApart(x: nat, y: nat, k: nat)
    requires Shr(y, k) == 0
    ensures Or(Shl(x, k), y) == Shl(x, k) + y
  {
    OrSwaps(Shl(x, k), y);
    OrHigh(y, x, k);
    Split(y, k);
    ShlZero(k);
  }

  lemma {:induction false} ShlZero(k: nat)
    ensures Shl(0, k) == 0
  {
    if k > 0 { ShlZero(k - 1); }
  }

  // ---------------------------------------------------------------- numbers

  lemma NoMultiple(d: int, k: int)
    requires -d < d * k < d
    ensures k == 0
  {
    assert k >= 1 ==> d * k == d + d * (k - 1);
    assert k <= -1 ==> d * k == -d + d * (k + 1);
    assert k >= 1 ==> d * (k - 1) >= 0;
    assert k <= -1 ==> d * (k + 1) <= 0;
  }

  lemma Quotient(x: nat, d: nat, q: nat, r: nat)
    requires d >= 1 && x == d * q + r && r < d
    ensures x / d == q && x % d == r
  {
    assert x == d * (x / d) + x % d;
    assert d * (q - x / d) == x % d - r;
    NoMultiple(d, q - x / d);
  }

  /** Halving first. */
  lemma HalveFirst(x: nat, p: nat)
    requires p >= 1
    ensures x / (2 * p) == x / 2 / p && x % (2 * p) == 2 * (x / 2 % p) + x % 2
  {
    var h := x / 2;
    assert h == p * (h / p) + h % p;
    assert x == 2 * p * (h / p) + (2 * (h % p) + x % 2);
    Quotient(x, 2 * p, h / p, 2 * (h % p) + x % 2);
  }

  /** Shifts are products and quotients, and the low bits a remainder. */
  lemma {:induction false} Arithmetic(x: nat, k: nat)
    ensures Shr(x, k) == x / Pow2(k) && Low(x, k) == x % Pow2(k)
    decreases k
  {
    if k > 0 {
      HalveFirst(x, Pow2(k - 1));
      Arithmetic(x / 2, k - 1);
    }
  }

  lemma {:induction false} Product(x: nat, k: nat)
    ensures Shl(x, k) == x * Pow2(k) && Ones(k) == Pow2(k) - 1
    decreases k
  {
    if k > 0 { Product(x, k - 1); }
  }

  lemma Powers()
    ensures Pow2(1) == 2 && Pow2(2) == 4 && Pow2(3) == 8 && Pow2(4) == 16 && Pow2(5) == 32 && Pow2(6) == 64
    ensures Pow2(7) == 128 && Pow2(15) == 0x8000 && Pow2(24) == 0x100_0000 && Pow2(29) == 0x2000_0000
  {
    assert Pow2(8) == 256;
    assert Pow2(16) == 0x1_0000;
  }

  /** A mask of k low bits is a remainder by p = 2^k. */
  lemma MaskIs(x: nat, k: nat, p: nat)
    requires p == Pow2(k)
    ensures And(x, p - 1) == x % p && Shr(x, k) == x / p && Low(x, k) == x % p
  {
    hide And, Shr, Low, Ones, Pow2;
    LowMask(x, k);
    Arithmetic(x, k);
    Product(x, k);
  }

  /** An or with a multiple of p = 2^k of something below p is a sum. */
  lemma OrIs(x: nat, y: nat, k: nat, p: nat)
    requires p == Pow2(k) && y < p
    ensures Or(x * p, y) == x * p + y
  {
    hide Or, Shl, Shr, Low, Pow2;
    Product(x, k);
    Arithmetic(y, k);
    Quotient(y, p, 0, y);
    OrApart(x, y, k);
  }

  // ---------------------------------------------------------------- the models

  /** The letters of the base64 encoder, as the code picks them. */
  lemma EncoderSextets(a: Byte, b: Byte, c: Byte)
    ensures Base64.First(a) == Shr(a, 2)
    ensures Base64.Second(a, b) == Or(Shl(And(a, 3), 4), Shr(b, 4))
    ensures Base64.Third(b, c) == Or(Shl(And(b, 15), 2), Shr(c, 6))
    ensures Base64.Fourth(c) == And(c, 63)
  {
    hide And, Or, Shl, Shr, Low, Pow2;
    Powers();
    MaskIs(a, 2, 4);
    MaskIs(b, 4, 16);
    MaskIs(c, 6, 64);
    Product(a % 4, 4);
    Product(b % 16, 2);
    OrIs(a % 4, b / 16, 4, 16);
    OrIs(b % 16, c / 64, 2, 4);
  }

  /** The bytes of the base64 decoder. */
  lemma DecoderBytes(p: Base64.Sextet, d: Base64.Sextet)
    ensures Base64.Byte1(p, d) == Or(Shl(p, 2), Shr(And(d, 0x30), 4))
    ensures Base64.Byte2(p, d) == Or(Shl(And(p, 0xf), 4), Shr(And(d, 0x3c), 2))
    ensures Base64.Byte3(p, d) == Or(Shl(And(p, 0x03), 6), d)
  {
    hide *;
    FirstByte(p, d);
    SecondByte(p, d);
    ThirdByte(p, d);
  }

  lemma FirstByte(p: Base64.Sextet, d: Base64.Sextet)
    ensures Base64.Byte1(p, d) == Or(Shl(p, 2), Shr(And(d, 0x30), 4))
  {
    hide And, Or, Shl, Shr, Low, Pow2;
    Powers();
    HighMask(d, 3, 4);
    Product(3, 4);
    Arithmetic(d, 4);
    MaskIs(d / 16, 2, 4);
    Product(d / 16, 4);
    MaskIs(d / 16 * 16, 4, 16);
    Product(p, 2);
    OrIs(p, d / 16, 2, 4);
  }

  lemma SecondByte(p: Base64.Sextet, d: Base64.Sextet)
    ensures Base64.Byte2(p, d) == Or(Shl(And(p, 0xf), 4), Shr(And(d, 0x3c), 2))
  {
    hide And, Or, Shl, Shr, Low, Pow2;
    Powers();
    HighMask(d, 15, 2);
    Product(15, 2);
    Arithmetic(d, 2);
    MaskIs(d / 4, 4, 16);
    Product(d / 4, 2);
    MaskIs(d / 4 * 4, 2, 4);
    MaskIs(p, 4, 16);
    Product(p % 16, 4);
    OrIs(p % 16, d / 4, 4, 16);
  }

  lemma ThirdByte(p: Base64.Sextet, d: Base64.Sextet)
    ensures Base64.Byte3(p, d) == Or(Shl(And(p, 0x03), 6), d)
  {
    hide And, Or, Shl, Shr, Low, Pow2;
    Powers();
    MaskIs(p, 2, 4);
    Product(p % 4, 6);
    OrIs(p % 4, d, 6, 64);
  }

  /** The second length word of MD5, of two 32-bit counters; hi << 3 loses its upper bits. */
  lemma LengthWord(hi: nat, lo: nat)
    requires lo < 0x1_0000_0000
    ensures M.SecondWord(hi, lo) == Or(Shl(hi, 3) % 0x1_0000_0000, Shr(lo, 29))
  {
    hide And, Or, Shl, Shr, Low, Pow2;
    Powers();
    Product(hi, 3);
    Arithmetic(lo, 29);
    var h := hi % 0x2000_0000;
    assert hi * 8 % 0x1_0000_0000 == h * 8;
    OrIs(h, lo / 0x2000_0000, 3, 8);
  }

  /** The number of bytes in the buffer of SHA-1, from the bit count, and of MD5, from the byte count. */
  lemma BufferedBytes(n: nat)
    ensures S.Buffered(n) == And(Shr(n, 3), 0x3f) && M.Buffered(n) == And(n, 0x3f)
  {
    hide And, Shr, Low, Pow2;
    Powers();
    MaskIs(n, 3, 8);
    MaskIs(n / 8, 6, 64);
    MaskIs(n, 6, 64);
  }

  /** utf8_get_next_char, with the tests as the code writes them. */
  function NextCharLen(s: seq<Byte>): nat {
    var c := U.At(s, 0);
    if And(c, 0xE0) == 0xC0 then
      if U.At(s, 1) == 0 then 1 else 2
    else if And(c, 0xF0) == 0xE0 then
      if U.At(s, 1) == 0 then 1 else if U.At(s, 2) == 0 then 2 else 3
    else if And(c, 0xF8) == 0xF0 then
      if U.At(s, 1) == 0 then 1 else if U.At(s, 2) == 0 then 2 else if U.At(s, 3) == 0 then 3 else 4
    else
      1
  }

  /** The lead-byte tests. */
  lemma LeadBytes(s: seq<Byte>)
    ensures NextCharLen(s) == U.CharLen(s)
  {
    hide And, Shl, Shr, Low, Pow2;
    Powers();
    var c := U.At(s, 0);
    HighMask(c, 7, 5);
    Product(7, 5);
    Arithmetic(c, 5);
    MaskIs(c / 32, 3, 8);
    Product(c / 32, 5);
    HighMask(c, 15, 4);
    Product(15, 4);
    Arithmetic(c, 4);
    MaskIs(c / 16, 4, 16);
    Product(c / 16, 4);
    HighMask(c, 31, 3);
    Product(31, 3);
    Arithmetic(c, 3);
    MaskIs(c / 8, 5, 32);
    Product(c / 8, 3);
  }

  /** The bit of a character in an escape table, and its two hexadecimal digits. */
  lemma EscapeBits(w: seq<bv32>, c: Byte)
    requires |w| == 8
    ensures Shr(c, 5) < 8 && And(c, 0x1f) < 32 && Shr(c, 4) < 16 && And(c, 0xf) < 16
    ensures U.FromWords(w)(c) == U.Bit(w[Shr(c, 5)], And(c, 0x1f))
    ensures U.Escape1(c) == [U.PERCENT, U.HexChar(Shr(c, 4)), U.HexChar(And(c, 0xf))]
  {
    hide And, Shr, Low, Pow2, U.Bit;
    Powers();
    MaskIs(c, 5, 32);
    MaskIs(c, 4, 16);
  }

  /** The control bit of a frame, set and cleared, and the masks a reader applies. */
  lemma FrameBits(id: F.U32, p: seq<Byte>)
    requires |p| >= 8
    ensures Or(F.Bytes16(F.SPDY_VERSION)[0], 0x80) == F.Head(128, F.Bytes16(F.SPDY_VERSION))[0]
    ensures F.IdBytes(id)[0] == And(F.Bytes32(id)[0], 0x7f)
    ensures F.ReadCtrl(p).version == And(F.Read16(p), 0x7fff)
    ensures F.ReadCtrl(p).length == And(F.Read32(p[4..]), 0xff_ffff)
  {
    hide And, Or, Shr, Low, Pow2;
    Powers();
    MaskIs(F.Bytes32(id)[0], 7, 128);
    MaskIs(F.Read16(p), 15, 0x8000);
    MaskIs(F.Read32(p[4..]), 24, 0x100_0000);
    NothingOr(0x80);
  }

  lemma NothingOr(y: nat)
    ensures Or(0, y) == y
  {
  }
}
