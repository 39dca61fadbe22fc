/** CRC-32 as src/crc32.c computes it, table-driven, against division by the reflected polynomial one bit
    at a time (section 8 of RFC 1952). */
module Crc32 {

  type Word = bv32

  /** x^32 + x^26 + x^23 + ... + 1 with its bits reversed. */
  const POLY: Word := 0xedb88320

  function Xor(x: Word, y: Word): Word { x ^ y }

  function Half(x: Word): Word { x >> 1 }

  predicate Odd(x: Word) { x & 1 == 1 }

  function LowBit(x: Word): Word { x & 1 }

  /** One division step: the lowest bit goes out. */
  function Step(c: Word): Word {
    if Odd(c) then Xor(Half(c), POLY) else Half(c)
  }

  /** Divides by the polynomial, taking in n bits of w, lowest first. */
  function Divide(c: Word, w: Word, n: nat): Word
    decreases n
  {
    if n == 0 then c else Divide(Step(Xor(c, LowBit(w))), Half(w), n - 1)
  }

  function Steps(c: Word, n: nat): Word
    decreases n
  {
    if n == 0 then c else Steps(Step(c), n - 1)
  }

  // ---------------------------------------------------------------- linearity

  lemma HalfXor(a: Word, b: Word)
    ensures Half(Xor(a, b)) == Xor(Half(a), Half(b))
  {
  }

  lemma OddXor(a: Word, b: Word)
    ensures Odd(Xor(a, b)) <==> Odd(a) != Odd(b)
  {
    assert ((a ^ b) & 1 == 1) <==> ((a & 1 == 1) != (b & 1 == 1));
  }

  lemma XorAssoc(a: Word, b: Word, p: Word)
    ensures Xor(Xor(a, b), p) == Xor(a, Xor(b, p))
  {
  }

  lemma XorSwap(a: Word, b: Word)
    ensures Xor(a, b) == Xor(b, a)
  {
  }

  lemma XorCancel(a: Word, p: Word)
    ensures Xor(Xor(a, p), p) == a
  {
  }

  /** Division steps are linear over exclusive or. */
  lemma StepLinear(x: Word, y: Word)
    ensures Step(Xor(x, y)) == Xor(Step(x), Step(y))
  {
    hide Xor, Half, Odd, POLY;
    var u, v := Half(x), Half(y);
    HalfXor(x, y);
    OddXor(x, y);
    XorAssoc(u, v, POLY);
    XorAssoc(u, POLY, v);
    XorSwap(POLY, v);
    XorAssoc(u, POLY, Xor(v, POLY));
    XorSwap(POLY, Xor(v, POLY));
    XorCancel(v, POLY);
  }

  lemma {:induction false} StepsLinear(x: Word, y: Word, n: nat)
    ensures Steps(Xor(x, y), n) == Xor(Steps(x, n), Steps(y, n))
    decreases n
  {
    hide Step, Xor;
    if n > 0 {
      StepLinear(x, y);
      StepsLinear(Step(x), Step(y), n - 1);
    }
  }

  // ---------------------------------------------------------------- a byte at a time

  /** What is left of w after n halvings. */
  function Halves(w: Word, n: nat): Word
    decreases n
  {
    if n == 0 then w else Halves(Half(w), n - 1)
  }

  /** The bits of w above the lowest. */
  function Rest(w: Word): Word { w & 0xffff_fffe }

  lemma SplitLow(w: Word)
    ensures Xor(LowBit(w), Rest(w)) == w && !Odd(Rest(w)) && Half(Rest(w)) == Half(w)
  {
    RawSplit(w);
  }

  lemma RawSplit(w: bv32)
    ensures (w & 1) ^ (w & 0xffff_fffe) == w && (w & 0xffff_fffe) & 1 != 1 && (w & 0xffff_fffe) >> 1 == w >> 1
  {
  }

  /** Taking in one bit, and combining with all the bits before the step. */
  lemma TakeBit(c: Word, w: Word)
    ensures Step(Xor(c, w)) == Xor(Step(Xor(c, LowBit(w))), Half(w))
  {
    hide Xor, Half, Odd, LowBit, Rest, POLY;
    SplitLow(w);
    XorAssoc(c, LowBit(w), Rest(w));
    StepLinear(Xor(c, LowBit(w)), Rest(w));
  }

  lemma XorZero(c: Word)
    ensures Xor(c, 0) == c
  {
  }

  /** Dividing bit by bit is combining first and stepping then. */
  lemma {:induction false} DivideIsSteps(c: Word, w: Word, n: nat)
    requires Halves(w, n) == 0
    ensures Divide(c, w, n) == Steps(Xor(c, w), n)
    decreases n
  {
    hide Xor, Half, LowBit, Step;
    if n == 0 {
      XorZero(c);
    } else {
      TakeBit(c, w);
      DivideIsSteps(Step(Xor(c, LowBit(w))), Half(w), n - 1);
    }
  }

  ghost predicate EvenFor(w: Word, n: nat)
    decreases n
  {
    n == 0 || (!Odd(w) && EvenFor(Half(w), n - 1))
  }

  /** Steps on zero bits are shifts. */
  lemma {:induction false} StepsShift(w: Word, n: nat)
    requires EvenFor(w, n)
    ensures Steps(w, n) == Halves(w, n)
    decreases n
  {
    hide Half, Odd, POLY, Xor;
    if n > 0 { StepsShift(Half(w), n - 1); }
  }

  function Low(x: Word): Word { x & 0xff }

  function High(x: Word): Word { x & 0xffff_ff00 }

  function Shift8(x: Word): Word { x >> 8 }

  lemma SplitByte(x: Word)
    ensures Xor(High(x), Low(x)) == x && Low(x) <= 0xff
  {
    assert (x & 0xffff_ff00) ^ (x & 0xff) == x;
  }

  function Shifted(x: Word, k: nat): Word
    requires k <= 8
  {
    match k
    case 0 => x case 1 => x >> 1 case 2 => x >> 2 case 3 => x >> 3 case 4 => x >> 4
    case 5 => x >> 5 case 6 => x >> 6 case 7 => x >> 7 case _ => x >> 8
  }

  lemma ShiftFrom0(x: Word)
    ensures Half(Shifted(x, 0)) == Shifted(x, 1)
  {
  }

  lemma ShiftFrom1(x: Word)
    ensures Half(Shifted(x, 1)) == Shifted(x, 2)
  {
  }

  lemma ShiftFrom2(x: Word)
    ensures Half(Shifted(x, 2)) == Shifted(x, 3)
  {
  }

  lemma ShiftFrom3(x: Word)
    ensures Half(Shifted(x, 3)) == Shifted(x, 4)
  {
  }

  lemma ShiftFrom4(x: Word)
    ensures Half(Shifted(x, 4)) == Shifted(x, 5)
  {
  }

  lemma ShiftFrom5(x: Word)
    ensures Half(Shifted(x, 5)) == Shifted(x, 6)
  {
  }

  lemma ShiftFrom6(x: Word)
    ensures Half(Shifted(x, 6)) == Shifted(x, 7)
  {
  }

  lemma ShiftFrom7(x: Word)
    ensures Half(Shifted(x, 7)) == Shifted(x, 8)
  {
  }

  lemma ShiftOnce(x: Word, k: nat)
    requires k < 8
    ensures Half(Shifted(x, k)) == Shifted(x, k + 1)
  {
    hide Half, Shifted;
    match k
    case 0 => ShiftFrom0(x);
    case 1 => ShiftFrom1(x);
    case 2 => ShiftFrom2(x);
    case 3 => ShiftFrom3(x);
    case 4 => ShiftFrom4(x);
    case 5 => ShiftFrom5(x);
    case 6 => ShiftFrom6(x);
    case _ => ShiftFrom7(x);
  }

  lemma {:induction false} HalvesShift(x: Word, k: nat)
    requires k <= 8
    ensures Halves(Shifted(x, k), 8 - k) == Shifted(x, 8)
    decreases 8 - k
  {
    hide Half, Shifted;
    if k < 8 {
      ShiftOnce(x, k);
      HalvesShift(x, k + 1);
    }
  }

  lemma ShiftedNone(x: Word)
    ensures Shifted(x, 0) == x
  {
  }

  lemma HighShifts(x: Word)
    ensures Halves(High(x), 8) == Shift8(x)
  {
    hide Halves, Half, Shifted, High, Shift8;
    ShiftedNone(High(x));
    HalvesShift(High(x), 0);
    RawHigh(x);
  }

  lemma RawHigh(x: Word)
    ensures Shifted(High(x), 8) == Shift8(x)
  {
    assert (x & 0xffff_ff00) >> 8 == x >> 8;
  }

  lemma ShiftedEven(x: Word, k: nat)
    requires k < 8
    ensures !Odd(Shifted(High(x), k))
  {
    var h := x & 0xffff_ff00;
    if k == 0 { assert h & 1 == 0; }
    if k == 1 { assert (h >> 1) & 1 == 0; }
    if k == 2 { assert (h >> 2) & 1 == 0; }
    if k == 3 { assert (h >> 3) & 1 == 0; }
    if k == 4 { assert (h >> 4) & 1 == 0; }
    if k == 5 { assert (h >> 5) & 1 == 0; }
    if k == 6 { assert (h >> 6) & 1 == 0; }
    if k == 7 { assert (h >> 7) & 1 == 0; }
  }

  lemma {:induction false} EvenShifted(x: Word, k: nat)
    requires k <= 8
    ensures EvenFor(Shifted(High(x), k), 8 - k)
    decreases 8 - k
  {
    hide Half, Shifted, Odd, High;
    if k < 8 {
      ShiftedEven(x, k);
      ShiftOnce(High(x), k);
      EvenShifted(x, k + 1);
    }
  }

  lemma HighIsEven(x: Word)
    ensures EvenFor(High(x), 8)
  {
    hide EvenFor, Shifted, High;
    ShiftedNone(High(x));
    EvenShifted(x, 0);
  }

  /** Eight steps at once: the high bytes shift down, the low byte picks a word to combine with. */
  lemma EightSteps(x: Word)
    ensures Steps(x, 8) == Xor(Shift8(x), Steps(Low(x), 8))
  {
    hide Xor, High, Low, Shift8, Steps, Halves;
    SplitByte(x);
    StepsLinear(High(x), Low(x), 8);
    HighIsEven(x);
    StepsShift(High(x), 8);
    HighShifts(x);
  }

  function Wide(b: bv8): Word { b as bv32 }

  lemma ByteEnds(b: bv8)
    ensures Halves(Wide(b), 8) == 0
  {
    hide Halves, Shifted, Wide;
    ShiftedNone(Wide(b));
    HalvesShift(Wide(b), 0);
    RawByte(b);
  }

  lemma RawByte(b: bv8)
    ensures Shifted(Wide(b), 8) == 0
  {
    assert (b as bv32) >> 8 == 0;
  }
}
