/**
 * The checksum in numbers: its generator is the polynomial of section 8 of RFC 1952, and it has the
 * published check value. Registers are compared with machine words, bit by bit.
 */
module Crc32Value {
  import opened GzipHeader
  import opened Crc32

  // ---------------------------------------------------------------- registers and words

  predicate Has(w: bv32, mask: bv32) { w & mask != 0 }

  /** The mask of bit `i`. */
  function Mask(i: nat): bv32 {
    if i == 0 then 1 else Mask(i - 1) << 1
  }

  /** The register holds the lowest bits of the word. */
  ghost predicate Holds(c: Bits, w: bv32) {
    forall i :: 0 <= i < |c| ==> c[i] == Has(w, Mask(i))
  }

  lemma XorHas(a: bv32, b: bv32, mask: bv32)
    requires mask & (mask - 1) == 0
    ensures Has(a ^ b, mask) == (Has(a, mask) != Has(b, mask))
  {
  }

  lemma HalfHas(w: bv32, mask: bv32)
    ensures Has(w >> 1, mask) == Has(w, mask << 1)
  {
  }

  lemma {:induction false} MaskIsOneBit(i: nat)
    ensures Mask(i) & (Mask(i) - 1) == 0
  {
    if i > 0 {
      MaskIsOneBit(i - 1);
    }
  }

  lemma MaskUp(i: nat)
    ensures Mask(i + 1) == Mask(i) << 1
  {
  }

  lemma MaskByte(i: nat)
    ensures Mask(i + 8) == Mask(i) << 8
  {
    hide Mask;
    MaskUp(i);
    MaskUp(i + 1);
    MaskUp(i + 2);
    MaskUp(i + 3);
    MaskUp(i + 4);
    MaskUp(i + 5);
    MaskUp(i + 6);
    MaskUp(i + 7);
  }

  lemma TopMask()
    ensures Mask(31) == 0x8000_0000
  {
    assert Mask(3) == 8 && Mask(7) == 0x80;
    MaskByte(7);
    MaskByte(15);
    MaskByte(23);
  }

  lemma {:induction false} MaskIsNotZero(i: nat)
    requires i < WIDTH
    ensures Mask(i) != 0
    decreases WIDTH - i
  {
    if i == 31 {
      TopMask();
    } else {
      MaskIsNotZero(i + 1);
    }
  }

  lemma XorHolds(a: Bits, x: bv32, b: Bits, y: bv32)
    requires |a| == |b| && Holds(a, x) && Holds(b, y)
    ensures Holds(Xor(a, b), x ^ y)
  {
    hide Has, Mask;
    forall i | 0 <= i < |a| ensures Xor(a, b)[i] == Has(x ^ y, Mask(i)) {
      MaskIsOneBit(i);
      XorHas(x, y, Mask(i));
    }
  }

  lemma HalfHoldsAt(c: Bits, w: bv32, i: nat)
    requires |c| == WIDTH && Holds(c, w) && i < WIDTH
    ensures Has(w >> 1, Mask(i)) == (i < 31 && c[i + 1])
  {
    hide Has, Mask;
    HalfHas(w, Mask(i));
    if i < 31 {
      MaskUp(i);
    } else {
      TopMask();
      TopIsClear(w);
    }
  }

  lemma HalfHolds(c: Bits, w: bv32)
    requires |c| == WIDTH && Holds(c, w)
    ensures Holds(c[1..] + [false], w >> 1)
  {
    hide Has, Mask;
    var half := c[1..] + [false];
    forall i | 0 <= i < WIDTH ensures half[i] == Has(w >> 1, Mask(i)) {
      HalfHoldsAt(c, w, i);
    }
  }

  lemma TopIsClear(w: bv32)
    ensures !Has(w >> 1, 0x8000_0000)
  {
  }

  /** A register is determined by the word it holds. */
  lemma HoldsOne(a: Bits, b: Bits, w: bv32)
    requires |a| == |b| && Holds(a, w) && Holds(b, w)
    ensures a == b
  {
  }

  // ---------------------------------------------------------------- numbers and words

  /** The number in the lowest `n` bits of a word. */
  function LowBits(w: bv32, n: nat): nat
    decreases n
  {
    if n == 0 then 0 else Bit(Has(w, 1)) + 2 * LowBits(w >> 1, n - 1)
  }

  lemma {:induction false} BitsHold(w: bv32, n: nat)
    ensures Holds(BitsOf(LowBits(w, n), n), w)
    decreases n
  {
    hide Has, Mask;
    if n > 0 {
      BitsHold(w >> 1, n - 1);
      LowStep(w, n);
      ConsHolds(BitsOf(LowBits(w >> 1, n - 1), n - 1), w);
    }
  }

  lemma LowStep(w: bv32, n: nat)
    requires n > 0
    ensures BitsOf(LowBits(w, n), n) == [Has(w, 1)] + BitsOf(LowBits(w >> 1, n - 1), n - 1)
  {
    hide Has;
    assert LowBits(w, n) / 2 == LowBits(w >> 1, n - 1) && (LowBits(w, n) % 2 == 1 <==> Has(w, 1));
  }

  lemma ConsHoldsAt(c: Bits, w: bv32, i: nat)
    requires Holds(c, w >> 1) && i <= |c|
    ensures Has(w, Mask(i)) == (if i == 0 then Has(w, 1) else c[i - 1])
  {
    hide Has, Mask;
    if i == 0 {
      MaskZero();
    } else {
      MaskUp(i - 1);
      HalfHas(w, Mask(i - 1));
    }
  }

  lemma ConsHolds(c: Bits, w: bv32)
    requires Holds(c, w >> 1)
    ensures Holds([Has(w, 1)] + c, w)
  {
    hide Has, Mask;
    var longer := [Has(w, 1)] + c;
    forall i | 0 <= i < |longer| ensures longer[i] == Has(w, Mask(i)) {
      ConsHoldsAt(c, w, i);
    }
  }

  lemma MaskZero()
    ensures Mask(0) == 1
  {
  }

  predicate Halves(w: bv32, v: bv32) { v == w >> 1 }

  lemma LowOne(w: bv32, v: bv32, n: nat)
    requires Halves(w, v) && n >= 1
    ensures LowBits(w, n) == Bit(Has(w, 1)) + 2 * LowBits(v, n - 1)
  {
    hide Has;
  }

  /** Four bits at a time. */
  lemma LowFour(w: bv32, w1: bv32, w2: bv32, w3: bv32, w4: bv32, n: nat)
    requires Halves(w, w1) && Halves(w1, w2) && Halves(w2, w3) && Halves(w3, w4) && n >= 4
    ensures LowBits(w, n) == Nibble(w, w1, w2, w3) + 16 * LowBits(w4, n - 4)
  {
    hide LowBits, Has, Bit, Halves;
    LowOne(w, w1, n);
    LowOne(w1, w2, n - 1);
    LowOne(w2, w3, n - 2);
    LowOne(w3, w4, n - 3);
  }

  /** The number whose bits are the lowest ones of four words. */
  function Nibble(w: bv32, w1: bv32, w2: bv32, w3: bv32): nat {
    Bit(Has(w, 1)) + 2 * Bit(Has(w1, 1)) + 4 * Bit(Has(w2, 1)) + 8 * Bit(Has(w3, 1))
  }

  /** The lowest eight bits as a number. */
  function Octet(w: bv32): nat {
    Nibble(w, w >> 1, w >> 2, w >> 3) + 16 * Nibble(w >> 4, w >> 5, w >> 6, w >> 7)
  }

  lemma HalvesUp(w: bv32)
    ensures Halves(w, w >> 1) && Halves(w >> 1, w >> 2) && Halves(w >> 2, w >> 3) && Halves(w >> 3, w >> 4)
    ensures Halves(w >> 4, w >> 5) && Halves(w >> 5, w >> 6) && Halves(w >> 6, w >> 7) && Halves(w >> 7, w >> 8)
  {
  }

  lemma LowByte(w: bv32, n: nat)
    requires n >= 8
    ensures LowBits(w, n) == Octet(w) + 256 * LowBits(w >> 8, n - 8)
  {
    hide LowBits, Has, Halves, Nibble;
    HalvesUp(w);
    LowFour(w, w >> 1, w >> 2, w >> 3, w >> 4, n);
    LowFour(w >> 4, w >> 5, w >> 6, w >> 7, w >> 8, n - 4);
  }

  /** A word is the number its four octets make. */
  lemma LowWord(w: bv32, w1: bv32, w2: bv32, w3: bv32)
    requires w1 == w >> 8 && w2 == w1 >> 8 && w3 == w2 >> 8
    ensures LowBits(w, 32) == Octet(w) + 256 * (Octet(w1) + 256 * (Octet(w2) + 256 * Octet(w3)))
  {
    hide Octet, LowBits;
    LowByte(w, 32);
    LowByte(w1, 24);
    LowByte(w2, 16);
    LowByte(w3, 8);
    LowNothing(w3 >> 8);
  }

  lemma LowNothing(w: bv32)
    ensures LowBits(w, 0) == 0
  {
  }

  // ---------------------------------------------------------------- the generator

  lemma GeneratorWord()
    ensures Holds(Polynomial(), 0xEDB8_8320)
  {
    hide Holds, Octet, LowBits, BitsOf;
    LowWord(0xEDB8_8320, 0xED_B883, 0xEDB8, 0xED);
    GeneratorOctets();
    BitsHold(0xEDB8_8320, 32);
  }

  lemma GeneratorOctets()
    ensures Octet(0xEDB8_8320) == 0x20 && Octet(0xED_B883) == 0x83 && Octet(0xEDB8) == 0xB8 && Octet(0xED) == 0xED
  {
  }

  /** The exponents of the generator below x^32, as section 8 of RFC 1952 has them from ITU-T V.42. */
  const EXPONENTS: set<nat> := {0, 1, 2, 4, 5, 7, 8, 10, 11, 12, 16, 22, 23, 26}

  /** Bit `31 - k` of the register stands for x^k, and the polynomial has exactly these terms. */
  lemma GeneratorTerms(k: nat)
    requires k < WIDTH
    ensures Polynomial()[31 - k] <==> k in EXPONENTS
  {
    hide BitsOf;
    FourBits(0xEDB88320, 32);
    FourBits(0xEDB8832, 28);
    FourBits(0xEDB883, 24);
    FourBits(0xEDB88, 20);
    FourBits(0xEDB8, 16);
    FourBits(0xEDB, 12);
    FourBits(0xED, 8);
    FourBits(0xE, 4);
  }

  lemma FourBits(n: nat, width: nat)
    requires width >= 4
    ensures
      var b := BitsOf(n, width);
      && b[0] == (n % 2 == 1) && b[1] == (n / 2 % 2 == 1) && b[2] == (n / 4 % 2 == 1) && b[3] == (n / 8 % 2 == 1)
      && b[4..] == BitsOf(n / 16, width - 4)
  {
    assert BitsOf(n, width) == [n % 2 == 1] + BitsOf(n / 2, width - 1);
    assert BitsOf(n / 2, width - 1) == [n / 2 % 2 == 1] + BitsOf(n / 4, width - 2);
    assert BitsOf(n / 4, width - 2) == [n / 4 % 2 == 1] + BitsOf(n / 8, width - 3);
    assert BitsOf(n / 8, width - 3) == [n / 8 % 2 == 1] + BitsOf(n / 16, width - 4);
  }

  // ---------------------------------------------------------------- the check value

  /** One division step on words. */
  function StepWord(w: bv32): bv32 {
    if w & 1 != 0 then (w >> 1) ^ 0xEDB8_8320 else w >> 1
  }

  function EightSteps(w: bv32): bv32 {
    StepWord(StepWord(StepWord(StepWord(StepWord(StepWord(StepWord(StepWord(w))))))))
  }

  lemma StepHolds(c: Bits, w: bv32)
    requires |c| == WIDTH && Holds(c, w)
    ensures Holds(Shift1(Polynomial(), c), StepWord(w))
  {
    hide Mask, Polynomial;
    MaskZero();
    assert c[0] == Has(w, Mask(0));
    HalfHolds(c, w);
    GeneratorWord();
    XorHolds(c[1..] + [false], w >> 1, Polynomial(), 0xEDB8_8320);
  }

  lemma FourShifts(p: Bits, c: Bits, n: nat)
    requires |c| == |p| > 0 && n >= 4
    ensures Shift(p, c, n) == Shift(p, Shift1(p, Shift1(p, Shift1(p, Shift1(p, c)))), n - 4)
  {
    hide Shift1;
    var c1 := Shift1(p, c);
    var c2 := Shift1(p, c1);
    var c3 := Shift1(p, c2);
    assert Shift(p, c, n) == Shift(p, c1, n - 1) == Shift(p, c2, n - 2) == Shift(p, c3, n - 3);
  }

  lemma EightHold(c: Bits, w: bv32)
    requires |c| == WIDTH && Holds(c, w)
    ensures Holds(Shift(Polynomial(), c, 8), EightSteps(w))
  {
    hide Holds, Shift1, StepWord, Polynomial;
    var p := Polynomial();
    StepHolds(c, w);
    var c1, w1 := Shift1(p, c), StepWord(w);
    StepHolds(c1, w1);
    var c2, w2 := Shift1(p, c1), StepWord(w1);
    StepHolds(c2, w2);
    var c3, w3 := Shift1(p, c2), StepWord(w2);
    StepHolds(c3, w3);
    var c4, w4 := Shift1(p, c3), StepWord(w3);
    StepHolds(c4, w4);
    var c5, w5 := Shift1(p, c4), StepWord(w4);
    StepHolds(c5, w5);
    var c6, w6 := Shift1(p, c5), StepWord(w5);
    StepHolds(c6, w6);
    var c7, w7 := Shift1(p, c6), StepWord(w6);
    StepHolds(c7, w7);
    FourShifts(p, c, 8);
    FourShifts(p, c4, 4);
  }

  /** A byte on the low end of a register. */
  lemma ByteHolds(b: Byte, x: bv32)
    requires Octet(x) == b && x >> 8 == 0
    ensures Holds(Widen(BitsOf(b, 8), WIDTH), x)
  {
    hide Octet, LowBits, Has, Mask;
    LowByte(x, 8);
    LowNothing(x >> 8);
    BitsHold(x, 8);
    var wide := Widen(BitsOf(b, 8), WIDTH);
    forall i | 0 <= i < WIDTH ensures wide[i] == Has(x, Mask(i)) {
      if i >= 8 {
        MaskByte(i - 8);
        HighIsClear(x, Mask(i - 8));
      }
    }
  }

  lemma HighIsClear(x: bv32, mask: bv32)
    requires x >> 8 == 0
    ensures !Has(x, mask << 8)
  {
  }

  /** One byte of a message. */
  lemma OneByte(c: Bits, w: bv32, data: seq<Byte>, x: bv32, next: bv32) returns (d: Bits)
    requires |c| == WIDTH && Holds(c, w) && data != [] && Octet(x) == data[0] && x >> 8 == 0
    requires EightSteps(w ^ x) == next
    ensures |d| == WIDTH && Holds(d, next)
    ensures Divide(Polynomial(), c, data) == Divide(Polynomial(), d, data[1..])
  {
    hide Holds, Octet, EightSteps, Shift, Polynomial;
    var wide := Widen(BitsOf(data[0], 8), WIDTH);
    ByteHolds(data[0], x);
    XorHolds(c, w, wide, x);
    EightHold(Xor(c, wide), w ^ x);
    d := Shift(Polynomial(), Xor(c, wide), 8);
  }

  lemma OnesHold()
    ensures Holds(Ones(WIDTH), 0xFFFF_FFFF)
  {
    hide Mask;
    forall i | 0 <= i < WIDTH ensures Has(0xFFFF_FFFF, Mask(i)) {
      MaskIsNotZero(i);
    }
  }

  lemma {:induction false} NumberHeld(c: Bits, w: bv32)
    requires Holds(c, w)
    ensures NumberOf(c) == LowBits(w, |c|)
    decreases |c|
  {
    hide Has, Mask;
    if c != [] {
      MaskZero();
      assert c[0] == Has(w, Mask(0));
      TailHolds(c, w);
      NumberHeld(c[1..], w >> 1);
    }
  }

  lemma TailHolds(c: Bits, w: bv32)
    requires c != [] && Holds(c, w)
    ensures Holds(c[1..], w >> 1)
  {
    hide Has, Mask;
    forall i | 0 <= i < |c| - 1 ensures c[1..][i] == Has(w >> 1, Mask(i)) {
      MaskUp(i);
      HalfHas(w, Mask(i));
      assert c[i + 1] == Has(w, Mask(i + 1));
    }
  }

  /** The octets of the text "123456789". */
  const NINE_DIGITS: seq<Byte> := [0x31, 0x32, 0x33, 0x34, 0x35, 0x36, 0x37, 0x38, 0x39]

  lemma DigitOctets()
    ensures Octet(0x31) == 0x31 && Octet(0x32) == 0x32 && Octet(0x33) == 0x33
    ensures Octet(0x34) == 0x34 && Octet(0x35) == 0x35 && Octet(0x36) == 0x36
    ensures Octet(0x37) == 0x37 && Octet(0x38) == 0x38 && Octet(0x39) == 0x39
  {
  }

  /** The check value that catalogues of checksums publish for CRC-32. */
  lemma CheckValue()
    ensures NumberOf(Checksum(NINE_DIGITS)) == 0xCBF4_3926
  {
    hide Holds, Octet, Divide, NumberOf, LowBits, Polynomial;
    DigitOctets();
    OnesHold();
    var data, c := NINE_DIGITS, Ones(WIDTH);
    c := OneByte(c, 0xFFFF_FFFF, data[0..], 0x31, 0x7C23_1048);
    c := OneByte(c, 0x7C23_1048, data[1..], 0x32, 0xB0AC_BB32);
    c := OneByte(c, 0xB0AC_BB32, data[2..], 0x33, 0x77B7_9C2D);
    c := OneByte(c, 0x77B7_9C2D, data[3..], 0x34, 0x641C_1F5C);
    c := OneByte(c, 0x641C_1F5C, data[4..], 0x35, 0x340A_C5E3);
    c := OneByte(c, 0x340A_C5E3, data[5..], 0x36, 0xF68D_2C9E);
    c := OneByte(c, 0xF68D_2C9E, data[6..], 0x37, 0xAFFC_9660);
    c := OneByte(c, 0xAFFC_9660, data[7..], 0x38, 0x651F_2550);
    c := OneByte(c, 0x651F_2550, data[8..], 0x39, 0x340B_C6D9);
    assert data[9..] == [];
    var all := Ones(WIDTH);
    XorHolds(c, 0x340B_C6D9, all, 0xFFFF_FFFF);
    NumberHeld(Xor(c, all), 0xCBF4_3926);
    LowWord(0xCBF4_3926, 0xCB_F439, 0xCBF4, 0xCB);
    ResultOctets();
    DivideNothing(c);
  }

  lemma ResultOctets()
    ensures Octet(0xCBF4_3926) == 0x26 && Octet(0xCB_F439) == 0x39 && Octet(0xCBF4) == 0xF4 && Octet(0xCB) == 0xCB
  {
  }

  lemma DivideNothing(c: Bits)
    requires |c| == WIDTH
    ensures Divide(Polynomial(), c, []) == c
  {
  }
}
