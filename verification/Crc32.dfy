/**
 * CRC-32 (section 8 of RFC 1952) over registers of bits, lowest bit first: the table-driven form
 * that zlib's crc32 computes, and the bit-by-bit division that defines it.
 */
module Crc32 {
  import opened GzipHeader
  import opened GzipFooter

  type Bits = seq<bool>

  const WIDTH: nat := 32

  function Zeros(n: nat): (z: Bits)
    ensures |z| == n && forall i :: 0 <= i < n ==> !z[i]
  {
    seq(n, _ => false)
  }

  function Ones(n: nat): (z: Bits)
    ensures |z| == n && forall i :: 0 <= i < n ==> z[i]
  {
    seq(n, _ => true)
  }

  /** Addition of polynomials over the two-element field. */
  function Xor(a: Bits, b: Bits): (c: Bits)
    requires |a| == |b|
    ensures |c| == |a| && forall i :: 0 <= i < |a| ==> c[i] == (a[i] != b[i])
  {
    seq(|a|, i requires 0 <= i < |a| => a[i] != b[i])
  }

  /** The `width` lowest bits of a number. */
  function BitsOf(n: nat, width: nat): (b: Bits)
    ensures |b| == width
  {
    if width == 0 then [] else [n % 2 == 1] + BitsOf(n / 2, width - 1)
  }

  function NumberOf(b: Bits): nat {
    if b == [] then 0 else (if b[0] then 1 else 0) + 2 * NumberOf(b[1..])
  }

  /** The generator polynomial, 0xEDB88320. */
  function Polynomial(): (p: Bits)
    ensures |p| == WIDTH
  {
    BitsOf(0xEDB8_8320, WIDTH)
  }

  /** One division step: the lowest bit leaves and, when set, subtracts the polynomial `p`. */
  function Shift1(p: Bits, c: Bits): (r: Bits)
    requires |c| == |p| > 0
    ensures |r| == |c|
  {
    var half := c[1..] + [false];
    if c[0] then Xor(half, p) else half
  }

  function Shift(p: Bits, c: Bits, n: nat): (r: Bits)
    requires |c| == |p| > 0
    ensures |r| == |c|
    decreases n
  {
    if n == 0 then c else Shift(p, Shift1(p, c), n - 1)
  }

  /** A byte on the low end of a register. */
  function Widen(b: Bits, width: nat): (w: Bits)
    requires |b| <= width
    ensures |w| == width
  {
    b + Zeros(width - |b|)
  }

  /** The definition: each byte is added to the low end and divided out bit by bit. */
  function Divide(p: Bits, c: Bits, data: seq<Byte>): (r: Bits)
    requires |c| == |p| >= 8
    ensures |r| == |c|
    decreases |data|
  {
    if data == [] then c else Divide(p, Shift(p, Xor(c, Widen(BitsOf(data[0], 8), |c|)), 8), data[1..])
  }

  /** The table-driven step: one table entry for each value of the low byte. */
  function UpdateByte(p: Bits, c: Bits, b: Bits): (r: Bits)
    requires |c| == |p| >= |b| > 0
    ensures |r| == |c|
  {
    var n := |b|;
    var entry := Shift(p, Widen(Xor(c[..n], b), |c|), n);
    Xor(entry, c[n..] + Zeros(n))
  }

  function UpdateLoop(p: Bits, c: Bits, data: seq<Byte>): (r: Bits)
    requires |c| == |p| >= 8
    ensures |r| == |c|
    decreases |data|
  {
    if data == [] then c else UpdateLoop(p, UpdateByte(p, c, BitsOf(data[0], 8)), data[1..])
  }

  // ---------------------------------------------------------------- table form and definition agree

  lemma Shift1Linear(p: Bits, a: Bits, b: Bits)
    requires |a| == |b| == |p| > 0
    ensures Shift1(p, Xor(a, b)) == Xor(Shift1(p, a), Shift1(p, b))
  {
  }

  lemma {:induction false} ShiftLinear(p: Bits, a: Bits, b: Bits, n: nat)
    requires |a| == |b| == |p| > 0
    ensures Shift(p, Xor(a, b), n) == Xor(Shift(p, a, n), Shift(p, b, n))
    decreases n
  {
    if n > 0 {
      Shift1Linear(p, a, b);
      ShiftLinear(p, Shift1(p, a), Shift1(p, b), n - 1);
    }
  }

  /** Bits above the lowest `n` just move down in `n` steps. */
  lemma {:induction false} HighBitsMove(p: Bits, high: Bits, n: nat)
    requires |high| + n == |p| > 0
    ensures Shift(p, Zeros(n) + high, n) == high + Zeros(n)
    decreases n
  {
    if n == 0 {
      assert Zeros(0) + high == high && high + Zeros(0) == high;
    } else {
      var c := Zeros(n) + high;
      var higher := high + [false];
      assert Shift1(p, c) == Zeros(n - 1) + higher;
      HighBitsMove(p, higher, n - 1);
      assert higher + Zeros(n - 1) == high + Zeros(n);
    }
  }

  /** The table step is as many division steps as the byte has bits. */
  lemma TableStepIsDivision(p: Bits, c: Bits, b: Bits)
    requires |c| == |p| >= |b| > 0
    ensures UpdateByte(p, c, b) == Shift(p, Xor(c, Widen(b, |c|)), |b|)
  {
    hide Shift;
    var n := |b|;
    var low := Widen(Xor(c[..n], b), |c|);
    var high := Zeros(n) + c[n..];
    SplitRegister(c, b);
    ShiftLinear(p, low, high, n);
    HighBitsMove(p, c[n..], n);
  }

  /** A register with a byte added on its low end is its low part, added, and its high part. */
  lemma SplitRegister(c: Bits, b: Bits)
    requires |c| >= |b|
    ensures Xor(c, Widen(b, |c|)) == Xor(Widen(Xor(c[..|b|], b), |c|), Zeros(|b|) + c[|b|..])
  {
    var left, right := Xor(c, Widen(b, |c|)), Xor(Widen(Xor(c[..|b|], b), |c|), Zeros(|b|) + c[|b|..]);
    forall i | 0 <= i < |c| ensures left[i] == right[i] {}
  }

  lemma {:induction false} TableLoopIsDivision(p: Bits, c: Bits, data: seq<Byte>)
    requires |c| == |p| >= 8
    ensures UpdateLoop(p, c, data) == Divide(p, c, data)
    decreases |data|
  {
    if data != [] {
      var b := BitsOf(data[0], 8);
      TableStepIsDivision(p, c, b);
      TableLoopIsDivision(p, UpdateByte(p, c, b), data[1..]);
    }
  }

  // ---------------------------------------------------------------- chunks

  lemma {:induction false} UpdateLoopAppend(p: Bits, c: Bits, a: seq<Byte>, b: seq<Byte>)
    requires |c| == |p| >= 8
    ensures UpdateLoop(p, c, a + b) == UpdateLoop(p, UpdateLoop(p, c, a), b)
    decreases |a|
  {
    if a == [] {
      assert a + b == b;
    } else {
      assert (a + b)[1..] == a[1..] + b;
      UpdateLoopAppend(p, UpdateByte(p, c, BitsOf(a[0], 8)), a[1..], b);
    }
  }

  function Complement(c: Bits): (r: Bits)
    ensures |r| == |c|
  {
    Xor(c, Ones(|c|))
  }

  lemma ComplementTwice(c: Bits)
    ensures Complement(Complement(c)) == c
  {
  }

  /** zlib's running form: the value handed from call to call is kept complemented. */
  function Update(crc: Bits, data: seq<Byte>): (r: Bits)
    requires |crc| == WIDTH
    ensures |r| == WIDTH
  {
    Complement(UpdateLoop(Polynomial(), Complement(crc), data))
  }

  /** The checksum of a whole message, by definition. */
  function Checksum(data: seq<Byte>): (r: Bits)
    ensures |r| == WIDTH
  {
    Complement(Divide(Polynomial(), Ones(WIDTH), data))
  }

  /** One running call from 0 gives the defined checksum. */
  lemma UpdateFromZero(data: seq<Byte>)
    ensures Update(Zeros(WIDTH), data) == Checksum(data)
  {
    assert Complement(Zeros(WIDTH)) == Ones(WIDTH);
    TableLoopIsDivision(Polynomial(), Ones(WIDTH), data);
  }

  /** Running over a further chunk continues the checksum of everything before it. */
  lemma UpdateContinues(before: seq<Byte>, chunk: seq<Byte>)
    ensures Update(Checksum(before), chunk) == Checksum(before + chunk)
  {
    var p, start := Polynomial(), Ones(WIDTH);
    TableLoopIsDivision(p, start, before);
    TableLoopIsDivision(p, start, before + chunk);
    ComplementTwice(UpdateLoop(p, start, before));
    UpdateLoopAppend(p, start, before, chunk);
  }
}
