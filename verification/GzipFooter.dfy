/**
 * The parser of the eight bytes that follow the compressed data of a gzip member: CRC32 and ISIZE,
 * both little-endian and unsigned (section 2.3.1 of RFC 1952).
 */
module GzipFooter {
  import opened GzipHeader

  type Word = w: int | 0 <= w < 0x1_0000_0000

  datatype FooterStage = InCrc | InSize | Complete

  datatype Footer = Footer(stage: FooterStage, offset: int, crc: Word, isize: Word)

  const FOOTER_START := Footer(InCrc, 0, 0, 0)

  /** Unsigned 32-bit addition of a shifted byte. */
  function AddShifted(w: Word, value: Byte, offset: int): Word {
    (w + Shifted(value, offset)) % 0x1_0000_0000
  }

  function FooterStep(f: Footer, b: Byte): Footer
    requires f.stage != Complete
  {
    if f.stage == InCrc then
      var g := f.(crc := AddShifted(f.crc, b, f.offset));
      if f.offset == 3 then g.(stage := InSize, offset := 0) else g.(offset := f.offset + 1)
    else
      var g := f.(isize := AddShifted(f.isize, b, f.offset));
      if f.offset == 3 then g.(stage := Complete, offset := 0) else g.(offset := f.offset + 1)
  }

  class FooterParser {
    var stage: FooterStage
    var offset: int
    var crc: Word
    var isize: Word

    ghost function Value(): Footer
      reads this
    {
      Footer(stage, offset, crc, isize)
    }

    constructor ()
      ensures Value() == FOOTER_START
    {
      stage, offset, crc, isize := InCrc, 0, 0, 0;
    }

    method Reset()
      modifies this
      ensures Value() == FOOTER_START
    {
      crc, isize, offset := 0, 0, 0;
      stage := InCrc;
    }

    method Process(value: Byte)
      requires stage != Complete
      modifies this
      ensures Value() == FooterStep(old(Value()), value)
    {
      if stage == InCrc {
        crc := AddShifted(crc, value, offset);
        if offset == 3 {
          stage := InSize;
          offset := 0;
        } else {
          offset := offset + 1;
        }
      } else {
        isize := AddShifted(isize, value, offset);
        if offset == 3 {
          stage := Complete;
          offset := 0;
        } else {
          offset := offset + 1;
        }
      }
    }
  }

  /** Feeds bytes until they run out or the footer is complete. */
  function FeedFooter(f: Footer, bytes: seq<Byte>): Footer
    decreases |bytes|
  {
    if bytes == [] || f.stage == Complete then f else FeedFooter(FooterStep(f, bytes[0]), bytes[1..])
  }

  lemma FeedFooterNext(f: Footer, all: seq<Byte>, i: nat)
    requires i < |all| && f.stage != Complete
    ensures FeedFooter(f, all[i..]) == FeedFooter(FooterStep(f, all[i]), all[i + 1..])
  {
    assert all[i..][0] == all[i] && all[i..][1..] == all[i + 1..];
  }

  lemma UnsignedSum(b0: Byte, b1: Byte, b2: Byte, b3: Byte)
    ensures AddShifted(AddShifted(AddShifted(AddShifted(0, b0, 0), b1, 1), b2, 2), b3, 3) == FromFour(b0, b1, b2, b3)
  {
    AddLowByte(0, b0, 0);
    AddLowByte(b0, b1, 1);
    AddLowByte(b0 + 0x100 * b1, b2, 2);
    AddTopByte(b0 + 0x100 * b1 + 0x1_0000 * b2, b3);
  }

  lemma AddLowByte(w: int, b: Byte, offset: int)
    requires 0 <= offset < 3 && 0 <= w < 0x100_0000
    ensures AddShifted(w, b, offset) == w + Shifted(b, offset)
  {
  }

  /** The sign the top byte picks up disappears in unsigned arithmetic. */
  lemma AddTopByte(w: int, b: Byte)
    requires 0 <= w < 0x100_0000
    ensures AddShifted(w, b, 3) == w + 0x100_0000 * b
  {
    if b >= 128 {
      assert w + Shifted(b, 3) == w + 0x100_0000 * b - 0x1_0000_0000;
    }
  }

  lemma FeedCrcPart(b: seq<Byte>)
    requires |b| == 8
    ensures FeedFooter(FOOTER_START, b) ==
        FeedFooter(Footer(InSize, 0, FromFourWord(b[0], b[1], b[2], b[3]), 0), b[4..])
  {
    assert b[0..] == b;
    FeedFooterNext(FOOTER_START, b, 0);
    var f1 := FooterStep(FOOTER_START, b[0]);
    FeedFooterNext(f1, b, 1);
    var f2 := FooterStep(f1, b[1]);
    FeedFooterNext(f2, b, 2);
    var f3 := FooterStep(f2, b[2]);
    FeedFooterNext(f3, b, 3);
    UnsignedSum(b[0], b[1], b[2], b[3]);
  }

  lemma FeedSizePart(f: Footer, b: seq<Byte>)
    requires |b| == 8 && f.stage == InSize && f.offset == 0 && f.isize == 0
    ensures FeedFooter(f, b[4..]) == f.(stage := Complete, isize := FromFourWord(b[4], b[5], b[6], b[7]))
  {
    FeedFooterNext(f, b, 4);
    var f1 := FooterStep(f, b[4]);
    FeedFooterNext(f1, b, 5);
    var f2 := FooterStep(f1, b[5]);
    FeedFooterNext(f2, b, 6);
    var f3 := FooterStep(f2, b[6]);
    FeedFooterNext(f3, b, 7);
    UnsignedSum(b[4], b[5], b[6], b[7]);
  }

  function FromFourWord(b0: Byte, b1: Byte, b2: Byte, b3: Byte): Word {
    FromFour(b0, b1, b2, b3)
  }

  lemma FourRoundTrip(n: Word)
    ensures var b := Four(n); FromFour(b[0], b[1], b[2], b[3]) == n
  {
    var n1 := n / 0x100;
    var n2 := n1 / 0x100;
    var n3 := n2 / 0x100;
    assert n == Low(n) + 0x100 * n1 && n1 == Low(n1) + 0x100 * n2 && n2 == Low(n2) + 0x100 * n3;
    assert n3 < 0x100 && Low(n3) == n3;
  }

  function EncodeFooter(crc: Word, isize: Word): seq<Byte> {
    Four(crc) + Four(isize)
  }

  /** Printing then parsing recovers both words, over their whole unsigned range. */
  lemma FooterRoundTrip(crc: Word, isize: Word)
    ensures FeedFooter(FOOTER_START, EncodeFooter(crc, isize)) == Footer(Complete, 0, crc, isize)
  {
    var b := EncodeFooter(crc, isize);
    FeedCrcPart(b);
    FourRoundTrip(crc);
    FeedSizePart(Footer(InSize, 0, crc, 0), b);
    FourRoundTrip(isize);
  }

  /** Any eight bytes complete the footer, and it prints back to them. */
  lemma FooterAcceptsAnyEight(b: seq<Byte>)
    requires |b| == 8
    ensures var f := FeedFooter(FOOTER_START, b); f.stage == Complete && EncodeFooter(f.crc, f.isize) == b
  {
    FeedCrcPart(b);
    FeedSizePart(Footer(InSize, 0, FromFourWord(b[0], b[1], b[2], b[3]), 0), b);
    FourIsOnto(b[0], b[1], b[2], b[3]);
    FourIsOnto(b[4], b[5], b[6], b[7]);
  }

  /** In the numbers of RFC 1952: CRC32 first, then ISIZE, each with its lowest byte first. */
  lemma FooterIs(b: seq<Byte>)
    requires |b| == 8
    ensures
      var f := FeedFooter(FOOTER_START, b);
      && f.crc == (b[0] as int) + 256 * (b[1] as int) + 65536 * (b[2] as int) + 16777216 * (b[3] as int)
      && f.isize == (b[4] as int) + 256 * (b[5] as int) + 65536 * (b[6] as int) + 16777216 * (b[7] as int)
  {
    FeedCrcPart(b);
    FeedSizePart(Footer(InSize, 0, FromFourWord(b[0], b[1], b[2], b[3]), 0), b);
  }
}
