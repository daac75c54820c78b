/**
 * The bookkeeping around each call into the compressor or decompressor: buffer cursors, running
 * checksum and totals. The codec itself is a parameter: any number of bytes consumed and any bytes
 * produced that fit the windows it was given.
 */
module Zlib {
  import opened GzipHeader
  import opened GzipFooter
  import opened Crc32

  /** The codec's view of the two buffers, and its own totals. */
  datatype Stream = Stream(nextIn: nat, availIn: nat, nextOut: nat, availOut: nat, totalIn: nat, totalOut: nat)

  /** Buffer lengths are narrowed to 32 bits before the codec sees them. */
  function Narrow(n: nat): (m: nat)
    ensures m <= n && m < 0x1_0000_0000
  {
    n % 0x1_0000_0000
  }

  class ZlibBase {
    var stream: Stream
    const calculateCrc: bool
    var crc: Bits
    var crcImp: Bits
    var totalIn: nat
    var totalOut: nat
    /** All bytes that went through the checksum since the last reset. */
    ghost var seen: seq<Byte>

    ghost predicate Valid()
      reads this
    {
      |crc| == WIDTH && |crcImp| == WIDTH && crcImp == (if calculateCrc then Checksum(seen) else Zeros(WIDTH))
    }

    constructor (calculateCrc: bool)
      ensures Valid() && this.calculateCrc == calculateCrc && seen == []
      ensures crc == Zeros(WIDTH) && totalIn == 0 && totalOut == 0
    {
      this.calculateCrc := calculateCrc;
      stream := Stream(0, 0, 0, 0, 0, 0);
      crc, crcImp := Zeros(WIDTH), Zeros(WIDTH);
      totalIn, totalOut := 0, 0;
      seen := [];
      EmptyChecksum();
    }

    /** Shows the codec the unread input and the unwritten output. */
    method Before(srcBegin: nat, srcEnd: nat, destBegin: nat, destEnd: nat)
      requires srcBegin <= srcEnd && destBegin <= destEnd
      modifies this`stream
      ensures stream == old(stream).(
          nextIn := srcBegin, availIn := Narrow(srcEnd - srcBegin),
          nextOut := destBegin, availOut := Narrow(destEnd - destBegin))
    {
      stream := stream.(nextIn := srcBegin, availIn := Narrow(srcEnd - srcBegin));
      stream := stream.(nextOut := destBegin, availOut := Narrow(destEnd - destBegin));
    }

    /** Any call into the codec: it eats some input and writes some output inside its windows. */
    method Codec(dest: array<Byte>, consumed: nat, produced: seq<Byte>)
      requires consumed <= stream.availIn && |produced| <= stream.availOut
      requires stream.nextOut + stream.availOut <= dest.Length
      modifies this`stream, dest
      ensures stream == Stream(
          old(stream).nextIn + consumed, old(stream).availIn - consumed,
          old(stream).nextOut + |produced|, old(stream).availOut - |produced|,
          old(stream).totalIn + consumed, old(stream).totalOut + |produced|)
      ensures dest[..] == old(dest[..stream.nextOut]) + produced + old(dest[stream.nextOut + |produced|..])
    {
      var at := stream.nextOut;
      ghost var was := dest[..];
      for i := 0 to |produced|
        invariant dest[..] == was[..at] + produced[..i] + was[at + i..]
        invariant stream == old(stream)
      {
        dest[at + i] := produced[i];
        assert produced[..i + 1] == produced[..i] + [produced[i]];
        assert dest[..] == (was[..at] + produced[..i] + was[at + i..])[at + i := produced[i]];
      }
      assert produced[..|produced|] == produced;
      stream := Stream(stream.nextIn + consumed, stream.availIn - consumed,
                       stream.nextOut + |produced|, stream.availOut - |produced|,
                       stream.totalIn + consumed, stream.totalOut + |produced|);
    }

    /** Accounts for what the codec did and moves the caller's cursors. */
    method After(src: seq<Byte>, srcBegin: nat, dest: array<Byte>, destBegin: nat, compress: bool)
      returns (srcNext: nat, destNext: nat)
      requires Valid()
      requires srcBegin <= stream.nextIn <= |src| && destBegin <= stream.nextOut <= dest.Length
      modifies this`crc, this`crcImp, this`totalIn, this`totalOut, this`seen
      ensures Valid()
      ensures seen == old(seen) + (if compress then src[srcBegin..stream.nextIn] else dest[destBegin..stream.nextOut])
      ensures crc == (if calculateCrc then Checksum(seen) else old(crc))
      ensures totalIn == stream.totalIn && totalOut == stream.totalOut
      ensures srcNext == stream.nextIn && destNext == stream.nextOut
    {
      var nextIn, nextOut := stream.nextIn, stream.nextOut;
      ghost var chunk := if compress then src[srcBegin..nextIn] else dest[destBegin..nextOut];
      if calculateCrc {
        var buffer := if compress then src[srcBegin..nextIn] else dest[destBegin..nextOut];
        crcImp := Update(crcImp, buffer);
        crc := crcImp;
        UpdateContinues(seen, chunk);
      }
      seen := seen + chunk;
      totalIn := stream.totalIn;
      totalOut := stream.totalOut;
      srcNext := nextIn;
      destNext := nextOut;
    }

    /** A new message begins; the last reported checksum stays readable until the next round. */
    method Reset(realloc: bool)
      requires Valid()
      modifies this`stream, this`crcImp, this`seen
      ensures Valid() && seen == []
      ensures stream == (if realloc then old(stream).(totalIn := 0, totalOut := 0) else old(stream))
    {
      if realloc {
        stream := stream.(totalIn := 0, totalOut := 0);
      }
      crcImp := Zeros(WIDTH);
      seen := [];
      EmptyChecksum();
    }

    /**
     * One round, whatever the codec does: the checksum covers exactly the bytes that went through,
     * the totals grow by what was consumed and produced, and the output buffer changes only there.
     */
    method Round(src: seq<Byte>, srcBegin: nat, dest: array<Byte>, destBegin: nat, compress: bool,
                 consumed: nat, produced: seq<Byte>)
      returns (srcNext: nat, destNext: nat)
      requires Valid() && srcBegin <= |src| && destBegin <= dest.Length
      requires consumed <= Narrow(|src| - srcBegin) && |produced| <= Narrow(dest.Length - destBegin)
      modifies this, dest
      ensures Valid()
      ensures seen == old(seen) + (if compress then src[srcBegin..srcBegin + consumed] else produced)
      ensures calculateCrc ==> crc == Checksum(seen)
      ensures !calculateCrc ==> crc == old(crc)
      ensures stream.totalIn == totalIn == old(stream.totalIn) + consumed
      ensures stream.totalOut == totalOut == old(stream.totalOut) + |produced|
      ensures srcNext == srcBegin + consumed && destNext == destBegin + |produced|
      ensures dest[..] == old(dest[..destBegin]) + produced + old(dest[destBegin + |produced|..])
    {
      hide Checksum, Zeros;
      Before(srcBegin, |src|, destBegin, dest.Length);
      Codec(dest, consumed, produced);
      assert dest[destBegin..stream.nextOut] == dest[..][destBegin..stream.nextOut] == produced;
      srcNext, destNext := After(src, srcBegin, dest, destBegin, compress);
    }
  }

  lemma EmptyChecksum()
    ensures Checksum([]) == Zeros(WIDTH)
  {
  }

  /** The chunks one after the other. */
  function Concat(chunks: seq<seq<Byte>>): seq<Byte> {
    if chunks == [] then [] else Concat(chunks[..|chunks| - 1]) + chunks[|chunks| - 1]
  }

  /** The running checksum after all chunks. */
  function RunningCrc(chunks: seq<seq<Byte>>): (r: Bits)
    ensures |r| == WIDTH
  {
    if chunks == [] then Zeros(WIDTH) else Update(RunningCrc(chunks[..|chunks| - 1]), chunks[|chunks| - 1])
  }

  /** However a message is cut up, the running checksum is that of the message. */
  lemma {:induction false} ChunkingIsInvisible(chunks: seq<seq<Byte>>)
    ensures RunningCrc(chunks) == Checksum(Concat(chunks))
  {
    if chunks == [] {
      EmptyChecksum();
    } else {
      var n := |chunks| - 1;
      ChunkingIsInvisible(chunks[..n]);
      UpdateContinues(Concat(chunks[..n]), chunks[n]);
    }
  }

  lemma {:induction false} NumberFits(b: Bits, bound: nat)
    requires bound == Power(|b|)
    ensures NumberOf(b) < bound
    decreases |b|
  {
    if b != [] {
      NumberFits(b[1..], Power(|b| - 1));
    }
  }

  function Power(n: nat): nat {
    if n == 0 then 1 else 2 * Power(n - 1)
  }

  lemma {:induction false} PowerSum(m: nat, n: nat)
    ensures Power(m + n) == Power(m) * Power(n)
  {
    if m > 0 {
      PowerSum(m - 1, n);
      var a, b := Power(m - 1), Power(n);
      assert Power(m) == 2 * a && Power(m + n) == 2 * Power(m - 1 + n);
      assert 2 * (a * b) == (2 * a) * b;
    }
  }

  lemma PowerOfWidth()
    ensures Power(32) == 0x1_0000_0000
  {
    assert Power(4) == 0x10;
    PowerSum(4, 4);
    PowerSum(8, 8);
    PowerSum(16, 16);
  }

  function Value(b: Bits): Word
    requires |b| == WIDTH
  {
    NumberFits(b, Power(32));
    PowerOfWidth();
    NumberOf(b)
  }

  /**
   * The trailer written for a message, fed to the footer parser, gives back the checksum the
   * decompressor reaches on the same bytes however they arrive, and the length modulo 2^32.
   */
  lemma TrailerMatches(chunks: seq<seq<Byte>>, more: seq<seq<Byte>>)
    requires Concat(chunks) == Concat(more)
    ensures
      var trailer := EncodeFooter(Value(RunningCrc(chunks)), |Concat(chunks)| % 0x1_0000_0000);
      FeedFooter(FOOTER_START, trailer)
        == Footer(Complete, 0, Value(RunningCrc(more)), |Concat(more)| % 0x1_0000_0000)
  {
    ChunkingIsInvisible(chunks);
    ChunkingIsInvisible(more);
    FooterRoundTrip(Value(RunningCrc(chunks)), |Concat(chunks)| % 0x1_0000_0000);
  }
}
