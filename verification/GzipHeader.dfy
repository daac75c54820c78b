/**
 * The byte-at-a-time parser of a gzip member header (sections 2.3 and 2.3.1 of RFC 1952) and the
 * encoder it must undo.
 */
module GzipHeader {
  import opened Text

  type Byte = b: int | 0 <= b < 256

  const ID1: Byte := 31
  const ID2: Byte := 139
  const DEFLATE: Byte := 8

  datatype GzipError = BadHeader | BadMethod

  datatype Stage = Id1 | Id2 | Cm | Flg | Mtime | Xfl | Os | Xlen | Extra | Name | Comment | Hcrc | Done

  /** Everything the parser remembers between bytes. */
  datatype Parser = Parser(
    stage: Stage, offset: int, xlen: int, mtime: int, flags: Byte, os: Byte,
    fileName: seq<Byte>, comment: seq<Byte>)

  datatype Outcome = Ok(parser: Parser) | Bad(error: GzipError)

  const START := Parser(Id1, 0, 0, 0, 0, 0, [], [])

  predicate FlagCrc(flags: Byte) { flags / 2 % 2 == 1 }
  predicate FlagExtra(flags: Byte) { flags / 4 % 2 == 1 }
  predicate FlagName(flags: Byte) { flags / 8 % 2 == 1 }
  predicate FlagComment(flags: Byte) { flags / 16 % 2 == 1 }

  /** The stage after the comment, the name, the extra field and the fixed part. */
  function AfterComment(flags: Byte): Stage { if FlagCrc(flags) then Hcrc else Done }
  function AfterName(flags: Byte): Stage { if FlagComment(flags) then Comment else AfterComment(flags) }
  function AfterExtra(flags: Byte): Stage { if FlagName(flags) then Name else AfterName(flags) }
  function AfterOs(flags: Byte): Stage { if FlagExtra(flags) then Xlen else AfterExtra(flags) }

  /** A byte shifted left by whole bytes in 32-bit two's complement: the top byte carries the sign. */
  function Shifted(value: Byte, offset: int): int {
    if offset == 0 then value
    else if offset == 1 then 0x100 * value
    else if offset == 2 then 0x1_0000 * value
    else 0x100_0000 * value - (if value >= 128 then 0x1_0000_0000 else 0)
  }

  /** One byte. */
  function Step(p: Parser, b: Byte): Outcome
    requires p.stage != Done
  {
    match p.stage
    case Id1 => if b != ID1 then Bad(BadHeader) else Ok(p.(stage := Id2))
    case Id2 => if b != ID2 then Bad(BadHeader) else Ok(p.(stage := Cm))
    case Cm => if b != DEFLATE then Bad(BadMethod) else Ok(p.(stage := Flg))
    case Flg => Ok(p.(flags := b, stage := Mtime))
    case Mtime =>
      var q := p.(mtime := p.mtime + Shifted(b, p.offset));
      Ok(if p.offset == 3 then q.(stage := Xfl, offset := 0) else q.(offset := p.offset + 1))
    case Xfl => Ok(p.(stage := Os))
    case Os => Ok(p.(os := b, stage := AfterOs(p.flags)))
    case Xlen =>
      var q := p.(xlen := p.xlen + Shifted(b, p.offset));
      Ok(if p.offset == 1 then q.(stage := Extra, offset := 0) else q.(offset := p.offset + 1))
    case Extra =>
      var q := p.(xlen := p.xlen - 1);
      Ok(if q.xlen == 0 then q.(stage := AfterExtra(p.flags)) else q)
    case Name =>
      Ok(if b != 0 then p.(fileName := p.fileName + [b]) else p.(stage := AfterName(p.flags)))
    case Comment =>
      Ok(if b != 0 then p.(comment := p.comment + [b]) else p.(stage := AfterComment(p.flags)))
    case Hcrc =>
      Ok(if p.offset == 1 then p.(stage := Done, offset := 0) else p.(offset := p.offset + 1))
  }

  /** The parser as an object fed one byte at a time. */
  class HeaderParser {
    var stage: Stage
    var offset: int
    var xlen: int
    var mtime: int
    var flags: Byte
    var os: Byte
    var fileName: seq<Byte>
    var comment: seq<Byte>

    ghost function Value(): Parser
      reads this
    {
      Parser(stage, offset, xlen, mtime, flags, os, fileName, comment)
    }

    constructor ()
      ensures Value() == START
    {
      stage, offset, xlen, mtime, flags, os, fileName, comment := Id1, 0, 0, 0, 0, 0, [], [];
    }

    method Reset()
      modifies this
      ensures Value() == START
    {
      fileName := [];
      comment := [];
      os, flags, offset, xlen := 0, 0, 0, 0;
      mtime := 0;
      stage := Id1;
    }

    /** A rejected byte leaves the parser as it was. */
    method Process(value: Byte) returns (error: Option<GzipError>)
      requires stage != Done
      modifies this
      ensures match Step(old(Value()), value)
        case Ok(next) => error == None && Value() == next
        case Bad(e) => error == Some(e) && Value() == old(Value())
    {
      error := None;
      match stage {
        case Id1 =>
          if value != ID1 { return Some(BadHeader); }
          stage := Id2;
        case Id2 =>
          if value != ID2 { return Some(BadHeader); }
          stage := Cm;
        case Cm =>
          if value != DEFLATE { return Some(BadMethod); }
          stage := Flg;
        case Flg =>
          flags := value;
          stage := Mtime;
        case Mtime =>
          mtime := mtime + Shifted(value, offset);
          if offset == 3 {
            stage := Xfl;
            offset := 0;
          } else {
            offset := offset + 1;
          }
        case Xfl =>
          stage := Os;
        case Os =>
          os := value;
          if FlagExtra(flags) {
            stage := Xlen;
          } else if FlagName(flags) {
            stage := Name;
          } else if FlagComment(flags) {
            stage := Comment;
          } else if FlagCrc(flags) {
            stage := Hcrc;
          } else {
            stage := Done;
          }
        case Xlen =>
          xlen := xlen + Shifted(value, offset);
          if offset == 1 {
            stage := Extra;
            offset := 0;
          } else {
            offset := offset + 1;
          }
        case Extra =>
          xlen := xlen - 1;
          if xlen == 0 {
            if FlagName(flags) {
              stage := Name;
            } else if FlagComment(flags) {
              stage := Comment;
            } else if FlagCrc(flags) {
              stage := Hcrc;
            } else {
              stage := Done;
            }
          }
        case Name =>
          if value != 0 {
            fileName := fileName + [value];
          } else if FlagComment(flags) {
            stage := Comment;
          } else if FlagCrc(flags) {
            stage := Hcrc;
          } else {
            stage := Done;
          }
        case Comment =>
          if value != 0 {
            comment := comment + [value];
          } else if FlagCrc(flags) {
            stage := Hcrc;
          } else {
            stage := Done;
          }
        case Hcrc =>
          if offset == 1 {
            stage := Done;
            offset := 0;
          } else {
            offset := offset + 1;
          }
      }
    }
  }

  // ---------------------------------------------------------------- whole inputs

  datatype Run = Finished(parser: Parser) | Incomplete(parser: Parser) | Failed(error: GzipError) | Excess

  /** Feeds all bytes; a byte offered after the header is complete makes the run `Excess`. */
  function Feed(p: Parser, bytes: seq<Byte>): Run
    decreases |bytes|
  {
    if bytes == [] then (if p.stage == Done then Finished(p) else Incomplete(p))
    else if p.stage == Done then Excess
    else
      match Step(p, bytes[0])
      case Bad(e) => Failed(e)
      case Ok(q) => Feed(q, bytes[1..])
  }

  lemma {:induction false} FeedAppend(p: Parser, a: seq<Byte>, b: seq<Byte>)
    ensures Feed(p, a).Incomplete? ==> Feed(p, a + b) == Feed(Feed(p, a).parser, b)
    ensures Feed(p, a).Finished? && b != [] ==> Feed(p, a + b) == Excess
    ensures Feed(p, a).Finished? && b == [] ==> Feed(p, a + b) == Feed(p, a)
    decreases |a|
  {
    if a == [] {
      assert a + b == b;
    } else {
      assert (a + b)[1..] == a[1..] + b;
      if p.stage != Done && Step(p, a[0]).Ok? {
        FeedAppend(Step(p, a[0]).parser, a[1..], b);
      }
    }
  }

  /** No accepted header is a proper prefix of another. */
  lemma PrefixFree(a: seq<Byte>, b: seq<Byte>)
    requires Feed(START, a).Finished? && Feed(START, b).Finished? && a <= b
    ensures a == b
  {
    FeedAppend(START, a, b[|a|..]);
    assert a + b[|a|..] == b;
  }

  // ---------------------------------------------------------------- order of the stages

  function Rank(s: Stage): nat {
    match s
    case Id1 => 0 case Id2 => 1 case Cm => 2 case Flg => 3 case Mtime => 4 case Xfl => 5 case Os => 6
    case Xlen => 7 case Extra => 8 case Name => 9 case Comment => 10 case Hcrc => 11 case Done => 12
  }

  /** The offset counts bytes inside a multi-byte number and is 0 everywhere else. */
  predicate OffsetInRange(p: Parser) {
    0 <= p.offset <= (if p.stage == Mtime then 3 else if p.stage == Xlen || p.stage == Hcrc then 1 else 0)
  }

  /** Stages only move forward, and every field starts with offset 0. */
  lemma {:induction false} StagesAdvance(p: Parser, bytes: seq<Byte>)
    requires OffsetInRange(p)
    ensures
      var r := Feed(p, bytes);
      r.Finished? || r.Incomplete? ==>
        && OffsetInRange(r.parser)
        && Rank(p.stage) <= Rank(r.parser.stage)
        && (bytes != [] && Rank(r.parser.stage) == Rank(p.stage) ==>
             p.stage in {Mtime, Xlen, Extra, Name, Comment, Hcrc})
    decreases |bytes|
  {
    if bytes != [] && p.stage != Done && Step(p, bytes[0]).Ok? {
      StagesAdvance(Step(p, bytes[0]).parser, bytes[1..]);
    }
  }

  // ---------------------------------------------------------------- the encoder

  /** A member header: optional parts are empty when their flag is clear. */
  datatype Header = Header(
    flags: Byte, mtime: nat, xfl: Byte, os: Byte,
    extra: seq<Byte>, name: seq<Byte>, comment: seq<Byte>, crc: seq<Byte>)

  predicate WellFormed(h: Header) {
    && h.mtime < 0x1_0000_0000
    && (if FlagExtra(h.flags) then 0 < |h.extra| < 0x1_0000 else h.extra == [])
    && 0 !in h.name && (FlagName(h.flags) || h.name == [])
    && 0 !in h.comment && (FlagComment(h.flags) || h.comment == [])
    && |h.crc| == (if FlagCrc(h.flags) then 2 else 0)
  }

  /** Little-endian numbers. */
  function Low(n: nat): Byte { n % 0x100 }
  function Two(n: nat): seq<Byte> { [Low(n), Low(n / 0x100)] }
  function Four(n: nat): seq<Byte> { [Low(n), Low(n / 0x100), Low(n / 0x100 / 0x100), Low(n / 0x100 / 0x100 / 0x100)] }

  function FromTwo(b0: int, b1: int): int { b0 + 0x100 * b1 }
  function FromFour(b0: int, b1: int, b2: int, b3: int): int { b0 + 0x100 * b1 + 0x1_0000 * b2 + 0x100_0000 * b3 }

  function Fixed(h: Header): seq<Byte> {
    [ID1, ID2, DEFLATE, h.flags] + Four(h.mtime) + [h.xfl, h.os]
  }

  function CommentOn(h: Header): seq<Byte> {
    if FlagComment(h.flags) then h.comment + ([0] + h.crc) else h.crc
  }

  function NameOn(h: Header): seq<Byte> {
    if FlagName(h.flags) then h.name + ([0] + CommentOn(h)) else CommentOn(h)
  }

  function ExtraOn(h: Header): seq<Byte> {
    if FlagExtra(h.flags) then Two(|h.extra|) + (h.extra + NameOn(h)) else NameOn(h)
  }

  function Encode(h: Header): seq<Byte> {
    Fixed(h) + ExtraOn(h)
  }

  /** The time as the parser holds it: from 2^31 on the top byte makes it negative. */
  function SignedTime(t: nat): int {
    if t < 0x8000_0000 then t else t - 0x1_0000_0000
  }

  /** What the parser knows at the end. */
  function Parsed(h: Header): Parser {
    Parser(Done, 0, 0, SignedTime(h.mtime), h.flags, h.os, h.name, h.comment)
  }

  // ---------------------------------------------------------------- parsing what was printed

  lemma {:induction false} FeedZeroEnded(p: Parser, text: seq<Byte>, rest: seq<Byte>)
    requires p.stage in {Name, Comment} && 0 !in text
    ensures p.stage == Name ==>
        Feed(p, text + ([0] + rest)) == Feed(p.(fileName := p.fileName + text, stage := AfterName(p.flags)), rest)
    ensures p.stage == Comment ==>
        Feed(p, text + ([0] + rest)) == Feed(p.(comment := p.comment + text, stage := AfterComment(p.flags)), rest)
    decreases |text|
  {
    hide AfterName, AfterComment, AfterExtra, AfterOs, Shifted;
    var all := text + ([0] + rest);
    if text == [] {
      assert all[0] == 0 && all[1..] == rest;
      assert p.fileName + text == p.fileName && p.comment + text == p.comment;
    } else {
      assert all[0] == text[0] && all[1..] == text[1..] + ([0] + rest);
      FeedZeroEnded(Step(p, text[0]).parser, text[1..], rest);
      assert (p.fileName + [text[0]]) + text[1..] == p.fileName + text;
      assert (p.comment + [text[0]]) + text[1..] == p.comment + text;
    }
  }

  lemma {:induction false} FeedExtra(p: Parser, extra: seq<Byte>, rest: seq<Byte>)
    requires p.stage == Extra && 0 < |extra| == p.xlen
    ensures Feed(p, extra + rest) == Feed(p.(xlen := 0, stage := AfterExtra(p.flags)), rest)
    decreases |extra|
  {
    var all := extra + rest;
    assert all[1..] == extra[1..] + rest;
    if |extra| == 1 {
      assert extra[1..] + rest == rest;
    } else {
      FeedExtra(Step(p, extra[0]).parser, extra[1..], rest);
    }
  }

  lemma FeedCrc(p: Parser, h: Header)
    requires WellFormed(h) && p.flags == h.flags && p.offset == 0 && p.stage == AfterComment(h.flags)
    ensures Feed(p, h.crc) == Finished(p.(stage := Done))
  {
    if FlagCrc(h.flags) {
      assert h.crc[1..][1..] == [];
      var q := Step(p, h.crc[0]).parser;
      assert Feed(q, h.crc[1..]) == Feed(Step(q, h.crc[1]).parser, []);
    }
  }

  lemma FeedCommentOn(p: Parser, h: Header)
    requires WellFormed(h) && p.flags == h.flags && p.offset == 0 && p.stage == AfterName(h.flags)
    ensures Feed(p, CommentOn(h)) == Finished(p.(stage := Done, comment := p.comment + h.comment))
  {
    if FlagComment(h.flags) {
      FeedZeroEnded(p, h.comment, h.crc);
      FeedCrc(p.(comment := p.comment + h.comment, stage := AfterComment(p.flags)), h);
    } else {
      FeedCrc(p, h);
    }
  }

  lemma FeedNameOn(p: Parser, h: Header)
    requires WellFormed(h) && p.flags == h.flags && p.offset == 0 && p.stage == AfterExtra(h.flags)
    ensures Feed(p, NameOn(h))
        == Finished(p.(stage := Done, fileName := p.fileName + h.name, comment := p.comment + h.comment))
  {
    if FlagName(h.flags) {
      FeedZeroEnded(p, h.name, CommentOn(h));
      FeedCommentOn(p.(fileName := p.fileName + h.name, stage := AfterName(p.flags)), h);
    } else {
      assert p.fileName + h.name == p.fileName;
      FeedCommentOn(p, h);
    }
  }

  lemma FeedExtraOn(p: Parser, h: Header)
    requires WellFormed(h) && p.flags == h.flags && p.offset == 0 && p.xlen == 0 && p.stage == AfterOs(h.flags)
    ensures Feed(p, ExtraOn(h))
        == Finished(p.(stage := Done, fileName := p.fileName + h.name, comment := p.comment + h.comment))
  {
    if FlagExtra(h.flags) {
      var n := |h.extra|;
      var body := h.extra + NameOn(h);
      var q := FeedTwo(p, n, body);
      FeedExtra(q, h.extra, NameOn(h));
      FeedNameOn(q.(xlen := 0, stage := AfterExtra(p.flags)), h);
    } else {
      FeedNameOn(p, h);
    }
  }

  lemma FeedTwo(p: Parser, n: nat, rest: seq<Byte>) returns (q: Parser)
    requires p.stage == Xlen && p.offset == 0 && p.xlen == 0 && n < 0x1_0000
    ensures q == p.(stage := Extra, xlen := n)
    ensures Feed(p, Two(n) + rest) == Feed(q, rest)
  {
    var all := Two(n) + rest;
    var p1 := Step(p, all[0]).parser;
    q := Step(p1, all[1]).parser;
    assert all[1..][1..] == rest;
    assert Feed(p1, all[1..]) == Feed(Step(p1, all[1..][0]).parser, all[1..][1..]);
  }

  /** The bytes of a little-endian number, summed the way the parser sums them. */
  lemma SumOfFour(n: nat)
    requires n < 0x1_0000_0000
    ensures Shifted(Four(n)[0], 0) + Shifted(Four(n)[1], 1) + Shifted(Four(n)[2], 2) + Shifted(Four(n)[3], 3)
        == SignedTime(n)
  {
    var n1 := n / 0x100;
    var n2 := n1 / 0x100;
    var n3 := n2 / 0x100;
    assert n == Low(n) + 0x100 * n1 && n1 == Low(n1) + 0x100 * n2 && n2 == Low(n2) + 0x100 * n3;
    assert n3 < 0x100 && Low(n3) == n3;
  }

  /** A run that is not over takes its next byte. */
  lemma FeedNext(p: Parser, all: seq<Byte>, i: nat)
    requires i <= |all| && p.stage != Done
    ensures i < |all| && Step(p, all[i]).Ok? ==> Feed(p, all[i..]) == Feed(Step(p, all[i]).parser, all[i + 1..])
    ensures Feed(p, all[i..]).Finished? ==> i < |all| && Step(p, all[i]).Ok?
  {
    if i < |all| {
      assert all[i..][0] == all[i] && all[i..][1..] == all[i + 1..];
    }
  }

  /** The parser after the ten fixed bytes `b`. */
  function AfterFixed(b: seq<Byte>): Parser
    requires |b| >= 10
  {
    var mtime := Shifted(b[4], 0) + Shifted(b[5], 1) + Shifted(b[6], 2) + Shifted(b[7], 3);
    Parser(AfterOs(b[3]), 0, 0, mtime, b[3], b[9], [], [])
  }

  lemma FeedMagic(b: seq<Byte>) returns (p: Parser)
    ensures p == START.(stage := Flg)
    ensures |b| >= 3 && b[..3] == [ID1, ID2, DEFLATE] ==> Feed(START, b) == Feed(p, b[3..])
    ensures Feed(START, b).Finished? ==> |b| >= 3 && b[..3] == [ID1, ID2, DEFLATE]
  {
    assert b[0..] == b;
    FeedNext(START, b, 0);
    p := START.(stage := Id2);
    if |b| >= 1 && b[0] == ID1 { FeedNext(p, b, 1); }
    p := START.(stage := Cm);
    if |b| >= 2 && b[0] == ID1 && b[1] == ID2 { FeedNext(p, b, 2); }
    p := START.(stage := Flg);
  }

  lemma FeedTime(p: Parser, b: seq<Byte>) returns (q: Parser)
    requires p.stage == Mtime && p.offset == 0 && p.mtime == 0 && |b| >= 4
    ensures |b| >= 8 ==>
      && q == p.(stage := Xfl, mtime := Shifted(b[4], 0) + Shifted(b[5], 1) + Shifted(b[6], 2) + Shifted(b[7], 3))
      && Feed(p, b[4..]) == Feed(q, b[8..])
    ensures Feed(p, b[4..]).Finished? ==> |b| >= 8
  {
    q := p;
    FeedNext(q, b, 4);
    if |b| >= 5 { q := Step(q, b[4]).parser; FeedNext(q, b, 5); }
    if |b| >= 6 { q := Step(q, b[5]).parser; FeedNext(q, b, 6); }
    if |b| >= 7 { q := Step(q, b[6]).parser; FeedNext(q, b, 7); }
    if |b| >= 8 { q := Step(q, b[7]).parser; }
  }

  lemma FeedXflOs(p: Parser, b: seq<Byte>)
    requires p.stage == Xfl && |b| >= 8
    ensures |b| >= 10 ==> Feed(p, b[8..]) == Feed(p.(os := b[9], stage := AfterOs(p.flags)), b[10..])
    ensures Feed(p, b[8..]).Finished? ==> |b| >= 10
  {
    FeedNext(p, b, 8);
    if |b| >= 9 { FeedNext(p.(stage := Os), b, 9); }
  }

  lemma FeedFlags(p: Parser, b: seq<Byte>)
    requires p == START.(stage := Flg) && |b| >= 3
    ensures |b| >= 10 ==> Feed(p, b[3..]) == Feed(AfterFixed(b), b[10..])
    ensures Feed(p, b[3..]).Finished? ==> |b| >= 10
  {
    FeedNext(p, b, 3);
    if |b| >= 4 {
      var p4 := p.(stage := Mtime, flags := b[3]);
      assert Step(p, b[3]) == Ok(p4);
      var q := FeedTime(p4, b);
      if |b| >= 8 {
        FeedXflOs(q, b);
        assert |b| >= 10 ==> q.(os := b[9], stage := AfterOs(q.flags)) == AfterFixed(b);
      }
    }
  }

  /** The fixed part: both directions. */
  lemma FeedFixed(b: seq<Byte>)
    ensures |b| >= 10 && b[..3] == [ID1, ID2, DEFLATE] ==> Feed(START, b) == Feed(AfterFixed(b), b[10..])
    ensures Feed(START, b).Finished? ==> |b| >= 10 && b[..3] == [ID1, ID2, DEFLATE]
  {
    var p := FeedMagic(b);
    if |b| >= 3 {
      FeedFlags(p, b);
    }
  }

  lemma AfterFixedPart(h: Header)
    requires WellFormed(h)
    ensures
      var b := Encode(h);
      && |b| >= 10 && b[..3] == [ID1, ID2, DEFLATE] && b[10..] == ExtraOn(h)
      && AfterFixed(b) == Parser(AfterOs(h.flags), 0, 0, SignedTime(h.mtime), h.flags, h.os, [], [])
  {
    hide Shifted, AfterOs, ExtraOn;
    SumOfFour(h.mtime);
  }

  /** Printing then parsing recovers everything the parser keeps, and uses up every byte. */
  lemma RoundTrip(h: Header)
    requires WellFormed(h)
    ensures Feed(START, Encode(h)) == Finished(Parsed(h))
  {
    hide Feed, Encode, AfterFixed;
    var b := Encode(h);
    AfterFixedPart(h);
    FeedFixed(b);
    FeedExtraOn(AfterFixed(b), h);
    assert [] + h.name == h.name && [] + h.comment == h.comment;
  }

  /** The header is complete on the last byte and not before. */
  lemma DoneOnLastByte(h: Header, n: nat)
    requires WellFormed(h) && n < |Encode(h)|
    ensures Feed(START, Encode(h)[..n]).Incomplete?
  {
    RoundTrip(h);
    FeedCut(START, Encode(h), n);
  }

  /** A run that finishes was merely incomplete at every earlier point. */
  lemma {:induction false} FeedCut(p: Parser, b: seq<Byte>, n: nat)
    requires Feed(p, b).Finished? && n < |b|
    ensures Feed(p, b[..n]).Incomplete?
    decreases n
  {
    if n > 0 {
      assert b[..n][0] == b[0] && b[..n][1..] == b[1..][..n - 1];
      FeedCut(Step(p, b[0]).parser, b[1..], n - 1);
    }
  }

  /** The kept time agrees with the encoded one modulo 2^32, and is equal to it exactly below 2^31. */
  lemma TimeIsExactBelowSignBit(h: Header)
    requires WellFormed(h)
    ensures Feed(START, Encode(h)).Finished?
    ensures Feed(START, Encode(h)).parser.mtime % 0x1_0000_0000 == h.mtime
    ensures Feed(START, Encode(h)).parser.mtime == h.mtime <==> h.mtime < 0x8000_0000
  {
    RoundTrip(h);
  }

  // ---------------------------------------------------------------- printing what was parsed

  lemma {:induction false} TakeZeroEnded(p: Parser, b: seq<Byte>) returns (text: seq<Byte>, rest: seq<Byte>)
    requires p.stage in {Name, Comment} && Feed(p, b).Finished?
    ensures 0 !in text && b == text + ([0] + rest)
    decreases |b|
  {
    if b[0] == 0 {
      text, rest := [], b[1..];
    } else {
      text, rest := TakeZeroEnded(Step(p, b[0]).parser, b[1..]);
      text := [b[0]] + text;
    }
  }

  /** With a nonpositive count the extra field never ends. */
  lemma {:induction false} EmptyExtraNeverEnds(p: Parser, b: seq<Byte>)
    requires p.stage == Extra && p.xlen <= 0
    ensures Feed(p, b).Incomplete?
    decreases |b|
  {
    if b != [] {
      EmptyExtraNeverEnds(Step(p, b[0]).parser, b[1..]);
    }
  }

  lemma {:induction false} TakeExtra(p: Parser, b: seq<Byte>) returns (extra: seq<Byte>, rest: seq<Byte>)
    requires p.stage == Extra && 0 < p.xlen && Feed(p, b).Finished?
    ensures |extra| == p.xlen && b == extra + rest
    decreases |b|
  {
    if p.xlen == 1 {
      extra, rest := [b[0]], b[1..];
    } else {
      extra, rest := TakeExtra(Step(p, b[0]).parser, b[1..]);
      extra := [b[0]] + extra;
    }
  }

  lemma TakeCrc(p: Parser, b: seq<Byte>, h: Header) returns (full: Header)
    requires p.flags == h.flags && p.offset == 0 && p.stage == AfterComment(h.flags) && Feed(p, b).Finished?
    ensures full == h.(crc := b) && |b| == (if FlagCrc(h.flags) then 2 else 0)
  {
    full := h.(crc := b);
    if FlagCrc(h.flags) {
      assert b[0..] == b;
      FeedNext(p, b, 0);
      var p1 := Step(p, b[0]).parser;
      FeedNext(p1, b, 1);
    }
  }

  lemma TakeCommentOn(p: Parser, b: seq<Byte>, h: Header) returns (full: Header)
    requires p.flags == h.flags && p.offset == 0 && p.stage == AfterName(h.flags) && Feed(p, b).Finished?
    ensures full == h.(comment := full.comment, crc := full.crc) && b == CommentOn(full)
    ensures 0 !in full.comment && (FlagComment(h.flags) || full.comment == [])
    ensures |full.crc| == (if FlagCrc(h.flags) then 2 else 0)
  {
    if FlagComment(h.flags) {
      var text, rest := TakeZeroEnded(p, b);
      FeedZeroEnded(p, text, rest);
      full := TakeCrc(p.(comment := p.comment + text, stage := AfterComment(p.flags)), rest, h.(comment := text));
    } else {
      full := TakeCrc(p, b, h.(comment := []));
    }
  }

  lemma TakeNameOn(p: Parser, b: seq<Byte>, h: Header) returns (full: Header)
    requires p.flags == h.flags && p.offset == 0 && p.stage == AfterExtra(h.flags) && Feed(p, b).Finished?
    ensures full == h.(name := full.name, comment := full.comment, crc := full.crc) && b == NameOn(full)
    ensures 0 !in full.name && (FlagName(h.flags) || full.name == [])
    ensures 0 !in full.comment && (FlagComment(h.flags) || full.comment == [])
    ensures |full.crc| == (if FlagCrc(h.flags) then 2 else 0)
  {
    if FlagName(h.flags) {
      var text, rest := TakeZeroEnded(p, b);
      FeedZeroEnded(p, text, rest);
      full := TakeCommentOn(p.(fileName := p.fileName + text, stage := AfterName(p.flags)), rest, h.(name := text));
    } else {
      full := TakeCommentOn(p, b, h.(name := []));
    }
  }

  lemma TwoIsOnto(b: seq<Byte>)
    requires |b| >= 2
    ensures Two(FromTwo(b[0], b[1])) == b[..2]
  {
  }

  lemma FourIsOnto(b0: Byte, b1: Byte, b2: Byte, b3: Byte)
    ensures FromFour(b0, b1, b2, b3) < 0x1_0000_0000
    ensures Four(FromFour(b0, b1, b2, b3)) == [b0, b1, b2, b3]
  {
    var n := FromFour(b0, b1, b2, b3);
    var n1 := b1 + 0x100 * b2 + 0x1_0000 * b3;
    var n2 := b2 + 0x100 * b3;
    LowAndRest(b0, n1);
    LowAndRest(b1, n2);
    LowAndRest(b2, b3);
  }

  lemma LowAndRest(low: Byte, rest: nat)
    ensures (low + 0x100 * rest) % 0x100 == low && (low + 0x100 * rest) / 0x100 == rest
  {
  }

  lemma TakeExtraOn(p: Parser, b: seq<Byte>, h: Header) returns (full: Header)
    requires p.flags == h.flags && p.offset == 0 && p.xlen == 0 && p.stage == AfterOs(h.flags) && Feed(p, b).Finished?
    requires h.mtime < 0x1_0000_0000
    ensures WellFormed(full) && b == ExtraOn(full)
    ensures full.flags == h.flags && full.mtime == h.mtime && full.xfl == h.xfl && full.os == h.os
  {
    if FlagExtra(h.flags) {
      assert b[0..] == b;
      FeedNext(p, b, 0);
      var p1 := Step(p, b[0]).parser;
      FeedNext(p1, b, 1);
      var q := Step(p1, b[1]).parser;
      if q.xlen <= 0 {
        EmptyExtraNeverEnds(q, b[2..]);
        assert false;
      }
      var extra, rest := TakeExtra(q, b[2..]);
      FeedExtra(q, extra, rest);
      TwoIsOnto(b);
      full := TakeNameOn(q.(xlen := 0, stage := AfterExtra(p.flags)), rest, h.(extra := extra));
      assert b == b[..2] + b[2..];
    } else {
      full := TakeNameOn(p, b, h.(extra := []));
    }
  }

  lemma FixedIs(b: seq<Byte>, h: Header)
    requires |b| >= 10 && b[..3] == [ID1, ID2, DEFLATE]
    requires h.flags == b[3] && Four(h.mtime) == [b[4], b[5], b[6], b[7]] && h.xfl == b[8] && h.os == b[9]
    ensures b[..10] == Fixed(h)
  {
    assert b[..3][0] == b[0] && b[..3][1] == b[1] && b[..3][2] == b[2];
  }

  /** Every accepted byte string is the encoding of a well-formed header. */
  lemma AcceptedIsEncoding(b: seq<Byte>) returns (h: Header)
    requires Feed(START, b).Finished?
    ensures WellFormed(h) && b == Encode(h)
  {
    FeedFixed(b);
    FourIsOnto(b[4], b[5], b[6], b[7]);
    var t := FromFour(b[4], b[5], b[6], b[7]);
    h := TakeExtraOn(AfterFixed(b), b[10..], Header(b[3], t, b[8], b[9], [], [], [], []));
    FixedIs(b, h);
    assert b == b[..10] + b[10..];
  }

  /** ... of exactly one. */
  lemma EncodingIsUnique(a: Header, b: Header)
    requires WellFormed(a) && WellFormed(b) && Encode(a) == Encode(b)
    ensures a == b
  {
    RoundTrip(a);
    RoundTrip(b);
    assert Parsed(a) == Parsed(b);
    assert a.mtime == b.mtime;
    var all := Encode(a);
    assert all[8] == a.xfl && all[8] == b.xfl;
    assert all[10..] == ExtraOn(a) == ExtraOn(b);
    ExtraOnIsInjective(a, b);
  }

  lemma EndsWithCrc(h: Header)
    ensures |ExtraOn(h)| >= |h.crc|
    ensures ExtraOn(h)[|ExtraOn(h)| - |h.crc|..] == h.crc
  {
    assert CommentOn(h)[|CommentOn(h)| - |h.crc|..] == h.crc;
    assert NameOn(h)[|NameOn(h)| - |h.crc|..] == h.crc;
  }

  lemma ExtraOnIsInjective(a: Header, b: Header)
    requires WellFormed(a) && WellFormed(b) && a.flags == b.flags && a.name == b.name && a.comment == b.comment
    requires ExtraOn(a) == ExtraOn(b)
    ensures a.extra == b.extra && a.crc == b.crc
  {
    EndsWithCrc(a);
    EndsWithCrc(b);
    if FlagExtra(a.flags) {
      assert |NameOn(a)| == |NameOn(b)|;
      SliceOf(Two(|a.extra|), a.extra, NameOn(a));
      SliceOf(Two(|b.extra|), b.extra, NameOn(b));
    }
  }

  lemma SliceOf(front: seq<Byte>, middle: seq<Byte>, back: seq<Byte>)
    ensures (front + (middle + back))[|front|..|front| + |middle|] == middle
  {
  }

  /** A header whose flags announce an extra field of length 0 is never completed by any input. */
  lemma ZeroLengthExtraNeverFinishes(b: seq<Byte>)
    requires |b| >= 12 && b[..3] == [ID1, ID2, DEFLATE] && FlagExtra(b[3]) && b[10] == 0 && b[11] == 0
    ensures Feed(START, b).Incomplete?
  {
    FeedFixed(b);
    var p := AfterFixed(b);
    FeedNext(p, b, 10);
    var p1 := Step(p, b[10]).parser;
    FeedNext(p1, b, 11);
    EmptyExtraNeverEnds(Step(p1, b[11]).parser, b[12..]);
  }

  // ---------------------------------------------------------------- in the numbers of RFC 1952

  function Bit(b: bool): nat { if b then 1 else 0 }

  lemma CrcFlag(low: nat, bit: bool, high: nat)
    requires low < 2 && low + 2 * Bit(bit) + 4 * high < 256
    ensures FlagCrc(low + 2 * Bit(bit) + 4 * high) == bit
  {
  }

  lemma ExtraFlag(low: nat, bit: bool, high: nat)
    requires low < 4 && low + 4 * Bit(bit) + 8 * high < 256
    ensures FlagExtra(low + 4 * Bit(bit) + 8 * high) == bit
  {
  }

  lemma NameFlag(low: nat, bit: bool, high: nat)
    requires low < 8 && low + 8 * Bit(bit) + 16 * high < 256
    ensures FlagName(low + 8 * Bit(bit) + 16 * high) == bit
  {
  }

  lemma CommentFlag(low: nat, bit: bool, high: nat)
    requires low < 16 && low + 16 * Bit(bit) + 32 * high < 256
    ensures FlagComment(low + 16 * Bit(bit) + 32 * high) == bit
  {
  }

  /** The flag byte of section 2.3.1: FTEXT, FHCRC, FEXTRA, FNAME, FCOMMENT from the lowest bit on. */
  lemma FlagsAreBits(text: bool, crc: bool, extra: bool, name: bool, comment: bool, reserved: nat)
    requires reserved < 8
    ensures
      var f := Bit(text) + 2 * Bit(crc) + 4 * Bit(extra) + 8 * Bit(name) + 16 * Bit(comment) + 32 * reserved;
      FlagCrc(f) == crc && FlagExtra(f) == extra && FlagName(f) == name && FlagComment(f) == comment
  {
    hide FlagCrc, FlagExtra, FlagName, FlagComment;
    var high := reserved;
    CommentFlag(Bit(text) + 2 * Bit(crc) + 4 * Bit(extra) + 8 * Bit(name), comment, high);
    high := Bit(comment) + 2 * high;
    NameFlag(Bit(text) + 2 * Bit(crc) + 4 * Bit(extra), name, high);
    high := Bit(name) + 2 * high;
    ExtraFlag(Bit(text) + 2 * Bit(crc), extra, high);
    high := Bit(extra) + 2 * high;
    CrcFlag(Bit(text), crc, high);
  }

  /** Only the magic number 1f 8b and method 8 are accepted; the first wrong byte decides the error. */
  lemma MagicIsChecked(b: seq<Byte>)
    ensures Feed(START, b).Finished? ==> |b| >= 10 && b[0] == 0x1f && b[1] == 0x8b && b[2] == 8
    ensures |b| >= 1 && b[0] != 0x1f ==> Feed(START, b) == Failed(BadHeader)
    ensures |b| >= 2 && b[0] == 0x1f && b[1] != 0x8b ==> Feed(START, b) == Failed(BadHeader)
    ensures |b| >= 3 && b[0] == 0x1f && b[1] == 0x8b && b[2] != 8 ==> Feed(START, b) == Failed(BadMethod)
  {
    FeedFixed(b);
    assert |b| >= 3 ==> b[..3][0] == b[0] && b[..3][1] == b[1] && b[..3][2] == b[2];
    if |b| >= 1 && b[0] == 0x1f {
      assert Feed(START, b) == Feed(START.(stage := Id2), b[1..]);
      if |b| >= 2 && b[1] == 0x8b {
        assert b[1..][1..] == b[2..];
        assert Feed(START, b) == Feed(START.(stage := Cm), b[2..]);
      }
    }
  }

  /** The ten bytes every header begins with. */
  function TenBytes(flags: Byte, mtime: nat, xfl: Byte, os: Byte): seq<Byte>
    requires mtime < 0x1_0000_0000
  {
    [0x1f, 0x8b, 8, flags,
     mtime % 256, mtime / 256 % 256, mtime / 65536 % 256, mtime / 16777216 % 256,
     xfl, os]
  }

  lemma FixedIsTenBytes(h: Header)
    requires WellFormed(h)
    ensures Fixed(h) == TenBytes(h.flags, h.mtime, h.xfl, h.os)
  {
    assert h.mtime / 0x100 / 0x100 == h.mtime / 65536;
    assert h.mtime / 0x100 / 0x100 / 0x100 == h.mtime / 16777216;
  }

  /** Where the parts of an encoded header stand when only one of them is present. */
  lemma OnePartLayout(h: Header)
    requires WellFormed(h)
    ensures
      var ten := TenBytes(h.flags, h.mtime, h.xfl, h.os);
      && (h.flags == 0 ==> Encode(h) == ten)
      && (h.flags == 2 ==> Encode(h) == ten + h.crc)
      && (h.flags == 4 ==> Encode(h) == ten + XlenBytes(h) + h.extra)
      && (h.flags == 8 ==> Encode(h) == ten + h.name + [0])
      && (h.flags == 16 ==> Encode(h) == ten + h.comment + [0])
  {
    hide Fixed, TenBytes;
    FixedIsTenBytes(h);
    if h.flags == 4 {
      assert ExtraOn(h) == XlenBytes(h) + h.extra;
    } else if h.flags == 8 {
      assert ExtraOn(h) == h.name + [0];
    } else if h.flags == 16 {
      assert ExtraOn(h) == h.comment + [0];
    }
  }

  function XlenBytes(h: Header): seq<Byte> {
    [|h.extra| % 256, |h.extra| / 256 % 256]
  }

  /** The order of the parts when all are present. */
  lemma FullLayout(h: Header)
    requires WellFormed(h) && h.flags == 30
    ensures Encode(h) == TenBytes(30, h.mtime, h.xfl, h.os)
        + (XlenBytes(h) + (h.extra + (h.name + ([0] + (h.comment + ([0] + h.crc))))))
  {
    hide Fixed, TenBytes;
    FixedIsTenBytes(h);
  }

  /** A header with nothing but a name, and one with nothing but a comment, byte by byte. */
  lemma NameAndComment(mtime: nat, xfl: Byte, os: Byte, text: seq<Byte>)
    requires mtime < 0x1_0000_0000 && 0 !in text
    ensures Feed(START, TenBytes(8, mtime, xfl, os) + text + [0])
        == Finished(Parser(Done, 0, 0, SignedTime(mtime), 8, os, text, []))
    ensures Feed(START, TenBytes(16, mtime, xfl, os) + text + [0])
        == Finished(Parser(Done, 0, 0, SignedTime(mtime), 16, os, [], text))
    ensures Feed(START, TenBytes(0, mtime, xfl, os)) == Finished(Parser(Done, 0, 0, SignedTime(mtime), 0, os, [], []))
  {
    hide Feed, Encode;
    var named := Header(8, mtime, xfl, os, [], text, [], []);
    var commented := Header(16, mtime, xfl, os, [], [], text, []);
    var bare := Header(0, mtime, xfl, os, [], [], [], []);
    OnePartLayout(named);
    RoundTrip(named);
    OnePartLayout(commented);
    RoundTrip(commented);
    OnePartLayout(bare);
    RoundTrip(bare);
  }
}
