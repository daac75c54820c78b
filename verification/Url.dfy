/**
 * The request target: the '|' to "%7C" rewrite that precedes URL parsing, percent decoding
 * (section 2.1 of RFC 3986) and the origin-form grammar (section 3.2.1 of RFC 9112).
 */
module Url {
  import opened Text

  // ---------------------------------------------------------------- the rewrite

  /** Every '|' becomes "%7C"; every other character stays. */
  function Rewrite(s: string): string {
    if s == [] then [] else RewriteChar(s[0]) + Rewrite(s[1..])
  }

  function RewriteChar(c: char): string {
    if c == '|' then "%7C" else [c]
  }

  function RewriteAll(pieces: seq<string>): (r: seq<string>)
    ensures |r| == |pieces|
    ensures forall k :: 0 <= k < |r| ==> r[k] == Rewrite(pieces[k])
  {
    seq(|pieces|, k requires 0 <= k < |pieces| => Rewrite(pieces[k]))
  }

  lemma RewriteAllCons(piece: string, pieces: seq<string>)
    ensures RewriteAll([piece] + pieces) == [Rewrite(piece)] + RewriteAll(pieces)
  {
  }

  function Pipes(s: string): nat {
    if s == [] then 0 else (if s[0] == '|' then 1 else 0) + Pipes(s[1..])
  }

  /** No '|' survives, and each occurrence costs exactly two extra characters. */
  lemma {:induction false} RewriteRemovesPipes(s: string)
    ensures '|' !in Rewrite(s)
    ensures |Rewrite(s)| == |s| + 2 * Pipes(s)
  {
    if s != [] {
      RewriteRemovesPipes(s[1..]);
    }
  }

  // ---------------------------------------------------------------- percent decoding

  predicate IsHex(c: char) {
    '0' <= c <= '9' || 'a' <= c <= 'f' || 'A' <= c <= 'F'
  }

  function HexValue(c: char): (v: nat)
    requires IsHex(c)
    ensures v < 16
  {
    if '0' <= c <= '9' then c as int - '0' as int
    else if 'a' <= c <= 'f' then c as int - 'a' as int + 10
    else c as int - 'A' as int + 10
  }

  /** Does `s` begin with a complete escape? */
  predicate StartsEscape(s: string) {
    |s| >= 3 && s[0] == '%' && IsHex(s[1]) && IsHex(s[2])
  }

  /** Every '%' starts a complete escape. */
  predicate ValidEscapes(s: string) {
    if s == [] then true
    else if s[0] == '%' then StartsEscape(s) && ValidEscapes(s[3..])
    else ValidEscapes(s[1..])
  }

  /** Escapes become the octet they name; with `plus`, '+' becomes a space. */
  function Decode(s: string, plus: bool): string {
    if s == [] then []
    else if StartsEscape(s) then [(16 * HexValue(s[1]) + HexValue(s[2])) as char] + Decode(s[3..], plus)
    else [if plus && s[0] == '+' then ' ' else s[0]] + Decode(s[1..], plus)
  }

  lemma RewriteEscape(s: string)
    requires s != [] && s[0] == '%'
    ensures StartsEscape(Rewrite(s)) == StartsEscape(s)
    ensures StartsEscape(s) ==> Rewrite(s) == s[..3] + Rewrite(s[3..])
  {
    assert Rewrite(s) == ['%'] + Rewrite(s[1..]);
    if |s| >= 2 {
      assert Rewrite(s[1..]) == RewriteChar(s[1]) + Rewrite(s[1..][1..]);
      assert s[1..][1..] == s[2..];
      if |s| >= 3 {
        assert Rewrite(s[2..]) == RewriteChar(s[2]) + Rewrite(s[2..][1..]);
        assert s[2..][1..] == s[3..];
      }
    }
  }

  /** Valid escapes stay valid and broken escapes stay broken. */
  lemma {:induction false} RewriteKeepsValidity(s: string)
    ensures ValidEscapes(Rewrite(s)) == ValidEscapes(s)
    decreases |s|
  {
    if s == [] {
    } else if s[0] == '%' {
      RewriteEscape(s);
      if StartsEscape(s) {
        RewriteKeepsValidity(s[3..]);
        assert Rewrite(s)[3..] == Rewrite(s[3..]);
      }
    } else {
      RewriteKeepsValidity(s[1..]);
      if s[0] == '|' {
        assert Rewrite(s)[3..] == Rewrite(s[1..]);
      } else {
        assert Rewrite(s)[1..] == Rewrite(s[1..]);
      }
    }
  }

  /** The rewritten text decodes to what the original decodes to with '|' read literally. */
  lemma {:induction false} RewriteKeepsMeaning(s: string, plus: bool)
    ensures Decode(Rewrite(s), plus) == Decode(s, plus)
    decreases |s|
  {
    if s == [] {
    } else if StartsEscape(s) {
      RewriteEscape(s);
      RewriteKeepsMeaning(s[3..], plus);
      assert Rewrite(s)[3..] == Rewrite(s[3..]);
    } else {
      RewriteKeepsMeaning(s[1..], plus);
      if s[0] == '|' {
        var r := Rewrite(s);
        assert r[3..] == Rewrite(s[1..]);
        assert StartsEscape(r);
        assert (16 * HexValue('7') + HexValue('C')) as char == '|';
      } else {
        if s[0] == '%' { RewriteEscape(s); }
        assert Rewrite(s)[1..] == Rewrite(s[1..]);
      }
    }
  }

  /** A delimiter that the rewrite cannot create cuts the text at the same places before and after. */
  lemma {:induction false} RewriteKeepsSplit(s: string, d: char)
    requires d != '|' && d !in "%7C"
    ensures Split(Rewrite(s), d) == RewriteAll(Split(s, d))
  {
    if s != [] {
      RewriteKeepsSplit(s[1..], d);
      if s[0] == d {
        assert Rewrite(s)[1..] == Rewrite(s[1..]);
        RewriteAllCons([], Split(s[1..], d));
      } else {
        var rest := Split(s[1..], d);
        SplitPrefix(RewriteChar(s[0]), Rewrite(s[1..]), d);
        RewriteAllCons(rest[0], rest[1..]);
        RewriteAllCons([s[0]] + rest[0], rest[1..]);
        assert rest == [rest[0]] + rest[1..];
        assert ([s[0]] + rest[0])[1..] == rest[0];
      }
    }
  }

  // ---------------------------------------------------------------- origin-form

  /** What precedes the first `d`, and what follows it when there is one. */
  function CutAt(s: string, d: char): (string, Option<string>) {
    if s == [] then ([], None)
    else if s[0] == d then ([], Some(s[1..]))
    else
      var (head, tail) := CutAt(s[1..], d);
      ([s[0]] + head, tail)
  }

  function RewriteOption(s: Option<string>): Option<string> {
    match s case None => None case Some(v) => Some(Rewrite(v))
  }

  lemma {:induction false} CutPrefix(p: string, t: string, d: char)
    requires d !in p
    ensures CutAt(p + t, d) == (p + CutAt(t, d).0, CutAt(t, d).1)
  {
    if p == [] {
      assert p + t == t && p + CutAt(t, d).0 == CutAt(t, d).0;
    } else {
      assert (p + t)[1..] == p[1..] + t;
      CutPrefix(p[1..], t, d);
      assert [p[0]] + (p[1..] + CutAt(t, d).0) == p + CutAt(t, d).0;
    }
  }

  lemma {:induction false} RewriteKeepsCut(s: string, d: char)
    requires d != '|' && d !in "%7C"
    ensures CutAt(Rewrite(s), d) == (Rewrite(CutAt(s, d).0), RewriteOption(CutAt(s, d).1))
  {
    if s != [] {
      if s[0] == d {
        assert Rewrite(s)[1..] == Rewrite(s[1..]);
      } else {
        RewriteKeepsCut(s[1..], d);
        CutPrefix(RewriteChar(s[0]), Rewrite(s[1..]), d);
        assert ([s[0]] + CutAt(s[1..], d).0)[1..] == CutAt(s[1..], d).0;
      }
    }
  }

  /** Characters the grammar admits unescaped; `pipes` is the literal reading that also admits '|'. */
  predicate Legal(c: char, query: bool, pipes: bool) {
    || 'a' <= c <= 'z' || 'A' <= c <= 'Z' || '0' <= c <= '9'
    || c in "-._~!$&'()*+,;=:@/"
    || (query && c in "?[]")
    || (pipes && c == '|')
  }

  predicate AllLegal(s: string, query: bool, pipes: bool) {
    s == [] || ((s[0] == '%' || Legal(s[0], query, pipes)) && AllLegal(s[1..], query, pipes))
  }

  predicate ValidText(s: string, query: bool, pipes: bool) {
    ValidEscapes(s) && AllLegal(s, query, pipes)
  }

  lemma {:induction false} RewriteKeepsLegality(s: string, query: bool)
    ensures AllLegal(Rewrite(s), query, false) == AllLegal(s, query, true)
  {
    if s != [] {
      RewriteKeepsLegality(s[1..], query);
      var r := Rewrite(s);
      if s[0] == '|' {
        assert r[1..][1..][1..] == Rewrite(s[1..]);
        assert r[1..][0] == '7' && r[1..][1..][0] == 'C';
        assert AllLegal(r[1..][1..], query, false) == AllLegal(Rewrite(s[1..]), query, false);
      } else {
        assert r[1..] == Rewrite(s[1..]);
      }
    }
  }

  datatype ParsedUrl = ParsedUrl(
    segments: seq<string>,
    params: seq<(string, string)>,
    encodedParams: seq<(string, string)>)

  /** Path segments, decoded: "/" has none and a trailing '/' leaves an empty last one. */
  function Segments(path: string): seq<string> {
    if |path| <= 1 then [] else DecodeAll(Split(path[1..], '/'))
  }

  function DecodeAll(pieces: seq<string>): seq<string> {
    seq(|pieces|, k requires 0 <= k < |pieces| => Decode(pieces[k], false))
  }

  function EncodedParam(piece: string): (string, string) {
    var (key, value) := CutAt(piece, '=');
    (key, if value.Some? then value.value else "")
  }

  function DecodedParam(p: (string, string)): (string, string) {
    (Decode(p.0, true), Decode(p.1, true))
  }

  function EncodedParams(query: Option<string>): seq<(string, string)> {
    if query.None? then []
    else
      var pieces := Split(query.value, '&');
      seq(|pieces|, k requires 0 <= k < |pieces| => EncodedParam(pieces[k]))
  }

  function DecodedParams(params: seq<(string, string)>): seq<(string, string)> {
    seq(|params|, k requires 0 <= k < |params| => DecodedParam(params[k]))
  }

  /** An absolute path, optionally followed by '?' and a query. */
  function ParseOriginForm(target: string, pipes: bool): Option<ParsedUrl> {
    var (path, query) := CutAt(target, '?');
    if target == [] || target[0] != '/' then None
    else if !ValidText(path, false, pipes) then None
    else if query.Some? && !ValidText(query.value, true, pipes) then None
    else
      var encoded := EncodedParams(query);
      Some(ParsedUrl(Segments(path), DecodedParams(encoded), encoded))
  }

  function RewriteParam(p: (string, string)): (string, string) {
    (Rewrite(p.0), Rewrite(p.1))
  }

  lemma RewriteKeepsSegments(path: string)
    requires path != [] && path[0] == '/'
    ensures Segments(Rewrite(path)) == Segments(path)
  {
    assert Rewrite(path)[1..] == Rewrite(path[1..]);
    RewriteKeepsSplit(path[1..], '/');
    var pieces := Split(path[1..], '/');
    forall k | 0 <= k < |pieces|
      ensures Decode(RewriteAll(pieces)[k], false) == Decode(pieces[k], false)
    {
      RewriteKeepsMeaning(pieces[k], false);
    }
    RewriteRemovesPipes(path[1..]);
  }

  lemma RewriteKeepsParams(query: Option<string>)
    ensures |EncodedParams(RewriteOption(query))| == |EncodedParams(query)|
    ensures forall k :: 0 <= k < |EncodedParams(query)| ==>
        EncodedParams(RewriteOption(query))[k] == RewriteParam(EncodedParams(query)[k])
    ensures DecodedParams(EncodedParams(RewriteOption(query))) == DecodedParams(EncodedParams(query))
  {
    if query.Some? {
      RewriteKeepsSplit(query.value, '&');
      var pieces := Split(query.value, '&');
      forall k | 0 <= k < |pieces|
        ensures EncodedParam(Rewrite(pieces[k])) == RewriteParam(EncodedParam(pieces[k]))
        ensures DecodedParam(RewriteParam(EncodedParam(pieces[k]))) == DecodedParam(EncodedParam(pieces[k]))
      {
        RewriteKeepsCut(pieces[k], '=');
        RewriteKeepsMeaning(EncodedParam(pieces[k]).0, true);
        RewriteKeepsMeaning(EncodedParam(pieces[k]).1, true);
      }
    }
  }

  /**
   * Parsing the rewritten target succeeds exactly when the original would parse with '|' read
   * as an ordinary character, and yields the same segments and decoded parameters. Parameters
   * left encoded show the escape instead of the '|'.
   */
  lemma RewriteKeepsUrl(target: string)
    ensures ParseOriginForm(Rewrite(target), false).Some? <==> ParseOriginForm(target, true).Some?
    ensures ParseOriginForm(target, true).Some? ==>
        var before, after := ParseOriginForm(target, true).value, ParseOriginForm(Rewrite(target), false).value;
        && after.segments == before.segments
        && after.params == before.params
        && |after.encodedParams| == |before.encodedParams|
        && forall k :: 0 <= k < |before.encodedParams| ==>
             after.encodedParams[k] == RewriteParam(before.encodedParams[k])
  {
    var (path, query) := CutAt(target, '?');
    RewriteKeepsCut(target, '?');
    RewriteKeepsValidity(path);
    RewriteKeepsLegality(path, false);
    if query.Some? {
      RewriteKeepsValidity(query.value);
      RewriteKeepsLegality(query.value, true);
    }
    if target != [] && target[0] == '/' {
      RewriteKeepsSegments(path);
      RewriteKeepsParams(query);
    }
  }

  // ---------------------------------------------------------------- what the grammar admits

  /** At index `i` stands a character of the grammar, or a '%' followed by two hexadecimal digits. */
  predicate FitsAt(s: string, i: nat, query: bool, pipes: bool)
    requires i < |s|
  {
    if s[i] == '%' then i + 2 < |s| && IsHex(s[i + 1]) && IsHex(s[i + 2]) else Legal(s[i], query, pipes)
  }

  /** Text is valid exactly if every position fits. */
  lemma {:induction false} ValidTextIs(s: string, query: bool, pipes: bool)
    ensures ValidText(s, query, pipes) <==> forall i :: 0 <= i < |s| ==> FitsAt(s, i, query, pipes)
    decreases |s|
  {
    hide Legal, IsHex, ValidText;
    ValidTextFront(s, query, pipes);
    if s != [] && s[0] == '%' {
      assert FitsAt(s, 0, query, pipes) <==> StartsEscape(s);
      if StartsEscape(s) {
        ValidTextIs(s[3..], query, pipes);
        FitsBelow(s, 3, query, pipes);
        HexIsLegal(s[1], query, pipes);
        HexIsLegal(s[2], query, pipes);
      }
    } else if s != [] {
      ValidTextIs(s[1..], query, pipes);
      assert FitsAt(s, 0, query, pipes) <==> Legal(s[0], query, pipes);
      FitsBelow(s, 1, query, pipes);
    }
  }

  /** Validity, one character or one escape at a time. */
  lemma ValidTextFront(s: string, query: bool, pipes: bool)
    ensures s == [] ==> ValidText(s, query, pipes)
    ensures s != [] && s[0] == '%' ==>
        (ValidText(s, query, pipes) <==> StartsEscape(s) && ValidText(s[3..], query, pipes))
    ensures s != [] && s[0] != '%' ==>
        (ValidText(s, query, pipes) <==> Legal(s[0], query, pipes) && ValidText(s[1..], query, pipes))
  {
    hide Legal, IsHex;
    if StartsEscape(s) {
      HexIsLegal(s[1], query, pipes);
      HexIsLegal(s[2], query, pipes);
      assert s[1..][1..][1..] == s[3..] && s[1..][0] == s[1] && s[1..][1..][0] == s[2];
      assert AllLegal(s, query, pipes) == AllLegal(s[1..][1..], query, pipes) == AllLegal(s[3..], query, pipes);
    }
  }

  lemma HexIsLegal(c: char, query: bool, pipes: bool)
    requires IsHex(c)
    ensures Legal(c, query, pipes) && c != '%'
  {
  }

  /** Positions from `n` on fit in the whole text exactly if they fit in the rest. */
  lemma FitsBelow(s: string, n: nat, query: bool, pipes: bool)
    requires n <= |s|
    ensures (forall i :: n <= i < |s| ==> FitsAt(s, i, query, pipes))
        <==> (forall i :: 0 <= i < |s[n..]| ==> FitsAt(s[n..], i, query, pipes))
  {
    forall i | n <= i < |s| ensures FitsAt(s, i, query, pipes) <==> FitsAt(s[n..], i - n, query, pipes) {}
    assert forall i :: 0 <= i < |s[n..]| ==> (FitsAt(s, i + n, query, pipes) <==> FitsAt(s[n..], i, query, pipes));
  }

  /** ALPHA, DIGIT and the rest of the unreserved characters (section 2.3 of RFC 3986). */
  predicate Unreserved(c: char) {
    'A' <= c <= 'Z' || 'a' <= c <= 'z' || '0' <= c <= '9' || c in "-._~"
  }

  const SUB_DELIMS := "!$&'()*+,;="

  /** The characters of sections 3.3 and 3.4 of RFC 3986, with brackets admitted in queries. */
  lemma LegalIs(c: char, query: bool)
    ensures Legal(c, false, false) <==> Unreserved(c) || c in SUB_DELIMS || c in ":@" || c == '/'
    ensures Legal(c, true, false) <==> Legal(c, false, false) || c in "?[]"
    ensures Legal(c, query, true) <==> Legal(c, query, false) || c == '|'
  {
  }

  // ---------------------------------------------------------------- printing a target

  predicate Octets(s: string) {
    forall i :: 0 <= i < |s| ==> s[i] < 256 as char
  }

  /** A hexadecimal digit, in upper or lower case. */
  function HexDigit(v: nat, lower: bool): char
    requires v < 16
  {
    if lower then "0123456789abcdef"[v] else "0123456789ABCDEF"[v]
  }

  lemma HexDigitIs(v: nat, lower: bool)
    requires v < 16
    ensures IsHex(HexDigit(v, lower)) && HexValue(HexDigit(v, lower)) == v
  {
  }

  /** Every octet written as an escape. */
  function Escape(s: string, lower: bool): string
    requires Octets(s)
  {
    if s == [] then []
    else
      var v := s[0] as int;
      ['%', HexDigit(v / 16, lower), HexDigit(v % 16, lower)] + Escape(s[1..], lower)
  }

  /** Escapes in either case decode to the octets they were made from, and are valid everywhere. */
  lemma {:induction false} EscapeDecodes(s: string, lower: bool, plus: bool)
    requires Octets(s)
    ensures Decode(Escape(s, lower), plus) == s && ValidEscapes(Escape(s, lower))
    ensures forall i :: 0 <= i < |Escape(s, lower)| ==> Escape(s, lower)[i] == '%' || IsHex(Escape(s, lower)[i])
  {
    if s != [] {
      var v := s[0] as int;
      EscapeDecodes(s[1..], lower, plus);
      HexDigitIs(v / 16, lower);
      HexDigitIs(v % 16, lower);
      var e := Escape(s, lower);
      assert e[3..] == Escape(s[1..], lower);
      assert StartsEscape(e) && 16 * (v / 16) + v % 16 == v;
    }
  }

  /** Outside escapes characters stand for themselves, except '+' in parameters. */
  lemma DecodeOther(c: char, s: string, plus: bool)
    requires c != '%'
    ensures Decode([c] + s, plus) == (if plus && c == '+' then " " else [c]) + Decode(s, plus)
  {
    assert ([c] + s)[1..] == s;
  }

  /** A parameter is cut at its first '='; without one it is all key. */
  lemma EncodedParamIs(key: string, value: string)
    requires '=' !in key
    ensures EncodedParam(key + "=" + value) == (key, value) && EncodedParam(key) == (key, "")
  {
    assert key + "=" + value == key + ("=" + value) && ("=" + value)[1..] == value;
    CutPrefix(key, "=" + value, '=');
    CutPrefix(key, "", '=');
    assert key + "" == key && key + [] == key;
  }

  function EscapeAll(ss: seq<string>, lower: bool): (r: seq<string>)
    requires forall k :: 0 <= k < |ss| ==> Octets(ss[k])
    ensures |r| == |ss| && forall k :: 0 <= k < |ss| ==> r[k] == Escape(ss[k], lower)
  {
    seq(|ss|, k requires 0 <= k < |ss| => Escape(ss[k], lower))
  }

  predicate OctetPairs(params: seq<(string, string)>) {
    forall k :: 0 <= k < |params| ==> Octets(params[k].0) && Octets(params[k].1)
  }

  function EscapePairs(params: seq<(string, string)>, lower: bool): (r: seq<(string, string)>)
    requires OctetPairs(params)
    ensures |r| == |params|
    ensures forall k :: 0 <= k < |params| ==> r[k] == (Escape(params[k].0, lower), Escape(params[k].1, lower))
  {
    seq(|params|, k requires 0 <= k < |params| => (Escape(params[k].0, lower), Escape(params[k].1, lower)))
  }

  function PairTexts(pairs: seq<(string, string)>): (r: seq<string>)
    ensures |r| == |pairs| && forall k :: 0 <= k < |r| ==> r[k] == pairs[k].0 + "=" + pairs[k].1
  {
    seq(|pairs|, k requires 0 <= k < |pairs| => pairs[k].0 + "=" + pairs[k].1)
  }

  lemma {:induction false} ValidAppend(a: string, b: string, query: bool, pipes: bool)
    requires ValidText(a, query, pipes) && ValidText(b, query, pipes)
    ensures ValidText(a + b, query, pipes)
  {
    ValidTextIs(a, query, pipes);
    ValidTextIs(b, query, pipes);
    var s := a + b;
    forall i | 0 <= i < |s| ensures FitsAt(s, i, query, pipes) {
      assert if i < |a| then FitsAt(a, i, query, pipes) else FitsAt(b, i - |a|, query, pipes);
    }
    ValidTextIs(s, query, pipes);
  }

  lemma {:induction false} ValidJoin(pieces: seq<string>, d: char, query: bool, pipes: bool)
    requires |pieces| >= 1 && Legal(d, query, pipes) && d != '%'
    requires forall k :: 0 <= k < |pieces| ==> ValidText(pieces[k], query, pipes)
    ensures ValidText(Join(pieces, d), query, pipes)
  {
    hide ValidText;
    if |pieces| > 1 {
      ValidJoin(pieces[1..], d, query, pipes);
      OneIsValid(d, query, pipes);
      ValidAppend(pieces[0], [d], query, pipes);
      ValidAppend(pieces[0] + [d], Join(pieces[1..], d), query, pipes);
    }
  }

  lemma OneIsValid(c: char, query: bool, pipes: bool)
    requires Legal(c, query, pipes) && c != '%'
    ensures ValidText([c], query, pipes)
  {
    ValidTextIs([c], query, pipes);
  }

  /** Escaped text is valid and holds none of the delimiters. */
  lemma EscapeIsInert(s: string, lower: bool, query: bool)
    requires Octets(s)
    ensures ValidText(Escape(s, lower), query, false)
    ensures forall d :: d in "/?&=" ==> d !in Escape(s, lower)
  {
    EscapeDecodes(s, lower, false);
    var e := Escape(s, lower);
    ValidEscapesFit(e, query);
  }

  lemma {:induction false} ValidEscapesFit(e: string, query: bool)
    requires ValidEscapes(e) && forall i :: 0 <= i < |e| ==> e[i] == '%' || IsHex(e[i])
    ensures ValidText(e, query, false)
  {
    if e != [] && e[0] == '%' {
      ValidEscapesFit(e[3..], query);
      ValidAppend(e[..3], e[3..], query, false) by {
        ValidTextIs(e[..3], query, false);
      }
      assert e == e[..3] + e[3..];
    } else if e != [] {
      ValidEscapesFit(e[1..], query);
    }
  }

  /** The text of a path and of a query. */
  function PathText(segments: seq<string>, lower: bool): string
    requires segments != [] && forall k :: 0 <= k < |segments| ==> Octets(segments[k])
  {
    "/" + Join(EscapeAll(segments, lower), '/')
  }

  function QueryText(params: seq<(string, string)>, lower: bool): string
    requires params != [] && OctetPairs(params)
  {
    Join(PairTexts(EscapePairs(params, lower)), '&')
  }

  lemma PathParses(segments: seq<string>, lower: bool)
    requires segments != [] && segments != [""] && forall k :: 0 <= k < |segments| ==> Octets(segments[k])
    ensures
      var path := PathText(segments, lower);
      ValidText(path, false, false) && '?' !in path && Segments(path) == segments
  {
    hide ValidText, Decode, Escape;
    var pieces := EscapeAll(segments, lower);
    forall k | 0 <= k < |segments|
      ensures ValidText(pieces[k], false, false) && '/' !in pieces[k] && '?' !in pieces[k]
      ensures Decode(pieces[k], false) == segments[k]
    {
      EscapeIsInert(segments[k], lower, false);
      EscapeDecodes(segments[k], lower, false);
    }
    var path := PathText(segments, lower);
    JoinSplit(pieces, '/');
    JoinLacks(pieces, '/', '?');
    ValidJoin(pieces, '/', false, false);
    OneIsValid('/', false, false);
    ValidAppend("/", Join(pieces, '/'), false, false);
    assert path[1..] == Join(pieces, '/');
    if |path| <= 1 {
      assert Join(pieces, '/') == "" && Split("", '/') == [""];
      assert pieces == [""] && Decode("", false) == segments[0];
      EmptyDecodes();
    }
    assert Segments(path) == segments;
  }

  lemma EmptyDecodes()
    ensures Decode("", false) == ""
  {
  }

  lemma PairIsInert(p: (string, string), lower: bool)
    requires Octets(p.0) && Octets(p.1)
    ensures
      var q := (Escape(p.0, lower), Escape(p.1, lower));
      var text := q.0 + "=" + q.1;
      ValidText(text, true, false) && '&' !in text && EncodedParam(text) == q && DecodedParam(q) == p
  {
    hide ValidText, Decode, Escape, EncodedParam;
    var q := (Escape(p.0, lower), Escape(p.1, lower));
    EscapeIsInert(p.0, lower, true);
    EscapeIsInert(p.1, lower, true);
    EscapeDecodes(p.0, lower, true);
    EscapeDecodes(p.1, lower, true);
    EncodedParamIs(q.0, q.1);
    OneIsValid('=', true, false);
    ValidAppend(q.0, "=", true, false);
    ValidAppend(q.0 + "=", q.1, true, false);
  }

  lemma QueryParses(params: seq<(string, string)>, lower: bool)
    requires params != [] && OctetPairs(params)
    ensures
      var query := QueryText(params, lower);
      var encoded := EncodedParams(Some(query));
      ValidText(query, true, false) && encoded == EscapePairs(params, lower) && DecodedParams(encoded) == params
  {
    hide ValidText, Escape, EncodedParam, DecodedParam;
    var pairs := EscapePairs(params, lower);
    var texts := PairTexts(pairs);
    forall k | 0 <= k < |params|
      ensures ValidText(texts[k], true, false) && '&' !in texts[k]
      ensures EncodedParam(texts[k]) == pairs[k] && DecodedParam(pairs[k]) == params[k]
    {
      PairIsInert(params[k], lower);
    }
    JoinSplit(texts, '&');
    ValidJoin(texts, '&', true, false);
    assert EncodedParams(Some(QueryText(params, lower))) == pairs;
  }

  /**
   * Printing a path and a query and parsing the target recovers both, whatever octets they hold and
   * whichever case the escapes are written in.
   */
  lemma TargetRoundTrip(segments: seq<string>, params: seq<(string, string)>, lower: bool)
    requires segments != [] && segments != [""] && forall k :: 0 <= k < |segments| ==> Octets(segments[k])
    requires params != [] && OctetPairs(params)
    ensures ParseOriginForm(PathText(segments, lower) + "?" + QueryText(params, lower), false)
        == Some(ParsedUrl(segments, params, EscapePairs(params, lower)))
    ensures ParseOriginForm(PathText(segments, lower), false) == Some(ParsedUrl(segments, [], []))
  {
    hide ValidText, EncodedParams, DecodedParams, Segments, PathText, QueryText;
    var path, query := PathText(segments, lower), QueryText(params, lower);
    PathParses(segments, lower);
    QueryParses(params, lower);
    var target := path + "?" + query;
    assert target == path + ("?" + query) && ("?" + query)[1..] == query;
    CutPrefix(path, "?" + query, '?');
    CutPrefix(path, "", '?');
    assert path + "" == path && path + [] == path;
    PathBegins(segments, lower);
    NoParams();
  }

  lemma PathBegins(segments: seq<string>, lower: bool)
    requires segments != [] && forall k :: 0 <= k < |segments| ==> Octets(segments[k])
    ensures PathText(segments, lower) != [] && PathText(segments, lower)[0] == '/'
  {
  }

  lemma NoParams()
    ensures EncodedParams(None) == [] && DecodedParams([]) == []
  {
  }

  predicate Fits(s: string, query: bool, pipes: bool) {
    forall i :: 0 <= i < |s| ==> FitsAt(s, i, query, pipes)
  }

  /** What parses: an absolute path, alone or with a query, in which every position fits. */
  lemma ParsesExactlyWhen(path: string, query: string, pipes: bool)
    requires '?' !in path
    ensures ParseOriginForm(path, pipes).Some? <==> path != "" && path[0] == '/' && Fits(path, false, pipes)
    ensures ParseOriginForm(path + "?" + query, pipes).Some? <==>
        path != "" && path[0] == '/' && Fits(path, false, pipes) && Fits(query, true, pipes)
  {
    hide ValidText, Segments, EncodedParams, DecodedParams, FitsAt;
    assert path + "?" + query == path + ("?" + query) && ("?" + query)[1..] == query;
    CutPrefix(path, "?" + query, '?');
    CutPrefix(path, "", '?');
    assert path + "" == path && path + [] == path;
    ValidTextIs(path, false, pipes);
    ValidTextIs(query, true, pipes);
  }

  /** Without the rewrite a '|' anywhere makes a target invalid. */
  lemma PipeIsRefused(target: string)
    requires '|' in target
    ensures ParseOriginForm(target, false) == None
  {
    var (path, query) := CutAt(target, '?');
    CutKeeps(target, '?', '|');
    ValidTextIs(path, false, false);
    if '|' in path {
      var i :| 0 <= i < |path| && path[i] == '|';
      assert !FitsAt(path, i, false, false);
    } else {
      ValidTextIs(query.value, true, false);
      var i :| 0 <= i < |query.value| && query.value[i] == '|';
      assert !FitsAt(query.value, i, true, false);
    }
  }

  lemma {:induction false} CutKeeps(s: string, d: char, c: char)
    requires c in s && c != d
    ensures c in CutAt(s, d).0 || (CutAt(s, d).1.Some? && c in CutAt(s, d).1.value)
  {
    if s[0] != c && s[0] != d {
      CutKeeps(s[1..], d, c);
    }
  }
}
