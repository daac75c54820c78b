/** Character and string helpers shared by the models of the URL, message and session code. */
module Text {

  datatype Option<+T> = None | Some(value: T)

  /** ASCII case folding of one character. */
  function LowerChar(c: char): char {
    if 'A' <= c <= 'Z' then (c as int + 32) as char else c
  }

  /** ASCII case folding: HTTP field names and tokens compare equal up to case. */
  function Lower(s: string): (r: string)
    ensures |r| == |s|
  {
    seq(|s|, i requires 0 <= i < |s| => LowerChar(s[i]))
  }

  /** Does `part` occur in `s` as a contiguous substring? */
  predicate Contains(s: string, part: string) {
    part <= s || (s != [] && Contains(s[1..], part))
  }

  /** Cuts `s` at every occurrence of `d`; the result always has at least one piece. */
  function Split(s: string, d: char): (pieces: seq<string>)
    ensures |pieces| >= 1
  {
    if s == [] then [[]]
    else
      var rest := Split(s[1..], d);
      if s[0] == d then [[]] + rest else [[s[0]] + rest[0]] + rest[1..]
  }

  /** Puts pieces back together with `d` between them. */
  function Join(pieces: seq<string>, d: char): string
    requires |pieces| >= 1
  {
    if |pieces| == 1 then pieces[0] else pieces[0] + [d] + Join(pieces[1..], d)
  }

  /** Splitting loses nothing, and no piece holds the delimiter. */
  lemma {:induction false} SplitJoin(s: string, d: char)
    ensures Join(Split(s, d), d) == s
    ensures forall k :: 0 <= k < |Split(s, d)| ==> d !in Split(s, d)[k]
  {
    if s != [] {
      SplitJoin(s[1..], d);
      var rest := Split(s[1..], d);
      if s[0] == d {
        assert ([[]] + rest)[1..] == rest;
        assert Join(Split(s, d), d) == [] + [d] + Join(rest, d);
      } else {
        var all := [[s[0]] + rest[0]] + rest[1..];
        assert all[1..] == rest[1..];
        if |rest| > 1 {
          assert Join(all, d) == [s[0]] + (rest[0] + [d] + Join(rest[1..], d));
        }
      }
    }
  }

  lemma {:induction false} SplitWhole(s: string, d: char)
    requires d !in s
    ensures Split(s, d) == [s]
  {
    if s != [] {
      SplitWhole(s[1..], d);
      assert [s[0]] + s[1..] == s;
    }
  }

  lemma {:induction false} JoinLacks(pieces: seq<string>, d: char, c: char)
    requires |pieces| >= 1 && c != d && forall k :: 0 <= k < |pieces| ==> c !in pieces[k]
    ensures c !in Join(pieces, d)
  {
    if |pieces| > 1 {
      JoinLacks(pieces[1..], d, c);
    }
  }

  /** Text without the delimiter in front lengthens the first piece only. */
  lemma {:induction false} SplitPrefix(s: string, t: string, d: char)
    requires d !in s
    ensures Split(s + t, d) == [s + Split(t, d)[0]] + Split(t, d)[1..]
  {
    if s == [] {
      assert s + t == t && s + Split(t, d)[0] == Split(t, d)[0];
    } else {
      assert (s + t)[1..] == s[1..] + t;
      SplitPrefix(s[1..], t, d);
      assert [s[0]] + (s[1..] + Split(t, d)[0]) == s + Split(t, d)[0];
    }
  }

  /** Joining loses nothing either, as long as no piece holds the delimiter. */
  lemma {:induction false} JoinSplit(pieces: seq<string>, d: char)
    requires |pieces| >= 1 && forall k :: 0 <= k < |pieces| ==> d !in pieces[k]
    ensures Split(Join(pieces, d), d) == pieces
  {
    if |pieces| == 1 {
      SplitWhole(pieces[0], d);
    } else {
      var rest := Join(pieces[1..], d);
      JoinSplit(pieces[1..], d);
      assert ([d] + rest)[1..] == rest;
      SplitPrefix(pieces[0], [d] + rest, d);
      assert pieces[0] + [d] + rest == pieces[0] + ([d] + rest);
      assert Split([d] + rest, d) == [[]] + pieces[1..];
      assert pieces[0] + [] == pieces[0];
    }
  }

  /** Blanks around a list element are not part of it. */
  function TrimLeft(s: string): string {
    if s != [] && (s[0] == ' ' || s[0] == '\t') then TrimLeft(s[1..]) else s
  }

  function Trim(s: string): string {
    TrimRight(TrimLeft(s))
  }

  function TrimRight(s: string): string {
    if s != [] && (s[|s| - 1] == ' ' || s[|s| - 1] == '\t') then TrimRight(s[..|s| - 1]) else s
  }

  /** Is `token` one of the elements of the comma-separated list `value`, up to case? */
  predicate HasToken(value: string, token: string) {
    exists k :: 0 <= k < |Split(value, ',')| && Lower(Trim(Split(value, ',')[k])) == token
  }

  /** Decimal notation of a natural number. */
  function Decimal(n: nat): (s: string)
    ensures |s| >= 1
  {
    var digit := ['0' + (n % 10) as char];
    if n < 10 then digit else Decimal(n / 10) + digit
  }

  // ---------------------------------------------------------------- what these helpers compute

  /** Letters are folded to lower case and nothing else changes. */
  lemma LowerIs(s: string, i: nat)
    requires i < |s|
    ensures 'A' <= s[i] <= 'Z' ==> Lower(s)[i] as int == s[i] as int + ('a' as int - 'A' as int)
    ensures !('A' <= s[i] <= 'Z') ==> Lower(s)[i] == s[i]
  {
  }

  /** `part` stands in `s` from index `k` on. */
  predicate OccursAt(s: string, part: string, k: nat) {
    k + |part| <= |s| && s[k..k + |part|] == part
  }

  lemma {:induction false} ContainsIs(s: string, part: string)
    ensures Contains(s, part) <==> exists k: nat :: OccursAt(s, part, k)
  {
    if part <= s {
      assert OccursAt(s, part, 0);
    } else if s != [] {
      ContainsIs(s[1..], part);
      assert !OccursAt(s, part, 0);
      forall k: nat | k > 0 ensures OccursAt(s, part, k) <==> OccursAt(s[1..], part, k - 1) {
        if k + |part| <= |s| { assert s[1..][k - 1..k - 1 + |part|] == s[k..k + |part|]; }
      }
      if Contains(s[1..], part) {
        var k: nat :| OccursAt(s[1..], part, k);
        assert OccursAt(s, part, k + 1);
      }
    } else {
      forall k: nat ensures !OccursAt(s, part, k) {}
    }
  }

  predicate IsBlank(c: char) { c == ' ' || c == '\t' }

  predicate Blanks(s: string) {
    forall i :: 0 <= i < |s| ==> IsBlank(s[i])
  }

  /** A word neither begins nor ends with a blank. */
  predicate IsWord(s: string) {
    s == [] || (!IsBlank(s[0]) && !IsBlank(s[|s| - 1]))
  }

  lemma {:induction false} TrimLeftIs(left: string, s: string)
    requires Blanks(left) && (s == [] || !IsBlank(s[0]))
    ensures TrimLeft(left + s) == s
  {
    if left == [] {
      assert left + s == s;
    } else {
      assert (left + s)[1..] == left[1..] + s;
      TrimLeftIs(left[1..], s);
    }
  }

  lemma {:induction false} TrimRightIs(s: string, right: string)
    requires Blanks(right) && (s == [] || !IsBlank(s[|s| - 1]))
    ensures TrimRight(s + right) == s
    decreases |right|
  {
    if right == [] {
      assert s + right == s;
    } else {
      var n := |right| - 1;
      assert (s + right)[..|s| + n] == s + right[..n];
      TrimRightIs(s, right[..n]);
    }
  }

  /** Trimming removes exactly the blanks around a word. */
  lemma TrimIs(left: string, word: string, right: string)
    requires Blanks(left) && IsWord(word) && Blanks(right)
    ensures Trim(left + word + right) == word
  {
    if word == [] {
      assert left + word + right == (left + right) + [];
      TrimLeftIs(left + right, []);
    } else {
      assert left + word + right == left + (word + right);
      TrimLeftIs(left, word + right);
      TrimRightIs(word, right);
    }
  }

  lemma {:induction false} TrimLeftSplits(s: string) returns (left: string)
    ensures Blanks(left) && s == left + TrimLeft(s) && (TrimLeft(s) == [] || !IsBlank(TrimLeft(s)[0]))
  {
    if s != [] && IsBlank(s[0]) {
      var rest := TrimLeftSplits(s[1..]);
      left := [s[0]] + rest;
      assert left + TrimLeft(s) == [s[0]] + (rest + TrimLeft(s[1..])) == s;
    } else {
      left := [];
    }
  }

  lemma {:induction false} TrimRightSplits(s: string) returns (right: string)
    ensures Blanks(right) && s == TrimRight(s) + right
    ensures TrimRight(s) == [] || !IsBlank(TrimRight(s)[|TrimRight(s)| - 1])
    decreases |s|
  {
    if s != [] && IsBlank(s[|s| - 1]) {
      right := TrimRightSplits(s[..|s| - 1]);
      right := right + [s[|s| - 1]];
    } else {
      right := [];
    }
  }

  /** `word` is an element of a comma-separated list, up to the blanks around it. */
  ghost predicate IsElement(value: string, word: string) {
    exists pieces: seq<string>, k: nat, left, right :: ElementOf(value, pieces, k, left, word, right)
  }

  predicate ElementOf(value: string, pieces: seq<string>, k: nat, left: string, word: string, right: string) {
    && k < |pieces| && Join(pieces, ',') == value && (forall j :: 0 <= j < |pieces| ==> ',' !in pieces[j])
    && pieces[k] == left + word + right && Blanks(left) && IsWord(word) && Blanks(right)
  }

  /** The tokens of a list are its elements, up to case. */
  lemma HasTokenIs(value: string, token: string)
    ensures HasToken(value, token) <==> exists word :: IsElement(value, word) && Lower(word) == token
  {
    if HasToken(value, token) {
      var k :| 0 <= k < |Split(value, ',')| && Lower(Trim(Split(value, ',')[k])) == token;
      ElementHasBlanks(value, k);
    }
    forall word | IsElement(value, word) && Lower(word) == token
      ensures HasToken(value, token)
    {
      var pieces, k: nat, left, right :| ElementOf(value, pieces, k, left, word, right);
      JoinSplit(pieces, ',');
      TrimIs(left, word, right);
      assert Lower(Trim(Split(value, ',')[k])) == token;
    }
  }

  lemma ElementHasBlanks(value: string, k: nat)
    requires k < |Split(value, ',')|
    ensures IsElement(value, Trim(Split(value, ',')[k]))
  {
    var piece := Split(value, ',')[k];
    SplitJoin(value, ',');
    var left := TrimLeftSplits(piece);
    var right := TrimRightSplits(TrimLeft(piece));
    assert piece == left + (Trim(piece) + right) == left + Trim(piece) + right;
    assert Trim(piece) != [] ==> Trim(piece)[0] == TrimLeft(piece)[0];
    assert ElementOf(value, Split(value, ','), k, left, Trim(piece), right);
  }

  predicate IsDigit(c: char) { '0' <= c <= '9' }

  /** The number that a string of digits denotes, most significant digit first. */
  function Number(s: string): nat
    requires forall i :: 0 <= i < |s| ==> IsDigit(s[i])
  {
    if s == [] then 0
    else
      assert IsDigit(s[|s| - 1]);
      10 * Number(s[..|s| - 1]) + (s[|s| - 1] as int - '0' as int)
  }

  /** Decimal notation denotes its number, in digits and without a leading zero. */
  lemma {:induction false} DecimalIs(n: nat)
    ensures forall i :: 0 <= i < |Decimal(n)| ==> IsDigit(Decimal(n)[i])
    ensures Number(Decimal(n)) == n
    ensures Decimal(n)[0] == '0' ==> n == 0 && Decimal(n) == "0"
  {
    var digit := '0' + (n % 10) as char;
    if n >= 10 {
      DecimalIs(n / 10);
      assert Decimal(n)[..|Decimal(n)| - 1] == Decimal(n / 10);
    } else {
      assert Decimal(n) == [digit] && [digit][..0] == [];
    }
  }
}
