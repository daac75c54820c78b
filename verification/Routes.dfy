/**
 * What the path router means, independently of how it stores anything: a map from normalised
 * segment lists to handlers, and the answer a query gets from that map.
 */
module Routes {
  import opened Text
  import Url

  type Key = seq<string>

  /** A path is read up to its first empty segment. */
  function Normal(segments: seq<string>): (key: Key)
    ensures key <= segments
    ensures |key| < |segments| ==> segments[|key|] == ""
    ensures forall k :: 0 <= k < |key| ==> key[k] != ""
  {
    if segments == [] || segments[0] == "" then []
    else
      var rest := Normal(segments[1..]);
      [segments[0]] + rest
  }

  function Get<T>(routes: map<Key, T>, key: Key): Option<T> {
    if key in routes then Some(routes[key]) else None
  }

  /** Some registered path goes through `key`. */
  ghost predicate Known<T>(routes: map<Key, T>, key: Key) {
    exists r :: r in routes && key <= r
  }

  /** How far into `query` the registered paths reach. */
  ghost function Depth<T>(routes: map<Key, T>, query: Key, limit: nat): (d: nat)
    requires limit <= |query|
    ensures d <= limit
    ensures d == 0 || Known(routes, query[..d])
    ensures forall k :: d < k <= limit ==> !Known(routes, query[..k])
  {
    if limit == 0 || Known(routes, query[..limit]) then limit else Depth(routes, query, limit - 1)
  }

  /** The answer to a query: the handler, if any, at the deepest point the registered paths reach. */
  ghost function Lookup<T>(routes: map<Key, T>, segments: seq<string>): Option<T> {
    var query := Normal(segments);
    var d := Depth(routes, query, |query|);
    if segments == [] then Get(routes, [])
    else if d == 0 then None
    else Get(routes, query[..d])
  }

  /** Among the first `limit` segments, the registered prefix of length `k` is the longest one. */
  ghost predicate IsLongest<T>(routes: map<Key, T>, query: Key, limit: nat, k: nat)
    requires k <= limit <= |query|
  {
    query[..k] in routes && forall j :: k < j <= limit ==> query[..j] !in routes
  }

  /** The longest registered nonempty prefix. */
  ghost function Longest<T>(routes: map<Key, T>, query: Key, limit: nat): (answer: Option<T>)
    requires limit <= |query|
    ensures answer.None? <==> forall k :: 0 < k <= limit ==> query[..k] !in routes
    ensures answer.Some? ==>
        exists k :: 0 < k <= limit && IsLongest(routes, query, limit, k) && answer.value == routes[query[..k]]
  {
    if limit == 0 then None
    else if query[..limit] in routes then
      assert IsLongest(routes, query, limit, limit);
      Some(routes[query[..limit]])
    else
      var shorter := Longest(routes, query, limit - 1);
      assert forall k :: 0 < k <= limit - 1 && IsLongest(routes, query, limit - 1, k) ==>
          IsLongest(routes, query, limit, k);
      shorter
  }

  /** The documented rule in full: the longest registered prefix, where "/" is a prefix of every path. */
  ghost function LongestOrRoot<T>(routes: map<Key, T>, query: Key): (answer: Option<T>)
    ensures answer.None? <==> forall k :: 0 <= k <= |query| ==> query[..k] !in routes
    ensures answer.Some? ==>
        exists k :: 0 <= k <= |query| && IsLongest(routes, query, |query|, k) && answer.value == routes[query[..k]]
  {
    var answer := Longest(routes, query, |query|);
    assert query[..0] == [];
    assert answer.None? && [] in routes ==> IsLongest(routes, query, |query|, 0);
    if answer.Some? then answer else Get(routes, [])
  }

  /** A depth is fixed by its two defining facts. */
  lemma DepthIs<T>(routes: map<Key, T>, query: Key, limit: nat, d: nat)
    requires d <= limit <= |query|
    requires d == 0 || Known(routes, query[..d])
    requires forall k :: d < k <= limit ==> !Known(routes, query[..k])
    ensures Depth(routes, query, limit) == d
  {
  }

  /** Below the depth every longer reference search gives the same answer. */
  lemma {:induction false} LongestBelowDepth<T>(routes: map<Key, T>, query: Key, d: nat, limit: nat)
    requires d <= limit <= |query|
    requires forall k :: d < k <= limit ==> !Known(routes, query[..k])
    ensures Longest(routes, query, limit) == Longest(routes, query, d)
    decreases limit
  {
    if d < limit {
      assert !Known(routes, query[..limit]);
      assert query[..limit] !in routes;
      LongestBelowDepth(routes, query, d, limit - 1);
    }
  }

  /**
   * When the answer is the documented longest match: exactly when the deepest point reached holds
   * a handler, or nothing shorter does either.
   */
  lemma LookupIsLongest<T>(routes: map<Key, T>, segments: seq<string>)
    requires segments != []
    ensures
      var query := Normal(segments);
      var d := Depth(routes, query, |query|);
      Lookup(routes, segments) == Longest(routes, query, |query|)
      <==> (query[..d] in routes || forall k :: 0 < k < d ==> query[..k] !in routes)
  {
    var query := Normal(segments);
    var d := Depth(routes, query, |query|);
    LongestBelowDepth(routes, query, d, |query|);
  }

  /**
   * When the answer is the longest match with "/" counted as a prefix of everything: exactly when
   * the query is "/" itself, or the deepest point reached below the root holds a handler, or no
   * point on the way there holds one, the root included.
   */
  lemma LookupIsLongestOrRoot<T>(routes: map<Key, T>, segments: seq<string>)
    ensures
      var query := Normal(segments);
      var d := Depth(routes, query, |query|);
      Lookup(routes, segments) == LongestOrRoot(routes, query)
      <==>
      || segments == []
      || (d > 0 && query[..d] in routes)
      || forall k :: 0 <= k < d || k == 0 ==> query[..k] !in routes
  {
    var query := Normal(segments);
    var d := Depth(routes, query, |query|);
    LongestBelowDepth(routes, query, d, |query|);
    assert query[..0] == [];
  }

  ghost predicate PrefixClosed<T>(routes: map<Key, T>) {
    forall r, k :: r in routes && 0 < k <= |r| ==> r[..k] in routes
  }

  /**
   * If every interior point has a handler the longest nonempty match is found for all queries, and
   * the documented rule in full holds of all those that do not fall through to a registered "/".
   */
  lemma PrefixClosedIsLongest<T>(routes: map<Key, T>, segments: seq<string>)
    requires PrefixClosed(routes) && segments != []
    ensures Lookup(routes, segments) == Longest(routes, Normal(segments), |Normal(segments)|)
    ensures
      Lookup(routes, segments) == LongestOrRoot(routes, Normal(segments))
      <==> [] !in routes || exists k :: 0 < k <= |Normal(segments)| && Normal(segments)[..k] in routes
  {
    var query := Normal(segments);
    var d := Depth(routes, query, |query|);
    if d > 0 {
      var r :| r in routes && query[..d] <= r;
      assert query[..d] == r[..d];
    }
    LookupIsLongest(routes, segments);
  }

  /** The two paths agree on their first `n` segments. */
  predicate Agree(p: Key, q: Key, n: nat) {
    n <= |p| && n <= |q| && p[..n] == q[..n]
  }

  lemma PrefixAgrees(p: Key, q: Key, n: nat)
    requires n <= |q|
    ensures q[..n] <= p ==> Agree(p, q, n)
  {
    if q[..n] <= p { assert q[..n] == p[..n]; }
  }

  lemma KnownAfterInsert<T>(routes: map<Key, T>, p: Key, v: T, key: Key)
    ensures Known(routes[p := v], key) <==> Known(routes, key) || key <= p
  {
    var after := routes[p := v];
    if key <= p { assert p in after; }
    if Known(routes, key) {
      var r :| r in routes && key <= r;
      assert r in after;
    }
    if Known(after, key) && !(key <= p) {
      var r :| r in after && key <= r;
      assert r in routes;
    }
  }

  /**
   * Registering `p` can change an answer only by reaching deeper into the query than before,
   * or by replacing the handler at the very point that answered it.
   */
  lemma InsertLocality<T>(routes: map<Key, T>, p: Key, v: T, segments: seq<string>)
    ensures
      var query := Normal(segments);
      var d := Depth(routes, query, |query|);
      Lookup(routes[p := v], segments) != Lookup(routes, segments)
      ==> query[..d] == p || exists n :: d < n && Agree(p, query, n)
  {
    var query := Normal(segments);
    var d := Depth(routes, query, |query|);
    var after := routes[p := v];
    if query[..d] != p && !exists n :: d < n && Agree(p, query, n) {
      forall k | d < k <= |query|
        ensures !Known(after, query[..k])
      {
        KnownAfterInsert(routes, p, v, query[..k]);
        PrefixAgrees(p, query, k);
      }
      if d > 0 { KnownAfterInsert(routes, p, v, query[..d]); }
      DepthIs(after, query, |query|, d);
      if segments == [] { assert query[..d] == []; }
    }
  }

  // ---------------------------------------------------------------- registration

  datatype InsertError = NullData | NoLeadingSlash | DotDot | BadPath
  datatype Checked = Accept(key: Key) | Refuse(error: InsertError)


  /** What registration demands of its arguments, in the order it looks at them. */
  function Check<T>(path: string, data: Option<T>): Checked {
    if data.None? then Refuse(NullData)
    else if path == [] || path[0] != '/' then Refuse(NoLeadingSlash)
    else if Contains(path, "..") then Refuse(DotDot)
    else if !Url.ValidText(path, false, false) then Refuse(BadPath)
    else Accept(Normal(Url.Segments(path)))
  }

  /** Each error is given exactly when its condition is the first to hold. */
  lemma CheckIs<T>(path: string, data: Option<T>)
    ensures
      var noSlash := path == "" || path[0] != '/';
      var dots := exists k: nat :: OccursAt(path, "..", k);
      var bad := exists i :: 0 <= i < |path| && !Url.FitsAt(path, i, false, false);
      match Check(path, data)
      case Refuse(NullData) => data == None
      case Refuse(NoLeadingSlash) => data != None && noSlash
      case Refuse(DotDot) => data != None && !noSlash && dots
      case Refuse(BadPath) => data != None && !noSlash && !dots && bad
      case Accept(key) => data != None && !noSlash && !dots && !bad && key == Normal(Url.Segments(path))
  {
    ContainsIs(path, "..");
    Url.ValidTextIs(path, false, false);
  }

  datatype Registration<T> = Registration(path: string, data: Option<T>)

  /** What one registration does to the map. */
  function Register<T>(routes: map<Key, T>, op: Registration<T>): map<Key, T> {
    match Check(op.path, op.data)
    case Refuse(_) => routes
    case Accept(key) => routes[key := op.data.value]
  }

  /** All registrations in order; refused ones change nothing. */
  function RegisterAll<T>(ops: seq<Registration<T>>): map<Key, T> {
    if ops == [] then map[]
    else Register(RegisterAll(ops[..|ops| - 1]), ops[|ops| - 1])
  }

  /** The operation is accepted and registers under `key`. */
  predicate Hits<T>(op: Registration<T>, key: Key) {
    Check(op.path, op.data) == Accept(key)
  }

  /** Operation `i` is the last one accepted for `key`. */
  ghost predicate LastFor<T>(ops: seq<Registration<T>>, key: Key, i: nat) {
    i < |ops| && Hits(ops[i], key) && forall j :: i < j < |ops| ==> !Hits(ops[j], key)
  }

  lemma LastForFront<T>(ops: seq<Registration<T>>, last: Registration<T>, key: Key, i: nat)
    requires !Hits(last, key)
    ensures LastFor(ops + [last], key, i) <==> LastFor(ops, key, i)
  {
    var longer := ops + [last];
    assert forall j :: 0 <= j < |ops| ==> longer[j] == ops[j];
    assert longer[|ops|] == last;
  }

  /** The last accepted registration of a path wins, and nothing else is ever in the map. */
  lemma {:induction false} LastRegistrationWins<T>(ops: seq<Registration<T>>, key: Key)
    ensures key in RegisterAll(ops) ==> exists i: nat :: LastFor(ops, key, i)
    ensures forall i: nat :: LastFor(ops, key, i) ==>
        key in RegisterAll(ops) && ops[i].data == Some(RegisterAll(ops)[key])
  {
    if ops != [] {
      var n := |ops| - 1;
      var front, last := ops[..n], ops[n];
      assert ops == front + [last];
      LastRegistrationWins(front, key);
      if Hits(last, key) {
        assert LastFor(ops, key, n);
      } else {
        forall i: nat ensures LastFor(ops, key, i) <==> LastFor(front, key, i) {
          LastForFront(front, last, key, i);
        }
        if key in RegisterAll(front) {
          var i: nat :| LastFor(front, key, i);
          assert LastFor(ops, key, i);
        }
      }
    }
  }

  /** Registrations of different paths can be exchanged, wherever they stand. */
  lemma {:induction false} RegistrationsCommute<T>(
    ops: seq<Registration<T>>, a: Registration<T>, b: Registration<T>, rest: seq<Registration<T>>)
    requires !(Check(a.path, a.data).Accept? && Check(a.path, a.data) == Check(b.path, b.data))
    ensures RegisterAll(ops + [a, b] + rest) == RegisterAll(ops + [b, a] + rest)
    decreases |rest|
  {
    hide Check;
    if rest == [] {
      assert ops + [a, b] + rest == ops + [a, b] && ops + [b, a] + rest == ops + [b, a];
      RegisterTwo(ops, a, b);
      RegisterTwo(ops, b, a);
    } else {
      var n := |rest| - 1;
      RegistrationsCommute(ops, a, b, rest[..n]);
      RegisterLast(ops + [a, b], rest);
      RegisterLast(ops + [b, a], rest);
    }
  }

  lemma RegisterLast<T>(ops: seq<Registration<T>>, rest: seq<Registration<T>>)
    requires rest != []
    ensures RegisterAll(ops + rest) == Register(RegisterAll(ops + rest[..|rest| - 1]), rest[|rest| - 1])
  {
    hide Check, Register;
    var all := ops + rest;
    assert all[..|all| - 1] == ops + rest[..|rest| - 1] && all[|all| - 1] == rest[|rest| - 1];
  }

  lemma RegisterTwo<T>(ops: seq<Registration<T>>, a: Registration<T>, b: Registration<T>)
    ensures RegisterAll(ops + [a, b]) == Register(Register(RegisterAll(ops), a), b)
  {
    hide Check;
    RegisterLast(ops, [a, b]);
    assert [a, b][..1] == [a];
    RegisterLast(ops, [a]);
    assert ops + [a][..0] == ops;
  }

  // ---------------------------------------------------------------- tables the code can receive

  predicate PlainName(s: string) {
    s != [] && forall k :: 0 <= k < |s| ==> 'a' <= s[k] <= 'z'
  }

  /** A path written with nothing but lower-case letters between its slashes. */
  function PathOf(names: Key): string {
    "/" + if names == [] then "" else Join(names, '/')
  }

  predicate PlainText(s: string) {
    forall k :: 0 <= k < |s| ==> 'a' <= s[k] <= 'z' || s[k] == '/'
  }

  lemma {:induction false} PlainTextIsValid(s: string)
    requires PlainText(s)
    ensures !Contains(s, "..") && Url.ValidText(s, false, false)
  {
    if s != [] {
      PlainTextIsValid(s[1..]);
      assert s[0] != ".."[0];
    }
  }

  lemma {:induction false} PlainJoin(names: Key)
    requires names != [] && forall k :: 0 <= k < |names| ==> PlainName(names[k])
    ensures PlainText(Join(names, '/')) && Join(names, '/') != []
  {
    if |names| > 1 {
      PlainJoin(names[1..]);
    }
  }

  lemma {:induction false} PlainDecode(s: string)
    requires '%' !in s
    ensures Url.Decode(s, false) == s
  {
    if s != [] {
      PlainDecode(s[1..]);
    }
  }

  lemma {:induction false} NormalIsAll(names: Key)
    requires forall k :: 0 <= k < |names| ==> names[k] != ""
    ensures Normal(names) == names
  {
    if names != [] {
      NormalIsAll(names[1..]);
    }
  }

  /** Every list of plain names is a key that a registration reaches. */
  lemma PlainPathIsAccepted<T>(names: Key, data: T)
    requires forall k :: 0 <= k < |names| ==> PlainName(names[k])
    ensures Check(PathOf(names), Some(data)) == Accept(names)
  {
    hide Contains, Url.ValidText, Url.Decode, Join, Split;
    var path := PathOf(names);
    NormalIsAll(names);
    if names == [] {
      PlainTextIsValid(path);
    } else {
      PlainJoin(names);
      PlainTextIsValid(path);
      assert path[1..] == Join(names, '/');
      forall k | 0 <= k < |names| ensures '/' !in names[k] && Url.Decode(names[k], false) == names[k] {
        assert PlainName(names[k]);
        PlainDecode(names[k]);
      }
      JoinSplit(names, '/');
      assert Url.Segments(path) == names;
    }
  }

  /** The first failing family: a path through an interior node hides the shorter handler. */
  lemma LookupMissesShorterRoute()
    ensures
      var routes := RegisterAll([Registration("/a", Some(1)), Registration("/a/b/c", Some(2))]);
      Lookup(routes, ["a", "b"]) == None && Longest(routes, ["a", "b"], 2) == Some(1)
  {
    hide Check, Depth, Longest;
    var routes: map<Key, int> := map[["a"] := 1, ["a", "b", "c"] := 2];
    var first, second := Registration("/a", Some(1)), Registration("/a/b/c", Some(2));
    PlainPathIsAccepted(["a"], 1);
    PlainPathIsAccepted(["a", "b", "c"], 2);
    assert PathOf(["a"]) == "/a";
    assert PathOf(["a", "b", "c"]) == "/a/b/c" by {
      assert ["a", "b", "c"][1..] == ["b", "c"] && ["b", "c"][1..] == ["c"];
    }
    RegisterTwo([], first, second);
    assert [] + [first, second] == [first, second];
    assert RegisterAll([first, second]) == routes;
    InteriorNodeHides(routes);
  }

  lemma InteriorNodeHides(routes: map<Key, int>)
    requires routes == map[["a"] := 1, ["a", "b", "c"] := 2]
    ensures Lookup(routes, ["a", "b"]) == None && Longest(routes, ["a", "b"], 2) == Some(1)
  {
    var query := ["a", "b"];
    NormalIsAll(query);
    assert query[..2] == query && query[..1] == ["a"];
    assert ["a", "b", "c"] in routes && query <= ["a", "b", "c"];
    assert Depth(routes, query, 2) == 2;
    assert Longest(routes, query, 1) == Some(1);
  }

  /** The second: the root's handler answers no path below it, although "/" is a prefix of it. */
  lemma LookupMissesRoot()
    ensures
      var routes := RegisterAll([Registration("/", Some(1))]);
      Lookup(routes, ["x"]) == None && LongestOrRoot(routes, ["x"]) == Some(1)
  {
    hide Check;
    PlainPathIsAccepted([], 1);
    assert PathOf([]) == "/";
    var only := Registration("/", Some(1));
    assert [only][..0] == [];
    assert RegisterAll([only]) == map[[] := 1];
    NormalIsAll(["x"]);
    assert Depth(RegisterAll([only]), ["x"], 1) == 0;
  }

  // ---------------------------------------------------------------- trailing slashes

  lemma {:induction false} NormalIgnoresEmptyEnd(segments: seq<string>)
    ensures Normal(segments + [""]) == Normal(segments)
  {
    if segments == [] {
      assert segments + [""] == [""];
    } else {
      assert (segments + [""])[1..] == segments[1..] + [""];
      NormalIgnoresEmptyEnd(segments[1..]);
    }
  }

  lemma {:induction false} SplitAtEnd(s: string, d: char)
    ensures Split(s + [d], d) == Split(s, d) + [[]]
  {
    if s == [] {
      assert s + [d] == [d];
      assert [d][1..] == [];
    } else {
      assert (s + [d])[1..] == s[1..] + [d];
      SplitAtEnd(s[1..], d);
      var rest := Split(s[1..], d);
      assert (rest + [[]])[1..] == rest[1..] + [[]];
    }
  }

  lemma {:induction false} ValidEscapesAtEnd(s: string)
    ensures Url.ValidEscapes(s + "/") == Url.ValidEscapes(s)
    decreases |s|
  {
    if s == [] {
      assert s + "/" == "/";
    } else if s[0] == '%' {
      if Url.StartsEscape(s) {
        assert (s + "/")[3..] == s[3..] + "/";
        ValidEscapesAtEnd(s[3..]);
      }
    } else {
      assert (s + "/")[1..] == s[1..] + "/";
      ValidEscapesAtEnd(s[1..]);
    }
  }

  lemma {:induction false} AllLegalAtEnd(s: string)
    ensures Url.AllLegal(s + "/", false, false) == Url.AllLegal(s, false, false)
  {
    if s == [] {
      assert s + "/" == "/";
    } else {
      assert (s + "/")[1..] == s[1..] + "/";
      AllLegalAtEnd(s[1..]);
    }
  }

  lemma {:induction false} DotsAtEnd(s: string)
    ensures Contains(s + "/", "..") == Contains(s, "..")
  {
    if s == [] {
      assert (s + "/")[1..] == [];
    } else {
      assert (s + "/")[1..] == s[1..] + "/";
      DotsAtEnd(s[1..]);
      assert ".." <= s + "/" <==> ".." <= s by {
        if ".." <= s + "/" { assert (s + "/")[1] == '.' && |s| >= 2; }
      }
    }
  }

  /**
   * A trailing '/' is ignored by every registration and every query but the empty path and "/": the
   * segments gain one empty element at the end, so the normal form stays, and with it what is
   * accepted, under which key, and every answer.
   */
  lemma TrailingSlash<T>(routes: map<Key, T>, path: string, data: Option<T>)
    requires |path| >= 2 && path[0] == '/'
    ensures Url.ValidText(path + "/", false, false) == Url.ValidText(path, false, false)
    ensures Check(path + "/", data) == Check(path, data)
    ensures Register(routes, Registration(path + "/", data)) == Register(routes, Registration(path, data))
    ensures Lookup(routes, Url.Segments(path + "/")) == Lookup(routes, Url.Segments(path))
  {
    var longer := path + "/";
    ValidEscapesAtEnd(path);
    AllLegalAtEnd(path);
    DotsAtEnd(path);
    assert longer[1..] == path[1..] + ['/'];
    SplitAtEnd(path[1..], '/');
    assert Url.Segments(longer) == Url.Segments(path) + [""];
    NormalIgnoresEmptyEnd(Url.Segments(path));
  }
}
