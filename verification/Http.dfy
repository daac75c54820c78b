/**
 * Requests as they are read, responses as they are built, and the two decisions a session takes
 * about them: what to do with a request, and what message a reply becomes.
 */
module Http {
  import opened Text
  import Url
  import Routes

  const VERB_GET: nat := 2
  const VERB_HEAD: nat := 3
  const VERB_PUT: nat := 5
  const BAD_REQUEST: nat := 400

  type Fields = seq<(string, string)>

  /** A request message in the session's read buffer. */
  datatype RawRequest = RawRequest(verb: nat, target: string, version: nat, fields: Fields, body: string) {
    /** The message without its body: start line and header fields. */
    function Head(): RawRequest {
      this.(body := "")
    }
  }

  /** What a handler answers with. */
  datatype Reply = Reply(
    status: nat, contentType: string, headers: Fields, body: string,
    forceGzip: bool, disableKeepAlive: bool, level: int)

  /** A response message; field names are folded to lower case. */
  datatype Message = Message(status: nat, fields: map<string, string>, body: string)

  /** What a handler is given. */
  datatype HttpRequest = HttpRequest(
    sessionId: nat, requestId: nat, verb: nat, headers: map<string, string>,
    segments: seq<string>, params: map<string, string>, body: string)

  /** Server options, with the compressor as an arbitrary function. */
  datatype Options = Options(
    threads: nat, maxRequestSize: nat, address: string,
    autoGzip: bool, autoDecode: bool, compress: (int, string) -> string)

  /** What a server runs with: its options and the registered routes. */
  datatype Config = Config(options: Options, routes: map<seq<string>, nat>)

  // ---------------------------------------------------------------- fields

  /** The value of the first field with that name, or nothing. */
  function FirstField(fields: Fields, name: string): string {
    if fields == [] then ""
    else if Lower(fields[0].0) == name then fields[0].1
    else FirstField(fields[1..], name)
  }

  function FieldOf(m: Message, name: string): string {
    if name in m.fields then m.fields[name] else ""
  }

  /** No field has that name, up to case. */
  predicate Lacks(fields: Fields, name: string) {
    forall j :: 0 <= j < |fields| ==> Lower(fields[j].0) != name
  }

  /** Stores the pairs in order, so that later ones replace earlier ones. */
  function LastWins(pairs: seq<(string, string)>): map<string, string> {
    if pairs == [] then map[]
    else
      var last := pairs[|pairs| - 1];
      LastWins(pairs[..|pairs| - 1])[last.0 := last.1]
  }

  /** Pair `i` is the last one of that name. */
  predicate LastAt(pairs: seq<(string, string)>, name: string, i: nat) {
    i < |pairs| && pairs[i].0 == name && forall j :: i < j < |pairs| ==> pairs[j].0 != name
  }

  /** The table holds exactly the names that occur, each with the value of its last occurrence. */
  lemma {:induction false} LastWinsIsLast(pairs: seq<(string, string)>, name: string)
    ensures name in LastWins(pairs) <==> exists i: nat :: LastAt(pairs, name, i)
    ensures forall i: nat :: LastAt(pairs, name, i) ==> LastWins(pairs)[name] == pairs[i].1
  {
    if pairs != [] {
      var n := |pairs| - 1;
      var front := pairs[..n];
      LastWinsIsLast(front, name);
      if pairs[n].0 == name {
        assert LastAt(pairs, name, n);
      } else {
        forall i: nat | i < n ensures LastAt(front, name, i) <==> LastAt(pairs, name, i) {
          assert forall j :: i < j <= n ==> j == n || front[j] == pairs[j];
        }
      }
    }
  }

  /** Sets response fields in order; names that differ only in case are the same field. */
  function SetAll(fields: map<string, string>, pairs: Fields): map<string, string> {
    if pairs == [] then fields
    else
      var last := pairs[|pairs| - 1];
      SetAll(fields, pairs[..|pairs| - 1])[Lower(last.0) := last.1]
  }

  /** The value of the last pair of that name, if there is one. */
  function LastNamed(pairs: Fields, name: string): Option<string> {
    if pairs == [] then None
    else
      var last := pairs[|pairs| - 1];
      if Lower(last.0) == name then Some(last.1) else LastNamed(pairs[..|pairs| - 1], name)
  }

  predicate LastNamedAt(pairs: Fields, name: string, i: nat) {
    i < |pairs| && Lower(pairs[i].0) == name && forall j :: i < j < |pairs| ==> Lower(pairs[j].0) != name
  }

  /** That is the value at the greatest index whose name is the same up to case. */
  lemma {:induction false} LastNamedIs(pairs: Fields, name: string)
    ensures LastNamed(pairs, name) == None <==> Lacks(pairs, name)
    ensures forall i: nat :: LastNamedAt(pairs, name, i) ==> LastNamed(pairs, name) == Some(pairs[i].1)
  {
    hide Lower;
    if pairs != [] {
      var n := |pairs| - 1;
      var front := pairs[..n];
      LastNamedIs(front, name);
      assert forall j :: 0 <= j < n ==> front[j] == pairs[j];
      if Lower(pairs[n].0) != name {
        forall i: nat | i < n ensures LastNamedAt(front, name, i) <==> LastNamedAt(pairs, name, i) {
          assert forall j :: i < j <= n ==> j == n || front[j] == pairs[j];
        }
      }
    }
  }

  /** A field set by no pair keeps its value; otherwise it has the value of the last pair of its name. */
  lemma {:induction false} SetAllIsLast(fields: map<string, string>, pairs: Fields, name: string)
    ensures match LastNamed(pairs, name)
      case Some(v) => name in SetAll(fields, pairs) && SetAll(fields, pairs)[name] == v
      case None =>
        && (name in SetAll(fields, pairs) <==> name in fields)
        && (name in fields ==> SetAll(fields, pairs)[name] == fields[name])
  {
    if pairs != [] {
      SetAllIsLast(fields, pairs[..|pairs| - 1], name);
    }
  }

  // ---------------------------------------------------------------- connection persistence

  function RequestKeepAlive(r: RawRequest): bool {
    var connection := FirstField(r.fields, "connection");
    if r.version < 11 then HasToken(connection, "keep-alive") else !HasToken(connection, "close")
  }

  /** Responses are HTTP/1.1. */
  function KeepAlive(m: Message): bool {
    !HasToken(FieldOf(m, "connection"), "close")
  }

  function SetKeepAlive(fields: map<string, string>, keep: bool): map<string, string> {
    if keep then fields - {"connection"} else fields["connection" := "close"]
  }

  /** Field `i` is the first one of that name, up to case. */
  predicate FirstAt(fields: Fields, name: string, i: nat) {
    i < |fields| && Lower(fields[i].0) == name && forall j :: 0 <= j < i ==> Lower(fields[j].0) != name
  }

  lemma {:induction false} FirstFieldIs(fields: Fields, name: string)
    ensures Lacks(fields, name) ==> FirstField(fields, name) == ""
    ensures forall i: nat :: FirstAt(fields, name, i) ==> FirstField(fields, name) == fields[i].1
    ensures Lacks(fields, name) || exists i: nat :: FirstAt(fields, name, i)
  {
    hide Lower;
    if fields != [] {
      var rest := fields[1..];
      FirstFieldIs(rest, name);
      if Lower(fields[0].0) == name {
        assert FirstAt(fields, name, 0);
      } else {
        forall i: nat | i > 0 ensures FirstAt(fields, name, i) <==> FirstAt(rest, name, i - 1) {
          assert forall j :: 0 < j < |fields| ==> fields[j] == rest[j - 1];
        }
        if !Lacks(rest, name) {
          var i: nat :| FirstAt(rest, name, i);
          assert FirstAt(fields, name, i + 1);
        } else {
          assert forall j :: 0 < j < |fields| ==> fields[j] == rest[j - 1];
        }
      }
    }
  }

  /** The first such field lists the token, in any case and with blanks around it. */
  ghost predicate Announces(fields: Fields, name: string, token: string) {
    exists i: nat, word :: FirstAt(fields, name, i) && IsElement(fields[i].1, word) && Lower(word) == token
  }

  /**
   * Whether a request asks for a persistent connection (section 9.3 of RFC 9112): from version 1.1
   * on unless its first Connection field lists "close", before that only if it lists "keep-alive".
   */
  lemma RequestPersistence(r: RawRequest)
    ensures r.version >= 11 ==> (RequestKeepAlive(r) <==> !Announces(r.fields, "connection", "close"))
    ensures r.version < 11 ==> (RequestKeepAlive(r) <==> Announces(r.fields, "connection", "keep-alive"))
    ensures Lacks(r.fields, "connection") ==> (RequestKeepAlive(r) <==> r.version >= 11)
  {
    hide Lower, IsElement, HasToken;
    FirstFieldIs(r.fields, "connection");
    FirstTokens(r.fields, "connection", "close");
    FirstTokens(r.fields, "connection", "keep-alive");
  }

  lemma FirstTokens(fields: Fields, name: string, token: string)
    requires token != ""
    ensures HasToken(FirstField(fields, name), token) <==> Announces(fields, name, token)
  {
    hide Lower, IsElement, HasToken;
    var value := FirstField(fields, name);
    FirstFieldIs(fields, name);
    HasTokenIs(value, token);
    if Lacks(fields, name) {
      EmptyListHasNoToken(token);
    } else {
      var i: nat :| FirstAt(fields, name, i);
      forall k: nat | FirstAt(fields, name, k) ensures k == i {}
    }
  }

  lemma EmptyListHasNoToken(token: string)
    requires token != ""
    ensures !HasToken("", token)
  {
    assert Split("", ',') == [""];
    assert |Lower(Trim(""))| == 0;
  }

  /** The two header lines that decide, as they are usually spelt. */
  lemma UsualSpellings(r: RawRequest, rest: Fields)
    ensures r.fields == [("Connection", "Close")] + rest ==> !RequestKeepAlive(r) || r.version < 11
    ensures r.fields == [("Connection", "Keep-Alive")] + rest ==> RequestKeepAlive(r)
  {
    hide HasToken;
    SpeltOut();
    FirstFieldIs(r.fields, "connection");
    assert r.fields != [] && Lower(r.fields[0].0) == "connection" ==> FirstAt(r.fields, "connection", 0);
  }

  /** A list of one element. */
  lemma SingleToken(word: string, token: string)
    requires IsWord(word) && ',' !in word
    ensures HasToken(word, token) <==> Lower(word) == token
  {
    SplitWhole(word, ',');
    TrimIs("", word, "");
    assert "" + word + "" == word;
    assert Lower(Trim(Split(word, ',')[0])) == Lower(word);
  }

  lemma SpeltOut()
    ensures Lower("Connection") == "connection"
    ensures HasToken("Close", "close") && !HasToken("Keep-Alive", "close") && HasToken("Keep-Alive", "keep-alive")
  {
    hide HasToken;
    SingleToken("Close", "close");
    SingleToken("Keep-Alive", "close");
    SingleToken("Keep-Alive", "keep-alive");
    assert Lower("Close") == "close";
    assert Lower("Keep-Alive") == "keep-alive";
  }

  // ---------------------------------------------------------------- building a response

  function AcceptsGzip(r: RawRequest): bool {
    var accepted := Lower(FirstField(r.fields, "accept-encoding"));
    Contains(accepted, "gzip") || Contains(accepted, "*")
  }

  function UsesGzip(cfg: Config, r: RawRequest, reply: Reply): bool {
    reply.forceGzip || (|reply.body| > 500 && cfg.options.autoGzip && AcceptsGzip(r))
  }

  /** The header fields before the payload is known. */
  function HeaderFields(cfg: Config, r: RawRequest, base: map<string, string>, reply: Reply): map<string, string> {
    var f0 := SetKeepAlive(base, if reply.disableKeepAlive then false else RequestKeepAlive(r));
    var f1 := f0["content-type" := reply.contentType];
    var f2 := SetAll(f1, reply.headers);
    if UsesGzip(cfg, r, reply) then f2["content-encoding" := "gzip"] else f2
  }

  /** The response built on top of whatever the session's stored response already holds. */
  function Fill(cfg: Config, r: RawRequest, base: Message, reply: Reply): Message {
    var fields := HeaderFields(cfg, r, base.fields, reply);
    var body := if UsesGzip(cfg, r, reply) then cfg.options.compress(reply.level, reply.body) else reply.body;
    if |body| > 0 then
      var stored := if r.verb != VERB_HEAD then base.body + body else base.body;
      Message(reply.status, fields["content-length" := Decimal(|stored|)], stored)
    else
      Message(reply.status, fields, base.body)
  }

  /** A stored response that contributes nothing. */
  predicate Clean(m: Message) {
    m.fields == map[] && m.body == ""
  }

  /** Clearing a stored response removes its fields and its body. */
  function Emptied(m: Message): (r: Message)
    ensures Clean(r)
  {
    Message(m.status, map[], "")
  }

  /** The message a reply to a request becomes, on its own. */
  function Compose(cfg: Config, r: RawRequest, reply: Reply): Message {
    Fill(cfg, r, Message(200, map[], ""), reply)
  }

  /** On a clean stored response, and whatever body the stored request still has, filling is composing. */
  lemma FillIsCompose(cfg: Config, r: RawRequest, stored: RawRequest, base: Message, reply: Reply)
    requires Clean(base) && stored.Head() == r.Head()
    ensures Fill(cfg, stored, base, reply) == Compose(cfg, r, reply)
  {
    assert stored.verb == r.Head().verb == r.verb;
    assert stored.fields == r.Head().fields == r.fields;
    assert stored.version == r.Head().version == r.version;
  }

  /** Whether the connection persists is decided by the request and the reply, unless a reply header says otherwise. */
  lemma PersistenceOfMessage(cfg: Config, r: RawRequest, reply: Reply)
    ensures KeepAlive(Compose(cfg, r, reply)) ==
      match LastNamed(reply.headers, "connection")
      case None => !reply.disableKeepAlive && RequestKeepAlive(r)
      case Some(v) => !HasToken(v, "close")
  {
    var keep := if reply.disableKeepAlive then false else RequestKeepAlive(r);
    var f1 := SetKeepAlive(map[], keep)["content-type" := reply.contentType];
    SetAllIsLast(f1, reply.headers, "connection");
    CloseToken();
    var m := Compose(cfg, r, reply);
    assert "connection" in m.fields <==> "connection" in SetAll(f1, reply.headers);
    assert "connection" in m.fields ==> m.fields["connection"] == SetAll(f1, reply.headers)["connection"];
  }

  /** The Connection field of a reply whose handler does not set one: "close", or none at all. */
  lemma ConnectionField(cfg: Config, r: RawRequest, reply: Reply)
    requires Lacks(reply.headers, "connection")
    ensures
      var m := Compose(cfg, r, reply);
      if !reply.disableKeepAlive && RequestKeepAlive(r) then "connection" !in m.fields
      else FieldOf(m, "connection") == "close"
  {
    hide RequestKeepAlive, UsesGzip, LastNamed, SetAll;
    var keep := if reply.disableKeepAlive then false else RequestKeepAlive(r);
    LastNamedIs(reply.headers, "connection");
    SetAllIsLast(SetKeepAlive(map[], keep)["content-type" := reply.contentType], reply.headers, "connection");
  }

  /** The octets a reply carries: compressed exactly when gzip is forced, or allowed, accepted and worth it. */
  function Payload(cfg: Config, r: RawRequest, reply: Reply): string {
    if UsesGzip(cfg, r, reply) then cfg.options.compress(reply.level, reply.body) else reply.body
  }

  /**
   * What a message carries: the payload, or nothing for HEAD, which is method 3; a length that matches whenever there
   * is a payload; the gzip label exactly on compressed replies unless the handler set one; and the
   * handler's own headers in preference to the defaults.
   */
  lemma MessageContent(cfg: Config, r: RawRequest, reply: Reply)
    ensures
      var m := Compose(cfg, r, reply);
      && m.status == reply.status
      && m.body == (if r.verb == 3 then "" else Payload(cfg, r, reply))
      && (Payload(cfg, r, reply) != "" ==> FieldOf(m, "content-length") == Decimal(|m.body|))
      && FieldOf(m, "content-type") ==
           (match LastNamed(reply.headers, "content-type") case Some(v) => v case None => reply.contentType)
      && FieldOf(m, "content-encoding") ==
           (if UsesGzip(cfg, r, reply) then "gzip"
            else match LastNamed(reply.headers, "content-encoding") case Some(v) => v case None => "")
  {
    hide UsesGzip, RequestKeepAlive, LastNamed, SetAll;
    var keep := if reply.disableKeepAlive then false else RequestKeepAlive(r);
    var f1 := SetKeepAlive(map[], keep)["content-type" := reply.contentType];
    SetAllIsLast(f1, reply.headers, "content-type");
    SetAllIsLast(f1, reply.headers, "content-encoding");
  }

  /** Every other field is the handler's, and so is the length when there is no payload. */
  lemma OtherFields(cfg: Config, r: RawRequest, reply: Reply, name: string)
    requires name !in ["connection", "content-type", "content-encoding"]
    requires name == "content-length" ==> Payload(cfg, r, reply) == ""
    ensures
      var m := Compose(cfg, r, reply);
      match LastNamed(reply.headers, name)
      case Some(v) => name in m.fields && m.fields[name] == v
      case None => name !in m.fields
  {
    hide UsesGzip, RequestKeepAlive, LastNamed, SetAll;
    var keep := if reply.disableKeepAlive then false else RequestKeepAlive(r);
    SetAllIsLast(SetKeepAlive(map[], keep)["content-type" := reply.contentType], reply.headers, name);
  }

  /** The request accepts gzip by name, in any case, or by a wildcard. */
  lemma AcceptsGzipIs(r: RawRequest)
    ensures AcceptsGzip(r) <==>
      exists i: nat, k: nat :: FirstAt(r.fields, "accept-encoding", i) && NamesGzip(r.fields[i].1, k)
  {
    hide Contains;
    FirstFieldIs(r.fields, "accept-encoding");
    var value := FirstField(r.fields, "accept-encoding");
    ContainsIs(Lower(value), "gzip");
    ContainsIs(Lower(value), "*");
    NamesGzipIs(value);
    if !Lacks(r.fields, "accept-encoding") {
      var i: nat :| FirstAt(r.fields, "accept-encoding", i);
      forall j: nat | FirstAt(r.fields, "accept-encoding", j) ensures j == i {}
    }
  }

  /** "gzip" in any case, or '*', stands in the value from index `k` on. */
  predicate NamesGzip(value: string, k: nat) {
    (k + 4 <= |value| && Lower(value[k..k + 4]) == "gzip") || (k < |value| && value[k] == '*')
  }

  lemma NamesGzipIs(value: string)
    ensures forall k: nat :: NamesGzip(value, k) <==>
        OccursAt(Lower(value), "gzip", k) || OccursAt(Lower(value), "*", k)
  {
    forall k: nat
      ensures NamesGzip(value, k) <==> OccursAt(Lower(value), "gzip", k) || OccursAt(Lower(value), "*", k)
    {
      if k + 4 <= |value| {
        assert Lower(value)[k..k + 4] == Lower(value[k..k + 4]);
      }
      if k < |value| {
        assert Lower(value)[k..k + 1] == [LowerChar(value[k])];
      }
    }
  }

  /**
   * A reply is compressed and labelled exactly if the handler asks for it, or if it has more than
   * 500 octets, the server compresses on its own and the request accepts gzip.
   */
  lemma GzipExactlyWhen(cfg: Config, r: RawRequest, reply: Reply)
    requires Lacks(reply.headers, "content-encoding")
    ensures
      var m := Compose(cfg, r, reply);
      var zipped := cfg.options.compress(reply.level, reply.body);
      var accepted := exists i: nat, k: nat ::
          FirstAt(r.fields, "accept-encoding", i) && NamesGzip(r.fields[i].1, k);
      if reply.forceGzip || (|reply.body| > 500 && cfg.options.autoGzip && accepted) then
        FieldOf(m, "content-encoding") == "gzip" && (r.verb != 3 ==> m.body == zipped)
      else
        "content-encoding" !in m.fields && (r.verb != 3 ==> m.body == reply.body)
  {
    hide AcceptsGzip, RequestKeepAlive, LastNamed, SetAll;
    AcceptsGzipIs(r);
    MessageContent(cfg, r, reply);
    LastNamedIs(reply.headers, "content-encoding");
    var keep := if reply.disableKeepAlive then false else RequestKeepAlive(r);
    SetAllIsLast(SetKeepAlive(map[], keep)["content-type" := reply.contentType], reply.headers, "content-encoding");
  }

  /** Only zero is written "0". */
  lemma ZeroIsZero(n: nat)
    ensures Decimal(n) == "0" <==> n == 0
  {
    DecimalIs(n);
    assert Decimal(0) == "0";
  }

  /**
   * HEAD, method 3, against GET, method 2 (section 9.3.2 of RFC 9110): the same status and header fields, with one
   * exception. The length announced is the length GET would announce if and only if there is no
   * payload; otherwise HEAD announces 0.
   */
  lemma HeadLength(cfg: Config, r: RawRequest, reply: Reply)
    requires r.verb == 3
    ensures
      var head := Compose(cfg, r, reply);
      var get := Compose(cfg, r.(verb := 2), reply);
      && head.status == get.status && head.fields - {"content-length"} == get.fields - {"content-length"}
      && (FieldOf(head, "content-length") == FieldOf(get, "content-length") <==> Payload(cfg, r, reply) == "")
      && (Payload(cfg, r, reply) != "" ==> FieldOf(head, "content-length") == "0")
  {
    hide RequestKeepAlive, AcceptsGzip, SetAll, SetKeepAlive, Decimal;
    var payload := Payload(cfg, r, reply);
    SameFields(r);
    ZeroIsZero(0);
    ZeroIsZero(|payload|);
    assert "" + payload == payload;
  }

  lemma SameFields(r: RawRequest)
    ensures RequestKeepAlive(r.(verb := VERB_GET)) == RequestKeepAlive(r)
    ensures AcceptsGzip(r.(verb := VERB_GET)) == AcceptsGzip(r)
  {
  }

  lemma CloseToken()
    ensures HasToken("close", "close") && !HasToken("", "close")
  {
    SingleToken("close", "close");
    assert Lower("close") == "close";
    EmptyListHasNoToken("close");
  }

  // ---------------------------------------------------------------- deciding about a request

  datatype Decision = Refuse(text: string) | Deliver(request: HttpRequest, handler: nat)

  function RefusalReply(text: string): Reply {
    Reply(BAD_REQUEST, "text/plain", [], text, false, false, 1)
  }

  /** The target that is parsed: '|' is escaped first, for GET only. */
  function EffectiveTarget(r: RawRequest): string {
    if r.verb == VERB_GET && '|' in r.target then Url.Rewrite(r.target) else r.target
  }

  ghost function Decide(cfg: Config, r: RawRequest, sessionId: nat, requestId: nat): Decision {
    match Url.ParseOriginForm(EffectiveTarget(r), false)
    case None => Refuse("url invalid")
    case Some(url) =>
      match Routes.Lookup(cfg.routes, url.segments)
      case None => Refuse("current url not support")
      case Some(handler) =>
        if r.verb > VERB_PUT then Refuse("current method not support")
        else
          var params := if cfg.options.autoDecode then url.params else url.encodedParams;
          Deliver(
            HttpRequest(sessionId, requestId, r.verb, LastWins(r.fields), url.segments, LastWins(params), r.body),
            handler)
  }

  /** The message a refused request is answered with: status 400, plain text, uncompressed. */
  lemma RefusalMessage(cfg: Config, r: RawRequest, text: string)
    requires 0 < |text| <= 500
    ensures
      var m := Compose(cfg, r, RefusalReply(text));
      && m.status == 400 && FieldOf(m, "content-type") == "text/plain" && "content-encoding" !in m.fields
      && m.body == (if r.verb == 3 then "" else text)
      && FieldOf(m, "content-length") == Decimal(|m.body|)
      && (KeepAlive(m) <==> RequestKeepAlive(r))
  {
    hide AcceptsGzip, RequestKeepAlive, KeepAlive, Decimal;
    MessageContent(cfg, r, RefusalReply(text));
    PersistenceOfMessage(cfg, r, RefusalReply(text));
    GzipExactlyWhen(cfg, r, RefusalReply(text));
  }

  /** The table holds the values of the last pairs and nothing else. */
  ghost predicate IsLastTable(table: map<string, string>, pairs: seq<(string, string)>) {
    && (forall name :: name in table <==> exists i: nat :: LastAt(pairs, name, i))
    && (forall name, i: nat :: LastAt(pairs, name, i) ==> name in table && table[name] == pairs[i].1)
  }

  lemma LastWinsIsTable(pairs: seq<(string, string)>)
    ensures IsLastTable(LastWins(pairs), pairs)
  {
    forall name ensures name in LastWins(pairs) <==> exists i: nat :: LastAt(pairs, name, i) {
      LastWinsIsLast(pairs, name);
    }
    forall name, i: nat | LastAt(pairs, name, i)
      ensures name in LastWins(pairs) && LastWins(pairs)[name] == pairs[i].1
    {
      LastWinsIsLast(pairs, name);
    }
  }

  /** The target as it is understood: for GET, method 2, a '|' is an ordinary character. */
  function Understood(r: RawRequest): Option<Url.ParsedUrl> {
    Url.ParseOriginForm(r.target, r.verb == 2)
  }

  /**
   * What becomes of every request: refused for its target, for want of a handler or for a method
   * above PUT, method 5, in this order; or else given to its handler complete, with method, fields,
   * segments, parameters and body as they arrived.
   */
  lemma DecisionIs(cfg: Config, r: RawRequest, sessionId: nat, requestId: nat)
    ensures
      var d := Decide(cfg, r, sessionId, requestId);
      match Understood(r)
      case None => d == Refuse("url invalid")
      case Some(url) =>
        match Routes.Lookup(cfg.routes, url.segments)
        case None => d == Refuse("current url not support")
        case Some(handler) =>
          if r.verb > 5 then d == Refuse("current method not support")
          else
            && d.Deliver? && d.handler == handler
            && d.request.sessionId == sessionId && d.request.requestId == requestId
            && d.request.verb == r.verb && d.request.body == r.body && d.request.segments == url.segments
            && IsLastTable(d.request.headers, r.fields)
            && IsLastTable(
                 d.request.params,
                 if cfg.options.autoDecode then url.params
                 else if r.verb == 2 then RewriteParams(url.encodedParams) else url.encodedParams)
  {
    hide Routes.Lookup, Url.ParseOriginForm, LastWins, IsLastTable;
    LastWinsIsTable(r.fields);
    if r.verb == VERB_GET {
      PipesAreOrdinary(cfg, r, sessionId, requestId);
    }
    if Understood(r).Some? {
      var url := Understood(r).value;
      LastWinsIsTable(url.params);
      LastWinsIsTable(url.encodedParams);
      LastWinsIsTable(RewriteParams(url.encodedParams));
    }
  }

  /** A '|' in the target of any other method is refused. */
  lemma PipesElsewhereAreRefused(cfg: Config, r: RawRequest, sessionId: nat, requestId: nat)
    requires r.verb != 2 && '|' in r.target
    ensures Decide(cfg, r, sessionId, requestId) == Refuse("url invalid")
  {
    Url.PipeIsRefused(r.target);
  }

  /**
   * A GET target is treated exactly as if '|' were an ordinary character of the grammar: same
   * refusal, same handler, same segments and decoded parameters. Only a handler that asked for
   * undecoded parameters sees the escape.
   */
  lemma PipesAreOrdinary(cfg: Config, r: RawRequest, sessionId: nat, requestId: nat)
    requires r.verb == VERB_GET
    ensures
      var d := Decide(cfg, r, sessionId, requestId);
      match Url.ParseOriginForm(r.target, true)
      case None => d == Refuse("url invalid")
      case Some(url) =>
        match Routes.Lookup(cfg.routes, url.segments)
        case None => d == Refuse("current url not support")
        case Some(handler) =>
          d.Deliver? && d.handler == handler && d.request.segments == url.segments
          && d.request.params ==
               LastWins(if cfg.options.autoDecode then url.params else RewriteParams(url.encodedParams))
  {
    Url.RewriteKeepsUrl(r.target);
    if '|' !in r.target {
      RewriteIsIdentity(r.target);
    }
    var before := Url.ParseOriginForm(r.target, true);
    if before.Some? {
      var after := Url.ParseOriginForm(Url.Rewrite(r.target), false);
      assert after.value.encodedParams == RewriteParams(before.value.encodedParams);
    }
  }

  function RewriteParams(params: seq<(string, string)>): seq<(string, string)> {
    seq(|params|, k requires 0 <= k < |params| => Url.RewriteParam(params[k]))
  }

  lemma {:induction false} RewriteIsIdentity(s: string)
    requires '|' !in s
    ensures Url.Rewrite(s) == s
  {
    if s != [] {
      RewriteIsIdentity(s[1..]);
    }
  }
}
