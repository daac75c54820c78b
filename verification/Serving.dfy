/**
 * A whole connection, served by the objects from the registration of handlers to the last response,
 * and the run of the state machine that it is.
 */
module Serving {
  import opened Text
  import opened Http
  import opened Routes
  import opened Session
  import opened Server
  import opened Steps
  import opened SessionObject
  import opened ServerObject
  import opened Witness

  /** A request as it arrives, and what its handler sends if one is called. */
  datatype Exchange = Exchange(raw: RawRequest, reply: Reply)

  /** The message that answers request number `n` of session `id`. */
  ghost function AnswerTo(cfg: Config, id: nat, n: nat, x: Exchange): Message {
    Compose(cfg, x.raw, ReplyTo(Decide(cfg, x.raw, id, n), Some(x.reply)).value)
  }

  /**
   * The messages are the answers to the first requests, in order, each but the last keeping the
   * connection; the rest of the requests is left unread only because the last did not.
   */
  ghost predicate Served(cfg: Config, id: nat, xs: seq<Exchange>, messages: seq<Message>) {
    && |messages| <= |xs|
    && (forall j :: 0 <= j < |messages| ==> messages[j] == AnswerTo(cfg, id, j + 1, xs[j]))
    && (forall j :: 0 <= j < |messages| - 1 ==> KeepAlive(messages[j]))
    && (|messages| < |xs| ==> messages != [] && !KeepAlive(messages[|messages| - 1]))
  }

  /** What `n` exchanges on one live connection leave in the counters. */
  function Tally(n: nat): Stats {
    ZERO.(sessions := 1, readSuccess := n, handled := n, writeSuccess := n)
  }

  /** The handlers are registered one after the other on a server that does not run yet. */
  method Prepare(options: Options, ops: seq<Registration<nat>>) returns (server: HttpServerImpl)
    ensures fresh(server) && fresh(server.router) && fresh(server.router.nodes.Values) && fresh(server.statistics)
    ensures server.Valid() && server.stopped && server.Cfg() == Config(options, RegisterAll(ops))
    ensures server.options == options
  {
    server := new HttpServerImpl(options);
    for i := 0 to |ops|
      invariant server.Valid() && server.stopped && server.Cfg() == Config(options, RegisterAll(ops[..i]))
      invariant fresh(server.router.nodes.Values)
    {
      assert ops[..i + 1][..i] == ops[..i];
      var outcome := server.RegisterHandler(ops[i].path, ops[i].data);
    }
    assert ops[..|ops|] == ops;
  }

  /** One request and its answer. */
  method ServeOne(session: HttpSession, x: Exchange) returns (message: Message)
    requires session.Valid() && session.model.at == Idle && session.pending == Reading
    requires session.router.Valid() && session.router.Content() == session.cfg.routes
    modifies session, session.statistics
    ensures session.Valid() && session.model.at == Idle
    ensures message == AnswerTo(session.cfg, session.id, old(session.requestId), x)
    ensures session.model.arrived == old(session.model.arrived) + [x.raw]
    ensures session.model.written == old(session.model.written) + [message]
    ensures if KeepAlive(message) then session.pending == Reading && session.requestId == old(session.requestId) + 1
            else session.pending == NoOperation && session.model.fate == ClosedAfterReply
    ensures session.Counts(ZERO.(readSuccess := 1, handled := 1, writeSuccess := 1))
  {
    hide Good, Replay, Compose, KeepAlive, Decide, Share;
    session.OnRead(Received(x.raw), Some(x.reply));
    message := session.response;
    session.OnWrite(Written);
  }

  /** Part of the way: as above, and the connection is still open unless the last message ended it. */
  ghost predicate SoFar(cfg: Config, id: nat, xs: seq<Exchange>, messages: seq<Message>, open: bool) {
    && |messages| <= |xs|
    && (forall j :: 0 <= j < |messages| ==> messages[j] == AnswerTo(cfg, id, j + 1, xs[j]))
    && (forall j :: 0 <= j < |messages| - 1 ==> KeepAlive(messages[j]))
    && (open <==> messages == [] || KeepAlive(messages[|messages| - 1]))
  }

  lemma OneMore(cfg: Config, id: nat, xs: seq<Exchange>, messages: seq<Message>, message: Message)
    requires SoFar(cfg, id, xs, messages, true) && |messages| < |xs|
    requires message == AnswerTo(cfg, id, |messages| + 1, xs[|messages|])
    ensures SoFar(cfg, id, xs, messages + [message], KeepAlive(message))
  {
    hide KeepAlive, AnswerTo;
  }

  /** The session and the counters after the messages `messages`, with only this session counted. */
  ghost predicate Stands(session: HttpSession, xs: seq<Exchange>, messages: seq<Message>)
    reads session, session.statistics
  {
    && |messages| <= |xs|
    && (session.pending == Reading ==> session.requestId == |messages| + 1)
    && session.model.written == messages && session.model.arrived == Requests(xs[..|messages|])
    && session.statistics.Value() == Share(session.model) == Tally(|messages|)
  }

  method Step(session: HttpSession, xs: seq<Exchange>, messages: seq<Message>) returns (message: Message)
    requires session.Valid() && session.model.at == Idle && session.pending == Reading
    requires session.router.Valid() && session.router.Content() == session.cfg.routes
    requires |messages| < |xs| && Stands(session, xs, messages)
    modifies session, session.statistics
    ensures session.Valid() && session.model.at == Idle
    ensures message == AnswerTo(session.cfg, session.id, |messages| + 1, xs[|messages|])
    ensures Stands(session, xs, messages + [message]) && (session.pending == Reading <==> KeepAlive(message))
  {
    hide Good, Replay, Compose, KeepAlive, Decide, Share, AnswerTo;
    var n := |messages|;
    message := ServeOne(session, xs[n]);
    assert Requests(xs[..n + 1]) == Requests(xs[..n]) + [xs[n].raw];
  }

  /** Requests answered one after the other, for as long as the connection is kept. */
  method ServeAll(session: HttpSession, xs: seq<Exchange>) returns (messages: seq<Message>)
    requires session.Valid() && session.model.at == Idle && session.pending == Reading
    requires session.router.Valid() && session.router.Content() == session.cfg.routes
    requires Stands(session, xs, [])
    modifies session, session.statistics
    ensures session.Valid() && Served(session.cfg, session.id, xs, messages) && Stands(session, xs, messages)
  {
    hide Good, Replay, Compose, KeepAlive, Decide, Share, AnswerTo;
    messages := [];
    while |messages| < |xs| && session.pending == Reading
      invariant session.Valid() && session.model.at == Idle
      invariant SoFar(session.cfg, session.id, xs, messages, session.pending == Reading)
      invariant Stands(session, xs, messages)
      decreases |xs| - |messages|
    {
      var message := Step(session, xs, messages);
      OneMore(session.cfg, session.id, xs, messages, message);
      messages := messages + [message];
    }
  }

  function Requests(xs: seq<Exchange>): seq<RawRequest> {
    seq(|xs|, i requires 0 <= i < |xs| => xs[i].raw)
  }

  /** The first connection of a server that has just started, waiting for its first request. */
  method Connect(server: HttpServerImpl, ghost xs: seq<Exchange>) returns (session: HttpSession)
    requires server.Valid() && server.accepting && server.lastId == 0 && server.statistics.Value() == ZERO
    modifies server, server.statistics
    ensures server.Valid() && fresh(session) && session.statistics == server.statistics
    ensures session.Valid() && session.id == 1 && session.model.at == Idle && session.pending == Reading
    ensures session.cfg == server.Cfg() == old(server.Cfg()) && session.router == server.router
    ensures Stands(session, xs, [])
  {
    hide Good, Replay, Share, Plus, Requests;
    session := server.OnAccept(false);
    PlusZero(ZERO.(sessions := 1));
    NoRequests(xs);
    session.OnDispatch();
  }

  lemma NoRequests(xs: seq<Exchange>)
    ensures Requests(xs[..0]) == []
  {
  }

  /** That connection as a run of the state machine. */
  method ServeFirst(server: HttpServerImpl, xs: seq<Exchange>)
    returns (messages: seq<Message>, ghost run: seq<State>)
    requires server.Valid() && server.accepting && server.lastId == 0 && server.statistics.Value() == ZERO
    modifies server, server.statistics
    ensures Served(old(server.Cfg()), 1, xs, messages) && IsRunOf(old(server.Cfg()), run, xs, messages)
    ensures server.statistics.Value() == Tally(|messages|)
  {
    hide Good, Replay, Served, Tally, IsRun, Share;
    var session := Connect(server, xs);
    messages := ServeAll(session, xs);
    run := SoloRun(session.cfg, session.path, session.model);
  }

  /** A run that ends with one session, these messages written on it, and exactly their counts. */
  ghost predicate IsRunOf(cfg: Config, run: seq<State>, xs: seq<Exchange>, messages: seq<Message>) {
    && IsRun(cfg, run) && |messages| <= |xs|
    && var last := run[|run| - 1];
    && last.stats == Tally(|messages|) && |last.sessions| == 1
    && last.sessions[0].arrived == Requests(xs[..|messages|]) && last.sessions[0].written == messages
  }

  /**
   * From registration to the last response. A server that starts answers the requests of its first
   * connection exactly as the registered routes and the options determine, and what it did is a run
   * of the state machine with these messages and counters.
   */
  method ServeConnection(options: Options, ops: seq<Registration<nat>>, system: Outcomes, xs: seq<Exchange>)
    returns (error: Option<string>, messages: seq<Message>, ghost run: seq<State>)
    ensures error == StartError(options, false, system)
    ensures error == None <==> Usable(options) && system == Outcomes(None, None, None)
    ensures error == None ==>
        var cfg := Config(options, RegisterAll(ops));
        Served(cfg, 1, xs, messages) && IsRunOf(cfg, run, xs, messages)
  {
    hide Served, IsRunOf;
    messages, run := [], [];
    var server := Prepare(options, ops);
    error := server.Run(system);
    if error.None? {
      messages, run := ServeFirst(server, xs);
    }
  }
}
