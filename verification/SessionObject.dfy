/**
 * The session as an object: the callbacks of one connection as they update the stored request,
 * the stored response, the request number and the shared counters. Beside its fields the object
 * carries the steps it has taken so far; they are always a legal sequence of the state machine of
 * module Session, and each callback adds to the counters exactly what its steps add.
 */
module SessionObject {
  import opened Text
  import opened Http
  import opened Session
  import opened Server
  import opened Steps
  import PathTrie
  import Url

  class Statistics {
    var sessions: int
    var readTimeout: int
    var readSuccess: int
    var readFail: int
    var writeTimeout: int
    var writeSuccess: int
    var writeFail: int
    var handled: int
    var working: int

    ghost function Value(): Stats
      reads this
    {
      Stats(sessions, readTimeout, readSuccess, readFail, writeTimeout, writeSuccess, writeFail, handled, working)
    }

    constructor ()
      ensures Value() == ZERO
    {
      sessions, readTimeout, readSuccess, readFail := 0, 0, 0, 0;
      writeTimeout, writeSuccess, writeFail, handled, working := 0, 0, 0, 0, 0;
    }

    /** A new run of the server starts counting from 0. */
    method ResetAll()
      modifies this
      ensures Value() == ZERO
    {
      sessions := 0;
      readTimeout := 0;
      handled := 0;
      readFail := 0;
      readSuccess := 0;
      writeTimeout := 0;
      writeFail := 0;
      writeSuccess := 0;
      working := 0;
    }
  }

  /** Copies header fields or parameters into a table, one after the other. */
  method CopyPairs(pairs: seq<(string, string)>) returns (table: map<string, string>)
    ensures table == LastWins(pairs)
  {
    table := map[];
    for k := 0 to |pairs|
      invariant table == LastWins(pairs[..k])
    {
      assert pairs[..k + 1][..k] == pairs[..k];
      table := table[pairs[k].0 := pairs[k].1];
    }
    assert pairs[..|pairs|] == pairs;
  }

  /** Sets the reply's own header fields on a response, one after the other. */
  method SetFields(fields: map<string, string>, pairs: Fields) returns (result: map<string, string>)
    ensures result == SetAll(fields, pairs)
  {
    result := fields;
    for k := 0 to |pairs|
      invariant result == SetAll(fields, pairs[..k])
    {
      assert pairs[..k + 1][..k] == pairs[..k];
      result := result[Lower(pairs[k].0) := pairs[k].1];
    }
    assert pairs[..|pairs|] == pairs;
  }

  lemma Beginning(cfg: Config, id: nat)
    ensures
      var s := NewSession(id).(at := Counted);
      && Good(cfg, s) && Replay(cfg, NewSession(id), [CountSession]) == Some(s)
      && Share(s) == ZERO.(sessions := 1)
  {
    hide Good, Replay, Added, Share, Plus;
    NewSessionIsGood(cfg, id);
    NewSessionCountsNothing(id);
    var s := NewSession(id).(at := Counted);
    OneStep(cfg, NewSession(id), CountSession, s, ZERO.(sessions := 1));
    LeadsKeepsGood(cfg, NewSession(id), [CountSession], s, ZERO.(sessions := 1));
    PlusZero(ZERO.(sessions := 1));
  }

  /** What a request is answered with, if anything yet: its refusal, or what its handler sent. */
  function ReplyTo(d: Decision, answer: Option<Reply>): Option<Reply> {
    if d.Refuse? then Some(RefusalReply(d.text)) else answer
  }

  class HttpSession {
    const options: Options
    /** The options together with the routes the router holds. */
    ghost const cfg: Config
    const id: nat
    const router: PathTrie.Router<nat>
    const statistics: Statistics
    var requestId: nat
    var request: RawRequest
    var response: Message
    var pending: Pending
    ghost var model: Session
    ghost var path: seq<Event>

    ghost predicate Legal()
      reads this
    {
      Good(cfg, model) && Replay(cfg, NewSession(id), path) == Some(model)
    }

    ghost predicate Valid()
      reads this
    {
      && Legal() && cfg.options == options
      && model.id == id && model.requestId == requestId
      && model.request == request && model.response == response && model.pending == pending
    }

    /** The shared counters grew by `c`, and so did this session's share of them. */
    twostate predicate Counts(c: Stats)
      reads this, statistics
    {
      && statistics.Value() == Plus(old(statistics.Value()), c)
      && Share(model) == Plus(Share(old(model)), c)
    }

    /** `id` is what the session id generator gave out. */
    constructor (options: Options, id: nat, router: PathTrie.Router<nat>, statistics: Statistics)
      requires router.Valid()
      modifies statistics
      ensures Valid() && path == [CountSession] && model == NewSession(id).(at := Counted)
      ensures cfg == Config(options, router.Content())
      ensures this.options == options && this.id == id && this.router == router && this.statistics == statistics
      ensures statistics.Value() == Plus(old(statistics.Value()), ZERO.(sessions := 1))
      ensures Share(model) == ZERO.(sessions := 1)
    {
      hide Good, Replay, Share;
      this.options, this.id, this.router, this.statistics := options, id, router, statistics;
      cfg := Config(options, router.Content());
      requestId := 0;
      request, response := NewSession(id).request, NewSession(id).response;
      pending := NoOperation;
      model, path := NewSession(id).(at := Counted), [CountSession];
      new;
      statistics.sessions := statistics.sessions + 1;
      Beginning(cfg, id);
    }

    /** Records the steps that the statements around the call amount to. */
    ghost method Took(es: seq<Event>, t: Session, c: Stats)
      requires Legal() && Leads(cfg, model, es, t, c)
      modifies this`model, this`path
      ensures Legal() && model == t && path == old(path) + es
      ensures Share(model) == Plus(Share(old(model)), c)
    {
      hide Good, Replay, Added, Plus, Share;
      LeadsKeepsGood(cfg, model, es, t, c);
      LeadsOn(cfg, NewSession(id), path, model, Added(cfg, NewSession(id), path), es, t, c);
      model, path := t, path + es;
    }

    /** The response is built on top of what is stored, against the stored request. */
    method BuildResponse(reply: Reply)
      requires cfg.options == options
      modifies this`response
      ensures response == Fill(cfg, request, old(response), reply)
    {
      hide KeepAlive, RequestKeepAlive, AcceptsGzip, SetAll, SetKeepAlive;
      var fields := response.fields;
      if reply.disableKeepAlive {
        fields := SetKeepAlive(fields, false);
      } else {
        fields := SetKeepAlive(fields, RequestKeepAlive(request));
      }
      fields := fields["content-type" := reply.contentType];
      fields := SetFields(fields, reply.headers);
      var body := reply.body;
      if reply.forceGzip {
        fields := fields["content-encoding" := "gzip"];
        body := options.compress(reply.level, body);
      } else if |body| > 500 && options.autoGzip && AcceptsGzip(request) {
        fields := fields["content-encoding" := "gzip"];
        body := options.compress(reply.level, body);
      }
      var stored := response.body;
      if |body| > 0 {
        if request.verb != VERB_HEAD {
          stored := stored + body;
        }
        fields := fields["content-length" := Decimal(|stored|)];
      }
      response := Message(reply.status, fields, stored);
    }

    /** Numbers the next request and starts reading it. */
    method DoRead()
      modifies this`requestId, this`pending
      ensures requestId == old(requestId) + 1 && pending == Reading
    {
      requestId := requestId + 1;
      pending := Reading;
    }

    /** Starts writing the stored response, remembering whether it keeps the connection. */
    method DoWrite()
      modifies this`pending
      ensures pending == Writing(KeepAlive(response))
    {
      pending := Writing(KeepAlive(response));
    }

    method WriteResponse(reply: Reply)
      requires cfg.options == options
      modifies this`response, this`pending
      ensures response == Fill(cfg, request, old(response), reply)
      ensures pending == Writing(KeepAlive(response))
    {
      hide Fill, KeepAlive;
      BuildResponse(reply);
      DoWrite();
    }

    /** Schedules the first read on the session's strand. */
    method Run()
      requires Valid() && model.at == Counted
      modifies this
      ensures Valid() && path == old(path) + [PostFirstRead] && Share(model) == Share(old(model))
      ensures model == old(model).(at := Idle, pending := Dispatched)
    {
      hide Good, Replay, Leads, Share;
      OneStep(cfg, model, PostFirstRead, model.(at := Idle, pending := Dispatched), ZERO);
      pending := Dispatched;
      Took([PostFirstRead], model.(at := Idle, pending := Dispatched), ZERO);
    }

    /** The first read, once the strand gets to it. */
    method OnDispatch()
      requires Valid() && model.at == Idle && pending == Dispatched
      modifies this
      ensures Valid() && path == old(path) + [FirstRead] && model == StartRead(old(model))
      ensures Share(model) == Share(old(model))
    {
      hide Good, Replay, Leads, Share;
      OneStep(cfg, model, FirstRead, StartRead(model), ZERO);
      DoRead();
      Took([FirstRead], StartRead(model), ZERO);
    }

    /**
     * Where a request leaves the session: its one message is stored and being written, or its
     * handler holds the writer and nothing is under way.
     */
    ghost predicate Settled(raw: RawRequest, reply: Option<Reply>)
      reads this
    {
      match reply
      case Some(r) => response == Compose(cfg, raw, r) && pending == Writing(KeepAlive(response))
      case None => Clean(response) && pending == NoOperation && model.writer == Held
    }

    /** A reply that reaches the session through its writer, from whatever thread. */
    method Send(reply: Reply)
      requires Valid() && model.writer == Held
      modifies this
      ensures Valid() && path == old(path) + ([Event.Send(reply), BuildReply] + [WriteReply])
      ensures Share(model) == Share(old(model))
      ensures |model.arrived| == requestId == old(requestId) >= 1
      ensures Settled(model.arrived[requestId - 1], Some(reply))
      ensures model == Answering(cfg, old(model), reply).(
          writer := NoWriter, spentWriters := old(model).spentWriters + 1)
    {
      hide Good, Replay, Leads, Fill, KeepAlive, Share, Compose;
      SendSteps(cfg, model, reply);
      WriterSeesItsRequest(cfg, model);
      FillIsCompose(cfg, model.arrived[requestId - 1], request, response, reply);
      WriteResponse(reply);
      Took([Event.Send(reply), BuildReply] + [WriteReply],
           Answering(cfg, model, reply).(writer := NoWriter, spentWriters := model.spentWriters + 1), ZERO);
    }

    /** Parses the target, finds the handler and checks the method, in that order. */
    method Examine() returns (d: Decision)
      requires cfg.options == options
      requires router.Valid() && router.Content() == cfg.routes
      ensures d == Decide(cfg, request, id, requestId)
    {
      var target := request.target;
      if request.verb == VERB_GET && '|' in target {
        target := Url.Rewrite(target);
      }
      var url := Url.ParseOriginForm(target, false);
      if url.None? {
        return Refuse("url invalid");
      }
      var handler := router.SearchSegments(url.value.segments);
      if handler.None? {
        return Refuse("current url not support");
      }
      if request.verb > VERB_PUT {
        return Refuse("current method not support");
      }
      var headers := CopyPairs(request.fields);
      var params: map<string, string>;
      if options.autoDecode {
        params := CopyPairs(url.value.params);
      } else {
        params := CopyPairs(url.value.encodedParams);
      }
      d := Deliver(
        HttpRequest(id, requestId, request.verb, headers, url.value.segments, params, request.body), handler.value);
    }

    /** A refused request is counted, answered, and only then loses its body. */
    method RefuseRequest(text: string)
      requires Valid() && model.at == Process && Decide(cfg, request, id, requestId) == Refuse(text)
      modifies this, statistics
      ensures Valid() && path == old(path) + REFUSAL_EVENTS
      ensures model == Answering(cfg, old(model), RefusalReply(text)).(
          at := Idle, decisions := old(model).decisions + [Refuse(text)], request := old(model).request.Head())
      ensures Counts(ZERO.(handled := 1))
    {
      hide Good, Replay, Leads, Fill, KeepAlive, Decide, Share;
      RefusalSteps(cfg, model, text);
      statistics.handled := statistics.handled + 1;
      WriteResponse(RefusalReply(text));
      request := request.Head();
      Took(REFUSAL_EVENTS,
           Answering(cfg, model, RefusalReply(text)).(
             at := Idle, decisions := model.decisions + [Refuse(text)], request := model.request.Head()),
           ZERO.(handled := 1));
    }

    /** Hands the request over: from here on its handler holds the writer. */
    method CallHandler(d: Decision)
      requires Valid() && model.at == Process && Decide(cfg, request, id, requestId) == d && d.Deliver?
      modifies this, statistics
      ensures Valid() && path == old(path) + ([Classify, EnterHandler] + [Invoke])
      ensures model == old(model).(
          at := InHandler, decisions := old(model).decisions + [d],
          request := old(model).request.Head(), writer := Held)
      ensures Counts(ZERO.(working := 1))
    {
      hide Good, Replay, Leads, Fill, KeepAlive, Decide, Share;
      CallSteps(cfg, model, d);
      request := request.Head();
      statistics.working := statistics.working + 1;
      Took([Classify, EnterHandler] + [Invoke],
           model.(at := InHandler, decisions := model.decisions + [d], request := model.request.Head(), writer := Held),
           ZERO.(working := 1));
    }

    method HandlerReturned()
      requires Valid() && model.at == InHandler
      modifies this, statistics
      ensures Valid() && path == old(path) + [LeaveHandler, CountHandled] && model == old(model).(at := Idle)
      ensures Counts(ZERO.(working := -1, handled := 1))
    {
      hide Good, Replay, Leads, Share;
      ReturnSteps(cfg, model);
      statistics.working := statistics.working - 1;
      statistics.handled := statistics.handled + 1;
      Took([LeaveHandler, CountHandled], model.(at := Idle), ZERO.(working := -1, handled := 1));
    }

    /** The handler is called, may answer before it returns, and returns. */
    method HandOver(d: Decision, answer: Option<Reply>)
      requires Valid() && model.at == Process && Decide(cfg, request, id, requestId) == d && d.Deliver?
      modifies this, statistics
      ensures Valid() && model.at == Idle && path == old(path) + ProcessEvents(d, answer)
      ensures requestId == old(requestId) && model.arrived == old(model.arrived)
      ensures Settled(old(request), answer)
      ensures model.written == old(model.written) + if answer.Some? then [response] else []
      ensures Counts(ZERO.(handled := 1))
    {
      hide Good, Replay, Leads, Fill, KeepAlive, Decide, Compose, Share;
      NothingIsUnderWay(cfg, model);
      CallHandler(d);
      if answer.Some? {
        FillIsCompose(cfg, old(request), request, response, answer.value);
        Send(answer.value);
      }
      HandlerReturned();
    }

    /**
     * A read request is refused and answered, or given to its handler. The handler may answer
     * before it returns (`answer`) or keep the writer.
     */
    method ProcessRequest(answer: Option<Reply>)
      requires Valid() && model.at == Process
      requires router.Valid() && router.Content() == cfg.routes
      modifies this, statistics
      ensures Valid() && model.at == Idle
      ensures requestId == old(requestId) && model.arrived == old(model.arrived)
      ensures
        var d := Decide(cfg, old(request), id, requestId);
        && path == old(path) + ProcessEvents(d, answer)
        && Settled(old(request), ReplyTo(d, answer))
        && model.written == old(model.written) + if ReplyTo(d, answer).Some? then [response] else []
      ensures Counts(ZERO.(handled := 1))
    {
      hide Good, Replay, Leads, Fill, KeepAlive, Decide, Compose, Share, Plus;
      NothingIsUnderWay(cfg, model);
      var d := Examine();
      if d.Refuse? {
        FillIsCompose(cfg, request, request, response, RefusalReply(d.text));
        RefuseRequest(d.text);
      } else {
        HandOver(d, answer);
      }
    }

    /** The session's callback for a finished read. */
    method OnRead(outcome: ReadOutcome, answer: Option<Reply>)
      requires Valid() && model.at == Idle && pending == Reading
      requires router.Valid() && router.Content() == cfg.routes
      modifies this, statistics
      ensures Valid() && model.at == Idle
      ensures outcome.ReadEnded? ==>
          && path == old(path) + [ReadDone(outcome), CountReadEnd]
          && model.fate == (match outcome.why
                            case Eos => ClosedAtEnd
                            case ReadLate => ReadTimedOut
                            case ReadBroken => ReadFailed)
          && Counts(match outcome.why
                    case Eos => ZERO
                    case ReadLate => ZERO.(readTimeout := 1)
                    case ReadBroken => ZERO.(readFail := 1))
      ensures outcome.Received? ==>
          var d := Decide(cfg, outcome.raw, id, requestId);
          && path == old(path) + [ReadDone(outcome), CountRead] + ProcessEvents(d, answer)
          && requestId == old(requestId) && model.arrived == old(model.arrived) + [outcome.raw]
          && Settled(outcome.raw, ReplyTo(d, answer))
          && model.written == old(model.written) + (if ReplyTo(d, answer).Some? then [response] else [])
          && Counts(ZERO.(readSuccess := 1, handled := 1))
    {
      hide Good, Replay, Leads, Fill, KeepAlive, Decide, ProcessEvents, Settled, Share;
      match outcome {
        case ReadEnded(why, partial) => ReadStopped(why, partial);
        case Received(raw) =>
          ReadSucceeded(raw);
          ProcessRequest(answer);
      }
    }

    /** The stored request becomes the one that arrived, exactly: nothing is left of an earlier body. */
    method ReadSucceeded(raw: RawRequest)
      requires Valid() && model.at == Idle && pending == Reading
      modifies this, statistics
      ensures Valid() && model.at == Process && request == raw && requestId == old(requestId)
      ensures model.arrived == old(model.arrived) + [raw] && model.written == old(model.written)
      ensures path == old(path) + [ReadDone(Received(raw)), CountRead]
      ensures Counts(ZERO.(readSuccess := 1))
    {
      hide Good, Replay, Leads, Share;
      StoredBodyIsEmpty(cfg, model);
      ReceivedSteps(cfg, model, raw);
      request := Receive(request, raw);
      pending := NoOperation;
      statistics.readSuccess := statistics.readSuccess + 1;
      Took([ReadDone(Received(raw)), CountRead], Holding(model, raw), ZERO.(readSuccess := 1));
    }

    method ReadStopped(why: ReadEnd, partial: RawRequest)
      requires Valid() && model.at == Idle && pending == Reading
      modifies this, statistics
      ensures Valid() && model.at == Idle && model.fate == ReadFate(why)
      ensures path == old(path) + [ReadDone(ReadEnded(why, partial)), CountReadEnd]
      ensures Counts(ReadEndCount(why))
    {
      hide Good, Replay, Leads, Share;
      ReadEndedSteps(cfg, model, why, partial);
      request := Receive(request, partial);
      pending := NoOperation;
      match why {
        case Eos =>
        case ReadLate => statistics.readTimeout := statistics.readTimeout + 1;
        case ReadBroken => statistics.readFail := statistics.readFail + 1;
      }
      Took([ReadDone(ReadEnded(why, partial)), CountReadEnd],
           model.(pending := NoOperation, request := Receive(model.request, partial), fate := ReadFate(why)),
           ReadEndCount(why));
    }

    method WriteStopped(how: WriteEnd)
      requires Valid() && model.at == Idle && pending.Writing?
      modifies this, statistics
      ensures Valid() && path == old(path) + [WriteDone(WriteEnded(how)), CountWriteEnd]
      ensures model == old(model).(pending := NoOperation, fate := WriteFate(how))
      ensures Counts(if how == WriteLate then ZERO.(writeTimeout := 1) else ZERO.(writeFail := 1))
    {
      hide Good, Replay, Leads, Share;
      WriteEndedSteps(cfg, model, how);
      pending := NoOperation;
      if how == WriteLate {
        statistics.writeTimeout := statistics.writeTimeout + 1;
      } else {
        statistics.writeFail := statistics.writeFail + 1;
      }
      Took([WriteDone(WriteEnded(how)), CountWriteEnd], model.(pending := NoOperation, fate := WriteFate(how)),
           if how == WriteLate then ZERO.(writeTimeout := 1) else ZERO.(writeFail := 1));
    }

    method LastWritten()
      requires Valid() && model.at == Idle && pending == Writing(false)
      modifies this, statistics
      ensures Valid() && path == old(path) + [WriteDone(Written), CountLastWrite]
      ensures model == old(model).(pending := NoOperation, fate := ClosedAfterReply)
      ensures Counts(ZERO.(writeSuccess := 1))
    {
      hide Good, Replay, Leads, Share;
      LastWriteSteps(cfg, model);
      pending := NoOperation;
      statistics.writeSuccess := statistics.writeSuccess + 1;
      Took([WriteDone(Written), CountLastWrite],
           model.(pending := NoOperation, fate := ClosedAfterReply), ZERO.(writeSuccess := 1));
    }

    method WrittenAndKept()
      requires Valid() && model.at == Idle && pending == Writing(true)
      modifies this, statistics
      ensures Valid() && path == old(path) + ([WriteDone(Written), ClearResponse] + [CountWrite, NextRead])
      ensures model == old(model).(
          pending := Reading, requestId := old(requestId) + 1, response := Emptied(old(response)))
      ensures Counts(ZERO.(writeSuccess := 1))
    {
      hide Good, Replay, Leads, Share, Emptied;
      KeptWriteSteps(cfg, model);
      response := Emptied(response);
      statistics.writeSuccess := statistics.writeSuccess + 1;
      DoRead();
      Took([WriteDone(Written), ClearResponse] + [CountWrite, NextRead],
           model.(pending := Reading, requestId := requestId, response := response), ZERO.(writeSuccess := 1));
    }

    /**
     * The session's callback for a finished write: another read exactly after a message that was
     * written and keeps the connection, and the end of the session in every other case.
     */
    method OnWrite(outcome: WriteOutcome)
      requires Valid() && model.at == Idle && pending.Writing?
      modifies this, statistics
      ensures Valid() && model.at == Idle && path == old(path) + WriteEvents(old(pending), outcome)
      ensures model.arrived == old(model.arrived) && model.written == old(model.written)
      ensures
        if outcome == Written && old(pending).keepAlive then
          pending == Reading && requestId == old(requestId) + 1 && Clean(response) && model.fate == old(model.fate)
        else
          && pending == NoOperation && requestId == old(requestId)
          && model.fate == (match outcome
                            case Written => ClosedAfterReply
                            case WriteEnded(WriteLate) => WriteTimedOut
                            case WriteEnded(WriteBroken) => WriteFailed)
      ensures Counts(match outcome
                     case Written => ZERO.(writeSuccess := 1)
                     case WriteEnded(WriteLate) => ZERO.(writeTimeout := 1)
                     case WriteEnded(WriteBroken) => ZERO.(writeFail := 1))
    {
      hide Good, Replay, Leads, Share, Plus;
      match outcome {
        case WriteEnded(how) => WriteStopped(how);
        case Written =>
          if pending.keepAlive {
            WrittenAndKept();
          } else {
            LastWritten();
          }
      }
    }
  }

  /** The steps of a write callback, given what the write was started with and how it ended. */
  function WriteEvents(pending: Pending, outcome: WriteOutcome): seq<Event>
    requires pending.Writing?
  {
    match outcome
    case WriteEnded(how) => [WriteDone(WriteEnded(how)), CountWriteEnd]
    case Written =>
      if pending.keepAlive then [WriteDone(Written), ClearResponse] + [CountWrite, NextRead]
      else [WriteDone(Written), CountLastWrite]
  }

  /** The steps of a request's processing, given the decision and the reply sent by the handler itself. */
  function ProcessEvents(d: Decision, answer: Option<Reply>): seq<Event> {
    if d.Refuse? then REFUSAL_EVENTS
    else
      ([Classify, EnterHandler] + [Invoke])
      + (if answer.Some? then [Event.Send(answer.value), BuildReply] + [WriteReply] else [])
      + [LeaveHandler, CountHandled]
  }

  lemma StoredBodyIsEmpty(cfg: Config, s: Session)
    requires Good(cfg, s) && s.at == Idle && s.pending == Reading
    ensures forall raw :: Receive(s.request, raw) == raw
  {
    hide KeepAlive, Compose, Fill, Decide, Clean, History;
    forall raw ensures Receive(s.request, raw) == raw {
      ReceiveIsExact(s.request, raw);
    }
  }

  lemma NothingIsUnderWay(cfg: Config, s: Session)
    requires Good(cfg, s) && s.at == Process
    ensures Clean(s.response) && s.pending == NoOperation
  {
    hide KeepAlive, Compose, Fill, Decide, History;
  }

  lemma WriterSeesItsRequest(cfg: Config, s: Session)
    requires Good(cfg, s) && s.writer == Held
    ensures s.requestId >= 1 && |s.arrived| == s.requestId && Clean(s.response)
    ensures s.request.Head() == s.arrived[s.requestId - 1].Head()
  {
    hide KeepAlive, Compose, Fill, Decide, History;
  }
}
