/** What holds of every session, and of the shared statistics, in every state of every run. */
module Guarantees {
  import opened Text
  import opened Http
  import opened Session
  import opened Server

  /** The session under discussion: session `i` in state `k` of a run. */
  predicate InRun(run: seq<State>, k: nat, i: nat) {
    k < |run| && i < |run[k].sessions|
  }

  lemma SessionIsGood(cfg: Config, run: seq<State>, k: nat, i: nat)
    requires IsRun(cfg, run) && InRun(run, k, i)
    ensures Good(cfg, run[k].sessions[i]) && run[k].sessions[i].id == i + 1
  {
    hide Good;
    RunsAreSound(cfg, run, k);
  }

  // ---------------------------------------------------------------- one exchange at a time

  /**
   * Reads and writes never overlap, and a new read starts only when every earlier response has been
   * written completely and the stored messages carry nothing over.
   */
  lemma OperationsNeverOverlap(cfg: Config, run: seq<State>, k: nat, i: nat, e: Event)
    requires IsRun(cfg, run) && InRun(run, k, i) && Enabled(run[k].sessions[i], e)
    ensures
      var s := run[k].sessions[i];
      && (e.NextRead? || e.WriteReply? || e.WriteRejection? ==> s.pending == NoOperation)
      && (e.FirstRead? ==> s.pending == Dispatched)
      && (e.FirstRead? || e.NextRead? ==>
           && |s.arrived| == |s.written| == s.requestId == Share(s).writeSuccess
           && s.request.body == "" && Clean(s.response) && s.writer == NoWriter)
  {
    SessionIsGood(cfg, run, k, i);
    hide KeepAlive, Compose, Fill, Decide;
  }

  /** The j-th response answers the j-th request, and depends on nothing else. */
  lemma ResponsesAnswerInOrder(cfg: Config, run: seq<State>, k: nat, i: nat)
    requires IsRun(cfg, run) && InRun(run, k, i)
    ensures
      var s := run[k].sessions[i];
      && |s.replies| == |s.written| <= |s.arrived| <= |s.written| + 1
      && (s.pending == Reading ==> |s.arrived| == |s.written| == s.requestId - 1)
      && (s.pending.Writing? ==> |s.arrived| == |s.written| == s.requestId)
      && forall j :: 0 <= j < |s.written| ==> s.written[j] == Compose(cfg, s.arrived[j], s.replies[j])
  {
    SessionIsGood(cfg, run, k, i);
    hide KeepAlive, Compose, Fill, Decide, Clean;
    var s := run[k].sessions[i];
    forall j | 0 <= j < |s.written| ensures s.written[j] == Compose(cfg, s.arrived[j], s.replies[j]) {
      assert WrittenRight(cfg, s, j);
    }
  }

  /**
   * The stored request holds no body when a read starts or is under way, so what a handler is given
   * is exactly the request that arrived, under the session's id and the next request number; a
   * refused request is answered with its refusal.
   */
  lemma BodiesAreIsolated(cfg: Config, run: seq<State>, k: nat, i: nat)
    requires IsRun(cfg, run) && InRun(run, k, i)
    ensures
      var s := run[k].sessions[i];
      && (s.pending == Dispatched || s.pending == Reading || s.at == Rearm ==> s.request.body == "")
      && |s.replies| == |s.written| <= |s.decisions| <= |s.arrived|
      && (forall j :: 0 <= j < |s.decisions| ==> s.decisions[j] == Decide(cfg, s.arrived[j], i + 1, j + 1))
      && (forall j :: 0 <= j < |s.decisions| && s.decisions[j].Deliver? ==>
           s.decisions[j].request.body == s.arrived[j].body)
      && (forall j :: 0 <= j < |s.written| && s.decisions[j].Refuse? ==>
           s.replies[j] == RefusalReply(s.decisions[j].text))
  {
    SessionIsGood(cfg, run, k, i);
    hide KeepAlive, Compose, Fill, Clean;
    var s := run[k].sessions[i];
    forall j | 0 <= j < |s.decisions|
      ensures s.decisions[j] == Decide(cfg, s.arrived[j], i + 1, j + 1)
      ensures s.decisions[j].Deliver? ==> s.decisions[j].request.body == s.arrived[j].body
    {
      assert DecidedRight(cfg, s, j);
    }
    forall j | 0 <= j < |s.written| && s.decisions[j].Refuse?
      ensures s.replies[j] == RefusalReply(s.decisions[j].text)
    {
      assert WrittenRight(cfg, s, j);
    }
  }

  /** A refused request is answered with status 400 and one of three texts, in plain text. */
  lemma RefusalsAreBadRequests(cfg: Config, run: seq<State>, k: nat, i: nat, j: nat)
    requires IsRun(cfg, run) && InRun(run, k, i)
    requires j < |run[k].sessions[i].written| && j < |run[k].sessions[i].decisions|
    requires run[k].sessions[i].decisions[j].Refuse?
    ensures
      var s := run[k].sessions[i];
      var text := s.decisions[j].text;
      && text in ["url invalid", "current url not support", "current method not support"]
      && j < |s.arrived| && s.written[j].status == 400 && FieldOf(s.written[j], "content-type") == "text/plain"
      && s.written[j].body == (if s.arrived[j].verb == 3 then "" else text)
  {
    hide IsRun, Compose, Decide, RefusalReply;
    BodiesAreIsolated(cfg, run, k, i);
    ResponsesAnswerInOrder(cfg, run, k, i);
    var s := run[k].sessions[i];
    RefusalTexts(cfg, s.arrived[j], i + 1, j + 1);
    RefusalMessage(cfg, s.arrived[j], s.decisions[j].text);
  }

  lemma RefusalTexts(cfg: Config, raw: RawRequest, id: nat, n: nat)
    ensures
      var d := Decide(cfg, raw, id, n);
      d.Refuse? ==> d.text in ["url invalid", "current url not support", "current method not support"]
    ensures Decide(cfg, raw, id, n).Refuse? ==> 0 < |Decide(cfg, raw, id, n).text| <= 500
  {
    hide Decide, IsLastTable;
    DecisionIs(cfg, raw, id, n);
  }

  /** However late a reply is sent, it is built against the request it answers and an empty response. */
  lemma LateRepliesSeeTheirRequest(cfg: Config, run: seq<State>, k: nat, i: nat)
    requires IsRun(cfg, run) && InRun(run, k, i) && run[k].sessions[i].writer != NoWriter
    ensures
      var s := run[k].sessions[i];
      && s.requestId >= 1 && |s.arrived| == s.requestId && s.pending == NoOperation
      && s.request.Head() == s.arrived[s.requestId - 1].Head()
      && (s.writer == Held || s.writer.Sending? ==> Clean(s.response))
      && (s.writer.Sending? ==>
           Apply(cfg, s, BuildReply).response == Compose(cfg, s.arrived[s.requestId - 1], s.writer.reply))
  {
    SessionIsGood(cfg, run, k, i);
    var s := run[k].sessions[i];
    if s.writer.Sending? {
      FillIsCompose(cfg, s.arrived[s.requestId - 1], s.request, s.response, s.writer.reply);
    }
    hide KeepAlive, Compose, Fill, Decide;
  }

  /**
   * From its read until the outcome of its write is counted, the request being answered is the
   * stored one: method, fields and version are never overwritten in between.
   */
  lemma RequestStaysInPlace(cfg: Config, run: seq<State>, k: nat, i: nat)
    requires IsRun(cfg, run) && InRun(run, k, i)
    requires BetweenCounts(run[k].sessions[i]) || ReplyUncounted(run[k].sessions[i])
    ensures
      var s := run[k].sessions[i];
      && s.requestId >= 1 && |s.arrived| == s.requestId
      && s.request.Head() == s.arrived[s.requestId - 1].Head()
  {
    SessionIsGood(cfg, run, k, i);
    hide KeepAlive, Compose, Fill, Decide, Clean;
  }

  // ---------------------------------------------------------------- who may touch what

  /** Parties whose next step touches the stored request: the pending read, the strand, the sender. */
  function RequestUsers(s: Session): int {
    One(s.pending == Reading)
    + One(s.at == Process || s.at.RejectBuild? || s.at == RejectClear || s.at == Rearm)
    + One(s.writer.Sending?)
  }

  function ResponseUsers(s: Session): int {
    One(s.pending.Writing?)
    + One(s.at.RejectBuild? || s.at.RejectWrite? || s.at == OnWriteClear)
    + One(s.writer.Sending? || s.writer.Built?)
  }

  /** Although replies come from any thread, neither stored message ever has two users. */
  lemma NoDataRace(cfg: Config, run: seq<State>, k: nat, i: nat)
    requires IsRun(cfg, run) && InRun(run, k, i)
    ensures RequestUsers(run[k].sessions[i]) <= 1 && ResponseUsers(run[k].sessions[i]) <= 1
  {
    SessionIsGood(cfg, run, k, i);
    hide KeepAlive, Compose, Fill, Decide, Clean;
  }

  // ---------------------------------------------------------------- persistence

  /** A session that went on to another request had a persistent response; one that closed had not. */
  lemma PersistenceIsObeyed(cfg: Config, run: seq<State>, k: nat, i: nat)
    requires IsRun(cfg, run) && InRun(run, k, i)
    ensures
      var s := run[k].sessions[i];
      && (forall j :: 0 <= j < |s.written| && j + 1 < s.requestId ==> KeepAlive(s.written[j]))
      && (s.fate == ClosedAfterReply ==> |s.written| == s.requestId >= 1 && !KeepAlive(s.written[s.requestId - 1]))
  {
    SessionIsGood(cfg, run, k, i);
    hide KeepAlive, Compose, Fill, Decide, Clean;
  }

  /** The rest of the callback for a successful write that keeps the connection. */
  ghost function GoesOn(cfg: Config, s: Session): Session
    requires s.at == OnWriteClear
  {
    var cleared := Apply(cfg, s, ClearResponse);
    var counted := Apply(cfg, cleared, CountWrite);
    Apply(cfg, counted, NextRead)
  }

  /** The only way on from a successful write. */
  ghost predicate GoesOnOrCloses(cfg: Config, s: Session)
    requires s.at == Idle && s.pending.Writing?
  {
    var t := Apply(cfg, s, WriteDone(Written));
    && |s.written| == s.requestId >= 1
    && (if KeepAlive(s.written[s.requestId - 1]) then
          t.at == OnWriteClear && GoesOn(cfg, t).pending == Reading && GoesOn(cfg, t).requestId == s.requestId + 1
        else
          t.at == OnWriteClose && Apply(cfg, t, CountLastWrite).fate == ClosedAfterReply)
  }

  /**
   * A completed write goes on to read the next request exactly when the message as finally built
   * keeps the connection; otherwise it closes.
   */
  lemma ReadsAgainIffKeepAlive(cfg: Config, run: seq<State>, k: nat, i: nat)
    requires IsRun(cfg, run) && InRun(run, k, i)
    requires run[k].sessions[i].at == Idle && run[k].sessions[i].pending.Writing?
    ensures GoesOnOrCloses(cfg, run[k].sessions[i])
  {
    hide Good, GoesOnOrCloses;
    SessionIsGood(cfg, run, k, i);
    PendingWriteGoesOn(cfg, run[k].sessions[i]);
  }

  lemma PendingWriteGoesOn(cfg: Config, s: Session)
    requires Good(cfg, s) && s.at == Idle && s.pending.Writing?
    ensures GoesOnOrCloses(cfg, s)
  {
    hide KeepAlive, Compose, Fill, Decide, Clean, Good;
    PendingWriteKnowsItsMessage(cfg, s);
  }

  lemma PendingWriteKnowsItsMessage(cfg: Config, s: Session)
    requires Good(cfg, s) && s.at == Idle && s.pending.Writing?
    ensures |s.written| == s.requestId >= 1 && s.pending.keepAlive == KeepAlive(s.written[s.requestId - 1])
  {
    hide KeepAlive, Compose, Fill, Decide, Clean;
  }

  // ---------------------------------------------------------------- the end of a session

  /** All that a session which has ended can still do is to be released. */
  predicate WindsUp(e: Event) {
    e.ReleaseWriter? || e.Destroy? || e.UncountSession?
  }

  /** Nothing more was read, decided or written, and the outcome stands. */
  predicate SameRecord(s: Session, t: Session) {
    && t.fate == s.fate && t.requestId == s.requestId && t.pending == s.pending
    && t.arrived == s.arrived && t.decisions == s.decisions && t.replies == s.replies && t.written == s.written
  }

  lemma EndedOnlyWindsUp(cfg: Config, s: Session, e: Event)
    requires Good(cfg, s) && s.fate != Going && Enabled(s, e)
    ensures WindsUp(e) && SameRecord(s, Apply(cfg, s, e))
  {
    hide KeepAlive, Compose, Fill, Decide, Clean;
  }

  lemma NextKeepsEnded(cfg: Config, g: State, h: State, i: nat)
    requires Sound(cfg, g) && Next(cfg, g, h) && i < |g.sessions| && g.sessions[i].fate != Going
    ensures i < |h.sessions| && SameRecord(g.sessions[i], h.sessions[i])
  {
    hide Good, Effect, Plus, Enabled, Apply;
    if !AcceptStep(cfg, g, h) {
      var j: nat, e :| SessionStep(cfg, g, j, e, h);
      if j == i {
        EndedOnlyWindsUp(cfg, g.sessions[i], e);
      }
    }
  }

  /**
   * Once a session has ended, whether by the peer, a timeout, a failure or a last response, it
   * never again starts or completes an operation, in whatever way the run goes on.
   */
  lemma {:induction false} EndedStaysEnded(cfg: Config, run: seq<State>, j: nat, k: nat, i: nat)
    requires IsRun(cfg, run) && j <= k < |run| && InRun(run, j, i) && run[j].sessions[i].fate != Going
    ensures InRun(run, k, i) && SameRecord(run[j].sessions[i], run[k].sessions[i])
    ensures run[k].sessions[i].pending == NoOperation && run[k].sessions[i].writer == NoWriter
    decreases k - j
  {
    hide Sound, Next, Good;
    if j < k {
      EndedStaysEnded(cfg, run, j, k - 1, i);
      RunsAreSound(cfg, run, k - 1);
      assert Next(cfg, run[k - 1], run[k - 1 + 1]);
      NextKeepsEnded(cfg, run[k - 1], run[k], i);
    }
    SessionIsGood(cfg, run, k, i);
    EndedRunsNothing(cfg, run[k].sessions[i]);
  }

  lemma EndedRunsNothing(cfg: Config, s: Session)
    requires Good(cfg, s) && s.fate != Going
    ensures s.pending == NoOperation && s.writer == NoWriter
  {
    hide KeepAlive, Compose, Fill, Decide, Clean;
  }

  // ---------------------------------------------------------------- identity

  /** No two requests handed to handlers carry the same pair of session id and request id. */
  lemma IdsNeverRepeat(cfg: Config, run: seq<State>, k: nat, i1: nat, j1: nat, i2: nat, j2: nat)
    requires IsRun(cfg, run) && InRun(run, k, i1) && InRun(run, k, i2)
    requires j1 < |run[k].sessions[i1].decisions| && run[k].sessions[i1].decisions[j1].Deliver?
    requires j2 < |run[k].sessions[i2].decisions| && run[k].sessions[i2].decisions[j2].Deliver?
    ensures
      var r1 := run[k].sessions[i1].decisions[j1].request;
      var r2 := run[k].sessions[i2].decisions[j2].request;
      && r1.sessionId == i1 + 1 && r1.requestId == j1 + 1
      && (r1.sessionId == r2.sessionId && r1.requestId == r2.requestId ==> i1 == i2 && j1 == j2)
  {
    hide Decide, Good, IsRun;
    DeliveryIds(cfg, run, k, i1, j1);
    DeliveryIds(cfg, run, k, i2, j2);
  }

  lemma DeliveryIds(cfg: Config, run: seq<State>, k: nat, i: nat, j: nat)
    requires IsRun(cfg, run) && InRun(run, k, i)
    requires j < |run[k].sessions[i].decisions| && run[k].sessions[i].decisions[j].Deliver?
    ensures
      var r := run[k].sessions[i].decisions[j].request;
      r.sessionId == i + 1 && r.requestId == j + 1
  {
    hide Decide, Good, IsRun;
    BodiesAreIsolated(cfg, run, k, i);
    DeliveryCarriesIds(cfg, run[k].sessions[i].arrived[j], i + 1, j + 1);
  }

  lemma DeliveryCarriesIds(cfg: Config, raw: RawRequest, id: nat, n: nat)
    ensures var d := Decide(cfg, raw, id, n); d.Deliver? ==> d.request.sessionId == id && d.request.requestId == n
  {
  }

  // ---------------------------------------------------------------- statistics

  function SumIds(ss: seq<Session>): nat {
    if ss == [] then 0 else SumIds(ss[..|ss| - 1]) + ss[|ss| - 1].requestId
  }

  predicate HasRead(s: Session) { s.requestId >= 1 }
  predicate ReadUncounted(s: Session) { PhaseOf(s) == InRead && s.fate == Going }
  predicate EndedAtEos(s: Session) { s.fate == ClosedAtEnd }
  predicate EndedAfterReply(s: Session) { s.fate == ClosedAfterReply }
  predicate BeforeNextRead(s: Session) { s.at == Rearm }
  predicate ReadWasLate(s: Session) { s.fate == ReadTimedOut }
  predicate ReadWasBroken(s: Session) { s.fate == ReadFailed }
  predicate WriteWasLate(s: Session) { s.fate == WriteTimedOut }
  predicate WriteWasBroken(s: Session) { s.fate == WriteFailed }

  ghost predicate AllGood(cfg: Config, ss: seq<Session>) {
    forall i :: 0 <= i < |ss| ==> Good(cfg, ss[i])
  }

  /** One session's share obeys the balance laws. */
  lemma ShareBalances(cfg: Config, s: Session)
    requires Shape(cfg, s)
    ensures
      var c := Share(s);
      && c.readSuccess == c.handled + One(BetweenCounts(s))
      && c.handled == c.writeSuccess + c.writeTimeout + c.writeFail + One(ReplyUncounted(s))
      && c.sessions == One(IsCounted(s)) && c.working == One(CallsHandler(s))
      && s.requestId == c.readSuccess + c.readTimeout + c.readFail + One(EndedAtEos(s)) + One(ReadUncounted(s))
      && s.requestId == One(HasRead(s)) + c.writeSuccess - One(EndedAfterReply(s)) - One(BeforeNextRead(s))
  {
    hide KeepAlive, Compose, Fill, Decide, Clean;
  }

  lemma ShareCountsEnds(s: Session)
    ensures
      var c := Share(s);
      && c.readTimeout == One(ReadWasLate(s)) && c.readFail == One(ReadWasBroken(s))
      && c.writeTimeout == One(WriteWasLate(s)) && c.writeFail == One(WriteWasBroken(s))
  {
    hide PhaseOf;
  }

  /** Counts and gauges against the sessions that explain the differences. */
  ghost predicate CountersBalance(ss: seq<Session>, c: Stats) {
    && c.readSuccess == c.handled + CountIf(ss, BetweenCounts)
    && c.handled == c.writeSuccess + c.writeTimeout + c.writeFail + CountIf(ss, ReplyUncounted)
    && c.sessions == CountIf(ss, IsCounted) && c.working == CountIf(ss, CallsHandler)
  }

  /** Request numbers against the outcomes of reads, and against first reads and persistent responses. */
  ghost predicate RequestsBalance(ss: seq<Session>, c: Stats) {
    && SumIds(ss) == c.readSuccess + c.readTimeout + c.readFail + CountIf(ss, EndedAtEos) + CountIf(ss, ReadUncounted)
    && SumIds(ss) == CountIf(ss, HasRead) + c.writeSuccess - CountIf(ss, EndedAfterReply) - CountIf(ss, BeforeNextRead)
  }

  /** Timeouts and failures against the sessions they ended. */
  ghost predicate EndsBalance(ss: seq<Session>, c: Stats) {
    && c.readTimeout == CountIf(ss, ReadWasLate) && c.readFail == CountIf(ss, ReadWasBroken)
    && c.writeTimeout == CountIf(ss, WriteWasLate) && c.writeFail == CountIf(ss, WriteWasBroken)
  }

  lemma {:induction false} TotalEndsBalance(ss: seq<Session>)
    ensures EndsBalance(ss, Total(ss))
    decreases |ss|
  {
    hide Share, ReadWasLate, ReadWasBroken, WriteWasLate, WriteWasBroken;
    if ss != [] {
      var n := |ss| - 1;
      TotalEndsBalance(ss[..n]);
      ShareCountsEnds(ss[n]);
    }
  }

  lemma {:induction false} TotalCountersBalance(cfg: Config, ss: seq<Session>)
    requires AllGood(cfg, ss)
    ensures CountersBalance(ss, Total(ss))
    decreases |ss|
  {
    hide Good, Share, BetweenCounts, ReplyUncounted, IsCounted, CallsHandler;
    if ss != [] {
      var n := |ss| - 1;
      TotalCountersBalance(cfg, ss[..n]);
      GoodHasShape(cfg, ss[n]);
      ShareBalances(cfg, ss[n]);
    }
  }

  lemma {:induction false} TotalRequestsBalance(cfg: Config, ss: seq<Session>)
    requires AllGood(cfg, ss)
    ensures RequestsBalance(ss, Total(ss))
    decreases |ss|
  {
    hide Good, Share, EndedAtEos, ReadUncounted, HasRead, EndedAfterReply, BeforeNextRead;
    if ss != [] {
      var n := |ss| - 1;
      TotalRequestsBalance(cfg, ss[..n]);
      GoodHasShape(cfg, ss[n]);
      ShareBalances(cfg, ss[n]);
    }
  }

  /**
   * In every reachable state: every successful read is counted as handled or is a session between
   * those two counts; every handled request is counted as written, timed out or failed, or is a
   * session whose reply is outstanding; timeouts and failures are the sessions they ended; the gauges
   * are exact; and request numbers add up both to
   * the outcomes of reads and to first reads plus persistent responses.
   */
  lemma StatisticsBalance(cfg: Config, run: seq<State>, k: nat)
    requires IsRun(cfg, run) && k < |run|
    ensures CountersBalance(run[k].sessions, run[k].stats) && RequestsBalance(run[k].sessions, run[k].stats)
    ensures EndsBalance(run[k].sessions, run[k].stats)
    ensures
      var c := run[k].stats;
      c.writeSuccess + c.writeTimeout + c.writeFail <= c.handled <= c.readSuccess
  {
    hide Good, Total;
    RunsAreSound(cfg, run, k);
    assert AllGood(cfg, run[k].sessions);
    TotalCountersBalance(cfg, run[k].sessions);
    TotalRequestsBalance(cfg, run[k].sessions);
    TotalEndsBalance(run[k].sessions);
  }

  lemma {:induction false} CountMonotone(ss: seq<Session>, p: Session -> bool, q: Session -> bool)
    requires forall s :: p(s) ==> q(s)
    ensures CountIf(ss, p) <= CountIf(ss, q)
    decreases |ss|
  {
    if ss != [] {
      CountMonotone(ss[..|ss| - 1], p, q);
    }
  }

  /** The handler gauge is the number of callbacks inside a handler and fits the io threads. */
  lemma HandlersFitThreads(cfg: Config, run: seq<State>, k: nat)
    requires IsRun(cfg, run) && k < |run|
    ensures run[k].stats.working == CountIf(run[k].sessions, CallsHandler) <= cfg.options.threads
  {
    hide RequestsBalance, EndsBalance;
    StatisticsBalance(cfg, run, k);
    RunsAreSound(cfg, run, k);
    CountMonotone(run[k].sessions, CallsHandler, Busy);
  }

  // ---------------------------------------------------------------- the observer

  /** A step only moves a gauge down; every other counter stays or grows. */
  lemma NextGrows(cfg: Config, g: State, h: State)
    requires Next(cfg, g, h)
    ensures g.stats.handled <= h.stats.handled && g.stats.readSuccess <= h.stats.readSuccess
    ensures g.stats.writeTimeout <= h.stats.writeTimeout && g.stats.writeSuccess <= h.stats.writeSuccess
    ensures g.stats.writeFail <= h.stats.writeFail
  {
    hide Apply;
    if !AcceptStep(cfg, g, h) {
      var i: nat, e :| SessionStep(cfg, g, i, e, h);
    }
  }

  lemma {:induction false} RunGrows(cfg: Config, run: seq<State>, j: nat, k: nat)
    requires IsRun(cfg, run) && j <= k < |run|
    ensures run[j].stats.handled <= run[k].stats.handled && run[j].stats.readSuccess <= run[k].stats.readSuccess
    ensures run[j].stats.writeTimeout <= run[k].stats.writeTimeout
    ensures run[j].stats.writeSuccess <= run[k].stats.writeSuccess && run[j].stats.writeFail <= run[k].stats.writeFail
    decreases k - j
  {
    hide Next;
    if j < k {
      RunGrows(cfg, run, j, k - 1);
      assert Next(cfg, run[k - 1], run[k - 1 + 1]);
      NextGrows(cfg, run[k - 1], run[k]);
    }
  }

  /** Times at which an observer performs its nine loads, in program order. */
  predicate LoadTimes(run: seq<State>, t: seq<nat>) {
    && |t| == 9 && t[8] < |run|
    && forall a, b :: 0 <= a < b < 9 ==> t[a] <= t[b]
  }

  const WORD32 := 0x1_0000_0000
  const WORD64 := 0x1_0000_0000_0000_0000

  /** The snapshot: each counter as it was when it was loaded, at its width. */
  function Snapshot(run: seq<State>, t: seq<nat>): Stats
    requires LoadTimes(run, t)
  {
    Stats(
      run[t[8]].stats.sessions % WORD32,
      run[t[2]].stats.readTimeout % WORD64,
      run[t[3]].stats.readSuccess % WORD64,
      run[t[4]].stats.readFail % WORD64,
      run[t[5]].stats.writeTimeout % WORD64,
      run[t[6]].stats.writeSuccess % WORD64,
      run[t[7]].stats.writeFail % WORD64,
      run[t[0]].stats.handled % WORD64,
      run[t[1]].stats.working % WORD64)
  }

  /**
   * A snapshot taken while sessions run never shows more handled requests than successful reads,
   * and its writes never exceed the requests read by the time the last of them is loaded. Counters
   * that have wrapped around at 2^64 are outside this.
   */
  lemma SnapshotIsOrdered(cfg: Config, run: seq<State>, t: seq<nat>)
    requires IsRun(cfg, run) && LoadTimes(run, t)
    requires run[t[8]].stats.readSuccess < WORD64
    ensures Snapshot(run, t).handled <= Snapshot(run, t).readSuccess
    ensures Snapshot(run, t).writeTimeout + Snapshot(run, t).writeSuccess + Snapshot(run, t).writeFail
        <= run[t[7]].stats.handled <= run[t[8]].stats.readSuccess
  {
    hide IsRun, CountersBalance, RequestsBalance, EndsBalance;
    StatisticsBalance(cfg, run, t[0]);
    StatisticsBalance(cfg, run, t[7]);
    RunGrows(cfg, run, t[0], t[3]);
    RunGrows(cfg, run, t[3], t[8]);
    RunGrows(cfg, run, t[5], t[7]);
    RunGrows(cfg, run, t[6], t[7]);
    RunGrows(cfg, run, t[7], t[8]);
    SharesAreNatural(cfg, run, t[0]);
    SharesAreNatural(cfg, run, t[5]);
    SharesAreNatural(cfg, run, t[6]);
    SharesAreNatural(cfg, run, t[7]);
  }

  predicate Natural(c: Stats) {
    && c.sessions >= 0 && c.readTimeout >= 0 && c.readSuccess >= 0 && c.readFail >= 0
    && c.writeTimeout >= 0 && c.writeSuccess >= 0 && c.writeFail >= 0 && c.handled >= 0 && c.working >= 0
  }

  /** No counter has reached its width. */
  predicate Fits(c: Stats) {
    && c.sessions < 0x1_0000_0000
    && c.readTimeout < WORD64 && c.readSuccess < WORD64 && c.readFail < WORD64
    && c.writeTimeout < WORD64 && c.writeSuccess < WORD64 && c.writeFail < WORD64
    && c.handled < WORD64 && c.working < WORD64
  }

  lemma SharesAreNatural(cfg: Config, run: seq<State>, k: nat)
    requires IsRun(cfg, run) && k < |run|
    ensures Natural(run[k].stats)
  {
    hide IsRun, RequestsBalance;
    StatisticsBalance(cfg, run, k);
    RunGrows(cfg, run, 0, k);
    RunStartsAtZero(cfg, run);
  }

  lemma RunStartsAtZero(cfg: Config, run: seq<State>)
    requires IsRun(cfg, run)
    ensures run[0].stats == ZERO
  {
  }

  /** A snapshot of counters that stood still while it was taken is those counters, each in its own column. */
  lemma SnapshotOfStillCounters(cfg: Config, run: seq<State>, t: seq<nat>, c: Stats)
    requires IsRun(cfg, run) && LoadTimes(run, t)
    requires forall i :: 0 <= i < 9 ==> run[t[i]].stats == c
    requires Fits(c)
    ensures Snapshot(run, t) == c
  {
    hide IsRun;
    SharesAreNatural(cfg, run, t[0]);
  }

  /** Handled requests are loaded first, successful reads before any write, and sessions last. */
  lemma SnapshotColumns(cfg: Config, run: seq<State>, t: seq<nat>)
    requires IsRun(cfg, run) && LoadTimes(run, t)
    requires forall i :: 0 <= i < 9 ==> Fits(run[t[i]].stats)
    ensures Snapshot(run, t) == Stats(
        run[t[8]].stats.sessions, run[t[2]].stats.readTimeout, run[t[3]].stats.readSuccess,
        run[t[4]].stats.readFail, run[t[5]].stats.writeTimeout, run[t[6]].stats.writeSuccess,
        run[t[7]].stats.writeFail, run[t[0]].stats.handled, run[t[1]].stats.working)
  {
    hide IsRun;
    forall i | 0 <= i < 9 ensures Natural(run[t[i]].stats) {
      SharesAreNatural(cfg, run, t[i]);
    }
  }

  /**
   * When a snapshot's own columns agree: if no request was counted as handled while it was taken,
   * its writes do not exceed its handled requests either.
   */
  lemma QuietSnapshotIsOrdered(cfg: Config, run: seq<State>, t: seq<nat>)
    requires IsRun(cfg, run) && LoadTimes(run, t)
    requires run[t[8]].stats.readSuccess < WORD64
    requires run[t[0]].stats.handled == run[t[7]].stats.handled
    ensures
      var seen := Snapshot(run, t);
      seen.writeTimeout + seen.writeSuccess + seen.writeFail <= seen.handled <= seen.readSuccess
  {
    hide IsRun, CountersBalance, RequestsBalance, EndsBalance;
    SnapshotIsOrdered(cfg, run, t);
    SharesAreNatural(cfg, run, t[0]);
  }

  /**
   * How an observer finds out: a second snapshot, taken after the first, that shows the same number
   * of handled requests vouches for the first one.
   */
  lemma SecondSnapshotVouches(cfg: Config, run: seq<State>, t: seq<nat>, u: seq<nat>)
    requires IsRun(cfg, run) && LoadTimes(run, t) && LoadTimes(run, u) && t[8] <= u[0]
    requires run[u[0]].stats.readSuccess < WORD64
    requires Snapshot(run, t).handled == Snapshot(run, u).handled
    ensures
      var seen := Snapshot(run, t);
      seen.writeTimeout + seen.writeSuccess + seen.writeFail <= seen.handled <= seen.readSuccess
  {
    hide IsRun, CountersBalance, RequestsBalance, EndsBalance;
    RunGrows(cfg, run, t[0], t[7]);
    RunGrows(cfg, run, t[7], u[0]);
    RunGrows(cfg, run, t[8], u[0]);
    StatisticsBalance(cfg, run, u[0]);
    SharesAreNatural(cfg, run, t[0]);
    QuietSnapshotIsOrdered(cfg, run, t);
  }
}
