/**
 * Sequences of machine steps, and the session's callbacks as such sequences: where each callback
 * leads when nothing interferes, and what it adds to the shared counters.
 */
module Steps {
  import opened Text
  import opened Http
  import opened Session
  import opened Server

  /** The machine state after the steps `es`, or nothing if some step was not possible. */
  ghost function Replay(cfg: Config, s: Session, es: seq<Event>): Option<Session>
    decreases |es|
  {
    if es == [] then Some(s)
    else if Enabled(s, es[0]) then Replay(cfg, Apply(cfg, s, es[0]), es[1..])
    else None
  }

  /** What those steps add to the shared counters. */
  ghost function Added(cfg: Config, s: Session, es: seq<Event>): Stats
    decreases |es|
  {
    if es == [] || !Enabled(s, es[0]) then ZERO
    else Plus(Effect(s, es[0]), Added(cfg, Apply(cfg, s, es[0]), es[1..]))
  }

  /** The steps `es` lead from `s` to `t` and add `c` to the counters. */
  ghost predicate Leads(cfg: Config, s: Session, es: seq<Event>, t: Session, c: Stats) {
    Replay(cfg, s, es) == Some(t) && Added(cfg, s, es) == c
  }

  lemma PlusAssociates(a: Stats, b: Stats, c: Stats)
    ensures Plus(a, Plus(b, c)) == Plus(Plus(a, b), c)
  {
  }

  lemma {:induction false} LeadsOn(
    cfg: Config, s: Session, a: seq<Event>, t: Session, c: Stats, b: seq<Event>, u: Session, d: Stats)
    requires Leads(cfg, s, a, t, c) && Leads(cfg, t, b, u, d)
    ensures Leads(cfg, s, a + b, u, Plus(c, d))
    decreases |a|
  {
    hide Apply, Enabled, Effect, Plus;
    if a == [] {
      assert a + b == b;
      PlusZero(d);
    } else {
      assert (a + b)[1..] == a[1..] + b;
      var s1 := Apply(cfg, s, a[0]);
      LeadsOn(cfg, s1, a[1..], t, Added(cfg, s1, a[1..]), b, u, d);
      PlusAssociates(Effect(s, a[0]), Added(cfg, s1, a[1..]), d);
    }
  }

  /** Any sequence of steps keeps the session good and moves its share by what it adds. */
  lemma {:induction false} LeadsKeepsGood(cfg: Config, s: Session, es: seq<Event>, t: Session, c: Stats)
    requires Good(cfg, s) && Leads(cfg, s, es, t, c)
    ensures Good(cfg, t) && Share(t) == Plus(Share(s), c)
    decreases |es|
  {
    hide Apply, Enabled, Good, Share, Effect, Plus;
    if es == [] {
      PlusZero(Share(s));
    } else {
      GoodHasShape(cfg, s);
      StepKeepsGood(cfg, s, es[0]);
      ShareMovesWithEffect(cfg, s, es[0]);
      var s1 := Apply(cfg, s, es[0]);
      LeadsKeepsGood(cfg, s1, es[1..], t, Added(cfg, s1, es[1..]));
      PlusAssociates(Share(s), Effect(s, es[0]), Added(cfg, s1, es[1..]));
    }
  }

  lemma OneStep(cfg: Config, s: Session, a: Event, t: Session, c: Stats)
    requires Enabled(s, a) && Apply(cfg, s, a) == t && Effect(s, a) == c
    ensures Leads(cfg, s, [a], t, c)
  {
    hide Apply, Enabled, Effect, Plus;
    assert [a][1..] == [];
    assert Replay(cfg, t, []) == Some(t) && Added(cfg, t, []) == ZERO;
    PlusZero(c);
  }

  /** Two steps of which at most one counts something. */
  lemma TwoSteps(cfg: Config, s: Session, a: Event, t: Session, c: Stats, b: Event, u: Session, d: Stats)
    requires Enabled(s, a) && Apply(cfg, s, a) == t && Effect(s, a) == c
    requires Enabled(t, b) && Apply(cfg, t, b) == u && Effect(t, b) == d
    ensures Leads(cfg, s, [a, b], u, Plus(c, d))
    ensures c == ZERO ==> Leads(cfg, s, [a, b], u, d)
    ensures d == ZERO ==> Leads(cfg, s, [a, b], u, c)
  {
    hide Apply, Enabled, Effect, Leads, Plus;
    OneStep(cfg, s, a, t, c);
    OneStep(cfg, t, b, u, d);
    LeadsOn(cfg, s, [a], t, c, [b], u, d);
    assert [a] + [b] == [a, b];
    PlusZero(c);
    PlusZero(d);
  }

  /** Continuing with steps that count nothing. */
  lemma ThenQuietly(cfg: Config, s: Session, a: seq<Event>, t: Session, c: Stats, b: seq<Event>, u: Session)
    requires Leads(cfg, s, a, t, c) && Leads(cfg, t, b, u, ZERO)
    ensures Leads(cfg, s, a + b, u, c)
  {
    hide Leads, Plus;
    LeadsOn(cfg, s, a, t, c, b, u, ZERO);
    PlusZero(c);
  }

  // ---------------------------------------------------------------- callbacks

  lemma WriteEndedSteps(cfg: Config, s: Session, how: WriteEnd)
    requires s.at == Idle && s.pending.Writing?
    ensures Leads(cfg, s, [WriteDone(WriteEnded(how)), CountWriteEnd],
                  s.(pending := NoOperation, fate := WriteFate(how)),
                  if how == WriteLate then ZERO.(writeTimeout := 1) else ZERO.(writeFail := 1))
  {
    hide KeepAlive, Fill, Decide, Leads, Plus;
    var t := s.(at := OnWriteEnded(how), pending := NoOperation);
    TwoSteps(cfg, s, WriteDone(WriteEnded(how)), t, ZERO, CountWriteEnd, t.(at := Idle, fate := WriteFate(how)),
        if how == WriteLate then ZERO.(writeTimeout := 1) else ZERO.(writeFail := 1));
  }

  lemma LastWriteSteps(cfg: Config, s: Session)
    requires s.at == Idle && s.pending == Writing(false)
    ensures Leads(cfg, s, [WriteDone(Written), CountLastWrite],
                  s.(pending := NoOperation, fate := ClosedAfterReply), ZERO.(writeSuccess := 1))
  {
    hide KeepAlive, Fill, Decide, Leads, Plus;
    var t := s.(at := OnWriteClose, pending := NoOperation);
    TwoSteps(cfg, s, WriteDone(Written), t, ZERO, CountLastWrite,
             t.(at := Idle, fate := ClosedAfterReply), ZERO.(writeSuccess := 1));
  }

  lemma ClearSteps(cfg: Config, s: Session)
    requires s.at == Idle && s.pending == Writing(true)
    ensures Leads(cfg, s, [WriteDone(Written), ClearResponse],
                  s.(at := OnWriteCount, pending := NoOperation, response := Emptied(s.response)), ZERO)
  {
    hide KeepAlive, Fill, Decide, Leads, Plus, Emptied;
    var t := s.(at := OnWriteClear, pending := NoOperation);
    TwoSteps(cfg, s, WriteDone(Written), t, ZERO, ClearResponse,
             t.(at := OnWriteCount, response := Emptied(s.response)), ZERO);
  }

  lemma RearmSteps(cfg: Config, s: Session)
    requires s.at == OnWriteCount
    ensures Leads(cfg, s, [CountWrite, NextRead],
                  s.(at := Idle, pending := Reading, requestId := s.requestId + 1), ZERO.(writeSuccess := 1))
  {
    hide KeepAlive, Fill, Decide, Leads, Plus;
    var t := s.(at := Rearm);
    TwoSteps(cfg, s, CountWrite, t, ZERO.(writeSuccess := 1), NextRead, StartRead(t), ZERO);
  }

  lemma KeptWriteSteps(cfg: Config, s: Session)
    requires s.at == Idle && s.pending == Writing(true)
    ensures Leads(cfg, s, [WriteDone(Written), ClearResponse] + [CountWrite, NextRead],
                  s.(pending := Reading, requestId := s.requestId + 1, response := Emptied(s.response)),
                  ZERO.(writeSuccess := 1))
  {
    hide Leads, Plus, Emptied;
    var t := s.(at := OnWriteCount, pending := NoOperation, response := Emptied(s.response));
    ClearSteps(cfg, s);
    RearmSteps(cfg, t);
    LeadsOn(cfg, s, [WriteDone(Written), ClearResponse], t, ZERO, [CountWrite, NextRead],
            t.(at := Idle, pending := Reading, requestId := s.requestId + 1), ZERO.(writeSuccess := 1));
    PlusZero(ZERO.(writeSuccess := 1));
  }

  /** The session after a reply has been built and its write started. */
  function Answering(cfg: Config, s: Session, reply: Reply): Session {
    StartWrite(s.(response := Fill(cfg, s.request, s.response, reply)), reply)
  }

  lemma SendSteps(cfg: Config, s: Session, reply: Reply)
    requires s.writer == Held
    ensures Leads(cfg, s, [Event.Send(reply), BuildReply] + [WriteReply],
                  Answering(cfg, s, reply).(writer := NoWriter, spentWriters := s.spentWriters + 1), ZERO)
  {
    hide KeepAlive, Fill, Decide, Leads, Plus;
    var t := s.(writer := Sending(reply));
    var u := s.(writer := Built(reply), response := Fill(cfg, s.request, s.response, reply));
    var v := Answering(cfg, s, reply).(writer := NoWriter, spentWriters := s.spentWriters + 1);
    TwoSteps(cfg, s, Event.Send(reply), t, ZERO, BuildReply, u, ZERO);
    OneStep(cfg, u, WriteReply, v, ZERO);
    ThenQuietly(cfg, s, [Event.Send(reply), BuildReply], u, ZERO, [WriteReply], v);
  }

  /** What the end of a read is counted as. */
  function ReadEndCount(why: ReadEnd): Stats {
    match why
    case Eos => ZERO
    case ReadLate => ZERO.(readTimeout := 1)
    case ReadBroken => ZERO.(readFail := 1)
  }

  lemma ReadEndedSteps(cfg: Config, s: Session, why: ReadEnd, partial: RawRequest)
    requires s.at == Idle && s.pending == Reading
    ensures Leads(cfg, s, [ReadDone(ReadEnded(why, partial)), CountReadEnd],
                  s.(pending := NoOperation, request := Receive(s.request, partial), fate := ReadFate(why)),
                  ReadEndCount(why))
  {
    hide KeepAlive, Fill, Decide, Leads, Plus;
    var t := s.(at := OnReadEnded(why), pending := NoOperation, request := Receive(s.request, partial));
    TwoSteps(cfg, s, ReadDone(ReadEnded(why, partial)), t, ZERO, CountReadEnd,
             t.(at := Idle, fate := ReadFate(why)), ReadEndCount(why));
  }

  /** The session that has just been given a request and counted it. */
  function Holding(s: Session, raw: RawRequest): Session {
    s.(at := Process, pending := NoOperation, request := Receive(s.request, raw), arrived := s.arrived + [raw])
  }

  lemma ReceivedSteps(cfg: Config, s: Session, raw: RawRequest)
    requires s.at == Idle && s.pending == Reading
    ensures Leads(cfg, s, [ReadDone(Received(raw)), CountRead], Holding(s, raw), ZERO.(readSuccess := 1))
  {
    hide KeepAlive, Fill, Decide, Leads, Plus;
    var t := Holding(s, raw).(at := OnReadOk);
    TwoSteps(cfg, s, ReadDone(Received(raw)), t, ZERO, CountRead, Holding(s, raw), ZERO.(readSuccess := 1));
  }

  const REFUSAL_EVENTS: seq<Event> := [Classify, CountRejected] + [BuildRejection, WriteRejection] + [ClearBody]

  lemma RefusalSteps(cfg: Config, s: Session, text: string)
    requires s.at == Process && Decide(cfg, s.request, s.id, s.requestId) == Refuse(text)
    ensures Leads(cfg, s, REFUSAL_EVENTS,
                  Answering(cfg, s, RefusalReply(text)).(
                    at := Idle, decisions := s.decisions + [Refuse(text)], request := s.request.Head()),
                  ZERO.(handled := 1))
  {
    hide KeepAlive, Fill, Decide, Leads, Plus;
    var t := s.(decisions := s.decisions + [Refuse(text)], at := Reject(text));
    var u := t.(at := RejectBuild(text));
    var v := u.(at := RejectWrite(text), response := Fill(cfg, s.request, s.response, RefusalReply(text)));
    var w := Answering(cfg, u, RefusalReply(text)).(at := RejectClear);
    var x := w.(at := Idle, request := s.request.Head());
    TwoSteps(cfg, s, Classify, t, ZERO, CountRejected, u, ZERO.(handled := 1));
    TwoSteps(cfg, u, BuildRejection, v, ZERO, WriteRejection, w, ZERO);
    OneStep(cfg, w, ClearBody, x, ZERO);
    ThenQuietly(cfg, s, [Classify, CountRejected], u, ZERO.(handled := 1), [BuildRejection, WriteRejection], w);
    ThenQuietly(cfg, s, [Classify, CountRejected] + [BuildRejection, WriteRejection], w,
                ZERO.(handled := 1), [ClearBody], x);
  }

  lemma CallSteps(cfg: Config, s: Session, d: Decision)
    requires s.at == Process && Decide(cfg, s.request, s.id, s.requestId) == d && d.Deliver?
    ensures Leads(cfg, s, [Classify, EnterHandler] + [Invoke],
                  s.(at := InHandler, decisions := s.decisions + [d], request := s.request.Head(), writer := Held),
                  ZERO.(working := 1))
  {
    hide KeepAlive, Fill, Decide, Leads, Plus;
    var t := s.(at := Ready, decisions := s.decisions + [d], request := s.request.Head());
    var u := t.(at := Calling);
    var v := t.(at := InHandler, writer := Held);
    TwoSteps(cfg, s, Classify, t, ZERO, EnterHandler, u, ZERO.(working := 1));
    OneStep(cfg, u, Invoke, v, ZERO);
    ThenQuietly(cfg, s, [Classify, EnterHandler], u, ZERO.(working := 1), [Invoke], v);
  }

  lemma ReturnSteps(cfg: Config, s: Session)
    requires s.at == InHandler
    ensures Leads(cfg, s, [LeaveHandler, CountHandled], s.(at := Idle), ZERO.(working := -1, handled := 1))
  {
    hide KeepAlive, Fill, Decide, Leads;
    TwoSteps(cfg, s, LeaveHandler, s.(at := AfterHandler), ZERO.(working := -1), CountHandled,
             s.(at := Idle), ZERO.(handled := 1));
  }
}
