/**
 * A run that serves a request from start to finish, for any configuration: runs exist, and one of
 * them shows what a snapshot of the counters does not promise.
 */
module Witness {
  import opened Text
  import opened Http
  import opened Session
  import opened Server
  import opened Steps
  import opened Guarantees
  import Url

  /** A server that has had one session. */
  function Alone(s: Session, c: Stats): State {
    State(1, [s], c)
  }

  /** Whatever one session can do alone, the server can do. */
  lemma {:induction false} RunGoesOn(
    cfg: Config, run: seq<State>, s: Session, c: Stats, es: seq<Event>, t: Session, d: Stats)
    returns (longer: seq<State>)
    requires IsRun(cfg, run) && run[|run| - 1] == Alone(s, c) && Leads(cfg, s, es, t, d) && cfg.options.threads >= 1
    ensures IsRun(cfg, longer) && run <= longer && longer[|longer| - 1] == Alone(t, Plus(c, d))
    decreases |es|
  {
    hide Apply, Effect, Plus, Enabled;
    if es == [] {
      longer := run;
      PlusZero(c);
    } else {
      var e := es[0];
      var s1, c1 := Apply(cfg, s, e), Plus(c, Effect(s, e));
      AloneStep(cfg, s, c, e);
      var next := run + [Alone(s1, c1)];
      assert IsRun(cfg, next) by {
        forall k | 0 <= k < |next| - 1 ensures Next(cfg, next[k], next[k + 1]) {
          if k == |run| - 1 {
            assert next[k] == Alone(s, c) && next[k + 1] == Alone(s1, c1);
          } else {
            assert next[k] == run[k] && next[k + 1] == run[k + 1];
          }
        }
      }
      var rest := Added(cfg, s1, es[1..]);
      longer := RunGoesOn(cfg, next, s1, c1, es[1..], t, rest);
      PlusAssociates(c, Effect(s, e), rest);
    }
  }

  lemma AloneStep(cfg: Config, s: Session, c: Stats, e: Event)
    requires Enabled(s, e) && cfg.options.threads >= 1
    ensures Next(cfg, Alone(s, c), Alone(Apply(cfg, s, e), Plus(c, Effect(s, e))))
  {
    hide Apply, Effect, Plus;
    var g, h := Alone(s, c), Alone(Apply(cfg, s, e), Plus(c, Effect(s, e)));
    assert StartsCallback(e) ==> s.at == Idle;
    assert [s][..0] == [];
    assert CountIf([s], Busy) == Server.One(Busy(s));
    assert [s][0 := Apply(cfg, s, e)] == [Apply(cfg, s, e)];
    assert SessionStep(cfg, g, 0, e, h);
  }

  const BAD_REQUEST_LINE := RawRequest(VERB_GET, "", 11, [], "")

  lemma AcceptOne(cfg: Config) returns (run: seq<State>)
    requires cfg.options.threads >= 1
    ensures |run| == 2 && IsRun(cfg, run) && run[0].stats == ZERO && run[1] == Alone(NewSession(1), ZERO)
  {
    run := [INITIAL, Alone(NewSession(1), ZERO)];
    assert [] + [NewSession(1)] == [NewSession(1)];
    assert AcceptStep(cfg, run[0], run[1]);
  }

  /** Every legal sequence of steps of one session is a run of the server, with the counters it accounts for. */
  lemma SoloRun(cfg: Config, path: seq<Event>, s: Session) returns (run: seq<State>)
    requires cfg.options.threads >= 1 && Replay(cfg, NewSession(1), path) == Some(s)
    ensures IsRun(cfg, run) && run[|run| - 1] == Alone(s, Share(s))
  {
    hide IsRun, Good, Replay, Added, Plus;
    var c := Added(cfg, NewSession(1), path);
    NewSessionIsGood(cfg, 1);
    LeadsKeepsGood(cfg, NewSession(1), path, s, c);
    run := AcceptOne(cfg);
    run := RunGoesOn(cfg, run, NewSession(1), ZERO, path, s, c);
  }

  lemma ConnectSteps(cfg: Config)
    ensures
      var s2 := NewSession(1).(at := Idle, pending := Dispatched);
      && Leads(cfg, NewSession(1), [CountSession, PostFirstRead], s2, ZERO.(sessions := 1))
      && Leads(cfg, s2, [FirstRead], StartRead(s2), ZERO)
  {
    hide Leads, Fill, Decide, KeepAlive;
    var s0 := NewSession(1);
    var s1 := s0.(at := Counted);
    var s2 := s1.(at := Idle, pending := Dispatched);
    TwoSteps(cfg, s0, CountSession, s1, ZERO.(sessions := 1), PostFirstRead, s2, ZERO);
    OneStep(cfg, s2, FirstRead, StartRead(s2), ZERO);
  }

  lemma Connect(cfg: Config) returns (run: seq<State>, s: Session, c: Stats)
    requires cfg.options.threads >= 1
    ensures |run| >= 1 && IsRun(cfg, run) && run[|run| - 1] == Alone(s, c) && run[0].stats == ZERO
    ensures s.at == Idle && s.pending == Reading && s.request.body == "" && c == ZERO.(sessions := 1)
  {
    hide Leads, IsRun, Apply;
    ConnectSteps(cfg);
    run := AcceptOne(cfg);
    var s2 := NewSession(1).(at := Idle, pending := Dispatched);
    run := RunGoesOn(cfg, run, NewSession(1), ZERO, [CountSession, PostFirstRead], s2, ZERO.(sessions := 1));
    run := RunGoesOn(cfg, run, s2, ZERO.(sessions := 1), [FirstRead], StartRead(s2), ZERO);
    s, c := StartRead(s2), ZERO.(sessions := 1);
  }

  lemma AnswerOne(cfg: Config, run0: seq<State>, s: Session, c: Stats) returns (run: seq<State>, t: Session)
    requires cfg.options.threads >= 1 && |run0| >= 1 && IsRun(cfg, run0) && run0[|run0| - 1] == Alone(s, c)
    requires s.at == Idle && s.pending == Reading && s.request.body == "" && c == ZERO.(sessions := 1)
    ensures |run| >= 1 && IsRun(cfg, run) && run0 <= run
    ensures run[|run| - 1] == Alone(t, ZERO.(sessions := 1, readSuccess := 1, handled := 1))
    ensures t.at == Idle && t.pending.Writing?
  {
    hide Leads, Decide, Fill, KeepAlive;
    var raw := BAD_REQUEST_LINE;
    ReceivedSteps(cfg, s, raw);
    var s1 := Holding(s, raw);
    run := RunGoesOn(cfg, run0, s, c, [ReadDone(Received(raw)), CountRead], s1, ZERO.(readSuccess := 1));
    assert "" + raw.body == raw.body;
    assert s1.request == raw;
    EmptyTargetIsRefused(cfg, s.id, s.requestId);
    RefusalSteps(cfg, s1, "url invalid");
    t := Answering(cfg, s1, RefusalReply("url invalid")).(
      at := Idle, decisions := s1.decisions + [Refuse("url invalid")], request := s1.request.Head());
    run := RunGoesOn(cfg, run, s1, ZERO.(sessions := 1, readSuccess := 1), REFUSAL_EVENTS, t, ZERO.(handled := 1));
  }

  lemma EmptyTargetIsRefused(cfg: Config, id: nat, n: nat)
    ensures Decide(cfg, BAD_REQUEST_LINE, id, n) == Refuse("url invalid")
  {
    assert Url.ParseOriginForm("", false) == None;
  }

  lemma FinishWrite(cfg: Config, run0: seq<State>, s: Session, c: Stats) returns (run: seq<State>, t: Session)
    requires cfg.options.threads >= 1 && |run0| >= 1 && IsRun(cfg, run0) && run0[|run0| - 1] == Alone(s, c)
    requires s.at == Idle && s.pending.Writing?
    ensures |run| >= 1 && IsRun(cfg, run) && run0 <= run
    ensures run[|run| - 1] == Alone(t, Plus(c, ZERO.(writeSuccess := 1)))
  {
    hide Leads, Plus, Emptied;
    if s.pending.keepAlive {
      KeptWriteSteps(cfg, s);
      t := s.(pending := Reading, requestId := s.requestId + 1, response := Emptied(s.response));
      run := RunGoesOn(cfg, run0, s, c, [WriteDone(Written), ClearResponse] + [CountWrite, NextRead], t,
                       ZERO.(writeSuccess := 1));
    } else {
      LastWriteSteps(cfg, s);
      t := s.(pending := NoOperation, fate := ClosedAfterReply);
      run := RunGoesOn(cfg, run0, s, c, [WriteDone(Written), CountLastWrite], t, ZERO.(writeSuccess := 1));
    }
  }

  /**
   * The order of the loads protects handled requests against reads, and nothing else: there is a run
   * and a snapshot of it that shows a response written and no request handled.
   */
  lemma SnapshotMayShowWritesUnhandled(cfg: Config) returns (run: seq<State>, t: seq<nat>)
    requires cfg.options.threads >= 1
    ensures IsRun(cfg, run) && LoadTimes(run, t)
    ensures Snapshot(run, t).writeSuccess == 1 && Snapshot(run, t).handled == 0
  {
    hide IsRun;
    var s, c, u;
    run, s, c := Connect(cfg);
    ghost var first := run[0];
    run, s := AnswerOne(cfg, run, s, c);
    run, u := FinishWrite(cfg, run, s, ZERO.(sessions := 1, readSuccess := 1, handled := 1));
    var n := |run| - 1;
    t := [0, n, n, n, n, n, n, n, n];
    assert run[0] == first;
  }
}
