/**
 * All sessions of one server run, interleaved in any order, with the statistics counters they
 * share and an observer that loads those counters one at a time.
 */
module Server {
  import opened Text
  import opened Http
  import opened Session

  // ---------------------------------------------------------------- statistics

  datatype Stats = Stats(
    sessions: int, readTimeout: int, readSuccess: int, readFail: int,
    writeTimeout: int, writeSuccess: int, writeFail: int, handled: int, working: int)

  const ZERO := Stats(0, 0, 0, 0, 0, 0, 0, 0, 0)

  function Plus(a: Stats, b: Stats): Stats {
    Stats(a.sessions + b.sessions, a.readTimeout + b.readTimeout, a.readSuccess + b.readSuccess,
          a.readFail + b.readFail, a.writeTimeout + b.writeTimeout, a.writeSuccess + b.writeSuccess,
          a.writeFail + b.writeFail, a.handled + b.handled, a.working + b.working)
  }

  /** What a step adds to the shared counters: at most one of them changes. */
  function Effect(s: Session, e: Event): Stats
    requires Enabled(s, e)
  {
    match e
    case CountSession => ZERO.(sessions := 1)
    case UncountSession => ZERO.(sessions := -1)
    case CountReadEnd =>
      (match s.at.why
       case Eos => ZERO
       case ReadLate => ZERO.(readTimeout := 1)
       case ReadBroken => ZERO.(readFail := 1))
    case CountRead => ZERO.(readSuccess := 1)
    case CountRejected => ZERO.(handled := 1)
    case EnterHandler => ZERO.(working := 1)
    case LeaveHandler => ZERO.(working := -1)
    case CountHandled => ZERO.(handled := 1)
    case CountWriteEnd =>
      (match s.at.how
       case WriteLate => ZERO.(writeTimeout := 1)
       case WriteBroken => ZERO.(writeFail := 1))
    case CountLastWrite => ZERO.(writeSuccess := 1)
    case CountWrite => ZERO.(writeSuccess := 1)
    case _ => ZERO
  }

  /** How far the session is with its current request, as far as the counters can tell. */
  datatype Phase = NotReading | InRead | InHandling | InAnswer | AnswerCounted

  function PhaseOf(s: Session): Phase {
    match s.at
    case Created | Counted => NotReading
    case OnReadEnded(_) | OnReadOk => InRead
    case Process | Reject(_) | Ready | Calling | InHandler | AfterHandler => InHandling
    case RejectBuild(_) | RejectWrite(_) | RejectClear => InAnswer
    case OnWriteEnded(_) | OnWriteClose | OnWriteClear | OnWriteCount => InAnswer
    case Rearm => AnswerCounted
    case Idle | Destroying | Destroyed =>
      match s.fate
      case Going =>
        if s.pending == Dispatched then NotReading else if s.pending == Reading then InRead else InAnswer
      case ClosedAtEnd | ReadTimedOut | ReadFailed => InRead
      case WriteTimedOut | WriteFailed => InAnswer
      case ClosedAfterReply => AnswerCounted
  }

  predicate BetweenCounts(s: Session) { PhaseOf(s) == InHandling }
  predicate ReplyUncounted(s: Session) { PhaseOf(s) == InAnswer && s.fate == Going }
  predicate CallsHandler(s: Session) { s.at == Calling || s.at == InHandler }
  predicate IsCounted(s: Session) { s.at != Created && s.at != Destroyed }

  function One(b: bool): int { if b then 1 else 0 }

  /**
   * The session's share of every counter, read off its request number, its position and how it
   * ended. Nothing here is a running tally.
   */
  function Share(s: Session): Stats {
    var n := s.requestId;
    var p := PhaseOf(s);
    Stats(
      One(IsCounted(s)),
      One(s.fate == ReadTimedOut),
      n - One(p == InRead),
      One(s.fate == ReadFailed),
      One(s.fate == WriteTimedOut),
      n - One(p == InRead || p == InHandling || p == InAnswer),
      One(s.fate == WriteFailed),
      n - One(p == InRead || p == InHandling),
      One(CallsHandler(s)))
  }

  /** The part of a session's shape that the counters depend on. */
  predicate Outline(s: Session) {
    && (s.fate != Going ==> (s.at.Idle? || s.at.Destroying? || s.at.Destroyed?) && NothingRuns(s))
    && (s.at == Created || s.at == Counted || s.pending == Dispatched ==> s.requestId == 0)
    && (s.pending == Dispatched || s.pending == Reading ==> s.at == Idle && s.writer == NoWriter)
    && (s.pending.Writing? ==> s.at == Idle || s.at == RejectClear || s.at == InHandler || s.at == AfterHandler)
    && (s.writer != NoWriter ==> s.pending == NoOperation)
  }

  lemma ShapeHasOutline(cfg: Config, s: Session)
    requires Shape(cfg, s)
    ensures Outline(s)
  {
    hide KeepAlive, Compose, Fill, Decide, Clean;
  }

  /** What `Share` depends on. */
  datatype Standing = Standing(requests: nat, phase: Phase, fate: Fate, counted: bool, calling: bool)

  function StandingOf(s: Session): Standing {
    Standing(s.requestId, PhaseOf(s), s.fate, IsCounted(s), CallsHandler(s))
  }

  /** How a step moves a session's standing. */
  ghost predicate Moves(s: Session, e: Event, a: Standing, b: Standing) {
    match e
    case CountSession => !a.counted && b == a.(counted := true)
    case UncountSession => a.counted && b == a.(counted := false)
    case FirstRead => a.requests == 0 && a.phase == NotReading && b == a.(requests := 1, phase := InRead)
    case NextRead => a.phase == AnswerCounted && b == a.(requests := a.requests + 1, phase := InRead)
    case CountReadEnd =>
      s.at.OnReadEnded? && a.phase == InRead && a.fate == Going && b == a.(fate := ReadFate(s.at.why))
    case CountRead => a.phase == InRead && b == a.(phase := InHandling)
    case EnterHandler => !a.calling && b == a.(calling := true)
    case LeaveHandler => a.calling && b == a.(calling := false)
    case CountRejected => a.phase == InHandling && b == a.(phase := InAnswer)
    case CountHandled => a.phase == InHandling && b == a.(phase := InAnswer)
    case CountWriteEnd =>
      s.at.OnWriteEnded? && a.phase == InAnswer && a.fate == Going && b == a.(fate := WriteFate(s.at.how))
    case CountLastWrite =>
      a.phase == InAnswer && a.fate == Going && b == a.(phase := AnswerCounted, fate := ClosedAfterReply)
    case CountWrite => a.phase == InAnswer && b == a.(phase := AnswerCounted)
    case _ => b == a
  }

  predicate SenderStep(e: Event) {
    e.Send? || e.BuildReply? || e.WriteReply? || e.DropWriter? || e.ReleaseWriter?
  }

  predicate WriteStep(e: Event) {
    e.WriteDone? || e.CountWriteEnd? || e.CountLastWrite? || e.ClearResponse? || e.CountWrite? || e.NextRead?
  }

  lemma ReadStepMoves(cfg: Config, s: Session, e: Event)
    requires Outline(s) && Enabled(s, e) && !SenderStep(e) && !WriteStep(e)
    ensures Moves(s, e, StandingOf(s), StandingOf(Apply(cfg, s, e)))
  {
    hide KeepAlive, Compose, Fill, Decide;
  }

  lemma WriteStepMoves(cfg: Config, s: Session, e: Event)
    requires Outline(s) && Enabled(s, e) && WriteStep(e)
    ensures Moves(s, e, StandingOf(s), StandingOf(Apply(cfg, s, e)))
  {
    hide KeepAlive, Compose, Fill, Decide;
  }

  lemma SendStepMoves(cfg: Config, s: Session, e: Event)
    requires Outline(s) && Enabled(s, e) && SenderStep(e)
    ensures Moves(s, e, StandingOf(s), StandingOf(Apply(cfg, s, e)))
  {
    hide KeepAlive, Compose, Fill, Decide;
  }

  lemma StandingGivesShare(s: Session, e: Event, t: Session)
    requires Enabled(s, e) && Moves(s, e, StandingOf(s), StandingOf(t))
    ensures Share(t) == Plus(Share(s), Effect(s, e))
  {
    hide PhaseOf, IsCounted, CallsHandler;
  }

  /** Every step moves the session's share of the counters by exactly what it adds to them. */
  lemma ShareMovesWithEffect(cfg: Config, s: Session, e: Event)
    requires Shape(cfg, s) && Enabled(s, e)
    ensures Share(Apply(cfg, s, e)) == Plus(Share(s), Effect(s, e))
  {
    hide Shape, Enabled, Apply, Share, Effect, Outline, Moves, StandingOf;
    ShapeHasOutline(cfg, s);
    if SenderStep(e) {
      SendStepMoves(cfg, s, e);
    } else if WriteStep(e) {
      WriteStepMoves(cfg, s, e);
    } else {
      ReadStepMoves(cfg, s, e);
    }
    StandingGivesShare(s, e, Apply(cfg, s, e));
  }

  // ---------------------------------------------------------------- the server

  /** `lastId` is the session id generator; session number `i` is the `i + 1`-st ever created. */
  datatype State = State(lastId: nat, sessions: seq<Session>, stats: Stats)

  const INITIAL := State(0, [], ZERO)

  /** A callback is running for the session; one is running in the acceptor while it is being set up. */
  predicate Busy(s: Session) {
    s.at != Idle && s.at != Destroying && s.at != Destroyed
  }

  function CountIf(ss: seq<Session>, p: Session -> bool): (n: nat)
    ensures n <= |ss|
  {
    if ss == [] then 0 else CountIf(ss[..|ss| - 1], p) + One(p(ss[|ss| - 1]))
  }

  /** A completion handler needs one of the io threads to run on. */
  predicate ThreadFree(cfg: Config, g: State) {
    CountIf(g.sessions, Busy) < cfg.options.threads
  }

  ghost function BusySessions(ss: seq<Session>): set<nat> {
    set i: nat | i < |ss| && Busy(ss[i])
  }

  lemma {:induction false} CountIsSize(ss: seq<Session>)
    ensures |BusySessions(ss)| == CountIf(ss, Busy)
    decreases |ss|
  {
    hide Busy;
    if ss != [] {
      var n := |ss| - 1;
      CountIsSize(ss[..n]);
      assert BusySessions(ss) == BusySessions(ss[..n]) + if Busy(ss[n]) then {n} else {};
    } else {
      assert BusySessions(ss) == {};
    }
  }

  /** Thread `on[i]` runs the callback of session `i`, and no other callback. */
  ghost predicate Runs(threads: nat, ss: seq<Session>, on: map<nat, nat>) {
    && on.Keys == BusySessions(ss)
    && (forall i :: i in on ==> on[i] < threads)
    && (forall i, j :: i in on && j in on && on[i] == on[j] ==> i == j)
  }

  lemma {:induction false} InjectiveImage(on: map<nat, nat>)
    requires forall i, j :: i in on && j in on && on[i] == on[j] ==> i == j
    ensures |on.Values| == |on.Keys|
    decreases |on|
  {
    if on == map[] {
      assert on.Values == {};
    } else {
      var i :| i in on;
      var rest := on - {i};
      assert rest.Keys == on.Keys - {i};
      assert forall j :: j in rest ==> j in on && rest[j] == on[j];
      assert forall j :: j in on && j != i ==> j in rest;
      assert rest.Values == on.Values - {on[i]};
      InjectiveImage(rest);
    }
  }

  ghost function Threads(n: nat): (ws: set<nat>)
    ensures |ws| == n && forall w :: w in ws <==> 0 <= w < n
  {
    if n == 0 then {} else Threads(n - 1) + {n - 1}
  }

  /**
   * Where the bound on callbacks comes from: when every running callback occupies a thread of its
   * own, a thread is left over exactly when fewer callbacks run than there are threads.
   */
  lemma ThreadFreeIffThreadIdle(cfg: Config, g: State, on: map<nat, nat>)
    requires Runs(cfg.options.threads, g.sessions, on)
    ensures CountIf(g.sessions, Busy) <= cfg.options.threads
    ensures ThreadFree(cfg, g) <==> exists w :: 0 <= w < cfg.options.threads && w !in on.Values
  {
    hide Busy, BusySessions;
    CountIsSize(g.sessions);
    InjectiveImage(on);
    Subset(on.Values, Threads(cfg.options.threads));
  }

  lemma {:induction false} Subset(a: set<nat>, b: set<nat>)
    requires a <= b
    ensures |a| <= |b| && (|a| < |b| <==> exists w :: w in b && w !in a)
    decreases a
  {
    if a == {} {
      if |b| > 0 { var w :| w in b; assert w !in a; }
    } else {
      var w :| w in a;
      Subset(a - {w}, b - {w});
      assert forall x :: x in b && x !in a <==> x in b - {w} && x !in a - {w};
    }
  }

  predicate StartsCallback(e: Event) {
    e.ReadDone? || e.WriteDone?
  }

  ghost predicate SessionStep(cfg: Config, g: State, i: nat, e: Event, h: State) {
    && i < |g.sessions| && Enabled(g.sessions[i], e)
    && (StartsCallback(e) ==> ThreadFree(cfg, g))
    && h == g.(sessions := g.sessions[i := Apply(cfg, g.sessions[i], e)],
               stats := Plus(g.stats, Effect(g.sessions[i], e)))
  }

  predicate AcceptStep(cfg: Config, g: State, h: State) {
    && ThreadFree(cfg, g)
    && h == g.(lastId := g.lastId + 1, sessions := g.sessions + [NewSession(g.lastId + 1)])
  }

  ghost predicate Next(cfg: Config, g: State, h: State) {
    AcceptStep(cfg, g, h) || exists i: nat, e :: SessionStep(cfg, g, i, e, h)
  }

  /** A run: any number of steps of any sessions in any order. */
  ghost predicate IsRun(cfg: Config, run: seq<State>) {
    && |run| >= 1 && run[0] == INITIAL
    && forall k :: 0 <= k < |run| - 1 ==> Next(cfg, run[k], run[k + 1])
  }

  function Total(ss: seq<Session>): Stats {
    if ss == [] then ZERO else Plus(Total(ss[..|ss| - 1]), Share(ss[|ss| - 1]))
  }

  ghost predicate Sound(cfg: Config, g: State) {
    && g.lastId == |g.sessions|
    && (forall i :: 0 <= i < |g.sessions| ==> g.sessions[i].id == i + 1 && Good(cfg, g.sessions[i]))
    && g.stats == Total(g.sessions)
    && CountIf(g.sessions, Busy) <= cfg.options.threads
  }

  lemma {:induction false} TotalUpdate(ss: seq<Session>, i: nat, t: Session, d: Stats)
    requires i < |ss| && Share(t) == Plus(Share(ss[i]), d)
    ensures Total(ss[i := t]) == Plus(Total(ss), d)
    decreases |ss|
  {
    hide Share;
    var n := |ss| - 1;
    if i < n {
      assert ss[i := t][..n] == ss[..n][i := t];
      TotalUpdate(ss[..n], i, t, d);
    } else {
      assert ss[i := t][..n] == ss[..n];
    }
  }

  lemma {:induction false} CountUpdate(ss: seq<Session>, i: nat, t: Session, p: Session -> bool)
    requires i < |ss|
    ensures CountIf(ss[i := t], p) == CountIf(ss, p) - One(p(ss[i])) + One(p(t))
    decreases |ss|
  {
    var n := |ss| - 1;
    if i < n {
      assert ss[i := t][..n] == ss[..n][i := t];
      CountUpdate(ss[..n], i, t, p);
    } else {
      assert ss[i := t][..n] == ss[..n];
    }
  }

  /** Only a completion makes an idle session busy. */
  lemma BusyOnlyByCompletion(cfg: Config, s: Session, e: Event)
    requires Enabled(s, e) && Busy(Apply(cfg, s, e)) && !StartsCallback(e)
    ensures Busy(s)
  {
    hide KeepAlive, Compose, Fill, Decide;
  }

  lemma StepKeepsId(cfg: Config, s: Session, e: Event)
    requires Enabled(s, e)
    ensures Apply(cfg, s, e).id == s.id
  {
    hide KeepAlive, Compose, Fill, Decide;
  }

  lemma GoodHasShape(cfg: Config, s: Session)
    requires Good(cfg, s)
    ensures Shape(cfg, s)
  {
    hide Shape, History;
  }

  lemma SessionStepKeepsSound(cfg: Config, g: State, i: nat, e: Event, h: State)
    requires Sound(cfg, g) && SessionStep(cfg, g, i, e, h)
    ensures Sound(cfg, h)
  {
    hide Good, Enabled, Apply, Effect, Share, Busy, StartsCallback, Plus;
    var s := g.sessions[i];
    var t := Apply(cfg, s, e);
    GoodHasShape(cfg, s);
    StepKeepsGood(cfg, s, e);
    StepKeepsId(cfg, s, e);
    ShareMovesWithEffect(cfg, s, e);
    TotalUpdate(g.sessions, i, t, Effect(s, e));
    CountUpdate(g.sessions, i, t, Busy);
    if Busy(t) && !StartsCallback(e) {
      BusyOnlyByCompletion(cfg, s, e);
    }
  }

  lemma PlusZero(c: Stats)
    ensures Plus(ZERO, c) == c && Plus(c, ZERO) == c
  {
  }

  lemma NewSessionCountsNothing(id: nat)
    ensures Share(NewSession(id)) == ZERO
  {
    assert PhaseOf(NewSession(id)) == NotReading;
  }

  lemma AcceptKeepsSound(cfg: Config, g: State, h: State)
    requires Sound(cfg, g) && AcceptStep(cfg, g, h)
    ensures Sound(cfg, h)
  {
    hide Good, Share, Plus;
    NewSessionIsGood(cfg, g.lastId + 1);
    NewSessionCountsNothing(g.lastId + 1);
    PlusZero(g.stats);
    assert h.sessions[..|g.sessions|] == g.sessions;
  }

  /** Every state of every run is sound. */
  lemma {:induction false} RunsAreSound(cfg: Config, run: seq<State>, k: nat)
    requires IsRun(cfg, run) && k < |run|
    ensures Sound(cfg, run[k])
  {
    if k > 0 {
      RunsAreSound(cfg, run, k - 1);
      var g, h := run[k - 1], run[k];
      assert Next(cfg, run[k - 1], run[k - 1 + 1]);
      if AcceptStep(cfg, g, h) {
        AcceptKeepsSound(cfg, g, h);
      } else {
        var i: nat, e :| SessionStep(cfg, g, i, e, h);
        SessionStepKeepsSound(cfg, g, i, e, h);
      }
    }
  }
}
