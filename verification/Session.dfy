/**
 * One connection as a state machine. Every event is one atomic step of the running program: it
 * touches the session's own state and at most one shared counter. A strand runs at most one
 * callback of a session at a time, so a completion is delivered only when the session is idle;
 * a handler's reply may be sent by any thread at any time after the handler was called.
 */
module Session {
  import opened Text
  import opened Http

  // ---------------------------------------------------------------- state

  datatype ReadEnd = Eos | ReadLate | ReadBroken
  datatype WriteEnd = WriteLate | WriteBroken

  /** What a read completes with. A read that ends leaves an arbitrary partial message behind. */
  datatype ReadOutcome = Received(raw: RawRequest) | ReadEnded(why: ReadEnd, partial: RawRequest)
  datatype WriteOutcome = Written | WriteEnded(how: WriteEnd)

  /** The asynchronous operation whose completion the session waits for. */
  datatype Pending = NoOperation | Dispatched | Reading | Writing(keepAlive: bool)

  /** The writer handed to a handler, until its reply is on the way. */
  datatype Writer = NoWriter | Held | Sending(reply: Reply) | Built(reply: Reply)

  datatype Fate = Going | ClosedAtEnd | ReadTimedOut | ReadFailed | WriteTimedOut | WriteFailed | ClosedAfterReply

  /** Where the session's strand is. `Idle` means that no callback of the session is running. */
  datatype Position =
    | Created | Counted | Idle
    | OnReadEnded(why: ReadEnd) | OnReadOk | Process
    | Reject(text: string) | RejectBuild(text: string) | RejectWrite(text: string) | RejectClear
    | Ready | Calling | InHandler | AfterHandler
    | OnWriteEnded(how: WriteEnd) | OnWriteClose | OnWriteClear | OnWriteCount | Rearm
    | Destroying | Destroyed

  datatype Session = Session(
    id: nat, requestId: nat, at: Position, pending: Pending, writer: Writer, spentWriters: nat,
    request: RawRequest, response: Message, fate: Fate,
    // history: requests read, decisions taken, replies sent and messages written, in order
    arrived: seq<RawRequest>, decisions: seq<Decision>, replies: seq<Reply>, written: seq<Message>)

  function NewSession(id: nat): Session {
    Session(id, 0, Created, NoOperation, NoWriter, 0, RawRequest(0, "", 11, [], ""), Message(200, map[], ""), Going,
            [], [], [], [])
  }

  // ---------------------------------------------------------------- steps

  datatype Event =
    | CountSession | PostFirstRead | FirstRead
    | ReadDone(read: ReadOutcome) | CountReadEnd | CountRead
    | Classify | CountRejected | BuildRejection | WriteRejection | ClearBody
    | EnterHandler | Invoke | LeaveHandler | CountHandled
    | Send(reply: Reply) | BuildReply | WriteReply | DropWriter | ReleaseWriter
    | WriteDone(write: WriteOutcome) | CountWriteEnd | CountLastWrite | ClearResponse | CountWrite | NextRead
    | Destroy | UncountSession

  predicate Enabled(s: Session, e: Event) {
    match e
    case CountSession => s.at == Created
    case PostFirstRead => s.at == Counted
    case FirstRead => s.at == Idle && s.pending == Dispatched
    case ReadDone(_) => s.at == Idle && s.pending == Reading
    case CountReadEnd => s.at.OnReadEnded?
    case CountRead => s.at == OnReadOk
    case Classify => s.at == Process
    case CountRejected => s.at.Reject?
    case BuildRejection => s.at.RejectBuild?
    case WriteRejection => s.at.RejectWrite?
    case ClearBody => s.at == RejectClear
    case EnterHandler => s.at == Ready
    case Invoke => s.at == Calling
    case LeaveHandler => s.at == InHandler
    case CountHandled => s.at == AfterHandler
    case Send(_) => s.writer == Held
    case BuildReply => s.writer.Sending?
    case WriteReply => s.writer.Built?
    case DropWriter => s.writer == Held
    case ReleaseWriter => s.spentWriters > 0
    case WriteDone(_) => s.at == Idle && s.pending.Writing?
    case CountWriteEnd => s.at.OnWriteEnded?
    case CountLastWrite => s.at == OnWriteClose
    case ClearResponse => s.at == OnWriteClear
    case CountWrite => s.at == OnWriteCount
    case NextRead => s.at == Rearm
    case Destroy => s.at == Idle && s.pending == NoOperation && s.writer == NoWriter && s.spentWriters == 0
    case UncountSession => s.at == Destroying
  }

  /** A read counts a new request and is started with the stored request as it is. */
  function StartRead(s: Session): Session {
    s.(requestId := s.requestId + 1, pending := Reading, at := Idle)
  }

  /** A completed read replaces start line and fields but appends to the stored body. */
  function Receive(stored: RawRequest, raw: RawRequest): RawRequest {
    raw.(body := stored.body + raw.body)
  }

  /** So a read is exact precisely if nothing is stored when it completes. */
  lemma ReceiveIsExact(stored: RawRequest, raw: RawRequest)
    ensures Receive(stored, raw) == raw <==> stored.body == ""
  {
    if stored.body == "" {
      assert "" + raw.body == raw.body;
    } else {
      assert |stored.body + raw.body| > |raw.body|;
    }
  }

  /** A write is started with the stored response and remembers whether that keeps the connection. */
  function StartWrite(s: Session, reply: Reply): Session {
    s.(pending := Writing(KeepAlive(s.response)), replies := s.replies + [reply], written := s.written + [s.response])
  }

  function ReadFate(why: ReadEnd): Fate {
    match why case Eos => ClosedAtEnd case ReadLate => ReadTimedOut case ReadBroken => ReadFailed
  }

  function WriteFate(how: WriteEnd): Fate {
    match how case WriteLate => WriteTimedOut case WriteBroken => WriteFailed
  }

  /** A request that is delivered is moved out of the stored request, body included. */
  ghost function ClassifyRequest(cfg: Config, s: Session): Session {
    var d := Decide(cfg, s.request, s.id, s.requestId);
    var t := s.(decisions := s.decisions + [d]);
    match d
    case Refuse(text) => t.(at := Reject(text))
    case Deliver(_, _) => t.(at := Ready, request := s.request.Head())
  }

  ghost function Apply(cfg: Config, s: Session, e: Event): Session
    requires Enabled(s, e)
  {
    match e
    case CountSession => s.(at := Counted)
    case PostFirstRead => s.(at := Idle, pending := Dispatched)
    case FirstRead => StartRead(s)
    case ReadDone(Received(raw)) =>
      s.(at := OnReadOk, pending := NoOperation, request := Receive(s.request, raw), arrived := s.arrived + [raw])
    case ReadDone(ReadEnded(why, partial)) =>
      s.(at := OnReadEnded(why), pending := NoOperation, request := Receive(s.request, partial))
    case CountReadEnd => s.(at := Idle, fate := ReadFate(s.at.why))
    case CountRead => s.(at := Process)
    case Classify => ClassifyRequest(cfg, s)
    case CountRejected => s.(at := RejectBuild(s.at.text))
    case BuildRejection =>
      s.(at := RejectWrite(s.at.text), response := Fill(cfg, s.request, s.response, RefusalReply(s.at.text)))
    case WriteRejection => StartWrite(s, RefusalReply(s.at.text)).(at := RejectClear)
    case ClearBody => s.(at := Idle, request := s.request.Head())
    case EnterHandler => s.(at := Calling)
    case Invoke => s.(at := InHandler, writer := Held)
    case LeaveHandler => s.(at := AfterHandler)
    case CountHandled => s.(at := Idle)
    case Send(reply) => s.(writer := Sending(reply))
    case BuildReply => s.(writer := Built(s.writer.reply), response := Fill(cfg, s.request, s.response, s.writer.reply))
    case WriteReply => StartWrite(s, s.writer.reply).(writer := NoWriter, spentWriters := s.spentWriters + 1)
    case DropWriter => s.(writer := NoWriter)
    case ReleaseWriter => s.(spentWriters := s.spentWriters - 1)
    case WriteDone(Written) =>
      s.(at := if s.pending.keepAlive then OnWriteClear else OnWriteClose, pending := NoOperation)
    case WriteDone(WriteEnded(how)) => s.(at := OnWriteEnded(how), pending := NoOperation)
    case CountWriteEnd => s.(at := Idle, fate := WriteFate(s.at.how))
    case CountLastWrite => s.(at := Idle, fate := ClosedAfterReply)
    case ClearResponse => s.(at := OnWriteCount, response := Emptied(s.response))
    case CountWrite => s.(at := Rearm)
    case NextRead => StartRead(s)
    case Destroy => s.(at := Destroying)
    case UncountSession => s.(at := Destroyed)
  }

  // ---------------------------------------------------------------- what every step keeps

  predicate Lengths(s: Session, arrived: int, decided: int, written: int) {
    |s.arrived| == arrived && |s.decisions| == decided && |s.replies| == |s.written| == written
  }

  predicate NotStarted(s: Session) {
    s.requestId == 0 && Lengths(s, 0, 0, 0) && s.request.body == "" && Clean(s.response)
  }

  /** The read of request number `requestId` is under way. */
  predicate AwaitingRequest(s: Session) {
    var n := s.requestId;
    n >= 1 && Lengths(s, n - 1, n - 1, n - 1) && Clean(s.response)
  }

  /** The stored request is the one just read, body included. */
  predicate HoldsRequest(s: Session) {
    var n := s.requestId;
    n >= 1 && Lengths(s, n, n - 1, n - 1) && Clean(s.response) && s.request == s.arrived[n - 1]
  }

  /** The stored request is still the one being answered. */
  predicate RequestInPlace(s: Session) {
    s.requestId >= 1 && |s.arrived| == s.requestId && s.request.Head() == s.arrived[s.requestId - 1].Head()
  }

  predicate Unanswered(s: Session) {
    var n := s.requestId;
    n >= 1 && Lengths(s, n, n, n - 1) && RequestInPlace(s)
  }

  predicate Replied(s: Session) {
    var n := s.requestId;
    n >= 1 && Lengths(s, n, n, n) && RequestInPlace(s)
  }

  predicate WriteUnderWay(s: Session) {
    Replied(s) && s.response == s.written[s.requestId - 1] && s.pending == Writing(KeepAlive(s.response))
  }

  /** A delivered request whose reply is not on the way yet. */
  predicate ReplyOutstanding(cfg: Config, s: Session) {
    && Unanswered(s) && s.request.body == "" && s.decisions[s.requestId - 1].Deliver? && s.pending == NoOperation
    && (if s.writer.Built? then s.response == Compose(cfg, s.arrived[s.requestId - 1], s.writer.reply)
        else Clean(s.response))
  }

  predicate NothingRuns(s: Session) {
    s.pending == NoOperation && s.writer == NoWriter
  }

  predicate Over(s: Session) {
    var n := s.requestId;
    && n >= 1 && NothingRuns(s)
    && match s.fate
       case Going => Unanswered(s)
       case ClosedAtEnd => Lengths(s, n - 1, n - 1, n - 1)
       case ReadTimedOut => Lengths(s, n - 1, n - 1, n - 1)
       case ReadFailed => Lengths(s, n - 1, n - 1, n - 1)
       case WriteTimedOut => Lengths(s, n, n, n)
       case WriteFailed => Lengths(s, n, n, n)
       case ClosedAfterReply => Lengths(s, n, n, n) && !KeepAlive(s.written[n - 1])
  }

  predicate Shape(cfg: Config, s: Session) {
    && (s.fate != Going ==> (s.at.Idle? || s.at.Destroying? || s.at.Destroyed?) && Over(s))
    && match s.at
    case Created => NotStarted(s) && NothingRuns(s)
    case Counted => NotStarted(s) && NothingRuns(s)
    case Idle =>
      (match s.pending
       case Dispatched => NotStarted(s) && s.writer == NoWriter
       case Reading => AwaitingRequest(s) && s.request.body == "" && s.writer == NoWriter
       case Writing(_) => WriteUnderWay(s) && s.request.body == "" && s.writer == NoWriter
       case NoOperation => s.fate == Going ==> ReplyOutstanding(cfg, s))
    case OnReadEnded(_) => AwaitingRequest(s) && NothingRuns(s)
    case OnReadOk => HoldsRequest(s) && NothingRuns(s)
    case Process => HoldsRequest(s) && NothingRuns(s)
    case Reject(text) =>
      Unanswered(s) && NothingRuns(s) && Clean(s.response) && s.decisions[s.requestId - 1] == Refuse(text)
    case RejectBuild(text) =>
      Unanswered(s) && NothingRuns(s) && Clean(s.response) && s.decisions[s.requestId - 1] == Refuse(text)
    case RejectWrite(text) =>
      && Unanswered(s) && NothingRuns(s) && s.decisions[s.requestId - 1] == Refuse(text)
      && s.response == Compose(cfg, s.arrived[s.requestId - 1], RefusalReply(text))
    case RejectClear => WriteUnderWay(s) && s.writer == NoWriter
    case Ready => ReplyOutstanding(cfg, s) && s.writer == NoWriter
    case Calling => ReplyOutstanding(cfg, s) && s.writer == NoWriter
    case InHandler => ReplyOutstanding(cfg, s) || (WriteUnderWay(s) && s.request.body == "" && s.writer == NoWriter)
    case AfterHandler => ReplyOutstanding(cfg, s) || (WriteUnderWay(s) && s.request.body == "" && s.writer == NoWriter)
    case OnWriteEnded(_) => Replied(s) && NothingRuns(s)
    case OnWriteClose => Replied(s) && NothingRuns(s) && !KeepAlive(s.written[s.requestId - 1])
    case OnWriteClear => Replied(s) && NothingRuns(s) && s.request.body == "" && KeepAlive(s.written[s.requestId - 1])
    case OnWriteCount =>
      && Replied(s) && NothingRuns(s) && s.request.body == ""
      && KeepAlive(s.written[s.requestId - 1]) && Clean(s.response)
    case Rearm =>
      && Replied(s) && NothingRuns(s) && s.request.body == ""
      && KeepAlive(s.written[s.requestId - 1]) && Clean(s.response)
    case Destroying => Over(s)
    case Destroyed => Over(s)
  }

  /** Decision `k` was taken on request `k` alone, under number `k + 1`. */
  ghost predicate DecidedRight(cfg: Config, s: Session, k: nat)
    requires k < |s.decisions| && k < |s.arrived|
  {
    s.decisions[k] == Decide(cfg, s.arrived[k], s.id, k + 1)
  }

  /** Message `k` is the reply to request `k` and to nothing else. */
  predicate WrittenRight(cfg: Config, s: Session, k: nat)
    requires k < |s.written| && k < |s.replies| && k < |s.arrived| && k < |s.decisions|
  {
    && s.written[k] == Compose(cfg, s.arrived[k], s.replies[k])
    && (s.decisions[k].Refuse? ==> s.replies[k] == RefusalReply(s.decisions[k].text))
  }

  ghost predicate History(cfg: Config, s: Session) {
    && |s.replies| == |s.written| <= |s.decisions| <= |s.arrived| <= s.requestId
    && (forall k :: 0 <= k < |s.decisions| ==> DecidedRight(cfg, s, k))
    && (forall k :: 0 <= k < |s.written| ==> WrittenRight(cfg, s, k))
    && (forall k :: 0 <= k < |s.written| && k < s.requestId - 1 ==> KeepAlive(s.written[k]))
  }

  ghost predicate Good(cfg: Config, s: Session) {
    Shape(cfg, s) && History(cfg, s)
  }

  lemma NewSessionIsGood(cfg: Config, id: nat)
    ensures Good(cfg, NewSession(id))
  {
  }

  /** Steps that leave the recorded history and the request number alone. */
  predicate Quiet(e: Event) {
    && !(e.FirstRead? || e.Classify? || e.WriteRejection? || e.WriteReply? || e.NextRead?)
    && !(e.ReadDone? && e.read.Received?)
  }

  lemma QuietStepKeepsHistory(cfg: Config, s: Session, e: Event)
    requires Good(cfg, s) && Enabled(s, e) && Quiet(e)
    ensures History(cfg, Apply(cfg, s, e))
  {
    hide KeepAlive, Compose, Fill, Decide;
    SameRecords(cfg, s, Apply(cfg, s, e));
  }

  lemma StartStepKeepsShape(cfg: Config, s: Session, e: Event)
    requires Shape(cfg, s) && Enabled(s, e)
    requires e.CountSession? || e.PostFirstRead? || e.FirstRead? || e.ReadDone? || e.CountReadEnd? || e.CountRead?
    ensures Shape(cfg, Apply(cfg, s, e))
  {
    hide KeepAlive, Compose, Fill, Decide;
  }

  lemma RejectStepKeepsShape(cfg: Config, s: Session, e: Event)
    requires Shape(cfg, s) && Enabled(s, e)
    requires e.Classify? || e.CountRejected? || e.BuildRejection? || e.WriteRejection? || e.ClearBody?
    ensures Shape(cfg, Apply(cfg, s, e))
  {
    hide KeepAlive, Compose, Fill, Decide;
    if e.BuildRejection? {
      FillIsCompose(cfg, s.arrived[s.requestId - 1], s.request, s.response, RefusalReply(s.at.text));
    }
  }

  lemma HandlerStepKeepsShape(cfg: Config, s: Session, e: Event)
    requires Shape(cfg, s) && Enabled(s, e)
    requires e.EnterHandler? || e.Invoke? || e.LeaveHandler? || e.CountHandled?
    ensures Shape(cfg, Apply(cfg, s, e))
  {
    hide KeepAlive, Compose, Fill, Decide;
  }

  lemma SendStepKeepsShape(cfg: Config, s: Session, e: Event)
    requires Shape(cfg, s) && Enabled(s, e)
    requires e.Send? || e.BuildReply? || e.WriteReply? || e.DropWriter? || e.ReleaseWriter?
    ensures Shape(cfg, Apply(cfg, s, e))
  {
    hide KeepAlive, Compose, Fill, Decide;
    if e.BuildReply? {
      FillIsCompose(cfg, s.arrived[s.requestId - 1], s.request, s.response, s.writer.reply);
    }
  }

  lemma WriteStepKeepsShape(cfg: Config, s: Session, e: Event)
    requires Shape(cfg, s) && Enabled(s, e)
    requires e.WriteDone? || e.CountWriteEnd? || e.CountLastWrite? || e.ClearResponse? || e.CountWrite? || e.NextRead?
    ensures Shape(cfg, Apply(cfg, s, e))
  {
    hide KeepAlive, Compose, Fill, Decide;
  }

  lemma EndStepKeepsShape(cfg: Config, s: Session, e: Event)
    requires Shape(cfg, s) && Enabled(s, e)
    requires e.Destroy? || e.UncountSession?
    ensures Shape(cfg, Apply(cfg, s, e))
  {
    hide KeepAlive, Compose, Fill, Decide;
  }

  /** Records that both sessions share stay right. */
  lemma SameRecords(cfg: Config, s: Session, t: Session)
    requires History(cfg, s) && t.id == s.id
    requires s.arrived <= t.arrived && s.decisions <= t.decisions && s.replies <= t.replies && s.written <= t.written
    ensures forall k :: 0 <= k < |s.decisions| ==> DecidedRight(cfg, t, k)
    ensures forall k :: 0 <= k < |s.written| ==> WrittenRight(cfg, t, k)
  {
    hide KeepAlive, Compose, Fill, Decide;
    forall k | 0 <= k < |s.decisions| ensures DecidedRight(cfg, t, k) { assert DecidedRight(cfg, s, k); }
    forall k | 0 <= k < |s.written| ensures WrittenRight(cfg, t, k) { assert WrittenRight(cfg, s, k); }
  }

  lemma ReadStepKeepsHistory(cfg: Config, s: Session, e: Event)
    requires Good(cfg, s) && Enabled(s, e)
    requires e.FirstRead? || e.NextRead? || (e.ReadDone? && e.read.Received?)
    ensures History(cfg, Apply(cfg, s, e))
  {
    hide KeepAlive, Compose, Fill, Decide;
    SameRecords(cfg, s, Apply(cfg, s, e));
  }

  lemma ClassifyKeepsHistory(cfg: Config, s: Session)
    requires Good(cfg, s) && Enabled(s, Classify)
    ensures History(cfg, Apply(cfg, s, Classify))
  {
    hide KeepAlive, Compose, Fill, Decide;
    SameRecords(cfg, s, Apply(cfg, s, Classify));
  }

  lemma WriteStepKeepsHistory(cfg: Config, s: Session, e: Event)
    requires Good(cfg, s) && Enabled(s, e)
    requires e.WriteRejection? || e.WriteReply?
    ensures History(cfg, Apply(cfg, s, e))
  {
    hide KeepAlive, Compose, Fill, Decide;
    SameRecords(cfg, s, Apply(cfg, s, e));
  }

  /** Every step of a session keeps everything above. */
  lemma StepKeepsGood(cfg: Config, s: Session, e: Event)
    requires Good(cfg, s) && Enabled(s, e)
    ensures Good(cfg, Apply(cfg, s, e))
  {
    hide Shape, History, Apply, Enabled;
    if e.Classify? {
      ClassifyKeepsHistory(cfg, s);
    } else if Quiet(e) {
      QuietStepKeepsHistory(cfg, s, e);
    } else if e.WriteRejection? || e.WriteReply? {
      WriteStepKeepsHistory(cfg, s, e);
    } else {
      ReadStepKeepsHistory(cfg, s, e);
    }
    match e {
      case CountSession | PostFirstRead | FirstRead | ReadDone(_) | CountReadEnd | CountRead =>
        StartStepKeepsShape(cfg, s, e);
      case Classify | CountRejected | BuildRejection | WriteRejection | ClearBody => RejectStepKeepsShape(cfg, s, e);
      case EnterHandler | Invoke | LeaveHandler | CountHandled => HandlerStepKeepsShape(cfg, s, e);
      case Send(_) | BuildReply | WriteReply | DropWriter | ReleaseWriter => SendStepKeepsShape(cfg, s, e);
      case WriteDone(_) | CountWriteEnd | CountLastWrite | ClearResponse | CountWrite | NextRead =>
        WriteStepKeepsShape(cfg, s, e);
      case Destroy | UncountSession => EndStepKeepsShape(cfg, s, e);
    }
  }
}
