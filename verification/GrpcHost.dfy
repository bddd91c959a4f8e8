/** The gRPC actor host as a transition system.

    Each step is what one task does between two awaits: the run loop, one dispatch task per callback
    read, and a caller of stop().  Steps interleave freely, and the peer decides what every await
    yields.  History that the program does not keep (what was read, how a session ended, where a reply
    landed) is recorded in the state only to be spoken about. */
module GrpcHost {
  import opened Wrappers

  // --- Callbacks and replies ----------------------------------------------------------------------

  datatype Variant = Invoke | Reminder | Timer | Deactivate | UnknownVariant

  datatype Callback = Callback(id: string, variant: Variant, actorType: string)

  datatype Exception = ActorTypeNotFound | ActorMethodNotFound | PayloadDecodeError | OtherException

  datatype Code = NotFound | InvalidArgument | Unknown

  function StatusCodeFor(e: Exception): Code {
    match e
    case ActorTypeNotFound => NotFound
    case ActorMethodNotFound => NotFound
    case PayloadDecodeError => InvalidArgument
    case OtherException => Unknown
  }

  datatype Reply =
    | InvokeResponse(id: string, error: bool)
    | ReminderResponse(id: string)
    | TimerResponse(id: string)
    | DeactivateResponse(id: string)
    | RequestFailed(id: string, code: Code)

  /** How the runtime leaves a handler: it returns, it raises, or building the reply itself raises. */
  datatype Handled = Returned | Raised(e: Exception) | Broke

  function ReplyFor(cb: Callback, h: Handled): Reply
    requires !h.Broke? && !cb.variant.UnknownVariant?
  {
    match cb.variant
    case Invoke =>
      (match h
       case Raised(ActorMethodNotFound) => RequestFailed(cb.id, StatusCodeFor(ActorMethodNotFound))
       case Raised(_) => InvokeResponse(cb.id, true)
       case Returned => InvokeResponse(cb.id, false))
    case Reminder => if h.Raised? then RequestFailed(cb.id, StatusCodeFor(h.e)) else ReminderResponse(cb.id)
    case Timer => if h.Raised? then RequestFailed(cb.id, StatusCodeFor(h.e)) else TimerResponse(cb.id)
    case Deactivate => if h.Raised? then RequestFailed(cb.id, StatusCodeFor(h.e)) else DeactivateResponse(cb.id)
  }

  /** What the peer may be told about a callback: it carries the id of the callback, and is the success
      form of its own kind, an error payload if it was an invocation, or a failure. */
  predicate Suits(cb: Callback, r: Reply) {
    && r.id == cb.id
    && match r
       case InvokeResponse(_, _) => cb.variant.Invoke?
       case ReminderResponse(_) => cb.variant.Reminder?
       case TimerResponse(_) => cb.variant.Timer?
       case DeactivateResponse(_) => cb.variant.Deactivate?
       case RequestFailed(_, _) => !cb.variant.UnknownVariant?
  }

  /** What has come of a callback: nothing yet, its actor type is not hosted, or its handler has ended. */
  datatype Outcome = Pending | NotHosted | Came(handled: Handled)

  /** What the reply tells of the outcome.  An invocation fails only for a method that does not exist, and
      otherwise carries an error payload exactly if it raised; the other kinds succeed exactly if their
      handler returned; and the code of a failure says which class of exception it was. */
  predicate Tells(cb: Callback, outcome: Outcome, r: Reply) {
    && Suits(cb, r)
    && match outcome
       case Pending => false
       case NotHosted => r.RequestFailed? && r.code.NotFound?
       case Came(h) =>
         && (cb.variant.Invoke? ==>
              && (r.RequestFailed? <==> h == Raised(ActorMethodNotFound))
              && (r.InvokeResponse? <==> h != Raised(ActorMethodNotFound))
              && (r.InvokeResponse? ==> (r.error <==> h.Raised?)))
         && (!cb.variant.Invoke? ==> (r.RequestFailed? <==> h.Raised?))
         && (r.RequestFailed? ==>
              && h.Raised?
              && (r.code.NotFound? <==> h.e.ActorTypeNotFound? || h.e.ActorMethodNotFound?)
              && (r.code.InvalidArgument? <==> h.e.PayloadDecodeError?)
              && (r.code.Unknown? <==> h.e.OtherException?))
  }

  lemma RepliesTell(cb: Callback, h: Handled)
    requires !h.Broke? && !cb.variant.UnknownVariant?
    ensures Tells(cb, Came(h), ReplyFor(cb, h))
  {
  }

  /** ... and that leaves one reply. */
  lemma OneReplyTells(cb: Callback, outcome: Outcome, r: Reply, r': Reply)
    requires Tells(cb, outcome, r) && Tells(cb, outcome, r')
    ensures r == r'
  {
  }

  // --- State --------------------------------------------------------------------------------------

  datatype TaskEnd = Ignored | Sent | Dropped | WriteFailed | Broken | Cancelled

  datatype TaskPc =
    | Spawned
    | Handling
    | Sending(reply: Reply)
    | Writing(reply: Reply)
    | Finished(end: TaskEnd)

  /** One dispatch task.  `attempts` counts its calls of send(), `sentAt` is where its reply is on the wire,
      and `outcome` what the reply has to tell. */
  datatype Task = Task(session: nat, callback: Callback, pc: TaskPc, cancelling: bool, attempts: nat, sentAt: Option<nat>,
                       outcome: Outcome)

  datatype Message = Registration(entities: set<string>) | Answer(task: nat, reply: Reply)

  datatype GrpcStatus = Unavailable | UnknownStatus | Internal | CancelledStatus | OtherStatus

  predicate Transient(c: GrpcStatus) { c.Unavailable? || c.UnknownStatus? || c.Internal? }

  datatype SessionEnd =
    | Eof
    | HandshakeClosed
    | HandshakeTimeout
    | NotAnAck
    | Rpc(status: GrpcStatus)
    | TaskCancelled

  predicate Reconnectable(e: SessionEnd) {
    e.Eof? || e.HandshakeClosed? || e.HandshakeTimeout? || (e.Rpc? && Transient(e.status))
  }

  /** Whether the channel was waited for after a session, and what came of it. */
  datatype Channel = NotWaitedFor | CameBack | TimedOut

  /** One stream.  `wire` lists the writes begun on it, and `closedAt` how many had begun when it closed. */
  datatype Session = Session(closed: bool, writeLock: Option<nat>, wire: seq<Message>, closedAt: nat,
                             run: nat, acked: bool, end: Option<SessionEnd>, channel: Channel)

  datatype RunEnd = SawStopping | PeerCancelled | Fatal | ChannelTimedOut | WasCancelled

  datatype RunPc =
    | NoTask
    | AtLoop
    | Registering
    | AwaitingAck
    | Reading
    | WaitingChannel
    | Pausing
    | Ended(why: RunEnd)

  datatype StopPc = NotStopping | AwaitingRun | Draining(pending: set<nat>) | Gathering(pending: set<nat>) | Stopped

  /** `watched` says that start() has seen the registration, so that a failure of the run task is noticed;
      `overtaken` that a start() came in while the last stop() was still draining; `drained` is how many
      dispatch tasks there were when a stop() last began to drain. */
  datatype Host = Host(
    types: set<string>,
    sessions: seq<Session>,
    tasks: seq<Task>,
    received: seq<(nat, Callback)>,
    current: Option<nat>,
    run: RunPc,
    runs: nat,
    cancelling: bool,
    stopping: bool,
    registered: bool,
    watched: bool,
    stop: StopPc,
    overtaken: bool,
    drained: nat)
  {
    /** Some stop() has begun to drain and has not returned. */
    predicate InDrain() { stop.Draining? || stop.Gathering? }

    predicate Connected() { run.Registering? || run.AwaitingAck? || run.Reading? }

    function Unfinished(): set<nat> {
      set t | 0 <= t < |tasks| && !tasks[t].pc.Finished?
    }

    function WithSession(s: nat, session: Session): Host
      requires s < |sessions|
    {
      this.(sessions := sessions[s := session])
    }

    function WithTask(t: nat, task: Task): Host
      requires t < |tasks|
    {
      this.(tasks := tasks[t := task])
    }
  }

  function Initial(types: set<string>): Host {
    Host(types, [], [], [], None, NoTask, 0, false, false, false, false, NotStopping, false, 0)
  }

  // --- Steps --------------------------------------------------------------------------------------

  datatype WriteResult = Written | WriteTimedOut | WriteRpc(status: GrpcStatus)
  datatype AckResult = Ack | AckEof | WrongMessage | AckTimedOut | AckRpc(status: GrpcStatus)
  datatype ReadResult = Delivered(callback: Callback) | ReadEof | ReadRpc(status: GrpcStatus)
  datatype SendResult = SendOk | SendRpcError | SendOtherError

  datatype Step =
    | Start
    | LoopTop
    | RegistrationDone(written: WriteResult)
    | AckDone(ack: AckResult)
    | ReadDone(read: ReadResult)
    | ChannelWaited(ready: bool)
    | PauseOver
    | RunCancelled
    | RunFailureNoticed
    | BeginStop
    | RunAwaited
    | DrainOver(timedOut: bool)
    | GatherOver
    | TaskStarts(task: nat)
    | HandlerDone(task: nat, handled: Handled)
    | SendStarts(task: nat)
    | SendDone(task: nat, sent: SendResult)
    | TaskCancels(task: nat)

  /** The finally clause of a session. */
  function CloseSession(s: Session, end: SessionEnd): Session {
    Close(s).(end := Some(end))
  }

  function Close(s: Session): Session {
    if s.closed then s else s.(closed := true, closedAt := |s.wire|)
  }

  /** Where the run loop goes when a session has ended. */
  function AfterSession(end: SessionEnd, stopping: bool): RunPc {
    match end
    case Eof => if stopping then Ended(SawStopping) else WaitingChannel
    case HandshakeClosed => if stopping then Ended(SawStopping) else WaitingChannel
    case HandshakeTimeout => if stopping then Ended(SawStopping) else WaitingChannel
    case NotAnAck => Ended(Fatal)
    case Rpc(status) =>
      if stopping then Ended(SawStopping)
      else if status.CancelledStatus? then Ended(PeerCancelled)
      else if !Transient(status) then Ended(Fatal)
      else WaitingChannel
    case TaskCancelled => Ended(WasCancelled)
  }

  function EndSession(h: Host, end: SessionEnd): Host
    requires h.current.Some? && h.current.value < |h.sessions|
  {
    var s := h.current.value;
    h.WithSession(s, CloseSession(h.sessions[s], end)).(current := None, run := AfterSession(end, h.stopping))
  }

  /** stop() once the run task is gone: drain what is unfinished, or return. */
  function Drain(h: Host): Host {
    if h.Unfinished() == {} then h.(run := NoTask, registered := false, stop := Stopped, drained := |h.tasks|)
    else h.(run := NoTask, stop := Draining(h.Unfinished()), drained := |h.tasks|)
  }

  predicate OfSend(step: Step) { step.SendStarts? || step.SendDone? || step.TaskCancels? }
  predicate OfTask(step: Step) { step.TaskStarts? || step.HandlerDone? || OfSend(step) }
  predicate InSession(step: Step) { step.RegistrationDone? || step.AckDone? || step.ReadDone? }

  /** Which steps may happen: a task resumes only where it waits, and once it is being cancelled it
      resumes only to be cancelled. */
  predicate Enabled(h: Host, step: Step) {
    if OfTask(step) then TaskEnabled(h, step) else LoopEnabled(h, step)
  }

  predicate LoopEnabled(h: Host, step: Step) {
    match step
    case Start => h.run.NoTask? && h.types != {}
    case LoopTop => h.run.AtLoop? && !h.cancelling
    case RegistrationDone(_) => h.run.Registering? && !h.cancelling
    case AckDone(_) => h.run.AwaitingAck? && !h.cancelling
    case ReadDone(_) => h.run.Reading? && !h.cancelling
    case ChannelWaited(_) => h.run.WaitingChannel? && !h.cancelling
    case PauseOver => h.run.Pausing? && !h.cancelling
    case RunCancelled => h.cancelling && !h.run.NoTask? && !h.run.Ended?
    case RunFailureNoticed =>
      h.run.Ended? && (h.run.why.Fatal? || h.run.why.ChannelTimedOut?) && !h.stopping && h.watched
    case BeginStop => h.stop.NotStopping? || h.stop.Stopped?
    case RunAwaited => h.stop.AwaitingRun? && h.run.Ended?
    case DrainOver(timedOut) => h.stop.Draining? && (timedOut || h.stop.pending !! h.Unfinished())
    case GatherOver => h.stop.Gathering? && h.stop.pending !! h.Unfinished()
    case _ => false
  }

  predicate TaskEnabled(h: Host, step: Step)
    requires OfTask(step)
  {
    step.task < |h.tasks| &&
    var task := h.tasks[step.task];
    match step
    case TaskStarts(_) => task.pc.Spawned? && !task.cancelling
    case HandlerDone(_, _) => task.pc.Handling? && !task.cancelling
    case SendStarts(_) =>
      task.pc.Sending? && !task.cancelling && task.session < |h.sessions| && h.sessions[task.session].writeLock.None?
    case SendDone(_, _) => task.pc.Writing? && !task.cancelling && task.session < |h.sessions|
    case TaskCancels(_) => task.cancelling && !task.pc.Finished? && task.session < |h.sessions|
  }

  /** What the run loop holds while it waits: a session in hand, or one that just ended. */
  predicate Indexed(h: Host) {
    && (h.current.Some? ==> h.current.value < |h.sessions|)
    && (h.Connected() ==> h.current.Some?)
    && (h.run.WaitingChannel? ==> h.sessions != [])
  }

  function OpenSession(h: Host): Host {
    h.(sessions := h.sessions + [Session(false, None, [Registration(h.types)], 0, h.runs, false, None, NotWaitedFor)],
       current := Some(|h.sessions|), run := Registering)
  }

  function Acknowledge(h: Host): Host
    requires h.current.Some? && h.current.value < |h.sessions|
  {
    var s := h.current.value;
    h.WithSession(s, h.sessions[s].(acked := true)).(registered := true, watched := true, run := Reading)
  }

  /** A callback is read: a dispatch task of its own is created for it. */
  function Deliver(h: Host, cb: Callback): Host
    requires h.current.Some?
  {
    h.(tasks := h.tasks + [Task(h.current.value, cb, Spawned, false, 0, None, Pending)],
       received := h.received + [(h.current.value, cb)])
  }

  function ChannelAnswered(h: Host, ready: bool): Host
    requires h.sessions != []
  {
    var s := |h.sessions| - 1;
    h.WithSession(s, h.sessions[s].(channel := if ready then CameBack else TimedOut))
     .(run := if ready then Pausing else Ended(ChannelTimedOut))
  }

  /** stop() up to its first await: the host is stopping, and its session is closed. */
  function Stopping(h: Host): Host
    requires h.current.Some? ==> h.current.value < |h.sessions|
  {
    (if h.current.Some? then h.WithSession(h.current.value, Close(h.sessions[h.current.value])) else h)
      .(stopping := true, overtaken := false)
  }

  function StopBegun(h: Host): Host
    requires h.current.Some? ==> h.current.value < |h.sessions|
  {
    if h.run.NoTask? then Drain(Stopping(h)) else Stopping(h).(cancelling := true, stop := AwaitingRun)
  }

  function CancelAll(tasks: seq<Task>, late: set<nat>): (r: seq<Task>)
    ensures |r| == |tasks|
    ensures forall t :: 0 <= t < |tasks| ==> r[t] == tasks[t].(cancelling := tasks[t].cancelling || t in late)
  {
    seq(|tasks|, t requires 0 <= t < |tasks| => tasks[t].(cancelling := tasks[t].cancelling || t in late))
  }

  /** The drain is over: whoever is late is cancelled, and waited for. */
  function DrainEnded(h: Host): Host
    requires h.stop.Draining?
  {
    var late := h.stop.pending * h.Unfinished();
    if late == {} then h.(registered := false, stop := Stopped)
    else h.(tasks := CancelAll(h.tasks, late), stop := Gathering(late))
  }

  /** The first stretch of a dispatch task: the variant, and whether the actor type is hosted. */
  function Dispatched(task: Task, types: set<string>): Task {
    if task.callback.variant.UnknownVariant? then task.(pc := Finished(Ignored))
    else if task.callback.actorType !in types then
      task.(pc := Sending(RequestFailed(task.callback.id, StatusCodeFor(ActorTypeNotFound))),
            attempts := task.attempts + 1, outcome := NotHosted)
    else task.(pc := Handling)
  }

  function AfterHandler(task: Task, handled: Handled): Task {
    if handled.Broke? || task.callback.variant.UnknownVariant? then task.(pc := Finished(Broken), outcome := Came(handled))
    else task.(pc := Sending(ReplyFor(task.callback, handled)), attempts := task.attempts + 1, outcome := Came(handled))
  }

  /** The lock is free: the reply is dropped if the stream is closed, and its write begins if not. */
  function SendBegun(h: Host, t: nat): Host
    requires t < |h.tasks| && h.tasks[t].pc.Sending? && h.tasks[t].session < |h.sessions|
  {
    var task := h.tasks[t];
    var session := h.sessions[task.session];
    if session.closed then
      h.WithTask(t, task.(pc := Finished(Dropped)))
    else
      h.WithTask(t, task.(pc := Writing(task.pc.reply), sentAt := Some(|session.wire|)))
       .WithSession(task.session, session.(writeLock := Some(t), wire := session.wire + [Answer(t, task.pc.reply)]))
  }

  function SendEnded(h: Host, t: nat, sent: SendResult): Host
    requires t < |h.tasks| && h.tasks[t].session < |h.sessions|
  {
    var task := h.tasks[t];
    var session := h.sessions[task.session].(writeLock := None);
    h.WithTask(t, task.(pc := Finished(if sent.SendOk? then Sent else WriteFailed)))
     .WithSession(task.session, if sent.SendRpcError? then Close(session) else session)
  }

  function TaskCancelledAt(h: Host, t: nat): Host
    requires t < |h.tasks| && h.tasks[t].session < |h.sessions|
  {
    var task := h.tasks[t];
    var session := h.sessions[task.session];
    h.WithTask(t, task.(pc := Finished(Cancelled)))
     .WithSession(task.session, if task.pc.Writing? then session.(writeLock := None) else session)
  }

  function Next(h: Host, step: Step): Host
    requires Enabled(h, step) && Indexed(h)
  {
    if OfSend(step) then SendNext(h, step)
    else if OfTask(step) then HandleNext(h, step)
    else if InSession(step) then SessionNext(h, step)
    else LoopNext(h, step)
  }

  function SendNext(h: Host, step: Step): Host
    requires OfSend(step) && TaskEnabled(h, step)
  {
    match step
    case SendStarts(t) => SendBegun(h, t)
    case SendDone(t, sent) => SendEnded(h, t, sent)
    case TaskCancels(t) => TaskCancelledAt(h, t)
  }

  function HandleNext(h: Host, step: Step): Host
    requires OfTask(step) && !OfSend(step) && TaskEnabled(h, step)
  {
    h.WithTask(step.task,
      if step.TaskStarts? then Dispatched(h.tasks[step.task], h.types) else AfterHandler(h.tasks[step.task], step.handled))
  }

  function SessionNext(h: Host, step: Step): Host
    requires InSession(step) && LoopEnabled(h, step) && Indexed(h)
  {
    match step
    case RegistrationDone(written) =>
      (match written
       case Written => h.(run := AwaitingAck)
       case WriteTimedOut => EndSession(h, HandshakeTimeout)
       case WriteRpc(status) => EndSession(h, Rpc(status)))
    case AckDone(ack) =>
      (match ack
       case Ack => Acknowledge(h)
       case AckEof => EndSession(h, HandshakeClosed)
       case WrongMessage => EndSession(h, NotAnAck)
       case AckTimedOut => EndSession(h, HandshakeTimeout)
       case AckRpc(status) => EndSession(h, Rpc(status)))
    case ReadDone(read) =>
      (match read
       case Delivered(cb) => Deliver(h, cb)
       case ReadEof => EndSession(h, Eof)
       case ReadRpc(status) => EndSession(h, Rpc(status)))
  }

  function LoopNext(h: Host, step: Step): Host
    requires !InSession(step) && !OfTask(step) && LoopEnabled(h, step) && Indexed(h)
  {
    match step
    case Start => Started(h)
    case LoopTop => if h.stopping then h.(run := Ended(SawStopping)) else OpenSession(h)
    case ChannelWaited(ready) => ChannelAnswered(h, ready)
    case PauseOver => h.(run := AtLoop)
    case RunCancelled => if h.current.Some? then EndSession(h, TaskCancelled) else h.(run := Ended(WasCancelled))
    case RunFailureNoticed => h.(run := NoTask, registered := false)
    case BeginStop => StopBegun(h)
    case RunAwaited => Drain(h)
    case DrainOver(_) => DrainEnded(h)
    case GatherOver => h.(registered := false, stop := Stopped)
  }

  /** A new run of the loop; a stop() that is still draining goes on beside it. */
  function Started(h: Host): Host {
    h.(stopping := false, registered := false, watched := false, run := AtLoop, runs := h.runs + 1,
       cancelling := false, overtaken := h.InDrain(), stop := if h.InDrain() then h.stop else NotStopping)
  }
}
