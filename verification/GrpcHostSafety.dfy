/** What holds in every state the host can reach, whatever the interleaving. */
module GrpcHostSafety {
  import opened Wrappers
  import opened GrpcHost

  // --- Streams and tasks --------------------------------------------------------------------------

  /** Each callback read has its own task, on the stream it was read from, which had been acknowledged. */
  ghost predicate TaskIsRead(sessions: seq<Session>, task: Task, received: (nat, Callback)) {
    task.session < |sessions| && sessions[task.session].acked && received == (task.session, task.callback)
  }

  /** A task calls send() once at most, and where it stands says whether it has. */
  ghost predicate TaskSane(task: Task) {
    match task.pc
    case Spawned => task.attempts == 0 && task.sentAt.None? && task.outcome.Pending?
    case Handling => task.attempts == 0 && task.sentAt.None? && task.outcome.Pending? && !task.callback.variant.UnknownVariant?
    case Sending(r) => task.attempts == 1 && task.sentAt.None? && Tells(task.callback, task.outcome, r)
    case Writing(r) => task.attempts == 1 && task.sentAt.Some? && Tells(task.callback, task.outcome, r)
    case Finished(Ignored) => task.attempts == 0 && task.sentAt.None? && task.callback.variant.UnknownVariant?
    case Finished(Sent) => task.attempts == 1 && task.sentAt.Some?
    case Finished(Dropped) => task.attempts == 1 && task.sentAt.None?
    case Finished(WriteFailed) => task.attempts == 1 && task.sentAt.Some?
    case Finished(Broken) => task.attempts == 0 && task.sentAt.None?
    case Finished(Cancelled) => task.attempts <= 1 && (task.sentAt.Some? ==> task.attempts == 1)
  }

  /** The first message of a stream registers; every later one answers a callback read from that very
      stream, tells what has come of it, and is the one reply its task has there. */
  ghost predicate MessageFits(tasks: seq<Task>, s: nat, i: nat, m: Message) {
    if i == 0 then m.Registration?
    else
      && m.Answer? && m.task < |tasks|
      && tasks[m.task].session == s
      && tasks[m.task].sentAt == Some(i)
      && Tells(tasks[m.task].callback, tasks[m.task].outcome, m.reply)
  }

  /** No write begins once a stream is closed, and its lock is held by the one task writing to it. */
  ghost predicate StreamSane(tasks: seq<Task>, s: nat, session: Session) {
    && session.wire != []
    && (session.closed ==> session.closedAt == |session.wire|)
    && (forall i :: 0 <= i < |session.wire| ==> MessageFits(tasks, s, i, session.wire[i]))
    && (session.writeLock.Some? ==>
          var t := session.writeLock.value;
          t < |tasks| && tasks[t].session == s && tasks[t].pc.Writing?)
  }

  ghost predicate TaskFits(sessions: seq<Session>, received: seq<(nat, Callback)>, t: nat, task: Task)
    requires t < |received|
  {
    && TaskIsRead(sessions, task, received[t]) && TaskSane(task)
    && (task.pc.Writing? ==> sessions[task.session].writeLock == Some(t))
  }

  ghost predicate StreamsFit(sessions: seq<Session>, tasks: seq<Task>, received: seq<(nat, Callback)>) {
    && |tasks| == |received|
    && (forall t :: 0 <= t < |tasks| ==> TaskFits(sessions, received, t, tasks[t]))
    && (forall s :: 0 <= s < |sessions| ==> StreamSane(tasks, s, sessions[s]))
  }

  /** A session changed only in what its stream does not carry. */
  predicate SameStream(a: Session, b: Session) {
    && b.wire == a.wire && b.writeLock == a.writeLock && (a.acked ==> b.acked)
    && (b.closed ==> b.closedAt == |b.wire|)
  }

  lemma SessionKeepsStreams(sessions: seq<Session>, tasks: seq<Task>, received: seq<(nat, Callback)>, s: nat, session: Session)
    requires StreamsFit(sessions, tasks, received) && s < |sessions| && SameStream(sessions[s], session)
    ensures StreamsFit(sessions[s := session], tasks, received)
  {
  }

  lemma OpeningKeepsStreams(sessions: seq<Session>, tasks: seq<Task>, received: seq<(nat, Callback)>, session: Session)
    requires StreamsFit(sessions, tasks, received)
    requires |session.wire| == 1 && session.wire[0].Registration? && session.writeLock.None? && !session.closed
    ensures StreamsFit(sessions + [session], tasks, received)
  {
  }

  lemma DeliveryKeepsStreams(sessions: seq<Session>, tasks: seq<Task>, received: seq<(nat, Callback)>, s: nat, cb: Callback)
    requires StreamsFit(sessions, tasks, received) && s < |sessions| && sessions[s].acked
    ensures StreamsFit(sessions, tasks + [Task(s, cb, Spawned, false, 0, None, Pending)], received + [(s, cb)])
  {
  }

  /** A task moves without touching its stream. */
  lemma TaskKeepsStreams(sessions: seq<Session>, tasks: seq<Task>, received: seq<(nat, Callback)>, t: nat, task: Task)
    requires StreamsFit(sessions, tasks, received) && t < |tasks|
    requires task.session == tasks[t].session && task.callback == tasks[t].callback && task.sentAt == tasks[t].sentAt
    requires TaskSane(task) && (task.pc.Writing? <==> tasks[t].pc.Writing?)
    requires task.outcome == tasks[t].outcome || tasks[t].sentAt.None?
    ensures StreamsFit(sessions, tasks[t := task], received)
  {
  }

  /** A write begins: the reply of a task that had none goes last on an open, unlocked stream. */
  lemma WriteKeepsStreams(h: Host, t: nat)
    requires StreamsFit(h.sessions, h.tasks, h.received) && Enabled(h, SendStarts(t))
    requires !h.sessions[h.tasks[t].session].closed
    ensures var h' := SendBegun(h, t); StreamsFit(h'.sessions, h'.tasks, h'.received)
  {
    var h' := SendBegun(h, t);
    assert TaskFits(h.sessions, h.received, t, h.tasks[t]);
    forall u | 0 <= u < |h'.tasks| ensures TaskFits(h'.sessions, h'.received, u, h'.tasks[u]) {
      assert TaskFits(h.sessions, h.received, u, h.tasks[u]);
    }
    forall r | 0 <= r < |h'.sessions| ensures StreamSane(h'.tasks, r, h'.sessions[r]) {
      assert StreamSane(h.tasks, r, h.sessions[r]);
      forall i | 0 <= i < |h'.sessions[r].wire| ensures MessageFits(h'.tasks, r, i, h'.sessions[r].wire[i]) {
        if i < |h.sessions[r].wire| {
          assert MessageFits(h.tasks, r, i, h.sessions[r].wire[i]);
        }
      }
    }
  }

  /** A write ends, well, badly or cancelled: the lock is released. */
  lemma ReleaseKeepsStreams(h: Host, t: nat, end: TaskEnd, close: bool)
    requires StreamsFit(h.sessions, h.tasks, h.received) && t < |h.tasks| && h.tasks[t].pc.Writing?
    requires end.Sent? || end.WriteFailed? || end.Cancelled?
    ensures var s := h.tasks[t].session;
            && s < |h.sessions|
            && var freed := h.sessions[s].(writeLock := None);
               StreamsFit(h.sessions[s := if close then Close(freed) else freed],
                          h.tasks[t := h.tasks[t].(pc := Finished(end))], h.received)
  {
  }

  lemma CancelAllKeepsStreams(sessions: seq<Session>, tasks: seq<Task>, received: seq<(nat, Callback)>, late: set<nat>)
    requires StreamsFit(sessions, tasks, received)
    ensures StreamsFit(sessions, CancelAll(tasks, late), received)
  {
  }

  lemma EndKeepsStreams(h: Host, end: SessionEnd)
    requires StreamsFit(h.sessions, h.tasks, h.received) && h.current.Some? && h.current.value < |h.sessions|
    ensures var h' := EndSession(h, end); StreamsFit(h'.sessions, h'.tasks, h'.received)
  {
  }

  lemma SessionStepKeepsStreams(h: Host, step: Step)
    requires StreamsFit(h.sessions, h.tasks, h.received) && Indexed(h) && Enabled(h, step) && InSession(step)
    requires h.run.Reading? ==> h.sessions[h.current.value].acked
    ensures var h' := Next(h, step); StreamsFit(h'.sessions, h'.tasks, h'.received)
  {
    hide TaskEnabled, SendNext, HandleNext, LoopNext, EndSession;
    forall end ensures var h' := EndSession(h, end); StreamsFit(h'.sessions, h'.tasks, h'.received) {
      EndKeepsStreams(h, end);
    }
    if step == AckDone(Ack) {
      var s := h.current.value;
      assert StreamSane(h.tasks, s, h.sessions[s]);
      SessionKeepsStreams(h.sessions, h.tasks, h.received, s, h.sessions[s].(acked := true));
    } else if step.ReadDone? && step.read.Delivered? {
      DeliveryKeepsStreams(h.sessions, h.tasks, h.received, h.current.value, step.read.callback);
    }
  }

  lemma ChannelKeepsStreams(h: Host, ready: bool)
    requires StreamsFit(h.sessions, h.tasks, h.received) && h.sessions != []
    ensures var h' := ChannelAnswered(h, ready); StreamsFit(h'.sessions, h'.tasks, h'.received)
  {
    var s := |h.sessions| - 1;
    assert StreamSane(h.tasks, s, h.sessions[s]);
    SessionKeepsStreams(h.sessions, h.tasks, h.received, s, h.sessions[s].(channel := if ready then CameBack else TimedOut));
  }

  lemma StopKeepsStreams(h: Host)
    requires StreamsFit(h.sessions, h.tasks, h.received) && (h.current.Some? ==> h.current.value < |h.sessions|)
    ensures var h' := StopBegun(h); StreamsFit(h'.sessions, h'.tasks, h'.received)
  {
    hide StreamsFit, Close;
    if h.current.Some? {
      CloseKeepsStreams(h, h.current.value);
    }
    StopChangesNoMore(h);
  }

  lemma StopChangesNoMore(h: Host)
    requires h.current.Some? ==> h.current.value < |h.sessions|
    ensures var h' := StopBegun(h); h'.sessions == Stopping(h).sessions && h'.tasks == h.tasks && h'.received == h.received
  {
    hide Close;
  }

  lemma CloseKeepsStreams(h: Host, s: nat)
    requires StreamsFit(h.sessions, h.tasks, h.received) && s < |h.sessions|
    ensures StreamsFit(h.sessions[s := Close(h.sessions[s])], h.tasks, h.received)
  {
    assert StreamSane(h.tasks, s, h.sessions[s]);
    SessionKeepsStreams(h.sessions, h.tasks, h.received, s, Close(h.sessions[s]));
  }

  lemma LoopStepKeepsStreams(h: Host, step: Step)
    requires StreamsFit(h.sessions, h.tasks, h.received) && Indexed(h) && Enabled(h, step)
    requires !InSession(step) && !OfTask(step)
    ensures var h' := Next(h, step); StreamsFit(h'.sessions, h'.tasks, h'.received)
  {
    hide TaskEnabled, SendNext, HandleNext, SessionNext, EndSession, StreamsFit, StopBegun, ChannelAnswered;
    if step.LoopTop? {
      OpeningKeepsStreams(h.sessions, h.tasks, h.received,
        Session(false, None, [Registration(h.types)], 0, h.runs, false, None, NotWaitedFor));
    } else if step.ChannelWaited? {
      ChannelKeepsStreams(h, step.ready);
    } else if step.RunCancelled? && h.current.Some? {
      EndKeepsStreams(h, TaskCancelled);
    } else if step.BeginStop? {
      StopKeepsStreams(h);
    } else if step.DrainOver? {
      CancelAllKeepsStreams(h.sessions, h.tasks, h.received, h.stop.pending * h.Unfinished());
    }
  }

  lemma SendStepKeepsStreams(h: Host, step: Step)
    requires StreamsFit(h.sessions, h.tasks, h.received) && Indexed(h) && Enabled(h, step) && OfSend(step)
    ensures var h' := Next(h, step); StreamsFit(h'.sessions, h'.tasks, h'.received)
  {
    hide LoopEnabled, HandleNext, SessionNext, LoopNext;
    var t, task := step.task, h.tasks[step.task];
    var s := task.session;
    if step.SendStarts? && h.sessions[s].closed {
      assert TaskFits(h.sessions, h.received, t, task);
      TaskKeepsStreams(h.sessions, h.tasks, h.received, t, task.(pc := Finished(Dropped)));
    } else if step.SendStarts? {
      WriteKeepsStreams(h, t);
    } else if step.SendDone? {
      ReleaseKeepsStreams(h, t, if step.sent.SendOk? then Sent else WriteFailed, step.sent.SendRpcError?);
    } else if task.pc.Writing? {
      ReleaseKeepsStreams(h, t, Cancelled, false);
    } else {
      assert TaskFits(h.sessions, h.received, t, task);
      TaskKeepsStreams(h.sessions, h.tasks, h.received, t, task.(pc := Finished(Cancelled)));
      assert h.sessions[s := h.sessions[s]] == h.sessions;
    }
  }

  lemma TaskStepKeepsStreams(h: Host, step: Step)
    requires StreamsFit(h.sessions, h.tasks, h.received) && Indexed(h) && Enabled(h, step) && OfTask(step)
    ensures var h' := Next(h, step); StreamsFit(h'.sessions, h'.tasks, h'.received)
  {
    hide LoopEnabled, SendNext, SessionNext, LoopNext;
    var t, task := step.task, h.tasks[step.task];
    if OfSend(step) {
      SendStepKeepsStreams(h, step);
    } else {
      assert TaskFits(h.sessions, h.received, t, task);
      if step.HandlerDone? && !step.handled.Broke? { RepliesTell(task.callback, step.handled); }
      TaskKeepsStreams(h.sessions, h.tasks, h.received, t,
        if step.TaskStarts? then Dispatched(task, h.types) else AfterHandler(task, step.handled));
    }
  }

  // --- The run loop and stop ------------------------------------------------------------------------

  /** Every session but the one in hand is closed, and its end is known. */
  ghost predicate SessionsOver(h: Host) {
    forall s :: 0 <= s < |h.sessions| ==>
      && h.sessions[s].run <= h.runs
      && (h.current != Some(s) ==> h.sessions[s].closed && h.sessions[s].end.Some?)
  }

  ghost predicate RunSane(h: Host) {
    && Indexed(h)
    && (h.current.Some? <==> h.Connected())
    && (h.current.Some? ==>
          var s := h.current.value;
          s + 1 == |h.sessions| && h.sessions[s].end.None? && h.sessions[s].run == h.runs)
    && (h.run.Reading? ==> h.sessions[h.current.value].acked)
    && (h.cancelling ==> h.stopping)
  }

  predicate MayReopen(s: Session) {
    s.end.Some? && Reconnectable(s.end.value) && s.channel.CameBack?
  }

  ghost predicate LastEnded(h: Host) {
    h.sessions != [] && h.sessions[|h.sessions| - 1].run == h.runs && h.sessions[|h.sessions| - 1].end.Some?
  }

  ghost function LastEnd(h: Host): SessionEnd
    requires LastEnded(h)
  {
    h.sessions[|h.sessions| - 1].end.value
  }

  /** Where the run loop stands, against how its last session ended. */
  ghost predicate EndFits(h: Host)
    requires Indexed(h)
  {
    match h.run
    case WaitingChannel => LastEnded(h) && Reconnectable(LastEnd(h)) && h.sessions[|h.sessions| - 1].channel.NotWaitedFor?
    case Pausing => LastEnded(h) && MayReopen(h.sessions[|h.sessions| - 1])
    case AtLoop =>
      h.sessions != [] && h.sessions[|h.sessions| - 1].run == h.runs ==> MayReopen(h.sessions[|h.sessions| - 1])
    case Ended(SawStopping) => h.stopping
    case Ended(WasCancelled) => h.cancelling
    case Ended(PeerCancelled) => LastEnded(h) && LastEnd(h) == Rpc(CancelledStatus)
    case Ended(Fatal) => LastEnded(h) && (LastEnd(h).NotAnAck? || (LastEnd(h).Rpc? && LastEnd(h).status.OtherStatus?))
    case Ended(ChannelTimedOut) =>
      LastEnded(h) && Reconnectable(LastEnd(h)) && h.sessions[|h.sessions| - 1].channel.TimedOut?
    case NoTask => !h.stopping && LastEnded(h) && Reconnectable(LastEnd(h)) ==> h.sessions[|h.sessions| - 1].channel.TimedOut?
    case _ => h.current.Some? ==> h.sessions[h.current.value].channel.NotWaitedFor?
  }

  /** Within a run, a session is followed by another only if it ended for a reason to reconnect and the
      channel came back. */
  ghost predicate ReopeningsFit(h: Host) {
    forall s :: 0 <= s < |h.sessions| - 1 && h.sessions[s].run == h.sessions[s + 1].run ==> MayReopen(h.sessions[s])
  }

  ghost predicate StopSane(h: Host)
    requires Indexed(h)
  {
    match h.stop
    case NotStopping => true
    case AwaitingRun =>
      h.stopping && h.cancelling && !h.run.NoTask? && (h.current.Some? ==> h.sessions[h.current.value].closed)
    case Draining(pending) => h.overtaken || (h.stopping && h.run.NoTask? && h.Unfinished() <= pending)
    case Gathering(pending) => h.overtaken || (h.stopping && h.run.NoTask? && h.Unfinished() <= pending)
    case Stopped => h.overtaken || (h.stopping && h.run.NoTask? && h.Unfinished() == {} && !h.registered)
  }

  ghost predicate LoopFits(h: Host) {
    SessionsOver(h) && RunSane(h) && EndFits(h) && ReopeningsFit(h) && StopSane(h)
  }

  lemma EndKeepsLoop(h: Host, end: SessionEnd)
    requires LoopFits(h) && h.current.Some?
    requires if end.TaskCancelled? then h.cancelling else !h.cancelling
    ensures LoopFits(EndSession(h, end))
  {
  }

  lemma OpenKeepsLoop(h: Host)
    requires LoopFits(h) && h.run.AtLoop? && !h.cancelling && !h.stopping
    ensures LoopFits(OpenSession(h))
  {
  }

  lemma AcknowledgeKeepsLoop(h: Host)
    requires LoopFits(h) && h.run.AwaitingAck? && !h.cancelling
    ensures LoopFits(Acknowledge(h))
  {
  }

  lemma ChannelKeepsLoop(h: Host, ready: bool)
    requires LoopFits(h) && h.run.WaitingChannel? && !h.cancelling
    ensures LoopFits(ChannelAnswered(h, ready))
  {
  }

  lemma CloseKeepsLoop(h: Host)
    requires LoopFits(h) && h.current.Some?
    ensures var s := h.current.value; LoopFits(h.WithSession(s, Close(h.sessions[s])))
  {
  }

  lemma StopKeepsLoop(h: Host)
    requires LoopFits(h) && (h.stop.NotStopping? || h.stop.Stopped?)
    ensures LoopFits(StopBegun(h))
  {
    var h1 := h;
    if h.current.Some? {
      CloseKeepsLoop(h);
      h1 := h.WithSession(h.current.value, Close(h.sessions[h.current.value]));
    }
    MarkKeepsLoop(h1);
  }

  lemma MarkKeepsLoop(h: Host)
    requires LoopFits(h) && (h.stop.NotStopping? || h.stop.Stopped?)
    requires h.current.Some? ==> h.sessions[h.current.value].closed
    ensures LoopFits(if h.run.NoTask? then Drain(h.(stopping := true, overtaken := false))
                     else h.(stopping := true, overtaken := false, cancelling := true, stop := AwaitingRun))
  {
    if h.run.NoTask? {
      DrainAtOnceKeepsLoop(h.(stopping := true, overtaken := false));
      hide LoopFits, Drain;
    }
  }

  lemma DrainAtOnceKeepsLoop(h: Host)
    requires Indexed(h) && SessionsOver(h) && RunSane(h) && ReopeningsFit(h) && h.run.NoTask? && h.stopping
    ensures LoopFits(Drain(h))
  {
  }

  lemma DrainEndedKeepsLoop(h: Host)
    requires LoopFits(h) && h.stop.Draining?
    ensures LoopFits(DrainEnded(h))
  {
    var late := h.stop.pending * h.Unfinished();
    var h' := DrainEnded(h);
    assert h'.sessions == h.sessions && h'.current == h.current && h'.run == h.run && h'.runs == h.runs;
    assert SessionsOver(h') && RunSane(h') && EndFits(h') && ReopeningsFit(h');
    hide SessionsOver, EndFits, ReopeningsFit;
    assert h'.Unfinished() == h.Unfinished();
  }

  lemma StartKeepsLoop(h: Host)
    requires LoopFits(h) && h.run.NoTask?
    ensures LoopFits(Started(h))
  {
  }

  lemma DrainKeepsLoop(h: Host)
    requires LoopFits(h) && h.stop.AwaitingRun? && h.run.Ended?
    ensures LoopFits(Drain(h))
  {
  }

  lemma SessionStepKeepsLoop(h: Host, step: Step)
    requires LoopFits(h) && Enabled(h, step) && InSession(step)
    ensures LoopFits(Next(h, step))
  {
    hide TaskEnabled, SendNext, HandleNext, LoopNext, EndSession, Acknowledge;
    match step
    case RegistrationDone(written) =>
      if !written.Written? {
        EndKeepsLoop(h, if written.WriteTimedOut? then HandshakeTimeout else Rpc(written.status));
      }
    case AckDone(ack) =>
      match ack {
        case Ack => AcknowledgeKeepsLoop(h);
        case AckEof => EndKeepsLoop(h, HandshakeClosed);
        case WrongMessage => EndKeepsLoop(h, NotAnAck);
        case AckTimedOut => EndKeepsLoop(h, HandshakeTimeout);
        case AckRpc(status) => EndKeepsLoop(h, Rpc(status));
      }
    case ReadDone(read) =>
      match read {
        case Delivered(cb) =>
        case ReadEof => EndKeepsLoop(h, Eof);
        case ReadRpc(status) => EndKeepsLoop(h, Rpc(status));
      }
  }

  /** Any other step of the run loop, and the steps of stop(). */
  lemma LoopStepKeepsLoop(h: Host, step: Step)
    requires LoopFits(h) && Enabled(h, step) && !OfTask(step) && !InSession(step)
    ensures LoopFits(Next(h, step))
  {
    hide TaskEnabled, SendNext, HandleNext, SessionNext, EndSession, OpenSession, ChannelAnswered, StopBegun, Started, Drain, DrainEnded;
    match step
    case Start => StartKeepsLoop(h);
    case LoopTop => if !h.stopping { OpenKeepsLoop(h); }
    case ChannelWaited(ready) => ChannelKeepsLoop(h, ready);
    case PauseOver =>
    case RunCancelled => if h.current.Some? { EndKeepsLoop(h, TaskCancelled); }
    case RunFailureNoticed =>
    case BeginStop => StopKeepsLoop(h);
    case RunAwaited => DrainKeepsLoop(h);
    case DrainOver(timedOut) => DrainEndedKeepsLoop(h);
    case GatherOver =>
  }

  /** What a dispatch task can do to a session: write to it, release its lock, close it. */
  predicate Touched(a: Session, b: Session) {
    && b.end == a.end && b.run == a.run && b.acked == a.acked && b.channel == a.channel
    && (a.closed ==> b.closed)
  }

  /** The run loop and stop() see of that only closed streams and finished tasks. */
  lemma TouchKeepsLoop(h: Host, s: nat, session: Session, t: nat, task: Task)
    requires LoopFits(h) && s < |h.sessions| && t < |h.tasks|
    requires Touched(h.sessions[s], session) && (h.tasks[t].pc.Finished? ==> task.pc.Finished?)
    ensures LoopFits(h.WithTask(t, task).WithSession(s, session))
  {
    var h' := h.WithTask(t, task).WithSession(s, session);
    assert h'.Unfinished() <= h.Unfinished();
    assert forall r :: 0 <= r < |h.sessions| ==> Touched(h.sessions[r], h'.sessions[r]);
  }

  lemma SendKeepsLoop(h: Host, t: nat)
    requires LoopFits(h) && t < |h.tasks| && h.tasks[t].pc.Sending? && h.tasks[t].session < |h.sessions|
    ensures LoopFits(SendBegun(h, t))
  {
    hide LoopFits;
    var s, h' := h.tasks[t].session, SendBegun(h, t);
    assert h.sessions[s := h.sessions[s]] == h.sessions;
    TouchKeepsLoop(h, s, h'.sessions[s], t, h'.tasks[t]);
  }

  lemma SentKeepsLoop(h: Host, t: nat, sent: SendResult)
    requires LoopFits(h) && t < |h.tasks| && h.tasks[t].session < |h.sessions|
    ensures LoopFits(SendEnded(h, t, sent))
  {
    hide LoopFits;
    var s, h' := h.tasks[t].session, SendEnded(h, t, sent);
    TouchKeepsLoop(h, s, h'.sessions[s], t, h'.tasks[t]);
  }

  lemma CancelKeepsLoop(h: Host, t: nat)
    requires LoopFits(h) && t < |h.tasks| && h.tasks[t].session < |h.sessions|
    ensures LoopFits(TaskCancelledAt(h, t))
  {
    hide LoopFits;
    var s, h' := h.tasks[t].session, TaskCancelledAt(h, t);
    TouchKeepsLoop(h, s, h'.sessions[s], t, h'.tasks[t]);
  }

  lemma SendStepKeepsLoop(h: Host, step: Step)
    requires LoopFits(h) && Enabled(h, step) && OfSend(step)
    requires h.tasks[step.task].session < |h.sessions|
    ensures LoopFits(Next(h, step))
  {
    hide LoopEnabled, HandleNext, SessionNext, LoopNext, LoopFits, SendBegun, SendEnded, TaskCancelledAt;
    match step
    case SendStarts(t) => SendKeepsLoop(h, t);
    case SendDone(t, sent) => SentKeepsLoop(h, t, sent);
    case TaskCancels(t) => CancelKeepsLoop(h, t);
  }

  lemma TaskStepKeepsLoop(h: Host, step: Step)
    requires LoopFits(h) && Enabled(h, step) && OfTask(step)
    requires h.tasks[step.task].session < |h.sessions|
    ensures LoopFits(Next(h, step))
  {
    hide LoopEnabled, SendNext, SessionNext, LoopNext;
    if OfSend(step) {
      SendStepKeepsLoop(h, step);
    } else {
      var t, task := step.task, h.tasks[step.task];
      var task' := if step.TaskStarts? then Dispatched(task, h.types) else AfterHandler(task, step.handled);
      assert h.sessions[task.session := h.sessions[task.session]] == h.sessions;
      TouchKeepsLoop(h, task.session, h.sessions[task.session], t, task');
    }
  }

  // --- What a stop() sets out to drain ----------------------------------------------------------------

  /** Of the tasks there were when the drain began, those that are not finished are waited for. */
  ghost predicate DrainFits(h: Host) {
    && h.drained <= |h.tasks|
    && match h.stop
       case Draining(pending) => AllButFinished(h.tasks, h.drained, pending)
       case Gathering(pending) => AllButFinished(h.tasks, h.drained, pending)
       case Stopped => AllButFinished(h.tasks, h.drained, {})
       case _ => true
  }

  predicate AllButFinished(tasks: seq<Task>, drained: nat, pending: set<nat>)
    requires drained <= |tasks|
  {
    forall t :: 0 <= t < drained ==> tasks[t].pc.Finished? || t in pending
  }

  /** Tasks are only added, and a finished one stays finished. */
  predicate TasksGoOn(a: seq<Task>, b: seq<Task>) {
    |a| <= |b| && forall t :: 0 <= t < |a| ==> (a[t].pc.Finished? ==> b[t].pc.Finished?)
  }

  predicate GoesOn(h: Host, h': Host) {
    h'.stop == h.stop && h'.drained == h.drained && TasksGoOn(h.tasks, h'.tasks)
  }

  lemma GoingOnKeepsDrain(h: Host, h': Host)
    requires DrainFits(h) && GoesOn(h, h')
    ensures DrainFits(h')
  {
  }

  lemma DrainBegins(h: Host)
    ensures DrainFits(Drain(h))
  {
    forall t | 0 <= t < |h.tasks| ensures h.tasks[t].pc.Finished? || t in h.Unfinished() {}
  }

  lemma DrainIsOver(h: Host, pending: set<nat>)
    requires h.drained <= |h.tasks| && AllButFinished(h.tasks, h.drained, pending)
    ensures AllButFinished(h.tasks, h.drained, pending * h.Unfinished())
  {
  }

  lemma DrainEndedKeepsDrain(h: Host)
    requires DrainFits(h) && h.stop.Draining?
    ensures DrainFits(DrainEnded(h))
  {
    DrainIsOver(h, h.stop.pending);
    var h' := DrainEnded(h);
    assert |h'.tasks| == |h.tasks| && forall t :: 0 <= t < |h.tasks| ==> h'.tasks[t].pc == h.tasks[t].pc;
  }

  lemma SendGoesOn(h: Host, t: nat)
    requires t < |h.tasks| && h.tasks[t].pc.Sending? && h.tasks[t].session < |h.sessions|
    ensures GoesOn(h, SendBegun(h, t))
  {
  }

  lemma SentGoesOn(h: Host, t: nat, sent: SendResult)
    requires t < |h.tasks| && h.tasks[t].session < |h.sessions|
    ensures GoesOn(h, SendEnded(h, t, sent))
  {
  }

  lemma CancelGoesOn(h: Host, t: nat)
    requires t < |h.tasks| && h.tasks[t].session < |h.sessions|
    ensures GoesOn(h, TaskCancelledAt(h, t))
  {
  }

  lemma HandlingGoesOn(h: Host, t: nat, task: Task)
    requires t < |h.tasks| && !h.tasks[t].pc.Finished?
    ensures GoesOn(h, h.WithTask(t, task))
  {
  }

  lemma TaskStepGoesOn(h: Host, step: Step)
    requires Indexed(h) && Enabled(h, step) && OfTask(step)
    ensures GoesOn(h, Next(h, step))
  {
    hide LoopEnabled, SessionNext, LoopNext, SendBegun, SendEnded, TaskCancelledAt, Dispatched, AfterHandler, GoesOn;
    match step
    case SendStarts(t) => SendGoesOn(h, t);
    case SendDone(t, sent) => SentGoesOn(h, t, sent);
    case TaskCancels(t) => CancelGoesOn(h, t);
    case TaskStarts(t) => HandlingGoesOn(h, t, Dispatched(h.tasks[t], h.types));
    case HandlerDone(t, handled) => HandlingGoesOn(h, t, AfterHandler(h.tasks[t], handled));
  }

  lemma EndGoesOn(h: Host, end: SessionEnd)
    requires h.current.Some? && h.current.value < |h.sessions|
    ensures GoesOn(h, EndSession(h, end))
  {
    hide AfterSession, CloseSession;
  }

  lemma SessionStepGoesOn(h: Host, step: Step)
    requires Indexed(h) && Enabled(h, step) && InSession(step)
    ensures GoesOn(h, Next(h, step))
  {
    hide TaskEnabled, SendNext, HandleNext, LoopNext, EndSession;
    forall end ensures GoesOn(h, EndSession(h, end)) { EndGoesOn(h, end); }
  }

  lemma StepKeepsDrain(h: Host, step: Step)
    requires DrainFits(h) && Indexed(h) && Enabled(h, step)
    ensures DrainFits(Next(h, step))
  {
    hide DrainFits, GoesOn;
    if OfTask(step) {
      TaskStepGoesOn(h, step);
      GoingOnKeepsDrain(h, Next(h, step));
    } else if InSession(step) {
      SessionStepGoesOn(h, step);
      GoingOnKeepsDrain(h, Next(h, step));
    } else {
      LoopStepKeepsDrain(h, step);
    }
  }

  lemma LoopStepKeepsDrain(h: Host, step: Step)
    requires DrainFits(h) && Indexed(h) && Enabled(h, step) && !OfTask(step) && !InSession(step)
    ensures DrainFits(Next(h, step))
  {
    hide TaskEnabled, SendNext, HandleNext, SessionNext, DrainEnded, Drain;
    if step.BeginStop? {
      DrainBegins(Stopping(h));
    } else if step.RunAwaited? {
      DrainBegins(h);
    } else if step.DrainOver? {
      DrainEndedKeepsDrain(h);
    } else if step.GatherOver? {
      DrainIsOver(h, h.stop.pending);
    }
  }

  // --- Hosted types ---------------------------------------------------------------------------------

  /** Handlers are for actor types that are hosted, and the others are told so. */
  predicate Hosts(types: set<string>, task: Task) {
    match task.outcome
    case Pending => task.pc.Handling? ==> task.callback.actorType in types
    case NotHosted => task.callback.actorType !in types
    case Came(_) => task.callback.actorType in types
  }

  predicate AllHosted(types: set<string>, tasks: seq<Task>) {
    forall t :: 0 <= t < |tasks| ==> Hosts(types, tasks[t])
  }

  lemma TaskHosts(types: set<string>, tasks: seq<Task>, t: nat, task: Task)
    requires AllHosted(types, tasks) && t < |tasks| && Hosts(types, task)
    ensures AllHosted(types, tasks[t := task])
  {
  }

  lemma HandleStepHosts(h: Host, step: Step)
    requires AllHosted(h.types, h.tasks) && Indexed(h) && Enabled(h, step) && OfTask(step) && !OfSend(step)
    requires TaskSane(h.tasks[step.task])
    ensures var h' := Next(h, step); h'.types == h.types && AllHosted(h'.types, h'.tasks)
  {
    hide LoopEnabled, SendNext, SessionNext, LoopNext, ReplyFor;
    var task := h.tasks[step.task];
    assert Hosts(h.types, task);
    TaskHosts(h.types, h.tasks, step.task, if step.TaskStarts? then Dispatched(task, h.types) else AfterHandler(task, step.handled));
  }

  lemma SendHosts(h: Host, t: nat)
    requires AllHosted(h.types, h.tasks) && t < |h.tasks| && h.tasks[t].pc.Sending? && h.tasks[t].session < |h.sessions|
    requires TaskSane(h.tasks[t])
    ensures var h' := SendBegun(h, t); h'.types == h.types && AllHosted(h'.types, h'.tasks)
  {
    assert Hosts(h.types, h.tasks[t]);
    TaskHosts(h.types, h.tasks, t, SendBegun(h, t).tasks[t]);
  }

  lemma SentHosts(h: Host, t: nat, sent: SendResult)
    requires AllHosted(h.types, h.tasks) && t < |h.tasks| && h.tasks[t].session < |h.sessions|
    ensures var h' := SendEnded(h, t, sent); h'.types == h.types && AllHosted(h'.types, h'.tasks)
  {
    hide Close;
    assert Hosts(h.types, h.tasks[t]);
    TaskHosts(h.types, h.tasks, t, SendEnded(h, t, sent).tasks[t]);
  }

  lemma CancelHosts(h: Host, t: nat)
    requires AllHosted(h.types, h.tasks) && t < |h.tasks| && h.tasks[t].session < |h.sessions|
    ensures var h' := TaskCancelledAt(h, t); h'.types == h.types && AllHosted(h'.types, h'.tasks)
  {
    assert Hosts(h.types, h.tasks[t]);
    TaskHosts(h.types, h.tasks, t, TaskCancelledAt(h, t).tasks[t]);
  }

  lemma TaskStepHosts(h: Host, step: Step)
    requires AllHosted(h.types, h.tasks) && Indexed(h) && Enabled(h, step) && OfTask(step)
    requires TaskSane(h.tasks[step.task])
    ensures var h' := Next(h, step); h'.types == h.types && AllHosted(h'.types, h'.tasks)
  {
    hide LoopEnabled, HandleNext, SessionNext, LoopNext, SendBegun, SendEnded, TaskCancelledAt, AllHosted;
    match step
    case SendStarts(t) => SendHosts(h, t);
    case SendDone(t, sent) => SentHosts(h, t, sent);
    case TaskCancels(t) => CancelHosts(h, t);
    case TaskStarts(t) => HandleStepHosts(h, step);
    case HandlerDone(t, handled) => HandleStepHosts(h, step);
  }

  lemma EndHosts(h: Host, end: SessionEnd)
    requires h.current.Some? && h.current.value < |h.sessions|
    ensures EndSession(h, end).types == h.types && EndSession(h, end).tasks == h.tasks
  {
    hide AfterSession, CloseSession;
  }

  lemma SessionStepHosts(h: Host, step: Step)
    requires AllHosted(h.types, h.tasks) && Indexed(h) && Enabled(h, step) && InSession(step)
    ensures var h' := Next(h, step); h'.types == h.types && AllHosted(h'.types, h'.tasks)
  {
    hide TaskEnabled, SendNext, HandleNext, LoopNext, EndSession;
    forall end ensures EndSession(h, end).types == h.types && EndSession(h, end).tasks == h.tasks { EndHosts(h, end); }
  }

  lemma StopHosts(h: Host)
    requires h.current.Some? ==> h.current.value < |h.sessions|
    ensures StopBegun(h).types == h.types && StopBegun(h).tasks == h.tasks
  {
    hide Close;
    assert Stopping(h).types == h.types && Stopping(h).tasks == h.tasks;
    hide Stopping;
  }

  lemma DrainEndHosts(h: Host)
    requires AllHosted(h.types, h.tasks) && h.stop.Draining?
    ensures DrainEnded(h).types == h.types && AllHosted(h.types, DrainEnded(h).tasks)
  {
    var h' := DrainEnded(h);
    forall t | 0 <= t < |h'.tasks| ensures Hosts(h.types, h'.tasks[t]) { assert Hosts(h.types, h.tasks[t]); }
  }

  lemma LoopStepHosts(h: Host, step: Step)
    requires AllHosted(h.types, h.tasks) && Indexed(h) && Enabled(h, step) && !OfTask(step) && !InSession(step)
    ensures var h' := Next(h, step); h'.types == h.types && AllHosted(h'.types, h'.tasks)
  {
    hide TaskEnabled, SendNext, HandleNext, SessionNext, EndSession, StopBegun, DrainEnded, AllHosted;
    if step.RunCancelled? && h.current.Some? {
      EndHosts(h, TaskCancelled);
    } else if step.BeginStop? {
      StopHosts(h);
    } else if step.DrainOver? {
      DrainEndHosts(h);
    }
  }

  // --- Every run ------------------------------------------------------------------------------------

  ghost predicate Inv(h: Host) {
    StreamsFit(h.sessions, h.tasks, h.received) && LoopFits(h) && DrainFits(h) && AllHosted(h.types, h.tasks)
  }

  lemma StepKeepsInv(h: Host, step: Step)
    requires Inv(h) && Enabled(h, step)
    ensures Inv(Next(h, step))
  {
    if OfTask(step) {
      assert TaskFits(h.sessions, h.received, step.task, h.tasks[step.task]);
      TaskStepKeepsStreams(h, step);
      TaskStepKeepsLoop(h, step);
      TaskStepHosts(h, step);
    } else if InSession(step) {
      SessionStepKeepsStreams(h, step);
      SessionStepKeepsLoop(h, step);
      SessionStepHosts(h, step);
    } else {
      LoopStepKeepsStreams(h, step);
      LoopStepKeepsLoop(h, step);
      LoopStepHosts(h, step);
    }
    StepKeepsDrain(h, step);
  }

  /** The states a host can pass through. */
  ghost predicate IsRun(states: seq<Host>) {
    && states != [] && (exists types :: states[0] == Initial(types))
    && forall i :: 0 <= i < |states| - 1 ==> Steps(states[i], states[i + 1])
  }

  ghost predicate Steps(h: Host, h': Host) {
    exists step :: Indexed(h) && Enabled(h, step) && Next(h, step) == h'
  }

  ghost predicate Reachable(h: Host) {
    exists states :: IsRun(states) && states[|states| - 1] == h
  }

  lemma {:induction false} RunKeepsInv(states: seq<Host>, i: nat)
    requires IsRun(states) && i < |states|
    ensures Inv(states[i])
  {
    if i > 0 {
      RunKeepsInv(states, i - 1);
      assert Steps(states[i - 1], states[i - 1 + 1]);
      var step :| Enabled(states[i - 1], step) && Next(states[i - 1], step) == states[i];
      StepKeepsInv(states[i - 1], step);
    }
  }

  lemma ReachableInv(h: Host)
    requires Reachable(h)
    ensures Inv(h)
  {
    var states :| IsRun(states) && states[|states| - 1] == h;
    RunKeepsInv(states, |states| - 1);
  }

  /** A stream carries its registration first, and after it only replies: each answers a callback read
      from that very stream and tells what came of it, an actor type that is not hosted being told exactly
      of those; and no callback has two on any streams. */
  lemma RepliesGoHome(h: Host, s: nat, i: nat)
    requires Reachable(h) && s < |h.sessions| && i < |h.sessions[s].wire|
    ensures var m := h.sessions[s].wire[i];
            && (i == 0 <==> m.Registration?)
            && (m.Answer? ==>
                  && m.task < |h.received| == |h.tasks|
                  && h.received[m.task].0 == s && Tells(h.received[m.task].1, h.tasks[m.task].outcome, m.reply)
                  && (h.tasks[m.task].outcome.NotHosted? <==> h.received[m.task].1.actorType !in h.types)
                  && forall r, j :: 0 <= r < |h.sessions| && 0 <= j < |h.sessions[r].wire| && (r, j) != (s, i) ==>
                       var n := h.sessions[r].wire[j];
                       n.Answer? ==> n.task != m.task)
  {
    ReachableInv(h);
    assert StreamSane(h.tasks, s, h.sessions[s]);
    assert MessageFits(h.tasks, s, i, h.sessions[s].wire[i]);
    if i > 0 {
      assert Hosts(h.types, h.tasks[h.sessions[s].wire[i].task]);
      assert TaskFits(h.sessions, h.received, h.sessions[s].wire[i].task, h.tasks[h.sessions[s].wire[i].task]);
    }
    forall r, j | 0 <= r < |h.sessions| && 0 <= j < |h.sessions[r].wire| && (r, j) != (s, i)
      ensures h.sessions[r].wire[j].Answer? && h.sessions[s].wire[i].Answer? ==>
                h.sessions[r].wire[j].task != h.sessions[s].wire[i].task
    {
      assert StreamSane(h.tasks, r, h.sessions[r]);
      assert MessageFits(h.tasks, r, j, h.sessions[r].wire[j]);
    }
  }

  predicate Still(a: Session, b: Session) {
    a.wire <= b.wire && (a.closed ==> b.closed && b.wire == a.wire)
  }

  ghost predicate AllStill(sessions: seq<Session>, sessions': seq<Session>) {
    |sessions| <= |sessions'| && forall s :: 0 <= s < |sessions| ==> Still(sessions[s], sessions'[s])
  }

  lemma EndIsStill(h: Host, end: SessionEnd)
    requires h.current.Some? && h.current.value < |h.sessions|
    ensures AllStill(h.sessions, EndSession(h, end).sessions)
  {
  }

  lemma UpdateIsStill(sessions: seq<Session>, s: nat, session: Session)
    requires s < |sessions| && Still(sessions[s], session)
    ensures AllStill(sessions, sessions[s := session])
  {
  }

  lemma SameIsStill(sessions: seq<Session>)
    ensures AllStill(sessions, sessions)
  {
  }

  lemma SendIsStill(h: Host, t: nat)
    requires t < |h.tasks| && h.tasks[t].pc.Sending? && h.tasks[t].session < |h.sessions|
    ensures AllStill(h.sessions, SendBegun(h, t).sessions)
  {
  }

  lemma SentIsStill(h: Host, t: nat, sent: SendResult)
    requires t < |h.tasks| && h.tasks[t].session < |h.sessions|
    ensures AllStill(h.sessions, SendEnded(h, t, sent).sessions)
  {
  }

  lemma CancelIsStill(h: Host, t: nat)
    requires t < |h.tasks| && h.tasks[t].session < |h.sessions|
    ensures AllStill(h.sessions, TaskCancelledAt(h, t).sessions)
  {
  }

  lemma TaskStepIsStill(h: Host, step: Step)
    requires Indexed(h) && Enabled(h, step) && OfTask(step) && h.tasks[step.task].session < |h.sessions|
    ensures AllStill(h.sessions, Next(h, step).sessions)
  {
    hide LoopEnabled, SessionNext, LoopNext, SendBegun, SendEnded, TaskCancelledAt, Dispatched, AfterHandler, AllStill;
    match step
    case SendStarts(t) => SendIsStill(h, t);
    case SendDone(t, sent) => SentIsStill(h, t, sent);
    case TaskCancels(t) => CancelIsStill(h, t);
    case TaskStarts(t) => SameIsStill(h.sessions);
    case HandlerDone(t, handled) => SameIsStill(h.sessions);
  }

  lemma SessionStepIsStill(h: Host, step: Step)
    requires Indexed(h) && Enabled(h, step) && InSession(step)
    ensures AllStill(h.sessions, Next(h, step).sessions)
  {
    hide TaskEnabled, SendNext, HandleNext, LoopNext;
    forall end {
      EndIsStill(h, end);
    }
  }

  lemma StopIsStill(h: Host)
    requires h.current.Some? ==> h.current.value < |h.sessions|
    ensures AllStill(h.sessions, StopBegun(h).sessions)
  {
    hide AllStill;
    if h.current.Some? {
      UpdateIsStill(h.sessions, h.current.value, Close(h.sessions[h.current.value]));
    } else {
      SameIsStill(h.sessions);
    }
  }

  lemma OpenIsStill(h: Host)
    ensures AllStill(h.sessions, OpenSession(h).sessions)
  {
  }

  lemma ChannelIsStill(h: Host, ready: bool)
    requires h.sessions != []
    ensures AllStill(h.sessions, ChannelAnswered(h, ready).sessions)
  {
  }

  lemma LoopStepIsStill(h: Host, step: Step)
    requires Indexed(h) && Enabled(h, step) && !OfTask(step) && !InSession(step)
    ensures AllStill(h.sessions, Next(h, step).sessions)
  {
    hide TaskEnabled, SendNext, HandleNext, SessionNext, EndSession, StopBegun, OpenSession, ChannelAnswered, AllStill;
    SameIsStill(h.sessions);
    if step.RunCancelled? && h.current.Some? {
      EndIsStill(h, TaskCancelled);
    } else if step.LoopTop? {
      OpenIsStill(h);
    } else if step.ChannelWaited? {
      ChannelIsStill(h, step.ready);
    } else if step.BeginStop? {
      StopIsStill(h);
    }
  }

  /** Nothing is written to a stream once it is closed, it stays closed, and nothing on it is ever
      rewritten: no step at all of any task does so. */
  lemma ClosedStreamsAreStill(h: Host, step: Step)
    requires Reachable(h) && Indexed(h) && Enabled(h, step)
    ensures AllStill(h.sessions, Next(h, step).sessions)
  {
    if OfTask(step) {
      ReachableInv(h);
      assert TaskFits(h.sessions, h.received, step.task, h.tasks[step.task]);
      TaskStepIsStill(h, step);
    } else if InSession(step) {
      SessionStepIsStill(h, step);
    } else {
      LoopStepIsStill(h, step);
    }
  }

  /** Two tasks never write to one stream at a time. */
  lemma OneWriterPerStream(h: Host, t: nat, u: nat)
    requires Reachable(h) && t < u < |h.tasks| && h.tasks[t].pc.Writing? && h.tasks[u].pc.Writing?
    ensures h.tasks[t].session != h.tasks[u].session
  {
    ReachableInv(h);
    assert TaskFits(h.sessions, h.received, t, h.tasks[t]) && TaskFits(h.sessions, h.received, u, h.tasks[u]);
  }

  /** When stop() has returned, nothing is left running: no run task, no open stream, no dispatch task;
      unless start() was called before it had. */
  lemma StoppedMeansIdle(h: Host)
    requires Reachable(h) && h.stop.Stopped? && !h.overtaken
    ensures h.run.NoTask? && h.current.None? && !h.registered
    ensures forall t :: 0 <= t < |h.tasks| ==> h.tasks[t].pc.Finished?
    ensures forall s :: 0 <= s < |h.sessions| ==> h.sessions[s].closed && h.sessions[s].writeLock.None?
  {
    ReachableInv(h);
    forall t | 0 <= t < |h.tasks| ensures h.tasks[t].pc.Finished? {
      assert t !in h.Unfinished();
    }
    forall s | 0 <= s < |h.sessions| ensures h.sessions[s].closed && h.sessions[s].writeLock.None? {
      assert StreamSane(h.tasks, s, h.sessions[s]);
    }
  }

  /** Overtaken or not, a stop() that has returned has finished every task there was when it began to drain. */
  lemma DrainedAreFinished(h: Host, t: nat)
    requires Reachable(h) && h.stop.Stopped? && t < h.drained
    ensures t < |h.tasks| && h.tasks[t].pc.Finished?
  {
    ReachableInv(h);
    hide Reachable, StreamsFit, LoopFits;
    assert DrainFits(h) && AllButFinished(h.tasks, h.drained, {});
  }

  lemma InitialIsReachable(types: set<string>)
    ensures Reachable(Initial(types)) && Indexed(Initial(types))
  {
    assert IsRun([Initial(types)]);
  }

  lemma NextIsReachable(h: Host, step: Step)
    requires Reachable(h) && Indexed(h) && Enabled(h, step)
    ensures Reachable(Next(h, step)) && Indexed(Next(h, step))
  {
    hide Next, Enabled;
    var states :| IsRun(states) && states[|states| - 1] == h;
    var h' := Next(h, step);
    assert Steps(h, h');
    var more := states + [h'];
    assert forall i :: 0 <= i < |states| ==> more[i] == states[i];
    assert IsRun(more);
    ReachableInv(h');
    LoopOf(h');
  }

  /** A host that serves one stream, from its start. */
  lemma Serving(h: Host) returns (h': Host)
    requires Reachable(h) && Indexed(h) && h.run.NoTask? && h.types != {}
    ensures Reachable(h') && Indexed(h') && h'.run.Reading? && h'.registered && !h'.cancelling && !h'.stopping
    ensures h'.tasks == h.tasks && h'.types == h.types && h'.overtaken == h.InDrain() && h'.drained == h.drained
    ensures h.InDrain() ==> h'.stop == h.stop
    ensures !h.InDrain() ==> h'.stop.NotStopping?
  {
    hide Reachable, SendNext, HandleNext, EndSession;
    var h1 := Next(h, Start);
    NextIsReachable(h, Start);
    var h2 := Next(h1, LoopTop);
    NextIsReachable(h1, LoopTop);
    var h3 := Next(h2, RegistrationDone(Written));
    NextIsReachable(h2, RegistrationDone(Written));
    h' := Next(h3, AckDone(Ack));
    NextIsReachable(h3, AckDone(Ack));
  }

  lemma Receiving(h: Host, cb: Callback) returns (h': Host)
    requires Reachable(h) && Indexed(h) && h.run.Reading? && !h.cancelling && h.tasks == []
    ensures Reachable(h') && Indexed(h') && h'.run == h.run && h'.stop == h.stop && h'.types == h.types
    ensures h'.tasks == [Task(h.current.value, cb, Spawned, false, 0, None, Pending)]
  {
    hide Reachable, SendNext, HandleNext, LoopNext, EndSession;
    h' := Next(h, ReadDone(Delivered(cb)));
    NextIsReachable(h, ReadDone(Delivered(cb)));
  }

  /** stop() while one callback is in flight. */
  lemma StoppingWithTask(h: Host) returns (h': Host)
    requires Reachable(h) && Indexed(h) && h.run.Reading? && h.stop.NotStopping?
    ensures Reachable(h') && Indexed(h') && h'.run.Ended? && h'.stop.AwaitingRun?
    ensures h'.types == h.types && h'.tasks == h.tasks
  {
    hide Reachable, SendNext, HandleNext, SessionNext, Drain;
    var h1 := Next(h, BeginStop);
    NextIsReachable(h, BeginStop);
    h' := Next(h1, RunCancelled);
    NextIsReachable(h1, RunCancelled);
  }

  lemma DrainingTask(h: Host) returns (h': Host)
    requires Reachable(h) && Indexed(h) && h.run.Ended? && h.stop.AwaitingRun?
    requires |h.tasks| == 1 && !h.tasks[0].pc.Finished?
    ensures Reachable(h') && Indexed(h') && h'.run.NoTask? && h'.stop == Draining({0})
    ensures h'.types == h.types && h'.tasks == h.tasks
  {
    hide Reachable, SendNext, HandleNext, SessionNext;
    assert h.Unfinished() == {0};
    h' := Next(h, RunAwaited);
    NextIsReachable(h, RunAwaited);
  }

  /** The end of that drain, once the callback has turned out to be of no known kind. */
  lemma DrainReturns(h: Host) returns (h': Host)
    requires Reachable(h) && Indexed(h) && h.stop == Draining({0})
    requires |h.tasks| == 1 && h.tasks[0].pc.Spawned? && !h.tasks[0].cancelling && h.tasks[0].callback.variant.UnknownVariant?
    ensures Reachable(h') && h'.stop.Stopped? && !h'.registered && h'.run == h.run && h'.overtaken == h.overtaken
  {
    hide Reachable, SendNext, SessionNext;
    var h1 := Next(h, TaskStarts(0));
    NextIsReachable(h, TaskStarts(0));
    assert h1.Unfinished() == {};
    h' := Next(h1, DrainOver(false));
    NextIsReachable(h1, DrainOver(false));
  }

  /** What a start() that comes in while stop() drains makes of it: stop() returns with the run loop alive and
      serving a stream, though it has cleared the mark of its registration. */
  lemma OvertakenStopLeavesTheLoop(types: set<string>) returns (h: Host)
    requires types != {}
    ensures Reachable(h) && h.stop.Stopped? && h.overtaken && h.run.Reading? && !h.registered
  {
    hide Reachable, Initial, Indexed;
    InitialIsReachable(types);
    assert Initial(types).run.NoTask? && Initial(types).tasks == [] && Initial(types).types == types
        && Initial(types).stop.NotStopping? by { InitialIs(types); }
    h := Serving(Initial(types));
    h := Receiving(h, Callback("", UnknownVariant, ""));
    h := StoppingWithTask(h);
    h := DrainingTask(h);
    h := Serving(h);
    h := DrainReturns(h);
  }

  lemma InitialIs(types: set<string>)
    ensures var h := Initial(types); h.run.NoTask? && h.tasks == [] && h.types == types && h.stop.NotStopping?
  {
  }

  /** Within a run, a session follows another only after a reason to reconnect and a channel that came back.
      Conversely, after such a reason, and while nobody stops the host, the run waits for the channel; when
      that came back it is on its way to the next session; and only when the wait timed out is it over.  So
      a run that is over without having been stopped either had no such reason, or waited in vain. */
  lemma ReopensExactly(h: Host)
    requires Reachable(h)
    ensures forall s :: 0 <= s < |h.sessions| - 1 && h.sessions[s].run == h.sessions[s + 1].run ==> MayReopen(h.sessions[s])
    ensures h.run.Ended? && !h.stopping ==> LastEnded(h) && (h.run.why.ChannelTimedOut? <==> Reconnectable(LastEnd(h)))
    ensures LastEnded(h) && Reconnectable(LastEnd(h)) && !h.stopping ==>
              match h.sessions[|h.sessions| - 1].channel
              case NotWaitedFor => h.run.WaitingChannel?
              case CameBack => h.run.Pausing? || (h.run.AtLoop? && !h.cancelling)
              case TimedOut => h.run.Ended? || h.run.NoTask?
  {
    hide *;
    ReachableInv(h);
    LoopOf(h);
    LoopReopens(h);
  }

  lemma LoopOf(h: Host)
    requires Inv(h)
    ensures Indexed(h) && LoopFits(h)
  {
    hide StreamsFit, SessionsOver, EndFits, ReopeningsFit, StopSane, DrainFits;
  }

  lemma LoopReopens(h: Host)
    requires LoopFits(h)
    ensures forall s :: 0 <= s < |h.sessions| - 1 && h.sessions[s].run == h.sessions[s + 1].run ==> MayReopen(h.sessions[s])
    ensures h.run.Ended? && !h.stopping ==> LastEnded(h) && (h.run.why.ChannelTimedOut? <==> Reconnectable(LastEnd(h)))
    ensures LastEnded(h) && Reconnectable(LastEnd(h)) && !h.stopping ==>
              match h.sessions[|h.sessions| - 1].channel
              case NotWaitedFor => h.run.WaitingChannel?
              case CameBack => h.run.Pausing? || (h.run.AtLoop? && !h.cancelling)
              case TimedOut => h.run.Ended? || h.run.NoTask?
  {
    hide SessionsOver, StopSane;
  }

  // --- What each outcome leads to -------------------------------------------------------------------

  /** Unavailable, unknown and internal are worth a new connection; a cancellation ends the loop quietly, and
      anything else ends it with the error. */
  function AfterStatus(status: GrpcStatus, stopping: bool): RunPc {
    if stopping then Ended(SawStopping)
    else match status
      case Unavailable => WaitingChannel
      case UnknownStatus => WaitingChannel
      case Internal => WaitingChannel
      case CancelledStatus => Ended(PeerCancelled)
      case OtherStatus => Ended(Fatal)
  }

  /** Where the loop goes when the registration has been written, or could not be. */
  lemma RegistrationDecides(h: Host, written: WriteResult)
    requires Indexed(h) && Enabled(h, RegistrationDone(written))
    ensures var h' := Next(h, RegistrationDone(written));
            match written
            case Written => h' == h.(run := AwaitingAck)
            case WriteTimedOut => h'.run == AfterEof(h.stopping) && Leaves(h, h')
            case WriteRpc(status) => h'.run == AfterStatus(status, h.stopping) && Leaves(h, h')
  {
    hide TaskEnabled, SendNext, HandleNext, LoopNext;
  }

  /** ... when the first message has come, or has not: only an ack registers the host, and any other message
      is the end of the loop. */
  lemma AckDecides(h: Host, ack: AckResult)
    requires Indexed(h) && Enabled(h, AckDone(ack))
    ensures var h' := Next(h, AckDone(ack));
            match ack
            case Ack => h'.run == Reading && h'.registered && h'.current == h.current && h'.sessions[h.current.value].acked
            case AckEof => h'.run == AfterEof(h.stopping) && Leaves(h, h')
            case WrongMessage => h'.run == Ended(Fatal) && Leaves(h, h')
            case AckTimedOut => h'.run == AfterEof(h.stopping) && Leaves(h, h')
            case AckRpc(status) => h'.run == AfterStatus(status, h.stopping) && Leaves(h, h')
  {
    hide TaskEnabled, SendNext, HandleNext, LoopNext;
  }

  /** ... and when a read has ended: a callback is given a task of its own, and the loop reads on. */
  lemma ReadDecides(h: Host, read: ReadResult)
    requires Indexed(h) && Enabled(h, ReadDone(read))
    ensures var h' := Next(h, ReadDone(read));
            match read
            case Delivered(cb) =>
              && h'.run == h.run && h'.current == h.current && h'.received == h.received + [(h.current.value, cb)]
              && h'.tasks == h.tasks + [Task(h.current.value, cb, Spawned, false, 0, None, Pending)]
            case ReadEof => h'.run == AfterEof(h.stopping) && Leaves(h, h')
            case ReadRpc(status) => h'.run == AfterStatus(status, h.stopping) && Leaves(h, h')
  {
    hide TaskEnabled, SendNext, HandleNext, LoopNext;
  }

  /** The session in hand is closed and let go of; its tasks are not touched. */
  predicate Leaves(h: Host, h': Host)
    requires h.current.Some? && h.current.value < |h.sessions|
  {
    && h'.current.None? && h'.tasks == h.tasks && |h'.sessions| == |h.sessions|
    && h'.sessions[h.current.value].closed && h'.sessions[h.current.value].end.Some?
  }

  function AfterEof(stopping: bool): RunPc { if stopping then Ended(SawStopping) else WaitingChannel }

  /** The first stretch of a dispatch task: an unknown kind is ignored, a type that is not hosted is told so
      at once, and only a hosted one reaches its handler. */
  lemma StartingDecides(h: Host, t: nat)
    requires Indexed(h) && Enabled(h, TaskStarts(t))
    ensures var after, cb := Next(h, TaskStarts(t)).tasks[t], h.tasks[t].callback;
            if cb.variant.UnknownVariant? then after.pc == Finished(Ignored)
            else if cb.actorType in h.types then after.pc == Handling
            else after.outcome == NotHosted && after.pc.Sending? && Tells(cb, NotHosted, after.pc.reply)
  {
    hide LoopEnabled, SendNext, SessionNext, LoopNext;
  }

  /** A handler's end is what the reply is going to tell. */
  lemma HandlersDecide(h: Host, t: nat, handled: Handled)
    requires Indexed(h) && Enabled(h, HandlerDone(t, handled)) && !h.tasks[t].callback.variant.UnknownVariant?
    ensures var after, cb := Next(h, HandlerDone(t, handled)).tasks[t], h.tasks[t].callback;
            && after.outcome == Came(handled)
            && if handled.Broke? then after.pc == Finished(Broken)
               else after.pc.Sending? && Tells(cb, Came(handled), after.pc.reply)
  {
    hide LoopEnabled, SendNext, SessionNext, LoopNext, ReplyFor;
    if !handled.Broke? { RepliesTell(h.tasks[t].callback, handled); }
  }

  /** Once the lock is free the reply is put on the wire, last, unless its stream is closed. */
  lemma SendingWrites(h: Host, t: nat)
    requires Indexed(h) && Enabled(h, SendStarts(t))
    ensures var h', before := Next(h, SendStarts(t)), h.tasks[t];
            var s := before.session;
            if h.sessions[s].closed then h'.tasks[t].pc == Finished(Dropped) && h'.sessions == h.sessions
            else
              && h'.tasks[t].pc == Writing(before.pc.reply)
              && h'.sessions[s].wire == h.sessions[s].wire + [Answer(t, before.pc.reply)]
  {
    hide LoopEnabled, HandleNext, SessionNext, LoopNext;
  }

  /** When the write has ended the lock is free, and an error of the stub has closed the stream. */
  lemma SentReleases(h: Host, t: nat, sent: SendResult)
    requires Indexed(h) && Enabled(h, SendDone(t, sent))
    ensures var h', s := Next(h, SendDone(t, sent)), h.tasks[t].session;
            && h'.tasks[t].pc == Finished(if sent.SendOk? then Sent else WriteFailed)
            && h'.sessions[s].writeLock.None?
            && (h'.sessions[s].closed <==> h.sessions[s].closed || sent.SendRpcError?)
  {
    hide LoopEnabled, HandleNext, SessionNext, LoopNext;
  }

  /** When the time for draining is over, every task that is still waited for is being cancelled. */
  lemma LateTasksAreCancelled(h: Host, timedOut: bool, t: nat)
    requires Indexed(h) && Enabled(h, DrainOver(timedOut)) && t < |h.tasks|
    ensures var h' := Next(h, DrainOver(timedOut));
            && t < |h'.tasks| && h'.tasks[t].pc == h.tasks[t].pc
            && (t in h.stop.pending && !h.tasks[t].pc.Finished? ==> h'.tasks[t].cancelling && h'.stop.Gathering? && t in h'.stop.pending)
            && (t !in h.stop.pending ==> h'.tasks[t].cancelling == h.tasks[t].cancelling)
  {
    hide TaskEnabled, SendNext, HandleNext, SessionNext;
    var late := h.stop.pending * h.Unfinished();
    assert t in late <==> t in h.stop.pending && !h.tasks[t].pc.Finished?;
  }

  // --- Conservation ---------------------------------------------------------------------------------

  datatype Fate = InFlight | Replied | IgnoredUnknown | CutShort | BrokeDown

  /** What has become of a callback: replied means that its one call of send() has returned. */
  function FateOf(task: Task): Fate {
    match task.pc
    case Finished(Ignored) => IgnoredUnknown
    case Finished(Broken) => BrokeDown
    case Finished(Cancelled) => CutShort
    case Finished(_) => Replied
    case _ => InFlight
  }

  function Count(tasks: seq<Task>, fate: Fate): nat {
    if tasks == [] then 0
    else Count(tasks[..|tasks| - 1], fate) + if FateOf(tasks[|tasks| - 1]) == fate then 1 else 0
  }

  lemma {:induction false} FatesAddUp(tasks: seq<Task>)
    ensures Count(tasks, InFlight) + Count(tasks, Replied) + Count(tasks, IgnoredUnknown)
            + Count(tasks, CutShort) + Count(tasks, BrokeDown) == |tasks|
  {
    if tasks != [] {
      FatesAddUp(tasks[..|tasks| - 1]);
    }
  }

  /** Every callback read is accounted for. */
  lemma CallbacksAreConserved(h: Host)
    requires Reachable(h)
    ensures |h.received| == Count(h.tasks, InFlight) + Count(h.tasks, Replied) + Count(h.tasks, IgnoredUnknown)
                            + Count(h.tasks, CutShort) + Count(h.tasks, BrokeDown)
  {
    ReachableInv(h);
    FatesAddUp(h.tasks);
  }

  /** A callback's task calls send() exactly once if it was replied to, never if it was of an unknown
      kind or broke down, at most once in any case; and a reply on the wire is from that one call. */
  lemma OneSendPerCallback(h: Host, t: nat)
    requires Reachable(h) && t < |h.tasks|
    ensures t < |h.received| && h.received[t] == (h.tasks[t].session, h.tasks[t].callback)
    ensures match FateOf(h.tasks[t])
            case Replied => h.tasks[t].attempts == 1
            case IgnoredUnknown => h.tasks[t].attempts == 0 && h.tasks[t].callback.variant.UnknownVariant?
            case BrokeDown => h.tasks[t].attempts == 0
            case _ => h.tasks[t].attempts <= 1
    ensures h.tasks[t].sentAt.Some? ==> h.tasks[t].attempts == 1
  {
    ReachableInv(h);
    assert TaskFits(h.sessions, h.received, t, h.tasks[t]);
  }
}
