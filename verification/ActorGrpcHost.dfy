/** The host as an object: one method for each stretch of code between two awaits.  The methods are
    proved against the steps of GrpcHost, one for each step there is, so an object driven in any order
    its awaits allow passes through reachable states only, and keeps the invariant of GrpcHostSafety. */
module ActorGrpcHost {
  import opened Wrappers
  import opened GrpcHost
  import opened GrpcHostSafety

  class ActorGrpcHost {
    const types: set<string>
    var sessions: seq<Session>
    var dispatchTasks: seq<Task>
    ghost var received: seq<(nat, Callback)>
    var session: Option<nat>
    var runTask: RunPc
    var runs: nat
    var cancelling: bool
    var stopping: bool
    var registered: bool
    ghost var watched: bool
    var stopPc: StopPc
    ghost var overtaken: bool
    ghost var drained: nat

    ghost function View(): Host
      reads this
    {
      Host(types, sessions, dispatchTasks, received, session, runTask, runs, cancelling, stopping, registered, watched, stopPc,
           overtaken, drained)
    }

    ghost predicate Valid()
      reads this
    {
      Inv(View())
    }

    constructor (types: set<string>)
      ensures View() == Initial(types) && Valid()
    {
      this.types := types;
      sessions, dispatchTasks, received := [], [], [];
      session, runTask, runs := None, NoTask, 0;
      cancelling, stopping, registered, watched := false, false, false, false;
      stopPc, overtaken, drained := NotStopping, false, 0;
    }

    method Start() returns (ok: bool)
      requires Valid()
      modifies this
      ensures Valid() && ok == (old(runTask).NoTask? && types != {})
      ensures View() == if ok then Next(old(View()), GrpcHost.Start) else old(View())
    {
      if !runTask.NoTask? || types == {} {
        return false;
      }
      StartIsStarted(View());
      hide Inv, Indexed, Next, Started;
      StartRunTask();
      ok := true;
    }

    method StartRunTask()
      modifies this
      ensures View() == Started(old(View()))
    {
      stopping, registered, watched, cancelling := false, false, false, false;
      runTask, runs := AtLoop, runs + 1;
      overtaken := stopPc.Draining? || stopPc.Gathering?;
      if !stopPc.Draining? && !stopPc.Gathering? {
        stopPc := NotStopping;
      }
    }

    /** The head of the run loop, and of a session up to its first await. */
    method RunLoopTop()
      requires Valid() && Enabled(View(), LoopTop)
      modifies this
      ensures Valid() && View() == Next(old(View()), LoopTop)
    {
      hide Inv, Indexed;
      LoopOf(View());
      StepKeepsInv(View(), LoopTop);
      if stopping {
        runTask := Ended(SawStopping);
        return;
      }
      session := Some(|sessions|);
      sessions := sessions + [Session(false, None, [Registration(types)], 0, runs, false, None, NotWaitedFor)];
      runTask := Registering;
    }

    /** The except clauses of the run loop, around a session. */
    method AfterLeaving(end: SessionEnd) returns (next: RunPc)
      ensures next == AfterSession(end, stopping)
    {
      match end {
        case NotAnAck => next := Ended(Fatal);
        case TaskCancelled => next := Ended(WasCancelled);
        case Rpc(status) =>
          if stopping {
            next := Ended(SawStopping);
          } else if status.CancelledStatus? {
            next := Ended(PeerCancelled);
          } else if !Transient(status) {
            next := Ended(Fatal);
          } else {
            next := WaitingChannel;
          }
        case Eof => next := if stopping then Ended(SawStopping) else WaitingChannel;
        case HandshakeClosed => next := if stopping then Ended(SawStopping) else WaitingChannel;
        case HandshakeTimeout => next := if stopping then Ended(SawStopping) else WaitingChannel;
      }
    }

    /** The finally clause of a session, and the except clauses of the run loop around it. */
    method LeaveSession(end: SessionEnd)
      requires session.Some? && session.value < |sessions|
      modifies this
      ensures View() == EndSession(old(View()), end)
    {
      hide AfterSession;
      var next := AfterLeaving(end);
      CloseSession(session.value);
      sessions := sessions[session.value := sessions[session.value].(end := Some(end))];
      session, runTask := None, next;
    }

    method CloseSession(s: nat)
      requires s < |sessions|
      modifies this`sessions
      ensures sessions == old(sessions)[s := Close(old(sessions)[s])]
    {
      if !sessions[s].closed {
        sessions := sessions[s := sessions[s].(closed := true, closedAt := |sessions[s].wire|)];
      }
    }

    method RegistrationReturned(written: WriteResult)
      requires Valid() && Enabled(View(), RegistrationDone(written))
      modifies this
      ensures Valid() && View() == Next(old(View()), RegistrationDone(written))
    {
      hide Inv, Indexed;
      LoopOf(View());
      StepKeepsInv(View(), RegistrationDone(written));
      match written {
        case Written => runTask := AwaitingAck;
        case WriteTimedOut => LeaveSession(HandshakeTimeout);
        case WriteRpc(status) => LeaveSession(Rpc(status));
      }
    }

    method AckReturned(ack: AckResult)
      requires Valid() && Enabled(View(), AckDone(ack))
      modifies this
      ensures Valid() && View() == Next(old(View()), AckDone(ack))
    {
      hide Inv, Indexed;
      LoopOf(View());
      StepKeepsInv(View(), AckDone(ack));
      match ack {
        case Ack =>
          registered, watched := true, true;
          sessions := sessions[session.value := sessions[session.value].(acked := true)];
          runTask := Reading;
        case AckEof => LeaveSession(HandshakeClosed);
        case WrongMessage => LeaveSession(NotAnAck);
        case AckTimedOut => LeaveSession(HandshakeTimeout);
        case AckRpc(status) => LeaveSession(Rpc(status));
      }
    }

    method ReadReturned(read: ReadResult)
      requires Valid() && Enabled(View(), ReadDone(read))
      modifies this
      ensures Valid() && View() == Next(old(View()), ReadDone(read))
    {
      hide Inv, Indexed;
      LoopOf(View());
      StepKeepsInv(View(), ReadDone(read));
      match read {
        case Delivered(cb) =>
          dispatchTasks := dispatchTasks + [Task(session.value, cb, Spawned, false, 0, None, Pending)];
          received := received + [(session.value, cb)];
        case ReadEof => LeaveSession(Eof);
        case ReadRpc(status) => LeaveSession(Rpc(status));
      }
    }

    /** The channel is ready again, or the wait for it timed out. */
    method ChannelWaitReturned(ready: bool)
      requires Valid() && Enabled(View(), ChannelWaited(ready))
      modifies this
      ensures Valid() && View() == Next(old(View()), ChannelWaited(ready))
    {
      hide Inv, Indexed;
      LoopOf(View());
      StepKeepsInv(View(), ChannelWaited(ready));
      var s := |sessions| - 1;
      sessions := sessions[s := sessions[s].(channel := if ready then CameBack else TimedOut)];
      runTask := if ready then Pausing else Ended(ChannelTimedOut);
    }

    /** The delay before a reconnection is over. */
    method SleepReturned()
      requires Valid() && Enabled(View(), PauseOver)
      modifies this
      ensures Valid() && View() == Next(old(View()), PauseOver)
    {
      hide Inv, Indexed;
      LoopOf(View());
      StepKeepsInv(View(), PauseOver);
      runTask := AtLoop;
    }

    /** The cancellation that stop() asked for reaches the run task where it waits. */
    method RunTaskCancelled()
      requires Valid() && Enabled(View(), RunCancelled)
      modifies this
      ensures Valid() && View() == Next(old(View()), RunCancelled)
    {
      hide Inv, Indexed;
      LoopOf(View());
      StepKeepsInv(View(), RunCancelled);
      if session.Some? {
        LeaveSession(TaskCancelled);
      } else {
        runTask := Ended(WasCancelled);
      }
    }

    /** The run task has failed by itself after a registration: the host can be started again. */
    method OnRunTaskDone()
      requires Valid() && Enabled(View(), RunFailureNoticed)
      modifies this
      ensures Valid() && View() == Next(old(View()), RunFailureNoticed)
    {
      hide Inv, Indexed;
      LoopOf(View());
      StepKeepsInv(View(), RunFailureNoticed);
      runTask, registered := NoTask, false;
    }

    /** The first half of stop(): mark, close the session, cancel the run task. */
    method Stop()
      requires Valid() && Enabled(View(), BeginStop)
      modifies this
      ensures Valid() && View() == Next(old(View()), BeginStop)
    {
      hide Inv, Indexed, TaskEnabled, SendNext, HandleNext, SessionNext, EndSession, OpenSession, ChannelAnswered, DrainEnded;
      LoopOf(View());
      StepKeepsInv(View(), BeginStop);
      MarkStopping();
      if !runTask.NoTask? {
        cancelling, stopPc := true, AwaitingRun;
        return;
      }
      DrainDispatchTasks();
    }

    method MarkStopping()
      requires session.Some? ==> session.value < |sessions|
      modifies this
      ensures View() == Stopping(old(View()))
    {
      stopping, overtaken := true, false;
      if session.Some? {
        CloseSession(session.value);
      }
    }

    /** The second half of stop(), once the run task has ended. */
    method StopAfterRun()
      requires Valid() && Enabled(View(), RunAwaited)
      modifies this
      ensures Valid() && View() == Next(old(View()), RunAwaited)
    {
      hide Inv, Indexed;
      LoopOf(View());
      StepKeepsInv(View(), RunAwaited);
      runTask := NoTask;
      DrainDispatchTasks();
    }

    method DrainDispatchTasks()
      modifies this
      ensures View() == Drain(old(View()).(run := NoTask)) && runTask.NoTask?
    {
      ghost var h := View();
      var pending := set t | 0 <= t < |dispatchTasks| && !dispatchTasks[t].pc.Finished?;
      assert pending == h.Unfinished();
      if pending == {} {
        runTask, drained, registered, stopPc := NoTask, |dispatchTasks|, false, Stopped;
      } else {
        runTask, drained, stopPc := NoTask, |dispatchTasks|, Draining(pending);
      }
    }

    /** The drain is over: the tasks still pending are cancelled one by one, and gathered. */
    method DrainReturned(timedOut: bool)
      requires Valid() && Enabled(View(), DrainOver(timedOut))
      modifies this
      ensures Valid() && View() == Next(old(View()), DrainOver(timedOut))
    {
      hide Inv, Indexed, TaskEnabled, SendNext, HandleNext, SessionNext, DrainEnded;
      LoopOf(View());
      StepKeepsInv(View(), DrainOver(timedOut));
      CancelLateTasks();
    }

    method CancelLateTasks()
      requires stopPc.Draining?
      modifies this
      ensures View() == DrainEnded(old(View()))
    {
      ghost var h := View();
      var late := set t | t in stopPc.pending && t < |dispatchTasks| && !dispatchTasks[t].pc.Finished?;
      assert late == stopPc.pending * h.Unfinished();
      if late == {} {
        registered, stopPc := false, Stopped;
      } else {
        CancelTasks(late);
        stopPc := Gathering(late);
      }
    }

    /** The late tasks are gone, and stop() returns. */
    method GatherReturned()
      requires Valid() && Enabled(View(), GatherOver)
      modifies this
      ensures Valid() && View() == Next(old(View()), GatherOver)
    {
      hide Inv, Indexed;
      LoopOf(View());
      StepKeepsInv(View(), GatherOver);
      registered, stopPc := false, Stopped;
    }

    method CancelTasks(late: set<nat>)
      requires forall t <- late :: t < |dispatchTasks|
      modifies this`dispatchTasks
      ensures dispatchTasks == CancelAll(old(dispatchTasks), late)
    {
      ghost var tasks := dispatchTasks;
      var todo := late;
      while todo != {}
        invariant todo <= late && |dispatchTasks| == |tasks|
        invariant forall t :: 0 <= t < |tasks| ==>
          dispatchTasks[t] == tasks[t].(cancelling := tasks[t].cancelling || t in late - todo)
        decreases todo
      {
        var t :| t in todo;
        dispatchTasks := dispatchTasks[t := dispatchTasks[t].(cancelling := true)];
        todo := todo - {t};
      }
    }

    /** The first stretch of a dispatch task. */
    method Dispatch(t: nat)
      requires Valid() && Enabled(View(), TaskStarts(t))
      modifies this
      ensures Valid() && View() == Next(old(View()), TaskStarts(t))
    {
      hide Inv, Indexed;
      LoopOf(View());
      StepKeepsInv(View(), TaskStarts(t));
      var task := dispatchTasks[t];
      if task.callback.variant.UnknownVariant? {
        task := task.(pc := Finished(Ignored));
      } else if task.callback.actorType !in types {
        task := task.(pc := Sending(RequestFailed(task.callback.id, NotFound)), attempts := task.attempts + 1,
                      outcome := NotHosted);
      } else {
        task := task.(pc := Handling);
      }
      dispatchTasks := dispatchTasks[t := task];
    }

    /** The four handlers, once the actor runtime has answered: each builds the reply of its own kind. */
    method HandlerReturned(t: nat, handled: Handled)
      requires Valid() && Enabled(View(), HandlerDone(t, handled))
      modifies this
      ensures Valid() && View() == Next(old(View()), HandlerDone(t, handled))
    {
      hide Inv, Indexed;
      LoopOf(View());
      StepKeepsInv(View(), HandlerDone(t, handled));
      var task := dispatchTasks[t];
      var cb := task.callback;
      if handled.Broke? || cb.variant.UnknownVariant? {
        dispatchTasks := dispatchTasks[t := task.(pc := Finished(Broken), outcome := Came(handled))];
        return;
      }
      var reply;
      if handled.Raised? && (!cb.variant.Invoke? || handled.e.ActorMethodNotFound?) {
        reply := RequestFailed(cb.id, StatusCodeFor(handled.e));
      } else {
        match cb.variant {
          case Invoke => reply := InvokeResponse(cb.id, handled.Raised?);
          case Reminder => reply := ReminderResponse(cb.id);
          case Timer => reply := TimerResponse(cb.id);
          case Deactivate => reply := DeactivateResponse(cb.id);
        }
      }
      dispatchTasks := dispatchTasks[t := task.(pc := Sending(reply), attempts := task.attempts + 1, outcome := Came(handled))];
    }

    /** Inside send(), once the write lock is granted. */
    method Send(t: nat)
      requires Valid() && Enabled(View(), SendStarts(t))
      modifies this
      ensures Valid() && View() == Next(old(View()), SendStarts(t))
    {
      hide Inv, Indexed;
      LoopOf(View());
      StepKeepsInv(View(), SendStarts(t));
      var task := dispatchTasks[t];
      var stream := sessions[task.session];
      if stream.closed {
        dispatchTasks := dispatchTasks[t := task.(pc := Finished(Dropped))];
        return;
      }
      dispatchTasks := dispatchTasks[t := task.(pc := Writing(task.pc.reply), sentAt := Some(|stream.wire|))];
      sessions := sessions[task.session :=
        stream.(writeLock := Some(t), wire := stream.wire + [Answer(t, task.pc.reply)])];
    }

    /** The write returns or raises, and the lock is released. */
    method SendReturned(t: nat, sent: SendResult)
      requires Valid() && Enabled(View(), SendDone(t, sent))
      modifies this
      ensures Valid() && View() == Next(old(View()), SendDone(t, sent))
    {
      SendDoneIsEnded(View(), t, sent);
      hide Inv, Indexed, Enabled, Next;
      var task := dispatchTasks[t];
      var freed := sessions[task.session].(writeLock := None);
      dispatchTasks := dispatchTasks[t := task.(pc := Finished(if sent.SendOk? then Sent else WriteFailed))];
      sessions := sessions[task.session := if sent.SendRpcError? then Close(freed) else freed];
    }

    /** A late task is cancelled where it waits; in the middle of a write it lets go of the lock. */
    method TaskIsCancelled(t: nat)
      requires Valid() && Enabled(View(), TaskCancels(t))
      modifies this
      ensures Valid() && View() == Next(old(View()), TaskCancels(t))
    {
      hide Inv, Indexed;
      ghost var h := View();
      LoopOf(h);
      var task := dispatchTasks[t];
      var stream := sessions[task.session];
      dispatchTasks := dispatchTasks[t := task.(pc := Finished(Cancelled))];
      sessions := sessions[task.session := if task.pc.Writing? then stream.(writeLock := None) else stream];
      assert View() == TaskCancelledAt(h, t);
      StepKeepsInv(h, TaskCancels(t));
    }
  }

  lemma StartIsStarted(h: Host)
    requires Inv(h) && h.run.NoTask? && h.types != {}
    ensures Indexed(h) && Enabled(h, Start) && Next(h, Start) == Started(h) && Inv(Next(h, Start))
  {
    hide Inv;
    LoopOf(h);
    StepKeepsInv(h, Start);
  }

  lemma SendDoneIsEnded(h: Host, t: nat, sent: SendResult)
    requires Inv(h) && Enabled(h, SendDone(t, sent))
    ensures Indexed(h) && t < |h.tasks| && h.tasks[t].session < |h.sessions|
    ensures Next(h, SendDone(t, sent)) == SendEnded(h, t, sent) && Inv(Next(h, SendDone(t, sent)))
  {
    hide Inv, SendEnded;
    LoopOf(h);
    StepKeepsInv(h, SendDone(t, sent));
  }
}
