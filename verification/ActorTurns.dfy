/** Turns: what the runtime wraps around an actor method, and what is left behind when one fails.

    User code is a list of calls on the state manager and the way it ends; quantifying over every list
    covers code that decides each call by the replies it has had, and code that catches errors. */
module ActorTurns {
  import opened Wrappers
  import opened StateTracking
  import opened StateRefinement

  /** DaprInternalError, or any other exception. */
  datatype Exc = Internal | Other

  datatype Hook<!V> = Hook(calls: seq<Call<V>>, raises: Option<Exc>)

  function RunHook<V>(s: State<V>, hook: Hook<V>): (State<V>, Option<Exc>) {
    (Run(s, hook.calls).0, hook.raises)
  }

  /** How the store call of a closing save goes if it is made: what it raises, and whether it was done all
      the same.  A response that is no success becomes a DaprInternalError over HTTP, while an AioRpcError
      of the gRPC stub, a connection that fails and a timeout are something else. */
  datatype Closing = Returns | Raises(exc: Exc, applied: bool) {
    function Fault(): Fault { if Returns? then Up else if applied then Unanswered else Down }
    function Exception(): Option<Exc> { if Returns? then None else Some(exc) }
  }

  /** The save that ends a hook. */
  function SaveAfter<V>(s: State<V>, closing: Closing): (State<V>, Option<Exc>) {
    var (s', r) := SaveState(s, closing.Fault());
    (s', if r.Err? then closing.Exception() else None)
  }

  datatype Turn<!V> = Turn(pre: Hook<V>, action: Hook<V>, post: Hook<V>, closing: Closing)

  /** The try block: pre-hook, method, post-hook, save. */
  function TurnBody<V>(s: State<V>, turn: Turn<V>): (State<V>, Option<Exc>) {
    var (s1, e1) := RunHook(s, turn.pre);
    if e1.Some? then (s1, e1) else
    var (s2, e2) := RunHook(s1, turn.action);
    if e2.Some? then (s2, e2) else
    var (s3, e3) := RunHook(s2, turn.post);
    if e3.Some? then (s3, e3) else
    SaveAfter(s3, turn.closing)
  }

  /** A turn on an active actor: only DaprInternalError clears the cache. */
  function TakeTurn<V>(s: State<V>, turn: Turn<V>): (State<V>, Option<Exc>) {
    var (s', e) := TurnBody(s, turn);
    (if e == Some(Internal) then ClearCache(s') else s', e)
  }

  /** An actor id: its rows alone while no actor object exists, with a cache while one does. */
  datatype Slot<V> = Dormant(rows: Rows<V>) | Live(state: State<V>) {
    function Rows(): Rows<V> { if Dormant? then rows else state.store }
  }

  datatype Activation<!V> = Activation(hook: Hook<V>, closing: Closing)

  /** A new actor object with an empty cache runs its hook and saves. */
  function Create<V>(rows: Rows<V>, a: Activation<V>): (Slot<V>, Option<Exc>) {
    var (s1, e1) := RunHook(ClearCache(State(map[], rows)), a.hook);
    if e1.Some? then (Dormant(s1.store), e1) else
    var (s2, e2) := SaveAfter(s1, a.closing);
    if e2.Some? then (Dormant(s2.store), e2) else (Live(s2), None)
  }

  /** It is entered among the active actors only if neither raised, in the place of an actor that was
      there; else that one stays, beside whatever rows the hook has saved. */
  function Activate<V>(slot: Slot<V>, a: Activation<V>): (Slot<V>, Option<Exc>) {
    var (made, e) := Create(slot.Rows(), a);
    (if e.Some? && slot.Live? then Live(State(slot.state.tracker, made.Rows())) else made, e)
  }

  function Dispatch<V>(slot: Slot<V>, a: Activation<V>, turn: Turn<V>): (Slot<V>, Option<Exc>) {
    var (slot1, e1) := if slot.Dormant? then Activate(slot, a) else (slot, None);
    if e1.Some? then (slot1, e1) else
    var (s, e) := TakeTurn(slot1.state, turn);
    (Live(s), e)
  }

  function Deactivate<V>(slot: Slot<V>, hook: Hook<V>): (Slot<V>, Option<Exc>) {
    if slot.Dormant? then (slot, Some(Other)) else
    var (s, e) := RunHook(ClearCache(slot.state), hook);
    (Dormant(s.store), e)
  }

  // --- What a turn keeps ------------------------------------------------------------------------

  /** Some save among the calls was refused. */
  predicate Refused<V>(s: State<V>, calls: seq<Call<V>>)
    decreases |calls|
  {
    calls != [] &&
    (|| (calls[0].op.Save? && !calls[0].fault.Up? && DirtyNames(s.tracker) != {})
     || Refused(Step(s, calls[0].op, calls[0].fault).0, calls[1..]))
  }

  lemma {:induction false} RunStaysHonest<V(!new)>(s: State<V>, calls: seq<Call<V>>)
    requires Inv(s) && !Refused(s, calls)
    ensures var (s', replies) := Run(s, calls);
            Inv(s') && Explains(Abs(s), calls, replies, Abs(s'))
    decreases |calls|
  {
    if calls != [] {
      var op, fault := calls[0].op, calls[0].fault;
      if op.Save? {
        assert SaveState(s, fault) == SaveState(s, Up);
      } else if !fault.Up? {
        FaultIsClean(s, op, fault);
      }
      StepRefines(s, op);
      var (s1, r) := Step(s, op, fault);
      RunStaysHonest(s1, calls[1..]);
      var rs := Run(s1, calls[1..]).1;
      assert ([r] + rs)[1..] == rs;
    }
  }

  /** Some save among the calls raised and left the tracker saying what is not so. */
  ghost predicate Lost<V(!new)>(s: State<V>, calls: seq<Call<V>>)
    decreases |calls|
  {
    calls != [] &&
    (|| (calls[0].op.Save? && !Harmless(s, calls[0].fault))
     || Lost(Step(s, calls[0].op, calls[0].fault).0, calls[1..]))
  }

  lemma {:induction false} RunStaysTrue<V(!new)>(s: State<V>, calls: seq<Call<V>>)
    requires Inv(s) && !Lost(s, calls)
    ensures Inv(Run(s, calls).0)
    decreases |calls|
  {
    hide Inv, Harmless;
    if calls != [] {
      var op, fault := calls[0].op, calls[0].fault;
      StepRefines(s, op);
      if op.Save? {
        SaveIsHonestIff(s, fault);
      } else if !fault.Up? {
        FaultIsClean(s, op, fault);
      }
      RunStaysTrue(Step(s, op, fault).0, calls[1..]);
    }
  }

  /** The calls a turn gets to make before it ends or reaches its save. */
  function CallsMade<V>(turn: Turn<V>): seq<Call<V>> {
    if turn.pre.raises.Some? then turn.pre.calls
    else if turn.action.raises.Some? then turn.pre.calls + turn.action.calls
    else turn.pre.calls + turn.action.calls + turn.post.calls
  }

  /** How the user code of a turn ends. */
  function Raised<V>(turn: Turn<V>): Option<Exc> {
    if turn.pre.raises.Some? then turn.pre.raises
    else if turn.action.raises.Some? then turn.action.raises
    else turn.post.raises
  }

  lemma {:induction false} RunAppend<V>(s: State<V>, a: seq<Call<V>>, b: seq<Call<V>>)
    ensures Run(s, a + b).0 == Run(Run(s, a).0, b).0
    decreases |a|
  {
    if a == [] {
      assert a + b == b;
    } else {
      assert (a + b)[1..] == a[1..] + b;
      RunAppend(Step(s, a[0].op, a[0].fault).0, a[1..], b);
    }
  }

  /** What the runtime does once user code is through: save unless it raised, clear on Internal. */
  function EndTurn<V>(s: State<V>, raised: Option<Exc>, closing: Closing): (State<V>, Option<Exc>) {
    var (s', e) := if raised.Some? then (s, raised) else SaveAfter(s, closing);
    (if e == Some(Internal) then ClearCache(s') else s', e)
  }

  lemma TurnIsRunThenEnd<V>(s: State<V>, turn: Turn<V>)
    ensures TakeTurn(s, turn) == EndTurn(Run(s, CallsMade(turn)).0, Raised(turn), turn.closing)
  {
    hide Run, SaveAfter;
    var a, b, c := turn.pre.calls, turn.action.calls, turn.post.calls;
    RunAppend(s, a + b, c);
    RunAppend(s, a, b);
  }

  /** What the store has once the turn is over: what it had, or what the actor sees, if the closing save was
      reached and done. */
  function Committed<V>(t: Txn<V>, raised: Option<Exc>, closing: Closing): Rows<V> {
    if raised.None? && !closing.Fault().Down? then t.working else t.committed
  }

  lemma SavedOrNot<V(!new)>(s: State<V>, fault: Fault)
    requires Inv(s)
    ensures SaveState(s, fault).0.store == if fault.Down? then s.store else View(s)
    ensures SaveState(s, fault).1.Ok? ==> SaveState(s, fault) == SaveState(s, Up)
  {
    hide View;
    SaveRefines(s);
    FlushIsView(s);
    SettledIsView(s);
  }

  lemma SettledIsView<V(!new)>(s: State<V>)
    requires Inv(s)
    ensures DirtyNames(s.tracker) == {} ==> View(s) == s.store
  {
    if DirtyNames(s.tracker) == {} { SettledHonestViewIsStore(s); }
  }

  lemma EndTurnSettles<V(!new)>(s: State<V>, raised: Option<Exc>, closing: Closing)
    requires Inv(s)
    ensures var (s', e) := EndTurn(s, raised, closing);
            var t, c := Abs(s), Committed(Abs(s), raised, closing);
            && s'.store == c
            && (e == None ==> Inv(s') && Abs(s') == t.Commit())
            && (e == Some(Internal) ==> Inv(s') && Abs(s') == Fresh(c) && s'.tracker == map[])
            && (raised == Some(Other) ==> e == raised && Inv(s') && Abs(s') == t)
  {
    hide Inv;
    if raised.Some? {
      ClearRollsBack(s);
    } else {
      SavedOrNot(s, closing.Fault());
      SaveRefines(s);
      ClearRollsBack(SaveState(s, closing.Fault()).0);
    }
  }

  /** A turn is a transaction: between turns an honest cache leaves no trace of a failed one.  With `t`
      the plain maps after the calls the turn made, and `c` what the store has once it is over, it leaves
      `t.working` in both when it returns, `c` in both when it ends in a DaprInternalError, and `t` itself
      when user code raises anything else: then the changes stay pending, for the next turn to save.  The
      one other ending, a closing save that raises something else, is RaisingSaveIsHonestIff. */
  lemma TurnIsTransaction<V(!new)>(s: State<V>, turn: Turn<V>)
    requires Inv(s) && !Refused(s, CallsMade(turn))
    ensures var (s1, replies) := Run(s, CallsMade(turn));
            var (s', e) := TakeTurn(s, turn);
            var t, c := Abs(s1), Committed(Abs(s1), Raised(turn), turn.closing);
            && Explains(Abs(s), CallsMade(turn), replies, t)
            && s'.store == c
            && (e == None ==> Inv(s') && Abs(s') == t.Commit())
            && (e == Some(Internal) ==> Inv(s') && Abs(s') == Fresh(c) && s'.tracker == map[])
            && (Raised(turn) == Some(Other) ==> e == Raised(turn) && Inv(s') && Abs(s') == t)
  {
    hide Inv, Abs, Explains, EndTurn, TakeTurn, Run, Refused, Committed;
    RunStaysHonest(s, CallsMade(turn));
    TurnIsRunThenEnd(s, turn);
    EndTurnSettles(Run(s, CallsMade(turn)).0, Raised(turn), turn.closing);
  }

  /** ... and whatever else happened in it, swallowed save errors included, a turn that ends in a
      DaprInternalError leaves an empty cache, so that the next turn sees the store. */
  lemma InternalErrorRollsBack<V(!new)>(s: State<V>, turn: Turn<V>)
    ensures var (s', e) := TakeTurn(s, turn);
            e == Some(Internal) ==> s'.tracker == map[] && Inv(s') && View(s') == s'.store == TurnBody(s, turn).0.store
  {
  }

  /** The closing save raises: the store keeps what it had, or has what the actor saw if the save was done
      all the same; and the actor goes on from that if and only if what was raised is a DaprInternalError,
      or nothing new was pending, or, of a save that was done, nothing was to be removed.  Otherwise a
      pending change is neither stored nor undone, or a removed name is taken for a stored one. */
  lemma RaisingSaveIsHonestIff<V(!new)>(s: State<V>, turn: Turn<V>)
    requires Inv(s) && !Lost(s, CallsMade(turn)) && Raised(turn).None? && turn.closing.Raises?
    ensures var s1 := Run(s, CallsMade(turn)).0;
            var (s', e) := TakeTurn(s, turn);
            && s'.store == (if turn.closing.applied then View(s1) else s1.store)
            && e == (if DirtyNames(s1.tracker) != {} then Some(turn.closing.exc) else None)
            && (Inv(s') <==> turn.closing.exc.Internal? ||
                             (if turn.closing.applied then RemovedNames(s1.tracker) == {} else NothingNew(s1)))
            && (e.Some? && Inv(s') ==> View(s') == s'.store)
  {
    RunStaysTrue(s, CallsMade(turn));
    TurnIsRunThenEnd(s, turn);
    SaveThatRaises(Run(s, CallsMade(turn)).0, turn.closing);
  }

  lemma SaveThatRaises<V(!new)>(s: State<V>, closing: Closing)
    requires Inv(s) && closing.Raises?
    ensures var (s', e) := EndTurn(s, None, closing);
            && s'.store == (if closing.applied then View(s) else s.store)
            && e == (if DirtyNames(s.tracker) != {} then Some(closing.exc) else None)
            && (Inv(s') <==> closing.exc.Internal? ||
                             (if closing.applied then RemovedNames(s.tracker) == {} else NothingNew(s)))
            && (e.Some? && Inv(s') ==> View(s') == s'.store)
  {
    hide Inv, View, NothingNew;
    SavedOrNot(s, closing.Fault());
    SaveIsHonestIff(s, closing.Fault());
    CleanIsHarmless(s, closing.Fault());
    ClearRollsBack(SaveState(s, closing.Fault()).0);
    SaveSettles(s, closing.Fault(), Up);
    var s' := EndTurn(s, None, closing).0;
    if DirtyNames(s.tracker) != {} && Inv(s') { SettledIsView(s'); }
  }

  /** Such a save, on either transport: one added name, a sidecar that cannot be reached.  The turn raises,
      the store has nothing, the actor still sees its value, and a save that works submits nothing. */
  lemma UnreachableStoreLies<V(!new)>(name: string, v: V)
    ensures var turn := Turn(Hook([], None), Hook([StateTracking.Call(TryAdd(name, v), Up)], None), Hook([], None),
                             Raises(Other, false));
            var (s, e) := TakeTurn(State(map[], map[]), turn);
            && e == Some(Other) && s.store == map[] && View(s) == map[name := v] && !Inv(s)
            && SaveState(s, Up) == (s, Ok(()))
  {
    var action: seq<StateTracking.Call<V>> := [StateTracking.Call(TryAdd(name, v), Up)];
    var turn := Turn(Hook([], None), Hook(action, None), Hook([], None), Raises(Other, false));
    var start: State<V> := State(map[], map[]);
    var s1 := start.Put(name, Some(v), Add, None);
    var m: Metadata<V> := Metadata(Some(v), Add, None);
    assert CallsMade(turn) == action;
    RunOne(start, action[0]);
    TurnIsRunThenEnd(start, turn);
    OneEntry(name, m);
    var s: State<V> := State(map[name := m.(kind := Unchanged)], start.store);
    assert SaveState(s1, Down).0 == s && TakeTurn(start, turn) == (s, Some(Other));
    OneEntry(name, m.(kind := Unchanged));
    assert !Honest(s, name);
    assert View(s) == map[name := v];
  }

  /** And one that was done, but timed out: the name it removed is gone from the store, and the actor is told
      that it is there. */
  lemma UnansweredRemovalLies<V(!new)>(name: string, v: V)
    ensures var turn := Turn(Hook([], None), Hook([StateTracking.Call(TryRemove(name), Up)], None), Hook([], None),
                             Raises(Other, true));
            var (s, e) := TakeTurn(State(map[], map[name := v]), turn);
            && e == Some(Other) && s.store == map[] && !Inv(s)
            && ContainsState(s, name, false) == Ok(true) && SaveState(s, Up) == (s, Ok(()))
  {
    var action: seq<StateTracking.Call<V>> := [StateTracking.Call(TryRemove(name), Up)];
    var turn := Turn(Hook([], None), Hook(action, None), Hook([], None), Raises(Other, true));
    var start: State<V> := State(map[], map[name := v]);
    var s1 := start.Put(name, None, Remove, None);
    var m: Metadata<V> := Metadata(None, Remove, None);
    assert CallsMade(turn) == action;
    RunOne(start, action[0]);
    TurnIsRunThenEnd(start, turn);
    OneEntry(name, m);
    var s: State<V> := State(map[name := m.(kind := Unchanged)], map[]);
    assert Flushed(s1) == map[];
    assert SaveState(s1, Unanswered).0 == s && TakeTurn(start, turn) == (s, Some(Other));
    OneEntry(name, m.(kind := Unchanged));
    assert !Honest(s, name);
  }

  lemma RunOne<V>(s: State<V>, call: StateTracking.Call<V>)
    ensures Run(s, [call]).0 == Step(s, call.op, call.fault).0
  {
    assert [call][1..] == [];
  }

  lemma OneEntry<V>(name: string, m: Metadata<V>)
    ensures DirtyNames(map[name := m]) == if m.kind.Unchanged? then {} else {name}
    ensures RemovedNames(map[name := m]) == if m.kind.Remove? then {name} else {}
    ensures Settled(map[name := m]) == map[name := m.(kind := Unchanged)]
  {
  }

  // --- Activations, dispatches, deactivations ------------------------------------------------------

  /** The calls, made one after another on the plain maps, can end there; a call that meets a failing store
      may have done nothing. */
  ghost predicate Makes<V(!new)>(t: Txn<V>, calls: seq<StateTracking.Call<V>>, t': Txn<V>) {
    exists replies :: Explains(t, calls, replies, t')
  }

  function TxnRun<V>(t: Txn<V>, calls: seq<StateTracking.Call<V>>): Txn<V>
    decreases |calls|
  {
    if calls == [] then t else TxnRun(TxnStep(t, calls[0].op).0, calls[1..])
  }

  predicate Reliable<V>(calls: seq<StateTracking.Call<V>>) { forall i :: 0 <= i < |calls| ==> calls[i].fault.Up? }

  /** On a store that works there is one way to end. */
  lemma {:induction false} ReliablyMakes<V(!new)>(t: Txn<V>, calls: seq<StateTracking.Call<V>>, t': Txn<V>)
    requires Makes(t, calls, t') && Reliable(calls)
    ensures t' == TxnRun(t, calls)
    decreases |calls|
  {
    var replies :| Explains(t, calls, replies, t');
    if calls != [] {
      var t1 := TxnStep(t, calls[0].op).0;
      assert calls[0].fault.Up?;
      assert Explains(t1, calls[1..], replies[1..], t');
      assert Reliable(calls[1..]) by { assert forall i :: 0 <= i < |calls[1..]| ==> calls[1..][i] == calls[i + 1]; }
      ReliablyMakes(t1, calls[1..], t');
    }
  }

  lemma {:induction false} ReliablyUnrefused<V>(s: State<V>, calls: seq<StateTracking.Call<V>>)
    requires Reliable(calls)
    ensures !Refused(s, calls)
    decreases |calls|
  {
    if calls != [] {
      assert calls[0].fault.Up?;
      assert Reliable(calls[1..]) by { assert forall i :: 0 <= i < |calls[1..]| ==> calls[1..][i] == calls[i + 1]; }
      ReliablyUnrefused(Step(s, calls[0].op, calls[0].fault).0, calls[1..]);
    }
  }

  lemma RunMakes<V(!new)>(s: State<V>, calls: seq<StateTracking.Call<V>>)
    requires Inv(s) && !Refused(s, calls)
    ensures var s' := Run(s, calls).0; Inv(s') && Makes(Abs(s), calls, Abs(s'))
  {
    hide Inv, Abs;
    RunStaysHonest(s, calls);
  }

  /** A new actor's hook makes its calls on the rows there are.  If it raises, or the save after it has
      something to submit and raises, there is no actor, and the rows are what was committed till then;
      otherwise there is one, and everything is committed. */
  lemma CreationSettles<V(!new)>(rows: Rows<V>, a: Activation<V>)
    requires !Refused(State(map[], rows), a.hook.calls)
    ensures var (slot, e) := Create(rows, a);
            exists t :: Makes(Fresh(rows), a.hook.calls, t) &&
              if a.hook.raises.Some? then (slot, e) == (Dormant(t.committed), a.hook.raises)
              else if a.closing.Raises? && t.pending != {} then
                (slot, e) == (Dormant(if a.closing.applied then t.working else t.committed), Some(a.closing.exc))
              else e == None && slot.Live? && Inv(slot.state) && Abs(slot.state) == t.Commit()
  {
    var s := State(map[], rows);
    ClearedIsFresh(s);
    assert ClearCache(s) == s;
    RunMakes(s, a.hook.calls);
    var s1 := Run(s, a.hook.calls).0;
    hide Inv, View, Refused, Run, Explains, Makes, SaveAfter;
    ClosingSettles(s1, a.closing);
    assert Makes(Fresh(rows), a.hook.calls, Abs(s1));
  }

  /** The save that closes an activation or a turn. */
  lemma ClosingSettles<V(!new)>(s: State<V>, closing: Closing)
    requires Inv(s)
    ensures var (s', e) := SaveAfter(s, closing);
            if closing.Raises? && Abs(s).pending != {} then
              e == Some(closing.exc) && s'.store == if closing.applied then Abs(s).working else Abs(s).committed
            else e == None && Inv(s') && Abs(s') == Abs(s).Commit()
  {
    hide Inv, View;
    SavedOrNot(s, closing.Fault());
    SaveRefines(s);
    NothingToSave(s, closing.Fault());
  }

  lemma NothingToSave<V>(s: State<V>, fault: Fault)
    ensures DirtyNames(s.tracker) == {} ==> SaveState(s, fault) == SaveState(s, Up) == (s, Ok(()))
    ensures DirtyNames(s.tracker) != {} && !fault.Up? ==> SaveState(s, fault).1.Err?
  {
  }

  /** The calls a turn gets to make, and how its user code ends. */
  ghost predicate Performs<V(!new)>(turn: Turn<V>, calls: seq<StateTracking.Call<V>>, raised: Option<Exc>) {
    if turn.pre.raises.Some? then calls == turn.pre.calls && raised == turn.pre.raises
    else if turn.action.raises.Some? then calls == turn.pre.calls + turn.action.calls && raised == turn.action.raises
    else calls == turn.pre.calls + turn.action.calls + turn.post.calls && raised == turn.post.raises
  }

  /** Where the calls have left the plain maps, how the user code ended and how the closing save goes decide
      what the actor is left with, and what is raised. */
  ghost predicate Ends<V(!new)>(t: Txn<V>, raised: Option<Exc>, closing: Closing, s: State<V>, e: Option<Exc>) {
    if raised.Some? then e == raised && Abs(s) == if raised.value.Internal? then t.RollBack() else t
    else if closing.Returns? || t.pending == {} then e == None && Abs(s) == t.Commit()
    else
      && e == Some(closing.exc)
      && s.store == (if closing.applied then t.working else t.committed)
      && (closing.exc.Internal? ==> Abs(s) == Fresh(s.store))
  }

  /** An active actor takes the turn: it makes the turn's calls, in order and up to the first exception, and
      then commits them, rolls them back or leaves them pending. */
  lemma ActiveDispatchSettles<V(!new)>(s: State<V>, a: Activation<V>, turn: Turn<V>, calls: seq<StateTracking.Call<V>>, raised: Option<Exc>)
    requires Inv(s) && Performs(turn, calls, raised) && !Refused(s, calls)
    ensures var (slot, e) := Dispatch(Live(s), a, turn);
            slot.Live? && exists t :: Makes(Abs(s), calls, t) && Ends(t, raised, turn.closing, slot.state, e)
  {
    assert calls == CallsMade(turn) && raised == Raised(turn);
    RunMakes(s, calls);
    TurnIsRunThenEnd(s, turn);
    var s1 := Run(s, calls).0;
    hide Abs, Inv, Makes, Ends, EndTurn, Run, TakeTurn, CallsMade, Raised, Refused;
    EndingSettles(s1, raised, turn.closing);
    assert Makes(Abs(s), calls, Abs(s1));
  }

  lemma EndingSettles<V(!new)>(s: State<V>, raised: Option<Exc>, closing: Closing)
    requires Inv(s)
    ensures var (s', e) := EndTurn(s, raised, closing);
            Ends(Abs(s), raised, closing, s', e)
  {
    hide Inv, View, SaveAfter;
    ClosingSettles(s, closing);
    ClearedIsFresh(s);
    ClearedIsFresh(SaveAfter(s, closing).0);
  }

  /** A dormant actor whose activation fails makes no call of the turn; what is left is what the activation
      left, and its exception. */
  lemma FailedActivationTakesNoTurn<V>(rows: Rows<V>, a: Activation<V>, turn: Turn<V>)
    requires Create(rows, a).1.Some?
    ensures Dispatch(Dormant(rows), a, turn) == Create(rows, a)
  {
  }

  /** One that is activated then takes the turn, on what the activation committed. */
  lemma ActivatedTakesTheTurn<V>(rows: Rows<V>, a: Activation<V>, turn: Turn<V>)
    requires Create(rows, a).1.None?
    ensures Create(rows, a).0.Live? && Dispatch(Dormant(rows), a, turn) == Dispatch(Create(rows, a).0, a, turn)
  {
  }

  /** From rows alone, an activation and a turn that return are two transactions, one after the other: the
      calls of the activation hook, a commit, the calls of the turn, a commit. */
  lemma DispatchIsTwoTransactions<V(!new)>(rows: Rows<V>, a: Activation<V>, turn: Turn<V>)
    requires Reliable(a.hook.calls) && a.hook.raises.None? && a.closing.Returns?
    requires Reliable(turn.pre.calls) && Reliable(turn.action.calls) && Reliable(turn.post.calls)
    requires turn.pre.raises.None? && turn.action.raises.None? && turn.post.raises.None? && turn.closing.Returns?
    ensures var (slot, e) := Dispatch(Dormant(rows), a, turn);
            var activated := TxnRun(Fresh(rows), a.hook.calls).Commit();
            var taken := TxnRun(activated, turn.pre.calls + turn.action.calls + turn.post.calls).Commit();
            e == None && slot.Live? && Inv(slot.state) && Abs(slot.state) == taken && slot.Rows() == taken.working
  {
    var calls := turn.pre.calls + turn.action.calls + turn.post.calls;
    ReliablyUnrefused(State(map[], rows), a.hook.calls);
    CreationSettles(rows, a);
    var made := Create(rows, a).0;
    forall t | Makes(Fresh(rows), a.hook.calls, t) ensures t == TxnRun(Fresh(rows), a.hook.calls) {
      ReliablyMakes(Fresh(rows), a.hook.calls, t);
    }
    ReliablyUnrefused(made.state, calls);
    ActivatedTakesTheTurn(rows, a, turn);
    ActiveDispatchSettles(made.state, a, turn, calls, None);
    forall t | Makes(Abs(made.state), calls, t) ensures t == TxnRun(Abs(made.state), calls) {
      ReliablyMakes(Abs(made.state), calls, t);
    }
    ActiveDispatchIsHonest(made.state, a, turn, calls);
  }

  lemma ActiveDispatchIsHonest<V(!new)>(s: State<V>, a: Activation<V>, turn: Turn<V>, calls: seq<StateTracking.Call<V>>)
    requires Inv(s) && Performs(turn, calls, None) && !Refused(s, calls) && turn.closing.Returns?
    ensures var slot := Dispatch(Live(s), a, turn).0; slot.Live? && Inv(slot.state)
  {
    assert calls == CallsMade(turn) && Raised(turn) == None;
    TurnIsTransaction(s, turn);
  }

  /** A deactivation makes its hook's calls on the rows there are, saves nothing by itself, and leaves no
      actor; where there is none it is an error. */
  lemma DeactivationSettles<V(!new)>(s: State<V>, hook: Hook<V>)
    requires !Refused(ClearCache(s), hook.calls)
    ensures exists t :: Makes(Fresh(s.store), hook.calls, t) && Deactivate(Live(s), hook) == (Dormant(t.committed), hook.raises)
    ensures forall rows :: Deactivate(Dormant(rows), hook) == (Dormant(rows), Some(Other))
  {
    ClearedIsFresh(s);
    RunMakes(ClearCache(s), hook.calls);
    assert Makes(Fresh(s.store), hook.calls, Abs(Run(ClearCache(s), hook.calls).0));
  }

  // --- Histories --------------------------------------------------------------------------------

  /** A save of user code, or the closing one, raised and left the tracker saying what is not so, and the
      turn did not end in a DaprInternalError. */
  ghost predicate Swallows<V(!new)>(s: State<V>, turn: Turn<V>) {
    && (|| Lost(s, CallsMade(turn))
        || (Raised(turn).None? && !Harmless(Run(s, CallsMade(turn)).0, turn.closing.Fault())))
    && TakeTurn(s, turn).1 != Some(Internal)
  }

  /** A turn that swallows no such error keeps the cache honest; and if user code caught none in between,
      no other turn does. */
  lemma TurnStaysHonestIff<V(!new)>(s: State<V>, turn: Turn<V>)
    requires Inv(s)
    ensures !Swallows(s, turn) ==> Inv(TakeTurn(s, turn).0)
    ensures !Lost(s, CallsMade(turn)) ==> (Inv(TakeTurn(s, turn).0) <==> !Swallows(s, turn))
  {
    hide Inv, Harmless, Run, TakeTurn, EndTurn, Lost;
    InternalErrorRollsBack(s, turn);
    if !Lost(s, CallsMade(turn)) {
      RunStaysTrue(s, CallsMade(turn));
      TurnIsRunThenEnd(s, turn);
      EndIsHonestIff(Run(s, CallsMade(turn)).0, Raised(turn), turn.closing);
    }
  }

  lemma EndIsHonestIff<V(!new)>(s: State<V>, raised: Option<Exc>, closing: Closing)
    requires Inv(s)
    ensures var (s', e) := EndTurn(s, raised, closing);
            Inv(s') <==> e == Some(Internal) || raised.Some? || Harmless(s, closing.Fault())
  {
    hide Inv, Harmless;
    ClearRollsBack(s);
    ClearRollsBack(SaveState(s, closing.Fault()).0);
    SaveIsHonestIff(s, closing.Fault());
  }

  lemma CleanIsHarmless<V(!new)>(s: State<V>, fault: Fault)
    ensures DirtyNames(s.tracker) == {} ==> Harmless(s, fault)
  {
    assert RemovedNames(s.tracker) <= DirtyNames(s.tracker);
  }

  datatype Event<!V> =
    | Call(activation: Activation<V>, turn: Turn<V>)
    | Collect(hook: Hook<V>)

  function React<V>(slot: Slot<V>, e: Event<V>): Slot<V> {
    match e
    case Call(a, turn) => Dispatch(slot, a, turn).0
    case Collect(hook) => Deactivate(slot, hook).0
  }

  function Play<V>(slot: Slot<V>, events: seq<Event<V>>): Slot<V>
    decreases |events|
  {
    if events == [] then slot else Play(React(slot, events[0]), events[1..])
  }

  ghost predicate HonestSlot<V(!new)>(slot: Slot<V>) { slot.Live? ==> Inv(slot.state) }

  lemma CreatedIsHonest<V(!new)>(rows: Rows<V>, a: Activation<V>)
    requires !Lost(State(map[], rows), a.hook.calls)
    ensures HonestSlot(Create(rows, a).0)
  {
    var s := State(map[], rows);
    assert ClearCache(s) == s;
    RunStaysTrue(s, a.hook.calls);
    SaveRefines(Run(s, a.hook.calls).0);
  }

  /** The actor that an event finds or makes. */
  function Woken<V>(slot: Slot<V>, a: Activation<V>): Slot<V> {
    if slot.Dormant? then Create(slot.rows, a).0 else slot
  }

  /** No refusal is swallowed, in the activation that the event may need or in its turn. */
  ghost predicate Attentive<V(!new)>(slot: Slot<V>, e: Event<V>) {
    e.Call? ==>
      && (slot.Dormant? && Lost(State(map[], slot.rows), e.activation.hook.calls) ==> Woken(slot, e.activation).Dormant?)
      && (Woken(slot, e.activation).Live? ==> !Swallows(Woken(slot, e.activation).state, e.turn))
  }

  ghost predicate AlwaysAttentive<V(!new)>(slot: Slot<V>, events: seq<Event<V>>)
    decreases |events|
  {
    events == [] || (Attentive(slot, events[0]) && AlwaysAttentive(React(slot, events[0]), events[1..]))
  }

  lemma EventIsHonest<V(!new)>(slot: Slot<V>, e: Event<V>)
    requires HonestSlot(slot) && Attentive(slot, e)
    ensures HonestSlot(React(slot, e))
  {
    hide Swallows, Inv, Lost, TakeTurn, Create;
    if e.Call? {
      if slot.Dormant? && !Lost(State(map[], slot.rows), e.activation.hook.calls) {
        CreatedIsHonest(slot.rows, e.activation);
      }
      if slot.Dormant? { CreatedOrNot(slot, e.activation); }
      var live := Woken(slot, e.activation);
      if live.Live? { TurnStaysHonestIff(live.state, e.turn); }
    }
  }

  lemma CreatedOrNot<V>(slot: Slot<V>, a: Activation<V>)
    requires slot.Dormant?
    ensures Activate(slot, a) == Create(slot.rows, a)
    ensures Create(slot.rows, a).1.None? <==> Create(slot.rows, a).0.Live?
  {
  }

  /** Over either transport, through any history of activations, turns and collections, with any store
      call failing anywhere, the cache of an actor never lies unless a save raises that had something new to
      store, or was done and had something to remove, in a turn that does not end in a DaprInternalError. */
  lemma {:induction false} HistoryStaysHonest<V(!new)>(slot: Slot<V>, events: seq<Event<V>>)
    requires HonestSlot(slot) && AlwaysAttentive(slot, events)
    ensures HonestSlot(Play(slot, events))
    decreases |events|
  {
    if events != [] {
      EventIsHonest(slot, events[0]);
      HistoryStaysHonest(React(slot, events[0]), events[1..]);
    }
  }

  // --- User code that leaves saving to the runtime ------------------------------------------------

  predicate SavesItself<V>(calls: seq<StateTracking.Call<V>>) {
    exists i :: 0 <= i < |calls| && calls[i].op.Save?
  }

  /** User code that leaves saving to the runtime, whose own saves fail with a DaprInternalError if at all. */
  predicate LeavesSaving<V>(e: Event<V>) {
    match e
    case Call(a, turn) =>
      !SavesItself(a.hook.calls) && !SavesItself(turn.pre.calls) && !SavesItself(turn.action.calls) &&
      !SavesItself(turn.post.calls) && turn.closing.Exception() != Some(Other)
    case Collect(hook) => true
  }

  lemma {:induction false} NothingLost<V(!new)>(s: State<V>, calls: seq<StateTracking.Call<V>>)
    requires !SavesItself(calls)
    ensures !Lost(s, calls)
    decreases |calls|
  {
    if calls != [] {
      assert !calls[0].op.Save?;
      assert forall i :: 0 <= i < |calls[1..]| ==> calls[1..][i] == calls[i + 1];
      NothingLost(Step(s, calls[0].op, calls[0].fault).0, calls[1..]);
    }
  }

  /** Such code has nothing to swallow, whichever saves are answered with an error response. */
  lemma {:induction false} LeavingSavingIsAttentive<V(!new)>(slot: Slot<V>, events: seq<Event<V>>)
    requires HonestSlot(slot) && forall i :: 0 <= i < |events| ==> LeavesSaving(events[i])
    ensures AlwaysAttentive(slot, events)
    decreases |events|
  {
    hide Inv, TakeTurn, Create, Run, EndTurn, React;
    if events != [] {
      var e := events[0];
      if e.Call? {
        if slot.Dormant? { NothingLost(State(map[], slot.rows), e.activation.hook.calls); CreatedIsHonest(slot.rows, e.activation); }
        var live := Woken(slot, e.activation);
        if live.Live? {
          SavingTurnIsAttentive(live.state, e.turn);
        }
      }
      EventIsHonest(slot, e);
      LeavingSavingIsAttentive(React(slot, e), events[1..]);
    }
  }

  lemma SavingTurnIsAttentive<V(!new)>(s: State<V>, turn: Turn<V>)
    requires Inv(s) && turn.closing.Exception() != Some(Other)
    requires !SavesItself(turn.pre.calls) && !SavesItself(turn.action.calls) && !SavesItself(turn.post.calls)
    ensures !Swallows(s, turn)
  {
    hide Inv, TakeTurn, Run, Lost, EndTurn;
    var calls := CallsMade(turn);
    assert forall i :: 0 <= i < |calls| ==>
      calls[i] in turn.pre.calls || calls[i] in turn.action.calls || calls[i] in turn.post.calls;
    NothingLost(s, calls);
    var s1 := Run(s, calls).0;
    TurnIsRunThenEnd(s, turn);
    CleanIsHarmless(s1, turn.closing.Fault());
    if Raised(turn).None? && turn.closing.Raises? {
      assert turn.closing.exc.Internal?;
      if DirtyNames(s1.tracker) != {} { RaisedAtTheEnd(s1, turn.closing); }
    }
  }

  lemma RaisedAtTheEnd<V>(s: State<V>, closing: Closing)
    requires closing.Raises? && DirtyNames(s.tracker) != {}
    ensures EndTurn(s, None, closing).1 == Some(closing.exc)
  {
  }
}
