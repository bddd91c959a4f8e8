/** The state manager handed to mock actors: the same tracker over a dictionary that is updated at once.
    The class is proved against the functions below; the lemmas relate those to the real manager. */
module MockStateManager {
  import opened Wrappers
  import opened StateTracking
  import opened StateRefinement

  // A mock is a State whose store is the dictionary `_mock_state`.

  function MockTryAdd<V>(m: State<V>, name: string, value: V): (State<V>, bool) {
    var (m', r) := TryAddState(m, name, value, false);
    (if r == Ok(true) && !m.MarkedForRemove(name) then m'.(store := m.store[name := value]) else m', r == Ok(true))
  }

  function MockTryGet<V>(m: State<V>, name: string): (State<V>, (bool, Option<V>)) {
    var (m', r) := TryGetState(m, name, false);
    (m', r.value)
  }

  function MockSetTtl<V>(m: State<V>, name: string, value: V, ttl: Option<int>): State<V> {
    if ttl.Some? && ttl.value < 0 then m
    else SetStateTtl(m, name, value, ttl, false).0.(store := m.store[name := value])
  }

  function MockTryRemove<V>(m: State<V>, name: string): (State<V>, bool) {
    var (m', r) := TryRemoveState(m, name, false);
    (if r == Ok(true) then m'.(store := m.store - {name}) else m', r == Ok(true))
  }

  function MockContains<V>(m: State<V>, name: string): bool {
    ContainsState(m, name, false) == Ok(true)
  }

  function MockGetOrAdd<V>(m: State<V>, name: string, value: V): (State<V>, Option<V>) {
    var (m', r) := GetOrAddState(m, name, value, false);
    (if MockTryGet(m, name).1.0 then m' else m'.(store := m.store[name := value]), r.value)
  }

  function MockAddOrUpdate<V>(m: State<V>, name: string, value: V, factory: (string, Option<V>) -> Option<V>): (State<V>, Option<V>) {
    var (m', r) := AddOrUpdateState(m, name, value, factory, false);
    if r.Ok? then (m'.(store := m.store[name := r.value]), Some(r.value)) else (m', None)
  }

  /** A save of the mock builds the list of changes and drops it. */
  function MockSave<V>(m: State<V>): State<V> {
    m.(tracker := Settled(m.tracker) - RemovedNames(m.tracker))
  }

  function MockStep<V>(m: State<V>, op: Op<V>): (State<V>, Reply<V>) {
    match op
    case AddState(name, value) =>
      var (m', b) := MockTryAdd(m, name, value); (m', if b then Done else Raised(AlreadyExists))
    case TryAdd(name, value) => var (m', b) := MockTryAdd(m, name, value); (m', Flag(b))
    case Get(name) => var (m', (has, v)) := MockTryGet(m, name); (m', if has then Value(v) else Raised(NotFound))
    case TryGet(name) => var (m', (has, v)) := MockTryGet(m, name); (m', Found(has, v))
    case Set(name, value, ttl) => (MockSetTtl(m, name, value, ttl), Done)
    case RemoveState(name) =>
      var (m', b) := MockTryRemove(m, name); (m', if b then Done else Raised(NotFound))
    case TryRemove(name) => var (m', b) := MockTryRemove(m, name); (m', Flag(b))
    case Contains(name) => (m, Flag(MockContains(m, name)))
    case GetOrAdd(name, value) => var (m', v) := MockGetOrAdd(m, name, value); (m', Value(v))
    case AddOrUpdate(name, value, factory) =>
      var (m', v) := MockAddOrUpdate(m, name, value, factory);
      (m', if v.Some? then Value(v) else Raised(FactoryRaised))
    case Save => (MockSave(m), Done)
    case Clear => (ClearCache(m), Done)
  }

  function MockRun<V>(m: State<V>, ops: seq<Op<V>>): (State<V>, seq<Reply<V>>)
    decreases |ops|
  {
    if ops == [] then (m, [])
    else
      var (m1, r) := MockStep(m, ops[0]);
      var (m2, rs) := MockRun(m1, ops[1..]);
      (m2, [r] + rs)
  }

  /** The same calls on a store that is never down. */
  function Reliably<V>(ops: seq<Op<V>>): (calls: seq<Call<V>>)
    ensures |calls| == |ops|
    ensures forall i :: 0 <= i < |ops| ==> calls[i] == Call(ops[i], Up)
  {
    seq(|ops|, i requires 0 <= i < |ops| => Call(ops[i], Up))
  }

  // --- Bisimulation -----------------------------------------------------------------------------

  /** Equal trackers, and equal rows wherever the tracker is silent.  Under a tracked name the two may
      differ, except that the mock has already dropped what is marked for removal. */
  ghost predicate Alike<V(!new)>(live: State<V>, mock: State<V>) {
    && Inv(live)
    && mock.tracker == live.tracker
    && (forall name :: name !in live.tracker ==> AgreeAt(live.store, mock.store, name))
    && (forall name :: live.MarkedForRemove(name) ==> name !in mock.store)
  }

  predicate AgreeAt<V(==)>(a: Rows<V>, b: Rows<V>, name: string) {
    (name in a <==> name in b) && (name in a ==> name in b && a[name] == b[name])
  }

  lemma AlikeTryAdd<V(!new)>(live: State<V>, mock: State<V>, name: string, value: V)
    requires Alike(live, mock)
    ensures var ((live', r), (mock', b)) := (TryAddState(live, name, value, false), MockTryAdd(mock, name, value));
            r == Ok(b) && Alike(live', mock')
  {
  }

  lemma AlikeTryGet<V(!new)>(live: State<V>, mock: State<V>, name: string)
    requires Alike(live, mock)
    ensures var ((live', r), (mock', q)) := (TryGetState(live, name, false), MockTryGet(mock, name));
            r == Ok(q) && Alike(live', mock')
  {
  }

  /** Both write a value under a name, whatever was known of it. */
  lemma AlikeWrite<V(!new)>(live: State<V>, mock: State<V>, name: string, value: V, kind: ChangeKind, ttl: Option<int>)
    requires Alike(live, mock) && !kind.Remove? && !kind.Unchanged?
    requires kind.Add? <==> name !in live.store
    ensures Alike(live.Put(name, Some(value), kind, ttl),
                  State(mock.tracker[name := Metadata(Some(value), kind, ttl)], mock.store[name := value]))
  {
  }

  lemma AlikeSet<V(!new)>(live: State<V>, mock: State<V>, name: string, value: V, ttl: Option<int>)
    requires Alike(live, mock)
    ensures Alike(SetStateTtl(live, name, value, ttl, false).0, MockSetTtl(mock, name, value, ttl))
  {
    if ttl.None? || ttl.value >= 0 {
      assert name in live.tracker ==> Honest(live, name);
      assert name !in live.tracker ==> AgreeAt(live.store, mock.store, name);
      AlikeWrite(live, mock, name, value, if name in live.store then Update else Add, ttl);
    }
  }

  lemma AlikeTryRemove<V(!new)>(live: State<V>, mock: State<V>, name: string)
    requires Alike(live, mock)
    ensures var ((live', r), (mock', b)) := (TryRemoveState(live, name, false), MockTryRemove(mock, name));
            r == Ok(b) && Alike(live', mock')
  {
  }

  lemma AlikeGetOrAdd<V(!new)>(live: State<V>, mock: State<V>, name: string, value: V)
    requires Alike(live, mock)
    ensures var ((live', r), (mock', v)) := (GetOrAddState(live, name, value, false), MockGetOrAdd(mock, name, value));
            r == Ok(v) && Alike(live', mock')
  {
    AlikeTryGet(live, mock, name);
    if !MockTryGet(mock, name).1.0 {
      assert name in live.tracker ==> Honest(live, name);
      AlikeWrite(live, mock, name, value, if live.MarkedForRemove(name) then Update else Add, None);
    }
  }

  lemma AlikeAddOrUpdate<V(!new)>(live: State<V>, mock: State<V>, name: string, value: V,
      factory: (string, Option<V>) -> Option<V>)
    requires Alike(live, mock)
    ensures var ((live', r), (mock', v)) :=
              (AddOrUpdateState(live, name, value, factory, false), MockAddOrUpdate(mock, name, value, factory));
            r == (match v case Some(w) => Ok(w) case None => Err(FactoryRaised)) && Alike(live', mock')
  {
    assert name in live.tracker ==> Honest(live, name);
    assert name !in live.tracker ==> AgreeAt(live.store, mock.store, name);
    var r := AddOrUpdateState(live, name, value, factory, false).1;
    var ttl := if name in live.tracker && !live.tracker[name].kind.Remove? then live.tracker[name].ttl else None;
    if r.Ok? { AlikeWrite(live, mock, name, r.value, if name in live.store then Update else Add, ttl); }
  }

  lemma AlikeSave<V(!new)>(live: State<V>, mock: State<V>)
    requires Alike(live, mock)
    ensures Alike(SaveState(live, Up).0, MockSave(mock))
  {
    SaveRefines(live);
    if DirtyNames(live.tracker) == {} {
      NothingDirty(live.tracker);
    }
    var live', mock' := SaveState(live, Up).0, MockSave(mock);
    forall name | name !in live'.tracker ensures AgreeAt(live'.store, mock'.store, name) {
      if name in live.tracker {
        assert Honest(live, name) && live.MarkedForRemove(name);
      } else {
        assert AgreeAt(live.store, mock.store, name);
      }
    }
  }

  lemma AlikeStep<V(!new)>(live: State<V>, mock: State<V>, op: Op<V>)
    requires Alike(live, mock) && !op.Clear?
    ensures var ((live', r), (mock', q)) := (Step(live, op, Up), MockStep(mock, op));
            r == q && Alike(live', mock')
  {
    match op
    case AddState(name, value) => AlikeTryAdd(live, mock, name, value);
    case TryAdd(name, value) => AlikeTryAdd(live, mock, name, value);
    case Get(name) => AlikeTryGet(live, mock, name);
    case TryGet(name) => AlikeTryGet(live, mock, name);
    case Set(name, value, ttl) => AlikeSet(live, mock, name, value, ttl);
    case RemoveState(name) => AlikeTryRemove(live, mock, name);
    case TryRemove(name) => AlikeTryRemove(live, mock, name);
    case Contains(name) => assert name !in live.tracker ==> AgreeAt(live.store, mock.store, name);
    case GetOrAdd(name, value) => AlikeGetOrAdd(live, mock, name, value);
    case AddOrUpdate(name, value, factory) => AlikeAddOrUpdate(live, mock, name, value, factory);
    case Save => AlikeSave(live, mock);
  }

  /** Whatever is done to both, short of clearing the cache, they answer the same and stay alike. */
  lemma {:induction false} AlikeRun<V(!new)>(live: State<V>, mock: State<V>, ops: seq<Op<V>>)
    requires Alike(live, mock)
    requires forall i :: 0 <= i < |ops| ==> !ops[i].Clear?
    ensures var ((live', rs), (mock', qs)) := (Run(live, Reliably(ops)), MockRun(mock, ops));
            rs == qs && Alike(live', mock')
    decreases |ops|
  {
    if ops != [] {
      AlikeStep(live, mock, ops[0]);
      assert Reliably(ops)[1..] == Reliably(ops[1..]);
      AlikeRun(Step(live, ops[0], Up).0, MockStep(mock, ops[0]).0, ops[1..]);
    }
  }

  /** Two managers started on the same rows cannot be told apart without clear_cache. */
  lemma SameFromTheStart<V(!new)>(rows: Rows<V>, ops: seq<Op<V>>)
    requires forall i :: 0 <= i < |ops| ==> !ops[i].Clear?
    ensures var ((live', rs), (mock', qs)) :=
              (Run(State(map[], rows), Reliably(ops)), MockRun(State(map[], rows), ops));
            rs == qs && live'.tracker == mock'.tracker
  {
    AlikeRun(State(map[], rows), State(map[], rows), ops);
  }

  /** Clearing the cache keeps them alike if and only if the dictionaries are equal: the real manager
      forgets what was not saved, and the mock already wrote it.  While the mock's dictionary is what the
      actor sees, the tracker tells: every pending change must repeat the stored value. */
  lemma ClearKeepsAlikeIff<V(!new)>(live: State<V>, mock: State<V>)
    requires Alike(live, mock)
    ensures Alike(Step(live, Clear, Up).0, MockStep(mock, Clear).0) <==> live.store == mock.store
    ensures mock.store == View(live) ==>
              (Alike(Step(live, Clear, Up).0, MockStep(mock, Clear).0) <==>
               forall name <- DirtyNames(mock.tracker) :: Repeats(live, name))
  {
    if Alike(ClearCache(live), ClearCache(mock)) {
      forall name ensures AgreeAt(live.store, mock.store, name) {}
      assert forall name :: name in live.store ==> AgreeAt(live.store, mock.store, name);
      assert forall name :: name in mock.store ==> AgreeAt(live.store, mock.store, name);
    }
    RepeatsAll(live);
  }

  /** An update to the value that is stored already. */
  predicate Repeats<V(==)>(s: State<V>, name: string)
    requires name in s.tracker
  {
    s.tracker[name].kind.Update? && name in s.store && s.tracker[name].value == Some(s.store[name])
  }

  lemma RepeatsAll<V(!new)>(s: State<V>)
    requires Inv(s)
    ensures View(s) == s.store <==> forall name <- DirtyNames(s.tracker) :: Repeats(s, name)
  {
    var view := View(s);
    if view == s.store {
      forall name | name in DirtyNames(s.tracker) ensures Repeats(s, name) {
        assert Honest(s, name);
        assert name in s.store <==> name in view;
      }
    }
    if forall name <- DirtyNames(s.tracker) :: Repeats(s, name) {
      forall name ensures name in view <==> name in s.store {
        if name in s.tracker { assert Honest(s, name) && (name in DirtyNames(s.tracker) || s.tracker[name].kind.Unchanged?); }
      }
      forall name | name in s.store ensures view[name] == s.store[name] {
        if name in s.tracker { assert Honest(s, name) && (name in DirtyNames(s.tracker) || s.tracker[name].kind.Unchanged?); }
      }
    }
  }

  /** Otherwise they can be told apart: a name that was added and never saved is still there in the mock. */
  lemma ClearTellsThemApart<V(!new)>(name: string, value: V)
    ensures var ops := [TryAdd(name, value), Clear, Contains(name)];
            && Run(State(map[], map[]), Reliably(ops)).1 == [Flag(true), Done, Flag(false)]
            && MockRun(State(map[], map[]), ops).1 == [Flag(true), Done, Flag(true)]
  {
    var ops := [TryAdd(name, value), Clear, Contains(name)];
    var calls := Reliably(ops);
    var start: State<V> := State(map[], map[]);
    assert calls == [StateTracking.Call(ops[0], Up), StateTracking.Call(ops[1], Up), StateTracking.Call(ops[2], Up)];
    var added, mockAdded := Step(start, ops[0], Up).0, MockStep(start, ops[0]).0;
    assert Run(start, [calls[2]]).1 == [Flag(false)];
    assert Run(added, [calls[1], calls[2]]).1 == [Done] + Run(start, [calls[2]]).1;
    assert calls[1..] == [calls[1], calls[2]] && calls[1..][1..] == [calls[2]];
    var cleared := MockStep(mockAdded, Clear).0;
    assert MockRun(cleared, [ops[2]]).1 == [Flag(true)];
    assert ops[1..] == [ops[1], ops[2]] && ops[1..][1..] == [ops[2]];
    assert MockRun(mockAdded, [ops[1], ops[2]]).1 == [Done] + MockRun(cleared, [ops[2]]).1;
  }

  /** The eager dictionary is what the actor sees, and stays so across exactly those calls that do not
      add a name marked for removal: that one branch updates the tracker alone. */
  lemma EagerIsViewIff<V(!new)>(live: State<V>, mock: State<V>, op: Op<V>)
    requires Alike(live, mock) && mock.store == View(live) && !op.Clear?
    ensures MockStep(mock, op).0.store == View(Step(live, op, Up).0) <==>
            !((op.AddState? || op.TryAdd?) && live.MarkedForRemove(op.name))
  {
    StepRefines(live, op);
    AlikeStep(live, mock, op);
    if op.Save? {
      SaveRefines(live);
    } else {
      var s' := Step(live, op, Up).0;
      assert op.name in live.tracker ==> Honest(live, op.name);
      hide Inv, Alike, MockStep, Step, TxnStep, Honest;
      assert View(s') == Abs(s').working == TxnStep(Abs(live), op).0.working;
      EagerCall(mock, op, Abs(live));
    }
  }

  /** Where the dictionary agrees with the tracker on the name of a call, it takes to the call as the plain map
      does, but for the one branch. */
  lemma EagerCall<V>(mock: State<V>, op: Op<V>, t: Txn<V>)
    requires !op.Clear? && !op.Save? && mock.store == t.working
    requires mock.MarkedForRemove(op.name) ==> op.name !in mock.store
    requires op.name in mock.tracker && !mock.MarkedForRemove(op.name) ==>
               mock.tracker[op.name].value.Some? && op.name in mock.store && mock.store[op.name] == mock.tracker[op.name].value.value
    ensures MockStep(mock, op).0.store == TxnStep(t, op).0.working <==>
            !((op.AddState? || op.TryAdd?) && mock.MarkedForRemove(op.name))
  {
    var v := mock.store;
    assert op.name !in v ==> v - {op.name} == v;
    if (op.AddState? || op.TryAdd?) && mock.MarkedForRemove(op.name) {
      assert op.name in TxnStep(t, op).0.working && op.name !in MockStep(mock, op).0.store;
    }
  }

  // --- The class ----------------------------------------------------------------------------------

  class MockStateManager<V> {
    var tracker: Tracker<V>
    var mockState: Rows<V>

    constructor (initState: Rows<V>)
      ensures View() == State(map[], initState)
    {
      tracker, mockState := map[], initState;
    }

    function View(): State<V>
      reads this
    {
      State(tracker, mockState)
    }

    method TryAddState(name: string, value: V) returns (b: bool)
      modifies this
      ensures (View(), b) == MockTryAdd(old(View()), name, value)
    {
      if name in tracker {
        if tracker[name].kind.Remove? {
          tracker := tracker[name := Metadata(Some(value), Update, None)];
          return true;
        }
        return false;
      }
      var existed := name in mockState;
      if existed {
        return false;
      }
      tracker := tracker[name := Metadata(Some(value), Add, None)];
      mockState := mockState[name := value];
      b := true;
    }

    method TryGetState(name: string) returns (r: (bool, Option<V>))
      modifies this
      ensures (View(), r) == MockTryGet(old(View()), name)
    {
      if name in tracker {
        if tracker[name].kind.Remove? {
          return (false, None);
        }
        return (true, tracker[name].value);
      }
      if name in mockState {
        tracker := tracker[name := Metadata(Some(mockState[name]), Unchanged, None)];
        return (true, Some(mockState[name]));
      }
      r := (false, None);
    }

    method SetStateTtl(name: string, value: V, ttl: Option<int>)
      modifies this
      ensures View() == MockSetTtl(old(View()), name, value, ttl)
    {
      if ttl.Some? && ttl.value < 0 {
        return;
      }
      if name in tracker {
        var entry := tracker[name].(value := Some(value), ttl := ttl);
        if entry.kind.Unchanged? || entry.kind.Remove? {
          entry := entry.(kind := Update);
        }
        tracker := tracker[name := entry];
        mockState := mockState[name := value];
        return;
      }
      var existed := name in mockState;
      tracker := tracker[name := Metadata(Some(value), if existed then Update else Add, ttl)];
      mockState := mockState[name := value];
    }

    method TryRemoveState(name: string) returns (b: bool)
      modifies this
      ensures (View(), b) == MockTryRemove(old(View()), name)
    {
      if name in tracker {
        var entry := tracker[name];
        if entry.kind.Remove? {
          return false;
        } else if entry.kind.Add? {
          tracker := tracker - {name};
          mockState := mockState - {name};
          return true;
        }
        mockState := mockState - {name};
        tracker := tracker[name := entry.(kind := Remove)];
        return true;
      }
      if name in mockState {
        tracker := tracker[name := Metadata(None, Remove, None)];
        mockState := mockState - {name};
        return true;
      }
      b := false;
    }

    method GetOrAddState(name: string, value: V) returns (r: Option<V>)
      modifies this
      ensures (View(), r) == MockGetOrAdd(old(View()), name, value)
    {
      var got := TryGetState(name);
      if got.0 {
        return got.1;
      }
      var marked := name in tracker && tracker[name].kind.Remove?;
      mockState := mockState[name := value];
      tracker := tracker[name := Metadata(Some(value), if marked then Update else Add, None)];
      r := Some(value);
    }

    method AddOrUpdateState(name: string, value: V, factory: (string, Option<V>) -> Option<V>) returns (r: Option<V>)
      modifies this
      ensures (View(), r) == MockAddOrUpdate(old(View()), name, value, factory)
    {
      if name in tracker {
        var entry := tracker[name];
        if entry.kind.Remove? {
          tracker := tracker[name := Metadata(Some(value), Update, None)];
          mockState := mockState[name := value];
          return Some(value);
        }
        r := factory(name, entry.value);
        if r.None? { return; }
        entry := entry.(value := r);
        if entry.kind.Unchanged? {
          entry := entry.(kind := Update);
        }
        tracker := tracker[name := entry];
        mockState := mockState[name := r.value];
        return;
      }
      if name in mockState {
        r := factory(name, Some(mockState[name]));
        if r.None? { return; }
        tracker := tracker[name := Metadata(r, Update, None)];
        mockState := mockState[name := r.value];
        return;
      }
      tracker := tracker[name := Metadata(Some(value), Add, None)];
      mockState := mockState[name := value];
      r := Some(value);
    }

    /** The loop of a save, in whatever order the dictionary yields its entries. */
    method MarkUnchanged() returns (removed: set<string>)
      modifies this`tracker
      ensures tracker == Settled(old(tracker)) && removed == RemovedNames(old(tracker))
    {
      ghost var before := tracker;
      removed := {};
      var todo := tracker.Keys;
      assert tracker == SettledExcept(before, todo);
      while todo != {}
        invariant todo <= before.Keys && tracker == SettledExcept(before, todo)
        invariant removed == RemovedNames(before) - todo
        decreases todo
      {
        var name :| name in todo;
        if tracker[name].kind.Remove? {
          removed := removed + {name};
        }
        SettleOne(before, todo, name);
        tracker := tracker[name := tracker[name].(kind := Unchanged)];
        todo := todo - {name};
      }
      assert tracker == Settled(before);
    }

    method SaveState()
      modifies this
      ensures View() == MockSave(old(View()))
    {
      if |tracker| == 0 {
        assert Settled(tracker) - RemovedNames(tracker) == tracker;
        return;
      }
      var removed := MarkUnchanged();
      tracker := tracker - removed;
    }
  }

  ghost function SettledExcept<V>(tracker: Tracker<V>, todo: set<string>): Tracker<V> {
    map name | name in tracker :: if name in todo then tracker[name] else tracker[name].(kind := Unchanged)
  }

  lemma SettleOne<V>(tracker: Tracker<V>, todo: set<string>, name: string)
    requires name in todo && name in tracker
    ensures SettledExcept(tracker, todo)[name := tracker[name].(kind := Unchanged)] ==
            SettledExcept(tracker, todo - {name})
  {
  }
}
