/** The state manager is a map with commit and rollback.

    `Txn` holds two plain maps, what the store has and what the actor sees, and of what the actor has
    written, which names are due to be submitted and what times to live it gave.  Under the tracker
    invariant every call answers and moves as `Txn` does, whatever was cached before it, and the
    invariant is kept; so over every run the tracker is invisible except in how often the store is
    called, and every transaction submits just what is due. */
module StateRefinement {
  import opened Wrappers
  import opened StateTracking

  datatype Txn<V> = Txn(committed: Rows<V>, working: Rows<V>, pending: set<string>, ttls: map<string, int>) {

    /** A value is written, with a time to live or without one. */
    function Write(name: string, value: V, ttl: Option<int>): Txn<V> {
      Txn(committed, working[name := value], pending + {name},
          if ttl.Some? then ttls[name := ttl.value] else ttls - {name})
    }

    /** A value is replaced, and keeps the time to live it was given. */
    function Replace(name: string, value: V): Txn<V> {
      Txn(committed, working[name := value], pending + {name}, ttls)
    }

    /** A name is removed: there is a row to delete only if one was committed. */
    function Drop(name: string): Txn<V> {
      Txn(committed, working - {name}, if name in committed then pending + {name} else pending - {name}, ttls - {name})
    }

    function Commit(): Txn<V> { Txn(working, working, {}, ttls) }

    function RollBack(): Txn<V> { Fresh(committed) }
  }

  /** An actor that has only its rows. */
  function Fresh<V>(rows: Rows<V>): Txn<V> { Txn(rows, rows, {}, map[]) }

  /** The meaning of each call, with no tracker in sight. */
  function TxnStep<V>(t: Txn<V>, op: Op<V>): (Txn<V>, Reply<V>) {
    var has := op.Save? || op.Clear? || op.name in t.working;
    match op
    case AddState(name, value) =>
      if has then (t, Raised(AlreadyExists)) else (t.Write(name, value, None), Done)
    case TryAdd(name, value) =>
      if has then (t, Flag(false)) else (t.Write(name, value, None), Flag(true))
    case Get(name) =>
      (t, if has then Value(Some(t.working[name])) else Raised(NotFound))
    case TryGet(name) =>
      (t, if has then Found(true, Some(t.working[name])) else Found(false, None))
    case Set(name, value, ttl) =>
      if ttl.Some? && ttl.value < 0 then (t, Done) else (t.Write(name, value, ttl), Done)
    case RemoveState(name) =>
      if has then (t.Drop(name), Done) else (t, Raised(NotFound))
    case TryRemove(name) =>
      (if has then t.Drop(name) else t, Flag(has))
    case Contains(name) =>
      (t, Flag(has))
    case GetOrAdd(name, value) =>
      if has then (t, Value(Some(t.working[name]))) else (t.Write(name, value, None), Value(Some(value)))
    case AddOrUpdate(name, value, factory) =>
      if !has then (t.Write(name, value, None), Value(Some(value)))
      else (match factory(name, Some(t.working[name]))
            case Some(v) => (t.Replace(name, v), Value(Some(v)))
            case None => (t, Raised(FactoryRaised)))
    case Save =>
      (t.Commit(), Done)
    case Clear =>
      (t.RollBack(), Done)
  }

  /** What the actor sees: the cache where it has an answer, the store elsewhere. */
  function View<V>(s: State<V>): Rows<V> {
    map name | name in s.store.Keys + s.tracker.Keys &&
               !s.MarkedForRemove(name) && (name in s.tracker ==> s.tracker[name].value.Some?)
      :: if name in s.tracker then s.tracker[name].value.value else s.store[name]
  }

  /** The times to live that the entries hold, but for those marked for removal. */
  function Ttls<V>(s: State<V>): map<string, int> {
    map name | name in s.tracker && !s.tracker[name].kind.Remove? && s.tracker[name].ttl.Some? :: s.tracker[name].ttl.value
  }

  function Abs<V>(s: State<V>): Txn<V> { Txn(s.store, View(s), DirtyNames(s.tracker), Ttls(s)) }

  /** What each change kind says about the row in the store. */
  ghost predicate Inv<V(!new)>(s: State<V>) {
    forall name <- s.tracker :: Honest(s, name)
  }

  ghost predicate Honest<V(!new)>(s: State<V>, name: string)
    requires name in s.tracker
  {
    var m := s.tracker[name];
    match m.kind
    case Unchanged => name in s.store && m.value == Some(s.store[name])
    case Add => name !in s.store && m.value.Some?
    case Update => name in s.store && m.value.Some?
    case Remove => name in s.store
  }

  // --- One call -------------------------------------------------------------------------------

  lemma ViewPut<V>(s: State<V>, name: string, value: V, kind: ChangeKind, ttl: Option<int>)
    requires !kind.Remove?
    ensures View(s.Put(name, Some(value), kind, ttl)) == View(s)[name := value]
  {
  }

  lemma DirtyPut<V>(tracker: Tracker<V>, name: string, m: Metadata<V>)
    ensures DirtyNames(tracker[name := m]) == if m.kind.Unchanged? then DirtyNames(tracker) - {name} else DirtyNames(tracker) + {name}
  {
  }

  lemma TtlsPut<V>(s: State<V>, name: string, value: Option<V>, kind: ChangeKind, ttl: Option<int>)
    ensures Ttls(s.Put(name, value, kind, ttl)) ==
            if !kind.Remove? && ttl.Some? then Ttls(s)[name := ttl.value] else Ttls(s) - {name}
  {
  }

  lemma AbsWrite<V>(s: State<V>, name: string, value: V, kind: ChangeKind, ttl: Option<int>)
    requires kind.Add? || kind.Update?
    ensures Abs(s.Put(name, Some(value), kind, ttl)) == Abs(s).Write(name, value, ttl)
  {
    hide View, DirtyNames, Ttls;
    ViewPut(s, name, value, kind, ttl);
    DirtyPut(s.tracker, name, Metadata(Some(value), kind, ttl));
    TtlsPut(s, name, Some(value), kind, ttl);
  }

  lemma NotDirty<V>(s: State<V>, name: string)
    requires name !in s.tracker
    ensures name !in DirtyNames(s.tracker) && name !in Ttls(s)
    ensures View(s) == if name in s.store then View(s)[name := s.store[name]] else View(s)
  {
  }

  lemma AbsLoad<V>(s: State<V>, name: string)
    requires name !in s.tracker && name in s.store
    ensures Abs(s.Put(name, Some(s.store[name]), Unchanged, None)) == Abs(s)
  {
    hide View, DirtyNames, Ttls;
    ViewPut(s, name, s.store[name], Unchanged, None);
    DirtyPut(s.tracker, name, Metadata(Some(s.store[name]), Unchanged, None));
    TtlsPut(s, name, Some(s.store[name]), Unchanged, None);
    NotDirty(s, name);
  }

  lemma ViewRemove<V>(s: State<V>, name: string, value: Option<V>, ttl: Option<int>)
    ensures View(s.Put(name, value, Remove, ttl)) == View(s) - {name}
  {
    var s' := s.Put(name, value, Remove, ttl);
    assert forall n :: n != name ==> (s'.MarkedForRemove(n) <==> s.MarkedForRemove(n));
  }

  lemma AbsRemove<V>(s: State<V>, name: string, value: Option<V>, ttl: Option<int>)
    requires name in s.store
    ensures Abs(s.Put(name, value, Remove, ttl)) == Abs(s).Drop(name)
  {
    hide View, DirtyNames, Ttls;
    ViewRemove(s, name, value, ttl);
    DirtyPut(s.tracker, name, Metadata(value, Remove, ttl));
    TtlsPut(s, name, value, Remove, ttl);
  }

  lemma AbsForget<V>(s: State<V>, name: string)
    requires name !in s.store
    ensures Abs(s.Forget(name)) == Abs(s).Drop(name)
  {
    ViewForget(s, name);
    hide View;
    assert DirtyNames(s.Forget(name).tracker) == DirtyNames(s.tracker) - {name};
    assert Ttls(s.Forget(name)) == Ttls(s) - {name};
  }

  lemma ViewForget<V>(s: State<V>, name: string)
    requires name !in s.store
    ensures View(s.Forget(name)) == View(s) - {name}
  {
  }

  /** After a save the store holds what the actor saw. */
  lemma FlushIsView<V(!new)>(s: State<V>)
    requires Inv(s)
    ensures Flushed(s) == View(s)
  {
  }

  /** With nothing pending the actor sees the store. */
  lemma SettledHonestViewIsStore<V(!new)>(s: State<V>)
    requires Inv(s) && DirtyNames(s.tracker) == {}
    ensures View(s) == s.store
  {
    forall name | name in s.tracker ensures s.tracker[name].kind.Unchanged? && Honest(s, name) {
      assert name !in DirtyNames(s.tracker);
    }
  }

  lemma SavedIsHonest<V(!new)>(s: State<V>)
    requires Inv(s) && DirtyNames(s.tracker) != {}
    ensures var s' := SaveState(s, Up).0; Inv(s') && DirtyNames(s'.tracker) == {}
  {
    var s' := SaveState(s, Up).0;
    assert s'.tracker == Settled(s.tracker) - RemovedNames(s.tracker) && s'.store == Flushed(s);
    forall n | n in s'.tracker ensures Honest(s', n) {
      assert Honest(s, n);
      assert n !in RemovedNames(s.tracker);
    }
  }

  lemma SaveKeepsTtls<V(!new)>(s: State<V>)
    ensures Ttls(SaveState(s, Up).0) == Ttls(s)
  {
    var s' := SaveState(s, Up).0;
    if DirtyNames(s.tracker) != {} {
      assert s'.tracker == Settled(s.tracker) - RemovedNames(s.tracker);
      assert forall n :: n in s'.tracker <==> n in s.tracker && !s.tracker[n].kind.Remove?;
    }
  }

  lemma SaveRefines<V(!new)>(s: State<V>)
    requires Inv(s)
    ensures var s' := SaveState(s, Up).0;
            Inv(s') && s'.store == View(s) && View(s') == View(s) && Abs(s') == Abs(s).Commit()
  {
    SaveKeepsTtls(s);
    SaveSettles(s, Up, Up);
    hide Inv, View, Flushed, Settled, RemovedNames, Ttls;
    FlushIsView(s);
    if DirtyNames(s.tracker) == {} {
      SettledHonestViewIsStore(s);
    } else {
      SavedIsHonest(s);
      SettledHonestViewIsStore(SaveState(s, Up).0);
    }
  }

  lemma TryAddRefines<V(!new)>(s: State<V>, name: string, value: V)
    requires Inv(s)
    ensures var (s', r) := TryAddState(s, name, value, false);
            && Inv(s') && r == Ok(name !in View(s))
            && Abs(s') == if name in View(s) then Abs(s) else Abs(s).Write(name, value, None)
  {
    assert name in s.tracker ==> Honest(s, name);
    AbsWrite(s, name, value, if name in s.tracker then Update else Add, None);
    hide Abs;
  }

  lemma TryGetRefines<V(!new)>(s: State<V>, name: string)
    requires Inv(s)
    ensures var (s', r) := TryGetState(s, name, false);
            && Inv(s') && Abs(s') == Abs(s)
            && (s'.MarkedForRemove(name) <==> s.MarkedForRemove(name))
            && r == Ok(if name in View(s) then (true, Some(View(s)[name])) else (false, None))
  {
    assert name in s.tracker ==> Honest(s, name);
    if name !in s.tracker && name in s.store {
      AbsLoad(s, name);
    }
    hide Abs;
  }

  lemma SetRefines<V(!new)>(s: State<V>, name: string, value: V, ttl: Option<int>)
    requires Inv(s)
    ensures var (s', r) := SetStateTtl(s, name, value, ttl, false);
            && Inv(s') && r == Ok(())
            && Abs(s') == if ttl.Some? && ttl.value < 0 then Abs(s) else Abs(s).Write(name, value, ttl)
  {
    assert name in s.tracker ==> Honest(s, name);
    AbsWrite(s, name, value, Add, ttl);
    AbsWrite(s, name, value, Update, ttl);
    hide Abs;
  }

  lemma TryRemoveRefines<V(!new)>(s: State<V>, name: string)
    requires Inv(s)
    ensures var (s', r) := TryRemoveState(s, name, false);
            && Inv(s') && r == Ok(name in View(s))
            && Abs(s') == if name in View(s) then Abs(s).Drop(name) else Abs(s)
  {
    assert name in s.tracker ==> Honest(s, name);
    if name in s.tracker && s.tracker[name].kind.Add? {
      AbsForget(s, name);
    } else if name in s.tracker {
      AbsRemove(s, name, s.tracker[name].value, s.tracker[name].ttl);
    } else if name in s.store {
      AbsRemove(s, name, None, None);
    }
    hide Abs;
  }

  lemma GetOrAddRefines<V(!new)>(s: State<V>, name: string, value: V)
    requires Inv(s)
    ensures var (s', r) := GetOrAddState(s, name, value, false);
            && Inv(s') && r == Ok(Some(if name in View(s) then View(s)[name] else value))
            && Abs(s') == if name in View(s) then Abs(s) else Abs(s).Write(name, value, None)
  {
    TryGetRefines(s, name);
    assert name in s.tracker ==> Honest(s, name);
    var s1 := TryGetState(s, name, false).0;
    AbsWrite(s1, name, value, if s1.MarkedForRemove(name) then Update else Add, None);
    hide Abs;
  }

  lemma AddOrUpdateRefines<V(!new)>(s: State<V>, name: string, value: V, factory: (string, Option<V>) -> Option<V>)
    requires Inv(s)
    ensures var (s', r) := AddOrUpdateState(s, name, value, factory, false);
            && Inv(s')
            && if name !in View(s) then r == Ok(value) && Abs(s') == Abs(s).Write(name, value, None)
               else match factory(name, Some(View(s)[name]))
                    case Some(v) => r == Ok(v) && Abs(s') == Abs(s).Replace(name, v)
                    case None => r == Err(FactoryRaised) && s' == s
  {
    assert name in s.tracker ==> Honest(s, name);
    var (s', r) := AddOrUpdateState(s, name, value, factory, false);
    if r.Ok? {
      var m := s'.tracker[name];
      AbsWrite(s, name, r.value, m.kind, m.ttl);
      if name in View(s) { WriteSameTtl(s, name, r.value, m.ttl); }
    }
    hide Abs;
  }

  /** A write with the time to live the name has is a replacement. */
  lemma WriteSameTtl<V>(s: State<V>, name: string, value: V, ttl: Option<int>)
    requires !s.MarkedForRemove(name) && ttl == if name in s.tracker then s.tracker[name].ttl else None
    ensures Abs(s).Write(name, value, ttl) == Abs(s).Replace(name, value)
  {
    hide View, DirtyNames;
    assert ttl.Some? ==> Ttls(s)[name := ttl.value] == Ttls(s);
    assert ttl.None? ==> Ttls(s) - {name} == Ttls(s);
  }

  /** The tracker is invisible: every call answers, and moves, as the plain maps do. */
  lemma StepRefines<V(!new)>(s: State<V>, op: Op<V>)
    requires Inv(s)
    ensures var (s', r) := Step(s, op, Up);
            Inv(s') && TxnStep(Abs(s), op) == (Abs(s'), r)
  {
    hide Inv, View, DirtyNames, Ttls;
    match op
    case AddState(name, value) => TryAddRefines(s, name, value);
    case TryAdd(name, value) => TryAddRefines(s, name, value);
    case Get(name) => TryGetRefines(s, name);
    case TryGet(name) => TryGetRefines(s, name);
    case Set(name, value, ttl) => SetRefines(s, name, value, ttl);
    case RemoveState(name) => TryRemoveRefines(s, name);
    case TryRemove(name) => TryRemoveRefines(s, name);
    case Contains(name) => ContainsRefines(s, name);
    case GetOrAdd(name, value) => GetOrAddRefines(s, name, value);
    case AddOrUpdate(name, value, factory) => AddOrUpdateRefines(s, name, value, factory);
    case Save => SaveRefines(s);
    case Clear => ClearedIsFresh(s);
  }

  lemma ContainsRefines<V(!new)>(s: State<V>, name: string)
    requires Inv(s)
    ensures ContainsState(s, name, false) == Ok(name in View(s))
  {
    assert name in s.tracker ==> Honest(s, name);
  }

  lemma ClearedIsFresh<V(!new)>(s: State<V>)
    ensures Inv(ClearCache(s)) && Abs(ClearCache(s)) == Fresh(s.store)
  {
    assert View(ClearCache(s)) == s.store;
  }

  // --- Runs -----------------------------------------------------------------------------------

  /** Replies that the plain map explains: each is its own reply, or reports that the store was down,
      in which case the call did nothing. */
  ghost predicate Explains<V(!new)>(t: Txn<V>, calls: seq<Call<V>>, replies: seq<Reply<V>>, end: Txn<V>)
    decreases |calls|
  {
    if calls == [] then
      replies == [] && t == end
    else
      && replies != []
      && (|| (calls[0].fault != Up && replies[0] == Raised(StoreUnavailable) && Explains(t, calls[1..], replies[1..], end))
          || (var (t1, r) := TxnStep(t, calls[0].op); replies[0] == r && Explains(t1, calls[1..], replies[1..], end)))
  }

  /** A call made while the store is down either fails and changes nothing, or never needed the store. */
  lemma FaultIsClean<V(!new)>(s: State<V>, op: Op<V>, fault: Fault)
    requires !op.Save?
    ensures Step(s, op, fault) == (s, Raised(StoreUnavailable)) || Step(s, op, fault) == Step(s, op, Up)
  {
  }

  /** Refinement over every run in which no save fails: reads and writes may fail at will. */
  lemma {:induction false} RunRefines<V(!new)>(s: State<V>, calls: seq<Call<V>>)
    requires Inv(s)
    requires forall i :: 0 <= i < |calls| && calls[i].op.Save? ==> calls[i].fault.Up?
    ensures var (s', replies) := Run(s, calls);
            Inv(s') && Explains(Abs(s), calls, replies, Abs(s'))
    decreases |calls|
  {
    if calls != [] {
      var call := calls[0];
      var (s1, r) := Step(s, call.op, call.fault);
      if !call.fault.Up? { FaultIsClean(s, call.op, call.fault); }
      StepRefines(s, call.op);
      RunRefines(s1, calls[1..]);
      var (s2, rs) := Run(s1, calls[1..]);
      assert ([r] + rs)[1..] == rs;
    }
  }

  /** ... and when such a run ends in a save, the store is exactly what the actor sees. */
  lemma RunThenSave<V(!new)>(s: State<V>, calls: seq<Call<V>>)
    requires Inv(s)
    requires forall i :: 0 <= i < |calls| && calls[i].op.Save? ==> calls[i].fault.Up?
    ensures var s1 := Run(s, calls).0;
            var (s2, r) := Step(s1, Save, Up);
            r == Done && s2.store == View(s1) && View(s2) == View(s1)
  {
    RunRefines(s, calls);
    SaveRefines(Run(s, calls).0);
  }

  // --- What a save submits ----------------------------------------------------------------------

  /** A transaction with distinct names does to each row what its one change for that row says. */
  lemma {:induction false} ApplyAllAt<V>(store: Rows<V>, changes: seq<Change<V>>, name: string)
    requires DistinctNames(changes)
    ensures var end := ApplyAll(store, changes);
            && (name !in Names(changes) ==> (name in end <==> name in store) && (name in end ==> end[name] == store[name]))
            && (forall i :: 0 <= i < |changes| && changes[i].name == name ==>
                  var one := Apply(store, changes[i]);
                  (name in end <==> name in one) && (name in end ==> end[name] == one[name]))
    decreases |changes|
  {
    if changes != [] {
      var rest := changes[1..];
      ApplyAllAt(Apply(store, changes[0]), rest, name);
      assert Names(changes) == {changes[0].name} + Names(rest) by {
        forall n ensures n in Names(changes) <==> n in {changes[0].name} + Names(rest) {
          if n in Names(changes) {
            var i :| 0 <= i < |changes| && changes[i].name == n;
            assert i > 0 ==> rest[i - 1].name == n;
          }
          if n in Names(rest) {
            var i :| 0 <= i < |rest| && rest[i].name == n;
            assert changes[i + 1].name == n;
          }
        }
      }
      forall i | 0 < i < |changes| && changes[i].name == name
        ensures changes[i] == rest[i - 1] && changes[0].name != name {}
    }
  }

  /** Whatever order the dirty names are submitted in, the store ends up the same. */
  lemma BatchFlushes<V>(s: State<V>, changes: seq<Change<V>>)
    requires IsBatch(changes, s.tracker)
    ensures ApplyAll(s.store, changes) == Flushed(s)
  {
    var end, flushed := ApplyAll(s.store, changes), Flushed(s);
    forall n ensures (n in end <==> n in flushed) && (n in end ==> end[n] == flushed[n]) {
      ApplyAllAt(s.store, changes, n);
      if n in DirtyNames(s.tracker) {
        assert n in Names(changes);
        var i :| 0 <= i < |changes| && changes[i].name == n;
        assert changes[i] == ChangeOf(n, s.tracker[n]);
      }
    }
  }

  /** What a transaction submits, in terms of the plain maps: each name that is due once; a removal exactly
      for a name that is gone, an insertion exactly for one that is new; and with every value what the actor
      sees and the time to live that it gave, if it gave one. */
  ghost predicate Submits<V(!new)>(changes: seq<Change<V>>, t: Txn<V>) {
    && (forall i, j :: 0 <= i < j < |changes| ==> changes[i].name != changes[j].name)
    && (forall name :: name in t.pending <==> exists i :: 0 <= i < |changes| && changes[i].name == name)
    && (forall i :: 0 <= i < |changes| ==> SubmitsOne(changes[i], t))
  }

  predicate SubmitsOne<V(==)>(c: Change<V>, t: Txn<V>) {
    if c.name in t.working then
      && c.kind == (if c.name in t.committed then Update else Add)
      && c.value == Some(t.working[c.name])
      && c.ttl == (if c.name in t.ttls then Some(t.ttls[c.name]) else None)
    else c.kind == Remove && c.name in t.committed
  }

  /** Every batch of an honest tracker submits just what is due. */
  lemma BatchSubmits<V(!new)>(s: State<V>, changes: seq<Change<V>>)
    requires Inv(s) && IsBatch(changes, s.tracker)
    ensures Submits(changes, Abs(s))
  {
    forall name ensures name in DirtyNames(s.tracker) <==> exists i :: 0 <= i < |changes| && changes[i].name == name {
      assert name in DirtyNames(s.tracker) <==> name in Names(changes);
    }
    forall i | 0 <= i < |changes| ensures SubmitsOne(changes[i], Abs(s)) {
      var c := changes[i];
      assert c.name in Names(changes);
      assert Honest(s, c.name) && Dirty(s.tracker, c.name);
    }
  }

  /** So over every run whose saves are accepted, what is submitted next is what the calls on the plain maps
      have made due. */
  lemma RunSubmits<V(!new)>(s: State<V>, calls: seq<Call<V>>, changes: seq<Change<V>>)
    requires Inv(s)
    requires forall i :: 0 <= i < |calls| && calls[i].op.Save? ==> calls[i].fault.Up?
    requires IsBatch(changes, Run(s, calls).0.tracker)
    ensures exists t :: Explains(Abs(s), calls, Run(s, calls).1, t) && Submits(changes, t)
  {
    RunRefines(s, calls);
    BatchSubmits(Run(s, calls).0, changes);
  }

  /** A value set with a time to live is submitted with it, until it is written again or removed. */
  lemma SetIsSubmitted<V(!new)>(s: State<V>, name: string, value: V, ttl: int, changes: seq<Change<V>>)
    requires Inv(s) && 0 <= ttl && IsBatch(changes, Step(s, Set(name, value, Some(ttl)), Up).0.tracker)
    ensures exists i :: 0 <= i < |changes| && changes[i].name == name
              && changes[i].value == Some(value) && changes[i].ttl == Some(ttl) && !changes[i].kind.Remove?
  {
    var s' := Step(s, Set(name, value, Some(ttl)), Up).0;
    StepRefines(s, Set(name, value, Some(ttl)));
    BatchSubmits(s', changes);
    assert name in Abs(s').pending;
    var i :| 0 <= i < |changes| && changes[i].name == name;
    assert SubmitsOne(changes[i], Abs(s'));
  }

  /** A value that a factory makes of the one before keeps the time to live that one had. */
  lemma ReplacedKeepsTtl<V(!new)>(s: State<V>, op: Op<V>, v: V, changes: seq<Change<V>>)
    requires Inv(s) && op.AddOrUpdate? && op.name in View(s) && op.factory(op.name, Some(View(s)[op.name])) == Some(v)
    requires IsBatch(changes, Step(s, op, Up).0.tracker)
    ensures exists i :: 0 <= i < |changes| && changes[i].name == op.name && changes[i].value == Some(v)
              && changes[i].ttl == (if op.name in Ttls(s) then Some(Ttls(s)[op.name]) else None)
  {
    var s' := Step(s, op, Up).0;
    StepRefines(s, op);
    BatchSubmits(s', changes);
    assert Abs(s') == Abs(s).Replace(op.name, v);
    assert op.name in Abs(s').pending;
    var i :| 0 <= i < |changes| && changes[i].name == op.name;
    assert SubmitsOne(changes[i], Abs(s'));
  }

  /** A name that is removed and added again has lost it. */
  lemma ReaddedHasNoTtl<V(!new)>(s: State<V>, name: string, value: V, changes: seq<Change<V>>)
    requires Inv(s)
    requires IsBatch(changes, Step(Step(s, TryRemove(name), Up).0, TryAdd(name, value), Up).0.tracker)
    ensures exists i :: 0 <= i < |changes| && changes[i].name == name && changes[i].value == Some(value) && changes[i].ttl == None
  {
    var s1 := Step(s, TryRemove(name), Up).0;
    var s2 := Step(s1, TryAdd(name, value), Up).0;
    StepRefines(s, TryRemove(name));
    StepRefines(s1, TryAdd(name, value));
    BatchSubmits(s2, changes);
    assert name !in View(s1);
    assert Abs(s2) == Abs(s1).Write(name, value, None);
    assert name in Abs(s2).pending;
    var i :| 0 <= i < |changes| && changes[i].name == name;
    assert SubmitsOne(changes[i], Abs(s2));
  }

  lemma NothingDirty<V>(tracker: Tracker<V>)
    requires DirtyNames(tracker) == {}
    ensures Settled(tracker) - RemovedNames(tracker) == tracker
  {
    forall n | n in tracker ensures !Dirty(tracker, n) {
      assert n !in DirtyNames(tracker);
    }
  }

  /** A save leaves nothing to submit, whether or not the store took it; and saving again at once is
      no call at all.  So a save that failed and is simply repeated writes nothing. */
  lemma SaveSettles<V(!new)>(s: State<V>, fault: Fault, again: Fault)
    ensures var s1 := SaveState(s, fault).0;
            DirtyNames(s1.tracker) == {} && SaveState(s1, again) == (s1, Ok(()))
  {
  }

  // --- Roll-back --------------------------------------------------------------------------------

  /** A failed save keeps the store, and clearing the cache then restores the last committed rows
      from any state at all: the cleared tracker is honest. */
  lemma ClearRollsBack<V(!new)>(s: State<V>)
    ensures var s' := Step(s, Clear, Up).0;
            Inv(s') && Abs(s') == Fresh(s.store)
    ensures SaveState(s, Down).0.store == s.store
  {
    ClearedIsFresh(s);
  }

  /** Every pending change carries the value the store already has; a pending removal does so too, if it
      still holds what was loaded. */
  ghost predicate NothingNew<V(!new)>(s: State<V>) {
    forall name <- DirtyNames(s.tracker) :: name in s.store && s.tracker[name].value == Some(s.store[name])
  }

  /** Until the cache is cleared, a failed save leaves an honest tracker if and only if every pending
      change was already in the store: it forgets which entries were pending, so any other one is
      now taken for a stored value. */
  lemma FailedSaveIsHonestIff<V(!new)>(s: State<V>)
    requires Inv(s)
    ensures Inv(SaveState(s, Down).0) <==> NothingNew(s)
  {
    var s' := SaveState(s, Down).0;
    if DirtyNames(s.tracker) != {} {
      assert s'.tracker == Settled(s.tracker);
      if Inv(s') {
        forall name | name in DirtyNames(s.tracker)
          ensures name in s.store && s.tracker[name].value == Some(s.store[name])
        {
          assert Honest(s', name);
        }
      }
      if NothingNew(s) {
        forall name | name in s'.tracker ensures Honest(s', name) {
          assert Honest(s, name);
          assert name in DirtyNames(s.tracker) || s.tracker[name].kind.Unchanged?;
        }
      }
    }
  }

  /** A save that was done and raised all the same has forgotten no removed name: it leaves an honest tracker
      if and only if nothing was to be removed. */
  lemma UnansweredSaveIsHonestIff<V(!new)>(s: State<V>)
    requires Inv(s)
    ensures Inv(SaveState(s, Unanswered).0) <==> RemovedNames(s.tracker) == {}
  {
    var s' := SaveState(s, Unanswered).0;
    assert RemovedNames(s.tracker) <= DirtyNames(s.tracker);
    if DirtyNames(s.tracker) != {} {
      assert s'.tracker == Settled(s.tracker) && s'.store == Flushed(s);
      if RemovedNames(s.tracker) == {} {
        forall name | name in s'.tracker ensures Honest(s', name) {
          assert Honest(s, name);
          assert s.tracker[name].kind.Remove? ==> name in RemovedNames(s.tracker);
        }
      } else {
        var name :| name in RemovedNames(s.tracker);
        assert name !in Flushed(s) && name in s'.tracker && !Honest(s', name);
      }
    }
  }

  /** What makes a save of no harm to the tracker, however it goes. */
  ghost predicate Harmless<V(!new)>(s: State<V>, fault: Fault) {
    match fault
    case Up => true
    case Down => NothingNew(s)
    case Unanswered => RemovedNames(s.tracker) == {}
  }

  lemma SaveIsHonestIff<V(!new)>(s: State<V>, fault: Fault)
    requires Inv(s)
    ensures Inv(SaveState(s, fault).0) <==> Harmless(s, fault)
  {
    match fault
    case Up => SaveRefines(s);
    case Down => FailedSaveIsHonestIff(s);
    case Unanswered => UnansweredSaveIsHonestIff(s);
  }
}
