/** The state manager as the runtime holds it: a dictionary of entries changed in place, over a remote
    store.  Each method is proved against its function in StateTracking. */
module ActorStateManager {
  import opened Wrappers
  import opened StateTracking
  import StateRefinement

  class StateMetadata<V> {
    var value: Option<V>
    var changeKind: ChangeKind
    var ttlInSeconds: Option<int>

    constructor (value: Option<V>, changeKind: ChangeKind, ttlInSeconds: Option<int>)
      ensures Data() == Metadata(value, changeKind, ttlInSeconds)
    {
      this.value, this.changeKind, this.ttlInSeconds := value, changeKind, ttlInSeconds;
    }

    function Data(): Metadata<V>
      reads this
    {
      Metadata(value, changeKind, ttlInSeconds)
    }
  }

  /** The rows the sidecar keeps for one actor, and the transactions it has been sent. */
  class RemoteStore<V> {
    var rows: Rows<V>
    var received: seq<seq<Change<V>>>

    constructor (rows: Rows<V>)
      ensures this.rows == rows && received == []
    {
      this.rows, received := rows, [];
    }

    /** The transaction is applied as a whole, or refused as a whole; either way the call may raise. */
    method SaveState(changes: seq<Change<V>>, fault: Fault) returns (r: Result<(), Error>)
      modifies this
      ensures received == old(received) + [changes]
      ensures rows == if fault.Down? then old(rows) else ApplyAll(old(rows), changes)
      ensures r == if fault.Up? then Ok(()) else Err(StoreUnavailable)
    {
      received := received + [changes];
      if fault.Down? {
        return Err(StoreUnavailable);
      }
      ghost var before := rows;
      var i := 0;
      while i < |changes|
        invariant 0 <= i <= |changes|
        invariant received == old(received) + [changes]
        invariant ApplyAll(rows, changes[i..]) == ApplyAll(before, changes)
      {
        rows := Apply(rows, changes[i]);
        assert changes[i..][1..] == changes[i + 1..];
        i := i + 1;
      }
      r := if fault.Up? then Ok(()) else Err(StoreUnavailable);
    }
  }

  class ActorStateManager<V> {
    var tracker: map<string, StateMetadata<V>>
    const store: RemoteStore<V>
    ghost var Repr: set<object>

    /** Distinct names have distinct entries, all of them owned by this manager. */
    ghost predicate Valid()
      reads this, Repr
      ensures Valid() ==> this in Repr
    {
      && this in Repr && store !in Repr
      && (forall name <- tracker :: tracker[name] in Repr)
      && (forall a <- tracker, b <- tracker :: tracker[a] == tracker[b] ==> a == b)
    }

    ghost function Cached(): Tracker<V>
      requires Valid()
      reads this, Repr
    {
      map name | name in tracker :: tracker[name].Data()
    }

    ghost function View(): State<V>
      requires Valid()
      reads this, Repr, store
    {
      State(Cached(), store.rows)
    }

    constructor (store: RemoteStore<V>)
      ensures Valid() && fresh(Repr) && this.store == store
      ensures View() == State(map[], store.rows)
    {
      this.store := store;
      tracker := map[];
      Repr := {this};
    }

    /** Assigns a new entry to a name, as `tracker[name] = StateMetadata(...)` does. */
    method Put(name: string, value: Option<V>, kind: ChangeKind, ttl: Option<int>)
      requires Valid()
      modifies this
      ensures Valid() && fresh(Repr - old(Repr))
      ensures View() == old(View()).Put(name, value, kind, ttl)
    {
      var entry := new StateMetadata(value, kind, ttl);
      assert entry.Data() == Metadata(value, kind, ttl);
      tracker := tracker[name := entry];
      Repr := Repr + {entry};
      assert Cached() == old(Cached())[name := Metadata(value, kind, ttl)];
    }

    /** Changes the entry a name has, in place. */
    method Revise(name: string, value: Option<V>, kind: ChangeKind, ttl: Option<int>)
      requires Valid() && name in tracker
      modifies tracker[name]
      ensures Valid()
      ensures View() == old(View()).Put(name, value, kind, ttl)
    {
      var entry := tracker[name];
      entry.value, entry.changeKind, entry.ttlInSeconds := value, kind, ttl;
      assert Cached() == old(Cached())[name := entry.Data()];
    }

    method TryAddState(name: string, value: V, fault: bool) returns (r: Result<bool, Error>)
      requires Valid()
      modifies Repr
      ensures Valid() && fresh(Repr - old(Repr))
      ensures (View(), r) == StateTracking.TryAddState(old(View()), name, value, fault)
    {
      if name in tracker {
        if tracker[name].changeKind.Remove? {
          Put(name, Some(value), Update, None);
          return Ok(true);
        }
        return Ok(false);
      }
      if fault {
        return Err(StoreUnavailable);
      }
      if name in store.rows {
        return Ok(false);
      }
      Put(name, Some(value), Add, None);
      r := Ok(true);
    }

    method TryGetState(name: string, fault: bool) returns (r: Result<(bool, Option<V>), Error>)
      requires Valid()
      modifies Repr
      ensures Valid() && fresh(Repr - old(Repr))
      ensures (View(), r) == StateTracking.TryGetState(old(View()), name, fault)
    {
      if name in tracker {
        if tracker[name].changeKind.Remove? {
          return Ok((false, None));
        }
        return Ok((true, tracker[name].value));
      }
      if fault {
        return Err(StoreUnavailable);
      }
      if name in store.rows {
        var loaded := store.rows[name];
        Put(name, Some(loaded), Unchanged, None);
        return Ok((true, Some(loaded)));
      }
      r := Ok((false, None));
    }

    method SetStateTtl(name: string, value: V, ttl: Option<int>, fault: bool) returns (r: Result<(), Error>)
      requires Valid()
      modifies Repr
      ensures Valid() && fresh(Repr - old(Repr))
      ensures (View(), r) == StateTracking.SetStateTtl(old(View()), name, value, ttl, fault)
    {
      if ttl.Some? && ttl.value < 0 {
        return Ok(());
      }
      if name in tracker {
        var kind := tracker[name].changeKind;
        Revise(name, Some(value), if kind.Unchanged? || kind.Remove? then Update else kind, ttl);
        return Ok(());
      }
      if fault {
        return Err(StoreUnavailable);
      }
      if name in store.rows {
        Put(name, Some(value), Update, ttl);
      } else {
        Put(name, Some(value), Add, ttl);
      }
      r := Ok(());
    }

    method TryRemoveState(name: string, fault: bool) returns (r: Result<bool, Error>)
      requires Valid()
      modifies Repr
      ensures Valid() && fresh(Repr - old(Repr))
      ensures (View(), r) == StateTracking.TryRemoveState(old(View()), name, fault)
    {
      if name in tracker {
        var entry := tracker[name];
        if entry.changeKind.Remove? {
          return Ok(false);
        } else if entry.changeKind.Add? {
          tracker := tracker - {name};
          assert Cached() == old(Cached()) - {name};
          return Ok(true);
        }
        Revise(name, entry.value, Remove, entry.ttlInSeconds);
        return Ok(true);
      }
      if fault {
        return Err(StoreUnavailable);
      }
      if name in store.rows {
        Put(name, None, Remove, None);
        return Ok(true);
      }
      r := Ok(false);
    }

    method ContainsState(name: string, fault: bool) returns (r: Result<bool, Error>)
      requires Valid()
      ensures r == StateTracking.ContainsState(View(), name, fault)
    {
      if name in tracker {
        return Ok(!tracker[name].changeKind.Remove?);
      }
      if fault {
        return Err(StoreUnavailable);
      }
      r := Ok(name in store.rows);
    }

    method GetOrAddState(name: string, value: V, fault: bool) returns (r: Result<Option<V>, Error>)
      requires Valid()
      modifies Repr
      ensures Valid() && fresh(Repr - old(Repr))
      ensures (View(), r) == StateTracking.GetOrAddState(old(View()), name, value, fault)
    {
      var got := TryGetState(name, fault);
      if got.Err? {
        return Err(got.error);
      }
      if got.value.0 {
        return Ok(got.value.1);
      }
      var marked := name in tracker && tracker[name].changeKind.Remove?;
      Put(name, Some(value), if marked then Update else Add, None);
      r := Ok(Some(value));
    }

    method AddOrUpdateState(name: string, value: V, factory: (string, Option<V>) -> Option<V>, fault: bool)
      returns (r: Result<V, Error>)
      requires Valid()
      modifies Repr
      ensures Valid() && fresh(Repr - old(Repr))
      ensures (View(), r) == StateTracking.AddOrUpdateState(old(View()), name, value, factory, fault)
    {
      if name in tracker {
        var entry := tracker[name];
        if entry.changeKind.Remove? {
          Put(name, Some(value), Update, None);
          return Ok(value);
        }
        var v := factory(name, entry.value);
        if v.None? {
          return Err(FactoryRaised);
        }
        Revise(name, v, if entry.changeKind.Unchanged? then Update else entry.changeKind, entry.ttlInSeconds);
        return Ok(v.value);
      }
      if fault {
        return Err(StoreUnavailable);
      }
      if name in store.rows {
        var v := factory(name, Some(store.rows[name]));
        if v.None? {
          return Err(FactoryRaised);
        }
        Put(name, v, Update, None);
        return Ok(v.value);
      }
      Put(name, Some(value), Add, None);
      r := Ok(value);
    }

    method ClearCache()
      requires Valid()
      modifies this
      ensures Valid() && Repr == old(Repr)
      ensures View() == StateTracking.ClearCache(old(View()))
    {
      tracker := map[];
    }

    /** The loop of a save: gathers the dirty entries, in whatever order the dictionary yields them,
        and marks each one unchanged as it goes. */
    method CollectChanges() returns (changes: seq<Change<V>>, removed: set<string>)
      requires Valid()
      modifies Repr - {this}
      ensures Valid() && Cached() == Settled(old(Cached()))
      ensures IsBatch(changes, old(Cached())) && removed == RemovedNames(old(Cached()))
    {
      ghost var before := Cached();
      changes, removed := [], {};
      var todo := tracker.Keys;
      while todo != {}
        invariant Valid() && todo <= tracker.Keys
        invariant forall name <- tracker ::
          tracker[name].Data() == if name in todo then before[name] else before[name].(kind := Unchanged)
        invariant DistinctNames(changes) && Names(changes) == DirtyNames(before) - todo
        invariant forall i :: 0 <= i < |changes| ==>
          changes[i].name in before && changes[i] == ChangeOf(changes[i].name, before[changes[i].name])
        invariant removed == RemovedNames(before) - todo
        decreases todo
      {
        var name :| name in todo;
        var entry := tracker[name];
        assert forall n <- tracker :: n != name ==> tracker[n] != entry;
        if !entry.changeKind.Unchanged? {
          NamesAppend(changes, Change(name, entry.value, entry.changeKind, entry.ttlInSeconds));
          changes := changes + [Change(name, entry.value, entry.changeKind, entry.ttlInSeconds)];
          if entry.changeKind.Remove? {
            removed := removed + {name};
          }
          entry.changeKind := Unchanged;
        }
        todo := todo - {name};
      }
    }

    /** The rest of a save: one transaction if there is anything to submit, and the removed names are
        forgotten unless it was refused. */
    method Submit(changes: seq<Change<V>>, removed: set<string>, fault: Fault) returns (r: Result<(), Error>)
      requires Valid()
      modifies this, store
      ensures Valid() && Repr == old(Repr)
      ensures r == if changes != [] && !fault.Up? then Err(StoreUnavailable) else Ok(())
      ensures store.received == old(store.received) + if changes == [] then [] else [changes]
      ensures store.rows == if fault.Down? then old(store.rows) else ApplyAll(old(store.rows), changes)
      ensures Cached() == if r.Err? then old(Cached()) else old(Cached()) - removed
    {
      if |changes| > 0 {
        r := store.SaveState(changes, fault);
        if r.Err? {
          return;
        }
      }
      tracker := tracker - removed;
      r := Ok(());
    }

    /** Submits the dirty entries as one transaction: every dirty name once, no clean name, and no
        transaction at all when nothing is dirty. */
    method SaveState(fault: Fault) returns (r: Result<(), Error>)
      requires Valid()
      modifies Repr, store
      ensures Valid() && fresh(Repr - old(Repr))
      ensures (View(), r) == StateTracking.SaveState(old(View()), fault)
      ensures DirtyNames(old(Cached())) == {} ==> store.received == old(store.received)
      ensures DirtyNames(old(Cached())) != {} ==>
        exists batch :: IsBatch(batch, old(Cached())) && store.received == old(store.received) + [batch]
    {
      ghost var s := View();
      if |tracker| == 0 {
        assert s.tracker == map[];
        return Ok(());
      }
      var changes, removed := CollectChanges();
      StateRefinement.BatchFlushes(s, changes);
      BatchEmptyIff(changes, s.tracker);
      if changes == [] {
        StateRefinement.NothingDirty(s.tracker);
      }
      r := Submit(changes, removed, fault);
    }

    /** Any one call of user code, the forms that raise included. */
    method Perform(op: Op<V>, fault: Fault) returns (reply: Reply<V>)
      requires Valid()
      modifies Repr, store
      ensures Valid() && fresh(Repr - old(Repr))
      ensures (View(), reply) == Step(old(View()), op, fault)
    {
      var down := !fault.Up?;
      match op {
        case AddState(name, value) =>
          var r := TryAddState(name, value, down);
          reply := Insist(r, AlreadyExists);
        case TryAdd(name, value) =>
          var r := TryAddState(name, value, down);
          reply := Flagged(r);
        case Get(name) =>
          var r := TryGetState(name, down);
          reply := match r case Ok((has, v)) => (if has then Value(v) else Raised(NotFound)) case Err(e) => Raised(e);
        case TryGet(name) =>
          var r := TryGetState(name, down);
          reply := match r case Ok((has, v)) => Found(has, v) case Err(e) => Raised(e);
        case Set(name, value, ttl) =>
          var r := SetStateTtl(name, value, ttl, down);
          reply := Finished(r);
        case RemoveState(name) =>
          var r := TryRemoveState(name, down);
          reply := Insist(r, NotFound);
        case TryRemove(name) =>
          var r := TryRemoveState(name, down);
          reply := Flagged(r);
        case Contains(name) =>
          var r := ContainsState(name, down);
          reply := Flagged(r);
        case GetOrAdd(name, value) =>
          var r := GetOrAddState(name, value, down);
          reply := match r case Ok(v) => Value(v) case Err(e) => Raised(e);
        case AddOrUpdate(name, value, factory) =>
          var r := AddOrUpdateState(name, value, factory, down);
          reply := match r case Ok(v) => Value(Some(v)) case Err(e) => Raised(e);
        case Save =>
          var r := SaveState(fault);
          reply := Finished(r);
        case Clear =>
          ClearCache();
          reply := Done;
      }
    }
  }

  lemma BatchEmptyIff<V>(changes: seq<Change<V>>, tracker: Tracker<V>)
    requires IsBatch(changes, tracker)
    ensures changes == [] <==> DirtyNames(tracker) == {}
  {
    if changes != [] {
      assert changes[0].name in Names(changes);
    }
  }

  lemma NamesAppend<V>(changes: seq<Change<V>>, c: Change<V>)
    ensures Names(changes + [c]) == Names(changes) + {c.name}
  {
    forall n ensures n in Names(changes + [c]) <==> n in Names(changes) + {c.name} {
      if n in Names(changes) {
        var i :| 0 <= i < |changes| && changes[i].name == n;
        assert (changes + [c])[i].name == n;
      }
      assert (changes + [c])[|changes|].name == c.name;
    }
  }
}
