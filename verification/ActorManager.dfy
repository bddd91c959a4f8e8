/** The turns an actor manager takes on an actor, activating it first when it has to. */
module ActorManager {
  import opened Wrappers
  import opened StateTracking
  import opened ActorStateManager
  import opened ActorTurns

  /** The calls of one hook, made in order on the actor's own state manager. */
  method MakeCalls<V>(actor: ActorStateManager<V>, hook: Hook<V>) returns (e: Option<Exc>)
    requires actor.Valid()
    modifies actor.Repr, actor.store
    ensures actor.Valid() && fresh(actor.Repr - old(actor.Repr))
    ensures (actor.View(), e) == RunHook(old(actor.View()), hook)
  {
    ghost var s := actor.View();
    var i := 0;
    while i < |hook.calls|
      invariant 0 <= i <= |hook.calls|
      invariant actor.Valid() && fresh(actor.Repr - old(actor.Repr))
      invariant Run(actor.View(), hook.calls[i..]).0 == Run(s, hook.calls).0
    {
      var call := hook.calls[i];
      var _ := actor.Perform(call.op, call.fault);
      assert hook.calls[i..][1..] == hook.calls[i + 1..];
      i := i + 1;
    }
    e := hook.raises;
  }

  method SaveStateInternal<V>(actor: ActorStateManager<V>, closing: Closing) returns (e: Option<Exc>)
    requires actor.Valid()
    modifies actor.Repr, actor.store
    ensures actor.Valid() && fresh(actor.Repr - old(actor.Repr))
    ensures (actor.View(), e) == SaveAfter(old(actor.View()), closing)
  {
    var r := actor.SaveState(closing.Fault());
    e := if r.Err? then closing.Exception() else None;
  }

  method RunTurnBody<V>(actor: ActorStateManager<V>, turn: Turn<V>) returns (e: Option<Exc>)
    requires actor.Valid()
    modifies actor.Repr, actor.store
    ensures actor.Valid() && fresh(actor.Repr - old(actor.Repr))
    ensures (actor.View(), e) == TurnBody(old(actor.View()), turn)
  {
    e := MakeCalls(actor, turn.pre);
    if e.Some? { return; }
    e := MakeCalls(actor, turn.action);
    if e.Some? { return; }
    e := MakeCalls(actor, turn.post);
    if e.Some? { return; }
    e := SaveStateInternal(actor, turn.closing);
  }

  method TakeTurnOn<V>(actor: ActorStateManager<V>, turn: Turn<V>) returns (e: Option<Exc>)
    requires actor.Valid()
    modifies actor.Repr, actor.store
    ensures actor.Valid() && fresh(actor.Repr - old(actor.Repr))
    ensures (actor.View(), e) == TakeTurn(old(actor.View()), turn)
  {
    e := RunTurnBody(actor, turn);
    if e == Some(Internal) {
      actor.ClearCache();
    }
  }

  /** A new actor object: an empty cache, its activation hook, and a save. */
  method CreateActor<V>(store: RemoteStore<V>, activation: Activation<V>)
    returns (actor: ActorStateManager<V>, e: Option<Exc>)
    modifies store
    ensures actor.Valid() && fresh(actor.Repr) && actor.store == store
    ensures (if e.Some? then Dormant(store.rows) else Live(actor.View()), e) ==
            Create(old(store.rows), activation)
  {
    actor := new ActorStateManager(store);
    actor.ClearCache();
    e := MakeCalls(actor, activation.hook);
    if e.Some? { return; }
    e := SaveStateInternal(actor, activation.closing);
  }

  /** What the manager of an actor type holds under one actor id: an active actor or none, beside the
      rows the sidecar keeps for that id. */
  class ActorEntry<V> {
    var activeActor: ActorStateManager?<V>
    const store: RemoteStore<V>

    ghost predicate Valid()
      reads this, activeActor, if activeActor != null then activeActor.Repr else {}
    {
      activeActor != null ==> activeActor.Valid() && activeActor.store == store && this !in activeActor.Repr
    }

    ghost function Owned(): set<object>
      reads this, activeActor
    {
      {this, store} + if activeActor != null then activeActor.Repr else {}
    }

    ghost function View(): Slot<V>
      requires Valid()
      reads this, store, activeActor, if activeActor != null then activeActor.Repr else {}
    {
      if activeActor != null then Live(activeActor.View()) else Dormant(store.rows)
    }

    constructor (store: RemoteStore<V>)
      ensures Valid() && fresh(Owned() - {store})
      ensures View() == Dormant(store.rows)
    {
      this.store := store;
      activeActor := null;
    }

    /** An actor that is active already is replaced. */
    method ActivateActor(activation: Activation<V>) returns (e: Option<Exc>)
      requires Valid()
      modifies this, store
      ensures Valid() && fresh(Owned() - old(Owned()))
      ensures (View(), e) == Activate(old(View()), activation)
    {
      var actor;
      actor, e := CreateActor(store, activation);
      if e.None? {
        activeActor := actor;
      }
    }

    method DispatchInternal(activation: Activation<V>, turn: Turn<V>) returns (e: Option<Exc>)
      requires Valid()
      modifies Owned()
      ensures Valid() && fresh(Owned() - old(Owned()))
      ensures (View(), e) == Dispatch(old(View()), activation, turn)
    {
      if activeActor == null {
        e := ActivateActor(activation);
        if e.Some? { return; }
      }
      e := TakeTurnOn(activeActor, turn);
    }

    method DeactivateActor(hook: Hook<V>) returns (e: Option<Exc>)
      requires Valid()
      modifies Owned()
      ensures Valid() && fresh(Owned() - old(Owned()))
      ensures (View(), e) == Deactivate(old(View()), hook)
    {
      if activeActor == null {
        return Some(Other);
      }
      var actor := activeActor;
      activeActor := null;
      actor.ClearCache();
      e := MakeCalls(actor, hook);
    }
  }
}
