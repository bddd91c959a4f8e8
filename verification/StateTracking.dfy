/** The write-back cache behind an actor's state, on values.

    `State` pairs the change tracker of one actor with the rows the remote store holds for it.  Every
    operation of the state manager is a function from a state to a state and a reply; `fault` says
    whether, or for a save how, the store call the operation may have to make is going to raise.  `Txn`, two plain maps,
    says what the operations mean; the lemmas of StateRefinement connect the two. */
module StateTracking {
  import opened Wrappers

  datatype ChangeKind = Unchanged | Add | Update | Remove

  datatype Metadata<V> = Metadata(value: Option<V>, kind: ChangeKind, ttl: Option<int>)

  datatype Change<V> = Change(name: string, value: Option<V>, kind: ChangeKind, ttl: Option<int>)

  datatype Error = AlreadyExists | NotFound | StoreUnavailable | FactoryRaised

  /** How the store call of an operation goes: it returns, it raises and nothing was done, or it raises
      though it was done, as a request can that times out.  Of the two last, only a save can tell. */
  datatype Fault = Up | Down | Unanswered

  type Tracker<V> = map<string, Metadata<V>>
  type Rows<V> = map<string, V>

  datatype State<V> = State(tracker: Tracker<V>, store: Rows<V>) {

    predicate Tracked(name: string) { name in tracker }

    predicate MarkedForRemove(name: string) {
      name in tracker && tracker[name].kind.Remove?
    }

    /** The state after `name` is given a new tracker entry. */
    function Put(name: string, value: Option<V>, kind: ChangeKind, ttl: Option<int>): State<V> {
      this.(tracker := tracker[name := Metadata(value, kind, ttl)])
    }

    function Forget(name: string): State<V> {
      this.(tracker := tracker - {name})
    }
  }

  function TryAddState<V>(s: State<V>, name: string, value: V, fault: bool): (State<V>, Result<bool, Error>) {
    if s.Tracked(name) then
      if s.tracker[name].kind.Remove? then
        (s.Put(name, Some(value), Update, None), Ok(true))
      else
        (s, Ok(false))
    else if fault then
      (s, Err(StoreUnavailable))
    else if name in s.store then
      (s, Ok(false))
    else
      (s.Put(name, Some(value), Add, None), Ok(true))
  }

  /** Whether the name has a value, and the value.  A tracked entry that is not marked for removal
      always answers, with whatever the cache holds. */
  function TryGetState<V>(s: State<V>, name: string, fault: bool): (State<V>, Result<(bool, Option<V>), Error>) {
    if s.Tracked(name) then
      if s.tracker[name].kind.Remove? then
        (s, Ok((false, None)))
      else
        (s, Ok((true, s.tracker[name].value)))
    else if fault then
      (s, Err(StoreUnavailable))
    else if name in s.store then
      (s.Put(name, Some(s.store[name]), Unchanged, None), Ok((true, Some(s.store[name]))))
    else
      (s, Ok((false, None)))
  }

  function SetStateTtl<V>(s: State<V>, name: string, value: V, ttl: Option<int>, fault: bool)
    : (State<V>, Result<(), Error>)
  {
    if ttl.Some? && ttl.value < 0 then
      (s, Ok(()))
    else if s.Tracked(name) then
      var kind := s.tracker[name].kind;
      (s.Put(name, Some(value), if kind.Unchanged? || kind.Remove? then Update else kind, ttl), Ok(()))
    else if fault then
      (s, Err(StoreUnavailable))
    else if name in s.store then
      (s.Put(name, Some(value), Update, ttl), Ok(()))
    else
      (s.Put(name, Some(value), Add, ttl), Ok(()))
  }

  function TryRemoveState<V>(s: State<V>, name: string, fault: bool): (State<V>, Result<bool, Error>) {
    if s.Tracked(name) then
      var m := s.tracker[name];
      if m.kind.Remove? then
        (s, Ok(false))
      else if m.kind.Add? then
        (s.Forget(name), Ok(true))
      else
        (s.Put(name, m.value, Remove, m.ttl), Ok(true))
    else if fault then
      (s, Err(StoreUnavailable))
    else if name in s.store then
      (s.Put(name, None, Remove, None), Ok(true))
    else
      (s, Ok(false))
  }

  function ContainsState<V>(s: State<V>, name: string, fault: bool): Result<bool, Error> {
    if s.Tracked(name) then
      Ok(!s.tracker[name].kind.Remove?)
    else if fault then
      Err(StoreUnavailable)
    else
      Ok(name in s.store)
  }

  function GetOrAddState<V>(s: State<V>, name: string, value: V, fault: bool): (State<V>, Result<Option<V>, Error>) {
    var (s', got) := TryGetState(s, name, fault);
    match got
    case Err(e) => (s', Err(e))
    case Ok((has, v)) =>
      if has then
        (s', Ok(v))
      else
        (s'.Put(name, Some(value), if s'.MarkedForRemove(name) then Update else Add, None), Ok(Some(value)))
  }

  /** The factory is user code, handed the value the cache holds; it may raise, and then nothing is tracked. */
  function AddOrUpdateState<V>(s: State<V>, name: string, value: V, factory: (string, Option<V>) -> Option<V>, fault: bool)
    : (State<V>, Result<V, Error>)
  {
    if s.Tracked(name) then
      var m := s.tracker[name];
      if m.kind.Remove? then
        (s.Put(name, Some(value), Update, None), Ok(value))
      else
        match factory(name, m.value)
        case Some(v) => (s.Put(name, Some(v), if m.kind.Unchanged? then Update else m.kind, m.ttl), Ok(v))
        case None => (s, Err(FactoryRaised))
    else if fault then
      (s, Err(StoreUnavailable))
    else if name in s.store then
      match factory(name, Some(s.store[name]))
      case Some(v) => (s.Put(name, Some(v), Update, None), Ok(v))
      case None => (s, Err(FactoryRaised))
    else
      (s.Put(name, Some(value), Add, None), Ok(value))
  }

  function ClearCache<V>(s: State<V>): State<V> {
    s.(tracker := map[])
  }

  // --- Saving ---------------------------------------------------------------------------------

  predicate Dirty<V>(tracker: Tracker<V>, name: string) {
    name in tracker && !tracker[name].kind.Unchanged?
  }

  function DirtyNames<V>(tracker: Tracker<V>): set<string> {
    set name | name in tracker && Dirty(tracker, name)
  }

  function ChangeOf<V>(name: string, m: Metadata<V>): Change<V> {
    Change(name, m.value, m.kind, m.ttl)
  }

  predicate DistinctNames<V>(changes: seq<Change<V>>) {
    forall i, j :: 0 <= i < j < |changes| ==> changes[i].name != changes[j].name
  }

  function Names<V>(changes: seq<Change<V>>): set<string> {
    set i | 0 <= i < |changes| :: changes[i].name
  }

  /** `changes` submits every dirty name of the tracker exactly once, and no clean name. */
  ghost predicate IsBatch<V>(changes: seq<Change<V>>, tracker: Tracker<V>) {
    && DistinctNames(changes)
    && Names(changes) == DirtyNames(tracker)
    && (forall i :: 0 <= i < |changes| ==>
          changes[i].name in tracker && changes[i] == ChangeOf(changes[i].name, tracker[changes[i].name]))
  }

  /** One operation of a transaction: a removal deletes the row, anything else writes it. */
  function Apply<V>(store: Rows<V>, c: Change<V>): Rows<V> {
    if c.kind.Remove? then store - {c.name}
    else if c.value.Some? then store[c.name := c.value.value]
    else store
  }

  function ApplyAll<V>(store: Rows<V>, changes: seq<Change<V>>): Rows<V>
    decreases |changes|
  {
    if changes == [] then store
    else ApplyAll(Apply(store, changes[0]), changes[1..])
  }

  function RemovedNames<V>(tracker: Tracker<V>): set<string> {
    set name | name in tracker && tracker[name].kind.Remove?
  }

  function Written<V>(tracker: Tracker<V>): Rows<V> {
    map name | name in tracker && (tracker[name].kind.Add? || tracker[name].kind.Update?) &&
               tracker[name].value.Some?
      :: tracker[name].value.value
  }

  /** The rows once every dirty entry has been submitted. */
  function Flushed<V>(s: State<V>): Rows<V> {
    (s.store - RemovedNames(s.tracker)) + Written(s.tracker)
  }

  function Settled<V>(tracker: Tracker<V>): Tracker<V> {
    map name | name in tracker :: tracker[name].(kind := Unchanged)
  }

  /** A save first marks every entry unchanged, then calls the store, and forgets the removed names
      only if the call returns. */
  function SaveState<V>(s: State<V>, fault: Fault): (State<V>, Result<(), Error>) {
    var settled := Settled(s.tracker);
    if DirtyNames(s.tracker) == {} then
      (s, Ok(()))
    else
      match fault
      case Up => (State(settled - RemovedNames(s.tracker), Flushed(s)), Ok(()))
      case Down => (State(settled, s.store), Err(StoreUnavailable))
      case Unanswered => (State(settled, Flushed(s)), Err(StoreUnavailable))
  }

  // --- Calls and runs -------------------------------------------------------------------------

  datatype Op<!V> =
    | AddState(name: string, value: V)
    | TryAdd(name: string, value: V)
    | Get(name: string)
    | TryGet(name: string)
    | Set(name: string, value: V, ttl: Option<int>)
    | RemoveState(name: string)
    | TryRemove(name: string)
    | Contains(name: string)
    | GetOrAdd(name: string, value: V)
    | AddOrUpdate(name: string, value: V, factory: (string, Option<V>) -> Option<V>)
    | Save
    | Clear

  datatype Reply<V> =
    | Done
    | Flag(flag: bool)
    | Found(has: bool, value: Option<V>)
    | Value(value: Option<V>)
    | Raised(error: Error)

  function Flagged<V>(r: Result<bool, Error>): Reply<V> {
    match r case Ok(b) => Flag(b) case Err(e) => Raised(e)
  }

  /** A call that raises `error` where its try_ form answers False. */
  function Insist<V>(r: Result<bool, Error>, error: Error): Reply<V> {
    match r case Ok(b) => (if b then Done else Raised(error)) case Err(e) => Raised(e)
  }

  function Finished<V>(r: Result<(), Error>): Reply<V> {
    match r case Ok(_) => Done case Err(e) => Raised(e)
  }

  /** One call on the state manager. */
  function Step<V>(s: State<V>, op: Op<V>, fault: Fault): (State<V>, Reply<V>) {
    var down := fault != Up;
    match op
    case AddState(name, value) =>
      var (s', r) := TryAddState(s, name, value, down); (s', Insist(r, AlreadyExists))
    case TryAdd(name, value) =>
      var (s', r) := TryAddState(s, name, value, down); (s', Flagged(r))
    case Get(name) =>
      var (s', r) := TryGetState(s, name, down);
      (s', match r case Ok((has, v)) => (if has then Value(v) else Raised(NotFound)) case Err(e) => Raised(e))
    case TryGet(name) =>
      var (s', r) := TryGetState(s, name, down);
      (s', match r case Ok((has, v)) => Found(has, v) case Err(e) => Raised(e))
    case Set(name, value, ttl) =>
      var (s', r) := SetStateTtl(s, name, value, ttl, down); (s', Finished(r))
    case RemoveState(name) =>
      var (s', r) := TryRemoveState(s, name, down); (s', Insist(r, NotFound))
    case TryRemove(name) =>
      var (s', r) := TryRemoveState(s, name, down); (s', Flagged(r))
    case Contains(name) =>
      (s, Flagged(ContainsState(s, name, down)))
    case GetOrAdd(name, value) =>
      var (s', r) := GetOrAddState(s, name, value, down);
      (s', match r case Ok(v) => Value(v) case Err(e) => Raised(e))
    case AddOrUpdate(name, value, factory) =>
      var (s', r) := AddOrUpdateState(s, name, value, factory, down);
      (s', match r case Ok(v) => Value(Some(v)) case Err(e) => Raised(e))
    case Save =>
      var (s', r) := SaveState(s, fault); (s', Finished(r))
    case Clear =>
      (ClearCache(s), Done)
  }

  /** A call together with how its store call goes, if it makes one. */
  datatype Call<!V> = Call(op: Op<V>, fault: Fault)

  function Run<V>(s: State<V>, calls: seq<Call<V>>): (State<V>, seq<Reply<V>>)
    decreases |calls|
  {
    if calls == [] then (s, [])
    else
      var (s1, r) := Step(s, calls[0].op, calls[0].fault);
      var (s2, rs) := Run(s1, calls[1..]);
      (s2, [r] + rs)
  }
}
