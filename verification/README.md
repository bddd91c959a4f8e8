# Models and proofs for the Dapr Python SDK

This project models the parts of the SDK whose behaviour is hardest to see from the code: the
actor state manager and the turns built on it, the gRPC actor host, the schema and the coercion of
tool arguments, the codecs that must undo one another, and the retry loops, the Strands session
repository and the topic router. `dafny verify dfyconfig.toml` checks all of it.

## How it is laid out

Each part has a specification on values and, where the source updates an object in place, a class
with the source's fields whose methods are proved against that specification. The theorems are
lemmas about the specification, so they hold of the class as well.

- **Actor state.** `StateTracking` is the tracker (unchanged, add, update, remove) over a remote
  transactional store, with every call of the state manager, a store that may fail at each call, and
  runs of calls. `StateRefinement` says what that means, with plain maps: what is committed, what the
  actor sees, which names a save has to submit and with what time to live. `ActorStateManager` is the
  class, down to the loop of a save. `MockStateManager` is the second implementation, and its
  bisimulation with the first.
- **Turns.** `ActorTurns` is activation, the hooks around a method, the save, and the reset on an
  internal error, and what a dispatch, an activation and a deactivation make of the plain maps;
  `ActorManager` is the same sequence of effects on the class.
- **The gRPC actor host.** `GrpcHost` is a transition system whose steps are what happens between
  two awaits: of the run loop, of `stop()`, and of each dispatch task, which records what came of its
  callback. `GrpcHostSafety` says where each step goes, and proves an invariant and what follows from
  it for every interleaving. `ActorGrpcHost` is the class; each of its methods is one such stretch of
  code and is proved to be one step.
- **Tools.** `ToolTypes` is the language of type hints, the schema generated for one, the coercion
  of a value to one, what it is to inhabit one. `ToolBinding` lifts it to parameters and defaults.
  `ToolMeaning` says, of each, what is returned and what the schema asks for.
- **Codecs.** `Json`, `JsonPrinting`, `Decimals`, `Utf8` and `Base64` are the formats (RFC 8259,
  RFC 3629, section 4 of RFC 4648); `Serializer` the default serialiser and its decoder, which takes
  strings for dates and durations; `StateTransaction` the hand-written transaction text and its
  reader, `SavedRows` what performing it makes of the rows, and `TransactionKeys`, over `JsonWeight`,
  which keys it can be written for; `ActorCallbacks` timer and reminder payloads; `Durations` the
  duration printer and the grammar of its regular expression; `CryptoStreams` the chunker and the
  buffered reader.
- **Supports.** `Retry`; `SessionKeys`, `SessionRepository`, `SessionSafety`, `SessionMessages`,
  `SessionRecords` and the class `DaprSessionManager`; `TopicRules`, `TopicRouter` and the class
  `CallbackServicer`. `Names` and `Wrappers` are shared.

## Where the code does less than one might expect

Each of these is a lemma, exact in both directions where the table says "exactly".

- A closing save that raises anything but `DaprInternalError` is not rolled back: an `AioRpcError`
  over gRPC, a failed connection or a timeout over HTTP. By then every change is marked unchanged,
  and the actor goes on seeing what was never stored (`ActorTurns.UnreachableStoreLies`,
  `ActorTurns.RaisingSaveIsHonestIff`, `StateRefinement.FailedSaveIsHonestIff`). One that was done but
  timed out leaves the removed names in the cache, as if they were stored
  (`ActorTurns.UnansweredRemovalLies`).
- The mock's dictionary lags behind when a removed name is added again, and clearing its cache
  does not restore it (`MockStateManager.EagerIsViewIff`, `MockStateManager.ClearKeepsAlikeIff`).
- A default is coerced like an argument, so that a call the schema allows is refused if the default
  does not fit its hint, as `x: int = None` does not (`ToolBinding.DefaultMustFit`,
  `ToolBinding.NoneDefaultNeedsOptional`; before Python 3.11 the hint becomes optional by itself). A
  bare `None` hint lets any scalar or list through (`ToolTypes.BareNoneIsUnsound`), and an integer
  beyond the floats is a valid number that is refused (`ToolTypes.HugeNumberIsRefused`).
- The schema of an enum asks for a string even where its values are numbers, so that nothing is valid
  for it, while coercion takes every value (`ToolMeaning.NumericEnumAdmitsNothing`). That of an
  optional hint, and that of literals of one type beside None, has no null in it
  (`ToolMeaning.SchemaAdmits`).
- Keys are written raw, and a transaction with a key that needs escaping is not read back
  (`TransactionKeys.TransactionReadsBackIff`).
- A duration whose seconds round up is printed a second too long (`Durations.DurationRoundTripIff`).
- The serialiser's decoder turns string values that look like dates or durations into those: a
  state, an argument or a timer's data "10s" comes back as ten seconds (`Serializer.DeserializeIff`,
  `ActorCallbacks.TimerStateArrivesIff`), and a reminder's state whose base64 looks so, such as the
  three bytes D7 6D E1, is lost (`ActorCallbacks.FiredStateArrivesIff`). Reminders read from their
  dictionary form lose their failure policy (`ActorCallbacks.ReminderSurvivesIff`).
- Encrypting nothing sends no options (`CryptoStreams.OptionsAreSentIff`), and reading to the end
  ignores what earlier reads left in the buffer (`CryptoStreams.ReadToEndIsAllIff`).
- Creating an agent writes the manifest last, so that an interruption leaves documents a deletion
  of the session does not find (`SessionSafety.OpKeepsManifestIff`); and sessions whose ids are nested
  share keys (`SessionRepository.SessionsShareIff`).
- A `stop()` that a `start()` overtakes while it drains finishes the tasks it set out to finish
  (`GrpcHostSafety.DrainedAreFinished`), but returns with a loop alive whose registration it has
  cleared (`GrpcHostSafety.OvertakenStopLeavesTheLoop`).

## Model

| member | source | states |
|---|---|---|
| StateRefinement.StepRefines | dapr/actor/runtime/state_manager.py:72-271 | in any state whose tracker is honest, each of the twelve calls answers as the same call on a plain map with commit and rollback, leaves the names due at a save and their times to live as that call does, and leaves the tracker honest: the cache is invisible |
| StateRefinement.TryAddRefines | dapr/actor/runtime/state_manager.py:72-92 | adding succeeds exactly when the actor sees no such name, whatever is tracked or stored |
| StateRefinement.TryGetRefines | dapr/actor/runtime/state_manager.py:94-113 | a read answers what the actor sees and changes nothing it sees |
| StateRefinement.SetRefines | dapr/actor/runtime/state_manager.py:115-146 | a set replaces one name in the actor's view, and does nothing at all when the ttl is negative |
| StateRefinement.TryRemoveRefines | dapr/actor/runtime/state_manager.py:148-170 | a removal takes the name from the view and says whether it was there |
| StateRefinement.GetOrAddRefines | dapr/actor/runtime/state_manager.py:181-192 | the value seen if there is one, else the default, which becomes visible |
| StateRefinement.AddOrUpdateRefines | dapr/actor/runtime/state_manager.py:194-222 | the factory is applied to what the actor sees, else the value is added; a factory that raises changes nothing |
| StateRefinement.SaveRefines | dapr/actor/runtime/state_manager.py:244-271 | a save makes the store equal to what the actor sees, and the actor sees no change |
| StateRefinement.RunRefines | dapr/actor/runtime/state_manager.py:72-271 | over every sequence of calls whose saves are accepted, with the store failing at any other call, the replies are those of the plain map, a failed call changing nothing it holds |
| StateRefinement.RunThenSave | dapr/actor/runtime/state_manager.py:244-271 | after any run a save leaves in the store exactly what the run made of the map |
| StateRefinement.FaultIsClean | dapr/actor/runtime/state_manager.py:72-222 | a call other than a save that meets a failing store changes nothing; one that needs no store does not notice |
| StateRefinement.ApplyAllAt | dapr/actor/runtime/_state_provider.py:83-109 | what a transaction does to each row depends on the one change that names it, so the order of the dictionary does not matter |
| StateRefinement.BatchFlushes | dapr/actor/runtime/state_manager.py:244-271 | submitting every dirty name once, in any order, brings the store to the actor's view |
| StateRefinement.BatchSubmits | dapr/actor/runtime/state_manager.py:250-262 | what a save submits, by its fields: each name that is due once, an update if the store has it and else an add, with the value the actor sees and the ttl pending for it; a removal only of a name the store has |
| StateRefinement.RunSubmits | dapr/actor/runtime/state_manager.py:72-271 | so after every run of calls, what the next save submits is what the same calls on the plain maps have made due |
| StateRefinement.SetIsSubmitted | dapr/actor/runtime/state_manager.py:119-146 | a set with a ttl submits a change of that name, that value and that ttl, in any order of the dictionary |
| StateRefinement.ReplacedKeepsTtl | dapr/actor/runtime/state_manager.py:194-222 | a value made by a factory of the one before is submitted with the ttl that was pending for it |
| StateRefinement.ReaddedHasNoTtl | dapr/actor/runtime/state_manager.py:72-92 | a name removed and added again is submitted without one |
| StateRefinement.SaveSettles | dapr/actor/runtime/state_manager.py:244-271 | after a save, even a failed one, nothing is dirty and a second save submits nothing |
| StateRefinement.ClearRollsBack | dapr/actor/runtime/state_manager.py:239-242 | clearing the cache is a rollback: the actor sees what the store has |
| StateRefinement.FailedSaveIsHonestIff | dapr/actor/runtime/state_manager.py:244-271 | a failed save keeps the tracker honest exactly when every dirty entry repeats what the store has |
| StateRefinement.UnansweredSaveIsHonestIff | dapr/actor/runtime/state_manager.py:264-271 | a save that was done but raised, as a timeout can, keeps the tracker honest exactly when it had nothing to remove |
| StateRefinement.SaveIsHonestIff | dapr/actor/runtime/state_manager.py:244-271 | the exact condition of every way a save can go |
| ActorStateManager.ActorStateManager.TryAddState | dapr/actor/runtime/state_manager.py:72-92 | the dictionary of entries after the call, and its answer, are those of the specification |
| ActorStateManager.ActorStateManager.TryGetState | dapr/actor/runtime/state_manager.py:94-113 | tracker and answer are those of the specification; a value loaded from the store is cached as unchanged |
| ActorStateManager.ActorStateManager.SetStateTtl | dapr/actor/runtime/state_manager.py:119-146 | tracker and answer are those of the specification, though a tracked entry is changed in place and not replaced |
| ActorStateManager.ActorStateManager.TryRemoveState | dapr/actor/runtime/state_manager.py:152-170 | tracker and answer are those of the specification; an entry that was only added is forgotten |
| ActorStateManager.ActorStateManager.ContainsState | dapr/actor/runtime/state_manager.py:172-179 | the answer is that of the specification, and nothing changes |
| ActorStateManager.ActorStateManager.GetOrAddState | dapr/actor/runtime/state_manager.py:181-192 | tracker and answer are those of the specification, a name marked for removal becoming an update |
| ActorStateManager.ActorStateManager.AddOrUpdateState | dapr/actor/runtime/state_manager.py:194-222 | tracker and answer are those of the specification, an entry keeping its ttl when its value is changed in place |
| ActorStateManager.ActorStateManager.ClearCache | dapr/actor/runtime/state_manager.py:239-242 | the tracker is empty and the store untouched |
| ActorStateManager.ActorStateManager.CollectChanges | dapr/actor/runtime/state_manager.py:250-262 | in whatever order the dictionary yields its entries, every dirty one is gathered once and no clean one, and all are marked unchanged |
| ActorStateManager.ActorStateManager.SaveState | dapr/actor/runtime/state_manager.py:244-271 | one transaction holding every dirty name once, or none when nothing is dirty; the removed names are forgotten only if it is accepted |
| ActorStateManager.ActorStateManager.Perform | dapr/actor/runtime/state_manager.py:67-271 | every call on the class, the raising forms included, is a step of the specification |
| MockStateManager.AlikeStep | dapr/actor/runtime/mock_state_manager.py:40-232 | from alike states the mock and the real manager give the same answer and stay alike: equal trackers, and dictionaries equal wherever nothing is tracked |
| MockStateManager.AlikeRun | dapr/actor/runtime/mock_state_manager.py:40-232 | so they agree over every sequence of calls that does not clear the cache |
| MockStateManager.SameFromTheStart | dapr/actor/runtime/mock_state_manager.py:31-38 | a mock started on the rows of a store is alike from the start, hence indistinguishable |
| MockStateManager.AlikeSave | dapr/actor/runtime/mock_state_manager.py:210-232 | a save keeps them alike though the mock writes nothing to its dictionary: the names it forgets are gone from both, and the others stay tracked |
| MockStateManager.ClearKeepsAlikeIff | dapr/actor/runtime/mock_state_manager.py:207-208 | clearing the cache keeps them alike exactly when the dictionaries are equal; as long as the mock's is what the actor sees, that is when every pending change is an update to the value already stored |
| MockStateManager.ClearTellsThemApart | dapr/actor/runtime/mock_state_manager.py:207-208 | add, clear, ask: the real manager has forgotten the name, the mock has not |
| MockStateManager.EagerIsViewIff | dapr/actor/runtime/mock_state_manager.py:44-58 | the mock's dictionary stays what the actor sees, exactly unless a name marked for removal is added |
| MockStateManager.MockStateManager.TryAddState | dapr/actor/runtime/mock_state_manager.py:44-58 | tracker, dictionary and answer are those of the specification of the mock |
| MockStateManager.MockStateManager.TryGetState | dapr/actor/runtime/mock_state_manager.py:67-79 | tracker, dictionary and answer are those of the specification; what is loaded is tracked as unchanged |
| MockStateManager.MockStateManager.SetStateTtl | dapr/actor/runtime/mock_state_manager.py:84-111 | tracker and dictionary are those of the specification: both hold the new value |
| MockStateManager.MockStateManager.TryRemoveState | dapr/actor/runtime/mock_state_manager.py:117-137 | tracker, dictionary and answer are those of the specification: the row is gone at once |
| MockStateManager.MockStateManager.GetOrAddState | dapr/actor/runtime/mock_state_manager.py:145-156 | tracker, dictionary and answer are those of the specification |
| MockStateManager.MockStateManager.AddOrUpdateState | dapr/actor/runtime/mock_state_manager.py:158-191 | tracker, dictionary and answer are those of the specification |
| MockStateManager.MockStateManager.SaveState | dapr/actor/runtime/mock_state_manager.py:210-232 | all entries become unchanged, removed names are forgotten, the dictionary is not written |
| ActorTurns.TurnIsTransaction | dapr/actor/runtime/manager.py:118-146 | a turn whose user code has no save raise commits, when it succeeds, what that code made of the actor's view; ending in an internal error it leaves what the store has and an empty tracker; ending in any other error of user code it keeps its uncommitted changes |
| ActorTurns.TurnIsRunThenEnd | dapr/actor/runtime/manager.py:129-146 | a turn is the calls made up to the first exception, followed by one way of ending |
| ActorTurns.CreationSettles | dapr/actor/runtime/manager.py:47-53 | an activation makes its hook's calls on plain maps of the rows alone: a hook that raises, or a save that has something to submit and raises, leaves no actor and the rows committed by then; else everything is committed and the actor is there |
| ActorTurns.ActiveDispatchSettles | dapr/actor/runtime/manager.py:118-146 | a dispatch to an active actor makes exactly the turn's calls up to the first exception, then commits, rolls back or leaves them pending by how it ended |
| ActorTurns.DispatchIsTwoTransactions | dapr/actor/runtime/manager.py:118-146 | from rows alone, an activation and a turn that return leave the rows that the hook's calls, a commit, the turn's calls and a commit make of the plain maps |
| ActorTurns.FailedActivationTakesNoTurn | dapr/actor/runtime/manager.py:124-127 | a failed activation makes no call of the turn |
| ActorTurns.ActivatedTakesTheTurn | dapr/actor/runtime/manager.py:124-138 | an absent actor is activated and then takes the turn on what that committed |
| ActorTurns.DeactivationSettles | dapr/actor/runtime/manager.py:55-60 | a deactivation makes its hook's calls on the rolled-back maps, saves nothing by itself and leaves no actor; without one it is an error |
| ActorTurns.EndTurnSettles | dapr/actor/runtime/actor.py:184-208 | the ways of ending that leave an honest tracker: commit, roll back, leave as it is |
| ActorTurns.InternalErrorRollsBack | dapr/actor/runtime/manager.py:139-141 | after an internal error, one raised by the save included, and from any state at all, the tracker is empty and the next turn sees the store |
| ActorTurns.RaisingSaveIsHonestIff | dapr/actor/runtime/manager.py:133-146 | a closing save that raises leaves the store as it was, or as the actor saw it if it was done all the same; the tracker is honest afterwards exactly when what it raises is an internal error, or nothing submitted differed from the store, or, of one that was done, nothing was removed |
| ActorTurns.UnreachableStoreLies | dapr/clients/http/client.py:86-102 | on either transport, a sidecar that cannot be reached at the closing save: the actor sees a value that no store has and no later save submits |
| ActorTurns.UnansweredRemovalLies | dapr/actor/runtime/state_manager.py:264-271 | a removal that was done but timed out: the name is gone from the store, and the actor is told it is there |
| ActorTurns.TurnStaysHonestIff | dapr/actor/runtime/manager.py:118-146 | a turn keeps the tracker honest unless a save in it raises and leaves it wrong and it does not end in an internal error; and exactly then, if user code caught none in between |
| ActorTurns.HistoryStaysHonest | dapr/actor/runtime/manager.py:47-146 | over either transport, every history of activations, turns and deactivations without such a turn keeps the tracker honest, whatever store calls fail, with whatever exception, done or not |
| ActorTurns.RunStaysHonest | dapr/actor/runtime/state_manager.py:72-271 | calls among which no save is refused, though any other may fail, refine the map from start to end |
| ActorTurns.RunStaysTrue | dapr/actor/runtime/state_manager.py:72-271 | calls among which no save raises and leaves the tracker wrong keep it honest |
| ActorTurns.LeavingSavingIsAttentive | dapr/actor/runtime/actor.py:184-208 | user code that leaves saving to the runtime, whose saves fail with error responses if at all, has no such turn |
| ActorManager.MakeCalls | dapr/actor/runtime/actor.py:177-191 | a hook's calls on the class stop at the first exception, as in the specification |
| ActorManager.SaveStateInternal | dapr/actor/runtime/actor.py:204-208 | the save that ends a hook, raising what the store call raises |
| ActorManager.RunTurnBody | dapr/actor/runtime/manager.py:133-138 | pre hook, method, post hook, save, in that order, on the class |
| ActorManager.TakeTurnOn | dapr/actor/runtime/manager.py:133-146 | the try and except around them: the class ends in the state of the specified turn |
| ActorManager.CreateActor | dapr/actor/runtime/manager.py:47-53 | an actor enters the dictionary only if its activation hook and the save after it succeed |
| ActorManager.ActorEntry.ActivateActor | dapr/actor/runtime/manager.py:47-53 | one id's entry is filled, or replaced, only when the activation hook and its save succeed; an actor that was there else stays |
| ActorManager.ActorEntry.DispatchInternal | dapr/actor/runtime/manager.py:118-146 | activates an absent actor, then takes the turn; a failed activation takes none |
| ActorManager.ActorEntry.DeactivateActor | dapr/actor/runtime/manager.py:55-60 | the actor is gone whatever its hook does |
| GrpcHostSafety.StepKeepsInv | dapr/actor/runtime/grpc_host.py:382-620 | every step of the loop, of stop, of a session and of a dispatch task keeps the invariant of streams and loop |
| GrpcHostSafety.ReachableInv | dapr/actor/runtime/grpc_host.py:115-172 | so every state of every interleaving has it |
| GrpcHostSafety.RepliesGoHome | dapr/actor/runtime/grpc_host.py:424-610 | on every stream the first message and no other is the registration, and each later one answers, for the only time, a callback read from that same stream, across reconnects, telling what came of it: a type that is not hosted exactly when it is not |
| GrpcHostSafety.ClosedStreamsAreStill | dapr/actor/runtime/grpc_host.py:87-112 | once a session is closed it stays closed and no write begins on it |
| GrpcHostSafety.OneWriterPerStream | dapr/actor/runtime/grpc_host.py:103-112 | two tasks never write to one stream at the same time |
| GrpcHostSafety.OneSendPerCallback | dapr/actor/runtime/grpc_host.py:470-610 | a callback gets at most one send, exactly one if it is replied to, and none if its variant is unknown |
| GrpcHostSafety.CallbacksAreConserved | dapr/actor/runtime/grpc_host.py:457-610 | the callbacks read are those in flight, replied to, ignored, cut short and broken down, none counted twice |
| GrpcHostSafety.FatesAddUp | dapr/actor/runtime/grpc_host.py:470-494 | every dispatch task has one of the five fates |
| GrpcHostSafety.ReopensExactly | dapr/actor/runtime/grpc_host.py:382-409 | within a run of the loop a next session opens only after an end it may reconnect from and a channel that came back; after such an end, unless stopping, the loop waits for the channel, goes on to a session when it comes back, and is over only when the wait timed out; and it is over otherwise only after another end |
| GrpcHostSafety.StoppedMeansIdle | dapr/actor/runtime/grpc_host.py:272-294 | when stop has returned, and no start() overtook it, there is no run task, no session, no unfinished dispatch task and no open stream |
| GrpcHostSafety.DrainedAreFinished | dapr/actor/runtime/grpc_host.py:612-620 | overtaken or not, a stop that has returned has finished every dispatch task there was when it began to drain |
| GrpcHostSafety.OvertakenStopLeavesTheLoop | dapr/actor/runtime/grpc_host.py:218-294 | a start() during the drain: stop returns with the new loop serving a stream and its registration cleared |
| GrpcHost.RepliesTell | dapr/actor/runtime/grpc_host.py:514-610 | an invocation is answered with a failure exactly when its method was not found, and else with a response whose error flag holds exactly when it raised; the other kinds are answered with their own response exactly when the handler returned; the code of a failure says of which class the exception was |
| GrpcHost.OneReplyTells | dapr/actor/runtime/_grpc_callbacks.py:208-222 | which leaves one reply for each callback and outcome |
| GrpcHostSafety.StartingDecides | dapr/actor/runtime/grpc_host.py:470-512 | an unknown kind is ignored, a hosted type reaches its handler, and any other is answered as not found without one |
| GrpcHostSafety.HandlersDecide | dapr/actor/runtime/grpc_host.py:514-610 | what a handler comes to is recorded, and the reply about to be sent tells it |
| GrpcHostSafety.SendingWrites | dapr/actor/runtime/grpc_host.py:103-109 | a reply is appended to the wire of its own stream unless that is closed, and then it is dropped |
| GrpcHostSafety.SentReleases | dapr/actor/runtime/grpc_host.py:103-112 | the lock is free after a write, and a failed one has closed the stream |
| GrpcHostSafety.RegistrationDecides | dapr/actor/runtime/grpc_host.py:382-436 | where the loop goes from the write of the registration: on to the ack, to a reconnection after a timeout or a transient error, to its end after any other, a cancelled call or a stop |
| GrpcHostSafety.AckDecides | dapr/actor/runtime/grpc_host.py:382-450 | where it goes from the first message: only an ack registers, and any other message ends the loop for good |
| GrpcHostSafety.ReadDecides | dapr/actor/runtime/grpc_host.py:382-468 | where it goes from a read: a callback gets one task of its own, and an end or error leaves the session |
| GrpcHostSafety.LateTasksAreCancelled | dapr/actor/runtime/grpc_host.py:612-620 | at the end of the drain exactly the tasks still waited for are cancelled, and gathered |
| ActorGrpcHost.ActorGrpcHost.Start | dapr/actor/runtime/grpc_host.py:218-256 | starts the loop unless it runs or no type is registered, even beside a stop() that is still draining |
| ActorGrpcHost.ActorGrpcHost.RunLoopTop | dapr/actor/runtime/grpc_host.py:382-409 | one pass of the loop's head is a step, keeping the invariant |
| ActorGrpcHost.ActorGrpcHost.RegistrationReturned | dapr/actor/runtime/grpc_host.py:424-447 | what follows the write of the registration is a step |
| ActorGrpcHost.ActorGrpcHost.AckReturned | dapr/actor/runtime/grpc_host.py:440-456 | what follows the wait for the ack, its timeout included, is a step |
| ActorGrpcHost.ActorGrpcHost.ReadReturned | dapr/actor/runtime/grpc_host.py:457-468 | what follows a read, a new dispatch task or the end of the session, is a step |
| ActorGrpcHost.ActorGrpcHost.ChannelWaitReturned | dapr/actor/runtime/grpc_host.py:408-422 | what follows the wait for the channel, its timeout included, is a step |
| ActorGrpcHost.ActorGrpcHost.SleepReturned | dapr/actor/runtime/grpc_host.py:408-409 | what follows the delay before a reconnection is a step |
| ActorGrpcHost.ActorGrpcHost.RunTaskCancelled | dapr/actor/runtime/grpc_host.py:272-290 | the cancellation of the run task, closing its session, is a step |
| ActorGrpcHost.ActorGrpcHost.OnRunTaskDone | dapr/actor/runtime/grpc_host.py:258-270 | a failure of the run task after registration is noticed, and leaves a host that can be started again |
| ActorGrpcHost.ActorGrpcHost.Stop | dapr/actor/runtime/grpc_host.py:272-283 | closing the session and cancelling the loop is a step |
| ActorGrpcHost.ActorGrpcHost.StopAfterRun | dapr/actor/runtime/grpc_host.py:283-294 | what follows the end of the loop is a step |
| ActorGrpcHost.ActorGrpcHost.DrainReturned | dapr/actor/runtime/grpc_host.py:612-620 | what follows the drain, cancelling what is late, is a step |
| ActorGrpcHost.ActorGrpcHost.GatherReturned | dapr/actor/runtime/grpc_host.py:612-620 | what follows the gathering of the cancelled tasks is a step |
| ActorGrpcHost.ActorGrpcHost.Dispatch | dapr/actor/runtime/grpc_host.py:470-494 | the choice of handler, an unregistered type included, is a step |
| ActorGrpcHost.ActorGrpcHost.HandlerReturned | dapr/actor/runtime/grpc_host.py:514-610 | each of the four handlers builds the reply of its own kind, an error payload or a failure, and that is a step |
| ActorGrpcHost.ActorGrpcHost.Send | dapr/actor/runtime/grpc_host.py:103-112 | taking the write lock and starting to write, unless closed, is a step |
| ActorGrpcHost.ActorGrpcHost.SendReturned | dapr/actor/runtime/grpc_host.py:103-112 | releasing it, and closing the session after a failed write, is a step |
| ActorGrpcHost.ActorGrpcHost.TaskIsCancelled | dapr/actor/runtime/grpc_host.py:612-620 | a cancelled task ends where it waits and lets go of the write lock |
| ToolTypes.CoerceIsSound | dapr/clients/grpc/_conversation_helpers.py:859-971 | what coercion returns inhabits the expected type at every depth, for every way Python may parse numbers and strings, if only None, or a dict, is given where the hint is a bare None; and without unions only then |
| ToolTypes.NoneFitsAlways | dapr/clients/grpc/_conversation_helpers.py:859-971 | a hint without bare Nones asks nothing of the value, so coercion to it is sound for every value |
| ToolTypes.UnionIsSound | dapr/clients/grpc/_conversation_helpers.py:866-883 | for a union, the type of one of its options |
| ToolTypes.BareNoneIsUnsound | dapr/clients/grpc/_conversation_helpers.py:784-806 | why bare None hints are set apart: anything but a dict passes, unchanged |
| ToolTypes.SchemaIsAccepted | dapr/clients/grpc/_conversation_helpers.py:54-200 | every value valid for the schema generated from a type is accepted for that type if its integers fit the floats they stand for, and without unions only then |
| ToolTypes.UnionAccepts | dapr/clients/grpc/_conversation_helpers.py:866-883 | a union accepts what any option does |
| ToolTypes.UnionSchemaIsAccepted | dapr/clients/grpc/_conversation_helpers.py:80-89 | a value valid for the schema of a union, with or without None, is accepted under the same condition |
| ToolTypes.HugeNumberIsRefused | dapr/clients/grpc/_conversation_helpers.py:798-800 | an integer that float() refuses is a valid number and is not accepted |
| ToolTypes.FirstMember | dapr/clients/grpc/_conversation_helpers.py:809-829 | an enum value is looked for by name and by value, the first member that matches winning |
| ToolTypes.FirstRead | dapr/clients/grpc/_conversation_helpers.py:832-851 | what a literal hint returns is equal to one of its literals |
| ToolBinding.FunctionSchemaAt | dapr/clients/grpc/_conversation_helpers.py:616-674 | each parameter has its own type's schema and is required exactly when it has no default |
| ToolBinding.FunctionSchemaNames | dapr/clients/grpc/_conversation_helpers.py:616-674 | and nothing else is described |
| ToolBinding.BindParamsToFunc | dapr/clients/grpc/_conversation_helpers.py:974-1034 | the binding with its errors: an unknown argument, a missing one, an invalid value |
| ToolBinding.CoerceBound | dapr/clients/grpc/_conversation_helpers.py:1017-1034 | the loop that overwrites each hinted argument with its coercion |
| ToolBinding.CoerceArgumentsAt | dapr/clients/grpc/_conversation_helpers.py:1017-1034 | it succeeds exactly when every hinted argument is accepted, and leaves the rest alone |
| ToolBinding.BindIsSound | dapr/clients/grpc/_conversation_helpers.py:974-1034 | bound arguments are exactly the parameters, each of its hinted type if only None is given for bare None hints |
| ToolBinding.MatchingArgumentsBindIff | dapr/clients/grpc/_conversation_helpers.py:974-1034 | arguments that match the function's schema, their integers fitting the floats they stand for, bind exactly when the defaults of the omitted ones fit their own hints |
| ToolBinding.DefaultMustFit | dapr/clients/grpc/_conversation_helpers.py:1015-1034 | a call that a function's schema allows, since it omits only a default, binds to the coerced default or is refused with it |
| ToolBinding.NoneDefaultNeedsOptional | dapr/clients/grpc/_conversation_helpers.py:1015-1034 | a None default for an int refuses the call that omits it; from Python 3.11 on, where get_type_hints leaves the hint as it is |
| ToolMeaning.CoerceKeeps | dapr/clients/grpc/_conversation_helpers.py:859-971 | a value that inhabits its hint is returned as it is, at every depth |
| ToolMeaning.UnionTakesTheFirst | dapr/clients/grpc/_conversation_helpers.py:866-883 | a union returns what its first accepting option does, and is refused exactly if none accepts |
| ToolMeaning.NumbersConvert | dapr/clients/grpc/_conversation_helpers.py:784-804 | a float is an int exactly when an integer equals it, and then it is that integer; strings are read without the spaces around them |
| ToolMeaning.OthersConvert | dapr/clients/grpc/_conversation_helpers.py:784-806 | the other scalars: a bool as a float is one or zero, None and lists are no numbers, and anything is shown for a string |
| ToolMeaning.BoolsConvert | dapr/clients/grpc/_conversation_helpers.py:770-781 | the five words for true and the five for false, in any case; no other string is a bool |
| ToolMeaning.EnumsConvert | dapr/clients/grpc/_conversation_helpers.py:809-829 | the first member of that value, else the first of that name, else the first of that name in any case; refused exactly without one |
| ToolMeaning.LiteralsConvert | dapr/clients/grpc/_conversation_helpers.py:832-851 | a literal in the list stays as it came; else a string is taken as the first of its readings that is in the list, and is refused exactly without one |
| ToolMeaning.ContainersConvert | dapr/clients/grpc/_conversation_helpers.py:890-913 | a list or dict is accepted exactly when all its items are, and each is converted in its own place |
| ToolMeaning.SchemaAdmits | dapr/clients/grpc/_conversation_helpers.py:54-200 | what a schema asks for, by the hint alone: the class of the value at every depth, one of the literals, a member's value, one option of a union, and of an optional hint its type, without the None |
| ToolMeaning.NumericEnumAdmitsNothing | dapr/clients/grpc/_conversation_helpers.py:174-183 | an enum of numbers has a schema for which nothing is valid, though coercion takes its values |
| ToolMeaning.BindSays | dapr/clients/grpc/_conversation_helpers.py:974-1034 | which error binding raises, in what order of precedence and for which parameter, exactly; and without one every parameter holds its argument or else its default, coerced if it has a hint |
| ToolMeaning.BindKeeps | dapr/clients/grpc/_conversation_helpers.py:974-1034 | arguments and defaults that inhabit their hints are all passed on unchanged |
| StateTransaction.TransactionReadsBack | dapr/actor/runtime/_state_provider.py:83-109 | the written transaction, read as JSON and turned into operations, is the change list in order: a deletion for a removal, the value when there is one, the ttl when it is not negative, the value's bytes the same again |
| StateTransaction.OperationSays | dapr/actor/runtime/_state_provider.py:86-104 | each operation's text is one JSON object with exactly the intended members |
| StateTransaction.KeyReadsBackIff | dapr/actor/runtime/_state_provider.py:90-94 | the string that a raw key opens reads as that key, up to its own quote, exactly when it needs no escape |
| TransactionKeys.TransactionReadsBackIff | dapr/actor/runtime/_state_provider.py:83-109 | the written transaction is read as the intended operations exactly when no key in it needs an escape, whatever members raw keys smuggle in and whatever the values hold |
| TransactionKeys.OperationNeeds | dapr/clients/grpc/dapr_actor_grpc_client.py:207-230 | an operation that reads as intended takes as much text as the change with its key escaped |
| StateTransaction.WriteTransaction | dapr/actor/runtime/_state_provider.py:83-109 | the loop over the buffer with its first-element flag writes one JSON array of the operations |
| StateTransaction.WriteOperation | dapr/actor/runtime/_state_provider.py:89-104 | one pass appends one operation |
| StateTransaction.OperationIsIntended | dapr/clients/grpc/dapr_actor_grpc_client.py:207-230 | the reader's operation for a written change has its kind, key, value bytes and ttl |
| SavedRows.SavedRowsAre | dapr/actor/runtime/_state_provider.py:83-109 | the whole way of a save, from tracker through text and reader to the rows: each name due holds, as printed, the value the actor sees and the ttl given with it, a removed name is gone, and no other row has changed, for operations performed by their literal types |
| SavedRows.PerformAllAt | dapr/actor/runtime/_state_provider.py:24-28 | performing a transaction does to each row what its one change asks: a delete for a removal, an upsert of value and ttl else |
| SavedRows.PerformsWhatIsApplied | dapr/actor/runtime/_state_provider.py:83-109 | performing the operations is applying the changes to the store, value for printed value |
| SavedRows.SaveIsPerformed | dapr/actor/runtime/state_manager.py:244-271 | so a table that held the store holds after a save what the actor sees |
| JsonPrinting.LoadsPrint | dapr/clients/grpc/dapr_actor_grpc_client.py:119-127 | plain json.loads of what was printed gives the value back, with or without ASCII escapes |
| JsonPrinting.PrintSays | dapr/serializers/json.py:36-55 | a printed value is one value exactly, wherever it stands in a larger text |
| JsonPrinting.EscapedIsRead | dapr/serializers/json.py:36-55 | every string survives escaping, surrogate pairs included |
| JsonPrinting.EscapedByLetter | dapr/serializers/json.py:51-55 | line feeds, quotes and backslashes are escaped as JSON has it |
| JsonPrinting.EscapedByCode | dapr/serializers/json.py:51-55 | other characters by their code, in a pair of surrogates beyond the basic plane, or not at all if ASCII is not asked for |
| JsonWeight.ValueWeight | dapr/serializers/json.py:57-68 | no text from which a value is read is lighter than the value when printed |
| Serializer.DecodedIsPlainIff | dapr/serializers/json.py:91-109 | the decoder returns the value as it was exactly when no string value at any depth reads as a date or a duration; keys of objects may |
| Serializer.SpanLikeIff | dapr/serializers/json.py:101-109 | a string is taken for a duration exactly when the grammar of durations gives it some group, and unless it is one of a date it becomes the sum of the groups |
| Serializer.DatesLookLike | dapr/serializers/json.py:91-104 | a date at the start of the string is enough, and one with single digits or further on is none |
| Serializer.DeserializeIff | dapr/serializers/json.py:36-68 | so what is serialised is deserialised to itself exactly then, state values and method arguments included |
| Serializer.SpanComesBack | dapr/serializers/json.py:71-109 | a timedelta comes back as itself, as a second more when its seconds round up, and as its text when it is negative |
| Serializer.TextReadAsDuration | dapr/serializers/json.py:101-109 | the text "10s" comes back as ten seconds |
| Serializer.LoadsEncoded | dapr/serializers/json.py:57-68 | the bytes of a JSON text load as the text does, never being taken for marked ones |
| Durations.ParseIsSound | dapr/serializers/util.py:25-60 | an accepted text is the fields' rendering, up to a final newline |
| Durations.ParseIsComplete | dapr/serializers/util.py:20-22 | every rendering of fields is accepted and gives those fields, "m" never taking the "m" of "ms" |
| Durations.AcceptedIffMatched | dapr/serializers/util.py:20-22 | so the grammar assigns fields to a text in at most one way, and the parser accepts exactly its texts |
| Durations.PrintedReadsBack | dapr/serializers/util.py:63-77 | what any printed duration reads as: itself, or a second more when the seconds round up, or an error when negative |
| Durations.DurationRoundTripIff | dapr/serializers/util.py:63-77 | a duration survives exactly when it is not negative and its seconds do not round up |
| Durations.OneOfEach | dapr/serializers/util.py:25-77 | an hour, two minutes, three seconds, four milliseconds and five microseconds, printed and read |
| Base64.DecodeEncode | dapr/actor/runtime/_reminder_data.py:100-131 | decoding undoes encoding, for all bytes |
| Base64.LettersAreBits | dapr/actor/runtime/_reminder_data.py:100-131 | three bytes are the four letters of their 24 bits, the most significant first |
| Base64.AlphabetIs | dapr/actor/runtime/_reminder_data.py:100-131 | over the standard alphabet |
| Base64.PublishedVectors | dapr/actor/runtime/_reminder_data.py:100-131 | "f", "fo" and "foobar" are written as section 10 of RFC 4648 gives them |
| Utf8.DecodeEncode | dapr/serializers/json.py:36-68 | and for all strings in UTF-8 |
| Utf8.PublishedVectors | dapr/serializers/json.py:36-68 | characters of one to four bytes, two of them from section 7 of RFC 3629 |
| ActorCallbacks.UnwrapRecovers | dapr/actor/runtime/_grpc_callbacks.py:169-192 | a payload the sidecar wrapped as the base64 of a JSON text is unwrapped to that text |
| ActorCallbacks.UnwrapLeavesIff | dapr/actor/runtime/_grpc_callbacks.py:169-192 | a value, with a byte-order mark or without, comes through unchanged exactly when it is not a JSON string of base64 of a JSON text |
| ActorCallbacks.TimerStateArrivesIff | dapr/actor/runtime/manager.py:88-95 | the state of a timer registered over gRPC is recovered into the body of its callback, and handed to the callback unchanged exactly when no string in it reads as a date or a duration |
| ActorCallbacks.TimerStateIsLost | dapr/actor/runtime/manager.py:88-95 | a timer whose state is the text "10s" calls back with ten seconds |
| ActorCallbacks.CallbackArrivesIff | dapr/actor/runtime/manager.py:88-95 | a timer calls the method it was registered with exactly when that name reads as neither a date nor a duration, so whenever it does not start with a digit |
| ActorCallbacks.HttpTimerStateArrivesIff | dapr/actor/runtime/_grpc_callbacks.py:119-192 | the state of one registered over HTTP is so handed on exactly when, besides, it does not itself look wrapped |
| ActorCallbacks.ReminderSurvivesIff | dapr/actor/runtime/_reminder_data.py:100-131 | a reminder survives its dictionary form exactly when it has no failure policy; its state always does |
| ActorCallbacks.FiredStateArrivesIff | dapr/serializers/json.py:91-109 | a reminder's state reaches the callback exactly when its base64 reads as neither a date nor a duration |
| ActorCallbacks.StateReadAsDuration | dapr/serializers/json.py:91-109 | three bytes that do not |
| CryptoStreams.RequestIterator.Next | dapr/clients/grpc/_request.py:364-380 | successive calls yield the remaining requests in order and stop when there are none |
| CryptoStreams.RequestsCover | dapr/clients/grpc/_request.py:336-427 | the requests are numbered from zero, all but the last carry exactly 2048 bytes, options go with the first, and together they are the data |
| CryptoStreams.OptionsAreSentIff | dapr/clients/grpc/_request.py:364-380 | the options are sent exactly when there is data |
| CryptoStreams.CryptoResponse.NextChunk | dapr/clients/grpc/_response.py:1039-1052 | a chunk is yielded if it bears the next number, else an error is raised |
| CryptoStreams.CryptoResponse.Read | dapr/clients/grpc/_response.py:1054-1087 | what a sized read returns, keeps and leaves |
| CryptoStreams.CryptoResponse.ReadToEnd | dapr/clients/grpc/_response.py:1069-1071 | an unsized read takes the rest of the stream and leaves the buffer |
| CryptoStreams.GatherTakes | dapr/clients/grpc/_response.py:1073-1087 | gathering neither loses nor repeats a byte, and stops short only at the end of the stream |
| CryptoStreams.DrainedIsConcat | dapr/clients/grpc/_response.py:1039-1052 | a stream drains exactly when it is numbered in sequence, to the join of its chunks |
| CryptoStreams.ReadNext | dapr/clients/grpc/_response.py:1054-1087 | on a numbered stream each read returns the next min(size, remaining) bytes |
| CryptoStreams.ReadMany | dapr/clients/grpc/_response.py:1054-1087 | and any sequence of sizes returns the pieces of what was unread |
| CryptoStreams.PiecesTile | dapr/clients/grpc/_response.py:1054-1087 | those pieces and the rest are the whole |
| CryptoStreams.ReadToEndIsAllIff | dapr/clients/grpc/_response.py:1069-1071 | an unsized read returns all that is unread exactly when nothing was buffered |
| Retry.RunRpc | dapr/clients/retry.py:73-95 | the calls end at the first outcome that is final or the last allowed, which is returned or raised, after exactly the backoffs between them; the raise after the loop cannot be reached |
| Retry.RunRpcAsync | dapr/clients/retry.py:97-123 | the same of the awaited loop, which hands back the call beside its result |
| Retry.MakeHttpCall | dapr/clients/retry.py:125-166 | the same of the HTTP loop and its last response, an exception of the request ending it at once |
| Retry.CallsEndIff | dapr/clients/retry.py:73-95 | there is such an end exactly when some outcome is final or the attempts are bounded |
| Retry.CallsAre | dapr/clients/retry.py:73-95 | the number of calls is the first final outcome's place or the attempts allowed, whichever is smaller, one when none is allowed |
| Retry.LoopsAgree | dapr/clients/retry.py:73-166 | over outcomes alike in what is retried the loops over calls and over requests make the same calls and waits |
| Retry.MoreAttempts | dapr/clients/retry.py:73-95 | allowing more attempts adds calls only after outcomes that were worth a retry |
| Retry.BackoffGrows | dapr/clients/retry.py:88-91 | waits never shrink, and lie between one second and the longest backoff |
| Retry.BackoffIs | dapr/clients/retry.py:88-91 | the first wait is the initial backoff, each next the one before times the multiplier, all cut to the longest |
| Retry.TotalWait | dapr/clients/retry.py:88-93 | so they add up to at most the longest backoff each time |
| Retry.MakePolicy | dapr/clients/retry.py:37-71 | a policy is constructed, with the fields it was given, exactly when they are in bounds |
| SessionKeys.KeysDiffer | dapr/ext/strands/dapr_session_manager.py:95-147 | in one session no two keys of different kinds or agents are the same, whatever the ids |
| SessionKeys.ColonsCollide | dapr/ext/strands/dapr_session_manager.py:108-147 | in two sessions they can be: an agent's key is another session's manifest key |
| SessionRepository.SessionsShareIff | dapr/ext/strands/dapr_session_manager.py:95-147 | two sessions can share a key exactly when the id of one goes on, behind the other and a colon, as an agents or messages key of it would |
| SessionRepository.ColonFreeIdsAreApart | dapr/ext/strands/dapr_session_manager.py:95-147 | ids without colons never do |
| SessionRepository.OpStaysInItsSession | dapr/ext/strands/dapr_session_manager.py:253-507 | no operation, however far it gets, touches a key that is not of its session |
| SessionSafety.OpKeepsManifestIff | dapr/ext/strands/dapr_session_manager.py:320-421 | whatever is stored for an agent is listed in its session's duplicate-free manifest; an operation keeps that exactly unless it creates an unlisted agent and is cut short, or adds a message to an unlisted one |
| SessionSafety.HistoryKeepsManifest | dapr/ext/strands/dapr_session_manager.py:253-507 | so every history of interrupted and uninterrupted operations, on sessions that can share no key, that avoids those keeps it |
| SessionSafety.DeletionIsExact | dapr/ext/strands/dapr_session_manager.py:295-318 | a deletion removes every key of its session and no other |
| SessionSafety.DeletionCanBeRepeated | dapr/ext/strands/dapr_session_manager.py:295-318 | a deletion that was cut short anywhere can be repeated, with the same final result |
| SessionSafety.NothingIsMalformed | dapr/ext/strands/dapr_session_manager.py:253-507 | while the manifest is complete no operation meets a document of the wrong kind |
| SessionMessages.ConversationIsKept | dapr/ext/strands/dapr_session_manager.py:390-507 | among sessions that can share no key, an agent's messages are what its own operations make of them, whatever else is created, updated, deleted or interrupted in between, until its session is deleted |
| SessionMessages.PagesTile | dapr/ext/strands/dapr_session_manager.py:509-547 | pages of any positive limit follow one another without gap or overlap and cover the list |
| SessionMessages.UpdateIsInPlace | dapr/ext/strands/dapr_session_manager.py:460-507 | an update changes the body of the first message with its id, keeps its creation time, and changes no other message |
| SessionMessages.UnlimitedPage | dapr/ext/strands/dapr_session_manager.py:509-547 | without a limit a page is all from the offset on, a negative one counting from the end |
| SessionRecords.AgentIsKept | dapr/ext/strands/dapr_session_manager.py:320-388 | among sessions that can share no key, an agent read back is the one last created or updated, with the creation time of its creation, whatever else is done or interrupted in between |
| SessionRecords.SessionIsKept | dapr/ext/strands/dapr_session_manager.py:253-293 | and a session is the first that was created |
| SessionRecords.ErrorsAre | dapr/ext/strands/dapr_session_manager.py:253-507 | with a working store and a complete manifest, exactly which operations are refused, and with which error |
| DaprSessionManager.DaprSessionManager.CreateSession | dapr/ext/strands/dapr_session_manager.py:253-275 | an existing session is an error; store and result are those specified, for a store that fails after any number of calls |
| DaprSessionManager.DaprSessionManager.ReadSession | dapr/ext/strands/dapr_session_manager.py:277-293 | the session stored, if any |
| DaprSessionManager.DaprSessionManager.DeleteSession | dapr/ext/strands/dapr_session_manager.py:295-318 | store and result are those specified, wherever in the loop over the manifest the store fails |
| DaprSessionManager.DaprSessionManager.CreateAgent | dapr/ext/strands/dapr_session_manager.py:320-344 | the agent, its empty messages and the manifest are written in that order, up to where the store fails |
| DaprSessionManager.DaprSessionManager.ReadAgent | dapr/ext/strands/dapr_session_manager.py:346-365 | the agent stored, if any |
| DaprSessionManager.DaprSessionManager.UpdateAgent | dapr/ext/strands/dapr_session_manager.py:367-388 | an unknown agent is an error; else it is replaced, its creation time kept |
| DaprSessionManager.DaprSessionManager.CreateMessage | dapr/ext/strands/dapr_session_manager.py:390-421 | the message is appended to those stored, unless one of the two calls fails |
| DaprSessionManager.DaprSessionManager.ReadMessage | dapr/ext/strands/dapr_session_manager.py:423-458 | the first message of that id, if any |
| DaprSessionManager.DaprSessionManager.UpdateMessage | dapr/ext/strands/dapr_session_manager.py:460-507 | the first message of its id is replaced, its creation time kept; an error when there is none |
| DaprSessionManager.DaprSessionManager.ListMessages | dapr/ext/strands/dapr_session_manager.py:509-547 | the slice of the stored messages |
| TopicRules.SortIsStable | dapr/ext/grpc/_servicer.py:176-178 | the sort of the rules is ascending in priority and keeps the order of registration within one |
| TopicRules.StableSortIsUnique | dapr/ext/grpc/_servicer.py:176-178 | which leaves only one list |
| TopicRules.SortAgain | dapr/ext/grpc/_servicer.py:176-178 | sorting again at every registration is sorting them all once |
| TopicRouter.AddHolds | dapr/ext/grpc/_servicer.py:136-182 | an accepted registration takes the handler maps and the subscriptions to what the longer list of registrations says |
| CallbackServicer.CallbackServicer.RegisterTopic | dapr/ext/grpc/_servicer.py:118-182 | refused exactly when the pubsub, topic and path are taken, and then nothing changes |
| CallbackServicer.CallbackServicer.GetTopicCallback | dapr/ext/grpc/_servicer.py:91-110 | the handler found, with its four ways of falling back, from the list of registrations alone |
| CallbackServicer.FirstRegisteredAnswers | dapr/ext/grpc/_servicer.py:91-149 | for names without colons an event finds the handler first registered for its pubsub, topic and path, whatever is registered after it |
| CallbackServicer.RouteAnswers | dapr/ext/grpc/_servicer.py:91-101 | an event without a handler of its own goes to the last one registered on its path: a topic without a rule, the handler's name or the match with one |
| CallbackServicer.TopicAnswers | dapr/ext/grpc/_servicer.py:99-101 | without a path, failing that, to the last one on its topic |
| CallbackServicer.UnvalidatedAnswers | dapr/ext/grpc/_servicer.py:103-110 | and failing that to the one handler of the pubsub that asked for no validation, and with a path to none |
| CallbackServicer.SubscriptionsAreDistinct | dapr/ext/grpc/_servicer.py:155-174 | no pubsub and topic is advertised twice |
| CallbackServicer.SubscriptionsAreExact | dapr/ext/grpc/_servicer.py:155-182 | a pubsub and topic is advertised exactly when registered, with the metadata, dead letter topic and default route of its first registration, and with all its rules stably sorted |
| CallbackServicer.RulesAreRegistered | dapr/ext/grpc/_servicer.py:176-182 | the rules of a pubsub and topic are exactly those of its registrations, each with its priority, its match and its path |

## Left out

- Network, channels, protobuf packing, TLS, interceptors, logging and health polling: the store, the stream, the clock and each call's outcome are parameters or scripts.
- asyncio itself: a step is what happens between two awaits. A `stop()` awaited from inside a dispatch task, and the internal parts of cancellation, are not modelled.
- ActorGrpcHost.ActorGrpcHost.Stop: one call of `stop()` at a time, because two that await the same run task each clear the handle when they resume, and a `start()` in between would run on without one.
- Reentrant turns and their own tracker (dapr/actor/runtime/state_manager.py:280-292), which let the default tracker's clean entries go stale.
- The dictionary of all active actors: `ActorManager.ActorEntry` is one id's entry in it; ids do not interact. Its turns are sequential, and the activation check, which is not atomic, is not claimed to be.
- User code inside a turn is a finite list of calls with an optional exception; since every theorem is for all lists, code that adapts to the replies is covered call by call.
- StateRefinement.RunRefines: asks that the saves among the calls be accepted, because a refused one drops its changes; `StateRefinement.FailedSaveIsHonestIff` says when that shows, and the turns of `ActorTurns` cover refusals.
- MockStateManager.AlikeRun: asks that the cache is not cleared, because the mock's dictionary does not roll back (`MockStateManager.ClearKeepsAlikeIff`).
- None as a state value, mutation of a cached value by user code, and expiry of a ttl in the store.
- The state managers hold state values as they are; `Serializer.DeserializeIff` says which of them come back from the store as they went.
- `get_state_names`, and the timer and reminder bookkeeping of the mock actor. The mock's entries are values: nothing in it shares one.
- Python's `int()`, `float()` and `str()` on values are parameters of the coercion, so nothing is claimed of which texts they accept.
- Hints of bytes, dataclasses, plain classes, Any, bare list and dict, enum members inside Literal, enums with aliases or mixins, and `X | Y` unions; `*args`, `**kwargs` and positional-only parameters; docstrings.
- ToolTypes.CoerceIsSound: with unions the condition is only sufficient, since a value let through for one option can inhabit another.
- ToolTypes.SchemaIsAccepted: asks that enums be within the size limit, beyond which the schema does not list their members; with unions a value can also be accepted for another option, so the condition is only sufficient there.
- NaN and the infinities in JSON, lone surrogates, and the value of a float, which is held by its text.
- ActorCallbacks.UnwrapLeavesIff: does not model texts in UTF-16 or UTF-32 and those with NaN or an infinity, which `json.loads` also takes.
- `json.dumps` puts spaces behind its separators where the timer body is printed, and the decoder skips them: the body here is the value itself.
- Base64 texts with characters outside the alphabet, which Python discards, and with trailing text after the padding.
- StateTransaction.TransactionReadsBack: asks that keys need no escape, because no others are read back (`TransactionKeys.TransactionReadsBackIff`); values are JSON with distinct keys.
- Durations.PrintedReadsBack: arithmetic is exact; the limits of `timedelta` and digits outside ASCII are not modelled.
- Dates are recognised by form, as the decoder does; their fields are not read, so a date that the date parser refuses, which raises, is a moment here.
- CryptoStreams.ReadMany: sizes are not negative; an unsized read after sized ones is described by `CryptoStreams.ReadToEndIsAllIff`.
- Retry.RunRpc: waits are exact reals, while the power of a float overflows after some 1700 retries of an endless policy; an endless policy is given a script with a final outcome in it.
- The session repository's check of ids for path separators, metadata and consistency options of the store, and texts in the store that are not JSON.
- CallbackServicer.FirstRegisteredAnswers: asks that pubsub and topic hold no colon, since the keys are joined by colons. That the advertised subscription is one object shared by two collections is modelled by a position in the list; `register_method`, bindings, jobs and bulk events would add easy members only.
- `GrpcEndpoint`, the Flask, FastAPI and App wrappers, the workflow wrappers and the LangGraph checkpointer.
