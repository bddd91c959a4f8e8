/** The stored session and the stored agents after any history. */
module SessionRecords {
  import opened Wrappers
  import opened SessionKeys
  import opened SessionRepository
  import opened SessionSafety
  import opened SessionMessages

  // What one step does to the record of an agent, and to that of a session ----

  /** Creating an agent writes it over; updating one keeps when it was created, and makes none. */
  function AgentTold(was: Option<Doc>, step: (Op, nat), sid: string, aid: string): Option<Doc> {
    match step.0
    case CreateAgent(s, a) => if s == sid && a.id == aid && 1 <= step.1 then Some(AgentDoc(a)) else was
    case UpdateAgent(s, a) =>
      if s == sid && a.id == aid && 2 <= step.1 && was.Some? && was.value.AgentDoc?
      then Some(AgentDoc(Agent(aid, was.value.agent.createdAt, a.body))) else was
    case CreateSession(_) => was
    case DeleteSession(_) => was
    case CreateMessage(_, _, _) => was
    case UpdateMessage(_, _, _) => was
  }

  /** Creating a session makes it, once. */
  function SessionTold(was: Option<Doc>, step: (Op, nat), sid: string): Option<Doc> {
    if step.0.CreateSession? && step.0.session.id == sid && 2 <= step.1 && was.None? then Some(SessionDoc(step.0.session)) else was
  }

  function AgentAllTold(was: Option<Doc>, steps: seq<(Op, nat)>, sid: string, aid: string): Option<Doc>
    decreases |steps|
  {
    if steps == [] then was else AgentAllTold(AgentTold(was, steps[0], sid, aid), steps[1..], sid, aid)
  }

  function SessionAllTold(was: Option<Doc>, steps: seq<(Op, nat)>, sid: string): Option<Doc>
    decreases |steps|
  {
    if steps == [] then was else SessionAllTold(SessionTold(was, steps[0], sid), steps[1..], sid)
  }

  lemma CreationWrites(docs: Docs, sid: string, a: Agent, healthy: nat)
    ensures Read(After(docs, CreateAgent(sid, a), healthy), AgentKey(sid, a.id))
         == if 1 <= healthy then Some(AgentDoc(a)) else Read(docs, AgentKey(sid, a.id))
  {
    hide AgentKey, MessagesKey, ManifestKey, SessionKey, Effect;
    KeysDiffer(sid, a.id, a.id);
    var calls := PlanCreateAgent(docs, sid, a).calls;
    EffectStart(docs, calls);
    EffectStep(docs, calls, 0);
    EffectStep(docs, calls, 1);
    EffectStep(docs, calls, 2);
    if |calls| == 4 { EffectStep(docs, calls, 3); }
  }

  lemma OwnStepTellsAgent(docs: Docs, op: Op, healthy: nat, aid: string)
    requires !op.DeleteSession?
    ensures var key := AgentKey(SessionOf(op), aid);
      Read(After(docs, op, healthy), key) == AgentTold(Read(docs, key), (op, healthy), SessionOf(op), aid)
  {
    hide AgentKey, MessagesKey, ManifestKey, SessionKey, After;
    var sid, who := SessionOf(op), AgentOf(op);
    KeysDiffer(sid, who, aid);
    KeysDiffer(sid, aid, who);
    if op.CreateAgent? {
      if who == aid { CreationWrites(docs, sid, op.agent, healthy); }
      else { CreationLeaves(docs, sid, op.agent, healthy, AgentKey(sid, aid)); }
    } else {
      SingleWrite(docs, op, healthy);
    }
  }

  lemma OwnStepTellsSession(docs: Docs, op: Op, healthy: nat)
    requires !op.DeleteSession?
    ensures var key := SessionKey(SessionOf(op));
      Read(After(docs, op, healthy), key) == SessionTold(Read(docs, key), (op, healthy), SessionOf(op))
  {
    hide AgentKey, MessagesKey, ManifestKey, SessionKey, After;
    var sid, who := SessionOf(op), AgentOf(op);
    KeysDiffer(sid, who, who);
    if op.CreateAgent? {
      CreationLeaves(docs, sid, op.agent, healthy, SessionKey(sid));
    } else {
      SingleWrite(docs, op, healthy);
    }
  }

  lemma OtherSessionsLeave(docs: Docs, op: Op, healthy: nat, sid: string, key: string)
    requires SessionOf(op) != sid && !Nested(sid, SessionOf(op)) && !Nested(SessionOf(op), sid) && OfSession(key, sid)
    ensures Read(After(docs, op, healthy), key) == Read(docs, key)
  {
    hide AgentKey, MessagesKey, ManifestKey, SessionKey, After;
    SessionsAreApart(key, sid, SessionOf(op));
    OpStaysInItsSession(docs, op, healthy, key);
  }

  /** Whatever else happens, an agent's record is what its own creations and updates make of it, until its
      session is deleted. */
  lemma {:induction false} AgentIsKept(docs: Docs, ids: iset<string>, steps: seq<(Op, nat)>, sid: string, aid: string)
    requires Apart(ids) && sid in ids
    requires forall i :: 0 <= i < |steps| ==> SessionOf(steps[i].0) in ids && steps[i].0 != DeleteSession(sid)
    ensures Read(History(docs, steps), AgentKey(sid, aid)) == AgentAllTold(Read(docs, AgentKey(sid, aid)), steps, sid, aid)
    decreases |steps|
  {
    if steps != [] {
      var (op, healthy) := steps[0];
      if SessionOf(op) == sid {
        OwnStepTellsAgent(docs, op, healthy, aid);
      } else {
        assert OfAgent(AgentKey(sid, aid), sid, aid);
        OtherSessionsLeave(docs, op, healthy, sid, AgentKey(sid, aid));
      }
      AgentIsKept(After(docs, op, healthy), ids, steps[1..], sid, aid);
    }
  }

  /** And a session's record is the first that was created, until it is deleted. */
  lemma {:induction false} SessionIsKept(docs: Docs, ids: iset<string>, steps: seq<(Op, nat)>, sid: string)
    requires Apart(ids) && sid in ids
    requires forall i :: 0 <= i < |steps| ==> SessionOf(steps[i].0) in ids && steps[i].0 != DeleteSession(sid)
    ensures Read(History(docs, steps), SessionKey(sid)) == SessionAllTold(Read(docs, SessionKey(sid)), steps, sid)
    decreases |steps|
  {
    if steps != [] {
      var (op, healthy) := steps[0];
      if SessionOf(op) == sid {
        OwnStepTellsSession(docs, op, healthy);
      } else {
        OtherSessionsLeave(docs, op, healthy, sid, SessionKey(sid));
      }
      SessionIsKept(After(docs, op, healthy), ids, steps[1..], sid);
    }
  }

  // Errors ---------------------------------------------------------------------

  /** On a store that works, and while the manifest is complete: creating a session fails exactly if it is
      there, and updating an agent or a message exactly if it is not; nothing else fails. */
  lemma ErrorsAre(docs: Docs, ids: iset<string>, op: Op, healthy: nat)
    requires Complete(docs, ids) && SessionOf(op) in ids && |PlanOf(docs, op).calls| <= healthy
    ensures Verdict(docs, op, healthy) ==
      match op
      case CreateSession(s) => if SessionKey(s.id) in docs then Err(AlreadyExists) else Ok(())
      case UpdateAgent(sid, a) => if AgentKey(sid, a.id) in docs then Ok(()) else Err(DoesNotExist)
      case UpdateMessage(sid, aid, m) =>
        if exists i :: 0 <= i < |Messages(docs, sid, aid)| && Messages(docs, sid, aid)[i].id == m.id then Ok(()) else Err(DoesNotExist)
      case DeleteSession(_) => Ok(())
      case CreateAgent(_, _) => Ok(())
      case CreateMessage(_, _, _) => Ok(())
  {
    hide AgentKey, MessagesKey, ManifestKey, SessionKey;
    assert Listed(docs, SessionOf(op), AgentOf(op));
  }
}
