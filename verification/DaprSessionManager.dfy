/** The session manager: read-modify-write over a key-value store that may go away. */
module DaprSessionManager {
  import opened Wrappers
  import opened SessionKeys
  import opened SessionRepository
  import opened SessionSafety
  import opened SessionMessages

  /** The state store; it answers `healthy` more calls and fails after that. */
  class StateStore {
    var docs: Docs
    var healthy: nat

    constructor (docs: Docs, healthy: nat)
      ensures this.docs == docs && this.healthy == healthy
    {
      this.docs, this.healthy := docs, healthy;
    }

    method ReadState(key: string) returns (r: Result<Option<Doc>, Error>)
      modifies this`healthy
      ensures old(healthy) == 0 ==> r == Err(StoreFailed) && healthy == 0
      ensures old(healthy) > 0 ==> r == Ok(Read(docs, key)) && healthy == old(healthy) - 1
    {
      if healthy == 0 { return Err(StoreFailed); }
      healthy := healthy - 1;
      r := Ok(Read(docs, key));
    }

    method WriteState(key: string, doc: Doc) returns (r: Result<(), Error>)
      modifies this
      ensures old(healthy) == 0 ==> r == Err(StoreFailed) && healthy == 0 && docs == old(docs)
      ensures old(healthy) > 0 ==> r == Ok(()) && healthy == old(healthy) - 1 && docs == old(docs)[key := doc]
    {
      if healthy == 0 { return Err(StoreFailed); }
      healthy := healthy - 1;
      docs := docs[key := doc];
      r := Ok(());
    }

    method DeleteState(key: string) returns (r: Result<(), Error>)
      modifies this
      ensures old(healthy) == 0 ==> r == Err(StoreFailed) && healthy == 0 && docs == old(docs)
      ensures old(healthy) > 0 ==> r == Ok(()) && healthy == old(healthy) - 1 && docs == old(docs) - {key}
    {
      if healthy == 0 { return Err(StoreFailed); }
      healthy := healthy - 1;
      docs := docs - {key};
      r := Ok(());
    }
  }

  class DaprSessionManager {
    const store: StateStore

    constructor (store: StateStore)
      ensures this.store == store
    {
      this.store := store;
    }

    method ReadSession(sid: string) returns (r: Result<Option<Session>, Error>)
      modifies store`healthy
      ensures store.healthy == if old(store.healthy) == 0 then 0 else old(store.healthy) - 1
      ensures old(store.healthy) == 0 ==> r == Err(StoreFailed)
      ensures old(store.healthy) > 0 ==>
        r == match Read(store.docs, SessionKey(sid))
             case None => Ok(None)
             case Some(SessionDoc(s)) => Ok(Some(s))
             case Some(_) => Err(Malformed)
    {
      var read := store.ReadState(SessionKey(sid));
      if read.Err? { return Err(read.error); }
      if read.value.None? { return Ok(None); }
      if !read.value.value.SessionDoc? { return Err(Malformed); }
      r := Ok(Some(read.value.value.session));
    }

    method CreateSession(s: Session) returns (r: Result<(), Error>)
      modifies store
      ensures store.docs == After(old(store.docs), Op.CreateSession(s), old(store.healthy))
      ensures r == Verdict(old(store.docs), Op.CreateSession(s), old(store.healthy))
    {
      ghost var docs, healthy, op := store.docs, store.healthy, Op.CreateSession(s);
      SingleWrite(docs, op, healthy);
      var existing := ReadSession(s.id);
      if existing.Err? { return Err(existing.error); }
      if existing.value.Some? { return Err(AlreadyExists); }
      r := store.WriteState(SessionKey(s.id), SessionDoc(s));
    }

    method DeleteSession(sid: string) returns (r: Result<(), Error>)
      modifies store
      ensures store.docs == After(old(store.docs), Op.DeleteSession(sid), old(store.healthy))
      ensures r == Verdict(old(store.docs), Op.DeleteSession(sid), old(store.healthy))
    {
      hide AgentKey, MessagesKey, ManifestKey, SessionKey, Sweep, DeleteCalls, Effect, After, Verdict;
      ghost var docs, healthy := store.docs, store.healthy;
      ghost var agents := Manifest(docs, sid);
      ghost var calls := DeleteCalls(sid, agents);
      DeleteEnds(sid, agents);
      DeleteReaches(docs, sid, healthy);
      EffectStart(docs, calls);
      var read := store.ReadState(ManifestKey(sid));
      if read.Err? { return Err(read.error); }
      EffectStep(docs, calls, 0);
      var ids := AgentsIn(read.value);
      for i := 0 to |ids|
        invariant ids == agents && 1 + 2 * i <= healthy
        invariant store.healthy == healthy - (1 + 2 * i)
        invariant store.docs == Effect(docs, calls[..1 + 2 * i])
      {
        SweepAt(sid, agents, i);
        EffectStep(docs, calls, 1 + 2 * i);
        EffectStep(docs, calls, 2 + 2 * i);
        r := store.DeleteState(AgentKey(sid, ids[i]));
        if r.Err? { return; }
        r := store.DeleteState(MessagesKey(sid, ids[i]));
        if r.Err? { return; }
      }
      var n := 1 + 2 * |ids|;
      EffectStep(docs, calls, n);
      EffectStep(docs, calls, n + 1);
      r := store.DeleteState(ManifestKey(sid));
      if r.Err? { return; }
      r := store.DeleteState(SessionKey(sid));
    }

    method CreateAgent(sid: string, a: Agent) returns (r: Result<(), Error>)
      modifies store
      ensures store.docs == After(old(store.docs), Op.CreateAgent(sid, a), old(store.healthy))
      ensures r == Verdict(old(store.docs), Op.CreateAgent(sid, a), old(store.healthy))
    {
      hide AgentKey, MessagesKey, ManifestKey, Effect;
      ghost var docs := store.docs;
      ghost var calls := PlanCreateAgent(docs, sid, a).calls;
      EffectStart(docs, calls);
      EffectStep(docs, calls, 0);
      EffectStep(docs, calls, 1);
      EffectStep(docs, calls, 2);
      if |calls| == 4 { EffectStep(docs, calls, 3); }
      ManifestIsApart(sid, a.id);
      r := store.WriteState(AgentKey(sid, a.id), AgentDoc(a));
      if r.Err? { return; }
      r := store.WriteState(MessagesKey(sid, a.id), MessagesDoc([]));
      if r.Err? { return; }
      var read := store.ReadState(ManifestKey(sid));
      if read.Err? { return Err(read.error); }
      var agents := [];
      if read.value.Some? {
        if !read.value.value.ManifestDoc? { return Err(Malformed); }
        agents := read.value.value.agents;
      }
      if a.id !in agents { agents := agents + [a.id]; }
      r := store.WriteState(ManifestKey(sid), ManifestDoc(agents));
    }

    method ReadAgent(sid: string, aid: string) returns (r: Result<Option<Agent>, Error>)
      modifies store`healthy
      ensures store.healthy == if old(store.healthy) == 0 then 0 else old(store.healthy) - 1
      ensures old(store.healthy) == 0 ==> r == Err(StoreFailed)
      ensures old(store.healthy) > 0 ==>
        r == match Read(store.docs, AgentKey(sid, aid))
             case None => Ok(None)
             case Some(AgentDoc(a)) => Ok(Some(a))
             case Some(_) => Err(Malformed)
    {
      var read := store.ReadState(AgentKey(sid, aid));
      if read.Err? { return Err(read.error); }
      if read.value.None? { return Ok(None); }
      if !read.value.value.AgentDoc? { return Err(Malformed); }
      r := Ok(Some(read.value.value.agent));
    }

    method UpdateAgent(sid: string, a: Agent) returns (r: Result<(), Error>)
      modifies store
      ensures store.docs == After(old(store.docs), Op.UpdateAgent(sid, a), old(store.healthy))
      ensures r == Verdict(old(store.docs), Op.UpdateAgent(sid, a), old(store.healthy))
    {
      SingleWrite(store.docs, Op.UpdateAgent(sid, a), store.healthy);
      var previous := ReadAgent(sid, a.id);
      if previous.Err? { return Err(previous.error); }
      if previous.value.None? { return Err(DoesNotExist); }
      var kept := a.(createdAt := previous.value.value.createdAt);
      r := store.WriteState(AgentKey(sid, a.id), AgentDoc(kept));
    }

    method CreateMessage(sid: string, aid: string, m: Message) returns (r: Result<(), Error>)
      modifies store
      ensures store.docs == After(old(store.docs), Op.CreateMessage(sid, aid, m), old(store.healthy))
      ensures r == Verdict(old(store.docs), Op.CreateMessage(sid, aid, m), old(store.healthy))
    {
      SingleWrite(store.docs, Op.CreateMessage(sid, aid, m), store.healthy);
      var read := store.ReadState(MessagesKey(sid, aid));
      if read.Err? { return Err(read.error); }
      var messages := MessagesIn(read.value) + [m];
      r := store.WriteState(MessagesKey(sid, aid), MessagesDoc(messages));
    }

    /** The first place of a message number, or the length of the list. */
    method FirstOf(messages: seq<Message>, id: int) returns (i: nat)
      ensures i == Find(messages, id)
    {
      i := 0;
      while i < |messages| && messages[i].id != id
        invariant i <= |messages|
        invariant Find(messages, id) == i + Find(messages[i..], id)
      {
        i := i + 1;
      }
    }

    method ReadMessage(sid: string, aid: string, id: int) returns (r: Result<Option<Message>, Error>)
      modifies store`healthy
      ensures store.healthy == if old(store.healthy) == 0 then 0 else old(store.healthy) - 1
      ensures old(store.healthy) == 0 ==> r == Err(StoreFailed)
      ensures old(store.healthy) > 0 ==>
        var messages := Messages(store.docs, sid, aid);
        var i := Find(messages, id);
        r == Ok(if i == |messages| then None else Some(messages[i]))
    {
      var read := store.ReadState(MessagesKey(sid, aid));
      if read.Err? { return Err(read.error); }
      var messages := MessagesIn(read.value);
      var i := FirstOf(messages, id);
      r := Ok(if i == |messages| then None else Some(messages[i]));
    }

    method UpdateMessage(sid: string, aid: string, m: Message) returns (r: Result<(), Error>)
      modifies store
      ensures store.docs == After(old(store.docs), Op.UpdateMessage(sid, aid, m), old(store.healthy))
      ensures r == Verdict(old(store.docs), Op.UpdateMessage(sid, aid, m), old(store.healthy))
    {
      SingleWrite(store.docs, Op.UpdateMessage(sid, aid, m), store.healthy);
      var previous := ReadMessage(sid, aid, m.id);
      if previous.Err? { return Err(previous.error); }
      if previous.value.None? { return Err(DoesNotExist); }
      var kept := m.(createdAt := previous.value.value.createdAt);
      var read := store.ReadState(MessagesKey(sid, aid));
      if read.Err? { return Err(read.error); }
      var messages := MessagesIn(read.value);
      var i := FirstOf(messages, m.id);
      messages := messages[i := kept];
      r := store.WriteState(MessagesKey(sid, aid), MessagesDoc(messages));
    }

    method ListMessages(sid: string, aid: string, limit: Option<int>, offset: int) returns (r: Result<seq<Message>, Error>)
      modifies store`healthy
      ensures store.healthy == if old(store.healthy) == 0 then 0 else old(store.healthy) - 1
      ensures old(store.healthy) == 0 ==> r == Err(StoreFailed)
      ensures old(store.healthy) > 0 ==> r == Ok(Page(Messages(store.docs, sid, aid), limit, offset))
    {
      var read := store.ReadState(MessagesKey(sid, aid));
      if read.Err? { return Err(read.error); }
      r := Ok(Page(MessagesIn(read.value), limit, offset));
    }
  }

  lemma SweepAt(sid: string, agents: seq<string>, i: nat)
    requires i < |agents|
    ensures var calls := DeleteCalls(sid, agents);
      |calls| == 3 + 2 * |agents|
      && calls[1 + 2 * i] == Delete(AgentKey(sid, agents[i])) && calls[2 + 2 * i] == Delete(MessagesKey(sid, agents[i]))
  {
  }

  lemma DeleteEnds(sid: string, agents: seq<string>)
    ensures var calls, n := DeleteCalls(sid, agents), 1 + 2 * |agents|;
      |calls| == n + 2
      && calls[0] == Get(ManifestKey(sid))
      && calls[n] == Delete(ManifestKey(sid)) && calls[n + 1] == Delete(SessionKey(sid)) && calls[..n + 2] == calls
  {
  }

  lemma DeleteReaches(docs: Docs, sid: string, healthy: nat)
    ensures var op, calls := Op.DeleteSession(sid), DeleteCalls(sid, Manifest(docs, sid));
      && After(docs, op, healthy) == Effect(docs, calls[..Min(healthy, |calls|)])
      && Verdict(docs, op, healthy) == if healthy < |calls| then Err(StoreFailed) else Ok(())
  {
  }

  lemma ManifestIsApart(sid: string, aid: string)
    ensures ManifestKey(sid) != AgentKey(sid, aid) && ManifestKey(sid) != MessagesKey(sid, aid)
  {
    var n := |sid| + 1;
    assert ManifestKey(sid)[n..] == "manifest";
    assert AgentKey(sid, aid)[n..] == "agents:" + aid && MessagesKey(sid, aid)[n..] == "messages:" + aid;
    TailsDiffer(aid, aid);
  }
}
