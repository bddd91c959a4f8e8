/**
  The documents a session manager keeps in a state store. An operation is the
  list of store calls it makes; a store that goes away lets a prefix of them
  through, so that every operation can stop half way.
*/
module SessionRepository {
  import opened Wrappers
  import opened Names
  import opened SessionKeys

  datatype Session = Session(id: string, createdAt: int, body: string)
  datatype Agent = Agent(id: string, createdAt: int, body: string)
  datatype Message = Message(id: int, createdAt: int, body: string)

  datatype Doc =
    | SessionDoc(session: Session)
    | AgentDoc(agent: Agent)
    | MessagesDoc(messages: seq<Message>)
    | ManifestDoc(agents: seq<string>)

  type Docs = map<string, Doc>

  datatype Call = Get(key: string) | Put(key: string, doc: Doc) | Delete(key: string)

  /** A malformed document is one of another kind, found where ids hold colons. */
  datatype Error = StoreFailed | AlreadyExists | DoesNotExist | Malformed

  datatype Op =
    | CreateSession(session: Session)
    | DeleteSession(sid: string)
    | CreateAgent(sid: string, agent: Agent)
    | UpdateAgent(sid: string, agent: Agent)
    | CreateMessage(sid: string, aid: string, message: Message)
    | UpdateMessage(sid: string, aid: string, message: Message)

  function SessionOf(op: Op): string { if op.CreateSession? then op.session.id else op.sid }

  // What the store holds -----------------------------------------------------

  function DoCall(docs: Docs, call: Call): Docs {
    match call
    case Get(_) => docs
    case Put(key, doc) => docs[key := doc]
    case Delete(key) => docs - {key}
  }

  function Effect(docs: Docs, calls: seq<Call>): Docs {
    if calls == [] then docs else DoCall(Effect(docs, calls[..|calls| - 1]), calls[|calls| - 1])
  }

  function Read(docs: Docs, key: string): Option<Doc> { if key in docs then Some(docs[key]) else None }

  /** A document of another kind has no "agents" and no "messages". */
  function AgentsIn(doc: Option<Doc>): seq<string> {
    if doc.Some? && doc.value.ManifestDoc? then doc.value.agents else []
  }

  function MessagesIn(doc: Option<Doc>): seq<Message> {
    if doc.Some? && doc.value.MessagesDoc? then doc.value.messages else []
  }

  function Manifest(docs: Docs, sid: string): seq<string> { AgentsIn(Read(docs, ManifestKey(sid))) }
  function Messages(docs: Docs, sid: string, aid: string): seq<Message> { MessagesIn(Read(docs, MessagesKey(sid, aid))) }

  function Find(messages: seq<Message>, id: int): (i: nat)
    ensures i <= |messages|
    ensures i < |messages| ==> messages[i].id == id
    ensures forall j :: 0 <= j < i ==> messages[j].id != id
  {
    if messages == [] || messages[0].id == id then 0 else 1 + Find(messages[1..], id)
  }

  // The operations -----------------------------------------------------------

  datatype Plan = Plan(calls: seq<Call>, verdict: Result<(), Error>)

  function PlanOf(docs: Docs, op: Op): Plan {
    match op
    case CreateSession(s) => PlanCreateSession(docs, s)
    case DeleteSession(sid) => Plan(DeleteCalls(sid, Manifest(docs, sid)), Ok(()))
    case CreateAgent(sid, a) => PlanCreateAgent(docs, sid, a)
    case UpdateAgent(sid, a) => PlanUpdateAgent(docs, sid, a)
    case CreateMessage(sid, aid, m) =>
      var key := MessagesKey(sid, aid);
      Plan([Get(key), Put(key, MessagesDoc(Messages(docs, sid, aid) + [m]))], Ok(()))
    case UpdateMessage(sid, aid, m) => PlanUpdateMessage(docs, sid, aid, m)
  }

  function PlanCreateSession(docs: Docs, s: Session): Plan {
    var key := SessionKey(s.id);
    match Read(docs, key)
    case None => Plan([Get(key), Put(key, SessionDoc(s))], Ok(()))
    case Some(SessionDoc(_)) => Plan([Get(key)], Err(AlreadyExists))
    case Some(_) => Plan([Get(key)], Err(Malformed))
  }

  function Sweep(sid: string, agents: seq<string>): seq<Call> {
    seq(2 * |agents|, i requires 0 <= i < 2 * |agents| =>
      if i % 2 == 0 then Delete(AgentKey(sid, agents[i / 2])) else Delete(MessagesKey(sid, agents[i / 2])))
  }

  function DeleteCalls(sid: string, agents: seq<string>): seq<Call> {
    [Get(ManifestKey(sid))] + Sweep(sid, agents) + [Delete(ManifestKey(sid)), Delete(SessionKey(sid))]
  }

  function WithAgent(agents: seq<string>, aid: string): seq<string> {
    if aid in agents then agents else agents + [aid]
  }

  function PlanCreateAgent(docs: Docs, sid: string, a: Agent): Plan {
    var first := [Put(AgentKey(sid, a.id), AgentDoc(a)), Put(MessagesKey(sid, a.id), MessagesDoc([])), Get(ManifestKey(sid))];
    var found := Read(docs, ManifestKey(sid));
    if found.Some? && !found.value.ManifestDoc? then Plan(first, Err(Malformed))
    else Plan(first + [Put(ManifestKey(sid), ManifestDoc(WithAgent(AgentsIn(found), a.id)))], Ok(()))
  }

  function PlanUpdateAgent(docs: Docs, sid: string, a: Agent): Plan {
    var key := AgentKey(sid, a.id);
    match Read(docs, key)
    case None => Plan([Get(key)], Err(DoesNotExist))
    case Some(AgentDoc(was)) => Plan([Get(key), Put(key, AgentDoc(a.(createdAt := was.createdAt)))], Ok(()))
    case Some(_) => Plan([Get(key)], Err(Malformed))
  }

  function PlanUpdateMessage(docs: Docs, sid: string, aid: string, m: Message): Plan {
    var key := MessagesKey(sid, aid);
    var messages := Messages(docs, sid, aid);
    var i := Find(messages, m.id);
    if i == |messages| then Plan([Get(key)], Err(DoesNotExist))
    else Plan([Get(key), Get(key), Put(key, MessagesDoc(messages[i := m.(createdAt := messages[i].createdAt)]))], Ok(()))
  }

  function Min(a: nat, b: nat): nat { if a <= b then a else b }

  /** The store after an operation of whose calls the first `healthy` succeed. */
  function After(docs: Docs, op: Op, healthy: nat): Docs {
    var calls := PlanOf(docs, op).calls;
    Effect(docs, calls[..Min(healthy, |calls|)])
  }

  function Verdict(docs: Docs, op: Op, healthy: nat): Result<(), Error> {
    var plan := PlanOf(docs, op);
    if healthy < |plan.calls| then Err(StoreFailed) else plan.verdict
  }

  function History(docs: Docs, steps: seq<(Op, nat)>): Docs
    decreases |steps|
  {
    if steps == [] then docs else History(After(docs, steps[0].0, steps[0].1), steps[1..])
  }

  // Frames -------------------------------------------------------------------

  /** The keys of one session: its own two, and those of any agent. */
  ghost predicate OfSession(key: string, sid: string) {
    key == SessionKey(sid) || key == ManifestKey(sid) || exists aid: string :: OfAgent(key, sid, aid)
  }

  predicate OfAgent(key: string, sid: string, aid: string) {
    key == AgentKey(sid, aid) || key == MessagesKey(sid, aid)
  }

  predicate Same(docs: Docs, docs': Docs, key: string) { Read(docs, key) == Read(docs', key) }

  lemma {:induction false} EffectFrame(docs: Docs, calls: seq<Call>, key: string)
    requires forall i :: 0 <= i < |calls| ==> calls[i].Get? || calls[i].key != key
    ensures Same(docs, Effect(docs, calls), key)
  {
    if calls != [] { EffectFrame(docs, calls[..|calls| - 1], key); }
  }

  lemma SweepIsOwn(sid: string, agents: seq<string>, i: nat)
    requires i < |Sweep(sid, agents)|
    ensures OfAgent(Sweep(sid, agents)[i].key, sid, agents[i / 2])
  {
  }

  lemma CallsAreOwn(docs: Docs, op: Op, i: nat)
    requires i < |PlanOf(docs, op).calls|
    ensures OfSession(PlanOf(docs, op).calls[i].key, SessionOf(op))
  {
    hide AgentKey, MessagesKey, ManifestKey, SessionKey;
    match op
    case CreateSession(s) =>
    case DeleteSession(sid) =>
      var agents := Manifest(docs, sid);
      var calls := DeleteCalls(sid, agents);
      if 1 <= i < 1 + 2 * |agents| {
        SweepIsOwn(sid, agents, i - 1);
        assert calls[i] == Sweep(sid, agents)[i - 1];
        assert OfAgent(calls[i].key, sid, agents[(i - 1) / 2]);
      }
    case CreateAgent(sid, a) =>
      assert OfAgent(AgentKey(sid, a.id), sid, a.id) && OfAgent(MessagesKey(sid, a.id), sid, a.id);
    case UpdateAgent(sid, a) => assert OfAgent(AgentKey(sid, a.id), sid, a.id);
    case CreateMessage(sid, aid, m) => assert OfAgent(MessagesKey(sid, aid), sid, aid);
    case UpdateMessage(sid, aid, m) => assert OfAgent(MessagesKey(sid, aid), sid, aid);
  }

  /** Whatever its ids and however far it gets, an operation leaves every key outside its session as it was. */
  lemma OpStaysInItsSession(docs: Docs, op: Op, healthy: nat, key: string)
    requires !OfSession(key, SessionOf(op))
    ensures Same(docs, After(docs, op, healthy), key)
  {
    hide AgentKey, MessagesKey, ManifestKey, SessionKey, PlanOf;
    var calls := PlanOf(docs, op).calls;
    forall i | 0 <= i < |calls| ensures calls[i].key != key { CallsAreOwn(docs, op, i); }
    EffectFrame(docs, calls[..Min(healthy, |calls|)], key);
  }

  /** Behind its colon the id goes on as an agent's or a message list's key of the other session would. */
  predicate Nested(sid: string, sid': string) {
    sid + ":" + "agents:" <= sid' + ":" || sid + ":" + "messages:" <= sid' + ":"
  }

  predicate IsTail(tail: string) {
    tail == "session" || tail == "manifest" || "agents:" <= tail || "messages:" <= tail
  }

  lemma TailOf(key: string, sid: string) returns (tail: string)
    requires OfSession(key, sid)
    ensures IsTail(tail) && key == sid + ":" + tail
  {
    if key == SessionKey(sid) { tail := "session"; }
    else if key == ManifestKey(sid) { tail := "manifest"; }
    else {
      var aid: string :| OfAgent(key, sid, aid);
      tail := if key == AgentKey(sid, aid) then "agents:" + aid else "messages:" + aid;
    }
  }

  lemma LongerIsNested(sid: string, tail: string, sid': string, tail': string)
    requires |sid| < |sid'| && sid + ":" + tail == sid' + ":" + tail' && IsTail(tail)
    ensures Nested(sid, sid')
  {
    hide IsTail;
    var key, u, n := sid + ":" + tail, sid'[|sid| + 1..], |sid| + 1;
    assert sid'[..|sid|] == key[..|sid|] == sid && sid'[|sid|] == key[|sid|] == ':';
    assert sid' == sid + ":" + u;
    assert tail == key[n..] && key[n..] == u + ":" + tail';
    assert tail[|u|] == ':';
    HeadBeforeColon(tail, |u|);
    NestedBy(sid, u, if "agents:" <= tail then "agents:" else "messages:", tail, tail');
  }

  lemma NestedBy(sid: string, u: string, head: string, tail: string, tail': string)
    requires tail == u + ":" + tail' && head <= tail && |head| <= |u| + 1
    ensures sid + ":" + head <= (sid + ":" + u) + ":"
  {
    assert (u + ":")[..|head|] == tail[..|head|] == head;
    assert (sid + ":" + u) + ":" == sid + ":" + (u + ":");
    assert sid + ":" + (u + ":") == sid + ":" + head + (u + ":")[|head|..];
  }

  lemma HeadBeforeColon(tail: string, i: nat)
    requires IsTail(tail) && i < |tail| && tail[i] == ':'
    ensures ("agents:" <= tail && 6 <= i) || ("messages:" <= tail && !("agents:" <= tail) && 8 <= i)
  {
    if "agents:" <= tail {
      assert forall j :: 0 <= j < 6 ==> tail[j] == "agents:"[j];
    } else if "messages:" <= tail {
      assert forall j :: 0 <= j < 8 ==> tail[j] == "messages:"[j];
    }
  }

  lemma NestedShares(sid: string, sid': string)
    requires Nested(sid, sid')
    ensures OfSession(SessionKey(sid'), sid)
  {
    var head := if sid + ":" + "agents:" <= sid' + ":" then "agents:" else "messages:";
    var n := |sid + ":" + head|;
    var aid := (sid' + ":")[n..] + "session";
    assert sid' + ":" == (sid + ":" + head) + (sid' + ":")[n..];
    assert SessionKey(sid') == (sid' + ":") + "session" == (sid + ":" + head) + aid == sid + ":" + (head + aid);
    assert OfAgent(SessionKey(sid'), sid, aid);
  }

  /** Two sessions can share a key exactly if the id of one is nested in the other. */
  lemma SessionsShareIff(sid: string, sid': string)
    requires sid != sid'
    ensures (exists key: string :: OfSession(key, sid) && OfSession(key, sid')) <==> Nested(sid, sid') || Nested(sid', sid)
  {
    hide OfSession, Nested;
    if key: string :| OfSession(key, sid) && OfSession(key, sid') {
      var tail := TailOf(key, sid);
      var tail' := TailOf(key, sid');
      assert key[..|sid|] == sid && key[..|sid'|] == sid';
      if |sid| < |sid'| { LongerIsNested(sid, tail, sid', tail'); }
      else if |sid'| < |sid| { LongerIsNested(sid', tail', sid, tail); }
    }
    OwnSessionKey(sid);
    OwnSessionKey(sid');
    if Nested(sid, sid') { NestedShares(sid, sid'); }
    if Nested(sid', sid) { NestedShares(sid', sid); }
  }

  lemma SessionsAreApart(key: string, sid: string, sid': string)
    requires sid != sid' && !Nested(sid, sid') && !Nested(sid', sid)
    ensures !(OfSession(key, sid) && OfSession(key, sid'))
  {
    hide OfSession, Nested;
    SessionsShareIff(sid, sid');
  }

  /** Sessions that can share no key. */
  ghost predicate Apart(ids: iset<string>) {
    forall a, b | a in ids && b in ids && a != b :: !Nested(a, b)
  }

  lemma NestedHasColon(sid: string, sid': string)
    requires Nested(sid, sid')
    ensures |sid| < |sid'| && sid'[|sid|] == ':'
  {
    assert (sid' + ":")[|sid|] == ':';
  }

  lemma ColonFreeIdsAreApart()
    ensures Apart(iset id: string | ColonFree(id))
  {
    forall a: string, b: string | ColonFree(a) && ColonFree(b) ensures !Nested(a, b) {
      if Nested(a, b) {
        NestedHasColon(a, b);
      }
    }
  }

  lemma OwnSessionKey(sid: string)
    ensures OfSession(SessionKey(sid), sid)
  {
  }

  // The manifest -------------------------------------------------------------

  predicate Distinct(ids: seq<string>) { forall i, j :: 0 <= i < j < |ids| ==> ids[i] != ids[j] }

  /** Each key holds its own kind, and what an agent has stored its session's manifest lists. */
  predicate Listed(docs: Docs, sid: string, aid: string) {
    (SessionKey(sid) in docs ==> docs[SessionKey(sid)].SessionDoc?)
    && (ManifestKey(sid) in docs ==> docs[ManifestKey(sid)].ManifestDoc? && Distinct(docs[ManifestKey(sid)].agents))
    && (AgentKey(sid, aid) in docs ==> docs[AgentKey(sid, aid)].AgentDoc? && aid in Manifest(docs, sid))
    && (MessagesKey(sid, aid) in docs ==> docs[MessagesKey(sid, aid)].MessagesDoc? && aid in Manifest(docs, sid))
  }

  ghost predicate Complete(docs: Docs, ids: iset<string>) { forall sid, aid | sid in ids :: Listed(docs, sid, aid) }

  /** What would leave an agent's documents where its session's deletion cannot find them. */
  predicate Orphans(docs: Docs, op: Op, healthy: nat) {
    (op.CreateAgent? && 0 < healthy < 4 && op.agent.id !in Manifest(docs, op.sid))
    || (op.CreateMessage? && 2 <= healthy && op.aid !in Manifest(docs, op.sid))
  }

  lemma {:induction false} DeletesOnlyRemove(docs: Docs, calls: seq<Call>, key: string)
    requires forall i :: 0 <= i < |calls| ==> !calls[i].Put?
    ensures Read(Effect(docs, calls), key) == if Delete(key) in calls then None else Read(docs, key)
  {
    if calls != [] {
      var n := |calls| - 1;
      DeletesOnlyRemove(docs, calls[..n], key);
      assert calls == calls[..n] + [calls[n]];
    }
  }

  lemma DeleteReads(docs: Docs, sid: string, healthy: nat, key: string)
    ensures var calls := DeleteCalls(sid, Manifest(docs, sid));
      Read(After(docs, DeleteSession(sid), healthy), key)
      == if Delete(key) in calls[..Min(healthy, |calls|)] then None else Read(docs, key)
  {
    hide AgentKey, MessagesKey, ManifestKey, SessionKey;
    var calls := DeleteCalls(sid, Manifest(docs, sid));
    DeletesOnlyRemove(docs, calls[..Min(healthy, |calls|)], key);
  }
}
