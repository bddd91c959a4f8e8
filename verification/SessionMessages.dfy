/** What an agent's stored messages are after any history, and how they are paged. */
module SessionMessages {
  import opened Wrappers
  import opened SessionKeys
  import opened SessionRepository
  import opened SessionSafety

  // Pages --------------------------------------------------------------------

  /** A slice bound: negative counts from the end, and neither end is passed. */
  function Bound(i: int, n: nat): (b: nat) {
    if i < 0 then (if n + i < 0 then 0 else n + i) else if i < n then i else n
  }

  function Slice<T>(s: seq<T>, lo: int, hi: int): seq<T> {
    var a, b := Bound(lo, |s|), Bound(hi, |s|);
    if a < b then s[a..b] else []
  }

  function Page(messages: seq<Message>, limit: Option<int>, offset: int): seq<Message> {
    Slice(messages, offset, if limit.None? then |messages| else offset + limit.value)
  }

  function Pages(messages: seq<Message>, limit: int, count: nat): seq<Message> {
    if count == 0 then [] else Pages(messages, limit, count - 1) + Page(messages, Some(limit), (count - 1) * limit)
  }

  /** Pages of any positive limit follow one another without gap or overlap, and enough of them are the whole list. */
  lemma {:induction false} PagesTile(messages: seq<Message>, limit: int, count: nat)
    requires 0 < limit
    ensures Pages(messages, limit, count) == messages[..Bound(count * limit, |messages|)]
    ensures |messages| <= count * limit ==> Pages(messages, limit, count) == messages
  {
    hide Bound, Page;
    if count > 0 {
      PagesTile(messages, limit, count - 1);
      OneMore(count - 1, limit);
      NextPage(messages, limit, (count - 1) * limit);
    } else {
      NoPage(messages);
    }
    if |messages| <= count * limit { PagesReach(messages, count * limit); }
  }

  lemma OneMore(count: nat, limit: int)
    requires 0 < limit
    ensures 0 <= count * limit && (count + 1) * limit == count * limit + limit
  {
  }

  lemma NoPage(messages: seq<Message>)
    ensures messages[..Bound(0, |messages|)] == []
  {
  }

  lemma NextPage(messages: seq<Message>, limit: int, from: int)
    requires 0 < limit && 0 <= from
    ensures messages[..Bound(from, |messages|)] + Page(messages, Some(limit), from)
         == messages[..Bound(from + limit, |messages|)]
  {
  }

  lemma PagesReach(messages: seq<Message>, count: int)
    requires |messages| <= count
    ensures messages[..Bound(count, |messages|)] == messages
  {
  }

  /** Without a limit the page is all from the offset on, and a negative offset counts from the end. */
  lemma UnlimitedPage(messages: seq<Message>, offset: int)
    ensures 0 <= offset <= |messages| ==> Page(messages, None, offset) == messages[offset..]
    ensures |messages| < offset ==> Page(messages, None, offset) == []
    ensures 0 < -offset <= |messages| ==> Page(messages, None, offset) == messages[|messages| + offset..]
    ensures |messages| < -offset ==> Page(messages, None, offset) == messages
  {
  }

  // Conversations ------------------------------------------------------------

  function Updated(messages: seq<Message>, m: Message): seq<Message> {
    var i := Find(messages, m.id);
    if i == |messages| then messages else messages[i := m.(createdAt := messages[i].createdAt)]
  }

  /** An update replaces the first message of its number, keeping when it was created, and no other. */
  lemma UpdateIsInPlace(messages: seq<Message>, m: Message)
    ensures var after, i := Updated(messages, m), Find(messages, m.id);
      |after| == |messages|
      && (forall j :: 0 <= j < |after| ==> after[j].id == messages[j].id && after[j].createdAt == messages[j].createdAt)
      && (forall j :: 0 <= j < |after| && j != i ==> after[j] == messages[j])
      && (i < |messages| <==> exists j :: 0 <= j < |messages| && messages[j].id == m.id)
      && (i < |messages| ==> after[i].body == m.body && Find(after, m.id) == i)
  {
  }

  /** What one step does to the messages of one agent. */
  function Told(was: seq<Message>, step: (Op, nat), sid: string, aid: string): seq<Message> {
    match step.0
    case CreateAgent(s, a) => if s == sid && a.id == aid && 2 <= step.1 then [] else was
    case CreateMessage(s, a, m) => if s == sid && a == aid && 2 <= step.1 then was + [m] else was
    case UpdateMessage(s, a, m) => if s == sid && a == aid && 3 <= step.1 then Updated(was, m) else was
    case CreateSession(_) => was
    case UpdateAgent(_, _) => was
    case DeleteSession(_) => was
  }

  function AllTold(was: seq<Message>, steps: seq<(Op, nat)>, sid: string, aid: string): seq<Message>
    decreases |steps|
  {
    if steps == [] then was else AllTold(Told(was, steps[0], sid, aid), steps[1..], sid, aid)
  }

  lemma CreationEmpties(docs: Docs, sid: string, a: Agent, healthy: nat)
    ensures Messages(After(docs, CreateAgent(sid, a), healthy), sid, a.id)
         == if 2 <= healthy then [] else Messages(docs, sid, a.id)
  {
    hide AgentKey, MessagesKey, ManifestKey, SessionKey, Effect;
    KeysDiffer(sid, a.id, a.id);
    var calls := PlanCreateAgent(docs, sid, a).calls;
    EffectStart(docs, calls);
    EffectStep(docs, calls, 0);
    EffectStep(docs, calls, 1);
    EffectStep(docs, calls, 2);
    if |calls| == 4 { EffectStep(docs, calls, 3); }
  }

  lemma OwnStepTells(docs: Docs, op: Op, healthy: nat, aid: string)
    requires !op.DeleteSession?
    ensures Messages(After(docs, op, healthy), SessionOf(op), aid)
         == Told(Messages(docs, SessionOf(op), aid), (op, healthy), SessionOf(op), aid)
  {
    hide AgentKey, MessagesKey, ManifestKey, SessionKey, After;
    var sid, who := SessionOf(op), AgentOf(op);
    KeysDiffer(sid, who, aid);
    KeysDiffer(sid, aid, who);
    if op.CreateAgent? {
      if who == aid { CreationEmpties(docs, sid, op.agent, healthy); }
      else { CreationLeaves(docs, sid, op.agent, healthy, MessagesKey(sid, aid)); }
    } else {
      SingleWrite(docs, op, healthy);
    }
  }

  lemma CreationLeaves(docs: Docs, sid: string, a: Agent, healthy: nat, key: string)
    requires key != AgentKey(sid, a.id) && key != MessagesKey(sid, a.id) && key != ManifestKey(sid)
    ensures Same(docs, After(docs, CreateAgent(sid, a), healthy), key)
  {
    hide AgentKey, MessagesKey, ManifestKey, SessionKey;
    var calls := PlanCreateAgent(docs, sid, a).calls;
    EffectFrame(docs, calls[..Min(healthy, |calls|)], key);
  }

  lemma StepTells(docs: Docs, op: Op, healthy: nat, sid: string, aid: string)
    requires op != DeleteSession(sid)
    requires SessionOf(op) != sid ==> !Nested(sid, SessionOf(op)) && !Nested(SessionOf(op), sid)
    ensures Messages(After(docs, op, healthy), sid, aid) == Told(Messages(docs, sid, aid), (op, healthy), sid, aid)
  {
    if SessionOf(op) == sid {
      OwnStepTells(docs, op, healthy, aid);
    } else {
      hide AgentKey, MessagesKey, ManifestKey, SessionKey, After;
      assert OfAgent(MessagesKey(sid, aid), sid, aid);
      SessionsAreApart(MessagesKey(sid, aid), sid, SessionOf(op));
      OpStaysInItsSession(docs, op, healthy, MessagesKey(sid, aid));
    }
  }

  /**
    Whatever else is stored, interrupted or deleted in between, an agent's
    messages are what its own operations make of them, until its session is deleted.
  */
  lemma {:induction false} ConversationIsKept(docs: Docs, ids: iset<string>, steps: seq<(Op, nat)>, sid: string, aid: string)
    requires Apart(ids) && sid in ids
    requires forall i :: 0 <= i < |steps| ==> SessionOf(steps[i].0) in ids && steps[i].0 != DeleteSession(sid)
    ensures Messages(History(docs, steps), sid, aid) == AllTold(Messages(docs, sid, aid), steps, sid, aid)
    decreases |steps|
  {
    if steps != [] {
      StepTells(docs, steps[0].0, steps[0].1, sid, aid);
      ConversationIsKept(After(docs, steps[0].0, steps[0].1), ids, steps[1..], sid, aid);
    }
  }
}
