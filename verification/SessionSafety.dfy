/** The manifest finds everything a session has stored, and what follows from it. */
module SessionSafety {
  import opened Wrappers
  import opened SessionKeys
  import opened SessionRepository

  lemma EffectStep(docs: Docs, calls: seq<Call>, k: nat)
    requires k < |calls|
    ensures Effect(docs, calls[..k + 1]) == DoCall(Effect(docs, calls[..k]), calls[k])
  {
    assert calls[..k + 1][..k] == calls[..k];
  }

  lemma EffectStart(docs: Docs, calls: seq<Call>)
    ensures Effect(docs, calls[..0]) == docs
  {
  }

  lemma ElsewhereStaysListed(docs: Docs, op: Op, healthy: nat, sid: string, aid: string)
    requires Listed(docs, sid, aid) && sid != SessionOf(op) && !Nested(sid, SessionOf(op)) && !Nested(SessionOf(op), sid)
    ensures Listed(After(docs, op, healthy), sid, aid)
  {
    hide AgentKey, MessagesKey, ManifestKey, SessionKey, Nested, After;
    forall key | OfSession(key, sid) ensures Same(docs, After(docs, op, healthy), key) {
      SessionsAreApart(key, sid, SessionOf(op));
      OpStaysInItsSession(docs, op, healthy, key);
    }
    assert OfAgent(AgentKey(sid, aid), sid, aid) && OfAgent(MessagesKey(sid, aid), sid, aid);
    assert Same(docs, After(docs, op, healthy), AgentKey(sid, aid));
    assert Same(docs, After(docs, op, healthy), MessagesKey(sid, aid));
    assert Same(docs, After(docs, op, healthy), ManifestKey(sid));
    assert Same(docs, After(docs, op, healthy), SessionKey(sid));
  }

  /** An interrupted deletion has the manifest still, or nothing left for it to list. */
  lemma DeletionStaysListed(docs: Docs, sid: string, healthy: nat, aid: string)
    requires Listed(docs, sid, aid)
    ensures Listed(After(docs, DeleteSession(sid), healthy), sid, aid)
  {
    hide After, AgentKey, MessagesKey, ManifestKey, SessionKey;
    var agents := Manifest(docs, sid);
    var calls := DeleteCalls(sid, agents);
    var n := Min(healthy, |calls|);
    DeleteReads(docs, sid, healthy, AgentKey(sid, aid));
    DeleteReads(docs, sid, healthy, MessagesKey(sid, aid));
    DeleteReads(docs, sid, healthy, ManifestKey(sid));
    DeleteReads(docs, sid, healthy, SessionKey(sid));
    if n <= 1 + 2 * |agents| {
      ManifestGoesLast(sid, agents, n);
    } else if aid in agents {
      SweepFinds(sid, agents, aid, n);
    }
  }

  lemma ManifestGoesLast(sid: string, agents: seq<string>, n: nat)
    requires n <= 1 + 2 * |agents|
    ensures Delete(ManifestKey(sid)) !in DeleteCalls(sid, agents)[..n]
  {
    hide AgentKey, MessagesKey, ManifestKey, SessionKey;
    var calls := DeleteCalls(sid, agents);
    forall i | 0 <= i < n ensures calls[i] != Delete(ManifestKey(sid)) {
      if i > 0 {
        assert calls[i] == Sweep(sid, agents)[i - 1];
        KeysDiffer(sid, agents[(i - 1) / 2], agents[(i - 1) / 2]);
      }
    }
  }

  lemma SweepFinds(sid: string, agents: seq<string>, aid: string, n: nat)
    requires aid in agents && 1 + 2 * |agents| <= n <= |DeleteCalls(sid, agents)|
    ensures Delete(AgentKey(sid, aid)) in DeleteCalls(sid, agents)[..n]
    ensures Delete(MessagesKey(sid, aid)) in DeleteCalls(sid, agents)[..n]
  {
    hide AgentKey, MessagesKey, ManifestKey, SessionKey;
    var calls := DeleteCalls(sid, agents);
    var i :| 0 <= i < |agents| && agents[i] == aid;
    assert (2 * i) / 2 == i && (2 * i + 1) / 2 == i;
    assert calls[1 + 2 * i] == Sweep(sid, agents)[2 * i] == Delete(AgentKey(sid, aid));
    assert calls[2 + 2 * i] == Sweep(sid, agents)[2 * i + 1] == Delete(MessagesKey(sid, aid));
    assert calls[..n][1 + 2 * i] == calls[1 + 2 * i] && calls[..n][2 + 2 * i] == calls[2 + 2 * i];
  }

  /** The store after each number of the calls that create an agent. */
  lemma CreationReaches(docs: Docs, sid: string, a: Agent, healthy: nat)
    requires Listed(docs, sid, a.id)
    ensures var one := docs[AgentKey(sid, a.id) := AgentDoc(a)];
      var two := one[MessagesKey(sid, a.id) := MessagesDoc([])];
      var four := two[ManifestKey(sid) := ManifestDoc(WithAgent(Manifest(docs, sid), a.id))];
      After(docs, CreateAgent(sid, a), healthy)
      == if healthy == 0 then docs else if healthy == 1 then one else if healthy <= 3 then two else four
  {
    hide AgentKey, MessagesKey, ManifestKey, SessionKey, Effect;
    var calls := PlanCreateAgent(docs, sid, a).calls;
    EffectStart(docs, calls);
    EffectStep(docs, calls, 0);
    EffectStep(docs, calls, 1);
    EffectStep(docs, calls, 2);
    EffectStep(docs, calls, 3);
    assert |calls| == 4;
  }

  lemma CreationListsIff(docs: Docs, sid: string, a: Agent, healthy: nat, aid: string)
    requires Listed(docs, sid, aid) && Listed(docs, sid, a.id)
    ensures Orphans(docs, CreateAgent(sid, a), healthy) ==> !Listed(After(docs, CreateAgent(sid, a), healthy), sid, a.id)
    ensures !Orphans(docs, CreateAgent(sid, a), healthy) ==> Listed(After(docs, CreateAgent(sid, a), healthy), sid, aid)
  {
    hide AgentKey, MessagesKey, ManifestKey, SessionKey, After;
    KeysDiffer(sid, a.id, aid);
    KeysDiffer(sid, aid, a.id);
    KeysDiffer(sid, aid, aid);
    KeysDiffer(sid, a.id, a.id);
    CreationReaches(docs, sid, a, healthy);
  }

  /** The operations that write at most once, after reading. */
  lemma SingleWrite(docs: Docs, op: Op, healthy: nat)
    requires !op.DeleteSession? && !op.CreateAgent?
    ensures var calls := PlanOf(docs, op).calls; 0 < |calls| <= 3
    ensures var calls := PlanOf(docs, op).calls;
      After(docs, op, healthy)
      == if healthy < |calls| || !calls[|calls| - 1].Put? then docs
         else docs[calls[|calls| - 1].key := calls[|calls| - 1].doc]
  {
    hide AgentKey, MessagesKey, ManifestKey, SessionKey, Effect;
    var calls := PlanOf(docs, op).calls;
    EffectStart(docs, calls);
    EffectStep(docs, calls, 0);
    if 1 < |calls| { EffectStep(docs, calls, 1); }
    if 2 < |calls| { EffectStep(docs, calls, 2); }
  }

  function AgentOf(op: Op): string {
    match op
    case CreateAgent(_, a) => a.id
    case UpdateAgent(_, a) => a.id
    case CreateMessage(_, aid, _) => aid
    case UpdateMessage(_, aid, _) => aid
    case CreateSession(_) => ""
    case DeleteSession(_) => ""
  }

  lemma OneWriteListsIff(docs: Docs, op: Op, healthy: nat, aid: string)
    requires !op.DeleteSession? && !op.CreateAgent?
    requires var sid := SessionOf(op); Listed(docs, sid, aid) && Listed(docs, sid, AgentOf(op))
    ensures Orphans(docs, op, healthy) ==> !Listed(After(docs, op, healthy), SessionOf(op), AgentOf(op))
    ensures !Orphans(docs, op, healthy) ==> Listed(After(docs, op, healthy), SessionOf(op), aid)
  {
    hide AgentKey, MessagesKey, ManifestKey, SessionKey, After;
    var sid := SessionOf(op);
    KeysDiffer(sid, AgentOf(op), aid);
    KeysDiffer(sid, aid, AgentOf(op));
    KeysDiffer(sid, aid, aid);
    KeysDiffer(sid, AgentOf(op), AgentOf(op));
    SingleWrite(docs, op, healthy);
  }

  /** The manifest stays complete exactly when no agent is half created and no message goes to an unlisted agent. */
  lemma OpKeepsManifestIff(docs: Docs, ids: iset<string>, op: Op, healthy: nat)
    requires Complete(docs, ids) && Apart(ids) && SessionOf(op) in ids
    ensures Complete(After(docs, op, healthy), ids) <==> !Orphans(docs, op, healthy)
  {
    hide After, Listed, Orphans, PlanOf, Nested;
    var sid := SessionOf(op);
    assert Listed(docs, sid, AgentOf(op));
    if op.CreateAgent? {
      CreationListsIff(docs, sid, op.agent, healthy, op.agent.id);
    } else if !op.DeleteSession? {
      OneWriteListsIff(docs, op, healthy, AgentOf(op));
    } else {
      NoOrphans(docs, op, healthy);
    }
    if !Orphans(docs, op, healthy) {
      forall sid', aid | sid' in ids ensures Listed(After(docs, op, healthy), sid', aid) {
        assert Listed(docs, sid', aid);
        if sid' != sid { ElsewhereStaysListed(docs, op, healthy, sid', aid); }
        else if op.CreateAgent? { CreationListsIff(docs, sid, op.agent, healthy, aid); }
        else if op.DeleteSession? { DeletionStaysListed(docs, sid, healthy, aid); }
        else { OneWriteListsIff(docs, op, healthy, aid); }
      }
    }
  }

  lemma NoOrphans(docs: Docs, op: Op, healthy: nat)
    requires op.DeleteSession?
    ensures !Orphans(docs, op, healthy)
  {
  }

  /** What a history asks of its caller: sessions that are apart, and no step that orphans documents. */
  ghost predicate Careful(docs: Docs, ids: iset<string>, steps: seq<(Op, nat)>)
    decreases |steps|
  {
    steps == []
    || (SessionOf(steps[0].0) in ids && !Orphans(docs, steps[0].0, steps[0].1)
        && Careful(After(docs, steps[0].0, steps[0].1), ids, steps[1..]))
  }

  lemma {:induction false} HistoryKeepsManifest(docs: Docs, ids: iset<string>, steps: seq<(Op, nat)>)
    requires Complete(docs, ids) && Apart(ids) && Careful(docs, ids, steps)
    ensures Complete(History(docs, steps), ids)
    decreases |steps|
  {
    if steps != [] {
      OpKeepsManifestIff(docs, ids, steps[0].0, steps[0].1);
      HistoryKeepsManifest(After(docs, steps[0].0, steps[0].1), ids, steps[1..]);
    }
  }

  // Deletion -----------------------------------------------------------------

  /** A deletion that reaches its end removes every document of its session and no other. */
  lemma DeletionIsExact(docs: Docs, ids: iset<string>, sid: string, healthy: nat, key: string)
    requires Complete(docs, ids) && sid in ids
    requires |DeleteCalls(sid, Manifest(docs, sid))| <= healthy
    ensures Read(After(docs, DeleteSession(sid), healthy), key) == if OfSession(key, sid) then None else Read(docs, key)
  {
    hide After, AgentKey, MessagesKey, ManifestKey, SessionKey;
    var agents := Manifest(docs, sid);
    var calls := DeleteCalls(sid, agents);
    var n := |calls|;
    assert calls[..n] == calls;
    DeleteReads(docs, sid, healthy, key);
    if !OfSession(key, sid) {
      OpStaysInItsSession(docs, DeleteSession(sid), healthy, key);
    } else if key == ManifestKey(sid) {
      assert calls[n - 2] == Delete(key);
    } else if key == SessionKey(sid) {
      assert calls[n - 1] == Delete(key);
    } else {
      var aid: string :| OfAgent(key, sid, aid);
      assert Listed(docs, sid, aid);
      if aid in agents { SweepFinds(sid, agents, aid, n); }
    }
  }

  /** However a deletion was cut short, deleting again ends where one uninterrupted deletion would have. */
  lemma DeletionCanBeRepeated(docs: Docs, ids: iset<string>, sid: string, healthy: nat, again: nat, once: nat)
    requires Complete(docs, ids) && Apart(ids) && sid in ids
    requires |DeleteCalls(sid, Manifest(docs, sid))| <= once
    requires |DeleteCalls(sid, Manifest(After(docs, DeleteSession(sid), healthy), sid))| <= again
    ensures After(After(docs, DeleteSession(sid), healthy), DeleteSession(sid), again) == After(docs, DeleteSession(sid), once)
  {
    hide After, Orphans, PlanOf, OfSession, DeleteCalls, Complete, Listed, Nested;
    var half := After(docs, DeleteSession(sid), healthy);
    NoOrphans(docs, DeleteSession(sid), healthy);
    OpKeepsManifestIff(docs, ids, DeleteSession(sid), healthy);
    var left, right := After(half, DeleteSession(sid), again), After(docs, DeleteSession(sid), once);
    forall key ensures Read(left, key) == Read(right, key) {
      DeletionIsExact(half, ids, sid, again, key);
      DeletionIsExact(docs, ids, sid, once, key);
      if !OfSession(key, sid) { OpStaysInItsSession(docs, DeleteSession(sid), healthy, key); }
    }
    SameReadsSameStore(left, right);
  }

  lemma SameReadsSameStore(a: Docs, b: Docs)
    requires forall key :: Read(a, key) == Read(b, key)
    ensures a == b
  {
    forall key ensures key in a <==> key in b { assert Read(a, key) == Read(b, key); }
    forall key | key in a ensures a[key] == b[key] { assert Read(a, key) == Read(b, key); }
  }

  /** While the manifest is complete no operation meets a document of the wrong kind. */
  lemma NothingIsMalformed(docs: Docs, ids: iset<string>, op: Op, healthy: nat)
    requires Complete(docs, ids) && SessionOf(op) in ids
    ensures Verdict(docs, op, healthy) != Err(Malformed)
  {
    hide AgentKey, MessagesKey, ManifestKey, SessionKey;
    assert Listed(docs, SessionOf(op), AgentOf(op));
  }
}
