/** The keys under which a session, its agents and their messages are stored. */
module SessionKeys {

  function SessionKey(sid: string): string { sid + ":" + "session" }
  function ManifestKey(sid: string): string { sid + ":" + "manifest" }
  function AgentKey(sid: string, aid: string): string { sid + ":" + ("agents:" + aid) }
  function MessagesKey(sid: string, aid: string): string { sid + ":" + ("messages:" + aid) }

  lemma TailsDiffer(aid: string, aid': string)
    ensures "agents:" + aid == "agents:" + aid' ==> aid == aid'
    ensures "messages:" + aid == "messages:" + aid' ==> aid == aid'
    ensures "session" != "agents:" + aid && "session" != "messages:" + aid && "session" != "manifest"
    ensures "manifest" != "agents:" + aid && "manifest" != "messages:" + aid
    ensures "agents:" + aid != "messages:" + aid'
  {
    var a, a' := "agents:" + aid, "agents:" + aid';
    var m, m' := "messages:" + aid, "messages:" + aid';
    assert a[7..] == aid && a'[7..] == aid' && m[9..] == aid && m'[9..] == aid';
    assert a[0] == 'a' && m[0] == 'm' && m'[0] == 'm' && m[1] == 'e';
    assert "session"[0] == 's' && "manifest"[0] == 'm' && "manifest"[1] == 'a';
  }

  /** In one session no two keys of different kinds or agents are the same, whatever the ids. */
  lemma KeysDiffer(sid: string, aid: string, aid': string)
    ensures AgentKey(sid, aid) == AgentKey(sid, aid') ==> aid == aid'
    ensures MessagesKey(sid, aid) == MessagesKey(sid, aid') ==> aid == aid'
    ensures SessionKey(sid) != ManifestKey(sid) && SessionKey(sid) != AgentKey(sid, aid')
    ensures SessionKey(sid) != MessagesKey(sid, aid') && ManifestKey(sid) != AgentKey(sid, aid')
    ensures ManifestKey(sid) != MessagesKey(sid, aid') && AgentKey(sid, aid) != MessagesKey(sid, aid')
  {
    var n := |sid| + 1;
    TailsDiffer(aid, aid');
    TailsDiffer(aid', aid);
    assert SessionKey(sid)[n..] == "session" && ManifestKey(sid)[n..] == "manifest";
    assert AgentKey(sid, aid)[n..] == "agents:" + aid && AgentKey(sid, aid')[n..] == "agents:" + aid';
    assert MessagesKey(sid, aid)[n..] == "messages:" + aid && MessagesKey(sid, aid')[n..] == "messages:" + aid';
  }

  /** In two sessions they can be: an agent called "manifest" overwrites another session's manifest. */
  lemma ColonsCollide(sid: string)
    ensures AgentKey(sid, "manifest") == ManifestKey(sid + ":agents")
  {
  }
}
