/** The servicer that registers topic handlers, and what its subscribers can rely on. */
module CallbackServicer {
  import opened Wrappers
  import opened Names
  import opened TopicRules
  import opened TopicRouter

  class CallbackServicer {
    var topicMap: map<string, Callback>
    var routeMap: map<(string, string), Callback>
    var disabled: map<string, seq<Callback>>
    var position: map<string, nat>
    var subs: seq<Subscription>
    var rules: seq<seq<Ranked>>
    ghost var accepted: seq<Registration>

    function Tables(): Table
      reads this
    {
      Table(topicMap, routeMap, disabled, position, subs, rules)
    }

    ghost predicate Valid()
      reads this
    {
      Holds(Tables(), accepted)
    }

    constructor ()
      ensures Valid() && accepted == []
    {
      topicMap, routeMap, disabled, position, subs, rules, accepted := map[], map[], map[], map[], [], [], [];
      new;
      assert forall key :: First([], key) == 0;
    }

    /** Accepted unless the same pubsub, topic and path were registered before; a refusal changes nothing. */
    method RegisterTopic(reg: Registration) returns (r: Result<(), string>)
      requires Valid()
      modifies this
      ensures Valid()
      ensures r.Ok? <==> Exactly(old(accepted), reg.Key()).None?
      ensures r.Ok? ==> accepted == old(accepted) + [reg]
      ensures r.Err? ==> Tables() == old(Tables()) && accepted == old(accepted)
    {
      hide Holds, Exactly, Shaped, Add, KeyOf, LookupKey;
      TakenIff(Tables(), accepted, reg.Key());
      if reg.Key() in topicMap {
        return Err(reg.topic + " is already registered with " + reg.pubsub);
      }
      ghost var was, regs := Tables(), accepted;
      AddHolds(was, regs, reg);
      topicMap := topicMap[reg.Key() := reg.cb];
      routeMap := routeMap[(reg.pubsub, reg.Route()) := reg.cb];
      if reg.noValidation {
        if reg.pubsub !in disabled { disabled := disabled[reg.pubsub := []]; }
        disabled := disabled[reg.pubsub := disabled[reg.pubsub] + [reg.cb]];
      }
      AddFields(was, Tables(), reg);
      Advertise(reg);
      accepted := accepted + [reg];
      assert Tables() == Add(was, reg);
      r := Ok(());
    }

    /** The subscription of a topic, made when it is first registered, and its rules sorted again. */
    method Advertise(reg: Registration)
      requires Shaped(Tables())
      modifies this`position, this`subs, this`rules
      ensures Advertised(Tables()) == Advertised(Add(old(Tables()), reg))
    {
      hide Sort, Header, Bare, KeyOf, LookupKey;
      if reg.TopicKey() !in position {
        position := position[reg.TopicKey() := |subs|];
        subs := subs + [Header(reg)];
        rules := rules + [[]];
      }
      var k := position[reg.TopicKey()];
      if reg.rule.Some? {
        rules := rules[k := Sort(rules[k] + reg.Rules())];
        subs := subs[k := subs[k].(advertised := Bare(rules[k]))];
      }
    }

    method GetTopicCallback(pubsub: string, topic: string, path: string) returns (r: Option<Callback>)
      requires Valid()
      ensures r == Handler(accepted, pubsub, topic, path)
    {
      hide Exactly, LastOn, Unvalidated, SubsHold, Unrepeated, KeyOf, LookupKey;
      var key := LookupKey(pubsub, topic, path);
      assert Exactly(accepted, key) == if key in topicMap then Some(topicMap[key]) else None;
      assert LastOn(accepted, pubsub, path) == if (pubsub, path) in routeMap then Some(routeMap[(pubsub, path)]) else None;
      assert LastOn(accepted, pubsub, topic) == if (pubsub, topic) in routeMap then Some(routeMap[(pubsub, topic)]) else None;
      assert Unvalidated(accepted, pubsub) == if pubsub in disabled then disabled[pubsub] else [];
      if key in topicMap { return Some(topicMap[key]); }
      if (pubsub, path) in routeMap { return Some(routeMap[(pubsub, path)]); }
      if path == "" {
        if (pubsub, topic) in routeMap { return Some(routeMap[(pubsub, topic)]); }
        if pubsub in disabled {
          var callbacks := disabled[pubsub];
          if |callbacks| == 1 { return Some(callbacks[0]); }
        }
      }
      r := None;
    }
  }

  function Advertised(t: Table): (map<string, nat>, seq<Subscription>, seq<seq<Ranked>>) { (t.position, t.subs, t.rules) }

  /** The handler maps and the subscriptions do not depend on one another. */
  lemma AddFields(t: Table, t': Table, reg: Registration)
    requires Shaped(t) && Advertised(t') == Advertised(t)
    ensures Shaped(t')
    ensures Add(t, reg).topicMap == t.topicMap[reg.Key() := reg.cb]
    ensures Add(t, reg).routeMap == t.routeMap[(reg.pubsub, reg.Route()) := reg.cb]
    ensures var was := if reg.pubsub in t.disabled then t.disabled[reg.pubsub] else [];
      Add(t, reg).disabled == if reg.noValidation then t.disabled[reg.pubsub := was + [reg.cb]] else t.disabled
    ensures Advertised(Add(t', reg)) == Advertised(Add(t, reg))
  {
    hide Sort, Header, Bare, KeyOf, LookupKey;
  }

  lemma TakenIff(t: Table, regs: seq<Registration>, key: string)
    requires Holds(t, regs)
    ensures key in t.topicMap <==> Exactly(regs, key).Some?
    ensures Shaped(t)
  {
  }

  // What holds for names without colons --------------------------------------

  predicate Named(reg: Registration) { ColonFree(reg.pubsub) && ColonFree(reg.topic) }

  ghost predicate AllNamed(regs: seq<Registration>) { forall i :: 0 <= i < |regs| ==> Named(regs[i]) }

  lemma KeysTell(p: string, t: string, path: string, p': string, t': string, path': string)
    requires ColonFree(p) && ColonFree(t) && ColonFree(p') && ColonFree(t')
    ensures KeyOf(p, t) == KeyOf(p', t') ==> p == p' && t == t'
    ensures LookupKey(p, t, path) == LookupKey(p', t', path') ==> p == p' && t == t' && path == path'
  {
    SplitAtColon(p, t, p', t');
    SplitAtColon(p, t + ":" + path, p', t' + ":" + path');
    SplitAtColon(t, path, t', path');
    assert LookupKey(p, t, path) == p + ":" + (t + ":" + path);
    assert LookupKey(p', t', path') == p' + ":" + (t' + ":" + path');
  }

  /** The registrations that are not refused, of any sequence of them. */
  function Accepted(regs: seq<Registration>): seq<Registration> {
    if regs == [] then []
    else
      var before := Accepted(regs[..|regs| - 1]);
      var reg := regs[|regs| - 1];
      if Exactly(before, reg.Key()).None? then before + [reg] else before
  }

  /** What is accepted under a key is what was first asked for under it. */
  lemma {:induction false} FirstIsAccepted(regs: seq<Registration>, key: string)
    ensures Exactly(Accepted(regs), key) == Exactly(regs, key)
  {
    if regs != [] {
      var n := |regs| - 1;
      assert regs == regs[..n] + [regs[n]];
      FirstIsAccepted(regs[..n], key);
      FirstIsAccepted(regs[..n], regs[n].Key());
      ExactlyAppend(Accepted(regs[..n]), regs[n], key);
      ExactlyAppend(regs[..n], regs[n], key);
    }
  }

  /** Whatever is registered after it, an event of a registered pubsub, topic and path finds the handler first registered there. */
  lemma {:induction false} FirstRegisteredAnswers(regs: seq<Registration>, i: nat, p: string, t: string, path: string)
    requires AllNamed(regs) && ColonFree(p) && ColonFree(t) && i < |regs|
    requires regs[i].pubsub == p && regs[i].topic == t && regs[i].Path() == path
    requires forall j :: 0 <= j < i ==> !(regs[j].pubsub == p && regs[j].topic == t && regs[j].Path() == path)
    ensures Handler(Accepted(regs), p, t, path) == Some(regs[i].cb)
  {
    hide LookupKey;
    FirstIsAccepted(regs, LookupKey(p, t, path));
    ExactlyIsFirst(regs, i, p, t, path);
  }

  lemma {:induction false} ExactlyIsFirst(regs: seq<Registration>, i: nat, p: string, t: string, path: string)
    requires AllNamed(regs) && ColonFree(p) && ColonFree(t) && i < |regs|
    requires regs[i].pubsub == p && regs[i].topic == t && regs[i].Path() == path
    requires forall j :: 0 <= j < i ==> !(regs[j].pubsub == p && regs[j].topic == t && regs[j].Path() == path)
    ensures Exactly(regs, LookupKey(p, t, path)) == Some(regs[i].cb)
  {
    hide LookupKey;
    if i > 0 {
      assert Named(regs[0]);
      KeysTell(p, t, path, regs[0].pubsub, regs[0].topic, regs[0].Path());
      ExactlyIsFirst(regs[1..], i - 1, p, t, path);
    }
  }

  /** No two advertised subscriptions are for the same pubsub and topic. */
  lemma SubscriptionsAreDistinct(t: Table, regs: seq<Registration>, j: nat, k: nat)
    requires SubsHold(t, regs) && j < |t.subs| && k < |t.subs|
    requires t.subs[j].pubsub == t.subs[k].pubsub && t.subs[j].topic == t.subs[k].topic
    ensures j == k
  {
    assert Placed(t, j) && Placed(t, k);
  }

  predicate MadeFrom(t: Table, k: nat, reg: Registration, p: string, topic: string)
    requires k < |t.subs| && k < |t.rules|
  {
    && reg.pubsub == p && reg.topic == topic
    && t.subs[k].pubsub == p && t.subs[k].topic == topic
    && t.subs[k].metadata == reg.metadata && t.subs[k].deadLetter == reg.deadLetter
    && t.subs[k].default == (if reg.noValidation && reg.rule.None? then topic else "")
    && |t.subs[k].advertised| == |t.rules[k]|
    && forall j :: 0 <= j < |t.rules[k]| ==> t.subs[k].advertised[j] == t.rules[k][j].1
  }

  /** The first registration of a pubsub and topic. */
  predicate IsFirst(regs: seq<Registration>, i: nat, p: string, topic: string) {
    && i < |regs| && regs[i].pubsub == p && regs[i].topic == topic
    && forall j :: 0 <= j < i ==> !(regs[j].pubsub == p && regs[j].topic == topic)
  }

  predicate Covers(t: Table, k: nat, p: string, topic: string) {
    k < |t.subs| && t.subs[k].pubsub == p && t.subs[k].topic == topic
  }

  /** The k-th subscription is what the registrations of its pubsub and topic ask for. */
  ghost predicate Exact(t: Table, regs: seq<Registration>, k: nat, p: string, topic: string) {
    && k < |t.subs| && k < |t.rules| && StableSortOf(t.rules[k], RulesOf(regs, KeyOf(p, topic)))
    && exists i: nat :: IsFirst(regs, i, p, topic) && MadeFrom(t, k, regs[i], p, topic)
  }

  /**
    What is advertised for a pubsub and topic: a subscription exactly when one
    was registered, made from the first, with the rules of all in order of
    priority and, within a priority, of registration.
  */
  lemma SubscriptionsAreExact(t: Table, regs: seq<Registration>, p: string, topic: string)
    requires SubsHold(t, regs) && AllNamed(regs) && ColonFree(p) && ColonFree(topic)
    ensures (exists k: nat :: Covers(t, k, p, topic))
       <==> (exists i :: 0 <= i < |regs| && regs[i].pubsub == p && regs[i].topic == topic)
    ensures forall k: nat :: Covers(t, k, p, topic) ==> Exact(t, regs, k, p, topic)
  {
    hide *;
    if i :| 0 <= i < |regs| && regs[i].pubsub == p && regs[i].topic == topic {
      RegisteredIsCovered(t, regs, i);
    }
    forall k: nat | Covers(t, k, p, topic)
      ensures Exact(t, regs, k, p, topic)
      ensures exists i :: 0 <= i < |regs| && regs[i].pubsub == p && regs[i].topic == topic
    {
      CoveredIsExact(t, regs, k, p, topic);
    }
  }

  lemma RegisteredIsCovered(t: Table, regs: seq<Registration>, i: nat)
    requires SubsHold(t, regs) && AllNamed(regs) && i < |regs|
    ensures exists k: nat :: Covers(t, k, regs[i].pubsub, regs[i].topic)
  {
    hide KeyOf, First, Sort, RulesOf;
    var p, topic := regs[i].pubsub, regs[i].topic;
    assert Named(regs[i]);
    assert regs[i].TopicKey() == KeyOf(p, topic);
    assert First(regs, KeyOf(p, topic)) < |regs|;
    SubOfKey(t, regs, p, topic);
    assert Covers(t, t.position[KeyOf(p, topic)], p, topic);
  }

  lemma CoveredIsExact(t: Table, regs: seq<Registration>, k: nat, p: string, topic: string)
    requires SubsHold(t, regs) && AllNamed(regs) && ColonFree(p) && ColonFree(topic) && Covers(t, k, p, topic)
    ensures Exact(t, regs, k, p, topic)
    ensures exists i :: 0 <= i < |regs| && regs[i].pubsub == p && regs[i].topic == topic
  {
    hide KeyOf, First, Sort, StableSortOf, RulesOf, MadeFrom, IsFirst;
    var key := KeyOf(p, topic);
    assert Placed(t, k);
    SubOfKey(t, regs, p, topic);
    SortIsStable(RulesOf(regs, key));
    FirstIsThere(regs, First(regs, key), p, topic);
  }

  lemma FirstIsThere(regs: seq<Registration>, i: nat, p: string, topic: string)
    requires IsFirst(regs, i, p, topic)
    ensures exists j :: 0 <= j < |regs| && regs[j].pubsub == p && regs[j].topic == topic
  {
  }

  lemma SubOfKey(t: Table, regs: seq<Registration>, p: string, topic: string)
    requires SubsHold(t, regs) && AllNamed(regs) && ColonFree(p) && ColonFree(topic) && KeyOf(p, topic) in t.position
    ensures var key := KeyOf(p, topic);
      var k, i := t.position[key], First(regs, key);
      k < |t.subs| && IsFirst(regs, i, p, topic) && MadeFrom(t, k, regs[i], p, topic) && t.rules[k] == Sort(RulesOf(regs, key))
  {
    hide KeyOf, First, Sort, RulesOf;
    var key := KeyOf(p, topic);
    var i := First(regs, key);
    assert SubHolds(t, t.position[key], regs, key);
    assert Named(regs[i]);
    KeysTell(p, topic, "", regs[i].pubsub, regs[i].topic, "");
    forall j | 0 <= j < i ensures !(regs[j].pubsub == p && regs[j].topic == topic) {
      assert regs[j].TopicKey() != key;
    }
  }

  /** The rules of a topic are those of its registrations: priority, match, and as path the handler's name, or
      the match for a handler without one. */
  lemma {:induction false} RulesAreRegistered(regs: seq<Registration>, p: string, topic: string, r: Ranked)
    requires AllNamed(regs) && ColonFree(p) && ColonFree(topic)
    ensures r in RulesOf(regs, KeyOf(p, topic)) <==>
            exists i :: 0 <= i < |regs| && regs[i].pubsub == p && regs[i].topic == topic && HasRule(regs[i], r)
  {
    hide KeyOf;
    if regs != [] {
      var n := |regs| - 1;
      RulesAreRegistered(regs[..n], p, topic, r);
      assert Named(regs[n]);
      KeysTell(p, topic, "", regs[n].pubsub, regs[n].topic, "");
      assert r in regs[n].Rules() <==> HasRule(regs[n], r);
    }
  }

  predicate HasRule(reg: Registration, r: Ranked) {
    && reg.rule.Some? && r.0 == reg.rule.value.priority && r.1.match_ == reg.rule.value.match_
    && r.1.path == if reg.cb.name.Some? then reg.cb.name.value else reg.rule.value.match_
  }

  // Where an event goes that has no handler of its own -------------------------

  /** A handler without a rule is on its topic; one with a rule on its own name or, without one, on the match. */
  predicate OnRoute(reg: Registration, p: string, route: string) {
    && reg.pubsub == p
    && match reg.rule
       case None => reg.topic == route
       case Some(rule) => if reg.cb.name.Some? then reg.cb.name.value == route else rule.match_ == route
  }

  predicate LastRouted(regs: seq<Registration>, i: nat, p: string, route: string) {
    && i < |regs| && OnRoute(regs[i], p, route)
    && forall j :: i < j < |regs| ==> !OnRoute(regs[j], p, route)
  }

  lemma {:induction false} LastOnIs(regs: seq<Registration>, p: string, route: string, i: nat)
    requires LastRouted(regs, i, p, route)
    ensures LastOn(regs, p, route) == Some(regs[i].cb)
  {
    var n := |regs| - 1;
    if i < n {
      assert !OnRoute(regs[n], p, route);
      LastOnIs(regs[..n], p, route, i);
    }
  }

  lemma {:induction false} NoneOn(regs: seq<Registration>, p: string, route: string)
    requires forall j :: 0 <= j < |regs| ==> !OnRoute(regs[j], p, route)
    ensures LastOn(regs, p, route) == None
  {
    if regs != [] { NoneOn(regs[..|regs| - 1], p, route); }
  }

  /** An event with no handler of its own goes to the one last registered on its path, which is that of a rule
      or, without one, the topic. */
  lemma RouteAnswers(regs: seq<Registration>, p: string, topic: string, path: string, i: nat)
    requires Exactly(regs, LookupKey(p, topic, path)).None? && LastRouted(regs, i, p, path)
    ensures Handler(regs, p, topic, path) == Some(regs[i].cb)
  {
    LastOnIs(regs, p, path, i);
  }

  /** Without a path it goes, failing that, to the one last registered on its topic. */
  lemma TopicAnswers(regs: seq<Registration>, p: string, topic: string, i: nat)
    requires Exactly(regs, LookupKey(p, topic, "")).None? && LastRouted(regs, i, p, topic)
    requires forall j :: 0 <= j < |regs| ==> !OnRoute(regs[j], p, "")
    ensures Handler(regs, p, topic, "") == Some(regs[i].cb)
  {
    NoneOn(regs, p, "");
    LastOnIs(regs, p, topic, i);
  }

  /** And failing that to the one handler of its pubsub that asked for no validation, if there is just one;
      with a path, to none. */
  lemma {:induction false} UnvalidatedIs(regs: seq<Registration>, p: string, i: nat)
    requires i < |regs| && regs[i].pubsub == p && regs[i].noValidation
    requires forall j :: 0 <= j < |regs| && j != i ==> !(regs[j].pubsub == p && regs[j].noValidation)
    ensures Unvalidated(regs, p) == [regs[i].cb]
  {
    var n := |regs| - 1;
    if i < n {
      UnvalidatedIs(regs[..n], p, i);
    } else {
      NoneUnvalidated(regs[..n], p);
    }
  }

  lemma {:induction false} NoneUnvalidated(regs: seq<Registration>, p: string)
    requires forall j :: 0 <= j < |regs| ==> !(regs[j].pubsub == p && regs[j].noValidation)
    ensures Unvalidated(regs, p) == []
  {
    if regs != [] { NoneUnvalidated(regs[..|regs| - 1], p); }
  }

  lemma UnvalidatedAnswers(regs: seq<Registration>, p: string, topic: string, path: string, i: nat)
    requires Exactly(regs, LookupKey(p, topic, path)).None?
    requires forall j :: 0 <= j < |regs| ==> !OnRoute(regs[j], p, path) && !OnRoute(regs[j], p, topic)
    requires i < |regs| && regs[i].pubsub == p && regs[i].noValidation
    requires forall j :: 0 <= j < |regs| && j != i ==> !(regs[j].pubsub == p && regs[j].noValidation)
    ensures Handler(regs, p, topic, path) == if path == "" then Some(regs[i].cb) else None
  {
    NoneOn(regs, p, path);
    NoneOn(regs, p, topic);
    UnvalidatedIs(regs, p, i);
  }
}
