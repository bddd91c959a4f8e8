/**
  Topic subscriptions registered one after another, what is advertised for them
  and which handler an event finds. The specification is the list of
  registrations that were accepted.
*/
module TopicRouter {
  import opened Wrappers
  import opened TopicRules

  /** A handler; a function has a name, other callables need not. */
  datatype Callback = Callback(id: int, name: Option<string>)
  datatype Rule = Rule(match_: string, priority: int)

  datatype Registration = Registration(
    pubsub: string, topic: string, cb: Callback, metadata: map<string, string>,
    deadLetter: string, rule: Option<Rule>, noValidation: bool)
  {
    function Path(): string {
      if rule.None? then "" else if cb.name.Some? then cb.name.value else rule.value.match_
    }
    function Route(): string { if rule.None? then topic else Path() }
    function TopicKey(): string { KeyOf(pubsub, topic) }
    function Key(): string { LookupKey(pubsub, topic, Path()) }
    function Rules(): seq<Ranked> {
      if rule.None? then [] else [(rule.value.priority, TopicRule(rule.value.match_, Path()))]
    }
  }

  function KeyOf(pubsub: string, topic: string): string { pubsub + ":" + topic }
  function LookupKey(pubsub: string, topic: string, path: string): string { KeyOf(pubsub, topic) + ":" + path }

  datatype Subscription = Subscription(
    pubsub: string, topic: string, metadata: map<string, string>, deadLetter: string,
    default: string, advertised: seq<TopicRule>)

  datatype Table = Table(
    topicMap: map<string, Callback>,
    routeMap: map<(string, string), Callback>,
    disabled: map<string, seq<Callback>>,
    position: map<string, nat>,
    subs: seq<Subscription>,
    rules: seq<seq<Ranked>>)

  const Empty := Table(map[], map[], map[], map[], [], [])

  function Header(reg: Registration): Subscription {
    Subscription(reg.pubsub, reg.topic, reg.metadata, reg.deadLetter,
                 if reg.noValidation && reg.rule.None? then reg.topic else "", [])
  }

  function Bare(rules: seq<Ranked>): seq<TopicRule> {
    seq(|rules|, i requires 0 <= i < |rules| => rules[i].1)
  }

  // What a list of accepted registrations means ------------------------------

  ghost predicate Unrepeated(regs: seq<Registration>) {
    forall i, j :: 0 <= i < j < |regs| ==> regs[i].Key() != regs[j].Key()
  }

  /** The first registration of a topic, or the length of the list. */
  function First(regs: seq<Registration>, topicKey: string): (i: nat)
    ensures i <= |regs|
    ensures i < |regs| ==> regs[i].TopicKey() == topicKey
    ensures forall j :: 0 <= j < i ==> regs[j].TopicKey() != topicKey
  {
    if regs == [] || regs[0].TopicKey() == topicKey then 0 else 1 + First(regs[1..], topicKey)
  }

  /** The rules registered for a topic, in the order they came. */
  function RulesOf(regs: seq<Registration>, topicKey: string): seq<Ranked> {
    if regs == [] then []
    else
      var n := |regs| - 1;
      if regs[n].TopicKey() == topicKey then RulesOf(regs[..n], topicKey) + regs[n].Rules() else RulesOf(regs[..n], topicKey)
  }

  /** The handlers of one pubsub that asked for no validation, in the order they came. */
  function Unvalidated(regs: seq<Registration>, pubsub: string): seq<Callback> {
    if regs == [] then []
    else
      var n := |regs| - 1;
      if regs[n].pubsub == pubsub && regs[n].noValidation then Unvalidated(regs[..n], pubsub) + [regs[n].cb]
      else Unvalidated(regs[..n], pubsub)
  }

  /** The handler last registered on this route. */
  function LastOn(regs: seq<Registration>, pubsub: string, route: string): Option<Callback> {
    if regs == [] then None
    else
      var n := |regs| - 1;
      if regs[n].pubsub == pubsub && regs[n].Route() == route then Some(regs[n].cb) else LastOn(regs[..n], pubsub, route)
  }

  function Exactly(regs: seq<Registration>, key: string): Option<Callback> {
    if regs == [] then None
    else if regs[0].Key() == key then Some(regs[0].cb)
    else Exactly(regs[1..], key)
  }

  /** The handler an event finds: its own, else the route's, else, without a path, the topic's or the only unvalidated one. */
  function Handler(regs: seq<Registration>, pubsub: string, topic: string, path: string): Option<Callback> {
    var exact, route, named := Exactly(regs, LookupKey(pubsub, topic, path)), LastOn(regs, pubsub, path), LastOn(regs, pubsub, topic);
    var open := Unvalidated(regs, pubsub);
    if exact.Some? then exact
    else if route.Some? then route
    else if path != "" then None
    else if named.Some? then named
    else if |open| == 1 then Some(open[0])
    else None
  }

  /** The tables hold what the accepted registrations say. */
  ghost predicate Holds(t: Table, regs: seq<Registration>) {
    Unrepeated(regs) && MapsHold(t, regs) && SubsHold(t, regs)
  }

  ghost predicate MapsHold(t: Table, regs: seq<Registration>) {
    TopicsHold(t, regs) && RoutesHold(t, regs) && OpenHold(t, regs)
  }

  ghost predicate TopicsHold(t: Table, regs: seq<Registration>) {
    forall key :: Exactly(regs, key) == if key in t.topicMap then Some(t.topicMap[key]) else None
  }

  ghost predicate RoutesHold(t: Table, regs: seq<Registration>) {
    forall p, route :: LastOn(regs, p, route) == if (p, route) in t.routeMap then Some(t.routeMap[(p, route)]) else None
  }

  ghost predicate OpenHold(t: Table, regs: seq<Registration>) {
    forall p :: Unvalidated(regs, p) == if p in t.disabled then t.disabled[p] else []
  }

  predicate Shaped(t: Table) { |t.rules| == |t.subs| && forall key :: key in t.position ==> t.position[key] < |t.subs| }

  ghost predicate SubsHold(t: Table, regs: seq<Registration>) {
    Shaped(t)
    && (forall key :: key in t.position <==> First(regs, key) < |regs|)
    && (forall key :: key in t.position ==> SubHolds(t, t.position[key], regs, key))
    && (forall k :: 0 <= k < |t.subs| ==> Placed(t, k))
  }

  predicate Placed(t: Table, k: nat)
    requires k < |t.subs|
  {
    var key := KeyOf(t.subs[k].pubsub, t.subs[k].topic);
    key in t.position && t.position[key] == k
  }

  predicate SubHolds(t: Table, k: nat, regs: seq<Registration>, key: string)
    requires k < |t.subs| == |t.rules|
  {
    var first := First(regs, key);
    first < |regs|
    && t.rules[k] == Sort(RulesOf(regs, key))
    && t.subs[k] == Header(regs[first]).(advertised := Bare(t.rules[k]))
  }

  // One registration ---------------------------------------------------------

  function Add(t: Table, reg: Registration): Table
    requires Shaped(t)
  {
    var topicMap := t.topicMap[reg.Key() := reg.cb];
    var routeMap := t.routeMap[(reg.pubsub, reg.Route()) := reg.cb];
    var open := if reg.pubsub in t.disabled then t.disabled[reg.pubsub] else [];
    var disabled := if reg.noValidation then t.disabled[reg.pubsub := open + [reg.cb]] else t.disabled;
    var known := reg.TopicKey() in t.position;
    var position := if known then t.position else t.position[reg.TopicKey() := |t.subs|];
    var subs := if known then t.subs else t.subs + [Header(reg)];
    var rules := if known then t.rules else t.rules + [[]];
    var k := position[reg.TopicKey()];
    if reg.rule.None? then Table(topicMap, routeMap, disabled, position, subs, rules)
    else
      var sorted := Sort(rules[k] + reg.Rules());
      Table(topicMap, routeMap, disabled, position, subs[k := subs[k].(advertised := Bare(sorted))], rules[k := sorted])
  }

  lemma {:induction false} ExactlyAppend(regs: seq<Registration>, reg: Registration, key: string)
    ensures Exactly(regs + [reg], key)
         == if Exactly(regs, key).Some? then Exactly(regs, key) else if reg.Key() == key then Some(reg.cb) else None
  {
    if regs == [] {
      assert regs + [reg] == [reg] && [reg][1..] == [];
    } else {
      ExactlyAppend(regs[1..], reg, key);
      assert (regs + [reg])[1..] == regs[1..] + [reg];
    }
  }

  lemma {:induction false} FirstAppend(regs: seq<Registration>, reg: Registration, key: string)
    ensures First(regs + [reg], key)
         == if First(regs, key) < |regs| then First(regs, key) else if reg.TopicKey() == key then |regs| else |regs| + 1
  {
    if regs == [] {
      assert regs + [reg] == [reg] && [reg][1..] == [];
    } else {
      FirstAppend(regs[1..], reg, key);
      assert (regs + [reg])[1..] == regs[1..] + [reg];
    }
  }

  lemma RulesAppend(regs: seq<Registration>, reg: Registration, key: string)
    ensures RulesOf(regs + [reg], key) == if reg.TopicKey() == key then RulesOf(regs, key) + reg.Rules() else RulesOf(regs, key)
  {
  }

  lemma LastOnAppend(regs: seq<Registration>, reg: Registration, p: string, route: string)
    ensures LastOn(regs + [reg], p, route)
         == if reg.pubsub == p && reg.Route() == route then Some(reg.cb) else LastOn(regs, p, route)
  {
  }

  lemma {:induction false} ExactlyFinds(regs: seq<Registration>, key: string, i: nat)
    requires Unrepeated(regs) && i < |regs| && regs[i].Key() == key
    ensures Exactly(regs, key) == Some(regs[i].cb)
  {
    if i > 0 {
      assert regs[0].Key() != regs[i].Key();
      ExactlyFinds(regs[1..], key, i - 1);
    }
  }

  lemma AddKeepsTopics(t: Table, regs: seq<Registration>, reg: Registration)
    requires Shaped(t) && TopicsHold(t, regs) && Unrepeated(regs) && reg.Key() !in t.topicMap
    ensures TopicsHold(Add(t, reg), regs + [reg]) && Unrepeated(regs + [reg])
  {
    hide Exactly, KeyOf, LookupKey, Sort;
    forall key ensures Exactly(regs + [reg], key)
      == if key in Add(t, reg).topicMap then Some(Add(t, reg).topicMap[key]) else None
    {
      ExactlyAppend(regs, reg, key);
    }
    assert Exactly(regs, reg.Key()).None?;
    forall i | 0 <= i < |regs| ensures regs[i].Key() != reg.Key() {
      ExactlyFinds(regs, regs[i].Key(), i);
    }
  }

  lemma AddKeepsRoutes(t: Table, regs: seq<Registration>, reg: Registration)
    requires Shaped(t) && RoutesHold(t, regs)
    ensures RoutesHold(Add(t, reg), regs + [reg])
  {
    hide LastOn, KeyOf, LookupKey, Sort;
    var t' := Add(t, reg);
    forall p, route ensures LastOn(regs + [reg], p, route)
      == if (p, route) in t'.routeMap then Some(t'.routeMap[(p, route)]) else None
    {
      LastOnAppend(regs, reg, p, route);
    }
  }

  lemma AddKeepsOpen(t: Table, regs: seq<Registration>, reg: Registration)
    requires Shaped(t) && OpenHold(t, regs)
    ensures OpenHold(Add(t, reg), regs + [reg])
  {
  }

  /** The rules of one topic after one more registration. */
  lemma RulesGrow(regs: seq<Registration>, reg: Registration, key: string)
    ensures Sort(RulesOf(regs + [reg], key))
         == if reg.TopicKey() == key && reg.rule.Some? then Sort(Sort(RulesOf(regs, key)) + reg.Rules())
            else Sort(RulesOf(regs, key))
  {
    hide Sort;
    RulesAppend(regs, reg, key);
    if reg.TopicKey() == key && reg.rule.Some? {
      SortAgain(RulesOf(regs, key), reg.Rules()[0]);
    } else {
      assert RulesOf(regs, key) + [] == RulesOf(regs, key);
    }
  }

  lemma NoRules(regs: seq<Registration>, key: string)
    requires First(regs, key) == |regs|
    ensures Sort(RulesOf(regs, key)) == []
    decreases |regs|
  {
  }

  lemma SubIsKept(t: Table, regs: seq<Registration>, reg: Registration, key: string)
    requires SubsHold(t, regs) && key in Add(t, reg).position
    requires key != reg.TopicKey()
    ensures var t' := Add(t, reg);
      key in t.position && t'.position[key] == t.position[key] && SubHolds(t', t'.position[key], regs + [reg], key)
  {
    hide RulesOf, First, Sort, KeyOf, LookupKey;
    FirstAppend(regs, reg, key);
    RulesGrow(regs, reg, key);
    assert SubHolds(t, t.position[key], regs, key);
    if reg.TopicKey() in t.position {
      var j := t.position[reg.TopicKey()];
      assert SubHolds(t, j, regs, reg.TopicKey());
      assert KeyOf(t.subs[j].pubsub, t.subs[j].topic) == reg.TopicKey();
      var k := t.position[key];
      assert KeyOf(t.subs[k].pubsub, t.subs[k].topic) == key;
    }
  }

  lemma SubIsAdded(t: Table, regs: seq<Registration>, reg: Registration)
    requires SubsHold(t, regs)
    ensures var t', key := Add(t, reg), reg.TopicKey();
      key in t'.position && t'.position[key] < |t'.subs| == |t'.rules| && SubHolds(t', t'.position[key], regs + [reg], key)
  {
    hide RulesOf, First, Sort, KeyOf, LookupKey;
    var key := reg.TopicKey();
    FirstAppend(regs, reg, key);
    RulesGrow(regs, reg, key);
    if key in t.position {
      assert SubHolds(t, t.position[key], regs, key);
    } else {
      NoRules(regs, key);
      assert [] + reg.Rules() == reg.Rules();
    }
  }

  lemma AddKeepsShape(t: Table, reg: Registration)
    requires Shaped(t)
    ensures Shaped(Add(t, reg))
    ensures Add(t, reg).position.Keys == t.position.Keys + {reg.TopicKey()}
  {
    hide Sort, KeyOf, LookupKey;
  }

  lemma AddKeepsPlaces(t: Table, reg: Registration, k: nat)
    requires Shaped(t) && k < |Add(t, reg).subs| && (k < |t.subs| ==> Placed(t, k))
    ensures Placed(Add(t, reg), k)
  {
    hide Sort, KeyOf, LookupKey;
  }

  lemma AddKeepsSubs(t: Table, regs: seq<Registration>, reg: Registration)
    requires SubsHold(t, regs)
    ensures SubsHold(Add(t, reg), regs + [reg])
  {
    hide RulesOf, First, Sort, KeyOf, LookupKey, SubHolds, Add;
    var t' := Add(t, reg);
    AddKeepsShape(t, reg);
    forall key ensures key in t'.position <==> First(regs + [reg], key) < |regs + [reg]| {
      FirstAppend(regs, reg, key);
    }
    SubIsAdded(t, regs, reg);
    forall key | key in t'.position ensures SubHolds(t', t'.position[key], regs + [reg], key) {
      if key != reg.TopicKey() { SubIsKept(t, regs, reg, key); }
    }
    forall k | 0 <= k < |t'.subs| ensures Placed(t', k) { AddKeepsPlaces(t, reg, k); }
  }

  lemma AddHolds(t: Table, regs: seq<Registration>, reg: Registration)
    requires Holds(t, regs) && reg.Key() !in t.topicMap
    ensures Holds(Add(t, reg), regs + [reg])
  {
    hide TopicsHold, RoutesHold, OpenHold, Add, Unrepeated;
    AddKeepsTopics(t, regs, reg);
    AddKeepsRoutes(t, regs, reg);
    AddKeepsOpen(t, regs, reg);
    AddKeepsSubs(t, regs, reg);
  }
}
