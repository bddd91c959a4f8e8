/** Rules sorted by priority, those of equal priority in the order they came. */
module TopicRules {

  datatype TopicRule = TopicRule(match_: string, path: string)
  type Ranked = (int, TopicRule)

  predicate Ascending(rules: seq<Ranked>) { forall i, j :: 0 <= i < j < |rules| ==> rules[i].0 <= rules[j].0 }

  /** The rules of one priority, in their order. */
  function Of(rules: seq<Ranked>, priority: int): seq<Ranked> {
    if rules == [] then []
    else if rules[|rules| - 1].0 == priority then Of(rules[..|rules| - 1], priority) + [rules[|rules| - 1]]
    else Of(rules[..|rules| - 1], priority)
  }

  /** Put after every rule of its priority or a lower one. */
  function Insert(rules: seq<Ranked>, r: Ranked): seq<Ranked> {
    if rules == [] || rules[|rules| - 1].0 <= r.0 then rules + [r]
    else Insert(rules[..|rules| - 1], r) + [rules[|rules| - 1]]
  }

  function Sort(rules: seq<Ranked>): seq<Ranked> {
    if rules == [] then [] else Insert(Sort(rules[..|rules| - 1]), rules[|rules| - 1])
  }

  ghost predicate StableSortOf(sorted: seq<Ranked>, rules: seq<Ranked>) {
    Ascending(sorted) && forall p :: Of(sorted, p) == Of(rules, p)
  }

  lemma OfAppend(rules: seq<Ranked>, r: Ranked, p: int)
    ensures Of(rules + [r], p) == if r.0 == p then Of(rules, p) + [r] else Of(rules, p)
  {
  }

  lemma {:induction false} OneOf(rules: seq<Ranked>, p: int) returns (i: nat)
    requires Of(rules, p) != []
    ensures i < |rules| && rules[i].0 == p
  {
    i := |rules| - 1;
    if rules[i].0 != p { i := OneOf(rules[..i], p); }
  }

  lemma {:induction false} InsertBounds(rules: seq<Ranked>, r: Ranked)
    requires Ascending(rules)
    ensures Ascending(Insert(rules, r))
    ensures forall i :: 0 <= i < |Insert(rules, r)| ==> Insert(rules, r)[i] == r || Insert(rules, r)[i] in rules
  {
    if rules != [] && rules[|rules| - 1].0 > r.0 { InsertBounds(rules[..|rules| - 1], r); }
  }

  lemma {:induction false} InsertIsLastOfItsPriority(rules: seq<Ranked>, r: Ranked, p: int)
    requires Ascending(rules)
    ensures Of(Insert(rules, r), p) == if r.0 == p then Of(rules, p) + [r] else Of(rules, p)
  {
    hide Of;
    if rules == [] || rules[|rules| - 1].0 <= r.0 {
      OfAppend(rules, r, p);
    } else {
      var n := |rules| - 1;
      InsertIsLastOfItsPriority(rules[..n], r, p);
      OfAppend(Insert(rules[..n], r), rules[n], p);
      OfLast(rules, p);
    }
  }

  lemma {:induction false} SortIsStable(rules: seq<Ranked>)
    ensures StableSortOf(Sort(rules), rules)
  {
    if rules != [] {
      var n := |rules| - 1;
      var sorted := Sort(rules[..n]);
      SortIsStable(rules[..n]);
      InsertBounds(sorted, rules[n]);
      forall p ensures Of(Sort(rules), p) == Of(rules, p) {
        InsertIsLastOfItsPriority(sorted, rules[n], p);
      }
    }
  }

  /** Being sorted, with the rules of each priority in their order, leaves one list only. */
  lemma {:induction false} StableSortIsUnique(a: seq<Ranked>, b: seq<Ranked>)
    requires Ascending(a) && Ascending(b) && forall p :: Of(a, p) == Of(b, p)
    ensures a == b
    decreases |a|
  {
    hide Of;
    if a != [] {
      SameLast(a, b);
      var n, m := |a| - 1, |b| - 1;
      forall p ensures Of(a[..n], p) == Of(b[..m], p) { SameButLast(a, b, p); }
      StableSortIsUnique(a[..n], b[..m]);
      assert a == a[..n] + [a[n]] && b == b[..m] + [b[m]];
    } else if b != [] {
      LastIsLeast(b, a);
    }
  }

  lemma OfLast(rules: seq<Ranked>, p: int)
    requires rules != []
    ensures var n := |rules| - 1; Of(rules, p) == if rules[n].0 == p then Of(rules[..n], p) + [rules[n]] else Of(rules[..n], p)
  {
  }

  lemma SameEnds<T>(x: seq<T>, a: T, y: seq<T>, b: T)
    requires x + [a] == y + [b]
    ensures x == y && a == b
  {
    assert (x + [a])[..|x|] == x && (y + [b])[..|y|] == y;
    assert (x + [a])[|x|] == a && (y + [b])[|y|] == b;
  }

  lemma SameButLast(a: seq<Ranked>, b: seq<Ranked>, p: int)
    requires a != [] && b != [] && a[|a| - 1] == b[|b| - 1] && Of(a, p) == Of(b, p)
    ensures Of(a[..|a| - 1], p) == Of(b[..|b| - 1], p)
  {
  }

  /** The last rule's priority is one that the other list has too, so it cannot be beyond its last. */
  lemma LastIsLeast(a: seq<Ranked>, b: seq<Ranked>)
    requires a != [] && Ascending(b) && Of(a, a[|a| - 1].0) == Of(b, a[|a| - 1].0)
    ensures b != [] && a[|a| - 1].0 <= b[|b| - 1].0
  {
    hide Of;
    var p := a[|a| - 1].0;
    OfLast(a, p);
    var i := OneOf(b, p);
  }

  lemma SameLast(a: seq<Ranked>, b: seq<Ranked>)
    requires Ascending(a) && Ascending(b) && (forall p :: Of(a, p) == Of(b, p)) && a != []
    ensures b != [] && a[|a| - 1] == b[|b| - 1]
  {
    hide Of;
    LastIsLeast(a, b);
    LastIsLeast(b, a);
    var p := a[|a| - 1].0;
    OfLast(a, p);
    OfLast(b, p);
    SameEnds(Of(a[..|a| - 1], p), a[|a| - 1], Of(b[..|b| - 1], p), b[|b| - 1]);
  }

  /** Sorting what was sorted, with one more at the end, is sorting them all. */
  lemma SortAgain(rules: seq<Ranked>, r: Ranked)
    ensures Sort(Sort(rules) + [r]) == Sort(rules + [r])
  {
    SortIsStable(rules);
    SortIsStable(rules + [r]);
    SortIsStable(Sort(rules) + [r]);
    forall p ensures Of(Sort(Sort(rules) + [r]), p) == Of(Sort(rules + [r]), p) {
      OfAppend(rules, r, p);
      OfAppend(Sort(rules), r, p);
    }
    StableSortIsUnique(Sort(Sort(rules) + [r]), Sort(rules + [r]));
  }
}
