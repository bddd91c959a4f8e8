/** Names joined by colons. */
module Names {

  predicate ColonFree(id: string) { forall i :: 0 <= i < |id| ==> id[i] != ':' }

  /** A colon-free name in front of a colon can be told from what follows. */
  lemma SplitAtColon(a: string, b: string, c: string, d: string)
    requires ColonFree(a) && ColonFree(c)
    ensures a + ":" + b == c + ":" + d ==> a == c && b == d
  {
    var s, t := a + ":" + b, c + ":" + d;
    assert s[|a|] == ':' && t[|c|] == ':';
    assert |a| < |c| ==> t[|a|] == c[|a|];
    assert |c| < |a| ==> s[|c|] == a[|c|];
    assert s[..|a|] == a && t[..|c|] == c;
    assert s[|a| + 1..] == b && t[|c| + 1..] == d;
  }
}
