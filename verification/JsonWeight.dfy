/** How much text a value needs.  A character weighs as much as its escape would take, and one that must be
    escaped weighs one, as it stands; so printed text weighs its length, and no text from which a value is
    read weighs less than the value when printed. */
module JsonWeight {
  import opened Wrappers
  import opened Decimals
  import opened Json
  import opened JsonPrinting

  predicate Special(c: char) { c == '\"' || c == '\\' || c < ' ' }

  function CharWeight(ascii: bool, c: char): nat { if Special(c) then 1 else |EscapeChar(ascii, c)| }

  function Weight(ascii: bool, s: string): nat { if s == [] then 0 else CharWeight(ascii, s[0]) + Weight(ascii, s[1..]) }

  lemma EscapeCharSize(ascii: bool, c: char)
    ensures 1 <= |EscapeChar(ascii, c)| <= 12
    ensures c as nat < 0x1_0000 ==> |EscapeChar(ascii, c)| <= 6
    ensures Letter(c).Some? ==> |EscapeChar(ascii, c)| == 2
    ensures Special(c) ==> 2 <= |EscapeChar(ascii, c)|
  {
  }

  lemma {:induction false} WeightAppend(ascii: bool, a: string, b: string)
    ensures Weight(ascii, a + b) == Weight(ascii, a) + Weight(ascii, b)
    decreases |a|
  {
    if a == [] {
      assert a + b == b;
    } else {
      assert (a + b)[1..] == a[1..] + b;
      WeightAppend(ascii, a[1..], b);
    }
  }

  lemma {:induction false} WeightAtLeast(ascii: bool, s: string)
    ensures |s| <= Weight(ascii, s)
  {
    if s != [] {
      EscapeCharSize(ascii, s[0]);
      WeightAtLeast(ascii, s[1..]);
    }
  }

  lemma WeightSplits(ascii: bool, s: string, n: nat)
    requires n <= |s|
    ensures n + Weight(ascii, s[n..]) <= Weight(ascii, s)
  {
    assert s == s[..n] + s[n..];
    WeightAppend(ascii, s[..n], s[n..]);
    WeightAtLeast(ascii, s[..n]);
  }

  /** A string weighs no more than its escaped form takes, and as much only if nothing in it is escaped for
      being special. */
  lemma {:induction false} RawWeight(ascii: bool, s: string)
    ensures Weight(ascii, s) <= |Escape(ascii, s)|
    ensures Weight(ascii, s) == |Escape(ascii, s)| <==> NeedsNoEscape(s)
  {
    if s != [] {
      EscapeCharSize(ascii, s[0]);
      RawWeight(ascii, s[1..]);
      assert NeedsNoEscape(s) <==> !Special(s[0]) && NeedsNoEscape(s[1..]) by {
        assert forall i :: 1 <= i < |s| ==> s[i] == s[1..][i - 1];
      }
    }
  }

  // --- Reading strings and numbers ------------------------------------------------------------------

  lemma UnicodeReadSize(s: string, c: char, n: nat)
    requires ReadUnicode(s) == Some((c, n))
    ensures (n == 5 && c as nat < 0x1_0000) || n == 11
  {
    hide Hex4, Astral;
  }

  lemma UnletterSize(ascii: bool, l: char)
    requires Unletter(l).Some?
    ensures |EscapeChar(ascii, Unletter(l).value)| <= 2
  {
  }

  lemma EscapeReadSize(ascii: bool, s: string, c: char, n: nat)
    requires ReadEscape(s) == Some((c, n))
    ensures |EscapeChar(ascii, c)| <= 1 + n <= 1 + |s|
  {
    hide EscapeChar, Unletter, ReadUnicode;
    EscapeCharSize(ascii, c);
    if s[0] == 'u' { UnicodeReadSize(s[1..], c, n); } else { UnletterSize(ascii, s[0]); }
  }

  lemma {:induction false} StringWeight(ascii: bool, text: string, s: string, rest: string)
    requires ReadString(text) == Some((s, rest))
    ensures |Escape(ascii, s)| + 1 + Weight(ascii, rest) <= Weight(ascii, text)
    decreases |text|
  {
    hide EscapeChar, ReadEscape;
    if text[0] == '\"' {
    } else if text[0] == '\\' {
      var (c, n) := ReadEscape(text[1..]).value;
      EscapeReadSize(ascii, text[1..], c, n);
      WeightSplits(ascii, text, 1 + n);
      StringWeight(ascii, text[1 + n..], s[1..], rest);
    } else {
      StringWeight(ascii, text[1..], s[1..], rest);
    }
  }

  lemma {:induction false} DecimalSize(s: string)
    requires s != [] && AllDigits(s)
    ensures |Decimal(NatOf(s))| <= |s|
  {
    var n := |s| - 1;
    if n > 0 { DecimalSize(s[..n]); }
  }

  lemma IntSize(l: string)
    requires l != [] && ScanInt(l) == |l|
    ensures |PrintInt(IntOf(l))| <= |l|
  {
    hide Decimal, NatOf;
    if l[0] == '-' {
      assert l[1..][..ScanNat(l[1..])] == l[1..];
      DecimalSize(l[1..]);
    } else {
      assert l[..ScanNat(l)] == l;
      DecimalSize(l);
    }
  }

  lemma NumberSize(ascii: bool, s: string, j: Json, rest: string)
    requires ReadNumber(s) == Some((j, rest))
    ensures var n := |s| - |rest|; 0 <= n && rest == s[n..] && |Print(ascii, j)| <= n
  {
    hide PrintInt, IntOf, ScanFraction, ScanExponent, ScanInt;
    if j.JInt? {
      ScanIntPrefix(s);
      IntSize(s[..ScanInt(s)]);
    }
  }

  lemma NumberWeight(ascii: bool, s: string, j: Json, rest: string)
    requires ReadNumber(s) == Some((j, rest))
    ensures |Print(ascii, j)| + Weight(ascii, rest) <= Weight(ascii, s)
  {
    hide ReadNumber, Print, Weight;
    NumberSize(ascii, s, j, rest);
    WeightSplits(ascii, s, |s| - |rest|);
  }

  lemma {:induction false} SkipWeight(ascii: bool, s: string)
    ensures Weight(ascii, SkipWhite(s)) <= Weight(ascii, s)
  {
    if s != [] && IsWhite(s[0]) { SkipWeight(ascii, s[1..]); }
  }

  // --- What arrays and objects take -----------------------------------------------------------------

  /** Each item with the comma or bracket after it, each member with its colon and the comma or brace. */
  function ItemsCost(ascii: bool, items: seq<Json>): nat {
    if items == [] then 0 else |Print(ascii, items[0])| + 1 + ItemsCost(ascii, items[1..])
  }

  function MemberCost(ascii: bool, m: (string, Json)): nat { |Quote(ascii, m.0)| + 1 + |Print(ascii, m.1)| + 1 }

  function MembersCost(ascii: bool, ms: seq<(string, Json)>): nat {
    if ms == [] then 0 else MemberCost(ascii, ms[0]) + MembersCost(ascii, ms[1..])
  }

  lemma JoinSize(texts: seq<string>)
    requires texts != []
    ensures |Join(texts)| + 1 == |texts[0]| + 1 + if |texts| == 1 then 0 else |Join(texts[1..])| + 1
  {
  }

  function ItemTexts(ascii: bool, items: seq<Json>): seq<string> {
    seq(|items|, i requires 0 <= i < |items| => Print(ascii, items[i]))
  }

  lemma {:induction false} ItemsSize(ascii: bool, items: seq<Json>)
    requires items != []
    ensures |Join(ItemTexts(ascii, items))| + 1 == ItemsCost(ascii, items)
    decreases |items|
  {
    hide Print, Join;
    var texts := ItemTexts(ascii, items);
    JoinSize(texts);
    if |items| > 1 {
      ItemsSize(ascii, items[1..]);
      assert texts[1..] == ItemTexts(ascii, items[1..]);
    }
  }

  lemma ArraySize(ascii: bool, items: seq<Json>)
    ensures |Print(ascii, JArray(items))| == if items == [] then 2 else 1 + ItemsCost(ascii, items)
  {
    assert Print(ascii, JArray(items)) == "[" + Join(ItemTexts(ascii, items)) + "]";
    if items != [] { ItemsSize(ascii, items); }
  }

  function MemberTexts(ascii: bool, ms: seq<(string, Json)>): seq<string> {
    seq(|ms|, i requires 0 <= i < |ms| => Member(Quote(ascii, ms[i].0), Print(ascii, ms[i].1)))
  }

  lemma {:induction false} MembersSize(ascii: bool, ms: seq<(string, Json)>)
    requires ms != []
    ensures |Join(MemberTexts(ascii, ms))| + 1 == MembersCost(ascii, ms)
    decreases |ms|
  {
    hide Print, Join, Quote;
    var texts := MemberTexts(ascii, ms);
    JoinSize(texts);
    if |ms| > 1 {
      MembersSize(ascii, ms[1..]);
      assert texts[1..] == MemberTexts(ascii, ms[1..]);
    }
  }

  lemma ObjectSize(ascii: bool, ms: seq<(string, Json)>)
    ensures |Print(ascii, JObject(ms))| == if ms == [] then 2 else 1 + MembersCost(ascii, ms)
  {
    PrintedObject(ascii, ms);
    if ms != [] { MembersSize(ascii, ms); }
  }

  lemma PrintedObject(ascii: bool, ms: seq<(string, Json)>)
    ensures Print(ascii, JObject(ms)) == "{" + Join(MemberTexts(ascii, ms)) + "}"
  {
    hide Join, Quote;
    assert MemberTexts(ascii, ms) == seq(|ms|, i requires 0 <= i < |ms| =>
      assert ms[i] in ms; Member(Quote(ascii, ms[i].0), Print(ascii, ms[i].1)));
  }

  lemma {:induction false} MembersAppend(ascii: bool, a: seq<(string, Json)>, b: seq<(string, Json)>)
    ensures MembersCost(ascii, a + b) == MembersCost(ascii, a) + MembersCost(ascii, b)
    decreases |a|
  {
    hide MemberCost;
    if a == [] {
      assert a + b == b;
    } else {
      assert (a + b)[1..] == a[1..] + b;
      MembersAppend(ascii, a[1..], b);
    }
  }

  lemma MembersReplace(ascii: bool, d: seq<(string, Json)>, i: nat, m: (string, Json))
    requires i < |d|
    ensures MembersCost(ascii, d[i := m]) + MemberCost(ascii, d[i]) == MembersCost(ascii, d) + MemberCost(ascii, m)
  {
    hide MemberCost;
    assert d == d[..i] + ([d[i]] + d[i + 1..]) && d[i := m] == d[..i] + ([m] + d[i + 1..]);
    MembersAppend(ascii, d[..i], [d[i]] + d[i + 1..]);
    MembersAppend(ascii, d[..i], [m] + d[i + 1..]);
  }

  /** A dictionary takes no more than the members it was read from. */
  lemma {:induction false} DictCost(ascii: bool, ms: seq<(string, Json)>)
    ensures MembersCost(ascii, AsDict(ms)) <= MembersCost(ascii, ms) && DistinctKeys(AsDict(ms))
    ensures AsDict(ms) == [] <==> ms == []
  {
    hide MemberCost, MembersCost;
    if ms != [] {
      var n := |ms| - 1;
      var d, last := AsDict(ms[..n]), ms[n];
      DictCost(ascii, ms[..n]);
      assert ms == ms[..n] + [last];
      MembersAppend(ascii, ms[..n], [last]);
      MembersAppend(ascii, d, [last]);
      OneMember(ascii, last);
      if i: nat :| i < |d| && d[i].0 == last.0 {
        assert AsDict(ms) == d[i := last];
        MembersReplace(ascii, d, i, last);
      }
    }
  }

  lemma OneMember(ascii: bool, m: (string, Json))
    ensures MembersCost(ascii, [m]) == MemberCost(ascii, m)
  {
    assert [m][1..] == [];
  }

  // --- Reading values -------------------------------------------------------------------------------

  /** Any text a value is read from weighs as much as the value when printed, at least. */
  lemma {:induction false} ValueWeight(ascii: bool, s: string, j: Json, rest: string)
    requires ReadValue(s) == Some((j, rest))
    ensures |Print(ascii, j)| + Weight(ascii, rest) <= Weight(ascii, s)
    decreases |s|, 1
  {
    hide ReadString, ReadNumber, ReadItems, ReadMembers, Escape, Print, Weight;
    if s[0] == '\"' {
      StringWeight(ascii, s[1..], j.s, rest);
      PrintedString(ascii, j.s);
      WeightSplits(ascii, s, 1);
    } else if s[0] == '[' {
      ArrayWeight(ascii, s, j, rest);
    } else if s[0] == '{' {
      ObjectWeight(ascii, s, j, rest);
    } else if s[0] == '-' || IsDigit(s[0]) {
      NumberWeight(ascii, s, j, rest);
    } else {
      PrintedWord(ascii, j);
      WeightSplits(ascii, s, |s| - |rest|);
    }
  }

  lemma {:induction false} ArrayWeight(ascii: bool, s: string, j: Json, rest: string)
    requires ReadValue(s) == Some((j, rest)) && s[0] == '['
    ensures |Print(ascii, j)| + Weight(ascii, rest) <= Weight(ascii, s)
    decreases |s|, 0
  {
    hide ReadString, ReadNumber, ReadItems, ReadMembers, Print, Weight;
    var t := SkipWhite(s[1..]);
    SkipWeight(ascii, s[1..]);
    WeightSplits(ascii, s, 1);
    ArraySize(ascii, j.items);
    if t != [] && t[0] == ']' {
      WeightSplits(ascii, t, 1);
    } else {
      ItemsWeight(ascii, t, j.items, rest);
    }
  }

  lemma {:induction false} ObjectWeight(ascii: bool, s: string, j: Json, rest: string)
    requires ReadValue(s) == Some((j, rest)) && s[0] == '{'
    ensures |Print(ascii, j)| + Weight(ascii, rest) <= Weight(ascii, s)
    decreases |s|, 0
  {
    hide ReadString, ReadNumber, ReadItems, ReadMembers, Print, Weight;
    var t := SkipWhite(s[1..]);
    SkipWeight(ascii, s[1..]);
    WeightSplits(ascii, s, 1);
    ObjectSize(ascii, j.members);
    if t != [] && t[0] == '}' {
      WeightSplits(ascii, t, 1);
    } else {
      var ms := ReadMembers(t).value.0;
      MembersWeight(ascii, t, ms, rest);
      DictCost(ascii, ms);
    }
  }

  lemma PrintedString(ascii: bool, s: string)
    ensures |Print(ascii, JString(s))| == |Escape(ascii, s)| + 2
  {
  }

  lemma PrintedWord(ascii: bool, j: Json)
    ensures j.JNull? ==> |Print(ascii, j)| == 4
    ensures j.JBool? ==> |Print(ascii, j)| == if j.b then 4 else 5
  {
  }

  lemma {:induction false} ItemsWeight(ascii: bool, s: string, items: seq<Json>, rest: string)
    requires ReadItems(s) == Some((items, rest))
    ensures items != [] && ItemsCost(ascii, items) + Weight(ascii, rest) <= Weight(ascii, s)
    decreases |s|, 2
  {
    hide ReadValue, Print;
    var (item, after) := ReadValue(s).value;
    ValueWeight(ascii, s, item, after);
    var t := SkipWhite(after);
    SkipWeight(ascii, after);
    WeightSplits(ascii, t, 1);
    if t[0] == ',' {
      SkipWeight(ascii, t[1..]);
      ItemsWeight(ascii, SkipWhite(t[1..]), items[1..], rest);
    }
  }

  lemma {:induction false} MembersWeight(ascii: bool, s: string, ms: seq<(string, Json)>, rest: string)
    requires ReadMembers(s) == Some((ms, rest))
    ensures ms != [] && MembersCost(ascii, ms) + Weight(ascii, rest) <= Weight(ascii, s)
    decreases |s|, 2
  {
    hide ReadValue, ReadString, Print, Escape;
    var (key, after) := ReadString(s[1..]).value;
    WeightSplits(ascii, s, 1);
    StringWeight(ascii, s[1..], key, after);
    var t := SkipWhite(after);
    SkipWeight(ascii, after);
    WeightSplits(ascii, t, 1);
    SkipWeight(ascii, t[1..]);
    var (value, after') := ReadValue(SkipWhite(t[1..])).value;
    ValueWeight(ascii, SkipWhite(t[1..]), value, after');
    var u := SkipWhite(after');
    SkipWeight(ascii, after');
    WeightSplits(ascii, u, 1);
    if u[0] == ',' {
      SkipWeight(ascii, u[1..]);
      MembersWeight(ascii, SkipWhite(u[1..]), ms[1..], rest);
    }
  }

  lemma LoadsWeight(ascii: bool, text: string, j: Json)
    requires Loads(text) == Some(j)
    ensures |Print(ascii, j)| <= Weight(ascii, text)
  {
    hide ReadValue, Print;
    SkipWeight(ascii, text);
    ValueWeight(ascii, SkipWhite(text), j, ReadValue(SkipWhite(text)).value.1);
  }
}
