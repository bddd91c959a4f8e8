/** Writing JSON, and that reading undoes it. */
module JsonPrinting {
  import opened Wrappers
  import opened Decimals
  import opened Json

  // --- Writing --------------------------------------------------------------------------------------

  function HexDigit(n: nat): (c: char)
    requires n < 16
    ensures IsHex(c) && HexValue(c) == n
  {
    "0123456789abcdef"[n]
  }

  function Unicode4(n: nat): string
    requires n < 0x1_0000
  {
    "\\u" + [HexDigit(n / 16 / 16 / 16), HexDigit(n / 16 / 16 % 16), HexDigit(n / 16 % 16), HexDigit(n % 16)]
  }

  /** The letter that stands for a character after a backslash. */
  function Letter(c: char): Option<char> {
    if c == '\"' || c == '\\' then Some(c)
    else if c as nat == 8 then Some('b')
    else if c as nat == 12 then Some('f')
    else if c == '\n' then Some('n')
    else if c == '\r' then Some('r')
    else if c == '\t' then Some('t')
    else None
  }

  function HighOf(c: char): nat
    requires c as nat >= 0x1_0000
  {
    0xD800 + (c as nat - 0x1_0000) / 1024
  }

  function LowOf(c: char): nat
    requires c as nat >= 0x1_0000
  {
    0xDC00 + (c as nat - 0x1_0000) % 1024
  }

  /** Control characters must be escaped; `ascii` asks for everything outside printable ASCII to be. */
  predicate Escaped(ascii: bool, c: char) { Letter(c).Some? || c < ' ' || (ascii && c > '~') }

  function EscapeChar(ascii: bool, c: char): string {
    if !Escaped(ascii, c) then [c]
    else if Letter(c).Some? then ['\\', Letter(c).value]
    else if c as nat < 0x1_0000 then Unicode4(c as nat)
    else Unicode4(HighOf(c)) + Unicode4(LowOf(c))
  }

  function Escape(ascii: bool, s: string): string {
    if s == [] then [] else EscapeChar(ascii, s[0]) + Escape(ascii, s[1..])
  }

  function Quote(ascii: bool, s: string): string { "\"" + Escape(ascii, s) + "\"" }

  function PrintInt(i: int): string {
    if i < 0 then "-" + Decimal(-i) else Decimal(i)
  }

  function Join(texts: seq<string>): string {
    if texts == [] then []
    else if |texts| == 1 then texts[0]
    else texts[0] + "," + Join(texts[1..])
  }

  function Member(key: string, value: string): string { key + ":" + value }

  function Print(ascii: bool, j: Json): string
    decreases j
  {
    match j
    case JNull => "null"
    case JBool(b) => if b then "true" else "false"
    case JInt(i) => PrintInt(i)
    case JFloat(lexeme) => lexeme
    case JString(s) => Quote(ascii, s)
    case JArray(items) =>
      "[" + Join(seq(|items|, i requires 0 <= i < |items| => Print(ascii, items[i]))) + "]"
    case JObject(ms) =>
      "{" + Join(seq(|ms|, i requires 0 <= i < |ms| =>
              assert ms[i] in ms; Member(Quote(ascii, ms[i].0), Print(ascii, ms[i].1)))) + "}"
  }

  // --- What a text says -------------------------------------------------------------------------------

  /** What may follow a value inside a text. */
  predicate Delimits(rest: string) { rest == [] || rest[0] in [',', ']', '}'] }

  /** The text is one value exactly, wherever it stands. */
  ghost predicate Says(text: string, j: Json) {
    && (text != [] && !IsWhite(text[0]) && text[0] != ']')
    && forall rest | Delimits(rest) :: ReadValue(text + rest) == Some((j, rest))
  }

  /** The text is one string exactly, up to and including its closing quote. */
  ghost predicate Spells(body: string, s: string) {
    forall rest :: ReadString(body + rest) == Some((s, rest))
  }

  lemma LoadsWhatItSays(text: string, j: Json)
    requires Says(text, j)
    ensures Loads(text) == Some(j)
  {
    assert text + [] == text;
    assert Delimits([]);
  }

  // --- Strings ------------------------------------------------------------------------------------------

  lemma Hex4OfUnicode4(n: nat, rest: string)
    requires n < 0x1_0000
    ensures |Unicode4(n)| == 6 && Unicode4(n)[0] == '\\' && Unicode4(n)[1] == 'u'
    ensures Hex4(Unicode4(n)[2..] + rest) == Some(n)
  {
  }

  lemma LetterIsRead(c: char, rest: string)
    requires Letter(c).Some?
    ensures ReadEscape([Letter(c).value] + rest) == Some((c, 1))
  {
  }

  lemma UnitIsRead(c: char, rest: string)
    requires c as nat < 0x1_0000
    ensures ReadUnicode(Unicode4(c as nat)[2..] + rest) == Some((c, 5))
  {
  }

  lemma PairIsRead(c: char, rest: string)
    requires c as nat >= 0x1_0000
    ensures ReadUnicode(Unicode4(HighOf(c))[2..] + (Unicode4(LowOf(c)) + rest)) == Some((c, 11))
  {
    var low := Unicode4(LowOf(c));
    var s := Unicode4(HighOf(c))[2..] + (low + rest);
    Hex4OfUnicode4(HighOf(c), low + rest);
    Hex4OfUnicode4(LowOf(c), rest);
    SixthOn(Unicode4(HighOf(c))[2..], low, rest);
    assert Astral(HighOf(c), LowOf(c)) == c;
  }

  lemma SixthOn(a: string, b: string, rest: string)
    requires |a| == 4 && |b| == 6
    ensures var s := a + (b + rest); s[4] == b[0] && s[5] == b[1] && s[6..] == b[2..] + rest
  {
  }

  /** What follows the backslash of an escape, up to the next character of the string. */
  function AfterBackslash(ascii: bool, c: char): string
    requires Escaped(ascii, c)
  {
    if Letter(c).Some? then [Letter(c).value]
    else if c as nat < 0x1_0000 then "u" + Unicode4(c as nat)[2..]
    else "u" + (Unicode4(HighOf(c))[2..] + Unicode4(LowOf(c)))
  }

  lemma EscapeCharIs(ascii: bool, c: char)
    requires Escaped(ascii, c)
    ensures EscapeChar(ascii, c) == "\\" + AfterBackslash(ascii, c)
  {
    hide Unicode4;
    if Letter(c).None? {
      UnicodeStarts(if c as nat < 0x1_0000 then c as nat else HighOf(c));
    }
  }

  lemma UnicodeStarts(n: nat)
    requires n < 0x1_0000
    ensures |Unicode4(n)| == 6 && Unicode4(n) == "\\" + ("u" + Unicode4(n)[2..])
  {
    assert Unicode4(n)[..2] == "\\" + "u";
  }

  /** Reading undoes the escaping of one character. */
  lemma EscapeIsRead(ascii: bool, c: char, rest: string)
    requires Escaped(ascii, c)
    ensures ReadEscape(AfterBackslash(ascii, c) + rest) == Some((c, |AfterBackslash(ascii, c)|))
  {
    var a := AfterBackslash(ascii, c);
    if Letter(c).Some? {
      LetterIsRead(c, rest);
    } else if c as nat < 0x1_0000 {
      UnitIsRead(c, rest);
      HeadTail("u", Unicode4(c as nat)[2..], rest);
    } else {
      PairIsRead(c, rest);
      HeadTail("u", Unicode4(HighOf(c))[2..] + Unicode4(LowOf(c)), rest);
      Regroup(Unicode4(HighOf(c))[2..], Unicode4(LowOf(c)), rest);
    }
  }

  lemma HeadTail(u: string, a: string, rest: string)
    requires |u| == 1
    ensures var s := u + a + rest; s[0] == u[0] && s[1..] == a + rest
  {
  }

  lemma Regroup(a: string, b: string, c: string)
    ensures a + b + c == a + (b + c)
  {
  }

  /** An escape at the head of a string is read, and the reading goes on behind it. */
  lemma EscapeThenTail(e: string, c: char, text: string)
    requires ReadEscape(e + text) == Some((c, |e|))
    ensures ReadString("\\" + e + text) ==
            match ReadString(text) case Some((tail, rest)) => Some(([c] + tail, rest)) case None => None
  {
    HeadTail("\\", e, text);
    assert ("\\" + e + text)[1 + |e|..] == text;
  }

  lemma PlainThenTail(c: char, text: string)
    requires c != '\"' && c != '\\' && c >= ' '
    ensures ReadString([c] + text) ==
            match ReadString(text) case Some((tail, rest)) => Some(([c] + tail, rest)) case None => None
  {
  }

  lemma {:induction false} EscapedIsRead(ascii: bool, s: string, rest: string)
    ensures ReadString(Escape(ascii, s) + "\"" + rest) == Some((s, rest))
  {
    if s == [] {
      assert Escape(ascii, s) + "\"" + rest == "\"" + rest;
    } else {
      var e, tail := EscapeChar(ascii, s[0]), Escape(ascii, s[1..]) + "\"" + rest;
      assert Escape(ascii, s) + "\"" + rest == e + tail;
      assert [s[0]] + s[1..] == s;
      EscapedIsRead(ascii, s[1..], rest);
      if Escaped(ascii, s[0]) {
        EscapeCharIs(ascii, s[0]);
        EscapeIsRead(ascii, s[0], tail);
        EscapeThenTail(AfterBackslash(ascii, s[0]), s[0], tail);
      } else {
        PlainThenTail(s[0], tail);
      }
    }
  }

  /** No character of the text would have to be escaped inside a JSON string. */
  predicate NeedsNoEscape(name: string) {
    forall i :: 0 <= i < |name| ==> name[i] != '\"' && name[i] != '\\' && name[i] >= ' '
  }

  /** A string takes at least as much text as it has characters, and no more only if it is the text. */
  lemma {:induction false} ReadStringLength(text: string, s: string, rest: string)
    requires ReadString(text) == Some((s, rest))
    ensures |s| + 1 + |rest| <= |text|
    ensures |s| + 1 + |rest| == |text| ==> NeedsNoEscape(s)
    decreases |text|
  {
    if text[0] != '\"' {
      if text[0] == '\\' {
        var (c, n) := ReadEscape(text[1..]).value;
        ReadStringLength(text[1 + n..], s[1..], rest);
      } else {
        ReadStringLength(text[1..], s[1..], rest);
      }
    }
  }

  lemma LoadedStringIsShorter(text: string, s: string)
    requires Loads(text) == Some(JString(s))
    ensures |s| + 2 <= |text|
  {
    var t := SkipWhite(text);
    if t[0] == '\"' {
      ReadStringLength(t[1..], s, ReadString(t[1..]).value.1);
    }
  }

  lemma QuotedSpells(ascii: bool, s: string)
    ensures Spells(Escape(ascii, s) + "\"", s)
    ensures Says(Quote(ascii, s), JString(s))
  {
    forall rest ensures ReadString(Escape(ascii, s) + "\"" + rest) == Some((s, rest)) {
      EscapedIsRead(ascii, s, rest);
    }
    StringSays(Escape(ascii, s) + "\"", s);
    assert Quote(ascii, s) == "\"" + (Escape(ascii, s) + "\"");
  }

  lemma StringSays(body: string, s: string)
    requires Spells(body, s)
    ensures Says("\"" + body, JString(s))
  {
    forall rest | Delimits(rest) ensures ReadValue("\"" + body + rest) == Some((JString(s), rest)) {
      assert ("\"" + body + rest)[1..] == body + rest;
    }
  }

  // --- Numbers ------------------------------------------------------------------------------------------

  lemma NatScans(n: nat, rest: string)
    requires Delimits(rest)
    ensures ScanNat(Decimal(n) + rest) == |Decimal(n)|
  {
    DigitRunIs(Decimal(n), rest);
  }

  lemma IntScans(i: int, rest: string)
    requires Delimits(rest)
    ensures ScanInt(PrintInt(i) + rest) == |PrintInt(i)|
  {
    hide Decimal, ScanNat;
    var digits := Decimal(if i < 0 then -i else i);
    NatScans(if i < 0 then -i else i, rest);
    if i < 0 {
      MinusThen(digits, rest);
    } else {
      var s := digits + rest;
      assert s[0] == digits[0] && IsDigit(digits[0]);
    }
  }

  lemma MinusThen(digits: string, rest: string)
    requires ScanNat(digits + rest) == |digits| > 0
    ensures ScanInt("-" + digits + rest) == 1 + |digits|
  {
    hide ScanNat;
    var s := "-" + digits + rest;
    assert s[0] == '-' && s[1..] == digits + rest;
  }

  lemma IntOfPrint(i: int)
    ensures ScanInt(PrintInt(i)) == |PrintInt(i)| && IntOf(PrintInt(i)) == i
  {
    IntScans(i, []);
    assert PrintInt(i) + [] == PrintInt(i);
    NatOfDecimal(if i < 0 then -i else i);
    if i < 0 {
      assert PrintInt(i)[1..] == Decimal(-i);
    } else {
      assert IsDigit(PrintInt(i)[0]);
    }
  }

  lemma NothingMore(rest: string)
    requires Delimits(rest)
    ensures ScanFraction(rest) == 0 && ScanExponent(rest) == 0
  {
  }

  lemma IntSays(i: int)
    ensures Says(PrintInt(i), JInt(i))
  {
    var text := PrintInt(i);
    IntOfPrint(i);
    assert text[0] == '-' || IsDigit(text[0]);
    forall rest | Delimits(rest) ensures ReadValue(text + rest) == Some((JInt(i), rest)) {
      var s := text + rest;
      IntScans(i, rest);
      NothingMore(rest);
      assert s[|text|..] == rest && s[..|text|] == text && s[|text| + 0..] == rest;
      assert s[0] == text[0];
      assert ReadNumber(s) == Some((JInt(i), rest));
      LettersDiffer(s);
    }
  }

  lemma LettersDiffer(s: string)
    requires s != [] && (s[0] == '-' || IsDigit(s[0]))
    ensures ReadValue(s) == ReadNumber(s)
  {
  }

  /** A text that is a number with a fraction or an exponent. */
  predicate FloatLexeme(l: string) {
    var n := ScanInt(l);
    n > 0 && n < |l| &&
    var f := ScanFraction(l[n..]);
    n + f + ScanExponent(l[n + f..]) == |l|
  }

  lemma DigitRunStops(a: string, rest: string)
    requires Delimits(rest)
    ensures DigitRun(a + rest) == DigitRun(a)
  {
    var n := DigitRun(a);
    assert a == a[..n] + a[n..];
    assert a + rest == a[..n] + (a[n..] + rest);
    DigitRunIs(a[..n], a[n..] + rest);
  }

  lemma IntStops(a: string, rest: string)
    requires Delimits(rest)
    ensures ScanInt(a + rest) == ScanInt(a)
  {
    NatStops(a, rest);
    if a == [] {
      assert a + rest == rest;
    } else {
      assert (a + rest)[1..] == a[1..] + rest;
      NatStops(a[1..], rest);
    }
  }

  lemma NatStops(a: string, rest: string)
    requires Delimits(rest)
    ensures ScanNat(a + rest) == ScanNat(a)
  {
    DigitRunStops(a, rest);
    if a == [] {
      assert a + rest == rest;
    }
  }

  lemma FractionStops(a: string, rest: string)
    requires Delimits(rest)
    ensures ScanFraction(a + rest) == ScanFraction(a)
  {
    if a == [] {
      assert a + rest == rest;
    } else {
      assert (a + rest)[1..] == a[1..] + rest;
      DigitRunStops(a[1..], rest);
    }
  }

  lemma SignStops(a: string, rest: string)
    requires Delimits(rest)
    ensures SignLength(a + rest) == SignLength(a)
  {
    if a == [] {
      assert a + rest == rest;
    }
  }

  lemma ExponentStops(a: string, rest: string)
    requires Delimits(rest)
    ensures ScanExponent(a + rest) == ScanExponent(a)
  {
    hide DigitRun, SignLength;
    if a == [] {
      assert a + rest == rest;
    } else {
      var t := a[1..];
      assert (a + rest)[1..] == t + rest;
      SignStops(t, rest);
      DropAppend(t, rest, SignLength(t));
      DigitRunStops(t[SignLength(t)..], rest);
    }
  }

  lemma FloatScans(l: string, rest: string)
    requires FloatLexeme(l) && Delimits(rest)
    ensures var n := ScanInt(l);
            var f := ScanFraction(l[n..]);
            && ScanInt(l + rest) == n && ScanFraction((l + rest)[n..]) == f
            && ScanExponent((l + rest)[n + f..]) == ScanExponent(l[n + f..])
  {
    hide ScanInt, ScanFraction, ScanExponent;
    var n := ScanInt(l);
    var f := ScanFraction(l[n..]);
    IntStops(l, rest);
    FractionStops(l[n..], rest);
    ExponentStops(l[n + f..], rest);
    DropAppend(l, rest, n);
    DropAppend(l, rest, n + f);
  }

  lemma FloatIsRead(l: string, rest: string)
    requires FloatLexeme(l) && Delimits(rest)
    ensures ReadNumber(l + rest) == Some((JFloat(l), rest))
  {
    hide ScanInt, ScanFraction, ScanExponent;
    FloatScans(l, rest);
    assert (l + rest)[..|l|] == l && (l + rest)[|l|..] == rest;
  }

  lemma DropAppend(a: string, b: string, n: nat)
    requires n <= |a|
    ensures (a + b)[n..] == a[n..] + b
  {
  }

  lemma FloatSays(l: string)
    requires FloatLexeme(l)
    ensures Says(l, JFloat(l))
  {
    NumberStarts(l);
    forall rest | Delimits(rest) ensures ReadValue(l + rest) == Some((JFloat(l), rest)) {
      FloatIsRead(l, rest);
      assert (l + rest)[0] == l[0];
      LettersDiffer(l + rest);
    }
  }

  lemma NumberStarts(l: string)
    requires ScanInt(l) > 0
    ensures l[0] == '-' || IsDigit(l[0])
  {
  }

  // --- Arrays and objects -------------------------------------------------------------------------------

  lemma JoinUnfolds(texts: seq<string>, end: string)
    requires texts != []
    ensures |texts| == 1 ==> Join(texts) == texts[0]
    ensures |texts| > 1 ==> Join(texts) + end == texts[0] + ("," + (Join(texts[1..]) + end))
    ensures texts[0] != [] ==> Join(texts) != [] && Join(texts)[0] == texts[0][0]
  {
    if |texts| > 1 {
      Wrap(texts[0], ",", Join(texts[1..]), end);
    }
  }

  lemma Wrap(a: string, b: string, c: string, d: string)
    ensures a + b + c + d == a + (b + (c + d))
  {
  }

  /** A list of values, up to and including the closing bracket. */
  lemma {:induction false} ItemsSay(texts: seq<string>, items: seq<Json>, rest: string)
    requires |texts| == |items| > 0
    requires forall i :: 0 <= i < |texts| ==> Says(texts[i], items[i])
    ensures ReadItems(Join(texts) + ("]" + rest)) == Some((items, rest))
    decreases |texts|
  {
    hide ReadValue;
    assert Says(texts[0], items[0]);
    if |texts| == 1 {
      assert Delimits("]" + rest);
      assert ReadValue(texts[0] + ("]" + rest)) == Some((items[0], "]" + rest));
      assert ("]" + rest)[1..] == rest;
      assert items == [items[0]];
    } else {
      var tail := Join(texts[1..]) + ("]" + rest);
      ItemsSay(texts[1..], items[1..], rest);
      JoinStarts(texts[1..], items[1..], "]" + rest);
      assert Join(texts) + ("]" + rest) == texts[0] + ("," + tail);
      assert Delimits("," + tail);
      assert ("," + tail)[1..] == tail;
      assert items == [items[0]] + items[1..];
    }
  }

  lemma JoinStarts(texts: seq<string>, items: seq<Json>, rest: string)
    requires |texts| == |items| > 0 && Says(texts[0], items[0])
    ensures var s := Join(texts) + rest; s != [] && !IsWhite(s[0]) && s[0] != ']' && SkipWhite(s) == s
  {
  }

  lemma BracketThenItems(inner: string, items: seq<Json>, rest: string)
    requires inner != [] && !IsWhite(inner[0]) && inner[0] != ']' && ReadItems(inner) == Some((items, rest))
    ensures ReadValue("[" + inner) == Some((JArray(items), rest))
  {
  }

  lemma EmptyArray(rest: string)
    ensures ReadValue("[]" + rest) == Some((JArray([]), rest))
  {
  }

  /** Values in brackets, with commas between, are the array of the values. */
  lemma ArraySays(texts: seq<string>, items: seq<Json>)
    requires |texts| == |items|
    requires forall i :: 0 <= i < |texts| ==> Says(texts[i], items[i])
    ensures Says("[" + Join(texts) + "]", JArray(items))
  {
    hide ReadItems, ReadValue, Join;
    var text := "[" + Join(texts) + "]";
    forall rest | Delimits(rest) ensures ReadValue(text + rest) == Some((JArray(items), rest)) {
      if texts == [] {
        EmptyArray(rest);
        EmptyJoin(texts);
        assert text + rest == "[]" + rest && items == [];
      } else {
        ItemsSay(texts, items, rest);
        JoinUnfolds(texts, []);
        Wrap("[", Join(texts), "]", rest);
        BracketThenItems(Join(texts) + ("]" + rest), items, rest);
      }
    }
  }

  lemma EmptyJoin(texts: seq<string>)
    requires texts == []
    ensures Join(texts) == []
  {
  }

  /** The text of one member: its quoted key, a colon, its value. */
  ghost predicate MemberSays(text: string, m: (string, Json)) {
    exists body, value :: MemberIs(text, m, body, value)
  }

  ghost predicate MemberIs(text: string, m: (string, Json), body: string, value: string) {
    text == "\"" + body + ":" + value && Spells(body, m.0) && Says(value, m.1)
  }

  lemma MemberIsRead(text: string, m: (string, Json), rest: string)
    requires MemberSays(text, m) && Delimits(rest)
    ensures text != [] && text[0] == '\"'
    ensures match ReadString((text + rest)[1..])
            case None => false
            case Some((key, after)) =>
              && key == m.0 && after != [] && after[0] == ':'
              && SkipWhite(after) == after && SkipWhite(after[1..]) == after[1..]
              && ReadValue(after[1..]) == Some((m.1, rest))
  {
    hide ReadString, ReadValue;
    var body, value :| MemberIs(text, m, body, value);
    assert (text + rest)[1..] == body + (":" + (value + rest));
    var after := ":" + (value + rest);
    assert after[1..] == value + rest;
    assert after[1..][0] == value[0];
  }

  lemma LastMember(text: string, m: (string, Json), rest: string)
    requires MemberSays(text, m)
    ensures ReadMembers(text + ("}" + rest)) == Some(([m], rest))
  {
    hide ReadString, ReadValue, MemberSays;
    MemberIsRead(text, m, "}" + rest);
    assert ("}" + rest)[1..] == rest;
  }

  lemma MoreMembers(text: string, m: (string, Json), tail: string, ms: seq<(string, Json)>, rest: string)
    requires MemberSays(text, m) && tail != [] && tail[0] == '\"' && ReadMembers(tail) == Some((ms, rest))
    ensures ReadMembers(text + ("," + tail)) == Some(([m] + ms, rest))
  {
    hide ReadString, ReadValue, MemberSays;
    MemberIsRead(text, m, "," + tail);
    assert ("," + tail)[1..] == tail && SkipWhite(tail) == tail;
  }

  lemma {:induction false} MembersSay(texts: seq<string>, ms: seq<(string, Json)>, rest: string)
    requires |texts| == |ms| > 0
    requires forall i :: 0 <= i < |texts| ==> MemberSays(texts[i], ms[i])
    ensures ReadMembers(Join(texts) + ("}" + rest)) == Some((ms, rest))
    ensures Join(texts) != [] && Join(texts)[0] == '\"'
    decreases |texts|
  {
    hide ReadMembers, MemberSays, Join, ReadString, ReadValue, SkipWhite;
    JoinUnfolds(texts, "}" + rest);
    assert texts[0] != [] && texts[0][0] == '\"' by { MemberIsRead(texts[0], ms[0], "}" + rest); }
    if |texts| == 1 {
      LastMember(texts[0], ms[0], rest);
      assert ms == [ms[0]];
    } else {
      var tail := Join(texts[1..]) + ("}" + rest);
      MembersSay(texts[1..], ms[1..], rest);
      MoreMembers(texts[0], ms[0], tail, ms[1..], rest);
      assert ms == [ms[0]] + ms[1..];
    }
  }

  lemma BraceThenMembers(inner: string, ms: seq<(string, Json)>, rest: string)
    requires inner != [] && inner[0] == '\"' && ReadMembers(inner) == Some((ms, rest))
    ensures ReadValue("{" + inner) == Some((JObject(AsDict(ms)), rest))
  {
  }

  /** Members with distinct keys in braces, with commas between, are the object of the members. */
  lemma ObjectSays(texts: seq<string>, ms: seq<(string, Json)>)
    requires |texts| == |ms| && DistinctKeys(ms)
    requires forall i :: 0 <= i < |texts| ==> MemberSays(texts[i], ms[i])
    ensures Says("{" + Join(texts) + "}", JObject(ms))
  {
    hide ReadMembers, ReadValue, AsDict, MemberSays;
    var text := "{" + Join(texts) + "}";
    DistinctIsDict(ms);
    forall rest | Delimits(rest) ensures ReadValue(text + rest) == Some((JObject(ms), rest)) {
      if texts == [] {
        EmptyObject(rest);
        assert text + rest == "{}" + rest && ms == [];
      } else {
        MembersSay(texts, ms, rest);
        Wrap("{", Join(texts), "}", rest);
        BraceThenMembers(Join(texts) + ("}" + rest), ms, rest);
      }
    }
  }

  lemma EmptyObject(rest: string)
    ensures ReadValue("{}" + rest) == Some((JObject([]), rest))
  {
  }

  // --- Every value ------------------------------------------------------------------------------------------

  /** The values a Python program can hand to json.dumps: the keys of a dict are distinct. */
  predicate WellFormed(j: Json)
    decreases j
  {
    match j
    case JFloat(l) => FloatLexeme(l)
    case JArray(items) => forall i :: 0 <= i < |items| ==> WellFormed(items[i])
    case JObject(ms) => DistinctKeys(ms) && forall m <- ms :: WellFormed(m.1)
    case _ => true
  }

  lemma WordSays(word: string, j: Json)
    requires word in ["null", "true", "false"]
    requires j == if word == "null" then JNull else JBool(word == "true")
    ensures Says(word, j)
  {
  }

  /** Reading undoes printing, for every value and wherever the text stands. */
  lemma {:induction false} PrintSays(ascii: bool, j: Json)
    requires WellFormed(j)
    ensures Says(Print(ascii, j), j)
    decreases j
  {
    hide ReadValue, ReadString, Escape;
    match j
    case JNull => WordSays("null", j);
    case JBool(b) => WordSays(if b then "true" else "false", j);
    case JInt(i) => IntSays(i);
    case JFloat(l) => FloatSays(l);
    case JString(s) => QuotedSpells(ascii, s);
    case JArray(items) =>
      var texts := seq(|items|, i requires 0 <= i < |items| => Print(ascii, items[i]));
      forall i | 0 <= i < |items| ensures Says(texts[i], items[i]) {
        PrintSays(ascii, items[i]);
      }
      ArraySays(texts, items);
    case JObject(ms) =>
      var texts := seq(|ms|, i requires 0 <= i < |ms| =>
        assert ms[i] in ms; Member(Quote(ascii, ms[i].0), Print(ascii, ms[i].1)));
      forall i | 0 <= i < |ms| ensures MemberSays(texts[i], ms[i]) {
        assert ms[i] in ms;
        PrintSays(ascii, ms[i].1);
        QuotedSpells(ascii, ms[i].0);
        var body := Escape(ascii, ms[i].0) + "\"";
        assert texts[i] == "\"" + body + ":" + Print(ascii, ms[i].1);
        assert MemberIs(texts[i], ms[i], body, Print(ascii, ms[i].1));
      }
      ObjectSays(texts, ms);
  }

  /** json.loads(json.dumps(j)) == j, whether or not the text is kept in ASCII. */
  lemma LoadsPrint(ascii: bool, j: Json)
    requires WellFormed(j)
    ensures Loads(Print(ascii, j)) == Some(j)
  {
    PrintSays(ascii, j);
    LoadsWhatItSays(Print(ascii, j), j);
  }

  /** Line feeds, quotes and backslashes are escaped by a letter. */
  lemma EscapedByLetter()
    ensures EscapeChar(true, '\n') == "\\n" && EscapeChar(true, '\r') == "\\r" && EscapeChar(true, '\t') == "\\t"
    ensures EscapeChar(true, '\"') == "\\\"" && EscapeChar(true, '\\') == "\\\\"
  {
  }

  /** What is not ASCII is escaped by its code, and beyond the basic plane by a pair of surrogates; without
      `ascii` it is left alone. */
  lemma EscapedByCode()
    ensures EscapeChar(true, '\U{e9}') == "\\u00e9" && EscapeChar(false, '\U{e9}') == "\U{e9}"
    ensures EscapeChar(true, '\U{1F600}') == "\\ud83d\\ude00"
  {
    hide Unicode4;
    assert Unicode4(0xE9) == "\\u00e9" by { FourDigits(0xE9, 0, 0, 14, 9); }
    assert Unicode4(0xD83D) == "\\ud83d" by { FourDigits(0xD83D, 13, 8, 3, 13); }
    assert Unicode4(0xDE00) == "\\ude00" by { FourDigits(0xDE00, 13, 14, 0, 0); }
  }

  lemma FourDigits(n: nat, a: nat, b: nat, c: nat, d: nat)
    requires a < 16 && b < 16 && c < 16 && d < 16 && n == ((a * 16 + b) * 16 + c) * 16 + d
    ensures n < 0x1_0000 && Unicode4(n) == "\\u" + [HexDigit(a), HexDigit(b), HexDigit(c), HexDigit(d)]
  {
    hide HexDigit;
    assert n / 16 == (a * 16 + b) * 16 + c && n % 16 == d;
    assert n / 16 / 16 == a * 16 + b && n / 16 % 16 == c;
    assert n / 16 / 16 / 16 == a && n / 16 / 16 % 16 == b;
  }
}
