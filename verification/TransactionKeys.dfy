/** Which keys a transaction can be written for.  The keys are written raw, so one can close its string and
    go on with members of its own; but reading the intended operations out of a text takes a text of their
    weight, and a raw key is too light for the key it stands for if anything in it had to be escaped. */
module TransactionKeys {
  import opened Wrappers
  import opened StateTracking
  import opened Decimals
  import opened Json
  import opened JsonPrinting
  import opened JsonWeight
  import opened StateTransaction

  // --- What the text weighs -------------------------------------------------------------------------

  predicate Ascii(s: string) { forall i :: 0 <= i < |s| ==> s[i] <= '~' }

  lemma {:induction false} AsciiWeight(ascii: bool, s: string)
    requires ascii ==> Ascii(s)
    ensures Weight(ascii, s) == |s|
  {
    if s != [] {
      assert ascii ==> s[0] <= '~' && Ascii(s[1..]);
      AsciiWeight(ascii, s[1..]);
    }
  }

  lemma {:induction false} EscapeIsAscii(s: string)
    ensures Ascii(Escape(true, s))
  {
    if s != [] {
      EscapeIsAscii(s[1..]);
      EscapeCharIsAscii(s[0]);
    }
  }

  lemma EscapeCharIsAscii(c: char)
    ensures Ascii(EscapeChar(true, c))
  {
    hide Unicode4;
    if c as nat < 0x1_0000 {
      UnitIsAscii(c as nat);
    } else {
      UnitIsAscii(HighOf(c));
      UnitIsAscii(LowOf(c));
    }
  }

  lemma UnitIsAscii(n: nat)
    requires n < 0x1_0000
    ensures Ascii(Unicode4(n))
  {
    assert Ascii("\\u");
    forall d: nat | d < 16 ensures HexDigit(d) <= '~' { assert IsHex(HexDigit(d)); }
  }

  lemma {:induction false} JoinIsAscii(texts: seq<string>)
    requires forall i :: 0 <= i < |texts| ==> Ascii(texts[i])
    ensures Ascii(Join(texts))
    decreases |texts|
  {
    if |texts| > 1 {
      assert Ascii(texts[0]);
      JoinIsAscii(texts[1..]);
    }
  }

  lemma DigitsAreAscii(s: string)
    requires AllDigits(s)
    ensures Ascii(s)
  {
  }

  lemma LexemeIsAscii(l: string)
    requires FloatLexeme(l)
    ensures Ascii(l)
  {
    hide ScanInt, ScanFraction, ScanExponent;
    var n := ScanInt(l);
    var f := ScanFraction(l[n..]);
    IntIsAscii(l);
    FractionIsAscii(l[n..]);
    ExponentIsAscii(l[n + f..]);
    ThreeParts(l, n, f);
  }

  lemma ThreeParts(l: string, n: nat, f: nat)
    requires n + f <= |l| && Ascii(l[..n]) && Ascii(l[n..][..f]) && Ascii(l[n + f..])
    ensures Ascii(l)
  {
    assert forall i :: 0 <= i < n ==> l[i] == l[..n][i];
    assert forall i :: n <= i < n + f ==> l[i] == l[n..][..f][i - n];
    assert forall i :: n + f <= i < |l| ==> l[i] == l[n + f..][i - n - f];
  }

  lemma IntIsAscii(s: string)
    ensures Ascii(s[..ScanInt(s)])
  {
    if s != [] && s[0] == '-' && ScanNat(s[1..]) > 0 {
      assert s[..ScanInt(s)] == ['-'] + s[1..][..ScanNat(s[1..])];
    }
  }

  lemma FractionIsAscii(s: string)
    ensures Ascii(s[..ScanFraction(s)])
  {
    if ScanFraction(s) > 0 {
      assert s[..ScanFraction(s)] == ['.'] + s[1..][..DigitRun(s[1..])];
    }
  }

  lemma ExponentIsAscii(s: string)
    ensures Ascii(s[..ScanExponent(s)])
  {
    if ScanExponent(s) > 0 {
      var sign := SignLength(s[1..]);
      assert s[1..][sign..] == s[1 + sign..];
      assert s[..ScanExponent(s)] == s[..1 + sign] + s[1 + sign..][..DigitRun(s[1 + sign..])];
    }
  }

  lemma {:induction false} PrintIsAscii(j: Json)
    requires WellFormed(j)
    ensures Ascii(Print(true, j))
    decreases j
  {
    hide Join, Escape, Decimal, FloatLexeme;
    match j
    case JNull =>
    case JBool(b) =>
    case JInt(i) => DigitsAreAscii(Decimal(if i < 0 then -i else i));
    case JFloat(l) => LexemeIsAscii(l);
    case JString(s) => EscapeIsAscii(s);
    case JArray(items) =>
      forall i | 0 <= i < |items| ensures Ascii(ItemTexts(true, items)[i]) { PrintIsAscii(items[i]); }
      JoinIsAscii(ItemTexts(true, items));
      assert Print(true, j) == "[" + Join(ItemTexts(true, items)) + "]";
    case JObject(ms) =>
      forall i | 0 <= i < |ms| ensures Ascii(MemberTexts(true, ms)[i]) {
        assert ms[i] in ms;
        PrintIsAscii(ms[i].1);
        EscapeIsAscii(ms[i].0);
      }
      JoinIsAscii(MemberTexts(true, ms));
      PrintedObject(true, ms);
  }

  /** What a change needs: its text with the key escaped.  What it gets: its text with the key raw. */
  function Needed(ascii: bool, c: Change<Json>): int {
    |OperationText(ascii, c)| - |c.name| + |Escape(ascii, c.name)|
  }

  function Got(ascii: bool, c: Change<Json>): int {
    |OperationText(ascii, c)| - |c.name| + Weight(ascii, c.name)
  }

  function Front(c: Change<Json>): string { Opening() + OperationName(c.kind) + Middle() }

  function Back(ascii: bool, c: Change<Json>): string { "\"" + ValuePart(ascii, c) + TtlPart(c) + "}}" }

  lemma OperationIs(ascii: bool, c: Change<Json>)
    ensures OperationText(ascii, c) == Front(c) + (c.name + Back(ascii, c))
  {
    hide Opening, Middle, ValuePart, TtlPart, OperationName;
    var a, v, t := Opening() + OperationName(c.kind) + Middle(), ValuePart(ascii, c), TtlPart(c);
    assert (a + c.name + "\"") + v + t + "}}" == a + (c.name + ("\"" + v + t + "}}"));
  }

  lemma FrontIsAscii(c: Change<Json>)
    ensures Ascii(Front(c))
  {
    assert Ascii(Opening()) && Ascii(Middle()) && Ascii(OperationName(c.kind));
  }

  lemma BackIsAscii(c: Change<Json>)
    requires c.value.Some? ==> WellFormed(c.value.value)
    ensures Ascii(Back(true, c))
  {
    hide Print, Decimal;
    if c.value.Some? { PrintIsAscii(c.value.value); }
    assert Ascii(ValuePart(true, c));
    TtlIsAscii(c);
    hide ValuePart, TtlPart;
  }

  lemma TtlIsAscii(c: Change<Json>)
    ensures Ascii(TtlPart(c))
  {
    hide Decimal;
    if HasTtl(c) {
      DigitsAreAscii(Decimal(c.ttl.value));
      var opening := TtlOpening();
      assert Ascii(opening);
      hide TtlOpening;
    }
  }

  lemma OperationWeight(ascii: bool, c: Change<Json>)
    requires c.value.Some? ==> WellFormed(c.value.value)
    ensures Weight(ascii, OperationText(ascii, c)) == Got(ascii, c)
  {
    hide OperationText, Front, Back, Weight;
    OperationIs(ascii, c);
    FrontIsAscii(c);
    BackIsAscii(c);
    AsciiWeight(ascii, Front(c));
    AsciiWeight(ascii, Back(ascii, c));
    WeightAppend(ascii, Front(c), c.name + Back(ascii, c));
    WeightAppend(ascii, c.name, Back(ascii, c));
  }

  // --- What the operations need ---------------------------------------------------------------------

  lemma {:induction false} TakeOut(ascii: bool, ms: seq<(string, Json)>, key: string) returns (rest: seq<(string, Json)>)
    requires Lookup(ms, key).Some?
    ensures MembersCost(ascii, ms) == MemberCost(ascii, (key, Lookup(ms, key).value)) + MembersCost(ascii, rest)
    ensures forall k | k != key :: Lookup(rest, k) == Lookup(ms, k)
    decreases |ms|
  {
    hide MemberCost;
    if ms[0].0 == key {
      rest := ms[1..];
    } else {
      var tail := TakeOut(ascii, ms[1..], key);
      rest := [ms[0]] + tail;
      assert rest[1..] == tail;
    }
  }

  lemma MemberNeeds(ascii: bool, key: string, j: Json)
    ensures |key| + 4 + |Print(ascii, j)| <= MemberCost(ascii, (key, j))
  {
    hide Print, Escape, Weight;
    RawWeight(ascii, key);
    WeightAtLeast(ascii, key);
  }

  lemma StringNeeds(ascii: bool, s: string)
    ensures |s| + 2 <= |Print(ascii, JString(s))| == |Escape(ascii, s)| + 2
  {
    hide Escape, Weight;
    RawWeight(ascii, s);
    WeightAtLeast(ascii, s);
  }

  /** The value part and the time to live, as members of a request. */
  lemma PartsNeed(ascii: bool, request: seq<(string, Json)>, c: Change<Json>)
    requires c.value.Some? ==> Lookup(request, "value").Some? && Print(ascii, Lookup(request, "value").value) == Print(ascii, c.value.value)
    requires HasTtl(c) ==> Lookup(request, "metadata") == Some(JObject([("ttlInSeconds", JString(PrintInt(c.ttl.value)))]))
    ensures |ValuePart(ascii, c)| + |TtlPart(c)| <= MembersCost(ascii, request)
  {
    hide Print, PrintInt, MemberCost, MembersCost;
    var rest := request;
    if c.value.Some? {
      rest := TakeOut(ascii, request, "value");
      MemberNeeds(ascii, "value", Lookup(request, "value").value);
    }
    if HasTtl(c) {
      var digits := PrintInt(c.ttl.value);
      var metadata := [("ttlInSeconds", JString(digits))];
      var _ := TakeOut(ascii, rest, "metadata");
      MemberNeeds(ascii, "metadata", JObject(metadata));
      ObjectSize(ascii, metadata);
      OneMember(ascii, metadata[0]);
      MemberNeeds(ascii, "ttlInSeconds", JString(digits));
      StringNeeds(ascii, digits);
    }
  }

  lemma RequestNeeds(ascii: bool, request: seq<(string, Json)>, c: Change<Json>)
    requires Lookup(request, "key") == Some(JString(c.name))
    requires c.value.Some? ==> Lookup(request, "value").Some? && Print(ascii, Lookup(request, "value").value) == Print(ascii, c.value.value)
    requires HasTtl(c) ==> Lookup(request, "metadata") == Some(JObject([("ttlInSeconds", JString(PrintInt(c.ttl.value)))]))
    ensures 10 + |Escape(ascii, c.name)| + |ValuePart(ascii, c)| + |TtlPart(c)| <= |Print(ascii, JObject(request))|
  {
    hide Print, PrintInt, MemberCost, MembersCost, ValuePart, TtlPart, Escape;
    var rest := TakeOut(ascii, request, "key");
    MemberNeeds(ascii, "key", JString(c.name));
    StringNeeds(ascii, c.name);
    PartsNeed(ascii, rest, c);
    ObjectSize(ascii, request);
  }

  /** An operation that reads as intended takes as much text as the change with its key escaped. */
  lemma OperationNeeds(ascii: bool, operation: Json, c: Change<Json>)
    requires ToOperation(ascii, operation) == Some(Intended(ascii, c))
    ensures Needed(ascii, c) <= |Print(ascii, operation)|
  {
    hide Print, PrintInt, MemberCost, MembersCost, ValuePart, TtlPart, Escape;
    var ms := operation.members;
    var request := Lookup(ms, "request").value.members;
    RequestNeeds(ascii, request, c);
    var rest := TakeOut(ascii, ms, "request");
    MemberNeeds(ascii, "request", JObject(request));
    var _ := TakeOut(ascii, rest, "operation");
    MemberNeeds(ascii, "operation", JString(OperationName(c.kind)));
    StringNeeds(ascii, OperationName(c.kind));
    ObjectSize(ascii, ms);
    OperationLength(ascii, c);
  }

  lemma OperationLength(ascii: bool, c: Change<Json>)
    ensures |OperationText(ascii, c)| == 37 + |OperationName(c.kind)| + |c.name| + |ValuePart(ascii, c)| + |TtlPart(c)|
  {
    hide OperationName, ValuePart, TtlPart;
    assert |Opening()| == 14 && |Middle()| == 20;
  }

  // --- All of them ----------------------------------------------------------------------------------

  function TotalNeeded(ascii: bool, changes: seq<Change<Json>>): int {
    if changes == [] then 0 else Needed(ascii, changes[0]) + 1 + TotalNeeded(ascii, changes[1..])
  }

  function TotalGot(ascii: bool, changes: seq<Change<Json>>): int {
    if changes == [] then 0 else Got(ascii, changes[0]) + 1 + TotalGot(ascii, changes[1..])
  }

  lemma {:induction false} JoinWeight(ascii: bool, changes: seq<Change<Json>>)
    requires changes != [] && forall i :: 0 <= i < |changes| ==> changes[i].value.Some? ==> WellFormed(changes[i].value.value)
    ensures Weight(ascii, Join(OperationTexts(ascii, changes))) + 1 == TotalGot(ascii, changes)
    decreases |changes|
  {
    hide Weight, OperationText, Got;
    var texts := OperationTexts(ascii, changes);
    OperationWeight(ascii, changes[0]);
    if |changes| > 1 {
      JoinWeight(ascii, changes[1..]);
      assert texts[1..] == OperationTexts(ascii, changes[1..]);
      var tail := Join(texts[1..]);
      assert Join(texts) == texts[0] + ("," + tail);
      WeightAppend(ascii, texts[0], "," + tail);
      WeightAppend(ascii, ",", tail);
      AsciiWeight(ascii, ",");
    } else {
      assert changes[1..] == [];
    }
  }

  lemma {:induction false} OperationsNeed(ascii: bool, operations: seq<Json>, changes: seq<Change<Json>>, ops: seq<Operation>)
    requires |ops| == |changes| && forall i :: 0 <= i < |changes| ==> ops[i] == Intended(ascii, changes[i])
    requires ToOperations(ascii, operations) == Some(ops)
    ensures |operations| == |changes| && TotalNeeded(ascii, changes) <= ItemsCost(ascii, operations)
    decreases |operations|
  {
    hide Print, ToOperation, Intended, Needed;
    if operations != [] {
      OperationNeeds(ascii, operations[0], changes[0]);
      OperationsNeed(ascii, operations[1..], changes[1..], ops[1..]);
    }
  }

  lemma {:induction false} LightKeysFallShort(ascii: bool, changes: seq<Change<Json>>)
    ensures TotalGot(ascii, changes) <= TotalNeeded(ascii, changes)
    ensures TotalGot(ascii, changes) == TotalNeeded(ascii, changes) ==>
              forall i :: 0 <= i < |changes| ==> NeedsNoEscape(changes[i].name)
  {
    hide Weight, OperationText, Escape, NeedsNoEscape;
    if changes != [] {
      RawWeight(ascii, changes[0].name);
      LightKeysFallShort(ascii, changes[1..]);
      assert forall i :: 1 <= i < |changes| ==> changes[i] == changes[1..][i - 1];
    }
  }

  /** The text of a save reads back as the change list exactly if no key in it needs an escape; whatever
      members a raw key may smuggle in, and whatever the values hold, no other list of keys can be read
      for itself. */
  lemma TransactionReadsBackIff(ascii: bool, changes: seq<Change<Json>>)
    requires forall i :: 0 <= i < |changes| ==> changes[i].value.Some? ==> WellFormed(changes[i].value.value)
    ensures ReadTransaction(ascii, TransactionText(ascii, changes)) ==
            Some(seq(|changes|, i requires 0 <= i < |changes| => Intended(ascii, changes[i])))
       <==> forall i :: 0 <= i < |changes| ==> NeedsNoEscape(changes[i].name)
  {
    hide Loads, Join, Weight, OperationText, Intended, NeedsNoEscape, ToOperations;
    var ops := seq(|changes|, i requires 0 <= i < |changes| => Intended(ascii, changes[i]));
    var text := TransactionText(ascii, changes);
    if forall i :: 0 <= i < |changes| ==> NeedsNoEscape(changes[i].name) {
      TransactionReadsBack(ascii, changes);
    }
    if ReadTransaction(ascii, text) == Some(ops) && changes != [] {
      var operations := Loads(text).value.items;
      OperationsNeed(ascii, operations, changes, ops);
      LoadsWeight(ascii, text, JArray(operations));
      ArraySize(ascii, operations);
      JoinWeight(ascii, changes);
      BracketsWeight(ascii, Join(OperationTexts(ascii, changes)));
      LightKeysFallShort(ascii, changes);
    }
  }

  lemma BracketsWeight(ascii: bool, s: string)
    ensures Weight(ascii, "[" + s + "]") == Weight(ascii, s) + 2
  {
    hide Weight;
    WeightAppend(ascii, "[" + s, "]");
    WeightAppend(ascii, "[", s);
    AsciiWeight(ascii, "[");
    AsciiWeight(ascii, "]");
  }
}
