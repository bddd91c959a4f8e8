/** The default serialiser: JSON in UTF-8, read by a decoder that takes strings for dates and durations. */
module Serializer {
  import opened Wrappers
  import opened Json
  import opened JsonPrinting
  import opened Base64
  import Utf8
  import Durations
  import Decimals

  /** A byte-order mark in UTF-8. */
  predicate Marked(bytes: seq<byte>) { |bytes| >= 3 && bytes[0] == 0xEF && bytes[1] == 0xBB && bytes[2] == 0xBF }

  /** json.loads of bytes in UTF-8, marked or not. */
  function LoadsBytes(bytes: seq<byte>): Option<Json> {
    match Utf8.Decode(if Marked(bytes) then bytes[3..] else bytes) case Some(text) => Loads(text) case None => None
  }

  function Serialize(ascii: bool, j: Json): seq<byte> { Utf8.Encode(Print(ascii, j)) }

  /** A JSON text starts with a character of ASCII, so its bytes are not taken for marked ones. */
  lemma LoadsEncoded(text: string, j: Json)
    requires Loads(text) == Some(j)
    ensures LoadsBytes(Utf8.Encode(text)) == Some(j) && Utf8.Encode(text) != []
  {
    hide Loads, Utf8.Encode, Utf8.Decode;
    Utf8.DecodeEncode(text);
    StartsInAscii(text);
    FirstByte(text);
  }

  lemma StartsInAscii(text: string)
    requires Loads(text).Some?
    ensures text != "" && text[0] as int < 0x80
  {
    hide ReadNumber, ReadItems, ReadMembers, ReadString;
    var s := SkipWhite(text);
    assert ReadValue(s).Some?;
    assert s != "" && s[0] as int < 0x80;
    assert text[0] == s[0] || IsWhite(text[0]);
  }

  lemma FirstByte(text: string)
    requires text != "" && text[0] as int < 0x80
    ensures Utf8.Encode(text) != [] && Utf8.Encode(text)[0] == text[0] as byte
  {
    assert Utf8.Encode(text) == [text[0] as byte] + Utf8.Encode(text[1..]);
  }

  lemma LoadsSerialized(ascii: bool, j: Json)
    requires WellFormed(j)
    ensures LoadsBytes(Serialize(ascii, j)) == Some(j) && Serialize(ascii, j) != []
  {
    hide Loads, Print, LoadsBytes;
    LoadsPrint(ascii, j);
    LoadsEncoded(Print(ascii, j), j);
  }

  // --- The decoder --------------------------------------------------------------------------------------

  /** What the decoder returns: a moment is what the date parser makes of a text. */
  datatype Loaded =
    | LNull
    | LBool(b: bool)
    | LInt(i: int)
    | LFloat(lexeme: string)
    | LString(s: string)
    | LMoment(text: string)
    | LSpan(micros: nat)
    | LArray(items: seq<Loaded>)
    | LObject(members: seq<(string, Loaded)>)

  predicate DateLike(s: string) {
    && |s| >= 10
    && Decimals.AllDigits(s[..4]) && s[4] in "-/" && Decimals.AllDigits(s[5..7]) && s[7] in "-/"
    && Decimals.AllDigits(s[8..10])
  }

  /** The expression for durations matches, and one of its groups does. */
  predicate SpanLike(s: string) {
    match Durations.Parse(s)
    case Some(f) => HasGroup(f)
    case None => false
  }

  /** custom_scanstring, which reads every string but the keys of objects. */
  function CustomScan(s: string): Loaded {
    if DateLike(s) then LMoment(s)
    else if SpanLike(s) then LSpan(Durations.FromDuration(s).value)
    else LString(s)
  }

  function Decoded(j: Json): Loaded
    decreases j
  {
    match j
    case JNull => LNull
    case JBool(b) => LBool(b)
    case JInt(i) => LInt(i)
    case JFloat(lexeme) => LFloat(lexeme)
    case JString(s) => CustomScan(s)
    case JArray(items) => LArray(seq(|items|, i requires 0 <= i < |items| => Decoded(items[i])))
    case JObject(ms) =>
      LObject(seq(|ms|, i requires 0 <= i < |ms| => assert ms[i] in ms; (ms[i].0, Decoded(ms[i].1))))
  }

  function Deserialize(bytes: seq<byte>): Option<Loaded> {
    match LoadsBytes(bytes) case Some(j) => Some(Decoded(j)) case None => None
  }

  /** The value itself, its strings being strings. */
  function Plainly(j: Json): Loaded
    decreases j
  {
    match j
    case JNull => LNull
    case JBool(b) => LBool(b)
    case JInt(i) => LInt(i)
    case JFloat(lexeme) => LFloat(lexeme)
    case JString(s) => LString(s)
    case JArray(items) => LArray(seq(|items|, i requires 0 <= i < |items| => Plainly(items[i])))
    case JObject(ms) =>
      LObject(seq(|ms|, i requires 0 <= i < |ms| => assert ms[i] in ms; (ms[i].0, Plainly(ms[i].1))))
  }

  /** No string value, at any depth, reads as a date or a duration; the keys of objects may. */
  predicate Timeless(j: Json)
    decreases j
  {
    match j
    case JString(s) => !DateLike(s) && !SpanLike(s)
    case JArray(items) => forall i :: 0 <= i < |items| ==> Timeless(items[i])
    case JObject(ms) => forall i :: 0 <= i < |ms| ==> (assert ms[i] in ms; Timeless(ms[i].1))
    case _ => true
  }

  lemma {:induction false} DecodedIsPlainIff(j: Json)
    ensures Decoded(j) == Plainly(j) <==> Timeless(j)
    decreases j
  {
    hide DateLike, SpanLike, Decoded, Plainly;
    if j.JArray? {
      forall i | 0 <= i < |j.items| ensures Decoded(j.items[i]) == Plainly(j.items[i]) <==> Timeless(j.items[i]) {
        DecodedIsPlainIff(j.items[i]);
      }
      ItemsArePlainIff(j);
    } else if j.JObject? {
      forall i | 0 <= i < |j.members|
        ensures Decoded(j.members[i].1) == Plainly(j.members[i].1) <==> Timeless(j.members[i].1)
      {
        assert j.members[i] in j.members;
        DecodedIsPlainIff(j.members[i].1);
      }
      MembersArePlainIff(j);
    } else {
      LeafIsPlainIff(j);
    }
  }

  lemma LeafIsPlainIff(j: Json)
    requires !j.JArray? && !j.JObject?
    ensures Decoded(j) == Plainly(j) <==> Timeless(j)
  {
    hide DateLike, SpanLike;
  }

  lemma ItemsArePlainIff(j: Json)
    requires j.JArray?
    ensures Decoded(j) == Plainly(j) <==> forall i :: 0 <= i < |j.items| ==> Decoded(j.items[i]) == Plainly(j.items[i])
  {
    var ds, ps := Decoded(j).items, Plainly(j).items;
    assert |ds| == |ps| == |j.items|;
    assert ds == ps <==> forall i :: 0 <= i < |ds| ==> ds[i] == ps[i];
    assert forall i :: 0 <= i < |ds| ==> ds[i] == Decoded(j.items[i]);
    assert forall i :: 0 <= i < |ds| ==> ps[i] == Plainly(j.items[i]);
  }

  lemma MembersArePlainIff(j: Json)
    requires j.JObject?
    ensures Decoded(j) == Plainly(j) <==>
            forall i :: 0 <= i < |j.members| ==> (assert j.members[i] in j.members; Decoded(j.members[i].1) == Plainly(j.members[i].1))
  {
    var ds, ps := Decoded(j).members, Plainly(j).members;
    assert |ds| == |ps| == |j.members|;
    assert forall i :: 0 <= i < |ds| ==> ds[i].0 == j.members[i].0 == ps[i].0;
    assert ds == ps <==> forall i :: 0 <= i < |ds| ==> ds[i] == ps[i];
    assert forall i :: 0 <= i < |ds| ==> (assert j.members[i] in j.members; ds[i].1 == Decoded(j.members[i].1));
    assert forall i :: 0 <= i < |ds| ==> (assert j.members[i] in j.members; ps[i].1 == Plainly(j.members[i].1));
  }

  /** What was serialised is what comes back if and only if no string in it reads as a date or a duration. */
  lemma DeserializeIff(ascii: bool, j: Json)
    requires WellFormed(j)
    ensures Deserialize(Serialize(ascii, j)) == Some(Plainly(j)) <==> Timeless(j)
  {
    hide LoadsBytes, Serialize;
    LoadsSerialized(ascii, j);
    DecodedIsPlainIff(j);
  }

  // --- Durations as values --------------------------------------------------------------------------------

  /** A timedelta is serialised as its printed text.  It comes back as itself if its seconds do not round
      up, as a second more if they do, and as its text if it is negative. */
  lemma SpanComesBack(ascii: bool, td: int)
    ensures Deserialize(Serialize(ascii, JString(Durations.ToDuration(td)))) ==
            Some(if td < 0 then LString(Durations.ToDuration(td))
                 else LSpan(td + if Durations.RoundsUp(td) then Durations.SECOND else 0))
  {
    hide LoadsBytes, Serialize, Durations.RoundsUp, Durations.FromDuration, Durations.ToDuration, DateLike, SpanLike;
    LoadsSerialized(ascii, JString(Durations.ToDuration(td)));
    Durations.PrintedReadsBack(td);
    PrintedIsNoDate(td);
    PrintedIsSpanIff(td);
  }

  lemma PrintedIsSpanIff(td: int)
    ensures SpanLike(Durations.ToDuration(td)) <==> td >= 0
  {
    hide Durations.Parse, Durations.ToDuration, Durations.Render;
    if td < 0 {
      Durations.NegativeStarts(td);
      Durations.NothingBeforeMinus(Durations.ToDuration(td));
    } else {
      Durations.PrintedTotal(td);
      Durations.RenderPrinted(td);
      Durations.ParseIsComplete(Durations.ToDuration(td), Durations.Printed(td));
    }
  }

  lemma PrintedIsNoDate(td: int)
    ensures !DateLike(Durations.ToDuration(td))
  {
    hide Decimals.Decimal, Durations.RoundedSeconds;
    var text, hours := Durations.ToDuration(td), Durations.PrintNumber(td / Durations.MINUTE / 60);
    assert hours <= text && text[|hours|] == 'h';
    assert forall i :: 1 <= i < |hours| ==> Decimals.IsDigit(hours[i]);
  }

  /** A text of ten seconds is a duration when it comes back, and no text. */
  lemma TextReadAsDuration(ascii: bool)
    ensures Deserialize(Serialize(ascii, JString("10s"))) == Some(LSpan(10_000_000))
  {
    hide LoadsBytes, Serialize, Durations.Parse;
    LoadsSerialized(ascii, JString("10s"));
    var f := Durations.Fields(None, None, Some("10"), None, None, "");
    assert Durations.Render(f) == "10s";
    Durations.ParseIsComplete("10s", f);
    assert Decimals.NatOf("10") == 10;
  }

  /** A string reads as a duration exactly when the expression matches it with some group in it. */
  lemma SpanLikeIff(s: string)
    ensures SpanLike(s) <==> exists f :: Durations.Matches(s, f) && HasGroup(f)
    ensures forall f :: Durations.Matches(s, f) && HasGroup(f) ==> CustomScan(s) in [LMoment(s), LSpan(Durations.Total(f))]
  {
    hide Durations.Matches, Durations.Parse, Durations.Total, DateLike;
    Durations.AcceptedIffMatched(s);
    if Durations.Parse(s).Some? { Durations.ParseIsSound(s); }
    forall f | Durations.Matches(s, f) ensures Durations.Parse(s) == Some(f) { Durations.ParseIsComplete(s, f); }
  }

  predicate HasGroup(f: Durations.Fields) {
    f.hours.Some? || f.minutes.Some? || f.seconds.Some? || f.milliseconds.Some? || f.microseconds.Some?
  }

  /** A date at its start is enough, with dashes or slashes; single digits are not. */
  lemma DatesLookLike()
    ensures DateLike("2024-01-31") && DateLike("2024/01-31 and more")
    ensures !DateLike("2024-1-31") && !DateLike("on 2024-01-31") && !DateLike("20240131")
  {
  }
}
