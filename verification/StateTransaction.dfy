/** The transaction a save sends: written by hand as JSON text, and read back by the gRPC client. */
module StateTransaction {
  import opened Wrappers
  import opened StateTracking
  import opened Json
  import opened JsonPrinting

  // --- Writing ----------------------------------------------------------------------------------------

  function OperationName(kind: ChangeKind): string {
    match kind
    case Remove => "delete"
    case Add => "upsert"
    case Update => "upsert"
    case Unchanged => ""
  }

  predicate HasTtl(c: Change<Json>) { c.ttl.Some? && c.ttl.value >= 0 }

  /** The fixed pieces of an operation, around its name, its key and its time to live. */
  function Opening(): string { "{\"operation\":\"" }
  function Middle(): string { "\",\"request\":{\"key\":\"" }
  function TtlOpening(): string { ",\"metadata\":{\"ttlInSeconds\":\"" }

  /** What the writer puts into its buffer for one change; `ascii` is the serialiser's ensure_ascii. */
  function OperationText(ascii: bool, c: Change<Json>): string {
    (Opening() + OperationName(c.kind) + Middle() + c.name + "\"") + ValuePart(ascii, c) + TtlPart(c) + "}}"
  }

  function ValuePart(ascii: bool, c: Change<Json>): string {
    if c.value.Some? then ",\"value\":" + Print(ascii, c.value.value) else ""
  }

  function TtlPart(c: Change<Json>): string {
    if HasTtl(c) then TtlOpening() + PrintInt(c.ttl.value) + "\"}" else ""
  }

  function OperationTexts(ascii: bool, changes: seq<Change<Json>>): (texts: seq<string>)
    ensures |texts| == |changes|
    ensures forall i :: 0 <= i < |changes| ==> texts[i] == OperationText(ascii, changes[i])
  {
    seq(|changes|, i requires 0 <= i < |changes| => OperationText(ascii, changes[i]))
  }

  function TransactionText(ascii: bool, changes: seq<Change<Json>>): string {
    "[" + Join(OperationTexts(ascii, changes)) + "]"
  }

  method WriteTransaction(ascii: bool, changes: seq<Change<Json>>) returns (out: string)
    ensures out == TransactionText(ascii, changes)
  {
    hide OperationText, Join;
    EmptyJoin(OperationTexts(ascii, changes[..0]));
    out := "[";
    var firstState := true;
    for n := 0 to |changes|
      invariant firstState <==> n == 0
      invariant out == "[" + Join(OperationTexts(ascii, changes[..n]))
    {
      JoinNext(ascii, changes, n);
      ghost var done := Join(OperationTexts(ascii, changes[..n]));
      if !firstState {
        out := out + ",";
      }
      out := WriteOperation(ascii, changes[n], out);
      Regroup("[", if n == 0 then "" else done + ",", OperationText(ascii, changes[n]));
      firstState := false;
    }
    assert changes[..|changes|] == changes;
    out := out + "]";
  }

  method WriteOperation(ascii: bool, state: Change<Json>, buffer: string) returns (out: string)
    ensures out == buffer + OperationText(ascii, state)
  {
    hide Print, PrintInt, OperationName, Opening, Middle, TtlOpening;
    var text := Opening();
    text := text + OperationName(state.kind);
    text := text + Middle();
    text := text + state.name;
    text := text + "\"";
    if state.value.Some? {
      text := text + (",\"value\":" + Print(ascii, state.value.value));
    } else {
      assert text + "" == text;
    }
    if state.ttl.Some? && state.ttl.value >= 0 {
      text := text + (TtlOpening() + PrintInt(state.ttl.value) + "\"}");
    } else {
      assert text + "" == text;
    }
    out := buffer + (text + "}}");
  }

  lemma JoinNext(ascii: bool, changes: seq<Change<Json>>, n: nat)
    requires n < |changes|
    ensures Join(OperationTexts(ascii, changes[..n + 1])) ==
            (if n == 0 then "" else Join(OperationTexts(ascii, changes[..n])) + ",") + OperationText(ascii, changes[n])
  {
    hide OperationText;
    assert OperationTexts(ascii, changes[..n + 1]) ==
           OperationTexts(ascii, changes[..n]) + [OperationText(ascii, changes[n])];
    JoinAppend(OperationTexts(ascii, changes[..n]), OperationText(ascii, changes[n]));
  }

  lemma {:induction false} JoinAppend(texts: seq<string>, last: string)
    ensures Join(texts + [last]) == if texts == [] then last else Join(texts) + "," + last
    decreases |texts|
  {
    if |texts| > 0 {
      assert (texts + [last])[1..] == texts[1..] + [last];
      JoinAppend(texts[1..], last);
    }
  }

  // --- What the text says -----------------------------------------------------------------------------

  lemma {:induction false} RawIsRead(name: string, rest: string)
    requires NeedsNoEscape(name)
    ensures ReadString(name + "\"" + rest) == Some((name, rest))
  {
    if name == [] {
      assert name + "\"" + rest == "\"" + rest;
      assert ("\"" + rest)[1..] == rest;
    } else {
      assert name + "\"" + rest == [name[0]] + (name[1..] + "\"" + rest);
      RawIsRead(name[1..], rest);
      PlainThenTail(name[0], name[1..] + "\"" + rest);
      assert [name[0]] + name[1..] == name;
    }
  }

  lemma RawSpells(name: string)
    requires NeedsNoEscape(name)
    ensures Spells(name + "\"", name)
  {
    hide ReadString;
    forall rest ensures ReadString(name + "\"" + rest) == Some((name, rest)) {
      RawIsRead(name, rest);
    }
  }

  /** A key written without escaping reads back as itself, up to its closing quote, if and only if no
      character of it needs an escape. */
  lemma KeyReadsBackIff(name: string, after: string)
    ensures ReadString(name + "\"" + after) == Some((name, after)) <==> NeedsNoEscape(name)
  {
    if NeedsNoEscape(name) {
      RawIsRead(name, after);
    } else if ReadString(name + "\"" + after) == Some((name, after)) {
      ReadStringLength(name + "\"" + after, name, after);
    }
  }

  /** The request object of a change. */
  function RequestMembers(c: Change<Json>): seq<(string, Json)> {
    [("key", JString(c.name))]
    + (if c.value.Some? then [("value", c.value.value)] else [])
    + (if HasTtl(c) then [("metadata", JObject([("ttlInSeconds", JString(PrintInt(c.ttl.value)))]))] else [])
  }

  function OperationMembers(c: Change<Json>): seq<(string, Json)> {
    [("operation", JString(OperationName(c.kind))), ("request", JObject(RequestMembers(c)))]
  }

  /** A member whose key and value need no escape: `"key":` and then the text of the value. */
  lemma PlainMemberSays(key: string, text: string, value: Json)
    requires NeedsNoEscape(key) && Says(text, value)
    ensures MemberSays("\"" + key + "\":" + text, (key, value))
  {
    RawSpells(key);
    assert "\"" + key + "\":" + text == "\"" + (key + "\"") + ":" + text;
    assert MemberIs("\"" + key + "\":" + text, (key, value), key + "\"", text);
  }

  lemma PlainStringSays(s: string)
    requires NeedsNoEscape(s)
    ensures Says("\"" + s + "\"", JString(s))
  {
    RawSpells(s);
    StringSays(s + "\"", s);
    assert "\"" + s + "\"" == "\"" + (s + "\"");
  }

  lemma DecimalNeedsNoEscape(n: nat)
    ensures NeedsNoEscape(PrintInt(n))
  {
  }

  function KeyText(c: Change<Json>): string { "\"key\":\"" + c.name + "\"" }

  function ValueText(ascii: bool, v: Json): string { "\"value\":" + Print(ascii, v) }

  function TtlText(ttl: nat): string {
    "\"" + "metadata" + "\":" + ("{" + ("\"" + "ttlInSeconds" + "\":" + ("\"" + PrintInt(ttl) + "\"")) + "}")
  }

  lemma LiteralNames()
    ensures NeedsNoEscape("key") && NeedsNoEscape("value")
    ensures NeedsNoEscape("metadata") && NeedsNoEscape("ttlInSeconds")
  {
  }

  lemma KeySays(c: Change<Json>)
    requires NeedsNoEscape(c.name)
    ensures MemberSays(KeyText(c), ("key", JString(c.name)))
  {
    hide MemberSays, Says, NeedsNoEscape;
    LiteralNames();
    PlainStringSays(c.name);
    PlainMemberSays("key", "\"" + c.name + "\"", JString(c.name));
    assert KeyText(c) == "\"" + "key" + "\":" + ("\"" + c.name + "\"");
  }

  lemma ValueSays(ascii: bool, v: Json)
    requires WellFormed(v)
    ensures MemberSays(ValueText(ascii, v), ("value", v))
  {
    hide MemberSays, Says, Print, NeedsNoEscape;
    LiteralNames();
    PrintSays(ascii, v);
    PlainMemberSays("value", Print(ascii, v), v);
    assert ValueText(ascii, v) == "\"" + "value" + "\":" + Print(ascii, v);
  }

  lemma TtlSays(ttl: nat)
    ensures MemberSays(TtlText(ttl), ("metadata", JObject([("ttlInSeconds", JString(PrintInt(ttl)))])))
  {
    hide MemberSays, Says, PrintInt, Join, NeedsNoEscape;
    LiteralNames();
    var digits := "\"" + PrintInt(ttl) + "\"";
    DecimalNeedsNoEscape(ttl);
    PlainStringSays(PrintInt(ttl));
    PlainMemberSays("ttlInSeconds", digits, JString(PrintInt(ttl)));
    var inner := "\"" + "ttlInSeconds" + "\":" + digits;
    ObjectSays([inner], [("ttlInSeconds", JString(PrintInt(ttl)))]);
    JoinUnfolds([inner], []);
    PlainMemberSays("metadata", "{" + inner + "}", JObject([("ttlInSeconds", JString(PrintInt(ttl)))]));
  }

  function RequestTexts(ascii: bool, c: Change<Json>): seq<string> {
    [KeyText(c)]
    + (if c.value.Some? then [ValueText(ascii, c.value.value)] else [])
    + (if HasTtl(c) then [TtlText(c.ttl.value)] else [])
  }

  lemma RequestSays(ascii: bool, c: Change<Json>)
    requires NeedsNoEscape(c.name) && (c.value.Some? ==> WellFormed(c.value.value))
    ensures Says("{" + Join(RequestTexts(ascii, c)) + "}", JObject(RequestMembers(c)))
  {
    KeySays(c);
    if c.value.Some? { ValueSays(ascii, c.value.value); }
    if HasTtl(c) { TtlSays(c.ttl.value); }
    ObjectSays(RequestTexts(ascii, c), RequestMembers(c));
  }

  lemma ValuePartIs(ascii: bool, c: Change<Json>)
    ensures ValuePart(ascii, c) == if c.value.Some? then "," + ValueText(ascii, c.value.value) else ""
  {
  }

  lemma TtlPartIs(c: Change<Json>)
    ensures TtlPart(c) == if HasTtl(c) then "," + TtlText(c.ttl.value) else ""
  {
    hide PrintInt;
    if HasTtl(c) {
      var key, name := "\"" + "metadata" + "\":", "\"" + "ttlInSeconds" + "\":";
      Unnest(",", key, "{", name, "\"", PrintInt(c.ttl.value), "\"", "}");
      assert TtlOpening() == "," + key + "{" + name + "\"";
      assert "\"}" == "\"" + "}";
    }
  }

  lemma Unnest(a: string, b: string, c: string, d: string, e: string, m: string, f: string, g: string)
    ensures (a + b + c + d + e) + m + (f + g) == a + (b + (c + (d + (e + m + f)) + g))
  {
  }

  lemma RequestTextsJoin(ascii: bool, c: Change<Json>)
    ensures Join(RequestTexts(ascii, c)) == KeyText(c) + ValuePart(ascii, c) + TtlPart(c)
  {
    hide KeyText, ValueText, TtlText, ValuePart, TtlPart, HasTtl;
    ValuePartIs(ascii, c);
    TtlPartIs(c);
    var texts := RequestTexts(ascii, c);
    JoinUnfolds(texts, []);
    if |texts| > 1 {
      JoinUnfolds(texts[1..], []);
    }
  }

  /** The buffer of one operation, piece by piece, is the text of its two members in braces. */
  lemma OperationTextIs(ascii: bool, c: Change<Json>)
    ensures OperationText(ascii, c) ==
            "{" + (("\"" + "operation" + "\":" + ("\"" + OperationName(c.kind) + "\"")) + "," +
                   ("\"" + "request" + "\":" + ("{" + Join(RequestTexts(ascii, c)) + "}"))) + "}"
  {
    hide OperationName, ValuePart, TtlPart, Join, RequestTexts;
    RequestTextsJoin(ascii, c);
    assert Opening() == "{" + ("\"" + "operation" + "\":" + "\"");
    assert Middle() == "\"" + "," + ("\"" + "request" + "\":") + "{" + "\"key\":\"";
    hide Opening, Middle;
    assert KeyText(c) == "\"key\":\"" + c.name + "\"";
    Pieces(Opening(), Middle(), OperationName(c.kind), c.name, ValuePart(ascii, c), TtlPart(c),
      "\"" + "operation" + "\":", "\"" + "request" + "\":", "\"key\":\"");
  }

  lemma Pieces(opening: string, middle: string, op: string, name: string, v: string, t: string,
      operation: string, request: string, key: string)
    requires opening == "{" + (operation + "\"") && middle == "\"" + "," + request + "{" + key
    ensures (opening + op + middle + name + "\"") + v + t + "}}" ==
            "{" + ((operation + ("\"" + op + "\"")) + "," + (request + ("{" + ((key + name + "\"") + v + t) + "}"))) + "}"
  {
  }

  /** The text written for a change is the JSON object of that change. */
  lemma OperationSays(ascii: bool, c: Change<Json>)
    requires NeedsNoEscape(c.name) && (c.value.Some? ==> WellFormed(c.value.value))
    ensures Says(OperationText(ascii, c), JObject(OperationMembers(c)))
  {
    hide MemberSays, Says, Join, OperationText, RequestTexts;
    var request := "{" + Join(RequestTexts(ascii, c)) + "}";
    RequestSays(ascii, c);
    PlainStringSays(OperationName(c.kind));
    PlainMemberSays("operation", "\"" + OperationName(c.kind) + "\"", JString(OperationName(c.kind)));
    PlainMemberSays("request", request, JObject(RequestMembers(c)));
    var a := "\"" + "operation" + "\":" + ("\"" + OperationName(c.kind) + "\"");
    var b := "\"" + "request" + "\":" + request;
    ObjectSays([a, b], OperationMembers(c));
    JoinTwo(a, b);
    OperationTextIs(ascii, c);
  }

  lemma JoinTwo(a: string, b: string)
    ensures Join([a, b]) == a + "," + b
  {
  }

  // --- Reading back -------------------------------------------------------------------------------------

  /** One operation of the gRPC request: the value goes out as bytes, serialised once more. */
  datatype Operation = Operation(operationType: string, key: string, value: Option<string>, metadata: seq<(string, Json)>)

  function Lookup(ms: seq<(string, Json)>, key: string): Option<Json> {
    if ms == [] then None
    else if ms[0].0 == key then Some(ms[0].1)
    else Lookup(ms[1..], key)
  }

  /** _to_transactional_operation: None where a field is missing or of the wrong type. */
  function ToOperation(ascii: bool, operation: Json): Option<Operation> {
    if !operation.JObject? then None else
    match (Lookup(operation.members, "request"), Lookup(operation.members, "operation"))
    case (Some(JObject(request)), Some(JString(operationType))) =>
      (match Lookup(request, "key")
       case Some(JString(key)) =>
         var value := match Lookup(request, "value") case Some(v) => Some(Print(ascii, v)) case None => None;
         var metadata := match Lookup(request, "metadata") case Some(JObject(ms)) => ms case _ => [];
         Some(Operation(operationType, key, value, metadata))
       case _ => None)
    case (_, _) => None
  }

  function ToOperations(ascii: bool, operations: seq<Json>): Option<seq<Operation>> {
    if operations == [] then Some([])
    else match (ToOperation(ascii, operations[0]), ToOperations(ascii, operations[1..]))
      case (Some(op), Some(ops)) => Some([op] + ops)
      case (_, _) => None
  }

  /** What save_state_transactionally makes of the text it is handed. */
  function ReadTransaction(ascii: bool, text: string): Option<seq<Operation>> {
    match Loads(text)
    case Some(JArray(operations)) => ToOperations(ascii, operations)
    case _ => None
  }

  /** What the change list asks for: a delete exactly for a removal, a value exactly if there is one, and a
      time to live exactly if there is one that is not negative. */
  function Intended(ascii: bool, c: Change<Json>): Operation {
    Operation(OperationName(c.kind), c.name,
              if c.value.Some? then Some(Print(ascii, c.value.value)) else None,
              if HasTtl(c) then [("ttlInSeconds", JString(PrintInt(c.ttl.value)))] else [])
  }

  predicate Writable(c: Change<Json>) {
    NeedsNoEscape(c.name) && (c.value.Some? ==> WellFormed(c.value.value))
  }

  lemma OperationIsIntended(ascii: bool, c: Change<Json>)
    ensures ToOperation(ascii, JObject(OperationMembers(c))) == Some(Intended(ascii, c))
  {
    hide Print, PrintInt;
    var ms, request := OperationMembers(c), RequestMembers(c);
    assert ms[1..] == [("request", JObject(request))];
    assert Lookup(ms, "operation") == Some(ms[0].1) && Lookup(ms, "request") == Some(ms[1].1);
    assert Lookup(request, "key") == Some(JString(c.name));
    LookupValue(c);
    LookupMetadata(c);
  }

  lemma LookupIn(a: seq<(string, Json)>, m: (string, Json), b: seq<(string, Json)>)
    requires forall i :: 0 <= i < |a| ==> a[i].0 != m.0
    ensures Lookup(a + [m] + b, m.0) == Some(m.1)
    decreases |a|
  {
    if a != [] {
      assert (a + [m] + b)[1..] == a[1..] + [m] + b;
      LookupIn(a[1..], m, b);
    }
  }

  lemma LookupNot(a: seq<(string, Json)>, key: string)
    requires forall i :: 0 <= i < |a| ==> a[i].0 != key
    ensures Lookup(a, key) == None
    decreases |a|
  {
  }

  lemma LookupValue(c: Change<Json>)
    ensures Lookup(RequestMembers(c), "value") == c.value
  {
    hide PrintInt, Lookup;
    var key := ("key", JString(c.name));
    var metadata := RequestMembers(c)[if c.value.Some? then 2 else 1..];
    if c.value.Some? {
      LookupIn([key], ("value", c.value.value), metadata);
      assert RequestMembers(c) == [key] + [("value", c.value.value)] + metadata;
    } else {
      LookupNot(RequestMembers(c), "value");
    }
  }

  lemma LookupMetadata(c: Change<Json>)
    ensures Lookup(RequestMembers(c), "metadata") ==
            if HasTtl(c) then Some(JObject([("ttlInSeconds", JString(PrintInt(c.ttl.value)))])) else None
  {
    hide PrintInt, Lookup;
    if HasTtl(c) {
      var last := |RequestMembers(c)| - 1;
      LookupIn(RequestMembers(c)[..last], RequestMembers(c)[last], []);
      assert RequestMembers(c) == RequestMembers(c)[..last] + [RequestMembers(c)[last]] + [];
    } else {
      LookupNot(RequestMembers(c), "metadata");
    }
  }

  lemma {:induction false} OperationsAreIntended(ascii: bool, changes: seq<Change<Json>>, operations: seq<Json>, ops: seq<Operation>)
    requires |operations| == |changes| == |ops|
    requires forall i :: 0 <= i < |changes| ==> operations[i] == JObject(OperationMembers(changes[i]))
    requires forall i :: 0 <= i < |changes| ==> ops[i] == Intended(ascii, changes[i])
    ensures ToOperations(ascii, operations) == Some(ops)
    decreases |changes|
  {
    hide ToOperation, Intended, OperationMembers;
    if changes != [] {
      OperationIsIntended(ascii, changes[0]);
      OperationsAreIntended(ascii, changes[1..], operations[1..], ops[1..]);
      assert ops == [ops[0]] + ops[1..];
    }
  }

  /** The text of a save, read by json.loads and turned into the gRPC request, is the change list itself,
      in order; and each value goes out as the very bytes the writer embedded. */
  lemma TransactionReadsBack(ascii: bool, changes: seq<Change<Json>>)
    requires forall i :: 0 <= i < |changes| ==> Writable(changes[i])
    ensures ReadTransaction(ascii, TransactionText(ascii, changes)) ==
            Some(seq(|changes|, i requires 0 <= i < |changes| => Intended(ascii, changes[i])))
  {
    hide Says, Loads, Join, OperationText, OperationMembers, Intended;
    var texts := OperationTexts(ascii, changes);
    var operations := seq(|changes|, i requires 0 <= i < |changes| => JObject(OperationMembers(changes[i])));
    var ops := seq(|changes|, i requires 0 <= i < |changes| => Intended(ascii, changes[i]));
    forall i | 0 <= i < |changes| ensures Says(texts[i], operations[i]) {
      OperationSays(ascii, changes[i]);
    }
    ArraySays(texts, operations);
    LoadsWhatItSays(TransactionText(ascii, changes), JArray(operations));
    OperationsAreIntended(ascii, changes, operations, ops);
  }
}
