/** Timer and reminder payloads on their way through the sidecar and back. */
module ActorCallbacks {
  import opened Wrappers
  import opened Json
  import opened JsonPrinting
  import opened Base64
  import opened Serializer
  import Utf8
  import Durations
  import Decimals

  // --- Timers -------------------------------------------------------------------------------------------

  /** daprd marshals the raw bytes of a unary registration: a JSON string that holds their base64. */
  function Marshalled(bytes: seq<byte>): seq<byte> { Utf8.Encode("\"" + Encode(bytes) + "\"") }

  /** _maybe_unwrap_grpc_registered_value. */
  function MaybeUnwrap(value: seq<byte>): seq<byte> {
    match LoadsBytes(value)
    case Some(JString(s)) =>
      (match Decode(s)
       case Some(decoded) => if LoadsBytes(decoded).Some? then decoded else value
       case None => value)
    case _ => value
  }

  /** The data of build_timer_fire_body: null if there is none, an error if it is no JSON. */
  function TimerData(value: Option<seq<byte>>): Option<Json> {
    if value.None? || value.value == [] then Some(JNull) else LoadsBytes(MaybeUnwrap(value.value))
  }

  datatype TimerRequest = TimerRequest(callback: string, dueTime: string, period: string, data: Option<seq<byte>>)

  function TimerBody(r: TimerRequest): Option<Json> {
    match TimerData(r.data)
    case None => None
    case Some(data) =>
      Some(JObject([("callback", JString(r.callback)), ("dueTime", JString(r.dueTime)), ("period", JString(r.period)),
                    ("data", data)]))
  }

  /** What fire_timer hands to the callback: the body is printed and read again, which gives it back as
      LoadsPrint says, but this time it is the serialiser's decoder that reads it. */
  function FiredData(r: TimerRequest): Option<Loaded> {
    match TimerBody(r)
    case None => None
    case Some(body) => Find(Decoded(body).members, "data")
  }

  function Find(ms: seq<(string, Loaded)>, key: string): Option<Loaded> {
    if ms == [] then None else if ms[0].0 == key then Some(ms[0].1) else Find(ms[1..], key)
  }

  /** The name of the method it calls. */
  function FiredCallback(r: TimerRequest): Option<Loaded> {
    match TimerBody(r)
    case None => None
    case Some(body) => Find(Decoded(body).members, "callback")
  }

  /** The timer calls the method it was registered with if and only if the method's name reads neither as a
      date nor as a duration, as no name does that does not start with a digit. */
  lemma CallbackArrivesIff(r: TimerRequest)
    requires TimerData(r.data).Some?
    ensures FiredCallback(r) == Some(LString(r.callback)) <==> !DateLike(r.callback) && !SpanLike(r.callback)
    ensures r.callback != "" && !Decimals.IsDigit(r.callback[0]) ==> FiredCallback(r) == Some(LString(r.callback))
  {
    hide TimerData, DateLike, SpanLike;
    var ms := Decoded(TimerBody(r).value).members;
    assert |ms| == 4 && ms[0] == ("callback", Decoded(JString(r.callback)));
    NamesAreNoTimes(r.callback);
  }

  lemma NamesAreNoTimes(s: string)
    ensures s != "" && !Decimals.IsDigit(s[0]) ==> !DateLike(s) && !SpanLike(s)
  {
    if DateLike(s) { assert s[..4][0] == s[0]; }
    if s != "" && !Decimals.IsDigit(s[0]) {
      assert Decimals.DigitRun(s) == 0;
      forall unit, unless ensures Durations.Read(s, unit, unless) == None {}
      hide Durations.Read;
      assert SpanLike(s) ==> false;
    }
  }

  lemma FiredDataIs(r: TimerRequest)
    ensures FiredData(r) == match TimerData(r.data) case Some(data) => Some(Decoded(data)) case None => None
  {
    hide TimerData;
    if TimerData(r.data).Some? {
      var ms := Decoded(TimerBody(r).value).members;
      assert |ms| == 4 && ms[3] == ("data", Decoded(TimerData(r.data).value));
      assert ms[0].0 == "callback" && ms[1].0 == "dueTime" && ms[2].0 == "period";
      assert ms[1..][1..] == ms[2..] && ms[2..][1..] == ms[3..];
      assert Find(ms, "data") == Find(ms[1..], "data") == Find(ms[2..], "data") == Find(ms[3..], "data");
    }
  }

  lemma LoadsMarshalled(bytes: seq<byte>)
    ensures LoadsBytes(Marshalled(bytes)) == Some(JString(Encode(bytes)))
  {
    hide Loads, LoadsBytes, Encode;
    var text := "\"" + Encode(bytes) + "\"";
    EncodedIsPlain(bytes);
    PlainIsQuoted(Encode(bytes));
    QuotedSpells(true, Encode(bytes));
    LoadsWhatItSays(text, JString(Encode(bytes)));
    LoadsEncoded(text, JString(Encode(bytes)));
  }

  lemma {:induction false} PlainIsQuoted(s: string)
    requires forall i :: 0 <= i < |s| ==> Plain(s[i])
    ensures Escape(true, s) == s
  {
    if s != "" {
      PlainIsQuoted(s[1..]);
      assert s == [s[0]] + s[1..];
    }
  }

  /** Every JSON text registered through the gRPC client is recovered byte for byte. */
  lemma UnwrapRecovers(text: seq<byte>)
    requires LoadsBytes(text).Some?
    ensures MaybeUnwrap(Marshalled(text)) == text
  {
    hide LoadsBytes;
    LoadsMarshalled(text);
    DecodeEncode(text);
  }

  /** The whole way over gRPC: the state given to register_timer is what the callback gets if and only if
      no string in it reads as a date or a duration. */
  lemma TimerStateArrivesIff(ascii: bool, state: Json, r: TimerRequest)
    requires WellFormed(state) && r.data == Some(Marshalled(Serialize(ascii, state)))
    ensures TimerData(r.data) == Some(state)
    ensures FiredData(r) == Some(Plainly(state)) <==> Timeless(state)
  {
    hide LoadsBytes, Marshalled, Serialize, FiredData;
    LoadsSerialized(ascii, state);
    UnwrapRecovers(Serialize(ascii, state));
    LoadsMarshalled(Serialize(ascii, state));
    assert LoadsBytes([]) == None by { NothingLoads(); }
    FiredDataIs(r);
    DecodedIsPlainIff(state);
  }

  /** A timer whose state is the text "10s" calls back with ten seconds. */
  lemma TimerStateIsLost(ascii: bool, r: TimerRequest)
    requires r.data == Some(Marshalled(Serialize(ascii, JString("10s"))))
    ensures FiredData(r) == Some(LSpan(10_000_000))
  {
    hide LoadsBytes, Marshalled, Serialize, FiredData, Timeless, Decoded;
    TimerStateArrivesIff(ascii, JString("10s"), r);
    FiredDataIs(r);
    TextReadAsDuration(ascii);
    LoadsSerialized(ascii, JString("10s"));
  }

  lemma NothingLoads()
    ensures LoadsBytes([]) == None
  {
  }

  /** A JSON string that happens to be the base64 of a JSON text. */
  predicate LooksWrapped(j: Json) {
    j.JString? && Decode(j.s).Some? && LoadsBytes(Decode(j.s).value).Some?
  }

  /** A payload is changed if and only if it is such a string; so anything else registered over HTTP,
      and every value that is no string, is passed on as it came. */
  lemma UnwrapLeavesIff(value: seq<byte>)
    ensures MaybeUnwrap(value) == value <==> !(LoadsBytes(value).Some? && LooksWrapped(LoadsBytes(value).value))
  {
    if LoadsBytes(value).Some? && LooksWrapped(LoadsBytes(value).value) {
      var s := LoadsBytes(value).value.s;
      TextIsLonger(value, s);
      DecodedIsShorter(s);
    }
  }

  lemma TextIsLonger(value: seq<byte>, s: string)
    requires LoadsBytes(value) == Some(JString(s))
    ensures |s| + 2 <= |value|
  {
    var text := if Marked(value) then value[3..] else value;
    LoadedStringIsShorter(Utf8.Decode(text).value, s);
    Utf8.DecodedIsShorter(text);
  }

  /** State registered over HTTP, which is not wrapped, arrives if and only if, besides, it does not look
      wrapped. */
  lemma HttpTimerStateArrivesIff(ascii: bool, state: Json, r: TimerRequest)
    requires WellFormed(state) && r.data == Some(Serialize(ascii, state))
    ensures TimerData(r.data) == Some(state) <==> !LooksWrapped(state)
    ensures FiredData(r) == Some(Plainly(state)) <==> !LooksWrapped(state) && Timeless(state)
  {
    hide Loads, Print, FiredData, Timeless;
    LoadsSerialized(ascii, state);
    UnwrapLeavesIff(Serialize(ascii, state));
    FiredDataIs(r);
    DecodedIsPlainIff(state);
    if LooksWrapped(state) {
      if LoadsBytes(Decode(state.s).value) == Some(state) {
        TextIsLonger(Decode(state.s).value, state.s);
        DecodedIsShorter(state.s);
      }
      var j := LoadsBytes(Decode(state.s).value).value;
      if Decoded(j) == LString(state.s) { OnlyTextDecodesToText(j, state.s); }
    }
  }

  lemma OnlyTextDecodesToText(j: Json, s: string)
    requires Decoded(j) == LString(s)
    ensures j == JString(s)
  {
    hide DateLike, SpanLike;
  }

  // --- Reminders ----------------------------------------------------------------------------------------

  /** Periods and the failure policy are handed through as they are. */
  datatype Reminder<T> = Reminder(name: string, state: seq<byte>, dueTime: T, period: Option<T>, ttl: Option<T>,
                                  failurePolicy: Option<Json>)

  /** The dict form: `data` is the base64 of the state, `ttl` and the policy are there only if set. */
  datatype ReminderDict<T> = ReminderDict(reminderName: string, dueTime: T, period: Option<T>, data: Option<string>,
                                          ttl: Option<T>, failurePolicy: Option<Json>)

  function AsDict<T>(r: Reminder<T>): ReminderDict<T> {
    ReminderDict(r.name, r.dueTime, r.period, Some(Encode(r.state)), r.ttl, r.failurePolicy)
  }

  /** The bytes behind an optional base64 text, in from_dict and in _decode_reminder_state alike. */
  function DecodeState(data: Option<string>): Option<seq<byte>> {
    if data.None? || data.value == "" then Some([]) else Decode(data.value)
  }

  function FromDict<T>(name: string, d: ReminderDict<T>): Option<Reminder<T>> {
    match DecodeState(d.data)
    case Some(state) => Some(Reminder(name, state, d.dueTime, d.period, d.ttl, None))
    case None => None
  }

  /** The state of a reminder survives its dict form for every byte string, over gRPC as over HTTP; the
      reminder as a whole does if and only if it carries no failure policy, which from_dict drops. */
  lemma ReminderSurvivesIff<T>(r: Reminder<T>)
    ensures DecodeState(AsDict(r).data) == Some(r.state)
    ensures FromDict(r.name, AsDict(r)) == Some(r) <==> r.failurePolicy.None?
  {
    DecodeEncode(r.state);
  }

  /** The state fire_reminder hands on: a date or a duration has no length, and raises. */
  function FiredState(data: string): Option<seq<byte>> {
    match CustomScan(data) case LString(s) => DecodeState(Some(s)) case _ => None
  }

  /** The state of a firing reminder arrives if and only if its base64 reads neither as a date nor as a
      duration. */
  lemma FiredStateArrivesIff(state: seq<byte>)
    ensures FiredState(Encode(state)) == Some(state) <==> !DateLike(Encode(state)) && !SpanLike(Encode(state))
  {
    DecodeEncode(state);
  }

  /** The three bytes D7 6D E1 are written "123h", which is 123 hours. */
  lemma StateReadAsDuration()
    ensures Encode([0xD7, 0x6D, 0xE1]) == "123h" && FiredState("123h") == None
  {
    hide SpanLike, DateLike, Decode, Encode;
    HoursSpan();
    EncodeThree(0xD7, 0x6D, 0xE1);
    assert Letters(0xD7, 0x6D, 0xE1) == "123h";
  }

  lemma EncodeThree(a: byte, b: byte, c: byte)
    ensures Encode([a, b, c]) == Letters(a, b, c)
  {
  }

  lemma HoursSpan()
    ensures SpanLike("123h")
  {
    hide Durations.Parse;
    var f := Durations.Fields(Some("123"), None, None, None, None, "");
    assert Durations.Render(f) == "123h";
    Durations.ParseIsComplete("123h", f);
  }
}
