/** Durations in the format of Go: the printer, the grammar of the regular expression, and the parser.
    A timedelta is a number of microseconds, and arithmetic is exact. */
module Durations {
  import opened Wrappers
  import opened Decimals

  const SECOND := 1_000_000
  const MINUTE := 60 * SECOND
  const MICRO_SIGN := "\U{03BC}s"

  // --- The grammar --------------------------------------------------------------------------------------

  /** The groups of the expression: the digits of each unit that is present. */
  datatype Fields = Fields(hours: Option<string>, minutes: Option<string>, seconds: Option<string>,
                           milliseconds: Option<string>, microseconds: Option<string>, microUnit: string)

  function Group(digits: Option<string>, suffix: string): string {
    if digits.Some? then digits.value + suffix else ""
  }

  predicate Digits(digits: Option<string>) {
    digits.Some? ==> digits.value != "" && AllDigits(digits.value)
  }

  predicate Sane(f: Fields) {
    && Digits(f.hours) && Digits(f.minutes) && Digits(f.seconds) && Digits(f.milliseconds) && Digits(f.microseconds)
    && (f.microseconds.Some? ==> f.microUnit == MICRO_SIGN || f.microUnit == "us")
    && (f.microseconds.None? ==> f.microUnit == "")
  }

  function FromMicros(f: Fields): string { Group(f.microseconds, f.microUnit) }
  function FromMillis(f: Fields): string { Group(f.milliseconds, "ms") + FromMicros(f) }
  function FromSeconds(f: Fields): string { Group(f.seconds, "s") + FromMillis(f) }
  function FromMinutes(f: Fields): string { Group(f.minutes, "m") + FromSeconds(f) }
  function Render(f: Fields): string { Group(f.hours, "h") + FromMinutes(f) }

  /** The expression matches the text with these groups: every group is optional, and the closing $ also
      stands before a final newline. */
  predicate Matches(text: string, f: Fields) {
    Sane(f) && (text == Render(f) || text == Render(f) + "\n")
  }

  // --- The parser ---------------------------------------------------------------------------------------

  /** The digits a text starts with, if the suffix follows them and is not itself followed by `unless`. */
  function Read(s: string, suffix: string, unless: string): (r: Option<string>)
    ensures r.Some? ==> |r.value| + |suffix| <= |s| && r.value != "" && AllDigits(r.value)
    ensures r.Some? ==> s == r.value + suffix + s[|r.value| + |suffix|..]
  {
    var n := DigitRun(s);
    if 0 < n && suffix <= s[n..] && !(unless != "" && unless <= s[n + |suffix|..]) then
      assert s == s[..n] + s[n..];
      assert s[n..] == suffix + s[n..][|suffix|..];
      Some(s[..n])
    else None
  }

  function After(s: string, digits: Option<string>, suffix: string): string {
    if digits.Some? && |digits.value| + |suffix| <= |s| then s[|digits.value| + |suffix|..] else s
  }

  function Parse(text: string): Option<Fields> {
    var h := Read(text, "h", "");
    var t1 := After(text, h, "h");
    var m := Read(t1, "m", "s");
    var t2 := After(t1, m, "m");
    var s := Read(t2, "s", "");
    var t3 := After(t2, s, "s");
    var ms := Read(t3, "ms", "");
    var t4 := After(t3, ms, "ms");
    var mu := Read(t4, MICRO_SIGN, "");
    var us := if mu.Some? then mu else Read(t4, "us", "");
    var unit := if mu.Some? then MICRO_SIGN else if us.Some? then "us" else "";
    var t5 := After(t4, us, unit);
    if t5 == "" || t5 == "\n" then Some(Fields(h, m, s, ms, us, unit)) else None
  }

  lemma ReadSplits(s: string, suffix: string, unless: string)
    ensures s == Group(Read(s, suffix, unless), suffix) + After(s, Read(s, suffix, unless), suffix)
  {
  }

  /** What the parser accepts, the expression matches, with the same groups. */
  lemma ParseIsSound(text: string)
    requires Parse(text).Some?
    ensures Matches(text, Parse(text).value)
  {
    hide Read, Group, After;
    var f := Parse(text).value;
    ReadSplits(text, "h", "");
    var t1 := After(text, f.hours, "h");
    ReadSplits(t1, "m", "s");
    var t2 := After(t1, f.minutes, "m");
    ReadSplits(t2, "s", "");
    var t3 := After(t2, f.seconds, "s");
    ReadSplits(t3, "ms", "");
    var t4 := After(t3, f.milliseconds, "ms");
    ReadSplits(t4, MICRO_SIGN, "");
    ReadSplits(t4, "us", "");
    var t5 := After(t4, f.microseconds, f.microUnit);
    NoGroup(t4);
    assert t4 == FromMicros(f) + t5;
    hide FromMicros, Render;
    RenderSplits(f, t5);
  }

  lemma NoGroup(s: string)
    ensures Group(None, "") == "" && After(s, None, "") == s && "" + s == s
  {
  }

  /** What may come after a group: a group of one of the later units, or the end. */
  ghost predicate Leads(s: string, units: seq<string>) {
    s == "" || s == "\n" || exists digits, u, rest :: u in units && LeadsWith(s, digits, u, rest)
  }

  predicate LeadsWith(s: string, digits: string, u: string, rest: string) {
    s == digits + u + rest && digits != "" && AllDigits(digits) && u != "" && !IsDigit(u[0])
  }

  lemma GroupIsRead(digits: string, unit: string, unless: string, rest: string)
    requires LeadsWith(digits + unit + rest, digits, unit, rest)
    requires rest == "" || rest == "\n" || IsDigit(rest[0])
    requires unless == "" || unless == "s"
    ensures Read(digits + unit + rest, unit, unless) == Some(digits)
    ensures After(digits + unit + rest, Some(digits), unit) == rest
  {
    var s := digits + unit + rest;
    assert s == digits + (unit + rest);
    DigitRunIs(digits, unit + rest);
    assert s[..|digits|] == digits && s[|digits|..] == unit + rest;
    assert s[|digits| + |unit|..] == rest;
    assert unit <= s[|digits|..];
    assert rest != "" ==> rest[0] != 's';
  }

  /** A unit is not read out of the group of another: their letters differ, or `unless` tells them apart. */
  lemma OtherIsNotRead(digits: string, u: string, rest: string, unit: string, unless: string)
    requires LeadsWith(digits + u + rest, digits, u, rest) && unit != ""
    requires unit[0] != u[0] || (unless != "" && unit + unless <= u)
    ensures Read(digits + u + rest, unit, unless) == None
  {
    var s := digits + u + rest;
    assert s == digits + (u + rest);
    DigitRunIs(digits, u + rest);
    assert s[|digits|..] == u + rest;
    if unless != "" && unit + unless <= u {
      assert s[|digits| + |unit|..] == (u + rest)[|unit|..];
      assert u[|unit|..][..|unless|] == unless;
    }
  }

  /** One group, present or not, in front of groups of later units only. */
  lemma GroupThenLater(digits: Option<string>, unit: string, unless: string, rest: string, later: seq<string>)
    requires Digits(digits) && unit != "" && !IsDigit(unit[0]) && (unless == "" || unless == "s")
    requires Leads(rest, later)
    requires forall u <- later :: u != "" && (unit[0] != u[0] || (unless != "" && unit + unless <= u))
    ensures var s := Group(digits, unit) + rest;
            Read(s, unit, unless) == digits && After(s, digits, unit) == rest && Leads(s, [unit] + later)
  {
    var s := Group(digits, unit) + rest;
    if digits.Some? {
      assert s == digits.value + unit + rest;
      GroupIsRead(digits.value, unit, unless, rest);
      assert LeadsWith(s, digits.value, unit, rest);
    } else {
      assert s == rest;
      if s != "" && s != "\n" {
        var d, u, r :| u in later && LeadsWith(s, d, u, r);
        OtherIsNotRead(d, u, r, unit, unless);
        assert u in [unit] + later;
      } else {
        assert DigitRun(s) == 0;
      }
    }
  }

  /** The expression assigns its groups in one way only, and the parser finds it: minutes and milliseconds
      are never confused. */
  lemma ParseIsComplete(text: string, f: Fields)
    requires Matches(text, f)
    ensures Parse(text) == Some(f)
  {
    hide Read, Group, After, Leads, Render, FromMinutes, FromSeconds, FromMillis, FromMicros;
    var end := if text == Render(f) then "" else "\n";
    MicrosThenEnd(f, end);
    SecondsOn(f, end);
    var t2 := Group(f.seconds, "s") + (Group(f.milliseconds, "ms") + (FromMicros(f) + end));
    var t1 := Group(f.minutes, "m") + t2;
    GroupThenLater(f.minutes, "m", "s", t2, ["s", "ms", MICRO_SIGN, "us"]);
    assert ["m"] + ["s", "ms", MICRO_SIGN, "us"] == ["m", "s", "ms", MICRO_SIGN, "us"];
    GroupThenLater(f.hours, "h", "", t1, ["m", "s", "ms", MICRO_SIGN, "us"]);
    RenderSplits(f, end);
    assert text == Group(f.hours, "h") + t1;
    MicrosAreRead(f, end);
  }

  /** What the parser makes of the last group. */
  lemma MicrosAreRead(f: Fields, end: string)
    requires Sane(f) && (end == "" || end == "\n")
    ensures var t4 := FromMicros(f) + end;
            var mu := Read(t4, MICRO_SIGN, "");
            var us := if mu.Some? then mu else Read(t4, "us", "");
            var unit := if mu.Some? then MICRO_SIGN else if us.Some? then "us" else "";
            us == f.microseconds && unit == f.microUnit && After(t4, us, unit) == end
  {
    hide Read, After, FromMicros;
    MicrosThenEnd(f, end);
  }

  /** From the seconds on, each group is read where it stands. */
  lemma SecondsOn(f: Fields, end: string)
    requires Sane(f) && (end == "" || end == "\n")
    ensures var t4 := FromMicros(f) + end;
            var t3 := Group(f.milliseconds, "ms") + t4;
            var t2 := Group(f.seconds, "s") + t3;
            && Read(t3, "ms", "") == f.milliseconds && After(t3, f.milliseconds, "ms") == t4
            && Read(t2, "s", "") == f.seconds && After(t2, f.seconds, "s") == t3
            && Leads(t2, ["s", "ms", MICRO_SIGN, "us"])
  {
    hide Read, Group, After, Leads, FromMicros;
    var t4 := FromMicros(f) + end;
    var t3 := Group(f.milliseconds, "ms") + t4;
    MicrosThenEnd(f, end);
    GroupThenLater(f.milliseconds, "ms", "", t4, [MICRO_SIGN, "us"]);
    assert ["ms"] + [MICRO_SIGN, "us"] == ["ms", MICRO_SIGN, "us"];
    GroupThenLater(f.seconds, "s", "", t3, ["ms", MICRO_SIGN, "us"]);
    assert ["s"] + ["ms", MICRO_SIGN, "us"] == ["s", "ms", MICRO_SIGN, "us"];
  }

  lemma RenderSplits(f: Fields, end: string)
    ensures Render(f) + end ==
            Group(f.hours, "h") + (Group(f.minutes, "m") + (Group(f.seconds, "s") + (Group(f.milliseconds, "ms")
            + (FromMicros(f) + end))))
    ensures Render(f) + "" == Render(f)
  {
    hide Group, FromMicros;
  }

  lemma MicrosThenEnd(f: Fields, end: string)
    requires Sane(f) && (end == "" || end == "\n")
    ensures var s := FromMicros(f) + end;
            && Leads(s, [MICRO_SIGN, "us"])
            && After(s, f.microseconds, f.microUnit) == end
            && After(s, None, "") == s
            && Read(s, MICRO_SIGN, "") == (if f.microUnit == "us" then None else f.microseconds)
            && (f.microUnit != MICRO_SIGN ==> Read(s, "us", "") == f.microseconds)
  {
    var s := FromMicros(f) + end;
    if f.microseconds.Some? {
      GroupThenLater(f.microseconds, f.microUnit, "", end, []);
      assert LeadsWith(s, f.microseconds.value, f.microUnit, end);
      if f.microUnit == "us" {
        OtherIsNotRead(f.microseconds.value, "us", end, MICRO_SIGN, "");
      }
    } else {
      assert s == end && DigitRun(s) == 0;
    }
  }

  /** So a text is accepted exactly when the expression matches it, and in one way. */
  lemma AcceptedIffMatched(text: string)
    ensures Parse(text).Some? <==> exists f :: Matches(text, f)
    ensures forall f, g :: Matches(text, f) && Matches(text, g) ==> f == g
  {
    if Parse(text).Some? {
      ParseIsSound(text);
    }
    forall f | Matches(text, f) ensures Parse(text) == Some(f) {
      ParseIsComplete(text, f);
    }
  }

  // --- Conversions --------------------------------------------------------------------------------------

  function Amount(digits: Option<string>): nat
    requires Digits(digits)
  {
    if digits.Some? then NatOf(digits.value) else 0
  }

  function Total(f: Fields): nat
    requires Sane(f)
  {
    3600 * SECOND * Amount(f.hours) + MINUTE * Amount(f.minutes) + SECOND * Amount(f.seconds)
    + 1000 * Amount(f.milliseconds) + Amount(f.microseconds)
  }

  /** convert_from_dapr_duration: None where it raises. */
  function FromDuration(text: string): Option<nat> {
    match Parse(text)
    case Some(f) => ParseIsSound(text); Some(Total(f))
    case None => None
  }

  /** '{:.0f}' of a number of seconds given in microseconds: the nearest integer, and the even one of two. */
  function RoundedSeconds(micros: nat): nat {
    var whole, part := micros / SECOND, micros % SECOND;
    if 2 * part > SECOND || (2 * part == SECOND && whole % 2 == 1) then whole + 1 else whole
  }

  function PrintNumber(n: int): string { if n < 0 then "-" + Decimal(-n) else Decimal(n) }

  /** convert_to_dapr_duration: divmod floors, and the seconds are printed rounded. */
  function ToDuration(td: int): string {
    PrintNumber(td / MINUTE / 60) + "h" + Decimal(td / MINUTE % 60) + "m" + Decimal(RoundedSeconds(td % MINUTE)) + "s"
    + Decimal(td % SECOND / 1000) + "ms" + Decimal(td % SECOND % 1000) + MICRO_SIGN
  }

  predicate RoundsUp(td: int) {
    2 * (td % SECOND) > SECOND || (2 * (td % SECOND) == SECOND && td / SECOND % 2 == 1)
  }

  function Printed(td: nat): Fields {
    Fields(Some(Decimal(td / MINUTE / 60)), Some(Decimal(td / MINUTE % 60)), Some(Decimal(RoundedSeconds(td % MINUTE))),
           Some(Decimal(td % SECOND / 1000)), Some(Decimal(td % SECOND % 1000)), MICRO_SIGN)
  }

  lemma PrintedTotal(td: nat)
    ensures Sane(Printed(td)) && Total(Printed(td)) == td + if RoundsUp(td) then SECOND else 0
  {
    hide Decimal, NatOf, RoundedSeconds, RoundsUp;
    NatOfDecimal(td / MINUTE / 60);
    NatOfDecimal(td / MINUTE % 60);
    NatOfDecimal(RoundedSeconds(td % MINUTE));
    NatOfDecimal(td % SECOND / 1000);
    NatOfDecimal(td % SECOND % 1000);
    SecondsRoundUp(td);
    AddUp(td, RoundedSeconds(td % MINUTE), if RoundsUp(td) then SECOND else 0);
  }

  lemma AddUp(td: nat, seconds: nat, extra: nat)
    requires SECOND * seconds + td % SECOND == td % MINUTE + extra
    ensures 3600 * SECOND * (td / MINUTE / 60) + MINUTE * (td / MINUTE % 60) + SECOND * seconds
            + 1000 * (td % SECOND / 1000) + td % SECOND % 1000 == td + extra
  {
  }

  lemma SecondsRoundUp(td: nat)
    ensures SECOND * RoundedSeconds(td % MINUTE) + td % SECOND == td % MINUTE + if RoundsUp(td) then SECOND else 0
  {
    var rest := td % MINUTE;
    MinutesAside(td);
    assert rest == SECOND * (rest / SECOND) + rest % SECOND;
  }

  /** Whole minutes are an even number of seconds. */
  lemma MinutesAside(td: nat)
    ensures td % SECOND == td % MINUTE % SECOND
    ensures td / SECOND % 2 == td % MINUTE / SECOND % 2
  {
    var minutes, rest := td / MINUTE, td % MINUTE;
    var whole, part := rest / SECOND, rest % SECOND;
    assert td == 60 * SECOND * minutes + rest;
    Parts(rest);
    Unique(td, 60 * minutes + whole, part);
    EvenMinutes(minutes, whole);
  }

  lemma Parts(n: nat)
    ensures n == SECOND * (n / SECOND) + n % SECOND && n % SECOND < SECOND
  {
  }

  lemma EvenMinutes(minutes: nat, whole: nat)
    ensures (60 * minutes + whole) % 2 == whole % 2
  {
    assert 60 * minutes + whole == 2 * (30 * minutes) + whole;
  }

  lemma Unique(td: nat, whole: nat, part: nat)
    requires td == SECOND * whole + part && part < SECOND
    ensures td / SECOND == whole && td % SECOND == part
  {
  }

  /** Reading back what was printed adds a second if the seconds were rounded up, and fails for a negative
      duration. */
  lemma PrintedReadsBack(td: int)
    ensures FromDuration(ToDuration(td)) ==
            if td < 0 then None else Some(td + if RoundsUp(td) then SECOND else 0)
  {
    hide Parse, Total, RoundsUp;
    if td < 0 {
      NegativeStarts(td);
      NothingBeforeMinus(ToDuration(td));
    } else {
      hide ToDuration, Render, Sane;
      PrintedTotal(td);
      RenderPrinted(td);
      ParseIsComplete(ToDuration(td), Printed(td));
    }
  }

  lemma NegativeStarts(td: int)
    requires td < 0
    ensures ToDuration(td) != "" && ToDuration(td)[0] == '-'
  {
    assert td / MINUTE / 60 < 0;
    assert PrintNumber(td / MINUTE / 60)[0] == '-';
  }

  lemma RenderPrinted(td: nat)
    ensures Render(Printed(td)) == ToDuration(td)
  {
    hide Decimal, RoundedSeconds;
    FromTheRight(Decimal(td / MINUTE / 60) + "h", Decimal(td / MINUTE % 60) + "m", Decimal(RoundedSeconds(td % MINUTE)) + "s",
      Decimal(td % SECOND / 1000) + "ms", Decimal(td % SECOND % 1000) + MICRO_SIGN);
    FromTheLeft(Decimal(td / MINUTE / 60) + "h", Decimal(td / MINUTE % 60), "m", Decimal(RoundedSeconds(td % MINUTE)), "s",
      Decimal(td % SECOND / 1000), "ms", Decimal(td % SECOND % 1000), MICRO_SIGN);
  }

  lemma FromTheRight(a: string, b: string, c: string, d: string, e: string)
    ensures a + (b + (c + (d + e))) == a + b + c + d + e
  {
  }

  lemma FromTheLeft(a: string, b: string, b': string, c: string, c': string, d: string, d': string, e: string, e': string)
    ensures a + b + b' + c + c' + d + d' + e + e' == a + (b + b') + (c + c') + (d + d') + (e + e')
  {
    assert a + b + b' == a + (b + b');
    var x := a + b + b';
    assert x + c + c' == x + (c + c');
    var y := x + c + c';
    assert y + d + d' == y + (d + d');
  }

  lemma NothingBeforeMinus(text: string)
    requires text != "" && text[0] == '-'
    ensures Parse(text) == None
  {
  }

  /** The printer and the parser are inverse exactly for durations that are not negative and whose part
      below a second is less than half of one, or half of one after an even number of seconds. */
  lemma DurationRoundTripIff(td: int)
    ensures (var r := FromDuration(ToDuration(td)); r.Some? && r.value == td) <==> td >= 0 && !RoundsUp(td)
  {
    hide FromDuration, ToDuration, RoundsUp;
    PrintedReadsBack(td);
  }

  /** One of each unit: 3 723 004 005 microseconds. */
  lemma OneOfEach()
    ensures ToDuration(3_723_004_005) == "1h2m3s4ms5" + MICRO_SIGN
    ensures FromDuration("1h2m3s4ms5us") == Some(3_723_004_005)
  {
    hide Parse, Decimal, NatOf, Matches, Total;
    SmallDecimals();
    var f := Fields(Some("1"), Some("2"), Some("3"), Some("4"), Some("5"), "us");
    OneOfEachMatches(f);
    ParseIsComplete("1h2m3s4ms5us", f);
  }

  lemma SmallDecimals()
    ensures Decimal(1) == "1" && Decimal(2) == "2" && Decimal(3) == "3" && Decimal(4) == "4" && Decimal(5) == "5"
  {
  }

  lemma OneOfEachMatches(f: Fields)
    requires f == Fields(Some("1"), Some("2"), Some("3"), Some("4"), Some("5"), "us")
    ensures Matches("1h2m3s4ms5us", f) && Total(f) == 3_723_004_005
  {
    assert NatOf("1") == 1 && NatOf("2") == 2 && NatOf("3") == 3 && NatOf("4") == 4 && NatOf("5") == 5;
  }
}
