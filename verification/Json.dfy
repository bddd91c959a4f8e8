/** JSON texts, read as section 2 of RFC 8259 defines them and written as the default serialiser does:
    without white space, and with every character outside printable ASCII escaped if asked to. */
module Json {
  import opened Wrappers
  import opened Decimals

  /** A float goes by its text: reading and printing it back is the float's own business. */
  datatype Json =
    | JNull
    | JBool(b: bool)
    | JInt(i: int)
    | JFloat(lexeme: string)
    | JString(s: string)
    | JArray(items: seq<Json>)
    | JObject(members: seq<(string, Json)>)

  // --- Reading strings ------------------------------------------------------------------------------

  predicate IsHex(c: char) { IsDigit(c) || 'a' <= c <= 'f' || 'A' <= c <= 'F' }

  function HexValue(c: char): (n: nat)
    requires IsHex(c)
    ensures n < 16
  {
    if IsDigit(c) then DigitValue(c)
    else if 'a' <= c <= 'f' then c as nat - 'a' as nat + 10
    else c as nat - 'A' as nat + 10
  }

  /** The four hexadecimal digits after \u. */
  function Hex4(s: string): (r: Option<nat>)
    ensures r.Some? ==> |s| >= 4 && r.value < 0x1_0000
  {
    if |s| >= 4 && IsHex(s[0]) && IsHex(s[1]) && IsHex(s[2]) && IsHex(s[3]) then
      Some(HexValue(s[0]) * 4096 + HexValue(s[1]) * 256 + HexValue(s[2]) * 16 + HexValue(s[3]))
    else None
  }

  predicate IsHigh(n: nat) { 0xD800 <= n < 0xDC00 }
  predicate IsLow(n: nat) { 0xDC00 <= n < 0xE000 }

  /** The character that a letter stands for after a backslash. */
  function Unletter(c: char): Option<char> {
    if c == '\"' || c == '\\' || c == '/' then Some(c)
    else if c == 'b' then Some(8 as char)
    else if c == 'f' then Some(12 as char)
    else if c == 'n' then Some('\n')
    else if c == 'r' then Some('\r')
    else if c == 't' then Some('\t')
    else None
  }

  /** One escape after its backslash: the character, and how many characters were read. */
  function ReadEscape(s: string): (r: Option<(char, nat)>)
    ensures r.Some? ==> 1 <= r.value.1 <= |s|
  {
    if s == [] then None
    else if s[0] == 'u' then ReadUnicode(s[1..])
    else match Unletter(s[0]) case Some(c) => Some((c, 1)) case None => None
  }

  /** A code unit, or a surrogate pair.  A surrogate on its own is not a character here. */
  function ReadUnicode(s: string): (r: Option<(char, nat)>)
    ensures r.Some? ==> 1 <= r.value.1 <= |s| + 1
  {
    match Hex4(s)
    case None => None
    case Some(n) =>
      if IsHigh(n) then
        if |s| >= 10 && s[4] == '\\' && s[5] == 'u' then
          match Hex4(s[6..])
          case Some(m) =>
            if IsLow(m) then Some((Astral(n, m), 11)) else None
          case None => None
        else None
      else if IsLow(n) then None
      else Some((n as char, 5))
  }

  function Astral(high: nat, low: nat): char
    requires IsHigh(high) && IsLow(low)
  {
    (0x1_0000 + (high - 0xD800) * 1024 + (low - 0xDC00)) as char
  }

  /** The rest of a string after its opening quote: its contents, and what follows the closing quote. */
  function ReadString(s: string): (r: Option<(string, string)>)
    ensures r.Some? ==> |r.value.1| < |s|
    decreases |s|
  {
    if s == [] then None
    else if s[0] == '\"' then Some(([], s[1..]))
    else if s[0] == '\\' then
      match ReadEscape(s[1..])
      case None => None
      case Some((c, n)) =>
        (match ReadString(s[1 + n..]) case Some((tail, rest)) => Some(([c] + tail, rest)) case None => None)
    else if s[0] < ' ' then None
    else match ReadString(s[1..]) case Some((tail, rest)) => Some(([s[0]] + tail, rest)) case None => None
  }

  // --- Reading numbers ------------------------------------------------------------------------------

  /** The lengths of the integer, fraction and exponent parts that a text starts with; 0 if it does not. */
  function ScanInt(s: string): (n: nat)
    ensures n <= |s|
  {
    if s != [] && s[0] == '-' then (if ScanNat(s[1..]) == 0 then 0 else 1 + ScanNat(s[1..])) else ScanNat(s)
  }

  function ScanNat(s: string): (n: nat)
    ensures n <= |s| && AllDigits(s[..n])
  {
    if s != [] && s[0] == '0' then 1 else DigitRun(s)
  }

  function ScanFraction(s: string): (n: nat)
    ensures n <= |s|
  {
    if s != [] && s[0] == '.' && DigitRun(s[1..]) > 0 then 1 + DigitRun(s[1..]) else 0
  }

  function SignLength(s: string): (n: nat)
    ensures n <= |s|
  {
    if s != [] && (s[0] == '+' || s[0] == '-') then 1 else 0
  }

  function ScanExponent(s: string): (n: nat)
    ensures n <= |s|
  {
    if s == [] || (s[0] != 'e' && s[0] != 'E') then 0
    else
      var sign := SignLength(s[1..]);
      var digits := DigitRun(s[1..][sign..]);
      if digits > 0 then 1 + sign + digits else 0
  }

  function IntOf(s: string): int
    requires s != [] && ScanInt(s) == |s|
  {
    if s[0] == '-' then
      assert s[1..][..ScanNat(s[1..])] == s[1..];
      0 - NatOf(s[1..])
    else
      assert s[..ScanNat(s)] == s;
      NatOf(s)
  }

  lemma ScanIntPrefix(s: string)
    ensures ScanInt(s[..ScanInt(s)]) == ScanInt(s)
  {
    var n := ScanInt(s);
    if n > 0 {
      var p := s[..n];
      if s[0] == '-' {
        assert p[1..] == s[1..][..n - 1];
        ScanNatPrefix(s[1..]);
      } else {
        ScanNatPrefix(s);
      }
    }
  }

  lemma ScanNatPrefix(s: string)
    ensures ScanNat(s[..ScanNat(s)]) == ScanNat(s)
  {
  }

  function ReadNumber(s: string): (r: Option<(Json, string)>)
    ensures r.Some? ==> |r.value.1| < |s|
  {
    var n := ScanInt(s);
    if n == 0 then None
    else
      var f := ScanFraction(s[n..]);
      var e := ScanExponent(s[n + f..]);
      if f == 0 && e == 0 then ScanIntPrefix(s); Some((JInt(IntOf(s[..n])), s[n..]))
      else Some((JFloat(s[..n + f + e]), s[n + f + e..]))
  }

  // --- Reading values -------------------------------------------------------------------------------

  predicate IsWhite(c: char) { c == ' ' || c == '\t' || c == '\n' || c == '\r' }

  function SkipWhite(s: string): (r: string)
    ensures |r| <= |s|
  {
    if s != [] && IsWhite(s[0]) then SkipWhite(s[1..]) else s
  }

  predicate StartsWith(s: string, p: string) { |p| <= |s| && s[..|p|] == p }

  function ReadValue(s: string): (r: Option<(Json, string)>)
    ensures r.Some? ==> |r.value.1| < |s|
    decreases |s|, 1
  {
    if s == [] then None
    else if s[0] == '\"' then
      match ReadString(s[1..]) case Some((t, rest)) => Some((JString(t), rest)) case None => None
    else if s[0] == '[' then
      var t := SkipWhite(s[1..]);
      if t != [] && t[0] == ']' then Some((JArray([]), t[1..]))
      else match ReadItems(t) case Some((items, rest)) => Some((JArray(items), rest)) case None => None
    else if s[0] == '{' then
      var t := SkipWhite(s[1..]);
      if t != [] && t[0] == '}' then Some((JObject([]), t[1..]))
      else match ReadMembers(t) case Some((ms, rest)) => Some((JObject(AsDict(ms)), rest)) case None => None
    else if s[0] == '-' || IsDigit(s[0]) then ReadNumber(s)
    else if StartsWith(s, "null") then Some((JNull, s[4..]))
    else if StartsWith(s, "true") then Some((JBool(true), s[4..]))
    else if StartsWith(s, "false") then Some((JBool(false), s[5..]))
    else None
  }

  /** One or more items, and the closing bracket. */
  function ReadItems(s: string): (r: Option<(seq<Json>, string)>)
    ensures r.Some? ==> |r.value.1| < |s|
    decreases |s|, 2
  {
    match ReadValue(s)
    case None => None
    case Some((item, rest)) =>
      var t := SkipWhite(rest);
      if t == [] then None
      else if t[0] == ']' then Some(([item], t[1..]))
      else if t[0] == ',' then
        match ReadItems(SkipWhite(t[1..]))
        case Some((items, rest)) => Some(([item] + items, rest))
        case None => None
      else None
  }

  /** One or more members, and the closing brace. */
  function ReadMembers(s: string): (r: Option<(seq<(string, Json)>, string)>)
    ensures r.Some? ==> |r.value.1| < |s|
    decreases |s|, 2
  {
    if s == [] || s[0] != '\"' then None
    else match ReadString(s[1..])
      case None => None
      case Some((key, rest)) =>
        var t := SkipWhite(rest);
        if t == [] || t[0] != ':' then None
        else match ReadValue(SkipWhite(t[1..]))
          case None => None
          case Some((value, rest)) =>
            var u := SkipWhite(rest);
            if u == [] then None
            else if u[0] == '}' then Some(([(key, value)], u[1..]))
            else if u[0] == ',' then
              match ReadMembers(SkipWhite(u[1..]))
              case Some((ms, rest)) => Some(([(key, value)] + ms, rest))
              case None => None
            else None
  }

  /** A repeated key keeps its first place and its last value. */
  function AsDict(ms: seq<(string, Json)>): seq<(string, Json)> {
    if ms == [] then []
    else
      var d, last := AsDict(ms[..|ms| - 1]), ms[|ms| - 1];
      if exists i :: 0 <= i < |d| && d[i].0 == last.0 then
        seq(|d|, i requires 0 <= i < |d| => if d[i].0 == last.0 then last else d[i])
      else d + [last]
  }

  predicate DistinctKeys(ms: seq<(string, Json)>) {
    forall i, j :: 0 <= i < j < |ms| ==> ms[i].0 != ms[j].0
  }

  lemma {:induction false} DistinctIsDict(ms: seq<(string, Json)>)
    requires DistinctKeys(ms)
    ensures AsDict(ms) == ms
  {
    if ms != [] {
      var n := |ms| - 1;
      DistinctIsDict(ms[..n]);
      assert ms[..n] + [ms[n]] == ms;
    }
  }

  /** json.loads: one value, with white space around it and nothing after. */
  function Loads(s: string): Option<Json> {
    match ReadValue(SkipWhite(s))
    case Some((j, rest)) => if SkipWhite(rest) == [] then Some(j) else None
    case None => None
  }
}
