/** UTF-8 as RFC 3629 defines it. */
module Utf8 {
  import opened Wrappers
  import opened Base64

  function EncodeChar(c: char): (r: seq<byte>)
    ensures 1 <= |r| <= 4
  {
    var n := c as int;
    if n < 0x80 then [n]
    else if n < 0x800 then [0xC0 + n / 64, 0x80 + n % 64]
    else if n < 0x1_0000 then [0xE0 + n / 64 / 64, 0x80 + n / 64 % 64, 0x80 + n % 64]
    else [0xF0 + n / 64 / 64 / 64, 0x80 + n / 64 / 64 % 64, 0x80 + n / 64 % 64, 0x80 + n % 64]
  }

  function Encode(s: string): seq<byte> {
    if s == "" then [] else EncodeChar(s[0]) + Encode(s[1..])
  }

  predicate Continues(b: byte) { 0x80 <= b < 0xC0 }

  /** The six bits of a continuation byte, after those in front of it. */
  function Shift(front: int, b: byte): int { front * 64 + (b as int - 0x80) }

  predicate IsScalar(n: int) { 0 <= n < 0xD800 || 0xE000 <= n < 0x11_0000 }

  /** The first character and how many bytes it takes; no overlong form, no surrogate. */
  function DecodeChar(bytes: seq<byte>): (r: Option<(char, nat)>)
    ensures r.Some? ==> 1 <= r.value.1 <= |bytes|
  {
    if bytes == [] then None
    else if bytes[0] < 0x80 then Some((bytes[0] as char, 1))
    else if bytes[0] < 0xC0 then None
    else if bytes[0] < 0xE0 then
      if |bytes| < 2 || !Continues(bytes[1]) then None
      else
        var n := Shift(bytes[0] as int - 0xC0, bytes[1]);
        if n < 0x80 then None else Some((n as char, 2))
    else if bytes[0] < 0xF0 then
      if |bytes| < 3 || !Continues(bytes[1]) || !Continues(bytes[2]) then None
      else
        var n := Shift(Shift(bytes[0] as int - 0xE0, bytes[1]), bytes[2]);
        if n < 0x800 || !IsScalar(n) then None else Some((n as char, 3))
    else if |bytes| < 4 || !Continues(bytes[1]) || !Continues(bytes[2]) || !Continues(bytes[3]) then None
    else
      var n := Shift(Shift(Shift(bytes[0] as int - 0xF0, bytes[1]), bytes[2]), bytes[3]);
      if n < 0x1_0000 || !IsScalar(n) then None else Some((n as char, 4))
  }

  function Decode(bytes: seq<byte>): Option<string>
    decreases |bytes|
  {
    if bytes == [] then Some("")
    else match DecodeChar(bytes)
      case None => None
      case Some((c, n)) =>
        match Decode(bytes[n..])
        case Some(rest) => Some([c] + rest)
        case None => None
  }

  lemma DecodeEncodeChar(c: char, rest: seq<byte>)
    ensures DecodeChar(EncodeChar(c) + rest) == Some((c, |EncodeChar(c)|))
  {
  }

  lemma {:induction false} DecodeEncode(s: string)
    ensures Decode(Encode(s)) == Some(s)
  {
    if s != "" {
      hide DecodeChar, EncodeChar;
      DecodeEncodeChar(s[0], Encode(s[1..]));
      DecodeEncode(s[1..]);
      assert Encode(s)[|EncodeChar(s[0])|..] == Encode(s[1..]);
      assert s == [s[0]] + s[1..];
    }
  }

  /** A text has no more characters than bytes. */
  lemma {:induction false} DecodedIsShorter(bytes: seq<byte>)
    requires Decode(bytes).Some?
    ensures |Decode(bytes).value| <= |bytes|
    decreases |bytes|
  {
    if bytes != [] {
      hide DecodeChar;
      DecodedIsShorter(bytes[DecodeChar(bytes).value.1..]);
    }
  }

  /** The examples of one to four bytes: A, the copyright sign, not-identical-to, and a character beyond
      the basic plane, the last two from section 7 of RFC 3629. */
  lemma PublishedVectors()
    ensures EncodeChar('A') == [0x41] && EncodeChar('\U{A9}') == [0xC2, 0xA9]
    ensures EncodeChar('\U{2262}') == [0xE2, 0x89, 0xA2] && EncodeChar('\U{233B4}') == [0xF0, 0xA3, 0x8E, 0xB4]
  {
  }
}
