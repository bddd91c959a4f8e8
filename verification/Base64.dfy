/** Base64 as section 4 of RFC 4648 defines it, with padding. */
module Base64 {
  import opened Wrappers
  import opened Json

  type byte = n: int | 0 <= n < 256

  function Letter64(n: nat): (c: char)
    requires n < 64
    ensures Plain(c) && Value64(c) == Some(n)
  {
    if n < 26 then (n + 'A' as int) as char
    else if n < 52 then (n - 26 + 'a' as int) as char
    else if n < 62 then (n - 52 + '0' as int) as char
    else if n == 62 then '+'
    else '/'
  }

  function Value64(c: char): (r: Option<nat>)
    ensures r.Some? ==> r.value < 64
  {
    if 'A' <= c <= 'Z' then Some(c as int - 'A' as int)
    else if 'a' <= c <= 'z' then Some(c as int - 'a' as int + 26)
    else if '0' <= c <= '9' then Some(c as int - '0' as int + 52)
    else if c == '+' then Some(62)
    else if c == '/' then Some(63)
    else None
  }

  /** Printable ASCII that JSON leaves alone. */
  predicate Plain(c: char) { ' ' <= c <= '~' && c != '\"' && c != '\\' }

  /** The four letters of three bytes. */
  function Letters(a: byte, b: byte, c: byte): (s: string)
    ensures |s| == 4
  {
    [Letter64(a / 4), Letter64(a % 4 * 16 + b / 16), Letter64(b % 16 * 4 + c / 64), Letter64(c % 64)]
  }

  function Encode(bytes: seq<byte>): string {
    if bytes == [] then ""
    else if |bytes| == 1 then Letters(bytes[0], 0, 0)[..2] + "=="
    else if |bytes| == 2 then Letters(bytes[0], bytes[1], 0)[..3] + "="
    else Letters(bytes[0], bytes[1], bytes[2]) + Encode(bytes[3..])
  }

  /** The bytes that two, three or four letters stand for; bits left over are dropped. */
  function Bytes(v0: nat, v1: nat, v2: nat, v3: nat): (r: seq<byte>)
    requires v0 < 64 && v1 < 64 && v2 < 64 && v3 < 64
    ensures |r| == 3
  {
    [v0 * 4 + v1 / 16, v1 % 16 * 16 + v2 / 4, v2 % 4 * 64 + v3]
  }

  /** b64decode with validation: None where it raises. */
  function Decode(s: string): Option<seq<byte>>
    decreases |s|
  {
    if s == "" then Some([])
    else if |s| < 4 then None
    else match (Value64(s[0]), Value64(s[1]))
      case (Some(v0), Some(v1)) =>
        if s[2..] == "==" then Some(Bytes(v0, v1, 0, 0)[..1])
        else (match Value64(s[2])
          case None => None
          case Some(v2) =>
            if s[3..] == "=" then Some(Bytes(v0, v1, v2, 0)[..2])
            else (match (Value64(s[3]), Decode(s[4..]))
              case (Some(v3), Some(rest)) => Some(Bytes(v0, v1, v2, v3) + rest)
              case (_, _) => None))
      case (_, _) => None
  }

  lemma BytesOfLetters(a: byte, b: byte, c: byte)
    ensures Bytes(a / 4, a % 4 * 16 + b / 16, b % 16 * 4 + c / 64, c % 64) == [a, b, c]
  {
  }

  lemma TwoLetters(s: string)
    requires |s| == 4 && s[2] == '=' && s[3] == '=' && Value64(s[0]).Some? && Value64(s[1]).Some?
    ensures Decode(s) == Some(Bytes(Value64(s[0]).value, Value64(s[1]).value, 0, 0)[..1])
  {
    hide Value64, Bytes;
    assert s[2..] == "==";
  }

  /** The letters of three bytes: none is the padding, and they stand for the bytes. */
  lemma LettersSay(a: byte, b: byte, c: byte)
    ensures var l := Letters(a, b, c);
      && Value64(l[0]).Some? && Value64(l[1]).Some? && l[2] != '=' && l[3] != '='
      && Value64(l[2]) == Some(b % 16 * 4 + c / 64) && Value64(l[3]) == Some(c % 64)
      && Bytes(Value64(l[0]).value, Value64(l[1]).value, Value64(l[2]).value, Value64(l[3]).value) == [a, b, c]
  {
    hide Letter64, Value64, Bytes;
    BytesOfLetters(a, b, c);
    EqualsIsNoLetter(b % 16 * 4 + c / 64);
    EqualsIsNoLetter(c % 64);
  }

  lemma DecodeOne(a: byte)
    ensures Decode(Encode([a])) == Some([a])
  {
    hide Letters, Value64, Bytes, Decode;
    var s, l := Encode([a]), Letters(a, 0, 0);
    LettersSay(a, 0, 0);
    assert s == l[..2] + "==";
    assert s[0] == l[0] && s[1] == l[1] && s[2] == '=' && s[3] == '=';
    TwoLetters(s);
    assert [a] == [a, 0, 0][..1];
  }

  lemma ThreeLetters(s: string)
    requires |s| == 4 && s[2] != '=' && s[3] == '='
    requires Value64(s[0]).Some? && Value64(s[1]).Some? && Value64(s[2]).Some?
    ensures Decode(s) == Some(Bytes(Value64(s[0]).value, Value64(s[1]).value, Value64(s[2]).value, 0)[..2])
  {
    hide Value64, Bytes;
    assert s[2..][0] == s[2] && s[3..] == "=";
    assert s[2..] != "==";
  }

  lemma DecodeTwo(a: byte, b: byte)
    ensures Decode(Encode([a, b])) == Some([a, b])
  {
    hide Letters, Value64, Bytes, Decode;
    var s, l := Encode([a, b]), Letters(a, b, 0);
    LettersSay(a, b, 0);
    assert s == l[..3] + "=";
    assert s[0] == l[0] && s[1] == l[1] && s[2] == l[2] && s[3] == '=';
    ThreeLetters(s);
    assert [a, b] == [a, b, 0][..2];
  }

  lemma FourLetters(s: string)
    requires |s| >= 4 && s[2] != '=' && s[3] != '='
    requires Value64(s[0]).Some? && Value64(s[1]).Some? && Value64(s[2]).Some? && Value64(s[3]).Some?
    ensures Decode(s) == match Decode(s[4..])
            case Some(tail) => Some(Bytes(Value64(s[0]).value, Value64(s[1]).value, Value64(s[2]).value, Value64(s[3]).value) + tail)
            case None => None
  {
    hide Value64, Bytes;
    assert s[2..][0] == s[2] && s[3..][0] == s[3];
    assert s[2..] != "==" && s[3..] != "=";
  }

  lemma DecodeThree(a: byte, b: byte, c: byte, rest: string)
    ensures Decode(Letters(a, b, c) + rest) == match Decode(rest) case Some(tail) => Some([a, b, c] + tail) case None => None
  {
    hide Letters, Value64, Bytes, Decode;
    var s, l := Letters(a, b, c) + rest, Letters(a, b, c);
    LettersSay(a, b, c);
    assert s[0] == l[0] && s[1] == l[1] && s[2] == l[2] && s[3] == l[3] && s[4..] == rest;
    FourLetters(s);
  }

  /** Decoding recovers every byte string, the empty one included. */
  lemma {:induction false} DecodeEncode(bytes: seq<byte>)
    ensures Decode(Encode(bytes)) == Some(bytes)
    decreases |bytes|
  {
    hide Decode, Letters;
    if bytes == [] {
      DecodeNothing();
    } else if |bytes| == 1 {
      DecodeOne(bytes[0]);
      assert bytes == [bytes[0]];
    } else if |bytes| == 2 {
      DecodeTwo(bytes[0], bytes[1]);
      assert bytes == [bytes[0], bytes[1]];
    } else {
      DecodeEncode(bytes[3..]);
      DecodeThree(bytes[0], bytes[1], bytes[2], Encode(bytes[3..]));
      assert bytes == [bytes[0], bytes[1], bytes[2]] + bytes[3..];
    }
  }

  lemma DecodeNothing()
    ensures Decode("") == Some([])
  {
  }

  lemma EqualsIsNoLetter(n: nat)
    requires n < 64
    ensures Letter64(n) != '='
  {
  }

  lemma {:induction false} EncodedIsPlain(bytes: seq<byte>)
    ensures forall i :: 0 <= i < |Encode(bytes)| ==> Plain(Encode(bytes)[i])
    ensures |bytes| > 0 ==> |Encode(bytes)| > 0
    decreases |bytes|
  {
    if |bytes| > 2 {
      EncodedIsPlain(bytes[3..]);
    }
  }

  /** What is decoded is shorter than what encodes it. */
  lemma {:induction false} DecodedIsShorter(s: string)
    requires Decode(s).Some?
    ensures 4 * |Decode(s).value| <= 3 * |s|
    decreases |s|
  {
    hide Value64;
    if s != "" && s[2..] != "==" && s[3..] != "=" {
      DecodedIsShorter(s[4..]);
    }
  }

  // --- The alphabet, and the vectors of section 10 of RFC 4648 -------------------------------------------

  /** A to Z, a to z, 0 to 9, + and /. */
  lemma AlphabetIs(n: nat)
    requires n < 63
    ensures Letter64(0) == 'A' && Letter64(26) == 'a' && Letter64(52) == '0' && Letter64(62) == '+' && Letter64(63) == '/'
    ensures n !in [25, 51, 61, 62] ==> Letter64(n + 1) as int == Letter64(n) as int + 1
  {
  }

  /** Three bytes are written as the four letters that hold their 24 bits, the most significant first. */
  lemma LettersAreBits(a: byte, b: byte, c: byte)
    ensures exists v0: nat, v1: nat, v2: nat, v3: nat :: Stand(Letters(a, b, c), a, b, c, v0, v1, v2, v3)
  {
    assert Stand(Letters(a, b, c), a, b, c, a / 4, a % 4 * 16 + b / 16, b % 16 * 4 + c / 64, c % 64) by {
      hide Letter64, Value64;
    }
  }

  predicate Stand(s: string, a: byte, b: byte, c: byte, v0: nat, v1: nat, v2: nat, v3: nat)
    requires |s| == 4
  {
    && Value64(s[0]) == Some(v0) && Value64(s[1]) == Some(v1) && Value64(s[2]) == Some(v2) && Value64(s[3]) == Some(v3)
    && v0 * 0x4_0000 + v1 * 0x1000 + v2 * 0x40 + v3 == a as int * 0x1_0000 + b as int * 0x100 + c as int
  }

  /** "f", "fo" and "foobar". */
  lemma PublishedVectors()
    ensures Encode([0x66]) == "Zg==" && Encode([0x66, 0x6F]) == "Zm8="
    ensures Encode([0x66, 0x6F, 0x6F, 0x62, 0x61, 0x72]) == "Zm9vYmFy"
  {
    assert Letters(0x66, 0x6F, 0x6F) == "Zm9v" && Letters(0x62, 0x61, 0x72) == "YmFy";
    var s: seq<byte> := [0x66, 0x6F, 0x6F, 0x62, 0x61, 0x72];
    assert s[3..] == [0x62, 0x61, 0x72] && s[3..][3..] == [];
    assert Encode(s[3..]) == "YmFy";
  }
}
