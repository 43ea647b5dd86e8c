/** Escaping for the JSONL output, against a reader of JSON strings (section 7 of RFC 8259). */
module JsonText {
  import opened Bytes
  import opened Wrappers

  const QUOTE: byte := 0x22
  const BACKSLASH: byte := 0x5C

  function HexDigit(v: nat): byte
    requires v < 16
  {
    if v < 10 then 0x30 + v else 0x61 + (v - 10)
  }

  function EscapeByte(b: byte): (s: seq<byte>)
    ensures s != []
  {
    if b == QUOTE || b == BACKSLASH then [BACKSLASH, b]
    else if b == 0x08 then [BACKSLASH, 0x62]
    else if b == 0x0C then [BACKSLASH, 0x66]
    else if b == 0x0A then [BACKSLASH, 0x6E]
    else if b == 0x0D then [BACKSLASH, 0x72]
    else if b == 0x09 then [BACKSLASH, 0x74]
    else if b < 0x20 then [BACKSLASH, 0x75, 0x30, 0x30, HexDigit(b / 16), HexDigit(b % 16)]
    else [b]
  }

  function Escaped(input: seq<byte>): seq<byte> {
    if input == [] then [] else Escaped(input[..|input| - 1]) + EscapeByte(input[|input| - 1])
  }

  method JsonEscape(input: seq<byte>) returns (output: seq<byte>)
    ensures output == Escaped(input)
  {
    output := [];
    for i := 0 to |input|
      invariant output == Escaped(input[..i])
    {
      assert input[..i + 1][..i] == input[..i];
      var value := input[i];
      if value == 0x22 {
        output := output + [0x5C, 0x22];
      } else if value == 0x5C {
        output := output + [0x5C, 0x5C];
      } else if value == 0x08 {
        output := output + [0x5C, 0x62];
      } else if value == 0x0C {
        output := output + [0x5C, 0x66];
      } else if value == 0x0A {
        output := output + [0x5C, 0x6E];
      } else if value == 0x0D {
        output := output + [0x5C, 0x72];
      } else if value == 0x09 {
        output := output + [0x5C, 0x74];
      } else if value < 0x20 {
        output := output + [0x5C, 0x75] + FourHexDigits(value);
      } else {
        output := output + [value];
      }
    }
    assert input[..|input|] == input;
  }

  function FourHexDigits(v: byte): seq<byte> { [0x30, 0x30, HexDigit(v / 16), HexDigit(v % 16)] }

  // ---------------------------------------------------------------- reading a string

  function HexValue(c: byte): Option<nat> {
    if 0x30 <= c <= 0x39 then Some(c - 0x30)
    else if 0x61 <= c <= 0x66 then Some(c - 0x61 + 10)
    else if 0x41 <= c <= 0x46 then Some(c - 0x41 + 10)
    else None
  }

  /** One character of a string behind its opening quote, and how many bytes it takes; ASCII escapes only. */
  function ReadChar(s: seq<byte>): Option<(byte, nat)> {
    if s == [] || s[0] < 0x20 || s[0] == QUOTE then None
    else if s[0] != BACKSLASH then Some((s[0], 1))
    else if |s| < 2 then None
    else if s[1] == QUOTE || s[1] == BACKSLASH || s[1] == 0x2F then Some((s[1], 2))
    else if s[1] == 0x62 then Some((0x08, 2))
    else if s[1] == 0x66 then Some((0x0C, 2))
    else if s[1] == 0x6E then Some((0x0A, 2))
    else if s[1] == 0x72 then Some((0x0D, 2))
    else if s[1] == 0x74 then Some((0x09, 2))
    else if s[1] == 0x75 && |s| >= 6 && s[2] == 0x30 && s[3] == 0x30 then
      match (HexValue(s[4]), HexValue(s[5]))
      case (Some(high), Some(low)) => if high < 8 then Some((16 * high + low, 6)) else None
      case _ => None
    else None
  }

  /** The string up to its closing quote, and what follows that. */
  function ReadString(s: seq<byte>, done: seq<byte>): Option<(seq<byte>, seq<byte>)>
    decreases |s|
  {
    if s != [] && s[0] == QUOTE then Some((done, s[1..]))
    else
      match ReadChar(s)
      case None => None
      case Some(c) => if 0 < c.1 <= |s| then ReadString(s[c.1..], done + [c.0]) else None
  }

  lemma HexRoundTrip(v: nat)
    requires v < 16
    ensures HexValue(HexDigit(v)) == Some(v)
  {
  }

  lemma CharRoundTrip(b: byte, rest: seq<byte>)
    ensures ReadChar(EscapeByte(b) + rest) == Some((b, |EscapeByte(b)|))
  {
    if b < 0x20 {
      HexRoundTrip(b / 16);
      HexRoundTrip(b % 16);
    }
  }

  lemma EscapedFront(b: byte, input: seq<byte>)
    ensures Escaped([b] + input) == EscapeByte(b) + Escaped(input)
  {
    hide EscapeByte;
    var s := [b] + input;
    if input == [] {
      assert s[..0] == [];
    } else {
      var k := |input| - 1;
      assert s[..|s| - 1] == [b] + input[..k];
      EscapedFront(b, input[..k]);
      assert EscapeByte(b) + Escaped(input[..k]) + EscapeByte(input[k])
        == EscapeByte(b) + (Escaped(input[..k]) + EscapeByte(input[k]));
    }
  }

  lemma ReadStep(b: byte, y: seq<byte>, done: seq<byte>)
    ensures ReadString(EscapeByte(b) + y, done) == ReadString(y, done + [b])
  {
    var e := EscapeByte(b);
    var s := e + y;
    CharRoundTrip(b, y);
    assert s[0] == e[0] != QUOTE && s[|e|..] == y;
  }

  lemma ReadEnd(tail: seq<byte>, done: seq<byte>)
    ensures ReadString([QUOTE] + tail, done) == Some((done, tail))
  {
    assert ([QUOTE] + tail)[1..] == tail;
  }

  /** A reader gets the bytes back and stops at the closing quote, whatever the bytes are. */
  lemma {:induction false} EscapeRoundTrip(input: seq<byte>, tail: seq<byte>, done: seq<byte>)
    ensures ReadString(Escaped(input) + ([QUOTE] + tail), done) == Some((done + input, tail))
    decreases |input|
  {
    hide ReadString, EscapeByte;
    var close := [QUOTE] + tail;
    if input == [] {
      assert Escaped(input) + close == close && done + input == done;
      ReadEnd(tail, done);
    } else {
      var b, rest := input[0], input[1..];
      assert input == [b] + rest;
      EscapedFront(b, rest);
      assert EscapeByte(b) + Escaped(rest) + close == EscapeByte(b) + (Escaped(rest) + close);
      ReadStep(b, Escaped(rest) + close, done);
      EscapeRoundTrip(rest, tail, done + [b]);
      assert done + [b] + rest == done + input;
    }
  }

  /** The escapes, one by one: two characters for seven bytes, six with lower-case digits for other controls. */
  lemma EscapesAre(b: byte)
    ensures EscapeByte(b) ==
      match b
      case 8 => ['\\' as int, 'b' as int]
      case 9 => ['\\' as int, 't' as int]
      case 10 => ['\\' as int, 'n' as int]
      case 12 => ['\\' as int, 'f' as int]
      case 13 => ['\\' as int, 'r' as int]
      case 34 => ['\\' as int, '"' as int]
      case 92 => ['\\' as int, '\\' as int]
      case _ =>
        if b >= 32 then [b]
        else ['\\' as int, 'u' as int, '0' as int, '0' as int, '0' as int + b / 16, "0123456789abcdef"[b % 16] as int]
  {
    LowerCaseDigit(b % 16);
    if b < 32 {
      LowerCaseDigit(b / 16);
    }
  }

  lemma LowerCaseDigit(v: nat)
    requires v < 16
    ensures HexDigit(v) == "0123456789abcdef"[v] as int
  {
  }
}
