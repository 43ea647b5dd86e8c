/**
 The event format a second time, in numbers: every offset, width, limit and character as the two sides of the
 protocol agreed on it, for comparison with what the builder and the parser are proved against.
 */
module WireLayout {
  import opened Bytes
  import opened Wrappers
  import opened EventCodec
  import opened EventBuilder
  import EventParser

  // ---------------------------------------------------------------- characters

  const LOWER: set<char> := {
    'a', 'b', 'c', 'd', 'e', 'f', 'g', 'h', 'i', 'j', 'k', 'l', 'm',
    'n', 'o', 'p', 'q', 'r', 's', 't', 'u', 'v', 'w', 'x', 'y', 'z'}
  const UPPER: set<char> := {
    'A', 'B', 'C', 'D', 'E', 'F', 'G', 'H', 'I', 'J', 'K', 'L', 'M',
    'N', 'O', 'P', 'Q', 'R', 'S', 'T', 'U', 'V', 'W', 'X', 'Y', 'Z'}
  const DIGITS: set<char> := {'0', '1', '2', '3', '4', '5', '6', '7', '8', '9'}

  predicate Made(name: seq<byte>, characters: set<char>) {
    forall i :: 0 <= i < |name| ==> name[i] as char in characters
  }

  predicate ModuleName(name: seq<byte>) { 1 <= |name| <= 63 && Made(name, LOWER + UPPER + DIGITS + {'_', '.', '-'}) }

  predicate ApiName(name: seq<byte>) { 1 <= |name| <= 63 && Made(name, LOWER + UPPER + DIGITS + {'_'}) }

  predicate FieldName(name: seq<byte>) {
    1 <= |name| <= 63 && name[0] as char in LOWER && Made(name, LOWER + DIGITS + {'_'})
  }

  lemma LowerCharacters(c: byte)
    ensures IsLower(c) <==> c as char in LOWER
  {
  }

  lemma UpperCharacters(c: byte)
    ensures IsUpper(c) <==> c as char in UPPER
  {
  }

  lemma DigitCharacters(c: byte)
    ensures IsDigit(c) <==> c as char in DIGITS
  {
  }

  lemma Characters(c: byte)
    ensures IdentifierByte(c, true) <==> c as char in LOWER + UPPER + DIGITS + {'_', '.', '-'}
    ensures IdentifierByte(c, false) <==> c as char in LOWER + UPPER + DIGITS + {'_'}
    ensures FieldNameByte(c) <==> c as char in LOWER + DIGITS + {'_'}
    ensures IsLower(c) <==> c as char in LOWER
  {
    hide LOWER, UPPER, DIGITS, IsLower, IsUpper, IsDigit;
    LowerCharacters(c);
    UpperCharacters(c);
    DigitCharacters(c);
    assert c as char == '_' <==> c == 95;
    assert c as char == '.' <==> c == 46;
    assert c as char == '-' <==> c == 45;
  }

  /** The names that both sides accept: 1 to 63 characters of these alphabets. */
  lemma NameAlphabets(name: seq<byte>)
    ensures ValidIdentifier(name, true) <==> ModuleName(name)
    ensures ValidIdentifier(name, false) <==> ApiName(name)
    ensures ValidFieldName(name) <==> FieldName(name)
  {
    hide LOWER, UPPER, DIGITS, IdentifierByte, FieldNameByte, IsLower;
    forall i | 0 <= i < |name|
      ensures IdentifierByte(name[i], true) <==> name[i] as char in LOWER + UPPER + DIGITS + {'_', '.', '-'}
      ensures IdentifierByte(name[i], false) <==> name[i] as char in LOWER + UPPER + DIGITS + {'_'}
      ensures FieldNameByte(name[i]) <==> name[i] as char in LOWER + DIGITS + {'_'}
      ensures IsLower(name[i]) <==> name[i] as char in LOWER
    {
      Characters(name[i]);
    }
    FieldNameParts(name);
  }

  lemma FieldNameParts(name: seq<byte>)
    requires forall i :: 0 <= i < |name| ==> (IsLower(name[i]) <==> name[i] as char in LOWER)
    requires forall i :: 0 <= i < |name| ==> (FieldNameByte(name[i]) <==> name[i] as char in LOWER + DIGITS + {'_'})
    ensures ValidFieldName(name) <==> FieldName(name)
  {
    hide LOWER, DIGITS, IsLower, FieldNameByte;
  }

  // ---------------------------------------------------------------- values

  /** What a value of each kind looks like; other kinds are not judged. */
  predicate ValueOk(kind: byte, value: seq<byte>) {
    match kind
    case 1 => |value| == 8
    case 2 => |value| == 4
    case 3 => |value| == 8
    case 4 => |value| == 4
    case 5 =>
      && |value| >= 12 && FromLittleEndian(value[4..8]) <= 64
      && FromLittleEndian(value[4..8]) <= FromLittleEndian(value[0..4])
      && |value| == 12 + FromLittleEndian(value[4..8])
    case 6 => |value| == 4
    case 7 => |value| == 8
    case 8 => value == [0] || value == [1]
    case _ => true
  }

  lemma ValueKinds(kind: byte, value: seq<byte>)
    ensures ExpectedValue(kind, value) <==> ValueOk(kind, value)
  {
    if kind == 8 && |value| == 1 {
      assert value == [value[0]];
    }
  }

  /** The kind and the bytes of each typed value, numbers least significant byte first. */
  predicate Stands(v: TraceValue, kind: byte, image: seq<byte>) {
    match v
    case Pointer(x) => kind == 1 && |image| == 8 && FromLittleEndian(image) == x
    case UInt32(x) => kind == 2 && |image| == 4 && FromLittleEndian(image) == x
    case UInt64(x) => kind == 3 && |image| == 8 && FromLittleEndian(image) == x
    case Status(x) => kind == 4 && |image| == 4 && FromLittleEndian(image) == x
    case Preview(requested, status, captured) =>
      && kind == 5 && |image| == 12 + |captured| && FromLittleEndian(image[0..4]) == requested
      && FromLittleEndian(image[4..8]) == |captured| && FromLittleEndian(image[8..12]) == status
      && image[12..] == captured
    case Int32(x) => kind == 6 && |image| == 4 && FromLittleEndian(image) == if x < 0 then x + 0x1_0000_0000 else x
    case Int64(x) =>
      kind == 7 && |image| == 8 && FromLittleEndian(image) == if x < 0 then x + 0x1_0000_0000_0000_0000 else x
    case Boolean(b) => kind == 8 && image == [if b then 1 else 0]
  }

  lemma ValueImages(v: TraceValue)
    requires v.IsValid()
    ensures Stands(v, v.Kind(), v.Image())
  {
    RadixValues();
    match v
    case Pointer(x) => LittleEndianRoundTrip(x, 8);
    case UInt32(x) => LittleEndianRoundTrip(x, 4);
    case UInt64(x) => LittleEndianRoundTrip(x, 8);
    case Status(x) => LittleEndianRoundTrip(x, 4);
    case Preview(requested, status, captured) => PreviewImage(requested, status, captured);
    case Int32(x) => LittleEndianRoundTrip(if x < 0 then x + 0x1_0000_0000 else x, 4);
    case Int64(x) => LittleEndianRoundTrip(if x < 0 then x + 0x1_0000_0000_0000_0000 else x, 8);
    case Boolean(_) =>
  }

  lemma PreviewImage(requested: nat, status: nat, captured: seq<byte>)
    requires Preview(requested, status, captured).IsValid()
    ensures Stands(
      Preview(requested, status, captured), Preview(requested, status, captured).Kind(),
      Preview(requested, status, captured).Image())
  {
    RadixValues();
    LittleEndianRoundTrip(requested, 4);
    LittleEndianRoundTrip(|captured|, 4);
    LittleEndianRoundTrip(status, 4);
    var image := Preview(requested, status, captured).Image();
    assert image[0..4] == LittleEndian(requested, 4) && image[4..8] == LittleEndian(|captured|, 4);
    assert image[8..12] == LittleEndian(status, 4) && image[12..] == captured;
  }

  // ---------------------------------------------------------------- fields and events

  predicate FieldsAre(s: seq<byte>, fields: seq<Field>)
    decreases |fields|
  {
    if fields == [] then s == []
    else
      var f := fields[0];
      var end := 4 + |f.name| + |f.value|;
      && |s| >= end
      && s[0] == f.kind && s[1] == |f.name| && FromLittleEndian(s[2..4]) == |f.value|
      && s[4..4 + |f.name|] == f.name && s[4 + |f.name|..end] == f.value
      && FieldsAre(s[end..], fields[1..])
  }

  /** The bytes of `w` are those of an event that says `v`. */
  predicate Spells(w: Wire, v: View) {
    && w[0..4] == [0x41, 0x50, 0x49, 0x53] && FromLittleEndian(w[4..6]) == 5
    && FromLittleEndian(w[10..12]) == |v.fields| && w[28] == |v.moduleName| && w[29] == |v.apiName|
    && var names, size := 32 + |v.moduleName| + |v.apiName|, FromLittleEndian(w[6..8]);
       && names <= size <= 1024
       && w[32..32 + |v.moduleName|] == v.moduleName && w[32 + |v.moduleName|..names] == v.apiName
       && FieldsAre(w[names..size], v.fields)
  }

  predicate Judged(v: View) {
    && ModuleName(v.moduleName) && ApiName(v.apiName)
    && (forall i :: 0 <= i < |v.fields| ==> FieldName(v.fields[i].name) && ValueOk(v.fields[i].kind, v.fields[i].value))
    && forall i, j :: 0 <= i < j < |v.fields| ==> v.fields[i].name != v.fields[j].name
  }

  lemma TwoBytes(s: seq<byte>)
    requires |s| == 2
    ensures FromLittleEndian(s) == s[0] as int + 256 * s[1] as int
  {
    assert FromLittleEndian(s[1..]) == s[1];
  }

  lemma WordIn(w: Wire, offset: nat)
    requires offset + 2 <= 1024
    ensures U16(w, offset) == FromLittleEndian(w[offset..offset + 2])
  {
    TwoBytes(w[offset..offset + 2]);
  }

  lemma EncodedField(f: Field, s: seq<byte>, rest: seq<byte>)
    requires Encodable(f) && s == Encode(f) + rest
    ensures
      var end := 4 + |f.name| + |f.value|;
      && |s| >= end && s[0] == f.kind && s[1] == |f.name| && FromLittleEndian(s[2..4]) == |f.value|
      && s[4..4 + |f.name|] == f.name && s[4 + |f.name|..end] == f.value && s[end..] == rest
  {
    TwoBytes(s[2..4]);
    assert Encode(f) == s[..4 + |f.name| + |f.value|];
  }

  lemma FieldIsEncoded(f: Field, s: seq<byte>)
    requires Encodable(f) && |s| >= 4 + |f.name| + |f.value|
    requires s[0] == f.kind && s[1] == |f.name| && FromLittleEndian(s[2..4]) == |f.value|
    requires s[4..4 + |f.name|] == f.name && s[4 + |f.name|..4 + |f.name| + |f.value|] == f.value
    ensures s == Encode(f) + s[4 + |f.name| + |f.value|..]
  {
    TwoBytes(s[2..4]);
    var end := 4 + |f.name| + |f.value|;
    assert s[..end] == s[..4] + s[4..4 + |f.name|] + s[4 + |f.name|..end];
    assert s[..4] == [s[0], s[1], s[2], s[3]];
    assert Encode(f)[..4] == [f.kind, |f.name|, |f.value| % 256, |f.value| / 256];
  }

  /** A field list is encoded as the bytes that spell it. */
  lemma {:induction false} FieldBytes(s: seq<byte>, fields: seq<Field>)
    requires AllEncodable(fields)
    ensures s == Serialize(fields) <==> FieldsAre(s, fields)
    decreases |fields|
  {
    if fields != [] {
      var f := fields[0];
      var end := 4 + |f.name| + |f.value|;
      if s == Serialize(fields) {
        EncodedField(f, s, Serialize(fields[1..]));
        FieldBytes(s[end..], fields[1..]);
      }
      if FieldsAre(s, fields) {
        FieldIsEncoded(f, s);
        FieldBytes(s[end..], fields[1..]);
      }
    }
  }

  lemma {:induction false} SpelledIsEncodable(s: seq<byte>, fields: seq<Field>)
    requires FieldsAre(s, fields)
    ensures AllEncodable(fields)
    decreases |fields|
  {
    if fields != [] {
      var f := fields[0];
      TwoBytes(s[2..4]);
      SpelledIsEncodable(s[4 + |f.name| + |f.value|..], fields[1..]);
      forall i | 0 <= i < |fields| ensures Encodable(fields[i]) {
        assert i > 0 ==> fields[i] == fields[1..][i - 1];
      }
    }
  }

  lemma HeaderWords(w: Wire)
    ensures Version(w) == FromLittleEndian(w[4..6]) && Size(w) == FromLittleEndian(w[6..8])
    ensures Flags(w) == FromLittleEndian(w[8..10]) && FieldCount(w) == FromLittleEndian(w[10..12])
    ensures HasMagic(w) <==> w[0..4] == [0x41, 0x50, 0x49, 0x53]
  {
    WordIn(w, 4);
    WordIn(w, 6);
    WordIn(w, 8);
    WordIn(w, 10);
  }

  /** The header check of the emitter and of the parser. */
  lemma HeaderBytes(w: Wire)
    ensures HeaderOk(w) <==>
      && w[0..4] == [0x41, 0x50, 0x49, 0x53] && FromLittleEndian(w[4..6]) == 5
      && 32 + w[28] as int + w[29] as int <= FromLittleEndian(w[6..8]) <= 1024
  {
    HeaderWords(w);
  }

  /** The flags are the two lowest bits of the word at 8; the number, the time and the thread have their places. */
  lemma HeaderExtras(w: Wire, r: Report)
    ensures Truncated(w) <==> w[8] % 2 == 1
    ensures FieldError(w) <==> w[8] / 2 % 2 == 1
    ensures Sequence(w) == FromLittleEndian(w[12..16])
    ensures Reports(w, r) <==>
      && Describes(w, r.view) && (r.truncated <==> w[8] % 2 == 1) && (r.fieldError <==> w[8] / 2 % 2 == 1)
      && r.timestamp == w[16..24] && r.threadId == w[24..28]
  {
  }

  lemma LaidOutIsSpelled(w: Wire, v: View)
    ensures LaidOut(w, v) <==> Spells(w, v)
  {
    hide FieldsAre, Serialize, HasMagic, U16, FromLittleEndian;
    HeaderWords(w);
    if LaidOut(w, v) {
      BodyParts(w, v);
      FieldBytes(Serialize(v.fields), v.fields);
    }
    if Spells(w, v) {
      var names, size := 32 + |v.moduleName| + |v.apiName|, FromLittleEndian(w[6..8]);
      SpelledIsEncodable(w[names..size], v.fields);
      FieldBytes(w[names..size], v.fields);
      ThreeSlices(w, 32, 32 + |v.moduleName|, names, size);
    }
  }

  lemma ThreeSlices(w: seq<byte>, a: nat, b: nat, c: nat, d: nat)
    requires a <= b <= c <= d <= |w|
    ensures w[a..d] == w[a..b] + w[b..c] + w[c..d]
  {
  }

  /** What an event is, byte for byte: this is all that builder and parser are proved against. */
  lemma EventBytes(w: Wire, v: View)
    ensures Describes(w, v) <==> Spells(w, v) && Judged(v)
  {
    hide LaidOut, Spells, ModuleName, ApiName, FieldName, ValueOk, ExpectedValue, ValidIdentifier, ValidFieldName;
    LaidOutIsSpelled(w, v);
    NameAlphabets(v.moduleName);
    NameAlphabets(v.apiName);
    forall i | 0 <= i < |v.fields|
      ensures ValidFieldName(v.fields[i].name) <==> FieldName(v.fields[i].name)
      ensures ExpectedValue(v.fields[i].kind, v.fields[i].value) <==> ValueOk(v.fields[i].kind, v.fields[i].value)
    {
      NameAlphabets(v.fields[i].name);
      ValueKinds(v.fields[i].kind, v.fields[i].value);
    }
    if LaidOut(w, v) {
      LaidOutIsEncodable(w, v);
    }
  }

  lemma LaidOutIsEncodable(w: Wire, v: View)
    requires LaidOut(w, v)
    ensures forall i :: 0 <= i < |v.fields| ==> Encodable(v.fields[i])
  {
  }

  // ---------------------------------------------------------------- the hooks that are shipped

  function Ascii(s: string): (r: seq<byte>)
    requires forall i :: 0 <= i < |s| ==> s[i] < 128 as char
    ensures |r| == |s| && forall i :: 0 <= i < |s| ==> r[i] == s[i] as int
  {
    seq(|s|, i requires 0 <= i < |s| => s[i] as int)
  }

  /** An event of NtCreateFile in ntdll.dll, whatever its fields are, comes through. */
  method NtCreateFileParses(threadId: seq<byte>, timestamp: seq<byte>, attempts: seq<Attempt>)
    returns (result: Option<Report>)
    requires |threadId| == 4 && |timestamp| == 8 && AllValid(attempts)
    ensures result.Some?
    ensures |result.value.view.moduleName| == 9 && |result.value.view.apiName| == 12
    ensures forall i :: 0 <= i < 9 ==> result.value.view.moduleName[i] as char == "ntdll.dll"[i]
    ensures forall i :: 0 <= i < 12 ==> result.value.view.apiName[i] as char == "NtCreateFile"[i]
    ensures result.value.threadId == threadId && result.value.timestamp == timestamp
  {
    var moduleName, apiName := Ascii("ntdll.dll"), Ascii("NtCreateFile");
    NtCreateFileNames(moduleName, apiName);
    result := EventParser.BuildThenParse(Text(moduleName), Text(apiName), threadId, timestamp, attempts);
  }

  lemma NtCreateFileNames(moduleName: seq<byte>, apiName: seq<byte>)
    requires |moduleName| == 9 && forall i :: 0 <= i < 9 ==> moduleName[i] == "ntdll.dll"[i] as int
    requires |apiName| == 12 && forall i :: 0 <= i < 12 ==> apiName[i] == "NtCreateFile"[i] as int
    ensures ValidIdentifier(moduleName, true) && ValidIdentifier(apiName, false)
    ensures Text(moduleName).IsValid() && Text(apiName).IsValid()
  {
  }
}
