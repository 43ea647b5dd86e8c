/**
 The trace event wire format: a packed 32-byte header followed by the module name, the API name and a
 list of (type, name, value) fields. An event is always carried in a 1024-byte buffer of which only
 the first `Size` bytes mean anything.
 */
module EventCodec {
  import opened Bytes

  const EVENT_BYTES := 1024
  const HEADER_BYTES := 32
  const FIELD_HEADER_BYTES := 4
  const BYTES_HEADER_BYTES := 12
  const MAX_NAME_BYTES := 63
  const MAX_BUFFER_BYTES := 64
  const EVENT_VERSION := 5

  /** A whole event buffer, header included. */
  type Wire = w: seq<byte> | |w| == 1024 witness seq(1024, _ => 0)

  // ---------------------------------------------------------------- header fields

  function U16(w: Wire, offset: nat): (v: nat)
    requires offset + 2 <= EVENT_BYTES
    ensures v < 65536
  {
    w[offset] as int + 256 * w[offset + 1] as int
  }

  function PutU16(w: Wire, offset: nat, v: nat): (r: Wire)
    requires offset + 2 <= EVENT_BYTES && v < 65536
    ensures U16(r, offset) == v
    ensures forall i :: 0 <= i < EVENT_BYTES && i != offset && i != offset + 1 ==> r[i] == w[i]
  {
    w[offset := v % 256][offset + 1 := v / 256]
  }

  predicate HasMagic(w: Wire) { w[0] == 0x41 && w[1] == 0x50 && w[2] == 0x49 && w[3] == 0x53 }
  function Version(w: Wire): nat { U16(w, 4) }
  function Size(w: Wire): nat { U16(w, 6) }
  function Flags(w: Wire): nat { U16(w, 8) }
  function FieldCount(w: Wire): nat { U16(w, 10) }
  function Sequence(w: Wire): nat { FromLittleEndian(w[12..16]) }
  function ModuleNameLength(w: Wire): byte { w[28] }
  function ApiNameLength(w: Wire): byte { w[29] }
  function NameBytes(w: Wire): nat { ModuleNameLength(w) + ApiNameLength(w) }

  predicate Truncated(w: Wire) { Flags(w) % 2 == 1 }
  predicate FieldError(w: Wire) { Flags(w) / 2 % 2 == 1 }

  /** The header check that the builder's append, the emitter and the parser share. */
  predicate HeaderOk(w: Wire) {
    && HasMagic(w)
    && Version(w) == EVENT_VERSION
    && HEADER_BYTES + NameBytes(w) <= Size(w) <= EVENT_BYTES
  }

  // ---------------------------------------------------------------- names and values

  predicate IsLower(c: byte) { 97 <= c <= 122 }
  predicate IsUpper(c: byte) { 65 <= c <= 90 }
  predicate IsDigit(c: byte) { 48 <= c <= 57 }

  /** Module names may also hold '.' and '-'. */
  predicate IdentifierByte(c: byte, moduleName: bool) {
    IsLower(c) || IsUpper(c) || IsDigit(c) || c == 95 || (moduleName && (c == 46 || c == 45))
  }

  predicate ValidIdentifier(name: seq<byte>, moduleName: bool) {
    && 1 <= |name| <= MAX_NAME_BYTES
    && forall i :: 0 <= i < |name| ==> IdentifierByte(name[i], moduleName)
  }

  predicate FieldNameByte(c: byte) { IsLower(c) || IsDigit(c) || c == 95 }

  predicate ValidFieldName(name: seq<byte>) {
    && 1 <= |name| <= MAX_NAME_BYTES
    && IsLower(name[0])
    && forall i :: 1 <= i < |name| ==> FieldNameByte(name[i])
  }

  const TYPE_POINTER: byte := 1
  const TYPE_UINT32: byte := 2
  const TYPE_UINT64: byte := 3
  const TYPE_STATUS: byte := 4
  const TYPE_BYTES: byte := 5
  const TYPE_INT32: byte := 6
  const TYPE_INT64: byte := 7
  const TYPE_BOOLEAN: byte := 8

  /** What the consumer demands of a value of a known type; unknown types carry anything. */
  predicate ExpectedValue(kind: byte, value: seq<byte>) {
    if kind == TYPE_POINTER || kind == TYPE_UINT64 || kind == TYPE_INT64 then
      |value| == 8
    else if kind == TYPE_UINT32 || kind == TYPE_STATUS || kind == TYPE_INT32 then
      |value| == 4
    else if kind == TYPE_BOOLEAN then
      |value| == 1 && value[0] <= 1
    else if kind == TYPE_BYTES then
      && BYTES_HEADER_BYTES <= |value|
      && var requested := FromLittleEndian(value[0..4]);
         var captured := FromLittleEndian(value[4..8]);
         captured <= MAX_BUFFER_BYTES && captured <= requested && |value| == BYTES_HEADER_BYTES + captured
    else
      true
  }

  // ---------------------------------------------------------------- fields

  datatype Field = Field(kind: byte, name: seq<byte>, value: seq<byte>)

  /** Lengths that fit the one-byte and two-byte length words of a field header. */
  predicate Encodable(f: Field) { |f.name| < 256 && |f.value| < 65536 }

  function Encode(f: Field): (s: seq<byte>)
    requires Encodable(f)
    ensures |s| == FIELD_HEADER_BYTES + |f.name| + |f.value|
  {
    [f.kind, |f.name|, |f.value| % 256, |f.value| / 256] + f.name + f.value
  }

  predicate AllEncodable(fields: seq<Field>) { forall i :: 0 <= i < |fields| ==> Encodable(fields[i]) }

  function Serialize(fields: seq<Field>): seq<byte>
    requires AllEncodable(fields)
  {
    if fields == [] then [] else Encode(fields[0]) + Serialize(fields[1..])
  }

  predicate Fresh(fields: seq<Field>, name: seq<byte>) {
    forall i :: 0 <= i < |fields| ==> fields[i].name != name
  }

  predicate DistinctNames(fields: seq<Field>) {
    forall i, j :: 0 <= i < j < |fields| ==> fields[i].name != fields[j].name
  }

  predicate AcceptableField(f: Field) {
    Encodable(f) && ValidFieldName(f.name) && ExpectedValue(f.kind, f.value)
  }

  predicate AcceptableFields(fields: seq<Field>) {
    && (forall i :: 0 <= i < |fields| ==> AcceptableField(fields[i]))
    && DistinctNames(fields)
  }

  // ---------------------------------------------------------------- whole events

  /** What an event says, once parsed. */
  datatype View = View(moduleName: seq<byte>, apiName: seq<byte>, fields: seq<Field>)

  function Body(v: View): seq<byte>
    requires AllEncodable(v.fields)
  {
    v.moduleName + v.apiName + Serialize(v.fields)
  }

  /** `w` is laid out exactly as an event that says `v`; names and values are not judged yet. */
  predicate LaidOut(w: Wire, v: View) {
    && HeaderOk(w)
    && AllEncodable(v.fields)
    && ModuleNameLength(w) == |v.moduleName|
    && ApiNameLength(w) == |v.apiName|
    && FieldCount(w) == |v.fields|
    && w[HEADER_BYTES..Size(w)] == Body(v)
  }

  /** The grammar: `w` is a well-formed event saying `v`. */
  predicate Describes(w: Wire, v: View) {
    && LaidOut(w, v)
    && ValidIdentifier(v.moduleName, true)
    && ValidIdentifier(v.apiName, false)
    && AcceptableFields(v.fields)
  }

  ghost predicate IsValidTraceEvent(w: Wire) {
    exists v :: Describes(w, v)
  }

  // ---------------------------------------------------------------- the format is unambiguous

  /** A field's encoding tells where it ends. */
  lemma EncodeIsPrefixFree(f: Field, g: Field, x: seq<byte>, y: seq<byte>)
    requires Encodable(f) && Encodable(g)
    requires Encode(f) + x == Encode(g) + y
    ensures f == g && x == y
  {
    var s, t := Encode(f) + x, Encode(g) + y;
    assert s[0] == t[0] && s[1] == t[1] && s[2] == t[2] && s[3] == t[3];
    assert |f.name| == |g.name| && |f.value| == |g.value|;
    assert f.name == s[4..4 + |f.name|] == t[4..4 + |g.name|] == g.name;
    assert f.value == s[4 + |f.name|..4 + |f.name| + |f.value|] == g.value;
    assert x == s[4 + |f.name| + |f.value|..] == y;
  }

  lemma {:induction false} SerializeInjective(a: seq<Field>, b: seq<Field>)
    requires AllEncodable(a) && AllEncodable(b) && |a| == |b|
    requires Serialize(a) == Serialize(b)
    ensures a == b
  {
    if a != [] {
      EncodeIsPrefixFree(a[0], b[0], Serialize(a[1..]), Serialize(b[1..]));
      SerializeInjective(a[1..], b[1..]);
      assert a == [a[0]] + a[1..] && b == [b[0]] + b[1..];
    }
  }

  lemma {:induction false} SerializeConcat(a: seq<Field>, b: seq<Field>)
    requires AllEncodable(a) && AllEncodable(b)
    ensures AllEncodable(a + b)
    ensures Serialize(a + b) == Serialize(a) + Serialize(b)
  {
    if a == [] {
      assert a + b == b;
    } else {
      SerializeConcat(a[1..], b);
      assert (a + b)[0] == a[0] && (a + b)[1..] == a[1..] + b;
    }
  }

  lemma SerializeAppend(fields: seq<Field>, f: Field)
    requires AllEncodable(fields) && Encodable(f)
    ensures AllEncodable(fields + [f])
    ensures Serialize(fields + [f]) == Serialize(fields) + Encode(f)
  {
    SerializeConcat(fields, [f]);
    assert [f][1..] == [];
    assert Serialize([f]) == Encode(f) + [] == Encode(f);
  }

  lemma BodyParts(w: Wire, v: View)
    requires LaidOut(w, v)
    ensures v.moduleName == w[HEADER_BYTES..HEADER_BYTES + |v.moduleName|]
    ensures v.apiName == w[HEADER_BYTES + |v.moduleName|..HEADER_BYTES + |v.moduleName| + |v.apiName|]
    ensures Serialize(v.fields) == w[HEADER_BYTES + NameBytes(w)..Size(w)]
  {
    var body := w[HEADER_BYTES..Size(w)];
    var m, a := |v.moduleName|, |v.apiName|;
    assert body == v.moduleName + v.apiName + Serialize(v.fields);
    ThreeParts(v.moduleName, v.apiName, Serialize(v.fields));
    SliceOfSlice(w, HEADER_BYTES, Size(w), 0, m);
    SliceOfSlice(w, HEADER_BYTES, Size(w), m, m + a);
    SliceOfSlice(w, HEADER_BYTES, Size(w), m + a, |body|);
  }

  lemma ThreeParts(x: seq<byte>, y: seq<byte>, z: seq<byte>)
    ensures
      var s := x + y + z;
      s[0..|x|] == x && s[|x|..|x| + |y|] == y && s[|x| + |y|..|s|] == z
  {
  }

  lemma SliceOfSlice(s: seq<byte>, i: nat, j: nat, m: nat, n: nat)
    requires i <= j <= |s| && m <= n <= j - i
    ensures s[i..j][m..n] == s[i + m..i + n]
  {
    var outer := s[i..j];
    forall k | 0 <= k < n - m ensures outer[m..n][k] == s[i + m..i + n][k] {
      assert outer[m..n][k] == outer[m + k] == s[i + (m + k)];
    }
  }

  /** No buffer says two things. */
  lemma LayoutIsUnambiguous(w: Wire, u: View, v: View)
    requires LaidOut(w, u) && LaidOut(w, v)
    ensures u == v
  {
    BodyParts(w, u);
    BodyParts(w, v);
    SerializeInjective(u.fields, v.fields);
  }

  /** What `w` says; only `Size(w)` bytes are looked at, as StaleTailIsIgnored shows. */
  ghost function Meaning(w: Wire): (v: View)
    requires IsValidTraceEvent(w)
    ensures Describes(w, v)
    ensures forall u :: Describes(w, u) ==> u == v
  {
    var v :| Describes(w, v);
    assert forall u :: Describes(w, u) ==> u == v by {
      forall u | Describes(w, u) ensures u == v { LayoutIsUnambiguous(w, u, v); }
    }
    v
  }

  /** All that is rendered of an event, apart from its number. */
  datatype Report = Report(
    view: View, truncated: bool, fieldError: bool, threadId: seq<byte>, timestamp: seq<byte>)

  predicate Reports(w: Wire, r: Report) {
    && Describes(w, r.view) && Truncated(w) == r.truncated && FieldError(w) == r.fieldError
    && w[24..28] == r.threadId && w[16..24] == r.timestamp
  }

  ghost function ReportOf(w: Wire): (r: Report)
    requires IsValidTraceEvent(w)
    ensures Reports(w, r)
  {
    Report(Meaning(w), Truncated(w), FieldError(w), w[24..28], w[16..24])
  }

  lemma ReportIs(w: Wire, r: Report)
    requires Reports(w, r)
    ensures IsValidTraceEvent(w) && ReportOf(w) == r
  {
  }

  /** Two buffers that agree on the first `Size(w)` bytes say the same, whatever an older event left behind. */
  lemma StaleTailIsIgnored(w: Wire, stale: Wire)
    requires HEADER_BYTES <= Size(w) <= EVENT_BYTES
    requires stale[..Size(w)] == w[..Size(w)]
    ensures Size(stale) == Size(w)
    ensures forall v :: Describes(w, v) <==> Describes(stale, v)
    ensures IsValidTraceEvent(w) <==> IsValidTraceEvent(stale)
    ensures IsValidTraceEvent(w) ==> Meaning(w) == Meaning(stale) && ReportOf(w) == ReportOf(stale)
  {
    var n := Size(w);
    forall i | 0 <= i < n ensures w[i] == stale[i] {
      assert w[i] == w[..n][i] && stale[i] == stale[..n][i];
    }
    assert w[HEADER_BYTES..n] == w[..n][HEADER_BYTES..];
    assert stale[HEADER_BYTES..n] == stale[..n][HEADER_BYTES..];
    assert w[24..28] == stale[24..28] && w[16..24] == stale[16..24];
  }
}
