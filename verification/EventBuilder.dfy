/** The in-target event builder: it fills a 1024-byte buffer in place and reports errors only through flags. */
module EventBuilder {
  import opened Bytes
  import opened EventCodec
  import opened Wrappers

  /** A `const char*`: null, or the characters in front of the terminating NUL. */
  datatype CString = Null | Text(chars: seq<byte>) {
    predicate IsValid() { Text? ==> forall i :: 0 <= i < |chars| ==> chars[i] != 0 }

    /** Dereference; position `|chars|` holds the terminator. */
    function At(i: nat): byte
      requires Text? && i <= |chars|
    {
      if i < |chars| then chars[i] else 0
    }
  }

  /** True for the strings whose length is in 1..`maximum`. */
  predicate Bounded(s: CString, maximum: nat) { s.Text? && 1 <= |s.chars| <= maximum }

  predicate GoodFieldName(name: CString) { name.Text? && ValidFieldName(name.chars) }

  predicate GoodIdentifier(name: CString, moduleName: bool) { name.Text? && ValidIdentifier(name.chars, moduleName) }

  method GetBoundedStringLength(value: CString, maximum: nat) returns (length: Option<nat>)
    requires value.IsValid()
    ensures length.Some? <==> Bounded(value, maximum)
    ensures length.Some? ==> length.value == |value.chars|
  {
    if value.Null? {
      return None;
    }
    var index := 0;
    while index <= maximum && value.At(index) != 0
      invariant index <= |value.chars| && index <= maximum + 1
      decreases |value.chars| - index
    {
      index := index + 1;
    }
    if index == 0 || index > maximum {
      return None;
    }
    return Some(index);
  }

  method IsValidFieldName(name: CString) returns (length: Option<nat>)
    requires name.IsValid()
    ensures length.Some? <==> GoodFieldName(name)
    ensures length.Some? ==> length.value == |name.chars|
  {
    length := GetBoundedStringLength(name, MAX_NAME_BYTES);
    if length.None? {
      return;
    }
    if !IsLower(name.chars[0]) {
      return None;
    }
    for index := 1 to length.value
      invariant forall i :: 1 <= i < index ==> FieldNameByte(name.chars[i])
    {
      if !FieldNameByte(name.chars[index]) {
        return None;
      }
    }
  }

  method IsValidIdentifier(name: CString, moduleName: bool) returns (length: Option<nat>)
    requires name.IsValid()
    ensures length.Some? <==> GoodIdentifier(name, moduleName)
    ensures length.Some? ==> length.value == |name.chars|
  {
    length := GetBoundedStringLength(name, MAX_NAME_BYTES);
    if length.None? {
      return;
    }
    for index := 0 to length.value
      invariant forall i :: 0 <= i < index ==> IdentifierByte(name.chars[i], moduleName)
    {
      if !IdentifierByte(name.chars[index], moduleName) {
        return None;
      }
    }
  }

  method CustomMemCpy(dest: array<byte>, offset: nat, src: seq<byte>)
    requires offset + |src| <= dest.Length
    modifies dest
    ensures dest[..] == Overwrite(old(dest[..]), offset, src)
  {
    for i := 0 to |src|
      invariant forall k :: 0 <= k < dest.Length ==>
        dest[k] == if offset <= k < offset + i then src[k - offset] else old(dest[k])
    {
      dest[offset + i] := src[i];
    }
  }

  method CustomMemSet(dest: array<byte>, value: byte)
    modifies dest
    ensures forall k :: 0 <= k < dest.Length ==> dest[k] == value
  {
    for i := 0 to dest.Length
      invariant forall k :: 0 <= k < i ==> dest[k] == value
    {
      dest[i] := value;
    }
  }

  method StoreU16(dest: array<byte>, offset: nat, v: nat)
    requires dest.Length == EVENT_BYTES && offset + 2 <= EVENT_BYTES && v < 65536
    modifies dest
    ensures dest[..] == PutU16(old(dest[..]), offset, v)
  {
    dest[offset] := v % 256;
    dest[offset + 1] := v / 256;
  }

  // ---------------------------------------------------------------- typed values

  /** The values the AddTrace* family encodes; a preview carries what the bypassed read reported. */
  datatype TraceValue =
    | Pointer(address: nat)
    | UInt32(u32: nat)
    | UInt64(u64: nat)
    | Int32(i32: int)
    | Int64(i64: int)
    | Boolean(flag: bool)
    | Status(code: nat)
    | Preview(requested: nat, status: nat, captured: seq<byte>)
  {
    predicate IsValid() {
      match this
      case Pointer(v) => v < Radix(8)
      case UInt32(v) => v < Radix(4)
      case UInt64(v) => v < Radix(8)
      case Int32(v) => -0x8000_0000 <= v < 0x8000_0000
      case Int64(v) => -0x8000_0000_0000_0000 <= v < 0x8000_0000_0000_0000
      case Boolean(_) => true
      case Status(v) => v < Radix(4)
      case Preview(requested, status, captured) =>
        && requested < Radix(4) && status < Radix(4)
        && |captured| <= MAX_BUFFER_BYTES && |captured| <= requested
    }

    function Kind(): byte {
      match this
      case Pointer(_) => TYPE_POINTER
      case UInt32(_) => TYPE_UINT32
      case UInt64(_) => TYPE_UINT64
      case Int32(_) => TYPE_INT32
      case Int64(_) => TYPE_INT64
      case Boolean(_) => TYPE_BOOLEAN
      case Status(_) => TYPE_STATUS
      case Preview(_, _, _) => TYPE_BYTES
    }

    /** The bytes of the value in target memory; negative integers are in two's complement. */
    function Image(): seq<byte>
      requires IsValid()
    {
      match this
      case Pointer(v) => LittleEndian(v, 8)
      case UInt32(v) => LittleEndian(v, 4)
      case UInt64(v) => LittleEndian(v, 8)
      case Int32(v) => LittleEndian(if v < 0 then v + 0x1_0000_0000 else v, 4)
      case Int64(v) => LittleEndian(if v < 0 then v + 0x1_0000_0000_0000_0000 else v, 8)
      case Boolean(b) => [if b then 1 else 0]
      case Status(v) => LittleEndian(v, 4)
      case Preview(requested, status, captured) =>
        LittleEndian(requested, 4) + LittleEndian(|captured|, 4) + LittleEndian(status, 4) + captured
    }
  }

  /** The consumer's reading of a value's bytes. */
  function ReadValue(kind: byte, value: seq<byte>): Option<TraceValue>
    requires ExpectedValue(kind, value)
  {
    var n := FromLittleEndian(value);
    if kind == TYPE_POINTER then Some(Pointer(n))
    else if kind == TYPE_UINT32 then Some(UInt32(n))
    else if kind == TYPE_UINT64 then Some(UInt64(n))
    else if kind == TYPE_INT32 then Some(Int32(if n < 0x8000_0000 then n else n - 0x1_0000_0000))
    else if kind == TYPE_INT64 then Some(Int64(if n < 0x8000_0000_0000_0000 then n else n - 0x1_0000_0000_0000_0000))
    else if kind == TYPE_STATUS then Some(Status(n))
    else if kind == TYPE_BOOLEAN then Some(Boolean(value[0] != 0))
    else if kind == TYPE_BYTES then
      Some(Preview(FromLittleEndian(value[0..4]), FromLittleEndian(value[8..12]), value[12..]))
    else None
  }

  /** Every typed value is acceptable to the consumer and is read back unchanged. */
  lemma ValueRoundTrip(v: TraceValue)
    requires v.IsValid()
    ensures |v.Image()| <= BYTES_HEADER_BYTES + MAX_BUFFER_BYTES
    ensures ExpectedValue(v.Kind(), v.Image())
    ensures ReadValue(v.Kind(), v.Image()) == Some(v)
  {
    RadixValues();
    match v
    case Pointer(x) => LittleEndianRoundTrip(x, 8);
    case UInt32(x) => LittleEndianRoundTrip(x, 4);
    case UInt64(x) => LittleEndianRoundTrip(x, 8);
    case Int32(x) => LittleEndianRoundTrip(if x < 0 then x + 0x1_0000_0000 else x, 4);
    case Int64(x) => LittleEndianRoundTrip(if x < 0 then x + 0x1_0000_0000_0000_0000 else x, 8);
    case Boolean(_) =>
    case Status(x) => LittleEndianRoundTrip(x, 4);
    case Preview(requested, status, captured) =>
      LittleEndianRoundTrip(requested, 4);
      LittleEndianRoundTrip(|captured|, 4);
      LittleEndianRoundTrip(status, 4);
      var image := v.Image();
      assert image[0..4] == LittleEndian(requested, 4);
      assert image[4..8] == LittleEndian(|captured|, 4);
      assert image[8..12] == LittleEndian(status, 4);
      assert image[12..] == captured;
  }

  /** What the bypassed NtReadVirtualMemory did: its status, the reported count and the buffer it left. */
  datatype ReadOutcome = NotConfigured | Outcome(status: nat, reported: nat, buffer: seq<byte>)

  const STATUS_NOT_CONFIGURED := 0xC0000184

  /** The preview never claims more than was asked for, than the buffer holds, or than the read reported. */
  method CaptureTraceBuffer(bufferIsNull: bool, length: nat, read: ReadOutcome) returns (preview: TraceValue)
    requires length < 0x1_0000_0000
    requires read.Outcome? ==> read.status < 0x1_0000_0000 && |read.buffer| == MAX_BUFFER_BYTES
    ensures preview.Preview? && preview.IsValid() && preview.requested == length
    ensures |preview.captured| <= length && |preview.captured| <= 64
    ensures bufferIsNull || length == 0 ==> preview.captured == [] && preview.status == 0
    ensures !bufferIsNull && length > 0 && read.NotConfigured? ==>
      preview.captured == [] && preview.status == 0xC0000184
    ensures !bufferIsNull && length > 0 && read.Outcome? ==>
      && preview.status == read.status
      && preview.captured <= read.buffer
      && (|preview.captured| == read.reported || |preview.captured| == length < read.reported
          || |preview.captured| == 64 < read.reported)
  {
    RadixValues();
    if bufferIsNull || length == 0 {
      return Preview(length, 0, []);
    }
    if read.NotConfigured? {
      return Preview(length, STATUS_NOT_CONFIGURED, []);
    }
    var captureLength := if length < MAX_BUFFER_BYTES then length else MAX_BUFFER_BYTES;
    var captured := if read.reported < captureLength then read.reported else captureLength;
    return Preview(length, read.status, read.buffer[..captured]);
  }

  // ---------------------------------------------------------------- what a run of appends keeps

  /** The fields taken so far and the two flags. */
  datatype Draft = Draft(fields: seq<Field>, truncated: bool, fieldError: bool)

  const EMPTY_DRAFT := Draft([], false, false)

  datatype Attempt = Attempt(name: CString, value: TraceValue) {
    predicate IsValid() { name.IsValid() && value.IsValid() }
  }

  predicate Fits(base: nat, fields: seq<Field>, f: Field)
    requires AllEncodable(fields) && Encodable(f)
  {
    base + |Serialize(fields)| + |Encode(f)| <= EVENT_BYTES
  }

  /** One append: a bad or repeated name sets one flag, a field that does not fit sets the other. */
  function AfterAppend(base: nat, d: Draft, kind: byte, name: CString, value: seq<byte>): (r: Draft)
    requires AllEncodable(d.fields) && |value| < 65536
    ensures AllEncodable(r.fields)
  {
    if !GoodFieldName(name) || !Fresh(d.fields, name.chars) then d.(fieldError := true)
    else
      var f := Field(kind, name.chars, value);
      if Fits(base, d.fields, f) then d.(fields := d.fields + [f]) else d.(truncated := true)
  }

  ghost predicate AllValid(attempts: seq<Attempt>) {
    forall i :: 0 <= i < |attempts| ==> attempts[i].IsValid()
  }

  /** The greedy outcome of a whole handler: appends tried in order, each kept if it can be. */
  ghost function Greedy(base: nat, attempts: seq<Attempt>): (d: Draft)
    requires AllValid(attempts)
    ensures AcceptableFields(d.fields)
  {
    if attempts == [] then EMPTY_DRAFT
    else
      var k := |attempts| - 1;
      assert attempts[k].IsValid();
      ValueRoundTrip(attempts[k].value);
      AfterAppend(
        base, Greedy(base, attempts[..k]), attempts[k].value.Kind(), attempts[k].name, attempts[k].value.Image())
  }

  /** Attempt `k` cannot name a field: its name is malformed or already taken when its turn comes. */
  ghost predicate BadName(base: nat, attempts: seq<Attempt>, k: nat)
    requires AllValid(attempts) && k < |attempts|
  {
    !GoodFieldName(attempts[k].name) || !Fresh(Greedy(base, attempts[..k]).fields, attempts[k].name.chars)
  }

  /** Attempt `k` has a usable name but no room is left for it. */
  ghost predicate TooLong(base: nat, attempts: seq<Attempt>, k: nat)
    requires AllValid(attempts) && k < |attempts|
  {
    && !BadName(base, attempts, k)
    && assert attempts[k].IsValid();
       base + |Serialize(Greedy(base, attempts[..k]).fields)| + FIELD_HEADER_BYTES
         + |attempts[k].name.chars| + |attempts[k].value.Image()| > EVENT_BYTES
  }

  ghost predicate Kept(base: nat, attempts: seq<Attempt>, k: nat)
    requires AllValid(attempts) && k < |attempts|
  {
    !BadName(base, attempts, k) && !TooLong(base, attempts, k)
  }

  /** An attempt as a field. */
  function AsField(a: Attempt): Field
    requires a.IsValid() && a.name.Text?
  {
    Field(a.value.Kind(), a.name.chars, a.value.Image())
  }

  /** The kept attempts, in order, as fields. */
  ghost function KeptFields(base: nat, attempts: seq<Attempt>): seq<Field>
    requires AllValid(attempts)
  {
    if attempts == [] then []
    else
      var k := |attempts| - 1;
      assert attempts[k].IsValid();
      KeptFields(base, attempts[..k]) + if Kept(base, attempts, k) then [AsField(attempts[k])] else []
  }

  lemma PrefixVerdicts(base: nat, attempts: seq<Attempt>, n: nat, k: nat)
    requires AllValid(attempts) && k < n <= |attempts|
    ensures BadName(base, attempts[..n], k) == BadName(base, attempts, k)
    ensures TooLong(base, attempts[..n], k) == TooLong(base, attempts, k)
  {
    assert attempts[..n][..k] == attempts[..k];
  }

  lemma GreedyStep(base: nat, attempts: seq<Attempt>)
    requires AllValid(attempts) && attempts != []
    ensures
      var k := |attempts| - 1;
      var d := Greedy(base, attempts[..k]);
      && attempts[k].IsValid()
      && Greedy(base, attempts) ==
           if BadName(base, attempts, k) then d.(fieldError := true)
           else if TooLong(base, attempts, k) then d.(truncated := true)
           else d.(fields := d.fields + [AsField(attempts[k])])
  {
    var k := |attempts| - 1;
    assert attempts[k].IsValid();
    ValueRoundTrip(attempts[k].value);
  }

  ghost predicate SomeBadName(base: nat, attempts: seq<Attempt>)
    requires AllValid(attempts)
  {
    exists k :: 0 <= k < |attempts| && BadName(base, attempts, k)
  }

  ghost predicate SomeTooLong(base: nat, attempts: seq<Attempt>)
    requires AllValid(attempts)
  {
    exists k :: 0 <= k < |attempts| && TooLong(base, attempts, k)
  }

  lemma SomeBadNameStep(base: nat, attempts: seq<Attempt>)
    requires AllValid(attempts) && attempts != []
    ensures
      var n := |attempts| - 1;
      SomeBadName(base, attempts) <==> SomeBadName(base, attempts[..n]) || BadName(base, attempts, n)
  {
    hide BadName;
    var n := |attempts| - 1;
    if k :| 0 <= k < n && BadName(base, attempts[..n], k) {
      PrefixVerdicts(base, attempts, n, k);
    }
    if k :| 0 <= k < n && BadName(base, attempts, k) {
      PrefixVerdicts(base, attempts, n, k);
    }
  }

  lemma SomeTooLongStep(base: nat, attempts: seq<Attempt>)
    requires AllValid(attempts) && attempts != []
    ensures
      var n := |attempts| - 1;
      SomeTooLong(base, attempts) <==> SomeTooLong(base, attempts[..n]) || TooLong(base, attempts, n)
  {
    hide TooLong;
    var n := |attempts| - 1;
    if k :| 0 <= k < n && TooLong(base, attempts[..n], k) {
      PrefixVerdicts(base, attempts, n, k);
    }
    if k :| 0 <= k < n && TooLong(base, attempts, k) {
      PrefixVerdicts(base, attempts, n, k);
    }
  }

  /**
   The fields of a finished event are exactly the attempts that had a usable name and enough room, in
   order; each flag is set exactly when some attempt was refused for that flag's reason.
   */
  lemma {:induction false} GreedyMeaning(base: nat, attempts: seq<Attempt>)
    requires AllValid(attempts)
    ensures Greedy(base, attempts).fields == KeptFields(base, attempts)
    ensures Greedy(base, attempts).fieldError <==> SomeBadName(base, attempts)
    ensures Greedy(base, attempts).truncated <==> SomeTooLong(base, attempts)
  {
    if attempts != [] {
      GreedyMeaning(base, attempts[..|attempts| - 1]);
      GreedyStep(base, attempts);
      SomeBadNameStep(base, attempts);
      SomeTooLongStep(base, attempts);
    }
  }
}
