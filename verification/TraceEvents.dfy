/** The event under construction, written in place in its 1024-byte buffer by one hook handler. */
module TraceEvents {
  import opened Bytes
  import opened EventCodec
  import opened Wrappers
  import opened EventBuilder

  const FLAG_TRUNCATED := 1
  const FLAG_FIELD_ERROR := 2

  /** A buffer that holds a partly built event: laid out as `v`, with good and distinct names. */
  predicate Building(w: Wire, v: View) {
    && LaidOut(w, v)
    && ValidIdentifier(v.moduleName, true)
    && ValidIdentifier(v.apiName, false)
    && (forall i :: 0 <= i < |v.fields| ==> ValidFieldName(v.fields[i].name))
    && DistinctNames(v.fields)
  }

  predicate HasFlag(w: Wire, bit: nat) { if bit == FLAG_TRUNCATED then Truncated(w) else FieldError(w) }

  lemma SetBit(flags: nat, bit: nat)
    requires flags < 65536
    requires (bit == 1 && flags % 2 == 0) || (bit == 2 && flags / 2 % 2 == 0)
    ensures flags + bit < 65536
    ensures (flags + bit) % 2 == (if bit == 1 then 1 else flags % 2)
    ensures (flags + bit) / 2 % 2 == (if bit == 2 then 1 else flags / 2 % 2)
  {
  }

  /** Or-ing one bit into the flags word. */
  function WithFlag(w: Wire, bit: nat): (r: Wire)
    requires bit == FLAG_TRUNCATED || bit == FLAG_FIELD_ERROR
    ensures forall i :: 0 <= i < EVENT_BYTES && i != 8 && i != 9 ==> r[i] == w[i]
    ensures Truncated(r) == (Truncated(w) || bit == FLAG_TRUNCATED)
    ensures FieldError(r) == (FieldError(w) || bit == FLAG_FIELD_ERROR)
  {
    if HasFlag(w, bit) then w
    else
      SetBit(Flags(w), bit);
      PutU16(w, 8, Flags(w) + bit)
  }

  lemma FlagKeepsLayout(w: Wire, bit: nat)
    requires bit == FLAG_TRUNCATED || bit == FLAG_FIELD_ERROR
    ensures HeaderOk(WithFlag(w, bit)) == HeaderOk(w)
    ensures forall v :: LaidOut(WithFlag(w, bit), v) == LaidOut(w, v)
  {
    if HeaderOk(w) {
      assert WithFlag(w, bit)[HEADER_BYTES..Size(w)] == w[HEADER_BYTES..Size(w)];
    }
  }

  /** The buffer after an accepted append. */
  function WithField(w: Wire, f: Field): Wire
    requires Encodable(f) && Size(w) + |Encode(f)| <= EVENT_BYTES && FieldCount(w) < 65535
  {
    PutU16(
      PutU16(Overwrite(w, Size(w), Encode(f)), 6, Size(w) + |Encode(f)|),
      10, FieldCount(w) + 1)
  }

  lemma {:induction false} SerializeLength(fields: seq<Field>)
    requires AllEncodable(fields)
    ensures |Serialize(fields)| >= FIELD_HEADER_BYTES * |fields|
  {
    if fields != [] { SerializeLength(fields[1..]); }
  }

  lemma LayoutSizes(w: Wire, v: View)
    requires LaidOut(w, v)
    ensures Size(w) == HEADER_BYTES + NameBytes(w) + |Serialize(v.fields)|
    ensures FieldCount(w) < 65535
  {
    assert |w[HEADER_BYTES..Size(w)]| == |Body(v)|;
    SerializeLength(v.fields);
  }

  lemma FieldKeepsLayout(w: Wire, v: View, f: Field)
    requires LaidOut(w, v) && Encodable(f) && Size(w) + |Encode(f)| <= EVENT_BYTES
    ensures FieldCount(w) < 65535
    ensures LaidOut(WithField(w, f), v.(fields := v.fields + [f]))
    ensures forall i :: (0 <= i < 6 || 8 <= i < 10 || 12 <= i < HEADER_BYTES) ==> WithField(w, f)[i] == w[i]
  {
    LayoutSizes(w, v);
    SerializeAppend(v.fields, f);
    FieldBytes(w, f);
    BodyGrows(v, f);
  }

  lemma BodyGrows(v: View, f: Field)
    requires AllEncodable(v.fields) && Encodable(f)
    ensures AllEncodable(v.fields + [f]) && Body(v.(fields := v.fields + [f])) == Body(v) + Encode(f)
  {
    SerializeAppend(v.fields, f);
    var names := v.moduleName + v.apiName;
    assert names + (Serialize(v.fields) + Encode(f)) == names + Serialize(v.fields) + Encode(f);
  }

  lemma FieldBytes(w: Wire, f: Field)
    requires HeaderOk(w) && Encodable(f) && Size(w) + |Encode(f)| <= EVENT_BYTES && FieldCount(w) < 65535
    ensures
      var r := WithField(w, f);
      HeaderOk(r) && Size(r) == Size(w) + |Encode(f)|
      && r[HEADER_BYTES..Size(r)] == w[HEADER_BYTES..Size(w)] + Encode(f)
  {
  }

  /** A header with the right lengths in front of the two names is an event without fields. */
  lemma InitialLayout(w: Wire, header: seq<byte>, v: View)
    requires v.fields == [] && ValidIdentifier(v.moduleName, true) && ValidIdentifier(v.apiName, false)
    requires w[..HEADER_BYTES] == header
    requires HasMagic(w) && Version(w) == EVENT_VERSION
    requires Size(w) == HEADER_BYTES + |v.moduleName| + |v.apiName|
    requires ModuleNameLength(w) == |v.moduleName| && ApiNameLength(w) == |v.apiName| && FieldCount(w) == 0
    requires w[HEADER_BYTES..HEADER_BYTES + |v.moduleName| + |v.apiName|] == v.moduleName + v.apiName
    ensures Building(w, v)
  {
    assert Body(v) == v.moduleName + v.apiName;
  }

  /** Where field `i` starts. */
  ghost function FieldOffset(w: Wire, v: View, i: nat): nat
    requires AllEncodable(v.fields) && i <= |v.fields|
  {
    HEADER_BYTES + NameBytes(w) + |Serialize(v.fields[..i])|
  }

  lemma FieldAt(w: Wire, v: View, i: nat)
    requires LaidOut(w, v) && i < |v.fields|
    ensures
      var c, f := FieldOffset(w, v, i), v.fields[i];
      && FieldOffset(w, v, i + 1) == c + |Encode(f)| <= Size(w)
      && w[c..c + |Encode(f)|] == Encode(f)
  {
    SerializedField(v.fields, i);
    BodyParts(w, v);
    FieldInBody(w, HEADER_BYTES + NameBytes(w), Serialize(v.fields), |Serialize(v.fields[..i])|, Encode(v.fields[i]));
  }

  lemma FieldInBody(w: Wire, start: nat, all: seq<byte>, from: nat, e: seq<byte>)
    requires start + |all| <= EVENT_BYTES && w[start..start + |all|] == all
    requires from + |e| <= |all| && all[from..from + |e|] == e
    ensures w[start + from..start + from + |e|] == e
  {
    SliceOfSlice(w, start, start + |all|, from, from + |e|);
  }

  /** Field `i` in the serialised list. */
  lemma SerializedField(fields: seq<Field>, i: nat)
    requires AllEncodable(fields) && i < |fields|
    ensures
      var all, from, f := Serialize(fields), |Serialize(fields[..i])|, fields[i];
      && |Serialize(fields[..i + 1])| == from + |Encode(f)| <= |all|
      && all[from..from + |Encode(f)|] == Encode(f)
  {
    var f := fields[i];
    assert fields[..i + 1] == fields[..i] + [f];
    assert fields == fields[..i + 1] + fields[i + 1..];
    SerializeAppend(fields[..i], f);
    SerializeConcat(fields[..i + 1], fields[i + 1..]);
    ThreeParts(Serialize(fields[..i]), Encode(f), Serialize(fields[i + 1..]));
  }

  lemma FieldHeaderAt(w: Wire, v: View, i: nat)
    requires LaidOut(w, v) && i < |v.fields|
    ensures
      var c, f := FieldOffset(w, v, i), v.fields[i];
      && c + FIELD_HEADER_BYTES + |f.name| + |f.value| <= Size(w)
      && w[c] == f.kind && w[c + 1] == |f.name| && U16(w, c + 2) == |f.value|
      && w[c + 4..c + 4 + |f.name|] == f.name
      && w[c + 4 + |f.name|..c + 4 + |f.name| + |f.value|] == f.value
  {
    FieldAt(w, v, i);
    EncodingParts(w, FieldOffset(w, v, i), v.fields[i]);
  }

  lemma EncodingParts(w: Wire, c: nat, f: Field)
    requires Encodable(f) && c + |Encode(f)| <= EVENT_BYTES && w[c..c + |Encode(f)|] == Encode(f)
    ensures c + FIELD_HEADER_BYTES + |f.name| + |f.value| == c + |Encode(f)|
    ensures w[c] == f.kind && w[c + 1] == |f.name| && U16(w, c + 2) == |f.value|
    ensures w[c + 4..c + 4 + |f.name|] == f.name
    ensures w[c + 4 + |f.name|..c + 4 + |f.name| + |f.value|] == f.value
  {
    var e, n := Encode(f), |f.name|;
    assert e[0] == w[c] && e[1] == w[c + 1] && e[2] == w[c + 2] && e[3] == w[c + 3];
    SliceOfSlice(w, c, c + |e|, 4, 4 + n);
    SliceOfSlice(w, c, c + |e|, 4 + n, |e|);
    assert e[4..4 + n] == f.name && e[4 + n..|e|] == f.value;
  }

  /** The three copies of an accepted append. */
  method EncodeInto(bytes: array<byte>, offset: nat, kind: byte, name: seq<byte>, value: seq<byte>)
    requires Encodable(Field(kind, name, value))
    requires offset + FIELD_HEADER_BYTES + |name| + |value| <= bytes.Length
    modifies bytes
    ensures bytes[..] == Overwrite(old(bytes[..]), offset, Encode(Field(kind, name, value)))
  {
    var cursor: nat := offset;
    ghost var before := bytes[..];
    var header: seq<byte> := [kind, |name|, |value| % 256, |value| / 256];
    OverwriteAdjoining(before, offset, header, name);
    OverwriteAdjoining(before, offset, header + name, value);
    CustomMemCpy(bytes, cursor, header);
    cursor := cursor + FIELD_HEADER_BYTES;
    CustomMemCpy(bytes, cursor, name);
    cursor := cursor + |name|;
    CustomMemCpy(bytes, cursor, value);
  }

  class TraceEvent {
    const bytes: array<byte>
    /** InitializeTraceEvent accepted the names; false leaves a zeroed buffer that every consumer refuses. */
    ghost var ready: bool
    ghost var view: View

    ghost predicate Valid()
      reads this, bytes
    {
      && bytes.Length == EVENT_BYTES
      && if ready then Building(bytes[..], view) else !HasMagic(bytes[..])
    }

    ghost function Draft(): Draft
      reads this, bytes
      requires Valid()
    {
      EventBuilder.Draft(view.fields, Truncated(bytes[..]), FieldError(bytes[..]))
    }

    constructor ()
      ensures bytes.Length == EVENT_BYTES && fresh(bytes)
    {
      bytes := new byte[EVENT_BYTES];
      ready := false;
      view := View([], [], []);
    }

    method SetFlag(bit: nat)
      requires bytes.Length == EVENT_BYTES
      requires bit == FLAG_TRUNCATED || bit == FLAG_FIELD_ERROR
      modifies bytes
      ensures bytes[..] == WithFlag(old(bytes[..]), bit)
    {
      if !HasFlag(bytes[..], bit) {
        SetBit(Flags(bytes[..]), bit);
        StoreU16(bytes, 8, Flags(bytes[..]) + bit);
      }
    }

    /** Fill in the fixed header fields of a zeroed event. */
    method WriteHeader(moduleNameLength: byte, apiNameLength: byte, threadId: seq<byte>, timestamp: seq<byte>)
      requires bytes.Length == EVENT_BYTES && |threadId| == 4 && |timestamp| == 8
      requires moduleNameLength <= MAX_NAME_BYTES && apiNameLength <= MAX_NAME_BYTES
      modifies bytes
      ensures HasMagic(bytes[..]) && Version(bytes[..]) == EVENT_VERSION
      ensures Size(bytes[..]) == HEADER_BYTES + moduleNameLength as int + apiNameLength as int
      ensures ModuleNameLength(bytes[..]) == moduleNameLength && ApiNameLength(bytes[..]) == apiNameLength
      ensures forall i :: 8 <= i < 12 ==> bytes[i] == old(bytes[i])
      ensures bytes[24..28] == threadId && bytes[16..24] == timestamp
    {
      CustomMemCpy(bytes, 24, threadId);
      CustomMemCpy(bytes, 16, timestamp);
      assert bytes[24..28] == threadId && bytes[16..24] == timestamp;
      bytes[0], bytes[1], bytes[2], bytes[3] := 0x41, 0x50, 0x49, 0x53;
      StoreU16(bytes, 4, EVENT_VERSION);
      StoreU16(bytes, 6, HEADER_BYTES + moduleNameLength as int + apiNameLength as int);
      bytes[28] := moduleNameLength;
      bytes[29] := apiNameLength;
      assert bytes[24..28] == threadId && bytes[16..24] == timestamp;
    }

    method WriteNames(moduleName: seq<byte>, apiName: seq<byte>)
      requires bytes.Length == EVENT_BYTES && |moduleName| <= MAX_NAME_BYTES && |apiName| <= MAX_NAME_BYTES
      modifies bytes
      ensures forall i :: 0 <= i < HEADER_BYTES ==> bytes[i] == old(bytes[i])
      ensures bytes[HEADER_BYTES..HEADER_BYTES + |moduleName| + |apiName|] == moduleName + apiName
    {
      CustomMemCpy(bytes, HEADER_BYTES, moduleName);
      CustomMemCpy(bytes, HEADER_BYTES + |moduleName|, apiName);
    }

    method InitializeTraceEvent(
      moduleName: CString, apiName: CString, threadId: seq<byte>, timestamp: seq<byte>) returns (ok: bool)
      requires bytes.Length == EVENT_BYTES && moduleName.IsValid() && apiName.IsValid()
      requires |threadId| == 4 && |timestamp| == 8
      modifies this, bytes
      ensures Valid() && ready == ok
      ensures ok <==> GoodIdentifier(moduleName, true) && GoodIdentifier(apiName, false)
      ensures ok ==>
        && view == View(moduleName.chars, apiName.chars, [])
        && Draft() == EMPTY_DRAFT
        && bytes[24..28] == threadId && bytes[16..24] == timestamp
      ensures !ok ==> FieldError(bytes[..]) && !Truncated(bytes[..])
    {
      CustomMemSet(bytes, 0);
      var moduleNameLength := IsValidIdentifier(moduleName, true);
      var apiNameLength := None;
      if moduleNameLength.Some? {
        apiNameLength := IsValidIdentifier(apiName, false);
      }
      if apiNameLength.None? {
        SetFlag(FLAG_FIELD_ERROR);
        ready := false;
        return false;
      }

      WriteHeader(moduleNameLength.value, apiNameLength.value, threadId, timestamp);
      ghost var header := bytes[..HEADER_BYTES];
      WriteNames(moduleName.chars, apiName.chars);
      assert bytes[..HEADER_BYTES] == header;
      assert bytes[24..28] == header[24..28] && bytes[16..24] == header[16..24];
      ready := true;
      view := View(moduleName.chars, apiName.chars, []);
      InitialLayout(bytes[..], header, view);
      return true;
    }

    method HasTraceField(name: seq<byte>) returns (found: bool)
      requires Valid() && ready
      ensures found <==> !Fresh(view.fields, name)
    {
      ghost var w := bytes[..];
      var cursor: nat := HEADER_BYTES + NameBytes(bytes[..]);
      var index := 0;
      assert view.fields[..0] == [];
      while index < FieldCount(bytes[..])
        invariant index <= |view.fields| && cursor == FieldOffset(w, view, index)
        invariant Fresh(view.fields[..index], name)
        decreases |view.fields| - index
      {
        FieldHeaderAt(w, view, index);
        FieldAt(w, view, index);
        var nameLength := bytes[cursor + 1];
        var valueSize := U16(bytes[..], cursor + 2);
        cursor := cursor + FIELD_HEADER_BYTES;
        assert bytes[cursor..cursor + nameLength as int] == w[cursor..cursor + nameLength as int];
        if nameLength as int == |name| && bytes[cursor..cursor + nameLength as int] == name {
          return true;
        }
        cursor := cursor + nameLength as int + valueSize;
        index := index + 1;
      }
      assert view.fields[..index] == view.fields;
      return false;
    }

    method Refuse(bit: nat)
      requires Valid()
      requires bit == FLAG_TRUNCATED || bit == FLAG_FIELD_ERROR
      modifies bytes
      ensures Valid() && bytes[..] == WithFlag(old(bytes[..]), bit)
      ensures Draft() == EventBuilder.Draft(
        view.fields,
        old(Truncated(bytes[..])) || bit == FLAG_TRUNCATED,
        old(FieldError(bytes[..])) || bit == FLAG_FIELD_ERROR)
      ensures forall i :: 0 <= i < EVENT_BYTES && i != 8 && i != 9 ==> bytes[i] == old(bytes[i])
    {
      FlagKeepsLayout(bytes[..], bit);
      ghost var after := WithFlag(bytes[..], bit);
      SetFlag(bit);
      assert forall i :: 0 <= i < EVENT_BYTES ==> bytes[i] == after[i];
    }

    /** The copies and the two counter updates of an accepted append. */
    method WriteField(kind: byte, name: seq<byte>, value: seq<byte>)
      requires Valid() && ready && ValidFieldName(name) && Fresh(view.fields, name) && |value| < 65536
      requires Size(bytes[..]) + FIELD_HEADER_BYTES + |name| + |value| <= EVENT_BYTES
      modifies this, bytes
      ensures Valid() && ready
      ensures view == old(view).(fields := old(view.fields) + [Field(kind, name, value)])
      ensures Flags(bytes[..]) == old(Flags(bytes[..]))
      ensures forall i :: (0 <= i < 6 || 12 <= i < HEADER_BYTES) ==> bytes[i] == old(bytes[i])
    {
      ghost var before, f := bytes[..], Field(kind, name, value);
      var size := Size(bytes[..]);
      LayoutSizes(before, view);
      FieldKeepsLayout(before, view, f);
      EncodeInto(bytes, size, kind, name, value);
      StoreU16(bytes, 6, size + FIELD_HEADER_BYTES + |name| + |value|);
      StoreU16(bytes, 10, FieldCount(bytes[..]) + 1);
      ghost var after := WithField(before, f);
      assert bytes[..] == after;
      view := view.(fields := view.fields + [f]);
      assert forall i :: (0 <= i < 6 || 8 <= i < 10 || 12 <= i < HEADER_BYTES) ==> bytes[i] == after[i];
    }

    /**
     Append one field, or set a flag. The three verdicts are those of AfterAppend, and a refused append
     changes nothing but the flags.
     */
    method AppendTraceField(kind: byte, name: CString, value: Option<seq<byte>>) returns (ok: bool)
      requires Valid() && name.IsValid() && (value.Some? ==> |value.value| < 65536)
      modifies this, bytes
      ensures Valid() && ready == old(ready)
      ensures ready && value.Some? ==>
        && view == old(view).(fields := Draft().fields)
        && Draft() == AfterAppend(HEADER_BYTES + old(NameBytes(bytes[..])), old(Draft()), kind, name, value.value)
        && (ok <==> |view.fields| == |old(view.fields)| + 1)
      ensures !ready || value.None? ==>
        !ok && bytes[..] == WithFlag(old(bytes[..]), FLAG_FIELD_ERROR)
      ensures !ok ==>
        view == old(view) && forall i :: 0 <= i < EVENT_BYTES && i != 8 && i != 9 ==> bytes[i] == old(bytes[i])
      ensures forall i :: (0 <= i < 6 || 12 <= i < HEADER_BYTES) ==> bytes[i] == old(bytes[i])
    {
      if value.None? {
        Refuse(FLAG_FIELD_ERROR);
        return false;
      }
      if !HeaderOk(bytes[..]) {
        Refuse(FLAG_FIELD_ERROR);
        return false;
      }
      LayoutSizes(bytes[..], view);
      var nameLength := IsValidFieldName(name);
      var refused := nameLength.None?;
      if !refused {
        refused := HasTraceField(name.chars);
      }
      if refused {
        Refuse(FLAG_FIELD_ERROR);
        return false;
      }

      var required := FIELD_HEADER_BYTES + nameLength.value + |value.value|;
      if Size(bytes[..]) + required > EVENT_BYTES {
        Refuse(FLAG_TRUNCATED);
        return false;
      }
      WriteField(kind, name.chars, value.value);
      return true;
    }

    /** The AddTrace* family: encode a typed value and append it. */
    method AddTrace(name: CString, value: TraceValue) returns (ok: bool)
      requires Valid() && name.IsValid() && value.IsValid()
      modifies this, bytes
      ensures Valid() && ready == old(ready)
      ensures ready ==>
        && view == old(view).(fields := Draft().fields)
        && Draft() == AfterAppend(
             HEADER_BYTES + old(NameBytes(bytes[..])), old(Draft()), value.Kind(), name, value.Image())
      ensures !ready ==> !ok
      ensures forall i :: (0 <= i < 6 || 12 <= i < HEADER_BYTES) ==> bytes[i] == old(bytes[i])
    {
      ValueRoundTrip(value);
      ok := AppendTraceField(value.Kind(), name, Some(value.Image()));
    }
  }

  lemma NextAttempt(base: nat, attempts: seq<Attempt>, i: nat)
    requires AllValid(attempts) && i < |attempts|
    ensures AllValid(attempts[..i]) && AllValid(attempts[..i + 1]) && attempts[i].IsValid()
    ensures
      var a := attempts[i];
      Greedy(base, attempts[..i + 1])
      == AfterAppend(base, Greedy(base, attempts[..i]), a.value.Kind(), a.name, a.value.Image())
  {
    assert attempts[..i + 1][..i] == attempts[..i];
    assert attempts[i].IsValid();
    ValueRoundTrip(attempts[i].value);
  }

  /** The header names that thread and time. */
  predicate From(w: Wire, threadId: seq<byte>, timestamp: seq<byte>) {
    w[24..28] == threadId && w[16..24] == timestamp
  }

  lemma FromHeader(w: Wire, threadId: seq<byte>, timestamp: seq<byte>)
    requires w[24..28] == threadId && w[16..24] == timestamp
    ensures From(w, threadId, timestamp)
  {
  }

  lemma FromStays(w: Wire, w': Wire, threadId: seq<byte>, timestamp: seq<byte>)
    requires From(w, threadId, timestamp) && forall i :: 12 <= i < HEADER_BYTES ==> w'[i] == w[i]
    ensures From(w', threadId, timestamp)
  {
    assert w'[24..28] == w[24..28] && w'[16..24] == w[16..24];
  }

  lemma BuildingNames(w: Wire, v: View)
    requires Building(w, v)
    ensures NameBytes(w) == |v.moduleName| + |v.apiName|
  {
  }

  lemma NoAttempts(base: nat, attempts: seq<Attempt>)
    ensures AllValid(attempts[..0]) && Greedy(base, attempts[..0]) == EMPTY_DRAFT
  {
  }

  lemma FinishedReports(w: Wire, v: View, threadId: seq<byte>, timestamp: seq<byte>)
    requires Building(w, v) && AcceptableFields(v.fields) && From(w, threadId, timestamp)
    ensures Reports(w, Report(v, Truncated(w), FieldError(w), threadId, timestamp))
  {
  }

  lemma NoMagicIsInvalid(w: Wire)
    requires !HasMagic(w)
    ensures !IsValidTraceEvent(w)
  {
  }

  /**
   A hook handler: initialise, then add fields in program order. With good names the event is
   well formed and says exactly the greedy outcome; with bad names it is never accepted.
   */
  method BuildEvent(
    moduleName: CString, apiName: CString, threadId: seq<byte>, timestamp: seq<byte>, attempts: seq<Attempt>)
    returns (event: TraceEvent)
    requires moduleName.IsValid() && apiName.IsValid() && AllValid(attempts)
    requires |threadId| == 4 && |timestamp| == 8
    ensures event.Valid()
    ensures GoodIdentifier(moduleName, true) && GoodIdentifier(apiName, false) ==>
      var d := Greedy(HEADER_BYTES + |moduleName.chars| + |apiName.chars|, attempts);
      Reports(
        event.bytes[..],
        Report(View(moduleName.chars, apiName.chars, d.fields), d.truncated, d.fieldError, threadId, timestamp))
    ensures !(GoodIdentifier(moduleName, true) && GoodIdentifier(apiName, false)) ==>
      !IsValidTraceEvent(event.bytes[..])
  {
    hide Greedy, From, GoodIdentifier, IsValidTraceEvent, Building, Reports;
    event := new TraceEvent();
    var ok := event.InitializeTraceEvent(moduleName, apiName, threadId, timestamp);
    if ok {
      FromHeader(event.bytes[..], threadId, timestamp);
      BuildingNames(event.bytes[..], event.view);
    }
    AddAll(event, attempts, threadId, timestamp);
    if ok {
      FinishedReports(event.bytes[..], event.view, threadId, timestamp);
    } else {
      NoMagicIsInvalid(event.bytes[..]);
    }
  }

  /** The fields of a handler, one call after the other, whatever each call says. */
  method AddAll(event: TraceEvent, attempts: seq<Attempt>, ghost threadId: seq<byte>, ghost timestamp: seq<byte>)
    requires event.Valid() && AllValid(attempts)
    requires event.ready ==> event.Draft() == EMPTY_DRAFT && From(event.bytes[..], threadId, timestamp)
    modifies event, event.bytes
    ensures event.Valid() && event.ready == old(event.ready)
    ensures event.ready ==>
      && event.Draft() == Greedy(HEADER_BYTES + old(NameBytes(event.bytes[..])), attempts)
      && event.view == old(event.view).(fields := event.Draft().fields)
      && From(event.bytes[..], threadId, timestamp)
  {
    hide Greedy, AfterAppend, From, Building;
    ghost var base := HEADER_BYTES + NameBytes(event.bytes[..]);
    NoAttempts(base, attempts);
    for i := 0 to |attempts|
      invariant event.Valid() && event.ready == old(event.ready)
      invariant event.ready ==>
        && HEADER_BYTES + NameBytes(event.bytes[..]) == base
        && event.view == old(event.view).(fields := event.Draft().fields)
        && event.Draft() == Greedy(base, attempts[..i])
        && From(event.bytes[..], threadId, timestamp)
    {
      NextAttempt(base, attempts, i);
      ghost var before := event.bytes[..];
      var added := event.AddTrace(attempts[i].name, attempts[i].value);
      if event.ready {
        FromStays(before, event.bytes[..], threadId, timestamp);
      }
    }
    assert attempts[..|attempts|] == attempts;
  }
}
