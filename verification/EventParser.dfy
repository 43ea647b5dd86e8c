/** The controller's parser, written independently of the builder: a cursor walk that accepts exactly the grammar. */
module EventParser {
  import opened Bytes
  import opened EventCodec
  import opened Wrappers
  import opened EventBuilder
  import opened TraceEvents

  method CheckIdentifier(name: seq<byte>, moduleName: bool) returns (ok: bool)
    ensures ok <==> ValidIdentifier(name, moduleName)
  {
    if |name| == 0 || |name| > MAX_NAME_BYTES {
      return false;
    }
    for index := 0 to |name|
      invariant forall i :: 0 <= i < index ==> IdentifierByte(name[i], moduleName)
    {
      if !IdentifierByte(name[index], moduleName) {
        return false;
      }
    }
    return true;
  }

  method CheckFieldName(name: seq<byte>) returns (ok: bool)
    ensures ok <==> ValidFieldName(name)
  {
    if |name| == 0 || |name| > MAX_NAME_BYTES {
      return false;
    }
    if !IsLower(name[0]) {
      return false;
    }
    for index := 1 to |name|
      invariant forall i :: 1 <= i < index ==> FieldNameByte(name[i])
    {
      if !FieldNameByte(name[index]) {
        return false;
      }
    }
    return true;
  }

  method IsFresh(fields: seq<Field>, name: seq<byte>) returns (unused: bool)
    ensures unused <==> Fresh(fields, name)
  {
    for index := 0 to |fields|
      invariant forall i :: 0 <= i < index ==> fields[i].name != name
    {
      if fields[index].name == name {
        return false;
      }
    }
    return true;
  }

  /** `w` holds the encoding of `f` at `cursor`, ending by `end`. */
  predicate HoldsField(w: Wire, cursor: nat, end: nat, f: Field) {
    && end <= EVENT_BYTES
    && cursor + FIELD_HEADER_BYTES + |f.name| + |f.value| <= end
    && w[cursor] == f.kind && w[cursor + 1] == |f.name| && U16(w, cursor + 2) == |f.value|
    && w[cursor + 4..cursor + 4 + |f.name|] == f.name
    && w[cursor + 4 + |f.name|..cursor + 4 + |f.name| + |f.value|] == f.value
  }

  /** The parse so far agrees with every complete parse there may be. */
  ghost predicate Agrees(w: Wire, moduleName: seq<byte>, apiName: seq<byte>, fields: seq<Field>) {
    IsValidTraceEvent(w) ==>
      var v := Meaning(w);
      && v.moduleName == moduleName && v.apiName == apiName
      && |fields| <= |v.fields| && v.fields[..|fields|] == fields
  }

  /** What a valid event holds where the cursor stands. */
  lemma NextField(w: Wire, moduleName: seq<byte>, apiName: seq<byte>, fields: seq<Field>, cursor: nat)
    requires IsValidTraceEvent(w) && Agrees(w, moduleName, apiName, fields)
    requires |fields| < FieldCount(w) && AllEncodable(fields)
    requires cursor == HEADER_BYTES + NameBytes(w) + |Serialize(fields)|
    ensures
      var f := Meaning(w).fields[|fields|];
      && AcceptableField(f) && Fresh(fields, f.name)
      && HoldsField(w, cursor, Size(w), f)
      && Meaning(w).fields[..|fields| + 1] == fields + [f]
  {
    FieldHeaderAt(w, Meaning(w), |fields|);
  }

  /** A field read at the cursor extends the serialised prefix. */
  lemma ReadExtends(w: Wire, start: nat, cursor: nat, end: nat, fields: seq<Field>, f: Field)
    requires Encodable(f) && AllEncodable(fields)
    requires start <= cursor && HoldsField(w, cursor, end, f)
    requires w[start..cursor] == Serialize(fields)
    ensures AllEncodable(fields + [f])
    ensures w[start..cursor + |Encode(f)|] == Serialize(fields + [f])
  {
    SerializeAppend(fields, f);
    var e := w[cursor..cursor + |Encode(f)|];
    assert e == w[cursor..cursor + 4] + w[cursor + 4..cursor + 4 + |f.name|]
                + w[cursor + 4 + |f.name|..cursor + 4 + |f.name| + |f.value|];
    assert w[cursor..cursor + 4] == [f.kind, |f.name|, |f.value| % 256, |f.value| / 256];
    assert e == Encode(f);
    assert w[start..cursor + |Encode(f)|] == w[start..cursor] + e;
  }

  lemma AppendAcceptable(fields: seq<Field>, f: Field)
    requires AcceptableFields(fields) && AcceptableField(f) && Fresh(fields, f.name)
    ensures AcceptableFields(fields + [f])
  {
  }

  /** The field at the cursor is the one every complete parse has there. */
  lemma AgreesNext(w: Wire, moduleName: seq<byte>, apiName: seq<byte>, fields: seq<Field>, cursor: nat, f: Field)
    requires Agrees(w, moduleName, apiName, fields) && AllEncodable(fields)
    requires |fields| < FieldCount(w)
    requires cursor == HEADER_BYTES + NameBytes(w) + |Serialize(fields)|
    requires HoldsField(w, cursor, Size(w), f)
    ensures Agrees(w, moduleName, apiName, fields + [f])
  {
    if IsValidTraceEvent(w) {
      NextField(w, moduleName, apiName, fields, cursor);
      var g := Meaning(w).fields[|fields|];
      assert f.name == g.name && f.value == g.value;
    }
  }

  /** A complete parse leaves no byte over. */
  lemma AgreesToTheEnd(w: Wire, moduleName: seq<byte>, apiName: seq<byte>, fields: seq<Field>)
    requires Agrees(w, moduleName, apiName, fields) && AllEncodable(fields) && |fields| == FieldCount(w)
    ensures IsValidTraceEvent(w) ==> HEADER_BYTES + NameBytes(w) + |Serialize(fields)| == Size(w)
  {
    if IsValidTraceEvent(w) {
      LayoutSizes(w, Meaning(w));
      assert Meaning(w).fields[..|fields|] == Meaning(w).fields;
    }
  }

  /** One round of the field loop: the header, the bounds, the name, its freshness, the value. */
  method ParseField(event: Wire, cursor: nat, end: nat, fields: seq<Field>) returns (field: Option<Field>)
    requires cursor <= end <= EVENT_BYTES
    ensures field.Some? ==>
      && AcceptableField(field.value) && Fresh(fields, field.value.name)
      && HoldsField(event, cursor, end, field.value)
    ensures field.None? ==>
      forall f :: AcceptableField(f) && HoldsField(event, cursor, end, f) ==> !Fresh(fields, f.name)
  {
    if end - cursor < FIELD_HEADER_BYTES {
      return None;
    }
    var kind, nameLength, valueSize := event[cursor], event[cursor + 1] as int, U16(event, cursor + 2);
    var at: nat := cursor + FIELD_HEADER_BYTES;
    var fieldSize := nameLength + valueSize;
    if end - at < fieldSize {
      return None;
    }
    var name := event[at..at + nameLength];
    var ok := CheckFieldName(name);
    if !ok {
      return None;
    }
    ok := IsFresh(fields, name);
    if !ok {
      return None;
    }
    at := at + nameLength;
    var value := event[at..at + valueSize];
    if !ExpectedValue(kind, value) {
      return None;
    }
    return Some(Field(kind, name, value));
  }

  /** The field loop: it fails, or leaves the cursor at `end` with all fields read. */
  method ParseFields(event: Wire, moduleName: seq<byte>, apiName: seq<byte>) returns (result: Option<seq<Field>>)
    requires HeaderOk(event) && Agrees(event, moduleName, apiName, [])
    ensures result.None? ==> !IsValidTraceEvent(event)
    ensures result.Some? ==>
      && AcceptableFields(result.value) && |result.value| == FieldCount(event)
      && event[HEADER_BYTES + NameBytes(event)..Size(event)] == Serialize(result.value)
  {
    var cursor: nat := HEADER_BYTES + NameBytes(event);
    var end := Size(event);
    ghost var start := cursor;
    var fields: seq<Field> := [];
    for index := 0 to FieldCount(event)
      invariant |fields| == index && AcceptableFields(fields)
      invariant start <= cursor <= end && cursor == start + |Serialize(fields)|
      invariant event[start..cursor] == Serialize(fields)
      invariant Agrees(event, moduleName, apiName, fields)
    {
      var field := ParseField(event, cursor, end, fields);
      if field.None? {
        if IsValidTraceEvent(event) { NextField(event, moduleName, apiName, fields, cursor); }
        return None;
      }
      var f := field.value;
      AppendAcceptable(fields, f);
      AgreesNext(event, moduleName, apiName, fields, cursor, f);
      ReadExtends(event, start, cursor, end, fields, f);
      SerializeAppend(fields, f);
      cursor := cursor + FIELD_HEADER_BYTES + |f.name| + |f.value|;
      fields := fields + [f];
    }
    AgreesToTheEnd(event, moduleName, apiName, fields);
    if cursor != end {
      return None;
    }
    return Some(fields);
  }

  lemma PartsDescribe(w: Wire, moduleName: seq<byte>, apiName: seq<byte>, fields: seq<Field>)
    requires HeaderOk(w) && |moduleName| == ModuleNameLength(w) as int && |apiName| == ApiNameLength(w) as int
    requires moduleName == w[HEADER_BYTES..HEADER_BYTES + |moduleName|]
    requires apiName == w[HEADER_BYTES + |moduleName|..HEADER_BYTES + |moduleName| + |apiName|]
    requires ValidIdentifier(moduleName, true) && ValidIdentifier(apiName, false)
    requires AcceptableFields(fields) && |fields| == FieldCount(w)
    requires Serialize(fields) == w[HEADER_BYTES + NameBytes(w)..Size(w)]
    ensures Describes(w, View(moduleName, apiName, fields))
  {
    var n := HEADER_BYTES + NameBytes(w);
    assert w[HEADER_BYTES..Size(w)] == moduleName + apiName + w[n..Size(w)];
  }

  /** Accepts exactly the well-formed events, and returns their one meaning. */
  method ParseTraceEvent(event: Wire, bytesReceived: nat) returns (result: Option<View>)
    ensures result.Some? <==> bytesReceived == Size(event) && IsValidTraceEvent(event)
    ensures result.Some? ==> Describes(event, result.value)
  {
    if bytesReceived < HEADER_BYTES || !HasMagic(event) || Version(event) != EVENT_VERSION ||
       Size(event) != bytesReceived || Size(event) > EVENT_BYTES ||
       Size(event) < HEADER_BYTES + NameBytes(event) {
      return None;
    }

    if IsValidTraceEvent(event) { BodyParts(event, Meaning(event)); }
    var cursor: nat := HEADER_BYTES;
    var moduleName := event[cursor..cursor + ModuleNameLength(event) as int];
    var ok := CheckIdentifier(moduleName, true);
    if !ok {
      return None;
    }
    cursor := cursor + ModuleNameLength(event) as int;
    var apiName := event[cursor..cursor + ApiNameLength(event) as int];
    ok := CheckIdentifier(apiName, false);
    if !ok {
      return None;
    }
    cursor := cursor + ApiNameLength(event) as int;

    var fields := ParseFields(event, moduleName, apiName);
    if fields.None? {
      return None;
    }
    PartsDescribe(event, moduleName, apiName, fields.value);
    return Some(View(moduleName, apiName, fields.value));
  }

  /** What is rendered of an event: its parsed parts, and what its header says besides. */
  method ReadReport(event: Wire, bytesReceived: nat) returns (result: Option<Report>)
    ensures result.Some? <==> bytesReceived == Size(event) && IsValidTraceEvent(event)
    ensures result.Some? ==> Reports(event, result.value)
  {
    var view := ParseTraceEvent(event, bytesReceived);
    if view.None? {
      return None;
    }
    return Some(Report(view.value, Truncated(event), FieldError(event), event[24..28], event[16..24]));
  }

  /**
   The two ends of the codec: whatever a hook handler builds with good names is accepted, and what is
   read back is the greedy sublist of its fields with every typed value intact, its thread and time, and
   whether some field did not fit or had a bad name.
   */
  method BuildThenParse(
    moduleName: CString, apiName: CString, threadId: seq<byte>, timestamp: seq<byte>, attempts: seq<Attempt>)
    returns (result: Option<Report>)
    requires moduleName.IsValid() && apiName.IsValid() && AllValid(attempts)
    requires |threadId| == 4 && |timestamp| == 8
    ensures result.Some? <==> GoodIdentifier(moduleName, true) && GoodIdentifier(apiName, false)
    ensures result.Some? ==>
      var base := HEADER_BYTES + |moduleName.chars| + |apiName.chars|;
      result.value ==
        Report(
          View(moduleName.chars, apiName.chars, KeptFields(base, attempts)),
          SomeTooLong(base, attempts), SomeBadName(base, attempts), threadId, timestamp)
  {
    hide Describes, KeptFields, SomeTooLong, SomeBadName, Greedy;
    var event := BuildEvent(moduleName, apiName, threadId, timestamp, attempts);
    var w := event.bytes[..];
    result := ReadReport(w, Size(w));
    if GoodIdentifier(moduleName, true) && GoodIdentifier(apiName, false) {
      var base := HEADER_BYTES + |moduleName.chars| + |apiName.chars|;
      ghost var d := Greedy(base, attempts);
      ghost var report :=
        Report(View(moduleName.chars, apiName.chars, d.fields), d.truncated, d.fieldError, threadId, timestamp);
      ReportIs(w, report);
      ReportIs(w, result.value);
      GreedyMeaning(base, attempts);
    }
  }
}
