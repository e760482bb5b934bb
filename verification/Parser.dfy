/** The descriptor parser as it runs: loops over a cursor that update locals in place. */
module Parser {
  import opened Basics
  import opened Wire
  import opened WireIO
  import opened Records
  import opened RecordLoop
  import opened Descriptors
  import opened FieldIndexing
  import opened Utf8
  import opened Parsing
  import opened Values

  method ReadRawField(data: Bytes) returns (r: Parsed<RawField>)
    ensures r == ParseRawField(data)
  {
    var reader := new Reader(data);
    var raw := NO_FIELD;
    LoopStart(RawFieldStep, WireParse, raw, data);
    while !reader.IsEmpty()
      invariant reader.Valid() && reader.buf == data
      invariant LoopFrom(RawFieldStep, WireParse, raw, data, reader.pos) == ParseRawField(data)
      decreases |data| - reader.pos
    {
      hide LoopFrom, Loop, ReadRecord, ParseRawField, ValidUtf8;
      ghost var before, at := raw, reader.pos;
      var rec := NextRecord(reader);
      if rec.Err? {
        LoopBroken(RawFieldStep, WireParse, before, data, at, rec.error);
        return Err(WireFault(rec.error));
      }
      LoopTurn(RawFieldStep, WireParse, before, data, at, rec.value, reader.pos);
      match rec.value
      case Record(1, PLen(text)) =>
        if !ValidUtf8(text) {
          return Err(InvalidName);
        }
        raw := raw.(name := text);
      case Record(3, PVarint(v)) => raw := raw.(number := AsU32(v));
      case Record(4, PVarint(v)) => raw := raw.(cardinality := AsI64(v));
      case Record(5, PVarint(v)) => raw := raw.(typeCode := Some(AsI64(v)));
      case Record(6, PLen(text)) =>
        if !ValidUtf8(text) {
          return Err(InvalidName);
        }
        raw := raw.(typeName := Some(text));
      case Record(9, PVarint(v)) => raw := raw.(oneofIndex := Some(AsU32(v)));
      case Record(17, PVarint(v)) => raw := raw.(proto3Optional := v != 0);
      case _ =>
    }
    LoopEnd(RawFieldStep, WireParse, raw, data);
    return Ok(raw);
  }

  method ReadOptions(flag: bool, data: Bytes) returns (r: Parsed<bool>)
    ensures r == ParseOptions(flag, data)
  {
    var reader := new Reader(data);
    var isMapEntry := flag;
    LoopStart(OptionStep, WireParse, flag, data);
    while !reader.IsEmpty()
      invariant reader.Valid() && reader.buf == data
      invariant LoopFrom(OptionStep, WireParse, isMapEntry, data, reader.pos) == ParseOptions(flag, data)
      decreases |data| - reader.pos
    {
      hide LoopFrom, Loop, ReadRecord, ParseOptions;
      ghost var before, at := isMapEntry, reader.pos;
      var rec := NextRecord(reader);
      if rec.Err? {
        LoopBroken(OptionStep, WireParse, before, data, at, rec.error);
        return Err(WireFault(rec.error));
      }
      LoopTurn(OptionStep, WireParse, before, data, at, rec.value, reader.pos);
      if rec.value.number == 7 && rec.value.payload.PVarint? {
        isMapEntry := rec.value.payload.v != 0;
      }
    }
    LoopEnd(OptionStep, WireParse, isMapEntry, data);
    return Ok(isMapEntry);
  }

  method ReadOneofName(data: Bytes) returns (r: Parsed<Name>)
    ensures r == ParseOneofName(data)
  {
    var reader := new Reader(data);
    var name: Name := [];
    LoopStart(OneofNameStep, WireParse, name, data);
    while !reader.IsEmpty()
      invariant reader.Valid() && reader.buf == data
      invariant LoopFrom(OneofNameStep, WireParse, name, data, reader.pos) == ParseOneofName(data)
      decreases |data| - reader.pos
    {
      hide LoopFrom, Loop, ReadRecord, ParseOneofName, ValidUtf8;
      ghost var before, at := name, reader.pos;
      var rec := NextRecord(reader);
      if rec.Err? {
        LoopBroken(OneofNameStep, WireParse, before, data, at, rec.error);
        return Err(WireFault(rec.error));
      }
      LoopTurn(OneofNameStep, WireParse, before, data, at, rec.value, reader.pos);
      if rec.value.number == 1 && rec.value.payload.PLen? {
        if !ValidUtf8(rec.value.payload.data) {
          return Err(InvalidName);
        }
        name := rec.value.payload.data;
      }
    }
    LoopEnd(OneofNameStep, WireParse, name, data);
    return Ok(name);
  }

  method ReadNested(data: Bytes) returns (r: Parsed<Nested>)
    ensures r == ParseNested(data)
  {
    var reader := new Reader(data);
    var n := NO_ENTRY;
    LoopStart(NestedStep, WireParse, n, data);
    while !reader.IsEmpty()
      invariant reader.Valid() && reader.buf == data
      invariant LoopFrom(NestedStep, WireParse, n, data, reader.pos) == ParseNested(data)
      decreases |data| - reader.pos
    {
      hide LoopFrom, Loop, ReadRecord, ParseNested, ParseRawField, ParseOptions, ValidUtf8, KindOf, ScalarFrom;
      ghost var before, at := n, reader.pos;
      var rec := NextRecord(reader);
      if rec.Err? {
        LoopBroken(NestedStep, WireParse, before, data, at, rec.error);
        return Err(WireFault(rec.error));
      }
      LoopTurn(NestedStep, WireParse, before, data, at, rec.value, reader.pos);
      match rec.value
      case Record(1, PLen(text)) =>
        if !ValidUtf8(text) {
          return Err(InvalidName);
        }
        n := n.(name := text);
      case Record(2, PLen(field)) =>
        var raw := ReadRawField(field);
        if raw.Err? {
          return Err(raw.error);
        }
        if raw.value.typeCode.None? {
          return Err(MissingType);
        }
        if raw.value.number == 1 {
          n := n.(key := ScalarFrom(raw.value.typeCode.value));
        } else if raw.value.number == 2 {
          var value := KindOf(raw.value.typeCode.value, raw.value.typeName);
          if value.Err? {
            return Err(value.error);
          }
          n := n.(value := Some(value.value));
        }
      case Record(7, PLen(options)) =>
        var flag := ReadOptions(n.isMapEntry, options);
        if flag.Err? {
          return Err(flag.error);
        }
        n := n.(isMapEntry := flag.value);
      case _ =>
    }
    LoopEnd(NestedStep, WireParse, n, data);
    return Ok(n);
  }

  /** Collects the parts of a descriptor. */
  method ReadDraft(data: Bytes) returns (r: Parsed<Draft>)
    ensures r == Loop(DraftStep, WireParse, NO_MESSAGE, data)
  {
    var reader := new Reader(data);
    var name: Name, raws: seq<RawField>, entries: map<Name, MapEntry>, oneofs: seq<Name> := [], [], map[], [];
    LoopStart(DraftStep, WireParse, NO_MESSAGE, data);
    while !reader.IsEmpty()
      invariant reader.Valid() && reader.buf == data
      invariant LoopFrom(DraftStep, WireParse, Draft(name, raws, entries, oneofs), data, reader.pos)
             == Loop(DraftStep, WireParse, NO_MESSAGE, data)
      decreases |data| - reader.pos
    {
      hide LoopFrom, Loop, ReadRecord, ParseNested, ParseRawField, ParseOneofName, ValidUtf8, EntryOf;
      ghost var before, at := Draft(name, raws, entries, oneofs), reader.pos;
      var rec := NextRecord(reader);
      if rec.Err? {
        LoopBroken(DraftStep, WireParse, before, data, at, rec.error);
        return Err(WireFault(rec.error));
      }
      LoopTurn(DraftStep, WireParse, before, data, at, rec.value, reader.pos);
      match rec.value
      case Record(1, PLen(text)) =>
        if !ValidUtf8(text) {
          return Err(InvalidName);
        }
        name := text;
      case Record(2, PLen(field)) =>
        var raw := ReadRawField(field);
        if raw.Err? {
          return Err(raw.error);
        }
        raws := raws + [raw.value];
      case Record(3, PLen(nested)) =>
        var n := ReadNested(nested);
        if n.Err? {
          return Err(n.error);
        }
        var entry := EntryOf(n.value);
        if entry.Some? {
          entries := entries[n.value.name := entry.value];
        }
      case Record(8, PLen(decl)) =>
        var oneof := ReadOneofName(decl);
        if oneof.Err? {
          return Err(oneof.error);
        }
        oneofs := oneofs + [oneof.value];
      case _ =>
    }
    LoopEnd(DraftStep, WireParse, Draft(name, raws, entries, oneofs), data);
    return Ok(Draft(name, raws, entries, oneofs));
  }

  /** `done` in front of what is still to come. */
  function Prefixed<T>(done: seq<T>, rest: Parsed<seq<T>>): Parsed<seq<T>> {
    match rest
    case Err(e) => Err(e)
    case Ok(more) => Ok(done + more)
  }

  lemma PrefixedByNothing<T>(rest: Parsed<seq<T>>)
    ensures Prefixed([], rest) == rest
  {
    if rest.Ok? {
      assert [] + rest.value == rest.value;
    }
  }

  lemma {:induction false} InterpretNext(raws: seq<RawField>, entries: map<Name, MapEntry>, message: Name,
      i: nat, done: seq<FieldDescriptor>)
    requires i < |raws|
    ensures Prefixed(done, InterpretAll(raws[i..], entries, message)) ==
      match Interpret(raws[i], entries, message)
      case Err(e) => Err(e)
      case Ok(f) => Prefixed(done + [f], InterpretAll(raws[i + 1..], entries, message))
  {
    hide Interpret;
    assert raws[i..][1..] == raws[i + 1..];
    var f, rest := Interpret(raws[i], entries, message), InterpretAll(raws[i + 1..], entries, message);
    if f.Ok? && rest.Ok? {
      Associative(done, [f.value], rest.value);
    }
  }

  /** Interprets the raw fields in order; the first one that cannot be is the error. */
  method InterpretFields(raws: seq<RawField>, entries: map<Name, MapEntry>, message: Name)
    returns (r: Parsed<seq<FieldDescriptor>>)
    ensures r == InterpretAll(raws, entries, message)
  {
    hide Interpret;
    var fields: seq<FieldDescriptor> := [];
    assert raws[0..] == raws;
    PrefixedByNothing(InterpretAll(raws, entries, message));
    for i := 0 to |raws|
      invariant Prefixed(fields, InterpretAll(raws[i..], entries, message)) == InterpretAll(raws, entries, message)
    {
      hide InterpretAll;
      InterpretNext(raws, entries, message, i, fields);
      var f := Interpret(raws[i], entries, message);
      if f.Err? {
        return Err(f.error);
      }
      fields := fields + [f.value];
    }
    assert raws[|raws|..] == [] && fields + [] == fields;
    return Ok(fields);
  }

  /** Drops every oneof index that points past the declared groups, in place. */
  method ClearStrays(interpreted: seq<FieldDescriptor>, groups: nat) returns (fields: seq<FieldDescriptor>)
    ensures fields == DropStrays(interpreted, groups)
  {
    fields := interpreted;
    for i := 0 to |fields|
      invariant |fields| == |interpreted|
      invariant forall j :: 0 <= j < i ==> fields[j] == DropStray(interpreted[j], groups)
      invariant forall j :: i <= j < |fields| ==> fields[j] == interpreted[j]
    {
      if fields[i].oneofIndex.Some? && fields[i].oneofIndex.value >= groups {
        fields := fields[i := fields[i].(oneofIndex := None)];
      }
    }
  }

  /** Parses a descriptor and compiles its field lookup: an unlinked class. */
  method Compile(data: Bytes) returns (r: Parsed<ClassInfo>)
    ensures r.Err? ==> ParseMessage(data) == Err(r.error)
    ensures r.Ok? ==> ParseMessage(data) == Ok(r.value.desc) && r.value.refs == None
    ensures r.Ok? ==> WellFormed(r.value.desc) && IndexOk(r.value)
  {
    var draft := ReadDraft(data);
    if draft.Err? {
      return Err(draft.error);
    }
    var d := draft.value;
    var interpreted := InterpretFields(d.raws, d.entries, d.name);
    if interpreted.Err? {
      return Err(interpreted.error);
    }
    var fields := ClearStrays(interpreted.value, |d.oneofs|);
    ParsedIsWellFormed(data);
    var index := Build(fields);
    return Ok(ClassInfo(MessageDescriptor(d.name, fields, d.oneofs), index, None));
  }
}
