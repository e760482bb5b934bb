/**
 From `DescriptorProto` bytes to a message descriptor: what each record of a descriptor,
 of one of its fields and of a nested map entry contributes, and how the collected parts
 are interpreted.  `Parser` holds the loops.
 */
module Parsing {
  import opened Basics
  import opened Wire
  import opened Records
  import opened Interleaving
  import opened Descriptors
  import opened Utf8

  datatype ParseError =
    | WireFault(error: WireError)
    | UnsupportedType(code: int)
    | MissingType
    | InvalidName

  type Parsed<T> = Result<T, ParseError>

  function WireParse(e: WireError): ParseError {
    WireFault(e)
  }

  /** `read_string` on bytes already read. */
  function TextOf(data: Bytes): Parsed<Name> {
    if ValidUtf8(data) then Ok(data) else Err(InvalidName)
  }

  // ------------------------------------------------------------------- names

  const DOT: byte := 46

  /** What follows the last dot. */
  function ShortName(full: Name): (r: Name)
    ensures DOT !in r
    ensures |r| <= |full|
  {
    if DOT !in full then full else ShortName(full[1..])
  }

  /** The dotted part right before the last one: the enclosing message of a nested type. */
  function Enclosing(full: Name): Option<Name> {
    if DOT !in full then None else Some(ShortName(full[..|full| - |ShortName(full)| - 1]))
  }

  /** The qualified name without its leading dot. */
  function FullName(full: Name): Name {
    if full != [] && full[0] == DOT then full[1..] else full
  }

  lemma {:induction false} ShortNameOf(prefix: Name, last: Name)
    requires DOT !in last
    ensures ShortName(prefix + [DOT] + last) == last
  {
    if prefix == [] {
      assert (prefix + [DOT] + last)[1..] == last;
    } else {
      var full := prefix + [DOT] + last;
      assert full[|prefix|] == DOT;
      assert full[1..] == prefix[1..] + [DOT] + last;
      ShortNameOf(prefix[1..], last);
    }
  }

  /** A type nested in a message is told apart by exactly these two parts of its name. */
  lemma {:induction false} NestedName(scope: Name, message: Name, entry: Name)
    requires DOT !in message && DOT !in entry
    ensures var full := scope + [DOT] + message + [DOT] + entry;
            ShortName(full) == entry && Enclosing(full) == Some(message)
  {
    var outer := scope + [DOT] + message;
    var full := outer + [DOT] + entry;
    ShortNameOf(outer, entry);
    ShortNameOf(scope, message);
    assert full[..|full| - |entry| - 1] == outer;
    assert full[|outer|] == DOT;
  }

  // --------------------------------------------------------------- raw fields

  const TYPE_GROUP := 10
  const TYPE_MESSAGE := 11
  const TYPE_ENUM := 14
  const LABEL_REPEATED := 3

  /** `.google.protobuf.Timestamp` */
  const TIMESTAMP_NAME: Name := [46, 103, 111, 111, 103, 108, 101, 46, 112, 114, 111, 116, 111, 98, 117, 102,
                                 46, 84, 105, 109, 101, 115, 116, 97, 109, 112]

  /** `.google.protobuf.Duration` */
  const DURATION_NAME: Name := [46, 103, 111, 111, 103, 108, 101, 46, 112, 114, 111, 116, 111, 98, 117, 102,
                                46, 68, 117, 114, 97, 116, 105, 111, 110]

  function ScalarFrom(code: int): Option<ScalarType> {
    if code == 1 then Some(Double)
    else if code == 2 then Some(Float)
    else if code == 3 then Some(Int64)
    else if code == 4 then Some(UInt64)
    else if code == 5 then Some(Int32)
    else if code == 6 then Some(Fixed64)
    else if code == 7 then Some(Fixed32)
    else if code == 8 then Some(Bool)
    else if code == 9 then Some(String)
    else if code == 12 then Some(ScalarType.Bytes)
    else if code == 13 then Some(UInt32)
    else if code == 15 then Some(SFixed32)
    else if code == 16 then Some(SFixed64)
    else if code == 17 then Some(SInt32)
    else if code == 18 then Some(SInt64)
    else None
  }

  /** The parts of a `FieldDescriptorProto` that matter, before interpretation. */
  datatype RawField = RawField(
    name: Name,
    number: nat,
    cardinality: int,
    typeCode: Option<int>,
    typeName: Option<Name>,
    oneofIndex: Option<nat>,
    proto3Optional: bool)

  const NO_FIELD := RawField([], 0, 0, None, None, None, false)

  function RawFieldStep(raw: RawField, rec: Record): Parsed<RawField> {
    match rec
    case Record(1, PLen(data)) => var s :- TextOf(data); Ok(raw.(name := s))
    case Record(3, PVarint(v)) => Ok(raw.(number := AsU32(v)))
    case Record(4, PVarint(v)) => Ok(raw.(cardinality := AsI64(v)))
    case Record(5, PVarint(v)) => Ok(raw.(typeCode := Some(AsI64(v))))
    case Record(6, PLen(data)) => var s :- TextOf(data); Ok(raw.(typeName := Some(s)))
    case Record(9, PVarint(v)) => Ok(raw.(oneofIndex := Some(AsU32(v))))
    case Record(17, PVarint(v)) => Ok(raw.(proto3Optional := v != 0))
    case _ => Ok(raw)
  }

  function ParseRawField(data: Bytes): Parsed<RawField> {
    Loop(RawFieldStep, WireParse, NO_FIELD, data)
  }

  // -------------------------------------------------------------- map entries

  datatype MapEntry = MapEntry(key: ScalarType, value: ValueKind, valueTypeName: Option<Name>)

  function OptionStep(flag: bool, rec: Record): Parsed<bool> {
    match rec
    case Record(7, PVarint(v)) => Ok(v != 0)
    case _ => Ok(flag)
  }

  /** `MessageOptions.map_entry`, on top of what earlier options said. */
  function ParseOptions(flag: bool, data: Bytes): Parsed<bool> {
    Loop(OptionStep, WireParse, flag, data)
  }

  /** The value kind a type stands for, and the class it has to be linked to. */
  function KindOf(code: int, typeName: Option<Name>): Parsed<(ValueKind, Option<Name>)> {
    var linked := if typeName.Some? then Some(FullName(typeName.value)) else None;
    if code == TYPE_ENUM then Ok((Enum, linked))
    else if code == TYPE_MESSAGE then
      if typeName == Some(TIMESTAMP_NAME) then Ok((Timestamp, None))
      else if typeName == Some(DURATION_NAME) then Ok((Duration, None))
      else Ok((Message, linked))
    else
      match ScalarFrom(code)
      case None => Err(UnsupportedType(AsI32(code)))
      case Some(s) => Ok((Scalar(s), linked))
  }

  /** A nested `DescriptorProto` as far as it was read. */
  datatype Nested = Nested(
    name: Name,
    isMapEntry: bool,
    key: Option<ScalarType>,
    value: Option<(ValueKind, Option<Name>)>)

  const NO_ENTRY := Nested([], false, None, None)

  function NestedStep(n: Nested, rec: Record): Parsed<Nested> {
    match rec
    case Record(1, PLen(data)) => var s :- TextOf(data); Ok(n.(name := s))
    case Record(2, PLen(data)) =>
      var raw :- ParseRawField(data);
      NestedField(n, raw)
    case Record(7, PLen(data)) => var flag :- ParseOptions(n.isMapEntry, data); Ok(n.(isMapEntry := flag))
    case _ => Ok(n)
  }

  /** A field of a nested type: number 1 would be a map's key, number 2 its value. */
  function NestedField(n: Nested, raw: RawField): Parsed<Nested> {
    if raw.typeCode.None? then Err(MissingType)
    else if raw.number == 1 then Ok(n.(key := ScalarFrom(raw.typeCode.value)))
    else if raw.number == 2 then
      var value :- KindOf(raw.typeCode.value, raw.typeName);
      Ok(n.(value := Some(value)))
    else Ok(n)
  }

  /** The entry a nested type declares, if it is one; missing halves are strings. */
  function EntryOf(n: Nested): Option<MapEntry> {
    if !n.isMapEntry then None
    else
      var value := if n.value.Some? then n.value.value else (Scalar(String), None);
      Some(MapEntry(if n.key.Some? then n.key.value else String, value.0, value.1))
  }

  function ParseNested(data: Bytes): Parsed<Nested> {
    Loop(NestedStep, WireParse, NO_ENTRY, data)
  }

  // ----------------------------------------------------------------- messages

  function OneofNameStep(name: Name, rec: Record): Parsed<Name> {
    match rec
    case Record(1, PLen(data)) => TextOf(data)
    case _ => Ok(name)
  }

  function ParseOneofName(data: Bytes): Parsed<Name> {
    Loop(OneofNameStep, WireParse, [], data)
  }

  /** A `DescriptorProto` as far as it was read. */
  datatype Draft = Draft(name: Name, raws: seq<RawField>, entries: map<Name, MapEntry>, oneofs: seq<Name>)

  const NO_MESSAGE := Draft([], [], map[], [])

  function DraftStep(d: Draft, rec: Record): Parsed<Draft> {
    match rec
    case Record(1, PLen(data)) => var s :- TextOf(data); Ok(d.(name := s))
    case Record(2, PLen(data)) => var raw :- ParseRawField(data); Ok(d.(raws := d.raws + [raw]))
    case Record(3, PLen(data)) =>
      var n :- ParseNested(data);
      Ok(if EntryOf(n).Some? then d.(entries := d.entries[n.name := EntryOf(n).value]) else d)
    case Record(8, PLen(data)) => var name :- ParseOneofName(data); Ok(d.(oneofs := d.oneofs + [name]))
    case _ => Ok(d)
  }

  /** The map entry a repeated message field refers to: one nested in this very message. */
  function EntryFor(raw: RawField, entries: map<Name, MapEntry>, message: Name): Option<MapEntry> {
    if raw.cardinality == LABEL_REPEATED && raw.typeCode == Some(TYPE_MESSAGE) && raw.typeName.Some?
       && Enclosing(raw.typeName.value) == Some(message) && ShortName(raw.typeName.value) in entries
    then Some(entries[ShortName(raw.typeName.value)])
    else None
  }

  function Interpret(raw: RawField, entries: map<Name, MapEntry>, message: Name): Parsed<FieldDescriptor> {
    if raw.typeCode.None? then Err(MissingType)
    else
      match EntryFor(raw, entries, message)
      case Some(entry) =>
        Ok(FieldDescriptor(raw.number, raw.name, Map(entry.key, entry.value), Single, entry.valueTypeName, None))
      case None =>
        if raw.typeCode.value == TYPE_GROUP then Err(UnsupportedType(TYPE_GROUP))
        else
          var found :- KindOf(raw.typeCode.value, raw.typeName);
          var (kind, linked) := found;
          var group := if raw.proto3Optional then None else raw.oneofIndex;
          var cardinality :=
            if raw.cardinality == LABEL_REPEATED then Repeated
            else if raw.proto3Optional || kind.Message? || kind.Timestamp? || kind.Duration? || group.Some?
            then Optional
            else Single;
          var typeName := if kind.Scalar? then None else linked;
          Ok(FieldDescriptor(raw.number, raw.name, Plain(kind), cardinality, typeName, group))
  }

  function InterpretAll(raws: seq<RawField>, entries: map<Name, MapEntry>, message: Name)
    : (r: Parsed<seq<FieldDescriptor>>)
    ensures r.Ok? ==> |r.value| == |raws|
  {
    if raws == [] then Ok([])
    else
      var f :- Interpret(raws[0], entries, message);
      var rest :- InterpretAll(raws[1..], entries, message);
      Ok([f] + rest)
  }

  /** A oneof index that points past the declared groups is dropped. */
  function DropStray(f: FieldDescriptor, groups: nat): FieldDescriptor {
    if f.oneofIndex.Some? && f.oneofIndex.value >= groups then f.(oneofIndex := None) else f
  }

  function DropStrays(fields: seq<FieldDescriptor>, groups: nat): (r: seq<FieldDescriptor>)
    ensures |r| == |fields|
    ensures forall i :: 0 <= i < |r| ==> r[i] == DropStray(fields[i], groups)
  {
    seq(|fields|, i requires 0 <= i < |fields| => DropStray(fields[i], groups))
  }

  function Complete(d: Draft): Parsed<MessageDescriptor> {
    var fields :- InterpretAll(d.raws, d.entries, d.name);
    Ok(MessageDescriptor(d.name, DropStrays(fields, |d.oneofs|), d.oneofs))
  }

  function ParseMessage(data: Bytes): Parsed<MessageDescriptor> {
    var d :- Loop(DraftStep, WireParse, NO_MESSAGE, data);
    Complete(d)
  }

  /** Under the `proto3_optional` flag the oneof index, that of a synthetic oneof, means nothing. */
  lemma {:induction false} SyntheticIndexIgnored(raw: RawField, index: Option<nat>, entries: map<Name, MapEntry>,
      message: Name)
    requires raw.proto3Optional
    ensures Interpret(raw.(oneofIndex := index), entries, message) == Interpret(raw, entries, message)
    ensures Interpret(raw, entries, message).Ok? ==> Interpret(raw, entries, message).value.oneofIndex == None
  {
    hide KindOf;
  }

  // ------------------------------------------------- what a parse guarantees

  lemma {:induction false} FoldRawNumbers(raw: RawField, raws: seq<Raw>)
    requires IsU32(raw.number)
    ensures Fold(RawFieldStep, raw, raws).Ok? ==> IsU32(Fold(RawFieldStep, raw, raws).value.number)
    decreases |raws|
  {
    if raws != [] && RawFieldStep(raw, raws[0].rec).Ok? {
      FoldRawNumbers(RawFieldStep(raw, raws[0].rec).value, raws[1..]);
    }
  }

  predicate AllU32(raws: seq<RawField>) {
    forall i :: 0 <= i < |raws| ==> IsU32(raws[i].number)
  }

  lemma {:induction false} DraftStepNumbers(d: Draft, rec: Record)
    requires AllU32(d.raws)
    ensures DraftStep(d, rec).Ok? ==> AllU32(DraftStep(d, rec).value.raws)
  {
    hide ParseNested, ParseOneofName, TextOf;
    if rec.number == 2 && rec.payload.PLen? {
      FoldRawNumbers(NO_FIELD, ScanAll(rec.payload.data).raws);
    }
  }

  lemma {:induction false} FoldDraftNumbers(d: Draft, raws: seq<Raw>)
    requires AllU32(d.raws)
    ensures Fold(DraftStep, d, raws).Ok? ==> AllU32(Fold(DraftStep, d, raws).value.raws)
    decreases |raws|
  {
    if raws != [] {
      DraftStepNumbers(d, raws[0].rec);
      hide DraftStep, AllU32;
      if DraftStep(d, raws[0].rec).Ok? {
        FoldDraftNumbers(DraftStep(d, raws[0].rec).value, raws[1..]);
      }
    }
  }

  lemma {:induction false} InterpretedIsWellFormed(raw: RawField, entries: map<Name, MapEntry>,
      message: Name, groups: nat)
    requires IsU32(raw.number)
    ensures Interpret(raw, entries, message).Ok? ==>
      var f := Interpret(raw, entries, message).value;
      f.number == raw.number && f.name == raw.name && WellFormedField(DropStray(f, groups), groups)
  {
    hide EntryFor, FullName;
  }

  lemma {:induction false} InterpretedAt(raws: seq<RawField>, entries: map<Name, MapEntry>, message: Name, i: nat)
    requires InterpretAll(raws, entries, message).Ok? && i < |raws|
    ensures Interpret(raws[i], entries, message) == Ok(InterpretAll(raws, entries, message).value[i])
  {
    hide Interpret;
    if i > 0 {
      InterpretedAt(raws[1..], entries, message, i - 1);
    }
  }

  /** Every descriptor that parses is well formed: oneof indices are in range, maps are
      single and in no oneof, and only scalars and enums can be single otherwise. */
  lemma {:induction false} ParsedIsWellFormed(data: Bytes)
    ensures ParseMessage(data).Ok? ==> WellFormed(ParseMessage(data).value)
  {
    if ParseMessage(data).Ok? {
      var d := Loop(DraftStep, WireParse, NO_MESSAGE, data).value;
      FoldDraftNumbers(NO_MESSAGE, ScanAll(data).raws);
      var fields := InterpretAll(d.raws, d.entries, d.name).value;
      forall i | 0 <= i < |fields|
        ensures WellFormedField(DropStray(fields[i], |d.oneofs|), |d.oneofs|)
      {
        InterpretedAt(d.raws, d.entries, d.name, i);
        InterpretedIsWellFormed(d.raws[i], d.entries, d.name, |d.oneofs|);
      }
    }
  }

  /** The records of one number with a length-delimited payload. */
  function Blobs(raws: seq<Raw>, number: nat): seq<Bytes> {
    if raws == [] then []
    else if raws[0].rec.number == number && raws[0].rec.payload.PLen? then
      [raws[0].rec.payload.data] + Blobs(raws[1..], number)
    else Blobs(raws[1..], number)
  }

  /** The draft holds one raw field per field record and one group per oneof record. */
  predicate Collected(d: Draft, start: Draft, fields: seq<Bytes>, oneofs: seq<Bytes>) {
    && |d.raws| == |start.raws| + |fields| && |d.oneofs| == |start.oneofs| + |oneofs|
    && (forall i :: 0 <= i < |start.raws| ==> d.raws[i] == start.raws[i])
    && (forall i :: 0 <= i < |fields| ==> Ok(d.raws[|start.raws| + i]) == ParseRawField(fields[i]))
    && (forall i :: 0 <= i < |start.oneofs| ==> d.oneofs[i] == start.oneofs[i])
    && (forall i :: 0 <= i < |oneofs| ==> Ok(d.oneofs[|start.oneofs| + i]) == ParseOneofName(oneofs[i]))
  }

  lemma {:induction false} FoldCollects(start: Draft, raws: seq<Raw>)
    ensures Fold(DraftStep, start, raws).Ok? ==>
      Collected(Fold(DraftStep, start, raws).value, start, Blobs(raws, 2), Blobs(raws, 8))
    decreases |raws|
  {
    if raws != [] {
      var next := DraftStep(start, raws[0].rec);
      if next.Ok? {
        FoldCollects(next.value, raws[1..]);
        StepCollects(start, raws[0]);
        BlobsHead(raws, 2);
        BlobsHead(raws, 8);
        hide DraftStep, Blobs, Collected;
        var end := Fold(DraftStep, next.value, raws[1..]);
        if end.Ok? {
          CollectedTwice(start, next.value, end.value,
                         Blobs([raws[0]], 2), Blobs([raws[0]], 8), Blobs(raws[1..], 2), Blobs(raws[1..], 8));
        }
      }
    }
  }

  lemma {:induction false} BlobsHead(raws: seq<Raw>, number: nat)
    requires raws != []
    ensures Blobs(raws, number) == Blobs([raws[0]], number) + Blobs(raws[1..], number)
  {
    assert [raws[0]][1..] == [];
  }

  lemma {:induction false} StepCollects(start: Draft, raw: Raw)
    ensures DraftStep(start, raw.rec).Ok? ==>
      Collected(DraftStep(start, raw.rec).value, start, Blobs([raw], 2), Blobs([raw], 8))
  {
    hide ParseRawField, ParseOneofName, ParseNested, TextOf, EntryOf;
    assert [raw][1..] == [];
  }

  lemma {:induction false} CollectedTwice(start: Draft, mid: Draft, end: Draft, f1: seq<Bytes>,
      o1: seq<Bytes>, f2: seq<Bytes>, o2: seq<Bytes>)
    requires Collected(mid, start, f1, o1) && Collected(end, mid, f2, o2)
    ensures Collected(end, start, f1 + f2, o1 + o2)
  {
    hide ParseRawField, ParseOneofName;
    forall i | 0 <= i < |f1 + f2|
      ensures Ok(end.raws[|start.raws| + i]) == ParseRawField((f1 + f2)[i])
    {
      if i >= |f1| {
        assert Ok(end.raws[|mid.raws| + (i - |f1|)]) == ParseRawField(f2[i - |f1|]);
      }
    }
    forall i | 0 <= i < |o1 + o2|
      ensures Ok(end.oneofs[|start.oneofs| + i]) == ParseOneofName((o1 + o2)[i])
    {
      if i >= |o1| {
        assert Ok(end.oneofs[|mid.oneofs| + (i - |o1|)]) == ParseOneofName(o2[i - |o1|]);
      }
    }
  }

  /** Fields and oneof groups come out in declaration order, one per declaring record. */
  lemma {:induction false} ParsedDeclarations(data: Bytes)
    ensures ParseMessage(data).Ok? ==>
      var d, fields, oneofs := ParseMessage(data).value, Blobs(ScanAll(data).raws, 2), Blobs(ScanAll(data).raws, 8);
      && |d.fields| == |fields| && |d.oneofs| == |oneofs|
      && (forall i :: 0 <= i < |fields| ==>
            var raw := ParseRawField(fields[i]);
            raw.Ok? && d.fields[i].number == raw.value.number && d.fields[i].name == raw.value.name)
      && (forall i :: 0 <= i < |oneofs| ==> ParseOneofName(oneofs[i]) == Ok(d.oneofs[i]))
  {
    if ParseMessage(data).Ok? {
      var raws := ScanAll(data).raws;
      FoldCollects(NO_MESSAGE, raws);
      FoldDraftNumbers(NO_MESSAGE, raws);
      var d := Fold(DraftStep, NO_MESSAGE, raws).value;
      forall i | 0 <= i < |d.raws|
        ensures var f := InterpretAll(d.raws, d.entries, d.name).value[i];
                f.number == d.raws[i].number && f.name == d.raws[i].name
      {
        InterpretedAt(d.raws, d.entries, d.name, i);
        InterpretedIsWellFormed(d.raws[i], d.entries, d.name, |d.oneofs|);
      }
      hide ParseRawField, ParseOneofName, DraftStep, InterpretAll;
    }
  }

  // ---------------------------------------------- records in any interleaving

  ghost predicate SameRecord(a: Record, b: Record) {
    a == b
  }

  /** Equal, or the payloads are shuffles of each other. */
  ghost predicate SameBlob(same: (Record, Record) -> bool, a: Record, b: Record) {
    a.payload.PLen? && b.payload.PLen? && Shuffled(same, a.payload.data, b.payload.data)
  }

  /** Records of a nested type: fields and options may be shuffled inside. */
  ghost predicate SameInNested(a: Record, b: Record) {
    a.number == b.number && (a == b || ((a.number == 2 || a.number == 7) && SameBlob(SameRecord, a, b)))
  }

  /** Records of a message: its fields, oneofs and nested types may be shuffled inside. */
  ghost predicate SameInMessage(a: Record, b: Record) {
    && a.number == b.number
    && (|| a == b
        || ((a.number == 2 || a.number == 8) && SameBlob(SameRecord, a, b))
        || (a.number == 3 && SameBlob(SameInNested, a, b)))
  }

  /** Equal records have equal effects. */
  lemma {:induction false} EqualRecords<S(!new), E(!new)>(step: (S, Record) -> Result<S, E>)
    ensures Respects(step, SameRecord)
  {
    var same: (Record, Record) -> bool := SameRecord;
    assert forall a: Record, b: Record :: same(a, b) ==> a == b;
  }

  lemma {:induction false} RawFieldCommutes(st: RawField, a: Record, b: Record)
    requires a.number != b.number
    ensures Agree(Then(RawFieldStep, st, a, b), Then(RawFieldStep, st, b, a))
  {
    hide TextOf;
  }

  lemma {:induction false} NestedCommutes(st: Nested, a: Record, b: Record)
    requires a.number != b.number
    ensures Agree(Then(NestedStep, st, a, b), Then(NestedStep, st, b, a))
  {
    hide TextOf, ParseRawField, ParseOptions, KindOf, ScalarFrom;
  }

  lemma {:induction false} DraftCommutes(st: Draft, a: Record, b: Record)
    requires a.number != b.number
    ensures Agree(Then(DraftStep, st, a, b), Then(DraftStep, st, b, a))
  {
    hide TextOf, ParseRawField, ParseNested, ParseOneofName, EntryOf;
  }

  lemma {:induction false} OptionCommutes(st: bool, a: Record, b: Record)
    requires a.number != b.number
    ensures Agree(Then(OptionStep, st, a, b), Then(OptionStep, st, b, a))
  {
  }

  lemma {:induction false} OneofNameCommutes(st: Name, a: Record, b: Record)
    requires a.number != b.number
    ensures Agree(Then(OneofNameStep, st, a, b), Then(OneofNameStep, st, b, a))
  {
    hide TextOf;
  }

  lemma {:induction false} AllCommute()
    ensures Commuting(RawFieldStep) && Commuting(OptionStep) && Commuting(OneofNameStep)
    ensures Commuting(NestedStep) && Commuting(DraftStep)
  {
    hide RawFieldStep, NestedStep, DraftStep, TextOf, Then;
    forall st: RawField, a: Record, b: Record | a.number != b.number
      ensures Agree(Then(RawFieldStep, st, a, b), Then(RawFieldStep, st, b, a))
    {
      RawFieldCommutes(st, a, b);
    }
    forall st: Nested, a: Record, b: Record | a.number != b.number
      ensures Agree(Then(NestedStep, st, a, b), Then(NestedStep, st, b, a))
    {
      NestedCommutes(st, a, b);
    }
    forall st: Draft, a: Record, b: Record | a.number != b.number
      ensures Agree(Then(DraftStep, st, a, b), Then(DraftStep, st, b, a))
    {
      DraftCommutes(st, a, b);
    }
    forall st: bool, a: Record, b: Record | a.number != b.number
      ensures Agree(Then(OptionStep, st, a, b), Then(OptionStep, st, b, a))
    {
      OptionCommutes(st, a, b);
    }
    forall st: Name, a: Record, b: Record | a.number != b.number
      ensures Agree(Then(OneofNameStep, st, a, b), Then(OneofNameStep, st, b, a))
    {
      OneofNameCommutes(st, a, b);
    }
  }

  /** Shuffling the inside of a field, an option block or a oneof changes nothing. */
  lemma {:induction false} LeavesAgree(a: Bytes, b: Bytes, flag: bool)
    requires Shuffled(SameRecord, a, b)
    ensures Agree(ParseRawField(a), ParseRawField(b)) && Agree(ParseOptions(flag, a), ParseOptions(flag, b))
    ensures Agree(ParseOneofName(a), ParseOneofName(b))
  {
    hide Shuffled, Commuting, Respects, Loop;
    AllCommute();
    EqualRecords(RawFieldStep);
    EqualRecords(OptionStep);
    EqualRecords(OneofNameStep);
    LoopIgnoresInterleaving(RawFieldStep, WireParse, SameRecord, NO_FIELD, a, b);
    LoopIgnoresInterleaving(OptionStep, WireParse, SameRecord, flag, a, b);
    LoopIgnoresInterleaving(OneofNameStep, WireParse, SameRecord, [], a, b);
  }

  lemma {:induction false} NestedRespects(n: Nested, a: Record, b: Record)
    requires SameInNested(a, b)
    ensures Agree(NestedStep(n, a), NestedStep(n, b))
  {
    if a != b {
      LeavesAgree(a.payload.data, b.payload.data, n.isMapEntry);
    }
    hide ParseRawField, ParseOptions, TextOf, KindOf, ScalarFrom, Shuffled;
  }

  lemma {:induction false} NestedAgree(a: Bytes, b: Bytes)
    requires Shuffled(SameInNested, a, b)
    ensures Agree(ParseNested(a), ParseNested(b))
  {
    hide Shuffled, Commuting, Loop, NestedStep;
    AllCommute();
    var step: (Nested, Record) -> Parsed<Nested>, same: (Record, Record) -> bool := NestedStep, SameInNested;
    forall n: Nested, x: Record, y: Record | same(x, y)
      ensures x.number == y.number && Agree(step(n, x), step(n, y))
    {
      NestedRespects(n, x, y);
    }
    assert Respects(step, same);
    LoopIgnoresInterleaving(step, WireParse, same, NO_ENTRY, a, b);
  }

  lemma {:induction false} DraftRespects(d: Draft, a: Record, b: Record)
    requires SameInMessage(a, b)
    ensures Agree(DraftStep(d, a), DraftStep(d, b))
  {
    if a != b && a.number == 3 {
      NestedAgree(a.payload.data, b.payload.data);
    } else if a != b {
      LeavesAgree(a.payload.data, b.payload.data, false);
    }
    hide ParseRawField, ParseNested, ParseOneofName, TextOf, EntryOf, Shuffled;
  }

  /** However the records of a descriptor, of its fields, of its nested types and of their
      fields and options are interleaved, parsing gives the same descriptor: map entries may
      stand before or after the fields that use them, options before or after the entry's fields. */
  lemma {:induction false} ParseIgnoresInterleaving(a: Bytes, b: Bytes)
    requires Shuffled(SameInMessage, a, b)
    ensures Agree(ParseMessage(a), ParseMessage(b))
  {
    hide Shuffled, Commuting, Loop, DraftStep, Complete;
    AllCommute();
    var step: (Draft, Record) -> Parsed<Draft>, same: (Record, Record) -> bool := DraftStep, SameInMessage;
    forall d: Draft, x: Record, y: Record | same(x, y)
      ensures x.number == y.number && Agree(step(d, x), step(d, y))
    {
      DraftRespects(d, x, y);
    }
    assert Respects(step, same);
    LoopIgnoresInterleaving(step, WireParse, same, NO_MESSAGE, a, b);
  }
}
