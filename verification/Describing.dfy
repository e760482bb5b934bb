/**
 Writing descriptors: the `DescriptorProto` bytes that stand for a message descriptor, and
 the proof that the parser reads every one of them back.
 */
module Describing {
  import opened Basics
  import opened Wire
  import opened Records
  import opened Descriptors
  import opened Utf8
  import opened Parsing
  import opened Interpreting
  import RoundTrip
  import Typing

  // ------------------------------------------------------ runs of written records

  /** A record loop over these records, freshly written, ends in `end`. */
  predicate Runs<S(==), E>(step: (S, Record) -> Result<S, E>, st: S, recs: seq<Record>, end: S) {
    var r := Fold(step, st, Written(recs)); r.Ok? && r.value == end
  }

  lemma {:induction false} RunsNothing<S, E>(step: (S, Record) -> Result<S, E>, st: S)
    ensures Runs(step, st, [], st)
  {
  }

  lemma {:induction false} RunsOne<S, E>(step: (S, Record) -> Result<S, E>, st: S, rec: Record, end: S)
    requires step(st, rec).Ok? && step(st, rec).value == end
    ensures Runs(step, st, [rec], end)
  {
    var w := Written([rec]);
    assert w[0].rec == rec && w[1..] == [];
    assert Fold(step, end, w[1..]) == Ok(end);
  }

  lemma {:induction false} RunsThen<S, E>(step: (S, Record) -> Result<S, E>, st: S, a: seq<Record>, mid: S,
      b: seq<Record>, end: S)
    requires Runs(step, st, a, mid) && Runs(step, mid, b, end)
    ensures Runs(step, st, a + b, end)
  {
    hide Written;
    WrittenAppend(a, b);
    FoldAppend(step, st, Written(a), Written(b));
  }

  /** What the loop makes of the written bytes. */
  lemma {:induction false} LoopOfWritten<S, E>(step: (S, Record) -> Result<S, E>, wrap: WireError -> E, st: S,
      recs: seq<Record>, end: S)
    requires AllRecordsValid(recs) && Runs(step, st, recs, end)
    ensures Loop(step, wrap, st, WriteAll(recs)).Ok? && Loop(step, wrap, st, WriteAll(recs)).value == end
  {
    ScanOfWritten(recs, []);
    assert WriteAll(recs) + [] == WriteAll(recs);
    assert Written(recs) + [] == Written(recs);
  }

  // ------------------------------------------------------------------- fields

  predicate ValidName(s: Name) {
    ValidUtf8(s) && IsU64(|s|)
  }

  predicate ValidRaw(raw: RawField) {
    && ValidName(raw.name) && IsU32(raw.number) && IsI64(raw.cardinality)
    && (raw.typeCode.Some? ==> IsI64(raw.typeCode.value))
    && (raw.typeName.Some? ==> ValidName(raw.typeName.value))
    && (raw.oneofIndex.Some? ==> IsU32(raw.oneofIndex.value))
  }

  /** The records of a `FieldDescriptorProto`. */
  function FieldRecords(raw: RawField): seq<Record> {
    [Record(1, PLen(raw.name)), Record(3, PVarint(raw.number)), Record(4, PVarint(AsU64(raw.cardinality)))]
    + (if raw.typeCode.Some? then [Record(5, PVarint(AsU64(raw.typeCode.value)))] else [])
    + (if raw.typeName.Some? then [Record(6, PLen(raw.typeName.value))] else [])
    + (if raw.oneofIndex.Some? then [Record(9, PVarint(raw.oneofIndex.value))] else [])
    + (if raw.proto3Optional then [Record(17, PVarint(1))] else [])
  }

  lemma {:induction false} RawFieldRoundTrip(raw: RawField)
    requires ValidRaw(raw)
    ensures ParseRawField(WriteAll(FieldRecords(raw))) == Ok(raw)
  {
    hide Written, ValidUtf8, Runs, WriteAll, Loop;
    SignExtensionRoundTrip(raw.cardinality);
    var step: (RawField, Record) -> Parsed<RawField> := RawFieldStep;
    var s1 := NO_FIELD.(name := raw.name);
    var s2 := s1.(number := raw.number);
    var s3 := s2.(cardinality := raw.cardinality);
    RunsOne(step, NO_FIELD, Record(1, PLen(raw.name)), s1);
    RunsOne(step, s1, Record(3, PVarint(raw.number)), s2);
    RunsOne(step, s2, Record(4, PVarint(AsU64(raw.cardinality))), s3);
    RunsThen(step, NO_FIELD, [Record(1, PLen(raw.name))], s1, [Record(3, PVarint(raw.number))], s2);
    var base := [Record(1, PLen(raw.name)), Record(3, PVarint(raw.number)), Record(4, PVarint(AsU64(raw.cardinality)))];
    RunsThen(step, NO_FIELD, [Record(1, PLen(raw.name))] + [Record(3, PVarint(raw.number))], s2,
             [Record(4, PVarint(AsU64(raw.cardinality)))], s3);
    assert base == [Record(1, PLen(raw.name))] + [Record(3, PVarint(raw.number))]
                 + [Record(4, PVarint(AsU64(raw.cardinality)))];
    OptionalPart(step, base, s3, raw);
    LoopOfWritten(step, WireParse, NO_FIELD, FieldRecords(raw), raw);
  }

  lemma {:induction false} OptionalPart(
      step: (RawField, Record) -> Parsed<RawField>, base: seq<Record>, st: RawField, raw: RawField)
    requires ValidRaw(raw) && step == RawFieldStep && Runs(step, NO_FIELD, base, st)
    requires st == RawField(raw.name, raw.number, raw.cardinality, None, None, None, false)
    ensures var code := if raw.typeCode.Some? then [Record(5, PVarint(AsU64(raw.typeCode.value)))] else [];
            var typeName := if raw.typeName.Some? then [Record(6, PLen(raw.typeName.value))] else [];
            var oneof := if raw.oneofIndex.Some? then [Record(9, PVarint(raw.oneofIndex.value))] else [];
            var flag := if raw.proto3Optional then [Record(17, PVarint(1))] else [];
            Runs(step, NO_FIELD, base + code + typeName + oneof + flag, raw)
  {
    hide Written, ValidUtf8, Runs;
    var code := if raw.typeCode.Some? then [Record(5, PVarint(AsU64(raw.typeCode.value)))] else [];
    var typeName := if raw.typeName.Some? then [Record(6, PLen(raw.typeName.value))] else [];
    var oneof := if raw.oneofIndex.Some? then [Record(9, PVarint(raw.oneofIndex.value))] else [];
    var flag := if raw.proto3Optional then [Record(17, PVarint(1))] else [];
    var s1 := st.(typeCode := raw.typeCode);
    var s2 := s1.(typeName := raw.typeName);
    var s3 := s2.(oneofIndex := raw.oneofIndex);
    if raw.typeCode.Some? {
      SignExtensionRoundTrip(raw.typeCode.value);
      RunsOne(step, st, code[0], s1);
    } else {
      RunsNothing(step, st);
    }
    RunsThen(step, NO_FIELD, base, st, code, s1);
    if raw.typeName.Some? {
      RunsOne(step, s1, typeName[0], s2);
    } else {
      RunsNothing(step, s1);
    }
    RunsThen(step, NO_FIELD, base + code, s1, typeName, s2);
    if raw.oneofIndex.Some? {
      RunsOne(step, s2, oneof[0], s3);
    } else {
      RunsNothing(step, s2);
    }
    RunsThen(step, NO_FIELD, base + code + typeName, s2, oneof, s3);
    if raw.proto3Optional {
      RunsOne(step, s3, flag[0], raw);
    } else {
      RunsNothing(step, s3);
    }
    RunsThen(step, NO_FIELD, base + code + typeName + oneof, s3, flag, raw);
  }

  // -------------------------------------------------------------- nested types

  /** The `MessageOptions` that mark a map entry. */
  function EntryOptions(): Bytes {
    WriteAll([Record(7, PVarint(1))])
  }

  lemma {:induction false} EntryOptionsParse(flag: bool)
    ensures ParseOptions(flag, EntryOptions()) == Ok(true) && IsU64(|EntryOptions()|)
  {
    var step: (bool, Record) -> Parsed<bool> := OptionStep;
    RunsOne(step, flag, Record(7, PVarint(1)), true);
    LoopOfWritten(step, WireParse, flag, [Record(7, PVarint(1))], true);
    assert WriteTag(7, Varint) == [56] && WriteVarint(1) == [1];
    assert Record(7, PVarint(1)).Bytes() == [56, 1];
  }

  /** A map entry type: its short name and the fields it declares for key and value. */
  datatype EntryDecl = EntryDecl(name: Name, key: RawField, value: RawField)

  predicate ValidEntry(e: EntryDecl) {
    && ValidName(e.name) && ValidRaw(e.key) && ValidRaw(e.value)
    && e.key.number == 1 && e.key.typeCode.Some? && ScalarFrom(e.key.typeCode.value).Some?
    && e.value.number == 2 && e.value.typeCode.Some? && KindOf(e.value.typeCode.value, e.value.typeName).Ok?
    && IsU64(|WriteAll(FieldRecords(e.key))|) && IsU64(|WriteAll(FieldRecords(e.value))|)
  }

  function EntryRecords(e: EntryDecl): seq<Record> {
    [Record(1, PLen(e.name)),
     Record(2, PLen(WriteAll(FieldRecords(e.key)))),
     Record(2, PLen(WriteAll(FieldRecords(e.value)))),
     Record(7, PLen(EntryOptions()))]
  }

  function DeclaredEntry(e: EntryDecl): MapEntry
    requires ValidEntry(e)
  {
    var value := KindOf(e.value.typeCode.value, e.value.typeName).value;
    MapEntry(ScalarFrom(e.key.typeCode.value).value, value.0, value.1)
  }

  lemma {:induction false} EntryRoundTrip(e: EntryDecl)
    requires ValidEntry(e)
    ensures var n := ParseNested(WriteAll(EntryRecords(e)));
            n.Ok? && n.value.name == e.name && EntryOf(n.value) == Some(DeclaredEntry(e))
  {
    hide Written, ValidUtf8, Runs, WriteAll, Loop;
    hide FieldRecords, ParseRawField, ParseOptions, KindOf, ScalarFrom, EntryOptions;
    RawFieldRoundTrip(e.key);
    RawFieldRoundTrip(e.value);
    EntryOptionsParse(false);
    var step: (Nested, Record) -> Parsed<Nested> := NestedStep;
    var r := EntryRecords(e);
    var s1 := NO_ENTRY.(name := e.name);
    var s2 := s1.(key := ScalarFrom(e.key.typeCode.value));
    var s3 := s2.(value := Some(KindOf(e.value.typeCode.value, e.value.typeName).value));
    var s4 := s3.(isMapEntry := true);
    RunsOne(step, NO_ENTRY, r[0], s1);
    RunsOne(step, s1, r[1], s2);
    RunsOne(step, s2, r[2], s3);
    RunsOne(step, s3, r[3], s4);
    RunsThen(step, NO_ENTRY, [r[0]], s1, [r[1]], s2);
    RunsThen(step, NO_ENTRY, [r[0]] + [r[1]], s2, [r[2]], s3);
    RunsThen(step, NO_ENTRY, [r[0]] + [r[1]] + [r[2]], s3, [r[3]], s4);
    assert r == [r[0]] + [r[1]] + [r[2]] + [r[3]];
    LoopOfWritten(step, WireParse, NO_ENTRY, r, s4);
  }

  // ------------------------------------------------------------------ messages

  function FieldBlobs(raws: seq<RawField>): (r: seq<Record>)
    ensures |r| == |raws|
    ensures forall i :: 0 <= i < |r| ==> r[i] == Record(2, PLen(WriteAll(FieldRecords(raws[i]))))
  {
    if raws == [] then [] else [Record(2, PLen(WriteAll(FieldRecords(raws[0]))))] + FieldBlobs(raws[1..])
  }

  function EntryBlobs(entries: seq<EntryDecl>): (r: seq<Record>)
    ensures |r| == |entries|
    ensures forall i :: 0 <= i < |r| ==> r[i] == Record(3, PLen(WriteAll(EntryRecords(entries[i]))))
  {
    if entries == [] then [] else [Record(3, PLen(WriteAll(EntryRecords(entries[0]))))] + EntryBlobs(entries[1..])
  }

  function OneofRecords(name: Name): seq<Record> {
    [Record(1, PLen(name))]
  }

  function OneofBlobs(oneofs: seq<Name>): (r: seq<Record>)
    ensures |r| == |oneofs|
    ensures forall i :: 0 <= i < |r| ==> r[i] == Record(8, PLen(WriteAll(OneofRecords(oneofs[i]))))
  {
    if oneofs == [] then [] else [Record(8, PLen(WriteAll(OneofRecords(oneofs[0]))))] + OneofBlobs(oneofs[1..])
  }

  /** The entries by name; later declarations replace earlier ones. */
  function EntryTable(table: map<Name, MapEntry>, entries: seq<EntryDecl>): map<Name, MapEntry>
    requires forall i :: 0 <= i < |entries| ==> ValidEntry(entries[i])
    decreases |entries|
  {
    if entries == [] then table else EntryTable(table[entries[0].name := DeclaredEntry(entries[0])], entries[1..])
  }

  lemma AppendHead<T>(a: seq<T>, b: seq<T>)
    requires b != []
    ensures (a + [b[0]]) + b[1..] == a + b
  {
  }

  lemma {:induction false} FieldBlobRuns(d: Draft, raw: RawField)
    requires ValidRaw(raw)
    ensures Runs(DraftStep, d, [Record(2, PLen(WriteAll(FieldRecords(raw))))], d.(raws := d.raws + [raw]))
  {
    RawFieldRoundTrip(raw);
    hide FieldRecords, WriteAll, ParseRawField, Runs;
    var step: (Draft, Record) -> Parsed<Draft> := DraftStep;
    RunsOne(step, d, Record(2, PLen(WriteAll(FieldRecords(raw)))), d.(raws := d.raws + [raw]));
  }

  lemma {:induction false} FieldBlobsRun(d: Draft, raws: seq<RawField>)
    requires forall i :: 0 <= i < |raws| ==> ValidRaw(raws[i])
    ensures Runs(DraftStep, d, FieldBlobs(raws), d.(raws := d.raws + raws))
    decreases |raws|
  {
    if raws == [] {
      RunsNothing(DraftStep, d);
      assert d.raws + [] == d.raws;
    } else {
      hide Runs, FieldRecords, WriteAll, ValidRaw, DraftStep;
      var mid := d.(raws := d.raws + [raws[0]]);
      FieldBlobRuns(d, raws[0]);
      FieldBlobsRun(mid, raws[1..]);
      AppendHead(d.raws, raws);
      RunsThen(DraftStep, d, [FieldBlobs(raws)[0]], mid, FieldBlobs(raws[1..]), d.(raws := d.raws + raws));
    }
  }

  lemma {:induction false} EntryBlobRuns(d: Draft, e: EntryDecl)
    requires ValidEntry(e)
    ensures Runs(DraftStep, d, [Record(3, PLen(WriteAll(EntryRecords(e))))],
                 d.(entries := d.entries[e.name := DeclaredEntry(e)]))
  {
    EntryRoundTrip(e);
    var data := WriteAll(EntryRecords(e));
    DraftTakesEntry(d, data, ParseNested(data).value, DeclaredEntry(e));
    hide *;
    var step: (Draft, Record) -> Parsed<Draft> := DraftStep;
    RunsOne(step, d, Record(3, PLen(data)), d.(entries := d.entries[e.name := DeclaredEntry(e)]));
  }

  lemma {:induction false} DraftTakesEntry(d: Draft, data: Bytes, n: Nested, entry: MapEntry)
    requires ParseNested(data) == Ok(n) && EntryOf(n) == Some(entry)
    ensures DraftStep(d, Record(3, PLen(data))) == Ok(d.(entries := d.entries[n.name := entry]))
  {
    hide ParseNested, EntryOf;
  }

  lemma {:induction false} EntryBlobsRun(d: Draft, entries: seq<EntryDecl>)
    requires forall i :: 0 <= i < |entries| ==> ValidEntry(entries[i])
    ensures Runs(DraftStep, d, EntryBlobs(entries), d.(entries := EntryTable(d.entries, entries)))
    decreases |entries|
  {
    if entries == [] {
      RunsNothing(DraftStep, d);
    } else {
      hide Runs, EntryRecords, WriteAll, ValidEntry, DeclaredEntry, DraftStep;
      var mid := d.(entries := d.entries[entries[0].name := DeclaredEntry(entries[0])]);
      EntryBlobRuns(d, entries[0]);
      EntryBlobsRun(mid, entries[1..]);
      RunsThen(DraftStep, d, [EntryBlobs(entries)[0]], mid, EntryBlobs(entries[1..]),
               d.(entries := EntryTable(d.entries, entries)));
    }
  }

  lemma {:induction false} OneofRoundTrip(name: Name)
    requires ValidName(name)
    ensures ParseOneofName(WriteAll(OneofRecords(name))) == Ok(name)
  {
    hide ValidUtf8;
    var step: (Name, Record) -> Parsed<Name> := OneofNameStep;
    RunsOne(step, [], Record(1, PLen(name)), name);
    LoopOfWritten(step, WireParse, [], OneofRecords(name), name);
  }

  lemma {:induction false} OneofBlobRuns(d: Draft, name: Name)
    requires ValidName(name)
    ensures Runs(DraftStep, d, [Record(8, PLen(WriteAll(OneofRecords(name))))], d.(oneofs := d.oneofs + [name]))
  {
    OneofRoundTrip(name);
    hide OneofRecords, WriteAll, ParseOneofName, Runs;
    var step: (Draft, Record) -> Parsed<Draft> := DraftStep;
    RunsOne(step, d, Record(8, PLen(WriteAll(OneofRecords(name)))), d.(oneofs := d.oneofs + [name]));
  }

  lemma {:induction false} OneofBlobsRun(d: Draft, oneofs: seq<Name>)
    requires forall i :: 0 <= i < |oneofs| ==> ValidName(oneofs[i])
    ensures Runs(DraftStep, d, OneofBlobs(oneofs), d.(oneofs := d.oneofs + oneofs))
    decreases |oneofs|
  {
    if oneofs == [] {
      RunsNothing(DraftStep, d);
      assert d.oneofs + [] == d.oneofs;
    } else {
      hide Runs, OneofRecords, WriteAll, ValidName, DraftStep;
      var mid := d.(oneofs := d.oneofs + [oneofs[0]]);
      OneofBlobRuns(d, oneofs[0]);
      OneofBlobsRun(mid, oneofs[1..]);
      AppendHead(d.oneofs, oneofs);
      RunsThen(DraftStep, d, [OneofBlobs(oneofs)[0]], mid, OneofBlobs(oneofs[1..]), d.(oneofs := d.oneofs + oneofs));
    }
  }

  /** A `DescriptorProto`: name, fields, entry types, oneofs. */
  function MessageRecords(name: Name, raws: seq<RawField>, entries: seq<EntryDecl>, oneofs: seq<Name>): seq<Record> {
    [Record(1, PLen(name))] + FieldBlobs(raws) + EntryBlobs(entries) + OneofBlobs(oneofs)
  }

  /** The draft collected from written declarations is the declarations. */
  lemma {:induction false} MessageRecordsRun(name: Name, raws: seq<RawField>, entries: seq<EntryDecl>,
      oneofs: seq<Name>)
    requires ValidName(name) && forall i :: 0 <= i < |raws| ==> ValidRaw(raws[i])
    requires forall i :: 0 <= i < |entries| ==> ValidEntry(entries[i])
    requires forall i :: 0 <= i < |oneofs| ==> ValidName(oneofs[i])
    ensures Runs(DraftStep, NO_MESSAGE, MessageRecords(name, raws, entries, oneofs),
                 Draft(name, raws, EntryTable(map[], entries), oneofs))
  {
    var step: (Draft, Record) -> Parsed<Draft> := DraftStep;
    var s1 := NO_MESSAGE.(name := name);
    var s2 := s1.(raws := raws);
    var s3 := s2.(entries := EntryTable(map[], entries));
    RunsOne(step, NO_MESSAGE, Record(1, PLen(name)), s1);
    hide Runs, ValidRaw, ValidEntry, ValidName, EntryTable, FieldBlobs, EntryBlobs, OneofBlobs;
    FieldBlobsRun(s1, raws);
    assert [] + raws == raws;
    RunsThen(step, NO_MESSAGE, [Record(1, PLen(name))], s1, FieldBlobs(raws), s2);
    EntryBlobsRun(s2, entries);
    RunsThen(step, NO_MESSAGE, [Record(1, PLen(name))] + FieldBlobs(raws), s2, EntryBlobs(entries), s3);
    OneofBlobsRun(s3, oneofs);
    assert [] + oneofs == oneofs;
    RunsThen(step, NO_MESSAGE, [Record(1, PLen(name))] + FieldBlobs(raws) + EntryBlobs(entries), s3, OneofBlobs(oneofs),
             s3.(oneofs := oneofs));
  }

  // ------------------------------------------------------- names as UTF-8 text

  lemma {:induction false} Utf8Append(a: Name, b: Name)
    requires ValidUtf8(a) && ValidUtf8(b)
    ensures ValidUtf8(a + b)
    decreases |a|
  {
    if a == [] {
      assert a + b == b;
    } else {
      var n := CharLength(a);
      assert CharLength(a + b) == n;
      assert (a + b)[n..] == a[n..] + b;
      Utf8Append(a[n..], b);
    }
  }

  lemma {:induction false} AsciiIsUtf8(s: Name)
    requires forall i :: 0 <= i < |s| ==> s[i] < 128
    ensures ValidUtf8(s)
  {
    if s != [] {
      AsciiIsUtf8(s[1..]);
    }
  }

  /** A qualified name as descriptors spell it. */
  function Dotted(n: Name): Name {
    [DOT] + n
  }

  lemma {:induction false} DottedName(n: Name)
    ensures FullName(Dotted(n)) == n
    ensures ValidUtf8(n) ==> ValidUtf8(Dotted(n))
  {
    AsciiIsUtf8([DOT]);
    if ValidUtf8(n) {
      Utf8Append([DOT], n);
    }
  }

  // --------------------------------------------------- descriptors as declarations

  function ScalarCode(s: ScalarType): int {
    match s
    case Double => 1
    case Float => 2
    case Int64 => 3
    case UInt64 => 4
    case Int32 => 5
    case Fixed64 => 6
    case Fixed32 => 7
    case Bool => 8
    case String => 9
    case Bytes => 12
    case UInt32 => 13
    case SFixed32 => 15
    case SFixed64 => 16
    case SInt32 => 17
    case SInt64 => 18
  }

  lemma {:induction false} ScalarCodes(s: ScalarType)
    ensures var c := ScalarCode(s);
            ScalarFrom(c) == Some(s) && 0 < c < 128 && c != 10 && c != 11 && c != 14
  {
  }

  predicate MessageLike(kind: ValueKind) {
    kind.Message? || kind.Timestamp? || kind.Duration?
  }

  function CodeOf(kind: ValueKind): int {
    match kind
    case Scalar(s) => ScalarCode(s)
    case Enum => 14
    case _ => 11
  }

  function SpelledName(kind: ValueKind, typeName: Option<Name>): Option<Name> {
    match kind
    case Timestamp => Some(TimestampName())
    case Duration => Some(DurationName())
    case _ => if typeName.Some? then Some(Dotted(typeName.value)) else None
  }

  /** Times are known by their name alone, and no other message has one of these names. */
  predicate NameFits(kind: ValueKind, typeName: Option<Name>) {
    && (kind.Timestamp? || kind.Duration? ==> typeName.None?)
    && (kind.Message? && typeName.Some? ==>
          Dotted(typeName.value) != TimestampName() && Dotted(typeName.value) != DurationName())
    && (typeName.Some? ==> ValidUtf8(typeName.value) && IsU64(|typeName.value| + 1))
  }

  lemma {:induction false} KindRoundTrip(kind: ValueKind, typeName: Option<Name>)
    requires NameFits(kind, typeName)
    ensures KindOf(CodeOf(kind), SpelledName(kind, typeName)) == Ok((kind, typeName))
    ensures SpelledName(kind, typeName).Some? ==> ValidName(SpelledName(kind, typeName).value)
    ensures 0 < CodeOf(kind) < 128 && CodeOf(kind) != 10
  {
    hide ScalarFrom, ScalarCode, ValidUtf8, FullName;
    if kind.Scalar? {
      ScalarCodes(kind.scalar);
    }
    if typeName.Some? {
      DottedName(typeName.value);
    }
    TimeNames();
    AsciiIsUtf8(TimestampName());
    AsciiIsUtf8(DurationName());
  }

  /** A field that is optional for its presence alone: declared `optional`, in no real oneof. */
  predicate PresenceOnly(f: FieldDescriptor) {
    f.kind.Plain? && f.cardinality == Optional && f.oneofIndex.None?
  }

  /** How a field is spelled beyond what its descriptor says: the name of a map field's entry
      type, and the synthetic oneof `protoc` puts a presence-only field into. */
  datatype Spelling = Spelling(entry: Name, synthetic: Option<nat>)

  /** What `protoc` writes for a field; a map field refers to its entry type, nested in the
      message.  Presence-only fields carry the `proto3_optional` flag together with the index
      of their synthetic oneof; message-like ones may do without both. */
  function RawOf(message: Name, f: FieldDescriptor, spelling: Spelling): RawField {
    match f.kind
    case Map(_, _) =>
      var full := [] + [DOT] + message + [DOT] + spelling.entry;
      RawField(f.name, f.number, 3, Some(11), Some(full), None, false)
    case Plain(kind) =>
      var flagged := PresenceOnly(f) && (spelling.synthetic.Some? || !MessageLike(kind));
      RawField(f.name, f.number, if f.cardinality == Repeated then 3 else 1, Some(CodeOf(kind)),
               SpelledName(kind, f.typeName), if flagged then spelling.synthetic else f.oneofIndex, flagged)
  }

  const KEY_NAME: Name := [107, 101, 121]
  const VALUE_NAME: Name := [118, 97, 108, 117, 101]

  /** And the entry type of a map field. */
  function DeclOf(f: FieldDescriptor, entry: Name): EntryDecl
    requires f.kind.Map?
  {
    EntryDecl(entry,
              RawField(KEY_NAME, 1, 1, Some(ScalarCode(f.kind.key)), None, None, false),
              RawField(VALUE_NAME, 2, 1, Some(CodeOf(f.kind.value)),
                       SpelledName(f.kind.value, f.typeName), None, false))
  }

  function Decls(fields: seq<FieldDescriptor>, spelled: seq<Spelling>): (r: seq<EntryDecl>)
    requires |fields| == |spelled|
    ensures forall e <- r ::
      exists i :: 0 <= i < |fields| && fields[i].kind.Map? && e == DeclOf(fields[i], spelled[i].entry)
  {
    if fields == [] then []
    else
      var rest := Decls(fields[1..], spelled[1..]);
      assert forall i :: 0 <= i < |fields| - 1 ==> fields[1..][i] == fields[i + 1] && spelled[1..][i] == spelled[i + 1];
      if fields[0].kind.Map? then [DeclOf(fields[0], spelled[0].entry)] + rest else rest
  }

  function Raws(message: Name, fields: seq<FieldDescriptor>, spelled: seq<Spelling>): (r: seq<RawField>)
    requires |fields| == |spelled|
    ensures |r| == |fields|
    ensures forall i :: 0 <= i < |r| ==> r[i] == RawOf(message, fields[i], spelled[i])
  {
    seq(|fields|, i requires 0 <= i < |fields| => RawOf(message, fields[i], spelled[i]))
  }

  /** The bytes that describe `d` in this spelling. */
  function Describe(d: MessageDescriptor, spelled: seq<Spelling>): Bytes
    requires |spelled| == |d.fields|
  {
    WriteAll(MessageRecords(d.name, Raws(d.name, d.fields, spelled), Decls(d.fields, spelled), d.oneofs))
  }

  predicate EntryNameFits(d: MessageDescriptor, spelled: seq<Spelling>, i: nat)
    requires i < |spelled| == |d.fields|
  {
    && DOT !in spelled[i].entry && ValidUtf8(spelled[i].entry) && IsU64(|spelled[i].entry| + |d.name| + 2)
    && forall j :: 0 <= j < |spelled| && j != i && d.fields[j].kind.Map? ==> spelled[j].entry != spelled[i].entry
  }

  /** No list of messages of a type that looks like one of the entry types. */
  predicate NoClash(d: MessageDescriptor, spelled: seq<Spelling>, i: nat)
    requires i < |spelled| == |d.fields| && d.fields[i].kind.Plain?
  {
    var f := d.fields[i];
    var full := SpelledName(f.kind.value, f.typeName);
    f.cardinality == Repeated && MessageLike(f.kind.value) && full.Some? && Enclosing(full.value) == Some(d.name) ==>
      forall j :: 0 <= j < |spelled| && d.fields[j].kind.Map? ==> spelled[j].entry != ShortName(full.value)
  }

  predicate DescribableField(d: MessageDescriptor, spelled: seq<Spelling>, i: nat)
    requires i < |spelled| == |d.fields|
  {
    var f := d.fields[i];
    && ValidName(f.name) && NameFits(f.kind.value, f.typeName) && (f.oneofIndex.Some? ==> IsU32(f.oneofIndex.value))
    && (spelled[i].synthetic.Some? ==> IsU32(spelled[i].synthetic.value))
    && (f.kind.Map? ==> EntryNameFits(d, spelled, i))
    && (f.kind.Plain? ==> NoClash(d, spelled, i) && (f.kind.value.Scalar? ==> f.typeName.None?))
    && (f.cardinality == Single && f.kind.Plain? ==> !MessageLike(f.kind.value))
  }

  /** A well-formed descriptor whose names `protoc` could have written. */
  predicate Describable(d: MessageDescriptor, spelled: seq<Spelling>) {
    && |spelled| == |d.fields| && WellFormed(d) && ValidName(d.name) && DOT !in d.name
    && (forall i :: 0 <= i < |d.oneofs| ==> ValidName(d.oneofs[i]))
    && forall i :: 0 <= i < |d.fields| ==> DescribableField(d, spelled, i)
  }

  // ------------------------------------------------------------- reading it back

  lemma {:induction false} EntryPathIsUtf8(message: Name, entry: Name)
    requires ValidUtf8(message) && ValidUtf8(entry)
    ensures ValidUtf8([] + [DOT] + message + [DOT] + entry)
  {
    AsciiIsUtf8([DOT]);
    hide ValidUtf8;
    Utf8Append([DOT], message);
    Utf8Append([DOT] + message, [DOT]);
    Utf8Append([DOT] + message + [DOT], entry);
    assert [] + [DOT] + message + [DOT] + entry == [DOT] + message + [DOT] + entry;
  }

  lemma {:induction false} RawOfIsValid(d: MessageDescriptor, spelled: seq<Spelling>, i: nat)
    requires Describable(d, spelled) && i < |d.fields|
    ensures ValidRaw(RawOf(d.name, d.fields[i], spelled[i]))
  {
    var f := d.fields[i];
    hide ValidUtf8;
    assert DescribableField(d, spelled, i) && WellFormedField(f, |d.oneofs|);
    if f.kind.Map? {
      EntryPathIsUtf8(d.name, spelled[i].entry);
    } else {
      KindRoundTrip(f.kind.value, f.typeName);
    }
  }

  lemma {:induction false} EntryFieldNames()
    ensures ValidName(KEY_NAME) && ValidName(VALUE_NAME)
  {
    AsciiIsUtf8(KEY_NAME);
    AsciiIsUtf8(VALUE_NAME);
  }

  lemma {:induction false} EntryKeyIsValid(s: ScalarType)
    ensures ValidRaw(RawField(KEY_NAME, 1, 1, Some(ScalarCode(s)), None, None, false))
    ensures ScalarFrom(ScalarCode(s)) == Some(s)
  {
    EntryFieldNames();
    ScalarCodes(s);
    hide ValidName, ScalarCode, ScalarFrom;
  }

  lemma {:induction false} EntryValueIsValid(kind: ValueKind, typeName: Option<Name>)
    requires NameFits(kind, typeName)
    ensures ValidRaw(RawField(VALUE_NAME, 2, 1, Some(CodeOf(kind)), SpelledName(kind, typeName), None, false))
    ensures KindOf(CodeOf(kind), SpelledName(kind, typeName)) == Ok((kind, typeName))
  {
    EntryFieldNames();
    KindRoundTrip(kind, typeName);
    hide ValidName, CodeOf, KindOf, SpelledName, NameFits;
  }

  lemma {:induction false} EntryDeclIsValid(f: FieldDescriptor, entry: Name)
    requires f.kind.Map? && ValidName(entry) && NameFits(f.kind.value, f.typeName)
    requires var e := DeclOf(f, entry);
             IsU64(|WriteAll(FieldRecords(e.key))|) && IsU64(|WriteAll(FieldRecords(e.value))|)
    ensures var e := DeclOf(f, entry);
            ValidEntry(e) && DeclaredEntry(e) == MapEntry(f.kind.key, f.kind.value, f.typeName)
  {
    hide ValidName, ValidRaw, WriteAll, FieldRecords, KindOf, ScalarFrom, ScalarCode, NameFits, SpelledName, CodeOf;
    EntryKeyIsValid(f.kind.key);
    EntryValueIsValid(f.kind.value, f.typeName);
  }

  lemma {:induction false} DeclIsValid(d: MessageDescriptor, spelled: seq<Spelling>, i: nat)
    requires Describable(d, spelled) && i < |d.fields| && d.fields[i].kind.Map?
    requires var e := DeclOf(d.fields[i], spelled[i].entry);
             IsU64(|WriteAll(FieldRecords(e.key))|) && IsU64(|WriteAll(FieldRecords(e.value))|)
    ensures var f, e := d.fields[i], DeclOf(d.fields[i], spelled[i].entry);
            ValidEntry(e) && DeclaredEntry(e) == MapEntry(f.kind.key, f.kind.value, f.typeName)
  {
    hide ValidUtf8, WriteAll, FieldRecords, ValidEntry, DeclaredEntry, DeclOf, NameFits, WellFormed;
    assert DescribableField(d, spelled, i);
    EntryDeclIsValid(d.fields[i], spelled[i].entry);
  }

  lemma {:induction false} DeclsHold(fields: seq<FieldDescriptor>, spelled: seq<Spelling>, i: nat)
    requires |fields| == |spelled| && i < |fields| && fields[i].kind.Map?
    ensures DeclOf(fields[i], spelled[i].entry) in Decls(fields, spelled)
  {
    if i > 0 {
      DeclsHold(fields[1..], spelled[1..], i - 1);
    }
  }

  /** Declarations of the same name are the same. */
  predicate Consistent(es: seq<EntryDecl>) {
    forall a, b :: a in es && b in es && a.name == b.name ==> a == b
  }

  predicate Named(es: seq<EntryDecl>, k: Name) {
    exists e <- es :: e.name == k
  }

  lemma {:induction false} NamedParts(es: seq<EntryDecl>, k: Name)
    requires es != []
    ensures Named(es, k) <==> es[0].name == k || Named(es[1..], k)
  {
    assert es == [es[0]] + es[1..];
    if es[0].name == k {
      assert es[0] in es;
    }
    if Named(es[1..], k) {
      var e :| e in es[1..] && e.name == k;
      assert e in es;
    }
  }

  lemma {:induction false} TableKeys(table: map<Name, MapEntry>, es: seq<EntryDecl>, k: Name)
    requires forall i :: 0 <= i < |es| ==> ValidEntry(es[i])
    ensures var t := EntryTable(table, es);
            && (k in t <==> k in table || Named(es, k))
            && (k in table && !Named(es, k) ==> t[k] == table[k])
    decreases |es|
  {
    if es != [] {
      hide ValidEntry, DeclaredEntry, Named;
      NamedParts(es, k);
      TableKeys(table[es[0].name := DeclaredEntry(es[0])], es[1..], k);
    } else {
      assert !Named(es, k);
    }
  }

  lemma {:induction false} EntriesKnown(table: map<Name, MapEntry>, es: seq<EntryDecl>, i: nat)
    requires Consistent(es) && i < |es| && forall j :: 0 <= j < |es| ==> ValidEntry(es[j])
    ensures var t := EntryTable(table, es); es[i].name in t && t[es[i].name] == DeclaredEntry(es[i])
    decreases |es|
  {
    hide ValidEntry, DeclaredEntry;
    var rest, next := es[1..], table[es[0].name := DeclaredEntry(es[0])];
    assert Consistent(rest) by {
      assert es == [es[0]] + rest;
    }
    if i > 0 {
      EntriesKnown(next, rest, i - 1);
    } else if Named(rest, es[0].name) {
      var e :| e in rest && e.name == es[0].name;
      assert e in es && es[0] in es;
      var j :| 0 <= j < |rest| && rest[j] == e;
      EntriesKnown(next, rest, j);
    } else {
      TableKeys(next, rest, es[0].name);
    }
  }

  /** Every map field finds its entry, and nothing else is in the table. */
  predicate TableFits(d: MessageDescriptor, spelled: seq<Spelling>, table: map<Name, MapEntry>)
    requires |spelled| == |d.fields|
  {
    && (forall i :: 0 <= i < |d.fields| && d.fields[i].kind.Map? ==>
          var f := d.fields[i];
          spelled[i].entry in table && table[spelled[i].entry] == MapEntry(f.kind.key, f.kind.value, f.typeName))
    && (forall k <- table :: exists i :: 0 <= i < |d.fields| && d.fields[i].kind.Map? && spelled[i].entry == k)
  }

  lemma {:induction false} DeclsConsistent(d: MessageDescriptor, spelled: seq<Spelling>)
    requires Describable(d, spelled)
    ensures Consistent(Decls(d.fields, spelled))
  {
    hide DeclOf;
    var es := Decls(d.fields, spelled);
    forall a, b | a in es && b in es && a.name == b.name
      ensures a == b
    {
      var i :| 0 <= i < |d.fields| && d.fields[i].kind.Map? && a == DeclOf(d.fields[i], spelled[i].entry);
      var j :| 0 <= j < |d.fields| && d.fields[j].kind.Map? && b == DeclOf(d.fields[j], spelled[j].entry);
      DeclName(d.fields[i], spelled[i].entry);
      DeclName(d.fields[j], spelled[j].entry);
      assert DescribableField(d, spelled, i) && EntryNameFits(d, spelled, i);
    }
  }

  lemma {:induction false} DeclName(f: FieldDescriptor, entry: Name)
    requires f.kind.Map?
    ensures DeclOf(f, entry).name == entry
  {
  }

  lemma {:induction false} MessageRecordsShape(name: Name, raws: seq<RawField>, es: seq<EntryDecl>, oneofs: seq<Name>)
    ensures var recs := MessageRecords(name, raws, es, oneofs);
            && (forall i :: 0 <= i < |recs| ==> ValidNumber(recs[i].number) && recs[i].payload.PLen?)
            && |recs| == 1 + |raws| + |es| + |oneofs|
            && (forall i :: 0 <= i < |es| ==> recs[1 + |raws| + i] == Record(3, PLen(WriteAll(EntryRecords(es[i])))))
  {
    hide FieldRecords, EntryRecords, OneofRecords, WriteAll;
    var recs := MessageRecords(name, raws, es, oneofs);
    forall i | 0 <= i < |recs|
      ensures ValidNumber(recs[i].number) && recs[i].payload.PLen?
    {
      if 1 <= i < 1 + |raws| {
        assert recs[i] == FieldBlobs(raws)[i - 1];
      } else if 1 + |raws| <= i < 1 + |raws| + |es| {
        assert recs[i] == EntryBlobs(es)[i - 1 - |raws|];
      } else if 1 + |raws| + |es| <= i {
        assert recs[i] == OneofBlobs(oneofs)[i - 1 - |raws| - |es|];
      }
    }
  }

  lemma {:induction false} EntrySizes(e: EntryDecl)
    requires IsU64(|WriteAll(EntryRecords(e))|)
    ensures IsU64(|WriteAll(FieldRecords(e.key))|) && IsU64(|WriteAll(FieldRecords(e.value))|)
  {
    hide WriteAll, FieldRecords, EntryOptions;
    var recs := EntryRecords(e);
    RoundTrip.FitsWithin(recs);
    assert Typing.Fits(recs[1].payload) && Typing.Fits(recs[2].payload);
  }

  /** Everything written about the message is a valid record, at every level. */
  lemma {:induction false} DescriptionIsValid(d: MessageDescriptor, spelled: seq<Spelling>)
    requires Describable(d, spelled) && IsU64(|Describe(d, spelled)|)
    ensures AllRecordsValid(MessageRecords(d.name, Raws(d.name, d.fields, spelled), Decls(d.fields, spelled), d.oneofs))
    ensures forall i :: 0 <= i < |Decls(d.fields, spelled)| ==> ValidEntry(Decls(d.fields, spelled)[i])
  {
    assert |spelled| == |d.fields|;
    hide DeclOf, RawOf, Describable, WriteAll, FieldRecords, EntryRecords, ValidEntry, MessageRecords;
    var raws, es := Raws(d.name, d.fields, spelled), Decls(d.fields, spelled);
    var recs := MessageRecords(d.name, raws, es, d.oneofs);
    RoundTrip.FitsWithin(recs);
    MessageRecordsShape(d.name, raws, es, d.oneofs);
    forall i | 0 <= i < |recs|
      ensures recs[i].Valid()
    {
      assert Typing.Fits(recs[i].payload);
    }
    forall i | 0 <= i < |es|
      ensures ValidEntry(es[i])
    {
      assert Typing.Fits(recs[1 + |raws| + i].payload);
      EntrySizes(es[i]);
      assert es[i] in es;
      var j :| 0 <= j < |d.fields| && d.fields[j].kind.Map? && es[i] == DeclOf(d.fields[j], spelled[j].entry);
      DeclIsValid(d, spelled, j);
    }
  }

  lemma {:induction false} TableFinds(d: MessageDescriptor, spelled: seq<Spelling>, table: map<Name, MapEntry>, i: nat)
    requires Describable(d, spelled) && i < |d.fields| && d.fields[i].kind.Map?
    requires var e := DeclOf(d.fields[i], spelled[i].entry);
             ValidEntry(e) && e.name in table && table[e.name] == DeclaredEntry(e)
    ensures spelled[i].entry in table
    ensures table[spelled[i].entry] == MapEntry(d.fields[i].kind.key, d.fields[i].kind.value, d.fields[i].typeName)
  {
    EntryIsSized(DeclOf(d.fields[i], spelled[i].entry));
    DeclIsValid(d, spelled, i);
    DeclName(d.fields[i], spelled[i].entry);
    hide *;
  }

  lemma {:induction false} KeyIsSpelled(fields: seq<FieldDescriptor>, spelled: seq<Spelling>, k: Name)
    requires |fields| == |spelled|
    requires forall i :: 0 <= i < |Decls(fields, spelled)| ==> ValidEntry(Decls(fields, spelled)[i])
    requires k in EntryTable(map[], Decls(fields, spelled))
    ensures exists i :: 0 <= i < |fields| && fields[i].kind.Map? && spelled[i].entry == k
  {
    var es := Decls(fields, spelled);
    hide EntryTable, Decls, DeclOf;
    TableKeys(map[], es, k);
    var e :| e in es && e.name == k;
    var i :| 0 <= i < |fields| && fields[i].kind.Map? && e == DeclOf(fields[i], spelled[i].entry);
    DeclName(fields[i], spelled[i].entry);
  }

  lemma {:induction false} FieldInTable(d: MessageDescriptor, spelled: seq<Spelling>, i: nat)
    requires Describable(d, spelled) && i < |d.fields| && d.fields[i].kind.Map?
    requires forall j :: 0 <= j < |Decls(d.fields, spelled)| ==> ValidEntry(Decls(d.fields, spelled)[j])
    ensures var table := EntryTable(map[], Decls(d.fields, spelled));
            && spelled[i].entry in table
            && table[spelled[i].entry] == MapEntry(d.fields[i].kind.key, d.fields[i].kind.value, d.fields[i].typeName)
  {
    var es := Decls(d.fields, spelled);
    DeclsConsistent(d, spelled);
    hide ValidEntry, EntryTable, Decls, DeclOf, DeclaredEntry, Consistent, DescribableField, WellFormed;
    DeclsHold(d.fields, spelled, i);
    var j :| 0 <= j < |es| && es[j] == DeclOf(d.fields[i], spelled[i].entry);
    EntriesKnown(map[], es, j);
    TableFinds(d, spelled, EntryTable(map[], es), i);
  }

  lemma {:induction false} TableOfDecls(d: MessageDescriptor, spelled: seq<Spelling>)
    requires Describable(d, spelled)
    requires forall i :: 0 <= i < |Decls(d.fields, spelled)| ==> ValidEntry(Decls(d.fields, spelled)[i])
    ensures TableFits(d, spelled, EntryTable(map[], Decls(d.fields, spelled)))
  {
    hide ValidEntry, EntryTable, Decls, DescribableField, WellFormed;
    forall i | 0 <= i < |d.fields| && d.fields[i].kind.Map?
      ensures var table := EntryTable(map[], Decls(d.fields, spelled));
              && spelled[i].entry in table
              && table[spelled[i].entry] == MapEntry(d.fields[i].kind.key, d.fields[i].kind.value, d.fields[i].typeName)
    {
      FieldInTable(d, spelled, i);
    }
    forall k <- EntryTable(map[], Decls(d.fields, spelled))
      ensures exists i :: 0 <= i < |d.fields| && d.fields[i].kind.Map? && spelled[i].entry == k
    {
      KeyIsSpelled(d.fields, spelled, k);
    }
  }

  lemma {:induction false} EntryIsSized(e: EntryDecl)
    requires ValidEntry(e)
    ensures IsU64(|WriteAll(FieldRecords(e.key))|) && IsU64(|WriteAll(FieldRecords(e.value))|)
  {
  }

  lemma {:induction false} InterpretBack(d: MessageDescriptor, spelled: seq<Spelling>, table: map<Name, MapEntry>,
      i: nat)
    requires Describable(d, spelled) && TableFits(d, spelled, table) && i < |d.fields|
    ensures Interpret(RawOf(d.name, d.fields[i], spelled[i]), table, d.name) == Ok(d.fields[i])
  {
    var f := d.fields[i];
    hide KindOf, ScalarFrom, ScalarCode, ValidUtf8, ShortName, Enclosing;
    assert DescribableField(d, spelled, i) && WellFormedField(f, |d.oneofs|);
    if f.kind.Map? {
      NestedName([], d.name, spelled[i].entry);
    } else {
      KindRoundTrip(f.kind.value, f.typeName);
      NotAnEntry(d, spelled, table, i);
    }
  }

  lemma {:induction false} NotAnEntry(d: MessageDescriptor, spelled: seq<Spelling>, table: map<Name, MapEntry>, i: nat)
    requires |spelled| == |d.fields| && TableFits(d, spelled, table) && i < |d.fields| && d.fields[i].kind.Plain?
    requires DescribableField(d, spelled, i)
    ensures EntryFor(RawOf(d.name, d.fields[i], spelled[i]), table, d.name) == None
  {
    hide ShortName, Enclosing, ValidUtf8;
    var raw := RawOf(d.name, d.fields[i], spelled[i]);
    if raw.cardinality == 3 && raw.typeCode == Some(11) {
      CodeIsMessage(d.fields[i].kind.value);
      assert NoClash(d, spelled, i);
    }
  }

  lemma {:induction false} CodeIsMessage(kind: ValueKind)
    ensures CodeOf(kind) == 11 <==> MessageLike(kind)
  {
    if kind.Scalar? {
      ScalarCodes(kind.scalar);
    }
  }

  lemma {:induction false} InterpretAllBack(raws: seq<RawField>, table: map<Name, MapEntry>, message: Name,
      fields: seq<FieldDescriptor>)
    requires |raws| == |fields| && forall i :: 0 <= i < |raws| ==> Interpret(raws[i], table, message) == Ok(fields[i])
    ensures InterpretAll(raws, table, message) == Ok(fields)
    decreases |raws|
  {
    hide Interpret;
    if raws != [] {
      InterpretAllBack(raws[1..], table, message, fields[1..]);
      assert fields == [fields[0]] + fields[1..];
    }
  }

  lemma {:induction false} CompleteBack(d: MessageDescriptor, spelled: seq<Spelling>, table: map<Name, MapEntry>)
    requires Describable(d, spelled) && TableFits(d, spelled, table)
    ensures Complete(Draft(d.name, Raws(d.name, d.fields, spelled), table, d.oneofs)) == Ok(d)
  {
    var raws := Raws(d.name, d.fields, spelled);
    assert WellFormed(d);
    forall i | 0 <= i < |d.fields|
      ensures Interpret(raws[i], table, d.name) == Ok(d.fields[i]) && DropStray(d.fields[i], |d.oneofs|) == d.fields[i]
    {
      InterpretBack(d, spelled, table, i);
      assert WellFormedField(d.fields[i], |d.oneofs|);
    }
    hide Describable, TableFits, Interpret, Raws, DropStray, WellFormed;
    InterpretAllBack(raws, table, d.name, d.fields);
    assert DropStrays(d.fields, |d.oneofs|) == d.fields;
  }

  /**
   Every well-formed descriptor with ordinary names is what its own description parses to.
   `ParsedIsWellFormed` is the other direction: nothing else comes out of the parser.
   */
  lemma {:induction false} DescriptorRoundTrip(d: MessageDescriptor, spelled: seq<Spelling>)
    requires Describable(d, spelled) && IsU64(|Describe(d, spelled)|)
    ensures ParseMessage(Describe(d, spelled)) == Ok(d)
  {
    var raws, es := Raws(d.name, d.fields, spelled), Decls(d.fields, spelled);
    DescriptionIsValid(d, spelled);
    TableOfDecls(d, spelled);
    forall i | 0 <= i < |raws|
      ensures ValidRaw(raws[i])
    {
      RawOfIsValid(d, spelled, i);
    }
    MessageRecordsRun(d.name, raws, es, d.oneofs);
    CompleteBack(d, spelled, EntryTable(map[], es));
    hide Runs, Raws, Decls, MessageRecords, EntryTable, Complete, AllRecordsValid, DraftStep;
    LoopOfWritten(DraftStep, WireParse, NO_MESSAGE, MessageRecords(d.name, raws, es, d.oneofs),
                  Draft(d.name, raws, EntryTable(map[], es), d.oneofs));
  }
}
