/**
 What a `DescriptorProto` says, record by record: of every attribute the last record counts, and
 a descriptor parses exactly if it is made of whole records and its names are text.
 */
module Declared {
  import opened Basics
  import opened Wire
  import opened Records
  import opened Descriptors
  import opened Utf8
  import opened Parsing
  import opened LastRecords

  // ----------------------------------------------------------------------- fields

  function FieldSaid(start: RawField, raws: seq<Raw>): RawField {
    var number, mark, code := LastVarint(raws, 3), LastVarint(raws, 4), LastVarint(raws, 5);
    var typeName, oneof, flag := LastBlob(raws, 6), LastVarint(raws, 9), LastVarint(raws, 17);
    RawField(Or(LastBlob(raws, 1), start.name),
             if number.Some? then number.value % 0x1_0000_0000 else start.number,
             if mark.Some? then Signed64(mark.value) else start.cardinality,
             if code.Some? then Some(Signed64(code.value)) else start.typeCode,
             if typeName.Some? then typeName else start.typeName,
             if oneof.Some? then Some(oneof.value % 0x1_0000_0000) else start.oneofIndex,
             if flag.Some? then flag.value != 0 else start.proto3Optional)
  }

  /** What a single record says. */
  function Varint(rec: Record, number: nat): Option<nat> {
    if rec.number == number && rec.payload.PVarint? then Some(rec.payload.v) else None
  }

  function Blob(rec: Record, number: nat): Option<Bytes> {
    if rec.number == number && rec.payload.PLen? then Some(rec.payload.data) else None
  }

  lemma {:induction false} LastHead(raws: seq<Raw>, number: nat)
    requires raws != []
    ensures var later := LastVarint(raws[1..], number);
            LastVarint(raws, number) == if later.Some? then later else Varint(raws[0].rec, number)
    ensures var later := LastBlob(raws[1..], number);
            LastBlob(raws, number) == if later.Some? then later else Blob(raws[0].rec, number)
  {
  }

  lemma {:induction false} Casts(rec: Record)
    requires rec.payload.PVarint?
    ensures Signed64(rec.payload.v) == AsI64(rec.payload.v) && rec.payload.v % 0x1_0000_0000 == AsU32(rec.payload.v)
  {
  }

  lemma {:induction false} FieldStepSays(st: RawField, raws: seq<Raw>)
    requires raws != []
    ensures var next := RawFieldStep(st, raws[0].rec);
            next.Ok? ==> FieldSaid(next.value, raws[1..]) == FieldSaid(st, raws)
  {
    forall n | n in {1, 3, 4, 5, 6, 9, 17} {
      LastHead(raws, n);
    }
    if raws[0].rec.payload.PVarint? {
      Casts(raws[0].rec);
    }
    hide LastVarint, LastBlob, ValidUtf8, Signed64, AsI64, AsU32;
  }

  lemma {:induction false} FieldStepTakes(st: RawField, raws: seq<Raw>)
    requires raws != []
    ensures RawFieldStep(st, raws[0].rec).Ok? && AllText(raws[1..], 1) && AllText(raws[1..], 6)
       <==> AllText(raws, 1) && AllText(raws, 6)
  {
    AllTextHead(raws, 1);
    AllTextHead(raws, 6);
    hide AllText, ValidUtf8;
  }

  lemma {:induction false} FoldFieldSays(st: RawField, raws: seq<Raw>)
    ensures var r := Fold(RawFieldStep, st, raws);
            (r.Ok? <==> AllText(raws, 1) && AllText(raws, 6)) && (r.Ok? ==> r.value == FieldSaid(st, raws))
    decreases |raws|
  {
    if raws != [] {
      FieldStepSays(st, raws);
      FieldStepTakes(st, raws);
      var next := RawFieldStep(st, raws[0].rec);
      if next.Ok? {
        FoldFieldSays(next.value, raws[1..]);
      }
      hide FieldSaid, AllText, RawFieldStep;
    }
  }

  /** Number 1 is the name, 3 the number as 32 bits, 4 the label, 5 the type and 6 its name, 9 the
      oneof, 17 the flag; without a record there is no name, number and label are zero, and the
      rest is missing. */
  lemma {:induction false} FieldSays(data: Bytes)
    ensures var raws, r := ScanAll(data).raws, ParseRawField(data);
            && (r.Ok? <==> ScanAll(data).end.None? && AllText(raws, 1) && AllText(raws, 6))
            && (r.Ok? ==> r.value == FieldSaid(RawField([], 0, 0, None, None, None, false), raws))
  {
    FoldFieldSays(NO_FIELD, ScanAll(data).raws);
    hide AllText, FieldSaid;
  }

  // ------------------------------------------------------------------ nested types

  /** Number 7 of the options is the flag of map entries. */
  lemma {:induction false} FoldOptionsSay(flag: bool, raws: seq<Raw>)
    ensures var last := LastVarint(raws, 7);
            Fold(OptionStep, flag, raws) == Ok(if last.Some? then last.value != 0 else flag)
    decreases |raws|
  {
    if raws != [] {
      FoldOptionsSay(OptionStep(flag, raws[0].rec).value, raws[1..]);
    }
  }

  lemma {:induction false} OptionsSay(flag: bool, data: Bytes)
    ensures var raws, last := ScanAll(data).raws, LastVarint(ScanAll(data).raws, 7);
            && (ParseOptions(flag, data).Ok? <==> ScanAll(data).end.None?)
            && (ParseOptions(flag, data).Ok? ==>
                  ParseOptions(flag, data) == Ok(if last.Some? then last.value != 0 else flag))
  {
    FoldOptionsSay(flag, ScanAll(data).raws);
  }

  /** The records inside all the payloads with this number, in order. */
  function Within(raws: seq<Raw>, number: nat): seq<Raw> {
    if raws == [] then []
    else if raws[0].rec.number == number && raws[0].rec.payload.PLen? then
      ScanAll(raws[0].rec.payload.data).raws + Within(raws[1..], number)
    else Within(raws[1..], number)
  }

  lemma {:induction false} LastVarintOfTwo(a: seq<Raw>, b: seq<Raw>, number: nat)
    ensures var later := LastVarint(b, number);
            LastVarint(a + b, number) == if later.Some? then later else LastVarint(a, number)
    decreases |a|
  {
    if a == [] {
      assert a + b == b;
    } else {
      assert (a + b)[1..] == a[1..] + b;
      LastVarintOfTwo(a[1..], b, number);
    }
  }

  /** The last field, among those in payloads numbered 2, that has this number itself. */
  function LastField(raws: seq<Raw>, number: nat): Option<RawField> {
    if raws == [] then None
    else if LastField(raws[1..], number).Some? then LastField(raws[1..], number)
    else FieldIn(raws[0].rec, number)
  }

  function FieldIn(rec: Record, number: nat): Option<RawField> {
    if rec.number == 2 && rec.payload.PLen? && ParseRawField(rec.payload.data).Ok?
       && ParseRawField(rec.payload.data).value.number == number
    then Some(ParseRawField(rec.payload.data).value)
    else None
  }

  /** A record a nested type can be made of: its name is text, its fields parse and have a type,
      that of number 2 one that is known, and its options are whole records. */
  predicate FitsNested(rec: Record) {
    rec.payload.PLen? ==>
      var data := rec.payload.data;
      && (rec.number == 1 ==> ValidUtf8(data)) && (rec.number == 7 ==> ScanAll(data).end.None?)
      && (rec.number == 2 ==>
            var r := ParseRawField(data);
            && r.Ok? && r.value.typeCode.Some?
            && (r.value.number == 2 ==> KindOf(r.value.typeCode.value, r.value.typeName).Ok?))
  }

  predicate AllFitNested(raws: seq<Raw>) {
    forall i :: 0 <= i < |raws| ==> FitsNested(raws[i].rec)
  }

  lemma {:induction false} AllFitNestedHead(raws: seq<Raw>)
    requires raws != []
    ensures AllFitNested(raws) <==> FitsNested(raws[0].rec) && AllFitNested(raws[1..])
  {
    hide FitsNested;
    assert raws == [raws[0]] + raws[1..];
  }

  function KeySaid(start: Option<ScalarType>, key: Option<RawField>): Option<ScalarType> {
    if key.Some? && key.value.typeCode.Some? then ScalarFrom(key.value.typeCode.value) else start
  }

  function ValueSaid(start: Option<(ValueKind, Option<Name>)>, value: Option<RawField>)
    : Option<(ValueKind, Option<Name>)>
  {
    if value.Some? && value.value.typeCode.Some? && KindOf(value.value.typeCode.value, value.value.typeName).Ok? then
      Some(KindOf(value.value.typeCode.value, value.value.typeName).value)
    else start
  }

  function NestedSaid(start: Nested, raws: seq<Raw>): Nested {
    var flag := LastVarint(Within(raws, 7), 7);
    Nested(Or(LastBlob(raws, 1), start.name), if flag.Some? then flag.value != 0 else start.isMapEntry,
           KeySaid(start.key, LastField(raws, 1)), ValueSaid(start.value, LastField(raws, 2)))
  }

  lemma {:induction false} NestedStepFits(st: Nested, rec: Record)
    ensures NestedStep(st, rec).Ok? <==> FitsNested(rec)
  {
    if rec.number == 7 && rec.payload.PLen? {
      OptionsSay(st.isMapEntry, rec.payload.data);
    }
    hide ParseRawField, KindOf, ScanAll, ValidUtf8, ParseOptions;
  }

  lemma {:induction false} FlagOf(st: Nested, rec: Record)
    requires NestedStep(st, rec).Ok?
    ensures NestedStep(st, rec).value.isMapEntry
         == if rec.number == 7 && rec.payload.PLen? then ParseOptions(st.isMapEntry, rec.payload.data).value
            else st.isMapEntry
    ensures rec.number == 7 && rec.payload.PLen? ==> ParseOptions(st.isMapEntry, rec.payload.data).Ok?
  {
    hide ParseOptions, ParseRawField, KindOf, ValidUtf8, ScalarFrom;
  }

  lemma {:induction false} WithinHead(raws: seq<Raw>)
    requires raws != []
    ensures var rec := raws[0].rec;
            Within(raws, 7) == if rec.number == 7 && rec.payload.PLen?
                               then ScanAll(rec.payload.data).raws + Within(raws[1..], 7)
                               else Within(raws[1..], 7)
  {
    hide ScanAll;
  }

  lemma {:induction false} FlagStep(st: Nested, raws: seq<Raw>)
    requires raws != [] && NestedStep(st, raws[0].rec).Ok?
    ensures var flag, later := LastVarint(Within(raws, 7), 7), LastVarint(Within(raws[1..], 7), 7);
            (if flag.Some? then flag.value != 0 else st.isMapEntry)
            == if later.Some? then later.value != 0 else NestedStep(st, raws[0].rec).value.isMapEntry
  {
    hide *;
    var rec := raws[0].rec;
    FlagOf(st, rec);
    WithinHead(raws);
    if rec.number == 7 && rec.payload.PLen? {
      OptionsSay(st.isMapEntry, rec.payload.data);
      LastVarintOfTwo(ScanAll(rec.payload.data).raws, Within(raws[1..], 7), 7);
    }
  }

  lemma {:induction false} HalvesStep(st: Nested, raws: seq<Raw>)
    requires raws != [] && NestedStep(st, raws[0].rec).Ok?
    ensures var next := NestedStep(st, raws[0].rec).value;
            && next.name == Or(Blob(raws[0].rec, 1), st.name)
            && next.key == KeySaid(st.key, FieldIn(raws[0].rec, 1))
            && next.value == ValueSaid(st.value, FieldIn(raws[0].rec, 2))
  {
    hide ParseRawField, KindOf, ScalarFrom, ParseOptions;
  }

  lemma {:induction false} FieldsHaveTypes(raws: seq<Raw>, number: nat)
    requires AllFitNested(raws)
    ensures var f := LastField(raws, number);
            f.Some? ==> f.value.typeCode.Some? && f.value.number == number
                        && (number == 2 ==> KindOf(f.value.typeCode.value, f.value.typeName).Ok?)
    decreases |raws|
  {
    if raws != [] {
      AllFitNestedHead(raws);
      assert FitsNested(raws[0].rec);
      FieldsHaveTypes(raws[1..], number);
      hide ParseRawField, KindOf, AllFitNested;
    }
  }

  lemma {:induction false} NestedStepSays(st: Nested, raws: seq<Raw>)
    requires raws != [] && NestedStep(st, raws[0].rec).Ok? && AllFitNested(raws[1..])
    ensures NestedSaid(NestedStep(st, raws[0].rec).value, raws[1..]) == NestedSaid(st, raws)
  {
    FlagStep(st, raws);
    HalvesStep(st, raws);
    LastHead(raws, 1);
    FieldsHaveTypes(raws[1..], 1);
    FieldsHaveTypes(raws[1..], 2);
    hide NestedStep, Within, LastVarint, LastBlob, FieldIn, KindOf, ScalarFrom, AllFitNested;
  }

  lemma {:induction false} FoldNestedSays(st: Nested, raws: seq<Raw>)
    ensures var r := Fold(NestedStep, st, raws);
            (r.Ok? <==> AllFitNested(raws)) && (r.Ok? ==> r.value == NestedSaid(st, raws))
    decreases |raws|
  {
    if raws != [] {
      AllFitNestedHead(raws);
      NestedStepFits(st, raws[0].rec);
      var next := NestedStep(st, raws[0].rec);
      if next.Ok? {
        FoldNestedSays(next.value, raws[1..]);
        if AllFitNested(raws[1..]) {
          NestedStepSays(st, raws);
        }
      }
      hide NestedSaid, AllFitNested, NestedStep, FitsNested;
    }
  }

  /** Of a nested type, number 1 is the name, the option numbered 7 makes it a map entry, and the
      last of its fields numbered 1 and 2 are the key and the value. */
  lemma {:induction false} NestedSays(data: Bytes)
    ensures var raws, r := ScanAll(data).raws, ParseNested(data);
            && (r.Ok? <==> ScanAll(data).end.None? && AllFitNested(raws))
            && (r.Ok? ==> r.value == NestedSaid(Nested([], false, None, None), raws))
  {
    FoldNestedSays(NO_ENTRY, ScanAll(data).raws);
    hide AllFitNested, NestedSaid;
  }

  // ---------------------------------------------------------------------- messages

  lemma {:induction false} OneofSays(data: Bytes)
    ensures var raws, r := ScanAll(data).raws, ParseOneofName(data);
            && (r.Ok? <==> ScanAll(data).end.None? && AllText(raws, 1))
            && (r.Ok? ==> r.value == Or(LastBlob(raws, 1), []))
  {
    FoldOneofSays([], ScanAll(data).raws);
    hide AllText;
  }

  lemma {:induction false} FoldOneofSays(name: Name, raws: seq<Raw>)
    ensures var r := Fold(OneofNameStep, name, raws);
            (r.Ok? <==> AllText(raws, 1)) && (r.Ok? ==> r.value == Or(LastBlob(raws, 1), name))
    decreases |raws|
  {
    if raws != [] {
      AllTextHead(raws, 1);
      if OneofNameStep(name, raws[0].rec).Ok? {
        FoldOneofSays(OneofNameStep(name, raws[0].rec).value, raws[1..]);
      }
      hide AllText, ValidUtf8;
    }
  }

  /** The map entries among the payloads numbered 3, by name; of two with one name the later. */
  function EntriesIn(raws: seq<Raw>): map<Name, MapEntry> {
    if raws == [] then map[] else EntryIn(raws[0].rec) + EntriesIn(raws[1..])
  }

  function EntryIn(rec: Record): map<Name, MapEntry> {
    if rec.number == 3 && rec.payload.PLen? && ParseNested(rec.payload.data).Ok?
       && EntryOf(ParseNested(rec.payload.data).value).Some?
    then map[ParseNested(rec.payload.data).value.name := EntryOf(ParseNested(rec.payload.data).value).value]
    else map[]
  }

  /** A record a message can be made of. */
  predicate FitsMessage(rec: Record) {
    rec.payload.PLen? ==>
      var data := rec.payload.data;
      && (rec.number == 1 ==> ValidUtf8(data)) && (rec.number == 2 ==> ParseRawField(data).Ok?)
      && (rec.number == 3 ==> ParseNested(data).Ok?) && (rec.number == 8 ==> ParseOneofName(data).Ok?)
  }

  predicate AllFitMessage(raws: seq<Raw>) {
    forall i :: 0 <= i < |raws| ==> FitsMessage(raws[i].rec)
  }

  lemma {:induction false} AllFitMessageHead(raws: seq<Raw>)
    requires raws != []
    ensures AllFitMessage(raws) <==> FitsMessage(raws[0].rec) && AllFitMessage(raws[1..])
  {
    hide FitsMessage;
    assert raws == [raws[0]] + raws[1..];
  }

  lemma {:induction false} DraftStepSays(d: Draft, rec: Record)
    ensures var r := DraftStep(d, rec);
            && (r.Ok? <==> FitsMessage(rec))
            && (r.Ok? ==> r.value.name == Or(Blob(rec, 1), d.name) && r.value.entries == d.entries + EntryIn(rec))
  {
    hide ParseRawField, ParseNested, ParseOneofName, ValidUtf8, EntryOf;
    assert d.entries + map[] == d.entries;
  }

  lemma {:induction false} FoldDraftSays(d: Draft, raws: seq<Raw>)
    ensures var r := Fold(DraftStep, d, raws);
            && (r.Ok? <==> AllFitMessage(raws))
            && (r.Ok? ==>
                  && r.value.name == Or(LastBlob(raws, 1), d.name)
                  && r.value.entries == d.entries + EntriesIn(raws))
    decreases |raws|
  {
    hide ParseRawField, ParseNested, ParseOneofName, EntryOf, ValidUtf8;
    if raws == [] {
      assert d.entries + map[] == d.entries;
    } else {
      AllFitMessageHead(raws);
      DraftStepSays(d, raws[0].rec);
      LastHead(raws, 1);
      MoreEntries(d.entries, raws);
      hide AllFitMessage, DraftStep, FitsMessage, EntryIn, EntriesIn, LastBlob;
      var next := DraftStep(d, raws[0].rec);
      if next.Ok? {
        FoldDraftSays(next.value, raws[1..]);
      }
    }
  }

  lemma {:induction false} MoreEntries(entries: map<Name, MapEntry>, raws: seq<Raw>)
    requires raws != []
    ensures entries + EntriesIn(raws) == (entries + EntryIn(raws[0].rec)) + EntriesIn(raws[1..])
  {
    hide EntryIn;
  }

  /** The field a payload declares, next to these entries in this message. */
  function FieldOf(data: Bytes, entries: map<Name, MapEntry>, message: Name): Parsed<FieldDescriptor> {
    match ParseRawField(data)
    case Err(e) => Err(e)
    case Ok(raw) => Interpret(raw, entries, message)
  }

  predicate AllInterpreted(fields: seq<Bytes>, entries: map<Name, MapEntry>, message: Name) {
    forall i :: 0 <= i < |fields| ==> FieldOf(fields[i], entries, message).Ok?
  }

  /** Number 1 is the name, 2 a field, 3 a nested type, 8 a oneof.  Every field is what its payload
      declares next to the entry types of the message, in no oneof if the index points nowhere. */
  lemma {:induction false} MessageSays(data: Bytes)
    ensures var raws, r := ScanAll(data).raws, ParseMessage(data);
            var fields, entries, name := Blobs(raws, 2), EntriesIn(raws), Or(LastBlob(raws, 1), []);
            && (r.Ok? <==> ScanAll(data).end.None? && AllFitMessage(raws) && AllInterpreted(fields, entries, name))
            && (r.Ok? ==>
                  && r.value.name == name && |r.value.fields| == |fields|
                  && forall i :: 0 <= i < |fields| ==>
                       var f := FieldOf(fields[i], entries, name);
                       && f.Ok?
                       && r.value.fields[i] == f.value.(oneofIndex :=
                            if f.value.oneofIndex.Some? && f.value.oneofIndex.value < |r.value.oneofs|
                            then f.value.oneofIndex else None))
  {
    var raws := ScanAll(data).raws;
    FoldDraftSays(NO_MESSAGE, raws);
    FoldCollects(NO_MESSAGE, raws);
    assert map[] + EntriesIn(raws) == EntriesIn(raws);
    var d := Fold(DraftStep, NO_MESSAGE, raws);
    if d.Ok? {
      FieldsInterpreted(d.value.raws, Blobs(raws, 2), d.value.entries, d.value.name);
    }
    hide DraftStep, AllFitMessage, AllInterpreted, EntriesIn, LastBlob, InterpretAll, FieldOf;
  }

  lemma {:induction false} FieldsInterpreted(raws: seq<RawField>, fields: seq<Bytes>, entries: map<Name, MapEntry>,
      message: Name)
    requires |raws| == |fields| && forall i :: 0 <= i < |raws| ==> Ok(raws[i]) == ParseRawField(fields[i])
    ensures var r := InterpretAll(raws, entries, message);
            && (r.Ok? <==> AllInterpreted(fields, entries, message))
            && (r.Ok? ==> forall i :: 0 <= i < |raws| ==> FieldOf(fields[i], entries, message) == Ok(r.value[i]))
    decreases |raws|
  {
    if raws != [] {
      assert FieldOf(fields[0], entries, message) == Interpret(raws[0], entries, message) by {
        hide Interpret, ParseRawField;
      }
      hide Interpret, ParseRawField, FieldOf, AllInterpreted;
      FieldsInterpreted(raws[1..], fields[1..], entries, message);
      AllInterpretedHead(fields, entries, message);
    }
  }

  lemma {:induction false} AllInterpretedHead(fields: seq<Bytes>, entries: map<Name, MapEntry>, message: Name)
    requires fields != []
    ensures AllInterpreted(fields, entries, message)
       <==> FieldOf(fields[0], entries, message).Ok? && AllInterpreted(fields[1..], entries, message)
  {
    hide FieldOf;
    assert fields == [fields[0]] + fields[1..];
  }
}
