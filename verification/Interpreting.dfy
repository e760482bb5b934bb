/**
 Descriptors in figures: what the codes, labels and names of a `FieldDescriptorProto` mean,
 and what a map entry has where a half of it is missing.
 */
module Interpreting {
  import opened Basics
  import opened Descriptors
  import opened Parsing

  /** A name spelled in ASCII. */
  function Ascii(s: string): Name
    requires forall i :: 0 <= i < |s| ==> s[i] as int < 128
  {
    seq(|s|, i requires 0 <= i < |s| => s[i] as int)
  }

  function TimestampName(): Name {
    Ascii(".google.protobuf.Timestamp")
  }

  function DurationName(): Name {
    Ascii(".google.protobuf.Duration")
  }

  lemma {:induction false} TimeNames()
    ensures TIMESTAMP_NAME == TimestampName() && DURATION_NAME == DurationName()
  {
  }

  /** Type codes 1 to 9, 12, 13 and 15 to 18 are the scalars, in this order. */
  lemma {:induction false} ScalarCodesAre(code: int)
    ensures ScalarFrom(code) ==
      match code
      case 1 => Some(Double)
      case 2 => Some(Float)
      case 3 => Some(Int64)
      case 4 => Some(UInt64)
      case 5 => Some(Int32)
      case 6 => Some(Fixed64)
      case 7 => Some(Fixed32)
      case 8 => Some(Bool)
      case 9 => Some(String)
      case 12 => Some(ScalarType.Bytes)
      case 13 => Some(UInt32)
      case 15 => Some(SFixed32)
      case 16 => Some(SFixed64)
      case 17 => Some(SInt32)
      case 18 => Some(SInt64)
      case _ => None
  {
  }

  /** What a type code and name stand for: 14 an enum, 11 one of the two times by its exact
      name or else a message, the scalar codes a scalar; anything else is refused. */
  predicate Means(code: int, typeName: Option<Name>, kind: ValueKind) {
    match kind
    case Enum => code == 14
    case Timestamp => code == 11 && typeName == Some(TimestampName())
    case Duration => code == 11 && typeName == Some(DurationName())
    case Message =>
      && code == 11 && typeName != Some(TimestampName())
      && typeName != Some(DurationName())
    case Scalar(s) => ScalarFrom(code) == Some(s)
  }

  lemma {:induction false} KindIsMeant(code: int, typeName: Option<Name>, kind: ValueKind)
    ensures KindOf(code, typeName).Ok? && KindOf(code, typeName).value.0 == kind <==> Means(code, typeName, kind)
    ensures KindOf(code, typeName).Err? ==> KindOf(code, typeName) == Err(UnsupportedType(AsI32(code)))
  {
    TimeNames();
    hide TimestampName, DurationName;
  }

  /** The class of an enum or message is named without the leading dot; times need none. */
  lemma {:induction false} ClassIsNamed(code: int, typeName: Option<Name>)
    requires KindOf(code, typeName).Ok?
    ensures var (kind, linked) := KindOf(code, typeName).value;
            && (kind.Timestamp? || kind.Duration? ==> linked == None)
            && (kind.Enum? || kind.Message? ==>
                  && (linked.Some? <==> typeName.Some?)
                  && (linked.Some? ==>
                        || typeName.value == [46] + linked.value
                        || (typeName.value == linked.value && (linked.value == [] || linked.value[0] != 46))))
  {
    hide ScalarFrom;
    if typeName.Some? && typeName.value != [] && typeName.value[0] == 46 {
      assert typeName.value == [46] + typeName.value[1..];
    }
  }

  /** The field is a list of the messages of an entry type nested in this very message. */
  predicate IsMap(raw: RawField, entries: map<Name, MapEntry>, message: Name) {
    && raw.cardinality == 3 && raw.typeCode == Some(11) && raw.typeName.Some?
    && Enclosing(raw.typeName.value) == Some(message) && ShortName(raw.typeName.value) in entries
  }

  /** Interpretation in figures.  Label 3 makes a field accumulate, as a map if it refers to an
      entry type; presence comes with the `optional` flag, with a message or time, or with a
      real oneof, which a flagged field is never in. */
  lemma {:induction false} InterpretedField(raw: RawField, entries: map<Name, MapEntry>, message: Name)
    ensures raw.typeCode.None? ==> Interpret(raw, entries, message) == Err(MissingType)
    ensures raw.typeCode == Some(10) ==> Interpret(raw, entries, message) == Err(UnsupportedType(10))
    ensures raw.typeCode.Some? ==>
      var r := Interpret(raw, entries, message);
      && (r.Ok? <==> exists kind :: Means(raw.typeCode.value, raw.typeName, kind))
      && (r.Ok? ==>
            var f := r.value;
            && f.number == raw.number && f.name == raw.name
            && (f.Collection() <==> raw.cardinality == 3)
            && (f.kind.Map? <==> IsMap(raw, entries, message))
            && (f.kind.Map? ==>
                  var entry := entries[ShortName(raw.typeName.value)];
                  && f.kind == Map(entry.key, entry.value) && f.typeName == entry.valueTypeName
                  && f.cardinality == Single && f.oneofIndex == None)
            && (f.kind.Plain? ==>
                  && Means(raw.typeCode.value, raw.typeName, f.kind.value)
                  && f.oneofIndex == (if raw.proto3Optional then None else raw.oneofIndex)
                  && (f.cardinality == Optional <==>
                        raw.cardinality != 3
                        && (raw.proto3Optional || raw.oneofIndex.Some?
                            || f.kind.value.Message? || f.kind.value.Timestamp? || f.kind.value.Duration?))
                  && (f.kind.value.Scalar? ==> f.typeName == None)
                  && (!f.kind.value.Scalar? ==>
                        f.typeName == KindOf(raw.typeCode.value, raw.typeName).value.1)))
  {
    if raw.typeCode.Some? {
      var code := raw.typeCode.value;
      ScalarCodesAre(10);
      ScalarCodesAre(11);
      var k := KindOf(code, raw.typeName);
      if k.Ok? {
        KindIsMeant(code, raw.typeName, k.value.0);
      }
      forall kind
        ensures k.Ok? && k.value.0 == kind <==> Means(code, raw.typeName, kind)
      {
        KindIsMeant(code, raw.typeName, kind);
      }
      hide Means, ScalarFrom, FullName;
    }
  }

  // -------------------------------------------------------------------- map entries

  /** A nested type is a map entry exactly if its options say so; a missing half is a string. */
  lemma {:induction false} EntryHalves(n: Nested)
    ensures EntryOf(n).Some? <==> n.isMapEntry
    ensures n.isMapEntry ==>
      var e := EntryOf(n).value;
      && (n.key.Some? ==> n.key == Some(e.key)) && (n.key.None? ==> e.key == String)
      && (n.value.Some? ==> n.value == Some((e.value, e.valueTypeName)))
      && (n.value.None? ==> e.value == Scalar(String) && e.valueTypeName == None)
  {
  }
}
