/** The compiled description of a message that the encoder and the decoder walk over. */
module Descriptors {
  import opened Basics
  import opened Wire

  /** Maximum message nesting followed on encode and decode. */
  const MAX_DEPTH: nat := 100

  /** Names are kept in their UTF-8 form. */
  type Name = Bytes

  datatype ScalarType =
    | Double | Float
    | Int32 | Int64 | UInt32 | UInt64 | SInt32 | SInt64
    | Fixed32 | Fixed64 | SFixed32 | SFixed64
    | Bool | String | Bytes
  {
    function Wire(): WireType {
      match this
      case Double => I64
      case Fixed64 => I64
      case SFixed64 => I64
      case Float => I32
      case Fixed32 => I32
      case SFixed32 => I32
      case String => Len
      case Bytes => Len
      case _ => Varint
    }

    predicate Packable() {
      !String? && !Bytes?
    }
  }

  datatype Label = Single | Optional | Repeated

  /** What one value is: a field's value, a list element or a map value. */
  datatype ValueKind =
    | Scalar(scalar: ScalarType)
    | Enum
    | Message
    | Timestamp
    | Duration
  {
    function Wire(): WireType {
      match this
      case Scalar(s) => s.Wire()
      case Enum => Varint
      case _ => Len
    }

    /** Repeated values of this kind are packed into one length-delimited record. */
    predicate Packable() {
      match this
      case Scalar(s) => s.Packable()
      case Enum => true
      case _ => false
    }
  }

  datatype FieldKind = Plain(value: ValueKind) | Map(key: ScalarType, value: ValueKind)

  datatype FieldDescriptor = FieldDescriptor(
    number: nat,
    name: Name,
    kind: FieldKind,
    cardinality: Label,
    typeName: Option<Name>,
    oneofIndex: Option<nat>)
  {
    /** The oneof group this field competes in when it is set. */
    function Group(): Option<nat> {
      if cardinality == Optional then oneofIndex else None
    }

    /** The decoder keeps an accumulator for this field from the start. */
    predicate Collection() {
      kind.Map? || cardinality == Repeated
    }

    /** The wire types the decoder takes for this field; the rest is unknown data. */
    predicate Accepts(wire: WireType) {
      if kind.Map? then wire == Len
      else wire == kind.value.Wire() || (cardinality == Repeated && kind.value.Packable() && wire == Len)
    }
  }

  datatype MessageDescriptor = MessageDescriptor(
    name: Name,
    fields: seq<FieldDescriptor>,
    oneofs: seq<Name>)

  /** What every parsed descriptor guarantees about a field. */
  predicate WellFormedField(f: FieldDescriptor, groups: nat) {
    && IsU32(f.number)
    && (f.oneofIndex.Some? ==> f.oneofIndex.value < groups)
    && (f.kind.Map? ==> f.cardinality == Single)
    && (f.cardinality == Single ==> f.oneofIndex.None?)
    && (f.cardinality == Single && f.kind.Plain? ==> f.kind.value.Scalar? || f.kind.value.Enum?)
  }

  predicate WellFormed(d: MessageDescriptor) {
    forall i :: 0 <= i < |d.fields| ==> WellFormedField(d.fields[i], |d.oneofs|)
  }

  /** The reference lookup: the first field with this number at or after index `i`. */
  function LookupFrom(fields: seq<FieldDescriptor>, number: nat, i: nat): (r: Option<nat>)
    requires i <= |fields|
    ensures r.Some? ==> i <= r.value < |fields| && fields[r.value].number == number
    ensures r.Some? ==> forall j :: i <= j < r.value ==> fields[j].number != number
    ensures r.None? ==> forall j :: i <= j < |fields| ==> fields[j].number != number
    decreases |fields| - i
  {
    if i == |fields| then None
    else if fields[i].number == number then Some(i)
    else LookupFrom(fields, number, i + 1)
  }

  function Lookup(fields: seq<FieldDescriptor>, number: nat): (r: Option<nat>)
    ensures r.Some? ==> r.value < |fields| && fields[r.value].number == number
    ensures r.Some? ==> forall j :: 0 <= j < r.value ==> fields[j].number != number
    ensures r.None? ==> forall j :: 0 <= j < |fields| ==> fields[j].number != number
  {
    LookupFrom(fields, number, 0)
  }

  /** The field that consumes a record, if the schema accepts it. */
  function Route(d: MessageDescriptor, rec: Record): (r: Option<nat>)
    ensures r.Some? ==> r.value < |d.fields|
  {
    match Lookup(d.fields, rec.number)
    case None => None
    case Some(idx) => if d.fields[idx].Accepts(rec.payload.Wire()) then Some(idx) else None
  }
}
