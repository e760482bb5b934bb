/**
 What encoding a message means: a compositional encoder that turns fields into records
 and writes nested messages as separate byte strings.  `Encoder` holds the in-place one.
 */
module Encoding {
  import opened Basics
  import opened Wire
  import opened Records
  import opened Descriptors
  import opened WellKnown
  import opened Utf8
  import opened Values

  function Int(v: Value, fits: int -> bool): (r: Outcome<int>)
    ensures r.Ok? <==> v.Num? && fits(v.n)
    ensures r.Ok? ==> v == Num(r.value)
  {
    if !v.Num? then Err(WrongType) else if fits(v.n) then Ok(v.n) else Err(Overflow)
  }

  /** A length as the writer casts it; no Python object reaches the limit. */
  function Sized(data: Bytes): Outcome<Payload> {
    if IsU64(|data|) then Ok(PLen(data)) else Err(Overflow)
  }

  /** The payload of one scalar value, or why the value does not fit its type. */
  function EncodeScalar(s: ScalarType, v: Value): Outcome<Payload> {
    match s
    case Int32 => (var n :- Int(v, IsI32); Ok(PVarint(AsU64(n))))
    case Int64 => (var n :- Int(v, IsI64); Ok(PVarint(AsU64(n))))
    case UInt32 => (var n :- Int(v, IsU32); Ok(PVarint(n)))
    case UInt64 => (var n :- Int(v, IsU64); Ok(PVarint(n)))
    case SInt32 => (var n :- Int(v, IsI32); Ok(PVarint(ZigzagEncode32(n))))
    case SInt64 => (var n :- Int(v, IsI64); Ok(PVarint(ZigzagEncode64(n))))
    case Fixed32 => (var n :- Int(v, IsU32); Ok(PI32(n)))
    case SFixed32 => (var n :- Int(v, IsI32); Ok(PI32(AsU32(n))))
    case Fixed64 => (var n :- Int(v, IsU64); Ok(PI64(n)))
    case SFixed64 => (var n :- Int(v, IsI64); Ok(PI64(AsU64(n))))
    case Float => if !v.Real? then Err(WrongType) else if IsU32(v.bits) then Ok(PI32(v.bits)) else Err(Overflow)
    case Double => if !v.Real? then Err(WrongType) else if IsU64(v.bits) then Ok(PI64(v.bits)) else Err(Overflow)
    case Bool => if !v.Flag? then Err(WrongType) else Ok(PVarint(if v.b then 1 else 0))
    case String => if !v.Text? then Err(WrongType) else if ValidUtf8(v.utf8) then Sized(v.utf8) else Err(InvalidText)
    case Bytes => if !v.Blob? then Err(WrongType) else Sized(v.bytes)
  }

  /** The payload of one value; a nested message one level deeper. */
  function EncodeValue(W: World, kind: ValueKind, v: Value, depth: nat): Outcome<Payload>
    requires depth <= MAX_DEPTH
    decreases MAX_DEPTH + 1 - depth, 0, 0
  {
    match kind
    case Scalar(s) => EncodeScalar(s, v)
    case Enum => (var n :- Int(v, IsI32); Ok(PVarint(AsU64(n))))
    case Message =>
      if !v.Nested? then Err(NotAMessage)
      else (var data :- EncodeMessage(W, v.m, depth + 1); Ok(PLen(data)))
    case Timestamp =>
      if !v.Instant? then Err(WrongType) else Ok(PLen(WriteAll(EncodeParts(InstantToParts(v.micros)))))
    case Duration =>
      if !v.Span? then Err(WrongType)
      else
        match SpanToParts(v.micros)
        case Err(e) => Err(BadTime(e))
        case Ok(p) => Ok(PLen(WriteAll(EncodeParts(p))))
  }

  /** The concatenated payloads of packable values. */
  function EncodePacked(W: World, kind: ValueKind, vs: seq<Value>, depth: nat): Outcome<Bytes>
    requires depth <= MAX_DEPTH
    decreases MAX_DEPTH + 1 - depth, 1, |vs|
  {
    if vs == [] then Ok([])
    else
      var p :- EncodeValue(W, kind, vs[0], depth);
      var rest :- EncodePacked(W, kind, vs[1..], depth);
      Ok(p.Bytes() + rest)
  }

  /** One record per value. */
  function EncodeEach(W: World, number: nat, kind: ValueKind, vs: seq<Value>, depth: nat): Outcome<seq<Record>>
    requires depth <= MAX_DEPTH
    decreases MAX_DEPTH + 1 - depth, 1, |vs|
  {
    if vs == [] then Ok([])
    else
      var p :- EncodeValue(W, kind, vs[0], depth);
      var rest :- EncodeEach(W, number, kind, vs[1..], depth);
      Ok([Record(number, p)] + rest)
  }

  lemma {:induction false} EachOfOne(W: World, number: nat, kind: ValueKind, v: Value, depth: nat)
    requires depth <= MAX_DEPTH
    ensures var r, p := EncodeEach(W, number, kind, [v], depth), EncodeValue(W, kind, v, depth);
            if p.Ok? then r == Ok([Record(number, p.value)]) else r == Err(p.error)
  {
    assert [v][1..] == [];
    assert EncodeEach(W, number, kind, [], depth) == Ok([]);
    var p := EncodeValue(W, kind, v, depth);
    assert p.Ok? ==> [Record(number, p.value)] + [] == [Record(number, p.value)];
  }

  /** The entry message of one key-value pair: both fields always present. */
  function EncodeEntry(W: World, key: ScalarType, value: ValueKind, e: Pair, depth: nat): Outcome<Bytes>
    requires depth <= MAX_DEPTH
    decreases MAX_DEPTH + 1 - depth, 1, 0
  {
    var k :- EncodeScalar(key, e.key);
    var v :- EncodeValue(W, value, e.value, depth);
    Ok(WriteAll([Record(1, k), Record(2, v)]))
  }

  function EncodeEntries(W: World, number: nat, key: ScalarType, value: ValueKind, es: seq<Pair>, depth: nat)
    : Outcome<seq<Record>>
    requires depth <= MAX_DEPTH
    decreases MAX_DEPTH + 1 - depth, 2, |es|
  {
    if es == [] then Ok([])
    else
      var data :- EncodeEntry(W, key, value, es[0], depth);
      var rest :- EncodeEntries(W, number, key, value, es[1..], depth);
      Ok([Record(number, PLen(data))] + rest)
  }

  /** The records of one field. */
  function EncodeField(W: World, f: FieldDescriptor, slot: Slot, depth: nat): Outcome<seq<Record>>
    requires depth <= MAX_DEPTH
    decreases MAX_DEPTH + 1 - depth, 3, 0
  {
    match f.kind
    case Map(key, value) =>
      if !slot.Dict? then Err(WrongType) else EncodeEntries(W, f.number, key, value, slot.entries, depth)
    case Plain(kind) =>
      match f.cardinality
      case Repeated =>
        if !slot.Many? then Err(WrongType)
        else if kind.Packable() then
          var data :- EncodePacked(W, kind, slot.vs, depth);
          Ok(if data == [] then [] else [Record(f.number, PLen(data))])
        else EncodeEach(W, f.number, kind, slot.vs, depth)
      case Optional =>
        if slot.Unset? then Ok([])
        else if !slot.One? then Err(WrongType)
        else EncodeEach(W, f.number, kind, [slot.v], depth)
      case Single =>
        if !slot.One? then Err(WrongType)
        else
          var recs :- EncodeEach(W, f.number, kind, [slot.v], depth);
          Ok(if slot.v == ZeroOf(kind) then [] else recs)
  }

  /** The records of the fields from index `i` on. */
  function EncodeFields(W: World, fields: seq<FieldDescriptor>, slots: seq<Slot>, i: nat, depth: nat)
    : Outcome<seq<Record>>
    requires depth <= MAX_DEPTH && i <= |fields| == |slots|
    decreases MAX_DEPTH + 1 - depth, 4, |fields| - i
  {
    if i == |fields| then Ok([])
    else
      var here :- EncodeField(W, fields[i], slots[i], depth);
      var rest :- EncodeFields(W, fields, slots, i + 1, depth);
      Ok(here + rest)
  }

  /** Set members of a oneof group among the fields below index `i`, in a counter that
      stops at 255. */
  function OneofCount(fields: seq<FieldDescriptor>, slots: seq<Slot>, group: nat, i: nat): (n: nat)
    requires i <= |fields| == |slots|
    ensures n <= 255
  {
    if i == 0 then 0
    else
      var n := OneofCount(fields, slots, group, i - 1);
      if fields[i - 1].Group() == Some(group) && !slots[i - 1].Unset? && n < 255 then n + 1 else n
  }

  /** The first group at or after `group` with more than one member set. */
  function OneofCheck(d: MessageDescriptor, slots: seq<Slot>, group: nat): Option<CodecError>
    requires group <= |d.oneofs| && |slots| == |d.fields|
    decreases |d.oneofs| - group
  {
    if group == |d.oneofs| then None
    else
      var n := OneofCount(d.fields, slots, group, |d.fields|);
      if n > 1 then Some(OneofConflict(d.oneofs[group], n)) else OneofCheck(d, slots, group + 1)
  }

  function EncodeMessage(W: World, m: Msg, depth: nat): Outcome<Bytes>
    requires depth <= MAX_DEPTH + 1
    decreases MAX_DEPTH + 1 - depth, 5, 0
  {
    if depth > MAX_DEPTH then Err(NestingTooDeep)
    else if m.cls !in W || |m.slots| != |W[m.cls].desc.fields| then Err(NotAMessage)
    else
      var d := W[m.cls].desc;
      var recs :- EncodeFields(W, d.fields, m.slots, 0, depth);
      match OneofCheck(d, m.slots, 0)
      case Some(e) => Err(e)
      case None => Ok(WriteAll(recs) + m.unknown)
  }
}
