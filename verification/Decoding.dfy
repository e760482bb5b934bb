/**
 What decoding a message means: records are routed to fields, each accepted record
 contributes something to its field, everything else is kept as unknown bytes.
 `Decoder` holds the loop that does it step by step.
 */
module Decoding {
  import opened Basics
  import opened Wire
  import opened Records
  import opened Descriptors
  import opened WellKnown
  import opened Utf8
  import opened Values

  // ---------------------------------------------------------- single values

  /** The value of one scalar payload of the scalar's own wire type. */
  function DecodeScalar(s: ScalarType, p: Payload): Outcome<Value>
    requires p.Wire() == s.Wire()
  {
    match s
    case Int32 => Ok(Num(AsI32(p.v)))
    case Int64 => Ok(Num(AsI64(p.v)))
    case UInt32 => Ok(Num(AsU32(p.v)))
    case UInt64 => Ok(Num(p.v))
    case SInt32 => Ok(Num(ZigzagDecode32(AsU32(p.v))))
    case SInt64 => Ok(Num(ZigzagDecode64(AsU64(p.v))))
    case Bool => Ok(Flag(p.v != 0))
    case Fixed32 => Ok(Num(p.v))
    case SFixed32 => Ok(Num(AsI32(p.v)))
    case Float => Ok(Real(p.v))
    case Fixed64 => Ok(Num(p.v))
    case SFixed64 => Ok(Num(AsI64(p.v)))
    case Double => Ok(Real(p.v))
    case String => if ValidUtf8(p.data) then Ok(Text(p.data)) else Err(InvalidText)
    case Bytes => Ok(Blob(p.data))
  }

  function DecodeInstant(data: Bytes): Outcome<Value> {
    match DecodeParts(data)
    case Err(e) => Err(Malformed(e))
    case Ok(parts) =>
      match PartsToInstant(parts)
      case Err(e) => Err(BadTime(e))
      case Ok(us) => Ok(Instant(us))
  }

  function DecodeSpan(data: Bytes): Outcome<Value> {
    match DecodeParts(data)
    case Err(e) => Err(Malformed(e))
    case Ok(parts) =>
      match PartsToSpan(parts)
      case Err(e) => Err(BadTime(e))
      case Ok(us) => Ok(Span(us))
  }

  /** A nested message, one level deeper, through the class its field is linked to. */
  function DecodeLinked(W: World, link: Option<Target>, data: Bytes, depth: nat): Outcome<Value>
    requires depth <= MAX_DEPTH
    decreases MAX_DEPTH + 1 - depth, 0, 0
  {
    match link
    case None => Err(NotLinked)
    case Some(EnumClass) => Err(NotAMessage)
    case Some(MessageClass(cls)) =>
      var m :- DecodeMessage(W, cls, data, depth + 1);
      Ok(Nested(m))
  }

  function DecodeValue(W: World, link: Option<Target>, kind: ValueKind, p: Payload, depth: nat): Outcome<Value>
    requires p.Wire() == kind.Wire() && depth <= MAX_DEPTH
    decreases MAX_DEPTH + 1 - depth, 1, 0
  {
    match kind
    case Scalar(s) => DecodeScalar(s, p)
    case Enum => Ok(Num(AsI32(p.v)))
    case Message => DecodeLinked(W, link, p.data, depth)
    case Timestamp => DecodeInstant(p.data)
    case Duration => DecodeSpan(p.data)
  }

  /** What a value decodes to when its bytes are missing from a map entry. */
  function MissingValue(W: World, link: Option<Target>, kind: ValueKind, depth: nat): Outcome<Value>
    requires depth <= MAX_DEPTH
    decreases MAX_DEPTH + 1 - depth, 1, 0
  {
    match kind
    case Scalar(s) => Ok(ZeroScalar(s))
    case Enum => Ok(Num(0))
    case Message => DecodeLinked(W, link, [], depth)
    case Timestamp => Ok(Instant(0))
    case Duration => Ok(Span(0))
  }

  /** The values of a packed record. */
  function DecodePacked(kind: ValueKind, data: Bytes): Outcome<seq<Value>>
    requires kind.Packable()
    decreases |data|
  {
    if data == [] then Ok([])
    else
      match ReadPayload(kind.Wire(), data)
      case Bad(e) => Err(Malformed(e))
      case Got(p, n) =>
        var v :- if kind.Enum? then Ok(Num(AsI32(p.v))) else DecodeScalar(kind.scalar, p);
        var rest :- DecodePacked(kind, data[n..]);
        Ok([v] + rest)
  }

  // ------------------------------------------------------------ map entries

  datatype EntryState = EntryState(key: Option<Value>, value: Option<Value>)

  function EntryStep(W: World, link: Option<Target>, key: ScalarType, kind: ValueKind, st: EntryState,
      rec: Record, depth: nat)
    : Outcome<EntryState>
    requires depth <= MAX_DEPTH
    decreases MAX_DEPTH + 1 - depth, 2, 0
  {
    if rec.number == 1 && rec.payload.Wire() == key.Wire() then
      var k :- DecodeScalar(key, rec.payload);
      Ok(st.(key := Some(k)))
    else if rec.number == 2 && rec.payload.Wire() == kind.Wire() then
      var v :- DecodeValue(W, link, kind, rec.payload, depth);
      Ok(st.(value := Some(v)))
    else Ok(st)
  }

  function EntryFold(W: World, link: Option<Target>, key: ScalarType, kind: ValueKind, st: EntryState,
      raws: seq<Raw>, depth: nat)
    : Outcome<EntryState>
    requires depth <= MAX_DEPTH
    decreases MAX_DEPTH + 1 - depth, 3, |raws|
  {
    if raws == [] then Ok(st)
    else
      var next :- EntryStep(W, link, key, kind, st, raws[0].rec, depth);
      EntryFold(W, link, key, kind, next, raws[1..], depth)
  }

  function FinishEntry(W: World, link: Option<Target>, key: ScalarType, kind: ValueKind, st: EntryState, depth: nat)
    : Outcome<Pair>
    requires depth <= MAX_DEPTH
    decreases MAX_DEPTH + 1 - depth, 2, 0
  {
    var k := if st.key.Some? then st.key.value else ZeroScalar(key);
    var v :- if st.value.Some? then Ok(st.value.value) else MissingValue(W, link, kind, depth);
    Ok(Pair(k, v))
  }

  /** One key-value pair; a missing half takes its default. */
  function DecodeEntry(W: World, link: Option<Target>, key: ScalarType, kind: ValueKind, data: Bytes, depth: nat)
    : Outcome<Pair>
    requires depth <= MAX_DEPTH
    decreases MAX_DEPTH + 1 - depth, 4, 0
  {
    var scan := ScanAll(data);
    var st :- EntryFold(W, link, key, kind, EntryState(None, None), scan.raws, depth);
    if scan.end.Some? then Err(Malformed(scan.end.value))
    else FinishEntry(W, link, key, kind, st, depth)
  }

  // ----------------------------------------------------------------- fields

  /** What one accepted record adds to its field. */
  datatype Delta =
    | Elements(vs: seq<Value>)
    | Entry(pair: Pair)
    | Whole(v: Value)

  function Contribution(W: World, link: Option<Target>, f: FieldDescriptor, p: Payload, depth: nat): Outcome<Delta>
    requires f.Accepts(p.Wire()) && depth <= MAX_DEPTH
    decreases MAX_DEPTH + 1 - depth, 5, 0
  {
    match f.kind
    case Map(key, kind) =>
      var pair :- DecodeEntry(W, link, key, kind, p.data, depth);
      Ok(Entry(pair))
    case Plain(kind) =>
      if f.cardinality == Repeated && kind.Packable() && p.PLen? then
        var vs :- DecodePacked(kind, p.data);
        Ok(Elements(vs))
      else
        var v :- DecodeValue(W, link, kind, p, depth);
        Ok(if f.cardinality == Repeated then Elements([v]) else Whole(v))
  }

  /** The decoder's working state: one slot per field (`Unset` until a value arrives,
      accumulators from the start), the field occupying each oneof group, and the
      bytes of unknown fields. */
  datatype State = State(slots: seq<Slot>, owner: map<nat, nat>, unknown: Bytes)

  function InitSlot(f: FieldDescriptor): Slot {
    if f.kind.Map? then Dict([]) else if f.cardinality == Repeated then Many([]) else Unset
  }

  function InitSlots(fields: seq<FieldDescriptor>): (slots: seq<Slot>)
    ensures |slots| == |fields|
    ensures forall i :: 0 <= i < |fields| ==> slots[i] == InitSlot(fields[i])
  {
    seq(|fields|, i requires 0 <= i < |fields| => InitSlot(fields[i]))
  }

  function InitState(d: MessageDescriptor): State {
    State(InitSlots(d.fields), map[], [])
  }

  /** A oneof member about to be set clears the group's earlier member. */
  function Claim(f: FieldDescriptor, idx: nat, st: State): (r: State)
    ensures |r.slots| == |st.slots|
  {
    match f.Group()
    case None => st
    case Some(g) =>
      var slots := if g in st.owner && st.owner[g] != idx && st.owner[g] < |st.slots|
                   then st.slots[st.owner[g] := Unset] else st.slots;
      State(slots, st.owner[g := idx], st.unknown)
  }

  /** The slot after a contribution. */
  function Absorb(slot: Slot, delta: Delta): Slot {
    match delta
    case Elements(vs) => if slot.Many? then Many(slot.vs + vs) else Many(vs)
    case Entry(e) => if slot.Dict? then Dict(Put(slot.entries, e.key, e.value)) else Dict([e])
    case Whole(v) => One(v)
  }

  function Apply(d: MessageDescriptor, st: State, idx: nat, delta: Delta): (r: State)
    requires idx < |d.fields| == |st.slots|
    ensures |r.slots| == |st.slots|
  {
    var claimed := Claim(d.fields[idx], idx, st);
    claimed.(slots := claimed.slots[idx := Absorb(claimed.slots[idx], delta)])
  }

  function Step(W: World, C: ClassInfo, st: State, raw: Raw, depth: nat): (r: Outcome<State>)
    requires depth <= MAX_DEPTH && |st.slots| == |C.desc.fields|
    ensures r.Ok? ==> |r.value.slots| == |st.slots|
    decreases MAX_DEPTH + 1 - depth, 6, 0
  {
    match Route(C.desc, raw.rec)
    case None => Ok(st.(unknown := st.unknown + raw.bytes))
    case Some(idx) =>
      var delta :- Contribution(W, C.Link(raw.rec.number), C.desc.fields[idx], raw.rec.payload, depth);
      Ok(Apply(C.desc, st, idx, delta))
  }

  function FoldRecords(W: World, C: ClassInfo, st: State, raws: seq<Raw>, depth: nat): (r: Outcome<State>)
    requires depth <= MAX_DEPTH && |st.slots| == |C.desc.fields|
    ensures r.Ok? ==> |r.value.slots| == |st.slots|
    decreases MAX_DEPTH + 1 - depth, 7, |raws|
  {
    if raws == [] then Ok(st)
    else
      var next :- Step(W, C, st, raws[0], depth);
      FoldRecords(W, C, next, raws[1..], depth)
  }

  /** The record loop: from a state through all records of the input. */
  function Resume(W: World, C: ClassInfo, st: State, data: Bytes, depth: nat): (r: Outcome<State>)
    requires depth <= MAX_DEPTH && |st.slots| == |C.desc.fields|
    ensures r.Ok? ==> |r.value.slots| == |st.slots|
    decreases MAX_DEPTH + 1 - depth, 8, 0
  {
    var scan := ScanAll(data);
    var next :- FoldRecords(W, C, st, scan.raws, depth);
    if scan.end.Some? then Err(Malformed(scan.end.value)) else Ok(next)
  }

  /** The attribute an instance gets: what was decoded, or the proto3 default. */
  function FinishSlot(f: FieldDescriptor, slot: Slot): Slot {
    if slot.Unset? && f.cardinality == Single && f.kind.Plain? then One(ZeroOf(f.kind.value)) else slot
  }

  function FinishSlots(fields: seq<FieldDescriptor>, slots: seq<Slot>): (r: seq<Slot>)
    requires |fields| == |slots|
    ensures |r| == |slots|
    ensures forall i :: 0 <= i < |r| ==> r[i] == FinishSlot(fields[i], slots[i])
  {
    seq(|fields|, i requires 0 <= i < |fields| => FinishSlot(fields[i], slots[i]))
  }

  function DecodeMessage(W: World, cls: ClassId, data: Bytes, depth: nat): Outcome<Msg>
    requires depth <= MAX_DEPTH + 1
    decreases MAX_DEPTH + 1 - depth, 9, 0
  {
    if depth > MAX_DEPTH then Err(NestingTooDeep)
    else if cls !in W then Err(NotAMessage)
    else
      var C := W[cls];
      var st :- Resume(W, C, InitState(C.desc), data, depth);
      Ok(Msg(cls, FinishSlots(C.desc.fields, st.slots), st.unknown))
  }
}
