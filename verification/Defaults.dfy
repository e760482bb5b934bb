/**
 What stands for nothing: the proto3 default of a field is the value whose payload is all
 zeros, on the way out, on the way in, inside map entries and in generated classes.
 */
module Defaults {
  import opened Basics
  import opened Wire
  import opened Records
  import opened Descriptors
  import opened WellKnown
  import opened Values
  import opened Encoding
  import opened Decoding
  import opened Typing
  import opened RoundTrip
  import opened Meaning
  import opened Construction

  /** The payload of this wire type that says nothing: zero, or no bytes. */
  function ZeroPayload(wire: WireType): (p: Payload)
    ensures p.Wire() == wire && p.Valid()
  {
    match wire
    case Varint => PVarint(0)
    case I64 => PI64(0)
    case I32 => PI32(0)
    case Len => PLen([])
  }

  /** The implicit default of a scalar or enum is the one value with the zero payload. */
  lemma {:induction false} ZeroIsZeroPayload(W: World, link: Option<Target>, kind: ValueKind, v: Value, depth: nat)
    requires depth <= MAX_DEPTH && (kind.Scalar? || kind.Enum?) && ValueTyped(W, link, kind, v)
    ensures v == ZeroOf(kind) <==> EncodeValue(W, kind, v, depth) == Ok(ZeroPayload(kind.Wire()))
  {
    if kind.Scalar? {
      ScalarZero(kind.scalar, v);
    }
  }

  lemma {:induction false} ScalarZero(s: ScalarType, v: Value)
    requires ScalarTyped(s, v)
    ensures v == ZeroScalar(s) <==> EncodeScalar(s, v) == Ok(ZeroPayload(s.Wire()))
  {
    ScalarOnTheWire(s, v);
    if v.Num? {
      Unzigzagged(v.n);
    }
  }

  /** A singular field without presence writes nothing exactly for that value, and one record
      with its payload otherwise. */
  lemma {:induction false} SingleIsWritten(W: World, link: Option<Target>, f: FieldDescriptor, v: Value, depth: nat)
    requires depth <= MAX_DEPTH && f.kind.Plain? && f.cardinality == Single
    requires (f.kind.value.Scalar? || f.kind.value.Enum?) && ValueTyped(W, link, f.kind.value, v)
    ensures var p := EncodeValue(W, f.kind.value, v, depth);
            p.Ok? && EncodeField(W, f, One(v), depth)
                     == Ok(if p.value == ZeroPayload(f.kind.value.Wire()) then [] else [Record(f.number, p.value)])
  {
    ZeroIsZeroPayload(W, link, f.kind.value, v, depth);
    if f.kind.value.Scalar? {
      ScalarOnTheWire(f.kind.value.scalar, v);
    }
    hide EncodeValue, ZeroOf;
    EachOfOne(W, f.number, f.kind.value, v, depth);
  }

  // --------------------------------------------------------------------- decoding

  /** What stands in for a missing value of an entry is what the zero payload decodes to,
      errors included. */
  lemma {:induction false} MissingIsZeroPayload(W: World, link: Option<Target>, kind: ValueKind, depth: nat)
    requires depth <= MAX_DEPTH
    ensures MissingValue(W, link, kind, depth) == DecodeValue(W, link, kind, ZeroPayload(kind.Wire()), depth)
  {
    match kind
    case Scalar(s) => ScalarFromZero(s);
    case Timestamp => PartsToInstantZero();
    case Duration => PartsToInstantZero();
    case _ =>
  }

  lemma {:induction false} ScalarFromZero(s: ScalarType)
    ensures DecodeScalar(s, ZeroPayload(s.Wire())) == Ok(ZeroScalar(s))
  {
  }

  lemma {:induction false} PartsToInstantZero()
    ensures DecodeInstant([]) == Ok(Instant(0)) && DecodeSpan([]) == Ok(Span(0))
  {
    assert Fold(PartsStep, Parts(0, 0), []) == Ok(Parts(0, 0));
    assert DecodeParts([]) == Ok(Parts(0, 0));
  }

  /** The attribute of a field of which nothing was seen. */
  predicate IsDefault(W: World, f: FieldDescriptor, slot: Slot) {
    if f.kind.Map? then slot == Dict([])
    else
      match f.cardinality
      case Repeated => slot == Many([])
      case Optional => slot == Unset
      case Single => slot.One? && EncodeValue(W, f.kind.value, slot.v, 0) == Ok(ZeroPayload(f.kind.value.Wire()))
  }

  lemma {:induction false} RestIsDefault(W: World, d: MessageDescriptor, i: nat)
    requires WellFormed(d) && i < |d.fields|
    ensures IsDefault(W, d.fields[i], RestSlot(d.fields[i]))
  {
    var f := d.fields[i];
    assert WellFormedField(f, |d.oneofs|);
    if f.kind.Plain? && f.cardinality == Single {
      ZeroIsTyped(f.kind.value);
      ZeroIsZeroPayload(W, None, f.kind.value, ZeroOf(f.kind.value), 0);
    }
  }

  lemma {:induction false} ZeroIsTyped(kind: ValueKind)
    requires kind.Scalar? || kind.Enum?
    ensures forall W, link :: ValueTyped(W, link, kind, ZeroOf(kind))
  {
  }

  /** If no record of the input concerns a field, its attribute is the default. */
  lemma {:induction false} AbsentIsDefault(W: World, cls: ClassId, data: Bytes, i: nat, depth: nat)
    requires WorldOk(W) && depth <= MAX_DEPTH && DecodeMessage(W, cls, data, depth).Ok? && i < |W[cls].desc.fields|
    requires Concerning(W[cls].desc, i, ScanAll(data).raws) == []
    ensures var m := DecodeMessage(W, cls, data, depth).value;
            i < |m.slots| && IsDefault(W, W[cls].desc.fields[i], m.slots[i])
  {
    DecodedMeaning(W, cls, data, depth);
    RestIsDefault(W, W[cls].desc, i);
  }

  /** The empty input is a message all of whose attributes are defaults. */
  lemma {:induction false} EmptyIsDefault(W: World, cls: ClassId, depth: nat)
    requires WorldOk(W) && depth <= MAX_DEPTH && cls in W
    ensures var r := DecodeMessage(W, cls, [], depth);
            && r.Ok? && r.value.cls == cls && r.value.unknown == [] && |r.value.slots| == |W[cls].desc.fields|
            && forall i :: 0 <= i < |r.value.slots| ==> IsDefault(W, W[cls].desc.fields[i], r.value.slots[i])
  {
    var C := W[cls];
    assert FoldRecords(W, C, InitState(C.desc), [], depth) == Ok(InitState(C.desc));
    assert Resume(W, C, InitState(C.desc), [], depth) == Ok(InitState(C.desc));
    var m := DecodeMessage(W, cls, [], depth).value;
    forall i | 0 <= i < |m.slots|
      ensures IsDefault(W, W[cls].desc.fields[i], m.slots[i])
    {
      AbsentIsDefault(W, cls, [], i, depth);
    }
  }

  // ------------------------------------------------------------------- map entries

  /** No record of the entry is its key, or its value. */
  predicate Lacks(number: nat, wire: WireType, raws: seq<Raw>) {
    forall i :: 0 <= i < |raws| ==> raws[i].rec.number != number || raws[i].rec.payload.Wire() != wire
  }

  lemma {:induction false} EntryFoldStep(W: World, link: Option<Target>, key: ScalarType, kind: ValueKind,
      st: EntryState, raws: seq<Raw>, depth: nat)
    requires depth <= MAX_DEPTH
    ensures raws == [] ==> EntryFold(W, link, key, kind, st, raws, depth) == Ok(st)
    ensures raws != [] ==>
      var next := EntryStep(W, link, key, kind, st, raws[0].rec, depth);
      EntryFold(W, link, key, kind, st, raws, depth)
      == if next.Err? then next else EntryFold(W, link, key, kind, next.value, raws[1..], depth)
  {
    hide EntryStep;
  }

  lemma {:induction false} EntryFoldAppend(W: World, link: Option<Target>, key: ScalarType, kind: ValueKind,
      st: EntryState, raws: seq<Raw>, last: Raw, depth: nat)
    requires depth <= MAX_DEPTH
    ensures var r := EntryFold(W, link, key, kind, st, raws, depth);
            EntryFold(W, link, key, kind, st, raws + [last], depth)
            == if r.Err? then r else EntryStep(W, link, key, kind, r.value, last.rec, depth)
    decreases |raws|
  {
    hide *;
    var next := EntryStep(W, link, key, kind, st, (raws + [last])[0].rec, depth);
    EntryFoldStep(W, link, key, kind, st, raws, depth);
    EntryFoldStep(W, link, key, kind, st, raws + [last], depth);
    if raws == [] {
      assert (raws + [last])[1..] == [];
      if next.Ok? {
        EntryFoldStep(W, link, key, kind, next.value, [], depth);
      }
    } else if next.Ok? {
      assert (raws + [last])[1..] == raws[1..] + [last];
      EntryFoldAppend(W, link, key, kind, next.value, raws[1..], last, depth);
    }
  }

  lemma {:induction false} LackedStays(W: World, link: Option<Target>, key: ScalarType, kind: ValueKind,
      st: EntryState, raws: seq<Raw>, depth: nat)
    requires depth <= MAX_DEPTH && EntryFold(W, link, key, kind, st, raws, depth).Ok?
    ensures var r := EntryFold(W, link, key, kind, st, raws, depth).value;
            && (Lacks(1, key.Wire(), raws) ==> r.key == st.key)
            && (Lacks(2, kind.Wire(), raws) ==> r.value == st.value)
    decreases |raws|
  {
    if raws != [] {
      hide DecodeValue, DecodeScalar;
      var next := EntryStep(W, link, key, kind, st, raws[0].rec, depth).value;
      LackedStays(W, link, key, kind, next, raws[1..], depth);
    }
  }

  /** The scan of an entry with one more record behind it. */
  lemma {:induction false} ScanBehind(data: Bytes, rec: Record)
    requires ScanAll(data).end.None? && rec.Valid()
    ensures ScanAll(data + rec.Bytes()) == Scan(ScanAll(data).raws + [Raw(rec, rec.Bytes())], None)
  {
    RecordRoundTrip(rec, []);
    assert rec.Bytes() + [] == rec.Bytes();
    ScanOne(Raw(rec, rec.Bytes()));
    ScanAppend(data, rec.Bytes());
  }

  /** An entry whose records end in this state. */
  lemma {:induction false} EntryEnds(W: World, link: Option<Target>, key: ScalarType, kind: ValueKind, data: Bytes,
      depth: nat)
    requires depth <= MAX_DEPTH && ScanAll(data).end.None?
    ensures var st := EntryFold(W, link, key, kind, EntryState(None, None), ScanAll(data).raws, depth);
            DecodeEntry(W, link, key, kind, data, depth)
            == if st.Err? then Err(st.error) else FinishEntry(W, link, key, kind, st.value, depth)
  {
    hide EntryFold, FinishEntry, ScanAll;
  }

  /** One more record behind a well-formed entry. */
  lemma {:induction false} EntryBehind(W: World, link: Option<Target>, key: ScalarType, kind: ValueKind, data: Bytes,
      rec: Record, depth: nat)
    requires depth <= MAX_DEPTH && ScanAll(data).end.None? && rec.Valid()
    ensures var st := EntryFold(W, link, key, kind, EntryState(None, None), ScanAll(data).raws, depth);
            DecodeEntry(W, link, key, kind, data + rec.Bytes(), depth)
            == if st.Err? then Err(st.error)
               else
                 var next := EntryStep(W, link, key, kind, st.value, rec, depth);
                 if next.Err? then Err(next.error) else FinishEntry(W, link, key, kind, next.value, depth)
  {
    hide EntryFold, EntryStep, FinishEntry, DecodeEntry, ScanAll, Record.Bytes;
    ScanBehind(data, rec);
    EntryFoldAppend(W, link, key, kind, EntryState(None, None), ScanAll(data).raws, Raw(rec, rec.Bytes()), depth);
    EntryEnds(W, link, key, kind, data + rec.Bytes(), depth);
  }

  lemma {:induction false} KeyFromZero(W: World, link: Option<Target>, key: ScalarType, kind: ValueKind,
      st: EntryState, depth: nat)
    requires depth <= MAX_DEPTH && st.key.None?
    ensures var next := EntryStep(W, link, key, kind, st, Record(1, ZeroPayload(key.Wire())), depth);
            next.Ok? && FinishEntry(W, link, key, kind, next.value, depth) == FinishEntry(W, link, key, kind, st, depth)
  {
    ScalarFromZero(key);
    hide DecodeScalar, ZeroScalar, MissingValue, ScalarType.Wire;
  }

  lemma {:induction false} ValueFromZero(W: World, link: Option<Target>, key: ScalarType, kind: ValueKind,
      st: EntryState, depth: nat)
    requires depth <= MAX_DEPTH && st.value.None?
    ensures var next := EntryStep(W, link, key, kind, st, Record(2, ZeroPayload(kind.Wire())), depth);
            FinishEntry(W, link, key, kind, st, depth)
            == if next.Err? then Err(next.error) else FinishEntry(W, link, key, kind, next.value, depth)
  {
    MissingIsZeroPayload(W, link, kind, depth);
    hide DecodeValue, ZeroScalar, MissingValue, ValueKind.Wire;
  }

  /** An entry without a key means what it means with the zero payload written as its key. */
  lemma {:induction false} MissingKey(W: World, link: Option<Target>, key: ScalarType, kind: ValueKind, data: Bytes,
      depth: nat)
    requires depth <= MAX_DEPTH && ScanAll(data).end.None? && Lacks(1, key.Wire(), ScanAll(data).raws)
    ensures var rec := Record(1, ZeroPayload(key.Wire()));
            DecodeEntry(W, link, key, kind, data, depth) == DecodeEntry(W, link, key, kind, data + rec.Bytes(), depth)
  {
    hide EntryFold, EntryStep, FinishEntry, DecodeEntry, ScanAll, Record.Bytes, Lacks;
    var st := EntryFold(W, link, key, kind, EntryState(None, None), ScanAll(data).raws, depth);
    EntryEnds(W, link, key, kind, data, depth);
    EntryBehind(W, link, key, kind, data, Record(1, ZeroPayload(key.Wire())), depth);
    if st.Ok? {
      LackedStays(W, link, key, kind, EntryState(None, None), ScanAll(data).raws, depth);
      KeyFromZero(W, link, key, kind, st.value, depth);
    }
  }

  /** And so does an entry without a value. */
  lemma {:induction false} MissingHalf(W: World, link: Option<Target>, key: ScalarType, kind: ValueKind, data: Bytes,
      depth: nat)
    requires depth <= MAX_DEPTH && ScanAll(data).end.None? && Lacks(2, kind.Wire(), ScanAll(data).raws)
    ensures var rec := Record(2, ZeroPayload(kind.Wire()));
            DecodeEntry(W, link, key, kind, data, depth) == DecodeEntry(W, link, key, kind, data + rec.Bytes(), depth)
  {
    hide EntryFold, EntryStep, FinishEntry, DecodeEntry, ScanAll, Record.Bytes, Lacks;
    var st := EntryFold(W, link, key, kind, EntryState(None, None), ScanAll(data).raws, depth);
    EntryEnds(W, link, key, kind, data, depth);
    EntryBehind(W, link, key, kind, data, Record(2, ZeroPayload(kind.Wire())), depth);
    if st.Ok? {
      LackedStays(W, link, key, kind, EntryState(None, None), ScanAll(data).raws, depth);
      ValueFromZero(W, link, key, kind, st.value, depth);
    }
  }

  // -------------------------------------------------------------- generated classes

  /** The defaults captured for a generated class are these very values. */
  lemma {:induction false} CapturedIsDefault(W: World, py: PyClass, d: MessageDescriptor, nested: set<nat>,
      defaults: seq<Slot>, i: nat)
    requires WellFormed(d) && Generated(py, d, nested) && FastDefaultsAre(py, d, Some(defaults))
    requires i < |d.fields| && !d.fields[i].Collection()
    ensures i < |defaults| && IsDefault(W, d.fields[i], defaults[i])
  {
    GeneratedDefaults(py, d, nested, Some(defaults));
    RestIsDefault(W, d, i);
  }
}
