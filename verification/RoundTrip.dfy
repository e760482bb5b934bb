/** Decoding what was encoded gives the message back. */
module RoundTrip {
  import opened Basics
  import opened Wire
  import opened Records
  import opened Descriptors
  import opened WellKnown
  import opened Utf8
  import opened Values
  import opened Encoding
  import opened Decoding
  import opened Typing

  // ---------------------------------------------------------- single values

  /** The wire form of every scalar in plain arithmetic: signed integers are congruent to
      their value modulo the width of the payload, zigzag interleaves the signs. */
  lemma {:induction false} ScalarOnTheWire(s: ScalarType, v: Value)
    requires ScalarTyped(s, v)
    ensures EncodeScalar(s, v).Ok?
    ensures var p := EncodeScalar(s, v).value;
            && (s.Int32? || s.Int64? || s.UInt32? || s.UInt64? ==> p.PVarint? && IsU64(p.v) && (p.v - v.n) % U64 == 0)
            && (s.SInt32? || s.SInt64? ==> p == PVarint(Zigzag(v.n)))
            && (s.Fixed32? || s.SFixed32? ==> p.PI32? && IsU32(p.v) && (p.v - v.n) % U32 == 0)
            && (s.Fixed64? || s.SFixed64? ==> p.PI64? && IsU64(p.v) && (p.v - v.n) % U64 == 0)
            && (s.Float? ==> p == PI32(v.bits)) && (s.Double? ==> p == PI64(v.bits))
            && (s.Bool? ==> p == PVarint(if v.b then 1 else 0))
            && (s.String? ==> p == PLen(v.utf8)) && (s.Bytes? ==> p == PLen(v.bytes))
  {
    hide ValidUtf8;
    if v.Num? {
      ZigzagEncodes(v.n);
    }
  }

  /** A negative int32 or int64 always takes ten bytes. */
  lemma {:induction false} NegativeTakesTen(n: int)
    requires IsI64(n) && n < 0
    ensures |WriteVarint(AsU64(n))| == 10
  {
    U64FitsTenBytes(AsU64(n));
    AtLeastTen(AsU64(n), 9);
  }

  lemma {:induction false} AtLeastTen(v: nat, k: nat)
    requires v >= Pow128(k)
    ensures |WriteVarint(v)| > k
    decreases k
  {
    if k > 0 {
      assert v / 128 >= Pow128(k - 1) by {
        assert Pow128(k) == 128 * Pow128(k - 1);
      }
      AtLeastTen(v / 128, k - 1);
    }
  }

  lemma {:induction false} ScalarRoundTrip(s: ScalarType, v: Value)
    requires ScalarTyped(s, v)
    ensures EncodeScalar(s, v).Ok?
    ensures var p := EncodeScalar(s, v).value; p.Wire() == s.Wire() && DecodeScalar(s, p) == Ok(v)
  {
    if v.Num? {
      SignExtensionRoundTrip(v.n);
      ZigzagIsBijective(v.n, 0);
      SignExtensionRoundTrip(ZigzagEncode32(v.n));
      SignExtensionRoundTrip(ZigzagEncode64(v.n));
    }
  }

  lemma {:induction false} ValueRoundTrip(W: World, link: Option<Target>, kind: ValueKind, v: Value,
      p: Payload, depth: nat)
    requires WorldOk(W) && depth <= MAX_DEPTH && ValueTyped(W, link, kind, v)
    requires EncodeValue(W, kind, v, depth) == Ok(p) && Fits(p)
    ensures p.Wire() == kind.Wire() && p.Valid() && DecodeValue(W, link, kind, p, depth) == Ok(v)
    decreases MAX_DEPTH + 1 - depth, 0, 1
  {
    EncodedValueShape(W, kind, v, depth);
    match kind
    case Scalar(s) => ScalarRoundTrip(s, v);
    case Enum => SignExtensionRoundTrip(v.n);
    case Message => NestedRoundTrip(W, link, v, p, depth);
    case Timestamp => InstantPayloadRoundTrip(v.micros);
    case Duration => SpanPayloadRoundTrip(v.micros);
  }

  lemma {:induction false} NestedRoundTrip(W: World, link: Option<Target>, v: Value, p: Payload, depth: nat)
    requires WorldOk(W) && depth <= MAX_DEPTH && ValueTyped(W, link, Message, v)
    requires EncodeValue(W, Message, v, depth) == Ok(p) && Fits(p)
    ensures p.PLen? && DecodeLinked(W, link, p.data, depth) == Ok(v)
    decreases MAX_DEPTH + 1 - depth, 0, 0
  {
    MessageRoundTrip(W, v.m, p.data, depth + 1);
  }

  lemma {:induction false} InstantPayloadRoundTrip(us: int)
    requires InstantInRange(us)
    ensures DecodeInstant(WriteAll(EncodeParts(InstantToParts(us)))) == Ok(Instant(us))
  {
    InstantParts(us);
    InstantRoundTrip(us);
    PartsRoundTrip(InstantToParts(us));
  }

  lemma {:induction false} SpanPayloadRoundTrip(us: int)
    requires TimedeltaInRange(us) && SpanToParts(us).Ok?
    ensures DecodeSpan(WriteAll(EncodeParts(SpanToParts(us).value))) == Ok(Span(us))
  {
    SpanParts(us);
    SpanRoundTrip(us);
    PartsRoundTrip(SpanToParts(us).value);
  }

  // ------------------------------------------------------------------ lists

  /** Packed values read back one after the other. */
  lemma {:induction false} PackedRoundTrip(W: World, link: Option<Target>, kind: ValueKind, vs: seq<Value>,
      data: Bytes, depth: nat)
    requires WorldOk(W) && depth <= MAX_DEPTH && kind.Packable() && AllTyped(W, link, kind, vs)
    requires EncodePacked(W, kind, vs, depth) == Ok(data)
    ensures DecodePacked(kind, data) == Ok(vs) && (data == [] <==> vs == [])
    decreases MAX_DEPTH + 1 - depth, 1, |vs|
  {
    if vs != [] {
      var p := EncodeValue(W, kind, vs[0], depth).value;
      var rest := EncodePacked(W, kind, vs[1..], depth).value;
      AllTypedParts(W, link, kind, vs);
      PackableFits(W, kind, vs[0], depth);
      ValueRoundTrip(W, link, kind, vs[0], p, depth);
      PackedRoundTrip(W, link, kind, vs[1..], rest, depth);
      PackedHead(W, link, kind, p, vs[0], rest, vs[1..], depth);
      assert [vs[0]] + vs[1..] == vs;
    }
  }

  lemma {:induction false} AllTypedParts(W: World, link: Option<Target>, kind: ValueKind, vs: seq<Value>)
    requires vs != [] && AllTyped(W, link, kind, vs)
    ensures ValueTyped(W, link, kind, vs[0]) && AllTyped(W, link, kind, vs[1..])
  {
  }

  lemma {:induction false} EntriesTypedParts(W: World, link: Option<Target>, key: ScalarType,
      kind: ValueKind, es: seq<Pair>)
    requires es != [] && EntriesTyped(W, link, key, kind, es)
    ensures PairTyped(W, link, key, kind, es[0]) && EntriesTyped(W, link, key, kind, es[1..])
  {
  }

  lemma {:induction false} PackedHead(W: World, link: Option<Target>, kind: ValueKind, p: Payload, v: Value,
      rest: Bytes, vs: seq<Value>, depth: nat)
    requires depth <= MAX_DEPTH && kind.Packable() && p.Wire() == kind.Wire() && p.Valid()
    requires DecodeValue(W, link, kind, p, depth) == Ok(v) && DecodePacked(kind, rest) == Ok(vs)
    ensures DecodePacked(kind, p.Bytes() + rest) == Ok([v] + vs) && p.Bytes() + rest != []
  {
    PayloadRoundTrip(p, rest);
    PayloadIsNonempty(p);
    assert (p.Bytes() + rest)[|p.Bytes()|..] == rest;
  }

  lemma {:induction false} PackableFits(W: World, kind: ValueKind, v: Value, depth: nat)
    requires depth <= MAX_DEPTH && kind.Packable() && EncodeValue(W, kind, v, depth).Ok?
    ensures Fits(EncodeValue(W, kind, v, depth).value)
  {
    EncodedValueShape(W, kind, v, depth);
    match kind
    case Scalar(s) =>
    case Enum =>
  }

  lemma {:induction false} PayloadIsNonempty(p: Payload)
    ensures p.Bytes() != []
  {
  }

  lemma {:induction false} PackedLength(W: World, kind: ValueKind, vs: seq<Value>, depth: nat)
    requires depth <= MAX_DEPTH && EncodePacked(W, kind, vs, depth).Ok?
    ensures |EncodePacked(W, kind, vs, depth).value| >= |vs|
    decreases |vs|
  {
    if vs != [] {
      PayloadIsNonempty(EncodeValue(W, kind, vs[0], depth).value);
      PackedLength(W, kind, vs[1..], depth);
    }
  }

  /** A list of packable values becomes one record of all its values, or no record at all,
      the latter exactly when it is empty. */
  lemma {:induction false} PackedOrNothing(W: World, f: FieldDescriptor, slot: Slot, depth: nat)
    requires depth <= MAX_DEPTH && f.kind.Plain? && f.cardinality == Repeated && f.kind.value.Packable()
    requires EncodeField(W, f, slot, depth).Ok?
    ensures slot.Many?
    ensures var recs := EncodeField(W, f, slot, depth).value;
            && (recs == [] <==> slot.vs == [])
            && (recs != [] ==> |recs| == 1 && recs[0].number == f.number && recs[0].payload.PLen?)
  {
    PackedLength(W, f.kind.value, slot.vs, depth);
  }

  // -------------------------------------------------------------------- maps

  lemma {:induction false} PairRoundTrip(W: World, link: Option<Target>, key: ScalarType, kind: ValueKind,
      e: Pair, data: Bytes, depth: nat)
    requires WorldOk(W) && depth <= MAX_DEPTH && PairTyped(W, link, key, kind, e)
    requires EncodeEntry(W, key, kind, e, depth) == Ok(data) && IsU64(|data|)
    ensures DecodeEntry(W, link, key, kind, data, depth) == Ok(e)
    decreases MAX_DEPTH + 1 - depth, 1, 0
  {
    var k := EncodeScalar(key, e.key).value;
    var v := EncodeValue(W, kind, e.value, depth).value;
    EncodedScalarShape(key, e.key);
    EncodedValueShape(W, kind, e.value, depth);
    PairBytes(Record(1, k), Record(2, v));
    LengthWithin(Record(1, k));
    LengthWithin(Record(2, v));
    ScalarRoundTrip(key, e.key);
    ValueRoundTrip(W, link, kind, e.value, v, depth);
    WrittenEntry(W, link, key, kind, [Record(1, k), Record(2, v)], e, depth);
  }

  lemma {:induction false} WrittenEntry(W: World, link: Option<Target>, key: ScalarType, kind: ValueKind,
      recs: seq<Record>, e: Pair, depth: nat)
    requires depth <= MAX_DEPTH && AllRecordsValid(recs) && |recs| == 2 && recs[0].number == 1 && recs[1].number == 2
    requires recs[0].payload.Wire() == key.Wire() && recs[1].payload.Wire() == kind.Wire()
    requires DecodeScalar(key, recs[0].payload) == Ok(e.key)
    requires DecodeValue(W, link, kind, recs[1].payload, depth) == Ok(e.value)
    ensures DecodeEntry(W, link, key, kind, WriteAll(recs), depth) == Ok(e)
  {
    var data := WriteAll(recs);
    ScanOfWritten(recs, []);
    assert data + [] == data && Written(recs) + [] == Written(recs);
    FoldTwo(W, link, key, kind, recs, e, depth);
  }

  lemma {:induction false} PairBytes(a: Record, b: Record)
    ensures WriteAll([a, b]) == a.Bytes() + b.Bytes()
  {
    assert [a, b][1..] == [b] && [b][1..] == [];
    assert WriteAll([b]) == b.Bytes() + [] == b.Bytes();
  }

  lemma {:induction false} FoldTwo(W: World, link: Option<Target>, key: ScalarType, kind: ValueKind,
      recs: seq<Record>, e: Pair, depth: nat)
    requires depth <= MAX_DEPTH && |recs| == 2 && recs[0].number == 1 && recs[1].number == 2
    requires recs[0].payload.Wire() == key.Wire() && recs[1].payload.Wire() == kind.Wire()
    requires DecodeScalar(key, recs[0].payload) == Ok(e.key)
    requires DecodeValue(W, link, kind, recs[1].payload, depth) == Ok(e.value)
    ensures EntryFold(W, link, key, kind, EntryState(None, None), Written(recs), depth)
         == Ok(EntryState(Some(e.key), Some(e.value)))
  {
    var start, mid := EntryState(None, None), EntryState(Some(e.key), None);
    var end := EntryState(Some(e.key), Some(e.value));
    EntryKey(W, link, key, kind, start, recs[0], e.key, depth);
    EntryValue(W, link, key, kind, mid, recs[1], e.value, depth);
    EntryNone(W, link, key, kind, end, depth);
    hide *;
    var raws := Written(recs);
    EntryHead(W, link, key, kind, start, raws, mid, depth);
    assert raws[1..][0] == raws[1] && raws[1..][1..] == [];
    EntryHead(W, link, key, kind, mid, raws[1..], end, depth);
  }

  lemma {:induction false} EntryKey(W: World, link: Option<Target>, key: ScalarType, kind: ValueKind,
      st: EntryState, rec: Record, k: Value, depth: nat)
    requires depth <= MAX_DEPTH && rec.number == 1
    requires rec.payload.Wire() == key.Wire() && DecodeScalar(key, rec.payload) == Ok(k)
    ensures EntryStep(W, link, key, kind, st, rec, depth) == Ok(st.(key := Some(k)))
  {
    hide DecodeScalar, DecodeValue, ScalarType.Wire, ValueKind.Wire;
  }

  lemma {:induction false} EntryValue(W: World, link: Option<Target>, key: ScalarType, kind: ValueKind,
      st: EntryState, rec: Record, v: Value, depth: nat)
    requires depth <= MAX_DEPTH && rec.number == 2 && rec.payload.Wire() == kind.Wire()
    requires DecodeValue(W, link, kind, rec.payload, depth) == Ok(v)
    ensures EntryStep(W, link, key, kind, st, rec, depth) == Ok(st.(value := Some(v)))
  {
    hide DecodeScalar, DecodeValue, ScalarType.Wire, ValueKind.Wire;
  }

  lemma {:induction false} EntryNone(W: World, link: Option<Target>, key: ScalarType, kind: ValueKind,
      st: EntryState, depth: nat)
    requires depth <= MAX_DEPTH
    ensures EntryFold(W, link, key, kind, st, [], depth) == Ok(st)
  {
  }

  lemma {:induction false} EntryHead(W: World, link: Option<Target>, key: ScalarType, kind: ValueKind,
      st: EntryState, raws: seq<Raw>, next: EntryState, depth: nat)
    requires depth <= MAX_DEPTH && raws != [] && EntryStep(W, link, key, kind, st, raws[0].rec, depth) == Ok(next)
    ensures EntryFold(W, link, key, kind, st, raws, depth) == EntryFold(W, link, key, kind, next, raws[1..], depth)
  {
    hide EntryStep;
  }

  lemma {:induction false} LengthWithin(r: Record)
    ensures r.payload.PLen? ==> |r.payload.data| <= |r.Bytes()|
  {
  }

  /** Appending a new key leaves the earlier entries in place. */
  lemma {:induction false} PutFresh(es: seq<Pair>, k: Value, v: Value)
    requires forall i :: 0 <= i < |es| ==> es[i].key != k
    ensures Put(es, k, v) == es + [Pair(k, v)]
  {
    if es != [] {
      PutFresh(es[1..], k, v);
    }
  }

  // ------------------------------------------------------------------ fields

  /** The state slot that stands for an attribute after its records were read: fields
      left out because of their default value are still unset. */
  function WireSlot(f: FieldDescriptor, slot: Slot): Slot {
    if f.cardinality == Single && f.kind.Plain? && slot == One(ZeroOf(f.kind.value)) then Unset else slot
  }

  predicate AllFit(recs: seq<Record>) {
    forall i :: 0 <= i < |recs| ==> Fits(recs[i].payload)
  }

  /** A routed record: the step is the contribution and its application. */
  lemma {:induction false} RoutedStep(W: World, C: ClassInfo, st: State, raw: Raw, idx: nat, delta: Delta, depth: nat)
    requires depth <= MAX_DEPTH && idx < |C.desc.fields| == |st.slots|
    requires Reachable(C.desc, idx) && raw.rec.number == C.desc.fields[idx].number
    requires C.desc.fields[idx].Accepts(raw.rec.payload.Wire())
    requires Contribution(W, C.Link(raw.rec.number), C.desc.fields[idx], raw.rec.payload, depth) == Ok(delta)
    ensures Step(W, C, st, raw, depth) == Ok(Apply(C.desc, st, idx, delta))
  {
  }

  /** The first of a run of written records. */
  lemma {:induction false} RunHead(W: World, C: ClassInfo, st: State, recs: seq<Record>, next: State, depth: nat)
    requires depth <= MAX_DEPTH && |st.slots| == |C.desc.fields| && recs != []
    requires Step(W, C, st, Raw(recs[0], recs[0].Bytes()), depth) == Ok(next)
    ensures FoldRecords(W, C, st, Written(recs), depth) == FoldRecords(W, C, next, Written(recs[1..]), depth)
  {
    assert Written(recs)[1..] == Written(recs[1..]);
  }

  /** One written record makes a one-step run. */
  lemma {:induction false} RunOfOne(W: World, C: ClassInfo, st: State, rec: Record, next: State, depth: nat)
    requires depth <= MAX_DEPTH && |st.slots| == |C.desc.fields|
    requires Step(W, C, st, Raw(rec, rec.Bytes()), depth) == Ok(next)
    ensures FoldRecords(W, C, st, Written([rec]), depth) == Ok(next)
  {
    RunHead(W, C, st, [rec], next, depth);
    assert [rec][1..] == [];
  }

  lemma {:induction false} ApplyToCollection(d: MessageDescriptor, st: State, idx: nat, delta: Delta, slot: Slot)
    requires idx < |d.fields| == |st.slots| && d.fields[idx].Group().None? && Absorb(st.slots[idx], delta) == slot
    ensures Apply(d, st, idx, delta) == st.(slots := st.slots[idx := slot])
  {
  }

  lemma {:induction false} UpdateTwice<T>(s: seq<T>, i: nat, a: T, b: T)
    requires i < |s|
    ensures s[i := a][i := b] == s[i := b]
  {
  }

  lemma {:induction false} EachHead(W: World, C: ClassInfo, st: State, idx: nat, pre: seq<Value>, v: Value,
      recs: seq<Record>, depth: nat)
    requires WorldOk(W) && depth <= MAX_DEPTH && idx < |C.desc.fields| == |st.slots| && Reachable(C.desc, idx)
    requires var f := C.desc.fields[idx];
             && f.kind.Plain? && f.cardinality == Repeated && !f.kind.value.Packable()
             && ValueTyped(W, C.Link(f.number), f.kind.value, v)
             && recs != [] && recs[0].number == f.number
             && EncodeValue(W, f.kind.value, v, depth) == Ok(recs[0].payload)
    requires AllFit(recs) && st.slots[idx] == Many(pre)
    ensures FoldRecords(W, C, st, Written(recs), depth)
         == FoldRecords(W, C, st.(slots := st.slots[idx := Many(pre + [v])]), Written(recs[1..]), depth)
    decreases MAX_DEPTH + 1 - depth, 1, 0
  {
    var f := C.desc.fields[idx];
    ValueRoundTrip(W, C.Link(f.number), f.kind.value, v, recs[0].payload, depth);
    RoutedStep(W, C, st, Raw(recs[0], recs[0].Bytes()), idx, Elements([v]), depth);
    ApplyToCollection(C.desc, st, idx, Elements([v]), Many(pre + [v]));
    RunHead(W, C, st, recs, st.(slots := st.slots[idx := Many(pre + [v])]), depth);
  }

  /** A list written one record per element is read back behind what is there. */
  lemma {:induction false} EachRoundTrip(W: World, C: ClassInfo, st: State, idx: nat, pre: seq<Value>,
      vs: seq<Value>, recs: seq<Record>, depth: nat)
    requires WorldOk(W) && depth <= MAX_DEPTH && idx < |C.desc.fields| == |st.slots| && Reachable(C.desc, idx)
    requires var f := C.desc.fields[idx];
             && f.kind.Plain? && f.cardinality == Repeated && !f.kind.value.Packable()
             && AllTyped(W, C.Link(f.number), f.kind.value, vs)
             && EncodeEach(W, f.number, f.kind.value, vs, depth) == Ok(recs)
    requires AllFit(recs) && st.slots[idx] == Many(pre)
    ensures FoldRecords(W, C, st, Written(recs), depth) == Ok(st.(slots := st.slots[idx := Many(pre + vs)]))
    decreases MAX_DEPTH + 1 - depth, 2, |vs|
  {
    var f := C.desc.fields[idx];
    if vs == [] {
      assert pre + vs == pre;
      assert st.slots[idx := Many(pre)] == st.slots;
    } else {
      AllTypedParts(W, C.Link(f.number), f.kind.value, vs);
      EachHead(W, C, st, idx, pre, vs[0], recs, depth);
      var next := st.(slots := st.slots[idx := Many(pre + [vs[0]])]);
      AllFitTail(recs);
      EachRoundTrip(W, C, next, idx, pre + [vs[0]], vs[1..], recs[1..], depth);
      Regroup(pre, vs);
      UpdateTwice(st.slots, idx, Many(pre + [vs[0]]), Many(pre + vs));
    }
  }

  lemma {:induction false} AllFitTail(recs: seq<Record>)
    requires recs != [] && AllFit(recs)
    ensures AllFit(recs[1..])
  {
  }

  lemma {:induction false} Regroup<T>(a: seq<T>, b: seq<T>)
    requires b != []
    ensures (a + [b[0]]) + b[1..] == a + b
  {
  }

  lemma {:induction false} EntriesHead(W: World, C: ClassInfo, st: State, idx: nat, pre: seq<Pair>, e: Pair,
      recs: seq<Record>, depth: nat)
    requires WorldOk(W) && depth <= MAX_DEPTH && idx < |C.desc.fields| == |st.slots| && Reachable(C.desc, idx)
    requires var f := C.desc.fields[idx];
             && f.kind.Map? && f.cardinality == Single && PairTyped(W, C.Link(f.number), f.kind.key, f.kind.value, e)
             && recs != [] && recs[0].number == f.number && recs[0].payload.PLen?
             && EncodeEntry(W, f.kind.key, f.kind.value, e, depth) == Ok(recs[0].payload.data)
    requires AllFit(recs) && st.slots[idx] == Dict(pre) && forall i :: 0 <= i < |pre| ==> pre[i].key != e.key
    ensures FoldRecords(W, C, st, Written(recs), depth)
         == FoldRecords(W, C, st.(slots := st.slots[idx := Dict(pre + [e])]), Written(recs[1..]), depth)
    decreases MAX_DEPTH + 1 - depth, 2, 0
  {
    var f := C.desc.fields[idx];
    assert Fits(recs[0].payload);
    PairRoundTrip(W, C.Link(f.number), f.kind.key, f.kind.value, e, recs[0].payload.data, depth);
    PutFresh(pre, e.key, e.value);
    RoutedStep(W, C, st, Raw(recs[0], recs[0].Bytes()), idx, Entry(e), depth);
    ApplyToCollection(C.desc, st, idx, Entry(e), Dict(pre + [e]));
    RunHead(W, C, st, recs, st.(slots := st.slots[idx := Dict(pre + [e])]), depth);
  }

  /** Map entries are read back behind what is there. */
  lemma {:induction false} EntriesRoundTrip(W: World, C: ClassInfo, st: State, idx: nat, pre: seq<Pair>,
      es: seq<Pair>, recs: seq<Record>, depth: nat)
    requires WorldOk(W) && depth <= MAX_DEPTH && idx < |C.desc.fields| == |st.slots| && Reachable(C.desc, idx)
    requires var f := C.desc.fields[idx];
             && f.kind.Map? && f.cardinality == Single
             && EntriesTyped(W, C.Link(f.number), f.kind.key, f.kind.value, es)
             && EncodeEntries(W, f.number, f.kind.key, f.kind.value, es, depth) == Ok(recs)
    requires AllFit(recs) && st.slots[idx] == Dict(pre) && DistinctKeys(pre + es)
    ensures FoldRecords(W, C, st, Written(recs), depth) == Ok(st.(slots := st.slots[idx := Dict(pre + es)]))
    decreases MAX_DEPTH + 1 - depth, 3, |es|
  {
    var f := C.desc.fields[idx];
    if es == [] {
      assert pre + es == pre;
      assert st.slots[idx := Dict(pre)] == st.slots;
    } else {
      EntriesTypedParts(W, C.Link(f.number), f.kind.key, f.kind.value, es);
      FreshKey(pre, es);
      EntriesHead(W, C, st, idx, pre, es[0], recs, depth);
      var next := st.(slots := st.slots[idx := Dict(pre + [es[0]])]);
      AllFitTail(recs);
      Regroup(pre, es);
      EntriesRoundTrip(W, C, next, idx, pre + [es[0]], es[1..], recs[1..], depth);
      UpdateTwice(st.slots, idx, Dict(pre + [es[0]]), Dict(pre + es));
    }
  }

  lemma {:induction false} FreshKey(pre: seq<Pair>, es: seq<Pair>)
    requires es != [] && DistinctKeys(pre + es)
    ensures forall i :: 0 <= i < |pre| ==> pre[i].key != es[0].key
  {
    assert (pre + es)[|pre|] == es[0];
    assert forall i :: 0 <= i < |pre| ==> (pre + es)[i] == pre[i];
  }

  /** The state after a field that was written. */
  function AfterField(f: FieldDescriptor, idx: nat, slot: Slot, st: State): State
    requires idx < |st.slots|
  {
    var owner := if f.Group().Some? && !slot.Unset? then st.owner[f.Group().value := idx] else st.owner;
    State(st.slots[idx := WireSlot(f, slot)], owner, st.unknown)
  }

  /** One field: its records bring exactly its attribute into an initial slot. */
  lemma {:induction false} FieldRoundTrip(W: World, C: ClassInfo, st: State, idx: nat, slot: Slot,
      recs: seq<Record>, depth: nat)
    requires WorldOk(W) && depth <= MAX_DEPTH && idx < |C.desc.fields| == |st.slots|
    requires var f := C.desc.fields[idx];
             && WellFormedField(f, |C.desc.oneofs|) && SlotTyped(W, C.Link(f.number), f, slot)
             && (Reachable(C.desc, idx) || slot == RestSlot(f))
             && EncodeField(W, f, slot, depth) == Ok(recs) && AllFit(recs)
             && st.slots[idx] == InitSlot(f)
             && (f.Group().Some? && !slot.Unset? ==> f.Group().value !in st.owner)
    ensures FoldRecords(W, C, st, Written(recs), depth) == Ok(AfterField(C.desc.fields[idx], idx, slot, st))
    decreases MAX_DEPTH + 1 - depth, 4, 0
  {
    var f := C.desc.fields[idx];
    if slot == RestSlot(f) {
      assert recs == [] by { RestEncodesToNothing(W, f, |C.desc.oneofs|, depth); }
      assert WireSlot(f, slot) == st.slots[idx];
      assert st.slots[idx := st.slots[idx]] == st.slots;
    } else if f.kind.Map? {
      assert [] + slot.entries == slot.entries;
      EntriesRoundTrip(W, C, st, idx, [], slot.entries, recs, depth);
    } else if f.cardinality == Repeated {
      RepeatedRoundTrip(W, C, st, idx, slot, recs, depth);
    } else {
      SingularRoundTrip(W, C, st, idx, slot, recs, depth);
    }
  }

  lemma {:induction false} RestEncodesToNothing(W: World, f: FieldDescriptor, groups: nat, depth: nat)
    requires depth <= MAX_DEPTH && WellFormedField(f, groups)
    ensures EncodeField(W, f, RestSlot(f), depth) == Ok([])
  {
    if f.cardinality == Single && f.kind.Plain? {
      var zero := ZeroOf(f.kind.value);
      EachOfOne(W, f.number, f.kind.value, zero, depth);
      match f.kind.value
      case Scalar(s) => EncodedScalarShape(s, zero);
      case Enum =>
    }
  }

  lemma {:induction false} RepeatedRoundTrip(W: World, C: ClassInfo, st: State, idx: nat, slot: Slot,
      recs: seq<Record>, depth: nat)
    requires WorldOk(W) && depth <= MAX_DEPTH && idx < |C.desc.fields| == |st.slots| && Reachable(C.desc, idx)
    requires var f := C.desc.fields[idx];
             && f.kind.Plain? && f.cardinality == Repeated && SlotTyped(W, C.Link(f.number), f, slot)
             && slot != Many([]) && EncodeField(W, f, slot, depth) == Ok(recs) && AllFit(recs)
             && st.slots[idx] == Many([])
    ensures FoldRecords(W, C, st, Written(recs), depth) == Ok(st.(slots := st.slots[idx := slot]))
    decreases MAX_DEPTH + 1 - depth, 3, 0
  {
    var f := C.desc.fields[idx];
    var kind, vs := f.kind.value, slot.vs;
    assert [] + vs == vs;
    if kind.Packable() {
      var data := EncodePacked(W, kind, vs, depth).value;
      PackedRoundTrip(W, C.Link(f.number), kind, vs, data, depth);
      assert recs == [Record(f.number, PLen(data))];
      var raw := Raw(recs[0], recs[0].Bytes());
      RoutedStep(W, C, st, raw, idx, Elements(vs), depth);
      RunOfOne(W, C, st, recs[0], Apply(C.desc, st, idx, Elements(vs)), depth);
    } else {
      EachRoundTrip(W, C, st, idx, [], vs, recs, depth);
    }
  }

  lemma {:induction false} SingularRoundTrip(W: World, C: ClassInfo, st: State, idx: nat, slot: Slot,
      recs: seq<Record>, depth: nat)
    requires WorldOk(W) && depth <= MAX_DEPTH && idx < |C.desc.fields| == |st.slots| && Reachable(C.desc, idx)
    requires var f := C.desc.fields[idx];
             && f.kind.Plain? && f.cardinality != Repeated && SlotTyped(W, C.Link(f.number), f, slot)
             && slot.One? && WireSlot(f, slot) == slot && EncodeField(W, f, slot, depth) == Ok(recs) && AllFit(recs)
             && st.slots[idx] == Unset
             && (f.Group().Some? ==> f.Group().value !in st.owner)
    ensures FoldRecords(W, C, st, Written(recs), depth) == Ok(AfterField(C.desc.fields[idx], idx, slot, st))
    decreases MAX_DEPTH + 1 - depth, 2, 0
  {
    var f := C.desc.fields[idx];
    var kind, v := f.kind.value, slot.v;
    var p := EncodeValue(W, kind, v, depth).value;
    EachOfOne(W, f.number, kind, v, depth);
    assert Fits(recs[0].payload);
    ValueRoundTrip(W, C.Link(f.number), kind, v, p, depth);
    var raw := Raw(recs[0], recs[0].Bytes());
    RoutedStep(W, C, st, raw, idx, Whole(v), depth);
    RunOfOne(W, C, st, recs[0], Apply(C.desc, st, idx, Whole(v)), depth);
  }

  // ---------------------------------------------------------------- messages

  /** The field is a member of the oneof, and set. */
  predicate Member(fields: seq<FieldDescriptor>, slots: seq<Slot>, group: nat, i: nat)
    requires i < |fields| == |slots|
  {
    fields[i].cardinality == Optional && fields[i].oneofIndex == Some(group) && !slots[i].Unset?
  }

  /** At most one member of the group is set among the first `n` fields. */
  predicate AtMostOne(fields: seq<FieldDescriptor>, slots: seq<Slot>, group: nat, n: nat)
    requires n <= |fields| == |slots|
  {
    forall i, j :: 0 <= i < j < n ==> !(Member(fields, slots, group, i) && Member(fields, slots, group, j))
  }

  /** The saturating counter tells "none", "one" and "more" apart. */
  lemma {:induction false} OneofCountExact(fields: seq<FieldDescriptor>, slots: seq<Slot>, group: nat, n: nat)
    requires n <= |fields| == |slots|
    ensures OneofCount(fields, slots, group, n) == 0 <==> forall i :: 0 <= i < n ==> !Member(fields, slots, group, i)
    ensures OneofCount(fields, slots, group, n) <= 1 <==> AtMostOne(fields, slots, group, n)
  {
    if n > 0 {
      OneofCountExact(fields, slots, group, n - 1);
      var before := OneofCount(fields, slots, group, n - 1);
      if Member(fields, slots, group, n - 1) && before == 1 {
        var i :| 0 <= i < n - 1 && Member(fields, slots, group, i);
        assert !AtMostOne(fields, slots, group, n);
      }
    }
  }

  /** The check after the walk passes exactly when no group has two members set. */
  lemma {:induction false} OneofCheckExact(d: MessageDescriptor, slots: seq<Slot>, from: nat)
    requires from <= |d.oneofs| && |slots| == |d.fields|
    ensures OneofCheck(d, slots, from).None?
       <==> forall g: nat :: from <= g < |d.oneofs| ==> AtMostOne(d.fields, slots, g, |d.fields|)
    decreases |d.oneofs| - from
  {
    if from < |d.oneofs| {
      OneofCountExact(d.fields, slots, from, |d.fields|);
      OneofCheckExact(d, slots, from + 1);
    }
  }

  /** The decoder has read the fields below `i` of `m` and nothing else. */
  ghost predicate Progress(C: ClassInfo, m: Msg, i: nat, st: State)
    requires |m.slots| == |C.desc.fields|
  {
    var fields := C.desc.fields;
    && |st.slots| == |fields| && i <= |fields| && st.unknown == []
    && (forall j :: 0 <= j < i ==> st.slots[j] == WireSlot(fields[j], m.slots[j]))
    && (forall j :: i <= j < |fields| ==> st.slots[j] == InitSlot(fields[j]))
    && (forall g <- st.owner :: exists j :: 0 <= j < i && Member(fields, m.slots, g, j))
  }

  lemma {:induction false} ProgressStep(C: ClassInfo, m: Msg, i: nat, st: State)
    requires |m.slots| == |C.desc.fields| && i < |C.desc.fields| && Progress(C, m, i, st)
    ensures Progress(C, m, i + 1, AfterField(C.desc.fields[i], i, m.slots[i], st))
  {
    var fields := C.desc.fields;
    var next := AfterField(fields[i], i, m.slots[i], st);
    forall g | g in next.owner
      ensures exists j :: 0 <= j < i + 1 && Member(fields, m.slots, g, j)
    {
      if g in st.owner {
        var j :| 0 <= j < i && Member(fields, m.slots, g, j);
        assert j < i + 1;
      } else {
        assert Member(fields, m.slots, g, i);
      }
    }
  }

  lemma {:induction false} OwnerIsFree(C: ClassInfo, m: Msg, i: nat, st: State)
    requires |m.slots| == |C.desc.fields| && i < |C.desc.fields| && Progress(C, m, i, st)
    requires WellFormed(C.desc) && OneofCheck(C.desc, m.slots, 0).None?
    ensures C.desc.fields[i].Group().Some? && !m.slots[i].Unset? ==> C.desc.fields[i].Group().value !in st.owner
  {
    var fields := C.desc.fields;
    if fields[i].Group().Some? && !m.slots[i].Unset? {
      var g := fields[i].Group().value;
      OneofCheckExact(C.desc, m.slots, 0);
      assert AtMostOne(fields, m.slots, g, |fields|);
      assert Member(fields, m.slots, g, i);
      forall j | 0 <= j < i
        ensures !Member(fields, m.slots, g, j)
      {
      }
    }
  }

  /** The fields from `i` on bring exactly their attributes. */
  lemma {:induction false} FieldsRoundTrip(W: World, C: ClassInfo, m: Msg, i: nat, st: State,
      recs: seq<Record>, depth: nat)
    returns (end: State)
    requires WorldOk(W) && depth <= MAX_DEPTH && MsgTyped(W, m) && C == W[m.cls] && WellFormed(C.desc)
    requires OneofCheck(C.desc, m.slots, 0).None? && Progress(C, m, i, st)
    requires EncodeFields(W, C.desc.fields, m.slots, i, depth) == Ok(recs) && AllFit(recs)
    ensures FoldRecords(W, C, st, Written(recs), depth) == Ok(end) && Progress(C, m, |C.desc.fields|, end)
    decreases MAX_DEPTH + 1 - depth, 5, |C.desc.fields| - i
  {
    var fields := C.desc.fields;
    if i == |fields| {
      end := st;
    } else {
      var here := EncodeField(W, fields[i], m.slots[i], depth).value;
      var rest := EncodeFields(W, fields, m.slots, i + 1, depth).value;
      AllFitParts(here, rest);
      OwnerIsFree(C, m, i, st);
      FieldRoundTrip(W, C, st, i, m.slots[i], here, depth);
      var next := AfterField(fields[i], i, m.slots[i], st);
      ProgressStep(C, m, i, st);
      end := FieldsRoundTrip(W, C, m, i + 1, next, rest, depth);
      WrittenAppend(here, rest);
      FoldRecordsAppend(W, C, st, Written(here), Written(rest), depth);
    }
  }

  lemma {:induction false} AllFitParts(a: seq<Record>, b: seq<Record>)
    requires AllFit(a + b)
    ensures AllFit(a) && AllFit(b)
  {
    assert forall i :: 0 <= i < |a| ==> (a + b)[i] == a[i];
    assert forall i :: 0 <= i < |b| ==> (a + b)[|a| + i] == b[i];
  }

  lemma {:induction false} FitsWithin(recs: seq<Record>)
    requires IsU64(|WriteAll(recs)|)
    ensures AllFit(recs)
  {
    if recs != [] {
      LengthWithin(recs[0]);
      FitsWithin(recs[1..]);
    }
  }

  /** Everything the fields of a typed message write is a valid record. */
  lemma {:induction false} FieldsAreValid(W: World, m: Msg, i: nat, recs: seq<Record>, depth: nat)
    requires depth <= MAX_DEPTH && MsgTyped(W, m) && WellFormed(W[m.cls].desc) && i <= |m.slots|
    requires EncodeFields(W, W[m.cls].desc.fields, m.slots, i, depth) == Ok(recs) && AllFit(recs)
    ensures AllRecordsValid(recs)
    decreases |m.slots| - i
  {
    var d := W[m.cls].desc;
    if i < |m.slots| {
      var here := EncodeField(W, d.fields[i], m.slots[i], depth).value;
      var rest := EncodeFields(W, d.fields, m.slots, i + 1, depth).value;
      AllFitParts(here, rest);
      EncodedFieldShape(W, d.fields[i], m.slots[i], depth);
      FieldsAreValid(W, m, i + 1, rest, depth);
      if !Reachable(d, i) {
        RestEncodesToNothing(W, d.fields[i], |d.oneofs|, depth);
      }
    }
  }

  lemma {:induction false} FinishOfWire(f: FieldDescriptor, groups: nat, W: World, link: Option<Target>, slot: Slot)
    requires WellFormedField(f, groups) && SlotTyped(W, link, f, slot)
    ensures FinishSlot(f, WireSlot(f, slot)) == slot
  {
  }

  /**
   Round trip: whenever a well-typed message encodes, decoding the bytes gives the same
   message back, unknown bytes included.
   */
  lemma {:induction false} MessageRoundTrip(W: World, m: Msg, data: Bytes, depth: nat)
    requires depth <= MAX_DEPTH + 1 && WorldOk(W)
    requires MsgTyped(W, m) && EncodeMessage(W, m, depth) == Ok(data) && IsU64(|data|)
    ensures DecodeMessage(W, m.cls, data, depth) == Ok(m)
    decreases MAX_DEPTH + 1 - depth, 6, 0
  {
    var C := W[m.cls];
    var fields := C.desc.fields;
    var recs := EncodeFields(W, fields, m.slots, 0, depth).value;
    FitsWithin(recs);
    FieldsAreValid(W, m, 0, recs, depth);
    var start := InitState(C.desc);
    var end := FieldsRoundTrip(W, C, m, 0, start, recs, depth);
    DecodeWritten(W, C, start, recs, end, m.unknown, depth);
    forall i | 0 <= i < |fields|
      ensures FinishSlot(fields[i], end.slots[i]) == m.slots[i]
    {
      FinishOfWire(fields[i], |C.desc.oneofs|, W, C.Link(fields[i].number), m.slots[i]);
    }
    assert FinishSlots(fields, end.slots) == m.slots;
  }

  /** Written records, then unknown ones, run through the loop. */
  lemma {:induction false} DecodeWritten(W: World, C: ClassInfo, st: State, recs: seq<Record>, end: State,
      unknown: Bytes, depth: nat)
    requires depth <= MAX_DEPTH && |st.slots| == |C.desc.fields| && AllRecordsValid(recs) && UnknownOk(C.desc, unknown)
    requires FoldRecords(W, C, st, Written(recs), depth) == Ok(end) && end.unknown == []
    ensures Resume(W, C, st, WriteAll(recs) + unknown, depth) == Ok(end.(unknown := unknown))
  {
    ScanOfWritten(recs, unknown);
    var tail := ScanAll(unknown).raws;
    FoldRecordsAppend(W, C, st, Written(recs), tail, depth);
    FoldUnknown(W, C, end, tail, depth);
    ConcatOfScan(unknown);
    assert [] + unknown == unknown;
  }
}
