/** What the decoder accepts: its loop invariant, and what re-encoding the result gives. */
module Accepted {
  import opened Basics
  import opened Wire
  import opened Records
  import opened Descriptors
  import opened WellKnown
  import opened Values
  import opened Encoding
  import opened Decoding
  import opened Typing
  import opened RoundTrip

  // ------------------------------------------------- what encoding demands

  /** No message below `v` is nested too deep or has two members of a oneof set. */
  predicate ValueLegal(W: World, v: Value, depth: nat)
    decreases v, 0
  {
    v.Nested? ==> MsgLegal(W, v.m, depth + 1)
  }

  predicate SlotLegal(W: World, slot: Slot, depth: nat)
    decreases slot, 1
  {
    match slot
    case Unset => true
    case One(v) => ValueLegal(W, v, depth)
    case Many(vs) => forall i :: 0 <= i < |vs| ==> ValueLegal(W, vs[i], depth)
    case Dict(es) => forall i :: 0 <= i < |es| ==> ValueLegal(W, es[i].value, depth)
  }

  predicate OneofsOk(d: MessageDescriptor, slots: seq<Slot>)
    requires |slots| == |d.fields|
  {
    forall g :: 0 <= g < |d.oneofs| ==> AtMostOne(d.fields, slots, g, |d.fields|)
  }

  predicate MsgLegal(W: World, m: Msg, depth: nat)
    decreases m, 2
  {
    && depth <= MAX_DEPTH && m.cls in W && |m.slots| == |W[m.cls].desc.fields|
    && OneofsOk(W[m.cls].desc, m.slots)
    && forall i :: 0 <= i < |m.slots| ==> SlotLegal(W, m.slots[i], depth)
  }

  /** Every timedelta below `v` is one a Duration may carry. */
  predicate ValueInRange(v: Value)
    decreases v, 0
  {
    match v
    case Span(us) => SpanInRange(us)
    case Nested(m) => MsgInRange(m)
    case _ => true
  }

  predicate SlotInRange(slot: Slot)
    decreases slot, 1
  {
    match slot
    case Unset => true
    case One(v) => ValueInRange(v)
    case Many(vs) => forall i :: 0 <= i < |vs| ==> ValueInRange(vs[i])
    case Dict(es) => forall i :: 0 <= i < |es| ==> ValueInRange(es[i].value)
  }

  predicate MsgInRange(m: Msg)
    decreases m, 2
  {
    forall i :: 0 <= i < |m.slots| ==> SlotInRange(m.slots[i])
  }

  // --------------------------------------------- when a typed message encodes

  predicate Good(W: World, v: Value, depth: nat) {
    ValueLegal(W, v, depth) && ValueInRange(v)
  }

  lemma {:induction false} ValueEncodes(W: World, link: Option<Target>, kind: ValueKind, v: Value, depth: nat)
    requires WorldOk(W) && depth <= MAX_DEPTH && ValueTyped(W, link, kind, v)
    ensures EncodeValue(W, kind, v, depth).Ok? <==> Good(W, v, depth)
    decreases MAX_DEPTH + 1 - depth, 0, 1
  {
    match kind
    case Scalar(s) => EncodedScalarShape(s, v);
    case Enum =>
    case Message => NestedEncodes(W, link, v, depth);
    case Timestamp =>
    case Duration => SpanParts(v.micros);
  }

  lemma {:induction false} NestedEncodes(W: World, link: Option<Target>, v: Value, depth: nat)
    requires WorldOk(W) && depth <= MAX_DEPTH && ValueTyped(W, link, Message, v)
    ensures EncodeValue(W, Message, v, depth).Ok? <==> Good(W, v, depth)
    decreases MAX_DEPTH + 1 - depth, 0, 0
  {
    hide EncodeMessage, MsgLegal, MsgInRange, MsgTyped;
    MessageEncodes(W, v.m, depth + 1);
  }

  lemma {:induction false} EachEncodes(W: World, link: Option<Target>, number: nat, kind: ValueKind,
      vs: seq<Value>, depth: nat)
    requires WorldOk(W) && depth <= MAX_DEPTH && AllTyped(W, link, kind, vs)
    ensures EncodeEach(W, number, kind, vs, depth).Ok? <==> forall i :: 0 <= i < |vs| ==> Good(W, vs[i], depth)
    decreases MAX_DEPTH + 1 - depth, 1, |vs|
  {
    if vs != [] {
      AllTypedParts(W, link, kind, vs);
      ValueEncodes(W, link, kind, vs[0], depth);
      EachEncodes(W, link, number, kind, vs[1..], depth);
      AllFromParts(W, vs, depth);
    }
  }

  lemma {:induction false} AllFromParts(W: World, vs: seq<Value>, depth: nat)
    requires vs != []
    ensures (forall i :: 0 <= i < |vs| ==> Good(W, vs[i], depth))
       <==> (Good(W, vs[0], depth) && forall i :: 0 <= i < |vs[1..]| ==> Good(W, vs[1..][i], depth))
  {
    assert vs == [vs[0]] + vs[1..];
  }

  lemma {:induction false} PackedEncodes(W: World, link: Option<Target>, kind: ValueKind, vs: seq<Value>, depth: nat)
    requires WorldOk(W) && depth <= MAX_DEPTH && kind.Packable() && AllTyped(W, link, kind, vs)
    ensures EncodePacked(W, kind, vs, depth).Ok? && forall i :: 0 <= i < |vs| ==> Good(W, vs[i], depth)
    decreases MAX_DEPTH + 1 - depth, 1, |vs|
  {
    if vs != [] {
      AllTypedParts(W, link, kind, vs);
      ValueEncodes(W, link, kind, vs[0], depth);
      PackedEncodes(W, link, kind, vs[1..], depth);
      AllFromParts(W, vs, depth);
    }
  }

  lemma {:induction false} EntriesEncode(W: World, link: Option<Target>, number: nat, key: ScalarType,
      kind: ValueKind, es: seq<Pair>, depth: nat)
    requires WorldOk(W) && depth <= MAX_DEPTH && EntriesTyped(W, link, key, kind, es)
    ensures EncodeEntries(W, number, key, kind, es, depth).Ok?
       <==> forall i :: 0 <= i < |es| ==> Good(W, es[i].value, depth)
    decreases MAX_DEPTH + 1 - depth, 1, |es|
  {
    if es != [] {
      hide *;
      EntriesTypedParts(W, link, key, kind, es);
      EncodedScalarShape(key, es[0].key);
      ValueEncodes(W, link, kind, es[0].value, depth);
      EntriesEncode(W, link, number, key, kind, es[1..], depth);
      EncodeEntriesParts(W, number, key, kind, es, depth);
    }
  }

  lemma {:induction false} EncodeEntriesParts(W: World, number: nat, key: ScalarType, kind: ValueKind,
      es: seq<Pair>, depth: nat)
    requires depth <= MAX_DEPTH && es != []
    ensures EncodeEntries(W, number, key, kind, es, depth).Ok? <==>
      && EncodeScalar(key, es[0].key).Ok? && EncodeValue(W, kind, es[0].value, depth).Ok?
      && EncodeEntries(W, number, key, kind, es[1..], depth).Ok?
    ensures (forall i :: 0 <= i < |es| ==> Good(W, es[i].value, depth)) <==>
      Good(W, es[0].value, depth) && forall i :: 0 <= i < |es[1..]| ==> Good(W, es[1..][i].value, depth)
  {
    hide EncodeScalar, EncodeValue, Good;
    assert es == [es[0]] + es[1..];
  }

  predicate SlotGood(W: World, slot: Slot, depth: nat) {
    SlotLegal(W, slot, depth) && SlotInRange(slot)
  }

  lemma {:induction false} FieldEncodes(W: World, link: Option<Target>, f: FieldDescriptor, slot: Slot, depth: nat)
    requires WorldOk(W) && depth <= MAX_DEPTH && SlotTyped(W, link, f, slot)
    ensures EncodeField(W, f, slot, depth).Ok? <==> SlotGood(W, slot, depth)
    decreases MAX_DEPTH + 1 - depth, 2, 0
  {
    match f.kind
    case Map(key, kind) => EntriesEncode(W, link, f.number, key, kind, slot.entries, depth);
    case Plain(kind) =>
      if slot.Many? {
        if kind.Packable() {
          PackedEncodes(W, link, kind, slot.vs, depth);
        } else {
          EachEncodes(W, link, f.number, kind, slot.vs, depth);
        }
      } else if slot.One? {
        EachOfOne(W, f.number, kind, slot.v, depth);
        ValueEncodes(W, link, kind, slot.v, depth);
      }
  }

  lemma {:induction false} TypedShape(W: World, m: Msg)
    requires MsgTyped(W, m)
    ensures m.cls in W && |m.slots| == |W[m.cls].desc.fields|
  {
  }

  lemma {:induction false} TypedSlot(W: World, m: Msg, i: nat)
    requires MsgTyped(W, m) && i < |m.slots|
    ensures SlotTyped(W, W[m.cls].Link(W[m.cls].desc.fields[i].number), W[m.cls].desc.fields[i], m.slots[i])
  {
  }

  predicate GoodFrom(W: World, slots: seq<Slot>, i: nat, depth: nat) {
    forall j :: i <= j < |slots| ==> SlotGood(W, slots[j], depth)
  }

  lemma {:induction false} GoodFromStep(W: World, slots: seq<Slot>, i: nat, depth: nat)
    requires i < |slots|
    ensures GoodFrom(W, slots, i, depth) <==> SlotGood(W, slots[i], depth) && GoodFrom(W, slots, i + 1, depth)
  {
    hide SlotGood;
  }

  lemma {:induction false} EncodeFieldsStep(W: World, fields: seq<FieldDescriptor>, slots: seq<Slot>, i: nat,
      depth: nat)
    requires depth <= MAX_DEPTH && i < |fields| == |slots|
    ensures EncodeFields(W, fields, slots, i, depth).Ok?
       <==> EncodeField(W, fields[i], slots[i], depth).Ok? && EncodeFields(W, fields, slots, i + 1, depth).Ok?
  {
    hide EncodeField;
  }

  lemma {:induction false} FieldsEncode(W: World, m: Msg, i: nat, depth: nat)
    requires WorldOk(W) && depth <= MAX_DEPTH && MsgTyped(W, m) && i <= |m.slots|
    ensures EncodeFields(W, W[m.cls].desc.fields, m.slots, i, depth).Ok? <==> GoodFrom(W, m.slots, i, depth)
    decreases MAX_DEPTH + 1 - depth, 3, |m.slots| - i
  {
    TypedShape(W, m);
    if i < |m.slots| {
      hide *;
      var C := W[m.cls];
      TypedSlot(W, m, i);
      EncodeFieldsStep(W, C.desc.fields, m.slots, i, depth);
      FieldEncodes(W, C.Link(C.desc.fields[i].number), C.desc.fields[i], m.slots[i], depth);
      FieldsEncode(W, m, i + 1, depth);
      GoodFromStep(W, m.slots, i, depth);
    }
  }

  /** A well-typed message encodes exactly when nothing in it is nested too deep, no oneof
      has two members set, and every timedelta is in Duration's range. */
  lemma {:induction false} MessageEncodes(W: World, m: Msg, depth: nat)
    requires WorldOk(W) && depth <= MAX_DEPTH + 1 && MsgTyped(W, m)
    ensures EncodeMessage(W, m, depth).Ok? <==> MsgLegal(W, m, depth) && MsgInRange(m)
    decreases MAX_DEPTH + 1 - depth, 4, 0
  {
    if depth <= MAX_DEPTH {
      FieldsEncode(W, m, 0, depth);
      OneofCheckExact(W[m.cls].desc, m.slots, 0);
    }
  }

  // ------------------------------------------------------ the loop invariant

  /** A timedelta below `v` is out of Duration's range only if it wrapped past the range test. */
  predicate ValueSpans(v: Value)
    decreases v, 0
  {
    match v
    case Span(us) => SpanInRange(us) <==> !WrappedMicros(us)
    case Nested(m) => MsgSpans(m)
    case _ => true
  }

  predicate SlotSpans(slot: Slot)
    decreases slot, 1
  {
    match slot
    case Unset => true
    case One(v) => ValueSpans(v)
    case Many(vs) => forall i :: 0 <= i < |vs| ==> ValueSpans(vs[i])
    case Dict(es) => forall i :: 0 <= i < |es| ==> ValueSpans(es[i].value)
  }

  predicate MsgSpans(m: Msg)
    decreases m, 2
  {
    forall i :: 0 <= i < |m.slots| ==> SlotSpans(m.slots[i])
  }

  predicate ValueOk(W: World, link: Option<Target>, kind: ValueKind, v: Value, depth: nat) {
    ValueTyped(W, link, kind, v) && ValueLegal(W, v, depth) && ValueSpans(v)
  }

  predicate ListOk(W: World, link: Option<Target>, kind: ValueKind, vs: seq<Value>, depth: nat) {
    forall i :: 0 <= i < |vs| ==> ValueOk(W, link, kind, vs[i], depth)
  }

  predicate PairOk(W: World, link: Option<Target>, key: ScalarType, kind: ValueKind, e: Pair, depth: nat) {
    ScalarTyped(key, e.key) && ValueOk(W, link, kind, e.value, depth)
  }

  predicate DictOk(W: World, link: Option<Target>, key: ScalarType, kind: ValueKind, es: seq<Pair>, depth: nat) {
    DistinctKeys(es) && forall i :: 0 <= i < |es| ==> PairOk(W, link, key, kind, es[i], depth)
  }

  /** A slot of the decoder at any moment: accumulators are present, other slots are empty
      or hold a value of the field's type. */
  predicate SlotOk(W: World, link: Option<Target>, f: FieldDescriptor, slot: Slot, depth: nat) {
    match f.kind
    case Map(key, kind) => slot.Dict? && DictOk(W, link, key, kind, slot.entries, depth)
    case Plain(kind) =>
      if f.cardinality == Repeated then slot.Many? && ListOk(W, link, kind, slot.vs, depth)
      else slot.Unset? || (slot.One? && ValueOk(W, link, kind, slot.v, depth))
  }

  predicate SlotsOk(W: World, C: ClassInfo, slots: seq<Slot>, depth: nat) {
    && |slots| == |C.desc.fields|
    && forall i :: 0 <= i < |slots| ==>
      && SlotOk(W, C.Link(C.desc.fields[i].number), C.desc.fields[i], slots[i], depth)
      && (Reachable(C.desc, i) || slots[i] == InitSlot(C.desc.fields[i]))
  }

  /** The recorded owner of a oneof group is its one and only member that is set. */
  predicate OwnersOk(d: MessageDescriptor, slots: seq<Slot>, owner: map<nat, nat>)
    requires |slots| == |d.fields|
  {
    && (forall g <- owner :: owner[g] < |slots| && Member(d.fields, slots, g, owner[g]))
    && (forall i :: 0 <= i < |slots| && d.fields[i].Group().Some? && !slots[i].Unset? ==>
          d.fields[i].Group().value in owner && owner[d.fields[i].Group().value] == i)
  }

  predicate StateOk(W: World, C: ClassInfo, st: State, depth: nat) {
    SlotsOk(W, C, st.slots, depth) && OwnersOk(C.desc, st.slots, st.owner) && UnknownOk(C.desc, st.unknown)
  }

  predicate DeltaOk(W: World, link: Option<Target>, f: FieldDescriptor, delta: Delta, depth: nat) {
    match f.kind
    case Map(key, kind) => delta.Entry? && PairOk(W, link, key, kind, delta.pair, depth)
    case Plain(kind) =>
      if f.cardinality == Repeated then delta.Elements? && ListOk(W, link, kind, delta.vs, depth)
      else delta.Whole? && ValueOk(W, link, kind, delta.v, depth)
  }

  // --------------------------------------------------- the invariant is kept

  /** Neither a message nor a timedelta. */
  predicate Leafy(v: Value) {
    !v.Nested? && !v.Span?
  }

  lemma {:induction false} DecodedScalar(s: ScalarType, p: Payload)
    requires p.Wire() == s.Wire() && p.Valid()
    ensures DecodeScalar(s, p).Ok? ==> ScalarTyped(s, DecodeScalar(s, p).value) && Leafy(DecodeScalar(s, p).value)
  {
  }

  lemma {:induction false} ZeroScalarTyped(s: ScalarType)
    ensures ScalarTyped(s, ZeroScalar(s)) && Leafy(ZeroScalar(s))
  {
  }

  lemma {:induction false} DecodedLinked(W: World, link: Option<Target>, data: Bytes, depth: nat)
    requires WorldOk(W) && depth <= MAX_DEPTH
    ensures DecodeLinked(W, link, data, depth).Ok? ==>
      ValueOk(W, link, Message, DecodeLinked(W, link, data, depth).value, depth)
    decreases MAX_DEPTH + 1 - depth, 0, 0
  {
    if link.Some? && link.value.MessageClass? {
      DecodedMessage(W, link.value.cls, data, depth + 1);
    }
  }

  lemma {:induction false} DecodedTimes(data: Bytes)
    ensures DecodeInstant(data).Ok? ==>
      DecodeInstant(data).value.Instant? && InstantInRange(DecodeInstant(data).value.micros)
    ensures DecodeSpan(data).Ok? ==>
      && DecodeSpan(data).value.Span? && TimedeltaInRange(DecodeSpan(data).value.micros)
      && ValueSpans(DecodeSpan(data).value)
  {
    if DecodeInstant(data).Ok? {
      AcceptedInstant(DecodeParts(data).value);
    }
    if DecodeSpan(data).Ok? {
      DecodedPartsAreValid(data);
      DecodedSpanInRange(DecodeParts(data).value);
    }
  }

  lemma {:induction false} DecodedValue(W: World, link: Option<Target>, kind: ValueKind, p: Payload, depth: nat)
    requires WorldOk(W) && depth <= MAX_DEPTH && p.Wire() == kind.Wire() && p.Valid()
    ensures DecodeValue(W, link, kind, p, depth).Ok? ==>
      ValueOk(W, link, kind, DecodeValue(W, link, kind, p, depth).value, depth)
    decreases MAX_DEPTH + 1 - depth, 1, 0
  {
    match kind
    case Scalar(s) => DecodedScalar(s, p);
    case Enum =>
    case Message => DecodedLinked(W, link, p.data, depth);
    case Timestamp => DecodedTimes(p.data);
    case Duration => DecodedTimes(p.data);
  }

  lemma {:induction false} DefaultedValue(W: World, link: Option<Target>, kind: ValueKind, depth: nat)
    requires WorldOk(W) && depth <= MAX_DEPTH
    ensures MissingValue(W, link, kind, depth).Ok? ==>
      ValueOk(W, link, kind, MissingValue(W, link, kind, depth).value, depth)
    decreases MAX_DEPTH + 1 - depth, 1, 0
  {
    match kind
    case Scalar(s) => ZeroScalarTyped(s);
    case Message => DecodedLinked(W, link, [], depth);
    case _ =>
  }

  lemma {:induction false} DecodedPacked(W: World, link: Option<Target>, kind: ValueKind, data: Bytes, depth: nat)
    requires kind.Packable()
    ensures DecodePacked(kind, data).Ok? ==> ListOk(W, link, kind, DecodePacked(kind, data).value, depth)
    decreases |data|
  {
    if data != [] && ReadPayload(kind.Wire(), data).Got? {
      var Got(p, n) := ReadPayload(kind.Wire(), data);
      if kind.Scalar? {
        DecodedScalar(kind.scalar, p);
      }
      DecodedPacked(W, link, kind, data[n..], depth);
    }
  }

  predicate EntryStateOk(W: World, link: Option<Target>, key: ScalarType, kind: ValueKind, st: EntryState, depth: nat) {
    && (st.key.Some? ==> ScalarTyped(key, st.key.value))
    && (st.value.Some? ==> ValueOk(W, link, kind, st.value.value, depth))
  }

  lemma {:induction false} EntryStepKeeps(W: World, link: Option<Target>, key: ScalarType, kind: ValueKind,
      st: EntryState, raw: Raw, depth: nat)
    requires WorldOk(W) && depth <= MAX_DEPTH && raw.Valid() && EntryStateOk(W, link, key, kind, st, depth)
    ensures var r := EntryStep(W, link, key, kind, st, raw.rec, depth);
            r.Ok? ==> EntryStateOk(W, link, key, kind, r.value, depth)
    decreases MAX_DEPTH + 1 - depth, 2, 0
  {
    var p := raw.rec.payload;
    ValidRawRecord(raw);
    hide DecodeScalar, DecodeValue, ScalarTyped, ValueOk, Raw.Valid, ScalarType.Wire, WorldOk;
    if raw.rec.number == 1 && p.Wire() == key.Wire() {
      DecodedScalar(key, p);
    } else if raw.rec.number == 2 && p.Wire() == kind.Wire() {
      DecodedValue(W, link, kind, p, depth);
    }
  }

  lemma {:induction false} EntryFoldKeeps(W: World, link: Option<Target>, key: ScalarType, kind: ValueKind,
      st: EntryState, raws: seq<Raw>, depth: nat)
    requires WorldOk(W) && depth <= MAX_DEPTH && AllValid(raws) && EntryStateOk(W, link, key, kind, st, depth)
    ensures var r := EntryFold(W, link, key, kind, st, raws, depth);
            r.Ok? ==> EntryStateOk(W, link, key, kind, r.value, depth)
    decreases MAX_DEPTH + 1 - depth, 3, |raws|
  {
    if raws != [] {
      EntryStepKeeps(W, link, key, kind, st, raws[0], depth);
      var next := EntryStep(W, link, key, kind, st, raws[0].rec, depth);
      if next.Ok? {
        EntryFoldKeeps(W, link, key, kind, next.value, raws[1..], depth);
      }
    }
  }

  lemma {:induction false} DecodedEntry(W: World, link: Option<Target>, key: ScalarType, kind: ValueKind,
      data: Bytes, depth: nat)
    requires WorldOk(W) && depth <= MAX_DEPTH
    ensures DecodeEntry(W, link, key, kind, data, depth).Ok? ==>
      PairOk(W, link, key, kind, DecodeEntry(W, link, key, kind, data, depth).value, depth)
    decreases MAX_DEPTH + 1 - depth, 4, 0
  {
    var start, raws := EntryState(None, None), ScanAll(data).raws;
    hide EntryFold, FinishEntry, ScanAll, PairOk, WorldOk, ScalarTyped, ValueOk;
    ScanIsValid(data);
    EntryFoldKeeps(W, link, key, kind, start, raws, depth);
    var st := EntryFold(W, link, key, kind, start, raws, depth);
    if st.Ok? {
      FinishedEntry(W, link, key, kind, st.value, depth);
    }
  }

  lemma {:induction false} FinishedEntry(W: World, link: Option<Target>, key: ScalarType, kind: ValueKind,
      st: EntryState, depth: nat)
    requires WorldOk(W) && depth <= MAX_DEPTH && EntryStateOk(W, link, key, kind, st, depth)
    ensures var r := FinishEntry(W, link, key, kind, st, depth); r.Ok? ==> PairOk(W, link, key, kind, r.value, depth)
    decreases MAX_DEPTH + 1 - depth, 2, 0
  {
    hide ZeroScalar, ScalarTyped, ValueOk, MissingValue, WorldOk;
    ZeroScalarTyped(key);
    DefaultedValue(W, link, kind, depth);
  }

  lemma {:induction false} ContributedDelta(W: World, link: Option<Target>, f: FieldDescriptor, p: Payload, depth: nat)
    requires WorldOk(W) && depth <= MAX_DEPTH && f.Accepts(p.Wire()) && p.Valid()
    ensures Contribution(W, link, f, p, depth).Ok? ==>
      DeltaOk(W, link, f, Contribution(W, link, f, p, depth).value, depth)
    decreases MAX_DEPTH + 1 - depth, 4, 1
  {
    match f.kind
    case Map(key, kind) => DecodedEntry(W, link, key, kind, p.data, depth);
    case Plain(kind) =>
      if f.cardinality == Repeated && kind.Packable() && p.PLen? {
        DecodedPacked(W, link, kind, p.data, depth);
      } else {
        DecodedValue(W, link, kind, p, depth);
      }
  }

  predicate HasKey(es: seq<Pair>, k: Value) {
    exists i :: 0 <= i < |es| && es[i].key == k
  }

  lemma {:induction false} HasKeyCons(e: Pair, es: seq<Pair>, k: Value)
    ensures HasKey([e] + es, k) <==> e.key == k || HasKey(es, k)
  {
    assert ([e] + es)[0] == e;
    if HasKey(es, k) {
      var i :| 0 <= i < |es| && es[i].key == k;
      assert ([e] + es)[i + 1] == es[i];
    }
  }

  /** `Put` adds its key and no other. */
  lemma {:induction false} PutKeys(es: seq<Pair>, k: Value, v: Value, q: Value)
    ensures HasKey(Put(es, k, v), q) <==> HasKey(es, q) || q == k
  {
    if es == [] {
      HasKeyCons(Pair(k, v), [], q);
      assert [Pair(k, v)] + [] == [Pair(k, v)];
    } else {
      assert [es[0]] + es[1..] == es;
      HasKeyCons(es[0], es[1..], q);
      if es[0].key == k {
        HasKeyCons(Pair(k, v), es[1..], q);
      } else {
        HasKeyCons(es[0], Put(es[1..], k, v), q);
        PutKeys(es[1..], k, v, q);
      }
    }
  }

  lemma {:induction false} PutKeeps(W: World, link: Option<Target>, key: ScalarType, kind: ValueKind,
      es: seq<Pair>, e: Pair, depth: nat)
    requires DictOk(W, link, key, kind, es, depth) && PairOk(W, link, key, kind, e, depth)
    ensures DictOk(W, link, key, kind, Put(es, e.key, e.value), depth)
  {
    if es != [] {
      var rest := es[1..];
      assert DictOk(W, link, key, kind, rest, depth);
      if es[0].key == e.key {
        DistinctCons(e, rest);
      } else {
        PutKeeps(W, link, key, kind, rest, e, depth);
        PutKeys(rest, e.key, e.value, es[0].key);
        DistinctCons(es[0], Put(rest, e.key, e.value));
      }
    }
  }

  lemma {:induction false} DistinctCons(e: Pair, es: seq<Pair>)
    requires DistinctKeys(es) && !HasKey(es, e.key)
    ensures DistinctKeys([e] + es)
  {
  }

  lemma {:induction false} AbsorbKeeps(W: World, link: Option<Target>, f: FieldDescriptor, slot: Slot,
      delta: Delta, depth: nat)
    requires SlotOk(W, link, f, slot, depth) && DeltaOk(W, link, f, delta, depth)
    ensures SlotOk(W, link, f, Absorb(slot, delta), depth) && !Absorb(slot, delta).Unset?
  {
    match f.kind
    case Map(key, kind) => PutKeeps(W, link, key, kind, slot.entries, delta.pair, depth);
    case Plain(kind) =>
  }

  /** A value that arrives for a reachable field keeps every slot in shape. */
  lemma {:induction false} ApplyKeepsSlots(W: World, C: ClassInfo, st: State, idx: nat, delta: Delta, depth: nat)
    requires SlotsOk(W, C, st.slots, depth) && OwnersOk(C.desc, st.slots, st.owner) && WellFormed(C.desc)
    requires idx < |st.slots| && Reachable(C.desc, idx)
    requires DeltaOk(W, C.Link(C.desc.fields[idx].number), C.desc.fields[idx], delta, depth)
    ensures SlotsOk(W, C, Apply(C.desc, st, idx, delta).slots, depth)
  {
    var fields := C.desc.fields;
    var claimed := Claim(fields[idx], idx, st);
    ClaimKeepsSlots(W, C, st, idx, depth);
    AbsorbKeeps(W, C.Link(fields[idx].number), fields[idx], claimed.slots[idx], delta, depth);
  }

  lemma {:induction false} ClaimKeepsSlots(W: World, C: ClassInfo, st: State, idx: nat, depth: nat)
    requires SlotsOk(W, C, st.slots, depth) && OwnersOk(C.desc, st.slots, st.owner) && WellFormed(C.desc)
    requires idx < |st.slots|
    ensures SlotsOk(W, C, Claim(C.desc.fields[idx], idx, st).slots, depth)
  {
    var fields := C.desc.fields;
    var f := fields[idx];
    if f.Group().Some? && f.Group().value in st.owner {
      var prev := st.owner[f.Group().value];
      assert Member(fields, st.slots, f.Group().value, prev);
      assert InitSlot(fields[prev]) == Unset;
    }
  }

  /** The newcomer becomes the only member of its group. */
  lemma {:induction false} ApplyKeepsOwners(d: MessageDescriptor, st: State, idx: nat, delta: Delta)
    requires WellFormed(d) && idx < |d.fields| == |st.slots| && OwnersOk(d, st.slots, st.owner)
    requires !Absorb(Claim(d.fields[idx], idx, st).slots[idx], delta).Unset?
    ensures OwnersOk(d, Apply(d, st, idx, delta).slots, Apply(d, st, idx, delta).owner)
  {
    var fields := d.fields;
    var next := Apply(d, st, idx, delta);
    if fields[idx].Group().Some? {
      var g := fields[idx].Group().value;
      forall i | 0 <= i < |next.slots| && fields[i].Group().Some? && !next.slots[i].Unset?
        ensures fields[i].Group().value in next.owner && next.owner[fields[i].Group().value] == i
      {
        if i != idx {
          assert !st.slots[i].Unset?;
        }
      }
      forall h | h in next.owner
        ensures next.owner[h] < |next.slots| && Member(fields, next.slots, h, next.owner[h])
      {
        if h != g {
          assert Member(fields, st.slots, h, st.owner[h]);
        }
      }
    } else {
      forall h | h in next.owner
        ensures next.owner[h] < |next.slots| && Member(fields, next.slots, h, next.owner[h])
      {
        assert Member(fields, st.slots, h, st.owner[h]);
      }
    }
  }

  lemma {:induction false} UnknownGrows(d: MessageDescriptor, unknown: Bytes, raw: Raw)
    requires UnknownOk(d, unknown) && raw.Valid() && Route(d, raw.rec).None?
    ensures UnknownOk(d, unknown + raw.bytes)
  {
    hide ScanAll, Raw.Valid, Route;
    ScanOne(raw);
    ScanAppend(unknown, raw.bytes);
  }

  lemma {:induction false} RoutedIsReachable(d: MessageDescriptor, rec: Record)
    requires ValidNumber(rec.number) && Route(d, rec).Some?
    ensures var idx := Route(d, rec).value;
            Reachable(d, idx) && d.fields[idx].number == rec.number && d.fields[idx].Accepts(rec.payload.Wire())
  {
  }

  /** Loop invariant: accumulators present, values typed, one member per oneof and it is
      the recorded owner, unknown bytes whole records the schema does not accept. */
  lemma {:induction false} StepKeeps(W: World, C: ClassInfo, st: State, raw: Raw, depth: nat)
    requires WorldOk(W) && depth <= MAX_DEPTH && WellFormed(C.desc) && StateOk(W, C, st, depth) && raw.Valid()
    ensures Step(W, C, st, raw, depth).Ok? ==> StateOk(W, C, Step(W, C, st, raw, depth).value, depth)
    decreases MAX_DEPTH + 1 - depth, 5, 0
  {
    ValidRawRecord(raw);
    match Route(C.desc, raw.rec)
    case None => UnknownGrows(C.desc, st.unknown, raw);
    case Some(idx) =>
      RoutedIsReachable(C.desc, raw.rec);
      var f, link := C.desc.fields[idx], C.Link(raw.rec.number);
      ContributedDelta(W, link, f, raw.rec.payload, depth);
      var c := Contribution(W, link, f, raw.rec.payload, depth);
      if c.Ok? {
        ClaimKeepsSlots(W, C, st, idx, depth);
        AbsorbKeeps(W, link, f, Claim(f, idx, st).slots[idx], c.value, depth);
        ApplyKeepsSlots(W, C, st, idx, c.value, depth);
        ApplyKeepsOwners(C.desc, st, idx, c.value);
      }
  }

  lemma {:induction false} FoldKeeps(W: World, C: ClassInfo, st: State, raws: seq<Raw>, depth: nat)
    requires WorldOk(W) && depth <= MAX_DEPTH && WellFormed(C.desc) && StateOk(W, C, st, depth) && AllValid(raws)
    ensures FoldRecords(W, C, st, raws, depth).Ok? ==> StateOk(W, C, FoldRecords(W, C, st, raws, depth).value, depth)
    decreases MAX_DEPTH + 1 - depth, 6, |raws|
  {
    if raws != [] {
      StepKeeps(W, C, st, raws[0], depth);
      var next := Step(W, C, st, raws[0], depth);
      if next.Ok? {
        FoldKeeps(W, C, next.value, raws[1..], depth);
      }
    }
  }

  lemma {:induction false} InitIsOk(W: World, C: ClassInfo, depth: nat)
    requires WellFormed(C.desc)
    ensures StateOk(W, C, InitState(C.desc), depth)
  {
    assert ScanAll([]) == Scan([], None);
  }

  /** After any input the state satisfies the invariant. */
  lemma {:induction false} RunKeeps(W: World, C: ClassInfo, data: Bytes, depth: nat)
    requires WorldOk(W) && depth <= MAX_DEPTH && WellFormed(C.desc)
    ensures var r := Resume(W, C, InitState(C.desc), data, depth); r.Ok? ==> StateOk(W, C, r.value, depth)
    decreases MAX_DEPTH + 1 - depth, 7, 0
  {
    InitIsOk(W, C, depth);
    ScanIsValid(data);
    FoldKeeps(W, C, InitState(C.desc), ScanAll(data).raws, depth);
  }

  lemma {:induction false} FinishedSlot(W: World, link: Option<Target>, f: FieldDescriptor, groups: nat,
      slot: Slot, depth: nat)
    requires WellFormedField(f, groups) && SlotOk(W, link, f, slot, depth)
    ensures SlotTyped(W, link, f, FinishSlot(f, slot)) && SlotLegal(W, FinishSlot(f, slot), depth)
    ensures SlotSpans(FinishSlot(f, slot))
    ensures f.Group().Some? ==> FinishSlot(f, slot) == slot
  {
    if slot.Unset? && f.cardinality == Single && f.kind.value.Scalar? {
      ZeroScalarTyped(f.kind.value.scalar);
    }
  }

  /** Whatever decodes is well typed, within the nesting limit and has at most one member
      set in every oneof, at every level. */
  lemma {:induction false} DecodedMessage(W: World, cls: ClassId, data: Bytes, depth: nat)
    requires WorldOk(W) && depth <= MAX_DEPTH + 1
    ensures DecodeMessage(W, cls, data, depth).Ok? ==>
      var m := DecodeMessage(W, cls, data, depth).value;
      m.cls == cls && MsgTyped(W, m) && MsgLegal(W, m, depth) && MsgSpans(m)
    decreases MAX_DEPTH + 1 - depth, 8, 0
  {
    if DecodeMessage(W, cls, data, depth).Ok? {
      var C := W[cls];
      RunKeeps(W, C, data, depth);
      FinishedMessage(W, C, cls, Resume(W, C, InitState(C.desc), data, depth).value, depth);
    }
  }

  lemma {:induction false} FinishedMessage(W: World, C: ClassInfo, cls: ClassId, st: State, depth: nat)
    requires cls in W && C == W[cls] && WellFormed(C.desc) && depth <= MAX_DEPTH && StateOk(W, C, st, depth)
    ensures var m := Msg(cls, FinishSlots(C.desc.fields, st.slots), st.unknown);
            MsgTyped(W, m) && MsgLegal(W, m, depth) && MsgSpans(m)
  {
    var fields := C.desc.fields;
    var slots := FinishSlots(fields, st.slots);
    forall i | 0 <= i < |fields|
      ensures SlotTyped(W, C.Link(fields[i].number), fields[i], slots[i]) && SlotLegal(W, slots[i], depth)
      ensures SlotSpans(slots[i])
      ensures fields[i].Group().Some? ==> slots[i] == st.slots[i]
    {
      FinishedSlot(W, C.Link(fields[i].number), fields[i], |C.desc.oneofs|, st.slots[i], depth);
    }
    OwnersGiveOneofs(C.desc, slots, st);
  }

  lemma {:induction false} OwnersGiveOneofs(d: MessageDescriptor, slots: seq<Slot>, st: State)
    requires |slots| == |st.slots| == |d.fields| && OwnersOk(d, st.slots, st.owner)
    requires forall i :: 0 <= i < |slots| && d.fields[i].Group().Some? ==> slots[i] == st.slots[i]
    ensures OneofsOk(d, slots)
  {
    forall g, i, j | 0 <= g < |d.oneofs| && 0 <= i < j < |slots|
      ensures !(Member(d.fields, slots, g, i) && Member(d.fields, slots, g, j))
    {
    }
  }

  /** At most `n` levels of messages below this one. */
  predicate Shallow(m: Msg, n: int)
    decreases m, 2
  {
    forall i :: 0 <= i < |m.slots| ==> ShallowSlot(m.slots[i], n)
  }

  predicate ShallowSlot(slot: Slot, n: int)
    decreases slot, 1
  {
    match slot
    case Unset => true
    case One(v) => ShallowValue(v, n)
    case Many(vs) => forall i :: 0 <= i < |vs| ==> ShallowValue(vs[i], n)
    case Dict(es) => forall i :: 0 <= i < |es| ==> ShallowValue(es[i].value, n)
  }

  predicate ShallowValue(v: Value, n: int)
    decreases v, 0
  {
    v.Nested? ==> n > 0 && Shallow(v.m, n - 1)
  }

  lemma {:induction false} LegalValueIsShallow(W: World, v: Value, depth: nat)
    requires depth <= MAX_DEPTH && ValueLegal(W, v, depth)
    ensures ShallowValue(v, MAX_DEPTH - depth)
    decreases v, 0
  {
    if v.Nested? {
      LegalIsShallow(W, v.m, depth + 1);
    }
  }

  lemma {:induction false} LegalIsShallow(W: World, m: Msg, depth: nat)
    requires MsgLegal(W, m, depth)
    ensures depth <= MAX_DEPTH && Shallow(m, MAX_DEPTH - depth)
    decreases m, 2
  {
    forall i | 0 <= i < |m.slots|
      ensures ShallowSlot(m.slots[i], MAX_DEPTH - depth)
    {
      LegalSlotIsShallow(W, m.slots[i], depth);
    }
  }

  lemma {:induction false} LegalSlotIsShallow(W: World, slot: Slot, depth: nat)
    requires depth <= MAX_DEPTH && SlotLegal(W, slot, depth)
    ensures ShallowSlot(slot, MAX_DEPTH - depth)
    decreases slot, 1
  {
    match slot
    case Unset =>
    case One(v) => LegalValueIsShallow(W, v, depth);
    case Many(vs) =>
      forall i | 0 <= i < |vs|
        ensures ShallowValue(vs[i], MAX_DEPTH - depth)
      {
        LegalValueIsShallow(W, vs[i], depth);
      }
    case Dict(es) =>
      forall i | 0 <= i < |es|
        ensures ShallowValue(es[i].value, MAX_DEPTH - depth)
      {
        LegalValueIsShallow(W, es[i].value, depth);
      }
  }

  /** No decoded tree is nested deeper than the limit leaves room for: a message decoded at
      the top has at most 100 levels below it. */
  lemma {:induction false} DecodedDepth(W: World, cls: ClassId, data: Bytes, depth: nat)
    requires WorldOk(W) && depth <= MAX_DEPTH + 1
    ensures DecodeMessage(W, cls, data, depth).Ok? ==>
      depth <= MAX_DEPTH && Shallow(DecodeMessage(W, cls, data, depth).value, MAX_DEPTH - depth)
  {
    hide *;
    DecodedMessage(W, cls, data, depth);
    if DecodeMessage(W, cls, data, depth).Ok? {
      LegalIsShallow(W, DecodeMessage(W, cls, data, depth).value, depth);
    }
  }

  /** No timedelta below `v` is one of the two that slip past the wrapping range test. */
  predicate ValueUnwrapped(v: Value)
    decreases v, 0
  {
    match v
    case Span(us) => !WrappedMicros(us)
    case Nested(m) => MsgUnwrapped(m)
    case _ => true
  }

  predicate SlotUnwrapped(slot: Slot)
    decreases slot, 1
  {
    match slot
    case Unset => true
    case One(v) => ValueUnwrapped(v)
    case Many(vs) => forall i :: 0 <= i < |vs| ==> ValueUnwrapped(vs[i])
    case Dict(es) => forall i :: 0 <= i < |es| ==> ValueUnwrapped(es[i].value)
  }

  predicate MsgUnwrapped(m: Msg)
    decreases m, 2
  {
    forall i :: 0 <= i < |m.slots| ==> SlotUnwrapped(m.slots[i])
  }

  lemma {:induction false} UnwrappedValue(v: Value)
    requires ValueSpans(v)
    ensures ValueInRange(v) <==> ValueUnwrapped(v)
    decreases v, 0
  {
    if v.Nested? {
      UnwrappedMessage(v.m);
    }
  }

  lemma {:induction false} UnwrappedSlot(slot: Slot)
    requires SlotSpans(slot)
    ensures SlotInRange(slot) <==> SlotUnwrapped(slot)
    decreases slot, 1
  {
    match slot
    case Unset =>
    case One(v) => UnwrappedValue(v);
    case Many(vs) =>
      forall i | 0 <= i < |vs|
        ensures ValueInRange(vs[i]) <==> ValueUnwrapped(vs[i])
      {
        UnwrappedValue(vs[i]);
      }
    case Dict(es) =>
      forall i | 0 <= i < |es|
        ensures ValueInRange(es[i].value) <==> ValueUnwrapped(es[i].value)
      {
        UnwrappedValue(es[i].value);
      }
  }

  /** Of what the decoder yields, exactly the messages with one of these two are out of range. */
  lemma {:induction false} UnwrappedMessage(m: Msg)
    requires MsgSpans(m)
    ensures MsgInRange(m) <==> MsgUnwrapped(m)
    decreases m, 2
  {
    forall i | 0 <= i < |m.slots|
      ensures SlotInRange(m.slots[i]) <==> SlotUnwrapped(m.slots[i])
    {
      UnwrappedSlot(m.slots[i]);
    }
  }

  /**
   Re-encoding: a message decoded from any bytes encodes again exactly when none of its
   timedeltas is one of the two that wrapped past the range test, which is when all of them
   are in Duration's range; then its encoding decodes to the same message, unknown bytes
   included.
   */
  lemma {:induction false} ReencodeDecoded(W: World, cls: ClassId, data: Bytes)
    requires WorldOk(W) && DecodeMessage(W, cls, data, 0).Ok?
    ensures var m := DecodeMessage(W, cls, data, 0).value;
            var e := EncodeMessage(W, m, 0);
            && (e.Ok? <==> MsgUnwrapped(m)) && (e.Ok? <==> MsgInRange(m))
            && (e.Ok? && IsU64(|e.value|) ==> DecodeMessage(W, cls, e.value, 0) == Ok(m))
  {
    var m := DecodeMessage(W, cls, data, 0).value;
    DecodedMessage(W, cls, data, 0);
    MessageEncodes(W, m, 0);
    UnwrappedMessage(m);
    var e := EncodeMessage(W, m, 0);
    if e.Ok? && IsU64(|e.value|) {
      MessageRoundTrip(W, m, e.value, 0);
    }
  }
}
