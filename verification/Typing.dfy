/** Well-typed messages, and the plain facts about the encoder and the decoder loop the
    larger proofs share. */
module Typing {
  import opened Basics
  import opened Wire
  import opened Records
  import opened Descriptors
  import opened WellKnown
  import opened Values
  import opened Encoding
  import opened Decoding

  // ------------------------------------------------------------ typing rules

  /** `v` is a value a field of this kind, linked to this class, can hold. */
  predicate ValueTyped(W: World, link: Option<Target>, kind: ValueKind, v: Value)
    decreases v, 0
  {
    match kind
    case Scalar(s) => ScalarTyped(s, v)
    case Enum => v.Num? && IsI32(v.n)
    case Message => v.Nested? && link == Some(MessageClass(v.m.cls)) && MsgTyped(W, v.m)
    case Timestamp => v.Instant? && InstantInRange(v.micros)
    case Duration => v.Span? && TimedeltaInRange(v.micros)
  }

  predicate AllTyped(W: World, link: Option<Target>, kind: ValueKind, vs: seq<Value>)
    decreases vs, 1
  {
    forall i :: 0 <= i < |vs| ==> ValueTyped(W, link, kind, vs[i])
  }

  predicate PairTyped(W: World, link: Option<Target>, key: ScalarType, kind: ValueKind, e: Pair)
    decreases e, 1
  {
    ScalarTyped(key, e.key) && ValueTyped(W, link, kind, e.value)
  }

  predicate EntriesTyped(W: World, link: Option<Target>, key: ScalarType, kind: ValueKind, es: seq<Pair>)
    decreases es, 2
  {
    forall i :: 0 <= i < |es| ==> PairTyped(W, link, key, kind, es[i])
  }

  predicate SlotTyped(W: World, link: Option<Target>, f: FieldDescriptor, slot: Slot)
    decreases slot, 3
  {
    match f.kind
    case Map(key, kind) => slot.Dict? && DistinctKeys(slot.entries) && EntriesTyped(W, link, key, kind, slot.entries)
    case Plain(kind) =>
      match f.cardinality
      case Repeated => slot.Many? && AllTyped(W, link, kind, slot.vs)
      case Optional => slot.Unset? || (slot.One? && ValueTyped(W, link, kind, slot.v))
      case Single => slot.One? && ValueTyped(W, link, kind, slot.v)
  }

  /** Records of this field's number reach it: it is the first declaration of a number
      that can stand in a tag. */
  predicate Reachable(d: MessageDescriptor, i: nat)
    requires i < |d.fields|
  {
    ValidNumber(d.fields[i].number) && Lookup(d.fields, d.fields[i].number) == Some(i)
  }

  /** The attribute of a field nothing was decoded into. */
  function RestSlot(f: FieldDescriptor): Slot {
    FinishSlot(f, InitSlot(f))
  }

  /** Unknown bytes are whole records the schema does not accept. */
  predicate UnknownOk(d: MessageDescriptor, unknown: Bytes) {
    var scan := ScanAll(unknown);
    scan.end.None? && forall i :: 0 <= i < |scan.raws| ==> Route(d, scan.raws[i].rec).None?
  }

  predicate MsgTyped(W: World, m: Msg)
    decreases m, 4
  {
    m.cls in W &&
    var C := W[m.cls];
    var fields := C.desc.fields;
    && |m.slots| == |fields|
    && (forall i :: 0 <= i < |fields| ==> SlotTyped(W, C.Link(fields[i].number), fields[i], m.slots[i]))
    && (forall i :: 0 <= i < |fields| ==> Reachable(C.desc, i) || m.slots[i] == RestSlot(fields[i]))
    && UnknownOk(C.desc, m.unknown)
  }

  /** With distinct, legal field numbers every field is reachable. */
  lemma {:induction false} DistinctNumbersAreReachable(d: MessageDescriptor)
    requires forall i :: 0 <= i < |d.fields| ==> ValidNumber(d.fields[i].number)
    requires forall i, j :: 0 <= i < j < |d.fields| ==> d.fields[i].number != d.fields[j].number
    ensures forall i :: 0 <= i < |d.fields| ==> Reachable(d, i)
  {
    forall i | 0 <= i < |d.fields|
      ensures Reachable(d, i)
    {
      var r := Lookup(d.fields, d.fields[i].number);
      assert r.Some?;
      assert r.value <= i;
    }
  }

  // --------------------------------------------------------- encoder shapes

  /** Only a length can make an encoded payload unfit for the wire. */
  predicate Fits(p: Payload) {
    p.PLen? ==> IsU64(|p.data|)
  }

  lemma {:induction false} EncodedScalarShape(s: ScalarType, v: Value)
    ensures EncodeScalar(s, v).Ok? ==>
      var p := EncodeScalar(s, v).value; p.Wire() == s.Wire() && (Fits(p) ==> p.Valid())
    ensures ScalarTyped(s, v) ==> EncodeScalar(s, v).Ok?
  {
  }

  lemma {:induction false} EncodedValueShape(W: World, kind: ValueKind, v: Value, depth: nat)
    requires depth <= MAX_DEPTH
    ensures EncodeValue(W, kind, v, depth).Ok? ==>
      var p := EncodeValue(W, kind, v, depth).value; p.Wire() == kind.Wire() && (Fits(p) ==> p.Valid())
  {
    match kind
    case Scalar(s) => EncodedScalarShape(s, v);
    case _ =>
  }

  predicate Shaped(f: FieldDescriptor, recs: seq<Record>) {
    forall i :: 0 <= i < |recs| ==>
      && recs[i].number == f.number && f.Accepts(recs[i].payload.Wire())
      && (Fits(recs[i].payload) ==> recs[i].payload.Valid())
  }

  lemma {:induction false} EncodedEachShape(W: World, f: FieldDescriptor, kind: ValueKind, vs: seq<Value>, depth: nat)
    requires depth <= MAX_DEPTH && f.kind == Plain(kind)
    ensures EncodeEach(W, f.number, kind, vs, depth).Ok? ==>
      var recs := EncodeEach(W, f.number, kind, vs, depth).value; |recs| == |vs| && Shaped(f, recs)
    decreases |vs|
  {
    if vs != [] {
      EncodedValueShape(W, kind, vs[0], depth);
      EncodedEachShape(W, f, kind, vs[1..], depth);
    }
  }

  lemma {:induction false} EncodedEntriesShape(W: World, f: FieldDescriptor, key: ScalarType,
      kind: ValueKind, es: seq<Pair>, depth: nat)
    requires depth <= MAX_DEPTH && f.kind == Map(key, kind)
    ensures EncodeEntries(W, f.number, key, kind, es, depth).Ok? ==>
      var recs := EncodeEntries(W, f.number, key, kind, es, depth).value; |recs| == |es| && Shaped(f, recs)
    decreases |es|
  {
    if es != [] {
      EncodedEntriesShape(W, f, key, kind, es[1..], depth);
    }
  }

  lemma {:induction false} EncodedFieldShape(W: World, f: FieldDescriptor, slot: Slot, depth: nat)
    requires depth <= MAX_DEPTH
    ensures EncodeField(W, f, slot, depth).Ok? ==> Shaped(f, EncodeField(W, f, slot, depth).value)
  {
    match f.kind
    case Map(key, kind) =>
      if slot.Dict? {
        EncodedEntriesShape(W, f, key, kind, slot.entries, depth);
      }
    case Plain(kind) =>
      if slot.Many? {
        EncodedEachShape(W, f, kind, slot.vs, depth);
      } else if slot.One? {
        EncodedEachShape(W, f, kind, [slot.v], depth);
      }
  }

  // ------------------------------------------------------------ record loop

  lemma {:induction false} FoldRecordsAppend(W: World, C: ClassInfo, st: State, a: seq<Raw>, b: seq<Raw>, depth: nat)
    requires depth <= MAX_DEPTH && |st.slots| == |C.desc.fields|
    ensures FoldRecords(W, C, st, a, depth).Err? ==>
      FoldRecords(W, C, st, a + b, depth) == FoldRecords(W, C, st, a, depth)
    ensures FoldRecords(W, C, st, a, depth).Ok? ==>
      FoldRecords(W, C, st, a + b, depth) == FoldRecords(W, C, FoldRecords(W, C, st, a, depth).value, b, depth)
    decreases |a|
  {
    if a == [] {
      assert a + b == b;
    } else {
      assert (a + b)[1..] == a[1..] + b && (a + b)[0] == a[0];
      var next := Step(W, C, st, a[0], depth);
      if next.Ok? {
        FoldRecordsAppend(W, C, next.value, a[1..], b, depth);
      }
    }
  }

  /** The record loop from the outcome of a step on. */
  function ResumeAfter(W: World, C: ClassInfo, here: Outcome<State>, rest: Bytes, depth: nat): Outcome<State>
    requires depth <= MAX_DEPTH && (here.Ok? ==> |here.value.slots| == |C.desc.fields|)
  {
    match here
    case Err(e) => Err(e)
    case Ok(st) => Resume(W, C, st, rest, depth)
  }

  /** One turn of the record loop. */
  lemma {:induction false} ResumeUnroll(W: World, C: ClassInfo, st: State, data: Bytes, depth: nat)
    requires depth <= MAX_DEPTH && |st.slots| == |C.desc.fields| && data != []
    ensures ReadRecord(data).Bad? ==> Resume(W, C, st, data, depth) == Err(Malformed(ReadRecord(data).error))
    ensures ReadRecord(data).Got? ==>
      var Got(rec, n) := ReadRecord(data);
      Resume(W, C, st, data, depth) == ResumeAfter(W, C, Step(W, C, st, Raw(rec, data[..n]), depth), data[n..], depth)
  {
    hide Step, ReadRecord;
    if ReadRecord(data).Got? {
      var n := ReadRecord(data).used;
      assert ScanAll(data).raws[1..] == ScanAll(data[n..]).raws;
    }
  }

  lemma {:induction false} FoldUnknown(W: World, C: ClassInfo, st: State, raws: seq<Raw>, depth: nat)
    requires depth <= MAX_DEPTH && |st.slots| == |C.desc.fields|
    requires forall i :: 0 <= i < |raws| ==> Route(C.desc, raws[i].rec).None?
    ensures FoldRecords(W, C, st, raws, depth) == Ok(st.(unknown := st.unknown + Concat(raws)))
    decreases |raws|
  {
    if raws == [] {
      assert st.unknown + [] == st.unknown;
    } else {
      var next := st.(unknown := st.unknown + raws[0].bytes);
      FoldUnknown(W, C, next, raws[1..], depth);
      Associative(st.unknown, raws[0].bytes, Concat(raws[1..]));
    }
  }
}
