/**
 The declarative reading of a decoded stream: what each field ends up with depends only on
 the ordered records that concern it, concatenated streams merge, and packed and unpacked
 lists mean the same.
 */
module Meaning {
  import opened Basics
  import opened Wire
  import opened Records
  import opened Descriptors
  import opened Values
  import opened Encoding
  import opened Decoding
  import opened Typing
  import opened RoundTrip
  import opened Accepted

  // ------------------------------------------------------- one field at a time

  /** The record sets another member of this field's oneof group. */
  predicate Rival(d: MessageDescriptor, idx: nat, rec: Record)
    requires idx < |d.fields|
  {
    var r := Route(d, rec);
    && r.Some? && r.value != idx && d.fields[idx].oneofIndex.Some?
    && d.fields[r.value].oneofIndex == d.fields[idx].oneofIndex
    && d.fields[idx].cardinality == Optional && d.fields[r.value].cardinality == Optional
  }

  /** The record is the field's own or a rival's. */
  predicate Concerns(d: MessageDescriptor, idx: nat, rec: Record)
    requires idx < |d.fields|
  {
    Route(d, rec) == Some(idx) || Rival(d, idx, rec)
  }

  /** One record as a single field sees it: its own records add to the slot, a rival's
      record empties it, all others leave it alone. */
  function FieldStep(W: World, C: ClassInfo, idx: nat, slot: Slot, rec: Record, depth: nat): Outcome<Slot>
    requires depth <= MAX_DEPTH && idx < |C.desc.fields|
  {
    if Route(C.desc, rec) == Some(idx) then
      var delta :- Contribution(W, C.Link(rec.number), C.desc.fields[idx], rec.payload, depth);
      Ok(Absorb(slot, delta))
    else if Rival(C.desc, idx, rec) then Ok(Unset)
    else Ok(slot)
  }

  function FieldFold(W: World, C: ClassInfo, idx: nat, slot: Slot, raws: seq<Raw>, depth: nat): Outcome<Slot>
    requires depth <= MAX_DEPTH && idx < |C.desc.fields|
    decreases |raws|
  {
    if raws == [] then Ok(slot)
    else
      var next :- FieldStep(W, C, idx, slot, raws[0].rec, depth);
      FieldFold(W, C, idx, next, raws[1..], depth)
  }

  /** The ordered subsequence of records that concern a field. */
  function Concerning(d: MessageDescriptor, idx: nat, raws: seq<Raw>): seq<Raw>
    requires idx < |d.fields|
  {
    if raws == [] then []
    else if Concerns(d, idx, raws[0].rec) then [raws[0]] + Concerning(d, idx, raws[1..])
    else Concerning(d, idx, raws[1..])
  }

  /** The ordered subsequence of records no field accepts. */
  function Unrouted(d: MessageDescriptor, raws: seq<Raw>): seq<Raw> {
    if raws == [] then []
    else if Route(d, raws[0].rec).None? then [raws[0]] + Unrouted(d, raws[1..])
    else Unrouted(d, raws[1..])
  }

  /** With one member set per group at most, clearing the recorded owner is the same as
      clearing every rival. */
  lemma {:induction false} StepProjects(W: World, C: ClassInfo, st: State, raw: Raw, idx: nat, depth: nat)
    requires depth <= MAX_DEPTH && idx < |C.desc.fields| == |st.slots|
    requires OwnersOk(C.desc, st.slots, st.owner) && Step(W, C, st, raw, depth).Ok?
    ensures FieldStep(W, C, idx, st.slots[idx], raw.rec, depth) == Ok(Step(W, C, st, raw, depth).value.slots[idx])
  {
    if Route(C.desc, raw.rec).Some? {
      var r := Route(C.desc, raw.rec).value;
      var g := C.desc.fields[r].Group();
      if g.Some? && g.value in st.owner {
        assert Member(C.desc.fields, st.slots, g.value, st.owner[g.value]);
      }
    }
  }

  lemma {:induction false} StepKeepsOwners(W: World, C: ClassInfo, st: State, raw: Raw, depth: nat)
    requires depth <= MAX_DEPTH && |C.desc.fields| == |st.slots| && WellFormed(C.desc)
    requires OwnersOk(C.desc, st.slots, st.owner) && Step(W, C, st, raw, depth).Ok?
    ensures var next := Step(W, C, st, raw, depth).value; OwnersOk(C.desc, next.slots, next.owner)
  {
    if Route(C.desc, raw.rec).Some? {
      var idx := Route(C.desc, raw.rec).value;
      var delta := Contribution(W, C.Link(raw.rec.number), C.desc.fields[idx], raw.rec.payload, depth).value;
      ApplyKeepsOwners(C.desc, st, idx, delta);
    }
  }

  /** What the whole loop leaves in a field is what the field's own fold computes. */
  lemma {:induction false} FoldProjects(W: World, C: ClassInfo, st: State, raws: seq<Raw>, idx: nat, depth: nat)
    requires depth <= MAX_DEPTH && idx < |C.desc.fields| == |st.slots| && WellFormed(C.desc)
    requires OwnersOk(C.desc, st.slots, st.owner) && FoldRecords(W, C, st, raws, depth).Ok?
    ensures FieldFold(W, C, idx, st.slots[idx], raws, depth) == Ok(FoldRecords(W, C, st, raws, depth).value.slots[idx])
    decreases |raws|
  {
    if raws != [] {
      StepProjects(W, C, st, raws[0], idx, depth);
      StepKeepsOwners(W, C, st, raws[0], depth);
      FoldProjects(W, C, Step(W, C, st, raws[0], depth).value, raws[1..], idx, depth);
    }
  }

  /** Records that do not concern a field can be dropped. */
  lemma {:induction false} FoldOfConcerning(W: World, C: ClassInfo, idx: nat, slot: Slot, raws: seq<Raw>, depth: nat)
    requires depth <= MAX_DEPTH && idx < |C.desc.fields|
    ensures FieldFold(W, C, idx, slot, raws, depth) == FieldFold(W, C, idx, slot, Concerning(C.desc, idx, raws), depth)
    decreases |raws|
  {
    if raws != [] {
      var rest := Concerning(C.desc, idx, raws[1..]);
      var next := FieldStep(W, C, idx, slot, raws[0].rec, depth);
      if Concerns(C.desc, idx, raws[0].rec) {
        assert Concerning(C.desc, idx, raws)[1..] == rest;
        if next.Ok? {
          FoldOfConcerning(W, C, idx, next.value, raws[1..], depth);
        }
      } else {
        FoldOfConcerning(W, C, idx, slot, raws[1..], depth);
      }
    }
  }

  lemma {:induction false} UnknownIsUnrouted(W: World, C: ClassInfo, st: State, raws: seq<Raw>, depth: nat)
    requires depth <= MAX_DEPTH && |C.desc.fields| == |st.slots| && FoldRecords(W, C, st, raws, depth).Ok?
    ensures FoldRecords(W, C, st, raws, depth).value.unknown == st.unknown + Concat(Unrouted(C.desc, raws))
    decreases |raws|
  {
    if raws == [] {
      assert st.unknown + [] == st.unknown;
    } else {
      var next := Step(W, C, st, raws[0], depth).value;
      UnknownIsUnrouted(W, C, next, raws[1..], depth);
      if Route(C.desc, raws[0].rec).None? {
        assert Unrouted(C.desc, raws)[1..] == Unrouted(C.desc, raws[1..]);
        Associative(st.unknown, raws[0].bytes, Concat(Unrouted(C.desc, raws[1..])));
      }
    }
  }

  /** Whether a step fails, and how, does not depend on the state it starts from. */
  lemma {:induction false} FoldErrors(W: World, C: ClassInfo, s: State, t: State, raws: seq<Raw>, depth: nat)
    requires depth <= MAX_DEPTH && |C.desc.fields| == |s.slots| == |t.slots|
    ensures var a, b := FoldRecords(W, C, s, raws, depth), FoldRecords(W, C, t, raws, depth);
            (a.Ok? <==> b.Ok?) && (a.Err? ==> a == b)
    decreases |raws|
  {
    if raws != [] {
      var a, b := Step(W, C, s, raws[0], depth), Step(W, C, t, raws[0], depth);
      if a.Ok? && b.Ok? {
        FoldErrors(W, C, a.value, b.value, raws[1..], depth);
      }
    }
  }

  /**
   The record loop has a declarative meaning.  If it succeeds, the input is the
   concatenation of its records; every field holds what folding only the records that
   concern it gives; and the unknown bytes are the raw bytes of the records no field
   accepts, in order.
   */
  lemma {:induction false} DecodedMeaning(W: World, cls: ClassId, data: Bytes, depth: nat)
    requires WorldOk(W) && depth <= MAX_DEPTH && DecodeMessage(W, cls, data, depth).Ok?
    ensures var m, C, raws := DecodeMessage(W, cls, data, depth).value, W[cls], ScanAll(data).raws;
            && ScanAll(data).end.None? && Concat(raws) == data
            && m.unknown == Concat(Unrouted(C.desc, raws))
            && |m.slots| == |C.desc.fields|
            && forall i :: 0 <= i < |m.slots| ==>
                 var r := FieldFold(W, C, i, InitSlot(C.desc.fields[i]), Concerning(C.desc, i, raws), depth);
                 r.Ok? && m.slots[i] == FinishSlot(C.desc.fields[i], r.value)
  {
    var m, C, raws := DecodeMessage(W, cls, data, depth).value, W[cls], ScanAll(data).raws;
    var start := InitState(C.desc);
    ConcatOfScan(data);
    UnknownIsUnrouted(W, C, start, raws, depth);
    assert [] + Concat(Unrouted(C.desc, raws)) == Concat(Unrouted(C.desc, raws));
    forall i | 0 <= i < |m.slots|
      ensures var r := FieldFold(W, C, i, InitSlot(C.desc.fields[i]), Concerning(C.desc, i, raws), depth);
              r.Ok? && m.slots[i] == FinishSlot(C.desc.fields[i], r.value)
    {
      FoldProjects(W, C, start, raws, i, depth);
      FoldOfConcerning(W, C, i, InitSlot(C.desc.fields[i]), raws, depth);
    }
  }

  // -------------------------------------------------------- last one wins

  lemma {:induction false} FieldFoldAppend(W: World, C: ClassInfo, idx: nat, slot: Slot, a: seq<Raw>,
      b: seq<Raw>, depth: nat)
    requires depth <= MAX_DEPTH && idx < |C.desc.fields|
    ensures var r := FieldFold(W, C, idx, slot, a, depth);
            FieldFold(W, C, idx, slot, a + b, depth) == if r.Ok? then FieldFold(W, C, idx, r.value, b, depth) else r
    decreases |a|
  {
    if a == [] {
      assert a + b == b;
    } else {
      assert (a + b)[1..] == a[1..] + b && (a + b)[0] == a[0];
      var next := FieldStep(W, C, idx, slot, a[0].rec, depth);
      if next.Ok? {
        FieldFoldAppend(W, C, idx, next.value, a[1..], b, depth);
      }
    }
  }

  lemma {:induction false} FoldOfStrangers(W: World, C: ClassInfo, idx: nat, slot: Slot, raws: seq<Raw>, depth: nat)
    requires depth <= MAX_DEPTH && idx < |C.desc.fields|
    requires forall i :: 0 <= i < |raws| ==> !Concerns(C.desc, idx, raws[i].rec)
    ensures FieldFold(W, C, idx, slot, raws, depth) == Ok(slot)
    decreases |raws|
  {
    if raws != [] {
      FoldOfStrangers(W, C, idx, slot, raws[1..], depth);
    }
  }

  /** A singular field is decided by the last record that concerns it: the value of its
      own record (nested messages are replaced, not merged), or nothing if it is a rival's. */
  lemma {:induction false} LastOneWins(W: World, C: ClassInfo, idx: nat, before: seq<Raw>, last: Raw,
      after: seq<Raw>, depth: nat)
    requires depth <= MAX_DEPTH && idx < |C.desc.fields| && !C.desc.fields[idx].Collection()
    requires Concerns(C.desc, idx, last.rec)
    requires forall i :: 0 <= i < |after| ==> !Concerns(C.desc, idx, after[i].rec)
    requires FieldFold(W, C, idx, Unset, before + [last] + after, depth).Ok?
    ensures var r := FieldFold(W, C, idx, Unset, before + [last] + after, depth).value;
            if Rival(C.desc, idx, last.rec) then r == Unset
            else
              var kind := C.desc.fields[idx].kind.value;
              && last.rec.payload.Wire() == kind.Wire()
              && var v := DecodeValue(W, C.Link(last.rec.number), kind, last.rec.payload, depth);
                 v.Ok? && r == One(v.value)
  {
    FieldFoldAppend(W, C, idx, Unset, before + [last], after, depth);
    FieldFoldAppend(W, C, idx, Unset, before, [last], depth);
    var mid := FieldFold(W, C, idx, Unset, before, depth).value;
    assert [last][1..] == [];
    var next := FieldStep(W, C, idx, mid, last.rec, depth);
    assert next.Ok? ==> FieldFold(W, C, idx, mid, [last], depth) == FieldFold(W, C, idx, next.value, [], depth);
    FoldOfStrangers(W, C, idx, next.value, after, depth);
  }

  // ---------------------------------------------------- packed and unpacked

  /** A piece of a list on the wire: several packed values, or one value of its own. */
  datatype Chunk = Packed(vs: seq<Value>) | Lone(v: Value) {
    function Values(): seq<Value> {
      if Packed? then vs else [v]
    }
  }

  function AllValues(chunks: seq<Chunk>): seq<Value> {
    if chunks == [] then [] else chunks[0].Values() + AllValues(chunks[1..])
  }

  /** The payload is an encoding of the chunk's values. */
  predicate Carries(W: World, kind: ValueKind, chunk: Chunk, p: Payload, depth: nat)
    requires depth <= MAX_DEPTH
  {
    match chunk
    case Packed(vs) => kind.Packable() && p.PLen? && EncodePacked(W, kind, vs, depth) == Ok(p.data)
    case Lone(v) => EncodeValue(W, kind, v, depth) == Ok(p)
  }

  lemma {:induction false} ChunkContribution(W: World, link: Option<Target>, f: FieldDescriptor,
      chunk: Chunk, p: Payload, depth: nat)
    requires WorldOk(W) && depth <= MAX_DEPTH && f.kind.Plain? && f.cardinality == Repeated && p.Valid()
    requires AllTyped(W, link, f.kind.value, chunk.Values()) && Carries(W, f.kind.value, chunk, p, depth)
    ensures f.Accepts(p.Wire()) && Contribution(W, link, f, p, depth) == Ok(Elements(chunk.Values()))
  {
    match chunk
    case Packed(vs) => PackedRoundTrip(W, link, f.kind.value, vs, p.data, depth);
    case Lone(v) =>
      assert chunk.Values()[0] == v;
      ValueRoundTrip(W, link, f.kind.value, v, p, depth);
  }

  /** The list's own records, in order, carry these chunks. */
  predicate CarryAll(W: World, C: ClassInfo, idx: nat, chunks: seq<Chunk>, own: seq<Raw>, depth: nat)
    requires depth <= MAX_DEPTH && idx < |C.desc.fields|
  {
    var f := C.desc.fields[idx];
    && f.kind.Plain? && f.cardinality == Repeated && |own| == |chunks|
    && forall i :: 0 <= i < |own| ==>
      && Route(C.desc, own[i].rec) == Some(idx) && own[i].rec.payload.Valid()
      && AllTyped(W, C.Link(f.number), f.kind.value, chunks[i].Values())
      && Carries(W, f.kind.value, chunks[i], own[i].rec.payload, depth)
  }

  lemma {:induction false} ChunksFold(W: World, C: ClassInfo, idx: nat, pre: seq<Value>, chunks: seq<Chunk>,
      own: seq<Raw>, depth: nat)
    requires WorldOk(W) && depth <= MAX_DEPTH && idx < |C.desc.fields| && CarryAll(W, C, idx, chunks, own, depth)
    ensures FieldFold(W, C, idx, Many(pre), own, depth) == Ok(Many(pre + AllValues(chunks)))
    decreases |own|
  {
    if own == [] {
      assert pre + [] == pre;
    } else {
      var f := C.desc.fields[idx];
      var vs := chunks[0].Values();
      ChunkContribution(W, C.Link(f.number), f, chunks[0], own[0].rec.payload, depth);
      ChunksFold(W, C, idx, pre + vs, chunks[1..], own[1..], depth);
      Associative(pre, vs, AllValues(chunks[1..]));
    }
  }

  /**
   However a list is cut into packed and single records, and whatever records of other
   fields stand between them, it decodes to the concatenation of the pieces.
   */
  lemma {:induction false} PackedAndUnpackedAgree(W: World, cls: ClassId, data: Bytes, idx: nat,
      chunks: seq<Chunk>, depth: nat)
    requires WorldOk(W) && depth <= MAX_DEPTH && DecodeMessage(W, cls, data, depth).Ok? && idx < |W[cls].desc.fields|
    requires CarryAll(W, W[cls], idx, chunks, Concerning(W[cls].desc, idx, ScanAll(data).raws), depth)
    ensures var m := DecodeMessage(W, cls, data, depth).value;
            idx < |m.slots| && m.slots[idx] == Many(AllValues(chunks))
  {
    DecodedMeaning(W, cls, data, depth);
    ChunksFold(W, W[cls], idx, [], chunks, Concerning(W[cls].desc, idx, ScanAll(data).raws), depth);
    assert [] + AllValues(chunks) == AllValues(chunks);
  }

  // --------------------------------------- lists on whatever bytes are accepted

  /** The bytes of a record's list elements: what a packed record holds, or what stands
      behind the tag. */
  function ElementBytes(raw: Raw): Bytes {
    if raw.rec.payload.PLen? then raw.rec.payload.data
    else
      match ReadTag(raw.bytes)
      case Bad(_) => []
      case Got(_, n) => raw.bytes[n..]
  }

  function ListBytes(raws: seq<Raw>): Bytes {
    if raws == [] then [] else ElementBytes(raws[0]) + ListBytes(raws[1..])
  }

  /** A packed payload behind another one: the values of both, in order. */
  lemma {:induction false} DecodePackedAppend(kind: ValueKind, x: Bytes, y: Bytes)
    requires kind.Packable() && DecodePacked(kind, x).Ok?
    ensures var r := DecodePacked(kind, y);
            DecodePacked(kind, x + y) == if r.Ok? then Ok(DecodePacked(kind, x).value + r.value) else r
    decreases |x|
  {
    hide ReadPayload, DecodeScalar, ScalarType.Wire;
    if x == [] {
      assert x + y == y;
      assert DecodePacked(kind, y).Ok? ==> [] + DecodePacked(kind, y).value == DecodePacked(kind, y).value;
    } else {
      var n := ReadPayload(kind.Wire(), x).used;
      assert (x + y)[..n] == x[..n] && (x + y)[n..] == x[n..] + y;
      ReadPayloadIsLocal(kind.Wire(), x, x + y);
      DecodePackedAppend(kind, x[n..], y);
      if DecodePacked(kind, y).Ok? {
        var v := DecodePacked(kind, x).value[0];
        assert DecodePacked(kind, x).value == [v] + DecodePacked(kind, x[n..]).value;
        Associative([v], DecodePacked(kind, x[n..]).value, DecodePacked(kind, y).value);
      }
    }
  }

  lemma {:induction false} PayloadBehindTag(raw: Raw)
    requires raw.Valid() && !raw.rec.payload.PLen?
    ensures ReadPayload(raw.rec.payload.Wire(), ElementBytes(raw)) == Got(raw.rec.payload, |ElementBytes(raw)|)
  {
    var n := ReadTag(raw.bytes).used;
    assert ElementBytes(raw) == raw.bytes[n..];
  }

  /** One element alone unpacks to its value. */
  lemma {:induction false} OneElement(W: World, link: Option<Target>, kind: ValueKind, p: Payload, s: Bytes, depth: nat)
    requires kind.Packable() && depth <= MAX_DEPTH && s != [] && ReadPayload(kind.Wire(), s) == Got(p, |s|)
    ensures var v := DecodeValue(W, link, kind, p, depth);
            DecodePacked(kind, s) == if v.Ok? then Ok([v.value]) else Err(v.error)
  {
    hide ReadPayload, DecodeScalar, ScalarType.Wire;
    assert s[|s|..] == [];
    assert DecodePacked(kind, []) == Ok([]);
    var v := DecodeValue(W, link, kind, p, depth);
    assert v.Ok? ==> [v.value] + [] == [v.value];
  }

  /** The contribution of a record is what unpacking its element bytes gives, errors included. */
  lemma {:induction false} ElementsOfRecord(W: World, link: Option<Target>, f: FieldDescriptor, raw: Raw, depth: nat)
    requires depth <= MAX_DEPTH && raw.Valid() && f.Accepts(raw.rec.payload.Wire())
    requires f.kind.Plain? && f.cardinality == Repeated && f.kind.value.Packable()
    ensures var r := DecodePacked(f.kind.value, ElementBytes(raw));
            Contribution(W, link, f, raw.rec.payload, depth) == if r.Ok? then Ok(Elements(r.value)) else Err(r.error)
  {
    hide ReadPayload, ReadRecord, DecodeScalar, DecodePacked, DecodeValue;
    if !raw.rec.payload.PLen? {
      PayloadBehindTag(raw);
      OneElement(W, link, f.kind.value, raw.rec.payload, ElementBytes(raw), depth);
    }
  }

  lemma {:induction false} ListFold(W: World, C: ClassInfo, idx: nat, pre: seq<Value>, raws: seq<Raw>, depth: nat)
    requires depth <= MAX_DEPTH && idx < |C.desc.fields| && AllValid(raws)
    requires var f := C.desc.fields[idx]; f.kind.Plain? && f.cardinality == Repeated && f.kind.value.Packable()
    requires forall i :: 0 <= i < |raws| ==> Concerns(C.desc, idx, raws[i].rec)
    requires FieldFold(W, C, idx, Many(pre), raws, depth).Ok?
    ensures var r := DecodePacked(C.desc.fields[idx].kind.value, ListBytes(raws));
            r.Ok? && FieldFold(W, C, idx, Many(pre), raws, depth) == Ok(Many(pre + r.value))
    decreases |raws|
  {
    var f := C.desc.fields[idx];
    if raws == [] {
      assert pre + [] == pre;
    } else {
      var first, rest := ElementBytes(raws[0]), ListBytes(raws[1..]);
      assert Concerns(C.desc, idx, raws[0].rec);
      ElementsOfRecord(W, C.Link(raws[0].rec.number), f, raws[0], depth);
      var vs := DecodePacked(f.kind.value, first).value;
      ListFold(W, C, idx, pre + vs, raws[1..], depth);
      DecodePackedAppend(f.kind.value, first, rest);
      Associative(pre, vs, DecodePacked(f.kind.value, rest).value);
    }
  }

  lemma {:induction false} ConcerningAreOwn(d: MessageDescriptor, idx: nat, raws: seq<Raw>)
    requires idx < |d.fields| && AllValid(raws)
    ensures var own := Concerning(d, idx, raws);
            AllValid(own) && forall i :: 0 <= i < |own| ==> Concerns(d, idx, own[i].rec)
  {
    if raws != [] {
      ConcerningAreOwn(d, idx, raws[1..]);
    }
  }

  /**
   Whatever bytes are accepted, minimal or not, the list of a packable field is what
   unpacking the concatenation of its records' element bytes gives: where that string is cut
   into packed and single records, and what stands between them, makes no difference.
   */
  lemma {:induction false} ListIsItsBytes(W: World, cls: ClassId, data: Bytes, idx: nat, depth: nat)
    requires WorldOk(W) && depth <= MAX_DEPTH && DecodeMessage(W, cls, data, depth).Ok? && idx < |W[cls].desc.fields|
    requires var f := W[cls].desc.fields[idx]; f.kind.Plain? && f.cardinality == Repeated && f.kind.value.Packable()
    ensures var m, own := DecodeMessage(W, cls, data, depth).value, Concerning(W[cls].desc, idx, ScanAll(data).raws);
            && idx < |m.slots| && m.slots[idx].Many?
            && DecodePacked(W[cls].desc.fields[idx].kind.value, ListBytes(own)) == Ok(m.slots[idx].vs)
  {
    DecodedMeaning(W, cls, data, depth);
    ScanIsValid(data);
    var own := Concerning(W[cls].desc, idx, ScanAll(data).raws);
    ConcerningAreOwn(W[cls].desc, idx, ScanAll(data).raws);
    ListFold(W, W[cls], idx, [], own, depth);
    var vs := DecodePacked(W[cls].desc.fields[idx].kind.value, ListBytes(own)).value;
    assert [] + vs == vs;
  }
}
