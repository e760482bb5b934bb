/**
 Which messages the encoder takes, of whatever values they are made: values of the Python
 type and in the range of their field, at most one member of a oneof, nested no deeper than
 the limit.  Everything else is refused.
 */
module Refusals {
  import opened Basics
  import opened Descriptors
  import opened WellKnown
  import opened Values
  import opened Encoding
  import opened RoundTrip
  import opened Scalars
  import opened Accepted

  predicate ValueTaken(W: World, kind: ValueKind, v: Value, depth: nat)
    decreases v, 0
  {
    match kind
    case Scalar(s) => InRange(s, v)
    case Enum => v.Num? && -0x8000_0000 <= v.n <= 0x7FFF_FFFF
    case Message => v.Nested? && MsgTaken(W, v.m, depth + 1)
    case Timestamp => v.Instant?
    case Duration => v.Span? && SpanToParts(v.micros).Ok?
  }

  predicate AllTaken(W: World, kind: ValueKind, vs: seq<Value>, depth: nat)
    decreases vs, 1
  {
    forall i :: 0 <= i < |vs| ==> ValueTaken(W, kind, vs[i], depth)
  }

  predicate PairTaken(W: World, key: ScalarType, kind: ValueKind, e: Pair, depth: nat)
    decreases e, 1
  {
    InRange(key, e.key) && ValueTaken(W, kind, e.value, depth)
  }

  predicate PairsTaken(W: World, key: ScalarType, kind: ValueKind, es: seq<Pair>, depth: nat)
    decreases es, 2
  {
    forall i :: 0 <= i < |es| ==> PairTaken(W, key, kind, es[i], depth)
  }

  predicate SlotTaken(W: World, f: FieldDescriptor, slot: Slot, depth: nat)
    decreases slot, 3
  {
    match f.kind
    case Map(key, kind) => slot.Dict? && PairsTaken(W, key, kind, slot.entries, depth)
    case Plain(kind) =>
      match f.cardinality
      case Repeated => slot.Many? && AllTaken(W, kind, slot.vs, depth)
      case Optional => slot.Unset? || (slot.One? && ValueTaken(W, kind, slot.v, depth))
      case Single => slot.One? && ValueTaken(W, kind, slot.v, depth)
  }

  /** At most 100 levels deep, every attribute fit for its field, no oneof with two members. */
  predicate MsgTaken(W: World, m: Msg, depth: nat)
    decreases m, 4
  {
    && depth <= 100 && m.cls in W && |m.slots| == |W[m.cls].desc.fields|
    && (forall i :: 0 <= i < |m.slots| ==> SlotTaken(W, W[m.cls].desc.fields[i], m.slots[i], depth))
    && OneofsOk(W[m.cls].desc, m.slots)
  }

  // ------------------------------------------------------------------ the encoder

  lemma {:induction false} ValueIsTaken(W: World, kind: ValueKind, v: Value, depth: nat)
    requires depth <= MAX_DEPTH
    ensures EncodeValue(W, kind, v, depth).Ok? <==> ValueTaken(W, kind, v, depth)
    decreases MAX_DEPTH + 1 - depth, 0
  {
    match kind
    case Scalar(s) => EncodedIsInRange(s, v);
    case Message =>
      if v.Nested? {
        hide EncodeMessage, MsgTaken;
        MessageIsTaken(W, v.m, depth + 1);
      }
    case _ =>
  }

  lemma {:induction false} TakenParts(W: World, kind: ValueKind, vs: seq<Value>, depth: nat)
    requires vs != []
    ensures AllTaken(W, kind, vs, depth) <==> ValueTaken(W, kind, vs[0], depth) && AllTaken(W, kind, vs[1..], depth)
  {
    hide ValueTaken;
    assert vs == [vs[0]] + vs[1..];
  }

  lemma {:induction false} EncodedParts(W: World, number: nat, kind: ValueKind, vs: seq<Value>, depth: nat)
    requires depth <= MAX_DEPTH
    ensures vs == [] ==> EncodeEach(W, number, kind, vs, depth).Ok? && EncodePacked(W, kind, vs, depth).Ok?
    ensures vs != [] ==>
      && (EncodeEach(W, number, kind, vs, depth).Ok?
          <==> EncodeValue(W, kind, vs[0], depth).Ok? && EncodeEach(W, number, kind, vs[1..], depth).Ok?)
      && (EncodePacked(W, kind, vs, depth).Ok?
          <==> EncodeValue(W, kind, vs[0], depth).Ok? && EncodePacked(W, kind, vs[1..], depth).Ok?)
  {
    hide EncodeValue;
  }

  lemma {:induction false} ListIsTaken(W: World, number: nat, kind: ValueKind, vs: seq<Value>, depth: nat)
    requires depth <= MAX_DEPTH
    ensures EncodeEach(W, number, kind, vs, depth).Ok? <==> AllTaken(W, kind, vs, depth)
    ensures EncodePacked(W, kind, vs, depth).Ok? <==> AllTaken(W, kind, vs, depth)
    decreases MAX_DEPTH + 1 - depth, 1, |vs|
  {
    EncodedParts(W, number, kind, vs, depth);
    if vs != [] {
      hide *;
      ValueIsTaken(W, kind, vs[0], depth);
      ListIsTaken(W, number, kind, vs[1..], depth);
      TakenParts(W, kind, vs, depth);
    }
  }

  lemma {:induction false} PairsTakenParts(W: World, key: ScalarType, kind: ValueKind, es: seq<Pair>, depth: nat)
    requires es != []
    ensures PairsTaken(W, key, kind, es, depth)
       <==> PairTaken(W, key, kind, es[0], depth) && PairsTaken(W, key, kind, es[1..], depth)
  {
    hide PairTaken;
    assert es == [es[0]] + es[1..];
  }

  lemma {:induction false} PairIs(W: World, key: ScalarType, kind: ValueKind, e: Pair, depth: nat)
    ensures PairTaken(W, key, kind, e, depth) <==> InRange(key, e.key) && ValueTaken(W, kind, e.value, depth)
  {
    hide InRange, ValueTaken;
  }

  lemma {:induction false} PairsAreTaken(W: World, number: nat, key: ScalarType, kind: ValueKind, es: seq<Pair>,
      depth: nat)
    requires depth <= MAX_DEPTH
    ensures EncodeEntries(W, number, key, kind, es, depth).Ok? <==> PairsTaken(W, key, kind, es, depth)
    decreases MAX_DEPTH + 1 - depth, 1, |es|
  {
    if es != [] {
      hide *;
      EncodedIsInRange(key, es[0].key);
      ValueIsTaken(W, kind, es[0].value, depth);
      PairsAreTaken(W, number, key, kind, es[1..], depth);
      EncodeEntriesParts(W, number, key, kind, es, depth);
      PairsTakenParts(W, key, kind, es, depth);
      PairIs(W, key, kind, es[0], depth);
    }
  }

  lemma {:induction false} SlotIsTaken(W: World, f: FieldDescriptor, slot: Slot, depth: nat)
    requires depth <= MAX_DEPTH
    ensures EncodeField(W, f, slot, depth).Ok? <==> SlotTaken(W, f, slot, depth)
    decreases MAX_DEPTH + 1 - depth, 2
  {
    match slot
    case Unset =>
    case One(v) =>
      EachOfOne(W, f.number, f.kind.value, v, depth);
      ValueIsTaken(W, f.kind.value, v, depth);
      hide EncodeValue, ValueTaken;
    case Many(vs) =>
      ListIsTaken(W, f.number, f.kind.value, vs, depth);
      hide AllTaken;
    case Dict(es) =>
      if f.kind.Map? {
        PairsAreTaken(W, f.number, f.kind.key, f.kind.value, es, depth);
        hide PairsTaken;
      }
  }

  predicate TakenFrom(W: World, fields: seq<FieldDescriptor>, slots: seq<Slot>, i: nat, depth: nat)
    requires |fields| == |slots|
  {
    forall j :: i <= j < |slots| ==> SlotTaken(W, fields[j], slots[j], depth)
  }

  lemma {:induction false} TakenFromStep(W: World, fields: seq<FieldDescriptor>, slots: seq<Slot>, i: nat, depth: nat)
    requires i < |slots| == |fields|
    ensures TakenFrom(W, fields, slots, i, depth)
       <==> SlotTaken(W, fields[i], slots[i], depth) && TakenFrom(W, fields, slots, i + 1, depth)
  {
    hide SlotTaken;
  }

  lemma {:induction false} SlotsAreTaken(W: World, fields: seq<FieldDescriptor>, slots: seq<Slot>, i: nat, depth: nat)
    requires depth <= MAX_DEPTH && i <= |fields| == |slots|
    ensures EncodeFields(W, fields, slots, i, depth).Ok? <==> TakenFrom(W, fields, slots, i, depth)
    decreases MAX_DEPTH + 1 - depth, 3, |slots| - i
  {
    if i < |slots| {
      hide *;
      EncodeFieldsStep(W, fields, slots, i, depth);
      SlotIsTaken(W, fields[i], slots[i], depth);
      SlotsAreTaken(W, fields, slots, i + 1, depth);
      TakenFromStep(W, fields, slots, i, depth);
    }
  }

  /** The encoder takes exactly these messages. */
  lemma {:induction false} MessageIsTaken(W: World, m: Msg, depth: nat)
    requires depth <= MAX_DEPTH + 1
    ensures EncodeMessage(W, m, depth).Ok? <==> MsgTaken(W, m, depth)
    decreases MAX_DEPTH + 1 - depth, 4
  {
    if depth <= MAX_DEPTH && m.cls in W && |m.slots| == |W[m.cls].desc.fields| {
      SlotsAreTaken(W, W[m.cls].desc.fields, m.slots, 0, depth);
      OneofCheckExact(W[m.cls].desc, m.slots, 0);
      hide SlotTaken, EncodeFields, OneofCheck;
    }
  }

  // ------------------------------------------------------------------------ oneofs

  /** The members of a oneof that are set, among the first `n` fields. */
  ghost function RivalsSet(fields: seq<FieldDescriptor>, slots: seq<Slot>, group: nat, n: nat): set<nat>
    requires n <= |fields| == |slots|
  {
    set i: nat | i < n && Member(fields, slots, group, i)
  }

  /** The counter counts them, up to 255. */
  lemma {:induction false} CountIsMembers(fields: seq<FieldDescriptor>, slots: seq<Slot>, group: nat, n: nat)
    requires n <= |fields| == |slots|
    ensures var members := |RivalsSet(fields, slots, group, n)|;
            OneofCount(fields, slots, group, n) == if members <= 255 then members else 255
  {
    var now := RivalsSet(fields, slots, group, n);
    if n == 0 {
      assert now == {};
    } else {
      CountIsMembers(fields, slots, group, n - 1);
      var before := RivalsSet(fields, slots, group, n - 1);
      if Member(fields, slots, group, n - 1) {
        assert now == before + {n - 1};
      } else {
        assert now == before;
      }
    }
  }

  /** The conflict reported is that of the first oneof with more than one member set. */
  lemma {:induction false} ConflictIsFirst(d: MessageDescriptor, slots: seq<Slot>, from: nat)
    requires from <= |d.oneofs| && |slots| == |d.fields| && OneofCheck(d, slots, from).Some?
    ensures exists g: nat :: from <= g < |d.oneofs| && FirstConflict(d, slots, from, g)
    decreases |d.oneofs| - from
  {
    CountIsMembers(d.fields, slots, from, |d.fields|);
    hide OneofCount;
    if OneofCount(d.fields, slots, from, |d.fields|) > 1 {
      assert FirstConflict(d, slots, from, from);
    } else {
      ConflictIsFirst(d, slots, from + 1);
      var g: nat :| from + 1 <= g < |d.oneofs| && FirstConflict(d, slots, from + 1, g);
      assert FirstConflict(d, slots, from, g);
    }
  }

  ghost predicate FirstConflict(d: MessageDescriptor, slots: seq<Slot>, from: nat, g: nat)
    requires from <= g < |d.oneofs| && |slots| == |d.fields|
  {
    var members := |RivalsSet(d.fields, slots, g, |d.fields|)|;
    && OneofCheck(d, slots, from) == Some(OneofConflict(d.oneofs[g], if members <= 255 then members else 255))
    && members > 1
    && forall h: nat :: from <= h < g ==> |RivalsSet(d.fields, slots, h, |d.fields|)| <= 1
  }
}
