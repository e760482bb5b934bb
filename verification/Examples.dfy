/** Small programs end to end: the self-referential message of the test protos, and the
    Duration that decodes but does not encode. */
module Examples {
  import opened Basics
  import opened Wire
  import opened Records
  import opened Descriptors
  import opened FieldIndexing
  import opened WellKnown
  import opened Values
  import opened Encoding
  import opened Decoding
  import opened Typing
  import opened RoundTrip
  import opened Accepted
  import opened LinkGaps

  const CHILD := FieldDescriptor(1, [99, 104, 105, 108, 100], Plain(Message), Optional, Some([78, 111, 100, 101]), None)
  const VALUE := FieldDescriptor(2, [118, 97, 108, 117, 101], Plain(Scalar(Int32)), Single, None, None)

  /** `message Node { Node child = 1; int32 value = 2; }` */
  const NODE := MessageDescriptor([78, 111, 100, 101], [CHILD, VALUE], [])

  /** The class, linked to itself. */
  function Trees(): World {
    map[0 := ClassInfo(NODE, Dense([0, 1, 2]), Some(map[1 := MessageClass(0)]))]
  }

  function Node(value: int, child: Slot): Msg {
    Msg(0, [child, One(Num(value))], [])
  }

  /** Nodes that are each the child of the one before. */
  function Chain(values: seq<int>): Msg
    requires values != []
  {
    Node(values[0], if |values| == 1 then Unset else One(Nested(Chain(values[1..]))))
  }

  lemma {:induction false} NodeLookup(number: nat)
    ensures Lookup(NODE.fields, number) == if number == 1 then Some(0) else if number == 2 then Some(1) else None
  {
    assert NODE.fields == [CHILD, VALUE];
    assert LookupFrom(NODE.fields, number, 2) == None;
    assert LookupFrom(NODE.fields, number, 1) == if number == 2 then Some(1) else None;
  }

  lemma {:induction false} TreesAreOk()
    ensures WorldOk(Trees())
  {
    var C := Trees()[0];
    assert C.desc.fields == [CHILD, VALUE];
    forall number: nat
      ensures C.index.Get(number) == Lookup(C.desc.fields, number)
    {
      NodeLookup(number);
    }
  }

  lemma {:induction false} NodeIsTyped(value: int, child: Slot)
    requires IsI32(value)
    requires child.Unset? || (child.One? && ValueTyped(Trees(), Some(MessageClass(0)), Message, child.v))
    ensures MsgTyped(Trees(), Node(value, child))
  {
    assert NODE.fields == [CHILD, VALUE];
    DistinctNumbersAreReachable(NODE);
    assert ScanAll([]) == Scan([], None);
  }

  lemma {:induction false} ChainIsTyped(values: seq<int>)
    requires values != [] && forall i :: 0 <= i < |values| ==> IsI32(values[i])
    ensures MsgTyped(Trees(), Chain(values)) && MsgInRange(Chain(values))
    decreases |values|
  {
    if |values| > 1 {
      ChainIsTyped(values[1..]);
      NodeIsTyped(values[0], One(Nested(Chain(values[1..]))));
    } else {
      NodeIsTyped(values[0], Unset);
    }
  }

  lemma {:induction false} ChainIsLegal(values: seq<int>, depth: nat)
    requires values != []
    ensures MsgLegal(Trees(), Chain(values), depth) <==> depth + |values| <= MAX_DEPTH + 1
    decreases |values|
  {
    var m := Chain(values);
    assert NODE.fields == [CHILD, VALUE];
    assert OneofsOk(NODE, m.slots);
    assert SlotLegal(Trees(), m.slots[1], depth);
    if |values| > 1 {
      ChainIsLegal(values[1..], depth + 1);
      var rest := Chain(values[1..]);
      assert m.slots[0] == One(Nested(rest));
      assert ValueLegal(Trees(), Nested(rest), depth) <==> MsgLegal(Trees(), rest, depth + 1);
    }
    assert MsgLegal(Trees(), m, depth) <==> depth <= MAX_DEPTH && SlotLegal(Trees(), m.slots[0], depth);
  }

  /** A chain of any values round-trips, up to 101 nodes; one more and it does not encode. */
  lemma {:induction false} ChainRoundTrip(values: seq<int>)
    requires values != [] && forall i :: 0 <= i < |values| ==> IsI32(values[i])
    ensures var e := EncodeMessage(Trees(), Chain(values), 0);
            && (e.Ok? <==> |values| <= 101)
            && (e.Ok? && IsU64(|e.value|) ==> DecodeMessage(Trees(), 0, e.value, 0) == Ok(Chain(values)))
  {
    TreesAreOk();
    ChainIsTyped(values);
    ChainIsLegal(values, 0);
    hide EncodeMessage, DecodeMessage, MsgLegal, MsgTyped, MsgInRange, WorldOk;
    MessageEncodes(Trees(), Chain(values), 0);
    var e := EncodeMessage(Trees(), Chain(values), 0);
    if e.Ok? && IsU64(|e.value|) {
      MessageRoundTrip(Trees(), Chain(values), e.value, 0);
    }
  }

  // ------------------------------------------------------ the Duration that wraps

  const SPAN := FieldDescriptor(1, [100], Plain(Duration), Optional, None, None)

  /** `message Wait { google.protobuf.Duration d = 1; }` */
  const WAIT := MessageDescriptor([87, 97, 105, 116], [SPAN], [])

  function Waits(): World {
    map[0 := ClassInfo(WAIT, Dense([0, 1]), None)]
  }

  lemma {:induction false} WaitsAreOk()
    ensures WorldOk(Waits())
  {
    var C := Waits()[0];
    assert C.desc.fields == [SPAN];
    forall number: nat
      ensures C.index.Get(number) == Lookup(C.desc.fields, number)
    {
      assert LookupFrom(C.desc.fields, number, 1) == None;
    }
  }

  const WRAPPING := Parts(-DURATION_MAX_SECONDS, -0x8000_0000)

  /** The bytes of a message whose Duration has the smallest seconds in range and the
      smallest nanoseconds there are. */
  function WrappingBytes(): Bytes {
    Record(1, PLen(WriteAll(EncodeParts(WRAPPING)))).Bytes()
  }

  /** One record of the field makes a message with that value. */
  lemma {:induction false} WaitDecodes(data: Bytes, v: Value)
    requires IsU64(|data|) && DecodeSpan(data) == Ok(v)
    ensures DecodeMessage(Waits(), 0, Record(1, PLen(data)).Bytes(), 0) == Ok(Msg(0, [One(v)], []))
  {
    hide DecodeSpan, ScanAll, Record.Bytes;
    var rec, C := Record(1, PLen(data)), Waits()[0];
    var raw := Raw(rec, rec.Bytes());
    var end := State([One(v)], map[], []);
    ScanOfOne(rec);
    assert C.desc.fields == [SPAN];
    assert Contribution(Waits(), None, SPAN, rec.payload, 0) == Ok(Whole(v));
    assert InitState(C.desc).slots == [Unset] && Route(C.desc, rec) == Some(0);
    assert Apply(C.desc, InitState(C.desc), 0, Whole(v)).slots == [One(v)];
    assert Step(Waits(), C, InitState(C.desc), raw, 0) == Ok(end);
    assert FoldRecords(Waits(), C, InitState(C.desc), [raw], 0) == Ok(end);
    assert FinishSlots(C.desc.fields, end.slots) == [One(v)];
  }

  lemma {:induction false} WrappingSpan()
    ensures DecodeSpan(WriteAll(EncodeParts(WRAPPING))) == Ok(Span(-DURATION_MAX_SECONDS * MICROS - 2_147_483))
  {
    WrappingSpanIsAccepted();
    PartsRoundTrip(WRAPPING);
    TruncUnique(WRAPPING.nanos, 1000, -2_147_483, -648);
  }

  lemma {:induction false} PartsAreShort(p: Parts)
    requires p.Valid()
    ensures IsU64(|WriteAll(EncodeParts(p))|)
  {
    var recs := EncodeParts(p);
    forall i | 0 <= i < |recs|
      ensures |recs[i].Bytes()| <= 20
    {
      U64FitsTenBytes(recs[i].payload.v);
      U64FitsTenBytes(recs[i].number * 8 + recs[i].payload.Wire().Code());
    }
    if |recs| == 2 {
      assert WriteAll(recs) == recs[0].Bytes() + (recs[1].Bytes() + WriteAll(recs[1..][1..]));
    }
  }

  /** These bytes decode, and what they decode to does not encode. */
  lemma {:induction false} WrappingIsNotReencoded()
    ensures var r := DecodeMessage(Waits(), 0, WrappingBytes(), 0);
            r.Ok? && EncodeMessage(Waits(), r.value, 0).Err?
  {
    var us := -DURATION_MAX_SECONDS * MICROS - 2_147_483;
    WrappingSpan();
    PartsAreShort(WRAPPING);
    WaitDecodes(WriteAll(EncodeParts(WRAPPING)), Span(us));
    WaitsAreOk();
    hide DecodeMessage, EncodeMessage, WorldOk, EncodeParts, DecodeSpan;
    ReencodeDecoded(Waits(), 0, WrappingBytes());
    var m := Msg(0, [One(Span(us))], []);
    assert !SlotUnwrapped(m.slots[0]);
  }
}
