/**
 The encoder on Python objects: attributes hold values or references to other objects, and
 the walk follows references through the heap.  What it writes is what the encoder of
 message values writes for the object unfolded to the depth it looks.
 */
module HeapEncoding {
  import opened Basics
  import opened Wire
  import opened Records
  import opened Descriptors
  import opened Values
  import opened Encoding

  type Ref = nat

  /** A value, or a reference to a message object. */
  datatype Held = Inline(v: Value) | Object(r: Ref)

  datatype HeldPair = HeldPair(key: Value, value: Held)

  datatype Attribute =
    | NoValue
    | Lone(item: Held)
    | Several(items: seq<Held>)
    | Keyed(entries: seq<HeldPair>)

  datatype HeapObject = HeapObject(cls: ClassId, attrs: seq<Attribute>, unknown: Bytes)

  type Heap = map<Ref, HeapObject>

  // ---------------------------------------------- what the encoder walks over

  /** The object as the encoder sees it at this depth: references are followed as far as
      the depth bound lets it look. */
  function Unfold(H: Heap, r: Ref, depth: nat): (m: Msg)
    requires r in H && depth <= MAX_DEPTH + 1
    decreases MAX_DEPTH + 1 - depth, 3, 0
  {
    var o := H[r];
    if depth > MAX_DEPTH then Msg(o.cls, [], [])
    else Msg(o.cls, seq(|o.attrs|, i requires 0 <= i < |o.attrs| => UnfoldAttribute(H, o.attrs[i], depth)), o.unknown)
  }

  function UnfoldHeld(H: Heap, item: Held, depth: nat): Value
    requires depth <= MAX_DEPTH
    decreases MAX_DEPTH + 1 - depth, 0, 0
  {
    match item
    case Inline(v) => v
    case Object(r) => if r in H then Nested(Unfold(H, r, depth + 1)) else Num(0)
  }

  function UnfoldItems(H: Heap, items: seq<Held>, depth: nat): (r: seq<Value>)
    requires depth <= MAX_DEPTH
    ensures |r| == |items|
    ensures forall i :: 0 <= i < |r| ==> r[i] == UnfoldHeld(H, items[i], depth)
    decreases MAX_DEPTH + 1 - depth, 1, |items|
  {
    if items == [] then [] else [UnfoldHeld(H, items[0], depth)] + UnfoldItems(H, items[1..], depth)
  }

  function UnfoldEntries(H: Heap, entries: seq<HeldPair>, depth: nat): (r: seq<Pair>)
    requires depth <= MAX_DEPTH
    ensures |r| == |entries|
    decreases MAX_DEPTH + 1 - depth, 1, |entries|
  {
    if entries == [] then []
    else [Pair(entries[0].key, UnfoldHeld(H, entries[0].value, depth))] + UnfoldEntries(H, entries[1..], depth)
  }

  function UnfoldAttribute(H: Heap, a: Attribute, depth: nat): Slot
    requires depth <= MAX_DEPTH
    decreases MAX_DEPTH + 1 - depth, 2, 0
  {
    match a
    case NoValue => Unset
    case Lone(item) => One(UnfoldHeld(H, item, depth))
    case Several(items) => Many(UnfoldItems(H, items, depth))
    case Keyed(entries) => Dict(UnfoldEntries(H, entries, depth))
  }

  // ------------------------------------------------------ the walk on the heap

  /** A value, or the object a reference leads to, one level deeper.  What is not a message
      object has no descriptor, and a message object is no value of another kind. */
  function EncodeHeld(W: World, H: Heap, kind: ValueKind, item: Held, depth: nat): Outcome<Payload>
    requires depth <= MAX_DEPTH
    decreases MAX_DEPTH + 1 - depth, 0, 0
  {
    match item
    case Inline(v) => EncodeValue(W, kind, v, depth)
    case Object(r) =>
      if !kind.Message? then Err(WrongType)
      else if r !in H then Err(NotAMessage)
      else
        var data :- EncodeObject(W, H, r, depth + 1);
        Ok(PLen(data))
  }

  /** The concatenated payloads of a packed list. */
  function PackHeld(W: World, H: Heap, kind: ValueKind, items: seq<Held>, depth: nat): Outcome<Bytes>
    requires depth <= MAX_DEPTH
    decreases MAX_DEPTH + 1 - depth, 1, |items|
  {
    if items == [] then Ok([])
    else
      var p :- EncodeHeld(W, H, kind, items[0], depth);
      var rest :- PackHeld(W, H, kind, items[1..], depth);
      Ok(p.Bytes() + rest)
  }

  /** One record per item. */
  function EachHeld(W: World, H: Heap, number: nat, kind: ValueKind, items: seq<Held>, depth: nat)
    : Outcome<seq<Record>>
    requires depth <= MAX_DEPTH
    decreases MAX_DEPTH + 1 - depth, 1, |items|
  {
    if items == [] then Ok([])
    else
      var p :- EncodeHeld(W, H, kind, items[0], depth);
      var rest :- EachHeld(W, H, number, kind, items[1..], depth);
      Ok([Record(number, p)] + rest)
  }

  /** One record per dict entry, holding key and value. */
  function PairsHeld(W: World, H: Heap, number: nat, key: ScalarType, kind: ValueKind, entries: seq<HeldPair>,
      depth: nat)
    : Outcome<seq<Record>>
    requires depth <= MAX_DEPTH
    decreases MAX_DEPTH + 1 - depth, 1, |entries|
  {
    if entries == [] then Ok([])
    else
      var k :- EncodeScalar(key, entries[0].key);
      var v :- EncodeHeld(W, H, kind, entries[0].value, depth);
      var rest :- PairsHeld(W, H, number, key, kind, entries[1..], depth);
      Ok([Record(number, PLen(WriteAll([Record(1, k), Record(2, v)])))] + rest)
  }

  /** The records of one attribute. */
  function EncodeAttribute(W: World, H: Heap, f: FieldDescriptor, a: Attribute, depth: nat): Outcome<seq<Record>>
    requires depth <= MAX_DEPTH
    decreases MAX_DEPTH + 1 - depth, 2, 0
  {
    match f.kind
    case Map(key, kind) =>
      if !a.Keyed? then Err(WrongType) else PairsHeld(W, H, f.number, key, kind, a.entries, depth)
    case Plain(kind) =>
      match f.cardinality
      case Repeated =>
        if !a.Several? then Err(WrongType)
        else if kind.Packable() then
          var data :- PackHeld(W, H, kind, a.items, depth);
          Ok(if data == [] then [] else [Record(f.number, PLen(data))])
        else EachHeld(W, H, f.number, kind, a.items, depth)
      case Optional =>
        if a.NoValue? then Ok([])
        else if !a.Lone? then Err(WrongType)
        else
          var p :- EncodeHeld(W, H, kind, a.item, depth);
          Ok([Record(f.number, p)])
      case Single =>
        if !a.Lone? then Err(WrongType)
        else
          var p :- EncodeHeld(W, H, kind, a.item, depth);
          Ok(if a.item == Inline(ZeroOf(kind)) then [] else [Record(f.number, p)])
  }

  function EncodeAttributes(W: World, H: Heap, fields: seq<FieldDescriptor>, attrs: seq<Attribute>, i: nat, depth: nat)
    : Outcome<seq<Record>>
    requires depth <= MAX_DEPTH && i <= |fields| == |attrs|
    decreases MAX_DEPTH + 1 - depth, 3, |fields| - i
  {
    if i == |fields| then Ok([])
    else
      var here :- EncodeAttribute(W, H, fields[i], attrs[i], depth);
      var rest :- EncodeAttributes(W, H, fields, attrs, i + 1, depth);
      Ok(here + rest)
  }

  /** Members of a group that are not `None`, in a counter that stops at 255. */
  function SetMembers(fields: seq<FieldDescriptor>, attrs: seq<Attribute>, group: nat, i: nat): (n: nat)
    requires i <= |fields| == |attrs|
    ensures n <= 255
  {
    if i == 0 then 0
    else
      var n := SetMembers(fields, attrs, group, i - 1);
      if fields[i - 1].Group() == Some(group) && !attrs[i - 1].NoValue? && n < 255 then n + 1 else n
  }

  /** The first group at or after `group` with more than one member set. */
  function SetCheck(d: MessageDescriptor, attrs: seq<Attribute>, group: nat): Option<CodecError>
    requires group <= |d.oneofs| && |attrs| == |d.fields|
    decreases |d.oneofs| - group
  {
    if group == |d.oneofs| then None
    else
      var n := SetMembers(d.fields, attrs, group, |d.fields|);
      if n > 1 then Some(OneofConflict(d.oneofs[group], n)) else SetCheck(d, attrs, group + 1)
  }

  /** Encoding the object a reference leads to: its class's fields in order, the counters
      after the walk, the unknown bytes last. */
  function EncodeObject(W: World, H: Heap, r: Ref, depth: nat): Outcome<Bytes>
    requires r in H && depth <= MAX_DEPTH + 1
    decreases MAX_DEPTH + 1 - depth, 4, 0
  {
    var o := H[r];
    if depth > MAX_DEPTH then Err(NestingTooDeep)
    else if o.cls !in W || |o.attrs| != |W[o.cls].desc.fields| then Err(NotAMessage)
    else
      var d := W[o.cls].desc;
      var recs :- EncodeAttributes(W, H, d.fields, o.attrs, 0, depth);
      match SetCheck(d, o.attrs, 0)
      case Some(e) => Err(e)
      case None => Ok(WriteAll(recs) + o.unknown)
  }

  // --------------------------------------------- it writes what it unfolds to

  predicate Inside(H: Heap, item: Held) {
    item.Object? ==> item.r in H
  }

  predicate AttributeInside(H: Heap, a: Attribute) {
    match a
    case NoValue => true
    case Lone(item) => Inside(H, item)
    case Several(items) => forall i :: 0 <= i < |items| ==> Inside(H, items[i])
    case Keyed(entries) => forall i :: 0 <= i < |entries| ==> Inside(H, entries[i].value)
  }

  /** No reference dangles. */
  predicate HeapClosed(H: Heap) {
    forall r <- H :: forall i :: 0 <= i < |H[r].attrs| ==> AttributeInside(H, H[r].attrs[i])
  }

  lemma {:induction false} MessageIsNoScalar(s: ScalarType, m: Msg)
    ensures EncodeScalar(s, Nested(m)) == Err(WrongType)
  {
  }

  lemma {:induction false} HeldEncoding(W: World, H: Heap, kind: ValueKind, item: Held, depth: nat)
    requires HeapClosed(H) && Inside(H, item) && depth <= MAX_DEPTH
    ensures EncodeHeld(W, H, kind, item, depth) == EncodeValue(W, kind, UnfoldHeld(H, item, depth), depth)
    decreases MAX_DEPTH + 1 - depth, 0
  {
    if item.Object? {
      var m := Unfold(H, item.r, depth + 1);
      if kind.Scalar? {
        MessageIsNoScalar(kind.scalar, m);
      }
      ObjectEncoding(W, H, item.r, depth + 1);
    }
    hide EncodeScalar, EncodeObject, EncodeMessage, Unfold, HeapClosed;
  }

  lemma {:induction false} ListEncoding(W: World, H: Heap, number: nat, kind: ValueKind, items: seq<Held>, depth: nat)
    requires HeapClosed(H) && depth <= MAX_DEPTH && forall i :: 0 <= i < |items| ==> Inside(H, items[i])
    ensures PackHeld(W, H, kind, items, depth) == EncodePacked(W, kind, UnfoldItems(H, items, depth), depth)
    ensures EachHeld(W, H, number, kind, items, depth)
         == EncodeEach(W, number, kind, UnfoldItems(H, items, depth), depth)
    decreases MAX_DEPTH + 1 - depth, 1, |items|
  {
    if items != [] {
      HeldEncoding(W, H, kind, items[0], depth);
      ListEncoding(W, H, number, kind, items[1..], depth);
      assert UnfoldItems(H, items, depth)[1..] == UnfoldItems(H, items[1..], depth);
      hide EncodeHeld, EncodeValue, UnfoldHeld, HeapClosed, Payload.Bytes;
    }
  }

  lemma {:induction false} PairsEncoding(W: World, H: Heap, number: nat, key: ScalarType, kind: ValueKind,
      entries: seq<HeldPair>, depth: nat)
    requires HeapClosed(H) && depth <= MAX_DEPTH && forall i :: 0 <= i < |entries| ==> Inside(H, entries[i].value)
    ensures PairsHeld(W, H, number, key, kind, entries, depth)
         == EncodeEntries(W, number, key, kind, UnfoldEntries(H, entries, depth), depth)
    decreases MAX_DEPTH + 1 - depth, 1, |entries|
  {
    if entries != [] {
      HeldEncoding(W, H, kind, entries[0].value, depth);
      PairsEncoding(W, H, number, key, kind, entries[1..], depth);
      assert UnfoldEntries(H, entries, depth)[1..] == UnfoldEntries(H, entries[1..], depth);
      hide EncodeHeld, EncodeValue, EncodeScalar, UnfoldHeld, HeapClosed, WriteAll;
    }
  }

  /** An implicit default is never an object. */
  lemma {:induction false} ZeroIsPlain(H: Heap, kind: ValueKind, item: Held, depth: nat)
    requires depth <= MAX_DEPTH && Inside(H, item)
    ensures item == Inline(ZeroOf(kind)) <==> UnfoldHeld(H, item, depth) == ZeroOf(kind)
  {
    hide Unfold;
  }

  lemma {:induction false} AttributeEncoding(W: World, H: Heap, f: FieldDescriptor, a: Attribute, depth: nat)
    requires HeapClosed(H) && AttributeInside(H, a) && depth <= MAX_DEPTH
    ensures EncodeAttribute(W, H, f, a, depth) == EncodeField(W, f, UnfoldAttribute(H, a, depth), depth)
    decreases MAX_DEPTH + 1 - depth, 2
  {
    match a
    case NoValue =>
    case Lone(item) =>
      HeldEncoding(W, H, f.kind.value, item, depth);
      var v := UnfoldHeld(H, item, depth);
      EachOfOne(W, f.number, f.kind.value, v, depth);
      ZeroIsPlain(H, f.kind.value, item, depth);
      hide EncodeHeld, EncodeValue, EncodeEach, UnfoldHeld, ZeroOf, HeapClosed;
    case Several(items) => ListEncoding(W, H, f.number, f.kind.value, items, depth);
    case Keyed(entries) =>
      if f.kind.Map? {
        PairsEncoding(W, H, f.number, f.kind.key, f.kind.value, entries, depth);
      }
  }

  lemma {:induction false} AttributesEncoding(W: World, H: Heap, r: Ref, fields: seq<FieldDescriptor>, i: nat,
      depth: nat)
    requires HeapClosed(H) && r in H && depth <= MAX_DEPTH && i <= |fields| == |H[r].attrs|
    ensures EncodeAttributes(W, H, fields, H[r].attrs, i, depth)
         == EncodeFields(W, fields, Unfold(H, r, depth).slots, i, depth)
    decreases MAX_DEPTH + 1 - depth, 3, |fields| - i
  {
    if i < |fields| {
      AttributeEncoding(W, H, fields[i], H[r].attrs[i], depth);
      AttributesEncoding(W, H, r, fields, i + 1, depth);
      assert Unfold(H, r, depth).slots[i] == UnfoldAttribute(H, H[r].attrs[i], depth);
      hide EncodeAttribute, EncodeField, UnfoldAttribute, HeapClosed;
    }
  }

  lemma {:induction false} MembersSet(H: Heap, r: Ref, fields: seq<FieldDescriptor>, group: nat, i: nat, depth: nat)
    requires r in H && depth <= MAX_DEPTH && i <= |fields| == |H[r].attrs|
    ensures SetMembers(fields, H[r].attrs, group, i) == OneofCount(fields, Unfold(H, r, depth).slots, group, i)
  {
    if i > 0 {
      MembersSet(H, r, fields, group, i - 1, depth);
      assert Unfold(H, r, depth).slots[i - 1] == UnfoldAttribute(H, H[r].attrs[i - 1], depth);
    }
  }

  lemma {:induction false} ChecksAgree(H: Heap, r: Ref, d: MessageDescriptor, group: nat, depth: nat)
    requires r in H && depth <= MAX_DEPTH && |H[r].attrs| == |d.fields| && group <= |d.oneofs|
    ensures SetCheck(d, H[r].attrs, group) == OneofCheck(d, Unfold(H, r, depth).slots, group)
    decreases |d.oneofs| - group
  {
    if group < |d.oneofs| {
      MembersSet(H, r, d.fields, group, |d.fields|, depth);
      ChecksAgree(H, r, d, group + 1, depth);
    }
  }

  /** Walking the heap from an object, shared and cyclic references included, gives the bytes
      or the error that encoding the object unfolded to the depth limit gives. */
  lemma {:induction false} ObjectEncoding(W: World, H: Heap, r: Ref, depth: nat)
    requires HeapClosed(H) && r in H && depth <= MAX_DEPTH + 1
    ensures EncodeObject(W, H, r, depth) == EncodeMessage(W, Unfold(H, r, depth), depth)
    decreases MAX_DEPTH + 1 - depth, 4
  {
    if depth <= MAX_DEPTH && H[r].cls in W && |H[r].attrs| == |W[H[r].cls].desc.fields| {
      AttributesEncoding(W, H, r, W[H[r].cls].desc.fields, 0, depth);
      ChecksAgree(H, r, W[H[r].cls].desc, 0, depth);
      hide EncodeAttributes, EncodeFields, SetCheck, OneofCheck, HeapClosed, UnfoldAttribute;
    }
  }
}
