/**
 Encoding messages that are Python objects: references may be shared and may form cycles.
 The depth bound is what makes the encoder stop, and here is exactly when it strikes.
 */
module ObjectGraphs {
  import opened Basics
  import opened Descriptors
  import opened WellKnown
  import opened Values
  import opened Encoding
  import opened HeapEncoding
  import opened Typing
  import opened RoundTrip

  // --------------------------------------------------- otherwise valid objects

  predicate ItemTyped(W: World, H: Heap, link: Option<Target>, kind: ValueKind, item: Held) {
    match item
    case Inline(v) => !kind.Message? && ValueTyped(W, link, kind, v) && (kind.Duration? ==> SpanInRange(v.micros))
    case Object(r) => kind.Message? && r in H && link == Some(MessageClass(H[r].cls))
  }

  predicate ItemsTyped(W: World, H: Heap, link: Option<Target>, kind: ValueKind, items: seq<Held>) {
    forall i :: 0 <= i < |items| ==> ItemTyped(W, H, link, kind, items[i])
  }

  predicate EntriesOk(W: World, H: Heap, link: Option<Target>, key: ScalarType, kind: ValueKind,
      entries: seq<HeldPair>)
  {
    forall i :: 0 <= i < |entries| ==> ScalarTyped(key, entries[i].key) && ItemTyped(W, H, link, kind, entries[i].value)
  }

  predicate AttributeTyped(W: World, H: Heap, link: Option<Target>, f: FieldDescriptor, a: Attribute) {
    match f.kind
    case Map(key, kind) => a.Keyed? && EntriesOk(W, H, link, key, kind, a.entries)
    case Plain(kind) =>
      match f.cardinality
      case Repeated => a.Several? && ItemsTyped(W, H, link, kind, a.items)
      case Optional => a.NoValue? || (a.Lone? && ItemTyped(W, H, link, kind, a.item))
      case Single => a.Lone? && ItemTyped(W, H, link, kind, a.item)
  }

  predicate OneofsFree(d: MessageDescriptor, attrs: seq<Attribute>)
    requires |attrs| == |d.fields|
  {
    forall i, j :: 0 <= i < j < |attrs| && d.fields[i].Group().Some? && d.fields[i].Group() == d.fields[j].Group() ==>
      attrs[i].NoValue? || attrs[j].NoValue?
  }

  predicate ObjectTyped(W: World, H: Heap, o: HeapObject) {
    o.cls in W &&
    var C := W[o.cls];
    && |o.attrs| == |C.desc.fields| && OneofsFree(C.desc, o.attrs)
    && forall i :: 0 <= i < |o.attrs| ==>
      AttributeTyped(W, H, C.Link(C.desc.fields[i].number), C.desc.fields[i], o.attrs[i])
  }

  /** Every object is well typed, wherever its references lead. */
  predicate HeapTyped(W: World, H: Heap) {
    forall r <- H :: ObjectTyped(W, H, H[r])
  }

  // ------------------------------------------------------------- long paths

  predicate Holds(a: Attribute, r: Ref) {
    match a
    case NoValue => false
    case Lone(item) => item == Object(r)
    case Several(items) => Object(r) in items
    case Keyed(entries) => exists i :: 0 <= i < |entries| && entries[i].value == Object(r)
  }

  /** A message edge: through a singular field, a list item or a map value. */
  predicate Edge(H: Heap, from: Ref, to: Ref) {
    from in H && to in H && exists i :: 0 <= i < |H[from].attrs| && Holds(H[from].attrs[i], to)
  }

  predicate Path(H: Heap, path: seq<Ref>) {
    forall i :: 0 <= i < |path| - 1 ==> Edge(H, path[i], path[i + 1])
  }

  /** A path of `n` edges leaves `r`. */
  ghost predicate PathOf(H: Heap, r: Ref, n: nat) {
    exists path :: |path| == n + 1 && path[0] == r && Path(H, path)
  }

  predicate DeepItem(H: Heap, item: Held, n: nat)
    decreases n, 1
  {
    item.Object? && item.r in H && Deep(H, item.r, n)
  }

  predicate AnyDeep(H: Heap, items: seq<Held>, n: nat)
    decreases n, 2
  {
    exists i :: 0 <= i < |items| && DeepItem(H, items[i], n)
  }

  predicate AnyEntryDeep(H: Heap, entries: seq<HeldPair>, n: nat)
    decreases n, 2
  {
    exists i :: 0 <= i < |entries| && DeepItem(H, entries[i].value, n)
  }

  predicate DeepAttribute(H: Heap, a: Attribute, n: nat)
    decreases n, 3
  {
    match a
    case NoValue => false
    case Lone(item) => DeepItem(H, item, n)
    case Several(items) => AnyDeep(H, items, n)
    case Keyed(entries) => AnyEntryDeep(H, entries, n)
  }

  /** The same by recursion on the number of edges. */
  predicate Deep(H: Heap, r: Ref, n: nat)
    requires r in H
    decreases n, 0
  {
    n == 0 || exists i :: 0 <= i < |H[r].attrs| && DeepAttribute(H, H[r].attrs[i], n - 1)
  }

  lemma {:induction false} DeepAttributeHolds(H: Heap, a: Attribute, n: nat) returns (item: Held)
    requires DeepAttribute(H, a, n)
    ensures DeepItem(H, item, n) && item.Object? && Holds(a, item.r)
  {
    match a
    case Lone(it) => item := it;
    case Several(items) =>
      var j :| 0 <= j < |items| && DeepItem(H, items[j], n);
      item := items[j];
    case Keyed(entries) =>
      var j :| 0 <= j < |entries| && DeepItem(H, entries[j].value, n);
      item := entries[j].value;
  }

  lemma {:induction false} DeepHasEdge(H: Heap, r: Ref, n: nat) returns (to: Ref)
    requires r in H && n > 0 && Deep(H, r, n)
    ensures Edge(H, r, to) && Deep(H, to, n - 1)
  {
    var i :| 0 <= i < |H[r].attrs| && DeepAttribute(H, H[r].attrs[i], n - 1);
    var item := DeepAttributeHolds(H, H[r].attrs[i], n - 1);
    to := item.r;
  }

  lemma {:induction false} EdgeIsDeep(H: Heap, r: Ref, to: Ref, n: nat)
    requires Edge(H, r, to) && Deep(H, to, n)
    ensures Deep(H, r, n + 1)
  {
    var i :| 0 <= i < |H[r].attrs| && Holds(H[r].attrs[i], to);
    assert DeepItem(H, Object(to), n);
    match H[r].attrs[i]
    case Lone(item) =>
    case Several(items) =>
      var j :| 0 <= j < |items| && items[j] == Object(to);
    case Keyed(entries) =>
      var j :| 0 <= j < |entries| && entries[j].value == Object(to);
    assert DeepAttribute(H, H[r].attrs[i], n);
  }

  lemma {:induction false} DeepIsPath(H: Heap, r: Ref, n: nat)
    requires r in H
    ensures Deep(H, r, n) <==> PathOf(H, r, n)
    decreases n
  {
    if Deep(H, r, n) {
      if n == 0 {
        assert |[r]| == 1 && Path(H, [r]);
      } else {
        var to := DeepHasEdge(H, r, n);
        DeepIsPath(H, to, n - 1);
        var path :| |path| == n && path[0] == to && Path(H, path);
        var longer := [r] + path;
        assert Path(H, longer) by {
          forall i | 0 <= i < |longer| - 1
            ensures Edge(H, longer[i], longer[i + 1])
          {
            if i > 0 {
              assert longer[i] == path[i - 1] && longer[i + 1] == path[i];
            }
          }
        }
      }
    }
    if PathOf(H, r, n) && n > 0 {
      var path :| |path| == n + 1 && path[0] == r && Path(H, path);
      assert Edge(H, path[0], path[1]);
      assert Path(H, path[1..]) by {
        forall i | 0 <= i < |path[1..]| - 1
          ensures Edge(H, path[1..][i], path[1..][i + 1])
        {
          assert Edge(H, path[i + 1], path[i + 2]);
        }
      }
      assert PathOf(H, path[1], n - 1) by {
        assert path[1..][0] == path[1];
      }
      DeepIsPath(H, path[1], n - 1);
      EdgeIsDeep(H, r, path[1], n - 1);
    }
  }

  // ------------------------------------------------------- when encoding fails

  /** Fails for its depth, and for nothing else, exactly when `deep`. */
  predicate Exactly<T(==)>(r: Outcome<T>, deep: bool) {
    if deep then r == Err(NestingTooDeep) else r.Ok?
  }

  lemma {:induction false} ItemDepth(W: World, H: Heap, link: Option<Target>, kind: ValueKind, item: Held, depth: nat)
    requires HeapTyped(W, H) && depth <= MAX_DEPTH && ItemTyped(W, H, link, kind, item)
    ensures Exactly(EncodeValue(W, kind, UnfoldHeld(H, item, depth), depth), DeepItem(H, item, MAX_DEPTH - depth))
    decreases MAX_DEPTH + 1 - depth, 0
  {
    match kind
    case Message => ObjectDepth(W, H, item.r, depth + 1);
    case Scalar(s) => EncodedScalarShape(s, item.v);
    case Enum =>
    case Timestamp =>
    case Duration => SpanParts(item.v.micros);
  }

  lemma {:induction false} ItemsHead(W: World, H: Heap, link: Option<Target>, kind: ValueKind,
      items: seq<Held>, depth: nat)
    requires depth <= MAX_DEPTH && items != [] && ItemsTyped(W, H, link, kind, items)
    ensures ItemTyped(W, H, link, kind, items[0]) && ItemsTyped(W, H, link, kind, items[1..])
    ensures UnfoldItems(H, items, depth) == [UnfoldHeld(H, items[0], depth)] + UnfoldItems(H, items[1..], depth)
    ensures forall n :: AnyDeep(H, items, n) <==> DeepItem(H, items[0], n) || AnyDeep(H, items[1..], n)
  {
    hide ItemTyped, UnfoldHeld, DeepItem;
    assert items == [items[0]] + items[1..];
  }

  lemma {:induction false} HeldPairsHead(W: World, H: Heap, link: Option<Target>, key: ScalarType,
      kind: ValueKind, entries: seq<HeldPair>, depth: nat)
    requires depth <= MAX_DEPTH && entries != [] && EntriesOk(W, H, link, key, kind, entries)
    ensures ScalarTyped(key, entries[0].key) && ItemTyped(W, H, link, kind, entries[0].value)
    ensures EntriesOk(W, H, link, key, kind, entries[1..])
    ensures UnfoldEntries(H, entries, depth)
         == [Pair(entries[0].key, UnfoldHeld(H, entries[0].value, depth))] + UnfoldEntries(H, entries[1..], depth)
    ensures forall n ::
      AnyEntryDeep(H, entries, n) <==> DeepItem(H, entries[0].value, n) || AnyEntryDeep(H, entries[1..], n)
  {
    hide ItemTyped, UnfoldHeld, DeepItem, ScalarTyped;
    assert entries == [entries[0]] + entries[1..];
  }

  lemma {:induction false} EachOutcome(W: World, number: nat, kind: ValueKind, v: Value, rest: seq<Value>,
      depth: nat, first: bool, later: bool)
    requires depth <= MAX_DEPTH && Exactly(EncodeValue(W, kind, v, depth), first)
    ensures Exactly(EncodeEach(W, number, kind, rest, depth), later) ==>
      Exactly(EncodeEach(W, number, kind, [v] + rest, depth), first || later)
    ensures Exactly(EncodePacked(W, kind, rest, depth), later) ==>
      Exactly(EncodePacked(W, kind, [v] + rest, depth), first || later)
  {
    hide EncodeValue;
    assert ([v] + rest)[1..] == rest;
  }

  lemma {:induction false} EntriesOutcome(W: World, number: nat, key: ScalarType, kind: ValueKind, e: Pair,
      rest: seq<Pair>, depth: nat, first: bool, later: bool)
    requires depth <= MAX_DEPTH && EncodeScalar(key, e.key).Ok? && Exactly(EncodeValue(W, kind, e.value, depth), first)
    requires Exactly(EncodeEntries(W, number, key, kind, rest, depth), later)
    ensures Exactly(EncodeEntries(W, number, key, kind, [e] + rest, depth), first || later)
  {
    hide EncodeValue, EncodeScalar;
    assert ([e] + rest)[1..] == rest;
  }

  lemma {:induction false} EachDepth(W: World, H: Heap, link: Option<Target>, number: nat, kind: ValueKind,
      items: seq<Held>, depth: nat)
    requires HeapTyped(W, H) && depth <= MAX_DEPTH && ItemsTyped(W, H, link, kind, items)
    ensures Exactly(EncodeEach(W, number, kind, UnfoldItems(H, items, depth), depth),
                    AnyDeep(H, items, MAX_DEPTH - depth))
    ensures Exactly(EncodePacked(W, kind, UnfoldItems(H, items, depth), depth), AnyDeep(H, items, MAX_DEPTH - depth))
    decreases MAX_DEPTH + 1 - depth, 1, |items|
  {
    if items != [] {
      hide *;
      var n := MAX_DEPTH - depth;
      ItemsHead(W, H, link, kind, items, depth);
      ItemDepth(W, H, link, kind, items[0], depth);
      EachDepth(W, H, link, number, kind, items[1..], depth);
      EachOutcome(W, number, kind, UnfoldHeld(H, items[0], depth), UnfoldItems(H, items[1..], depth), depth,
                  DeepItem(H, items[0], n), AnyDeep(H, items[1..], n));
    }
  }

  lemma {:induction false} EntriesDepth(W: World, H: Heap, link: Option<Target>, number: nat, key: ScalarType,
      kind: ValueKind, entries: seq<HeldPair>, depth: nat)
    requires HeapTyped(W, H) && depth <= MAX_DEPTH && EntriesOk(W, H, link, key, kind, entries)
    ensures Exactly(EncodeEntries(W, number, key, kind, UnfoldEntries(H, entries, depth), depth),
                    AnyEntryDeep(H, entries, MAX_DEPTH - depth))
    decreases MAX_DEPTH + 1 - depth, 1, |entries|
  {
    if entries != [] {
      hide *;
      var n := MAX_DEPTH - depth;
      HeldPairsHead(W, H, link, key, kind, entries, depth);
      EncodedScalarShape(key, entries[0].key);
      ItemDepth(W, H, link, kind, entries[0].value, depth);
      EntriesDepth(W, H, link, number, key, kind, entries[1..], depth);
      EntriesOutcome(W, number, key, kind, Pair(entries[0].key, UnfoldHeld(H, entries[0].value, depth)),
                     UnfoldEntries(H, entries[1..], depth), depth,
                     DeepItem(H, entries[0].value, n), AnyEntryDeep(H, entries[1..], n));
    }
  }

  lemma {:induction false} AttributeDepth(W: World, H: Heap, link: Option<Target>, f: FieldDescriptor,
      a: Attribute, depth: nat)
    requires HeapTyped(W, H) && depth <= MAX_DEPTH && AttributeTyped(W, H, link, f, a)
    ensures Exactly(EncodeField(W, f, UnfoldAttribute(H, a, depth), depth), DeepAttribute(H, a, MAX_DEPTH - depth))
    decreases MAX_DEPTH + 1 - depth, 2
  {
    match f.kind
    case Map(key, kind) => EntriesDepth(W, H, link, f.number, key, kind, a.entries, depth);
    case Plain(kind) =>
      if a.Several? {
        EachDepth(W, H, link, f.number, kind, a.items, depth);
      } else if a.Lone? {
        ItemDepth(W, H, link, kind, a.item, depth);
        EachOfOne(W, f.number, kind, UnfoldHeld(H, a.item, depth), depth);
      }
  }

  lemma {:induction false} AttributesDepth(W: World, H: Heap, r: Ref, i: nat, depth: nat)
    requires HeapTyped(W, H) && depth <= MAX_DEPTH && r in H && i <= |H[r].attrs|
    ensures var m := Unfold(H, r, depth);
            && m.cls in W && |m.slots| == |W[m.cls].desc.fields| == |H[r].attrs|
            && Exactly(EncodeFields(W, W[m.cls].desc.fields, m.slots, i, depth),
                       exists j :: i <= j < |H[r].attrs| && DeepAttribute(H, H[r].attrs[j], MAX_DEPTH - depth))
    decreases MAX_DEPTH + 1 - depth, 3, |H[r].attrs| - i
  {
    assert ObjectTyped(W, H, H[r]);
    if i < |H[r].attrs| {
      var C := W[H[r].cls];
      AttributeDepth(W, H, C.Link(C.desc.fields[i].number), C.desc.fields[i], H[r].attrs[i], depth);
      AttributesDepth(W, H, r, i + 1, depth);
      hide HeapTyped, ObjectTyped, EncodeField, UnfoldAttribute, DeepAttribute;
    }
  }

  lemma {:induction false} UnfoldedOneofs(W: World, H: Heap, r: Ref, depth: nat)
    requires depth <= MAX_DEPTH && r in H && ObjectTyped(W, H, H[r])
    ensures OneofCheck(W[H[r].cls].desc, Unfold(H, r, depth).slots, 0).None?
  {
    var d, slots := W[H[r].cls].desc, Unfold(H, r, depth).slots;
    forall g: nat | g < |d.oneofs|
      ensures AtMostOne(d.fields, slots, g, |d.fields|)
    {
      forall i, j | 0 <= i < j < |slots|
        ensures !(Member(d.fields, slots, g, i) && Member(d.fields, slots, g, j))
      {
        assert slots[i] == UnfoldAttribute(H, H[r].attrs[i], depth);
        assert slots[j] == UnfoldAttribute(H, H[r].attrs[j], depth);
      }
    }
    OneofCheckExact(d, slots, 0);
  }

  lemma {:induction false} ObjectDepth(W: World, H: Heap, r: Ref, depth: nat)
    requires HeapTyped(W, H) && depth <= MAX_DEPTH + 1 && r in H
    ensures Exactly(EncodeMessage(W, Unfold(H, r, depth), depth), Deep(H, r, MAX_DEPTH + 1 - depth))
    decreases MAX_DEPTH + 1 - depth, 4
  {
    if depth <= MAX_DEPTH {
      AttributesDepth(W, H, r, 0, depth);
      assert ObjectTyped(W, H, H[r]);
      UnfoldedOneofs(W, H, r, depth);
      hide HeapTyped, ObjectTyped, EncodeFields, OneofCheck, Unfold;
    }
  }

  lemma {:induction false} TypedAttributeInside(W: World, H: Heap, link: Option<Target>, f: FieldDescriptor,
      a: Attribute)
    requires AttributeTyped(W, H, link, f, a)
    ensures AttributeInside(H, a)
  {
    hide ValueTyped, ScalarTyped;
  }

  lemma {:induction false} TypedHeapIsClosed(W: World, H: Heap)
    requires HeapTyped(W, H)
    ensures HeapClosed(H)
  {
    forall r, i | r in H && 0 <= i < |H[r].attrs|
      ensures AttributeInside(H, H[r].attrs[i])
    {
      assert ObjectTyped(W, H, H[r]);
      var C := W[H[r].cls];
      TypedAttributeInside(W, H, C.Link(C.desc.fields[i].number), C.desc.fields[i], H[r].attrs[i]);
    }
  }

  /** On any heap of otherwise valid objects, cyclic or not, encoding an object fails with the
      nesting error if a path of more than 100 message edges leaves it, and else succeeds. */
  lemma {:induction false} NestingErrorIsExact(W: World, H: Heap, root: Ref)
    requires HeapTyped(W, H) && root in H
    ensures var r := EncodeObject(W, H, root, 0);
            if PathOf(H, root, MAX_DEPTH + 1) then r == Err(NestingTooDeep) else r.Ok?
  {
    TypedHeapIsClosed(W, H);
    ObjectEncoding(W, H, root, 0);
    ObjectDepth(W, H, root, 0);
    DeepIsPath(H, root, MAX_DEPTH + 1);
  }

  /** An object that can reach itself never encodes. */
  lemma {:induction false} CyclesAreRefused(W: World, H: Heap, cycle: seq<Ref>)
    requires HeapTyped(W, H) && |cycle| >= 2 && Path(H, cycle) && cycle[0] == cycle[|cycle| - 1]
    ensures cycle[0] in H && EncodeObject(W, H, cycle[0], 0) == Err(NestingTooDeep)
  {
    assert Edge(H, cycle[0], cycle[1]);
    TypedHeapIsClosed(W, H);
    ObjectEncoding(W, H, cycle[0], 0);
    CycleIsDeep(H, cycle, 0, MAX_DEPTH + 1);
    ObjectDepth(W, H, cycle[0], 0);
  }

  lemma {:induction false} CycleIsDeep(H: Heap, cycle: seq<Ref>, i: nat, n: nat)
    requires |cycle| >= 2 && Path(H, cycle) && cycle[0] == cycle[|cycle| - 1] && i < |cycle| - 1
    ensures cycle[i] in H && Deep(H, cycle[i], n)
    decreases n
  {
    assert Edge(H, cycle[i], cycle[i + 1]);
    if n > 0 {
      var next := if i + 1 == |cycle| - 1 then 0 else i + 1;
      CycleIsDeep(H, cycle, next, n - 1);
      EdgeIsDeep(H, cycle[i], cycle[i + 1], n - 1);
    }
  }
}
