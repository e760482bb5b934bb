/**
 When decoding can meet a field that is not linked to a message class: exactly when fields
 that records can reach lead to one within the depth limit.
 */
module LinkGaps {
  import opened Basics
  import opened Wire
  import opened Records
  import opened Descriptors
  import opened Values
  import opened Decoding
  import opened Typing
  import opened Accepted

  predicate IsLinkError(e: CodecError) {
    e == NotLinked || e == NotAMessage
  }

  predicate NoLinkError<T>(r: Outcome<T>) {
    r.Err? ==> !IsLinkError(r.error)
  }

  /** Some input decoded through `c` meets a link error. */
  ghost predicate MeetsLinkError(W: World, c: ClassId) {
    exists data :: !NoLinkError(DecodeMessage(W, c, data, 0))
  }

  predicate ToClass(link: Option<Target>) {
    link.Some? && link.value.MessageClass?
  }

  /** Records can reach this field, and its values are messages. */
  predicate Decodable(d: MessageDescriptor, i: nat)
    requires i < |d.fields|
  {
    Reachable(d, i) && d.fields[i].kind.value.Message?
  }

  /** Within `n` further levels of nesting, decoding `c` can come to a message field that is
      not linked to a message class of the world. */
  predicate Gap(W: World, c: ClassId, n: nat)
    decreases n, 1
  {
    c !in W || exists i :: 0 <= i < |W[c].desc.fields| && GapField(W, c, i, n)
  }

  predicate GapField(W: World, c: ClassId, i: nat, n: nat)
    requires c in W && i < |W[c].desc.fields|
    decreases n, 0
  {
    Decodable(W[c].desc, i) &&
    var link := W[c].Link(W[c].desc.fields[i].number);
    !ToClass(link) || (n > 0 && Gap(W, link.value.cls, n - 1))
  }

  /** A gap is at some field, ... */
  lemma {:induction false} GapCase(W: World, c: ClassId, n: nat) returns (i: nat)
    requires c in W && Gap(W, c, n)
    ensures i < |W[c].desc.fields| && Decodable(W[c].desc, i)
    ensures var link := W[c].Link(W[c].desc.fields[i].number);
            !ToClass(link) || (n > 0 && Gap(W, link.value.cls, n - 1))
  {
    i :| 0 <= i < |W[c].desc.fields| && GapField(W, c, i, n);
  }

  /** ... and any such field makes one. */
  lemma {:induction false} GapThrough(W: World, c: ClassId, i: nat, n: nat)
    requires c in W && i < |W[c].desc.fields| && Decodable(W[c].desc, i)
    requires var link := W[c].Link(W[c].desc.fields[i].number);
             !ToClass(link) || (n > 0 && Gap(W, link.value.cls, n - 1))
    ensures Gap(W, c, n)
  {
    assert GapField(W, c, i, n);
  }

  /** `V` is `W` with more classes linked: what was linked stays as it is. */
  predicate Extends(W: World, V: World) {
    forall c <- W :: c in V && V[c].desc == W[c].desc && (W[c].refs.Some? ==> V[c].refs == W[c].refs)
  }

  /** Values of this kind cannot come to a gap from this depth on, and are linked alike later. */
  predicate LinkSafe(W: World, link: Option<Target>, later: Option<Target>, kind: ValueKind, depth: nat)
    requires depth <= MAX_DEPTH
  {
    kind.Message? ==>
      && later == link && ToClass(link)
      && (depth < MAX_DEPTH ==> !Gap(W, link.value.cls, MAX_DEPTH - depth - 1))
  }

  /** No link error, and the same outcome when more is linked. */
  predicate Steady<T(==)>(r: Outcome<T>, later: Outcome<T>) {
    NoLinkError(r) && later == r
  }

  // ------------------------------------------------- no gap, no link error

  lemma {:induction false} SafeLinked(W: World, V: World, link: Option<Target>, data: Bytes, depth: nat)
    requires Extends(W, V) && depth <= MAX_DEPTH && LinkSafe(W, link, link, Message, depth)
    ensures Steady(DecodeLinked(W, link, data, depth), DecodeLinked(V, link, data, depth))
    decreases MAX_DEPTH + 1 - depth, 0
  {
    SafeMessage(W, V, link.value.cls, data, depth + 1);
  }

  lemma {:induction false} SafeValue(W: World, V: World, link: Option<Target>, later: Option<Target>,
      kind: ValueKind, p: Payload, depth: nat)
    requires Extends(W, V) && depth <= MAX_DEPTH && LinkSafe(W, link, later, kind, depth) && p.Wire() == kind.Wire()
    ensures Steady(DecodeValue(W, link, kind, p, depth), DecodeValue(V, later, kind, p, depth))
    decreases MAX_DEPTH + 1 - depth, 1
  {
    if kind.Message? {
      SafeLinked(W, V, link, p.data, depth);
    }
  }

  lemma {:induction false} SafeDefault(W: World, V: World, link: Option<Target>, later: Option<Target>,
      kind: ValueKind, depth: nat)
    requires Extends(W, V) && depth <= MAX_DEPTH && LinkSafe(W, link, later, kind, depth)
    ensures Steady(MissingValue(W, link, kind, depth), MissingValue(V, later, kind, depth))
    decreases MAX_DEPTH + 1 - depth, 1
  {
    if kind.Message? {
      SafeLinked(W, V, link, [], depth);
    }
  }

  lemma {:induction false} SafeEntryStep(W: World, V: World, link: Option<Target>, later: Option<Target>,
      key: ScalarType, kind: ValueKind, st: EntryState, rec: Record, depth: nat)
    requires depth <= MAX_DEPTH
    requires rec.payload.Wire() == kind.Wire() ==>
      Steady(DecodeValue(W, link, kind, rec.payload, depth), DecodeValue(V, later, kind, rec.payload, depth))
    ensures Steady(EntryStep(W, link, key, kind, st, rec, depth), EntryStep(V, later, key, kind, st, rec, depth))
  {
    hide DecodeValue;
  }

  lemma {:induction false} SafeEntryFold(W: World, V: World, link: Option<Target>, later: Option<Target>,
      key: ScalarType, kind: ValueKind, st: EntryState, raws: seq<Raw>, depth: nat)
    requires Extends(W, V) && depth <= MAX_DEPTH && LinkSafe(W, link, later, kind, depth)
    ensures Steady(EntryFold(W, link, key, kind, st, raws, depth), EntryFold(V, later, key, kind, st, raws, depth))
    decreases MAX_DEPTH + 1 - depth, 2, |raws|
  {
    if raws != [] {
      if raws[0].rec.payload.Wire() == kind.Wire() {
        SafeValue(W, V, link, later, kind, raws[0].rec.payload, depth);
      }
      SafeEntryStep(W, V, link, later, key, kind, st, raws[0].rec, depth);
      hide LinkSafe, EntryStep, Extends;
      var next := EntryStep(W, link, key, kind, st, raws[0].rec, depth);
      if next.Ok? {
        SafeEntryFold(W, V, link, later, key, kind, next.value, raws[1..], depth);
      }
    }
  }

  lemma {:induction false} SafeFinish(W: World, V: World, link: Option<Target>, later: Option<Target>,
      key: ScalarType, kind: ValueKind, st: EntryState, depth: nat)
    requires depth <= MAX_DEPTH
    requires Steady(MissingValue(W, link, kind, depth), MissingValue(V, later, kind, depth))
    ensures Steady(FinishEntry(W, link, key, kind, st, depth), FinishEntry(V, later, key, kind, st, depth))
  {
    hide MissingValue, ZeroScalar;
  }

  lemma {:induction false} SafeEntryEnd(W: World, V: World, link: Option<Target>, later: Option<Target>,
      key: ScalarType, kind: ValueKind, data: Bytes, depth: nat)
    requires depth <= MAX_DEPTH
    requires var start, raws := EntryState(None, None), ScanAll(data).raws;
             Steady(EntryFold(W, link, key, kind, start, raws, depth),
                    EntryFold(V, later, key, kind, start, raws, depth))
    requires Steady(MissingValue(W, link, kind, depth), MissingValue(V, later, kind, depth))
    ensures Steady(DecodeEntry(W, link, key, kind, data, depth), DecodeEntry(V, later, key, kind, data, depth))
  {
    var st := EntryFold(W, link, key, kind, EntryState(None, None), ScanAll(data).raws, depth);
    if st.Ok? {
      SafeFinish(W, V, link, later, key, kind, st.value, depth);
    }
    hide EntryFold, FinishEntry, ScanAll;
  }

  lemma {:induction false} SafeEntry(W: World, V: World, link: Option<Target>, later: Option<Target>,
      key: ScalarType, kind: ValueKind, data: Bytes, depth: nat)
    requires Extends(W, V) && depth <= MAX_DEPTH && LinkSafe(W, link, later, kind, depth)
    ensures Steady(DecodeEntry(W, link, key, kind, data, depth), DecodeEntry(V, later, key, kind, data, depth))
    decreases MAX_DEPTH + 1 - depth, 3
  {
    hide *;
    SafeEntryFold(W, V, link, later, key, kind, EntryState(None, None), ScanAll(data).raws, depth);
    SafeDefault(W, V, link, later, kind, depth);
    SafeEntryEnd(W, V, link, later, key, kind, data, depth);
  }

  lemma {:induction false} SafePacked(kind: ValueKind, data: Bytes)
    requires kind.Packable()
    ensures NoLinkError(DecodePacked(kind, data))
    decreases |data|
  {
    if data != [] && ReadPayload(kind.Wire(), data).Got? {
      SafePacked(kind, data[ReadPayload(kind.Wire(), data).used..]);
    }
  }

  lemma {:induction false} SafeContribution(W: World, V: World, link: Option<Target>, later: Option<Target>,
      f: FieldDescriptor, p: Payload, depth: nat)
    requires Extends(W, V) && depth <= MAX_DEPTH && LinkSafe(W, link, later, f.kind.value, depth) && f.Accepts(p.Wire())
    ensures Steady(Contribution(W, link, f, p, depth), Contribution(V, later, f, p, depth))
    decreases MAX_DEPTH + 1 - depth, 4
  {
    match f.kind
    case Map(key, kind) => SafeEntry(W, V, link, later, key, kind, p.data, depth);
    case Plain(kind) =>
      if f.cardinality == Repeated && kind.Packable() && p.PLen? {
        SafePacked(kind, p.data);
      } else {
        SafeValue(W, V, link, later, kind, p, depth);
      }
  }

  /** Without a gap, every field a record reaches is safe. */
  lemma {:induction false} NoGapField(W: World, V: World, c: ClassId, i: nat, depth: nat)
    requires Extends(W, V) && depth <= MAX_DEPTH && c in W && !Gap(W, c, MAX_DEPTH - depth)
    requires i < |W[c].desc.fields| && Reachable(W[c].desc, i)
    ensures var f := W[c].desc.fields[i];
            LinkSafe(W, W[c].Link(f.number), V[c].Link(f.number), f.kind.value, depth)
  {
    hide Reachable;
    assert !GapField(W, c, i, MAX_DEPTH - depth);
  }

  lemma {:induction false} SafeFold(W: World, V: World, c: ClassId, st: State, raws: seq<Raw>, depth: nat)
    requires Extends(W, V) && depth <= MAX_DEPTH && c in W && !Gap(W, c, MAX_DEPTH - depth) && AllValid(raws)
    requires |st.slots| == |W[c].desc.fields|
    ensures Steady(FoldRecords(W, W[c], st, raws, depth), FoldRecords(V, V[c], st, raws, depth))
    decreases MAX_DEPTH + 1 - depth, 5, |raws|
  {
    if raws != [] {
      var C, rec := W[c], raws[0].rec;
      var to := Route(C.desc, rec);
      if to.Some? {
        ValidRawRecord(raws[0]);
        RoutedIsReachable(C.desc, rec);
        NoGapField(W, V, c, to.value, depth);
        SafeContribution(W, V, C.Link(rec.number), V[c].Link(rec.number), C.desc.fields[to.value], rec.payload, depth);
      }
      hide Gap, Contribution, Apply, Raw.Valid;
      var next := Step(W, C, st, raws[0], depth);
      if next.Ok? {
        SafeFold(W, V, c, next.value, raws[1..], depth);
      }
    }
  }

  lemma {:induction false} SafeMessage(W: World, V: World, c: ClassId, data: Bytes, depth: nat)
    requires Extends(W, V) && depth <= MAX_DEPTH + 1 && (depth <= MAX_DEPTH ==> !Gap(W, c, MAX_DEPTH - depth))
    ensures Steady(DecodeMessage(W, c, data, depth), DecodeMessage(V, c, data, depth))
    decreases MAX_DEPTH + 1 - depth, 6
  {
    if depth <= MAX_DEPTH {
      ScanIsValid(data);
      SafeFold(W, V, c, InitState(W[c].desc), ScanAll(data).raws, depth);
    }
  }

  // --------------------------------------------------- a gap can be met

  /** A record that brings the message `sub` to field `f`. */
  function Carrier(f: FieldDescriptor, sub: Bytes): Record {
    Record(f.number, PLen(if f.kind.Map? then Record(2, PLen(sub)).Bytes() else sub))
  }

  lemma {:induction false} RecordLength(r: Record)
    requires r.Valid()
    ensures r.payload.PLen? ==> |r.Bytes()| <= 20 + |r.payload.data|
  {
    U64FitsTenBytes(r.number * 8 + r.payload.Wire().Code());
    if r.payload.PLen? {
      U64FitsTenBytes(|r.payload.data|);
    }
  }

  /** One valid record is all there is in its own bytes. */
  lemma {:induction false} ScanOfOne(r: Record)
    requires r.Valid()
    ensures ScanAll(r.Bytes()) == Scan([Raw(r, r.Bytes())], None)
  {
    RecordRoundTrip(r, []);
    assert r.Bytes() + [] == r.Bytes();
    ScanOne(Raw(r, r.Bytes()));
  }

  lemma {:induction false} EntryFails(W: World, link: Option<Target>, key: ScalarType, sub: Bytes, depth: nat)
    requires depth <= MAX_DEPTH && IsU64(|sub|) && DecodeLinked(W, link, sub, depth).Err?
    ensures DecodeEntry(W, link, key, Message, Record(2, PLen(sub)).Bytes(), depth)
         == Err(DecodeLinked(W, link, sub, depth).error)
  {
    var r := Record(2, PLen(sub));
    ScanOfOne(r);
    hide DecodeLinked, DecodeScalar;
    assert EntryStep(W, link, key, Message, EntryState(None, None), r, depth)
        == Err(DecodeLinked(W, link, sub, depth).error);
  }

  /** If decoding `sub` through the field's link fails, so does decoding its carrier. */
  lemma {:induction false} CarrierFails(W: World, c: ClassId, i: nat, sub: Bytes, depth: nat)
    requires depth <= MAX_DEPTH && c in W && i < |W[c].desc.fields| && Decodable(W[c].desc, i) && IsU64(|sub| + 20)
    requires var f := W[c].desc.fields[i]; DecodeLinked(W, W[c].Link(f.number), sub, depth).Err?
    ensures var f, r := W[c].desc.fields[i], DecodeLinked(W, W[c].Link(W[c].desc.fields[i].number), sub, depth);
            && DecodeMessage(W, c, Carrier(f, sub).Bytes(), depth) == Err(r.error)
            && |Carrier(f, sub).Bytes()| <= |sub| + 40
  {
    var C, f := W[c], W[c].desc.fields[i];
    var link, rec := C.Link(f.number), Carrier(f, sub);
    RecordLength(Record(2, PLen(sub)));
    RecordLength(rec);
    ScanOfOne(rec);
    if f.kind.Map? {
      EntryFails(W, link, f.kind.key, sub, depth);
    }
    FailingRecord(W, c, i, rec, DecodeLinked(W, link, sub, depth).error, depth);
  }

  lemma {:induction false} FailingRecord(W: World, c: ClassId, i: nat, rec: Record, e: CodecError, depth: nat)
    requires depth <= MAX_DEPTH && c in W && i < |W[c].desc.fields| && Reachable(W[c].desc, i)
    requires ScanAll(rec.Bytes()) == Scan([Raw(rec, rec.Bytes())], None)
    requires var f := W[c].desc.fields[i];
             rec.number == f.number && f.Accepts(rec.payload.Wire())
             && Contribution(W, W[c].Link(f.number), f, rec.payload, depth) == Err(e)
    ensures DecodeMessage(W, c, rec.Bytes(), depth) == Err(e)
  {
    hide Contribution, Record.Bytes, ScanAll;
    var C := W[c];
    var raw := Raw(rec, rec.Bytes());
    assert Route(C.desc, rec) == Some(i);
    assert Step(W, C, InitState(C.desc), raw, depth) == Err(e);
    assert FoldRecords(W, C, InitState(C.desc), [raw], depth) == Err(e);
  }

  /** Bytes that lead the decoder into a gap. */
  lemma {:induction false} GapIsMet(W: World, c: ClassId, depth: nat) returns (data: Bytes)
    requires depth <= MAX_DEPTH && Gap(W, c, MAX_DEPTH - depth)
    ensures !NoLinkError(DecodeMessage(W, c, data, depth)) && |data| <= 40 * (MAX_DEPTH + 1 - depth)
    decreases MAX_DEPTH - depth
  {
    data := [];
    if c in W {
      var i :| 0 <= i < |W[c].desc.fields| && GapField(W, c, i, MAX_DEPTH - depth);
      var f := W[c].desc.fields[i];
      var link := W[c].Link(f.number);
      var sub := [];
      if ToClass(link) {
        sub := GapIsMet(W, link.value.cls, depth + 1);
      }
      CarrierFails(W, c, i, sub, depth);
      data := Carrier(f, sub).Bytes();
    }
  }

  /** Some input meets a link error exactly when there is a gap within the depth limit. */
  lemma {:induction false} GapIsExact(W: World, c: ClassId)
    ensures MeetsLinkError(W, c) <==> Gap(W, c, MAX_DEPTH)
  {
    hide Gap, DecodeMessage;
    if Gap(W, c, MAX_DEPTH) {
      var data := GapIsMet(W, c, 0);
    } else {
      forall data
        ensures NoLinkError(DecodeMessage(W, c, data, 0))
      {
        SafeMessage(W, W, c, data, 0);
      }
    }
  }

  /** A gap never opens: linking more classes keeps what has none without. */
  lemma {:induction false} GapsOnlyClose(W: World, V: World, c: ClassId, n: nat)
    requires Extends(W, V) && Gap(V, c, n)
    ensures Gap(W, c, n)
    decreases n
  {
    if c in W {
      var i :| 0 <= i < |V[c].desc.fields| && GapField(V, c, i, n);
      var link := W[c].Link(W[c].desc.fields[i].number);
      if ToClass(link) {
        GapsOnlyClose(W, V, link.value.cls, n - 1);
      }
      assert GapField(W, c, i, n);
    }
  }

  /** Where linking is complete below a class, decoding through it gave the same results
      before, on every input, exactly if there was no gap before. */
  lemma {:induction false} SteadyIsExact(W: World, V: World, c: ClassId)
    requires Extends(W, V) && !Gap(V, c, MAX_DEPTH)
    ensures (forall data :: DecodeMessage(W, c, data, 0) == DecodeMessage(V, c, data, 0)) <==> !Gap(W, c, MAX_DEPTH)
  {
    hide Gap, DecodeMessage;
    if Gap(W, c, MAX_DEPTH) {
      var data := GapIsMet(W, c, 0);
      SafeMessage(V, V, c, data, 0);
      assert DecodeMessage(W, c, data, 0) != DecodeMessage(V, c, data, 0);
    } else {
      forall data
        ensures DecodeMessage(W, c, data, 0) == DecodeMessage(V, c, data, 0)
      {
        SafeMessage(W, V, c, data, 0);
      }
    }
  }

  // ------------------------------------------------------ closed sets of classes

  /** The message fields of `C` are linked to classes in `S`. */
  predicate FieldsWithin(C: ClassInfo, S: set<ClassId>) {
    forall i :: 0 <= i < |C.desc.fields| && C.desc.fields[i].kind.value.Message? ==>
      var link := C.Link(C.desc.fields[i].number);
      ToClass(link) && link.value.cls in S
  }

  predicate LinkClosed(W: World, S: set<ClassId>) {
    forall c <- S :: c in W && FieldsWithin(W[c], S)
  }

  lemma {:induction false} ClosedHasNoGap(W: World, S: set<ClassId>, c: ClassId, n: nat)
    requires LinkClosed(W, S) && c in S
    ensures !Gap(W, c, n)
    decreases n
  {
    forall i | 0 <= i < |W[c].desc.fields|
      ensures !GapField(W, c, i, n)
    {
      var link := W[c].Link(W[c].desc.fields[i].number);
      if Decodable(W[c].desc, i) && n > 0 {
        ClosedHasNoGap(W, S, link.value.cls, n - 1);
      }
    }
  }

  /** Decoding any bytes through a closed set of classes never reaches an unlinked field or
      one that is linked to something else than a message class. */
  lemma {:induction false} LinkedMessage(W: World, S: set<ClassId>, cls: ClassId, data: Bytes, depth: nat)
    requires LinkClosed(W, S) && cls in S && depth <= MAX_DEPTH + 1
    ensures NoLinkError(DecodeMessage(W, cls, data, depth))
  {
    if depth <= MAX_DEPTH {
      ClosedHasNoGap(W, S, cls, MAX_DEPTH - depth);
    }
    SafeMessage(W, W, cls, data, depth);
  }
}
