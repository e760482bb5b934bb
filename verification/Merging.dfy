/** Concatenating two encoded streams merges what they decode to. */
module Merging {
  import opened Basics
  import opened Records
  import opened Descriptors
  import opened Values
  import opened Decoding
  import opened Typing
  import opened RoundTrip
  import opened Accepted
  import opened Meaning

  /** `dict.update` with the entries of a second dict, in their order. */
  function PutAll(es: seq<Pair>, more: seq<Pair>): seq<Pair>
    decreases |more|
  {
    if more == [] then es else PutAll(Put(es, more[0].key, more[0].value), more[1..])
  }

  /** How two decoded slots of one field merge: lists append, later map entries override,
      a later value replaces, and a oneof claimed later clears. */
  function MergeSlot(f: FieldDescriptor, a: Slot, b: Slot, claimed: bool): Slot {
    if f.kind.Map? then (if a.Dict? && b.Dict? then Dict(PutAll(a.entries, b.entries)) else b)
    else if f.cardinality == Repeated then (if a.Many? && b.Many? then Many(a.vs + b.vs) else b)
    else if !b.Unset? then b
    else if claimed then Unset
    else a
  }

  predicate Claimed(f: FieldDescriptor, owner: map<nat, nat>) {
    f.Group().Some? && f.Group().value in owner
  }

  function MergeSlots(fields: seq<FieldDescriptor>, a: seq<Slot>, b: seq<Slot>, owner: map<nat, nat>): (r: seq<Slot>)
    requires |fields| == |a| == |b|
    ensures |r| == |fields|
    ensures forall i :: 0 <= i < |r| ==> r[i] == MergeSlot(fields[i], a[i], b[i], Claimed(fields[i], owner))
  {
    seq(|fields|, i requires 0 <= i < |fields| => MergeSlot(fields[i], a[i], b[i], Claimed(fields[i], owner)))
  }

  function Merge(d: MessageDescriptor, a: State, b: State): (r: State)
    requires |d.fields| == |a.slots| == |b.slots|
    ensures |r.slots| == |d.fields|
  {
    State(MergeSlots(d.fields, a.slots, b.slots, b.owner), a.owner + b.owner, a.unknown + b.unknown)
  }

  // ----------------------------------------------------------- map updates

  lemma {:induction false} PutTwice(es: seq<Pair>, k: Value, v: Value, w: Value)
    ensures Put(Put(es, k, v), k, w) == Put(es, k, w)
  {
    if es != [] && es[0].key != k {
      PutTwice(es[1..], k, v, w);
      assert Put(es, k, v)[1..] == Put(es[1..], k, v);
    }
  }

  lemma {:induction false} PutSwap(es: seq<Pair>, k: Value, v: Value, q: Value, w: Value)
    requires HasKey(es, k) && q != k
    ensures Put(Put(es, q, w), k, v) == Put(Put(es, k, v), q, w)
  {
    var rest := es[1..];
    assert es == [es[0]] + rest;
    HasKeyCons(es[0], rest, k);
    if es[0].key == k {
      assert Put(es, k, v)[1..] == rest;
      assert Put(es, q, w)[1..] == Put(rest, q, w);
    } else if es[0].key == q {
      assert Put(es, q, w)[1..] == rest;
      assert Put(es, k, v)[1..] == Put(rest, k, v);
    } else {
      PutSwap(rest, k, v, q, w);
      assert Put(es, q, w)[1..] == Put(rest, q, w);
      assert Put(es, k, v)[1..] == Put(rest, k, v);
    }
  }

  lemma {:induction false} PutAllLater(es: seq<Pair>, more: seq<Pair>, k: Value, v: Value)
    requires HasKey(es, k) && !HasKey(more, k)
    ensures Put(PutAll(es, more), k, v) == PutAll(Put(es, k, v), more)
    decreases |more|
  {
    if more != [] {
      var e := more[0];
      assert more == [e] + more[1..];
      HasKeyCons(e, more[1..], k);
      PutKeys(es, e.key, e.value, k);
      PutAllLater(Put(es, e.key, e.value), more[1..], k, v);
      PutSwap(es, k, v, e.key, e.value);
    }
  }

  /** Putting into the second dict first or into the merged one last is the same. */
  lemma {:induction false} PutAllPut(es: seq<Pair>, more: seq<Pair>, k: Value, v: Value)
    requires DistinctKeys(more)
    ensures PutAll(es, Put(more, k, v)) == Put(PutAll(es, more), k, v)
    decreases |more|
  {
    if more == [] {
      assert [Pair(k, v)][1..] == [];
    } else {
      var e, rest := more[0], more[1..];
      if e.key == k {
        assert Put(more, k, v)[1..] == rest;
        assert !HasKey(rest, k);
        PutKeys(es, k, e.value, k);
        PutAllLater(Put(es, k, e.value), rest, k, v);
        PutTwice(es, k, e.value, v);
      } else {
        assert Put(more, k, v)[1..] == Put(rest, k, v);
        PutAllPut(Put(es, e.key, e.value), rest, k, v);
      }
    }
  }

  // ------------------------------------------------------------ one record

  lemma {:induction false} AbsorbMerges(W: World, link: Option<Target>, f: FieldDescriptor, a: Slot, b: Slot,
      delta: Delta, claimed: bool, depth: nat)
    requires SlotOk(W, link, f, a, depth) && SlotOk(W, link, f, b, depth) && DeltaOk(W, link, f, delta, depth)
    ensures Absorb(MergeSlot(f, a, b, claimed), delta) == MergeSlot(f, a, Absorb(b, delta), true)
    ensures f.Collection() || !Absorb(b, delta).Unset?
  {
    match f.kind
    case Map(key, kind) => PutAllPut(a.entries, b.entries, delta.pair.key, delta.pair.value);
    case Plain(kind) =>
      if f.cardinality == Repeated {
        Associative(a.vs, b.vs, delta.vs);
      }
  }

  /** Where two states merge, the recorded owner is the only member that may be set. */
  lemma {:induction false} MergedSlotOfRival(d: MessageDescriptor, a: State, b: State, g: nat, i: nat)
    requires WellFormed(d) && i < |d.fields| == |a.slots| == |b.slots| && d.fields[i].Group() == Some(g)
    requires OwnersOk(d, a.slots, a.owner) && OwnersOk(d, b.slots, b.owner)
    requires var o := a.owner + b.owner; g !in o || o[g] != i
    ensures Merge(d, a, b).slots[i] == Unset
  {
  }

  lemma {:induction false} ApplyMergesAt(W: World, C: ClassInfo, a: State, b: State, idx: nat, delta: Delta,
      depth: nat, i: nat)
    requires WellFormed(C.desc) && StateOk(W, C, a, depth) && StateOk(W, C, b, depth)
    requires idx < |a.slots| && i < |a.slots|
    requires DeltaOk(W, C.Link(C.desc.fields[idx].number), C.desc.fields[idx], delta, depth)
    ensures Apply(C.desc, Merge(C.desc, a, b), idx, delta).slots[i]
         == Merge(C.desc, a, Apply(C.desc, b, idx, delta)).slots[i]
  {
    var d := C.desc;
    var f, link := d.fields[idx], C.Link(d.fields[idx].number);
    if i == idx {
      AbsorbMerges(W, link, f, a.slots[i], b.slots[i], delta, Claimed(f, b.owner), depth);
      AbsorbMerges(W, link, f, a.slots[i], b.slots[i], delta, true, depth);
      OwnSlotMerges(d, a, b, idx, delta);
    } else if f.Group().Some? && d.fields[i].Group() == f.Group() {
      RivalSlotClaimed(d, a, b, idx, i, delta);
    } else {
      OtherSlotKept(d, Merge(d, a, b), idx, i, delta);
      OtherSlotKept(d, b, idx, i, delta);
    }
  }

  lemma {:induction false} OwnSlotMerges(d: MessageDescriptor, a: State, b: State, idx: nat, delta: Delta)
    requires WellFormed(d) && idx < |d.fields| == |a.slots| == |b.slots|
    requires var f := d.fields[idx];
             && Absorb(MergeSlot(f, a.slots[idx], b.slots[idx], Claimed(f, b.owner)), delta)
                == MergeSlot(f, a.slots[idx], Absorb(b.slots[idx], delta), true)
             && (f.Collection() || !Absorb(b.slots[idx], delta).Unset?)
    ensures Apply(d, Merge(d, a, b), idx, delta).slots[idx] == Merge(d, a, Apply(d, b, idx, delta)).slots[idx]
  {
    OwnSlotClaimed(d, Merge(d, a, b), idx);
    OwnSlotClaimed(d, b, idx);
  }

  /** A slot outside the field's group is left alone. */
  lemma {:induction false} OtherSlotKept(d: MessageDescriptor, st: State, idx: nat, i: nat, delta: Delta)
    requires idx < |d.fields| == |st.slots| && i < |d.fields| && i != idx
    requires d.fields[idx].Group().None? || d.fields[i].Group() != d.fields[idx].Group()
    requires forall g <- st.owner :: st.owner[g] < |d.fields| && d.fields[st.owner[g]].Group() == Some(g)
    ensures Apply(d, st, idx, delta).slots[i] == st.slots[i]
    ensures Claimed(d.fields[i], Apply(d, st, idx, delta).owner) == Claimed(d.fields[i], st.owner)
  {
  }

  /** Claiming a group never touches the claimant's own slot. */
  lemma {:induction false} OwnSlotClaimed(d: MessageDescriptor, st: State, idx: nat)
    requires idx < |d.fields| == |st.slots|
    ensures Claim(d.fields[idx], idx, st).slots[idx] == st.slots[idx]
  {
  }

  lemma {:induction false} RivalSlotClaimed(d: MessageDescriptor, a: State, b: State, idx: nat, i: nat, delta: Delta)
    requires WellFormed(d) && idx < |d.fields| == |a.slots| == |b.slots| && i < |d.fields| && i != idx
    requires OwnersOk(d, a.slots, a.owner) && OwnersOk(d, b.slots, b.owner)
    requires d.fields[idx].Group().Some? && d.fields[i].Group() == d.fields[idx].Group()
    ensures Apply(d, Merge(d, a, b), idx, delta).slots[i] == Unset
    ensures Merge(d, a, Apply(d, b, idx, delta)).slots[i] == Unset
  {
    var g := d.fields[idx].Group().value;
    var merged := Merge(d, a, b);
    if g !in merged.owner || merged.owner[g] != i {
      MergedSlotOfRival(d, a, b, g, i);
    }
    hide OwnersOk, WellFormed, Merge, Absorb;
    ClaimClears(d, merged, idx, i, delta);
    RivalStaysClear(d, a, b, idx, i, delta);
  }

  /** After a claim the group's other members are clear, if only the owner was set before. */
  lemma {:induction false} ClaimClears(d: MessageDescriptor, st: State, idx: nat, i: nat, delta: Delta)
    requires idx < |d.fields| == |st.slots| && i < |d.fields| && i != idx && d.fields[idx].Group().Some?
    requires var g := d.fields[idx].Group().value;
             st.slots[i] == Unset || (g in st.owner && st.owner[g] == i)
    ensures Apply(d, st, idx, delta).slots[i] == Unset
  {
    hide Absorb;
  }

  lemma {:induction false} RivalStaysClear(d: MessageDescriptor, a: State, b: State, idx: nat, i: nat, delta: Delta)
    requires WellFormed(d) && idx < |d.fields| == |a.slots| == |b.slots| && i < |d.fields| && i != idx
    requires OwnersOk(d, b.slots, b.owner)
    requires d.fields[idx].Group().Some? && d.fields[i].Group() == d.fields[idx].Group()
    ensures Merge(d, a, Apply(d, b, idx, delta)).slots[i] == Unset
  {
    hide Absorb;
    ClaimClears(d, b, idx, i, delta);
  }

  lemma {:induction false} ApplyMerges(W: World, C: ClassInfo, a: State, b: State, idx: nat, delta: Delta, depth: nat)
    requires WellFormed(C.desc) && StateOk(W, C, a, depth) && StateOk(W, C, b, depth) && idx < |a.slots|
    requires DeltaOk(W, C.Link(C.desc.fields[idx].number), C.desc.fields[idx], delta, depth)
    ensures Apply(C.desc, Merge(C.desc, a, b), idx, delta) == Merge(C.desc, a, Apply(C.desc, b, idx, delta))
  {
    var x, y := Apply(C.desc, Merge(C.desc, a, b), idx, delta), Merge(C.desc, a, Apply(C.desc, b, idx, delta));
    RestMerges(C.desc, a, b, idx, delta);
    hide Apply, Merge, StateOk, SlotsOk, OwnersOk, DeltaOk;
    forall i | 0 <= i < |a.slots|
      ensures x.slots[i] == y.slots[i]
    {
      ApplyMergesAt(W, C, a, b, idx, delta, depth, i);
    }
    assert x.slots == y.slots;
  }

  lemma {:induction false} RestMerges(d: MessageDescriptor, a: State, b: State, idx: nat, delta: Delta)
    requires idx < |d.fields| == |a.slots| == |b.slots|
    ensures var x, y := Apply(d, Merge(d, a, b), idx, delta), Merge(d, a, Apply(d, b, idx, delta));
            x.owner == y.owner && x.unknown == y.unknown
  {
  }

  lemma {:induction false} StateShape(W: World, C: ClassInfo, st: State, depth: nat)
    requires StateOk(W, C, st, depth)
    ensures |st.slots| == |C.desc.fields|
  {
  }

  lemma {:induction false} StepMerges(W: World, C: ClassInfo, a: State, b: State, raw: Raw, depth: nat)
    requires WorldOk(W) && depth <= MAX_DEPTH && WellFormed(C.desc) && raw.Valid()
    requires StateOk(W, C, a, depth) && StateOk(W, C, b, depth)
    ensures var r := Step(W, C, b, raw, depth);
            r.Ok? ==> Step(W, C, Merge(C.desc, a, b), raw, depth) == Ok(Merge(C.desc, a, r.value))
  {
    hide WorldOk, WellFormed, Contribution, Apply, StateOk, Raw.Valid;
    StateShape(W, C, a, depth);
    StateShape(W, C, b, depth);
    match Route(C.desc, raw.rec)
    case None => Associative(a.unknown, b.unknown, raw.bytes);
    case Some(idx) =>
      ValidRawRecord(raw);
      var f, link := C.desc.fields[idx], C.Link(raw.rec.number);
      ContributedDelta(W, link, f, raw.rec.payload, depth);
      var c := Contribution(W, link, f, raw.rec.payload, depth);
      if c.Ok? {
        ApplyMerges(W, C, a, b, idx, c.value, depth);
      }
  }

  lemma {:induction false} FoldMerges(W: World, C: ClassInfo, a: State, b: State, raws: seq<Raw>, depth: nat)
    requires WorldOk(W) && depth <= MAX_DEPTH && WellFormed(C.desc) && AllValid(raws)
    requires StateOk(W, C, a, depth) && StateOk(W, C, b, depth)
    ensures var r := FoldRecords(W, C, b, raws, depth);
            r.Ok? ==> FoldRecords(W, C, Merge(C.desc, a, b), raws, depth) == Ok(Merge(C.desc, a, r.value))
    decreases |raws|
  {
    if raws != [] {
      hide Step, StateOk, WorldOk, WellFormed, Merge;
      var next := Step(W, C, b, raws[0], depth);
      if next.Ok? {
        StepMerges(W, C, a, b, raws[0], depth);
        StepKeeps(W, C, b, raws[0], depth);
        FoldMerges(W, C, a, next.value, raws[1..], depth);
      }
    }
  }

  lemma {:induction false} NothingMerges(W: World, link: Option<Target>, f: FieldDescriptor, slot: Slot, depth: nat)
    requires SlotOk(W, link, f, slot, depth)
    ensures MergeSlot(f, slot, InitSlot(f), false) == slot
  {
    hide ListOk, DictOk, ValueOk;
    if slot.Many? {
      assert slot.vs + [] == slot.vs;
    }
  }

  lemma {:induction false} MergeWithNothing(W: World, C: ClassInfo, a: State, depth: nat)
    requires WellFormed(C.desc) && StateOk(W, C, a, depth)
    ensures Merge(C.desc, a, InitState(C.desc)) == a
  {
    var m := Merge(C.desc, a, InitState(C.desc));
    hide SlotOk, UnknownOk, OwnersOk, MergeSlot, InitSlot, WellFormedField;
    forall i | 0 <= i < |a.slots|
      ensures m.slots[i] == a.slots[i]
    {
      NothingMerges(W, C.Link(C.desc.fields[i].number), C.desc.fields[i], a.slots[i], depth);
    }
    assert m.slots == a.slots;
    assert a.owner + map[] == a.owner;
    assert a.unknown + [] == a.unknown;
  }

  /**
   Concatenation is merge: when `x` decodes, `x + y` decodes exactly when `y` does, with
   the same error if it does not, and then to the merge of both: lists append, map keys
   override, singular fields and nested messages take the later value, a oneof member set
   by `y` clears the one set by `x`, and unknown bytes append.
   */
  lemma {:induction false} ConcatenationMerges(W: World, C: ClassInfo, x: Bytes, y: Bytes, depth: nat)
    requires WorldOk(W) && depth <= MAX_DEPTH && WellFormed(C.desc)
    requires Resume(W, C, InitState(C.desc), x, depth).Ok?
    ensures var start := InitState(C.desc);
            var a, b := Resume(W, C, start, x, depth).value, Resume(W, C, start, y, depth);
            Resume(W, C, start, x + y, depth) == if b.Ok? then Ok(Merge(C.desc, a, b.value)) else b
  {
    var start := InitState(C.desc);
    var a := Resume(W, C, start, x, depth).value;
    var xs, ys := ScanAll(x).raws, ScanAll(y).raws;
    RunKeeps(W, C, x, depth);
    InitIsOk(W, C, depth);
    ScanIsValid(y);
    ScanAppend(x, y);
    FoldRecordsAppend(W, C, start, xs, ys, depth);
    MergeWithNothing(W, C, a, depth);
    FoldErrors(W, C, start, a, ys, depth);
    FoldMerges(W, C, a, start, ys, depth);
  }

  /** Some member of the field's oneof group is set. */
  predicate GroupSet(d: MessageDescriptor, slots: seq<Slot>, i: nat)
    requires i < |d.fields| == |slots|
  {
    exists j :: 0 <= j < |slots| && d.fields[i].Group().Some? && Member(d.fields, slots, d.fields[i].Group().value, j)
  }

  /** What attribute merged messages have: only for a field without presence can the
      messages alone not tell which of the two values it is. */
  predicate MergedSlot(d: MessageDescriptor, a: Msg, b: Msg, i: nat, r: Slot)
    requires i < |d.fields| == |a.slots| == |b.slots|
  {
    var f, x, y := d.fields[i], a.slots[i], b.slots[i];
    if f.kind.Map? then x.Dict? && y.Dict? && r == Dict(PutAll(x.entries, y.entries))
    else if f.cardinality == Repeated then x.Many? && y.Many? && r == Many(x.vs + y.vs)
    else if f.cardinality == Optional then r == if !y.Unset? then y else if GroupSet(d, b.slots, i) then Unset else x
    else r == y || (y == One(ZeroOf(f.kind.value)) && r == x)
  }

  /** On whole messages: what concatenated streams of one class decode to. */
  lemma {:induction false} ConcatenatedMessages(W: World, cls: ClassId, x: Bytes, y: Bytes)
    requires WorldOk(W) && DecodeMessage(W, cls, x, 0).Ok? && DecodeMessage(W, cls, y, 0).Ok?
    ensures var a, b := DecodeMessage(W, cls, x, 0).value, DecodeMessage(W, cls, y, 0).value;
            var r := DecodeMessage(W, cls, x + y, 0);
            && r.Ok? && r.value.unknown == a.unknown + b.unknown
            && |r.value.slots| == |a.slots| == |b.slots| == |W[cls].desc.fields|
            && forall i :: 0 <= i < |a.slots| ==> MergedSlot(W[cls].desc, a, b, i, r.value.slots[i])
  {
    var C := W[cls];
    var a, b := DecodeMessage(W, cls, x, 0).value, DecodeMessage(W, cls, y, 0).value;
    var sa, sb := Resume(W, C, InitState(C.desc), x, 0).value, Resume(W, C, InitState(C.desc), y, 0).value;
    ConcatenationMerges(W, C, x, y, 0);
    RunKeeps(W, C, x, 0);
    RunKeeps(W, C, y, 0);
    var slots := FinishSlots(C.desc.fields, Merge(C.desc, sa, sb).slots);
    forall i | 0 <= i < |a.slots|
      ensures MergedSlot(C.desc, a, b, i, slots[i])
    {
      FinishedMerge(W, C, sa, sb, a, b, i);
    }
  }

  lemma {:induction false} FinishedMerge(W: World, C: ClassInfo, sa: State, sb: State, a: Msg, b: Msg, i: nat)
    requires WellFormed(C.desc) && StateOk(W, C, sa, 0) && StateOk(W, C, sb, 0) && i < |sa.slots|
    requires a.slots == FinishSlots(C.desc.fields, sa.slots) && b.slots == FinishSlots(C.desc.fields, sb.slots)
    ensures MergedSlot(C.desc, a, b, i, FinishSlot(C.desc.fields[i], Merge(C.desc, sa, sb).slots[i]))
  {
    var f := C.desc.fields[i];
    if f.Group().Some? {
      var g := f.Group().value;
      if g in sb.owner {
        assert Member(C.desc.fields, b.slots, g, sb.owner[g]);
      } else {
        forall j | 0 <= j < |b.slots|
          ensures !Member(C.desc.fields, b.slots, g, j)
        {
        }
      }
    }
  }
}
