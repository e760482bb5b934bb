/**
 The decoder as it runs: a cursor over the input, one working slot per field, a table of
 oneof owners and a growing stretch of unknown bytes.
 */
module Decoder {
  import opened Basics
  import opened Wire
  import opened WireIO
  import opened Records
  import opened RecordLoop
  import opened Descriptors
  import opened WellKnown
  import opened Values
  import opened Decoding
  import opened Typing
  import opened Accepted

  // ------------------------------------------------------------ times

  /** Seconds and nanoseconds, whichever order and however often they come. */
  method ReadParts(data: Bytes) returns (r: Result<Parts, WireError>)
    ensures r == DecodeParts(data)
  {
    var reader := new Reader(data);
    var secs, nanos := 0, 0;
    LoopStart(PartsStep, Unchanged, Parts(0, 0), data);
    while !reader.IsEmpty()
      invariant reader.Valid() && reader.buf == data
      invariant LoopFrom(PartsStep, Unchanged, Parts(secs, nanos), data, reader.pos) == DecodeParts(data)
      decreases |data| - reader.pos
    {
      hide LoopFrom, Loop, ReadRecord, DecodeParts;
      ghost var parts, at := Parts(secs, nanos), reader.pos;
      var rec := NextRecord(reader);
      if rec.Err? {
        LoopBroken(PartsStep, Unchanged, parts, data, at, rec.error);
        return Err(rec.error);
      }
      LoopTurn(PartsStep, Unchanged, parts, data, at, rec.value, reader.pos);
      match rec.value
      case Record(1, PVarint(v)) => secs := AsI64(v);
      case Record(2, PVarint(v)) => nanos := AsI32(v);
      case _ =>
    }
    LoopEnd(PartsStep, Unchanged, Parts(secs, nanos), data);
    return Ok(Parts(secs, nanos));
  }

  // ---------------------------------------------------------- single values

  /** A Timestamp submessage as a datetime. */
  method ToInstant(data: Bytes) returns (r: Outcome<Value>)
    ensures r == DecodeInstant(data)
  {
    var parts := ReadParts(data);
    if parts.Err? {
      return Err(Malformed(parts.error));
    }
    var us := PartsToInstant(parts.value);
    return if us.Ok? then Ok(Instant(us.value)) else Err(BadTime(us.error));
  }

  /** A Duration submessage as a timedelta. */
  method ToSpan(data: Bytes) returns (r: Outcome<Value>)
    ensures r == DecodeSpan(data)
  {
    var parts := ReadParts(data);
    if parts.Err? {
      return Err(Malformed(parts.error));
    }
    var us := PartsToSpan(parts.value);
    return if us.Ok? then Ok(Span(us.value)) else Err(BadTime(us.error));
  }

  /** A nested message through the class its field is linked to. */
  method ReadLinked(W: World, link: Option<Target>, data: Bytes, depth: nat) returns (r: Outcome<Value>)
    requires WorldOk(W) && depth <= MAX_DEPTH
    ensures r == DecodeLinked(W, link, data, depth)
    decreases MAX_DEPTH + 1 - depth, 0
  {
    match link
    case None => return Err(NotLinked);
    case Some(EnumClass) => return Err(NotAMessage);
    case Some(MessageClass(cls)) =>
      var m := ReadMessage(W, cls, data, depth + 1);
      return if m.Ok? then Ok(Nested(m.value)) else Err(m.error);
  }

  /** What reading a value of this kind off the input at `at` must give. */
  ghost function ValueAt(W: World, link: Option<Target>, kind: ValueKind, s: Bytes, at: nat, depth: nat): Outcome<Value>
    requires at <= |s| && depth <= MAX_DEPTH
  {
    match ReadPayload(kind.Wire(), s[at..])
    case Bad(e) => Err(Malformed(e))
    case Got(p, n) => DecodeValue(W, link, kind, p, depth)
  }

  method ReadValue(W: World, link: Option<Target>, kind: ValueKind, reader: Reader, depth: nat)
    returns (r: Outcome<Value>)
    requires WorldOk(W) && depth <= MAX_DEPTH && reader.Valid()
    modifies reader`pos
    ensures reader.Valid() && old(reader.pos) <= reader.pos <= |reader.buf|
    ensures r == ValueAt(W, link, kind, reader.buf, old(reader.pos), depth)
    ensures r.Ok? ==>
      var found := ReadPayload(kind.Wire(), reader.buf[old(reader.pos)..]);
      found.Got? && found.used == reader.pos - old(reader.pos)
    decreases MAX_DEPTH + 1 - depth, 1
  {
    var p := reader.ReadPayload(kind.Wire());
    if p.Err? {
      return Err(Malformed(p.error));
    }
    match kind
    case Scalar(s) => r := DecodeScalar(s, p.value);
    case Enum => r := Ok(Num(AsI32(p.value.v)));
    case Message => r := ReadLinked(W, link, p.value.data, depth);
    case Timestamp => r := ToInstant(p.value.data);
    case Duration => r := ToSpan(p.value.data);
  }

  // ------------------------------------------------------------ packed lists

  function PackedFrom(kind: ValueKind, done: seq<Value>, s: Bytes, at: nat): Outcome<seq<Value>>
    requires kind.Packable() && at <= |s|
  {
    match DecodePacked(kind, s[at..])
    case Ok(vs) => Ok(done + vs)
    case Err(e) => Err(e)
  }

  lemma {:induction false} PackedTurn(W: World, kind: ValueKind, done: seq<Value>, s: Bytes, at: nat,
      end: nat, depth: nat)
    requires kind.Packable() && at < |s| && depth <= MAX_DEPTH && end <= |s|
    ensures var here := ValueAt(W, None, kind, s, at, depth);
            && (here.Err? ==> PackedFrom(kind, done, s, at) == Err(here.error))
            && (here.Ok? && ReadPayload(kind.Wire(), s[at..]).used == end - at ==>
                  PackedFrom(kind, done, s, at) == PackedFrom(kind, done + [here.value], s, end))
  {
    var found := ReadPayload(kind.Wire(), s[at..]);
    if found.Got? && found.used == end - at {
      DropTwice(s, at, end);
      var rest := DecodePacked(kind, s[end..]);
      var here := ValueAt(W, None, kind, s, at, depth);
      if here.Ok? && rest.Ok? {
        Associative(done, [here.value], rest.value);
      }
    }
  }

  lemma NothingDone(kind: ValueKind, chunk: Bytes)
    requires kind.Packable()
    ensures PackedFrom(kind, [], chunk, 0) == DecodePacked(kind, chunk)
  {
    assert chunk[0..] == chunk;
    var all := DecodePacked(kind, chunk);
    if all.Ok? {
      assert [] + all.value == all.value;
    }
  }

  /** Appends the values of a packed chunk until it is used up. */
  method ReadPacked(W: World, kind: ValueKind, chunk: Bytes, depth: nat) returns (r: Outcome<seq<Value>>)
    requires WorldOk(W) && depth <= MAX_DEPTH && kind.Packable()
    ensures r == DecodePacked(kind, chunk)
    decreases MAX_DEPTH + 1 - depth, 2
  {
    var reader := new Reader(chunk);
    var vs: seq<Value> := [];
    assert chunk[0..] == chunk;
    NothingDone(kind, chunk);
    while !reader.IsEmpty()
      invariant reader.Valid() && reader.buf == chunk
      invariant PackedFrom(kind, vs, chunk, reader.pos) == DecodePacked(kind, chunk)
      decreases |chunk| - reader.pos
    {
      hide PackedFrom, DecodePacked, ValueAt, WorldOk;
      ghost var at := reader.pos;
      var v := ReadValue(W, None, kind, reader, depth);
      PackedTurn(W, kind, vs, chunk, at, reader.pos, depth);
      if v.Err? {
        return Err(v.error);
      }
      vs := vs + [v.value];
    }
    assert chunk[reader.pos..] == [];
    assert vs + [] == vs;
    return Ok(vs);
  }

  /** The payload that starts at `mid` ends at `end`. */
  ghost predicate Consumed(s: Bytes, wire: WireType, mid: nat, end: nat) {
    mid <= |s| && ReadPayload(wire, s[mid..]).Got? && ReadPayload(wire, s[mid..]).used == end - mid
  }

  lemma ConsumedEnd(s: Bytes, wire: WireType, mid: nat, end: nat, p: Payload, n: nat)
    requires mid <= |s| && ReadPayload(wire, s[mid..]) == Got(p, n)
    ensures Consumed(s, wire, mid, end) <==> mid + n == end
  {
  }

  // ------------------------------------------------------------- map entries

  ghost function EntryOver(W: World, link: Option<Target>, key: ScalarType, kind: ValueKind, st: EntryState,
      scan: Scan, depth: nat)
    : Outcome<Pair>
    requires depth <= MAX_DEPTH
  {
    var end :- EntryFold(W, link, key, kind, st, scan.raws, depth);
    if scan.end.Some? then Err(Malformed(scan.end.value)) else FinishEntry(W, link, key, kind, end, depth)
  }

  /** What the entry loop makes of the input from `at` on. */
  ghost function EntryFrom(W: World, link: Option<Target>, key: ScalarType, kind: ValueKind, st: EntryState,
      s: Bytes, at: nat, depth: nat)
    : Outcome<Pair>
    requires depth <= MAX_DEPTH && at <= |s|
  {
    EntryOver(W, link, key, kind, st, ScanAll(s[at..]), depth)
  }

  lemma {:induction false} EntryOverHead(W: World, link: Option<Target>, key: ScalarType, kind: ValueKind,
      st: EntryState, scan: Scan, depth: nat)
    requires depth <= MAX_DEPTH && scan.raws != []
    ensures var here := EntryStep(W, link, key, kind, st, scan.raws[0].rec, depth);
            EntryOver(W, link, key, kind, st, scan, depth)
            == if here.Err? then Err(here.error)
               else EntryOver(W, link, key, kind, here.value, Scan(scan.raws[1..], scan.end), depth)
  {
    hide EntryStep, FinishEntry;
  }

  lemma {:induction false} EntryNext(W: World, link: Option<Target>, key: ScalarType, kind: ValueKind,
      st: EntryState, s: Bytes, at: nat, rec: Record, end: nat, depth: nat)
    requires depth <= MAX_DEPTH && at < end <= |s| && ReadRecord(s[at..]) == Got(rec, end - at)
    ensures var here := EntryStep(W, link, key, kind, st, rec, depth);
            EntryFrom(W, link, key, kind, st, s, at, depth)
            == if here.Err? then Err(here.error) else EntryFrom(W, link, key, kind, here.value, s, end, depth)
  {
    hide EntryStep, EntryOver, ScanAll, ReadRecord;
    ScanFrom(s, at, rec, end);
    EntryOverHead(W, link, key, kind, st, ScanAll(s[at..]), depth);
  }

  lemma {:induction false} EntryBroken(W: World, link: Option<Target>, key: ScalarType, kind: ValueKind,
      st: EntryState, s: Bytes, at: nat, e: WireError, depth: nat)
    requires depth <= MAX_DEPTH && at < |s| && ReadRecord(s[at..]) == Bad(e)
    ensures EntryFrom(W, link, key, kind, st, s, at, depth) == Err(Malformed(e))
  {
  }

  lemma {:induction false} EntryStart(W: World, link: Option<Target>, key: ScalarType, kind: ValueKind,
      s: Bytes, depth: nat)
    requires depth <= MAX_DEPTH
    ensures EntryFrom(W, link, key, kind, EntryState(None, None), s, 0, depth)
         == DecodeEntry(W, link, key, kind, s, depth)
  {
    hide EntryFold, FinishEntry, ScanAll;
    assert s[0..] == s;
  }

  lemma {:induction false} EntryEnd(W: World, link: Option<Target>, key: ScalarType, kind: ValueKind,
      st: EntryState, s: Bytes, depth: nat)
    requires depth <= MAX_DEPTH
    ensures EntryFrom(W, link, key, kind, st, s, |s|, depth) == FinishEntry(W, link, key, kind, st, depth)
  {
    assert s[|s|..] == [];
  }

  /** One field of a map entry after its tag: key and value of the right wire type are kept,
      anything else is skipped. */
  method TakeEntryField(W: World, link: Option<Target>, key: ScalarType, kind: ValueKind, st: EntryState,
      tag: Tag, reader: Reader, depth: nat)
    returns (r: Outcome<EntryState>)
    requires WorldOk(W) && depth <= MAX_DEPTH && reader.Valid()
    modifies reader`pos
    ensures reader.Valid() && old(reader.pos) <= reader.pos
    ensures r == EntryOutcome(W, link, key, kind, st, reader.buf, tag, old(reader.pos), depth)
    ensures r.Ok? ==> Consumed(reader.buf, tag.wire, old(reader.pos), reader.pos)
    decreases MAX_DEPTH + 1 - depth, 2
  {
    hide WorldOk, ValueAt, ReadPayload;
    if tag.number == 1 && tag.wire == key.Wire() {
      var k := ReadValue(W, None, Scalar(key), reader, depth);
      return if k.Ok? then Ok(st.(key := Some(k.value))) else Err(k.error);
    }
    if tag.number == 2 && tag.wire == kind.Wire() {
      var v := ReadValue(W, link, kind, reader, depth);
      return if v.Ok? then Ok(st.(value := Some(v.value))) else Err(v.error);
    }
    var skipped := reader.Skip(tag.wire);
    return if skipped.Ok? then Ok(st) else Err(Malformed(skipped.error));
  }

  /** One `map<K, V>` entry: the last key and the last value win, and missing halves take
      their defaults. */
  method ReadEntry(W: World, link: Option<Target>, key: ScalarType, kind: ValueKind, entry: Bytes, depth: nat)
    returns (r: Outcome<Pair>)
    requires WorldOk(W) && depth <= MAX_DEPTH
    ensures r == DecodeEntry(W, link, key, kind, entry, depth)
    decreases MAX_DEPTH + 1 - depth, 3
  {
    hide EntryFrom, EntryOutcome, Consumed, DecodeEntry, WorldOk, ReadTag;
    var reader := new Reader(entry);
    var st := EntryState(None, None);
    EntryStart(W, link, key, kind, entry, depth);
    while !reader.IsEmpty()
      invariant reader.Valid() && reader.buf == entry
      invariant EntryFrom(W, link, key, kind, st, entry, reader.pos, depth)
             == DecodeEntry(W, link, key, kind, entry, depth)
      decreases |entry| - reader.pos
    {
      ghost var before, at := st, reader.pos;
      var tag := reader.ReadTag();
      if tag.Err? {
        BrokenTag(entry, at, tag.error);
        EntryBroken(W, link, key, kind, before, entry, at, tag.error, depth);
        return Err(Malformed(tag.error));
      }
      ghost var mid := reader.pos;
      var next := TakeEntryField(W, link, key, kind, st, tag.value, reader, depth);
      EntryTurn(W, link, key, kind, before, entry, at, tag.value, mid, reader.pos, depth);
      if next.Err? {
        return Err(next.error);
      }
      st := next.value;
    }
    EntryEnd(W, link, key, kind, st, entry, depth);
    r := CompleteEntry(W, link, key, kind, st, depth);
  }

  lemma {:induction false} FinishCases(W: World, link: Option<Target>, key: ScalarType, kind: ValueKind,
      st: EntryState, depth: nat)
    requires depth <= MAX_DEPTH
    ensures var k := if st.key.Some? then st.key.value else ZeroScalar(key);
            var v := if st.value.Some? then Ok(st.value.value) else MissingValue(W, link, kind, depth);
            FinishEntry(W, link, key, kind, st, depth) == if v.Ok? then Ok(Pair(k, v.value)) else Err(v.error)
  {
    hide MissingValue, ZeroScalar;
  }

  /** The pair an entry stands for once its bytes are used up. */
  method CompleteEntry(W: World, link: Option<Target>, key: ScalarType, kind: ValueKind, st: EntryState,
      depth: nat) returns (r: Outcome<Pair>)
    requires WorldOk(W) && depth <= MAX_DEPTH
    ensures r == FinishEntry(W, link, key, kind, st, depth)
    decreases MAX_DEPTH + 1 - depth, 2
  {
    hide *;
    FinishCases(W, link, key, kind, st, depth);
    var value := st.value;
    if value.None? {
      var missing := DefaultFor(W, link, kind, depth);
      if missing.Err? {
        return Err(missing.error);
      }
      value := Some(missing.value);
    }
    return Ok(Pair(if st.key.Some? then st.key.value else ZeroScalar(key), value.value));
  }

  /** The default of an omitted map value. */
  method DefaultFor(W: World, link: Option<Target>, kind: ValueKind, depth: nat) returns (r: Outcome<Value>)
    requires WorldOk(W) && depth <= MAX_DEPTH
    ensures r == MissingValue(W, link, kind, depth)
    decreases MAX_DEPTH + 1 - depth, 1
  {
    match kind
    case Scalar(s) => r := Ok(ZeroScalar(s));
    case Enum => r := Ok(Num(0));
    case Message => r := ReadLinked(W, link, [], depth);
    case Timestamp => r := Ok(Instant(0));
    case Duration => r := Ok(Span(0));
  }

  /** The outcome of one turn of the entry loop: an error, or the state to go on with. */
  ghost function EntryOutcome(W: World, link: Option<Target>, key: ScalarType, kind: ValueKind, st: EntryState,
      s: Bytes, tag: Tag, mid: nat, depth: nat): Outcome<EntryState>
    requires depth <= MAX_DEPTH && mid <= |s|
  {
    if tag.number == 1 && tag.wire == key.Wire() then
      var got := ValueAt(W, None, Scalar(key), s, mid, depth);
      if got.Err? then Err(got.error) else Ok(st.(key := Some(got.value)))
    else if tag.number == 2 && tag.wire == kind.Wire() then
      var got := ValueAt(W, link, kind, s, mid, depth);
      if got.Err? then Err(got.error) else Ok(st.(value := Some(got.value)))
    else
      match ReadPayload(tag.wire, s[mid..])
      case Bad(e) => Err(Malformed(e))
      case Got(_, _) => Ok(st)
  }

  lemma {:induction false} EntryOutcomeBad(W: World, link: Option<Target>, key: ScalarType, kind: ValueKind,
      st: EntryState, s: Bytes, tag: Tag, mid: nat, e: WireError, depth: nat)
    requires depth <= MAX_DEPTH && mid <= |s| && ReadPayload(tag.wire, s[mid..]) == Bad(e)
    ensures EntryOutcome(W, link, key, kind, st, s, tag, mid, depth) == Err(Malformed(e))
  {
    hide ReadPayload, DecodeValue;
  }

  lemma {:induction false} EntryOutcomeGot(W: World, link: Option<Target>, key: ScalarType, kind: ValueKind,
      st: EntryState, s: Bytes, tag: Tag, mid: nat, p: Payload, n: nat, depth: nat)
    requires depth <= MAX_DEPTH && mid <= |s| && ReadPayload(tag.wire, s[mid..]) == Got(p, n)
    ensures EntryOutcome(W, link, key, kind, st, s, tag, mid, depth)
            == EntryStep(W, link, key, kind, st, Record(tag.number, p), depth)
  {
    hide ReadPayload, DecodeScalar;
  }

  lemma {:induction false} EntryTurn(W: World, link: Option<Target>, key: ScalarType, kind: ValueKind,
      st: EntryState, s: Bytes, at: nat, tag: Tag, mid: nat, end: nat, depth: nat)
    requires depth <= MAX_DEPTH && at < mid <= end <= |s| && ReadTag(s[at..]) == Got(tag, mid - at)
    ensures var here := EntryOutcome(W, link, key, kind, st, s, tag, mid, depth);
            && (here.Err? ==> EntryFrom(W, link, key, kind, st, s, at, depth) == Err(here.error))
            && (here.Ok? && Consumed(s, tag.wire, mid, end) ==>
                  EntryFrom(W, link, key, kind, st, s, at, depth)
                  == EntryFrom(W, link, key, kind, here.value, s, end, depth))
  {
    hide *;
    match ReadPayload(tag.wire, s[mid..])
    case Bad(e) =>
      BrokenPayload(s, at, tag, mid, e);
      EntryBroken(W, link, key, kind, st, s, at, e, depth);
      EntryOutcomeBad(W, link, key, kind, st, s, tag, mid, e, depth);
    case Got(p, n) =>
      ConsumedEnd(s, tag.wire, mid, end, p, n);
      WholeRecord(s, at, tag, mid, p, mid + n);
      EntryNext(W, link, key, kind, st, s, at, Record(tag.number, p), mid + n, depth);
      EntryOutcomeGot(W, link, key, kind, st, s, tag, mid, p, n, depth);
  }

  // ------------------------------------------------------ the working state

  /** One slot per field, the field occupying each oneof group, and the unknown bytes. */
  class Work {
    const values: array<Slot>
    var owner: map<nat, nat>
    var unknown: Bytes

    function Contents(): State
      reads this, values
    {
      State(values[..], owner, unknown)
    }

    /** Lists and dicts exist before the first record arrives. */
    constructor (fields: seq<FieldDescriptor>)
      ensures fresh(values) && values.Length == |fields|
      ensures values[..] == InitSlots(fields) && owner == map[] && unknown == []
    {
      values := new Slot[|fields|](_ => Unset);
      owner := map[];
      unknown := [];
      new;
      for i := 0 to |fields|
        invariant forall j :: 0 <= j < i ==> values[j] == InitSlot(fields[j])
        invariant forall j :: i <= j < |fields| ==> values[j] == Unset
        invariant owner == map[] && unknown == []
      {
        if fields[i].kind.Map? {
          values[i] := Dict([]);
        } else if fields[i].cardinality == Repeated {
          values[i] := Many([]);
        }
      }
      assert values[..] == InitSlots(fields);
    }

    method KeepUnknown(raw: Bytes)
      modifies this`unknown
      ensures unknown == old(unknown) + raw
    {
      unknown := unknown + raw;
    }

    /** A oneof member about to be set takes over its group. */
    method ClaimGroup(f: FieldDescriptor, idx: nat)
      requires forall g <- owner :: owner[g] < values.Length
      modifies this`owner, values
      ensures Contents() == Claim(f, idx, old(Contents()))
    {
      if f.oneofIndex.Some? && f.cardinality == Optional {
        var group := f.oneofIndex.value;
        if group in owner && owner[group] != idx {
          values[owner[group]] := Unset;
        }
        owner := owner[group := idx];
      }
    }

    method Assign(idx: nat, v: Value)
      requires idx < values.Length
      modifies values
      ensures values[..] == old(values[..])[idx := One(v)]
    {
      values[idx] := One(v);
    }

    method SetItem(idx: nat, k: Value, v: Value)
      requires idx < values.Length && values[idx].Dict?
      modifies values
      ensures values[..] == old(values[..])[idx := Dict(Put(old(values[idx]).entries, k, v))]
    {
      values[idx] := Dict(Put(values[idx].entries, k, v));
    }

    method Extend(idx: nat, vs: seq<Value>)
      requires idx < values.Length && values[idx].Many?
      modifies values
      ensures values[..] == old(values[..])[idx := Many(old(values[idx]).vs + vs)]
    {
      values[idx] := Many(values[idx].vs + vs);
    }
  }

  // -------------------------------------------------------------- one record

  /** What the payload at `mid`, accepted by field `f`, adds to the field. */
  ghost function DeltaAt(W: World, link: Option<Target>, f: FieldDescriptor, wire: WireType, s: Bytes,
      mid: nat, depth: nat)
    : Outcome<Delta>
    requires mid <= |s| && depth <= MAX_DEPTH && f.Accepts(wire)
  {
    match ReadPayload(wire, s[mid..])
    case Bad(e) => Err(Malformed(e))
    case Got(p, _) => Contribution(W, link, f, p, depth)
  }

  /** One or more elements of a list; `false` if the wire type is not the field's. */
  method ReadRepeated(W: World, link: Option<Target>, f: FieldDescriptor, idx: nat, wire: WireType, reader: Reader,
      work: Work, depth: nat) returns (r: Outcome<bool>)
    requires WorldOk(W) && depth <= MAX_DEPTH && reader.Valid()
    requires f.kind.Plain? && f.cardinality == Repeated && idx < work.values.Length && work.values[idx].Many?
    modifies reader`pos, work.values
    ensures reader.Valid() && old(reader.pos) <= reader.pos
    ensures r == Ok(false) <==> !f.Accepts(wire)
    ensures r == Ok(false) ==> reader.pos == old(reader.pos) && work.values[..] == old(work.values[..])
    ensures f.Accepts(wire) ==>
      var delta := DeltaAt(W, link, f, wire, reader.buf, old(reader.pos), depth);
      && (r.Err? ==> delta == Err(r.error))
      && (r.Ok? ==> delta.Ok? && Consumed(reader.buf, wire, old(reader.pos), reader.pos)
                    && work.values[..] == old(work.values[..])[idx := Absorb(old(work.values[idx]), delta.value)])
    decreases MAX_DEPTH + 1 - depth, 4
  {
    var kind := f.kind.value;
    if kind.Packable() && wire == Len {
      var chunk := reader.ReadLenDelimited();
      if chunk.Err? {
        return Err(Malformed(chunk.error));
      }
      var vs := ReadPacked(W, kind, chunk.value, depth);
      if vs.Err? {
        return Err(vs.error);
      }
      work.Extend(idx, vs.value);
      return Ok(true);
    }
    if wire != kind.Wire() {
      return Ok(false);
    }
    var v := ReadValue(W, link, kind, reader, depth);
    if v.Err? {
      return Err(v.error);
    }
    work.Extend(idx, [v.value]);
    return Ok(true);
  }

  /** A payload of the field's own wire type into the field's slot. */
  method ReadOwn(W: World, link: Option<Target>, f: FieldDescriptor, idx: nat, reader: Reader, work: Work, depth: nat)
    returns (r: Outcome<()>)
    requires WorldOk(W) && depth <= MAX_DEPTH && reader.Valid()
    requires idx < work.values.Length && f.cardinality != Repeated
    requires f.kind.Map? ==> work.values[idx].Dict?
    modifies reader`pos, work.values
    ensures reader.Valid() && old(reader.pos) <= reader.pos
    ensures var wire := if f.kind.Map? then Len else f.kind.value.Wire();
            var delta := DeltaAt(W, link, f, wire, reader.buf, old(reader.pos), depth);
            && (r.Err? ==> delta == Err(r.error))
            && (r.Ok? ==> delta.Ok? && Consumed(reader.buf, wire, old(reader.pos), reader.pos)
                          && work.values[..] == old(work.values[..])[idx := Absorb(old(work.values[idx]), delta.value)])
    decreases MAX_DEPTH + 1 - depth, 4
  {
    match f.kind
    case Map(key, kind) =>
      var entry := reader.ReadLenDelimited();
      if entry.Err? {
        return Err(Malformed(entry.error));
      }
      var pair := ReadEntry(W, link, key, kind, entry.value, depth);
      if pair.Err? {
        return Err(pair.error);
      }
      work.SetItem(idx, pair.value.key, pair.value.value);
      return Ok(());
    case Plain(kind) =>
      var v := ReadValue(W, link, kind, reader, depth);
      if v.Err? {
        return Err(v.error);
      }
      work.Assign(idx, v.value);
      return Ok(());
  }

  // ---------------------------------------------------------- the record loop

  /** What the record loop makes of the input from `at` on. */
  ghost function ResumeFrom(W: World, C: ClassInfo, st: State, s: Bytes, at: nat, depth: nat): Outcome<State>
    requires depth <= MAX_DEPTH && |st.slots| == |C.desc.fields| && at <= |s|
  {
    Resume(W, C, st, s[at..], depth)
  }

  /** The outcome of one turn: an error, or the state to go on with. */
  ghost function TurnOutcome(W: World, C: ClassInfo, st: State, s: Bytes, at: nat, tag: Tag, mid: nat,
      depth: nat): (r: Outcome<State>)
    requires depth <= MAX_DEPTH && |st.slots| == |C.desc.fields| && at <= mid <= |s|
    ensures r.Ok? ==> |r.value.slots| == |st.slots|
  {
    match ReadPayload(tag.wire, s[mid..])
    case Bad(e) => Err(Malformed(e))
    case Got(p, n) => Step(W, C, st, Raw(Record(tag.number, p), s[at..mid + n]), depth)
  }

  lemma {:induction false} ResumeTurn(W: World, C: ClassInfo, st: State, s: Bytes, at: nat, tag: Tag,
      mid: nat, depth: nat)
    requires depth <= MAX_DEPTH && |st.slots| == |C.desc.fields|
    requires at < mid <= |s| && ReadTag(s[at..]) == Got(tag, mid - at)
    ensures var here := TurnOutcome(W, C, st, s, at, tag, mid, depth);
            && (here.Err? ==> ResumeFrom(W, C, st, s, at, depth) == Err(here.error))
            && (here.Ok? ==>
                  var n := ReadPayload(tag.wire, s[mid..]).used;
                  ReadPayload(tag.wire, s[mid..]).Got?
                  && ResumeFrom(W, C, st, s, at, depth) == ResumeFrom(W, C, here.value, s, mid + n, depth))
  {
    hide Resume, Step, ReadTag, ReadRecord, ReadPayload;
    ResumeUnroll(W, C, st, s[at..], depth);
    match ReadPayload(tag.wire, s[mid..])
    case Bad(e) => BrokenPayload(s, at, tag, mid, e);
    case Got(p, n) =>
      WholeRecord(s, at, tag, mid, p, mid + n);
      DropTwice(s, at, mid + n);
      assert s[at..][..mid + n - at] == s[at..mid + n];
  }

  lemma {:induction false} ResumeStart(W: World, C: ClassInfo, st: State, s: Bytes, depth: nat)
    requires depth <= MAX_DEPTH && |st.slots| == |C.desc.fields|
    ensures ResumeFrom(W, C, st, s, 0, depth) == Resume(W, C, st, s, depth)
  {
    assert s[0..] == s;
  }

  lemma {:induction false} ResumeBroken(W: World, C: ClassInfo, st: State, s: Bytes, at: nat, e: WireError, depth: nat)
    requires depth <= MAX_DEPTH && |st.slots| == |C.desc.fields| && at < |s| && ReadTag(s[at..]) == Bad(e)
    ensures ResumeFrom(W, C, st, s, at, depth) == Err(Malformed(e))
  {
    hide Resume;
    ResumeUnroll(W, C, st, s[at..], depth);
  }

  lemma {:induction false} ResumeEnd(W: World, C: ClassInfo, st: State, s: Bytes, depth: nat)
    requires depth <= MAX_DEPTH && |st.slots| == |C.desc.fields|
    ensures ResumeFrom(W, C, st, s, |s|, depth) == Ok(st)
  {
    assert s[|s|..] == [];
    assert ScanAll([]) == Scan([], None);
    assert FoldRecords(W, C, st, [], depth) == Ok(st);
  }

  /** The schema has no use for this record. */
  lemma {:induction false} UnroutedRecord(W: World, C: ClassInfo, st: State, s: Bytes, at: nat, tag: Tag, mid: nat,
      depth: nat)
    requires depth <= MAX_DEPTH && |st.slots| == |C.desc.fields| && at <= mid <= |s|
    requires var idx := Lookup(C.desc.fields, tag.number); idx.Some? ==> !C.desc.fields[idx.value].Accepts(tag.wire)
    ensures TurnOutcome(W, C, st, s, at, tag, mid, depth) ==
      match ReadPayload(tag.wire, s[mid..])
      case Bad(e) => Err(Malformed(e))
      case Got(_, n) => Ok(st.(unknown := st.unknown + s[at..mid + n]))
  {
    hide ReadPayload;
  }

  /** Field `idx` takes this record. */
  lemma {:induction false} RoutedRecord(W: World, C: ClassInfo, st: State, s: Bytes, at: nat, tag: Tag, mid: nat,
      idx: nat, depth: nat)
    requires depth <= MAX_DEPTH && |st.slots| == |C.desc.fields| && at <= mid <= |s|
    requires Lookup(C.desc.fields, tag.number) == Some(idx) && C.desc.fields[idx].Accepts(tag.wire)
    ensures TurnOutcome(W, C, st, s, at, tag, mid, depth) ==
      match DeltaAt(W, C.Link(tag.number), C.desc.fields[idx], tag.wire, s, mid, depth)
      case Err(e) => Err(e)
      case Ok(delta) => Ok(Apply(C.desc, st, idx, delta))
  {
    hide ReadPayload, Contribution, Apply, Lookup;
  }

  /** Passes over a record and keeps its bytes. */
  method SkipRecord(reader: Reader, work: Work, start: nat, wire: WireType) returns (r: Outcome<()>)
    requires reader.Valid() && start <= reader.pos
    modifies reader`pos, work`unknown
    ensures reader.Valid() && old(reader.pos) <= reader.pos
    ensures r.Err? ==> r.error.Malformed? && ReadPayload(wire, reader.buf[old(reader.pos)..]) == Bad(r.error.wire)
    ensures r.Ok? ==> Consumed(reader.buf, wire, old(reader.pos), reader.pos)
                      && work.unknown == old(work.unknown) + reader.buf[start..reader.pos]
  {
    var skipped := reader.Skip(wire);
    if skipped.Err? {
      return Err(Malformed(skipped.error));
    }
    work.KeepUnknown(reader.RawSince(start));
    return Ok(());
  }

  /** What the invariant says to the loop: owners are fields, accumulators are present, and
      claiming a group never touches one. */
  lemma {:induction false} RoutedFieldIsUsable(W: World, C: ClassInfo, st: State, idx: nat, depth: nat)
    requires StateOk(W, C, st, depth) && WellFormed(C.desc) && idx < |C.desc.fields|
    ensures |st.slots| == |C.desc.fields| && forall g <- st.owner :: st.owner[g] < |st.slots|
    ensures var f := C.desc.fields[idx];
            && (f.kind.Map? ==> st.slots[idx].Dict? && f.cardinality != Repeated)
            && (f.kind.Plain? && f.cardinality == Repeated ==> st.slots[idx].Many?)
            && (f.Collection() ==> Claim(f, idx, st) == st)
  {
    assert SlotOk(W, C.Link(C.desc.fields[idx].number), C.desc.fields[idx], st.slots[idx], depth);
  }

  /** One turn of the record loop after its tag: the record goes to its field, or to the
      unknown bytes. */
  method Turn(W: World, C: ClassInfo, reader: Reader, work: Work, start: nat, tag: Tag, depth: nat)
    returns (r: Outcome<()>)
    requires WorldOk(W) && WellFormed(C.desc) && IndexOk(C) && depth <= MAX_DEPTH
    requires reader.Valid() && start <= reader.pos && work.values.Length == |C.desc.fields|
    requires StateOk(W, C, work.Contents(), depth)
    modifies reader`pos, work, work.values
    ensures reader.Valid() && old(reader.pos) <= reader.pos && work.values.Length == |C.desc.fields|
    ensures var outcome := TurnOutcome(W, C, old(work.Contents()), reader.buf, start, tag, old(reader.pos), depth);
            && (r.Err? ==> outcome == Err(r.error))
            && (r.Ok? ==> outcome == Ok(work.Contents()) && Consumed(reader.buf, tag.wire, old(reader.pos), reader.pos))
    decreases MAX_DEPTH + 1 - depth, 5
  {
    hide StateOk, WorldOk, TurnOutcome, DeltaAt, ReadPayload, WellFormed, Lookup;
    ghost var st, mid := work.Contents(), reader.pos;
    var found := C.index.Get(tag.number);
    if found.None? {
      UnroutedRecord(W, C, st, reader.buf, start, tag, mid, depth);
      r := SkipRecord(reader, work, start, tag.wire);
      return;
    }
    var idx, link := found.value, C.Link(tag.number);
    var f := C.desc.fields[idx];
    RoutedFieldIsUsable(W, C, st, idx, depth);
    if f.cardinality != Repeated {
      var expected := if f.kind.Map? then Len else f.kind.value.Wire();
      if tag.wire != expected {
        UnroutedRecord(W, C, st, reader.buf, start, tag, mid, depth);
        r := SkipRecord(reader, work, start, tag.wire);
        return;
      }
    }
    work.ClaimGroup(f, idx);
    if f.Accepts(tag.wire) {
      RoutedRecord(W, C, st, reader.buf, start, tag, mid, idx, depth);
    } else {
      UnroutedRecord(W, C, st, reader.buf, start, tag, mid, depth);
    }
    if f.cardinality == Repeated {
      var handled := ReadRepeated(W, link, f, idx, tag.wire, reader, work, depth);
      if handled.Err? {
        return Err(handled.error);
      }
      if !handled.value {
        r := SkipRecord(reader, work, start, tag.wire);
        return;
      }
      return Ok(());
    }
    r := ReadOwn(W, link, f, idx, reader, work, depth);
  }

  /** The record loop: every record of the input in turn. */
  method ReadRecords(W: World, C: ClassInfo, reader: Reader, work: Work, depth: nat) returns (r: Outcome<()>)
    requires WorldOk(W) && WellFormed(C.desc) && IndexOk(C) && depth <= MAX_DEPTH
    requires reader.Valid() && reader.pos == 0 && work.values.Length == |C.desc.fields|
    requires StateOk(W, C, work.Contents(), depth)
    modifies reader`pos, work, work.values
    ensures work.values.Length == |C.desc.fields|
    ensures var outcome := Resume(W, C, old(work.Contents()), reader.buf, depth);
            && (r.Err? ==> outcome == Err(r.error))
            && (r.Ok? ==> outcome == Ok(work.Contents()))
    decreases MAX_DEPTH + 1 - depth, 6
  {
    hide ResumeFrom, Resume, StateOk, TurnOutcome, ReadTag, ReadPayload, InitState, WorldOk, WellFormed, IndexOk;
    ghost var data := reader.buf;
    ResumeStart(W, C, work.Contents(), data, depth);
    while !reader.IsEmpty()
      invariant reader.Valid()
      invariant StateOk(W, C, work.Contents(), depth)
      invariant ResumeFrom(W, C, work.Contents(), data, reader.pos, depth)
             == Resume(W, C, old(work.Contents()), data, depth)
      decreases |reader.buf| - reader.pos
    {
      ghost var st := work.Contents();
      var start := reader.pos;
      var tag := reader.ReadTag();
      if tag.Err? {
        ResumeBroken(W, C, st, data, start, tag.error, depth);
        return Err(Malformed(tag.error));
      }
      ghost var mid := reader.pos;
      ResumeTurn(W, C, st, data, start, tag.value, mid, depth);
      TurnKeeps(W, C, st, data, start, tag.value, mid, depth);
      var done := Turn(W, C, reader, work, start, tag.value, depth);
      if done.Err? {
        return Err(done.error);
      }
    }
    ResumeEnd(W, C, work.Contents(), data, depth);
    return Ok(());
  }

  /** Decodes a message: every record in turn, then the defaults of what never arrived. */
  method ReadMessage(W: World, cls: ClassId, data: Bytes, depth: nat) returns (r: Outcome<Msg>)
    requires WorldOk(W) && depth <= MAX_DEPTH + 1
    ensures r == DecodeMessage(W, cls, data, depth)
    decreases MAX_DEPTH + 1 - depth, 7
  {
    if depth > MAX_DEPTH {
      return Err(NestingTooDeep);
    }
    if cls !in W {
      return Err(NotAMessage);
    }
    hide StateOk, Resume;
    var C := W[cls];
    var work := new Work(C.desc.fields);
    var reader := new Reader(data);
    InitIsOk(W, C, depth);
    var done := ReadRecords(W, C, reader, work, depth);
    if done.Err? {
      return Err(done.error);
    }
    return Ok(Msg(cls, FinishSlots(C.desc.fields, work.values[..]), work.unknown));
  }

  lemma {:induction false} TurnKeeps(W: World, C: ClassInfo, st: State, s: Bytes, at: nat, tag: Tag,
      mid: nat, depth: nat)
    requires WorldOk(W) && WellFormed(C.desc) && depth <= MAX_DEPTH && StateOk(W, C, st, depth)
    requires |st.slots| == |C.desc.fields| && at < mid <= |s| && ReadTag(s[at..]) == Got(tag, mid - at)
    ensures var here := TurnOutcome(W, C, st, s, at, tag, mid, depth); here.Ok? ==> StateOk(W, C, here.value, depth)
  {
    hide StateOk, WorldOk, WellFormed, Step, ReadTag, ReadPayload, ReadRecord, Raw.Valid;
    if ReadPayload(tag.wire, s[mid..]).Got? {
      var Got(p, n) := ReadPayload(tag.wire, s[mid..]);
      WholeRecord(s, at, tag, mid, p, mid + n);
      RawIsValid(s[at..]);
      assert s[at..][..mid + n - at] == s[at..mid + n];
      StepKeeps(W, C, st, Raw(Record(tag.number, p), s[at..mid + n]), depth);
    }
  }
}
