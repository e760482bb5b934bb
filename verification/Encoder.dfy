/**
 The encoder as it runs: one buffer for the whole message tree, length slots reserved
 before a payload and patched after it, empty packed fields rolled back.
 */
module Encoder {
  import opened Basics
  import opened Wire
  import opened WireIO
  import opened Records
  import opened Descriptors
  import opened WellKnown
  import opened Values
  import opened Encoding
  import opened Typing
  import opened RoundTrip

  /** The buffer keeps what it held, and on success has grown by exactly the bytes the
      compositional encoder computes; errors are the same. */
  predicate Wrote(r: Outcome<()>, before: Bytes, after: Bytes, spec: Outcome<Bytes>) {
    && before <= after
    && match spec
       case Ok(data) => r.Ok? && after == before + data
       case Err(e) => r == Err(e)
  }

  function Prepend(head: Bytes, tail: Outcome<Bytes>): Outcome<Bytes> {
    match tail
    case Ok(data) => Ok(head + data)
    case Err(e) => Err(e)
  }

  lemma PrependNothing(tail: Outcome<Bytes>)
    ensures Prepend([], tail) == tail
  {
    if tail.Ok? {
      assert [] + tail.value == tail.value;
    }
  }

  lemma PrependTwice(a: Bytes, b: Bytes, tail: Outcome<Bytes>)
    ensures Prepend(a, Prepend(b, tail)) == Prepend(a + b, tail)
  {
    if tail.Ok? {
      Associative(a, b, tail.value);
    }
  }

  // ---------------------------------------------- the compositional encoder

  function PayloadBytes(p: Outcome<Payload>): Outcome<Bytes> {
    match p
    case Ok(p) => Ok(p.Bytes())
    case Err(e) => Err(e)
  }

  function RecordBytes(number: nat, p: Outcome<Payload>): Outcome<Bytes> {
    match p
    case Ok(p) => Ok(Record(number, p).Bytes())
    case Err(e) => Err(e)
  }

  function AllBytes(recs: Outcome<seq<Record>>): Outcome<Bytes> {
    match recs
    case Ok(recs) => Ok(WriteAll(recs))
    case Err(e) => Err(e)
  }

  lemma {:induction false} EachStep(W: World, number: nat, kind: ValueKind, vs: seq<Value>, depth: nat)
    requires depth <= MAX_DEPTH && vs != []
    ensures var here := RecordBytes(number, EncodeValue(W, kind, vs[0], depth));
            AllBytes(EncodeEach(W, number, kind, vs, depth)) ==
            if here.Err? then here else Prepend(here.value, AllBytes(EncodeEach(W, number, kind, vs[1..], depth)))
  {
    var p := EncodeValue(W, kind, vs[0], depth);
    var rest := EncodeEach(W, number, kind, vs[1..], depth);
    if p.Ok? && rest.Ok? {
      assert ([Record(number, p.value)] + rest.value)[1..] == rest.value;
    }
  }

  lemma {:induction false} PackedStep(W: World, kind: ValueKind, vs: seq<Value>, depth: nat)
    requires depth <= MAX_DEPTH && vs != []
    ensures var here := PayloadBytes(EncodeValue(W, kind, vs[0], depth));
            EncodePacked(W, kind, vs, depth) ==
            if here.Err? then here else Prepend(here.value, EncodePacked(W, kind, vs[1..], depth))
  {
  }

  lemma {:induction false} EntriesStep(W: World, number: nat, key: ScalarType, kind: ValueKind,
      es: seq<Pair>, depth: nat)
    requires depth <= MAX_DEPTH && es != []
    ensures var data := EncodeEntry(W, key, kind, es[0], depth);
            AllBytes(EncodeEntries(W, number, key, kind, es, depth)) ==
            if data.Err? then data
            else Prepend(Record(number, PLen(data.value)).Bytes(),
                         AllBytes(EncodeEntries(W, number, key, kind, es[1..], depth)))
  {
    hide EncodeEntry, Record.Bytes;
    var data := EncodeEntry(W, key, kind, es[0], depth);
    var rest := EncodeEntries(W, number, key, kind, es[1..], depth);
    if data.Ok? && rest.Ok? {
      assert ([Record(number, PLen(data.value))] + rest.value)[1..] == rest.value;
    }
  }

  lemma {:induction false} FieldsStep(W: World, fields: seq<FieldDescriptor>, slots: seq<Slot>, i: nat, depth: nat)
    requires depth <= MAX_DEPTH && i < |fields| == |slots|
    ensures var here := AllBytes(EncodeField(W, fields[i], slots[i], depth));
            AllBytes(EncodeFields(W, fields, slots, i, depth)) ==
            if here.Err? then here else Prepend(here.value, AllBytes(EncodeFields(W, fields, slots, i + 1, depth)))
  {
    var here := EncodeField(W, fields[i], slots[i], depth);
    var rest := EncodeFields(W, fields, slots, i + 1, depth);
    if here.Ok? && rest.Ok? {
      WriteAllAppend(here.value, rest.value);
    }
  }

  lemma FieldsEnd(W: World, fields: seq<FieldDescriptor>, slots: seq<Slot>, depth: nat)
    requires depth <= MAX_DEPTH && |fields| == |slots|
    ensures AllBytes(EncodeFields(W, fields, slots, |fields|, depth)) == Ok([])
  {
  }

  /** A tag, a reserved slot and a payload, patched, are one length-delimited record. */
  lemma FramedRecord(before: Bytes, number: nat, data: Bytes, framed: Bytes)
    requires var tagged := before + WriteTag(number, Len);
             framed == (tagged + [0] + data)[..|tagged|] + WriteLenDelimited((tagged + [0] + data)[|tagged| + 1..])
    ensures framed == before + Record(number, PLen(data)).Bytes()
  {
    var tagged := before + WriteTag(number, Len);
    assert (tagged + [0] + data)[..|tagged|] == tagged;
    assert (tagged + [0] + data)[|tagged| + 1..] == data;
    Associative(before, WriteTag(number, Len), WriteLenDelimited(data));
  }

  // --------------------------------------------------------------- scalars

  /** The payload of one scalar, without a tag. */
  method PutScalar(s: ScalarType, v: Value, buf: Buffer) returns (r: Outcome<()>)
    modifies buf
    ensures Wrote(r, old(buf.bytes), buf.bytes, PayloadBytes(EncodeScalar(s, v)))
  {
    var p := EncodeScalar(s, v);
    if p.Err? {
      return Err(p.error);
    }
    EncodedScalarShape(s, v);
    SizedScalar(s, v);
    buf.WritePayload(p.value);
    return Ok(());
  }

  lemma SizedScalar(s: ScalarType, v: Value)
    ensures EncodeScalar(s, v).Ok? ==> Fits(EncodeScalar(s, v).value)
  {
  }

  /** A tagged scalar; with `skipDefault` its proto3 default writes nothing. */
  method PutScalarField(number: nat, s: ScalarType, v: Value, skipDefault: bool, buf: Buffer) returns (r: Outcome<()>)
    requires IsU32(number)
    modifies buf
    ensures var full := RecordBytes(number, EncodeScalar(s, v));
            Wrote(r, old(buf.bytes), buf.bytes, if full.Ok? && skipDefault && v == ZeroScalar(s) then Ok([]) else full)
  {
    var p := EncodeScalar(s, v);
    if p.Err? {
      return Err(p.error);
    }
    if !(skipDefault && v == ZeroScalar(s)) {
      EncodedScalarShape(s, v);
      buf.WriteTag(number, s.Wire());
      r := PutScalar(s, v, buf);
      Associative(old(buf.bytes), WriteTag(number, s.Wire()), p.value.Bytes());
    } else {
      return Ok(());
    }
  }

  /** An enum number as a sign-extended varint. */
  method PutEnum(v: Value, buf: Buffer) returns (r: Outcome<()>)
    modifies buf
    ensures Wrote(r, old(buf.bytes), buf.bytes,
                  PayloadBytes(match Int(v, IsI32) case Ok(n) => Ok(PVarint(AsU64(n))) case Err(e) => Err(e)))
  {
    var n := Int(v, IsI32);
    if n.Err? {
      return Err(n.error);
    }
    buf.WriteVarint(AsU64(n.value));
    return Ok(());
  }

  /** Seconds and nanoseconds, each left out when zero. */
  method PutParts(p: Parts, buf: Buffer)
    modifies buf
    ensures buf.bytes == old(buf.bytes) + WriteAll(EncodeParts(p))
  {
    ghost var before, a, b := buf.bytes, SecsBytes(p), NanosBytes(p);
    if p.secs != 0 {
      buf.WriteTag(1, Varint);
      buf.WriteVarint(AsU64(p.secs));
    }
    ClearAssoc(before, WriteTag(1, Varint), WriteVarint(AsU64(p.secs)));
    assert buf.bytes == before + a;
    if p.nanos != 0 {
      buf.WriteTag(2, Varint);
      buf.WriteVarint(AsU64(p.nanos));
    }
    ClearAssoc(before + a, WriteTag(2, Varint), WriteVarint(AsU64(p.nanos)));
    assert buf.bytes == (before + a) + b;
    Associative(before, a, b);
    PartsBytes(p);
  }

  lemma ClearAssoc(a: Bytes, b: Bytes, c: Bytes)
    ensures (a + b) + c == a + (b + c)
    ensures a + [] == a
  {
  }

  function SecsBytes(p: Parts): Bytes {
    if p.secs != 0 then WriteTag(1, Varint) + WriteVarint(AsU64(p.secs)) else []
  }

  function NanosBytes(p: Parts): Bytes {
    if p.nanos != 0 then WriteTag(2, Varint) + WriteVarint(AsU64(p.nanos)) else []
  }

  lemma PartsBytes(p: Parts)
    ensures WriteAll(EncodeParts(p)) == SecsBytes(p) + NanosBytes(p)
  {
    var a := if p.secs != 0 then [Record(1, PVarint(AsU64(p.secs)))] else [];
    var b := if p.nanos != 0 then [Record(2, PVarint(AsU64(p.nanos)))] else [];
    WriteAllAppend(a, b);
    OneRecord(Record(1, PVarint(AsU64(p.secs))));
    OneRecord(Record(2, PVarint(AsU64(p.nanos))));
  }

  lemma OneRecord(r: Record)
    ensures WriteAll([r]) == r.Bytes()
  {
    assert [r][1..] == [];
    assert r.Bytes() + [] == r.Bytes();
  }

  method PutPartsField(number: nat, p: Parts, buf: Buffer)
    requires IsU32(number)
    modifies buf
    ensures buf.bytes == old(buf.bytes) + Record(number, PLen(WriteAll(EncodeParts(p)))).Bytes()
  {
    buf.WriteTag(number, Len);
    var slot := buf.BeginLenPrefix();
    PutParts(p, buf);
    ghost var data := WriteAll(EncodeParts(p));
    buf.FinishLenPrefix(slot);
    FramedRecord(old(buf.bytes), number, data, buf.bytes);
  }

  // ---------------------------------------------------------------- values

  /** A nested message's payload, through its own class's descriptor. */
  method PutNested(W: World, v: Value, buf: Buffer, depth: nat) returns (r: Outcome<()>)
    requires WorldOk(W) && depth <= MAX_DEPTH
    modifies buf
    ensures Wrote(r, old(buf.bytes), buf.bytes,
                  if v.Nested? then EncodeMessage(W, v.m, depth + 1) else Err(NotAMessage))
    decreases MAX_DEPTH + 1 - depth, 0
  {
    if !v.Nested? {
      return Err(NotAMessage);
    }
    r := PutMessage(W, v.m, buf, depth + 1);
  }

  /** One tagged value. */
  method PutSingle(W: World, number: nat, kind: ValueKind, v: Value, buf: Buffer, depth: nat) returns (r: Outcome<()>)
    requires WorldOk(W) && depth <= MAX_DEPTH && IsU32(number)
    modifies buf
    ensures Wrote(r, old(buf.bytes), buf.bytes, RecordBytes(number, EncodeValue(W, kind, v, depth)))
    decreases MAX_DEPTH + 1 - depth, 1, 0
  {
    match kind
    case Scalar(s) =>
      r := PutScalarField(number, s, v, false, buf);
    case Enum =>
      var n := Int(v, IsI32);
      if n.Err? {
        return Err(n.error);
      }
      buf.WriteTag(number, Varint);
      r := PutEnum(v, buf);
      Associative(old(buf.bytes), WriteTag(number, Varint), WriteVarint(AsU64(n.value)));
    case Message =>
      buf.WriteTag(number, Len);
      var slot := buf.BeginLenPrefix();
      ghost var begun := buf.bytes;
      r := PutNested(W, v, buf, depth);
      if r.Ok? {
        ghost var data := EncodeMessage(W, v.m, depth + 1).value;
        buf.FinishLenPrefix(slot);
        FramedRecord(old(buf.bytes), number, data, buf.bytes);
      } else {
        PrefixOfPrefix(old(buf.bytes), WriteTag(number, Len), [0], begun, buf.bytes);
      }
    case Timestamp =>
      if !v.Instant? {
        return Err(WrongType);
      }
      PutPartsField(number, InstantToParts(v.micros), buf);
      r := Ok(());
    case Duration =>
      if !v.Span? {
        return Err(WrongType);
      }
      var p := SpanToParts(v.micros);
      if p.Err? {
        return Err(BadTime(p.error));
      }
      PutPartsField(number, p.value, buf);
      r := Ok(());
  }

  lemma PrefixOfPrefix(a: Bytes, b: Bytes, c: Bytes, mid: Bytes, end: Bytes)
    requires mid == a + b + c && mid <= end
    ensures a <= end
  {
    assert a <= mid;
  }

  // ----------------------------------------------------------------- lists

  /** The payloads of a packed list, one behind the other. */
  method PutPacked(W: World, kind: ValueKind, vs: seq<Value>, buf: Buffer, depth: nat) returns (r: Outcome<()>)
    requires WorldOk(W) && depth <= MAX_DEPTH && kind.Packable()
    modifies buf
    ensures Wrote(r, old(buf.bytes), buf.bytes, EncodePacked(W, kind, vs, depth))
  {
    ghost var before, done := buf.bytes, [];
    assert vs[0..] == vs;
    PrependNothing(EncodePacked(W, kind, vs, depth));
    for i := 0 to |vs|
      invariant buf.bytes == before + done
      invariant EncodePacked(W, kind, vs, depth) == Prepend(done, EncodePacked(W, kind, vs[i..], depth))
    {
      PackedStep(W, kind, vs[i..], depth);
      assert vs[i..][1..] == vs[i + 1..];
      if kind.Scalar? {
        r := PutScalar(kind.scalar, vs[i], buf);
      } else {
        r := PutEnum(vs[i], buf);
      }
      if r.Err? {
        return;
      }
      ghost var piece := PayloadBytes(EncodeValue(W, kind, vs[i], depth)).value;
      PrependTwice(done, piece, EncodePacked(W, kind, vs[i + 1..], depth));
      Associative(before, done, piece);
      done := done + piece;
    }
    r := Ok(());
  }

  /** A repeated field: packed into one record that is rolled back if nothing was packed,
      or one record per element. */
  method PutRepeated(W: World, f: FieldDescriptor, vs: seq<Value>, buf: Buffer, depth: nat) returns (r: Outcome<()>)
    requires WorldOk(W) && depth <= MAX_DEPTH && IsU32(f.number) && f.kind.Plain? && f.cardinality == Repeated
    modifies buf
    ensures Wrote(r, old(buf.bytes), buf.bytes, AllBytes(EncodeField(W, f, Many(vs), depth)))
    decreases MAX_DEPTH + 1 - depth, 2
  {
    var kind := f.kind.value;
    if kind.Packable() {
      var start := |buf.bytes|;
      buf.WriteTag(f.number, Len);
      var slot := buf.BeginLenPrefix();
      ghost var begun := buf.bytes;
      r := PutPacked(W, kind, vs, buf, depth);
      if r.Err? {
        PrefixOfPrefix(old(buf.bytes), WriteTag(f.number, Len), [0], begun, buf.bytes);
        return;
      }
      ghost var data := EncodePacked(W, kind, vs, depth).value;
      if |buf.bytes| == slot + 1 {
        buf.Truncate(start);
        assert data == [];
      } else {
        buf.FinishLenPrefix(slot);
        FramedRecord(old(buf.bytes), f.number, data, buf.bytes);
        OneRecord(Record(f.number, PLen(data)));
      }
    } else {
      r := PutEach(W, f.number, kind, vs, buf, depth);
    }
  }

  method PutEach(W: World, number: nat, kind: ValueKind, vs: seq<Value>, buf: Buffer, depth: nat)
    returns (r: Outcome<()>)
    requires WorldOk(W) && depth <= MAX_DEPTH && IsU32(number)
    modifies buf
    ensures Wrote(r, old(buf.bytes), buf.bytes, AllBytes(EncodeEach(W, number, kind, vs, depth)))
    decreases MAX_DEPTH + 1 - depth, 1, 1
  {
    ghost var before, done := buf.bytes, [];
    assert vs[0..] == vs;
    PrependNothing(AllBytes(EncodeEach(W, number, kind, vs, depth)));
    for i := 0 to |vs|
      invariant buf.bytes == before + done
      invariant AllBytes(EncodeEach(W, number, kind, vs, depth))
             == Prepend(done, AllBytes(EncodeEach(W, number, kind, vs[i..], depth)))
    {
      hide EncodeEach, EncodeValue;
      EachStep(W, number, kind, vs[i..], depth);
      assert vs[i..][1..] == vs[i + 1..];
      r := PutSingle(W, number, kind, vs[i], buf, depth);
      if r.Err? {
        return;
      }
      ghost var piece := RecordBytes(number, EncodeValue(W, kind, vs[i], depth)).value;
      PrependTwice(done, piece, AllBytes(EncodeEach(W, number, kind, vs[i + 1..], depth)));
      Associative(before, done, piece);
      done := done + piece;
    }
    r := Ok(());
  }

  // ------------------------------------------------------------------- maps

  /** One entry message: key as field 1, value as field 2, framed in place. */
  method PutEntry(W: World, number: nat, key: ScalarType, kind: ValueKind, e: Pair, buf: Buffer, depth: nat)
    returns (r: Outcome<()>)
    requires WorldOk(W) && depth <= MAX_DEPTH && IsU32(number)
    modifies buf
    ensures var data := EncodeEntry(W, key, kind, e, depth);
            Wrote(r, old(buf.bytes), buf.bytes,
                  if data.Err? then data else Ok(Record(number, PLen(data.value)).Bytes()))
    decreases MAX_DEPTH + 1 - depth, 2
  {
    buf.WriteTag(number, Len);
    var slot := buf.BeginLenPrefix();
    ghost var begun := buf.bytes;
    r := PutScalarField(1, key, e.key, false, buf);
    if r.Ok? {
      r := PutSingle(W, 2, kind, e.value, buf, depth);
    }
    if r.Err? {
      PrefixOfPrefix(old(buf.bytes), WriteTag(number, Len), [0], begun, buf.bytes);
      return;
    }
    ghost var k, v := Record(1, EncodeScalar(key, e.key).value), Record(2, EncodeValue(W, kind, e.value, depth).value);
    ghost var data := EncodeEntry(W, key, kind, e, depth).value;
    PairBytes(k, v);
    Associative(begun, k.Bytes(), v.Bytes());
    buf.FinishLenPrefix(slot);
    FramedRecord(old(buf.bytes), number, data, buf.bytes);
  }

  method PutMap(W: World, number: nat, key: ScalarType, kind: ValueKind, es: seq<Pair>, buf: Buffer,
      depth: nat) returns (r: Outcome<()>)
    requires WorldOk(W) && depth <= MAX_DEPTH && IsU32(number)
    modifies buf
    ensures Wrote(r, old(buf.bytes), buf.bytes, AllBytes(EncodeEntries(W, number, key, kind, es, depth)))
    decreases MAX_DEPTH + 1 - depth, 3
  {
    ghost var before, done := buf.bytes, [];
    assert es[0..] == es;
    PrependNothing(AllBytes(EncodeEntries(W, number, key, kind, es, depth)));
    for i := 0 to |es|
      invariant buf.bytes == before + done
      invariant AllBytes(EncodeEntries(W, number, key, kind, es, depth))
             == Prepend(done, AllBytes(EncodeEntries(W, number, key, kind, es[i..], depth)))
    {
      hide EncodeEntries, EncodeEntry;
      EntriesStep(W, number, key, kind, es[i..], depth);
      assert es[i..][1..] == es[i + 1..];
      r := PutEntry(W, number, key, kind, es[i], buf, depth);
      if r.Err? {
        return;
      }
      ghost var piece := Record(number, PLen(EncodeEntry(W, key, kind, es[i], depth).value)).Bytes();
      PrependTwice(done, piece, AllBytes(EncodeEntries(W, number, key, kind, es[i + 1..], depth)));
      Associative(before, done, piece);
      done := done + piece;
    }
    r := Ok(());
  }

  // --------------------------------------------------------------- messages

  method PutField(W: World, f: FieldDescriptor, slot: Slot, buf: Buffer, depth: nat) returns (r: Outcome<()>)
    requires WorldOk(W) && depth <= MAX_DEPTH && IsU32(f.number)
    modifies buf
    ensures Wrote(r, old(buf.bytes), buf.bytes, AllBytes(EncodeField(W, f, slot, depth)))
    decreases MAX_DEPTH + 1 - depth, 4
  {
    match f.kind
    case Map(key, kind) =>
      if !slot.Dict? {
        return Err(WrongType);
      }
      r := PutMap(W, f.number, key, kind, slot.entries, buf, depth);
    case Plain(kind) =>
      match f.cardinality
      case Repeated =>
        if !slot.Many? {
          return Err(WrongType);
        }
        r := PutRepeated(W, f, slot.vs, buf, depth);
      case Optional =>
        if slot.Unset? {
          return Ok(());
        }
        if !slot.One? {
          return Err(WrongType);
        }
        SingleBytes(W, f.number, kind, slot.v, depth);
        r := PutSingle(W, f.number, kind, slot.v, buf, depth);
      case Single =>
        if !slot.One? {
          return Err(WrongType);
        }
        SingleBytes(W, f.number, kind, slot.v, depth);
        match kind
        case Scalar(s) =>
          r := PutScalarField(f.number, s, slot.v, true, buf);
        case Enum =>
          var n := Int(slot.v, IsI32);
          if n.Err? {
            return Err(n.error);
          }
          if n.value == 0 {
            return Ok(());
          }
          r := PutSingle(W, f.number, kind, slot.v, buf, depth);
        case _ =>
          r := PutSingle(W, f.number, kind, slot.v, buf, depth);
  }

  lemma {:induction false} SingleBytes(W: World, number: nat, kind: ValueKind, v: Value, depth: nat)
    requires depth <= MAX_DEPTH
    ensures AllBytes(EncodeEach(W, number, kind, [v], depth)) == RecordBytes(number, EncodeValue(W, kind, v, depth))
  {
    EachOfOne(W, number, kind, v, depth);
    var p := EncodeValue(W, kind, v, depth);
    if p.Ok? {
      OneRecord(Record(number, p.value));
    }
  }

  /** The counters after the first `n` fields, one per oneof group. */
  predicate CountersAt(counts: seq<nat>, d: MessageDescriptor, slots: seq<Slot>, n: nat)
    requires n <= |d.fields| == |slots|
  {
    |counts| == |d.oneofs| && forall g :: 0 <= g < |counts| ==> counts[g] == OneofCount(d.fields, slots, g, n)
  }

  /** `saturating_add(1)` on a byte. */
  function Saturating(n: nat): nat {
    if n < 255 then n + 1 else 255
  }

  lemma {:induction false} CountersStep(counts: seq<nat>, d: MessageDescriptor, slots: seq<Slot>, i: nat)
    requires i < |d.fields| == |slots| && CountersAt(counts, d, slots, i) && WellFormedField(d.fields[i], |d.oneofs|)
    ensures var group := d.fields[i].Group();
            CountersAt(if group.Some? && !slots[i].Unset? then counts[group.value := Saturating(counts[group.value])]
                       else counts,
                       d, slots, i + 1)
  {
  }

  /** The check after the walk, on the counters it left. */
  method CheckOneofs(counts: seq<nat>, d: MessageDescriptor, slots: seq<Slot>) returns (r: Option<CodecError>)
    requires |d.fields| == |slots| && CountersAt(counts, d, slots, |d.fields|)
    ensures r == OneofCheck(d, slots, 0)
  {
    for g := 0 to |counts|
      invariant OneofCheck(d, slots, 0) == OneofCheck(d, slots, g)
    {
      if counts[g] > 1 {
        return Some(OneofConflict(d.oneofs[g], counts[g]));
      }
    }
    return None;
  }

  /** All fields in declaration order, counting set oneof members on the way. */
  method PutFields(W: World, m: Msg, buf: Buffer, depth: nat) returns (r: Outcome<()>, counts: seq<nat>)
    requires WorldOk(W) && depth <= MAX_DEPTH && m.cls in W && |m.slots| == |W[m.cls].desc.fields|
    modifies buf
    ensures Wrote(r, old(buf.bytes), buf.bytes, AllBytes(EncodeFields(W, W[m.cls].desc.fields, m.slots, 0, depth)))
    ensures r.Ok? ==> CountersAt(counts, W[m.cls].desc, m.slots, |m.slots|)
    decreases MAX_DEPTH + 1 - depth, 5
  {
    hide EncodeField, EncodeFields;
    var d := W[m.cls].desc;
    var fields := d.fields;
    ghost var before, done := buf.bytes, [];
    counts := seq(|d.oneofs|, _ => 0);
    r := Ok(());
    assert WellFormed(d);
    PrependNothing(AllBytes(EncodeFields(W, fields, m.slots, 0, depth)));
    for i := 0 to |fields|
      invariant r.Ok? && buf.bytes == before + done
      invariant CountersAt(counts, d, m.slots, i)
      invariant AllBytes(EncodeFields(W, fields, m.slots, 0, depth))
             == Prepend(done, AllBytes(EncodeFields(W, fields, m.slots, i, depth)))
    {
      var f := fields[i];
      assert WellFormedField(f, |d.oneofs|);
      FieldsStep(W, fields, m.slots, i, depth);
      CountersStep(counts, d, m.slots, i);
      hide CountersAt, EncodeField, EncodeFields, WorldOk;
      if f.Group().Some? && !m.slots[i].Unset? {
        var g := f.Group().value;
        counts := counts[g := Saturating(counts[g])];
      }
      r := PutField(W, f, m.slots[i], buf, depth);
      if r.Err? {
        return;
      }
      ghost var piece := AllBytes(EncodeField(W, f, m.slots[i], depth)).value;
      PrependTwice(done, piece, AllBytes(EncodeFields(W, fields, m.slots, i + 1, depth)));
      Associative(before, done, piece);
      done := done + piece;
    }
    FieldsEnd(W, fields, m.slots, depth);
    assert done + [] == done;
  }

  /** Encodes a message behind what the buffer holds. */
  method PutMessage(W: World, m: Msg, buf: Buffer, depth: nat) returns (r: Outcome<()>)
    requires WorldOk(W) && depth <= MAX_DEPTH + 1
    modifies buf
    ensures Wrote(r, old(buf.bytes), buf.bytes, EncodeMessage(W, m, depth))
    decreases MAX_DEPTH + 1 - depth, 6
  {
    if depth > MAX_DEPTH {
      return Err(NestingTooDeep);
    }
    if m.cls !in W || |m.slots| != |W[m.cls].desc.fields| {
      return Err(NotAMessage);
    }
    var counts;
    ghost var before := buf.bytes;
    r, counts := PutFields(W, m, buf, depth);
    if r.Err? {
      return;
    }
    var conflict := CheckOneofs(counts, W[m.cls].desc, m.slots);
    if conflict.Some? {
      return Err(conflict.value);
    }
    ghost var done := WriteAll(EncodeFields(W, W[m.cls].desc.fields, m.slots, 0, depth).value);
    buf.Extend(m.unknown);
    Associative(before, done, m.unknown);
    return Ok(());
  }

  /** A whole encoding: a fresh buffer filled by the in-place encoder holds exactly the
      compositional encoding. */
  method Encode(W: World, m: Msg) returns (r: Outcome<Bytes>)
    requires WorldOk(W)
    ensures r == EncodeMessage(W, m, 0)
  {
    var buf := new Buffer();
    var done := PutMessage(W, m, buf, 0);
    if done.Err? {
      return Err(done.error);
    }
    assert [] + EncodeMessage(W, m, 0).value == EncodeMessage(W, m, 0).value;
    return Ok(buf.bytes);
  }
}
