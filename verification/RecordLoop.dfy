/** Loops over the records of a stream, seen from a position inside the stream. */
module RecordLoop {
  import opened Basics
  import opened Wire
  import opened WireIO
  import opened Records

  lemma DropTwice(s: Bytes, at: nat, end: nat)
    requires at <= end <= |s|
    ensures s[at..][end - at..] == s[end..]
  {
  }

  /** A tag read from `at` to `mid` and its payload from `mid` to `end` are one record. */
  lemma WholeRecord(s: Bytes, at: nat, tag: Tag, mid: nat, p: Payload, end: nat)
    requires at <= mid <= end <= |s|
    requires ReadTag(s[at..]) == Got(tag, mid - at) && ReadPayload(tag.wire, s[mid..]) == Got(p, end - mid)
    ensures ReadRecord(s[at..]) == Got(Record(tag.number, p), end - at)
  {
    DropTwice(s, at, mid);
  }

  lemma BrokenTag(s: Bytes, at: nat, e: WireError)
    requires at <= |s| && ReadTag(s[at..]) == Bad(e)
    ensures ReadRecord(s[at..]) == Bad(e)
  {
  }

  lemma BrokenPayload(s: Bytes, at: nat, tag: Tag, mid: nat, e: WireError)
    requires at <= mid <= |s| && ReadTag(s[at..]) == Got(tag, mid - at) && ReadPayload(tag.wire, s[mid..]) == Bad(e)
    ensures ReadRecord(s[at..]) == Bad(e)
  {
    DropTwice(s, at, mid);
  }

  /** Scanning from `at` starts with the record that ends at `end`. */
  lemma {:induction false} ScanFrom(s: Bytes, at: nat, rec: Record, end: nat)
    requires at < end <= |s| && ReadRecord(s[at..]) == Got(rec, end - at)
    ensures var scan := ScanAll(s[at..]);
            && scan.raws != [] && scan.raws[0] == Raw(rec, s[at..end])
            && Scan(scan.raws[1..], scan.end) == ScanAll(s[end..])
  {
    hide *;
    DropTwice(s, at, end);
    ScanTail(s[at..]);
    assert s[at..][..end - at] == s[at..end];
  }

  /** What a record loop makes of the input from `at` on. */
  function LoopFrom<S, E>(step: (S, Record) -> Result<S, E>, wrap: WireError -> E, st: S, s: Bytes, at: nat)
    : Result<S, E>
    requires at <= |s|
  {
    Loop(step, wrap, st, s[at..])
  }

  lemma LoopStart<S, E>(step: (S, Record) -> Result<S, E>, wrap: WireError -> E, st: S, s: Bytes)
    ensures LoopFrom(step, wrap, st, s, 0) == Loop(step, wrap, st, s)
  {
    assert s[0..] == s;
  }

  lemma LoopTurn<S, E>(step: (S, Record) -> Result<S, E>, wrap: WireError -> E, st: S, s: Bytes, at: nat,
      rec: Record, end: nat)
    requires at < end <= |s| && ReadRecord(s[at..]) == Got(rec, end - at)
    ensures step(st, rec).Err? ==> LoopFrom(step, wrap, st, s, at) == Err(step(st, rec).error)
    ensures step(st, rec).Ok? ==> LoopFrom(step, wrap, st, s, at) == LoopFrom(step, wrap, step(st, rec).value, s, end)
  {
    hide ReadRecord, Loop;
    DropTwice(s, at, end);
    LoopUnroll(step, wrap, st, s[at..]);
  }

  lemma LoopBroken<S, E>(step: (S, Record) -> Result<S, E>, wrap: WireError -> E, st: S, s: Bytes, at: nat,
      e: WireError)
    requires at < |s| && ReadRecord(s[at..]) == Bad(e)
    ensures LoopFrom(step, wrap, st, s, at) == Err(wrap(e))
  {
    LoopUnroll(step, wrap, st, s[at..]);
  }

  lemma LoopEnd<S, E>(step: (S, Record) -> Result<S, E>, wrap: WireError -> E, st: S, s: Bytes)
    ensures LoopFrom(step, wrap, st, s, |s|) == Ok(st)
  {
    assert s[|s|..] == [];
  }

  /** The next whole record. */
  method NextRecord(reader: Reader) returns (r: Result<Record, WireError>)
    requires reader.Valid()
    modifies reader`pos
    ensures reader.Valid() && old(reader.pos) <= reader.pos
    ensures r.Ok? ==> old(reader.pos) < reader.pos
                      && ReadRecord(reader.buf[old(reader.pos)..]) == Got(r.value, reader.pos - old(reader.pos))
    ensures r.Err? ==> ReadRecord(reader.buf[old(reader.pos)..]) == Bad(r.error)
  {
    hide ReadTag, ReadPayload, ReadRecord;
    ghost var at := reader.pos;
    var tag := reader.ReadTag();
    if tag.Err? {
      BrokenTag(reader.buf, at, tag.error);
      return Err(tag.error);
    }
    ghost var mid := reader.pos;
    var p := reader.ReadPayload(tag.value.wire);
    if p.Err? {
      BrokenPayload(reader.buf, at, tag.value, mid, p.error);
      return Err(p.error);
    }
    WholeRecord(reader.buf, at, tag.value, mid, p.value, reader.pos);
    return Ok(Record(tag.value.number, p.value));
  }
}
