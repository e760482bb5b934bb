/**
 A byte stream as a sequence of records: how it splits, how records are written back,
 and what loops of the form "while bytes are left, read a record and act on it" compute.
 */
module Records {
  import opened Basics
  import opened Wire

  /** A record together with the very bytes it was read from. */
  datatype Raw = Raw(rec: Record, bytes: Bytes) {
    predicate Valid() {
      ReadRecord(bytes) == Got(rec, |bytes|)
    }
  }

  /** The records up to the end of the input, or up to the first malformed one. */
  datatype Scan = Scan(raws: seq<Raw>, end: Option<WireError>)

  function ScanAll(s: Bytes): (r: Scan)
    decreases |s|
  {
    if s == [] then Scan([], None)
    else
      match ReadRecord(s)
      case Bad(e) => Scan([], Some(e))
      case Got(rec, n) =>
        var rest := ScanAll(s[n..]);
        Scan([Raw(rec, s[..n])] + rest.raws, rest.end)
  }

  predicate AllValid(raws: seq<Raw>) {
    forall i :: 0 <= i < |raws| ==> raws[i].Valid()
  }

  /** The raw bytes of a sequence of records, in order. */
  function Concat(raws: seq<Raw>): Bytes {
    if raws == [] then [] else raws[0].bytes + Concat(raws[1..])
  }

  lemma {:induction false} ConcatAppend(a: seq<Raw>, b: seq<Raw>)
    ensures Concat(a + b) == Concat(a) + Concat(b)
  {
    if a == [] {
      assert a + b == b;
    } else {
      assert (a + b)[1..] == a[1..] + b;
      ConcatAppend(a[1..], b);
    }
  }

  lemma RawIsValid(s: Bytes)
    requires ReadRecord(s).Got?
    ensures Raw(ReadRecord(s).value, s[..ReadRecord(s).used]).Valid()
  {
    ReadRecordIsLocal(s, s[..ReadRecord(s).used]);
  }

  lemma {:induction false} ScanIsValid(s: Bytes)
    ensures AllValid(ScanAll(s).raws)
    decreases |s|
  {
    if s != [] && ReadRecord(s).Got? {
      RawIsValid(s);
      ScanIsValid(s[ReadRecord(s).used..]);
    }
  }

  lemma ValidRawRecord(r: Raw)
    requires r.Valid()
    ensures r.rec.Valid() && r.bytes != []
  {
  }

  /** One valid record in front of a stream is the first one scanned. */
  lemma ScanStep(r: Raw, s: Bytes)
    requires r.Valid()
    ensures ScanAll(r.bytes + s) == Scan([r] + ScanAll(s).raws, ScanAll(s).end)
  {
    var t := r.bytes + s;
    assert t[..|r.bytes|] == r.bytes && t[|r.bytes|..] == s;
    assert AgreeOn(r.bytes, t, |r.bytes|) by {
      assert r.bytes[..|r.bytes|] == r.bytes;
    }
    ReadRecordIsLocal(r.bytes, t);
  }

  lemma ScanOne(r: Raw)
    requires r.Valid()
    ensures ScanAll(r.bytes) == Scan([r], None)
  {
    ScanStep(r, []);
    assert r.bytes + [] == r.bytes;
    assert [r] + [] == [r];
  }

  /** A stream built from records splits into exactly these records. */
  lemma {:induction false} ScanOfConcat(raws: seq<Raw>, s: Bytes)
    requires AllValid(raws)
    ensures ScanAll(Concat(raws) + s) == Scan(raws + ScanAll(s).raws, ScanAll(s).end)
  {
    if raws == [] {
      assert Concat(raws) + s == s;
      assert raws + ScanAll(s).raws == ScanAll(s).raws;
    } else {
      ScanOfConcat(raws[1..], s);
      ScanStep(raws[0], Concat(raws[1..]) + s);
      ConcatPeel(raws, s);
      PrependHead(raws, ScanAll(s).raws);
    }
  }

  lemma ConcatPeel(raws: seq<Raw>, s: Bytes)
    requires raws != []
    ensures Concat(raws) + s == raws[0].bytes + (Concat(raws[1..]) + s)
  {
    Associative(raws[0].bytes, Concat(raws[1..]), s);
  }

  lemma PrependHead<T>(a: seq<T>, b: seq<T>)
    requires a != []
    ensures [a[0]] + (a[1..] + b) == a + b
  {
  }

  lemma {:induction false} ConcatOfScan(s: Bytes)
    requires ScanAll(s).end.None?
    ensures Concat(ScanAll(s).raws) == s
    decreases |s|
  {
    if s != [] {
      var n := ReadRecord(s).used;
      ScanTail(s);
      hide *;
      ConcatOfScan(s[n..]);
      ConcatHead(ScanAll(s).raws);
      assert s[..n] + s[n..] == s;
    }
  }

  lemma ConcatHead(raws: seq<Raw>)
    requires raws != []
    ensures Concat(raws) == raws[0].bytes + Concat(raws[1..])
  {
  }

  lemma ScanTail(s: Bytes)
    requires s != [] && ReadRecord(s).Got?
    ensures var Got(rec, n) := ReadRecord(s);
            && ScanAll(s).raws != [] && ScanAll(s).raws[0] == Raw(rec, s[..n])
            && ScanAll(s).raws[1..] == ScanAll(s[n..]).raws
            && ScanAll(s).end == ScanAll(s[n..]).end
  {
  }

  /** The split of a well-formed stream into records exists and is unique. */
  lemma ScanIsUnique(s: Bytes, raws: seq<Raw>)
    ensures (AllValid(raws) && Concat(raws) == s) <==> (ScanAll(s) == Scan(raws, None))
  {
    if AllValid(raws) && Concat(raws) == s {
      ScanOfConcat(raws, []);
      assert Concat(raws) + [] == s;
      assert raws + [] == raws;
    }
    if ScanAll(s) == Scan(raws, None) {
      ScanIsValid(s);
      ConcatOfScan(s);
    }
  }

  /** Scanning a concatenation scans the parts. */
  lemma ScanAppend(a: Bytes, b: Bytes)
    requires ScanAll(a).end.None?
    ensures ScanAll(a + b) == Scan(ScanAll(a).raws + ScanAll(b).raws, ScanAll(b).end)
  {
    ScanIsValid(a);
    ConcatOfScan(a);
    ScanOfConcat(ScanAll(a).raws, b);
  }

  // ---------------------------------------------------------- writing back

  function WriteAll(recs: seq<Record>): Bytes {
    if recs == [] then [] else recs[0].Bytes() + WriteAll(recs[1..])
  }

  predicate AllRecordsValid(recs: seq<Record>) {
    forall i :: 0 <= i < |recs| ==> recs[i].Valid()
  }

  /** Records as they come back from the wire after they were written. */
  function Written(recs: seq<Record>): (raws: seq<Raw>)
    ensures |raws| == |recs|
    ensures forall i :: 0 <= i < |recs| ==> raws[i] == Raw(recs[i], recs[i].Bytes())
  {
    hide Record.Bytes;
    if recs == [] then [] else [Raw(recs[0], recs[0].Bytes())] + Written(recs[1..])
  }

  lemma {:induction false} WriteAllAppend(a: seq<Record>, b: seq<Record>)
    ensures WriteAll(a + b) == WriteAll(a) + WriteAll(b)
  {
    if a == [] {
      assert a + b == b;
    } else {
      assert (a + b)[1..] == a[1..] + b;
      WriteAllAppend(a[1..], b);
    }
  }

  lemma WrittenAppend(a: seq<Record>, b: seq<Record>)
    ensures Written(a + b) == Written(a) + Written(b)
  {
  }

  lemma {:induction false} WrittenIsValid(recs: seq<Record>)
    requires AllRecordsValid(recs)
    ensures AllValid(Written(recs)) && Concat(Written(recs)) == WriteAll(recs)
  {
    if recs != [] {
      RecordRoundTrip(recs[0], []);
      assert recs[0].Bytes() + [] == recs[0].Bytes();
      WrittenIsValid(recs[1..]);
      assert Written(recs)[1..] == Written(recs[1..]);
    }
  }

  /** Written records followed by any stream scan to these records and that stream. */
  lemma ScanOfWritten(recs: seq<Record>, tail: Bytes)
    requires AllRecordsValid(recs)
    ensures ScanAll(WriteAll(recs) + tail) == Scan(Written(recs) + ScanAll(tail).raws, ScanAll(tail).end)
  {
    WrittenIsValid(recs);
    ScanOfConcat(Written(recs), tail);
  }

  // ------------------------------------------------------------ record loops

  /** The meaning of a record loop over already split records. */
  function Fold<S, E>(step: (S, Record) -> Result<S, E>, st: S, raws: seq<Raw>): Result<S, E> {
    if raws == [] then Ok(st)
    else
      match step(st, raws[0].rec)
      case Err(e) => Err(e)
      case Ok(next) => Fold(step, next, raws[1..])
  }

  /** The meaning of a record loop over a stream: semantic errors surface in stream
      order, and a malformed record stops the loop where it stands. */
  function Loop<S, E>(step: (S, Record) -> Result<S, E>, wrap: WireError -> E, st: S, s: Bytes): Result<S, E> {
    match Fold(step, st, ScanAll(s).raws)
    case Err(e) => Err(e)
    case Ok(r) => if ScanAll(s).end.Some? then Err(wrap(ScanAll(s).end.value)) else Ok(r)
  }

  lemma LoopUnroll<S, E>(step: (S, Record) -> Result<S, E>, wrap: WireError -> E, st: S, s: Bytes)
    requires s != []
    ensures ReadRecord(s).Bad? ==> Loop(step, wrap, st, s) == Err(wrap(ReadRecord(s).error))
    ensures ReadRecord(s).Got? ==>
      var Got(rec, n) := ReadRecord(s);
      && (step(st, rec).Err? ==> Loop(step, wrap, st, s) == Err(step(st, rec).error))
      && (step(st, rec).Ok? ==> Loop(step, wrap, st, s) == Loop(step, wrap, step(st, rec).value, s[n..]))
  {
    if ReadRecord(s).Got? {
      var n := ReadRecord(s).used;
      assert ScanAll(s).raws[1..] == ScanAll(s[n..]).raws;
    }
  }

  lemma {:induction false} FoldAppend<S, E>(step: (S, Record) -> Result<S, E>, st: S, a: seq<Raw>, b: seq<Raw>)
    ensures Fold(step, st, a + b) ==
      match Fold(step, st, a)
      case Err(e) => Err(e)
      case Ok(mid) => Fold(step, mid, b)
  {
    if a == [] {
      assert a + b == b;
    } else {
      assert (a + b)[1..] == a[1..] + b && (a + b)[0] == a[0];
      if step(st, a[0].rec).Ok? {
        FoldAppend(step, step(st, a[0].rec).value, a[1..], b);
      }
    }
  }
}
