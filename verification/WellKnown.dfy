/**
 google.protobuf.Timestamp and Duration as native times.  A datetime is the number of
 microseconds since the Unix epoch, a timedelta its total number of microseconds.
 */
module WellKnown {
  import opened Basics
  import opened Wire
  import opened Records

  const MICROS: int := 1_000_000
  const NANOS: int := 1_000_000_000
  const TS_MIN_SECONDS: int := -62_135_596_800
  const TS_MAX_SECONDS: int := 253_402_300_799
  const DURATION_MAX_SECONDS: int := 315_576_000_000
  const MAX_NANOS: int := 999_999_999
  const MICROS_PER_DAY: int := 86_400_000_000
  const MAX_DAYS: int := 999_999_999

  datatype Parts = Parts(secs: int, nanos: int) {
    predicate Valid() {
      IsI64(secs) && IsI32(nanos)
    }
  }

  datatype TimeError = OutOfRange | TimedeltaOverflow

  /** Division rounding toward zero, and its remainder. */
  function TruncDiv(a: int, b: int): int
    requires b > 0
  {
    if a >= 0 then a / b else -((-a) / b)
  }

  function TruncMod(a: int, b: int): int
    requires b > 0
  {
    a - b * TruncDiv(a, b)
  }

  /** `i64::abs` and `i32::abs` as compiled without overflow checks: the minimum wraps to itself. */
  function Abs64(n: int): int {
    if n == -0x8000_0000_0000_0000 then n else if n < 0 then -n else n
  }

  function Abs32(n: int): int {
    if n == -0x8000_0000 then n else if n < 0 then -n else n
  }

  /** The moments a UTC datetime can hold. */
  predicate InstantInRange(us: int) {
    TS_MIN_SECONDS * MICROS <= us < (TS_MAX_SECONDS + 1) * MICROS
  }

  /** The lengths of time a timedelta can hold. */
  predicate TimedeltaInRange(us: int) {
    -MAX_DAYS * MICROS_PER_DAY <= us < (MAX_DAYS + 1) * MICROS_PER_DAY
  }

  /** The lengths of time a Duration may carry. */
  predicate SpanInRange(us: int) {
    -(DURATION_MAX_SECONDS + 1) * MICROS < us < (DURATION_MAX_SECONDS + 1) * MICROS
  }

  function InstantToParts(us: int): Parts {
    Parts((us * 1000) / NANOS, (us * 1000) % NANOS)
  }

  function TimedeltaFrom(p: Parts): (r: Result<int, TimeError>)
    ensures r.Ok? ==> TimedeltaInRange(r.value)
  {
    var us := p.secs * MICROS + TruncDiv(p.nanos, 1000);
    if TimedeltaInRange(us) then Ok(us) else Err(TimedeltaOverflow)
  }

  function PartsToInstant(p: Parts): Result<int, TimeError> {
    if !(TS_MIN_SECONDS <= p.secs <= TS_MAX_SECONDS) || !(0 <= p.nanos <= MAX_NANOS) then Err(OutOfRange)
    else TimedeltaFrom(p)
  }

  function SpanToParts(us: int): Result<Parts, TimeError> {
    var p := Parts(TruncDiv(us * 1000, NANOS), TruncMod(us * 1000, NANOS));
    if Abs64(p.secs) > DURATION_MAX_SECONDS then Err(OutOfRange) else Ok(p)
  }

  function PartsToSpan(p: Parts): Result<int, TimeError> {
    if Abs64(p.secs) > DURATION_MAX_SECONDS || Abs32(p.nanos) > MAX_NANOS then Err(OutOfRange)
    else TimedeltaFrom(p)
  }

  // ------------------------------------------------------------- arithmetic

  lemma TruncFacts(a: int, b: int)
    requires b > 0
    ensures a == b * TruncDiv(a, b) + TruncMod(a, b)
    ensures -b < TruncMod(a, b) < b
    ensures a >= 0 ==> TruncDiv(a, b) >= 0 && TruncMod(a, b) >= 0
    ensures a <= 0 ==> TruncDiv(a, b) <= 0 && TruncMod(a, b) <= 0
  {
    if a < 0 {
      assert -a == b * ((-a) / b) + (-a) % b;
      assert b * -((-a) / b) == -(b * ((-a) / b));
    }
  }

  lemma MultipleBound(b: int, d: int)
    requires b > 0
    ensures d >= 1 ==> b * d >= b
    ensures d <= -1 ==> b * d <= -b
  {
    if d >= 1 {
      assert b * d == b + b * (d - 1);
      assert b * (d - 1) >= 0;
    } else if d <= -1 {
      assert b * d == -b + b * (d + 1);
      assert b * (d + 1) <= 0;
    }
  }

  lemma DivUnique(a: int, b: int, q: int, r: int)
    requires b > 0 && a == b * q + r && 0 <= r < b
    ensures a / b == q && a % b == r
  {
    var q', r' := a / b, a % b;
    assert a == b * q' + r';
    MultipleBound(b, q' - q);
    assert b * (q' - q) == b * q' - b * q;
  }

  lemma TruncUnique(a: int, b: int, q: int, r: int)
    requires b > 0 && a == b * q + r && -b < r < b
    requires (a >= 0 ==> q >= 0 && r >= 0) && (a <= 0 ==> q <= 0 && r <= 0)
    ensures TruncDiv(a, b) == q && TruncMod(a, b) == r
  {
    if a >= 0 {
      DivUnique(a, b, q, r);
    } else {
      assert b * -q == -(b * q);
      DivUnique(-a, b, -q, -r);
    }
  }

  /** Timestamp parts: nanoseconds are never negative and carry whole microseconds. */
  lemma InstantParts(us: int)
    ensures var p := InstantToParts(us);
            && 0 <= p.nanos <= MAX_NANOS && p.nanos % 1000 == 0
            && p.secs == us / MICROS && p.nanos == 1000 * (us % MICROS)
            && us == p.secs * MICROS + p.nanos / 1000
  {
    var q, r := us / MICROS, us % MICROS;
    assert us * 1000 == NANOS * q + 1000 * r;
    assert 0 <= 1000 * r < NANOS;
    DivUnique(us * 1000, NANOS, q, 1000 * r);
    assert (1000 * r) / 1000 == r;
  }

  /** A datetime survives the conversion to parts and back exactly when it lies in the
      UTC range; one that an offset pushes outside is encoded but not accepted back. */
  lemma InstantRoundTrip(us: int)
    ensures InstantInRange(us) <==> PartsToInstant(InstantToParts(us)) == Ok(us)
  {
    InstantParts(us);
    var p := InstantToParts(us);
    assert TruncDiv(p.nanos, 1000) == p.nanos / 1000;
    assert InstantInRange(us) <==> TS_MIN_SECONDS <= p.secs <= TS_MAX_SECONDS;
  }

  /** Accepted Timestamp parts give a datetime in range, losing only the nanoseconds below
      a microsecond; re-encoding that datetime and reading it again changes nothing. */
  lemma AcceptedInstant(p: Parts)
    requires PartsToInstant(p).Ok?
    ensures var us := PartsToInstant(p).value;
            && InstantInRange(us)
            && InstantToParts(us) == Parts(p.secs, p.nanos - p.nanos % 1000)
            && PartsToInstant(InstantToParts(us)) == Ok(us)
  {
    var us := PartsToInstant(p).value;
    var k := p.nanos / 1000;
    assert us == MICROS * p.secs + k && 0 <= k < MICROS;
    DivUnique(us, MICROS, p.secs, k);
    InstantParts(us);
    InstantRoundTrip(us);
  }

  /** Scaling microseconds to nanoseconds scales the remainder and keeps the quotient. */
  lemma SpanDigits(us: int)
    ensures var q, r := TruncDiv(us, MICROS), TruncMod(us, MICROS);
            && us == MICROS * q + r && -MICROS < r < MICROS
            && (us >= 0 ==> q >= 0 && r >= 0) && (us <= 0 ==> q <= 0 && r <= 0)
            && TruncDiv(us * 1000, NANOS) == q && TruncMod(us * 1000, NANOS) == 1000 * r
  {
    TruncFacts(us, MICROS);
    hide TruncDiv, TruncMod;
    var q, r := TruncDiv(us, MICROS), TruncMod(us, MICROS);
    assert us * 1000 == NANOS * q + 1000 * r;
    TruncUnique(us * 1000, NANOS, q, 1000 * r);
  }

  /** Duration parts: both have the sign of the whole, and nothing is lost. */
  lemma SpanParts(us: int)
    requires TimedeltaInRange(us)
    ensures SpanToParts(us).Ok? <==> SpanInRange(us)
    ensures SpanToParts(us).Ok? ==>
      var p := SpanToParts(us).value;
      && -MAX_NANOS <= p.nanos <= MAX_NANOS && -DURATION_MAX_SECONDS <= p.secs <= DURATION_MAX_SECONDS
      && (us >= 0 ==> p.secs >= 0 && p.nanos >= 0) && (us <= 0 ==> p.secs <= 0 && p.nanos <= 0)
      && p.secs == TruncDiv(us, MICROS) && p.nanos == 1000 * TruncMod(us, MICROS)
  {
    SpanDigits(us);
    hide TruncDiv, TruncMod;
    var q := TruncDiv(us, MICROS);
    assert -86_400_000_000_000 < q < 86_400_000_000_000;
  }

  /** A timedelta survives the conversion to parts and back exactly when the encoder
      takes it at all. */
  lemma SpanRoundTrip(us: int)
    requires TimedeltaInRange(us)
    ensures SpanToParts(us).Ok? ==> PartsToSpan(SpanToParts(us).value) == Ok(us)
  {
    SpanParts(us);
    if SpanToParts(us).Ok? {
      var p := SpanToParts(us).value;
      var r := TruncMod(us, MICROS);
      TruncFacts(us, MICROS);
      TruncUnique(p.nanos, 1000, r, 0);
    }
  }

  /** The one accepted shape of Duration parts that the encoder then refuses: the smallest
      `nanos`, which passes the range test because its absolute value wraps, next to
      `seconds` at the lower end. */
  predicate WrapsPastMinimum(p: Parts) {
    p.nanos == -0x8000_0000 && p.secs <= -DURATION_MAX_SECONDS + 1
  }

  /** Accepted Duration parts give a timedelta that differs by less than a microsecond, and
      that encodes again, and reads back as itself, exactly outside the wrapping corner. */
  lemma AcceptedSpan(p: Parts)
    requires p.Valid() && PartsToSpan(p).Ok?
    ensures var us := PartsToSpan(p).value;
            && TimedeltaInRange(us)
            && -1000 < p.secs * NANOS + p.nanos - 1000 * us < 1000
            && (SpanToParts(us).Ok? <==> !WrapsPastMinimum(p))
            && (SpanToParts(us).Ok? ==> PartsToSpan(SpanToParts(us).value) == Ok(us))
  {
    var us := PartsToSpan(p).value;
    SpanParts(us);
    SpanRoundTrip(us);
    assert p.secs != -0x8000_0000_0000_0000;
    assert -DURATION_MAX_SECONDS <= p.secs <= DURATION_MAX_SECONDS;
    TruncFacts(p.nanos, 1000);
    var k := TruncDiv(p.nanos, 1000);
    assert us == p.secs * MICROS + k;
    if p.nanos == -0x8000_0000 {
      TruncUnique(p.nanos, 1000, -2_147_483, -648);
    } else {
      assert -MAX_NANOS <= p.nanos <= MAX_NANOS;
      assert -MICROS < k < MICROS;
    }
  }

  /** The two timedeltas the corner decodes to. */
  predicate WrappedMicros(us: int) {
    us == -DURATION_MAX_SECONDS * MICROS - 2_147_483 || us == (-DURATION_MAX_SECONDS + 1) * MICROS - 2_147_483
  }

  /** A decoded timedelta is one the encoder refuses exactly if it is one of these two. */
  lemma DecodedSpanInRange(p: Parts)
    requires p.Valid() && PartsToSpan(p).Ok?
    ensures SpanInRange(PartsToSpan(p).value) <==> !WrappedMicros(PartsToSpan(p).value)
  {
    var us := PartsToSpan(p).value;
    AcceptedSpan(p);
    SpanParts(us);
    if WrapsPastMinimum(p) {
      TruncUnique(p.nanos, 1000, -2_147_483, -648);
      assert us == p.secs * MICROS - 2_147_483;
      assert -DURATION_MAX_SECONDS <= p.secs;
    }
  }

  /** The corner exists: these parts are accepted, and what they decode to does not encode. */
  lemma WrappingSpanIsAccepted()
    ensures var p := Parts(-DURATION_MAX_SECONDS, -0x8000_0000);
            && p.Valid() && PartsToSpan(p).Ok?
            && SpanToParts(PartsToSpan(p).value) == Err(OutOfRange)
  {
    var p := Parts(-DURATION_MAX_SECONDS, -0x8000_0000);
    TruncUnique(p.nanos, 1000, -2_147_483, -648);
    assert TimedeltaInRange(p.secs * MICROS - 2_147_483);
    AcceptedSpan(p);
  }

  // -------------------------------------------------------------- wire form

  function EncodeParts(p: Parts): (recs: seq<Record>)
    ensures AllRecordsValid(recs)
  {
    (if p.secs != 0 then [Record(1, PVarint(AsU64(p.secs)))] else []) +
    (if p.nanos != 0 then [Record(2, PVarint(AsU64(p.nanos)))] else [])
  }

  function PartsStep(p: Parts, rec: Record): (r: Result<Parts, WireError>)
    ensures r.Ok? && (p.Valid() ==> r.value.Valid())
  {
    if rec.number == 1 && rec.payload.PVarint? then Ok(p.(secs := AsI64(rec.payload.v)))
    else if rec.number == 2 && rec.payload.PVarint? then Ok(p.(nanos := AsI32(rec.payload.v)))
    else Ok(p)
  }

  function Unchanged(e: WireError): WireError {
    e
  }

  function DecodeParts(data: Bytes): Result<Parts, WireError> {
    Loop(PartsStep, Unchanged, Parts(0, 0), data)
  }

  lemma {:induction false} FoldPartsValid(p: Parts, raws: seq<Raw>)
    requires p.Valid()
    ensures Fold(PartsStep, p, raws).Ok? && Fold(PartsStep, p, raws).value.Valid()
    decreases |raws|
  {
    if raws != [] {
      FoldPartsValid(PartsStep(p, raws[0].rec).value, raws[1..]);
    }
  }

  lemma DecodedPartsAreValid(data: Bytes)
    ensures DecodeParts(data).Ok? ==> DecodeParts(data).value.Valid()
  {
    FoldPartsValid(Parts(0, 0), ScanAll(data).raws);
  }

  /** Parts written to the wire read back unchanged, zero parts as the empty message. */
  lemma PartsRoundTrip(p: Parts)
    requires p.Valid()
    ensures DecodeParts(WriteAll(EncodeParts(p))) == Ok(p)
  {
    var recs := EncodeParts(p);
    ScanOfWritten(recs, []);
    assert WriteAll(recs) + [] == WriteAll(recs);
    assert Written(recs) + [] == Written(recs);
    FoldWrittenParts(p);
  }

  lemma FoldWrittenParts(p: Parts)
    requires p.Valid()
    ensures Fold(PartsStep, Parts(0, 0), Written(EncodeParts(p))) == Ok(p)
  {
    SignExtensionRoundTrip(p.secs);
    SignExtensionRoundTrip(p.nanos);
    var raws := Written(EncodeParts(p));
    var tail := if p.secs != 0 then raws[1..] else raws;
    assert Fold(PartsStep, Parts(0, 0), raws) == Fold(PartsStep, Parts(p.secs, 0), tail);
    if p.nanos != 0 {
      assert tail[0].rec == Record(2, PVarint(AsU64(p.nanos))) && tail[1..] == [];
    } else {
      assert tail == [];
    }
  }
}
