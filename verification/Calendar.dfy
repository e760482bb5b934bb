/** The time ranges of the well-known types in years, days and seconds. */
module Calendar {
  import opened Basics
  import opened Records
  import opened WellKnown
  import opened LastRecords

  const SECONDS_PER_DAY := 24 * 60 * 60

  /** Leap years of the proleptic Gregorian calendar. */
  predicate Leap(year: nat) {
    year % 4 == 0 && (year % 100 != 0 || year % 400 == 0)
  }

  /** Days from the first of January of year 1 to that of `year`. */
  function DaysBefore(year: nat): nat
    requires year >= 1
  {
    365 * (year - 1) + (year - 1) / 4 - (year - 1) / 100 + (year - 1) / 400
  }

  lemma {:induction false} YearLength(year: nat)
    requires year >= 1
    ensures DaysBefore(1) == 0
    ensures DaysBefore(year + 1) == DaysBefore(year) + if Leap(year) then 366 else 365
  {
    QuotientStep(year - 1, 4);
    QuotientStep(year - 1, 100);
    QuotientStep(year - 1, 400);
    Divides(year, 100, 4);
    Divides(year, 4, 25);
    hide *;
  }

  lemma {:induction false} Divides(n: nat, a: nat, b: nat)
    requires a > 0 && b > 0 && a * b > 0
    ensures n % (a * b) == 0 ==> n % a == 0
  {
    var q := n / (a * b);
    if n % (a * b) == 0 {
      assert n == a * b * q == a * (b * q);
      DivUnique(n, a, b * q, 0);
    }
  }

  lemma {:induction false} QuotientStep(n: nat, k: nat)
    requires k > 1
    ensures (n + 1) / k == n / k + if (n + 1) % k == 0 then 1 else 0
  {
    var q, r := n / k, n % k;
    assert n == k * q + r;
    if r + 1 < k {
      DivUnique(n + 1, k, q, r + 1);
    } else {
      assert n + 1 == k * (q + 1);
      DivUnique(n + 1, k, q + 1, 0);
    }
  }

  /** Microseconds from the beginning of year 1 to the epoch, the beginning of 1970. */
  function SinceYearOne(us: int): int {
    us + DaysBefore(1970) * SECONDS_PER_DAY * 1_000_000
  }

  /** Timestamps are the moments of the years 1 to 9999. */
  lemma {:induction false} InstantsAreYears(us: int)
    ensures InstantInRange(us)
       <==> 0 <= SinceYearOne(us) < DaysBefore(10_000) * SECONDS_PER_DAY * 1_000_000
  {
    assert DaysBefore(1970) == 719_162;
    assert DaysBefore(10_000) == 3_652_059;
  }

  /** Durations are shorter than ten thousand years of 365.25 days and a second, either way. */
  lemma {:induction false} SpansAreYears(us: int)
    ensures SpanInRange(us)
       <==> -(36_525 * 100 * SECONDS_PER_DAY + 1) * 1_000_000 < us < (36_525 * 100 * SECONDS_PER_DAY + 1) * 1_000_000
  {
  }

  /** Timedeltas have less than 10^9 days, either way. */
  lemma {:induction false} TimedeltasAreDays(us: int)
    ensures TimedeltaInRange(us)
       <==> -999_999_999 * SECONDS_PER_DAY * 1_000_000 <= us < 1_000_000_000 * SECONDS_PER_DAY * 1_000_000
  {
  }

  /** Parts count whole seconds since the epoch and the nanoseconds of the rest. */
  lemma {:induction false} PartsCountSeconds(us: int)
    ensures var p := InstantToParts(us);
            1_000 * us == 1_000_000_000 * p.secs + p.nanos && 0 <= p.nanos < 1_000_000_000
    ensures TimedeltaInRange(us) && SpanToParts(us).Ok? ==>
      var p := SpanToParts(us).value;
      && 1_000 * us == 1_000_000_000 * p.secs + p.nanos && -1_000_000_000 < p.nanos < 1_000_000_000
      && (p.secs > 0 ==> p.nanos >= 0) && (p.secs < 0 ==> p.nanos <= 0)
  {
    InstantParts(us);
    assert us == 1_000_000 * (us / 1_000_000) + us % 1_000_000;
    if TimedeltaInRange(us) && SpanToParts(us).Ok? {
      SpanParts(us);
      SpanDigits(us);
    }
  }

  // ------------------------------------------------------------ what is refused

  /** Parts of a Timestamp are refused exactly if the moment lies outside the years 1 to 9999 or
      the nanoseconds are no fraction of a second, and always as out of range. */
  lemma {:induction false} InstantsRefused(p: Parts)
    ensures PartsToInstant(p).Err?
       <==> !(-62_135_596_800 <= p.secs <= 253_402_300_799) || !(0 <= p.nanos <= 999_999_999)
    ensures PartsToInstant(p).Err? ==> PartsToInstant(p) == Err(OutOfRange)
  {
    assert 0 <= p.nanos <= 999_999_999 ==> 0 <= TruncDiv(p.nanos, 1000) <= 999_999;
  }

  /** Parts of a Duration are refused as out of range by their absolute values, which wrap at the
      minimum; the minimum of the seconds is then too long for a timedelta. */
  lemma {:induction false} SpansRefused(p: Parts)
    requires p.Valid()
    ensures PartsToSpan(p) == Err(OutOfRange)
       <==> || (p.secs != -0x8000_0000_0000_0000 && !(-315_576_000_000 <= p.secs <= 315_576_000_000))
            || (p.nanos != -0x8000_0000 && !(-999_999_999 <= p.nanos <= 999_999_999))
    ensures PartsToSpan(p) == Err(TimedeltaOverflow)
       <==> && p.secs == -0x8000_0000_0000_0000
            && (p.nanos == -0x8000_0000 || -999_999_999 <= p.nanos <= 999_999_999)
  {
    TruncFacts(p.nanos, 1000);
    assert -0x8000_0000 <= TruncDiv(p.nanos, 1000) <= 0x8000_0000;
    hide TruncDiv, TruncMod;
  }

  // ----------------------------------------------------------------- on the wire

  /** Seconds are the last varint numbered 1, as 64 bits, nanoseconds the last one numbered 2, cut
      to 32 bits; both are zero where there is none. */
  lemma {:induction false} PartsSay(data: Bytes)
    ensures DecodeParts(data).Ok? <==> ScanAll(data).end.None?
    ensures DecodeParts(data).Ok? ==>
      var p, raws := DecodeParts(data).value, ScanAll(data).raws;
      && p.secs == Signed64(Or(LastVarint(raws, 1), 0)) && p.nanos == Signed32(Or(LastVarint(raws, 2), 0))
  {
    FoldPartsSay(Parts(0, 0), ScanAll(data).raws);
    hide PartsStep, LastVarint, Fold, ScanAll;
  }

  lemma {:induction false} FoldPartsSay(st: Parts, raws: seq<Raw>)
    ensures var s, n := LastVarint(raws, 1), LastVarint(raws, 2);
            Fold(PartsStep, st, raws)
            == Ok(Parts(if s.Some? then Signed64(s.value) else st.secs,
                        if n.Some? then Signed32(n.value) else st.nanos))
    decreases |raws|
  {
    if raws != [] {
      FoldPartsSay(PartsStep(st, raws[0].rec).value, raws[1..]);
    }
  }
}
