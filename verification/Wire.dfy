/**
 Protobuf wire format as pure functions: what a reader finds at the front of a byte
 sequence and what a writer appends.  `WireIO` holds the classes that do the same work
 step by step on a cursor and on a growing buffer.
 */
module Wire {
  import opened Basics

  datatype WireType = Varint | I64 | Len | I32 {
    /** The low three bits of a tag. */
    function Code(): nat {
      match this
      case Varint => 0
      case I64 => 1
      case Len => 2
      case I32 => 5
    }
  }

  function WireTypeFrom(code: nat): Option<WireType> {
    if code == 0 then Some(Varint)
    else if code == 1 then Some(I64)
    else if code == 2 then Some(Len)
    else if code == 5 then Some(I32)
    else None
  }

  datatype WireError =
    | UnexpectedEof
    | VarintOverflow
    | InvalidWireType(code: nat)
    | InvalidLength
    | InvalidFieldNumber(number: nat)

  const MAX_FIELD_NUMBER: int := 0x1FFF_FFFF

  /** A value found at the front of the input and the number of bytes it took. */
  datatype Read<+T> = Got(value: T, used: nat) | Bad(error: WireError)

  // ---------------------------------------------------------------- varints

  /** How many bytes with a continuation bit stand at the front of `s`. */
  function Continuation(s: Bytes): (n: nat)
    ensures n <= |s|
    ensures n < |s| ==> s[n] < 128
    ensures forall i :: 0 <= i < n ==> s[i] >= 128
  {
    if s == [] || s[0] < 128 then 0 else 1 + Continuation(s[1..])
  }

  /** The little-endian base-128 number made of the low seven bits of each byte. */
  function Base128(s: Bytes): nat {
    if s == [] then 0 else s[0] % 128 + 128 * Base128(s[1..])
  }

  function ReadVarint(s: Bytes): (r: Read<nat>)
    ensures r.Got? ==> 0 < r.used <= |s| && IsU64(r.value)
  {
    var n := Continuation(s);
    if n >= 10 then Bad(VarintOverflow)
    else if n == |s| then Bad(UnexpectedEof)
    else Got(Base128(s[..n + 1]) % U64, n + 1)
  }

  function WriteVarint(v: nat): (s: Bytes)
    ensures |s| > 0
  {
    if v < 128 then [v] else [v % 128 + 128] + WriteVarint(v / 128)
  }

  function Pow128(k: nat): (p: nat)
    ensures p > 0
  {
    if k == 0 then 1 else 128 * Pow128(k - 1)
  }

  lemma {:induction false} WriteVarintWidth(v: nat, k: nat)
    requires k > 0 && v < Pow128(k)
    ensures |WriteVarint(v)| <= k
  {
    if v >= 128 {
      assert k > 1 by {
        assert Pow128(1) == 128 * Pow128(0);
      }
      assert v / 128 < Pow128(k - 1);
      WriteVarintWidth(v / 128, k - 1);
    }
  }

  lemma U64FitsTenBytes(v: nat)
    requires IsU64(v)
    ensures |WriteVarint(v)| <= 10
  {
    assert Pow128(2) == 0x4000;
    assert Pow128(4) == 128 * (128 * Pow128(2)) == 0x1000_0000;
    assert Pow128(6) == 128 * (128 * Pow128(4)) == 0x400_0000_0000;
    assert Pow128(8) == 128 * (128 * Pow128(6)) == 0x100_0000_0000_0000;
    assert Pow128(10) == 128 * (128 * Pow128(8)) > U64;
    WriteVarintWidth(v, 10);
  }

  lemma {:induction false} ContinuationOfWritten(v: nat, rest: Bytes)
    ensures Continuation(WriteVarint(v) + rest) == |WriteVarint(v)| - 1
  {
    var w := WriteVarint(v);
    if v >= 128 {
      assert (w + rest)[1..] == WriteVarint(v / 128) + rest;
      ContinuationOfWritten(v / 128, rest);
    }
  }

  lemma {:induction false} Base128OfWritten(v: nat)
    ensures Base128(WriteVarint(v)) == v
  {
    var w := WriteVarint(v);
    if v >= 128 {
      assert w[1..] == WriteVarint(v / 128);
      assert w[0] % 128 == v % 128;
      Base128OfWritten(v / 128);
    } else {
      assert w[1..] == [];
    }
  }

  /** Reading back what was written gives the value and stops right behind it. */
  lemma VarintRoundTrip(v: nat, rest: Bytes)
    requires IsU64(v)
    ensures ReadVarint(WriteVarint(v) + rest) == Got(v, |WriteVarint(v)|)
  {
    var w := WriteVarint(v);
    ContinuationOfWritten(v, rest);
    U64FitsTenBytes(v);
    Base128OfWritten(v);
    assert (w + rest)[..|w|] == w;
  }

  /** A run of at most ten bytes whose last byte, and only that one, has no continuation bit. */
  predicate VarintRun(s: Bytes, n: nat) {
    1 <= n <= 10 && n <= |s| && s[n - 1] < 128 && forall i :: 0 <= i < n - 1 ==> s[i] >= 128
  }

  /** A reader accepts exactly such runs, and its value is the sum of their digits, each the
      low seven bits times its power of 128, modulo 2^64. */
  lemma {:induction false} ReadVarintAccepts(s: Bytes, n: nat)
    ensures (ReadVarint(s).Got? && ReadVarint(s).used == n) <==> VarintRun(s, n)
    ensures VarintRun(s, n) ==> ReadVarint(s) == Got(DigitSum(s, n) % U64, n)
  {
    if VarintRun(s, n) {
      var c := Continuation(s);
      assert c <= n - 1;
      assert c >= n - 1;
      DigitSumIsBase128(s, n);
    }
  }

  /** The sum over i of (s[i] & 0x7f) * 128^i. */
  function DigitSum(s: Bytes, n: nat): nat
    requires n <= |s|
  {
    if n == 0 then 0 else DigitSum(s, n - 1) + s[n - 1] % 128 * Pow128(n - 1)
  }

  lemma {:induction false} DigitSumIsBase128(s: Bytes, n: nat)
    requires n <= |s|
    ensures DigitSum(s, n) == Base128(s[..n])
  {
    if n > 0 {
      DigitSumIsBase128(s, n - 1);
      assert s[..n] == s[..n - 1] + [s[n - 1]];
      Base128Snoc(s[..n - 1], s[n - 1]);
    }
  }

  lemma {:induction false} Base128Snoc(s: Bytes, b: byte)
    ensures Base128(s + [b]) == Base128(s) + b % 128 * Pow128(|s|)
  {
    if s == [] {
      assert ([] + [b])[1..] == [];
    } else {
      assert (s + [b])[1..] == s[1..] + [b];
      Base128Snoc(s[1..], b);
      assert 128 * (b % 128 * Pow128(|s| - 1)) == b % 128 * (128 * Pow128(|s| - 1));
    }
  }

  lemma {:induction false} WidthGrows(v: nat, w: nat)
    requires v <= w
    ensures |WriteVarint(v)| <= |WriteVarint(w)|
  {
    if v >= 128 {
      WidthGrows(v / 128, w / 128);
    }
  }

  lemma {:induction false} DigitsAreShortest(s: Bytes)
    requires s != []
    ensures |WriteVarint(Base128(s))| <= |s|
  {
    var v := Base128(s);
    if |s| == 1 {
      assert s[1..] == [];
    } else if v >= 128 {
      assert v / 128 == Base128(s[1..]);
      DigitsAreShortest(s[1..]);
    }
  }

  /** No accepted encoding of a value is shorter than the written one, not even one whose
      tenth byte runs over the 64 bits. */
  lemma {:induction false} WriteVarintIsShortest(s: Bytes)
    requires ReadVarint(s).Got?
    ensures |WriteVarint(ReadVarint(s).value)| <= ReadVarint(s).used
  {
    var run := s[..ReadVarint(s).used];
    WidthGrows(Base128(run) % U64, Base128(run));
    DigitsAreShortest(run);
  }

  /** Bits needed for `v`, at least one: 64 minus the leading zeros of `v | 1`. */
  function BitLength(v: nat): nat {
    if v < 2 then 1 else 1 + BitLength(v / 2)
  }

  function VarintLen(v: nat): nat {
    (BitLength(v) + 6) / 7
  }

  lemma BitLengthBy128(v: nat)
    requires v >= 128
    ensures BitLength(v) == 7 + BitLength(v / 128)
  {
    var a, b, c := v / 2, v / 4, v / 8;
    assert b == a / 2 && c == b / 2;
    var d, e, f := v / 16, v / 32, v / 64;
    assert d == c / 2 && e == d / 2 && f == e / 2;
    assert v / 128 == f / 2;
    assert BitLength(v) == 1 + BitLength(a) && BitLength(a) == 1 + BitLength(b);
    assert BitLength(b) == 1 + BitLength(c) && BitLength(c) == 1 + BitLength(d);
    assert BitLength(d) == 1 + BitLength(e) && BitLength(e) == 1 + BitLength(f);
  }

  /** `varint_len` counts exactly the bytes `write_varint` emits. */
  lemma {:induction false} VarintLenIsExact(v: nat)
    ensures VarintLen(v) == |WriteVarint(v)|
  {
    if v >= 128 {
      BitLengthBy128(v);
      VarintLenIsExact(v / 128);
    } else {
      assert BitLength(v) <= 7 by {
        var a, b, c := v / 2, v / 4, v / 8;
        var d, e, f := v / 16, v / 32, v / 64;
        assert b == a / 2 && c == b / 2 && d == c / 2 && e == d / 2 && f == e / 2 && f < 2;
        assert BitLength(d) <= 3;
        assert BitLength(b) <= 5;
      }
    }
  }

  // ------------------------------------------------------------ fixed width

  function LittleEndian(v: nat, k: nat): (s: Bytes)
    ensures |s| == k
  {
    if k == 0 then [] else [v % 256] + LittleEndian(v / 256, k - 1)
  }

  function FromLittleEndian(s: Bytes): nat {
    if s == [] then 0 else s[0] + 256 * FromLittleEndian(s[1..])
  }

  function Pow256(k: nat): (p: nat)
    ensures p > 0
  {
    if k == 0 then 1 else 256 * Pow256(k - 1)
  }

  lemma Pow256Values()
    ensures Pow256(4) == U32 && Pow256(8) == U64
  {
    assert Pow256(2) == 256 * (256 * Pow256(0)) == 0x1_0000;
    assert Pow256(4) == 256 * (256 * Pow256(2)) == U32;
    assert Pow256(6) == 256 * (256 * Pow256(4)) == 0x1_0000_0000_0000;
    assert Pow256(8) == 256 * (256 * Pow256(6)) == U64;
  }

  lemma {:induction false} LittleEndianRoundTrip(v: nat, k: nat)
    requires v < Pow256(k)
    ensures FromLittleEndian(LittleEndian(v, k)) == v
  {
    if k > 0 {
      var w := LittleEndian(v, k);
      assert w[1..] == LittleEndian(v / 256, k - 1);
      LittleEndianRoundTrip(v / 256, k - 1);
    }
  }

  lemma {:induction false} FromLittleEndianBound(s: Bytes)
    ensures FromLittleEndian(s) < Pow256(|s|)
  {
    if s != [] {
      FromLittleEndianBound(s[1..]);
    }
  }

  function ReadFixed(s: Bytes, k: nat): (r: Read<nat>)
    ensures r.Got? ==> r.used == k <= |s| && r.value < Pow256(k)
  {
    if |s| < k then Bad(UnexpectedEof)
    else
      FromLittleEndianBound(s[..k]);
      Got(FromLittleEndian(s[..k]), k)
  }

  // ------------------------------------------------- length-delimited, tags

  function ReadLenDelimited(s: Bytes): (r: Read<Bytes>)
    ensures r.Got? ==> 0 < r.used <= |s| && |r.value| < r.used && IsU64(|r.value|)
  {
    match ReadVarint(s)
    case Bad(e) => Bad(e)
    case Got(len, n) =>
      if n + len > |s| then Bad(InvalidLength) else Got(s[n..n + len], n + len)
  }

  function WriteLenDelimited(data: Bytes): Bytes {
    WriteVarint(|data|) + data
  }

  datatype Tag = Tag(number: nat, wire: WireType)

  predicate ValidNumber(number: nat) {
    1 <= number <= MAX_FIELD_NUMBER
  }

  function ReadTag(s: Bytes): (r: Read<Tag>)
    ensures r.Got? ==> 0 < r.used <= |s| && ValidNumber(r.value.number)
  {
    match ReadVarint(s)
    case Bad(e) => Bad(e)
    case Got(key, n) =>
      match WireTypeFrom(key % 8)
      case None => Bad(InvalidWireType(key % 8))
      case Some(wire) =>
        if !ValidNumber(key / 8) then Bad(InvalidFieldNumber(key / 8)) else Got(Tag(key / 8, wire), n)
  }

  function WriteTag(number: nat, wire: WireType): (s: Bytes)
    ensures |s| > 0
  {
    WriteVarint(number * 8 + wire.Code())
  }

  // ---------------------------------------------------------------- records

  /** What follows a tag. */
  datatype Payload =
    | PVarint(v: nat)
    | PI64(v: nat)
    | PI32(v: nat)
    | PLen(data: Bytes)
  {
    function Wire(): WireType {
      match this
      case PVarint(_) => Varint
      case PI64(_) => I64
      case PI32(_) => I32
      case PLen(_) => Len
    }

    predicate Valid() {
      match this
      case PVarint(v) => IsU64(v)
      case PI64(v) => IsU64(v)
      case PI32(v) => IsU32(v)
      case PLen(data) => IsU64(|data|)
    }

    function Bytes(): Bytes {
      match this
      case PVarint(v) => WriteVarint(v)
      case PI64(v) => LittleEndian(v, 8)
      case PI32(v) => LittleEndian(v, 4)
      case PLen(data) => WriteLenDelimited(data)
    }
  }

  function ReadPayload(wire: WireType, s: Bytes): (r: Read<Payload>)
    ensures r.Got? ==> 0 < r.used <= |s| && r.value.Wire() == wire && r.value.Valid()
  {
    match wire
    case Varint => (match ReadVarint(s) case Bad(e) => Bad(e) case Got(v, n) => Got(PVarint(v), n))
    case I64 =>
      Pow256Values();
      (match ReadFixed(s, 8) case Bad(e) => Bad(e) case Got(v, n) => Got(PI64(v), n))
    case I32 =>
      Pow256Values();
      (match ReadFixed(s, 4) case Bad(e) => Bad(e) case Got(v, n) => Got(PI32(v), n))
    case Len => (match ReadLenDelimited(s) case Bad(e) => Bad(e) case Got(d, n) => Got(PLen(d), n))
  }

  lemma FixedRoundTrip(v: nat, k: nat, rest: Bytes)
    requires v < Pow256(k)
    ensures ReadFixed(LittleEndian(v, k) + rest, k) == Got(v, k)
  {
    LittleEndianRoundTrip(v, k);
    assert (LittleEndian(v, k) + rest)[..k] == LittleEndian(v, k);
  }

  lemma LenDelimitedRoundTrip(data: Bytes, rest: Bytes)
    requires IsU64(|data|)
    ensures ReadLenDelimited(WriteLenDelimited(data) + rest) == Got(data, |WriteLenDelimited(data)|)
  {
    var n := WriteVarint(|data|);
    VarintRoundTrip(|data|, data + rest);
    assert WriteLenDelimited(data) + rest == n + (data + rest);
    assert (n + (data + rest))[|n|..|n| + |data|] == data;
  }

  lemma PayloadRoundTrip(p: Payload, rest: Bytes)
    requires p.Valid()
    ensures ReadPayload(p.Wire(), p.Bytes() + rest) == Got(p, |p.Bytes()|)
  {
    match p
    case PVarint(v) => VarintRoundTrip(v, rest);
    case PI64(v) =>
      Pow256Values();
      FixedRoundTrip(v, 8, rest);
    case PI32(v) =>
      Pow256Values();
      FixedRoundTrip(v, 4, rest);
    case PLen(data) => LenDelimitedRoundTrip(data, rest);
  }

  datatype Record = Record(number: nat, payload: Payload) {
    predicate Valid() {
      ValidNumber(number) && payload.Valid()
    }

    function Bytes(): (s: Bytes)
      ensures |s| > 0
    {
      WriteTag(number, payload.Wire()) + payload.Bytes()
    }
  }

  function ReadRecord(s: Bytes): (r: Read<Record>)
    ensures r.Got? ==> 0 < r.used <= |s| && r.value.Valid()
  {
    match ReadTag(s)
    case Bad(e) => Bad(e)
    case Got(tag, n) =>
      match ReadPayload(tag.wire, s[n..])
      case Bad(e) => Bad(e)
      case Got(p, k) => Got(Record(tag.number, p), n + k)
  }

  lemma TagRoundTrip(number: nat, wire: WireType, rest: Bytes)
    requires ValidNumber(number)
    ensures ReadTag(WriteTag(number, wire) + rest) == Got(Tag(number, wire), |WriteTag(number, wire)|)
  {
    var key := number * 8 + wire.Code();
    VarintRoundTrip(key, rest);
    assert key / 8 == number && key % 8 == wire.Code();
  }

  /** A written record is the record found at the front of any stream it starts. */
  lemma RecordRoundTrip(r: Record, rest: Bytes)
    requires r.Valid()
    ensures ReadRecord(r.Bytes() + rest) == Got(r, |r.Bytes()|)
  {
    var t := WriteTag(r.number, r.payload.Wire());
    var p := r.payload.Bytes();
    assert r.Bytes() + rest == t + (p + rest);
    TagRoundTrip(r.number, r.payload.Wire(), p + rest);
    PayloadRoundTrip(r.payload, rest);
    assert (t + (p + rest))[|t|..] == p + rest;
  }

  // ------------------------------------------------------- the layout in figures

  /** Tags are the varints from 8 up to 2^32 whose low three bits are 0, 1, 2 or 5; these bits
      say what follows, the rest is the field number.  Other low bits are refused first. */
  lemma {:induction false} TagsAccepted(s: Bytes)
    ensures ReadVarint(s).Bad? ==> ReadTag(s) == Bad(ReadVarint(s).error)
    ensures ReadVarint(s).Got? ==>
      var Got(v, n) := ReadVarint(s);
      && (ReadTag(s).Got? <==> 8 <= v < 0x1_0000_0000 && (v % 8 == 0 || v % 8 == 1 || v % 8 == 2 || v % 8 == 5))
      && (ReadTag(s).Got? ==>
            ReadTag(s) == Got(Tag(v / 8, if v % 8 == 0 then Varint else if v % 8 == 1 then I64
                                         else if v % 8 == 2 then Len else I32), n))
      && (v % 8 == 3 || v % 8 == 4 || v % 8 == 6 || v % 8 == 7 ==> ReadTag(s) == Bad(InvalidWireType(v % 8)))
      && ((v % 8 == 0 || v % 8 == 1 || v % 8 == 2 || v % 8 == 5) && !(8 <= v < 0x1_0000_0000) ==>
            ReadTag(s) == Bad(InvalidFieldNumber(v / 8)))
  {
  }

  /** Four digits of base 256, the lowest first. */
  function Word(a: int, b: int, c: int, d: int): int {
    a + 0x100 * b + 0x1_0000 * c + 0x100_0000 * d
  }

  /** Fixed-width numbers are four and eight bytes long, the least significant byte first. */
  lemma {:induction false} FixedLayout(s: Bytes)
    ensures ReadPayload(I32, s) ==
      if |s| < 4 then Bad(UnexpectedEof)
      else Got(PI32(Word(s[0], s[1], s[2], s[3])), 4)
    ensures ReadPayload(I64, s) ==
      if |s| < 8 then Bad(UnexpectedEof)
      else Got(PI64(Word(s[0], s[1], s[2], s[3]) + 0x1_0000_0000 * Word(s[4], s[5], s[6], s[7])), 8)
  {
    if |s| >= 4 {
      var f := s[..4];
      FourBytes(f);
      assert f[4..] == [];
      assert f[0] == s[0] && f[1] == s[1] && f[2] == s[2] && f[3] == s[3];
    }
    if |s| >= 8 {
      var f := s[..8];
      EightBytes(f);
      assert f[0] == s[0] && f[1] == s[1] && f[2] == s[2] && f[3] == s[3];
      assert f[4] == s[4] && f[5] == s[5] && f[6] == s[6] && f[7] == s[7];
    }
  }

  lemma {:induction false} FourBytes(s: Bytes)
    requires |s| >= 4
    ensures FromLittleEndian(s) == Word(s[0], s[1], s[2], s[3]) + 0x1_0000_0000 * FromLittleEndian(s[4..])
  {
    var a, b, c, d := s[1..], s[2..], s[3..], s[4..];
    assert a[1..] == b && b[1..] == c && c[1..] == d;
    assert FromLittleEndian(s) == s[0] + 256 * FromLittleEndian(a);
    assert FromLittleEndian(a) == s[1] + 256 * FromLittleEndian(b);
    assert FromLittleEndian(b) == s[2] + 256 * FromLittleEndian(c);
    assert FromLittleEndian(c) == s[3] + 256 * FromLittleEndian(d);
  }

  lemma {:induction false} EightBytes(s: Bytes)
    requires |s| == 8
    ensures FromLittleEndian(s) == Word(s[0], s[1], s[2], s[3]) + 0x1_0000_0000 * Word(s[4], s[5], s[6], s[7])
  {
    FourBytes(s);
    FourBytes(s[4..]);
    assert s[4..][4..] == [];
  }

  // -------------------------------------------------------- prefix stability

  /** `t` starts with the `n` bytes `s` starts with. */
  predicate AgreeOn(s: Bytes, t: Bytes, n: nat) {
    n <= |s| && n <= |t| && s[..n] == t[..n]
  }

  lemma {:induction false} ContinuationIsLocal(s: Bytes, t: Bytes)
    requires Continuation(s) < |s| && AgreeOn(s, t, Continuation(s) + 1)
    ensures Continuation(t) == Continuation(s)
  {
    var n := Continuation(s);
    assert t[n] == t[..n + 1][n] == s[..n + 1][n] == s[n];
    forall i | 0 <= i < n
      ensures t[i] == s[i]
    {
      assert t[i] == t[..n + 1][i] == s[..n + 1][i];
    }
    var m := Continuation(t);
    assert m >= n;
    assert m <= n;
  }

  /** Every reader result depends only on the bytes it consumed. */
  lemma ReadVarintIsLocal(s: Bytes, t: Bytes)
    requires ReadVarint(s).Got? && AgreeOn(s, t, ReadVarint(s).used)
    ensures ReadVarint(t) == ReadVarint(s)
  {
    ContinuationIsLocal(s, t);
  }

  lemma ReadPayloadIsLocal(wire: WireType, s: Bytes, t: Bytes)
    requires ReadPayload(wire, s).Got? && AgreeOn(s, t, ReadPayload(wire, s).used)
    ensures ReadPayload(wire, t) == ReadPayload(wire, s)
  {
    match wire
    case Varint => ReadVarintIsLocal(s, t);
    case I64 =>
    case I32 =>
    case Len =>
      var Got(len, n) := ReadVarint(s);
      var k := n + len;
      assert AgreeOn(s, t, n) by {
        assert s[..k][..n] == s[..n] && t[..k][..n] == t[..n];
      }
      ReadVarintIsLocal(s, t);
      assert s[..k][n..] == s[n..k] && t[..k][n..] == t[n..k];
  }

  lemma ReadTagIsLocal(s: Bytes, t: Bytes)
    requires ReadTag(s).Got? && AgreeOn(s, t, ReadTag(s).used)
    ensures ReadTag(t) == ReadTag(s)
  {
    ReadVarintIsLocal(s, t);
  }

  lemma ReadRecordIsLocal(s: Bytes, t: Bytes)
    requires ReadRecord(s).Got? && AgreeOn(s, t, ReadRecord(s).used)
    ensures ReadRecord(t) == ReadRecord(s)
  {
    var Got(tag, n) := ReadTag(s);
    var Got(p, k) := ReadPayload(tag.wire, s[n..]);
    assert AgreeOn(s, t, n) by {
      assert s[..n + k][..n] == s[..n] && t[..n + k][..n] == t[..n];
    }
    ReadTagIsLocal(s, t);
    assert AgreeOn(s[n..], t[n..], k) by {
      assert s[n..][..k] == s[..n + k][n..] && t[n..][..k] == t[..n + k][n..];
    }
    ReadPayloadIsLocal(tag.wire, s[n..], t[n..]);
  }

  // ----------------------------------------------------------------- zigzag

  /** `m ^ mask` on words of `width` values, where the mask has no bit set or all of them. */
  function XorMask(m: nat, all: bool, width: nat): nat
    requires m < width
  {
    if all then width - 1 - m else m
  }

  /** `((value << 1) ^ (value >> 31)) as u32`: the shift drops the top bit, the arithmetic
      shift spreads the sign over the word. */
  function ZigzagEncode32(value: int): (r: nat)
    ensures IsU32(r)
  {
    XorMask(AsU32(2 * value), value < 0, U32)
  }

  /** `((value >> 1) as i32) ^ -((value & 1) as i32)` */
  function ZigzagDecode32(value: nat): (r: int)
    requires IsU32(value)
    ensures IsI32(r)
  {
    AsI32(XorMask(value / 2, value % 2 == 1, U32))
  }

  /** `((value << 1) ^ (value >> 63)) as u64` */
  function ZigzagEncode64(value: int): (r: nat)
    ensures IsU64(r)
  {
    XorMask(AsU64(2 * value), value < 0, U64)
  }

  /** `((value >> 1) as i64) ^ -((value & 1) as i64)` */
  function ZigzagDecode64(value: nat): (r: int)
    requires IsU64(value)
    ensures IsI64(r)
  {
    AsI64(XorMask(value / 2, value % 2 == 1, U64))
  }

  /** The numbering of the Encoding guide: 0, -1, 1, -2, 2, ... */
  function Zigzag(n: int): nat {
    if n >= 0 then 2 * n else -2 * n - 1
  }

  function Unzigzag(v: nat): int {
    if v % 2 == 0 then v / 2 else -(v / 2) - 1
  }

  lemma Unzigzagged(n: int)
    ensures Unzigzag(Zigzag(n)) == n
  {
    if n >= 0 {
      assert (2 * n) / 2 == n && (2 * n) % 2 == 0;
    } else {
      assert (-2 * n - 1) % 2 == 1 && (-2 * n - 1) / 2 == -n - 1;
    }
  }

  lemma WrapsOnce(n: int, width: int)
    requires width > 0 && -width <= n < 0
    ensures n % width == n + width
  {
  }

  /** The shifts and the mask compute this numbering on the signed values of the width. */
  lemma ZigzagEncodes(n: int)
    ensures IsI32(n) ==> ZigzagEncode32(n) == Zigzag(n)
    ensures IsI64(n) ==> ZigzagEncode64(n) == Zigzag(n)
  {
    if n < 0 {
      if IsI32(n) {
        WrapsOnce(2 * n, U32);
      }
      if IsI64(n) {
        WrapsOnce(2 * n, U64);
      }
    }
  }

  /** And back. */
  lemma ZigzagDecodes(v: nat)
    ensures IsU32(v) ==> ZigzagDecode32(v) == Unzigzag(v)
    ensures IsU64(v) ==> ZigzagDecode64(v) == Unzigzag(v)
  {
  }

  /** Both pairs are inverse bijections between the signed and the unsigned integers of
      their width. */
  lemma ZigzagIsBijective(n: int, v: nat)
    ensures IsI32(n) ==> ZigzagDecode32(ZigzagEncode32(n)) == n
    ensures IsI64(n) ==> ZigzagDecode64(ZigzagEncode64(n)) == n
    ensures IsU32(v) ==> ZigzagEncode32(ZigzagDecode32(v)) == v
    ensures IsU64(v) ==> ZigzagEncode64(ZigzagDecode64(v)) == v
  {
    Unzigzagged(n);
    ZigzagEncodes(n);
    ZigzagDecodes(Zigzag(n));
    ZigzagDecodes(v);
    ZigzagEncodes(Unzigzag(v));
  }
}
