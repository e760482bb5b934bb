/**
 Scalars in figures: which values every scalar type takes, which payloads carry them, and
 what stands for nothing at all.
 */
module Scalars {
  import opened Basics
  import opened Wire
  import opened Descriptors
  import opened Utf8
  import opened WellKnown
  import opened Values
  import opened Encoding
  import opened Decoding

  // ------------------------------------------------------------ what fits a type

  /** Values of the Python type and in the range of a scalar type. */
  predicate InRange(s: ScalarType, v: Value) {
    match s
    case Int32 => v.Num? && -0x8000_0000 <= v.n <= 0x7FFF_FFFF
    case SInt32 => v.Num? && -0x8000_0000 <= v.n <= 0x7FFF_FFFF
    case SFixed32 => v.Num? && -0x8000_0000 <= v.n <= 0x7FFF_FFFF
    case Int64 => v.Num? && -0x8000_0000_0000_0000 <= v.n <= 0x7FFF_FFFF_FFFF_FFFF
    case SInt64 => v.Num? && -0x8000_0000_0000_0000 <= v.n <= 0x7FFF_FFFF_FFFF_FFFF
    case SFixed64 => v.Num? && -0x8000_0000_0000_0000 <= v.n <= 0x7FFF_FFFF_FFFF_FFFF
    case UInt32 => v.Num? && 0 <= v.n <= 0xFFFF_FFFF
    case Fixed32 => v.Num? && 0 <= v.n <= 0xFFFF_FFFF
    case UInt64 => v.Num? && 0 <= v.n <= 0xFFFF_FFFF_FFFF_FFFF
    case Fixed64 => v.Num? && 0 <= v.n <= 0xFFFF_FFFF_FFFF_FFFF
    case Float => v.Real? && v.bits <= 0xFFFF_FFFF
    case Double => v.Real? && v.bits <= 0xFFFF_FFFF_FFFF_FFFF
    case Bool => v.Flag?
    case String => v.Text? && |v.utf8| <= 0xFFFF_FFFF_FFFF_FFFF && ValidUtf8(v.utf8)
    case Bytes => v.Blob? && |v.bytes| <= 0xFFFF_FFFF_FFFF_FFFF
  }

  /** Values of the Python type alone. */
  predicate RightType(s: ScalarType, v: Value) {
    match s
    case Bool => v.Flag?
    case Float => v.Real?
    case Double => v.Real?
    case String => v.Text?
    case Bytes => v.Blob?
    case _ => v.Num?
  }

  /** A value is encoded exactly if it fits the type; it is refused as of the wrong type, as text
      that is none, or as out of range. */
  lemma {:induction false} EncodedIsInRange(s: ScalarType, v: Value)
    ensures EncodeScalar(s, v).Ok? <==> InRange(s, v)
    ensures EncodeScalar(s, v) == Err(WrongType) <==> !RightType(s, v)
    ensures EncodeScalar(s, v) == Err(InvalidText) <==> s.String? && v.Text? && !ValidUtf8(v.utf8)
    ensures EncodeScalar(s, v) == Err(Overflow)
       <==> RightType(s, v) && !InRange(s, v) && !(s.String? && !ValidUtf8(v.utf8))
    ensures ScalarTyped(s, v) <==> InRange(s, v)
  {
  }

  // -------------------------------------------------- which payload carries what

  /** The payload stands for the value, by arithmetic: integers modulo the width they are
      truncated to, zigzag by parity, booleans by being nonzero. */
  predicate CarriedBy(s: ScalarType, v: Value, p: Payload) {
    InRange(s, v) &&
    match s
    case Int32 => p.PVarint? && (p.v - v.n) % 0x1_0000_0000 == 0
    case UInt32 => p.PVarint? && (p.v - v.n) % 0x1_0000_0000 == 0
    case Int64 => p.PVarint? && (p.v - v.n) % 0x1_0000_0000_0000_0000 == 0
    case UInt64 => p == PVarint(v.n)
    case SInt32 => p.PVarint? && p.v % 0x1_0000_0000 == if v.n >= 0 then 2 * v.n else -2 * v.n - 1
    case SInt64 => p.PVarint? && p.v == if v.n >= 0 then 2 * v.n else -2 * v.n - 1
    case Bool => p.PVarint? && (v.b <==> p.v != 0)
    case Fixed32 => p == PI32(v.n)
    case SFixed32 => p.PI32? && (p.v - v.n) % 0x1_0000_0000 == 0
    case Float => p == PI32(v.bits)
    case Fixed64 => p == PI64(v.n)
    case SFixed64 => p.PI64? && (p.v - v.n) % 0x1_0000_0000_0000_0000 == 0
    case Double => p == PI64(v.bits)
    case String => p == PLen(v.utf8)
    case Bytes => p == PLen(v.bytes)
  }

  lemma {:induction false} Congruent32(x: int, n: int)
    ensures IsI32(n) ==> (AsI32(x) == n <==> (x - n) % 0x1_0000_0000 == 0)
    ensures IsU32(n) ==> (AsU32(x) == n <==> (x - n) % 0x1_0000_0000 == 0)
  {
    var q, r := x / U32, x % U32;
    assert x == U32 * q + r;
    assert (x - n) % U32 == (r - n) % U32 by {
      ModShift(r - n, q, U32);
      assert x - n == (r - n) + q * U32;
    }
  }

  lemma {:induction false} Congruent64(x: int, n: int)
    ensures IsI64(n) ==> (AsI64(x) == n <==> (x - n) % 0x1_0000_0000_0000_0000 == 0)
  {
    var q, r := x / U64, x % U64;
    assert x == U64 * q + r;
    assert (x - n) % U64 == (r - n) % U64 by {
      ModShift(r - n, q, U64);
      assert x - n == (r - n) + q * U64;
    }
  }

  lemma {:induction false} ModShift(a: int, q: int, m: int)
    requires m > 0
    ensures (a + q * m) % m == a % m
  {
    var t, r := a / m, a % m;
    assert a == m * t + r;
    assert a + q * m == m * (t + q) + r;
    DivUnique(a + q * m, m, t + q, r);
  }

  lemma {:induction false} IntegerIsCarried(s: ScalarType, v: Value, p: Payload)
    requires p.Valid() && p.Wire() == s.Wire() && !s.SInt32? && !s.SInt64? && !s.String?
    ensures DecodeScalar(s, p) == Ok(v) <==> CarriedBy(s, v, p)
    ensures DecodeScalar(s, p).Ok?
  {
    if v.Num? && !p.PLen? {
      Congruent32(p.v, v.n);
      Congruent64(p.v, v.n);
    }
  }

  lemma {:induction false} ZigzagIsCarried(s: ScalarType, v: Value, p: Payload)
    requires p.Valid() && p.PVarint? && (s.SInt32? || s.SInt64?)
    ensures DecodeScalar(s, p) == Ok(v) <==> CarriedBy(s, v, p)
    ensures DecodeScalar(s, p).Ok?
  {
    ZigzagDecodes(AsU32(p.v));
    ZigzagDecodes(p.v);
    assert AsU64(p.v) == p.v;
    if v.Num? {
      Unzigzagged(v.n);
      Rezigzagged(AsU32(p.v));
      Rezigzagged(p.v);
    }
    hide ZigzagDecode32, ZigzagDecode64;
  }

  lemma {:induction false} Rezigzagged(x: nat)
    ensures Zigzag(Unzigzag(x)) == x
  {
  }

  /** A payload of the type's own wire form decodes to exactly the value it carries; only text
      can fail. */
  lemma {:induction false} DecodedIsCarried(s: ScalarType, v: Value, p: Payload)
    requires p.Valid() && p.Wire() == s.Wire()
    ensures DecodeScalar(s, p) == Ok(v) <==> CarriedBy(s, v, p)
    ensures DecodeScalar(s, p).Err? ==> s.String? && DecodeScalar(s, p) == Err(InvalidText) && !ValidUtf8(p.data)
  {
    if s.SInt32? || s.SInt64? {
      ZigzagIsCarried(s, v, p);
    } else if !s.String? {
      IntegerIsCarried(s, v, p);
    }
  }

  // ------------------------------------------------------------------------- lists

  /** Numbers, booleans and enums. */
  predicate Numeric(kind: ValueKind) {
    kind.Enum? || (kind.Scalar? && kind.scalar != String && kind.scalar != ScalarType.Bytes)
  }

  /** A list of numbers is written as one length-delimited record at most, any other list as one
      record for each element. */
  lemma {:induction false} ListsOfNumbersArePacked(W: World, f: FieldDescriptor, vs: seq<Value>, depth: nat)
    requires depth <= MAX_DEPTH && f.kind.Plain? && f.cardinality == Repeated
    requires EncodeField(W, f, Many(vs), depth).Ok?
    ensures var recs := EncodeField(W, f, Many(vs), depth).value;
            && (forall i :: 0 <= i < |recs| ==> recs[i].number == f.number)
            && (if Numeric(f.kind.value) then |recs| <= 1 && (recs != [] ==> recs[0].payload.PLen?)
                else |recs| == |vs|)
  {
    if !Numeric(f.kind.value) {
      EachIsOne(W, f.number, f.kind.value, vs, depth);
    }
    hide EncodePacked, EncodeEach;
  }

  lemma {:induction false} EachIsOne(W: World, number: nat, kind: ValueKind, vs: seq<Value>, depth: nat)
    requires depth <= MAX_DEPTH && EncodeEach(W, number, kind, vs, depth).Ok?
    ensures var recs := EncodeEach(W, number, kind, vs, depth).value;
            |recs| == |vs| && forall i :: 0 <= i < |recs| ==> recs[i].number == number
    decreases |vs|
  {
    hide EncodeValue;
    if vs != [] {
      EachIsOne(W, number, kind, vs[1..], depth);
    }
  }

  /** The wire types a field takes: that of its values, length-delimited for maps, and both for
      lists of numbers. */
  lemma {:induction false} FieldAccepts(f: FieldDescriptor, wire: WireType)
    ensures f.Accepts(wire) <==>
      if f.kind.Map? then wire == Len
      else wire == WireOf(f.kind.value) || (wire == Len && f.cardinality == Repeated && Numeric(f.kind.value))
  {
  }

  function WireOf(kind: ValueKind): WireType {
    if kind.Scalar? then
      if kind.scalar in [Double, Fixed64, SFixed64] then I64
      else if kind.scalar in [Float, Fixed32, SFixed32] then I32
      else if kind.scalar in [String, ScalarType.Bytes] then Len
      else Varint
    else if kind.Enum? then Varint
    else Len
  }
}
