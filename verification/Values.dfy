/** Message values as the codec sees them, and the classes they belong to. */
module Values {
  import opened Basics
  import opened Wire
  import opened Descriptors
  import opened FieldIndexing
  import opened WellKnown
  import opened Utf8

  type ClassId = nat

  /** One Python value.  Floats are bit patterns of the field's width, text is its UTF-8
      form, times are microsecond counts, enum members are their numbers. */
  datatype Value =
    | Num(n: int)
    | Flag(b: bool)
    | Real(bits: nat)
    | Text(utf8: Bytes)
    | Blob(bytes: Bytes)
    | Instant(micros: int)
    | Span(micros: int)
    | Nested(m: Msg)

  datatype Pair = Pair(key: Value, value: Value)

  /** What an attribute of an instance holds: `None`, one value, a list or a dict. */
  datatype Slot =
    | Unset
    | One(v: Value)
    | Many(vs: seq<Value>)
    | Dict(entries: seq<Pair>)

  /** A message instance: its class, one slot per field in declaration order, and the
      preserved bytes of unknown fields. */
  datatype Msg = Msg(cls: ClassId, slots: seq<Slot>, unknown: Bytes)

  datatype CodecError =
    | Malformed(wire: WireError)
    | NestingTooDeep
    | InvalidText
    | BadTime(time: TimeError)
    | NotLinked
    | NotAMessage
    | WrongType
    | Overflow
    | OneofConflict(group: Name, count: nat)

  type Outcome<T> = Result<T, CodecError>

  /** The class a field reference was resolved to. */
  datatype Target = MessageClass(cls: ClassId) | EnumClass

  /** A message class: its descriptor, the lookup compiled from it and, once linked, its
      resolved references. */
  datatype ClassInfo = ClassInfo(desc: MessageDescriptor, index: FieldIndex, refs: Option<map<nat, Target>>) {
    function Link(number: nat): Option<Target> {
      if refs.Some? && number in refs.value then Some(refs.value[number]) else None
    }
  }

  type World = map<ClassId, ClassInfo>

  /** The lookup agrees with a scan over the declared fields. */
  ghost predicate IndexOk(C: ClassInfo) {
    forall number: nat :: C.index.Get(number) == Lookup(C.desc.fields, number)
  }

  /** Every class was compiled from a parsed descriptor and references only existing classes. */
  ghost predicate WorldOk(W: World) {
    forall c <- W ::
      && WellFormed(W[c].desc) && IndexOk(W[c])
      && forall n: nat :: W[c].Link(n).Some? && W[c].Link(n).value.MessageClass? ==> W[c].Link(n).value.cls in W
  }

  /** The implicit default of a proto3 scalar. */
  function ZeroScalar(s: ScalarType): Value {
    match s
    case Double => Real(0)
    case Float => Real(0)
    case Bool => Flag(false)
    case String => Text([])
    case Bytes => Blob([])
    case _ => Num(0)
  }

  function ZeroOf(k: ValueKind): Value {
    match k
    case Scalar(s) => ZeroScalar(s)
    case _ => Num(0)
  }

  /** Values of Python's type for `s` that fit its wire form. */
  predicate ScalarTyped(s: ScalarType, v: Value) {
    match s
    case Double => v.Real? && IsU64(v.bits)
    case Float => v.Real? && IsU32(v.bits)
    case Int32 => v.Num? && IsI32(v.n)
    case SInt32 => v.Num? && IsI32(v.n)
    case SFixed32 => v.Num? && IsI32(v.n)
    case Int64 => v.Num? && IsI64(v.n)
    case SInt64 => v.Num? && IsI64(v.n)
    case SFixed64 => v.Num? && IsI64(v.n)
    case UInt32 => v.Num? && IsU32(v.n)
    case Fixed32 => v.Num? && IsU32(v.n)
    case UInt64 => v.Num? && IsU64(v.n)
    case Fixed64 => v.Num? && IsU64(v.n)
    case Bool => v.Flag?
    case String => v.Text? && IsU64(|v.utf8|) && ValidUtf8(v.utf8)
    case Bytes => v.Blob? && IsU64(|v.bytes|)
  }

  predicate DistinctKeys(es: seq<Pair>) {
    forall i, j :: 0 <= i < j < |es| ==> es[i].key != es[j].key
  }

  /** `dict[k] = v`: an existing key keeps its place. */
  function Put(es: seq<Pair>, k: Value, v: Value): seq<Pair> {
    if es == [] then [Pair(k, v)]
    else if es[0].key == k then [Pair(k, v)] + es[1..]
    else [es[0]] + Put(es[1..], k, v)
  }

  /** A key that is there gets the new value in its place, a new one goes to the end; no other
      pair changes. */
  lemma {:induction false} PutIsAssignment(es: seq<Pair>, k: Value, v: Value, i: nat)
    requires i <= |es| && forall j :: 0 <= j < i ==> es[j].key != k
    requires i < |es| ==> es[i].key == k
    ensures Put(es, k, v) == if i < |es| then es[i := Pair(k, v)] else es + [Pair(k, v)]
  {
    if i > 0 {
      PutIsAssignment(es[1..], k, v, i - 1);
    }
  }
}
