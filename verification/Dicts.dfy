/**
 Conversion of messages to native dicts and back.  Python objects appear as they look at
 run time: enum members are told apart from the raw numbers they compare equal to.
 */
module Dicts {
  import opened Basics
  import opened Descriptors
  import opened Values
  import opened Typing
  import opened Construction
  import opened EnumTables

  /** A member of an `IntEnum`: its class and its number. */
  datatype PyMember = PyMember(enum: nat, number: int)

  type Members = seq<EnumItem<PyMember>>

  datatype Py =
    | Null
    | Leaf(v: Value)
    | EnumMember(m: PyMember)
    | List(items: seq<Py>)
    | PyDict(entries: seq<DictItem>)
    | Inst(cls: ClassId, attrs: seq<Py>, unknown: Bytes)

  datatype DictItem = DictItem(key: Value, value: Py)

  /** A resolved type annotation. */
  datatype Hint =
    | Native
    | OfEnum(members: Members)
    | OfMessage(cls: ClassId)
    | Annotated(base: Hint)
    | OrNone(base: Hint)
    | ListOf(base: Hint)
    | DictOf(base: Hint)

  datatype FieldSpec = FieldSpec(name: Name, hint: Hint, default: Py)

  /** The dataclass fields of every message class. */
  type Classes = map<ClassId, seq<FieldSpec>>

  datatype DictError = UnknownKey(key: Value)

  type Rebuilt<T> = Result<T, DictError>

  // ----------------------------------------------------------------- to dict

  /** One attribute value in its dict form; mapping keys stay as they are. */
  function ToValue(T: Classes, v: Py): Py
    decreases v, 1
  {
    match v
    case Inst(_, _, _) => ToDict(T, v)
    case List(items) => List(seq(|items|, i requires 0 <= i < |items| => ToValue(T, items[i])))
    case PyDict(entries) =>
      PyDict(seq(|entries|, i requires 0 <= i < |entries| => DictItem(entries[i].key, ToValue(T, entries[i].value))))
    case _ => v
  }

  /** A message as `{name: value}` over its declared fields. */
  function ToDict(T: Classes, m: Py): Py
    requires m.Inst?
    decreases m, 0
  {
    if m.cls in T && |T[m.cls]| == |m.attrs| then
      PyDict(seq(|m.attrs|, i requires 0 <= i < |m.attrs| => DictItem(Text(T[m.cls][i].name), ToValue(T, m.attrs[i]))))
    else PyDict([])
  }

  // --------------------------------------------------------------- from dict

  /** The number a value compares equal to, if it is one. */
  function NumberIn(v: Py): Option<int> {
    match v
    case Leaf(Num(n)) => Some(n)
    case Leaf(Flag(b)) => Some(if b then 1 else 0)
    case EnumMember(m) => Some(m.number)
    case _ => None
  }

  /** `tp(value)` on an enum class; what is no value of the enum stays as it is. */
  function CoerceLeaf(members: Members, v: Py): Py {
    match NumberIn(v)
    case None => v
    case Some(n) =>
      match Coerce(members, n)
      case Member(m) => EnumMember(m)
      case Raw(_) => v
  }

  function FromValue(T: Classes, hint: Hint, v: Py): Rebuilt<Py>
    decreases v, 1, hint
  {
    if v.Null? then Ok(Null)
    else
      match hint
      case Annotated(base) => FromValue(T, base, v)
      case OrNone(base) => FromValue(T, base, v)
      case ListOf(base) =>
        if v.List? then var items :- FromItems(T, base, v.items); Ok(List(items)) else Ok(v)
      case DictOf(base) =>
        if v.PyDict? then var entries :- FromEntries(T, base, v.entries); Ok(PyDict(entries)) else Ok(v)
      case OfMessage(cls) =>
        if v.PyDict? && cls in T then FromDict(T, cls, v.entries) else Ok(v)
      case OfEnum(members) => Ok(CoerceLeaf(members, v))
      case _ => Ok(v)
  }

  function FromItems(T: Classes, hint: Hint, items: seq<Py>): Rebuilt<seq<Py>>
    decreases items, 1, hint
  {
    if items == [] then Ok([])
    else
      var first :- FromValue(T, hint, items[0]);
      var rest :- FromItems(T, hint, items[1..]);
      Ok([first] + rest)
  }

  function FromEntries(T: Classes, hint: Hint, entries: seq<DictItem>): Rebuilt<seq<DictItem>>
    decreases entries, 1, hint
  {
    if entries == [] then Ok([])
    else
      var entry := entries[0];
      assert (entries decreases to entry) && (entry decreases to entry.value);
      var first :- FromValue(T, hint, entry.value);
      var rest :- FromEntries(T, hint, entries[1..]);
      Ok([DictItem(entry.key, first)] + rest)
  }

  /** The field a dict key names. */
  function FieldNamed(fields: seq<FieldSpec>, key: Value): (r: Option<nat>)
    ensures r.Some? ==> r.value < |fields| && key == Text(fields[r.value].name)
    ensures r.None? ==> forall i :: 0 <= i < |fields| ==> key != Text(fields[i].name)
  {
    if fields == [] then None
    else if key == Text(fields[0].name) then Some(0)
    else
      match FieldNamed(fields[1..], key)
      case None => assert fields == [fields[0]] + fields[1..]; None
      case Some(i) => Some(i + 1)
  }

  /** The keyword arguments after the first `n` items. */
  function Arguments(T: Classes, fields: seq<FieldSpec>, entries: seq<DictItem>, n: nat): Rebuilt<map<Name, Py>>
    requires n <= |entries|
    decreases entries, 0, n
  {
    if n == 0 then Ok(map[])
    else
      var kwargs :- Arguments(T, fields, entries, n - 1);
      var entry := entries[n - 1];
      assert (entries decreases to entry) && (entry decreases to entry.value);
      match FieldNamed(fields, entry.key)
      case None => Err(UnknownKey(entry.key))
      case Some(i) =>
        var value :- FromValue(T, fields[i].hint, entry.value);
        Ok(kwargs[fields[i].name := value])
  }

  /** `cls(**kwargs)`: what is given, defaults for the rest, nothing unknown. */
  function Instantiate(T: Classes, cls: ClassId, kwargs: map<Name, Py>): Py
    requires cls in T
  {
    var fields := T[cls];
    Inst(cls, seq(|fields|, i requires 0 <= i < |fields| =>
      if fields[i].name in kwargs then kwargs[fields[i].name] else fields[i].default), [])
  }

  function FromDict(T: Classes, cls: ClassId, entries: seq<DictItem>): Rebuilt<Py>
    requires cls in T
    decreases entries, 1
  {
    var kwargs :- Arguments(T, T[cls], entries, |entries|);
    Ok(Instantiate(T, cls, kwargs))
  }

  /** `from_dict`: converts item by item and stops at the first unknown key. */
  method Rebuild(T: Classes, cls: ClassId, entries: seq<DictItem>) returns (r: Rebuilt<Py>)
    requires cls in T
    ensures r == FromDict(T, cls, entries)
  {
    var kwargs: map<Name, Py> := map[];
    for n := 0 to |entries|
      invariant Arguments(T, T[cls], entries, n) == Ok(kwargs)
    {
      var field := FieldNamed(T[cls], entries[n].key);
      if field.None? {
        EarlyError(T, T[cls], entries, n + 1, |entries|);
        return Err(UnknownKey(entries[n].key));
      }
      var value := FromValue(T, T[cls][field.value].hint, entries[n].value);
      if value.Err? {
        EarlyError(T, T[cls], entries, n + 1, |entries|);
        return Err(value.error);
      }
      kwargs := kwargs[T[cls][field.value].name := value.value];
    }
    return Ok(Instantiate(T, cls, kwargs));
  }

  lemma {:induction false} EarlyError(T: Classes, fields: seq<FieldSpec>, entries: seq<DictItem>, m: nat, n: nat)
    requires m <= n <= |entries| && Arguments(T, fields, entries, m).Err?
    ensures Arguments(T, fields, entries, n) == Arguments(T, fields, entries, m)
    decreases n
  {
    if m < n {
      EarlyError(T, fields, entries, m, n - 1);
    }
  }

  // -------------------------------------------------------------- round trip

  /** Distinct values, each with the member of that number. */
  predicate TableOk(members: Members) {
    DistinctValues(members) && forall i :: 0 <= i < |members| ==> members[i].member.number == members[i].value
  }

  /** `v` is what an attribute with this annotation holds; an open enum may hold any number. */
  predicate FitsHint(T: Classes, hint: Hint, v: Py)
    decreases v, 1, hint
  {
    match hint
    case Native => v.Leaf?
    case OfEnum(members) =>
      TableOk(members) && ((v.Leaf? && v.v.Num?) || (v.EnumMember? && Find(members, v.m.number) == Some(v.m)))
    case OfMessage(cls) => v.Inst? && v.cls == cls && FitsClass(T, v)
    case Annotated(base) => FitsHint(T, base, v)
    case OrNone(base) => v.Null? || FitsHint(T, base, v)
    case ListOf(base) => v.List? && forall i :: 0 <= i < |v.items| ==> FitsHint(T, base, v.items[i])
    case DictOf(base) => v.PyDict? && forall i :: 0 <= i < |v.entries| ==> FitsHint(T, base, v.entries[i].value)
  }

  predicate FitsClass(T: Classes, m: Py)
    requires m.Inst?
    decreases m, 0
  {
    && m.cls in T && |m.attrs| == |T[m.cls]|
    && forall i :: 0 <= i < |m.attrs| ==> FitsHint(T, T[m.cls][i].hint, m.attrs[i])
  }

  predicate NamesDistinct(T: Classes) {
    forall c <- T :: forall i, j :: 0 <= i < j < |T[c]| ==> T[c][i].name != T[c][j].name
  }

  /** The object that comes back: the same without unknown bytes, and with every number an
      enum knows replaced by its member. */
  function Restored(T: Classes, hint: Hint, v: Py): Py
    decreases v, 1, hint
  {
    if v.Null? then Null
    else
      match hint
      case Annotated(base) => Restored(T, base, v)
      case OrNone(base) => Restored(T, base, v)
      case ListOf(base) =>
        if v.List? then List(seq(|v.items|, i requires 0 <= i < |v.items| => Restored(T, base, v.items[i]))) else v
      case DictOf(base) =>
        if v.PyDict? then
          PyDict(seq(|v.entries|, i requires 0 <= i < |v.entries| =>
            DictItem(v.entries[i].key, Restored(T, base, v.entries[i].value))))
        else v
      case OfMessage(_) => if v.Inst? then RestoredMessage(T, v) else v
      case OfEnum(members) => CoerceLeaf(members, v)
      case Native => v
  }

  function RestoredMessage(T: Classes, m: Py): Py
    requires m.Inst?
    decreases m, 0
  {
    if m.cls in T && |T[m.cls]| == |m.attrs| then
      Inst(m.cls, seq(|m.attrs|, i requires 0 <= i < |m.attrs| => Restored(T, T[m.cls][i].hint, m.attrs[i])), [])
    else m
  }

  lemma {:induction false} ValueThere(T: Classes, hint: Hint, v: Py)
    requires NamesDistinct(T) && FitsHint(T, hint, v)
    ensures FromValue(T, hint, ToValue(T, v)) == Ok(Restored(T, hint, v))
    decreases v, 1, hint
  {
    match hint
    case Annotated(base) => ValueThere(T, base, v);
    case OrNone(base) =>
      if !v.Null? {
        ValueThere(T, base, v);
      }
    case ListOf(base) =>
      forall i | 0 <= i < |v.items|
        ensures FromValue(T, base, ToValue(T, v.items[i])) == Ok(Restored(T, base, v.items[i]))
      {
        ValueThere(T, base, v.items[i]);
      }
      ItemsThere(T, base, ToValue(T, v).items, Restored(T, hint, v).items);
    case DictOf(base) =>
      forall i | 0 <= i < |v.entries|
        ensures FromValue(T, base, ToValue(T, v.entries[i].value)) == Ok(Restored(T, base, v.entries[i].value))
      {
        ValueThere(T, base, v.entries[i].value);
      }
      EntriesThere(T, base, ToValue(T, v).entries, Restored(T, hint, v).entries);
    case OfMessage(_) => MessageBack(T, v);
    case _ =>
  }

  lemma {:induction false} ItemsThere(T: Classes, hint: Hint, items: seq<Py>, back: seq<Py>)
    requires |items| == |back| && forall i :: 0 <= i < |items| ==> FromValue(T, hint, items[i]) == Ok(back[i])
    ensures FromItems(T, hint, items) == Ok(back)
    decreases |items|
  {
    if items != [] {
      ItemsThere(T, hint, items[1..], back[1..]);
      assert back == [back[0]] + back[1..];
    }
  }

  lemma {:induction false} EntriesThere(T: Classes, hint: Hint, entries: seq<DictItem>, back: seq<DictItem>)
    requires |entries| == |back|
    requires forall i :: 0 <= i < |entries| ==>
      FromValue(T, hint, entries[i].value) == Ok(back[i].value) && entries[i].key == back[i].key
    ensures FromEntries(T, hint, entries) == Ok(back)
    decreases |entries|
  {
    if entries != [] {
      EntriesThere(T, hint, entries[1..], back[1..]);
      assert back == [back[0]] + back[1..];
    }
  }

  lemma {:induction false} ArgumentsThere(T: Classes, m: Py, n: nat)
    requires NamesDistinct(T) && m.Inst? && FitsClass(T, m) && n <= |m.attrs|
    requires forall i :: 0 <= i < |m.attrs| ==>
      FromValue(T, T[m.cls][i].hint, ToValue(T, m.attrs[i])) == Ok(Restored(T, T[m.cls][i].hint, m.attrs[i]))
    ensures var kwargs := Arguments(T, T[m.cls], ToDict(T, m).entries, n);
            && kwargs.Ok?
            && forall i :: 0 <= i < n ==>
                 T[m.cls][i].name in kwargs.value
                 && kwargs.value[T[m.cls][i].name] == Restored(T, T[m.cls][i].hint, m.attrs[i])
    decreases n
  {
    hide FitsHint, FromValue, ToValue, Restored;
    if n > 0 {
      ArgumentsThere(T, m, n - 1);
      var fields := T[m.cls];
      var entry := ToDict(T, m).entries[n - 1];
      assert entry == DictItem(Text(fields[n - 1].name), ToValue(T, m.attrs[n - 1]));
      var named := FieldNamed(fields, entry.key);
      assert named == Some(n - 1);
    }
  }

  lemma {:induction false} MessageBack(T: Classes, m: Py)
    requires NamesDistinct(T) && m.Inst? && FitsClass(T, m)
    ensures FromDict(T, m.cls, ToDict(T, m).entries) == Ok(RestoredMessage(T, m))
    decreases m, 0
  {
    forall i | 0 <= i < |m.attrs|
      ensures FromValue(T, T[m.cls][i].hint, ToValue(T, m.attrs[i])) == Ok(Restored(T, T[m.cls][i].hint, m.attrs[i]))
    {
      ValueThere(T, T[m.cls][i].hint, m.attrs[i]);
    }
    ArgumentsThere(T, m, |m.attrs|);
    var kwargs := Arguments(T, T[m.cls], ToDict(T, m).entries, |m.attrs|).value;
    assert Instantiate(T, m.cls, kwargs).attrs == RestoredMessage(T, m).attrs;
  }

  // ------------------------------------------------------------- what `==` sees

  /** Python's equality: a member equals its number, and unknown bytes are not compared. */
  predicate Equal(a: Py, b: Py)
    decreases a
  {
    match a
    case Inst(cls, attrs, _) =>
      b.Inst? && b.cls == cls && |b.attrs| == |attrs| && forall i :: 0 <= i < |attrs| ==> Equal(attrs[i], b.attrs[i])
    case List(items) => b.List? && |b.items| == |items| && forall i :: 0 <= i < |items| ==> Equal(items[i], b.items[i])
    case PyDict(entries) =>
      b.PyDict? && |b.entries| == |entries|
      && forall i :: 0 <= i < |entries| ==>
        entries[i].key == b.entries[i].key && Equal(entries[i].value, b.entries[i].value)
    case _ => a == b || (NumberIn(a).Some? && NumberIn(a) == NumberIn(b))
  }

  /** Coercing a value of an open enum: a member comes back as itself, a number the enum
      knows becomes the member it equals, any other number stays raw. */
  lemma {:induction false} CoercedEnum(members: Members, v: Py)
    requires TableOk(members)
    ensures v.EnumMember? && Find(members, v.m.number) == Some(v.m) ==> CoerceLeaf(members, v) == v
    ensures v.Leaf? && v.v.Num? ==>
      match Find(members, v.v.n)
      case Some(m) => m.number == v.v.n && CoerceLeaf(members, v) == EnumMember(m)
      case None => CoerceLeaf(members, v) == v
    ensures v.Leaf? || v.EnumMember? ==> Equal(CoerceLeaf(members, v), v)
  {
    var n := NumberIn(v);
    if n.Some? && Find(members, n.value).Some? {
      var i :| 0 <= i < |members| && members[i] == EnumItem(n.value, Find(members, n.value).value);
      assert members[i].member.number == members[i].value;
    }
  }

  lemma {:induction false} RestoredIsEqual(T: Classes, hint: Hint, v: Py)
    requires FitsHint(T, hint, v)
    ensures Equal(Restored(T, hint, v), v)
    decreases v, 1, hint
  {
    match hint
    case Annotated(base) => RestoredIsEqual(T, base, v);
    case OrNone(base) =>
      if !v.Null? {
        RestoredIsEqual(T, base, v);
      }
    case ListOf(base) =>
      forall i | 0 <= i < |v.items|
        ensures Equal(Restored(T, base, v.items[i]), v.items[i])
      {
        RestoredIsEqual(T, base, v.items[i]);
      }
    case DictOf(base) =>
      forall i | 0 <= i < |v.entries|
        ensures Equal(Restored(T, base, v.entries[i].value), v.entries[i].value)
      {
        RestoredIsEqual(T, base, v.entries[i].value);
      }
    case OfMessage(_) => RestoredMessageIsEqual(T, v);
    case OfEnum(members) => CoercedEnum(members, v);
    case Native =>
  }

  lemma {:induction false} RestoredMessageIsEqual(T: Classes, m: Py)
    requires m.Inst? && FitsClass(T, m)
    ensures Equal(RestoredMessage(T, m), m)
    decreases m, 0
  {
    forall i | 0 <= i < |m.attrs|
      ensures Equal(Restored(T, T[m.cls][i].hint, m.attrs[i]), m.attrs[i])
    {
      RestoredIsEqual(T, T[m.cls][i].hint, m.attrs[i]);
    }
  }

  /** `from_dict(cls, to_dict(x)) == x` for every well-typed message tree. */
  lemma {:induction false} MessageThere(T: Classes, m: Py)
    requires NamesDistinct(T) && m.Inst? && FitsClass(T, m)
    ensures var back := FromDict(T, m.cls, ToDict(T, m).entries);
            back.Ok? && back.value == RestoredMessage(T, m) && Equal(back.value, m)
  {
    MessageBack(T, m);
    RestoredMessageIsEqual(T, m);
  }

  /** A key that names no field is refused, whatever else the dict holds. */
  lemma {:induction false} UnknownKeyRefused(T: Classes, cls: ClassId, entries: seq<DictItem>, n: nat)
    requires cls in T && n < |entries| && FieldNamed(T[cls], entries[n].key).None?
    ensures FromDict(T, cls, entries).Err?
  {
    EarlyErrorFrom(T, T[cls], entries, n, |entries|);
  }

  lemma {:induction false} EarlyErrorFrom(T: Classes, fields: seq<FieldSpec>, entries: seq<DictItem>, n: nat, end: nat)
    requires n < end <= |entries| && FieldNamed(fields, entries[n].key).None?
    ensures Arguments(T, fields, entries, end).Err?
    decreases end
  {
    if n < end - 1 {
      EarlyErrorFrom(T, fields, entries, n, end - 1);
    }
  }

  // ------------------------------------------------------ messages of the codec

  /** The members of the enum a field of a class refers to. */
  type Enums = (ClassId, nat) -> Members

  /** An enum value as the decoder coerces it; other values as they are. */
  function EmbedValue(W: World, E: Enums, kind: ValueKind, members: Members, v: Value): Py
    decreases v, 0
  {
    if v.Nested? then Embed(W, E, v.m)
    else if kind.Enum? then CoerceLeaf(members, Leaf(v))
    else Leaf(v)
  }

  function EmbedSlot(W: World, E: Enums, kind: ValueKind, members: Members, slot: Slot): Py
    decreases slot, 1
  {
    match slot
    case Unset => Null
    case One(v) => EmbedValue(W, E, kind, members, v)
    case Many(vs) => List(seq(|vs|, i requires 0 <= i < |vs| => EmbedValue(W, E, kind, members, vs[i])))
    case Dict(es) =>
      PyDict(seq(|es|, i requires 0 <= i < |es| => DictItem(es[i].key, EmbedValue(W, E, kind, members, es[i].value))))
  }

  /** A message of the codec as the Python object it stands for. */
  function Embed(W: World, E: Enums, m: Msg): Py
    decreases m, 2
  {
    if m.cls in W && |W[m.cls].desc.fields| == |m.slots| then
      var fields := W[m.cls].desc.fields;
      Inst(m.cls, seq(|m.slots|, i requires 0 <= i < |m.slots| =>
        EmbedSlot(W, E, fields[i].kind.value, E(m.cls, i), m.slots[i])), m.unknown)
    else Inst(m.cls, [], m.unknown)
  }

  function ValueHint(link: Option<Target>, kind: ValueKind, members: Members): Hint {
    match kind
    case Scalar(_) => Annotated(Native)
    case Enum => OfEnum(members)
    case Message => if link.Some? && link.value.MessageClass? then OfMessage(link.value.cls) else Native
    case _ => Native
  }

  /** The annotation a generated class gives a field. */
  function HintOf(link: Option<Target>, f: FieldDescriptor, members: Members): Hint {
    var base := ValueHint(link, f.kind.value, members);
    if f.kind.Map? then DictOf(base)
    else
      match f.cardinality
      case Repeated => ListOf(base)
      case Optional => OrNone(base)
      case Single => base
  }

  function SpecsOf(W: World, E: Enums, c: ClassId): (r: seq<FieldSpec>)
    requires c in W
    ensures |r| == |W[c].desc.fields|
    ensures forall i :: 0 <= i < |r| ==>
      var f := W[c].desc.fields[i]; r[i].name == f.name && r[i].hint == HintOf(W[c].Link(f.number), f, E(c, i))
  {
    seq(|W[c].desc.fields|, i requires 0 <= i < |W[c].desc.fields| =>
      var f := W[c].desc.fields[i];
      FieldSpec(f.name, HintOf(W[c].Link(f.number), f, E(c, i)), EmbedSlot(W, E, f.kind.value, E(c, i), RestSlot(f))))
  }

  function ClassesOf(W: World, E: Enums): Classes {
    map c | c in W :: SpecsOf(W, E, c)
  }

  lemma {:induction false} TypedValueFits(W: World, E: Enums, link: Option<Target>, kind: ValueKind,
      members: Members, v: Value)
    requires ValueTyped(W, link, kind, v) && TableOk(members) && forall c, i :: TableOk(E(c, i))
    ensures FitsHint(ClassesOf(W, E), ValueHint(link, kind, members), EmbedValue(W, E, kind, members, v))
    ensures Restored(ClassesOf(W, E), ValueHint(link, kind, members), EmbedValue(W, E, kind, members, v))
         == Known(EmbedValue(W, E, kind, members, v))
    decreases v, 0
  {
    if kind.Message? {
      TypedFits(W, E, v.m);
    } else if kind.Enum? {
      EmbeddedEnum(members, v.n);
    }
  }

  /** A coerced number is a member of the table or stays raw, and coercing it again changes nothing. */
  lemma {:induction false} EmbeddedEnum(members: Members, n: int)
    requires TableOk(members)
    ensures var v := CoerceLeaf(members, Leaf(Num(n)));
            && (v == Leaf(Num(n)) || (v.EnumMember? && Find(members, v.m.number) == Some(v.m)))
            && CoerceLeaf(members, v) == v && Known(v) == v
  {
    CoercedEnum(members, Leaf(Num(n)));
  }

  lemma {:induction false} TypedSlotFits(W: World, E: Enums, link: Option<Target>, f: FieldDescriptor,
      members: Members, slot: Slot)
    requires SlotTyped(W, link, f, slot) && TableOk(members) && forall c, i :: TableOk(E(c, i))
    ensures var T, hint, v := ClassesOf(W, E), HintOf(link, f, members), EmbedSlot(W, E, f.kind.value, members, slot);
            FitsHint(T, hint, v) && Restored(T, hint, v) == Known(v)
    decreases slot, 1
  {
    var kind := f.kind.value;
    var T, hint := ClassesOf(W, E), ValueHint(link, kind, members);
    match slot
    case Unset =>
    case One(v) => TypedValueFits(W, E, link, kind, members, v);
    case Many(vs) =>
      forall i | 0 <= i < |vs|
        ensures var e := EmbedValue(W, E, kind, members, vs[i]);
                FitsHint(T, hint, e) && Restored(T, hint, e) == Known(e)
      {
        TypedValueFits(W, E, link, kind, members, vs[i]);
      }
    case Dict(es) =>
      forall i | 0 <= i < |es|
        ensures var e := EmbedValue(W, E, kind, members, es[i].value);
                FitsHint(T, hint, e) && Restored(T, hint, e) == Known(e)
      {
        assert PairTyped(W, link, f.kind.key, kind, es[i]);
        TypedValueFits(W, E, link, kind, members, es[i].value);
      }
  }

  lemma {:induction false} TypedFits(W: World, E: Enums, m: Msg)
    requires MsgTyped(W, m) && forall c, i :: TableOk(E(c, i))
    ensures FitsClass(ClassesOf(W, E), Embed(W, E, m))
    ensures RestoredMessage(ClassesOf(W, E), Embed(W, E, m)) == Known(Embed(W, E, m))
    decreases m, 2
  {
    var C, T := W[m.cls], ClassesOf(W, E);
    var fields := C.desc.fields;
    forall i | 0 <= i < |m.slots|
      ensures var hint, v := HintOf(C.Link(fields[i].number), fields[i], E(m.cls, i)), Embed(W, E, m).attrs[i];
              FitsHint(T, hint, v) && Restored(T, hint, v) == Known(v)
    {
      TypedSlotFits(W, E, C.Link(fields[i].number), fields[i], E(m.cls, i), m.slots[i]);
    }
    assert T[m.cls] == SpecsOf(W, E, m.cls);
    assert RestoredMessage(T, Embed(W, E, m)).attrs == Known(Embed(W, E, m)).attrs;
  }

  /** The same object without unknown bytes, at every level. */
  function Known(v: Py): Py {
    match v
    case Inst(cls, attrs, _) => Inst(cls, seq(|attrs|, i requires 0 <= i < |attrs| => Known(attrs[i])), [])
    case List(items) => List(seq(|items|, i requires 0 <= i < |items| => Known(items[i])))
    case PyDict(entries) =>
      PyDict(seq(|entries|, i requires 0 <= i < |entries| => DictItem(entries[i].key, Known(entries[i].value))))
    case _ => v
  }

  /** The promise of the module for every well-typed message of the codec, whose enum values
      are members where the enum has one: nothing but the unknown bytes is different. */
  lemma {:induction false} DictRoundTrip(W: World, E: Enums, m: Msg)
    requires MsgTyped(W, m) && (forall c, i :: TableOk(E(c, i))) && forall c <- W :: DistinctNames(W[c].desc)
    ensures var T, x := ClassesOf(W, E), Embed(W, E, m);
            FromDict(T, m.cls, ToDict(T, x).entries) == Ok(Known(x))
  {
    var T: Classes := ClassesOf(W, E);
    assert NamesDistinct(T) by {
      assert forall c <- W :: DistinctNames(W[c].desc) && T[c] == SpecsOf(W, E, c);
    }
    TypedFits(W, E, m);
    MessageBack(T, Embed(W, E, m));
  }
}
