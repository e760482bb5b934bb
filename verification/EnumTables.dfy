/** Enum members by number: the direct table built at link time against the plain mapping. */
module EnumTables {
  import opened Basics

  const ENUM_TABLE_SIZE := 64

  /** A decoded enum value: a member of the class, or the raw number of an open enum. */
  datatype EnumValue<M> = Member(m: M) | Raw(number: int)

  /** `_value2member_map_`: every value once, in declaration order. */
  datatype EnumItem<M> = EnumItem(value: int, member: M)

  predicate DistinctValues<M>(items: seq<EnumItem<M>>) {
    forall i, j :: 0 <= i < j < |items| ==> items[i].value != items[j].value
  }

  /** Dictionary lookup. */
  function Find<M>(items: seq<EnumItem<M>>, value: int): (r: Option<M>)
    ensures r.Some? ==> exists i :: 0 <= i < |items| && items[i] == EnumItem(value, r.value)
    ensures r.None? ==> forall i :: 0 <= i < |items| ==> items[i].value != value
  {
    if items == [] then None
    else if items[0].value == value then
      assert items[0] == EnumItem(value, items[0].member);
      Some(items[0].member)
    else
      var r := Find(items[1..], value);
      assert items == [items[0]] + items[1..];
      r
  }

  lemma {:induction false} FindAt<M>(items: seq<EnumItem<M>>, i: nat)
    requires DistinctValues(items) && i < |items|
    ensures Find(items, items[i].value) == Some(items[i].member)
  {
  }

  /** What the enum class itself says, without any table. */
  function Coerce<M>(items: seq<EnumItem<M>>, value: int): EnumValue<M> {
    match Find(items, value)
    case Some(m) => Member(m)
    case None => Raw(value)
  }

  /** The members with values 0 to 63, by value. */
  method BuildTable<M>(items: seq<EnumItem<M>>) returns (table: seq<Option<M>>)
    requires DistinctValues(items)
    ensures |table| == 64
    ensures forall v :: 0 <= v < 64 ==> table[v] == Find(items, v)
  {
    var slots := new Option<M>[ENUM_TABLE_SIZE](_ => None);
    for i := 0 to |items|
      invariant forall v :: 0 <= v < slots.Length ==>
        slots[v] == if exists j :: 0 <= j < i && items[j].value == v then Find(items, v) else None
    {
      FindAt(items, i);
      var value := items[i].value;
      if IsI64(value) && 0 <= value < ENUM_TABLE_SIZE {
        slots[value] := Some(items[i].member);
      }
    }
    return slots[..];
  }

  /** The decoder's lookup: the table for small values, the mapping for the rest.  A negative
      value cast to an index lies far beyond the table. */
  method CoerceEnum<M>(table: seq<Option<M>>, items: seq<EnumItem<M>>, value: int) returns (r: EnumValue<M>)
    requires |table| == ENUM_TABLE_SIZE && IsI32(value)
    requires forall v :: 0 <= v < ENUM_TABLE_SIZE ==> table[v] == Find(items, v)
    ensures r == Coerce(items, value)
  {
    var slot := AsU64(value);
    if slot < |table| {
      return if table[slot].Some? then Member(table[slot].value) else Raw(value);
    }
    var found := Find(items, value);
    return if found.Some? then Member(found.value) else Raw(value);
  }

  /** Re-encoding: a member's own number, or the raw number. */
  function NumberOf<M>(numbers: M -> int, v: EnumValue<M>): int {
    match v
    case Member(m) => numbers(m)
    case Raw(n) => n
  }

  /** Open enums keep their number: coercion never changes what is written back. */
  lemma {:induction false} CoercionKeepsNumber<M>(items: seq<EnumItem<M>>, numbers: M -> int, value: int)
    requires forall i :: 0 <= i < |items| ==> numbers(items[i].member) == items[i].value
    ensures NumberOf(numbers, Coerce(items, value)) == value
  {
    var found := Find(items, value);
    if found.Some? {
      var i :| 0 <= i < |items| && items[i] == EnumItem(value, found.value);
      assert numbers(items[i].member) == value;
    }
  }

  /** What the decoder makes of a number when its class has been linked or not. */
  function CoerceLinked<M>(linked: Option<seq<EnumItem<M>>>, value: int): EnumValue<M> {
    match linked
    case None => Raw(value)
    case Some(items) => Coerce(items, value)
  }

  /** Through a class that is not linked yet a number stays raw: the same number, and the same
      object exactly if the enum does not know it. */
  lemma {:induction false} UnlinkedEnum<M>(items: seq<EnumItem<M>>, numbers: M -> int, value: int)
    requires forall i :: 0 <= i < |items| ==> numbers(items[i].member) == items[i].value
    ensures NumberOf(numbers, CoerceLinked<M>(None, value)) == NumberOf(numbers, CoerceLinked(Some(items), value))
    ensures CoerceLinked<M>(None, value) == CoerceLinked(Some(items), value) <==> Find(items, value).None?
  {
    CoercionKeepsNumber(items, numbers, value);
  }
}
