/** What dict conversion gives, said of the result: both ways, for any values and dicts. */
module DictForms {
  import opened Basics
  import opened Descriptors
  import opened Values
  import opened EnumTables
  import opened Dicts

  // ------------------------------------------------------------------- to dicts

  /** `d` is `v` with every message replaced by the dict of its attributes under their names;
      everything else, enum members included, is the same object. */
  predicate DictForm(T: Classes, v: Py, d: Py)
    decreases v
  {
    match v
    case Inst(cls, attrs, _) =>
      && d.PyDict? && cls in T && |T[cls]| == |attrs| == |d.entries|
      && forall i :: 0 <= i < |attrs| ==>
        d.entries[i].key == Text(T[cls][i].name) && DictForm(T, attrs[i], d.entries[i].value)
    case List(items) =>
      d.List? && |d.items| == |items| && forall i :: 0 <= i < |items| ==> DictForm(T, items[i], d.items[i])
    case PyDict(entries) =>
      && d.PyDict? && |d.entries| == |entries|
      && forall i :: 0 <= i < |entries| ==>
        d.entries[i].key == entries[i].key && DictForm(T, entries[i].value, d.entries[i].value)
    case _ => d == v
  }

  /** Every message in it is an instance of a known class. */
  predicate KnownIn(T: Classes, v: Py)
    decreases v
  {
    match v
    case Inst(cls, attrs, _) =>
      cls in T && |T[cls]| == |attrs| && forall i :: 0 <= i < |attrs| ==> KnownIn(T, attrs[i])
    case List(items) => forall i :: 0 <= i < |items| ==> KnownIn(T, items[i])
    case PyDict(entries) => forall i :: 0 <= i < |entries| ==> KnownIn(T, entries[i].value)
    case _ => true
  }

  /** `to_dict` gives exactly this form. */
  lemma {:induction false} ToValueIsDictForm(T: Classes, v: Py, d: Py)
    requires KnownIn(T, v)
    ensures DictForm(T, v, d) <==> d == ToValue(T, v)
    decreases v
  {
    var r := ToValue(T, v);
    match v
    case Inst(cls, attrs, _) =>
      assert r == ToDict(T, v);
      if d.PyDict? && |d.entries| == |attrs| {
        forall i | 0 <= i < |attrs|
          ensures DictForm(T, attrs[i], d.entries[i].value) <==> d.entries[i].value == r.entries[i].value
        {
          ToValueIsDictForm(T, attrs[i], d.entries[i].value);
        }
        SameEntries(d.entries, r.entries);
      }
    case List(items) =>
      if d.List? && |d.items| == |items| {
        forall i | 0 <= i < |items|
          ensures DictForm(T, items[i], d.items[i]) <==> d.items[i] == r.items[i]
        {
          ToValueIsDictForm(T, items[i], d.items[i]);
        }
        assert (forall i :: 0 <= i < |items| ==> d.items[i] == r.items[i]) ==> d.items == r.items;
      }
    case PyDict(entries) =>
      if d.PyDict? && |d.entries| == |entries| {
        forall i | 0 <= i < |entries|
          ensures DictForm(T, entries[i].value, d.entries[i].value) <==> d.entries[i].value == r.entries[i].value
        {
          ToValueIsDictForm(T, entries[i].value, d.entries[i].value);
        }
        SameEntries(d.entries, r.entries);
      }
    case _ =>
  }

  lemma {:induction false} SameEntries(a: seq<DictItem>, b: seq<DictItem>)
    requires |a| == |b|
    ensures a == b <==> forall i :: 0 <= i < |a| ==> a[i].key == b[i].key && a[i].value == b[i].value
  {
    if forall i :: 0 <= i < |a| ==> a[i].key == b[i].key && a[i].value == b[i].value {
      assert forall i :: 0 <= i < |a| ==> a[i] == b[i];
    }
  }

  // ----------------------------------------------------------------- from dicts

  /** A dict has every key once, at every level. */
  predicate KeysOnce(v: Py)
    decreases v
  {
    match v
    case Inst(_, attrs, _) => forall i :: 0 <= i < |attrs| ==> KeysOnce(attrs[i])
    case List(items) => forall i :: 0 <= i < |items| ==> KeysOnce(items[i])
    case PyDict(entries) =>
      && DistinctItems(entries)
      && forall i :: 0 <= i < |entries| ==> KeysOnce(entries[i].value)
    case _ => true
  }

  predicate DistinctItems(entries: seq<DictItem>) {
    forall i, j :: 0 <= i < j < |entries| ==> entries[i].key != entries[j].key
  }

  /** An integer, a member of that number, or one of the two booleans that are integers. */
  predicate IsNumber(v: Py, n: int) {
    v == Leaf(Num(n)) || (v.EnumMember? && v.m.number == n)
    || (n == 1 && v == Leaf(Flag(true))) || (n == 0 && v == Leaf(Flag(false)))
  }

  /** The enum's member of this number, if it has one. */
  predicate EnumForm(members: Members, v: Py, w: Py) {
    if forall i :: 0 <= i < |members| ==> !IsNumber(v, members[i].value) then w == v
    else exists i :: 0 <= i < |members| && IsNumber(v, members[i].value) && w == EnumMember(members[i].member)
  }

  /** `w` is `v` converted to what the annotation says: containers element by element, dicts to
      messages where a message is expected, numbers to enum members; `None`, and values the
      annotation does not describe, stay as they are. */
  ghost predicate Converts(T: Classes, hint: Hint, v: Py, w: Py)
    decreases v, 1, hint
  {
    if v.Null? then w == Null
    else
      match hint
      case Annotated(base) => Converts(T, base, v, w)
      case OrNone(base) => Converts(T, base, v, w)
      case ListOf(base) =>
        if !v.List? then w == v
        else w.List? && |w.items| == |v.items|
             && forall i :: 0 <= i < |v.items| ==> Converts(T, base, v.items[i], w.items[i])
      case DictOf(base) =>
        if !v.PyDict? then w == v
        else w.PyDict? && |w.entries| == |v.entries|
             && forall i :: 0 <= i < |v.entries| ==>
               w.entries[i].key == v.entries[i].key && Converts(T, base, v.entries[i].value, w.entries[i].value)
      case OfMessage(cls) => if v.PyDict? && cls in T then ConvertsMessage(T, cls, v.entries, w) else w == v
      case OfEnum(members) => EnumForm(members, v, w)
      case Native => w == v
  }

  /** An instance without unknown bytes: every key names a field, the attribute of a field is
      the converted value under its name, or its default if the dict does not have the name. */
  ghost predicate ConvertsMessage(T: Classes, cls: ClassId, entries: seq<DictItem>, w: Py)
    requires cls in T
    decreases entries, 0
  {
    var fields := T[cls];
    && w.Inst? && w.cls == cls && w.unknown == [] && |w.attrs| == |fields|
    && (forall n :: 0 <= n < |entries| ==> NamesField(entries[n], fields))
    && (forall n, i :: 0 <= n < |entries| && 0 <= i < |fields| && KeyIs(entries[n], fields[i]) ==>
          ConvertsItem(T, fields[i].hint, entries[n], w.attrs[i]))
    && (forall i :: 0 <= i < |fields| && !Given(entries, fields[i]) ==> w.attrs[i] == fields[i].default)
  }

  ghost predicate ConvertsItem(T: Classes, hint: Hint, entry: DictItem, w: Py)
    decreases entry
  {
    Converts(T, hint, entry.value, w)
  }

  predicate KeyIs(entry: DictItem, field: FieldSpec) {
    entry.key == Text(field.name)
  }

  predicate NamesField(entry: DictItem, fields: seq<FieldSpec>) {
    exists i :: 0 <= i < |fields| && KeyIs(entry, fields[i])
  }

  predicate Given(entries: seq<DictItem>, field: FieldSpec) {
    exists n :: 0 <= n < |entries| && KeyIs(entries[n], field)
  }

  lemma {:induction false} CoercedIsEnumForm(members: Members, v: Py, w: Py)
    requires DistinctValues(members)
    ensures EnumForm(members, v, w) <==> w == CoerceLeaf(members, v)
  {
    var n := NumberIn(v);
    assert forall k :: IsNumber(v, k) <==> n == Some(k);
    if n.Some? && Find(members, n.value).Some? {
      var m := Find(members, n.value).value;
      var i :| 0 <= i < |members| && members[i] == EnumItem(n.value, m);
      assert IsNumber(v, members[i].value);
    }
  }

  /** Enums have every value once. */
  predicate EnumsOk(hint: Hint) {
    match hint
    case OfEnum(members) => DistinctValues(members)
    case Annotated(base) => EnumsOk(base)
    case OrNone(base) => EnumsOk(base)
    case ListOf(base) => EnumsOk(base)
    case DictOf(base) => EnumsOk(base)
    case _ => true
  }

  predicate ClassesOk(T: Classes) {
    NamesDistinct(T) && forall c <- T :: forall i :: 0 <= i < |T[c]| ==> EnumsOk(T[c][i].hint)
  }

  lemma {:induction false} ItemsPointwise(T: Classes, hint: Hint, items: seq<Py>, ws: seq<Py>)
    ensures FromItems(T, hint, items) == Ok(ws) <==>
      |ws| == |items| && forall i :: 0 <= i < |items| ==> FromValue(T, hint, items[i]) == Ok(ws[i])
    decreases |items|
  {
    hide FromValue;
    if items != [] {
      if ws != [] {
        ItemsPointwise(T, hint, items[1..], ws[1..]);
        assert ws == [ws[0]] + ws[1..] && items == [items[0]] + items[1..];
      }
    }
  }

  lemma {:induction false} EntriesPointwise(T: Classes, hint: Hint, entries: seq<DictItem>, ws: seq<DictItem>)
    ensures FromEntries(T, hint, entries) == Ok(ws) <==>
      |ws| == |entries|
      && forall i :: 0 <= i < |entries| ==>
        ws[i].key == entries[i].key && FromValue(T, hint, entries[i].value) == Ok(ws[i].value)
    decreases |entries|
  {
    hide FromValue;
    if entries != [] {
      if ws != [] {
        EntriesPointwise(T, hint, entries[1..], ws[1..]);
        assert ws == [ws[0]] + ws[1..] && entries == [entries[0]] + entries[1..];
      }
    }
  }

  lemma {:induction false} NamedIs(fields: seq<FieldSpec>, entry: DictItem, i: nat)
    requires forall a, b :: 0 <= a < b < |fields| ==> fields[a].name != fields[b].name
    requires i < |fields| && KeyIs(entry, fields[i])
    ensures FieldNamed(fields, entry.key) == Some(i)
  {
    var r := FieldNamed(fields, entry.key);
    assert r.Some?;
  }

  /** The first `n` items, as keyword arguments. */
  ghost predicate ArgumentsAre(T: Classes, fields: seq<FieldSpec>, entries: seq<DictItem>, n: nat,
      kwargs: map<Name, Py>)
    requires n <= |entries|
  {
    && (forall i :: 0 <= i < |fields| ==> (fields[i].name in kwargs <==> Given(entries[..n], fields[i])))
    && (forall k, i :: 0 <= k < n && 0 <= i < |fields| && KeyIs(entries[k], fields[i]) ==>
          fields[i].name in kwargs && FromValue(T, fields[i].hint, entries[k].value) == Ok(kwargs[fields[i].name]))
  }

  predicate ItemOk(T: Classes, fields: seq<FieldSpec>, entry: DictItem) {
    exists i :: 0 <= i < |fields| && KeyIs(entry, fields[i]) && FromValue(T, fields[i].hint, entry.value).Ok?
  }

  lemma {:induction false} GivenMore(entries: seq<DictItem>, n: nat, field: FieldSpec)
    requires 0 < n <= |entries|
    ensures Given(entries[..n], field) <==> Given(entries[..n - 1], field) || KeyIs(entries[n - 1], field)
  {
    assert entries[..n] == entries[..n - 1] + [entries[n - 1]];
    if Given(entries[..n - 1], field) {
      var k :| 0 <= k < n - 1 && KeyIs(entries[..n - 1][k], field);
      assert KeyIs(entries[..n][k], field);
    }
    if KeyIs(entries[n - 1], field) {
      assert KeyIs(entries[..n][n - 1], field);
    }
  }

  lemma {:induction false} ItemOkIs(T: Classes, fields: seq<FieldSpec>, entry: DictItem)
    requires forall a, b :: 0 <= a < b < |fields| ==> fields[a].name != fields[b].name
    ensures var i := FieldNamed(fields, entry.key);
            ItemOk(T, fields, entry) <==> i.Some? && FromValue(T, fields[i.value].hint, entry.value).Ok?
  {
    hide FromValue;
    var i := FieldNamed(fields, entry.key);
    if ItemOk(T, fields, entry) {
      var j :| 0 <= j < |fields| && KeyIs(entry, fields[j]) && FromValue(T, fields[j].hint, entry.value).Ok?;
      NamedIs(fields, entry, j);
    }
    if i.Some? {
      assert KeyIs(entry, fields[i.value]);
    }
  }

  lemma {:induction false} ArgumentsStep(T: Classes, fields: seq<FieldSpec>, entries: seq<DictItem>, n: nat)
    requires 0 < n <= |entries|
    ensures var r, i := Arguments(T, fields, entries, n - 1), FieldNamed(fields, entries[n - 1].key);
            && (Arguments(T, fields, entries, n).Ok? <==>
                  r.Ok? && i.Some? && FromValue(T, fields[i.value].hint, entries[n - 1].value).Ok?)
            && (Arguments(T, fields, entries, n).Ok? ==>
                  Arguments(T, fields, entries, n).value
                  == r.value[fields[i.value].name := FromValue(T, fields[i.value].hint, entries[n - 1].value).value])
  {
    hide FromValue;
  }

  lemma {:induction false} MoreArguments(T: Classes, fields: seq<FieldSpec>, entries: seq<DictItem>, n: nat,
      kwargs: map<Name, Py>, i: nat, w: Py)
    requires forall a, b :: 0 <= a < b < |fields| ==> fields[a].name != fields[b].name
    requires DistinctItems(entries) && 0 < n <= |entries| && ArgumentsAre(T, fields, entries, n - 1, kwargs)
    requires i < |fields| && KeyIs(entries[n - 1], fields[i])
    requires FromValue(T, fields[i].hint, entries[n - 1].value) == Ok(w)
    ensures ArgumentsAre(T, fields, entries, n, kwargs[fields[i].name := w])
  {
    hide FromValue, Given;
    var more := kwargs[fields[i].name := w];
    forall j | 0 <= j < |fields|
      ensures fields[j].name in more <==> Given(entries[..n], fields[j])
    {
      GivenMore(entries, n, fields[j]);
      assert j != i ==> fields[j].name != fields[i].name;
    }
    forall k, j | 0 <= k < n && 0 <= j < |fields| && KeyIs(entries[k], fields[j])
      ensures fields[j].name in more && FromValue(T, fields[j].hint, entries[k].value) == Ok(more[fields[j].name])
    {
      assert j == i <==> fields[j].name == fields[i].name;
      if k < n - 1 {
        assert entries[k].key != entries[n - 1].key;
      }
    }
  }

  lemma {:induction false} NoArguments(T: Classes, fields: seq<FieldSpec>, entries: seq<DictItem>)
    ensures Arguments(T, fields, entries, 0) == Ok(map[]) && ArgumentsAre(T, fields, entries, 0, map[])
  {
    assert entries[..0] == [];
  }

  lemma {:induction false} ArgumentsExact(T: Classes, fields: seq<FieldSpec>, entries: seq<DictItem>, n: nat)
    requires forall a, b :: 0 <= a < b < |fields| ==> fields[a].name != fields[b].name
    requires DistinctItems(entries) && n <= |entries|
    ensures Arguments(T, fields, entries, n).Ok? <==> forall k :: 0 <= k < n ==> ItemOk(T, fields, entries[k])
    ensures Arguments(T, fields, entries, n).Ok? ==>
      ArgumentsAre(T, fields, entries, n, Arguments(T, fields, entries, n).value)
    decreases n
  {
    hide FromValue, ItemOk, DistinctItems, ArgumentsAre, Arguments;
    if n == 0 {
      NoArguments(T, fields, entries);
    } else {
      ArgumentsExact(T, fields, entries, n - 1);
      ArgumentsStep(T, fields, entries, n);
      ItemOkIs(T, fields, entries[n - 1]);
      if Arguments(T, fields, entries, n).Ok? {
        var i := FieldNamed(fields, entries[n - 1].key).value;
        assert KeyIs(entries[n - 1], fields[i]);
        MoreArguments(T, fields, entries, n, Arguments(T, fields, entries, n - 1).value, i,
                      FromValue(T, fields[i].hint, entries[n - 1].value).value);
      }
    }
  }

  /** The values of the dict convert as they should. */
  ghost predicate ItemsAgree(T: Classes, cls: ClassId, entries: seq<DictItem>)
    requires cls in T
  {
    forall n, i, u :: 0 <= n < |entries| && 0 <= i < |T[cls]| ==>
      (FromValue(T, T[cls][i].hint, entries[n].value) == Ok(u) <==> ConvertsItem(T, T[cls][i].hint, entries[n], u))
  }

  lemma {:induction false} ItemAgrees(T: Classes, cls: ClassId, entries: seq<DictItem>, n: nat, i: nat, u: Py)
    requires cls in T && ItemsAgree(T, cls, entries) && n < |entries| && i < |T[cls]|
    ensures FromValue(T, T[cls][i].hint, entries[n].value) == Ok(u) <==> ConvertsItem(T, T[cls][i].hint, entries[n], u)
  {
    hide FromValue, ConvertsItem;
  }

  lemma {:induction false} ItemIsNamed(T: Classes, fields: seq<FieldSpec>, entry: DictItem)
    requires ItemOk(T, fields, entry)
    ensures NamesField(entry, fields)
  {
    hide FromValue;
  }

  /** Calling the class with the arguments gives such an instance. */
  lemma {:induction false} InstanceConverts(T: Classes, cls: ClassId, entries: seq<DictItem>, kwargs: map<Name, Py>)
    requires cls in T && ItemsAgree(T, cls, entries) && ArgumentsAre(T, T[cls], entries, |entries|, kwargs)
    requires forall k :: 0 <= k < |entries| ==> ItemOk(T, T[cls], entries[k])
    ensures ConvertsMessage(T, cls, entries, Instantiate(T, cls, kwargs))
  {
    hide FromValue, Given, ConvertsItem, ItemsAgree;
    assert entries[..|entries|] == entries;
    var fields, w := T[cls], Instantiate(T, cls, kwargs);
    forall n | 0 <= n < |entries|
      ensures NamesField(entries[n], fields)
    {
      ItemIsNamed(T, fields, entries[n]);
    }
    forall n, i | 0 <= n < |entries| && 0 <= i < |fields| && KeyIs(entries[n], fields[i])
      ensures ConvertsItem(T, fields[i].hint, entries[n], w.attrs[i])
    {
      ItemAgrees(T, cls, entries, n, i, w.attrs[i]);
    }
    forall i | 0 <= i < |fields| && !Given(entries, fields[i])
      ensures w.attrs[i] == fields[i].default
    {
      assert !Given(entries[..|entries|], fields[i]);
    }
  }

  lemma {:induction false} OneAttribute(T: Classes, cls: ClassId, entries: seq<DictItem>, a: Py, b: Py, i: nat)
    requires cls in T && ItemsAgree(T, cls, entries) && i < |T[cls]|
    requires ConvertsMessage(T, cls, entries, a) && ConvertsMessage(T, cls, entries, b)
    ensures a.attrs[i] == b.attrs[i]
  {
    hide FromValue, ConvertsItem, ItemsAgree;
    if Given(entries, T[cls][i]) {
      var n :| 0 <= n < |entries| && KeyIs(entries[n], T[cls][i]);
      ItemAgrees(T, cls, entries, n, i, a.attrs[i]);
      ItemAgrees(T, cls, entries, n, i, b.attrs[i]);
    }
  }

  /** The conversion determines the instance. */
  lemma {:induction false} OneInstance(T: Classes, cls: ClassId, entries: seq<DictItem>, a: Py, b: Py)
    requires cls in T && ItemsAgree(T, cls, entries)
    requires ConvertsMessage(T, cls, entries, a) && ConvertsMessage(T, cls, entries, b)
    ensures a == b
  {
    MessageParts(T, cls, entries, a);
    MessageParts(T, cls, entries, b);
    hide *;
    forall i | 0 <= i < |T[cls]|
      ensures a.attrs[i] == b.attrs[i]
    {
      OneAttribute(T, cls, entries, a, b, i);
    }
    assert a.attrs == b.attrs;
  }

  lemma {:induction false} MessageParts(T: Classes, cls: ClassId, entries: seq<DictItem>, w: Py)
    requires cls in T && ConvertsMessage(T, cls, entries, w)
    ensures w.Inst? && w.cls == cls && w.unknown == [] && |w.attrs| == |T[cls]|
  {
    hide ConvertsItem, Given;
  }

  /** An item that converts at all can be an argument. */
  lemma {:induction false} ItemsConvert(T: Classes, cls: ClassId, entries: seq<DictItem>, w: Py, k: nat)
    requires cls in T && ItemsAgree(T, cls, entries) && ConvertsMessage(T, cls, entries, w) && k < |entries|
    ensures ItemOk(T, T[cls], entries[k])
  {
    hide FromValue, ConvertsItem, ItemsAgree, Given;
    assert NamesField(entries[k], T[cls]);
    var i :| 0 <= i < |T[cls]| && KeyIs(entries[k], T[cls][i]);
    ItemAgrees(T, cls, entries, k, i, w.attrs[i]);
  }

  /** The dict of a message converts to exactly such an instance, provided its values do. */
  lemma {:induction false} FromDictIs(T: Classes, cls: ClassId, entries: seq<DictItem>, w: Py)
    requires ClassesOk(T) && cls in T && DistinctItems(entries) && ItemsAgree(T, cls, entries)
    ensures FromDict(T, cls, entries) == Ok(w) <==> ConvertsMessage(T, cls, entries, w)
  {
    ArgumentsExact(T, T[cls], entries, |entries|);
    hide EnumsOk, DistinctItems, ItemsAgree, Arguments, ConvertsMessage, ArgumentsAre, ItemOk, Instantiate;
    var kwargs := Arguments(T, T[cls], entries, |entries|);
    if kwargs.Ok? {
      InstanceConverts(T, cls, entries, kwargs.value);
    }
    if ConvertsMessage(T, cls, entries, w) {
      forall k | 0 <= k < |entries|
        ensures ItemOk(T, T[cls], entries[k])
      {
        ItemsConvert(T, cls, entries, w, k);
      }
      OneInstance(T, cls, entries, w, Instantiate(T, cls, kwargs.value));
    }
  }

  /** `from_dict` and its recursion give exactly this conversion. */
  lemma {:induction false} FromValueConverts(T: Classes, hint: Hint, v: Py, w: Py)
    requires ClassesOk(T) && EnumsOk(hint) && KeysOnce(v)
    ensures FromValue(T, hint, v) == Ok(w) <==> Converts(T, hint, v, w)
    decreases v, 1, hint
  {
    if !v.Null? {
      match hint
      case Annotated(base) => FromValueConverts(T, base, v, w);
      case OrNone(base) => FromValueConverts(T, base, v, w);
      case ListOf(base) =>
        if v.List? && w.List? && |w.items| == |v.items| {
          forall i | 0 <= i < |v.items|
            ensures FromValue(T, base, v.items[i]) == Ok(w.items[i]) <==> Converts(T, base, v.items[i], w.items[i])
          {
            FromValueConverts(T, base, v.items[i], w.items[i]);
          }
        }
        if v.List? && w.List? {
          ItemsPointwise(T, base, v.items, w.items);
        }
      case DictOf(base) =>
        if v.PyDict? && w.PyDict? && |w.entries| == |v.entries| {
          forall i | 0 <= i < |v.entries|
            ensures FromValue(T, base, v.entries[i].value) == Ok(w.entries[i].value)
               <==> Converts(T, base, v.entries[i].value, w.entries[i].value)
          {
            FromValueConverts(T, base, v.entries[i].value, w.entries[i].value);
          }
        }
        if v.PyDict? && w.PyDict? {
          EntriesPointwise(T, base, v.entries, w.entries);
        }
      case OfMessage(cls) =>
        if v.PyDict? && cls in T {
          DictConverts(T, cls, v, w);
        }
      case OfEnum(members) => CoercedIsEnumForm(members, v, w);
      case Native =>
    }
  }

  /** A dict given for a message: missing keys leave the defaults, unknown keys are refused. */
  lemma {:induction false} DictConverts(T: Classes, cls: ClassId, v: Py, w: Py)
    requires ClassesOk(T) && cls in T && v.PyDict? && KeysOnce(v)
    ensures FromDict(T, cls, v.entries) == Ok(w) <==> ConvertsMessage(T, cls, v.entries, w)
    decreases v, 0
  {
    hide FromValue, Converts;
    forall n, i, u | 0 <= n < |v.entries| && 0 <= i < |T[cls]|
      ensures FromValue(T, T[cls][i].hint, v.entries[n].value) == Ok(u)
         <==> ConvertsItem(T, T[cls][i].hint, v.entries[n], u)
    {
      FromValueConverts(T, T[cls][i].hint, v.entries[n].value, u);
    }
    FromDictIs(T, cls, v.entries, w);
  }
}
