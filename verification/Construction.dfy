/**
 Building the instance of a decoded message: by calling the dataclass with keyword
 arguments, or, for plain generated dataclasses, by allocating it and setting every
 attribute directly.
 */
module Construction {
  import opened Basics
  import opened Descriptors
  import opened Values
  import opened Decoding
  import opened Accepted

  // ------------------------------------------------------- a Python dataclass

  datatype InitError = UnexpectedArgument | MissingArgument | Raised

  /** `list`, `dict`, or another callable and what calling it gives. */
  datatype Factory = ListFactory | DictFactory | Calls(result: Result<Slot, InitError>)

  datatype Default = NoDefault | Object(slot: Slot) | Made(factory: Factory)

  datatype PyField = PyField(name: Name, init: bool, default: Default)

  /** What is known about a class when it is linked, and what calling it gives if more than
      the generated `__init__` has a say in it. */
  datatype PyClass = PyClass(
    isDataclass: bool,
    ownFields: bool,
    frozen: bool,
    plainCall: bool,
    plainNew: bool,
    plainPostInit: bool,
    fields: seq<PyField>,
    custom: map<Name, Slot> -> Result<Instance, InitError>)
  {
    /** Calling the class runs the `__init__` generated for these fields and nothing else. */
    predicate Plain() {
      isDataclass && ownFields && plainCall && plainNew && plainPostInit
    }

    /** The keys of `__dataclass_fields__` are distinct. */
    predicate Valid() {
      forall i, j :: 0 <= i < j < |fields| ==> fields[i].name != fields[j].name
    }
  }

  /** Nothing but the generated `__init__` would run, and the fields mirror the descriptor. */
  predicate Supported(py: PyClass, d: MessageDescriptor) {
    && py.isDataclass && py.ownFields && !py.frozen && py.plainCall && py.plainNew && py.plainPostInit
    && |py.fields| == |d.fields|
    && forall i :: 0 <= i < |d.fields| ==> py.fields[i].name == d.fields[i].name
  }

  /** The object an absent field gets on the fast path, if that is safe to say. */
  function FastDefault(f: PyField, collection: bool): Option<Slot> {
    if f.init && f.default.Object? then Some(f.default.slot)
    else if f.init && f.default.Made? && !f.default.factory.Calls? && collection then Some(Unset)
    else None
  }

  ghost predicate FastDefaultsAre(py: PyClass, d: MessageDescriptor, r: Option<seq<Slot>>) {
    match r
    case Some(defaults) =>
      && Supported(py, d) && |defaults| == |d.fields|
      && forall i :: 0 <= i < |defaults| ==> FastDefault(py.fields[i], d.fields[i].Collection()) == Some(defaults[i])
    case None =>
      Supported(py, d) ==>
        exists i :: 0 <= i < |d.fields| && FastDefault(py.fields[i], d.fields[i].Collection()) == None
  }

  /** The defaults `decode` may set directly, or nothing if the class must be called. */
  method FastInitDefaults(py: PyClass, d: MessageDescriptor) returns (r: Option<seq<Slot>>)
    ensures FastDefaultsAre(py, d, r)
  {
    if !Supported(py, d) {
      return None;
    }
    var collections: set<nat> := set i | 0 <= i < |d.fields| && d.fields[i].Collection();
    var defaults: seq<Slot> := [];
    for idx := 0 to |py.fields|
      invariant |defaults| == idx
      invariant forall i :: 0 <= i < idx ==> FastDefault(py.fields[i], d.fields[i].Collection()) == Some(defaults[i])
    {
      var f := py.fields[idx];
      if f.init && f.default.Object? {
        defaults := defaults + [f.default.slot];
      } else if f.init && f.default.Made? && !f.default.factory.Calls? && idx in collections {
        defaults := defaults + [Unset];
      } else {
        assert FastDefault(py.fields[idx], d.fields[idx].Collection()) == None;
        return None;
      }
    }
    return Some(defaults);
  }

  // ------------------------------------------------------------- two ways in

  /** Attributes by name; the unknown slot is absent until it is first set. */
  datatype Instance = Instance(attrs: map<Name, Slot>, unknown: Option<Bytes>)

  /** Setting the first `n` attributes one after the other. */
  function SetAttrs(d: MessageDescriptor, slots: seq<Slot>, n: nat): map<Name, Slot>
    requires n <= |d.fields| && |slots| == |d.fields|
  {
    if n == 0 then map[] else SetAttrs(d, slots, n - 1)[d.fields[n - 1].name := slots[n - 1]]
  }

  /** What a decoded slot becomes: itself, or the default captured at link time. */
  function Filled(values: seq<Slot>, defaults: seq<Slot>): (r: seq<Slot>)
    requires |values| == |defaults|
    ensures |r| == |values|
    ensures forall i :: 0 <= i < |r| ==> r[i] == if values[i].Unset? then defaults[i] else values[i]
  {
    seq(|values|, i requires 0 <= i < |values| => if values[i].Unset? then defaults[i] else values[i])
  }

  /** The instance with every attribute set and the unknown slot always filled.  Instances of
      a frozen class refuse to have their attributes set. */
  function FastInstance(py: PyClass, d: MessageDescriptor, defaults: seq<Slot>, values: seq<Slot>, unknown: Bytes)
    : Result<Instance, InitError>
    requires |values| == |d.fields| == |defaults|
  {
    if py.frozen && d.fields != [] then Err(Raised)
    else Ok(Instance(SetAttrs(d, Filled(values, defaults), |d.fields|), Some(unknown)))
  }

  method ConstructFast(py: PyClass, d: MessageDescriptor, defaults: seq<Slot>, values: seq<Slot>, unknown: Bytes)
    returns (r: Result<Instance, InitError>)
    requires |values| == |d.fields| == |defaults|
    ensures r == FastInstance(py, d, defaults, values, unknown)
  {
    var attrs: map<Name, Slot> := map[];
    for idx := 0 to |d.fields|
      invariant attrs == SetAttrs(d, Filled(values, defaults), idx)
      invariant idx > 0 ==> !py.frozen
    {
      if py.frozen {
        return Err(Raised);
      }
      if values[idx].Unset? {
        attrs := attrs[d.fields[idx].name := defaults[idx]];
      } else {
        attrs := attrs[d.fields[idx].name := values[idx]];
      }
    }
    return Ok(Instance(attrs, Some(unknown)));
  }

  /** The keyword arguments for what was seen on the wire. */
  function Kwargs(d: MessageDescriptor, values: seq<Slot>, n: nat): map<Name, Slot>
    requires n <= |d.fields| && |values| == |d.fields|
  {
    if n == 0 then map[]
    else if values[n - 1].Unset? then Kwargs(d, values, n - 1)
    else Kwargs(d, values, n - 1)[d.fields[n - 1].name := values[n - 1]]
  }

  /** What the generated `__init__` assigns to one field; `Ok(None)` if it assigns nothing. */
  function InitField(f: PyField, kwargs: map<Name, Slot>): Result<Option<Slot>, InitError> {
    if f.init && f.name in kwargs then Ok(Some(kwargs[f.name]))
    else
      match f.default
      case Object(slot) => Ok(Some(slot))
      case Made(ListFactory) => Ok(Some(Many([])))
      case Made(DictFactory) => Ok(Some(Dict([])))
      case Made(Calls(result)) => (var slot :- result; Ok(Some(slot)))
      case NoDefault => if f.init then Err(MissingArgument) else Ok(None)
  }

  function InitFields(fields: seq<PyField>, kwargs: map<Name, Slot>, n: nat): Result<map<Name, Slot>, InitError>
    requires n <= |fields|
  {
    if n == 0 then Ok(map[])
    else
      var attrs :- InitFields(fields, kwargs, n - 1);
      var slot :- InitField(fields[n - 1], kwargs);
      Ok(if slot.Some? then attrs[fields[n - 1].name := slot.value] else attrs)
  }

  /** `cls(**kwargs)`: on a plain dataclass the generated `__init__`, then `__post_init__`. */
  function Call(py: PyClass, kwargs: map<Name, Slot>): Result<Instance, InitError> {
    if !py.Plain() then py.custom(kwargs)
    else if exists k <- kwargs :: !exists i :: 0 <= i < |py.fields| && py.fields[i].init && py.fields[i].name == k then
      Err(UnexpectedArgument)
    else
      var attrs :- InitFields(py.fields, kwargs, |py.fields|);
      Ok(Instance(attrs, Some([])))
  }

  /** The field is given as a keyword argument. */
  predicate GivenIn(f: PyField, kwargs: map<Name, Slot>) {
    f.init && f.name in kwargs
  }

  /** What a field that is not given gets, if anything: the default object, or what the factory
      makes. */
  predicate IsInitial(f: PyField, slot: Option<Slot>) {
    match f.default
    case Object(o) => slot == Some(o)
    case Made(ListFactory) => slot == Some(Many([]))
    case Made(DictFactory) => slot == Some(Dict([]))
    case Made(Calls(r)) => r.Ok? && slot == Some(r.value)
    case NoDefault => slot == None && !f.init
  }

  lemma {:induction false} InitFieldsAre(fields: seq<PyField>, kwargs: map<Name, Slot>, n: nat)
    requires n <= |fields| && forall i, j :: 0 <= i < j < |fields| ==> fields[i].name != fields[j].name
    ensures var r := InitFields(fields, kwargs, n);
            && (r.Ok? <==> forall i :: 0 <= i < n ==> InitField(fields[i], kwargs).Ok?)
            && (r.Ok? ==>
                  && (forall k <- r.value :: exists i :: 0 <= i < n && fields[i].name == k)
                  && forall i :: 0 <= i < n ==> InitField(fields[i], kwargs) == Ok(AttrOf(r.value, fields[i].name)))
    decreases n
  {
    hide InitField;
    if n > 0 {
      InitFieldsAre(fields, kwargs, n - 1);
    }
  }

  function AttrOf(attrs: map<Name, Slot>, name: Name): Option<Slot> {
    if name in attrs then Some(attrs[name]) else None
  }

  /** Calling a plain dataclass succeeds exactly if every keyword is a field that `__init__` takes,
      every such field without default is given, and no factory it has to call raises.  Every
      field then has its keyword argument, or else its default. */
  lemma {:induction false} CallIsExact(py: PyClass, kwargs: map<Name, Slot>)
    requires py.Plain() && py.Valid()
    ensures var r := Call(py, kwargs);
            && (r.Ok? <==>
                  && (forall k <- kwargs ::
                        exists i :: 0 <= i < |py.fields| && py.fields[i].init && py.fields[i].name == k)
                  && forall i :: 0 <= i < |py.fields| ==>
                       GivenIn(py.fields[i], kwargs) || exists slot :: IsInitial(py.fields[i], slot))
            && (r.Ok? ==>
                  && r.value.unknown == Some([])
                  && (forall k <- r.value.attrs :: exists i :: 0 <= i < |py.fields| && py.fields[i].name == k)
                  && forall i :: 0 <= i < |py.fields| ==>
                       var f, slot := py.fields[i], AttrOf(r.value.attrs, py.fields[i].name);
                       if GivenIn(f, kwargs) then slot == Some(kwargs[f.name]) else IsInitial(f, slot))
  {
    InitFieldsAre(py.fields, kwargs, |py.fields|);
    forall i | 0 <= i < |py.fields|
      ensures var f, r := py.fields[i], InitField(py.fields[i], kwargs);
              && (r.Ok? <==> GivenIn(f, kwargs) || exists slot :: IsInitial(f, slot))
              && (GivenIn(f, kwargs) ==> r == Ok(Some(kwargs[f.name])))
              && (!GivenIn(f, kwargs) && r.Ok? ==> IsInitial(f, r.value))
    {
      InitFieldIs(py.fields[i], kwargs);
    }
    hide InitField, InitFields, IsInitial, GivenIn, AttrOf;
  }

  lemma {:induction false} InitFieldIs(f: PyField, kwargs: map<Name, Slot>)
    ensures var r := InitField(f, kwargs);
            && (r.Ok? <==> GivenIn(f, kwargs) || exists slot :: IsInitial(f, slot))
            && (GivenIn(f, kwargs) ==> r == Ok(Some(kwargs[f.name])))
            && (!GivenIn(f, kwargs) && r.Ok? ==> IsInitial(f, r.value))
  {
    var r := InitField(f, kwargs);
    if !GivenIn(f, kwargs) && r.Ok? {
      assert IsInitial(f, r.value);
    }
  }

  method ConstructNormal(py: PyClass, d: MessageDescriptor, values: seq<Slot>, unknown: Bytes)
    returns (r: Result<Instance, InitError>)
    requires |values| == |d.fields|
    ensures r == Normal(py, d, values, unknown)
  {
    var kwargs: map<Name, Slot> := map[];
    for idx := 0 to |d.fields|
      invariant kwargs == Kwargs(d, values, idx)
    {
      if !values[idx].Unset? {
        kwargs := kwargs[d.fields[idx].name := values[idx]];
      }
    }
    var instance := Call(py, kwargs);
    if instance.Ok? && unknown != [] {
      return Ok(instance.value.(unknown := Some(unknown)));
    }
    return instance;
  }

  function Normal(py: PyClass, d: MessageDescriptor, values: seq<Slot>, unknown: Bytes): Result<Instance, InitError>
    requires |values| == |d.fields|
  {
    var instance :- Call(py, Kwargs(d, values, |d.fields|));
    Ok(if unknown != [] then instance.(unknown := Some(unknown)) else instance)
  }

  // --------------------------------------------------------- they are the same

  /** The decoder's accumulators are there whatever was on the wire. */
  predicate CollectionsFilled(d: MessageDescriptor, values: seq<Slot>) {
    |values| == |d.fields| && forall i :: 0 <= i < |values| && d.fields[i].Collection() ==> !values[i].Unset?
  }

  predicate DistinctNames(d: MessageDescriptor) {
    forall i, j :: 0 <= i < j < |d.fields| ==> d.fields[i].name != d.fields[j].name
  }

  lemma {:induction false} KwargsHold(d: MessageDescriptor, values: seq<Slot>, n: nat, i: nat)
    requires n <= |d.fields| == |values| && DistinctNames(d) && i < |d.fields|
    ensures d.fields[i].name in Kwargs(d, values, n) <==> i < n && !values[i].Unset?
    ensures i < n && !values[i].Unset? ==> Kwargs(d, values, n)[d.fields[i].name] == values[i]
    decreases n
  {
    if n > 0 {
      KwargsHold(d, values, n - 1, i);
      assert n - 1 != i ==> d.fields[n - 1].name != d.fields[i].name;
    }
  }

  lemma {:induction false} KwargsAreFields(d: MessageDescriptor, values: seq<Slot>, n: nat, k: Name)
    requires n <= |d.fields| == |values| && k in Kwargs(d, values, n)
    ensures exists i :: 0 <= i < n && d.fields[i].name == k
    decreases n
  {
    if d.fields[n - 1].name != k || values[n - 1].Unset? {
      KwargsAreFields(d, values, n - 1, k);
    }
  }

  /** For a field absent from the wire `__init__` assigns the given default. */
  predicate InitGives(py: PyClass, d: MessageDescriptor, defaults: seq<Slot>) {
    && py.Plain() && |py.fields| == |d.fields| == |defaults|
    && forall i :: 0 <= i < |d.fields| ==>
      && py.fields[i].name == d.fields[i].name && py.fields[i].init
      && (d.fields[i].Collection() || InitField(py.fields[i], map[]) == Ok(Some(defaults[i])))
  }

  lemma {:induction false} InitAssigns(py: PyClass, d: MessageDescriptor, defaults: seq<Slot>,
      values: seq<Slot>, n: nat)
    requires InitGives(py, d, defaults) && DistinctNames(d) && CollectionsFilled(d, values) && n <= |d.fields|
    ensures InitFields(py.fields, Kwargs(d, values, |d.fields|), n) == Ok(SetAttrs(d, Filled(values, defaults), n))
    decreases n
  {
    if n > 0 {
      InitAssigns(py, d, defaults, values, n - 1);
      KwargsHold(d, values, |d.fields|, n - 1);
    }
  }

  /** Calling such a class sets every attribute to what was decoded or to its default. */
  lemma {:induction false} NormalAssigns(py: PyClass, d: MessageDescriptor, defaults: seq<Slot>,
      values: seq<Slot>, unknown: Bytes)
    requires InitGives(py, d, defaults) && DistinctNames(d) && CollectionsFilled(d, values)
    ensures Normal(py, d, values, unknown)
         == Ok(Instance(SetAttrs(d, Filled(values, defaults), |d.fields|), Some(unknown)))
  {
    InitAssigns(py, d, defaults, values, |d.fields|);
    var kwargs := Kwargs(d, values, |d.fields|);
    forall k | k in kwargs
      ensures exists i :: 0 <= i < |py.fields| && py.fields[i].init && py.fields[i].name == k
    {
      KwargsAreFields(d, values, |d.fields|, k);
      var i :| 0 <= i < |d.fields| && d.fields[i].name == k;
      assert py.fields[i].init && py.fields[i].name == k;
    }
  }

  /** Whenever the fast path is taken, it builds exactly what calling the class builds. */
  lemma {:induction false} FastEqualsNormal(py: PyClass, d: MessageDescriptor, defaults: seq<Slot>,
      values: seq<Slot>, unknown: Bytes)
    requires py.Valid() && FastDefaultsAre(py, d, Some(defaults)) && CollectionsFilled(d, values)
    ensures Normal(py, d, values, unknown) == FastInstance(py, d, defaults, values, unknown)
  {
    forall i | 0 <= i < |d.fields|
      ensures py.fields[i].init
      ensures d.fields[i].Collection() || InitField(py.fields[i], map[]) == Ok(Some(defaults[i]))
    {
      assert FastDefault(py.fields[i], d.fields[i].Collection()) == Some(defaults[i]);
    }
    NormalAssigns(py, d, defaults, values, unknown);
  }

  /** Every array of values the decoder can reach has its accumulators filled. */
  lemma {:induction false} DecodedIsFilled(W: World, C: ClassInfo, data: Bytes, depth: nat)
    requires WorldOk(W) && WellFormed(C.desc) && depth <= MAX_DEPTH
    ensures var r := Resume(W, C, InitState(C.desc), data, depth); r.Ok? ==> CollectionsFilled(C.desc, r.value.slots)
  {
    RunKeeps(W, C, data, depth);
    var r := Resume(W, C, InitState(C.desc), data, depth);
    if r.Ok? {
      forall i | 0 <= i < |r.value.slots| && C.desc.fields[i].Collection()
        ensures !r.value.slots[i].Unset?
      {
        assert SlotOk(W, C.Link(C.desc.fields[i].number), C.desc.fields[i], r.value.slots[i], depth);
      }
    }
  }

  /** So the result of decoding any bytes does not depend on the path that builds it. */
  lemma {:induction false} DecodeIgnoresFastPath(W: World, C: ClassInfo, py: PyClass, defaults: seq<Slot>,
      data: Bytes, depth: nat)
    requires WorldOk(W) && WellFormed(C.desc) && depth <= MAX_DEPTH
    requires py.Valid() && FastDefaultsAre(py, C.desc, Some(defaults))
    ensures var r := Resume(W, C, InitState(C.desc), data, depth);
            r.Ok? ==>
              Normal(py, C.desc, r.value.slots, r.value.unknown)
              == FastInstance(py, C.desc, defaults, r.value.slots, r.value.unknown)
  {
    DecodedIsFilled(W, C, data, depth);
    var r := Resume(W, C, InitState(C.desc), data, depth);
    if r.Ok? {
      FastEqualsNormal(py, C.desc, defaults, r.value.slots, r.value.unknown);
    }
  }

  // -------------------------------------------------------- generated classes

  /** The dataclass field the plugin renders: a factory for lists and dicts, `None` where the
      field has presence, the proto3 zero otherwise.  The zero member of an enum nested in a
      message cannot be named in the class body and is left to a factory. */
  function GeneratedField(f: FieldDescriptor, nestedEnum: bool): PyField {
    var default :=
      if f.kind.Map? then Made(DictFactory)
      else if f.cardinality == Repeated then Made(ListFactory)
      else if f.cardinality == Optional then Object(Unset)
      else if f.kind.value.Enum? && nestedEnum then Made(Calls(Ok(One(Num(0)))))
      else Object(One(ZeroOf(f.kind.value)));
    PyField(f.name, true, default)
  }

  /** A class rendered for a message; `nested` are the fields whose enum is nested. */
  predicate Generated(py: PyClass, d: MessageDescriptor, nested: set<nat>) {
    && py.Plain() && !py.frozen && |py.fields| == |d.fields|
    && forall i :: 0 <= i < |d.fields| ==> py.fields[i] == GeneratedField(d.fields[i], i in nested)
  }

  /** A field whose zero is left to a factory. */
  predicate DeferredZero(d: MessageDescriptor, nested: set<nat>, i: nat)
    requires i < |d.fields|
  {
    i in nested && d.fields[i].cardinality == Single && d.fields[i].kind == FieldKind.Plain(Enum)
  }

  /** The proto3 defaults, where a field does not accumulate. */
  predicate Proto3Defaults(d: MessageDescriptor, defaults: seq<Slot>) {
    |defaults| == |d.fields|
    && forall i :: 0 <= i < |defaults| && !d.fields[i].Collection() ==> defaults[i] == FinishSlot(d.fields[i], Unset)
  }

  /** A generated class takes the fast path exactly when no zero is left to a factory, and the
      defaults captured for it are the proto3 ones. */
  lemma {:induction false} GeneratedDefaults(py: PyClass, d: MessageDescriptor, nested: set<nat>,
      r: Option<seq<Slot>>)
    requires Generated(py, d, nested) && FastDefaultsAre(py, d, r)
    ensures r.Some? <==> forall i :: 0 <= i < |d.fields| ==> !DeferredZero(d, nested, i)
    ensures r.Some? ==> Proto3Defaults(d, r.value)
  {
    forall i | 0 <= i < |d.fields|
      ensures FastDefault(py.fields[i], d.fields[i].Collection()).None? <==> DeferredZero(d, nested, i)
    {
    }
    if r.Some? {
      forall i | 0 <= i < |d.fields|
        ensures !d.fields[i].Collection() ==> r.value[i] == FinishSlot(d.fields[i], Unset)
        ensures !DeferredZero(d, nested, i)
      {
        assert FastDefault(py.fields[i], d.fields[i].Collection()) == Some(r.value[i]);
      }
    }
  }

  lemma {:induction false} ProtoFilled(d: MessageDescriptor, defaults: seq<Slot>, values: seq<Slot>)
    requires Proto3Defaults(d, defaults) && CollectionsFilled(d, values)
    ensures Filled(values, defaults) == FinishSlots(d.fields, values)
  {
    var a, b := Filled(values, defaults), FinishSlots(d.fields, values);
    forall i | 0 <= i < |a|
      ensures a[i] == b[i]
    {
    }
  }

  /** Calling a generated class, deferred zeros or not, fills in the proto3 defaults. */
  lemma {:induction false} GeneratedCall(py: PyClass, d: MessageDescriptor, nested: set<nat>, values: seq<Slot>,
      unknown: Bytes)
    requires Generated(py, d, nested) && WellFormed(d) && DistinctNames(d) && CollectionsFilled(d, values)
    ensures Normal(py, d, values, unknown)
         == Ok(Instance(SetAttrs(d, FinishSlots(d.fields, values), |d.fields|), Some(unknown)))
  {
    var unset := seq(|d.fields|, i requires 0 <= i < |d.fields| => Unset);
    var defaults := FinishSlots(d.fields, unset);
    ProtoFilled(d, defaults, values);
    NormalAssigns(py, d, defaults, values, unknown);
  }

  /** The instance `decode` returns: by setting attributes if defaults were captured for the
      class, else by calling it. */
  function Constructed(py: PyClass, d: MessageDescriptor, fast: Option<seq<Slot>>, values: seq<Slot>, unknown: Bytes)
    : Result<Instance, InitError>
    requires |values| == |d.fields| && (fast.Some? ==> |fast.value| == |d.fields|)
  {
    match fast
    case Some(defaults) => FastInstance(py, d, defaults, values, unknown)
    case None => Normal(py, d, values, unknown)
  }

  /** Decoding any bytes into a generated class gives an instance with exactly the attributes
      and unknown bytes of the decoded message, whichever path its enums allow. */
  lemma {:induction false} GeneratedInstance(W: World, cls: ClassId, py: PyClass, nested: set<nat>,
      fast: Option<seq<Slot>>, data: Bytes, depth: nat)
    requires WorldOk(W) && cls in W && DistinctNames(W[cls].desc) && depth <= MAX_DEPTH
    requires Generated(py, W[cls].desc, nested) && FastDefaultsAre(py, W[cls].desc, fast)
    ensures var C, m := W[cls], DecodeMessage(W, cls, data, depth);
            var st := Resume(W, C, InitState(C.desc), data, depth);
            && (m.Ok? <==> st.Ok?)
            && (m.Ok? ==>
                  && |m.value.slots| == |C.desc.fields| == |st.value.slots|
                  && Constructed(py, C.desc, fast, st.value.slots, st.value.unknown)
                     == Ok(Instance(SetAttrs(C.desc, m.value.slots, |C.desc.fields|), Some(m.value.unknown))))
  {
    var C := W[cls];
    var st := Resume(W, C, InitState(C.desc), data, depth);
    DecodedIsFilled(W, C, data, depth);
    GeneratedDefaults(py, C.desc, nested, fast);
    if st.Ok? {
      GeneratedCall(py, C.desc, nested, st.value.slots, st.value.unknown);
      if fast.Some? {
        ProtoFilled(C.desc, fast.value, st.value.slots);
      }
    }
  }
}
