/**
 Linking: resolving the enum and message references of a class, and of every class it can
 reach, on first use.  A descriptor is marked linked before its targets are visited, which
 is what lets the traversal end on cyclic graphs.
 */
module Linking {
  import opened Basics
  import opened Descriptors
  import opened FieldIndexing
  import opened Values
  import opened Construction

  datatype LinkError = CannotResolve(name: Name) | BadDefaults

  datatype FastInit = FastInit(cls: ClassId, defaults: seq<Slot>)

  datatype Reference = Reference(number: nat, name: Name)

  // ------------------------------------------------------------- descriptors

  /** Values of this field are instances of another class. */
  predicate NeedsClass(f: FieldDescriptor) {
    f.kind.value.Enum? || f.kind.value.Message?
  }

  /** The references among the first `n` fields. */
  function References(fields: seq<FieldDescriptor>, n: nat): seq<Reference>
    requires n <= |fields|
  {
    if n == 0 then []
    else
      var f := fields[n - 1];
      References(fields, n - 1)
      + if NeedsClass(f) && f.typeName.Some? then [Reference(f.number, f.typeName.value)] else []
  }

  /** Enum and message fields, lists and map values included, refer to the class they name;
      no other field refers to anything. */
  lemma {:induction false} ReferencesAre(fields: seq<FieldDescriptor>, n: nat, r: Reference)
    requires n <= |fields|
    ensures r in References(fields, n) <==>
      exists i :: 0 <= i < n && (fields[i].kind.value == Enum || fields[i].kind.value == Message)
                  && fields[i].typeName == Some(r.name) && fields[i].number == r.number
    decreases n
  {
    if n > 0 {
      ReferencesAre(fields, n - 1, r);
    }
  }

  /** A compiled descriptor with its write-once cells. */
  class Descriptor {
    const desc: MessageDescriptor
    const index: FieldIndex
    var refs: Option<map<nat, Target>>
    var fastInit: Option<FastInit>
    var linked: bool

    constructor (d: MessageDescriptor, i: FieldIndex)
      ensures desc == d && index == i && refs == None && fastInit == None && !linked
    {
      desc, index, refs, fastInit, linked := d, i, None, None, false;
    }

    method RefFields() returns (out: seq<Reference>)
      ensures out == References(desc.fields, |desc.fields|)
    {
      out := [];
      for i := 0 to |desc.fields|
        invariant out == References(desc.fields, i)
      {
        var f := desc.fields[i];
        if NeedsClass(f) && f.typeName.Some? {
          out := out + [Reference(f.number, f.typeName.value)];
        }
      }
    }

    /** Fills the cells that are still empty and marks the descriptor linked; a list of
        defaults of the wrong length leaves everything as it was. */
    method Link(mapping: map<nat, Target>, fast: Option<FastInit>) returns (r: Result<(), LinkError>)
      modifies this
      ensures r.Err? <==> fast.Some? && |fast.value.defaults| != |desc.fields|
      ensures r.Err? ==> refs == old(refs) && fastInit == old(fastInit) && linked == old(linked)
      ensures r.Ok? ==> linked && refs == if old(refs).Some? then old(refs) else Some(mapping)
      ensures r.Ok? ==> fastInit == if old(fastInit).Some? then old(fastInit) else fast
    {
      if fast.Some? {
        if |fast.value.defaults| != |desc.fields| {
          return Err(BadDefaults);
        }
        if fastInit.None? {
          fastInit := fast;
        }
      }
      if refs.None? {
        refs := Some(mapping);
      }
      linked := true;
      return Ok(());
    }
  }

  // ----------------------------------------------------------------- classes

  /** The classes of a program, what names mean in the module of each class, and how each
      class was declared. */
  datatype Program = Program(
    classes: map<ClassId, Descriptor>,
    resolve: (ClassId, Name) -> Option<Target>,
    python: map<ClassId, PyClass>)
  {
    /** Every class has its own descriptor, and names lead to classes of the program. */
    ghost predicate Valid() {
      && classes.Keys <= python.Keys
      && (forall c, d | c in classes && d in classes && c != d :: classes[c] != classes[d])
      && (forall c <- classes, name: Name :: resolve(c, name).Some? && resolve(c, name).value.MessageClass? ==>
            resolve(c, name).value.cls in classes)
    }
  }

  /** `{number: resolve(name)}`, unless a name cannot be resolved. */
  function Resolved(P: Program, c: ClassId, refs: seq<Reference>, n: nat): Option<map<nat, Target>>
    requires n <= |refs|
  {
    if n == 0 then Some(map[])
    else
      match Resolved(P, c, refs, n - 1)
      case None => None
      case Some(m) =>
        match P.resolve(c, refs[n - 1].name)
        case None => None
        case Some(target) => Some(m[refs[n - 1].number := target])
  }

  /** The references of a class as its module resolves them. */
  function Direct(P: Program, c: ClassId): Option<map<nat, Target>>
    requires c in P.classes
  {
    var refs := References(P.classes[c].desc.fields, |P.classes[c].desc.fields|);
    Resolved(P, c, refs, |refs|)
  }

  // ---------------------------------------------- the cells at one moment

  datatype Cell = Cell(refs: Option<map<nat, Target>>, fast: Option<FastInit>, linked: bool)

  type Cells = map<ClassId, Cell>

  ghost function Now(P: Program): Cells
    reads P.classes.Values
  {
    map c | c in P.classes :: Cell(P.classes[c].refs, P.classes[c].fastInit, P.classes[c].linked)
  }

  function Linked(cells: Cells): set<ClassId> {
    set c | c in cells && cells[c].linked
  }

  /** Between calls a descriptor is linked exactly when its references are stored. */
  predicate Settled(cells: Cells) {
    forall c <- cells :: cells[c].linked <==> cells[c].refs.Some?
  }

  /** A class is linked to what its names mean, and the classes it references are linked too. */
  predicate ClosedAt(P: Program, cells: Cells, c: ClassId)
    requires cells.Keys == P.classes.Keys
  {
    && c in P.classes && cells[c].linked && cells[c].refs.Some? && cells[c].refs == Direct(P, c)
    && TargetsIn(cells[c].refs.value, Linked(cells))
  }

  predicate TargetsIn(refs: map<nat, Target>, within: set<ClassId>) {
    forall n <- refs :: refs[n].MessageClass? ==> refs[n].cls in within
  }

  /** The linked classes are closed under references. */
  predicate Closed(P: Program, cells: Cells)
    requires cells.Keys == P.classes.Keys
  {
    forall c <- Linked(cells) :: ClosedAt(P, cells, c)
  }

  /** What is linked stays exactly as it is, and so does what is not linked after all. */
  predicate Kept(before: Cells, after: Cells) {
    && before.Keys == after.Keys && (forall c <- Linked(before) :: after[c] == before[c])
    && forall c <- after :: c !in Linked(after) ==> after[c] == before[c]
  }

  /** The construction context is the one of this class: its captured defaults, or none if its
      instances have to be made by calling it. */
  ghost predicate Captured(P: Program, c: ClassId, fast: Option<FastInit>)
    requires c in P.classes
  {
    c in P.python &&
    match fast
    case None => FastDefaultsAre(P.python[c], P.classes[c].desc, None)
    case Some(f) => f.cls == c && FastDefaultsAre(P.python[c], P.classes[c].desc, Some(f.defaults))
  }

  /** Whatever is linked refers to what its names mean. */
  predicate Sound(P: Program, cells: Cells)
    requires cells.Keys == P.classes.Keys
  {
    forall c <- Linked(cells) :: cells[c].refs == Direct(P, c)
  }

  /** Construction contexts are those of their classes, and a linked class without one has to
      be called. */
  ghost predicate ContextsOk(P: Program, cells: Cells)
    requires cells.Keys == P.classes.Keys
  {
    forall c <- cells :: cells[c].fast.Some? || cells[c].linked ==> Captured(P, c, cells[c].fast)
  }

  /** The same for the classes linked since `before`, which also hold their own construction
      context if they held none. */
  ghost predicate NewAreSound(P: Program, before: Cells, after: Cells)
    requires before.Keys == after.Keys == P.classes.Keys
  {
    forall c <- Linked(after) - Linked(before) ::
      && after[c].refs == Direct(P, c)
      && if before[c].fast.Some? then after[c].fast == before[c].fast else Captured(P, c, after[c].fast)
  }

  lemma {:induction false} StaysSound(P: Program, before: Cells, after: Cells)
    requires before.Keys == after.Keys == P.classes.Keys && Kept(before, after) && NewAreSound(P, before, after)
    requires Sound(P, before)
    ensures Sound(P, after)
    ensures ContextsOk(P, before) ==> ContextsOk(P, after)
  {
    hide Direct, Captured;
    forall c <- Linked(after)
      ensures after[c].refs == Direct(P, c)
    {
      if c in Linked(before) {
        assert after[c] == before[c];
      }
    }
  }

  /** Classes linked since `before` are closed, those still `open` excepted. */
  ghost predicate Grown(P: Program, before: Cells, after: Cells, open: set<ClassId>)
    requires before.Keys == after.Keys == P.classes.Keys
  {
    Kept(before, after) && Settled(after) && NewAreSound(P, before, after)
    && forall c <- Linked(after) - Linked(before) - open :: ClosedAt(P, after, c)
  }

  lemma {:induction false} StaysClosed(P: Program, before: Cells, after: Cells, c: ClassId)
    requires before.Keys == after.Keys == P.classes.Keys && Kept(before, after) && ClosedAt(P, before, c)
    ensures ClosedAt(P, after, c)
  {
    hide Direct;
    assert c in Linked(before);
    assert Linked(before) <= Linked(after);
  }

  lemma {:induction false} GrownTwice(P: Program, a: Cells, b: Cells, c: Cells, open: set<ClassId>)
    requires a.Keys == b.Keys == c.Keys == P.classes.Keys && Grown(P, a, b, open) && Grown(P, b, c, {})
    ensures Grown(P, a, c, open) && Linked(a) <= Linked(b) <= Linked(c) && Settled(c)
  {
    hide ClosedAt, Captured, Direct;
    KeptTwice(a, b, c);
    SoundTwice(P, a, b, c);
    hide Kept, NewAreSound;
    forall d | d in Linked(c) - Linked(a) - open
      ensures ClosedAt(P, c, d)
    {
      if d in Linked(b) {
        StaysClosed(P, b, c, d);
      }
    }
  }

  lemma {:induction false} KeptTwice(a: Cells, b: Cells, c: Cells)
    requires Kept(a, b) && Kept(b, c)
    ensures Kept(a, c) && Linked(a) <= Linked(b) <= Linked(c)
  {
    assert forall d <- Linked(a) :: b[d] == a[d] && d in Linked(b);
    assert forall d <- Linked(b) :: c[d] == b[d] && d in Linked(c);
  }

  lemma {:induction false} SoundTwice(P: Program, a: Cells, b: Cells, c: Cells)
    requires a.Keys == b.Keys == c.Keys == P.classes.Keys && Kept(a, b) && Kept(b, c)
    requires NewAreSound(P, a, b) && NewAreSound(P, b, c)
    ensures NewAreSound(P, a, c)
  {
    hide Captured, Direct;
    KeptTwice(a, b, c);
    forall d | d in Linked(c) - Linked(a)
      ensures c[d].refs == Direct(P, d)
      ensures if a[d].fast.Some? then c[d].fast == a[d].fast else Captured(P, d, c[d].fast)
    {
      if d !in Linked(b) {
        assert b[d] == a[d];
      }
    }
  }

  /** Each class of the trail references the next one. */
  ghost predicate Trail(P: Program, trail: seq<ClassId>) {
    && trail != [] && (forall i :: 0 <= i < |trail| ==> trail[i] in P.classes)
    && forall i :: 0 <= i < |trail| - 1 ==>
      var refs := Direct(P, trail[i]);
      refs.Some? && exists n <- refs.value :: refs.value[n] == MessageClass(trail[i + 1])
  }

  lemma {:induction false} TrailFrom(P: Program, c: ClassId, n: nat, trail: seq<ClassId>)
    requires c in P.classes && Direct(P, c).Some? && n in Direct(P, c).value && Trail(P, trail)
    requires Direct(P, c).value[n] == MessageClass(trail[0])
    ensures Trail(P, [c] + trail)
  {
    hide Direct;
    var longer := [c] + trail;
    assert forall i :: 0 < i < |longer| ==> longer[i] == trail[i - 1];
    forall i | 0 <= i < |longer| - 1
      ensures var refs := Direct(P, longer[i]);
              refs.Some? && exists k <- refs.value :: refs.value[k] == MessageClass(longer[i + 1])
    {
      if i > 0 {
        assert longer[i] == trail[i - 1] && longer[i + 1] == trail[i];
      }
    }
  }

  method ResolveAll(P: Program, c: ClassId, refs: seq<Reference>) returns (r: Result<map<nat, Target>, LinkError>)
    ensures r.Ok? ==> Resolved(P, c, refs, |refs|) == Some(r.value)
    ensures r.Err? ==> Resolved(P, c, refs, |refs|) == None
  {
    var m: map<nat, Target> := map[];
    for i := 0 to |refs|
      invariant Resolved(P, c, refs, i) == Some(m)
    {
      var target := P.resolve(c, refs[i].name);
      if target.None? {
        FailsFurtherOn(P, c, refs, i + 1, |refs|);
        return Err(CannotResolve(refs[i].name));
      }
      m := m[refs[i].number := target.value];
    }
    return Ok(m);
  }

  lemma {:induction false} FailsFurtherOn(P: Program, c: ClassId, refs: seq<Reference>, i: nat, n: nat)
    requires i <= n <= |refs| && Resolved(P, c, refs, i) == None
    ensures Resolved(P, c, refs, n) == None
    decreases n
  {
    if i < n {
      FailsFurtherOn(P, c, refs, i, n - 1);
    }
  }

  lemma {:induction false} ResolvedTargets(P: Program, c: ClassId, refs: seq<Reference>, n: nat)
    requires P.Valid() && c in P.classes && n <= |refs| && Resolved(P, c, refs, n).Some?
    ensures var m := Resolved(P, c, refs, n).value;
            && (forall k <- m :: m[k].MessageClass? ==> m[k].cls in P.classes)
            && (forall k <- m :: exists i :: 0 <= i < n && refs[i].number == k)
            && (forall i :: 0 <= i < n ==> refs[i].number in m)
    decreases n
  {
    if n > 0 {
      ResolvedTargets(P, c, refs, n - 1);
    }
  }

  /** On failure the trail leads from `c` to the class whose references cannot be resolved;
      everything on the way has been linked, that class has not. */
  ghost predicate Failed(P: Program, before: Cells, after: Cells, c: ClassId, trail: seq<ClassId>)
    requires before.Keys == after.Keys == P.classes.Keys
  {
    && Kept(before, after) && Settled(after) && NewAreSound(P, before, after)
    && Trail(P, trail) && trail[0] == c
    && Direct(P, trail[|trail| - 1]) == None && trail[|trail| - 1] !in Linked(after)
    && forall i :: 0 <= i < |trail| - 1 ==> trail[i] in Linked(after) - Linked(before)
  }

  lemma {:induction false} FailedBelow(P: Program, before: Cells, mid: Cells, after: Cells, c: ClassId,
      n: nat, trail: seq<ClassId>)
    requires before.Keys == mid.Keys == after.Keys == P.classes.Keys && c in P.classes
    requires Kept(before, mid) && NewAreSound(P, before, mid) && c in Linked(mid) - Linked(before)
    requires trail != [] && Failed(P, mid, after, trail[0], trail)
    requires Direct(P, c).Some? && n in Direct(P, c).value && Direct(P, c).value[n] == MessageClass(trail[0])
    ensures Failed(P, before, after, c, [c] + trail)
  {
    hide Direct, Trail;
    assert c in Linked(after);
    assert Linked(before) <= Linked(mid);
    TrailFrom(P, c, n, trail);
    var longer := [c] + trail;
    forall i | 0 <= i < |longer| - 1
      ensures longer[i] in Linked(after) - Linked(before)
    {
      if i > 0 {
        assert longer[i] == trail[i - 1];
      }
    }
  }

  lemma {:induction false} FailedLater(P: Program, before: Cells, mid: Cells, after: Cells, c: ClassId,
      trail: seq<ClassId>)
    requires before.Keys == mid.Keys == after.Keys == P.classes.Keys
    requires Kept(before, mid) && NewAreSound(P, before, mid) && Failed(P, mid, after, c, trail)
    ensures Failed(P, before, after, c, trail)
  {
    hide Direct, Trail;
    assert Linked(before) <= Linked(mid);
  }

  /** Storing the references of a class that had none. */
  lemma {:induction false} JustLinked(P: Program, before: Cells, after: Cells, c: ClassId, fast: Option<FastInit>)
    requires before.Keys == P.classes.Keys && c in before && Settled(before) && !before[c].linked && Direct(P, c).Some?
    requires if before[c].fast.Some? then fast == before[c].fast else Captured(P, c, fast)
    requires after == before[c := Cell(Direct(P, c), fast, true)]
    ensures Grown(P, before, after, {c}) && c in Linked(after) && Linked(after) == Linked(before) + {c}
    ensures Settled(after) && Kept(before, after) && NewAreSound(P, before, after)
  {
    hide Direct;
  }

  lemma {:induction false} NowClosed(P: Program, before: Cells, after: Cells, c: ClassId)
    requires before.Keys == after.Keys == P.classes.Keys && Grown(P, before, after, {c}) && ClosedAt(P, after, c)
    ensures Grown(P, before, after, {})
  {
    hide ClosedAt;
  }

  /** After the targets of `c` nothing is open any more. */
  lemma {:induction false} TargetsDone(P: Program, before: Cells, mid: Cells, after: Cells, c: ClassId,
      resolved: map<nat, Target>)
    requires before.Keys == mid.Keys == after.Keys == P.classes.Keys && c in Linked(mid)
    requires Direct(P, c) == Some(resolved) && mid[c].refs == Some(resolved)
    requires Grown(P, before, mid, {c}) && Grown(P, mid, after, {}) && TargetsIn(resolved, Linked(after))
    ensures Grown(P, before, after, {}) && c in Linked(after)
  {
    GrownTwice(P, before, mid, after, {c});
    assert c in Linked(after) && after[c] == mid[c];
    assert ClosedAt(P, after, c);
    hide Grown, ClosedAt, Direct, TargetsIn;
    NowClosed(P, before, after, c);
  }

  lemma {:induction false} NothingToVisit(P: Program, before: Cells, after: Cells, c: ClassId)
    requires before.Keys == after.Keys == P.classes.Keys && c in Linked(after)
    requires Grown(P, before, after, {c}) && Direct(P, c) == Some(map[]) && after[c].refs == Some(map[])
    ensures Grown(P, before, after, {})
  {
    hide Direct;
    NowClosed(P, before, after, c);
  }

  lemma {:induction false} FastIsCaptured(P: Program, c: ClassId, defaults: Option<seq<Slot>>)
    requires c in P.classes && c in P.python && FastDefaultsAre(P.python[c], P.classes[c].desc, defaults)
    ensures Captured(P, c, if defaults.Some? then Some(FastInit(c, defaults.value)) else None)
    ensures defaults.Some? ==> |defaults.value| == |P.classes[c].desc.fields|
  {
  }

  /** `descriptor.link` on the descriptor of one class, seen from the whole program. */
  method Store(P: Program, c: ClassId, mapping: map<nat, Target>, fast: Option<FastInit>)
    returns (r: Result<(), LinkError>)
    requires P.Valid() && c in P.classes && P.classes[c].refs.None?
    requires fast.Some? ==> |fast.value.defaults| == |P.classes[c].desc.fields|
    modifies P.classes[c]
    ensures r.Ok? && Now(P) == old(Now(P))[c := Cell(Some(mapping), P.classes[c].fastInit, true)]
    ensures P.classes[c].fastInit == if old(P.classes[c].fastInit).Some? then old(P.classes[c].fastInit) else fast
  {
    r := P.classes[c].Link(mapping, fast);
  }

  /** Links `c` and then, one after the other, the classes it references.  A class that is
      linked already is left alone, whatever the state of the classes below it. */
  method EnsureLinked(P: Program, c: ClassId) returns (r: Result<(), LinkError>, ghost trail: seq<ClassId>)
    requires P.Valid() && Settled(Now(P)) && c in P.classes
    modifies P.classes.Values
    ensures r.Ok? ==> c in Linked(Now(P)) && Grown(P, old(Now(P)), Now(P), {})
    ensures r.Err? ==> Failed(P, old(Now(P)), Now(P), c, trail)
    ensures r.Err? && |trail| == 1 ==> Now(P) == old(Now(P))
    ensures c in Linked(old(Now(P))) ==> r.Ok? && Now(P) == old(Now(P))
    decreases P.classes.Keys - Linked(Now(P)), 0
  {
    var d := P.classes[c];
    ghost var before := Now(P);
    if d.linked {
      return Ok(()), [];
    }
    hide Failed, Grown, ClosedAt, Resolved, TargetsIn, Trail, Kept, NewAreSound, Captured, FastDefaultsAre, Settled;
    var defaults := FastInitDefaults(P.python[c], d.desc);
    var fast := if defaults.Some? then Some(FastInit(c, defaults.value)) else None;
    FastIsCaptured(P, c, defaults);
    var references := d.RefFields();
    if references == [] {
      var done := Store(P, c, map[], fast);
      JustLinked(P, before, Now(P), c, d.fastInit);
      NothingToVisit(P, before, Now(P), c);
      return Ok(()), [];
    }
    var resolved := ResolveAll(P, c, references);
    if resolved.Err? {
      return Err(resolved.error), [c];
    }
    var done := Store(P, c, resolved.value, fast);
    JustLinked(P, before, Now(P), c, d.fastInit);
    ghost var mid := Now(P);
    r, trail := VisitTargets(P, c, references, resolved.value);
    if r.Ok? {
      TargetsDone(P, before, mid, Now(P), c, resolved.value);
    } else {
      ghost var n :| n in resolved.value && resolved.value[n] == MessageClass(trail[0]);
      FailedBelow(P, before, mid, Now(P), c, n, trail);
      trail := [c] + trail;
    }
  }

  /** The message classes among the first `n` references are in `within`. */
  predicate Visited(references: seq<Reference>, resolved: map<nat, Target>, n: nat, within: set<ClassId>)
    requires n <= |references|
  {
    forall k :: 0 <= k < n && references[k].number in resolved && resolved[references[k].number].MessageClass? ==>
      resolved[references[k].number].cls in within
  }

  lemma {:induction false} VisitedMore(references: seq<Reference>, resolved: map<nat, Target>, i: nat,
      some: set<ClassId>, more: set<ClassId>)
    requires i < |references| && Visited(references, resolved, i, some) && some <= more
    requires references[i].number in resolved && resolved[references[i].number].MessageClass?
    requires resolved[references[i].number].cls in more
    ensures Visited(references, resolved, i + 1, more)
  {
  }

  lemma {:induction false} VisitedEnum(references: seq<Reference>, resolved: map<nat, Target>, i: nat,
      within: set<ClassId>)
    requires i < |references| && Visited(references, resolved, i, within)
    requires references[i].number in resolved && !resolved[references[i].number].MessageClass?
    ensures Visited(references, resolved, i + 1, within)
  {
  }

  lemma {:induction false} AllTargets(P: Program, c: ClassId, references: seq<Reference>,
      resolved: map<nat, Target>, within: set<ClassId>)
    requires P.Valid() && c in P.classes && Resolved(P, c, references, |references|) == Some(resolved)
    requires Visited(references, resolved, |references|, within)
    ensures TargetsIn(resolved, within)
  {
    hide Resolved;
    ResolvedTargets(P, c, references, |references|);
  }

  method VisitTargets(P: Program, c: ClassId, references: seq<Reference>, resolved: map<nat, Target>)
    returns (r: Result<(), LinkError>, ghost trail: seq<ClassId>)
    requires P.Valid() && Settled(Now(P)) && c in Linked(Now(P))
    requires Resolved(P, c, references, |references|) == Some(resolved)
    modifies P.classes.Values
    ensures r.Ok? ==> Grown(P, old(Now(P)), Now(P), {}) && TargetsIn(resolved, Linked(Now(P)))
    ensures r.Err? ==> trail != [] && Failed(P, old(Now(P)), Now(P), trail[0], trail)
                       && exists n <- resolved :: resolved[n] == MessageClass(trail[0])
    decreases P.classes.Keys - Linked(Now(P)), 1
  {
    ResolvedTargets(P, c, references, |references|);
    ghost var before := Now(P);
    assert Grown(P, before, before, {});
    hide Failed, Grown, ClosedAt, Direct, Resolved, TargetsIn, Visited;
    for i := 0 to |references|
      invariant Settled(Now(P)) && Linked(before) <= Linked(Now(P))
      invariant Grown(P, before, Now(P), {})
      invariant Visited(references, resolved, i, Linked(Now(P)))
    {
      var target := resolved[references[i].number];
      if target.MessageClass? {
        ghost var mid := Now(P);
        r, trail := EnsureLinked(P, target.cls);
        if r.Err? {
          FailedLater(P, before, mid, Now(P), target.cls, trail);
          return;
        }
        GrownTwice(P, before, mid, Now(P), {});
        VisitedMore(references, resolved, i, Linked(mid), Linked(Now(P)));
      } else {
        VisitedEnum(references, resolved, i, Linked(Now(P)));
      }
    }
    AllTargets(P, c, references, resolved, Linked(Now(P)));
    return Ok(()), [];
  }
}
