/**
 Any number of threads linking one descriptor while others decode through it, as single
 steps on its write-once cells in any order.
 */
module Concurrency {
  import opened Basics
  import opened Descriptors
  import opened Values
  import opened Decoding
  import opened Construction
  import opened Linking

  /** A thread inside `link`: what it is about to do. */
  datatype Phase = StoreFast | StoreRefs | RaiseFlag | Done

  datatype Linker = Linker(mapping: map<nat, Target>, fast: Option<FastInit>, phase: Phase)

  /** A thread inside `from_bytes`: it has seen the flag, then the references, then the
      construction context. */
  datatype ReadingThread =
    | Waiting
    | SawFlag
    | SawRefs(refs: Option<map<nat, Target>>)
    | SawAll(refs: Option<map<nat, Target>>, fast: Option<FastInit>)

  datatype System = System(cell: Cell, linkers: seq<Linker>, readers: seq<ReadingThread>)

  const EMPTY := Cell(None, None, false)

  predicate Init(s: System) {
    && s.cell == EMPTY
    && (forall i :: 0 <= i < |s.linkers| ==> s.linkers[i].phase == StoreFast)
    && (forall i :: 0 <= i < |s.readers| ==> s.readers[i] == Waiting)
  }

  /** `OnceLock::set`: the first value stays. */
  function SetOnce<T>(cell: Option<T>, value: T): Option<T> {
    if cell.Some? then cell else Some(value)
  }

  /** What the next step of `link` makes of the cell. */
  function CellAfter(cell: Cell, t: Linker): Cell {
    match t.phase
    case StoreFast => if t.fast.Some? then cell.(fast := SetOnce(cell.fast, t.fast.value)) else cell
    case StoreRefs => cell.(refs := SetOnce(cell.refs, t.mapping))
    case RaiseFlag => cell.(linked := true)
    case Done => cell
  }

  function NextPhase(phase: Phase): Phase {
    match phase
    case StoreFast => StoreRefs
    case StoreRefs => RaiseFlag
    case _ => Done
  }

  function LinkerStep(s: System, i: nat): (r: System)
    requires i < |s.linkers|
    ensures |r.linkers| == |s.linkers| && r.readers == s.readers
  {
    var t := s.linkers[i];
    s.(cell := CellAfter(s.cell, t), linkers := s.linkers[i := t.(phase := NextPhase(t.phase))])
  }

  function ReaderStep(s: System, i: nat): (r: System)
    requires i < |s.readers|
    ensures r.cell == s.cell && r.linkers == s.linkers && |r.readers| == |s.readers|
  {
    var next :=
      match s.readers[i]
      case Waiting => if s.cell.linked then SawFlag else Waiting
      case SawFlag => SawRefs(s.cell.refs)
      case SawRefs(refs) => SawAll(refs, s.cell.fast)
      case SawAll(_, _) => s.readers[i];
    s.(readers := s.readers[i := next])
  }

  ghost predicate Next(s: System, t: System) {
    || (exists i :: 0 <= i < |s.linkers| && t == LinkerStep(s, i))
    || (exists i :: 0 <= i < |s.readers| && t == ReaderStep(s, i))
  }

  ghost predicate Run(run: seq<System>) {
    run != [] && Init(run[0]) && forall k :: 0 <= k < |run| - 1 ==> Next(run[k], run[k + 1])
  }

  // ------------------------------------------------------------- the invariant

  predicate LinkerOk(cell: Cell, t: Linker) {
    (t.phase == RaiseFlag || t.phase == Done ==> cell.refs.Some?) && (t.phase == Done ==> cell.linked)
  }

  predicate ReaderOk(cell: Cell, r: ReadingThread) {
    match r
    case Waiting => true
    case SawFlag => cell.linked
    case SawRefs(refs) => cell.linked && refs == cell.refs
    case SawAll(refs, fast) => cell.linked && refs == cell.refs && (fast.Some? ==> fast == cell.fast)
  }

  /** The mappings and construction contexts the linking threads came with. */
  function Mappings(s: System): set<map<nat, Target>> {
    set i | 0 <= i < |s.linkers| :: s.linkers[i].mapping
  }

  function Fasts(s: System): set<FastInit> {
    set i | 0 <= i < |s.linkers| && s.linkers[i].fast.Some? :: s.linkers[i].fast.value
  }

  predicate Inv(s: System) {
    && (s.cell.linked ==> s.cell.refs.Some?)
    && (s.cell.refs.Some? ==> s.cell.refs.value in Mappings(s))
    && (s.cell.fast.Some? ==> s.cell.fast.value in Fasts(s))
    && (forall i :: 0 <= i < |s.linkers| ==> LinkerOk(s.cell, s.linkers[i]))
    && (forall i :: 0 <= i < |s.readers| ==> ReaderOk(s.cell, s.readers[i]))
  }

  /** Written cells never change again. */
  predicate WrittenOnce(before: Cell, after: Cell) {
    && (before.refs.Some? ==> after.refs == before.refs)
    && (before.fast.Some? ==> after.fast == before.fast)
    && (before.linked ==> after.linked)
  }

  lemma {:induction false} LinkerKeeps(s: System, i: nat)
    requires Inv(s) && i < |s.linkers|
    ensures var t := LinkerStep(s, i);
            Inv(t) && WrittenOnce(s.cell, t.cell) && Mappings(t) == Mappings(s) && Fasts(t) == Fasts(s)
  {
    var t := LinkerStep(s, i);
    assert forall j :: 0 <= j < |t.linkers| ==>
      t.linkers[j].mapping == s.linkers[j].mapping && t.linkers[j].fast == s.linkers[j].fast;
    assert s.linkers[i].mapping in Mappings(s);
    assert s.linkers[i].fast.Some? ==> s.linkers[i].fast.value in Fasts(s);
  }

  lemma {:induction false} NextKeeps(s: System, t: System)
    requires Inv(s) && Next(s, t)
    ensures Inv(t) && WrittenOnce(s.cell, t.cell) && Mappings(t) == Mappings(s) && Fasts(t) == Fasts(s)
  {
    if i :| 0 <= i < |s.linkers| && t == LinkerStep(s, i) {
      LinkerKeeps(s, i);
    }
  }

  /** At every moment of every run: who sees the flag sees the references, every thread that
      read them read the same ones, and what was written once stays. */
  lemma {:induction false} EveryRunKeeps(run: seq<System>, j: nat, k: nat)
    requires Run(run) && j <= k < |run|
    ensures Inv(run[k]) && WrittenOnce(run[j].cell, run[k].cell)
    ensures Mappings(run[k]) == Mappings(run[0]) && Fasts(run[k]) == Fasts(run[0])
    decreases k
  {
    if k > 0 {
      EveryRunKeeps(run, if j < k then j else k - 1, k - 1);
      NextKeeps(run[k - 1], run[k]);
    }
  }

  // ------------------------------------------------------------- nobody waits

  /** Whatever the others have done, three of its own steps take a linking thread through, and
      a reader that sees the flag; they are steps of the system at every moment. */
  lemma {:induction false} ThreadsGetThrough(s: System)
    ensures forall i :: 0 <= i < |s.linkers| ==>
      var a := LinkerStep(s, i);
      var b := LinkerStep(a, i);
      var c := LinkerStep(b, i);
      Next(s, a) && Next(a, b) && Next(b, c) && c.linkers[i].phase == Done
    ensures forall i :: 0 <= i < |s.readers| && s.cell.linked ==>
      var a := ReaderStep(s, i);
      var b := ReaderStep(a, i);
      var c := ReaderStep(b, i);
      Next(s, a) && Next(a, b) && Next(b, c) && c.readers[i].SawAll?
  {
    forall i | 0 <= i < |s.linkers|
      ensures LinkerStep(LinkerStep(LinkerStep(s, i), i), i).linkers[i].phase == Done
    {
      assert LinkerStep(s, i).linkers[i].phase == NextPhase(s.linkers[i].phase);
    }
  }

  // ------------------------------------------------------- what a reader gets

  /** The instance a reader builds from what it saw. */
  function Built(W: World, C: ClassInfo, py: PyClass, refs: Option<map<nat, Target>>, fast: Option<FastInit>,
      data: Bytes)
    : Result<Instance, CodecError>
    requires fast.Some? ==> |fast.value.defaults| == |C.desc.fields|
  {
    var D := C.(refs := refs);
    var st :- Resume(W, D, InitState(D.desc), data, 0);
    var defaults := if fast.Some? then Some(fast.value.defaults) else None;
    var built := Constructed(py, C.desc, defaults, st.slots, st.unknown);
    if built.Ok? then Ok(built.value) else Err(WrongType)
  }

  /** All threads link the same class: same names, hence the same mapping, and the defaults
      of that class if any. */
  ghost predicate SameClass(run: seq<System>, d: MessageDescriptor, py: PyClass, mapping: map<nat, Target>)
    requires run != []
  {
    && Mappings(run[0]) <= {mapping}
    && forall f <- Fasts(run[0]) :: FastDefaultsAre(py, d, Some(f.defaults))
  }

  lemma {:induction false} FastIsOptional(W: World, C: ClassInfo, py: PyClass,
      refs: Option<map<nat, Target>>, fast: Option<FastInit>, data: Bytes)
    requires WorldOk(W) && WellFormed(C.desc) && py.Valid()
    requires fast.Some? ==> FastDefaultsAre(py, C.desc, Some(fast.value.defaults))
    ensures Built(W, C, py, refs, fast, data) == Built(W, C, py, refs, None, data)
  {
    if fast.Some? {
      DecodeIgnoresFastPath(W, C.(refs := refs), py, fast.value.defaults, data, 0);
    }
  }

  /** Whatever the interleaving, every reader that got through decodes any input to the same
      instance: the one a reader alone would build after the link. */
  lemma {:induction false} ReadersAgree(run: seq<System>, k: nat, i: nat, W: World, C: ClassInfo, py: PyClass,
      mapping: map<nat, Target>, data: Bytes)
    requires Run(run) && k < |run| && i < |run[k].readers| && run[k].readers[i].SawAll?
    requires WorldOk(W) && WellFormed(C.desc) && py.Valid() && SameClass(run, C.desc, py, mapping)
    ensures var r := run[k].readers[i];
            && r.refs == Some(mapping)
            && (r.fast.Some? ==> FastDefaultsAre(py, C.desc, Some(r.fast.value.defaults)))
            && Built(W, C, py, r.refs, r.fast, data) == Built(W, C, py, Some(mapping), None, data)
  {
    EveryRunKeeps(run, k, k);
    var r := run[k].readers[i];
    assert ReaderOk(run[k].cell, r);
    if r.fast.Some? {
      FastIsOptional(W, C, py, r.refs, r.fast, data);
    }
  }

  /** For a class the plugin generated that instance has exactly the attributes and unknown bytes
      of the decoded message, and where there is none the decoder's error comes through. */
  lemma {:induction false} GeneratedIsBuilt(W: World, cls: ClassId, py: PyClass, nested: set<nat>,
      mapping: map<nat, Target>, data: Bytes)
    requires WorldOk(W) && cls in W && W[cls].refs == Some(mapping) && DistinctNames(W[cls].desc)
    requires Generated(py, W[cls].desc, nested)
    ensures var C, m := W[cls], DecodeMessage(W, cls, data, 0);
            var built := Built(W, C, py, Some(mapping), None, data);
            if m.Err? then built == Err(m.error)
            else |m.value.slots| == |C.desc.fields|
                 && built == Ok(Instance(SetAttrs(C.desc, m.value.slots, |C.desc.fields|), Some(m.value.unknown)))
  {
    var C := W[cls];
    assert C.(refs := Some(mapping)) == C;
    var st := Resume(W, C, InitState(C.desc), data, 0);
    DecodedIsFilled(W, C, data, 0);
    if st.Ok? {
      GeneratedCall(py, C.desc, nested, st.value.slots, st.value.unknown);
    }
  }
}
