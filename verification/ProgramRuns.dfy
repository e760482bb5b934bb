/**
 Any number of calls of `from_bytes` on a whole program, each linking what it needs first,
 as single steps on the cells of all classes in any order.
 */
module ProgramRuns {
  import opened Basics
  import opened Descriptors
  import opened Values
  import opened Decoding
  import opened Linking
  import opened LinkGaps
  import opened LinkedDecoding
  import opened Concurrency

  // ------------------------------------------------------------------- the steps

  /** Where a call of `_ensure_linked` stands: before the test of the flag, inside `link` with
      what it has resolved, or before the target with this index. */
  datatype Place = Entered | InLink(t: Linker) | Visiting(next: nat)

  datatype Frame = Frame(cls: ClassId, at: Place)

  /** A call of `from_bytes` and the calls of `_ensure_linked` on its stack.  With none left
      it goes on to decode, unless a name could not be resolved. */
  datatype Invocation = Invocation(cls: ClassId, stack: seq<Frame>, refused: bool) {
    predicate Through() {
      stack == [] && !refused
    }
  }

  datatype Moment = Moment(cells: Cells, calls: seq<Invocation>)

  function TargetList(refs: seq<Reference>, m: map<nat, Target>, n: nat): seq<ClassId>
    requires n <= |refs|
  {
    if n == 0 then []
    else
      var number := refs[n - 1].number;
      TargetList(refs, m, n - 1)
      + if number in m && m[number].MessageClass? then [m[number].cls] else []
  }

  /** The classes visited after `c` is linked, in order. */
  function Targets(P: Program, c: ClassId): seq<ClassId>
    requires c in P.classes
  {
    var refs := References(P.classes[c].desc.fields, |P.classes[c].desc.fields|);
    match Direct(P, c)
    case None => []
    case Some(m) => TargetList(refs, m, |refs|)
  }

  /** The last call on the stack returns, and the one below goes on to its next target. */
  function Return(stack: seq<Frame>): seq<Frame>
    requires stack != []
  {
    var rest := stack[..|stack| - 1];
    if rest == [] then []
    else
      var below := rest[|rest| - 1];
      var at := if below.at.Visiting? then Visiting(below.at.next + 1) else below.at;
      rest[|rest| - 1 := Frame(below.cls, at)]
  }

  /** One step of a stack: the stack after it, the cell of its class, and whether a name
      could not be resolved. */
  function StackStep(P: Program, fast: ClassId -> Option<FastInit>, cell: Cell, stack: seq<Frame>)
    : (seq<Frame>, Cell, bool)
    requires stack != [] && stack[|stack| - 1].cls in P.classes
  {
    var last := |stack| - 1;
    var top := stack[last];
    match top.at
    case Entered =>
      if cell.linked then (Return(stack), cell, false)
      else
        (match Direct(P, top.cls)
         case None => ([], cell, true)
         case Some(refs) =>
           (stack[last := Frame(top.cls, InLink(Linker(refs, fast(top.cls), StoreFast)))], cell, false))
    case InLink(t) =>
      var at := if t.phase == RaiseFlag then Visiting(0) else InLink(t.(phase := NextPhase(t.phase)));
      (stack[last := Frame(top.cls, at)], CellAfter(cell, t), false)
    case Visiting(n) =>
      var targets := Targets(P, top.cls);
      if n < |targets| then (stack + [Frame(targets[n], Entered)], cell, false)
      else (Return(stack), cell, false)
  }

  /** One step of one call. */
  function Advance(P: Program, fast: ClassId -> Option<FastInit>, m: Moment, i: nat): (r: Moment)
    requires i < |m.calls|
    ensures |r.calls| == |m.calls|
  {
    var call := m.calls[i];
    if call.stack == [] then m
    else
      var c := call.stack[|call.stack| - 1].cls;
      if c !in P.classes || c !in m.cells then m
      else
        var (stack, cell, refused) := StackStep(P, fast, m.cells[c], call.stack);
        Moment(m.cells[c := cell], m.calls[i := Invocation(call.cls, stack, refused)])
  }

  /** Nothing is linked, and every call is about to test the flag of its class. */
  ghost predicate Start(P: Program, m: Moment) {
    && m.cells == (map c | c in P.classes :: EMPTY)
    && forall i :: 0 <= i < |m.calls| ==>
      m.calls[i].cls in P.classes && m.calls[i] == Invocation(m.calls[i].cls, [Frame(m.calls[i].cls, Entered)], false)
  }

  ghost predicate Stepped(P: Program, fast: ClassId -> Option<FastInit>, m: Moment, next: Moment) {
    exists i :: 0 <= i < |m.calls| && next == Advance(P, fast, m, i)
  }

  /** `fast` is what `_fast_init_defaults` finds for each class. */
  ghost predicate Captures(P: Program, fast: ClassId -> Option<FastInit>) {
    forall c <- P.classes :: Captured(P, c, fast(c))
  }

  ghost predicate ProgramRun(P: Program, fast: ClassId -> Option<FastInit>, run: seq<Moment>) {
    && run != [] && Start(P, run[0]) && Captures(P, fast)
    && forall k :: 0 <= k < |run| - 1 ==> Stepped(P, fast, run[k], run[k + 1])
  }

  // --------------------------------------------------------------- the invariant

  ghost predicate FrameOk(P: Program, cells: Cells, f: Frame)
    requires cells.Keys == P.classes.Keys
  {
    f.cls in P.classes &&
    match f.at
    case Entered => true
    case InLink(t) =>
      && Direct(P, f.cls) == Some(t.mapping) && Captured(P, f.cls, t.fast) && t.phase != Done
      && (t.phase != StoreFast && t.fast.Some? ==> cells[f.cls].fast.Some?)
      && (t.phase == RaiseFlag ==> cells[f.cls].refs.Some?)
    case Visiting(n) =>
      && cells[f.cls].linked && n <= |Targets(P, f.cls)|
      && forall j :: 0 <= j < n ==> Targets(P, f.cls)[j] in Linked(cells)
  }

  /** The frame is waiting for a call of `_ensure_linked` on `c`. */
  predicate WaitsFor(P: Program, f: Frame, c: ClassId) {
    f.cls in P.classes && f.at.Visiting? && f.at.next < |Targets(P, f.cls)| && Targets(P, f.cls)[f.at.next] == c
  }

  ghost predicate StackOk(P: Program, cells: Cells, stack: seq<Frame>)
    requires cells.Keys == P.classes.Keys
  {
    && (forall k :: 0 <= k < |stack| ==> FrameOk(P, cells, stack[k]))
    && (forall k :: 0 <= k < |stack| - 1 ==> WaitsFor(P, stack[k], stack[k + 1].cls))
  }

  ghost predicate CallOk(P: Program, cells: Cells, call: Invocation)
    requires cells.Keys == P.classes.Keys
  {
    && call.cls in P.classes && StackOk(P, cells, call.stack)
    && (call.stack != [] ==> call.stack[0].cls == call.cls && !call.refused)
    && (call.Through() ==> cells[call.cls].linked)
    && (call.refused ==> !Resolvable(P, call.cls))
  }

  /** Some call has yet to visit target `j` of `c`. */
  predicate Pending(calls: seq<Invocation>, c: ClassId, j: nat) {
    exists i, k :: 0 <= i < |calls| && 0 <= k < |calls[i].stack| && YetToVisit(calls[i].stack[k], c, j)
  }

  predicate YetToVisit(f: Frame, c: ClassId, j: nat) {
    f.cls == c && f.at.Visiting? && f.at.next <= j
  }

  predicate SomeRefused(calls: seq<Invocation>) {
    exists i :: 0 <= i < |calls| && calls[i].refused
  }

  /** What a linked class references is linked, or will be visited. */
  predicate Attended(P: Program, m: Moment)
    requires m.cells.Keys == P.classes.Keys
  {
    SomeRefused(m.calls) ||
    forall c <- Linked(m.cells) :: forall j :: 0 <= j < |Targets(P, c)| ==>
      Targets(P, c)[j] in Linked(m.cells) || Pending(m.calls, c, j)
  }

  ghost predicate MomentOk(P: Program, m: Moment) {
    && m.cells.Keys == P.classes.Keys && CellsOk(P, m.cells) && Attended(P, m)
    && forall i :: 0 <= i < |m.calls| ==> CallOk(P, m.cells, m.calls[i])
  }

  predicate AllWrittenOnce(before: Cells, after: Cells) {
    before.Keys == after.Keys && forall c <- before :: WrittenOnce(before[c], after[c])
  }

  // ------------------------------------------------------------ every step keeps it

  lemma {:induction false} TargetMeans(refs: seq<Reference>, m: map<nat, Target>, n: nat, j: nat)
    requires n <= |refs| && j < |TargetList(refs, m, n)|
    ensures exists k <- m :: m[k] == MessageClass(TargetList(refs, m, n)[j])
  {
    if j >= |TargetList(refs, m, n - 1)| {
      assert m[refs[n - 1].number] == MessageClass(TargetList(refs, m, n)[j]);
    } else {
      TargetMeans(refs, m, n - 1, j);
    }
  }

  /** A target is what some reference of the class means. */
  lemma {:induction false} TargetIsReference(P: Program, c: ClassId, j: nat)
    requires P.Valid() && c in P.classes && j < |Targets(P, c)|
    ensures Direct(P, c).Some? && Targets(P, c)[j] in P.classes
    ensures exists k <- Direct(P, c).value :: Direct(P, c).value[k] == MessageClass(Targets(P, c)[j])
  {
    var refs := References(P.classes[c].desc.fields, |P.classes[c].desc.fields|);
    TargetMeans(refs, Direct(P, c).value, |refs|, j);
    ResolvedTargets(P, c, refs, |refs|);
  }

  lemma {:induction false} ListedTargets(refs: seq<Reference>, m: map<nat, Target>, n: nat, i: nat)
    requires i < n <= |refs| && refs[i].number in m && m[refs[i].number].MessageClass?
    ensures m[refs[i].number].cls in TargetList(refs, m, n)
    decreases n
  {
    if i < n - 1 {
      ListedTargets(refs, m, n - 1, i);
    }
  }

  /** And every message class a reference means is a target. */
  lemma {:induction false} ReferenceIsTarget(P: Program, c: ClassId, k: nat)
    requires P.Valid() && c in P.classes && Direct(P, c).Some? && k in Direct(P, c).value
    requires Direct(P, c).value[k].MessageClass?
    ensures Direct(P, c).value[k].cls in Targets(P, c)
  {
    var refs := References(P.classes[c].desc.fields, |P.classes[c].desc.fields|);
    ResolvedTargets(P, c, refs, |refs|);
    var i :| 0 <= i < |refs| && refs[i].number == k;
    ListedTargets(refs, Direct(P, c).value, |refs|, i);
  }

  lemma {:induction false} FrameStays(P: Program, a: Cells, b: Cells, f: Frame)
    requires a.Keys == b.Keys == P.classes.Keys && AllWrittenOnce(a, b) && FrameOk(P, a, f)
    ensures FrameOk(P, b, f)
  {
    hide Direct, Targets;
    LinkedStays(a, b);
  }

  lemma {:induction false} LinkedStays(a: Cells, b: Cells)
    requires AllWrittenOnce(a, b)
    ensures Linked(a) <= Linked(b)
  {
  }

  lemma {:induction false} StackStays(P: Program, a: Cells, b: Cells, stack: seq<Frame>)
    requires a.Keys == b.Keys == P.classes.Keys && AllWrittenOnce(a, b) && StackOk(P, a, stack)
    ensures StackOk(P, b, stack)
  {
    hide FrameOk, WaitsFor, AllWrittenOnce;
    forall k | 0 <= k < |stack|
      ensures FrameOk(P, b, stack[k])
    {
      FrameStays(P, a, b, stack[k]);
    }
  }

  /** The cell of the stepping call keeps its promises. */
  lemma {:induction false} CellStep(P: Program, fast: ClassId -> Option<FastInit>, cells: Cells, stack: seq<Frame>)
    requires cells.Keys == P.classes.Keys && CellsOk(P, cells) && stack != [] && StackOk(P, cells, stack)
    ensures var c := stack[|stack| - 1].cls;
            c in P.classes &&
            var cell := StackStep(P, fast, cells[c], stack).1;
            AllWrittenOnce(cells, cells[c := cell]) && CellsOk(P, cells[c := cell])
  {
    hide Direct, Targets, Captured;
    assert FrameOk(P, cells, stack[|stack| - 1]);
  }

  /** A call returns only when its class is linked, so the one below may go on. */
  lemma {:induction false} ReturnKeeps(P: Program, cells: Cells, stack: seq<Frame>)
    requires P.Valid() && cells.Keys == P.classes.Keys && stack != [] && StackOk(P, cells, stack)
    requires stack[|stack| - 1].cls in Linked(cells)
    ensures StackOk(P, cells, Return(stack))
  {
    hide Direct, Targets;
    var rest, after := stack[..|stack| - 1], Return(stack);
    if rest != [] {
      var last := |rest| - 1;
      assert FrameOk(P, cells, stack[last]) && WaitsFor(P, stack[last], stack[last + 1].cls);
      assert FrameOk(P, cells, after[last]);
      forall k | 0 <= k < |after| - 1
        ensures WaitsFor(P, after[k], after[k + 1].cls)
      {
        assert WaitsFor(P, stack[k], stack[k + 1].cls);
      }
    }
  }

  /** Replacing the last frame by another of the same class. */
  lemma {:induction false} TopKeeps(P: Program, cells: Cells, stack: seq<Frame>, f: Frame)
    requires cells.Keys == P.classes.Keys && stack != [] && StackOk(P, cells, stack)
    requires FrameOk(P, cells, f) && f.cls == stack[|stack| - 1].cls
    ensures StackOk(P, cells, stack[|stack| - 1 := f])
  {
    hide FrameOk;
    var after := stack[|stack| - 1 := f];
    forall k | 0 <= k < |after| - 1
      ensures WaitsFor(P, after[k], after[k + 1].cls)
    {
      assert WaitsFor(P, stack[k], stack[k + 1].cls);
    }
  }

  /** Calling `_ensure_linked` on the target a frame waits for. */
  lemma {:induction false} CallKeeps(P: Program, cells: Cells, stack: seq<Frame>, c: ClassId)
    requires cells.Keys == P.classes.Keys && stack != [] && StackOk(P, cells, stack)
    requires c in P.classes && WaitsFor(P, stack[|stack| - 1], c)
    ensures StackOk(P, cells, stack + [Frame(c, Entered)])
  {
    hide WaitsFor;
    var after := stack + [Frame(c, Entered)];
    assert FrameOk(P, cells, Frame(c, Entered));
    forall k | 0 <= k < |after| - 1
      ensures WaitsFor(P, after[k], after[k + 1].cls)
    {
      if k < |stack| - 1 {
        assert WaitsFor(P, stack[k], stack[k + 1].cls);
      }
    }
  }

  /** The frame after a step inside `link`. */
  lemma {:induction false} LinkFrame(P: Program, cells: Cells, f: Frame)
    requires cells.Keys == P.classes.Keys && FrameOk(P, cells, f) && f.at.InLink?
    ensures var t := f.at.t;
            var at := if t.phase == RaiseFlag then Visiting(0) else InLink(t.(phase := NextPhase(t.phase)));
            f.cls in P.classes && FrameOk(P, cells[f.cls := CellAfter(cells[f.cls], t)], Frame(f.cls, at))
  {
    hide Direct, Targets, Captured;
  }

  lemma {:induction false} EnteredFrame(P: Program, fast: ClassId -> Option<FastInit>, cells: Cells, c: ClassId)
    requires cells.Keys == P.classes.Keys && c in P.classes && Captures(P, fast) && Direct(P, c).Some?
    ensures FrameOk(P, cells, Frame(c, InLink(Linker(Direct(P, c).value, fast(c), StoreFast))))
  {
    hide Direct, Captured;
  }

  lemma {:induction false} StackKeeps(P: Program, fast: ClassId -> Option<FastInit>, cells: Cells, stack: seq<Frame>)
    requires Captures(P, fast)
    requires P.Valid() && cells.Keys == P.classes.Keys && CellsOk(P, cells) && stack != [] && StackOk(P, cells, stack)
    ensures var c := stack[|stack| - 1].cls;
            c in P.classes &&
            var (after, cell, refused) := StackStep(P, fast, cells[c], stack);
            && StackOk(P, cells[c := cell], after)
            && (after == [] && !refused ==> cells[c].linked && stack == [stack[0]])
            && (after != [] ==> after[0].cls == stack[0].cls && !refused)
            && (refused ==> Direct(P, c).None?)
  {
    var top := stack[|stack| - 1];
    var c := top.cls;
    assert FrameOk(P, cells, top);
    CellStep(P, fast, cells, stack);
    var (after, cell, refused) := StackStep(P, fast, cells[c], stack);
    var later := cells[c := cell];
    StackStays(P, cells, later, stack);
    hide Direct, Targets, AllWrittenOnce, StackOk, CellsOk, FrameOk, Captures;
    match top.at
    case Entered =>
      if cells[c].linked {
        ReturnKeeps(P, later, stack);
      } else if Direct(P, c).Some? {
        EnteredFrame(P, fast, later, c);
        TopKeeps(P, later, stack, after[|stack| - 1]);
      } else {
        assert StackOk(P, later, []);
      }
    case InLink(t) =>
      LinkFrame(P, cells, top);
      TopKeeps(P, later, stack, after[|stack| - 1]);
    case Visiting(n) =>
      if n < |Targets(P, c)| {
        TargetIsReference(P, c, n);
        CallKeeps(P, later, stack, Targets(P, c)[n]);
      } else {
        ReturnKeeps(P, later, stack);
      }
  }

  predicate Unvisited(stack: seq<Frame>, c: ClassId, j: nat) {
    exists k :: 0 <= k < |stack| && YetToVisit(stack[k], c, j)
  }

  /** A frame goes past a target only when the target is linked. */
  lemma {:induction false} ReturnPending(P: Program, cells: Cells, stack: seq<Frame>, c: ClassId, j: nat)
    requires cells.Keys == P.classes.Keys && stack != [] && StackOk(P, cells, stack) && c in P.classes
    requires j < |Targets(P, c)| && Unvisited(stack, c, j) && stack[|stack| - 1].cls in Linked(cells)
    requires stack[|stack| - 1].at.Entered? || !YetToVisit(stack[|stack| - 1], c, j)
    ensures Unvisited(Return(stack), c, j) || Targets(P, c)[j] in Linked(cells)
  {
    hide Direct, Targets, FrameOk;
    var k :| 0 <= k < |stack| && YetToVisit(stack[k], c, j);
    assert WaitsFor(P, stack[k], stack[k + 1].cls);
    var after := Return(stack);
    if k < |stack| - 2 {
      assert after[k] == stack[k];
    } else if stack[k].at.next < j {
      assert YetToVisit(after[k], c, j);
    }
  }

  lemma {:induction false} StepPending(P: Program, fast: ClassId -> Option<FastInit>, cells: Cells, stack: seq<Frame>,
      c: ClassId, j: nat)
    requires P.Valid() && cells.Keys == P.classes.Keys && CellsOk(P, cells) && stack != [] && StackOk(P, cells, stack)
    requires c in P.classes && j < |Targets(P, c)| && stack[|stack| - 1].cls in P.classes
    ensures var top := stack[|stack| - 1].cls;
            var (after, cell, refused) := StackStep(P, fast, cells[top], stack);
            Unvisited(stack, c, j) || (c == top && cell.linked && !cells[top].linked) ==>
              refused || Unvisited(after, c, j) || Targets(P, c)[j] in Linked(cells)
  {
    var last := |stack| - 1;
    var top := stack[last];
    assert FrameOk(P, cells, top);
    var (after, cell, refused) := StackStep(P, fast, cells[top.cls], stack);
    hide Direct, Targets, FrameOk, StackOk, CellsOk;
    match top.at
    case Entered =>
      if Unvisited(stack, c, j) && cells[top.cls].linked {
        ReturnPending(P, cells, stack, c, j);
      } else if Unvisited(stack, c, j) && !refused {
        SameBelow(stack, after, c, j);
      }
    case InLink(t) =>
      if Unvisited(stack, c, j) {
        SameBelow(stack, after, c, j);
      } else if c == top.cls && cell.linked && !cells[top.cls].linked {
        assert YetToVisit(after[last], c, j);
      }
    case Visiting(n) =>
      if Unvisited(stack, c, j) {
        if n < |Targets(P, top.cls)| {
          var k :| 0 <= k < |stack| && YetToVisit(stack[k], c, j);
          assert YetToVisit(after[k], c, j);
        } else {
          ReturnPending(P, cells, stack, c, j);
        }
      }
  }

  lemma {:induction false} SameBelow(stack: seq<Frame>, after: seq<Frame>, c: ClassId, j: nat)
    requires stack != [] && |after| == |stack| && after[..|stack| - 1] == stack[..|stack| - 1]
    requires Unvisited(stack, c, j) && !stack[|stack| - 1].at.Visiting?
    ensures Unvisited(after, c, j)
  {
    var k :| 0 <= k < |stack| && YetToVisit(stack[k], c, j);
    assert after[k] == after[..|stack| - 1][k] == stack[..|stack| - 1][k];
  }

  lemma {:induction false} PendingIsUnvisited(calls: seq<Invocation>, c: ClassId, j: nat)
    ensures Pending(calls, c, j) <==> exists i :: 0 <= i < |calls| && Unvisited(calls[i].stack, c, j)
  {
  }

  function ClassesOn(stack: seq<Frame>): (r: seq<ClassId>)
    ensures |r| == |stack|
    ensures forall k :: 0 <= k < |r| ==> r[k] == stack[k].cls
  {
    seq(|stack|, k requires 0 <= k < |stack| => stack[k].cls)
  }

  lemma {:induction false} StackTail(P: Program, cells: Cells, stack: seq<Frame>)
    requires cells.Keys == P.classes.Keys && |stack| > 1 && StackOk(P, cells, stack)
    ensures StackOk(P, cells, stack[1..])
  {
    hide FrameOk, WaitsFor;
    forall k | 0 <= k < |stack[1..]| - 1
      ensures WaitsFor(P, stack[1..][k], stack[1..][k + 1].cls)
    {
      assert WaitsFor(P, stack[k + 1], stack[k + 2].cls);
    }
  }

  /** The classes on a stack are a trail. */
  lemma {:induction false} StackIsTrail(P: Program, cells: Cells, stack: seq<Frame>)
    requires P.Valid() && cells.Keys == P.classes.Keys && stack != [] && StackOk(P, cells, stack)
    ensures Trail(P, ClassesOn(stack))
  {
    assert FrameOk(P, cells, stack[0]);
    hide Direct, Targets, FrameOk;
    var c := stack[0].cls;
    if |stack| == 1 {
      assert ClassesOn(stack) == [c];
    } else {
      assert WaitsFor(P, stack[0], stack[1].cls);
      TargetIsReference(P, c, stack[0].at.next);
      var n :| n in Direct(P, c).value && Direct(P, c).value[n] == MessageClass(stack[1].cls);
      StackTail(P, cells, stack);
      StackIsTrail(P, cells, stack[1..]);
      TrailFrom(P, c, n, ClassesOn(stack[1..]));
      assert ClassesOn(stack) == [c] + ClassesOn(stack[1..]);
    }
  }

  lemma {:induction false} RefusedIsUnresolvable(P: Program, cells: Cells, stack: seq<Frame>)
    requires P.Valid() && cells.Keys == P.classes.Keys && stack != [] && StackOk(P, cells, stack)
    requires stack[|stack| - 1].cls in P.classes && Direct(P, stack[|stack| - 1].cls).None?
    ensures !Resolvable(P, stack[0].cls)
  {
    StackIsTrail(P, cells, stack);
    hide StackOk, Direct, Trail, ClassesOn;
    var trail := ClassesOn(stack);
    assert trail[0] == stack[0].cls && trail[|trail| - 1] == stack[|stack| - 1].cls;
  }

  lemma {:induction false} StepKeepsCall(P: Program, fast: ClassId -> Option<FastInit>, cells: Cells, call: Invocation)
    requires Captures(P, fast)
    requires P.Valid() && cells.Keys == P.classes.Keys && CellsOk(P, cells)
    requires CallOk(P, cells, call) && call.stack != []
    ensures var c := call.stack[|call.stack| - 1].cls;
            c in P.classes &&
            var (stack, cell, refused) := StackStep(P, fast, cells[c], call.stack);
            CallOk(P, cells[c := cell], Invocation(call.cls, stack, refused))
  {
    StackKeeps(P, fast, cells, call.stack);
    CellStep(P, fast, cells, call.stack);
    var c := call.stack[|call.stack| - 1].cls;
    if StackStep(P, fast, cells[c], call.stack).2 {
      RefusedIsUnresolvable(P, cells, call.stack);
    }
    hide StackStep, StackOk, CellsOk, Resolvable;
  }

  lemma {:induction false} OtherCallStays(P: Program, a: Cells, b: Cells, call: Invocation)
    requires a.Keys == b.Keys == P.classes.Keys && AllWrittenOnce(a, b) && CallOk(P, a, call)
    ensures CallOk(P, b, call)
  {
    StackStays(P, a, b, call.stack);
    hide StackOk, Resolvable;
  }

  /** Calls other than the stepping one keep what they have yet to visit. */
  lemma {:induction false} PendingElsewhere(calls: seq<Invocation>, i: nat, call: Invocation, c: ClassId, j: nat)
    requires i < |calls| && Pending(calls, c, j)
    ensures Unvisited(calls[i].stack, c, j) || Pending(calls[i := call], c, j)
  {
    hide Unvisited;
    PendingIsUnvisited(calls, c, j);
    PendingIsUnvisited(calls[i := call], c, j);
    var h :| 0 <= h < |calls| && Unvisited(calls[h].stack, c, j);
    assert h != i ==> calls[i := call][h] == calls[h];
  }

  lemma {:induction false} PendingHere(calls: seq<Invocation>, i: nat, call: Invocation, c: ClassId, j: nat)
    requires i < |calls| && Unvisited(call.stack, c, j)
    ensures Pending(calls[i := call], c, j)
  {
    hide Unvisited;
    PendingIsUnvisited(calls[i := call], c, j);
    assert calls[i := call][i] == call;
  }

  lemma {:induction false} RefusedHere(calls: seq<Invocation>, i: nat, call: Invocation)
    requires i < |calls|
    ensures call.refused ==> SomeRefused(calls[i := call])
    ensures SomeRefused(calls) && !calls[i].refused ==> SomeRefused(calls[i := call])
  {
    assert calls[i := call][i] == call;
    if SomeRefused(calls) && !calls[i].refused {
      var h :| 0 <= h < |calls| && calls[h].refused;
      assert calls[i := call][h] == calls[h];
    }
  }

  /** The step of one call keeps every linked class attended to. */
  lemma {:induction false} StepAttends(P: Program, fast: ClassId -> Option<FastInit>, cells: Cells,
      calls: seq<Invocation>, i: nat)
    requires Captures(P, fast)
    requires P.Valid() && MomentOk(P, Moment(cells, calls)) && i < |calls| && calls[i].stack != []
    ensures var top := calls[i].stack[|calls[i].stack| - 1].cls;
            top in P.classes &&
            var (stack, cell, refused) := StackStep(P, fast, cells[top], calls[i].stack);
            Attended(P, Moment(cells[top := cell], calls[i := Invocation(calls[i].cls, stack, refused)]))
  {
    var stack0 := calls[i].stack;
    var top := stack0[|stack0| - 1].cls;
    CellStep(P, fast, cells, stack0);
    var (stack, cell, refused) := StackStep(P, fast, cells[top], stack0);
    var call := Invocation(calls[i].cls, stack, refused);
    RefusedHere(calls, i, call);
    LinkedStays(cells, cells[top := cell]);
    hide Targets, Direct, StackOk, CellsOk, StackStep, AllWrittenOnce, Pending, Unvisited, SomeRefused, Resolvable;
    if !SomeRefused(calls[i := call]) {
      forall c, j | c in Linked(cells[top := cell]) && 0 <= j < |Targets(P, c)|
        ensures Targets(P, c)[j] in Linked(cells[top := cell]) || Pending(calls[i := call], c, j)
      {
        StepPending(P, fast, cells, stack0, c, j);
        if Unvisited(stack, c, j) {
          PendingHere(calls, i, call, c, j);
        }
        if Pending(calls, c, j) {
          PendingElsewhere(calls, i, call, c, j);
        }
      }
    }
  }

  lemma {:induction false} AdvanceKeeps(P: Program, fast: ClassId -> Option<FastInit>, m: Moment, i: nat)
    requires Captures(P, fast)
    requires P.Valid() && MomentOk(P, m) && i < |m.calls|
    ensures var next := Advance(P, fast, m, i);
            MomentOk(P, next) && AllWrittenOnce(m.cells, next.cells)
  {
    if m.calls[i].stack != [] {
      var next := Advance(P, fast, m, i);
      StepKeepsCall(P, fast, m.cells, m.calls[i]);
      CellStep(P, fast, m.cells, m.calls[i].stack);
      StepAttends(P, fast, m.cells, m.calls, i);
      hide CallOk, CellsOk, StackStep, AllWrittenOnce, Attended;
      forall h | 0 <= h < |next.calls|
        ensures CallOk(P, next.cells, next.calls[h])
      {
        if h != i {
          OtherCallStays(P, m.cells, next.cells, m.calls[h]);
        }
      }
    }
  }

  // --------------------------------------------------------------- whole runs

  lemma {:induction false} StartIsOk(P: Program, m: Moment)
    requires Start(P, m)
    ensures MomentOk(P, m)
  {
    hide Direct, Targets, Resolvable;
    forall i | 0 <= i < |m.calls|
      ensures CallOk(P, m.cells, m.calls[i])
    {
      assert FrameOk(P, m.cells, m.calls[i].stack[0]);
    }
  }

  /** At every moment of every run: references are what the names mean, who sees a flag sees
      references, what was written once stays, every call stands on a trail of classes, goes
      on to decode only through a linked class and is refused only if some name below its
      class cannot be resolved; and unless one was refused, whatever a linked class references
      is linked or waits to be visited. */
  lemma {:induction false} EveryMoment(P: Program, fast: ClassId -> Option<FastInit>, run: seq<Moment>, j: nat, k: nat)
    requires P.Valid() && ProgramRun(P, fast, run) && j <= k < |run|
    ensures MomentOk(P, run[k]) && AllWrittenOnce(run[j].cells, run[k].cells)
    decreases k
  {
    hide MomentOk, Start;
    if k == 0 {
      StartIsOk(P, run[0]);
    } else {
      EveryMoment(P, fast, run, if j < k then j else k - 1, k - 1);
      assert Stepped(P, fast, run[k - 1], run[k]);
      var i :| 0 <= i < |run[k - 1].calls| && run[k] == Advance(P, fast, run[k - 1], i);
      AdvanceKeeps(P, fast, run[k - 1], i);
    }
  }

  /** At every moment of every run, some input decoded through a class meets a link error
      exactly when there is a gap below the class at that moment. */
  lemma {:induction false} RunGapIsExact(P: Program, fast: ClassId -> Option<FastInit>, run: seq<Moment>, k: nat,
      c: ClassId)
    requires P.Valid() && Compiled(P) && ProgramRun(P, fast, run) && k < |run| && c in P.classes
    ensures run[k].cells.Keys == P.classes.Keys
    ensures MeetsLinkError(WorldAt(P, run[k].cells), c) <==> HasGap(P, run[k].cells, c)
  {
    EveryMoment(P, fast, run, k, k);
    ProgramGapIsExact(P, run[k].cells, c);
  }

  /** Gaps only close; and a decode at one moment agrees, on every input, with a decode at a
      later one without a gap exactly if there was no gap already. */
  lemma {:induction false} RunIsSteady(P: Program, fast: ClassId -> Option<FastInit>, run: seq<Moment>, j: nat,
      k: nat, c: ClassId)
    requires P.Valid() && Compiled(P) && ProgramRun(P, fast, run) && j <= k < |run| && c in P.classes
    ensures run[j].cells.Keys == run[k].cells.Keys == P.classes.Keys
    ensures HasGap(P, run[k].cells, c) ==> HasGap(P, run[j].cells, c)
    ensures var W, V := WorldAt(P, run[j].cells), WorldAt(P, run[k].cells);
            !HasGap(P, run[k].cells, c) ==>
              ((forall data :: DecodeMessage(W, c, data, 0) == DecodeMessage(V, c, data, 0))
               <==> !HasGap(P, run[j].cells, c))
  {
    EveryMoment(P, fast, run, j, j);
    EveryMoment(P, fast, run, j, k);
    SteadyOnceNoGap(P, run[j].cells, run[k].cells, c);
  }

  /** Every call has returned from linking, and none was refused. */
  predicate Quiet(m: Moment) {
    forall i :: 0 <= i < |m.calls| ==> m.calls[i].Through()
  }

  lemma {:induction false} QuietIsClosed(P: Program, m: Moment)
    requires P.Valid() && MomentOk(P, m) && Quiet(m)
    ensures Closed(P, m.cells)
  {
    hide Direct, Targets;
    forall c <- Linked(m.cells)
      ensures ClosedAt(P, m.cells, c)
    {
      forall n | n in m.cells[c].refs.value && m.cells[c].refs.value[n].MessageClass?
        ensures m.cells[c].refs.value[n].cls in Linked(m.cells)
      {
        ReferenceIsTarget(P, c, n);
        var j :| 0 <= j < |Targets(P, c)| && Targets(P, c)[j] == m.cells[c].refs.value[n].cls;
        assert !Pending(m.calls, c, j);
      }
    }
  }

  /** When all calls are through with linking, whatever the interleaving was, the linked
      classes are closed, among them the class of every call; there is a gap only where fields
      go astray for good; where names mean message classes no input meets a link error. */
  lemma {:induction false} QuietRun(P: Program, fast: ClassId -> Option<FastInit>, run: seq<Moment>, k: nat, c: ClassId)
    requires P.Valid() && Compiled(P) && ProgramRun(P, fast, run) && k < |run| && Quiet(run[k])
    ensures run[k].cells.Keys == P.classes.Keys && Closed(P, run[k].cells)
    ensures forall i :: 0 <= i < |run[k].calls| ==> run[k].calls[i].cls in Linked(run[k].cells)
    ensures c in Linked(run[k].cells) ==> (HasGap(P, run[k].cells, c) <==> Misled(P, c))
    ensures ProperlyNamed(P) && c in Linked(run[k].cells) ==> !MeetsLinkError(WorldAt(P, run[k].cells), c)
  {
    EveryMoment(P, fast, run, k, k);
    QuietIsClosed(P, run[k]);
    forall i | 0 <= i < |run[k].calls|
      ensures run[k].calls[i].cls in Linked(run[k].cells)
    {
      assert CallOk(P, run[k].cells, run[k].calls[i]);
    }
    hide Closed, HasGap, Misled, ProperlyNamed, CallOk, Attended, MeetsLinkError;
    if c in Linked(run[k].cells) {
      ClosedGapIsMisled(P, run[k].cells, c);
      ProgramGapIsExact(P, run[k].cells, c);
      if ProperlyNamed(P) {
        NamedIsNotMisled(P, c);
      }
    }
  }

  /** Where every name can be resolved, no call is ever refused. */
  lemma {:induction false} NoneRefused(P: Program, fast: ClassId -> Option<FastInit>, run: seq<Moment>, k: nat, i: nat)
    requires P.Valid() && ProgramRun(P, fast, run) && k < |run| && i < |run[k].calls|
    requires forall c <- P.classes :: Direct(P, c).Some?
    ensures !run[k].calls[i].refused
  {
    EveryMoment(P, fast, run, k, k);
    hide Direct;
    assert CallOk(P, run[k].cells, run[k].calls[i]);
    assert Resolvable(P, run[k].calls[i].cls);
  }

  // ---------------------------------------------------- when a race can be seen

  /** Some call of `from_bytes` on `c` is through with linking at a moment when decoding can
      meet a link error. */
  ghost predicate FailsAfter(P: Program, fast: ClassId -> Option<FastInit>, run: seq<Moment>, c: ClassId)
    requires run != []
  {
    var now := run[|run| - 1];
    && ProgramRun(P, fast, run) && now.cells.Keys == P.classes.Keys && MeetsLinkError(WorldAt(P, now.cells), c)
    && exists i :: 0 <= i < |now.calls| && now.calls[i].cls == c && now.calls[i].Through()
  }

  ghost predicate CanFailAfter(P: Program, fast: ClassId -> Option<FastInit>, c: ClassId) {
    exists run :: run != [] && FailsAfter(P, fast, run, c)
  }

  /** Instances of `c` hold instances of another class that has message fields itself. */
  ghost predicate HoldsHolder(P: Program, c: ClassId)
    requires c in P.classes
  {
    exists d <- P.classes :: d != c && Leads(P, c, d) && HasMessages(P, d)
  }

  lemma {:induction false} LeadsHasMessages(P: Program, cells: Cells, trail: seq<ClassId>)
    requires cells.Keys == P.classes.Keys && GapTrail(P, cells, trail)
    ensures trail != [] && trail[0] in P.classes && HasMessages(P, trail[0])
  {
    hide Decodable, Meant, Direct;
    if |trail| > 1 {
      assert Leads(P, trail[0], trail[1]);
    }
  }

  /** A gap below a class with references is at its own fields or below another class. */
  lemma {:induction false} GapBelow(P: Program, cells: Cells, trail: seq<ClassId>)
    requires cells.Keys == P.classes.Keys && GapTrail(P, cells, trail) && cells[trail[0]].refs.Some?
    ensures trail[0] in P.classes && (Strays(P, trail[0]) || HoldsHolder(P, trail[0]))
  {
    hide Leads, HasMessages, Strays, GapTrail;
    GapTrailHead(P, cells, trail);
    if |trail| > 1 {
      LeadsHasMessages(P, cells, trail[1..]);
      if trail[1] == trail[0] {
        GapBelow(P, cells, trail[1..]);
      }
    }
  }

  lemma {:induction false} RunGoesOn(P: Program, fast: ClassId -> Option<FastInit>, run: seq<Moment>, i: nat)
    requires run != [] && ProgramRun(P, fast, run) && i < |run[|run| - 1].calls|
    ensures ProgramRun(P, fast, run + [Advance(P, fast, run[|run| - 1], i)])
  {
    hide Start, Advance;
    var next := Advance(P, fast, run[|run| - 1], i);
    var longer := run + [next];
    assert Stepped(P, fast, run[|run| - 1], next);
    hide Stepped;
    forall k | 0 <= k < |longer| - 1
      ensures Stepped(P, fast, longer[k], longer[k + 1])
    {
      if k < |run| - 1 {
        assert longer[k] == run[k] && longer[k + 1] == run[k + 1];
      }
    }
  }

  /** The moment after these steps. */
  function After(P: Program, fast: ClassId -> Option<FastInit>, m: Moment, steps: seq<nat>): (r: Moment)
    requires forall k :: 0 <= k < |steps| ==> steps[k] < |m.calls|
    ensures |r.calls| == |m.calls|
    decreases |steps|
  {
    if steps == [] then m else After(P, fast, Advance(P, fast, m, steps[0]), steps[1..])
  }

  lemma {:induction false} StepsAreRun(P: Program, fast: ClassId -> Option<FastInit>, run: seq<Moment>, steps: seq<nat>)
    returns (longer: seq<Moment>)
    requires run != [] && ProgramRun(P, fast, run)
    requires forall k :: 0 <= k < |steps| ==> steps[k] < |run[|run| - 1].calls|
    ensures longer != [] && ProgramRun(P, fast, longer)
    ensures longer[|longer| - 1] == After(P, fast, run[|run| - 1], steps)
    decreases |steps|
  {
    hide Advance, ProgramRun;
    longer := run;
    if steps != [] {
      RunGoesOn(P, fast, run, steps[0]);
      longer := StepsAreRun(P, fast, run + [Advance(P, fast, run[|run| - 1], steps[0])], steps[1..]);
    }
  }

  lemma {:induction false} EnterStep(P: Program, fast: ClassId -> Option<FastInit>, cells: Cells, c: ClassId,
      other: Invocation)
    requires c in P.classes && c in cells && !cells[c].linked && Direct(P, c).Some?
    ensures Advance(P, fast, Moment(cells, [Invocation(c, [Frame(c, Entered)], false), other]), 0)
         == var t := Linker(Direct(P, c).value, fast(c), StoreFast);
            Moment(cells, [Invocation(c, [Frame(c, InLink(t))], false), other])
  {
    hide Direct;
    var f := Frame(c, InLink(Linker(Direct(P, c).value, fast(c), StoreFast)));
    assert [Frame(c, Entered)][0 := f] == [f];
    var first, next := Invocation(c, [Frame(c, Entered)], false), Invocation(c, [f], false);
    assert [first, other][0 := next] == [next, other];
    assert cells[c := cells[c]] == cells;
  }

  lemma {:induction false} LinkStep(P: Program, fast: ClassId -> Option<FastInit>, cells: Cells, c: ClassId, t: Linker,
      at: Place, other: Invocation)
    requires c in P.classes && c in cells
    requires at == if t.phase == RaiseFlag then Visiting(0) else InLink(t.(phase := NextPhase(t.phase)))
    ensures Advance(P, fast, Moment(cells, [Invocation(c, [Frame(c, InLink(t))], false), other]), 0)
         == Moment(cells[c := CellAfter(cells[c], t)], [Invocation(c, [Frame(c, at)], false), other])
  {
    var f := Frame(c, InLink(t));
    assert [f][0 := Frame(c, at)] == [Frame(c, at)];
    var first, next := Invocation(c, [f], false), Invocation(c, [Frame(c, at)], false);
    assert [first, other][0 := next] == [next, other];
  }

  lemma {:induction false} ReturnStep(P: Program, fast: ClassId -> Option<FastInit>, cells: Cells, c: ClassId,
      other: Invocation)
    requires c in P.classes && c in cells && cells[c].linked
    ensures Advance(P, fast, Moment(cells, [other, Invocation(c, [Frame(c, Entered)], false)]), 1)
         == Moment(cells, [other, Invocation(c, [], false)])
  {
    var call := Invocation(c, [Frame(c, Entered)], false);
    assert Return(call.stack) == [];
    assert [other, call][1 := Invocation(c, [], false)] == [other, Invocation(c, [], false)];
    assert cells[c := cells[c]] == cells;
  }

  /** Four steps of one call raise the flag of its class before anything below is visited;
      then another call finds it raised. */
  lemma {:induction false} WindowOpens(P: Program, fast: ClassId -> Option<FastInit>, cells: Cells, c: ClassId)
    requires c in P.classes && Direct(P, c).Some? && c in cells && cells[c] == EMPTY
    ensures var call := Invocation(c, [Frame(c, Entered)], false);
            After(P, fast, Moment(cells, [call, call]), [0, 0, 0, 0, 1])
            == Moment(cells[c := Cell(Direct(P, c), fast(c), true)],
                      [Invocation(c, [Frame(c, Visiting(0))], false), Invocation(c, [], false)])
  {
    var call, t := Invocation(c, [Frame(c, Entered)], false), Linker(Direct(P, c).value, fast(c), StoreFast);
    EnterStep(P, fast, cells, c, call);
    LinkStep(P, fast, cells, c, t, InLink(t.(phase := StoreRefs)), call);
    var cells2 := cells[c := Cell(None, fast(c), false)];
    LinkStep(P, fast, cells2, c, t.(phase := StoreRefs), InLink(t.(phase := RaiseFlag)), call);
    var cells3 := cells[c := Cell(Direct(P, c), fast(c), false)];
    LinkStep(P, fast, cells3, c, t.(phase := RaiseFlag), Visiting(0), call);
    var cells4 := cells[c := Cell(Direct(P, c), fast(c), true)];
    hide Advance, Direct, After;
    assert cells[c := CellAfter(cells[c], t)] == cells2;
    assert cells2[c := CellAfter(cells2[c], t.(phase := StoreRefs))] == cells3;
    assert cells3[c := CellAfter(cells3[c], t.(phase := RaiseFlag))] == cells4;
    var m4 := Moment(cells4, [Invocation(c, [Frame(c, Visiting(0))], false), call]);
    ReturnStep(P, fast, cells4, c, Invocation(c, [Frame(c, Visiting(0))], false));
    FiveSteps(P, fast, Moment(cells, [call, call]),
              Moment(cells, [Invocation(c, [Frame(c, InLink(t))], false), call]),
              Moment(cells2, [Invocation(c, [Frame(c, InLink(t.(phase := StoreRefs)))], false), call]),
              Moment(cells3, [Invocation(c, [Frame(c, InLink(t.(phase := RaiseFlag)))], false), call]), m4);
  }

  lemma {:induction false} FiveSteps(P: Program, fast: ClassId -> Option<FastInit>, m: Moment, m1: Moment, m2: Moment,
      m3: Moment, m4: Moment)
    requires |m.calls| == 2 && m1 == Advance(P, fast, m, 0) && m2 == Advance(P, fast, m1, 0)
    requires m3 == Advance(P, fast, m2, 0) && m4 == Advance(P, fast, m3, 0)
    ensures After(P, fast, m, [0, 0, 0, 0, 1]) == Advance(P, fast, m4, 1)
  {
    hide Advance;
    assert [0, 0, 0, 0, 1][1..] == [0, 0, 0, 1];
    assert [0, 0, 0, 1][1..] == [0, 0, 1] && [0, 0, 1][1..] == [0, 1] && [0, 1][1..] == [1] && [1][1..] == [];
    assert After(P, fast, m4, [1]) == Advance(P, fast, m4, 1);
    assert After(P, fast, m3, [0, 1]) == After(P, fast, m4, [1]);
    assert After(P, fast, m2, [0, 0, 1]) == After(P, fast, m3, [0, 1]);
    assert After(P, fast, m1, [0, 0, 0, 1]) == After(P, fast, m2, [0, 0, 1]);
  }

  lemma {:induction false} OpenWindow(P: Program, fast: ClassId -> Option<FastInit>, c: ClassId)
    returns (run: seq<Moment>)
    requires Captures(P, fast)
    requires P.Valid() && c in P.classes && Direct(P, c).Some?
    ensures run != [] && ProgramRun(P, fast, run)
    ensures var now := run[|run| - 1];
            && now.cells == (map d | d in P.classes :: EMPTY)[c := Cell(Direct(P, c), fast(c), true)]
            && |now.calls| == 2 && now.calls[1] == Invocation(c, [], false)
  {
    hide Direct, Advance, After;
    var call := Invocation(c, [Frame(c, Entered)], false);
    var m := Moment(map d | d in P.classes :: EMPTY, [call, call]);
    assert ProgramRun(P, fast, [m]);
    WindowOpens(P, fast, m.cells, c);
    run := StepsAreRun(P, fast, [m], [0, 0, 0, 0, 1]);
  }

  /**
   Whether calls of `from_bytes` on `c` racing for the first link can be told from later ones
   by a link error depends on the program alone: they can if and only if instances of `c` hold
   instances of another class with message fields, or a message field of `c` itself goes astray.
   */
  lemma {:induction false} RaceIsExact(P: Program, fast: ClassId -> Option<FastInit>, c: ClassId)
    requires Captures(P, fast)
    requires P.Valid() && Compiled(P) && c in P.classes
    ensures CanFailAfter(P, fast, c) <==> HoldsHolder(P, c) || Strays(P, c)
  {
    hide FailsAfter, HoldsHolder, Strays;
    if CanFailAfter(P, fast, c) {
      var run :| run != [] && FailsAfter(P, fast, run, c);
      FailsOnlyIf(P, fast, run, c);
    }
    if HoldsHolder(P, c) || Strays(P, c) {
      var run := RaceIsReachable(P, fast, c);
    }
  }

  lemma {:induction false} FailureBelow(P: Program, cells: Cells, c: ClassId)
    requires Usable(P, cells) && c in P.classes && cells[c].refs.Some? && MeetsLinkError(WorldAt(P, cells), c)
    ensures HoldsHolder(P, c) || Strays(P, c)
  {
    hide HoldsHolder, Strays, CellsOk, Compiled, MeetsLinkError, Leads, Stuck;
    ProgramGapIsExact(P, cells, c);
    var trail :| GapTrail(P, cells, trail) && trail[0] == c && |trail| <= MAX_DEPTH + 1;
    GapBelow(P, cells, trail);
  }

  lemma {:induction false} ThroughIsLinked(P: Program, m: Moment, i: nat)
    requires MomentOk(P, m) && i < |m.calls| && m.calls[i].Through()
    ensures m.calls[i].cls in P.classes && m.cells[m.calls[i].cls].refs.Some?
  {
    hide StackOk, Attended, Resolvable, Direct;
    assert CallOk(P, m.cells, m.calls[i]);
  }

  lemma {:induction false} FailsOnlyIf(P: Program, fast: ClassId -> Option<FastInit>, run: seq<Moment>, c: ClassId)
    requires P.Valid() && Compiled(P) && c in P.classes && run != [] && FailsAfter(P, fast, run, c)
    ensures HoldsHolder(P, c) || Strays(P, c)
  {
    hide MeetsLinkError, HoldsHolder, Strays, Attended, CallOk, CellsOk, Compiled, ProgramRun;
    var now := run[|run| - 1];
    EveryMoment(P, fast, run, |run| - 1, |run| - 1);
    var i :| 0 <= i < |now.calls| && now.calls[i].cls == c && now.calls[i].Through();
    ThroughIsLinked(P, now, i);
    FailureBelow(P, now.cells, c);
  }

  /** With references stored for `c` alone there is a gap. */
  lemma {:induction false} AloneFails(P: Program, cells: Cells, c: ClassId)
    requires Usable(P, cells) && c in P.classes && (HoldsHolder(P, c) || Strays(P, c))
    requires forall d <- P.classes :: cells[d].refs.Some? <==> d == c
    ensures MeetsLinkError(WorldAt(P, cells), c)
  {
    hide Strays, Leads, HasMessages, CellsOk, Compiled, MeetsLinkError;
    ProgramGapIsExact(P, cells, c);
    if Strays(P, c) {
      assert GapTrail(P, cells, [c]);
    } else {
      var d :| d in P.classes && d != c && Leads(P, c, d) && HasMessages(P, d);
      assert GapTrail(P, cells, [c, d]);
    }
  }

  lemma {:induction false} RaceIsReachable(P: Program, fast: ClassId -> Option<FastInit>, c: ClassId)
    returns (run: seq<Moment>)
    requires Captures(P, fast)
    requires P.Valid() && Compiled(P) && c in P.classes && (HoldsHolder(P, c) || Strays(P, c))
    ensures run != [] && FailsAfter(P, fast, run, c)
  {
    hide *;
    HolderIsDirect(P, c);
    run := OpenWindow(P, fast, c);
    EveryMoment(P, fast, run, |run| - 1, |run| - 1);
    MomentIsOk(P, run[|run| - 1]);
    WindowFails(P, run[|run| - 1].cells, fast(c), c);
    SecondFails(P, fast, run, c);
  }

  lemma {:induction false} MomentIsOk(P: Program, m: Moment)
    requires MomentOk(P, m)
    ensures m.cells.Keys == P.classes.Keys && CellsOk(P, m.cells)
  {
    hide CellsOk, Attended, CallOk;
  }

  lemma {:induction false} SecondFails(P: Program, fast: ClassId -> Option<FastInit>, run: seq<Moment>, c: ClassId)
    requires run != [] && ProgramRun(P, fast, run)
    requires var now := run[|run| - 1];
             && now.cells.Keys == P.classes.Keys && |now.calls| == 2 && now.calls[1] == Invocation(c, [], false)
             && MeetsLinkError(WorldAt(P, now.cells), c)
    ensures FailsAfter(P, fast, run, c)
  {
    hide MeetsLinkError, ProgramRun, WorldAt;
    assert run[|run| - 1].calls[1].Through();
  }

  lemma {:induction false} WindowFails(P: Program, cells: Cells, context: Option<FastInit>, c: ClassId)
    requires P.Valid() && Compiled(P) && c in P.classes && (HoldsHolder(P, c) || Strays(P, c))
    requires cells == (map d | d in P.classes :: EMPTY)[c := Cell(Direct(P, c), context, true)]
    requires Direct(P, c).Some? && CellsOk(P, cells)
    ensures MeetsLinkError(WorldAt(P, cells), c)
  {
    hide MeetsLinkError, HoldsHolder, Strays, CellsOk, Compiled, Direct;
    AloneFails(P, cells, c);
  }

  lemma {:induction false} HolderIsDirect(P: Program, c: ClassId)
    requires c in P.classes && (HoldsHolder(P, c) || Strays(P, c))
    ensures Direct(P, c).Some?
  {
    hide Direct, Decodable;
  }

  // --------------------------------------------------------- every call gets through

  /** The classes the call may still enter `link` for. */
  function Unentered(cells: Cells, stack: seq<Frame>): set<ClassId> {
    var unlinked := set c | c in cells && !cells[c].linked;
    if stack != [] && stack[|stack| - 1].at.InLink? then unlinked - {stack[|stack| - 1].cls} else unlinked
  }

  function PhasesLeft(phase: Phase): nat {
    match phase
    case StoreFast => 3
    case StoreRefs => 2
    case RaiseFlag => 1
    case Done => 0
  }

  /** Steps left to a frame, those of the calls it makes counted as one each. */
  function TopStepsLeft(P: Program, f: Frame): nat {
    if f.cls !in P.classes then 1
    else
      var n := |Targets(P, f.cls)|;
      match f.at
      case Entered => 1
      case InLink(t) => 2 * n + 1 + PhasesLeft(t.phase)
      case Visiting(next) => if next <= n then 2 * (n - next) + 1 else 1
  }

  /** The same for frames that wait for a call. */
  function Below(P: Program, stack: seq<Frame>): nat {
    if stack == [] then 0
    else
      var work := TopStepsLeft(P, stack[|stack| - 1]);
      Below(P, stack[..|stack| - 1]) + if work >= 2 then work - 2 else 0
  }

  function StepsLeft(P: Program, stack: seq<Frame>): nat {
    if stack == [] then 0 else Below(P, stack[..|stack| - 1]) + TopStepsLeft(P, stack[|stack| - 1])
  }

  /** One class less to enter, or the same classes and less work. */
  predicate Closer(P: Program, cells: Cells, stack: seq<Frame>, later: Cells, after: seq<Frame>) {
    var u, v := Unentered(cells, stack), Unentered(later, after);
    v < u || (v == u && StepsLeft(P, after) < StepsLeft(P, stack))
  }

  lemma {:induction false} ReturnIsCloser(P: Program, cells: Cells, stack: seq<Frame>)
    requires cells.Keys == P.classes.Keys && stack != [] && StackOk(P, cells, stack)
    requires !stack[|stack| - 1].at.InLink?
    ensures Closer(P, cells, stack, cells, Return(stack))
  {
    hide Targets;
    assert FrameOk(P, cells, stack[|stack| - 1]);
    hide FrameOk;
    if |stack| > 1 {
      var n := |stack| - 2;
      assert WaitsFor(P, stack[n], stack[n + 1].cls);
      assert Return(stack)[..n] == stack[..n + 1][..n] == stack[..n];
    }
  }

  /** Entering `link` leaves one class less to enter. */
  lemma {:induction false} EnterIsCloser(P: Program, cells: Cells, stack: seq<Frame>, t: Linker)
    requires stack != [] && stack[|stack| - 1].at.Entered?
    requires stack[|stack| - 1].cls in cells && !cells[stack[|stack| - 1].cls].linked
    ensures var last := |stack| - 1;
            Closer(P, cells, stack, cells, stack[last := Frame(stack[last].cls, InLink(t))])
  {
    hide StepsLeft;
    var last := |stack| - 1;
    var c := stack[last].cls;
    var after := stack[last := Frame(c, InLink(t))];
    assert c in Unentered(cells, stack) && c !in Unentered(cells, after);
  }

  /** A step inside `link`. */
  lemma {:induction false} LinkIsCloser(P: Program, cells: Cells, stack: seq<Frame>)
    requires cells.Keys == P.classes.Keys && stack != [] && StackOk(P, cells, stack)
    requires stack[|stack| - 1].at.InLink?
    ensures var last := |stack| - 1;
            var t, c := stack[last].at.t, stack[last].cls;
            var at := if t.phase == RaiseFlag then Visiting(0) else InLink(t.(phase := NextPhase(t.phase)));
            c in cells && Closer(P, cells, stack, cells[c := CellAfter(cells[c], t)], stack[last := Frame(c, at)])
  {
    var last := |stack| - 1;
    var t, c := stack[last].at.t, stack[last].cls;
    assert FrameOk(P, cells, stack[last]);
    hide Targets, Direct, FrameOk, StackOk;
    var at := if t.phase == RaiseFlag then Visiting(0) else InLink(t.(phase := NextPhase(t.phase)));
    var later, after := cells[c := CellAfter(cells[c], t)], stack[last := Frame(c, at)];
    assert after[..last] == stack[..last];
    assert StepsLeft(P, after) < StepsLeft(P, stack);
    assert Unentered(later, after) == Unentered(cells, stack);
  }

  lemma {:induction false} VisitIsCloser(P: Program, cells: Cells, stack: seq<Frame>, d: ClassId)
    requires cells.Keys == P.classes.Keys && stack != [] && WaitsFor(P, stack[|stack| - 1], d)
    ensures Closer(P, cells, stack, cells, stack + [Frame(d, Entered)])
  {
    hide Targets;
    var after := stack + [Frame(d, Entered)];
    assert after[..|stack|] == stack;
  }

  /** Every step of a call is progress: it enters one class less, or has less work left. */
  lemma {:induction false} StepIsProgress(P: Program, fast: ClassId -> Option<FastInit>, cells: Cells,
      stack: seq<Frame>)
    requires P.Valid() && cells.Keys == P.classes.Keys && stack != [] && StackOk(P, cells, stack)
    ensures var c := stack[|stack| - 1].cls;
            c in P.classes &&
            var (after, cell, refused) := StackStep(P, fast, cells[c], stack);
            Closer(P, cells, stack, cells[c := cell], after)
  {
    var top := stack[|stack| - 1];
    assert FrameOk(P, cells, top);
    var c := top.cls;
    var (after, cell, refused) := StackStep(P, fast, cells[c], stack);
    assert cells[c := cells[c]] == cells;
    hide Direct, Targets, Closer;
    match top.at
    case Entered =>
      if cells[c].linked {
        ReturnIsCloser(P, cells, stack);
      } else if refused {
        RefusalIsCloser(P, cells, stack);
      } else {
        EnterIsCloser(P, cells, stack, after[|stack| - 1].at.t);
      }
    case InLink(t) => LinkIsCloser(P, cells, stack);
    case Visiting(n) =>
      if n < |Targets(P, c)| {
        VisitIsCloser(P, cells, stack, Targets(P, c)[n]);
      } else {
        ReturnIsCloser(P, cells, stack);
      }
  }

  lemma {:induction false} RefusalIsCloser(P: Program, cells: Cells, stack: seq<Frame>)
    requires cells.Keys == P.classes.Keys && stack != [] && stack[|stack| - 1].at.Entered?
    ensures Closer(P, cells, stack, cells, [])
  {
    hide Targets, Below;
  }

  /** The steps of other calls leave it no more to do. */
  lemma {:induction false} OthersDoNotDelay(a: Cells, b: Cells, stack: seq<Frame>)
    requires AllWrittenOnce(a, b)
    ensures Unentered(b, stack) <= Unentered(a, stack)
  {
  }

  /** `n` steps of one call. */
  function Alone(P: Program, fast: ClassId -> Option<FastInit>, m: Moment, i: nat, n: nat): (r: Moment)
    requires i < |m.calls|
    ensures |r.calls| == |m.calls|
    decreases n
  {
    if n == 0 then m else Alone(P, fast, Advance(P, fast, m, i), i, n - 1)
  }

  lemma {:induction false} AdvanceIsProgress(P: Program, fast: ClassId -> Option<FastInit>, m: Moment, i: nat)
    requires P.Valid() && MomentOk(P, m) && i < |m.calls| && m.calls[i].stack != []
    ensures var next := Advance(P, fast, m, i);
            Closer(P, m.cells, m.calls[i].stack, next.cells, next.calls[i].stack)
  {
    hide StackOk, StackStep, Closer, CellsOk, Attended, Resolvable;
    assert CallOk(P, m.cells, m.calls[i]);
    StepIsProgress(P, fast, m.cells, m.calls[i].stack);
  }

  /** From every moment of a run each call gets through with linking by its own steps alone:
      none ever waits for another. */
  lemma {:induction false} CallGetsThrough(P: Program, fast: ClassId -> Option<FastInit>, m: Moment, i: nat)
    returns (n: nat)
    requires Captures(P, fast)
    requires P.Valid() && MomentOk(P, m) && i < |m.calls|
    ensures Alone(P, fast, m, i, n).calls[i].stack == []
    decreases Unentered(m.cells, m.calls[i].stack), StepsLeft(P, m.calls[i].stack)
  {
    hide MomentOk, Unentered, StepsLeft, Advance;
    if m.calls[i].stack == [] {
      n := 0;
    } else {
      AdvanceKeeps(P, fast, m, i);
      AdvanceIsProgress(P, fast, m, i);
      var rest := CallGetsThrough(P, fast, Advance(P, fast, m, i), i);
      n := rest + 1;
    }
  }
}
