/**
 Two concrete programs of two classes, each with one message field that holds instances of
 the second: one whose calls race, and one whose link fails below the first class.
 */
module LinkingExamples {
  import opened Basics
  import opened Descriptors
  import opened FieldIndexing
  import opened Values
  import opened Construction
  import opened Linking
  import opened LinkGaps
  import opened LinkedDecoding
  import opened Concurrency
  import opened ProgramRuns

  const SECOND: Name := [66]

  const FIELD := FieldDescriptor(1, [98], FieldKind.Plain(Message), Optional, Some(SECOND), None)

  /** `message A { B b = 1; }` and `message B { B b = 1; }` look the same to the codec. */
  const HOLDER := MessageDescriptor([65], [FIELD], [])

  predicate Holders(P: Program) {
    && P.classes.Keys == {0, 1}
    && forall c <- P.classes :: P.classes[c].desc == HOLDER && P.classes[c].index == Dense([0, 1])
  }

  /** The name of the second class means it in the module of the first, and, if `both`, in its
      own; nothing else means anything. */
  function Names(both: bool): (ClassId, Name) -> Option<Target> {
    (c, name) => if name == SECOND && (c == 0 || both) then Some(MessageClass(1)) else None
  }

  method MakeHolders(both: bool) returns (P: Program)
    ensures Holders(P) && P.Valid() && P.resolve == Names(both) && fresh(P.classes.Values)
    ensures Now(P) == map[0 := EMPTY, 1 := EMPTY]
  {
    var first := new Descriptor(HOLDER, Dense([0, 1]));
    var second := new Descriptor(HOLDER, Dense([0, 1]));
    var plain := PyClass(false, false, false, true, true, true, [], _ => Err(Raised));
    P := Program(map[0 := first, 1 := second], Names(both), map[0 := plain, 1 := plain]);
  }

  lemma {:induction false} HoldersAreCompiled(P: Program)
    requires Holders(P)
    ensures Compiled(P)
  {
    assert HOLDER.fields == [FIELD];
    forall number: nat
      ensures Dense([0, 1]).Get(number) == Lookup(HOLDER.fields, number)
    {
      assert LookupFrom(HOLDER.fields, number, 1) == None;
    }
  }

  lemma {:induction false} HoldersRefer(P: Program, both: bool, c: ClassId)
    requires Holders(P) && P.resolve == Names(both) && c in P.classes
    ensures Direct(P, c) == if c == 0 || both then Some(map[1 := MessageClass(1)]) else None
    ensures HasMessages(P, c)
    ensures c == 0 || both ==> Leads(P, c, 1)
  {
    assert HOLDER.fields == [FIELD];
    var refs := References(HOLDER.fields, 1);
    assert References(HOLDER.fields, 0) == [] && HOLDER.fields[0] == FIELD && NeedsClass(FIELD);
    assert refs == [Reference(1, SECOND)];
    assert Resolved(P, c, refs, 0) == Some(map[]);
    assert Decodable(HOLDER, 0);
    assert c == 0 || both ==> Meant(P, c, 0) == Some(MessageClass(1));
  }

  lemma {:induction false} HoldersAreNamed(P: Program)
    requires Holders(P) && P.resolve == Names(true)
    ensures ProperlyNamed(P)
  {
    assert HOLDER.fields == [FIELD];
  }

  lemma {:induction false} FirstHoldsHolder(P: Program)
    requires Holders(P) && P.resolve == Names(true)
    ensures HoldsHolder(P, 0)
  {
    HoldersRefer(P, true, 0);
    HoldersRefer(P, true, 1);
    hide Leads, HasMessages, Direct;
    assert 1 in P.classes && Leads(P, 0, 1) && HasMessages(P, 1);
  }

  lemma {:induction false} AllResolve(P: Program, c: ClassId)
    requires Holders(P) && P.resolve == Names(true) && c in P.classes
    ensures Direct(P, c).Some?
  {
    HoldersRefer(P, true, c);
  }

  /** Every name means the message class it should, and yet a racing call on the first class
      can meet a link error. */
  lemma {:induction false} RaceIsSeen(P: Program, fast: ClassId -> Option<FastInit>)
    requires Holders(P) && P.Valid() && P.resolve == Names(true) && Captures(P, fast)
    ensures Compiled(P) && ProperlyNamed(P) && forall c <- P.classes :: Direct(P, c).Some?
    ensures 0 in P.classes && CanFailAfter(P, fast, 0)
  {
    HoldersAreCompiled(P);
    HoldersAreNamed(P);
    FirstHoldsHolder(P);
    hide Compiled, ProperlyNamed, Direct, HoldsHolder, CanFailAfter, Strays;
    forall c | c in P.classes
      ensures Direct(P, c).Some?
    {
      AllResolve(P, c);
    }
    RaceIsExact(P, fast, 0);
  }

  /** The failed link has a trail from the first class to the second, which stays unlinked. */
  lemma {:induction false} FailedTrail(P: Program, before: Cells, after: Cells, trail: seq<ClassId>)
    requires Holders(P) && P.resolve == Names(false) && before.Keys == after.Keys == P.classes.Keys
    requires Failed(P, before, after, 0, trail)
    ensures trail == [0, 1] && 0 in Linked(after) && 1 !in Linked(after)
    ensures Settled(after) && Kept(before, after) && NewAreSound(P, before, after)
  {
    HoldersRefer(P, false, 0);
    HoldersRefer(P, false, 1);
    hide Direct;
    assert |trail| > 1 && trail[1] == 1;
    assert |trail| == 2;
  }

  /** A completed link would have resolved the names of the second class. */
  lemma {:induction false} GrownReaches(P: Program, before: Cells, after: Cells)
    requires Holders(P) && before.Keys == after.Keys == P.classes.Keys
    requires Direct(P, 0) == Some(map[1 := MessageClass(1)])
    requires Linked(before) == {} && 0 in Linked(after) && Grown(P, before, after, {})
    ensures Direct(P, 1).Some?
  {
    hide Direct;
    assert ClosedAt(P, after, 0);
    assert Direct(P, 0).value[1] == MessageClass(1);
    assert ClosedAt(P, after, 1);
  }

  /** The first link fails; the class stays linked, a second call changes nothing, and some
      input now meets a link error. */
  method FailedLink() returns (P: Program, first: Result<(), LinkError>, second: Result<(), LinkError>)
    ensures Holders(P) && fresh(P.classes.Values)
    ensures first.Err? && second.Ok? && 0 in Linked(Now(P)) && 1 !in Linked(Now(P))
    ensures MeetsLinkError(WorldAt(P, Now(P)), 0)
  {
    ghost var trail;
    P := MakeHolders(false);
    HoldersAreCompiled(P);
    ghost var before := Now(P);
    first, trail := EnsureLinked(P, 0);
    ghost var after := Now(P);
    hide Compiled, MeetsLinkError, Grown, Failed, Direct, Leads, HasMessages, Sound, Holders, CellsOk, WorldAt;
    FirstFails(P, before, after, first.Ok?, trail);
    var r, other := EnsureLinked(P, 0);
    second := r;
  }

  lemma {:induction false} FirstFails(P: Program, before: Cells, after: Cells, ok: bool, trail: seq<ClassId>)
    requires Holders(P) && P.Valid() && P.resolve == Names(false) && Compiled(P) && P.classes.Keys == {0, 1}
    requires before == map[0 := EMPTY, 1 := EMPTY] && after.Keys == P.classes.Keys
    requires ok ==> 0 in Linked(after) && Grown(P, before, after, {})
    requires !ok ==> Failed(P, before, after, 0, trail)
    ensures !ok && Settled(after) && 0 in Linked(after) && 1 !in Linked(after)
    ensures MeetsLinkError(WorldAt(P, after), 0)
  {
    hide Grown, Failed, Compiled, Holders, MeetsLinkError, Direct, Leads, HasMessages, CellsOk;
    assert Linked(before) == {};
    HoldersRefer(P, false, 0);
    HoldersRefer(P, false, 1);
    if ok {
      GrownReaches(P, before, after);
    } else {
      FailedTrail(P, before, after, trail);
      StaysSound(P, before, after);
      SettledIsUsable(P, after);
      FailureShows(P, before, after, 0, trail);
    }
  }
}
