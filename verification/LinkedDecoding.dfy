/** What linking is for: when decoding through a class cannot meet one that is not linked, and when it can. */
module LinkedDecoding {
  import opened Basics
  import opened Descriptors
  import opened Values
  import opened Decoding
  import opened Construction
  import opened Linking
  import opened LinkGaps
  import Decoder

  // --------------------------------------------- what a completed link leaves

  /** No trail from `c` leads to a class whose references cannot be resolved. */
  ghost predicate Resolvable(P: Program, c: ClassId) {
    forall trail :: Trail(P, trail) && trail[0] == c ==> Direct(P, trail[|trail| - 1]).Some?
  }

  lemma {:induction false} LinkedTrail(P: Program, cells: Cells, trail: seq<ClassId>, i: nat)
    requires cells.Keys == P.classes.Keys && Closed(P, cells)
    requires Trail(P, trail) && trail[0] in Linked(cells) && i < |trail|
    ensures trail[i] in Linked(cells) && Direct(P, trail[i]).Some?
  {
    hide Direct;
    if i > 0 {
      LinkedTrail(P, cells, trail, i - 1);
      assert ClosedAt(P, cells, trail[i - 1]);
    }
    assert ClosedAt(P, cells, trail[i]);
  }

  lemma {:induction false} NotResolvable(P: Program, before: Cells, after: Cells, c: ClassId, trail: seq<ClassId>)
    requires before.Keys == after.Keys == P.classes.Keys && Failed(P, before, after, c, trail)
    ensures !Resolvable(P, c)
  {
    hide Direct;
  }

  /** From closed linked classes, whatever is linked next is closed again, and everything
      that can be reached from a linked class is linked. */
  lemma {:induction false} StillClosed(P: Program, before: Cells, after: Cells, c: ClassId)
    requires before.Keys == after.Keys == P.classes.Keys && Closed(P, before)
    requires Grown(P, before, after, {}) && c in Linked(after)
    ensures Closed(P, after) && Settled(after) && Kept(before, after) && Resolvable(P, c)
    ensures forall trail, i :: Trail(P, trail) && trail[0] == c && 0 <= i < |trail| ==> trail[i] in Linked(after)
  {
    hide Direct;
    forall d <- Linked(after)
      ensures ClosedAt(P, after, d)
    {
      if d in Linked(before) {
        StaysClosed(P, before, after, d);
      }
    }
    forall trail, i | Trail(P, trail) && trail[0] == c && 0 <= i < |trail|
      ensures trail[i] in Linked(after) && Direct(P, trail[i]).Some?
    {
      LinkedTrail(P, after, trail, i);
    }
  }

  /** A link that fails below its own class leaves a linked class that references an
      unlinked one.  From closed linked classes it leaves them closed only when it fails at
      the class itself, and then nothing has changed. */
  lemma {:induction false} FailureLeavesGap(P: Program, before: Cells, after: Cells, c: ClassId, trail: seq<ClassId>)
    requires before.Keys == after.Keys == P.classes.Keys && Failed(P, before, after, c, trail)
    requires Closed(P, before) && (|trail| == 1 ==> after == before)
    ensures Closed(P, after) <==> |trail| == 1
    ensures |trail| >= 2 ==> c in Linked(after)
  {
    hide Direct;
    if |trail| >= 2 {
      var last := |trail| - 1;
      var refs := Direct(P, trail[last - 1]);
      var n :| n in refs.value && refs.value[n] == MessageClass(trail[last]);
      assert !TargetsIn(refs.value, Linked(after));
      assert trail[last - 1] in Linked(after) && !ClosedAt(P, after, trail[last - 1]);
    }
  }

  // -------------------------------------------------- exactly when linking fails

  /** Through classes that are not linked yet, a class is reached that cannot be resolved. */
  ghost predicate Unresolved(P: Program, cells: Cells, c: ClassId)
    requires cells.Keys == P.classes.Keys
  {
    exists trail :: UnresolvedTrail(P, cells, trail) && trail[0] == c
  }

  ghost predicate UnresolvedTrail(P: Program, cells: Cells, trail: seq<ClassId>)
    requires cells.Keys == P.classes.Keys
  {
    && Trail(P, trail) && Direct(P, trail[|trail| - 1]) == None
    && forall i :: 0 <= i < |trail| ==> trail[i] !in Linked(cells)
  }

  lemma {:induction false} FailedIsUnresolved(P: Program, before: Cells, after: Cells, c: ClassId, trail: seq<ClassId>)
    requires before.Keys == after.Keys == P.classes.Keys && Failed(P, before, after, c, trail)
    ensures Unresolved(P, before, c)
  {
    hide Direct, Trail;
    assert Linked(before) <= Linked(after) by {
      assert forall d <- Linked(before) :: after[d] == before[d];
    }
    assert UnresolvedTrail(P, before, trail);
  }

  /** After a completed link no such trail starts at the class: everything on it is closed. */
  lemma {:induction false} GrownTrail(P: Program, before: Cells, after: Cells, trail: seq<ClassId>, i: nat)
    requires before.Keys == after.Keys == P.classes.Keys && Grown(P, before, after, {})
    requires Trail(P, trail) && i < |trail|
    requires trail[0] in Linked(after) && forall j :: 0 <= j < |trail| ==> trail[j] !in Linked(before)
    ensures trail[i] in Linked(after) && Direct(P, trail[i]).Some?
  {
    hide Direct;
    if i > 0 {
      GrownTrail(P, before, after, trail, i - 1);
      assert ClosedAt(P, after, trail[i - 1]);
    }
    assert ClosedAt(P, after, trail[i]);
  }

  lemma {:induction false} GrownIsResolved(P: Program, before: Cells, after: Cells, c: ClassId)
    requires before.Keys == after.Keys == P.classes.Keys && Grown(P, before, after, {}) && c in Linked(after)
    ensures !Unresolved(P, before, c)
  {
    hide Direct, Grown;
    forall trail | trail != [] && trail[0] == c
      ensures !UnresolvedTrail(P, before, trail)
    {
      if Trail(P, trail) && forall j :: 0 <= j < |trail| ==> trail[j] !in Linked(before) {
        GrownTrail(P, before, after, trail, |trail| - 1);
      }
    }
  }

  /** Among closed linked classes it makes no difference where the trail stops being linked. */
  lemma {:induction false} ClosedResolvable(P: Program, cells: Cells, c: ClassId)
    requires cells.Keys == P.classes.Keys && Closed(P, cells)
    ensures Unresolved(P, cells, c) <==> !Resolvable(P, c)
  {
    hide Direct;
    if !Resolvable(P, c) {
      var trail :| Trail(P, trail) && trail[0] == c && Direct(P, trail[|trail| - 1]).None?;
      forall i | 0 <= i < |trail|
        ensures trail[i] !in Linked(cells)
      {
        if trail[i] in Linked(cells) {
          assert Trail(P, trail[i..]) by {
            SuffixTrail(P, trail, i);
          }
          LinkedTrail(P, cells, trail[i..], |trail| - 1 - i);
        }
      }
      assert UnresolvedTrail(P, cells, trail);
    }
  }

  lemma {:induction false} SuffixTrail(P: Program, trail: seq<ClassId>, i: nat)
    requires Trail(P, trail) && i < |trail|
    ensures Trail(P, trail[i..])
  {
    hide Direct;
    var suffix := trail[i..];
    forall j | 0 <= j < |suffix| - 1
      ensures var refs := Direct(P, suffix[j]);
              refs.Some? && exists n <- refs.value :: refs.value[n] == MessageClass(suffix[j + 1])
    {
      assert suffix[j] == trail[i + j] && suffix[j + 1] == trail[i + j + 1];
    }
  }

  // ------------------------------------------------------- programs as worlds

  /** The world the decoder sees when the cells hold this. */
  function WorldAt(P: Program, cells: Cells): World
    requires cells.Keys == P.classes.Keys
  {
    map c | c in P.classes :: ClassInfo(P.classes[c].desc, P.classes[c].index, cells[c].refs)
  }

  function WorldOf(P: Program): World
    reads P.classes.Values
  {
    map c | c in P.classes :: ClassInfo(P.classes[c].desc, P.classes[c].index, P.classes[c].refs)
  }

  lemma {:induction false} WorldNow(P: Program)
    ensures WorldOf(P) == WorldAt(P, Now(P))
  {
  }

  /** Descriptors were parsed and compiled. */
  ghost predicate Compiled(P: Program) {
    forall c <- P.classes ::
      var d := P.classes[c].desc;
      WellFormed(d) && forall number: nat :: P.classes[c].index.Get(number) == Lookup(d.fields, number)
  }

  /** No two fields share a number with a message field, and names of message fields mean
      message classes if they mean anything. */
  ghost predicate ProperlyNamed(P: Program) {
    forall c <- P.classes ::
      var d := P.classes[c].desc;
      forall i :: 0 <= i < |d.fields| && d.fields[i].kind.value.Message? ==> MessageField(P, c, i)
  }

  ghost predicate MessageField(P: Program, c: ClassId, i: nat)
    requires c in P.classes && i < |P.classes[c].desc.fields|
  {
    var fields := P.classes[c].desc.fields;
    && fields[i].typeName.Some?
    && (forall j :: 0 <= j < |fields| && j != i ==> fields[j].number != fields[i].number)
    && var target := P.resolve(c, fields[i].typeName.value); target.Some? ==> target.value.MessageClass?
  }

  /** Stored references are what the names mean, and who sees the flag sees references. */
  predicate RefsOk(P: Program, cells: Cells)
    requires cells.Keys == P.classes.Keys
  {
    forall c <- cells ::
      && (cells[c].refs.Some? ==> cells[c].refs == Direct(P, c))
      && (cells[c].linked ==> cells[c].refs.Some?)
  }

  /** The same for construction contexts. */
  ghost predicate CellsOk(P: Program, cells: Cells)
    requires cells.Keys == P.classes.Keys
  {
    RefsOk(P, cells) && ContextsOk(P, cells)
  }

  /** True at every moment, even between storing references and raising the flag. */
  ghost predicate Usable(P: Program, cells: Cells) {
    P.Valid() && Compiled(P) && cells.Keys == P.classes.Keys && CellsOk(P, cells)
  }

  lemma {:induction false} SettledIsUsable(P: Program, cells: Cells)
    requires P.Valid() && Compiled(P) && cells.Keys == P.classes.Keys && Settled(cells) && Sound(P, cells)
    requires ContextsOk(P, cells)
    ensures Usable(P, cells)
  {
    hide Direct, Captured;
  }

  lemma {:induction false} ReferenceOf(fields: seq<FieldDescriptor>, n: nat, i: nat)
    requires n <= |fields| && i < |fields| && NeedsClass(fields[i]) && fields[i].typeName.Some?
    requires forall j :: 0 <= j < |fields| && j != i ==> fields[j].number != fields[i].number
    ensures var refs, own := References(fields, n), Reference(fields[i].number, fields[i].typeName.value);
            (i < n ==> own in refs) && forall r <- refs :: r.number == own.number ==> r == own
    decreases n
  {
    if n > 0 {
      ReferenceOf(fields, n - 1, i);
    }
  }

  lemma {:induction false} ResolvedName(P: Program, c: ClassId, refs: seq<Reference>, n: nat, own: Reference)
    requires n <= |refs| && Resolved(P, c, refs, n).Some?
    requires forall r <- refs :: r.number == own.number ==> r == own
    ensures var m := Resolved(P, c, refs, n).value;
            && (own in refs[..n] ==> own.number in m)
            && (own.number in m ==> P.resolve(c, own.name) == Some(m[own.number]))
    decreases n
  {
    if n > 0 {
      ResolvedName(P, c, refs, n - 1, own);
      assert refs[..n] == refs[..n - 1] + [refs[n - 1]];
      assert refs[n - 1] in refs;
    }
  }

  /** Once a class is linked, an enum or message field that shares its number with no other is
      linked to what its name means. */
  lemma {:induction false} FieldIsLinked(P: Program, c: ClassId, i: nat, name: Name)
    requires c in P.classes && Direct(P, c).Some? && i < |P.classes[c].desc.fields|
    requires var fields := P.classes[c].desc.fields;
             && (fields[i].kind.value == Enum || fields[i].kind.value == Message) && fields[i].typeName == Some(name)
             && forall j :: 0 <= j < |fields| && j != i ==> fields[j].number != fields[i].number
    ensures Meant(P, c, i).Some? && P.resolve(c, name) == Meant(P, c, i)
  {
    var fields := P.classes[c].desc.fields;
    var all, own := References(fields, |fields|), Reference(fields[i].number, name);
    ReferencesAre(fields, |fields|, own);
    ReferenceOf(fields, |fields|, i);
    assert all[..|all|] == all;
    ResolvedName(P, c, all, |all|, own);
  }

  /** A message field of a class linked to what its names mean. */
  lemma {:induction false} SoundField(P: Program, refs: map<nat, Target>, c: ClassId, i: nat)
    requires P.Valid() && c in P.classes && Direct(P, c) == Some(refs) && i < |P.classes[c].desc.fields|
    requires P.classes[c].desc.fields[i].kind.value.Message? && MessageField(P, c, i)
    ensures var f := P.classes[c].desc.fields[i];
            && f.number in refs && refs[f.number].MessageClass? && refs[f.number].cls in P.classes
            && P.resolve(c, f.typeName.value) == Some(refs[f.number])
  {
    var fields := P.classes[c].desc.fields;
    var all, own := References(fields, |fields|), Reference(fields[i].number, fields[i].typeName.value);
    ReferenceOf(fields, |fields|, i);
    assert all[..|all|] == all;
    ResolvedName(P, c, all, |all|, own);
  }

  /** Cells that hold what the names mean make a world the decoder can use. */
  lemma {:induction false} UsableWorld(P: Program, cells: Cells)
    requires P.Valid() && Compiled(P) && cells.Keys == P.classes.Keys && RefsOk(P, cells)
    ensures WorldOk(WorldAt(P, cells))
  {
    var W := WorldAt(P, cells);
    forall c <- W
      ensures WellFormed(W[c].desc) && IndexOk(W[c])
      ensures forall n: nat :: W[c].Link(n).Some? && W[c].Link(n).value.MessageClass? ==> W[c].Link(n).value.cls in W
    {
      if cells[c].refs.Some? {
        var refs := References(P.classes[c].desc.fields, |P.classes[c].desc.fields|);
        ResolvedTargets(P, c, refs, |refs|);
      }
    }
  }

  lemma {:induction false} ClosedRefs(P: Program, cells: Cells)
    requires cells.Keys == P.classes.Keys && Settled(cells) && Closed(P, cells)
    ensures RefsOk(P, cells)
  {
    hide Direct;
    forall c | c in cells && cells[c].refs.Some?
      ensures cells[c].refs == Direct(P, c)
    {
      assert ClosedAt(P, cells, c);
    }
  }

  /** In a world of closed cells everything a linked class references is linked; if the names
      of message fields mean message classes, so is every message field. */
  lemma {:induction false} ClosedWorld(P: Program, cells: Cells)
    requires P.Valid() && Compiled(P) && cells.Keys == P.classes.Keys && Settled(cells) && Closed(P, cells)
    ensures RefsOk(P, cells) && WorldOk(WorldAt(P, cells)) && (ContextsOk(P, cells) ==> Usable(P, cells))
    ensures forall c <- Linked(cells) :: cells[c].refs.Some? && TargetsIn(cells[c].refs.value, Linked(cells))
    ensures ProperlyNamed(P) ==> LinkClosed(WorldAt(P, cells), Linked(cells))
  {
    var W := WorldAt(P, cells);
    assert forall c <- Linked(cells) :: ClosedAt(P, cells, c);
    ClosedRefs(P, cells);
    UsableWorld(P, cells);
    if ProperlyNamed(P) {
      forall c <- Linked(cells)
        ensures FieldsWithin(W[c], Linked(cells))
      {
        assert ClosedAt(P, cells, c);
        forall i | 0 <= i < |W[c].desc.fields| && W[c].desc.fields[i].kind.value.Message?
          ensures ToClass(W[c].Link(W[c].desc.fields[i].number))
          ensures W[c].Link(W[c].desc.fields[i].number).value.cls in Linked(cells)
        {
          SoundField(P, cells[c].refs.value, c, i);
        }
      }
    }
  }

  // ------------------------------------------------------------ gaps in programs

  /** What the number of a field is linked to, once the class is. */
  function Meant(P: Program, c: ClassId, i: nat): Option<Target>
    requires c in P.classes && i < |P.classes[c].desc.fields|
  {
    var refs, number := Direct(P, c), P.classes[c].desc.fields[i].number;
    if refs.Some? && number in refs.value then Some(refs.value[number]) else None
  }

  /** Some message field of `c` that records can reach is linked to `d`, once `c` is. */
  ghost predicate Leads(P: Program, c: ClassId, d: ClassId)
    requires c in P.classes
  {
    var desc := P.classes[c].desc;
    exists i :: 0 <= i < |desc.fields| && Decodable(desc, i) && Meant(P, c, i) == Some(MessageClass(d))
  }

  /** Some message field of `c` that records can reach is linked to no message class, even
      when `c` is linked: its name means an enum, or another field has taken its number. */
  ghost predicate Strays(P: Program, c: ClassId)
    requires c in P.classes
  {
    var desc := P.classes[c].desc;
    Direct(P, c).Some? && exists i :: 0 <= i < |desc.fields| && Decodable(desc, i) && !ToClass(Meant(P, c, i))
  }

  ghost predicate HasMessages(P: Program, c: ClassId)
    requires c in P.classes
  {
    exists i :: 0 <= i < |P.classes[c].desc.fields| && Decodable(P.classes[c].desc, i)
  }

  /** Decoding a message field of `c` itself can fail. */
  ghost predicate Stuck(P: Program, cells: Cells, c: ClassId)
    requires cells.Keys == P.classes.Keys && c in P.classes
  {
    if cells[c].refs.Some? then Strays(P, c) else HasMessages(P, c)
  }

  /** Classes each of which holds instances of the next. */
  ghost predicate LeadsTrail(P: Program, trail: seq<ClassId>) {
    && trail != [] && (forall i :: 0 <= i < |trail| ==> trail[i] in P.classes)
    && forall i :: 0 <= i < |trail| - 1 ==> Leads(P, trail[i], trail[i + 1])
  }

  /** All but the last have their references, and the last is stuck. */
  ghost predicate GapTrail(P: Program, cells: Cells, trail: seq<ClassId>)
    requires cells.Keys == P.classes.Keys
  {
    && LeadsTrail(P, trail) && Stuck(P, cells, trail[|trail| - 1])
    && forall i :: 0 <= i < |trail| - 1 ==> cells[trail[i]].refs.Some?
  }

  /** Such a trail starts at `c` and is no longer than the decoder can follow. */
  ghost predicate HasGap(P: Program, cells: Cells, c: ClassId)
    requires cells.Keys == P.classes.Keys
  {
    exists trail :: GapTrail(P, cells, trail) && trail[0] == c && |trail| <= MAX_DEPTH + 1
  }

  /** The same through classes that go astray however much is linked. */
  ghost predicate Misled(P: Program, c: ClassId) {
    exists trail :: LeadsTrail(P, trail) && Strays(P, trail[|trail| - 1]) && trail[0] == c && |trail| <= MAX_DEPTH + 1
  }

  lemma {:induction false} GapTrailHead(P: Program, cells: Cells, trail: seq<ClassId>)
    requires cells.Keys == P.classes.Keys && GapTrail(P, cells, trail)
    ensures trail != [] && trail[0] in P.classes
    ensures |trail| == 1 ==> Stuck(P, cells, trail[0])
    ensures |trail| > 1 ==>
      && cells[trail[0]].refs.Some? && Leads(P, trail[0], trail[1]) && GapTrail(P, cells, trail[1..])
  {
    hide Leads, Stuck;
    if |trail| > 1 {
      var rest := trail[1..];
      assert forall i :: 0 <= i < |rest| ==> rest[i] == trail[i + 1];
      forall i | 0 <= i < |rest| - 1
        ensures cells[rest[i]].refs.Some? && Leads(P, rest[i], rest[i + 1])
      {
        assert Leads(P, trail[i + 1], trail[i + 2]);
      }
    }
  }

  lemma {:induction false} GapTrailCons(P: Program, cells: Cells, c: ClassId, trail: seq<ClassId>)
    requires cells.Keys == P.classes.Keys && GapTrail(P, cells, trail)
    requires c in P.classes && cells[c].refs.Some? && Leads(P, c, trail[0])
    ensures GapTrail(P, cells, [c] + trail)
  {
    hide Leads, Stuck;
    var longer := [c] + trail;
    assert forall i :: 0 < i < |longer| ==> longer[i] == trail[i - 1];
  }

  lemma {:induction false} LinkAt(P: Program, cells: Cells, c: ClassId, i: nat)
    requires Usable(P, cells) && c in P.classes && i < |P.classes[c].desc.fields|
    ensures var W := WorldAt(P, cells);
            && c in W && W[c].desc == P.classes[c].desc
            && W[c].Link(W[c].desc.fields[i].number) == if cells[c].refs.Some? then Meant(P, c, i) else None
  {
    hide Direct;
  }

  /** The decoder finds a class stuck, or led on, where the program says so. */
  lemma {:induction false} GapAt(P: Program, cells: Cells, c: ClassId, n: nat)
    requires Usable(P, cells) && c in P.classes
    ensures var W := WorldAt(P, cells);
            Gap(W, c, n) <==> || Stuck(P, cells, c)
                              || (n > 0 && cells[c].refs.Some? && exists d :: Leads(P, c, d) && Gap(W, d, n - 1))
  {
    var W := WorldAt(P, cells);
    if Gap(W, c, n) {
      var i := GapCase(W, c, n);
      LinkAt(P, cells, c, i);
      hide Decodable, Direct, Gap, Meant, WorldAt, Compiled, CellsOk;
      var link := W[c].Link(W[c].desc.fields[i].number);
      if ToClass(link) {
        assert Leads(P, c, link.value.cls);
      }
    }
    if Stuck(P, cells, c) {
      StuckIsGap(P, cells, c, n);
    }
    if n > 0 && cells[c].refs.Some? {
      forall d | Leads(P, c, d) && Gap(W, d, n - 1)
        ensures Gap(W, c, n)
      {
        LeadsToGap(P, cells, c, d, n);
      }
    }
  }

  lemma {:induction false} StuckIsGap(P: Program, cells: Cells, c: ClassId, n: nat)
    requires Usable(P, cells) && c in P.classes && Stuck(P, cells, c)
    ensures Gap(WorldAt(P, cells), c, n)
  {
    hide Decodable, Direct, Gap, Meant, Compiled, CellsOk;
    var desc := P.classes[c].desc;
    var i :| 0 <= i < |desc.fields| && Decodable(desc, i) && (cells[c].refs.Some? ==> !ToClass(Meant(P, c, i)));
    LinkAt(P, cells, c, i);
    GapThrough(WorldAt(P, cells), c, i, n);
  }

  lemma {:induction false} LeadsToGap(P: Program, cells: Cells, c: ClassId, d: ClassId, n: nat)
    requires Usable(P, cells) && c in P.classes && cells[c].refs.Some? && Leads(P, c, d)
    requires n > 0 && Gap(WorldAt(P, cells), d, n - 1)
    ensures Gap(WorldAt(P, cells), c, n)
  {
    hide Decodable, Direct, Gap, Meant, Compiled, CellsOk;
    var desc := P.classes[c].desc;
    var i :| 0 <= i < |desc.fields| && Decodable(desc, i) && Meant(P, c, i) == Some(MessageClass(d));
    LinkAt(P, cells, c, i);
    GapThrough(WorldAt(P, cells), c, i, n);
  }

  lemma {:induction false} TrailIsGap(P: Program, cells: Cells, trail: seq<ClassId>, n: nat)
    requires Usable(P, cells) && GapTrail(P, cells, trail) && |trail| <= n + 1
    ensures Gap(WorldAt(P, cells), trail[0], n)
    decreases n
  {
    hide GapTrail, Gap, WorldAt, Leads, Stuck, Compiled, CellsOk;
    GapTrailHead(P, cells, trail);
    GapAt(P, cells, trail[0], n);
    if |trail| > 1 {
      TrailIsGap(P, cells, trail[1..], n - 1);
    }
  }

  lemma {:induction false} LedInside(P: Program, c: ClassId, d: ClassId)
    requires P.Valid() && c in P.classes && Leads(P, c, d)
    ensures d in P.classes
  {
    var refs := References(P.classes[c].desc.fields, |P.classes[c].desc.fields|);
    ResolvedTargets(P, c, refs, |refs|);
  }

  lemma {:induction false} GapHasTrail(P: Program, cells: Cells, c: ClassId, n: nat) returns (trail: seq<ClassId>)
    requires Usable(P, cells) && c in P.classes && Gap(WorldAt(P, cells), c, n)
    ensures GapTrail(P, cells, trail) && trail[0] == c && |trail| <= n + 1
    decreases n
  {
    hide Gap, WorldAt, Leads, Stuck, Compiled, CellsOk;
    GapAt(P, cells, c, n);
    trail := [c];
    if !Stuck(P, cells, c) {
      var d :| Leads(P, c, d) && Gap(WorldAt(P, cells), d, n - 1);
      LedInside(P, c, d);
      var rest := GapHasTrail(P, cells, d, n - 1);
      GapTrailCons(P, cells, c, rest);
      trail := [c] + rest;
    }
  }

  lemma {:induction false} GapIsTrail(P: Program, cells: Cells, c: ClassId)
    requires Usable(P, cells) && c in P.classes
    ensures Gap(WorldAt(P, cells), c, MAX_DEPTH) <==> HasGap(P, cells, c)
  {
    hide Gap, Compiled, CellsOk, Leads, Stuck;
    if Gap(WorldAt(P, cells), c, MAX_DEPTH) {
      var trail := GapHasTrail(P, cells, c, MAX_DEPTH);
    }
    if HasGap(P, cells, c) {
      var trail :| GapTrail(P, cells, trail) && trail[0] == c && |trail| <= MAX_DEPTH + 1;
      TrailIsGap(P, cells, trail, MAX_DEPTH);
    }
  }

  /** At every moment of linking, complete or not: some input decoded through `c` meets a
      link error exactly when such a trail starts at `c`. */
  lemma {:induction false} ProgramGapIsExact(P: Program, cells: Cells, c: ClassId)
    requires Usable(P, cells) && c in P.classes
    ensures MeetsLinkError(WorldAt(P, cells), c) <==> HasGap(P, cells, c)
  {
    GapIsExact(WorldAt(P, cells), c);
    GapIsTrail(P, cells, c);
  }

  /** Below closed linked classes there is a gap only where fields go astray for good. */
  lemma {:induction false} ClosedGapIsMisled(P: Program, cells: Cells, c: ClassId)
    requires Usable(P, cells) && Closed(P, cells) && c in Linked(cells)
    ensures HasGap(P, cells, c) <==> Misled(P, c)
  {
    hide Leads, Strays, HasMessages;
    forall trail | LeadsTrail(P, trail) && trail[0] == c
      ensures forall i :: 0 <= i < |trail| ==> cells[trail[i]].refs.Some?
    {
      LedTrail(P, cells, trail, |trail| - 1);
    }
    if HasGap(P, cells, c) {
      var trail :| GapTrail(P, cells, trail) && trail[0] == c && |trail| <= MAX_DEPTH + 1;
      assert Strays(P, trail[|trail| - 1]);
    }
    if Misled(P, c) {
      var trail :| LeadsTrail(P, trail) && Strays(P, trail[|trail| - 1]) && trail[0] == c && |trail| <= MAX_DEPTH + 1;
      assert GapTrail(P, cells, trail);
    }
  }

  lemma {:induction false} LedTrail(P: Program, cells: Cells, trail: seq<ClassId>, n: nat)
    requires Usable(P, cells) && Closed(P, cells) && LeadsTrail(P, trail) && trail[0] in Linked(cells) && n < |trail|
    ensures forall i :: 0 <= i <= n ==> trail[i] in Linked(cells) && cells[trail[i]].refs.Some?
  {
    hide Direct;
    if n > 0 {
      LedTrail(P, cells, trail, n - 1);
      assert ClosedAt(P, cells, trail[n - 1]) && Leads(P, trail[n - 1], trail[n]);
    }
  }

  /** Where names mean message classes, nothing goes astray. */
  lemma {:induction false} NamedIsNotMisled(P: Program, c: ClassId)
    requires P.Valid() && ProperlyNamed(P)
    ensures !Misled(P, c)
  {
    forall d | d in P.classes
      ensures !Strays(P, d)
    {
      var desc := P.classes[d].desc;
      if Direct(P, d).Some? {
        forall i | 0 <= i < |desc.fields| && Decodable(desc, i)
          ensures ToClass(Meant(P, d, i))
        {
          SoundField(P, Direct(P, d).value, d, i);
        }
      }
    }
  }

  /** After a link that failed below `c`, along message fields that records can reach and
      within the depth limit, `c` is linked and some input decoded through it meets a link
      error. */
  lemma {:induction false} FailureShows(P: Program, before: Cells, after: Cells, c: ClassId, trail: seq<ClassId>)
    requires before.Keys == after.Keys == P.classes.Keys && Failed(P, before, after, c, trail) && Usable(P, after)
    requires 2 <= |trail| <= MAX_DEPTH + 1 && HasMessages(P, trail[|trail| - 1])
    requires forall i :: 0 <= i < |trail| - 1 ==> Leads(P, trail[i], trail[i + 1])
    ensures c in Linked(after) && MeetsLinkError(WorldAt(P, after), c)
  {
    hide Leads, HasMessages, Direct;
    assert GapTrail(P, after, trail);
    ProgramGapIsExact(P, after, c);
  }

  // ------------------------------------------------------------- as linking goes on

  /** References once stored stay. */
  predicate Later(before: Cells, after: Cells) {
    before.Keys == after.Keys && forall c <- before :: before[c].refs.Some? ==> after[c].refs == before[c].refs
  }

  /** Linking more never opens a gap; and once there is none below a class, the results of
      decoding through it were the same before, on every input, exactly if there was none
      before. */
  lemma {:induction false} SteadyOnceNoGap(P: Program, before: Cells, after: Cells, c: ClassId)
    requires Usable(P, before) && Usable(P, after) && Later(before, after) && c in P.classes
    ensures HasGap(P, after, c) ==> HasGap(P, before, c)
    ensures !HasGap(P, after, c) ==>
      ((forall data :: DecodeMessage(WorldAt(P, before), c, data, 0) == DecodeMessage(WorldAt(P, after), c, data, 0))
       <==> !HasGap(P, before, c))
  {
    var W, V := WorldAt(P, before), WorldAt(P, after);
    assert Extends(W, V);
    GapIsTrail(P, before, c);
    GapIsTrail(P, after, c);
    hide *;
    if Gap(V, c, MAX_DEPTH) {
      GapsOnlyClose(W, V, c, MAX_DEPTH);
    } else {
      SteadyIsExact(W, V, c);
    }
  }

  // ------------------------------------------------------------------ instances

  /** The defaults a cell holds for the fast path, if any. */
  function Defaults(cell: Cell): Option<seq<Slot>> {
    match cell.fast
    case None => None
    case Some(f) => Some(f.defaults)
  }

  /** The instance `decode` builds from the values it has seen and what the cell holds. */
  function InstanceOf(P: Program, cells: Cells, c: ClassId, st: State): Result<Instance, InitError>
    requires cells.Keys == P.classes.Keys && c in P.classes && c in P.python
    requires |st.slots| == |P.classes[c].desc.fields|
    requires cells[c].fast.Some? ==> |cells[c].fast.value.defaults| == |P.classes[c].desc.fields|
  {
    Constructed(P.python[c], P.classes[c].desc, Defaults(cells[c]), st.slots, st.unknown)
  }

  /**
   Decoding any bytes through a linked class builds the instance that calling the class would
   build, whatever its cell holds; and for a class the plugin generated that is the instance
   with exactly the attributes and unknown bytes of the decoded message.
   */
  lemma {:induction false} InstanceFromCells(P: Program, cells: Cells, c: ClassId, data: Bytes)
    requires Usable(P, cells) && c in Linked(cells) && P.python[c].Valid()
    ensures var W, d := WorldAt(P, cells), P.classes[c].desc;
            var st := Resume(W, W[c], InitState(d), data, 0);
            && Captured(P, c, cells[c].fast)
            && (cells[c].fast.Some? ==> |cells[c].fast.value.defaults| == |d.fields|)
            && (st.Ok? ==>
                  && |st.value.slots| == |d.fields|
                  && InstanceOf(P, cells, c, st.value) == Normal(P.python[c], d, st.value.slots, st.value.unknown))
    ensures var W, d := WorldAt(P, cells), P.classes[c].desc;
            var m, st := DecodeMessage(W, c, data, 0), Resume(W, W[c], InitState(d), data, 0);
            forall nested: set<nat> :: Generated(P.python[c], d, nested) && m.Ok? ==>
              && st.Ok? && |m.value.slots| == |d.fields|
              && InstanceOf(P, cells, c, st.value)
                 == Ok(Instance(SetAttrs(d, m.value.slots, |d.fields|), Some(m.value.unknown)))
  {
    var W, d := WorldAt(P, cells), P.classes[c].desc;
    UsableWorld(P, cells);
    assert Captured(P, c, cells[c].fast);
    assert WellFormed(W[c].desc);
    if cells[c].fast.Some? {
      DecodeIgnoresFastPath(W, W[c], P.python[c], cells[c].fast.value.defaults, data, 0);
    }
    forall nested: set<nat> | Generated(P.python[c], d, nested)
      ensures var m, st := DecodeMessage(W, c, data, 0), Resume(W, W[c], InitState(d), data, 0);
              m.Ok? ==>
                && st.Ok? && |m.value.slots| == |d.fields|
                && InstanceOf(P, cells, c, st.value)
                   == Ok(Instance(SetAttrs(d, m.value.slots, |d.fields|), Some(m.value.unknown)))
    {
      GeneratedNames(P, c, nested);
      GeneratedInstance(W, c, P.python[c], nested, Defaults(cells[c]), data, 0);
    }
  }

  /** The fields of a valid generated class have distinct names, and so has its descriptor. */
  lemma {:induction false} GeneratedNames(P: Program, c: ClassId, nested: set<nat>)
    requires c in P.classes && c in P.python && P.python[c].Valid()
    requires Generated(P.python[c], P.classes[c].desc, nested)
    ensures DistinctNames(P.classes[c].desc)
  {
    var d, py := P.classes[c].desc, P.python[c];
    forall i, j | 0 <= i < j < |d.fields|
      ensures d.fields[i].name != d.fields[j].name
    {
      assert py.fields[i].name == d.fields[i].name && py.fields[j].name == d.fields[j].name;
    }
  }

  // ------------------------------------------------------------------ from_bytes

  datatype FromBytesError = LinkFailed(link: LinkError) | DecodeFailed(error: CodecError)

  /**
   What a call of `from_bytes` may do.  Linking fails exactly when an unresolvable class is
   reached through unlinked ones.  A class that is linked already is decoded as it stands,
   even if an earlier link failed below it, and nothing changes.  Link errors need a gap
   below the class, and closed linked classes have one only where fields go astray for good.
   */
  ghost predicate FromBytesOutcome(P: Program, before: Cells, after: Cells, c: ClassId, data: Bytes,
      r: Result<Msg, FromBytesError>)
    requires before.Keys == after.Keys == P.classes.Keys
  {
    && Usable(P, after) && Settled(after) && Kept(before, after)
    && (c in Linked(before) ==> after == before)
    && ((r.Err? && r.error.LinkFailed?) <==> Unresolved(P, before, c))
    && (!Unresolved(P, before, c) ==>
          && c in Linked(after)
          && var m := DecodeMessage(WorldAt(P, after), c, data, 0);
             && r == (if m.Ok? then Ok(m.value) else Err(DecodeFailed(m.error)))
             && (!HasGap(P, after, c) ==> NoLinkError(m)))
    && (Closed(P, before) && Resolvable(P, c) ==>
          !Unresolved(P, before, c) && Closed(P, after) && (HasGap(P, after, c) <==> Misled(P, c)))
  }

  /** `cls.from_bytes(data)`: links on first use, then decodes, in whatever state earlier
      calls have left the classes. */
  method FromBytes(P: Program, c: ClassId, data: Bytes) returns (r: Result<Msg, FromBytesError>)
    requires Usable(P, Now(P)) && Settled(Now(P)) && c in P.classes
    modifies P.classes.Values
    ensures FromBytesOutcome(P, old(Now(P)), Now(P), c, data, r)
  {
    hide CellsOk, Settled, Compiled, Grown, Failed, Closed, FromBytesOutcome, WorldAt, DecodeMessage, Linked;
    ghost var before := Now(P);
    var linked, trail := EnsureLinked(P, c);
    ghost var after := Now(P);
    AfterLink(P, before, after, c, linked.Ok?, trail);
    hide *;
    if linked.Err? {
      r := Err(LinkFailed(linked.error));
    } else {
      var m := DecodeNow(P, c, data);
      r := if m.Ok? then Ok(m.value) else Err(DecodeFailed(m.error));
    }
    OutcomeOf(P, before, after, c, data, linked, r);
  }

  /** `descriptor.decode` with the references the cells hold now. */
  method DecodeNow(P: Program, c: ClassId, data: Bytes) returns (m: Outcome<Msg>)
    requires WorldOk(WorldAt(P, Now(P)))
    ensures m == DecodeMessage(WorldAt(P, Now(P)), c, data, 0)
  {
    WorldNow(P);
    hide *;
    m := Decoder.ReadMessage(WorldOf(P), c, data, 0);
  }

  lemma {:induction false} OutcomeOf(P: Program, before: Cells, after: Cells, c: ClassId, data: Bytes,
      linked: Result<(), LinkError>, r: Result<Msg, FromBytesError>)
    requires before.Keys == after.Keys == P.classes.Keys && c in P.classes
    requires Usable(P, after) && Settled(after) && Kept(before, after)
    requires linked.Ok? ==> c in Linked(after)
    requires c in Linked(before) ==> linked.Ok? && after == before
    requires linked.Ok? <==> !Unresolved(P, before, c)
    requires Closed(P, before) && Resolvable(P, c) ==>
      linked.Ok? && Closed(P, after) && (HasGap(P, after, c) <==> Misled(P, c))
    requires if linked.Err? then r == Err(LinkFailed(linked.error)) else
               var m := DecodeMessage(WorldAt(P, after), c, data, 0);
               r == if m.Ok? then Ok(m.value) else Err(DecodeFailed(m.error))
    ensures FromBytesOutcome(P, before, after, c, data, r)
  {
    ProgramGapIsExact(P, after, c);
    hide Usable, Settled, Kept, Unresolved, Closed, Resolvable, HasGap, Misled, DecodeMessage, WorldAt, NoLinkError;
  }

  /** What the end of an `EnsureLinked` call means for the call to `from_bytes`. */
  lemma {:induction false} AfterLink(P: Program, before: Cells, after: Cells, c: ClassId, ok: bool, trail: seq<ClassId>)
    requires after.Keys == P.classes.Keys && c in P.classes && Usable(P, before) && Settled(before)
    requires ok ==> c in Linked(after) && Grown(P, before, after, {})
    requires !ok ==> Failed(P, before, after, c, trail)
    ensures Usable(P, after) && Settled(after) && Kept(before, after) && WorldOk(WorldAt(P, after))
    ensures ok <==> !Unresolved(P, before, c)
    ensures Closed(P, before) && Resolvable(P, c) ==>
      ok && Closed(P, after) && (HasGap(P, after, c) <==> Misled(P, c))
  {
    StaysSound(P, before, after);
    SettledIsUsable(P, after);
    UsableWorld(P, after);
    hide Usable, Grown, Failed, Sound, Settled, Kept, Unresolved, Closed, Resolvable, HasGap, Misled, WorldOk;
    if ok {
      GrownIsResolved(P, before, after, c);
    } else {
      FailedIsUnresolved(P, before, after, c, trail);
    }
    if Closed(P, before) && Resolvable(P, c) {
      ClosedResolvable(P, before, c);
      StillClosed(P, before, after, c);
      ClosedGapIsMisled(P, after, c);
    }
  }
}
