/**
 When the order of records does not matter: a loop whose steps commute across field
 numbers gives the same result however the records of different numbers are interleaved.
 */
module Interleaving {
  import opened Basics
  import opened Wire
  import opened Records

  /** The records with one number, in order. */
  function Those(raws: seq<Raw>, number: nat): seq<Raw> {
    if raws == [] then []
    else if raws[0].rec.number == number then [raws[0]] + Those(raws[1..], number)
    else Those(raws[1..], number)
  }

  predicate Alike(same: (Record, Record) -> bool, a: seq<Raw>, b: seq<Raw>) {
    |a| == |b| && forall i :: 0 <= i < |a| ==> same(a[i].rec, b[i].rec)
  }

  /** Both sequences have, number by number, like records in the same order. */
  ghost predicate Interleaved(same: (Record, Record) -> bool, a: seq<Raw>, b: seq<Raw>) {
    forall number: nat :: Alike(same, Those(a, number), Those(b, number))
  }

  /** Both are well-formed streams and interleavings of like records. */
  ghost predicate Shuffled(same: (Record, Record) -> bool, a: Bytes, b: Bytes) {
    && ScanAll(a).end.None? && ScanAll(b).end.None?
    && Interleaved(same, ScanAll(a).raws, ScanAll(b).raws)
  }

  /** Both fail, or both succeed with the same value. */
  predicate Agree<S(==), E>(x: Result<S, E>, y: Result<S, E>) {
    if x.Ok? then y.Ok? && x.value == y.value else y.Err?
  }

  function Then<S, E>(step: (S, Record) -> Result<S, E>, st: S, r1: Record, r2: Record): Result<S, E> {
    match step(st, r1)
    case Err(e) => Err(e)
    case Ok(mid) => step(mid, r2)
  }

  /** Records of different numbers can be taken in either order. */
  ghost predicate Commuting<S(!new), E(!new)>(step: (S, Record) -> Result<S, E>) {
    forall st: S, r1: Record, r2: Record | r1.number != r2.number ::
      Agree(Then(step, st, r1, r2), Then(step, st, r2, r1))
  }

  /** Like records have the same number and the same effect. */
  ghost predicate Respects<S(!new), E(!new)>(step: (S, Record) -> Result<S, E>, same: (Record, Record) -> bool) {
    forall st: S, r1: Record, r2: Record | same(r1, r2) :: r1.number == r2.number && Agree(step(st, r1), step(st, r2))
  }

  lemma {:induction false} ThoseAppend(a: seq<Raw>, b: seq<Raw>, number: nat)
    ensures Those(a + b, number) == Those(a, number) + Those(b, number)
  {
    if a == [] {
      assert a + b == b;
    } else {
      assert (a + b)[0] == a[0] && (a + b)[1..] == a[1..] + b;
      ThoseAppend(a[1..], b, number);
    }
  }

  predicate Without(raws: seq<Raw>, number: nat) {
    forall i :: 0 <= i < |raws| ==> raws[i].rec.number != number
  }

  lemma {:induction false} NoneOfThose(raws: seq<Raw>, number: nat)
    ensures Without(raws, number) <==> Those(raws, number) == []
  {
    if raws != [] {
      assert raws == [raws[0]] + raws[1..];
      NoneOfThose(raws[1..], number);
    }
  }

  /** Where the first record of a number stands. */
  lemma {:induction false} FirstOfThose(raws: seq<Raw>, number: nat) returns (k: nat)
    requires Those(raws, number) != []
    ensures k < |raws| && raws[k].rec.number == number && Without(raws[..k], number)
    ensures Those(raws, number)[0] == raws[k]
  {
    if raws[0].rec.number == number {
      k := 0;
    } else {
      var j := FirstOfThose(raws[1..], number);
      k := j + 1;
      assert raws[..k] == [raws[0]] + raws[1..][..j];
    }
  }

  /** Taking that record out shortens its own subsequence and leaves the others alone. */
  lemma {:induction false} ThoseRemove(raws: seq<Raw>, k: nat, number: nat)
    requires k < |raws| && Without(raws[..k], raws[k].rec.number)
    ensures Those(raws, raws[k].rec.number) != []
    ensures var own := raws[k].rec.number;
            Those(raws[..k] + raws[k + 1..], number)
            == if number == own then Those(raws, own)[1..] else Those(raws, number)
  {
    var x := raws[k];
    assert raws == raws[..k] + ([x] + raws[k + 1..]);
    ThoseAppend(raws[..k], [x] + raws[k + 1..], number);
    ThoseAppend(raws[..k], raws[k + 1..], number);
    ThoseAppend(raws[..k], [x] + raws[k + 1..], x.rec.number);
    NoneOfThose(raws[..k], x.rec.number);
    assert ([x] + raws[k + 1..])[1..] == raws[k + 1..];
  }

  lemma {:induction false} FoldCons<S, E>(step: (S, Record) -> Result<S, E>, st: S, x: Raw, rest: seq<Raw>)
    ensures Fold(step, st, [x] + rest) ==
      match step(st, x.rec)
      case Err(e) => Err(e)
      case Ok(next) => Fold(step, next, rest)
  {
    assert ([x] + rest)[1..] == rest;
  }

  /** A record can be moved in front of records of other numbers. */
  lemma {:induction false} BringForward<S(!new), E(!new)>(step: (S, Record) -> Result<S, E>, st: S, p: seq<Raw>,
      x: Raw, q: seq<Raw>)
    requires Commuting(step) && Without(p, x.rec.number)
    ensures Agree(Fold(step, st, p + ([x] + q)), Fold(step, st, [x] + (p + q)))
  {
    if p == [] {
      assert p + ([x] + q) == [x] + q && p + q == q;
    } else {
      var h, t := p[0], p[1..];
      assert p + ([x] + q) == [h] + (t + ([x] + q));
      assert p + q == [h] + (t + q);
      FoldCons(step, st, h, t + ([x] + q));
      FoldCons(step, st, x, [h] + (t + q));
      assert Agree(Then(step, st, h.rec, x.rec), Then(step, st, x.rec, h.rec));
      if step(st, h.rec).Ok? {
        BringForward(step, step(st, h.rec).value, t, x, q);
        FoldCons(step, step(st, h.rec).value, x, t + q);
      }
      if step(st, x.rec).Ok? {
        FoldCons(step, step(st, x.rec).value, h, t + q);
      }
    }
  }

  lemma {:induction false} RestInterleaved(same: (Record, Record) -> bool, a: seq<Raw>, b: seq<Raw>, k: nat)
    requires a != [] && k < |b| && Interleaved(same, a, b)
    requires Without(b[..k], a[0].rec.number) && b[k].rec.number == a[0].rec.number
    ensures Interleaved(same, a[1..], b[..k] + b[k + 1..])
  {
    forall number: nat
      ensures Alike(same, Those(a[1..], number), Those(b[..k] + b[k + 1..], number))
    {
      ThoseRemove(b, k, number);
      assert Alike(same, Those(a, number), Those(b, number));
      assert number == a[0].rec.number ==> Those(a[1..], number) == Those(a, number)[1..];
    }
  }

  lemma {:induction false} EmptyInterleaving(same: (Record, Record) -> bool, b: seq<Raw>)
    requires Interleaved(same, [], b)
    ensures b == []
  {
    assert b != [] ==> Alike(same, Those([], b[0].rec.number), Those(b, b[0].rec.number));
  }

  /** Interleavings of like records have the same effect. */
  lemma {:induction false} FoldIgnoresInterleaving<S(!new), E(!new)>(step: (S, Record) -> Result<S, E>,
      same: (Record, Record) -> bool, st: S, a: seq<Raw>, b: seq<Raw>)
    requires Commuting(step) && Respects(step, same) && Interleaved(same, a, b)
    ensures Agree(Fold(step, st, a), Fold(step, st, b))
    decreases |a|
  {
    if a == [] {
      EmptyInterleaving(same, b);
    } else {
      var x := a[0];
      assert Alike(same, Those(a, x.rec.number), Those(b, x.rec.number));
      var k := FirstOfThose(b, x.rec.number);
      var y, rest := b[k], b[..k] + b[k + 1..];
      assert same(x.rec, y.rec);
      RestInterleaved(same, a, b, k);
      assert b == b[..k] + ([y] + b[k + 1..]);
      BringForward(step, st, b[..k], y, b[k + 1..]);
      FoldCons(step, st, y, rest);
      if step(st, x.rec).Ok? {
        FoldIgnoresInterleaving(step, same, step(st, x.rec).value, a[1..], rest);
      }
    }
  }

  /** The same for whole streams. */
  lemma {:induction false} LoopIgnoresInterleaving<S(!new), E(!new)>(step: (S, Record) -> Result<S, E>,
      wrap: WireError -> E, same: (Record, Record) -> bool, st: S, a: Bytes, b: Bytes)
    requires Commuting(step) && Respects(step, same) && Shuffled(same, a, b)
    ensures Agree(Loop(step, wrap, st, a), Loop(step, wrap, st, b))
  {
    FoldIgnoresInterleaving(step, same, st, ScanAll(a).raws, ScanAll(b).raws);
  }
}
