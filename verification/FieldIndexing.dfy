/** The precomputed field-number lookup of the decoder. */
module FieldIndexing {
  import opened Basics
  import opened Descriptors

  datatype Numbered = Numbered(number: nat, index: nat)

  /** Compact numbering gets a direct table holding index + 1, with 0 for "no field";
      sparse numbering gets pairs sorted by number. */
  datatype FieldIndex = Dense(table: seq<nat>) | Sparse(pairs: seq<Numbered>) {
    function Get(number: nat): Option<nat> {
      match this
      case Dense(table) =>
        if number < |table| && table[number] != 0 then Some(table[number] - 1) else None
      case Sparse(pairs) =>
        match BinarySearch(pairs, number, 0, |pairs|)
        case None => None
        case Some(i) => Some(pairs[i].index)
    }
  }

  function BinarySearch(pairs: seq<Numbered>, number: nat, lo: nat, hi: nat): (r: Option<nat>)
    requires lo <= hi <= |pairs|
    ensures r.Some? ==> lo <= r.value < hi && pairs[r.value].number == number
    decreases hi - lo
  {
    if lo == hi then None
    else
      var mid := lo + (hi - lo) / 2;
      if pairs[mid].number == number then Some(mid)
      else if pairs[mid].number < number then BinarySearch(pairs, number, mid + 1, hi)
      else BinarySearch(pairs, number, lo, mid)
  }

  predicate StrictlyIncreasing(pairs: seq<Numbered>) {
    forall i, j :: 0 <= i < j < |pairs| ==> pairs[i].number < pairs[j].number
  }

  lemma {:induction false} BinarySearchFinds(pairs: seq<Numbered>, number: nat, lo: nat, hi: nat)
    requires lo <= hi <= |pairs| && StrictlyIncreasing(pairs)
    ensures BinarySearch(pairs, number, lo, hi).None? ==> forall i :: lo <= i < hi ==> pairs[i].number != number
    decreases hi - lo
  {
    if lo < hi {
      var mid := lo + (hi - lo) / 2;
      if pairs[mid].number < number {
        BinarySearchFinds(pairs, number, mid + 1, hi);
      } else if pairs[mid].number > number {
        BinarySearchFinds(pairs, number, lo, mid);
      }
    }
  }

  // ------------------------------------------------------------------ sorting

  predicate Before(a: Numbered, b: Numbered) {
    a.number < b.number || (a.number == b.number && a.index <= b.index)
  }

  predicate Sorted(pairs: seq<Numbered>) {
    forall i, j :: 0 <= i < j < |pairs| ==> Before(pairs[i], pairs[j])
  }

  /** The library sort, as insertion into a sorted sequence. */
  function Insert(p: Numbered, pairs: seq<Numbered>): (r: seq<Numbered>)
    ensures forall q :: q in r <==> q == p || q in pairs
  {
    if pairs == [] || Before(p, pairs[0]) then [p] + pairs
    else
      assert pairs == [pairs[0]] + pairs[1..];
      [pairs[0]] + Insert(p, pairs[1..])
  }

  lemma {:induction false} InsertSorts(p: Numbered, pairs: seq<Numbered>)
    requires Sorted(pairs)
    ensures Sorted(Insert(p, pairs))
  {
    if pairs != [] && !Before(p, pairs[0]) {
      InsertSorts(p, pairs[1..]);
      var rest := Insert(p, pairs[1..]);
      forall j | 0 <= j < |rest|
        ensures Before(pairs[0], rest[j])
      {
        assert rest[j] in rest;
      }
    }
  }

  function Sort(pairs: seq<Numbered>): (r: seq<Numbered>)
    ensures forall q :: q in r <==> q in pairs
  {
    if pairs == [] then []
    else
      assert pairs == [pairs[0]] + pairs[1..];
      Insert(pairs[0], Sort(pairs[1..]))
  }

  lemma {:induction false} SortSorts(pairs: seq<Numbered>)
    ensures Sorted(Sort(pairs))
  {
    if pairs != [] {
      SortSorts(pairs[1..]);
      InsertSorts(pairs[0], Sort(pairs[1..]));
    }
  }

  // -------------------------------------------------------------------- build

  /** No pair with the same number has a lower index. */
  predicate Lowest(p: Numbered, pairs: seq<Numbered>) {
    p in pairs && forall q <- pairs :: q.number == p.number ==> p.index <= q.index
  }

  predicate Covered(kept: seq<Numbered>, number: nat) {
    exists p <- kept :: p.number == number
  }

  /** `kept` holds, in increasing order, the lowest index of every number in `pairs`. */
  predicate Firsts(kept: seq<Numbered>, pairs: seq<Numbered>) {
    && StrictlyIncreasing(kept)
    && (forall p <- kept :: Lowest(p, pairs))
    && (forall q <- pairs :: Covered(kept, q.number))
  }

  /** `dedup_by_key` on the number: of equal neighbours the first stays. */
  method Dedup(pairs: seq<Numbered>) returns (kept: seq<Numbered>)
    requires Sorted(pairs)
    ensures Firsts(kept, pairs)
  {
    kept := [];
    for k := 0 to |pairs|
      invariant Firsts(kept, pairs[..k])
      invariant k > 0 ==> kept != [] && kept[|kept| - 1].number == pairs[k - 1].number
    {
      PrefixStep(pairs, k);
      if kept == [] || kept[|kept| - 1].number != pairs[k].number {
        DedupKeeps(kept, pairs[..k], pairs[k]);
        kept := kept + [pairs[k]];
      } else {
        DedupDrops(kept, pairs[..k], pairs[k]);
      }
    }
    assert pairs[..|pairs|] == pairs;
  }

  /** What sortedness says about the next pair. */
  lemma {:induction false} PrefixStep(pairs: seq<Numbered>, k: nat)
    requires k < |pairs| && Sorted(pairs)
    ensures pairs[..k + 1] == pairs[..k] + [pairs[k]]
    ensures forall q <- pairs[..k] :: Before(q, pairs[k])
    ensures k > 0 ==> forall q <- pairs[..k] :: q.number <= pairs[k - 1].number
  {
  }

  lemma {:induction false} DedupKeeps(kept: seq<Numbered>, before: seq<Numbered>, next: Numbered)
    requires Firsts(kept, before) && (forall q <- before :: Before(q, next))
    requires kept == [] || kept[|kept| - 1].number != next.number
    ensures Firsts(kept + [next], before + [next])
  {
    LastIsBelow(kept, before, next);
    forall q <- before + [next]
      ensures Covered(kept + [next], q.number)
    {
      if q in before {
        var p :| p in kept && p.number == q.number;
        assert p in kept + [next];
      } else {
        assert next in kept + [next];
      }
    }
    forall p <- kept + [next]
      ensures Lowest(p, before + [next])
    {
      if p in kept {
        assert Lowest(p, before);
      } else {
        NumberIsNew(kept, before, next);
      }
    }
  }

  lemma {:induction false} LastIsBelow(kept: seq<Numbered>, before: seq<Numbered>, next: Numbered)
    requires Firsts(kept, before) && (forall q <- before :: Before(q, next))
    requires kept == [] || kept[|kept| - 1].number != next.number
    ensures forall i :: 0 <= i < |kept| ==> kept[i].number < next.number
  {
    if kept != [] {
      var last := kept[|kept| - 1];
      assert Lowest(last, before);
      assert Before(last, next);
    }
  }

  lemma {:induction false} NumberIsNew(kept: seq<Numbered>, before: seq<Numbered>, next: Numbered)
    requires Firsts(kept, before) && (forall i :: 0 <= i < |kept| ==> kept[i].number < next.number)
    ensures forall q <- before :: q.number != next.number
  {
    forall q <- before
      ensures q.number != next.number
    {
      assert Covered(kept, q.number);
    }
  }

  lemma {:induction false} DedupDrops(kept: seq<Numbered>, before: seq<Numbered>, next: Numbered)
    requires Firsts(kept, before) && (forall q <- before :: Before(q, next))
    requires kept != [] && kept[|kept| - 1].number == next.number
    ensures Firsts(kept, before + [next])
  {
    var last := kept[|kept| - 1];
    assert last in kept;
    assert Covered(kept, next.number);
    assert Lowest(last, before);
    forall p <- kept
      ensures Lowest(p, before + [next])
    {
      assert Lowest(p, before);
      assert Before(p, next);
    }
  }

  /** The pairs `(number, position)` of a field list. */
  function Positions(fields: seq<FieldDescriptor>): (r: seq<Numbered>)
    ensures |r| == |fields|
    ensures forall i :: 0 <= i < |r| ==> r[i] == Numbered(fields[i].number, i)
  {
    seq(|fields|, i requires 0 <= i < |fields| => Numbered(fields[i].number, i))
  }

  lemma {:induction false} FirstsAreLookup(fields: seq<FieldDescriptor>, kept: seq<Numbered>,
      sorted: seq<Numbered>, number: nat)
    requires forall q :: q in sorted <==> q in Positions(fields)
    requires Firsts(kept, sorted)
    ensures Sparse(kept).Get(number) == Lookup(fields, number)
  {
    var found := BinarySearch(kept, number, 0, |kept|);
    BinarySearchFinds(kept, number, 0, |kept|);
    if Lookup(fields, number).Some? {
      assert Positions(fields)[Lookup(fields, number).value] in sorted;
      assert Covered(kept, number);
    }
    if found.Some? {
      assert kept[found.value] in kept;
      LowestIsLookup(fields, kept[found.value], sorted);
    }
  }

  lemma {:induction false} LowestIsLookup(fields: seq<FieldDescriptor>, p: Numbered, sorted: seq<Numbered>)
    requires (forall q :: q in sorted <==> q in Positions(fields)) && Lowest(p, sorted)
    ensures Lookup(fields, p.number) == Some(p.index)
  {
    var positions := Positions(fields);
    assert p in positions;
    var first := Lookup(fields, p.number).value;
    assert positions[first] in sorted;
  }

  /** The highest field number, 0 if there is no field. */
  method MaxNumber(fields: seq<FieldDescriptor>) returns (max: nat)
    ensures forall i :: 0 <= i < |fields| ==> fields[i].number <= max
  {
    max := 0;
    for i := 0 to |fields|
      invariant forall j :: 0 <= j < i ==> fields[j].number <= max
    {
      if fields[i].number > max {
        max := fields[i].number;
      }
    }
  }

  /** Slot contents after the first `n` fields were entered into the table. */
  predicate TableHolds(table: seq<nat>, fields: seq<FieldDescriptor>, n: nat)
    requires n <= |fields|
  {
    forall k :: 0 <= k < |table| ==> table[k] == SlotFor(fields[..n], k)
  }

  function SlotFor(fields: seq<FieldDescriptor>, number: nat): nat {
    match Lookup(fields, number)
    case None => 0
    case Some(i) => i + 1
  }

  lemma {:induction false} SlotForNext(fields: seq<FieldDescriptor>, n: nat, number: nat)
    requires n < |fields|
    ensures SlotFor(fields[..n + 1], number) ==
      if SlotFor(fields[..n], number) == 0 && fields[n].number == number then n + 1 else SlotFor(fields[..n], number)
  {
    var a, b := Lookup(fields[..n], number), Lookup(fields[..n + 1], number);
    assert forall j :: 0 <= j < n ==> fields[..n][j] == fields[..n + 1][j];
    assert fields[..n + 1][n] == fields[n];
  }

  /** A table or sorted pairs; a number declared twice resolves to its first declaration. */
  method Build(fields: seq<FieldDescriptor>) returns (index: FieldIndex)
    ensures forall number: nat :: index.Get(number) == Lookup(fields, number)
  {
    var max := MaxNumber(fields);
    if max <= (if |fields| * 4 > 64 then |fields| * 4 else 64) {
      var table := new nat[max + 1](_ => 0);
      assert TableHolds(table[..], fields, 0);
      for i := 0 to |fields|
        invariant TableHolds(table[..], fields, i)
      {
        forall k | 0 <= k < table.Length
          ensures SlotFor(fields[..i + 1], k) ==
            if SlotFor(fields[..i], k) == 0 && fields[i].number == k then i + 1 else SlotFor(fields[..i], k)
        {
          SlotForNext(fields, i, k);
        }
        assert table[..][fields[i].number] == table[fields[i].number];
        if table[fields[i].number] == 0 {
          table[fields[i].number] := i + 1;
        }
      }
      index := Dense(table[..]);
      assert fields[..|fields|] == fields;
    } else {
      var sorted := Sort(Positions(fields));
      SortSorts(Positions(fields));
      var kept := Dedup(sorted);
      index := Sparse(kept);
      forall number: nat
        ensures index.Get(number) == Lookup(fields, number)
      {
        FirstsAreLookup(fields, kept, sorted, number);
      }
    }
  }
}
