/**
 The iterator helpers `Chunk` and `MergeFunc`. An iterator is the sequence of what it yields to a
 consumer that accepts everything; what it hands to one that stops it is `Visited`.
 */
module Xiter {
  import opened Visits

  function Flatten<E>(chunks: seq<seq<E>>): seq<E> {
    if chunks == [] then [] else chunks[0] + Flatten(chunks[1..])
  }

  lemma {:induction false} FlattenConcat<E>(a: seq<seq<E>>, b: seq<seq<E>>)
    ensures Flatten(a + b) == Flatten(a) + Flatten(b)
  {
    if a == [] {
      assert [] + b == b;
    } else {
      assert (a + b)[1..] == a[1..] + b;
      FlattenConcat(a[1..], b);
    }
  }

  lemma {:induction false} FlattenSplit<E>(chunks: seq<seq<E>>, k: nat)
    requires k <= |chunks|
    ensures Flatten(chunks) == Flatten(chunks[..k]) + Flatten(chunks[k..])
  {
    assert chunks == chunks[..k] + chunks[k..];
    FlattenConcat(chunks[..k], chunks[k..]);
  }

  lemma FlattenNext<E>(chunks: seq<seq<E>>, i: nat)
    requires i < |chunks|
    ensures Flatten(chunks[..i + 1]) == Flatten(chunks[..i]) + chunks[i]
  {
    FlattenSnoc(chunks[..i], chunks[i]);
    assert chunks[..i] + [chunks[i]] == chunks[..i + 1];
  }

  lemma {:induction false} FlattenPrefix<E>(chunks: seq<seq<E>>, i: nat)
    requires i < |chunks|
    ensures Flatten(chunks[..i + 1]) == Flatten(chunks[..i]) + chunks[i]
    ensures Flatten(chunks[..i + 1]) <= Flatten(chunks)
  {
    hide Flatten;
    FlattenNext(chunks, i);
    FlattenSplit(chunks, i + 1);
  }

  lemma FlattenSingle<E>(chunk: seq<E>)
    ensures Flatten([chunk]) == chunk
  {
    assert [chunk][1..] == [] && chunk + [] == chunk;
  }

  /** Slices of size `n`, but for the last which may be shorter; none is empty. */
  predicate Chunked<E>(chunks: seq<seq<E>>, n: nat) {
    && (forall i :: 0 <= i < |chunks| ==> 0 < |chunks[i]| <= n)
    && (forall i :: 0 <= i < |chunks| - 1 ==> |chunks[i]| == n)
  }

  function Chunks<E>(xs: seq<E>, n: nat): seq<seq<E>>
    requires n >= 1
    decreases |xs|
  {
    if xs == [] then [] else if |xs| <= n then [xs] else [xs[..n]] + Chunks(xs[n..], n)
  }

  /** The slices lose, repeat and reorder nothing. */
  lemma {:induction false} ChunksPartition<E>(xs: seq<E>, n: nat)
    requires n >= 1
    ensures Flatten(Chunks(xs, n)) == xs
    ensures Chunked(Chunks(xs, n), n)
    decreases |xs|
  {
    FlattenNone<E>();
    if 0 < |xs| <= n {
      FlattenSingle(xs);
    } else if |xs| > n {
      ChunksPartition(xs[n..], n);
      FlattenConcat([xs[..n]], Chunks(xs[n..], n));
      FlattenSingle(xs[..n]);
    }
  }

  /** `Chunk`: a slice is handed over once it is full, what is left at the end; a refused one is the last. */
  method Chunk<E>(xs: seq<E>, n: nat, accept: seq<E> -> bool) returns (out: seq<seq<E>>)
    requires n >= 1
    ensures out == Visited(Chunks(xs, n), accept)
  {
    out := [];
    var batch: seq<E> := [];
    assert xs[0..] == xs;
    VisitStart(Chunks(xs, n), accept);
    hide ToVisit, Visited, Chunks;
    ghost var start := 0;
    for i := 0 to |xs|
      invariant 0 <= start <= i < start + n && batch == xs[start..i]
      invariant ToVisit(out, Chunks(xs[start..], n), Chunks(xs, n), accept)
    {
      SliceNext(xs, start, i);
      batch := batch + [xs[i]];
      if |batch| == n {
        NextChunk(xs, start, n);
        VisitMore(out, Chunks(xs[start..], n), Chunks(xs, n), accept);
        out := out + [batch];
        if !accept(batch) {
          return;
        }
        batch := [];
        start := i + 1;
      }
    }
    assert xs[start..] == batch;
    LastChunk(batch, n);
    if |batch| > 0 {
      VisitMore(out, [batch], Chunks(xs, n), accept);
      out := out + [batch];
      if accept(batch) {
        assert [batch][1..] == [];
        VisitEnd(out, Chunks(xs, n), accept);
      }
    } else {
      VisitEnd(out, Chunks(xs, n), accept);
    }
  }

  lemma SliceNext<E>(xs: seq<E>, start: nat, i: nat)
    requires start <= i < |xs|
    ensures xs[start..i] + [xs[i]] == xs[start..i + 1]
  {
  }

  lemma {:induction false} NextChunk<E>(xs: seq<E>, start: nat, n: nat)
    requires 1 <= n <= |xs| - start
    ensures var chunks := Chunks(xs[start..], n);
            chunks != [] && chunks[0] == xs[start..start + n] && chunks[1..] == Chunks(xs[start + n..], n)
  {
    var rest := xs[start..];
    assert rest[..n] == xs[start..start + n] && rest[n..] == xs[start + n..];
    if |rest| == n {
      assert rest[..n] == rest && [rest][1..] == [];
    }
  }

  lemma {:induction false} LastChunk<E>(xs: seq<E>, n: nat)
    requires |xs| < n
    ensures Chunks(xs, n) == if xs == [] then [] else [xs]
  {
  }

  lemma FlattenNone<E>()
    ensures Flatten<E>([]) == []
  {
  }

  lemma {:induction false} FlattenSnoc<E>(chunks: seq<seq<E>>, chunk: seq<E>)
    ensures Flatten(chunks + [chunk]) == Flatten(chunks) + chunk
  {
    FlattenConcat(chunks, [chunk]);
    FlattenSingle(chunk);
  }

  // ---------------------------------------------------------------- merging

  function Merge<V>(x: seq<V>, y: seq<V>, f: (V, V) -> int): seq<V> {
    if x == [] then y
    else if y == [] then x
    else if f(x[0], y[0]) > 0 then [y[0]] + Merge(x, y[1..], f)
    else [x[0]] + Merge(x[1..], y, f)
  }

  /** `out` has been handed out, and what is left of the inputs from `i` and `j` gives the rest. */
  ghost predicate Given<V>(out: seq<V>, x: seq<V>, i: nat, y: seq<V>, j: nat, f: (V, V) -> int, accept: V -> bool) {
    i <= |x| && j <= |y| && ToVisit(out, Merge(x[i..], y[j..], f), Merge(x, y, f), accept)
  }

  lemma NothingGiven<V>(x: seq<V>, y: seq<V>, f: (V, V) -> int, accept: V -> bool)
    ensures Given([], x, 0, y, 0, f, accept)
  {
    assert x[0..] == x && y[0..] == y;
    VisitStart(Merge(x, y, f), accept);
  }

  lemma {:induction false} AllGiven<V>(out: seq<V>, x: seq<V>, y: seq<V>, f: (V, V) -> int, accept: V -> bool)
    requires Given(out, x, |x|, y, |y|, f, accept)
    ensures out == Visited(Merge(x, y, f), accept)
  {
    VisitEnd(out, Merge(x, y, f), accept);
  }

  lemma {:induction false} GiveLeft<V>(out: seq<V>, x: seq<V>, i: nat, y: seq<V>, j: nat, f: (V, V) -> int, accept: V -> bool)
    requires Given(out, x, i, y, j, f, accept) && i < |x| && (j == |y| || f(x[i], y[j]) <= 0)
    ensures if accept(x[i]) then Given(out + [x[i]], x, i + 1, y, j, f, accept)
            else out + [x[i]] == Visited(Merge(x, y, f), accept)
  {
    hide ToVisit, Visited;
    var rest := Merge(x[i + 1..], y[j..], f);
    assert x[i..] == [x[i]] + x[i + 1..];
    assert x[i..][1..] == x[i + 1..];
    assert Merge(x[i..], y[j..], f) == [x[i]] + rest;
    VisitMore(out, [x[i]] + rest, Merge(x, y, f), accept);
  }

  lemma {:induction false} GiveRight<V>(out: seq<V>, x: seq<V>, i: nat, y: seq<V>, j: nat, f: (V, V) -> int, accept: V -> bool)
    requires Given(out, x, i, y, j, f, accept) && j < |y| && (i == |x| || f(x[i], y[j]) > 0)
    ensures if accept(y[j]) then Given(out + [y[j]], x, i, y, j + 1, f, accept)
            else out + [y[j]] == Visited(Merge(x, y, f), accept)
  {
    hide ToVisit, Visited;
    var rest := Merge(x[i..], y[j + 1..], f);
    assert y[j..] == [y[j]] + y[j + 1..];
    assert y[j..][1..] == y[j + 1..];
    assert Merge(x[i..], y[j..], f) == [y[j]] + rest;
    VisitMore(out, [y[j]] + rest, Merge(x, y, f), accept);
  }

  /** `MergeFunc`: one loop over `x` that pulls from `y` what comes first, until a value is refused. */
  method MergeFunc<V>(x: seq<V>, y: seq<V>, f: (V, V) -> int, accept: V -> bool) returns (out: seq<V>)
    ensures out == Visited(Merge(x, y, f), accept)
  {
    out := [];
    var j := 0;
    hide Given, Merge, Visited;
    NothingGiven(x, y, f, accept);
    for i := 0 to |x|
      invariant 0 <= j <= |y| && Given(out, x, i, y, j, f, accept)
    {
      while j < |y| && f(x[i], y[j]) > 0
        invariant 0 <= j <= |y| && Given(out, x, i, y, j, f, accept)
      {
        GiveRight(out, x, i, y, j, f, accept);
        out := out + [y[j]];
        if !accept(y[j]) {
          return;
        }
        j := j + 1;
      }
      GiveLeft(out, x, i, y, j, f, accept);
      out := out + [x[i]];
      if !accept(x[i]) {
        return;
      }
    }
    while j < |y|
      invariant 0 <= j <= |y| && Given(out, x, |x|, y, j, f, accept)
    {
      GiveRight(out, x, |x|, y, j, f, accept);
      out := out + [y[j]];
      if !accept(y[j]) {
        return;
      }
      j := j + 1;
    }
    AllGiven(out, x, y, f, accept);
  }

  /** Every value of the inputs appears as often as it does in both together. */
  lemma {:induction false} MergeKeepsAll<V>(x: seq<V>, y: seq<V>, f: (V, V) -> int)
    ensures multiset(Merge(x, y, f)) == multiset(x) + multiset(y)
  {
    if x != [] && y != [] {
      assert x == [x[0]] + x[1..] && y == [y[0]] + y[1..];
      if f(x[0], y[0]) > 0 {
        MergeKeepsAll(x, y[1..], f);
      } else {
        MergeKeepsAll(x[1..], y, f);
      }
    }
  }

  /** `f` compares like a total preorder. */
  ghost predicate Orders<V(!new)>(f: (V, V) -> int) {
    && (forall a, b :: f(a, b) > 0 ==> f(b, a) <= 0)
    && (forall a, b, c :: f(a, b) <= 0 && f(b, c) <= 0 ==> f(a, c) <= 0)
  }

  predicate Sorted<V>(s: seq<V>, f: (V, V) -> int) {
    forall i, j :: 0 <= i < j < |s| ==> f(s[i], s[j]) <= 0
  }

  lemma {:induction false} MergeMember<V>(x: seq<V>, y: seq<V>, f: (V, V) -> int, v: V)
    ensures v in Merge(x, y, f) <==> v in x || v in y
  {
    MergeKeepsAll(x, y, f);
    assert v in multiset(Merge(x, y, f)) <==> v in multiset(x) + multiset(y);
  }

  lemma OrderSteps<V(!new)>(f: (V, V) -> int, a: V, b: V, c: V)
    requires Orders(f)
    ensures f(a, a) <= 0
    ensures f(a, b) > 0 ==> f(b, a) <= 0
    ensures f(a, b) <= 0 && f(b, c) <= 0 ==> f(a, c) <= 0
  {
  }

  lemma HeadLeast<V(!new)>(s: seq<V>, f: (V, V) -> int, v: V)
    requires Orders(f) && Sorted(s, f) && v in s
    ensures f(s[0], v) <= 0
  {
    OrderSteps(f, v, v, v);
    hide Orders;
    var i :| 0 <= i < |s| && s[i] == v;
  }

  /** The value `Merge` takes first is least. */
  lemma FirstLeast<V(!new)>(x: seq<V>, y: seq<V>, f: (V, V) -> int, v: V)
    requires Orders(f) && Sorted(x, f) && Sorted(y, f) && x != [] && y != [] && (v in x || v in y)
    ensures f(if f(x[0], y[0]) > 0 then y[0] else x[0], v) <= 0
  {
    OrderSteps(f, x[0], y[0], v);
    OrderSteps(f, y[0], x[0], v);
    if v in x {
      HeadLeast(x, f, v);
    } else {
      HeadLeast(y, f, v);
    }
    hide Orders, Sorted;
  }

  lemma SortedAfter<V(!new)>(first: V, rest: seq<V>, f: (V, V) -> int)
    requires Sorted(rest, f) && forall j :: 0 <= j < |rest| ==> f(first, rest[j]) <= 0
    ensures Sorted([first] + rest, f)
  {
  }

  /** Ordered inputs give an ordered output. */
  lemma {:induction false} MergeSorts<V(!new)>(x: seq<V>, y: seq<V>, f: (V, V) -> int)
    requires Orders(f) && Sorted(x, f) && Sorted(y, f)
    ensures Sorted(Merge(x, y, f), f)
  {
    if x != [] && y != [] {
      var fromY := f(x[0], y[0]) > 0;
      var first := if fromY then y[0] else x[0];
      var xs, ys := if fromY then x else x[1..], if fromY then y[1..] else y;
      MergeSorts(xs, ys, f);
      hide Orders, Sorted;
      var rest := Merge(xs, ys, f);
      forall j | 0 <= j < |rest|
        ensures f(first, rest[j]) <= 0
      {
        MergeMember(xs, ys, f, rest[j]);
        FirstLeast(x, y, f, rest[j]);
      }
      SortedAfter(first, rest, f);
    }
  }

  predicate AllAre<V>(s: seq<V>, left: V -> bool, b: bool) {
    forall i :: 0 <= i < |s| ==> left(s[i]) == b
  }

  /** A value of `x` that `Merge` gives after the head of `y` it took first compares greater than that. */
  lemma {:induction false} AfterHead<V(!new)>(x: seq<V>, y: seq<V>, f: (V, V) -> int, left: V -> bool, v: V)
    requires Orders(f) && Sorted(x, f) && x != [] && y != [] && f(x[0], y[0]) > 0
    requires AllAre(y, left, false) && left(v) && v in Merge(x, y[1..], f)
    ensures f(v, y[0]) > 0
  {
    MergeMember(x, y[1..], f, v);
    HeadLeast(x, f, v);
    OrderSteps(f, x[0], v, y[0]);
  }

  /**
   Of values that compare equal those of `x` come first: where a value of `y` precedes one of `x`, the
   latter compares greater. `left` tells the values of the two inputs apart.
   */
  lemma {:induction false} MergeIsStable<V(!new)>(x: seq<V>, y: seq<V>, f: (V, V) -> int, left: V -> bool, i: nat, j: nat)
    requires Orders(f) && Sorted(x, f) && Sorted(y, f)
    requires AllAre(x, left, true) && AllAre(y, left, false)
    requires i < j < |Merge(x, y, f)| && !left(Merge(x, y, f)[i]) && left(Merge(x, y, f)[j])
    ensures f(Merge(x, y, f)[j], Merge(x, y, f)[i]) > 0
  {
    assert x != [] && y != [];
    MergeStep(x, y, f, i);
    MergeStep(x, y, f, j);
    TailsSorted(x, y, f, left);
    hide Orders, Sorted, AllAre, Merge;
    if f(x[0], y[0]) <= 0 {
      MergeIsStable(x[1..], y, f, left, i - 1, j - 1);
    } else if i > 0 {
      MergeIsStable(x, y[1..], f, left, i - 1, j - 1);
    } else {
      AfterHead(x, y, f, left, Merge(x, y, f)[j]);
    }
  }

  /** What the merge holds at a position: a head, or what the merge of the rest holds one before. */
  lemma {:induction false} MergeStep<V>(x: seq<V>, y: seq<V>, f: (V, V) -> int, i: nat)
    requires i < |Merge(x, y, f)| && x != [] && y != []
    ensures var fromX := f(x[0], y[0]) <= 0;
            var rest := if fromX then Merge(x[1..], y, f) else Merge(x, y[1..], f);
            && i <= |rest|
            && Merge(x, y, f)[i] == (if i > 0 then rest[i - 1] else if fromX then x[0] else y[0])
            && (i > 0 ==> Merge(x, y, f)[i] in rest)
  {
  }

  lemma {:induction false} TailsSorted<V(!new)>(x: seq<V>, y: seq<V>, f: (V, V) -> int, left: V -> bool)
    requires Sorted(x, f) && Sorted(y, f) && AllAre(x, left, true) && AllAre(y, left, false)
    requires x != [] && y != []
    ensures Sorted(x[1..], f) && Sorted(y[1..], f) && AllAre(x[1..], left, true) && AllAre(y[1..], left, false)
    ensures left(x[0]) && !left(y[0])
  {
  }
}
