/** Sequences as orders of a set, and what is taken from sets and maps; shared by several modules. */
module Collections {

  predicate Distinct<A(==)>(xs: seq<A>) {
    forall i, j :: 0 <= i < j < |xs| ==> xs[i] != xs[j]
  }

  function Elems<A(==)>(xs: seq<A>): set<A> {
    set x <- xs
  }

  /** Some element of a set: the next key of a Go map that is ranged over. */
  method Pick<A(==)>(s: set<A>) returns (x: A)
    requires s != {}
    ensures x in s
  {
    x :| x in s;
  }

  /** The iteration over a set or the keys of a map: every element once. */
  method InSomeOrder<A(==)>(s: set<A>) returns (xs: seq<A>)
    ensures Distinct(xs) && Elems(xs) == s
  {
    xs := [];
    var left := s;
    while left != {}
      invariant Elems(xs) + left == s && Elems(xs) !! left
      invariant Distinct(xs)
      decreases |left|
    {
      var x := Pick(left);
      assert x !in Elems(xs);
      assert forall i :: 0 <= i < |xs| ==> xs[i] in Elems(xs);
      xs := xs + [x];
      left := left - {x};
    }
  }

  lemma {:induction false} Enumerate<A>(s: set<A>) returns (xs: seq<A>)
    ensures Distinct(xs) && Elems(xs) == s
  {
    if s == {} {
      xs := [];
    } else {
      var x :| x in s;
      var rest := Enumerate(s - {x});
      xs := [x] + rest;
      assert forall i :: 0 <= i < |rest| ==> rest[i] in Elems(rest);
      assert Elems(xs) == {x} + Elems(rest);
    }
  }

  lemma {:induction false} DistinctSize<A>(xs: seq<A>)
    requires Distinct(xs)
    ensures |Elems(xs)| == |xs|
  {
    if xs != [] {
      var n := |xs| - 1;
      assert xs == xs[..n] + [xs[n]];
      assert Elems(xs) == Elems(xs[..n]) + {xs[n]} && xs[n] !in Elems(xs[..n]);
      DistinctSize(xs[..n]);
    }
  }

  lemma DistinctConcat<A>(xs: seq<A>, ys: seq<A>)
    ensures Distinct(xs + ys) <==> Distinct(xs) && Distinct(ys) && Elems(xs) !! Elems(ys)
    ensures Elems(xs + ys) == Elems(xs) + Elems(ys)
  {
    assert forall i :: 0 <= i < |xs| ==> (xs + ys)[i] == xs[i] && xs[i] in Elems(xs);
    assert forall i :: 0 <= i < |ys| ==> (xs + ys)[|xs| + i] == ys[i] && ys[i] in Elems(ys);
    assert forall x :: x in xs + ys <==> x in xs || x in ys;
    if Distinct(xs + ys) {
      forall i, j | 0 <= i < |xs| && 0 <= j < |ys|
        ensures xs[i] != ys[j]
      {
        assert (xs + ys)[i] != (xs + ys)[|xs| + j];
      }
    }
  }

  lemma EmptyElems<A>(xs: seq<A>)
    ensures Elems(xs) == {} <==> xs == []
  {
    if xs != [] {
      assert xs[0] in Elems(xs);
    }
  }

  lemma SubsetSize<A>(s: set<A>, t: set<A>)
    requires s <= t
    ensures |s| <= |t|
  {
    assert t == s + (t - s);
  }

  lemma SomeKey<K, V>(m: map<K, V>) returns (k: K)
    requires m != map[]
    ensures k in m
  {
    assert m.Keys != {};
    k :| k in m.Keys;
  }

  lemma SameEnd<A>(xs: seq<A>, x: A, ys: seq<A>, y: A)
    ensures xs + [x] == ys + [y] <==> xs == ys && x == y
  {
    if xs + [x] == ys + [y] {
      assert |xs| == |ys| && (xs + [x])[|xs|] == (ys + [y])[|xs|];
      assert xs == (xs + [x])[..|xs|] && ys == (ys + [y])[..|xs|];
    }
  }
}
