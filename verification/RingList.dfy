/**
 The doubly linked ring list. A sentinel closes the elements into a ring; `es` is the ghost
 sequence of elements in order, and every method is held against the sequence operation it stands for.
 */
module RingList {
  import opened Collections
  import opened Visits

  /** `es` with `e` put in at position `k`. */
  function InsertAt<A>(es: seq<A>, k: nat, e: A): (r: seq<A>)
    requires k <= |es|
    ensures |r| == |es| + 1
    ensures forall i :: 0 <= i < |r| ==> r[i] == if i < k then es[i] else if i == k then e else es[i - 1]
  {
    es[..k] + [e] + es[k..]
  }

  /** `es` without the element at position `k`. */
  function RemoveAt<A>(es: seq<A>, k: nat): (r: seq<A>)
    requires k < |es|
    ensures |r| == |es| - 1
    ensures forall i :: 0 <= i < |r| ==> r[i] == es[if i < k then i else i + 1]
  {
    es[..k] + es[k + 1..]
  }

  /** The first position of `e`. */
  function Index<A(==)>(es: seq<A>, e: A): (k: nat)
    requires e in es
    ensures k < |es| && es[k] == e
  {
    if es[0] == e then 0 else 1 + Index(es[1..], e)
  }

  lemma {:induction false} IndexUnique<A>(es: seq<A>, k: nat)
    requires Distinct(es) && k < |es|
    ensures Index(es, es[k]) == k
  {
    assert es[Index(es, es[k])] == es[k];
  }

  lemma InsertDistinct<A>(es: seq<A>, k: nat, e: A)
    requires Distinct(es) && k <= |es| && e !in es
    ensures Distinct(InsertAt(es, k, e))
  {
    var d := InsertAt(es, k, e);
    hide InsertAt;
    forall i, j | 0 <= i < j < |d|
      ensures d[i] != d[j]
    {
      assert i != k ==> d[i] in es;
      assert j != k ==> d[j] in es;
    }
  }

  lemma RemoveDistinct<A>(es: seq<A>, k: nat)
    requires Distinct(es) && k < |es|
    ensures Distinct(RemoveAt(es, k)) && es[k] !in RemoveAt(es, k)
  {
    hide RemoveAt;
  }

  /** Where an element is found once another one is taken out. */
  lemma IndexAfterRemove<A>(es: seq<A>, k: nat, m: nat)
    requires Distinct(es) && k < |es| && m < |es| && k != m
    ensures es[m] in RemoveAt(es, k)
    ensures Index(RemoveAt(es, k), es[m]) == if m < k then m else m - 1
  {
    var w := RemoveAt(es, k);
    var j := if m < k then m else m - 1;
    assert w[j] == es[m];
    RemoveDistinct(es, k);
    IndexUnique(w, j);
  }

  /** `es` with `e` taken out and put back before `mark`. */
  function MovedBefore<A(==)>(es: seq<A>, e: A, mark: A): seq<A>
    requires e in es
  {
    var w := RemoveAt(es, Index(es, e));
    if mark in w then InsertAt(w, Index(w, mark), e) else es
  }

  /** `es` with `e` taken out and put back behind `mark`. */
  function MovedAfter<A(==)>(es: seq<A>, e: A, mark: A): seq<A>
    requires e in es
  {
    var w := RemoveAt(es, Index(es, e));
    if mark in w then InsertAt(w, Index(w, mark) + 1, e) else es
  }

  lemma MovedByPosition<A>(es: seq<A>, k: nat, m: nat)
    requires Distinct(es) && k < |es| && m < |es| && k != m
    ensures MovedBefore(es, es[k], es[m]) == InsertAt(RemoveAt(es, k), if m < k then m else m - 1, es[k])
    ensures MovedAfter(es, es[k], es[m]) == InsertAt(RemoveAt(es, k), if m < k then m + 1 else m, es[k])
  {
    hide InsertAt, Distinct;
    IndexUnique(es, k);
    IndexAfterRemove(es, k, m);
    hide Index;
  }

  lemma PutBack<A>(es: seq<A>, k: nat)
    requires k < |es|
    ensures InsertAt(RemoveAt(es, k), k, es[k]) == es
  {
  }

  /** Taking an element out and putting it last. */
  lemma ToBack<A>(es: seq<A>, k: nat)
    requires k < |es|
    ensures |RemoveAt(es, k)| == |es| - 1
    ensures InsertAt(RemoveAt(es, k), |es| - 1, es[k]) == RemoveAt(es, k) + [es[k]]
    ensures k == |es| - 1 ==> RemoveAt(es, k) + [es[k]] == es
  {
  }

  /** Moving an element next to the neighbour it already has changes nothing. */
  lemma MoveToNeighbour<A>(es: seq<A>, k: nat)
    requires Distinct(es) && k + 1 < |es|
    ensures MovedBefore(es, es[k], es[k + 1]) == es
    ensures MovedAfter(es, es[k + 1], es[k]) == es
  {
    hide InsertAt, RemoveAt, MovedBefore, MovedAfter, Distinct;
    MovedByPosition(es, k, k + 1);
    MovedByPosition(es, k + 1, k);
    PutBack(es, k);
    PutBack(es, k + 1);
  }

  function Reversed<A>(s: seq<A>): (r: seq<A>)
    ensures |r| == |s| && forall k :: 0 <= k < |s| ==> r[k] == s[|s| - 1 - k]
  {
    if s == [] then [] else [s[|s| - 1]] + Reversed(s[..|s| - 1])
  }

  /** `s` is `before` followed by the first `k` of `vs`. */
  ghost predicate IsHeadAfter<A>(s: seq<A>, vs: seq<A>, k: int, before: seq<A>) {
    0 <= k <= |vs| && s == before + vs[..k]
  }

  lemma IsHeadAfterMore<A>(s: seq<A>, vs: seq<A>, k: int, before: seq<A>)
    requires IsHeadAfter(s, vs, k, before) && k < |vs|
    ensures IsHeadAfter(s + [vs[k]], vs, k + 1, before)
  {
    assert vs[..k + 1] == vs[..k] + [vs[k]];
  }

  ghost predicate StartsWith<A>(es: seq<A>, start: seq<A>) {
    |start| <= |es| && es[..|start|] == start
  }

  lemma StartsWithMore<A>(es: seq<A>, e: A, start: seq<A>)
    requires StartsWith(es, start)
    ensures StartsWith(es + [e], start)
  {
    assert (es + [e])[..|start|] == es[..|start|];
  }

  lemma StartsWithAt<A>(es: seq<A>, start: seq<A>, k: nat)
    requires StartsWith(es, start) && k < |start|
    ensures |start| <= |es| && es[k] == start[k]
  {
    assert es[..|start|][k] == es[k];
  }

  /** `s` is the part of `vs` from `i` on, followed by `before`. */
  ghost predicate IsTailThen<A>(s: seq<A>, vs: seq<A>, i: int, before: seq<A>) {
    0 <= i <= |vs| && s == vs[i..] + before
  }

  lemma IsTailThenMore<A>(s: seq<A>, vs: seq<A>, i: int, before: seq<A>)
    requires IsTailThen(s, vs, i, before) && i > 0
    ensures IsTailThen([vs[i - 1]] + s, vs, i - 1, before)
  {
    assert vs[i - 1..] == [vs[i - 1]] + vs[i..];
  }

  ghost predicate EndsWith<A>(es: seq<A>, end: seq<A>) {
    |end| <= |es| && es[|es| - |end|..] == end
  }

  lemma EndsWithMore<A>(e: A, es: seq<A>, end: seq<A>)
    requires EndsWith(es, end)
    ensures EndsWith([e] + es, end)
  {
    assert ([e] + es)[1 + |es| - |end|..] == es[|es| - |end|..];
  }

  lemma EndsWithAt<A>(es: seq<A>, end: seq<A>, k: nat)
    requires EndsWith(es, end) && k < |end|
    ensures |end| <= |es| && es[|es| - |end| + k] == end[k]
  {
    assert es[|es| - |end|..][k] == es[|es| - |end| + k];
  }

  class Element<T(0)> {
    var next: Element?<T>
    var prev: Element?<T>
    /** The list to which this element belongs. */
    var list: List?<T>
    var Value: T
    /** The list whose sentinel this is, if it is one. */
    ghost var ring: List?<T>

    constructor (v: T)
      ensures Value == v && next == null && prev == null && list == null && ring == null
    {
      Value := v;
      next, prev, list, ring := null, null, null, null;
    }

    function Next(): Element?<T>
      reads this
    {
      if list != null && next != list.root then next else null
    }

    function Prev(): Element?<T>
      reads this
    {
      if list != null && prev != list.root then prev else null
    }
  }

  /** Neighbours in the sequence are each other's next and prev. */
  ghost predicate Linked<T(0)>(c: seq<Element<T>>)
    reads c
  {
    forall i :: 0 <= i < |c| - 1 ==> c[i].next == c[i + 1] && c[i + 1].prev == c[i]
  }

  class List<T(0)> {
    const root: Element<T>
    var len: int
    ghost var es: seq<Element<T>>

    /** The elements between two visits of the sentinel. */
    ghost function Cycle(): seq<Element<T>>
      reads this
    {
      [root] + es + [root]
    }

    ghost function Elems(): set<Element<T>>
      reads this
    {
      set x | x in es
    }

    ghost function Footprint(): set<object>
      reads this
    {
      {this, root} + Elems()
    }

    /**
     The ring invariant: a zero list, or a ring through the sentinel; each element once, owned by
     this list, and counted.
     */
    ghost predicate Valid()
      reads this, root, es
    {
      && root.ring == this && root.list == null
      && len == |es|
      && Distinct(es)
      && (forall i :: 0 <= i < |es| ==> es[i].list == this)
      && (if root.next == null then es == [] && root.prev == null else Linked(Cycle()))
    }

    ghost function Values(): (vs: seq<T>)
      reads this, es
      ensures |vs| == |es|
      ensures forall i :: 0 <= i < |es| ==> vs[i] == es[i].Value
    {
      seq(|es|, i requires 0 <= i < |es| reads this, es => es[i].Value)
    }

    lemma HasValues(vs: seq<T>)
      requires |vs| == |es| && forall i :: 0 <= i < |es| ==> es[i].Value == vs[i]
      ensures Values() == vs
    {
    }

    /** An element that names this list as its owner is in it; every element the package hands out keeps this. */
    ghost predicate Knows(e: Element<T>)
      reads this, e
    {
      e.list == this ==> e in es
    }

    /** The zero value: the ring is closed by the first insertion. */
    constructor ()
      ensures Valid() && es == [] && fresh(root)
    {
      var zero: T := *;
      root := new Element(zero);
      len := 0;
      es := [];
      new;
      root.ring := this;
    }

    /** Closes the ring of an empty list. */
    method Init()
      requires Valid() && es == []
      modifies this`len, root`next, root`prev
      ensures Valid() && es == [] && root.next != null
    {
      root.next := root;
      root.prev := root;
      len := 0;
      assert Cycle() == [root, root];
    }

    function Len(): int
      reads this
    {
      len
    }

    function Front(): Element?<T>
      reads this, root
    {
      if len == 0 then null else root.next
    }

    function Back(): Element?<T>
      reads this, root
    {
      if len == 0 then null else root.prev
    }

    method LazyInit()
      requires Valid()
      modifies this`len, root`next, root`prev
      ensures Valid() && es == old(es) && root.next != null
    {
      if root.next == null {
        Init();
      }
    }

    /** Unlinks the element at position `k`. */
    method Unlink(e: Element<T>, ghost k: nat)
      requires Valid() && k < |es| && es[k] == e
      modifies root`next, root`prev, Elems()`next, Elems()`prev
      ensures root.next != null
      ensures Linked([root] + RemoveAt(es, k) + [root])
    {
      ghost var c := Cycle();
      assert Around(c);
      assert [root] + RemoveAt(es, k) + [root] == RemoveAt(c, k + 1);
      hide Distinct, Around, RemoveAt;
      Bypass(e, c, k + 1);
    }

    /** Unlinks an element and forgets its owner. */
    method RemoveElement(e: Element<T>, ghost k: nat)
      requires Valid() && k < |es| && es[k] == e
      modifies this`len, this`es, e`list, root`next, root`prev, Elems()`next, Elems()`prev
      ensures Valid() && root.next != null
      ensures es == RemoveAt(old(es), k)
      ensures e.next == null && e.prev == null && e.list == null
    {
      ghost var d := RemoveAt(es, k);
      RemoveDistinct(es, k);
      assert e !in [root] + d + [root];
      Unlink(e, k);
      e.next := null;
      e.prev := null;
      e.list := null;
      len := len - 1;
      es := d;
    }

    /** Puts an unlinked element of this list back, as the element at position `j`. */
    method Relink(e: Element<T>, at: Element<T>, ghost d: seq<Element<T>>, ghost j: nat)
      requires root.ring == this && root.list == null && e.list == this && len == |d| + 1
      requires Distinct(d) && e !in d && forall i :: 0 <= i < |d| ==> d[i].list == this
      requires Linked([root] + d + [root])
      requires j <= |d| && at == ([root] + d)[j]
      modifies this`es, e`next, e`prev, root`next, root`prev, (set x | x in d)`next, (set x | x in d)`prev
      ensures Valid() && root.next != null
      ensures es == InsertAt(d, j, e)
    {
      ghost var c := [root] + d + [root];
      InsertDistinct(d, j, e);
      assert [root] + InsertAt(d, j, e) + [root] == InsertAt(c, j + 1, e);
      assert Around(c);
      hide Distinct, Around;
      Link(e, at, c, j + 1);
      es := InsertAt(d, j, e);
    }

    /** Makes `e` the element at position `k`, behind `at`. */
    method InsertElement(e: Element<T>, at: Element<T>, ghost k: nat)
      requires Valid() && root.next != null
      requires k <= |es| && at == Cycle()[k]
      requires e !in es && e != root
      modifies this`len, this`es, e`next, e`prev, e`list
      modifies root`next, root`prev, Elems()`next, Elems()`prev
      ensures Valid() && root.next != null
      ensures es == InsertAt(old(es), k, e)
    {
      assert forall i :: 0 <= i < |es| ==> es[i] in es;
      assert at == ([root] + es)[k];
      e.list := this;
      len := len + 1;
      Relink(e, at, es, k);
    }

    method InsertValue(v: T, at: Element<T>, ghost k: nat) returns (e: Element<T>)
      requires Valid() && root.next != null
      requires k <= |es| && at == Cycle()[k]
      modifies this`len, this`es, root`next, root`prev, Elems()`next, Elems()`prev
      ensures Valid() && root.next != null
      ensures fresh(e) && e.Value == v && es == InsertAt(old(es), k, e)
    {
      e := new Element(v);
      InsertElement(e, at, k);
    }

    /** Moves an element behind `at`, the object at position `m` of the ring. */
    method MoveElement(e: Element<T>, at: Element<T>, ghost k: nat, ghost m: nat)
      requires Valid() && k < |es| && es[k] == e
      requires m <= |es| && at == Cycle()[m]
      modifies this`es, root`next, root`prev, Elems()`next, Elems()`prev
      ensures Valid() && root.next != null
      ensures e == at ==> es == old(es)
      ensures e != at ==> es == InsertAt(RemoveAt(old(es), k), if m <= k then m else m - 1, e)
    {
      if e == at {
        assert root.next != null;
        return;
      }
      ghost var d := RemoveAt(es, k);
      ghost var j := if m <= k then m else m - 1;
      RemoveDistinct(es, k);
      assert m != k + 1 && at == ([root] + d)[j];
      assert forall i :: 0 <= i < |d| ==> d[i] in es;
      Unlink(e, k);
      Relink(e, at, d, j);
    }

    // -------------------------------------------------------------- the exported operations

    /** Who stands next to whom around the ring. */
    lemma Neighbours()
      requires Valid() && root.next != null
      ensures root.next == Cycle()[1] && root.prev == Cycle()[|es|]
      ensures forall k :: 0 <= k < |es| ==> es[k].prev == Cycle()[k] && es[k].next == Cycle()[k + 2]
    {
      var c := Cycle();
      assert c[0].next == c[0 + 1] && c[|es|].next == c[|es| + 1] && c[|es| + 1].prev == c[|es|];
      forall k | 0 <= k < |es|
        ensures es[k].prev == c[k] && es[k].next == c[k + 2]
      {
        assert c[k].next == c[k + 1] && c[k + 1].prev == c[k] && c[k + 1].next == c[k + 1 + 1];
      }
    }

    /** Removes `e` if it is an element of this list, and otherwise changes nothing. */
    method Remove(e: Element<T>) returns (v: T)
      requires Valid() && Knows(e)
      modifies this`len, this`es, root`next, root`prev, Elems()`next, Elems()`prev, Elems()`list
      ensures Valid()
      ensures v == e.Value
      ensures old(e.list) == this ==> es == RemoveAt(old(es), Index(old(es), e)) && e.list == null
      ensures old(e.list) != this ==> unchanged(this) && unchanged(root) && unchanged(Elems())
    {
      if e.list == this {
        RemoveElement(e, Index(es, e));
      }
      return e.Value;
    }

    method PushFront(v: T) returns (e: Element<T>)
      requires Valid()
      modifies this`len, this`es, root`next, root`prev, Elems()`next, Elems()`prev
      ensures Valid()
      ensures fresh(e) && e.Value == v && es == [e] + old(es)
      ensures Values() == [v] + old(Values())
    {
      LazyInit();
      hide Valid, Linked, Distinct, Values;
      e := PrependValue(v);
    }

    method PushBack(v: T) returns (e: Element<T>)
      requires Valid()
      modifies this`len, this`es, root`next, root`prev, Elems()`next, Elems()`prev
      ensures Valid()
      ensures fresh(e) && e.Value == v && es == old(es) + [e]
      ensures Values() == old(Values()) + [v]
    {
      LazyInit();
      hide Valid, Linked, Distinct, Values;
      e := AppendValue(v);
    }

    /** Inserts before `mark`, or answers null and changes nothing when `mark` is not in this list. */
    method InsertBefore(v: T, mark: Element<T>) returns (e: Element?<T>)
      requires Valid() && Knows(mark)
      modifies this`len, this`es, root`next, root`prev, Elems()`next, Elems()`prev
      ensures Valid()
      ensures old(mark.list) != this ==> e == null && unchanged(this) && unchanged(root) && unchanged(Elems())
      ensures old(mark.list) == this ==>
                e != null && fresh(e) && e.Value == v && es == InsertAt(old(es), Index(old(es), mark), e)
    {
      if mark.list != this {
        return null;
      }
      ghost var k := Index(es, mark);
      Neighbours();
      e := InsertValue(v, mark.prev, k);
    }

    /** Inserts behind `mark`, or answers null and changes nothing when `mark` is not in this list. */
    method InsertAfter(v: T, mark: Element<T>) returns (e: Element?<T>)
      requires Valid() && Knows(mark)
      modifies this`len, this`es, root`next, root`prev, Elems()`next, Elems()`prev
      ensures Valid()
      ensures old(mark.list) != this ==> e == null && unchanged(this) && unchanged(root) && unchanged(Elems())
      ensures old(mark.list) == this ==>
                e != null && fresh(e) && e.Value == v && es == InsertAt(old(es), Index(old(es), mark) + 1, e)
    {
      if mark.list != this {
        return null;
      }
      assert mark == Cycle()[Index(es, mark) + 1];
      e := InsertValue(v, mark, Index(es, mark) + 1);
    }

    /** Moves `e` to the front; an element of another list changes nothing. */
    method MoveToFront(e: Element<T>)
      requires Valid()
      requires Knows(e)
      modifies this`es, root`next, root`prev, Elems()`next, Elems()`prev
      ensures Valid()
      ensures old(e.list) != this ==> unchanged(this) && unchanged(root) && unchanged(Elems())
      ensures old(e.list) == this ==> es == [e] + RemoveAt(old(es), Index(old(es), e))
    {
      if e.list != this || root.next == e {
        if e.list == this {
          Neighbours();
          IndexUnique(es, 0);
        }
        return;
      }
      MoveElement(e, root, Index(es, e), 0);
    }

    /** Moves `e` to the back; an element of another list changes nothing. */
    method MoveToBack(e: Element<T>)
      requires Valid()
      requires Knows(e)
      modifies this`es, root`next, root`prev, Elems()`next, Elems()`prev
      ensures Valid()
      ensures old(e.list) != this ==> unchanged(this) && unchanged(root) && unchanged(Elems())
      ensures old(e.list) == this ==> es == RemoveAt(old(es), Index(old(es), e)) + [e]
    {
      if e.list != this {
        return;
      }
      ghost var k := Index(es, e);
      Neighbours();
      ToBack(es, k);
      if root.prev == e {
        IndexUnique(es, |es| - 1);
        return;
      }
      hide Index, Linked, Distinct, InsertAt, RemoveAt;
      MoveElement(e, root.prev, k, |es|);
    }

    /** Moves `e` to before `mark`; nothing changes unless both are in this list and differ. */
    method MoveBefore(e: Element<T>, mark: Element<T>)
      requires Valid()
      requires Knows(e)
      requires Knows(mark)
      modifies this`es, root`next, root`prev, Elems()`next, Elems()`prev
      ensures Valid()
      ensures old(e.list) != this || old(mark.list) != this || e == mark ==> unchanged(this) && unchanged(root) && unchanged(Elems())
      ensures old(e.list) == this && old(mark.list) == this && e != mark ==> es == MovedBefore(old(es), e, mark)
    {
      if e.list != this || e == mark || mark.list != this {
        return;
      }
      ghost var k, m := Index(es, e), Index(es, mark);
      Neighbours();
      MovedByPosition(es, k, m);
      if mark.prev == e {
        assert m > 0 && e == es[m - 1];
        IndexUnique(es, m - 1);
        MoveToNeighbour(es, k);
      }
      hide Index, MovedBefore, InsertAt, RemoveAt, Distinct, Linked;
      MoveElement(e, mark.prev, k, m);
    }

    /** Where two elements of this list stand, and what moving one behind the other makes of it. */
    lemma Positions(e: Element<T>, mark: Element<T>) returns (k: nat, m: nat)
      requires Valid() && Knows(e) && Knows(mark)
      requires e.list == this && mark.list == this && e != mark
      ensures k < |es| && es[k] == e && m < |es| && Cycle()[m + 1] == mark
      ensures MovedAfter(es, e, mark) == InsertAt(RemoveAt(es, k), if m < k then m + 1 else m, e)
    {
      k, m := Index(es, e), Index(es, mark);
      MovedByPosition(es, k, m);
    }

    /** Moves `e` to behind `mark`; nothing changes unless both are in this list and differ. */
    method MoveAfter(e: Element<T>, mark: Element<T>)
      requires Valid()
      requires Knows(e)
      requires Knows(mark)
      modifies this`es, root`next, root`prev, Elems()`next, Elems()`prev
      ensures Valid()
      ensures old(e.list) != this || old(mark.list) != this || e == mark ==> unchanged(this) && unchanged(root) && unchanged(Elems())
      ensures old(e.list) == this && old(mark.list) == this && e != mark ==> es == MovedAfter(old(es), e, mark)
    {
      hide *;
      if e.list != this || e == mark || mark.list != this {
        return;
      }
      ghost var k, m := Positions(e, mark);
      MoveElement(e, mark, k, m + 1);
    }

    // -------------------------------------------------------------- whole lists

    /** The walk from `src[j]` by `Next` and `Prev`. */
    lemma Walk(j: nat)
      requires Valid() && j < |es|
      ensures es[j].Next() == if j + 1 < |es| then es[j + 1] else null
      ensures es[j].Prev() == if j > 0 then es[j - 1] else null
      ensures Front() == es[0] && Back() == es[|es| - 1]
    {
      Neighbours();
      assert Cycle()[j] == if j > 0 then es[j - 1] else root;
      assert Cycle()[j + 2] == if j + 1 < |es| then es[j + 1] else root;
    }

    method AppendValue(v: T) returns (e: Element<T>)
      requires Valid() && root.next != null
      modifies this`len, this`es, root`next, root`prev, Elems()`next, Elems()`prev
      ensures Valid() && root.next != null
      ensures fresh(e) && e.Value == v && es == old(es) + [e]
      ensures Values() == old(Values()) + [v]
    {
      Neighbours();
      hide Linked, Distinct;
      ghost var was := Values();
      e := InsertValue(v, root.prev, |es|);
      HasValues(was + [v]);
    }

    method PrependValue(v: T) returns (e: Element<T>)
      requires Valid() && root.next != null
      modifies this`len, this`es, root`next, root`prev, Elems()`next, Elems()`prev
      ensures Valid() && root.next != null
      ensures fresh(e) && e.Value == v && es == [e] + old(es)
      ensures Values() == [v] + old(Values())
    {
      hide Linked, Distinct, Valid, Elems;
      ghost var was := Values();
      e := InsertValue(v, root, 0);
      HasValues([v] + was);
    }

    lemma Counted()
      requires Valid()
      ensures len == |es|
    {
    }

    /** What the copying loop has done when `i` elements are still to be copied, and that `e` is the next of them. */
    ghost predicate BackCopied(other: List<T>, e: Element?<T>, src: seq<Element<T>>, base: seq<Element<T>>, vs: seq<T>, before: seq<T>, i: int)
      reads this, root, es, other, other.root, other.es, src
    {
      && Valid() && other.Valid() && root.next != null
      && 0 <= i <= |src| == |vs| && |es| == |base| + |src| - i
      && (forall k :: 0 <= k < |src| ==> src[k].Value == vs[k])
      && (if other == this then src == base else other.es == src)
      && StartsWith(es, base) && IsHeadAfter(Values(), vs, |vs| - i, before)
      && (i > 0 ==> e == src[|src| - i])
    }

    lemma BackStart(other: List<T>)
      requires Valid() && other.Valid() && root.next != null
      ensures BackCopied(other, other.Front(), other.es, es, other.Values(), Values(), other.len)
    {
      Counted();
      if other.es != [] {
        other.Walk(0);
      }
    }

    lemma BackDone(other: List<T>, e: Element?<T>, src: seq<Element<T>>, base: seq<Element<T>>, vs: seq<T>, before: seq<T>)
      requires BackCopied(other, e, src, base, vs, before, 0)
      ensures Valid() && other.Valid() && (other != this ==> other.es == src)
      ensures StartsWith(es, base) && Values() == before + vs
    {
    }

    lemma BackPushed(other: List<T>, e: Element?<T>, src: seq<Element<T>>, base: seq<Element<T>>, vs: seq<T>, before: seq<T>, i: int, x: Element<T>, was: seq<Element<T>>, values: seq<T>)
      requires Valid() && other.Valid() && root.next != null
      requires 0 < i <= |src| == |vs| && |was| == |base| + |src| - i
      requires forall k :: 0 <= k < |src| ==> src[k].Value == vs[k]
      requires if other == this then src == base else other.es == src
      requires StartsWith(was, base) && IsHeadAfter(values, vs, |vs| - i, before)
      requires e == src[|src| - i] && es == was + [x] && Values() == values + [vs[|vs| - i]]
      ensures e != null && BackCopied(other, e.Next(), src, base, vs, before, i - 1)
    {
      StartsWithMore(was, x, base);
      IsHeadAfterMore(values, vs, |vs| - i, before);
      BackWalk(other, src, base, i);
    }

    /** From the element just copied, `Next` leads to the one to copy next. */
    lemma BackWalk(other: List<T>, src: seq<Element<T>>, base: seq<Element<T>>, i: int)
      requires Valid() && other.Valid()
      requires 0 < i <= |src| && |es| == |base| + |src| - i + 1
      requires if other == this then src == base else other.es == src
      requires StartsWith(es, base)
      ensures i > 1 ==> src[|src| - i].Next() == src[|src| - i + 1]
    {
      hide Linked, Distinct, Values;
      if other == this {
        StartsWithAt(es, base, |src| - i);
        if i > 1 {
          StartsWithAt(es, base, |src| - i + 1);
        }
        Walk(|src| - i);
      } else {
        other.Walk(|src| - i);
      }
    }

    /** One turn of the copying loop. */
    method CopyBack(other: List<T>, e: Element?<T>, i: int, ghost src: seq<Element<T>>, ghost base: seq<Element<T>>, ghost vs: seq<T>, ghost before: seq<T>)
      returns (n: Element?<T>, ghost x: Element<T>)
      requires i > 0 && BackCopied(other, e, src, base, vs, before, i)
      modifies this`len, this`es, root`next, root`prev, Elems()`next, Elems()`prev
      ensures BackCopied(other, n, src, base, vs, before, i - 1)
      ensures fresh(x) && Elems() == old(Elems()) + {x}
    {
      hide Valid, Linked, Distinct, StartsWith, IsHeadAfter, Values, Elems;
      ghost var was, values := es, Values();
      x := AppendBeside(other, e.Value);
      BackPushed(other, e, src, base, vs, before, i, x, was, values);
      n := e.Next();
    }

    /** Pushes to the back while another list, or this one, is being walked. */
    method AppendBeside(other: List<T>, v: T) returns (e: Element<T>)
      requires Valid() && other.Valid() && root.next != null
      modifies this`len, this`es, root`next, root`prev, Elems()`next, Elems()`prev
      ensures Valid() && other.Valid() && root.next != null
      ensures other != this ==> other.es == old(other.es)
      ensures fresh(e) && es == old(es) + [e] && Elems() == old(Elems()) + {e}
      ensures Values() == old(Values()) + [v]
    {
      if other != this {
        Separate(this, other);
      }
      hide Linked, Distinct, Values;
      e := AppendValue(v);
    }

    /** Appends a copy of another list, which may be this one. */
    method PushBackList(other: List<T>)
      requires Valid() && other.Valid()
      modifies this`len, this`es, root`next, root`prev, Elems()`next, Elems()`prev
      ensures Valid() && other.Valid()
      ensures Values() == old(Values()) + old(other.Values())
      ensures StartsWith(es, old(es))
      ensures other != this ==> other.es == old(other.es) && other.Values() == old(other.Values())
    {
      if other != this {
        Separate(this, other);
      }
      LazyInit();
      assert other.Valid() && es == old(es) && Values() == old(Values()) && other.Values() == old(other.Values());
      BackStart(other);
      hide Valid, Linked, Distinct, Values, BackCopied, StartsWith;
      ghost var e := CopyAllBack(other);
      BackDone(other, e, old(other.es), old(es), old(other.Values()), old(Values()));
    }

    /** The copying loop: all of `other`'s elements, from one end to the other. */
    method CopyAllBack(other: List<T>) returns (e: Element?<T>)
      requires BackCopied(other, other.Front(), other.es, es, other.Values(), Values(), other.len)
      requires other.len >= 0
      modifies this`len, this`es, root`next, root`prev, Elems()`next, Elems()`prev
      ensures BackCopied(other, e, old(other.es), old(es), old(other.Values()), old(Values()), 0)
    {
      hide BackCopied, Values, Elems;
      ghost var base, src := es, other.es;
      ghost var before, vs := Values(), other.Values();
      var i := other.Len();
      ghost var elems, copies := Elems(), {};
      e := other.Front();
      while i > 0
        invariant i >= 0 && BackCopied(other, e, src, base, vs, before, i)
        invariant fresh(copies) && Elems() == elems + copies
      {
        ghost var x;
        e, x := CopyBack(other, e, i, src, base, vs, before);
        copies := copies + {x};
        i := i - 1;
      }
    }

    /** What the copying loop has done when `i` elements are still to be copied, and that `e` is the next of them. */
    ghost predicate FrontCopied(other: List<T>, e: Element?<T>, src: seq<Element<T>>, base: seq<Element<T>>, vs: seq<T>, before: seq<T>, i: int)
      reads this, root, es, other, other.root, other.es, src
    {
      && Valid() && other.Valid() && root.next != null
      && 0 <= i <= |src| == |vs| && |es| == |base| + |src| - i
      && (forall k :: 0 <= k < |src| ==> src[k].Value == vs[k])
      && (if other == this then src == base else other.es == src)
      && EndsWith(es, base) && IsTailThen(Values(), vs, i, before)
      && (i > 0 ==> e == src[i - 1])
    }

    lemma FrontStart(other: List<T>)
      requires Valid() && other.Valid() && root.next != null
      ensures FrontCopied(other, other.Back(), other.es, es, other.Values(), Values(), other.len)
    {
      Counted();
      if other.es != [] {
        other.Walk(|other.es| - 1);
      }
    }

    lemma FrontDone(other: List<T>, e: Element?<T>, src: seq<Element<T>>, base: seq<Element<T>>, vs: seq<T>, before: seq<T>)
      requires FrontCopied(other, e, src, base, vs, before, 0)
      ensures Valid() && other.Valid() && (other != this ==> other.es == src)
      ensures |es| == |base| + |src| && EndsWith(es, base) && Values() == vs + before
    {
    }

    lemma FrontPushed(other: List<T>, e: Element?<T>, src: seq<Element<T>>, base: seq<Element<T>>, vs: seq<T>, before: seq<T>, i: int, x: Element<T>, was: seq<Element<T>>, values: seq<T>)
      requires Valid() && other.Valid() && root.next != null
      requires 0 < i <= |src| == |vs| && |was| == |base| + |src| - i
      requires forall k :: 0 <= k < |src| ==> src[k].Value == vs[k]
      requires if other == this then src == base else other.es == src
      requires EndsWith(was, base) && IsTailThen(values, vs, i, before)
      requires e == src[i - 1] && es == [x] + was && Values() == [vs[i - 1]] + values
      ensures e != null && FrontCopied(other, e.Prev(), src, base, vs, before, i - 1)
    {
      EndsWithMore(x, was, base);
      IsTailThenMore(values, vs, i, before);
      FrontWalk(other, src, base, i);
    }

    /** From the element just copied, `Prev` leads to the one to copy next. */
    lemma FrontWalk(other: List<T>, src: seq<Element<T>>, base: seq<Element<T>>, i: int)
      requires Valid() && other.Valid()
      requires 0 < i <= |src| && |es| == |base| + |src| - i + 1
      requires if other == this then src == base else other.es == src
      requires EndsWith(es, base)
      ensures i > 1 ==> src[i - 1].Prev() == src[i - 2]
    {
      hide Linked, Distinct, Values;
      if other == this {
        EndsWithAt(es, base, i - 1);
        if i > 1 {
          EndsWithAt(es, base, i - 2);
        }
        Walk(|src|);
      } else {
        other.Walk(i - 1);
      }
    }

    /** One turn of the copying loop. */
    method CopyFront(other: List<T>, e: Element?<T>, i: int, ghost src: seq<Element<T>>, ghost base: seq<Element<T>>, ghost vs: seq<T>, ghost before: seq<T>)
      returns (n: Element?<T>, ghost x: Element<T>)
      requires i > 0 && FrontCopied(other, e, src, base, vs, before, i)
      modifies this`len, this`es, root`next, root`prev, Elems()`next, Elems()`prev
      ensures FrontCopied(other, n, src, base, vs, before, i - 1)
      ensures fresh(x) && Elems() == old(Elems()) + {x}
    {
      hide Valid, Linked, Distinct, EndsWith, IsTailThen, Values, Elems;
      ghost var was, values := es, Values();
      x := PrependBeside(other, e.Value);
      FrontPushed(other, e, src, base, vs, before, i, x, was, values);
      n := e.Prev();
    }

    /** Pushes to the front while another list, or this one, is being walked. */
    method PrependBeside(other: List<T>, v: T) returns (e: Element<T>)
      requires Valid() && other.Valid() && root.next != null
      modifies this`len, this`es, root`next, root`prev, Elems()`next, Elems()`prev
      ensures Valid() && other.Valid() && root.next != null
      ensures other != this ==> other.es == old(other.es)
      ensures fresh(e) && es == [e] + old(es) && Elems() == old(Elems()) + {e}
      ensures Values() == [v] + old(Values())
    {
      if other != this {
        Separate(this, other);
      }
      hide Linked, Distinct, Values;
      e := PrependValue(v);
    }

    /** Prepends a copy of another list, which may be this one. */
    method PushFrontList(other: List<T>)
      requires Valid() && other.Valid()
      modifies this`len, this`es, root`next, root`prev, Elems()`next, Elems()`prev
      ensures Valid() && other.Valid()
      ensures Values() == old(other.Values()) + old(Values())
      ensures |es| == |old(es)| + |old(other.es)| && EndsWith(es, old(es))
      ensures other != this ==> other.es == old(other.es) && other.Values() == old(other.Values())
    {
      if other != this {
        Separate(this, other);
      }
      LazyInit();
      assert other.Valid() && es == old(es) && Values() == old(Values()) && other.Values() == old(other.Values());
      FrontStart(other);
      hide Valid, Linked, Distinct, Values, FrontCopied, EndsWith;
      ghost var e := CopyAllFront(other);
      FrontDone(other, e, old(other.es), old(es), old(other.Values()), old(Values()));
    }

    /** The copying loop: all of `other`'s elements, from one end to the other. */
    method CopyAllFront(other: List<T>) returns (e: Element?<T>)
      requires FrontCopied(other, other.Back(), other.es, es, other.Values(), Values(), other.len)
      requires other.len >= 0
      modifies this`len, this`es, root`next, root`prev, Elems()`next, Elems()`prev
      ensures FrontCopied(other, e, old(other.es), old(es), old(other.Values()), old(Values()), 0)
    {
      hide FrontCopied, Values, Elems;
      ghost var base, src := es, other.es;
      ghost var before, vs := Values(), other.Values();
      var i := other.Len();
      ghost var elems, copies := Elems(), {};
      e := other.Back();
      while i > 0
        invariant i >= 0 && FrontCopied(other, e, src, base, vs, before, i)
        invariant fresh(copies) && Elems() == elems + copies
      {
        ghost var x;
        e, x := CopyFront(other, e, i, src, base, vs, before);
        copies := copies + {x};
        i := i - 1;
      }
    }

    lemma PrevChain()
      requires Valid()
      ensures LeadsPrev(Back(), Reversed(es)) && len == |es| && |Values()| == |es|
    {
      Counted();
      forall j | 0 <= j < |es|
        ensures es[j].Prev() == if j > 0 then es[j - 1] else null
      {
        hide Linked, Distinct;
        Walk(j);
      }
      if es != [] {
        Walk(0);
      }
    }

    lemma NextChain()
      requires Valid()
      ensures LeadsNext(Front(), es) && len == |es| && |Values()| == |es|
    {
      Counted();
      forall j | 0 <= j < |es|
        ensures es[j].Next() == if j + 1 < |es| then es[j + 1] else null
      {
        hide Linked, Distinct;
        Walk(j);
      }
      if es != [] {
        Walk(0);
      }
    }

    /** Visits the values from the back to the front until one is refused. */
    method Iter(accept: T -> bool) returns (out: seq<T>)
      requires Valid()
      ensures out == Visited(Reversed(Values()), accept)
    {
      out := [];
      ghost var left, all := Reversed(es), Reversed(Values());
      ghost var rest := all;
      VisitStart(all, accept);
      PrevChain();
      hide Valid, Visited, Reversed, ToVisit, Values, LeadsPrev;
      var i, e := Len(), Back();
      while i > 0
        invariant i == |left| == |rest| && LeadsPrev(e, left)
        invariant forall k :: 0 <= k < i ==> rest[k] == left[k].Value
        invariant ToVisit(out, rest, all, accept)
      {
        VisitMore(out, rest, all, accept);
        LeadsPrevOn(e, left);
        out := out + [e.Value];
        if !accept(e.Value) {
          return;
        }
        left, rest := left[1..], rest[1..];
        i, e := i - 1, e.Prev();
      }
      VisitEnd(out, all, accept);
    }

    /** Visits the values from the front to the back until one is refused. */
    method RevIter(accept: T -> bool) returns (out: seq<T>)
      requires Valid()
      ensures out == Visited(Values(), accept)
    {
      out := [];
      ghost var left, all := es, Values();
      ghost var rest := all;
      VisitStart(all, accept);
      NextChain();
      hide Valid, Visited, Reversed, ToVisit, Values, LeadsNext;
      var i, e := Len(), Front();
      while i > 0
        invariant i == |left| == |rest| && LeadsNext(e, left)
        invariant forall k :: 0 <= k < i ==> rest[k] == left[k].Value
        invariant ToVisit(out, rest, all, accept)
      {
        VisitMore(out, rest, all, accept);
        LeadsNextOn(e, left);
        out := out + [e.Value];
        if !accept(e.Value) {
          return;
        }
        left, rest := left[1..], rest[1..];
        i, e := i - 1, e.Next();
      }
      VisitEnd(out, all, accept);
    }
  }

  /** From `e` on, `Prev` leads through exactly these elements. */
  ghost predicate LeadsPrev<T(0)>(e: Element?<T>, left: seq<Element<T>>)
    reads left
  {
    && (left != [] ==> e == left[0])
    && forall k :: 0 <= k < |left| - 1 ==> left[k].Prev() == left[k + 1]
  }

  lemma LeadsPrevOn<T(0)>(e: Element?<T>, left: seq<Element<T>>)
    requires LeadsPrev(e, left) && left != []
    ensures e == left[0] && LeadsPrev(e.Prev(), left[1..])
  {
    assert |left| > 1 ==> left[0].Prev() == left[0 + 1];
    forall k | 0 <= k < |left[1..]| - 1
      ensures left[1..][k].Prev() == left[1..][k + 1]
    {
      assert left[k + 1].Prev() == left[k + 1 + 1];
    }
  }

  /** From `e` on, `Next` leads through exactly these elements. */
  ghost predicate LeadsNext<T(0)>(e: Element?<T>, left: seq<Element<T>>)
    reads left
  {
    && (left != [] ==> e == left[0])
    && forall k :: 0 <= k < |left| - 1 ==> left[k].Next() == left[k + 1]
  }

  lemma LeadsNextOn<T(0)>(e: Element?<T>, left: seq<Element<T>>)
    requires LeadsNext(e, left) && left != []
    ensures e == left[0] && LeadsNext(e.Next(), left[1..])
  {
    assert |left| > 1 ==> left[0].Next() == left[0 + 1];
    forall k | 0 <= k < |left[1..]| - 1
      ensures left[1..][k].Next() == left[1..][k + 1]
    {
      assert left[k + 1].Next() == left[k + 1 + 1];
    }
  }

  /** Only the first element occurs twice: first and last. */
  ghost predicate Around<A>(c: seq<A>) {
    && |c| >= 2
    && (forall i, j :: 0 <= i < j < |c| - 1 ==> c[i] != c[j])
    && (forall i, j :: 0 < i < j < |c| ==> c[i] != c[j])
  }

  /** Links a detached element into a ring behind `at`. */
  method Link<T(0)>(e: Element<T>, at: Element<T>, ghost c: seq<Element<T>>, ghost k: nat)
    requires Around(c) && Linked(c) && e !in c
    requires 0 < k < |c| && at == c[k - 1]
    modifies e`next, e`prev, (set x | x in c)`next, (set x | x in c)`prev
    ensures Linked(InsertAt(c, k, e))
    ensures c[0].next != null
  {
    assert c[k] == at.next;
    e.prev := at;
    e.next := at.next;
    e.prev.next := e;
    e.next.prev := e;
    assert forall i :: 0 <= i < |c| - 1 && i != k - 1 ==> c[i].next == c[i + 1] && c[i + 1].prev == c[i];
    InsertLinks(c, k, e);
    assert c[0].next == if k == 1 then e else c[1];
  }

  /** Takes `e` out of a ring: the neighbours are joined. */
  method Bypass<T(0)>(e: Element<T>, ghost c: seq<Element<T>>, ghost k: nat)
    requires Around(c) && Linked(c)
    requires 0 < k < |c| - 1 && e == c[k]
    modifies (set x | x in c)`next, (set x | x in c)`prev
    ensures Linked(RemoveAt(c, k))
    ensures c[0].next != null
  {
    assert e.prev == c[k - 1] && e.next == c[k + 1];
    e.prev.next := e.next;
    e.next.prev := e.prev;
    assert forall i :: 0 <= i < |c| - 1 && i != k - 1 && i != k ==> c[i].next == c[i + 1] && c[i + 1].prev == c[i];
    RemoveLinks(c, k);
    assert c[0].next == if k == 1 then c[2] else c[1];
  }

  lemma InsertLinks<T(0)>(c: seq<Element<T>>, k: nat, e: Element<T>)
    requires 0 < k < |c|
    requires forall i :: 0 <= i < |c| - 1 && i != k - 1 ==> c[i].next == c[i + 1] && c[i + 1].prev == c[i]
    requires c[k - 1].next == e && e.prev == c[k - 1] && e.next == c[k] && c[k].prev == e
    ensures Linked(InsertAt(c, k, e))
  {
    var d := InsertAt(c, k, e);
    forall i | 0 <= i < |d| - 1
      ensures d[i].next == d[i + 1] && d[i + 1].prev == d[i]
    {
      if i > k {
        assert d[i] == c[i - 1] && d[i + 1] == c[i];
        assert c[i - 1].next == c[i - 1 + 1];
      }
    }
  }

  lemma RemoveLinks<T(0)>(c: seq<Element<T>>, k: nat)
    requires 0 < k < |c| - 1
    requires forall i :: 0 <= i < |c| - 1 && i != k - 1 && i != k ==> c[i].next == c[i + 1] && c[i + 1].prev == c[i]
    requires c[k - 1].next == c[k + 1] && c[k + 1].prev == c[k - 1]
    ensures Linked(RemoveAt(c, k))
  {
    var d := RemoveAt(c, k);
    forall i | 0 <= i < |d| - 1
      ensures d[i].next == d[i + 1] && d[i + 1].prev == d[i]
    {
      if i >= k {
        assert d[i] == c[i + 1] && d[i + 1] == c[i + 2];
        assert c[i + 1].next == c[i + 1 + 1];
      }
    }
  }

  /** Two lists share no object. */
  lemma Separate<T(0)>(l: List<T>, m: List<T>)
    requires l.Valid() && m.Valid() && l != m
    ensures l.Footprint() !! m.Footprint()
  {
  }
}
