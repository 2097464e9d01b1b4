/** The two queues: a stack of singly linked elements, and a deque on the ring list. */
module Queue {
  import opened Wrappers
  import opened RingList
  import opened Visits

  class QueueElem<T> {
    const prev: QueueElem?<T>
    const value: T
    /** The values from here down to the oldest. */
    ghost const values: seq<T>

    ghost predicate Valid()
      decreases |values|
    {
      if prev == null then values == [value]
      else |prev.values| < |values| && values == [value] + prev.values && prev.Valid()
    }

    constructor (value: T, prev: QueueElem?<T>)
      requires prev != null ==> prev.Valid()
      ensures Valid() && this.value == value && this.prev == prev
    {
      this.value := value;
      this.prev := prev;
      this.values := [value] + if prev == null then [] else prev.values;
    }
  }

  /** A stack, whichever end its methods name. */
  class Stack<T(0)> {
    var end: QueueElem?<T>
    var len: int

    ghost predicate Valid()
      reads this
    {
      && (end != null ==> end.Valid())
      && len == |Contents()|
    }

    /** The values, newest first. */
    ghost function Contents(): seq<T>
      reads this
    {
      if end == null then [] else end.values
    }

    constructor ()
      ensures Valid() && Contents() == []
    {
      end := null;
      len := 0;
    }

    method Reset()
      modifies this
      ensures Valid() && Contents() == []
    {
      end := null;
      len := 0;
    }

    method Push(v: T)
      requires Valid()
      modifies this
      ensures Valid() && Contents() == [v] + old(Contents())
    {
      end := new QueueElem(v, end);
      len := len + 1;
    }

    function Empty(): bool
      reads this
    {
      end == null
    }

    /** Takes the newest value; an empty stack answers the zero value and false. */
    method Pop() returns (v: T, ok: bool)
      requires Valid()
      modifies this
      ensures Valid()
      ensures ok <==> old(Contents()) != []
      ensures ok ==> [v] + Contents() == old(Contents())
      ensures !ok ==> Contents() == []
    {
      if end == null {
        v := *;
        return v, false;
      }
      v := end.value;
      end := end.prev;
      len := len - 1;
      return v, true;
    }

    /** Visits the values from newest to oldest until one is refused. */
    method Iter(accept: T -> bool) returns (out: seq<T>)
      requires Valid()
      ensures out == Visited(Contents(), accept)
    {
      out := [];
      var e := end;
      VisitStart(Contents(), accept);
      while e != null
        invariant e != null ==> e.Valid()
        invariant ToVisit(out, if e == null then [] else e.values, Contents(), accept)
        decreases if e == null then 0 else |e.values|
      {
        VisitMore(out, e.values, Contents(), accept);
        assert e.values[0] == e.value && e.values[1..] == if e.prev == null then [] else e.prev.values;
        out := out + [e.value];
        if !accept(e.value) {
          return;
        }
        e := e.prev;
      }
    }
  }

  /** A deque: `Push` and `Pop` work at the front of the list. */
  class ListQueue<T(0)> {
    const list: List<T>

    ghost predicate Valid()
      reads this, list, list.root, list.es
    {
      list.Valid()
    }

    constructor ()
      ensures Valid() && list.Values() == []
    {
      list := new List();
    }

    method Push(v: T)
      requires Valid()
      modifies list`len, list`es, list.root`next, list.root`prev, list.Elems()`next, list.Elems()`prev
      ensures Valid() && list.Values() == [v] + old(list.Values())
    {
      var _ := list.PushFront(v);
    }

    method PushBack(v: T)
      requires Valid()
      modifies list`len, list`es, list.root`next, list.root`prev, list.Elems()`next, list.Elems()`prev
      ensures Valid() && list.Values() == old(list.Values()) + [v]
    {
      var _ := list.PushBack(v);
    }

    /** Takes the value at the front, the last one pushed there. */
    method Pop() returns (v: T, ok: bool)
      requires Valid()
      modifies list`len, list`es, list.root`next, list.root`prev, list.Elems()`next, list.Elems()`prev, list.Elems()`list
      ensures Valid()
      ensures ok <==> old(list.Values()) != []
      ensures ok ==> [v] + list.Values() == old(list.Values())
      ensures !ok ==> list.Values() == []
    {
      list.Counted();
      if list.len == 0 {
        v := *;
        return v, false;
      }
      list.Walk(0);
      IndexUnique(list.es, 0);
      v := list.Remove(list.Front());
      return v, true;
    }

    /** Takes the value at the back; the caller must know that there is one. */
    method PopBack() returns (v: T)
      requires Valid() && list.Values() != []
      modifies list`len, list`es, list.root`next, list.root`prev, list.Elems()`next, list.Elems()`prev, list.Elems()`list
      ensures Valid() && list.Values() + [v] == old(list.Values())
    {
      list.Walk(|list.es| - 1);
      IndexUnique(list.es, |list.es| - 1);
      v := list.Remove(list.Back());
    }
  }
}
