/**
 `traverse`: every schema nested in a lexicon document, by way of a stack. What is nested where never
 changes; the names and parents that are written into the schemas are kept by schema number.
 */
module Traverse {
  import opened Wrappers
  import opened Queue

  datatype Schema = Schema(
    num: nat,
    input: Option<Io>,
    output: Option<Io>,
    parameters: Option<Schema>,
    message: Option<Schema>,
    record: Option<Schema>,
    items: Option<Schema>,
    properties: seq<Property>,      // in the order of their keys
    refResolves: bool)              // it refers to nothing, or to a schema that is known

  /** An input or output: whether its encoding is a known one, and its schema. */
  datatype Io = Io(validEncoding: bool, schema: Option<Schema>)

  datatype Property = Property(key: string, def: Schema)

  /** What is written into a schema. */
  datatype Mark = Mark(schemaID: string, defName: string, fullID: string, parent: Option<nat>, needsType: bool)

  const UNMARKED := Mark("", "", "", None, false)

  type Marks = map<nat, Mark>

  function MarkOf(m: Marks, num: nat): Mark {
    if num in m then m[num] else UNMARKED
  }

  /** How a nested schema is named: as its parent, by its key, or not at all. */
  datatype Naming = Inherited | Keyed(key: string) | Unnamed

  datatype Child = Child(def: Schema, naming: Naming)

  // ---------------------------------------------------------------- what is nested in a schema

  function FromIo(io: Option<Io>): seq<Child> {
    if io.Some? && io.value.schema.Some? then [Child(io.value.schema.value, Inherited)] else []
  }

  function FromOne(d: Option<Schema>): seq<Child> {
    if d.Some? then [Child(d.value, Unnamed)] else []
  }

  function FromProperties(ps: seq<Property>): (r: seq<Child>)
    ensures |r| == |ps|
  {
    seq(|ps|, i requires 0 <= i < |ps| => Child(ps[i].def, Keyed(ps[i].key)))
  }

  /** The schemas nested directly in `s`, in the order they are queued. */
  function Children(s: Schema): (cs: seq<Child>)
    ensures forall i :: 0 <= i < |cs| ==> cs[i].def < s
  {
    FromIo(s.input) + FromIo(s.output) + FromOne(s.parameters) + FromOne(s.message) + FromOne(s.record) + FromOne(s.items)
    + FromProperties(s.properties)
  }

  predicate Strange(io: Option<Io>) {
    io.Some? && io.value.schema.None? && !io.value.validEncoding
  }

  /** An error ends the queueing of what is nested, except for one of the reference. */
  function Queued(s: Schema): (cs: seq<Child>)
    ensures cs <= Children(s)
  {
    if Strange(s.input) then []
    else if Strange(s.output) then FromIo(s.input)
    else Children(s)
  }

  predicate Fine(s: Schema) {
    !Strange(s.input) && !Strange(s.output) && s.refResolves
  }

  /** The numbers of a schema and of all that are nested in it. */
  ghost function Nums(s: Schema): set<nat>
    decreases s, 1, 0
  {
    {s.num} + NumsBelow(s, |Children(s)|)
  }

  /** The numbers in the first `k` schemas nested in `s`. */
  ghost function NumsBelow(s: Schema, k: nat): set<nat>
    requires k <= |Children(s)|
    decreases s, 0, k
  {
    if k == 0 then {} else NumsBelow(s, k - 1) + Nums(Children(s)[k - 1].def)
  }

  /** The numbers in the first `k` of `cs`. */
  ghost function NumsOf(cs: seq<Child>, k: nat): set<nat>
    requires k <= |cs|
  {
    if k == 0 then {} else NumsOf(cs, k - 1) + Nums(cs[k - 1].def)
  }

  lemma {:induction false} NumsOfChildren(s: Schema, k: nat)
    requires k <= |Children(s)|
    ensures NumsOf(Children(s), k) == NumsBelow(s, k)
  {
    hide Nums, Children;
    if k > 0 {
      NumsOfChildren(s, k - 1);
    }
  }

  /** No number is nested in two of them. */
  ghost predicate Apart(cs: seq<Child>) {
    forall i, j :: 0 <= i < j < |cs| ==> Nums(cs[i].def) !! Nums(cs[j].def)
  }

  /** Every nested schema has a number of its own. */
  ghost predicate IsTree(s: Schema)
    decreases s
  {
    var cs := Children(s);
    s.num !in NumsBelow(s, |cs|) && Apart(cs) && forall i :: 0 <= i < |cs| ==> IsTree(cs[i].def)
  }

  ghost predicate Forest(cs: seq<Child>) {
    Apart(cs) && forall i :: 0 <= i < |cs| ==> IsTree(cs[i].def)
  }

  lemma {:induction false} NumsMember(cs: seq<Child>, k: nat, x: nat)
    requires k <= |cs|
    ensures x in NumsOf(cs, k) <==> exists i :: 0 <= i < k && x in Nums(cs[i].def)
  {
    hide Nums;
    if k > 0 {
      NumsMember(cs, k - 1, x);
    }
  }

  lemma {:induction false} NumsOfPrefix(cs: seq<Child>, ds: seq<Child>, k: nat)
    requires k <= |cs| && cs <= ds
    ensures NumsOf(cs, k) == NumsOf(ds, k)
  {
    hide Nums;
    if k > 0 {
      NumsOfPrefix(cs, ds, k - 1);
    }
  }

  lemma {:induction false} NumsGrow(cs: seq<Child>, j: nat, k: nat)
    requires j <= k <= |cs|
    ensures NumsOf(cs, j) <= NumsOf(cs, k)
  {
    hide Nums;
    if j < k {
      NumsGrow(cs, j, k - 1);
    }
  }

  lemma {:induction false} QueuedForest(s: Schema)
    requires IsTree(s)
    ensures var qs := Queued(s); Forest(qs) && NumsOf(qs, |qs|) <= Nums(s) - {s.num}
  {
    var cs, qs := Children(s), Queued(s);
    assert forall i :: 0 <= i < |qs| ==> qs[i] == cs[i];
    NumsOfPrefix(qs, cs, |qs|);
    NumsGrow(cs, |qs|, |cs|);
    NumsOfChildren(s, |cs|);
  }

  // ---------------------------------------------------------------- marks

  function FullID(id: string, defName: string): string {
    if defName == "main" then id else id + "#" + defName
  }

  /** `c` is marked as nested in the schema numbered `p`. */
  predicate Linked(m: Marks, p: nat, c: Child) {
    && MarkOf(m, c.def.num).parent == Some(p)
    && match c.naming
       case Inherited => MarkOf(m, c.def.num).defName == MarkOf(m, p).defName
       case Keyed(key) => MarkOf(m, c.def.num).defName == key
       case Unnamed => true
  }

  /** The name and the parent are the same in both. */
  predicate SameLinks(m: Marks, n: Marks, num: nat) {
    MarkOf(n, num).defName == MarkOf(m, num).defName && MarkOf(n, num).parent == MarkOf(m, num).parent
  }

  /** The first `k` schemas from the last queued to the first. */
  function Newest(cs: seq<Child>, k: nat): (r: seq<Schema>)
    requires k <= |cs|
    ensures |r| == k && forall i :: 0 <= i < k ==> r[i] == cs[k - 1 - i].def
  {
    if k == 0 then [] else [cs[k - 1].def] + Newest(cs, k - 1)
  }

  /** Marks one nested schema. */
  function Link(m: Marks, p: nat, c: Child): Marks {
    var was := MarkOf(m, c.def.num);
    m[c.def.num := was.(parent := Some(p), defName :=
      match c.naming
      case Inherited => MarkOf(m, p).defName
      case Keyed(key) => key
      case Unnamed => was.defName)]
  }

  /** The first `k` schemas nested in schema `p` are marked, and nothing else but they. */
  ghost predicate AllLinked(m: Marks, n: Marks, p: nat, cs: seq<Child>, k: nat)
    requires k <= |cs|
  {
    && (forall i :: 0 <= i < k ==> Linked(n, p, cs[i]))
    && (forall x :: x !in NumsOf(cs, k) ==> MarkOf(n, x) == MarkOf(m, x))
    && (forall x :: SameIDs(m, n, x))
  }

  predicate SameIDs(m: Marks, n: Marks, num: nat) {
    MarkOf(n, num).schemaID == MarkOf(m, num).schemaID && MarkOf(n, num).fullID == MarkOf(m, num).fullID
  }

  lemma {:induction false} NumIn(s: Schema)
    ensures s.num in Nums(s)
  {
  }

  lemma OthersApart(cs: seq<Child>, i: nat, j: nat)
    requires j < i < |cs| && Apart(cs)
    ensures cs[j].def.num != cs[i].def.num
  {
    NumIn(cs[j].def);
    NumIn(cs[i].def);
  }

  /** Marking one schema leaves the links of the others. */
  lemma LinkKeeps(n: Marks, p: nat, c: Child, d: Child)
    requires p != c.def.num
    ensures Linked(Link(n, p, c), p, c)
    ensures d.def.num != c.def.num && Linked(n, p, d) ==> Linked(Link(n, p, c), p, d)
  {
  }

  lemma {:induction false} LinkOneMore(m: Marks, n: Marks, p: nat, cs: seq<Child>, i: nat)
    requires i < |cs| && Apart(cs) && p !in NumsOf(cs, |cs|)
    requires AllLinked(m, n, p, cs, i)
    ensures AllLinked(m, Link(n, p, cs[i]), p, cs, i + 1)
  {
    hide Nums;
    var k := Link(n, p, cs[i]);
    NumsGrow(cs, i + 1, |cs|);
    NumIn(cs[i].def);
    forall j: nat | j < i + 1
      ensures Linked(k, p, cs[j])
    {
      LinkKeeps(n, p, cs[i], cs[j]);
      if j < i {
        OthersApart(cs, i, j);
      }
    }
    hide Linked, Apart;
    forall x
      ensures (x !in NumsOf(cs, i + 1) ==> MarkOf(k, x) == MarkOf(m, x)) && SameIDs(m, k, x)
    {
      assert SameIDs(m, n, x);
      assert x !in NumsOf(cs, i + 1) ==> x !in NumsOf(cs, i) && x != cs[i].def.num;
    }
  }

  lemma NothingLinked(m: Marks, p: nat, cs: seq<Child>)
    ensures AllLinked(m, m, p, cs, 0)
  {
  }

  /** Exactly the schemas of `added` have come to need a generated type. */
  ghost predicate NeedsPlus(m: Marks, n: Marks, added: set<nat>) {
    forall x :: MarkOf(n, x).needsType <==> MarkOf(m, x).needsType || x in added
  }

  /** An own type is generated for a schema with an input or output in order, and for a record. */
  function NeededBy(d: Schema): set<nat> {
    (if !Strange(d.input) && (d.input.Some? || (d.output.Some? && !Strange(d.output))) then {d.num} else {})
    + (if !Strange(d.input) && !Strange(d.output) && d.record.Some? then {d.record.value.num} else {})
  }

  lemma NoNeeds(m: Marks)
    ensures NeedsPlus(m, m, {})
  {
  }

  lemma LinkNeeds(m: Marks, n: Marks, p: nat, c: Child)
    requires NeedsPlus(m, n, {})
    ensures NeedsPlus(m, Link(n, p, c), {})
  {
    var k := Link(n, p, c);
    forall x
      ensures MarkOf(k, x).needsType == MarkOf(n, x).needsType
    {
    }
  }

  /** Marks nested schemas and pushes them. */
  method Enqueue(q: Stack<Schema>, m: Marks, p: nat, cs: seq<Child>) returns (n: Marks)
    requires q.Valid() && Apart(cs) && p !in NumsOf(cs, |cs|)
    modifies q
    ensures q.Valid() && q.Contents() == Newest(cs, |cs|) + old(q.Contents())
    ensures AllLinked(m, n, p, cs, |cs|) && NeedsPlus(m, n, {})
  {
    hide AllLinked, Apart, NumsOf, Link, Linked, NeedsPlus;
    n := m;
    NothingLinked(m, p, cs);
    NoNeeds(m);
    for i := 0 to |cs|
      invariant q.Valid() && q.Contents() == Newest(cs, i) + old(q.Contents())
      invariant AllLinked(m, n, p, cs, i) && NeedsPlus(m, n, {})
    {
      LinkNeeds(m, n, p, cs[i]);
      LinkOneMore(m, n, p, cs, i);
      n := Link(n, p, cs[i]);
      q.Push(cs[i].def);
    }
  }

  // ---------------------------------------------------------------- one round of the loop

  function Need(m: Marks, num: nat): Marks {
    m[num := MarkOf(m, num).(needsType := true)]
  }

  lemma NeedsOne(m: Marks, n: Marks, added: set<nat>, num: nat)
    requires NeedsPlus(m, n, added)
    ensures NeedsPlus(m, Need(n, num), added + {num})
  {
  }

  lemma NeedsBoth(m: Marks, k: Marks, n: Marks, first: set<nat>, second: set<nat>, both: set<nat>)
    requires NeedsPlus(m, k, first) && NeedsPlus(k, n, second) && both == first + second
    ensures NeedsPlus(m, n, both)
  {
  }

  /** Writing other parts of a mark. */
  lemma NeedsNamed(m: Marks, n: Marks, num: nat, mark: Mark)
    requires NeedsPlus(m, n, {}) && mark.needsType == MarkOf(n, num).needsType
    ensures NeedsPlus(m, n[num := mark], {})
  {
  }

  /** What a round writes: the names of `d`, and the links of what it queues. */
  ghost predicate Named(m: Marks, n: Marks, d: Schema, id: string) {
    && (forall i :: 0 <= i < |Queued(d)| ==> Linked(n, d.num, Queued(d)[i]))
    && MarkOf(n, d.num).schemaID == id && MarkOf(n, d.num).fullID == FullID(id, MarkOf(n, d.num).defName)
    && SameLinks(m, n, d.num)
    && (forall x :: x !in Nums(d) ==> MarkOf(n, x) == MarkOf(m, x))
    && (forall x :: x != d.num ==> SameIDs(m, n, x))
  }

  lemma {:induction false} NeedKeeps(m: Marks, n: Marks, d: Schema, id: string, num: nat)
    requires Named(m, n, d, id) && num in Nums(d)
    ensures Named(m, Need(n, num), d, id)
  {
    var k := Need(n, num);
    hide Nums, Queued;
    forall i | 0 <= i < |Queued(d)|
      ensures Linked(k, d.num, Queued(d)[i])
    {
      assert Linked(n, d.num, Queued(d)[i]);
    }
    assert forall x :: x != d.num && SameIDs(m, n, x) ==> SameIDs(m, k, x);
  }

  lemma {:induction false} EnqueuedIsNamed(m: Marks, n: Marks, d: Schema, id: string)
    requires IsTree(d)
    requires var named := m[d.num := MarkOf(m, d.num).(schemaID := id, fullID := FullID(id, MarkOf(m, d.num).defName))];
             AllLinked(named, n, d.num, Queued(d), |Queued(d)|)
    ensures Named(m, n, d, id)
  {
    var named := m[d.num := MarkOf(m, d.num).(schemaID := id, fullID := FullID(id, MarkOf(m, d.num).defName))];
    hide Nums, NumsOf, Queued, IsTree, Forest;
    QueuedForest(d);
    NumIn(d);
    assert MarkOf(n, d.num) == MarkOf(named, d.num);
    forall x | x != d.num
      ensures SameIDs(m, n, x)
    {
      assert SameIDs(named, n, x);
    }
  }

  lemma {:induction false} RecordNum(d: Schema)
    requires d.record.Some?
    ensures d.record.value.num in Nums(d)
  {
    var i := |FromIo(d.input) + FromIo(d.output) + FromOne(d.parameters) + FromOne(d.message)|;
    assert Children(d)[i] == Child(d.record.value, Unnamed);
    NumInAll(Children(d), i);
    NumsOfChildren(d, |Children(d)|);
  }

  lemma {:induction false} NumInAll(cs: seq<Child>, i: nat)
    requires i < |cs|
    ensures cs[i].def.num in NumsOf(cs, |cs|)
  {
    NumsGrow(cs, i + 1, |cs|);
    NumIn(cs[i].def);
  }

  method Visit(q: Stack<Schema>, m: Marks, d: Schema, id: string) returns (n: Marks, ok: bool)
    requires q.Valid() && IsTree(d)
    modifies q
    ensures q.Valid() && q.Contents() == Newest(Queued(d), |Queued(d)|) + old(q.Contents())
    ensures Named(m, n, d, id) && NeedsPlus(m, n, NeededBy(d)) && ok == Fine(d)
  {
    hide Nums, IsTree, Named, NeedsPlus, NumsOf, AllLinked, MarkOf, Need, Queued;
    QueuedForest(d);
    NumIn(d);
    if d.record.Some? {
      RecordNum(d);
    }
    var mark := MarkOf(m, d.num).(schemaID := id, fullID := FullID(id, MarkOf(m, d.num).defName));
    n := m[d.num := mark];
    ghost var first := n;
    NoNeeds(m);
    NeedsNamed(m, m, d.num, mark);
    n := Enqueue(q, n, d.num, Queued(d));
    NeedsBoth(m, first, n, {}, {}, {});
    EnqueuedIsNamed(m, n, d, id);
    ghost var added: set<nat> := {};
    if Strange(d.input) {
      assert NeededBy(d) == added;
      return n, false;
    }
    if d.input.Some? {
      NeedKeeps(m, n, d, id, d.num);
      NeedsOne(m, n, added, d.num);
      n, added := Need(n, d.num), added + {d.num};
    }
    if Strange(d.output) {
      assert NeededBy(d) == added;
      return n, false;
    }
    if d.output.Some? {
      NeedKeeps(m, n, d, id, d.num);
      NeedsOne(m, n, added, d.num);
      n, added := Need(n, d.num), added + {d.num};
    }
    if d.record.Some? {
      NeedKeeps(m, n, d, id, d.record.value.num);
      NeedsOne(m, n, added, d.record.value.num);
      n, added := Need(n, d.record.value.num), added + {d.record.value.num};
    }
    assert added == NeededBy(d);
    ok := d.refResolves;
  }

  // ---------------------------------------------------------------- the whole traversal

  datatype Yield = Yield(def: Schema, ok: bool)

  /** The numbers in the schemas on the stack. */
  ghost function NumsIn(st: seq<Schema>): set<nat> {
    if st == [] then {} else Nums(st[0]) + NumsIn(st[1..])
  }

  ghost predicate ForestOf(st: seq<Schema>) {
    st != [] ==> IsTree(st[0]) && Nums(st[0]) !! NumsIn(st[1..]) && ForestOf(st[1..])
  }

  function DoneNums(out: seq<Yield>): set<nat> {
    set y <- out :: y.def.num
  }

  /** The schemas for which types are generated because of those that were yielded. */
  function Needed(out: seq<Yield>): set<nat> {
    if out == [] then {} else Needed(out[..|out| - 1]) + NeededBy(out[|out| - 1].def)
  }

  lemma {:induction false} NeededOneMore(m: Marks, k: Marks, n: Marks, out: seq<Yield>, y: Yield)
    requires NeedsPlus(m, k, Needed(out)) && NeedsPlus(k, n, NeededBy(y.def))
    ensures NeedsPlus(m, n, Needed(out + [y]))
  {
    assert (out + [y])[..|out|] == out;
    NeedsBoth(m, k, n, Needed(out), NeededBy(y.def), Needed(out + [y]));
  }

  /** The schema is on the stack or has been yielded. */
  ghost predicate Found(out: seq<Yield>, st: seq<Schema>, s: Schema) {
    s in st || exists j :: 0 <= j < |out| && out[j].def == s
  }

  /** A schema that was yielded has its names, and all it queued was found and linked to it. */
  ghost predicate YieldInv(out: seq<Yield>, st: seq<Schema>, m: Marks, id: string, y: Yield) {
    && y.ok == Fine(y.def)
    && MarkOf(m, y.def.num).schemaID == id && MarkOf(m, y.def.num).fullID == FullID(id, MarkOf(m, y.def.num).defName)
    && forall i :: 0 <= i < |Queued(y.def)| ==>
         Found(out, st, Queued(y.def)[i].def) && Linked(m, y.def.num, Queued(y.def)[i])
  }

  ghost predicate Inv(out: seq<Yield>, st: seq<Schema>, m: Marks, id: string, all: set<nat>) {
    && ForestOf(st) && NumsIn(st) !! DoneNums(out)
    && NumsIn(st) + DoneNums(out) <= all
    && (forall i, j :: 0 <= i < j < |out| ==> out[i].def.num != out[j].def.num)
    && (forall j :: 0 <= j < |out| ==> YieldInv(out, st, m, id, out[j]))
  }

  lemma {:induction false} NewestForest(cs: seq<Child>, k: nat, rest: seq<Schema>)
    requires Forest(cs) && k <= |cs| && ForestOf(rest) && NumsOf(cs, |cs|) !! NumsIn(rest)
    ensures ForestOf(Newest(cs, k) + rest)
    ensures NumsIn(Newest(cs, k) + rest) == NumsOf(cs, k) + NumsIn(rest)
  {
    hide Nums, IsTree;
    if k == 0 {
      assert [] + rest == rest;
      return;
    }
    NewestForest(cs, k - 1, rest);
    var st := Newest(cs, k) + rest;
    assert st[0] == cs[k - 1].def && st[1..] == Newest(cs, k - 1) + rest;
    NumsGrow(cs, k, |cs|);
    if !(Nums(cs[k - 1].def) !! NumsOf(cs, k - 1)) {
      var x :| x in Nums(cs[k - 1].def) && x in NumsOf(cs, k - 1);
      NumsMember(cs, k - 1, x);
      assert false;
    }
  }

  lemma {:induction false} NumsInMember(st: seq<Schema>, s: Schema)
    requires s in st
    ensures Nums(s) <= NumsIn(st)
  {
    hide Nums;
    if s != st[0] {
      NumsInMember(st[1..], s);
    }
  }

  /** A found schema other than the one popped keeps its mark; the popped one keeps its links. */
  lemma {:induction false} FoundKeepsLinks(out: seq<Yield>, st: seq<Schema>, m: Marks, n: Marks, id: string, s: Schema)
    requires st != [] && ForestOf(st) && NumsIn(st) !! DoneNums(out) && Named(m, n, st[0], id) && Found(out, st, s)
    ensures SameLinks(m, n, s.num)
  {
    var d := st[0];
    NumIn(s);
    NumIn(d);
    if s == d {
    } else if s in st {
      NumsInMember(st[1..], s);
      assert s.num !in Nums(d);
    } else {
      assert s.num in DoneNums(out);
      assert s.num !in Nums(d);
    }
    hide Nums, NumsIn, ForestOf, Linked;
  }

  lemma FoundStays(out: seq<Yield>, st: seq<Schema>, more: seq<Schema>, y: Yield, s: Schema)
    requires st != [] && y.def == st[0] && Found(out, st, s)
    ensures Found(out + [y], more + st[1..], s)
  {
    if s == y.def {
      assert (out + [y])[|out|] == y;
    } else if s in st {
      assert s in st[1..];
    } else {
      var j :| 0 <= j < |out| && out[j].def == s;
      assert (out + [y])[j].def == s;
    }
  }

  /** The schemas yielded before keep what holds of them. */
  lemma OldYield(out: seq<Yield>, st: seq<Schema>, m: Marks, n: Marks, id: string, all: set<nat>, more: seq<Schema>, y: Yield, j: nat)
    requires Inv(out, st, m, id, all) && st != [] && y.def == st[0] && Named(m, n, st[0], id) && j < |out|
    ensures YieldInv(out + [y], more + st[1..], n, id, out[j])
  {
    var p := out[j].def;
    assert p.num in DoneNums(out) && Nums(st[0]) <= NumsIn(st);
    assert MarkOf(n, p.num) == MarkOf(m, p.num);
    hide Nums;
    forall i | 0 <= i < |Queued(p)|
      ensures Found(out + [y], more + st[1..], Queued(p)[i].def) && Linked(n, p.num, Queued(p)[i])
    {
      FoundStays(out, st, more, y, Queued(p)[i].def);
      FoundKeepsLinks(out, st, m, n, id, Queued(p)[i].def);
    }
    hide Named, Found, Inv;
  }

  lemma NewYield(out: seq<Yield>, st: seq<Schema>, m: Marks, n: Marks, id: string, d: Schema, y: Yield)
    requires st != [] && d == st[0] && y == Yield(d, Fine(d)) && Named(m, n, d, id)
    ensures YieldInv(out + [y], Newest(Queued(d), |Queued(d)|) + st[1..], n, id, y)
  {
    var qs := Queued(d);
    var pushed := Newest(qs, |qs|);
    hide Nums, Linked, Queued;
    forall i | 0 <= i < |qs|
      ensures qs[i].def in pushed + st[1..]
    {
      assert pushed[|qs| - 1 - i] == qs[i].def;
    }
  }

  lemma {:induction false} RoundKeepsForest(out: seq<Yield>, st: seq<Schema>, all: set<nat>, y: Yield)
    requires st != [] && y.def == st[0] && ForestOf(st) && NumsIn(st) !! DoneNums(out) && NumsIn(st) + DoneNums(out) <= all
    ensures var next := Newest(Queued(st[0]), |Queued(st[0])|) + st[1..];
            && ForestOf(next) && NumsIn(next) !! DoneNums(out + [y])
            && NumsIn(next) + DoneNums(out + [y]) <= all && NumsIn(next) < NumsIn(st)
  {
    var d, qs := st[0], Queued(st[0]);
    hide Nums, NumsOf, IsTree, Queued, Newest, Forest, DoneNums;
    QueuedForest(d);
    NumIn(d);
    NewestForest(qs, |qs|, st[1..]);
    DoneOneMore(out, y);
  }

  lemma {:induction false} RoundKeepsInv(out: seq<Yield>, st: seq<Schema>, m: Marks, n: Marks, id: string, all: set<nat>, y: Yield)
    requires Inv(out, st, m, id, all) && st != [] && y == Yield(st[0], Fine(st[0])) && Named(m, n, st[0], id)
    ensures var next := Newest(Queued(st[0]), |Queued(st[0])|) + st[1..];
            Inv(out + [y], next, n, id, all) && NumsIn(next) < NumsIn(st)
  {
    var d, qs := st[0], Queued(st[0]);
    var more := Newest(qs, |qs|);
    hide Nums, NumsOf, IsTree, YieldInv, Named, Queued, Newest, Forest;
    RoundKeepsForest(out, st, all, y);
    NewYield(out, st, m, n, id, d, y);
    assert d.num in NumsIn(st) by {
      NumIn(d);
    }
    hide ForestOf, NumsIn;
    forall j | 0 <= j < |out|
      ensures YieldInv(out + [y], more + st[1..], n, id, (out + [y])[j]) && out[j].def.num != d.num
    {
      OldYield(out, st, m, n, id, all, more, y, j);
      assert out[j].def.num in DoneNums(out);
    }
    hide DoneNums;
  }

  lemma DoneOneMore(out: seq<Yield>, y: Yield)
    ensures DoneNums(out + [y]) == DoneNums(out) + {y.def.num}
  {
  }

  lemma {:induction false} StartInv(roots: seq<Child>, m: Marks, id: string)
    requires Forest(roots)
    ensures Inv([], Newest(roots, |roots|), m, id, NumsOf(roots, |roots|))
    ensures forall i :: 0 <= i < |roots| ==> Found([], Newest(roots, |roots|), roots[i].def)
  {
    hide Nums, NumsOf, IsTree;
    var st := Newest(roots, |roots|);
    NewestForest(roots, |roots|, []);
    assert st + [] == st;
    assert DoneNums([]) == {};
    forall i | 0 <= i < |roots|
      ensures Found([], st, roots[i].def)
    {
      assert st[|roots| - 1 - i] == roots[i].def;
    }
  }

  /** What the traversal has found when it ends. */
  ghost predicate Closed(out: seq<Yield>, m: Marks, id: string) {
    forall j :: 0 <= j < |out| ==> YieldInv(out, [], m, id, out[j])
  }

  /** No schema in `s` has a strange encoding or a reference that does not resolve. */
  ghost predicate AllFine(s: Schema)
    decreases s
  {
    Fine(s) && forall i :: 0 <= i < |Children(s)| ==> AllFine(Children(s)[i].def)
  }

  /** Where all is in order, what is nested in a schema that was yielded was yielded. */
  lemma {:induction false} NestedYielded(out: seq<Yield>, m: Marks, id: string, s: Schema)
    requires Closed(out, m, id) && Found(out, [], s) && AllFine(s)
    ensures Nums(s) <= DoneNums(out)
    decreases s, 1, 0
  {
    var j :| 0 <= j < |out| && out[j].def == s;
    assert YieldInv(out, [], m, id, out[j]);
    assert out[j].def.num in DoneNums(out);
    NestedYieldedBelow(out, m, id, s, |Children(s)|);
    hide Children, AllFine, YieldInv, Closed, Found;
  }

  lemma {:induction false} ChildFound(out: seq<Yield>, m: Marks, id: string, s: Schema, i: nat)
    requires Closed(out, m, id) && Found(out, [], s) && AllFine(s) && i < |Children(s)|
    ensures Found(out, [], Children(s)[i].def) && AllFine(Children(s)[i].def)
  {
    var j :| 0 <= j < |out| && out[j].def == s;
    hide Children, Linked;
    assert YieldInv(out, [], m, id, out[j]) && Queued(s) == Children(s);
  }

  lemma {:induction false} NestedYieldedBelow(out: seq<Yield>, m: Marks, id: string, s: Schema, k: nat)
    requires Closed(out, m, id) && Found(out, [], s) && AllFine(s) && k <= |Children(s)|
    ensures NumsBelow(s, k) <= DoneNums(out)
    decreases s, 0, k
  {
    if k == 0 {
      return;
    }
    hide AllFine, YieldInv, Closed, Found, Nums, Children;
    NestedYieldedBelow(out, m, id, s, k - 1);
    ChildFound(out, m, id, s, k - 1);
    NestedYielded(out, m, id, Children(s)[k - 1].def);
  }

  lemma {:induction false} RootsYielded(out: seq<Yield>, m: Marks, id: string, roots: seq<Child>, k: nat)
    requires Closed(out, m, id) && k <= |roots|
    requires forall i :: 0 <= i < |roots| ==> Found(out, [], roots[i].def) && AllFine(roots[i].def)
    ensures NumsOf(roots, k) <= DoneNums(out)
  {
    hide Nums, Closed, Found, AllFine;
    if k > 0 {
      RootsYielded(out, m, id, roots, k - 1);
      NestedYielded(out, m, id, roots[k - 1].def);
    }
  }

  /** A schema of the document keeps its parent and is named by its key. */
  predicate RootMarked(m: Marks, n: Marks, p: Property) {
    MarkOf(n, p.def.num).defName == p.key && MarkOf(n, p.def.num).parent == MarkOf(m, p.def.num).parent
  }

  /** What every round of the loop keeps, for the marks `m` of the start and `n` of the moment. */
  ghost predicate LoopInv(out: seq<Yield>, st: seq<Schema>, m: Marks, n: Marks, id: string, defs: seq<Property>) {
    && Inv(out, st, n, id, NumsOf(FromProperties(defs), |defs|))
    && (forall i :: 0 <= i < |defs| ==> Found(out, st, defs[i].def))
    && (forall i :: 0 <= i < |defs| ==> RootMarked(m, n, defs[i]))
    && NeedsPlus(m, n, Needed(out))
  }

  lemma {:induction false} LoopStart(st: seq<Schema>, m: Marks, n: Marks, id: string, defs: seq<Property>)
    requires Forest(FromProperties(defs)) && st == Newest(FromProperties(defs), |defs|)
    requires NeedsPlus(m, n, {}) && forall i :: 0 <= i < |defs| ==> RootMarked(m, n, defs[i])
    ensures LoopInv([], st, m, n, id, defs)
  {
    hide Inv, NumsOf, Newest, Forest, Found, RootMarked, NeedsPlus;
    var roots := FromProperties(defs);
    StartInv(roots, n, id);
    forall i | 0 <= i < |defs|
      ensures Found([], st, defs[i].def)
    {
      assert roots[i].def == defs[i].def;
    }
  }

  lemma {:induction false} LoopRound(out: seq<Yield>, st: seq<Schema>, m: Marks, k: Marks, n: Marks, id: string, defs: seq<Property>)
    requires LoopInv(out, st, m, k, id, defs) && st != []
    requires Named(k, n, st[0], id) && NeedsPlus(k, n, NeededBy(st[0]))
    ensures var next := Newest(Queued(st[0]), |Queued(st[0])|) + st[1..];
            LoopInv(out + [Yield(st[0], Fine(st[0]))], next, m, n, id, defs) && NumsIn(next) < NumsIn(st)
  {
    hide Inv, NumsIn, NumsOf, Newest, Queued, Found, Named, MarkOf, NeedsPlus, Needed, NeededBy, Fine;
    var y, all := Yield(st[0], Fine(st[0])), NumsOf(FromProperties(defs), |defs|);
    RoundKeepsInv(out, st, k, n, id, all, y);
    NeededOneMore(m, k, n, out, y);
    forall i | 0 <= i < |defs|
      ensures Found(out + [y], Newest(Queued(st[0]), |Queued(st[0])|) + st[1..], defs[i].def)
      ensures RootMarked(m, n, defs[i])
    {
      RootKept(out, st, k, n, id, all, defs[i].def);
      FoundStays(out, st, Newest(Queued(st[0]), |Queued(st[0])|), y, defs[i].def);
    }
  }

  lemma {:induction false} LoopEnd(out: seq<Yield>, m: Marks, n: Marks, id: string, defs: seq<Property>)
    requires LoopInv(out, [], m, n, id, defs)
    ensures Closed(out, n, id)
    ensures forall i, j :: 0 <= i < j < |out| ==> out[i].def.num != out[j].def.num
    ensures DoneNums(out) <= NumsOf(FromProperties(defs), |defs|)
    ensures forall i :: 0 <= i < |defs| ==> Found(out, [], defs[i].def)
    ensures forall i :: 0 <= i < |defs| ==> RootMarked(m, n, defs[i])
    ensures NeedsPlus(m, n, Needed(out))
    ensures (forall i :: 0 <= i < |defs| ==> AllFine(defs[i].def)) ==> DoneNums(out) == NumsOf(FromProperties(defs), |defs|)
  {
    hide Nums, NumsOf, NumsIn, ForestOf, YieldInv, Found, RootMarked, AllFine, NeedsPlus, Needed;
    var roots := FromProperties(defs);
    assert forall i :: 0 <= i < |defs| ==> roots[i].def == defs[i].def;
    AtTheEnd(out, n, id, NumsOf(roots, |roots|), roots);
  }

  lemma {:induction false} AtTheEnd(out: seq<Yield>, m: Marks, id: string, all: set<nat>, roots: seq<Child>)
    requires Inv(out, [], m, id, all) && all == NumsOf(roots, |roots|)
    requires forall i :: 0 <= i < |roots| ==> Found(out, [], roots[i].def)
    ensures Closed(out, m, id) && DoneNums(out) <= all
    ensures (forall i :: 0 <= i < |roots| ==> AllFine(roots[i].def)) ==> DoneNums(out) == all
  {
    hide Nums, NumsOf, Found, AllFine;
    if forall i :: 0 <= i < |roots| ==> AllFine(roots[i].def) {
      RootsYielded(out, m, id, roots, |roots|);
    }
  }

  lemma RootsApart(defs: seq<Property>, i: nat, j: nat)
    requires j < i < |defs| && Forest(FromProperties(defs))
    ensures defs[j].def.num != defs[i].def.num
  {
    OthersApart(FromProperties(defs), i, j);
  }

  lemma RootKept(out: seq<Yield>, st: seq<Schema>, m: Marks, n: Marks, id: string, all: set<nat>, s: Schema)
    requires Inv(out, st, m, id, all) && st != [] && Named(m, n, st[0], id) && Found(out, st, s)
    ensures SameLinks(m, n, s.num)
  {
    hide Named, Found, Nums;
    FoundKeepsLinks(out, st, m, n, id, s);
  }

  lemma TopIsTree(out: seq<Yield>, st: seq<Schema>, m: Marks, n: Marks, id: string, defs: seq<Property>)
    requires LoopInv(out, st, m, n, id, defs) && st != []
    ensures IsTree(st[0])
  {
  }

  /** The first `i` definitions are named, and the others are as they were. */
  ghost predicate Rooted(m: Marks, n: Marks, defs: seq<Property>, i: nat) {
    && (forall j :: 0 <= j < i && j < |defs| ==> RootMarked(m, n, defs[j]))
    && (forall j :: i <= j < |defs| ==> MarkOf(n, defs[j].def.num) == MarkOf(m, defs[j].def.num))
    && NeedsPlus(m, n, {})
  }

  lemma NoneRooted(m: Marks, defs: seq<Property>)
    ensures Rooted(m, m, defs, 0)
  {
  }

  lemma RootOneMore(m: Marks, n: Marks, defs: seq<Property>, i: nat, id: string)
    requires i < |defs| && Forest(FromProperties(defs)) && Rooted(m, n, defs, i)
    ensures var num := defs[i].def.num;
            Rooted(m, n[num := MarkOf(n, num).(defName := defs[i].key, schemaID := id)], defs, i + 1)
  {
    var num := defs[i].def.num;
    forall j: nat | j < |defs| && j != i
      ensures defs[j].def.num != num
    {
      RootsApart(defs, if j < i then i else j, if j < i then j else i);
    }
    hide Forest, NeedsPlus;
    NeedsNamed(m, n, num, MarkOf(n, num).(defName := defs[i].key, schemaID := id));
  }

  lemma AllRooted(m: Marks, n: Marks, defs: seq<Property>)
    requires Rooted(m, n, defs, |defs|)
    ensures NeedsPlus(m, n, {}) && forall i :: 0 <= i < |defs| ==> RootMarked(m, n, defs[i])
  {
  }

  /** A lexicon document: `lex.Schema`. */
  class Document {
    const id: string
    /** The definitions in the order of their keys. */
    const defs: seq<Property>

    constructor (id: string, defs: seq<Property>)
      ensures this.id == id && this.defs == defs
    {
      this.id, this.defs := id, defs;
    }

    /** The definitions of the document are named and pushed. */
    method PushDefs(m: Marks) returns (q: Stack<Schema>, n: Marks)
      requires Forest(FromProperties(defs))
      ensures fresh(q) && q.Valid() && q.Contents() == Newest(FromProperties(defs), |defs|)
      ensures forall i :: 0 <= i < |defs| ==> RootMarked(m, n, defs[i])
      ensures NeedsPlus(m, n, {})
    {
      hide Nums, Forest, Rooted;
      NoneRooted(m, defs);
      q := new Stack<Schema>();
      n := m;
      var roots := FromProperties(defs);
      for i := 0 to |defs|
        invariant q.Valid() && q.Contents() == Newest(roots, i)
        invariant Rooted(m, n, defs, i)
      {
        var num := defs[i].def.num;
        RootOneMore(m, n, defs, i, id);
        n := n[num := MarkOf(n, num).(defName := defs[i].key, schemaID := id)];
        q.Push(defs[i].def);
      }
      AllRooted(m, n, defs);
    }

    /** `traverse`, run to its end: the loop over the stack, from the definitions pushed. */
    method TraverseAll(m: Marks) returns (out: seq<Yield>, n: Marks)
      requires Forest(FromProperties(defs))
      ensures Closed(out, n, id)
      ensures forall i, j :: 0 <= i < j < |out| ==> out[i].def.num != out[j].def.num
      ensures DoneNums(out) <= NumsOf(FromProperties(defs), |defs|)
      ensures forall i :: 0 <= i < |defs| ==> Found(out, [], defs[i].def)
      ensures forall i :: 0 <= i < |defs| ==> RootMarked(m, n, defs[i])
      ensures NeedsPlus(m, n, Needed(out))
      ensures (forall i :: 0 <= i < |defs| ==> AllFine(defs[i].def)) ==> DoneNums(out) == NumsOf(FromProperties(defs), |defs|)
    {
      hide LoopInv, NumsIn, NumsOf, Nums, Forest, FromProperties, Found, RootMarked, AllFine, Closed, Newest, Queued, IsTree,
        Named, NeedsPlus, Needed, NeededBy, MarkOf, Fine, DoneNums;
      var q;
      q, n := PushDefs(m);
      out := [];
      LoopStart(q.Contents(), m, n, id, defs);
      while !q.Empty()
        invariant q.Valid() && LoopInv(out, q.Contents(), m, n, id, defs)
        decreases NumsIn(q.Contents())
      {
        ghost var st := q.Contents();
        TopIsTree(out, st, m, n, id, defs);
        var d, _ := q.Pop();
        ghost var before := n;
        var ok;
        n, ok := Visit(q, n, d, id);
        LoopRound(out, st, m, before, n, id, defs);
        out := out + [Yield(d, ok)];
      }
      LoopEnd(out, m, n, id, defs);
    }
  }
}
