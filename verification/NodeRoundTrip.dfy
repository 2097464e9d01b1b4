/**
 What encoding a value with `BuildNode` and decoding it into a fresh zero of its type gives: when it
 succeeds, and the normalised value it then yields. The codec in between is the identity on trees up
 to the order of map entries.
 */
module NodeRoundTrip {
  import opened Wrappers
  import opened GoValues
  import opened NodeEncoder
  import opened NodeAssembler

  // ---------------------------------------------------------------- definitions

  /** The same tree with the entries of its maps in another order. */
  ghost predicate SameUpToOrder(a: Tree, b: Tree)
    decreases a
  {
    match a
    case List(xs) =>
      b.List? && |b.items| == |xs| && forall i :: 0 <= i < |xs| ==> SameUpToOrder(xs[i], b.items[i])
    case Map(es) =>
      && b.Map? && DistinctKeys(b.entries)
      && (forall j :: 0 <= j < |b.entries| ==> SameAsOneOf(es, b.entries[j]))
      && (forall i :: 0 <= i < |es| ==> KeyIn(b.entries, es[i].key))
    case _ => b == a
  }

  predicate DistinctKeys(es: seq<Entry>) {
    forall i, j :: 0 <= i < j < |es| ==> es[i].key != es[j].key
  }

  predicate KeyIn(es: seq<Entry>, key: string) {
    exists i :: 0 <= i < |es| && es[i].key == key
  }

  ghost predicate SameAsOneOf(es: seq<Entry>, e: Entry)
    decreases es
  {
    exists i :: 0 <= i < |es| && es[i].key == e.key && SameUpToOrder(es[i].val, e.val)
  }

  /** Empty bytes are seen as null. */
  predicate SeenAsNull(t: GoType, v: GoValue)
    requires HasType(t, v)
  {
    KindOf(Plain(t, v)) == KNull
  }

  /** The value a round trip yields: empty bytes become nil, a nil list empty, and an omitted field zero. */
  function Norm(t: GoType, v: GoValue): (r: GoValue)
    requires HasType(t, v)
    ensures HasType(t, r)
    decreases t, 0
  {
    match t
    case TBytes => if v.VBytes? && v.bytes != [] then v else VNilBytes
    case TSlice(e) =>
      var elems := Elements(v);
      VSlice(seq(|elems|, i requires 0 <= i < |elems| => Norm(e, elems[i])))
    case TStruct(fs) =>
      VStruct(seq(|fs|, i requires 0 <= i < |fs| => NormField(fs[i], v.vals[i])))
    case _ => v
  }

  /** A field that is not omitted; a pointer to empty bytes becomes nil. */
  function NormShown(t: GoType, v: GoValue): (r: GoValue)
    requires HasType(t, v)
    ensures HasType(t, r)
    decreases t, 1
  {
    if !t.TPtr? then Norm(t, v)
    else if v.VNilPtr? || SeenAsNull(t.elem, v.to) then VNilPtr
    else VPtr(Norm(t.elem, v.to))
  }

  function NormField(f: Field, v: GoValue): (r: GoValue)
    requires HasType(f.typ, v)
    ensures HasType(f.typ, r)
    decreases f.typ, 2
  {
    if Omitted(f, v) then Zero(f.typ) else NormShown(f.typ, v)
  }

  predicate NothingOmitted(t: GoType, v: GoValue)
    requires t.TStruct? && HasType(t, v)
  {
    forall i :: 0 <= i < |t.fields| ==> !Omitted(t.fields[i], v.vals[i])
  }

  /**
   No pointer stands where only a field may hold one, and a struct that is an element of a list has no
   omitted field.
   */
  predicate Walkable(n: Node)
    requires Typed(n)
    decreases TypeOf(n)
  {
    n.NullNode? ||
    match n.t
    case TPtr(_) => false
    case TSlice(e) => forall i :: 0 <= i < |Elements(n.v)| ==> Walkable(Plain(e, Elements(n.v)[i]))
    case TStruct(fs) =>
      && (n.StructNode? || NothingOmitted(n.t, n.v))
      && (forall i :: 0 <= i < |fs| && !Omitted(fs[i], n.v.vals[i]) ==>
            if fs[i].typ.TPtr? then n.v.vals[i].VNilPtr? || Walkable(BuildNode(fs[i].typ.elem, n.v.vals[i].to))
            else Walkable(BuildNode(fs[i].typ, n.v.vals[i])))
    case _ => true
  }

  /** Every CID is defined, and no pointer points to a list or to a non-empty byte array. */
  predicate Decodable(t: GoType, v: GoValue)
    requires HasType(t, v)
    decreases t, 0
  {
    match t
    case TCid => v.c != 0
    case TSlice(e) => forall i :: 0 <= i < |Elements(v)| ==> Decodable(e, Elements(v)[i])
    case TStruct(fs) => forall i :: 0 <= i < |fs| && !Omitted(fs[i], v.vals[i]) ==> FieldDecodable(fs[i].typ, v.vals[i])
    case _ => true
  }

  predicate FieldDecodable(t: GoType, v: GoValue)
    requires HasType(t, v)
    decreases t, 1
  {
    if t.TPtr? then
      v.VNilPtr? || SeenAsNull(t.elem, v.to) || (!t.elem.TSlice? && !t.elem.TByteArray? && Decodable(t.elem, v.to))
    else Decodable(t, v)
  }

  // ---------------------------------------------------------------- encoding

  predicate Shown(t: GoType, v: GoValue, i: nat)
    requires t.TStruct? && HasType(t, v)
  {
    i < |t.fields| && !Omitted(t.fields[i], v.vals[i])
  }

  function NodeOfField(t: GoType, v: GoValue, i: nat): (n: Node)
    requires t.TStruct? && HasType(t, v) && i < |t.fields|
    ensures Typed(n)
  {
    FieldNode(t.fields[i].typ, v.vals[i])
  }

  /** `p` is the pair of field `i`. */
  predicate PairOf(t: GoType, v: GoValue, p: Pair, i: nat)
    requires t.TStruct? && HasType(t, v)
  {
    Shown(t, v, i) && p == Pair(Key(t.fields[i]), NodeOfField(t, v, i))
  }

  lemma PairsStep(t: GoType, v: GoValue, n: nat)
    requires t.TStruct? && HasType(t, v) && 0 < n <= |t.fields|
    ensures !Shown(t, v, n - 1) ==> Pairs(t, v, n) == Pairs(t, v, n - 1)
    ensures Shown(t, v, n - 1) ==>
              exists p :: PairOf(t, v, p, n - 1) && Pairs(t, v, n) == Pairs(t, v, n - 1) + [p]
  {
    if Shown(t, v, n - 1) {
      var p := Pair(Key(t.fields[n - 1]), FieldNode(t.fields[n - 1].typ, v.vals[n - 1]));
      assert PairOf(t, v, p, n - 1) && Pairs(t, v, n) == Pairs(t, v, n - 1) + [p];
    } else {
      assert Pairs(t, v, n - 1) + [] == Pairs(t, v, n - 1);
    }
  }

  /** Every pair is that of a field that is not omitted. */
  lemma {:induction false} PairHasField(t: GoType, v: GoValue, n: nat, j: nat) returns (i: nat)
    requires t.TStruct? && HasType(t, v) && n <= |t.fields| && j < |Pairs(t, v, n)|
    ensures i < n && PairOf(t, v, Pairs(t, v, n)[j], i)
    decreases n
  {
    PairsStep(t, v, n);
    hide HasType, Pairs, PairOf, Shown;
    if j < |Pairs(t, v, n - 1)| {
      i := PairHasField(t, v, n - 1, j);
    } else {
      i := n - 1;
    }
  }

  /** Every field that is not omitted has its pair. */
  lemma {:induction false} FieldHasPair(t: GoType, v: GoValue, n: nat, i: nat) returns (j: nat)
    requires t.TStruct? && HasType(t, v) && i < n <= |t.fields| && Shown(t, v, i)
    ensures j < |Pairs(t, v, n)| && PairOf(t, v, Pairs(t, v, n)[j], i)
    decreases n
  {
    PairsStep(t, v, n);
    hide HasType, Pairs, PairOf, Shown;
    if i < n - 1 {
      j := FieldHasPair(t, v, n - 1, i);
    } else {
      j := |Pairs(t, v, n - 1)|;
    }
  }

  /** There are as many pairs as fields exactly if no field is omitted. */
  lemma {:induction false} PairsCount(t: GoType, v: GoValue, n: nat)
    requires t.TStruct? && HasType(t, v) && n <= |t.fields|
    ensures |Pairs(t, v, n)| <= n
    ensures |Pairs(t, v, n)| == n <==> forall i :: 0 <= i < n ==> Shown(t, v, i)
  {
    if n == 0 {
      assert Pairs(t, v, 0) == [];
    } else {
      PairsStep(t, v, n);
      PairsCount(t, v, n - 1);
      hide HasType, Pairs, PairOf, Shown;
    }
  }

  ghost predicate PairsTyped(t: GoType, pairs: seq<Pair>) {
    forall j :: 0 <= j < |pairs| ==> Typed(pairs[j].val) && (pairs[j].val.NullNode? || TypeOf(pairs[j].val) < t)
  }

  lemma WalkPairsStep(t: GoType, pairs: seq<Pair>, k: nat)
    requires 0 < k <= |pairs| && PairsTyped(t, pairs)
    ensures var before, next := WalkPairs(t, pairs, k - 1), Walk(pairs[k - 1].val);
            WalkPairs(t, pairs, k)
            == if before.Some? && next.Some? then Some(before.value + [Entry(pairs[k - 1].key, next.value)]) else None
  {
    assert pairs[k - 1].val.NullNode? ==> Walk(pairs[k - 1].val) == Some(Null);
    hide Walk, HasType;
  }

  /** Walking pairs walks each of them. */
  lemma {:induction false} WalkedPairs(t: GoType, pairs: seq<Pair>, k: nat)
    requires k <= |pairs| && PairsTyped(t, pairs)
    ensures WalkPairs(t, pairs, k).Some? <==> forall j :: 0 <= j < k ==> Walk(pairs[j].val).Some?
    ensures WalkPairs(t, pairs, k).Some? ==>
              forall j :: 0 <= j < k ==> WalkedPair(pairs[j], WalkPairs(t, pairs, k).value[j])
  {
    hide Walk, WalkPairs, HasType, Typed, WalkedPair;
    PairsWalk(t, pairs, k);
    if WalkPairs(t, pairs, k).Some? {
      WalkedPairsAre(t, pairs, k);
    }
  }

  ghost predicate WalkedPair(p: Pair, e: Entry)
    requires Typed(p.val)
  {
    Walk(p.val) == Some(e.val) && e.key == p.key
  }

  lemma {:induction false} PairsWalk(t: GoType, pairs: seq<Pair>, k: nat)
    requires k <= |pairs| && PairsTyped(t, pairs)
    ensures WalkPairs(t, pairs, k).Some? <==> forall j :: 0 <= j < k ==> Walk(pairs[j].val).Some?
  {
    if k == 0 {
      return;
    }
    hide Walk, WalkPairs, HasType, Typed;
    PairsWalk(t, pairs, k - 1);
    WalkPairsStep(t, pairs, k);
  }

  lemma {:induction false} WalkedPairsAre(t: GoType, pairs: seq<Pair>, k: nat)
    requires k <= |pairs| && PairsTyped(t, pairs) && WalkPairs(t, pairs, k).Some?
    ensures |WalkPairs(t, pairs, k).value| == k
    ensures forall j :: 0 <= j < k ==> WalkedPair(pairs[j], WalkPairs(t, pairs, k).value[j])
  {
    if k == 0 {
      return;
    }
    hide Walk, WalkPairs, HasType, Typed;
    WalkPairsStep(t, pairs, k);
    WalkedPairsAre(t, pairs, k - 1);
  }

  lemma WalkItemsStep(t: GoType, elems: seq<GoValue>, k: nat)
    requires 0 < k <= |elems| && forall i :: 0 <= i < |elems| ==> HasType(t, elems[i])
    ensures var before, next := WalkItems(t, elems, k - 1), Walk(Plain(t, elems[k - 1]));
            WalkItems(t, elems, k)
            == if before.Some? && next.Some? then Some(before.value + [next.value]) else None
  {
    hide Walk, HasType;
  }

  /** Walking items walks each of them. */
  lemma {:induction false} WalkedItems(t: GoType, elems: seq<GoValue>, k: nat)
    requires k <= |elems| && forall i :: 0 <= i < |elems| ==> HasType(t, elems[i])
    ensures WalkItems(t, elems, k).Some? <==> forall i :: 0 <= i < k ==> Walk(Plain(t, elems[i])).Some?
    ensures WalkItems(t, elems, k).Some? ==>
              forall i :: 0 <= i < k ==> Walk(Plain(t, elems[i])) == Some(WalkItems(t, elems, k).value[i])
  {
    hide Walk, WalkItems, HasType;
    ItemsWalk(t, elems, k);
    if WalkItems(t, elems, k).Some? {
      WalkedItemsAre(t, elems, k);
    }
  }

  lemma {:induction false} ItemsWalk(t: GoType, elems: seq<GoValue>, k: nat)
    requires k <= |elems| && forall i :: 0 <= i < |elems| ==> HasType(t, elems[i])
    ensures WalkItems(t, elems, k).Some? <==> forall i :: 0 <= i < k ==> Walk(Plain(t, elems[i])).Some?
  {
    if k == 0 {
      return;
    }
    hide Walk, WalkItems, HasType;
    ItemsWalk(t, elems, k - 1);
    WalkItemsStep(t, elems, k);
  }

  lemma {:induction false} WalkedItemsAre(t: GoType, elems: seq<GoValue>, k: nat)
    requires k <= |elems| && forall i :: 0 <= i < |elems| ==> HasType(t, elems[i])
    requires WalkItems(t, elems, k).Some?
    ensures |WalkItems(t, elems, k).value| == k
    ensures forall i :: 0 <= i < k ==> Walk(Plain(t, elems[i])) == Some(WalkItems(t, elems, k).value[i])
  {
    if k == 0 {
      return;
    }
    hide Walk, WalkItems, HasType;
    WalkItemsStep(t, elems, k);
    WalkedItemsAre(t, elems, k - 1);
  }

  /** A codec can walk a node exactly if it is walkable. */
  lemma {:induction false} WalkSucceeds(n: Node)
    requires Typed(n) && Supported(TypeOf(n))
    ensures Walk(n).Some? <==> Walkable(n)
    decreases TypeOf(n), 1
  {
    if !n.NullNode? {
      if n.t.TSlice? {
        WalkListSucceeds(n);
      } else if n.t.TStruct? {
        WalkStructSucceeds(n);
      }
    }
  }

  lemma {:induction false} WalkList(n: Node)
    requires Typed(n) && !n.NullNode? && n.t.TSlice?
    ensures Walk(n) == match WalkItems(n.t.elem, Elements(n.v), |Elements(n.v)|)
                       case None => None
                       case Some(items) => Some(List(items))
    ensures Walkable(n) <==> forall i :: 0 <= i < |Elements(n.v)| ==> Walkable(Plain(n.t.elem, Elements(n.v)[i]))
  {
    hide WalkItems;
  }

  lemma {:induction false} WalkListSucceeds(n: Node)
    requires Typed(n) && !n.NullNode? && n.t.TSlice? && Supported(n.t)
    ensures Walk(n).Some? <==> Walkable(n)
    decreases TypeOf(n), 0
  {
    var e, elems := n.t.elem, Elements(n.v);
    WalkList(n);
    WalkedItems(e, elems, |elems|);
    hide WalkItems, Walk, Walkable;
    forall i | 0 <= i < |elems|
      ensures Walk(Plain(e, elems[i])).Some? <==> Walkable(Plain(e, elems[i]))
    {
      WalkSucceeds(Plain(e, elems[i]));
    }
  }

  lemma {:induction false} WalkableStruct(n: Node)
    requires Typed(n) && !n.NullNode? && n.t.TStruct?
    ensures Walkable(n) <==>
              && (n.StructNode? || forall i :: 0 <= i < |n.t.fields| ==> Shown(n.t, n.v, i))
              && (forall i :: 0 <= i < |n.t.fields| && Shown(n.t, n.v, i) ==>
                    Walkable(FieldNode(n.t.fields[i].typ, n.v.vals[i])))
  {
  }

  lemma {:induction false} WalkStruct(n: Node)
    requires Typed(n) && !n.NullNode? && n.t.TStruct?
    ensures KindOf(n) == KMap && Walk(n) == WalkMap(n)
  {
    hide WalkMap;
  }

  lemma {:induction false} FieldWalkSucceeds(t: GoType, v: GoValue)
    requires HasType(t, v) && Supported(t)
    ensures Typed(FieldNode(t, v))
    ensures Walk(FieldNode(t, v)).Some? <==> Walkable(FieldNode(t, v))
    decreases t, 2
  {
    if !FieldNode(t, v).NullNode? {
      WalkSucceeds(FieldNode(t, v));
    }
  }

  lemma {:induction false} WalkStructSucceeds(n: Node)
    requires Typed(n) && !n.NullNode? && n.t.TStruct? && Supported(n.t)
    ensures Walk(n).Some? <==> Walkable(n)
    decreases TypeOf(n), 0
  {
    WalkableStruct(n);
    WalkStruct(n);
    hide Walkable, Walk;
    var fs, vals := n.t.fields, n.v.vals;
    var pairs := Pairs(n.t, n.v, |fs|);
    WalkedPairs(n.t, pairs, |pairs|);
    PairsCount(n.t, n.v, |fs|);
    assert Walk(n).Some? <==> MapLength(n) == |pairs| && WalkPairs(n.t, pairs, |pairs|).Some?;
    assert MapLength(n) == |pairs| <==> n.StructNode? || forall i :: 0 <= i < |fs| ==> Shown(n.t, n.v, i);
    hide WalkMap, WalkPairs, Pairs, MapLength, FieldNode;
    forall j | 0 <= j < |pairs| && Walkable(n)
      ensures Walk(pairs[j].val).Some?
    {
      var i := PairHasField(n.t, n.v, |fs|, j);
      FieldWalkSucceeds(fs[i].typ, vals[i]);
    }
    forall i | 0 <= i < |fs| && Shown(n.t, n.v, i) && Walk(n).Some?
      ensures Typed(FieldNode(fs[i].typ, vals[i])) && Walkable(FieldNode(fs[i].typ, vals[i]))
    {
      FieldWalkSucceeds(fs[i].typ, vals[i]);
      var j := FieldHasPair(n.t, n.v, |fs|, i);
    }
  }

  // ---------------------------------------------------------------- decoding

  /** What decoding leaves of a field that was shown, if it succeeds. */
  function FieldResult(t: GoType, v: GoValue): Option<GoValue>
    requires HasType(t, v)
  {
    if FieldDecodable(t, v) then Some(NormShown(t, v)) else None
  }

  function NodeResult(t: GoType, v: GoValue): Option<GoValue>
    requires HasType(t, v)
  {
    if Decodable(t, v) then Some(Norm(t, v)) else None
  }

  /** Assembling through a nil pointer assembles a fresh zero, except for lists and byte arrays. */
  lemma {:induction false} ThroughPointer(e: GoType, b: Tree)
    requires !b.Null?
    ensures Assign(TPtr(e), VNilPtr, b)
            == if b.List? || (b.Bin? && b.bytes != [] && e.TByteArray?) || e.TPtr? then None
               else match Assign(e, Zero(e), b) case None => None case Some(v) => Some(VPtr(v))
  {
  }

  /** `e` is what a decoder makes of field `i`. */
  predicate EntryOf(t: GoType, v: GoValue, e: Entry, i: nat)
    requires t.TStruct? && HasType(t, v)
  {
    && i < |t.fields| && !Omitted(t.fields[i], v.vals[i])
    && e.key == Key(t.fields[i])
    && Assign(t.fields[i].typ, Zero(t.fields[i].typ), e.val) == FieldResult(t.fields[i].typ, v.vals[i])
  }

  predicate Seen(es: seq<Entry>, k: nat, key: string)
    requires k <= |es|
  {
    exists j :: 0 <= j < k && es[j].key == key
  }

  /** The fields after the first `k` entries: the ones seen hold their result, the others zero. */
  function Landed(t: GoType, v: GoValue, es: seq<Entry>, k: nat): (vals: seq<GoValue>)
    requires t.TStruct? && HasType(t, v) && k <= |es|
    ensures FieldsTyped(t.fields, vals)
  {
    seq(|t.fields|, i requires 0 <= i < |t.fields| =>
      if Seen(es, k, Key(t.fields[i])) then NormShown(t.fields[i].typ, v.vals[i]) else Zero(t.fields[i].typ))
  }

  predicate SeenDecodable(t: GoType, v: GoValue, es: seq<Entry>, k: nat)
    requires t.TStruct? && HasType(t, v) && k <= |es|
  {
    forall i :: 0 <= i < |t.fields| && Seen(es, k, Key(t.fields[i])) ==> FieldDecodable(t.fields[i].typ, v.vals[i])
  }

  ghost predicate HasField(t: GoType, v: GoValue, e: Entry)
    requires t.TStruct? && HasType(t, v)
  {
    exists i: nat :: EntryOf(t, v, e, i)
  }

  ghost predicate EntriesOf(t: GoType, v: GoValue, es: seq<Entry>)
    requires t.TStruct? && HasType(t, v)
  {
    && DistinctKeys(es)
    && (forall j :: 0 <= j < |es| ==> HasField(t, v, es[j]))
  }

  lemma {:induction false} FieldForKey(fs: seq<Field>, i: nat)
    requires i < |fs| && forall i, j :: 0 <= i < j < |fs| ==> Key(fs[i]) != Key(fs[j])
    ensures FieldFor(fs, Key(fs[i])) == Some(i)
  {
  }

  lemma SeenNext(es: seq<Entry>, k: nat, key: string)
    requires 0 < k <= |es|
    ensures Seen(es, k, key) <==> Seen(es, k - 1, key) || es[k - 1].key == key
  {
  }

  /** One more entry lands in its field. */
  lemma {:induction false} OneLands(t: GoType, v: GoValue, es: seq<Entry>, k: nat, i: nat)
    requires t.TStruct? && HasType(t, v) && Supported(t) && 0 < k <= |es| && EntriesOf(t, v, es)
    requires EntryOf(t, v, es[k - 1], i)
    ensures Landed(t, v, es, k - 1)[i] == Zero(t.fields[i].typ)
    ensures Landed(t, v, es, k) == Landed(t, v, es, k - 1)[i := NormShown(t.fields[i].typ, v.vals[i])]
    ensures SeenDecodable(t, v, es, k) <==> SeenDecodable(t, v, es, k - 1) && FieldDecodable(t.fields[i].typ, v.vals[i])
  {
    var fs := t.fields;
    forall f | 0 <= f < |fs|
      ensures Seen(es, k, Key(fs[f])) <==> Seen(es, k - 1, Key(fs[f])) || f == i
    {
      SeenNext(es, k, Key(fs[f]));
    }
    assert !Seen(es, k - 1, Key(fs[i]));
  }

  lemma {:induction false} EntriesLand(t: GoType, v: GoValue, es: seq<Entry>, k: nat)
    requires t.TStruct? && HasType(t, v) && Supported(t) && k <= |es| && EntriesOf(t, v, es)
    ensures AssignEntries(t.fields, Zero(t).vals, es, k)
            == if SeenDecodable(t, v, es, k) then Some(Landed(t, v, es, k)) else None
  {
    if k == 0 {
      assert Landed(t, v, es, 0) == Zero(t).vals;
    } else {
      EntriesLand(t, v, es, k - 1);
      assert HasField(t, v, es[k - 1]);
      var i: nat :| EntryOf(t, v, es[k - 1], i);
      FieldForKey(t.fields, i);
      OneLands(t, v, es, k, i);
      hide EntriesOf, SeenDecodable, Landed, FieldDecodable, NormShown, Zero;
    }
  }

  lemma ItemsStep(t: GoType, items: seq<Tree>, k: nat)
    requires 0 < k <= |items|
    ensures var before, next := AssignItems(t, items, k - 1), Assign(t, Zero(t), items[k - 1]);
            AssignItems(t, items, k)
            == if before.Some? && next.Some? then Some(before.value + [next.value]) else None
  {
    hide Assign, Zero, HasType;
  }

  /** The items assembled are the items assigned one by one. */
  lemma {:induction false} ItemsAssigned(t: GoType, items: seq<Tree>, k: nat)
    requires k <= |items|
    ensures AssignItems(t, items, k).Some? <==> forall i :: 0 <= i < k ==> Assign(t, Zero(t), items[i]).Some?
    ensures AssignItems(t, items, k).Some? ==>
              forall i :: 0 <= i < k ==> Some(AssignItems(t, items, k).value[i]) == Assign(t, Zero(t), items[i])
  {
    hide Assign, AssignItems, Zero, HasType;
    ItemsAssign(t, items, k);
    if AssignItems(t, items, k).Some? {
      AssignedItemsAre(t, items, k);
    }
  }

  lemma {:induction false} ItemsAssign(t: GoType, items: seq<Tree>, k: nat)
    requires k <= |items|
    ensures AssignItems(t, items, k).Some? <==> forall i :: 0 <= i < k ==> Assign(t, Zero(t), items[i]).Some?
  {
    if k == 0 {
      return;
    }
    hide Assign, AssignItems, Zero, HasType;
    ItemsAssign(t, items, k - 1);
    ItemsStep(t, items, k);
  }

  lemma {:induction false} AssignedItemsAre(t: GoType, items: seq<Tree>, k: nat)
    requires k <= |items| && AssignItems(t, items, k).Some?
    ensures |AssignItems(t, items, k).value| == k
    ensures forall i :: 0 <= i < k ==> Some(AssignItems(t, items, k).value[i]) == Assign(t, Zero(t), items[i])
  {
    if k == 0 {
      return;
    }
    hide Assign, AssignItems, Zero, HasType;
    ItemsStep(t, items, k);
    AssignedItemsAre(t, items, k - 1);
  }

  /** Decoding what was encoded, in any order of the map entries. */
  lemma {:induction false} Decoded(n: Node, a: Tree, b: Tree)
    requires Typed(n) && !n.NullNode? && Supported(n.t)
    requires Walk(n) == Some(a) && SameUpToOrder(a, b)
    ensures Assign(n.t, Zero(n.t), b) == NodeResult(n.t, n.v)
    decreases n.t, 2
  {
    if n.t.TSlice? {
      ListDecoded(n, a, b);
    } else if n.t.TStruct? {
      StructDecoded(n, a, b);
    } else {
      LeafDecoded(n, a);
    }
  }

  lemma {:induction false} LeafDecoded(n: Node, a: Tree)
    requires Typed(n) && !n.NullNode? && !n.t.TSlice? && !n.t.TStruct?
    requires Walk(n) == Some(a)
    ensures !a.List? && !a.Map?
    ensures Assign(n.t, Zero(n.t), a) == NodeResult(n.t, n.v)
  {
    if n.t.TInt? {
      TruncateInRange(n.v.i, n.t.bits, n.t.signed);
      if !n.t.signed {
        TruncateTwice(n.v.i, n.t.bits);
      }
    } else if n.t.TByteArray? && n.v.arr != [] {
      assert n.v.arr + Zero(n.t).arr[|n.v.arr|..] == n.v.arr;
    }
  }

  /** An unsigned value survives the way through int64. */
  lemma TruncateTwice(i: int, bits: Bits)
    requires InRange(i, bits, false)
    ensures Truncate(Truncate(i, B64, true), bits, false) == i
  {
    var j := Truncate(i, B64, true);
    ModOfSmall(i, Modulus(B64));
    if bits == B64 {
      ModOfSmall(j, Modulus(B64));
    } else {
      assert j == i;
      ModOfSmall(i, Modulus(bits));
    }
  }

  lemma {:induction false} ListDecoded(n: Node, a: Tree, b: Tree)
    requires Typed(n) && !n.NullNode? && Supported(n.t) && n.t.TSlice?
    requires Walk(n) == Some(a) && SameUpToOrder(a, b)
    ensures Assign(n.t, Zero(n.t), b) == NodeResult(n.t, n.v)
    decreases n.t, 0
  {
    var e, elems := n.t.elem, Elements(n.v);
    WalkedItems(e, elems, |elems|);
    forall i | 0 <= i < |elems|
      ensures Assign(e, Zero(e), b.items[i]) == NodeResult(e, elems[i])
    {
      Decoded(Plain(e, elems[i]), a.items[i], b.items[i]);
    }
    ItemsAssigned(e, b.items, |elems|);
    ListResult(n.t, n.v, b.items);
  }

  lemma {:induction false} ListResult(t: GoType, v: GoValue, items: seq<Tree>)
    requires t.TSlice? && HasType(t, v) && |items| == |Elements(v)|
    requires forall i :: 0 <= i < |items| ==> Assign(t.elem, Zero(t.elem), items[i]) == NodeResult(t.elem, Elements(v)[i])
    requires var r := AssignItems(t.elem, items, |items|);
             && (r.Some? <==> forall i :: 0 <= i < |items| ==> Assign(t.elem, Zero(t.elem), items[i]).Some?)
             && (r.Some? ==> forall i :: 0 <= i < |items| ==> Some(r.value[i]) == Assign(t.elem, Zero(t.elem), items[i]))
    ensures Assign(t, Zero(t), List(items)) == NodeResult(t, v)
  {
    var r := AssignItems(t.elem, items, |items|);
    if r.Some? {
      assert r.value == Norm(t, v).elems;
    }
  }

  /** Decoding the node of a field into the field. */
  lemma {:induction false} FieldDecoded(t: GoType, v: GoValue, a: Tree, b: Tree)
    requires HasType(t, v) && Supported(t)
    requires Walk(FieldNode(t, v)) == Some(a) && SameUpToOrder(a, b)
    ensures Assign(t, Zero(t), b) == FieldResult(t, v)
    decreases t, 3
  {
    if !t.TPtr? {
      Decoded(BuildNode(t, v), a, b);
    } else if v.VNilPtr? || SeenAsNull(t.elem, v.to) {
      assert a == Null;
    } else {
      PointerDecoded(t, v, a, b);
    }
  }

  lemma {:induction false} PointerDecoded(t: GoType, v: GoValue, a: Tree, b: Tree)
    requires HasType(t, v) && Supported(t) && t.TPtr? && v.VPtr? && !SeenAsNull(t.elem, v.to)
    requires Walk(BuildNode(t.elem, v.to)) == Some(a) && SameUpToOrder(a, b)
    ensures Assign(t, Zero(t), b) == FieldResult(t, v)
    decreases t, 2
  {
    Decoded(BuildNode(t.elem, v.to), a, b);
    NodeShape(BuildNode(t.elem, v.to), a, b);
    hide Walk, SameUpToOrder, Supported, SeenAsNull;
    ThroughPointer(t.elem, b);
    hide Assign, HasType, Decodable, Norm;
  }

  /** What a tree says about the type it came from. */
  lemma {:induction false} NodeShape(n: Node, a: Tree, b: Tree)
    requires Typed(n) && !n.NullNode? && Walk(n) == Some(a) && SameUpToOrder(a, b)
    ensures b.List? <==> n.t.TSlice?
    ensures b.Null? <==> SeenAsNull(n.t, n.v)
    ensures n.t.TByteArray? && !b.Null? ==> b.Bin? && b.bytes != []
    ensures !n.t.TPtr?
  {
  }

  lemma {:induction false} AssignStruct(t: GoType, es: seq<Entry>)
    requires t.TStruct?
    ensures Assign(t, Zero(t), Map(es))
            == match AssignEntries(t.fields, Zero(t).vals, es, |es|)
               case None => None
               case Some(vals) => Some(VStruct(vals))
  {
    hide AssignEntries, HasType;
  }

  lemma {:induction false} StructDecoded(n: Node, a: Tree, b: Tree)
    requires Typed(n) && !n.NullNode? && Supported(n.t) && n.t.TStruct?
    requires Walk(n) == Some(a) && SameUpToOrder(a, b)
    ensures Assign(n.t, Zero(n.t), b) == NodeResult(n.t, n.v)
    decreases n.t, 1
  {
    EntriesDecoded(n, a, b);
    var es := b.entries;
    AllSeen(n, a, b);
    hide Walk, SameUpToOrder, Norm, Decodable, Supported, HasType, AssignEntries, Assign;
    EntriesLand(n.t, n.v, es, |es|);
    AssignStruct(n.t, es);
    hide EntriesOf, SeenDecodable, Landed, Zero;
  }

  lemma {:induction false} EntriesDecoded(n: Node, a: Tree, b: Tree)
    requires Typed(n) && !n.NullNode? && Supported(n.t) && n.t.TStruct?
    requires Walk(n) == Some(a) && SameUpToOrder(a, b)
    ensures a.Map? && EntriesOf(n.t, n.v, b.entries)
    decreases n.t, 0, 1
  {
    StructTree(n, a);
    var es := b.entries;
    assert DistinctKeys(es);
    hide Walk, SameUpToOrder, HasField, HasType, Supported;
    forall j | 0 <= j < |es|
      ensures HasField(n.t, n.v, es[j])
    {
      EntryDecoded(n, a, b, j);
    }
  }

  lemma {:induction false} StructTree(n: Node, a: Tree)
    requires Typed(n) && !n.NullNode? && n.t.TStruct? && Walk(n) == Some(a)
    ensures a.Map?
    ensures var pairs := Pairs(n.t, n.v, |n.t.fields|);
            && |a.entries| == |pairs|
            && forall j :: 0 <= j < |pairs| ==> Walk(pairs[j].val) == Some(a.entries[j].val) && a.entries[j].key == pairs[j].key
  {
    var pairs := Pairs(n.t, n.v, |n.t.fields|);
    WalkStruct(n);
    WalkedPairs(n.t, pairs, |pairs|);
    hide Walk, WalkPairs;
  }

  /** Entry `j` of the decoded map is entry `p` of the walk, which is the pair of field `i`. */
  lemma EntryOrigin(n: Node, a: Tree, b: Tree, j: nat) returns (p: nat, i: nat)
    requires Typed(n) && !n.NullNode? && n.t.TStruct?
    requires Walk(n) == Some(a) && a.Map? && SameUpToOrder(a, b) && j < |b.entries|
    ensures p < |a.entries| && SameUpToOrder(a.entries[p].val, b.entries[j].val)
    ensures Shown(n.t, n.v, i) && b.entries[j].key == Key(n.t.fields[i])
    ensures Walk(NodeOfField(n.t, n.v, i)) == Some(a.entries[p].val)
  {
    StructTree(n, a);
    hide Walk, HasType, Pairs, NodeOfField;
    assert SameAsOneOf(a.entries, b.entries[j]);
    p :| p < |a.entries| && a.entries[p].key == b.entries[j].key && SameUpToOrder(a.entries[p].val, b.entries[j].val);
    i := PairHasField(n.t, n.v, |n.t.fields|, p);
    hide SameUpToOrder;
  }

  lemma {:induction false} EntryDecoded(n: Node, a: Tree, b: Tree, j: nat)
    requires Typed(n) && !n.NullNode? && Supported(n.t) && n.t.TStruct?
    requires Walk(n) == Some(a) && a.Map? && SameUpToOrder(a, b) && j < |b.entries|
    ensures HasField(n.t, n.v, b.entries[j])
    decreases n.t, 0, 0
  {
    var p, i := EntryOrigin(n, a, b, j);
    var e := b.entries[j];
    hide Walk, SameUpToOrder;
    FieldDecoded(n.t.fields[i].typ, n.v.vals[i], a.entries[p].val, e.val);
    assert EntryOf(n.t, n.v, e, i);
  }

  /** In the end the fields that are seen are those that were not omitted. */
  lemma {:induction false} AllSeen(n: Node, a: Tree, b: Tree)
    requires Typed(n) && !n.NullNode? && Supported(n.t) && n.t.TStruct?
    requires Walk(n) == Some(a) && a.Map? && SameUpToOrder(a, b) && EntriesOf(n.t, n.v, b.entries)
    ensures Norm(n.t, n.v) == VStruct(Landed(n.t, n.v, b.entries, |b.entries|))
    ensures Decodable(n.t, n.v) <==> SeenDecodable(n.t, n.v, b.entries, |b.entries|)
  {
    var t, v, es := n.t, n.v, b.entries;
    forall i | 0 <= i < |t.fields|
      ensures Seen(es, |es|, Key(t.fields[i])) <==> Shown(t, v, i)
    {
      SeenIsShown(n, a, b, i);
    }
    LandedIsNorm(t, v, es);
  }

  lemma {:induction false} LandedIsNorm(t: GoType, v: GoValue, es: seq<Entry>)
    requires t.TStruct? && HasType(t, v)
    requires forall i :: 0 <= i < |t.fields| ==> (Seen(es, |es|, Key(t.fields[i])) <==> Shown(t, v, i))
    ensures Norm(t, v) == VStruct(Landed(t, v, es, |es|))
    ensures Decodable(t, v) <==> SeenDecodable(t, v, es, |es|)
  {
    hide Seen, Omitted;
  }

  lemma {:induction false} SeenIsShown(n: Node, a: Tree, b: Tree, i: nat)
    requires Typed(n) && !n.NullNode? && Supported(n.t) && n.t.TStruct? && i < |n.t.fields|
    requires Walk(n) == Some(a) && a.Map? && SameUpToOrder(a, b) && EntriesOf(n.t, n.v, b.entries)
    ensures Seen(b.entries, |b.entries|, Key(n.t.fields[i])) <==> Shown(n.t, n.v, i)
  {
    var es := b.entries;
    hide Walk, SameUpToOrder, EntriesOf;
    if Shown(n.t, n.v, i) {
      ShownSeen(n, a, b, i);
    } else if Seen(es, |es|, Key(n.t.fields[i])) {
      SeenShown(n.t, n.v, es, i);
    }
  }

  lemma {:induction false} ShownSeen(n: Node, a: Tree, b: Tree, i: nat)
    requires Typed(n) && !n.NullNode? && n.t.TStruct? && i < |n.t.fields|
    requires Walk(n) == Some(a) && a.Map? && SameUpToOrder(a, b) && Shown(n.t, n.v, i)
    ensures Seen(b.entries, |b.entries|, Key(n.t.fields[i]))
  {
    StructTree(n, a);
    hide Walk;
    var p := FieldHasPair(n.t, n.v, |n.t.fields|, i);
    hide Pairs, HasType;
    assert KeyIn(b.entries, a.entries[p].key);
  }

  lemma {:induction false} SeenShown(t: GoType, v: GoValue, es: seq<Entry>, i: nat)
    requires t.TStruct? && HasType(t, v) && Supported(t) && i < |t.fields| && EntriesOf(t, v, es)
    requires Seen(es, |es|, Key(t.fields[i]))
    ensures Shown(t, v, i)
  {
    var j :| 0 <= j < |es| && es[j].key == Key(t.fields[i]);
    assert HasField(t, v, es[j]);
    var f: nat :| EntryOf(t, v, es[j], f);
    assert f == i;
  }

  // ---------------------------------------------------------------- the round trip

  /** The names of the pairs are distinct. */
  lemma {:induction false} PairKeysDistinct(t: GoType, v: GoValue, n: nat, j: nat, k: nat)
    requires t.TStruct? && HasType(t, v) && Supported(t) && n <= |t.fields| && j < k < |Pairs(t, v, n)|
    ensures Pairs(t, v, n)[j].key != Pairs(t, v, n)[k].key
    decreases n
  {
    PairsStep(t, v, n);
    if k < |Pairs(t, v, n - 1)| {
      PairKeysDistinct(t, v, n - 1, j, k);
    } else {
      var i := PairHasField(t, v, n - 1, j);
    }
  }

  /** The order in which a node is walked is one of the orders allowed. */
  lemma {:induction false} WalkedInOrder(n: Node, a: Tree)
    requires Typed(n) && (!n.NullNode? ==> Supported(n.t)) && Walk(n) == Some(a)
    ensures SameUpToOrder(a, a)
    decreases TypeOf(n), 1
  {
    if !n.NullNode? && n.t.TSlice? {
      var e, elems := n.t.elem, Elements(n.v);
      WalkedItems(e, elems, |elems|);
      forall i | 0 <= i < |elems|
        ensures SameUpToOrder(a.items[i], a.items[i])
      {
        WalkedInOrder(Plain(e, elems[i]), a.items[i]);
      }
    } else if !n.NullNode? && n.t.TStruct? {
      WalkedStructInOrder(n, a);
    }
  }

  lemma {:induction false} WalkedStructInOrder(n: Node, a: Tree)
    requires Typed(n) && !n.NullNode? && n.t.TStruct? && Supported(n.t) && Walk(n) == Some(a)
    ensures SameUpToOrder(a, a)
    decreases TypeOf(n), 0
  {
    StructTree(n, a);
    var t, v, es := n.t, n.v, a.entries;
    hide Walk;
    forall j | 0 <= j < |es|
      ensures SameUpToOrder(es[j].val, es[j].val)
    {
      var i := PairHasField(t, v, |t.fields|, j);
      FieldInOrder(t.fields[i].typ, v.vals[i], es[j].val);
    }
    forall j, k | 0 <= j < k < |es|
      ensures es[j].key != es[k].key
    {
      PairKeysDistinct(t, v, |t.fields|, j, k);
    }
    hide Pairs, HasType;
    SameMap(es);
  }

  lemma SameMap(es: seq<Entry>)
    requires forall j :: 0 <= j < |es| ==> SameUpToOrder(es[j].val, es[j].val)
    requires DistinctKeys(es)
    ensures SameUpToOrder(Map(es), Map(es))
  {
    hide SameAsOneOf, KeyIn, DistinctKeys;
    forall j | 0 <= j < |es|
      ensures SameAsOneOf(es, es[j]) && KeyIn(es, es[j].key)
    {
      SameAsItself(es, j);
    }
  }

  lemma {:induction false} SameAsItself(es: seq<Entry>, j: nat)
    requires j < |es| && SameUpToOrder(es[j].val, es[j].val)
    ensures SameAsOneOf(es, es[j]) && KeyIn(es, es[j].key)
  {
    hide SameUpToOrder;
  }

  lemma {:induction false} FieldInOrder(t: GoType, v: GoValue, a: Tree)
    requires HasType(t, v) && Supported(t) && Walk(FieldNode(t, v)) == Some(a)
    ensures SameUpToOrder(a, a)
    decreases t, 2
  {
    if !FieldNode(t, v).NullNode? {
      WalkedInOrder(FieldNode(t, v), a);
    }
  }

  /** A value that survives the round trip. */
  predicate Codable(t: GoType, v: GoValue)
    requires HasType(t, v)
  {
    Walkable(BuildNode(t, v)) && Decodable(t, v)
  }

  /** What a decoder makes of a tree: it assembles a fresh zero. */
  function FromTree(t: GoType, b: Tree): Option<GoValue> {
    Assign(t, Zero(t), b)
  }

  /**
   Encoding a value and decoding it into a fresh zero of its type succeeds exactly for the codable
   values, and then gives the value back normalised, in whatever order the codec keeps map entries.
   */
  lemma {:induction false} RoundTrip(t: GoType, v: GoValue)
    requires HasType(t, v) && Supported(t)
    ensures Codable(t, v) <==> exists a :: Walk(BuildNode(t, v)) == Some(a) && FromTree(t, a) == Some(Norm(t, v))
    ensures forall a, b :: Walk(BuildNode(t, v)) == Some(a) && SameUpToOrder(a, b) ==>
              FromTree(t, b) == if Codable(t, v) then Some(Norm(t, v)) else None
  {
    hide Walk, Walkable, Decodable, Norm, SameUpToOrder, FromTree, HasType;
    WalkSucceeds(BuildNode(t, v));
    forall a, b | Walk(BuildNode(t, v)) == Some(a) && SameUpToOrder(a, b)
      ensures FromTree(t, b) == if Codable(t, v) then Some(Norm(t, v)) else None
    {
      DecodedInAnyOrder(t, v, a, b);
    }
    if Walk(BuildNode(t, v)).Some? {
      WalkedInOrder(BuildNode(t, v), Walk(BuildNode(t, v)).value);
    }
  }

  lemma {:induction false} DecodedInAnyOrder(t: GoType, v: GoValue, a: Tree, b: Tree)
    requires HasType(t, v) && Supported(t)
    requires Walk(BuildNode(t, v)) == Some(a) && SameUpToOrder(a, b)
    ensures FromTree(t, b) == if Codable(t, v) then Some(Norm(t, v)) else None
  {
    hide *;
    BuildsNode(t, v);
    var n := BuildNode(t, v);
    WalkSucceeds(n);
    Decoded(n, a, b);
    DecodedResult(t, v, b);
  }

  lemma {:induction false} BuildsNode(t: GoType, v: GoValue)
    requires HasType(t, v)
    ensures var n := BuildNode(t, v);
            !n.NullNode? && n.t == t && n.v == v && Typed(n) && TypeOf(n) == t
  {
  }

  lemma {:induction false} DecodedResult(t: GoType, v: GoValue, b: Tree)
    requires HasType(t, v) && Walkable(BuildNode(t, v))
    requires Assign(t, Zero(t), b) == NodeResult(t, v)
    ensures FromTree(t, b) == if Codable(t, v) then Some(Norm(t, v)) else None
  {
    hide Walkable, Decodable, BuildNode, Norm, Assign, Zero, HasType;
  }
}
