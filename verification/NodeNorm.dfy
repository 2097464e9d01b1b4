/**
 Does the value a round trip yields encode like the original, and does a second round trip change it
 again? Yes and no, in the absence of omitempty; with it both fail when the content of a field looks
 non-zero to the encoder and is zero once decoded.
 */
module NodeNorm {
  import opened Collections
  import opened Wrappers
  import opened GoValues
  import opened NodeEncoder
  import opened NodeAssembler
  import opened NodeRoundTrip

  // ---------------------------------------------------------------- values that decode to zero

  /** Nothing is in the value but zeros and empty bytes. */
  predicate Hollow(t: GoType, v: GoValue)
    requires HasType(t, v)
    decreases t
  {
    match t
    case TBytes => v.VNilBytes? || v.bytes == []
    case TSlice(_) => false
    case TStruct(fs) =>
      forall i :: 0 <= i < |fs| && !Omitted(fs[i], v.vals[i]) ==>
        if fs[i].typ.TPtr? then v.vals[i].VNilPtr? || SeenAsNull(fs[i].typ.elem, v.vals[i].to)
        else Hollow(fs[i].typ, v.vals[i])
    case _ => v == Zero(t)
  }

  lemma {:induction false} HollowIsZero(t: GoType, v: GoValue)
    requires HasType(t, v) && Supported(t)
    ensures Hollow(t, v) <==> Norm(t, v) == Zero(t)
    decreases t, 1
  {
    if t.TStruct? {
      StructHollow(t, v);
    }
  }

  lemma {:induction false} StructHollow(t: GoType, v: GoValue)
    requires HasType(t, v) && Supported(t) && t.TStruct?
    ensures Hollow(t, v) <==> Norm(t, v) == Zero(t)
    decreases t, 0
  {
    var fs, vals := t.fields, v.vals;
    forall i | 0 <= i < |fs|
      ensures NormField(fs[i], vals[i]) == Zero(fs[i].typ) <==>
                Omitted(fs[i], vals[i])
                || if fs[i].typ.TPtr? then vals[i].VNilPtr? || SeenAsNull(fs[i].typ.elem, vals[i].to)
                   else Hollow(fs[i].typ, vals[i])
    {
      HollowIsZero(fs[i].typ, vals[i]);
    }
    assert Norm(t, v) == Zero(t) <==> forall i :: 0 <= i < |fs| ==> NormField(fs[i], vals[i]) == Zero(fs[i].typ) by {
      if forall i :: 0 <= i < |fs| ==> NormField(fs[i], vals[i]) == Zero(fs[i].typ) {
        assert Norm(t, v).vals == Zero(t).vals;
      } else {
        var i :| 0 <= i < |fs| && NormField(fs[i], vals[i]) != Zero(fs[i].typ);
        assert Norm(t, v).vals[i] != Zero(t).vals[i];
      }
    }
  }

  /** What the encoder looks at to leave out a field tagged omitempty. */
  predicate HollowContent(t: GoType, v: GoValue)
    requires HasType(t, v)
  {
    if t.TPtr? then v.VNilPtr? || Hollow(t.elem, v.to) else Hollow(t, v)
  }

  /** Once decoded, a field that was shown is omitted exactly if it is tagged omitempty and its content is hollow. */
  lemma {:induction false} NormOmitted(f: Field, v: GoValue)
    requires HasType(f.typ, v) && Supported(f.typ) && !Omitted(f, v)
    ensures Omitted(f, NormShown(f.typ, v)) <==> OmitEmpty(f) && HollowContent(f.typ, v)
  {
    if f.typ.TPtr? {
      if v.VPtr? {
        HollowIsZero(f.typ.elem, v.to);
      }
    } else {
      HollowIsZero(f.typ, v);
    }
  }

  // ---------------------------------------------------------------- encoding again

  /** No field tagged omitempty is shown with hollow content. */
  predicate Steady(t: GoType, v: GoValue)
    requires HasType(t, v)
    decreases t, 0
  {
    match t
    case TSlice(e) => forall i :: 0 <= i < |Elements(v)| ==> Steady(e, Elements(v)[i])
    case TStruct(fs) => forall i :: 0 <= i < |fs| && !Omitted(fs[i], v.vals[i]) ==> SteadyField(fs[i], v.vals[i])
    case _ => true
  }

  predicate SteadyField(f: Field, v: GoValue)
    requires HasType(f.typ, v)
    decreases f.typ, 1
  {
    && !(OmitEmpty(f) && HollowContent(f.typ, v))
    && if f.typ.TPtr? then v.VNilPtr? || Steady(f.typ.elem, v.to) else Steady(f.typ, v)
  }

  /** The node of the normalised value. */
  function Renormed(n: Node): (r: Node)
    requires Typed(n) && !n.NullNode?
    ensures Typed(r) && !r.NullNode? && r.t == n.t && r.StructNode? == n.StructNode?
  {
    n.(v := Norm(n.t, n.v))
  }

  /** The entries of the first `n` fields. */
  function Entries(t: GoType, v: GoValue, n: nat): (r: Option<seq<Entry>>)
    requires t.TStruct? && HasType(t, v) && n <= |t.fields|
    ensures r.Some? ==> |r.value| == |Pairs(t, v, n)|
  {
    WalkPairs(t, Pairs(t, v, n), |Pairs(t, v, n)|)
  }

  lemma {:induction false} WalkPrefix(t: GoType, ps: seq<Pair>, qs: seq<Pair>, k: nat)
    requires k <= |ps| && PairsTyped(t, ps) && PairsTyped(t, qs) && ps <= qs
    ensures WalkPairs(t, ps, k) == WalkPairs(t, qs, k)
  {
    if k == 0 {
      return;
    }
    hide Walk, WalkPairs, HasType, Typed;
    WalkPrefix(t, ps, qs, k - 1);
    WalkPairsStep(t, ps, k);
    WalkPairsStep(t, qs, k);
  }

  lemma {:induction false} EntriesStep(t: GoType, v: GoValue, n: nat)
    requires t.TStruct? && HasType(t, v) && 0 < n <= |t.fields|
    ensures Entries(t, v, n) ==
              var before := Entries(t, v, n - 1);
              if !Shown(t, v, n - 1) then before
              else if before.None? || Walk(NodeOfField(t, v, n - 1)).None? then None
              else Some(before.value + [Entry(Key(t.fields[n - 1]), Walk(NodeOfField(t, v, n - 1)).value)])
  {
    PairsStep(t, v, n);
    hide Walk, WalkPairs;
    var ps, qs := Pairs(t, v, n - 1), Pairs(t, v, n);
    if Shown(t, v, n - 1) {
      WalkPrefix(t, ps, qs, |ps|);
      WalkPairsStep(t, qs, |qs|);
    }
    hide Pairs, HasType;
  }

  /** Field `i`, once normalised, is still shown and its node walks alike. */
  ghost predicate FieldKept(t: GoType, v: GoValue, w: GoValue, i: nat)
    requires t.TStruct? && HasType(t, v) && HasType(t, w) && i < |t.fields|
  {
    Shown(t, w, i) && Walk(NodeOfField(t, w, i)) == Walk(NodeOfField(t, v, i))
  }

  ghost predicate FieldsKept(t: GoType, v: GoValue, w: GoValue, n: nat)
    requires t.TStruct? && HasType(t, v) && HasType(t, w) && n <= |t.fields|
  {
    forall i :: 0 <= i < n && Shown(t, v, i) ==> FieldKept(t, v, w, i)
  }

  /** Of two structs, one showing no field the other does not, the entries agree if every field's do. */
  lemma {:induction false} EntriesAgree(t: GoType, v: GoValue, w: GoValue, n: nat)
    requires t.TStruct? && HasType(t, v) && HasType(t, w) && n <= |t.fields|
    requires forall i :: 0 <= i < |t.fields| && Shown(t, w, i) ==> Shown(t, v, i)
    requires Entries(t, v, n).Some?
    ensures Entries(t, w, n).Some? ==> |Entries(t, w, n).value| <= |Entries(t, v, n).value|
    ensures Entries(t, w, n) == Entries(t, v, n) <==> FieldsKept(t, v, w, n)
  {
    if n == 0 {
      return;
    }
    assert FieldsKept(t, v, w, n) <==> FieldsKept(t, v, w, n - 1) && (Shown(t, v, n - 1) ==> FieldKept(t, v, w, n - 1));
    hide Walk, HasType, NodeOfField, Entries, FieldKept, FieldsKept, Omitted;
    EntriesLength(t, v, n);
    EntriesLength(t, w, n);
    EntriesAgree(t, v, w, n - 1);
    if Shown(t, v, n - 1) {
      LastEntryAgrees(t, v, w, n);
    }
  }

  lemma {:induction false} EntriesLength(t: GoType, v: GoValue, n: nat)
    requires t.TStruct? && HasType(t, v) && 0 < n <= |t.fields|
    ensures !Shown(t, v, n - 1) ==> Entries(t, v, n) == Entries(t, v, n - 1)
    ensures Entries(t, v, n).Some? ==>
              && Entries(t, v, n - 1).Some?
              && |Entries(t, v, n).value| == |Entries(t, v, n - 1).value| + if Shown(t, v, n - 1) then 1 else 0
  {
    EntriesStep(t, v, n);
    hide Walk, HasType, Shown, NodeOfField, Entries;
  }

  lemma {:induction false} LastEntryAgrees(t: GoType, v: GoValue, w: GoValue, n: nat)
    requires t.TStruct? && HasType(t, v) && HasType(t, w) && 0 < n <= |t.fields|
    requires Entries(t, v, n).Some? && Entries(t, v, n - 1).Some?
    requires Entries(t, w, n - 1).Some? ==> |Entries(t, w, n - 1).value| <= |Entries(t, v, n - 1).value|
    ensures Shown(t, v, n - 1) ==> (Entries(t, w, n) == Entries(t, v, n) <==>
              Entries(t, w, n - 1) == Entries(t, v, n - 1) && FieldKept(t, v, w, n - 1))
  {
    hide Walk, HasType, Shown, NodeOfField, Entries;
    EntriesStep(t, v, n);
    EntriesStep(t, w, n);
    EntriesLength(t, w, n);
    if Shown(t, v, n - 1) && Shown(t, w, n - 1) && Entries(t, w, n).Some? {
      var key := Key(t.fields[n - 1]);
      SameEnd(Entries(t, v, n - 1).value, Entry(key, Walk(NodeOfField(t, v, n - 1)).value),
              Entries(t, w, n - 1).value, Entry(key, Walk(NodeOfField(t, w, n - 1)).value));
    }
  }

  lemma {:induction false} WalkIsEntries(n: Node)
    requires Typed(n) && !n.NullNode? && n.t.TStruct?
    ensures Walk(n) == if n.Plain? && |Pairs(n.t, n.v, |n.t.fields|)| != |n.t.fields| then None
                       else match Entries(n.t, n.v, |n.t.fields|)
                         case None => None
                         case Some(es) => Some(Map(es))
  {
    WalkStruct(n);
    hide Walk, WalkPairs, Pairs, HasType;
  }

  /** Encoding the normalised value gives the same tree exactly if the value is steady. */
  lemma {:induction false} NormEncodes(n: Node)
    requires Typed(n) && !n.NullNode? && Supported(n.t) && Walk(n).Some?
    ensures Walk(Renormed(n)) == Walk(n) <==> Steady(n.t, n.v)
    decreases n.t, 1
  {
    if n.t.TSlice? {
      ListNormEncodes(n);
    } else if n.t.TStruct? {
      StructNormEncodes(n);
    }
  }

  lemma {:induction false} ListNormEncodes(n: Node)
    requires Typed(n) && !n.NullNode? && Supported(n.t) && n.t.TSlice? && Walk(n).Some?
    ensures Walk(Renormed(n)) == Walk(n) <==> Steady(n.t, n.v)
    decreases n.t, 0
  {
    var e, m := n.t.elem, Renormed(n);
    var xs, ys := Elements(n.v), Elements(m.v);
    assert |ys| == |xs| && forall i :: 0 <= i < |xs| ==> ys[i] == Norm(e, xs[i]);
    assert Steady(n.t, n.v) <==> forall i :: 0 <= i < |xs| ==> Steady(e, xs[i]);
    WalkList(n);
    WalkList(m);
    hide Walk, WalkItems, Steady, Norm, Renormed;
    WalkedItems(e, xs, |xs|);
    forall i | 0 <= i < |xs|
      ensures Walk(Plain(e, ys[i])) == Walk(Plain(e, xs[i])) <==> Steady(e, xs[i])
    {
      ItemNormEncodes(e, xs[i]);
    }
    SameItems(e, xs, ys);
  }

  lemma {:induction false} ItemNormEncodes(t: GoType, v: GoValue)
    requires HasType(t, v) && Supported(t) && Walk(Plain(t, v)).Some?
    ensures Walk(Plain(t, Norm(t, v))) == Walk(Plain(t, v)) <==> Steady(t, v)
    decreases t, 2
  {
    NormEncodes(Plain(t, v));
  }

  lemma {:induction false} SameItems(t: GoType, xs: seq<GoValue>, ys: seq<GoValue>)
    requires |xs| == |ys| && forall i :: 0 <= i < |xs| ==> HasType(t, xs[i]) && HasType(t, ys[i])
    requires WalkItems(t, xs, |xs|).Some?
    ensures WalkItems(t, ys, |ys|) == WalkItems(t, xs, |xs|) <==>
              forall i :: 0 <= i < |xs| ==> Walk(Plain(t, ys[i])) == Walk(Plain(t, xs[i]))
  {
    WalkedItems(t, xs, |xs|);
    WalkedItems(t, ys, |ys|);
    hide Walk, WalkItems, HasType;
    var a, b := WalkItems(t, xs, |xs|), WalkItems(t, ys, |ys|);
    if b.Some? && forall i :: 0 <= i < |xs| ==> Walk(Plain(t, ys[i])) == Walk(Plain(t, xs[i])) {
      assert a.value == b.value;
    }
  }

  lemma {:induction false} NormShows(t: GoType, v: GoValue, i: nat)
    requires t.TStruct? && HasType(t, v) && Supported(t) && i < |t.fields|
    ensures Shown(t, Norm(t, v), i) <==>
              Shown(t, v, i) && !(OmitEmpty(t.fields[i]) && HollowContent(t.fields[i].typ, v.vals[i]))
  {
    if Shown(t, v, i) {
      NormOmitted(t.fields[i], v.vals[i]);
    }
    hide HasType, HollowContent;
  }

  lemma {:induction false} FieldNormEncodes(t: GoType, v: GoValue)
    requires HasType(t, v) && Supported(t) && Walk(FieldNode(t, v)).Some?
    ensures Walk(FieldNode(t, NormShown(t, v))) == Walk(FieldNode(t, v)) <==>
              if t.TPtr? then v.VNilPtr? || Steady(t.elem, v.to) else Steady(t, v)
    decreases t, 2
  {
    if !t.TPtr? {
      NormEncodes(BuildNode(t, v));
      assert Renormed(BuildNode(t, v)) == FieldNode(t, NormShown(t, v));
    } else if v.VPtr? {
      if !SeenAsNull(t.elem, v.to) {
        NormEncodes(BuildNode(t.elem, v.to));
        assert Renormed(BuildNode(t.elem, v.to)) == FieldNode(t, NormShown(t, v));
      }
    }
  }

  lemma {:induction false} FieldKeptIfSteady(t: GoType, v: GoValue, i: nat)
    requires t.TStruct? && HasType(t, v) && Supported(t) && Shown(t, v, i) && Walk(NodeOfField(t, v, i)).Some?
    ensures FieldKept(t, v, Norm(t, v), i) <==> SteadyField(t.fields[i], v.vals[i])
    decreases t, 0, 0
  {
    NormShows(t, v, i);
    FieldNormEncodes(t.fields[i].typ, v.vals[i]);
    hide Walk, HasType, HollowContent, Steady;
  }

  lemma {:induction false} StructNormEncodes(n: Node)
    requires Typed(n) && !n.NullNode? && Supported(n.t) && n.t.TStruct? && Walk(n).Some?
    ensures Walk(Renormed(n)) == Walk(n) <==> Steady(n.t, n.v)
    decreases n.t, 0, 1
  {
    var t, v, w := n.t, n.v, Norm(n.t, n.v);
    WalkIsEntries(n);
    WalkIsEntries(Renormed(n));
    hide Walk, Norm, Renormed;
    forall i | 0 <= i < |t.fields|
      ensures Shown(t, w, i) ==> Shown(t, v, i)
    {
      NormShows(t, v, i);
    }
    EntriesAgree(t, v, w, |t.fields|);
    forall i | 0 <= i < |t.fields| && Shown(t, v, i)
      ensures FieldKept(t, v, w, i) <==> SteadyField(t.fields[i], v.vals[i])
    {
      ShownWalks(n, i);
      FieldKeptIfSteady(t, v, i);
    }
    hide Entries, Pairs, HasType, FieldKept, SteadyField, Omitted;
  }

  lemma {:induction false} ShownWalks(n: Node, i: nat)
    requires Typed(n) && !n.NullNode? && n.t.TStruct? && Walk(n).Some? && Shown(n.t, n.v, i)
    ensures Walk(NodeOfField(n.t, n.v, i)).Some?
  {
    StructTree(n, Walk(n).value);
    hide Walk, HasType, Pairs, NodeOfField;
    var j := FieldHasPair(n.t, n.v, |n.t.fields|, i);
  }

  // ---------------------------------------------------------------- normalising again

  /** No pointer tagged omitempty points to hollow content that is shown, except for empty bytes. */
  predicate Settled(t: GoType, v: GoValue)
    requires HasType(t, v)
    decreases t, 0
  {
    match t
    case TSlice(e) => forall i :: 0 <= i < |Elements(v)| ==> Settled(e, Elements(v)[i])
    case TStruct(fs) => forall i :: 0 <= i < |fs| && !Omitted(fs[i], v.vals[i]) ==> SettledField(fs[i], v.vals[i])
    case _ => true
  }

  predicate SettledField(f: Field, v: GoValue)
    requires HasType(f.typ, v)
    decreases f.typ, 1
  {
    if f.typ.TPtr? then
      || v.VNilPtr?
      || SeenAsNull(f.typ.elem, v.to)
      || (!(OmitEmpty(f) && Hollow(f.typ.elem, v.to)) && Settled(f.typ.elem, v.to))
    else (OmitEmpty(f) && Hollow(f.typ, v)) || Settled(f.typ, v)
  }

  lemma {:induction false} NormTwice(t: GoType, v: GoValue)
    requires HasType(t, v) && Supported(t)
    ensures Norm(t, Norm(t, v)) == Norm(t, v) <==> Settled(t, v)
    decreases t, 1
  {
    if t.TSlice? {
      ListNormTwice(t, v);
    } else if t.TStruct? {
      StructNormTwice(t, v);
    }
  }

  lemma {:induction false} ListNormTwice(t: GoType, v: GoValue)
    requires HasType(t, v) && Supported(t) && t.TSlice?
    ensures Norm(t, Norm(t, v)) == Norm(t, v) <==> Settled(t, v)
    decreases t, 0
  {
    var e, xs, ys := t.elem, Elements(v), Norm(t, v).elems;
    var zs := Norm(t, Norm(t, v)).elems;
    forall i | 0 <= i < |xs|
      ensures zs[i] == ys[i] <==> Settled(e, xs[i])
    {
      NormTwice(e, xs[i]);
    }
    assert |zs| == |ys| == |xs|;
    if forall i :: 0 <= i < |xs| ==> zs[i] == ys[i] {
      assert zs == ys;
    }
    hide HasType;
  }

  lemma {:induction false} StructNormTwice(t: GoType, v: GoValue)
    requires HasType(t, v) && Supported(t) && t.TStruct?
    ensures Norm(t, Norm(t, v)) == Norm(t, v) <==> Settled(t, v)
    decreases t, 0
  {
    var fs, xs, ys := t.fields, v.vals, Norm(t, v).vals;
    var zs := Norm(t, Norm(t, v)).vals;
    forall i | 0 <= i < |fs|
      ensures zs[i] == ys[i] <==> Omitted(fs[i], xs[i]) || SettledField(fs[i], xs[i])
    {
      FieldNormTwice(fs[i], xs[i]);
    }
    assert |zs| == |ys| == |fs|;
    if forall i :: 0 <= i < |fs| ==> zs[i] == ys[i] {
      assert zs == ys;
    }
    hide HasType, SettledField;
  }

  lemma {:induction false} FieldNormTwice(f: Field, v: GoValue)
    requires HasType(f.typ, v) && Supported(f.typ)
    ensures NormField(f, NormField(f, v)) == NormField(f, v) <==> Omitted(f, v) || SettledField(f, v)
    decreases f.typ, 2
  {
    if !Omitted(f, v) {
      if f.typ.TPtr? {
        if v.VPtr? && !SeenAsNull(f.typ.elem, v.to) {
          HollowIsZero(f.typ.elem, v.to);
          NormTwice(f.typ.elem, v.to);
          NormSeenAsNull(f.typ.elem, v.to);
        }
      } else {
        HollowIsZero(f.typ, v);
        NormTwice(f.typ, v);
      }
    }
  }

  lemma {:induction false} NormSeenAsNull(t: GoType, v: GoValue)
    requires HasType(t, v)
    ensures SeenAsNull(t, Norm(t, v)) <==> SeenAsNull(t, v)
  {
  }

  // ---------------------------------------------------------------- summary

  /** No field of the type, however deep, is tagged omitempty. */
  predicate NeverOmits(t: GoType)
    decreases t
  {
    match t
    case TPtr(e) => NeverOmits(e)
    case TSlice(e) => NeverOmits(e)
    case TStruct(fs) => forall i :: 0 <= i < |fs| ==> !OmitEmpty(fs[i]) && NeverOmits(fs[i].typ)
    case _ => true
  }

  lemma {:induction false} NothingVanishes(t: GoType, v: GoValue)
    requires HasType(t, v) && NeverOmits(t)
    ensures Steady(t, v) && Settled(t, v)
    decreases t, 1
  {
    if t.TSlice? {
      forall i | 0 <= i < |Elements(v)|
        ensures Steady(t.elem, Elements(v)[i]) && Settled(t.elem, Elements(v)[i])
      {
        NothingVanishes(t.elem, Elements(v)[i]);
      }
    } else if t.TStruct? {
      forall i | 0 <= i < |t.fields|
        ensures SteadyField(t.fields[i], v.vals[i]) && SettledField(t.fields[i], v.vals[i])
      {
        FieldStays(t.fields[i], v.vals[i]);
      }
    }
  }

  lemma {:induction false} FieldStays(f: Field, v: GoValue)
    requires HasType(f.typ, v) && NeverOmits(f.typ) && !OmitEmpty(f)
    ensures SteadyField(f, v) && SettledField(f, v)
    decreases f.typ, 2
  {
    if f.typ.TPtr? {
      if v.VPtr? {
        NothingVanishes(f.typ.elem, v.to);
      }
    } else {
      NothingVanishes(f.typ, v);
    }
  }

  /**
   Normalising a value that can be encoded keeps its encoding exactly for the steady values, and a
   second normalisation changes nothing exactly for the settled ones; without omitempty all values
   are both.
   */
  lemma {:induction false} NormLaws(t: GoType, v: GoValue)
    requires HasType(t, v) && Supported(t)
    ensures Walk(BuildNode(t, v)).Some? ==> (Walk(BuildNode(t, Norm(t, v))) == Walk(BuildNode(t, v)) <==> Steady(t, v))
    ensures Norm(t, Norm(t, v)) == Norm(t, v) <==> Settled(t, v)
    ensures NeverOmits(t) ==> Steady(t, v) && Settled(t, v)
  {
    if Walk(BuildNode(t, v)).Some? {
      NormEncodes(BuildNode(t, v));
    }
    NormTwice(t, v);
    if NeverOmits(t) {
      NothingVanishes(t, v);
    }
  }

  /** An empty byte slice tagged omitempty is encoded as null, decoded as nil, and then left out. */
  lemma {:induction false} EmptyBytesVanish(t: GoType, v: GoValue)
    requires HasType(t, v) && t.TStruct? && |t.fields| == 1
    requires t.fields[0].typ.TBytes? && OmitEmpty(t.fields[0]) && v.vals[0] == VBytes([])
    ensures Walk(BuildNode(t, v)) == Some(Map([Entry(Key(t.fields[0]), Null)]))
    ensures Norm(t, v).vals[0] == VNilBytes
    ensures Walk(BuildNode(t, Norm(t, v))) == Some(Map([]))
  {
    var w := Norm(t, v);
    assert w.vals[0] == NormField(t.fields[0], v.vals[0]) == VNilBytes;
    assert Entries(t, v, 0) == Some([]) && Entries(t, w, 0) == Some([]);
    assert Shown(t, v, 0) && !Shown(t, w, 0);
    assert NodeOfField(t, v, 0) == Plain(TBytes, VBytes([]));
    assert Walk(NodeOfField(t, v, 0)) == Some(Null);
    EntriesStep(t, v, 1);
    EntriesStep(t, w, 1);
    assert Entries(t, v, 1).value == [Entry(Key(t.fields[0]), Null)];
    WalkIsEntries(BuildNode(t, v));
    WalkIsEntries(BuildNode(t, w));
    hide Walk, Entries, HasType, Norm, Pairs;
  }
}
