/**
 `dataDiff`: the net effect of changes to the leaves of a repository and to the blocks of its tree,
 kept in sets of CIDs while the changes come in.
 */
module DataDiff {
  import opened Blocks
  import opened Collections

  type Key = string

  datatype Update = Update(prev: Cid, cid: Cid)

  /** What a `dataDiff` holds. */
  datatype Diff = Diff(
    adds: map<Key, Cid>,
    updates: map<Key, Update>,
    deletes: map<Key, Cid>,
    newBlocks: map<Cid, Block>,
    newLeaves: set<Cid>,
    removed: set<Cid>)

  const EMPTY := Diff(map[], map[], map[], map[], {}, {})

  datatype Op =
    | LeafAdd(key: Key, cid: Cid)
    | LeafUpdate(key: Key, prev: Cid, cid: Cid)
    | LeafDelete(key: Key, cid: Cid)
    | TreeAdd(cid: Cid, block: Block)
    | TreeDelete(cid: Cid)

  function Apply(d: Diff, op: Op): Diff {
    match op
    case LeafAdd(key, c) =>
      var e := d.(adds := d.adds[key := c]);
      if c in d.removed then e.(removed := d.removed - {c}) else e.(newLeaves := d.newLeaves + {c})
    case LeafUpdate(key, prev, c) =>
      if prev == c then d
      else d.(updates := d.updates[key := Update(prev, c)], removed := d.removed + {prev}, newLeaves := d.newLeaves + {c})
    case LeafDelete(key, c) =>
      var e := d.(deletes := d.deletes[key := c]);
      if c in d.newLeaves then e.(newLeaves := d.newLeaves - {c}) else e.(removed := d.removed + {c})
    case TreeAdd(c, b) =>
      if c in d.removed then d.(removed := d.removed - {c}) else d.(newBlocks := d.newBlocks[c := b])
    case TreeDelete(c) =>
      if c in d.newBlocks then d.(newBlocks := d.newBlocks - {c}) else d.(removed := d.removed + {c})
  }

  /** `dataDiff` with its methods; the set operations and the block map are updated in place. */
  class DataDiff {
    var adds: map<Key, Cid>
    var updates: map<Key, Update>
    var deletes: map<Key, Cid>
    var newBlocks: map<Cid, Block>
    var newLeaves: set<Cid>
    var removed: set<Cid>

    ghost function View(): Diff
      reads this
    {
      Diff(adds, updates, deletes, newBlocks, newLeaves, removed)
    }

    constructor ()
      ensures View() == EMPTY
    {
      adds, updates, deletes := map[], map[], map[];
      newBlocks, newLeaves, removed := map[], {}, {};
    }

    method LeafAdd(key: Key, cid: Cid)
      modifies this
      ensures View() == Apply(old(View()), Op.LeafAdd(key, cid))
    {
      adds := adds[key := cid];
      if cid in removed {
        removed := removed - {cid};
      } else {
        newLeaves := newLeaves + {cid};
      }
    }

    method LeafUpdate(key: Key, prev: Cid, cid: Cid)
      modifies this
      ensures View() == Apply(old(View()), Op.LeafUpdate(key, prev, cid))
    {
      if prev == cid {
        return;
      }
      updates := updates[key := Update(prev, cid)];
      removed := removed + {prev};
      newLeaves := newLeaves + {cid};
    }

    method LeafDelete(key: Key, cid: Cid)
      modifies this
      ensures View() == Apply(old(View()), Op.LeafDelete(key, cid))
    {
      deletes := deletes[key := cid];
      if cid in newLeaves {
        newLeaves := newLeaves - {cid};
      } else {
        removed := removed + {cid};
      }
    }

    method TreeAdd(cid: Cid, block: Block)
      modifies this
      ensures View() == Apply(old(View()), Op.TreeAdd(cid, block))
    {
      if cid in removed {
        removed := removed - {cid};
      } else {
        newBlocks := newBlocks[cid := block];
      }
    }

    method TreeDelete(cid: Cid)
      modifies this
      ensures View() == Apply(old(View()), Op.TreeDelete(cid))
    {
      if cid in newBlocks {
        newBlocks := newBlocks - {cid};
      } else {
        removed := removed + {cid};
      }
    }
  }

  function Fold(d: Diff, ops: seq<Op>): Diff {
    if ops == [] then d else Apply(Fold(d, ops[..|ops| - 1]), ops[|ops| - 1])
  }

  // ---------------------------------------------------------------- leaves

  /** The change of one key between two maps. */
  function ChangeOf(from: map<Key, Cid>, to: map<Key, Cid>, key: Key): Op
    requires key in from || key in to
  {
    if key !in from then Op.LeafAdd(key, to[key])
    else if key !in to then Op.LeafDelete(key, from[key])
    else Op.LeafUpdate(key, from[key], to[key])
  }

  /** The changes of `keys`, in that order. */
  function Changes(from: map<Key, Cid>, to: map<Key, Cid>, keys: seq<Key>): (ops: seq<Op>)
    requires KeysOf(from, to, keys)
    ensures |ops| == |keys|
  {
    seq(|keys|, i requires 0 <= i < |keys| => ChangeOf(from, to, keys[i]))
  }

  // The keys that lose the CID `c` by their deletion or by a change, gain it likewise, and keep it.

  function Deleted(from: map<Key, Cid>, to: map<Key, Cid>, c: Cid): set<Key> {
    set k | k in from && from[k] == c && k !in to
  }

  function ChangedFrom(from: map<Key, Cid>, to: map<Key, Cid>, c: Cid): set<Key> {
    set k | k in from && from[k] == c && k in to && to[k] != c
  }

  function Added(from: map<Key, Cid>, to: map<Key, Cid>, c: Cid): set<Key> {
    set k | k in to && to[k] == c && k !in from
  }

  function ChangedTo(from: map<Key, Cid>, to: map<Key, Cid>, c: Cid): set<Key> {
    set k | k in to && to[k] == c && k in from && from[k] != c
  }

  function Kept(from: map<Key, Cid>, to: map<Key, Cid>, c: Cid): set<Key> {
    set k | k in from && from[k] == c && k in to && to[k] == c
  }

  function Losing(from: map<Key, Cid>, to: map<Key, Cid>, c: Cid): set<Key> {
    Deleted(from, to, c) + ChangedFrom(from, to, c)
  }

  function Gaining(from: map<Key, Cid>, to: map<Key, Cid>, c: Cid): set<Key> {
    Added(from, to, c) + ChangedTo(from, to, c)
  }

  /** Whether a CID is in the two sets. */
  datatype Bits = Bits(removed: bool, isNew: bool)

  const NOWHERE := Bits(false, false)

  function BitsOf(d: Diff, c: Cid): Bits {
    Bits(c in d.removed, c in d.newLeaves)
  }

  /** What the change of a key is for one CID. */
  datatype Turn = Add | ChangeTo | Delete | ChangeFrom | Other

  function TurnOf(from: map<Key, Cid>, to: map<Key, Cid>, c: Cid, k: Key): (t: Turn)
    ensures t.Add? <==> k in Added(from, to, c)
    ensures t.ChangeTo? <==> k in ChangedTo(from, to, c)
    ensures t.Delete? <==> k in Deleted(from, to, c)
    ensures t.ChangeFrom? <==> k in ChangedFrom(from, to, c)
  {
    var had, has := k in from && from[k] == c, k in to && to[k] == c;
    if had == has then Other
    else if has then (if k in from then ChangeTo else Add)
    else if k in to then ChangeFrom else Delete
  }

  function TurnBits(b: Bits, t: Turn): Bits {
    match t
    case Add => if b.removed then b.(removed := false) else b.(isNew := true)
    case ChangeTo => b.(isNew := true)
    case Delete => if b.isNew then b.(isNew := false) else b.(removed := true)
    case ChangeFrom => b.(removed := true)
    case Other => b
  }

  /** The two bits of `c` after the changes of `keys` in that order. */
  function RunBits(from: map<Key, Cid>, to: map<Key, Cid>, c: Cid, keys: seq<Key>, b: Bits): Bits {
    if keys == [] then b
    else TurnBits(RunBits(from, to, c, keys[..|keys| - 1], b), TurnOf(from, to, c, keys[|keys| - 1]))
  }

  lemma ApplyBits(from: map<Key, Cid>, to: map<Key, Cid>, c: Cid, k: Key, d: Diff)
    requires k in from || k in to
    ensures BitsOf(Apply(d, ChangeOf(from, to, k)), c) == TurnBits(BitsOf(d, c), TurnOf(from, to, c, k))
  {
  }

  lemma {:induction false} FoldBits(from: map<Key, Cid>, to: map<Key, Cid>, c: Cid, keys: seq<Key>)
    requires KeysOf(from, to, keys)
    ensures BitsOf(Fold(EMPTY, Changes(from, to, keys)), c) == RunBits(from, to, c, keys, NOWHERE)
  {
    if keys == [] {
      assert Changes(from, to, keys) == [];
      return;
    }
    var n := |keys| - 1;
    ChangesStep(from, to, keys);
    hide Elems;
    FoldBits(from, to, c, keys[..n]);
    ApplyBits(from, to, c, keys[n], Fold(EMPTY, Changes(from, to, keys[..n])));
    hide Apply, Fold, Changes, TurnOf, TurnBits;
  }

  /** How many keys of each kind were seen. */
  datatype Tally = Tally(added: nat, changedTo: nat, deleted: nat, changedFrom: nat)

  function TallyOf(from: map<Key, Cid>, to: map<Key, Cid>, c: Cid, seen: set<Key>): Tally {
    Tally(|Added(from, to, c) * seen|, |ChangedTo(from, to, c) * seen|,
          |Deleted(from, to, c) * seen|, |ChangedFrom(from, to, c) * seen|)
  }

  function OneMore(n: nat, b: bool): nat {
    if b then n + 1 else n
  }

  lemma CountOneMore(s: set<Key>, seen: set<Key>, k: Key)
    requires k !in seen
    ensures |s * (seen + {k})| == OneMore(|s * seen|, k in s)
  {
    assert s * (seen + {k}) == if k in s then s * seen + {k} else s * seen;
  }

  /** What the two bits of a CID tell of the keys seen, whatever the order. */
  predicate BitsInv(b: Bits, t: Tally) {
    var gained, lost := t.added + t.changedTo, t.deleted + t.changedFrom;
    && (gained == 0 ==> !b.isNew && (b.removed <==> lost > 0))
    && (lost == 0 ==> !b.removed && (b.isNew <==> gained > 0))
    && (gained > 0 && lost <= 1 ==> !b.removed || b.isNew)
    && (t.deleted == 0 && t.changedTo > 0 ==> b.isNew)
    && (t.deleted == 0 && t.changedTo == 0 ==> b.isNew || t.changedFrom >= OneMore(t.added, b.removed))
  }

  lemma TurnKeepsInv(from: map<Key, Cid>, to: map<Key, Cid>, c: Cid, seen: set<Key>, k: Key, b: Bits)
    requires k !in seen && BitsInv(b, TallyOf(from, to, c, seen))
    ensures BitsInv(TurnBits(b, TurnOf(from, to, c, k)), TallyOf(from, to, c, seen + {k}))
  {
    CountOneMore(Added(from, to, c), seen, k);
    CountOneMore(ChangedTo(from, to, c), seen, k);
    CountOneMore(Deleted(from, to, c), seen, k);
    CountOneMore(ChangedFrom(from, to, c), seen, k);
    var t := TurnOf(from, to, c, k);
    hide Added, ChangedTo, Deleted, ChangedFrom;
  }

  /** The bits after any part of the changes, in any order. */
  lemma {:induction false} RunBitsInv(from: map<Key, Cid>, to: map<Key, Cid>, c: Cid, keys: seq<Key>)
    requires Distinct(keys)
    ensures BitsInv(RunBits(from, to, c, keys, NOWHERE), TallyOf(from, to, c, Elems(keys)))
  {
    if keys == [] {
      assert Elems(keys) == {};
      return;
    }
    var n := |keys| - 1;
    assert keys == keys[..n] + [keys[n]];
    assert Elems(keys) == Elems(keys[..n]) + {keys[n]};
    RunBitsInv(from, to, c, keys[..n]);
    TurnKeepsInv(from, to, c, Elems(keys[..n]), keys[n], RunBits(from, to, c, keys[..n], NOWHERE));
    hide BitsInv, TallyOf, TurnBits, TurnOf;
  }

  /** The tables list a key that was seen if it was added, deleted or changed. */
  predicate TablesAt(from: map<Key, Cid>, to: map<Key, Cid>, seen: bool, d: Diff, k: Key) {
    && (k in d.adds <==> seen && k in to && k !in from)
    && (k in d.adds ==> d.adds[k] == to[k])
    && (k in d.deletes <==> seen && k in from && k !in to)
    && (k in d.deletes ==> d.deletes[k] == from[k])
    && (k in d.updates <==> seen && k in from && k in to && from[k] != to[k])
    && (k in d.updates ==> d.updates[k] == Update(from[k], to[k]))
  }

  ghost predicate TablesInv(from: map<Key, Cid>, to: map<Key, Cid>, seen: set<Key>, d: Diff) {
    d.newBlocks == map[] && forall k :: TablesAt(from, to, k in seen, d, k)
  }

  lemma ChangeKeepsTables(from: map<Key, Cid>, to: map<Key, Cid>, seen: set<Key>, d: Diff, k: Key)
    requires (k in from || k in to) && k !in seen
    requires TablesInv(from, to, seen, d)
    ensures TablesInv(from, to, seen + {k}, Apply(d, ChangeOf(from, to, k)))
  {
    var e := Apply(d, ChangeOf(from, to, k));
    forall x
      ensures TablesAt(from, to, x in seen + {k}, e, x)
    {
      assert TablesAt(from, to, x in seen, d, x);
    }
  }

  predicate KeysOf(from: map<Key, Cid>, to: map<Key, Cid>, keys: seq<Key>) {
    Distinct(keys) && forall i :: 0 <= i < |keys| ==> keys[i] in from || keys[i] in to
  }

  lemma ChangesStep(from: map<Key, Cid>, to: map<Key, Cid>, keys: seq<Key>)
    requires keys != [] && KeysOf(from, to, keys)
    ensures var n := |keys| - 1;
            && KeysOf(from, to, keys[..n]) && keys[n] !in Elems(keys[..n]) && Elems(keys) == Elems(keys[..n]) + {keys[n]}
            && Fold(EMPTY, Changes(from, to, keys)) == Apply(Fold(EMPTY, Changes(from, to, keys[..n])), ChangeOf(from, to, keys[n]))
  {
    var n := |keys| - 1;
    assert keys == keys[..n] + [keys[n]];
    assert Changes(from, to, keys)[..n] == Changes(from, to, keys[..n]);
    hide Apply, ChangeOf;
  }

  /** After any part of the changes, in any order, the sets and the tables tell of the keys seen. */
  lemma {:induction false} ChangesKeepInv(from: map<Key, Cid>, to: map<Key, Cid>, keys: seq<Key>)
    requires KeysOf(from, to, keys)
    ensures var d := Fold(EMPTY, Changes(from, to, keys));
            && TablesInv(from, to, Elems(keys), d)
            && forall c :: BitsInv(BitsOf(d, c), TallyOf(from, to, c, Elems(keys)))
  {
    TablesKept(from, to, keys);
    var d := Fold(EMPTY, Changes(from, to, keys));
    forall c
      ensures BitsInv(BitsOf(d, c), TallyOf(from, to, c, Elems(keys)))
    {
      FoldBits(from, to, c, keys);
      RunBitsInv(from, to, c, keys);
    }
  }

  lemma {:induction false} TablesKept(from: map<Key, Cid>, to: map<Key, Cid>, keys: seq<Key>)
    requires KeysOf(from, to, keys)
    ensures TablesInv(from, to, Elems(keys), Fold(EMPTY, Changes(from, to, keys)))
  {
    if keys == [] {
      assert Changes(from, to, keys) == [];
      return;
    }
    var n := |keys| - 1;
    ChangesStep(from, to, keys);
    TablesKept(from, to, keys[..n]);
    hide TablesInv, Apply, Fold, Changes, Elems;
    ChangeKeepsTables(from, to, Elems(keys[..n]), Fold(EMPTY, Changes(from, to, keys[..n])), keys[n]);
  }

  /** The old CIDs without the removed and with the new are the new CIDs. */
  predicate LeafLaw(from: map<Key, Cid>, to: map<Key, Cid>, d: Diff) {
    (from.Values - d.removed) + d.newLeaves == to.Values
  }

  predicate LawAt(from: map<Key, Cid>, to: map<Key, Cid>, b: Bits, c: Cid) {
    (c in from.Values && !b.removed) || b.isNew <==> c in to.Values
  }

  /**
   The changes may come in any order, as far as `c` goes: no key keeps what others only lose; and where
   keys gain what others lose, one key loses it, or none by deletion and either some key changes to it
   or no more keys lose it than it is added under.
   */
  predicate AnyOrder(from: map<Key, Cid>, to: map<Key, Cid>, c: Cid) {
    var lost := Losing(from, to, c);
    if Gaining(from, to, c) == {} then lost == {} || Kept(from, to, c) == {}
    else
      || |lost| <= 1
      || (&& Deleted(from, to, c) == {}
          && (ChangedTo(from, to, c) != {} || |ChangedFrom(from, to, c)| <= |Added(from, to, c)|))
  }

  lemma InValues(from: map<Key, Cid>, to: map<Key, Cid>, c: Cid)
    ensures c in from.Values <==> Losing(from, to, c) + Kept(from, to, c) != {}
    ensures c in to.Values <==> Gaining(from, to, c) + Kept(from, to, c) != {}
  {
    if c in from.Values {
      var k :| k in from && from[k] == c;
      assert k in Losing(from, to, c) + Kept(from, to, c);
    }
    if c in to.Values {
      var k :| k in to && to[k] == c;
      assert k in Gaining(from, to, c) + Kept(from, to, c);
    }
  }

  /** All keys seen. */
  lemma WholeTally(from: map<Key, Cid>, to: map<Key, Cid>, c: Cid)
    ensures var t := TallyOf(from, to, c, from.Keys + to.Keys);
            && t.added == |Added(from, to, c)| && t.changedTo == |ChangedTo(from, to, c)|
            && t.deleted == |Deleted(from, to, c)| && t.changedFrom == |ChangedFrom(from, to, c)|
            && t.added + t.changedTo == |Gaining(from, to, c)| && t.deleted + t.changedFrom == |Losing(from, to, c)|
  {
    var all := from.Keys + to.Keys;
    assert Added(from, to, c) * all == Added(from, to, c) && ChangedTo(from, to, c) * all == ChangedTo(from, to, c);
    assert Deleted(from, to, c) * all == Deleted(from, to, c) && ChangedFrom(from, to, c) * all == ChangedFrom(from, to, c);
    assert Added(from, to, c) !! ChangedTo(from, to, c) && Deleted(from, to, c) !! ChangedFrom(from, to, c);
  }

  lemma LawHolds(from: map<Key, Cid>, to: map<Key, Cid>, c: Cid, b: Bits)
    requires BitsInv(b, TallyOf(from, to, c, from.Keys + to.Keys))
    ensures AnyOrder(from, to, c) ==> LawAt(from, to, b, c)
    ensures (b.removed ==> c in from.Values) && (b.isNew ==> c in to.Values)
  {
    WholeTally(from, to, c);
    InValues(from, to, c);
    hide TallyOf, Added, ChangedTo, Deleted, ChangedFrom, Kept;
  }

  /**
   Whatever the order of the changes: the removed CIDs are old ones and the new leaves new ones, the
   tables list the keys added, deleted and changed, and the law holds if the changes may come in any
   order.
   */
  lemma LeavesInAnyOrder(from: map<Key, Cid>, to: map<Key, Cid>, keys: seq<Key>)
    requires KeysOf(from, to, keys) && Elems(keys) == from.Keys + to.Keys
    ensures var d := Fold(EMPTY, Changes(from, to, keys));
            && d.removed <= from.Values && d.newLeaves <= to.Values
            && TablesInv(from, to, from.Keys + to.Keys, d)
            && ((forall c :: AnyOrder(from, to, c)) ==> LeafLaw(from, to, d))
  {
    hide AnyOrder, BitsInv, TallyOf, TablesInv, Fold, Changes, Elems;
    ChangesKeepInv(from, to, keys);
    var d := Fold(EMPTY, Changes(from, to, keys));
    forall c
      ensures AnyOrder(from, to, c) ==> (c in (from.Values - d.removed) + d.newLeaves <==> c in to.Values)
      ensures (c in d.removed ==> c in from.Values) && (c in d.newLeaves ==> c in to.Values)
    {
      LawHolds(from, to, c, BitsOf(d, c));
    }
  }

  // ---------------------------------------------------------------- an order that breaks the law

  lemma {:induction false} RunBitsConcat(from: map<Key, Cid>, to: map<Key, Cid>, c: Cid, xs: seq<Key>, ys: seq<Key>, b: Bits)
    ensures RunBits(from, to, c, xs + ys, b) == RunBits(from, to, c, ys, RunBits(from, to, c, xs, b))
  {
    if ys == [] {
      assert xs + ys == xs;
    } else {
      assert (xs + ys)[..|xs + ys| - 1] == xs + ys[..|ys| - 1];
      RunBitsConcat(from, to, c, xs, ys[..|ys| - 1], b);
    }
  }

  lemma GainBits(from: map<Key, Cid>, to: map<Key, Cid>, c: Cid, k: Key, isNew: bool)
    requires k in Gaining(from, to, c)
    ensures TurnBits(Bits(false, isNew), TurnOf(from, to, c, k)) == Bits(false, true)
  {
  }

  lemma LoseBits(from: map<Key, Cid>, to: map<Key, Cid>, c: Cid, k: Key, removed: bool)
    requires k in Losing(from, to, c)
    ensures TurnBits(Bits(removed, false), TurnOf(from, to, c, k)) == Bits(true, false)
  {
  }

  /** Keys of one side after another, from nowhere: all that gain the CID. */
  lemma {:induction false} AllGain(from: map<Key, Cid>, to: map<Key, Cid>, c: Cid, keys: seq<Key>)
    requires Elems(keys) <= Gaining(from, to, c)
    ensures RunBits(from, to, c, keys, NOWHERE) == Bits(false, keys != [])
  {
    hide Gaining, TurnOf, TurnBits;
    if keys != [] {
      var n := |keys| - 1;
      LastElem(keys);
      AllGain(from, to, c, keys[..n]);
      GainBits(from, to, c, keys[n], keys[..n] != []);
    }
  }

  /** The same for all that lose it. */
  lemma {:induction false} AllLose(from: map<Key, Cid>, to: map<Key, Cid>, c: Cid, keys: seq<Key>)
    requires Elems(keys) <= Losing(from, to, c)
    ensures RunBits(from, to, c, keys, NOWHERE) == Bits(keys != [], false)
  {
    hide Losing, TurnOf, TurnBits;
    if keys != [] {
      var n := |keys| - 1;
      LastElem(keys);
      AllLose(from, to, c, keys[..n]);
      LoseBits(from, to, c, keys[n], keys[..n] != []);
    }
  }

  lemma LastElem(keys: seq<Key>)
    requires keys != []
    ensures Elems(keys) == Elems(keys[..|keys| - 1]) + {keys[|keys| - 1]}
  {
    assert keys == keys[..|keys| - 1] + [keys[|keys| - 1]];
  }

  lemma {:induction false} NoSide(from: map<Key, Cid>, to: map<Key, Cid>, c: Cid, keys: seq<Key>, b: Bits)
    requires Elems(keys) !! Gaining(from, to, c) + Losing(from, to, c)
    ensures RunBits(from, to, c, keys, b) == b
  {
    if keys != [] {
      var n := |keys| - 1;
      LastElem(keys);
      assert TurnOf(from, to, c, keys[n]) == Other;
      hide Gaining, Losing, TurnOf;
      NoSide(from, to, c, keys[..n], b);
    }
  }

  /** Keys that change from `c` with the keys `c` is added under in between, and more of the former. */
  lemma {:induction false} Alternate(from: map<Key, Cid>, to: map<Key, Cid>, c: Cid, us: seq<Key>, vs: seq<Key>)
    returns (keys: seq<Key>)
    requires |us| > |vs| && Distinct(us) && Distinct(vs)
    requires Elems(us) <= ChangedFrom(from, to, c) && Elems(vs) <= Added(from, to, c)
    ensures Distinct(keys) && Elems(keys) == Elems(us) + Elems(vs)
    ensures RunBits(from, to, c, keys, NOWHERE) == Bits(true, false)
    decreases |vs|
  {
    if vs == [] {
      AllLose(from, to, c, us);
      return us;
    }
    var pair := [us[0], vs[0]];
    FirstPair(from, to, c, us, vs);
    var rest := Alternate(from, to, c, us[1..], vs[1..]);
    keys := pair + rest;
    DistinctConcat(pair, rest);
    RunBitsConcat(from, to, c, pair, rest, NOWHERE);
  }

  lemma {:induction false} FirstPair(from: map<Key, Cid>, to: map<Key, Cid>, c: Cid, us: seq<Key>, vs: seq<Key>)
    requires us != [] && vs != [] && Distinct(us) && Distinct(vs)
    requires Elems(us) <= ChangedFrom(from, to, c) && Elems(vs) <= Added(from, to, c)
    ensures var pair := [us[0], vs[0]];
            && Distinct(pair) && Elems(pair) !! Elems(us[1..]) + Elems(vs[1..])
            && Elems(us) + Elems(vs) == Elems(pair) + (Elems(us[1..]) + Elems(vs[1..]))
            && Elems(us[1..]) <= Elems(us) && Elems(vs[1..]) <= Elems(vs)
            && RunBits(from, to, c, pair, NOWHERE) == NOWHERE
  {
    FirstKey(us);
    FirstKey(vs);
    assert ChangedFrom(from, to, c) !! Added(from, to, c);
    assert us[0] in Elems(us) && vs[0] in Elems(vs);
    hide ChangedFrom, Added;
    var pair := [us[0], vs[0]];
    assert Elems(pair) == {us[0], vs[0]};
    assert pair[..1] == [us[0]] && pair[..1][..0] == [];
    assert RunBits(from, to, c, pair[..1], NOWHERE) == Bits(true, false);
  }

  lemma FirstKey(us: seq<Key>)
    requires us != [] && Distinct(us)
    ensures Elems(us) == {us[0]} + Elems(us[1..]) && us[0] !in Elems(us[1..]) && Distinct(us[1..])
  {
    assert us == [us[0]] + us[1..];
  }

  /** Where the condition fails, some order of all the changes leaves the CID removed, and a key still holds it. */
  lemma {:induction false} BreakingOrder(from: map<Key, Cid>, to: map<Key, Cid>, c: Cid) returns (keys: seq<Key>)
    requires !AnyOrder(from, to, c)
    ensures Distinct(keys) && Elems(keys) == from.Keys + to.Keys
    ensures RunBits(from, to, c, keys, NOWHERE) == Bits(true, false) && c in to.Values
  {
    hide Deleted, ChangedFrom, Added, ChangedTo, Kept, Elems, Distinct, RunBits;
    InValues(from, to, c);
    var turning := TurningOrder(from, to, c);
    var moved, all := Gaining(from, to, c) + Losing(from, to, c), from.Keys + to.Keys;
    var others := Enumerate(all - moved);
    MovedInMaps(from, to, c);
    DistinctConcat(turning, others);
    RunBitsConcat(from, to, c, turning, others, NOWHERE);
    NoSide(from, to, c, others, RunBits(from, to, c, turning, NOWHERE));
    keys := turning + others;
    assert moved + (all - moved) == all;
  }

  lemma MovedInMaps(from: map<Key, Cid>, to: map<Key, Cid>, c: Cid)
    ensures Gaining(from, to, c) + Losing(from, to, c) <= from.Keys + to.Keys
  {
  }

  lemma {:induction false} TurningOrder(from: map<Key, Cid>, to: map<Key, Cid>, c: Cid) returns (keys: seq<Key>)
    requires !AnyOrder(from, to, c)
    ensures Distinct(keys) && Elems(keys) == Gaining(from, to, c) + Losing(from, to, c)
    ensures RunBits(from, to, c, keys, NOWHERE) == Bits(true, false)
  {
    hide Deleted, ChangedFrom, Added, ChangedTo, Kept, Elems, Distinct, RunBits;
    var lost, gained := Losing(from, to, c), Gaining(from, to, c);
    if gained == {} {
      keys := Enumerate(lost);
      AllLose(from, to, c, keys);
      EmptyElems(keys);
    } else if Deleted(from, to, c) != {} {
      keys := GainThenLose(from, to, c);
    } else {
      var us := Enumerate(ChangedFrom(from, to, c));
      var vs := Enumerate(Added(from, to, c));
      DistinctSize(us);
      DistinctSize(vs);
      keys := Alternate(from, to, c, us, vs);
    }
  }

  /** First all that gain the CID, then a key that is deleted with it, then the others that lose it. */
  lemma {:induction false} GainThenLose(from: map<Key, Cid>, to: map<Key, Cid>, c: Cid) returns (keys: seq<Key>)
    requires Gaining(from, to, c) != {} && Deleted(from, to, c) != {} && |Losing(from, to, c)| > 1
    ensures Distinct(keys) && Elems(keys) == Gaining(from, to, c) + Losing(from, to, c)
    ensures RunBits(from, to, c, keys, NOWHERE) == Bits(true, false)
  {
    hide *;
    var k := DeletedKey(from, to, c);
    var lost, gained := Losing(from, to, c), Gaining(from, to, c);
    var first := Enumerate(gained);
    var rest := Enumerate(lost - {k});
    AllGain(from, to, c, first);
    AllLose(from, to, c, rest);
    EmptyElems(first);
    EmptyElems(rest);
    DistinctConcat(first, [k]);
    DistinctConcat(first + [k], rest);
    RunBitsConcat(from, to, c, first, [k], NOWHERE);
    RunBitsConcat(from, to, c, first + [k], rest, NOWHERE);
    keys := first + [k] + rest;
    assert gained + {k} + (lost - {k}) == gained + lost;
  }

  lemma {:induction false} DeletedKey(from: map<Key, Cid>, to: map<Key, Cid>, c: Cid) returns (k: Key)
    requires Deleted(from, to, c) != {} && |Losing(from, to, c)| > 1
    ensures k in Losing(from, to, c) && Losing(from, to, c) - {k} != {} && Losing(from, to, c) !! Gaining(from, to, c)
    ensures Distinct([k]) && Elems([k]) == {k}
    ensures RunBits(from, to, c, [k], Bits(false, true)) == NOWHERE
  {
    k :| k in Deleted(from, to, c);
    var lost := Losing(from, to, c);
    assert lost == (lost - {k}) + {k};
    assert [k][..0] == [];
  }

  ghost predicate LawInEveryOrder(from: map<Key, Cid>, to: map<Key, Cid>) {
    forall keys :: KeysOf(from, to, keys) && Elems(keys) == from.Keys + to.Keys ==>
      LeafLaw(from, to, Fold(EMPTY, Changes(from, to, keys)))
  }

  /** So the law holds in every order of the changes exactly if the condition holds of every CID. */
  lemma {:induction false} LawInEveryOrderIff(from: map<Key, Cid>, to: map<Key, Cid>)
    ensures LawInEveryOrder(from, to) <==> forall c :: AnyOrder(from, to, c)
  {
    hide AnyOrder, Elems, Fold, Changes, RunBits, TablesInv;
    if c :| !AnyOrder(from, to, c) {
      var keys := BreakingOrder(from, to, c);
      KeysInMaps(from, to, keys);
      FoldBits(from, to, c, keys);
      assert c !in (from.Values - Fold(EMPTY, Changes(from, to, keys)).removed) + Fold(EMPTY, Changes(from, to, keys)).newLeaves;
    } else {
      forall keys | KeysOf(from, to, keys) && Elems(keys) == from.Keys + to.Keys
        ensures LeafLaw(from, to, Fold(EMPTY, Changes(from, to, keys)))
      {
        LeavesInAnyOrder(from, to, keys);
      }
    }
  }

  lemma KeysInMaps(from: map<Key, Cid>, to: map<Key, Cid>, keys: seq<Key>)
    requires Distinct(keys) && Elems(keys) == from.Keys + to.Keys
    ensures KeysOf(from, to, keys)
  {
    assert forall i :: 0 <= i < |keys| ==> keys[i] in Elems(keys);
  }

  predicate Injective(m: map<Key, Cid>) {
    forall j, k :: j in m && k in m && m[j] == m[k] ==> j == k
  }

  /** In particular where no two keys hold one CID. */
  lemma InjectiveAnyOrder(from: map<Key, Cid>, to: map<Key, Cid>, c: Cid)
    requires Injective(from) && Injective(to)
    ensures AnyOrder(from, to, c)
  {
    var lost, kept := Losing(from, to, c), Kept(from, to, c);
    assert forall j, k :: j in lost + kept && k in lost + kept ==> j == k;
    if k :| k in lost {
      assert lost <= {k};
      SubsetSize(lost, {k});
    }
  }

  /** Where two keys hold one CID and one is deleted, the CID is removed although the other still holds it. */
  lemma {:induction false} SharedCidRemoved(j: Key, k: Key, a: Cid)
    requires j != k
    ensures var d := Fold(EMPTY, Changes(map[j := a, k := a], map[j := a], [j, k]));
            d.removed == {a} && d.newLeaves == {}
  {
    var ops := Changes(map[j := a, k := a], map[j := a], [j, k]);
    assert ops[..1][..0] == [] && ops[..1][0] == ops[0];
    assert Fold(EMPTY, ops[..1]) == Apply(EMPTY, ops[0]);
  }

  /** Two keys that swap their CIDs leave both CIDs in both sets. */
  lemma SwapOverlaps(j: Key, k: Key, a: Cid, b: Cid)
    requires j != k && a != b
    ensures var d := Fold(EMPTY, Changes(map[j := a, k := b], map[j := b, k := a], [j, k]));
            d.removed == {a, b} && d.newLeaves == {a, b}
  {
    var ops := Changes(map[j := a, k := b], map[j := b, k := a], [j, k]);
    assert ops[..1][..0] == [] && ops[..1][0] == ops[0];
    assert Fold(EMPTY, ops[..1]) == Apply(EMPTY, ops[0]);
  }

  // ---------------------------------------------------------------- blocks of the tree

  /** One operation on the store itself. */
  function Stored(s: map<Cid, Block>, op: Op): map<Cid, Block> {
    match op
    case TreeAdd(c, b) => s[c := b]
    case TreeDelete(c) => s - {c}
    case _ => s
  }

  function StoredAll(s: map<Cid, Block>, ops: seq<Op>): map<Cid, Block> {
    if ops == [] then s else Stored(StoredAll(s, ops[..|ops| - 1]), ops[|ops| - 1])
  }

  /** A tree operation that adds an absent block or deletes a present one. */
  predicate Sensible(s: map<Cid, Block>, op: Op) {
    match op
    case TreeAdd(c, _) => c !in s
    case TreeDelete(c) => c in s
    case _ => false
  }

  predicate AllSensible(s: map<Cid, Block>, ops: seq<Op>) {
    forall i :: 0 <= i < |ops| ==> Sensible(StoredAll(s, ops[..i]), ops[i])
  }

  /** A CID determines its bytes. */
  predicate Addressed(content: Cid -> Block, s: map<Cid, Block>, ops: seq<Op>) {
    && (forall c :: c in s ==> s[c] == content(c))
    && (forall op <- ops :: op.TreeAdd? ==> op.block == content(op.cid))
  }

  predicate TreeInv(s: map<Cid, Block>, now: map<Cid, Block>, d: Diff) {
    && now.Keys == (s.Keys - d.removed) + d.newBlocks.Keys
    && d.newBlocks.Keys !! s.Keys && d.removed <= s.Keys && d.removed !! d.newBlocks.Keys
  }

  /**
   For tree operations that add absent blocks and delete present ones: the old store without the
   removed CIDs and with the new blocks is the store the operations lead to, and the diff is minimal.
   */
  lemma {:induction false} TreeDiff(s: map<Cid, Block>, ops: seq<Op>)
    requires AllSensible(s, ops)
    ensures TreeInv(s, StoredAll(s, ops), Fold(EMPTY, ops))
  {
    if ops != [] {
      var before := ops[..|ops| - 1];
      forall i | 0 <= i < |before|
        ensures Sensible(StoredAll(s, before[..i]), before[i])
      {
        assert before[..i] == ops[..i];
      }
      TreeDiff(s, before);
      assert ops[..|ops| - 1] == before;
      TreeStep(s, StoredAll(s, before), Fold(EMPTY, before), ops[|ops| - 1]);
      hide TreeInv, Stored, Apply;
    }
  }

  lemma TreeStep(s: map<Cid, Block>, now: map<Cid, Block>, d: Diff, op: Op)
    requires TreeInv(s, now, d) && Sensible(now, op)
    ensures TreeInv(s, Stored(now, op), Apply(d, op))
  {
  }

  /** The same with the bytes of the blocks, if a CID determines them. */
  lemma {:induction false} TreeDiffBlocks(content: Cid -> Block, s: map<Cid, Block>, ops: seq<Op>)
    requires AllSensible(s, ops) && Addressed(content, s, ops)
    ensures StoredAll(s, ops) == (s - Fold(EMPTY, ops).removed) + Fold(EMPTY, ops).newBlocks
  {
    TreeDiff(s, ops);
    ContentKept(content, s, ops);
    var now, net := StoredAll(s, ops), (s - Fold(EMPTY, ops).removed) + Fold(EMPTY, ops).newBlocks;
    assert now.Keys == net.Keys;
  }

  lemma {:induction false} ContentKept(content: Cid -> Block, s: map<Cid, Block>, ops: seq<Op>)
    requires Addressed(content, s, ops)
    ensures forall c :: c in StoredAll(s, ops) ==> StoredAll(s, ops)[c] == content(c)
    ensures forall c :: c in Fold(EMPTY, ops).newBlocks ==> Fold(EMPTY, ops).newBlocks[c] == content(c)
  {
    if ops == [] {
      return;
    }
    var before, op := ops[..|ops| - 1], ops[|ops| - 1];
    assert forall o <- before :: o in ops;
    assert op in ops;
    ContentKept(content, s, before);
    OpKeepsContent(content, StoredAll(s, before), Fold(EMPTY, before), op);
    hide Stored, Apply;
  }

  lemma OpKeepsContent(content: Cid -> Block, s: map<Cid, Block>, d: Diff, op: Op)
    requires op.TreeAdd? ==> op.block == content(op.cid)
    requires (forall c :: c in s ==> s[c] == content(c)) && forall c :: c in d.newBlocks ==> d.newBlocks[c] == content(c)
    ensures forall c :: c in Stored(s, op) ==> Stored(s, op)[c] == content(c)
    ensures forall c :: c in Apply(d, op).newBlocks ==> Apply(d, op).newBlocks[c] == content(c)
  {
  }

  // ---------------------------------------------------------------- leaves and tree in one diff

  predicate IsTree(op: Op) {
    op.TreeAdd? || op.TreeDelete?
  }

  function CidsOf(op: Op): set<Cid> {
    if op.LeafUpdate? then {op.prev, op.cid} else {op.cid}
  }

  /** The operations of one kind, in their order. */
  function Only(tree: bool, ops: seq<Op>): seq<Op> {
    if ops == [] then []
    else
      var before, op := Only(tree, ops[..|ops| - 1]), ops[|ops| - 1];
      if IsTree(op) == tree then before + [op] else before
  }

  /** The CIDs of tree blocks are `blocks`, and those of leaves are others. */
  predicate Separate(ops: seq<Op>, blocks: set<Cid>) {
    forall op <- ops :: if IsTree(op) then CidsOf(op) <= blocks else CidsOf(op) !! blocks
  }

  /** One diff of the two: the removed CIDs of both. */
  function Join(leaves: Diff, tree: Diff): Diff {
    leaves.(newBlocks := tree.newBlocks, removed := leaves.removed + tree.removed)
  }

  predicate Apart(leaves: Diff, tree: Diff, blocks: set<Cid>) {
    && leaves.removed !! blocks && leaves.newLeaves !! blocks && leaves.newBlocks == map[]
    && tree.removed <= blocks && tree.newBlocks.Keys <= blocks
    && tree == EMPTY.(newBlocks := tree.newBlocks, removed := tree.removed)
  }

  lemma OpJoins(leaves: Diff, tree: Diff, op: Op, blocks: set<Cid>)
    requires Apart(leaves, tree, blocks)
    requires if IsTree(op) then CidsOf(op) <= blocks else CidsOf(op) !! blocks
    ensures var l, t := if IsTree(op) then leaves else Apply(leaves, op), if IsTree(op) then Apply(tree, op) else tree;
            Apart(l, t, blocks) && Apply(Join(leaves, tree), op) == Join(l, t)
  {
    assert op.cid in CidsOf(op) && (op.LeafUpdate? ==> op.prev in CidsOf(op));
  }

  /** However the two kinds of operations are interleaved, the diff is that of each kind on its own. */
  lemma {:induction false} InterleavedJoins(ops: seq<Op>, blocks: set<Cid>)
    requires Separate(ops, blocks)
    ensures var leaves, tree := Fold(EMPTY, Only(false, ops)), Fold(EMPTY, Only(true, ops));
            Apart(leaves, tree, blocks) && Fold(EMPTY, ops) == Join(leaves, tree)
  {
    if ops == [] {
      return;
    }
    var n := |ops| - 1;
    assert forall op <- ops[..n] :: op in ops;
    InterleavedJoins(ops[..n], blocks);
    var leaves, tree, op := Only(false, ops[..n]), Only(true, ops[..n]), ops[n];
    assert op in ops;
    OpJoins(Fold(EMPTY, leaves), Fold(EMPTY, tree), op, blocks);
    FoldLast(leaves, op);
    FoldLast(tree, op);
    hide Fold, Apply, Join, Apart;
  }

  lemma {:induction false} FoldLast(ops: seq<Op>, op: Op)
    ensures Fold(EMPTY, ops + [op]) == Apply(Fold(EMPTY, ops), op)
  {
    assert (ops + [op])[..|ops|] == ops;
  }

  /** An operation on a leaf leaves the store of tree blocks. */
  lemma {:induction false} StoredOnly(s: map<Cid, Block>, ops: seq<Op>)
    ensures StoredAll(s, ops) == StoredAll(s, Only(true, ops))
  {
    if ops != [] {
      var n := |ops| - 1;
      StoredOnly(s, ops[..n]);
      var tree := Only(true, ops[..n]);
      assert (tree + [ops[n]])[..|tree|] == tree;
    }
  }

  /**
   Both laws in one diff: the changes of the leaves in any order, the operations on the tree, and any
   interleaving of the two.
   */
  lemma {:induction false} LeavesAndTree(
      from: map<Key, Cid>, to: map<Key, Cid>, keys: seq<Key>, s: map<Cid, Block>, ops: seq<Op>, blocks: set<Cid>)
    requires KeysOf(from, to, keys) && Elems(keys) == from.Keys + to.Keys && forall c :: AnyOrder(from, to, c)
    requires Only(false, ops) == Changes(from, to, keys) && AllSensible(s, Only(true, ops))
    requires Separate(ops, blocks) && s.Keys <= blocks && from.Values + to.Values !! blocks
    ensures var d := Fold(EMPTY, ops);
            && LeafLaw(from, to, d) && TablesAre(from, to, d)
            && TreeInv(s, StoredAll(s, ops), d.(removed := d.removed * blocks))
            && d.removed <= from.Values + s.Keys
  {
    hide AnyOrder, AllSensible, Separate, Fold, Changes, Only, StoredAll, KeysOf, Elems;
    LeavesInAnyOrder(from, to, keys);
    TreeDiff(s, Only(true, ops));
    InterleavedJoins(ops, blocks);
    StoredOnly(s, ops);
    var leaves, tree := Fold(EMPTY, Only(false, ops)), Fold(EMPTY, Only(true, ops));
    JoinLaws(from, to, s, StoredAll(s, ops), leaves, tree, blocks);
  }

  /** The tables after all changes. */
  ghost predicate TablesAre(from: map<Key, Cid>, to: map<Key, Cid>, d: Diff) {
    forall k :: TablesAt(from, to, k in from.Keys + to.Keys, d, k)
  }

  lemma JoinLaws(from: map<Key, Cid>, to: map<Key, Cid>, s: map<Cid, Block>, now: map<Cid, Block>,
                 leaves: Diff, tree: Diff, blocks: set<Cid>)
    requires Apart(leaves, tree, blocks) && s.Keys <= blocks && from.Values + to.Values !! blocks
    requires LeafLaw(from, to, leaves) && leaves.removed <= from.Values
    requires TablesInv(from, to, from.Keys + to.Keys, leaves) && TreeInv(s, now, tree)
    ensures var d := Join(leaves, tree);
            && LeafLaw(from, to, d) && TablesAre(from, to, d)
            && TreeInv(s, now, d.(removed := d.removed * blocks)) && d.removed <= from.Values + s.Keys
  {
    var d := Join(leaves, tree);
    assert d.removed * blocks == tree.removed;
    assert from.Values - d.removed == from.Values - leaves.removed;
    forall k
      ensures TablesAt(from, to, k in from.Keys + to.Keys, d, k)
    {
      assert TablesAt(from, to, k in from.Keys + to.Keys, leaves, k);
    }
  }
}
