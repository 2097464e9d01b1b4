/**
 `NodeAssembler`: a value rebuilt from the calls a decoder makes, one for each leaf of the tree it
 reads. `Assign` says what the calls for one tree leave in a destination; `SimpleValueAssembler`
 makes them. An error and a panic are both None.
 */
module NodeAssembler {
  import opened Wrappers
  import opened GoValues
  import opened NodeEncoder
  import Cbor

  /** What a destination of type `t` points to, or the destination itself. */
  function Target(t: GoType): GoType {
    if t.TPtr? then t.elem else t
  }

  /** `ptrGuard`: a nil pointer is first made to point to a zero value. */
  function Guarded(t: GoType, cur: GoValue): (v: GoValue)
    requires HasType(t, cur)
    ensures HasType(Target(t), v)
  {
    if !t.TPtr? then cur else if cur.VNilPtr? then Zero(t.elem) else cur.to
  }

  /** Stores `v` where `Guarded` read. */
  function Stored(t: GoType, v: GoValue): (r: GoValue)
    requires HasType(Target(t), v)
    ensures HasType(t, r)
  {
    if t.TPtr? then VPtr(v) else v
  }

  /** `fields[k]`: of two fields with one name the later one is found. */
  function FieldFor(fs: seq<Field>, k: string): (r: Option<nat>)
    ensures r.Some? ==> r.value < |fs| && Key(fs[r.value]) == k
    ensures r.None? ==> forall i :: 0 <= i < |fs| ==> Key(fs[i]) != k
  {
    if fs == [] then None
    else if Key(fs[|fs| - 1]) == k then Some(|fs| - 1)
    else FieldFor(fs[..|fs| - 1], k)
  }

  function AssignLeaf(t: GoType, cur: GoValue, b: Tree): (r: Option<GoValue>)
    requires HasType(t, cur) && !b.List? && !b.Map?
    ensures r.Some? ==> HasType(t, r.value)
  {
    var gt := Target(t);
    match b
    case Null => Some(Zero(t))
    case Bool(x) => if gt.TBool? then Some(Stored(t, VBool(x))) else None
    case Int(i) => if gt.TInt? then Some(Stored(t, VInt(Truncate(i, gt.bits, gt.signed)))) else None
    case Float(f) => if gt.TFloat? then Some(Stored(t, VFloat(f))) else None
    case Str(s) => if gt.TString? then Some(Stored(t, VString(s))) else None
    case Bin(bs) =>
      if gt.TBytes? then Some(Stored(t, VBytes(bs)))
      else if gt.TByteArray? && |bs| <= gt.n then
        // the bytes are stored through the pointer itself, which has no elements
        if t.TPtr? && bs != [] then None
        else Some(Stored(t, VArray(bs + Guarded(t, cur).arr[|bs|..])))
      else None
    case Link(c) => if gt.TCid? && c != 0 then Some(Stored(t, VCid(c))) else None
  }

  function Assign(t: GoType, cur: GoValue, b: Tree): (r: Option<GoValue>)
    requires HasType(t, cur)
    ensures r.Some? ==> HasType(t, r.value)
    decreases b, 0
  {
    match b
    case List(items) =>
      if t.TSlice? then
        match AssignItems(t.elem, items, |items|)
        case None => None
        case Some(elems) => Some(VSlice(elems))
      else None
    case Map(entries) =>
      var gt := Target(t);
      if gt.TStruct? then
        match AssignEntries(gt.fields, Guarded(t, cur).vals, entries, |entries|)
        case None => None
        case Some(vals) => Some(Stored(t, VStruct(vals)))
      else None
    case _ => AssignLeaf(t, cur, b)
  }

  function AssignItems(t: GoType, items: seq<Tree>, k: nat): (r: Option<seq<GoValue>>)
    requires k <= |items|
    ensures r.Some? ==> |r.value| == k && forall i :: 0 <= i < k ==> HasType(t, r.value[i])
    decreases items, k
  {
    if k == 0 then Some([])
    else match AssignItems(t, items, k - 1)
      case None => None
      case Some(elems) =>
        match Assign(t, Zero(t), items[k - 1])
        case None => None
        case Some(v) => Some(elems + [v])
  }

  predicate FieldsTyped(fs: seq<Field>, vals: seq<GoValue>) {
    |vals| == |fs| && forall i :: 0 <= i < |fs| ==> HasType(fs[i].typ, vals[i])
  }

  function AssignEntries(fs: seq<Field>, vals: seq<GoValue>, entries: seq<Entry>, k: nat): (r: Option<seq<GoValue>>)
    requires FieldsTyped(fs, vals) && k <= |entries|
    ensures r.Some? ==> FieldsTyped(fs, r.value)
    decreases entries, k
  {
    if k == 0 then Some(vals)
    else match AssignEntries(fs, vals, entries, k - 1)
      case None => None
      case Some(prev) =>
        match FieldFor(fs, entries[k - 1].key)
        case None => None
        case Some(i) =>
          match Assign(fs[i].typ, prev[i], entries[k - 1].val)
          case None => None
          case Some(v) => Some(prev[i := v])
  }

  // ---------------------------------------------------------------- the assemblers

  /** `valueStructAssembler.build`: the name of each field, with the later of two fields of one name. */
  method Build(fs: seq<Field>) returns (fields: map<string, nat>)
    ensures forall k :: k in fields <==> FieldFor(fs, k).Some?
    ensures forall k :: k in fields ==> FieldFor(fs, k) == Some(fields[k])
  {
    fields := map[];
    for i := 0 to |fs|
      invariant forall k :: k in fields <==> FieldFor(fs[..i], k).Some?
      invariant forall k :: k in fields ==> FieldFor(fs[..i], k) == Some(fields[k])
    {
      var name := fs[i].name;
      if fs[i].tag.Some? {
        var opts := ParseTag(fs[i].tag.value);
        if |opts.name| > 0 {
          name := opts.name;
        }
      }
      assert fs[..i + 1][..i] == fs[..i];
      fields := fields[name := i];
    }
    assert fs[..|fs|] == fs;
  }

  /** `AssignBytes` into an array, byte by byte. */
  method CopyBytes(a: array<Cbor.byte>, b: Cbor.Bytes)
    requires |b| <= a.Length
    modifies a
    ensures a[..] == b + old(a[|b|..])
  {
    for i := 0 to |b|
      invariant a[..i] == b[..i]
      invariant a[i..] == old(a[i..])
    {
      a[i] := b[i];
    }
  }

  /** `simpleValueAssembler`: writes one destination. */
  class SimpleValueAssembler {
    const t: GoType
    var v: GoValue

    ghost predicate Valid()
      reads this
    {
      HasType(t, v)
    }

    constructor (t: GoType, v: GoValue)
      requires HasType(t, v)
      ensures Valid() && this.t == t && this.v == v
    {
      this.t, this.v := t, v;
    }

    method PtrGuard() returns (gt: GoType, gv: GoValue)
      requires Valid()
      modifies this
      ensures Valid() && gt == Target(t) && gv == old(Guarded(t, v))
      ensures v == Stored(t, gv)
    {
      if t.TPtr? {
        if v.VNilPtr? {
          v := VPtr(Zero(t.elem));
        }
        gt, gv := t.elem, v.to;
      } else {
        gt, gv := t, v;
      }
    }

    method AssignBool(b: bool) returns (ok: bool)
      requires Valid()
      modifies this
      ensures Valid() && ok == Assign(t, old(v), Bool(b)).Some?
      ensures ok ==> Some(v) == Assign(t, old(v), Bool(b))
    {
      if t.TPtr? && t.elem.TBool? {
        v := VPtr(VBool(b));
      } else if t.TBool? {
        v := VBool(b);
      } else {
        return false;
      }
      return true;
    }

    method AssignInt(i: int) returns (ok: bool)
      requires Valid()
      modifies this
      ensures Valid() && ok == Assign(t, old(v), Int(i)).Some?
      ensures ok ==> Some(v) == Assign(t, old(v), Int(i))
    {
      var gt, gv := PtrGuard();
      if !gt.TInt? {
        return false;
      }
      v := Stored(t, VInt(Truncate(i, gt.bits, gt.signed)));
      return true;
    }

    method AssignFloat(f: real) returns (ok: bool)
      requires Valid()
      modifies this
      ensures Valid() && ok == Assign(t, old(v), Float(f)).Some?
      ensures ok ==> Some(v) == Assign(t, old(v), Float(f))
    {
      var gt, gv := PtrGuard();
      if !gt.TFloat? {
        return false;
      }
      v := Stored(t, VFloat(f));
      return true;
    }

    method AssignString(s: string) returns (ok: bool)
      requires Valid()
      modifies this
      ensures Valid() && ok == Assign(t, old(v), Str(s)).Some?
      ensures ok ==> Some(v) == Assign(t, old(v), Str(s))
    {
      if t.TPtr? && t.elem.TString? {
        v := VPtr(VString(s));
      } else if t.TString? {
        v := VString(s);
      } else {
        return false;
      }
      return true;
    }

    method AssignBytes(b: Cbor.Bytes) returns (ok: bool)
      requires Valid()
      modifies this
      ensures Valid() && ok == Assign(t, old(v), Bin(b)).Some?
      ensures ok ==> Some(v) == Assign(t, old(v), Bin(b))
    {
      var gt, gv := PtrGuard();
      if gt.TBytes? {
        v := Stored(t, VBytes(b));
        return true;
      }
      if !gt.TByteArray? || |b| > gt.n {
        return false;
      }
      if t.TPtr? {
        // the first store panics: a pointer has no elements
        assert [] + gv.arr == gv.arr;
        return b == [];
      }
      var a := new Cbor.byte[gt.n](i requires 0 <= i < |gv.arr| => gv.arr[i]);
      assert a[..] == gv.arr;
      CopyBytes(a, b);
      v := VArray(a[..]);
      return true;
    }

    method AssignLink(c: nat) returns (ok: bool)
      requires Valid()
      modifies this
      ensures Valid() && ok == Assign(t, old(v), Link(c)).Some?
      ensures ok ==> Some(v) == Assign(t, old(v), Link(c))
    {
      var gt, gv := PtrGuard();
      if !gt.TCid? || c == 0 {
        return false;
      }
      v := Stored(t, VCid(c));
      return true;
    }

    method AssignNull()
      requires Valid()
      modifies this
      ensures Valid() && Some(v) == Assign(t, old(v), Null)
    {
      v := Zero(t);
    }

    /** `listAssembler`: one fresh zero value for each item, set into a new slice at the end. */
    method AssignList(items: seq<Tree>) returns (ok: bool)
      requires Valid()
      modifies this
      ensures Valid() && ok == Assign(t, old(v), List(items)).Some?
      ensures ok ==> Some(v) == Assign(t, old(v), List(items))
      decreases items, 0
    {
      if !t.TSlice? {
        return false;
      }
      var values: seq<GoValue> := [];
      for i := 0 to |items|
        invariant Some(values) == AssignItems(t.elem, items, i)
        invariant Valid()
      {
        var a := new SimpleValueAssembler(t.elem, Zero(t.elem));
        var done := a.AssignNode(items[i]);
        if !done {
          NoItems(t.elem, items, i + 1, |items|);
          return false;
        }
        values := values + [a.v];
      }
      v := VSlice(values);
      return true;
    }

    /** `BeginMap` and the entries of a struct. */
    method AssignMap(entries: seq<Entry>) returns (ok: bool)
      requires Valid()
      modifies this
      ensures Valid() && ok == Assign(t, old(v), Map(entries)).Some?
      ensures ok ==> Some(v) == Assign(t, old(v), Map(entries))
      decreases entries, 1
    {
      var gt, gv := PtrGuard();
      if !gt.TStruct? {
        return false;
      }
      var vals;
      ok, vals := AssembleEntries(gt.fields, gv.vals, entries);
      if ok {
        v := Stored(t, VStruct(vals));
      }
    }

    /** The calls a decoder makes for one tree. */
    method AssignNode(b: Tree) returns (ok: bool)
      requires Valid()
      modifies this
      ensures Valid() && ok == Assign(t, old(v), b).Some?
      ensures ok ==> Some(v) == Assign(t, old(v), b)
      decreases b, 1
    {
      match b {
        case Null =>
          AssignNull();
          ok := true;
        case Bool(x) => ok := AssignBool(x);
        case Int(i) => ok := AssignInt(i);
        case Float(f) => ok := AssignFloat(f);
        case Str(s) => ok := AssignString(s);
        case Bin(bs) => ok := AssignBytes(bs);
        case Link(c) => ok := AssignLink(c);
        case List(items) => ok := AssignList(items);
        case Map(entries) => ok := AssignMap(entries);
      }
    }
  }

  /** One entry is assembled into the field of its name, on top of what is there. */
  method AssembleEntry(fs: seq<Field>, vals: seq<GoValue>, fields: map<string, nat>, e: Entry)
    returns (ok: bool, i: nat, v: GoValue)
    requires FieldsTyped(fs, vals)
    requires forall k :: k in fields <==> FieldFor(fs, k).Some?
    requires forall k :: k in fields ==> FieldFor(fs, k) == Some(fields[k])
    ensures ok ==> FieldFor(fs, e.key) == Some(i) && Assign(fs[i].typ, vals[i], e.val) == Some(v)
    ensures !ok ==> FieldFor(fs, e.key).None? || Assign(fs[FieldFor(fs, e.key).value].typ, vals[FieldFor(fs, e.key).value], e.val).None?
    decreases e, 2
  {
    i, v := 0, VNilPtr;
    if e.key !in fields {
      return false, i, v;
    }
    i := fields[e.key];
    var a := new SimpleValueAssembler(fs[i].typ, vals[i]);
    ok := a.AssignNode(e.val);
    v := a.v;
  }

  /** `valueStructAssembler`: each entry is assembled into the field of its name. */
  method AssembleEntries(fs: seq<Field>, start: seq<GoValue>, entries: seq<Entry>) returns (ok: bool, vals: seq<GoValue>)
    requires FieldsTyped(fs, start)
    ensures FieldsTyped(fs, vals)
    ensures ok == AssignEntries(fs, start, entries, |entries|).Some?
    ensures ok ==> Some(vals) == AssignEntries(fs, start, entries, |entries|)
    decreases entries, 0
  {
    hide Assign, FieldFor;
    var fields := Build(fs);
    vals := start;
    for j := 0 to |entries|
      invariant FieldsTyped(fs, vals)
      invariant Some(vals) == AssignEntries(fs, start, entries, j)
    {
      var done, i, v := AssembleEntry(fs, vals, fields, entries[j]);
      NextEntry(fs, start, entries, j + 1);
      if !done {
        NoEntries(fs, start, entries, j + 1, |entries|);
        return false, vals;
      }
      vals := vals[i := v];
    }
    ok := true;
  }

  lemma NextEntry(fs: seq<Field>, start: seq<GoValue>, entries: seq<Entry>, k: nat)
    requires FieldsTyped(fs, start) && 0 < k <= |entries| && AssignEntries(fs, start, entries, k - 1).Some?
    ensures var vals, f := AssignEntries(fs, start, entries, k - 1).value, FieldFor(fs, entries[k - 1].key);
            AssignEntries(fs, start, entries, k)
            == if f.None? then None
               else match Assign(fs[f.value].typ, vals[f.value], entries[k - 1].val)
                 case None => None
                 case Some(v) => Some(vals[f.value := v])
  {
    hide Assign, FieldFor;
  }

  lemma {:induction false} NoItems(t: GoType, items: seq<Tree>, k: nat, n: nat)
    requires k <= n <= |items| && AssignItems(t, items, k).None?
    ensures AssignItems(t, items, n).None?
    decreases n
  {
    if k < n {
      NoItems(t, items, k, n - 1);
    }
  }

  lemma {:induction false} NoEntries(fs: seq<Field>, vals: seq<GoValue>, entries: seq<Entry>, k: nat, n: nat)
    requires FieldsTyped(fs, vals) && k <= n <= |entries| && AssignEntries(fs, vals, entries, k).None?
    ensures AssignEntries(fs, vals, entries, n).None?
    decreases n
  {
    if k < n {
      NoEntries(fs, vals, entries, k, n - 1);
    }
  }
}
