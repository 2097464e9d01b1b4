/**
 `BuildNode`: a typed Go value seen as a node. A codec walks the node and sees a tree of plain data,
 or fails. The value is handed over by pointer, as a record to be stored is.
 */
module NodeEncoder {
  import opened Wrappers
  import Cbor
  import opened GoValues

  datatype Tree =
    | Null
    | Bool(b: bool)
    | Int(i: int)
    | Float(f: real)
    | Str(s: string)
    | Bin(bytes: Cbor.Bytes)
    | Link(c: nat)
    | List(items: seq<Tree>)
    | Map(entries: seq<Entry>)

  datatype Entry = Entry(key: string, val: Tree)

  datatype Kind = KInvalid | KNull | KBool | KInt | KFloat | KString | KBytes | KLink | KList | KMap

  /** The three node types: `node`, `structNode` and `nullNode`. */
  datatype Node =
    | Plain(t: GoType, v: GoValue)
    | StructNode(t: GoType, v: GoValue)
    | NullNode

  /** A pair of `buildPairs`. */
  datatype Pair = Pair(key: string, val: Node)

  predicate Typed(n: Node) {
    n.NullNode? || HasType(n.t, n.v)
  }

  function TypeOf(n: Node): GoType {
    if n.NullNode? then TBool else n.t
  }

  /** `cid.Cid` is a struct, too. */
  predicate IsStructKind(t: GoType) {
    t.TStruct? || t.TCid?
  }

  /** The node of a value that is not a field: a struct directly, or an element of a list. */
  function BuildNode(t: GoType, v: GoValue): Node {
    if IsStructKind(t) then StructNode(t, v) else Plain(t, v)
  }

  /** The node of a field's value: what a pointer points to, or null for a nil pointer. */
  function FieldNode(t: GoType, v: GoValue): Node
    requires HasType(t, v)
  {
    if t.TPtr? then (if v.VNilPtr? then NullNode else BuildNode(t.elem, v.to))
    else BuildNode(t, v)
  }

  /** Tagged omitempty and nil, pointing to zero, or zero. */
  predicate Omitted(f: Field, v: GoValue)
    requires HasType(f.typ, v)
  {
    OmitEmpty(f) && (if v.VPtr? then v.to == Zero(f.typ.elem) else v == Zero(f.typ))
  }

  /** The pairs of the first `n` fields: one for each field that is not omitted, in order. */
  function Pairs(t: GoType, v: GoValue, n: nat): (pairs: seq<Pair>)
    requires t.TStruct? && HasType(t, v) && n <= |t.fields|
    ensures |pairs| <= n
    ensures forall j :: 0 <= j < |pairs| ==> Typed(pairs[j].val) && (pairs[j].val.NullNode? || TypeOf(pairs[j].val) < t)
  {
    if n == 0 then []
    else
      var f := t.fields[n - 1];
      Pairs(t, v, n - 1) + if Omitted(f, v.vals[n - 1]) then [] else [Pair(Key(f), FieldNode(f.typ, v.vals[n - 1]))]
  }

  /** `buildPairs`. */
  method BuildPairs(t: GoType, v: GoValue) returns (pairs: seq<Pair>)
    requires t.TStruct? && HasType(t, v)
    ensures pairs == Pairs(t, v, |t.fields|)
  {
    pairs := [];
    for i := 0 to |t.fields|
      invariant pairs == Pairs(t, v, i)
    {
      var sf := t.fields[i];
      var field, ftype := v.vals[i], sf.typ;
      var isNullPtr := false;
      var value := Plain(ftype, field);
      if ftype.TPtr? {
        if field == Zero(ftype) {
          isNullPtr := true;
        } else {
          ftype, field := ftype.elem, field.to;
        }
        value := BuildNode(ftype, field);
      } else if IsStructKind(ftype) {
        value := StructNode(ftype, field);
      }
      var name := sf.name;
      var omit := false;
      if sf.tag.Some? {
        var opts := ParseTag(sf.tag.value);
        if |opts.name| > 0 {
          name := opts.name;
        }
        omit := opts.omitempty && (isNullPtr || field == Zero(ftype));
      }
      if !omit {
        pairs := pairs + [Pair(name, if isNullPtr then NullNode else value)];
      }
    }
  }

  function KindOf(n: Node): Kind
    requires Typed(n)
  {
    if n.NullNode? then KNull else
    match n.t
    case TBool => KBool
    case TInt(_, _) => KInt
    case TFloat => KFloat
    case TString => KString
    case TBytes => if n.v.VNilBytes? || n.v.bytes == [] then KNull else KBytes
    case TByteArray(_) => if n.v.arr == [] then KNull else KBytes
    case TSlice(_) => KList
    case TStruct(_) => KMap
    case TCid => KLink
    case TPtr(_) => KInvalid
  }

  /** `AsInt`: an unsigned value passes through int64. */
  function AsInt(n: Node): int
    requires Typed(n) && KindOf(n) == KInt
  {
    if n.t.signed then n.v.i else Truncate(n.v.i, B64, true)
  }

  /** `Length` of a map node: a `structNode` counts its pairs, a `node` all fields of the struct. */
  function MapLength(n: Node): nat
    requires Typed(n) && KindOf(n) == KMap
  {
    if n.StructNode? then |Pairs(n.t, n.v, |n.t.fields|)| else |n.t.fields|
  }

  /** The elements of a list node, as `LookupByIndex` gives them. */
  function Elements(v: GoValue): seq<GoValue> {
    if v.VSlice? then v.elems else []
  }

  /**
   What a codec sees when it walks a node. It fails on a node of invalid kind, and on a map whose
   length, written before the entries, is not their number.
   */
  function Walk(n: Node): Option<Tree>
    requires Typed(n)
    decreases TypeOf(n), 2, 0
  {
    match KindOf(n)
    case KInvalid => None
    case KNull => Some(Null)
    case KBool => Some(Bool(n.v.b))
    case KInt => Some(Int(AsInt(n)))
    case KFloat => Some(Float(n.v.f))
    case KString => Some(Str(n.v.s))
    case KBytes => Some(Bin(if n.t.TBytes? then n.v.bytes else n.v.arr))
    case KLink => Some(Link(n.v.c))
    case KList =>
      var elems := Elements(n.v);
      (match WalkItems(n.t.elem, elems, |elems|)
       case None => None
       case Some(items) => Some(List(items)))
    case KMap => WalkMap(n)
  }

  function WalkMap(n: Node): Option<Tree>
    requires Typed(n) && KindOf(n) == KMap
    decreases TypeOf(n), 1, 0
  {
    var pairs := Pairs(n.t, n.v, |n.t.fields|);
    if MapLength(n) != |pairs| then None
    else match WalkPairs(n.t, pairs, |pairs|)
      case None => None
      case Some(entries) => Some(Map(entries))
  }

  function WalkItems(t: GoType, elems: seq<GoValue>, k: nat): (r: Option<seq<Tree>>)
    requires k <= |elems| && forall i :: 0 <= i < |elems| ==> HasType(t, elems[i])
    ensures r.Some? ==> |r.value| == k
    decreases t, 3, k
  {
    if k == 0 then Some([])
    else match WalkItems(t, elems, k - 1)
      case None => None
      case Some(items) =>
        match Walk(Plain(t, elems[k - 1]))
        case None => None
        case Some(item) => Some(items + [item])
  }

  function WalkPairs(t: GoType, pairs: seq<Pair>, k: nat): (r: Option<seq<Entry>>)
    requires k <= |pairs|
    requires forall j :: 0 <= j < |pairs| ==> Typed(pairs[j].val) && (pairs[j].val.NullNode? || TypeOf(pairs[j].val) < t)
    ensures r.Some? ==> |r.value| == k
    decreases t, 0, k
  {
    if k == 0 then Some([])
    else match WalkPairs(t, pairs, k - 1)
      case None => None
      case Some(entries) =>
        match if pairs[k - 1].val.NullNode? then Some(Null) else Walk(pairs[k - 1].val)
        case None => None
        case Some(val) => Some(entries + [Entry(pairs[k - 1].key, val)])
  }
}
