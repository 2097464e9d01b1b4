/** The Go types and values the node codec works on, and the `cbor` tags of struct fields. */
module GoValues {
  import opened Wrappers
  import Cbor

  datatype Bits = B8 | B16 | B32 | B64

  function Modulus(bits: Bits): nat {
    match bits
    case B8 => 0x100
    case B16 => 0x1_0000
    case B32 => 0x1_0000_0000
    case B64 => 0x1_0000_0000_0000_0000
  }

  predicate InRange(i: int, bits: Bits, signed: bool) {
    if signed then -(Modulus(bits) / 2) <= i < Modulus(bits) / 2 else 0 <= i < Modulus(bits)
  }

  /** Go's conversion to a sized integer: the value modulo the size, as two's complement. */
  function Truncate(i: int, bits: Bits, signed: bool): (r: int)
    ensures InRange(r, bits, signed)
  {
    var m := Modulus(bits);
    if signed && i % m >= m / 2 then i % m - m else i % m
  }

  lemma ModOfSmall(i: int, m: int)
    requires 0 < m && -m <= i < m
    ensures i % m == if i >= 0 then i else i + m
  {
    if i < 0 {
      assert (i + m) % m == i % m by {
        assert i == (i + m) - m;
      }
    }
  }

  lemma TruncateInRange(i: int, bits: Bits, signed: bool)
    requires InRange(i, bits, signed)
    ensures Truncate(i, bits, signed) == i
  {
    ModOfSmall(i, Modulus(bits));
  }

  datatype GoType =
    | TBool
    | TInt(bits: Bits, signed: bool)
    | TFloat
    | TString
    | TBytes
    | TByteArray(n: nat)
    | TCid
    | TPtr(elem: GoType)
    | TSlice(elem: GoType)
    | TStruct(fields: seq<Field>)

  /** A struct field; `tag` is its `cbor` tag, if it has one. */
  datatype Field = Field(name: string, tag: Option<string>, typ: GoType)

  /** A CID is known by its number; 0 is the undefined CID. */
  datatype GoValue =
    | VBool(b: bool)
    | VInt(i: int)
    | VFloat(f: real)
    | VString(s: string)
    | VNilBytes
    | VBytes(bytes: Cbor.Bytes)
    | VArray(arr: Cbor.Bytes)
    | VCid(c: nat)
    | VNilPtr
    | VPtr(to: GoValue)
    | VNilSlice
    | VSlice(elems: seq<GoValue>)
    | VStruct(vals: seq<GoValue>)

  predicate HasType(t: GoType, v: GoValue)
    decreases t
  {
    match t
    case TBool => v.VBool?
    case TInt(bits, signed) => v.VInt? && InRange(v.i, bits, signed)
    case TFloat => v.VFloat?
    case TString => v.VString?
    case TBytes => v.VNilBytes? || v.VBytes?
    case TByteArray(n) => v.VArray? && |v.arr| == n
    case TCid => v.VCid?
    case TPtr(e) => v.VNilPtr? || (v.VPtr? && HasType(e, v.to))
    case TSlice(e) => v.VNilSlice? || (v.VSlice? && forall i :: 0 <= i < |v.elems| ==> HasType(e, v.elems[i]))
    case TStruct(fs) =>
      v.VStruct? && |v.vals| == |fs| && forall i :: 0 <= i < |fs| ==> HasType(fs[i].typ, v.vals[i])
  }

  /** The zero value of a type. */
  function Zero(t: GoType): (v: GoValue)
    ensures HasType(t, v)
    decreases t
  {
    match t
    case TBool => VBool(false)
    case TInt(_, _) => VInt(0)
    case TFloat => VFloat(0.0)
    case TString => VString("")
    case TBytes => VNilBytes
    case TByteArray(n) => VArray(seq(n, i => 0))
    case TCid => VCid(0)
    case TPtr(_) => VNilPtr
    case TSlice(_) => VNilSlice
    case TStruct(fs) => VStruct(seq(|fs|, i requires 0 <= i < |fs| => Zero(fs[i].typ)))
  }

  // ---------------------------------------------------------------- tags

  datatype TagOpt = TagOpt(name: string, omitempty: bool)

  /** The parts of `s` between commas; there is always at least one. */
  function Split(s: string): (parts: seq<string>)
    ensures |parts| >= 1
  {
    if s == "" then [""]
    else if s[0] == ',' then [""] + Split(s[1..])
    else var rest := Split(s[1..]); [[s[0]] + rest[0]] + rest[1..]
  }

  function Join(parts: seq<string>): string
    requires |parts| >= 1
  {
    if |parts| == 1 then parts[0] else parts[0] + "," + Join(parts[1..])
  }

  /** Splitting loses nothing and leaves no comma in a part. */
  lemma {:induction false} SplitJoin(s: string)
    ensures Join(Split(s)) == s
    ensures forall i :: 0 <= i < |Split(s)| ==> ',' !in Split(s)[i]
  {
    if s == "" {
      return;
    }
    SplitJoin(s[1..]);
    var rest := Split(s[1..]);
    if s[0] == ',' {
      JoinComma(rest);
    } else {
      JoinChar(s[0], rest);
    }
    hide Split, Join;
    assert s == [s[0]] + s[1..];
  }

  lemma {:induction false} JoinStep(parts: seq<string>)
    requires |parts| >= 1
    ensures Join(parts) == if |parts| == 1 then parts[0] else parts[0] + "," + Join(parts[1..])
  {
  }

  lemma {:induction false} JoinComma(rest: seq<string>)
    requires |rest| >= 1
    ensures Join([""] + rest) == "," + Join(rest)
  {
    hide Join;
    JoinStep([""] + rest);
    assert ([""] + rest)[1..] == rest;
    assert "" + "," + Join(rest) == "," + Join(rest);
  }

  lemma Associate(a: string, b: string, c: string)
    ensures (a + b) + c == a + (b + c)
  {
  }

  lemma {:induction false} JoinChar(c: char, rest: seq<string>)
    requires |rest| >= 1
    ensures Join([[c] + rest[0]] + rest[1..]) == [c] + Join(rest)
  {
    hide Join;
    var parts := [[c] + rest[0]] + rest[1..];
    JoinStep(parts);
    JoinStep(rest);
    assert parts[1..] == rest[1..];
    if |rest| > 1 {
      Associate([c], rest[0], ",");
      Associate([c], rest[0] + ",", Join(rest[1..]));
    }
  }

  function TagOf(raw: string): TagOpt {
    var parts := Split(raw);
    TagOpt(parts[0], "omitempty" in parts[1..])
  }

  /** `parseTag`. */
  method ParseTag(raw: string) returns (opt: TagOpt)
    ensures opt == TagOf(raw)
  {
    var parts := Split(raw);
    opt := TagOpt(parts[0], false);
    for i := 1 to |parts|
      invariant opt == TagOpt(parts[0], "omitempty" in parts[1..i])
    {
      assert parts[1..i + 1] == parts[1..i] + [parts[i]];
      if parts[i] == "omitempty" {
        opt := opt.(omitempty := true);
      }
    }
    assert parts[1..] == parts[1..|parts|];
  }

  /** The name a field has in a node: the one in its tag if there is one. */
  function Key(f: Field): string {
    if f.tag.Some? && |TagOf(f.tag.value).name| > 0 then TagOf(f.tag.value).name else f.name
  }

  predicate OmitEmpty(f: Field) {
    f.tag.Some? && TagOf(f.tag.value).omitempty
  }

  /**
   The fields of every struct have distinct names in a node, and bytes are written as bytes: a slice of
   uint8 is `TBytes`, as the encoder looks at the element's kind.
   */
  predicate Supported(t: GoType)
    decreases t
  {
    match t
    case TPtr(e) => Supported(e)
    case TSlice(e) => e != TInt(B8, false) && Supported(e)
    case TStruct(fs) =>
      && (forall i, j :: 0 <= i < j < |fs| ==> Key(fs[i]) != Key(fs[j]))
      && (forall i :: 0 <= i < |fs| ==> Supported(fs[i].typ))
    case _ => true
  }
}
