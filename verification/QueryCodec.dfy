/**
 What the generated pair `toQuery` and `fromQuery` does for a schema of query parameters: strings
 without a format, integers, optional booleans and arrays of strings.
 */
module QueryCodec {
  import opened Collections
  import opened Wrappers

  // ---------------------------------------------------------------- decimal int64

  const TWO_TO_63: int := 0x8000_0000_0000_0000

  predicate IsInt64(i: int) {
    -TWO_TO_63 <= i < TWO_TO_63
  }

  predicate IsDigit(c: char) {
    '0' <= c <= '9'
  }

  function DigitValue(c: char): nat
    requires IsDigit(c)
  {
    c as int - '0' as int
  }

  function Digits(n: nat): (s: string)
    ensures |s| > 0 && forall i :: 0 <= i < |s| ==> IsDigit(s[i])
  {
    if n < 10 then [('0' as int + n) as char] else Digits(n / 10) + [('0' as int + n % 10) as char]
  }

  function Number(s: string): (n: int)
    requires forall i :: 0 <= i < |s| ==> IsDigit(s[i])
    ensures n >= 0
  {
    if s == "" then 0 else 10 * Number(s[..|s| - 1]) + DigitValue(s[|s| - 1])
  }

  lemma {:induction false} NumberOfDigits(n: nat)
    ensures Number(Digits(n)) == n
  {
    if n >= 10 {
      NumberOfDigits(n / 10);
      assert Digits(n)[..|Digits(n)| - 1] == Digits(n / 10);
    }
  }

  /** `strconv.FormatInt(i, 10)`. */
  function FormatInt(i: int): (s: string)
    ensures |s| > 0
  {
    if i < 0 then "-" + Digits(-i) else Digits(i)
  }

  /** `strconv.ParseInt(s, 10, 64)`: an optional sign, at least one digit, and a value in range. */
  function ParseInt(s: string): (r: Option<int>)
    ensures r.Some? ==> IsInt64(r.value)
  {
    var digits := if s != "" && (s[0] == '+' || s[0] == '-') then s[1..] else s;
    if digits == "" || exists i :: 0 <= i < |digits| && !IsDigit(digits[i]) then None
    else
      var v := if s[0] == '-' then -Number(digits) else Number(digits);
      if IsInt64(v) then Some(v) else None
  }

  /** Every int64, the least included, survives printing and parsing. */
  lemma IntRoundTrip(i: int)
    requires IsInt64(i)
    ensures ParseInt(FormatInt(i)) == Some(i)
  {
    var s := FormatInt(i);
    NumberOfDigits(if i < 0 then -i else i);
    if i < 0 {
      assert s[1..] == Digits(-i);
    } else {
      assert IsDigit(s[0]);
    }
  }

  function FormatBool(b: bool): string {
    if b then "true" else "false"
  }

  function ParseBool(s: string): Option<bool> {
    if s in ["1", "t", "T", "true", "TRUE", "True"] then Some(true)
    else if s in ["0", "f", "F", "false", "FALSE", "False"] then Some(false)
    else None
  }

  lemma BoolRoundTrip(b: bool)
    ensures ParseBool(FormatBool(b)) == Some(b)
  {
    assert "true" != "1" && "false"[0] != "1"[0];
    var trues := ["1", "t", "T", "true", "TRUE", "True"];
    if b {
      assert trues[3] == FormatBool(b);
    } else {
      forall i | 0 <= i < |trues|
        ensures trues[i] != FormatBool(b)
      {
        assert trues[i][0] != 'f';
      }
      assert ["0", "f", "F", "false", "FALSE", "False"][3] == FormatBool(b);
    }
  }

  // ---------------------------------------------------------------- schemas and parameters

  datatype Kind =
    | String(required: bool, maxLength: Option<nat>)
    | Integer(required: bool, minimum: Option<int>, maximum: Option<int>)
    | Boolean
    | Strings(required: bool)

  datatype Prop = Prop(key: string, kind: Kind)

  /** A field of the parameter struct; an optional one is a pointer. A nil array is an empty one. */
  datatype Val =
    | Str(s: string)
    | OptStr(os: Option<string>)
    | Int(i: int)
    | OptInt(oi: Option<int>)
    | OptBool(ob: Option<bool>)
    | Arr(items: seq<string>)

  predicate HasKind(kind: Kind, v: Val) {
    match kind
    case String(required, _) => if required then v.Str? else v.OptStr?
    case Integer(required, _, _) =>
      if required then v.Int? && IsInt64(v.i) else v.OptInt? && (v.oi.Some? ==> IsInt64(v.oi.value))
    case Boolean => v.OptBool?
    case Strings(_) => v.Arr?
  }

  type Query = map<string, seq<string>>

  function Values(q: Query, key: string): seq<string> {
    if key in q then q[key] else []
  }

  /** `url.Values.Get`: the first value, or the empty string. */
  function Get(q: Query, key: string): string {
    if Values(q, key) == [] then "" else Values(q, key)[0]
  }

  datatype Error = Required(key: string) | BadValue(key: string) | TooLong(key: string) | TooLarge(key: string) | TooSmall(key: string)

  /** `url.Values`, updated in place. */
  class UrlValues {
    var q: Query

    constructor (q: Query)
      ensures this.q == q
    {
      this.q := q;
    }

    method Set(key: string, value: string)
      modifies this
      ensures q == old(q)[key := [value]]
    {
      q := q[key := [value]];
    }

    method Add(key: string, value: string)
      modifies this
      ensures q == old(q)[key := Values(old(q), key) + [value]]
    {
      q := q[key := Values(q, key) + [value]];
    }
  }

  // ---------------------------------------------------------------- the generated code

  /** What one field makes of the values under its key: it replaces them, leaves them, or adds to them. */
  function ToValues(kind: Kind, v: Val, held: seq<string>): seq<string>
    requires HasKind(kind, v)
  {
    match v
    case Str(s) => [s]
    case OptStr(os) => if os.Some? then [os.value] else held
    case Int(i) => [FormatInt(i)]
    case OptInt(oi) => if oi.Some? then [FormatInt(oi.value)] else held
    case OptBool(ob) => if ob.Some? then [FormatBool(ob.value)] else held
    case Arr(items) => held + items
  }

  function TooLongFor(maxLength: Option<nat>, s: string): bool {
    maxLength.Some? && |s| > maxLength.value
  }

  /** The bounds that an optional integer is checked against, the maximum first. */
  function OutOfBounds(key: string, minimum: Option<int>, maximum: Option<int>, i: int): Option<Error> {
    if maximum.Some? && i > maximum.value then Some(TooLarge(key))
    else if minimum.Some? && i < minimum.value then Some(TooSmall(key))
    else None
  }

  /** One field from the values of its key. The bounds of a required integer stand after a return. */
  function FromValues(p: Prop, values: seq<string>): Result<Val, Error> {
    var raw := if values == [] then "" else values[0];
    match p.kind
    case String(required, maxLength) =>
      if required && raw == "" then Err(Required(p.key))
      else if TooLongFor(maxLength, raw) then Err(TooLong(p.key))
      else if required then Ok(Str(raw))
      else Ok(OptStr(if raw == "" then None else Some(raw)))
    case Integer(required, minimum, maximum) =>
      if raw == "" then (if required then Err(Required(p.key)) else Ok(OptInt(None)))
      else (match ParseInt(raw)
        case None => Err(BadValue(p.key))
        case Some(i) =>
          if required then Ok(Int(i))
          else match OutOfBounds(p.key, minimum, maximum, i)
            case Some(e) => Err(e)
            case None => Ok(OptInt(Some(i))))
    case Boolean =>
      if raw == "" then Ok(OptBool(None))
      else (match ParseBool(raw)
        case None => Err(BadValue(p.key))
        case Some(b) => Ok(OptBool(Some(b))))
    case Strings(required) =>
      if required && values == [] then Err(Required(p.key)) else Ok(Arr(values))
  }

  predicate DistinctKeys(props: seq<Prop>) {
    forall i, j :: 0 <= i < j < |props| ==> props[i].key != props[j].key
  }

  /** One field for each property, in order. */
  predicate HasSchema(props: seq<Prop>, vals: seq<Val>) {
    |vals| == |props| && forall i :: 0 <= i < |props| ==> HasKind(props[i].kind, vals[i])
  }

  /** The query `after` is `before` with the first `n` fields written. */
  ghost predicate Holds(props: seq<Prop>, vals: seq<Val>, n: nat, before: Query, after: Query)
    requires HasSchema(props, vals) && n <= |props|
  {
    && (forall i :: 0 <= i < n ==>
         Values(after, props[i].key) == ToValues(props[i].kind, vals[i], Values(before, props[i].key)))
    && (forall k :: (forall i :: 0 <= i < n ==> props[i].key != k) ==> Values(after, k) == Values(before, k))
  }

  /** The generated `toQuery`. */
  method ToQuery(props: seq<Prop>, vals: seq<Val>, w: UrlValues)
    requires DistinctKeys(props) && HasSchema(props, vals)
    modifies w
    ensures Holds(props, vals, |props|, old(w.q), w.q)
  {
    ghost var before := w.q;
    for n := 0 to |props|
      invariant Holds(props, vals, n, before, w.q)
    {
      assert Values(w.q, props[n].key) == Values(before, props[n].key);
      WriteField(props[n], vals[n], w);
    }
  }

  method WriteField(p: Prop, v: Val, w: UrlValues)
    requires HasKind(p.kind, v)
    modifies w
    ensures Values(w.q, p.key) == ToValues(p.kind, v, Values(old(w.q), p.key))
    ensures forall k :: k != p.key ==> Values(w.q, k) == Values(old(w.q), k)
  {
    match v {
      case Str(s) => w.Set(p.key, s);
      case OptStr(os) => if os.Some? { w.Set(p.key, os.value); }
      case Int(i) => w.Set(p.key, FormatInt(i));
      case OptInt(oi) => if oi.Some? { w.Set(p.key, FormatInt(oi.value)); }
      case OptBool(ob) => if ob.Some? { w.Set(p.key, FormatBool(ob.value)); }
      case Arr(items) =>
        for i := 0 to |items|
          invariant Values(w.q, p.key) == Values(old(w.q), p.key) + items[..i]
          invariant forall k :: k != p.key ==> Values(w.q, k) == Values(old(w.q), k)
        {
          assert items[..i + 1] == items[..i] + [items[i]];
          w.Add(p.key, items[i]);
        }
        assert items[..|items|] == items;
    }
  }

  /** The fields, or the first error. */
  function Parsed(props: seq<Prop>, q: Query): (r: Result<seq<Val>, Error>)
    ensures r.Ok? ==> |r.value| == |props|
  {
    if props == [] then Ok([])
    else match Parsed(props[..|props| - 1], q)
      case Err(e) => Err(e)
      case Ok(vals) =>
        match FromValues(props[|props| - 1], Values(q, props[|props| - 1].key))
        case Err(e) => Err(e)
        case Ok(v) => Ok(vals + [v])
  }

  /** The generated `fromQuery`: it assigns the fields only if all were parsed. */
  method FromQuery(props: seq<Prop>, w: UrlValues) returns (r: Result<seq<Val>, Error>)
    ensures r == Parsed(props, w.q)
  {
    var vals: seq<Val> := [];
    for n := 0 to |props|
      invariant Parsed(props[..n], w.q) == Ok(vals)
    {
      var p := props[n];
      assert props[..n + 1][..n] == props[..n];
      var v := FromValues(p, Values(w.q, p.key));
      if v.Err? {
        ParsedFails(props, w.q, n + 1);
        return Err(v.error);
      }
      vals := vals + [v.value];
    }
    assert props[..|props|] == props;
    return Ok(vals);
  }

  lemma {:induction false} ParsedFails(props: seq<Prop>, q: Query, n: nat)
    requires n <= |props| && Parsed(props[..n], q).Err?
    ensures Parsed(props, q) == Parsed(props[..n], q)
  {
    if n < |props| {
      var before := props[..|props| - 1];
      assert before[..n] == props[..n];
      ParsedFails(before, q, n);
    } else {
      assert props[..n] == props;
    }
  }

  // ---------------------------------------------------------------- the round trip

  /**
   A field that can be told from its values: not an empty string, not out of bounds, not a required empty
   array; and where the query held values under the key, not one that leaves a first value or adds to any.
   */
  predicate Representable(kind: Kind, v: Val, held: seq<string>)
    requires HasKind(kind, v)
  {
    match v
    case Str(s) => s != "" && !TooLongFor(kind.maxLength, s)
    case OptStr(os) => if os.Some? then os.value != "" && !TooLongFor(kind.maxLength, os.value) else Unset(held)
    case Int(_) => true
    case OptInt(oi) => if oi.Some? then OutOfBounds("", kind.minimum, kind.maximum, oi.value).None? else Unset(held)
    case OptBool(ob) => ob.Some? || Unset(held)
    case Arr(items) => held == [] && (kind.required ==> items != [])
  }

  /** Such a key reads as one that is not there. */
  predicate Unset(held: seq<string>) {
    held == [] || held[0] == ""
  }

  lemma FieldRoundTrip(p: Prop, v: Val, held: seq<string>)
    requires HasKind(p.kind, v)
    ensures FromValues(p, ToValues(p.kind, v, held)) == Ok(v) <==> Representable(p.kind, v, held)
  {
    match v {
      case Int(i) => IntRoundTrip(i);
      case OptInt(oi) => if oi.Some? { IntRoundTrip(oi.value); }
      case OptBool(ob) => if ob.Some? { BoolRoundTrip(ob.value); }
      case Arr(items) => assert held + items == items <==> held == [];
      case _ =>
    }
  }

  /** Field `i` comes back as `v`. */
  predicate ComesBack(p: Prop, q: Query, v: Val) {
    FromValues(p, Values(q, p.key)) == Ok(v)
  }

  lemma {:induction false} ParsedStep(props: seq<Prop>, q: Query, vals: seq<Val>)
    requires props != [] && |vals| == |props|
    ensures var n := |props| - 1;
            Parsed(props, q) == Ok(vals) <==> Parsed(props[..n], q) == Ok(vals[..n]) && ComesBack(props[n], q, vals[n])
  {
    hide FromValues, Values;
    var n := |props| - 1;
    var first, last := Parsed(props[..n], q), FromValues(props[n], Values(q, props[n].key));
    if first.Ok? && last.Ok? {
      SameEnd(first.value, last.value, vals[..n], vals[n]);
      assert vals == vals[..n] + [vals[n]];
    }
  }

  predicate AllComeBack(props: seq<Prop>, q: Query, vals: seq<Val>, k: nat)
    requires |vals| == |props| && k <= |props|
  {
    forall i :: 0 <= i < k ==> ComesBack(props[i], q, vals[i])
  }

  /** A schema is parsed field by field. */
  lemma {:induction false} ParsedFields(props: seq<Prop>, q: Query, vals: seq<Val>, k: nat)
    requires |vals| == |props| && k <= |props|
    ensures Parsed(props[..k], q) == Ok(vals[..k]) <==> AllComeBack(props, q, vals, k)
  {
    if k == 0 {
      return;
    }
    assert AllComeBack(props, q, vals, k) <==> AllComeBack(props, q, vals, k - 1) && ComesBack(props[k - 1], q, vals[k - 1]);
    hide Parsed, ComesBack, AllComeBack;
    ParsedFields(props, q, vals, k - 1);
    ParsedStep(props[..k], q, vals[..k]);
    assert props[..k][..k - 1] == props[..k - 1] && vals[..k][..k - 1] == vals[..k - 1];
  }

  /**
   `fromQuery` after `toQuery` gives the parameters back exactly if every field is representable beside
   what the query held under its key; other keys do not matter.
   */
  lemma {:induction false} QueryRoundTrip(props: seq<Prop>, vals: seq<Val>, before: Query, after: Query)
    requires DistinctKeys(props) && HasSchema(props, vals) && Holds(props, vals, |props|, before, after)
    ensures Parsed(props, after) == Ok(vals) <==>
            forall i :: 0 <= i < |props| ==> Representable(props[i].kind, vals[i], Values(before, props[i].key))
  {
    ParsedFields(props, after, vals, |props|);
    assert props[..|props|] == props && vals[..|vals|] == vals;
    forall i | 0 <= i < |props|
      ensures ComesBack(props[i], after, vals[i]) <==> Representable(props[i].kind, vals[i], Values(before, props[i].key))
    {
      FieldRoundTrip(props[i], vals[i], Values(before, props[i].key));
    }
  }

  /** The generated pair, one after the other on an empty query. */
  method RoundTrip(props: seq<Prop>, vals: seq<Val>) returns (r: Result<seq<Val>, Error>)
    requires DistinctKeys(props) && HasSchema(props, vals)
    ensures r == Ok(vals) <==> forall i :: 0 <= i < |props| ==> Representable(props[i].kind, vals[i], [])
  {
    var w := new UrlValues(map[]);
    ToQuery(props, vals, w);
    r := FromQuery(props, w);
    QueryRoundTrip(props, vals, map[], w.q);
  }
}
