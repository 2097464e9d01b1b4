/**
 The part of CBOR (RFC 8949) the commit codec stands on: heads, byte and text strings,
 CID links (tag 42 of DAG-CBOR) and the skipping of one data item. Each reader is a function from
 the remaining input to a value and the input left over; `CborReader` and `CborWriter` are the
 streams the codec's methods work on.
 */
module Cbor {
  import opened Wrappers

  type byte = x: int | 0 <= x < 0x100
  type Bytes = seq<byte>

  const TWO_TO_64: int := 0x1_0000_0000_0000_0000
  const TWO_TO_63: int := 0x8000_0000_0000_0000
  type uint64 = x: int | 0 <= x < TWO_TO_64
  type int64 = x: int | -TWO_TO_63 <= x < TWO_TO_63

  /** Go's conversion to int64: the value modulo 2^64, as two's complement. */
  function WrapInt64(n: int): int64 {
    (n + TWO_TO_63) % TWO_TO_64 - TWO_TO_63
  }

  /** Go's conversion from int64 to uint64. */
  function WrapUint64(n: int): uint64 {
    n % TWO_TO_64
  }

  // Major types, section 3.1 of RFC 8949.
  const MAJ_UINT := 0
  const MAJ_NEGATIVE := 1
  const MAJ_BYTES := 2
  const MAJ_TEXT := 3
  const MAJ_ARRAY := 4
  const MAJ_MAP := 5
  const MAJ_TAG := 6
  const MAJ_OTHER := 7

  /** The one byte that encodes null. */
  const NULL_BYTE: byte := 0xf6
  /** The tag DAG-CBOR gives to a CID. */
  const TAG_CID: uint64 := 42
  /** A CID is written as a byte string of at most this length, its first byte zero. */
  const MAX_CID_STRING: nat := 512

  datatype Error =
    | Eof              // no input where a head, byte or string was to start
    | UnexpectedEof    // input ended inside one
    | BadHead          // additional information 28 to 31
    | WrongType
    | TooLong
    | BadCid
    | UndefinedCid
    | Overflow
    | InLinkField(cause: Error)    // an error of a CID field, wrapped with the field's name

  /** A value read and the input that follows it. */
  datatype Parsed<+T> = Parsed(value: T, rest: Bytes)

  /** The error says that the input stopped too soon. */
  predicate IsTruncation(e: Error) {
    e == Eof || e == UnexpectedEof || (e.InLinkField? && IsTruncation(e.cause))
  }

  /** Wraps an error, which is then no longer EOF itself. */
  function InField<T>(r: Result<T, Error>): Result<T, Error> {
    if r.Err? then Err(InLinkField(r.error)) else r
  }

  // ---------------------------------------------------------------- heads

  function Pow256(k: nat): (p: nat)
    ensures p > 0
  {
    if k == 0 then 1 else 256 * Pow256(k - 1)
  }

  /** The `k` low bytes of `n`, most significant first. */
  function BigEndian(n: nat, k: nat): (b: Bytes)
    ensures |b| == k
  {
    if k == 0 then [] else BigEndian(n / 256, k - 1) + [n % 256]
  }

  function FromBigEndian(b: Bytes): (n: nat)
    ensures n < Pow256(|b|)
  {
    if |b| == 0 then 0 else 256 * FromBigEndian(b[..|b| - 1]) + b[|b| - 1]
  }

  lemma {:induction false} BigEndianRoundTrip(n: nat, k: nat)
    requires n < Pow256(k)
    ensures FromBigEndian(BigEndian(n, k)) == n
  {
    if k > 0 {
      BigEndianRoundTrip(n / 256, k - 1);
      var b := BigEndian(n, k);
      assert b[..|b| - 1] == BigEndian(n / 256, k - 1);
    }
  }

  /** Major type and argument, section 3 of RFC 8949. */
  datatype Head = Head(major: nat, arg: uint64)

  /** How many bytes of argument follow the initial byte. */
  function ArgWidth(info: nat): nat
    requires 24 <= info <= 27
  {
    if info == 24 then 1 else if info == 25 then 2 else if info == 26 then 4 else 8
  }

  lemma WidthPowers()
    ensures Pow256(1) == 0x100
    ensures Pow256(2) == 0x1_0000
    ensures Pow256(4) == 0x1_0000_0000
    ensures Pow256(8) == TWO_TO_64
  {
    assert Pow256(3) == 0x100_0000;
    assert Pow256(5) == 0x100_0000_0000;
    assert Pow256(6) == 0x1_0000_0000_0000;
    assert Pow256(7) == 0x100_0000_0000_0000;
  }

  /** The shortest head for a major type and an argument. */
  function EncodeHead(major: nat, arg: uint64): (b: Bytes)
    requires major <= 7
    ensures 1 <= |b| <= 9
  {
    if arg < 24 then [32 * major + arg]
    else if arg < 0x100 then [32 * major + 24] + BigEndian(arg, 1)
    else if arg < 0x1_0000 then [32 * major + 25] + BigEndian(arg, 2)
    else if arg < 0x1_0000_0000 then [32 * major + 26] + BigEndian(arg, 4)
    else [32 * major + 27] + BigEndian(arg, 8)
  }

  /** The two parts of an initial byte. */
  function MajorOf(b: byte): (major: nat)
    ensures major <= 7
  {
    b / 32
  }

  function InfoOf(b: byte): nat {
    b % 32
  }

  function ReadHead(bs: Bytes): (r: Result<Parsed<Head>, Error>)
    ensures r.Ok? ==> r.value.value.major <= 7 && |r.value.rest| < |bs|
  {
    if |bs| == 0 then Err(Eof)
    else
      var major, info := MajorOf(bs[0]), InfoOf(bs[0]);
      if info < 24 then Ok(Parsed(Head(major, info), bs[1..]))
      else if info > 27 then Err(BadHead)
      else
        var w := ArgWidth(info);
        if |bs| < 1 + w then Err(UnexpectedEof)
        else
          WidthPowers();
          Ok(Parsed(Head(major, FromBigEndian(bs[1..1 + w])), bs[1 + w..]))
  }

  lemma HeadRoundTrip(major: nat, arg: uint64, s: Bytes)
    requires major <= 7
    ensures ReadHead(EncodeHead(major, arg) + s) == Ok(Parsed(Head(major, arg), s))
  {
    hide ReadHead, BigEndian, Pow256;
    WidthPowers();
    if arg < 24 {
      ShortHead(major, arg, s);
    } else {
      LongHead(major, if arg < 0x100 then 24 else if arg < 0x1_0000 then 25 else if arg < 0x1_0000_0000 then 26 else 27, arg, s);
    }
  }

  lemma ShortHead(major: nat, arg: uint64, s: Bytes)
    requires major <= 7 && arg < 24
    ensures ReadHead([32 * major + arg] + s) == Ok(Parsed(Head(major, arg), s))
  {
    InitialByte(major, arg);
    assert ([32 * major + arg] + s)[1..] == s;
  }

  /** A head whose argument follows the initial byte, in as many bytes as that says. */
  lemma {:induction false} LongHead(major: nat, info: nat, arg: uint64, s: Bytes)
    requires major <= 7 && 24 <= info <= 27 && arg < Pow256(ArgWidth(info))
    ensures ReadHead([32 * major + info] + BigEndian(arg, ArgWidth(info)) + s) == Ok(Parsed(Head(major, arg), s))
  {
    var w := ArgWidth(info);
    var tail := BigEndian(arg, w);
    BigEndianRoundTrip(arg, w);
    InitialByte(major, info);
    assert |tail| == w;
    hide BigEndian, FromBigEndian, Pow256;
    var bs := [32 * major + info] + tail + s;
    assert bs[0] == 32 * major + info && bs[1..1 + w] == tail && bs[1 + w..] == s;
  }

  lemma InitialByte(major: nat, info: nat)
    requires major <= 7 && info < 32
    ensures MajorOf(32 * major + info) == major && InfoOf(32 * major + info) == info
  {
  }

  /** `io.ReadFull` into a buffer of `n` bytes. */
  function Take(n: nat, bs: Bytes): (r: Result<Parsed<Bytes>, Error>)
    ensures r.Ok? ==> |r.value.value| == n && |r.value.rest| == |bs| - n
  {
    if n == 0 then Ok(Parsed([], bs))
    else if |bs| == 0 then Err(Eof)
    else if |bs| < n then Err(UnexpectedEof)
    else Ok(Parsed(bs[..n], bs[n..]))
  }

  // ---------------------------------------------------------------- strings, links, integers

  function EncodeText(s: Bytes): Bytes
    requires |s| < TWO_TO_64
  {
    EncodeHead(MAJ_TEXT, |s|) + s
  }

  function EncodeBytes(s: Bytes): Bytes
    requires |s| < TWO_TO_64
  {
    EncodeHead(MAJ_BYTES, |s|) + s
  }

  function EncodeCid(c: Bytes): Bytes
    requires 0 < |c| < MAX_CID_STRING
  {
    EncodeHead(MAJ_TAG, TAG_CID) + EncodeBytes([0] + c)
  }

  /** A signed integer: negatives are written as major type 1 with argument -1-v. */
  function EncodeInt(v: int64): Bytes {
    if v >= 0 then EncodeHead(MAJ_UINT, v) else EncodeHead(MAJ_NEGATIVE, -1 - v)
  }

  function ReadString(max: nat, bs: Bytes): Result<Parsed<Bytes>, Error> {
    var h :- ReadHead(bs);
    if h.value.major != MAJ_TEXT then Err(WrongType)
    else if h.value.arg > max then Err(TooLong)
    else Take(h.value.arg, h.rest)
  }

  /** Reads a name into a buffer of `cap` bytes; a longer name is discarded and gives None. */
  function ReadName(cap: nat, max: nat, bs: Bytes): Result<Parsed<Option<Bytes>>, Error> {
    var h :- ReadHead(bs);
    if h.value.major != MAJ_TEXT then Err(WrongType)
    else if h.value.arg > max then Err(TooLong)
    else
      var name :- Take(h.value.arg, h.rest);
      Ok(Parsed(if h.value.arg > cap then None else Some(name.value), name.rest))
  }

  function ReadCid(bs: Bytes): Result<Parsed<Bytes>, Error> {
    var tag :- ReadHead(bs);
    if tag.value != Head(MAJ_TAG, TAG_CID) then Err(BadCid)
    else
      var h :- ReadHead(tag.rest);
      if h.value.major != MAJ_BYTES then Err(WrongType)
      else if h.value.arg > MAX_CID_STRING then Err(TooLong)
      else
        var b :- Take(h.value.arg, h.rest);
        if |b.value| < 2 || b.value[0] != 0 then Err(BadCid)
        else Ok(Parsed(b.value[1..], b.rest))
  }

  /** A link, or null, told apart by peeking at one byte. */
  function ReadCidOrNull(bs: Bytes): Result<Parsed<Option<Bytes>>, Error> {
    if |bs| == 0 then Err(Eof)
    else if bs[0] == NULL_BYTE then Ok(Parsed(None, bs[1..]))
    else
      var c :- InField(ReadCid(bs));
      Ok(Parsed(Some(c.value), c.rest))
  }

  /**
   Reads a byte string into a slice that held `buffered` bytes before. A non-empty string gets a
   slice of its own length; for an empty one the old slice is filled instead.
   */
  function ReadByteString(buffered: nat, max: nat, bs: Bytes): Result<Parsed<Bytes>, Error> {
    var h :- ReadHead(bs);
    if h.value.arg > max then Err(TooLong)
    else if h.value.major != MAJ_BYTES then Err(WrongType)
    else Take(if h.value.arg > 0 then h.value.arg else buffered, h.rest)
  }

  /** Arguments are unsigned; those of 2^63 and above do not fit an int64. */
  function ReadInt(bs: Bytes): Result<Parsed<int64>, Error> {
    var h :- ReadHead(bs);
    if h.value.major != MAJ_UINT && h.value.major != MAJ_NEGATIVE then Err(WrongType)
    else if h.value.arg >= TWO_TO_63 then Err(Overflow)
    else Ok(Parsed(if h.value.major == MAJ_UINT then h.value.arg else -1 - h.value.arg, h.rest))
  }

  lemma TakeRoundTrip(b: Bytes, s: Bytes)
    ensures Take(|b|, b + s) == Ok(Parsed(b, s))
  {
    assert (b + s)[..|b|] == b && (b + s)[|b|..] == s;
  }

  lemma StringRoundTrip(str: Bytes, max: nat, s: Bytes)
    requires |str| <= max < TWO_TO_64
    ensures ReadString(max, EncodeText(str) + s) == Ok(Parsed(str, s))
  {
    assert EncodeText(str) + s == EncodeHead(MAJ_TEXT, |str|) + (str + s);
    HeadRoundTrip(MAJ_TEXT, |str|, str + s);
    TakeRoundTrip(str, s);
  }

  lemma ByteStringRoundTrip(b: Bytes, max: nat, s: Bytes)
    requires |b| <= max < TWO_TO_64
    ensures ReadByteString(0, max, EncodeBytes(b) + s) == Ok(Parsed(b, s))
  {
    assert EncodeBytes(b) + s == EncodeHead(MAJ_BYTES, |b|) + (b + s);
    HeadRoundTrip(MAJ_BYTES, |b|, b + s);
    TakeRoundTrip(b, s);
  }

  lemma CidRoundTrip(c: Bytes, s: Bytes)
    requires 0 < |c| < MAX_CID_STRING
    ensures ReadCid(EncodeCid(c) + s) == Ok(Parsed(c, s))
  {
    var body: Bytes := [0] + c;
    assert EncodeCid(c) + s == EncodeHead(MAJ_TAG, TAG_CID) + (EncodeHead(MAJ_BYTES, |body|) + (body + s));
    HeadRoundTrip(MAJ_TAG, TAG_CID, EncodeHead(MAJ_BYTES, |body|) + (body + s));
    HeadRoundTrip(MAJ_BYTES, |body|, body + s);
    TakeRoundTrip(body, s);
    assert body[1..] == c;
  }

  lemma CidOrNullRoundTrip(c: Option<Bytes>, s: Bytes)
    requires c.Some? ==> 0 < |c.value| < MAX_CID_STRING
    ensures ReadCidOrNull((if c.Some? then EncodeCid(c.value) else [NULL_BYTE]) + s) == Ok(Parsed(c, s))
  {
    if c.Some? {
      CidRoundTrip(c.value, s);
      assert EncodeCid(c.value)[0] == EncodeHead(MAJ_TAG, TAG_CID)[0];
    }
  }

  lemma IntRoundTrip(v: int64, s: Bytes)
    ensures ReadInt(EncodeInt(v) + s) == Ok(Parsed(v, s))
  {
    if v >= 0 {
      HeadRoundTrip(MAJ_UINT, v, s);
    } else {
      HeadRoundTrip(MAJ_NEGATIVE, -1 - v, s);
    }
  }

  // ---------------------------------------------------------------- skipping

  /** How many more items a head announces. */
  function Announced(h: Head): nat {
    if h.major == MAJ_ARRAY then h.arg
    else if h.major == MAJ_MAP then 2 * h.arg
    else if h.major == MAJ_TAG then 1
    else 0
  }

  /** How many bytes of string a head announces. */
  function Payload(h: Head): nat {
    if h.major == MAJ_BYTES || h.major == MAJ_TEXT then h.arg else 0
  }

  /** The input after the next `count` data items, read with one counter and no recursion on nesting. */
  function Skip(count: nat, bs: Bytes): Result<Bytes, Error>
    decreases |bs|
  {
    if count == 0 then Ok(bs)
    else
      var h :- ReadHead(bs);
      var body :- Take(Payload(h.value), h.rest);
      Skip(count - 1 + Announced(h.value), body.rest)
  }

  /** One turn of the skipping loop. */
  lemma SkipStep(count: nat, bs: Bytes)
    requires count > 0
    ensures Skip(count, bs) ==
            match ReadHead(bs) {
              case Err(e) => Err(e)
              case Ok(h) =>
                match Take(Payload(h.value), h.rest) {
                  case Err(e) => Err(e)
                  case Ok(body) => Skip(count - 1 + Announced(h.value), body.rest)
                }
            }
  {
    hide ReadHead, Take;
  }

  lemma {:induction false} SkipNone(bs: Bytes)
    ensures Skip(0, bs) == Ok(bs)
  {
  }

  /** Skipping a run of items is skipping its first part and then the rest. */
  lemma {:induction false} SkipSplits(m: nat, n: nat, bs: Bytes)
    ensures Skip(m + n, bs) ==
            match Skip(m, bs) { case Err(e) => Err(e) case Ok(rest) => Skip(n, rest) }
    decreases |bs|
  {
    hide ReadHead, Take, Skip;
    if m > 0 {
      SkipStep(m, bs);
      SkipStep(m + n, bs);
      if ReadHead(bs).Ok? {
        var h := ReadHead(bs).value;
        if Take(Payload(h.value), h.rest).Ok? {
          var more := m - 1 + Announced(h.value);
          SkipSplits(more, n, Take(Payload(h.value), h.rest).value.rest);
          assert m + n - 1 + Announced(h.value) == more + n;
        }
      }
    } else {
      SkipNone(bs);
    }
  }

  /** Data items of RFC 8949 (definite lengths), as trees: the reference `Skip` is held against. */
  datatype Item =
    | UInt(n: uint64)
    | NInt(n: uint64)
    | ByteString(b: Bytes)
    | TextString(b: Bytes)
    | Array(items: seq<Item>)
    | Map(pairs: seq<Item>)       // keys and values in turn
    | Tag(tag: uint64, item: Item)
    | Simple(n: uint64)

  predicate WellFormed(i: Item) {
    match i
    case UInt(_) => true
    case NInt(_) => true
    case Simple(_) => true
    case ByteString(b) => |b| < TWO_TO_64
    case TextString(b) => |b| < TWO_TO_64
    case Array(items) => |items| < TWO_TO_64 && forall k :: 0 <= k < |items| ==> WellFormed(items[k])
    case Map(pairs) => |pairs| % 2 == 0 && |pairs| / 2 < TWO_TO_64 && forall k :: 0 <= k < |pairs| ==> WellFormed(pairs[k])
    case Tag(_, item) => WellFormed(item)
  }

  function EncodeItem(i: Item): Bytes
    requires WellFormed(i)
    decreases i, 0
  {
    match i
    case UInt(n) => EncodeHead(MAJ_UINT, n)
    case NInt(n) => EncodeHead(MAJ_NEGATIVE, n)
    case ByteString(b) => EncodeBytes(b)
    case TextString(b) => EncodeText(b)
    case Array(items) => EncodeHead(MAJ_ARRAY, |items|) + EncodeItems(items)
    case Map(pairs) => EncodeHead(MAJ_MAP, |pairs| / 2) + EncodeItems(pairs)
    case Tag(t, item) => EncodeHead(MAJ_TAG, t) + EncodeItem(item)
    case Simple(n) => EncodeHead(MAJ_OTHER, n)
  }

  function EncodeItems(items: seq<Item>): Bytes
    requires forall k :: 0 <= k < |items| ==> WellFormed(items[k])
    decreases items, 0
  {
    if items == [] then [] else EncodeItem(items[0]) + EncodeItems(items[1..])
  }

  /** A head without a string behind it leaves the items it announces to be skipped. */
  lemma {:induction false} SkipHead(major: nat, arg: uint64, body: Bytes, s: Bytes)
    requires major <= 7 && major != MAJ_BYTES && major != MAJ_TEXT
    ensures Skip(1, EncodeHead(major, arg) + body + s) == Skip(Announced(Head(major, arg)), body + s)
  {
    hide ReadHead, EncodeHead, Skip;
    var bs := EncodeHead(major, arg) + body + s;
    assert bs == EncodeHead(major, arg) + (body + s);
    HeadRoundTrip(major, arg, body + s);
    SkipStep(1, bs);
  }

  /** Skipping one item passes over exactly one encoded item, however deeply it nests. */
  lemma {:induction false} SkipPassesItem(i: Item, s: Bytes)
    requires WellFormed(i)
    ensures Skip(1, EncodeItem(i) + s) == Ok(s)
    decreases i, 0
  {
    hide ReadHead, EncodeHead;
    assert [] + s == s;
    match i
    case UInt(n) => SkipLeaf(MAJ_UINT, n, s);
    case NInt(n) => SkipLeaf(MAJ_NEGATIVE, n, s);
    case Simple(n) => SkipLeaf(MAJ_OTHER, n, s);
    case ByteString(b) => SkipPassesString(MAJ_BYTES, b, s);
    case TextString(b) => SkipPassesString(MAJ_TEXT, b, s);
    case Array(items) =>
      SkipHead(MAJ_ARRAY, |items|, EncodeItems(items), s);
      SkipPassesItems(items, s);
    case Map(pairs) =>
      SkipHead(MAJ_MAP, |pairs| / 2, EncodeItems(pairs), s);
      SkipPassesItems(pairs, s);
    case Tag(t, item) =>
      SkipHead(MAJ_TAG, t, EncodeItem(item), s);
      SkipPassesItem(item, s);
  }

  lemma {:induction false} SkipLeaf(major: nat, arg: uint64, s: Bytes)
    requires major == MAJ_UINT || major == MAJ_NEGATIVE || major == MAJ_OTHER
    ensures Skip(1, EncodeHead(major, arg) + s) == Ok(s)
  {
    hide ReadHead, EncodeHead, Skip;
    SkipHead(major, arg, [], s);
    SkipNone(s);
    assert EncodeHead(major, arg) + [] + s == EncodeHead(major, arg) + s && [] + s == s;
  }

  lemma {:induction false} SkipPassesItems(items: seq<Item>, s: Bytes)
    requires forall k :: 0 <= k < |items| ==> WellFormed(items[k])
    ensures Skip(|items|, EncodeItems(items) + s) == Ok(s)
    decreases items, 0
  {
    hide ReadHead, EncodeHead;
    if items == [] {
      assert EncodeItems(items) + s == s;
    } else {
      assert EncodeItems(items) + s == EncodeItem(items[0]) + (EncodeItems(items[1..]) + s);
      SkipPassesItem(items[0], EncodeItems(items[1..]) + s);
      SkipPassesItems(items[1..], s);
      SkipSplits(1, |items| - 1, EncodeItems(items) + s);
    }
  }

  lemma {:induction false} SkipPassesString(major: nat, b: Bytes, s: Bytes)
    requires major == MAJ_BYTES || major == MAJ_TEXT
    requires |b| < TWO_TO_64
    ensures Skip(1, EncodeHead(major, |b|) + b + s) == Ok(s)
  {
    hide ReadHead, EncodeHead, Skip, Take;
    var bs := EncodeHead(major, |b|) + b + s;
    assert bs == EncodeHead(major, |b|) + (b + s);
    HeadRoundTrip(major, |b|, b + s);
    TakeRoundTrip(b, s);
    SkipStep(1, bs);
    SkipNone(s);
  }

  // ---------------------------------------------------------------- readers only see what they use

  /** More input behind does not change what a head or a string reads. */
  lemma HeadExtends(bs: Bytes, s: Bytes)
    requires ReadHead(bs).Ok?
    ensures ReadHead(bs + s) == Ok(Parsed(ReadHead(bs).value.value, ReadHead(bs).value.rest + s))
  {
    hide MajorOf, InfoOf, FromBigEndian, Pow256;
    var info := InfoOf(bs[0]);
    if info < 24 {
      assert (bs + s)[1..] == bs[1..] + s;
    } else {
      var w := ArgWidth(info);
      assert (bs + s)[1..1 + w] == bs[1..1 + w];
      assert (bs + s)[1 + w..] == bs[1 + w..] + s;
    }
  }

  lemma TakeExtends(n: nat, bs: Bytes, s: Bytes)
    requires Take(n, bs).Ok?
    ensures Take(n, bs + s) == Ok(Parsed(Take(n, bs).value.value, Take(n, bs).value.rest + s))
  {
    if n > 0 {
      assert (bs + s)[..n] == bs[..n];
      assert (bs + s)[n..] == bs[n..] + s;
    }
  }

  lemma {:induction false} SkipExtends(count: nat, bs: Bytes, s: Bytes)
    requires Skip(count, bs).Ok?
    ensures Skip(count, bs + s) == Ok(Skip(count, bs).value + s)
    decreases |bs|
  {
    hide ReadHead, Take, Skip;
    if count > 0 {
      SkipStep(count, bs);
      SkipStep(count, bs + s);
      var h := ReadHead(bs).value;
      HeadExtends(bs, s);
      TakeExtends(Payload(h.value), h.rest, s);
      SkipExtends(count - 1 + Announced(h.value), Take(Payload(h.value), h.rest).value.rest, s);
    } else {
      SkipNone(bs);
      SkipNone(bs + s);
    }
  }

  lemma TypedReadersExtend(max: nat, bs: Bytes, s: Bytes)
    ensures ReadString(max, bs).Ok? ==>
              ReadString(max, bs + s) == Ok(Parsed(ReadString(max, bs).value.value, ReadString(max, bs).value.rest + s))
    ensures ReadByteString(0, max, bs).Ok? ==>
              ReadByteString(0, max, bs + s) ==
              Ok(Parsed(ReadByteString(0, max, bs).value.value, ReadByteString(0, max, bs).value.rest + s))
    ensures ReadCidOrNull(bs).Ok? ==>
              ReadCidOrNull(bs + s) == Ok(Parsed(ReadCidOrNull(bs).value.value, ReadCidOrNull(bs).value.rest + s))
    ensures ReadCid(bs).Ok? ==>
              ReadCid(bs + s) == Ok(Parsed(ReadCid(bs).value.value, ReadCid(bs).value.rest + s))
    ensures ReadInt(bs).Ok? ==>
              ReadInt(bs + s) == Ok(Parsed(ReadInt(bs).value.value, ReadInt(bs).value.rest + s))
  {
    NullHead(bs);
    hide ReadHead, Take;
    if bs != [] && bs[0] == NULL_BYTE {
      assert (bs + s)[1..] == bs[1..] + s;
    }
    if ReadHead(bs).Ok? {
      var h := ReadHead(bs).value;
      HeadExtends(bs, s);
      if Take(h.value.arg, h.rest).Ok? {
        TakeExtends(h.value.arg, h.rest, s);
      }
      if ReadCid(bs).Ok? {
        HeadExtends(h.rest, s);
        TakeExtends(ReadHead(h.rest).value.value.arg, ReadHead(h.rest).value.rest, s);
      }
    }
  }

  // ---------------------------------------------------------------- input that stops too soon

  /** How a reader answers on the first `k` bytes, from how it answers on all `n` of them. */
  ghost predicate CutTo<T(!new)>(whole: Result<Parsed<T>, Error>, cut: Result<Parsed<T>, Error>, n: nat, k: nat) {
    whole.Ok? ==>
      && |whole.value.rest| <= n
      && var used := n - |whole.value.rest|;
      if k < used then cut.Err? && IsTruncation(cut.error)
      else k - used <= |whole.value.rest| && cut == Ok(Parsed(whole.value.value, whole.value.rest[..k - used]))
  }

  lemma HeadCut(bs: Bytes, k: nat)
    requires k <= |bs|
    ensures CutTo(ReadHead(bs), ReadHead(bs[..k]), |bs|, k)
  {
    hide MajorOf, InfoOf, FromBigEndian, Pow256;
    if ReadHead(bs).Ok? && k > 0 {
      var info := InfoOf(bs[0]);
      assert bs[..k][0] == bs[0];
      if info < 24 {
        assert bs[..k][1..] == bs[1..][..k - 1];
      } else {
        var w := ArgWidth(info);
        if 1 + w <= k {
          assert bs[..k][1..1 + w] == bs[1..1 + w];
          assert bs[..k][1 + w..] == bs[1 + w..][..k - 1 - w];
        }
      }
    }
  }

  lemma TakeCut(n: nat, bs: Bytes, k: nat)
    requires k <= |bs|
    ensures CutTo(Take(n, bs), Take(n, bs[..k]), |bs|, k)
  {
    if n > 0 && n <= k {
      assert bs[..k][..n] == bs[..n];
      assert bs[..k][n..] == bs[n..][..k - n];
    }
  }

  lemma {:induction false} SkipCut(count: nat, bs: Bytes, k: nat)
    requires k <= |bs| && Skip(count, bs).Ok?
    ensures |Skip(count, bs).value| <= |bs|
    ensures var used := |bs| - |Skip(count, bs).value|;
            if k < used then Skip(count, bs[..k]).Err? && IsTruncation(Skip(count, bs[..k]).error)
            else Skip(count, bs[..k]) == Ok(Skip(count, bs).value[..k - used])
    decreases |bs|
  {
    hide ReadHead, Take, Skip;
    if count > 0 {
      SkipStep(count, bs);
      SkipStep(count, bs[..k]);
      HeadCut(bs, k);
      var h := ReadHead(bs).value;
      var body := Take(Payload(h.value), h.rest).value;
      var k1 := k - (|bs| - |h.rest|);
      if k1 >= 0 {
        TakeCut(Payload(h.value), h.rest, k1);
        var k2 := k1 - (|h.rest| - |body.rest|);
        SkipCut(count - 1 + Announced(h.value), body.rest, if k2 >= 0 then k2 else 0);
      } else {
        SkipCut(count - 1 + Announced(h.value), body.rest, 0);
      }
    } else {
      SkipNone(bs);
      SkipNone(bs[..k]);
    }
  }

  lemma TypedReadersCut(buffered: nat, max: nat, bs: Bytes, k: nat)
    requires k <= |bs|
    ensures CutTo(ReadString(max, bs), ReadString(max, bs[..k]), |bs|, k)
    ensures CutTo(ReadByteString(buffered, max, bs), ReadByteString(buffered, max, bs[..k]), |bs|, k)
    ensures CutTo(ReadCidOrNull(bs), ReadCidOrNull(bs[..k]), |bs|, k)
    ensures CutTo(ReadCid(bs), ReadCid(bs[..k]), |bs|, k)
    ensures CutTo(ReadInt(bs), ReadInt(bs[..k]), |bs|, k)
  {
    CidCut(bs, k);
    hide ReadHead, Take, ReadCid, ReadCidOrNull;
    HeadCut(bs, k);
    if ReadHead(bs).Ok? {
      var h := ReadHead(bs).value;
      var k1 := k - (|bs| - |h.rest|);
      if k1 >= 0 {
        TakeCut(h.value.arg, h.rest, k1);
        TakeCut(buffered, h.rest, k1);
      }
    }
  }

  lemma CidCut(bs: Bytes, k: nat)
    requires k <= |bs|
    ensures CutTo(ReadCidOrNull(bs), ReadCidOrNull(bs[..k]), |bs|, k)
    ensures CutTo(ReadCid(bs), ReadCid(bs[..k]), |bs|, k)
  {
    NullHead(bs);
    hide ReadHead, Take;
    HeadCut(bs, k);
    if bs != [] && k > 0 {
      assert bs[..k][1..] == bs[1..][..k - 1];
    }
    if ReadHead(bs).Ok? {
      var h := ReadHead(bs).value;
      var k1 := k - (|bs| - |h.rest|);
      if k1 >= 0 {
        HeadCut(h.rest, k1);
        if ReadHead(h.rest).Ok? {
          var g := ReadHead(h.rest).value;
          var k2 := k1 - (|h.rest| - |g.rest|);
          if k2 >= 0 {
            TakeCut(g.value.arg, g.rest, k2);
          }
        }
      }
    }
  }

  /**
   A typed reader that succeeds has read exactly one data item: it leaves off where skipping
   would. This is what lets one codec skip a field that another one reads.
   */
  lemma {:induction false} TypedReadersReadOneItem(max: nat, bs: Bytes)
    ensures ReadString(max, bs).Ok? ==> Skip(1, bs) == Ok(ReadString(max, bs).value.rest)
    ensures ReadByteString(0, max, bs).Ok? ==> Skip(1, bs) == Ok(ReadByteString(0, max, bs).value.rest)
    ensures ReadCidOrNull(bs).Ok? ==> Skip(1, bs) == Ok(ReadCidOrNull(bs).value.rest)
    ensures ReadCid(bs).Ok? ==> Skip(1, bs) == Ok(ReadCid(bs).value.rest)
    ensures ReadInt(bs).Ok? ==> Skip(1, bs) == Ok(ReadInt(bs).value.rest)
  {
    NullHead(bs);
    hide ReadHead, Take, Skip;
    SkipStep(1, bs);
    if ReadHead(bs).Ok? {
      var h := ReadHead(bs).value;
      TakeNone(h.rest);
      SkipNone(h.rest);
      if ReadString(max, bs).Ok? {
        SkipNone(ReadString(max, bs).value.rest);
      }
      if ReadByteString(0, max, bs).Ok? {
        SkipNone(ReadByteString(0, max, bs).value.rest);
      }
      if ReadCid(bs).Ok? {
        SkipStep(1, h.rest);
        SkipNone(ReadCid(bs).value.rest);
      }
    }
  }

  /** Null is an item of one byte. */
  lemma NullHead(bs: Bytes)
    ensures bs != [] && bs[0] == NULL_BYTE ==> ReadHead(bs) == Ok(Parsed(Head(MAJ_OTHER, 22), bs[1..]))
  {
  }

  lemma TakeNone(bs: Bytes)
    ensures Take(0, bs) == Ok(Parsed([], bs))
  {
  }

  lemma NameCut(cap: nat, max: nat, bs: Bytes, k: nat)
    requires k <= |bs|
    ensures CutTo(ReadName(cap, max, bs), ReadName(cap, max, bs[..k]), |bs|, k)
  {
    hide ReadHead, Take;
    HeadCut(bs, k);
    if ReadHead(bs).Ok? {
      var h := ReadHead(bs).value;
      var k1 := k - (|bs| - |h.rest|);
      if k1 >= 0 {
        TakeCut(h.value.arg, h.rest, k1);
      }
    }
  }

  /** A reader that takes a whole item answers alike with the item alone and with `s` behind it. */
  ghost predicate AgreesFramed<T>(alone: Result<Parsed<T>, Error>, followed: Result<Parsed<T>, Error>, s: Bytes) {
    match alone
    case Ok(p) => p.rest == [] && followed == Ok(Parsed(p.value, s))
    case Err(_) => followed.Err?
  }

  lemma AgreeFramed<T(!new)>(alone: Result<Parsed<T>, Error>, followed: Result<Parsed<T>, Error>, raw: Bytes, s: Bytes)
    requires alone.Ok? ==> alone.value.rest == [] && followed == Ok(Parsed(alone.value.value, [] + s))
    requires followed.Ok? ==> followed.value.rest == s
    requires CutTo(followed, alone, |raw + s|, |raw|)
    ensures AgreesFramed(alone, followed, s)
  {
    assert [] + s == s;
  }

  lemma {:induction false} TypedReadersFramed(max: nat, raw: Bytes, s: Bytes)
    requires Skip(1, raw) == Ok([])
    ensures AgreesFramed(ReadString(max, raw), ReadString(max, raw + s), s)
    ensures AgreesFramed(ReadByteString(0, max, raw), ReadByteString(0, max, raw + s), s)
    ensures AgreesFramed(ReadCidOrNull(raw), ReadCidOrNull(raw + s), s)
    ensures AgreesFramed(ReadCid(raw), ReadCid(raw + s), s)
    ensures AgreesFramed(ReadInt(raw), ReadInt(raw + s), s)
  {
    hide Skip, ReadString, ReadByteString, ReadCid, ReadCidOrNull, ReadInt, AgreesFramed, CutTo;
    assert [] + s == s && (raw + s)[..|raw|] == raw;
    SkipExtends(1, raw, s);
    TypedReadersReadOneItem(max, raw);
    TypedReadersReadOneItem(max, raw + s);
    TypedReadersExtend(max, raw, s);
    TypedReadersCut(0, max, raw + s, |raw|);
    AgreeFramed(ReadString(max, raw), ReadString(max, raw + s), raw, s);
    AgreeFramed(ReadByteString(0, max, raw), ReadByteString(0, max, raw + s), raw, s);
    AgreeFramed(ReadCidOrNull(raw), ReadCidOrNull(raw + s), raw, s);
    AgreeFramed(ReadCid(raw), ReadCid(raw + s), raw, s);
    AgreeFramed(ReadInt(raw), ReadInt(raw + s), raw, s);
  }

  // ---------------------------------------------------------------- streams

  /** A stream written to: everything written so far. */
  class CborWriter {
    var out: Bytes

    constructor ()
      ensures out == []
    {
      out := [];
    }

    method Write(b: Bytes)
      modifies this
      ensures out == old(out) + b
    {
      out := out + b;
    }

    method WriteHead(major: nat, arg: uint64)
      requires major <= 7
      modifies this
      ensures out == old(out) + EncodeHead(major, arg)
    {
      out := out + EncodeHead(major, arg);
    }

    method WriteText(s: Bytes)
      requires |s| < TWO_TO_64
      modifies this
      ensures out == old(out) + EncodeText(s)
    {
      WriteHead(MAJ_TEXT, |s|);
      Write(s);
    }

    /** The undefined CID has no bytes and cannot be written. */
    method WriteCid(c: Bytes) returns (r: Result<(), Error>)
      requires |c| < MAX_CID_STRING
      modifies this
      ensures r.Ok? <==> c != []
      ensures r.Ok? ==> out == old(out) + EncodeCid(c)
      ensures r.Err? ==> out == old(out) && r.error == UndefinedCid
    {
      if c == [] {
        return Err(UndefinedCid);
      }
      WriteHead(MAJ_TAG, TAG_CID);
      WriteHead(MAJ_BYTES, |c| + 1);
      Write([0]);
      Write(c);
      assert out == old(out) + EncodeCid(c);
      return Ok(());
    }
  }

  /** A stream read from, with the one-byte peek the codec uses. */
  class CborReader {
    const input: Bytes
    var pos: nat

    ghost predicate Valid()
      reads this
    {
      pos <= |input|
    }

    function Rest(): Bytes
      requires Valid()
      reads this
    {
      input[pos..]
    }

    constructor (bs: Bytes)
      ensures Valid() && Rest() == bs
    {
      input := bs;
      pos := 0;
    }

    method ReadHeader() returns (r: Result<Head, Error>)
      requires Valid()
      modifies this`pos
      ensures Valid()
      ensures match ReadHead(old(Rest())) {
                case Ok(p) => r == Ok(p.value) && Rest() == p.rest
                case Err(e) => r == Err(e)
              }
    {
      var h := ReadHead(input[pos..]);
      if h.Err? {
        return Err(h.error);
      }
      pos := |input| - |h.value.rest|;
      return Ok(h.value.value);
    }

    method ReadFull(n: nat) returns (r: Result<Bytes, Error>)
      requires Valid()
      modifies this`pos
      ensures Valid()
      ensures match Take(n, old(Rest())) {
                case Ok(p) => r == Ok(p.value) && Rest() == p.rest
                case Err(e) => r == Err(e)
              }
    {
      if n == 0 {
        return Ok([]);
      }
      if pos == |input| {
        return Err(Eof);
      }
      if |input| - pos < n {
        return Err(UnexpectedEof);
      }
      pos := pos + n;
      assert input[pos - n..pos] == old(Rest())[..n];
      return Ok(input[pos - n..pos]);
    }

    method ReadByte() returns (r: Result<byte, Error>)
      requires Valid()
      modifies this`pos
      ensures Valid()
      ensures if old(Rest()) == [] then r == Err(Eof) && pos == old(pos)
              else r == Ok(old(Rest())[0]) && pos == old(pos) + 1
    {
      if pos == |input| {
        return Err(Eof);
      }
      pos := pos + 1;
      return Ok(input[pos - 1]);
    }

    method UnreadByte()
      requires Valid() && pos > 0
      modifies this`pos
      ensures Valid() && pos == old(pos) - 1
    {
      pos := pos - 1;
    }

    method ReadStringWithMax(max: nat) returns (r: Result<Bytes, Error>)
      requires Valid()
      modifies this`pos
      ensures Valid()
      ensures match ReadString(max, old(Rest())) {
                case Ok(p) => r == Ok(p.value) && Rest() == p.rest
                case Err(e) => r == Err(e)
              }
    {
      var h :- ReadHeader();
      if h.major != MAJ_TEXT {
        return Err(WrongType);
      }
      if h.arg > max {
        return Err(TooLong);
      }
      r := ReadFull(h.arg);
    }

    method ReadFullStringIntoBuf(cap: nat, max: nat) returns (r: Result<Option<Bytes>, Error>)
      requires Valid()
      modifies this`pos
      ensures Valid()
      ensures match ReadName(cap, max, old(Rest())) {
                case Ok(p) => r == Ok(p.value) && Rest() == p.rest
                case Err(e) => r == Err(e)
              }
    {
      var h :- ReadHeader();
      if h.major != MAJ_TEXT {
        return Err(WrongType);
      }
      if h.arg > max {
        return Err(TooLong);
      }
      var name :- ReadFull(h.arg);
      return Ok(if h.arg > cap then None else Some(name));
    }

    method ReadLink() returns (r: Result<Bytes, Error>)
      requires Valid()
      modifies this`pos
      ensures Valid()
      ensures match ReadCid(old(Rest())) {
                case Ok(p) => r == Ok(p.value) && Rest() == p.rest
                case Err(e) => r == Err(e)
              }
    {
      var tag :- ReadHeader();
      if tag != Head(MAJ_TAG, TAG_CID) {
        return Err(BadCid);
      }
      var h :- ReadHeader();
      if h.major != MAJ_BYTES {
        return Err(WrongType);
      }
      if h.arg > MAX_CID_STRING {
        return Err(TooLong);
      }
      var b :- ReadFull(h.arg);
      if |b| < 2 || b[0] != 0 {
        return Err(BadCid);
      }
      return Ok(b[1..]);
    }

    /** Skips one data item with a counter of items still to come. */
    method ScanForLinks() returns (r: Result<(), Error>)
      requires Valid()
      modifies this`pos
      ensures Valid()
      ensures match Skip(1, old(Rest())) {
                case Ok(rest) => r == Ok(()) && Rest() == rest
                case Err(e) => r == Err(e)
              }
    {
      hide ReadHead, Take, Skip;
      var remaining: nat := 1;
      ghost var outcome := Skip(1, Rest());
      while remaining > 0
        invariant Valid()
        invariant Skip(remaining, Rest()) == outcome
        decreases |Rest()|
      {
        SkipStep(remaining, Rest());
        var h :- ReadHeader();
        var body :- ReadFull(Payload(h));
        remaining := remaining - 1 + Announced(h);
      }
      SkipNone(Rest());
      return Ok(());
    }
  }
}
