/**
 The two repository commit codecs: a signed commit and the unsigned commit that is signed.
 A commit is a CBOR map. `DecodeFields` says what a decoder answers on any input; the lemmas give
 decoding a meaning that depends only on which raw value stands under which known key, and from it
 follow the round trips, the agreement of the two codecs and the irrelevance of order and of
 unknown entries.
 */
module Commit {
  import opened Wrappers
  import opened Cbor

  /** CID bytes; none stand for the undefined CID. */
  type CidBytes = c: Bytes | |c| < MAX_CID_STRING

  datatype SignedCommit = SignedCommit(
    did: Bytes, rev: Bytes, sig: Bytes, data: CidBytes, prev: Option<CidBytes>, version: int64)

  datatype UnsignedCommit = UnsignedCommit(
    did: Bytes, rev: Bytes, data: CidBytes, prev: Option<CidBytes>, version: int64)

  /** Which of the two codecs. */
  datatype Kind = Signed | Unsigned

  const KEY_DID: Bytes := [0x64, 0x69, 0x64]
  const KEY_REV: Bytes := [0x72, 0x65, 0x76]
  const KEY_SIG: Bytes := [0x73, 0x69, 0x67]
  const KEY_DATA: Bytes := [0x64, 0x61, 0x74, 0x61]
  const KEY_PREV: Bytes := [0x70, 0x72, 0x65, 0x76]
  const KEY_VERSION: Bytes := [0x76, 0x65, 0x72, 0x73, 0x69, 0x6f, 0x6e]

  const MAX_STRING: nat := 1000000
  const MAX_SIG: nat := 2097152
  /** The most entries a map may announce. */
  const MAX_LENGTH: nat := 8192
  /** The length of the buffer field names are read into. */
  const NAME_BUFFER: nat := 7

  const ZERO_COMMIT: SignedCommit := SignedCommit([], [], [], [], None, 0)

  function Unsign(c: SignedCommit): UnsignedCommit {
    UnsignedCommit(c.did, c.rev, c.data, c.prev, c.version)
  }

  function WithSig(c: UnsignedCommit, sig: Bytes): SignedCommit {
    SignedCommit(c.did, c.rev, sig, c.data, c.prev, c.version)
  }

  // ---------------------------------------------------------------- encoding

  /** One map entry: a key, and its value as encoded. */
  datatype Entry = Entry(key: Bytes, raw: Bytes)

  function EncodeEntry(e: Entry): Bytes
    requires |e.key| <= MAX_STRING
  {
    EncodeText(e.key) + e.raw
  }

  function EncodeEntries(es: seq<Entry>): Bytes
    requires forall e <- es :: |e.key| <= MAX_STRING
  {
    if es == [] then [] else EncodeEntry(es[0]) + EncodeEntries(es[1..])
  }

  function EncodeMap(es: seq<Entry>): Bytes
    requires |es| <= MAX_LENGTH
    requires forall e <- es :: |e.key| <= MAX_STRING
  {
    EncodeHead(MAJ_MAP, |es|) + EncodeEntries(es)
  }

  /** What the encoder accepts: lengths within the limits and CIDs that are defined. */
  predicate Encodable(kind: Kind, c: SignedCommit) {
    && |c.did| <= MAX_STRING
    && |c.rev| <= MAX_STRING
    && (kind == Signed ==> |c.sig| <= MAX_SIG)
    && c.data != []
    && c.prev != Some([])
  }

  function EncodePrev(prev: Option<CidBytes>): Bytes
    requires prev != Some([])
  {
    if prev.Some? then EncodeCid(prev.value) else [NULL_BYTE]
  }

  /** The entries of an encoded commit, in the order written. */
  function Entries(kind: Kind, c: SignedCommit): (es: seq<Entry>)
    requires Encodable(kind, c)
    ensures forall e <- es :: |e.key| <= MAX_STRING
    ensures |es| <= 6
  {
    [Entry(KEY_DID, EncodeText(c.did))]
    + (if c.rev == [] then [] else [Entry(KEY_REV, EncodeText(c.rev))])
    + (if kind == Signed then [Entry(KEY_SIG, EncodeBytes(c.sig))] else [])
    + [Entry(KEY_DATA, EncodeCid(c.data)),
       Entry(KEY_PREV, EncodePrev(c.prev)),
       Entry(KEY_VERSION, EncodeInt(c.version))]
  }

  function Encode(kind: Kind, c: SignedCommit): Bytes
    requires Encodable(kind, c)
  {
    EncodeMap(Entries(kind, c))
  }

  // ---------------------------------------------------------------- decoding

  /** What a field of the map holds once read. */
  datatype FieldValue =
    | Text(text: Bytes)
    | Blob(blob: Bytes)
    | Link(link: Option<Bytes>)
    | Number(number: int64)
    | Ignored

  predicate IsKnown(kind: Kind, key: Bytes) {
    key == KEY_DID || key == KEY_REV || key == KEY_DATA || key == KEY_PREV || key == KEY_VERSION
    || (kind == Signed && key == KEY_SIG)
  }

  /** Reads the value of one field; `buffered` is the length of the signature read before. */
  function ReadField(kind: Kind, key: Bytes, buffered: nat, bs: Bytes): Result<Parsed<FieldValue>, Error> {
    if key == KEY_DID || key == KEY_REV then
      var s :- ReadString(MAX_STRING, bs);
      Ok(Parsed(Text(s.value), s.rest))
    else if kind == Signed && key == KEY_SIG then
      var b :- ReadByteString(buffered, MAX_SIG, bs);
      Ok(Parsed(Blob(b.value), b.rest))
    else if key == KEY_DATA then
      var c :- InField(ReadCid(bs));
      Ok(Parsed(Link(Some(c.value)), c.rest))
    else if key == KEY_PREV then
      var c :- ReadCidOrNull(bs);
      Ok(Parsed(Link(c.value), c.rest))
    else if key == KEY_VERSION then
      var v :- ReadInt(bs);
      Ok(Parsed(Number(v.value), v.rest))
    else
      var rest :- Skip(1, bs);
      Ok(Parsed(Ignored, rest))
  }

  predicate IsCid(c: Bytes) {
    0 < |c| < MAX_CID_STRING
  }

  /** Stores a field. A null link leaves the previous commit as it was. */
  function Store(t: SignedCommit, key: Bytes, v: FieldValue): SignedCommit {
    if key == KEY_DID && v.Text? then t.(did := v.text)
    else if key == KEY_REV && v.Text? then t.(rev := v.text)
    else if key == KEY_SIG && v.Blob? then t.(sig := v.blob)
    else if key == KEY_DATA && v.Link? && v.link.Some? && IsCid(v.link.value) then t.(data := v.link.value)
    else if key == KEY_PREV && v.Link? && v.link.Some? && IsCid(v.link.value) then t.(prev := Some(v.link.value))
    else if key == KEY_VERSION && v.Number? then t.(version := v.number)
    else t
  }

  function DecodeEntry(kind: Kind, t: SignedCommit, bs: Bytes): Result<Parsed<SignedCommit>, Error> {
    var name :- ReadName(NAME_BUFFER, MAX_STRING, bs);
    if name.value.None? then
      var rest :- Skip(1, name.rest);
      Ok(Parsed(t, rest))
    else
      var v :- ReadField(kind, name.value.value, |t.sig|, name.rest);
      Ok(Parsed(Store(t, name.value.value, v.value), v.rest))
  }

  function DecodeEntries(kind: Kind, n: nat, t: SignedCommit, bs: Bytes): Result<Parsed<SignedCommit>, Error> {
    if n == 0 then Ok(Parsed(t, bs))
    else
      var e :- DecodeEntry(kind, t, bs);
      DecodeEntries(kind, n - 1, e.value, e.rest)
  }

  /** Past the map's head, an input that ends is an unexpected end. */
  function PastHead<T>(r: Result<T, Error>): Result<T, Error> {
    if r == Err(Eof) then Err(UnexpectedEof) else r
  }

  function DecodeFields(kind: Kind, bs: Bytes): Result<Parsed<SignedCommit>, Error> {
    var h :- ReadHead(bs);
    if h.value.major != MAJ_MAP then Err(WrongType)
    else if h.value.arg > MAX_LENGTH then Err(TooLong)
    else PastHead(DecodeEntries(kind, h.value.arg, ZERO_COMMIT, h.rest))
  }

  // ---------------------------------------------------------------- meaning

  function Lookup(es: seq<Entry>, key: Bytes): Option<Bytes> {
    if es == [] then None
    else if es[0].key == key then Some(es[0].raw)
    else Lookup(es[1..], key)
  }

  predicate DistinctKeys(es: seq<Entry>) {
    forall i, j :: 0 <= i < j < |es| ==> es[i].key != es[j].key
  }

  /** The key is short enough to be read and the raw value is one whole data item. */
  predicate IsFramed(e: Entry) {
    |e.key| <= MAX_STRING && Skip(1, e.raw) == Ok([])
  }

  predicate Framed(es: seq<Entry>) {
    forall e <- es :: IsFramed(e)
  }

  /** The value under a key, if there is one and it is of the field's type. */
  function FieldOf(kind: Kind, es: seq<Entry>, key: Bytes): FieldValue {
    match Lookup(es, key)
    case None => Ignored
    case Some(raw) =>
      match ReadField(kind, key, 0, raw)
      case Ok(p) => p.value
      case Err(_) => Ignored
  }

  /** Every known key that is present holds a value of the field's type. */
  predicate Typed(kind: Kind, es: seq<Entry>) {
    forall e <- es :: ReadField(kind, e.key, 0, e.raw).Ok?
  }

  /** A commit with the fields named in a map stored into it, whatever their order. */
  function Meaning(kind: Kind, t: SignedCommit, es: seq<Entry>): SignedCommit {
    SignedCommit(
      Store(t, KEY_DID, FieldOf(kind, es, KEY_DID)).did,
      Store(t, KEY_REV, FieldOf(kind, es, KEY_REV)).rev,
      Store(t, KEY_SIG, FieldOf(kind, es, KEY_SIG)).sig,
      Store(t, KEY_DATA, FieldOf(kind, es, KEY_DATA)).data,
      Store(t, KEY_PREV, FieldOf(kind, es, KEY_PREV)).prev,
      Store(t, KEY_VERSION, FieldOf(kind, es, KEY_VERSION)).version)
  }

  lemma KeysDiffer()
    ensures KEY_DID != KEY_REV && KEY_DID != KEY_SIG && KEY_REV != KEY_SIG
    ensures KEY_DATA != KEY_PREV
    ensures |KEY_DID| == |KEY_REV| == |KEY_SIG| == 3 && |KEY_DATA| == |KEY_PREV| == 4 && |KEY_VERSION| == 7
  {
    assert KEY_DID[0] != KEY_REV[0] && KEY_DID[0] != KEY_SIG[0] && KEY_REV[0] != KEY_SIG[0];
    assert KEY_DATA[0] != KEY_PREV[0];
  }

  /**
   On a whole data item a field reader answers the same with or without more input behind it,
   and takes exactly that item.
   */
  lemma ReadFieldFramed(kind: Kind, e: Entry, s: Bytes)
    requires IsFramed(e)
    ensures var whole := ReadField(kind, e.key, 0, e.raw + s);
            match ReadField(kind, e.key, 0, e.raw) {
              case Ok(p) => p.rest == [] && whole == Ok(Parsed(p.value, s))
              case Err(_) => whole.Err?
            }
  {
    hide Skip, ReadString, ReadByteString, ReadCid, ReadCidOrNull, ReadInt;
    TypedReadersFramed(MAX_STRING, e.raw, s);
    TypedReadersFramed(MAX_SIG, e.raw, s);
    SkipExtends(1, e.raw, s);
    assert [] + s == s;
  }

  /** Reading an encoded key gives it back, or nothing when it is longer than the buffer. */
  lemma NameRoundTrip(key: Bytes, s: Bytes)
    requires |key| <= MAX_STRING
    ensures ReadName(NAME_BUFFER, MAX_STRING, EncodeText(key) + s)
            == Ok(Parsed(if |key| > NAME_BUFFER then None else Some(key), s))
  {
    hide ReadHead, EncodeHead;
    assert EncodeText(key) + s == EncodeHead(MAJ_TEXT, |key|) + (key + s);
    HeadRoundTrip(MAJ_TEXT, |key|, key + s);
    TakeRoundTrip(key, s);
  }

  // ---------------------------------------------------------------- one entry after the other

  /** The signature an entry holds, if its key is the signature's and its value a byte string. */
  function SigOf(e: Entry): Option<Bytes> {
    if e.key != KEY_SIG then None
    else
      match ReadByteString(0, MAX_SIG, e.raw)
      case Ok(p) => Some(p.value)
      case Err(_) => None
  }

  /** An empty signature behind one that is not: the old slice is filled again. */
  predicate Refills(kind: Kind, t: SignedCommit, e: Entry) {
    kind == Signed && t.sig != [] && SigOf(e) == Some([])
  }

  /** What an entry makes of a commit when it is read on its own. */
  function StoreEntry(kind: Kind, t: SignedCommit, e: Entry): SignedCommit {
    match ReadField(kind, e.key, 0, e.raw)
    case Ok(p) => Store(t, e.key, p.value)
    case Err(_) => t
  }

  /** The same for entries one after the other: of two values under one key the later is stored last. */
  function StoreAll(kind: Kind, t: SignedCommit, es: seq<Entry>): SignedCommit
    decreases es
  {
    if es == [] then t else StoreAll(kind, StoreEntry(kind, t, es[0]), es[1..])
  }

  /** An empty signature stands somewhere behind one that is not, which may be the commit's own. */
  ghost predicate EmptySigFollows(kind: Kind, t: SignedCommit, es: seq<Entry>) {
    kind == Signed && exists j :: FollowsAt(t, es, j)
  }

  predicate FollowsAt(t: SignedCommit, es: seq<Entry>, j: int) {
    && 0 <= j < |es|
    && SigOf(es[j]) == Some([])
    && (t.sig != [] || exists i :: 0 <= i < j && IsSomeSig(es[i]))
  }

  predicate IsSomeSig(e: Entry) {
    SigOf(e).Some? && SigOf(e) != Some([])
  }

  lemma EmptySigFollowsStep(kind: Kind, t: SignedCommit, es: seq<Entry>)
    requires es != []
    ensures EmptySigFollows(kind, t, es)
            <==> Refills(kind, t, es[0]) || EmptySigFollows(kind, StoreEntry(kind, t, es[0]), es[1..])
  {
    StoredSig(kind, t, es[0]);
    hide StoreEntry, SigOf;
    var u, rest := StoreEntry(kind, t, es[0]), es[1..];
    if EmptySigFollows(kind, u, rest) {
      var j :| FollowsAt(u, rest, j);
      FollowsLater(u, t, es, j + 1);
      assert FollowsAt(t, es, j + 1);
    }
    if j :| EmptySigFollows(kind, t, es) && FollowsAt(t, es, j) {
      if j > 0 {
        FollowsLater(u, t, es, j);
      }
    }
    if Refills(kind, t, es[0]) {
      assert FollowsAt(t, es, 0);
    }
  }

  lemma FollowsLater(u: SignedCommit, t: SignedCommit, es: seq<Entry>, j: int)
    requires 0 < j < |es|
    requires u.sig == if SigOf(es[0]).Some? then SigOf(es[0]).value else t.sig
    ensures FollowsAt(u, es[1..], j - 1) ==> FollowsAt(t, es, j)
    ensures FollowsAt(t, es, j) ==> FollowsAt(u, es[1..], j - 1) || FollowsAt(t, es, 0)
  {
    hide SigOf;
    if i :| 0 <= i < j - 1 && IsSomeSig(es[1..][i]) {
      assert IsSomeSig(es[i + 1]);
    }
    if i :| 0 <= i < j && IsSomeSig(es[i]) {
      assert i > 0 ==> IsSomeSig(es[1..][i - 1]);
    }
  }

  /** Only a signature entry changes the signature. */
  lemma StoredSig(kind: Kind, t: SignedCommit, e: Entry)
    ensures StoreEntry(kind, t, e).sig == if kind == Signed && SigOf(e).Some? then SigOf(e).value else t.sig
  {
    KeysDiffer();
    StoreOthers(t, e.key, if ReadField(kind, e.key, 0, e.raw).Ok? then ReadField(kind, e.key, 0, e.raw).value.value else Ignored);
  }

  /**
   The bytes left in the buffer matter to a field exactly when it is the signature, something is
   left, and the item announces no bytes.
   */
  lemma BufferMatters(kind: Kind, key: Bytes, buffered: nat, bs: Bytes)
    ensures ReadField(kind, key, buffered, bs) != ReadField(kind, key, 0, bs)
            <==> && kind == Signed && key == KEY_SIG && buffered > 0
                 && ReadHead(bs).Ok? && ReadHead(bs).value.value == Head(MAJ_BYTES, 0)
  {
    hide ReadHead, ReadString, ReadCid, ReadCidOrNull, ReadInt, Skip;
    KeysDiffer();
  }

  /**
   One entry of an encoded map is read on its own, whatever follows it, unless it is an empty
   signature behind one that is not.
   */
  lemma DecodeEntryFramed(kind: Kind, t: SignedCommit, e: Entry, s: Bytes)
    requires IsFramed(e)
    requires !Refills(kind, t, e)
    ensures var r := DecodeEntry(kind, t, EncodeEntry(e) + s);
            match ReadField(kind, e.key, 0, e.raw) {
              case Ok(p) => r == Ok(Parsed(Store(t, e.key, p.value), s))
              case Err(_) => r.Err?
            }
  {
    if e.key == KEY_SIG {
      FramedSigHead(e, s);
    }
    hide Skip, EncodeText, ReadName, ReadString, ReadByteString, ReadHead, ReadCid, ReadCidOrNull, ReadInt;
    BufferMatters(kind, e.key, |t.sig|, e.raw + s);
    hide ReadField;
    assert EncodeEntry(e) + s == EncodeText(e.key) + (e.raw + s);
    NameRoundTrip(e.key, e.raw + s);
    if |e.key| > NAME_BUFFER {
      LongKeyUnknown(kind, e);
    }
    ReadFieldFramed(kind, e, s);
  }

  /** A key longer than the buffer is skipped like any unknown one. */
  lemma LongKeyUnknown(kind: Kind, e: Entry)
    requires |e.key| > NAME_BUFFER
    ensures forall b, bs :: ReadField(kind, e.key, b, bs) == match Skip(1, bs) {
      case Ok(rest) => Ok(Parsed(Ignored, rest))
      case Err(err) => Err(err) }
  {
    KeysDiffer();
  }

  /** The head of a signature entry announces no bytes exactly when it holds none. */
  lemma FramedSigHead(e: Entry, s: Bytes)
    requires IsFramed(e) && e.key == KEY_SIG
    ensures ReadHead(e.raw + s).Ok? && ReadHead(e.raw + s).value.value == Head(MAJ_BYTES, 0)
            <==> SigOf(e) == Some([])
    ensures SigOf(e) == Some([]) ==> ReadHead(e.raw + s).Ok? && ReadHead(e.raw + s).value.rest == s
  {
    SkipStep(1, e.raw);
    HeadExtends(e.raw, s);
    hide ReadHead;
  }

  /**
   An empty signature behind one of n bytes is not read as empty: the n bytes that follow the item
   become the signature, or the input ends.
   */
  lemma DecodeEmptySig(t: SignedCommit, e: Entry, s: Bytes)
    requires IsFramed(e) && Refills(Signed, t, e)
    ensures var r := DecodeEntry(Signed, t, EncodeEntry(e) + s);
            if |s| < |t.sig| then r == Err(if s == [] then Eof else UnexpectedEof)
            else r == Ok(Parsed(t.(sig := s[..|t.sig|]), s[|t.sig|..]))
  {
    FramedSigHead(e, s);
    hide Skip, ReadName, EncodeText, ReadHead;
    KeysDiffer();
    assert EncodeEntry(e) + s == EncodeText(e.key) + (e.raw + s);
    NameRoundTrip(e.key, e.raw + s);
    assert ReadByteString(|t.sig|, MAX_SIG, e.raw + s) == Take(|t.sig|, s);
  }

  /**
   Without an empty signature behind one that is not, a list of entries decodes exactly when every
   known field has its type, takes exactly the entries, and stores them one after the other.
   */
  lemma {:induction false} DecodeInOrder(kind: Kind, t: SignedCommit, es: seq<Entry>, s: Bytes)
    requires Framed(es) && !EmptySigFollows(kind, t, es)
    ensures var r := DecodeEntries(kind, |es|, t, EncodeEntries(es) + s);
            if Typed(kind, es) then r == Ok(Parsed(StoreAll(kind, t, es), s)) else r.Err?
    decreases es
  {
    hide DecodeEntry, Refills, EmptySigFollows, StoreEntry, Store, ReadField, Skip, EncodeEntry;
    if es == [] {
      assert EncodeEntries(es) + s == s;
      return;
    }
    EmptySigFollowsStep(kind, t, es);
    TypedStep(kind, es);
    EncodeFirst(es, s);
    FirstEntryDecoded(kind, t, es[0], |es| - 1, EncodeEntries(es[1..]) + s);
    hide DecodeEntries, EncodeEntries, Typed;
    if ReadField(kind, es[0].key, 0, es[0].raw).Ok? {
      DecodeInOrder(kind, StoreEntry(kind, t, es[0]), es[1..], s);
    }
  }

  /** Decoding one entry and then `n` more. */
  lemma {:induction false} FirstEntryDecoded(kind: Kind, t: SignedCommit, e: Entry, n: nat, tail: Bytes)
    requires IsFramed(e)
    requires !Refills(kind, t, e)
    ensures var r := DecodeEntries(kind, n + 1, t, EncodeEntry(e) + tail);
            if ReadField(kind, e.key, 0, e.raw).Ok? then r == DecodeEntries(kind, n, StoreEntry(kind, t, e), tail)
            else r.Err?
  {
    hide DecodeEntry, Refills, ReadField, Skip, EncodeEntry, Store;
    DecodeEntryFramed(kind, t, e, tail);
  }

  lemma TypedStep(kind: Kind, es: seq<Entry>)
    requires es != [] && Framed(es)
    ensures IsFramed(es[0]) && Framed(es[1..])
    ensures Typed(kind, es) <==> ReadField(kind, es[0].key, 0, es[0].raw).Ok? && Typed(kind, es[1..])
  {
    hide ReadField, IsFramed;
    assert es == [es[0]] + es[1..];
  }

  lemma {:induction false} EncodeFirst(es: seq<Entry>, s: Bytes)
    requires es != [] && forall e <- es :: |e.key| <= MAX_STRING
    ensures forall e <- es[1..] :: |e.key| <= MAX_STRING
    ensures EncodeEntries(es) + s == EncodeEntry(es[0]) + (EncodeEntries(es[1..]) + s)
  {
    assert forall e <- es[1..] :: e in es;
  }

  /** With distinct keys the order is of no matter: entries in order give what the map means. */
  lemma {:induction false} InOrderMeaning(kind: Kind, t: SignedCommit, es: seq<Entry>)
    requires Framed(es) && DistinctKeys(es) && Typed(kind, es)
    ensures StoreAll(kind, t, es) == Meaning(kind, t, es)
    decreases es
  {
    hide ReadField, Store, Meaning, IsFramed;
    if es == [] {
      MeaningOfNone(kind, t);
    } else {
      TypedStep(kind, es);
      MeaningStep(kind, t, es);
      InOrderMeaning(kind, StoreEntry(kind, t, es[0]), es[1..]);
    }
  }

  lemma {:induction false} DistinctNeverFollows(kind: Kind, t: SignedCommit, es: seq<Entry>)
    requires DistinctKeys(es) && (kind == Signed && Lookup(es, KEY_SIG).Some? ==> t.sig == [])
    ensures !EmptySigFollows(kind, t, es)
  {
    hide ReadByteString;
    if j :| FollowsAt(t, es, j) {
      LookupFinds(es, es[j]);
    }
  }

  lemma {:induction false} LookupAbsent(es: seq<Entry>, key: Bytes)
    requires forall e <- es :: e.key != key
    ensures Lookup(es, key) == None
  {
    if es != [] {
      LookupAbsent(es[1..], key);
    }
  }

  /** Taking one entry first and then the others gives what the whole map means. */
  lemma MeaningStep(kind: Kind, t: SignedCommit, es: seq<Entry>)
    requires es != [] && DistinctKeys(es)
    requires ReadField(kind, es[0].key, 0, es[0].raw).Ok?
    ensures Meaning(kind, Store(t, es[0].key, ReadField(kind, es[0].key, 0, es[0].raw).value.value), es[1..])
            == Meaning(kind, t, es)
  {
    hide ReadField, FieldOf, Store;
    var key := es[0].key;
    var v := ReadField(kind, key, 0, es[0].raw).value.value;
    FieldOfHead(kind, es);
    StoreOthers(t, key, v);
    StoreIgnored(Store(t, key, v));
  }

  lemma FieldOfHead(kind: Kind, es: seq<Entry>)
    requires es != [] && DistinctKeys(es)
    ensures FieldOf(kind, es[1..], es[0].key) == Ignored
    ensures forall k: Bytes :: k != es[0].key ==> FieldOf(kind, es, k) == FieldOf(kind, es[1..], k)
    ensures ReadField(kind, es[0].key, 0, es[0].raw).Ok? ==>
              FieldOf(kind, es, es[0].key) == ReadField(kind, es[0].key, 0, es[0].raw).value.value
  {
    hide ReadField;
    LookupAbsent(es[1..], es[0].key);
  }

  lemma StoreIgnored(t: SignedCommit)
    ensures forall key: Bytes :: Store(t, key, Ignored) == t
  {
  }

  /** Storing under one key touches no other field, and what a field becomes depends on itself alone. */
  lemma StoreOthers(t: SignedCommit, key: Bytes, v: FieldValue)
    ensures var u := Store(t, key, v);
            && (key != KEY_DID ==> u.did == t.did && forall w :: Store(u, KEY_DID, w).did == Store(t, KEY_DID, w).did)
            && (key != KEY_REV ==> u.rev == t.rev && forall w :: Store(u, KEY_REV, w).rev == Store(t, KEY_REV, w).rev)
            && (key != KEY_SIG ==> u.sig == t.sig && forall w :: Store(u, KEY_SIG, w).sig == Store(t, KEY_SIG, w).sig)
            && (key != KEY_DATA ==> u.data == t.data && forall w :: Store(u, KEY_DATA, w).data == Store(t, KEY_DATA, w).data)
            && (key != KEY_PREV ==> u.prev == t.prev && forall w :: Store(u, KEY_PREV, w).prev == Store(t, KEY_PREV, w).prev)
            && (key != KEY_VERSION ==>
                  u.version == t.version
                  && forall w :: Store(u, KEY_VERSION, w).version == Store(t, KEY_VERSION, w).version)
  {
    KeysDiffer();
  }

  lemma MeaningOfNone(kind: Kind, t: SignedCommit)
    ensures Meaning(kind, t, []) == t
  {
  }

  /**
   Decoding a map of distinct keys succeeds exactly when its known fields have their types, and
   then gives the commit they mean, taking exactly the map's bytes.
   */
  lemma DecodeMapMeaning(kind: Kind, es: seq<Entry>, s: Bytes)
    requires |es| <= MAX_LENGTH && Framed(es) && DistinctKeys(es)
    ensures var r := DecodeFields(kind, EncodeMap(es) + s);
            if Typed(kind, es) then r == Ok(Parsed(Meaning(kind, ZERO_COMMIT, es), s)) else r.Err?
  {
    DistinctNeverFollows(kind, ZERO_COMMIT, es);
    hide DecodeFields, EncodeMap, EmptySigFollows, Meaning, StoreAll, ReadField;
    DecodeMapInOrder(kind, es, s);
    if Typed(kind, es) {
      InOrderMeaning(kind, ZERO_COMMIT, es);
    }
  }

  // ---------------------------------------------------------------- order and unknown entries

  /** The two maps hold the same raw values under the keys the codec knows. */
  predicate SameKnownFields(kind: Kind, es: seq<Entry>, fs: seq<Entry>) {
    && Lookup(es, KEY_DID) == Lookup(fs, KEY_DID)
    && Lookup(es, KEY_REV) == Lookup(fs, KEY_REV)
    && (kind == Signed ==> Lookup(es, KEY_SIG) == Lookup(fs, KEY_SIG))
    && Lookup(es, KEY_DATA) == Lookup(fs, KEY_DATA)
    && Lookup(es, KEY_PREV) == Lookup(fs, KEY_PREV)
    && Lookup(es, KEY_VERSION) == Lookup(fs, KEY_VERSION)
  }

  lemma {:induction false} LookupFinds(es: seq<Entry>, e: Entry)
    requires DistinctKeys(es) && e in es
    ensures Lookup(es, e.key) == Some(e.raw)
  {
    if es[0] != e {
      assert e in es[1..];
      var i :| 0 < i < |es| && es[i] == e;
      LookupFinds(es[1..], e);
    }
  }

  lemma {:induction false} LookupIsEntry(es: seq<Entry>, key: Bytes)
    requires Lookup(es, key).Some?
    ensures Entry(key, Lookup(es, key).value) in es
  {
    if es[0].key != key {
      LookupIsEntry(es[1..], key);
    }
  }

  lemma SameKnownFieldsSameTyping(kind: Kind, es: seq<Entry>, fs: seq<Entry>)
    requires Framed(fs) && DistinctKeys(es) && DistinctKeys(fs) && SameKnownFields(kind, es, fs)
    requires Typed(kind, es)
    ensures Typed(kind, fs)
  {
    hide Skip, ReadString, ReadByteString, ReadCid, ReadCidOrNull, ReadInt;
    forall f | f in fs
      ensures ReadField(kind, f.key, 0, f.raw).Ok?
    {
      if IsKnown(kind, f.key) {
        LookupFinds(fs, f);
        LookupIsEntry(es, f.key);
      } else {
        assert IsFramed(f);
      }
    }
  }

  /**
   Decoding depends on nothing but the known fields: not on the order of the entries, not on
   entries under unknown keys, of any length, nor on how many there are.
   */
  lemma DecodeDependsOnKnownFields(kind: Kind, es: seq<Entry>, fs: seq<Entry>, s: Bytes)
    requires |es| <= MAX_LENGTH && Framed(es) && DistinctKeys(es)
    requires |fs| <= MAX_LENGTH && Framed(fs) && DistinctKeys(fs)
    requires SameKnownFields(kind, es, fs)
    ensures var r, q := DecodeFields(kind, EncodeMap(es) + s), DecodeFields(kind, EncodeMap(fs) + s);
            if r.Ok? then q == r && r.value.rest == s else q.Err?
  {
    hide DecodeFields, EncodeMap, ReadField, Typed;
    DecodeMapMeaning(kind, es, s);
    DecodeMapMeaning(kind, fs, s);
    if Typed(kind, es) {
      SameKnownFieldsSameTyping(kind, es, fs);
      SameKnownFieldsSameMeaning(kind, es, fs);
    } else if Typed(kind, fs) {
      SameKnownFieldsSameTyping(kind, fs, es);
    }
  }

  lemma SameKnownFieldsSameMeaning(kind: Kind, es: seq<Entry>, fs: seq<Entry>)
    requires SameKnownFields(kind, es, fs)
    ensures Meaning(kind, ZERO_COMMIT, es) == Meaning(kind, ZERO_COMMIT, fs)
  {
    hide Lookup, Skip, ReadString, ReadByteString, ReadCid, ReadCidOrNull, ReadInt;
    KeysDiffer();
  }

  /** Entries in another order decode alike. */
  lemma DecodeIgnoresOrder(kind: Kind, es: seq<Entry>, fs: seq<Entry>, s: Bytes)
    requires |es| <= MAX_LENGTH && |fs| <= MAX_LENGTH
    requires Framed(es) && DistinctKeys(es) && DistinctKeys(fs)
    requires forall e :: e in es <==> e in fs
    ensures var r, q := DecodeFields(kind, EncodeMap(es) + s), DecodeFields(kind, EncodeMap(fs) + s);
            if r.Ok? then q == r && r.value.rest == s else q.Err?
  {
    hide DecodeFields, EncodeMap;
    forall key: Bytes
      ensures Lookup(es, key) == Lookup(fs, key)
    {
      if Lookup(es, key).Some? {
        LookupIsEntry(es, key);
        LookupFinds(fs, Entry(key, Lookup(es, key).value));
      } else if Lookup(fs, key).Some? {
        LookupIsEntry(fs, key);
        LookupFinds(es, Entry(key, Lookup(fs, key).value));
      }
    }
    DecodeDependsOnKnownFields(kind, es, fs, s);
  }

  /** A well-formed item under a key the codec does not know, put anywhere, changes nothing. */
  lemma {:induction false} DecodeIgnoresUnknownEntry(kind: Kind, es: seq<Entry>, at: nat, key: Bytes, item: Item, s: Bytes)
    requires at <= |es| < MAX_LENGTH && Framed(es)
    requires !IsKnown(kind, key) && |key| <= MAX_STRING && WellFormed(item)
    requires DistinctKeys(es[..at] + [Entry(key, EncodeItem(item))] + es[at..])
    ensures var fs := es[..at] + [Entry(key, EncodeItem(item))] + es[at..];
            && IsFramed(Entry(key, EncodeItem(item)))
            && var r, q := DecodeFields(kind, EncodeMap(es) + s), DecodeFields(kind, EncodeMap(fs) + s);
            if r.Ok? then q == r && r.value.rest == s else q.Err?
  {
    hide DecodeFields, EncodeMap, Skip;
    var extra := Entry(key, EncodeItem(item));
    var fs := es[..at] + [extra] + es[at..];
    assert EncodeItem(item) + [] == EncodeItem(item);
    SkipPassesItem(item, []);
    assert forall i :: 0 <= i < |es| ==> es[i] == fs[if i < at then i else i + 1];
    forall e | e in fs
      ensures IsFramed(e)
    {
      assert e == extra || e in es[..at] || e in es[at..];
    }
    KeysDiffer();
    forall k: Bytes | k != key
      ensures Lookup(es, k) == Lookup(fs, k)
    {
      LookupAround(es, at, extra, k);
    }
    DecodeDependsOnKnownFields(kind, es, fs, s);
  }

  lemma {:induction false} LookupAround(es: seq<Entry>, at: nat, extra: Entry, k: Bytes)
    requires at <= |es| && extra.key != k
    ensures Lookup(es[..at] + [extra] + es[at..], k) == Lookup(es, k)
  {
    var fs := es[..at] + [extra] + es[at..];
    if at == 0 {
      assert fs[1..] == es;
    } else {
      assert fs[1..] == es[1..][..at - 1] + [extra] + es[1..][at - 1..];
      LookupAround(es[1..], at - 1, extra, k);
    }
  }

  // ---------------------------------------------------------------- round trips

  /** A commit as the given codec can carry it: the unsigned codec carries no signature. */
  function Carried(kind: Kind, c: SignedCommit): SignedCommit {
    if kind == Signed then c else c.(sig := [])
  }

  /** Each encoded field is one item of its field's type and reads back as what was written. */
  lemma EntryReads(kind: Kind, c: SignedCommit)
    requires Encodable(kind, c)
    ensures ReadField(kind, KEY_DID, 0, EncodeText(c.did)) == Ok(Parsed(Text(c.did), []))
    ensures ReadField(kind, KEY_REV, 0, EncodeText(c.rev)) == Ok(Parsed(Text(c.rev), []))
    ensures kind == Signed ==> ReadField(kind, KEY_SIG, 0, EncodeBytes(c.sig)) == Ok(Parsed(Blob(c.sig), []))
    ensures ReadField(kind, KEY_DATA, 0, EncodeCid(c.data)) == Ok(Parsed(Link(Some(c.data)), []))
    ensures ReadField(kind, KEY_PREV, 0, EncodePrev(c.prev)) == Ok(Parsed(Link(c.prev), []))
    ensures ReadField(kind, KEY_VERSION, 0, EncodeInt(c.version)) == Ok(Parsed(Number(c.version), []))
    ensures Framed(Entries(kind, c))
  {
    hide Skip, EncodeHead, EncodeText, EncodeBytes, EncodeCid, EncodeInt,
         ReadString, ReadByteString, ReadCid, ReadCidOrNull, ReadInt;
    KeysDiffer();
    AppendNone(EncodeText(c.did));
    AppendNone(EncodeText(c.rev));
    AppendNone(EncodeCid(c.data));
    AppendNone(EncodePrev(c.prev));
    AppendNone(EncodeInt(c.version));
    StringRoundTrip(c.did, MAX_STRING, []);
    StringRoundTrip(c.rev, MAX_STRING, []);
    CidRoundTrip(c.data, []);
    CidOrNullRoundTrip(c.prev, []);
    IntRoundTrip(c.version, []);
    TypedReadersReadOneItem(MAX_STRING, EncodeText(c.did));
    TypedReadersReadOneItem(MAX_STRING, EncodeText(c.rev));
    TypedReadersReadOneItem(MAX_STRING, EncodeCid(c.data));
    TypedReadersReadOneItem(MAX_STRING, EncodePrev(c.prev));
    TypedReadersReadOneItem(MAX_STRING, EncodeInt(c.version));
    if kind == Signed {
      AppendNone(EncodeBytes(c.sig));
      ByteStringRoundTrip(c.sig, MAX_SIG, []);
      TypedReadersReadOneItem(MAX_SIG, EncodeBytes(c.sig));
    }
  }

  lemma AppendNone(b: Bytes)
    ensures b + [] == b
  {
  }

  lemma {:induction false} LookupConcat(es: seq<Entry>, fs: seq<Entry>, key: Bytes)
    ensures Lookup(es + fs, key) == if Lookup(es, key).Some? then Lookup(es, key) else Lookup(fs, key)
  {
    if es == [] {
      assert es + fs == fs;
    } else {
      assert (es + fs)[1..] == es[1..] + fs;
      LookupConcat(es[1..], fs, key);
    }
  }

  lemma {:induction false} LookupOne(e: Entry, key: Bytes)
    ensures Lookup([e], key) == if e.key == key then Some(e.raw) else None
  {
  }

  /** Which raw values an encoded commit holds. */
  lemma {:induction false} EncodedLookup(kind: Kind, c: SignedCommit, key: Bytes)
    requires Encodable(kind, c)
    ensures Lookup(Entries(kind, c), key) ==
            if key == KEY_DID then Some(EncodeText(c.did))
            else if key == KEY_REV && c.rev != [] then Some(EncodeText(c.rev))
            else if key == KEY_SIG && kind == Signed then Some(EncodeBytes(c.sig))
            else if key == KEY_DATA then Some(EncodeCid(c.data))
            else if key == KEY_PREV then Some(EncodePrev(c.prev))
            else if key == KEY_VERSION then Some(EncodeInt(c.version))
            else None
  {
    hide Lookup, EncodeText, EncodeBytes, EncodeCid, EncodeInt;
    KeysDiffer();
    var did, data := [Entry(KEY_DID, EncodeText(c.did))], [Entry(KEY_DATA, EncodeCid(c.data))];
    var rev := if c.rev == [] then [] else [Entry(KEY_REV, EncodeText(c.rev))];
    var sig := if kind == Signed then [Entry(KEY_SIG, EncodeBytes(c.sig))] else [];
    var prev, version := [Entry(KEY_PREV, EncodePrev(c.prev))], [Entry(KEY_VERSION, EncodeInt(c.version))];
    assert Entries(kind, c) == did + (rev + (sig + (data + (prev + version))));
    LookupConcat(did, rev + (sig + (data + (prev + version))), key);
    LookupConcat(rev, sig + (data + (prev + version)), key);
    LookupConcat(sig, data + (prev + version), key);
    LookupConcat(data, prev + version, key);
    LookupConcat(prev, version, key);
    LookupAbsent([], key);
    LookupOne(did[0], key);
    LookupOne(data[0], key);
    LookupOne(prev[0], key);
    LookupOne(version[0], key);
    LookupOne(Entry(KEY_REV, EncodeText(c.rev)), key);
    if kind == Signed {
      LookupOne(sig[0], key);
    }
  }

  /** Length first, then bytewise: the order of map keys of section 4.2.3 of RFC 8949. */
  predicate KeyBefore(a: Bytes, b: Bytes) {
    |a| < |b| || (|a| == |b| && LexBefore(a, b))
  }

  predicate LexBefore(a: Bytes, b: Bytes) {
    if a == [] || b == [] then a == [] && b != []
    else a[0] < b[0] || (a[0] == b[0] && LexBefore(a[1..], b[1..]))
  }

  /**
   The encoder writes its keys in the length-first order, so they are distinct, behind a head that
   announces as many entries as there are.
   */
  lemma EncodedKeysSorted(kind: Kind, c: SignedCommit, i: nat, j: nat)
    requires Encodable(kind, c) && i < j < |Entries(kind, c)|
    ensures KeyBefore(Entries(kind, c)[i].key, Entries(kind, c)[j].key)
    ensures Entries(kind, c)[i].key != Entries(kind, c)[j].key
    ensures |Entries(kind, c)| == (if kind == Signed then 6 else 5) - (if c.rev == [] then 1 else 0)
    ensures Encode(kind, c) == EncodeHead(MAJ_MAP, |Entries(kind, c)|) + EncodeEntries(Entries(kind, c))
  {
    hide EncodeText, EncodeBytes, EncodeCid, EncodeInt;
    KeysDiffer();
    assert LexBefore(KEY_DID, KEY_REV) && LexBefore(KEY_DID, KEY_SIG) && LexBefore(KEY_REV, KEY_SIG);
    assert LexBefore(KEY_DATA, KEY_PREV);
  }

  /**
   Either codec decodes what the signed codec, or it itself, wrote: it takes exactly the encoder's
   bytes, whatever follows them, and gives the commit back, less the signature when it has none.
   */
  lemma DecodeEncoded(kind: Kind, writer: Kind, c: SignedCommit, s: Bytes)
    requires Encodable(writer, c)
    requires writer == kind || writer == Signed
    ensures DecodeFields(kind, Encode(writer, c) + s) == Ok(Parsed(Carried(kind, c), s))
  {
    hide Encodable, Entries, EncodeMap, DecodeFields, ReadField, Lookup, EncodeText, EncodeBytes, EncodeCid, EncodeInt;
    var es := Entries(writer, c);
    forall i, j | 0 <= i < j < |es|
      ensures es[i].key != es[j].key
    {
      EncodedKeysSorted(writer, c, i, j);
    }
    EntryReads(writer, c);
    DecodeMapMeaning(kind, es, s);
    EncodedTyped(kind, writer, c);
    EncodedMeaning(kind, writer, c);
  }

  lemma EncodedTyped(kind: Kind, writer: Kind, c: SignedCommit)
    requires Encodable(writer, c)
    requires writer == kind || writer == Signed
    ensures Typed(kind, Entries(writer, c))
  {
    hide Entries, ReadField, Skip, EncodeText, EncodeBytes, EncodeCid, EncodeInt, EncodePrev;
    EntryReads(writer, c);
    forall e | e in Entries(writer, c)
      ensures ReadField(kind, e.key, 0, e.raw).Ok?
    {
      EncodedEntryIsOneOf(writer, c, e);
      ReadFieldOfEither(e);
    }
  }

  lemma EncodedEntryIsOneOf(kind: Kind, c: SignedCommit, e: Entry)
    requires Encodable(kind, c) && e in Entries(kind, c)
    ensures e == Entry(KEY_DID, EncodeText(c.did))
            || e == Entry(KEY_REV, EncodeText(c.rev))
            || (kind == Signed && e == Entry(KEY_SIG, EncodeBytes(c.sig)))
            || e == Entry(KEY_DATA, EncodeCid(c.data))
            || e == Entry(KEY_PREV, EncodePrev(c.prev))
            || e == Entry(KEY_VERSION, EncodeInt(c.version))
  {
  }

  /** What the signed codec reads, the unsigned one reads too or skips. */
  lemma ReadFieldOfEither(e: Entry)
    requires IsFramed(e)
    ensures ReadField(Signed, e.key, 0, e.raw).Ok? ==> ReadField(Unsigned, e.key, 0, e.raw).Ok?
  {
  }

  lemma EncodedMeaning(kind: Kind, writer: Kind, c: SignedCommit)
    requires Encodable(writer, c)
    requires writer == kind || writer == Signed
    ensures Meaning(kind, ZERO_COMMIT, Entries(writer, c)) == Carried(kind, c)
  {
    hide Skip, Entries, Lookup, EncodeText, EncodeBytes, EncodeCid, EncodeInt, EncodePrev,
         ReadString, ReadByteString, ReadCid, ReadCidOrNull, ReadInt;
    KeysDiffer();
    EntryReads(writer, c);
    EncodedLookup(writer, c, KEY_DID);
    EncodedLookup(writer, c, KEY_REV);
    EncodedLookup(writer, c, KEY_SIG);
    EncodedLookup(writer, c, KEY_DATA);
    EncodedLookup(writer, c, KEY_PREV);
    EncodedLookup(writer, c, KEY_VERSION);
  }

  /** Two encodings that begin the same input are equal and of the same commit. */
  lemma EncodingIsPrefixFree(kind: Kind, c: SignedCommit, d: SignedCommit, s: Bytes, t: Bytes)
    requires Encodable(kind, c) && Encodable(kind, d)
    requires Encode(kind, c) + s == Encode(kind, d) + t
    ensures Carried(kind, c) == Carried(kind, d) && s == t
  {
    hide Encode, DecodeFields;
    DecodeEncoded(kind, kind, c, s);
    DecodeEncoded(kind, kind, d, t);
  }

  // ---------------------------------------------------------------- input cut short

  lemma ReadFieldCut(kind: Kind, key: Bytes, buffered: nat, bs: Bytes, k: nat)
    requires k <= |bs|
    ensures CutTo(ReadField(kind, key, buffered, bs), ReadField(kind, key, buffered, bs[..k]), |bs|, k)
  {
    hide Skip, ReadString, ReadByteString, ReadCid, ReadCidOrNull, ReadInt;
    TypedReadersCut(buffered, MAX_STRING, bs, k);
    TypedReadersCut(buffered, MAX_SIG, bs, k);
    if Skip(1, bs).Ok? {
      SkipCut(1, bs, k);
    }
  }

  lemma DecodeEntryCut(kind: Kind, t: SignedCommit, bs: Bytes, k: nat)
    requires k <= |bs|
    ensures CutTo(DecodeEntry(kind, t, bs), DecodeEntry(kind, t, bs[..k]), |bs|, k)
  {
    hide Skip, ReadName, ReadField;
    NameCut(NAME_BUFFER, MAX_STRING, bs, k);
    if ReadName(NAME_BUFFER, MAX_STRING, bs).Ok? {
      var name := ReadName(NAME_BUFFER, MAX_STRING, bs).value;
      var k1 := k - (|bs| - |name.rest|);
      var k0: nat := if k1 < 0 then 0 else k1;
      if name.value.Some? {
        ReadFieldCut(kind, name.value.value, |t.sig|, name.rest, k0);
      } else if Skip(1, name.rest).Ok? {
        SkipCut(1, name.rest, k0);
      }
    }
  }

  lemma {:induction false} DecodeEntriesCut(kind: Kind, n: nat, t: SignedCommit, bs: Bytes, k: nat)
    requires k <= |bs|
    ensures CutTo(DecodeEntries(kind, n, t, bs), DecodeEntries(kind, n, t, bs[..k]), |bs|, k)
  {
    hide DecodeEntry;
    if n > 0 && DecodeEntry(kind, t, bs).Ok? {
      DecodeEntryCut(kind, t, bs, k);
      var e := DecodeEntry(kind, t, bs).value;
      var k1 := k - (|bs| - |e.rest|);
      DecodeEntriesCut(kind, n - 1, e.value, e.rest, if k1 < 0 then 0 else k1);
    }
  }

  /**
   A decoder that succeeds has looked at nothing behind the commit, and every proper prefix of the
   commit is refused as an input that ends: with EOF when nothing is there, and otherwise with an
   unexpected EOF or the wrapped error of a CID field, never with EOF itself.
   */
  lemma DecodeCutShort(kind: Kind, bs: Bytes, k: nat)
    requires DecodeFields(kind, bs).Ok? && k <= |bs|
    ensures var p := DecodeFields(kind, bs).value;
            && |p.rest| < |bs|
            && var used, r := |bs| - |p.rest|, DecodeFields(kind, bs[..k]);
            if k == 0 then r == Err(Eof)
            else if k < used then r.Err? && IsTruncation(r.error) && r.error != Eof
            else r == Ok(Parsed(p.value, p.rest[..k - used]))
  {
    var h := ReadHead(bs).value;
    if k < |bs| - |h.rest| {
      CutInHead(kind, bs, k);
    } else {
      CutPastHead(kind, bs, k);
    }
    hide DecodeFields, ReadHead;
  }

  lemma CutInHead(kind: Kind, bs: Bytes, k: nat)
    requires DecodeFields(kind, bs).Ok? && k <= |bs|
    requires k < |bs| - |ReadHead(bs).value.rest|
    ensures k < |bs| - |DecodeFields(kind, bs).value.rest|
    ensures DecodeFields(kind, bs[..k]) == Err(if k == 0 then Eof else UnexpectedEof)
  {
    FirstByteMissing(bs, k);
    HeadCut(bs, k);
    hide ReadHead, DecodeEntries;
    var h := ReadHead(bs).value;
    DecodeEntriesCut(kind, h.value.arg, ZERO_COMMIT, h.rest, 0);
  }

  lemma CutPastHead(kind: Kind, bs: Bytes, k: nat)
    requires DecodeFields(kind, bs).Ok? && |bs| - |ReadHead(bs).value.rest| <= k <= |bs|
    ensures var p := DecodeFields(kind, bs).value;
            && |p.rest| < |bs|
            && var used, r := |bs| - |p.rest|, DecodeFields(kind, bs[..k]);
            if k < used then r.Err? && IsTruncation(r.error) && r.error != Eof
            else r == Ok(Parsed(p.value, p.rest[..k - used]))
  {
    hide ReadHead, DecodeEntries, CutTo;
    HeadStays(bs, k);
    var whole, cut := FieldsBehind(kind, bs), FieldsBehind(kind, bs[..k]);
    assert DecodeFields(kind, bs) == PastHead(whole);
    assert DecodeFields(kind, bs[..k]) == PastHead(cut);
    hide DecodeFields, PastHead, IsTruncation;
    var h := ReadHead(bs).value;
    var head := |bs| - |h.rest|;
    DecodeEntriesCut(kind, h.value.arg, ZERO_COMMIT, h.rest, k - head);
    PastHeadCut(whole, cut, |h.rest|, k - head);
    var p := PastHead(whole).value;
    assert k - head - (|h.rest| - |p.rest|) == k - (|bs| - |p.rest|);
  }

  /** What the entries behind a map's head are decoded to. */
  function FieldsBehind(kind: Kind, bs: Bytes): Result<Parsed<SignedCommit>, Error>
    requires ReadHead(bs).Ok?
  {
    DecodeEntries(kind, ReadHead(bs).value.value.arg, ZERO_COMMIT, ReadHead(bs).value.rest)
  }

  lemma HeadStays(bs: Bytes, k: nat)
    requires ReadHead(bs).Ok? && |bs| - |ReadHead(bs).value.rest| <= k <= |bs|
    ensures var h := ReadHead(bs).value;
            && |h.rest| < |bs|
            && ReadHead(bs[..k]) == Ok(Parsed(h.value, h.rest[..k - (|bs| - |h.rest|)]))
  {
    assert |ReadHead(bs).value.rest| < |bs|;
    hide ReadHead;
    HeadCut(bs, k);
  }

  lemma PastHeadCut<T(!new)>(whole: Result<Parsed<T>, Error>, cut: Result<Parsed<T>, Error>, n: nat, k: nat)
    requires CutTo(whole, cut, n, k) && PastHead(whole).Ok?
    ensures var p, r := PastHead(whole).value, PastHead(cut);
            && |p.rest| <= n
            && if k < n - |p.rest| then r.Err? && IsTruncation(r.error) && r.error != Eof
               else r == Ok(Parsed(p.value, p.rest[..k - (n - |p.rest|)]))
  {
  }

  /** A head fails with EOF exactly when there is no input at all. */
  lemma FirstByteMissing(bs: Bytes, k: nat)
    requires k <= |bs|
    ensures ReadHead(bs[..k]) == Err(Eof) <==> k == 0
  {
  }

  // ---------------------------------------------------------------- what the entries of a map say

  /** The raw value of the last entry under a key. */
  function LastRaw(es: seq<Entry>, key: Bytes): Option<Bytes> {
    if es == [] then None
    else if es[|es| - 1].key == key then Some(es[|es| - 1].raw)
    else LastRaw(es[..|es| - 1], key)
  }

  function TextIn(raw: Bytes): Bytes {
    match ReadString(MAX_STRING, raw)
    case Ok(p) => p.value
    case Err(_) => []
  }

  function SigIn(raw: Bytes): Bytes {
    match ReadByteString(0, MAX_SIG, raw)
    case Ok(p) => p.value
    case Err(_) => []
  }

  function CidIn(raw: Bytes): CidBytes {
    match ReadCid(raw)
    case Ok(p) => if IsCid(p.value) then p.value else []
    case Err(_) => []
  }

  /** The previous commit a value names; null says that there is none. */
  function PrevIn(raw: Bytes): Option<CidBytes> {
    match ReadCidOrNull(raw)
    case Ok(p) => if p.value.Some? && IsCid(p.value.value) then Some(p.value.value) else None
    case Err(_) => None
  }

  function NumberIn(raw: Bytes): int64 {
    match ReadInt(raw)
    case Ok(p) => p.value
    case Err(_) => 0
  }

  function GetOr<A, B>(o: Option<A>, f: A -> B, otherwise: B): B {
    if o.Some? then f(o.value) else otherwise
  }

  /**
   What a map says of a commit, whatever a decoder does: the last entry under a key gives its field,
   and a field that is not named is as in `t`.
   */
  function Says(kind: Kind, t: SignedCommit, es: seq<Entry>): SignedCommit {
    SignedCommit(
      GetOr(LastRaw(es, KEY_DID), TextIn, t.did),
      GetOr(LastRaw(es, KEY_REV), TextIn, t.rev),
      if kind == Signed then GetOr(LastRaw(es, KEY_SIG), SigIn, t.sig) else t.sig,
      GetOr(LastRaw(es, KEY_DATA), CidIn, t.data),
      GetOr(LastRaw(es, KEY_PREV), PrevIn, t.prev),
      GetOr(LastRaw(es, KEY_VERSION), NumberIn, t.version))
  }

  predicate NamesPrev(e: Entry) {
    e.key == KEY_PREV && PrevIn(e.raw).Some?
  }

  /** The last link named as the previous commit. */
  function LastLink(prev: Option<CidBytes>, es: seq<Entry>): Option<CidBytes> {
    if es == [] then prev
    else if NamesPrev(es[|es| - 1]) then PrevIn(es[|es| - 1].raw)
    else LastLink(prev, es[..|es| - 1])
  }

  /** The last entry for the previous commit is a null, and a link stands before it or in the commit. */
  predicate NullHidden(t: SignedCommit, es: seq<Entry>) {
    && LastRaw(es, KEY_PREV).Some? && PrevIn(LastRaw(es, KEY_PREV).value) == None
    && (t.prev.Some? || exists e <- es :: NamesPrev(e))
  }

  lemma {:induction false} LastLinkIff(prev: Option<CidBytes>, es: seq<Entry>)
    ensures LastLink(prev, es).Some? <==> prev.Some? || exists e <- es :: NamesPrev(e)
    ensures LastRaw(es, KEY_PREV) == None ==> LastLink(prev, es) == prev
    ensures LastRaw(es, KEY_PREV).Some? && PrevIn(LastRaw(es, KEY_PREV).value).Some? ==>
              LastLink(prev, es) == PrevIn(LastRaw(es, KEY_PREV).value)
    decreases |es|
  {
    hide PrevIn;
    if es != [] {
      var k := |es| - 1;
      LastLinkIff(prev, es[..k]);
      assert forall e :: e in es <==> e in es[..k] || e == es[k] by {
        assert es == es[..k] + [es[k]];
      }
    }
  }

  /** Only a null that a link precedes makes the last value of the previous commit and its last link differ. */
  lemma {:induction false} LastLinkIsSaid(kind: Kind, t: SignedCommit, es: seq<Entry>)
    ensures LastLink(t.prev, es) == Says(kind, t, es).prev <==> !NullHidden(t, es)
  {
    hide LastRaw, PrevIn, NamesPrev, LastLink;
    LastLinkIff(t.prev, es);
  }

  /** Entries stored one after the other give what the map says, but for a null that a link precedes. */
  lemma {:induction false} StoredIsSaid(kind: Kind, t: SignedCommit, es: seq<Entry>)
    requires Typed(kind, es)
    ensures StoreAll(kind, t, es) == Says(kind, t, es).(prev := LastLink(t.prev, es))
    decreases |es|
  {
    hide ReadField, StoreEntry, PrevIn, TextIn, SigIn, CidIn, NumberIn, NamesPrev;
    if es != [] {
      var k := |es| - 1;
      var before, e := es[..k], es[k];
      assert es == before + [e];
      assert forall x <- before :: x in es;
      StoredIsSaid(kind, t, before);
      StoreAllLast(kind, t, before, e);
      StoredField(kind, StoreAll(kind, t, before), e);
    }
  }

  /** One entry sets the field it names to what its value says, but for a null. */
  lemma StoredField(kind: Kind, t: SignedCommit, e: Entry)
    requires ReadField(kind, e.key, 0, e.raw).Ok?
    ensures StoreEntry(kind, t, e) == SignedCommit(
      if e.key == KEY_DID then TextIn(e.raw) else t.did,
      if e.key == KEY_REV then TextIn(e.raw) else t.rev,
      if e.key == KEY_SIG && kind == Signed then SigIn(e.raw) else t.sig,
      if e.key == KEY_DATA then CidIn(e.raw) else t.data,
      if NamesPrev(e) then PrevIn(e.raw) else t.prev,
      if e.key == KEY_VERSION then NumberIn(e.raw) else t.version)
  {
    hide ReadString, ReadByteString, ReadCid, ReadCidOrNull, ReadInt, Skip;
    KeysDiffer();
    ReadCidGivesCid(e.raw);
  }

  lemma {:induction false} LastRawIsEntry(es: seq<Entry>, key: Bytes) returns (j: nat)
    requires LastRaw(es, key).Some?
    ensures j < |es| && es[j].key == key && es[j].raw == LastRaw(es, key).value
    decreases |es|
  {
    var k := |es| - 1;
    if es[k].key == key {
      j := k;
    } else {
      j := LastRawIsEntry(es[..k], key);
    }
  }

  /** With distinct keys no null stands behind a link. */
  lemma {:induction false} DistinctNeverHidden(es: seq<Entry>)
    requires DistinctKeys(es)
    ensures !NullHidden(ZERO_COMMIT, es)
  {
    hide PrevIn;
    if LastRaw(es, KEY_PREV).Some? {
      var j := LastRawIsEntry(es, KEY_PREV);
      forall e | e in es && NamesPrev(e)
        ensures e == es[j]
      {
        var i :| 0 <= i < |es| && es[i] == e;
      }
    }
  }

  /** With distinct keys the order is of no matter: the map says what a lookup of each field gives. */
  lemma MeaningIsSaid(kind: Kind, es: seq<Entry>)
    requires Framed(es) && DistinctKeys(es) && Typed(kind, es)
    ensures Meaning(kind, ZERO_COMMIT, es) == Says(kind, ZERO_COMMIT, es)
  {
    hide ReadField, IsFramed, StoreAll, Meaning, LastLink, LastRaw, NullHidden;
    DistinctNeverHidden(es);
    InOrderMeaning(kind, ZERO_COMMIT, es);
    StoredIsSaid(kind, ZERO_COMMIT, es);
    LastLinkIsSaid(kind, ZERO_COMMIT, es);
  }

  // ---------------------------------------------------------------- keys that occur twice

  /** After each entry the decoder holds what the entries so far say, and has taken exactly these. */
  ghost predicate ReadsAsSaid(kind: Kind, t: SignedCommit, es: seq<Entry>, s: Bytes)
    requires Framed(es)
  {
    forall k :: 0 <= k <= |es| ==> ReadsTo(kind, t, es, k, s)
  }

  ghost predicate ReadsTo(kind: Kind, t: SignedCommit, es: seq<Entry>, k: nat, s: Bytes)
    requires k <= |es| && Framed(es)
  {
    FramedParts(es, k);
    DecodeEntries(kind, k, t, EncodeEntries(es) + s)
    == Ok(Parsed(Says(kind, t, es[..k]), EncodeEntries(es[k..]) + s))
  }

  /** A null stands for the previous commit somewhere behind a link, which may be the commit's own. */
  ghost predicate NullFollows(t: SignedCommit, es: seq<Entry>) {
    exists j :: NullAt(t, es, j)
  }

  predicate NullAt(t: SignedCommit, es: seq<Entry>, j: int) {
    && 0 <= j < |es| && es[j].key == KEY_PREV && PrevIn(es[j].raw) == None
    && (t.prev.Some? || exists i :: 0 <= i < j && NamesPrev(es[i]))
  }

  /** That is the case exactly if a null hides a link at the end of some prefix. */
  lemma NullFollowsIff(t: SignedCommit, es: seq<Entry>)
    ensures NullFollows(t, es) <==> exists k: nat :: k <= |es| && NullHidden(t, es[..k])
  {
    hide PrevIn, NamesPrev;
    if j :| NullAt(t, es, j) {
      assert es[..j + 1][..j] == es[..j];
      if i :| 0 <= i < j && NamesPrev(es[i]) {
        assert es[..j + 1][i] == es[i];
      }
      assert NullHidden(t, es[..j + 1]);
    }
    if k: nat :| k <= |es| && NullHidden(t, es[..k]) {
      HiddenAt(t, es, k);
    }
  }

  lemma {:induction false} HiddenAt(t: SignedCommit, es: seq<Entry>, k: nat)
    requires k <= |es| && NullHidden(t, es[..k])
    ensures NullFollows(t, es)
  {
    hide PrevIn;
    var last := es[k - 1];
    if last.key == KEY_PREV {
      if e :| e in es[..k] && NamesPrev(e) {
        var i :| 0 <= i < k && es[..k][i] == e;
        assert NamesPrev(es[i]);
      }
      assert NullAt(t, es, k - 1);
    } else {
      assert es[..k][..k - 1] == es[..k - 1];
      if e :| e in es[..k] && NamesPrev(e) {
        var i :| 0 <= i < k && es[..k][i] == e;
        assert es[..k - 1][i] == e;
      }
      HiddenAt(t, es, k - 1);
    }
  }

  lemma {:induction false} FramedParts(es: seq<Entry>, k: nat)
    requires k <= |es| && Framed(es)
    ensures Framed(es[..k]) && Framed(es[k..])
    ensures (forall e <- es[..k] :: |e.key| <= MAX_STRING) && (forall e <- es[k..] :: |e.key| <= MAX_STRING)
    ensures EncodeEntries(es) == EncodeEntries(es[..k]) + EncodeEntries(es[k..])
  {
    hide EncodeEntries, Skip;
    assert es == es[..k] + es[k..];
    assert forall e <- es[..k] :: e in es;
    assert forall e <- es[k..] :: e in es;
    EncodeEntriesConcat(es[..k], es[k..]);
  }

  /**
   Keys may occur more than once. The decoder goes through the entries as they say, state and input
   after each, exactly when no empty signature follows one that is not, and no null a link.
   */
  lemma ReadsAsSaidIff(kind: Kind, t: SignedCommit, es: seq<Entry>, s: Bytes)
    requires Framed(es) && Typed(kind, es)
    ensures ReadsAsSaid(kind, t, es, s) <==> !EmptySigFollows(kind, t, es) && !NullFollows(t, es)
  {
    NullFollowsIff(t, es);
    hide Typed, Framed, EmptySigFollows, NullFollows, NullHidden, ReadsTo;
    if EmptySigFollows(kind, t, es) {
      var k := FirstRefill(kind, t, es);
      RefillMisreads(t, es, k, s);
    } else {
      forall k | 0 <= k <= |es|
        ensures ReadsTo(kind, t, es, k, s) <==> !NullHidden(t, es[..k])
      {
        if EmptySigFollows(kind, t, es[..k]) {
          FollowsInPrefix(kind, t, es, k);
        }
        PrefixInOrder(kind, t, es, k, s);
      }
    }
  }

  lemma FollowsInPrefix(kind: Kind, t: SignedCommit, es: seq<Entry>, k: nat)
    requires k <= |es| && EmptySigFollows(kind, t, es[..k])
    ensures EmptySigFollows(kind, t, es)
  {
    hide SigOf;
    var j :| FollowsAt(t, es[..k], j);
    if i :| 0 <= i < j && IsSomeSig(es[..k][i]) {
      assert IsSomeSig(es[i]);
    }
    assert FollowsAt(t, es, j);
  }

  lemma PrefixInOrder(kind: Kind, t: SignedCommit, es: seq<Entry>, k: nat, s: Bytes)
    requires k <= |es| && Framed(es) && Typed(kind, es)
    requires !EmptySigFollows(kind, t, es[..k])
    ensures ReadsTo(kind, t, es, k, s) <==> !NullHidden(t, es[..k])
  {
    hide ReadField, EmptySigFollows, NullHidden, IsFramed, StoreAll, LastLink, LastRaw, DecodeEntries, EncodeEntries;
    FramedParts(es, k);
    assert EncodeEntries(es) + s == EncodeEntries(es[..k]) + (EncodeEntries(es[k..]) + s);
    DecodeInOrder(kind, t, es[..k], EncodeEntries(es[k..]) + s);
    StoredIsSaid(kind, t, es[..k]);
    LastLinkIsSaid(kind, t, es[..k]);
  }

  /** A prefix without the fault, where an empty signature follows one that is not. */
  lemma {:induction false} FirstRefill(kind: Kind, t: SignedCommit, es: seq<Entry>) returns (k: nat)
    requires EmptySigFollows(kind, t, es)
    ensures kind == Signed && k < |es| && !EmptySigFollows(kind, t, es[..k])
    ensures Refills(kind, StoreAll(kind, t, es[..k]), es[k])
    decreases es
  {
    hide StoreEntry, Refills;
    if Refills(kind, t, es[0]) {
      k := 0;
    } else {
      EmptySigFollowsStep(kind, t, es);
      k := FirstRefill(kind, StoreEntry(kind, t, es[0]), es[1..]);
      k := k + 1;
      assert es[..k][1..] == es[1..][..k - 1];
      EmptySigFollowsStep(kind, t, es[..k]);
    }
  }

  lemma {:induction false} DecodeEntriesSplit(kind: Kind, m: nat, n: nat, t: SignedCommit, bs: Bytes)
    ensures DecodeEntries(kind, m + n, t, bs) ==
            match DecodeEntries(kind, m, t, bs) {
              case Ok(p) => DecodeEntries(kind, n, p.value, p.rest)
              case Err(e) => Err(e)
            }
    decreases m
  {
    hide DecodeEntry;
    if m > 0 && DecodeEntry(kind, t, bs).Ok? {
      var e := DecodeEntry(kind, t, bs).value;
      DecodeEntriesSplit(kind, m - 1, n, e.value, e.rest);
    }
  }

  lemma {:induction false} StoreAllLast(kind: Kind, t: SignedCommit, es: seq<Entry>, e: Entry)
    ensures StoreAll(kind, t, es + [e]) == StoreEntry(kind, StoreAll(kind, t, es), e)
    decreases es
  {
    hide StoreEntry;
    if es != [] {
      assert (es + [e])[1..] == es[1..] + [e];
      StoreAllLast(kind, StoreEntry(kind, t, es[0]), es[1..], e);
    }
  }

  /**
   What happens instead: where the fault is first met, as many of the bytes that follow as the old
   signature has become the signature, and decoding goes on behind them.
   */
  lemma {:induction false} DecodeThroughRefill(t: SignedCommit, before: seq<Entry>, e: Entry, m: nat, after: Bytes)
    requires Framed(before) && Typed(Signed, before) && !EmptySigFollows(Signed, t, before)
    requires IsFramed(e) && Refills(Signed, StoreAll(Signed, t, before), e)
    ensures var u := StoreAll(Signed, t, before);
            var n := |u.sig|;
            DecodeEntries(Signed, |before| + 1 + m, t, EncodeEntries(before) + (EncodeEntry(e) + after))
            == if |after| < n then Err(if after == [] then Eof else UnexpectedEof)
               else DecodeEntries(Signed, m, u.(sig := after[..n]), after[n..])
  {
    hide DecodeEntries, EncodeEntries, EncodeEntry, Refills, EmptySigFollows, StoreAll, Skip, Typed;
    DecodeInOrder(Signed, t, before, EncodeEntry(e) + after);
    RefillDecoded(StoreAll(Signed, t, before), e, m, after);
    DecodeEntriesSplit(Signed, |before|, 1 + m, t, EncodeEntries(before) + (EncodeEntry(e) + after));
  }

  /** The same where the fault is in the first entry. */
  lemma {:induction false} RefillDecoded(u: SignedCommit, e: Entry, m: nat, after: Bytes)
    requires IsFramed(e) && Refills(Signed, u, e)
    ensures var n := |u.sig|;
            DecodeEntries(Signed, 1 + m, u, EncodeEntry(e) + after)
            == if |after| < n then Err(if after == [] then Eof else UnexpectedEof)
               else DecodeEntries(Signed, m, u.(sig := after[..n]), after[n..])
  {
    hide DecodeEntry, EncodeEntry, Refills, IsFramed;
    DecodeEmptySig(u, e, after);
  }

  /** The entries around the fault, as the lemma above needs them. */
  lemma {:induction false} AroundRefill(t: SignedCommit, es: seq<Entry>, k: nat, s: Bytes)
    requires k < |es| && Framed(es) && Typed(Signed, es)
    ensures IsFramed(es[k]) && Framed(es[..k]) && Typed(Signed, es[..k])
    ensures forall e <- es[k + 1..] :: |e.key| <= MAX_STRING
    ensures EncodeEntries(es) + s
            == EncodeEntries(es[..k]) + (EncodeEntry(es[k]) + (EncodeEntries(es[k + 1..]) + s))
  {
    FramedParts(es, k);
    FramedParts(es, k + 1);
    TypedPrefix(es, k);
    EncodeFrom(es, k, s);
    hide EncodeEntries, EncodeEntry, IsFramed, Typed;
  }

  lemma TypedPrefix(es: seq<Entry>, k: nat)
    requires k <= |es| && Typed(Signed, es)
    ensures Typed(Signed, es[..k])
  {
    hide ReadField;
    assert forall e <- es[..k] :: e in es;
  }

  lemma {:induction false} EncodeFrom(es: seq<Entry>, k: nat, s: Bytes)
    requires k < |es| && Framed(es)
    requires Framed(es[..k]) && Framed(es[k + 1..])
    ensures EncodeEntries(es) + s
            == EncodeEntries(es[..k]) + (EncodeEntry(es[k]) + (EncodeEntries(es[k + 1..]) + s))
  {
    hide EncodeEntries, EncodeEntry, Skip;
    FramedParts(es, k);
    var later := es[k..];
    assert later[0] == es[k] && later[1..] == es[k + 1..];
    hide IsFramed;
    EncodeFirst(later, s);
    Regroup(EncodeEntries(es[..k]), EncodeEntries(later), s);
  }

  lemma Regroup(a: Bytes, b: Bytes, c: Bytes)
    ensures (a + b) + c == a + (b + c)
  {
  }

  lemma {:induction false} RefillMisreads(t: SignedCommit, es: seq<Entry>, k: nat, s: Bytes)
    requires Framed(es) && Typed(Signed, es)
    requires k < |es| && !EmptySigFollows(Signed, t, es[..k])
    requires Refills(Signed, StoreAll(Signed, t, es[..k]), es[k])
    ensures !ReadsTo(Signed, t, es, k + 1, s)
  {
    hide EncodeEntries, EncodeEntry, DecodeEntry, Framed, Typed, EmptySigFollows, StoreAll, IsFramed, ReadByteString;
    AroundRefill(t, es, k, s);
    DecodeThroughRefill(t, es[..k], es[k], 0, EncodeEntries(es[k + 1..]) + s);
    SaidLast(t, es, k);
  }

  /** Behind an empty signature the entries say that it is empty. */
  lemma SaidLast(t: SignedCommit, es: seq<Entry>, k: nat)
    requires k < |es| && SigOf(es[k]) == Some([])
    ensures Says(Signed, t, es[..k + 1]).sig == []
  {
    assert es[..k + 1][k] == es[k];
  }

  /** On any input: a signature that is not empty is never emptied again. */
  lemma {:induction false} SigStays(kind: Kind, n: nat, t: SignedCommit, bs: Bytes)
    requires t.sig != [] && DecodeEntries(kind, n, t, bs).Ok?
    ensures DecodeEntries(kind, n, t, bs).value.value.sig != []
  {
    hide Skip, ReadName, ReadHead, ReadString, ReadCid, ReadCidOrNull, ReadInt;
    if n > 0 {
      var e := DecodeEntry(kind, t, bs).value;
      SigStays(kind, n - 1, e.value, e.rest);
    }
  }

  /** A map without the first fault gives its entries stored one after the other. */
  lemma {:induction false} DecodeMapInOrder(kind: Kind, es: seq<Entry>, s: Bytes)
    requires |es| <= MAX_LENGTH && Framed(es)
    requires !EmptySigFollows(kind, ZERO_COMMIT, es)
    ensures var r := DecodeFields(kind, EncodeMap(es) + s);
            if Typed(kind, es) then r == Ok(Parsed(StoreAll(kind, ZERO_COMMIT, es), s)) else r.Err?
  {
    hide DecodeFields, DecodeEntries, EncodeMap, EncodeEntries, StoreAll, Typed, EmptySigFollows;
    MapEntries(kind, es, s);
    DecodeInOrder(kind, ZERO_COMMIT, es, s);
  }

  /**
   Such a map is accepted exactly when its known fields have their types. The commit is then what the
   map says, but that the previous commit is the last link named; so it is just what the map says
   exactly when the last previous commit named is not a null behind a link.
   */
  lemma {:induction false} DecodeMapSays(kind: Kind, es: seq<Entry>, s: Bytes)
    requires |es| <= MAX_LENGTH && Framed(es)
    requires !EmptySigFollows(kind, ZERO_COMMIT, es)
    ensures var r, said := DecodeFields(kind, EncodeMap(es) + s), Says(kind, ZERO_COMMIT, es);
            && (r.Ok? <==> Typed(kind, es))
            && (r.Ok? ==> r == Ok(Parsed(said.(prev := LastLink(None, es)), s)))
            && (r.Ok? ==> (r == Ok(Parsed(said, s)) <==> !NullHidden(ZERO_COMMIT, es)))
  {
    hide DecodeFields, EncodeMap, EmptySigFollows, NullHidden, Typed, StoreAll, LastLink, LastRaw;
    DecodeMapInOrder(kind, es, s);
    if Typed(kind, es) {
      StoredIsSaid(kind, ZERO_COMMIT, es);
      LastLinkIsSaid(kind, ZERO_COMMIT, es);
    }
  }

  /** A link, and then a null, for the previous commit. */
  function LinkThenNull(c: CidBytes): seq<Entry>
    requires c != []
  {
    [Entry(KEY_PREV, EncodeCid(c)), NullOn(KEY_PREV)]
  }

  /** The null says that there is no previous commit, and is ignored. */
  lemma NullPrevIgnored(kind: Kind, c: CidBytes, s: Bytes)
    requires c != []
    ensures var es := LinkThenNull(c);
            && Framed(es) && Typed(kind, es) && !EmptySigFollows(kind, ZERO_COMMIT, es)
            && Says(kind, ZERO_COMMIT, es) == ZERO_COMMIT
            && DecodeFields(kind, EncodeMap(es) + s) == Ok(Parsed(ZERO_COMMIT.(prev := Some(c)), s))
  {
    hide *;
    var es := LinkThenNull(c);
    LinkThenNullSays(kind, c);
    ShortMap(c);
    DecodeMapSays(kind, es, s);
  }

  lemma ShortMap(c: CidBytes)
    requires c != []
    ensures |LinkThenNull(c)| <= MAX_LENGTH && ZERO_COMMIT.(prev := None) == ZERO_COMMIT
  {
  }

  lemma LinkThenNullSays(kind: Kind, c: CidBytes)
    requires c != []
    ensures var es := LinkThenNull(c);
            && Framed(es) && Typed(kind, es) && !EmptySigFollows(kind, ZERO_COMMIT, es)
            && Says(kind, ZERO_COMMIT, es) == ZERO_COMMIT && LastLink(None, es) == Some(c)
  {
    hide ReadField, IsFramed, EncodeCid, PrevIn, ReadByteString;
    KeysDiffer();
    PrevEntries(kind, c);
    var es := LinkThenNull(c);
    assert es[..1] == [es[0]] && es[..1][..0] == [];
    LastRawAbsent(es, KEY_DID);
    LastRawAbsent(es, KEY_REV);
    LastRawAbsent(es, KEY_SIG);
    LastRawAbsent(es, KEY_DATA);
    LastRawAbsent(es, KEY_VERSION);
  }

  lemma PrevEntries(kind: Kind, c: CidBytes)
    requires c != []
    ensures IsFramed(Entry(KEY_PREV, EncodeCid(c))) && IsFramed(NullOn(KEY_PREV))
    ensures ReadField(kind, KEY_PREV, 0, EncodeCid(c)).Ok? && ReadField(kind, KEY_PREV, 0, [NULL_BYTE]).Ok?
    ensures PrevIn(EncodeCid(c)) == Some(c) && PrevIn([NULL_BYTE]) == None
  {
    hide ReadCidOrNull, Skip, EncodeCid;
    KeysDiffer();
    CidOrNullRoundTrip(Some(c), []);
    CidOrNullRoundTrip(None, []);
    AppendNone(EncodeCid(c));
    AppendNone([NULL_BYTE]);
    TypedReadersReadOneItem(MAX_STRING, EncodeCid(c));
    TypedReadersReadOneItem(MAX_STRING, [NULL_BYTE]);
  }

  lemma {:induction false} MapEntries(kind: Kind, es: seq<Entry>, s: Bytes)
    requires |es| <= MAX_LENGTH && Framed(es)
    ensures DecodeFields(kind, EncodeMap(es) + s)
            == PastHead(DecodeEntries(kind, |es|, ZERO_COMMIT, EncodeEntries(es) + s))
  {
    hide ReadHead, EncodeHead, DecodeEntries;
    assert EncodeMap(es) + s == EncodeHead(MAJ_MAP, |es|) + (EncodeEntries(es) + s);
    HeadRoundTrip(MAJ_MAP, |es|, EncodeEntries(es) + s);
  }

  /**
   A map that says the signature is empty decodes to what it says exactly when all its signatures are
   empty and the last previous commit named is not a null behind a link.
   */
  lemma {:induction false} EmptiedSigIsMisread(es: seq<Entry>, s: Bytes)
    requires |es| <= MAX_LENGTH && Framed(es) && Typed(Signed, es)
    requires Says(Signed, ZERO_COMMIT, es).sig == []
    ensures DecodeFields(Signed, EncodeMap(es) + s) == Ok(Parsed(Says(Signed, ZERO_COMMIT, es), s))
            <==> !EmptySigFollows(Signed, ZERO_COMMIT, es) && !NullHidden(ZERO_COMMIT, es)
  {
    hide DecodeFields, EncodeMap, EncodeEntries, EncodeEntry, DecodeEntries, StoreAll, Says, NullHidden, Typed, EmptySigFollows, SigOf,
      IsFramed;
    if EmptySigFollows(Signed, ZERO_COMMIT, es) {
      MapEntries(Signed, es, s);
      var k := FirstRefill(Signed, ZERO_COMMIT, es);
      AroundRefill(ZERO_COMMIT, es, k, s);
      var u, after, m := StoreAll(Signed, ZERO_COMMIT, es[..k]), EncodeEntries(es[k + 1..]) + s, |es| - k - 1;
      DecodeThroughRefill(ZERO_COMMIT, es[..k], es[k], m, after);
      var n := |u.sig|;
      if |after| >= n && DecodeEntries(Signed, m, u.(sig := after[..n]), after[n..]).Ok? {
        SigStays(Signed, m, u.(sig := after[..n]), after[n..]);
      }
    } else {
      DecodeMapSays(Signed, es, s);
    }
  }

  function SigOn(b: Bytes): Entry
    requires |b| <= MAX_SIG
  {
    Entry(KEY_SIG, EncodeBytes(b))
  }

  function NullOn(key: Bytes): Entry {
    Entry(key, [NULL_BYTE])
  }

  /** A signature, an empty one, a key that is not known, and a last signature. */
  function UnseenMap(): seq<Entry> {
    [SigOn([1, 2]), SigOn([]), NullOn([0, 0x61, 0x7a]), SigOn([3])]
  }

  /**
   Behind the fault the bytes may fall into step again. Here the two bytes taken for the signature
   turn the unknown key into another unknown key, and the last signature hides the rest: the whole
   map decodes to what its entries say, though its second entry was misread.
   */
  lemma MisreadCanGoUnseen(s: Bytes)
    ensures var es := UnseenMap();
            && Framed(es) && Typed(Signed, es) && EmptySigFollows(Signed, ZERO_COMMIT, es)
            && DecodeFields(Signed, EncodeMap(es) + s) == Ok(Parsed(Says(Signed, ZERO_COMMIT, es), s))
  {
    assert |UnseenMap()| == 4;
    hide *;
    UnseenMapIsTyped();
    UnseenMapRealigned(s);
    var es := UnseenMap();
    MapEntries(Signed, es, s);
  }

  lemma UnseenMapIsTyped()
    ensures var es := UnseenMap();
            && Framed(es) && Typed(Signed, es) && EmptySigFollows(Signed, ZERO_COMMIT, es)
            && Says(Signed, ZERO_COMMIT, es) == ZERO_COMMIT.(sig := [3])
  {
    hide IsFramed, SigOf, StoreEntry, ReadField, SigOn, NullOn;
    SigEntry([1, 2]);
    SigEntry([]);
    SigEntry([3]);
    NullEntry([0, 0x61, 0x7a]);
    var es, t := UnseenMap(), ZERO_COMMIT.(sig := [3]);
    assert IsSomeSig(es[0]) && SigOf(es[1]) == Some([]);
    assert FollowsAt(ZERO_COMMIT, es, 1);
    assert StoreAll(Signed, t, []) == t;
    assert es[3..] == [SigOn([3])] && es[2..][1..] == es[3..] && es[1..][1..] == es[2..];
    NoPrevSaid(es);
  }

  /** Where no entry is for the previous commit, what is stored in order is what is said. */
  lemma {:induction false} NoPrevSaid(es: seq<Entry>)
    requires Typed(Signed, es) && forall e <- es :: e.key != KEY_PREV
    ensures Says(Signed, ZERO_COMMIT, es) == StoreAll(Signed, ZERO_COMMIT, es)
  {
    hide ReadField, StoreAll, LastRaw, LastLink;
    StoredIsSaid(Signed, ZERO_COMMIT, es);
    LastRawAbsent(es, KEY_PREV);
    LastLinkIff(None, es);
  }

  lemma {:induction false} LastRawAbsent(es: seq<Entry>, key: Bytes)
    requires forall e <- es :: e.key != key
    ensures LastRaw(es, key) == None
  {
    if es != [] {
      LastRawAbsent(es[..|es| - 1], key);
    }
  }

  lemma {:induction false} UnseenMapRealigned(s: Bytes)
    requires Framed(UnseenMap()) && Typed(Signed, UnseenMap())
    ensures DecodeEntries(Signed, 4, ZERO_COMMIT, EncodeEntries(UnseenMap()) + s)
            == Ok(Parsed(ZERO_COMMIT.(sig := [3]), s))
  {
    hide SigOn, NullOn, EncodeEntries, DecodeEntries, EncodeEntry, Framed, Typed;
    var es, full, last := UnseenMap(), SigOn([1, 2]), SigOn([3]);
    AroundRefill(ZERO_COMMIT, es, 1, s);
    assert es[..1] == [full] && es[2..] == [NullOn([0, 0x61, 0x7a]), last];
    StepBack(s);
    hide UnseenMap;
    FirstRefilled(EncodeEntries(es[2..]) + s);
  }

  /** The first two entries: the empty signature takes two bytes more. */
  lemma {:induction false} FirstRefilled(after: Bytes)
    requires |after| >= 2
    ensures DecodeEntries(Signed, 4, ZERO_COMMIT, EncodeEntries([SigOn([1, 2])]) + (EncodeEntry(SigOn([])) + after))
            == DecodeEntries(Signed, 2, ZERO_COMMIT.(sig := after[..2]), after[2..])
  {
    hide IsFramed, SigOf, StoreEntry, ReadField, SigOn, NullOn, EncodeEntries, EncodeEntry, DecodeEntries;
    SigEntry([1, 2]);
    SigEntry([]);
    var before, t := [SigOn([1, 2])], ZERO_COMMIT;
    assert before[1..] == [];
    assert StoreAll(Signed, t, before) == t.(sig := [1, 2]);
    DecodeThroughRefill(t, before, SigOn([]), 2, after);
  }

  /** Without its first two bytes, what follows is an entry under another unknown key. */
  lemma StepBack(s: Bytes)
    ensures (forall e <- [NullOn([0, 0x61, 0x7a]), SigOn([3])] :: |e.key| <= MAX_STRING)
    ensures var after := EncodeEntries([NullOn([0, 0x61, 0x7a]), SigOn([3])]) + s;
            |after| >= 2 && forall t :: DecodeEntries(Signed, 2, t, after[2..]) == Ok(Parsed(t.(sig := [3]), s))
  {
    hide IsFramed, SigOf, StoreEntry, ReadField, SigOn, EncodeEntry, DecodeEntries;
    NullEntry([0, 0x61, 0x7a]);
    NullEntry([0x7a]);
    SigEntry([3]);
    var odd, even, last := [NullOn([0, 0x61, 0x7a]), SigOn([3])], [NullOn([0x7a]), SigOn([3])], SigOn([3]);
    assert odd[1..] == even[1..] == [last];
    assert (EncodeEntries(odd) + s)[2..] == EncodeEntries(even) + s;
    forall t ensures DecodeEntries(Signed, 2, t, EncodeEntries(even) + s) == Ok(Parsed(t.(sig := [3]), s)) {
      assert even[1..][1..] == [];
      DecodeInOrder(Signed, t, even, s);
    }
  }

  lemma SigEntry(b: Bytes)
    requires |b| <= MAX_SIG
    ensures IsFramed(SigOn(b)) && SigOf(SigOn(b)) == Some(b)
    ensures ReadField(Signed, KEY_SIG, 0, SigOn(b).raw).Ok? && SigOn(b).key == KEY_SIG
    ensures forall t :: StoreEntry(Signed, t, SigOn(b)) == t.(sig := b)
  {
    hide Skip, EncodeHead, ReadByteString;
    KeysDiffer();
    AppendNone(EncodeBytes(b));
    SkipPassesString(MAJ_BYTES, b, []);
    ByteStringRoundTrip(b, MAX_SIG, []);
  }

  lemma NullEntry(key: Bytes)
    requires |key| <= 3 && !IsKnown(Signed, key)
    ensures IsFramed(NullOn(key)) && SigOf(NullOn(key)) == None
    ensures ReadField(Signed, key, 0, NullOn(key).raw).Ok? && NullOn(key).key == key
    ensures forall t :: StoreEntry(Signed, t, NullOn(key)) == t
    ensures EncodeEntry(NullOn(key)) == [0x60 + |key|] + key + [NULL_BYTE]
  {
    SkipStep(1, [NULL_BYTE]);
    SkipNone([]);
    hide Skip;
  }

  // ---------------------------------------------------------------- the codec's methods

  /** What stops an encoder, in the order it would meet it. */
  function EncodeProblem(kind: Kind, c: SignedCommit): (e: Option<Error>)
    ensures e.None? <==> Encodable(kind, c)
  {
    if |c.did| > MAX_STRING || |c.rev| > MAX_STRING || (kind == Signed && |c.sig| > MAX_SIG) then Some(TooLong)
    else if c.data == [] || c.prev == Some([]) then Some(UndefinedCid)
    else None
  }

  lemma {:induction false} EncodeEntriesAppend(es: seq<Entry>, e: Entry)
    requires forall x <- es + [e] :: |x.key| <= MAX_STRING
    ensures forall x <- es :: |x.key| <= MAX_STRING
    ensures |e.key| <= MAX_STRING
    ensures EncodeEntries(es + [e]) == EncodeEntries(es) + EncodeEntry(e)
  {
    assert forall i :: 0 <= i < |es| ==> (es + [e])[i] == es[i];
    assert (es + [e])[|es|] == e;
    EncodeEntriesConcat(es, [e]);
    assert EncodeEntry(e) + [] == EncodeEntry(e);
  }

  /** Writes the head and key of one field. */
  method WriteKey(w: CborWriter, key: Bytes)
    requires |key| <= MAX_STRING
    modifies w
    ensures w.out == old(w.out) + EncodeText(key)
  {
    w.WriteText(key);
  }

  /** The negation wraps around for the least version, and subtracting one wraps it back. */
  lemma NegativeArgument(version: int)
    requires -TWO_TO_63 <= version < 0
    ensures WrapUint64(WrapInt64(WrapInt64(-version) - 1)) == -1 - version
  {
    var n := -version;
    if n < TWO_TO_63 {
      assert WrapInt64(n) == n;
      assert WrapInt64(n - 1) == n - 1;
    } else {
      assert WrapInt64(n) == -TWO_TO_63;
      assert WrapInt64(-TWO_TO_63 - 1) == TWO_TO_63 - 1;
    }
  }

  method WriteVersion(w: CborWriter, version: int64)
    modifies w
    ensures w.out == old(w.out) + EncodeInt(version)
  {
    hide EncodeHead, WrapInt64;
    if version >= 0 {
      assert WrapUint64(version) == version;
      w.WriteHead(MAJ_UINT, WrapUint64(version));
    } else {
      var v: int := version;
      NegativeArgument(version);
      w.WriteHead(MAJ_NEGATIVE, WrapUint64(WrapInt64(WrapInt64(-v) - 1)));
    }
  }

  method WritePrev(w: CborWriter, prev: Option<CidBytes>) returns (r: Result<(), Error>)
    modifies w
    ensures r.Ok? <==> prev != Some([])
    ensures r.Ok? ==> w.out == old(w.out) + EncodePrev(prev)
    ensures r.Err? ==> r.error == UndefinedCid && w.out == old(w.out)
  {
    if prev.None? {
      w.Write([NULL_BYTE]);
      return Ok(());
    }
    r := w.WriteCid(prev.value);
  }

  /** Writes the part the two codecs share at the end of the map: data, prev and version. */
  method WriteTail(w: CborWriter, data: CidBytes, prev: Option<CidBytes>, version: int64)
    returns (r: Result<(), Error>)
    modifies w
    ensures r.Ok? <==> data != [] && prev != Some([])
    ensures r.Ok? ==> w.out == old(w.out) + EncodeEntries(TailEntries(data, prev, version))
    ensures r.Err? ==> r.error == UndefinedCid && old(w.out) <= w.out
  {
    hide EncodeText, EncodeCid, EncodeInt, EncodePrev, EncodeEntries;
    KeysDiffer();
    WriteKey(w, KEY_DATA);
    var _ :- w.WriteCid(data);
    WriteKey(w, KEY_PREV);
    var _ :- WritePrev(w, prev);
    WriteKey(w, KEY_VERSION);
    WriteVersion(w, version);
    var d, p, v := Entry(KEY_DATA, EncodeCid(data)), Entry(KEY_PREV, EncodePrev(prev)), Entry(KEY_VERSION, EncodeInt(version));
    EncodeEntriesOfThree(d, p, v);
    GroupPairs(old(w.out), EncodeText(d.key), d.raw, EncodeText(p.key), p.raw, EncodeText(v.key), v.raw);
    return Ok(());
  }

  lemma GroupPairs(o: Bytes, a: Bytes, b: Bytes, c: Bytes, d: Bytes, e: Bytes, f: Bytes)
    ensures o + a + b + c + d + e + f == o + ((a + b) + (c + d) + (e + f))
  {
    assert o + a + b + c + d == o + ((a + b) + (c + d));
  }

  lemma EncodeEntriesOfThree(d: Entry, p: Entry, v: Entry)
    requires |d.key| <= MAX_STRING && |p.key| <= MAX_STRING && |v.key| <= MAX_STRING
    ensures EncodeEntries([d, p, v]) == EncodeEntry(d) + EncodeEntry(p) + EncodeEntry(v)
  {
    assert EncodeEntries([d]) == EncodeEntry(d);
    EncodeEntriesAppend([d], p);
    assert [d] + [p] == [d, p] && [d, p] + [v] == [d, p, v];
    EncodeEntriesAppend([d, p], v);
  }

  lemma {:induction false} EncodeEntriesConcat(es: seq<Entry>, fs: seq<Entry>)
    requires forall x <- es :: |x.key| <= MAX_STRING
    requires forall x <- fs :: |x.key| <= MAX_STRING
    ensures forall x <- es + fs :: |x.key| <= MAX_STRING
    ensures EncodeEntries(es + fs) == EncodeEntries(es) + EncodeEntries(fs)
  {
    if es == [] {
      assert es + fs == fs;
    } else {
      assert (es + fs)[1..] == es[1..] + fs;
      EncodeEntriesConcat(es[1..], fs);
    }
  }

  function StartEntries(did: Bytes, rev: Bytes): (es: seq<Entry>)
    requires |did| <= MAX_STRING && |rev| <= MAX_STRING
    ensures forall e <- es :: |e.key| <= MAX_STRING
  {
    [Entry(KEY_DID, EncodeText(did))] + if rev == [] then [] else [Entry(KEY_REV, EncodeText(rev))]
  }

  function TailEntries(data: CidBytes, prev: Option<CidBytes>, version: int64): (es: seq<Entry>)
    requires data != [] && prev != Some([])
    ensures forall e <- es :: |e.key| <= MAX_STRING
  {
    [Entry(KEY_DATA, EncodeCid(data)), Entry(KEY_PREV, EncodePrev(prev)), Entry(KEY_VERSION, EncodeInt(version))]
  }

  /** The bytes of an encoded commit, part by part. */
  lemma SignedEntries(t: SignedCommit)
    requires Encodable(Signed, t)
    ensures |KEY_SIG| <= MAX_STRING
    ensures Encode(Signed, t) == EncodeHead(MAJ_MAP, if t.rev == [] then 5 else 6)
                                 + EncodeEntries(StartEntries(t.did, t.rev))
                                 + EncodeEntry(Entry(KEY_SIG, EncodeBytes(t.sig)))
                                 + EncodeEntries(TailEntries(t.data, t.prev, t.version))
  {
    hide EncodeText, EncodeBytes, EncodeCid, EncodeInt, EncodePrev, EncodeEntries, EncodeHead, EncodeEntry;
    KeysDiffer();
    var start, tail := StartEntries(t.did, t.rev), TailEntries(t.data, t.prev, t.version);
    var sig := Entry(KEY_SIG, EncodeBytes(t.sig));
    assert Entries(Signed, t) == start + [sig] + tail;
    EncodeEntriesAppend(start, sig);
    EncodeEntriesConcat(start + [sig], tail);
  }

  lemma UnsignedEntries(t: UnsignedCommit)
    requires Encodable(Unsigned, WithSig(t, []))
    ensures Encode(Unsigned, WithSig(t, [])) == EncodeHead(MAJ_MAP, if t.rev == [] then 4 else 5)
                                                + EncodeEntries(StartEntries(t.did, t.rev))
                                                + EncodeEntries(TailEntries(t.data, t.prev, t.version))
  {
    hide EncodeText, EncodeBytes, EncodeCid, EncodeInt, EncodePrev, EncodeEntries, EncodeHead, EncodeEntry;
    var start, tail := StartEntries(t.did, t.rev), TailEntries(t.data, t.prev, t.version);
    assert Entries(Unsigned, WithSig(t, [])) == start + tail;
    EncodeEntriesConcat(start, tail);
  }

  /** Writes what the two codecs share at the start of the map: did, and rev unless it is empty. */
  method WriteStart(w: CborWriter, did: Bytes, rev: Bytes) returns (r: Result<(), Error>)
    modifies w
    ensures r.Ok? <==> |did| <= MAX_STRING && |rev| <= MAX_STRING
    ensures r.Ok? ==> w.out == old(w.out) + EncodeEntries(StartEntries(did, rev))
    ensures r.Err? ==> r.error == TooLong && old(w.out) <= w.out
  {
    hide EncodeText, EncodeEntries;
    KeysDiffer();
    WriteKey(w, KEY_DID);
    if |did| > MAX_STRING {
      return Err(TooLong);
    }
    w.WriteText(did);
    EncodeEntriesOfOne(Entry(KEY_DID, EncodeText(did)));
    if rev != [] {
      WriteKey(w, KEY_REV);
      if |rev| > MAX_STRING {
        return Err(TooLong);
      }
      w.WriteText(rev);
      EncodeEntriesAppend([Entry(KEY_DID, EncodeText(did))], Entry(KEY_REV, EncodeText(rev)));
    }
    assert rev == [] ==> StartEntries(did, rev) == [Entry(KEY_DID, EncodeText(did))];
    assert w.out == old(w.out) + EncodeEntries(StartEntries(did, rev));
    return Ok(());
  }

  lemma EncodeEntriesOfOne(e: Entry)
    requires |e.key| <= MAX_STRING
    ensures EncodeEntries([e]) == EncodeEntry(e)
  {
    assert EncodeEntry(e) + [] == EncodeEntry(e);
  }

  lemma EncodeBytesParts(b: Bytes)
    requires |b| < TWO_TO_64
    ensures EncodeBytes(b) == EncodeHead(MAJ_BYTES, |b|) + b
  {
  }

  method WriteSig(w: CborWriter, sig: Bytes) returns (r: Result<(), Error>)
    modifies w
    ensures r.Ok? <==> |sig| <= MAX_SIG
    ensures r.Ok? ==> |KEY_SIG| <= MAX_STRING && w.out == old(w.out) + EncodeEntry(Entry(KEY_SIG, EncodeBytes(sig)))
    ensures r.Err? ==> r.error == TooLong && old(w.out) <= w.out
  {
    hide EncodeText, EncodeBytes, EncodeHead;
    KeysDiffer();
    WriteKey(w, KEY_SIG);
    if |sig| > MAX_SIG {
      return Err(TooLong);
    }
    w.WriteHead(MAJ_BYTES, |sig|);
    w.Write(sig);
    EncodeBytesParts(sig);
    return Ok(());
  }

  /** `MarshalCBOR` of a signed commit, or of nil: fails exactly on what cannot be encoded, and
      otherwise appends the encoding to the stream. */
  method MarshalSigned(w: CborWriter, c: Option<SignedCommit>) returns (r: Result<(), Error>)
    modifies w
    ensures c.None? ==> r == Ok(()) && w.out == old(w.out) + [NULL_BYTE]
    ensures c.Some? ==>
              match EncodeProblem(Signed, c.value) {
                case None => r == Ok(()) && w.out == old(w.out) + Encode(Signed, c.value)
                case Some(e) => r == Err(e) && old(w.out) <= w.out
              }
  {
    hide EncodeText, EncodeBytes, EncodeCid, EncodeInt, EncodePrev, EncodeEntries, EncodeHead;
    if c.None? {
      w.Write([NULL_BYTE]);
      return Ok(());
    }
    var t := c.value;
    var fieldCount := 6;
    if t.rev == [] {
      fieldCount := fieldCount - 1;
    }
    w.WriteHead(MAJ_MAP, fieldCount);
    var _ :- WriteStart(w, t.did, t.rev);
    var _ :- WriteSig(w, t.sig);
    var _ :- WriteTail(w, t.data, t.prev, t.version);
    SignedEntries(t);
    assert w.out == old(w.out) + Encode(Signed, t);
    return Ok(());
  }

  /** `MarshalCBOR` of an unsigned commit, or of nil. */
  method MarshalUnsigned(w: CborWriter, c: Option<UnsignedCommit>) returns (r: Result<(), Error>)
    modifies w
    ensures c.None? ==> r == Ok(()) && w.out == old(w.out) + [NULL_BYTE]
    ensures c.Some? ==>
              match EncodeProblem(Unsigned, WithSig(c.value, [])) {
                case None => r == Ok(()) && w.out == old(w.out) + Encode(Unsigned, WithSig(c.value, []))
                case Some(e) => r == Err(e) && old(w.out) <= w.out
              }
  {
    hide EncodeText, EncodeBytes, EncodeCid, EncodeInt, EncodePrev, EncodeEntries, EncodeHead;
    if c.None? {
      w.Write([NULL_BYTE]);
      return Ok(());
    }
    var t := c.value;
    var fieldCount := 5;
    if t.rev == [] {
      fieldCount := fieldCount - 1;
    }
    w.WriteHead(MAJ_MAP, fieldCount);
    var _ :- WriteStart(w, t.did, t.rev);
    var _ :- WriteTail(w, t.data, t.prev, t.version);
    UnsignedEntries(t);
    assert w.out == old(w.out) + Encode(Unsigned, WithSig(t, []));
    return Ok(());
  }

  /** Reads an integer field the way the codec does, through int64 conversions. */
  /** An argument that does not fit wraps around to a negative number. */
  lemma WrappedArgument(arg: uint64)
    ensures if arg < TWO_TO_63 then WrapInt64(arg) == arg else WrapInt64(arg) < 0
  {
  }

  method ReadVersion(r: CborReader) returns (res: Result<int64, Error>)
    requires r.Valid()
    modifies r`pos
    ensures r.Valid()
    ensures match ReadInt(old(r.Rest())) {
              case Ok(p) => res == Ok(p.value) && r.Rest() == p.rest
              case Err(e) => res == Err(e)
            }
  {
    hide ReadHead, WrapInt64;
    var h :- r.ReadHeader();
    WrappedArgument(h.arg);
    var extra := WrapInt64(h.arg);
    if h.major == MAJ_UINT {
      if extra < 0 {
        return Err(Overflow);
      }
      return Ok(extra);
    } else if h.major == MAJ_NEGATIVE {
      if extra < 0 {
        return Err(Overflow);
      }
      return Ok(-1 - extra);
    } else {
      return Err(WrongType);
    }
  }

  method ReadPrev(r: CborReader) returns (res: Result<Option<Bytes>, Error>)
    requires r.Valid()
    modifies r`pos
    ensures r.Valid()
    ensures match ReadCidOrNull(old(r.Rest())) {
              case Ok(p) => res == Ok(p.value) && r.Rest() == p.rest
              case Err(e) => res == Err(e)
            }
  {
    ghost var before := r.Rest();
    var b :- r.ReadByte();
    if b != NULL_BYTE {
      r.UnreadByte();
      assert r.Rest() == before;
      var c := r.ReadLink();
      if c.Err? {
        return Err(InLinkField(c.error));
      }
      return Ok(Some(c.value));
    }
    assert r.Rest() == before[1..];
    return Ok(None);
  }

  method ReadSig(r: CborReader, sig: Bytes) returns (res: Result<Bytes, Error>)
    requires r.Valid()
    modifies r`pos
    ensures r.Valid()
    ensures match ReadByteString(|sig|, MAX_SIG, old(r.Rest())) {
              case Ok(p) => res == Ok(p.value) && r.Rest() == p.rest
              case Err(e) => res == Err(e)
            }
  {
    var h :- r.ReadHeader();
    if h.arg > MAX_SIG {
      return Err(TooLong);
    }
    if h.major != MAJ_BYTES {
      return Err(WrongType);
    }
    var length := |sig|;
    if h.arg > 0 {
      length := h.arg;
    }
    res := r.ReadFull(length);
  }

  lemma ReadCidGivesCid(bs: Bytes)
    ensures ReadCid(bs).Ok? ==> IsCid(ReadCid(bs).value.value)
    ensures ReadCidOrNull(bs).Ok? && ReadCidOrNull(bs).value.value.Some? ==> IsCid(ReadCidOrNull(bs).value.value.value)
  {
    hide ReadHead, Take;
  }

  /** One turn of the decoder's loop: a name, then the field it names or an item to skip. */
  method UnmarshalSignedEntry(r: CborReader, c: SignedCommit) returns (res: Result<SignedCommit, Error>)
    requires r.Valid()
    modifies r`pos
    ensures r.Valid()
    ensures match DecodeEntry(Signed, c, old(r.Rest())) {
              case Ok(p) => res.Ok? && res.value == p.value && r.Rest() == p.rest
              case Err(e) => res == Err(e)
            }
  {
    hide ReadHead, ReadName, Skip, ReadString, ReadByteString, ReadCid, ReadCidOrNull, ReadInt;
    KeysDiffer();
    var t := c;
    var name :- r.ReadFullStringIntoBuf(NAME_BUFFER, MAX_STRING);
    if name.None? {
      var _ :- r.ScanForLinks();
      return Ok(t);
    }
    ReadCidGivesCid(r.Rest());
    var key := name.value;
    if key == KEY_DID {
      var did :- r.ReadStringWithMax(MAX_STRING);
      t := t.(did := did);
    } else if key == KEY_REV {
      var rev :- r.ReadStringWithMax(MAX_STRING);
      t := t.(rev := rev);
    } else if key == KEY_SIG {
      var sig :- ReadSig(r, t.sig);
      t := t.(sig := sig);
    } else if key == KEY_DATA {
      var data := r.ReadLink();
      if data.Err? {
        return Err(InLinkField(data.error));
      }
      t := t.(data := data.value);
    } else if key == KEY_PREV {
      var prev :- ReadPrev(r);
      if prev.Some? {
        t := t.(prev := Some(prev.value));
      }
    } else if key == KEY_VERSION {
      var version :- ReadVersion(r);
      t := t.(version := version);
    } else {
      var _ :- r.ScanForLinks();
    }
    return Ok(t);
  }

  /** One turn of the decoder's loop: a name, then the field it names or an item to skip. */
  method UnmarshalUnsignedEntry(r: CborReader, c: UnsignedCommit) returns (res: Result<UnsignedCommit, Error>)
    requires r.Valid()
    modifies r`pos
    ensures r.Valid()
    ensures match DecodeEntry(Unsigned, WithSig(c, []), old(r.Rest())) {
              case Ok(p) => res.Ok? && WithSig(res.value, []) == p.value && r.Rest() == p.rest
              case Err(e) => res == Err(e)
            }
  {
    hide ReadHead, ReadName, Skip, ReadString, ReadByteString, ReadCid, ReadCidOrNull, ReadInt;
    KeysDiffer();
    var t := c;
    var name :- r.ReadFullStringIntoBuf(NAME_BUFFER, MAX_STRING);
    if name.None? {
      var _ :- r.ScanForLinks();
      return Ok(t);
    }
    ReadCidGivesCid(r.Rest());
    var key := name.value;
    if key == KEY_DID {
      var did :- r.ReadStringWithMax(MAX_STRING);
      t := t.(did := did);
    } else if key == KEY_REV {
      var rev :- r.ReadStringWithMax(MAX_STRING);
      t := t.(rev := rev);
    } else if key == KEY_DATA {
      var data := r.ReadLink();
      if data.Err? {
        return Err(InLinkField(data.error));
      }
      t := t.(data := data.value);
    } else if key == KEY_PREV {
      var prev :- ReadPrev(r);
      if prev.Some? {
        t := t.(prev := Some(prev.value));
      }
    } else if key == KEY_VERSION {
      var version :- ReadVersion(r);
      t := t.(version := version);
    } else {
      var _ :- r.ScanForLinks();
    }
    return Ok(t);
  }

  /** `UnmarshalCBOR`: reads the map entry by entry into a zero commit. */
  method UnmarshalSigned(r: CborReader) returns (res: Result<SignedCommit, Error>)
    requires r.Valid()
    modifies r`pos
    ensures r.Valid()
    ensures match DecodeFields(Signed, old(r.Rest())) {
              case Ok(p) => res.Ok? && res.value == p.value && r.Rest() == p.rest
              case Err(e) => res == Err(e)
            }
  {
    hide ReadHead, DecodeEntry;
    var h :- r.ReadHeader();
    if h.major != MAJ_MAP {
      return Err(WrongType);
    }
    if h.arg > MAX_LENGTH {
      return Err(TooLong);
    }
    var t: SignedCommit := ZERO_COMMIT;
    ghost var outcome := DecodeEntries(Signed, h.arg, t, r.Rest());
    for i := 0 to h.arg
      invariant r.Valid()
      invariant DecodeEntries(Signed, h.arg - i, t, r.Rest()) == outcome
    {
      var next := UnmarshalSignedEntry(r, t);
      if next.Err? {
        return if next.error == Eof then Err(UnexpectedEof) else Err(next.error);
      }
      t := next.value;
    }
    return Ok(t);
  }

  /** `UnmarshalCBOR`: reads the map entry by entry into a zero commit. */
  method UnmarshalUnsigned(r: CborReader) returns (res: Result<UnsignedCommit, Error>)
    requires r.Valid()
    modifies r`pos
    ensures r.Valid()
    ensures match DecodeFields(Unsigned, old(r.Rest())) {
              case Ok(p) => res.Ok? && WithSig(res.value, []) == p.value && r.Rest() == p.rest
              case Err(e) => res == Err(e)
            }
  {
    hide ReadHead, DecodeEntry;
    var h :- r.ReadHeader();
    if h.major != MAJ_MAP {
      return Err(WrongType);
    }
    if h.arg > MAX_LENGTH {
      return Err(TooLong);
    }
    var t: UnsignedCommit := Unsign(ZERO_COMMIT);
    ghost var outcome := DecodeEntries(Unsigned, h.arg, WithSig(t, []), r.Rest());
    for i := 0 to h.arg
      invariant r.Valid()
      invariant DecodeEntries(Unsigned, h.arg - i, WithSig(t, []), r.Rest()) == outcome
    {
      var next := UnmarshalUnsignedEntry(r, t);
      if next.Err? {
        return if next.error == Eof then Err(UnexpectedEof) else Err(next.error);
      }
      t := next.value;
    }
    return Ok(t);
  }

  // ---------------------------------------------------------------- signing

  /**
   The unsigned codec skips the signature of a stored commit and finds the commit that was signed:
   encoding what it finds gives the bytes the signature is over.
   */
  lemma StoredCommitGivesSignedBytes(c: SignedCommit, s: Bytes)
    requires Encodable(Signed, c)
    ensures DecodeFields(Unsigned, Encode(Signed, c) + s) == Ok(Parsed(WithSig(Unsign(c), []), s))
    ensures Encodable(Unsigned, WithSig(Unsign(c), []))
    ensures Encode(Unsigned, WithSig(Unsign(c), [])) == Encode(Unsigned, c)
  {
    hide DecodeFields, EncodeMap;
    DecodeEncoded(Unsigned, Signed, c, s);
    assert Entries(Unsigned, WithSig(Unsign(c), [])) == Entries(Unsigned, c);
  }

  /** A commit as it is stored: the signed commit, its bytes and their CID. */
  datatype StoredCommit = StoredCommit(cid: CidBytes, commit: SignedCommit, raw: Bytes)

  /**
   Encodes a commit, has the bytes signed, and encodes the commit with the signature. The signer
   and the hash are foreign: any functions.
   */
  method SignCommitWithSigner(c: UnsignedCommit, signer: (Bytes, Bytes) -> Result<Bytes, Error>, sum: Bytes -> CidBytes)
    returns (r: Result<StoredCommit, Error>)
    ensures r.Ok? ==>
              && Unsign(r.value.commit) == c
              && Encodable(Signed, r.value.commit)
              && r.value.raw == Encode(Signed, r.value.commit)
              && r.value.cid == sum(r.value.raw)
              && signer(c.did, Encode(Unsigned, WithSig(c, []))) == Ok(r.value.commit.sig)
              && DecodeFields(Unsigned, r.value.raw) == Ok(Parsed(WithSig(c, []), []))
    ensures r.Err? <==>
            || !Encodable(Unsigned, WithSig(c, []))
            || signer(c.did, Encode(Unsigned, WithSig(c, []))).Err?
            || |signer(c.did, Encode(Unsigned, WithSig(c, []))).value| > MAX_SIG
  {
    hide DecodeFields, Encode;
    var buf := new CborWriter();
    var _ :- MarshalUnsigned(buf, Some(c));
    assert buf.out == Encode(Unsigned, WithSig(c, []));
    var sig :- signer(c.did, buf.out);
    var commit := WithSig(c, sig);
    var stored := new CborWriter();
    var _ :- MarshalSigned(stored, Some(commit));
    assert stored.out == Encode(Signed, commit);
    StoredCommitGivesSignedBytes(commit, []);
    AppendNone(stored.out);
    return Ok(StoredCommit(sum(stored.out), commit, stored.out));
  }
}
