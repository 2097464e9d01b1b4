# A model of an AT Protocol personal data server

This project models the hard cores of a personal data server written in Go, and proves what they are
for. Verify it with `dafny verify dfyconfig.toml`.

## What is modelled

**The commit codec** (`Cbor`, `Commit`). A stream writer and reader for signed and unsigned commits: CBOR
heads of section 3 of RFC 8949, text and byte strings, CID links under tag 42, and the skipping of an
unknown item of any shape. The methods `Marshal...` and `Unmarshal...` work on a stream step by step and
are held against the functions `Encode` and `DecodeFields`; the laws are about those: round trip with any
suffix, prefix-freedom, independence of entry order and of unknown entries, keys that occur twice, and
what happens to an input that is cut short.

**The value codec** (`GoValues`, `NodeEncoder`, `NodeAssembler`, `NodeRoundTrip`, `NodeNorm`). A Go value of
a structural type is seen as a node tree, and an assembler rebuilds it from a decoder's calls. The laws
hold for the types that `GoValues.Supported` names: field names are distinct, and a byte slice is `TBytes`,
not a list of eight-bit unsigned integers, the two being one type in Go. Types are finite trees; a value of
a recursive type is a value of the finite unrolling it reaches. The codec in between is the identity on trees
up to the order of map entries. It is proved exactly which values survive, what they come back as, and exactly
when that normal form encodes alike and is stable.

**The ring list and the queues** (`RingList`, `Queue`). Heap classes with a ghost sequence of elements; each
method is held against the sequence operation it stands for.

**Concurrent jobs** (`Steps`, `ParallelDo`, `ParallelFirstOf`, `ParallelMap`). The caller, the closing
goroutine, one goroutine for each job, an unbuffered channel, a wait group and a context as a step system;
theorems are about every interleaving. A job may return anything at any time.

**The repository** (`DataDiff`, `Blocks`, `ActorStore`, `ApplyCommit`, `Xiter`, `Visits`). The net-effect
bookkeeping of a diff, the block store with its cache, the three racing jobs of a commit, and the iterator
helpers they use. By
`ParallelDo.ResultOfDo`, a nil result of the three jobs without a cancellation means that all three ran to
their ends, which is where `ApplyCommit.CommitInAnyOrder` speaks of the store.

**Generated code** (`QueryCodec`, `Traverse`). What a generated `toQuery` and `fromQuery` pair does for a
parameter schema, and the worklist over nested schemas.

**Protocols** (`Bus`, `Sequencer`, `Invites`). The channel bus, the event sequencer across crashes and
restarts, and the invite check that races the recording of a use.

## Findings

Each is proved, with the exact condition where there is one.

- `Do` can return nil although jobs failed, whatever the jobs, exactly if the context may be cancelled from
  outside: internal/parallel/parallel.go:62-65 (`ParallelDo.CancelledFailureReturnsNil`,
  `ParallelDo.NilHidesFailure`). In `CreateAccount` that lets an invite be used once too often:
  internal/accountstore/store_create_account.go:101-109 (`Invites.OverusedIffLost`).
- `FirstOf` answers the zero output and a nil error when every job failed: internal/parallel/first.go:60
  (`ParallelFirstOf.ResultOfFirstOf`).
- `Map` over two or more elements, and only then, can leave goroutines blocked for ever after a failure:
  internal/parallel/map.go:42 (`ParallelMap.LeaksFromTwo`).
- A pointer to a byte array is encoded but cannot be decoded: internal/ipldutil/assemblers.go:158-160. A
  struct inside a list cannot be encoded once one of its fields is omitted: internal/ipldutil/node.go:128-133
  (`NodeRoundTrip.RoundTrip`).
- A round trip is not stable for fields tagged omitempty with hollow content: internal/ipldutil/node.go:312-315
  (`NodeNorm.NormLaws`, `NodeNorm.EmptyBytesVanish`).
- Under a repeated key, an empty signature behind one that has bytes is filled from the bytes that follow
  (internal/repo/cbor.go:252-258), and a null for the previous commit behind a link is ignored
  (internal/repo/cbor.go:281-293 and 546-558). After each entry of a map the decoder holds what the last
  entries under their keys say exactly if neither occurs (`Commit.ReadsAsSaidIff`, `Commit.NullPrevIgnored`).
- The sequencer takes any error of its first read for an empty table, and falls behind its rows exactly then:
  internal/sequencer/sequencer.go:65-69 (`Sequencer.CounterCovers`, `Sequencer.MisreadLosesAnEvent`). It
  publishes before it stores, so that a crash, or a publish that fails half way, can show subscribers two
  events under one number, exactly if a restart sets the counter below a number seen:
  internal/sequencer/sequencer.go:79-98
  (`Sequencer.CarefulRunsAreUnique`, `Sequencer.RepeatIffBehind`).
- With two publishers, and not with one, subscribers can see events in different orders:
  pubsub/channels.go:67-77 (`Bus.AgreeIffOnePublisher`). A subscriber whose context ended stays in the bus
  and blocks every publisher, which holds the read lock, until that gives up: pubsub/channels.go:105-137
  (`Bus.StoppedQueueBlocks`, `Bus.FinishesIffClear`).
- The leaves of a diff can come out wrong where several keys hold one CID:
  internal/repo/repo.go:462-487, with the exact condition in `DataDiff.LawInEveryOrderIff`
  (`DataDiff.SharedCidRemoved`).
- The blocks after a commit depend on the schedule exactly if a block is both new and removed:
  internal/actorstore/repo.go:301-314 (`ApplyCommit.OutcomeDependsOnOverlap`).
- The bounds of a required integer parameter are written behind a return and never checked:
  lexgen/generator.go:1747-1789 (`QueryCodec.FieldRoundTrip`).
- Replacing a root that does not exist succeeds and does nothing: internal/actorstore/repo.go:325-333
  (`ActorStore.RepoStore.UpdateRoot`).

## Model

| member | source | states |
|---|---|---|
| Cbor.BigEndianRoundTrip | internal/repo/cbor.go:34 | the argument bytes of a head read back as the number, for every width (section 3 of RFC 8949) |
| Cbor.HeadRoundTrip | internal/repo/cbor.go:43 | a head written for any major type and any 64-bit argument is read back, and exactly its bytes are taken |
| Cbor.StringRoundTrip | internal/repo/cbor.go:219 | a text string within the limit is read back and nothing behind it is touched |
| Cbor.ByteStringRoundTrip | internal/repo/cbor.go:240-258 | a byte string within the limit is read back from its head and bytes |
| Cbor.CidRoundTrip | internal/repo/cbor.go:265-270 | a defined CID is read back from tag 42 and its prefixed byte string |
| Cbor.CidOrNullRoundTrip | internal/repo/cbor.go:278-293 | null and a link are told apart by one byte, and each is read back |
| Cbor.IntRoundTrip | internal/repo/cbor.go:297-321 | every int64, the least included, is read back from its head |
| Cbor.SkipPassesItem | internal/repo/cbor.go:206-212 | skipping takes exactly one well-formed data item of any shape and depth, given as an independent tree |
| Cbor.SkipPassesItems | internal/repo/cbor.go:206-212 | skipping n takes exactly n well-formed items in a row |
| Cbor.SkipSplits | internal/repo/cbor.go:206-212 | skipping m + n items is skipping m and then n |
| Cbor.SkipCut | internal/repo/cbor.go:206-212 | skipping an input that was cut inside the item ends with an end-of-input error |
| Cbor.TypedReadersReadOneItem | internal/repo/cbor.go:199-321 | whatever a field reader accepts is one whole data item, so that reading and skipping a field take the same bytes |
| Cbor.TypedReadersExtend | internal/repo/cbor.go:199-321 | a field reader that succeeds does the same whatever follows its item |
| Cbor.TypedReadersFramed | internal/repo/cbor.go:199-321 | a field reader on a whole item answers as it does with more input behind it |
| Cbor.TypedReadersCut | internal/repo/cbor.go:199-321 | a field reader on an input cut inside its value fails as an input that ends, and cut behind it succeeds |
| Cbor.CborWriter.WriteHead | internal/repo/cbor.go:34-36 | appends the shortest head to the stream |
| Cbor.CborWriter.WriteText | internal/repo/cbor.go:43-48 | appends a text string with its head |
| Cbor.CborWriter.WriteCid | internal/repo/cbor.go:123-125 | appends the link, or fails on an undefined CID and appends nothing |
| Cbor.CborReader.ReadHeader | internal/repo/cbor.go:179-182 | advances by exactly the head it answers |
| Cbor.CborReader.ReadFullStringIntoBuf | internal/repo/cbor.go:199-204 | a name that does not fit the buffer is passed over and reported |
| Cbor.CborReader.UnreadByte | internal/repo/cbor.go:282-285 | steps back over the byte read last |
| Cbor.CborReader.ScanForLinks | internal/repo/cbor.go:206-212 | advances by exactly one data item |
| Commit.DecodeEncoded | internal/repo/cbor.go:21-332 | decoding an encoded commit followed by any bytes gives the commit, with a missing signature read as empty, and takes exactly the encoder's bytes; for both codecs and for reading a signed commit as unsigned |
| Commit.EncodingIsPrefixFree | internal/repo/cbor.go:21-172 | two encodings that begin the same input are equal and of the same commit: the encoding is injective and prefix-free |
| Commit.EncodedKeysSorted | internal/repo/cbor.go:38-169 | keys are written in length-first order (section 4.2.3 of RFC 8949) and the map count is the number of pairs written, with and without a revision |
| Commit.DecodeMapMeaning | internal/repo/cbor.go:199-329 | a map of distinct keys is decoded exactly if its known fields are of their types, and then means what a lookup of each field says; nothing behind the map is taken |
| Commit.MeaningIsSaid | internal/repo/cbor.go:200-329 | with distinct keys, what a lookup of each field says is what the last entry under each key says |
| Commit.DecodeIgnoresOrder | internal/repo/cbor.go:200-329 | maps with the same entries in any order decode to the same commit |
| Commit.DecodeDependsOnKnownFields | internal/repo/cbor.go:200-329 | two maps that hold the same values under the known keys are both refused or decode alike |
| Commit.DecodeIgnoresUnknownEntry | internal/repo/cbor.go:206-212 | an entry under an unknown key, shorter or longer than the name buffer, may stand anywhere in the map and changes nothing |
| Commit.DecodeCutShort | internal/repo/cbor.go:183-187 | every proper prefix of a commit is refused as an input that ends, with EOF itself only for the empty one |
| Commit.BufferMatters | internal/repo/cbor.go:240-258 | what was read before matters to a field exactly when it is a signature that announces no bytes and the old one has some |
| Commit.DecodeEntryFramed | internal/repo/cbor.go:200-329 | an entry is read on its own, whatever follows it, unless it is an empty signature behind one that is not |
| Commit.DecodeEmptySig | internal/repo/cbor.go:252-258 | that one takes as many of the bytes behind it as the old signature has, or the input ends |
| Commit.DecodeMapSays | internal/repo/cbor.go:200-329 | a map whose keys may repeat, in which no empty signature follows one that is not, is accepted exactly if its known fields are of their types; it gives what the last entry under each key says, but the last link as the previous commit, and so just what the map says exactly if the last previous commit is not a null behind a link |
| Commit.ReadsAsSaidIff | internal/repo/cbor.go:200-329 | after each entry the decoder holds what the last entries under their keys say so far, and has taken just these, exactly if no empty signature follows one that is not and no null for the previous commit follows a link; for both codecs |
| Commit.StoredIsSaid | internal/repo/cbor.go:200-329 | the fields stored one after the other are those the last entries say, but that a null leaves the last link |
| Commit.NullPrevIgnored | internal/repo/cbor.go:281-293 | a link and then a null for the previous commit: the null says that there is none, the decoder keeps the link, in both codecs |
| Commit.DecodeThroughRefill | internal/repo/cbor.go:252-258 | what happens where that is not so, with any bytes behind: they fill the signature and decoding goes on behind them |
| Commit.EmptiedSigIsMisread | internal/repo/cbor.go:252-258 | a map that says the signature is empty decodes to what it says exactly if no signature in it had bytes and its last previous commit is not a null behind a link |
| Commit.SigStays | internal/repo/cbor.go:252-258 | on any input, a signature with bytes is never emptied again |
| Commit.MisreadCanGoUnseen | internal/repo/cbor.go:252-258 | why the statement is made after each entry: a misread map can still end with the commit it says |
| Commit.StoredCommitGivesSignedBytes | internal/repo/ops.go:451-479 | reading the stored bytes of a signed commit as an unsigned one gives the commit that was signed, and encoding that again gives the bytes that were signed |
| Commit.MarshalSigned | internal/repo/cbor.go:21-172 | the stream gets the encoding, or the method fails exactly on what cannot be encoded; nil is written as null |
| Commit.MarshalUnsigned | internal/repo/cbor.go:333-460 | the same for the codec without a signature |
| Commit.UnmarshalSigned | internal/repo/cbor.go:174-332 | the loop over the entries computes the decoding function and leaves the stream behind the last byte read |
| Commit.UnmarshalUnsigned | internal/repo/cbor.go:462-597 | the same for the codec without a signature |
| Commit.UnmarshalSignedEntry | internal/repo/cbor.go:200-329 | one turn of the loop reads or skips one entry and sets one field |
| Commit.UnmarshalUnsignedEntry | internal/repo/cbor.go:488-593 | the same for the codec without a signature |
| Commit.WriteVersion | internal/repo/cbor.go:161-169 | negation and subtraction in int64 wrap around so that the least version, too, is written as itself |
| Commit.ReadVersion | internal/repo/cbor.go:297-321 | an argument that does not fit an int64 is refused, for both signs |
| Commit.ReadPrev | internal/repo/cbor.go:278-295 | the peeked byte is given back before the link is read |
| Commit.ReadSig | internal/repo/cbor.go:238-258 | reads the signature into a slice of its own, or an empty one into the slice that was there |
| Commit.SignCommitWithSigner | internal/repo/ops.go:451-479 | the signer sees the encoding of the unsigned commit, and the signed commit carries the same fields, the signature and its own encoding; each failure is passed on |
| GoValues.TruncateInRange | internal/ipldutil/assemblers.go:88-118 | converting a value that is in range to its sized integer type changes nothing |
| GoValues.SplitJoin | internal/ipldutil/assemblers.go:376-377 | splitting a tag at its commas loses nothing and leaves no comma in a part |
| GoValues.ParseTag | internal/ipldutil/assemblers.go:376-386 | the name is the first part of the tag, and omitempty is set exactly if a later part says so |
| NodeEncoder.BuildPairs | internal/ipldutil/node.go:270-329 | the loop appends one pair for each field that is not omitted, in order, with nil pointers as null |
| NodeEncoder.Pairs | internal/ipldutil/node.go:270-329 | the specification of `buildPairs`: at most one pair a field, each typed and smaller than the struct |
| NodeAssembler.Build | internal/ipldutil/assemblers.go:334-369 | the table of fields holds for each name the last field of that name |
| NodeAssembler.CopyBytes | internal/ipldutil/assemblers.go:158-160 | the array gets the bytes in front and keeps the rest |
| NodeAssembler.SimpleValueAssembler.PtrGuard | internal/ipldutil/assemblers.go:27-36 | a nil pointer is made to point to a zero value; the target is answered |
| NodeAssembler.SimpleValueAssembler.AssignBool | internal/ipldutil/assemblers.go:76-86 | sets a bool or a pointer to one, and fails on every other type |
| NodeAssembler.SimpleValueAssembler.AssignInt | internal/ipldutil/assemblers.go:88-118 | sets the converted integer, through a pointer too |
| NodeAssembler.SimpleValueAssembler.AssignFloat | internal/ipldutil/assemblers.go:120-131 | sets a float, through a pointer too |
| NodeAssembler.SimpleValueAssembler.AssignString | internal/ipldutil/assemblers.go:133-146 | sets a string or a pointer to one |
| NodeAssembler.SimpleValueAssembler.AssignBytes | internal/ipldutil/assemblers.go:148-171 | sets a slice, fills the front of an array, and fails on too many bytes and on a pointer to an array |
| NodeAssembler.SimpleValueAssembler.AssignLink | internal/ipldutil/assemblers.go:173-208 | sets a CID, through a pointer too, and fails on an undefined one |
| NodeAssembler.SimpleValueAssembler.AssignNull | internal/ipldutil/assemblers.go:71-74 | sets the zero value of the type |
| NodeAssembler.SimpleValueAssembler.AssignList | internal/ipldutil/assemblers.go:440-469 | one fresh zero for each item, assembled and set into a new slice in order |
| NodeAssembler.SimpleValueAssembler.AssignMap | internal/ipldutil/assemblers.go:38-61 | assembles the entries into the fields of the struct |
| NodeAssembler.AssembleEntries | internal/ipldutil/assemblers.go:400-405 | each entry is assembled into the field of its name, on top of what is there; an unknown name fails |
| NodeAssembler.SimpleValueAssembler.AssignNode | internal/ipldutil/assemblers.go:210-300 | the calls for one tree leave the destination as the specification `Assign` says, or fail exactly when it does |
| NodeRoundTrip.RoundTrip | internal/ipldutil/assemblers.go:38-208 | for every supported type and every value of it: encoding and decoding into a fresh zero succeeds exactly for the codable values, and then gives the value back normalised, whatever order the codec keeps map entries in |
| NodeRoundTrip.WalkSucceeds | internal/ipldutil/node.go:35-133 | a codec can walk a node exactly if no pointer stands inside a list or behind a pointer, and no struct inside a list has an omitted field, whose length and entries would disagree |
| NodeRoundTrip.Decoded | internal/ipldutil/assemblers.go:88-208 | decoding what was walked fails exactly for undefined CIDs, pointers to lists and pointers to byte arrays, and otherwise gives the normalised value |
| NodeRoundTrip.TruncateTwice | internal/ipldutil/node.go:145-163 | an unsigned value of any size survives its passage through int64 |
| NodeRoundTrip.LeafDecoded | internal/ipldutil/assemblers.go:76-208 | the same for every type that is neither a list nor a struct |
| NodeRoundTrip.ThroughPointer | internal/ipldutil/assemblers.go:27-36 | assembling through a nil pointer is assembling a fresh zero, but for lists and byte arrays |
| NodeRoundTrip.EntriesLand | internal/ipldutil/assemblers.go:400-405 | entries of distinct names land in their own fields in whatever order they come |
| NodeRoundTrip.FieldHasPair | internal/ipldutil/node.go:270-329 | every field that is not omitted has its pair |
| NodeRoundTrip.PairHasField | internal/ipldutil/node.go:270-329 | every pair is that of a field that is not omitted |
| NodeRoundTrip.PairsCount | internal/ipldutil/node.go:128-133 | a struct has as many pairs as fields exactly if no field is omitted |
| NodeRoundTrip.WalkedInOrder | internal/ipldutil/node.go:244-257 | the order in which pairs are given is itself one of the orders the round trip allows |
| NodeNorm.NormLaws | internal/ipldutil/node.go:312-315 | normalising keeps the encoding exactly if no field tagged omitempty is shown with hollow content, and is idempotent exactly if no such pointer is; without omitempty both always hold |
| NodeNorm.NormEncodes | internal/ipldutil/node.go:270-329 | the same for any node: the walk of the normalised value is the walk of the value exactly for steady values |
| NodeNorm.NormTwice | internal/ipldutil/node.go:312-315 | a second normalisation changes nothing exactly for settled values |
| NodeNorm.HollowIsZero | internal/ipldutil/node.go:57-65 | the values that look non-zero to the encoder but decode to zero are those that hold only zeros and empty bytes |
| NodeNorm.NothingVanishes | internal/ipldutil/node.go:312-315 | without omitempty every value is steady and settled |
| NodeNorm.EmptyBytesVanish | internal/ipldutil/node.go:57-65 | an empty byte slice tagged omitempty is written as null, read as nil, and then left out |
| RingList.List.Init | queue/list.go:39-44 | closes the ring of an empty list |
| RingList.List.LazyInit | queue/list.go:65-69 | closes the ring of a zero list and changes nothing else |
| RingList.List.InsertElement | queue/list.go:71-79 | makes the element the one at its position behind the mark, counts it and owns it |
| RingList.List.InsertValue | queue/list.go:81-83 | the same with a new element that holds the value |
| RingList.List.RemoveElement | queue/list.go:85-92 | takes the element out, clears its links and owner, and counts it off |
| RingList.List.MoveElement | queue/list.go:94-108 | the element is behind the mark and the others keep their order; behind itself nothing changes |
| RingList.List.Remove | queue/list.go:110-118 | removes an element of this list and answers its value; an element of another list changes nothing |
| RingList.List.PushFront | queue/list.go:120-124 | the value is in front of the old sequence, in a list used for the first time too |
| RingList.List.PushBack | queue/list.go:126-130 | the value is behind the old sequence |
| RingList.List.InsertBefore | queue/list.go:134-141 | inserts before the mark, or answers nil and changes nothing |
| RingList.List.InsertAfter | queue/list.go:145-152 | inserts behind the mark, or answers nil and changes nothing |
| RingList.List.MoveToFront | queue/list.go:156-163 | the element is first; one of another list changes nothing |
| RingList.List.MoveToBack | queue/list.go:167-174 | the element is last; one of another list changes nothing |
| RingList.List.MoveBefore | queue/list.go:178-184 | the element is before the mark; nothing changes unless both are in this list and differ |
| RingList.List.MoveAfter | queue/list.go:188-194 | the element is behind the mark; nothing changes unless both are in this list and differ |
| RingList.List.PushBackList | queue/list.go:197-203 | the other list's values are appended in order and it is unchanged, and a list appended to itself is doubled |
| RingList.List.PushFrontList | queue/list.go:206-211 | the other list's values are put in front in order, also those of the list itself |
| RingList.List.Iter | queue/list.go:213-221 | visits the values from the back to the front until one is refused |
| RingList.List.RevIter | queue/list.go:223-230 | visits the values from the front to the back until one is refused |
| RingList.List.Walk | queue/list.go:20-32 | `Next` and `Prev` walk the sequence and end at nil instead of the sentinel; `Front` and `Back` are its ends |
| RingList.List.Neighbours | queue/list.go:5-18 | the next and prev of every element and of the sentinel are its neighbours in the ring |
| RingList.Separate | queue/list.go:5-18 | two valid lists share no element and no sentinel |
| RingList.MoveToNeighbour | queue/list.go:94-108 | moving an element next to the neighbour it already has changes nothing |
| RingList.MovedByPosition | queue/list.go:94-108 | the sequence after a move, by positions |
| Queue.Stack.Push | queue/queue.go:25-29 | the value is on top |
| Queue.Stack.Pop | queue/queue.go:31-40 | takes the value pushed last, or reports an empty stack |
| Queue.Stack.Iter | queue/queue.go:42-50 | visits the values from newest to oldest until one is refused |
| Queue.ListQueue.Push | queue/queue.go:59 | the value is at the front of the list |
| Queue.ListQueue.PushBack | queue/queue.go:60 | the value is at the back of the list |
| Queue.ListQueue.Pop | queue/queue.go:63-69 | takes the value at the front, or reports an empty queue |
| Queue.ListQueue.PopBack | queue/queue.go:70 | takes the value at the back |
| ParallelDo.EveryRun | internal/parallel/parallel.go:45-79 | in every interleaving nothing is sent on the closed channel, a run is at most 17n + 7 steps long, and one that can go no further has returned and left no goroutine behind, also after an early return |
| ParallelDo.ResultOfDo | internal/parallel/parallel.go:68-78 | without a cancellation from outside, nil is returned exactly if every job ran and returned nil, and an error returned is some job's |
| ParallelDo.NilResultOfDo | internal/parallel/parallel.go:62-65 | behind a nil result every job has ended, and one that failed had its error dropped by a cancellation from outside |
| ParallelDo.CancelledFailureReturnsNil | internal/parallel/parallel.go:62-65 | for any list of jobs and any results of theirs there is a run, cancelled from outside, in which every job returns its result and `Do` returns nil |
| ParallelDo.NilHidesFailure | internal/parallel/parallel.go:62-65 | a nil result can hide a failed job exactly if there is a job and the context may be cancelled from outside |
| ParallelDo.StepKeepsInv | internal/parallel/parallel.go:45-79 | every step keeps the wait group count, the flags and what stands behind each result |
| ParallelDo.Progress | internal/parallel/parallel.go:45-79 | until all has ended some goroutine can step |
| ParallelDo.StepLowersRank | internal/parallel/parallel.go:45-79 | every step, the cancellation from outside included, lowers the rank |
| ParallelFirstOf.EveryRun | internal/parallel/first.go:19-70 | the same safety and termination for `FirstOf`, with at most 5n + 6 steps |
| ParallelFirstOf.ResultOfFirstOf | internal/parallel/first.go:49-69 | without a cancellation from outside the error is nil; if some job succeeded, the output is that of the last payload received and those before it were errors; otherwise every job failed and the zero output is returned, the closed channel being read as a success |
| ParallelFirstOf.ErrorOfFirstOf | internal/parallel/first.go:51-57 | an error is returned only after a cancellation from outside: the first one received, or the context's |
| ParallelFirstOf.StepKeepsInv | internal/parallel/first.go:19-70 | every step keeps the count, the history of receipts and what stands behind each result |
| ParallelFirstOf.Progress | internal/parallel/first.go:19-70 | until all has ended some goroutine can step |
| ParallelFirstOf.StepLowersRank | internal/parallel/first.go:19-70 | every step lowers the rank |
| ParallelMap.EveryRun | internal/parallel/map.go:19-63 | nothing is sent on the closed channel, a run is at most 6n + 6 steps long, and one that can go no further has returned; what can be left are exactly goroutines in the send without a select |
| ParallelMap.ResultOfMap | internal/parallel/map.go:37-62 | without a cancellation from outside, nil is returned exactly if every job succeeded, and slot i then holds the output of job i; an error returned is some job's |
| ParallelMap.NilResultOfMap | internal/parallel/map.go:44-53 | behind a nil result a slot holds its job's output, or zero for an error dropped by a cancellation from outside |
| ParallelMap.LeakedForEver | internal/parallel/map.go:41-42 | a goroutine that waits to send the context's error once the caller is done is never freed |
| ParallelMap.LateStartLeaks | internal/parallel/map.go:40-42 | a goroutine that first looks at the context after the return is such a one |
| ParallelMap.FailureLeaks | internal/parallel/map.go:40-42 | for every n of at least 2 and every error: one failing job leaves a goroutine blocked, with nobody cancelling from outside |
| ParallelMap.LeaksFromTwo | internal/parallel/map.go:40-42 | `Map` over n elements can leave a goroutine blocked exactly if n is at least 2, already without a cancellation from outside |
| ParallelMap.OneNeverLeaks | internal/parallel/map.go:40-42 | with at most one element nothing is left, cancelled or not |
| ParallelMap.NilNeverLeaks | internal/parallel/map.go:37-62 | behind a nil result nothing is left, whatever the number of elements |
| ParallelMap.StepKeepsInv | internal/parallel/map.go:19-63 | every step keeps the count, each slot and what stands behind each result |
| ParallelMap.Progress | internal/parallel/map.go:19-63 | unless only leaked goroutines are left some goroutine can step |
| ParallelMap.StepLowersRank | internal/parallel/map.go:19-63 | every step lowers the rank |
| DataDiff.DataDiff.LeafAdd | internal/repo/repo.go:462-469 | the whole new state of the diff after an added leaf |
| DataDiff.DataDiff.LeafUpdate | internal/repo/repo.go:471-478 | the same after a changed leaf; an equal CID changes nothing |
| DataDiff.DataDiff.LeafDelete | internal/repo/repo.go:480-487 | the same after a deleted leaf |
| DataDiff.DataDiff.TreeAdd | internal/repo/repo.go:489-495 | the same after an added block |
| DataDiff.DataDiff.TreeDelete | internal/repo/repo.go:497-503 | the same after a deleted block |
| DataDiff.LeavesInAnyOrder | internal/repo/repo.go:462-487 | for any two maps and any order of their differences: the removed CIDs are old ones and the new leaves new ones, the tables list exactly the keys added, deleted and changed, and the old CIDs without the removed and with the new are the new CIDs if every CID meets the condition of the next row |
| DataDiff.LawInEveryOrderIff | internal/repo/repo.go:462-487 | that law holds in every order of the differences exactly if, for each CID, the keys that lose it, gain it and keep it are as counted: no key keeps what others only lose, and where keys gain what others lose it is one key, or none by deletion and either some key changes to it or no more lose it than it is added under |
| DataDiff.BreakingOrder | internal/repo/repo.go:462-487 | where a CID fails the condition, some order leaves it removed although a key holds it |
| DataDiff.InjectiveAnyOrder | internal/repo/repo.go:462-487 | maps in which no two keys hold one CID meet the condition |
| DataDiff.SharedCidRemoved | internal/repo/repo.go:480-487 | two keys that hold one CID, one of them deleted: the CID is removed |
| DataDiff.ChangesKeepInv | internal/repo/repo.go:462-487 | after any part of the changes, in any order, what the two sets hold of each CID fits the counts of the keys seen, and the tables list the keys seen |
| DataDiff.SwapOverlaps | internal/repo/repo.go:471-478 | two keys that swap their CIDs leave both CIDs in both sets |
| DataDiff.TreeDiff | internal/repo/repo.go:489-503 | for operations that add absent blocks and delete present ones, the start without the removed and with the new is the store step by step, and the diff is minimal |
| DataDiff.TreeDiffBlocks | internal/repo/repo.go:489-503 | the same with the bytes of the blocks, a CID determining them |
| DataDiff.InterleavedJoins | internal/repo/repo.go:462-503 | however operations on leaves and on the tree are interleaved, their CIDs being different, the diff is that of each kind on its own |
| DataDiff.LeavesAndTree | internal/repo/repo.go:462-503 | both laws in one diff: any order of the changes of the leaves, and any interleaving with the operations on the tree |
| Xiter.Chunk | internal/xiter/xiter.go:104-132 | hands over the slices of the input one by one, up to and with the first that is refused |
| Xiter.ChunksPartition | internal/xiter/xiter.go:99-102 | the slices put together are the input, all but the last are of size n, and none is empty |
| Xiter.MergeFunc | internal/xiter/xiter.go:155-178 | the loop that pulls from the second iterator hands over the merge value by value, up to and with the first that is refused |
| Xiter.MergeKeepsAll | internal/xiter/xiter.go:147-154 | every value appears as often as in both inputs together, ordered or not |
| Xiter.MergeSorts | internal/xiter/xiter.go:147-154 | ordered inputs give an ordered output |
| Xiter.MergeIsStable | internal/xiter/xiter.go:150-151 | of equal values those of the first input come first |
| Blocks.BlockMap.Set | internal/repo/block_map.go:50-54 | adds or replaces one block |
| Blocks.BlockMap.Delete | internal/repo/block_map.go:65-69 | removes one block |
| Blocks.BlockMap.GetMany | internal/repo/block_map.go:72-87 | the blocks found, and the CIDs not found in the order asked for |
| ActorStore.RepoStore.GetBytes | internal/actorstore/repo.go:99-118 | answers as a read of the table would, with the bytes the CID determines, and the cache still agrees with it |
| ActorStore.RepoStore.Has | internal/actorstore/repo.go:120-126 | says whether there is a row |
| ActorStore.RepoStore.GetBlocks | internal/actorstore/repo.go:128-172 | splits the request into the blocks that have a row and the CIDs that have none, whatever was cached |
| Blocks.NotInMember | internal/actorstore/repo.go:165-170 | the missing CIDs are exactly those asked for that are not held |
| ActorStore.NotInEither | internal/actorstore/repo.go:134-141 | what is neither cached nor stored is what is not stored |
| ActorStore.RepoStore.CacheRev | internal/actorstore/repo.go:211-233 | caches at most 15 blocks of the revision, all if there are fewer, and the cache agrees with the table |
| ActorStore.RepoStore.PutBlock | internal/actorstore/repo.go:235-246 | a row that is there stays; the store stays right exactly if the block is the one its CID determines, and the cache agrees with the table exactly if it is the row's |
| ActorStore.RepoStore.PutMany | internal/actorstore/repo.go:248-276 | inserts all blocks in batches, or fails exactly if one of them has a row; the cache agrees with the table in either case, and the store stays right if the blocks are those their CIDs determine |
| ActorStore.RepoStore.InsertBatch | internal/actorstore/repo.go:257-269 | one batch is inserted after the batches before it |
| ActorStore.RepoStore.DeleteMany | internal/actorstore/repo.go:279-299 | the rows and the cached blocks are gone and the cache agrees with the table |
| ActorStore.RepoStore.UpdateRoot | internal/actorstore/repo.go:316-336 | inserts the first root or replaces the one there; a second first root fails, and replacing a missing root does nothing |
| ApplyCommit.CommitInAnyOrder | internal/actorstore/repo.go:301-314 | for a commit that fits the store, in every interleaving of the three jobs and with any batches: no statement fails, and at the end the blocks are the old ones without the removed and with the new, the root is the commit's, and the cache still agrees |
| ApplyCommit.ReachableInv | internal/actorstore/repo.go:301-314 | in between, the store is what the statements done so far make of the old one, whatever their order |
| ApplyCommit.FailsIfClash | internal/actorstore/repo.go:301-314 | no statement can fail, in any interleaving, exactly if no new block has a row and no root is created beside one that is there |
| ApplyCommit.OutcomeDependsOnOverlap | internal/actorstore/repo.go:307-312 | the blocks do not depend on the schedule exactly if no block is both new and removed |
| ApplyCommit.InsertsOfSplit | internal/actorstore/repo.go:249-269 | the insert statements of any batches are disjoint and insert every new block |
| QueryCodec.IntRoundTrip | lexgen/generator.go:1873-1880 | every int64, the least included, survives decimal printing and parsing |
| QueryCodec.BoolRoundTrip | lexgen/generator.go:1881-1888 | a boolean survives printing and parsing |
| QueryCodec.ToQuery | lexgen/generator.go:1844-1927 | the generated `toQuery` on any query: each field replaces the values under its key, leaves them when it is not set, or, an array, adds to them; every other key is left |
| QueryCodec.FromQuery | lexgen/generator.go:1681-1842 | the generated `fromQuery` answers the fields, or the first error in the order of the keys |
| QueryCodec.FieldRoundTrip | lexgen/generator.go:1681-1927 | a field comes back exactly if it is representable: no empty or over-long string, no optional integer out of bounds, no empty required array, and where the query held values under its key, no array, and no unset field over a first value that is not empty; the bounds of a required integer are dead code |
| QueryCodec.QueryRoundTrip | lexgen/generator.go:1681-1927 | all fields come back exactly if each is representable beside what the query held under its key, whatever other keys it holds |
| QueryCodec.RoundTrip | lexgen/generator.go:1681-1927 | the generated pair on an empty query |
| Traverse.Document.TraverseAll | lexgen/generator.go:289-365 | on tree-shaped definitions the worklist ends; every schema is yielded at most once, with an error exactly if it is not in order, and all it queued is yielded with its parent, name and IDs set; types are to be generated for exactly the schemas that a yielded one makes need them; if all are in order every nested schema is yielded exactly once |
| Traverse.Visit | lexgen/generator.go:300-362 | one round names the schema, marks and pushes what is nested in it up to the first error, marks for generation exactly what it should, and touches no other |
| Traverse.Enqueue | lexgen/generator.go:308-352 | the nested schemas are marked and pushed in order |
| Traverse.RoundKeepsInv | lexgen/generator.go:299-363 | a round keeps the stack a forest apart from what was yielded, keeps every link made before, and makes the schemas left fewer |
| Traverse.NestedYielded | lexgen/generator.go:308-352 | where all is in order, whatever is nested in a yielded schema is yielded |
| Traverse.Document.PushDefs | lexgen/generator.go:290-296 | the definitions are named by their keys and pushed in order |
| Bus.EverySubscriberReceives | pubsub/channels.go:105-137 | in every run, with any number of publishers, the events received and at most one in flight are exactly the events accepted, in order |
| Bus.SubscribersAgree | pubsub/channels.go:67-77 | with one publisher that never gave up, two subscribers accept the same events in the same order from the later join on, the earlier one being ahead by at most one |
| Bus.StepKeepsOrder | pubsub/channels.go:37-77 | every step keeps each queue in step with the events begun since it was joined |
| Bus.PublishersOvertake | pubsub/channels.go:67-77 | from any state with two idle publishers, two subscribers whose queues are free can accept the next two events in opposite orders, though nothing fails |
| Bus.AgreeIffOnePublisher | pubsub/channels.go:67-77 | subscribers agree on the order in every run without a failure exactly if there is at most one publisher |
| Bus.StoppedQueueBlocks | pubsub/channels.go:67-77 | behind a queue whose goroutine stopped, whatever the others do, a publisher keeps its event and the read lock until it gives up, the queue accepts nothing, and nobody can subscribe |
| Bus.FinishesIffClear | pubsub/channels.go:67-77 | in every run, an event on its way can be published to its end exactly if none of the queues it has still to reach has stopped |
| Sequencer.EveryRun | internal/sequencer/sequencer.go:51-138 | over any calls, failures, crashes and restarts every stored event was first published under its number; as long as no restart misread a table with rows, the counter is never below the largest stored number and no insert finds its number taken |
| Sequencer.RowsStay | internal/sequencer/sequencer.go:118-138 | a stored row is never changed or lost |
| Sequencer.CounterCovers | internal/sequencer/sequencer.go:65-69 | over every run: the counter is never below a stored number exactly if no restart misread a table with rows |
| Sequencer.CarefulRunsAreUnique | internal/sequencer/sequencer.go:79-98 | in every run whose restarts set the counter no lower than any number a subscriber may have seen, also from a publish that failed half way, no number is seen for two events |
| Sequencer.StepKeepsUnique | internal/sequencer/sequencer.go:79-138 | every such step, a publish that fails half way included, keeps the numbers seen unique and behind the counter, and the numbers of the calls under way new |
| Sequencer.WithoutRestartsUnique | internal/sequencer/sequencer.go:79-98 | in particular in every run without a restart |
| Sequencer.RestartRepeatsANumber | internal/sequencer/sequencer.go:65-98 | a restart that sets the counter below a published number, whether or not its read works, lets any event go out under that number again |
| Sequencer.RepeatIffBehind | internal/sequencer/sequencer.go:65-98 | after such a run, a restart lets numbers be repeated exactly if it sets the counter below one of them |
| Sequencer.MisreadLosesAnEvent | internal/sequencer/sequencer.go:65-69 | in any run, with any row in the table, a restart that cannot read it lets any event go out under the number of that row; its insert fails and the rows stay |
| Sequencer.CrashRepeatsANumber | internal/sequencer/sequencer.go:79-98 | a repetition though every read worked: a crash between publishing and storing, and the next event |
| Sequencer.Next | internal/sequencer/sequencer.go:152-168 | the row with the least number after the cursor, or none |
| Sequencer.Follow | internal/sequencer/sequencer.go:152-168 | following `next` lists the rows after a cursor once, in increasing order |
| Invites.WhoPasses | internal/accountstore/store_create_account.go:85-94 | a new account with an enabled invite of k uses passes with k - 2 or fewer used, passes with k - 1 exactly if the count comes before the recording, and never with k |
| Invites.NeverOverused | internal/accountstore/store_create_account.go:66-112 | over any sequence of attempts without a lost failure no invite is used more often than it may be |
| Invites.AttemptKeepsLimit | internal/accountstore/store_create_account.go:155-186 | one attempt, by a new or an old account, in any order of the two jobs, keeps every invite within its limit |
| Invites.OverusedIffLost | internal/accountstore/store_create_account.go:101-109 | an attempt leaves an invite overused exactly if it records one use too many and the failure of its check is lost |
| Invites.NilMeansBoth | internal/accountstore/store_create_account.go:66-112 | the two jobs among any others of the transaction as a run of `Do`: if nobody cancels, nil is returned exactly if all succeeded, so that no failure is lost |
| Invites.NilAfterCancellation | internal/accountstore/store_create_account.go:101-109 | if somebody may cancel, nil can be returned for any outcome of the two jobs and the others, so that a failure can be lost |
| Invites.EmptyCodeIsNeverRecorded | internal/accountstore/invites.go:99-114 | an invite whose code is empty is never used up |

## Left out

What is foreign to the repository is read from its standard or its documentation:

- CBOR helpers: the library's head, string, CID and skip routines are not part of this model; they follow section 3 of RFC 8949 with heads of any length accepted on input, tag 42 for CIDs, and the library's limits of 8192 map entries and 512 bytes for a CID. A CID is an opaque non-empty byte string, and text is not checked to be UTF-8.
- The reader under a commit decoder can be peeked, so that reading from it and from its wrapper is the same.
- Error texts, and what a partly filled commit holds after an error.
- Signing and hashing: a signer is any function, and the CID of a signed commit is not computed.
- SQL: a table is a map by its primary key. The multi-row insert, whose text has no commas between its rows, is read as one insert of all its rows. Failures of a statement other than on its key are left to the transaction.
- `reflect`: a panic is a failure like any other. A value is handed to the encoder by pointer; a byte array inside a struct that is not addressable makes it panic.
- The value codec's maps, `any`, structs with two fields of one name, named string types, `syntax.CID` text, arrays of anything but bytes, and lists of integers assembled into bytes. `AssignNode` of null into a pointer.
- Floats are real numbers: infinities, not-a-number, negative zero and rounding are not modelled; the codec refuses the first two.
- `Init` or `Reset` of a list while its elements are still held: their owner pointers stay set. The list methods take the handles a list gave out, which name a list as their owner only while they are in it.
- The time a job takes; a timeout is a cancellation from outside. A job that never returns is not modelled.
- `Close` of the bus and of its subscribers, whose stored indices go stale.
- The counter of the sequencer is unbounded, and an event's time and DID are not kept.
- `earliestAfterTime`, which orders by time.
- Query parameters with formats, required booleans, and integer and boolean arrays; strings are compared and measured by their characters, which stand for bytes.
- The text the generator emits: `QueryCodec` is the meaning of the emitted code, not its printing. A message without a schema, which makes `traverse` panic.
- `traverse` stopped early by its consumer, and a document in which one schema is nested twice. What `traverse` writes into a schema is kept in a map by schema number, not in the schema: aliasing is not captured.
- `RecordInviteUse` on its own, which checks nothing, and the public check beside it.
- The Merkle search tree, `ApplyWrites`, the commit formatters, HTTP, DNS, websockets, blobs, tokens and passwords.
