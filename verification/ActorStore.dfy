/**
 The block store of an account: the `repo_block` and `repo_root` tables as maps, and the cache that
 must agree with them. Reads, puts and deletes one by one; `ApplyCommit` runs three jobs at once and is
 a step system.
 */
module ActorStore {
  import opened Blocks
  import opened Collections
  import opened Visits
  import opened Wrappers
  import opened Xiter

  datatype Row = Row(rev: string, content: Block)
  datatype Root = Root(cid: Cid, rev: string)

  /** The rows an insert of `blocks` adds. */
  function Rows(blocks: map<Cid, Block>, rev: string): map<Cid, Row> {
    map c | c in blocks :: Row(rev, blocks[c])
  }

  /** Every cached block is the table's. */
  predicate Agrees(cache: map<Cid, Block>, table: map<Cid, Row>) {
    forall c :: c in cache ==> c in table && table[c].content == cache[c]
  }

  predicate Addressed(content: Cid -> Block, table: map<Cid, Row>) {
    forall c :: c in table ==> table[c].content == content(c)
  }

  predicate IsContent(content: Cid -> Block, blocks: map<Cid, Block>) {
    forall c :: c in blocks ==> blocks[c] == content(c)
  }

  /** The blocks of those of `cids` that have a row. */
  function BlocksOf(table: map<Cid, Row>, cids: set<Cid>): map<Cid, Block> {
    map c | c in cids && c in table :: table[c].content
  }

  function OfRev(table: map<Cid, Row>, rev: string): set<Cid> {
    set c | c in table && table[c].rev == rev
  }

  /** A `LIMIT` without an order: some of the rows. */
  method Limit(all: set<Cid>, n: nat) returns (some: set<Cid>)
    ensures some <= all && |some| <= n && (|some| < n ==> some == all)
  {
    some := {};
    var left := all;
    while left != {} && |some| < n
      invariant some + left == all && some !! left && |some| <= n
      decreases |left|
    {
      var c := Pick(left);
      left, some := left - {c}, some + {c};
    }
  }

  const CACHE_REV_LIMIT := 15
  const BATCH := 50

  /** What is neither cached nor in the table is what is not in the table. */
  lemma {:induction false} NotInEither(cids: seq<Cid>, cache: map<Cid, Block>, table: map<Cid, Row>)
    requires Agrees(cache, table)
    ensures NotIn(NotIn(cids, cache), table) == NotIn(cids, table)
  {
    if cids != [] {
      var before, c := cids[..|cids| - 1], cids[|cids| - 1];
      NotInEither(before, cache, table);
      if c in cache {
        assert NotIn(cids, cache) == NotIn(before, cache);
        assert NotIn(cids, table) == NotIn(before, table);
      } else {
        assert NotIn(cids, cache)[..|NotIn(before, cache)|] == NotIn(before, cache);
      }
    }
  }

  /** The rows `done` have been read, into `found` and into the cache. */
  ghost predicate Scanned(table: map<Cid, Row>, before: map<Cid, Block>, done: set<Cid>, found: map<Cid, Block>, cache: map<Cid, Block>) {
    found == BlocksOf(table, done) && cache == before + found
  }

  lemma ScanOne(table: map<Cid, Row>, before: map<Cid, Block>, done: set<Cid>, found: map<Cid, Block>, cache: map<Cid, Block>, c: Cid)
    requires Scanned(table, before, done, found, cache) && c in table
    ensures Scanned(table, before, done + {c}, found[c := table[c].content], cache[c := table[c].content])
  {
  }

  lemma {:induction false} UncachedAre(cids: seq<Cid>, cache: map<Cid, Block>, uncached: seq<Cid>)
    requires uncached == NotIn(cids, cache)
    ensures forall c :: c in uncached <==> c in cids && c !in cache
  {
    forall c
      ensures c in uncached <==> c in cids && c !in cache
    {
      NotInMember(cids, cache, c);
    }
  }

  /** The blocks cached and the blocks read are together those of the request. */
  lemma FoundAre(cids: seq<Cid>, cache: map<Cid, Block>, table: map<Cid, Row>,
                 cached: map<Cid, Block>, uncached: seq<Cid>, found: map<Cid, Block>)
    requires Agrees(cache, table)
    requires cached == map c | c in cids && c in cache :: cache[c]
    requires forall c :: c in uncached <==> c in cids && c !in cache
    requires found == BlocksOf(table, Elems(uncached))
    ensures cached + found == BlocksOf(table, Elems(cids))
  {
  }

  /** Reading only the CIDs that have a row misses nothing. */
  lemma {:induction false} StoredOf(table: map<Cid, Row>, cids: seq<Cid>)
    ensures var stored := set c | c in cids && c in table;
            BlocksOf(table, stored) == BlocksOf(table, Elems(cids)) && BlocksOf(table, stored).Keys == stored
    ensures cids == [] ==> BlocksOf(table, Elems(cids)) == map[] && NotIn(cids, table) == []
  {
  }

  /** The loop that reports what the query did not return. */
  method NotFound(uncached: seq<Cid>, found: map<Cid, Block>, ghost table: map<Cid, Row>) returns (missing: seq<Cid>)
    requires found.Keys == set c | c in uncached && c in table
    ensures missing == NotIn(uncached, table)
  {
    missing := [];
    for i := 0 to |uncached|
      invariant missing == NotIn(uncached[..i], table)
    {
      var c := uncached[i];
      assert uncached[..i + 1][..i] == uncached[..i];
      if c !in found {
        missing := missing + [c];
      }
    }
    assert uncached[..|uncached|] == uncached;
  }

  // ---------------------------------------------------------------- the store

  /** `SQLRepoTransactor` and the reader in it. */
  class RepoStore {
    var table: map<Cid, Row>
    var root: Option<Root>
    const cache: BlockMap
    /** A CID determines the bytes of its block. */
    ghost const content: Cid -> Block

    /** The cache agrees with the table, and the table holds under each CID the bytes it determines. */
    ghost predicate Valid()
      reads this, cache
    {
      Agrees(cache.blocks, table) && Addressed(content, table)
    }

    constructor (table: map<Cid, Row>, root: Option<Root>, ghost content: Cid -> Block)
      requires Addressed(content, table)
      ensures Valid() && fresh(cache) && cache.blocks == map[]
      ensures this.table == table && this.root == root && this.content == content
    {
      this.table, this.root, this.content := table, root, content;
      cache := new BlockMap();
    }

    /** A read through the cache answers as a read of the table would, with the bytes the CID determines. */
    method GetBytes(c: Cid) returns (r: Option<Block>)
      requires Valid()
      modifies cache
      ensures Valid() && r == if c in table then Some(table[c].content) else None
      ensures r.Some? ==> r.value == content(c)
    {
      r := cache.Get(c);
      if r.Some? {
        return;
      }
      if c !in table {
        return None;
      }
      cache.Set(c, table[c].content);
      return Some(table[c].content);
    }

    method Has(c: Cid) returns (b: bool)
      requires Valid()
      modifies cache
      ensures Valid() && b == (c in table)
    {
      var r := GetBytes(c);
      b := r.Some?;
    }

    /** Scans rows in any order, into the cache too. */
    method ReadRows(rows: set<Cid>) returns (found: map<Cid, Block>)
      requires Valid() && rows <= table.Keys
      modifies cache
      ensures Valid()
      ensures found == BlocksOf(table, rows) && cache.blocks == old(cache.blocks) + found
    {
      var left := rows;
      found := map[];
      ghost var before := cache.blocks;
      while left != {}
        invariant left <= rows && Scanned(table, before, rows - left, found, cache.blocks)
        decreases |left|
      {
        var c := Pick(left);
        ScanOne(table, before, rows - left, found, cache.blocks, c);
        found := found[c := table[c].content];
        cache.Set(c, table[c].content);
        assert rows - (left - {c}) == (rows - left) + {c};
        left := left - {c};
      }
      assert rows - left == rows;
    }

    /**
     The request split into the blocks found and the CIDs missing, which are exactly those without a
     row, in order.
     */
    method GetBlocks(cids: seq<Cid>) returns (blocks: map<Cid, Block>, missing: seq<Cid>)
      requires Valid()
      modifies cache
      ensures Valid()
      ensures blocks == BlocksOf(table, Elems(cids))
      ensures missing == NotIn(cids, table)
    {
      hide BlocksOf, NotIn;
      var uncached: seq<Cid>;
      ghost var cached := cache.blocks;
      NotInEither(cids, cached, table);
      blocks, uncached := cache.GetMany(cids);
      UncachedAre(cids, cached, uncached);
      StoredOf(table, uncached);
      if uncached == [] {
        FoundAre(cids, cached, table, blocks, uncached, map[]);
        return blocks, [];
      }
      var found := ReadRows(set c | c in uncached && c in table);
      FoundAre(cids, cached, table, blocks, uncached, found);
      blocks := blocks + found;
      missing := NotFound(uncached, found, table);
    }

    /** Caches up to 15 blocks of one revision, all if there are no more. */
    method CacheRev(rev: string) returns (ghost chosen: set<Cid>)
      requires Valid()
      modifies cache
      ensures Valid()
      ensures chosen <= OfRev(table, rev) && |chosen| <= CACHE_REV_LIMIT
      ensures |chosen| < CACHE_REV_LIMIT ==> chosen == OfRev(table, rev)
      ensures cache.blocks == old(cache.blocks) + BlocksOf(table, chosen)
    {
      var rows := Limit(OfRev(table, rev), CACHE_REV_LIMIT);
      var found := ReadRows(rows);
      chosen := rows;
    }

    /**
     Keeps a row that is there. The block is cached all the same, so that the store stays right exactly
     if the block is the one its CID determines.
     */
    method PutBlock(c: Cid, block: Block, rev: string)
      requires Valid()
      modifies this`table, cache
      ensures table == if c in old(table) then old(table) else old(table)[c := Row(rev, block)]
      ensures cache.blocks == old(cache.blocks)[c := block]
      ensures Valid() <==> block == content(c)
      ensures Agrees(cache.blocks, table) <==> (c in old(table) ==> old(table)[c].content == block)
    {
      if c !in table {
        table := table[c := Row(rev, block)];
      }
      cache.Set(c, block);
      assert cache.blocks[c] == block;
    }

    /** One insert statement: all its rows, or none if one is there already. */
    method InsertRows(rows: map<Cid, Row>) returns (ok: bool)
      requires Agrees(cache.blocks, table)
      modifies this`table
      ensures Agrees(cache.blocks, table) && ok == (rows.Keys !! old(table).Keys)
      ensures table == if ok then old(table) + rows else old(table)
    {
      ok := rows.Keys !! table.Keys;
      if ok {
        table := table + rows;
      }
    }

    /**
     Inserts the blocks in batches of 50, in any order. It fails exactly if one of them has a row; what
     was inserted before that is left to the transaction to roll back. The cache agrees with the table
     in any case, and the store stays right if the blocks are those their CIDs determine.
     */
    method PutMany(toPut: map<Cid, Block>, rev: string) returns (ok: bool)
      requires Valid()
      modifies this`table
      ensures ok == (toPut.Keys !! old(table).Keys)
      ensures ok ==> table == old(table) + Rows(toPut, rev)
      ensures Agrees(cache.blocks, table) && (IsContent(content, toPut) ==> Valid())
      ensures ok && Valid() ==> IsContent(content, toPut)
    {
      var keys := InSomeOrder(toPut.Keys);
      var chunks := Chunk(keys, BATCH, batch => true);
      VisitedAll(Chunks(keys, BATCH), batch => true);
      ChunksPartition(keys, BATCH);
      hide Chunks;
      assert chunks[..0] == [];
      ghost var p: nat := 0;
      ghost var before := table;
      assert Inserted(before, toPut, {}, rev, table);
      hide Inserted, Distinct, Chunked;
      for i := 0 to |chunks|
        invariant Agrees(cache.blocks, table) && p <= |keys| && keys[..p] == Flatten(chunks[..i])
        invariant Inserted(before, toPut, Elems(keys[..p]), rev, table)
      {
        FlattenPrefix(chunks, i);
        ghost var q := p + |chunks[i]|;
        assert keys[..q] == keys[..p] + chunks[i];
        BatchOfKeys(keys, p, q, chunks[i]);
        ok := InsertBatch(toPut, chunks[i], rev, before, Elems(keys[..p]));
        if !ok {
          InsertedContent(content, before, toPut, Elems(keys[..p]), rev, table);
          return;
        }
        p := q;
      }
      assert chunks[..|chunks|] == chunks && keys[..p] == keys;
      AllInserted(before, toPut, rev, table);
      InsertedContent(content, before, toPut, toPut.Keys, rev, table);
      ok := true;
    }

    /** The insert statement of one batch, after the batches `done`. */
    method InsertBatch(toPut: map<Cid, Block>, batch: seq<Cid>, rev: string, ghost before: map<Cid, Row>, ghost done: set<Cid>)
      returns (ok: bool)
      requires Agrees(cache.blocks, table) && Inserted(before, toPut, done, rev, table)
      requires Elems(batch) !! done && Elems(batch) <= toPut.Keys
      modifies this`table
      ensures Agrees(cache.blocks, table)
      ensures ok ==> Inserted(before, toPut, done + Elems(batch), rev, table)
      ensures !ok ==> !(toPut.Keys !! before.Keys) && table == old(table)
    {
      var rows := map c | c in batch && c in toPut :: Row(rev, toPut[c]);
      BatchInserted(before, toPut, done, Elems(batch), rev, table, rows);
      ok := InsertRows(rows);
    }

    /** Deletes rows, then forgets the blocks one by one. */
    method DeleteMany(cids: set<Cid>)
      requires Valid()
      modifies this`table, cache
      ensures Valid()
      ensures table == old(table) - cids && cache.blocks == old(cache.blocks) - cids
    {
      if cids == {} {
        assert table - cids == table && cache.blocks - cids == cache.blocks;
        return;
      }
      table := table - cids;
      cache.DeleteAll(cids);
    }

    /** The first root is inserted; a later one replaces it. */
    method UpdateRoot(c: Cid, rev: string, isCreate: bool) returns (ok: bool)
      modifies this`root
      ensures ok == !(isCreate && old(root).Some?)
      ensures root == if ok && (isCreate || old(root).Some?) then Some(Root(c, rev)) else old(root)
    {
      if isCreate {
        if root.Some? {
          return false;
        }
        root := Some(Root(c, rev));
      } else if root.Some? {
        root := Some(Root(c, rev));
      }
      ok := true;
    }
  }

  // ---------------------------------------------------------------- batches of a map

  /** The blocks of `keys` are inserted, none of which had a row. */
  ghost predicate Inserted(before: map<Cid, Row>, toPut: map<Cid, Block>, keys: set<Cid>, rev: string, table: map<Cid, Row>) {
    table == before + Rows(Restrict(toPut, keys), rev) && keys !! before.Keys
  }

  lemma BatchInserted(before: map<Cid, Row>, toPut: map<Cid, Block>, keys: set<Cid>, batch: set<Cid>, rev: string,
                      table: map<Cid, Row>, rows: map<Cid, Row>)
    requires Inserted(before, toPut, keys, rev, table) && batch !! keys && batch <= toPut.Keys
    requires rows == Rows(Restrict(toPut, batch), rev)
    ensures rows.Keys !! table.Keys ==> Inserted(before, toPut, keys + batch, rev, table + rows)
    ensures !(rows.Keys !! table.Keys) ==> !(toPut.Keys !! before.Keys)
  {
    assert Rows(Restrict(toPut, keys + batch), rev) == Rows(Restrict(toPut, keys), rev) + rows;
    if !(rows.Keys !! table.Keys) {
      var c :| c in rows.Keys && c in table.Keys;
      assert c in before.Keys && c in toPut.Keys;
    }
  }

  lemma AllInserted(before: map<Cid, Row>, toPut: map<Cid, Block>, rev: string, table: map<Cid, Row>)
    requires Inserted(before, toPut, toPut.Keys, rev, table)
    ensures table == before + Rows(toPut, rev) && toPut.Keys !! before.Keys
  {
    assert Restrict(toPut, toPut.Keys) == toPut;
  }

  /** The bytes in the table, once `keys` are inserted. */
  lemma InsertedContent(content: Cid -> Block, before: map<Cid, Row>, toPut: map<Cid, Block>, keys: set<Cid>, rev: string,
                        table: map<Cid, Row>)
    requires Addressed(content, before) && Inserted(before, toPut, keys, rev, table)
    ensures IsContent(content, toPut) ==> Addressed(content, table)
    ensures keys == toPut.Keys && Addressed(content, table) ==> IsContent(content, toPut)
  {
    if keys == toPut.Keys && Addressed(content, table) {
      forall c | c in toPut
        ensures toPut[c] == content(c)
      {
        assert table[c] == Row(rev, toPut[c]);
      }
    }
  }

  lemma BatchOfKeys(keys: seq<Cid>, p: nat, q: nat, batch: seq<Cid>)
    requires Distinct(keys) && p <= q <= |keys| && keys[..q] == keys[..p] + batch
    ensures Elems(keys[..q]) == Elems(keys[..p]) + Elems(batch)
    ensures Elems(batch) !! Elems(keys[..p]) && Elems(batch) <= Elems(keys)
  {
    forall i | 0 <= i < |batch|
      ensures batch[i] == keys[p + i]
    {
      assert batch[i] == keys[..q][p + i];
    }
  }

  function Restrict(m: map<Cid, Block>, keys: set<Cid>): map<Cid, Block> {
    map c | c in m && c in keys :: m[c]
  }
}
