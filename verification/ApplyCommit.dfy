/**
 `ApplyCommit`: one job replaces the root, one inserts the new blocks batch by batch, one deletes the
 removed blocks and forgets them in the cache. The jobs run at the same time; a statement of any of
 them is one step.
 */
module ApplyCommit {
  import opened ActorStore
  import opened Blocks
  import opened Collections
  import opened Steps
  import opened Wrappers
  import opened Xiter

  datatype Store = Store(table: map<Cid, Row>, root: Option<Root>, cache: map<Cid, Block>)

  datatype Op =
    | SetRoot(root: Root, isCreate: bool)
    | Insert(rows: map<Cid, Row>)
    | DeleteRows(cids: set<Cid>)
    | Forget(cid: Cid)

  /** A statement, if it does not fail. */
  function Exec(s: Store, op: Op): Option<Store> {
    match op
    case SetRoot(root, isCreate) =>
      if isCreate then (if s.root.Some? then None else Some(s.(root := Some(root))))
      else if s.root.Some? then Some(s.(root := Some(root))) else Some(s)
    case Insert(rows) => if rows.Keys !! s.table.Keys then Some(s.(table := s.table + rows)) else None
    case DeleteRows(cids) => Some(s.(table := s.table - cids))
    case Forget(c) => Some(s.(cache := s.cache - {c}))
  }

  datatype Commit = Commit(root: Root, newBlocks: map<Cid, Block>, removed: set<Cid>, isCreate: bool)

  /** The store and what is left to do of each job. */
  datatype Config = Config(store: Store, rooting: seq<Op>, putting: seq<Op>, deleting: seq<Op>)

  datatype Job = Rooting | Putting | Deleting

  function Left(c: Config, j: Job): seq<Op> {
    match j
    case Rooting => c.rooting
    case Putting => c.putting
    case Deleting => c.deleting
  }

  /** The next statement of job `j`. */
  function Step(c: Config, j: Job): Option<Config> {
    if Left(c, j) == [] then None
    else match Exec(c.store, Left(c, j)[0])
      case None => None
      case Some(s) =>
        match j
        case Rooting => Some(c.(store := s, rooting := c.rooting[1..]))
        case Putting => Some(c.(store := s, putting := c.putting[1..]))
        case Deleting => Some(c.(store := s, deleting := c.deleting[1..]))
  }

  // ---------------------------------------------------------------- the jobs

  /** The insert statements of `PutMany`. */
  function Inserts(commit: Commit, chunks: seq<seq<Cid>>): seq<Op> {
    seq(|chunks|, i requires 0 <= i < |chunks| =>
      Insert(map c | c in chunks[i] && c in commit.newBlocks :: Row(commit.root.rev, commit.newBlocks[c])))
  }

  /** The statement of `DeleteMany` and what it does to the cache. */
  function Deletes(commit: Commit, order: seq<Cid>): seq<Op> {
    if commit.removed == {} then []
    else [DeleteRows(commit.removed)] + seq(|order|, i requires 0 <= i < |order| => Forget(order[i]))
  }

  /** Batches that hold every new block once, and an order of the removed ones. */
  ghost predicate Splits(commit: Commit, chunks: seq<seq<Cid>>, order: seq<Cid>) {
    && Distinct(Flatten(chunks)) && Elems(Flatten(chunks)) == commit.newBlocks.Keys
    && Distinct(order) && Elems(order) == commit.removed
  }

  function Start(s: Store, commit: Commit, chunks: seq<seq<Cid>>, order: seq<Cid>): Config {
    Config(s, [SetRoot(commit.root, commit.isCreate)], Inserts(commit, chunks), Deletes(commit, order))
  }

  predicate Finished(c: Config) {
    c.rooting == [] && c.putting == [] && c.deleting == []
  }

  // ---------------------------------------------------------------- rows still to be inserted

  function Pending(ops: seq<Op>): map<Cid, Row> {
    if ops == [] then map[]
    else (if ops[0].Insert? then ops[0].rows else map[]) + Pending(ops[1..])
  }

  predicate DisjointInserts(ops: seq<Op>) {
    ops != [] ==> ops[0].Insert? && ops[0].rows.Keys !! Pending(ops[1..]).Keys && DisjointInserts(ops[1..])
  }

  function ToForget(ops: seq<Op>): set<Cid> {
    set op <- ops | op.Forget? :: op.cid
  }

  /** Each forgets another CID. */
  predicate OnlyForgets(ops: seq<Op>) {
    && (forall i :: 0 <= i < |ops| ==> ops[i].Forget?)
    && (forall i, j :: 0 <= i < j < |ops| ==> ops[i] != ops[j])
  }

  /** The inserts of a split are disjoint and insert every new block. */
  lemma {:induction false} InsertsOfSplit(commit: Commit, chunks: seq<seq<Cid>>)
    requires Distinct(Flatten(chunks)) && Elems(Flatten(chunks)) <= commit.newBlocks.Keys
    ensures DisjointInserts(Inserts(commit, chunks))
    ensures Pending(Inserts(commit, chunks)) == Rows(Restrict(commit.newBlocks, Elems(Flatten(chunks))), commit.root.rev)
  {
    if chunks == [] {
      return;
    }
    var rest := chunks[1..];
    DistinctConcat(chunks[0], Flatten(rest));
    hide Distinct;
    InsertsOfSplit(commit, rest);
    var ops := Inserts(commit, chunks);
    assert ops[1..] == Inserts(commit, rest);
    assert ops[0].rows == Rows(Restrict(commit.newBlocks, Elems(chunks[0])), commit.root.rev);
    RowsOfUnion(commit, Elems(chunks[0]), Elems(Flatten(rest)));
  }

  lemma RowsOfUnion(commit: Commit, a: set<Cid>, b: set<Cid>)
    ensures Rows(Restrict(commit.newBlocks, a + b), commit.root.rev)
            == Rows(Restrict(commit.newBlocks, a), commit.root.rev) + Rows(Restrict(commit.newBlocks, b), commit.root.rev)
    ensures a !! b ==> Rows(Restrict(commit.newBlocks, a), commit.root.rev).Keys
                       !! Rows(Restrict(commit.newBlocks, b), commit.root.rev).Keys
  {
  }

  // ---------------------------------------------------------------- every interleaving

  /** The store is what the statements done so far make of the old one, whatever their order. */
  predicate Inv(s: Store, commit: Commit, c: Config) {
    RootInv(s, commit, c) && TableInv(s, commit, c) && CacheInv(s, commit, c)
  }

  predicate RootInv(s: Store, commit: Commit, c: Config) {
    if c.rooting == [] then c.store.root == Some(commit.root)
    else c.rooting == [SetRoot(commit.root, commit.isCreate)] && c.store.root == s.root
  }

  predicate Deleted(c: Config) {
    c.deleting == [] || !c.deleting[0].DeleteRows?
  }

  predicate TableInv(s: Store, commit: Commit, c: Config) {
    var rows := Rows(commit.newBlocks, commit.root.rev);
    var pending := Pending(c.putting);
    && DisjointInserts(c.putting)
    && (forall x :: x in pending ==> x in rows && pending[x] == rows[x])
    && c.store.table == (if Deleted(c) then s.table - commit.removed else s.table) + (rows - pending.Keys)
  }

  predicate CacheInv(s: Store, commit: Commit, c: Config) {
    if Deleted(c) then
      && OnlyForgets(c.deleting) && ToForget(c.deleting) <= commit.removed
      && c.store.cache == s.cache - (commit.removed - ToForget(c.deleting))
    else
      && c.deleting[0] == DeleteRows(commit.removed) && OnlyForgets(c.deleting[1..])
      && ToForget(c.deleting[1..]) == commit.removed
      && c.store.cache == s.cache
  }

  /** A commit that fits the store: its blocks are new, and a root is created exactly if there is none. */
  predicate Fits(s: Store, commit: Commit) {
    && commit.newBlocks.Keys !! s.table.Keys
    && commit.newBlocks.Keys !! commit.removed
    && commit.isCreate == s.root.None?
  }

  lemma StartInv(s: Store, commit: Commit, chunks: seq<seq<Cid>>, order: seq<Cid>)
    requires Splits(commit, chunks, order)
    ensures Inv(s, commit, Start(s, commit, chunks, order))
  {
    StartTable(s, commit, chunks, order);
    StartCache(s, commit, chunks, order);
    hide TableInv, CacheInv;
  }

  lemma StartTable(s: Store, commit: Commit, chunks: seq<seq<Cid>>, order: seq<Cid>)
    requires Splits(commit, chunks, order)
    ensures TableInv(s, commit, Start(s, commit, chunks, order))
  {
    InsertsOfSplit(commit, chunks);
    hide Inserts, Distinct;
    assert Restrict(commit.newBlocks, commit.newBlocks.Keys) == commit.newBlocks;
    var rows := Rows(commit.newBlocks, commit.root.rev);
    assert s.table - {} == s.table && s.table + (rows - rows.Keys) == s.table;
  }

  lemma StartCache(s: Store, commit: Commit, chunks: seq<seq<Cid>>, order: seq<Cid>)
    requires Splits(commit, chunks, order)
    ensures CacheInv(s, commit, Start(s, commit, chunks, order))
  {
    hide Inserts;
    var ops := Deletes(commit, order);
    if commit.removed != {} {
      assert ops[1..] == seq(|order|, i requires 0 <= i < |order| => Forget(order[i]));
      forall x
        ensures x in ToForget(ops[1..]) <==> x in commit.removed
      {
        if x in Elems(order) {
          var i :| 0 <= i < |order| && order[i] == x;
          assert ops[1..][i] == Forget(x);
        }
      }
    }
  }

  /** No statement fails. */
  lemma NeverFails(s: Store, commit: Commit, c: Config, j: Job)
    requires Fits(s, commit) && Inv(s, commit, c) && Left(c, j) != []
    ensures Step(c, j).Some?
  {
    if j == Putting {
      assert c.putting[0].rows.Keys <= Pending(c.putting).Keys;
    }
  }

  lemma RootStep(s: Store, commit: Commit, c: Config)
    requires Fits(s, commit) && Inv(s, commit, c) && c.rooting != []
    ensures Inv(s, commit, Step(c, Rooting).value)
  {
  }

  lemma PutStep(s: Store, commit: Commit, c: Config)
    requires Fits(s, commit) && Inv(s, commit, c) && c.putting != [] && Step(c, Putting).Some?
    ensures Inv(s, commit, Step(c, Putting).value)
  {
    var d := Step(c, Putting).value;
    var rows, base := Rows(commit.newBlocks, commit.root.rev), if Deleted(c) then s.table - commit.removed else s.table;
    MoveRows(base, rows, Pending(c.putting), c.putting[0].rows, Pending(d.putting));
    hide Rows;
  }

  /** Rows that were pending are inserted. */
  lemma MoveRows(base: map<Cid, Row>, rows: map<Cid, Row>, now: map<Cid, Row>, part: map<Cid, Row>, after: map<Cid, Row>)
    requires now == part + after && part.Keys !! after.Keys
    requires forall x :: x in now ==> x in rows && now[x] == rows[x]
    ensures (base + (rows - now.Keys)) + part == base + (rows - after.Keys)
    ensures forall x :: x in after ==> x in rows && after[x] == rows[x]
  {
    forall x | x in part
      ensures x in now && now[x] == part[x]
    {
    }
    forall x | x in after
      ensures x in now && now[x] == after[x]
    {
    }
  }

  lemma DeleteStep(s: Store, commit: Commit, c: Config)
    requires Fits(s, commit) && Inv(s, commit, c) && c.deleting != []
    ensures Inv(s, commit, Step(c, Deleting).value)
  {
    if Deleted(c) {
      ForgetStep(s, commit, c);
    } else {
      DeleteRowsStep(s, commit, c);
    }
    hide Inv, Step;
  }

  lemma ForgetStep(s: Store, commit: Commit, c: Config)
    requires Inv(s, commit, c) && c.deleting != [] && Deleted(c)
    ensures Inv(s, commit, Step(c, Deleting).value)
  {
    hide Pending, Rows, DisjointInserts;
    var d := Step(c, Deleting).value;
    ForgetOne(c.deleting);
    assert Deleted(d) && d.store.table == c.store.table;
    assert d.store.cache == s.cache - (commit.removed - ToForget(d.deleting));
    hide ToForget, OnlyForgets;
  }

  lemma DeleteRowsStep(s: Store, commit: Commit, c: Config)
    requires Fits(s, commit) && Inv(s, commit, c) && !Deleted(c)
    ensures Inv(s, commit, Step(c, Deleting).value)
  {
    hide Pending, DisjointInserts;
    var d := Step(c, Deleting).value;
    var rows, pending := Rows(commit.newBlocks, commit.root.rev), Pending(c.putting);
    assert (s.table + (rows - pending.Keys)) - commit.removed == (s.table - commit.removed) + (rows - pending.Keys);
    assert commit.removed - ToForget(d.deleting) == {};
    assert s.cache - {} == s.cache;
    assert Deleted(d);
    hide ToForget, OnlyForgets, Rows;
  }

  lemma ForgetOne(ops: seq<Op>)
    requires ops != [] && OnlyForgets(ops)
    ensures ToForget(ops) == {ops[0].cid} + ToForget(ops[1..]) && ops[0].cid !in ToForget(ops[1..])
    ensures OnlyForgets(ops[1..])
  {
    assert ops == [ops[0]] + ops[1..];
    forall i | 0 <= i < |ops[1..]|
      ensures ops[1..][i] == ops[i + 1]
    {
    }
  }

  ghost predicate Reaches(s: Store, commit: Commit, chunks: seq<seq<Cid>>, order: seq<Cid>, schedule: seq<Job>, c: Config) {
    Run(Step, Start(s, commit, chunks, order), schedule) == Some(c)
  }

  lemma ReachableInv(s: Store, commit: Commit, chunks: seq<seq<Cid>>, order: seq<Cid>, schedule: seq<Job>, c: Config)
    requires Fits(s, commit) && Splits(commit, chunks, order) && Reaches(s, commit, chunks, order, schedule, c)
    ensures Inv(s, commit, c)
  {
    StartInv(s, commit, chunks, order);
    var inv := c => Inv(s, commit, c);
    forall c, j | inv(c) && Step(c, j).Some?
      ensures inv(Step(c, j).value)
    {
      match j {
        case Rooting => RootStep(s, commit, c);
        case Putting => PutStep(s, commit, c);
        case Deleting => DeleteStep(s, commit, c);
      }
    }
    RunKeeps(Step, inv, Start(s, commit, chunks, order), schedule);
  }

  /**
   Whatever the interleaving and the batches, no statement of a commit that fits the store fails; and
   once the three jobs are done the blocks are the old ones without the removed and with the new, the
   root is the commit's, and a cache that agreed with the table still does.
   */
  lemma CommitInAnyOrder(s: Store, commit: Commit, chunks: seq<seq<Cid>>, order: seq<Cid>, schedule: seq<Job>, c: Config)
    requires Fits(s, commit) && Splits(commit, chunks, order) && Reaches(s, commit, chunks, order, schedule, c)
    ensures forall j :: Left(c, j) != [] ==> Step(c, j).Some?
    ensures Finished(c) ==>
              && c.store.table == (s.table - commit.removed) + Rows(commit.newBlocks, commit.root.rev)
              && c.store.root == Some(commit.root)
              && c.store.cache == s.cache - commit.removed
              && (Agrees(s.cache, s.table) ==> Agrees(c.store.cache, c.store.table))
  {
    ReachableInv(s, commit, chunks, order, schedule, c);
    forall j | Left(c, j) != []
      ensures Step(c, j).Some?
    {
      NeverFails(s, commit, c, j);
    }
    if Finished(c) {
      var rows := Rows(commit.newBlocks, commit.root.rev);
      assert rows - Pending(c.putting).Keys == rows;
      assert commit.removed - ToForget(c.deleting) == commit.removed;
    }
  }

  // ---------------------------------------------------------------- a block both new and removed

  /** Job `Putting` runs to its end. */
  lemma {:induction false} Put(c: Config) returns (schedule: seq<Job>, d: Config)
    requires DisjointInserts(c.putting) && Pending(c.putting).Keys !! c.store.table.Keys
    ensures Run(Step, c, schedule) == Some(d)
    ensures d == c.(store := c.store.(table := c.store.table + Pending(c.putting)), putting := [])
    decreases |c.putting|
  {
    if c.putting == [] {
      schedule, d := [], c;
      assert c.store.table + map[] == c.store.table;
    } else {
      var next := Step(c, Putting).value;
      schedule, d := Put(next);
      RunOne(Step, c, Putting, schedule);
      schedule := [Putting] + schedule;
      assert (c.store.table + c.putting[0].rows) + Pending(next.putting) == c.store.table + Pending(c.putting);
    }
  }

  lemma {:induction false} ForgetAll(c: Config) returns (schedule: seq<Job>, d: Config)
    requires forall i :: 0 <= i < |c.deleting| ==> c.deleting[i].Forget?
    ensures Run(Step, c, schedule) == Some(d)
    ensures d == c.(store := c.store.(cache := d.store.cache), deleting := [])
    decreases |c.deleting|
  {
    if c.deleting == [] {
      schedule, d := [], c;
    } else {
      schedule, d := ForgetAll(Step(c, Deleting).value);
      RunOne(Step, c, Deleting, schedule);
      schedule := [Deleting] + schedule;
    }
  }

  /** Job `Deleting` runs to its end. */
  lemma Delete(c: Config, cids: set<Cid>) returns (schedule: seq<Job>, d: Config)
    requires c.deleting != [] && c.deleting[0] == DeleteRows(cids) && OnlyForgets(c.deleting[1..])
    ensures Run(Step, c, schedule) == Some(d)
    ensures d == c.(store := c.store.(table := c.store.table - cids, cache := d.store.cache), deleting := [])
  {
    schedule, d := ForgetAll(Step(c, Deleting).value);
    RunOne(Step, c, Deleting, schedule);
    schedule := [Deleting] + schedule;
  }

  /** Job `Rooting` runs to its end. */
  lemma SetTheRoot(c: Config) returns (d: Config)
    requires |c.rooting| == 1 && c.rooting[0].SetRoot? && c.rooting[0].isCreate == c.store.root.None?
    ensures Run(Step, c, [Rooting]) == Some(d)
    ensures d.rooting == [] && d.putting == c.putting && d.deleting == c.deleting && d.store.table == c.store.table
  {
    d := Step(c, Rooting).value;
    RunNone(Step, d);
    RunOne(Step, c, Rooting, []);
    assert [Rooting] + [] == [Rooting];
  }

  /** Inserting first, a block both new and removed is gone; deleting first, it is there. */
  lemma TwoOrders(s: Store, commit: Commit, chunks: seq<seq<Cid>>, order: seq<Cid>, putFirst: bool)
    returns (schedule: seq<Job>, d: Config)
    requires Splits(commit, chunks, order) && commit.newBlocks.Keys !! s.table.Keys && commit.isCreate == s.root.None?
    requires commit.removed != {}
    ensures Reaches(s, commit, chunks, order, schedule, d) && Finished(d)
    ensures var rows := Rows(commit.newBlocks, commit.root.rev);
            d.store.table == if putFirst then (s.table + rows) - commit.removed else (s.table - commit.removed) + rows
  {
    StartInv(s, commit, chunks, order);
    var c := Start(s, commit, chunks, order);
    InsertsOfSplit(commit, chunks);
    assert Restrict(commit.newBlocks, commit.newBlocks.Keys) == commit.newBlocks;
    assert Pending(c.putting) == Rows(commit.newBlocks, commit.root.rev);
    assert Pending(c.putting).Keys == commit.newBlocks.Keys;
    hide Inserts, Deletes, Start, Rows, Inv;
    var first, second, middle;
    if putFirst {
      first, middle := Put(c);
      second, d := Delete(middle, commit.removed);
    } else {
      first, middle := Delete(c, commit.removed);
      second, d := Put(middle);
    }
    RunConcat(Step, c, first, second);
    var last := d;
    d := SetTheRoot(last);
    RunConcat(Step, c, first + second, [Rooting]);
    schedule := first + second + [Rooting];
  }

  /** Every complete schedule leads to the same blocks. */
  ghost predicate OneOutcome(s: Store, commit: Commit, chunks: seq<seq<Cid>>, order: seq<Cid>) {
    forall a, b, c, d ::
      Reaches(s, commit, chunks, order, a, c) && Finished(c) && Reaches(s, commit, chunks, order, b, d) && Finished(d) ==>
        c.store.table == d.store.table
  }

  /** The blocks do not depend on the schedule exactly if no block is both new and removed. */
  lemma OutcomeDependsOnOverlap(s: Store, commit: Commit, chunks: seq<seq<Cid>>, order: seq<Cid>)
    requires Splits(commit, chunks, order) && commit.newBlocks.Keys !! s.table.Keys && commit.isCreate == s.root.None?
    ensures OneOutcome(s, commit, chunks, order) <==> commit.newBlocks.Keys !! commit.removed
  {
    if commit.newBlocks.Keys !! commit.removed {
      forall a, b, c, d | Reaches(s, commit, chunks, order, a, c) && Finished(c)
                          && Reaches(s, commit, chunks, order, b, d) && Finished(d)
        ensures c.store.table == d.store.table
      {
        CommitInAnyOrder(s, commit, chunks, order, a, c);
        CommitInAnyOrder(s, commit, chunks, order, b, d);
      }
    } else {
      var x :| x in commit.newBlocks.Keys && x in commit.removed;
      var a, c := TwoOrders(s, commit, chunks, order, true);
      var b, d := TwoOrders(s, commit, chunks, order, false);
      hide Reaches;
      assert x !in c.store.table && x in d.store.table;
    }
  }

  // ---------------------------------------------------------------- when a statement can fail

  /** No insert still to come meets a row, and no root is inserted beside another. */
  predicate NoClash(c: Config) {
    && DisjointInserts(c.putting) && Pending(c.putting).Keys !! c.store.table.Keys
    && (c.rooting == [] || (|c.rooting| == 1 && c.rooting[0].SetRoot? && !(c.rooting[0].isCreate && c.store.root.Some?)))
    && (forall i :: 0 <= i < |c.deleting| ==> c.deleting[i].DeleteRows? || c.deleting[i].Forget?)
  }

  lemma NoClashStays(c: Config, j: Job)
    requires NoClash(c) && Left(c, j) != []
    ensures Step(c, j).Some? && NoClash(Step(c, j).value)
  {
    if j == Putting {
      assert c.putting[0].rows.Keys <= Pending(c.putting).Keys;
      assert Pending(c.putting[1..]).Keys <= Pending(c.putting).Keys;
    }
    hide DisjointInserts;
  }

  /** Some schedule comes to an insert that fails. */
  lemma {:induction false} InsertFails(c: Config) returns (schedule: seq<Job>, d: Config)
    requires DisjointInserts(c.putting) && !(Pending(c.putting).Keys !! c.store.table.Keys)
    ensures Run(Step, c, schedule) == Some(d) && d.putting != [] && Step(d, Putting).None?
    decreases |c.putting|
  {
    if Step(c, Putting).None? {
      schedule, d := [], c;
    } else {
      var next := Step(c, Putting).value;
      var x :| x in Pending(c.putting) && x in c.store.table;
      assert x in Pending(next.putting) && x in next.store.table;
      schedule, d := InsertFails(next);
      RunOne(Step, c, Putting, schedule);
      schedule := [Putting] + schedule;
    }
  }

  /** No schedule comes to a statement that fails. */
  ghost predicate NeverStuck(s: Store, commit: Commit, chunks: seq<seq<Cid>>, order: seq<Cid>) {
    forall schedule, c, j ::
      Reaches(s, commit, chunks, order, schedule, c) && Left(c, j) != [] ==> Step(c, j).Some?
  }

  lemma {:induction false} RunsWithoutClash(s: Store, commit: Commit, chunks: seq<seq<Cid>>, order: seq<Cid>)
    requires NoClash(Start(s, commit, chunks, order))
    ensures NeverStuck(s, commit, chunks, order)
  {
    forall c, j | NoClash(c) && Step(c, j).Some?
      ensures NoClash(Step(c, j).value)
    {
      NoClashStays(c, j);
    }
    forall schedule, c, j | Reaches(s, commit, chunks, order, schedule, c) && Left(c, j) != []
      ensures Step(c, j).Some?
    {
      RunKeeps(Step, NoClash, Start(s, commit, chunks, order), schedule);
      NoClashStays(c, j);
    }
  }

  /**
   Some statement of a commit can fail exactly if one of its new blocks has a row already or it creates
   a root beside one that is there.
   */
  lemma FailsIfClash(s: Store, commit: Commit, chunks: seq<seq<Cid>>, order: seq<Cid>)
    requires Splits(commit, chunks, order)
    ensures NeverStuck(s, commit, chunks, order)
            <==> commit.newBlocks.Keys !! s.table.Keys && !(commit.isCreate && s.root.Some?)
  {
    var c := Start(s, commit, chunks, order);
    InsertsOfSplit(commit, chunks);
    assert Restrict(commit.newBlocks, commit.newBlocks.Keys) == commit.newBlocks;
    assert Pending(c.putting).Keys == commit.newBlocks.Keys;
    hide Inserts, Splits, Pending, DisjointInserts;
    if commit.isCreate && s.root.Some? {
      RunNone(Step, c);
      assert Reaches(s, commit, chunks, order, [], c) && Left(c, Rooting) != [] && Step(c, Rooting).None?;
    } else if commit.newBlocks.Keys !! s.table.Keys {
      RunsWithoutClash(s, commit, chunks, order);
    } else {
      var schedule, d := InsertFails(c);
      assert Reaches(s, commit, chunks, order, schedule, d) && Left(d, Putting) != [];
    }
  }
}
