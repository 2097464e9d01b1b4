/**
 The event sequencer as a step system: an atomic counter, calls of `Pub` that number, publish and
 store an event, and restarts that set the counter from the table. The `repo_seq` table is a map
 from sequence numbers to events.
 */
module Sequencer {
  import opened Collections
  import opened Wrappers
  import opened Steps

  type Event = int

  /** A call of `Pub` on its way. */
  datatype Call =
    | Numbered(n: int, evt: Event)       // after the atomic add
    | Published(n: int, evt: Event)      // after the bus took it
    | Ended                              // stored, or given up with an error

  datatype State = State(
    table: map<int, Event>,
    counter: int,
    calls: seq<Call>,
    published: set<(int, Event)>,        // history: what the bus may have handed to a subscriber
    conflict: bool,                      // history: an insert failed on its primary key
    misread: bool)                       // history: a restart could not read a table that has rows

  datatype Action =
    | Add(evt: Event)
    | Publish(c: nat)
    | FailPublish(c: nat, reached: bool) // the bus gave up, perhaps once some subscribers had it
    | Store(c: nat)
    | FailStore(c: nat)                  // the event does not encode, or the insert fails otherwise
    | Restart(read: Option<int>)         // after a crash or a stop: the calls are gone

  const EMPTY := State(map[], 0, [], {}, false, false)

  /** `curr`: the largest number stored, or an error, which an empty table is too. */
  predicate IsCurr(table: map<int, Event>, read: Option<int>) {
    match read
    case None => true
    case Some(m) => m in table && forall k :: k in table ==> k <= m
  }

  predicate Enabled(s: State, a: Action) {
    match a
    case Add(_) => true
    case Publish(c) => c < |s.calls| && s.calls[c].Numbered?
    case FailPublish(c, _) => c < |s.calls| && s.calls[c].Numbered?
    case Store(c) => c < |s.calls| && s.calls[c].Published?
    case FailStore(c) => c < |s.calls| && s.calls[c].Published?
    case Restart(read) => IsCurr(s.table, read)
  }

  function Apply(s: State, a: Action): State
    requires Enabled(s, a)
  {
    match a
    case Add(evt) => s.(counter := s.counter + 1, calls := s.calls + [Numbered(s.counter + 1, evt)])
    case Publish(c) =>
      var n, evt := s.calls[c].n, s.calls[c].evt;
      s.(calls := s.calls[c := Published(n, evt)], published := s.published + {(n, evt)})
    case FailPublish(c, reached) =>
      var n, evt := s.calls[c].n, s.calls[c].evt;
      s.(calls := s.calls[c := Ended], published := if reached then s.published + {(n, evt)} else s.published)
    case Store(c) =>
      var n, evt := s.calls[c].n, s.calls[c].evt;
      if n in s.table then s.(calls := s.calls[c := Ended], conflict := true)
      else s.(calls := s.calls[c := Ended], table := s.table[n := evt])
    case FailStore(c) => s.(calls := s.calls[c := Ended])
    case Restart(read) =>
      // any error counts as 0
      s.(calls := [], counter := if read.Some? then read.value else 0,
         misread := s.misread || (read.None? && s.table != map[]))
  }

  function Step(s: State, a: Action): Option<State> {
    if Enabled(s, a) then Some(Apply(s, a)) else None
  }

  predicate Reaches(actions: seq<Action>, s: State) {
    Run(Step, EMPTY, actions) == Some(s)
  }

  // ---------------------------------------------------------------- every run

  /** What is stored or about to be stored was published, and numbers are positive. */
  predicate PublishedInv(s: State) {
    && (forall n :: n in s.table ==> (n, s.table[n]) in s.published && n > 0)
    && (forall c :: 0 <= c < |s.calls| && s.calls[c].Published? ==> (s.calls[c].n, s.calls[c].evt) in s.published)
    && (forall c :: 0 <= c < |s.calls| && !s.calls[c].Ended? ==> s.calls[c].n > 0)
    && s.counter >= 0
  }

  lemma StepKeepsPublished(s: State, a: Action)
    requires PublishedInv(s) && Enabled(s, a)
    ensures PublishedInv(Apply(s, a))
  {
  }

  /** The calls on their way have different numbers up to the counter that no row has. */
  predicate NumbersInv(s: State) {
    && (forall n :: n in s.table ==> n <= s.counter)
    && (forall c :: 0 <= c < |s.calls| && !s.calls[c].Ended? ==> s.calls[c].n <= s.counter && s.calls[c].n !in s.table)
    && (forall c, d :: 0 <= c < d < |s.calls| && !s.calls[c].Ended? && !s.calls[d].Ended? ==> s.calls[c].n != s.calls[d].n)
  }

  predicate Inv(s: State) {
    PublishedInv(s) && (!s.misread ==> NumbersInv(s) && !s.conflict)
  }

  lemma StepKeepsNumbers(s: State, a: Action)
    requires Inv(s) && !s.misread && Enabled(s, a)
    ensures !Apply(s, a).misread ==> NumbersInv(Apply(s, a)) && !Apply(s, a).conflict
  {
    var t := Apply(s, a);
    match a {
      case Restart(_) => assert t.calls == [];
      case Add(evt) =>
        assert forall c :: 0 <= c < |s.calls| ==> t.calls[c] == s.calls[c];
      case _ =>
    }
  }

  /**
   Over any calls, failures, crashes and restarts: every stored event was first published, with the
   number it is stored under. As long as no restart misread a table with rows, the counter is never
   below the largest stored number and no insert finds its number taken.
   */
  lemma EveryRun(actions: seq<Action>, s: State)
    requires Reaches(actions, s)
    ensures forall n :: n in s.table ==> (n, s.table[n]) in s.published && n > 0
    ensures !s.misread ==> !s.conflict && forall n :: n in s.table ==> n <= s.counter
  {
    forall s, a | Inv(s) && Step(s, a).Some?
      ensures Inv(Step(s, a).value)
    {
      StepKeepsPublished(s, a);
      if !s.misread {
        StepKeepsNumbers(s, a);
      }
    }
    RunKeeps(Step, Inv, EMPTY, actions);
  }

  /** A stored row is never changed or lost. */
  lemma {:induction false} RowsStay(s: State, actions: seq<Action>, n: int)
    requires n in s.table && Run(Step, s, actions).Some?
    ensures var t := Run(Step, s, actions).value; n in t.table && t.table[n] == s.table[n]
  {
    var inv := (t: State) => n in t.table && t.table[n] == s.table[n];
    forall t, a | inv(t) && Step(t, a).Some?
      ensures inv(Step(t, a).value)
    {
    }
    RunKeeps(Step, inv, s, actions);
  }

  // ---------------------------------------------------------------- when the counter falls behind

  /** The state after the first `k` actions of a run. */
  ghost function After(actions: seq<Action>, k: nat): State
    requires Run(Step, EMPTY, actions).Some? && k <= |actions|
  {
    RunPrefix(Step, EMPTY, actions, k);
    Run(Step, EMPTY, actions[..k]).value
  }

  /** The counter is at least every stored number. */
  ghost predicate Covers(s: State) {
    forall n :: n in s.table ==> n <= s.counter
  }

  lemma {:induction false} AfterReached(actions: seq<Action>, k: nat)
    requires Run(Step, EMPTY, actions).Some? && k <= |actions|
    ensures Reaches(actions[..k], After(actions, k))
    ensures Run(Step, After(actions, k), actions[k..]) == Run(Step, EMPTY, actions)
  {
    RunPrefix(Step, EMPTY, actions, k);
  }

  lemma {:induction false} MisreadStays(s: State, actions: seq<Action>)
    requires s.misread && Run(Step, s, actions).Some?
    ensures Run(Step, s, actions).value.misread
  {
    var inv := (t: State) => t.misread;
    forall t, a | inv(t) && Step(t, a).Some?
      ensures inv(Step(t, a).value)
    {
    }
    RunKeeps(Step, inv, s, actions);
  }

  /** The restart that misreads a table with rows leaves the counter below the largest row, as all rows are positive. */
  lemma MisreadFallsBehind(actions: seq<Action>, s: State)
    requires Reaches(actions, s) && s.table != map[]
    ensures !Covers(Apply(s, Restart(None)))
  {
    EveryRun(actions, s);
    var n := SomeKey(s.table);
  }

  lemma {:induction false} NextAfter(actions: seq<Action>, k: nat)
    requires Run(Step, EMPTY, actions).Some? && k < |actions|
    ensures Enabled(After(actions, k), actions[k])
    ensures After(actions, k + 1) == Apply(After(actions, k), actions[k])
  {
    AfterReached(actions, k);
    assert actions[k..][0] == actions[k];
    assert actions[..k + 1] == actions[..k] + [actions[k]];
    RunThen(Step, EMPTY, actions[..k], actions[k]);
  }

  /** In a run that misread there is a moment at which the counter fell behind. */
  lemma {:induction false} MisreadMoment(actions: seq<Action>, k: nat) returns (j: nat)
    requires Run(Step, EMPTY, actions).Some? && k <= |actions| && After(actions, k).misread
    ensures j <= k && !Covers(After(actions, j))
    decreases k
  {
    assert actions[..0] == [];
    AfterReached(actions, k);
    if k == 0 {
      assert false;
    } else {
      NextAfter(actions, k - 1);
      AfterReached(actions, k - 1);
      if After(actions, k - 1).misread {
        j := MisreadMoment(actions, k - 1);
      } else {
        MisreadFallsBehind(actions[..k - 1], After(actions, k - 1));
        j := k;
      }
    }
  }

  /**
   Over a whole run: the counter was never below a stored number exactly if no restart misread a table
   with rows.
   */
  lemma CounterCovers(actions: seq<Action>, s: State)
    requires Reaches(actions, s)
    ensures (forall k :: 0 <= k <= |actions| ==> Covers(After(actions, k))) <==> !s.misread
  {
    assert actions[..|actions|] == actions;
    if s.misread {
      var j := MisreadMoment(actions, |actions|);
    } else {
      forall k | 0 <= k <= |actions|
        ensures Covers(After(actions, k))
      {
        AfterReached(actions, k);
        if After(actions, k).misread {
          MisreadStays(After(actions, k), actions[k..]);
        }
        EveryRun(actions[..k], After(actions, k));
      }
    }
  }

  // ---------------------------------------------------------------- numbers on the bus

  /** No two events were published under one number. */
  ghost predicate UniqueNumbers(s: State) {
    forall n, x, y :: (n, x) in s.published && (n, y) in s.published ==> x == y
  }

  /** The counter is at least every number published. */
  ghost predicate PastPublished(s: State) {
    forall n, x :: (n, x) in s.published ==> n <= s.counter
  }

  /** The steps of a sequencer whose restarts never fall behind what was published. */
  ghost function CarefulStep(s: State, a: Action): Option<State> {
    if Enabled(s, a) && (a.Restart? ==> PastPublished(Apply(s, a))) then Some(Apply(s, a)) else None
  }

  /** Published numbers are unique and behind the counter, and the numbered calls will publish new ones. */
  ghost predicate UniqueInv(s: State) {
    && UniqueNumbers(s) && PastPublished(s)
    && (forall c :: 0 <= c < |s.calls| && !s.calls[c].Ended? ==> s.calls[c].n <= s.counter)
    && (forall c, d :: 0 <= c < d < |s.calls| && !s.calls[c].Ended? && !s.calls[d].Ended? ==> s.calls[c].n != s.calls[d].n)
    && (forall c, x :: 0 <= c < |s.calls| && s.calls[c].Numbered? ==> (s.calls[c].n, x) !in s.published)
  }

  lemma StepKeepsUnique(s: State, a: Action)
    requires UniqueInv(s) && CarefulStep(s, a).Some?
    ensures UniqueInv(CarefulStep(s, a).value)
  {
    if a.Publish? || a.FailPublish? {
      SeenKeepsUnique(s, a);
      hide UniqueInv;
    } else if a.Add? {
      assert forall c :: 0 <= c < |s.calls| ==> Apply(s, a).calls[c] == s.calls[c];
    }
  }

  lemma SeenKeepsUnique(s: State, a: Action)
    requires UniqueInv(s) && Enabled(s, a) && (a.Publish? || a.FailPublish?)
    ensures UniqueInv(Apply(s, a))
  {
    assert forall n, x :: (n, x) in Apply(s, a).published ==> (n, x) in s.published || (n == s.calls[a.c].n && x == s.calls[a.c].evt);
  }

  /** In every run whose restarts never set the counter below a published number, no number is published twice. */
  lemma {:induction false} CarefulRunsAreUnique(actions: seq<Action>, s: State)
    requires Run(CarefulStep, EMPTY, actions) == Some(s)
    ensures UniqueNumbers(s)
  {
    forall s, a | UniqueInv(s) && CarefulStep(s, a).Some?
      ensures UniqueInv(CarefulStep(s, a).value)
    {
      StepKeepsUnique(s, a);
    }
    RunKeeps(CarefulStep, UniqueInv, EMPTY, actions);
  }

  lemma {:induction false} SameWithoutRestarts(s: State, actions: seq<Action>)
    requires Run(Step, s, actions).Some? && forall i :: 0 <= i < |actions| ==> !actions[i].Restart?
    ensures Run(CarefulStep, s, actions) == Run(Step, s, actions)
    decreases |actions|
  {
    if actions != [] {
      assert forall i :: 0 <= i < |actions[1..]| ==> actions[1..][i] == actions[i + 1];
      SameWithoutRestarts(Apply(s, actions[0]), actions[1..]);
    }
  }

  /** In particular one that never restarts. */
  lemma WithoutRestartsUnique(actions: seq<Action>, s: State)
    requires Reaches(actions, s) && forall i :: 0 <= i < |actions| ==> !actions[i].Restart?
    ensures UniqueNumbers(s)
  {
    SameWithoutRestarts(EMPTY, actions);
    CarefulRunsAreUnique(actions, s);
  }

  /** From a counter below `n` any event can be published under `n`, and its call is then the last one. */
  lemma {:induction false} Climb(s: State, n: int, y: Event) returns (run: seq<Action>, t: State)
    requires s.counter < n
    ensures Run(Step, s, run) == Some(t) && (n, y) in t.published && s.published <= t.published
    ensures t.table == s.table && t.misread == s.misread && t.conflict == s.conflict
    ensures |t.calls| > 0 && t.calls[|t.calls| - 1] == Published(n, y)
    ensures NoRestart(run)
    decreases n - s.counter
  {
    var next := Apply(s, Add(y));
    if s.counter + 1 < n {
      run, t := Climb(next, n, y);
    } else {
      t := Apply(next, Publish(|s.calls|));
      run := [Publish(|s.calls|)];
      RunNone(Step, t);
      RunOne(Step, next, run[0], []);
      assert run == [run[0]] + [];
    }
    RunOne(Step, s, Add(y), run);
    run := [Add(y)] + run;
  }

  /**
   A restart that sets the counter below a number published before, whether or not its read works,
   lets any event go out under that number again.
   */
  lemma RestartRepeatsANumber(s: State, n: int, x: Event, read: Option<int>, y: Event)
    returns (run: seq<Action>, t: State)
    requires (n, x) in s.published && Enabled(s, Restart(read)) && Apply(s, Restart(read)).counter < n
    ensures Run(Step, s, [Restart(read)] + run) == Some(t)
    ensures (n, x) in t.published && (n, y) in t.published
    ensures t.misread == Apply(s, Restart(read)).misread
  {
    run, t := Climb(Apply(s, Restart(read)), n, y);
    RunOne(Step, s, Restart(read), run);
  }

  /** Published numbers can be repeated after a restart exactly if it sets the counter below one of them. */
  lemma {:induction false} RepeatIffBehind(actions: seq<Action>, s: State, read: Option<int>)
    requires Run(CarefulStep, EMPTY, actions) == Some(s) && Enabled(s, Restart(read))
    ensures (exists run, t :: Run(Step, s, [Restart(read)] + run) == Some(t) && NoRestart(run) && !UniqueNumbers(t))
            <==> !PastPublished(Apply(s, Restart(read)))
  {
    var r := Apply(s, Restart(read));
    if PastPublished(r) {
      forall run, t | Run(Step, s, [Restart(read)] + run) == Some(t) && NoRestart(run)
        ensures UniqueNumbers(t)
      {
        RunOne(Step, s, Restart(read), run);
        RunOne(CarefulStep, s, Restart(read), run);
        SameWithoutRestarts(r, run);
        RunConcat(CarefulStep, EMPTY, actions, [Restart(read)] + run);
        CarefulRunsAreUnique(actions + ([Restart(read)] + run), t);
      }
    } else {
      var n, x :| (n, x) in s.published && n > r.counter;
      var run, t := Climb(r, n, x + 1);
      RunOne(Step, s, Restart(read), run);
      assert (n, x) in t.published && (n, x + 1) in t.published;
    }
  }

  predicate NoRestart(actions: seq<Action>) {
    forall i :: 0 <= i < |actions| ==> !actions[i].Restart?
  }

  /**
   Whenever the table has rows, a restart that cannot read it lets any event go out under the number of
   any row; its insert fails, and the rows are as they were.
   */
  lemma MisreadLosesAnEvent(actions: seq<Action>, s: State, n: int, y: Event) returns (run: seq<Action>, t: State)
    requires Reaches(actions, s) && n in s.table
    ensures Run(Step, s, [Restart(None)] + run) == Some(t)
    ensures (n, y) in t.published && t.conflict && t.misread && t.table == s.table
  {
    EveryRun(actions, s);
    var r := Apply(s, Restart(None));
    var climb, u := Climb(r, n, y);
    var store := Store(|u.calls| - 1);
    t := Apply(u, store);
    RunThen(Step, r, climb, store);
    run := climb + [store];
    RunOne(Step, s, Restart(None), run);
  }

  /** Such a repetition needs no failed read: one event published and not stored, a crash, and the next event. */
  lemma CrashRepeatsANumber(x: Event, y: Event) returns (run: seq<Action>, s: State)
    ensures Reaches(run, s) && !s.misread && (1, x) in s.published && (1, y) in s.published
  {
    var before, u := Climb(EMPTY, 1, x);
    var more;
    more, s := RestartRepeatsANumber(u, 1, x, None, y);
    run := before + ([Restart(None)] + more);
    RunConcat(Step, EMPTY, before, [Restart(None)] + more);
  }

  // ---------------------------------------------------------------- reading the rows in order

  /** `next`: the row with the least number after the cursor, or an error if there is none. */
  predicate IsNext(table: map<int, Event>, cursor: int, r: Option<int>) {
    match r
    case None => forall k :: k in table ==> k <= cursor
    case Some(n) => n in table && n > cursor && forall k :: k in table && k > cursor ==> n <= k
  }

  method Next(table: map<int, Event>, cursor: int) returns (r: Option<int>)
    ensures IsNext(table, cursor, r)
  {
    r := None;
    var left := table.Keys;
    while left != {}
      invariant left <= table.Keys
      invariant forall k :: k in table && k !in left && k > cursor ==> r.Some? && r.value <= k
      invariant r.Some? ==> r.value in table && r.value > cursor
      decreases |left|
    {
      var k := Pick(left);
      if k > cursor && (r.None? || k < r.value) {
        r := Some(k);
      }
      left := left - {k};
    }
  }

  predicate Increasing(ns: seq<int>) {
    forall i, j :: 0 <= i < j < |ns| ==> ns[i] < ns[j]
  }

  /** Following `next` from a cursor lists the rows after it once, in increasing order. */
  method Follow(table: map<int, Event>, start: int) returns (ns: seq<int>)
    ensures Increasing(ns)
    ensures forall n :: n in ns <==> n in table && n > start
  {
    ns := [];
    var cursor := start;
    var r := Next(table, cursor);
    ghost var left := set k | k in table && k > cursor;
    while r.Some?
      invariant IsNext(table, cursor, r) && cursor >= start
      invariant Increasing(ns) && forall i :: 0 <= i < |ns| ==> ns[i] <= cursor
      invariant forall n :: n in ns <==> n in table && start < n <= cursor
      invariant left == set k | k in table && k > cursor
      decreases left
    {
      ns := ns + [r.value];
      ghost var after := set k | k in table && k > r.value;
      assert after < left by {
        assert r.value in left && r.value !in after;
      }
      cursor, left := r.value, after;
      r := Next(table, cursor);
    }
  }
}
