/**
 The invite step of `CreateAccount`: in one transaction one job checks that an invite is available
 and another records its use, in either order. Transactions come one after the other.
 */
module Invites {
  import opened Wrappers
  import opened Steps
  import ParallelDo

  /** A row of `invite_code` whose owner is not taken down. */
  datatype Invite = Invite(availableUses: int, disabled: bool)

  /** The tables; the key of `invite_code_use` is the code and the account. */
  datatype Store = Store(invites: map<string, Invite>, uses: set<(string, string)>)

  /** `SELECT COUNT(*) FROM invite_code_use WHERE code = ?`. */
  function UsesOf(s: Store, code: string): nat {
    |Users(s, code)|
  }

  function Users(s: Store, code: string): set<(string, string)> {
    set u | u in s.uses && u.0 == code
  }

  // ---------------------------------------------------------------- one transaction

  /** The three statements in the order the two jobs happen to run them. */
  datatype Order = RecordFirst | RecordBetween | RecordLast

  /** The first statement of the check. */
  function LookupPasses(s: Store, code: string): bool {
    code in s.invites && !s.invites[code].disabled && s.invites[code].availableUses > 0
  }

  /** The second statement of the check. */
  function CountPasses(s: Store, code: string): bool
    requires code in s.invites
  {
    s.invites[code].availableUses > UsesOf(s, code)
  }

  /** The recording: it does nothing for an empty code, and fails if the account has used the code. */
  function Record(s: Store, did: string, code: string): Option<Store> {
    if code == "" then Some(s)
    else if (code, did) in s.uses then None
    else Some(s.(uses := s.uses + {(code, did)}))
  }

  /** One attempt. `failureDropped` says that the jobs were cancelled and lost the error of one of them. */
  datatype Attempt = Attempt(did: string, code: string, order: Order, failureDropped: bool)

  datatype Outcome = Outcome(store: Store, checked: bool, recorded: bool)

  /** The statements of an attempt, run to the end. */
  function Statements(s: Store, a: Attempt): Outcome {
    var lookup := LookupPasses(s, a.code);
    match Record(s, a.did, a.code)
    case None => Outcome(s, lookup && CountPasses(s, a.code), false)
    case Some(t) =>
      var counted := if a.order == RecordLast then s else t;
      Outcome(t, lookup && CountPasses(counted, a.code), true)
  }

  /** The transaction commits if both jobs succeeded, or their failure was lost; otherwise it is rolled back. */
  function Committed(s: Store, a: Attempt): bool {
    var o := Statements(s, a);
    (o.checked && o.recorded) || a.failureDropped
  }

  function Apply(s: Store, a: Attempt): Store {
    if Committed(s, a) then Statements(s, a).store else s
  }

  /** A new account uses a code that is not empty, and no failure is lost. */
  predicate Regular(s: Store, a: Attempt) {
    a.code != "" && (a.code, a.did) !in s.uses && !a.failureDropped
  }

  lemma OneMoreUse(s: Store, did: string, code: string)
    requires (code, did) !in s.uses
    ensures UsesOf(s.(uses := s.uses + {(code, did)}), code) == UsesOf(s, code) + 1
  {
    assert Users(s.(uses := s.uses + {(code, did)}), code) == Users(s, code) + {(code, did)};
  }

  /**
   An attempt by a new account with an enabled invite of k uses: with k - 2 or fewer used it passes,
   with k - 1 it passes exactly if the count comes before the recording, and with k it never does.
   */
  lemma WhoPasses(s: Store, a: Attempt)
    requires Regular(s, a) && LookupPasses(s, a.code)
    ensures var k, used := s.invites[a.code].availableUses, UsesOf(s, a.code);
            && (used <= k - 2 ==> Committed(s, a))
            && (used == k - 1 ==> (Committed(s, a) <==> a.order == RecordLast))
            && (used >= k ==> !Committed(s, a))
  {
    OneMoreUse(s, a.did, a.code);
  }

  // ---------------------------------------------------------------- any number of attempts

  function Step(s: Store, a: Attempt): Option<Store> {
    Some(Apply(s, a))
  }

  /** The same, but only for attempts whose failures are not lost. */
  function UncancelledStep(s: Store, a: Attempt): Option<Store> {
    if a.failureDropped then None else Step(s, a)
  }

  /** No invite that exists has been used more often than it may be. */
  predicate WithinLimit(s: Store) {
    forall code :: code in s.invites ==> UsesOf(s, code) <= MaxUses(s.invites[code])
  }

  function MaxUses(i: Invite): int {
    if i.availableUses > 0 then i.availableUses else 0
  }

  lemma AttemptKeepsLimit(s: Store, a: Attempt)
    requires WithinLimit(s) && !a.failureDropped
    ensures WithinLimit(Apply(s, a)) && Apply(s, a).invites == s.invites
  {
    var t := Apply(s, a);
    if t != s {
      OneMoreUse(s, a.did, a.code);
      forall code | code in t.invites
        ensures UsesOf(t, code) <= MaxUses(t.invites[code])
      {
        if code != a.code {
          assert Users(t, code) == Users(s, code);
        }
      }
    }
  }

  /** Over any attempts without a lost failure, by new and old accounts, no invite is used more often than it may be. */
  lemma {:induction false} NeverOverused(s: Store, attempts: seq<Attempt>)
    requires WithinLimit(s) && Run(UncancelledStep, s, attempts).Some?
    ensures WithinLimit(Run(UncancelledStep, s, attempts).value)
    ensures Run(UncancelledStep, s, attempts).value.invites == s.invites
  {
    var inv := (t: Store) => WithinLimit(t) && t.invites == s.invites;
    forall t, a | inv(t) && UncancelledStep(t, a).Some?
      ensures inv(UncancelledStep(t, a).value)
    {
      AttemptKeepsLimit(t, a);
    }
    RunKeeps(UncancelledStep, inv, s, attempts);
  }

  /** A use is about to be recorded that the invite no longer allows. */
  predicate OneTooMany(s: Store, a: Attempt) {
    && a.code != "" && (a.code, a.did) !in s.uses
    && a.code in s.invites && UsesOf(s, a.code) == MaxUses(s.invites[a.code])
  }

  /** An attempt leaves an invite overused exactly if it records one use too many and the failure of the check is lost. */
  lemma OverusedIffLost(s: Store, a: Attempt)
    requires WithinLimit(s)
    ensures WithinLimit(Apply(s, a)) <==> !(a.failureDropped && OneTooMany(s, a))
  {
    var t := Apply(s, a);
    if !a.failureDropped {
      AttemptKeepsLimit(s, a);
    } else if t != s {
      OneMoreUse(s, a.did, a.code);
      forall code | code in t.invites && code != a.code
        ensures UsesOf(t, code) <= MaxUses(t.invites[code])
      {
        assert Users(t, code) == Users(s, code);
      }
    }
  }

  // ---------------------------------------------------------------- the jobs of the transaction

  /**
   What the jobs of the transaction return to `Do`: those put before, the check and the recording, and
   those put behind.
   */
  function JobResults(before: seq<ParallelDo.Res>, o: Outcome, after: seq<ParallelDo.Res>): seq<ParallelDo.Res> {
    before
    + [if o.checked then None else Some(ParallelDo.JobError(|before|)),
       if o.recorded then None else Some(ParallelDo.JobError(|before| + 1))]
    + after
  }

  predicate AllNil(results: seq<ParallelDo.Res>) {
    forall r <- results :: r == None
  }

  /** In this run of `Do` no job has returned anything but its result. */
  ghost predicate Returns(s: ParallelDo.State, results: seq<ParallelDo.Res>) {
    forall i: nat, res :: i < |s.workers| && i < |results| && ParallelDo.JobReturned(s, i, res) ==> res == results[i]
  }

  /**
   Where `failureDropped` is false: if nobody cancels, `Do` returns nil exactly if both jobs and all the
   others succeeded.
   */
  lemma NilMeansBoth(before: seq<ParallelDo.Res>, o: Outcome, after: seq<ParallelDo.Res>,
                     actions: seq<ParallelDo.Action>, s: ParallelDo.State)
    requires var results := JobResults(before, o, after);
             ParallelDo.Reaches(|results|, actions, s) && ParallelDo.HasResult(s) && !s.outside && Returns(s, results)
    ensures s.main.r == None <==> o.checked && o.recorded && AllNil(before) && AllNil(after)
  {
    hide ParallelDo.Reaches;
    var results := JobResults(before, o, after);
    ParallelDo.ResultOfDo(|results|, actions, s);
    ResultsNil(before, o, after);
    if s.main.r == None {
      forall i | 0 <= i < |results|
        ensures results[i] == None
      {
        assert ParallelDo.JobReturned(s, i, None);
      }
    } else {
      var i :| 0 <= i < |results| && ParallelDo.JobReturned(s, i, s.main.r);
      assert results[i] == s.main.r && results[i] in results;
    }
  }

  lemma ResultsNil(before: seq<ParallelDo.Res>, o: Outcome, after: seq<ParallelDo.Res>)
    ensures AllNil(JobResults(before, o, after)) <==> o.checked && o.recorded && AllNil(before) && AllNil(after)
  {
    var results, n := JobResults(before, o, after), |before|;
    assert results[..n] == before && results[n + 2..] == after;
    assert results[n].None? == o.checked && results[n + 1].None? == o.recorded;
    assert forall r <- before :: r in results;
    assert forall r <- after :: r in results;
    if AllNil(results) {
      assert results[n] in results && results[n + 1] in results;
    }
  }

  /** Where it is true: for any outcome of the two jobs and the others a cancelled run can return nil. */
  lemma NilAfterCancellation(before: seq<ParallelDo.Res>, o: Outcome, after: seq<ParallelDo.Res>)
    returns (actions: seq<ParallelDo.Action>, s: ParallelDo.State)
    ensures var results := JobResults(before, o, after);
            ParallelDo.Reaches(|results|, actions, s) && s.main == ParallelDo.Returned(None) && Returns(s, results)
  {
    actions, s := ParallelDo.CancelledFailureReturnsNil(JobResults(before, o, after));
  }

  /** An invite whose code is empty is never used up: each attempt passes and none is recorded. */
  lemma EmptyCodeIsNeverRecorded(s: Store, a: Attempt)
    requires a.code == "" && LookupPasses(s, "") && UsesOf(s, "") == 0
    ensures Committed(s, a) && Apply(s, a) == s
  {
  }
}
