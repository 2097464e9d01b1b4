/**
 `Ctrl.Do` as a step system: the caller, one goroutine for each job, the goroutine that closes the
 channel, an unbuffered channel, a wait group and a context. A job may return anything at any time;
 the context may be cancelled from outside at any time, and is cancelled when `Do` returns.
 */
module ParallelDo {
  import opened Wrappers
  import opened Steps

  datatype Error = Canceled | JobError(code: int)

  /** What a job returned: nil or an error. */
  type Res = Option<Error>

  datatype Worker =
    | NotStarted
    | Running
    | Sending(res: Res)                // at the select: cancelled, or somebody receives
    | Exiting(res: Res, sent: bool)    // past the select, before the wait group is told
    | Done(res: Res, sent: bool)

  datatype Main =
    | Starting(k: nat)                 // the next job to start
    | Receiving                        // at the head of the receive loop
    | Checking                         // received nil, about to look at the context
    | Returning(r: Res)                // before the deferred cancel
    | Returned(r: Res)

  datatype Closer = Waiting | Woken | Closed

  datatype State = State(
    workers: seq<Worker>,
    main: Main,
    closer: Closer,
    wg: nat,
    closed: bool,
    cancelled: bool,
    outside: bool)                     // it was cancelled from outside

  datatype Action =
    | StartJob
    | StartReceiving
    | JobReturns(i: nat, res: Res)
    | SeeCancel(i: nat)
    | Deliver(i: nat)
    | WgDone(i: nat)
    | Wake
    | Close
    | ReceiveClosed
    | Check
    | Cancel
    | CancelOutside

  function Init(n: nat): State {
    State(seq(n, i => NotStarted), Starting(0), Waiting, n, false, false, false)
  }

  predicate Enabled(s: State, a: Action) {
    match a
    case StartJob => s.main.Starting? && s.main.k < |s.workers| && s.workers[s.main.k].NotStarted?
    case StartReceiving => s.main == Starting(|s.workers|)
    case JobReturns(i, _) => i < |s.workers| && s.workers[i].Running?
    case SeeCancel(i) => i < |s.workers| && s.workers[i].Sending? && s.cancelled
    case Deliver(i) => i < |s.workers| && s.workers[i].Sending? && s.main.Receiving? && !s.closed
    case WgDone(i) => i < |s.workers| && s.workers[i].Exiting? && s.wg > 0
    case Wake => s.closer.Waiting? && s.wg == 0
    case Close => s.closer.Woken? && !s.closed
    case ReceiveClosed => s.main.Receiving? && s.closed
    case Check => s.main.Checking?
    case Cancel => s.main.Returning?
    case CancelOutside => !s.cancelled
  }

  function Apply(s: State, a: Action): State
    requires Enabled(s, a)
  {
    match a
    case StartJob => s.(workers := s.workers[s.main.k := Running], main := Starting(s.main.k + 1))
    case StartReceiving => s.(main := Receiving)
    case JobReturns(i, res) => s.(workers := s.workers[i := Sending(res)])
    case SeeCancel(i) => s.(workers := s.workers[i := Exiting(s.workers[i].res, false)])
    case Deliver(i) =>
      s.(workers := s.workers[i := Exiting(s.workers[i].res, true)],
         main := if s.workers[i].res.Some? then Returning(s.workers[i].res) else Checking)
    case WgDone(i) => s.(workers := s.workers[i := Done(s.workers[i].res, s.workers[i].sent)], wg := s.wg - 1)
    case Wake => s.(closer := Woken)
    case Close => s.(closer := Closed, closed := true)
    case ReceiveClosed => s.(main := Returning(None))
    case Check => s.(main := if s.cancelled then Returning(Some(Canceled)) else Receiving)
    case Cancel => s.(main := Returned(s.main.r), cancelled := true)
    case CancelOutside => s.(cancelled := true, outside := true)
  }

  function Step(s: State, a: Action): Option<State> {
    if Enabled(s, a) then Some(Apply(s, a)) else None
  }

  // ---------------------------------------------------------------- the invariant

  function Unfinished(w: Worker): nat {
    if w.Done? then 0 else 1
  }

  predicate Finished(w: Worker) {
    w.Exiting? || w.Done?
  }

  predicate HasResult(s: State) {
    s.main.Returning? || s.main.Returned?
  }

  /** The wait group counts the workers, and the flags agree with where each goroutine is. */
  predicate CountInv(s: State) {
    && s.wg == Sum(s.workers, Unfinished)
    && (s.closed <==> s.closer.Closed?)
    && (!s.closer.Waiting? ==> s.wg == 0)
    && (s.main.Starting? ==> s.main.k <= |s.workers|)
    && (forall i :: 0 <= i < |s.workers| ==> (s.workers[i].NotStarted? <==> s.main.Starting? && i >= s.main.k))
    && (s.outside || s.main.Returned? <==> s.cancelled)
  }

  predicate FlowInv(s: State) {
    && (forall i :: 0 <= i < |s.workers| ==> WorkerInv(s, s.workers[i]))
    && (HasResult(s) ==> ResultInv(s))
  }

  predicate Inv(s: State) {
    CountInv(s) && FlowInv(s)
  }

  /** A job's result is dropped only after a cancellation, and an error that is sent is what `Do` returns. */
  predicate WorkerInv(s: State, w: Worker) {
    && (Finished(w) && !w.sent ==> s.cancelled)
    && (Finished(w) && w.sent && w.res.Some? ==> HasResult(s) && s.main.r == w.res)
  }

  /** What stands behind the result of `Do`. */
  predicate ResultInv(s: State)
    requires HasResult(s)
  {
    match s.main.r
    case None =>
      forall i :: 0 <= i < |s.workers| ==>
        s.workers[i].Done? && (s.workers[i].res.None? || (!s.workers[i].sent && s.outside))
    case Some(e) =>
      (exists i :: 0 <= i < |s.workers| && Finished(s.workers[i]) && s.workers[i].sent && s.workers[i].res == Some(e))
      || (e == Canceled && s.outside)
  }

  lemma StepKeepsCount(s: State, a: Action)
    requires CountInv(s) && Enabled(s, a)
    ensures CountInv(Apply(s, a))
  {
    hide Sum;
    var t := Apply(s, a);
    match a {
      case StartJob => SumUpdate(s.workers, s.main.k, Running, Unfinished);
      case JobReturns(i, res) => SumUpdate(s.workers, i, t.workers[i], Unfinished);
      case SeeCancel(i) => SumUpdate(s.workers, i, t.workers[i], Unfinished);
      case Deliver(i) => SumUpdate(s.workers, i, t.workers[i], Unfinished);
      case WgDone(i) => SumUpdate(s.workers, i, t.workers[i], Unfinished);
      case _ =>
    }
  }

  /** A job that is past its select keeps its result. */
  predicate FinishedStay(s: State, t: State) {
    && |t.workers| == |s.workers|
    && forall i :: 0 <= i < |s.workers| && Finished(s.workers[i]) ==>
         Finished(t.workers[i]) && t.workers[i].res == s.workers[i].res && t.workers[i].sent == s.workers[i].sent
  }

  lemma StepStays(s: State, a: Action)
    requires Enabled(s, a)
    ensures FinishedStay(s, Apply(s, a))
  {
  }

  lemma StepKeepsWorkers(s: State, a: Action)
    requires Inv(s) && Enabled(s, a)
    ensures forall i :: 0 <= i < |s.workers| ==> WorkerInv(Apply(s, a), Apply(s, a).workers[i])
  {
    hide Sum, ResultInv;
    var t := Apply(s, a);
    forall i | 0 <= i < |s.workers|
      ensures WorkerInv(t, t.workers[i])
    {
      assert WorkerInv(s, s.workers[i]);
    }
  }

  lemma StepKeepsResult(s: State, a: Action)
    requires Inv(s) && Enabled(s, a)
    ensures HasResult(Apply(s, a)) ==> ResultInv(Apply(s, a))
  {
    hide Sum;
    var t := Apply(s, a);
    StepStays(s, a);
    if a.Deliver? {
      assert Finished(t.workers[a.i]) && t.workers[a.i].sent;
    } else if a.ReceiveClosed? {
      SumZero(s.workers, Unfinished);
      forall i | 0 <= i < |s.workers|
        ensures s.workers[i].res.None? || (!s.workers[i].sent && s.outside)
      {
        assert WorkerInv(s, s.workers[i]);
      }
    } else {
      hide WorkerInv;
    }
  }

  lemma StepKeepsFlow(s: State, a: Action)
    requires Inv(s) && Enabled(s, a)
    ensures FlowInv(Apply(s, a))
  {
    StepStays(s, a);
    StepKeepsWorkers(s, a);
    StepKeepsResult(s, a);
    hide Inv, WorkerInv, ResultInv;
  }

  /** Every step keeps the invariant. */
  lemma StepKeepsInv(s: State, a: Action)
    requires Inv(s) && Enabled(s, a)
    ensures Inv(Apply(s, a))
  {
    StepKeepsCount(s, a);
    StepKeepsFlow(s, a);
  }

  // ---------------------------------------------------------------- no goroutine is stuck

  /** Everybody has finished. */
  predicate Final(s: State) {
    && s.main.Returned?
    && s.closer.Closed?
    && forall i :: 0 <= i < |s.workers| ==> s.workers[i].Done?
  }

  /** Some goroutine would panic: it is about to send and the channel is closed. */
  predicate SendsOnClosed(s: State) {
    s.closed && exists i :: 0 <= i < |s.workers| && s.workers[i].Sending?
  }

  /** Until everybody has finished some goroutine can step, given that jobs return. */
  lemma Progress(s: State) returns (a: Action)
    requires Inv(s) && !Final(s)
    ensures Enabled(s, a) && a != CancelOutside
  {
    if s.main.Starting? {
      return if s.main.k < |s.workers| then StartJob else StartReceiving;
    }
    if s.main.Checking? {
      return Check;
    }
    if s.main.Returning? {
      return Cancel;
    }
    if s.closer.Woken? {
      return Close;
    }
    if s.wg == 0 {
      SumZero(s.workers, Unfinished);
      return if s.closer.Waiting? then Wake else ReceiveClosed;
    }
    var i := SumPositive(s.workers, Unfinished);
    match s.workers[i] {
      case Running => return JobReturns(i, None);
      case Exiting(_, _) => return WgDone(i);
      case Sending(_) => return if s.main.Receiving? then Deliver(i) else SeeCancel(i);
    }
  }

  // ---------------------------------------------------------------- termination

  function WorkerRank(w: Worker): nat {
    match w
    case NotStarted => 4
    case Running => 3
    case Sending(_) => 2
    case Exiting(_, _) => 1
    case Done(_, _) => 0
  }

  function MainRank(s: State): nat {
    match s.main
    case Starting(k) => if k <= |s.workers| then 4 + |s.workers| - k else 0
    case Receiving => 2
    case Checking => 3
    case Returning(_) => 1
    case Returned(_) => 0
  }

  function Rank(s: State): nat {
    4 * Sum(s.workers, WorkerRank) + MainRank(s)
    + (if s.closer.Waiting? then 2 else if s.closer.Woken? then 1 else 0)
    + (if s.cancelled then 0 else 1)
  }

  /** Every step, the outside cancellation included, lowers the rank. */
  lemma StepLowersRank(s: State, a: Action)
    requires CountInv(s) && Enabled(s, a)
    ensures Rank(Apply(s, a)) < Rank(s)
  {
    hide Sum;
    var t := Apply(s, a);
    match a {
      case StartJob => SumUpdate(s.workers, s.main.k, Running, WorkerRank);
      case JobReturns(i, res) => SumUpdate(s.workers, i, t.workers[i], WorkerRank);
      case SeeCancel(i) => SumUpdate(s.workers, i, t.workers[i], WorkerRank);
      case Deliver(i) => SumUpdate(s.workers, i, t.workers[i], WorkerRank);
      case WgDone(i) => SumUpdate(s.workers, i, t.workers[i], WorkerRank);
      case _ =>
    }
  }

  // ---------------------------------------------------------------- whole runs

  predicate InvFor(n: nat, s: State) {
    Inv(s) && |s.workers| == n
  }

  /** `s` is reached from the start with `n` jobs by some interleaving of `actions`. */
  predicate Reaches(n: nat, actions: seq<Action>, s: State) {
    Run(Step, Init(n), actions) == Some(s)
  }

  lemma RunFromInit(n: nat, actions: seq<Action>, s: State)
    requires Reaches(n, actions, s)
    ensures InvFor(n, s)
    ensures |actions| + Rank(s) <= Rank(Init(n))
  {
    SumConstant(Init(n).workers, Unfinished, 1);
    var inv := s => InvFor(n, s);
    forall s, a | inv(s) && Step(s, a).Some?
      ensures inv(Step(s, a).value) && Rank(Step(s, a).value) < Rank(s)
    {
      StepKeepsInv(s, a);
      StepLowersRank(s, a);
    }
    RunKeeps(Step, inv, Init(n), actions);
    RunLowers(Step, inv, Rank, Init(n), actions);
  }

  /** No more step is possible, not even for want of a receiver; only the outside may still cancel. */
  ghost predicate Quiet(s: State) {
    forall a :: a != CancelOutside ==> !Enabled(s, a)
  }

  /**
   Safety and termination of `Do`, over every interleaving: nothing is sent on the closed channel,
   no run is longer than a bound on the number of jobs, and a run that can go no further has
   returned to the caller and left no goroutine behind.
   */
  lemma EveryRun(n: nat, actions: seq<Action>, s: State)
    requires Reaches(n, actions, s)
    ensures !SendsOnClosed(s)
    ensures |actions| <= 17 * n + 7
    ensures Final(s) <==> Quiet(s)
  {
    RunFromInit(n, actions, s);
    if s.closed {
      SumZero(s.workers, Unfinished);
    }
    SumBound(Init(n).workers, WorkerRank, 4);
    if !Final(s) {
      var a := Progress(s);
      assert !Quiet(s);
    }
  }

  /** Job `i` has returned `res`. */
  predicate JobReturned(s: State, i: nat, res: Res)
    requires i < |s.workers|
  {
    (s.workers[i].Sending? || Finished(s.workers[i])) && s.workers[i].res == res
  }

  /**
   Results: without a cancellation from outside, `Do` returns nil exactly when every job ran and
   returned nil, and an error it returns is some job's.
   */
  lemma ResultOfDo(n: nat, actions: seq<Action>, s: State)
    requires Reaches(n, actions, s)
    requires HasResult(s) && !s.outside
    ensures |s.workers| == n
    ensures s.main.r == None <==> forall i :: 0 <= i < n ==> JobReturned(s, i, None)
    ensures s.main.r.Some? ==> exists i :: 0 <= i < n && JobReturned(s, i, s.main.r)
  {
    RunFromInit(n, actions, s);
    if s.main.r.Some? {
      var i :| 0 <= i < |s.workers| && Finished(s.workers[i]) && s.workers[i].sent && s.workers[i].res == s.main.r;
      assert JobReturned(s, i, s.main.r) && !JobReturned(s, i, None);
    }
  }

  /** With a cancellation from outside a nil result may hide failures, but only dropped ones. */
  lemma NilResultOfDo(n: nat, actions: seq<Action>, s: State, i: nat)
    requires Reaches(n, actions, s) && i < n
    requires HasResult(s) && s.main.r == None
    ensures |s.workers| == n && s.workers[i].Done?
    ensures s.workers[i].res.Some? ==> s.outside && !s.workers[i].sent
  {
    RunFromInit(n, actions, s);
  }

  lemma Then(n: nat, actions: seq<Action>, s: State, a: Action, t: State) returns (more: seq<Action>)
    requires Reaches(n, actions, s) && Enabled(s, a) && Apply(s, a) == t
    ensures more == actions + [a] && Reaches(n, more, t)
  {
    RunThen(Step, Init(n), actions, a);
    more := actions + [a];
  }

  lemma Start(n: nat)
    ensures Reaches(n, [], Init(n))
  {
    RunNone(Step, Init(n));
  }

  /** The first `k` of `n` goroutines are started. */
  function Started(n: nat, k: nat): State {
    Init(n).(workers := seq(n, i => if i < k then Running else NotStarted), main := Starting(k))
  }

  lemma {:induction false} StartAll(n: nat, k: nat) returns (run: seq<Action>)
    requires k <= n
    ensures Reaches(n, run, Started(n, k))
  {
    if k == 0 {
      Start(n);
      assert Started(n, 0) == Init(n);
      run := [];
    } else {
      run := StartAll(n, k - 1);
      var s := Started(n, k - 1);
      assert s.workers[k - 1 := Running] == Started(n, k).workers;
      run := Then(n, run, s, StartJob, Started(n, k));
    }
  }

  /** The first `k` jobs have ended with their results dropped, as the context is cancelled. */
  function Dropped(results: seq<Res>, k: nat): State
    requires k <= |results|
  {
    var n := |results|;
    State(seq(n, i requires 0 <= i < n => if i < k then Done(results[i], false) else Running),
          Receiving, Waiting, n - k, false, true, true)
  }

  /** One more job returns, sees the cancellation and ends. */
  lemma DropOne(results: seq<Res>, k: nat, run: seq<Action>) returns (more: seq<Action>)
    requires k < |results| && Reaches(|results|, run, Dropped(results, k))
    ensures Reaches(|results|, more, Dropped(results, k + 1))
  {
    hide Reaches;
    var n, s, r := |results|, Dropped(results, k), results[k];
    var s1 := s.(workers := s.workers[k := Sending(r)]);
    var s2 := s.(workers := s.workers[k := Exiting(r, false)]);
    more := Then(n, run, s, JobReturns(k, r), s1);
    assert s1.workers[k := Exiting(r, false)] == s2.workers;
    more := Then(n, more, s1, SeeCancel(k), s2);
    assert s2.workers[k := Done(r, false)] == Dropped(results, k + 1).workers;
    more := Then(n, more, s2, WgDone(k), Dropped(results, k + 1));
  }

  lemma {:induction false} DropAll(results: seq<Res>, k: nat) returns (run: seq<Action>)
    requires k <= |results|
    ensures Reaches(|results|, run, Dropped(results, k))
  {
    var n := |results|;
    if k == 0 {
      run := StartAll(n, n);
      var s := Started(n, n).(main := Receiving);
      run := Then(n, run, Started(n, n), StartReceiving, s);
      assert s.workers == Dropped(results, 0).workers;
      run := Then(n, run, s, CancelOutside, Dropped(results, 0));
    } else {
      run := DropAll(results, k - 1);
      run := DropOne(results, k - 1, run);
    }
  }

  /**
   And it may hide any: for every list of jobs and whatever they return, there is a run, cancelled from
   outside, in which every job returns that and `Do` returns nil.
   */
  lemma CancelledFailureReturnsNil(results: seq<Res>) returns (run: seq<Action>, s: State)
    ensures Reaches(|results|, run, s) && s.main == Returned(None) && Final(s)
    ensures |s.workers| == |results| && forall i :: 0 <= i < |results| ==> JobReturned(s, i, results[i])
  {
    hide Reaches;
    var n := |results|;
    run := DropAll(results, n);
    var s6 := Dropped(results, n);
    var s7 := s6.(closer := Woken);
    var s8 := s7.(closer := Closed, closed := true);
    var s9 := s8.(main := Returning(None));
    s := s9.(main := Returned(None));
    run := Then(n, run, s6, Wake, s7);
    run := Then(n, run, s7, Close, s8);
    run := Then(n, run, s8, ReceiveClosed, s9);
    run := Then(n, run, s9, Cancel, s);
  }

  /** Some job returned an error. */
  predicate SomeFailed(s: State) {
    exists i :: 0 <= i < |s.workers| && s.workers[i].Done? && s.workers[i].res.Some?
  }

  /**
   The guard is exact: among the runs of n jobs that return nil there is one in which a job failed
   exactly if there is a job and cancellations from outside are allowed.
   */
  lemma NilHidesFailure(n: nat, mayCancel: bool)
    ensures (exists actions, s :: Reaches(n, actions, s) && HasResult(s) && s.main.r == None
                                  && (s.outside ==> mayCancel) && SomeFailed(s))
            <==> n >= 1 && mayCancel
  {
    if n >= 1 && mayCancel {
      var results: seq<Res> := seq(n, i => Some(JobError(0)));
      var run, s := CancelledFailureReturnsNil(results);
      assert JobReturned(s, 0, results[0]);
      assert s.workers[0].Done?;
    } else {
      forall actions, s | Reaches(n, actions, s) && HasResult(s) && s.main.r == None && (s.outside ==> mayCancel)
        ensures !SomeFailed(s)
      {
        RunFromInit(n, actions, s);
      }
    }
    hide Reaches;
  }
}
