/**
 `Ctrl.Map` as a step system: one goroutine for each element looks at the context, runs the job and
 writes its slot of the results, or sends an error on an unbuffered channel. A job may return
 anything at any time; the context may be cancelled from outside at any time, and is cancelled when
 `Map` returns.
 */
module ParallelMap {
  import opened Wrappers
  import opened Steps

  /** An output is known by its number; 0 is the zero value of the output type. */
  type Output = int

  datatype Error = Canceled | JobError(code: int)

  datatype JobResult = Value(v: Output) | Failure(e: Error)

  /** How a goroutine ended. */
  datatype End =
    | Wrote(v: Output)
    | SentError(e: Error)
    | SentCanceled
    | Dropped(e: Error)                // the job failed, and the cancellation was chosen over the send

  datatype Worker =
    | NotStarted
    | Deciding                         // at the first select
    | Running
    | SendingCanceled                  // sends the context's error, with no way out
    | Sending(e: Error)                // at the second select: cancelled, or somebody receives
    | Writing(v: Output)
    | Exiting(end: End)                // before the wait group is told
    | Done(end: End)

  datatype Main =
    | Starting(k: nat)                 // the next job to start
    | Receiving                        // at the head of the receive loop
    | Returning(r: Option<Error>)      // before the deferred cancel
    | Returned(r: Option<Error>)

  datatype Closer = Waiting | Woken | Closed

  datatype State = State(
    workers: seq<Worker>,
    results: seq<Output>,
    main: Main,
    closer: Closer,
    wg: nat,
    closed: bool,
    cancelled: bool,
    outside: bool)                     // it was cancelled from outside

  datatype Action =
    | StartJob
    | StartReceiving
    | Decide(i: nat)
    | JobReturns(i: nat, res: JobResult)
    | Write(i: nat)
    | SeeCancel(i: nat)
    | Deliver(i: nat)
    | WgDone(i: nat)
    | Wake
    | Close
    | ReceiveClosed
    | Cancel
    | CancelOutside

  function Init(n: nat): State {
    State(seq(n, i => NotStarted), seq(n, i => 0), Starting(0), Waiting, n, false, false, false)
  }

  /** Blocked in a send until somebody receives. */
  predicate IsSending(w: Worker) {
    w.Sending? || w.SendingCanceled?
  }

  predicate Enabled(s: State, a: Action) {
    match a
    case StartJob => s.main.Starting? && s.main.k < |s.workers| && s.workers[s.main.k].NotStarted?
    case StartReceiving => s.main == Starting(|s.workers|)
    case Decide(i) => i < |s.workers| && s.workers[i].Deciding?
    case JobReturns(i, _) => i < |s.workers| && s.workers[i].Running?
    case Write(i) => i < |s.workers| && i < |s.results| && s.workers[i].Writing?
    case SeeCancel(i) => i < |s.workers| && s.workers[i].Sending? && s.cancelled
    case Deliver(i) => i < |s.workers| && IsSending(s.workers[i]) && s.main.Receiving? && !s.closed
    case WgDone(i) => i < |s.workers| && s.workers[i].Exiting? && s.wg > 0
    case Wake => s.closer.Waiting? && s.wg == 0
    case Close => s.closer.Woken? && !s.closed
    case ReceiveClosed => s.main.Receiving? && s.closed
    case Cancel => s.main.Returning?
    case CancelOutside => !s.cancelled
  }

  function Apply(s: State, a: Action): State
    requires Enabled(s, a)
  {
    match a
    case StartJob => s.(workers := s.workers[s.main.k := Deciding], main := Starting(s.main.k + 1))
    case StartReceiving => s.(main := Receiving)
    case Decide(i) => s.(workers := s.workers[i := if s.cancelled then SendingCanceled else Running])
    case JobReturns(i, res) => s.(workers := s.workers[i := if res.Value? then Writing(res.v) else Sending(res.e)])
    case Write(i) =>
      s.(workers := s.workers[i := Exiting(Wrote(s.workers[i].v))], results := s.results[i := s.workers[i].v])
    case SeeCancel(i) => s.(workers := s.workers[i := Exiting(Dropped(s.workers[i].e))])
    case Deliver(i) =>
      if s.workers[i].Sending? then
        s.(workers := s.workers[i := Exiting(SentError(s.workers[i].e))], main := Returning(Some(s.workers[i].e)))
      else
        s.(workers := s.workers[i := Exiting(SentCanceled)], main := Returning(Some(Canceled)))
    case WgDone(i) => s.(workers := s.workers[i := Done(s.workers[i].end)], wg := s.wg - 1)
    case Wake => s.(closer := Woken)
    case Close => s.(closer := Closed, closed := true)
    case ReceiveClosed => s.(main := Returning(None))
    case Cancel => s.(main := Returned(s.main.r), cancelled := true)
    case CancelOutside => s.(cancelled := true, outside := true)
  }

  function Step(s: State, a: Action): Option<State> {
    if Enabled(s, a) then Some(Apply(s, a)) else None
  }

  // ---------------------------------------------------------------- the invariant

  function Unfinished(w: Worker): nat {
    if w.Done? then 0 else 1
  }

  predicate Finished(w: Worker) {
    w.Exiting? || w.Done?
  }

  predicate HasResult(s: State) {
    s.main.Returning? || s.main.Returned?
  }

  /** The wait group counts the workers, and the flags agree with where each goroutine is. */
  predicate CountInv(s: State) {
    && s.wg == Sum(s.workers, Unfinished)
    && |s.results| == |s.workers|
    && (s.closed <==> s.closer.Closed?)
    && (!s.closer.Waiting? ==> s.wg == 0)
    && (s.main.Starting? ==> s.main.k <= |s.workers|)
    && (forall i :: 0 <= i < |s.workers| ==> (s.workers[i].NotStarted? <==> s.main.Starting? && i >= s.main.k))
    && (s.outside || s.main.Returned? <==> s.cancelled)
  }

  /** What worker `w` has done to its slot `out` and to the caller. */
  predicate WorkerInv(s: State, w: Worker, out: Output) {
    && (w.SendingCanceled? ==> s.cancelled)
    && out == (if Finished(w) && w.end.Wrote? then w.end.v else 0)
    && (Finished(w) ==>
          match w.end
          case Wrote(_) => true
          case Dropped(_) => s.cancelled
          case SentError(e) => HasResult(s) && s.main.r == Some(e)
          case SentCanceled => s.outside && HasResult(s) && s.main.r == Some(Canceled))
  }

  /** What stands behind the result of `Map`. */
  predicate ResultInv(s: State)
    requires HasResult(s)
  {
    match s.main.r
    case None =>
      forall i :: 0 <= i < |s.workers| ==>
        s.workers[i].Done? && (s.workers[i].end.Wrote? || (s.workers[i].end.Dropped? && s.outside))
    case Some(e) =>
      exists i :: 0 <= i < |s.workers| && Finished(s.workers[i]) && Reported(s.workers[i].end, e)
  }

  predicate Reported(end: End, e: Error) {
    end == SentError(e) || (end == SentCanceled && e == Canceled)
  }

  predicate FlowInv(s: State)
    requires |s.results| == |s.workers|
  {
    && (forall i :: 0 <= i < |s.workers| ==> WorkerInv(s, s.workers[i], s.results[i]))
    && (HasResult(s) ==> ResultInv(s))
  }

  predicate Inv(s: State) {
    CountInv(s) && FlowInv(s)
  }

  /** The worker a step moves. */
  function Moved(s: State, a: Action): Option<nat>
    requires Enabled(s, a)
    ensures Moved(s, a).Some? ==> Moved(s, a).value < |s.workers|
  {
    match a
    case StartJob => Some(s.main.k)
    case Decide(i) => Some(i)
    case JobReturns(i, _) => Some(i)
    case Write(i) => Some(i)
    case SeeCancel(i) => Some(i)
    case Deliver(i) => Some(i)
    case WgDone(i) => Some(i)
    case _ => None
  }

  lemma OnlyOneMoves(s: State, a: Action, f: Worker -> nat)
    requires Enabled(s, a)
    ensures Moved(s, a).None? ==> Apply(s, a).workers == s.workers
    ensures Moved(s, a).Some? ==>
              var i := Moved(s, a).value;
              var t := Apply(s, a);
              |t.workers| == |s.workers| && Sum(t.workers, f) + f(s.workers[i]) == Sum(s.workers, f) + f(t.workers[i])
  {
    if Moved(s, a).Some? {
      var i := Moved(s, a).value;
      var t := Apply(s, a);
      assert t.workers == s.workers[i := t.workers[i]];
      SumUpdate(s.workers, i, t.workers[i], f);
    }
  }

  lemma StepKeepsCount(s: State, a: Action)
    requires CountInv(s) && Enabled(s, a)
    ensures CountInv(Apply(s, a))
  {
    hide Sum;
    OnlyOneMoves(s, a, Unfinished);
  }

  lemma StepKeepsWorkers(s: State, a: Action)
    requires Inv(s) && Enabled(s, a) && CountInv(Apply(s, a))
    ensures var t := Apply(s, a); forall i :: 0 <= i < |t.workers| ==> WorkerInv(t, t.workers[i], t.results[i])
  {
    hide Sum, ResultInv;
    forall i | 0 <= i < |s.workers|
      ensures WorkerInv(Apply(s, a), Apply(s, a).workers[i], Apply(s, a).results[i])
    {
      OneKeeps(s, a, i);
    }
    OnlyOneMoves(s, a, Unfinished);
    hide WorkerInv, Apply, Enabled;
  }

  lemma OneKeeps(s: State, a: Action, i: nat)
    requires CountInv(s) && Enabled(s, a) && i < |s.workers| && WorkerInv(s, s.workers[i], s.results[i])
    ensures |Apply(s, a).workers| == |s.workers| && |Apply(s, a).results| == |s.results|
    ensures WorkerInv(Apply(s, a), Apply(s, a).workers[i], Apply(s, a).results[i])
  {
    hide Sum;
    if Moved(s, a) == Some(i) {
      MovedKeeps(s, a, i);
    } else {
      OtherKeeps(s, a, s.workers[i], s.results[i]);
    }
    hide WorkerInv;
  }

  lemma MovedKeeps(s: State, a: Action, i: nat)
    requires CountInv(s) && Enabled(s, a) && i < |s.workers| && WorkerInv(s, s.workers[i], s.results[i])
    requires Moved(s, a) == Some(i)
    ensures |Apply(s, a).workers| == |s.workers| && |Apply(s, a).results| == |s.results|
    ensures WorkerInv(Apply(s, a), Apply(s, a).workers[i], Apply(s, a).results[i])
  {
    hide Sum;
  }

  lemma OtherKeeps(s: State, a: Action, w: Worker, out: Output)
    requires CountInv(s) && Enabled(s, a) && WorkerInv(s, w, out)
    ensures WorkerInv(Apply(s, a), w, out)
  {
    hide Sum;
  }

  /** A goroutine that has ended stays as it ended. */
  predicate FinishedStay(s: State, t: State) {
    && |t.workers| == |s.workers|
    && forall i :: 0 <= i < |s.workers| && Finished(s.workers[i]) ==>
         Finished(t.workers[i]) && t.workers[i].end == s.workers[i].end && (s.workers[i].Done? ==> t.workers[i].Done?)
  }

  lemma StepStays(s: State, a: Action)
    requires Enabled(s, a)
    ensures FinishedStay(s, Apply(s, a))
  {
  }

  lemma ResultStays(s: State, t: State)
    requires HasResult(s) && ResultInv(s) && FinishedStay(s, t) && HasResult(t) && t.main.r == s.main.r
    requires s.outside ==> t.outside
    ensures ResultInv(t)
  {
  }

  lemma DeliveredResult(s: State, a: Action)
    requires Enabled(s, a) && a.Deliver?
    ensures HasResult(Apply(s, a)) && ResultInv(Apply(s, a))
  {
    var t := Apply(s, a);
    assert Finished(t.workers[a.i]) && Reported(t.workers[a.i].end, t.main.r.value);
  }

  lemma NilResult(s: State)
    requires Inv(s) && s.closed && !HasResult(s)
    ensures forall i :: 0 <= i < |s.workers| ==>
              s.workers[i].Done? && (s.workers[i].end.Wrote? || (s.workers[i].end.Dropped? && s.outside))
  {
    SumZero(s.workers, Unfinished);
    hide Sum;
    forall i | 0 <= i < |s.workers|
      ensures s.workers[i].end.Wrote? || (s.workers[i].end.Dropped? && s.outside)
    {
      assert WorkerInv(s, s.workers[i], s.results[i]);
    }
  }

  lemma StepKeepsResult(s: State, a: Action)
    requires Inv(s) && Enabled(s, a)
    ensures HasResult(Apply(s, a)) ==> ResultInv(Apply(s, a))
  {
    var t := Apply(s, a);
    if a.Deliver? {
      DeliveredResult(s, a);
    } else if a.ReceiveClosed? {
      NilResult(s);
      hide WorkerInv, Sum;
    } else if HasResult(t) {
      StepStays(s, a);
      assert HasResult(s) && t.main.r == s.main.r;
      ResultStays(s, t);
    }
    hide ResultInv, WorkerInv, Sum;
  }

  /** Every step keeps the invariant. */
  lemma StepKeepsInv(s: State, a: Action)
    requires Inv(s) && Enabled(s, a)
    ensures Inv(Apply(s, a))
  {
    hide WorkerInv, ResultInv, Sum;
    StepKeepsCount(s, a);
    StepKeepsWorkers(s, a);
    StepKeepsResult(s, a);
  }

  // ---------------------------------------------------------------- who can be stuck

  /** Some goroutine would panic: it is about to send and the channel is closed. */
  predicate SendsOnClosed(s: State) {
    s.closed && exists i :: 0 <= i < |s.workers| && IsSending(s.workers[i])
  }

  /** The caller is gone: what is left are goroutines that ended, or that wait for a receiver for ever. */
  predicate OnlyLeaks(s: State) {
    && s.main.Returned?
    && (forall i :: 0 <= i < |s.workers| ==> s.workers[i].Done? || s.workers[i].SendingCanceled?)
    && (if s.wg == 0 then s.closer.Closed? else s.closer.Waiting?)
  }

  /** A step that some goroutine can take by itself, given that jobs return. */
  function WorkerAction(i: nat, w: Worker): Action {
    match w
    case Deciding => Decide(i)
    case Running => JobReturns(i, Value(0))
    case Writing(_) => Write(i)
    case Sending(_) => SeeCancel(i)
    case Exiting(_) => WgDone(i)
    case _ => Deliver(i)
  }

  /** Unless only leaked goroutines are left, some goroutine can step. */
  lemma Progress(s: State) returns (a: Action)
    requires CountInv(s) && !OnlyLeaks(s)
    ensures Enabled(s, a) && a != CancelOutside
  {
    if s.main.Starting? {
      return if s.main.k < |s.workers| then StartJob else StartReceiving;
    }
    if s.main.Returning? {
      return Cancel;
    }
    if s.closer.Woken? {
      return Close;
    }
    if s.wg == 0 {
      SumZero(s.workers, Unfinished);
      return if s.closer.Waiting? then Wake else ReceiveClosed;
    }
    if s.main.Receiving? {
      var i := SumPositive(s.workers, Unfinished);
      return if IsSending(s.workers[i]) then Deliver(i) else WorkerAction(i, s.workers[i]);
    }
    var i :| 0 <= i < |s.workers| && !s.workers[i].Done? && !s.workers[i].SendingCanceled?;
    SumAt(s.workers, i, Unfinished);
    return WorkerAction(i, s.workers[i]);
  }

  // ---------------------------------------------------------------- termination

  function WorkerRank(w: Worker): nat {
    match w
    case NotStarted => 5
    case Deciding => 4
    case Running => 3
    case SendingCanceled => 2
    case Sending(_) => 2
    case Writing(_) => 2
    case Exiting(_) => 1
    case Done(_) => 0
  }

  function Rank(s: State): nat {
    Sum(s.workers, WorkerRank)
    + (match s.main
       case Starting(k) => if k <= |s.workers| then 3 + |s.workers| - k else 0
       case Receiving => 2
       case Returning(_) => 1
       case Returned(_) => 0)
    + (if s.closer.Waiting? then 2 else if s.closer.Woken? then 1 else 0)
    + (if s.cancelled then 0 else 1)
  }

  /** Every step, the outside cancellation included, lowers the rank. */
  lemma StepLowersRank(s: State, a: Action)
    requires CountInv(s) && Enabled(s, a)
    ensures Rank(Apply(s, a)) < Rank(s)
  {
    hide Sum;
    OnlyOneMoves(s, a, WorkerRank);
  }

  // ---------------------------------------------------------------- whole runs

  predicate InvFor(n: nat, s: State) {
    Inv(s) && |s.workers| == n
  }

  /** `s` is reached from the start with `n` elements by some interleaving of `actions`. */
  predicate Reaches(n: nat, actions: seq<Action>, s: State) {
    Run(Step, Init(n), actions) == Some(s)
  }

  lemma RunFromInit(n: nat, actions: seq<Action>, s: State)
    requires Reaches(n, actions, s)
    ensures InvFor(n, s)
    ensures |actions| + Rank(s) <= Rank(Init(n))
  {
    SumConstant(Init(n).workers, Unfinished, 1);
    var inv := s => InvFor(n, s);
    forall s, a | inv(s) && Step(s, a).Some?
      ensures inv(Step(s, a).value) && Rank(Step(s, a).value) < Rank(s)
    {
      StepKeepsInv(s, a);
      StepLowersRank(s, a);
      OnlyOneMoves(s, a, WorkerRank);
    }
    RunKeeps(Step, inv, Init(n), actions);
    RunLowers(Step, inv, Rank, Init(n), actions);
  }

  /** No more step is possible; only the outside may still cancel. */
  ghost predicate Quiet(s: State) {
    forall a :: a != CancelOutside ==> !Enabled(s, a)
  }

  /**
   Safety and termination of `Map`, over every interleaving: nothing is sent on the closed channel, no
   run is longer than a bound on the number of elements, and a run that can go no further has returned
   to the caller. What can be left behind is exactly goroutines blocked in the send that has no select.
   */
  lemma EveryRun(n: nat, actions: seq<Action>, s: State)
    requires Reaches(n, actions, s)
    ensures !SendsOnClosed(s)
    ensures |actions| <= 6 * n + 6
    ensures OnlyLeaks(s) <==> Quiet(s)
  {
    RunFromInit(n, actions, s);
    if s.closed {
      SumZero(s.workers, Unfinished);
    }
    SumBound(Init(n).workers, WorkerRank, 5);
    if !OnlyLeaks(s) {
      var a := Progress(s);
      assert !Quiet(s);
    }
  }

  /**
   Results without a cancellation from outside: `Map` returns nil exactly when every job ran and
   succeeded, and then slot `i` holds the output of job `i`; an error it returns is some job's.
   */
  lemma ResultOfMap(n: nat, actions: seq<Action>, s: State)
    requires Reaches(n, actions, s)
    requires HasResult(s) && !s.outside
    ensures |s.workers| == n && |s.results| == n
    ensures s.main.r == None <==> forall i :: 0 <= i < n ==> Finished(s.workers[i]) && s.workers[i].end.Wrote?
    ensures s.main.r == None ==>
              forall i :: 0 <= i < n ==> s.workers[i].Done? && s.workers[i].end == Wrote(s.results[i])
    ensures s.main.r.Some? ==>
              exists i :: 0 <= i < n && Finished(s.workers[i]) && s.workers[i].end == SentError(s.main.r.value)
  {
    RunFromInit(n, actions, s);
    if s.main.r.Some? {
      var i :| 0 <= i < |s.workers| && Finished(s.workers[i]) && Reported(s.workers[i].end, s.main.r.value);
      assert WorkerInv(s, s.workers[i], s.results[i]);
      assert s.workers[i].end == SentError(s.main.r.value);
    } else {
      forall i | 0 <= i < n
        ensures s.workers[i].Done? && s.workers[i].end == Wrote(s.results[i])
      {
        assert WorkerInv(s, s.workers[i], s.results[i]);
      }
    }
  }

  /** With a nil result a slot that no job wrote holds zero, and only a cancellation from outside leaves one. */
  lemma NilResultOfMap(n: nat, actions: seq<Action>, s: State, i: nat)
    requires Reaches(n, actions, s) && i < n
    requires HasResult(s) && s.main.r == None
    ensures |s.workers| == n && |s.results| == n && s.workers[i].Done?
    ensures s.workers[i].end == Wrote(s.results[i]) || (s.workers[i].end.Dropped? && s.results[i] == 0 && s.outside)
  {
    RunFromInit(n, actions, s);
    assert WorkerInv(s, s.workers[i], s.results[i]);
  }

  // ---------------------------------------------------------------- the leak

  /** Goroutine `i` waits to send the context's error, and the caller no longer receives. */
  predicate Leaked(s: State, i: nat) {
    HasResult(s) && i < |s.workers| && s.workers[i].SendingCanceled?
  }

  lemma LeakStays(s: State, i: nat, a: Action)
    requires Leaked(s, i) && Enabled(s, a)
    ensures Leaked(Apply(s, a), i)
  {
  }

  /** Once leaked, for ever leaked: no continuation of the run frees the goroutine. */
  lemma {:induction false} LeakedForEver(s: State, i: nat, actions: seq<Action>)
    requires Leaked(s, i) && Run(Step, s, actions).Some?
    ensures Leaked(Run(Step, s, actions).value, i)
  {
    var inv := s => Leaked(s, i);
    forall s, a | inv(s) && Step(s, a).Some?
      ensures inv(Step(s, a).value)
    {
      LeakStays(s, i, a);
    }
    hide Enabled, Apply;
    RunKeeps(Step, inv, s, actions);
  }

  /** A goroutine that looks at the context only after `Map` has returned is leaked, whatever happens next. */
  lemma {:induction false} LateStartLeaks(s: State, i: nat, actions: seq<Action>)
    requires s.main.Returned? && s.cancelled && i < |s.workers| && s.workers[i].Deciding?
    requires Run(Step, s, [Decide(i)] + actions).Some?
    ensures Leaked(Run(Step, s, [Decide(i)] + actions).value, i)
  {
    assert ([Decide(i)] + actions)[1..] == actions;
    LeakedForEver(Apply(s, Decide(i)), i, actions);
  }

  lemma Then(n: nat, actions: seq<Action>, s: State, a: Action, t: State) returns (more: seq<Action>)
    requires Reaches(n, actions, s) && Enabled(s, a) && Apply(s, a) == t
    ensures more == actions + [a] && Reaches(n, more, t)
  {
    RunThen(Step, Init(n), actions, a);
    more := actions + [a];
  }

  lemma Start(n: nat)
    ensures Reaches(n, [], Init(n))
  {
    RunNone(Step, Init(n));
  }

  /** The first `k` of `n` goroutines are started. */
  function Started(n: nat, k: nat): State {
    Init(n).(workers := seq(n, i => if i < k then Deciding else NotStarted), main := Starting(k))
  }

  lemma {:induction false} StartAll(n: nat, k: nat) returns (run: seq<Action>)
    requires k <= n
    ensures Reaches(n, run, Started(n, k))
  {
    if k == 0 {
      Start(n);
      assert Started(n, 0) == Init(n);
      run := [];
    } else {
      run := StartAll(n, k - 1);
      var s := Started(n, k - 1);
      assert s.workers[k - 1 := Deciding] == Started(n, k).workers;
      run := Then(n, run, s, StartJob, Started(n, k));
    }
  }

  /** All goroutines wait to look at the context but the first, which stands at `w`. */
  function FirstAt(n: nat, w: Worker): State
    requires n > 0
  {
    var s := Started(n, n);
    s.(workers := s.workers[0 := w], main := Receiving)
  }

  /** The first job fails before any other goroutine looks at the context. */
  lemma FirstFails(n: nat, e: Error) returns (run: seq<Action>)
    requires n > 0
    ensures Reaches(n, run, FirstAt(n, Sending(e)))
  {
    hide Reaches;
    run := StartAll(n, n);
    assert FirstAt(n, Deciding).workers == Started(n, n).workers;
    run := Then(n, run, Started(n, n), StartReceiving, FirstAt(n, Deciding));
    assert FirstAt(n, Deciding).workers[0 := Running] == FirstAt(n, Running).workers;
    run := Then(n, run, FirstAt(n, Deciding), Decide(0), FirstAt(n, Running));
    assert FirstAt(n, Running).workers[0 := Sending(e)] == FirstAt(n, Sending(e)).workers;
    run := Then(n, run, FirstAt(n, Running), JobReturns(0, Failure(e)), FirstAt(n, Sending(e)));
  }

  /** With at least two elements one failure can leave a goroutine blocked, with nobody cancelling from outside. */
  lemma FailureLeaks(n: nat, e: Error) returns (run: seq<Action>, s: State)
    requires n >= 2
    ensures Reaches(n, run, s) && s.main == Returned(Some(e)) && !s.outside && Leaked(s, 1)
  {
    hide Reaches;
    run := FirstFails(n, e);
    var s5 := FirstAt(n, Sending(e));
    var s6 := s5.(workers := s5.workers[0 := Exiting(SentError(e))], main := Returning(Some(e)));
    var s7 := s6.(main := Returned(Some(e)), cancelled := true);
    s := s7.(workers := s7.workers[1 := SendingCanceled]);
    run := Then(n, run, s5, Deliver(0), s6);
    run := Then(n, run, s6, Cancel, s7);
    run := Then(n, run, s7, Decide(1), s);
  }

  /** With no more than one element nothing leaks, cancelled from outside or not. */
  lemma OneNeverLeaks(n: nat, actions: seq<Action>, s: State, i: nat)
    requires n <= 1 && Reaches(n, actions, s)
    ensures !Leaked(s, i)
  {
    RunFromInit(n, actions, s);
  }

  /** Behind a nil result nothing is leaked, whatever the number of elements. */
  lemma NilNeverLeaks(n: nat, actions: seq<Action>, s: State, i: nat)
    requires Reaches(n, actions, s) && HasResult(s) && s.main.r == None
    ensures !Leaked(s, i)
  {
    RunFromInit(n, actions, s);
  }

  /** `Map` over n elements can leak a goroutine exactly if n is at least 2, with or without a cancellation from outside. */
  lemma LeaksFromTwo(n: nat)
    ensures (exists actions, s, i :: Reaches(n, actions, s) && Leaked(s, i)) <==> n >= 2
    ensures (exists actions, s, i :: Reaches(n, actions, s) && !s.outside && Leaked(s, i)) <==> n >= 2
  {
    if n >= 2 {
      var run, s := FailureLeaks(n, JobError(0));
    } else {
      forall actions, s, i | Reaches(n, actions, s)
        ensures !Leaked(s, i)
      {
        OneNeverLeaks(n, actions, s, i);
      }
    }
    hide Reaches, Leaked;
  }
}
