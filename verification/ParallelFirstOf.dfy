/**
 `Ctrl.FirstOf` as a step system: the caller selects between the context and an unbuffered channel
 on which each job offers its output or its error. A job may return anything at any time; the
 context may be cancelled from outside at any time, and is cancelled when `FirstOf` returns.
 */
module ParallelFirstOf {
  import opened Wrappers
  import opened Steps

  /** An output is known by its number; 0 is the zero value of the output type. */
  type Output = int

  datatype Error = Canceled | JobError(code: int)

  datatype Payload = Value(o: Output) | Failure(e: Error)

  datatype Worker =
    | NotStarted
    | Running
    | Sending(p: Payload)                // at the select: cancelled, or somebody receives
    | Exiting(p: Payload, sent: bool)    // past the select, before the wait group is told
    | Done(p: Payload, sent: bool)

  datatype Main =
    | Starting(k: nat)                                // the next job to start
    | Selecting(err: Option<Error>)                   // at the head of the loop, with the error kept so far
    | Returning(o: Output, err: Option<Error>)        // before the deferred cancel
    | Returned(o: Output, err: Option<Error>)

  datatype Closer = Waiting | Woken | Closed

  datatype State = State(
    workers: seq<Worker>,
    main: Main,
    closer: Closer,
    wg: nat,
    closed: bool,
    cancelled: bool,
    outside: bool,                       // it was cancelled from outside
    received: seq<nat>)                  // history: the jobs whose payloads the caller received, in order

  datatype Action =
    | StartJob
    | StartSelecting
    | JobReturns(i: nat, p: Payload)
    | SeeCancel(i: nat)
    | Deliver(i: nat)
    | WgDone(i: nat)
    | Wake
    | Close
    | ReceiveClosed
    | CallerSeesCancel
    | Cancel
    | CancelOutside

  function Init(n: nat): State {
    State(seq(n, i => NotStarted), Starting(0), Waiting, n, false, false, false, [])
  }

  predicate Enabled(s: State, a: Action) {
    match a
    case StartJob => s.main.Starting? && s.main.k < |s.workers| && s.workers[s.main.k].NotStarted?
    case StartSelecting => s.main == Starting(|s.workers|)
    case JobReturns(i, _) => i < |s.workers| && s.workers[i].Running?
    case SeeCancel(i) => i < |s.workers| && s.workers[i].Sending? && s.cancelled
    case Deliver(i) => i < |s.workers| && s.workers[i].Sending? && s.main.Selecting? && !s.closed
    case WgDone(i) => i < |s.workers| && s.workers[i].Exiting? && s.wg > 0
    case Wake => s.closer.Waiting? && s.wg == 0
    case Close => s.closer.Woken? && !s.closed
    case ReceiveClosed => s.main.Selecting? && s.closed
    case CallerSeesCancel => s.main.Selecting? && s.cancelled
    case Cancel => s.main.Returning?
    case CancelOutside => !s.cancelled
  }

  /** The loop body after `p` was received. */
  function Receive(err: Option<Error>, p: Payload): Main {
    match p
    case Failure(e) => Selecting(if err.None? then Some(e) else err)
    case Value(o) => Returning(o, None)
  }

  function Apply(s: State, a: Action): State
    requires Enabled(s, a)
  {
    match a
    case StartJob => s.(workers := s.workers[s.main.k := Running], main := Starting(s.main.k + 1))
    case StartSelecting => s.(main := Selecting(None))
    case JobReturns(i, p) => s.(workers := s.workers[i := Sending(p)])
    case SeeCancel(i) => s.(workers := s.workers[i := Exiting(s.workers[i].p, false)])
    case Deliver(i) =>
      s.(workers := s.workers[i := Exiting(s.workers[i].p, true)],
         main := Receive(s.main.err, s.workers[i].p),
         received := s.received + [i])
    case WgDone(i) => s.(workers := s.workers[i := Done(s.workers[i].p, s.workers[i].sent)], wg := s.wg - 1)
    case Wake => s.(closer := Woken)
    case Close => s.(closer := Closed, closed := true)
    // a closed channel yields the zero payload, whose error is nil and whose output is the zero value
    case ReceiveClosed => s.(main := Receive(s.main.err, Value(0)))
    case CallerSeesCancel =>
      s.(main := Returning(0, if s.main.err.None? then Some(Canceled) else s.main.err))
    case Cancel => s.(main := Returned(s.main.o, s.main.err), cancelled := true)
    case CancelOutside => s.(cancelled := true, outside := true)
  }

  function Step(s: State, a: Action): Option<State> {
    if Enabled(s, a) then Some(Apply(s, a)) else None
  }

  // ---------------------------------------------------------------- the invariant

  function Unfinished(w: Worker): nat {
    if w.Done? then 0 else 1
  }

  predicate Finished(w: Worker) {
    w.Exiting? || w.Done?
  }

  predicate HasResult(s: State) {
    s.main.Returning? || s.main.Returned?
  }

  /** The wait group counts the workers, and the flags agree with where each goroutine is. */
  predicate CountInv(s: State) {
    && s.wg == Sum(s.workers, Unfinished)
    && (s.closed <==> s.closer.Closed?)
    && (!s.closer.Waiting? ==> s.wg == 0)
    && (s.main.Starting? ==> s.main.k <= |s.workers|)
    && (forall i :: 0 <= i < |s.workers| ==> (s.workers[i].NotStarted? <==> s.main.Starting? && i >= s.main.k))
    && (s.outside || s.main.Returned? <==> s.cancelled)
  }

  /** The history lists the jobs whose payload was sent; a payload is dropped only after a cancellation. */
  predicate HistoryInv(s: State) {
    && (forall j :: 0 <= j < |s.received| ==>
          s.received[j] < |s.workers| && Finished(s.workers[s.received[j]]) && s.workers[s.received[j]].sent)
    && (forall i :: 0 <= i < |s.workers| && Finished(s.workers[i]) && s.workers[i].sent ==> i in s.received)
    && (forall i :: 0 <= i < |s.workers| && Finished(s.workers[i]) && !s.workers[i].sent ==> s.cancelled)
    && (s.main.Starting? ==> s.received == [])
  }

  predicate Failed(s: State, i: nat) {
    i < |s.workers| && Finished(s.workers[i]) && s.workers[i].p.Failure?
  }

  /** The payloads received before position `k` were all errors. */
  predicate OnlyFailures(s: State, k: nat)
    requires k <= |s.received|
  {
    forall j :: 0 <= j < k ==> Failed(s, s.received[j])
  }

  /** The error the caller keeps: the first it received. */
  function Kept(s: State): Option<Error>
    requires OnlyFailures(s, |s.received|)
  {
    if s.received == [] then None else Some(s.workers[s.received[0]].p.e)
  }

  predicate FlowInv(s: State) {
    match s.main
    case Starting(_) => true
    case Selecting(err) => OnlyFailures(s, |s.received|) && err == Kept(s)
    case Returning(o, err) => ResultInv(s, o, err)
    case Returned(o, err) => ResultInv(s, o, err)
  }

  predicate Won(s: State, i: nat, o: Output) {
    i < |s.workers| && Finished(s.workers[i]) && s.workers[i].sent && s.workers[i].p == Value(o)
  }

  /** What stands behind the result of `FirstOf`. */
  predicate ResultInv(s: State, o: Output, err: Option<Error>) {
    if err.Some? then
      && s.outside && o == 0
      && OnlyFailures(s, |s.received|)
      && err.value == (if s.received == [] then Canceled else Kept(s).value)
    else
      || (|s.received| > 0 && OnlyFailures(s, |s.received| - 1) && Won(s, s.received[|s.received| - 1], o))
      || (o == 0 && OnlyFailures(s, |s.received|) && AllDone(s))
  }

  predicate AllDone(s: State) {
    forall i :: 0 <= i < |s.workers| ==> s.workers[i].Done? && (s.workers[i].sent || s.outside)
  }

  predicate Inv(s: State) {
    CountInv(s) && HistoryInv(s) && FlowInv(s)
  }

  lemma StepKeepsCount(s: State, a: Action)
    requires CountInv(s) && Enabled(s, a)
    ensures CountInv(Apply(s, a))
  {
    hide Sum;
    var t := Apply(s, a);
    match a {
      case StartJob => SumUpdate(s.workers, s.main.k, Running, Unfinished);
      case JobReturns(i, p) => SumUpdate(s.workers, i, t.workers[i], Unfinished);
      case SeeCancel(i) => SumUpdate(s.workers, i, t.workers[i], Unfinished);
      case Deliver(i) => SumUpdate(s.workers, i, t.workers[i], Unfinished);
      case WgDone(i) => SumUpdate(s.workers, i, t.workers[i], Unfinished);
      case _ =>
    }
  }

  /** A job that is past its select keeps its payload. */
  predicate FinishedStay(s: State, t: State) {
    && |t.workers| == |s.workers|
    && forall i :: 0 <= i < |s.workers| && Finished(s.workers[i]) ==>
         Finished(t.workers[i]) && t.workers[i].p == s.workers[i].p && t.workers[i].sent == s.workers[i].sent
  }

  lemma StepKeepsHistory(s: State, a: Action)
    requires CountInv(s) && HistoryInv(s) && Enabled(s, a)
    ensures HistoryInv(Apply(s, a)) && FinishedStay(s, Apply(s, a))
  {
    StepKeepsFinished(s, a);
    hide Sum, FinishedStay;
    if a.Deliver? {
      DeliveredHistory(s, a.i);
    }
  }

  lemma StepKeepsFinished(s: State, a: Action)
    requires CountInv(s) && Enabled(s, a)
    ensures FinishedStay(s, Apply(s, a))
  {
    hide Sum;
  }

  lemma DeliveredHistory(s: State, i: nat)
    requires HistoryInv(s) && Enabled(s, Deliver(i))
    ensures HistoryInv(Apply(s, Deliver(i)))
  {
    var t := Apply(s, Deliver(i));
    assert t.received[|s.received|] == i;
    forall k | 0 <= k < |t.workers| && Finished(t.workers[k]) && t.workers[k].sent
      ensures k in t.received
    {
      assert k != i ==> k in s.received;
    }
  }

  lemma FailuresStay(s: State, t: State, k: nat)
    requires FinishedStay(s, t) && k <= |s.received| && s.received <= t.received
    requires OnlyFailures(s, k)
    ensures OnlyFailures(t, k)
    ensures k > 0 ==> t.workers[t.received[0]].p == s.workers[s.received[0]].p
  {
    assert forall j :: 0 <= j < |s.received| ==> t.received[j] == s.received[j];
    assert k > 0 ==> Failed(s, s.received[0]);
  }

  lemma DeliverKeepsFlow(s: State, a: Action)
    requires Inv(s) && Enabled(s, a) && a.Deliver?
    ensures FlowInv(Apply(s, a))
  {
    hide Sum;
    var t := Apply(s, a);
    StepKeepsHistory(s, a);
    FailuresStay(s, t, |s.received|);
    assert t.received[|s.received|] == a.i;
    hide OnlyFailures;
    if s.workers[a.i].p.Failure? {
      assert OnlyFailures(t, |t.received|) by { LastFailed(t); }
    }
  }

  lemma LastFailed(s: State)
    requires |s.received| > 0 && OnlyFailures(s, |s.received| - 1) && Failed(s, s.received[|s.received| - 1])
    ensures OnlyFailures(s, |s.received|)
  {
  }

  lemma CallerKeepsFlow(s: State, a: Action)
    requires Inv(s) && Enabled(s, a) && (a.ReceiveClosed? || a.CallerSeesCancel? || a.Cancel? || a.StartSelecting?)
    ensures FlowInv(Apply(s, a))
  {
    hide Sum;
    var t := Apply(s, a);
    StepKeepsHistory(s, a);
    assert t.received == s.received && t.workers == s.workers;
    assert OnlyFailures(s, |s.received|) ==> OnlyFailures(t, |t.received|);
    if a.ReceiveClosed? {
      SumZero(s.workers, Unfinished);
    }
  }

  lemma WorkersKeepFlow(s: State, a: Action)
    requires Inv(s) && Enabled(s, a) && Apply(s, a).received == s.received
    requires Apply(s, a).main == s.main || a.StartJob?
    ensures FlowInv(Apply(s, a))
  {
    hide Sum;
    var t := Apply(s, a);
    StepKeepsHistory(s, a);
    if OnlyFailures(s, |s.received|) {
      FailuresStay(s, t, |s.received|);
    } else if |s.received| > 0 && OnlyFailures(s, |s.received| - 1) {
      FailuresStay(s, t, |s.received| - 1);
    }
    assert forall i, o :: Won(s, i, o) ==> Won(t, i, o);
    hide OnlyFailures, Won;
  }

  lemma StepKeepsFlow(s: State, a: Action)
    requires Inv(s) && Enabled(s, a)
    ensures FlowInv(Apply(s, a))
  {
    hide Inv, FlowInv;
    match a {
      case Deliver(_) => DeliverKeepsFlow(s, a);
      case ReceiveClosed => CallerKeepsFlow(s, a);
      case CallerSeesCancel => CallerKeepsFlow(s, a);
      case Cancel => CallerKeepsFlow(s, a);
      case StartSelecting => CallerKeepsFlow(s, a);
      case _ => WorkersKeepFlow(s, a);
    }
  }

  /** Every step keeps the invariant. */
  lemma StepKeepsInv(s: State, a: Action)
    requires Inv(s) && Enabled(s, a)
    ensures Inv(Apply(s, a))
  {
    StepKeepsCount(s, a);
    StepKeepsHistory(s, a);
    StepKeepsFlow(s, a);
  }

  // ---------------------------------------------------------------- no goroutine is stuck

  /** Everybody has finished. */
  predicate Final(s: State) {
    && s.main.Returned?
    && s.closer.Closed?
    && forall i :: 0 <= i < |s.workers| ==> s.workers[i].Done?
  }

  /** Some goroutine would panic: it is about to send and the channel is closed. */
  predicate SendsOnClosed(s: State) {
    s.closed && exists i :: 0 <= i < |s.workers| && s.workers[i].Sending?
  }

  /** Until everybody has finished some goroutine can step, given that jobs return. */
  lemma Progress(s: State) returns (a: Action)
    requires CountInv(s) && !Final(s)
    ensures Enabled(s, a) && a != CancelOutside
  {
    if s.main.Starting? {
      return if s.main.k < |s.workers| then StartJob else StartSelecting;
    }
    if s.main.Returning? {
      return Cancel;
    }
    if s.closer.Woken? {
      return Close;
    }
    if s.wg == 0 {
      SumZero(s.workers, Unfinished);
      return if s.closer.Waiting? then Wake else ReceiveClosed;
    }
    var i := SumPositive(s.workers, Unfinished);
    match s.workers[i] {
      case Running => return JobReturns(i, Value(0));
      case Exiting(_, _) => return WgDone(i);
      case Sending(_) => return if s.main.Selecting? then Deliver(i) else SeeCancel(i);
    }
  }

  // ---------------------------------------------------------------- termination

  function WorkerRank(w: Worker): nat {
    match w
    case NotStarted => 4
    case Running => 3
    case Sending(_) => 2
    case Exiting(_, _) => 1
    case Done(_, _) => 0
  }

  function Rank(s: State): nat {
    Sum(s.workers, WorkerRank)
    + (match s.main
       case Starting(k) => if k <= |s.workers| then 3 + |s.workers| - k else 0
       case Selecting(_) => 2
       case Returning(_, _) => 1
       case Returned(_, _) => 0)
    + (if s.closer.Waiting? then 2 else if s.closer.Woken? then 1 else 0)
    + (if s.cancelled then 0 else 1)
  }

  /** Every step, the outside cancellation included, lowers the rank. */
  lemma StepLowersRank(s: State, a: Action)
    requires CountInv(s) && Enabled(s, a)
    ensures Rank(Apply(s, a)) < Rank(s)
  {
    hide Sum;
    var t := Apply(s, a);
    match a {
      case StartJob => SumUpdate(s.workers, s.main.k, Running, WorkerRank);
      case JobReturns(i, p) => SumUpdate(s.workers, i, t.workers[i], WorkerRank);
      case SeeCancel(i) => SumUpdate(s.workers, i, t.workers[i], WorkerRank);
      case Deliver(i) => SumUpdate(s.workers, i, t.workers[i], WorkerRank);
      case WgDone(i) => SumUpdate(s.workers, i, t.workers[i], WorkerRank);
      case _ =>
    }
  }

  // ---------------------------------------------------------------- whole runs

  predicate InvFor(n: nat, s: State) {
    Inv(s) && |s.workers| == n
  }

  /** `s` is reached from the start with `n` jobs by some interleaving of `actions`. */
  predicate Reaches(n: nat, actions: seq<Action>, s: State) {
    Run(Step, Init(n), actions) == Some(s)
  }

  lemma RunFromInit(n: nat, actions: seq<Action>, s: State)
    requires Reaches(n, actions, s)
    ensures InvFor(n, s)
    ensures |actions| + Rank(s) <= Rank(Init(n))
  {
    SumConstant(Init(n).workers, Unfinished, 1);
    var inv := s => InvFor(n, s);
    forall s, a | inv(s) && Step(s, a).Some?
      ensures inv(Step(s, a).value) && Rank(Step(s, a).value) < Rank(s)
    {
      StepKeepsInv(s, a);
      StepLowersRank(s, a);
    }
    RunKeeps(Step, inv, Init(n), actions);
    RunLowers(Step, inv, Rank, Init(n), actions);
  }

  /** No more step is possible; only the outside may still cancel. */
  ghost predicate Quiet(s: State) {
    forall a :: a != CancelOutside ==> !Enabled(s, a)
  }

  /**
   Safety and termination of `FirstOf`, over every interleaving: nothing is sent on the closed
   channel, no run is longer than a bound on the number of jobs, and a run that can go no further has
   returned to the caller and left no goroutine behind, also after an early return.
   */
  lemma EveryRun(n: nat, actions: seq<Action>, s: State)
    requires Reaches(n, actions, s)
    ensures !SendsOnClosed(s)
    ensures |actions| <= 5 * n + 6
    ensures Final(s) <==> Quiet(s)
  {
    RunFromInit(n, actions, s);
    if s.closed {
      SumZero(s.workers, Unfinished);
    }
    SumBound(Init(n).workers, WorkerRank, 4);
    if !Final(s) {
      var a := Progress(s);
      assert !Quiet(s);
    }
  }

  predicate JobReturned(s: State, i: nat) {
    i < |s.workers| && (s.workers[i].Sending? || Finished(s.workers[i]))
  }

  predicate JobSucceeded(s: State, i: nat) {
    JobReturned(s, i) && s.workers[i].p.Value?
  }

  /**
   Results without a cancellation from outside: the error is always nil. If some job has succeeded
   the output is that of the last payload received, and the payloads before it were errors.
   Otherwise every job ran and failed, and the output is the zero value: the errors are lost.
   */
  lemma ResultOfFirstOf(n: nat, actions: seq<Action>, s: State)
    requires Reaches(n, actions, s)
    requires HasResult(s) && !s.outside
    ensures s.main.err == None
    ensures (exists i :: 0 <= i < n && JobSucceeded(s, i)) ==>
              && |s.received| > 0
              && Won(s, s.received[|s.received| - 1], s.main.o)
              && OnlyFailures(s, |s.received| - 1)
    ensures (forall i :: 0 <= i < n ==> !JobSucceeded(s, i)) ==>
              && s.main.o == 0
              && forall i :: 0 <= i < n ==> Failed(s, i) && i in s.received
  {
    RunFromInit(n, actions, s);
    if |s.received| > 0 && Won(s, s.received[|s.received| - 1], s.main.o) {
      assert JobSucceeded(s, s.received[|s.received| - 1]);
    }
  }

  /** After a cancellation from outside: an error that is returned is the first one received, if any. */
  lemma ErrorOfFirstOf(n: nat, actions: seq<Action>, s: State)
    requires Reaches(n, actions, s)
    requires HasResult(s) && s.main.err.Some?
    ensures s.outside && s.main.o == 0 && OnlyFailures(s, |s.received|)
    ensures s.main.err == if s.received == [] then Some(Canceled) else Kept(s)
  {
    RunFromInit(n, actions, s);
  }
}
