/**
 The channel bus as a step system: publishers, and for each subscriber a goroutine that takes events
 from one unbuffered channel and offers them on another. Nobody closes the bus or a subscriber.
 */
module Bus {
  import opened Wrappers
  import opened Steps

  type Event = int

  /** A subscriber's queue. The histories say what was accepted from publishers and received from it. */
  datatype Queue = Queue(
    inFlight: Option<Event>,       // taken, and now offered to the receiver
    stopped: bool,                 // the subscriber's context is done
    accepted: seq<Event>,
    received: seq<Event>,
    joined: nat)                   // how many events had been begun when the subscriber joined

  /** A publisher offers an event to one queue after the other, under the read lock. */
  datatype Publisher = Idle | Publishing(evt: Event, ix: nat)

  datatype State = State(
    queues: seq<Queue>,
    publishers: seq<Publisher>,
    begun: seq<Event>,             // history: the events publishers began to publish
    failed: bool)                  // some `Pub` gave up

  datatype Action =
    | Subscribe
    | Begin(p: nat, evt: Event)
    | HandOver(p: nat)
    | Finish(p: nat)
    | GiveUp(p: nat)               // the publisher's context is done
    | Receive(i: nat)
    | Stop(i: nat)

  function Init(publishers: nat): State {
    State([], seq(publishers, i => Idle), [], false)
  }

  /** Nobody holds the read lock. */
  predicate Unlocked(s: State) {
    forall p :: 0 <= p < |s.publishers| ==> s.publishers[p].Idle?
  }

  predicate Enabled(s: State, a: Action) {
    match a
    case Subscribe => Unlocked(s)
    case Begin(p, _) => p < |s.publishers| && s.publishers[p].Idle?
    case HandOver(p) =>
      && p < |s.publishers| && s.publishers[p].Publishing? && s.publishers[p].ix < |s.queues|
      && var q := s.queues[s.publishers[p].ix]; q.inFlight.None? && !q.stopped
    case Finish(p) => p < |s.publishers| && s.publishers[p].Publishing? && s.publishers[p].ix == |s.queues|
    case GiveUp(p) => p < |s.publishers| && s.publishers[p].Publishing? && s.publishers[p].ix < |s.queues|
    case Receive(i) => i < |s.queues| && s.queues[i].inFlight.Some?
    case Stop(i) => i < |s.queues| && s.queues[i].inFlight.None? && !s.queues[i].stopped
  }

  function Apply(s: State, a: Action): State
    requires Enabled(s, a)
  {
    match a
    case Subscribe => s.(queues := s.queues + [Queue(None, false, [], [], |s.begun|)])
    case Begin(p, evt) => s.(publishers := s.publishers[p := Publishing(evt, 0)], begun := s.begun + [evt])
    case HandOver(p) =>
      var evt, ix := s.publishers[p].evt, s.publishers[p].ix;
      var q := s.queues[ix];
      s.(publishers := s.publishers[p := Publishing(evt, ix + 1)],
         queues := s.queues[ix := q.(inFlight := Some(evt), accepted := q.accepted + [evt])])
    case Finish(p) => s.(publishers := s.publishers[p := Idle])
    case GiveUp(p) => s.(publishers := s.publishers[p := Idle], failed := true)
    case Receive(i) =>
      var q := s.queues[i];
      s.(queues := s.queues[i := q.(inFlight := None, received := q.received + [q.inFlight.value])])
    case Stop(i) => s.(queues := s.queues[i := s.queues[i].(stopped := true)])
  }

  function Step(s: State, a: Action): Option<State> {
    if Enabled(s, a) then Some(Apply(s, a)) else None
  }

  predicate Reaches(publishers: nat, actions: seq<Action>, s: State) {
    Run(Step, Init(publishers), actions) == Some(s)
  }

  // ---------------------------------------------------------------- each subscriber

  predicate Delivers(q: Queue) {
    q.accepted == q.received + if q.inFlight.Some? then [q.inFlight.value] else []
  }

  predicate DeliveryInv(s: State) {
    forall i :: 0 <= i < |s.queues| ==> Delivers(s.queues[i])
  }

  lemma StepDelivers(s: State, a: Action)
    requires DeliveryInv(s) && Enabled(s, a)
    ensures DeliveryInv(Apply(s, a))
  {
    var t := Apply(s, a);
    forall i | 0 <= i < |t.queues|
      ensures Delivers(t.queues[i])
    {
      assert i < |s.queues| ==> Delivers(s.queues[i]);
    }
  }

  /**
   In every run, with any number of publishers: the events a subscriber received, and at most one more
   in flight, are exactly the events accepted for it, in order.
   */
  lemma EverySubscriberReceives(publishers: nat, actions: seq<Action>, s: State, i: nat)
    requires Reaches(publishers, actions, s) && i < |s.queues|
    ensures Delivers(s.queues[i])
  {
    forall s, a | DeliveryInv(s) && Step(s, a).Some?
      ensures DeliveryInv(Step(s, a).value)
    {
      StepDelivers(s, a);
    }
    RunKeeps(Step, DeliveryInv, Init(publishers), actions);
  }

  // ---------------------------------------------------------------- one publisher

  /** How many of the events begun have been offered to queue `i`: all, but for the one on its way there. */
  function Offered(s: State, i: nat): int {
    if |s.publishers| == 1 && s.publishers[0].Publishing? && s.publishers[0].ix <= i then |s.begun| - 1 else |s.begun|
  }

  /** A queue has accepted the events begun since it was joined, up to those offered. */
  predicate InStep(s: State, i: nat)
    requires i < |s.queues|
  {
    var q := s.queues[i];
    q.joined <= Offered(s, i) <= |s.begun| && q.accepted == s.begun[q.joined..Offered(s, i)]
  }

  predicate OrderInv(s: State) {
    && |s.publishers| == 1
    && (s.publishers[0].Publishing? ==>
          |s.begun| > 0 && s.publishers[0].evt == s.begun[|s.begun| - 1] && s.publishers[0].ix <= |s.queues|)
    && (!s.failed ==> forall i :: 0 <= i < |s.queues| ==> InStep(s, i))
    && (forall i, j :: 0 <= i < j < |s.queues| ==> s.queues[i].joined <= s.queues[j].joined)
    && (forall i :: 0 <= i < |s.queues| ==> s.queues[i].joined <= |s.begun|)
  }

  lemma HandOverInStep(s: State, a: Action, i: nat)
    requires OrderInv(s) && Enabled(s, a) && a.HandOver? && !s.failed && i < |s.queues|
    ensures InStep(Apply(s, a), i)
  {
    var t, q := Apply(s, a), s.queues[i];
    assert InStep(s, i);
    if i == s.publishers[0].ix {
      assert s.begun[q.joined..|s.begun|] == s.begun[q.joined..|s.begun| - 1] + [s.begun[|s.begun| - 1]];
    }
  }

  lemma BeginInStep(s: State, a: Action, i: nat)
    requires OrderInv(s) && Enabled(s, a) && a.Begin? && !s.failed && i < |s.queues|
    ensures InStep(Apply(s, a), i)
  {
    var t, q := Apply(s, a), s.queues[i];
    assert InStep(s, i);
    assert t.begun[q.joined..|s.begun|] == s.begun[q.joined..|s.begun|];
  }

  lemma StepKeepsOrder(s: State, a: Action)
    requires OrderInv(s) && Enabled(s, a)
    ensures OrderInv(Apply(s, a))
  {
    var t := Apply(s, a);
    if !t.failed {
      forall i | 0 <= i < |t.queues|
        ensures InStep(t, i)
      {
        if i < |s.queues| {
          assert InStep(s, i);
          if a.HandOver? {
            HandOverInStep(s, a, i);
          } else if a.Begin? {
            BeginInStep(s, a, i);
          }
        }
      }
    }
    hide InStep;
  }

  /**
   With one publisher that never gave up: of two subscribers the one that joined earlier has accepted
   the events the other did, in the same order, after those begun between the two joins; and it is
   ahead by at most the one event being published.
   */
  lemma SubscribersAgree(actions: seq<Action>, s: State, i: nat, j: nat)
    requires Reaches(1, actions, s) && !s.failed && i < j < |s.queues|
    ensures var d := s.queues[j].joined - s.queues[i].joined;
            && 0 <= d <= |s.queues[i].accepted|
            && s.queues[j].accepted <= s.queues[i].accepted[d..]
            && |s.queues[i].accepted[d..]| <= |s.queues[j].accepted| + 1
  {
    forall s, a | OrderInv(s) && Step(s, a).Some?
      ensures OrderInv(Step(s, a).value)
    {
      StepKeepsOrder(s, a);
    }
    RunKeeps(Step, OrderInv, Init(1), actions);
    assert InStep(s, i) && InStep(s, j);
    Slices(s.begun, s.queues[i].joined, s.queues[j].joined, Offered(s, j), Offered(s, i));
  }

  lemma Slices(events: seq<Event>, a: nat, b: nat, n: nat, m: nat)
    requires a <= b <= n <= m <= |events|
    ensures events[b..n] <= events[a..m][b - a..] && |events[a..m][b - a..]| == m - b
  {
    assert events[a..m][b - a..] == events[b..m];
  }

  // ---------------------------------------------------------------- more than one publisher

  predicate Ready(q: Queue) {
    q.inFlight.None? && !q.stopped
  }

  /** One more action at the end of a run. */
  lemma Then(s: State, run: seq<Action>, t: State, a: Action) returns (more: seq<Action>, u: State)
    requires Run(Step, s, run) == Some(t) && Enabled(t, a)
    ensures more == run + [a] && u == Apply(t, a) && Run(Step, s, more) == Some(u)
  {
    RunThen(Step, s, run, a);
    more, u := run + [a], Apply(t, a);
  }

  /** Two idle publishers begin, and the first gives its event to the first queue. */
  lemma FirstHalf(s: State, p: nat, r: nat, x: Event, y: Event) returns (run: seq<Action>, t: State)
    requires p < |s.publishers| && r < |s.publishers| && p != r && s.publishers[p].Idle? && s.publishers[r].Idle?
    requires |s.queues| >= 2 && Ready(s.queues[0]) && Ready(s.queues[1])
    ensures Run(Step, s, run) == Some(t) && t.failed == s.failed
    ensures |t.publishers| == |s.publishers| && t.publishers[p] == Publishing(x, 1) && t.publishers[r] == Publishing(y, 0)
    ensures |t.queues| == |s.queues| && Ready(t.queues[0]) && t.queues[1] == s.queues[1]
    ensures t.queues[0].accepted == s.queues[0].accepted + [x] && t.queues[0].joined == s.queues[0].joined
  {
    RunNone(Step, s);
    hide Run;
    run, t := Then(s, [], s, Begin(p, x));
    run, t := Then(s, run, t, Begin(r, y));
    run, t := Then(s, run, t, HandOver(p));
    run, t := Then(s, run, t, Receive(0));
  }

  /**
   The second publisher overtakes the first between two subscribers. From any state with two idle
   publishers, in which the first two queues are free, the two can accept the same two events in
   either order, though nothing failed.
   */
  lemma PublishersOvertake(s: State, p: nat, r: nat, x: Event, y: Event) returns (run: seq<Action>, t: State)
    requires p < |s.publishers| && r < |s.publishers| && p != r && s.publishers[p].Idle? && s.publishers[r].Idle?
    requires |s.queues| >= 2 && Ready(s.queues[0]) && Ready(s.queues[1])
    ensures Run(Step, s, run) == Some(t) && t.failed == s.failed && |t.queues| == |s.queues|
    ensures t.queues[0].accepted == s.queues[0].accepted + [x, y] && t.queues[0].joined == s.queues[0].joined
    ensures t.queues[1].accepted == s.queues[1].accepted + [y, x] && t.queues[1].joined == s.queues[1].joined
  {
    run, t := FirstHalf(s, p, r, x, y);
    hide Run;
    run, t := Then(s, run, t, HandOver(r));
    run, t := Then(s, run, t, HandOver(r));
    run, t := Then(s, run, t, Receive(1));
    run, t := Then(s, run, t, HandOver(p));
    assert s.queues[0].accepted + [x] + [y] == s.queues[0].accepted + [x, y];
    assert s.queues[1].accepted + [y] + [x] == s.queues[1].accepted + [y, x];
  }

  /** The later subscriber has accepted what the earlier one did since, in the same order. */
  predicate Agree(s: State, i: nat, j: nat)
    requires i < j < |s.queues|
  {
    var d := s.queues[j].joined - s.queues[i].joined;
    0 <= d <= |s.queues[i].accepted| && s.queues[j].accepted <= s.queues[i].accepted[d..]
  }

  ghost predicate AlwaysAgree(publishers: nat) {
    forall actions, s, i: nat, j: nat ::
      Reaches(publishers, actions, s) && !s.failed && i < j < |s.queues| ==> Agree(s, i, j)
  }

  predicate Silent(s: State) {
    |s.publishers| == 0 && forall i :: 0 <= i < |s.queues| ==> s.queues[i].accepted == [] && s.queues[i].joined == |s.begun|
  }

  /** Subscribers agree on the order of events in every run exactly when there is at most one publisher. */
  lemma AgreeIffOnePublisher(publishers: nat)
    ensures AlwaysAgree(publishers) <==> publishers <= 1
  {
    if publishers >= 2 {
      var actions, s := Overtaken(publishers);
      assert s.queues[0].accepted[0..][0] != s.queues[1].accepted[0];
      assert !Agree(s, 0, 1);
    } else {
      forall actions, s, i: nat, j: nat | Reaches(publishers, actions, s) && !s.failed && i < j < |s.queues|
        ensures Agree(s, i, j)
      {
        if publishers == 1 {
          SubscribersAgree(actions, s, i, j);
        } else {
          RunKeeps(Step, Silent, Init(0), actions);
        }
      }
    }
  }

  /** Two subscribers from the start, and then the overtaking. */
  lemma Overtaken(n: nat) returns (actions: seq<Action>, s: State)
    requires n >= 2
    ensures Reaches(n, actions, s) && !s.failed && |s.queues| == 2
    ensures s.queues[0].joined == s.queues[1].joined
    ensures s.queues[0].accepted == [1, 2] && s.queues[1].accepted == [2, 1]
  {
    RunNone(Step, Init(n));
    var first, t := Then(Init(n), [], Init(n), Subscribe);
    first, t := Then(Init(n), first, t, Subscribe);
    var second, u := PublishersOvertake(t, 0, 1, 1, 2);
    RunConcat(Step, Init(n), first, second);
    actions, s := first + second, u;
    assert [] + [1, 2] == [1, 2] && [] + [2, 1] == [2, 1];
  }

  // ---------------------------------------------------------------- a subscriber that stopped

  predicate NeverGivesUp(p: nat, actions: seq<Action>) {
    forall i :: 0 <= i < |actions| ==> actions[i] != GiveUp(p)
  }

  /** Publisher `p` has an event for queue `i`, which takes nothing any more. */
  predicate Stuck(s: State, p: nat, i: nat) {
    && p < |s.publishers| && s.publishers[p].Publishing? && s.publishers[p].ix <= i
    && i < |s.queues| && s.queues[i].stopped && s.queues[i].inFlight.None?
  }

  lemma StuckStays(s: State, a: Action, p: nat, i: nat)
    requires Stuck(s, p, i) && Enabled(s, a) && a != GiveUp(p)
    ensures var t := Apply(s, a);
            && Stuck(t, p, i) && |t.queues| == |s.queues|
            && t.queues[i].accepted == s.queues[i].accepted && t.publishers[p].evt == s.publishers[p].evt
  {
  }

  /**
   Behind a queue that stopped nothing goes on: whatever the others do, the publisher keeps its event and
   the read lock until it gives up, the queue accepts nothing, and nobody can subscribe.
   */
  lemma {:induction false} StoppedQueueBlocks(s: State, actions: seq<Action>, t: State, p: nat, i: nat)
    requires Stuck(s, p, i) && Run(Step, s, actions) == Some(t) && NeverGivesUp(p, actions)
    ensures Stuck(t, p, i) && !Enabled(t, Subscribe) && !Enabled(t, Finish(p)) && |t.queues| == |s.queues|
    ensures t.queues[i].accepted == s.queues[i].accepted && t.publishers[p].evt == s.publishers[p].evt
    decreases |actions|
  {
    if actions != [] {
      assert actions[0] != GiveUp(p);
      StuckStays(s, actions[0], p, i);
      assert forall j :: 0 <= j < |actions[1..]| ==> actions[1..][j] == actions[j + 1];
      StoppedQueueBlocks(Apply(s, actions[0]), actions[1..], t, p, i);
    }
  }

  /** Nothing stands in the publisher's way that a receiver could not clear. */
  predicate Clear(s: State, p: nat)
    requires p < |s.publishers| && s.publishers[p].Publishing?
  {
    forall j :: s.publishers[p].ix <= j < |s.queues| ==> !s.queues[j].stopped
  }

  /** It can then give its event to every queue that is left, once those in flight are received. */
  lemma {:induction false} CanFinish(s: State, p: nat) returns (run: seq<Action>, t: State)
    requires p < |s.publishers| && s.publishers[p].Publishing? && s.publishers[p].ix <= |s.queues| && Clear(s, p)
    ensures Run(Step, s, run) == Some(t) && NeverGivesUp(p, run) && t.publishers == s.publishers[p := Idle]
    decreases |s.queues| - s.publishers[p].ix
  {
    RunNone(Step, s);
    var ix := s.publishers[p].ix;
    if ix == |s.queues| {
      run, t := Then(s, [], s, Finish(p));
      return;
    }
    run, t := [], s;
    hide Run;
    if s.queues[ix].inFlight.Some? {
      run, t := Then(s, run, t, Receive(ix));
    }
    run, t := Then(s, run, t, HandOver(p));
    var more, u := CanFinish(t, p);
    RunConcat(Step, s, run, more);
    run, t := run + more, u;
  }

  /** What a stopped queue and a publisher on its way look like in every run. */
  predicate QueuesInv(s: State) {
    && (forall j :: 0 <= j < |s.queues| && s.queues[j].stopped ==> s.queues[j].inFlight.None?)
    && (forall p :: 0 <= p < |s.publishers| && s.publishers[p].Publishing? ==> s.publishers[p].ix <= |s.queues|)
  }

  lemma {:induction false} QueuesInEveryRun(publishers: nat, actions: seq<Action>, s: State)
    requires Reaches(publishers, actions, s)
    ensures QueuesInv(s)
  {
    forall s, a | QueuesInv(s) && Step(s, a).Some?
      ensures QueuesInv(Step(s, a).value)
    {
    }
    RunKeeps(Step, QueuesInv, Init(publishers), actions);
  }

  /**
   In every run: an event on its way can be published to its end, without giving up, exactly if none of
   the queues it has still to reach has stopped.
   */
  lemma {:induction false} FinishesIffClear(publishers: nat, actions: seq<Action>, s: State, p: nat)
    requires Reaches(publishers, actions, s) && p < |s.publishers| && s.publishers[p].Publishing?
    ensures (exists run, t :: Run(Step, s, run) == Some(t) && NeverGivesUp(p, run) && p < |t.publishers| && t.publishers[p].Idle?)
            <==> Clear(s, p)
  {
    QueuesInEveryRun(publishers, actions, s);
    if Clear(s, p) {
      var run, t := CanFinish(s, p);
    } else {
      var i: nat :| s.publishers[p].ix <= i < |s.queues| && s.queues[i].stopped;
      forall run, t | Run(Step, s, run) == Some(t) && NeverGivesUp(p, run)
        ensures p < |t.publishers| ==> !t.publishers[p].Idle?
      {
        StoppedQueueBlocks(s, run, t, p, i);
      }
    }
  }
}
