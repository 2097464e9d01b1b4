/** What an iterator hands to a consumer that may stop it. */
module Visits {

  /** What an iterator hands out when its consumer stops at the first value it does not accept. */
  function Visited<A>(s: seq<A>, accept: A -> bool): seq<A> {
    if s == [] then [] else if accept(s[0]) then [s[0]] + Visited(s[1..], accept) else [s[0]]
  }

  /** What has been handed out, and what is left to be looked at. */
  ghost predicate ToVisit<A>(out: seq<A>, rest: seq<A>, all: seq<A>, accept: A -> bool) {
    out + Visited(rest, accept) == Visited(all, accept)
  }

  lemma VisitStart<A>(all: seq<A>, accept: A -> bool)
    ensures ToVisit([], all, all, accept)
  {
  }

  lemma {:induction false} VisitMore<A>(out: seq<A>, rest: seq<A>, all: seq<A>, accept: A -> bool)
    requires ToVisit(out, rest, all, accept) && rest != []
    ensures if accept(rest[0]) then ToVisit(out + [rest[0]], rest[1..], all, accept)
            else out + [rest[0]] == Visited(all, accept)
  {
    assert out + ([rest[0]] + Visited(rest[1..], accept)) == out + [rest[0]] + Visited(rest[1..], accept);
  }

  lemma {:induction false} VisitEnd<A>(out: seq<A>, all: seq<A>, accept: A -> bool)
    requires ToVisit(out, [], all, accept)
    ensures out == Visited(all, accept)
  {
  }

  /** A consumer that accepts everything is handed everything. */
  lemma {:induction false} VisitedAll<A>(all: seq<A>, accept: A -> bool)
    requires forall a <- all :: accept(a)
    ensures Visited(all, accept) == all
  {
    if all != [] {
      assert forall a <- all[1..] :: a in all;
      VisitedAll(all[1..], accept);
      assert all == [all[0]] + all[1..];
    }
  }
}
