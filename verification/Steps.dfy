/** Runs of a step system, and sums over its goroutines for counts and for termination ranks. */
module Steps {
  import opened Wrappers

  /** The state a sequence of actions leads to, if each can be taken in turn. */
  function Run<S, A>(step: (S, A) -> Option<S>, s: S, actions: seq<A>): Option<S> {
    if actions == [] then Some(s)
    else match step(s, actions[0])
      case None => None
      case Some(t) => Run(step, t, actions[1..])
  }

  lemma RunNone<S, A>(step: (S, A) -> Option<S>, s: S)
    ensures Run(step, s, []) == Some(s)
  {
  }

  lemma {:induction false} RunThen<S, A>(step: (S, A) -> Option<S>, s: S, actions: seq<A>, a: A)
    requires Run(step, s, actions).Some?
    ensures Run(step, s, actions + [a]) == step(Run(step, s, actions).value, a)
  {
    if actions == [] {
      assert [a][1..] == [];
      RunNone(step, s);
    } else {
      assert (actions + [a])[1..] == actions[1..] + [a];
      RunThen(step, step(s, actions[0]).value, actions[1..], a);
    }
  }

  lemma {:induction false} RunConcat<S, A>(step: (S, A) -> Option<S>, s: S, first: seq<A>, second: seq<A>)
    requires Run(step, s, first).Some?
    ensures Run(step, s, first + second) == Run(step, Run(step, s, first).value, second)
  {
    if first == [] {
      assert [] + second == second;
    } else {
      assert (first + second)[1..] == first[1..] + second;
      RunConcat(step, step(s, first[0]).value, first[1..], second);
    }
  }

  lemma {:induction false} RunOne<S, A>(step: (S, A) -> Option<S>, s: S, a: A, actions: seq<A>)
    requires step(s, a).Some?
    ensures Run(step, s, [a] + actions) == Run(step, step(s, a).value, actions)
  {
    assert ([a] + actions)[1..] == actions;
  }

  /** A run goes through the states of its prefixes. */
  lemma {:induction false} RunPrefix<S, A>(step: (S, A) -> Option<S>, s: S, actions: seq<A>, k: nat)
    requires k <= |actions| && Run(step, s, actions).Some?
    ensures Run(step, s, actions[..k]).Some?
    ensures Run(step, Run(step, s, actions[..k]).value, actions[k..]) == Run(step, s, actions)
  {
    assert actions == actions[..k] + actions[k..];
    PrefixRuns(step, s, actions, k);
    RunConcat(step, s, actions[..k], actions[k..]);
  }

  lemma {:induction false} PrefixRuns<S, A>(step: (S, A) -> Option<S>, s: S, actions: seq<A>, k: nat)
    requires k <= |actions| && Run(step, s, actions).Some?
    ensures Run(step, s, actions[..k]).Some?
  {
    if k == 0 {
      assert actions[..0] == [];
    } else {
      assert actions[..k][1..] == actions[1..][..k - 1];
      PrefixRuns(step, step(s, actions[0]).value, actions[1..], k - 1);
    }
  }

  /** A step keeps `inv`. */
  ghost predicate Keeps<S(!new), A(!new)>(step: (S, A) -> Option<S>, inv: S -> bool) {
    forall s, a :: inv(s) && step(s, a).Some? ==> inv(step(s, a).value)
  }

  /** Under `inv`, a step lowers `rank`. */
  ghost predicate Lowers<S(!new), A(!new)>(step: (S, A) -> Option<S>, inv: S -> bool, rank: S -> nat) {
    forall s, a :: inv(s) && step(s, a).Some? ==> rank(step(s, a).value) < rank(s)
  }

  lemma {:induction false} RunKeeps<S(!new), A(!new)>(step: (S, A) -> Option<S>, inv: S -> bool, s: S, actions: seq<A>)
    requires Keeps(step, inv)
    requires inv(s) && Run(step, s, actions).Some?
    ensures inv(Run(step, s, actions).value)
  {
    if actions != [] {
      RunKeeps(step, inv, step(s, actions[0]).value, actions[1..]);
    }
  }

  lemma {:induction false} RunLowers<S(!new), A(!new)>(
      step: (S, A) -> Option<S>, inv: S -> bool, rank: S -> nat, s: S, actions: seq<A>)
    requires Keeps(step, inv) && Lowers(step, inv, rank)
    requires inv(s) && Run(step, s, actions).Some?
    ensures |actions| + rank(Run(step, s, actions).value) <= rank(s)
  {
    if actions != [] {
      RunLowers(step, inv, rank, step(s, actions[0]).value, actions[1..]);
    }
  }

  function Sum<A>(s: seq<A>, f: A -> nat): nat {
    if s == [] then 0 else f(s[0]) + Sum(s[1..], f)
  }

  lemma {:induction false} SumUpdate<A>(s: seq<A>, i: nat, a: A, f: A -> nat)
    requires i < |s|
    ensures Sum(s[i := a], f) + f(s[i]) == Sum(s, f) + f(a)
  {
    if i > 0 {
      assert s[i := a][1..] == s[1..][i - 1 := a];
      SumUpdate(s[1..], i - 1, a, f);
    } else {
      assert s[i := a][1..] == s[1..];
    }
  }

  lemma {:induction false} SumAt<A>(s: seq<A>, i: nat, f: A -> nat)
    requires i < |s|
    ensures f(s[i]) <= Sum(s, f)
  {
    if i > 0 {
      SumAt(s[1..], i - 1, f);
    }
  }

  lemma {:induction false} SumPositive<A>(s: seq<A>, f: A -> nat) returns (i: nat)
    requires Sum(s, f) > 0
    ensures i < |s| && f(s[i]) > 0
  {
    if f(s[0]) > 0 {
      i := 0;
    } else {
      i := SumPositive(s[1..], f);
      i := i + 1;
    }
  }

  lemma {:induction false} SumBound<A>(s: seq<A>, f: A -> nat, b: nat)
    requires forall i :: 0 <= i < |s| ==> f(s[i]) <= b
    ensures Sum(s, f) <= b * |s|
  {
    if s != [] {
      forall i | 0 <= i < |s[1..]| ensures f(s[1..][i]) <= b {
        assert s[1..][i] == s[i + 1];
      }
      SumBound(s[1..], f, b);
    }
  }

  lemma {:induction false} SumConstant<A>(s: seq<A>, f: A -> nat, c: nat)
    requires forall i :: 0 <= i < |s| ==> f(s[i]) == c
    ensures Sum(s, f) == c * |s|
  {
    if s != [] {
      forall i | 0 <= i < |s[1..]| ensures f(s[1..][i]) == c {
        assert s[1..][i] == s[i + 1];
      }
      SumConstant(s[1..], f, c);
    }
  }

  lemma {:induction false} SumZero<A>(s: seq<A>, f: A -> nat)
    requires Sum(s, f) == 0
    ensures forall i :: 0 <= i < |s| ==> f(s[i]) == 0
  {
    forall i | 0 <= i < |s|
      ensures f(s[i]) == 0
    {
      SumAt(s, i, f);
    }
  }
}
