/**
 * Replaying a chain of assertions through a transition table, for any table at all: a step either
 * accepts an assertion and moves to a new state, or rejects it and leaves the state as it was.
 */
module Replay {
  import opened Prelude

  type Table<!S, !A> = (S, A) -> Option<S>

  function Next<S, A>(step: Table<S, A>, s: S, a: A): S {
    match step(s, a)
    case Some(t) => t
    case None => s
  }

  function Final<S, A>(step: Table<S, A>, s: S, chain: seq<A>): S {
    if chain == [] then s else Final(step, Next(step, s, chain[0]), chain[1..])
  }

  // Which assertions of the chain are accepted, each in the context of those before it.
  function Outcomes<S, A>(step: Table<S, A>, s: S, chain: seq<A>): (o: seq<bool>)
    ensures |o| == |chain|
  {
    if chain == [] then []
    else [step(s, chain[0]).Some?] + Outcomes(step, Next(step, s, chain[0]), chain[1..])
  }

  function Accepted<S, A>(step: Table<S, A>, s: S, chain: seq<A>): seq<A> {
    if chain == [] then []
    else
      var rest := Accepted(step, Next(step, s, chain[0]), chain[1..]);
      if step(s, chain[0]).Some? then [chain[0]] + rest else rest
  }

  // One step of a replay from the i-th assertion on.
  lemma ReplayFrom<S, A>(step: Table<S, A>, s: S, chain: seq<A>, i: nat)
    requires i < |chain|
    ensures var next := Next(step, s, chain[i]);
      && Outcomes(step, s, chain[i..]) == [step(s, chain[i]).Some?] + Outcomes(step, next, chain[i + 1..])
      && Accepted(step, s, chain[i..]) ==
         (if step(s, chain[i]).Some? then [chain[i]] else []) + Accepted(step, next, chain[i + 1..])
  {
    assert chain[i..][0] == chain[i] && chain[i..][1..] == chain[i + 1..];
  }

  lemma {:induction false} FinalOfConcat<S, A>(step: Table<S, A>, s: S, x: seq<A>, y: seq<A>)
    ensures Final(step, s, x + y) == Final(step, Final(step, s, x), y)
    ensures Outcomes(step, s, x + y) == Outcomes(step, s, x) + Outcomes(step, Final(step, s, x), y)
    ensures Accepted(step, s, x + y) == Accepted(step, s, x) + Accepted(step, Final(step, s, x), y)
    decreases |x|
  {
    if x == [] {
      assert x + y == y;
    } else {
      assert (x + y)[1..] == x[1..] + y;
      FinalOfConcat(step, Next(step, s, x[0]), x[1..], y);
    }
  }

  // What is accepted from a chain is accepted whole when replayed alone, and leads to the same state.
  lemma {:induction false} AcceptedReplays<S, A>(step: Table<S, A>, s: S, chain: seq<A>)
    ensures Final(step, s, Accepted(step, s, chain)) == Final(step, s, chain)
    ensures Accepted(step, s, Accepted(step, s, chain)) == Accepted(step, s, chain)
    ensures forall i :: 0 <= i < |Accepted(step, s, chain)| ==> Outcomes(step, s, Accepted(step, s, chain))[i]
    decreases |chain|
  {
    if chain != [] {
      var t, rest := Next(step, s, chain[0]), chain[1..];
      AcceptedReplays(step, t, rest);
      if step(s, chain[0]).Some? {
        assert ([chain[0]] + Accepted(step, t, rest))[1..] == Accepted(step, t, rest);
      }
    }
  }

  lemma {:induction false} AcceptedIsFrom<S, A>(step: Table<S, A>, s: S, chain: seq<A>)
    ensures |Accepted(step, s, chain)| <= |chain|
    ensures forall a :: a in Accepted(step, s, chain) ==> a in chain
    decreases |chain|
  {
    if chain != [] {
      AcceptedIsFrom(step, Next(step, s, chain[0]), chain[1..]);
      assert chain == [chain[0]] + chain[1..];
    }
  }
}
