/**
 * Two signatures and two parties: where packages/node/src/transitions.ts asks for both parties it
 * counts keys. While each party has one key that is its own, two keys are the two parties; a party
 * that has rotated holds two keys, and can answer for both.
 */
module TwoSignatures {
  import opened Prelude
  import opened Replay
  import opened Transitions
  import opened TransitionSafety
  import R = Rotation

  // ---------------------------------------------------------------- what is promised

  // The owner and the party it is owed to each signed this claim, with different keys.
  ghost predicate BothSigned(edge: Edge, v: Verifier, h: seq<Assertion>, claim: Claim) {
    exists a, b :: a in h && b in h && a.state == claim && b.state == claim && v.verifies(a) && v.verifies(b) &&
      a.signer != b.signer && IsOwner(edge, v, a) && IsOwedTo(edge, v, b)
  }

  // The chain state holds a claim as made by both.
  predicate CountsAsBoth(c: Chain, claim: Claim) {
    || (claim == Superseded && (|c.supersededBy| == 2 || |c.contestSupersededBy| == 2))
    || (claim == Closed && (|c.disputeClosedBy| == 2 || |c.contestClosedBy| == 2))
  }

  // In this chain, what counts as made by both parties was made by both.
  ghost predicate Upheld(edge: Edge, v: Verifier, chain: seq<Assertion>) {
    var step := TableOf(edge, v, true);
    forall claim :: CountsAsBoth(Final(step, START, chain), claim) ==>
      BothSigned(edge, v, Accepted(step, START, chain), claim)
  }

  // ---------------------------------------------------------------- the condition

  // When the lineage stops holding a key: never, or at an instant; None when it does not list it.
  function Until(lineage: seq<PartyKey>, key: Key): Option<Option<int>> {
    if lineage == [] then None
    else if lineage[0].key == key then Some(lineage[0].supersededAt)
    else Until(lineage[1..], key)
  }

  // The key is held by p at some instant at which q does not hold it.
  predicate OwnKey(p: seq<PartyKey>, q: seq<PartyKey>, key: Key) {
    match Until(p, key)
    case None => false
    case Some(end) =>
      match Until(q, key)
      case None => true
      case Some(None) => false
      case Some(Some(other)) => end.None? || end.value > other
  }

  // No two keys in p are p's own.
  predicate AtMostOneOwn(p: seq<PartyKey>, q: seq<PartyKey>) {
    forall i, j :: 0 <= i < |p| && 0 <= j < |p| && OwnKey(p, q, p[i].key) && OwnKey(p, q, p[j].key) ==>
      p[i].key == p[j].key
  }

  predicate OneKeyEach(edge: Edge, v: Verifier) {
    var owner, owedTo := v.lineage(edge.owner), v.lineage(edge.owedTo);
    AtMostOneOwn(owner, owedTo) && AtMostOneOwn(owedTo, owner)
  }

  lemma {:induction false} HeldUntil(lineage: seq<PartyKey>, key: Key, at: int)
    ensures HeldBy(lineage, key, at) <==>
            Until(lineage, key).Some? && (Until(lineage, key).value.None? || at < Until(lineage, key).value.value)
    ensures Until(lineage, key).Some? ==> exists i :: 0 <= i < |lineage| && lineage[i].key == key
  {
    if lineage != [] && lineage[0].key != key {
      HeldUntil(lineage[1..], key, at);
      if Until(lineage, key).Some? {
        var i :| 0 <= i < |lineage[1..]| && lineage[1..][i].key == key;
        assert lineage[i + 1].key == key;
      }
    }
  }

  // An instant at which p holds the key and q does not, when there is one.
  lemma OwnInstant(p: seq<PartyKey>, q: seq<PartyKey>, key: Key) returns (at: int)
    requires OwnKey(p, q, key)
    ensures HeldBy(p, key, at) && !HeldBy(q, key, at)
  {
    var end, other := Until(p, key).value, Until(q, key);
    at := if other.Some? then other.value.value else if end.Some? then end.value - 1 else 0;
    HeldUntil(p, key, at);
    HeldUntil(q, key, at);
  }

  lemma IsOwn(p: seq<PartyKey>, q: seq<PartyKey>, key: Key, at: int)
    requires HeldBy(p, key, at) && !HeldBy(q, key, at)
    ensures OwnKey(p, q, key) && exists i :: 0 <= i < |p| && p[i].key == key
  {
    HeldUntil(p, key, at);
    HeldUntil(q, key, at);
  }

  // ---------------------------------------------------------------- one key each is enough

  lemma TwoAreBoth(edge: Edge, v: Verifier, h: seq<Assertion>, claim: Claim)
    requires OneKeyEach(edge, v) && TwoKeysSigned(edge, v, h, claim)
    ensures BothSigned(edge, v, h, claim)
  {
    var owner, owedTo := v.lineage(edge.owner), v.lineage(edge.owedTo);
    var x, y :| x != y && KeySigned(edge, v, h, x, claim) && KeySigned(edge, v, h, y, claim);
    var a :| a in h && a.signer == x && a.state == claim && Signed(edge, v, a);
    var b :| b in h && b.signer == y && b.state == claim && Signed(edge, v, b);
    if IsOwner(edge, v, a) && IsOwedTo(edge, v, b) {
    } else if IsOwner(edge, v, b) && IsOwedTo(edge, v, a) {
    } else if IsOwner(edge, v, a) {
      IsOwn(owner, owedTo, x, a.assertedAt);
      IsOwn(owner, owedTo, y, b.assertedAt);
    } else {
      IsOwn(owedTo, owner, x, a.assertedAt);
      IsOwn(owedTo, owner, y, b.assertedAt);
    }
  }

  lemma CountedTwice(edge: Edge, v: Verifier, c: Chain, h: seq<Assertion>, claim: Claim)
    requires Recorded(edge, v, c, h) && CountsAsBoth(c, claim)
    ensures TwoKeysSigned(edge, v, h, claim)
  {
    if claim == Superseded {
      TwoOfTwo(edge, v, h, if |c.supersededBy| == 2 then c.supersededBy else c.contestSupersededBy, claim);
    } else {
      TwoOfTwo(edge, v, h, if |c.disputeClosedBy| == 2 then c.disputeClosedBy else c.contestClosedBy, claim);
    }
  }

  // While each party has at most one key of its own, what counts as both parties is both parties,
  // in every chain.
  lemma OneKeyEachUpholds(edge: Edge, v: Verifier, chain: seq<Assertion>)
    requires OneKeyEach(edge, v)
    ensures Upheld(edge, v, chain)
  {
    var step := TableOf(edge, v, true);
    EveryChainIsSafe(edge, v, true, chain);
    forall claim | CountsAsBoth(Final(step, START, chain), claim)
      ensures BothSigned(edge, v, Accepted(step, START, chain), claim)
    {
      CountedTwice(edge, v, Final(step, START, chain), Accepted(step, START, chain), claim);
      TwoAreBoth(edge, v, Accepted(step, START, chain), claim);
    }
  }

  // ---------------------------------------------------------------- and needed

  function Claims(edge: Edge, state: Claim, signer: Key, at: int): Assertion {
    Assertion(edge.edgeId, state, at, signer, None, "")
  }

  // Proposed and confirmed at one instant, then superseded by two keys.
  function SupersededByTwo(edge: Edge, owner: Key, owedTo: Key, start: int, x: Key, atX: int, y: Key, atY: int)
    : seq<Assertion>
  {
    [Claims(edge, Proposed, owner, start), Claims(edge, Confirmed, owedTo, start),
     Claims(edge, Superseded, x, atX), Claims(edge, Superseded, y, atY)]
  }

  lemma OneAccepted(step: Table<Chain, Assertion>, c: Chain, a: Assertion, rest: seq<Assertion>, next: Chain)
    requires step(c, a) == Some(next)
    ensures Final(step, c, [a] + rest) == Final(step, next, rest)
    ensures Accepted(step, c, [a] + rest) == [a] + Accepted(step, next, rest)
  {
    assert ([a] + rest)[1..] == rest;
  }

  // The table state before each of the four assertions.
  function ProposedAt(owner: Key, start: int): Chain {
    START.(state := SProposed, latestBySigner := map[owner := start])
  }

  function OpenAt(owner: Key, owedTo: Key, start: int): Chain {
    var c := ProposedAt(owner, start);
    c.(state := SOpen, latestBySigner := c.latestBySigner[owedTo := start])
  }

  function HalfSuperseded(c: Chain, x: Key, atX: int): Chain {
    c.(supersededBy := {x}, latestBySigner := c.latestBySigner[x := atX])
  }

  function FullySuperseded(c: Chain, x: Key, y: Key, atY: int): Chain {
    c.(supersededBy := {x, y}, state := SSuperseded, resolvedAt := Some(atY),
       latestBySigner := c.latestBySigner[y := atY])
  }

  lemma OpensByTwo(edge: Edge, v: Verifier, owner: Key, owedTo: Key, start: int)
    requires forall a :: v.verifies(a)
    requires HeldBy(v.lineage(edge.owner), owner, start) && HeldBy(v.lineage(edge.owedTo), owedTo, start)
    ensures TableOf(edge, v, true)(START, Claims(edge, Proposed, owner, start)) == Some(ProposedAt(owner, start))
    ensures TableOf(edge, v, true)(ProposedAt(owner, start), Claims(edge, Confirmed, owedTo, start))
            == Some(OpenAt(owner, owedTo, start))
  {
  }

  lemma FirstSupersedes(edge: Edge, v: Verifier, owner: Key, owedTo: Key, start: int, x: Key, atX: int)
    requires forall a :: v.verifies(a)
    requires start <= atX && (HeldBy(v.lineage(edge.owner), x, atX) || HeldBy(v.lineage(edge.owedTo), x, atX))
    ensures TableOf(edge, v, true)(OpenAt(owner, owedTo, start), Claims(edge, Superseded, x, atX))
            == Some(HalfSuperseded(OpenAt(owner, owedTo, start), x, atX))
  {
    assert {} + {x} == {x};
  }

  lemma SecondSupersedes(edge: Edge, v: Verifier, c: Chain, start: int, x: Key, atX: int, y: Key, atY: int)
    requires forall a :: v.verifies(a)
    requires c.state == SOpen && (y in c.latestBySigner ==> c.latestBySigner[y] <= start)
    requires x != y && start <= atY && (HeldBy(v.lineage(edge.owner), y, atY) || HeldBy(v.lineage(edge.owedTo), y, atY))
    ensures TableOf(edge, v, true)(HalfSuperseded(c, x, atX), Claims(edge, Superseded, y, atY))
            == Some(FullySuperseded(HalfSuperseded(c, x, atX), x, y, atY))
  {
    assert {x} + {y} == {x, y} && |{x, y}| == 2;
  }

  lemma SupersedingRuns(edge: Edge, v: Verifier, owner: Key, owedTo: Key, start: int,
                        x: Key, atX: int, y: Key, atY: int)
    requires forall a :: v.verifies(a)
    requires x != y && start <= atX && start <= atY
    requires HeldBy(v.lineage(edge.owner), owner, start) && HeldBy(v.lineage(edge.owedTo), owedTo, start)
    requires HeldBy(v.lineage(edge.owner), x, atX) || HeldBy(v.lineage(edge.owedTo), x, atX)
    requires HeldBy(v.lineage(edge.owner), y, atY) || HeldBy(v.lineage(edge.owedTo), y, atY)
    ensures var step, chain := TableOf(edge, v, true), SupersededByTwo(edge, owner, owedTo, start, x, atX, y, atY);
      && Final(step, START, chain).state == SSuperseded && Final(step, START, chain).supersededBy == {x, y}
      && Accepted(step, START, chain) == chain
  {
    var step, chain := TableOf(edge, v, true), SupersededByTwo(edge, owner, owedTo, start, x, atX, y, atY);
    var c1, c2 := ProposedAt(owner, start), OpenAt(owner, owedTo, start);
    var c3 := HalfSuperseded(c2, x, atX);
    OpensByTwo(edge, v, owner, owedTo, start);
    FirstSupersedes(edge, v, owner, owedTo, start, x, atX);
    SecondSupersedes(edge, v, c2, start, x, atX, y, atY);
    FourAccepted(step, START, c1, c2, c3, FullySuperseded(c3, x, y, atY), chain);
  }

  lemma FourAccepted(step: Table<Chain, Assertion>, c0: Chain, c1: Chain, c2: Chain, c3: Chain, c4: Chain,
                     chain: seq<Assertion>)
    requires |chain| == 4 && step(c0, chain[0]) == Some(c1) && step(c1, chain[1]) == Some(c2)
    requires step(c2, chain[2]) == Some(c3) && step(c3, chain[3]) == Some(c4)
    ensures Final(step, c0, chain) == c4 && Accepted(step, c0, chain) == chain
  {
    OneAccepted(step, c0, chain[0], chain[1..], c1);
    OneAccepted(step, c1, chain[1], chain[2..], c2);
    OneAccepted(step, c2, chain[2], chain[3..], c3);
    OneAccepted(step, c3, chain[3], [], c4);
    assert chain == [chain[0]] + chain[1..] && chain[1..] == [chain[1]] + chain[2..];
    assert chain[2..] == [chain[2]] + chain[3..] && chain[3..] == [chain[3]] + [];
  }

  // A key of a lineage is held at every instant early enough.
  lemma HeldEarly(lineage: seq<PartyKey>, before: int) returns (at: int)
    requires lineage != []
    ensures at <= before && forall t :: t <= at ==> HeldBy(lineage, lineage[0].key, t)
  {
    at := match lineage[0].supersededAt case None => before case Some(end) => Min(before, end - 1);
  }

  // Two keys that are one party's own, at instants when they are, supersede the edge without the other.
  lemma OnePartySupersedes(edge: Edge, v: Verifier, owner: Key, owedTo: Key, start: int,
                           x: Key, atX: int, y: Key, atY: int)
    requires forall a :: v.verifies(a)
    requires x != y && start <= atX && start <= atY
    requires HeldBy(v.lineage(edge.owner), owner, start) && HeldBy(v.lineage(edge.owedTo), owedTo, start)
    requires var p, q := v.lineage(edge.owner), v.lineage(edge.owedTo);
      || (HeldBy(p, x, atX) && !HeldBy(q, x, atX) && HeldBy(p, y, atY) && !HeldBy(q, y, atY))
      || (HeldBy(q, x, atX) && !HeldBy(p, x, atX) && HeldBy(q, y, atY) && !HeldBy(p, y, atY))
    ensures var chain := SupersededByTwo(edge, owner, owedTo, start, x, atX, y, atY);
      && Final(TableOf(edge, v, true), START, chain).state == SSuperseded
      && !BothSigned(edge, v, chain, Superseded) && !Upheld(edge, v, chain)
  {
    var step, chain := TableOf(edge, v, true), SupersededByTwo(edge, owner, owedTo, start, x, atX, y, atY);
    SupersedingRuns(edge, v, owner, owedTo, start, x, atX, y, atY);
    forall a, b | a in chain && b in chain && a.state == Superseded && b.state == Superseded
      ensures !(IsOwner(edge, v, a) && IsOwedTo(edge, v, b))
    {
      assert a == chain[2] || a == chain[3];
      assert b == chain[2] || b == chain[3];
    }
    assert |Final(step, START, chain).supersededBy| == 2;
    assert CountsAsBoth(Final(step, START, chain), Superseded);
  }

  lemma TwoOwnKeysFail(edge: Edge, v: Verifier) returns (chain: seq<Assertion>)
    requires forall a :: v.verifies(a)
    requires v.lineage(edge.owner) != [] && v.lineage(edge.owedTo) != [] && !OneKeyEach(edge, v)
    ensures !Upheld(edge, v, chain)
  {
    var owner, owedTo := v.lineage(edge.owner), v.lineage(edge.owedTo);
    var p := if AtMostOneOwn(owner, owedTo) then owedTo else owner;
    var q := if AtMostOneOwn(owner, owedTo) then owner else owedTo;
    var i, j :| 0 <= i < |p| && 0 <= j < |p| && p[i].key != p[j].key &&
                OwnKey(p, q, p[i].key) && OwnKey(p, q, p[j].key);
    var atX := OwnInstant(p, q, p[i].key);
    var atY := OwnInstant(p, q, p[j].key);
    var early := HeldEarly(owner, Min(atX, atY));
    var start := HeldEarly(owedTo, early);
    OnePartySupersedes(edge, v, owner[0].key, owedTo[0].key, start, p[i].key, atX, p[j].key, atY);
    chain := SupersededByTwo(edge, owner[0].key, owedTo[0].key, start, p[i].key, atX, p[j].key, atY);
  }

  // Whoever can sign what: every chain in which two signatures count as both parties carries both
  // parties' signatures if and only if each party has at most one key of its own.
  lemma TwoKeysAreBothPartiesIff(edge: Edge, v: Verifier)
    requires v.lineage(edge.owner) != [] && v.lineage(edge.owedTo) != []
    ensures (forall verifies: Assertion -> bool, chain: seq<Assertion> :: Upheld(edge, v.(verifies := verifies), chain))
            <==> OneKeyEach(edge, v)
  {
    if OneKeyEach(edge, v) {
      forall verifies: Assertion -> bool, chain: seq<Assertion>
        ensures Upheld(edge, v.(verifies := verifies), chain)
      {
        OneKeyEachUpholds(edge, v.(verifies := verifies), chain);
      }
    } else {
      var all: Assertion -> bool := (_: Assertion) => true;
      var chain := TwoOwnKeysFail(edge, v.(verifies := all));
      assert !Upheld(edge, v.(verifies := all), chain);
    }
  }

  // Nobody having rotated is one way to have one key each.
  lemma UnrotatedHasOneKeyEach(edge: Edge, v: Verifier)
    requires v.lineage(edge.owner) == [R.PartyKey(edge.owner, None)]
    requires v.lineage(edge.owedTo) == [R.PartyKey(edge.owedTo, None)]
    ensures OneKeyEach(edge, v)
  {
  }

  // ---------------------------------------------------------------- a chain that shows it

  // The owner held "o1" until 10 and holds "o2" since; the other party has not rotated.
  function RotatedOwner(): Verifier {
    Verifier((_: Assertion) => true,
             (key: Key) =>
               if key == "o1" then [R.PartyKey("o1", Some(10)), R.PartyKey("o2", None)] else [R.PartyKey(key, None)],
             (at: int, _: string) => at, None)
  }

  function OwedByRotatedOwner(): Edge {
    Edge("e", "", "o1", "c", "", None, OnEvidence, None)
  }

  // The owner signs `superseded` with its old key at 2 and with its new one at 11: the edge is superseded,
  // and the other party signed nothing of that.
  lemma RotatedOwnerSupersedesAlone()
    ensures var edge, v := OwedByRotatedOwner(), RotatedOwner();
      var chain := SupersededByTwo(edge, "o1", "c", 0, "o1", 2, "o2", 11);
      && Final(TableOf(edge, v, true), START, chain).state == SSuperseded
      && (forall a :: a in chain && a.state == Superseded ==> a.signer != "c" && !IsOwedTo(edge, v, a))
  {
    var edge, v := OwedByRotatedOwner(), RotatedOwner();
    var owner := v.lineage(edge.owner);
    HeldUntil(owner, "o1", 0);
    HeldUntil(owner, "o1", 2);
    HeldUntil(owner, "o2", 11);
    assert owner[1..] == [R.PartyKey("o2", None)];
    OnePartySupersedes(edge, v, "o1", "c", 0, "o1", 2, "o2", 11);
  }
}
