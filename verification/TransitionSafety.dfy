/**
 * What the transition table guarantees over whole chains: every state an edge can reach has been
 * paid for with the signatures, dates and evidence it needs, whatever else is in the chain.
 */
module TransitionSafety {
  import opened Prelude
  import opened Replay
  import opened Transitions
  import R = Rotation

  // ---------------------------------------------------------------- what has been signed

  // A key one of the parties held at the instant it claims signed this.
  predicate Signed(edge: Edge, v: Verifier, a: Assertion) {
    v.verifies(a) && (IsOwner(edge, v, a) || IsOwedTo(edge, v, a))
  }

  ghost predicate OwnerSigned(edge: Edge, v: Verifier, h: seq<Assertion>, claim: Claim) {
    exists a :: a in h && a.state == claim && IsOwner(edge, v, a) && v.verifies(a)
  }

  ghost predicate OwedToSigned(edge: Edge, v: Verifier, h: seq<Assertion>, claim: Claim) {
    exists a :: a in h && a.state == claim && IsOwedTo(edge, v, a) && v.verifies(a)
  }

  // The owner asserts closure with evidence.
  predicate ShowsEvidence(edge: Edge, v: Verifier, a: Assertion) {
    v.verifies(a) && a.state == Closed && IsOwner(edge, v, a) && a.evidenceHash.Some?
  }

  predicate Disputes(edge: Edge, v: Verifier, a: Assertion) {
    Signed(edge, v, a) && a.state == Disputed && a.evidenceHash.Some?
  }

  // Not dated more than a day past the verifier's clock.
  predicate NotAhead(v: Verifier, a: Assertion) {
    v.now.Some? ==> a.assertedAt - v.now.value <= 24 * 60 * 60 * 1000
  }

  // One party's exit, legal from `open`: the owner closes with evidence, the other party releases, or either
  // expires what was due by then, not dating it past the clock.
  predicate LegalExit(edge: Edge, v: Verifier, a: Assertion) {
    Signed(edge, v, a) &&
    match a.state
    case Closed => IsOwner(edge, v, a) && a.evidenceHash.Some?
    case Released => IsOwedTo(edge, v, a)
    case Expired => edge.due.Some? && edge.due.value <= a.assertedAt && NotAhead(v, a)
    case _ => false
  }

  // Two keys took different legal exits, the second no later than the first.
  predicate Rivals(edge: Edge, v: Verifier, a: Assertion, b: Assertion) {
    && LegalExit(edge, v, a) && LegalExit(edge, v, b)
    && a.signer != b.signer && a.state != b.state && b.assertedAt <= a.assertedAt
  }

  predicate ExpiresAt(edge: Edge, v: Verifier, a: Assertion, instant: int) {
    Signed(edge, v, a) && a.state == Expired && a.assertedAt >= instant
  }

  // The owner showed evidence, and asserted closure again once the acceptance window had run.
  ghost predicate WindowRan(edge: Edge, v: Verifier, h: seq<Assertion>) {
    edge.acceptanceWindow.Some? &&
    exists i, j :: 0 <= i < j < |h| && ShowsEvidence(edge, v, h[i]) &&
      v.verifies(h[j]) && h[j].state == Closed && IsOwner(edge, v, h[j]) &&
      h[j].assertedAt >= v.addDuration(h[i].assertedAt, edge.acceptanceWindow.value)
  }

  // A party expired the edge once a dispute with evidence had stood for the whole dispute window.
  ghost predicate DisputeRan(edge: Edge, v: Verifier, h: seq<Assertion>) {
    exists i, j :: 0 <= i < j < |h| && Disputes(edge, v, h[i]) &&
      ExpiresAt(edge, v, h[j], v.addDuration(h[i].assertedAt, DISPUTE_WINDOW))
  }

  // A party expired the edge once two rival exits had stood for the whole dispute window.
  ghost predicate ContestRan(edge: Edge, v: Verifier, h: seq<Assertion>) {
    exists i, j, k :: 0 <= i < k < |h| && 0 <= j < k && Rivals(edge, v, h[i], h[j]) &&
      ExpiresAt(edge, v, h[k], v.addDuration(h[j].assertedAt, DISPUTE_WINDOW))
  }

  ghost predicate DuePassed(edge: Edge, v: Verifier, h: seq<Assertion>) {
    edge.due.Some? && exists a :: a in h && ExpiresAt(edge, v, a, edge.due.value)
  }

  ghost predicate KeySigned(edge: Edge, v: Verifier, h: seq<Assertion>, key: Key, claim: Claim) {
    exists a :: a in h && a.signer == key && a.state == claim && Signed(edge, v, a)
  }

  ghost predicate TwoKeysSigned(edge: Edge, v: Verifier, h: seq<Assertion>, claim: Claim) {
    exists x, y :: x != y && KeySigned(edge, v, h, x, claim) && KeySigned(edge, v, h, y, claim)
  }

  // ---------------------------------------------------------------- what each state has behind it

  ghost predicate Consented(edge: Edge, v: Verifier, c: Chain, h: seq<Assertion>) {
    && (c.state != SNone ==> OwnerSigned(edge, v, h, Proposed))
    && (c.state != SNone && c.state != SProposed ==> OwedToSigned(edge, v, h, Confirmed))
    && ((c.state == SNone || c.state == SProposed || c.state == SOpen) ==> c.exit.None?)
  }

  ghost predicate ClosureEarned(edge: Edge, v: Verifier, h: seq<Assertion>) {
    || (edge.closurePolicy == OnEvidence && exists a :: a in h && ShowsEvidence(edge, v, a))
    || OwedToSigned(edge, v, h, Closed)
    || WindowRan(edge, v, h)
    || TwoKeysSigned(edge, v, h, Closed)
  }

  ghost predicate AllSigned(edge: Edge, v: Verifier, h: seq<Assertion>, keys: set<Key>, claim: Claim) {
    forall k :: k in keys ==> KeySigned(edge, v, h, k, claim)
  }

  ghost predicate WindowOpened(edge: Edge, v: Verifier, h: seq<Assertion>, at: Option<int>) {
    at.Some? ==> exists a :: a in h && ShowsEvidence(edge, v, a) && a.assertedAt == at.value
  }

  ghost predicate DisputeOpened(edge: Edge, v: Verifier, h: seq<Assertion>, at: Option<int>) {
    at.Some? ==> exists a :: a in h && Disputes(edge, v, a) && a.assertedAt == at.value
  }

  ghost predicate ExitTaken(edge: Edge, v: Verifier, h: seq<Assertion>, exit: Option<Exit>) {
    exit.Some? ==> exists a :: a in h && LegalExit(edge, v, a) && Exit(a.state, a.signer, a.assertedAt) == exit.value
  }

  ghost predicate ContestOpened(edge: Edge, v: Verifier, h: seq<Assertion>, at: Option<int>) {
    at.Some? ==> exists a, b :: a in h && b in h && Rivals(edge, v, a, b) && b.assertedAt == at.value
  }

  // Everything the chain state remembers was signed.
  ghost predicate Recorded(edge: Edge, v: Verifier, c: Chain, h: seq<Assertion>) {
    && AllSigned(edge, v, h, c.supersededBy, Superseded) && AllSigned(edge, v, h, c.contestSupersededBy, Superseded)
    && AllSigned(edge, v, h, c.disputeClosedBy, Closed) && AllSigned(edge, v, h, c.contestClosedBy, Closed)
    && WindowOpened(edge, v, h, c.windowOpenedAt) && DisputeOpened(edge, v, h, c.disputedAt)
    && ExitTaken(edge, v, h, c.exit) && ContestOpened(edge, v, h, c.contestedAt)
    && (c.state == SPendingAcceptance ==> c.windowOpenedAt.Some?)
    && (c.state == SDisputed ==> c.disputedAt.Some?)
    && (c.state == SContestedClosure ==> c.contestedAt.Some?)
  }

  ghost predicate Earned(edge: Edge, v: Verifier, c: Chain, h: seq<Assertion>) {
    && (c.state == SClosed ==> ClosureEarned(edge, v, h))
    && (c.state == SReleased ==> OwedToSigned(edge, v, h, Released))
    && (c.state == SSuperseded ==> TwoKeysSigned(edge, v, h, Superseded))
    && (c.state == SExpired ==> DuePassed(edge, v, h) || DisputeRan(edge, v, h) || ContestRan(edge, v, h))
  }

  // ---------------------------------------------------------------- one step

  lemma ConsentedStep(edge: Edge, v: Verifier, c: Chain, h: seq<Assertion>, a: Assertion)
    requires Consented(edge, v, c, h) && Judge(edge, v, c, a).Accept?
    ensures Consented(edge, v, Judge(edge, v, c, a).chain, h + [a])
  {
    assert a in h + [a];
    assert forall x :: x in h ==> x in h + [a];
  }

  // A set of signers stays, or gains the signer of an assertion that makes this claim.
  predicate Gains(before: set<Key>, after: set<Key>, a: Assertion, claim: Claim) {
    after == before || (a.state == claim && after == before + {a.signer})
  }

  // How one accepted assertion can change which signers the chain state remembers.
  predicate RemembersSigners(c: Chain, a: Assertion, c': Chain) {
    && Gains(c.supersededBy, c'.supersededBy, a, Superseded)
    && Gains(c.contestSupersededBy, c'.contestSupersededBy, a, Superseded)
    && Gains(c.disputeClosedBy, c'.disputeClosedBy, a, Closed)
    && Gains(c.contestClosedBy, c'.contestClosedBy, a, Closed)
  }

  // And which instants and exits.
  predicate RemembersInstants(edge: Edge, v: Verifier, c: Chain, a: Assertion, c': Chain) {
    && (c'.windowOpenedAt == c.windowOpenedAt ||
        (ShowsEvidence(edge, v, a) && c'.windowOpenedAt == Some(a.assertedAt)))
    && (c'.disputedAt == c.disputedAt || (Disputes(edge, v, a) && c'.disputedAt == Some(a.assertedAt)))
    && (c'.exit == c.exit || (LegalExit(edge, v, a) && c'.exit == Some(Exit(a.state, a.signer, a.assertedAt))))
    && (c'.contestedAt == c.contestedAt ||
        (Contests(c, a) && LegalExit(edge, v, a) && c'.contestedAt == Some(a.assertedAt)))
    && (c'.state == SPendingAcceptance ==> c'.windowOpenedAt.Some?)
    && (c'.state == SDisputed ==> c'.disputedAt.Some? || (c.state == SDisputed && c'.disputedAt == c.disputedAt))
    && (c'.state == SContestedClosure ==>
          c'.contestedAt.Some? || (c.state == SContestedClosure && c'.contestedAt == c.contestedAt))
  }

  // What a step does besides, whatever the assertion claims.
  lemma SignersAfterSimple(edge: Edge, v: Verifier, c: Chain, a: Assertion, c': Chain)
    requires Step(edge, v, c, a) == Accept(c') && a.state != Closed && a.state != Superseded
    ensures c'.supersededBy == c.supersededBy && c'.contestSupersededBy == c.contestSupersededBy
    ensures c'.disputeClosedBy == c.disputeClosedBy && c'.contestClosedBy == c.contestClosedBy
  {
  }

  lemma SignersAfterClosed(edge: Edge, v: Verifier, c: Chain, a: Assertion, c': Chain)
    requires Step(edge, v, c, a) == Accept(c') && a.state == Closed
    ensures RemembersSigners(c, a, c')
  {
    if c.state == SDisputed {
      SignersAfterClosedInDispute(edge, v, c, a, c');
    }
  }

  lemma SignersAfterClosedInDispute(edge: Edge, v: Verifier, c: Chain, a: Assertion, c': Chain)
    requires Step(edge, v, c, a) == Accept(c') && a.state == Closed && c.state == SDisputed
    ensures RemembersSigners(c, a, c')
  {
  }

  lemma SignersAfterSuperseded(edge: Edge, v: Verifier, c: Chain, a: Assertion, c': Chain)
    requires Step(edge, v, c, a) == Accept(c') && a.state == Superseded
    ensures RemembersSigners(c, a, c')
  {
  }

  lemma StepRemembersSigners(edge: Edge, v: Verifier, c: Chain, a: Assertion, c': Chain)
    requires Step(edge, v, c, a) == Accept(c')
    ensures RemembersSigners(c, a, c')
  {
    if a.state == Closed {
      SignersAfterClosed(edge, v, c, a, c');
    } else if a.state == Superseded {
      SignersAfterSuperseded(edge, v, c, a, c');
    } else {
      SignersAfterSimple(edge, v, c, a, c');
    }
  }

  lemma StepIsSigned(edge: Edge, v: Verifier, c: Chain, a: Assertion)
    requires Step(edge, v, c, a).Accept?
    ensures Signed(edge, v, a) && a.edgeId == edge.edgeId
  {
  }

  lemma InstantsAfterContest(edge: Edge, v: Verifier, c: Chain, a: Assertion, c': Chain)
    requires Step(edge, v, c, a) == Accept(c') && Contests(c, a)
    ensures RemembersInstants(edge, v, c, a, c')
  {
  }

  lemma InstantsAfterExit(edge: Edge, v: Verifier, c: Chain, a: Assertion, c': Chain)
    requires Step(edge, v, c, a) == Accept(c') && !Contests(c, a) && IsUnilateralExit(a.state)
    ensures RemembersInstants(edge, v, c, a, c')
  {
    StepIsSigned(edge, v, c, a);
  }

  lemma InstantsAfterOther(edge: Edge, v: Verifier, c: Chain, a: Assertion, c': Chain)
    requires Step(edge, v, c, a) == Accept(c') && !IsUnilateralExit(a.state)
    ensures RemembersInstants(edge, v, c, a, c')
  {
    StepIsSigned(edge, v, c, a);
  }

  lemma StepRemembersInstants(edge: Edge, v: Verifier, c: Chain, a: Assertion, c': Chain)
    requires Step(edge, v, c, a) == Accept(c')
    ensures RemembersInstants(edge, v, c, a, c')
  {
    if Contests(c, a) {
      InstantsAfterContest(edge, v, c, a, c');
    } else if IsUnilateralExit(a.state) {
      InstantsAfterExit(edge, v, c, a, c');
    } else {
      InstantsAfterOther(edge, v, c, a, c');
    }
  }

  lemma StepRemembers(edge: Edge, v: Verifier, c: Chain, a: Assertion)
    requires Judge(edge, v, c, a).Accept?
    ensures var c' := Judge(edge, v, c, a).chain;
      Signed(edge, v, a) && RemembersSigners(c, a, c') && RemembersInstants(edge, v, c, a, c')
  {
    var c' := Step(edge, v, c, a).chain;
    StepIsSigned(edge, v, c, a);
    StepRemembersSigners(edge, v, c, a, c');
    StepRemembersInstants(edge, v, c, a, c');
  }

  lemma SignedGrows(edge: Edge, v: Verifier, h: seq<Assertion>, a: Assertion, before: set<Key>, after: set<Key>,
                    claim: Claim)
    requires AllSigned(edge, v, h, before, claim) && Signed(edge, v, a) && Gains(before, after, a, claim)
    ensures AllSigned(edge, v, h + [a], after, claim)
  {
    assert a in h + [a] && forall x :: x in h ==> x in h + [a];
    forall k | k in after
      ensures KeySigned(edge, v, h + [a], k, claim)
    {
      assert k in before ==> KeySigned(edge, v, h, k, claim);
    }
  }

  lemma InstantsGrow(edge: Edge, v: Verifier, c: Chain, h: seq<Assertion>, a: Assertion, c': Chain)
    requires Recorded(edge, v, c, h) && RemembersInstants(edge, v, c, a, c')
    ensures WindowOpened(edge, v, h + [a], c'.windowOpenedAt) && DisputeOpened(edge, v, h + [a], c'.disputedAt)
    ensures ExitTaken(edge, v, h + [a], c'.exit)
  {
    assert a in h + [a] && forall x :: x in h ==> x in h + [a];
  }

  lemma ContestGrows(edge: Edge, v: Verifier, c: Chain, h: seq<Assertion>, a: Assertion, c': Chain)
    requires Recorded(edge, v, c, h) && RemembersInstants(edge, v, c, a, c')
    ensures ContestOpened(edge, v, h + [a], c'.contestedAt)
  {
    assert a in h + [a] && forall x :: x in h ==> x in h + [a];
    if c'.contestedAt != c.contestedAt {
      var first :| first in h && LegalExit(edge, v, first) &&
                   Exit(first.state, first.signer, first.assertedAt) == c.exit.value;
      assert Rivals(edge, v, first, a);
    }
  }

  lemma RecordedStep(edge: Edge, v: Verifier, c: Chain, h: seq<Assertion>, a: Assertion, c': Chain)
    requires Recorded(edge, v, c, h) && Signed(edge, v, a)
    requires RemembersSigners(c, a, c') && RemembersInstants(edge, v, c, a, c')
    ensures Recorded(edge, v, c', h + [a])
  {
    SignedGrows(edge, v, h, a, c.supersededBy, c'.supersededBy, Superseded);
    SignedGrows(edge, v, h, a, c.contestSupersededBy, c'.contestSupersededBy, Superseded);
    SignedGrows(edge, v, h, a, c.disputeClosedBy, c'.disputeClosedBy, Closed);
    SignedGrows(edge, v, h, a, c.contestClosedBy, c'.contestClosedBy, Closed);
    InstantsGrow(edge, v, c, h, a, c');
    ContestGrows(edge, v, c, h, a, c');
  }

  lemma TwoOfTwo(edge: Edge, v: Verifier, h: seq<Assertion>, keys: set<Key>, claim: Claim)
    requires |keys| == 2 && AllSigned(edge, v, h, keys, claim)
    ensures TwoKeysSigned(edge, v, h, claim)
  {
    var x :| x in keys;
    assert |keys - {x}| == 1;
    var y :| y in keys - {x};
    assert KeySigned(edge, v, h, x, claim) && KeySigned(edge, v, h, y, claim);
  }

  // The ways into `closed`.
  predicate Closes(edge: Edge, v: Verifier, c: Chain, a: Assertion, c': Chain) {
    || (edge.closurePolicy == OnEvidence && ShowsEvidence(edge, v, a))
    || (a.state == Closed && IsOwedTo(edge, v, a))
    || (a.state == Closed && IsOwner(edge, v, a) && c.windowOpenedAt.Some? && edge.acceptanceWindow.Some? &&
        a.assertedAt >= v.addDuration(c.windowOpenedAt.value, edge.acceptanceWindow.value))
    || |c'.disputeClosedBy| == 2 || |c'.contestClosedBy| == 2
  }

  // And into `expired`.
  predicate Expires(edge: Edge, v: Verifier, c: Chain, a: Assertion) {
    || (edge.due.Some? && ExpiresAt(edge, v, a, edge.due.value))
    || (c.disputedAt.Some? && ExpiresAt(edge, v, a, v.addDuration(c.disputedAt.value, DISPUTE_WINDOW)))
    || (c.contestedAt.Some? && ExpiresAt(edge, v, a, v.addDuration(c.contestedAt.value, DISPUTE_WINDOW)))
  }

  // The ways into a state that ends the edge.
  predicate Ends(edge: Edge, v: Verifier, c: Chain, a: Assertion, c': Chain) {
    && (c'.state == SClosed ==> Closes(edge, v, c, a, c'))
    && (c'.state == SReleased ==> a.state == Released && IsOwedTo(edge, v, a))
    && (c'.state == SSuperseded ==> |c'.supersededBy| == 2 || |c'.contestSupersededBy| == 2)
    && (c'.state == SExpired ==> Expires(edge, v, c, a))
  }

  // Nothing is accepted once an edge has ended, except a rival exit, which does not end it.
  lemma StepEnds(edge: Edge, v: Verifier, c: Chain, a: Assertion)
    requires Judge(edge, v, c, a).Accept?
    ensures Ends(edge, v, c, a, Judge(edge, v, c, a).chain)
    ensures IsTerminal(c.state) ==> Judge(edge, v, c, a).chain.state == SContestedClosure && Contests(c, a)
  {
    StepIsSigned(edge, v, c, a);
  }

  lemma ClosureIsEarned(edge: Edge, v: Verifier, c: Chain, h: seq<Assertion>, a: Assertion, c': Chain)
    requires Recorded(edge, v, c, h) && Recorded(edge, v, c', h + [a])
    requires Closes(edge, v, c, a, c') && v.verifies(a)
    ensures ClosureEarned(edge, v, h + [a])
  {
    var h' := h + [a];
    assert h'[|h|] == a && a in h';
    if |c'.disputeClosedBy| == 2 {
      TwoOfTwo(edge, v, h', c'.disputeClosedBy, Closed);
    } else if |c'.contestClosedBy| == 2 {
      TwoOfTwo(edge, v, h', c'.contestClosedBy, Closed);
    } else if edge.closurePolicy == OnEvidence && ShowsEvidence(edge, v, a) {
    } else if a.state == Closed && IsOwedTo(edge, v, a) {
    } else {
      var first :| first in h && ShowsEvidence(edge, v, first) && first.assertedAt == c.windowOpenedAt.value;
      var i :| 0 <= i < |h| && h[i] == first;
      assert h'[i] == first;
    }
  }

  lemma ExpiryIsEarned(edge: Edge, v: Verifier, c: Chain, h: seq<Assertion>, a: Assertion)
    requires Recorded(edge, v, c, h) && Expires(edge, v, c, a)
    ensures DuePassed(edge, v, h + [a]) || DisputeRan(edge, v, h + [a]) || ContestRan(edge, v, h + [a])
  {
    var h' := h + [a];
    assert h'[|h|] == a && a in h';
    if edge.due.Some? && ExpiresAt(edge, v, a, edge.due.value) {
    } else if c.disputedAt.Some? && ExpiresAt(edge, v, a, v.addDuration(c.disputedAt.value, DISPUTE_WINDOW)) {
      var first :| first in h && Disputes(edge, v, first) && first.assertedAt == c.disputedAt.value;
      var i :| 0 <= i < |h| && h[i] == first;
      assert h'[i] == first;
    } else {
      var x, y :| x in h && y in h && Rivals(edge, v, x, y) && y.assertedAt == c.contestedAt.value;
      var i :| 0 <= i < |h| && h[i] == x;
      var j :| 0 <= j < |h| && h[j] == y;
      assert h'[i] == x && h'[j] == y;
    }
  }

  lemma EarnedStep(edge: Edge, v: Verifier, c: Chain, h: seq<Assertion>, a: Assertion, c': Chain)
    requires Recorded(edge, v, c, h) && Recorded(edge, v, c', h + [a])
    requires Ends(edge, v, c, a, c') && v.verifies(a)
    ensures Earned(edge, v, c', h + [a])
  {
    assert a in h + [a];
    if c'.state == SClosed {
      ClosureIsEarned(edge, v, c, h, a, c');
    } else if c'.state == SSuperseded {
      if |c'.supersededBy| == 2 {
        TwoOfTwo(edge, v, h + [a], c'.supersededBy, Superseded);
      } else {
        TwoOfTwo(edge, v, h + [a], c'.contestSupersededBy, Superseded);
      }
    } else if c'.state == SExpired {
      ExpiryIsEarned(edge, v, c, h, a);
    }
  }

  // ---------------------------------------------------------------- whole chains

  ghost predicate Safe(edge: Edge, v: Verifier, c: Chain, h: seq<Assertion>) {
    Consented(edge, v, c, h) && Recorded(edge, v, c, h) && Earned(edge, v, c, h)
  }

  lemma SafeStep(edge: Edge, v: Verifier, c: Chain, h: seq<Assertion>, a: Assertion, c': Chain)
    requires Safe(edge, v, c, h) && Judge(edge, v, c, a) == Accept(c')
    ensures Safe(edge, v, c', h + [a])
  {
    ConsentedStep(edge, v, c, h, a);
    StepRemembers(edge, v, c, a);
    RecordedStep(edge, v, c, h, a, c');
    StepEnds(edge, v, c, a);
    EarnedStep(edge, v, c, h, a, c');
  }

  lemma {:induction false} SafeRun(edge: Edge, v: Verifier, step: Table<Chain, Assertion>, c: Chain, h: seq<Assertion>,
                                   chain: seq<Assertion>)
    requires Safe(edge, v, c, h)
    requires forall s, a :: step(s, a).Some? ==> Judge(edge, v, s, a) == Accept(step(s, a).value)
    ensures Safe(edge, v, Final(step, c, chain), h + Accepted(step, c, chain))
    decreases |chain|
  {
    if chain == [] {
      assert h + [] == h;
    } else {
      var a, rest := chain[0], chain[1..];
      RunFromFirst(step, c, chain);
      if step(c, a).Some? {
        var c' := step(c, a).value;
        SafeStep(edge, v, c, h, a, c');
        SafeRun(edge, v, step, c', h + [a], rest);
        assert h + [a] + Accepted(step, c', rest) == h + ([a] + Accepted(step, c', rest));
      } else {
        SafeRun(edge, v, step, c, h, rest);
      }
    }
  }

  lemma RunFromFirst(step: Table<Chain, Assertion>, c: Chain, chain: seq<Assertion>)
    requires chain != []
    ensures step(c, chain[0]).Some? ==>
              var c' := step(c, chain[0]).value;
              && Final(step, c, chain) == Final(step, c', chain[1..])
              && Accepted(step, c, chain) == [chain[0]] + Accepted(step, c', chain[1..])
    ensures step(c, chain[0]).None? ==>
              && Final(step, c, chain) == Final(step, c, chain[1..])
              && Accepted(step, c, chain) == Accepted(step, c, chain[1..])
  {
  }

  // Whatever chain an edge is given: past `none` its owner has signed the proposal, past `proposed` the
  // other party has confirmed it, and it is closed, released, superseded, expired, disputed or contested
  // only when that is earned.
  lemma EveryChainIsSafe(edge: Edge, v: Verifier, wellFormed: bool, chain: seq<Assertion>)
    ensures var step := TableOf(edge, v, wellFormed);
      Safe(edge, v, Final(step, START, chain), Accepted(step, START, chain))
  {
    var step := TableOf(edge, v, wellFormed);
    SafeRun(edge, v, step, START, [], chain);
    assert [] + Accepted(step, START, chain) == Accepted(step, START, chain);
  }

  // ---------------------------------------------------------------- two exits at once

  function After(edge: Edge, v: Verifier, c: Chain, a: Assertion): Chain {
    match Judge(edge, v, c, a)
    case Accept(c') => c'
    case Reject(_) => c
  }

  // Two parties each take a different legal exit from an open edge, and each node sees its own first.
  // The two nodes agree if and only if the two acts carry the same instant: then both record a
  // contested closure. Otherwise the node that holds the earlier act refuses the later one, and the
  // node that holds the later one records a contest.
  lemma RivalExitsConvergeIff(edge: Edge, v: Verifier, c: Chain, a: Assertion, b: Assertion)
    requires c.state == SOpen && c.exit.None?
    requires a.signer != b.signer && a.state != b.state
    requires IsUnilateralExit(a.state) && IsUnilateralExit(b.state)
    requires Judge(edge, v, c, a).Accept? && Judge(edge, v, c, b).Accept?
    ensures var ab, ba := After(edge, v, After(edge, v, c, a), b), After(edge, v, After(edge, v, c, b), a);
      && (ab.state == ba.state <==> a.assertedAt == b.assertedAt)
      && (a.assertedAt == b.assertedAt ==> ab.state == SContestedClosure)
      && (a.assertedAt < b.assertedAt ==>
            ab == After(edge, v, c, a) && ab.state != SContestedClosure && ba.state == SContestedClosure)
  {
    RivalInOrder(edge, v, c, a, b);
    RivalInOrder(edge, v, c, b, a);
  }

  lemma RivalInOrder(edge: Edge, v: Verifier, c: Chain, a: Assertion, b: Assertion)
    requires c.state == SOpen && c.exit.None?
    requires a.signer != b.signer && a.state != b.state
    requires IsUnilateralExit(a.state) && IsUnilateralExit(b.state)
    requires Judge(edge, v, c, a).Accept? && Judge(edge, v, c, b).Accept?
    ensures var one := After(edge, v, c, a);
      && one.state != SContestedClosure
      && After(edge, v, one, b).state == (if b.assertedAt <= a.assertedAt then SContestedClosure else one.state)
      && (Judge(edge, v, one, b).Accept? <==> b.assertedAt <= a.assertedAt)
  {
    var one := After(edge, v, c, a);
    assert one.exit == Some(Exit(a.state, a.signer, a.assertedAt));
    assert UnilateralExitFault(edge, v, b).None?;
    assert Contests(one, b) <==> b.assertedAt <= a.assertedAt;
  }

  // ---------------------------------------------------------------- two exits that disagree

  function NobodyRotated(): Verifier {
    Verifier((_: Assertion) => true, (key: Key) => [R.PartyKey(key, None)], (at: int, _: string) => at, None)
  }

  function OpenEdge(): Edge {
    Edge("e", "", "o", "c", "", None, OnEvidence, None)
  }

  function Opened(): Chain {
    START.(state := SOpen, latestBySigner := map["o" := 0, "c" := 0])
  }

  // The owner closes with evidence at 5 and the other party releases at 6, each on its own node: both are
  // accepted there, and the nodes end in different states.
  lemma RivalExitsDisagree()
    ensures var edge, v := OpenEdge(), NobodyRotated();
      var closed := Assertion("e", Closed, 5, "o", Some("x"), "");
      var released := Assertion("e", Released, 6, "c", None, "");
      && Judge(edge, v, Opened(), closed).Accept? && Judge(edge, v, Opened(), released).Accept?
      && After(edge, v, After(edge, v, Opened(), closed), released).state == SClosed
      && After(edge, v, After(edge, v, Opened(), released), closed).state == SContestedClosure
  {
    var edge, v := OpenEdge(), NobodyRotated();
    var closed := Assertion("e", Closed, 5, "o", Some("x"), "");
    var released := Assertion("e", Released, 6, "c", None, "");
    OneHolder("o", "o", 5);
    OneHolder("c", "o", 5);
    OneHolder("o", "c", 6);
    OneHolder("c", "c", 6);
    assert Judge(edge, v, Opened(), closed).Accept? && Judge(edge, v, Opened(), released).Accept?;
    RivalExitsConvergeIff(edge, v, Opened(), closed, released);
    assert After(edge, v, Opened(), closed).state == SClosed;
  }

  lemma OneHolder(key: Key, signer: Key, at: int)
    ensures HeldBy([R.PartyKey(key, None)], signer, at) <==> signer == key
  {
    assert [R.PartyKey(key, None)][1..] == [];
  }

  // That is an open edge: proposed and confirmed, whatever the signatures are.
  lemma OpenedIsReached(x: string, y: string)
    ensures var edge, v := OpenEdge(), NobodyRotated();
      var proposed := Assertion("e", Proposed, 0, "o", None, x);
      var confirmed := Assertion("e", Confirmed, 0, "c", None, y);
      Final(TableOf(edge, v, true), START, [proposed, confirmed]) == Opened()
  {
    var edge, v := OpenEdge(), NobodyRotated();
    var proposed := Assertion("e", Proposed, 0, "o", None, x);
    var confirmed := Assertion("e", Confirmed, 0, "c", None, y);
    OneHolder("o", "o", 0);
    OneHolder("c", "c", 0);
    var middle := START.(state := SProposed, latestBySigner := map["o" := 0]);
    assert TableOf(edge, v, true)(START, proposed) == Some(middle);
    assert TableOf(edge, v, true)(middle, confirmed) == Some(Opened());
    assert [proposed, confirmed][1..] == [confirmed] && [confirmed][1..] == [];
    assert Final(TableOf(edge, v, true), middle, [confirmed]) == Opened();
  }

  // ---------------------------------------------------------------- which keys are held at an instant

  predicate NotReplaced(entry: PartyKey, at: int) {
    entry.supersededAt.None? || at < entry.supersededAt.value
  }

  // Oldest first, the first key not yet replaced: the one the party was using then.
  function CurrentAt(lineage: seq<PartyKey>, at: int): Option<Key> {
    if lineage == [] then None
    else if NotReplaced(lineage[0], at) then Some(lineage[0].key)
    else CurrentAt(lineage[1..], at)
  }

  ghost predicate DistinctKeys(lineage: seq<PartyKey>) {
    forall i, j :: 0 <= i < j < |lineage| ==> lineage[i].key != lineage[j].key
  }

  // The keys held at an instant are all those not yet replaced, the later ones included.
  lemma {:induction false} HeldIff(lineage: seq<PartyKey>, key: Key, at: int)
    requires DistinctKeys(lineage)
    ensures HeldBy(lineage, key, at) <==>
            exists i :: 0 <= i < |lineage| && lineage[i].key == key && NotReplaced(lineage[i], at)
  {
    if lineage != [] {
      HeldIff(lineage[1..], key, at);
      if HeldBy(lineage, key, at) && lineage[0].key != key {
        var i :| 0 <= i < |lineage[1..]| && lineage[1..][i].key == key && NotReplaced(lineage[1..][i], at);
        assert lineage[i + 1].key == key;
      }
    }
  }

  lemma {:induction false} LastIsCurrent(lineage: seq<PartyKey>, at: int)
    requires lineage != [] && lineage[|lineage| - 1].supersededAt.None?
    requires forall i :: 0 <= i < |lineage| - 1 ==> !NotReplaced(lineage[i], at)
    ensures CurrentAt(lineage, at) == Some(lineage[|lineage| - 1].key)
  {
    if |lineage| > 1 {
      assert !NotReplaced(lineage[0], at);
      LastIsCurrent(lineage[1..], at);
    }
  }

  // Only the key in use at an instant is held then if and only if every replacement has happened by then.
  lemma OnlyCurrentIsHeldIff(lineage: seq<PartyKey>, at: int)
    requires DistinctKeys(lineage) && lineage != [] && lineage[|lineage| - 1].supersededAt.None?
    ensures (forall key :: HeldBy(lineage, key, at) ==> Some(key) == CurrentAt(lineage, at))
            <==> (forall i :: 0 <= i < |lineage| - 1 ==> !NotReplaced(lineage[i], at))
  {
    var last := |lineage| - 1;
    if forall i :: 0 <= i < last ==> !NotReplaced(lineage[i], at) {
      LastIsCurrent(lineage, at);
      forall key | HeldBy(lineage, key, at)
        ensures Some(key) == CurrentAt(lineage, at)
      {
        HeldIff(lineage, key, at);
      }
    } else {
      var i :| 0 <= i < last && NotReplaced(lineage[i], at);
      HeldIff(lineage, lineage[i].key, at);
      HeldIff(lineage, lineage[last].key, at);
    }
  }

  // A party that goes over from one key to another at 10: at 2 the later key is held beside the one in use.
  lemma SuccessorBackdates()
    ensures var lineage := [R.PartyKey("o1", Some(10)), R.PartyKey("o2", None)];
      && CurrentAt(lineage, 2) == Some("o1")
      && HeldBy(lineage, "o1", 2) && HeldBy(lineage, "o2", 2)
  {
    var lineage := [R.PartyKey("o1", Some(10)), R.PartyKey("o2", None)];
    assert lineage[1..] == [R.PartyKey("o2", None)];
  }
}
