/**
 * The rows of the transition table, written as what each asks for: an assertion is accepted exactly when a
 * row asks for no more than it brings, and the row says where the edge goes. So what the table refuses is as
 * settled as what it takes, and an edge can always be ended by whoever has the right to end it.
 */
module TransitionRows {
  import opened Prelude
  import opened Replay
  import opened Transitions
  import opened TransitionSafety

  // ---------------------------------------------------------------- the rows

  // A signer's assertions do not go back in time.
  predicate InTime(c: Chain, a: Assertion) {
    a.signer in c.latestBySigner ==> c.latestBySigner[a.signer] <= a.assertedAt
  }

  // The claim is about this edge, a party signed it, and in its order.
  predicate Admissible(edge: Edge, v: Verifier, c: Chain, a: Assertion) {
    a.edgeId == edge.edgeId && Signed(edge, v, a) && InTime(c, a)
  }

  predicate Elapsed(v: Verifier, since: Option<int>, window: Option<string>, at: int) {
    since.Some? && window.Some? && v.addDuration(since.value, window.value) <= at
  }

  // From nothing to open: the owner proposes, the other party confirms.
  predicate BecomesOpen(edge: Edge, v: Verifier, c: Chain, a: Assertion, to: State) {
    || (c.state == SNone && a.state == Proposed && IsOwner(edge, v, a) && to == SProposed)
    || (c.state == SProposed && a.state == Confirmed && IsOwedTo(edge, v, a) && to == SOpen)
  }

  // Where a legal exit leads.
  function ExitTo(edge: Edge, claim: Claim): State {
    if claim == Released then SReleased
    else if claim == Expired then SExpired
    else if edge.closurePolicy == OnEvidence then SClosed else SPendingAcceptance
  }

  predicate LeavesOpen(edge: Edge, v: Verifier, c: Chain, a: Assertion, to: State) {
    c.state == SOpen && LegalExit(edge, v, a) && to == ExitTo(edge, a.state)
  }

  // A pending closure ends on the other party's word, or on the owner's once the window has run.
  predicate AcceptsClosure(edge: Edge, v: Verifier, c: Chain, a: Assertion, to: State) {
    && c.state == SPendingAcceptance && a.state == Closed && to == SClosed
    && (IsOwedTo(edge, v, a) || Elapsed(v, c.windowOpenedAt, edge.acceptanceWindow, a.assertedAt))
  }

  predicate OpensDispute(edge: Edge, v: Verifier, c: Chain, a: Assertion, to: State) {
    (c.state == SOpen || c.state == SPendingAcceptance) && Disputes(edge, v, a) && to == SDisputed
  }

  // The first of two keys leaves the edge where it is, the second ends it.
  predicate SecondOfTwo(before: set<Key>, a: Assertion, here: State, there: State, to: State) {
    a.signer !in before && to == if |before| == 1 then there else here
  }

  predicate ByBoth(c: Chain, a: Assertion, to: State) {
    || (c.state == SDisputed && a.state == Closed && SecondOfTwo(c.disputeClosedBy, a, SDisputed, SClosed, to))
    || ((c.state == SOpen || c.state == SDisputed) && a.state == Superseded &&
        SecondOfTwo(c.supersededBy, a, c.state, SSuperseded, to))
    || (c.state == SContestedClosure && a.state == Closed &&
        SecondOfTwo(c.contestClosedBy, a, SContestedClosure, SClosed, to))
    || (c.state == SContestedClosure && a.state == Superseded &&
        SecondOfTwo(c.contestSupersededBy, a, SContestedClosure, SSuperseded, to))
  }

  // A dispute or a contest that stood for its window can be expired.
  predicate RunsOut(v: Verifier, c: Chain, a: Assertion, to: State) {
    && a.state == Expired && to == SExpired
    && ((c.state == SDisputed && Elapsed(v, c.disputedAt, Some(DISPUTE_WINDOW), a.assertedAt)) ||
        (c.state == SContestedClosure && Elapsed(v, c.contestedAt, Some(DISPUTE_WINDOW), a.assertedAt) &&
         NotAhead(v, a)))
  }

  // Every row that is not about a rival exit.
  predicate Row(edge: Edge, v: Verifier, c: Chain, a: Assertion, to: State) {
    || BecomesOpen(edge, v, c, a, to)
    || LeavesOpen(edge, v, c, a, to)
    || AcceptsClosure(edge, v, c, a, to)
    || OpensDispute(edge, v, c, a, to)
    || ByBoth(c, a, to)
    || RunsOut(v, c, a, to)
  }

  // A rival exit makes a contest of it if it was legal; nothing else is asked then.
  predicate Moves(edge: Edge, v: Verifier, c: Chain, a: Assertion, to: State) {
    && Admissible(edge, v, c, a)
    && if Contests(c, a) then LegalExit(edge, v, a) && to == SContestedClosure else Row(edge, v, c, a, to)
  }

  predicate Accepts(edge: Edge, v: Verifier, c: Chain, a: Assertion, to: State) {
    Judge(edge, v, c, a).Accept? && Judge(edge, v, c, a).chain.state == to
  }

  predicate Steps(edge: Edge, v: Verifier, c: Chain, a: Assertion, to: State) {
    Step(edge, v, c, a).Accept? && Step(edge, v, c, a).chain.state == to
  }

  // Signed by a party, about this edge, and no rival exit.
  predicate Plain(edge: Edge, v: Verifier, c: Chain, a: Assertion) {
    a.edgeId == edge.edgeId && Signed(edge, v, a) && !Contests(c, a)
  }

  // ---------------------------------------------------------------- claim by claim

  lemma CountOfTwo(before: set<Key>, key: Key)
    ensures key !in before ==> |before + {key}| == |before| + 1
  {
  }

  lemma RowsOfOpening(edge: Edge, v: Verifier, c: Chain, a: Assertion, to: State)
    requires Plain(edge, v, c, a) && (a.state == Proposed || a.state == Confirmed || a.state == Open)
    ensures Steps(edge, v, c, a, to) <==> Row(edge, v, c, a, to)
  {
  }

  lemma RowsOfReleasedAndDisputed(edge: Edge, v: Verifier, c: Chain, a: Assertion, to: State)
    requires Plain(edge, v, c, a) && (a.state == Released || a.state == Disputed)
    ensures Steps(edge, v, c, a, to) <==> Row(edge, v, c, a, to)
  {
  }

  lemma RowsOfExpired(edge: Edge, v: Verifier, c: Chain, a: Assertion, to: State)
    requires Plain(edge, v, c, a) && a.state == Expired
    ensures Steps(edge, v, c, a, to) <==> Row(edge, v, c, a, to)
  {
  }

  lemma RowsOfSuperseded(edge: Edge, v: Verifier, c: Chain, a: Assertion, to: State)
    requires Plain(edge, v, c, a) && a.state == Superseded && c.state != SContestedClosure
    ensures Steps(edge, v, c, a, to) <==> Row(edge, v, c, a, to)
  {
    CountOfTwo(c.supersededBy, a.signer);
  }

  lemma RowsOfContestSuperseded(edge: Edge, v: Verifier, c: Chain, a: Assertion, to: State)
    requires Plain(edge, v, c, a) && a.state == Superseded && c.state == SContestedClosure
    ensures Steps(edge, v, c, a, to) <==> Row(edge, v, c, a, to)
  {
    CountOfTwo(c.contestSupersededBy, a.signer);
  }

  lemma RowsOfClosedAlone(edge: Edge, v: Verifier, c: Chain, a: Assertion, to: State)
    requires Plain(edge, v, c, a) && a.state == Closed && c.state != SDisputed && c.state != SContestedClosure
    ensures Steps(edge, v, c, a, to) <==> Row(edge, v, c, a, to)
  {
  }

  lemma RowsOfDisputeClosed(edge: Edge, v: Verifier, c: Chain, a: Assertion, to: State)
    requires Plain(edge, v, c, a) && a.state == Closed && c.state == SDisputed
    ensures Steps(edge, v, c, a, to) <==> Row(edge, v, c, a, to)
  {
    CountOfTwo(c.disputeClosedBy, a.signer);
  }

  lemma RowsOfContestClosed(edge: Edge, v: Verifier, c: Chain, a: Assertion, to: State)
    requires Plain(edge, v, c, a) && a.state == Closed && c.state == SContestedClosure
    ensures Steps(edge, v, c, a, to) <==> Row(edge, v, c, a, to)
  {
    CountOfTwo(c.contestClosedBy, a.signer);
  }

  lemma RowsOf(edge: Edge, v: Verifier, c: Chain, a: Assertion, to: State)
    requires Plain(edge, v, c, a)
    ensures Steps(edge, v, c, a, to) <==> Row(edge, v, c, a, to)
  {
    match a.state
    case Proposed => RowsOfOpening(edge, v, c, a, to);
    case Confirmed => RowsOfOpening(edge, v, c, a, to);
    case Open => RowsOfOpening(edge, v, c, a, to);
    case Released => RowsOfReleasedAndDisputed(edge, v, c, a, to);
    case Disputed => RowsOfReleasedAndDisputed(edge, v, c, a, to);
    case Expired => RowsOfExpired(edge, v, c, a, to);
    case Superseded =>
      if c.state == SContestedClosure {
        RowsOfContestSuperseded(edge, v, c, a, to);
      } else {
        RowsOfSuperseded(edge, v, c, a, to);
      }
    case Closed =>
      if c.state == SDisputed {
        RowsOfDisputeClosed(edge, v, c, a, to);
      } else if c.state == SContestedClosure {
        RowsOfContestClosed(edge, v, c, a, to);
      } else {
        RowsOfClosedAlone(edge, v, c, a, to);
      }
  }

  lemma ContestStepsIff(edge: Edge, v: Verifier, c: Chain, a: Assertion, to: State)
    requires a.edgeId == edge.edgeId && Signed(edge, v, a) && Contests(c, a)
    ensures Steps(edge, v, c, a, to) <==> LegalExit(edge, v, a) && to == SContestedClosure
  {
  }

  lemma OnlyAdmissible(edge: Edge, v: Verifier, c: Chain, a: Assertion, to: State)
    ensures Accepts(edge, v, c, a, to) <==> InTime(c, a) && Steps(edge, v, c, a, to)
    ensures Steps(edge, v, c, a, to) ==> a.edgeId == edge.edgeId && Signed(edge, v, a)
  {
    if Steps(edge, v, c, a, to) {
      StepIsSigned(edge, v, c, a);
    }
  }

  // From any state of a chain, an assertion is accepted and leads to a state if and only if a row says so.
  lemma AcceptedIff(edge: Edge, v: Verifier, c: Chain, a: Assertion, to: State)
    ensures Accepts(edge, v, c, a, to) <==> Moves(edge, v, c, a, to)
  {
    OnlyAdmissible(edge, v, c, a, to);
    if a.edgeId == edge.edgeId && Signed(edge, v, a) {
      if Contests(c, a) {
        ContestStepsIff(edge, v, c, a, to);
      } else {
        RowsOf(edge, v, c, a, to);
      }
    }
  }

  // An edge has an acceptance window exactly when it closes on acceptance.
  predicate WindowFits(edge: Edge) {
    edge.acceptanceWindow.Some? <==> edge.closurePolicy == OnAcceptance
  }

  // The table takes what the rows take, of an edge bound to its body whose window fits, and nothing of another.
  lemma TableIs(edge: Edge, v: Verifier, binds: bool, c: Chain, a: Assertion, to: State)
    ensures var taken := TableOf(edge, v, WellFormed(edge, binds))(c, a);
      taken.Some? && taken.value.state == to <==> binds && WindowFits(edge) && Moves(edge, v, c, a, to)
  {
    AcceptedIff(edge, v, c, a, to);
  }

  // ---------------------------------------------------------------- what is noted beside the state

  function With(before: set<Key>, a: Assertion, now: bool): set<Key> {
    if now then before + {a.signer} else before
  }

  function Noted(before: Option<int>, a: Assertion, now: bool): Option<int> {
    if now then Some(a.assertedAt) else before
  }

  // Whose word counts towards which pair.
  predicate NotesSigners(c: Chain, a: Assertion, c': Chain) {
    && c'.supersededBy == With(c.supersededBy, a, a.state == Superseded && c.state != SContestedClosure)
    && c'.disputeClosedBy == With(c.disputeClosedBy, a, a.state == Closed && c.state == SDisputed && !Contests(c, a))
    && c'.contestClosedBy == With(c.contestClosedBy, a, a.state == Closed && c.state == SContestedClosure)
    && c'.contestSupersededBy == With(c.contestSupersededBy, a, a.state == Superseded && c.state == SContestedClosure)
  }

  // Since when a window runs, who left first and when, and when the edge was settled.
  predicate NotesInstants(c: Chain, a: Assertion, c': Chain) {
    && c'.exit == (if c.state == SOpen && IsUnilateralExit(a.state) && !Contests(c, a)
                   then Some(Exit(a.state, a.signer, a.assertedAt)) else c.exit)
    && c'.windowOpenedAt == Noted(c.windowOpenedAt, a, c.state == SOpen && c'.state == SPendingAcceptance)
    && c'.disputedAt == Noted(c.disputedAt, a, a.state == Disputed)
    && c'.contestedAt == Noted(c.contestedAt, a, Contests(c, a))
    && c'.resolvedAt == Noted(c.resolvedAt, a, IsTerminal(c'.state) || Contests(c, a))
  }

  ghost predicate Notes(c: Chain, a: Assertion, c': Chain) {
    NotesSigners(c, a, c') && NotesInstants(c, a, c')
  }

  lemma ClosedInContestNotes(edge: Edge, v: Verifier, c: Chain, a: Assertion)
    requires Step(edge, v, c, a).Accept? && a.state == Closed && Contests(c, a)
    ensures Notes(c, a, Step(edge, v, c, a).chain)
  {
  }

  lemma ClosedAloneNotes(edge: Edge, v: Verifier, c: Chain, a: Assertion)
    requires Step(edge, v, c, a).Accept? && a.state == Closed && !Contests(c, a)
    requires c.state == SOpen || c.state == SPendingAcceptance
    ensures Notes(c, a, Step(edge, v, c, a).chain)
  {
  }

  lemma ClosedByBothIs(edge: Edge, v: Verifier, c: Chain, a: Assertion)
    requires Step(edge, v, c, a).Accept? && a.state == Closed && !Contests(c, a)
    ensures c.state == SDisputed ==>
              var both := c.disputeClosedBy + {a.signer};
              Step(edge, v, c, a).chain == Resolve(c.(disputeClosedBy := both), a, |both| == 2, SClosed)
    ensures c.state == SContestedClosure ==>
              var both := c.contestClosedBy + {a.signer};
              Step(edge, v, c, a).chain == Resolve(c.(contestClosedBy := both), a, |both| == 2, SClosed)
    ensures c.state in {SOpen, SPendingAcceptance, SDisputed, SContestedClosure}
  {
  }

  lemma ClosedByBothNotes(c: Chain, a: Assertion, c': Chain)
    requires a.state == Closed && !Contests(c, a) && (c.state == SDisputed || c.state == SContestedClosure)
    requires c.state == SDisputed ==>
               var both := c.disputeClosedBy + {a.signer};
               c' == Resolve(c.(disputeClosedBy := both), a, |both| == 2, SClosed)
    requires c.state == SContestedClosure ==>
               var both := c.contestClosedBy + {a.signer};
               c' == Resolve(c.(contestClosedBy := both), a, |both| == 2, SClosed)
    ensures Notes(c, a, c')
  {
    if c.state == SDisputed {
      var both := c.disputeClosedBy + {a.signer};
      ResolvedKeepsSigners(c.(disputeClosedBy := both), a, |both| == 2, SClosed);
    } else {
      var both := c.contestClosedBy + {a.signer};
      ResolvedKeepsSigners(c.(contestClosedBy := both), a, |both| == 2, SClosed);
    }
  }

  lemma ClosedNotes(edge: Edge, v: Verifier, c: Chain, a: Assertion)
    requires Step(edge, v, c, a).Accept? && a.state == Closed
    ensures Notes(c, a, Step(edge, v, c, a).chain)
  {
    if Contests(c, a) {
      ClosedInContestNotes(edge, v, c, a);
    } else {
      ClosedByBothIs(edge, v, c, a);
      if c.state == SDisputed || c.state == SContestedClosure {
        ClosedByBothNotes(c, a, Step(edge, v, c, a).chain);
      } else {
        ClosedAloneNotes(edge, v, c, a);
      }
    }
  }

  lemma SupersededIs(edge: Edge, v: Verifier, c: Chain, a: Assertion)
    requires Step(edge, v, c, a).Accept? && a.state == Superseded
    ensures c.state != SContestedClosure ==>
              var both := c.supersededBy + {a.signer};
              Step(edge, v, c, a).chain == Resolve(c.(supersededBy := both), a, |both| == 2, SSuperseded)
    ensures c.state == SContestedClosure ==>
              var both := c.contestSupersededBy + {a.signer};
              Step(edge, v, c, a).chain == Resolve(c.(contestSupersededBy := both), a, |both| == 2, SSuperseded)
  {
  }

  lemma ResolvedKeepsSigners(c: Chain, a: Assertion, done: bool, state: State)
    ensures var c' := Resolve(c, a, done, state);
      && c'.supersededBy == c.supersededBy && c'.disputeClosedBy == c.disputeClosedBy
      && c'.contestClosedBy == c.contestClosedBy && c'.contestSupersededBy == c.contestSupersededBy
  {
  }

  lemma SupersededNotesSigners(c: Chain, a: Assertion, c': Chain)
    requires a.state == Superseded
    requires c.state != SContestedClosure ==>
               var both := c.supersededBy + {a.signer};
               c' == Resolve(c.(supersededBy := both), a, |both| == 2, SSuperseded)
    requires c.state == SContestedClosure ==>
               var both := c.contestSupersededBy + {a.signer};
               c' == Resolve(c.(contestSupersededBy := both), a, |both| == 2, SSuperseded)
    ensures NotesSigners(c, a, c')
  {
    if c.state != SContestedClosure {
      var both := c.supersededBy + {a.signer};
      ResolvedKeepsSigners(c.(supersededBy := both), a, |both| == 2, SSuperseded);
    } else {
      var both := c.contestSupersededBy + {a.signer};
      ResolvedKeepsSigners(c.(contestSupersededBy := both), a, |both| == 2, SSuperseded);
    }
  }

  lemma SupersededNotesInstants(edge: Edge, v: Verifier, c: Chain, a: Assertion)
    requires Step(edge, v, c, a).Accept? && a.state == Superseded
    ensures NotesInstants(c, a, Step(edge, v, c, a).chain)
  {
  }

  lemma OthersNote(edge: Edge, v: Verifier, c: Chain, a: Assertion)
    requires Step(edge, v, c, a).Accept? && a.state != Closed && a.state != Superseded
    ensures NotesSigners(c, a, Step(edge, v, c, a).chain) && NotesInstants(c, a, Step(edge, v, c, a).chain)
  {
  }

  // Everything an accepted assertion leaves in the chain besides its state.
  lemma AcceptedNotes(edge: Edge, v: Verifier, c: Chain, a: Assertion)
    requires Judge(edge, v, c, a).Accept?
    ensures var c' := Judge(edge, v, c, a).chain;
      && NotesSigners(c, a, c') && NotesInstants(c, a, c')
      && c'.latestBySigner == c.latestBySigner[a.signer := a.assertedAt]
  {
    if a.state == Closed {
      ClosedNotes(edge, v, c, a);
    } else if a.state == Superseded {
      SupersededIs(edge, v, c, a);
      SupersededNotesSigners(c, a, Step(edge, v, c, a).chain);
      SupersededNotesInstants(edge, v, c, a);
    } else {
      OthersNote(edge, v, c, a);
    }
    StepLeavesOrder(edge, v, c, a);
  }

  lemma StepLeavesOrder(edge: Edge, v: Verifier, c: Chain, a: Assertion)
    requires Step(edge, v, c, a).Accept?
    ensures Step(edge, v, c, a).chain.latestBySigner == c.latestBySigner
  {
  }

  // ---------------------------------------------------------------- an edge can be ended

  // What every chain keeps: an edge that is open has not been left, and a pending closure was its owner's.
  ghost predicate Fits(c: Chain) {
    && (c.state == SNone || c.state == SProposed || c.state == SOpen ==> c.exit.None?)
    && (c.state == SPendingAcceptance ==> c.exit.Some? && c.exit.value.claim == Closed)
  }

  lemma StepFits(edge: Edge, v: Verifier, c: Chain, a: Assertion)
    requires Fits(c)
    ensures Fits(Next(TableOf(edge, v, true), c, a))
  {
    if Judge(edge, v, c, a).Accept? {
      var c' := Judge(edge, v, c, a).chain;
      AcceptedIff(edge, v, c, a, c'.state);
      AcceptedNotes(edge, v, c, a);
    }
  }

  lemma {:induction false} ChainFits(edge: Edge, v: Verifier, c: Chain, chain: seq<Assertion>)
    requires Fits(c)
    ensures Fits(Final(TableOf(edge, v, true), c, chain))
    decreases |chain|
  {
    if chain != [] {
      StepFits(edge, v, c, chain[0]);
      ChainFits(edge, v, Next(TableOf(edge, v, true), c, chain[0]), chain[1..]);
    }
  }

  // Whatever chain left an edge open, every legal exit from it is accepted and leads where it should.
  lemma OpenCanBeLeft(edge: Edge, v: Verifier, chain: seq<Assertion>, a: Assertion)
    requires var c := Final(TableOf(edge, v, true), START, chain);
      c.state == SOpen && Admissible(edge, v, c, a) && LegalExit(edge, v, a)
    ensures Accepts(edge, v, Final(TableOf(edge, v, true), START, chain), a, ExitTo(edge, a.state))
  {
    var c := Final(TableOf(edge, v, true), START, chain);
    ChainFits(edge, v, START, chain);
    AcceptedIff(edge, v, c, a, ExitTo(edge, a.state));
  }

  // A pending closure ends on the other party's word at once, whatever the window, and on the owner's exactly
  // when that has run.
  lemma PendingCanBeClosed(edge: Edge, v: Verifier, chain: seq<Assertion>, a: Assertion)
    requires var c := Final(TableOf(edge, v, true), START, chain);
      c.state == SPendingAcceptance && Admissible(edge, v, c, a) && a.state == Closed
    ensures var c := Final(TableOf(edge, v, true), START, chain);
      Accepts(edge, v, c, a, SClosed) <==>
      IsOwedTo(edge, v, a) || Elapsed(v, c.windowOpenedAt, edge.acceptanceWindow, a.assertedAt)
  {
    var c := Final(TableOf(edge, v, true), START, chain);
    ChainFits(edge, v, START, chain);
    AcceptedIff(edge, v, c, a, SClosed);
  }

  // A dispute ends when a second key closes it, or when its window has run.
  lemma DisputeCanBeEnded(edge: Edge, v: Verifier, c: Chain, a: Assertion)
    requires c.state == SDisputed && Admissible(edge, v, c, a) && !Contests(c, a)
    ensures a.state == Closed && |c.disputeClosedBy| == 1 && a.signer !in c.disputeClosedBy ==>
              Accepts(edge, v, c, a, SClosed)
    ensures a.state == Expired && Elapsed(v, c.disputedAt, Some(DISPUTE_WINDOW), a.assertedAt) ==>
              Accepts(edge, v, c, a, SExpired)
  {
    AcceptedIff(edge, v, c, a, SClosed);
    AcceptedIff(edge, v, c, a, SExpired);
  }

  // An edge closed by its owner at 2, to be accepted within seven, is closed by the other party at 3.
  lemma ClosureIsAcceptedEarly()
    ensures var edge := Edge("e", "", "o", "c", "", None, OnAcceptance, Some("P7D"));
      var v := NobodyRotated().(addDuration := (at: int, _: string) => at + 7);
      var pending := START.(state := SPendingAcceptance, windowOpenedAt := Some(2), exit := Some(Exit(Closed, "o", 2)),
                            latestBySigner := map["o" := 2, "c" := 1]);
      Accepts(edge, v, pending, Assertion("e", Closed, 3, "c", None, ""), SClosed)
  {
    var edge := Edge("e", "", "o", "c", "", None, OnAcceptance, Some("P7D"));
    var v := NobodyRotated().(addDuration := (at: int, _: string) => at + 7);
    var pending := START.(state := SPendingAcceptance, windowOpenedAt := Some(2), exit := Some(Exit(Closed, "o", 2)),
                          latestBySigner := map["o" := 2, "c" := 1]);
    OneHolder("c", "c", 3);
    OneHolder("o", "c", 3);
    AcceptedIff(edge, v, pending, Assertion("e", Closed, 3, "c", None, ""), SClosed);
  }

  // ---------------------------------------------------------------- why an assertion is refused

  // Some row leads on from this state by this claim.
  predicate HasRow(state: State, claim: Claim) {
    match state
    case SNone => claim == Proposed
    case SProposed => claim == Confirmed
    case SOpen => claim in {Closed, Released, Expired, Disputed, Superseded}
    case SPendingAcceptance => claim in {Closed, Disputed}
    case SDisputed => claim in {Closed, Expired, Superseded}
    case SContestedClosure => claim in {Closed, Expired, Superseded}
    case _ => false
  }

  // What is wrong with an exit from open, and so with a rival one.
  predicate ExitFault(edge: Edge, v: Verifier, a: Assertion, why: Rejection) {
    match why
    case WrongSigner =>
      (a.state == Closed && !IsOwner(edge, v, a)) || (a.state == Released && !IsOwedTo(edge, v, a))
    case EvidenceRequiredForOwnerClosure => a.state == Closed && IsOwner(edge, v, a) && a.evidenceHash.None?
    case DueIsNull => a.state == Expired && edge.due.None?
    case ExpiryBeforeDue => a.state == Expired && edge.due.Some? && a.assertedAt < edge.due.value
    case ExpiryInTheFuture =>
      a.state == Expired && edge.due.Some? && edge.due.value <= a.assertedAt && !NotAhead(v, a)
    case _ => false
  }

  predicate TooSoon(v: Verifier, since: Option<int>, window: Option<string>, at: int) {
    since.Some? && window.Some? && at < v.addDuration(since.value, window.value)
  }

  // A window is asked for that nothing opened.
  predicate NoWindow(edge: Edge, v: Verifier, c: Chain, a: Assertion) {
    || (c.state == SPendingAcceptance && a.state == Closed && !IsOwedTo(edge, v, a) &&
        (c.windowOpenedAt.None? || edge.acceptanceWindow.None?))
    || (c.state == SDisputed && a.state == Expired && c.disputedAt.None?)
    || (c.state == SContestedClosure && a.state == Expired && c.contestedAt.None?)
  }

  // This key has had its say.
  predicate SaidSo(c: Chain, a: Assertion) {
    || (c.state == SDisputed && a.state == Closed && a.signer in c.disputeClosedBy)
    || ((c.state == SOpen || c.state == SDisputed) && a.state == Superseded && a.signer in c.supersededBy)
    || (c.state == SContestedClosure && a.state == Closed && a.signer in c.contestClosedBy)
    || (c.state == SContestedClosure && a.state == Superseded && a.signer in c.contestSupersededBy)
  }

  // What a row asks for that the assertion does not bring.
  predicate RowFault(edge: Edge, v: Verifier, c: Chain, a: Assertion, why: Rejection) {
    if c.state == SOpen && IsUnilateralExit(a.state) then ExitFault(edge, v, a, why)
    else
      match why
      case IllegalSourceState => !HasRow(c.state, a.state) || NoWindow(edge, v, c, a)
      case WrongSigner =>
        || (c.state == SNone && a.state == Proposed && !IsOwner(edge, v, a))
        || (c.state == SProposed && a.state == Confirmed && !IsOwedTo(edge, v, a))
      case EvidenceRequired =>
        (c.state == SOpen || c.state == SPendingAcceptance) && a.state == Disputed && a.evidenceHash.None?
      case DuplicateBySameParty => SaidSo(c, a)
      case AcceptanceWindowNotElapsed =>
        && c.state == SPendingAcceptance && a.state == Closed && !IsOwedTo(edge, v, a)
        && TooSoon(v, c.windowOpenedAt, edge.acceptanceWindow, a.assertedAt)
      case DisputeWindowNotElapsed =>
        && a.state == Expired
        && ((c.state == SDisputed && TooSoon(v, c.disputedAt, Some(DISPUTE_WINDOW), a.assertedAt)) ||
            (c.state == SContestedClosure && TooSoon(v, c.contestedAt, Some(DISPUTE_WINDOW), a.assertedAt)))
      case ExpiryInTheFuture =>
        && c.state == SContestedClosure && a.state == Expired && !NotAhead(v, a)
        && Elapsed(v, c.contestedAt, Some(DISPUTE_WINDOW), a.assertedAt)
      case _ => false
  }

  // The reason, when it is not about the row: each of these is asked before the next.
  predicate Because(edge: Edge, v: Verifier, c: Chain, a: Assertion, why: Rejection) {
    match why
    case AssertedBeforePrevious => !InTime(c, a)
    case EdgeIdMismatch => InTime(c, a) && a.edgeId != edge.edgeId
    case InvalidSignature => InTime(c, a) && a.edgeId == edge.edgeId && !v.verifies(a)
    case SignerNotAParty =>
      && InTime(c, a) && a.edgeId == edge.edgeId && v.verifies(a)
      && !IsOwner(edge, v, a) && !IsOwedTo(edge, v, a)
    case NotAssertable => Admissible(edge, v, c, a) && a.state == Open
    case TerminalStateReached =>
      Admissible(edge, v, c, a) && a.state != Open && !Contests(c, a) && IsTerminal(c.state)
    case _ =>
      && Admissible(edge, v, c, a) && a.state != Open
      && if Contests(c, a) then ExitFault(edge, v, a, why) else !IsTerminal(c.state) && RowFault(edge, v, c, a, why)
  }

  predicate StepRefuses(edge: Edge, v: Verifier, c: Chain, a: Assertion, why: Rejection) {
    Step(edge, v, c, a) == Reject(why)
  }

  // Only a row is left to say no.
  predicate UpToRow(edge: Edge, v: Verifier, c: Chain, a: Assertion) {
    Plain(edge, v, c, a) && a.state != Open && !IsTerminal(c.state)
  }

  lemma ContestRefusedFor(edge: Edge, v: Verifier, c: Chain, a: Assertion, why: Rejection)
    requires a.edgeId == edge.edgeId && Signed(edge, v, a) && Contests(c, a)
    ensures StepRefuses(edge, v, c, a, why) <==> ExitFault(edge, v, a, why)
  {
  }

  lemma OpeningRefusedFor(edge: Edge, v: Verifier, c: Chain, a: Assertion, why: Rejection)
    requires UpToRow(edge, v, c, a) && (a.state == Proposed || a.state == Confirmed)
    ensures StepRefuses(edge, v, c, a, why) <==> RowFault(edge, v, c, a, why)
  {
  }

  lemma ReleasedAndDisputedRefusedFor(edge: Edge, v: Verifier, c: Chain, a: Assertion, why: Rejection)
    requires UpToRow(edge, v, c, a) && (a.state == Released || a.state == Disputed)
    ensures StepRefuses(edge, v, c, a, why) <==> RowFault(edge, v, c, a, why)
  {
  }

  lemma ClosedRefusedFor(edge: Edge, v: Verifier, c: Chain, a: Assertion, why: Rejection)
    requires UpToRow(edge, v, c, a) && a.state == Closed
    ensures StepRefuses(edge, v, c, a, why) <==> RowFault(edge, v, c, a, why)
  {
  }

  lemma ExpiredRefusedFor(edge: Edge, v: Verifier, c: Chain, a: Assertion, why: Rejection)
    requires UpToRow(edge, v, c, a) && a.state == Expired
    ensures StepRefuses(edge, v, c, a, why) <==> RowFault(edge, v, c, a, why)
  {
  }

  lemma SupersededRefusedFor(edge: Edge, v: Verifier, c: Chain, a: Assertion, why: Rejection)
    requires UpToRow(edge, v, c, a) && a.state == Superseded
    ensures StepRefuses(edge, v, c, a, why) <==> RowFault(edge, v, c, a, why)
  {
  }

  lemma RowRefusedFor(edge: Edge, v: Verifier, c: Chain, a: Assertion, why: Rejection)
    requires UpToRow(edge, v, c, a)
    ensures StepRefuses(edge, v, c, a, why) <==> RowFault(edge, v, c, a, why)
  {
    match a.state
    case Proposed => OpeningRefusedFor(edge, v, c, a, why);
    case Confirmed => OpeningRefusedFor(edge, v, c, a, why);
    case Released => ReleasedAndDisputedRefusedFor(edge, v, c, a, why);
    case Disputed => ReleasedAndDisputedRefusedFor(edge, v, c, a, why);
    case Closed => ClosedRefusedFor(edge, v, c, a, why);
    case Expired => ExpiredRefusedFor(edge, v, c, a, why);
    case Superseded => SupersededRefusedFor(edge, v, c, a, why);
  }

  lemma BeforeAnyRow(edge: Edge, v: Verifier, c: Chain, a: Assertion, why: Rejection)
    requires Plain(edge, v, c, a) ==> a.state == Open || IsTerminal(c.state)
    requires a.edgeId == edge.edgeId && Signed(edge, v, a) && Contests(c, a) ==> a.state == Open
    ensures InTime(c, a) ==> (StepRefuses(edge, v, c, a, why) <==> Because(edge, v, c, a, why))
  {
  }

  // An assertion is refused for a reason if and only if that reason's own condition holds.
  lemma RefusedIff(edge: Edge, v: Verifier, c: Chain, a: Assertion, why: Rejection)
    ensures Judge(edge, v, c, a) == Reject(why) <==> Because(edge, v, c, a, why)
  {
    JudgeRefuses(edge, v, c, a, why);
    if UpToRow(edge, v, c, a) {
      RowRefusedFor(edge, v, c, a, why);
    } else if a.edgeId == edge.edgeId && Signed(edge, v, a) && Contests(c, a) && a.state != Open {
      ContestRefusedFor(edge, v, c, a, why);
    } else {
      BeforeAnyRow(edge, v, c, a, why);
    }
    OrderComesFirst(edge, v, c, a, why);
  }

  lemma JudgeRefuses(edge: Edge, v: Verifier, c: Chain, a: Assertion, why: Rejection)
    ensures Judge(edge, v, c, a) == Reject(why) <==>
            if InTime(c, a) then StepRefuses(edge, v, c, a, why) else why == AssertedBeforePrevious
  {
  }

  lemma OrderComesFirst(edge: Edge, v: Verifier, c: Chain, a: Assertion, why: Rejection)
    ensures !InTime(c, a) ==> (Because(edge, v, c, a, why) <==> why == AssertedBeforePrevious)
  {
  }
}
