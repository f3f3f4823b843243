/**
 * The transition table of an edge: packages/node/src/transitions.ts. An edge is a promise from its
 * owner to the party it is owed to; a chain of signed assertions decides its state.
 *
 * Signatures are a predicate over assertions, ISO durations are whatever the calendar says, and
 * instants are milliseconds.
 */
module Transitions {
  import opened Prelude
  import opened Replay
  import R = Rotation

  type Key = R.Key

  type PartyKey = R.PartyKey

  datatype Claim = Proposed | Confirmed | Open | Closed | Released | Expired | Disputed | Superseded

  datatype State =
    | SNone | SProposed | SOpen | SPendingAcceptance | SClosed | SReleased | SExpired
    | SContestedClosure | SDisputed | SSuperseded

  datatype ClosurePolicy = OnEvidence | OnAcceptance

  datatype Edge = Edge(
    edgeId: string, commitmentHash: string, owner: Key, owedTo: Key, proposedAt: string,
    due: Option<int>, closurePolicy: ClosurePolicy, acceptanceWindow: Option<string>)

  datatype Assertion = Assertion(
    edgeId: string, state: Claim, assertedAt: int, signer: Key, evidenceHash: Option<string>, sig: string)

  // What a verifier brings to a chain: signatures, the keys each party has held, a calendar, a clock.
  datatype Verifier = Verifier(
    verifies: Assertion -> bool,
    lineage: Key -> seq<PartyKey>,
    addDuration: (int, string) -> int,
    now: Option<int>)

  const DISPUTE_WINDOW: string := "P30D"
  const EXPIRY_SKEW_MS: int := 86_400_000

  datatype Exit = Exit(claim: Claim, signer: Key, at: int)

  datatype Chain = Chain(
    state: State,
    windowOpenedAt: Option<int>,
    supersededBy: set<Key>,
    disputeClosedBy: set<Key>,
    exit: Option<Exit>,
    contestClosedBy: set<Key>,
    contestSupersededBy: set<Key>,
    contestedAt: Option<int>,
    disputedAt: Option<int>,
    resolvedAt: Option<int>,
    latestBySigner: map<Key, int>)

  const START: Chain := Chain(SNone, None, {}, {}, None, {}, {}, None, None, None, map[])

  datatype Rejection =
    | WrongSigner | SignerNotAParty | IllegalSourceState | EvidenceRequired | EvidenceRequiredForOwnerClosure
    | DueIsNull | ExpiryBeforeDue | ExpiryInTheFuture | AcceptanceWindowNotElapsed | DisputeWindowNotElapsed
    | AssertedBeforePrevious | NotAssertable | InvalidSignature | TerminalStateReached | EdgeIdMismatch
    | DuplicateBySameParty

  datatype Verdict = Accept(chain: Chain) | Reject(why: Rejection)

  // Is `signer` one of this party's keys, not yet replaced at `at`? The first entry for the key decides,
  // and nothing asks whether the key had come into use by then.
  predicate HeldBy(lineage: seq<PartyKey>, signer: Key, at: int) {
    if lineage == [] then false
    else if lineage[0].key == signer then lineage[0].supersededAt.None? || at < lineage[0].supersededAt.value
    else HeldBy(lineage[1..], signer, at)
  }

  predicate IsOwner(edge: Edge, v: Verifier, a: Assertion) {
    HeldBy(v.lineage(edge.owner), a.signer, a.assertedAt)
  }

  predicate IsOwedTo(edge: Edge, v: Verifier, a: Assertion) {
    HeldBy(v.lineage(edge.owedTo), a.signer, a.assertedAt)
  }

  predicate IsTerminal(s: State) {
    s == SClosed || s == SReleased || s == SExpired || s == SSuperseded
  }

  predicate IsUnilateralExit(c: Claim) {
    c == Closed || c == Released || c == Expired
  }

  predicate TooFarAhead(v: Verifier, a: Assertion) {
    v.now.Some? && a.assertedAt > v.now.value + EXPIRY_SKEW_MS
  }

  // Would this have been a legal unilateral exit from open? None if so.
  function UnilateralExitFault(edge: Edge, v: Verifier, a: Assertion): Option<Rejection> {
    match a.state
    case Closed =>
      if !IsOwner(edge, v, a) then Some(WrongSigner)
      else if a.evidenceHash.None? then Some(EvidenceRequiredForOwnerClosure) else None
    case Released => if IsOwedTo(edge, v, a) then None else Some(WrongSigner)
    case Expired =>
      if edge.due.None? then Some(DueIsNull)
      else if a.assertedAt < edge.due.value then Some(ExpiryBeforeDue)
      else if TooFarAhead(v, a) then Some(ExpiryInTheFuture) else None
    case _ => Some(IllegalSourceState)
  }

  predicate Contests(c: Chain, a: Assertion) {
    && c.exit.Some? && a.signer != c.exit.value.signer
    && IsUnilateralExit(a.state) && a.state != c.exit.value.claim
    && c.state != SContestedClosure
    && a.assertedAt <= c.exit.value.at
  }

  // The rows of the table.
  function Step(edge: Edge, v: Verifier, c: Chain, a: Assertion): Verdict {
    if a.edgeId != edge.edgeId then Reject(EdgeIdMismatch)
    else if !v.verifies(a) then Reject(InvalidSignature)
    else if !IsOwner(edge, v, a) && !IsOwedTo(edge, v, a) then Reject(SignerNotAParty)
    else if a.state == Open then Reject(NotAssertable)
    else if Contests(c, a) then
      var fault := UnilateralExitFault(edge, v, a);
      if fault.Some? then Reject(fault.value)
      else Accept(c.(state := SContestedClosure, contestedAt := Some(a.assertedAt), resolvedAt := Some(a.assertedAt)))
    else if IsTerminal(c.state) then Reject(TerminalStateReached)
    else if c.state == SContestedClosure then FromContested(v, c, a)
    else
      match a.state
      case Proposed =>
        if c.state != SNone then Reject(IllegalSourceState)
        else if !IsOwner(edge, v, a) then Reject(WrongSigner)
        else Accept(c.(state := SProposed))
      case Confirmed =>
        if c.state != SProposed then Reject(IllegalSourceState)
        else if !IsOwedTo(edge, v, a) then Reject(WrongSigner)
        else Accept(c.(state := SOpen))
      case Closed => Close(edge, v, c, a)
      case Released =>
        if c.state != SOpen then Reject(IllegalSourceState)
        else if !IsOwedTo(edge, v, a) then Reject(WrongSigner)
        else Accept(Leave(c, a, SReleased))
      case Expired => Expire(edge, v, c, a)
      case Disputed =>
        if c.state != SOpen && c.state != SPendingAcceptance then Reject(IllegalSourceState)
        else if a.evidenceHash.None? then Reject(EvidenceRequired)
        else Accept(c.(state := SDisputed, disputedAt := Some(a.assertedAt)))
      case Superseded =>
        if c.state != SOpen && c.state != SDisputed then Reject(IllegalSourceState)
        else if a.signer in c.supersededBy then Reject(DuplicateBySameParty)
        else
          var both := c.supersededBy + {a.signer};
          Accept(Resolve(c.(supersededBy := both), a, |both| == 2, SSuperseded))
  }

  function Resolve(c: Chain, a: Assertion, done: bool, state: State): Chain {
    if done then c.(state := state, resolvedAt := Some(a.assertedAt)) else c
  }

  function Leave(c: Chain, a: Assertion, state: State): Chain {
    c.(exit := Some(Exit(a.state, a.signer, a.assertedAt)), state := state, resolvedAt := Some(a.assertedAt))
  }

  function FromContested(v: Verifier, c: Chain, a: Assertion): Verdict {
    match a.state
    case Closed =>
      if a.signer in c.contestClosedBy then Reject(DuplicateBySameParty)
      else
        var both := c.contestClosedBy + {a.signer};
        Accept(Resolve(c.(contestClosedBy := both), a, |both| == 2, SClosed))
    case Superseded =>
      if a.signer in c.contestSupersededBy then Reject(DuplicateBySameParty)
      else
        var both := c.contestSupersededBy + {a.signer};
        Accept(Resolve(c.(contestSupersededBy := both), a, |both| == 2, SSuperseded))
    case Expired =>
      if c.contestedAt.None? then Reject(IllegalSourceState)
      else if a.assertedAt < v.addDuration(c.contestedAt.value, DISPUTE_WINDOW) then Reject(DisputeWindowNotElapsed)
      else if TooFarAhead(v, a) then Reject(ExpiryInTheFuture)
      else Accept(Resolve(c, a, true, SExpired))
    case _ => Reject(IllegalSourceState)
  }

  function Close(edge: Edge, v: Verifier, c: Chain, a: Assertion): Verdict {
    match c.state
    case SOpen =>
      if !IsOwner(edge, v, a) then Reject(WrongSigner)
      else if a.evidenceHash.None? then Reject(EvidenceRequiredForOwnerClosure)
      else if edge.closurePolicy == OnEvidence then Accept(Leave(c, a, SClosed))
      else
        Accept(c.(exit := Some(Exit(Closed, a.signer, a.assertedAt)), state := SPendingAcceptance,
                  windowOpenedAt := Some(a.assertedAt)))
    case SPendingAcceptance =>
      if IsOwedTo(edge, v, a) then Accept(Resolve(c, a, true, SClosed))
      else if c.windowOpenedAt.None? || edge.acceptanceWindow.None? then Reject(IllegalSourceState)
      else if a.assertedAt < v.addDuration(c.windowOpenedAt.value, edge.acceptanceWindow.value) then
        Reject(AcceptanceWindowNotElapsed)
      else Accept(Resolve(c, a, true, SClosed))
    case SDisputed =>
      if a.signer in c.disputeClosedBy then Reject(DuplicateBySameParty)
      else
        var both := c.disputeClosedBy + {a.signer};
        Accept(Resolve(c.(disputeClosedBy := both), a, |both| == 2, SClosed))
    case _ => Reject(IllegalSourceState)
  }

  function Expire(edge: Edge, v: Verifier, c: Chain, a: Assertion): Verdict {
    if c.state == SDisputed then
      if c.disputedAt.None? then Reject(IllegalSourceState)
      else if a.assertedAt < v.addDuration(c.disputedAt.value, DISPUTE_WINDOW) then Reject(DisputeWindowNotElapsed)
      else Accept(Resolve(c, a, true, SExpired))
    else if c.state != SOpen then Reject(IllegalSourceState)
    else if edge.due.None? then Reject(DueIsNull)
    else if a.assertedAt < edge.due.value then Reject(ExpiryBeforeDue)
    else if TooFarAhead(v, a) then Reject(ExpiryInTheFuture)
    else Accept(Leave(c, a, SExpired))
  }

  // A signer's assertions do not go back in time; the clock rule comes before the table.
  function Judge(edge: Edge, v: Verifier, c: Chain, a: Assertion): Verdict {
    if a.signer in c.latestBySigner && a.assertedAt < c.latestBySigner[a.signer] then Reject(AssertedBeforePrevious)
    else
      match Step(edge, v, c, a)
      case Accept(c') => Accept(c'.(latestBySigner := c'.latestBySigner[a.signer := a.assertedAt]))
      case Reject(why) => Reject(why)
  }

  predicate WindowMalformed(edge: Edge) {
    if edge.closurePolicy == OnAcceptance then edge.acceptanceWindow.None? else edge.acceptanceWindow.Some?
  }

  // Everything an edge's own body must satisfy before any assertion about it is worth judging.
  predicate WellFormed(edge: Edge, binds: bool) {
    binds && !WindowMalformed(edge)
  }

  // verifyAssertionChain as a table: a malformed edge accepts nothing.
  function TableOf(edge: Edge, v: Verifier, wellFormed: bool): Table<Chain, Assertion> {
    (c: Chain, a: Assertion) =>
      if !wellFormed then None
      else match Judge(edge, v, c, a)
           case Accept(c') => Some(c')
           case Reject(_) => None
  }
}
