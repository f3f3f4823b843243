/**
 * The inbound half of federation: packages/federation/src/inbox.ts. Every message that arrives goes
 * through Inbox.Ingest before it can touch the vault; a recovery response goes through
 * ApplyRecoverResponse.
 *
 * Signatures are predicates, a digest is a function, and both clocks are read once for each message.
 */
module Inbox {
  import opened Prelude
  import opened Replay
  import opened Transitions
  import opened EdgeIdentity
  import opened Recon
  import AntiSpam
  import R = Rotation

  // What a message carries. Malformed stands for a payload its schema refuses, Carried for the types
  // this layer passes on without storing.
  datatype Payload =
    | Propose(edge: Edge, assertion: Assertion)
    | Assert(assertion: Assertion)
    | ReconRequest
    | ReconResponse(entries: seq<Entry>)
    | RecoverRequest
    | Rotate(statement: R.Input)
    | Malformed
    | Carried

  datatype Message = Message(speaksVersion: bool, sender: Key, recipient: Key, payload: Payload, sig: string)

  // The persona receiving, and everything fixed about how it judges.
  datatype Node = Node(
    persona: Key, digest: Digest, authentic: Message -> bool, verifies: Assertion -> bool,
    addDuration: (int, string) -> int, options: R.Options, limits: Option<AntiSpam.Limits>)

  // What one delivery reads from outside: the vault's clock, the budget's clock, and the sender's level.
  datatype Moment = Moment(now: int, wall: int, levelZero: bool)

  datatype Store = Store(
    edges: map<string, Edge>, chains: map<string, seq<Assertion>>, rotations: seq<R.Rotation>, budget: AntiSpam.Budget)

  const EMPTY: Store := Store(map[], map[], [], AntiSpam.FRESH)

  datatype Refusal =
    | WrongVersion | BadSignature | AnotherPersona | MalformedPayload | NotAddressed | NotTheOwner
    | Unbound | BodyDiffers | UnknownEdge | SenderNotAParty | RotationUnverified | RotationFromThirdParty
    | RotationUnknownParty | RefusedByTable

  datatype Verdict =
    | Took | Refused(why: Refusal) | OverBudget(reason: AntiSpam.Admission) | AlreadyHeard | Reconciled | Asked

  // ---------------------------------------------------------------- who judges

  function Statements(rotations: seq<R.Rotation>): seq<R.Input> {
    seq(|rotations|, i requires 0 <= i < |rotations| => Some(rotations[i]))
  }

  function LineageIn(node: Node, rotations: seq<R.Rotation>): Lineage {
    var g := R.GraphOf(Statements(rotations), node.options);
    (key: Key) => R.LineageOf(g, key)
  }

  // Nobody has rotated.
  function Literally(): Lineage {
    (key: Key) => [R.PartyKey(key, None)]
  }

  function CourtAt(node: Node, lineage: Lineage, now: int): Court<Chain> {
    var v := Verifier(node.verifies, lineage, node.addDuration, Some(now));
    Court(START, (edge: Edge) => TableOf(edge, v, WellFormed(edge, BindsBody(node.digest, edge))))
  }

  // ---------------------------------------------------------------- propose

  function BindingFailure(node: Node, edges: map<string, Edge>, edge: Edge): Option<Refusal> {
    if !BindsBody(node.digest, edge) then Some(Unbound)
    else if edge.edgeId !in edges then None
    else if edges[edge.edgeId] == edge then None else Some(BodyDiffers)
  }

  function ProposeFault(node: Node, s: Store, sender: Key, edge: Edge, a: Assertion, t: Moment): Option<Refusal> {
    var bound := BindingFailure(node, s.edges, edge);
    if bound.Some? then bound
    else if edge.owedTo != node.persona then Some(NotAddressed)
    else if sender != edge.owner then Some(NotTheOwner)
    else if CourtAt(node, Literally(), t.now).table(edge)(START, a).None? then Some(RefusedByTable)
    else None
  }

  predicate HoldsAssertion(s: Store, id: string, sig: string) {
    id in s.edges && HoldsSig(Held(s.chains, id), sig)
  }

  function Admission(node: Node, budget: AntiSpam.Budget, sender: Key, t: Moment): AntiSpam.Admission {
    if node.limits.None? then AntiSpam.Surface
    else AntiSpam.Admitted(node.limits.value, budget, sender, t.levelZero, t.wall)
  }

  function Spend(node: Node, budget: AntiSpam.Budget, sender: Key, t: Moment): AntiSpam.Budget {
    if node.limits.None? then budget else AntiSpam.After(node.limits.value, budget, sender, t.levelZero, t.wall)
  }

  function ProposeVerdict(node: Node, s: Store, sender: Key, edge: Edge, a: Assertion, t: Moment): Verdict {
    var fault := ProposeFault(node, s, sender, edge, a, t);
    if fault.Some? then Refused(fault.value)
    else if HoldsAssertion(s, edge.edgeId, a.sig) then Took
    else if Admission(node, s.budget, sender, t).Surface? then Took
    else OverBudget(Admission(node, s.budget, sender, t))
  }

  function Appended(chains: map<string, seq<Assertion>>, a: Assertion): map<string, seq<Assertion>> {
    chains[a.edgeId := Held(chains, a.edgeId) + [a]]
  }

  function AfterPropose(node: Node, s: Store, sender: Key, edge: Edge, a: Assertion, t: Moment): Store {
    if ProposeFault(node, s, sender, edge, a, t).Some? || HoldsAssertion(s, edge.edgeId, a.sig) then s
    else if !Admission(node, s.budget, sender, t).Surface? then s.(budget := Spend(node, s.budget, sender, t))
    else
      var chains := if HoldsSig(Held(s.chains, edge.edgeId), a.sig) then s.chains else Appended(s.chains, a);
      Store(s.edges[edge.edgeId := edge], chains, s.rotations, Spend(node, s.budget, sender, t))
  }

  // ---------------------------------------------------------------- assert

  function AssertVerdict(node: Node, s: Store, sender: Key, a: Assertion, t: Moment): Verdict {
    if a.edgeId !in s.edges then Refused(UnknownEdge)
    else
      var edge, lineage := s.edges[a.edgeId], LineageIn(node, s.rotations);
      if !IsPartyOrSuccessor(edge, node.persona, lineage) then Refused(NotAddressed)
      else if !IsPartyOrSuccessor(edge, sender, lineage) then Refused(SenderNotAParty)
      else
        var local, step := Held(s.chains, edge.edgeId), CourtAt(node, lineage, t.now).table(edge);
        if HoldsSig(local, a.sig) then AlreadyHeard
        else if step(Final(step, START, local), a).None? then Refused(RefusedByTable)
        else Took
  }

  function AfterAssert(node: Node, s: Store, sender: Key, a: Assertion, t: Moment): Store {
    if AssertVerdict(node, s, sender, a, t).Took? then s.(chains := Appended(s.chains, a)) else s
  }

  // ---------------------------------------------------------------- rotation

  function RotationVerdict(node: Node, s: Store, sender: Key, statement: R.Input): Verdict {
    var verdict := R.VerifyRotation(statement, node.options);
    if verdict.Rejected? then Refused(RotationUnverified)
    else
      var core := verdict.rotation.core;
      if sender != core.old' && sender != core.new' then Refused(RotationFromThirdParty)
      else if !exists id :: id in s.edges && IsParty(s.edges[id], core.old') then Refused(RotationUnknownParty)
      else Took
  }

  function AfterRotation(node: Node, s: Store, sender: Key, statement: R.Input): Store {
    if RotationVerdict(node, s, sender, statement).Took? && statement.Some? then
      s.(rotations := Filed(s.rotations, statement.value))
    else s
  }

  // ---------------------------------------------------------------- any message

  function VerdictOn(node: Node, s: Store, m: Message, t: Moment): Verdict {
    if !m.speaksVersion then Refused(WrongVersion)
    else if !node.authentic(m) then Refused(BadSignature)
    else if m.recipient != node.persona then Refused(AnotherPersona)
    else
      match m.payload
      case Propose(edge, a) => ProposeVerdict(node, s, m.sender, edge, a, t)
      case Assert(a) => AssertVerdict(node, s, m.sender, a, t)
      case Rotate(statement) => RotationVerdict(node, s, m.sender, statement)
      case ReconResponse(_) => Reconciled
      case ReconRequest => Asked
      case RecoverRequest => Asked
      case Malformed => Refused(MalformedPayload)
      case Carried => Took
  }

  predicate Admissible(node: Node, m: Message) {
    m.speaksVersion && node.authentic(m) && m.recipient == node.persona
  }

  function After(node: Node, s: Store, m: Message, t: Moment): Store {
    if !Admissible(node, m) then s
    else
      match m.payload
      case Propose(edge, a) => AfterPropose(node, s, m.sender, edge, a, t)
      case Assert(a) => AfterAssert(node, s, m.sender, a, t)
      case Rotate(statement) => AfterRotation(node, s, m.sender, statement)
      case ReconResponse(entries) =>
        var lineage := LineageIn(node, s.rotations);
        var court := CourtAt(node, lineage, t.now);
        s.(chains := ChainsAfterAll(court, s.edges, node.persona, m.sender, lineage, s.chains, entries))
      case _ => s
  }

  datatype Delivery = Delivery(message: Message, at: Moment)

  function AfterBatch(node: Node, s: Store, batch: seq<Delivery>): Store
    decreases |batch|
  {
    if batch == [] then s else AfterBatch(node, After(node, s, batch[0].message, batch[0].at), batch[1..])
  }

  datatype IngestResult = IngestResult(
    accepted: seq<Message>, discarded: seq<(Message, Refusal)>,
    suppressed: seq<(Message, AntiSpam.Admission)>, requests: seq<Message>)

  function Recorded(result: IngestResult, m: Message, verdict: Verdict): IngestResult {
    match verdict
    case Took => result.(accepted := result.accepted + [m])
    case Refused(why) => result.(discarded := result.discarded + [(m, why)])
    case OverBudget(reason) => result.(suppressed := result.suppressed + [(m, reason)])
    case Asked => result.(requests := result.requests + [m])
    case AlreadyHeard => result
    case Reconciled => result
  }

  function ReportOn(node: Node, s: Store, batch: seq<Delivery>, result: IngestResult): IngestResult
    decreases |batch|
  {
    if batch == [] then result
    else
      var m, t := batch[0].message, batch[0].at;
      ReportOn(node, After(node, s, m, t), batch[1..], Recorded(result, m, VerdictOn(node, s, m, t)))
  }

  // The table never accepts an assertion about another edge, nor one that is not signed.
  lemma AcceptedIsSigned(node: Node, lineage: Lineage, now: int, edge: Edge, c: Chain, a: Assertion)
    requires CourtAt(node, lineage, now).table(edge)(c, a).Some?
    ensures a.edgeId == edge.edgeId && node.verifies(a) && BindsBody(node.digest, edge)
  {
  }

  lemma CourtJudgesByName(node: Node, lineage: Lineage, now: int)
    ensures JudgesByName(CourtAt(node, lineage, now))
  {
    forall edge, c, a | CourtAt(node, lineage, now).table(edge)(c, a).Some?
      ensures a.edgeId == edge.edgeId
    {
      AcceptedIsSigned(node, lineage, now, edge, c, a);
    }
  }

  class Inbox {
    const node: Node
    const vault: Vault
    const budget: AntiSpam.ProposalBudget?

    ghost predicate Wired()
      reads this
    {
      && (budget == null <==> node.limits.None?)
      && (budget != null ==> budget.limits == node.limits.value)
    }

    function Contents(): Store
      reads this, vault, budget
    {
      Store(vault.edges, vault.chains, vault.rotations, if budget == null then AntiSpam.FRESH else budget.Contents())
    }

    constructor (node: Node, vault: Vault, budget: AntiSpam.ProposalBudget?)
      requires budget == null <==> node.limits.None?
      requires budget != null ==> budget.limits == node.limits.value
      ensures Wired() && this.node == node && this.vault == vault && this.budget == budget
    {
      this.node, this.vault, this.budget := node, vault, budget;
    }

    method Ingest(batch: seq<Delivery>) returns (result: IngestResult)
      requires Wired() && forall id :: id in vault.edges ==> vault.edges[id].edgeId == id
      modifies vault, budget
      ensures Wired()
      ensures Contents() == AfterBatch(node, old(Contents()), batch)
      ensures result == ReportOn(node, old(Contents()), batch, IngestResult([], [], [], []))
    {
      result := IngestResult([], [], [], []);
      ghost var target := AfterBatch(node, Contents(), batch);
      ghost var report := ReportOn(node, Contents(), batch, result);
      assert batch[0..] == batch;
      for i := 0 to |batch|
        invariant forall id :: id in vault.edges ==> vault.edges[id].edgeId == id
        invariant AfterBatch(node, Contents(), batch[i..]) == target
        invariant ReportOn(node, Contents(), batch[i..], result) == report
      {
        assert batch[i..][0] == batch[i] && batch[i..][1..] == batch[i + 1..];
        var verdict := IngestOne(batch[i].message, batch[i].at);
        result := Recorded(result, batch[i].message, verdict);
      }
    }

    method IngestOne(m: Message, t: Moment) returns (verdict: Verdict)
      requires Wired() && forall id :: id in vault.edges ==> vault.edges[id].edgeId == id
      modifies vault, budget
      ensures forall id :: id in vault.edges ==> vault.edges[id].edgeId == id
      ensures Contents() == After(node, old(Contents()), m, t)
      ensures verdict == VerdictOn(node, old(Contents()), m, t)
    {
      if !m.speaksVersion {
        return Refused(WrongVersion);
      }
      if !node.authentic(m) {
        return Refused(BadSignature);
      }
      if m.recipient != node.persona {
        return Refused(AnotherPersona);
      }
      match m.payload {
        case Propose(edge, a) => verdict := IngestPropose(m.sender, edge, a, t);
        case Assert(a) => verdict := IngestAssert(m.sender, a, t);
        case Rotate(statement) => verdict := IngestRotation(m.sender, statement);
        case ReconResponse(entries) =>
          var lineage := LineageIn(node, vault.rotations);
          CourtJudgesByName(node, lineage, t.now);
          var _ := ApplyReconResponse(vault, CourtAt(node, lineage, t.now), node.persona, m.sender, lineage, entries);
          verdict := Reconciled;
        case ReconRequest => verdict := Asked;
        case RecoverRequest => verdict := Asked;
        case Malformed => verdict := Refused(MalformedPayload);
        case Carried => verdict := Took;
      }
    }

    method IngestPropose(sender: Key, edge: Edge, a: Assertion, t: Moment) returns (verdict: Verdict)
      requires Wired()
      modifies vault, budget
      ensures Contents() == AfterPropose(node, old(Contents()), sender, edge, a, t)
      ensures verdict == ProposeVerdict(node, old(Contents()), sender, edge, a, t)
    {
      var bound := BindingFailure(node, vault.edges, edge);
      if bound.Some? {
        return Refused(bound.value);
      }
      if edge.owedTo != node.persona {
        return Refused(NotAddressed);
      }
      if sender != edge.owner {
        return Refused(NotTheOwner);
      }
      if CourtAt(node, Literally(), t.now).table(edge)(START, a).None? {
        return Refused(RefusedByTable);
      }
      var alreadyHeld := edge.edgeId in vault.edges && HoldsSig(vault.ChainOf(edge.edgeId), a.sig);
      if alreadyHeld {
        return Took;
      }
      if budget != null {
        var admission := budget.Admit(sender, t.levelZero, t.wall);
        if !admission.Surface? {
          return OverBudget(admission);
        }
      }
      vault.PutEdge(edge);
      if !HoldsSig(vault.ChainOf(edge.edgeId), a.sig) {
        vault.AppendAssertion(a);
      }
      return Took;
    }

    method IngestAssert(sender: Key, a: Assertion, t: Moment) returns (verdict: Verdict)
      modifies vault
      ensures Contents() == AfterAssert(node, old(Contents()), sender, a, t)
      ensures verdict == AssertVerdict(node, old(Contents()), sender, a, t)
    {
      if a.edgeId !in vault.edges {
        return Refused(UnknownEdge);
      }
      var edge, lineage := vault.edges[a.edgeId], LineageIn(node, vault.rotations);
      if !IsPartyOrSuccessor(edge, node.persona, lineage) {
        return Refused(NotAddressed);
      }
      if !IsPartyOrSuccessor(edge, sender, lineage) {
        return Refused(SenderNotAParty);
      }
      var local := vault.ChainOf(edge.edgeId);
      if HoldsSig(local, a.sig) {
        return AlreadyHeard;
      }
      var step := CourtAt(node, lineage, t.now).table(edge);
      if step(Final(step, START, local), a).None? {
        return Refused(RefusedByTable);
      }
      vault.AppendAssertion(a);
      return Took;
    }

    method IngestRotation(sender: Key, statement: R.Input) returns (verdict: Verdict)
      modifies vault
      ensures Contents() == AfterRotation(node, old(Contents()), sender, statement)
      ensures verdict == RotationVerdict(node, old(Contents()), sender, statement)
    {
      var judged := R.VerifyRotation(statement, node.options);
      if judged.Rejected? {
        return Refused(RotationUnverified);
      }
      var core := judged.rotation.core;
      if sender != core.old' && sender != core.new' {
        return Refused(RotationFromThirdParty);
      }
      if !exists id :: id in vault.edges && IsParty(vault.edges[id], core.old') {
        return Refused(RotationUnknownParty);
      }
      vault.PutRotation(judged.rotation);
      return Took;
    }
  }

  // ---------------------------------------------------------------- recovery

  datatype Returned = Returned(edge: Edge, assertions: seq<Assertion>)

  predicate ProposedByOwner(edge: Edge, candidate: seq<Assertion>, outcomes: seq<bool>)
    requires |candidate| == |outcomes|
  {
    exists i :: 0 <= i < |candidate| && outcomes[i] && candidate[i].state.Proposed? && candidate[i].signer == edge.owner
  }

  predicate Restorable(node: Node, edges: map<string, Edge>, chains: map<string, seq<Assertion>>, lineage: Lineage,
                       now: int, item: Returned)
  {
    var local := Held(chains, item.edge.edgeId);
    var candidate := local + Incoming(local, item.assertions);
    && IsPartyOrSuccessor(item.edge, node.persona, lineage)
    && BindingFailure(node, edges, item.edge).None?
    && ProposedByOwner(item.edge, candidate, Outcomes(CourtAt(node, lineage, now).table(item.edge), START, candidate))
  }

  function AfterRestore(node: Node, s: Store, lineage: Lineage, now: int, item: Returned): Store {
    if !Restorable(node, s.edges, s.chains, lineage, now, item) then s
    else
      var id := item.edge.edgeId;
      var local := Held(s.chains, id);
      var stored := Stored(CourtAt(node, lineage, now), item.edge, local, item.assertions);
      s.(edges := s.edges[id := item.edge],
         chains := if stored == [] then s.chains else s.chains[id := local + stored])
  }

  function AfterRecovery(node: Node, s: Store, lineage: Lineage, now: int, items: seq<Returned>): Store
    decreases |items|
  {
    if items == [] then s
    else AfterRecovery(node, AfterRestore(node, s, lineage, now, items[0]), lineage, now, items[1..])
  }

  function StoreOf(vault: Vault, budget: AntiSpam.Budget): Store
    reads vault
  {
    Store(vault.edges, vault.chains, vault.rotations, budget)
  }

  // The ids restored, in order.
  function RestoredFrom(node: Node, s: Store, lineage: Lineage, now: int, items: seq<Returned>): seq<string>
    decreases |items|
  {
    if items == [] then []
    else
      var rest := RestoredFrom(node, AfterRestore(node, s, lineage, now, items[0]), lineage, now, items[1..]);
      if Restorable(node, s.edges, s.chains, lineage, now, items[0]) then [items[0].edge.edgeId] + rest else rest
  }

  method RestoreOne(vault: Vault, node: Node, lineage: Lineage, now: int, item: Returned, ghost budget: AntiSpam.Budget)
    returns (restored: bool)
    modifies vault
    ensures restored == Restorable(node, old(vault.edges), old(vault.chains), lineage, now, item)
    ensures StoreOf(vault, budget) == AfterRestore(node, old(StoreOf(vault, budget)), lineage, now, item)
  {
    var edge, court := item.edge, CourtAt(node, lineage, now);
    CourtJudgesByName(node, lineage, now);
    if !IsPartyOrSuccessor(edge, node.persona, lineage) || BindingFailure(node, vault.edges, edge).Some? {
      return false;
    }
    var local := vault.ChainOf(edge.edgeId);
    var candidate := local + Incoming(local, item.assertions);
    if !ProposedByOwner(edge, candidate, Outcomes(court.table(edge), START, candidate)) {
      return false;
    }
    vault.PutEdge(edge);
    var _, _ := ApplyEntry(vault, court, edge, item.assertions);
    return true;
  }

  lemma RecoveryOn(node: Node, s: Store, lineage: Lineage, now: int, items: seq<Returned>, i: nat, next: Store)
    requires i < |items| && next == AfterRestore(node, s, lineage, now, items[i])
    ensures AfterRecovery(node, s, lineage, now, items[i..]) == AfterRecovery(node, next, lineage, now, items[i + 1..])
    ensures RestoredFrom(node, s, lineage, now, items[i..]) ==
            (if Restorable(node, s.edges, s.chains, lineage, now, items[i]) then [items[i].edge.edgeId] else []) +
            RestoredFrom(node, next, lineage, now, items[i + 1..])
  {
    assert items[i..][0] == items[i] && items[i..][1..] == items[i + 1..];
  }

  method ApplyRecoverResponse(vault: Vault, node: Node, now: int, items: seq<Returned>, ghost budget: AntiSpam.Budget)
    returns (restored: seq<string>)
    modifies vault
    ensures StoreOf(vault, budget) ==
            AfterRecovery(node, old(StoreOf(vault, budget)), LineageIn(node, old(vault.rotations)), now, items)
    ensures restored ==
            RestoredFrom(node, old(StoreOf(vault, budget)), LineageIn(node, old(vault.rotations)), now, items)
  {
    restored := [];
    var lineage := LineageIn(node, vault.rotations);
    ghost var s := StoreOf(vault, budget);
    ghost var target, ids := AfterRecovery(node, s, lineage, now, items), RestoredFrom(node, s, lineage, now, items);
    assert items[0..] == items;
    for i := 0 to |items|
      invariant s == StoreOf(vault, budget)
      invariant AfterRecovery(node, s, lineage, now, items[i..]) == target
      invariant restored + RestoredFrom(node, s, lineage, now, items[i..]) == ids
    {
      ghost var next := AfterRestore(node, s, lineage, now, items[i]);
      RecoveryOn(node, s, lineage, now, items, i, next);
      var kept := RestoreOne(vault, node, lineage, now, items[i], budget);
      s := next;
      if kept {
        restored := restored + [items[i].edge.edgeId];
      }
    }
  }
}
