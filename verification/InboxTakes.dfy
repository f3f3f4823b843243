/**
 * What an inbox takes: for each kind of message exactly when it is taken and what is held afterwards, so that
 * an honest message is not refused.
 */
module InboxTakes {
  import opened Prelude
  import opened Replay
  import opened Transitions
  import opened TransitionSafety
  import opened TransitionRows
  import opened EdgeIdentity
  import opened Recon
  import opened ReconConvergence
  import I = Inbox
  import AntiSpam
  import R = Rotation

  // ---------------------------------------------------------------- an assertion

  // The table accepts the assertion after everything held.
  ghost predicate Follows(node: I.Node, s: I.Store, edge: Edge, a: Assertion, now: int) {
    var held := Held(s.chains, edge.edgeId);
    Outcomes(I.CourtAt(node, I.LineageIn(node, s.rotations), now).table(edge), START, held + [a])[|held|]
  }

  // The key is one of the two the edge names, or in the lineage of one of them.
  ghost predicate PartOf(edge: Edge, key: Key, lineage: Lineage) {
    || key == edge.owner || key == edge.owedTo
    || (exists i :: 0 <= i < |lineage(edge.owner)| && lineage(edge.owner)[i].key == key)
    || (exists i :: 0 <= i < |lineage(edge.owedTo)| && lineage(edge.owedTo)[i].key == key)
  }

  ghost predicate ByParties(node: I.Node, s: I.Store, edge: Edge, sender: Key) {
    var lineage := I.LineageIn(node, s.rotations);
    PartOf(edge, node.persona, lineage) && PartOf(edge, sender, lineage)
  }

  lemma LastOutcome<S>(step: Table<S, Assertion>, s: S, held: seq<Assertion>, a: Assertion)
    ensures Outcomes(step, s, held + [a])[|held|] <==> step(Final(step, s, held), a).Some?
  {
    FinalOfConcat(step, s, held, [a]);
    assert Outcomes(step, Final(step, s, held), [a])[0] == step(Final(step, s, held), a).Some?;
  }

  // An assertion is taken exactly when its edge is held, both ends are party to it, it is news, and the table
  // accepts it after everything held. Then the chain ends with it, and otherwise nothing changes.
  lemma AssertIsTakenIff(node: I.Node, s: I.Store, m: I.Message, t: I.Moment)
    requires m.payload.Assert? && I.Admissible(node, m)
    requires forall id :: id in s.edges ==> s.edges[id].edgeId == id
    ensures var a := m.payload.assertion;
      I.VerdictOn(node, s, m, t).Took? <==>
      && a.edgeId in s.edges && ByParties(node, s, s.edges[a.edgeId], m.sender)
      && !HoldsSig(Held(s.chains, a.edgeId), a.sig) && Follows(node, s, s.edges[a.edgeId], a, t.now)
    ensures var a, u := m.payload.assertion, I.After(node, s, m, t);
      if I.VerdictOn(node, s, m, t).Took? then u == s.(chains := s.chains[a.edgeId := Held(s.chains, a.edgeId) + [a]])
      else u == s
  {
    var a := m.payload.assertion;
    if a.edgeId in s.edges {
      var edge := s.edges[a.edgeId];
      var step := I.CourtAt(node, I.LineageIn(node, s.rotations), t.now).table(edge);
      LastOutcome(step, START, Held(s.chains, a.edgeId), a);
    }
  }

  // ---------------------------------------------------------------- a proposal

  lemma FirstIsProposal(edge: Edge, v: Verifier, a: Assertion)
    requires v.lineage == I.Literally()
    ensures Judge(edge, v, START, a).Accept? <==>
            a.edgeId == edge.edgeId && v.verifies(a) && a.state == Proposed && a.signer == edge.owner
  {
    OneHolder(edge.owner, a.signer, a.assertedAt);
    AcceptedIff(edge, v, START, a, SProposed);
    if Judge(edge, v, START, a).Accept? {
      AcceptedIff(edge, v, START, a, Judge(edge, v, START, a).chain.state);
    }
  }

  // What a proposal must be, whoever holds what.
  ghost predicate Sincere(node: I.Node, edge: Edge, a: Assertion, sender: Key) {
    && BindsBody(node.digest, edge) && WindowFits(edge)
    && edge.owedTo == node.persona && edge.owner == sender
    && a.edgeId == edge.edgeId && a.state == Proposed && a.signer == edge.owner && node.verifies(a)
  }

  // A proposal is taken exactly when it is sincere, no other body is held under its id, and it is held
  // already or the budget admits it.
  lemma ProposeIsTakenIff(node: I.Node, s: I.Store, m: I.Message, t: I.Moment)
    requires m.payload.Propose? && I.Admissible(node, m)
    ensures var edge, a := m.payload.edge, m.payload.assertion;
      var again := edge.edgeId in s.edges && HoldsSig(Held(s.chains, edge.edgeId), a.sig);
      I.VerdictOn(node, s, m, t).Took? <==>
      && Sincere(node, edge, a, m.sender) && (edge.edgeId in s.edges ==> s.edges[edge.edgeId] == edge)
      && (again || node.limits.None? ||
          AntiSpam.Admitted(node.limits.value, s.budget, m.sender, t.levelZero, t.wall).Surface?)
  {
    var edge, a := m.payload.edge, m.payload.assertion;
    var v := Verifier(node.verifies, I.Literally(), node.addDuration, Some(t.now));
    FirstIsProposal(edge, v, a);
    CourtOfTable(node, I.Literally(), t.now, edge, START, a);
  }

  lemma CourtOfTable(node: I.Node, lineage: Lineage, now: int, edge: Edge, c: Chain, a: Assertion)
    ensures var v := Verifier(node.verifies, lineage, node.addDuration, Some(now));
      I.CourtAt(node, lineage, now).table(edge)(c, a) ==
      if BindsBody(node.digest, edge) && WindowFits(edge) && Judge(edge, v, c, a).Accept?
      then Some(Judge(edge, v, c, a).chain) else None
  {
  }

  // Taken for the first time, the edge is held with the proposal at the end of its chain.
  lemma ProposeIsHeld(node: I.Node, s: I.Store, m: I.Message, t: I.Moment)
    requires m.payload.Propose? && I.Admissible(node, m) && I.VerdictOn(node, s, m, t).Took?
    requires var edge, a := m.payload.edge, m.payload.assertion;
      !(edge.edgeId in s.edges && HoldsSig(Held(s.chains, edge.edgeId), a.sig))
    ensures var edge, a, u := m.payload.edge, m.payload.assertion, I.After(node, s, m, t);
      && u.edges == s.edges[edge.edgeId := edge] && u.rotations == s.rotations
      && (!HoldsSig(Held(s.chains, edge.edgeId), a.sig) ==>
            u.chains == s.chains[edge.edgeId := Held(s.chains, edge.edgeId) + [a]])
  {
    ProposeIsTakenIff(node, s, m, t);
  }

  // ---------------------------------------------------------------- a rotation

  // A statement is filed exactly when its old key signed it, one of its two keys sent it, and the old one is
  // party to an edge held here.
  lemma RotationIsTakenIff(node: I.Node, s: I.Store, m: I.Message, t: I.Moment)
    requires m.payload.Rotate? && I.Admissible(node, m)
    ensures var statement := m.payload.statement;
      I.VerdictOn(node, s, m, t).Took? <==>
      && statement.Some? && statement.value.core.old' != statement.value.core.new'
      && R.OldKeySigned(statement.value, node.options)
      && (m.sender == statement.value.core.old' || m.sender == statement.value.core.new')
      && exists id :: id in s.edges &&
           (s.edges[id].owner == statement.value.core.old' || s.edges[id].owedTo == statement.value.core.old')
    ensures I.VerdictOn(node, s, m, t).Took? ==>
              I.After(node, s, m, t) == s.(rotations := Filed(s.rotations, m.payload.statement.value))
    ensures !I.VerdictOn(node, s, m, t).Took? ==> I.After(node, s, m, t) == s
  {
  }

  // ---------------------------------------------------------------- proposed and then confirmed

  lemma NoRotationsNoSuccessors(node: I.Node, key: Key)
    ensures I.LineageIn(node, [])(key) == [R.PartyKey(key, None)]
  {
    assert I.Statements([]) == [];
    assert R.GraphOf([], node.options) == map[];
    R.HaltsHere(map[], key, {key}, 0);
    assert R.KeysOf(map[], key) == [key];
  }

  lemma OpensByConfirming(edge: Edge, v: Verifier, a: Assertion, b: Assertion)
    requires v.lineage(edge.owner) == [R.PartyKey(edge.owner, None)]
    requires v.lineage(edge.owedTo) == [R.PartyKey(edge.owedTo, None)]
    requires a.edgeId == edge.edgeId && v.verifies(a) && a.state == Proposed && a.signer == edge.owner
    requires b.edgeId == edge.edgeId && v.verifies(b) && b.state == Confirmed && b.signer == edge.owedTo
    requires a.assertedAt <= b.assertedAt
    ensures Accepts(edge, v, START, a, SProposed)
    ensures Accepts(edge, v, Judge(edge, v, START, a).chain, b, SOpen)
  {
    OneHolder(edge.owner, a.signer, a.assertedAt);
    OneHolder(edge.owedTo, b.signer, b.assertedAt);
    AcceptedIff(edge, v, START, a, SProposed);
    AcceptedNotes(edge, v, START, a);
    var c := Judge(edge, v, START, a).chain;
    assert c.latestBySigner == map[a.signer := a.assertedAt];
    AcceptedIff(edge, v, c, b, SOpen);
  }

  lemma OneThenOne<S>(step: Table<S, Assertion>, s: S, a: Assertion, b: Assertion)
    requires step(s, a).Some? && step(step(s, a).value, b).Some?
    ensures Final(step, s, [a]) == step(s, a).value
    ensures Final(step, s, [a] + [b]) == step(step(s, a).value, b).value
    ensures Outcomes(step, s, [a] + [b])[1]
  {
    assert [a][1..] == [] && ([a] + [b])[1..] == [b] && [b][1..] == [];
    assert Outcomes(step, step(s, a).value, [b])[0];
    assert Final(step, step(s, a).value, [b]) == step(step(s, a).value, b).value;
  }

  // A proposal by the owner, taken by an empty inbox, and then the confirmation of the other party, no earlier,
  // by either's hand: it is taken too, and the edge is open.
  lemma ProposedThenConfirmed(node: I.Node, m: I.Message, t: I.Moment, n: I.Message, u: I.Moment)
    requires m.payload.Propose? && I.Admissible(node, m) && I.VerdictOn(node, I.EMPTY, m, t).Took?
    requires n.payload.Assert? && I.Admissible(node, n)
    requires var edge, a, b := m.payload.edge, m.payload.assertion, n.payload.assertion;
      && b.edgeId == edge.edgeId && node.verifies(b) && b.state == Confirmed && b.signer == edge.owedTo
      && a.assertedAt <= b.assertedAt && a.sig != b.sig && (n.sender == edge.owner || n.sender == edge.owedTo)
    ensures var edge, s := m.payload.edge, I.After(node, I.EMPTY, m, t);
      && I.VerdictOn(node, s, n, u).Took?
      && (var held := Held(I.After(node, s, n, u).chains, edge.edgeId);
          Final(I.CourtAt(node, I.LineageIn(node, s.rotations), u.now).table(edge), START, held).state == SOpen)
  {
    var edge, a, b, s := m.payload.edge, m.payload.assertion, n.payload.assertion, I.After(node, I.EMPTY, m, t);
    ProposedAlone(node, m, t);
    ConfirmingOpens(node, edge, a, b, u.now);
    AssertIsTakenIff(node, s, n, u);
    NoRotationsNoSuccessors(node, edge.owner);
    NoRotationsNoSuccessors(node, edge.owedTo);
  }

  lemma ProposedAlone(node: I.Node, m: I.Message, t: I.Moment)
    requires m.payload.Propose? && I.Admissible(node, m) && I.VerdictOn(node, I.EMPTY, m, t).Took?
    ensures var edge, a, s := m.payload.edge, m.payload.assertion, I.After(node, I.EMPTY, m, t);
      && Sincere(node, edge, a, m.sender) && s.edges == map[edge.edgeId := edge] && s.rotations == []
      && s.chains == map[edge.edgeId := [a]]
  {
    var edge, a := m.payload.edge, m.payload.assertion;
    ProposeIsTakenIff(node, I.EMPTY, m, t);
    ProposeIsHeld(node, I.EMPTY, m, t);
    assert Held(I.EMPTY.chains, edge.edgeId) + [a] == [a];
  }

  lemma ConfirmingOpens(node: I.Node, edge: Edge, a: Assertion, b: Assertion, now: int)
    requires BindsBody(node.digest, edge) && WindowFits(edge)
    requires a.edgeId == edge.edgeId && node.verifies(a) && a.state == Proposed && a.signer == edge.owner
    requires b.edgeId == edge.edgeId && node.verifies(b) && b.state == Confirmed && b.signer == edge.owedTo
    requires a.assertedAt <= b.assertedAt
    ensures var step := I.CourtAt(node, I.LineageIn(node, []), now).table(edge);
      Outcomes(step, START, [a] + [b])[1] && Final(step, START, [a] + [b]).state == SOpen
  {
    var lineage := I.LineageIn(node, []);
    var v := Verifier(node.verifies, lineage, node.addDuration, Some(now));
    NoRotationsNoSuccessors(node, edge.owner);
    NoRotationsNoSuccessors(node, edge.owedTo);
    OpensByConfirming(edge, v, a, b);
    CourtOfTable(node, lineage, now, edge, START, a);
    CourtOfTable(node, lineage, now, edge, Judge(edge, v, START, a).chain, b);
    OneThenOne(I.CourtAt(node, lineage, now).table(edge), START, a, b);
  }

  // ---------------------------------------------------------------- a response, and a chain that was lost

  lemma {:induction false} OthersLeaveAlone<S>(court: Court<S>, edges: map<string, Edge>, persona: Key, sender: Key,
                                               lineage: Lineage, chains: map<string, seq<Assertion>>,
                                               entries: seq<Entry>, id: string)
    requires forall j :: 0 <= j < |entries| ==> entries[j].edgeId != id
    ensures Held(ChainsAfterAll(court, edges, persona, sender, lineage, chains, entries), id) == Held(chains, id)
    decreases |entries|
  {
    if entries != [] {
      var next := ChainsAfter(court, edges, persona, sender, lineage, chains, entries[0]);
      OthersLeaveAlone(court, edges, persona, sender, lineage, next, entries[1..], id);
    }
  }

  lemma {:induction false} OneEntryApplies<S>(court: Court<S>, edges: map<string, Edge>, persona: Key, sender: Key,
                                              lineage: Lineage, chains: map<string, seq<Assertion>>,
                                              entries: seq<Entry>, i: nat, local: seq<Assertion>)
    requires i < |entries| && forall j :: 0 <= j < |entries| && j != i ==> entries[j].edgeId != entries[i].edgeId
    requires Shares(edges, persona, sender, lineage, entries[i].edgeId) && local == Held(chains, entries[i].edgeId)
    ensures var after := ChainsAfterAll(court, edges, persona, sender, lineage, chains, entries);
      Held(after, entries[i].edgeId) ==
      local + Stored(court, edges[entries[i].edgeId], local, entries[i].assertions)
    decreases |entries|
  {
    var id := entries[i].edgeId;
    var next := ChainsAfter(court, edges, persona, sender, lineage, chains, entries[0]);
    if i == 0 {
      OthersLeaveAlone(court, edges, persona, sender, lineage, next, entries[1..], id);
    } else {
      assert entries[0].edgeId != id;
      OneEntryApplies(court, edges, persona, sender, lineage, next, entries[1..], i - 1, local);
    }
  }

  // This is an honest chain of which the first part is held: each assertion once, the rest in the order of its
  // instants, and listed in any order that keeps those of one instant in theirs.
  ghost predicate Honest(held: seq<Assertion>, rest: seq<Assertion>, listed: seq<Assertion>) {
    DistinctSigs(held + rest) && ByTime(rest) && SameTies(listed, held + rest)
  }

  lemma EntryBringsTheRest<S>(court: Court<S>, edges: map<string, Edge>, persona: Key, sender: Key, lineage: Lineage,
                              chains: map<string, seq<Assertion>>, entries: seq<Entry>, i: nat,
                              held: seq<Assertion>, rest: seq<Assertion>)
    requires i < |entries| && forall j :: 0 <= j < |entries| && j != i ==> entries[j].edgeId != entries[i].edgeId
    requires Shares(edges, persona, sender, lineage, entries[i].edgeId) && held == Held(chains, entries[i].edgeId)
    requires Honest(held, rest, entries[i].assertions) && Stands(court, edges[entries[i].edgeId], held, rest)
    ensures Held(ChainsAfterAll(court, edges, persona, sender, lineage, chains, entries), entries[i].edgeId) ==
            held + rest
  {
    OneEntryApplies(court, edges, persona, sender, lineage, chains, entries, i, held);
    HonestChainArrives(court, edges[entries[i].edgeId], held, rest, entries[i].assertions);
  }

  lemma AfterResponse(node: I.Node, s: I.Store, m: I.Message, t: I.Moment, lineage: Lineage)
    requires m.payload.ReconResponse? && I.Admissible(node, m) && lineage == I.LineageIn(node, s.rotations)
    ensures I.After(node, s, m, t).chains ==
            ChainsAfterAll(I.CourtAt(node, lineage, t.now), s.edges, node.persona, m.sender, lineage, s.chains,
                           m.payload.entries)
  {
  }

  // A response by a party that lists an honest chain brings the rest of it, whatever else it lists.
  lemma ResponseIsTaken(node: I.Node, s: I.Store, m: I.Message, t: I.Moment, i: nat, rest: seq<Assertion>)
    requires m.payload.ReconResponse? && I.Admissible(node, m) && i < |m.payload.entries|
    requires var entries := m.payload.entries;
      && entries[i].edgeId in s.edges && ByParties(node, s, s.edges[entries[i].edgeId], m.sender)
      && (forall j :: 0 <= j < |entries| && j != i ==> entries[j].edgeId != entries[i].edgeId)
      && Honest(Held(s.chains, entries[i].edgeId), rest, entries[i].assertions)
      && Stands(I.CourtAt(node, I.LineageIn(node, s.rotations), t.now), s.edges[entries[i].edgeId],
                Held(s.chains, entries[i].edgeId), rest)
    ensures var id, u := m.payload.entries[i].edgeId, I.After(node, s, m, t);
      Held(u.chains, id) == Held(s.chains, id) + rest
  {
    var entries, lineage := m.payload.entries, I.LineageIn(node, s.rotations);
    AfterResponse(node, s, m, t, lineage);
    EntryBringsTheRest(I.CourtAt(node, lineage, t.now), s.edges, node.persona, m.sender, lineage, s.chains, entries, i,
                       Held(s.chains, entries[i].edgeId), rest);
  }

  lemma {:induction false} OnlySharedChange<S>(court: Court<S>, edges: map<string, Edge>, persona: Key, sender: Key,
                                               lineage: Lineage, chains: map<string, seq<Assertion>>,
                                               entries: seq<Entry>, id: string)
    requires !Shares(edges, persona, sender, lineage, id)
    ensures Held(ChainsAfterAll(court, edges, persona, sender, lineage, chains, entries), id) == Held(chains, id)
    decreases |entries|
  {
    if entries != [] {
      var next := ChainsAfter(court, edges, persona, sender, lineage, chains, entries[0]);
      OnlySharedChange(court, edges, persona, sender, lineage, next, entries[1..], id);
    }
  }

  // And it touches no chain but those of edges held here that both ends are party to.
  lemma ResponseTouchesOnly(node: I.Node, s: I.Store, m: I.Message, t: I.Moment, id: string)
    requires m.payload.ReconResponse? && I.Admissible(node, m)
    ensures I.After(node, s, m, t).edges == s.edges
    ensures Held(I.After(node, s, m, t).chains, id) != Held(s.chains, id) ==>
              id in s.edges && ByParties(node, s, s.edges[id], m.sender)
  {
    var lineage := I.LineageIn(node, s.rotations);
    AfterResponse(node, s, m, t, lineage);
    if !Shares(s.edges, node.persona, m.sender, lineage, id) {
      OnlySharedChange(I.CourtAt(node, lineage, t.now), s.edges, node.persona, m.sender, lineage, s.chains,
                       m.payload.entries, id);
    }
  }

  // An edge returned with its honest chain, in which its owner proposed it, is held again, chain and all.
  lemma LostEdgeIsRestored(node: I.Node, s: I.Store, lineage: Lineage, now: int, item: I.Returned,
                           rest: seq<Assertion>, k: nat)
    requires var edge := item.edge;
      && PartOf(edge, node.persona, lineage) && BindsBody(node.digest, edge)
      && (edge.edgeId in s.edges ==> s.edges[edge.edgeId] == edge)
      && Honest(Held(s.chains, edge.edgeId), rest, item.assertions)
      && Stands(I.CourtAt(node, lineage, now), edge, Held(s.chains, edge.edgeId), rest)
    requires var chain := Held(s.chains, item.edge.edgeId) + rest;
      && k < |chain| && chain[k].state == Proposed && chain[k].signer == item.edge.owner
      && Outcomes(I.CourtAt(node, lineage, now).table(item.edge), START, chain)[k]
    ensures var id, u := item.edge.edgeId, I.AfterRestore(node, s, lineage, now, item);
      && u.edges == s.edges[id := item.edge] && Held(u.chains, id) == Held(s.chains, id) + rest
      && u.rotations == s.rotations && u.budget == s.budget
  {
    var edge, court := item.edge, I.CourtAt(node, lineage, now);
    var local := Held(s.chains, edge.edgeId);
    NewsInOrder(local, rest, item.assertions);
    HonestChainArrives(court, edge, local, rest, item.assertions);
    assert local + [] == local;
  }

  // ---------------------------------------------------------------- what is reported

  function VerdictAt(node: I.Node, s: I.Store, batch: seq<I.Delivery>, i: nat): I.Verdict
    requires i < |batch|
  {
    I.VerdictOn(node, I.AfterBatch(node, s, batch[..i]), batch[i].message, batch[i].at)
  }

  // Message m of the batch was given this verdict.
  ghost predicate Given(node: I.Node, s: I.Store, batch: seq<I.Delivery>, m: I.Message, verdict: I.Verdict) {
    exists i :: 0 <= i < |batch| && batch[i].message == m && VerdictAt(node, s, batch, i) == verdict
  }

  lemma GivenFirst(node: I.Node, s: I.Store, batch: seq<I.Delivery>, m: I.Message, verdict: I.Verdict)
    requires batch != []
    ensures var next := I.After(node, s, batch[0].message, batch[0].at);
      Given(node, s, batch, m, verdict) <==>
      (batch[0].message == m && I.VerdictOn(node, s, m, batch[0].at) == verdict) ||
      Given(node, next, batch[1..], m, verdict)
  {
    var next, rest := I.After(node, s, batch[0].message, batch[0].at), batch[1..];
    assert batch[..0] == [];
    forall i | 0 <= i < |rest|
      ensures batch[i + 1] == rest[i] && VerdictAt(node, s, batch, i + 1) == VerdictAt(node, next, rest, i)
    {
      assert batch[..i + 1][0] == batch[0] && batch[..i + 1][1..] == rest[..i];
    }
    if Given(node, s, batch, m, verdict) {
      var i :| 0 <= i < |batch| && batch[i].message == m && VerdictAt(node, s, batch, i) == verdict;
      if i > 0 {
        assert rest[i - 1] == batch[i];
      }
    }
    if Given(node, next, rest, m, verdict) {
      var i :| 0 <= i < |rest| && rest[i].message == m && VerdictAt(node, next, rest, i) == verdict;
      assert VerdictAt(node, s, batch, i + 1) == verdict;
    }
    assert VerdictAt(node, s, batch, 0) == I.VerdictOn(node, s, batch[0].message, batch[0].at);
  }

  // Each list of the report names exactly the messages of the batch with that verdict, besides what it had.
  ghost predicate Lists(node: I.Node, s: I.Store, batch: seq<I.Delivery>, had: I.IngestResult, has: I.IngestResult,
                        m: I.Message)
  {
    && (m in has.accepted <==> m in had.accepted || Given(node, s, batch, m, I.Took))
    && (m in has.requests <==> m in had.requests || Given(node, s, batch, m, I.Asked))
    && (forall why :: (m, why) in has.discarded <==>
          (m, why) in had.discarded || Given(node, s, batch, m, I.Refused(why)))
    && (forall why :: (m, why) in has.suppressed <==>
          (m, why) in had.suppressed || Given(node, s, batch, m, I.OverBudget(why)))
  }

  lemma {:induction false} ReportIsExact(node: I.Node, s: I.Store, batch: seq<I.Delivery>, had: I.IngestResult,
                                         m: I.Message)
    ensures Lists(node, s, batch, had, I.ReportOn(node, s, batch, had), m)
    decreases |batch|
  {
    if batch != [] {
      var first, at := batch[0].message, batch[0].at;
      var next, verdict := I.After(node, s, first, at), I.VerdictOn(node, s, first, at);
      var more := I.Recorded(had, first, verdict);
      ReportIsExact(node, next, batch[1..], more, m);
      GivenFirst(node, s, batch, m, I.Took);
      GivenFirst(node, s, batch, m, I.Asked);
      forall why
        ensures Given(node, s, batch, m, I.Refused(why)) <==>
                (first == m && verdict == I.Refused(why)) || Given(node, next, batch[1..], m, I.Refused(why))
      {
        GivenFirst(node, s, batch, m, I.Refused(why));
      }
      forall why
        ensures Given(node, s, batch, m, I.OverBudget(why)) <==>
                (first == m && verdict == I.OverBudget(why)) || Given(node, next, batch[1..], m, I.OverBudget(why))
      {
        GivenFirst(node, s, batch, m, I.OverBudget(why));
      }
    }
  }

  // ---------------------------------------------------------------- why a message is refused

  // A message is turned away at the door for the first of three reasons, and for none of them afterwards.
  lemma TurnedAwayIff(node: I.Node, s: I.Store, m: I.Message, t: I.Moment)
    ensures var v := I.VerdictOn(node, s, m, t);
      && (v == I.Refused(I.WrongVersion) <==> !m.speaksVersion)
      && (v == I.Refused(I.BadSignature) <==> m.speaksVersion && !node.authentic(m))
      && (v == I.Refused(I.AnotherPersona) <==>
            m.speaksVersion && node.authentic(m) && m.recipient != node.persona)
  {
  }

  // A proposal is refused for the first of these faults.
  lemma ProposalRefusedFor(node: I.Node, s: I.Store, m: I.Message, t: I.Moment)
    requires m.payload.Propose? && I.Admissible(node, m)
    ensures var v, edge := I.VerdictOn(node, s, m, t), m.payload.edge;
      var bound, same := BindsBody(node.digest, edge), edge.edgeId in s.edges ==> s.edges[edge.edgeId] == edge;
      && (v == I.Refused(I.Unbound) <==> !bound)
      && (v == I.Refused(I.BodyDiffers) <==> bound && !same)
      && (v == I.Refused(I.NotAddressed) <==> bound && same && edge.owedTo != node.persona)
      && (v == I.Refused(I.NotTheOwner) <==>
            bound && same && edge.owedTo == node.persona && m.sender != edge.owner)
  {
  }

  // And an assertion for the first of these; one already held is passed over in silence.
  lemma AssertionRefusedFor(node: I.Node, s: I.Store, m: I.Message, t: I.Moment)
    requires m.payload.Assert? && I.Admissible(node, m)
    requires forall id :: id in s.edges ==> s.edges[id].edgeId == id
    ensures var v, a, lineage := I.VerdictOn(node, s, m, t), m.payload.assertion, I.LineageIn(node, s.rotations);
      var known := a.edgeId in s.edges;
      var mine := known && PartOf(s.edges[a.edgeId], node.persona, lineage);
      var theirs := known && PartOf(s.edges[a.edgeId], m.sender, lineage);
      && (v == I.Refused(I.UnknownEdge) <==> !known)
      && (v == I.Refused(I.NotAddressed) <==> known && !mine)
      && (v == I.Refused(I.SenderNotAParty) <==> mine && !theirs)
      && (v == I.AlreadyHeard <==> mine && theirs && HoldsSig(Held(s.chains, a.edgeId), a.sig))
  {
  }
}
