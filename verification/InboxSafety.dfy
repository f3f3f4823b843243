/**
 * What holds in every run of an inbox, whoever sends what: an edge's body never changes and its id
 * digests it, nothing is held that its owner did not sign a proposal for, chains only grow, hearing
 * a message again changes nothing, and strangers can add no more edges than the budget's cap.
 */
module InboxSafety {
  import opened Prelude
  import opened Replay
  import opened Transitions
  import opened EdgeIdentity
  import opened Recon
  import opened ReconConvergence
  import opened Inbox
  import AntiSpam
  import R = Rotation

  // ---------------------------------------------------------------- runs

  datatype Event = Deliver(message: Message, at: Moment) | Recover(items: seq<Returned>, now: int)

  function AfterEvent(node: Node, s: Store, e: Event): Store {
    match e
    case Deliver(m, t) => After(node, s, m, t)
    case Recover(items, now) => AfterRecovery(node, s, LineageIn(node, s.rotations), now, items)
  }

  function Run(node: Node, s: Store, events: seq<Event>): Store
    decreases |events|
  {
    if events == [] then s else Run(node, AfterEvent(node, s, events[0]), events[1..])
  }

  // ---------------------------------------------------------------- the invariant

  ghost predicate SignedChain(node: Node, id: string, chain: seq<Assertion>) {
    forall i :: 0 <= i < |chain| ==> chain[i].edgeId == id && node.verifies(chain[i])
  }

  // The owner signed a proposal of this very edge, and it is in the chain.
  ghost predicate Promised(edge: Edge, chain: seq<Assertion>) {
    exists i :: 0 <= i < |chain| && chain[i].state.Proposed? && chain[i].signer == edge.owner
  }

  ghost predicate SoundEdge(node: Node, s: Store, id: string)
    requires id in s.edges
  {
    && s.edges[id].edgeId == id
    && BindsBody(node.digest, s.edges[id])
    && Promised(s.edges[id], Held(s.chains, id))
  }

  ghost predicate Sound(node: Node, s: Store) {
    && (forall id :: id in s.edges ==> SoundEdge(node, s, id))
    && (forall id :: SignedChain(node, id, Held(s.chains, id)))
    && (forall id :: Held(s.chains, id) != [] ==> id in s.edges)
  }

  // Nothing held is lost or altered.
  ghost predicate Grows(s: Store, t: Store) {
    && (forall id :: id in s.edges ==> id in t.edges && t.edges[id] == s.edges[id])
    && (forall id :: Held(s.chains, id) <= Held(t.chains, id))
  }

  // ---------------------------------------------------------------- one chain

  // What a chain gains is named for its edge and signed.
  lemma {:induction false} AcceptedAreSigned(node: Node, lineage: Lineage, now: int, edge: Edge, c: Chain,
                                             chain: seq<Assertion>)
    ensures SignedChain(node, edge.edgeId, Accepted(CourtAt(node, lineage, now).table(edge), c, chain))
    decreases |chain|
  {
    var step := CourtAt(node, lineage, now).table(edge);
    if chain != [] {
      AcceptedAreSigned(node, lineage, now, edge, Next(step, c, chain[0]), chain[1..]);
      if step(c, chain[0]).Some? {
        AcceptedIsSigned(node, lineage, now, edge, c, chain[0]);
      }
    }
  }

  lemma Longer(node: Node, edge: Edge, local: seq<Assertion>, more: seq<Assertion>)
    requires SignedChain(node, edge.edgeId, local) && SignedChain(node, edge.edgeId, more)
    ensures SignedChain(node, edge.edgeId, local + more)
    ensures Promised(edge, local) ==> Promised(edge, local + more)
  {
    if Promised(edge, local) {
      var i :| 0 <= i < |local| && local[i].state.Proposed? && local[i].signer == edge.owner;
      assert (local + more)[i] == local[i];
    }
  }

  // A store whose edge `id` has `chain` now: still sound when the chain extends what was there.
  lemma Extending(node: Node, s: Store, t: Store, edge: Edge, more: seq<Assertion>)
    requires Sound(node, s) && BindsBody(node.digest, edge)
    requires edge.edgeId in s.edges ==> s.edges[edge.edgeId] == edge
    requires SignedChain(node, edge.edgeId, more)
    requires Promised(edge, Held(s.chains, edge.edgeId) + more)
    requires t.edges == s.edges[edge.edgeId := edge]
    requires || t.chains == s.chains[edge.edgeId := Held(s.chains, edge.edgeId) + more]
             || (more == [] && t.chains == s.chains)
    ensures Sound(node, t) && Grows(s, t)
  {
    var local := Held(s.chains, edge.edgeId);
    Longer(node, edge, local, more);
    assert more == [] ==> local + more == local;
    assert Held(t.chains, edge.edgeId) == local + more;
    forall id
      ensures id != edge.edgeId ==> Held(t.chains, id) == Held(s.chains, id)
      ensures SignedChain(node, id, Held(t.chains, id))
    {
      assert SignedChain(node, id, Held(s.chains, id));
    }
    forall id | id in t.edges
      ensures SoundEdge(node, t, id)
    {
      assert id != edge.edgeId ==> SoundEdge(node, s, id);
    }
  }

  // ---------------------------------------------------------------- each kind of message

  lemma OnlyHolder(key: Key, signer: Key, at: int)
    ensures HeldBy(Literally()(key), signer, at) <==> signer == key
  {
    assert Literally()(key)[1..] == [];
  }

  // From nothing, only a proposal by the owner is accepted.
  lemma AloneIsProposal(node: Node, now: int, edge: Edge, a: Assertion)
    requires CourtAt(node, Literally(), now).table(edge)(START, a).Some?
    ensures a.state.Proposed? && a.signer == edge.owner
  {
    var v := Verifier(node.verifies, Literally(), node.addDuration, Some(now));
    assert Step(edge, v, START, a).Accept?;
    OnlyHolder(edge.owner, a.signer, a.assertedAt);
  }

  lemma ProposeKeepsSound(node: Node, s: Store, sender: Key, edge: Edge, a: Assertion, t: Moment)
    requires Sound(node, s)
    ensures var u := AfterPropose(node, s, sender, edge, a, t); Sound(node, u) && Grows(s, u)
  {
    var u := AfterPropose(node, s, sender, edge, a, t);
    if u.edges == s.edges && u.chains == s.chains {
      assert forall id :: id in u.edges ==> SoundEdge(node, s, id);
    } else {
      AcceptedIsSigned(node, Literally(), t.now, edge, START, a);
      AloneIsProposal(node, t.now, edge, a);
      var local := Held(s.chains, edge.edgeId);
      assert (local + [a])[|local|] == a;
      Extending(node, s, u, edge, [a]);
    }
  }

  lemma AssertKeepsSound(node: Node, s: Store, sender: Key, a: Assertion, t: Moment)
    requires Sound(node, s)
    ensures var u := AfterAssert(node, s, sender, a, t); Sound(node, u) && Grows(s, u)
  {
    var u := AfterAssert(node, s, sender, a, t);
    if AssertVerdict(node, s, sender, a, t).Took? {
      var edge, lineage := s.edges[a.edgeId], LineageIn(node, s.rotations);
      var local, step := Held(s.chains, a.edgeId), CourtAt(node, lineage, t.now).table(edge);
      assert SoundEdge(node, s, a.edgeId);
      AcceptedIsSigned(node, lineage, t.now, edge, Final(step, START, local), a);
      Longer(node, edge, local, [a]);
      assert s.edges == s.edges[a.edgeId := edge];
      Extending(node, s, u, edge, [a]);
    }
  }

  lemma EntryKeepsSound(node: Node, s: Store, lineage: Lineage, now: int, responder: Key, entry: Entry)
    requires Sound(node, s)
    ensures var court := CourtAt(node, lineage, now);
      var u := s.(chains := ChainsAfter(court, s.edges, node.persona, responder, lineage, s.chains, entry));
      Sound(node, u) && Grows(s, u)
  {
    if Shares(s.edges, node.persona, responder, lineage, entry.edgeId) {
      var court, edge, local := CourtAt(node, lineage, now), s.edges[entry.edgeId], Held(s.chains, entry.edgeId);
      var stored := Stored(court, edge, local, entry.assertions);
      assert SoundEdge(node, s, entry.edgeId);
      var incoming := Incoming(local, entry.assertions);
      AcceptedAreSigned(node, lineage, now, edge, Final(court.table(edge), START, local), incoming);
      Longer(node, edge, local, stored);
      assert s.edges == s.edges[entry.edgeId := edge];
      var u := s.(chains := ChainsAfter(court, s.edges, node.persona, responder, lineage, s.chains, entry));
      Extending(node, s, u, edge, stored);
    }
  }

  lemma {:induction false} EntriesKeepSound(node: Node, s: Store, lineage: Lineage, now: int, responder: Key,
                                            entries: seq<Entry>)
    requires Sound(node, s)
    ensures var court := CourtAt(node, lineage, now);
      var u := s.(chains := ChainsAfterAll(court, s.edges, node.persona, responder, lineage, s.chains, entries));
      Sound(node, u) && Grows(s, u)
    decreases |entries|
  {
    if entries != [] {
      EntryKeepsSound(node, s, lineage, now, responder, entries[0]);
      var court := CourtAt(node, lineage, now);
      var t := s.(chains := ChainsAfter(court, s.edges, node.persona, responder, lineage, s.chains, entries[0]));
      EntriesKeepSound(node, t, lineage, now, responder, entries[1..]);
    }
  }

  // The proposal the recovered chain shows is in it once it is stored.
  lemma {:induction false} ShownIsKept(node: Node, lineage: Lineage, now: int, edge: Edge, c: Chain,
                                         chain: seq<Assertion>, i: nat)
    requires i < |chain| && Outcomes(CourtAt(node, lineage, now).table(edge), c, chain)[i]
    ensures chain[i] in Accepted(CourtAt(node, lineage, now).table(edge), c, chain)
    decreases |chain|
  {
    if i > 0 {
      var step := CourtAt(node, lineage, now).table(edge);
      ShownIsKept(node, lineage, now, edge, Next(step, c, chain[0]), chain[1..], i - 1);
    }
  }

  lemma RestoredIsPromised(node: Node, lineage: Lineage, now: int, edge: Edge, local: seq<Assertion>,
                           incoming: seq<Assertion>)
    requires var candidate := local + incoming;
      ProposedByOwner(edge, candidate, Outcomes(CourtAt(node, lineage, now).table(edge), START, candidate))
    ensures var step := CourtAt(node, lineage, now).table(edge);
      Promised(edge, local + Accepted(step, Final(step, START, local), incoming))
  {
    var step, candidate := CourtAt(node, lineage, now).table(edge), local + incoming;
    var middle := Final(step, START, local);
    var stored := Accepted(step, middle, incoming);
    var i :| 0 <= i < |candidate| && Outcomes(step, START, candidate)[i] && candidate[i].state.Proposed? &&
             candidate[i].signer == edge.owner;
    FinalOfConcat(step, START, local, incoming);
    if i < |local| {
      assert (local + stored)[i] == candidate[i];
    } else {
      assert Outcomes(step, middle, incoming)[i - |local|];
      ShownIsKept(node, lineage, now, edge, middle, incoming, i - |local|);
      var k :| 0 <= k < |stored| && stored[k] == incoming[i - |local|];
      assert (local + stored)[|local| + k] == candidate[i];
    }
  }

  lemma RestoreKeepsSound(node: Node, s: Store, lineage: Lineage, now: int, item: Returned)
    requires Sound(node, s)
    ensures var u := AfterRestore(node, s, lineage, now, item); Sound(node, u) && Grows(s, u)
  {
    if Restorable(node, s.edges, s.chains, lineage, now, item) {
      var court, edge, local := CourtAt(node, lineage, now), item.edge, Held(s.chains, item.edge.edgeId);
      RestoredIsPromised(node, lineage, now, edge, local, Incoming(local, item.assertions));
      var incoming := Incoming(local, item.assertions);
      AcceptedAreSigned(node, lineage, now, edge, Final(court.table(edge), START, local), incoming);
      Extending(node, s, AfterRestore(node, s, lineage, now, item), edge, Stored(court, edge, local, item.assertions));
    }
  }

  lemma {:induction false} RecoveryKeepsSound(node: Node, s: Store, lineage: Lineage, now: int, items: seq<Returned>)
    requires Sound(node, s)
    ensures var u := AfterRecovery(node, s, lineage, now, items); Sound(node, u) && Grows(s, u)
    decreases |items|
  {
    if items != [] {
      RestoreKeepsSound(node, s, lineage, now, items[0]);
      RecoveryKeepsSound(node, AfterRestore(node, s, lineage, now, items[0]), lineage, now, items[1..]);
    }
  }

  lemma EventKeepsSound(node: Node, s: Store, e: Event)
    requires Sound(node, s)
    ensures Sound(node, AfterEvent(node, s, e)) && Grows(s, AfterEvent(node, s, e))
  {
    match e
    case Recover(items, now) => RecoveryKeepsSound(node, s, LineageIn(node, s.rotations), now, items);
    case Deliver(m, t) =>
      match m.payload {
        case Propose(edge, a) => ProposeKeepsSound(node, s, m.sender, edge, a, t);
        case Assert(a) => AssertKeepsSound(node, s, m.sender, a, t);
        case ReconResponse(entries) =>
          EntriesKeepSound(node, s, LineageIn(node, s.rotations), t.now, m.sender, entries);
        case _ => assert forall id :: id in s.edges ==> SoundEdge(node, s, id);
      }
  }

  // In every run the store stays sound and only grows.
  lemma {:induction false} EveryRunIsSound(node: Node, s: Store, events: seq<Event>)
    requires Sound(node, s)
    ensures Sound(node, Run(node, s, events)) && Grows(s, Run(node, s, events))
    decreases |events|
  {
    if events != [] {
      EventKeepsSound(node, s, events[0]);
      EveryRunIsSound(node, AfterEvent(node, s, events[0]), events[1..]);
    }
  }

  // ---------------------------------------------------------------- hearing a message again

  // The assertion a propose or an assert carries.
  function Carries(m: Message): Option<Assertion> {
    match m.payload
    case Propose(_, a) => Some(a)
    case Assert(a) => Some(a)
    case _ => None
  }

  // A propose or assert that was taken is held, under the edge it names.
  lemma TakenIsHeld(node: Node, s: Store, m: Message, t: Moment)
    requires Sound(node, s) && Carries(m).Some? && VerdictOn(node, s, m, t).Took?
    ensures var a := Carries(m).value; HoldsAssertion(After(node, s, m, t), a.edgeId, a.sig)
    ensures m.payload.Propose? ==> m.payload.edge.edgeId == Carries(m).value.edgeId
  {
    var a, u := Carries(m).value, After(node, s, m, t);
    if m.payload.Propose? {
      AcceptedIsSigned(node, Literally(), t.now, m.payload.edge, START, a);
    } else {
      assert SoundEdge(node, s, a.edgeId);
    }
    if u.chains != s.chains {
      assert Held(u.chains, a.edgeId) == Held(s.chains, a.edgeId) + [a];
      assert Held(u.chains, a.edgeId)[|Held(s.chains, a.edgeId)|].sig == a.sig;
    }
  }

  lemma HeldIsQuiet(node: Node, s: Store, m: Message, t: Moment)
    requires Sound(node, s) && Carries(m).Some?
    requires HoldsAssertion(s, Carries(m).value.edgeId, Carries(m).value.sig)
    requires m.payload.Propose? ==> m.payload.edge.edgeId == Carries(m).value.edgeId
    ensures After(node, s, m, t) == s && !VerdictOn(node, s, m, t).OverBudget?
  {
    assert SoundEdge(node, s, Carries(m).value.edgeId);
  }

  // Once a propose or an assert has been taken, hearing it again after any run at all, at any time,
  // changes neither the vault nor the budget.
  lemma RedeliveryIsQuiet(node: Node, s: Store, m: Message, t: Moment, events: seq<Event>, again: Moment)
    requires Sound(node, s) && Carries(m).Some? && VerdictOn(node, s, m, t).Took?
    ensures var later := Run(node, After(node, s, m, t), events);
      After(node, later, m, again) == later && !VerdictOn(node, later, m, again).OverBudget?
  {
    var first := After(node, s, m, t);
    var later := Run(node, first, events);
    EventKeepsSound(node, s, Deliver(m, t));
    EveryRunIsSound(node, first, events);
    TakenIsHeld(node, s, m, t);
    var a := Carries(m).value;
    var i :| 0 <= i < |Held(first.chains, a.edgeId)| && Held(first.chains, a.edgeId)[i].sig == a.sig;
    assert Held(later.chains, a.edgeId)[i].sig == a.sig;
    HeldIsQuiet(node, later, m, again);
  }

  // ---------------------------------------------------------------- how much strangers can add

  // Whether an event is a delivery by a sender of level 0.
  predicate ByStranger(e: Event) {
    e.Deliver? && e.at.levelZero
  }

  function NewIn(node: Node, s: Store, e: Event): set<string> {
    AfterEvent(node, s, e).edges.Keys - s.edges.Keys
  }

  // The edges that came to be held through deliveries by strangers, or through all the other events.
  function AddedBy(node: Node, s: Store, events: seq<Event>, strangers: bool): set<string>
    decreases |events|
  {
    if events == [] then {}
    else
      (if ByStranger(events[0]) == strangers then NewIn(node, s, events[0]) else {}) +
      AddedBy(node, AfterEvent(node, s, events[0]), events[1..], strangers)
  }

  lemma {:induction false} RecoveryOnlyAdds(node: Node, s: Store, lineage: Lineage, now: int, items: seq<Returned>)
    ensures s.edges.Keys <= AfterRecovery(node, s, lineage, now, items).edges.Keys
    ensures AfterRecovery(node, s, lineage, now, items).budget == s.budget
    decreases |items|
  {
    if items != [] {
      RecoveryOnlyAdds(node, AfterRestore(node, s, lineage, now, items[0]), lineage, now, items[1..]);
    }
  }

  // Going from s to u adds no more edges than it spends of the budget, and keeps within the cap.
  ghost predicate Spends(s: Store, u: Store, cap: nat) {
    && s.edges.Keys <= u.edges.Keys && |u.edges.Keys - s.edges.Keys| <= u.budget.surfaced - s.budget.surfaced
    && u.budget.surfaced <= cap
  }

  lemma AddsNothing(s: Store, u: Store, cap: nat)
    requires u.edges == s.edges && u.budget.surfaced == s.budget.surfaced <= cap
    ensures Spends(s, u, cap)
  {
    assert u.edges.Keys - s.edges.Keys == {};
  }

  lemma AddsOne(s: Store, u: Store, cap: nat, edge: Edge)
    requires u.edges == s.edges[edge.edgeId := edge] && u.budget.surfaced == s.budget.surfaced + 1 <= cap
    ensures Spends(s, u, cap)
  {
    OneNewKey(s.edges, edge);
  }

  // A proposal is dropped, or counted and held back, or counted and taken.
  ghost predicate Weighed(node: Node, s: Store, sender: Key, edge: Edge, t: Moment, u: Store) {
    || u == s
    || (u == s.(budget := Spend(node, s.budget, sender, t)) && !Admission(node, s.budget, sender, t).Surface?)
    || (u.edges == s.edges[edge.edgeId := edge] && u.budget == Spend(node, s.budget, sender, t) &&
        Admission(node, s.budget, sender, t).Surface?)
  }

  lemma ProposeIsWeighed(node: Node, s: Store, sender: Key, edge: Edge, a: Assertion, t: Moment, u: Store)
    requires u == AfterPropose(node, s, sender, edge, a, t)
    ensures Weighed(node, s, sender, edge, t, u)
  {
  }

  lemma SpendCases(node: Node, budget: AntiSpam.Budget, sender: Key, t: Moment)
    requires node.limits.Some? && t.levelZero && budget.surfaced <= node.limits.value.cap
    ensures Spend(node, budget, sender, t).surfaced ==
            budget.surfaced + if Admission(node, budget, sender, t).Surface? then 1 else 0
    ensures Spend(node, budget, sender, t).surfaced <= node.limits.value.cap
  {
  }

  lemma ProposeSpends(node: Node, s: Store, sender: Key, edge: Edge, t: Moment, u: Store)
    requires node.limits.Some? && t.levelZero && s.budget.surfaced <= node.limits.value.cap
    requires Weighed(node, s, sender, edge, t, u)
    ensures Spends(s, u, node.limits.value.cap)
  {
    SpendCases(node, s.budget, sender, t);
    if u == s || !Admission(node, s.budget, sender, t).Surface? {
      AddsNothing(s, u, node.limits.value.cap);
    } else {
      AddsOne(s, u, node.limits.value.cap, edge);
    }
  }

  // A message of any other kind leaves the edges and the budget alone.
  lemma OnlyProposeAdds(node: Node, s: Store, m: Message, t: Moment)
    requires !m.payload.Propose?
    ensures After(node, s, m, t).edges == s.edges && After(node, s, m, t).budget == s.budget
  {
  }

  lemma StrangerSpends(node: Node, s: Store, m: Message, t: Moment)
    requires node.limits.Some? && t.levelZero && s.budget.surfaced <= node.limits.value.cap
    ensures Spends(s, After(node, s, m, t), node.limits.value.cap)
  {
    var u := After(node, s, m, t);
    if !Admissible(node, m) {
      AddsNothing(s, u, node.limits.value.cap);
    } else if m.payload.Propose? {
      ProposeIsWeighed(node, s, m.sender, m.payload.edge, m.payload.assertion, t, u);
      ProposeSpends(node, s, m.sender, m.payload.edge, t, u);
    } else {
      OnlyProposeAdds(node, s, m, t);
      AddsNothing(s, u, node.limits.value.cap);
    }
  }

  lemma OneNewKey(edges: map<string, Edge>, edge: Edge)
    ensures |edges[edge.edgeId := edge].Keys - edges.Keys| <= 1
  {
    assert edges[edge.edgeId := edge].Keys - edges.Keys <= {edge.edgeId};
    SubsetOfOne(edges[edge.edgeId := edge].Keys - edges.Keys, edge.edgeId);
  }

  lemma SubsetOfOne(x: set<string>, id: string)
    requires x <= {id}
    ensures |x| <= 1
  {
    assert x == {} || x == {id};
  }

  // Any other delivery spends nothing.
  lemma OthersSpendNothing(node: Node, s: Store, m: Message, t: Moment)
    requires !t.levelZero
    ensures s.edges.Keys <= After(node, s, m, t).edges.Keys && After(node, s, m, t).budget == s.budget
  {
  }

  lemma EventSpends(node: Node, s: Store, e: Event)
    requires node.limits.Some? && s.budget.surfaced <= node.limits.value.cap
    ensures var u := AfterEvent(node, s, e);
      && s.edges.Keys <= u.edges.Keys && s.budget.surfaced <= u.budget.surfaced <= node.limits.value.cap
      && (ByStranger(e) ==> Spends(s, u, node.limits.value.cap))
  {
    match e
    case Recover(items, now) => RecoveryOnlyAdds(node, s, LineageIn(node, s.rotations), now, items);
    case Deliver(m, t) =>
      if t.levelZero {
        StrangerSpends(node, s, m, t);
      } else {
        OthersSpendNothing(node, s, m, t);
      }
  }

  lemma UnionIsNoLarger(x: set<string>, y: set<string>)
    ensures |x + y| <= |x| + |y|
  {
    assert |x + y| == |x| + |y - x| by {
      assert x + y == x + (y - x) && x !! (y - x);
    }
    assert |y| == |y - x| + |y * x| by {
      assert y == (y - x) + (y * x) && (y - x) !! (y * x);
    }
  }

  // In any run, whoever else delivers and whatever is recovered, the edges held at the end are those held
  // before, those strangers added and those added otherwise; and senders of level 0 add no more than the
  // budget surfaced, which never passes its cap.
  lemma {:induction false} StrangersAddAtMostTheCap(node: Node, s: Store, events: seq<Event>)
    requires node.limits.Some? && s.budget.surfaced <= node.limits.value.cap
    ensures var u := Run(node, s, events);
      && u.edges.Keys == s.edges.Keys + AddedBy(node, s, events, true) + AddedBy(node, s, events, false)
      && |AddedBy(node, s, events, true)| <= u.budget.surfaced - s.budget.surfaced
      && u.budget.surfaced <= node.limits.value.cap
    decreases |events|
  {
    if events != [] {
      var t := AfterEvent(node, s, events[0]);
      EventSpends(node, s, events[0]);
      StrangersAddAtMostTheCap(node, t, events[1..]);
      AddedHead(node, s, events, t);
    }
  }

  lemma AddedHead(node: Node, s: Store, events: seq<Event>, t: Store)
    requires events != [] && t == AfterEvent(node, s, events[0]) && s.edges.Keys <= t.edges.Keys
    ensures var x, y := AddedBy(node, t, events[1..], true), AddedBy(node, t, events[1..], false);
      && t.edges.Keys + x + y == s.edges.Keys + AddedBy(node, s, events, true) + AddedBy(node, s, events, false)
      && |AddedBy(node, s, events, true)| <= |x| + if ByStranger(events[0]) then |t.edges.Keys - s.edges.Keys| else 0
  {
    var x, y := AddedBy(node, t, events[1..], true), AddedBy(node, t, events[1..], false);
    Regroups(s.edges.Keys, t.edges.Keys, x, y, ByStranger(events[0]));
  }

  lemma Regroups(before: set<string>, after: set<string>, x: set<string>, y: set<string>, strangers: bool)
    requires before <= after
    ensures var added := after - before;
      && after + x + y == before + ((if strangers then added else {}) + x) + ((if !strangers then added else {}) + y)
      && |(if strangers then added else {}) + x| <= |x| + if strangers then |added| else 0
  {
    UnionIsNoLarger(after - before, x);
    assert {} + x == x;
  }

  // ---------------------------------------------------------------- filing rotations

  // The files are kept in the order of their names, one to a new key.
  ghost predicate InNameOrder(rotations: seq<R.Rotation>) {
    forall i, j :: 0 <= i < j < |rotations| ==>
      Leq(rotations[i].core.new', rotations[j].core.new') && rotations[i].core.new' != rotations[j].core.new'
  }

  lemma {:induction false} FiledHolds(rotations: seq<R.Rotation>, r: R.Rotation, x: R.Rotation)
    requires InNameOrder(rotations)
    ensures x in Filed(rotations, r) <==> x == r || (x in rotations && x.core.new' != r.core.new')
  {
    if rotations == [] {
    } else {
      var rest := rotations[1..];
      assert rotations == [rotations[0]] + rest;
      if rotations[0].core.new' == r.core.new' {
        assert x in rest ==> x.core.new' != r.core.new';
      } else if Leq(r.core.new', rotations[0].core.new') {
        LaterNamesDiffer(rotations, r);
      } else {
        FiledHolds(rest, r, x);
      }
    }
  }

  // A name at or before the first of the files and different from it is none of theirs.
  lemma LaterNamesDiffer(rotations: seq<R.Rotation>, r: R.Rotation)
    requires InNameOrder(rotations) && rotations != []
    requires Leq(r.core.new', rotations[0].core.new') && r.core.new' != rotations[0].core.new'
    ensures forall x :: x in rotations ==> x.core.new' != r.core.new'
  {
    forall x | x in rotations
      ensures x.core.new' != r.core.new'
    {
      if x.core.new' == r.core.new' {
        LeqAntisymmetric(r.core.new', rotations[0].core.new');
      }
    }
  }

  lemma FirstNameFirst(r: R.Rotation, rest: seq<R.Rotation>)
    requires InNameOrder(rest)
    requires forall x :: x in rest ==> Leq(r.core.new', x.core.new') && r.core.new' != x.core.new'
    ensures InNameOrder([r] + rest)
  {
    var all := [r] + rest;
    forall i, j | 0 <= i < j < |all|
      ensures Leq(all[i].core.new', all[j].core.new') && all[i].core.new' != all[j].core.new'
    {
      assert all[j] == rest[j - 1] && rest[j - 1] in rest;
    }
  }

  lemma AfterFirstName(rotations: seq<R.Rotation>)
    requires InNameOrder(rotations) && rotations != []
    ensures InNameOrder(rotations[1..])
    ensures forall x :: x in rotations[1..] ==>
              Leq(rotations[0].core.new', x.core.new') && rotations[0].core.new' != x.core.new'
  {
  }

  lemma {:induction false} FilingKeepsNameOrder(rotations: seq<R.Rotation>, r: R.Rotation)
    requires InNameOrder(rotations)
    ensures InNameOrder(Filed(rotations, r))
  {
    if rotations == [] {
    } else {
      var first, rest := rotations[0], rotations[1..];
      AfterFirstName(rotations);
      if first.core.new' == r.core.new' {
        FirstNameFirst(r, rest);
      } else if Leq(r.core.new', first.core.new') {
        LaterNamesDiffer(rotations, r);
        forall x | x in rotations
          ensures Leq(r.core.new', x.core.new')
        {
          if x != first {
            LeqTransitive(r.core.new', first.core.new', x.core.new');
          }
        }
        FirstNameFirst(r, rotations);
      } else {
        LeqTotal(r.core.new', first.core.new');
        FilingKeepsNameOrder(rest, r);
        forall x | x in Filed(rest, r)
          ensures Leq(first.core.new', x.core.new') && first.core.new' != x.core.new'
        {
          FiledHolds(rest, r, x);
        }
        FirstNameFirst(first, Filed(rest, r));
      }
    }
  }

  // Filing a statement keeps every other one exactly when none of them names the same new key.
  lemma FilingKeepsTheRestIff(rotations: seq<R.Rotation>, r: R.Rotation)
    requires InNameOrder(rotations)
    ensures (forall x :: x in rotations ==> x in Filed(rotations, r))
            <==> (forall x :: x in rotations && x.core.new' == r.core.new' ==> x == r)
  {
    forall x
      ensures x in Filed(rotations, r) <==> x == r || (x in rotations && x.core.new' != r.core.new')
    {
      FiledHolds(rotations, r, x);
    }
  }

  // Two keys that are both replaced by one: filing the second statement loses the first.
  lemma SharedSuccessorCollides()
    ensures var first := R.Rotation(R.Core("1", "a", "b", 1), Some(""), None);
      var second := R.Rotation(R.Core("1", "c", "b", 2), Some(""), None);
      Filed([first], second) == [second]
  {
    var first := R.Rotation(R.Core("1", "a", "b", 1), Some(""), None);
    assert [first][1..] == [];
  }

  lemma {:induction false} RecoveryLeavesRotations(node: Node, s: Store, lineage: Lineage, now: int,
                                                   items: seq<Returned>)
    ensures AfterRecovery(node, s, lineage, now, items).rotations == s.rotations
    decreases |items|
  {
    if items != [] {
      RecoveryLeavesRotations(node, AfterRestore(node, s, lineage, now, items[0]), lineage, now, items[1..]);
    }
  }

  lemma {:induction false} RunsKeepNameOrder(node: Node, s: Store, events: seq<Event>)
    requires InNameOrder(s.rotations)
    ensures InNameOrder(Run(node, s, events).rotations)
    decreases |events|
  {
    if events != [] {
      var t := AfterEvent(node, s, events[0]);
      match events[0] {
        case Recover(items, now) => RecoveryLeavesRotations(node, s, LineageIn(node, s.rotations), now, items);
        case Deliver(m, at) =>
          if m.payload.Rotate? && m.payload.statement.Some? {
            FilingKeepsNameOrder(s.rotations, m.payload.statement.value);
          }
      }
      RunsKeepNameOrder(node, t, events[1..]);
    }
  }

  // Starting from an empty vault, every run of deliveries and recoveries leaves it sound.
  lemma EveryRunFromEmpty(node: Node, events: seq<Event>)
    ensures Sound(node, Run(node, EMPTY, events)) && InNameOrder(Run(node, EMPTY, events).rotations)
  {
    EveryRunIsSound(node, EMPTY, events);
    RunsKeepNameOrder(node, EMPTY, events);
  }
}
