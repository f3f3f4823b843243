/**
 * Reconciliation: packages/federation/src/recon.ts, over the vault it reads and appends to
 * (packages/vault/src/vault.ts) and the party gate of packages/federation/src/serve.ts.
 *
 * Everything here holds for any transition table that judges an assertion only against the edge it
 * names; Transitions gives the one the node uses.
 */
module Recon {
  import opened Prelude
  import opened Replay
  import opened Transitions
  import R = Rotation

  // ---------------------------------------------------------------- parties

  type Lineage = Key -> seq<PartyKey>

  predicate IsParty(edge: Edge, key: Key) {
    edge.owner == key || edge.owedTo == key
  }

  predicate HasHeld(keys: seq<PartyKey>, key: Key) {
    exists i :: 0 <= i < |keys| && keys[i].key == key
  }

  predicate IsPartyOrSuccessor(edge: Edge, key: Key, lineage: Lineage) {
    IsParty(edge, key) || HasHeld(lineage(edge.owner), key) || HasHeld(lineage(edge.owedTo), key)
  }

  // ---------------------------------------------------------------- the vault

  // One file to a rotation statement, named by its new key; the files are read back in name order, and
  // a later statement for the same new key takes the place of an earlier one.
  function Filed(rotations: seq<R.Rotation>, r: R.Rotation): seq<R.Rotation> {
    if rotations == [] then [r]
    else if rotations[0].core.new' == r.core.new' then [r] + rotations[1..]
    else if Leq(r.core.new', rotations[0].core.new') then [r] + rotations
    else [rotations[0]] + Filed(rotations[1..], r)
  }

  class Vault {
    var edges: map<string, Edge>
    var chains: map<string, seq<Assertion>>
    var rotations: seq<R.Rotation>

    function ChainOf(id: string): seq<Assertion>
      reads this
    {
      Held(chains, id)
    }

    constructor ()
      ensures edges == map[] && chains == map[] && rotations == []
    {
      edges, chains, rotations := map[], map[], [];
    }

    // An identical body is stored again without effect; a different one is refused before it gets here.
    method PutEdge(edge: Edge)
      requires edge.edgeId in edges ==> edges[edge.edgeId] == edge
      modifies this`edges
      ensures edges == old(edges)[edge.edgeId := edge]
    {
      edges := edges[edge.edgeId := edge];
    }

    method AppendAssertion(a: Assertion)
      modifies this`chains
      ensures chains == old(chains)[a.edgeId := old(ChainOf(a.edgeId)) + [a]]
    {
      chains := chains[a.edgeId := ChainOf(a.edgeId) + [a]];
    }

    method PutRotation(rotation: R.Rotation)
      modifies this`rotations
      ensures rotations == Filed(old(rotations), rotation)
    {
      rotations := Filed(rotations, rotation);
    }
  }

  function Held(chains: map<string, seq<Assertion>>, id: string): seq<Assertion> {
    if id in chains then chains[id] else []
  }

  // ---------------------------------------------------------------- the digest of a chain

  function Sigs(chain: seq<Assertion>): seq<string> {
    if chain == [] then [] else [chain[0].sig] + Sigs(chain[1..])
  }

  // ---------------------------------------------------------------- the order assertions are judged in

  function InsertByTime(a: Assertion, sorted: seq<Assertion>): seq<Assertion> {
    if sorted == [] || a.assertedAt <= sorted[0].assertedAt then [a] + sorted
    else [sorted[0]] + InsertByTime(a, sorted[1..])
  }

  // A stable sort by instant: assertions made at one instant stay in the order they were listed.
  function InWireOrder(listed: seq<Assertion>): seq<Assertion> {
    if listed == [] then [] else InsertByTime(listed[0], InWireOrder(listed[1..]))
  }

  predicate HoldsSig(chain: seq<Assertion>, sig: string) {
    exists i :: 0 <= i < |chain| && chain[i].sig == sig
  }

  function NotHeld(local: seq<Assertion>, listed: seq<Assertion>): seq<Assertion> {
    if listed == [] then []
    else (if HoldsSig(local, listed[0].sig) then [] else [listed[0]]) + NotHeld(local, listed[1..])
  }

  function Incoming(local: seq<Assertion>, listed: seq<Assertion>): seq<Assertion> {
    InWireOrder(NotHeld(local, listed))
  }

  // ---------------------------------------------------------------- applying a response

  // A transition table for every edge, and the state a chain starts from.
  datatype Court<!S> = Court(init: S, table: Edge -> Table<S, Assertion>)

  // An assertion that names another edge is never accepted.
  ghost predicate JudgesByName<S(!new)>(court: Court<S>) {
    forall edge, s, a :: court.table(edge)(s, a).Some? ==> a.edgeId == edge.edgeId
  }

  // What an entry adds to the chain held for its edge.
  function Stored<S>(court: Court<S>, edge: Edge, local: seq<Assertion>, listed: seq<Assertion>): seq<Assertion> {
    var step := court.table(edge);
    Accepted(step, Final(step, court.init, local), Incoming(local, listed))
  }

  // Which of the incoming assertions the table accepts.
  function Judged<S>(court: Court<S>, edge: Edge, local: seq<Assertion>, listed: seq<Assertion>): (o: seq<bool>)
    ensures |o| == |Incoming(local, listed)|
  {
    var step := court.table(edge);
    Outcomes(step, Final(step, court.init, local), Incoming(local, listed))
  }

  datatype Entry = Entry(edgeId: string, assertions: seq<Assertion>)

  datatype Discarded = Discarded(edgeId: string, index: nat)

  datatype ReconResult = ReconResult(accepted: seq<Assertion>, discarded: seq<Discarded>, ignored: seq<string>)

  // An entry is read only for an edge held here that both ends are party to.
  predicate Shares(edges: map<string, Edge>, persona: Key, responder: Key, lineage: Lineage, id: string) {
    && id in edges
    && IsPartyOrSuccessor(edges[id], persona, lineage)
    && IsPartyOrSuccessor(edges[id], responder, lineage)
  }

  function ChainsAfter<S>(court: Court<S>, edges: map<string, Edge>, persona: Key, responder: Key, lineage: Lineage,
                          chains: map<string, seq<Assertion>>, entry: Entry): map<string, seq<Assertion>>
  {
    if !Shares(edges, persona, responder, lineage, entry.edgeId) then chains
    else
      var local := Held(chains, entry.edgeId);
      var stored := Stored(court, edges[entry.edgeId], local, entry.assertions);
      if stored == [] then chains else chains[entry.edgeId := local + stored]
  }

  function ChainsAfterAll<S>(court: Court<S>, edges: map<string, Edge>, persona: Key, responder: Key, lineage: Lineage,
                             chains: map<string, seq<Assertion>>, entries: seq<Entry>): map<string, seq<Assertion>>
    decreases |entries|
  {
    if entries == [] then chains
    else
      ChainsAfterAll(court, edges, persona, responder, lineage,
                     ChainsAfter(court, edges, persona, responder, lineage, chains, entries[0]), entries[1..])
  }

  // What the entries add in all, and which of their assertions are refused, each with its place in the candidate.
  function StoredByAll<S>(court: Court<S>, edges: map<string, Edge>, persona: Key, responder: Key, lineage: Lineage,
                          chains: map<string, seq<Assertion>>, entries: seq<Entry>): seq<Assertion>
    decreases |entries|
  {
    if entries == [] then []
    else
      var id := entries[0].edgeId;
      var next := ChainsAfter(court, edges, persona, responder, lineage, chains, entries[0]);
      (if Shares(edges, persona, responder, lineage, id)
       then Stored(court, edges[id], Held(chains, id), entries[0].assertions) else []) +
      StoredByAll(court, edges, persona, responder, lineage, next, entries[1..])
  }

  function Discards(id: string, index: nat, outcomes: seq<bool>): seq<Discarded>
    decreases |outcomes|
  {
    if outcomes == [] then []
    else (if outcomes[0] then [] else [Discarded(id, index)]) + Discards(id, index + 1, outcomes[1..])
  }

  function DiscardedByAll<S>(court: Court<S>, edges: map<string, Edge>, persona: Key, responder: Key, lineage: Lineage,
                           chains: map<string, seq<Assertion>>, entries: seq<Entry>): seq<Discarded>
    decreases |entries|
  {
    if entries == [] then []
    else
      var id := entries[0].edgeId;
      var next := ChainsAfter(court, edges, persona, responder, lineage, chains, entries[0]);
      (if Shares(edges, persona, responder, lineage, id)
       then Discards(id, |Held(chains, id)|, Judged(court, edges[id], Held(chains, id), entries[0].assertions))
       else []) +
      DiscardedByAll(court, edges, persona, responder, lineage, next, entries[1..])
  }

  lemma DiscardsOn(id: string, index: nat, outcomes: seq<bool>, done: seq<Discarded>)
    requires outcomes != []
    ensures done + Discards(id, index, outcomes) ==
            (if outcomes[0] then done else done + [Discarded(id, index)]) + Discards(id, index + 1, outcomes[1..])
  {
  }

  // Exactly the assertions the table rejects are refused, each at its place.
  lemma {:induction false} DiscardsAreExact(id: string, index: nat, outcomes: seq<bool>, d: Discarded)
    ensures d in Discards(id, index, outcomes) <==>
            d.edgeId == id && index <= d.index < index + |outcomes| && !outcomes[d.index - index]
    decreases |outcomes|
  {
    if outcomes != [] {
      DiscardsAreExact(id, index + 1, outcomes[1..], d);
    }
  }

  // What is done and what is left of a response, from here on.
  ghost predicate Applying<S(!new)>(court: Court<S>, edges: map<string, Edge>, persona: Key, responder: Key,
                                    lineage: Lineage, chains: map<string, seq<Assertion>>, left: seq<Entry>,
                                    result: ReconResult, target: map<string, seq<Assertion>>,
                                    stored: seq<Assertion>, refused: seq<Discarded>)
  {
    && ChainsAfterAll(court, edges, persona, responder, lineage, chains, left) == target
    && result.accepted + StoredByAll(court, edges, persona, responder, lineage, chains, left) == stored
    && result.discarded + DiscardedByAll(court, edges, persona, responder, lineage, chains, left) == refused
  }

  lemma AppliesOn<S(!new)>(court: Court<S>, edges: map<string, Edge>, persona: Key, responder: Key, lineage: Lineage,
                           chains: map<string, seq<Assertion>>, left: seq<Entry>, result: ReconResult,
                           target: map<string, seq<Assertion>>, stored: seq<Assertion>, refused: seq<Discarded>,
                           accepted: seq<Assertion>, discarded: seq<Discarded>, next: map<string, seq<Assertion>>)
    requires left != []
    requires Applying(court, edges, persona, responder, lineage, chains, left, result, target, stored, refused)
    requires next == ChainsAfter(court, edges, persona, responder, lineage, chains, left[0])
    requires var id := left[0].edgeId;
      if Shares(edges, persona, responder, lineage, id) then
        && accepted == Stored(court, edges[id], Held(chains, id), left[0].assertions)
        && discarded == Discards(id, |Held(chains, id)|, Judged(court, edges[id], Held(chains, id), left[0].assertions))
      else accepted == [] && discarded == []
    ensures Applying(court, edges, persona, responder, lineage, next, left[1..],
                     ReconResult(result.accepted + accepted, result.discarded + discarded, result.ignored), target,
                     stored, refused)
  {
    var more := StoredByAll(court, edges, persona, responder, lineage, next, left[1..]);
    assert result.accepted + (accepted + more) == result.accepted + accepted + more;
    var rest := DiscardedByAll(court, edges, persona, responder, lineage, next, left[1..]);
    assert result.discarded + (discarded + rest) == result.discarded + discarded + rest;
  }

  method ApplyReconResponse<S(!new)>(vault: Vault, court: Court<S>, persona: Key, responder: Key, lineage: Lineage,
                                     entries: seq<Entry>) returns (result: ReconResult)
    requires JudgesByName(court)
    requires forall id :: id in vault.edges ==> vault.edges[id].edgeId == id
    modifies vault`chains
    ensures vault.chains ==
            ChainsAfterAll(court, vault.edges, persona, responder, lineage, old(vault.chains), entries)
    ensures result.accepted ==
            StoredByAll(court, vault.edges, persona, responder, lineage, old(vault.chains), entries)
    ensures result.discarded ==
            DiscardedByAll(court, vault.edges, persona, responder, lineage, old(vault.chains), entries)
    ensures forall id :: id in result.ignored <==>
              exists i :: 0 <= i < |entries| && entries[i].edgeId == id &&
                !Shares(vault.edges, persona, responder, lineage, id)
  {
    result := ReconResult([], [], []);
    ghost var target := ChainsAfterAll(court, vault.edges, persona, responder, lineage, vault.chains, entries);
    ghost var stored := StoredByAll(court, vault.edges, persona, responder, lineage, vault.chains, entries);
    ghost var refused := DiscardedByAll(court, vault.edges, persona, responder, lineage, vault.chains, entries);
    assert entries[0..] == entries;
    for i := 0 to |entries|
      invariant Applying(court, vault.edges, persona, responder, lineage, vault.chains, entries[i..], result, target,
                         stored, refused)
      invariant forall id :: id in result.ignored <==>
                  exists j :: 0 <= j < i && entries[j].edgeId == id &&
                    !Shares(vault.edges, persona, responder, lineage, id)
    {
      assert entries[i..][0] == entries[i] && entries[i..][1..] == entries[i + 1..];
      ghost var before, had := vault.chains, result;
      var shared, accepted, discarded := ApplyOne(vault, court, persona, responder, lineage, entries[i]);
      result := ReconResult(result.accepted + accepted, result.discarded + discarded,
                            if shared then result.ignored else result.ignored + [entries[i].edgeId]);
      AppliesOn(court, vault.edges, persona, responder, lineage, before, entries[i..], had, target, stored, refused,
                accepted, discarded, vault.chains);
    }
  }

  // One entry of a response: nothing is read of an edge that is not shared.
  method ApplyOne<S(!new)>(vault: Vault, court: Court<S>, persona: Key, responder: Key, lineage: Lineage, entry: Entry)
    returns (shared: bool, accepted: seq<Assertion>, discarded: seq<Discarded>)
    requires JudgesByName(court)
    requires forall id :: id in vault.edges ==> vault.edges[id].edgeId == id
    modifies vault`chains
    ensures shared == Shares(vault.edges, persona, responder, lineage, entry.edgeId)
    ensures vault.chains == ChainsAfter(court, vault.edges, persona, responder, lineage, old(vault.chains), entry)
    ensures !shared ==> accepted == [] && discarded == []
    ensures shared ==>
              var edge, local := vault.edges[entry.edgeId], Held(old(vault.chains), entry.edgeId);
              && accepted == Stored(court, edge, local, entry.assertions)
              && discarded == Discards(entry.edgeId, |local|, Judged(court, edge, local, entry.assertions))
  {
    if !Shares(vault.edges, persona, responder, lineage, entry.edgeId) {
      return false, [], [];
    }
    accepted, discarded := ApplyEntry(vault, court, vault.edges[entry.edgeId], entry.assertions);
    shared := true;
  }

  lemma AppendedIs(before: map<string, seq<Assertion>>, id: string, local: seq<Assertion>, accepted: seq<Assertion>,
                   a: Assertion, chains: map<string, seq<Assertion>>)
    requires local == Held(before, id) && chains == if accepted == [] then before else before[id := local + accepted]
    ensures chains[id := Held(chains, id) + [a]] == before[id := local + (accepted + [a])]
  {
    assert Held(chains, id) == local + accepted by {
      assert accepted == [] ==> local + accepted == local;
    }
    assert (local + accepted) + [a] == local + (accepted + [a]);
  }

  method ApplyEntry<S(!new)>(vault: Vault, court: Court<S>, edge: Edge, listed: seq<Assertion>)
    returns (accepted: seq<Assertion>, discarded: seq<Discarded>)
    requires JudgesByName(court)
    modifies vault`chains
    ensures var local := Held(old(vault.chains), edge.edgeId);
      && accepted == Stored(court, edge, local, listed)
      && discarded == Discards(edge.edgeId, |local|, Judged(court, edge, local, listed))
      && vault.chains == if accepted == [] then old(vault.chains)
                         else old(vault.chains)[edge.edgeId := local + accepted]
  {
    var local := vault.ChainOf(edge.edgeId);
    var incoming := Incoming(local, listed);
    var step := court.table(edge);
    var state := Final(step, court.init, local);
    accepted, discarded := [], [];
    ghost var before := vault.chains;
    ghost var outcomes := Judged(court, edge, local, listed);
    ghost var left, verdicts := Stored(court, edge, local, listed), outcomes;
    assert incoming[0..] == incoming;
    for i := 0 to |incoming|
      invariant left == Accepted(step, state, incoming[i..]) && accepted + left == Stored(court, edge, local, listed)
      invariant verdicts == Outcomes(step, state, incoming[i..]) && verdicts == outcomes[i..]
      invariant discarded + Discards(edge.edgeId, |local| + i, verdicts) == Discards(edge.edgeId, |local|, outcomes)
      invariant vault.chains == if accepted == [] then before else before[edge.edgeId := local + accepted]
    {
      var a := incoming[i];
      ReplayFrom(step, state, incoming, i);
      assert verdicts[0] == outcomes[i] && verdicts[1..] == outcomes[i + 1..];
      ghost var rest := Accepted(step, Next(step, state, a), incoming[i + 1..]);
      var outcome := step(state, a);
      assert left == (if outcome.Some? then [a] else []) + rest;
      assert outcome.Some? ==> accepted + left == (accepted + [a]) + rest;
      assert outcome.None? ==> left == rest;
      DiscardsOn(edge.edgeId, |local| + i, verdicts, discarded);
      left, verdicts := rest, verdicts[1..];
      assert outcome.Some? ==> a.edgeId == edge.edgeId;
      if outcome.Some? {
        AppendedIs(before, edge.edgeId, local, accepted, a, vault.chains);
        vault.AppendAssertion(a);
        accepted := accepted + [a];
      } else {
        discarded := discarded + [Discarded(edge.edgeId, |local| + i)];
      }
      state := Next(step, state, a);
    }
    assert left == [];
  }

  // ---------------------------------------------------------------- answering a request

  // Strings ordered by their characters, as a default sort orders them.
  predicate Leq(a: string, b: string) {
    a == "" || (b != "" && (a[0] < b[0] || (a[0] == b[0] && Leq(a[1..], b[1..]))))
  }

  function InsertString(x: string, sorted: seq<string>): seq<string> {
    if sorted == [] || Leq(x, sorted[0]) then [x] + sorted else [sorted[0]] + InsertString(x, sorted[1..])
  }

  function SortStrings(s: seq<string>): seq<string> {
    if s == [] then [] else InsertString(s[0], SortStrings(s[1..]))
  }

  type ChainDigest = seq<string> -> string

  // The canonical hash is injective, and no digest is the all-zero hash an empty chain is given.
  ghost predicate FaithfulDigest(digest: ChainDigest, empty: string) {
    && (forall x, y :: digest(x) == digest(y) ==> x == y)
    && (forall x :: digest(x) != empty)
  }

  function LatestAssertionHash(digest: ChainDigest, empty: string, chain: seq<Assertion>): string {
    if chain == [] then empty else digest(SortStrings(Sigs(chain)))
  }

  datatype EdgeRef = EdgeRef(edgeId: string, latestHash: string)

  // Going by its own chain the edge is still in one of these states.
  predicate StillLive<S>(asking: Court<S>, live: S -> bool, edge: Edge, chain: seq<Assertion>) {
    live(Final(asking.table(edge), asking.init, chain))
  }

  predicate AsksAbout<S>(asking: Court<S>, live: S -> bool, edges: map<string, Edge>,
                         chains: map<string, seq<Assertion>>, persona: Key, counterparty: Key, lineage: Lineage,
                         id: string)
  {
    Shares(edges, persona, counterparty, lineage, id) && StillLive(asking, live, edges[id], Held(chains, id))
  }

  // A node asks about the edges it shares with the counterparty and takes to be open, and about no others.
  method SharedOpenEdges<S>(vault: Vault, ids: seq<string>, persona: Key, counterparty: Key, lineage: Lineage,
                            asking: Court<S>, live: S -> bool) returns (shared: seq<Edge>)
    ensures forall edge :: edge in shared <==>
              exists i :: 0 <= i < |ids| && ids[i] in vault.edges && edge == vault.edges[ids[i]] &&
                AsksAbout(asking, live, vault.edges, vault.chains, persona, counterparty, lineage, ids[i])
  {
    shared := [];
    for i := 0 to |ids|
      invariant forall edge :: edge in shared <==>
        exists j :: 0 <= j < i && ids[j] in vault.edges && edge == vault.edges[ids[j]] &&
          AsksAbout(asking, live, vault.edges, vault.chains, persona, counterparty, lineage, ids[j])
    {
      var id := ids[i];
      if !Shares(vault.edges, persona, counterparty, lineage, id) {
        continue;
      }
      var edge := vault.edges[id];
      if StillLive(asking, live, edge, vault.ChainOf(id)) {
        shared := shared + [edge];
      }
    }
  }

  method BuildReconRequest<S>(vault: Vault, ids: seq<string>, persona: Key, counterparty: Key, lineage: Lineage,
                              asking: Court<S>, live: S -> bool, digest: ChainDigest, empty: string)
    returns (refs: seq<EdgeRef>)
    requires forall id :: id in vault.edges ==> vault.edges[id].edgeId == id
    ensures forall r :: r in refs <==>
              r.edgeId in ids &&
              AsksAbout(asking, live, vault.edges, vault.chains, persona, counterparty, lineage, r.edgeId) &&
              r.latestHash == LatestAssertionHash(digest, empty, vault.ChainOf(r.edgeId))
  {
    var shared := SharedOpenEdges(vault, ids, persona, counterparty, lineage, asking, live);
    refs := [];
    for i := 0 to |shared|
      invariant forall r :: r in refs <==>
        exists j :: 0 <= j < i && r == RefTo(digest, empty, vault.chains, shared[j])
    {
      refs := refs + [RefTo(digest, empty, vault.chains, shared[i])];
    }
    RefsAreAsked(vault.edges, vault.chains, ids, persona, counterparty, lineage, asking, live, digest, empty,
                 shared, refs);
  }

  function RefTo(digest: ChainDigest, empty: string, chains: map<string, seq<Assertion>>, edge: Edge): EdgeRef {
    EdgeRef(edge.edgeId, LatestAssertionHash(digest, empty, Held(chains, edge.edgeId)))
  }

  lemma RefsAreAsked<S>(edges: map<string, Edge>, chains: map<string, seq<Assertion>>, ids: seq<string>, persona: Key,
                        counterparty: Key, lineage: Lineage, asking: Court<S>, live: S -> bool,
                        digest: ChainDigest, empty: string, shared: seq<Edge>, refs: seq<EdgeRef>)
    requires forall id :: id in edges ==> edges[id].edgeId == id
    requires forall edge :: edge in shared <==>
               exists i :: 0 <= i < |ids| && ids[i] in edges && edge == edges[ids[i]] &&
                 AsksAbout(asking, live, edges, chains, persona, counterparty, lineage, ids[i])
    requires forall r :: r in refs <==> exists j :: 0 <= j < |shared| && r == RefTo(digest, empty, chains, shared[j])
    ensures forall r :: r in refs <==>
              r.edgeId in ids && AsksAbout(asking, live, edges, chains, persona, counterparty, lineage, r.edgeId) &&
              r.latestHash == LatestAssertionHash(digest, empty, Held(chains, r.edgeId))
  {
    forall r
      ensures r in refs <==>
              r.edgeId in ids && AsksAbout(asking, live, edges, chains, persona, counterparty, lineage, r.edgeId) &&
              r.latestHash == LatestAssertionHash(digest, empty, Held(chains, r.edgeId))
    {
      if r in refs {
        var j :| 0 <= j < |shared| && r == RefTo(digest, empty, chains, shared[j]);
        assert shared[j] in shared;
      } else if r.edgeId in ids && AsksAbout(asking, live, edges, chains, persona, counterparty, lineage, r.edgeId) {
        var edge := edges[r.edgeId];
        var i :| 0 <= i < |ids| && ids[i] == r.edgeId;
        assert edge in shared;
        var j :| 0 <= j < |shared| && shared[j] == edge;
        assert RefTo(digest, empty, chains, shared[j]) in refs;
      }
    }
  }

  // Divergent chains are answered in full, convergent ones not at all.
  method AnswerReconRequest(vault: Vault, mayServe: Edge -> bool, digest: ChainDigest, empty: string,
                            refs: seq<EdgeRef>) returns (entries: seq<Entry>)
    ensures forall e :: e in entries <==>
              exists i :: 0 <= i < |refs| && e == Entry(refs[i].edgeId, vault.ChainOf(refs[i].edgeId)) &&
                Diverges(vault.edges, vault.chains, mayServe, digest, empty, refs[i])
  {
    entries := [];
    for i := 0 to |refs|
      invariant forall e :: e in entries <==>
        exists j :: 0 <= j < i && e == Entry(refs[j].edgeId, vault.ChainOf(refs[j].edgeId)) &&
          Diverges(vault.edges, vault.chains, mayServe, digest, empty, refs[j])
    {
      var r := refs[i];
      if r.edgeId !in vault.edges {
        continue;
      }
      if !mayServe(vault.edges[r.edgeId]) {
        continue;
      }
      var chain := vault.ChainOf(r.edgeId);
      if LatestAssertionHash(digest, empty, chain) == r.latestHash {
        continue;
      }
      entries := entries + [Entry(r.edgeId, chain)];
    }
  }

  predicate Diverges(edges: map<string, Edge>, chains: map<string, seq<Assertion>>, mayServe: Edge -> bool,
                     digest: ChainDigest, empty: string, r: EdgeRef)
  {
    && r.edgeId in edges && mayServe(edges[r.edgeId])
    && LatestAssertionHash(digest, empty, Held(chains, r.edgeId)) != r.latestHash
  }
}
