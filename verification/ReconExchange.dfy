/**
 * Two nodes that hold one edge reconcile: each sends the hash of its chain while it takes the edge to be
 * open, answers the other's with its own chain when the hashes differ, and applies what it hears. Each may
 * judge by a table of its own.
 */
module ReconExchange {
  import opened Prelude
  import opened Replay
  import opened Transitions
  import opened Recon
  import opened ReconConvergence

  // The hash compared, and the one an empty chain is given.
  datatype Hashing = Hashing(digest: ChainDigest, empty: string)

  function HashOf(h: Hashing, chain: seq<Assertion>): string {
    LatestAssertionHash(h.digest, h.empty, chain)
  }

  // What a node that holds `held` lists for one that says its hash is `theirs`.
  function Answer(h: Hashing, held: seq<Assertion>, theirs: string): seq<Assertion> {
    if HashOf(h, held) == theirs then [] else held
  }

  // One of two nodes: how it judges what it hears, how it judges its own chain when it decides whether to
  // ask, in which states it asks, whether both are party to the edge going by its statements, and whether
  // it would serve the edge to the other.
  datatype Side<!S> = Side(court: Court<S>, asking: Court<S>, live: S -> bool, shares: bool, serves: bool)

  // A node asks only about an edge that its own chain still leaves open.
  predicate Asks<S>(side: Side<S>, edge: Edge, chain: seq<Assertion>) {
    side.shares && StillLive(side.asking, side.live, edge, chain)
  }

  // That is whether its request names the edge.
  lemma AsksIsAsksAbout<S>(side: Side<S>, edges: map<string, Edge>, chains: map<string, seq<Assertion>>, persona: Key,
                           counterparty: Key, lineage: Lineage, id: string)
    requires id in edges && side.shares == Shares(edges, persona, counterparty, lineage, id)
    ensures Asks(side, edges[id], Held(chains, id)) <==>
            AsksAbout(side.asking, side.live, edges, chains, persona, counterparty, lineage, id)
  {
  }

  predicate Hears<S, T>(one: Side<S>, two: Side<T>, edge: Edge, local: seq<Assertion>) {
    Asks(one, edge, local) && two.serves
  }

  // What a node that holds `local` learns from one that holds `remote`, and the chain it then holds.
  function Learned<S, T>(one: Side<S>, two: Side<T>, edge: Edge, h: Hashing,
                         local: seq<Assertion>, remote: seq<Assertion>): seq<Assertion>
  {
    if Hears(one, two, edge, local) then Stored(one.court, edge, local, Answer(h, remote, HashOf(h, local))) else []
  }

  function Exchanged<S, T>(one: Side<S>, two: Side<T>, edge: Edge, h: Hashing,
                           local: seq<Assertion>, remote: seq<Assertion>): seq<Assertion>
  {
    local + Learned(one, two, edge, h, local, remote)
  }

  // Every assertion of the other side's chain not held here is accepted here.
  ghost predicate TakesAll<S>(court: Court<S>, edge: Edge, local: seq<Assertion>, remote: seq<Assertion>) {
    AllOf(Judged(court, edge, local, remote))
  }

  // A node comes to hold all the other side holds: there is nothing it lacks, or it asks, is served, and
  // its table refuses nothing.
  ghost predicate Catches<S, T>(one: Side<S>, two: Side<T>, edge: Edge, local: seq<Assertion>, remote: seq<Assertion>) {
    NotHeld(local, remote) == [] || (Hears(one, two, edge, local) && TakesAll(one.court, edge, local, remote))
  }

  predicate AllOf(outcomes: seq<bool>) {
    forall i :: 0 <= i < |outcomes| ==> outcomes[i]
  }

  // ---------------------------------------------------------------- signatures

  lemma {:induction false} SigsOfConcat(x: seq<Assertion>, y: seq<Assertion>)
    ensures Sigs(x + y) == Sigs(x) + Sigs(y)
  {
    if x == [] {
      assert x + y == y;
    } else {
      assert (x + y)[1..] == x[1..] + y;
      SigsOfConcat(x[1..], y);
    }
  }

  lemma {:induction false} HoldsIff(chain: seq<Assertion>, sig: string)
    ensures HoldsSig(chain, sig) <==> sig in multiset(Sigs(chain))
  {
    if chain != [] {
      HoldsIff(chain[1..], sig);
      assert HoldsSig(chain[1..], sig) ==> HoldsSig(chain, sig) by {
        if HoldsSig(chain[1..], sig) {
          var i :| 0 <= i < |chain[1..]| && chain[1..][i].sig == sig;
          assert chain[i + 1].sig == sig;
        }
      }
      assert HoldsSig(chain, sig) ==> chain[0].sig == sig || HoldsSig(chain[1..], sig) by {
        if HoldsSig(chain, sig) {
          var i :| 0 <= i < |chain| && chain[i].sig == sig;
          assert i > 0 ==> chain[1..][i - 1].sig == sig;
        }
      }
    }
  }

  lemma {:induction false} DistinctIsOnce(s: seq<string>, t: string)
    requires Distinct(s)
    ensures multiset(s)[t] <= 1
  {
    if s != [] {
      assert s == [s[0]] + s[1..];
      DistinctIsOnce(s[1..], t);
      if t in s[1..] {
        var k :| 0 <= k < |s[1..]| && s[1..][k] == t;
        assert s[k + 1] == t;
      }
    }
  }

  lemma {:induction false} NotHeldSigs(local: seq<Assertion>, listed: seq<Assertion>, sig: string)
    ensures multiset(Sigs(NotHeld(local, listed)))[sig] ==
            if HoldsSig(local, sig) then 0 else multiset(Sigs(listed))[sig]
  {
    if listed != [] {
      NotHeldSigs(local, listed[1..], sig);
      var rest := NotHeld(local, listed[1..]);
      if !HoldsSig(local, listed[0].sig) {
        SigsOfConcat([listed[0]], rest);
      } else {
        assert [] + rest == rest;
      }
    }
  }

  lemma {:induction false} InsertByTimeSigs(a: Assertion, sorted: seq<Assertion>)
    ensures multiset(Sigs(InsertByTime(a, sorted))) == multiset{a.sig} + multiset(Sigs(sorted))
  {
    if sorted != [] && a.assertedAt > sorted[0].assertedAt {
      InsertByTimeSigs(a, sorted[1..]);
      SigsOfConcat([sorted[0]], InsertByTime(a, sorted[1..]));
    } else {
      SigsOfConcat([a], sorted);
    }
  }

  lemma {:induction false} WireOrderSigs(listed: seq<Assertion>)
    ensures multiset(Sigs(InWireOrder(listed))) == multiset(Sigs(listed))
  {
    if listed != [] {
      WireOrderSigs(listed[1..]);
      InsertByTimeSigs(listed[0], InWireOrder(listed[1..]));
    }
  }

  // ---------------------------------------------------------------- what is accepted

  // What is accepted is among what was judged, and is all of it exactly when nothing was refused.
  ghost predicate Among(taken: multiset<string>, offered: multiset<string>, outcomes: seq<bool>) {
    taken <= offered && (taken == offered <==> AllOf(outcomes))
  }

  lemma AmongOneMore(taken: multiset<string>, offered: multiset<string>, outcomes: seq<bool>, sig: string, first: bool)
    requires Among(taken, offered, outcomes)
    ensures Among(if first then multiset{sig} + taken else taken, multiset{sig} + offered, [first] + outcomes)
  {
    var all := [first] + outcomes;
    assert all[0] == first && forall i :: 0 <= i < |outcomes| ==> all[i + 1] == outcomes[i];
    assert forall i :: 0 < i < |all| ==> all[i] == outcomes[i - 1];
    if first {
      assert taken == (multiset{sig} + taken) - multiset{sig};
      assert offered == (multiset{sig} + offered) - multiset{sig};
    } else {
      assert taken[sig] < (multiset{sig} + offered)[sig];
    }
  }

  lemma {:induction false} AcceptedIsAmong<S>(step: Table<S, Assertion>, s: S, chain: seq<Assertion>)
    ensures Among(multiset(Sigs(Accepted(step, s, chain))), multiset(Sigs(chain)), Outcomes(step, s, chain))
    decreases |chain|
  {
    if chain != [] {
      var first, t, rest := step(s, chain[0]).Some?, Next(step, s, chain[0]), chain[1..];
      var taken := Accepted(step, t, rest);
      AcceptedIsAmong(step, t, rest);
      AmongOneMore(multiset(Sigs(taken)), multiset(Sigs(rest)), Outcomes(step, t, rest), chain[0].sig, first);
      assert ([chain[0]] + taken)[1..] == taken;
    }
  }

  // What is stored is among what was not held, and is all of it exactly when the table takes it all.
  lemma StoredSigs<S>(court: Court<S>, edge: Edge, local: seq<Assertion>, listed: seq<Assertion>)
    ensures var stored := multiset(Sigs(Stored(court, edge, local, listed)));
      var offered := multiset(Sigs(NotHeld(local, listed)));
      stored <= offered && (stored == offered <==> TakesAll(court, edge, local, listed))
  {
    AcceptedIsAmong(court.table(edge), Final(court.table(edge), court.init, local), Incoming(local, listed));
    WireOrderSigs(NotHeld(local, listed));
  }

  // ---------------------------------------------------------------- the exchange

  // Staying silent when the hashes agree leaves nothing unsaid.
  lemma AnswerLosesNothing<S, T>(one: Side<S>, two: Side<T>, edge: Edge, h: Hashing,
                                 local: seq<Assertion>, remote: seq<Assertion>)
    requires FaithfulDigest(h.digest, h.empty)
    ensures Learned(one, two, edge, h, local, remote) ==
            if Hears(one, two, edge, local) then Stored(one.court, edge, local, remote) else []
  {
    if HashOf(h, remote) == HashOf(h, local) {
      SameHashIffSameSigs(h.digest, h.empty, remote, local);
      NothingNotHeld(local, remote);
      NothingNewNothingStored(one.court, edge, local, remote);
      NothingNewNothingStored(one.court, edge, local, []);
    }
  }

  lemma NothingNotHeld(local: seq<Assertion>, remote: seq<Assertion>)
    requires forall sig :: sig in multiset(Sigs(remote)) ==> sig in multiset(Sigs(local))
    ensures NotHeld(local, remote) == []
  {
    var left := NotHeld(local, remote);
    if left != [] {
      var sig := left[0].sig;
      assert sig in multiset(Sigs(left));
      NotHeldSigs(local, remote, sig);
      HoldsIff(local, sig);
    }
  }

  // What is learned is among what was not held, and is all of it exactly when the node catches up.
  lemma LearnedSigs<S, T>(one: Side<S>, two: Side<T>, edge: Edge, h: Hashing,
                          local: seq<Assertion>, remote: seq<Assertion>)
    requires FaithfulDigest(h.digest, h.empty)
    ensures var learned := multiset(Sigs(Learned(one, two, edge, h, local, remote)));
      var offered := multiset(Sigs(NotHeld(local, remote)));
      learned <= offered && (learned == offered <==> Catches(one, two, edge, local, remote))
  {
    AnswerLosesNothing(one, two, edge, h, local, remote);
    StoredSigs(one.court, edge, local, remote);
    NoSigsIff(NotHeld(local, remote));
    NoSigsIff([]);
  }

  lemma NoSigsIff(chain: seq<Assertion>)
    ensures multiset(Sigs(chain)) == multiset{} <==> chain == []
  {
    assert chain != [] ==> chain[0].sig in multiset(Sigs(chain));
  }

  // Two nodes ask each other once, each if it does ask. Their hashes are then equal if and only if each
  // lacked nothing, or asked, was served, and refused nothing the other side held.
  lemma ExchangeConvergesIff<S, T>(one: Side<S>, two: Side<T>, edge: Edge, h: Hashing,
                                   x: seq<Assertion>, y: seq<Assertion>)
    requires FaithfulDigest(h.digest, h.empty) && Distinct(Sigs(x)) && Distinct(Sigs(y))
    ensures HashOf(h, Exchanged(one, two, edge, h, x, y)) == HashOf(h, Exchanged(two, one, edge, h, y, x))
            <==> Catches(one, two, edge, x, y) && Catches(two, one, edge, y, x)
  {
    var xs, ys := Learned(one, two, edge, h, x, y), Learned(two, one, edge, h, y, x);
    SameHashIffSameSigs(h.digest, h.empty, x + xs, y + ys);
    SigsOfConcat(x, xs);
    SigsOfConcat(y, ys);
    LearnedSigs(one, two, edge, h, x, y);
    LearnedSigs(two, one, edge, h, y, x);
    forall sig
      ensures multiset(Sigs(NotHeld(x, y)))[sig] == Missing(x, y, sig)
      ensures multiset(Sigs(NotHeld(y, x)))[sig] == Missing(y, x, sig)
      ensures multiset(Sigs(x))[sig] <= 1 && multiset(Sigs(y))[sig] <= 1
    {
      NotHeldSigs(x, y, sig);
      NotHeldSigs(y, x, sig);
      HoldsIff(x, sig);
      HoldsIff(y, sig);
      DistinctIsOnce(Sigs(x), sig);
      DistinctIsOnce(Sigs(y), sig);
    }
    MeetIff(multiset(Sigs(x)), multiset(Sigs(y)), multiset(Sigs(xs)), multiset(Sigs(ys)),
            multiset(Sigs(NotHeld(x, y))), multiset(Sigs(NotHeld(y, x))));
  }

  // How often y lists a signature x does not hold.
  ghost function Missing(x: seq<Assertion>, y: seq<Assertion>, sig: string): nat {
    if multiset(Sigs(x))[sig] == 0 then multiset(Sigs(y))[sig] else 0
  }

  // Two sets that each gain some of what only the other has are the same exactly when each gains all.
  lemma MeetIff(a: multiset<string>, b: multiset<string>, c: multiset<string>, d: multiset<string>,
                onlyB: multiset<string>, onlyA: multiset<string>)
    requires forall s :: a[s] <= 1 && b[s] <= 1
    requires forall s :: onlyB[s] == (if a[s] == 0 then b[s] else 0) && onlyA[s] == (if b[s] == 0 then a[s] else 0)
    requires c <= onlyB && d <= onlyA
    ensures a + c == b + d <==> c == onlyB && d == onlyA
  {
    if a + c == b + d {
      forall s
        ensures c[s] == onlyB[s] && d[s] == onlyA[s]
      {
        assert (a + c)[s] == (b + d)[s];
      }
    } else {
      assert a + onlyB == b + onlyA;
    }
  }

  lemma CountsTwice(s: seq<string>, i: nat, j: nat)
    requires i < j < |s|
    ensures s[i] == s[j] ==> multiset(s)[s[i]] >= 2
  {
    assert s == s[..i] + [s[i]] + s[i + 1..j] + [s[j]] + s[j + 1..];
  }

  lemma OnceIsDistinct(s: seq<string>)
    requires forall t :: multiset(s)[t] <= 1
    ensures Distinct(s)
  {
    forall i, j | 0 <= i < j < |s|
      ensures s[i] != s[j]
    {
      CountsTwice(s, i, j);
    }
  }

  // A signature held once is still held once, so what holds of one exchange holds of the next.
  lemma ExchangeKeepsDistinct<S, T>(one: Side<S>, two: Side<T>, edge: Edge, h: Hashing,
                                    x: seq<Assertion>, y: seq<Assertion>)
    requires FaithfulDigest(h.digest, h.empty) && Distinct(Sigs(x)) && Distinct(Sigs(y))
    ensures Distinct(Sigs(Exchanged(one, two, edge, h, x, y)))
  {
    var xs := Learned(one, two, edge, h, x, y);
    SigsOfConcat(x, xs);
    LearnedSigs(one, two, edge, h, x, y);
    var a, c, offered := multiset(Sigs(x)), multiset(Sigs(xs)), multiset(Sigs(NotHeld(x, y)));
    assert multiset(Sigs(x) + Sigs(xs)) == a + c;
    forall sig
      ensures (a + c)[sig] <= 1
    {
      NotHeldSigs(x, y, sig);
      HoldsIff(x, sig);
      DistinctIsOnce(Sigs(x), sig);
      DistinctIsOnce(Sigs(y), sig);
      assert c[sig] <= offered[sig];
    }
    OnceIsDistinct(Sigs(x) + Sigs(xs));
  }

  // Asking after the other side has already asked makes no difference.
  lemma TurnsDoNotMatter<S, T>(one: Side<S>, two: Side<T>, edge: Edge, h: Hashing,
                               x: seq<Assertion>, y: seq<Assertion>)
    requires FaithfulDigest(h.digest, h.empty)
    ensures Exchanged(two, one, edge, h, y, Exchanged(one, two, edge, h, x, y)) == Exchanged(two, one, edge, h, y, x)
  {
    var xs := Learned(one, two, edge, h, x, y);
    AnswerLosesNothing(two, one, edge, h, y, x);
    AnswerLosesNothing(two, one, edge, h, y, x + xs);
    LearnedIsHeldThere(one, two, edge, h, x, y);
    NotHeldOfConcat(y, x, xs);
    NothingNotHeld(y, xs);
    assert NotHeld(y, x + xs) == NotHeld(y, x);
  }

  lemma {:induction false} NotHeldOfConcat(local: seq<Assertion>, x: seq<Assertion>, y: seq<Assertion>)
    ensures NotHeld(local, x + y) == NotHeld(local, x) + NotHeld(local, y)
  {
    if x == [] {
      assert x + y == y;
    } else {
      assert (x + y)[1..] == x[1..] + y;
      NotHeldOfConcat(local, x[1..], y);
    }
  }

  lemma LearnedIsHeldThere<S, T>(one: Side<S>, two: Side<T>, edge: Edge, h: Hashing,
                                 local: seq<Assertion>, remote: seq<Assertion>)
    requires FaithfulDigest(h.digest, h.empty)
    ensures forall sig :: sig in multiset(Sigs(Learned(one, two, edge, h, local, remote))) ==>
              sig in multiset(Sigs(remote))
  {
    LearnedSigs(one, two, edge, h, local, remote);
    forall sig | sig in multiset(Sigs(Learned(one, two, edge, h, local, remote)))
      ensures sig in multiset(Sigs(remote))
    {
      NotHeldSigs(local, remote, sig);
    }
  }
}
