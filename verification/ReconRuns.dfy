/**
 * Reconciliation over time: two nodes that hold one edge ask, answer, apply and act in any order, with
 * requests and answers on their way for as long as they like and heard as often as they like.
 */
module ReconRuns {
  import opened Prelude
  import opened Replay
  import opened Transitions
  import opened Recon
  import opened ReconConvergence
  import opened ReconExchange

  // ---------------------------------------------------------------- the protocol

  // One end: its chain, the hashes it has asked with, and the answers it may hear.
  datatype End = End(chain: seq<Assertion>, asked: set<string>, answers: set<seq<Assertion>>)

  datatype Link = Link(one: End, two: End)

  datatype Who = One | Two

  // A node asks, applies an answer and acts by the table it has at that time: it may have learned of a
  // rotation since, and its clock has moved on.
  datatype Event<!S> =
    | Ask(who: Who, asking: Court<S>)
    | Answer(who: Who, theirs: string)
    | Apply(who: Who, court: Court<S>, listed: seq<Assertion>)
    | Act(who: Who, court: Court<S>, a: Assertion)

  datatype Pair<!S> = Pair(one: Side<S>, two: Side<S>, edge: Edge, h: Hashing)

  function Other(who: Who): Who {
    if who.One? then Two else One
  }

  function SideOf<S>(p: Pair<S>, who: Who): Side<S> {
    if who.One? then p.one else p.two
  }

  function EndOf(l: Link, who: Who): End {
    if who.One? then l.one else l.two
  }

  function WithEnd(l: Link, who: Who, end: End): Link {
    if who.One? then l.(one := end) else l.(two := end)
  }

  function AfterEvent<S>(p: Pair<S>, l: Link, e: Event<S>): Link {
    var me, them := EndOf(l, e.who), EndOf(l, Other(e.who));
    match e
    case Ask(who, asking) =>
      if SideOf(p, who).shares && StillLive(asking, SideOf(p, who).live, p.edge, me.chain) then
        WithEnd(l, who, me.(asked := me.asked + {HashOf(p.h, me.chain)}))
      else l
    case Answer(who, theirs) =>
      if theirs in them.asked && SideOf(p, who).serves && HashOf(p.h, me.chain) != theirs then
        WithEnd(l, Other(who), them.(answers := them.answers + {me.chain}))
      else l
    case Apply(who, court, listed) =>
      if listed in me.answers && SideOf(p, who).shares then
        WithEnd(l, who, me.(chain := me.chain + Stored(court, p.edge, me.chain, listed)))
      else l
    case Act(who, court, a) =>
      if court.table(p.edge)(Final(court.table(p.edge), court.init, me.chain), a).Some? then
        WithEnd(l, who, me.(chain := me.chain + [a]))
      else l
  }

  function Run<S>(p: Pair<S>, l: Link, events: seq<Event<S>>): Link
    decreases |events|
  {
    if events == [] then l else Run(p, AfterEvent(p, l, events[0]), events[1..])
  }

  // Two nodes that hold these chains and have said nothing yet.
  function Quiet(x: seq<Assertion>, y: seq<Assertion>): Link {
    Link(End(x, {}, {}), End(y, {}, {}))
  }

  // ---------------------------------------------------------------- what every run keeps

  // Every answer on its way is a chain its sender has held, and every hash asked with is of a chain the asker
  // has held.
  ghost predicate Honest(h: Hashing, l: Link) {
    && (forall listed :: listed in l.one.answers ==> listed <= l.two.chain)
    && (forall listed :: listed in l.two.answers ==> listed <= l.one.chain)
    && (forall sent :: sent in l.one.asked ==> SentFrom(h, sent, l.one.chain))
    && (forall sent :: sent in l.two.asked ==> SentFrom(h, sent, l.two.chain))
  }

  ghost predicate SentFrom(h: Hashing, sent: string, chain: seq<Assertion>) {
    exists n :: 0 <= n <= |chain| && HashOf(h, chain[..n]) == sent
  }

  ghost predicate Grows(l: Link, m: Link) {
    l.one.chain <= m.one.chain && l.two.chain <= m.two.chain
  }

  lemma SentFromLonger(h: Hashing, sent: string, x: seq<Assertion>, y: seq<Assertion>)
    requires SentFrom(h, sent, x) && x <= y
    ensures SentFrom(h, sent, y)
  {
    var n :| 0 <= n <= |x| && HashOf(h, x[..n]) == sent;
    assert y[..n] == x[..n];
  }

  lemma SentNow(h: Hashing, chain: seq<Assertion>)
    ensures SentFrom(h, HashOf(h, chain), chain)
  {
    assert chain[..|chain|] == chain;
  }

  lemma EventGrows<S>(p: Pair<S>, l: Link, e: Event<S>)
    ensures Grows(l, AfterEvent(p, l, e))
  {
  }

  lemma EventKeepsHonest<S>(p: Pair<S>, l: Link, e: Event<S>)
    requires Honest(p.h, l)
    ensures Honest(p.h, AfterEvent(p, l, e)) && Grows(l, AfterEvent(p, l, e))
  {
    var m := AfterEvent(p, l, e);
    EventGrows(p, l, e);
    forall sent | sent in l.one.asked
      ensures SentFrom(p.h, sent, m.one.chain)
    {
      SentFromLonger(p.h, sent, l.one.chain, m.one.chain);
    }
    forall sent | sent in l.two.asked
      ensures SentFrom(p.h, sent, m.two.chain)
    {
      SentFromLonger(p.h, sent, l.two.chain, m.two.chain);
    }
    SentNow(p.h, EndOf(l, e.who).chain);
  }

  lemma {:induction false} RunKeepsHonest<S>(p: Pair<S>, l: Link, events: seq<Event<S>>)
    requires Honest(p.h, l)
    ensures Honest(p.h, Run(p, l, events)) && Grows(l, Run(p, l, events))
    decreases |events|
  {
    if events != [] {
      EventKeepsHonest(p, l, events[0]);
      RunKeepsHonest(p, AfterEvent(p, l, events[0]), events[1..]);
    }
  }

  // Nobody holds a signature that is not one of these.
  ghost predicate Within(l: Link, sigs: set<string>) {
    DrawnFrom(l.one.chain, sigs) && DrawnFrom(l.two.chain, sigs)
  }

  ghost predicate DrawnFrom(chain: seq<Assertion>, sigs: set<string>) {
    forall sig :: sig in multiset(Sigs(chain)) ==> sig in sigs
  }

  // What is stored is among what was listed.
  lemma StoredIsListed<S>(court: Court<S>, edge: Edge, local: seq<Assertion>, listed: seq<Assertion>)
    ensures forall sig :: sig in multiset(Sigs(local + Stored(court, edge, local, listed))) ==>
              sig in multiset(Sigs(local)) || sig in multiset(Sigs(listed))
  {
    SigsOfConcat(local, Stored(court, edge, local, listed));
    StoredSigs(court, edge, local, listed);
    forall sig | sig in multiset(Sigs(Stored(court, edge, local, listed)))
      ensures sig in multiset(Sigs(listed))
    {
      NotHeldSigs(local, listed, sig);
    }
  }

  lemma PrefixSigs(x: seq<Assertion>, y: seq<Assertion>)
    requires x <= y
    ensures forall sig :: sig in multiset(Sigs(x)) ==> sig in multiset(Sigs(y))
  {
    assert y == x + y[|x|..];
    SigsOfConcat(x, y[|x|..]);
  }

  lemma EventInventsNothing<S>(p: Pair<S>, l: Link, e: Event<S>, sigs: set<string>)
    requires Honest(p.h, l) && Within(l, sigs) && (e.Act? ==> e.a.sig in sigs)
    ensures Within(AfterEvent(p, l, e), sigs)
  {
    var m, mine, theirs := AfterEvent(p, l, e), EndOf(l, e.who).chain, EndOf(l, Other(e.who)).chain;
    if e.Apply? && e.listed in EndOf(l, e.who).answers {
      StoredIsDrawn(e.court, p.edge, mine, theirs, e.listed, sigs);
      ChainAfter(p, l, e, mine, mine + Stored(e.court, p.edge, mine, e.listed));
    } else if e.Act? {
      SigsOfConcat(mine, [e.a]);
      assert Sigs([e.a]) == [e.a.sig];
      ChainAfter(p, l, e, mine, mine + [e.a]);
    } else {
      ChainAfter(p, l, e, mine, mine);
    }
    BothWithin(m, e.who, EndOf(m, e.who).chain, theirs, sigs);
  }

  // An event leaves the other end's chain alone, and changes its own to one of these two.
  lemma ChainAfter<S>(p: Pair<S>, l: Link, e: Event<S>, mine: seq<Assertion>, added: seq<Assertion>)
    requires mine == EndOf(l, e.who).chain
    requires added ==
             if e.Apply? && e.listed in EndOf(l, e.who).answers then mine + Stored(e.court, p.edge, mine, e.listed)
             else if e.Act? then mine + [e.a] else mine
    ensures EndOf(AfterEvent(p, l, e), Other(e.who)).chain == EndOf(l, Other(e.who)).chain
    ensures EndOf(AfterEvent(p, l, e), e.who).chain == added || EndOf(AfterEvent(p, l, e), e.who).chain == mine
  {
  }

  lemma BothWithin(m: Link, who: Who, mine: seq<Assertion>, theirs: seq<Assertion>, sigs: set<string>)
    requires EndOf(m, who).chain == mine && EndOf(m, Other(who)).chain == theirs
    requires DrawnFrom(mine, sigs) && DrawnFrom(theirs, sigs)
    ensures Within(m, sigs)
  {
  }

  lemma StoredIsDrawn<S>(court: Court<S>, edge: Edge, mine: seq<Assertion>, theirs: seq<Assertion>,
                         listed: seq<Assertion>, sigs: set<string>)
    requires listed <= theirs && DrawnFrom(mine, sigs) && DrawnFrom(theirs, sigs)
    ensures DrawnFrom(mine + Stored(court, edge, mine, listed), sigs)
  {
    StoredIsListed(court, edge, mine, listed);
    PrefixSigs(listed, theirs);
  }

  // In every run nothing is held that one of the two did not hold before or do meanwhile.
  lemma {:induction false} RunInventsNothing<S>(p: Pair<S>, l: Link, events: seq<Event<S>>, sigs: set<string>)
    requires Honest(p.h, l) && Within(l, sigs)
    requires forall e :: e in events && e.Act? ==> e.a.sig in sigs
    ensures Within(Run(p, l, events), sigs)
    decreases |events|
  {
    if events != [] {
      EventKeepsHonest(p, l, events[0]);
      EventInventsNothing(p, l, events[0], sigs);
      RunInventsNothing(p, AfterEvent(p, l, events[0]), events[1..], sigs);
    }
  }

  ghost predicate SameChains(l: Link, m: Link) {
    l.one.chain == m.one.chain && l.two.chain == m.two.chain
  }

  ghost predicate SameSigs(l: Link) {
    multiset(Sigs(l.one.chain)) == multiset(Sigs(l.two.chain))
  }

  lemma AgreementHoldsOnce<S>(p: Pair<S>, l: Link, e: Event<S>)
    requires Honest(p.h, l) && SameSigs(l) && !e.Act?
    ensures SameChains(l, AfterEvent(p, l, e))
  {
    if e.Apply? && e.listed in EndOf(l, e.who).answers {
      HeldAddsNothing(e.court, p.edge, EndOf(l, e.who).chain, EndOf(l, Other(e.who)).chain, e.listed);
    }
    OnlyApplyingAdds(p, l, e);
  }

  lemma OnlyApplyingAdds<S>(p: Pair<S>, l: Link, e: Event<S>)
    requires !e.Act?
    ensures (e.Apply? && e.listed in EndOf(l, e.who).answers ==>
               var mine := EndOf(l, e.who).chain; mine + Stored(e.court, p.edge, mine, e.listed) == mine) ==>
            SameChains(l, AfterEvent(p, l, e))
  {
  }

  // A chain adds nothing to one with the same signatures, nor does a beginning of it.
  lemma HeldAddsNothing<S>(court: Court<S>, edge: Edge, mine: seq<Assertion>, theirs: seq<Assertion>,
                           listed: seq<Assertion>)
    requires listed <= theirs && multiset(Sigs(mine)) == multiset(Sigs(theirs))
    ensures mine + Stored(court, edge, mine, listed) == mine
  {
    PrefixSigs(listed, theirs);
    NothingNotHeld(mine, listed);
    NothingNewNothingStored(court, edge, mine, listed);
    assert mine + [] == mine;
  }

  lemma {:induction false} AgreementHolds<S>(p: Pair<S>, l: Link, events: seq<Event<S>>)
    requires Honest(p.h, l) && SameSigs(l) && forall e :: e in events ==> !e.Act?
    ensures SameChains(l, Run(p, l, events))
    decreases |events|
  {
    if events != [] {
      EventKeepsHonest(p, l, events[0]);
      AgreementHoldsOnce(p, l, events[0]);
      AgreementHolds(p, AfterEvent(p, l, events[0]), events[1..]);
    }
  }

  // Once two hashes agree nothing but a new act changes either chain, whatever was still on its way.
  lemma AgreementIsFinal<S>(p: Pair<S>, l: Link, events: seq<Event<S>>)
    requires FaithfulDigest(p.h.digest, p.h.empty) && Honest(p.h, l)
    requires forall e :: e in events ==> !e.Act?
    requires HashOf(p.h, l.one.chain) == HashOf(p.h, l.two.chain)
    ensures SameChains(l, Run(p, l, events))
  {
    SameHashIffSameSigs(p.h.digest, p.h.empty, l.one.chain, l.two.chain);
    AgreementHolds(p, l, events);
  }

  // ---------------------------------------------------------------- who does not ask does not learn

  // This end has not asked yet and has no answer coming.
  ghost predicate Unasked(l: Link, who: Who) {
    EndOf(l, who).asked == {} && EndOf(l, who).answers == {}
  }

  // Going by the tables it has meanwhile, this end never asks while it holds this chain; nor does it act.
  ghost predicate Silent<S>(p: Pair<S>, events: seq<Event<S>>, who: Who, chain: seq<Assertion>) {
    forall e :: e in events && e.who == who ==>
      !e.Act? && (e.Ask? ==> !SideOf(p, who).shares || !StillLive(e.asking, SideOf(p, who).live, p.edge, chain))
  }

  lemma {:induction false} SilentStays<S>(p: Pair<S>, l: Link, events: seq<Event<S>>, who: Who)
    requires Unasked(l, who) && Silent(p, events, who, EndOf(l, who).chain)
    ensures EndOf(Run(p, l, events), who).chain == EndOf(l, who).chain
    ensures EndOf(l, Other(who)).chain <= EndOf(Run(p, l, events), Other(who)).chain
    decreases |events|
  {
    if events != [] {
      SilentOnce(p, l, events[0], who);
      SilentStays(p, AfterEvent(p, l, events[0]), events[1..], who);
    }
  }

  lemma SilentOnce<S>(p: Pair<S>, l: Link, e: Event<S>, who: Who)
    requires Unasked(l, who) && Silent(p, [e], who, EndOf(l, who).chain)
    ensures Unasked(AfterEvent(p, l, e), who)
    ensures EndOf(AfterEvent(p, l, e), who).chain == EndOf(l, who).chain
    ensures EndOf(l, Other(who)).chain <= EndOf(AfterEvent(p, l, e), Other(who)).chain
  {
    assert e in [e];
  }

  // A node that has not asked, has no answer coming, and neither asks nor acts, never agrees with one that
  // holds something it lacks.
  lemma SilentNeverAgrees<S>(p: Pair<S>, l: Link, events: seq<Event<S>>, who: Who, sig: string)
    requires FaithfulDigest(p.h.digest, p.h.empty) && Unasked(l, who) && Silent(p, events, who, EndOf(l, who).chain)
    requires HoldsSig(EndOf(l, Other(who)).chain, sig) && !HoldsSig(EndOf(l, who).chain, sig)
    ensures HashOf(p.h, Run(p, l, events).one.chain) != HashOf(p.h, Run(p, l, events).two.chain)
  {
    var m := Run(p, l, events);
    SilentStays(p, l, events, who);
    HoldsIff(EndOf(l, Other(who)).chain, sig);
    HoldsIff(EndOf(l, who).chain, sig);
    PrefixSigs(EndOf(l, Other(who)).chain, EndOf(m, Other(who)).chain);
    SameHashIffSameSigs(p.h.digest, p.h.empty, m.one.chain, m.two.chain);
  }
}
