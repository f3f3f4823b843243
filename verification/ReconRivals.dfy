/**
 * Two nodes whose chains part at the last assertion: exactly when reconciling can bring them together. Then
 * what becomes of two exits taken at once.
 */
module ReconRivals {
  import opened Prelude
  import opened Replay
  import opened Transitions
  import opened Recon
  import opened ReconConvergence
  import opened ReconExchange
  import opened ReconRuns
  import T = TransitionSafety
  import Rows = TransitionRows

  // ---------------------------------------------------------------- two chains that part at the end

  // This end holds the past and one assertion, the other end the past and another one, whatever the two have
  // asked and answered before.
  ghost predicate Parted<S>(p: Pair<S>, l: Link, who: Who, past: seq<Assertion>, mine: Assertion, theirs: Assertion) {
    && Honest(p.h, l) && EndOf(l, who).chain == past + [mine] && EndOf(l, Other(who)).chain == past + [theirs]
    && !HoldsSig(past, mine.sig) && !HoldsSig(past, theirs.sig) && mine.sig != theirs.sig
  }

  // The event goes by the tables the two sides have, and nobody acts.
  ghost predicate JudgedBy<S>(p: Pair<S>, e: Event<S>) {
    match e
    case Ask(who, asking) => asking == SideOf(p, who).asking
    case Answer(_, _) => true
    case Apply(who, court, _) => court == SideOf(p, who).court
    case Act(_, _, _) => false
  }

  ghost predicate AllJudgedBy<S>(p: Pair<S>, events: seq<Event<S>>) {
    forall i :: 0 <= i < |events| ==> JudgedBy(p, events[i])
  }

  ghost predicate Agree(h: Hashing, l: Link) {
    HashOf(h, l.one.chain) == HashOf(h, l.two.chain)
  }

  // Some run makes the hashes agree.
  ghost predicate CanAgree<S(!new)>(p: Pair<S>, l: Link) {
    exists events: seq<Event<S>> :: AllJudgedBy(p, events) && Agree(p.h, Run(p, l, events))
  }

  // The other end's chain can still get here: it is on its way, or the other end serves it and this end has
  // asked at some time or asks now.
  predicate InReach<S>(p: Pair<S>, l: Link, who: Who) {
    var me, side := EndOf(l, who), SideOf(p, who);
    && side.shares
    && (EndOf(l, Other(who)).chain in me.answers ||
        (SideOf(p, Other(who)).serves && (me.asked != {} || Asks(side, p.edge, me.chain))))
  }

  // And this end's table takes something of it.
  predicate CanLearn<S>(p: Pair<S>, l: Link, who: Who) {
    && InReach(p, l, who)
    && Stored(SideOf(p, who).court, p.edge, EndOf(l, who).chain, EndOf(l, Other(who)).chain) != []
  }

  lemma HoldsLast(past: seq<Assertion>, a: Assertion, sig: string)
    ensures HoldsSig(past + [a], sig) <==> HoldsSig(past, sig) || a.sig == sig
  {
    SigsOfConcat(past, [a]);
    HoldsIff(past, sig);
    HoldsIff(past + [a], sig);
    assert Sigs([a]) == [a.sig];
  }

  // Of a chain that is held but for its last assertion, only that one is news.
  lemma LastIsNews(local: seq<Assertion>, past: seq<Assertion>, b: Assertion)
    requires forall sig :: sig in multiset(Sigs(past)) ==> sig in multiset(Sigs(local))
    requires !HoldsSig(local, b.sig)
    ensures Incoming(local, past + [b]) == [b]
  {
    NotHeldOfConcat(local, past, [b]);
    NothingNotHeld(local, past);
    assert [b][1..] == [] && NotHeld(local, []) == [];
    assert NotHeld(local, [b]) == [b] + [] == [b];
    assert NotHeld(local, past + [b]) == [] + [b] == [b];
    assert InWireOrder([b]) == InsertByTime(b, InWireOrder([]));
  }

  lemma StoresOne<S>(court: Court<S>, edge: Edge, local: seq<Assertion>, listed: seq<Assertion>, c: S, b: Assertion)
    requires c == Final(court.table(edge), court.init, local) && Incoming(local, listed) == [b]
    ensures Stored(court, edge, local, listed) == if court.table(edge)(c, b).Some? then [b] else []
  {
    AcceptsOne(court.table(edge), c, b);
  }

  lemma AcceptsOne<S>(step: Table<S, Assertion>, c: S, b: Assertion)
    ensures Accepted(step, c, [b]) == if step(c, b).Some? then [b] else []
  {
    assert [b][1..] == [] && Accepted(step, Next(step, c, b), []) == [];
  }

  // A beginning of a chain that is held but for its last assertion has nothing to tell but that one.
  lemma StoresAtMostLast<S>(court: Court<S>, edge: Edge, local: seq<Assertion>, past: seq<Assertion>, z: Assertion,
                            listed: seq<Assertion>)
    requires past <= local && listed <= past + [z]
    ensures Stored(court, edge, local, listed) == [] ||
            (Stored(court, edge, local, listed) == [z] && listed == past + [z])
  {
    PrefixSigs(past, local);
    if |listed| <= |past| {
      assert listed <= past;
      PrefixSigs(listed, past);
      NothingNotHeld(local, listed);
      NothingNewNothingStored(court, edge, local, listed);
    } else if HoldsSig(local, z.sig) {
      assert listed == past + [z];
      HoldsIff(local, z.sig);
      SigsOfConcat(past, [z]);
      assert Sigs([z]) == [z.sig];
      NothingNotHeld(local, listed);
      NothingNewNothingStored(court, edge, local, listed);
    } else {
      assert listed == past + [z];
      LastIsNews(local, past, z);
      StoresOne(court, edge, local, listed, Final(court.table(edge), court.init, local), z);
    }
  }

  // What this end has done itself is no news to it.
  lemma OwnIsNoNews<S>(court: Court<S>, edge: Edge, past: seq<Assertion>, mine: Assertion, theirs: Assertion)
    ensures Stored(court, edge, past + [mine], past + [theirs] + [mine]) ==
            Stored(court, edge, past + [mine], past + [theirs])
  {
    var x := past + [mine];
    NotHeldOfConcat(x, past + [theirs], [mine]);
    HoldsLast(past, mine, mine.sig);
    HoldsIff(x, mine.sig);
    assert Sigs([mine]) == [mine.sig];
    NothingNotHeld(x, [mine]);
    assert NotHeld(x, past + [theirs] + [mine]) == NotHeld(x, past + [theirs]);
  }

  // ---------------------------------------------------------------- no way to learn

  ghost predicate NoWay<S>(p: Pair<S>, l: Link, who: Who, past: seq<Assertion>, mine: Assertion, theirs: Assertion) {
    var me, side := EndOf(l, who), SideOf(p, who);
    || !side.shares
    || Stored(side.court, p.edge, past + [mine], past + [theirs]) == []
    || ((forall listed :: listed in me.answers ==> listed <= past) &&
        (!SideOf(p, Other(who)).serves || (me.asked == {} && !Asks(side, p.edge, past + [mine]))))
  }

  // This end has not learned, and has no way to; the other may have learned.
  ghost predicate Stuck<S>(p: Pair<S>, l: Link, who: Who, past: seq<Assertion>, mine: Assertion, theirs: Assertion) {
    && Honest(p.h, l) && EndOf(l, who).chain == past + [mine] && NoWay(p, l, who, past, mine, theirs)
    && (EndOf(l, Other(who)).chain == past + [theirs] || EndOf(l, Other(who)).chain == past + [theirs] + [mine])
  }

  // Applying what may be on its way here changes nothing.
  lemma StuckHears<S>(p: Pair<S>, l: Link, who: Who, past: seq<Assertion>, mine: Assertion, theirs: Assertion,
                      listed: seq<Assertion>)
    requires Stuck(p, l, who, past, mine, theirs) && SideOf(p, who).shares && listed in EndOf(l, who).answers
    ensures Stored(SideOf(p, who).court, p.edge, past + [mine], listed) == []
  {
    var court, x := SideOf(p, who).court, past + [mine];
    assert listed <= EndOf(l, Other(who)).chain;
    if |listed| <= |past| + 1 {
      assert listed <= past + [theirs];
      StoresAtMostLast(court, p.edge, x, past, theirs, listed);
    } else {
      assert listed == past + [theirs] + [mine];
      OwnIsNoNews(court, p.edge, past, mine, theirs);
    }
  }

  // What the other end may hear is its own chain and this end's last assertion.
  lemma OtherHears<S>(p: Pair<S>, l: Link, who: Who, past: seq<Assertion>, mine: Assertion, theirs: Assertion,
                      court: Court<S>, listed: seq<Assertion>)
    requires Stuck(p, l, who, past, mine, theirs) && listed in EndOf(l, Other(who)).answers
    ensures var y := EndOf(l, Other(who)).chain;
      y + Stored(court, p.edge, y, listed) == past + [theirs] ||
      y + Stored(court, p.edge, y, listed) == past + [theirs] + [mine]
  {
    var y := EndOf(l, Other(who)).chain;
    assert listed <= past + [mine] && past <= y;
    StoresAtMostLast(court, p.edge, y, past, mine, listed);
    assert y + [] == y;
    if y == past + [theirs] + [mine] {
      OwnLastAddsNothing(court, p.edge, y, past, mine, listed);
    }
  }

  lemma OwnLastAddsNothing<S>(court: Court<S>, edge: Edge, y: seq<Assertion>, past: seq<Assertion>, mine: Assertion,
                              listed: seq<Assertion>)
    requires past <= y && mine in y && listed <= past + [mine]
    ensures Stored(court, edge, y, listed) == []
  {
    PrefixSigs(past, y);
    PrefixSigs(listed, past + [mine]);
    SigsOfConcat(past, [mine]);
    assert Sigs([mine]) == [mine.sig];
    var i :| 0 <= i < |y| && y[i] == mine;
    assert HoldsSig(y, mine.sig);
    HoldsIff(y, mine.sig);
    NothingNotHeld(y, listed);
    NothingNewNothingStored(court, edge, y, listed);
  }

  lemma StuckOnce<S>(p: Pair<S>, l: Link, e: Event<S>, who: Who, past: seq<Assertion>, mine: Assertion,
                     theirs: Assertion)
    requires Stuck(p, l, who, past, mine, theirs) && JudgedBy(p, e)
    ensures Stuck(p, AfterEvent(p, l, e), who, past, mine, theirs)
  {
    EventKeepsHonest(p, l, e);
    if e.Apply? && e.listed in EndOf(l, e.who).answers {
      if e.who == who {
        if SideOf(p, who).shares {
          StuckHears(p, l, who, past, mine, theirs, e.listed);
        }
        assert past + [mine] + [] == past + [mine];
      } else {
        OtherHears(p, l, who, past, mine, theirs, e.court, e.listed);
      }
    }
  }

  lemma {:induction false} StuckStays<S>(p: Pair<S>, l: Link, events: seq<Event<S>>, who: Who, past: seq<Assertion>,
                                         mine: Assertion, theirs: Assertion)
    requires Stuck(p, l, who, past, mine, theirs) && AllJudgedBy(p, events)
    ensures Stuck(p, Run(p, l, events), who, past, mine, theirs)
    decreases |events|
  {
    if events != [] {
      StuckOnce(p, l, events[0], who, past, mine, theirs);
      StuckStays(p, AfterEvent(p, l, events[0]), events[1..], who, past, mine, theirs);
    }
  }

  lemma StuckDisagrees<S>(p: Pair<S>, l: Link, who: Who, past: seq<Assertion>, mine: Assertion, theirs: Assertion)
    requires FaithfulDigest(p.h.digest, p.h.empty) && Stuck(p, l, who, past, mine, theirs)
    requires !HoldsSig(past, theirs.sig) && mine.sig != theirs.sig
    ensures !Agree(p.h, l)
  {
    var x, y := EndOf(l, who).chain, EndOf(l, Other(who)).chain;
    SameHashIffSameSigs(p.h.digest, p.h.empty, l.one.chain, l.two.chain);
    HoldsLast(past, mine, theirs.sig);
    HoldsLast(past, theirs, theirs.sig);
    HoldsLast(past + [theirs], mine, theirs.sig);
    HoldsIff(x, theirs.sig);
    HoldsIff(y, theirs.sig);
  }

  lemma NeverAgrees<S>(p: Pair<S>, l: Link, events: seq<Event<S>>, who: Who, past: seq<Assertion>,
                             mine: Assertion, theirs: Assertion)
    requires FaithfulDigest(p.h.digest, p.h.empty) && Parted(p, l, who, past, mine, theirs) && !CanLearn(p, l, who)
    requires AllJudgedBy(p, events)
    ensures !Agree(p.h, Run(p, l, events))
  {
    forall listed | listed in EndOf(l, who).answers && listed != past + [theirs]
      ensures listed <= past
    {
      assert listed <= past + [theirs];
    }
    assert Stuck(p, l, who, past, mine, theirs);
    StuckStays(p, l, events, who, past, mine, theirs);
    StuckDisagrees(p, Run(p, l, events), who, past, mine, theirs);
  }

  // ---------------------------------------------------------------- a way to learn

  lemma {:induction false} RunOfConcat<S>(p: Pair<S>, l: Link, x: seq<Event<S>>, y: seq<Event<S>>)
    ensures Run(p, l, x + y) == Run(p, Run(p, l, x), y)
    decreases |x|
  {
    if x == [] {
      assert x + y == y;
    } else {
      assert (x + y)[1..] == x[1..] + y;
      RunOfConcat(p, AfterEvent(p, l, x[0]), x[1..], y);
    }
  }

  // Whatever this end has asked with, the other end's chain has another hash.
  lemma SentDiffers(h: Hashing, sent: string, past: seq<Assertion>, mine: Assertion, theirs: Assertion)
    requires FaithfulDigest(h.digest, h.empty) && SentFrom(h, sent, past + [mine])
    requires !HoldsSig(past, theirs.sig) && mine.sig != theirs.sig
    ensures HashOf(h, past + [theirs]) != sent
  {
    var x := past + [mine];
    var n :| 0 <= n <= |x| && HashOf(h, x[..n]) == sent;
    SameHashIffSameSigs(h.digest, h.empty, x[..n], past + [theirs]);
    HoldsLast(past, mine, theirs.sig);
    HoldsLast(past, theirs, theirs.sig);
    PrefixSigs(x[..n], x);
    HoldsIff(x, theirs.sig);
    HoldsIff(past + [theirs], theirs.sig);
  }

  // The chain of the other end is on its way here, and nothing else has changed for it.
  ghost predicate Comes(l: Link, m: Link, who: Who) {
    && EndOf(m, Other(who)) == EndOf(l, Other(who)) && EndOf(m, who).chain == EndOf(l, who).chain
    && EndOf(l, Other(who)).chain in EndOf(m, who).answers && EndOf(l, who).answers <= EndOf(m, who).answers
  }

  lemma AskAndHear<S>(p: Pair<S>, l: Link, who: Who, past: seq<Assertion>, mine: Assertion, theirs: Assertion)
    returns (events: seq<Event<S>>)
    requires FaithfulDigest(p.h.digest, p.h.empty) && Parted(p, l, who, past, mine, theirs) && InReach(p, l, who)
    ensures AllJudgedBy(p, events) && Comes(l, Run(p, l, events), who)
    ensures Parted(p, Run(p, l, events), who, past, mine, theirs)
  {
    var me, them := EndOf(l, who), EndOf(l, Other(who));
    if them.chain in me.answers {
      events := [];
    } else {
      var sent := HashOf(p.h, me.chain);
      SentNow(p.h, me.chain);
      if me.asked != {} {
        sent :| sent in me.asked;
      }
      SentDiffers(p.h, sent, past, mine, theirs);
      events := [Ask(who, SideOf(p, who).asking), Answer(Other(who), sent)];
      TwoEvents(p, l, events[0], events[1]);
    }
    RunKeepsHonest(p, l, events);
  }

  lemma TwoEvents<S>(p: Pair<S>, l: Link, d: Event<S>, e: Event<S>)
    ensures Run(p, l, [d, e]) == AfterEvent(p, AfterEvent(p, l, d), e)
  {
    assert [d, e][1..] == [e] && [e][1..] == [];
    assert Run(p, AfterEvent(p, l, d), [e]) == Run(p, AfterEvent(p, AfterEvent(p, l, d), e), []);
  }

  // With both chains on their way, and both tables taking them, both ends come to hold the same.
  lemma ApplyBoth<S>(p: Pair<S>, l: Link, past: seq<Assertion>, a: Assertion, b: Assertion)
    returns (events: seq<Event<S>>)
    requires FaithfulDigest(p.h.digest, p.h.empty) && Parted(p, l, One, past, a, b)
    requires CanLearn(p, l, One) && CanLearn(p, l, Two)
    requires l.two.chain in l.one.answers && l.one.chain in l.two.answers
    ensures AllJudgedBy(p, events) && Agree(p.h, Run(p, l, events))
  {
    var x, y := l.one.chain, l.two.chain;
    events := [Apply(One, p.one.court, y), Apply(Two, p.two.court, x)];
    TwoEvents(p, l, events[0], events[1]);
    StoresAtMostLast(p.one.court, p.edge, x, past, b, y);
    StoresAtMostLast(p.two.court, p.edge, y, past, a, x);
    SameEnds(p.h, past, a, b);
  }

  lemma SameEnds(h: Hashing, past: seq<Assertion>, a: Assertion, b: Assertion)
    requires FaithfulDigest(h.digest, h.empty)
    ensures HashOf(h, past + [a] + [b]) == HashOf(h, past + [b] + [a])
  {
    SigsOfConcat(past, [a]);
    SigsOfConcat(past, [b]);
    SigsOfConcat(past + [a], [b]);
    SigsOfConcat(past + [b], [a]);
    SameHashIffSameSigs(h.digest, h.empty, past + [a] + [b], past + [b] + [a]);
  }

  // Whatever the two have asked and answered before, some run makes two such chains agree if and only if each
  // end can still be reached by the other's chain, and its table takes what is new in it.
  lemma PartedMeetIff<S(!new)>(p: Pair<S>, l: Link, past: seq<Assertion>, a: Assertion, b: Assertion)
    requires FaithfulDigest(p.h.digest, p.h.empty) && Parted(p, l, One, past, a, b)
    ensures CanAgree(p, l) <==> CanLearn(p, l, One) && CanLearn(p, l, Two)
  {
    if CanLearn(p, l, One) && CanLearn(p, l, Two) {
      var first := AskAndHear(p, l, One, past, a, b);
      var m := Run(p, l, first);
      var second := AskAndHear(p, m, Two, past, b, a);
      var n := Run(p, m, second);
      var third := ApplyBoth(p, n, past, a, b);
      RunOfConcat(p, l, first, second);
      RunOfConcat(p, l, first + second, third);
      assert AllJudgedBy(p, first + second + third);
    } else {
      var who := if CanLearn(p, l, One) then Two else One;
      forall events: seq<Event<S>> | AllJudgedBy(p, events)
        ensures !Agree(p.h, Run(p, l, events))
      {
        NeverAgrees(p, l, events, who, past, if who.One? then a else b, if who.One? then b else a);
      }
    }
  }

  // ---------------------------------------------------------------- two exits

  predicate OpenFamily(s: State) {
    s == SProposed || s == SOpen || s == SPendingAcceptance || s == SDisputed
  }

  // A node asks about the edges that have begun and that some claim can still move, a contested closure apart.
  lemma FamilyIsWhatMoves(s: State)
    ensures OpenFamily(s) <==> s != SNone && s != SContestedClosure && exists claim :: Rows.HasRow(s, claim)
  {
    assert Rows.HasRow(SProposed, Confirmed) && Rows.HasRow(SOpen, Closed) && Rows.HasRow(SPendingAcceptance, Closed);
    assert Rows.HasRow(SDisputed, Closed);
  }

  function TableCourt(v: Verifier): Court<Chain> {
    Court(START, (edge: Edge) => TableOf(edge, v, true))
  }

  // A node of the table: it judges what it hears by its clock, and whether to ask without one.
  function TableSide(v: Verifier, shares: bool, serves: bool): Side<Chain> {
    Side(TableCourt(v), TableCourt(v.(now := None)), (c: Chain) => OpenFamily(c.state), shares, serves)
  }

  // What a clock accepts is accepted without one, to the same effect.
  lemma UnclockedAccepts(edge: Edge, v: Verifier, c: Chain, a: Assertion)
    requires Judge(edge, v, c, a).Accept?
    ensures Judge(edge, v.(now := None), c, a) == Judge(edge, v, c, a)
  {
  }

  // An edge that is open, or not yet, has not been left.
  ghost predicate NotLeft(c: Chain) {
    c.state == SNone || c.state == SProposed || c.state == SOpen ==> c.exit.None?
  }

  lemma StepKeepsNotLeft(edge: Edge, v: Verifier, c: Chain, a: Assertion)
    requires NotLeft(c)
    ensures NotLeft(Next(TableOf(edge, v, true), c, a))
  {
  }

  lemma {:induction false} ChainKeepsNotLeft(edge: Edge, v: Verifier, c: Chain, chain: seq<Assertion>)
    requires NotLeft(c)
    ensures NotLeft(Final(TableOf(edge, v, true), c, chain))
    decreases |chain|
  {
    if chain != [] {
      StepKeepsNotLeft(edge, v, c, chain[0]);
      ChainKeepsNotLeft(edge, v, Next(TableOf(edge, v, true), c, chain[0]), chain[1..]);
    }
  }

  // Of the exits from open only a close that awaits acceptance leaves the edge in the open family.
  lemma ExitLeaves(edge: Edge, v: Verifier, c: Chain, a: Assertion)
    requires NotLeft(c) && c.state == SOpen && IsUnilateralExit(a.state) && Judge(edge, v, c, a).Accept?
    ensures OpenFamily(T.After(edge, v, c, a).state) <==> a.state == Closed && edge.closurePolicy == OnAcceptance
  {
  }

  lemma FinalOfLast(edge: Edge, v: Verifier, past: seq<Assertion>, a: Assertion, c: Chain)
    requires c == Final(TableOf(edge, v, true), START, past)
    ensures Final(TableOf(edge, v, true), START, past + [a]) == T.After(edge, v, c, a)
  {
    FinalOfConcat(TableOf(edge, v, true), START, past, [a]);
    assert [a][1..] == [];
  }

  // The node took this exit from an edge that was open to it.
  ghost predicate TookExit(edge: Edge, v: Verifier, past: seq<Assertion>, a: Assertion) {
    var c := Final(TableOf(edge, v.(now := None), true), START, past);
    c.state == SOpen && IsUnilateralExit(a.state) && Judge(edge, v, c, a).Accept? && !HoldsSig(past, a.sig)
  }

  // After its own exit a node still asks exactly when that was a close that awaits acceptance.
  lemma AsksAfterExit(edge: Edge, v: Verifier, past: seq<Assertion>, a: Assertion, shares: bool, serves: bool)
    requires TookExit(edge, v, past, a)
    ensures Asks(TableSide(v, shares, serves), edge, past + [a]) <==>
            shares && a.state == Closed && edge.closurePolicy == OnAcceptance
  {
    var c, w := Final(TableOf(edge, v.(now := None), true), START, past), v.(now := None);
    UnclockedAccepts(edge, v, c, a);
    ChainKeepsNotLeft(edge, w, START, past);
    ExitLeaves(edge, w, c, a);
    FinalOfLast(edge, w, past, a, c);
  }

  // The node's clock and lineage may change, but by every table it asks by its own exit stands; nobody acts.
  ghost predicate ExitStands(events: seq<Event<Chain>>, who: Who, edge: Edge, past: seq<Assertion>, a: Assertion) {
    forall e :: e in events && e.who == who ==>
      !e.Act? &&
      (e.Ask? ==> exists v: Verifier :: e.asking == TableCourt(v.(now := None)) && TookExit(edge, v, past, a))
  }

  ghost predicate AsksByFamily(side: Side<Chain>) {
    forall c :: side.live(c) <==> OpenFamily(c.state)
  }

  lemma DoneIsSilent(p: Pair<Chain>, events: seq<Event<Chain>>, who: Who, past: seq<Assertion>, a: Assertion)
    requires AsksByFamily(SideOf(p, who)) && ExitStands(events, who, p.edge, past, a)
    requires !(a.state == Closed && p.edge.closurePolicy == OnAcceptance)
    ensures Silent(p, events, who, past + [a])
  {
    forall e | e in events && e.who == who && e.Ask?
      ensures !StillLive(e.asking, SideOf(p, who).live, p.edge, past + [a])
    {
      var v: Verifier :| e.asking == TableCourt(v.(now := None)) && TookExit(p.edge, v, past, a);
      AsksAfterExit(p.edge, v, past, a, true, true);
    }
  }

  // Two nodes with one past take different exits, and nothing has been asked before. One of them at least is
  // then done with the edge and never asks about it, so it never learns of the other's exit: no run makes the
  // hashes agree, whatever the instants of the two exits, and whatever clocks and lineages the nodes come to
  // judge by.
  lemma RivalsNeverMeet(p: Pair<Chain>, past: seq<Assertion>, a: Assertion, b: Assertion, events: seq<Event<Chain>>)
    requires FaithfulDigest(p.h.digest, p.h.empty) && AsksByFamily(p.one) && AsksByFamily(p.two)
    requires a.state != b.state && a.sig != b.sig && !HoldsSig(past, a.sig) && !HoldsSig(past, b.sig)
    requires ExitStands(events, One, p.edge, past, a) && ExitStands(events, Two, p.edge, past, b)
    ensures !Agree(p.h, Run(p, Quiet(past + [a], past + [b]), events))
  {
    var l := Quiet(past + [a], past + [b]);
    HoldsLast(past, a, a.sig);
    HoldsLast(past, a, b.sig);
    HoldsLast(past, b, a.sig);
    HoldsLast(past, b, b.sig);
    if a.state == Closed {
      DoneIsSilent(p, events, Two, past, b);
      SilentNeverAgrees(p, l, events, Two, a.sig);
    } else {
      DoneIsSilent(p, events, One, past, a);
      SilentNeverAgrees(p, l, events, One, b.sig);
    }
  }

  // After its own exit a, a node's table takes an exit b it would have taken from open exactly when that is
  // no later.
  lemma TakesRivalIff(edge: Edge, v: Verifier, past: seq<Assertion>, a: Assertion, b: Assertion, c: Chain)
    requires c == Final(TableOf(edge, v, true), START, past) && c.state == SOpen
    requires Judge(edge, v, c, a).Accept? && Judge(edge, v, c, b).Accept?
    requires IsUnilateralExit(a.state) && IsUnilateralExit(b.state) && a.state != b.state && a.signer != b.signer
    requires a.sig != b.sig && !HoldsSig(past, b.sig)
    ensures Stored(TableCourt(v), edge, past + [a], past + [b]) == if b.assertedAt <= a.assertedAt then [b] else []
  {
    var x := past + [a];
    ChainKeepsNotLeft(edge, v, START, past);
    T.RivalInOrder(edge, v, c, a, b);
    FinalOfLast(edge, v, past, a, c);
    HoldsLast(past, a, b.sig);
    PrefixSigs(past, x);
    LastIsNews(x, past, b);
    StoresOne(TableCourt(v), edge, x, past + [b], T.After(edge, v, c, a), b);
  }

  // What one exchange, begun after its own exit a, teaches a node of an exit b that its table would have taken
  // from open: all of it if its exit was a close that awaits acceptance and b is no later, and nothing otherwise.
  lemma RivalLearnedIff(edge: Edge, v: Verifier, one: Side<Chain>, two: Side<Chain>, h: Hashing,
                        past: seq<Assertion>, a: Assertion, b: Assertion, c: Chain)
    requires FaithfulDigest(h.digest, h.empty) && one == TableSide(v, one.shares, one.serves)
    requires TookExit(edge, v, past, a) && c == Final(TableOf(edge, v, true), START, past) && c.state == SOpen
    requires Judge(edge, v, c, a).Accept? && Judge(edge, v, c, b).Accept? && IsUnilateralExit(b.state)
    requires a.state != b.state && a.signer != b.signer && a.sig != b.sig && !HoldsSig(past, b.sig)
    ensures Exchanged(one, two, edge, h, past + [a], past + [b]) ==
            if one.shares && two.serves && a.state == Closed && edge.closurePolicy == OnAcceptance &&
               b.assertedAt <= a.assertedAt
            then past + [a] + [b] else past + [a]
  {
    AsksAfterExit(edge, v, past, a, one.shares, one.serves);
    AnswerLosesNothing(one, two, edge, h, past + [a], past + [b]);
    TakesRivalIff(edge, v, past, a, b, c);
    assert past + [a] + [] == past + [a];
  }

  // The exits were open to both, going by either node's table, and differ.
  ghost predicate Rivals(edge: Edge, v: Verifier, past: seq<Assertion>, a: Assertion, b: Assertion) {
    var c := Final(TableOf(edge, v, true), START, past);
    && c.state == SOpen && Judge(edge, v, c, a).Accept? && Judge(edge, v, c, b).Accept?
    && IsUnilateralExit(a.state) && IsUnilateralExit(b.state) && a.state != b.state && a.signer != b.signer
  }

  // After two rival exits, and whatever had been asked and answered before, some run makes the hashes agree if
  // and only if the exits carry one instant and each chain can still reach the other end. Since one node at
  // least no longer asks, that takes a request or an answer from before.
  lemma RivalsMeetIff(v: Verifier, w: Verifier, p: Pair<Chain>, l: Link, past: seq<Assertion>,
                      a: Assertion, b: Assertion)
    requires FaithfulDigest(p.h.digest, p.h.empty) && Parted(p, l, One, past, a, b)
    requires p.one == TableSide(v, p.one.shares, p.one.serves) && p.two == TableSide(w, p.two.shares, p.two.serves)
    requires TookExit(p.edge, v, past, a) && TookExit(p.edge, w, past, b)
    requires Rivals(p.edge, v, past, a, b) && Rivals(p.edge, w, past, a, b)
    ensures CanAgree(p, l) <==> a.assertedAt == b.assertedAt && InReach(p, l, One) && InReach(p, l, Two)
    ensures CanAgree(p, l) ==> !Unasked(l, if a.state == Closed then Two else One)
  {
    PartedMeetIff(p, l, past, a, b);
    TakesRivalIff(p.edge, v, past, a, b, Final(TableOf(p.edge, v, true), START, past));
    TakesRivalIff(p.edge, w, past, b, a, Final(TableOf(p.edge, w, true), START, past));
    AsksAfterExit(p.edge, v, past, a, p.one.shares, p.one.serves);
    AsksAfterExit(p.edge, w, past, b, p.two.shares, p.two.serves);
  }

  // ---------------------------------------------------------------- two exits at one instant

  function OpenChain(): seq<Assertion> {
    [Assertion("e", Proposed, 0, "o", None, "p"), Assertion("e", Confirmed, 0, "c", None, "q")]
  }

  function ClosedAt(at: int): Assertion {
    Assertion("e", Closed, at, "o", Some("x"), "r")
  }

  function ReleasedAt(at: int): Assertion {
    Assertion("e", Released, at, "c", None, "s")
  }

  lemma ExitsAreLegal(at: int)
    requires at >= 0
    ensures Judge(T.OpenEdge(), T.NobodyRotated(), T.Opened(), ClosedAt(at)).Accept?
    ensures Judge(T.OpenEdge(), T.NobodyRotated(), T.Opened(), ReleasedAt(at)).Accept?
  {
    T.OneHolder("o", "o", at);
    T.OneHolder("c", "o", at);
    T.OneHolder("o", "c", at);
    T.OneHolder("c", "c", at);
  }

  function OneTable(): Court<Chain> {
    TableCourt(T.NobodyRotated())
  }

  function BothSides(h: Hashing): Pair<Chain> {
    var side := TableSide(T.NobodyRotated(), true, true);
    Pair(side, side, T.OpenEdge(), h)
  }

  lemma ExitsAreRivals()
    ensures Rivals(T.OpenEdge(), T.NobodyRotated(), OpenChain(), ClosedAt(5), ReleasedAt(5))
    ensures TookExit(T.OpenEdge(), T.NobodyRotated(), OpenChain(), ClosedAt(5))
    ensures TookExit(T.OpenEdge(), T.NobodyRotated(), OpenChain(), ReleasedAt(5))
  {
    T.OpenedIsReached("p", "q");
    ExitsAreLegal(5);
    assert T.NobodyRotated().(now := None) == T.NobodyRotated();
  }

  // The owner closes at 5 and the other party releases at 5. Each would accept the other's act after its
  // own, but both take the edge to be over and neither asks: when nothing has been asked before, no run makes
  // them agree.
  lemma RivalsAtOneInstant(h: Hashing, events: seq<Event<Chain>>)
    requires FaithfulDigest(h.digest, h.empty) && AllJudgedBy(BothSides(h), events)
    ensures var edge, v := T.OpenEdge(), T.NobodyRotated();
      var x, y := OpenChain() + [ClosedAt(5)], OpenChain() + [ReleasedAt(5)];
      && Judge(edge, v, T.After(edge, v, T.Opened(), ClosedAt(5)), ReleasedAt(5)).Accept?
      && Judge(edge, v, T.After(edge, v, T.Opened(), ReleasedAt(5)), ClosedAt(5)).Accept?
      && !Asks(BothSides(h).one, edge, x) && !Asks(BothSides(h).two, edge, y)
      && !Agree(h, Run(BothSides(h), Quiet(x, y), events))
  {
    var edge, v := T.OpenEdge(), T.NobodyRotated();
    ExitsAreRivals();
    T.OpenedIsReached("p", "q");
    T.RivalInOrder(edge, v, T.Opened(), ClosedAt(5), ReleasedAt(5));
    T.RivalInOrder(edge, v, T.Opened(), ReleasedAt(5), ClosedAt(5));
    AsksAfterExit(edge, v, OpenChain(), ClosedAt(5), true, true);
    AsksAfterExit(edge, v, OpenChain(), ReleasedAt(5), true, true);
    assert v.(now := None) == v;
    assert forall e :: e in events ==> JudgedBy(BothSides(h), e);
    RivalsNeverMeet(BothSides(h), OpenChain(), ClosedAt(5), ReleasedAt(5), events);
  }

  // Both nodes ask while the edge is open, and then the same two exits are taken.
  function AskedBefore(): seq<Event<Chain>> {
    [Ask(One, OneTable()), Ask(Two, OneTable()), Act(One, OneTable(), ClosedAt(5)), Act(Two, OneTable(), ReleasedAt(5))]
  }

  lemma BothAsk(h: Hashing, sent: string)
    requires sent == HashOf(h, OpenChain())
    ensures Run(BothSides(h), Quiet(OpenChain(), OpenChain()), [Ask(One, OneTable()), Ask(Two, OneTable())]) ==
            Link(End(OpenChain(), {sent}, {}), End(OpenChain(), {sent}, {}))
  {
    T.OpenedIsReached("p", "q");
    TwoEvents(BothSides(h), Quiet(OpenChain(), OpenChain()), Ask(One, OneTable()), Ask(Two, OneTable()));
    assert {} + {sent} == {sent};
  }

  lemma BothLeave(h: Hashing, sent: string)
    ensures Run(BothSides(h), Link(End(OpenChain(), {sent}, {}), End(OpenChain(), {sent}, {})),
                [Act(One, OneTable(), ClosedAt(5)), Act(Two, OneTable(), ReleasedAt(5))]) ==
            Link(End(OpenChain() + [ClosedAt(5)], {sent}, {}), End(OpenChain() + [ReleasedAt(5)], {sent}, {}))
  {
    T.OpenedIsReached("p", "q");
    ExitsAreLegal(5);
    TwoEvents(BothSides(h), Link(End(OpenChain(), {sent}, {}), End(OpenChain(), {sent}, {})),
              Act(One, OneTable(), ClosedAt(5)), Act(Two, OneTable(), ReleasedAt(5)));
  }

  lemma AskedThenLeft(h: Hashing)
    ensures var sent := HashOf(h, OpenChain());
      Run(BothSides(h), Quiet(OpenChain(), OpenChain()), AskedBefore()) ==
      Link(End(OpenChain() + [ClosedAt(5)], {sent}, {}), End(OpenChain() + [ReleasedAt(5)], {sent}, {}))
  {
    var asks := [Ask(One, OneTable()), Ask(Two, OneTable())];
    var acts := [Act(One, OneTable(), ClosedAt(5)), Act(Two, OneTable(), ReleasedAt(5))];
    BothAsk(h, HashOf(h, OpenChain()));
    BothLeave(h, HashOf(h, OpenChain()));
    RunOfConcat(BothSides(h), Quiet(OpenChain(), OpenChain()), asks, acts);
    assert AskedBefore() == asks + acts;
  }

  // Then the requests are answered after all, and the two can still come to agree.
  lemma OldRequestsBringThemTogether(h: Hashing)
    requires FaithfulDigest(h.digest, h.empty)
    ensures CanAgree(BothSides(h), Run(BothSides(h), Quiet(OpenChain(), OpenChain()), AskedBefore()))
  {
    var p, v := BothSides(h), T.NobodyRotated();
    var l := Run(p, Quiet(OpenChain(), OpenChain()), AskedBefore());
    AskedThenLeft(h);
    RunKeepsHonest(p, Quiet(OpenChain(), OpenChain()), AskedBefore());
    ExitsAreRivals();
    RivalsMeetIff(v, v, p, l, OpenChain(), ClosedAt(5), ReleasedAt(5));
  }
}
