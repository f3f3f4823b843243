/**
 * What reconciliation guarantees: a response can only add to a chain what the table accepts there,
 * how it was listed does not matter beyond ties, hearing it again settles, and the hash two nodes
 * compare tells exactly whether they hold the same assertions.
 */
module ReconConvergence {
  import opened Prelude
  import opened Replay
  import opened Transitions
  import opened Recon

  // ---------------------------------------------------------------- what is stored replays

  // Replaying the old chain and then what was stored accepts everything stored and ends in the state
  // the whole candidate chain ends in.
  lemma StoredReplays<S>(court: Court<S>, edge: Edge, local: seq<Assertion>, listed: seq<Assertion>)
    ensures var step := court.table(edge);
      var stored := Stored(court, edge, local, listed);
      && Final(step, court.init, local + stored) == Final(step, court.init, local + Incoming(local, listed))
      && Outcomes(step, court.init, local + stored)[..|local|] == Outcomes(step, court.init, local)
      && forall i :: |local| <= i < |local + stored| ==> Outcomes(step, court.init, local + stored)[i]
  {
    var step := court.table(edge);
    var stored := Stored(court, edge, local, listed);
    var s := Final(step, court.init, local);
    FinalOfConcat(step, court.init, local, stored);
    FinalOfConcat(step, court.init, local, Incoming(local, listed));
    AcceptedReplays(step, s, Incoming(local, listed));
    assert |Outcomes(step, court.init, local)| == |local|;
    forall i | |local| <= i < |local + stored|
      ensures Outcomes(step, court.init, local + stored)[i]
    {
      assert Outcomes(step, court.init, local + stored)[i] == Outcomes(step, s, stored)[i - |local|];
    }
  }

  // ---------------------------------------------------------------- listing order

  ghost predicate DistinctTimes(listed: seq<Assertion>) {
    forall i, j :: 0 <= i < j < |listed| ==> listed[i].assertedAt != listed[j].assertedAt
  }

  ghost predicate ByTime(sorted: seq<Assertion>) {
    forall i, j :: 0 <= i < j < |sorted| ==> sorted[i].assertedAt <= sorted[j].assertedAt
  }

  lemma {:induction false} InsertByTimePermutes(a: Assertion, sorted: seq<Assertion>)
    ensures multiset(InsertByTime(a, sorted)) == multiset{a} + multiset(sorted)
  {
    if sorted != [] && a.assertedAt > sorted[0].assertedAt {
      InsertByTimePermutes(a, sorted[1..]);
      assert sorted == [sorted[0]] + sorted[1..];
    }
  }

  lemma PrependKeepsOrder(a: Assertion, sorted: seq<Assertion>)
    requires ByTime(sorted)
    requires forall b :: b in multiset(sorted) ==> a.assertedAt <= b.assertedAt
    ensures ByTime([a] + sorted)
  {
    forall i, j | 0 <= i < j < |[a] + sorted|
      ensures ([a] + sorted)[i].assertedAt <= ([a] + sorted)[j].assertedAt
    {
      assert ([a] + sorted)[j] == sorted[j - 1] && sorted[j - 1] in multiset(sorted);
    }
  }

  lemma FirstIsEarliest(sorted: seq<Assertion>)
    requires ByTime(sorted) && sorted != []
    ensures ByTime(sorted[1..])
    ensures forall b :: b in multiset(sorted) ==> sorted[0].assertedAt <= b.assertedAt
  {
    forall b | b in multiset(sorted)
      ensures sorted[0].assertedAt <= b.assertedAt
    {
      assert b in sorted;
    }
  }

  lemma {:induction false} InsertByTimeSorts(a: Assertion, sorted: seq<Assertion>)
    requires ByTime(sorted)
    ensures ByTime(InsertByTime(a, sorted))
  {
    if sorted == [] {
    } else {
      FirstIsEarliest(sorted);
      if a.assertedAt <= sorted[0].assertedAt {
        PrependKeepsOrder(a, sorted);
      } else {
        var tail := sorted[1..];
        assert sorted == [sorted[0]] + tail;
        InsertByTimeSorts(a, tail);
        InsertByTimePermutes(a, tail);
        PrependKeepsOrder(sorted[0], InsertByTime(a, tail));
      }
    }
  }

  lemma {:induction false} InWireOrderSorts(listed: seq<Assertion>)
    ensures ByTime(InWireOrder(listed)) && multiset(InWireOrder(listed)) == multiset(listed)
  {
    if listed != [] {
      InWireOrderSorts(listed[1..]);
      InsertByTimeSorts(listed[0], InWireOrder(listed[1..]));
      InsertByTimePermutes(listed[0], InWireOrder(listed[1..]));
      assert listed == [listed[0]] + listed[1..];
    }
  }

  lemma SameFirst(x: seq<Assertion>, y: seq<Assertion>)
    requires ByTime(x) && ByTime(y) && multiset(x) == multiset(y) && DistinctTimes(x) && x != [] && y != []
    ensures x[0] == y[0]
  {
    FirstIsEarliest(x);
    FirstIsEarliest(y);
    assert x[0] in multiset(y) && y[0] in multiset(x);
    assert y[0] in x;
    var j :| 0 <= j < |x| && x[j] == y[0];
    assert x[j].assertedAt == x[0].assertedAt;
  }

  lemma {:induction false} SortedIsUnique(x: seq<Assertion>, y: seq<Assertion>)
    requires ByTime(x) && ByTime(y) && multiset(x) == multiset(y) && DistinctTimes(x)
    ensures x == y
  {
    assert |multiset(x)| == |x| && |multiset(y)| == |y|;
    if x != [] {
      SameFirst(x, y);
      TailsMatch(x, y);
      SortedIsUnique(x[1..], y[1..]);
      assert x == [x[0]] + x[1..] && y == [y[0]] + y[1..];
    }
  }

  lemma {:induction false} NotHeldCounts(local: seq<Assertion>, listed: seq<Assertion>, a: Assertion)
    ensures multiset(NotHeld(local, listed))[a] == if HoldsSig(local, a.sig) then 0 else multiset(listed)[a]
  {
    if listed != [] {
      NotHeldCounts(local, listed[1..], a);
      assert listed == [listed[0]] + listed[1..];
      if !HoldsSig(local, listed[0].sig) {
        assert NotHeld(local, listed) == [listed[0]] + NotHeld(local, listed[1..]);
      } else {
        assert [] + NotHeld(local, listed[1..]) == NotHeld(local, listed[1..]);
      }
    }
  }

  lemma DistinctTimesCarries(x: seq<Assertion>, y: seq<Assertion>)
    requires DistinctTimes(x) && multiset(y) <= multiset(x)
    ensures DistinctTimes(y)
  {
    forall i, j | 0 <= i < j < |y|
      ensures y[i].assertedAt != y[j].assertedAt
    {
      assert y[i] in multiset(y) && y[j] in multiset(y);
      assert y[i] in x && y[j] in x;
      if y[i] == y[j] {
        assert y == y[..i] + [y[i]] + y[i + 1..j] + [y[j]] + y[j + 1..];
        assert multiset(y)[y[i]] >= 2;
        AtMostOnce(x, y[i]);
      }
    }
  }

  lemma {:induction false} AtMostOnce(x: seq<Assertion>, a: Assertion)
    requires DistinctTimes(x)
    ensures multiset(x)[a] <= 1
  {
    if x != [] {
      assert x == [x[0]] + x[1..];
      AtMostOnce(x[1..], a);
      if a in x[1..] {
        var k :| 0 <= k < |x[1..]| && x[1..][k] == a;
        assert x[k + 1] == a;
      }
    }
  }

  // However a responder lists assertions made at distinct instants, the same ones are stored in the same order.
  lemma ListingOrderIsIgnored<S>(court: Court<S>, edge: Edge, local: seq<Assertion>,
                                 x: seq<Assertion>, y: seq<Assertion>)
    requires DistinctTimes(x) && multiset(x) == multiset(y)
    ensures Incoming(local, x) == Incoming(local, y)
    ensures Stored(court, edge, local, x) == Stored(court, edge, local, y)
  {
    var u, w := NotHeld(local, x), NotHeld(local, y);
    assert multiset(u) == multiset(w) && multiset(u) <= multiset(x) by {
      forall a
        ensures multiset(u)[a] == multiset(w)[a] <= multiset(x)[a]
      {
        NotHeldCounts(local, x, a);
        NotHeldCounts(local, y, a);
      }
    }
    InWireOrderSorts(u);
    InWireOrderSorts(w);
    DistinctTimesCarries(x, InWireOrder(u));
    SortedIsUnique(InWireOrder(u), InWireOrder(w));
  }

  // ---------------------------------------------------------------- ties, and an honest chain

  function AtInstant(listed: seq<Assertion>, t: int): seq<Assertion> {
    if listed == [] then [] else (if listed[0].assertedAt == t then [listed[0]] else []) + AtInstant(listed[1..], t)
  }

  lemma {:induction false} InsertKeepsTies(a: Assertion, sorted: seq<Assertion>, t: int)
    ensures AtInstant(InsertByTime(a, sorted), t) == AtInstant([a] + sorted, t)
  {
    assert ([a] + sorted)[1..] == sorted;
    if sorted != [] && a.assertedAt > sorted[0].assertedAt {
      InsertKeepsTies(a, sorted[1..], t);
      assert ([a] + sorted[1..])[1..] == sorted[1..];
      var inserted := [sorted[0]] + InsertByTime(a, sorted[1..]);
      assert inserted[1..] == InsertByTime(a, sorted[1..]);
    }
  }

  // Assertions made at one instant are judged in the order they were listed in.
  lemma {:induction false} TiesKeepTheirOrder(listed: seq<Assertion>, t: int)
    ensures AtInstant(InWireOrder(listed), t) == AtInstant(listed, t)
  {
    if listed != [] {
      TiesKeepTheirOrder(listed[1..], t);
      InsertKeepsTies(listed[0], InWireOrder(listed[1..]), t);
      assert ([listed[0]] + InWireOrder(listed[1..]))[1..] == InWireOrder(listed[1..]);
    }
  }

  ghost predicate SameTies(x: seq<Assertion>, y: seq<Assertion>) {
    forall t :: AtInstant(x, t) == AtInstant(y, t)
  }

  lemma {:induction false} AtInstantIsFrom(x: seq<Assertion>, t: int)
    ensures forall a :: a in AtInstant(x, t) ==> a in x && a.assertedAt == t
    ensures AtInstant(x, t) == [] <==> forall a :: a in x ==> a.assertedAt != t
  {
    if x != [] {
      AtInstantIsFrom(x[1..], t);
      assert x == [x[0]] + x[1..];
    }
  }

  lemma TieFirst(x: seq<Assertion>)
    requires x != []
    ensures AtInstant(x, x[0].assertedAt) == [x[0]] + AtInstant(x[1..], x[0].assertedAt)
  {
  }

  lemma SameTiesSameFirst(x: seq<Assertion>, y: seq<Assertion>)
    requires ByTime(x) && SameTies(x, y)
    ensures y != [] ==> x != [] && x[0].assertedAt <= y[0].assertedAt
  {
    if y != [] {
      var u := y[0].assertedAt;
      var ties := AtInstant(x, u);
      TieFirst(y);
      assert ties == AtInstant(y, u);
      AtInstantIsFrom(x, u);
      assert ties[0] in x;
      var j :| 0 <= j < |x| && x[j] == ties[0];
    }
  }

  // A list in the order of its instants is told by its ties.
  lemma {:induction false} TiesTell(x: seq<Assertion>, y: seq<Assertion>)
    requires ByTime(x) && ByTime(y) && SameTies(x, y)
    ensures x == y
    decreases |x|
  {
    SameTiesSameFirst(x, y);
    SameTiesSameFirst(y, x);
    if x != [] {
      TieFirst(x);
      TieFirst(y);
      var ties := AtInstant(x, x[0].assertedAt);
      assert ties == AtInstant(y, x[0].assertedAt);
      assert x[0] == ties[0] == y[0];
      TailTies(x, y);
      TiesTell(x[1..], y[1..]);
      assert x == [x[0]] + x[1..] && y == [y[0]] + y[1..];
    }
  }

  lemma TailTies(x: seq<Assertion>, y: seq<Assertion>)
    requires x != [] && y != [] && x[0] == y[0] && SameTies(x, y)
    ensures SameTies(x[1..], y[1..])
  {
    forall t
      ensures AtInstant(x[1..], t) == AtInstant(y[1..], t)
    {
      var head := if x[0].assertedAt == t then [x[0]] else [];
      assert AtInstant(x, t) == AtInstant(y, t);
      assert AtInstant(x[1..], t) == AtInstant(x, t)[|head|..];
      assert AtInstant(y[1..], t) == AtInstant(y, t)[|head|..];
    }
  }

  lemma {:induction false} NotHeldOfTies(local: seq<Assertion>, listed: seq<Assertion>, t: int)
    ensures AtInstant(NotHeld(local, listed), t) == NotHeld(local, AtInstant(listed, t))
  {
    if listed != [] {
      NotHeldOfTies(local, listed[1..], t);
      var a, rest := listed[0], NotHeld(local, listed[1..]);
      assert ([a] + rest)[1..] == rest && [] + rest == rest;
      var more := AtInstant(listed[1..], t);
      assert ([a] + more)[1..] == more && [] + more == more;
    }
  }

  ghost predicate DistinctSigs(chain: seq<Assertion>) {
    forall i, j :: 0 <= i < j < |chain| ==> chain[i].sig != chain[j].sig
  }

  lemma {:induction false} HeldIsDropped(local: seq<Assertion>, known: seq<Assertion>, rest: seq<Assertion>)
    requires (forall a :: a in known ==> HoldsSig(local, a.sig)) && forall a :: a in rest ==> !HoldsSig(local, a.sig)
    ensures NotHeld(local, known + rest) == rest
    decreases |known| + |rest|
  {
    if known != [] {
      assert (known + rest)[1..] == known[1..] + rest;
      assert known[0] in known;
      HeldIsDropped(local, known[1..], rest);
    } else if rest != [] {
      assert known + rest == rest && known + rest[1..] == rest[1..];
      assert rest[0] in rest;
      HeldIsDropped(local, known, rest[1..]);
    }
  }

  lemma RestIsNews(local: seq<Assertion>, rest: seq<Assertion>)
    requires DistinctSigs(local + rest)
    ensures NotHeld(local, local + rest) == rest
  {
    forall a | a in local
      ensures HoldsSig(local, a.sig)
    {
      var i :| 0 <= i < |local| && local[i] == a;
    }
    forall a | a in rest
      ensures !HoldsSig(local, a.sig)
    {
      var j :| 0 <= j < |rest| && rest[j] == a;
      assert a == (local + rest)[|local| + j];
      assert forall i :: 0 <= i < |local| ==> local[i] == (local + rest)[i];
    }
    HeldIsDropped(local, local, rest);
  }

  // What is judged is exactly the news, in the order of the instants and of the list within one instant.
  lemma NewsInOrder(local: seq<Assertion>, rest: seq<Assertion>, listed: seq<Assertion>)
    requires DistinctSigs(local + rest) && ByTime(rest) && SameTies(listed, local + rest)
    ensures Incoming(local, listed) == rest
  {
    var news := NotHeld(local, listed);
    forall t
      ensures AtInstant(InWireOrder(news), t) == AtInstant(rest, t)
    {
      TiesKeepTheirOrder(news, t);
      NotHeldOfTies(local, listed, t);
      NotHeldOfTies(local, local + rest, t);
      RestIsNews(local, rest);
      assert AtInstant(listed, t) == AtInstant(local + rest, t);
    }
    InWireOrderSorts(news);
    TiesTell(InWireOrder(news), rest);
  }

  lemma {:induction false} AllAccepted<S>(step: Table<S, Assertion>, s: S, chain: seq<Assertion>)
    requires forall i :: 0 <= i < |chain| ==> Outcomes(step, s, chain)[i]
    ensures Accepted(step, s, chain) == chain
    decreases |chain|
  {
    if chain != [] {
      var more := Outcomes(step, Next(step, s, chain[0]), chain[1..]);
      assert Outcomes(step, s, chain)[0];
      forall i | 0 <= i < |chain[1..]|
        ensures more[i]
      {
        assert more[i] == Outcomes(step, s, chain)[i + 1];
      }
      AllAccepted(step, Next(step, s, chain[0]), chain[1..]);
    }
  }

  // The table accepts the rest of the chain after this part of it.
  ghost predicate Stands<S>(court: Court<S>, edge: Edge, local: seq<Assertion>, rest: seq<Assertion>) {
    var step := court.table(edge);
    forall i :: |local| <= i < |local + rest| ==> Outcomes(step, court.init, local + rest)[i]
  }

  // Whoever holds the first part of a chain and is sent the chain whole, in any order that keeps assertions of
  // one instant in theirs, stores the rest of it as it stands.
  lemma HonestChainArrives<S>(court: Court<S>, edge: Edge, local: seq<Assertion>, rest: seq<Assertion>,
                              listed: seq<Assertion>)
    requires DistinctSigs(local + rest) && ByTime(rest) && SameTies(listed, local + rest)
    requires Stands(court, edge, local, rest)
    ensures Stored(court, edge, local, listed) == rest
  {
    var step := court.table(edge);
    var s := Final(step, court.init, local);
    NewsInOrder(local, rest, listed);
    FinalOfConcat(step, court.init, local, rest);
    forall i | 0 <= i < |rest|
      ensures Outcomes(step, s, rest)[i]
    {
      assert Outcomes(step, s, rest)[i] == Outcomes(step, court.init, local + rest)[|local| + i];
    }
    AllAccepted(step, s, rest);
  }

  // ---------------------------------------------------------------- hearing it again

  function Rounds<S>(court: Court<S>, edge: Edge, local: seq<Assertion>, listed: seq<Assertion>, n: nat): seq<Assertion>
    decreases n
  {
    if n == 0 then local
    else
      var before := Rounds(court, edge, local, listed, n - 1);
      before + Stored(court, edge, before, listed)
  }

  lemma {:induction false} NotHeldShrinks(local: seq<Assertion>, more: seq<Assertion>, listed: seq<Assertion>)
    ensures |NotHeld(local + more, listed)| <= |NotHeld(local, listed)| <= |listed|
    ensures (exists a :: a in more && a in NotHeld(local, listed)) ==>
              |NotHeld(local + more, listed)| < |NotHeld(local, listed)|
  {
    if listed != [] {
      NotHeldShrinks(local, more, listed[1..]);
      var a := listed[0];
      if HoldsSig(local, a.sig) {
        var i :| 0 <= i < |local| && local[i].sig == a.sig;
        assert (local + more)[i].sig == a.sig;
      }
      if a in more {
        var i :| 0 <= i < |more| && more[i] == a;
        assert (local + more)[|local| + i].sig == a.sig;
      }
    }
  }

  lemma StoredIsNew<S>(court: Court<S>, edge: Edge, local: seq<Assertion>, listed: seq<Assertion>)
    ensures forall a :: a in Stored(court, edge, local, listed) ==> a in NotHeld(local, listed)
  {
    var step := court.table(edge);
    AcceptedIsFrom(step, Final(step, court.init, local), Incoming(local, listed));
    InWireOrderSorts(NotHeld(local, listed));
    forall a | a in Stored(court, edge, local, listed)
      ensures a in NotHeld(local, listed)
    {
      assert a in multiset(Incoming(local, listed));
    }
  }

  // A round that stores anything leaves fewer of the response's assertions unheld.
  lemma StoringShrinks<S>(court: Court<S>, edge: Edge, before: seq<Assertion>, stored: seq<Assertion>,
                          listed: seq<Assertion>)
    requires stored == Stored(court, edge, before, listed) && stored != []
    ensures |NotHeld(before + stored, listed)| < |NotHeld(before, listed)|
  {
    StoredIsNew(court, edge, before, listed);
    assert stored[0] in stored;
    NotHeldShrinks(before, stored, listed);
  }

  lemma NothingNewNothingStored<S>(court: Court<S>, edge: Edge, chain: seq<Assertion>, listed: seq<Assertion>)
    ensures NotHeld(chain, listed) == [] ==> Stored(court, edge, chain, listed) == []
  {
    StoredIsNew(court, edge, chain, listed);
    var stored := Stored(court, edge, chain, listed);
    assert stored == [] || stored[0] in stored;
  }

  lemma {:induction false} RoundsSettle<S>(court: Court<S>, edge: Edge, local: seq<Assertion>, listed: seq<Assertion>,
                                           n: nat, chain: seq<Assertion>)
    requires chain == Rounds(court, edge, local, listed, n)
    ensures Stored(court, edge, chain, listed) == [] || |NotHeld(chain, listed)| + n <= |listed|
    decreases n
  {
    if n == 0 {
      NotHeldShrinks(local, [], listed);
    } else {
      var before := Rounds(court, edge, local, listed, n - 1);
      var stored := Stored(court, edge, before, listed);
      RoundsSettle(court, edge, local, listed, n - 1, before);
      if stored == [] {
        assert before + stored == before;
      } else {
        StoringShrinks(court, edge, before, stored, listed);
      }
    }
  }

  // Applied as many times as it lists assertions, a response has nothing more to store.
  lemma RepeatingSettles<S>(court: Court<S>, edge: Edge, local: seq<Assertion>, listed: seq<Assertion>, n: nat)
    requires n >= |listed|
    ensures Rounds(court, edge, local, listed, n + 1) == Rounds(court, edge, local, listed, n)
  {
    var chain := Rounds(court, edge, local, listed, n);
    RoundsSettle(court, edge, local, listed, n, chain);
    NothingNewNothingStored(court, edge, chain, listed);
    var stored := Stored(court, edge, chain, listed);
    assert |NotHeld(chain, listed)| == 0 ==> NotHeld(chain, listed) == [];
    assert stored == [];
    assert chain + stored == chain;
  }

  // ---------------------------------------------------------------- the hash two nodes compare

  predicate Ordered(s: seq<string>) {
    forall i, j :: 0 <= i < j < |s| ==> Leq(s[i], s[j])
  }

  lemma {:induction false} LeqTotal(a: string, b: string)
    ensures Leq(a, b) || Leq(b, a)
    decreases |a|
  {
    if a != "" && b != "" && a[0] == b[0] {
      LeqTotal(a[1..], b[1..]);
    }
  }

  lemma {:induction false} LeqAntisymmetric(a: string, b: string)
    requires Leq(a, b) && Leq(b, a)
    ensures a == b
    decreases |a|
  {
    if a != "" {
      LeqAntisymmetric(a[1..], b[1..]);
      assert a == [a[0]] + a[1..] && b == [b[0]] + b[1..];
    }
  }

  lemma {:induction false} LeqTransitive(a: string, b: string, c: string)
    requires Leq(a, b) && Leq(b, c)
    ensures Leq(a, c)
    decreases |a|
  {
    if a != "" && a[0] == b[0] == c[0] {
      LeqTransitive(a[1..], b[1..], c[1..]);
    }
  }

  lemma {:induction false} InsertStringPermutes(x: string, sorted: seq<string>)
    ensures multiset(InsertString(x, sorted)) == multiset{x} + multiset(sorted)
  {
    if sorted != [] && !Leq(x, sorted[0]) {
      InsertStringPermutes(x, sorted[1..]);
      assert sorted == [sorted[0]] + sorted[1..];
    }
  }

  lemma LeastFirst(sorted: seq<string>)
    requires Ordered(sorted) && sorted != []
    ensures Ordered(sorted[1..])
    ensures forall b :: b in multiset(sorted) ==> Leq(sorted[0], b)
  {
    LeqTotal(sorted[0], sorted[0]);
    forall b | b in multiset(sorted)
      ensures Leq(sorted[0], b)
    {
      assert b in sorted;
    }
  }

  lemma PrependLeast(x: string, sorted: seq<string>)
    requires Ordered(sorted) && forall b :: b in multiset(sorted) ==> Leq(x, b)
    ensures Ordered([x] + sorted)
  {
    forall i, j | 0 <= i < j < |[x] + sorted|
      ensures Leq(([x] + sorted)[i], ([x] + sorted)[j])
    {
      assert ([x] + sorted)[j] == sorted[j - 1] && sorted[j - 1] in multiset(sorted);
    }
  }

  lemma {:induction false} InsertStringOrders(x: string, sorted: seq<string>)
    requires Ordered(sorted)
    ensures Ordered(InsertString(x, sorted))
  {
    if sorted == [] {
    } else {
      LeastFirst(sorted);
      LeqTotal(x, sorted[0]);
      if Leq(x, sorted[0]) {
        forall b | b in multiset(sorted)
          ensures Leq(x, b)
        {
          LeqTransitive(x, sorted[0], b);
        }
        PrependLeast(x, sorted);
      } else {
        InsertStringOrders(x, sorted[1..]);
        InsertStringPermutes(x, sorted[1..]);
        assert sorted == [sorted[0]] + sorted[1..];
        PrependLeast(sorted[0], InsertString(x, sorted[1..]));
      }
    }
  }

  lemma {:induction false} SortStringsSorts(s: seq<string>)
    ensures Ordered(SortStrings(s)) && multiset(SortStrings(s)) == multiset(s)
  {
    if s != [] {
      SortStringsSorts(s[1..]);
      InsertStringOrders(s[0], SortStrings(s[1..]));
      InsertStringPermutes(s[0], SortStrings(s[1..]));
      assert s == [s[0]] + s[1..];
    }
  }

  lemma {:induction false} OrderedIsUnique(x: seq<string>, y: seq<string>)
    requires Ordered(x) && Ordered(y) && multiset(x) == multiset(y)
    ensures x == y
  {
    assert |multiset(x)| == |x| && |multiset(y)| == |y|;
    if x != [] {
      LeastFirst(x);
      LeastFirst(y);
      assert x[0] in multiset(y) && y[0] in multiset(x);
      LeqAntisymmetric(x[0], y[0]);
      TailsMatch(x, y);
      OrderedIsUnique(x[1..], y[1..]);
      assert x == [x[0]] + x[1..] && y == [y[0]] + y[1..];
    }
  }

  // Two nodes compute the same hash exactly when they hold the same signatures, in whatever order they hold them.
  lemma SameHashIffSameSigs(digest: ChainDigest, empty: string, x: seq<Assertion>, y: seq<Assertion>)
    requires FaithfulDigest(digest, empty)
    ensures LatestAssertionHash(digest, empty, x) == LatestAssertionHash(digest, empty, y)
            <==> multiset(Sigs(x)) == multiset(Sigs(y))
  {
    SortStringsSorts(Sigs(x));
    SortStringsSorts(Sigs(y));
    assert |multiset(Sigs(x))| == |Sigs(x)| && |multiset(Sigs(y))| == |Sigs(y)|;
    if multiset(Sigs(x)) == multiset(Sigs(y)) {
      OrderedIsUnique(SortStrings(Sigs(x)), SortStrings(Sigs(y)));
    }
  }

  // The all-zero hash means an empty chain, and any other is the digest of the signatures in order.
  lemma HashIs(digest: ChainDigest, empty: string, chain: seq<Assertion>)
    requires FaithfulDigest(digest, empty)
    ensures LatestAssertionHash(digest, empty, chain) == empty <==> chain == []
    ensures chain != [] ==>
              exists sigs :: LatestAssertionHash(digest, empty, chain) == digest(sigs) && InTextOrder(sigs) &&
                             multiset(sigs) == multiset(Sigs(chain))
  {
    var sigs := SortStrings(Sigs(chain));
    SortStringsSorts(Sigs(chain));
    forall i, j | 0 <= i < j < |sigs|
      ensures sigs[i] == sigs[j] || ComesFirst(sigs[i], sigs[j])
    {
      LeqComesFirst(sigs[i], sigs[j]);
    }
    assert chain != [] ==> LatestAssertionHash(digest, empty, chain) == digest(sigs);
  }

  // Asked with the hash of a chain, a node answers exactly about an edge it holds and may serve of which its own
  // signatures are others.
  lemma AnswersIff(edges: map<string, Edge>, chains: map<string, seq<Assertion>>, mayServe: Edge -> bool,
                   digest: ChainDigest, empty: string, id: string, theirs: seq<Assertion>)
    requires FaithfulDigest(digest, empty)
    ensures Diverges(edges, chains, mayServe, digest, empty,
                     EdgeRef(id, LatestAssertionHash(digest, empty, theirs))) <==>
            id in edges && mayServe(edges[id]) && multiset(Sigs(Held(chains, id))) != multiset(Sigs(theirs))
  {
    SameHashIffSameSigs(digest, empty, Held(chains, id), theirs);
  }

  // By the first character in which they differ, and a beginning comes before what it begins.
  ghost predicate ComesFirst(a: string, b: string) {
    exists n :: 0 <= n <= |a| && n <= |b| && a[..n] == b[..n] && DiffersAt(a, b, n)
  }

  predicate DiffersAt(a: string, b: string, n: nat)
    requires n <= |a| && n <= |b|
  {
    n < |b| && (n == |a| || a[n] < b[n])
  }

  ghost predicate InTextOrder(s: seq<string>) {
    forall i, j :: 0 <= i < j < |s| ==> s[i] == s[j] || ComesFirst(s[i], s[j])
  }

  lemma {:induction false} LeqComesFirst(a: string, b: string)
    requires Leq(a, b)
    ensures a == b || ComesFirst(a, b)
  {
    if a == "" || a[0] != b[0] {
      assert a[..0] == b[..0];
      assert a != b ==> DiffersAt(a, b, 0);
    } else {
      LeqComesFirst(a[1..], b[1..]);
      assert a == [a[0]] + a[1..] && b == [b[0]] + b[1..];
      if a != b {
        var n :| 0 <= n <= |a[1..]| && n <= |b[1..]| && a[1..][..n] == b[1..][..n] && DiffersAt(a[1..], b[1..], n);
        assert a[..n + 1] == [a[0]] + a[1..][..n] && b[..n + 1] == [b[0]] + b[1..][..n];
        assert DiffersAt(a, b, n + 1);
      }
    }
  }
}
