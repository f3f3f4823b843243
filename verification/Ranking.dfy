/**
 * The attention order: packages/node/src/ranking.ts, and the brief of packages/node/src/node.ts that
 * is cut from it. Instants are milliseconds; ages and scores are real numbers.
 */
module Ranking {
  import opened Prelude

  datatype Kind = EdgeKey | CommitmentKey | ExpectationKey

  // What the vault gives for ordering: no content.
  datatype Key = Key(kind: Kind, persona: string, id: string, since: int, due: Option<int>, blocking: nat)

  const UNDATED: int := 0
  const DUE_SOON: int := 1
  const OVERDUE: int := 2
  const HORIZON_DAYS: real := 14.0
  const BAND_STRIDE: real := 1_000_000_000.0

  datatype Rank = Rank(band: int, weight: real, score: real)

  function Days(ms: int): real {
    ms as real / 86_400_000.0
  }

  function Band(b: int, weight: real): Rank {
    var floored := if weight < 0.0 then 0.0 else weight;
    var clamped := if floored > BAND_STRIDE - 1.0 then BAND_STRIDE - 1.0 else floored;
    Rank(b, clamped, b as real * BAND_STRIDE + clamped)
  }

  // Overdue from the instant after the due date, due soon within the horizon, and undated otherwise.
  function BandOf(item: Key, now: int): int {
    if item.due.None? then UNDATED
    else if Days(item.due.value - now) < 0.0 then OVERDUE
    else if Days(item.due.value - now) <= HORIZON_DAYS then DUE_SOON
    else UNDATED
  }

  // Days overdue, days into the horizon, or age in days.
  function Pressure(item: Key, now: int): real {
    if BandOf(item, now) == OVERDUE && item.due.Some? then -Days(item.due.value - now)
    else if BandOf(item, now) == DUE_SOON && item.due.Some? then HORIZON_DAYS - Days(item.due.value - now)
    else if Days(now - item.since) < 0.0 then 0.0
    else Days(now - item.since)
  }

  function RankOf(item: Key, now: int): Rank {
    Band(BandOf(item, now), Pressure(item, now) * (1 + item.blocking) as real)
  }

  // ---------------------------------------------------------------- what the score means

  lemma BandFirst(b: int, x: real, c: int, y: real)
    ensures var r, s := Band(b, x), Band(c, y);
      r.score > s.score <==> b > c || (b == c && r.weight > s.weight)
  {
    assert b > c ==> b as real >= c as real + 1.0;
    assert b < c ==> b as real + 1.0 <= c as real;
  }

  // A score is its band first and its weight within the band second, for any ages and counts.
  lemma ScoreIsBandThenWeight(x: Key, y: Key, now: int)
    ensures var r, s := RankOf(x, now), RankOf(y, now);
      r.score > s.score <==> r.band > s.band || (r.band == s.band && r.weight > s.weight)
  {
    BandFirst(BandOf(x, now), Pressure(x, now) * (1 + x.blocking) as real,
              BandOf(y, now), Pressure(y, now) * (1 + y.blocking) as real);
  }

  // Which band an item is in is settled by its due date alone, and without one no age moves it.
  lemma BandIsByDueDate(x: Key, now: int)
    ensures RankOf(x, now).band == OVERDUE <==> x.due.Some? && x.due.value < now
    ensures RankOf(x, now).band == DUE_SOON <==> x.due.Some? && now <= x.due.value <= now + 14 * 86_400_000
    ensures x.due.None? ==> 0.0 <= RankOf(x, now).score < BAND_STRIDE
  {
    var weight := Pressure(x, now) * (1 + x.blocking) as real;
    assert 0.0 <= Band(UNDATED, weight).score < BAND_STRIDE;
  }

  lemma TimesKeepsOrder(x: real, y: real, k: real)
    requires x <= y && 0.0 <= k
    ensures x * k <= y * k
  {
    assert (y - x) * k >= 0.0;
  }

  lemma BandsGrow(b: int, x: real, c: int, y: real)
    requires b < c || (b == c && x <= y)
    ensures Band(b, x).score <= Band(c, y).score
  {
    BandFirst(c, y, b, x);
  }

  lemma PressureGrows(item: Key, now: int, later: int)
    requires now <= later
    ensures BandOf(item, now) <= BandOf(item, later)
    ensures BandOf(item, now) == BandOf(item, later) ==> Pressure(item, now) <= Pressure(item, later)
  {
  }

  lemma ScoresGrow(b: int, p: real, c: int, q: real, factor: real)
    requires b < c || (b == c && p <= q)
    requires 0.0 <= factor
    ensures Band(b, p * factor).score <= Band(c, q * factor).score
  {
    if b == c {
      TimesKeepsOrder(p, q, factor);
    }
    BandsGrow(b, p * factor, c, q * factor);
  }

  // As time passes an item's score never goes down.
  lemma ScoreNeverFalls(item: Key, now: int, later: int)
    requires now <= later
    ensures RankOf(item, now).score <= RankOf(item, later).score
  {
    var b, c, p, q := BandOf(item, now), BandOf(item, later), Pressure(item, now), Pressure(item, later);
    var factor := (1 + item.blocking) as real;
    PressureGrows(item, now, later);
    ScoresGrow(b, p, c, q, factor);
    ScoreIs(item, now, b, p, factor);
    ScoreIs(item, later, c, q, factor);
  }

  lemma ScoreIs(item: Key, now: int, b: int, p: real, factor: real)
    requires b == BandOf(item, now) && p == Pressure(item, now) && factor == (1 + item.blocking) as real
    ensures RankOf(item, now).score == Band(b, p * factor).score
  {
  }

  // What presses, in milliseconds: time past the due date, time into the last fourteen days before it, or age.
  function Ms(item: Key, now: int): nat {
    match BandOf(item, now)
    case 2 => if item.due.Some? then Max(0, now - item.due.value) else 0
    case 1 => if item.due.Some? then Max(0, 14 * 86_400_000 - (item.due.value - now)) else 0
    case _ => Max(0, now - item.since)
  }

  // Short of the bound a weight is cut off at, a thousand million days.
  predicate Uncut(item: Key, now: int) {
    Ms(item, now) * (1 + item.blocking) <= 999_999_999 * 86_400_000
  }

  lemma PressureIsMs(item: Key, now: int)
    ensures Pressure(item, now) == Ms(item, now) as real / 86_400_000.0
  {
  }

  lemma WeightIsMs(ms: nat, blocking: nat, pressure: real, b: int)
    requires pressure == ms as real / 86_400_000.0
    ensures ms * (1 + blocking) <= 999_999_999 * 86_400_000 ==>
              Band(b, pressure * (1 + blocking) as real).weight == (ms * (1 + blocking)) as real / 86_400_000.0
    ensures ms * (1 + blocking) > 999_999_999 * 86_400_000 ==>
              Band(b, pressure * (1 + blocking) as real).weight == 999_999_999.0
  {
    ProductOfReals(ms, 1 + blocking);
    var product := (ms * (1 + blocking)) as real;
    assert pressure * (1 + blocking) as real == product / 86_400_000.0;
  }

  lemma ProductOfReals(x: nat, y: nat)
    ensures (x * y) as real == x as real * y as real
  {
    if y > 0 {
      ProductOfReals(x, y - 1);
      assert x * y == x * (y - 1) + x;
      assert x as real * y as real == x as real * (y - 1) as real + x as real;
    }
  }

  function Weighed(item: Key, now: int): nat {
    Ms(item, now) * (1 + item.blocking)
  }

  lemma ItemWeighs(item: Key, now: int, weighed: nat)
    requires weighed == Weighed(item, now)
    ensures Uncut(item, now) ==> RankOf(item, now).weight == weighed as real / 86_400_000.0
    ensures !Uncut(item, now) ==> RankOf(item, now).weight == 999_999_999.0
  {
    PressureIsMs(item, now);
    WeightIsMs(Ms(item, now), item.blocking, Pressure(item, now), BandOf(item, now));
  }

  lemma DividedAlike(x: nat, y: nat)
    ensures x as real / 86_400_000.0 > y as real / 86_400_000.0 <==> x > y
  {
  }

  // Within a band, of two items short of the bound the one that presses longer, counted once for itself and
  // once for each that waits on it, has the higher score.
  lemma ScoreIsByPressure(x: Key, y: Key, now: int)
    requires BandOf(x, now) == BandOf(y, now) && Uncut(x, now) && Uncut(y, now)
    ensures RankOf(x, now).score > RankOf(y, now).score <==>
            Ms(x, now) * (1 + x.blocking) > Ms(y, now) * (1 + y.blocking)
  {
    var p, q := Weighed(x, now), Weighed(y, now);
    ItemWeighs(x, now, p);
    ItemWeighs(y, now, q);
    DividedAlike(p, q);
    ScoreIsBandThenWeight(x, y, now);
  }

  // Past the bound all weigh alike.
  lemma CutWeighAlike(x: Key, now: int)
    requires !Uncut(x, now)
    ensures RankOf(x, now).score == RankOf(x, now).band as real * 1_000_000_000.0 + 999_999_999.0
  {
    ItemWeighs(x, now, Weighed(x, now));
  }

  // ---------------------------------------------------------------- the brief

  type Score = Key -> real

  function Insert(item: Key, sorted: seq<Key>, score: Score): seq<Key> {
    if sorted == [] || score(item) >= score(sorted[0]) then [item] + sorted
    else [sorted[0]] + Insert(item, sorted[1..], score)
  }

  // A stable sort, the highest score first.
  function SortedBy(items: seq<Key>, score: Score): seq<Key> {
    if items == [] then [] else Insert(items[0], SortedBy(items[1..], score), score)
  }

  function ScoreAt(now: int): Score {
    (item: Key) => RankOf(item, now).score
  }

  function Ranked(items: seq<Key>, now: int): seq<Key> {
    SortedBy(items, ScoreAt(now))
  }

  type Hashes = string -> set<string>

  // A commitment already proposed is in the vault twice; the edge built from it stands for both.
  predicate Superseded(hashes: Hashes, item: Key) {
    item.kind.CommitmentKey? && item.id in hashes(item.persona)
  }

  function Remaining(hashes: Hashes, items: seq<Key>): seq<Key> {
    if items == [] then []
    else (if Superseded(hashes, items[0]) then [] else [items[0]]) + Remaining(hashes, items[1..])
  }

  datatype Slot = Slot(key: Key, headline: string)

  type Reader = Key -> Option<string>

  // The slots that could be filled, in the order they were won.
  function Filled(read: Reader, chosen: seq<Key>): seq<Slot> {
    if chosen == [] then []
    else
      (match read(chosen[0]) case Some(headline) => [Slot(chosen[0], headline)] case None => []) +
      Filled(read, chosen[1..])
  }

  lemma RemainingFrom(hashes: Hashes, all: seq<Key>, i: nat, superseded: bool, kept: seq<Key>, rest: seq<Key>)
    requires i < |all| && superseded == Superseded(hashes, all[i]) && rest == Remaining(hashes, all[i + 1..])
    ensures kept + Remaining(hashes, all[i..]) == (if superseded then kept else kept + [all[i]]) + rest
  {
    assert all[i..][0] == all[i] && all[i..][1..] == all[i + 1..];
    assert superseded ==> [] + rest == rest;
    assert kept + ([all[i]] + rest) == (kept + [all[i]]) + rest;
  }

  method DropSuperseded(all: seq<Key>, hashes: Hashes) returns (kept: seq<Key>)
    ensures kept == Remaining(hashes, all)
  {
    kept := [];
    // The hashes of each persona's edges, read once.
    var withEdges: map<string, set<string>> := map[];
    ghost var whole, left := Remaining(hashes, all), Remaining(hashes, all);
    assert all[0..] == all;
    for i := 0 to |all|
      invariant forall p :: p in withEdges ==> withEdges[p] == hashes(p)
      invariant left == Remaining(hashes, all[i..]) && kept + left == whole
    {
      var item := all[i];
      var superseded := false;
      if item.kind.CommitmentKey? {
        if item.persona !in withEdges {
          withEdges := withEdges[item.persona := hashes(item.persona)];
        }
        superseded := item.id in withEdges[item.persona];
      }
      ghost var rest := Remaining(hashes, all[i + 1..]);
      assert superseded == Superseded(hashes, item);
      RemainingFrom(hashes, all, i, superseded, kept, rest);
      left := rest;
      if !superseded {
        kept := kept + [item];
      }
    }
  }

  lemma FilledOn(read: Reader, chosen: seq<Key>, i: nat, slots: seq<Slot>, rest: seq<Slot>)
    requires i < |chosen| && rest == Filled(read, chosen[i + 1..])
    ensures slots + Filled(read, chosen[i..]) ==
            (match read(chosen[i]) case Some(headline) => slots + [Slot(chosen[i], headline)] case None => slots) + rest
  {
    assert chosen[i..][0] == chosen[i] && chosen[i..][1..] == chosen[i + 1..];
    match read(chosen[i])
    case None => assert [] + rest == rest;
    case Some(headline) =>
      var slot := [Slot(chosen[i], headline)];
      assert slots + (slot + rest) == (slots + slot) + rest;
  }

  method FillSlots(read: Reader, chosen: seq<Key>) returns (slots: seq<Slot>)
    ensures slots == Filled(read, chosen) && |slots| <= |chosen|
  {
    slots := [];
    ghost var whole, left := Filled(read, chosen), Filled(read, chosen);
    assert chosen[0..] == chosen;
    for i := 0 to |chosen|
      invariant |slots| <= i
      invariant left == Filled(read, chosen[i..]) && slots + left == whole
    {
      ghost var rest := Filled(read, chosen[i + 1..]);
      FilledOn(read, chosen, i, slots, rest);
      left := rest;
      var headline := read(chosen[i]);
      if headline.Some? {
        slots := slots + [Slot(chosen[i], headline.value)];
      }
    }
  }

  method Brief(all: seq<Key>, hashes: Hashes, read: Reader, briefSlots: nat, now: int)
    returns (slots: seq<Slot>, belowTheLine: nat)
    ensures var ranked := Ranked(Remaining(hashes, all), now);
      && slots == Filled(read, ranked[..Min(briefSlots, |ranked|)])
      && |slots| + belowTheLine == |Remaining(hashes, all)|
  {
    var kept := DropSuperseded(all, hashes);
    var ranked := Ranked(kept, now);
    SortedByCounts(kept, ScoreAt(now), ranked);
    slots := FillSlots(read, ranked[..Min(briefSlots, |ranked|)]);
    belowTheLine := Max(0, |ranked| - |slots|);
  }

  lemma SortedByCounts(items: seq<Key>, score: Score, sorted: seq<Key>)
    requires sorted == SortedBy(items, score)
    ensures |sorted| == |items|
  {
    SortedBySorts(items, score);
    assert |multiset(sorted)| == |sorted| && |multiset(items)| == |items|;
  }

  // ---------------------------------------------------------------- what a brief shows

  ghost predicate Descending(items: seq<Key>, score: Score) {
    forall i, j :: 0 <= i < j < |items| ==> score(items[i]) >= score(items[j])
  }

  lemma Prepend(item: Key, sorted: seq<Key>, score: Score)
    requires Descending(sorted, score)
    requires forall x :: x in multiset(sorted) ==> score(item) >= score(x)
    ensures Descending([item] + sorted, score)
  {
    forall i, j | 0 <= i < j < |[item] + sorted|
      ensures score(([item] + sorted)[i]) >= score(([item] + sorted)[j])
    {
      assert ([item] + sorted)[j] == sorted[j - 1] && sorted[j - 1] in multiset(sorted);
    }
  }

  lemma HighestFirst(sorted: seq<Key>, score: Score)
    requires Descending(sorted, score) && sorted != []
    ensures Descending(sorted[1..], score)
    ensures forall x :: x in multiset(sorted) ==> score(sorted[0]) >= score(x)
  {
    forall x | x in multiset(sorted)
      ensures score(sorted[0]) >= score(x)
    {
      assert x in sorted;
    }
  }

  lemma {:induction false} InsertPermutes(item: Key, sorted: seq<Key>, score: Score)
    ensures multiset(Insert(item, sorted, score)) == multiset{item} + multiset(sorted)
  {
    if sorted != [] && score(item) < score(sorted[0]) {
      InsertPermutes(item, sorted[1..], score);
      assert sorted == [sorted[0]] + sorted[1..];
    }
  }

  lemma StaysHighest(head: Key, tail: seq<Key>, item: Key, inserted: seq<Key>, score: Score)
    requires score(item) <= score(head) && multiset(inserted) == multiset{item} + multiset(tail)
    requires forall x :: x in multiset([head] + tail) ==> score(head) >= score(x)
    ensures forall x :: x in multiset(inserted) ==> score(head) >= score(x)
  {
    forall x | x in multiset(inserted)
      ensures score(head) >= score(x)
    {
      assert x == item || x in multiset([head] + tail);
    }
  }

  lemma {:induction false} InsertSorts(item: Key, sorted: seq<Key>, score: Score)
    requires Descending(sorted, score)
    ensures Descending(Insert(item, sorted, score), score)
  {
    if sorted == [] {
    } else {
      HighestFirst(sorted, score);
      if score(item) >= score(sorted[0]) {
        Prepend(item, sorted, score);
      } else {
        var inserted := Insert(item, sorted[1..], score);
        InsertSorts(item, sorted[1..], score);
        InsertPermutes(item, sorted[1..], score);
        StaysHighest(sorted[0], sorted[1..], item, inserted, score);
        Prepend(sorted[0], inserted, score);
      }
    }
  }

  lemma {:induction false} SortedBySorts(items: seq<Key>, score: Score)
    ensures Descending(SortedBy(items, score), score) && multiset(SortedBy(items, score)) == multiset(items)
  {
    if items != [] {
      SortedBySorts(items[1..], score);
      InsertSorts(items[0], SortedBy(items[1..], score), score);
      InsertPermutes(items[0], SortedBy(items[1..], score), score);
      assert items == [items[0]] + items[1..];
    }
  }

  function WithScore(items: seq<Key>, score: Score, v: real): seq<Key> {
    if items == [] then []
    else (if score(items[0]) == v then [items[0]] else []) + WithScore(items[1..], score, v)
  }

  lemma {:induction false} InsertKeepsTies(item: Key, sorted: seq<Key>, score: Score, v: real)
    ensures WithScore(Insert(item, sorted, score), score, v) == WithScore([item] + sorted, score, v)
  {
    assert ([item] + sorted)[1..] == sorted;
    if sorted != [] && score(item) < score(sorted[0]) {
      InsertKeepsTies(item, sorted[1..], score, v);
      assert ([item] + sorted[1..])[1..] == sorted[1..];
      assert ([sorted[0]] + Insert(item, sorted[1..], score))[1..] == Insert(item, sorted[1..], score);
    }
  }

  // Items with one score stay in the order they are listed in.
  lemma {:induction false} TiesKeepTheirOrder(items: seq<Key>, score: Score, v: real)
    ensures WithScore(SortedBy(items, score), score, v) == WithScore(items, score, v)
  {
    if items != [] {
      TiesKeepTheirOrder(items[1..], score, v);
      InsertKeepsTies(items[0], SortedBy(items[1..], score), score, v);
      assert ([items[0]] + SortedBy(items[1..], score))[1..] == SortedBy(items[1..], score);
    }
  }

  // Every item chosen that can be read has its slot, with the headline read, and there are no other slots.
  lemma {:induction false} FilledIsExact(read: Reader, chosen: seq<Key>, slot: Slot)
    ensures multiset(Filled(read, chosen))[slot] ==
            if read(slot.key) == Some(slot.headline) then multiset(chosen)[slot.key] else 0
  {
    if chosen != [] {
      var rest := Filled(read, chosen[1..]);
      FilledIsExact(read, chosen[1..], slot);
      assert chosen == [chosen[0]] + chosen[1..];
      assert [] + rest == rest;
    }
  }

  lemma {:induction false} FilledIsFrom(read: Reader, chosen: seq<Key>, score: Score)
    requires Descending(chosen, score)
    ensures forall i :: 0 <= i < |Filled(read, chosen)| ==> Filled(read, chosen)[i].key in chosen
    ensures forall i, j :: 0 <= i < j < |Filled(read, chosen)| ==>
              score(Filled(read, chosen)[i].key) >= score(Filled(read, chosen)[j].key)
    decreases |chosen|
  {
    if chosen != [] {
      var rest := Filled(read, chosen[1..]);
      FilledIsFrom(read, chosen[1..], score);
      forall i | 0 <= i < |rest|
        ensures rest[i].key in chosen && score(chosen[0]) >= score(rest[i].key)
      {
        var k :| 0 <= k < |chosen[1..]| && chosen[1..][k] == rest[i].key;
        assert chosen[k + 1] == rest[i].key;
      }
    }
  }

  lemma CutIsInOrder(ranked: seq<Key>, n: nat, read: Reader, score: Score)
    requires Descending(ranked, score) && n <= |ranked|
    ensures var slots := Filled(read, ranked[..n]);
      && (forall i, j :: 0 <= i < j < |slots| ==> score(slots[i].key) >= score(slots[j].key))
      && (forall i, x :: 0 <= i < |slots| && x in ranked[n..] ==> score(slots[i].key) >= score(x))
  {
    var slots := Filled(read, ranked[..n]);
    FilledIsFrom(read, ranked[..n], score);
    forall i, x | 0 <= i < |slots| && x in ranked[n..]
      ensures score(slots[i].key) >= score(x)
    {
      var a :| 0 <= a < n && ranked[..n][a] == slots[i].key;
      var b :| 0 <= b < |ranked[n..]| && ranked[n..][b] == x;
      assert ranked[a] == slots[i].key && ranked[n + b] == x;
    }
  }

  lemma HigherScoreHigherBand(x: Key, y: Key, now: int)
    ensures ScoreAt(now)(x) >= ScoreAt(now)(y) ==> BandOf(x, now) >= BandOf(y, now)
  {
    ScoreIsBandThenWeight(y, x, now);
  }

  // In every brief the overdue come before the due soon and those before the rest, nothing below the
  // line is more pressing than a slot, and nothing ranked is lost or shown twice.
  lemma BriefIsInOrder(all: seq<Key>, hashes: Hashes, read: Reader, briefSlots: nat, now: int,
                       ranked: seq<Key>, n: nat, slots: seq<Slot>)
    requires ranked == Ranked(Remaining(hashes, all), now) && n == Min(briefSlots, |ranked|)
    requires slots == Filled(read, ranked[..n])
    ensures multiset(ranked[..n]) + multiset(ranked[n..]) == multiset(Remaining(hashes, all))
    ensures InBands(slots, BandAt(now)) && NothingAbove(slots, ranked[n..], ScoreAt(now), BandAt(now))
  {
    ScoreOrdersBands(now);
    CutInBandOrder(Remaining(hashes, all), ranked, n, read, slots, ScoreAt(now), BandAt(now));
  }

  function BandAt(now: int): Key -> int {
    (item: Key) => BandOf(item, now)
  }

  lemma ScoreOrdersBands(now: int)
    ensures OrdersBands(ScoreAt(now), BandAt(now))
  {
    forall x, y
      ensures ScoreAt(now)(x) >= ScoreAt(now)(y) ==> BandOf(x, now) >= BandOf(y, now)
    {
      HigherScoreHigherBand(x, y, now);
    }
  }

  ghost predicate InBands(slots: seq<Slot>, band: Key -> int) {
    forall i, j :: 0 <= i < j < |slots| ==> band(slots[i].key) >= band(slots[j].key)
  }

  // No item below the line has a higher band or a higher score than a slot.
  ghost predicate NothingAbove(slots: seq<Slot>, below: seq<Key>, score: Score, band: Key -> int) {
    forall i, x :: 0 <= i < |slots| && x in below ==>
      band(slots[i].key) >= band(x) && score(slots[i].key) >= score(x)
  }

  ghost predicate OrdersBands(score: Score, band: Key -> int) {
    forall x, y :: score(x) >= score(y) ==> band(x) >= band(y)
  }

  // For any score that orders the bands.
  lemma CutInBandOrder(kept: seq<Key>, ranked: seq<Key>, n: nat, read: Reader, slots: seq<Slot>,
                       score: Score, band: Key -> int)
    requires ranked == SortedBy(kept, score) && n <= |ranked| && slots == Filled(read, ranked[..n])
    requires OrdersBands(score, band)
    ensures multiset(ranked[..n]) + multiset(ranked[n..]) == multiset(kept)
    ensures InBands(slots, band) && NothingAbove(slots, ranked[n..], score, band)
  {
    SortedBySorts(kept, score);
    CutIsInOrder(ranked, n, read, score);
    assert ranked == ranked[..n] + ranked[n..];
  }

  lemma FirstCounts(items: seq<Key>, x: Key)
    requires items != []
    ensures multiset(items)[x] == (if items[0] == x then 1 else 0) + multiset(items[1..])[x]
  {
    assert items == [items[0]] + items[1..];
  }

  // An edge and the commitment it was built from are never both ranked.
  lemma {:induction false} RemainingIsExact(hashes: Hashes, items: seq<Key>, x: Key)
    ensures multiset(Remaining(hashes, items))[x] == if Superseded(hashes, x) then 0 else multiset(items)[x]
  {
    if items != [] {
      var rest := Remaining(hashes, items[1..]);
      RemainingIsExact(hashes, items[1..], x);
      FirstCounts(items, x);
      FirstCounts([items[0]] + rest, x);
      assert [] + rest == rest && ([items[0]] + rest)[1..] == rest;
    }
  }
}
