/**
 * The client's walk over a paged view: packages/client-web/src/paging.ts, against the server of
 * Paging. Between two pages the register may have gained and lost any items; the walk and the node
 * share only the cursor.
 */
module WalkView {
  import opened Prelude
  import opened Utf16
  import opened Paging

  const MAX_PAGES: nat := 40
  const PAGE_SIZE: nat := 500

  // How many items so many full pages hold.
  function Full(pages: nat): nat {
    if pages == 0 then 0 else Full(pages - 1) + PAGE_SIZE
  }

  lemma {:induction false} FullIsProduct(pages: nat)
    ensures Full(pages) == pages * PAGE_SIZE
  {
    if pages > 0 {
      FullIsProduct(pages - 1);
    }
  }

  datatype Walked = Walked(items: seq<Id>, total: nat, skipped: nat, pages: nat, truncated: bool)

  datatype WalkResult = Done(walked: Walked) | Failed(why: Refusal)

  // The register as each page read finds it.
  type Registers = nat -> Snapshot

  ghost predicate Sound(at: Registers) {
    forall k :: Distinct(at(k).items)
  }

  // The items that arrived between page k and the page after it, at or above where the reader had got to.
  ghost function Overtook(rank: Ranking, at: Registers, k: nat, cursor: Cursor): set<Id> {
    set id | id in at(k + 1).items && id !in at(k).items && !SortsAfter(cursor, rank(cursor.asOf, id), id)
  }

  // How many items overtook the reader between one page and the next, over all these cursors.
  ghost function Overtaken(rank: Ranking, at: Registers, cursors: seq<Cursor>): nat {
    if cursors == [] then 0
    else
      var k := |cursors| - 1;
      Overtaken(rank, at, cursors[..k]) + |Overtook(rank, at, k, cursors[k])|
  }

  // How far the count at or above page k's cursor grew before the page after it was read, if it grew.
  ghost function NetGrowth(rank: Ranking, at: Registers, k: nat, cursor: Cursor): nat {
    Max(0, |AtOrAbove(rank, cursor, at(k + 1).items)| - |AtOrAbove(rank, cursor, at(k).items)|)
  }

  ghost function Grown(rank: Ranking, at: Registers, cursors: seq<Cursor>): nat {
    if cursors == [] then 0
    else
      var k := |cursors| - 1;
      Grown(rank, at, cursors[..k]) + NetGrowth(rank, at, k, cursors[k])
  }

  // The items of these pages, one after another.
  ghost function Flat(parts: seq<seq<Id>>): seq<Id> {
    if parts == [] then [] else Flat(parts[..|parts| - 1]) + parts[|parts| - 1]
  }

  // The cursor that page k ends with, these being its items.
  ghost function CursorAt(rank: Ranking, at: Registers, view: string, persona: string, page: seq<Id>, k: nat): Cursor
    requires page != []
  {
    var asOf, id := at(0).now, page[|page| - 1];
    var key := Cursor(view, persona, asOf, rank(asOf, id), id, 0);
    key.(above := |AtOrAbove(rank, key, at(k).items)|)
  }

  ghost predicate FromRead(register: Snapshot, page: seq<Id>) {
    |page| <= PAGE_SIZE && forall id :: id in page ==> id in register.items
  }

  // Each page was cut from the register it was read from, and each but perhaps the last ends with its cursor.
  ghost predicate Issued(rank: Ranking, at: Registers, view: string, persona: string, parts: seq<seq<Id>>,
                         cursors: seq<Cursor>) {
    && |cursors| <= |parts| <= |cursors| + 1
    && (parts != [] ==>
          var k := |parts| - 1;
          && FromRead(at(k), parts[k])
          && (k < |cursors| ==> EndsWith(rank, at, view, persona, parts[k], k, cursors[k]))
          && Issued(rank, at, view, persona, parts[..k], cursors[..k]))
  }

  // Page k is full and ends with its cursor.
  ghost predicate EndsWith(rank: Ranking, at: Registers, view: string, persona: string, page: seq<Id>, k: nat,
                           cursor: Cursor) {
    |page| == PAGE_SIZE && cursor == CursorAt(rank, at, view, persona, page, k)
  }

  lemma {:induction false} EveryPageIsIssued(rank: Ranking, at: Registers, view: string, persona: string,
                                             parts: seq<seq<Id>>, cursors: seq<Cursor>, k: nat)
    requires Issued(rank, at, view, persona, parts, cursors) && k < |parts|
    ensures FromRead(at(k), parts[k])
    ensures k < |cursors| ==> EndsWith(rank, at, view, persona, parts[k], k, cursors[k])
  {
    var n := |parts| - 1;
    if k < n {
      EveryPageIsIssued(rank, at, view, persona, parts[..n], cursors[..n], k);
    }
  }

  ghost predicate InEveryRead(at: Registers, pages: nat, id: Id) {
    forall k :: 0 <= k < pages ==> id in at(k).items
  }

  ghost predicate Unchanged(at: Registers) {
    forall k :: multiset(at(k).items) == multiset(at(0).items)
  }

  // What a walk that read these pages of the registers at(0) .. at(w.pages - 1) may say.
  ghost predicate Truthful(rank: Ranking, at: Registers, view: string, persona: string, parts: seq<seq<Id>>,
                           cursors: seq<Cursor>, w: Walked) {
    && 1 <= w.pages <= MAX_PAGES && w.total == |at(w.pages - 1).items|
    // It delivers its pages one after another, all of them full but the last.
    && |parts| == w.pages && |cursors| == w.pages - 1 && w.items == Flat(parts)
    && Issued(rank, at, view, persona, parts, cursors)
    // What is delivered is in rank order as of the first read, so nothing is delivered twice.
    && InOrder(rank, at(0).now, w.items) && Distinct(w.items)
    // A walk that was not cut short misses nothing that was there throughout.
    && (!w.truncated ==> forall id :: InEveryRead(at, w.pages, id) ==> id in w.items)
    && (w.truncated ==> w.pages == MAX_PAGES)
    // What it reports as skipped is the growth above each cursor, no more than the items that overtook
    // the reader there.
    && w.skipped == Grown(rank, at, cursors) <= Overtaken(rank, at, cursors)
  }

  // The register in rank order, as the first page finds it.
  ghost function Whole(rank: Ranking, at: Registers): seq<Id> {
    Ranked(rank, at(0).now, at(0).items)
  }

  // The walk is the whole ranked register, or as much of it as MAX_PAGES pages hold.
  ghost predicate WholeView(rank: Ranking, at: Registers, w: Walked) {
    var ordered := Whole(rank, at);
    && w.items == ordered[..Min(|ordered|, MAX_PAGES * PAGE_SIZE)]
    && (w.truncated <==> |ordered| > MAX_PAGES * PAGE_SIZE)
    && w.skipped == 0
  }

  method Walk(rank: Ranking, at: Registers, view: string, persona: string)
    returns (r: WalkResult, ghost parts: seq<seq<Id>>, ghost cursors: seq<Cursor>)
    requires Sound(at)
    ensures r.Done? ==> Truthful(rank, at, view, persona, parts, cursors, r.walked)
    ensures r.Done? && Unchanged(at) ==> WholeView(rank, at, r.walked)
    ensures r.Failed? ==> r.why == CursorExpired && Overstayed(at)
  {
    var items: seq<Id> := [];
    var cursor: Option<Cursor> := None;
    var total: nat, skipped: nat, pages: nat := 0, 0, 0;
    parts, cursors := [], [];
    while true
      invariant 0 <= pages < MAX_PAGES && |cursors| == pages
      invariant cursor == if pages == 0 then None else Some(cursors[pages - 1])
      invariant cursor.Some? ==> cursor.value.view == view && cursor.value.persona == persona
      invariant Walking(rank, at, view, persona, items, parts, cursors, skipped)
      decreases MAX_PAGES - pages
    {
      var answer := ReadPage(rank, at, at(pages), view, persona, items, parts, cursors, skipped, cursor);
      if answer.Refused? {
        return Failed(answer.why), parts, cursors;
      }
      var page := answer.page;
      pages := pages + 1;
      items := items + page.items;
      parts := parts + [page.items];
      total := page.total;
      skipped := skipped + page.skipped;
      cursor := page.next;
      if cursor.None? {
        return Done(Walked(items, total, skipped, pages, false)), parts, cursors;
      }
      if pages >= MAX_PAGES {
        return Done(Walked(items, total, skipped, pages, true)), parts, cursors;
      }
      cursors := cursors + [cursor.value];
    }
  }

  // One read of the view, in a walk that has come this far.
  method ReadPage(rank: Ranking, ghost at: Registers, register: Snapshot, view: string, persona: string,
                  ghost items: seq<Id>, ghost parts: seq<seq<Id>>, ghost cursors: seq<Cursor>, ghost skipped: nat,
                  cursor: Option<Cursor>)
    returns (answer: Answer)
    requires register == at(|cursors|) && |cursors| < MAX_PAGES
    requires Sound(at) && Walking(rank, at, view, persona, items, parts, cursors, skipped)
    requires cursor == if cursors == [] then None else Some(cursors[|cursors| - 1])
    requires cursor.Some? ==> cursor.value.view == view && cursor.value.persona == persona
    ensures answer.Refused? ==> answer.why == CursorExpired && Overstayed(at)
    ensures answer.Served? && (answer.page.next.None? || |cursors| + 1 == MAX_PAGES) ==>
              Reports(rank, at, view, persona, parts + [answer.page.items], cursors,
                      Walked(items + answer.page.items, answer.page.total, skipped + answer.page.skipped,
                             |cursors| + 1, answer.page.next.Some?))
    ensures answer.Served? && answer.page.next.Some? ==>
              var next := answer.page.next.value;
              && next.view == view && next.persona == persona
              && Walking(rank, at, view, persona, items + answer.page.items, parts + [answer.page.items],
                         cursors + [next], skipped + answer.page.skipped)
  {
    var call := Call(view, persona, PAGE_SIZE, cursor);
    answer := OpenLoops(rank, register, call);
    if answer.Refused? {
      RefusedForTime(rank, at, items, cursors, call, answer.why);
    } else {
      OnePage(rank, at, items, parts, cursors, skipped, call, answer.page);
      AfterPage(rank, at, view, persona, items, parts, cursors, skipped, answer.page);
    }
  }

  ghost predicate Reports(rank: Ranking, at: Registers, view: string, persona: string, parts: seq<seq<Id>>,
                          cursors: seq<Cursor>, w: Walked) {
    Truthful(rank, at, view, persona, parts, cursors, w) && (Unchanged(at) ==> WholeView(rank, at, w))
  }

  // Some page was read more than CURSOR_TTL after the first.
  ghost predicate Overstayed(at: Registers) {
    exists k :: 0 < k < MAX_PAGES && at(k).now > at(0).now + CURSOR_TTL
  }

  lemma RefusedForTime(rank: Ranking, at: Registers, items: seq<Id>, cursors: seq<Cursor>, call: Call, why: Refusal)
    requires Underway(rank, at, items, cursors) && Continues(call, cursors) && |cursors| < MAX_PAGES
    requires call.cursor.Some? ==> call.cursor.value.view == call.view && call.cursor.value.persona == call.persona
    requires OpenLoops(rank, at(|cursors|), call) == Refused(why)
    ensures why == CursorExpired && Overstayed(at)
  {
    assert at(|cursors|).now > at(0).now + CURSOR_TTL;
  }

  ghost predicate Walking(rank: Ranking, at: Registers, view: string, persona: string, items: seq<Id>,
                          parts: seq<seq<Id>>, cursors: seq<Cursor>, skipped: nat) {
    && Underway(rank, at, items, cursors)
    && items == Flat(parts) && |parts| == |cursors| && Issued(rank, at, view, persona, parts, cursors)
    && skipped == Grown(rank, at, if cursors == [] then [] else cursors[..|cursors| - 1])
    && (Unchanged(at) ==> ReadSoFar(Whole(rank, at), items, |cursors|) && skipped == 0)
  }

  // What stands once a page has been read.
  ghost predicate PageRead(rank: Ranking, at: Registers, view: string, persona: string, items: seq<Id>,
                           parts: seq<seq<Id>>, cursors: seq<Cursor>, skipped: nat, page: Page) {
    var pages := |cursors| + 1;
    && Delivered(rank, at, items, pages)
    && items == Flat(parts) && |parts| == pages && Issued(rank, at, view, persona, parts, cursors)
    && page.total == |at(pages - 1).items|
    && (page.next.None? ==> forall id :: InEveryRead(at, pages, id) ==> id in items)
    && (page.next.Some? ==>
          && Underway(rank, at, items, cursors + [page.next.value])
          && Issued(rank, at, view, persona, parts, cursors + [page.next.value]))
    && skipped == Grown(rank, at, cursors)
    && (Unchanged(at) ==> skipped == 0 && StaticRead(Whole(rank, at), items, |cursors|, page.next.None?))
  }

  // On an unchanged register, the ranked list up to the end of this page, and whether that is the end of it.
  ghost predicate StaticRead(ordered: seq<Id>, items: seq<Id>, before: nat, done: bool) {
    && items == ordered[..Min(Full(before) + PAGE_SIZE, |ordered|)]
    && (done <==> Full(before) + PAGE_SIZE >= |ordered|)
  }

  lemma OnePage(rank: Ranking, at: Registers, items: seq<Id>, parts: seq<seq<Id>>, cursors: seq<Cursor>, skipped: nat,
                call: Call, page: Page)
    requires Sound(at) && Walking(rank, at, call.view, call.persona, items, parts, cursors, skipped)
    requires |cursors| < MAX_PAGES && Continues(call, cursors) && call.limit == PAGE_SIZE
    requires OpenLoops(rank, at(|cursors|), call) == Served(page)
    ensures PageRead(rank, at, call.view, call.persona, items + page.items, parts + [page.items], cursors,
                     skipped + page.skipped, page)
    ensures page.next.Some? ==> page.next.value.view == call.view && page.next.value.persona == call.persona
  {
    PageReadsOn(rank, at(|cursors|), call);
    PageCounts(rank, at(|cursors|), call, page);
    PageFollows(rank, at, items, cursors, call, page);
    NextIsIssued(rank, at, call, |cursors|, page);
    IssuedOn(rank, at, parts, cursors, call, page);
    SkippedIsGrown(rank, at, items, cursors, call, page, skipped);
    var ordered := Ranked(rank, AsOf(at(|cursors|), call), at(|cursors|).items);
    var start := if call.cursor.None? then 0 else Start(rank, call.cursor.value, ordered);
    PageIsSlice(rank, at(|cursors|), call, page, ordered, start);
    if Unchanged(at) {
      RankingIsUnchanged(rank, at, |cursors|);
      StaticStarts(rank, at, items, |cursors|, call, ordered, start);
      StaticPage(ordered, items, |cursors|, call, page, start);
    }
  }

  lemma AfterPage(rank: Ranking, at: Registers, view: string, persona: string, items: seq<Id>, parts: seq<seq<Id>>,
                  cursors: seq<Cursor>, skipped: nat, page: Page)
    requires |cursors| < MAX_PAGES
    requires PageRead(rank, at, view, persona, items + page.items, parts + [page.items], cursors,
                      skipped + page.skipped, page)
    requires page.next.Some? ==> page.next.value.view == view && page.next.value.persona == persona
    ensures page.next.None? || |cursors| + 1 == MAX_PAGES ==>
              Reports(rank, at, view, persona, parts + [page.items], cursors,
                      Walked(items + page.items, page.total, skipped + page.skipped, |cursors| + 1, page.next.Some?))
    ensures page.next.Some? ==>
              Walking(rank, at, view, persona, items + page.items, parts + [page.items],
                      cursors + [page.next.value], skipped + page.skipped)
  {
    if page.next.Some? {
      var more := cursors + [page.next.value];
      assert more[..|more| - 1] == cursors;
    }
    InOrderIsDistinct(rank, at(0).now, items + page.items);
    SkippedOvertook(rank, at, cursors);
    FullIsProduct(|cursors| + 1);
  }

  // ---------------------------------------------------------------- what the loop keeps

  // In rank order, each from some read.
  ghost predicate Delivered(rank: Ranking, at: Registers, items: seq<Id>, pages: nat) {
    InOrder(rank, at(0).now, items) && forall id :: id in items ==> InSomeRead(at, pages, id)
  }

  ghost predicate InSomeRead(at: Registers, pages: nat, id: Id) {
    exists k :: 0 <= k < pages && id in at(k).items
  }

  // The cursor names the last item so far and counts what stood at or above it when it was issued.
  ghost predicate AtEnd(rank: Ranking, at: Registers, items: seq<Id>, pages: nat, cursor: Cursor) {
    && items != [] && pages > 0 && cursor.id == items[|items| - 1]
    && cursor.asOf == at(0).now && FromPage(rank, cursor)
    && cursor.above == |AtOrAbove(rank, cursor, at(pages - 1).items)|
  }

  ghost predicate Underway(rank: Ranking, at: Registers, items: seq<Id>, cursors: seq<Cursor>) {
    var pages := |cursors|;
    && Delivered(rank, at, items, pages) && (pages == 0 ==> items == [])
    && (pages > 0 ==>
          var cursor := cursors[pages - 1];
          && AtEnd(rank, at, items, pages, cursor)
          && (forall id :: InEveryRead(at, pages, id) && !SortsAfter(cursor, rank(cursor.asOf, id), id) ==>
                id in items))
  }

  ghost predicate Continues(call: Call, cursors: seq<Cursor>) {
    && call.limit > 0
    && call.cursor == if cursors == [] then None else Some(cursors[|cursors| - 1])
  }

  // Items in order up to the last key, then items after that key, are in order.
  lemma OrderGoesOn(rank: Ranking, cursor: Cursor, items: seq<Id>, more: seq<Id>)
    requires InOrder(rank, cursor.asOf, items) && InOrder(rank, cursor.asOf, more)
    requires items != [] && cursor.id == items[|items| - 1] && FromPage(rank, cursor)
    requires forall id :: id in more ==> SortsAfter(cursor, rank(cursor.asOf, id), id)
    ensures InOrder(rank, cursor.asOf, items + more)
  {
    forall i, j | 0 <= i < |items| && 0 <= j < |more|
      ensures Before(rank, cursor.asOf, items[i], more[j])
    {
      assert more[j] in more;
      if i < |items| - 1 {
        BeforeIsTransitive(rank, cursor.asOf, items[i], cursor.id, more[j]);
      }
    }
  }

  lemma PageFollows(rank: Ranking, at: Registers, items: seq<Id>, cursors: seq<Cursor>, call: Call, page: Page)
    requires Underway(rank, at, items, cursors) && Continues(call, cursors) && call.limit == PAGE_SIZE
    requires ReadsOn(rank, at(|cursors|), call, page)
    requires page.next.Some? ==>
               page.next.value.above == |AtOrAbove(rank, page.next.value, at(|cursors|).items)|
    ensures Delivered(rank, at, items + page.items, |cursors| + 1)
    ensures page.next.None? ==> forall id :: InEveryRead(at, |cursors| + 1, id) ==> id in items + page.items
    ensures page.next.Some? ==> Underway(rank, at, items + page.items, cursors + [page.next.value])
  {
    var pages := |cursors|;
    var all := items + page.items;
    if pages == 0 {
      assert all == page.items;
    } else {
      OrderGoesOn(rank, cursors[pages - 1], items, page.items);
    }
    forall id | id in all
      ensures InSomeRead(at, pages + 1, id)
    {
      if id in items {
        assert InSomeRead(at, pages, id);
      } else {
        assert id in at(pages).items;
      }
    }
    forall id | InEveryRead(at, pages + 1, id)
      ensures page.next.None? ==> id in all
      ensures page.next.Some? && !SortsAfter(page.next.value, rank(page.next.value.asOf, id), id) ==> id in all
    {
      assert id in at(pages).items && InEveryRead(at, pages, id);
      assert !Unread(rank, call, id) ==> id in items;
    }
    if page.next.Some? {
      assert all[|all| - 1] == page.items[|page.items| - 1];
    }
  }

  lemma CountGrowsByNewcomers(x: set<Id>, y: set<Id>)
    ensures |x| <= |y| + |x - y|
  {
    assert |x - y| + |x * y| == |x| by {
      assert x == (x - y) + (x * y) && (x - y) !! (x * y);
    }
    SubsetIsNoLarger(x * y, y);
  }

  lemma {:induction false} SubsetIsNoLarger(x: set<Id>, y: set<Id>)
    requires x <= y
    ensures |x| <= |y|
  {
    assert |y - x| == |y| - |x|;
  }

  // The growth above a cursor is made of items that arrived there between the two reads.
  lemma GrowthOvertook(rank: Ranking, at: Registers, k: nat, cursor: Cursor)
    ensures NetGrowth(rank, at, k, cursor) <= |Overtook(rank, at, k, cursor)|
  {
    var now, before := AtOrAbove(rank, cursor, at(k + 1).items), AtOrAbove(rank, cursor, at(k).items);
    CountGrowsByNewcomers(now, before);
    assert now - before == Overtook(rank, at, k, cursor);
  }

  lemma {:induction false} SkippedOvertook(rank: Ranking, at: Registers, cursors: seq<Cursor>)
    ensures Grown(rank, at, cursors) <= Overtaken(rank, at, cursors)
  {
    if cursors != [] {
      SkippedOvertook(rank, at, cursors[..|cursors| - 1]);
      GrowthOvertook(rank, at, |cursors| - 1, cursors[|cursors| - 1]);
    }
  }

  // A page's `skipped` is how much the count at or above its cursor grew since that cursor was issued,
  // never less than zero.
  lemma SkippedIsNetGrowth(rank: Ranking, at: Registers, items: seq<Id>, cursors: seq<Cursor>, call: Call, page: Page)
    requires Underway(rank, at, items, cursors) && Continues(call, cursors) && cursors != []
    requires Sound(at) && OpenLoops(rank, at(|cursors|), call) == Served(page)
    ensures page.skipped == NetGrowth(rank, at, |cursors| - 1, cursors[|cursors| - 1])
  {
    PageCounts(rank, at(|cursors|), call, page);
  }

  lemma SkippedIsGrown(rank: Ranking, at: Registers, items: seq<Id>, cursors: seq<Cursor>, call: Call, page: Page,
                       skipped: nat)
    requires Underway(rank, at, items, cursors) && Continues(call, cursors)
    requires Sound(at) && OpenLoops(rank, at(|cursors|), call) == Served(page)
    requires skipped == Grown(rank, at, if cursors == [] then [] else cursors[..|cursors| - 1])
    ensures skipped + page.skipped == Grown(rank, at, cursors)
  {
    if cursors == [] {
      PageCounts(rank, at(0), call, page);
    } else {
      SkippedIsNetGrowth(rank, at, items, cursors, call, page);
    }
  }

  // A page that has a next one is full, and its cursor is the one it should be.
  lemma IssuedOn(rank: Ranking, at: Registers, parts: seq<seq<Id>>, cursors: seq<Cursor>, call: Call, page: Page)
    requires Issued(rank, at, call.view, call.persona, parts, cursors) && |parts| == |cursors|
    requires FromRead(at(|cursors|), page.items)
    requires page.next.Some? ==>
               EndsWith(rank, at, call.view, call.persona, page.items, |cursors|, page.next.value)
    ensures Flat(parts + [page.items]) == Flat(parts) + page.items
    ensures Issued(rank, at, call.view, call.persona, parts + [page.items], cursors)
    ensures page.next.Some? ==>
              Issued(rank, at, call.view, call.persona, parts + [page.items], cursors + [page.next.value])
  {
    var n, more := |parts|, parts + [page.items];
    assert more[..n] == parts && cursors[..n] == cursors;
    if page.next.Some? {
      assert (cursors + [page.next.value])[..n] == cursors;
    }
  }

  lemma NextIsIssued(rank: Ranking, at: Registers, call: Call, k: nat, page: Page)
    requires call.limit == PAGE_SIZE && ReadsOn(rank, at(k), call, page) && AsOf(at(k), call) == at(0).now
    requires page.next.Some? ==> page.next.value.above == |AtOrAbove(rank, page.next.value, at(k).items)|
    ensures FromRead(at(k), page.items)
    ensures page.next.Some? ==> EndsWith(rank, at, call.view, call.persona, page.items, k, page.next.value)
  {
    if page.next.Some? {
      var next := page.next.value;
      var key := next.(above := 0);
      assert AtOrAbove(rank, key, at(k).items) == AtOrAbove(rank, next, at(k).items);
    }
  }

  ghost predicate ReadSoFar(ordered: seq<Id>, items: seq<Id>, pages: nat) {
    && Full(pages) <= |ordered|
    && (pages > 0 ==> Full(pages) < |ordered|)
    && items == ordered[..Full(pages)]
  }

  lemma RankingIsUnchanged(rank: Ranking, at: Registers, k: nat)
    requires Sound(at) && Unchanged(at)
    ensures Ranked(rank, at(0).now, at(k).items) == Ranked(rank, at(0).now, at(0).items)
    ensures forall id :: id in at(k).items <==> id in at(0).items
  {
    var asOf := at(0).now;
    assert multiset(at(k).items) == multiset(at(0).items);
    PermutationHasSame(at(k).items, at(0).items);
    RankedSorts(rank, asOf, at(0).items);
    RankedSorts(rank, asOf, at(k).items);
    InOrderIsUnique(rank, asOf, Ranked(rank, asOf, at(k).items), Ranked(rank, asOf, at(0).items));
  }

  // What a page is, in terms of the ranked list it is cut from.
  ghost predicate IsSlice(call: Call, page: Page, ordered: seq<Id>, start: nat) {
    && start <= |ordered| && page.items == ordered[start..Min(start + call.limit, |ordered|)]
    && (page.next.None? <==> start + call.limit >= |ordered|)
    && page.skipped == if call.cursor.None? then 0 else Max(0, start - call.cursor.value.above)
  }

  lemma PageIsSlice(rank: Ranking, register: Snapshot, call: Call, page: Page, ordered: seq<Id>, start: nat)
    requires call.limit > 0 && OpenLoops(rank, register, call) == Served(page)
    requires ordered == Ranked(rank, AsOf(register, call), register.items)
    requires start == if call.cursor.None? then 0 else Start(rank, call.cursor.value, ordered)
    ensures IsSlice(call, page, ordered, start)
  {
  }

  // The cursor of a walk over an unchanged register stands where its items end.
  lemma StaticStart(rank: Ranking, at: Registers, cursor: Cursor, last: nat, ordered: seq<Id>, k: nat)
    requires Sound(at) && Unchanged(at) && ordered == Ranked(rank, at(0).now, at(0).items)
    requires cursor.asOf == at(0).now && FromPage(rank, cursor) && 0 < k <= |ordered| && cursor.id == ordered[k - 1]
    requires cursor.above == |AtOrAbove(rank, cursor, at(last).items)|
    ensures Start(rank, cursor, ordered) == k == cursor.above
  {
    RankingIsUnchanged(rank, at, last);
    KeyCounts(rank, at(last).items, cursor, ordered, k);
    RankedSorts(rank, at(0).now, at(0).items);
    StartIsLength(rank, cursor, ordered, k);
  }

  lemma StaticStarts(rank: Ranking, at: Registers, items: seq<Id>, pages: nat, call: Call, ordered: seq<Id>, start: nat)
    requires Sound(at) && Unchanged(at) && ordered == Whole(rank, at) && ReadSoFar(ordered, items, pages)
    requires if pages == 0 then call.cursor == None
             else call.cursor.Some? && AtEnd(rank, at, items, pages, call.cursor.value)
    requires start == if call.cursor.None? then 0 else Start(rank, call.cursor.value, ordered)
    ensures start == Full(pages) && (call.cursor.Some? ==> call.cursor.value.above == start)
  {
    if pages > 0 {
      StaticStart(rank, at, call.cursor.value, pages - 1, ordered, Full(pages));
    }
  }

  // On an unchanged register the next page is the next PAGE_SIZE of the one ranked list.
  lemma StaticPage(ordered: seq<Id>, items: seq<Id>, pages: nat, call: Call, page: Page, start: nat)
    requires ReadSoFar(ordered, items, pages) && start == Full(pages) && call.limit == PAGE_SIZE
    requires IsSlice(call, page, ordered, start) && (call.cursor.Some? ==> call.cursor.value.above == start)
    ensures StaticRead(ordered, items + page.items, pages, page.next.None?) && page.skipped == 0
  {
  }
}
