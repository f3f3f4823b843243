/**
 * One page of a ranked register: `openLoops` of packages/node/src/node.ts and the keyset cursor of
 * packages/node/src/cursor.ts. The register is whatever the vault holds when the page is read; the
 * cursor carries the last key delivered, the instant ranking was frozen at, and how many items
 * stood at or above that key.
 */
module Paging {
  import opened Prelude
  import opened Utf16

  type Id = JsString

  // An item's score at an instant. It depends on the item and the instant and on nothing else.
  type Ranking = (int, Id) -> real

  const CURSOR_TTL: int := 900_000  // PT15M in milliseconds

  datatype Cursor = Cursor(view: string, persona: string, asOf: int, score: real, id: Id, above: nat)

  // What the vault holds when a page is read, in traversal order, and the clock then.
  datatype Snapshot = Snapshot(items: seq<Id>, now: int)

  datatype Call = Call(view: string, persona: string, limit: nat, cursor: Option<Cursor>)

  datatype Page = Page(items: seq<Id>, total: nat, next: Option<Cursor>, skipped: nat)

  datatype Refusal = OtherList | CursorExpired

  datatype Answer = Served(page: Page) | Refused(why: Refusal)

  // ---------------------------------------------------------------- the order

  // Score descending, then id ascending.
  predicate Before(rank: Ranking, asOf: int, a: Id, b: Id) {
    rank(asOf, a) > rank(asOf, b) || (rank(asOf, a) == rank(asOf, b) && Less(a, b))
  }

  predicate SortsAfter(cursor: Cursor, score: real, id: Id) {
    score < cursor.score || (score == cursor.score && Less(cursor.id, id))
  }

  function InsertRanked(rank: Ranking, asOf: int, id: Id, ordered: seq<Id>): seq<Id> {
    if ordered == [] || Before(rank, asOf, id, ordered[0]) then [id] + ordered
    else [ordered[0]] + InsertRanked(rank, asOf, id, ordered[1..])
  }

  function Ranked(rank: Ranking, asOf: int, items: seq<Id>): seq<Id> {
    if items == [] then [] else InsertRanked(rank, asOf, items[0], Ranked(rank, asOf, items[1..]))
  }

  // ---------------------------------------------------------------- the page

  // The first position whose item sorts after the cursor, or the end.
  function Start(rank: Ranking, cursor: Cursor, ordered: seq<Id>): (n: nat)
    ensures n <= |ordered|
    ensures forall i :: 0 <= i < n ==> !SortsAfter(cursor, rank(cursor.asOf, ordered[i]), ordered[i])
    ensures n < |ordered| ==> SortsAfter(cursor, rank(cursor.asOf, ordered[n]), ordered[n])
  {
    if ordered == [] || SortsAfter(cursor, rank(cursor.asOf, ordered[0]), ordered[0]) then 0
    else 1 + Start(rank, cursor, ordered[1..])
  }

  predicate Expired(cursor: Cursor, now: int) {
    now > cursor.asOf + CURSOR_TTL
  }

  function OpenLoops(rank: Ranking, register: Snapshot, call: Call): Answer
    requires call.limit > 0
  {
    if call.cursor.Some? && (call.cursor.value.view != call.view || call.cursor.value.persona != call.persona) then
      Refused(OtherList)
    else if call.cursor.Some? && Expired(call.cursor.value, register.now) then
      Refused(CursorExpired)
    else
      var asOf := if call.cursor.None? then register.now else call.cursor.value.asOf;
      var ordered := Ranked(rank, asOf, register.items);
      var start := if call.cursor.None? then 0 else Start(rank, call.cursor.value, ordered);
      var delivered := Min(start + call.limit, |ordered|);
      var items := ordered[start..delivered];
      var skipped := if call.cursor.None? then 0 else Max(0, start - call.cursor.value.above);
      var next :=
        if delivered >= |ordered| then None
        else
          var last := items[|items| - 1];
          Some(Cursor(call.view, call.persona, asOf, rank(asOf, last), last, delivered));
      Served(Page(items, |ordered|, next, skipped))
  }

  // ---------------------------------------------------------------- the order is total

  lemma BeforeIsTotal(rank: Ranking, asOf: int, a: Id, b: Id)
    ensures Before(rank, asOf, a, b) || a == b || Before(rank, asOf, b, a)
    ensures Before(rank, asOf, a, b) ==> !Before(rank, asOf, b, a) && a != b
  {
    LessIsTotal(a, b);
    if Less(a, b) {
      LessIsStrict(a, b);
    }
  }

  lemma BeforeIsTransitive(rank: Ranking, asOf: int, a: Id, b: Id, c: Id)
    requires Before(rank, asOf, a, b) && Before(rank, asOf, b, c)
    ensures Before(rank, asOf, a, c)
  {
    if Less(a, b) && Less(b, c) {
      LessIsTransitive(a, b, c);
    }
  }

  ghost predicate InOrder(rank: Ranking, asOf: int, ids: seq<Id>) {
    forall i, j {:trigger Before(rank, asOf, ids[i], ids[j])} :: 0 <= i < j < |ids| ==>
      Before(rank, asOf, ids[i], ids[j])
  }

  lemma {:induction false} InsertRankedSorts(rank: Ranking, asOf: int, id: Id, ordered: seq<Id>)
    requires InOrder(rank, asOf, ordered) && id !in ordered
    ensures InOrder(rank, asOf, InsertRanked(rank, asOf, id, ordered))
    ensures multiset(InsertRanked(rank, asOf, id, ordered)) == multiset([id] + ordered)
  {
    if ordered == [] {
    } else if Before(rank, asOf, id, ordered[0]) {
      forall i | 0 <= i < |ordered| ensures Before(rank, asOf, id, ordered[i]) {
        if i > 0 {
          BeforeIsTransitive(rank, asOf, id, ordered[0], ordered[i]);
        }
      }
    } else {
      var head, tail := ordered[0], ordered[1..];
      var inserted := InsertRanked(rank, asOf, id, tail);
      assert ordered == [head] + tail;
      BeforeIsTotal(rank, asOf, id, head);
      InsertRankedSorts(rank, asOf, id, tail);
      forall i | 0 <= i < |inserted| ensures Before(rank, asOf, head, inserted[i]) {
        assert inserted[i] in multiset([id] + tail);
        if inserted[i] != id {
          var j :| 0 <= j < |tail| && tail[j] == inserted[i];
          assert ordered[j + 1] == inserted[i];
        }
      }
    }
  }

  // The ranked register holds what the register holds, in the one order.
  lemma {:induction false} RankedSorts(rank: Ranking, asOf: int, items: seq<Id>)
    requires Distinct(items)
    ensures InOrder(rank, asOf, Ranked(rank, asOf, items))
    ensures multiset(Ranked(rank, asOf, items)) == multiset(items)
  {
    if items != [] {
      var head, tail := items[0], items[1..];
      RankedSorts(rank, asOf, tail);
      assert items == [head] + tail;
      assert head !in tail && (head in Ranked(rank, asOf, tail) <==> head in multiset(tail));
      InsertRankedSorts(rank, asOf, head, Ranked(rank, asOf, tail));
    }
  }

  // There is one order: two in-order lists of the same items are the same list.
  lemma {:induction false} InOrderIsUnique(rank: Ranking, asOf: int, x: seq<Id>, y: seq<Id>)
    requires InOrder(rank, asOf, x) && InOrder(rank, asOf, y) && multiset(x) == multiset(y)
    ensures x == y
  {
    assert |multiset(x)| == |x| && |multiset(y)| == |y|;
    if x != [] {
      FirstIsLeast(rank, asOf, x, y);
      assert x == [x[0]] + x[1..] && y == [y[0]] + y[1..];
      assert multiset(x[1..]) == multiset(x) - multiset{x[0]};
      assert multiset(y[1..]) == multiset(y) - multiset{y[0]};
      InOrderIsUnique(rank, asOf, x[1..], y[1..]);
    }
  }

  lemma FirstIsLeast(rank: Ranking, asOf: int, x: seq<Id>, y: seq<Id>)
    requires InOrder(rank, asOf, x) && InOrder(rank, asOf, y) && multiset(x) == multiset(y)
    requires x != [] && y != []
    ensures x[0] == y[0]
  {
    assert x[0] in multiset(y) && y[0] in multiset(x);
    var i :| 0 <= i < |y| && y[i] == x[0];
    var j :| 0 <= j < |x| && x[j] == y[0];
    BeforeIsTotal(rank, asOf, x[0], y[0]);
  }

  // Of any two, the one with the higher score stands first, and at one score the one whose identifier has the
  // lower code unit where they first differ.
  lemma RankedDescends(rank: Ranking, asOf: int, items: seq<Id>, i: nat, j: nat)
    requires Distinct(items) && i < j < |Ranked(rank, asOf, items)|
    ensures var a, b := Ranked(rank, asOf, items)[i], Ranked(rank, asOf, items)[j];
      rank(asOf, a) >= rank(asOf, b) && (rank(asOf, a) == rank(asOf, b) ==> ComesFirst(a, b))
  {
    var ordered := Ranked(rank, asOf, items);
    RankedSorts(rank, asOf, items);
    assert Before(rank, asOf, ordered[i], ordered[j]);
    LessComesFirst(ordered[i], ordered[j]);
  }

  // A page is served exactly for a first call, or with a cursor of this list that is at most a quarter of an
  // hour old.
  lemma ServedIff(rank: Ranking, register: Snapshot, call: Call)
    requires call.limit > 0
    ensures OpenLoops(rank, register, call).Served? <==>
            call.cursor.Some? ==>
              var c := call.cursor.value;
              c.view == call.view && c.persona == call.persona && register.now - c.asOf <= 15 * 60 * 1000
    ensures OpenLoops(rank, register, call) == Refused(OtherList) <==>
            call.cursor.Some? && (call.cursor.value.view != call.view || call.cursor.value.persona != call.persona)
  {
  }

  // ---------------------------------------------------------------- what a page is

  // The items of a register that stand at or above a cursor's key.
  ghost function AtOrAbove(rank: Ranking, cursor: Cursor, items: seq<Id>): set<Id> {
    set id | id in items && !SortsAfter(cursor, rank(cursor.asOf, id), id)
  }

  ghost predicate FromPage(rank: Ranking, cursor: Cursor) {
    cursor.score == rank(cursor.asOf, cursor.id)
  }

  lemma SortsAfterIsBefore(rank: Ranking, cursor: Cursor, id: Id)
    requires FromPage(rank, cursor)
    ensures SortsAfter(cursor, rank(cursor.asOf, id), id) == Before(rank, cursor.asOf, cursor.id, id)
  {
  }

  // Everything at or above the key stands before the page, and nothing else does.
  lemma StartSplits(rank: Ranking, cursor: Cursor, ordered: seq<Id>)
    requires InOrder(rank, cursor.asOf, ordered) && FromPage(rank, cursor)
    ensures forall i :: 0 <= i < |ordered| ==>
      (i < Start(rank, cursor, ordered) <==> !SortsAfter(cursor, rank(cursor.asOf, ordered[i]), ordered[i]))
  {
    var n := Start(rank, cursor, ordered);
    forall i | n <= i < |ordered|
      ensures SortsAfter(cursor, rank(cursor.asOf, ordered[i]), ordered[i])
    {
      if i > n {
        BeforeIsTransitive(rank, cursor.asOf, cursor.id, ordered[n], ordered[i]);
      }
    }
  }

  lemma {:induction false} DistinctCount(ids: seq<Id>)
    requires Distinct(ids)
    ensures |(set id | id in ids)| == |ids|
  {
    if ids != [] {
      DistinctCount(ids[1..]);
      assert (set id | id in ids) == {ids[0]} + (set id | id in ids[1..]);
    }
  }

  lemma InOrderIsDistinct(rank: Ranking, asOf: int, ids: seq<Id>)
    requires InOrder(rank, asOf, ids)
    ensures Distinct(ids)
  {
    forall i, j | 0 <= i < j < |ids| ensures ids[i] != ids[j] {
      BeforeIsTotal(rank, asOf, ids[i], ids[j]);
    }
  }

  lemma CountAtOrAbove(rank: Ranking, cursor: Cursor, items: seq<Id>)
    requires Distinct(items) && FromPage(rank, cursor)
    ensures Start(rank, cursor, Ranked(rank, cursor.asOf, items)) == |AtOrAbove(rank, cursor, items)|
  {
    var ordered := Ranked(rank, cursor.asOf, items);
    RankedSorts(rank, cursor.asOf, items);
    StartSplits(rank, cursor, ordered);
    InOrderIsDistinct(rank, cursor.asOf, ordered);
    var n := Start(rank, cursor, ordered);
    DistinctCount(ordered[..n]);
    assert AtOrAbove(rank, cursor, items) == (set id | id in ordered[..n]) by {
      forall id ensures id in AtOrAbove(rank, cursor, items) <==> id in ordered[..n] {
        assert id in items <==> id in multiset(items);
        assert id in ordered <==> id in multiset(ordered);
      }
    }
  }

  // The part of an in-order list that a call's cursor leaves to read.
  ghost predicate Unread(rank: Ranking, call: Call, id: Id) {
    call.cursor.Some? ==> SortsAfter(call.cursor.value, rank(call.cursor.value.asOf, id), id)
  }

  ghost function AsOf(register: Snapshot, call: Call): int {
    if call.cursor.None? then register.now else call.cursor.value.asOf
  }

  // A page is the next items of the register in rank order, and its cursor says where it stopped.
  ghost predicate ReadsOn(rank: Ranking, register: Snapshot, call: Call, page: Page) {
    && page.total == |register.items|
    && |page.items| <= call.limit
    && InOrder(rank, AsOf(register, call), page.items)
    && (forall id :: id in page.items ==> id in register.items && Unread(rank, call, id))
    && (page.next.Some? ==> StopsAtLast(rank, register, call, page))
    && (page.next.Some? <==> exists id :: id in register.items && Unread(rank, call, id) && id !in page.items)
    && (forall id :: id in register.items && Unread(rank, call, id) ==>
          (id in page.items <==> page.next.Some? ==> !SortsAfter(page.next.value, rank(page.next.value.asOf, id), id)))
  }

  ghost predicate StopsAtLast(rank: Ranking, register: Snapshot, call: Call, page: Page)
    requires page.next.Some?
  {
    var next := page.next.value;
    && page.items != [] && |page.items| == call.limit && next.id == page.items[|page.items| - 1]
    && next.asOf == AsOf(register, call) && FromPage(rank, next)
    && next.view == call.view && next.persona == call.persona
  }

  lemma PageReadsOn(rank: Ranking, register: Snapshot, call: Call)
    requires call.limit > 0 && Distinct(register.items)
    requires call.cursor.Some? ==> FromPage(rank, call.cursor.value)
    requires OpenLoops(rank, register, call).Served?
    ensures ReadsOn(rank, register, call, OpenLoops(rank, register, call).page)
  {
    var asOf := AsOf(register, call);
    var ordered := Ranked(rank, asOf, register.items);
    var start := if call.cursor.None? then 0 else Start(rank, call.cursor.value, ordered);
    var page := OpenLoops(rank, register, call).page;
    RankedSorts(rank, asOf, register.items);
    PermutationHasSame(ordered, register.items);
    if call.cursor.Some? {
      StartSplits(rank, call.cursor.value, ordered);
    }
    SliceReadsOn(rank, register, call, page, ordered, start);
  }

  lemma PermutationHasSame(x: seq<Id>, y: seq<Id>)
    requires multiset(x) == multiset(y)
    ensures |x| == |y| && forall id :: id in x <==> id in y
  {
    assert |multiset(x)| == |multiset(y)|;
    assert forall id :: id in x <==> id in multiset(x);
    assert forall id :: id in y <==> id in multiset(y);
  }

  lemma SliceReadsOn(rank: Ranking, register: Snapshot, call: Call, page: Page, ordered: seq<Id>, start: nat)
    requires call.limit > 0 && start <= |ordered| == |register.items|
    requires InOrder(rank, AsOf(register, call), ordered)
    requires forall id :: id in ordered <==> id in register.items
    requires forall i :: 0 <= i < |ordered| ==> (start <= i <==> Unread(rank, call, ordered[i]))
    requires page.total == |ordered| && page.items == ordered[start..Min(start + call.limit, |ordered|)]
    requires page.next.None? <==> start + call.limit >= |ordered|
    requires page.next.Some? ==> StopsAtLast(rank, register, call, page)
    ensures ReadsOn(rank, register, call, page)
  {
    var delivered := Min(start + call.limit, |ordered|);
    SliceIsUnread(rank, register, call, page.items, ordered, start);
    forall id | id in register.items && Unread(rank, call, id)
      ensures id in page.items <==> page.next.Some? ==> !SortsAfter(page.next.value, rank(page.next.value.asOf, id), id)
    {
      var i :| 0 <= i < |ordered| && ordered[i] == id;
      assert i < delivered ==> page.items[i - start] == id;
      if page.next.Some? {
        SliceStops(rank, page.next.value, ordered, start, delivered, i);
      }
    }
    SomeIsLeft(rank, register, call, page, ordered, start);
  }

  lemma SomeIsLeft(rank: Ranking, register: Snapshot, call: Call, page: Page, ordered: seq<Id>, start: nat)
    requires call.limit > 0 && start <= |ordered| && InOrder(rank, AsOf(register, call), ordered)
    requires forall id :: id in ordered <==> id in register.items
    requires forall i :: 0 <= i < |ordered| ==> (start <= i <==> Unread(rank, call, ordered[i]))
    requires page.items == ordered[start..Min(start + call.limit, |ordered|)]
    ensures start + call.limit < |ordered| ==>
              exists id :: id in register.items && Unread(rank, call, id) && id !in page.items
  {
    if start + call.limit < |ordered| {
      var id := ordered[start + call.limit];
      InOrderIsDistinct(rank, AsOf(register, call), ordered);
      assert id in register.items && Unread(rank, call, id) && id !in page.items;
    }
  }

  lemma SliceIsUnread(rank: Ranking, register: Snapshot, call: Call, slice: seq<Id>, ordered: seq<Id>, start: nat)
    requires start <= |ordered| && slice == ordered[start..Min(start + call.limit, |ordered|)]
    requires forall id :: id in ordered <==> id in register.items
    requires forall i :: 0 <= i < |ordered| ==> (start <= i <==> Unread(rank, call, ordered[i]))
    ensures forall id :: id in slice ==> id in register.items && Unread(rank, call, id)
  {
    forall id | id in slice
      ensures id in register.items && Unread(rank, call, id)
    {
      var i :| 0 <= i < |slice| && slice[i] == id;
      assert ordered[start + i] == id;
    }
  }

  lemma SliceStops(rank: Ranking, next: Cursor, ordered: seq<Id>, start: nat, delivered: nat, i: nat)
    requires start < delivered <= |ordered| && start <= i < |ordered|
    requires InOrder(rank, next.asOf, ordered) && FromPage(rank, next) && next.id == ordered[delivered - 1]
    ensures i < delivered <==> !SortsAfter(next, rank(next.asOf, ordered[i]), ordered[i])
    ensures ordered[i] in ordered[start..delivered] ==> i < delivered
  {
    SortsAfterIsBefore(rank, next, ordered[i]);
    BeforeIsTotal(rank, next.asOf, next.id, ordered[i]);
    InOrderIsDistinct(rank, next.asOf, ordered);
  }

  lemma StartIsLength(rank: Ranking, cursor: Cursor, ordered: seq<Id>, k: nat)
    requires 0 < k <= |ordered| && InOrder(rank, cursor.asOf, ordered)
    requires FromPage(rank, cursor) && cursor.id == ordered[k - 1]
    ensures Start(rank, cursor, ordered) == k
  {
    StartSplits(rank, cursor, ordered);
    SliceStops(rank, cursor, ordered, 0, k, k - 1);
    if k < |ordered| {
      SliceStops(rank, cursor, ordered, 0, k, k);
    }
  }

  // A cursor that names the k-th item in rank order stands below k of them.
  lemma KeyCounts(rank: Ranking, items: seq<Id>, next: Cursor, ordered: seq<Id>, k: nat)
    requires Distinct(items) && ordered == Ranked(rank, next.asOf, items)
    requires FromPage(rank, next) && 0 < k <= |ordered| && next.id == ordered[k - 1]
    ensures |AtOrAbove(rank, next, items)| == k
  {
    RankedSorts(rank, next.asOf, items);
    CountAtOrAbove(rank, next, items);
    StartIsLength(rank, next, ordered, k);
  }

  // `above` counts what stands at or above the new key, and `skipped` how far the old key's count has grown.
  lemma PageCounts(rank: Ranking, register: Snapshot, call: Call, page: Page)
    requires call.limit > 0 && Distinct(register.items)
    requires call.cursor.Some? ==> FromPage(rank, call.cursor.value)
    requires OpenLoops(rank, register, call) == Served(page)
    ensures page.next.Some? ==> page.next.value.above == |AtOrAbove(rank, page.next.value, register.items)|
    ensures page.skipped == if call.cursor.None? then 0 else
              Max(0, |AtOrAbove(rank, call.cursor.value, register.items)| - call.cursor.value.above)
  {
    if call.cursor.Some? {
      CountAtOrAbove(rank, call.cursor.value, register.items);
    }
    if page.next.Some? {
      var next := page.next.value;
      KeyCounts(rank, register.items, next, Ranked(rank, next.asOf, register.items), next.above);
    }
  }
}
