/**
 * Walking a message: packages/connectors-email/src/mime.ts. An entity is headers and a body; a
 * multipart body holds entities in turn. The walk collects leaves up to a limit and the first
 * embedded message, which is parsed one level down.
 *
 * What a header block says and how a transfer encoding decodes are functions of the bytes.
 */
module MimeWalk {
  import opened Prelude
  import opened Mime

  datatype Limits = Limits(maxBytes: nat, maxHeaderBytes: nat, maxParts: nat, maxDepth: nat)

  datatype Fields = Fields(
    contentType: string, boundary: Option<Bytes>, disposition: string, filename: Option<string>,
    encoding: Option<string>)

  datatype Reader = Reader(fields: Bytes -> Fields, decode: (Bytes, Option<string>) -> Bytes)

  // No transfer encoding decodes to more than it was.
  ghost predicate Shrinks(reader: Reader) {
    forall body, encoding :: |reader.decode(body, encoding)| <= |body|
  }

  datatype Entity = Entity(fields: Fields, body: Bytes)

  datatype Leaf = Leaf(contentType: string, disposition: string, filename: Option<string>, bytes: Bytes)

  // ---------------------------------------------------------------- headers and body

  // The length of the blank line that starts at i, or 0.
  function BlankLine(bytes: Bytes, i: nat): (n: nat)
    requires i < |bytes|
    ensures i + n <= |bytes|
  {
    if bytes[i] != LF then 0
    else if i + 1 < |bytes| && bytes[i + 1] == LF then 2
    else if i + 2 < |bytes| && bytes[i + 1] == CR && bytes[i + 2] == LF then 3
    else 0
  }

  function HeaderEndFrom(bytes: Bytes, n: nat, i: nat): (end: int)
    requires n <= |bytes|
    ensures end == -1 || (i <= end < n && BlankLine(bytes, end) > 0)
    decreases n - i
  {
    if i >= n then -1 else if BlankLine(bytes, i) > 0 then i else HeaderEndFrom(bytes, n, i + 1)
  }

  // A line feed stands at i, and a second one follows it at once or after a carriage return: an empty line
  // begins there.
  predicate BlankAt(bytes: Bytes, i: nat) {
    && i + 1 < |bytes| && bytes[i] == LF
    && (bytes[i + 1] == LF || (i + 2 < |bytes| && bytes[i + 1] == CR && bytes[i + 2] == LF))
  }

  // The headers end at the first empty line that begins below the limit, and the body starts past it; without
  // one both are -1.
  ghost predicate EndsHeaders(bytes: Bytes, limit: nat, end: int, bodyStart: int) {
    if end < 0 then
      end == -1 && bodyStart == -1 && forall i :: 0 <= i < limit ==> !BlankAt(bytes, i)
    else
      && end < limit && BlankAt(bytes, end) && (forall i :: 0 <= i < end ==> !BlankAt(bytes, i))
      && bodyStart == end + if bytes[end + 1] == LF then 2 else 3
  }

  lemma BlankLineIs(bytes: Bytes, i: nat)
    requires i < |bytes|
    ensures BlankLine(bytes, i) > 0 <==> BlankAt(bytes, i)
    ensures BlankAt(bytes, i) ==> BlankLine(bytes, i) == if bytes[i + 1] == LF then 2 else 3
  {
  }

  lemma {:induction false} HeaderEndIsFirst(bytes: Bytes, n: nat, i: nat)
    requires n <= |bytes|
    ensures var end := HeaderEndFrom(bytes, n, i);
      if end < 0 then forall j :: i <= j < n ==> !BlankAt(bytes, j)
      else i <= end < n && BlankAt(bytes, end) && forall j :: i <= j < end ==> !BlankAt(bytes, j)
    decreases n - i
  {
    if i < n {
      BlankLineIs(bytes, i);
      if BlankLine(bytes, i) == 0 {
        HeaderEndIsFirst(bytes, n, i + 1);
      }
    }
  }

  lemma HeadersEnd(bytes: Bytes, limit: nat, end: int)
    requires end == HeaderEndFrom(bytes, Min(|bytes|, limit), 0)
    ensures EndsHeaders(bytes, limit, end, if end < 0 then -1 else end + BlankLine(bytes, end))
  {
    HeaderEndIsFirst(bytes, Min(|bytes|, limit), 0);
    if end >= 0 {
      BlankLineIs(bytes, end);
    }
  }

  lemma HeadersEndOnce(bytes: Bytes, limit: nat, x: int, p: int, y: int, q: int)
    requires EndsHeaders(bytes, limit, x, p) && EndsHeaders(bytes, limit, y, q)
    ensures x == y && p == q
  {
  }

  method HeaderEnd(bytes: Bytes, limit: nat) returns (end: int, bodyStart: int)
    ensures end == HeaderEndFrom(bytes, Min(|bytes|, limit), 0)
    ensures bodyStart == if end < 0 then -1 else end + BlankLine(bytes, end)
    ensures EndsHeaders(bytes, limit, end, bodyStart)
  {
    var n := Min(|bytes|, limit);
    HeadersEnd(bytes, limit, HeaderEndFrom(bytes, n, 0));
    for i := 0 to n
      invariant HeaderEndFrom(bytes, n, i) == HeaderEndFrom(bytes, n, 0)
    {
      if bytes[i] != LF {
        continue;
      }
      if i + 1 < |bytes| && bytes[i + 1] == LF {
        return i, i + 2;
      }
      if i + 2 < |bytes| && bytes[i + 1] == CR && bytes[i + 2] == LF {
        return i, i + 3;
      }
    }
    return -1, -1;
  }

  // With no blank line everything within the limit is headers and there is no body.
  function EntityOf(reader: Reader, limits: Limits, bytes: Bytes): (e: Entity)
    ensures |e.body| <= |bytes|
  {
    var n := Min(|bytes|, limits.maxHeaderBytes);
    var end := HeaderEndFrom(bytes, n, 0);
    if end < 0 then Entity(reader.fields(bytes[..n]), [])
    else Entity(reader.fields(bytes[..end]), bytes[end + BlankLine(bytes, end)..])
  }

  method ParseEntity(reader: Reader, limits: Limits, bytes: Bytes) returns (e: Entity)
    ensures e == EntityOf(reader, limits, bytes)
  {
    var end, bodyStart := HeaderEnd(bytes, limits.maxHeaderBytes);
    if end < 0 {
      return Entity(reader.fields(bytes[..Min(|bytes|, limits.maxHeaderBytes)]), []);
    }
    return Entity(reader.fields(bytes[..end]), bytes[bodyStart..]);
  }

  // An entity is what stands before the first empty line and what stands after it.
  lemma EntityIs(reader: Reader, limits: Limits, bytes: Bytes, end: nat, bodyStart: nat)
    requires EndsHeaders(bytes, limits.maxHeaderBytes, end, bodyStart)
    ensures bodyStart <= |bytes|
    ensures EntityOf(reader, limits, bytes) == Entity(reader.fields(bytes[..end]), bytes[bodyStart..])
  {
    var found := HeaderEndFrom(bytes, Min(|bytes|, limits.maxHeaderBytes), 0);
    var start := if found < 0 then -1 else found + BlankLine(bytes, found);
    HeadersEnd(bytes, limits.maxHeaderBytes, found);
    HeadersEndOnce(bytes, limits.maxHeaderBytes, found, start, end, bodyStart);
  }

  // Where no empty line begins below the limit, all that is below it is headers and nothing is body.
  lemma EntityWithoutBody(reader: Reader, limits: Limits, bytes: Bytes)
    requires forall i :: 0 <= i < limits.maxHeaderBytes ==> !BlankAt(bytes, i)
    ensures EntityOf(reader, limits, bytes) ==
            Entity(reader.fields(if |bytes| > limits.maxHeaderBytes then bytes[..limits.maxHeaderBytes] else bytes), [])
  {
    HeaderEndIsFirst(bytes, Min(|bytes|, limits.maxHeaderBytes), 0);
    assert bytes[..|bytes|] == bytes;
  }

  // No empty line begins in these headers when they are followed by a line break.
  ghost predicate OneBlock(headers: Bytes, lineBreak: Bytes) {
    forall i :: 0 <= i < |headers| ==> !BlankAt(headers + lineBreak, i)
  }

  lemma BlankInPrefix(x: Bytes, y: Bytes, i: nat)
    ensures BlankAt(x, i) ==> BlankAt(x + y, i)
    ensures i + 2 < |x| ==> (BlankAt(x + y, i) <==> BlankAt(x, i))
  {
  }

  // Headers, a line break, an empty line and a body, with either kind of line break, are read as that.
  lemma ComposedEntity(reader: Reader, limits: Limits, headers: Bytes, body: Bytes)
    ensures OneBlock(headers, [CR, LF]) && |headers| + 1 < limits.maxHeaderBytes ==>
              EntityOf(reader, limits, headers + [CR, LF, CR, LF] + body) ==
              Entity(reader.fields(headers + [CR]), body)
    ensures OneBlock(headers, [LF]) && |headers| < limits.maxHeaderBytes ==>
              EntityOf(reader, limits, headers + [LF, LF] + body) == Entity(reader.fields(headers), body)
  {
    if OneBlock(headers, [CR, LF]) && |headers| + 1 < limits.maxHeaderBytes {
      var bytes := headers + [CR, LF, CR, LF] + body;
      forall i | 0 <= i < |headers| + 1
        ensures !BlankAt(bytes, i)
      {
        if i < |headers| {
          BlankInPrefix(headers + [CR, LF], [CR, LF] + body, i);
          assert bytes == (headers + [CR, LF]) + ([CR, LF] + body);
          assert !BlankAt(headers + [CR, LF], i);
        }
      }
      EntityIs(reader, limits, bytes, |headers| + 1, |headers| + 4);
      assert bytes[..|headers| + 1] == headers + [CR] && bytes[|headers| + 4..] == body;
    }
    if OneBlock(headers, [LF]) && |headers| < limits.maxHeaderBytes {
      var bytes := headers + [LF, LF] + body;
      forall i | 0 <= i < |headers|
        ensures !BlankAt(bytes, i)
      {
        assert bytes == (headers + [LF]) + ([LF] + body);
        assert !BlankAt(headers + [LF], i);
        BlankAcross(headers, body, i);
      }
      EntityIs(reader, limits, bytes, |headers|, |headers| + 2);
      assert bytes[..|headers|] == headers && bytes[|headers| + 2..] == body;
    }
  }

  lemma BlankAcross(headers: Bytes, body: Bytes, i: nat)
    requires i < |headers| && !BlankAt(headers + [LF], i)
    ensures !BlankAt(headers + [LF, LF] + body, i)
  {
  }

  // ---------------------------------------------------------------- the whole tree

  predicate IsMultipart(e: Entity) {
    "multipart/" <= e.fields.contentType
  }

  function Marker(boundary: Bytes): Bytes {
    [DASH, DASH] + boundary
  }

  // A multipart is entered above the depth limit and with a boundary to split at.
  predicate IsEntered(limits: Limits, e: Entity, depth: nat) {
    IsMultipart(e) && depth < limits.maxDepth && e.fields.boundary.Some? && e.fields.boundary.value != []
  }

  function PartsOf(limits: Limits, e: Entity): seq<Bytes>
    requires e.fields.boundary.Some? && e.fields.boundary.value != []
  {
    var marker := Marker(e.fields.boundary.value);
    SpansAreWithin(e.body, marker, limits.maxParts);
    Pieces(e.body, SpansOf(e.body, marker, limits.maxParts))
  }

  method SplitEntity(limits: Limits, e: Entity) returns (parts: seq<Bytes>)
    requires e.fields.boundary.Some? && e.fields.boundary.value != []
    ensures parts == PartsOf(limits, e)
  {
    parts := SplitMultipart(e.body, Marker(e.fields.boundary.value), limits.maxParts);
  }

  lemma SpansAreWithin(body: Bytes, marker: Bytes, maxParts: nat)
    requires IsMarker(marker)
    ensures Within(body, SpansOf(body, marker, maxParts))
    ensures var spans := SpansOf(body, marker, maxParts);
      |spans| <= maxParts && Length(spans) + 3 * |spans| <= |body|
  {
    var first := Find(body, marker, 0);
    if first >= 0 {
      var spans := Spans(body, marker, first, maxParts);
      SpansAreTheSplit(body, marker, first, maxParts, spans);
      PartsFit(body, marker, first, maxParts, spans);
      SplitIsWithin(body, marker, first, maxParts, spans);
    }
  }

  lemma {:induction false} SplitIsWithin(body: Bytes, marker: Bytes, open: nat, room: nat, spans: seq<Span>)
    requires IsSplit(body, marker, open, room, spans)
    ensures Within(body, spans)
    decreases |spans|
  {
    if spans != [] {
      SplitIsWithin(body, marker, spans[0].end, room - 1, spans[1..]);
    }
  }

  // What a message holds, in document order: its leaves, and the messages embedded above the depth limit.
  datatype Item = Text(leaf: Leaf) | Embedded(bytes: Bytes)

  function Items(reader: Reader, limits: Limits, e: Entity, depth: nat): seq<Item>
    requires depth <= limits.maxDepth
    decreases limits.maxDepth - depth, 0
  {
    if IsMultipart(e) then
      if IsEntered(limits, e, depth) then ItemsOf(reader, limits, PartsOf(limits, e), depth + 1) else []
    else
      var decoded := reader.decode(e.body, e.fields.encoding);
      if e.fields.contentType == "message/rfc822" then if depth < limits.maxDepth then [Embedded(decoded)] else []
      else [Text(Leaf(e.fields.contentType, e.fields.disposition, e.fields.filename, decoded))]
  }

  function ItemsOf(reader: Reader, limits: Limits, parts: seq<Bytes>, depth: nat): seq<Item>
    requires depth <= limits.maxDepth
    decreases limits.maxDepth - depth, |parts|
  {
    if parts == [] then []
    else
      Items(reader, limits, EntityOf(reader, limits, parts[0]), depth) + ItemsOf(reader, limits, parts[1..], depth)
  }

  // How many entities a walk with no limit on leaves would look at.
  function Visits(reader: Reader, limits: Limits, e: Entity, depth: nat): nat
    requires depth <= limits.maxDepth
    decreases limits.maxDepth - depth, 0
  {
    1 + if IsEntered(limits, e, depth) then VisitsOf(reader, limits, PartsOf(limits, e), depth + 1) else 0
  }

  function VisitsOf(reader: Reader, limits: Limits, parts: seq<Bytes>, depth: nat): nat
    requires depth <= limits.maxDepth
    decreases limits.maxDepth - depth, |parts|
  {
    if parts == [] then 0
    else
      Visits(reader, limits, EntityOf(reader, limits, parts[0]), depth) + VisitsOf(reader, limits, parts[1..], depth)
  }

  // ---------------------------------------------------------------- the walk

  datatype Found = Found(leaves: seq<Leaf>, embedded: Option<Bytes>)

  // Taking items in order until the leaves are full; only the first embedded message is kept.
  function Collect(items: seq<Item>, found: Found, maxParts: nat): Found
    decreases |items|
  {
    if items == [] || |found.leaves| >= maxParts then found
    else Collect(items[1..], Took(items[0], found), maxParts)
  }

  function Took(item: Item, found: Found): Found {
    match item
    case Text(leaf) => found.(leaves := found.leaves + [leaf])
    case Embedded(bytes) => if found.embedded.None? then found.(embedded := Some(bytes)) else found
  }

  lemma {:induction false} CollectOfConcat(x: seq<Item>, y: seq<Item>, found: Found, maxParts: nat)
    ensures Collect(x + y, found, maxParts) == Collect(y, Collect(x, found, maxParts), maxParts)
    decreases |x|
  {
    if x == [] {
      assert x + y == y;
    } else if |found.leaves| < maxParts {
      assert (x + y)[1..] == x[1..] + y;
      CollectOfConcat(x[1..], y, Took(x[0], found), maxParts);
    }
  }

  lemma CollectOne(item: Item, found: Found, maxParts: nat)
    requires |found.leaves| < maxParts
    ensures Collect([item], found, maxParts) == Took(item, found)
  {
    assert [item][1..] == [];
  }

  // How many entities the walk looks at, having found this much: it looks into none once the leaves are full.
  function Calls(reader: Reader, limits: Limits, e: Entity, depth: nat, found: Found): nat
    requires depth <= limits.maxDepth
    decreases limits.maxDepth - depth, 0
  {
    if |found.leaves| >= limits.maxParts || !IsEntered(limits, e, depth) then 1
    else 1 + CallsOf(reader, limits, PartsOf(limits, e), depth + 1, found)
  }

  function CallsOf(reader: Reader, limits: Limits, parts: seq<Bytes>, depth: nat, found: Found): nat
    requires depth <= limits.maxDepth
    decreases limits.maxDepth - depth, |parts|
  {
    if parts == [] then 0
    else
      var sub := EntityOf(reader, limits, parts[0]);
      Calls(reader, limits, sub, depth, found) +
      CallsOf(reader, limits, parts[1..], depth, Collect(Items(reader, limits, sub, depth), found, limits.maxParts))
  }

  // No more than the entities there are.
  lemma {:induction false} CallsAreVisits(reader: Reader, limits: Limits, e: Entity, depth: nat, found: Found)
    requires depth <= limits.maxDepth
    ensures 1 <= Calls(reader, limits, e, depth, found) <= Visits(reader, limits, e, depth)
    decreases limits.maxDepth - depth, 0
  {
    if IsEntered(limits, e, depth) {
      CallsOfAreVisits(reader, limits, PartsOf(limits, e), depth + 1, found);
    }
  }

  lemma {:induction false} CallsOfAreVisits(reader: Reader, limits: Limits, parts: seq<Bytes>, depth: nat, found: Found)
    requires depth <= limits.maxDepth
    ensures CallsOf(reader, limits, parts, depth, found) <= VisitsOf(reader, limits, parts, depth)
    decreases limits.maxDepth - depth, |parts| + 1
  {
    if parts != [] {
      var sub := EntityOf(reader, limits, parts[0]);
      CallsAreVisits(reader, limits, sub, depth, found);
      CallsOfAreVisits(reader, limits, parts[1..], depth,
                       Collect(Items(reader, limits, sub, depth), found, limits.maxParts));
    }
  }

  class Collector {
    var leaves: seq<Leaf>
    var embedded: Option<Bytes>
    ghost var calls: nat

    function Contents(): Found
      reads this
    {
      Found(leaves, embedded)
    }

    constructor ()
      ensures Contents() == Found([], None) && calls == 0
    {
      leaves, embedded, calls := [], None, 0;
    }

    method Walk(reader: Reader, limits: Limits, e: Entity, depth: nat)
      requires depth <= limits.maxDepth
      modifies this
      ensures Contents() == Collect(Items(reader, limits, e, depth), old(Contents()), limits.maxParts)
      ensures calls == old(calls) + Calls(reader, limits, e, depth, old(Contents()))
      decreases limits.maxDepth - depth, 0
    {
      calls := calls + 1;
      if |leaves| >= limits.maxParts {
        return;
      }
      if IsMultipart(e) {
        if depth >= limits.maxDepth || e.fields.boundary.None? || e.fields.boundary.value == [] {
          return;
        }
        var parts := SplitEntity(limits, e);
        WalkParts(reader, limits, parts, depth + 1);
        return;
      }
      TakeSingle(reader, limits, e, depth);
    }

    // An entity with no parts is a leaf or an embedded message.
    method TakeSingle(reader: Reader, limits: Limits, e: Entity, depth: nat)
      requires depth <= limits.maxDepth && !IsMultipart(e) && |leaves| < limits.maxParts
      modifies this`leaves, this`embedded
      ensures Contents() == Collect(Items(reader, limits, e, depth), old(Contents()), limits.maxParts)
    {
      var decoded := reader.decode(e.body, e.fields.encoding);
      if e.fields.contentType == "message/rfc822" {
        CollectOne(Embedded(decoded), Contents(), limits.maxParts);
        if embedded.None? && depth < limits.maxDepth {
          embedded := Some(decoded);
        }
        return;
      }
      var leaf := Leaf(e.fields.contentType, e.fields.disposition, e.fields.filename, decoded);
      CollectOne(Text(leaf), Contents(), limits.maxParts);
      leaves := leaves + [leaf];
    }

    method WalkParts(reader: Reader, limits: Limits, parts: seq<Bytes>, depth: nat)
      requires depth <= limits.maxDepth
      modifies this
      ensures Contents() == Collect(ItemsOf(reader, limits, parts, depth), old(Contents()), limits.maxParts)
      ensures calls == old(calls) + CallsOf(reader, limits, parts, depth, old(Contents()))
      decreases limits.maxDepth - depth, |parts| + 1
    {
      ghost var target := Collect(ItemsOf(reader, limits, parts, depth), Contents(), limits.maxParts);
      ghost var count := calls + CallsOf(reader, limits, parts, depth, Contents());
      assert parts[0..] == parts;
      for i := 0 to |parts|
        invariant Collect(ItemsOf(reader, limits, parts[i..], depth), Contents(), limits.maxParts) == target
        invariant calls + CallsOf(reader, limits, parts[i..], depth, Contents()) == count
      {
        assert parts[i..][0] == parts[i] && parts[i..][1..] == parts[i + 1..];
        var sub := ParseEntity(reader, limits, parts[i]);
        CollectOfConcat(Items(reader, limits, sub, depth), ItemsOf(reader, limits, parts[i + 1..], depth),
                        Contents(), limits.maxParts);
        Walk(reader, limits, sub, depth);
      }
    }
  }

  // ---------------------------------------------------------------- what the walk finds

  function Leaves(items: seq<Item>): seq<Leaf> {
    if items == [] then []
    else (if items[0].Text? then [items[0].leaf] else []) + Leaves(items[1..])
  }

  // The items up to and including the n-th leaf.
  function UpTo(items: seq<Item>, n: nat): seq<Item> {
    if items == [] || n == 0 then [] else [items[0]] + UpTo(items[1..], if items[0].Text? then n - 1 else n)
  }

  function FirstEmbedded(items: seq<Item>): Option<Bytes> {
    if items == [] then None
    else if items[0].Embedded? then Some(items[0].bytes) else FirstEmbedded(items[1..])
  }

  // The walk finds the first maxParts leaves of the tree and no others, and the first message embedded
  // before they are full.
  lemma {:induction false} FindsTheFirst(items: seq<Item>, found: Found, maxParts: nat)
    requires |found.leaves| <= maxParts
    ensures var room := maxParts - |found.leaves|;
      var end := Collect(items, found, maxParts);
      && end.leaves == found.leaves + Leaves(items)[..Min(room, |Leaves(items)|)]
      && end.embedded == if found.embedded.Some? then found.embedded else FirstEmbedded(UpTo(items, room))
    decreases |items|
  {
    if items != [] && |found.leaves| < maxParts {
      var next := Took(items[0], found);
      FindsTheFirst(items[1..], next, maxParts);
      var rest := Leaves(items[1..]);
      if items[0].Text? {
        assert Leaves(items)[..Min(maxParts - |found.leaves|, |Leaves(items)|)] ==
               [items[0].leaf] + rest[..Min(maxParts - |next.leaves|, |rest|)];
      } else {
        assert Leaves(items) == rest;
      }
      var room := maxParts - |found.leaves|;
      var tail := UpTo(items[1..], if items[0].Text? then room - 1 else room);
      assert ([items[0]] + tail)[1..] == tail;
    }
  }

  // ---------------------------------------------------------------- how much work a walk is

  function Size(items: seq<Item>): nat {
    if items == [] then 0
    else (if items[0].Text? then |items[0].leaf.bytes| else |items[0].bytes|) + Size(items[1..])
  }

  function Total(parts: seq<Bytes>): nat {
    if parts == [] then 0 else |parts[0]| + Total(parts[1..])
  }

  lemma {:induction false} SizeOfConcat(x: seq<Item>, y: seq<Item>)
    ensures Size(x + y) == Size(x) + Size(y)
    decreases |x|
  {
    if x == [] {
      assert x + y == y;
    } else {
      assert (x + y)[1..] == x[1..] + y;
      SizeOfConcat(x[1..], y);
    }
  }

  lemma {:induction false} TotalOfPieces(body: Bytes, spans: seq<Span>)
    requires Within(body, spans)
    ensures Total(Pieces(body, spans)) == Length(spans)
    decreases |spans|
  {
    if spans != [] {
      assert Pieces(body, spans)[1..] == Pieces(body, spans[1..]);
      TotalOfPieces(body, spans[1..]);
    }
  }

  lemma PartsCost(limits: Limits, e: Entity)
    requires e.fields.boundary.Some? && e.fields.boundary.value != []
    ensures var parts := PartsOf(limits, e); |parts| <= limits.maxParts && Total(parts) + |parts| <= |e.body|
  {
    var marker := Marker(e.fields.boundary.value);
    SpansAreWithin(e.body, marker, limits.maxParts);
    TotalOfPieces(e.body, SpansOf(e.body, marker, limits.maxParts));
  }

  // A walk looks at no more entities than the body has bytes, however deep it nests, and what it finds
  // is no longer than the body.
  lemma {:induction false} WalkIsLinear(reader: Reader, limits: Limits, e: Entity, depth: nat)
    requires depth <= limits.maxDepth
    ensures Visits(reader, limits, e, depth) <= 1 + |e.body|
    ensures Shrinks(reader) ==> Size(Items(reader, limits, e, depth)) <= |e.body|
    decreases limits.maxDepth - depth, 0
  {
    if IsEntered(limits, e, depth) {
      PartsCost(limits, e);
      PartsAreLinear(reader, limits, PartsOf(limits, e), depth + 1);
    } else if !IsMultipart(e) {
      var decoded := reader.decode(e.body, e.fields.encoding);
      assert Shrinks(reader) ==> |decoded| <= |e.body|;
    }
  }

  // Nor does a walk that has found something already, whatever it has found.
  lemma CallsAreLinear(reader: Reader, limits: Limits, e: Entity, depth: nat, found: Found)
    requires depth <= limits.maxDepth
    ensures Calls(reader, limits, e, depth, found) <= 1 + |e.body|
  {
    CallsAreVisits(reader, limits, e, depth, found);
    WalkIsLinear(reader, limits, e, depth);
  }

  lemma {:induction false} PartsAreLinear(reader: Reader, limits: Limits, parts: seq<Bytes>, depth: nat)
    requires depth <= limits.maxDepth
    ensures VisitsOf(reader, limits, parts, depth) <= |parts| + Total(parts)
    ensures Shrinks(reader) ==> Size(ItemsOf(reader, limits, parts, depth)) <= Total(parts)
    decreases limits.maxDepth - depth, |parts| + 1
  {
    if parts != [] {
      var sub := EntityOf(reader, limits, parts[0]);
      WalkIsLinear(reader, limits, sub, depth);
      PartsAreLinear(reader, limits, parts[1..], depth);
      SizeOfConcat(Items(reader, limits, sub, depth), ItemsOf(reader, limits, parts[1..], depth));
    }
  }

  // ---------------------------------------------------------------- a message, and those inside it

  datatype Parsed = Parsed(leaves: seq<Leaf>, truncated: bool, embedded: Option<Parsed>)

  function ParsedAt(reader: Reader, limits: Limits, raw: Bytes, depth: nat): Parsed
    decreases limits.maxDepth - depth
  {
    var truncated := |raw| > limits.maxBytes;
    var bytes := if truncated then raw[..limits.maxBytes] else raw;
    var found := Collect(Items(reader, limits, EntityOf(reader, limits, bytes), 0), Found([], None), limits.maxParts);
    Parsed(found.leaves, truncated,
           if found.embedded.None? || depth >= limits.maxDepth then None
           else Some(ParsedAt(reader, limits, found.embedded.value, depth + 1)))
  }

  method ParseMessageAt(reader: Reader, limits: Limits, raw: Bytes, depth: nat) returns (p: Parsed)
    ensures p == ParsedAt(reader, limits, raw, depth)
    decreases limits.maxDepth - depth
  {
    var truncated := |raw| > limits.maxBytes;
    var bytes := if truncated then raw[..limits.maxBytes] else raw;
    var entity := ParseEntity(reader, limits, bytes);
    var collector := new Collector();
    collector.Walk(reader, limits, entity, 0);
    if collector.embedded.None? || depth >= limits.maxDepth {
      return Parsed(collector.leaves, truncated, None);
    }
    var inner := ParseMessageAt(reader, limits, collector.embedded.value, depth + 1);
    return Parsed(collector.leaves, truncated, Some(inner));
  }

  // A message that is too long is read as its beginning, and says so.
  lemma CutIsPrefix(reader: Reader, limits: Limits, raw: Bytes, depth: nat)
    ensures ParsedAt(reader, limits, raw, depth).truncated <==> |raw| > limits.maxBytes
    ensures |raw| > limits.maxBytes ==>
              ParsedAt(reader, limits, raw, depth) ==
              ParsedAt(reader, limits, raw[..limits.maxBytes], depth).(truncated := true)
  {
  }

  function Nesting(p: Parsed): nat {
    1 + if p.embedded.Some? then Nesting(p.embedded.value) else 0
  }

  function LeafBytes(leaves: seq<Leaf>): nat {
    if leaves == [] then 0 else |leaves[0].bytes| + LeafBytes(leaves[1..])
  }

  function AllBytes(p: Parsed): nat {
    LeafBytes(p.leaves) + if p.embedded.Some? then AllBytes(p.embedded.value) else 0
  }

  ghost predicate EachWithin(p: Parsed, maxParts: nat) {
    |p.leaves| <= maxParts && (p.embedded.Some? ==> EachWithin(p.embedded.value, maxParts))
  }

  function EmbeddedBytes(found: Found): nat {
    if found.embedded.Some? then |found.embedded.value| else 0
  }

  lemma {:induction false} LeafBytesOfConcat(x: seq<Leaf>, y: seq<Leaf>)
    ensures LeafBytes(x + y) == LeafBytes(x) + LeafBytes(y)
    decreases |x|
  {
    if x == [] {
      assert x + y == y;
    } else {
      assert (x + y)[1..] == x[1..] + y;
      LeafBytesOfConcat(x[1..], y);
    }
  }

  lemma {:induction false} CollectedFits(items: seq<Item>, found: Found, maxParts: nat)
    ensures var end := Collect(items, found, maxParts);
      LeafBytes(end.leaves) + EmbeddedBytes(end) <= LeafBytes(found.leaves) + EmbeddedBytes(found) + Size(items)
    decreases |items|
  {
    if items != [] && |found.leaves| < maxParts {
      CollectedFits(items[1..], Took(items[0], found), maxParts);
      if items[0].Text? {
        LeafBytesOfConcat(found.leaves, [items[0].leaf]);
        assert [items[0].leaf][1..] == [];
      }
    }
  }

  // However it nests, a message comes apart into at most maxDepth + 1 messages of at most maxParts
  // leaves, and everything in them together is no longer than the message.
  lemma {:induction false} ParsedIsBounded(reader: Reader, limits: Limits, raw: Bytes, depth: nat)
    requires depth <= limits.maxDepth && Shrinks(reader)
    ensures var p := ParsedAt(reader, limits, raw, depth);
      && Nesting(p) <= limits.maxDepth - depth + 1
      && EachWithin(p, limits.maxParts)
      && AllBytes(p) <= Min(|raw|, limits.maxBytes)
    decreases limits.maxDepth - depth
  {
    var bytes := if |raw| > limits.maxBytes then raw[..limits.maxBytes] else raw;
    var entity := EntityOf(reader, limits, bytes);
    var items := Items(reader, limits, entity, 0);
    var found := Collect(items, Found([], None), limits.maxParts);
    FindsTheFirst(items, Found([], None), limits.maxParts);
    WalkIsLinear(reader, limits, entity, 0);
    CollectedFits(items, Found([], None), limits.maxParts);
    if found.embedded.Some? && depth < limits.maxDepth {
      ParsedIsBounded(reader, limits, found.embedded.value, depth + 1);
    }
  }
}
