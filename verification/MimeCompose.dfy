/**
 * A message put together the way a mail agent does it, and what the walk finds in it: the leaves that were
 * put in, in order, each with its own headers and body.
 */
module MimeCompose {
  import opened Prelude
  import opened Mime
  import opened MimeWalk

  // Headers and either a body, or parts between markers with something before and after them.
  datatype Mail =
    | Single(headers: Bytes, body: Bytes)
    | Multi(headers: Bytes, preamble: Bytes, parts: seq<Mail>, epilogue: Bytes)

  // The headers as they are read: up to the line feed that ends them.
  function FieldsOf(reader: Reader, m: Mail): Fields {
    reader.fields(m.headers + [CR])
  }

  function MarkerOf(reader: Reader, m: Mail): Bytes {
    match FieldsOf(reader, m).boundary
    case Some(boundary) => [DASH, DASH] + boundary
    case None => [DASH, DASH]
  }

  function BytesOf(reader: Reader, m: Mail): Bytes
    decreases m, 0
  {
    m.headers + [CR, LF, CR, LF] +
    match m
    case Single(_, body) => body
    case Multi(_, preamble, parts, epilogue) =>
      preamble + Compose(MarkerOf(reader, m), AllBytes(reader, parts), epilogue)
  }

  function AllBytes(reader: Reader, parts: seq<Mail>): (all: seq<Bytes>)
    ensures |all| == |parts|
    decreases parts, 0
  {
    if parts == [] then [] else [BytesOf(reader, parts[0])] + AllBytes(reader, parts[1..])
  }

  predicate SaysMultipart(fields: Fields) {
    |fields.contentType| >= 10 && fields.contentType[..10] == "multipart/"
  }

  // The headers are one block, a single part says it is one, and a multipart has a boundary that occurs in
  // none of its parts, stands above the depth limit and has no more parts than may be read.
  ghost predicate Proper(reader: Reader, limits: Limits, m: Mail, depth: nat)
    decreases m, 0
  {
    var fields := FieldsOf(reader, m);
    && OneBlock(m.headers, [CR, LF]) && |m.headers| + 1 < limits.maxHeaderBytes
    && match m
       case Single(_, _) => !SaysMultipart(fields)
       case Multi(_, preamble, parts, _) =>
         && SaysMultipart(fields) && depth < limits.maxDepth
         && fields.boundary.Some? && fields.boundary.value != []
         && IsMarker(MarkerOf(reader, m)) && Clean(MarkerOf(reader, m), preamble) && |parts| <= limits.maxParts
         && AllProper(reader, limits, parts, MarkerOf(reader, m), depth + 1)
  }

  ghost predicate AllProper(reader: Reader, limits: Limits, parts: seq<Mail>, marker: Bytes, depth: nat)
    decreases parts, 0
  {
    parts == [] ||
    (Proper(reader, limits, parts[0], depth) && Clean(marker, BytesOf(reader, parts[0]) + CRLF) &&
     AllProper(reader, limits, parts[1..], marker, depth))
  }

  // What a message holds, in order; the line break before the next marker belongs to the part it follows.
  function Contents(reader: Reader, limits: Limits, m: Mail, depth: nat, tail: Bytes): seq<Item>
    decreases m, 0
  {
    var fields := FieldsOf(reader, m);
    match m
    case Multi(_, _, parts, _) => AllContents(reader, limits, parts, depth + 1)
    case Single(_, body) =>
      var decoded := reader.decode(body + tail, fields.encoding);
      if fields.contentType == "message/rfc822" then if depth < limits.maxDepth then [Embedded(decoded)] else []
      else [Text(Leaf(fields.contentType, fields.disposition, fields.filename, decoded))]
  }

  function AllContents(reader: Reader, limits: Limits, parts: seq<Mail>, depth: nat): seq<Item>
    decreases parts, 0
  {
    if parts == [] then []
    else Contents(reader, limits, parts[0], depth, CRLF) + AllContents(reader, limits, parts[1..], depth)
  }

  lemma {:induction false} EpilogueGrows(marker: Bytes, parts: seq<Bytes>, epilogue: Bytes, tail: Bytes)
    ensures Compose(marker, parts, epilogue) + tail == Compose(marker, parts, epilogue + tail)
    decreases |parts|
  {
    if parts == [] {
      assert marker + [DASH, DASH] + epilogue + tail == marker + [DASH, DASH] + (epilogue + tail);
    } else {
      EpilogueGrows(marker, parts[1..], epilogue, tail);
      var head, rest := marker + CRLF + parts[0] + CRLF, Compose(marker, parts[1..], epilogue);
      assert head + rest + tail == head + (rest + tail);
    }
  }

  lemma {:induction false} AllAreClean(reader: Reader, limits: Limits, parts: seq<Mail>, marker: Bytes, depth: nat)
    requires AllProper(reader, limits, parts, marker, depth)
    ensures forall k :: 0 <= k < |parts| ==> Clean(marker, AllBytes(reader, parts)[k] + CRLF)
    decreases |parts|
  {
    if parts != [] {
      AllAreClean(reader, limits, parts[1..], marker, depth);
    }
  }

  lemma ReadsEntity(reader: Reader, limits: Limits, headers: Bytes, body: Bytes, tail: Bytes)
    requires OneBlock(headers, [CR, LF]) && |headers| + 1 < limits.maxHeaderBytes
    ensures EntityOf(reader, limits, headers + [CR, LF, CR, LF] + body + tail) ==
            Entity(reader.fields(headers + [CR]), body + tail)
  {
    ComposedEntity(reader, limits, headers, body + tail);
    assert headers + [CR, LF, CR, LF] + body + tail == headers + [CR, LF, CR, LF] + (body + tail);
  }

  lemma EntityOfMulti(reader: Reader, limits: Limits, m: Mail, depth: nat, tail: Bytes, marker: Bytes, all: seq<Bytes>)
    requires m.Multi? && Proper(reader, limits, m, depth)
    requires marker == MarkerOf(reader, m) && all == AllBytes(reader, m.parts)
    ensures EntityOf(reader, limits, BytesOf(reader, m) + tail) ==
            Entity(FieldsOf(reader, m), m.preamble + Compose(marker, all, m.epilogue + tail))
  {
    var composed := Compose(marker, all, m.epilogue);
    ReadsEntity(reader, limits, m.headers, m.preamble + composed, tail);
    EpilogueGrows(marker, all, m.epilogue, tail);
    assert m.preamble + composed + tail == m.preamble + (composed + tail);
  }

  lemma EntersParts(reader: Reader, limits: Limits, e: Entity, depth: nat, preamble: Bytes, all: seq<Bytes>,
                    epilogue: Bytes, marker: Bytes)
    requires IsMultipart(e) && IsEntered(limits, e, depth) && marker == Marker(e.fields.boundary.value)
    requires IsMarker(marker) && Clean(marker, preamble) && |all| <= limits.maxParts
    requires forall k :: 0 <= k < |all| ==> Clean(marker, all[k] + CRLF)
    requires e.body == preamble + Compose(marker, all, epilogue)
    ensures Items(reader, limits, e, depth) == ItemsOf(reader, limits, Terminated(all), depth + 1)
  {
    SplitInvertsCompose(preamble, marker, all, epilogue, limits.maxParts);
  }

  // Reading a proper message gives back what it was put together from.
  lemma {:induction false} ReadsContents(reader: Reader, limits: Limits, m: Mail, depth: nat, tail: Bytes)
    requires depth <= limits.maxDepth && Proper(reader, limits, m, depth)
    ensures Items(reader, limits, EntityOf(reader, limits, BytesOf(reader, m) + tail), depth) ==
            Contents(reader, limits, m, depth, tail)
    decreases m, 0
  {
    match m
    case Single(headers, body) => ReadsEntity(reader, limits, headers, body, tail);
    case Multi(_, preamble, parts, epilogue) =>
      var marker, all := MarkerOf(reader, m), AllBytes(reader, parts);
      EntityOfMulti(reader, limits, m, depth, tail, marker, all);
      AllAreClean(reader, limits, parts, marker, depth + 1);
      EntersParts(reader, limits, EntityOf(reader, limits, BytesOf(reader, m) + tail), depth, preamble, all,
                  epilogue + tail, marker);
      AllRead(reader, limits, parts, marker, depth + 1);
  }

  lemma {:induction false} AllRead(reader: Reader, limits: Limits, parts: seq<Mail>, marker: Bytes, depth: nat)
    requires depth <= limits.maxDepth && AllProper(reader, limits, parts, marker, depth)
    ensures ItemsOf(reader, limits, Terminated(AllBytes(reader, parts)), depth) ==
            AllContents(reader, limits, parts, depth)
    decreases parts, 0
  {
    if parts != [] {
      var all := AllBytes(reader, parts);
      ReadsContents(reader, limits, parts[0], depth, CRLF);
      AllRead(reader, limits, parts[1..], marker, depth);
      assert all[1..] == AllBytes(reader, parts[1..]);
      assert Terminated(all) == [all[0] + CRLF] + Terminated(all[1..]);
      assert Terminated(all)[1..] == Terminated(all[1..]);
    }
  }

  // What parsing gives for these items.
  ghost predicate ComesApart(reader: Reader, limits: Limits, depth: nat, items: seq<Item>, p: Parsed) {
    && p.leaves == Leaves(items)[..Min(limits.maxParts, |Leaves(items)|)]
    && p.embedded ==
       match FirstEmbedded(UpTo(items, limits.maxParts))
       case None => None
       case Some(inner) => if depth < limits.maxDepth then Some(ParsedAt(reader, limits, inner, depth + 1)) else None
  }

  lemma CollectedFirst(items: seq<Item>, maxParts: nat, found: Found)
    requires found == Collect(items, Found([], None), maxParts)
    ensures found.leaves == Leaves(items)[..Min(maxParts, |Leaves(items)|)]
    ensures found.embedded == FirstEmbedded(UpTo(items, maxParts))
  {
    FindsTheFirst(items, Found([], None), maxParts);
    var some := Leaves(items)[..Min(maxParts, |Leaves(items)|)];
    assert [] + some == some;
  }

  lemma ParsesItems(reader: Reader, limits: Limits, raw: Bytes, depth: nat, items: seq<Item>)
    requires |raw| <= limits.maxBytes && items == Items(reader, limits, EntityOf(reader, limits, raw), 0)
    ensures var p := ParsedAt(reader, limits, raw, depth); !p.truncated && ComesApart(reader, limits, depth, items, p)
  {
    CollectedFirst(items, limits.maxParts, Collect(items, Found([], None), limits.maxParts));
  }

  // A whole message comes apart into the leaves that were put in, as many as may be kept, and the first message
  // embedded before they are full, which comes apart in turn.
  lemma ParsesMail(reader: Reader, limits: Limits, m: Mail, depth: nat)
    requires depth <= limits.maxDepth && Proper(reader, limits, m, 0) && |BytesOf(reader, m)| <= limits.maxBytes
    ensures var p := ParsedAt(reader, limits, BytesOf(reader, m), depth);
      !p.truncated && ComesApart(reader, limits, depth, Contents(reader, limits, m, 0, []), p)
  {
    var bytes := BytesOf(reader, m);
    ReadsContents(reader, limits, m, 0, []);
    assert bytes + [] == bytes;
    ParsesItems(reader, limits, bytes, depth, Contents(reader, limits, m, 0, []));
  }
}
