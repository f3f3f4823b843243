/**
 * Splitting a multipart body: packages/connectors-email/src/mime.ts. A part runs from the line after
 * one boundary marker to the next (section 5.1.1 of RFC 2046).
 */
module Mime {
  import opened Prelude
  import opened Utf8

  type Bytes = seq<Byte>

  const CR: Byte := 13
  const LF: Byte := 10
  const DASH: Byte := 45

  // ---------------------------------------------------------------- byte search

  predicate MatchAt(hay: Bytes, needle: Bytes, i: int) {
    0 <= i && i + |needle| <= |hay| && hay[i..i + |needle|] == needle
  }

  ghost predicate FirstMatch(hay: Bytes, needle: Bytes, from: nat, i: int) {
    from <= i && MatchAt(hay, needle, i) && forall j :: from <= j < i ==> !MatchAt(hay, needle, j)
  }

  // The first match at or after `from`, or -1.
  function Find(hay: Bytes, needle: Bytes, from: nat): (i: int)
    ensures i == -1 || FirstMatch(hay, needle, from, i)
    ensures i == -1 ==> forall j :: from <= j ==> !MatchAt(hay, needle, j)
    decreases |hay| - from
  {
    if from + |needle| > |hay| then -1
    else if hay[from..from + |needle|] == needle then from
    else Find(hay, needle, from + 1)
  }

  lemma FirstIsFound(hay: Bytes, needle: Bytes, from: nat, i: int)
    requires FirstMatch(hay, needle, from, i)
    ensures Find(hay, needle, from) == i
  {
    var found := Find(hay, needle, from);
    assert found == -1 ==> !MatchAt(hay, needle, i);
    assert found < i ==> found == -1 || !MatchAt(hay, needle, found);
  }

  method IndexOfBytes(hay: Bytes, needle: Bytes, from: nat) returns (at: int)
    ensures at == -1 || FirstMatch(hay, needle, from, at)
    ensures at == -1 ==> forall j :: from <= j ==> !MatchAt(hay, needle, j)
  {
    var i := from;
    while i + |needle| <= |hay|
      invariant from <= i
      invariant forall j :: from <= j < i ==> !MatchAt(hay, needle, j)
    {
      var j := 0;
      while j < |needle| && hay[i + j] == needle[j]
        invariant 0 <= j <= |needle|
        invariant hay[i..i + j] == needle[..j]
      {
        j := j + 1;
      }
      if j == |needle| {
        return i;
      }
      assert hay[i..i + |needle|][j] != needle[j];
      i := i + 1;
    }
    return -1;
  }

  // ---------------------------------------------------------------- splitting

  datatype Span = Span(start: nat, end: nat)

  // A marker that closes the multipart is followed by two dashes.
  predicate Closes(body: Bytes, start: nat) {
    start + 1 < |body| && body[start] == DASH && body[start + 1] == DASH
  }

  // Past the line break that ends the boundary line, if there is one.
  function AfterBreak(body: Bytes, start: nat): nat {
    var s := if start < |body| && body[start] == CR then start + 1 else start;
    if s < |body| && body[s] == LF then s + 1 else s
  }

  predicate IsMarker(marker: Bytes) {
    |marker| > 2 && marker[0] == DASH && marker[1] == DASH
  }

  lemma BreakStopsAtMarker(body: Bytes, marker: Bytes, start: nat, end: int)
    requires IsMarker(marker) && start <= end <= |body| && (MatchAt(body, marker, end) || end == |body|)
    ensures start <= AfterBreak(body, start) <= end
  {
    assert MatchAt(body, marker, end) ==> body[end] == body[end..end + |marker|][0] == DASH;
  }

  // The part a marker opens: to the next marker, or to the end of the body.
  function PartAt(body: Bytes, marker: Bytes, open: nat): (s: Span)
    requires IsMarker(marker) && open + |marker| <= |body|
    ensures open + |marker| <= s.start <= s.end <= |body|
    ensures s.end == |body| || MatchAt(body, marker, s.end)
  {
    var start := open + |marker|;
    var next := Find(body, marker, start);
    var end := if next < 0 then |body| else next;
    BreakStopsAtMarker(body, marker, start, end);
    Span(AfterBreak(body, start), end)
  }

  // What is left of the body from a marker on, cut at the markers that follow.
  function Spans(body: Bytes, marker: Bytes, cursor: nat, room: nat): seq<Span>
    requires IsMarker(marker) && cursor + |marker| <= |body|
    decreases room
  {
    if room == 0 || Closes(body, cursor + |marker|) then []
    else
      var s := PartAt(body, marker, cursor);
      [s] + (if s.end == |body| then [] else Spans(body, marker, s.end, room - 1))
  }

  function SpansOf(body: Bytes, marker: Bytes, maxParts: nat): seq<Span>
    requires IsMarker(marker)
  {
    var first := Find(body, marker, 0);
    if first < 0 then [] else Spans(body, marker, first, maxParts)
  }

  ghost predicate Within(body: Bytes, spans: seq<Span>) {
    forall k :: 0 <= k < |spans| ==> spans[k].start <= spans[k].end <= |body|
  }

  function Pieces(body: Bytes, spans: seq<Span>): seq<Bytes>
    requires Within(body, spans)
  {
    seq(|spans|, k requires 0 <= k < |spans| => body[spans[k].start..spans[k].end])
  }

  // ---------------------------------------------------------------- what a split is

  // A part follows a marker that does not close, starts past its line break, holds no marker, and
  // ends at the next marker or with the body.
  ghost predicate IsPart(body: Bytes, marker: Bytes, open: nat, s: Span) {
    && MatchAt(body, marker, open)
    && !Closes(body, open + |marker|)
    && s.start == AfterBreak(body, open + |marker|)
    && open + |marker| <= s.start <= s.end <= |body|
    && (forall i :: open + |marker| <= i < s.end ==> !MatchAt(body, marker, i))
    && (MatchAt(body, marker, s.end) || s.end == |body|)
  }

  // The parts run on from the marker at `open`, each from the marker that ended the one before, and stop
  // only where there is room for no more, where the multipart is closed, or where the body ends.
  ghost predicate IsSplit(body: Bytes, marker: Bytes, open: nat, room: nat, spans: seq<Span>)
    decreases |spans|
  {
    if spans == [] then room == 0 || !MatchAt(body, marker, open) || Closes(body, open + |marker|)
    else room > 0 && IsPart(body, marker, open, spans[0]) && IsSplit(body, marker, spans[0].end, room - 1, spans[1..])
  }

  lemma OnlyPart(body: Bytes, marker: Bytes, open: nat, s: Span)
    requires IsMarker(marker) && MatchAt(body, marker, open) && !Closes(body, open + |marker|)
    ensures IsPart(body, marker, open, s) <==> s == PartAt(body, marker, open)
  {
    if IsPart(body, marker, open, s) && MatchAt(body, marker, s.end) {
      FirstIsFound(body, marker, open + |marker|, s.end);
    }
  }

  // The spans are the split, and the only one.
  lemma {:induction false} SpansAreTheSplit(body: Bytes, marker: Bytes, open: nat, room: nat, spans: seq<Span>)
    requires IsMarker(marker) && MatchAt(body, marker, open)
    ensures IsSplit(body, marker, open, room, spans) <==> spans == Spans(body, marker, open, room)
    decreases room
  {
    if room > 0 && !Closes(body, open + |marker|) && spans != [] {
      OnlyPart(body, marker, open, spans[0]);
      assert spans == [spans[0]] + spans[1..];
      var s := PartAt(body, marker, open);
      if s.end == |body| {
        NoSplitAtEnd(body, marker, room - 1, spans[1..]);
      } else {
        SpansAreTheSplit(body, marker, s.end, room - 1, spans[1..]);
      }
    }
  }

  lemma NoSplitAtEnd(body: Bytes, marker: Bytes, room: nat, spans: seq<Span>)
    requires IsMarker(marker)
    ensures IsSplit(body, marker, |body|, room, spans) <==> spans == []
  {
  }

  // ---------------------------------------------------------------- the loop

  // Parts one after another, from the marker at `open` to the place `close`.
  ghost predicate Chained(body: Bytes, marker: Bytes, open: nat, spans: seq<Span>, close: nat)
    decreases |spans|
  {
    if spans == [] then open == close
    else IsPart(body, marker, open, spans[0]) && Chained(body, marker, spans[0].end, spans[1..], close)
  }

  lemma {:induction false} ChainedOn(body: Bytes, marker: Bytes, open: nat, spans: seq<Span>, close: nat, s: Span)
    requires Chained(body, marker, open, spans, close) && IsPart(body, marker, close, s)
    ensures Chained(body, marker, open, spans + [s], s.end)
    decreases |spans|
  {
    if spans == [] {
      assert [s][1..] == [] && spans + [s] == [s];
    } else {
      assert (spans + [s])[1..] == spans[1..] + [s];
      ChainedOn(body, marker, spans[0].end, spans[1..], close, s);
    }
  }

  lemma {:induction false} ChainedIsSplit(body: Bytes, marker: Bytes, open: nat, spans: seq<Span>, close: nat,
                                          room: nat)
    requires Chained(body, marker, open, spans, close) && |spans| <= room
    requires |spans| == room || !MatchAt(body, marker, close) || Closes(body, close + |marker|)
    ensures IsSplit(body, marker, open, room, spans)
    decreases |spans|
  {
    if spans != [] {
      ChainedIsSplit(body, marker, spans[0].end, spans[1..], close, room - 1);
    }
  }

  method SplitMultipart(body: Bytes, marker: Bytes, maxParts: nat) returns (parts: seq<Bytes>)
    requires IsMarker(marker)
    ensures Within(body, SpansOf(body, marker, maxParts))
    ensures parts == Pieces(body, SpansOf(body, marker, maxParts))
  {
    var first := IndexOfBytes(body, marker, 0);
    if first < 0 {
      assert Find(body, marker, 0) < 0;
      return [];
    }
    FirstIsFound(body, marker, 0, first);
    ghost var spans;
    parts, spans := SplitFrom(body, marker, first, maxParts);
    SpansAreTheSplit(body, marker, first, maxParts, spans);
  }

  lemma OneMorePiece(body: Bytes, spans: seq<Span>, s: Span)
    requires Within(body, spans) && s.start <= s.end <= |body|
    ensures Within(body, spans + [s]) && Pieces(body, spans + [s]) == Pieces(body, spans) + [body[s.start..s.end]]
  {
  }

  method SplitFrom(body: Bytes, marker: Bytes, first: nat, maxParts: nat)
    returns (parts: seq<Bytes>, ghost spans: seq<Span>)
    requires IsMarker(marker) && MatchAt(body, marker, first)
    ensures IsSplit(body, marker, first, maxParts, spans)
    ensures Within(body, spans) && parts == Pieces(body, spans)
  {
    parts, spans := [], [];
    var cursor := first;
    ghost var close := first;
    while cursor >= 0 && |parts| < maxParts
      invariant close == if cursor < 0 then |body| else cursor
      invariant cursor == -1 || MatchAt(body, marker, cursor)
      invariant |parts| <= maxParts && Within(body, spans) && parts == Pieces(body, spans)
      invariant Chained(body, marker, first, spans, close)
      decreases maxParts - |parts|, cursor
    {
      var start := cursor + |marker|;
      if start + 1 < |body| && body[start] == DASH && body[start + 1] == DASH {
        break;
      }
      var next := IndexOfBytes(body, marker, start);
      var end := if next < 0 then |body| else next;
      // Skip the line break that ends the boundary line.
      var s := start;
      if s < |body| && body[s] == CR {
        s := s + 1;
      }
      if s < |body| && body[s] == LF {
        s := s + 1;
      }
      BreakStopsAtMarker(body, marker, start, end);
      assert IsPart(body, marker, cursor, Span(s, end));
      ChainedOn(body, marker, first, spans, cursor, Span(s, end));
      OneMorePiece(body, spans, Span(s, end));
      spans := spans + [Span(s, end)];
      parts := parts + [body[s..end]];
      cursor, close := next, end;
    }
    ChainedIsSplit(body, marker, first, spans, close, maxParts);
  }

  // No part is longer than what the markers leave: each is paid for by the marker before it.
  function Length(spans: seq<Span>): int {
    if spans == [] then 0 else spans[0].end - spans[0].start + Length(spans[1..])
  }

  lemma {:induction false} PartsFit(body: Bytes, marker: Bytes, open: nat, room: nat, spans: seq<Span>)
    requires IsMarker(marker) && open <= |body| && IsSplit(body, marker, open, room, spans)
    ensures |spans| <= room && Length(spans) + 3 * |spans| <= |body| - open
    decreases |spans|
  {
    if spans != [] {
      PartsFit(body, marker, spans[0].end, room - 1, spans[1..]);
    }
  }

  // ---------------------------------------------------------------- composing and splitting again

  const CRLF: Bytes := [CR, LF]

  // A multipart body as a mail agent writes it.
  function Compose(marker: Bytes, parts: seq<Bytes>, epilogue: Bytes): Bytes {
    if parts == [] then marker + [DASH, DASH] + epilogue
    else marker + CRLF + parts[0] + CRLF + Compose(marker, parts[1..], epilogue)
  }

  // The marker does not occur in the text, nor across its end.
  ghost predicate Clean(marker: Bytes, text: Bytes) {
    forall j :: 0 <= j < |text| ==> !MatchAt(text + marker, marker, j)
  }

  function Terminated(parts: seq<Bytes>): seq<Bytes> {
    seq(|parts|, k requires 0 <= k < |parts| => parts[k] + CRLF)
  }

  lemma MatchInSuffix(body: Bytes, needle: Bytes, start: nat, j: nat)
    requires start <= j && start <= |body|
    ensures MatchAt(body, needle, j) <==> MatchAt(body[start..], needle, j - start)
  {
    if j + |needle| <= |body| {
      assert body[start..][j - start..j - start + |needle|] == body[j..j + |needle|];
    }
  }

  lemma MatchInPrefix(x: Bytes, y: Bytes, needle: Bytes, j: nat)
    requires x <= y && j + |needle| <= |x|
    ensures MatchAt(x, needle, j) <==> MatchAt(y, needle, j)
  {
    assert x[j..j + |needle|] == y[j..j + |needle|];
  }

  lemma MatchStarts(hay: Bytes, needle: Bytes, j: int)
    requires needle != []
    ensures MatchAt(hay, needle, j) ==> hay[j] == needle[0]
  {
    assert MatchAt(hay, needle, j) ==> hay[j..j + |needle|][0] == hay[j];
  }

  lemma CleanAhead(body: Bytes, marker: Bytes, start: nat, text: Bytes, rest: Bytes)
    requires IsMarker(marker) && start <= |body| && body[start..] == text + rest
    requires marker <= rest && Clean(marker, text)
    ensures FirstMatch(body, marker, start, start + |text|)
  {
    assert text + marker <= text + rest;
    assert (text + rest)[|text|..|text| + |marker|] == marker;
    MatchInSuffix(body, marker, start, start + |text|);
    forall j | start <= j < start + |text|
      ensures !MatchAt(body, marker, j)
    {
      MatchInSuffix(body, marker, start, j);
      MatchInPrefix(text + marker, text + rest, marker, j - start);
    }
  }

  lemma BreakIsClean(marker: Bytes, text: Bytes)
    requires IsMarker(marker) && Clean(marker, text + CRLF)
    ensures Clean(marker, CRLF + text + CRLF)
  {
    var whole := CRLF + text + CRLF;
    forall j | 0 <= j < |whole|
      ensures !MatchAt(whole + marker, marker, j)
    {
      MatchStarts(whole + marker, marker, j);
      if j >= 2 {
        assert (whole + marker)[2..] == text + CRLF + marker;
        MatchInSuffix(whole + marker, marker, 2, j);
      }
    }
  }

  // Where a composed part stands.
  function Placed(cursor: nat, marker: Bytes, part: Bytes): Span {
    Span(cursor + |marker| + 2, cursor + |marker| + 2 + |part| + 2)
  }

  function PlacedAll(cursor: nat, marker: Bytes, parts: seq<Bytes>): seq<Span>
    decreases |parts|
  {
    if parts == [] then []
    else
      var s := Placed(cursor, marker, parts[0]);
      [s] + PlacedAll(s.end, marker, parts[1..])
  }

  lemma PlacedIsPart(body: Bytes, marker: Bytes, cursor: nat, part: Bytes, rest: Bytes)
    requires IsMarker(marker) && cursor <= |body| && marker <= rest && Clean(marker, part + CRLF)
    requires body[cursor..] == marker + (CRLF + part + CRLF + rest)
    ensures var s := Placed(cursor, marker, part);
      IsPart(body, marker, cursor, s) && body[s.start..s.end] == part + CRLF && body[s.end..] == rest
  {
    var start, text := cursor + |marker|, CRLF + part + CRLF;
    assert body[start..] == text + rest;
    assert body[cursor..start] == marker;
    assert body[start] == body[start..][0] == CR && body[start + 1] == body[start..][1] == LF;
    BreakIsClean(marker, part);
    CleanAhead(body, marker, start, text, rest);
    var s := Placed(cursor, marker, part);
    assert text[2..] == part + CRLF;
    assert body[s.start..s.end] == (text + rest)[2..|text|] == text[2..];
    assert body[s.end..] == (text + rest)[|text|..];
  }

  lemma ComposedFirst(marker: Bytes, parts: seq<Bytes>, epilogue: Bytes)
    requires parts != []
    ensures Compose(marker, parts, epilogue) ==
            marker + (CRLF + parts[0] + CRLF + Compose(marker, parts[1..], epilogue))
    ensures Terminated(parts) == [parts[0] + CRLF] + Terminated(parts[1..])
  {
  }

  lemma ComposedStarts(marker: Bytes, parts: seq<Bytes>, epilogue: Bytes)
    ensures marker <= Compose(marker, parts, epilogue)
  {
  }

  // With no part left, what stands here is the closing marker.
  lemma ClosesHere(body: Bytes, marker: Bytes, cursor: nat, epilogue: Bytes)
    requires IsMarker(marker) && cursor <= |body| && body[cursor..] == Compose(marker, [], epilogue)
    ensures Closes(body, cursor + |marker|)
  {
    var start := cursor + |marker|;
    assert body[start] == body[cursor..][|marker|] && body[start + 1] == body[cursor..][|marker| + 1];
  }

  // What a mail agent composed is cut where its parts stand.
  lemma {:induction false} PlacedIsSplit(body: Bytes, marker: Bytes, cursor: nat, parts: seq<Bytes>, epilogue: Bytes,
                                         room: nat, spans: seq<Span>)
    requires IsMarker(marker) && cursor <= |body| && body[cursor..] == Compose(marker, parts, epilogue)
    requires |parts| <= room && forall k :: 0 <= k < |parts| ==> Clean(marker, parts[k] + CRLF)
    requires spans == PlacedAll(cursor, marker, parts)
    ensures IsSplit(body, marker, cursor, room, spans)
    ensures Within(body, spans) && Pieces(body, spans) == Terminated(parts)
    decreases |parts|
  {
    if parts == [] {
      ClosesHere(body, marker, cursor, epilogue);
    } else {
      var rest, s := Compose(marker, parts[1..], epilogue), Placed(cursor, marker, parts[0]);
      var more := PlacedAll(s.end, marker, parts[1..]);
      ComposedFirst(marker, parts, epilogue);
      ComposedStarts(marker, parts[1..], epilogue);
      PlacedIsPart(body, marker, cursor, parts[0], rest);
      PlacedIsSplit(body, marker, s.end, parts[1..], epilogue, room - 1, more);
      SplitCons(body, marker, cursor, room, s, more);
    }
  }

  lemma SplitCons(body: Bytes, marker: Bytes, open: nat, room: nat, s: Span, more: seq<Span>)
    requires room > 0 && IsPart(body, marker, open, s) && Within(body, more)
    requires IsSplit(body, marker, s.end, room - 1, more)
    ensures IsSplit(body, marker, open, room, [s] + more) && Within(body, [s] + more)
    ensures Pieces(body, [s] + more) == [body[s.start..s.end]] + Pieces(body, more)
  {
    assert ([s] + more)[1..] == more;
  }

  // Splitting undoes composing, whatever stands before the first marker and after the last.
  lemma SplitInvertsCompose(preamble: Bytes, marker: Bytes, parts: seq<Bytes>, epilogue: Bytes, maxParts: nat)
    requires IsMarker(marker) && Clean(marker, preamble) && |parts| <= maxParts
    requires forall k :: 0 <= k < |parts| ==> Clean(marker, parts[k] + CRLF)
    ensures var body := preamble + Compose(marker, parts, epilogue);
      Within(body, SpansOf(body, marker, maxParts)) &&
      Pieces(body, SpansOf(body, marker, maxParts)) == Terminated(parts)
  {
    var rest := Compose(marker, parts, epilogue);
    var body := preamble + rest;
    assert body[0..] == preamble + rest && marker <= rest;
    CleanAhead(body, marker, 0, preamble, rest);
    FirstIsFound(body, marker, 0, |preamble|);
    assert body[|preamble|..] == rest;
    PlacedIsSplit(body, marker, |preamble|, parts, epilogue, maxParts, PlacedAll(|preamble|, marker, parts));
    SpansAreTheSplit(body, marker, |preamble|, maxParts, PlacedAll(|preamble|, marker, parts));
  }
}
