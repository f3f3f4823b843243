/**
 * unifiedDiff of packages/executors/src/diff.ts: the edit script cut into hunks, printed, and
 * read back.
 *
 * The reader below knows nothing of how hunks were cut. It trusts only the text: it takes each
 * hunk's lines by the counts in its header, checks them against the old lines at the stated
 * start, and copies what lies between. The printed diff is proved to take it from the old lines
 * to the new ones, for every pair of files.
 */
module UnifiedDiff {
  import opened Prelude
  import opened Text
  import opened EditScript

  const CONTEXT: nat := 3

  datatype Hunk = Hunk(oldStart: nat, oldCount: nat, newStart: nat, newCount: nat, body: seq<Op>)

  datatype DiffResult = DiffResult(text: string, additions: nat, deletions: nat)

  function LinesOf(file: Option<string>): seq<string> {
    if file.None? then [] else SplitLines(file.value)
  }

  // ---------------------------------------------------------------- printing

  function Mark(k: Kind): char {
    match k
    case Keep => ' '
    case Del => '-'
    case Add => '+'
  }

  function OpLine(op: Op): string {
    [Mark(op.kind)] + op.text
  }

  function BodyLines(body: seq<Op>): seq<string> {
    if body == [] then [] else [OpLine(body[0])] + BodyLines(body[1..])
  }

  function HunkHeader(oldStart: nat, oldCount: nat, newStart: nat, newCount: nat): string {
    "@@ -" + Decimal(oldStart) + "," + Decimal(oldCount) +
    " +" + Decimal(newStart) + "," + Decimal(newCount) + " @@"
  }

  function HunkLines(h: Hunk): seq<string> {
    [HunkHeader(h.oldStart, h.oldCount, h.newStart, h.newCount)] + BodyLines(h.body)
  }

  function PrintHunks(hunks: seq<Hunk>): seq<string> {
    if hunks == [] then [] else HunkLines(hunks[0]) + PrintHunks(hunks[1..])
  }

  function FileHeader(path: string, before: Option<string>, after: Option<string>): seq<string> {
    ["--- " + (if before.None? then "/dev/null" else "a/" + path),
     "+++ " + (if after.None? then "/dev/null" else "b/" + path)]
  }

  // ---------------------------------------------------------------- reading back

  function Expect(s: string, prefix: string): Option<string> {
    if prefix <= s then Some(s[|prefix|..]) else None
  }

  function ReadHeader(line: string): Option<(nat, nat, nat, nat)> {
    var s1 :- Expect(line, "@@ -");
    var (oldStart, s2) := ReadDigits(s1, 0);
    var s3 :- Expect(s2, ",");
    var (oldCount, s4) := ReadDigits(s3, 0);
    var s5 :- Expect(s4, " +");
    var (newStart, s6) := ReadDigits(s5, 0);
    var s7 :- Expect(s6, ",");
    var (newCount, s8) := ReadDigits(s7, 0);
    if s8 == " @@" then Some((oldStart, oldCount, newStart, newCount)) else None
  }

  // Takes lines until both counts are used up; what a line is follows from its first character.
  function ReadBody(lines: seq<string>, oldCount: nat, newCount: nat): (r: Option<(seq<Op>, seq<string>)>)
    ensures r.Some? ==> |r.value.1| <= |lines|
  {
    if oldCount == 0 && newCount == 0 then Some(([], lines))
    else if lines == [] || lines[0] == "" then None
    else
      var text := lines[0][1..];
      match lines[0][0]
      case ' ' =>
        if oldCount == 0 || newCount == 0 then None
        else
          var (body, rest) :- ReadBody(lines[1..], oldCount - 1, newCount - 1);
          Some(([Op(Keep, text)] + body, rest))
      case '-' =>
        if oldCount == 0 then None
        else
          var (body, rest) :- ReadBody(lines[1..], oldCount - 1, newCount);
          Some(([Op(Del, text)] + body, rest))
      case '+' =>
        if newCount == 0 then None
        else
          var (body, rest) :- ReadBody(lines[1..], oldCount, newCount - 1);
          Some(([Op(Add, text)] + body, rest))
      case _ => None
  }

  function ReadHunks(lines: seq<string>): Option<seq<Hunk>>
    decreases |lines|
  {
    if lines == [] then Some([])
    else
      var (oldStart, oldCount, newStart, newCount) :- ReadHeader(lines[0]);
      var (body, rest) :- ReadBody(lines[1..], oldCount, newCount);
      var more :- ReadHunks(rest);
      Some([Hunk(oldStart, oldCount, newStart, newCount, body)] + more)
  }

  // `pos` old lines have been dealt with and `out` is what they became.
  function Apply(hunks: seq<Hunk>, source: seq<string>, pos: nat, out: seq<string>): Option<seq<string>>
    requires pos <= |source|
  {
    if hunks == [] then Some(out + source[pos..])
    else
      var h := hunks[0];
      var at := h.oldStart - 1;
      if !(pos <= at && at + h.oldCount <= |source|) then None
      else if |OldSide(h.body)| != h.oldCount || |NewSide(h.body)| != h.newCount then None
      else if source[at..at + h.oldCount] != OldSide(h.body) then None
      else if |out| + (at - pos) != h.newStart - 1 then None
      else Apply(hunks[1..], source, at + h.oldCount, out + source[pos..at] + NewSide(h.body))
  }

  // Apply a printed diff, whose two file-header lines are known, to the old lines.
  function Patch(header: seq<string>, text: string, source: seq<string>): Option<seq<string>> {
    if text == "" then Some(source)
    else
      var printed :- Expect(text, Unlines(header));
      var hunks :- ReadHunks(SplitLines(printed));
      Apply(hunks, source, 0, [])
  }

  // The file a header line names, none where it names no file.
  function ReadSide(line: string, mark: string, side: string): Option<Option<string>> {
    var named :- Expect(line, mark);
    if named == "/dev/null" then Some(None)
    else
      var path :- Expect(named, side);
      Some(Some(path))
  }

  // What the first two lines of a diff say of the two sides.
  function ReadSides(text: string): Option<(Option<string>, Option<string>)> {
    var lines := Split(text);
    if |lines| < 2 then None
    else
      var before :- ReadSide(lines[0], "--- ", "a/");
      var after :- ReadSide(lines[1], "+++ ", "b/");
      Some((before, after))
  }

  // ---------------------------------------------------------------- cutting

  // Within CONTEXT operations of a change.
  ghost predicate NearChange(ops: seq<Op>, k: int) {
    exists c :: 0 <= c < |ops| && k - CONTEXT <= c <= k + CONTEXT && ops[c].kind != Keep
  }

  ghost predicate MarksContext(ops: seq<Op>, keep: seq<bool>) {
    |keep| == |ops| && forall k :: 0 <= k < |ops| ==> keep[k] == NearChange(ops, k)
  }

  function OldStep(op: Op): nat { if op.kind == Add then 0 else 1 }

  function NewStep(op: Op): nat { if op.kind == Del then 0 else 1 }

  // Hunk h shows ops[start..end]: the lines it claims are the lines there, where it says they are,
  // and the run of context it shows cannot be extended either way.
  ghost predicate ShowsRun(ops: seq<Op>, keep: seq<bool>, h: Hunk, start: nat, end: nat)
    requires |keep| == |ops|
  {
    && start < end <= |ops| && h.body == ops[start..end]
    && h.oldStart == 1 + |OldSide(ops[..start])| && h.oldCount == |OldSide(h.body)|
    && h.newStart == 1 + |NewSide(ops[..start])| && h.newCount == |NewSide(h.body)|
    && (forall k :: start <= k < end ==> keep[k])
    && (start > 0 ==> !keep[start - 1])
    && (end < |ops| ==> !keep[end])
  }

  ghost predicate InRuns(k: nat, starts: seq<nat>, ends: seq<nat>) {
    exists i :: 0 <= i < |starts| && i < |ends| && starts[i] <= k < ends[i]
  }

  // The hunks show, in order, exactly the marked operations of ops[from..to].
  ghost predicate Cut(ops: seq<Op>, keep: seq<bool>, from: nat, to: nat,
                      hunks: seq<Hunk>, starts: seq<nat>, ends: seq<nat>)
    requires |keep| == |ops|
  {
    && |starts| == |hunks| && |ends| == |hunks|
    && (forall i :: 0 <= i < |hunks| ==> ShowsRun(ops, keep, hunks[i], starts[i], ends[i]))
    && (forall i :: 0 <= i < |hunks| ==> from <= starts[i] && ends[i] <= to)
    && (forall i, j :: 0 <= i < j < |hunks| ==> ends[i] < starts[j])
    && (forall k :: from <= k < to && k < |keep| && keep[k] ==> InRuns(k, starts, ends))
  }

  ghost predicate IsCut(ops: seq<Op>, hunks: seq<Hunk>) {
    exists keep, starts, ends ::
      MarksContext(ops, keep) && Cut(ops, keep, 0, |ops|, hunks, starts, ends)
  }

  method MarkContext(ops: seq<Op>) returns (keep: array<bool>)
    ensures fresh(keep) && MarksContext(ops, keep[..])
  {
    keep := new bool[|ops|](_ => false);
    for index := 0 to |ops|
      invariant forall k :: 0 <= k < |ops| ==>
        (keep[k] <==> exists c :: 0 <= c < index && k - CONTEXT <= c <= k + CONTEXT && ops[c].kind != Keep)
    {
      if ops[index].kind != Keep {
        var last := Min(|ops| - 1, index + CONTEXT);
        var k := Max(0, index - CONTEXT);
        ghost var before := keep[..];
        while k <= last
          invariant Max(0, index - CONTEXT) <= k <= last + 1
          invariant forall i :: 0 <= i < |ops| ==>
            keep[i] == (before[i] || (index - CONTEXT <= i < k && i <= last))
        {
          keep[k] := true;
          k := k + 1;
        }
      }
    }
  }

  method CountOf(ops: seq<Op>, kind: Kind) returns (n: nat)
    ensures n == CountKind(ops, kind)
  {
    n := 0;
    for i := 0 to |ops|
      invariant n + CountKind(ops[i..], kind) == CountKind(ops, kind)
    {
      if ops[i].kind == kind {
        n := n + 1;
      }
      assert ops[i..][1..] == ops[i + 1..];
    }
  }

  method PrintChanges(ops: seq<Op>, keep: array<bool>, header: seq<string>)
    returns (lines: seq<string>, ghost hunks: seq<Hunk>, ghost starts: seq<nat>, ghost ends: seq<nat>)
    requires keep.Length == |ops|
    ensures Cut(ops, keep[..], 0, |ops|, hunks, starts, ends)
    ensures lines == header + PrintHunks(hunks)
  {
    ghost var marks := keep[..];
    lines := header;
    var oldLine: nat, newLine: nat, index: nat := 1, 1, 0;
    hunks, starts, ends := [], [], [];
    while index < |ops|
      invariant 0 <= index <= |ops|
      invariant Cut(ops, marks, 0, index, hunks, starts, ends)
      invariant oldLine == 1 + |OldSide(ops[..index])| && newLine == 1 + |NewSide(ops[..index])|
      invariant 0 < index < |ops| && marks[index] ==> !marks[index - 1]
      invariant lines == header + PrintHunks(hunks)
    {
      if !keep[index] {
        CutSkip(ops, marks, index, hunks, starts, ends);
        SidesStep(ops, index);
        oldLine := oldLine + OldStep(ops[index]);
        newLine := newLine + NewStep(ops[index]);
        index := index + 1;
      } else {
        var start := index;
        var printed: seq<string>, oldCount: nat, newCount: nat;
        printed, oldCount, newCount, index := PrintHunk(ops, keep, start, oldLine, newLine);
        ghost var h := Hunk(oldLine, oldCount, newLine, newCount, ops[start..index]);
        CutOneMore(ops, marks, hunks, starts, ends, h, start, index);
        SidesAfterRun(ops, start, index);
        PrintsOneMore(header, hunks, h, printed);
        hunks, starts, ends := hunks + [h], starts + [start], ends + [index];
        lines := lines + printed;
        oldLine, newLine := oldLine + oldCount, newLine + newCount;
      }
    }
  }

  lemma CutSkip(ops: seq<Op>, keep: seq<bool>, index: nat, hunks: seq<Hunk>, starts: seq<nat>, ends: seq<nat>)
    requires |keep| == |ops| && index < |ops| && !keep[index] && Cut(ops, keep, 0, index, hunks, starts, ends)
    ensures Cut(ops, keep, 0, index + 1, hunks, starts, ends)
  {
  }

  lemma SidesAfterRun(ops: seq<Op>, start: nat, end: nat)
    requires start <= end <= |ops|
    ensures |OldSide(ops[..end])| == |OldSide(ops[..start])| + |OldSide(ops[start..end])|
    ensures |NewSide(ops[..end])| == |NewSide(ops[..start])| + |NewSide(ops[start..end])|
  {
    SidesBetween(ops, start, end);
  }

  lemma SidesStep(ops: seq<Op>, index: nat)
    requires index < |ops|
    ensures |OldSide(ops[..index + 1])| == |OldSide(ops[..index])| + OldStep(ops[index])
    ensures |NewSide(ops[..index + 1])| == |NewSide(ops[..index])| + NewStep(ops[index])
  {
    SidesBetween(ops, index, index + 1);
    assert ops[index..index + 1] == [ops[index]];
  }

  // The inner loop of the hunk printer: one run of kept operations under its header.
  method PrintHunk(ops: seq<Op>, keep: array<bool>, start: nat, oldLine: nat, newLine: nat)
    returns (printed: seq<string>, oldCount: nat, newCount: nat, index: nat)
    requires keep.Length == |ops| && start < |ops| && keep[start]
    ensures start < index <= |ops|
    ensures (forall k :: start <= k < index ==> keep[k]) && (index < |ops| ==> !keep[index])
    ensures oldCount == |OldSide(ops[start..index])| && newCount == |NewSide(ops[start..index])|
    ensures printed == HunkLines(Hunk(oldLine, oldCount, newLine, newCount, ops[start..index]))
  {
    var body: seq<string>;
    body, oldCount, newCount, index := [], 0, 0, start;
    while index < |ops| && keep[index]
      invariant start <= index <= |ops|
      invariant forall k :: start <= k < index ==> keep[k]
      invariant body == BodyLines(ops[start..index])
      invariant oldCount == |OldSide(ops[start..index])| && newCount == |NewSide(ops[start..index])|
    {
      BodyOneMore(ops[start..index], ops[index]);
      assert ops[start..index] + [ops[index]] == ops[start..index + 1];
      body := body + [OpLine(ops[index])];
      oldCount := oldCount + OldStep(ops[index]);
      newCount := newCount + NewStep(ops[index]);
      index := index + 1;
    }
    printed := [HunkHeader(oldLine, oldCount, newLine, newCount)] + body;
  }

  lemma {:induction false} BodyOneMore(body: seq<Op>, op: Op)
    ensures BodyLines(body + [op]) == BodyLines(body) + [OpLine(op)]
    ensures |OldSide(body + [op])| == |OldSide(body)| + OldStep(op)
    ensures |NewSide(body + [op])| == |NewSide(body)| + NewStep(op)
  {
    if body != [] {
      assert (body + [op])[1..] == body[1..] + [op];
      BodyOneMore(body[1..], op);
    }
  }

  lemma RunsOneMore(k: nat, starts: seq<nat>, ends: seq<nat>, start: nat, end: nat)
    requires |starts| == |ends| && (InRuns(k, starts, ends) || start <= k < end)
    ensures InRuns(k, starts + [start], ends + [end])
  {
    var starts', ends' := starts + [start], ends + [end];
    if start <= k < end {
      assert starts'[|starts|] <= k < ends'[|ends|];
    } else {
      var i :| 0 <= i < |starts| && i < |ends| && starts[i] <= k < ends[i];
      assert starts'[i] <= k < ends'[i];
    }
  }

  lemma CutOneMore(ops: seq<Op>, keep: seq<bool>, hunks: seq<Hunk>, starts: seq<nat>, ends: seq<nat>,
                   h: Hunk, start: nat, end: nat)
    requires |keep| == |ops| && Cut(ops, keep, 0, start, hunks, starts, ends)
    requires ShowsRun(ops, keep, h, start, end)
    ensures Cut(ops, keep, 0, end, hunks + [h], starts + [start], ends + [end])
  {
    var starts', ends' := starts + [start], ends + [end];
    forall i | 0 <= i < |hunks|
      ensures ends[i] < start
    {
      // Two runs that touched would be one run.
      assert ShowsRun(ops, keep, hunks[i], starts[i], ends[i]);
    }
    forall k | 0 <= k < end && keep[k]
      ensures InRuns(k, starts', ends')
    {
      RunsOneMore(k, starts, ends, start, end);
    }
  }

  lemma PrintsOneMore(header: seq<string>, done: seq<Hunk>, h: Hunk, printed: seq<string>)
    requires printed == HunkLines(h)
    ensures header + PrintHunks(done + [h]) == header + PrintHunks(done) + printed
  {
    PrintHunksOfConcat(done, h);
  }

  lemma {:induction false} PrintHunksOfConcat(done: seq<Hunk>, h: Hunk)
    ensures PrintHunks(done + [h]) == PrintHunks(done) + HunkLines(h)
  {
    if done == [] {
      assert PrintHunks([h]) == HunkLines(h) + PrintHunks([]);
    } else {
      assert (done + [h])[1..] == done[1..] + [h];
      PrintHunksOfConcat(done[1..], h);
    }
  }

  function SideOf(path: string, file: Option<string>): Option<string> {
    if file.None? then None else Some(path)
  }

  lemma ReadPrintedSide(path: string, file: Option<string>, mark: string, side: string)
    requires |side| > 0 && side[0] != '/'
    ensures ReadSide(mark + (if file.None? then "/dev/null" else side + path), mark, side) == Some(SideOf(path, file))
  {
    var named := if file.None? then "/dev/null" else side + path;
    assert (mark + named)[|mark|..] == named;
    if file.Some? {
      assert named[0] != "/dev/null"[0];
      assert named[|side|..] == path;
    }
  }

  // The first two lines tell a new file from a deleted one and name it.
  lemma PrintedSidesAreRead(path: string, before: Option<string>, after: Option<string>, more: seq<string>)
    requires NoNewline(path)
    ensures ReadSides(Unlines(FileHeader(path, before, after) + more)) ==
            Some((SideOf(path, before), SideOf(path, after)))
  {
    var header := FileHeader(path, before, after);
    var x, y := header[0], header[1];
    var lines := header + more;
    assert lines == [x] + ([y] + more) && lines[1..] == [y] + more && lines[1..][1..] == more;
    SplitOneLine(x, Unlines([y] + more));
    SplitOneLine(y, Unlines(more));
    ReadPrintedSide(path, before, "--- ", "a/");
    ReadPrintedSide(path, after, "+++ ", "b/");
  }

  // The printed text takes the old lines to the new ones, and is empty exactly when there is nothing to
  // do. The counts are those of a shortest edit script, and what is shown is that script, cut to the
  // operations near a change.
  method UnifiedDiff(path: string, before: Option<string>, after: Option<string>) returns (r: DiffResult)
    ensures Patch(FileHeader(path, before, after), r.text, LinesOf(before)) == Some(LinesOf(after))
    ensures r.text == "" <==> LinesOf(before) == LinesOf(after)
    ensures r.text != "" && NoNewline(path) ==> ReadSides(r.text) == Some((SideOf(path, before), SideOf(path, after)))
    ensures r.additions - r.deletions == |LinesOf(after)| - |LinesOf(before)|
    ensures forall other :: IsScript(other, LinesOf(before), LinesOf(after)) ==>
              r.additions + r.deletions <= Changes(other)
    ensures var ops := Walk(LinesOf(before), LinesOf(after), 0, 0);
      && r.additions == CountKind(ops, Add) && r.deletions == CountKind(ops, Del)
      && (r.text != "" ==>
            exists hunks :: (IsCut(ops, hunks) &&
              r.text == Unlines(FileHeader(path, before, after) + PrintHunks(hunks))))
  {
    var a, b := LinesOf(before), LinesOf(after);
    var ops := Lcs(a, b);
    var additions := CountOf(ops, Add);
    var deletions := CountOf(ops, Del);
    SidesByCount(ops);
    NoChangesIffSame(a, b);
    if additions == 0 && deletions == 0 {
      return DiffResult("", 0, 0);
    }
    var keep := MarkContext(ops);
    var lines, hunks, starts, ends := PrintChanges(ops, keep, FileHeader(path, before, after));
    r := DiffResult(Unlines(lines), additions, deletions);
    LinesOfHasNoNewline(before);
    LinesOfHasNoNewline(after);
    PrintedDiffPatches(a, b, ops, keep[..], FileHeader(path, before, after), hunks, starts, ends);
    assert IsCut(ops, hunks);
    assert r.text != "";
    if NoNewline(path) {
      PrintedSidesAreRead(path, before, after, PrintHunks(hunks));
    }
  }

  // ---------------------------------------------------------------- proofs: printing is read back

  lemma ReadPrintedHeader(oldStart: nat, oldCount: nat, newStart: nat, newCount: nat)
    ensures ReadHeader(HunkHeader(oldStart, oldCount, newStart, newCount)) ==
            Some((oldStart, oldCount, newStart, newCount))
  {
    var r7 := Decimal(newCount) + " @@";
    var r5 := Decimal(newStart) + ("," + r7);
    var r3 := Decimal(oldCount) + (" +" + r5);
    var r1 := Decimal(oldStart) + ("," + r3);
    var line := HunkHeader(oldStart, oldCount, newStart, newCount);
    assert line == "@@ -" + r1;
    ReadDecimal(oldStart, "," + r3);
    ReadDecimal(oldCount, " +" + r5);
    ReadDecimal(newStart, "," + r7);
    ReadDecimal(newCount, " @@");
    assert Expect(line, "@@ -") == Some(r1);
    assert Expect("," + r3, ",") == Some(r3);
    assert Expect(" +" + r5, " +") == Some(r5);
    assert Expect("," + r7, ",") == Some(r7);
  }

  // The counts alone say where a hunk's lines end, whatever the lines look like.
  lemma {:induction false} ReadPrintedBody(body: seq<Op>, rest: seq<string>)
    ensures ReadBody(BodyLines(body) + rest, |OldSide(body)|, |NewSide(body)|) == Some((body, rest))
  {
    if body == [] {
      assert BodyLines(body) + rest == rest;
    } else {
      ReadPrintedBody(body[1..], rest);
      ReadPrintedLine(body[0], BodyLines(body[1..]) + rest, |OldSide(body[1..])|, |NewSide(body[1..])|,
                      body[1..], rest);
      assert BodyLines(body) + rest == [OpLine(body[0])] + (BodyLines(body[1..]) + rest);
      assert [body[0]] + body[1..] == body;
    }
  }

  lemma ReadPrintedLine(op: Op, lines: seq<string>, oldCount: nat, newCount: nat, body: seq<Op>, rest: seq<string>)
    requires ReadBody(lines, oldCount, newCount) == Some((body, rest))
    ensures ReadBody([OpLine(op)] + lines, oldCount + OldStep(op), newCount + NewStep(op)) == Some(([op] + body, rest))
  {
    var all := [OpLine(op)] + lines;
    assert all[1..] == lines;
    assert all[0][1..] == op.text;
  }

  ghost predicate WellCounted(h: Hunk) {
    h.oldCount == |OldSide(h.body)| && h.newCount == |NewSide(h.body)|
  }

  lemma ReadOneHunk(header: string, h: Hunk, lines: seq<string>, more: seq<string>)
    requires ReadHeader(header) == Some((h.oldStart, h.oldCount, h.newStart, h.newCount))
    requires ReadBody(lines, h.oldCount, h.newCount) == Some((h.body, more))
    requires ReadHunks(more).Some?
    ensures ReadHunks([header] + lines) == Some([h] + ReadHunks(more).value)
  {
    assert ([header] + lines)[1..] == lines;
  }

  lemma {:induction false} ReadPrintedHunks(hunks: seq<Hunk>)
    requires forall h :: h in hunks ==> WellCounted(h)
    ensures ReadHunks(PrintHunks(hunks)) == Some(hunks)
  {
    if hunks != [] {
      var h, more := hunks[0], PrintHunks(hunks[1..]);
      ReadPrintedHunks(hunks[1..]);
      assert WellCounted(h);
      ReadPrintedHeader(h.oldStart, h.oldCount, h.newStart, h.newCount);
      ReadPrintedBody(h.body, more);
      var header := HunkHeader(h.oldStart, h.oldCount, h.newStart, h.newCount);
      assert PrintHunks(hunks) == [header] + (BodyLines(h.body) + more);
      ReadOneHunk(header, h, BodyLines(h.body) + more, more);
      assert [h] + hunks[1..] == hunks;
    }
  }

  // ---------------------------------------------------------------- proofs: hunks carry one side to the other

  lemma {:induction false} OldOfConcat(x: seq<Op>, y: seq<Op>)
    ensures OldSide(x + y) == OldSide(x) + OldSide(y)
  {
    if x == [] {
      assert x + y == y;
    } else {
      assert (x + y)[1..] == x[1..] + y;
      OldOfConcat(x[1..], y);
    }
  }

  lemma {:induction false} NewOfConcat(x: seq<Op>, y: seq<Op>)
    ensures NewSide(x + y) == NewSide(x) + NewSide(y)
  {
    if x == [] {
      assert x + y == y;
    } else {
      assert (x + y)[1..] == x[1..] + y;
      NewOfConcat(x[1..], y);
    }
  }

  lemma SidesOfConcat(x: seq<Op>, y: seq<Op>)
    ensures OldSide(x + y) == OldSide(x) + OldSide(y)
    ensures NewSide(x + y) == NewSide(x) + NewSide(y)
  {
    OldOfConcat(x, y);
    NewOfConcat(x, y);
  }

  lemma {:induction false} SidesByCount(ops: seq<Op>)
    ensures |NewSide(ops)| - |OldSide(ops)| == CountKind(ops, Add) - CountKind(ops, Del)
  {
    if ops != [] {
      SidesByCount(ops[1..]);
    }
  }

  // Operations i..j account for exactly the lines between the two positions they start and end at.
  lemma SidesBetween(ops: seq<Op>, i: nat, j: nat)
    requires i <= j <= |ops|
    ensures OldSide(ops[..j]) == OldSide(ops[..i]) + OldSide(ops[i..j])
    ensures NewSide(ops[..j]) == NewSide(ops[..i]) + NewSide(ops[i..j])
    ensures |OldSide(ops[..j])| <= |OldSide(ops)|
    ensures OldSide(ops)[|OldSide(ops[..i])|..|OldSide(ops[..j])|] == OldSide(ops[i..j])
  {
    assert ops[..i] + ops[i..j] == ops[..j] && ops[..j] + ops[j..] == ops;
    SidesOfConcat(ops[..i], ops[i..j]);
    SidesOfConcat(ops[..j], ops[j..]);
  }

  lemma {:induction false} UnchangedSides(ops: seq<Op>)
    requires forall op :: op in ops ==> op.kind == Keep
    ensures OldSide(ops) == NewSide(ops)
  {
    if ops != [] {
      UnchangedSides(ops[1..]);
    }
  }

  // What no hunk shows is the same on both sides.
  lemma ElidedSides(ops: seq<Op>, keep: seq<bool>, i: nat, j: nat)
    requires MarksContext(ops, keep) && i <= j <= |ops|
    requires forall k :: i <= k < j ==> !keep[k]
    ensures OldSide(ops[i..j]) == NewSide(ops[i..j])
  {
    forall op | op in ops[i..j]
      ensures op.kind == Keep
    {
      var k :| i <= k < j && ops[k] == op;
      assert !NearChange(ops, k);
    }
    UnchangedSides(ops[i..j]);
  }

  lemma ApplyOneHunk(h: Hunk, more: seq<Hunk>, source: seq<string>, pos: nat, at: nat, out: seq<string>)
    requires pos <= at && at + h.oldCount <= |source| && WellCounted(h)
    requires h.oldStart == at + 1 && h.newStart == |out| + (at - pos) + 1
    requires source[at..at + h.oldCount] == OldSide(h.body)
    ensures Apply([h] + more, source, pos, out) ==
            Apply(more, source, at + h.oldCount, out + source[pos..at] + NewSide(h.body))
  {
    assert ([h] + more)[1..] == more;
  }

  lemma ApplyNoHunk(ops: seq<Op>, source: seq<string>, pos: nat, out: seq<string>)
    requires source == OldSide(ops) && pos <= |OldSide(ops[..|ops|])| <= |source|
    requires out + source[pos..|OldSide(ops[..|ops|])|] == NewSide(ops[..|ops|])
    ensures Apply([], source, pos, out) == Some(NewSide(ops))
  {
    assert ops[..|ops|] == ops && source[pos..|source|] == source[pos..];
  }

  // Nothing is marked between where the reader stands and the next hunk.
  lemma NothingBeforeFirst(ops: seq<Op>, keep: seq<bool>, from: nat, to: nat,
                           hunks: seq<Hunk>, starts: seq<nat>, ends: seq<nat>)
    requires |keep| == |ops| && from <= to <= |ops| && Cut(ops, keep, from, |ops|, hunks, starts, ends)
    requires if hunks == [] then to == |ops| else to == starts[0]
    ensures forall k :: from <= k < to ==> !keep[k]
    ensures hunks != [] ==> ends[0] <= |ops| && Cut(ops, keep, ends[0], |ops|, hunks[1..], starts[1..], ends[1..])
  {
    assert hunks != [] ==> ShowsRun(ops, keep, hunks[0], starts[0], ends[0]);
    if hunks != [] {
      forall k | ends[0] <= k < |ops| && keep[k]
        ensures InRuns(k, starts[1..], ends[1..])
      {
        assert InRuns(k, starts, ends);
        var i :| 0 <= i < |starts| && i < |ends| && starts[i] <= k < ends[i];
        assert starts[1..][i - 1] <= k < ends[1..][i - 1];
      }
    }
  }

  // Up to the next hunk the reader copies what is the same on both sides.
  lemma CopyUpTo(ops: seq<Op>, keep: seq<bool>, from: nat, to: nat, source: seq<string>, pos: nat, at: nat,
                 out: seq<string>)
    requires MarksContext(ops, keep) && from <= to <= |ops| && (forall k :: from <= k < to ==> !keep[k])
    requires source == OldSide(ops) && pos == |OldSide(ops[..from])| && out == NewSide(ops[..from])
    requires at == |OldSide(ops[..to])|
    ensures pos <= at <= |source| && out + source[pos..at] == NewSide(ops[..to])
  {
    ElidedSides(ops, keep, from, to);
    SidesBetween(ops, from, to);
  }

  // A hunk replaces its old lines, which stand where it says, by its new ones.
  lemma HunkFits(ops: seq<Op>, keep: seq<bool>, h: Hunk, to: nat, end: nat, source: seq<string>, at: nat,
                 out: seq<string>)
    requires |keep| == |ops| && ShowsRun(ops, keep, h, to, end)
    requires source == OldSide(ops) && at == |OldSide(ops[..to])| && out == NewSide(ops[..to])
    ensures at + h.oldCount <= |source| && source[at..at + h.oldCount] == OldSide(h.body)
    ensures at + h.oldCount == |OldSide(ops[..end])| && out + NewSide(h.body) == NewSide(ops[..end])
  {
    SidesBetween(ops, to, end);
  }

  // The reader, having dealt with ops[..from], ends with the whole new side.
  lemma {:induction false} ApplyCut(ops: seq<Op>, keep: seq<bool>, from: nat,
                                    hunks: seq<Hunk>, starts: seq<nat>, ends: seq<nat>,
                                    source: seq<string>, pos: nat, out: seq<string>)
    requires MarksContext(ops, keep) && from <= |ops| && Cut(ops, keep, from, |ops|, hunks, starts, ends)
    requires source == OldSide(ops) && pos == |OldSide(ops[..from])| && out == NewSide(ops[..from])
    ensures pos <= |source| && Apply(hunks, source, pos, out) == Some(NewSide(ops))
    decreases |hunks|
  {
    var to := if hunks == [] then |ops| else starts[0];
    var at := |OldSide(ops[..to])|;
    NothingBeforeFirst(ops, keep, from, to, hunks, starts, ends);
    CopyUpTo(ops, keep, from, to, source, pos, at, out);
    if hunks == [] {
      ApplyNoHunk(ops, source, pos, out);
    } else {
      var h, end, more, copied := hunks[0], ends[0], hunks[1..], out + source[pos..at];
      HunkFits(ops, keep, h, to, end, source, at, copied);
      ApplyCut(ops, keep, end, more, starts[1..], ends[1..], source, at + h.oldCount, copied + NewSide(h.body));
      ApplyOneHunk(h, more, source, pos, at, out);
      assert [h] + more == hunks;
    }
  }

  // ---------------------------------------------------------------- proofs: the text is its lines

  lemma {:induction false} UnlinesOfConcat(x: seq<string>, y: seq<string>)
    ensures Unlines(x + y) == Unlines(x) + Unlines(y)
  {
    if x == [] {
      assert x + y == y;
    } else {
      assert (x + y)[1..] == x[1..] + y;
      UnlinesOfConcat(x[1..], y);
    }
  }

  lemma {:induction false} SidesHoldOpTexts(ops: seq<Op>)
    ensures forall op :: op in ops ==> op.text in OldSide(ops) || op.text in NewSide(ops)
  {
    if ops != [] {
      SidesHoldOpTexts(ops[1..]);
    }
  }

  lemma {:induction false} BodyLinesHaveNoNewline(body: seq<Op>)
    requires forall op :: op in body ==> NoNewline(op.text)
    ensures forall l :: l in BodyLines(body) ==> NoNewline(l)
  {
    if body != [] {
      BodyLinesHaveNoNewline(body[1..]);
      assert NoNewline(body[0].text);
    }
  }

  lemma HeaderHasNoNewline(h: Hunk)
    ensures NoNewline(HunkHeader(h.oldStart, h.oldCount, h.newStart, h.newCount))
  {
    DecimalIsDigits(h.oldStart);
    DecimalIsDigits(h.oldCount);
    DecimalIsDigits(h.newStart);
    DecimalIsDigits(h.newCount);
  }

  lemma {:induction false} PrintedHunksHaveNoNewline(hunks: seq<Hunk>)
    requires forall h, op :: h in hunks && op in h.body ==> NoNewline(op.text)
    ensures forall l :: l in PrintHunks(hunks) ==> NoNewline(l)
  {
    if hunks != [] {
      BodyLinesHaveNoNewline(hunks[0].body);
      HeaderHasNoNewline(hunks[0]);
      PrintedHunksHaveNoNewline(hunks[1..]);
    }
  }

  lemma LinesOfHasNoNewline(file: Option<string>)
    ensures forall l :: l in LinesOf(file) ==> NoNewline(l)
  {
    if file.Some? {
      SplitLinesHasNoNewline(file.value);
    }
  }

  lemma PatchReadsAfterHeader(header: seq<string>, lines: seq<string>, hunks: seq<Hunk>, source: seq<string>)
    requires header != [] && forall l :: l in lines ==> NoNewline(l)
    requires ReadHunks(lines) == Some(hunks)
    ensures Patch(header, Unlines(header + lines), source) == Apply(hunks, source, 0, [])
  {
    UnlinesOfConcat(header, lines);
    SplitLinesInvertsUnlines(lines);
    var text := Unlines(header) + Unlines(lines);
    assert text != "" && text[|Unlines(header)|..] == Unlines(lines);
  }

  lemma PrintedHunksAreRead(ops: seq<Op>, keep: seq<bool>, hunks: seq<Hunk>, starts: seq<nat>, ends: seq<nat>)
    requires |keep| == |ops| && Cut(ops, keep, 0, |ops|, hunks, starts, ends)
    requires forall op :: op in ops ==> NoNewline(op.text)
    ensures forall l :: l in PrintHunks(hunks) ==> NoNewline(l)
    ensures ReadHunks(PrintHunks(hunks)) == Some(hunks)
  {
    forall h | h in hunks
      ensures WellCounted(h) && forall op :: op in h.body ==> op in ops
    {
      var i :| 0 <= i < |hunks| && hunks[i] == h;
      assert ShowsRun(ops, keep, hunks[i], starts[i], ends[i]);
    }
    PrintedHunksHaveNoNewline(hunks);
    ReadPrintedHunks(hunks);
  }

  lemma PrintedDiffPatches(a: seq<string>, b: seq<string>, ops: seq<Op>, keep: seq<bool>, header: seq<string>,
                           hunks: seq<Hunk>, starts: seq<nat>, ends: seq<nat>)
    requires IsScript(ops, a, b) && MarksContext(ops, keep) && header != []
    requires forall l :: l in a || l in b ==> NoNewline(l)
    requires Cut(ops, keep, 0, |ops|, hunks, starts, ends)
    ensures Patch(header, Unlines(header + PrintHunks(hunks)), a) == Some(b)
  {
    SidesHoldOpTexts(ops);
    PrintedHunksAreRead(ops, keep, hunks, starts, ends);
    PatchReadsAfterHeader(header, PrintHunks(hunks), hunks, a);
    assert ops[..0] == [];
    ApplyCut(ops, keep, 0, hunks, starts, ends, a, 0, []);
  }

  // ---------------------------------------------------------------- proofs: what a hunk is

  // A count of zero is printed exactly when that whole side is empty, and the line named is then 1.
  lemma ZeroCountMeansEmptySide(ops: seq<Op>, keep: seq<bool>, h: Hunk, start: nat, end: nat)
    requires MarksContext(ops, keep) && ShowsRun(ops, keep, h, start, end)
    ensures h.oldCount == 0 <==> OldSide(ops) == []
    ensures h.newCount == 0 <==> NewSide(ops) == []
    ensures (h.oldCount == 0 ==> h.oldStart == 1) && (h.newCount == 0 ==> h.newStart == 1)
  {
    SidesBetween(ops, start, end);
    SidesBetween(ops, end, |ops|);
    assert ops[..|ops|] == ops;
    if h.oldCount == 0 || h.newCount == 0 {
      NoKeepInBody(h.body);
      assert ops[start] == h.body[0] && ops[end - 1] == h.body[end - 1 - start];
      assert start > 0 ==> NearChange(ops, start - 1);
      assert end < |ops| ==> NearChange(ops, end);
      assert h.body == ops;
    }
  }

  // A new file of one line: its one hunk names line 1 of a side that has none.
  lemma AddedFileNamesLineOne()
    ensures var ops, h := [Op(Add, "a")], Hunk(1, 0, 1, 1, [Op(Add, "a")]);
      && Walk([], ["a"], 0, 0) == ops && IsCut(ops, [h])
      && HunkLines(h) == ["@@ -1,0 +1,1 @@", "+a"]
  {
    var ops, h := [Op(Add, "a")], Hunk(1, 0, 1, 1, [Op(Add, "a")]);
    assert Walk([], ["a"], 0, 1) == [];
    assert ops[1..] == [] && h.body == ops[0..1] && ops[..0] == [];
    assert OldSide(ops) == [] && NewSide(ops) == ["a"];
    assert ops[0].kind != Keep && NearChange(ops, 0);
    assert ShowsRun(ops, [true], h, 0, 1);
    assert InRuns(0, [0], [1]) by {
      assert [0][0] <= 0 < [1][0];
    }
    assert Cut(ops, [true], 0, |ops|, [h], [0], [1]);
    assert Decimal(0) == "0" && Decimal(1) == "1";
    assert OpLine(ops[0]) == "+a" && BodyLines(ops) == ["+a"] + BodyLines(ops[1..]);
    assert HunkHeader(1, 0, 1, 1) == "@@ -1,0 +1,1 @@";
  }

  lemma {:induction false} NoKeepInBody(body: seq<Op>)
    requires OldSide(body) == [] || NewSide(body) == []
    ensures forall op :: op in body ==> op.kind != Keep
  {
    if body != [] {
      NoKeepInBody(body[1..]);
    }
  }
}
