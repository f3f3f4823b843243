/** Lines and decimal numerals, as JavaScript's `split`, `join` and template literals give them. */
module Text {
  import opened Prelude

  // ---------------------------------------------------------------- lines

  // text.split('\n'): never empty, and one longer than the number of line feeds.
  function Split(text: string): seq<string> {
    if text == [] then [""]
    else
      var rest := Split(text[1..]);
      if text[0] == '\n' then [""] + rest else [[text[0]] + rest[0]] + rest[1..]
  }

  // packages/executors/src/diff.ts, splitLines: a final line feed ends a line, it does not start one.
  function SplitLines(text: string): seq<string> {
    if text == "" then []
    else
      var lines := Split(text);
      if lines[|lines| - 1] == "" then lines[..|lines| - 1] else lines
  }

  // Every line followed by its line feed.
  function Unlines(lines: seq<string>): string {
    if lines == [] then "" else lines[0] + "\n" + Unlines(lines[1..])
  }

  predicate NoNewline(line: string) {
    '\n' !in line
  }

  lemma {:induction false} SplitOneLine(line: string, rest: string)
    requires NoNewline(line)
    ensures Split(line + "\n" + rest) == [line] + Split(rest)
  {
    var text := line + "\n" + rest;
    if line == "" {
      assert text[1..] == rest;
    } else {
      assert text[1..] == line[1..] + "\n" + rest;
      SplitOneLine(line[1..], rest);
      assert [line[0]] + line[1..] == line;
    }
  }

  lemma {:induction false} SplitUnlines(lines: seq<string>)
    requires forall l :: l in lines ==> NoNewline(l)
    ensures Split(Unlines(lines)) == lines + [""]
  {
    if lines != [] {
      SplitUnlines(lines[1..]);
      SplitOneLine(lines[0], Unlines(lines[1..]));
    }
  }

  // Splitting undoes printing one line per line feed.
  lemma SplitLinesInvertsUnlines(lines: seq<string>)
    requires forall l :: l in lines ==> NoNewline(l)
    ensures SplitLines(Unlines(lines)) == lines
  {
    SplitUnlines(lines);
    if lines != [] {
      assert |Unlines(lines)| >= 1;
    }
  }

  lemma {:induction false} SplitHasNoNewline(text: string)
    ensures forall l :: l in Split(text) ==> NoNewline(l)
  {
    if text != [] {
      SplitHasNoNewline(text[1..]);
      var rest := Split(text[1..]);
      assert rest[0] in rest;
      forall l | l in rest[1..] ensures NoNewline(l) {
        assert l in rest;
      }
    }
  }

  lemma SplitLinesHasNoNewline(text: string)
    ensures forall l :: l in SplitLines(text) ==> NoNewline(l)
  {
    SplitHasNoNewline(text);
    forall l | l in SplitLines(text) ensures NoNewline(l) {
      assert l in Split(text);
    }
  }

  // ---------------------------------------------------------------- numerals

  function Digit(d: nat): (c: char)
    requires d < 10
    ensures IsDigit(c) && DigitValue(c) == d
  {
    '0' + d as char
  }

  predicate IsDigit(c: char) {
    '0' <= c <= '9'
  }

  function DigitValue(c: char): nat
    requires IsDigit(c)
  {
    c as nat - '0' as nat
  }

  function Decimal(n: nat): string {
    if n < 10 then [Digit(n)] else Decimal(n / 10) + [Digit(n % 10)]
  }

  // The longest run of digits at the start of s, read after those already in `acc`.
  function ReadDigits(s: string, acc: nat): (nat, string) {
    if s == "" || !IsDigit(s[0]) then (acc, s) else ReadDigits(s[1..], 10 * acc + DigitValue(s[0]))
  }

  lemma {:induction false} ReadDigitsOfDecimal(n: nat, rest: string, more: string)
    requires forall c :: c in more ==> IsDigit(c)
    ensures ReadDigits(Decimal(n) + more + rest, 0) == ReadDigits(more + rest, n)
  {
    if n < 10 {
      assert (Decimal(n) + more + rest)[1..] == more + rest;
    } else {
      var last := [Digit(n % 10)];
      ReadDigitsOfDecimal(n / 10, rest, last + more);
      assert Decimal(n) + more + rest == Decimal(n / 10) + (last + more) + rest;
      assert (last + more + rest)[1..] == more + rest;
    }
  }

  lemma ReadDecimal(n: nat, rest: string)
    requires rest != "" ==> !IsDigit(rest[0])
    ensures ReadDigits(Decimal(n) + rest, 0) == (n, rest)
  {
    ReadDigitsOfDecimal(n, rest, "");
    assert Decimal(n) + "" + rest == Decimal(n) + rest;
    assert "" + rest == rest;
  }

  lemma {:induction false} DecimalIsDigits(n: nat)
    ensures Decimal(n) != "" && forall c :: c in Decimal(n) ==> IsDigit(c)
  {
    if n >= 10 {
      DecimalIsDigits(n / 10);
    }
  }
}
