/**
 * JavaScript strings: sequences of UTF-16 code units, surrogates paired or not.
 */
module Utf16 {

  // One UTF-16 code unit.
  type Unit = x: int | 0 <= x < 0x1_0000

  type JsString = seq<Unit>

  predicate IsLead(u: Unit) {
    0xD800 <= u < 0xDC00
  }

  predicate IsTrail(u: Unit) {
    0xDC00 <= u < 0xE000
  }

  // Every surrogate is half of a lead-trail pair.
  predicate WellFormed(s: JsString) {
    if s == [] then true
    else if IsLead(s[0]) then |s| > 1 && IsTrail(s[1]) && WellFormed(s[2..])
    else !IsTrail(s[0]) && WellFormed(s[1..])
  }

  lemma {:induction false} WellFormedConcat(x: JsString, y: JsString)
    requires WellFormed(x) && WellFormed(y)
    ensures WellFormed(x + y)
  {
    if x == [] {
      assert x + y == y;
    } else if IsLead(x[0]) {
      assert (x + y)[2..] == x[2..] + y;
      WellFormedConcat(x[2..], y);
    } else {
      assert (x + y)[1..] == x[1..] + y;
      WellFormedConcat(x[1..], y);
    }
  }

  // RFC 8785 section 3.2.3: names are ordered by their code units, as unsigned numbers.
  predicate Less(a: JsString, b: JsString) {
    if b == [] then false
    else if a == [] then true
    else a[0] < b[0] || (a[0] == b[0] && Less(a[1..], b[1..]))
  }

  lemma {:induction false} LessIsTotal(a: JsString, b: JsString)
    ensures Less(a, b) || a == b || Less(b, a)
  {
    if a != [] && b != [] && a[0] == b[0] {
      LessIsTotal(a[1..], b[1..]);
      assert a == [a[0]] + a[1..] && b == [b[0]] + b[1..];
    }
  }

  lemma {:induction false} LessIsStrict(a: JsString, b: JsString)
    requires Less(a, b)
    ensures !Less(b, a) && a != b
  {
    if a != [] && a[0] == b[0] {
      LessIsStrict(a[1..], b[1..]);
    }
  }

  lemma {:induction false} LessIsTransitive(a: JsString, b: JsString, c: JsString)
    requires Less(a, b) && Less(b, c)
    ensures Less(a, c)
  {
    if a != [] && a[0] == b[0] == c[0] {
      LessIsTransitive(a[1..], b[1..], c[1..]);
    }
  }

  // By the first code unit in which they differ, and a beginning comes before what it begins.
  ghost predicate ComesFirst(a: JsString, b: JsString) {
    exists n :: 0 <= n <= |a| && n <= |b| && a[..n] == b[..n] && DiffersAt(a, b, n)
  }

  predicate DiffersAt(a: JsString, b: JsString, n: nat)
    requires n <= |a| && n <= |b|
  {
    n < |b| && (n == |a| || a[n] < b[n])
  }

  lemma FirstUnits(a: JsString, b: JsString, n: nat)
    requires n <= |a| && n <= |b| && a[..n] == b[..n]
    ensures n > 0 ==> a != [] && b != [] && a[0] == b[0]
  {
    assert n > 0 ==> a[..n][0] == a[0] && b[..n][0] == b[0];
  }

  lemma {:induction false} LessComesFirst(a: JsString, b: JsString)
    ensures Less(a, b) <==> ComesFirst(a, b)
  {
    if a == [] || b == [] || a[0] != b[0] {
      if Less(a, b) {
        assert a[..0] == b[..0] && DiffersAt(a, b, 0);
      }
      if ComesFirst(a, b) {
        var n :| 0 <= n <= |a| && n <= |b| && a[..n] == b[..n] && DiffersAt(a, b, n);
        FirstUnits(a, b, n);
      }
    } else {
      LessComesFirst(a[1..], b[1..]);
      if ComesFirst(a[1..], b[1..]) {
        var n :| 0 <= n <= |a[1..]| && n <= |b[1..]| && a[1..][..n] == b[1..][..n] && DiffersAt(a[1..], b[1..], n);
        assert a[..n + 1] == [a[0]] + a[1..][..n] && b[..n + 1] == [b[0]] + b[1..][..n];
        assert DiffersAt(a, b, n + 1);
      }
      if ComesFirst(a, b) {
        var n :| 0 <= n <= |a| && n <= |b| && a[..n] == b[..n] && DiffersAt(a, b, n);
        assert a[1..][..n - 1] == a[..n][1..] && b[1..][..n - 1] == b[..n][1..];
        assert DiffersAt(a[1..], b[1..], n - 1);
      }
    }
  }
}
