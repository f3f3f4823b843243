/**
 * Which text the canonical printer picks of the many that say the same: the shortest spelling of every
 * string, hexadecimal digits in lower case, and the names of every object in order of their code units.
 */
module JcsSpelling {
  import opened Prelude
  import opened Utf16
  import opened Jcs
  import opened JcsReader

  // ---------------------------------------------------------------- the shortest spelling of a string

  predicate IsUpperHex(u: Unit) {
    65 <= u <= 70
  }

  // Up to the closing quote, no hexadecimal digit of an escape is a capital letter.
  predicate LowerCased(t: JsString)
    decreases |t|
  {
    t == [] || t[0] == QUOTE ||
    match ReadUnit(t)
    case None => true
    case Some((_, n)) =>
      && (n == 6 ==> !IsUpperHex(t[2]) && !IsUpperHex(t[3]) && !IsUpperHex(t[4]) && !IsUpperHex(t[5]))
      && LowerCased(t[n..])
  }

  // One unit more costs no more than its own escape: it may turn out to be half of a pair.
  lemma EscapeOfOneMore(u: Unit, s: JsString)
    ensures |Escape([u] + s)| <= |EscapeUnit(u)| + |Escape(s)|
    ensures !IsLead(u) ==> Escape([u] + s) == EscapeUnit(u) + Escape(s)
  {
    var whole := [u] + s;
    assert whole[1..] == s;
    if IsLead(u) && s != [] && IsTrail(s[0]) {
      assert whole[2..] == s[1..];
      assert Escape(s) == EscapeUnit(s[0]) + Escape(s[1..]);
    }
  }

  lemma EscapeOfPair(a: Unit, b: Unit, s: JsString)
    requires IsLead(a) && IsTrail(b)
    ensures Escape([a] + ([b] + s)) == [a, b] + Escape(s)
  {
    var whole := [a] + ([b] + s);
    assert whole[2..] == s && whole[..2] == [a, b];
  }

  // No spelling of one unit is shorter than its escape, unless it is half of a surrogate pair spelled plainly.
  lemma UnitIsShortest(t: JsString, u: Unit, n: nat)
    requires t != [] && t[0] != QUOTE && ReadUnit(t) == Some((u, n))
    ensures n == 1 ==> t[0] == u
    ensures n == 1 && !IsLead(u) && !IsTrail(u) ==> EscapeUnit(u) == [u]
    ensures n > 1 ==> |EscapeUnit(u)| <= n && t[0] == BACKSLASH && !IsLead(t[0]) && !IsTrail(t[0])
  {
  }

  lemma {:induction false} EscapedHasNoSurrogate(t: JsString, n: nat)
    requires n <= |t| && WellFormed(t) && forall i :: 0 <= i < n ==> !IsLead(t[i]) && !IsTrail(t[i])
    ensures WellFormed(t[n..])
    decreases n
  {
    if n == 0 {
      assert t[0..] == t;
    } else {
      EscapedHasNoSurrogate(t[1..], n - 1);
      assert t[1..][n - 1..] == t[n..];
    }
  }

  lemma HexIsPlain(x: Unit)
    ensures Unhex(x).Some? || Unescape(x).Some? || x == 117 || x == BACKSLASH ==> !IsLead(x) && !IsTrail(x)
  {
  }

  lemma EscapeIsPlain(t: JsString, u: Unit, n: nat)
    requires t != [] && ReadUnit(t) == Some((u, n))
    ensures n > 1 ==> n <= |t| && forall i :: 0 <= i < n ==> !IsLead(t[i]) && !IsTrail(t[i])
    ensures n == 1 ==> t[0] == u
  {
    if n == 6 {
      HexIsPlain(t[2]);
      HexIsPlain(t[3]);
      HexIsPlain(t[4]);
      HexIsPlain(t[5]);
    } else if n == 2 {
      HexIsPlain(t[1]);
    }
  }

  lemma AfterUnit(t: JsString, u: Unit, n: nat)
    requires t != [] && t[0] != QUOTE && ReadUnit(t) == Some((u, n)) && WellFormed(t)
    ensures n > 1 || !IsLead(u) ==> WellFormed(t[n..])
    ensures n == 1 && !IsLead(u) ==> !IsTrail(u)
    ensures n == 1 && IsLead(u) ==> |t| > 1 && IsTrail(t[1]) && WellFormed(t[2..])
  {
    EscapeIsPlain(t, u, n);
    if n > 1 || !IsLead(u) {
      EscapedHasNoSurrogate(t, n);
    }
  }

  // No text without unpaired surrogates spells a string in fewer units.
  lemma {:induction false} EscapeIsShortest(t: JsString, s: JsString, rest: JsString)
    requires WellFormed(t) && ReadString(t) == Some((s, rest))
    ensures |Escape(s)| + 1 + |rest| <= |t|
    decreases |t|
  {
    if t[0] != QUOTE {
      var (u, n) := ReadUnit(t).value;
      AfterUnit(t, u, n);
      UnitIsShortest(t, u, n);
      var s' := ReadString(t[n..]).value.0;
      if n == 1 && IsLead(u) {
        assert ReadUnit(t[1..]) == Some((t[1], 1)) && t[1..][1..] == t[2..];
        var s'' := ReadString(t[2..]).value.0;
        EscapeIsShortest(t[2..], s'', rest);
        EscapeOfPair(u, t[1], s'');
      } else {
        EscapeIsShortest(t[n..], s', rest);
        EscapeOfOneMore(u, s');
      }
    }
  }

  lemma LowerHexIsTheDigit(x: Unit)
    requires Unhex(x).Some? && !IsUpperHex(x)
    ensures HexDigit(Unhex(x).value) == x
  {
  }

  lemma DigitsOf(a: nat, b: nat, c: nat, d: nat, u: Unit)
    requires a < 16 && b < 16 && c < 16 && d < 16 && u == 4096 * a + 256 * b + 16 * c + d
    ensures u % 16 == d && u / 16 % 16 == c && u / 16 / 16 % 16 == b && u / 16 / 16 / 16 == a
  {
    assert u == 16 * (256 * a + 16 * b + c) + d;
    assert u / 16 == 256 * a + 16 * b + c == 16 * (16 * a + b) + c;
    assert u / 16 / 16 == 16 * a + b;
  }

  lemma SixIsTheEscape(t: JsString, u: Unit)
    requires t != [] && ReadUnit(t) == Some((u, 6)) && LowerCased(t) && t[0] != QUOTE && |EscapeUnit(u)| == 6
    ensures t[..6] == EscapeUnit(u)
  {
    var a, b, c, d := Unhex(t[2]).value, Unhex(t[3]).value, Unhex(t[4]).value, Unhex(t[5]).value;
    DigitsOf(a, b, c, d, u);
    LowerHexIsTheDigit(t[2]);
    LowerHexIsTheDigit(t[3]);
    LowerHexIsTheDigit(t[4]);
    LowerHexIsTheDigit(t[5]);
  }

  // A spelling of one unit that is no longer than its escape is its escape.
  lemma UnitIsTheShortest(t: JsString, u: Unit, n: nat)
    requires t != [] && t[0] != QUOTE && ReadUnit(t) == Some((u, n)) && LowerCased(t)
    requires n == |EscapeUnit(u)| && (n == 1 ==> !IsLead(u) && !IsTrail(u))
    ensures t[..n] == EscapeUnit(u)
  {
    if n == 6 {
      SixIsTheEscape(t, u);
    } else if n == 2 {
      TwoIsTheEscape(t, u);
    } else {
      UnitIsShortest(t, u, n);
    }
  }

  lemma TwoIsTheEscape(t: JsString, u: Unit)
    requires t != [] && ReadUnit(t) == Some((u, 2)) && |EscapeUnit(u)| == 2
    ensures t[..2] == EscapeUnit(u)
  {
  }

  // An escaped half of what could have been a plain pair is not the shortest.
  lemma EscapedLeadIsLonger(u: Unit, s: JsString)
    ensures |Escape([u] + s)| == |EscapeUnit(u)| + |Escape(s)| ==> Escape([u] + s) == EscapeUnit(u) + Escape(s)
    ensures IsLead(u) && s != [] && IsTrail(s[0]) ==> |Escape([u] + s)| < |EscapeUnit(u)| + |Escape(s)|
  {
    var whole := [u] + s;
    assert whole[1..] == s;
    if IsLead(u) && s != [] && IsTrail(s[0]) {
      assert whole[2..] == s[1..];
      assert Escape(s) == EscapeUnit(s[0]) + Escape(s[1..]);
    }
  }

  lemma Reassembles(t: JsString, n: nat, head: JsString, tail: JsString, rest: JsString)
    requires n <= |t| && t[..n] == head && t[n..] == tail + [QUOTE] + rest
    ensures t == head + tail + [QUOTE] + rest
  {
    assert t == t[..n] + t[n..];
  }

  // Of the spellings that are as short, the escape is the one in lower case.
  lemma {:induction false} EscapeIsTheShortest(t: JsString, s: JsString, rest: JsString)
    requires WellFormed(t) && LowerCased(t) && ReadString(t) == Some((s, rest))
    requires |t| == |Escape(s)| + 1 + |rest|
    ensures t == Escape(s) + [QUOTE] + rest
    decreases |t|
  {
    if t[0] == QUOTE {
      assert t == [QUOTE] + t[1..];
      assert [] + [QUOTE] + rest == [QUOTE] + rest;
    } else {
      var (u, n) := ReadUnit(t).value;
      AfterUnit(t, u, n);
      UnitIsShortest(t, u, n);
      if n == 1 && IsLead(u) {
        PairIsTheShortest(t, s, rest);
      } else {
        var s' := ReadString(t[n..]).value.0;
        EscapeIsShortest(t[n..], s', rest);
        EscapeOfOneMore(u, s');
        EscapedLeadIsLonger(u, s');
        EscapeIsTheShortest(t[n..], s', rest);
        UnitIsTheShortest(t, u, n);
        Reassembles(t, n, EscapeUnit(u), Escape(s'), rest);
      }
    }
  }

  lemma {:induction false} PairIsTheShortest(t: JsString, s: JsString, rest: JsString)
    requires |t| > 1 && IsLead(t[0]) && IsTrail(t[1]) && WellFormed(t[2..])
    requires LowerCased(t) && ReadString(t) == Some((s, rest)) && |t| == |Escape(s)| + 1 + |rest|
    ensures t == Escape(s) + [QUOTE] + rest
    decreases |t|, 0
  {
    PlainPair(t, s, rest);
    var s' := ReadString(t[2..]).value.0;
    EscapeOfPair(t[0], t[1], s');
    EscapeIsTheShortest(t[2..], s', rest);
    Reassembles(t, 2, [t[0], t[1]], Escape(s'), rest);
  }

  lemma PlainPair(t: JsString, s: JsString, rest: JsString)
    requires |t| > 1 && IsLead(t[0]) && IsTrail(t[1]) && ReadString(t) == Some((s, rest)) && LowerCased(t)
    ensures LowerCased(t[2..]) && ReadString(t[2..]).Some? && ReadString(t[2..]).value.1 == rest
    ensures s == [t[0]] + ([t[1]] + ReadString(t[2..]).value.0)
  {
    assert ReadUnit(t) == Some((t[0], 1)) && ReadUnit(t[1..]) == Some((t[1], 1)) && t[1..][1..] == t[2..];
  }

  lemma {:induction false} EscapeIsWellFormed(s: JsString)
    ensures WellFormed(Escape(s))
  {
    if s == [] {
    } else if |s| > 1 && IsLead(s[0]) && IsTrail(s[1]) {
      EscapeIsWellFormed(s[2..]);
      assert (s[..2] + Escape(s[2..]))[2..] == Escape(s[2..]);
    } else {
      EscapeIsWellFormed(s[1..]);
      AsciiOrOneUnit(EscapeUnit(s[0]));
      WellFormedConcat(EscapeUnit(s[0]), Escape(s[1..]));
    }
  }

  lemma {:induction false} AsciiOrOneUnit(s: JsString)
    requires forall u :: u in s ==> !IsLead(u) && !IsTrail(u)
    ensures WellFormed(s)
  {
    if s != [] {
      AsciiOrOneUnit(s[1..]);
    }
  }

  lemma LowerCasedStep(e: JsString, u: Unit, tail: JsString)
    requires e != [] && e[0] != QUOTE && ReadUnit(e + tail) == Some((u, |e|)) && LowerCased(tail)
    requires |e| == 6 ==> forall i :: 2 <= i < 6 ==> !IsUpperHex(e[i])
    ensures LowerCased(e + tail)
  {
    assert (e + tail)[|e|..] == tail;
  }

  lemma DigitsAreLowerCased(u: Unit)
    ensures |EscapeUnit(u)| == 6 ==> forall i :: 2 <= i < 6 ==> !IsUpperHex(EscapeUnit(u)[i])
  {
  }

  lemma {:induction false} EscapeIsLowerCased(s: JsString, more: JsString)
    requires more != [] && more[0] == QUOTE
    ensures LowerCased(Escape(s) + more)
  {
    if s == [] {
      assert [] + more == more;
    } else if |s| > 1 && IsLead(s[0]) && IsTrail(s[1]) {
      EscapeIsLowerCased(s[2..], more);
      LowerCasedStep([s[1]], s[1], Escape(s[2..]) + more);
      LowerCasedStep([s[0]], s[0], [s[1]] + (Escape(s[2..]) + more));
      assert s[..2] + Escape(s[2..]) + more == [s[0]] + ([s[1]] + (Escape(s[2..]) + more));
    } else {
      EscapeIsLowerCased(s[1..], more);
      ReadEscapedUnit(s[0], Escape(s[1..]) + more);
      DigitsAreLowerCased(s[0]);
      LowerCasedStep(EscapeUnit(s[0]), s[0], Escape(s[1..]) + more);
      assert EscapeUnit(s[0]) + Escape(s[1..]) + more == EscapeUnit(s[0]) + (Escape(s[1..]) + more);
    }
  }

  // A text after its opening quote, up to the closing one, that spells s without an unpaired surrogate.
  ghost predicate IsSpelling(t: JsString, s: JsString) {
    WellFormed(t) && ReadString(t) == Some((s, []))
  }

  // The canonical text of a string is a spelling of it, in lower case, no other is shorter, and of those as
  // short it alone is in lower case. An unpaired surrogate is escaped, since the text holds none.
  lemma StringIsTheShortest(s: JsString, depth: nat, text: JsString)
    requires depth <= MAX_DEPTH && Canon(Str(s), depth) == Text(text)
    ensures text != [] && text[0] == QUOTE && IsSpelling(text[1..], s) && LowerCased(text[1..])
    ensures forall t :: IsSpelling(t, s) ==> |text[1..]| <= |t|
    ensures forall t :: IsSpelling(t, s) && LowerCased(t) && |t| == |text[1..]| ==> t == text[1..]
  {
    var t0 := Escape(s) + [QUOTE];
    assert text[1..] == t0;
    ReadEscaped(s, [QUOTE], []);
    EscapeIsWellFormed(s);
    AsciiOrOneUnit([QUOTE]);
    WellFormedConcat(Escape(s), [QUOTE]);
    EscapeIsLowerCased(s, [QUOTE]);
    forall t | IsSpelling(t, s)
      ensures |t0| <= |t|
      ensures LowerCased(t) && |t| == |t0| ==> t == t0
    {
      EscapeIsShortest(t, s, []);
      if LowerCased(t) && |t| == |t0| {
        EscapeIsTheShortest(t, s, []);
        assert t0 + [] == t0;
      }
    }
  }

  // ---------------------------------------------------------------- the order of names

  // The names of an object's members as they stand in its text, after the opening brace.
  function ReadNames(t: JsString, first: bool): (r: Option<(seq<JsString>, JsString)>)
    decreases |t|
  {
    if t == [] then None
    else if t[0] == CLOSE_BRACE then Some(([], t[1..]))
    else if !first && t[0] != COMMA then None
    else
      var t' := if first then t else t[1..];
      if t' == [] || t'[0] != QUOTE then None
      else
        var (key, rest) :- ReadString(t'[1..]);
        if rest == [] || rest[0] != COLON then None
        else
          var (value, rest') :- ReadValue(rest[1..]);
          var (keys, rest'') :- ReadNames(rest', false);
          Some(([key] + keys, rest''))
  }

  function DefinedKeys(members: seq<Member>): seq<JsString> {
    if members == [] then []
    else (if members[0].value.Undefined? then [] else [members[0].key]) + DefinedKeys(members[1..])
  }

  lemma ReadNamesStep(key: JsString, head: JsString, more: JsString, first: bool, value: Tree,
                      keys: seq<JsString>, rest: JsString)
    requires ReadValue(head + more) == Some((value, more))
    requires ReadNames(more, false) == Some((keys, rest))
    ensures ReadNames(Separator(first) + (Quoted(key) + ([COLON] + (head + more))), first) == Some(([key] + keys, rest))
  {
    var after := [COLON] + (head + more);
    var t := Separator(first) + (Quoted(key) + after);
    ReadQuoted(key, after);
    assert after[1..] == head + more;
    if first {
      assert t == Quoted(key) + after;
    } else {
      assert t[1..] == Quoted(key) + after;
    }
  }

  lemma {:induction false} ReadCanonNames(members: seq<Member>, depth: nat, first: bool, text: JsString, rest: JsString)
    requires depth <= MAX_DEPTH && CanonMembers(members, depth, first) == Text(text) && ProperMembers(members)
    ensures ReadNames(text + [CLOSE_BRACE] + rest, first) == Some((DefinedKeys(members), rest))
    decreases |members|
  {
    if members == [] {
      assert (text + [CLOSE_BRACE] + rest)[1..] == rest;
    } else if members[0].value.Undefined? {
      ReadCanonNames(members[1..], depth, first, text, rest);
      assert [] + DefinedKeys(members[1..]) == DefinedKeys(members[1..]);
    } else {
      var key := members[0].key;
      var head := Canon(members[0].value, depth + 1).text;
      var text' := CanonMembers(members[1..], depth, false).text;
      ReadCanonNames(members[1..], depth, false, text', rest);
      MembersResumeWithComma(members[1..], depth);
      MoreEnds(text', CLOSE_BRACE, rest);
      ReadCanon(members[0].value, depth + 1, head, text' + [CLOSE_BRACE] + rest);
      ReadNamesStep(key, head, text' + [CLOSE_BRACE] + rest, first, Meaning(members[0].value),
                    DefinedKeys(members[1..]), rest);
      MemberText(Separator(first), Quoted(key), head, text', rest);
    }
  }

  ghost predicate Names(members: seq<Member>, key: JsString) {
    exists i :: 0 <= i < |members| && members[i].key == key && !members[i].value.Undefined?
  }

  lemma {:induction false} DefinedKeysAre(members: seq<Member>)
    ensures forall key :: key in DefinedKeys(members) <==> Names(members, key)
    ensures Increasing(members) ==>
              forall i, j :: 0 <= i < j < |DefinedKeys(members)| ==>
                Less(DefinedKeys(members)[i], DefinedKeys(members)[j])
  {
    if members != [] {
      var rest := members[1..];
      DefinedKeysAre(rest);
      forall key
        ensures Names(members, key) <==> (members[0].key == key && !members[0].value.Undefined?) || Names(rest, key)
      {
        NamesOfFirst(members, key);
      }
      if Increasing(members) {
        forall key | key in DefinedKeys(rest)
          ensures Less(members[0].key, key)
        {
          var i :| 0 <= i < |rest| && rest[i].key == key && !rest[i].value.Undefined?;
          assert members[i + 1] == rest[i];
        }
      }
    }
  }

  lemma NamesOfFirst(members: seq<Member>, key: JsString)
    requires members != []
    ensures Names(members, key) <==> (members[0].key == key && !members[0].value.Undefined?) || Names(members[1..], key)
  {
    var rest := members[1..];
    if Names(rest, key) {
      var i :| 0 <= i < |rest| && rest[i].key == key && !rest[i].value.Undefined?;
      assert members[i + 1] == rest[i];
    }
    if Names(members, key) {
      var i :| 0 <= i < |members| && members[i].key == key && !members[i].value.Undefined?;
      assert i > 0 ==> rest[i - 1] == members[i];
    }
  }

  lemma SameNames(x: seq<Member>, y: seq<Member>, key: JsString)
    requires multiset(x) == multiset(y)
    ensures Names(x, key) <==> Names(y, key)
  {
    if Names(x, key) {
      var i :| 0 <= i < |x| && x[i].key == key && !x[i].value.Undefined?;
      assert x[i] in multiset(y);
      assert x[i] in y;
    }
    if Names(y, key) {
      var i :| 0 <= i < |y| && y[i].key == key && !y[i].value.Undefined?;
      assert y[i] in multiset(x);
      assert y[i] in x;
    }
  }

  lemma SortedNames(members: seq<Member>, names: seq<JsString>)
    requires ProperMembers(members) && names == DefinedKeys(Sort(members))
    ensures forall key :: key in names <==> Names(members, key)
    ensures forall i, j :: 0 <= i < j < |names| ==> ComesFirst(names[i], names[j])
  {
    SortIsProper(members);
    SortPermutes(members);
    DefinedKeysAre(Sort(members));
    forall key
      ensures Names(Sort(members), key) <==> Names(members, key)
    {
      SameNames(Sort(members), members, key);
    }
    forall i, j | 0 <= i < j < |names|
      ensures ComesFirst(names[i], names[j])
    {
      LessComesFirst(names[i], names[j]);
    }
  }

  // In the text of an object, at whatever depth it stands, the names of its defined members come one after
  // another in order of their code units.
  lemma NamesAreInOrder(members: seq<Member>, depth: nat, text: JsString) returns (names: seq<JsString>)
    requires depth <= MAX_DEPTH && Canon(Obj(members), depth) == Text(text) && ProperMembers(members)
    ensures text != [] && text[0] == OPEN_BRACE && ReadNames(text[1..], true) == Some((names, []))
    ensures forall key :: key in names <==> Names(members, key)
    ensures forall i, j :: 0 <= i < j < |names| ==> ComesFirst(names[i], names[j])
  {
    names := DefinedKeys(Sort(members));
    SortedNames(members, names);
    SortIsProper(members);
    var inner := CanonMembers(Sort(members), depth, true).text;
    ReadCanonNames(Sort(members), depth, true, inner, []);
    assert text[1..] == inner + [CLOSE_BRACE] + [];
  }

  // ---------------------------------------------------------------- texts to compare with

  predicate Spells(o: Outcome, s: string) {
    o.Text? && |o.text| == |s| && forall i :: 0 <= i < |s| ==> o.text[i] == s[i] as int
  }

  lemma LiteralTexts()
    ensures Spells(Canon(Null, 0), "null") && Spells(Canon(Num(NegativeZero), 0), "0")
    ensures Spells(Canon(Bool(true), 0), "true") && Spells(Canon(Bool(false), 0), "false")
  {
  }

  lemma StringTexts()
    ensures Spells(Canon(Str([10]), 0), "\"\\n\"") && Spells(Canon(Str([0xDC00]), 0), "\"\\udc00\"")
  {
    assert [10][1..] == [] && Escape([]) == [] && Escape([10]) == [BACKSLASH, 110] + [];
    assert [0xDC00][1..] == [] && Escape([0xDC00]) == EscapeUnit(0xDC00) + [];
    assert EscapeUnit(0xDC00) == [BACKSLASH, 117, 100, 99, 48, 48];
  }

  lemma ArrayText()
    ensures Spells(Canon(Arr([Null, Bool(true)]), 0), "[null,true]")
  {
    var items := [Null, Bool(true)];
    assert items[1..] == [Bool(true)] && items[1..][1..] == [];
    assert CanonItems([], 0, false) == Text([]);
    assert CanonItems([Bool(true)], 0, false) == Text(([COMMA] + TRUE) + []);
    assert CanonItems(items, 0, true) == Text(([] + NULL) + (([COMMA] + TRUE) + []));
  }

  lemma SortOfTwo(x: Member, y: Member)
    requires x.key == [98] && y.key == [97]
    ensures Sort([x, y]) == [y, x]
  {
    assert [x, y][1..] == [y] && [y][1..] == [] && Less([97], [98]) && !Less([98], [97]);
    assert Sort([y]) == [y] && Sort([x, y]) == Insert(x, [y]) == [y] + Insert(x, []);
  }

  lemma MembersText(x: Member, y: Member)
    requires x == Member([98], Null) && y == Member([97], Bool(true))
    ensures CanonMembers([y, x], 0, true) ==
            Text(([QUOTE, 97, QUOTE, COLON] + TRUE) + ([COMMA, QUOTE, 98, QUOTE, COLON] + NULL))
  {
    assert [97][1..] == [] && [98][1..] == [] && Escape([]) == [];
    assert Quoted([97]) == [QUOTE, 97, QUOTE] && Quoted([98]) == [QUOTE, 98, QUOTE];
    assert [y, x][1..] == [x] && [x][1..] == [] && CanonMembers([], 0, false) == Text([]);
    assert CanonMember(x, 0, false) == Text([COMMA, QUOTE, 98, QUOTE, COLON] + NULL);
    assert CanonMember(y, 0, true) == Text([QUOTE, 97, QUOTE, COLON] + TRUE);
  }

  // {"b":null,"a":true} prints as {"a":true,"b":null}.
  lemma ObjectText()
    ensures Canon(Obj([Member([98], Null), Member([97], Bool(true))]), 0) ==
            Text([123, 34, 97, 34, 58, 116, 114, 117, 101, 44, 34, 98, 34, 58, 110, 117, 108, 108, 125])
  {
    var x, y := Member([98], Null), Member([97], Bool(true));
    SortOfTwo(x, y);
    MembersText(x, y);
    var first, second := [QUOTE, 97, QUOTE, COLON] + TRUE, [COMMA, QUOTE, 98, QUOTE, COLON] + NULL;
    FirstMember(first);
    SecondMember(second);
    InBraces(first, second);
  }

  lemma FirstMember(first: JsString)
    requires first == [QUOTE, 97, QUOTE, COLON] + TRUE
    ensures first == [34, 97, 34, 58, 116, 114, 117, 101]
  {
  }

  lemma SecondMember(second: JsString)
    requires second == [COMMA, QUOTE, 98, QUOTE, COLON] + NULL
    ensures second == [44, 34, 98, 34, 58, 110, 117, 108, 108]
  {
  }

  lemma InBraces(first: JsString, second: JsString)
    requires first == [34, 97, 34, 58, 116, 114, 117, 101] && second == [44, 34, 98, 34, 58, 110, 117, 108, 108]
    ensures [OPEN_BRACE] + (first + second) + [CLOSE_BRACE] ==
            [123, 34, 97, 34, 58, 116, 114, 117, 101, 44, 34, 98, 34, 58, 110, 117, 108, 108, 125]
  {
    var whole := [OPEN_BRACE] + (first + second) + [CLOSE_BRACE];
    assert |whole| == 19;
    assert forall i :: 0 <= i < 8 ==> whole[i + 1] == first[i];
    assert forall i :: 0 <= i < 9 ==> whole[i + 9] == second[i];
  }
}
