/**
 * A reader of JSON text and what it shows of the canonical printer: every canonical text is read
 * back to the meaning it was printed from, so that text is a faithful name for that meaning.
 */
module JcsReader {
  import opened Prelude
  import opened Utf16
  import opened Jcs

  // ---------------------------------------------------------------- the reader

  function Unhex(u: Unit): Option<nat> {
    if 48 <= u <= 57 then Some(u - 48)
    else if 97 <= u <= 102 then Some(u - 87)
    else if 65 <= u <= 70 then Some(u - 55)
    else None
  }

  function Unescape(u: Unit): Option<Unit> {
    match u
    case 34 => Some(34)
    case 47 => Some(47)
    case 92 => Some(92)
    case 98 => Some(8)
    case 102 => Some(12)
    case 110 => Some(10)
    case 114 => Some(13)
    case 116 => Some(9)
    case _ => None
  }

  // One string character and how many code units spell it.
  function ReadUnit(t: JsString): (r: Option<(Unit, nat)>)
    requires t != []
    ensures r.Some? ==> 0 < r.value.1 <= |t|
  {
    if t[0] == BACKSLASH && |t| >= 6 && t[1] == 117 then
      var a :- Unhex(t[2]);
      var b :- Unhex(t[3]);
      var c :- Unhex(t[4]);
      var d :- Unhex(t[5]);
      Some((4096 * a + 256 * b + 16 * c + d, 6))
    else if t[0] == BACKSLASH && |t| >= 2 then
      var u :- Unescape(t[1]);
      Some((u, 2))
    else if t[0] >= 32 && t[0] != BACKSLASH then Some((t[0], 1))
    else None
  }

  // The rest of a string whose opening quote has been read.
  function ReadString(t: JsString): (r: Option<(JsString, JsString)>)
    ensures r.Some? ==> |r.value.1| < |t|
    decreases |t|
  {
    if t == [] then None
    else if t[0] == QUOTE then Some(([], t[1..]))
    else
      var (u, n) :- ReadUnit(t);
      var (s, rest) :- ReadString(t[n..]);
      Some(([u] + s, rest))
  }

  function NumeralLength(t: JsString): (n: nat)
    ensures n <= |t| && forall i :: 0 <= i < n ==> IsNumberUnit(t[i])
  {
    if t == [] || !IsNumberUnit(t[0]) then 0 else 1 + NumeralLength(t[1..])
  }

  function ReadValue(t: JsString): (r: Option<(Tree, JsString)>)
    ensures r.Some? ==> |r.value.1| < |t|
    decreases |t|, 0
  {
    if t == [] then None
    else if NULL <= t then Some((TNull, t[4..]))
    else if TRUE <= t then Some((TBool(true), t[4..]))
    else if FALSE <= t then Some((TBool(false), t[5..]))
    else if t[0] == QUOTE then
      var (s, rest) :- ReadString(t[1..]);
      Some((TStr(s), rest))
    else if t[0] == OPEN_BRACKET then
      var (items, rest) :- ReadItems(t[1..], true);
      Some((TArr(items), rest))
    else if t[0] == OPEN_BRACE then
      var (members, rest) :- ReadMembers(t[1..], true, map[]);
      Some((TObj(members), rest))
    else
      var n := NumeralLength(t);
      if n == 0 then None else Some((TNum(t[..n]), t[n..]))
  }

  // The items up to the closing bracket; each but the first follows a comma.
  function ReadItems(t: JsString, first: bool): (r: Option<(seq<Tree>, JsString)>)
    ensures r.Some? ==> |r.value.1| < |t|
    decreases |t|, 1
  {
    if t == [] then None
    else if t[0] == CLOSE_BRACKET then Some(([], t[1..]))
    else if !first && t[0] != COMMA then None
    else
      var (item, rest) :- ReadValue(if first then t else t[1..]);
      var (items, rest') :- ReadItems(rest, false);
      Some(([item] + items, rest'))
  }

  // The members up to the closing brace, added to `got`; a repeated name replaces the earlier one.
  function ReadMembers(t: JsString, first: bool, got: map<JsString, Tree>): (r: Option<(map<JsString, Tree>, JsString)>)
    ensures r.Some? ==> |r.value.1| < |t|
    decreases |t|, 1
  {
    if t == [] then None
    else if t[0] == CLOSE_BRACE then Some((got, t[1..]))
    else if !first && t[0] != COMMA then None
    else
      var t' := if first then t else t[1..];
      if t' == [] || t'[0] != QUOTE then None
      else
        var (key, rest) :- ReadString(t'[1..]);
        if rest == [] || rest[0] != COLON then None
        else
          var (value, rest') :- ReadValue(rest[1..]);
          ReadMembers(rest', false, got[key := value])
  }

  // A whole text is one value.
  function Read(t: JsString): Option<Tree> {
    var (tree, rest) :- ReadValue(t);
    if rest == [] then Some(tree) else None
  }

  // ---------------------------------------------------------------- strings

  lemma UnhexHexDigit(d: nat)
    requires d < 16
    ensures Unhex(HexDigit(d)) == Some(d)
  {
  }

  lemma HexDigitsSum(u: Unit)
    ensures u / 16 / 16 / 16 < 16
    ensures u == 4096 * (u / 16 / 16 / 16) + 256 * (u / 16 / 16 % 16) + 16 * (u / 16 % 16) + u % 16
  {
    var a := u / 16;
    var b := a / 16;
    assert u == 16 * a + u % 16 && a == 16 * b + a % 16 && b == 16 * (b / 16) + b % 16;
  }

  lemma ReadEscapedUnit(u: Unit, rest: JsString)
    ensures EscapeUnit(u) + rest != [] && EscapeUnit(u)[0] != QUOTE
    ensures ReadUnit(EscapeUnit(u) + rest) == Some((u, |EscapeUnit(u)|))
  {
    if |EscapeUnit(u)| == 6 {
      HexDigitsSum(u);
      UnhexHexDigit(u / 16 / 16 / 16);
      UnhexHexDigit(u / 16 / 16 % 16);
      UnhexHexDigit(u / 16 % 16);
      UnhexHexDigit(u % 16);
    }
  }

  lemma ReadStringStep(e: JsString, u: Unit, tail: JsString, s: JsString, rest: JsString)
    requires e != [] && e[0] != QUOTE && ReadUnit(e + tail) == Some((u, |e|))
    requires ReadString(tail) == Some((s, rest))
    ensures ReadString(e + tail) == Some(([u] + s, rest))
  {
    assert (e + tail)[|e|..] == tail;
  }

  lemma ReadPlainPair(s: JsString, tail: JsString, more: JsString, rest: JsString)
    requires |s| > 1 && IsLead(s[0]) && IsTrail(s[1]) && ReadString(tail + more) == Some((s[2..], rest))
    ensures ReadString(s[..2] + tail + more) == Some((s, rest))
  {
    ReadStringStep([s[1]], s[1], tail + more, s[2..], rest);
    ReadStringStep([s[0]], s[0], [s[1]] + (tail + more), [s[1]] + s[2..], rest);
    assert [s[0]] + ([s[1]] + (tail + more)) == s[..2] + tail + more;
    assert [s[0]] + ([s[1]] + s[2..]) == s;
  }

  lemma ReadOneUnit(s: JsString, tail: JsString, more: JsString, rest: JsString)
    requires s != [] && ReadString(tail + more) == Some((s[1..], rest))
    ensures ReadString(EscapeUnit(s[0]) + tail + more) == Some((s, rest))
  {
    var e := EscapeUnit(s[0]);
    ReadEscapedUnit(s[0], tail + more);
    ReadStringStep(e, s[0], tail + more, s[1..], rest);
    assert e + (tail + more) == e + tail + more;
    assert [s[0]] + s[1..] == s;
  }

  lemma {:induction false} ReadEscaped(s: JsString, more: JsString, rest: JsString)
    requires more == [QUOTE] + rest
    ensures ReadString(Escape(s) + more) == Some((s, rest))
    decreases |s|
  {
    if s == [] {
      assert [] + more == more && more[1..] == rest;
    } else if |s| > 1 && IsLead(s[0]) && IsTrail(s[1]) {
      ReadEscaped(s[2..], more, rest);
      ReadPlainPair(s, Escape(s[2..]), more, rest);
    } else {
      ReadEscaped(s[1..], more, rest);
      ReadOneUnit(s, Escape(s[1..]), more, rest);
    }
  }

  lemma ReadQuoted(s: JsString, rest: JsString)
    ensures Quoted(s) + rest != [] && (Quoted(s) + rest)[0] == QUOTE
    ensures ReadString((Quoted(s) + rest)[1..]) == Some((s, rest))
  {
    assert (Quoted(s) + rest)[1..] == Escape(s) + ([QUOTE] + rest);
    ReadEscaped(s, [QUOTE] + rest, rest);
  }

  // ---------------------------------------------------------------- sorting

  ghost predicate Increasing(members: seq<Member>) {
    forall i, j :: 0 <= i < j < |members| ==> Less(members[i].key, members[j].key)
  }

  lemma {:induction false} InsertPermutes(m: Member, sorted: seq<Member>)
    ensures multiset(Insert(m, sorted)) == multiset([m] + sorted)
  {
    if sorted == [] || Less(m.key, sorted[0].key) {
    } else {
      InsertPermutes(m, sorted[1..]);
      assert sorted == [sorted[0]] + sorted[1..];
    }
  }

  lemma SupportOfConcat(m: Member, rest: seq<Member>)
    ensures SupportedMembers([m] + rest) == ((m.value.Undefined? || Supported(m.value)) && SupportedMembers(rest))
    ensures MembersDepth([m] + rest) ==
            if m.value.Undefined? then MembersDepth(rest) else Max(1 + Depth(m.value), MembersDepth(rest))
  {
    assert ([m] + rest)[1..] == rest;
  }

  lemma {:induction false} InsertKeepsSupport(m: Member, sorted: seq<Member>)
    ensures SupportedMembers(Insert(m, sorted)) == SupportedMembers([m] + sorted)
    ensures MembersDepth(Insert(m, sorted)) == MembersDepth([m] + sorted)
  {
    if sorted == [] || Less(m.key, sorted[0].key) {
    } else {
      var tail := sorted[1..];
      InsertKeepsSupport(m, tail);
      assert sorted == [sorted[0]] + tail;
      SupportOfConcat(sorted[0], Insert(m, tail));
      SupportOfConcat(sorted[0], tail);
      SupportOfConcat(m, sorted);
      SupportOfConcat(m, tail);
    }
  }

  lemma {:induction false} SortPermutes(members: seq<Member>)
    ensures multiset(Sort(members)) == multiset(members)
    ensures SupportedMembers(Sort(members)) == SupportedMembers(members)
    ensures MembersDepth(Sort(members)) == MembersDepth(members)
  {
    if members != [] {
      SortPermutes(members[1..]);
      InsertPermutes(members[0], Sort(members[1..]));
      InsertKeepsSupport(members[0], Sort(members[1..]));
      SupportOfConcat(members[0], Sort(members[1..]));
      assert members == [members[0]] + members[1..];
    }
  }

  lemma PermutationKeepsKeys(a: seq<Member>, b: seq<Member>, key: JsString)
    requires multiset(a) == multiset(b)
    ensures HasKey(a, key) == HasKey(b, key)
  {
    if HasKey(a, key) {
      var i :| 0 <= i < |a| && a[i].key == key;
      assert a[i] in multiset(b);
    }
    if HasKey(b, key) {
      var i :| 0 <= i < |b| && b[i].key == key;
      assert b[i] in multiset(a);
    }
  }

  lemma KeyOfConcat(m: Member, tail: seq<Member>, key: JsString)
    ensures HasKey([m] + tail, key) == (m.key == key || HasKey(tail, key))
  {
    var all := [m] + tail;
    if HasKey(all, key) && m.key != key {
      var i :| 0 <= i < |all| && all[i].key == key;
      assert tail[i - 1].key == key;
    }
    if m.key == key {
      assert all[0].key == key;
    } else if HasKey(tail, key) {
      var i :| 0 <= i < |tail| && tail[i].key == key;
      assert all[i + 1].key == key;
    }
  }

  lemma IncreasingCons(m: Member, tail: seq<Member>)
    requires Increasing(tail) && forall i :: 0 <= i < |tail| ==> Less(m.key, tail[i].key)
    ensures Increasing([m] + tail)
  {
  }

  lemma {:induction false} InsertKeepsIncreasing(m: Member, sorted: seq<Member>)
    requires Increasing(sorted) && !HasKey(sorted, m.key)
    ensures Increasing(Insert(m, sorted))
  {
    if sorted == [] {
    } else if Less(m.key, sorted[0].key) {
      forall i | 0 <= i < |sorted| ensures Less(m.key, sorted[i].key) {
        if i > 0 {
          LessIsTransitive(m.key, sorted[0].key, sorted[i].key);
        }
      }
      IncreasingCons(m, sorted);
    } else {
      var tail := sorted[1..];
      assert sorted == [sorted[0]] + tail;
      KeyOfConcat(sorted[0], tail, m.key);
      InsertKeepsIncreasing(m, tail);
      LessIsTotal(m.key, sorted[0].key);
      InsertPermutes(m, tail);
      forall i | 0 <= i < |Insert(m, tail)| ensures Less(sorted[0].key, Insert(m, tail)[i].key) {
        var x := Insert(m, tail)[i];
        assert x in multiset([m] + tail);
      }
      IncreasingCons(sorted[0], Insert(m, tail));
    }
  }

  lemma {:induction false} InsertKeepsProper(m: Member, sorted: seq<Member>)
    requires Proper(m.value) && ProperMembers(sorted) && !HasKey(sorted, m.key)
    ensures ProperMembers(Insert(m, sorted))
  {
    if sorted == [] || Less(m.key, sorted[0].key) {
      assert ([m] + sorted)[1..] == sorted;
    } else {
      var tail := sorted[1..];
      assert sorted == [sorted[0]] + tail;
      KeyOfConcat(sorted[0], tail, m.key);
      InsertKeepsProper(m, tail);
      InsertPermutes(m, tail);
      PermutationKeepsKeys(Insert(m, tail), [m] + tail, sorted[0].key);
      KeyOfConcat(m, tail, sorted[0].key);
      assert Insert(m, sorted)[1..] == Insert(m, tail);
    }
  }

  function WithMeaning(m: Member, rest: map<JsString, Tree>): map<JsString, Tree>
    requires m.value.Undefined? || Supported(m.value)
  {
    if m.value.Undefined? then rest else rest[m.key := Meaning(m.value)]
  }

  lemma MeaningOfConcat(m: Member, rest: seq<Member>)
    requires SupportedMembers([m] + rest)
    ensures (m.value.Undefined? || Supported(m.value)) && SupportedMembers(rest)
    ensures MeaningOfMembers([m] + rest) == WithMeaning(m, MeaningOfMembers(rest))
  {
    assert ([m] + rest)[1..] == rest;
  }

  lemma {:induction false} InsertKeepsMeaning(m: Member, sorted: seq<Member>)
    requires SupportedMembers([m] + sorted) && !HasKey(sorted, m.key)
    ensures SupportedMembers(Insert(m, sorted))
    ensures MeaningOfMembers(Insert(m, sorted)) == MeaningOfMembers([m] + sorted)
  {
    InsertKeepsSupport(m, sorted);
    if sorted == [] || Less(m.key, sorted[0].key) {
    } else {
      var first, tail := sorted[0], sorted[1..];
      assert sorted == [first] + tail && Insert(m, sorted) == [first] + Insert(m, tail);
      KeyOfConcat(first, tail, m.key);
      MeaningOfConcat(m, sorted);
      MeaningOfConcat(first, tail);
      SupportOfConcat(m, tail);
      InsertKeepsMeaning(m, tail);
      MeaningOfConcat(m, tail);
      MeaningOfConcat(first, Insert(m, tail));
    }
  }

  lemma {:induction false} SortIsProper(members: seq<Member>)
    requires ProperMembers(members)
    ensures Increasing(Sort(members)) && ProperMembers(Sort(members))
    ensures SupportedMembers(members) ==>
              SupportedMembers(Sort(members)) && MeaningOfMembers(Sort(members)) == MeaningOfMembers(members)
  {
    if members != [] {
      var m, tail := members[0], members[1..];
      SortIsProper(tail);
      SortPermutes(tail);
      PermutationKeepsKeys(Sort(tail), tail, m.key);
      InsertKeepsIncreasing(m, Sort(tail));
      InsertKeepsProper(m, Sort(tail));
      if SupportedMembers(members) {
        assert ([m] + Sort(tail))[1..] == Sort(tail);
        InsertKeepsMeaning(m, Sort(tail));
      }
    }
  }

  // ---------------------------------------------------------------- what is refused

  // A value has a canonical text exactly when JSON can carry it and it nests no deeper than the bound.
  lemma {:induction false} AcceptedIff(v: Value, depth: nat)
    requires depth <= MAX_DEPTH + 1
    ensures Canon(v, depth).Text? <==> Supported(v) && depth + Depth(v) <= MAX_DEPTH
    ensures Canon(v, depth) == Refused(TooDeep) ==> depth + Depth(v) > MAX_DEPTH
    ensures Canon(v, depth).Refused? && Canon(v, depth).why != TooDeep ==> !Supported(v)
    decreases MAX_DEPTH + 1 - depth, 1, 0
  {
    if depth <= MAX_DEPTH {
      match v
      case Arr(items) => AcceptedItems(items, depth, true);
      case Obj(members) =>
        SortPermutes(members);
        AcceptedMembers(Sort(members), depth, true);
      case _ =>
    }
  }

  lemma {:induction false} AcceptedItems(items: seq<Value>, depth: nat, first: bool)
    requires depth <= MAX_DEPTH
    ensures CanonItems(items, depth, first).Text? <==> SupportedItems(items) && depth + ItemsDepth(items) <= MAX_DEPTH
    ensures CanonItems(items, depth, first) == Refused(TooDeep) ==> depth + ItemsDepth(items) > MAX_DEPTH
    ensures CanonItems(items, depth, first).Refused? && CanonItems(items, depth, first).why != TooDeep ==>
              !SupportedItems(items)
    decreases MAX_DEPTH + 1 - depth, 0, |items|
  {
    if items != [] {
      AcceptedIff(items[0], depth + 1);
      AcceptedItems(items[1..], depth, false);
    }
  }

  lemma {:induction false} AcceptedMembers(members: seq<Member>, depth: nat, first: bool)
    requires depth <= MAX_DEPTH
    ensures CanonMembers(members, depth, first).Text? <==>
              SupportedMembers(members) && depth + MembersDepth(members) <= MAX_DEPTH
    ensures CanonMembers(members, depth, first) == Refused(TooDeep) ==> depth + MembersDepth(members) > MAX_DEPTH
    ensures CanonMembers(members, depth, first).Refused? && CanonMembers(members, depth, first).why != TooDeep ==>
              !SupportedMembers(members)
    decreases MAX_DEPTH + 1 - depth, 0, |members|
  {
    if members != [] {
      if members[0].value.Undefined? {
        AcceptedMembers(members[1..], depth, first);
      } else {
        AcceptedIff(members[0].value, depth + 1);
        AcceptedMembers(members[1..], depth, false);
      }
    }
  }

  // ---------------------------------------------------------------- canonical text is read back

  // Where a value's text may stop: a numeral must not run on.
  ghost predicate Ends(rest: JsString) {
    rest == [] || !IsNumberUnit(rest[0])
  }

  lemma {:induction false} NumeralLengthOf(numeral: JsString, rest: JsString)
    requires forall u :: u in numeral ==> IsNumberUnit(u)
    requires Ends(rest)
    ensures NumeralLength(numeral + rest) == |numeral|
  {
    if numeral == [] {
      assert numeral + rest == rest;
    } else {
      assert (numeral + rest)[1..] == numeral[1..] + rest;
      NumeralLengthOf(numeral[1..], rest);
    }
  }

  lemma CanonBegins(v: Value, depth: nat)
    requires depth <= MAX_DEPTH + 1 && Canon(v, depth).Text?
    ensures var t := Canon(v, depth).text;
      t != [] && t[0] != CLOSE_BRACKET && t[0] != CLOSE_BRACE && t[0] != COMMA
  {
    assert v.Num? ==> IsNumberUnit(NumeralOf(v.n)[0]);
  }

  lemma ReadLiterals(rest: JsString)
    ensures ReadValue(NULL + rest) == Some((TNull, rest))
    ensures ReadValue(TRUE + rest) == Some((TBool(true), rest))
    ensures ReadValue(FALSE + rest) == Some((TBool(false), rest))
  {
    assert (NULL + rest)[4..] == rest && (TRUE + rest)[4..] == rest && (FALSE + rest)[5..] == rest;
    assert (TRUE + rest)[0] == 116 && (FALSE + rest)[0] == 102;
  }

  lemma ReadNumeral(numeral: Numeral, rest: JsString)
    requires Ends(rest)
    ensures ReadValue(numeral + rest) == Some((TNum(numeral), rest))
  {
    var t := numeral + rest;
    NumeralLengthOf(numeral, rest);
    assert IsNumberUnit(t[0]) && t[..|numeral|] == numeral && t[|numeral|..] == rest;
  }

  lemma ReadStringValue(s: JsString, rest: JsString)
    ensures ReadValue(Quoted(s) + rest) == Some((TStr(s), rest))
  {
    ReadQuoted(s, rest);
  }

  lemma AfterOpening(open: Unit, inner: JsString, close: Unit, rest: JsString)
    ensures var s := [open] + inner + [close] + rest; s[0] == open && s[1..] == inner + [close] + rest
  {
  }

  lemma ReadArray(inner: JsString, items: seq<Tree>, rest: JsString)
    requires ReadItems(inner + [CLOSE_BRACKET] + rest, true) == Some((items, rest))
    ensures ReadValue([OPEN_BRACKET] + inner + [CLOSE_BRACKET] + rest) == Some((TArr(items), rest))
  {
    AfterOpening(OPEN_BRACKET, inner, CLOSE_BRACKET, rest);
  }

  lemma ReadObject(inner: JsString, members: map<JsString, Tree>, rest: JsString)
    requires ReadMembers(inner + [CLOSE_BRACE] + rest, true, map[]) == Some((members, rest))
    ensures ReadValue([OPEN_BRACE] + inner + [CLOSE_BRACE] + rest) == Some((TObj(members), rest))
  {
    AfterOpening(OPEN_BRACE, inner, CLOSE_BRACE, rest);
  }

  lemma {:induction false} ReadCanon(v: Value, depth: nat, text: JsString, rest: JsString)
    requires depth <= MAX_DEPTH + 1 && Canon(v, depth) == Text(text) && Proper(v) && Ends(rest)
    ensures Supported(v) && ReadValue(text + rest) == Some((Meaning(v), rest))
    decreases MAX_DEPTH + 1 - depth, 1, 0
  {
    AcceptedIff(v, depth);
    match v
    case Num(n) => ReadNumeral(NumeralOf(n), rest);
    case Str(s) => ReadStringValue(s, rest);
    case Arr(items) =>
      var inner := CanonItems(items, depth, true).text;
      ReadCanonItems(items, depth, true, inner, rest);
      ReadArray(inner, MeaningOfItems(items), rest);
    case Obj(members) =>
      var sorted := Sort(members);
      SortIsProper(members);
      var inner := CanonMembers(sorted, depth, true).text;
      ReadCanonMembers(sorted, depth, true, map[], inner, rest);
      assert map[] + MeaningOfMembers(sorted) == MeaningOfMembers(members);
      ReadObject(inner, MeaningOfMembers(members), rest);
    case _ => ReadLiterals(rest);
  }

  lemma {:induction false} ReadCanonItems(items: seq<Value>, depth: nat, first: bool, text: JsString, rest: JsString)
    requires depth <= MAX_DEPTH && CanonItems(items, depth, first) == Text(text) && ProperItems(items)
    ensures SupportedItems(items)
    ensures ReadItems(text + [CLOSE_BRACKET] + rest, first) == Some((MeaningOfItems(items), rest))
    decreases MAX_DEPTH + 1 - depth, 0, |items|
  {
    AcceptedItems(items, depth, first);
    if items == [] {
      ReadClose(rest, first);
    } else {
      var head := Canon(items[0], depth + 1).text;
      var text' := CanonItems(items[1..], depth, false).text;
      var more := text' + [CLOSE_BRACKET] + rest;
      ReadCanonItems(items[1..], depth, false, text', rest);
      CanonBegins(items[0], depth + 1);
      MoreEnds(text', CLOSE_BRACKET, rest);
      ReadCanon(items[0], depth + 1, head, more);
      ReadItemsStep(head, more, first, Meaning(items[0]), MeaningOfItems(items[1..]), rest);
      ItemText(Separator(first), head, text', rest);
    }
  }

  lemma ReadClose(rest: JsString, first: bool)
    ensures ReadItems([] + [CLOSE_BRACKET] + rest, first) == Some(([], rest))
    ensures forall got :: ReadMembers([] + [CLOSE_BRACE] + rest, first, got) == Some((got, rest))
  {
    assert ([] + [CLOSE_BRACKET] + rest)[1..] == rest && ([] + [CLOSE_BRACE] + rest)[1..] == rest;
  }

  lemma ItemText(sep: JsString, head: JsString, text: JsString, rest: JsString)
    ensures (sep + head) + text + [CLOSE_BRACKET] + rest == sep + (head + (text + [CLOSE_BRACKET] + rest))
  {
  }

  lemma ReadItemsStep(head: JsString, more: JsString, first: bool, item: Tree, items: seq<Tree>, rest: JsString)
    requires head != [] && head[0] != CLOSE_BRACKET
    requires ReadValue(head + more) == Some((item, more)) && ReadItems(more, false) == Some((items, rest))
    ensures ReadItems(Separator(first) + (head + more), first) == Some(([item] + items, rest))
  {
    if !first {
      assert (Separator(first) + (head + more))[1..] == head + more;
    } else {
      assert Separator(first) + (head + more) == head + more;
    }
  }

  lemma MoreEnds(inner: JsString, close: Unit, rest: JsString)
    requires inner == [] || inner[0] == COMMA
    requires !IsNumberUnit(close)
    ensures Ends(inner + [close] + rest)
  {
  }

  lemma {:induction false} ReadCanonMembers(members: seq<Member>, depth: nat, first: bool,
                                            got: map<JsString, Tree>, text: JsString, rest: JsString)
    requires depth <= MAX_DEPTH && CanonMembers(members, depth, first) == Text(text) && ProperMembers(members)
    ensures SupportedMembers(members)
    ensures ReadMembers(text + [CLOSE_BRACE] + rest, first, got) == Some((got + MeaningOfMembers(members), rest))
    decreases MAX_DEPTH + 1 - depth, 0, |members|, 1
  {
    AcceptedMembers(members, depth, first);
    if members == [] {
      ReadClose(rest, first);
      assert got + map[] == got;
    } else if members[0].value.Undefined? {
      ReadCanonMembers(members[1..], depth, first, got, text, rest);
    } else {
      var key, value := members[0].key, Meaning(members[0].value);
      var head := Canon(members[0].value, depth + 1).text;
      var text' := CanonMembers(members[1..], depth, false).text;
      ReadCanonMembers(members[1..], depth, false, got[key := value], text', rest);
      MembersResumeWithComma(members[1..], depth);
      MoreEnds(text', CLOSE_BRACE, rest);
      ReadCanon(members[0].value, depth + 1, head, text' + [CLOSE_BRACE] + rest);
      MeaningHasKeys(members[1..]);
      MergeAfter(got, key, value, MeaningOfMembers(members[1..]));
      ReadFirstMember(key, head, text', first, value, got, got + MeaningOfMembers(members), rest);
    }
  }

  lemma MergeAfter(got: map<JsString, Tree>, key: JsString, value: Tree, more: map<JsString, Tree>)
    requires key !in more
    ensures got[key := value] + more == got + more[key := value]
  {
  }

  lemma ReadFirstMember(key: JsString, head: JsString, text: JsString, first: bool, value: Tree,
                        got: map<JsString, Tree>, all: map<JsString, Tree>, rest: JsString)
    requires ReadValue(head + (text + [CLOSE_BRACE] + rest)) == Some((value, text + [CLOSE_BRACE] + rest))
    requires ReadMembers(text + [CLOSE_BRACE] + rest, false, got[key := value]) == Some((all, rest))
    ensures var opening := Separator(first) + Quoted(key) + [COLON];
      ReadMembers((opening + head) + text + [CLOSE_BRACE] + rest, first, got) == Some((all, rest))
  {
    ReadMembersStep(key, head, text + [CLOSE_BRACE] + rest, first, value, got, all, rest);
    MemberText(Separator(first), Quoted(key), head, text, rest);
  }

  lemma MemberText(sep: JsString, name: JsString, head: JsString, text: JsString, rest: JsString)
    ensures ((sep + name + [COLON]) + head) + text + [CLOSE_BRACE] + rest ==
            sep + (name + ([COLON] + (head + (text + [CLOSE_BRACE] + rest))))
  {
  }

  lemma {:induction false} MembersResumeWithComma(members: seq<Member>, depth: nat)
    requires depth <= MAX_DEPTH && CanonMembers(members, depth, false).Text?
    ensures var t := CanonMembers(members, depth, false).text; t == [] || t[0] == COMMA
    decreases |members|
  {
    if members != [] && members[0].value.Undefined? {
      MembersResumeWithComma(members[1..], depth);
    }
  }

  lemma {:induction false} MeaningHasKeys(members: seq<Member>)
    requires SupportedMembers(members)
    ensures forall k :: k in MeaningOfMembers(members) ==> HasKey(members, k)
  {
    if members != [] {
      MeaningHasKeys(members[1..]);
      assert members == [members[0]] + members[1..];
      forall k | k in MeaningOfMembers(members) ensures HasKey(members, k) {
        KeyOfConcat(members[0], members[1..], k);
      }
    }
  }

  lemma ReadMembersStep(key: JsString, head: JsString, more: JsString, first: bool, value: Tree,
                        got: map<JsString, Tree>, all: map<JsString, Tree>, rest: JsString)
    requires ReadValue(head + more) == Some((value, more))
    requires ReadMembers(more, false, got[key := value]) == Some((all, rest))
    ensures ReadMembers(Separator(first) + (Quoted(key) + ([COLON] + (head + more))), first, got) == Some((all, rest))
  {
    var after := [COLON] + (head + more);
    var t := Separator(first) + (Quoted(key) + after);
    ReadQuoted(key, after);
    assert after[1..] == head + more;
    if first {
      assert t == Quoted(key) + after;
    } else {
      assert t[1..] == Quoted(key) + after;
    }
  }

  // ---------------------------------------------------------------- the theorems

  // Reading a canonical text gives back what the value meant.
  lemma ReadInvertsCanonicalize(v: Value)
    requires Proper(v) && Canon(v, 0).Text?
    ensures Supported(v) && Read(Canon(v, 0).text) == Some(Meaning(v))
  {
    ReadCanon(v, 0, Canon(v, 0).text, []);
    assert Canon(v, 0).text + [] == Canon(v, 0).text;
  }

  // Two values have one canonical text exactly when they are equal up to member order and undefined members.
  lemma CanonicalIffSameMeaning(v: Value, w: Value)
    requires Proper(v) && Proper(w)
    requires Canon(v, 0).Text? && Canon(w, 0).Text?
    ensures Supported(v) && Supported(w)
    ensures Canon(v, 0) == Canon(w, 0) <==> Meaning(v) == Meaning(w)
  {
    ReadInvertsCanonicalize(v);
    ReadInvertsCanonicalize(w);
    if Meaning(v) == Meaning(w) {
      SameMeaningSameText(v, w, 0);
    }
  }

  lemma {:induction false} SameMeaningSameText(v: Value, w: Value, depth: nat)
    requires Proper(v) && Proper(w) && Supported(v) && Supported(w) && Meaning(v) == Meaning(w)
    requires depth <= MAX_DEPTH + 1
    ensures Canon(v, depth) == Canon(w, depth)
    decreases MAX_DEPTH + 1 - depth, 1, 0
  {
    if depth <= MAX_DEPTH {
      match v
      case Arr(items) =>
        SameItemsSameText(items, w.items, depth, true);
      case Obj(members) =>
        SortIsProper(members);
        SortIsProper(w.members);
        SameMembersSameText(Sort(members), Sort(w.members), depth, true);
      case _ =>
    }
  }

  lemma {:induction false} SameItemsSameText(x: seq<Value>, y: seq<Value>, depth: nat, first: bool)
    requires ProperItems(x) && ProperItems(y) && SupportedItems(x) && SupportedItems(y)
    requires MeaningOfItems(x) == MeaningOfItems(y)
    requires depth <= MAX_DEPTH
    ensures CanonItems(x, depth, first) == CanonItems(y, depth, first)
    decreases MAX_DEPTH + 1 - depth, 0, |x| + |y|
  {
    if x != [] && y != [] {
      assert MeaningOfItems(x)[0] == Meaning(x[0]) && MeaningOfItems(y)[0] == Meaning(y[0]);
      assert MeaningOfItems(x)[1..] == MeaningOfItems(x[1..]) && MeaningOfItems(y)[1..] == MeaningOfItems(y[1..]);
      SameMeaningSameText(x[0], y[0], depth + 1);
      SameItemsSameText(x[1..], y[1..], depth, false);
    }
  }

  lemma IncreasingTail(members: seq<Member>)
    requires members != [] && Increasing(members)
    ensures Increasing(members[1..])
    ensures forall k :: HasKey(members[1..], k) ==> Less(members[0].key, k)
  {
    forall k | HasKey(members[1..], k) ensures Less(members[0].key, k) {
      var i :| 0 <= i < |members[1..]| && members[1..][i].key == k;
      assert members[i + 1].key == k;
    }
  }

  // Sorted, the defined members of both sides come in the same order.
  lemma {:induction false} SameMembersSameText(x: seq<Member>, y: seq<Member>, depth: nat, first: bool)
    requires ProperMembers(x) && ProperMembers(y) && SupportedMembers(x) && SupportedMembers(y)
    requires Increasing(x) && Increasing(y)
    requires MeaningOfMembers(x) == MeaningOfMembers(y)
    requires depth <= MAX_DEPTH
    ensures CanonMembers(x, depth, first) == CanonMembers(y, depth, first)
    decreases MAX_DEPTH + 1 - depth, 0, |x| + |y|
  {
    assert x != [] && !x[0].value.Undefined? ==> x[0].key in MeaningOfMembers(x);
    assert y != [] && !y[0].value.Undefined? ==> y[0].key in MeaningOfMembers(y);
    assert x == [] || Increasing(x[1..]);
    assert y == [] || Increasing(y[1..]);
    if x != [] && x[0].value.Undefined? {
      SameMembersSameText(x[1..], y, depth, first);
    } else if y != [] && y[0].value.Undefined? {
      SameMembersSameText(x, y[1..], depth, first);
    } else if x != [] && y != [] {
      FirstKeysAgree(x, y);
      MeaningOfTail(x);
      MeaningOfTail(y);
      SameMeaningSameText(x[0].value, y[0].value, depth + 1);
      SameMembersSameText(x[1..], y[1..], depth, false);
    }
  }

  lemma FirstKeysAgree(x: seq<Member>, y: seq<Member>)
    requires SupportedMembers(x) && SupportedMembers(y) && Increasing(x) && Increasing(y)
    requires x != [] && y != [] && !x[0].value.Undefined? && !y[0].value.Undefined?
    requires MeaningOfMembers(x) == MeaningOfMembers(y)
    ensures x[0].key == y[0].key
  {
    IncreasingTail(x);
    IncreasingTail(y);
    MeaningHasKeys(x[1..]);
    MeaningHasKeys(y[1..]);
    assert x[0].key in MeaningOfMembers(y) && y[0].key in MeaningOfMembers(x);
    if x[0].key != y[0].key {
      assert HasKey(y[1..], x[0].key) && HasKey(x[1..], y[0].key);
      LessIsStrict(x[0].key, y[0].key);
    }
  }

  lemma MeaningOfTail(x: seq<Member>)
    requires SupportedMembers(x) && ProperMembers(x) && x != [] && !x[0].value.Undefined?
    ensures x[0].key in MeaningOfMembers(x) && MeaningOfMembers(x)[x[0].key] == Meaning(x[0].value)
    ensures MeaningOfMembers(x[1..]) == MeaningOfMembers(x) - {x[0].key}
  {
    MeaningHasKeys(x[1..]);
  }
}
