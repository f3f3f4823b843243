/**
 * Out-of-band bootstrap links: packages/federation/src/bootstrap.ts. A message travels as the
 * unpadded base64url (section 5 of RFC 4648) of its canonical text, in the fragment of a link.
 */
module Bootstrap {
  import opened Prelude
  import opened Utf16
  import opened Utf8
  import opened Jcs
  import opened JcsReader
  import opened JcsSpelling

  const PLUS: Unit := 43
  const MINUS: Unit := 45
  const SLASH: Unit := 47
  const EQUALS: Unit := 61
  const UNDERSCORE: Unit := 95
  const HASH: Unit := 35

  // ---------------------------------------------------------------- btoa and atob

  type Sextet = x: int | 0 <= x < 64

  // Three octets are four sextets; one or two left over are two or three, filled up with zero bits.
  function Sextets(b: seq<Byte>): seq<Sextet> {
    if b == [] then []
    else if |b| == 1 then [b[0] / 4, b[0] % 4 * 16]
    else if |b| == 2 then [b[0] / 4, b[0] % 4 * 16 + b[1] / 16, b[1] % 16 * 4]
    else [b[0] / 4, b[0] % 4 * 16 + b[1] / 16, b[1] % 16 * 4 + b[2] / 64, b[2] % 64] + Sextets(b[3..])
  }

  // The bits a last incomplete group does not need are ignored.
  function Octets(x: seq<Sextet>): Option<seq<Byte>> {
    if x == [] then Some([])
    else if |x| == 1 then None
    else if |x| == 2 then Some([First(x[0], x[1])])
    else if |x| == 3 then Some([First(x[0], x[1]), Second(x[1], x[2])])
    else
      var rest :- Octets(x[4..]);
      Some([First(x[0], x[1]), Second(x[1], x[2]), Third(x[2], x[3])] + rest)
  }

  function First(a: int, b: int): Byte
    requires 0 <= a < 64 && 0 <= b < 64
  {
    a * 4 + b / 16
  }

  function Second(b: int, c: int): Byte
    requires 0 <= b < 64 && 0 <= c < 64
  {
    b % 16 * 16 + c / 4
  }

  function Third(c: int, d: int): Byte
    requires 0 <= c < 64 && 0 <= d < 64
  {
    c % 4 * 64 + d
  }

  function Letter(d: Sextet): Unit {
    if d < 26 then 65 + d else if d < 52 then 71 + d else if d < 62 then d - 4 else if d == 62 then PLUS else SLASH
  }

  function Index(u: Unit): Option<Sextet> {
    if 65 <= u <= 90 then Some(u - 65)
    else if 97 <= u <= 122 then Some(u - 71)
    else if 48 <= u <= 57 then Some(u + 4)
    else if u == PLUS then Some(62)
    else if u == SLASH then Some(63)
    else None
  }

  function Letters(x: seq<Sextet>): JsString {
    if x == [] then [] else [Letter(x[0])] + Letters(x[1..])
  }

  function Indexes(s: JsString): Option<seq<Sextet>> {
    if s == [] then Some([])
    else
      var d :- Index(s[0]);
      var rest :- Indexes(s[1..]);
      Some([d] + rest)
  }

  function Equals(n: nat): JsString {
    if n == 0 then [] else [EQUALS] + Equals(n - 1)
  }

  // The padding that brings a length up to a multiple of four.
  function Padding(length: nat): JsString {
    Equals((4 - length % 4) % 4)
  }

  function Btoa(b: seq<Byte>): JsString {
    Letters(Sextets(b)) + Padding(|Sextets(b)|)
  }

  predicate IsSpace(u: Unit) {
    u == 9 || u == 10 || u == 12 || u == 13 || u == 32
  }

  function DropSpaces(s: JsString): JsString {
    if s == [] then [] else (if IsSpace(s[0]) then [] else [s[0]]) + DropSpaces(s[1..])
  }

  // Up to two trailing equals signs, when the length is a multiple of four.
  function DropPadding(s: JsString): JsString {
    if |s| == 0 || |s| % 4 != 0 || s[|s| - 1] != EQUALS then s
    else if s[|s| - 2] != EQUALS then s[..|s| - 1]
    else s[..|s| - 2]
  }

  function Atob(s: JsString): Option<seq<Byte>> {
    var x :- Indexes(DropPadding(DropSpaces(s)));
    Octets(x)
  }

  // ---------------------------------------------------------------- base64url

  function Replace(s: JsString, old': Unit, new': Unit): JsString {
    if s == [] then [] else [if s[0] == old' then new' else s[0]] + Replace(s[1..], old', new')
  }

  function DropTrailingEquals(s: JsString): JsString {
    if s == [] || s[|s| - 1] != EQUALS then s else DropTrailingEquals(s[..|s| - 1])
  }

  function UrlText(b: seq<Byte>): JsString {
    DropTrailingEquals(Replace(Replace(Btoa(b), PLUS, MINUS), SLASH, UNDERSCORE))
  }

  // The text reads back as the bytes, in the url alphabet and without padding.
  method ToBase64Url(bytes: seq<Byte>) returns (s: JsString)
    ensures s == UrlText(bytes) && FromBase64Url(s) == Some(bytes)
    ensures |s| == (4 * |bytes| + 2) / 3 && forall u :: u in s ==> IsUrlLetter(u)
  {
    var binary: seq<Byte> := [];
    for i := 0 to |bytes|
      invariant binary == bytes[..i]
    {
      binary := binary + [bytes[i]];
    }
    assert binary == bytes;
    s := DropTrailingEquals(Replace(Replace(Btoa(binary), PLUS, MINUS), SLASH, UNDERSCORE));
    FromBase64UrlInverts(bytes);
    UrlTextIsUnpadded(bytes);
  }

  function FromBase64Url(s: JsString): Option<seq<Byte>> {
    var padded := Replace(Replace(s, MINUS, PLUS), UNDERSCORE, SLASH);
    Atob(padded + Padding(|padded|))
  }

  predicate IsUrlLetter(u: Unit) {
    65 <= u <= 90 || 97 <= u <= 122 || 48 <= u <= 57 || u == MINUS || u == UNDERSCORE
  }

  predicate IsBase64Url(s: JsString) {
    s != [] && forall u :: u in s ==> IsUrlLetter(u)
  }

  // ---------------------------------------------------------------- links

  function EncodeBootstrap(message: Value): Outcome {
    var o := Canon(message, 0);
    if o.Refused? then o else Text(UrlText(EncodeString(o.text)))
  }

  function BootstrapUrl(message: Value, base: JsString): Outcome {
    var o := EncodeBootstrap(message);
    if o.Refused? then o else Text(base + [HASH] + o.text)
  }

  function PayloadFromUrl(url: JsString): Option<JsString> {
    if url == [] then None
    else if url[0] == HASH then Some(url[1..])
    else PayloadFromUrl(url[1..])
  }

  // None where the source gives null.
  function DecodeBootstrap(payload: JsString): Option<Tree> {
    if !IsBase64Url(payload) then None
    else
      var bytes :- FromBase64Url(payload);
      Read(DecodeString(bytes))
  }

  function DecodeLink(url: JsString): Option<Tree> {
    var payload :- PayloadFromUrl(url);
    DecodeBootstrap(payload)
  }

  // ---------------------------------------------------------------- proofs: base64url

  lemma GroupInverts(a: Byte, b: Byte, c: Byte)
    ensures First(a / 4, a % 4 * 16 + b / 16) == a
    ensures Second(a % 4 * 16 + b / 16, b % 16 * 4 + c / 64) == b
    ensures Third(b % 16 * 4 + c / 64, c % 64) == c
  {
  }

  lemma OctetsOfGroup(x: seq<Sextet>, rest: seq<Byte>)
    requires |x| >= 4 && Octets(x[4..]) == Some(rest)
    ensures Octets(x) == Some([First(x[0], x[1]), Second(x[1], x[2]), Third(x[2], x[3])] + rest)
  {
  }

  lemma {:induction false} OctetsInvertSextets(b: seq<Byte>)
    ensures Octets(Sextets(b)) == Some(b)
    ensures |Sextets(b)| == (4 * |b| + 2) / 3
  {
    if |b| == 1 {
      assert [b[0]] == b;
    } else if |b| == 2 {
      assert [b[0], b[1]] == b;
    } else if |b| >= 3 {
      var x := Sextets(b);
      OctetsInvertSextets(b[3..]);
      assert x[4..] == Sextets(b[3..]);
      OctetsOfGroup(x, b[3..]);
      GroupInverts(b[0], b[1], b[2]);
      assert [b[0], b[1], b[2]] + b[3..] == b;
    }
  }

  predicate IsLetter(u: Unit) {
    Index(u).Some?
  }

  lemma {:induction false} IndexesInvertLetters(x: seq<Sextet>)
    ensures Indexes(Letters(x)) == Some(x) && |Letters(x)| == |x|
    ensures forall u :: u in Letters(x) ==> IsLetter(u)
  {
    if x != [] {
      IndexesInvertLetters(x[1..]);
      assert Letters(x)[1..] == Letters(x[1..]);
      assert Index(Letter(x[0])) == Some(x[0]);
      assert [x[0]] + x[1..] == x;
    }
  }

  function ToUrl(s: JsString): JsString {
    Replace(Replace(s, PLUS, MINUS), SLASH, UNDERSCORE)
  }

  function FromUrl(s: JsString): JsString {
    Replace(Replace(s, MINUS, PLUS), UNDERSCORE, SLASH)
  }

  lemma {:induction false} ReplaceConcat(x: JsString, y: JsString, old': Unit, new': Unit)
    ensures Replace(x + y, old', new') == Replace(x, old', new') + Replace(y, old', new')
  {
    if x == [] {
      assert x + y == y;
    } else {
      assert (x + y)[1..] == x[1..] + y;
      ReplaceConcat(x[1..], y, old', new');
    }
  }

  lemma ToUrlConcat(x: JsString, y: JsString)
    ensures ToUrl(x + y) == ToUrl(x) + ToUrl(y)
  {
    ReplaceConcat(x, y, PLUS, MINUS);
    ReplaceConcat(Replace(x, PLUS, MINUS), Replace(y, PLUS, MINUS), SLASH, UNDERSCORE);
  }

  lemma {:induction false} EqualsIsFixed(n: nat, old': Unit, new': Unit)
    requires old' != EQUALS
    ensures Replace(Equals(n), old', new') == Equals(n)
  {
    if n > 0 {
      EqualsIsFixed(n - 1, old', new');
    }
  }

  lemma {:induction false} LettersToUrl(s: JsString)
    requires forall u :: u in s ==> IsLetter(u)
    ensures |ToUrl(s)| == |s| && FromUrl(ToUrl(s)) == s
    ensures forall u :: u in ToUrl(s) ==> IsUrlLetter(u)
  {
    if s != [] {
      LettersToUrl(s[1..]);
      var r := Replace(s, PLUS, MINUS);
      assert r[1..] == Replace(s[1..], PLUS, MINUS);
      assert ToUrl(s)[1..] == ToUrl(s[1..]);
      var back := Replace(ToUrl(s), MINUS, PLUS);
      assert back[1..] == Replace(ToUrl(s[1..]), MINUS, PLUS);
      assert IsLetter(s[0]);
    }
  }

  lemma {:induction false} EqualsSnoc(n: nat)
    ensures Equals(n + 1) == Equals(n) + [EQUALS] && |Equals(n)| == n
  {
    if n > 0 {
      EqualsSnoc(n - 1);
    }
  }

  lemma {:induction false} DropEquals(s: JsString, n: nat)
    requires s == [] || s[|s| - 1] != EQUALS
    ensures DropTrailingEquals(s + Equals(n)) == s
  {
    if n == 0 {
      assert s + Equals(0) == s;
    } else {
      EqualsSnoc(n - 1);
      assert (s + Equals(n))[..|s| + n - 1] == s + Equals(n - 1);
      DropEquals(s, n - 1);
    }
  }

  // The url text is the letters alone, in the unpadded alphabet.
  lemma UrlTextIsUnpadded(b: seq<Byte>)
    ensures UrlText(b) == ToUrl(Letters(Sextets(b))) && |UrlText(b)| == (4 * |b| + 2) / 3
    ensures forall u :: u in UrlText(b) ==> IsUrlLetter(u)
  {
    var core, n := Letters(Sextets(b)), (4 - |Sextets(b)| % 4) % 4;
    OctetsInvertSextets(b);
    IndexesInvertLetters(Sextets(b));
    LettersToUrl(core);
    ToUrlConcat(core, Equals(n));
    EqualsIsFixed(n, PLUS, MINUS);
    EqualsIsFixed(n, SLASH, UNDERSCORE);
    var url := ToUrl(core);
    assert url == [] || IsUrlLetter(url[|url| - 1]);
    DropEquals(url, n);
  }

  // The sixty-four letters of table 2 of RFC 4648, in the order of their values.
  predicate Spells(u: Unit, d: int) {
    if d < 26 then u == 'A' as int + d
    else if d < 52 then u == 'a' as int + (d - 26)
    else if d < 62 then u == '0' as int + (d - 52)
    else if d == 62 then u == '-' as int
    else d == 63 && u == '_' as int
  }

  function OctetAt(b: seq<Byte>, i: nat): int {
    if i < |b| then b[i] else 0
  }

  // The three octets from 3 * g on as one number, those past the end being zero.
  function GroupOf(b: seq<Byte>, g: nat): int {
    (OctetAt(b, 3 * g) * 256 + OctetAt(b, 3 * g + 1)) * 256 + OctetAt(b, 3 * g + 2)
  }

  // Its digits in base sixty-four, the highest first.
  function DigitOf(group: int, i: nat): int
    requires i < 4
  {
    if i == 0 then group / 64 / 64 / 64
    else if i == 1 then group / 64 / 64 % 64
    else if i == 2 then group / 64 % 64
    else group % 64
  }

  lemma GroupDigits(a: Byte, b: Byte, c: Byte)
    ensures var group := (a * 256 + b) * 256 + c;
      && DigitOf(group, 0) == a / 4 && DigitOf(group, 1) == a % 4 * 16 + b / 16
      && DigitOf(group, 2) == b % 16 * 4 + c / 64 && DigitOf(group, 3) == c % 64
  {
    var group := (a * 256 + b) * 256 + c;
    var upper := a * 1024 + b * 4 + c / 64;
    assert group == upper * 64 + c % 64;
    var middle := a * 16 + b / 16;
    assert upper == middle * 64 + (b % 16 * 4 + c / 64);
    assert middle == a / 4 * 64 + (a % 4 * 16 + b / 16);
    assert group / 64 == upper && upper / 64 == middle;
  }

  lemma GroupOfRest(b: seq<Byte>, g: nat)
    requires |b| >= 3
    ensures GroupOf(b, g + 1) == GroupOf(b[3..], g)
  {
    assert forall i :: 0 <= i < |b[3..]| ==> b[3..][i] == b[i + 3];
  }

  lemma {:induction false} SextetsAreDigits(b: seq<Byte>, i: nat)
    requires i < |Sextets(b)|
    ensures Sextets(b)[i] == DigitOf(GroupOf(b, i / 4), i % 4)
  {
    if i < 4 {
      FirstSextets(b, i);
    } else {
      OctetsInvertSextets(b);
      var rest := b[3..];
      SextetsAreDigits(rest, i - 4);
      GroupOfRest(b, (i - 4) / 4);
      FourOn(i);
    }
  }

  lemma FourOn(i: nat)
    requires i >= 4
    ensures (i - 4) / 4 + 1 == i / 4 && (i - 4) % 4 == i % 4
  {
  }

  lemma FirstSextets(b: seq<Byte>, i: nat)
    requires i < |Sextets(b)| && i < 4
    ensures Sextets(b)[i] == DigitOf(GroupOf(b, 0), i)
  {
    GroupDigits(b[0], OctetAt(b, 1), OctetAt(b, 2));
  }

  lemma {:induction false} LettersSpell(x: seq<Sextet>, i: nat)
    requires i < |x|
    ensures |ToUrl(Letters(x))| == |x| && Spells(ToUrl(Letters(x))[i], x[i])
  {
    var rest := Letters(x[1..]);
    IndexesInvertLetters(x);
    LettersToUrl(Letters(x));
    assert Letters(x) == [Letter(x[0])] + rest;
    ToUrlConcat([Letter(x[0])], rest);
    ToUrlOfOne(Letter(x[0]), x[0]);
    if i > 0 {
      LettersSpell(x[1..], i - 1);
    }
  }

  lemma ToUrlOfOne(u: Unit, d: Sextet)
    requires u == Letter(d)
    ensures |ToUrl([u])| == 1 && Spells(ToUrl([u])[0], d)
  {
    var v := if u == PLUS then MINUS else u;
    ReplaceOne(u, PLUS, MINUS);
    ReplaceOne(v, SLASH, UNDERSCORE);
  }

  lemma ReplaceOne(u: Unit, old': Unit, new': Unit)
    ensures Replace([u], old', new') == [if u == old' then new' else u]
  {
    assert [u][1..] == [] && Replace([], old', new') == [];
  }

  // The text spells the octets three at a time as four digits of base sixty-four, as section 5 of RFC 4648 has it.
  lemma UrlTextSpells(b: seq<Byte>, i: nat)
    requires i < |UrlText(b)|
    ensures Spells(UrlText(b)[i], DigitOf(GroupOf(b, i / 4), i % 4))
  {
    UrlTextIsUnpadded(b);
    OctetsInvertSextets(b);
    SextetsAreDigits(b, i);
    LettersSpell(Sextets(b), i);
  }

  lemma {:induction false} NoSpacesToDrop(s: JsString)
    requires forall u :: u in s ==> !IsSpace(u)
    ensures DropSpaces(s) == s
  {
    if s != [] {
      NoSpacesToDrop(s[1..]);
      assert [s[0]] + s[1..] == s;
    }
  }

  lemma DropPaddingOf(core: JsString)
    requires |core| % 4 != 1 && forall u :: u in core ==> IsLetter(u)
    ensures DropPadding(core + Padding(|core|)) == core
  {
    var n := (4 - |core| % 4) % 4;
    var s := core + Equals(n);
    assert core == [] || IsLetter(core[|core| - 1]);
    if n == 0 {
      assert s == core;
    } else if n == 1 {
      assert Equals(1) == [EQUALS] + Equals(0);
      assert s[..|s| - 1] == core;
    } else {
      assert Equals(2) == [EQUALS] + Equals(1) && Equals(1) == [EQUALS] + Equals(0);
      assert s[..|s| - 2] == core;
    }
  }

  lemma {:induction false} SextetsNeverOneOver(b: seq<Byte>)
    ensures |Sextets(b)| % 4 != 1
  {
    if |b| >= 3 {
      SextetsNeverOneOver(b[3..]);
      assert |Sextets(b)| == 4 + |Sextets(b[3..])|;
    }
  }

  lemma AtobInvertsBtoa(b: seq<Byte>)
    ensures Atob(Btoa(b)) == Some(b)
  {
    var x := Sextets(b);
    OctetsInvertSextets(b);
    IndexesInvertLetters(x);
    SextetsNeverOneOver(b);
    EqualsOnly((4 - |x| % 4) % 4);
    assert forall u :: u in Btoa(b) ==> IsLetter(u) || u == EQUALS;
    NoSpacesToDrop(Btoa(b));
    DropPaddingOf(Letters(x));
  }

  lemma {:induction false} EqualsOnly(n: nat)
    ensures forall u :: u in Equals(n) ==> u == EQUALS
  {
    if n > 0 {
      EqualsOnly(n - 1);
    }
  }

  // Decoding inverts encoding on every octet sequence.
  lemma FromBase64UrlInverts(b: seq<Byte>)
    ensures FromBase64Url(UrlText(b)) == Some(b)
  {
    UrlTextIsUnpadded(b);
    IndexesInvertLetters(Sextets(b));
    LettersToUrl(Letters(Sextets(b)));
    AtobInvertsBtoa(b);
  }

  // ---------------------------------------------------------------- proofs: links

  lemma WellFormedWrap(a: JsString, b: JsString, c: JsString)
    requires WellFormed(a) && WellFormed(b) && WellFormed(c)
    ensures WellFormed(a + b + c)
  {
    WellFormedConcat(a, b);
    WellFormedConcat(a + b, c);
  }

  lemma QuotedIsWellFormed(s: JsString)
    ensures WellFormed(Quoted(s))
  {
    EscapeIsWellFormed(s);
    AsciiOrOneUnit([QUOTE]);
    WellFormedWrap([QUOTE], Escape(s), [QUOTE]);
  }

  // A canonical text never holds an unpaired surrogate, so its octets say exactly what it says.
  lemma {:induction false} CanonIsWellFormed(v: Value, depth: nat)
    requires depth <= MAX_DEPTH + 1 && Canon(v, depth).Text?
    ensures WellFormed(Canon(v, depth).text)
    decreases MAX_DEPTH + 1 - depth, 1, 0
  {
    match v
    case Num(n) => AsciiOrOneUnit(NumeralOf(n));
    case Str(s) => QuotedIsWellFormed(s);
    case Arr(items) =>
      CanonItemsAreWellFormed(items, depth, true);
      AsciiOrOneUnit([OPEN_BRACKET]);
      AsciiOrOneUnit([CLOSE_BRACKET]);
      WellFormedWrap([OPEN_BRACKET], CanonItems(items, depth, true).text, [CLOSE_BRACKET]);
    case Obj(members) =>
      CanonMembersAreWellFormed(Sort(members), depth, true);
      AsciiOrOneUnit([OPEN_BRACE]);
      AsciiOrOneUnit([CLOSE_BRACE]);
      WellFormedWrap([OPEN_BRACE], CanonMembers(Sort(members), depth, true).text, [CLOSE_BRACE]);
    case Null => AsciiOrOneUnit(NULL);
    case Bool(b) => AsciiOrOneUnit(if b then TRUE else FALSE);
  }

  lemma {:induction false} CanonItemsAreWellFormed(items: seq<Value>, depth: nat, first: bool)
    requires depth <= MAX_DEPTH && CanonItems(items, depth, first).Text?
    ensures WellFormed(CanonItems(items, depth, first).text)
    decreases MAX_DEPTH + 1 - depth, 0, |items|
  {
    if items != [] {
      CanonIsWellFormed(items[0], depth + 1);
      CanonItemsAreWellFormed(items[1..], depth, false);
      AsciiOrOneUnit(Separator(first));
      WellFormedWrap(Separator(first), Canon(items[0], depth + 1).text, CanonItems(items[1..], depth, false).text);
    }
  }

  lemma {:induction false} CanonMembersAreWellFormed(members: seq<Member>, depth: nat, first: bool)
    requires depth <= MAX_DEPTH && CanonMembers(members, depth, first).Text?
    ensures WellFormed(CanonMembers(members, depth, first).text)
    decreases MAX_DEPTH + 1 - depth, 0, |members|
  {
    if members == [] {
    } else if members[0].value.Undefined? {
      CanonMembersAreWellFormed(members[1..], depth, first);
    } else {
      CanonIsWellFormed(members[0].value, depth + 1);
      CanonMembersAreWellFormed(members[1..], depth, false);
      AsciiOrOneUnit(Separator(first));
      AsciiOrOneUnit([COLON]);
      QuotedIsWellFormed(members[0].key);
      var opening := Separator(first) + Quoted(members[0].key) + [COLON];
      WellFormedWrap(Separator(first), Quoted(members[0].key), [COLON]);
      WellFormedWrap(opening, Canon(members[0].value, depth + 1).text, CanonMembers(members[1..], depth, false).text);
    }
  }

  lemma CanonBeginsWithAscii(v: Value, depth: nat)
    requires depth <= MAX_DEPTH + 1 && Canon(v, depth).Text?
    ensures Canon(v, depth).text != [] && Canon(v, depth).text[0] < 128
  {
    assert v.Num? ==> IsNumberUnit(NumeralOf(v.n)[0]);
  }

  lemma {:induction false} PayloadAfterBase(base: JsString, payload: JsString)
    ensures HASH !in base ==> PayloadFromUrl(base + [HASH] + payload) == Some(payload)
    ensures HASH in base ==>
              PayloadFromUrl(base + [HASH] + payload).Some? && HASH in PayloadFromUrl(base + [HASH] + payload).value
  {
    var url := base + [HASH] + payload;
    if base == [] {
      assert url[1..] == payload;
    } else {
      assert url[1..] == base[1..] + [HASH] + payload;
      PayloadAfterBase(base[1..], payload);
      assert base[0] == HASH ==> url[1..][|base| - 1] == HASH;
    }
  }

  // A payload decodes to whatever its text reads as.
  lemma PayloadRoundTrip(text: JsString)
    requires WellFormed(text) && text != [] && text[0] < 128
    ensures DecodeBootstrap(UrlText(EncodeString(text))) == Read(text)
  {
    var bytes := EncodeString(text);
    UrlTextIsUnpadded(bytes);
    FromBase64UrlInverts(bytes);
    DecodeInvertsEncodeString(text);
    assert ToScalars(text) != [] && Encode(ToScalars(text)) != [];
    assert |UrlText(bytes)| >= 1;
  }

  lemma LinkDecodes(base: JsString, payload: JsString)
    ensures DecodeLink(base + [HASH] + payload) == if HASH in base then None else DecodeBootstrap(payload)
  {
    PayloadAfterBase(base, payload);
    assert !IsUrlLetter(HASH);
  }

  lemma LinkOfText(text: JsString, base: JsString)
    requires WellFormed(text) && text != [] && text[0] < 128
    ensures DecodeLink(base + [HASH] + UrlText(EncodeString(text))) == if HASH in base then None else Read(text)
  {
    PayloadRoundTrip(text);
    LinkDecodes(base, UrlText(EncodeString(text)));
  }

  // A link gives back its message's meaning exactly when its base carries no fragment of its own.
  lemma LinkRoundTrip(message: Value, base: JsString, text: JsString)
    requires Proper(message) && Canon(message, 0) == Text(text)
    ensures Supported(message) && BootstrapUrl(message, base).Text?
    ensures DecodeLink(BootstrapUrl(message, base).text) == Some(Meaning(message)) <==> HASH !in base
    ensures HASH in base ==> DecodeLink(BootstrapUrl(message, base).text) == None
  {
    ReadInvertsCanonicalize(message);
    CanonIsWellFormed(message, 0);
    CanonBeginsWithAscii(message, 0);
    LinkOfText(text, base);
  }

  // A base that already has a fragment, here one that is nothing else, makes a link that decodes to nothing.
  lemma LinkAfterFragmentIsLost(message: Value, text: JsString)
    requires Proper(message) && Canon(message, 0) == Text(text)
    ensures Supported(message) && BootstrapUrl(message, [HASH]).Text?
    ensures DecodeLink(BootstrapUrl(message, [HASH]).text) == None
    ensures BootstrapUrl(message, []).Text?
    ensures DecodeLink(BootstrapUrl(message, []).text) == Some(Meaning(message))
  {
    LinkRoundTrip(message, [HASH], text);
    LinkRoundTrip(message, [], text);
  }
}
