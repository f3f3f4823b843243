/**
 * The HTML printer: packages/client-web/src/element.ts. An element tree is printed with its text and
 * attribute values escaped, and a reader of what is printed gets the tree back.
 */
module Html {
  import opened Prelude

  // A number is printed as its numeral, so an attribute is text or a flag.
  datatype Attr = Attr(name: string, value: Value)

  datatype Value = Words(text: string) | Flag(on: bool)

  datatype El = El(tag: string, attrs: seq<Attr>, text: Option<string>, children: seq<El>)

  predicate IsVoid(tag: string) {
    tag in {"br", "hr", "img", "input", "meta", "link"}
  }

  // ---------------------------------------------------------------- escaping

  function Replace(s: string, c: char, word: string): string {
    if s == "" then "" else (if s[0] == c then word else [s[0]]) + Replace(s[1..], c, word)
  }

  // Five replacements, one after another, the ampersand first.
  function EscapeHtml(s: string): string {
    var a := Replace(s, '&', "&amp;");
    var b := Replace(a, '<', "&lt;");
    var c := Replace(b, '>', "&gt;");
    var d := Replace(c, '\"', "&quot;");
    Replace(d, '\'', "&#39;")
  }

  function EntityOf(c: char): string {
    match c
    case '&' => "&amp;"
    case '<' => "&lt;"
    case '>' => "&gt;"
    case '\"' => "&quot;"
    case '\'' => "&#39;"
    case _ => [c]
  }

  // One pass, a character at a time.
  function Escaped(s: string): string {
    if s == "" then "" else EntityOf(s[0]) + Escaped(s[1..])
  }

  lemma {:induction false} ReplaceConcat(x: string, y: string, c: char, word: string)
    ensures Replace(x + y, c, word) == Replace(x, c, word) + Replace(y, c, word)
    decreases |x|
  {
    if x == "" {
      assert x + y == y;
    } else {
      assert (x + y)[1..] == x[1..] + y;
      ReplaceConcat(x[1..], y, c, word);
    }
  }

  lemma {:induction false} ReplaceAbsent(s: string, c: char, word: string)
    requires c !in s
    ensures Replace(s, c, word) == s
  {
    if s != "" {
      ReplaceAbsent(s[1..], c, word);
    }
  }

  lemma ReplaceOne(c: char, word: string)
    ensures Replace([c], c, word) == word
  {
    assert [c][1..] == "";
    assert word + "" == word;
  }

  lemma EscapeConcat(x: string, y: string)
    ensures EscapeHtml(x + y) == EscapeHtml(x) + EscapeHtml(y)
  {
    ReplaceConcat(x, y, '&', "&amp;");
    var ax, ay := Replace(x, '&', "&amp;"), Replace(y, '&', "&amp;");
    ReplaceConcat(ax, ay, '<', "&lt;");
    var bx, bz := Replace(ax, '<', "&lt;"), Replace(ay, '<', "&lt;");
    ReplaceConcat(bx, bz, '>', "&gt;");
    var cx, cy := Replace(bx, '>', "&gt;"), Replace(bz, '>', "&gt;");
    ReplaceConcat(cx, cy, '\"', "&quot;");
    ReplaceConcat(Replace(cx, '\"', "&quot;"), Replace(cy, '\"', "&quot;"), '\'', "&#39;");
  }

  predicate IsMarkup(c: char) {
    c == '<' || c == '>' || c == '\"' || c == '\''
  }

  // The replacements after the first, second, third and fourth.
  function FromLess(s: string): string {
    FromGreater(Replace(s, '<', "&lt;"))
  }

  function FromGreater(s: string): string {
    FromQuote(Replace(s, '>', "&gt;"))
  }

  function FromQuote(s: string): string {
    Replace(Replace(s, '\"', "&quot;"), '\'', "&#39;")
  }

  predicate NoMarkup(s: string) {
    forall c :: c in s ==> !IsMarkup(c)
  }

  lemma QuotesLeave(s: string)
    requires NoMarkup(s)
    ensures FromQuote(s) == s
  {
    ReplaceAbsent(s, '\"', "&quot;");
    ReplaceAbsent(s, '\'', "&#39;");
  }

  lemma GreaterLeaves(s: string)
    requires NoMarkup(s)
    ensures FromGreater(s) == s
  {
    ReplaceAbsent(s, '>', "&gt;");
    QuotesLeave(s);
  }

  lemma LessLeaves(s: string)
    requires NoMarkup(s)
    ensures FromLess(s) == s
  {
    ReplaceAbsent(s, '<', "&lt;");
    GreaterLeaves(s);
  }

  lemma QuoteOfOne(c: char)
    requires c != '<' && c != '>' && c != '&'
    ensures FromQuote([c]) == EntityOf(c)
  {
    if c == '\"' {
      ReplaceOne(c, "&quot;");
      ReplaceAbsent("&quot;", '\'', "&#39;");
    } else if c == '\'' {
      ReplaceAbsent([c], '\"', "&quot;");
      ReplaceOne(c, "&#39;");
    } else {
      QuotesLeave([c]);
    }
  }

  lemma LessOfOne(c: char)
    requires c != '&'
    ensures FromLess([c]) == EntityOf(c)
  {
    if c == '<' {
      ReplaceOne(c, "&lt;");
      GreaterLeaves("&lt;");
    } else {
      ReplaceAbsent([c], '<', "&lt;");
      if c == '>' {
        ReplaceOne(c, "&gt;");
        QuotesLeave("&gt;");
      } else {
        ReplaceAbsent([c], '>', "&gt;");
        QuoteOfOne(c);
      }
    }
  }

  lemma EscapeOfOne(c: char)
    ensures EscapeHtml([c]) == EntityOf(c)
  {
    assert EscapeHtml([c]) == FromLess(Replace([c], '&', "&amp;"));
    if c == '&' {
      ReplaceOne(c, "&amp;");
      LessLeaves("&amp;");
    } else {
      ReplaceAbsent([c], '&', "&amp;");
      LessOfOne(c);
    }
  }

  // The five replacements are one pass of a map on characters: none of them touches what another wrote.
  lemma {:induction false} EscapeIsOnePass(s: string)
    ensures EscapeHtml(s) == Escaped(s)
    decreases |s|
  {
    if s == "" {
    } else {
      EscapeConcat([s[0]], s[1..]);
      assert s == [s[0]] + s[1..];
      EscapeOfOne(s[0]);
      EscapeIsOnePass(s[1..]);
    }
  }

  lemma {:induction false} EscapedIsInert(s: string)
    ensures forall c :: c in Escaped(s) ==> !IsMarkup(c)
  {
    if s != "" {
      EscapedIsInert(s[1..]);
    }
  }

  // The character an entity at the front stands for, and the length of the entity.
  function Front(s: string): (char, nat)
    requires s != ""
  {
    if s[0] != '&' then (s[0], 1)
    else if "&amp;" <= s then ('&', 5)
    else if "&lt;" <= s then ('<', 4)
    else if "&gt;" <= s then ('>', 4)
    else if "&quot;" <= s then ('\"', 6)
    else if "&#39;" <= s then ('\'', 5)
    else (s[0], 1)
  }

  lemma FrontIsShort(s: string)
    requires s != ""
    ensures 1 <= Front(s).1 <= |s|
  {
  }

  function Unescape(s: string): string {
    if s == "" then ""
    else
      FrontIsShort(s);
      [Front(s).0] + Unescape(s[Front(s).1..])
  }

  lemma FrontOfEntity(c: char, rest: string)
    ensures var s := EntityOf(c) + rest; Front(s) == (c, |EntityOf(c)|) && s[|EntityOf(c)|..] == rest
  {
    var s := EntityOf(c) + rest;
    assert s[0] == EntityOf(c)[0];
    if EntityOf(c)[0] == '&' {
      assert s[1] == EntityOf(c)[1];
      assert EntityOf(c) <= s;
      assert "&amp;"[1] == 'a' && "&lt;"[1] == 'l' && "&gt;"[1] == 'g' && "&quot;"[1] == 'q' && "&#39;"[1] == '#';
      assert "&amp;" <= s ==> s[1] == 'a';
      assert "&lt;" <= s ==> s[1] == 'l';
      assert "&gt;" <= s ==> s[1] == 'g';
      assert "&quot;" <= s ==> s[1] == 'q';
    }
  }

  lemma UnescapeFront(s: string, c: char, rest: string)
    requires s != "" && Front(s).0 == c && Front(s).1 <= |s| && s[Front(s).1..] == rest
    ensures Unescape(s) == [c] + Unescape(rest)
  {
  }

  lemma UnescapeOne(c: char, word: string, rest: string)
    requires word == EntityOf(c)
    ensures Unescape(word + rest) == [c] + Unescape(rest)
  {
    FrontOfEntity(c, rest);
    UnescapeFront(word + rest, c, rest);
  }

  lemma {:induction false} UnescapeInverts(s: string)
    ensures Unescape(Escaped(s)) == s
  {
    if s != "" {
      UnescapeOne(s[0], EntityOf(s[0]), Escaped(s[1..]));
      UnescapeInverts(s[1..]);
      assert s == [s[0]] + s[1..];
    }
  }

  // Different texts are escaped differently.
  lemma EscapeIsInjective(x: string, y: string)
    requires EscapeHtml(x) == EscapeHtml(y)
    ensures x == y
  {
    EscapeIsOnePass(x);
    EscapeIsOnePass(y);
    UnescapeInverts(x);
    UnescapeInverts(y);
  }

  // ---------------------------------------------------------------- printing

  function RenderAttrs(attrs: seq<Attr>): string {
    if attrs == [] then ""
    else
      (match attrs[0].value
       case Flag(on) => if on then " " + attrs[0].name else ""
       case Words(text) => " " + attrs[0].name + "=\"" + EscapeHtml(text) + "\"") + RenderAttrs(attrs[1..])
  }

  function Render(e: El): string
    decreases e, 0
  {
    var opening := "<" + e.tag + RenderAttrs(e.attrs) + ">";
    if IsVoid(e.tag) then opening
    else
      var inner := if e.text.Some? then EscapeHtml(e.text.value) else RenderAll(e.children);
      opening + inner + "</" + e.tag + ">"
  }

  function RenderAll(children: seq<El>): string
    decreases children, 1
  {
    if children == [] then "" else Render(children[0]) + RenderAll(children[1..])
  }

  // ---------------------------------------------------------------- what a tree says

  function Shown(attrs: seq<Attr>): seq<Attr> {
    if attrs == [] then []
    else (if attrs[0].value == Flag(false) then [] else [attrs[0]]) + Shown(attrs[1..])
  }

  // False attributes are gone, void tags are empty, text wins over children, and no text is no content.
  function Normal(e: El): El
    decreases e, 0
  {
    if IsVoid(e.tag) then El(e.tag, Shown(e.attrs), None, [])
    else if e.text.None? then El(e.tag, Shown(e.attrs), None, NormalAll(e.children))
    else El(e.tag, Shown(e.attrs), if e.text.value == "" then None else e.text, [])
  }

  function NormalAll(children: seq<El>): seq<El>
    decreases children, 1
  {
    if children == [] then [] else [Normal(children[0])] + NormalAll(children[1..])
  }

  // ---------------------------------------------------------------- reading

  predicate IsNameChar(c: char) {
    c != ' ' && c != '<' && c != '>' && c != '/' && c != '=' && c != '\"'
  }

  predicate IsName(s: string) {
    s != "" && forall c :: c in s ==> IsNameChar(c)
  }

  // Tags and attribute names are names all through the tree.
  predicate Named(e: El)
    decreases e, 0
  {
    IsName(e.tag) && (forall i :: 0 <= i < |e.attrs| ==> IsName(e.attrs[i].name)) && NamedAll(e.children)
  }

  predicate NamedAll(children: seq<El>)
    decreases children, 1
  {
    children == [] || (Named(children[0]) && NamedAll(children[1..]))
  }

  function TakeName(s: string): (r: (string, string))
    ensures r.0 + r.1 == s
  {
    if s == "" || !IsNameChar(s[0]) then ("", s)
    else
      var (name, rest) := TakeName(s[1..]);
      ([s[0]] + name, rest)
  }

  function TakeTo(s: string, stop: char): (r: (string, string))
    ensures r.0 + r.1 == s
  {
    if s == "" || s[0] == stop then ("", s)
    else
      var (text, rest) := TakeTo(s[1..], stop);
      ([s[0]] + text, rest)
  }

  function ReadAttrs(s: string): (r: Option<(seq<Attr>, string)>)
    ensures r.Some? ==> |r.value.1| <= |s|
    decreases |s|
  {
    if s == "" || s[0] != ' ' then Some(([], s))
    else
      var (name, rest) := TakeName(s[1..]);
      assert |name| + |rest| == |s| - 1;
      if name == "" then None
      else if "=\"" <= rest then
        var (text, after) := TakeTo(rest[2..], '\"');
        assert |text| + |after| == |rest| - 2;
        if after == "" then None
        else
          var more :- ReadAttrs(after[1..]);
          Some(([Attr(name, Words(Unescape(text)))] + more.0, more.1))
      else
        var more :- ReadAttrs(rest);
        Some(([Attr(name, Flag(true))] + more.0, more.1))
  }

  function ReadNode(s: string): (r: Option<(El, string)>)
    ensures r.Some? ==> |r.value.1| < |s|
    decreases |s|, 0
  {
    if s == "" || s[0] != '<' then None
    else
      var (tag, rest) := TakeName(s[1..]);
      assert |tag| + |rest| == |s| - 1;
      if tag == "" then None
      else
        var attrs :- ReadAttrs(rest);
        if !(">" <= attrs.1) then None
        else if IsVoid(tag) then Some((El(tag, attrs.0, None, []), attrs.1[1..]))
        else
          var content :- ReadContent(attrs.1[1..]);
          var close := "</" + tag + ">";
          if close <= content.2 then Some((El(tag, attrs.0, content.0, content.1), content.2[|close|..])) else None
  }

  // Text up to the next tag, or elements up to a closing tag.
  function ReadContent(s: string): (r: Option<(Option<string>, seq<El>, string)>)
    ensures r.Some? ==> |r.value.2| <= |s|
    decreases |s|, 2
  {
    if s != "" && s[0] != '<' then
      var (text, rest) := TakeTo(s, '<');
      assert |text| + |rest| == |s|;
      Some((Some(Unescape(text)), [], rest))
    else
      var nodes :- ReadNodes(s);
      Some((None, nodes.0, nodes.1))
  }

  function ReadNodes(s: string): (r: Option<(seq<El>, string)>)
    ensures r.Some? ==> |r.value.1| <= |s|
    decreases |s|, 1
  {
    if "</" <= s then Some(([], s))
    else
      var first :- ReadNode(s);
      var more :- ReadNodes(first.1);
      Some(([first.0] + more.0, more.1))
  }

  // ---------------------------------------------------------------- reading what was printed

  lemma {:induction false} TakeNameOf(name: string, rest: string)
    requires forall c :: c in name ==> IsNameChar(c)
    requires rest == "" || !IsNameChar(rest[0])
    ensures TakeName(name + rest) == (name, rest)
    decreases |name|
  {
    if name == "" {
      assert name + rest == rest;
    } else {
      assert (name + rest)[1..] == name[1..] + rest;
      TakeNameOf(name[1..], rest);
      assert name == [name[0]] + name[1..];
    }
  }

  lemma {:induction false} TakeToOf(text: string, stop: char, rest: string)
    requires stop !in text && rest != "" && rest[0] == stop
    ensures TakeTo(text + rest, stop) == (text, rest)
    decreases |text|
  {
    if text == "" {
      assert text + rest == rest;
    } else {
      assert (text + rest)[1..] == text[1..] + rest;
      TakeToOf(text[1..], stop, rest);
      assert text == [text[0]] + text[1..];
    }
  }

  lemma AttrsStart(attrs: seq<Attr>, rest: string)
    requires rest != "" && !IsNameChar(rest[0]) && rest[0] != '='
    ensures var s := RenderAttrs(attrs) + rest; s != "" && !IsNameChar(s[0]) && s[0] != '='
    decreases |attrs|
  {
    if attrs != [] {
      var s := RenderAttrs(attrs) + rest;
      if attrs[0].value == Flag(false) {
        AttrsStart(attrs[1..], rest);
        assert RenderAttrs(attrs) == RenderAttrs(attrs[1..]);
      } else {
        assert RenderAttrs(attrs)[0] == ' ' && s[0] == RenderAttrs(attrs)[0];
      }
    } else {
      assert RenderAttrs(attrs) + rest == rest;
    }
  }

  // One attribute with a value, already taken apart.
  lemma WordsRead(s: string, name: string, rest: string, value: string, after: string, more: (seq<Attr>, string))
    requires s != "" && s[0] == ' ' && TakeName(s[1..]) == (name, rest) && name != ""
    requires "=\"" <= rest && TakeTo(rest[2..], '\"') == (value, after) && after != ""
    requires ReadAttrs(after[1..]) == Some(more)
    ensures ReadAttrs(s) == Some(([Attr(name, Words(Unescape(value)))] + more.0, more.1))
  {
  }

  lemma ReadWords(name: string, text: string, tail: string, more: (seq<Attr>, string))
    requires IsName(name) && ReadAttrs(tail) == Some(more)
    ensures ReadAttrs(" " + (name + ("=\"" + (EscapeHtml(text) + ("\"" + tail))))) ==
            Some(([Attr(name, Words(text))] + more.0, more.1))
  {
    EscapeIsOnePass(text);
    EscapedIsInert(text);
    UnescapeInverts(text);
    var value, after := Escaped(text), "\"" + tail;
    var rest := "=\"" + (value + after);
    TakeNameOf(name, rest);
    TakeToOf(value, '\"', after);
    assert rest[2..] == value + after && after[1..] == tail;
    var s := " " + (name + rest);
    assert s[1..] == name + rest;
    WordsRead(s, name, rest, value, after, more);
  }

  lemma ReadFlag(name: string, tail: string, more: (seq<Attr>, string))
    requires IsName(name) && tail != "" && !IsNameChar(tail[0]) && tail[0] != '=' && ReadAttrs(tail) == Some(more)
    ensures ReadAttrs(" " + (name + tail)) == Some(([Attr(name, Flag(true))] + more.0, more.1))
  {
    var s := " " + (name + tail);
    assert s[1..] == name + tail;
    TakeNameOf(name, tail);
  }

  // One attribute printed before a tail.
  function Printed(a: Attr, tail: string): string {
    match a.value
    case Flag(on) => if on then " " + (a.name + tail) else tail
    case Words(text) => " " + (a.name + ("=\"" + (EscapeHtml(text) + ("\"" + tail))))
  }

  lemma FlagJoins(name: string, tail: string, rest: string)
    ensures " " + name + tail + rest == " " + (name + (tail + rest))
  {
  }

  lemma WordsJoin(name: string, value: string, tail: string, rest: string)
    ensures (" " + name + "=\"" + value + "\"") + tail + rest ==
            " " + (name + ("=\"" + (value + ("\"" + (tail + rest)))))
  {
  }

  lemma PrintedFirst(attrs: seq<Attr>, tail: string, rest: string)
    requires attrs != [] && tail == RenderAttrs(attrs[1..])
    ensures RenderAttrs(attrs) + rest == Printed(attrs[0], tail + rest)
  {
    match attrs[0].value
    case Flag(on) =>
      FlagJoins(attrs[0].name, tail, rest);
      assert "" + tail == tail;
    case Words(text) => WordsJoin(attrs[0].name, EscapeHtml(text), tail, rest);
  }

  lemma ReadPrinted(a: Attr, tail: string, more: (seq<Attr>, string))
    requires IsName(a.name) && tail != "" && !IsNameChar(tail[0]) && tail[0] != '=' && ReadAttrs(tail) == Some(more)
    ensures ReadAttrs(Printed(a, tail)) == Some(((if a.value == Flag(false) then [] else [a]) + more.0, more.1))
  {
    match a.value
    case Flag(on) =>
      if on {
        ReadFlag(a.name, tail, more);
      } else {
        assert [] + more.0 == more.0;
      }
    case Words(text) => ReadWords(a.name, text, tail, more);
  }

  lemma {:induction false} ReadRenderedAttrs(attrs: seq<Attr>, rest: string)
    requires (forall i :: 0 <= i < |attrs| ==> IsName(attrs[i].name)) && rest != "" && rest[0] == '>'
    ensures ReadAttrs(RenderAttrs(attrs) + rest) == Some((Shown(attrs), rest))
    decreases |attrs|
  {
    if attrs == [] {
      assert RenderAttrs(attrs) + rest == rest;
    } else {
      ReadRenderedAttrs(attrs[1..], rest);
      AttrsStart(attrs[1..], rest);
      PrintedFirst(attrs, RenderAttrs(attrs[1..]), rest);
      ReadPrinted(attrs[0], RenderAttrs(attrs[1..]) + rest, (Shown(attrs[1..]), rest));
    }
  }

  lemma RenderStarts(e: El, rest: string)
    requires Named(e)
    ensures var s := Render(e) + rest; |s| > 1 && s[0] == '<' && IsNameChar(s[1]) && s[1] != '/'
  {
    var r := Render(e);
    assert "<" + e.tag <= "<" + e.tag + RenderAttrs(e.attrs) + ">";
    assert r[0] == '<' && r[1] == e.tag[0];
  }

  lemma ReadText(text: string, close: string)
    requires text != "" && close != "" && close[0] == '<'
    ensures ReadContent(EscapeHtml(text) + close) == Some((Some(text), [], close))
  {
    EscapeIsOnePass(text);
    EscapedIsInert(text);
    UnescapeInverts(text);
    var value := Escaped(text);
    assert value != "" by {
      assert EntityOf(text[0]) != "";
    }
    assert value[0] in value && (value + close)[0] == value[0];
    TakeToOf(value, '<', close);
  }

  lemma NodesRead(s: string, first: El, more: string, nodes: seq<El>, rest: string)
    requires !("</" <= s) && ReadNode(s) == Some((first, more)) && ReadNodes(more) == Some((nodes, rest))
    ensures ReadNodes(s) == Some(([first] + nodes, rest))
  {
  }

  lemma Joins(x: string, y: string, z: string)
    ensures x + y + z == x + (y + z)
  {
  }

  lemma {:induction false} ReadRenderedAll(children: seq<El>, rest: string)
    requires NamedAll(children) && "</" <= rest
    ensures ReadNodes(RenderAll(children) + rest) == Some((NormalAll(children), rest))
    decreases children, 1
  {
    if children == [] {
      assert RenderAll(children) + rest == rest;
    } else {
      var first, tail := Render(children[0]), RenderAll(children[1..]);
      ReadRendered(children[0], tail + rest);
      ReadRenderedAll(children[1..], rest);
      RenderStarts(children[0], tail + rest);
      NodesRead(first + (tail + rest), Normal(children[0]), tail + rest, NormalAll(children[1..]), rest);
      Joins(first, tail, rest);
    }
  }

  lemma RenderedAllStarts(children: seq<El>, rest: string)
    requires NamedAll(children) && "</" <= rest
    ensures var s := RenderAll(children) + rest; s != "" && s[0] == '<'
  {
    if children == [] {
      assert RenderAll(children) + rest == rest;
    } else {
      var more := RenderAll(children[1..]) + rest;
      RenderStarts(children[0], more);
      assert RenderAll(children) + rest == Render(children[0]) + more;
    }
  }

  lemma NodesAreContent(s: string, nodes: seq<El>, rest: string)
    requires s != "" && s[0] == '<' && ReadNodes(s) == Some((nodes, rest))
    ensures ReadContent(s) == Some((None, nodes, rest))
  {
  }

  function Inner(e: El): string {
    if e.text.Some? then EscapeHtml(e.text.value) else RenderAll(e.children)
  }

  // What comes between an element's tags is read back as its content.
  lemma ReadRenderedContent(e: El, rest: string)
    requires Named(e) && !IsVoid(e.tag) && "</" <= rest
    requires e.text.None? ==> ReadNodes(RenderAll(e.children) + rest) == Some((NormalAll(e.children), rest))
    ensures ReadContent(Inner(e) + rest) == Some((Normal(e).text, Normal(e).children, rest))
  {
    if e.text.None? {
      RenderedAllStarts(e.children, rest);
      NodesAreContent(RenderAll(e.children) + rest, NormalAll(e.children), rest);
    } else if e.text.value == "" {
      EscapeIsOnePass("");
      assert EscapeHtml("") + rest == rest;
      assert ReadNodes(rest) == Some(([], rest));
    } else {
      ReadText(e.text.value, rest);
    }
  }

  // An element, already taken apart.
  lemma NodeRead(s: string, tag: string, afterTag: string, attrs: seq<Attr>, ending: string)
    requires s != "" && s[0] == '<' && TakeName(s[1..]) == (tag, afterTag) && tag != ""
    requires ReadAttrs(afterTag) == Some((attrs, ">" + ending))
    ensures IsVoid(tag) ==> ReadNode(s) == Some((El(tag, attrs, None, []), ending))
    ensures !IsVoid(tag) ==> forall text, children, rest ::
              ReadContent(ending) == Some((text, children, "</" + tag + ">" + rest)) ==>
                ReadNode(s) == Some((El(tag, attrs, text, children), rest))
  {
    assert (">" + ending)[1..] == ending;
    var close := "</" + tag + ">";
    assert forall rest :: close <= close + rest && (close + rest)[|close|..] == rest;
  }

  lemma OpeningRead(e: El, s: string, ending: string)
    requires Named(e) && s == "<" + (e.tag + (RenderAttrs(e.attrs) + (">" + ending)))
    ensures IsVoid(e.tag) ==> ReadNode(s) == Some((El(e.tag, Shown(e.attrs), None, []), ending))
    ensures !IsVoid(e.tag) ==> forall text, children, rest ::
              ReadContent(ending) == Some((text, children, "</" + e.tag + ">" + rest)) ==>
                ReadNode(s) == Some((El(e.tag, Shown(e.attrs), text, children), rest))
  {
    var afterTag := RenderAttrs(e.attrs) + (">" + ending);
    assert s[1..] == e.tag + afterTag;
    AttrsStart(e.attrs, ">" + ending);
    TakeNameOf(e.tag, afterTag);
    ReadRenderedAttrs(e.attrs, ">" + ending);
    NodeRead(s, e.tag, afterTag, Shown(e.attrs), ending);
  }

  lemma RenderParts(e: El, rest: string)
    ensures Render(e) + rest ==
            "<" + (e.tag + (RenderAttrs(e.attrs) +
              (">" + if IsVoid(e.tag) then rest else Inner(e) + ("</" + e.tag + ">" + rest))))
  {
    var opening := "<" + e.tag + RenderAttrs(e.attrs) + ">";
    if IsVoid(e.tag) {
      assert Render(e) == opening;
    } else {
      assert Render(e) == opening + Inner(e) + "</" + e.tag + ">";
    }
  }

  lemma {:induction false} ReadRendered(e: El, rest: string)
    requires Named(e)
    ensures ReadNode(Render(e) + rest) == Some((Normal(e), rest))
    decreases e, 0
  {
    var close := "</" + e.tag + ">" + rest;
    RenderParts(e, rest);
    OpeningRead(e, Render(e) + rest, if IsVoid(e.tag) then rest else Inner(e) + close);
    if !IsVoid(e.tag) {
      if e.text.None? {
        ReadRenderedAll(e.children, close);
      }
      ReadRenderedContent(e, close);
    }
  }

  // Two trees print alike exactly when they say the same.
  lemma PrintsAlikeIff(x: El, y: El)
    requires Named(x) && Named(y)
    ensures Render(x) == Render(y) <==> Normal(x) == Normal(y)
  {
    ReadRendered(x, "");
    ReadRendered(y, "");
    assert Render(x) + "" == Render(x) && Render(y) + "" == Render(y);
    RenderOfNormal(x);
    RenderOfNormal(y);
  }

  lemma {:induction false} RenderOfShown(attrs: seq<Attr>)
    ensures RenderAttrs(Shown(attrs)) == RenderAttrs(attrs)
  {
    if attrs != [] {
      RenderOfShown(attrs[1..]);
      if attrs[0].value == Flag(false) {
        assert Shown(attrs) == Shown(attrs[1..]);
        assert RenderAttrs(attrs) == RenderAttrs(attrs[1..]);
      } else {
        assert Shown(attrs)[1..] == Shown(attrs[1..]);
      }
    }
  }

  lemma {:induction false} RenderOfNormal(e: El)
    ensures Render(Normal(e)) == Render(e)
    decreases e, 0
  {
    RenderOfShown(e.attrs);
    if !IsVoid(e.tag) {
      if e.text.None? {
        RenderOfNormalAll(e.children);
      } else if e.text.value == "" {
        EscapeIsOnePass("");
      }
    }
  }

  lemma {:induction false} RenderOfNormalAll(children: seq<El>)
    ensures RenderAll(NormalAll(children)) == RenderAll(children)
    decreases children, 1
  {
    if children != [] {
      RenderOfNormal(children[0]);
      RenderOfNormalAll(children[1..]);
      assert NormalAll(children)[1..] == NormalAll(children[1..]);
    }
  }
}
