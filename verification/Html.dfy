/**
 HTML text as highlight.js writes it: escaping, tags, and the documents it reads.
 */
module Html {
  import opened Wrappers

  /** An element's lower-case node name and its attributes. */
  datatype Tag = Tag(name: string, attributes: seq<Attribute>)

  datatype Attribute = Attribute(name: string, value: string)

  /** A piece of output. */
  datatype Token =
    | Chars(text: string)
    | Open(tag: Tag)
    | Close(tag: Tag)

  /** A document node; comments and the like are neither text nor elements. */
  datatype Node =
    | Text(text: string)
    | Element(tag: Tag, children: seq<Node>)
    | OtherNode

  predicate Contains(s: string, part: string) {
    part <= s || (s != "" && Contains(s[1..], part))
  }

  predicate OccursAt(s: string, part: string, i: nat) {
    i + |part| <= |s| && s[i..i + |part|] == part
  }

  /** The part is somewhere in the text. */
  lemma {:induction false} ContainsExactly(s: string, part: string)
    ensures Contains(s, part) <==> exists i: nat :: OccursAt(s, part, i)
  {
    OccursFirst(s, part);
    if !(part <= s) && s != "" {
      ContainsExactly(s[1..], part);
      if i: nat :| OccursAt(s[1..], part, i) {
        OccursLater(s, part, i);
      }
      if i: nat :| OccursAt(s, part, i) {
        OccursLater(s, part, i - 1);
      }
    }
  }

  lemma OccursFirst(s: string, part: string)
    ensures OccursAt(s, part, 0) <==> part <= s
  {
  }

  lemma OccursLater(s: string, part: string, i: nat)
    requires s != ""
    ensures OccursAt(s[1..], part, i) <==> OccursAt(s, part, i + 1)
  {
    if i + 1 + |part| <= |s| {
      assert s[1..][i..i + |part|] == s[i + 1..i + 1 + |part|];
    }
  }

  /** The void elements of HTML, which have no end tag. */
  const VOID_NAMES := [
    "area", "base", "br", "col", "embed", "hr", "img", "input", "link", "meta", "param", "source", "track", "wbr"]

  predicate IsVoid(tag: Tag) {
    tag.name in VOID_NAMES
  }

  /** The elements for which `nodeStream` reports no end. The test is for a substring of the name. */
  predicate LooksVoid(tag: Tag) {
    Contains(tag.name, "br") || Contains(tag.name, "hr") || Contains(tag.name, "img") || Contains(tag.name, "input")
  }

  // ---------- Escaping ----------

  function ReplaceAll(s: string, c: char, with: string): string {
    if s == "" then "" else (if s[0] == c then with else [s[0]]) + ReplaceAll(s[1..], c, with)
  }

  /** `escapeHTML`: five passes over the text. */
  function Escape(s: string): string {
    ReplaceAll(ReplaceAll(EscapeAngles(s), '"', "&quot;"), '\'', "&#x27;")
  }

  function EscapeAngles(s: string): string {
    ReplaceAll(ReplaceAll(ReplaceAll(s, '&', "&amp;"), '<', "&lt;"), '>', "&gt;")
  }

  /** The entity for a character, or the character itself. */
  function Entity(c: char): string {
    match c
    case '&' => "&amp;"
    case '<' => "&lt;"
    case '>' => "&gt;"
    case '"' => "&quot;"
    case '\'' => "&#x27;"
    case _ => [c]
  }

  function Entities(s: string): string {
    if s == "" then "" else Entity(s[0]) + Entities(s[1..])
  }

  lemma {:induction false} ReplaceAllConcat(s: string, t: string, c: char, with: string)
    ensures ReplaceAll(s + t, c, with) == ReplaceAll(s, c, with) + ReplaceAll(t, c, with)
  {
    if s == "" {
      assert s + t == t;
    } else {
      assert (s + t)[1..] == s[1..] + t;
      ReplaceAllConcat(s[1..], t, c, with);
    }
  }

  lemma {:induction false} ReplaceAllAbsent(s: string, c: char, with: string)
    requires c !in s
    ensures ReplaceAll(s, c, with) == s
  {
    if s != "" {
      ReplaceAllAbsent(s[1..], c, with);
    }
  }

  lemma ReplaceAllOne(c: char, with: string)
    ensures ReplaceAll([c], c, with) == with
  {
    assert ReplaceAll([c][1..], c, with) == "";
    assert with + "" == with;
  }

  // One pass over what the earlier passes made of a single character.
  lemma PassOne(c: char, s: string, special: char, with: string)
    requires if c == special then s == [c] else special !in s
    ensures ReplaceAll(s, special, with) == if c == special then with else s
  {
    if c == special {
      ReplaceAllOne(c, with);
    } else {
      ReplaceAllAbsent(s, special, with);
    }
  }

  lemma EscapeAnglesOne(c: char)
    ensures EscapeAngles([c]) == if c == '"' || c == '\'' then [c] else Entity(c)
  {
    var s1 := if c == '&' then "&amp;" else [c];
    PassOne(c, [c], '&', "&amp;");
    var s2 := if c == '<' then "&lt;" else s1;
    PassOne(c, s1, '<', "&lt;");
    PassOne(c, s2, '>', "&gt;");
  }

  lemma EscapeOne(c: char)
    ensures Escape([c]) == Entity(c)
  {
    var s3 := EscapeAngles([c]);
    EscapeAnglesOne(c);
    var s4 := if c == '"' then "&quot;" else s3;
    PassOne(c, s3, '"', "&quot;");
    PassOne(c, s4, '\'', "&#x27;");
  }

  lemma EscapeConcat(s: string, t: string)
    ensures Escape(s + t) == Escape(s) + Escape(t)
  {
    var s1, t1 := ReplaceAll(s, '&', "&amp;"), ReplaceAll(t, '&', "&amp;");
    var s2, t2 := ReplaceAll(s1, '<', "&lt;"), ReplaceAll(t1, '<', "&lt;");
    var s3, t3 := ReplaceAll(s2, '>', "&gt;"), ReplaceAll(t2, '>', "&gt;");
    var s4, t4 := ReplaceAll(s3, '"', "&quot;"), ReplaceAll(t3, '"', "&quot;");
    ReplaceAllConcat(s, t, '&', "&amp;");
    ReplaceAllConcat(s1, t1, '<', "&lt;");
    ReplaceAllConcat(s2, t2, '>', "&gt;");
    ReplaceAllConcat(s3, t3, '"', "&quot;");
    ReplaceAllConcat(s4, t4, '\'', "&#x27;");
  }

  /** The five passes never touch each other's entities. */
  lemma {:induction false} EscapeIsEntities(s: string)
    ensures Escape(s) == Entities(s)
  {
    if s != "" {
      assert s == [s[0]] + s[1..];
      EscapeConcat([s[0]], s[1..]);
      EscapeOne(s[0]);
      EscapeIsEntities(s[1..]);
    }
  }

  /** What a browser shows for a text with these entities. */
  function Decode(s: string): string {
    if s == "" then ""
    else if "&amp;" <= s then "&" + Decode(s[5..])
    else if "&lt;" <= s then "<" + Decode(s[4..])
    else if "&gt;" <= s then ">" + Decode(s[4..])
    else if "&quot;" <= s then "\"" + Decode(s[6..])
    else if "&#x27;" <= s then "'" + Decode(s[6..])
    else [s[0]] + Decode(s[1..])
  }

  lemma DecodeEntity(c: char, rest: string)
    ensures Decode(Entity(c) + rest) == [c] + Decode(rest)
  {
    var s := Entity(c) + rest;
    assert s[|Entity(c)|..] == rest;
    match c {
      case '&' =>
      case '<' => assert s[1] == 'l';
      case '>' => assert s[1] == 'g';
      case '"' => assert s[1] == 'q';
      case '\'' => assert s[1] == '#';
      case _ => assert s[0] == c;
    }
  }

  /** Escaping loses nothing. */
  lemma {:induction false} DecodeEscape(s: string)
    ensures Decode(Escape(s)) == s
  {
    EscapeIsEntities(s);
    if s != "" {
      DecodeEntity(s[0], Entities(s[1..]));
      EscapeIsEntities(s[1..]);
      DecodeEscape(s[1..]);
    }
  }

  // ---------- Rendering ----------

  function RenderAttributes(attributes: seq<Attribute>): string {
    if attributes == [] then ""
    else " " + attributes[0].name + "=\"" + Escape(attributes[0].value) + "\"" + RenderAttributes(attributes[1..])
  }

  function RenderToken(t: Token): string {
    match t
    case Chars(text) => Escape(text)
    case Open(tag) => "<" + ((tag.name + RenderAttributes(tag.attributes)) + ">")
    case Close(tag) => "<" + (("/" + tag.name) + ">")
  }

  function Render(tokens: seq<Token>): string {
    if tokens == [] then "" else RenderToken(tokens[0]) + Render(tokens[1..])
  }

  lemma {:induction false} RenderConcat(a: seq<Token>, b: seq<Token>)
    ensures Render(a + b) == Render(a) + Render(b)
  {
    if a == [] {
      assert a + b == b;
    } else {
      assert (a + b)[1..] == a[1..] + b;
      RenderConcat(a[1..], b);
    }
  }

  /** The text of the tokens. */
  function TextOfTokens(tokens: seq<Token>): string {
    if tokens == [] then "" else (if tokens[0].Chars? then tokens[0].text else "") + TextOfTokens(tokens[1..])
  }

  /** A rendered text without everything from each '<' to the next '>'. */
  function Strip(s: string, inTag: bool): string {
    if s == "" then ""
    else if inTag then Strip(s[1..], s[0] != '>')
    else if s[0] == '<' then Strip(s[1..], true)
    else [s[0]] + Strip(s[1..], false)
  }

  predicate NoAngles(s: string) {
    '<' !in s && '>' !in s
  }

  /** Names as HTML allows them: no angle brackets. */
  predicate PlainNames(tag: Tag) {
    NoAngles(tag.name) && forall a <- tag.attributes :: NoAngles(a.name)
  }

  predicate PlainToken(t: Token) {
    t.Chars? || PlainNames(t.tag)
  }

  predicate PlainTokens(tokens: seq<Token>) {
    tokens == [] || (PlainToken(tokens[0]) && PlainTokens(tokens[1..]))
  }

  lemma {:induction false} PlainTokensConcat(a: seq<Token>, b: seq<Token>)
    ensures PlainTokens(a + b) == (PlainTokens(a) && PlainTokens(b))
  {
    if a == [] {
      assert a + b == b;
    } else {
      assert (a + b)[1..] == a[1..] + b;
      PlainTokensConcat(a[1..], b);
    }
  }

  lemma PlainTokensSnoc(tokens: seq<Token>, t: Token)
    ensures PlainTokens(tokens + [t]) == (PlainTokens(tokens) && PlainToken(t))
  {
    PlainTokensConcat(tokens, [t]);
    assert [t][1..] == [];
  }

  lemma {:induction false} EntitiesHaveNoAngles(s: string)
    ensures NoAngles(Entities(s))
  {
    if s != "" {
      EntitiesHaveNoAngles(s[1..]);
    }
  }

  lemma {:induction false} AttributesHaveNoAngles(attributes: seq<Attribute>)
    requires forall a <- attributes :: NoAngles(a.name)
    ensures NoAngles(RenderAttributes(attributes))
  {
    if attributes != [] {
      assert attributes[0] in attributes;
      EscapeIsEntities(attributes[0].value);
      EntitiesHaveNoAngles(attributes[0].value);
      AttributesHaveNoAngles(attributes[1..]);
    }
  }

  lemma {:induction false} StripText(s: string, rest: string)
    requires NoAngles(s)
    ensures Strip(s + rest, false) == s + Strip(rest, false)
  {
    if s == "" {
      assert s + rest == rest;
    } else {
      assert (s + rest)[1..] == s[1..] + rest;
      StripText(s[1..], rest);
    }
  }

  lemma {:induction false} StripInsideTag(s: string, rest: string)
    requires NoAngles(s)
    ensures Strip(s + ">" + rest, true) == Strip(rest, false)
  {
    var all := s + ">" + rest;
    if s == "" {
      assert all[0] == '>' && all[1..] == rest;
    } else {
      assert all[1..] == s[1..] + ">" + rest;
      StripInsideTag(s[1..], rest);
    }
  }

  lemma StripTag(inside: string, rest: string)
    requires NoAngles(inside)
    ensures Strip(("<" + (inside + ">")) + rest, false) == Strip(rest, false)
  {
    var tag := inside + ">";
    assert (("<" + tag) + rest)[1..] == tag + rest;
    StripInsideTag(inside, rest);
  }

  lemma StripToken(t: Token, rest: string)
    requires t.Chars? || PlainNames(t.tag)
    ensures Strip(RenderToken(t) + rest, false) == (if t.Chars? then Escape(t.text) else "") + Strip(rest, false)
  {
    match t {
      case Chars(text) =>
        EscapeIsEntities(text);
        EntitiesHaveNoAngles(text);
        StripText(Escape(text), rest);
      case Open(tag) =>
        AttributesHaveNoAngles(tag.attributes);
        StripTag(tag.name + RenderAttributes(tag.attributes), rest);
      case Close(tag) => StripTag("/" + tag.name, rest);
    }
  }

  /** Removing the tags leaves the escaped text. */
  lemma {:induction false} StripRender(tokens: seq<Token>)
    requires PlainTokens(tokens)
    ensures Strip(Render(tokens), false) == Escape(TextOfTokens(tokens))
  {
    if tokens == [] {
      EscapeIsEntities("");
    } else {
      StripToken(tokens[0], Render(tokens[1..]));
      StripRender(tokens[1..]);
      EscapeConcat(if tokens[0].Chars? then tokens[0].text else "", TextOfTokens(tokens[1..]));
      EscapeIsEntities("");
    }
  }

  // ---------- Reading tags ----------

  predicate NameChar(c: char) {
    c !in " \"'<>/="
  }

  /** A name as HTML allows it. */
  predicate IsName(s: string) {
    s != "" && forall c <- s :: NameChar(c)
  }

  /** The name at the beginning of a text, and what comes after it. */
  function TakeName(s: string): (r: (string, string))
    ensures |r.1| <= |s|
  {
    if s != "" && NameChar(s[0]) then
      var (name, rest) := TakeName(s[1..]);
      ([s[0]] + name, rest)
    else ("", s)
  }

  /** The text before the next quote, and what comes from there on. */
  function TakeValue(s: string): (r: (string, string))
    ensures |r.1| <= |s|
  {
    if s != "" && s[0] != '"' then
      var (value, rest) := TakeValue(s[1..]);
      ([s[0]] + value, rest)
    else ("", s)
  }

  /** An attribute with a quoted value, and what comes after it. */
  function ReadAttribute(s: string): (r: Option<(Attribute, string)>)
    ensures r.Some? ==> |r.value.1| < |s|
  {
    if s == "" || s[0] != ' ' then None
    else
      var (name, t) := TakeName(s[1..]);
      if name == "" || !("=\"" <= t) then None
      else
        var (value, u) := TakeValue(t[2..]);
        if u == "" then None else Some((Attribute(name, Decode(value)), u[1..]))
  }

  /** A tag from behind its name, up to the bracket. */
  function ReadAttributes(s: string): Option<seq<Attribute>>
    decreases |s|
  {
    if s == ">" then Some([])
    else
      var first := ReadAttribute(s);
      if first.None? then None
      else
        var rest := ReadAttributes(first.value.1);
        if rest.None? then None else Some([first.value.0] + rest.value)
  }

  /** A whole start tag or end tag. */
  function ReadTag(s: string): Option<Token> {
    if "</" <= s then
      var (name, rest) := TakeName(s[2..]);
      if name != "" && rest == ">" then Some(Close(Tag(name, []))) else None
    else if "<" <= s then
      var (name, rest) := TakeName(s[1..]);
      var attributes := ReadAttributes(rest);
      if name != "" && attributes.Some? then Some(Open(Tag(name, attributes.value))) else None
    else None
  }

  lemma {:induction false} NameIsTaken(name: string, rest: string)
    requires (forall c <- name :: NameChar(c)) && rest != "" && !NameChar(rest[0])
    ensures TakeName(name + rest) == (name, rest)
  {
    if name == "" {
      assert name + rest == rest;
    } else {
      assert (name + rest)[1..] == name[1..] + rest && name == [name[0]] + name[1..];
      NameIsTaken(name[1..], rest);
    }
  }

  lemma {:induction false} ValueIsTaken(value: string, rest: string)
    requires '"' !in value && rest != "" && rest[0] == '"'
    ensures TakeValue(value + rest) == (value, rest)
  {
    if value == "" {
      assert value + rest == rest;
    } else {
      assert (value + rest)[1..] == value[1..] + rest && value == [value[0]] + value[1..];
      ValueIsTaken(value[1..], rest);
    }
  }

  lemma {:induction false} EntitiesHaveNoQuotes(s: string)
    ensures '"' !in Entities(s)
  {
    if s != "" {
      EntitiesHaveNoQuotes(s[1..]);
    }
  }

  lemma AttributeText(name: string, value: string, rest: string)
    ensures ((((" " + name) + "=\"") + value) + "\"") + rest == " " + (name + ("=\"" + (value + ("\"" + rest))))
  {
  }

  lemma QuotedReads(name: string, value: string, rest: string)
    requires IsName(name) && '"' !in value
    ensures ReadAttribute(" " + (name + ("=\"" + (value + ("\"" + rest))))) == Some((Attribute(name, Decode(value)), rest))
  {
    var u := "\"" + rest;
    var t := "=\"" + (value + u);
    NameIsTaken(name, t);
    ValueIsTaken(value, u);
    assert (" " + (name + t))[1..] == name + t && t[2..] == value + u && u[1..] == rest;
  }

  lemma OneAttributeReads(a: Attribute, rest: string)
    requires IsName(a.name)
    ensures ReadAttribute(((((" " + a.name) + "=\"") + Escape(a.value)) + "\"") + rest) == Some((a, rest))
  {
    var value := Escape(a.value);
    assert '"' !in value by {
      EscapeIsEntities(a.value);
      EntitiesHaveNoQuotes(a.value);
    }
    DecodeEscape(a.value);
    AttributeText(a.name, value, rest);
    QuotedReads(a.name, value, rest);
  }

  lemma MoreAttributes(first: string, rest: string)
    ensures (first + rest) + ">" == first + (rest + ">")
  {
  }

  lemma {:induction false} AttributesRead(attributes: seq<Attribute>)
    requires forall a <- attributes :: IsName(a.name)
    ensures ReadAttributes(RenderAttributes(attributes) + ">") == Some(attributes)
  {
    if attributes == [] {
      assert RenderAttributes(attributes) + ">" == ">";
    } else {
      var a := attributes[0];
      assert a in attributes;
      AttributesRead(attributes[1..]);
      OneAttributeReads(a, RenderAttributes(attributes[1..]) + ">");
      MoreAttributes(" " + a.name + "=\"" + Escape(a.value) + "\"", RenderAttributes(attributes[1..]));
      AttributesStart(attributes);
      assert attributes == [a] + attributes[1..];
    }
  }

  lemma AttributesStart(attributes: seq<Attribute>)
    ensures var s := RenderAttributes(attributes) + ">";
            s != "" && !NameChar(s[0]) && (attributes != [] ==> s != ">")
  {
  }

  lemma StartTagText(name: string, attributes: string)
    requires IsName(name)
    ensures var s := "<" + ((name + attributes) + ">");
            "<" <= s && !("</" <= s) && s[1..] == name + (attributes + ">")
  {
    var s := "<" + ((name + attributes) + ">");
    assert name[0] in name && s[1] == name[0];
  }

  lemma EndTagText(name: string)
    ensures var s := "<" + (("/" + name) + ">"); "</" <= s && s[2..] == name + ">"
  {
    var s := "<" + (("/" + name) + ">");
    assert s == "</" + (name + ">");
  }

  /** A rendered start tag is read as its name and its attributes, values and all. */
  lemma StartTagReads(tag: Tag)
    requires IsName(tag.name) && forall a <- tag.attributes :: IsName(a.name)
    ensures ReadTag(RenderToken(Open(tag))) == Some(Open(tag))
  {
    AttributesRead(tag.attributes);
    AttributesStart(tag.attributes);
    NameIsTaken(tag.name, RenderAttributes(tag.attributes) + ">");
    StartTagText(tag.name, RenderAttributes(tag.attributes));
  }

  /** A rendered end tag is read as its name. */
  lemma EndTagReads(tag: Tag)
    requires IsName(tag.name)
    ensures ReadTag(RenderToken(Close(tag))) == Some(Close(Tag(tag.name, [])))
  {
    NameIsTaken(tag.name, ">");
    EndTagText(tag.name);
  }
}
