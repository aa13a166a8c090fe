/**
 Candid names as `escapeCandidName` prints them, and as the core grammar of the Candid
 specification reads them: a name is an identifier that is no keyword, or a quoted text.
 */
module CandidNames {
  import opened Wrappers

  const CANDID_KEYWORDS := [
    "blob", "bool", "composite_query", "empty", "float32", "float64", "func", "import", "int", "int16",
    "int32", "int64", "int8", "nat", "nat16", "nat32", "nat64", "nat8", "null", "oneway",
    "opt", "principal", "query", "record", "reserved", "service", "text", "type", "variant", "vec"]

  predicate IsLetter(c: char) {
    'A' <= c <= 'Z' || 'a' <= c <= 'z' || c == '_'
  }

  predicate IsIdChar(c: char) {
    IsLetter(c) || '0' <= c <= '9'
  }

  lemma CapitalsAre(c: char)
    ensures 'A' <= c <= 'Z' <==> c in "ABCDEFGHIJKLMNOPQRSTUVWXYZ"
  {
    assert 'A' <= c <= 'M' <==> c in "ABCDEFGHIJKLM";
    assert 'N' <= c <= 'Z' <==> c in "NOPQRSTUVWXYZ";
    assert "ABCDEFGHIJKLMNOPQRSTUVWXYZ" == "ABCDEFGHIJKLM" + "NOPQRSTUVWXYZ";
  }

  lemma SmallLettersAre(c: char)
    ensures 'a' <= c <= 'z' <==> c in "abcdefghijklmnopqrstuvwxyz"
  {
    assert 'a' <= c <= 'm' <==> c in "abcdefghijklm";
    assert 'n' <= c <= 'z' <==> c in "nopqrstuvwxyz";
    assert "abcdefghijklmnopqrstuvwxyz" == "abcdefghijklm" + "nopqrstuvwxyz";
  }

  /** The letters and digits of the grammar, one by one. */
  lemma IdCharsAre(c: char)
    ensures IsLetter(c) <==> c in "ABCDEFGHIJKLMNOPQRSTUVWXYZ" || c in "abcdefghijklmnopqrstuvwxyz" || c == '_'
    ensures IsIdChar(c) <==> IsLetter(c) || c in "0123456789"
  {
    CapitalsAre(c);
    SmallLettersAre(c);
  }

  predicate AllIdChars(s: string) {
    s == "" || (IsIdChar(s[0]) && AllIdChars(s[1..]))
  }

  predicate IsId(s: string) {
    s != "" && IsLetter(s[0]) && AllIdChars(s)
  }

  // ---------- Printing ----------

  predicate MustEscape(c: char) {
    c == '"' || c == '\\'
  }

  // `key.replace(/[\\"]/g, match => '\\' + match)`
  function EscapeChars(s: string): string {
    if s == "" then "" else (if MustEscape(s[0]) then ['\\', s[0]] else [s[0]]) + EscapeChars(s[1..])
  }

  predicate ContainsBackslashOrQuote(s: string) {
    s != "" && (MustEscape(s[0]) || ContainsBackslashOrQuote(s[1..]))
  }

  function EscapeText(key: string): string {
    if ContainsBackslashOrQuote(key) then "\"" + (EscapeChars(key) + "\"") else "\"" + (key + "\"")
  }

  function EscapeId(keywords: seq<string>, key: string): string {
    if key in keywords then "\"" + (key + "\"") else key
  }

  /** `escapeCandidName`, for a list of keywords. */
  function EscapeName(keywords: seq<string>, key: string): string {
    if IsId(key) then EscapeId(keywords, key) else EscapeText(key)
  }

  // ---------- Reading ----------

  function Hex(c: char): Option<nat> {
    if '0' <= c <= '9' then Some(c as nat - '0' as nat)
    else if 'a' <= c <= 'f' then Some(c as nat - 'a' as nat + 10)
    else if 'A' <= c <= 'F' then Some(c as nat - 'A' as nat + 10)
    else None
  }

  /** The digits, one by one. */
  lemma HexExactly(c: char, d: nat)
    ensures Hex(c) == Some(d) <==> d < 16 && (c == "0123456789abcdef"[d] || c == "0123456789ABCDEF"[d])
  {
    if d < 10 {
      assert "0123456789abcdef"[d] as int == '0' as int + d && "0123456789ABCDEF"[d] as int == '0' as int + d;
    } else if d < 16 {
      assert "0123456789abcdef"[d] as int == 'a' as int + d - 10 && "0123456789ABCDEF"[d] as int == 'A' as int + d - 10;
    }
  }

  /** The hexadecimal number in the braces of `\u{...}`, after its first digits, worth `acc`, and how many
      characters are left of it with the closing brace. Single underscores may separate digits. */
  function ReadUnicode(s: string, acc: nat): Option<(nat, nat)>
    decreases |s|
  {
    if s == "" then None
    else if s[0] == '}' then Some((acc, 1))
    else
      var skip := if s[0] == '_' then 1 else 0;
      if |s| <= skip || Hex(s[skip]).None? then None
      else
        var rest := ReadUnicode(s[skip + 1..], 16 * acc + Hex(s[skip]).value);
        if rest.None? then None else Some((rest.value.0, rest.value.1 + skip + 1))
  }

  /** What an escape sequence stands for, and how many characters follow its backslash. */
  function ReadEscape(s: string): Option<(char, nat)> {
    if s == "" then None
    else
      match s[0]
      case 'n' => Some(('\n', 1))
      case 'r' => Some(('\r', 1))
      case 't' => Some(('\t', 1))
      case '\\' => Some(('\\', 1))
      case '"' => Some(('"', 1))
      case '\'' => Some(('\'', 1))
      case 'u' =>
        if |s| >= 3 && s[1] == '{' && Hex(s[2]).Some? then
          var n := ReadUnicode(s[3..], Hex(s[2]).value);
          if n.Some? && (n.value.0 < 0xD800 || 0xE000 <= n.value.0 < 0x11_0000) then Some((n.value.0 as char, n.value.1 + 3))
          else None
        else None
      case _ =>
        if |s| >= 2 && Hex(s[0]).Some? && Hex(s[1]).Some? then
          Some(((16 * Hex(s[0]).value + Hex(s[1]).value) as char, 2))
        else None
  }

  /** The rest of a text after its opening quote; `raw` are the characters allowed as they are. */
  function ReadText(s: string, raw: char -> bool): (r: Option<(string, string)>)
    ensures r.Some? ==> |r.value.1| < |s|
    decreases |s|
  {
    if s == "" then None
    else if s[0] == '"' then Some(("", s[1..]))
    else if s[0] == '\\' then
      var e := ReadEscape(s[1..]);
      if e.None? || 1 + e.value.1 > |s| then None
      else
        var rest := ReadText(s[1 + e.value.1..], raw);
        if rest.None? then None else Some(([e.value.0] + rest.value.0, rest.value.1))
    else if !raw(s[0]) then None
    else
      var rest := ReadText(s[1..], raw);
      if rest.None? then None else Some(([s[0]] + rest.value.0, rest.value.1))
  }

  /** The leading identifier characters. */
  function IdRun(s: string): string {
    if s != "" && IsIdChar(s[0]) then [s[0]] + IdRun(s[1..]) else ""
  }

  lemma {:induction false} IdRunIsPrefix(s: string)
    ensures IdRun(s) <= s
  {
    if s != "" && IsIdChar(s[0]) {
      IdRunIsPrefix(s[1..]);
    }
  }

  /** A name at the beginning of `s`, and what comes after it. A bare keyword is no name. */
  function ReadName(keywords: seq<string>, s: string, raw: char -> bool): (r: Option<(string, string)>)
    ensures r.Some? ==> |r.value.1| <= |s|
  {
    if s == "" then None
    else if s[0] == '"' then ReadText(s[1..], raw)
    else if IsLetter(s[0]) && IdRun(s) !in keywords then
      IdRunIsPrefix(s);
      Some((IdRun(s), s[|IdRun(s)|..]))
    else None
  }

  // ---------- Round trip ----------

  /** What may come after a name: not more of an identifier. */
  predicate EndsId(rest: string) {
    rest == "" || !IsIdChar(rest[0])
  }

  predicate AllRaw(s: string, raw: char -> bool) {
    s == "" || ((MustEscape(s[0]) || raw(s[0])) && AllRaw(s[1..], raw))
  }

  lemma {:induction false} EscapeNothing(s: string)
    requires !ContainsBackslashOrQuote(s)
    ensures EscapeChars(s) == s
  {
    if s != "" {
      EscapeNothing(s[1..]);
    }
  }

  /** A text reads as what was printed exactly when its other characters are allowed as they are. */
  lemma {:induction false} ReadEscaped(s: string, rest: string, raw: char -> bool)
    ensures ReadText(EscapeChars(s) + ("\"" + rest), raw) == if AllRaw(s, raw) then Some((s, rest)) else None
  {
    var all := EscapeChars(s) + ("\"" + rest);
    if s == "" {
      assert all == "\"" + rest && all[1..] == rest;
    } else {
      var later := EscapeChars(s[1..]) + ("\"" + rest);
      ReadEscaped(s[1..], rest, raw);
      assert [s[0]] + s[1..] == s;
      if MustEscape(s[0]) {
        assert all[1..] == [s[0]] + later && all[2..] == later;
      } else {
        assert all[1..] == later;
      }
    }
  }

  lemma EscapeTextIsEscaped(key: string)
    ensures EscapeText(key) == "\"" + (EscapeChars(key) + "\"")
  {
    if !ContainsBackslashOrQuote(key) {
      EscapeNothing(key);
    }
  }

  lemma {:induction false} IdsNeedNoEscape(s: string)
    requires AllIdChars(s)
    ensures !ContainsBackslashOrQuote(s)
  {
    if s != "" {
      IdsNeedNoEscape(s[1..]);
    }
  }

  lemma {:induction false} IdRunOfId(s: string, rest: string)
    requires AllIdChars(s) && EndsId(rest)
    ensures IdRun(s + rest) == s
  {
    if s == "" {
      assert s + rest == rest;
    } else {
      assert (s + rest)[1..] == s[1..] + rest;
      IdRunOfId(s[1..], rest);
    }
  }

  lemma QuotedReads(key: string, rest: string, raw: char -> bool)
    ensures var s := ("\"" + (EscapeChars(key) + "\"")) + rest;
            s[0] == '"' && ReadText(s[1..], raw) == if AllRaw(key, raw) then Some((key, rest)) else None
  {
    var s := ("\"" + (EscapeChars(key) + "\"")) + rest;
    assert s[1..] == EscapeChars(key) + ("\"" + rest);
    ReadEscaped(key, rest, raw);
  }

  /** Names that are printed bare, or whose characters other than quotes and backslashes are allowed in a
      text. */
  predicate Readable(keywords: seq<string>, key: string, raw: char -> bool) {
    (IsId(key) && key !in keywords) || AllRaw(key, raw)
  }

  /** A printed name reads as the name if it is readable, and not at all otherwise. */
  lemma NameReads(keywords: seq<string>, key: string, rest: string, raw: char -> bool)
    requires EndsId(rest)
    ensures ReadName(keywords, EscapeName(keywords, key) + rest, raw) ==
            if Readable(keywords, key, raw) then Some((key, rest)) else None
  {
    if IsId(key) && key !in keywords {
      IdRunOfId(key, rest);
      assert (key + rest)[|key|..] == rest;
    } else {
      if IsId(key) {
        IdsNeedNoEscape(key);
        EscapeNothing(key);
      } else {
        EscapeTextIsEscaped(key);
      }
      QuotedReads(key, rest, raw);
    }
  }

  /** The characters of a text according to the specification: no control characters. */
  predicate CandidRaw(c: char) {
    ' ' <= c && c != 127 as char
  }

  predicate NoControls(s: string) {
    forall i :: 0 <= i < |s| ==> 0x20 <= s[i] as int && s[i] as int != 0x7f
  }

  lemma {:induction false} AllRawIsNoControls(s: string)
    ensures AllRaw(s, CandidRaw) <==> NoControls(s)
  {
    if s != "" {
      AllRawIsNoControls(s[1..]);
      assert NoControls(s) <==> CandidRaw(s[0]) && NoControls(s[1..]) by {
        assert forall i :: 1 <= i < |s| ==> s[i] == s[1..][i - 1];
      }
    }
  }

  lemma {:induction false} IdCharsAreNoControls(s: string)
    requires AllIdChars(s)
    ensures NoControls(s)
  {
    if s != "" {
      IdCharsAreNoControls(s[1..]);
      assert forall i :: 1 <= i < |s| ==> s[i] == s[1..][i - 1];
    }
  }

  /** A reader that follows the specification recovers a name exactly when it has no control characters. */
  lemma CandidNameReads(key: string, rest: string)
    requires EndsId(rest)
    ensures ReadName(CANDID_KEYWORDS, EscapeName(CANDID_KEYWORDS, key) + rest, CandidRaw) ==
            if NoControls(key) then Some((key, rest)) else None
  {
    NameReads(CANDID_KEYWORDS, key, rest, CandidRaw);
    ReadableIsNoControls(key);
  }

  lemma ReadableIsNoControls(key: string)
    ensures Readable(CANDID_KEYWORDS, key, CandidRaw) <==> NoControls(key)
  {
    AllRawIsNoControls(key);
    if IsId(key) {
      IdCharsAreNoControls(key);
    }
  }

  predicate AnyChar(c: char) {
    true
  }

  lemma {:induction false} AllRawAlways(s: string)
    ensures AllRaw(s, AnyChar)
  {
    if s != "" {
      AllRawAlways(s[1..]);
    }
  }

  /** Two names that print alike, each before something that ends it, are the same name. */
  lemma NamesUnique(keywords: seq<string>, k: string, l: string, rk: string, rl: string)
    requires EndsId(rk) && EndsId(rl) && EscapeName(keywords, k) + rk == EscapeName(keywords, l) + rl
    ensures k == l && rk == rl
  {
    AllRawAlways(k);
    AllRawAlways(l);
    NameReads(keywords, k, rk, AnyChar);
    NameReads(keywords, l, rl, AnyChar);
  }
}
