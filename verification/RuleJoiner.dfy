/**
 The rule combiner of highlight.js: the patterns of several rules are joined into one, and the group
 that captured first tells which rule matched.
 */
module RuleJoiner {
  import opened RegexPatterns
  import opened RuleTexts

  // ---------- The tokens of patterns ----------

  /** The text of a pattern, in tokens. */
  function Tokens(p: Pattern): seq<Token> {
    match p
    case Empty => []
    case Atom(token) => [token]
    case Backreference(n) => [Reference(n)]
    case Capture(body) => [Open] + Tokens(body) + [Plain(')')]
    case Special(kind, body) => [OpenSpecial, Plain(Sign(kind))] + Tokens(body) + [Plain(')')]
    case Both(first, second) => Tokens(first) + Tokens(second)
    case Either(first, second) => Tokens(first) + [Plain('|')] + Tokens(second)
    case Repeat(body, _, _, _, quantifier) => Tokens(body) + Plains(quantifier)
  }

  function Sign(kind: Kind): char {
    match kind
    case Uncaptured => ':'
    case Ahead => '='
    case NotAhead => '!'
  }

  function Plains(text: string): seq<Token> {
    if text == "" then [] else [Plain(text[0])] + Plains(text[1..])
  }

  /** Single tokens other than groups and backreferences. */
  predicate Spelled(p: Pattern) {
    match p
    case Atom(token) => token.Plain? || token.Escape? || token.Class?
    case Capture(body) => Spelled(body)
    case Special(_, body) => Spelled(body)
    case Both(first, second) => Spelled(first) && Spelled(second)
    case Either(first, second) => Spelled(first) && Spelled(second)
    case Repeat(body, _, _, _, _) => Spelled(body)
    case _ => true
  }

  function Moved1(token: Token, s: nat): Token {
    if token.Reference? then Reference(token.n + s) else token
  }

  function ShiftTokens(tokens: seq<Token>, s: nat): seq<Token> {
    if tokens == [] then [] else [Moved1(tokens[0], s)] + ShiftTokens(tokens[1..], s)
  }

  function Opens(tokens: seq<Token>): nat {
    if tokens == [] then 0 else (if tokens[0].Open? then 1 else 0) + Opens(tokens[1..])
  }

  lemma ShiftTokensCons(token: Token, rest: seq<Token>, s: nat)
    ensures ShiftTokens([token] + rest, s) == [Moved1(token, s)] + ShiftTokens(rest, s)
    ensures Opens([token] + rest) == (if token.Open? then 1 else 0) + Opens(rest)
  {
    assert ([token] + rest)[1..] == rest;
  }

  lemma {:induction false} OpensAppend(a: seq<Token>, b: seq<Token>)
    ensures Opens(a + b) == Opens(a) + Opens(b)
  {
    if a == [] {
      assert a + b == b;
    } else {
      OpensAppend(a[1..], b);
      assert (a + b)[1..] == a[1..] + b;
    }
  }

  lemma {:induction false} ShiftTokensAppend(a: seq<Token>, b: seq<Token>, s: nat)
    ensures ShiftTokens(a + b, s) == ShiftTokens(a, s) + ShiftTokens(b, s)
    ensures Opens(a + b) == Opens(a) + Opens(b)
  {
    OpensAppend(a, b);
    if a == [] {
      assert a + b == b;
    } else {
      var token, rest := a[0], a[1..];
      ShiftTokensAppend(rest, b, s);
      ShiftTokensCons(token, rest + b, s);
      assert a == [token] + rest;
      Associates([token], rest, b);
      Associates([Moved1(token, s)], ShiftTokens(rest, s), ShiftTokens(b, s));
    }
  }

  lemma {:induction false} PlainsStay(text: string, s: nat)
    ensures ShiftTokens(Plains(text), s) == Plains(text) && Opens(Plains(text)) == 0
  {
    if text != "" {
      PlainsStay(text[1..], s);
      assert Plains(text)[1..] == Plains(text[1..]);
    }
  }

  lemma OneToken(token: Token, s: nat)
    ensures ShiftTokens([token], s) == [Moved1(token, s)] && Opens([token]) == if token.Open? then 1 else 0
  {
    assert [token][1..] == [];
  }

  lemma Bracketed(open: seq<Token>, body: seq<Token>, s: nat)
    requires ShiftTokens(open, s) == open
    ensures ShiftTokens(open + body + [Plain(')')], s) == open + ShiftTokens(body, s) + [Plain(')')]
    ensures Opens(open + body + [Plain(')')]) == Opens(open) + Opens(body)
  {
    OneToken(Plain(')'), s);
    ShiftTokensAppend(open, body, s);
    ShiftTokensAppend(open + body, [Plain(')')], s);
  }

  lemma SpecialOpens(sign: char, s: nat)
    ensures ShiftTokens([OpenSpecial, Plain(sign)], s) == [OpenSpecial, Plain(sign)]
    ensures Opens([OpenSpecial, Plain(sign)]) == 0
  {
    assert [OpenSpecial, Plain(sign)] == [OpenSpecial] + [Plain(sign)];
    OneToken(OpenSpecial, s);
    OneToken(Plain(sign), s);
    ShiftTokensAppend([OpenSpecial], [Plain(sign)], s);
  }

  lemma Alternatives(a: seq<Token>, b: seq<Token>, s: nat)
    ensures ShiftTokens(a + [Plain('|')] + b, s) == ShiftTokens(a, s) + [Plain('|')] + ShiftTokens(b, s)
    ensures Opens(a + [Plain('|')] + b) == Opens(a) + Opens(b)
  {
    OneToken(Plain('|'), s);
    ShiftTokensAppend(a, [Plain('|')], s);
    ShiftTokensAppend(a + [Plain('|')], b, s);
  }

  lemma Quantified(a: seq<Token>, quantifier: string, s: nat)
    ensures ShiftTokens(a + Plains(quantifier), s) == ShiftTokens(a, s) + Plains(quantifier)
    ensures Opens(a + Plains(quantifier)) == Opens(a)
  {
    PlainsStay(quantifier, s);
    ShiftTokensAppend(a, Plains(quantifier), s);
  }

  lemma GroupOpens(s: nat)
    ensures ShiftTokens([Open], s) == [Open] && Opens([Open]) == 1
  {
    OneToken(Open, s);
  }

  /** Rewriting the tokens renumbers the pattern, and counting opening tokens counts its groups. */
  lemma {:induction false} TokensShift(p: Pattern, s: nat)
    requires Spelled(p)
    ensures ShiftTokens(Tokens(p), s) == Tokens(Shift(p, s)) && Opens(Tokens(p)) == Groups(p)
  {
    match p {
      case Empty =>
      case Atom(token) => OneToken(token, s);
      case Backreference(n) => OneToken(Reference(n), s);
      case Capture(body) =>
        TokensShift(body, s);
        GroupOpens(s);
        Bracketed([Open], Tokens(body), s);
      case Special(kind, body) =>
        TokensShift(body, s);
        SpecialOpens(Sign(kind), s);
        Bracketed([OpenSpecial, Plain(Sign(kind))], Tokens(body), s);
      case Both(first, second) =>
        TokensShift(first, s);
        TokensShift(second, s);
        ShiftTokensAppend(Tokens(first), Tokens(second), s);
      case Either(first, second) =>
        TokensShift(first, s);
        TokensShift(second, s);
        Alternatives(Tokens(first), Tokens(second), s);
      case Repeat(body, _, _, _, quantifier) =>
        TokensShift(body, s);
        Quantified(Tokens(body), quantifier, s);
    }
  }

  lemma JoinedTokens(ps: seq<Pattern>, g: nat)
    requires ps != []
    ensures var head := [Open] + Tokens(Shift(ps[0], g + 1)) + [Plain(')')];
            Tokens(Joined(ps, g)) ==
            if |ps| == 1 then head else head + [Plain('|')] + Tokens(Joined(ps[1..], g + 1 + Groups(ps[0])))
  {
    var body := Shift(ps[0], g + 1);
    assert Tokens(Capture(body)) == [Open] + Tokens(body) + [Plain(')')];
  }

  // ---------- The texts of patterns ----------

  /** The text is that of the pattern: it is cut into the pattern's tokens, with nothing left open and
      no quantifier in front. */
  predicate Reads(text: string, p: Pattern) {
    && Spelled(p) && Cut(text) == Tokens(p) && Closed(Cut(text))
    && (text != "" ==> text[0] != '?')
  }

  /** Tokens that may stand between parentheses. */
  predicate Inside(tokens: seq<Token>) {
    Lexical(tokens) && (tokens != [] ==> tokens[0] != Plain('?'))
  }

  lemma ReadsInside(text: string, p: Pattern)
    requires Reads(text, p)
    ensures Inside(Tokens(p))
  {
    CutIsLexical(text);
    if text != "" {
      CutBegins(text);
    }
  }

  lemma {:induction false} ShiftInside(tokens: seq<Token>, s: nat)
    requires Lexical(tokens)
    ensures Lexical(ShiftTokens(tokens, s)) && (Inside(tokens) ==> Inside(ShiftTokens(tokens, s)))
  {
    if tokens != [] {
      ShiftInside(tokens[1..], s);
      assert ShiftTokens(tokens, s)[1..] == ShiftTokens(tokens[1..], s);
    }
  }

  /** A token that goes on with none before it. */
  predicate Separates(token: Token) {
    token.Plain? && token.c in ")|"
  }

  lemma {:induction false} LexicalAppend(a: seq<Token>, b: seq<Token>)
    requires Lexical(a) && Lexical(b) && (b != [] ==> Separates(b[0]))
    ensures Lexical(a + b)
  {
    if a == [] {
      assert a + b == b;
    } else {
      LexicalAppend(a[1..], b);
      assert (a + b)[1..] == a[1..] + b;
    }
  }

  lemma LexicalCons(token: Token, tokens: seq<Token>)
    requires Cuttable(token) && Lexical(tokens) && (tokens != [] ==> Apart(token, tokens[0]))
    ensures Lexical([token] + tokens)
  {
    assert ([token] + tokens)[1..] == tokens;
  }

  /** Tokens that may stand after a group. */
  predicate Behind(tokens: seq<Token>) {
    Lexical(tokens) && (tokens != [] ==> Separates(tokens[0]))
  }

  lemma Nest<T>(a: seq<T>, b: seq<T>, c: seq<T>, d: seq<T>)
    ensures a + (b + (c + d)) == ((a + b) + c) + d
  {
  }

  // A rule's own parentheses, and what follows.
  lemma LexicalGroup(inside: seq<Token>, rest: seq<Token>)
    requires Inside(inside) && Behind(rest)
    ensures Lexical([Open] + inside + [Plain(')')] + rest)
  {
    var closed := [Plain(')')] + rest;
    LexicalCons(Plain(')'), rest);
    LexicalAppend(inside, closed);
    if inside != [] {
      TailOfSum(inside, closed);
    }
    LexicalCons(Open, inside + closed);
    Nest([Open], inside, [Plain(')')], rest);
  }

  lemma LastGroup(inside: seq<Token>)
    requires Inside(inside)
    ensures Lexical([Open] + inside + [Plain(')')])
  {
    LexicalGroup(inside, []);
    assert [Open] + inside + [Plain(')')] + [] == [Open] + inside + [Plain(')')];
  }

  lemma GroupAndMore(inside: seq<Token>, rest: seq<Token>)
    requires Inside(inside) && Lexical(rest)
    ensures Lexical([Open] + inside + [Plain(')')] + [Plain('|')] + rest)
  {
    LexicalCons(Plain('|'), rest);
    LexicalGroup(inside, [Plain('|')] + rest);
    Associates([Open] + inside + [Plain(')')], [Plain('|')], rest);
  }

  predicate AllInside(ps: seq<Pattern>) {
    forall i :: 0 <= i < |ps| ==> Spelled(ps[i]) && Inside(Tokens(ps[i]))
  }

  lemma ShiftedInside(p: Pattern, s: nat)
    requires Spelled(p) && Inside(Tokens(p))
    ensures Inside(Tokens(Shift(p, s)))
  {
    TokensShift(p, s);
    ShiftInside(Tokens(p), s);
  }

  lemma {:induction false} JoinedLexical(ps: seq<Pattern>, g: nat)
    requires ps != [] && AllInside(ps)
    ensures Lexical(Tokens(Joined(ps, g)))
    decreases |ps|
  {
    var inside := Tokens(Shift(ps[0], g + 1));
    ShiftedInside(ps[0], g + 1);
    JoinedTokens(ps, g);
    if |ps| == 1 {
      LastGroup(inside);
    } else {
      JoinedLexical(ps[1..], g + 1 + Groups(ps[0]));
      GroupAndMore(inside, Tokens(Joined(ps[1..], g + 1 + Groups(ps[0]))));
    }
  }

  lemma {:induction false} JoinedStart(ps: seq<Pattern>, g: nat)
    requires ps != []
    ensures Tokens(Joined(ps, g)) != [] && Tokens(Joined(ps, g))[0] == Open
  {
    JoinedTokens(ps, g);
  }

  lemma {:induction false} JoinedSpelled(ps: seq<Pattern>, g: nat)
    requires ps != [] && forall i :: 0 <= i < |ps| ==> Spelled(ps[i])
    ensures Spelled(Joined(ps, g))
    decreases |ps|
  {
    ShiftSpelled(ps[0], g + 1);
    if |ps| > 1 {
      JoinedSpelled(ps[1..], g + 1 + Groups(ps[0]));
    }
  }

  lemma {:induction false} ShiftSpelled(p: Pattern, s: nat)
    requires Spelled(p)
    ensures Spelled(Shift(p, s))
  {
    match p {
      case Capture(body) => ShiftSpelled(body, s);
      case Special(_, body) => ShiftSpelled(body, s);
      case Both(first, second) =>
        ShiftSpelled(first, s);
        ShiftSpelled(second, s);
      case Either(first, second) =>
        ShiftSpelled(first, s);
        ShiftSpelled(second, s);
      case Repeat(body, _, _, _, _) => ShiftSpelled(body, s);
      case _ =>
    }
  }

  lemma {:induction false} LexicalIsClosed(tokens: seq<Token>)
    requires Lexical(tokens)
    ensures Closed(tokens)
  {
    if tokens != [] {
      LexicalIsClosed(tokens[1..]);
    }
  }

  predicate AllRead(texts: seq<string>, ps: seq<Pattern>) {
    |texts| == |ps| && forall i :: 0 <= i < |ps| ==> Reads(texts[i], ps[i])
  }

  /** The text of the joined pattern is read as that pattern. */
  lemma JoinedReads(texts: seq<string>, ps: seq<Pattern>)
    requires ps != [] && AllRead(texts, ps)
    ensures Reads(Write(Tokens(Joined(ps, 0))), Joined(ps, 0))
  {
    forall i | 0 <= i < |ps| ensures Spelled(ps[i]) && Inside(Tokens(ps[i])) {
      ReadsInside(texts[i], ps[i]);
    }
    JoinedLexical(ps, 0);
    JoinedSpelled(ps, 0);
    JoinedStart(ps, 0);
    CutWrite(Tokens(Joined(ps, 0)));
    LexicalIsClosed(Tokens(Joined(ps, 0)));
  }

  // ---------- The join of texts ----------

  /** A rule's text with its references moved past `g` groups, and the end of its group. */
  function Tail(text: string, g: nat): string {
    Write(ShiftTokens(Cut(text), g)) + ")"
  }

  /** The joined text before a further rule. */
  function Separated(a: string, first: bool): string {
    if first then a else a + "|"
  }

  /** The joined text with one more rule. */
  function NextText(a: string, text: string, g: nat, first: bool): string {
    (Separated(a, first) + "(") + Tail(text, g + 1)
  }

  /** The joined text after the text `a` of the rules before, if any. */
  function Continued(a: string, ps: seq<Pattern>, g: nat, first: bool): string {
    if ps == [] then a else Separated(a, first) + Write(Tokens(Joined(ps, g)))
  }

  lemma GroupText(p: Pattern, g: nat)
    requires Spelled(p)
    ensures Write([Open] + Tokens(Shift(p, g + 1)) + [Plain(')')]) == "(" + (Write(ShiftTokens(Tokens(p), g + 1)) + ")")
  {
    TokensShift(p, g + 1);
    var inside := Tokens(Shift(p, g + 1));
    WriteAppend([Open] + inside, [Plain(')')]);
    WriteAppend([Open], inside);
    WriteOne(Open);
    WriteOne(Plain(')'));
    Associates("(", Write(inside), ")");
  }

  lemma WriteOne(token: Token)
    ensures Write([token]) == TokenText(token)
  {
    assert [token][1..] == [];
    assert TokenText(token) + "" == TokenText(token);
  }

  // The text of a joined pattern, rule by rule.
  lemma LastText(text: string, ps: seq<Pattern>, g: nat)
    requires |ps| == 1 && Reads(text, ps[0])
    ensures Write(Tokens(Joined(ps, g))) == "(" + Tail(text, g + 1)
  {
    JoinedTokens(ps, g);
    GroupText(ps[0], g);
  }

  lemma MoreText(text: string, ps: seq<Pattern>, g: nat)
    requires |ps| > 1 && Reads(text, ps[0])
    ensures Write(Tokens(Joined(ps, g))) ==
            ("(" + Tail(text, g + 1)) + "|" + Write(Tokens(Joined(ps[1..], g + 1 + Groups(ps[0]))))
  {
    JoinedTokens(ps, g);
    GroupText(ps[0], g);
    AlternativeText([Open] + Tokens(Shift(ps[0], g + 1)) + [Plain(')')], Tokens(Joined(ps[1..], g + 1 + Groups(ps[0]))));
  }

  lemma AlternativeText(head: seq<Token>, rest: seq<Token>)
    ensures Write(head + [Plain('|')] + rest) == Write(head) + "|" + Write(rest)
  {
    WriteAppend(head + [Plain('|')], rest);
    WriteAppend(head, [Plain('|')]);
    WriteOne(Plain('|'));
  }

  lemma ContinuedLast(a: string, text: string, ps: seq<Pattern>, g: nat, first: bool)
    requires |ps| == 1 && Reads(text, ps[0])
    ensures Continued(a, ps, g, first) == NextText(a, text, g, first)
  {
    LastText(text, ps, g);
    Associates(Separated(a, first), "(", Tail(text, g + 1));
  }

  lemma ContinuedMore(a: string, text: string, ps: seq<Pattern>, g: nat, first: bool)
    requires |ps| > 1 && Reads(text, ps[0])
    ensures Continued(a, ps, g, first) ==
            Continued(NextText(a, text, g, first), ps[1..], g + 1 + Groups(ps[0]), false)
  {
    MoreText(text, ps, g);
    var rest := Write(Tokens(Joined(ps[1..], g + 1 + Groups(ps[0]))));
    Regroup(Separated(a, first), "(", Tail(text, g + 1), "|", rest);
    assert Continued(NextText(a, text, g, first), ps[1..], g + 1 + Groups(ps[0]), false) == (NextText(a, text, g, first) + "|") + rest;
  }

  lemma Regroup<T>(a: seq<T>, open: seq<T>, tail: seq<T>, separator: seq<T>, rest: seq<T>)
    ensures a + ((open + tail) + separator + rest) == (((a + open) + tail) + separator) + rest
  {
  }

  lemma ContinuedStep(a: string, text: string, ps: seq<Pattern>, g: nat, first: bool)
    requires ps != [] && Reads(text, ps[0])
    ensures Continued(a, ps, g, first) ==
            Continued(NextText(a, text, g, first), ps[1..], g + 1 + Groups(ps[0]), false)
  {
    if |ps| > 1 {
      ContinuedMore(a, text, ps, g, first);
    } else {
      ContinuedLast(a, text, ps, g, first);
      assert ps[1..] == [];
    }
  }

  lemma OpensAreGroups(text: string, p: Pattern)
    requires Reads(text, p)
    ensures Opens(Cut(text)) == Groups(p)
  {
    TokensShift(p, 0);
  }

  lemma {:induction false} PlainsSnoc(text: string, c: char)
    ensures Plains(text + [c]) == Plains(text) + [Plain(c)]
  {
    if text == "" {
      assert text + [c] == [c] && Plains([c][1..]) == [];
    } else {
      PlainsSnoc(text[1..], c);
      assert (text + [c])[1..] == text[1..] + [c];
      Associates([Plain(text[0])], Plains(text[1..]), [Plain(c)]);
    }
  }

  lemma {:induction false} WritePlains(text: string)
    ensures Write(Plains(text)) == text
  {
    if text != "" {
      WritePlains(text[1..]);
      WriteFirst(Plain(text[0]), Plains(text[1..]));
      Halves(text, 1);
    }
  }

  lemma Slices(o: string, index: nat, n: nat)
    requires index + n <= |o|
    ensures o[index..][..n] == o[index..index + n] && o[index..][n..] == o[index + n..]
    ensures n == 1 ==> o[..index + 1] == o[..index] + [o[index]]
  {
  }

  /** Up to `index` every character stands for itself. */
  predicate PlainTo(o: string, index: nat) {
    index <= |o| && Cut(o) == Plains(o[..index]) + Cut(o[index..])
  }

  /** `l` is the first piece of a text, at `index`; there is none if `l` is empty. */
  predicate FirstPiece(o: string, index: nat, l: string) {
    if l == [] then Cut(o) == Plains(o)
    else
      && IsPiece(l) && index + |l| <= |o|
      && Cut(o) == Plains(o[..index]) + [PieceToken(l)] + Cut(o[index + |l|..])
  }

  lemma PlainStart(o: string)
    ensures PlainTo(o, 0)
  {
    assert o[0..] == o && o[..0] == "";
    assert [] + Cut(o) == Cut(o);
  }

  lemma PlainEnd(o: string)
    requires PlainTo(o, |o|)
    ensures FirstPiece(o, |o|, "")
  {
    assert o[..|o|] == o && o[|o|..] == "";
    assert Plains(o) + [] == Plains(o);
  }

  lemma PlainHere(o: string, index: nat)
    requires index < |o| && PieceLength(o[index..]) == 0 && PlainTo(o, index)
    ensures PlainTo(o, index + 1)
  {
    Slices(o, index, 1);
    PlainsSnoc(o[..index], o[index]);
    Associates(Plains(o[..index]), [Plain(o[index])], Cut(o[index + 1..]));
  }

  lemma PieceHere(o: string, index: nat, n: nat)
    requires index < |o| && PieceLength(o[index..]) == n > 0 && PlainTo(o, index)
    ensures index + n <= |o| && FirstPiece(o, index, o[index..index + n])
  {
    Slices(o, index, n);
    PieceOf(o[index..]);
    Associates(Plains(o[..index]), [PieceToken(o[index..index + n])], Cut(o[index + n..]));
  }

  /** `t.exec(o)` */
  method FindPiece(o: string) returns (index: nat, l: string)
    ensures FirstPiece(o, index, l)
  {
    index := 0;
    PlainStart(o);
    while index < |o|
      invariant PlainTo(o, index)
    {
      var n := PieceLength(o[index..]);
      if n > 0 {
        PieceHere(o, index, n);
        return index, o[index..index + n];
      }
      PlainHere(o, index);
      index := index + 1;
    }
    PlainEnd(o);
    return |o|, "";
  }

  /** A piece with its reference moved. */
  function MovedPiece(l: string, s: nat): string {
    if IsReference(l) then ['\\'] + Decimal(Number(l[1..]) + s) else l
  }

  lemma MovedPieceText(l: string, s: nat)
    requires IsPiece(l)
    ensures TokenText(Moved1(PieceToken(l), s)) == MovedPiece(l, s) && (PieceToken(l).Open? <==> l == "(")
  {
    PieceText(l);
    if IsReference(l) {
      assert PieceToken(l) == Reference(Number(l[1..]));
    }
  }

  lemma PieceStep(before: string, token: Token, rest: seq<Token>, s: nat)
    ensures Write(ShiftTokens(Plains(before) + [token] + rest, s)) ==
            before + TokenText(Moved1(token, s)) + Write(ShiftTokens(rest, s))
    ensures Opens(Plains(before) + [token] + rest) == (if token.Open? then 1 else 0) + Opens(rest)
  {
    ShiftTokensAppend(Plains(before) + [token], rest, s);
    ShiftTokensAppend(Plains(before), [token], s);
    PlainsStay(before, s);
    OneToken(token, s);
    WritePlains(before);
    WriteAppend(Plains(before) + [Moved1(token, s)], ShiftTokens(rest, s));
    WriteAppend(Plains(before), [Moved1(token, s)]);
    WriteOne(Moved1(token, s));
  }

  lemma Appended(a: string, before: string, piece: string, rest: string)
    ensures a + ((before + piece + rest) + ")") == (a + before + piece) + (rest + ")")
  {
  }

  /** The inner loop: one rule's text with its references moved, and its groups counted. */
  method JoinOne(text: string, a: string, r: nat) returns (a': string, r': nat)
    ensures a' == a + Tail(text, r) && r' == r + Opens(Cut(text))
  {
    var s, o := r, text;
    a', r' := a, r;
    while o != ""
      invariant a' + (Write(ShiftTokens(Cut(o), s)) + ")") == a + (Write(ShiftTokens(Cut(text), s)) + ")")
      invariant r' + Opens(Cut(o)) == r + Opens(Cut(text))
      decreases |o|
    {
      var index, l := FindPiece(o);
      if l == "" {
        PlainsStay(o, s);
        WritePlains(o);
        Associates(a', o, ")");
        a' := (a' + o) + ")";
        return;
      }
      MovedPieceText(l, s);
      PieceStep(o[..index], PieceToken(l), Cut(o[index + |l|..]), s);
      Appended(a', o[..index], MovedPiece(l, s), Write(ShiftTokens(Cut(o[index + |l|..]), s)));
      a', o := a' + o[..index], o[index + |l|..];
      if IsReference(l) {
        a' := a' + (['\\'] + Decimal(Number(l[1..]) + s));
      } else {
        a' := a' + l;
        if l == "(" {
          r' := r' + 1;
        }
      }
    }
    assert "" + ")" == ")";
    a' := a' + ")";
  }

  /** The rest of the rules and the text so far come to the whole. */
  predicate JoinsTo(a: string, rest: seq<Pattern>, r: nat, first: bool, whole: string) {
    Continued(a, rest, r, first) == whole
  }

  lemma RuleJoined(a: string, rest: seq<Pattern>, text: string, r: nat, first: bool, whole: string)
    requires rest != [] && Reads(text, rest[0]) && JoinsTo(a, rest, r, first, whole)
    ensures JoinsTo(NextText(a, text, r, first), rest[1..], r + 1 + Opens(Cut(text)), false, whole)
  {
    OpensAreGroups(text, rest[0]);
    ContinuedStep(a, text, rest, r, first);
    assert Continued(NextText(a, text, r, first), rest[1..], r + 1 + Opens(Cut(text)), false) == whole;
  }

  predicate JoinedSoFar(a: string, ps: seq<Pattern>, r: nat, i: nat, whole: string)
    requires i <= |ps|
  {
    JoinsTo(a, ps[i..], r, i == 0, whole)
  }

  lemma RuleJoinedAt(a: string, ps: seq<Pattern>, text: string, r: nat, i: nat, whole: string)
    requires i < |ps| && Reads(text, ps[i]) && JoinedSoFar(a, ps, r, i, whole)
    ensures JoinedSoFar(NextText(a, text, r, i == 0), ps, r + 1 + Opens(Cut(text)), i + 1, whole)
  {
    assert ps[i..][0] == ps[i] && ps[i..][1..] == ps[i + 1..];
    RuleJoined(a, ps[i..], text, r, i == 0, whole);
  }

  lemma JoinStarts(ps: seq<Pattern>)
    ensures JoinedSoFar("", ps, 0, 0, Continued("", ps, 0, true))
  {
    assert ps[0..] == ps;
  }

  lemma AllJoined(texts: seq<string>, ps: seq<Pattern>, a: string, r: nat)
    requires AllRead(texts, ps) && JoinedSoFar(a, ps, r, |ps|, Continued("", ps, 0, true))
    ensures ps == [] ==> a == ""
    ensures ps != [] ==> a == Write(Tokens(Joined(ps, 0))) && Reads(a, Joined(ps, 0))
  {
    assert ps[|ps|..] == [];
    if ps != [] {
      JoinedReads(texts, ps);
      assert "" + Write(Tokens(Joined(ps, 0))) == Write(Tokens(Joined(ps, 0)));
    }
  }

  // One round of the outer loop.
  method JoinNext(text: string, a: string, r: nat, i: nat) returns (a': string, r': nat)
    ensures a' == NextText(a, text, r, i == 0) && r' == r + 1 + Opens(Cut(text))
  {
    a', r' := a, r + 1;
    if i > 0 {
      a' := a' + "|";
    }
    a' := a' + "(";
    a', r' := JoinOne(text, a', r');
  }

  /** The joiner of pattern texts: its result is the text of the joined pattern, and is read as that. */
  method Join(ghost ps: seq<Pattern>, texts: seq<string>) returns (a: string)
    requires AllRead(texts, ps)
    ensures ps != [] ==> a == Write(Tokens(Joined(ps, 0))) && Reads(a, Joined(ps, 0))
    ensures ps == [] ==> a == ""
  {
    var r := 0;
    a := "";
    var i := 0;
    ghost var whole := Continued("", ps, 0, true);
    JoinStarts(ps);
    while i < |texts|
      invariant 0 <= i <= |texts| && JoinedSoFar(a, ps, r, i, whole)
    {
      RuleJoinedAt(a, ps, texts[i], r, i, whole);
      a, r := JoinNext(texts[i], a, r, i);
      i := i + 1;
    }
    AllJoined(texts, ps, a, r);
  }
}
