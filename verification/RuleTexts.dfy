/**
 The text of a pattern, as the joiner of patterns cuts it: classes, opening parentheses, numbered
 backreferences and escapes; every other character stands for itself.
 */
module RuleTexts {
  import opened RegexPatterns

  // ---------- Numbers ----------

  predicate Digit(c: char) {
    '0' <= c <= '9'
  }

  predicate FirstDigit(c: char) {
    '1' <= c <= '9'
  }

  predicate Digits(s: string) {
    forall i :: 0 <= i < |s| ==> Digit(s[i])
  }

  /** A numeral without leading zeros. */
  predicate Numeral(s: string) {
    s != "" && FirstDigit(s[0]) && Digits(s)
  }

  function Number(s: string): nat
    requires Digits(s)
  {
    if s == "" then 0 else 10 * Number(s[..|s| - 1]) + (s[|s| - 1] as int - '0' as int)
  }

  function Decimal(n: nat): string {
    var digit := [(n % 10 + '0' as int) as char];
    if n < 10 then digit else Decimal(n / 10) + digit
  }

  lemma {:induction false} NumberDecimal(n: nat)
    requires n > 0
    ensures Numeral(Decimal(n)) && Number(Decimal(n)) == n
  {
    if n >= 10 {
      NumberDecimal(n / 10);
      assert Decimal(n)[..|Decimal(n)| - 1] == Decimal(n / 10);
    }
  }

  lemma {:induction false} DecimalNumber(s: string)
    requires Numeral(s)
    ensures Number(s) > 0 && Decimal(Number(s)) == s
  {
    var start, digit := s[..|s| - 1], s[|s| - 1] as int - '0' as int;
    if start == "" {
      assert s == [s[0]];
    } else {
      DecimalNumber(start);
      assert Number(s) / 10 == Number(start) && Number(s) % 10 == digit;
      assert s == start + [s[|s| - 1]];
    }
  }

  // ---------- Cutting ----------

  predicate LineEnd(c: char) {
    c == '\n' || c == '\r' || c == '\U{2028}' || c == '\U{2029}'
  }

  /** Where a class ends that is open at `i`; 0 if it does not. */
  function ClassEnd(s: string, i: nat): (end: nat)
    ensures end == 0 || i < end <= |s|
    decreases |s| - i
  {
    if i >= |s| then 0
    else if s[i] == ']' then i + 1
    else if s[i] != '\\' then ClassEnd(s, i + 1)
    else if i + 1 < |s| && !LineEnd(s[i + 1]) then ClassEnd(s, i + 2)
    else 0
  }

  function DigitsEnd(s: string, i: nat): (end: nat)
    requires i <= |s|
    ensures i <= end <= |s| && Digits(s[i..end]) && (end < |s| ==> !Digit(s[end]))
    decreases |s| - i
  {
    if i < |s| && Digit(s[i]) then
      var end := DigitsEnd(s, i + 1);
      assert s[i..end] == [s[i]] + s[i + 1..end];
      end
    else i
  }

  /** The length of the piece at the start of a text; 0 where a character stands for itself. */
  function PieceLength(s: string): (n: nat)
    requires s != ""
    ensures n <= |s|
  {
    if s[0] == '[' then ClassEnd(s, 1)
    else if s[0] == '(' then if |s| > 1 && s[1] == '?' then 2 else 1
    else if s[0] != '\\' || |s| == 1 then 0
    else if FirstDigit(s[1]) then DigitsEnd(s, 2)
    else if LineEnd(s[1]) then 0
    else 2
  }

  /** What a piece is. */
  predicate IsPiece(l: string) {
    l != "" && PieceLength(l) == |l|
  }

  predicate IsReference(l: string) {
    |l| > 1 && l[0] == '\\' && Numeral(l[1..])
  }

  function PieceToken(l: string): Token
    requires IsPiece(l)
  {
    if l[0] == '[' then Class(l)
    else if l[0] == '(' then if |l| == 1 then Open else OpenSpecial
    else if IsReference(l) then Reference(Number(l[1..]))
    else Escape(l[1])
  }

  /** The tokens of a text. */
  function Cut(s: string): seq<Token> {
    if s == "" then []
    else
      var n := PieceLength(s);
      if n == 0 then [Plain(s[0])] + Cut(s[1..])
      else
        PieceOf(s);
        [PieceToken(s[..n])] + Cut(s[n..])
  }

  lemma {:induction false} ClassEndLocal(s: string, t: string, i: nat)
    requires ClassEnd(s, i) > 0
    ensures ClassEnd(s + t, i) == ClassEnd(s, i)
    decreases |s| - i
  {
    if s[i] != ']' {
      ClassEndLocal(s, t, if s[i] == '\\' then i + 2 else i + 1);
    }
  }

  lemma {:induction false} ClassEndTaken(s: string, i: nat)
    requires ClassEnd(s, i) > 0
    ensures ClassEnd(s[..ClassEnd(s, i)], i) == ClassEnd(s, i)
    decreases |s| - i
  {
    if s[i] != ']' {
      ClassEndTaken(s, if s[i] == '\\' then i + 2 else i + 1);
    }
  }

  lemma {:induction false} DigitsEndIs(s: string, i: nat, end: nat)
    requires i <= end <= |s| && Digits(s[i..end]) && (end < |s| ==> !Digit(s[end]))
    ensures DigitsEnd(s, i) == end
    decreases end - i
  {
    if i < end {
      assert s[i..end][0] == s[i];
      assert s[i + 1..end] == s[i..end][1..];
      DigitsEndIs(s, i + 1, end);
    }
  }

  lemma PieceOf(s: string)
    requires s != "" && PieceLength(s) > 0
    ensures IsPiece(s[..PieceLength(s)])
  {
    var n := PieceLength(s);
    if s[0] == '[' {
      ClassEndTaken(s, 1);
    } else if s[0] == '\\' && FirstDigit(s[1]) {
      assert s[..n][2..n] == s[2..n];
      DigitsEndIs(s[..n], 2, n);
    }
  }

  // ---------- Writing ----------

  function TokenText(token: Token): string {
    match token
    case Plain(c) => [c]
    case Escape(c) => ['\\', c]
    case Class(text) => text
    case Open => "("
    case OpenSpecial => "(?"
    case Reference(n) => ['\\'] + Decimal(n)
  }

  function Write(tokens: seq<Token>): string {
    if tokens == [] then "" else TokenText(tokens[0]) + Write(tokens[1..])
  }

  lemma Associates<T>(a: seq<T>, b: seq<T>, c: seq<T>)
    ensures a + (b + c) == (a + b) + c
  {
  }

  lemma TailOfSum<T>(a: seq<T>, b: seq<T>)
    requires a != []
    ensures a + b != [] && (a + b)[0] == a[0] && (a + b)[1..] == a[1..] + b
  {
  }

  lemma Halves<T>(s: seq<T>, n: nat)
    requires n <= |s|
    ensures s == s[..n] + s[n..]
    ensures n == 1 ==> s == [s[0]] + s[1..]
  {
  }

  lemma WriteFirst(token: Token, rest: seq<Token>)
    ensures Write([token] + rest) == TokenText(token) + Write(rest)
  {
    assert ([token] + rest)[1..] == rest;
  }

  lemma {:induction false} WriteAppend(a: seq<Token>, b: seq<Token>)
    ensures Write(a + b) == Write(a) + Write(b)
  {
    if a == [] {
      assert a + b == b;
    } else {
      WriteAppend(a[1..], b);
      TailOfSum(a, b);
      Associates(TokenText(a[0]), Write(a[1..]), Write(b));
    }
  }

  lemma ReferencePiece(l: string)
    requires IsPiece(l) && l[0] == '\\'
    ensures IsReference(l) <==> FirstDigit(l[1])
  {
    if FirstDigit(l[1]) {
      assert l[1..] == [l[1]] + l[2..|l|];
    }
  }

  lemma PieceText(l: string)
    requires IsPiece(l)
    ensures TokenText(PieceToken(l)) == l
  {
    if l[0] == '(' {
      assert l == if |l| == 1 then [l[0]] else [l[0], l[1]];
    } else if l[0] == '\\' {
      ReferencePiece(l);
      if IsReference(l) {
        DecimalNumber(l[1..]);
        assert l == [l[0]] + l[1..];
      } else {
        assert l == [l[0], l[1]];
      }
    }
  }

  /** Cutting loses nothing. */
  lemma {:induction false} WriteCut(s: string)
    ensures Write(Cut(s)) == s
    decreases |s|
  {
    if s != "" {
      var n := PieceLength(s);
      if n == 0 {
        WriteCut(s[1..]);
        Halves(s, 1);
        WriteFirst(Plain(s[0]), Cut(s[1..]));
      } else {
        PieceOf(s);
        PieceText(s[..n]);
        WriteCut(s[n..]);
        Halves(s, n);
        WriteFirst(PieceToken(s[..n]), Cut(s[n..]));
      }
    }
  }

  // ---------- Tokens that a text is cut into ----------

  /** The token's text is cut as that token, whatever the rest. */
  predicate Cuttable(token: Token) {
    match token
    case Plain(c) => c != '\\' && c != '[' && c != '('
    case Escape(c) => !FirstDigit(c) && !LineEnd(c)
    case Class(text) => text != "" && text[0] == '[' && ClassEnd(text, 1) == |text|
    case Reference(n) => n > 0
    case _ => true
  }

  /** The second token does not go on with the first. */
  predicate Apart(token: Token, next: Token) {
    && (token.Open? ==> next != Plain('?'))
    && (token.Reference? && next.Plain? ==> !Digit(next.c))
  }

  predicate Lexical(tokens: seq<Token>) {
    tokens == [] || (Cuttable(tokens[0]) && (|tokens| > 1 ==> Apart(tokens[0], tokens[1])) && Lexical(tokens[1..]))
  }

  /** Neither a backslash nor an opening bracket is left over. */
  predicate Closed(tokens: seq<Token>) {
    Plain('\\') !in tokens && Plain('[') !in tokens
  }

  lemma PieceIsSound(l: string)
    requires IsPiece(l)
    ensures Cuttable(PieceToken(l))
  {
    if l[0] == '\\' {
      ReferencePiece(l);
      if IsReference(l) {
        DecimalNumber(l[1..]);
      }
    }
  }

  // What the text begins with.
  lemma CutBegins(s: string)
    requires s != ""
    ensures Cut(s) != []
    ensures Cut(s)[0].Plain? ==> Cut(s)[0].c == s[0]
  {
    if PieceLength(s) > 0 {
      PieceOf(s);
    }
  }

  lemma PieceIsApart(s: string)
    requires s != "" && PieceLength(s) > 0 && PieceLength(s) < |s|
    ensures IsPiece(s[..PieceLength(s)]) && Cut(s[PieceLength(s)..]) != []
    ensures Apart(PieceToken(s[..PieceLength(s)]), Cut(s[PieceLength(s)..])[0])
  {
    var n := PieceLength(s);
    PieceOf(s);
    CutBegins(s[n..]);
    assert s[n..][0] == s[n];
  }

  /** A text in which nothing is left open is cut into such tokens. */
  lemma {:induction false} CutIsLexical(s: string)
    requires Closed(Cut(s))
    ensures Lexical(Cut(s))
    decreases |s|
  {
    if s != "" {
      var n := PieceLength(s);
      if n == 0 {
        assert Cut(s)[1..] == Cut(s[1..]);
        assert Cut(s)[0] == Plain(s[0]);
        CutIsLexical(s[1..]);
      } else {
        PieceOf(s);
        PieceIsSound(s[..n]);
        assert Cut(s)[1..] == Cut(s[n..]);
        CutIsLexical(s[n..]);
        if n < |s| {
          PieceIsApart(s);
        }
      }
    }
  }

  // Where the rest begins.
  lemma RestBegins(tokens: seq<Token>)
    requires tokens != [] && Lexical(tokens)
    ensures Write(tokens) != ""
    ensures tokens[0].Plain? ==> Write(tokens)[0] == tokens[0].c
    ensures !tokens[0].Plain? ==> Write(tokens)[0] in {'\\', '[', '('}
  {
  }

  lemma SoundPiece(token: Token, rest: string)
    requires Cuttable(token) && !token.Plain?
    requires token.Open? && rest != "" ==> rest[0] != '?'
    requires token.Reference? && rest != "" ==> !Digit(rest[0])
    ensures TokenText(token) != "" && PieceLength(TokenText(token) + rest) == |TokenText(token)|
  {
    var s, l := TokenText(token) + rest, TokenText(token);
    match token {
      case Class(text) => ClassEndLocal(text, rest, 1);
      case Reference(n) =>
        NumberDecimal(n);
        assert s[1..|l|] == Decimal(n);
        assert s[2..|l|] == Decimal(n)[1..];
        DigitsEndIs(s, 2, |l|);
      case _ =>
    }
  }

  lemma SoundToken(token: Token)
    requires Cuttable(token) && !token.Plain?
    ensures IsPiece(TokenText(token)) && PieceToken(TokenText(token)) == token
  {
    SoundPiece(token, "");
    assert TokenText(token) + "" == TokenText(token);
    match token {
      case Reference(n) =>
        NumberDecimal(n);
        assert TokenText(token)[1..] == Decimal(n);
      case Escape(c) => ReferencePiece(TokenText(token));
      case _ =>
    }
  }

  /** Such tokens are what their text is cut into. */
  lemma {:induction false} CutWrite(tokens: seq<Token>)
    requires Lexical(tokens)
    ensures Cut(Write(tokens)) == tokens
  {
    if tokens != [] {
      var token, rest := tokens[0], tokens[1..];
      var s := Write(tokens);
      CutWrite(rest);
      if rest != [] {
        RestBegins(rest);
      }
      if token.Plain? {
        assert s[1..] == Write(rest);
      } else {
        SoundPiece(token, Write(rest));
        SoundToken(token);
        var n := |TokenText(token)|;
        assert s[..n] == TokenText(token) && s[n..] == Write(rest);
      }
    }
  }
}
