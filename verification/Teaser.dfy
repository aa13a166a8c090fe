/**
 `makeTeaser`: the words of a text are weighed, the window of words with the largest total weight is
 chosen, and its text is put together again with the search terms emphasised.

 Lower-casing a character and the stemmed comparison with the search terms are parameters;
 lower-casing keeps the length of the text.
 */
module Teaser {

  const TERM_WEIGHT := 40
  const FIRST_WEIGHT := 8
  const WORD_WEIGHT := 2

  datatype Weighted = Weighted(word: string, weight: nat, index: nat)

  // ---------- split ----------

  /** `s.split(sep)` */
  function Split(s: string, sep: string): (r: seq<string>)
    requires sep != ""
    ensures r != []
    decreases |s|
  {
    if sep <= s then [""] + Split(s[|sep|..], sep)
    else if s == "" then [""]
    else
      var rest := Split(s[1..], sep);
      [[s[0]] + rest[0]] + rest[1..]
  }

  function Join(parts: seq<string>, sep: string): string {
    if parts == [] then "" else if |parts| == 1 then parts[0] else parts[0] + (sep + Join(parts[1..], sep))
  }

  /** Joining what was split gives the text back. */
  lemma {:induction false} JoinSplit(s: string, sep: string)
    requires sep != ""
    ensures Join(Split(s, sep), sep) == s
    decreases |s|
  {
    if sep <= s {
      var rest := Split(s[|sep|..], sep);
      JoinSplit(s[|sep|..], sep);
      JoinCons("", rest, sep);
      assert s == sep + s[|sep|..];
    } else if s != "" {
      var rest := Split(s[1..], sep);
      JoinSplit(s[1..], sep);
      JoinPrefix([s[0]], rest, sep);
      assert s == [s[0]] + s[1..];
    }
  }

  lemma JoinCons(part: string, rest: seq<string>, sep: string)
    requires rest != []
    ensures Join([part] + rest, sep) == part + (sep + Join(rest, sep))
  {
    assert ([part] + rest)[1..] == rest;
  }

  lemma JoinPrefix(prefix: string, parts: seq<string>, sep: string)
    requires parts != []
    ensures Join([prefix + parts[0]] + parts[1..], sep) == prefix + Join(parts, sep)
  {
    var longer := [prefix + parts[0]] + parts[1..];
    assert longer[1..] == parts[1..];
    if |parts| > 1 {
      var tail := sep + Join(parts[1..], sep);
      assert (prefix + parts[0]) + tail == prefix + (parts[0] + tail);
    }
  }

  // ---------- Weighing ----------

  /** The words of a sentence; `value` is the weight of the next word that is no search term. */
  function WordsWeighed(isTerm: string -> bool, words: seq<string>, value: nat, index: nat): seq<Weighted> {
    if words == [] then []
    else
      var word := words[0];
      var next := index + |word| + 1;
      if word == "" then WordsWeighed(isTerm, words[1..], value, next)
      else
        [Weighted(word, if isTerm(word) then TERM_WEIGHT else value, index)] +
        WordsWeighed(isTerm, words[1..], WORD_WEIGHT, next)
  }

  function WordsEnd(words: seq<string>, index: nat): nat {
    if words == [] then index else WordsEnd(words[1..], index + |words[0]| + 1)
  }

  function SentencesWeighed(isTerm: string -> bool, sentences: seq<string>, index: nat): seq<Weighted> {
    if sentences == [] then []
    else
      var words := Split(sentences[0], " ");
      WordsWeighed(isTerm, words, FIRST_WEIGHT, index) +
      SentencesWeighed(isTerm, sentences[1..], WordsEnd(words, index) + 1)
  }

  /** `weighted` for a lower-case text. */
  function Weighed(isTerm: string -> bool, text: string): seq<Weighted> {
    SentencesWeighed(isTerm, Split(text, ". "), 0)
  }

  // ---------- What a word weighs ----------

  /** The words that are recorded: those between two separators are none. */
  function Words(parts: seq<string>): seq<string> {
    if parts == [] then [] else (if parts[0] == "" then [] else [parts[0]]) + Words(parts[1..])
  }

  /** A sentence is recorded word by word: 40 for a search term, for other words 8 if they are the first of
      the sentence, and 2 if not. */
  ghost predicate WeighsSentence(isTerm: string -> bool, words: seq<string>, first: nat, ws: seq<Weighted>) {
    && |ws| == |words|
    && forall i :: 0 <= i < |words| ==>
         && ws[i].word == words[i]
         && (isTerm(words[i]) ==> ws[i].weight == 40)
         && (!isTerm(words[i]) ==> ws[i].weight == if i == 0 then first else 2)
  }

  lemma OneMoreWord(isTerm: string -> bool, w: Weighted, words: seq<string>, ws: seq<Weighted>, first: nat)
    requires WeighsSentence(isTerm, words, 2, ws)
    requires w.weight == if isTerm(w.word) then 40 else first
    ensures WeighsSentence(isTerm, [w.word] + words, first, [w] + ws)
  {
  }

  lemma {:induction false} SentenceWeights(isTerm: string -> bool, parts: seq<string>, value: nat, index: nat)
    ensures WeighsSentence(isTerm, Words(parts), value, WordsWeighed(isTerm, parts, value, index))
  {
    if parts != [] {
      var next := index + |parts[0]| + 1;
      if parts[0] == "" {
        SentenceWeights(isTerm, parts[1..], value, next);
        assert [] + Words(parts[1..]) == Words(parts[1..]);
      } else {
        SentenceWeights(isTerm, parts[1..], WORD_WEIGHT, next);
        OneMoreWord(isTerm, Weighted(parts[0], if isTerm(parts[0]) then TERM_WEIGHT else value, index),
                    Words(parts[1..]), WordsWeighed(isTerm, parts[1..], WORD_WEIGHT, next), value);
      }
    }
  }

  /** The records of a text, sentence after sentence, with 8 for the first word of each. */
  ghost predicate WeighsText(isTerm: string -> bool, sentences: seq<string>, ws: seq<Weighted>)
    decreases |sentences|
  {
    if sentences == [] then ws == []
    else
      var n := |Words(Split(sentences[0], " "))|;
      && n <= |ws|
      && WeighsSentence(isTerm, Words(Split(sentences[0], " ")), 8, ws[..n])
      && WeighsText(isTerm, sentences[1..], ws[n..])
  }

  lemma WeighsTextCons(isTerm: string -> bool, sentences: seq<string>, ws: seq<Weighted>, rest: seq<Weighted>)
    requires sentences != [] && WeighsSentence(isTerm, Words(Split(sentences[0], " ")), 8, ws)
    requires WeighsText(isTerm, sentences[1..], rest)
    ensures WeighsText(isTerm, sentences, ws + rest)
  {
    assert (ws + rest)[..|ws|] == ws && (ws + rest)[|ws|..] == rest;
  }

  /** Every recorded word has the weight that is due to it. */
  lemma {:induction false} WeightsExactly(isTerm: string -> bool, sentences: seq<string>, index: nat)
    ensures WeighsText(isTerm, sentences, SentencesWeighed(isTerm, sentences, index))
    decreases |sentences|
  {
    if sentences != [] {
      var words := Split(sentences[0], " ");
      var ws := WordsWeighed(isTerm, words, FIRST_WEIGHT, index);
      var rest := SentencesWeighed(isTerm, sentences[1..], WordsEnd(words, index) + 1);
      SentenceWeights(isTerm, words, FIRST_WEIGHT, index);
      WeightsExactly(isTerm, sentences[1..], WordsEnd(words, index) + 1);
      WeighsTextCons(isTerm, sentences, ws, rest);
    }
  }

  /** A word weighs 40 if and only if it is a search term. */
  lemma {:induction false} TermsWeigh40(isTerm: string -> bool, sentences: seq<string>, ws: seq<Weighted>)
    requires WeighsText(isTerm, sentences, ws)
    ensures forall i :: 0 <= i < |ws| ==> (ws[i].weight == 40 <==> isTerm(ws[i].word))
    decreases |sentences|
  {
    if sentences != [] {
      var n := |Words(Split(sentences[0], " "))|;
      TermsWeigh40(isTerm, sentences[1..], ws[n..]);
      forall i | 0 <= i < |ws| ensures ws[i].weight == 40 <==> isTerm(ws[i].word) {
        if i < n {
          assert ws[..n][i] == ws[i];
        } else {
          assert ws[n..][i - n] == ws[i];
        }
      }
    }
  }

  predicate AnyTerm(ws: seq<Weighted>) {
    ws != [] && (ws[0].weight == TERM_WEIGHT || AnyTerm(ws[1..]))
  }

  lemma {:induction false} AnyTermConcat(a: seq<Weighted>, b: seq<Weighted>)
    ensures AnyTerm(a + b) == (AnyTerm(a) || AnyTerm(b))
  {
    if a == [] {
      assert a + b == b;
    } else {
      assert (a + b)[1..] == a[1..] + b;
      AnyTermConcat(a[1..], b);
    }
  }

  method WeighWords(isTerm: string -> bool, words: seq<string>, weighted: seq<Weighted>, index: nat, found: bool)
    returns (weighted': seq<Weighted>, index': nat, found': bool)
    requires found == AnyTerm(weighted)
    ensures weighted' == weighted + WordsWeighed(isTerm, words, FIRST_WEIGHT, index)
    ensures index' == WordsEnd(words, index)
    ensures found' == AnyTerm(weighted')
  {
    weighted', index', found' := weighted, index, found;
    var value: nat := FIRST_WEIGHT;
    var k := 0;
    assert words[0..] == words;
    while k < |words|
      invariant 0 <= k <= |words|
      invariant weighted' + WordsWeighed(isTerm, words[k..], value, index') ==
                weighted + WordsWeighed(isTerm, words, FIRST_WEIGHT, index)
      invariant WordsEnd(words[k..], index') == WordsEnd(words, index)
      invariant value == FIRST_WEIGHT || value == WORD_WEIGHT
      invariant found' == AnyTerm(weighted')
    {
      var word := words[k];
      assert words[k..][0] == word && words[k..][1..] == words[k + 1..];
      if |word| > 0 {
        if isTerm(word) {
          value := TERM_WEIGHT;
          found' := true;
        }
        AnyTermConcat(weighted', [Weighted(word, value, index')]);
        assert AnyTerm([Weighted(word, value, index')]) == (value == TERM_WEIGHT || AnyTerm([]));
        weighted' := weighted' + [Weighted(word, value, index')];
        value := WORD_WEIGHT;
      }
      index' := index' + |word| + 1;
      k := k + 1;
    }
    assert words[k..] == [];
  }

  lemma NextSentence(isTerm: string -> bool, sentences: seq<string>, k: nat, weighted: seq<Weighted>, index: nat)
    requires k < |sentences|
    ensures var words := Split(sentences[k], " ");
            weighted + SentencesWeighed(isTerm, sentences[k..], index) ==
            (weighted + WordsWeighed(isTerm, words, FIRST_WEIGHT, index)) +
            SentencesWeighed(isTerm, sentences[k + 1..], WordsEnd(words, index) + 1)
  {
    assert sentences[k..][0] == sentences[k] && sentences[k..][1..] == sentences[k + 1..];
    var words := Split(sentences[k], " ");
    Regroup(weighted, WordsWeighed(isTerm, words, FIRST_WEIGHT, index),
            SentencesWeighed(isTerm, sentences[k + 1..], WordsEnd(words, index) + 1));
  }

  method Weigh(isTerm: string -> bool, text: string) returns (weighted: seq<Weighted>, found: bool)
    ensures weighted == Weighed(isTerm, text)
    ensures found == AnyTerm(weighted)
  {
    var sentences := Split(text, ". ");
    var index: nat := 0;
    weighted, found := [], false;
    var k := 0;
    assert sentences[0..] == sentences;
    while k < |sentences|
      invariant 0 <= k <= |sentences|
      invariant weighted + SentencesWeighed(isTerm, sentences[k..], index) == SentencesWeighed(isTerm, sentences, 0)
      invariant found == AnyTerm(weighted)
    {
      NextSentence(isTerm, sentences, k, weighted, index);
      var words := Split(sentences[k], " ");
      weighted, index, found := WeighWords(isTerm, words, weighted, index, found);
      index := index + 1;
      k := k + 1;
    }
    assert sentences[k..] == [];
  }

  // ---------- Positions ----------

  /** Read from position `at` on, the text is the words, each at its index, and otherwise only spaces
      and full stops. */
  predicate Located(ws: seq<Weighted>, text: string, at: nat)
    decreases |text|
  {
    if text == "" then ws == []
    else if ws != [] && ws[0].index == at then
      && ws[0].word != "" && ws[0].word <= text
      && Located(ws[1..], text[|ws[0].word|..], at + |ws[0].word|)
    else (text[0] == ' ' || text[0] == '.') && Located(ws, text[1..], at + 1)
  }

  lemma {:induction false} LocatedStart(ws: seq<Weighted>, text: string, at: nat)
    requires Located(ws, text, at)
    ensures ws != [] ==> at <= ws[0].index
    decreases |text|
  {
    if text != "" && ws != [] && ws[0].index != at {
      LocatedStart(ws, text[1..], at + 1);
    }
  }

  lemma Regroup<T>(a: seq<T>, b: seq<T>, c: seq<T>)
    ensures (a + b) + c == a + (b + c)
  {}

  lemma WordInFront(w: Weighted, ws: seq<Weighted>, text: string)
    requires w.word != "" && Located(ws, text, w.index + |w.word|)
    ensures Located([w] + ws, w.word + text, w.index)
  {
    assert ([w] + ws)[1..] == ws && (w.word + text)[|w.word|..] == text;
  }

  lemma SeparatorInFront(c: char, ws: seq<Weighted>, text: string, at: nat)
    requires (c == ' ' || c == '.') && Located(ws, text, at + 1)
    ensures Located(ws, [c] + text, at)
  {
    LocatedStart(ws, text, at + 1);
    assert ([c] + text)[1..] == text;
  }

  /** A text after a text. */
  lemma {:induction false} LocatedConcat(a: seq<Weighted>, s: string, b: seq<Weighted>, t: string, at: nat)
    requires Located(a, s, at) && Located(b, t, at + |s|)
    ensures Located(a + b, s + t, at)
    decreases |s|
  {
    if s == "" {
      assert a + b == b && s + t == t;
    } else if a != [] && a[0].index == at {
      var w, a', s' := a[0], a[1..], s[|a[0].word|..];
      LocatedConcat(a', s', b, t, at + |w.word|);
      WordInFront(w, a' + b, s' + t);
      Regroup([w], a', b);
      Regroup(w.word, s', t);
      assert a == [w] + a' && s == w.word + s';
    } else {
      LocatedConcat(a, s[1..], b, t, at + 1);
      SeparatorInFront(s[0], a + b, s[1..] + t, at);
      Regroup([s[0]], s[1..], t);
      assert s == [s[0]] + s[1..];
    }
  }

  lemma LocatedWord(w: Weighted)
    requires w.word != ""
    ensures Located([w], w.word, w.index)
  {
    assert w.word[|w.word|..] == "" && [w][1..] == [];
  }

  /** The words of a sentence are where they are recorded. */
  lemma {:induction false} WordsLocated(isTerm: string -> bool, words: seq<string>, value: nat, index: nat)
    requires words != []
    ensures Located(WordsWeighed(isTerm, words, value, index), Join(words, " "), index)
    ensures WordsEnd(words, index) == index + |Join(words, " ")| + 1
  {
    var word, rest := words[0], words[1..];
    var next := index + |word| + 1;
    var w := Weighted(word, if isTerm(word) then TERM_WEIGHT else value, index);
    var first := if word == "" then [] else [w];
    if word != "" {
      LocatedWord(w);
    }
    var later := WordsWeighed(isTerm, rest, if word == "" then value else WORD_WEIGHT, next);
    assert WordsWeighed(isTerm, words, value, index) == first + later;
    if rest == [] {
      assert first + [] == first;
    } else {
      WordsLocated(isTerm, rest, if word == "" then value else WORD_WEIGHT, next);
      SeparatorInFront(' ', later, Join(rest, " "), index + |word|);
      LocatedConcat(first, word, later, " " + Join(rest, " "), index);
    }
  }

  lemma FullStopLocated(ws: seq<Weighted>, text: string, at: nat)
    requires Located(ws, text, at + 2)
    ensures Located(ws, ". " + text, at)
  {
    SeparatorInFront(' ', ws, text, at + 1);
    SeparatorInFront('.', ws, " " + text, at);
    assert "." + (" " + text) == ". " + text;
  }

  lemma SentenceLocated(isTerm: string -> bool, sentence: string, index: nat)
    ensures Located(WordsWeighed(isTerm, Split(sentence, " "), FIRST_WEIGHT, index), sentence, index)
    ensures WordsEnd(Split(sentence, " "), index) == index + |sentence| + 1
  {
    JoinSplit(sentence, " ");
    WordsLocated(isTerm, Split(sentence, " "), FIRST_WEIGHT, index);
  }

  lemma {:induction false} SentencesLocated(isTerm: string -> bool, sentences: seq<string>, index: nat)
    requires sentences != []
    ensures Located(SentencesWeighed(isTerm, sentences, index), Join(sentences, ". "), index)
  {
    var sentence, rest := sentences[0], sentences[1..];
    var ws := WordsWeighed(isTerm, Split(sentence, " "), FIRST_WEIGHT, index);
    SentenceLocated(isTerm, sentence, index);
    var end := index + |sentence|;
    var later := SentencesWeighed(isTerm, rest, end + 2);
    assert SentencesWeighed(isTerm, sentences, index) == ws + later;
    if rest == [] {
      assert ws + [] == ws;
    } else {
      SentencesLocated(isTerm, rest, end + 2);
      FullStopLocated(later, Join(rest, ". "), end);
      LocatedConcat(ws, sentence, later, ". " + Join(rest, ". "), index);
    }
  }

  /** Every recorded offset is the true position of its word, and no word is left out. */
  lemma WeighedLocated(isTerm: string -> bool, text: string)
    ensures Located(Weighed(isTerm, text), text, 0)
  {
    JoinSplit(text, ". ");
    SentencesLocated(isTerm, Split(text, ". "), 0);
  }

  /** The words one after the other, inside a text of the given length. */
  predicate InOrder(ws: seq<Weighted>, length: nat) {
    forall i :: 0 <= i < |ws| ==>
      && ws[i].index + |ws[i].word| <= length
      && (i + 1 < |ws| ==> ws[i].index + |ws[i].word| <= ws[i + 1].index)
  }

  lemma {:induction false} LocatedFacts(ws: seq<Weighted>, text: string, at: nat, i: nat)
    requires Located(ws, text, at) && i < |ws|
    ensures at <= ws[i].index && ws[i].index + |ws[i].word| <= at + |text|
    ensures text[ws[i].index - at..ws[i].index - at + |ws[i].word|] == ws[i].word
    ensures i + 1 < |ws| ==> ws[i].index + |ws[i].word| <= ws[i + 1].index
    decreases |text|
  {
    if ws[0].index == at {
      var size := |ws[0].word|;
      if i > 0 {
        LocatedFacts(ws[1..], text[size..], at + size, i - 1);
      } else {
        LocatedStart(ws[1..], text[size..], at + size);
      }
    } else {
      LocatedFacts(ws, text[1..], at + 1, i);
    }
  }

  lemma WeighedInOrder(isTerm: string -> bool, text: string)
    ensures InOrder(Weighed(isTerm, text), |text|)
  {
    var ws := Weighed(isTerm, text);
    WeighedLocated(isTerm, text);
    forall i | 0 <= i < |ws|
      ensures ws[i].index + |ws[i].word| <= |text|
      ensures i + 1 < |ws| ==> ws[i].index + |ws[i].word| <= ws[i + 1].index
    {
      LocatedFacts(ws, text, 0, i);
    }
  }

  // ---------- The window ----------

  function Sum(ws: seq<Weighted>): nat {
    if ws == [] then 0 else ws[0].weight + Sum(ws[1..])
  }

  function WindowSum(ws: seq<Weighted>, i: nat, size: nat): nat
    requires i + size <= |ws|
  {
    Sum(ws[i..i + size])
  }

  lemma {:induction false} SumSnoc(ws: seq<Weighted>, w: Weighted)
    ensures Sum(ws + [w]) == Sum(ws) + w.weight
  {
    if ws == [] {
      assert [] + [w] == [w] && [w][1..] == [];
    } else {
      assert (ws + [w])[1..] == ws[1..] + [w];
      SumSnoc(ws[1..], w);
    }
  }

  // One word leaves the window and one enters.
  lemma SumSlides(ws: seq<Weighted>, i: nat, size: nat)
    requires i + size < |ws|
    ensures Sum(ws[i + 1..i + 1 + size]) == Sum(ws[i..i + size]) - ws[i].weight + ws[i + size].weight
  {
    var wide := ws[i..i + size + 1];
    assert wide == ws[i..i + size] + [ws[i + size]];
    SumSnoc(ws[i..i + size], ws[i + size]);
    assert wide[1..] == ws[i + 1..i + 1 + size];
  }

  /** The incremental sums are the sums of the windows. */
  method WindowWeights(ws: seq<Weighted>, size: nat) returns (sums: seq<nat>)
    requires size <= |ws|
    ensures |sums| == |ws| - size + 1
    ensures forall i :: 0 <= i < |sums| ==> sums[i] == WindowSum(ws, i, size)
  {
    var sum: nat := 0;
    for k := 0 to size
      invariant sum == Sum(ws[..k])
    {
      assert ws[..k + 1] == ws[..k] + [ws[k]];
      SumSnoc(ws[..k], ws[k]);
      sum := sum + ws[k].weight;
    }
    assert ws[..size] == ws[0..0 + size];
    sums := [sum];
    for k := 0 to |ws| - size
      invariant |sums| == k + 1 && sum == Sum(ws[k..k + size])
      invariant forall i :: 0 <= i <= k ==> sums[i] == WindowSum(ws, i, size)
    {
      SumSlides(ws, k, size);
      sum := sum + ws[k + size].weight - ws[k].weight;
      sums := sums + [sum];
    }
  }

  /** `m` is the last window of maximal weight. */
  ghost predicate LastMaximum(sums: seq<nat>, m: nat) {
    && m < |sums|
    && (forall i :: 0 <= i < |sums| ==> sums[i] <= sums[m])
    && (forall i :: m < i < |sums| ==> sums[i] < sums[m])
  }

  /** The backward scan. It starts from a maximum of 0 at index 0, so that it finds the last maximum
      unless every window weighs nothing. */
  method BestWindow(sums: seq<nat>) returns (m: nat)
    requires sums != []
    ensures m < |sums|
    ensures (exists i :: 0 <= i < |sums| && sums[i] > 0) ==> LastMaximum(sums, m)
    ensures (forall i :: 0 <= i < |sums| ==> sums[i] == 0) ==> m == 0
  {
    var max: nat := 0;
    m := 0;
    var i := |sums| - 1;
    while i >= 0
      invariant -1 <= i < |sums| && m < |sums|
      invariant max == 0 ==> m == 0 && forall j :: i < j < |sums| ==> sums[j] == 0
      invariant max > 0 ==> i < m && sums[m] == max
      invariant max > 0 ==> forall j :: i < j < |sums| ==> sums[j] <= max
      invariant max > 0 ==> forall j :: m < j < |sums| ==> sums[j] < max
    {
      if sums[i] > max {
        max := sums[i];
        m := i;
      }
      i := i - 1;
    }
  }

  predicate AllPositive(ws: seq<Weighted>) {
    ws == [] || (ws[0].weight > 0 && AllPositive(ws[1..]))
  }

  lemma {:induction false} WordsPositive(isTerm: string -> bool, words: seq<string>, value: nat, index: nat)
    requires value > 0
    ensures AllPositive(WordsWeighed(isTerm, words, value, index))
  {
    if words != [] {
      WordsPositive(isTerm, words[1..], value, index + |words[0]| + 1);
      WordsPositive(isTerm, words[1..], WORD_WEIGHT, index + |words[0]| + 1);
    }
  }

  lemma {:induction false} PositiveConcat(a: seq<Weighted>, b: seq<Weighted>)
    requires AllPositive(a) && AllPositive(b)
    ensures AllPositive(a + b)
  {
    if a == [] {
      assert a + b == b;
    } else {
      assert (a + b)[1..] == a[1..] + b;
      PositiveConcat(a[1..], b);
    }
  }

  lemma {:induction false} SentencesPositive(isTerm: string -> bool, sentences: seq<string>, index: nat)
    ensures AllPositive(SentencesWeighed(isTerm, sentences, index))
  {
    if sentences != [] {
      var words := Split(sentences[0], " ");
      WordsPositive(isTerm, words, FIRST_WEIGHT, index);
      SentencesPositive(isTerm, sentences[1..], WordsEnd(words, index) + 1);
      PositiveConcat(WordsWeighed(isTerm, words, FIRST_WEIGHT, index),
                     SentencesWeighed(isTerm, sentences[1..], WordsEnd(words, index) + 1));
    }
  }

  // ---------- Assembly ----------

  datatype Piece = Plain(text: string) | EmStart | EmEnd

  function Html(pieces: seq<Piece>): string {
    if pieces == [] then ""
    else
      (match pieces[0]
       case Plain(text) => text
       case EmStart => "<em>"
       case EmEnd => "</em>") + Html(pieces[1..])
  }

  /** The characters of the pieces, each with whether it is emphasised; `on` is what holds at the end. */
  datatype Emphasis = Emphasis(chars: seq<(char, bool)>, on: bool)

  function EmphasisedFrom(pieces: seq<Piece>, on: bool): Emphasis {
    if pieces == [] then Emphasis([], on)
    else
      match pieces[0]
      case Plain(text) =>
        var rest := EmphasisedFrom(pieces[1..], on);
        rest.(chars := Emphasise(text, on) + rest.chars)
      case EmStart => EmphasisedFrom(pieces[1..], true)
      case EmEnd => EmphasisedFrom(pieces[1..], false)
  }

  function Emphasised(pieces: seq<Piece>): Emphasis {
    EmphasisedFrom(pieces, false)
  }

  function Emphasise(text: string, on: bool): seq<(char, bool)> {
    seq(|text|, i requires 0 <= i < |text| => (text[i], on))
  }

  lemma {:induction false} EmphasisedFromSnoc(pieces: seq<Piece>, p: Piece, on: bool)
    ensures var e := EmphasisedFrom(pieces, on);
            EmphasisedFrom(pieces + [p], on) ==
            match p {
              case Plain(text) => e.(chars := e.chars + Emphasise(text, e.on))
              case EmStart => e.(on := true)
              case EmEnd => e.(on := false)
            }
  {
    if pieces == [] {
      assert [] + [p] == [p] && [p][1..] == [];
      assert p.Plain? ==> Emphasise(p.text, on) + [] == [] + Emphasise(p.text, on);
    } else {
      assert (pieces + [p])[1..] == pieces[1..] + [p];
      var next := if pieces[0].Plain? then on else pieces[0].EmStart?;
      EmphasisedFromSnoc(pieces[1..], p, next);
      if pieces[0].Plain? && p.Plain? {
        var rest := EmphasisedFrom(pieces[1..], on);
        Regroup(Emphasise(pieces[0].text, on), rest.chars, Emphasise(p.text, rest.on));
      }
    }
  }

  lemma EmphasisedSnoc(pieces: seq<Piece>, p: Piece)
    ensures var e := Emphasised(pieces);
            Emphasised(pieces + [p]) ==
            match p {
              case Plain(text) => e.(chars := e.chars + Emphasise(text, e.on))
              case EmStart => e.(on := true)
              case EmEnd => e.(on := false)
            }
  {
    EmphasisedFromSnoc(pieces, p, false);
  }

  /** What a browser shows of a teaser whose text has no tags of its own: each character, and whether it is
      emphasised. */
  function ReadEm(html: string, on: bool): seq<(char, bool)> {
    if html == "" then []
    else if "<em>" <= html then ReadEm(html[4..], true)
    else if "</em>" <= html then ReadEm(html[5..], false)
    else [(html[0], on)] + ReadEm(html[1..], on)
  }

  lemma {:induction false} PlainIsRead(text: string, html: string, on: bool)
    requires '<' !in text
    ensures ReadEm(text + html, on) == Emphasise(text, on) + ReadEm(html, on)
  {
    if text == "" {
      assert text + html == html;
    } else {
      assert (text + html)[1..] == text[1..] + html && (text + html)[0] == text[0];
      PlainIsRead(text[1..], html, on);
    }
  }

  lemma TagsAreRead(html: string, on: bool)
    ensures ReadEm("<em>" + html, on) == ReadEm(html, true)
    ensures ReadEm("</em>" + html, on) == ReadEm(html, false)
  {
    assert ("<em>" + html)[4..] == html && ("</em>" + html)[5..] == html;
    assert ("</em>" + html)[1] == '/';
  }

  /** The pieces are shown as they are emphasised, if their text is escaped. */
  lemma {:induction false} HtmlIsRead(pieces: seq<Piece>, on: bool)
    requires forall p <- pieces :: p.Plain? ==> '<' !in p.text
    ensures ReadEm(Html(pieces), on) == EmphasisedFrom(pieces, on).chars
  {
    if pieces != [] {
      assert pieces[0] in pieces;
      var next := if pieces[0].Plain? then on else pieces[0].EmStart?;
      HtmlIsRead(pieces[1..], next);
      if pieces[0].Plain? {
        PlainIsRead(pieces[0].text, Html(pieces[1..]), on);
      } else {
        TagsAreRead(Html(pieces[1..]), on);
      }
    }
  }

  lemma {:induction false} PlainIsEmphasised(pieces: seq<Piece>, on: bool)
    requires forall i :: 0 <= i < |EmphasisedFrom(pieces, on).chars| ==> EmphasisedFrom(pieces, on).chars[i].0 != '<'
    ensures forall p <- pieces :: p.Plain? ==> '<' !in p.text
  {
    if pieces != [] {
      var next := if pieces[0].Plain? then on else pieces[0].EmStart?;
      var rest, all := EmphasisedFrom(pieces[1..], next).chars, EmphasisedFrom(pieces, on).chars;
      var first := if pieces[0].Plain? then Emphasise(pieces[0].text, on) else [];
      assert all == first + rest;
      forall i | 0 <= i < |rest| ensures rest[i].0 != '<' {
        assert all[|first| + i] == rest[i];
      }
      forall i | 0 <= i < |first| ensures pieces[0].text[i] != '<' {
        assert all[i] == first[i] == (pieces[0].text[i], on);
      }
      PlainIsEmphasised(pieces[1..], next);
      assert pieces == [pieces[0]] + pieces[1..];
    }
  }

  predicate InTerm(ws: seq<Weighted>, at: nat) {
    exists w <- ws :: w.weight == TERM_WEIGHT && w.index <= at < w.index + |w.word|
  }

  /** The pieces are the text of `body` from `from` to `to`, emphasised exactly inside the search
      terms among `ws`. */
  ghost predicate Shows(pieces: seq<Piece>, body: string, ws: seq<Weighted>, from: nat, to: nat) {
    var e := Emphasised(pieces);
    && from <= to <= |body| && |e.chars| == to - from && !e.on
    && forall at :: from <= at < to ==> e.chars[at - from] == (body[at], InTerm(ws, at))
  }

  // The words of a window at or after `at` decide nothing before it.
  lemma InTermOfWindow(ws: seq<Weighted>, k: nat, at: nat, length: nat)
    requires InOrder(ws, length) && k < |ws|
    requires at < ws[k].index + |ws[k].word| && (k > 0 ==> ws[k - 1].index + |ws[k - 1].word| <= at)
    ensures InTerm(ws, at) <==> ws[k].weight == TERM_WEIGHT && ws[k].index <= at
  {
    forall i | 0 <= i < |ws| && i != k ensures !(ws[i].index <= at < ws[i].index + |ws[i].word|) {
      if i < k {
        OrderBefore(ws, i, k - 1, length);
      } else {
        OrderBefore(ws, k, i - 1, length);
      }
    }
    if ws[k].weight == TERM_WEIGHT && ws[k].index <= at {
      assert ws[k] in ws;
    }
  }

  lemma {:induction false} OrderBefore(ws: seq<Weighted>, i: nat, j: nat, length: nat)
    requires InOrder(ws, length) && i <= j < |ws|
    ensures ws[i].index + |ws[i].word| <= ws[j].index + |ws[j].word|
    ensures j + 1 < |ws| ==> ws[i].index + |ws[i].word| <= ws[j + 1].index
    decreases j
  {
    if i < j {
      OrderBefore(ws, i, j - 1, length);
    }
  }

  // One stretch of text, all of it emphasised or none of it.
  lemma ShowsMore(pieces: seq<Piece>, body: string, ws: seq<Weighted>, from: nat, mid: nat, to: nat, on: bool)
    requires from <= mid <= to <= |body|
    requires var e := Emphasised(pieces); |e.chars| == mid - from && e.on == on
    requires forall at :: from <= at < mid ==> Emphasised(pieces).chars[at - from] == (body[at], InTerm(ws, at))
    requires forall at :: mid <= at < to ==> InTerm(ws, at) == on
    ensures var e := Emphasised(pieces + [Plain(body[mid..to])]);
            && |e.chars| == to - from && e.on == on
            && forall at :: from <= at < to ==> e.chars[at - from] == (body[at], InTerm(ws, at))
  {
    EmphasisedSnoc(pieces, Plain(body[mid..to]));
  }

  // The text before a word of the window.
  method AddGap(body: string, ws: seq<Weighted>, k: nat, pieces: seq<Piece>, index: nat) returns (pieces': seq<Piece>)
    requires InOrder(ws, |body|) && k < |ws| && index <= ws[k].index
    requires index == if k == 0 then ws[0].index else ws[k - 1].index + |ws[k - 1].word|
    requires Shows(pieces, body, ws, ws[0].index, index)
    ensures Shows(pieces', body, ws, ws[0].index, ws[k].index)
  {
    pieces' := pieces;
    if index < ws[k].index {
      forall at | index <= at < ws[k].index ensures !InTerm(ws, at) {
        InTermOfWindow(ws, k, at, |body|);
      }
      ShowsMore(pieces, body, ws, ws[0].index, index, ws[k].index, false);
      pieces' := pieces + [Plain(body[index..ws[k].index])];
    }
  }

  lemma WordIsTerm(ws: seq<Weighted>, k: nat, length: nat)
    requires InOrder(ws, length) && k < |ws|
    ensures forall at :: ws[k].index <= at < ws[k].index + |ws[k].word| ==> InTerm(ws, at) == (ws[k].weight == TERM_WEIGHT)
  {
    forall at | ws[k].index <= at < ws[k].index + |ws[k].word| ensures InTerm(ws, at) == (ws[k].weight == TERM_WEIGHT) {
      InTermOfWindow(ws, k, at, length);
    }
  }

  // A word of the window.
  method AddWord(body: string, ws: seq<Weighted>, k: nat, pieces: seq<Piece>) returns (pieces': seq<Piece>)
    requires InOrder(ws, |body|) && k < |ws|
    requires Shows(pieces, body, ws, ws[0].index, ws[k].index)
    ensures Shows(pieces', body, ws, ws[0].index, ws[k].index + |ws[k].word|)
  {
    var w := ws[k];
    var end := w.index + |w.word|;
    WordIsTerm(ws, k, |body|);
    pieces' := pieces;
    if w.weight == TERM_WEIGHT {
      EmphasisedSnoc(pieces', EmStart);
      pieces' := pieces' + [EmStart];
    }
    ShowsMore(pieces', body, ws, ws[0].index, w.index, end, w.weight == TERM_WEIGHT);
    pieces' := pieces' + [Plain(body[w.index..end])];
    if w.weight == TERM_WEIGHT {
      EmphasisedSnoc(pieces', EmEnd);
      pieces' := pieces' + [EmEnd];
    }
  }

  /** `teaser_split`: the text of the window's words and of the gaps between them. */
  method Assemble(body: string, ws: seq<Weighted>) returns (pieces: seq<Piece>)
    requires ws != [] && InOrder(ws, |body|)
    ensures Shows(pieces, body, ws, ws[0].index, ws[|ws| - 1].index + |ws[|ws| - 1].word|)
  {
    pieces := [];
    var index := ws[0].index;
    for k := 0 to |ws|
      invariant index == if k == 0 then ws[0].index else ws[k - 1].index + |ws[k - 1].word|
      invariant Shows(pieces, body, ws, ws[0].index, index)
    {
      pieces := AddGap(body, ws, k, pieces, index);
      pieces := AddWord(body, ws, k, pieces);
      index := ws[k].index + |ws[k].word|;
    }
  }

  /** A teaser of an escaped body is shown as the text of its window, emphasised exactly inside the search
      terms. */
  lemma TeaserIsRead(pieces: seq<Piece>, body: string, ws: seq<Weighted>, from: nat, to: nat)
    requires Shows(pieces, body, ws, from, to) && '<' !in body
    ensures var shown := ReadEm(Html(pieces), false);
            && |shown| == to - from
            && forall at :: from <= at < to ==> shown[at - from] == (body[at], InTerm(ws, at))
  {
    var chars := Emphasised(pieces).chars;
    forall i | 0 <= i < |chars| ensures chars[i].0 != '<' {
      assert chars[from + i - from] == (body[from + i], InTerm(ws, from + i));
    }
    PlainIsEmphasised(pieces, false);
    HtmlIsRead(pieces, false);
  }

  // ---------- makeTeaser ----------

  function Lowered(lower: char -> char, body: string): string {
    seq(|body|, i requires 0 <= i < |body| => lower(body[i]))
  }

  datatype Result = WholeBody | Window(start: nat, size: nat, pieces: seq<Piece>)

  /** The teaser as a text. */
  function Shown(body: string, r: Result): string {
    match r
    case WholeBody => body
    case Window(_, _, pieces) => Html(pieces)
  }

  /** Of the windows of `size` words, `start` is the last one of maximal weight. */
  ghost predicate LastBest(ws: seq<Weighted>, start: nat, size: nat) {
    && start + size <= |ws|
    && (forall i :: 0 <= i <= |ws| - size ==> WindowSum(ws, i, size) <= WindowSum(ws, start, size))
    && (forall i :: start < i <= |ws| - size ==> WindowSum(ws, i, size) < WindowSum(ws, start, size))
  }

  ghost predicate ShowsWindow(pieces: seq<Piece>, body: string, window: seq<Weighted>) {
    window != [] &&
    Shows(pieces, body, window, window[0].index, window[|window| - 1].index + |window[|window| - 1].word|)
  }

  /** What is promised of a teaser: of the windows of the wanted number of words, it shows the last
      one of maximal weight, or the first one if no term was found, as it stands in the body. */
  ghost predicate IsTeaser(isTerm: string -> bool, lower: char -> char, body: string, count: nat, r: Result) {
    IsTeaserOf(Weighed(isTerm, Lowered(lower, body)), body, count, r)
  }

  ghost predicate IsTeaserOf(ws: seq<Weighted>, body: string, count: nat, r: Result) {
    match r
    case WholeBody => ws == []
    case Window(start, size, pieces) =>
      && ws != []
      && size == (if |ws| < count then |ws| else count)
      && start + size <= |ws|
      && (!AnyTerm(ws) ==> start == 0)
      && (size == 0 ==> start == 0 && pieces == [])
      && (size > 0 ==> ShowsWindow(pieces, body, ws[start..start + size]))
      && (size > 0 && AnyTerm(ws) ==> LastBest(ws, start, size))
  }

  lemma WindowInOrder(ws: seq<Weighted>, start: nat, size: nat, length: nat)
    requires InOrder(ws, length) && start + size <= |ws|
    ensures InOrder(ws[start..start + size], length)
  {
    var window := ws[start..start + size];
    forall i | 0 <= i < |window|
      ensures window[i].index + |window[i].word| <= length
      ensures i + 1 < |window| ==> window[i].index + |window[i].word| <= window[i + 1].index
    {
      assert window[i] == ws[start + i];
      assert i + 1 < |window| ==> window[i + 1] == ws[start + i + 1];
    }
  }

  // Some window weighs something, if windows hold any words at all.
  lemma SomeWindowWeighs(isTerm: string -> bool, text: string, size: nat)
    requires 0 < size <= |Weighed(isTerm, text)|
    ensures WindowSum(Weighed(isTerm, text), 0, size) > 0
  {
    SentencesPositive(isTerm, Split(text, ". "), 0);
  }

  lemma {:induction false} SumOfNothing(ws: seq<Weighted>, i: nat)
    requires i <= |ws|
    ensures WindowSum(ws, i, 0) == 0
  {
    assert ws[i..i + 0] == [];
  }

  method ChooseWindow(isTerm: string -> bool, ghost text: string, weighted: seq<Weighted>, size: nat, found: bool)
    returns (start: nat)
    requires weighted == Weighed(isTerm, text) && size <= |weighted|
    ensures start + size <= |weighted|
    ensures !found || size == 0 ==> start == 0
    ensures found && size > 0 ==> LastBest(weighted, start, size)
  {
    var sums := WindowWeights(weighted, size);
    start := 0;
    if found {
      start := BestWindow(sums);
    }
    if size == 0 {
      forall i | 0 <= i < |sums| ensures sums[i] == 0 {
        SumOfNothing(weighted, i);
      }
    } else {
      SomeWindowWeighs(isTerm, text, size);
      assert sums[0] > 0;
    }
  }

  // The choice of the window and its text.
  method ChooseTeaser(isTerm: string -> bool, body: string, ghost text: string, weighted: seq<Weighted>, found: bool, count: nat)
    returns (r: Result)
    requires |text| == |body| && weighted == Weighed(isTerm, text) && found == AnyTerm(weighted)
    ensures IsTeaserOf(weighted, body, count, r)
  {
    if |weighted| == 0 {
      return WholeBody;
    }
    var size := if |weighted| < count then |weighted| else count;
    var start := ChooseWindow(isTerm, text, weighted, size, found);
    if size == 0 {
      return Window(start, size, []);
    }
    var pieces := ShowWindow(isTerm, body, text, weighted, start, size);
    r := Window(start, size, pieces);
  }

  method ShowWindow(isTerm: string -> bool, body: string, ghost text: string, weighted: seq<Weighted>, start: nat, size: nat)
    returns (pieces: seq<Piece>)
    requires |text| == |body| && weighted == Weighed(isTerm, text) && size > 0 && start + size <= |weighted|
    ensures ShowsWindow(pieces, body, weighted[start..start + size])
  {
    WeighedInOrder(isTerm, text);
    WindowInOrder(weighted, start, size, |body|);
    pieces := Assemble(body, weighted[start..start + size]);
  }

  method MakeTeaser(isTerm: string -> bool, lower: char -> char, body: string, count: nat) returns (teaser: string)
    ensures exists r :: IsTeaser(isTerm, lower, body, count, r) && teaser == Shown(body, r)
  {
    var text := Lowered(lower, body);
    var weighted, found := Weigh(isTerm, text);
    var r := ChooseTeaser(isTerm, body, text, weighted, found, count);
    teaser := Shown(body, r);
    assert IsTeaser(isTerm, lower, body, count, r);
  }
}
