/** Rules and a text for which the search of a mode's matcher resumes at the wrong rule. */
module ResumableRuns {
  import opened Wrappers
  import opened RegexPatterns
  import opened RuleMatching
  import opened ResumableRules

  // ---------- Runs on a text ----------

  /** An input in which single letters match themselves. */
  function Text(text: string): Engine {
    Engine(|text|, (token: Token, pos: nat) => if pos < |text| && token == Plain(text[pos]) then Some(pos + 1) else None,
           (span: Span, pos: nat) => None)
  }

  /** The rules from `k` on, searched from a position: rule `j` is found. */
  predicate Finds(e: Engine, ps: seq<Pattern>, k: nat, from: nat, j: nat) {
    k <= j < |ps| && RuleMatch(e, ps[k..], from).Some? && RuleMatch(e, ps[k..], from).value.rule == j - k
  }

  /** The events of a run are what the searches find, each from its own position of the text. */
  predicate Happens(e: Engine, ps: seq<Pattern>, r: Resume, events: seq<Event>, froms: seq<nat>)
    requires |froms| == |events| && |r.positions| == |ps|
    decreases |events|
  {
    events == [] ||
    ((events[0].Match? ==> Finds(e, ps, r.regexIndex, froms[0], events[0].rule)) &&
     Happens(e, ps, After(r, events[0], |ps|), events[1..], froms[1..]))
  }

  lemma {:induction false} HappensIsPossible(e: Engine, ps: seq<Pattern>, r: Resume, events: seq<Event>, froms: seq<nat>)
    requires |froms| == |events| && |r.positions| == |ps| && Happens(e, ps, r, events, froms)
    ensures Possible(r, events, |ps|)
    decreases |events|
  {
    if events != [] {
      HappensIsPossible(e, ps, After(r, events[0], |ps|), events[1..], froms[1..]);
    }
  }

  /** A run given state by state. */
  predicate StepsAt(e: Engine, ps: seq<Pattern>, states: seq<Resume>, events: seq<Event>, froms: seq<nat>, i: nat)
    requires |states| == |events| + 1 && |froms| == |events| && i < |events|
  {
    && |states[i].positions| == |ps|
    && (events[i].Match? ==> Finds(e, ps, states[i].regexIndex, froms[i], events[i].rule))
    && After(states[i], events[i], |ps|) == states[i + 1]
  }

  lemma {:induction false} RunsTo(e: Engine, ps: seq<Pattern>, states: seq<Resume>, events: seq<Event>, froms: seq<nat>)
    requires |states| == |events| + 1 && |froms| == |events| && |states[0].positions| == |ps|
    requires forall i :: 0 <= i < |events| ==> StepsAt(e, ps, states, events, froms, i)
    ensures Happens(e, ps, states[0], events, froms) && Possible(states[0], events, |ps|)
    ensures AfterAll(states[0], events, |ps|) == states[|events|]
    decreases |events|
  {
    if events != [] {
      assert StepsAt(e, ps, states, events, froms, 0);
      forall i | 0 <= i < |events[1..]| ensures StepsAt(e, ps, states[1..], events[1..], froms[1..], i) {
        assert StepsAt(e, ps, states, events, froms, i + 1);
      }
      RunsTo(e, ps, states[1..], events[1..], froms[1..]);
      HappensIsPossible(e, ps, states[0], events, froms);
    }
  }

  // ---------- Rules of single letters ----------

  function Letter(c: char): Pattern {
    Atom(Plain(c))
  }

  function Letters(c: char, d: char): Pattern {
    Either(Letter(c), Letter(d))
  }

  lemma LetterHits(text: string, c: char, pos: nat)
    ensures Hits(Text(text), Letter(c), pos) != [] <==> pos < |text| && text[pos] == c
  {
    assert Hits(Text(text), Letter(c), pos) == Moved(State(pos, Nothing), Text(text).accept(Plain(c), pos));
  }

  lemma LettersHits(text: string, c: char, d: char, pos: nat)
    ensures Hits(Text(text), Letters(c, d), pos) != [] <==> pos < |text| && (text[pos] == c || text[pos] == d)
  {
    LetterHits(text, c, pos);
    LetterHits(text, d, pos);
    assert Hits(Text(text), Letters(c, d), pos) == Hits(Text(text), Letter(c), pos) + Hits(Text(text), Letter(d), pos);
  }

  /** The first of the rules that matches at a position is found from there. */
  lemma {:induction false} FirstIsFound(e: Engine, ps: seq<Pattern>, k: nat, from: nat, j: nat)
    requires k <= j < |ps| && from <= e.length && Matches(e, ps, j, from)
    requires forall i :: k <= i < j ==> !Matches(e, ps, i, from)
    ensures Finds(e, ps, k, from, j)
    decreases j - k
  {
    assert ps[k..][0] == ps[k] && ps[k..][1..] == ps[k + 1..];
    if k < j {
      assert !Matches(e, ps, k, from);
      FirstIsFound(e, ps, k + 1, from, j);
      FoundHere(e, ps, k + 1, from, j);
      FoundHere(e, ps, k, from, j);
    }
  }

  // Rule `j` is found at the very position from which the rules are searched.
  lemma {:induction false} FoundHere(e: Engine, ps: seq<Pattern>, k: nat, from: nat, j: nat)
    requires k <= j < |ps| && from <= e.length && Hits(e, ps[j], from) != []
    ensures RuleAt(e, ps[k..], from).Some? && RuleAt(e, ps[k..], from) == RuleMatch(e, ps[k..], from)
    decreases j - k
  {
    assert ps[k..][0] == ps[k] && ps[k..][1..] == ps[k + 1..];
    if k < j {
      FoundHere(e, ps, k + 1, from, j);
    }
  }

  /** Rule `i` matches at a position. */
  predicate Matches(e: Engine, ps: seq<Pattern>, i: nat, pos: nat)
    requires i < |ps|
  {
    Hits(e, ps[i], pos) != []
  }

  const TEXT := "xy"

  // ---------- A rule is tried again ----------

  const AGAIN_RULES := [Letter('x'), Letters('x', 'y'), Letter('z'), Letter('z'), Letter('z')]

  // At the `x` the first rule is refused and the second accepted; at the `y` the second is refused.
  const AGAIN := [Match(0), Match(1), ConsiderAll, Match(1)]
  const AGAIN_FROMS := [0, 0, 1, 1]

  const AGAIN_STATES := [
    Resume([], [0, 0, 0, 0, 0], 0), Resume([0], [0, 1, 2, 3, 4], 1), Resume([0, 1], [0, 0, 1, 2, 3], 2),
    Resume([0, 1], [0, 0, 1, 2, 3], 0), Resume([0, 1], [0, 0, 1, 2, 3], 1)]

  lemma AgainMatches()
    ensures Matches(Text(TEXT), AGAIN_RULES, 0, 0) && !Matches(Text(TEXT), AGAIN_RULES, 0, 1)
    ensures Matches(Text(TEXT), AGAIN_RULES, 1, 0) && Matches(Text(TEXT), AGAIN_RULES, 1, 1)
  {
    LetterHits(TEXT, 'x', 0);
    LetterHits(TEXT, 'x', 1);
    LettersHits(TEXT, 'x', 'y', 0);
    LettersHits(TEXT, 'x', 'y', 1);
  }

  lemma AgainFinds(e: Engine, ps: seq<Pattern>)
    requires |ps| == 5 && e.length == 2
    requires Matches(e, ps, 0, 0) && !Matches(e, ps, 0, 1) && Matches(e, ps, 1, 0) && Matches(e, ps, 1, 1)
    ensures Finds(e, ps, 0, 0, 0) && Finds(e, ps, 1, 0, 1) && Finds(e, ps, 0, 1, 1)
  {
    FirstIsFound(e, ps, 0, 0, 0);
    FirstIsFound(e, ps, 1, 0, 1);
    FirstIsFound(e, ps, 0, 1, 1);
  }

  lemma AgainSteps(e: Engine, ps: seq<Pattern>)
    requires |ps| == 5 && Finds(e, ps, 0, 0, 0) && Finds(e, ps, 1, 0, 1) && Finds(e, ps, 0, 1, 1)
    ensures forall i :: 0 <= i < 4 ==> StepsAt(e, ps, AGAIN_STATES, AGAIN, AGAIN_FROMS, i)
  {
    assert Numbered([0, 0, 0, 0, 0], 0) == [0, 1, 2, 3, 4];
    assert Numbered([0, 1, 2, 3, 4], 1) == [0, 0, 1, 2, 3];
    assert StepsAt(e, ps, AGAIN_STATES, AGAIN, AGAIN_FROMS, 0);
    assert StepsAt(e, ps, AGAIN_STATES, AGAIN, AGAIN_FROMS, 1);
    assert StepsAt(e, ps, AGAIN_STATES, AGAIN, AGAIN_FROMS, 2);
    assert StepsAt(e, ps, AGAIN_STATES, AGAIN, AGAIN_FROMS, 3);
  }

  lemma AgainRuns(e: Engine, ps: seq<Pattern>)
    requires |ps| == 5 && e.length == 2
    requires Matches(e, ps, 0, 0) && !Matches(e, ps, 0, 1) && Matches(e, ps, 1, 0) && Matches(e, ps, 1, 1)
    ensures Happens(e, ps, Initial(5), AGAIN, AGAIN_FROMS) && Possible(Initial(5), AGAIN, 5)
    ensures AfterAll(Initial(5), AGAIN, 5) == AGAIN_STATES[4]
  {
    assert Initial(5) == AGAIN_STATES[0];
    AgainFinds(e, ps);
    AgainSteps(e, ps);
    RunsTo(e, ps, AGAIN_STATES, AGAIN, AGAIN_FROMS);
  }

  /** The search resumes at the rule that was just refused. */
  lemma TriesAgain()
    ensures Happens(Text(TEXT), AGAIN_RULES, Initial(5), AGAIN, AGAIN_FROMS) && Possible(Initial(5), AGAIN, 5)
    ensures AGAIN[3] == Match(1) && AfterAll(Initial(5), AGAIN, 5).regexIndex == 1
  {
    AgainMatches();
    AgainRuns(Text(TEXT), AGAIN_RULES);
  }

  // ---------- A rule is passed over ----------

  const OVER_RULES := [Letter('y'), Letters('x', 'y'), Letters('x', 'y'), Letter('y'), Letter('z')]

  // At the `x` the second rule is refused and the third accepted; at the `y` the first three are refused.
  const OVER := [Match(1), Match(2), ConsiderAll, Match(0), Match(1), Match(2)]
  const OVER_FROMS := [0, 0, 1, 1, 1, 1]

  const OVER_STATES := [
    Resume([], [0, 0, 0, 0, 0], 0), Resume([0], [0, 1, 2, 3, 4], 2), Resume([0, 2], [0, 1, 0, 1, 2], 3),
    Resume([0, 2], [0, 1, 0, 1, 2], 0), Resume([0, 2], [0, 1, 0, 1, 2], 1),
    Resume([0, 2, 1], [0, 0, 1, 2, 3], 2), Resume([0, 2, 1], [0, 0, 1, 2, 3], 4)]

  lemma OverMatches()
    ensures !Matches(Text(TEXT), OVER_RULES, 0, 0) && Matches(Text(TEXT), OVER_RULES, 0, 1)
    ensures Matches(Text(TEXT), OVER_RULES, 1, 0) && Matches(Text(TEXT), OVER_RULES, 1, 1)
    ensures Matches(Text(TEXT), OVER_RULES, 2, 0) && Matches(Text(TEXT), OVER_RULES, 2, 1)
    ensures Matches(Text(TEXT), OVER_RULES, 3, 1)
  {
    LetterHits(TEXT, 'y', 0);
    LetterHits(TEXT, 'y', 1);
    LettersHits(TEXT, 'x', 'y', 0);
    LettersHits(TEXT, 'x', 'y', 1);
  }

  lemma OverFinds(e: Engine, ps: seq<Pattern>)
    requires |ps| == 5 && e.length == 2
    requires !Matches(e, ps, 0, 0) && Matches(e, ps, 0, 1) && Matches(e, ps, 1, 0) && Matches(e, ps, 1, 1)
    requires Matches(e, ps, 2, 0) && Matches(e, ps, 2, 1)
    ensures Finds(e, ps, 0, 0, 1) && Finds(e, ps, 2, 0, 2)
    ensures Finds(e, ps, 0, 1, 0) && Finds(e, ps, 1, 1, 1) && Finds(e, ps, 2, 1, 2)
  {
    FirstIsFound(e, ps, 0, 0, 1);
    FirstIsFound(e, ps, 2, 0, 2);
    FirstIsFound(e, ps, 0, 1, 0);
    FirstIsFound(e, ps, 1, 1, 1);
    FirstIsFound(e, ps, 2, 1, 2);
  }

  lemma OverFirst(e: Engine, ps: seq<Pattern>)
    requires |ps| == 5 && Finds(e, ps, 0, 0, 1) && Finds(e, ps, 2, 0, 2)
    ensures forall i :: 0 <= i < 3 ==> StepsAt(e, ps, OVER_STATES, OVER, OVER_FROMS, i)
  {
    assert Numbered([0, 0, 0, 0, 0], 0) == [0, 1, 2, 3, 4];
    assert Numbered([0, 1, 2, 3, 4], 2) == [0, 1, 0, 1, 2];
    assert StepsAt(e, ps, OVER_STATES, OVER, OVER_FROMS, 0);
    assert StepsAt(e, ps, OVER_STATES, OVER, OVER_FROMS, 1);
    assert StepsAt(e, ps, OVER_STATES, OVER, OVER_FROMS, 2);
  }

  lemma OverLast(e: Engine, ps: seq<Pattern>)
    requires |ps| == 5 && Finds(e, ps, 0, 1, 0) && Finds(e, ps, 1, 1, 1) && Finds(e, ps, 2, 1, 2)
    ensures forall i :: 3 <= i < 6 ==> StepsAt(e, ps, OVER_STATES, OVER, OVER_FROMS, i)
  {
    assert Numbered([0, 1, 0, 1, 2], 1) == [0, 0, 1, 2, 3];
    assert StepsAt(e, ps, OVER_STATES, OVER, OVER_FROMS, 3);
    assert StepsAt(e, ps, OVER_STATES, OVER, OVER_FROMS, 4);
    assert StepsAt(e, ps, OVER_STATES, OVER, OVER_FROMS, 5);
  }

  lemma OverRuns(e: Engine, ps: seq<Pattern>)
    requires |ps| == 5 && e.length == 2
    requires !Matches(e, ps, 0, 0) && Matches(e, ps, 0, 1) && Matches(e, ps, 1, 0) && Matches(e, ps, 1, 1)
    requires Matches(e, ps, 2, 0) && Matches(e, ps, 2, 1)
    ensures Happens(e, ps, Initial(5), OVER, OVER_FROMS) && Possible(Initial(5), OVER, 5)
    ensures AfterAll(Initial(5), OVER, 5) == OVER_STATES[6]
  {
    assert Initial(5) == OVER_STATES[0];
    OverFinds(e, ps);
    OverFirst(e, ps);
    OverLast(e, ps);
    RunsTo(e, ps, OVER_STATES, OVER, OVER_FROMS);
  }

  /** The search resumes at the last rule: the fourth, which matches at the same place, is never tried. */
  lemma PassesOver()
    ensures Happens(Text(TEXT), OVER_RULES, Initial(5), OVER, OVER_FROMS) && Possible(Initial(5), OVER, 5)
    ensures OVER[5] == Match(2) && AfterAll(Initial(5), OVER, 5).regexIndex == 4
    ensures Matches(Text(TEXT), OVER_RULES, 3, OVER_FROMS[5])
  {
    OverMatches();
    OverRuns(Text(TEXT), OVER_RULES);
  }
}
