/**
 The matcher of a mode: it can resume a search after the rule that matched last, by joining only the
 rules after it. The joined matchers are cached by their first rule, and every one of them writes the
 positions of its rules into the same rule objects. So a cached matcher may read positions that a
 later one has written, and the search resumes at the wrong rule: `ResumesAfterMatch` says exactly when, and
 `ResumableRuns` shows that it happens.
 */
module ResumableRules {
  import opened Wrappers
  import opened RegexPatterns
  import opened RuleMatching

  /** The first rules of the matchers built so far, the positions the rules now hold, and the rule
      from which to search. */
  datatype Resume = Resume(order: seq<nat>, positions: seq<nat>, regexIndex: nat)

  function Initial(rules: nat): Resume {
    Resume([], seq(rules, _ => 0), 0)
  }

  /** The positions once a matcher for the rules from `k` on is there. */
  function Numbered(positions: seq<nat>, k: nat): seq<nat> {
    seq(|positions|, j requires 0 <= j < |positions| => if k <= j then j - k else positions[j])
  }

  /** `getMatcher` */
  function Requested(r: Resume, k: nat): Resume {
    if k in r.order then r else r.(order := r.order + [k], positions := Numbered(r.positions, k))
  }

  function Wrap(next: nat, count: nat): nat {
    if next == count then 0 else next
  }

  /** The matcher after its search has found rule `j`; `count` is the number of begin rules. */
  function Matched(r: Resume, j: nat, count: nat): Resume
    requires j < |r.positions|
  {
    MovedPast(Requested(r, r.regexIndex), j, count)
  }

  /** The search resumes after the place that the rule holds. */
  function MovedPast(r: Resume, j: nat, count: nat): Resume
    requires j < |r.positions|
  {
    r.(regexIndex := Wrap(r.regexIndex + r.positions[j] + 1, count))
  }

  datatype Event = ConsiderAll | Match(rule: nat)

  /** A search finds a rule from `regexIndex` on. */
  predicate Possible(r: Resume, events: seq<Event>, count: nat)
    decreases |events|
  {
    events == [] ||
    ((events[0].Match? ==> r.regexIndex <= events[0].rule < |r.positions|) && Possible(After(r, events[0], count), events[1..], count))
  }

  function After(r: Resume, e: Event, count: nat): Resume
    requires e.Match? ==> e.rule < |r.positions|
  {
    match e
    case ConsiderAll => r.(regexIndex := 0)
    case Match(j) => Matched(r, j, count)
  }

  function AfterAll(r: Resume, events: seq<Event>, count: nat): Resume
    requires Possible(r, events, count)
    decreases |events|
  {
    if events == [] then r else AfterAll(After(r, events[0], count), events[1..], count)
  }

  // ---------- The positions ----------

  /** The first rule of the latest matcher that contains rule `j`. */
  function Latest(order: seq<nat>, j: nat): Option<nat> {
    if order == [] then None
    else if order[|order| - 1] <= j then Some(order[|order| - 1])
    else Latest(order[..|order| - 1], j)
  }

  lemma LatestSnoc(order: seq<nat>, k: nat, j: nat)
    ensures Latest(order + [k], j) == if k <= j then Some(k) else Latest(order, j)
  {
    assert (order + [k])[..|order|] == order;
  }

  lemma {:induction false} LatestExists(order: seq<nat>, k: nat, j: nat)
    requires k in order && k <= j
    ensures Latest(order, j).Some?
  {
    var last := order[|order| - 1];
    if last > j {
      assert order == order[..|order| - 1] + [last];
      LatestExists(order[..|order| - 1], k, j);
    }
  }

  lemma {:induction false} LatestContains(order: seq<nat>, j: nat)
    requires Latest(order, j).Some?
    ensures Latest(order, j).value <= j && Latest(order, j).value in order
  {
    if order[|order| - 1] > j {
      LatestContains(order[..|order| - 1], j);
    }
  }

  /** Every rule holds its position in the latest matcher that contains it. */
  ghost predicate Numbering(r: Resume) {
    forall j :: 0 <= j < |r.positions| && Latest(r.order, j).Some? ==> r.positions[j] == j - Latest(r.order, j).value
  }

  lemma RequestKeeps(r: Resume, k: nat)
    requires Numbering(r)
    ensures Numbering(Requested(r, k)) && |Requested(r, k).positions| == |r.positions| && k in Requested(r, k).order
  {
    if k !in r.order {
      forall j: nat | j < |r.positions| ensures Latest(r.order + [k], j) == if k <= j then Some(k) else Latest(r.order, j) {
        LatestSnoc(r.order, k, j);
      }
    }
  }

  lemma {:induction false} RunKeeps(r: Resume, events: seq<Event>, count: nat)
    requires Numbering(r) && Possible(r, events, count)
    ensures Numbering(AfterAll(r, events, count)) && |AfterAll(r, events, count).positions| == |r.positions|
    decreases |events|
  {
    if events != [] {
      RequestKeeps(r, r.regexIndex);
      RunKeeps(After(r, events[0], count), events[1..], count);
    }
  }

  // ---------- Where the search resumes ----------

  /** After a match of rule `j`, in any state of any run (`EveryRunIsNumbered`): the search resumes
      after `j` exactly if the latest matcher that contains `j` is the one that searched. If a later one
      has, `j` is tried again; if one with more rules has, rules after `j` are passed over. */
  lemma ResumesAfterMatch(r: Resume, j: nat, count: nat)
    requires Numbering(r) && r.regexIndex <= j < |r.positions|
    ensures var latest := Latest(Requested(r, r.regexIndex).order, j);
            && latest.Some?
            && (Matched(r, j, count).regexIndex == Wrap(j + 1, count) <==> latest.value == r.regexIndex)
            && (latest.value > r.regexIndex ==>
                  exists next :: r.regexIndex < next <= j && Matched(r, j, count).regexIndex == Wrap(next, count))
            && (latest.value < r.regexIndex ==>
                  exists next :: j + 1 < next && Matched(r, j, count).regexIndex == Wrap(next, count))
  {
    var k := r.regexIndex;
    RequestKeeps(r, k);
    var r' := Requested(r, k);
    LatestExists(r'.order, k, j);
    LatestContains(r'.order, j);
    var next := k + r'.positions[j] + 1;
    assert r'.positions[j] == j - Latest(r'.order, j).value;
    assert Matched(r, j, count).regexIndex == Wrap(next, count);
  }

  lemma EveryRunIsNumbered(rules: nat, events: seq<Event>, count: nat)
    requires Possible(Initial(rules), events, count)
    ensures Numbering(AfterAll(Initial(rules), events, count))
    ensures |AfterAll(Initial(rules), events, count).positions| == rules
  {
    RunKeeps(Initial(rules), events, count);
  }

  /** A matcher that is new resumes correctly. */
  lemma NewMatcherResumes(r: Resume, j: nat, count: nat)
    requires Numbering(r) && r.regexIndex <= j < |r.positions| && r.regexIndex !in r.order
    ensures Matched(r, j, count).regexIndex == Wrap(j + 1, count)
  {
    ResumesAfterMatch(r, j, count);
    LatestSnoc(r.order, r.regexIndex, j);
  }

  // ---------- The class ----------

  function Positions(rules: seq<Rule>): seq<nat>
    reads rules
  {
    seq(|rules|, i requires 0 <= i < |rules| reads rules => rules[i].position)
  }

  // The rules from the `from`th on.
  function Slice(rules: seq<Rule>, from: nat): seq<Rule> {
    if from <= |rules| then rules[from..] else []
  }

  /** The positions once the rules from `k` up to `j` have their new ones. */
  function NumberedTo(positions: seq<nat>, k: nat, j: nat): seq<nat> {
    seq(|positions|, i requires 0 <= i < |positions| => if k <= i < j then i - k else positions[i])
  }

  lemma NumberedSteps(positions: seq<nat>, k: nat, j: nat)
    requires k <= j
    ensures NumberedTo(positions, k, k) == positions
    ensures j < |positions| ==> NumberedTo(positions, k, j)[j := j - k] == NumberedTo(positions, k, j + 1)
    ensures j >= |positions| ==> NumberedTo(positions, k, j) == Numbered(positions, k)
  {
  }

  // The place of the rule that is found among those from the `k`th on.
  lemma PlaceOf(e: Engine, rules: seq<Rule>, k: nat, from: nat, rule: Option<Rule>, r: Option<Report>) returns (j: nat)
    requires Answers(e, Slice(rules, k), from, rule, r)
    ensures rule.Some? ==> k <= j < |rules| && rules[j] == rule.value
  {
    var hit := RuleMatch(e, Patterns(Slice(rules, k)), from);
    assert IsMatch(e, Patterns(Slice(rules, k)), from, hit);
    j := if hit.Some? then k + hit.value.rule else 0;
  }

  class ResumableMultiRegex {
    var rules: seq<Rule>
    var multiRegexes: map<nat, MultiRegex>
    ghost var order: seq<nat>
    var count: nat
    var lastIndex: nat
    var regexIndex: nat

    ghost predicate Distinct()
      reads this`rules
    {
      forall i, j :: 0 <= i < j < |rules| ==> rules[i] != rules[j]
    }

    /** A compiled matcher for the rules from `k` on. */
    ghost predicate Serves(matcher: MultiRegex, k: nat)
      reads `rules, matcher`regexes, matcher`matchIndexes, matcher`matchAt, matcher`position, matcher`matcher
    {
      matcher.Valid() && matcher.Compiled() && matcher.regexes == Slice(rules, k)
    }

    /** The rule objects differ, and the cached matchers are those asked for, each for its rules. */
    ghost predicate Valid()
      reads `rules, `multiRegexes, `order, multiRegexes.Values
    {
      && Distinct()
      && (forall k :: k in multiRegexes <==> k in order)
      && (forall k :: k in multiRegexes ==> Serves(multiRegexes[k], k))
    }

    ghost function View(): Resume
      reads this, rules
    {
      Resume(order, Positions(rules), regexIndex)
    }

    constructor ()
      ensures Valid() && rules == [] && count == 0 && View() == Initial(0)
    {
      rules, multiRegexes, order, count, lastIndex, regexIndex := [], map[], [], 0, 0, 0;
    }

    // Before the first search.
    method AddRule(p: Pattern, begin: bool)
      requires Valid() && order == []
      modifies this`rules, this`count
      ensures Valid() && order == [] && |rules| == |old(rules)| + 1 && fresh(rules[|rules| - 1])
      ensures rules[..|rules| - 1] == old(rules) && rules[|rules| - 1].pattern == p
      ensures View() == old(View()).(positions := old(Positions(rules)) + [0])
      ensures count == old(count) + if begin then 1 else 0
    {
      var rule := new Rule(p);
      rules := rules + [rule];
      if begin {
        count := count + 1;
      }
      assert Positions(rules) == old(Positions(rules)) + [0];
    }

    method ConsiderAll()
      requires Valid()
      modifies this`regexIndex
      ensures Valid() && View() == After(old(View()), Event.ConsiderAll, count)
    {
      regexIndex := 0;
    }

    /** The rules from `k` to `j` are in the matcher, and hold their positions there. */
    ghost predicate JoinedTo(matcher: MultiRegex, before: seq<nat>, k: nat, j: nat)
      reads this`rules, rules, matcher
    {
      && matcher.Valid() && matcher.regexes == (if k <= j <= |rules| then rules[k..j] else [])
      && Positions(rules) == NumberedTo(before, k, j)
    }

    // One rule of the loop.
    method AddTo(matcher: MultiRegex, ghost before: seq<nat>, k: nat, j: nat)
      requires Distinct() && k <= j < |rules| == |before| && JoinedTo(matcher, before, k, j)
      modifies matcher, rules[j]
      ensures JoinedTo(matcher, before, k, j + 1)
    {
      ghost var positions := Positions(rules);
      matcher.AddRule(rules[j]);
      NumberedSteps(before, k, j);
      assert Positions(rules) == positions[j := j - k];
      assert rules[k..j] + [rules[j]] == rules[k..j + 1];
    }

    lemma JoinedAll(matcher: MultiRegex, before: seq<nat>, k: nat, j: nat)
      requires JoinedTo(matcher, before, k, j) && |before| == |rules| && k <= j && (j == |rules| || j == k > |rules|)
      ensures Positions(rules) == Numbered(before, k) && matcher.regexes == Slice(rules, k)
    {
      NumberedSteps(before, k, j);
    }

    // The loop of `getMatcher`: every rule gets its position in the new matcher.
    method JoinFrom(k: nat) returns (matcher: MultiRegex)
      requires Distinct()
      modifies rules
      ensures Positions(rules) == Numbered(old(Positions(rules)), k)
      ensures fresh(matcher) && Serves(matcher, k)
    {
      ghost var before := Positions(rules);
      matcher := new MultiRegex();
      var j := k;
      NumberedSteps(before, k, k);
      while j < |rules|
        invariant k <= j && (j <= |rules| || j == k)
        invariant fresh(matcher) && JoinedTo(matcher, before, k, j)
      {
        AddTo(matcher, before, k, j);
        j := j + 1;
      }
      JoinedAll(matcher, before, k, j);
      matcher.Compile();
    }

    method GetMatcher(k: nat) returns (matcher: MultiRegex)
      requires Valid()
      modifies this`multiRegexes, this`order, rules
      ensures Valid() && View() == Requested(old(View()), k)
      ensures k in multiRegexes && matcher == multiRegexes[k]
      ensures fresh(matcher) || matcher in old(multiRegexes.Values)
    {
      if k in multiRegexes {
        return multiRegexes[k];
      }
      matcher := JoinFrom(k);
      Cache(k, matcher);
    }

    method Cache(k: nat, matcher: MultiRegex)
      requires Valid() && k !in multiRegexes && Serves(matcher, k)
      modifies this`multiRegexes, this`order
      ensures Valid() && multiRegexes == old(multiRegexes)[k := matcher] && order == old(order) + [k]
    {
      multiRegexes := multiRegexes[k := matcher];
      order := order + [k];
    }

    // A cached matcher searches.
    method SearchWith(matcher: MultiRegex, ghost k: nat, e: Engine) returns (rule: Option<Rule>, r: Option<Report>)
      requires Sound(e) && Valid() && k in multiRegexes && multiRegexes[k] == matcher
      modifies matcher`lastIndex
      ensures Valid() && View() == old(View())
      ensures Answers(e, Slice(rules, k), lastIndex, rule, r)
    {
      SetLastIndex(matcher, k);
      rule, r := matcher.Exec(e);
    }

    method SetLastIndex(matcher: MultiRegex, ghost k: nat)
      requires Valid() && k in multiRegexes && multiRegexes[k] == matcher
      modifies matcher`lastIndex
      ensures Valid() && View() == old(View()) && matcher.lastIndex == lastIndex && Serves(matcher, k)
    {
      matcher.lastIndex := lastIndex;
    }

    // The matcher for the rules from `k` on searches.
    method Search(k: nat, e: Engine) returns (rule: Option<Rule>, r: Option<Report>)
      requires Sound(e) && Valid()
      modifies this`multiRegexes, this`order, rules, multiRegexes.Values
      ensures Valid() && View() == Requested(old(View()), k)
      ensures Answers(e, Slice(rules, k), lastIndex, rule, r)
    {
      var matcher := GetMatcher(k);
      rule, r := SearchWith(matcher, k, e);
    }

    // The matcher moves on past the rule that was found, at place `j`.
    method MoveOn(e: Engine, rule: Option<Rule>, ghost r: Option<Report>, ghost k: nat) returns (ghost j: nat)
      requires Valid() && Answers(e, Slice(rules, k), lastIndex, rule, r)
      modifies this`regexIndex
      ensures Valid()
      ensures if rule.None? then View() == old(View())
              else j < |rules| && rules[j] == rule.value && View() == MovedPast(old(View()), j, count)
    {
      j := PlaceOf(e, rules, k, lastIndex, rule, r);
      if rule.Some? {
        Advance(rule.value, j);
      }
    }

    /** The first rule that matches leftmost, of those from `regexIndex` on; `j` is its place. */
    method Exec(e: Engine) returns (rule: Option<Rule>, r: Option<Report>, ghost j: nat)
      requires Sound(e) && Valid()
      modifies this`multiRegexes, this`order, this`regexIndex, rules, multiRegexes.Values
      ensures Valid()
      ensures Answers(e, Slice(rules, old(regexIndex)), lastIndex, rule, r)
      ensures if rule.None? then View() == Requested(old(View()), old(regexIndex))
              else j < |rules| && rules[j] == rule.value && View() == Matched(old(View()), j, count)
    {
      rule, r := Search(regexIndex, e);
      j := MoveOn(e, rule, r, regexIndex);
    }

    // `regexIndex += position + 1`, or 0 after the last begin rule
    method Advance(rule: Rule, ghost j: nat)
      requires Valid() && j < |rules| && rules[j] == rule
      modifies this`regexIndex
      ensures Valid() && View() == MovedPast(old(View()), j, count)
    {
      regexIndex := regexIndex + rule.position + 1;
      if regexIndex == count {
        regexIndex := 0;
      }
    }
  }
}
