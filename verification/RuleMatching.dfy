/**
 Searching with joined rules: what the class around the joined pattern finds is the leftmost match of
 any rule, of the first rule that matches there, with that rule's own groups.
 */
module RuleMatching {
  import opened Wrappers
  import opened RegexPatterns

  // ---------- Searching ----------

  /** The ways in which a pattern matches at a position. */
  function Hits(e: Engine, p: Pattern, pos: nat): seq<State> {
    Outcomes(e, p, 0, State(pos, Nothing))
  }

  /** The leftmost match from a position on, with the state at its end. */
  function FirstMatch(e: Engine, p: Pattern, from: nat): Option<(nat, State)>
    decreases Left(e, from) + if from <= e.length then 1 else 0
  {
    if from > e.length then None
    else if Hits(e, p, from) != [] then Some((from, Hits(e, p, from)[0]))
    else FirstMatch(e, p, from + 1)
  }

  /** What `RegExp.exec` returns: the whole match and every group, undefined where it did not capture. */
  function MatchArray(p: Pattern, pos: nat, st: State): seq<Option<Span>> {
    [Some(Span(pos, st.pos))] + seq(Groups(p), k requires 0 <= k < Groups(p) => Lookup(st.caps, k + 1))
  }

  /** A match of a rule on its own. */
  datatype Hit = Hit(rule: nat, pos: nat, state: State)

  /** The first rule that matches at a position. */
  function RuleAt(e: Engine, ps: seq<Pattern>, pos: nat): (hit: Option<Hit>)
    ensures hit.Some? ==> hit.value.rule < |ps|
  {
    if ps == [] then None
    else if Hits(e, ps[0], pos) != [] then Some(Hit(0, pos, Hits(e, ps[0], pos)[0]))
    else
      var hit := RuleAt(e, ps[1..], pos);
      if hit.Some? then Some(hit.value.(rule := hit.value.rule + 1)) else None
  }

  /** Trying the rules one after the other at each position. */
  function RuleMatch(e: Engine, ps: seq<Pattern>, from: nat): (hit: Option<Hit>)
    ensures hit.Some? ==> hit.value.rule < |ps|
    decreases Left(e, from) + if from <= e.length then 1 else 0
  {
    if from > e.length then None
    else if RuleAt(e, ps, from).Some? then RuleAt(e, ps, from)
    else RuleMatch(e, ps, from + 1)
  }

  // ---------- The joined pattern tries the rules in order ----------

  /** The number of the outer group of a rule, after `g` other groups. */
  function OuterGroup(ps: seq<Pattern>, i: nat, g: nat): nat
    requires i < |ps|
  {
    if i == 0 then g + 1 else OuterGroup(ps[1..], i - 1, g + 1 + Groups(ps[0]))
  }

  /** The state in which a rule's match leaves the joined pattern. */
  function Outer(hit: Hit, t: nat): State {
    State(hit.state.pos, Bind(t, Span(hit.pos, hit.state.pos), UpCaps(hit.state.caps, t)))
  }

  lemma HeadOutcomes(e: Engine, p: Pattern, g: nat, pos: nat)
    ensures Outcomes(e, Capture(Shift(p, g + 1)), g, State(pos, Nothing)) ==
            Captured(UpAll(Hits(e, p, pos), g + 1), g + 1, pos)
  {
    ShiftPreserves(e, p, 0, State(pos, Nothing), g + 1);
    assert Up(State(pos, Nothing), g + 1) == State(pos, Nothing);
    CaptureOutcomes(e, Capture(Shift(p, g + 1)), g, State(pos, Nothing));
  }

  lemma CaptureOutcomes(e: Engine, p: Pattern, g: nat, st: State)
    requires p.Capture?
    ensures Outcomes(e, p, g, st) == Captured(Outcomes(e, p.body, g + 1, st), g + 1, st.pos)
  {
  }

  lemma FirstCaptured(hits: seq<State>, t: nat, pos: nat)
    ensures hits == [] <==> Captured(UpAll(hits, t), t, pos) == []
    ensures hits != [] ==> Captured(UpAll(hits, t), t, pos)[0] == Outer(Hit(0, pos, hits[0]), t)
  {
  }

  lemma {:induction false} JoinedTriesInOrder(e: Engine, ps: seq<Pattern>, g: nat, pos: nat)
    requires ps != []
    ensures var outcomes, hit := Outcomes(e, Joined(ps, g), g, State(pos, Nothing)), RuleAt(e, ps, pos);
            if hit.None? then outcomes == []
            else outcomes != [] && outcomes[0] == Outer(hit.value, OuterGroup(ps, hit.value.rule, g))
    decreases |ps|
  {
    var first := Captured(UpAll(Hits(e, ps[0], pos), g + 1), g + 1, pos);
    FirstCaptured(Hits(e, ps[0], pos), g + 1, pos);
    HeadOutcomes(e, ps[0], g, pos);
    if |ps| > 1 {
      var g' := g + 1 + Groups(ps[0]);
      JoinedTriesInOrder(e, ps[1..], g', pos);
      JoinedOutcomes(e, ps, g, pos);
      HeadOrRest(e, ps, g, pos, first, Outcomes(e, Joined(ps[1..], g'), g', State(pos, Nothing)));
    } else {
      assert ps[1..] == [];
    }
  }

  lemma JoinedParts(ps: seq<Pattern>, g: nat)
    requires |ps| > 1
    ensures Joined(ps, g) == Either(Capture(Shift(ps[0], g + 1)), Joined(ps[1..], g + 1 + Groups(ps[0])))
  {
  }

  lemma EitherFrom(e: Engine, first: Pattern, second: Pattern, g: nat, g': nat, st: State)
    requires g' == g + Groups(first)
    ensures Outcomes(e, Either(first, second), g, st) == OrElse(Outcomes(e, first, g, st), Outcomes(e, second, g', st))
  {
    EitherOutcomes(e, Either(first, second), g, st);
  }

  lemma JoinedOutcomes(e: Engine, ps: seq<Pattern>, g: nat, pos: nat)
    requires |ps| > 1
    ensures var g' := g + 1 + Groups(ps[0]);
            Outcomes(e, Joined(ps, g), g, State(pos, Nothing)) ==
            OrElse(Captured(UpAll(Hits(e, ps[0], pos), g + 1), g + 1, pos),
                   Outcomes(e, Joined(ps[1..], g'), g', State(pos, Nothing)))
  {
    var g' := g + 1 + Groups(ps[0]);
    JoinedParts(ps, g);
    HeadGroups(ps[0], g);
    EitherFrom(e, Capture(Shift(ps[0], g + 1)), Joined(ps[1..], g'), g, g', State(pos, Nothing));
    HeadOutcomes(e, ps[0], g, pos);
  }

  lemma HeadGroups(p: Pattern, g: nat)
    ensures g + Groups(Capture(Shift(p, g + 1))) == g + 1 + Groups(p)
  {
    ShiftKeepsGroups(p, g + 1);
  }

  lemma HeadOrRest(e: Engine, ps: seq<Pattern>, g: nat, pos: nat, first: seq<State>, rest: seq<State>)
    requires |ps| > 1
    requires first == [] <==> Hits(e, ps[0], pos) == []
    requires first != [] ==> first[0] == Outer(Hit(0, pos, Hits(e, ps[0], pos)[0]), g + 1)
    requires var hit := RuleAt(e, ps[1..], pos);
             if hit.None? then rest == []
             else rest != [] && rest[0] == Outer(hit.value, OuterGroup(ps[1..], hit.value.rule, g + 1 + Groups(ps[0])))
    ensures var hit := RuleAt(e, ps, pos);
            if hit.None? then OrElse(first, rest) == []
            else OrElse(first, rest) != [] && OrElse(first, rest)[0] == Outer(hit.value, OuterGroup(ps, hit.value.rule, g))
  {
    if first == [] {
      assert OrElse(first, rest) == rest;
    } else {
      assert OrElse(first, rest)[0] == first[0];
    }
  }

  /** The leftmost match of the joined pattern is the match of the rules tried one by one. */
  lemma {:induction false} JoinedSearches(e: Engine, ps: seq<Pattern>, from: nat)
    requires ps != []
    ensures var hit := RuleMatch(e, ps, from);
            FirstMatch(e, Joined(ps, 0), from) ==
            if hit.None? then None else Some((hit.value.pos, Outer(hit.value, OuterGroup(ps, hit.value.rule, 0))))
    decreases Left(e, from) + if from <= e.length then 1 else 0
  {
    if from <= e.length {
      JoinedTriesInOrder(e, ps, 0, from);
      RuleAtPos(e, ps, from);
      if RuleAt(e, ps, from).None? {
        JoinedSearches(e, ps, from + 1);
      }
    }
  }

  lemma {:induction false} RuleAtPos(e: Engine, ps: seq<Pattern>, pos: nat)
    ensures var hit := RuleAt(e, ps, pos);
            hit.Some? ==> hit.value.pos == pos && Hits(e, ps[hit.value.rule], pos) != [] &&
                          hit.value.state == Hits(e, ps[hit.value.rule], pos)[0]
  {
    if ps != [] && Hits(e, ps[0], pos) == [] {
      RuleAtPos(e, ps[1..], pos);
    }
  }

  lemma {:induction false} RuleMatchIsHit(e: Engine, ps: seq<Pattern>, from: nat)
    ensures var hit := RuleMatch(e, ps, from);
            hit.Some? ==>
              && from <= hit.value.pos <= e.length
              && Hits(e, ps[hit.value.rule], hit.value.pos) != []
              && hit.value.state == Hits(e, ps[hit.value.rule], hit.value.pos)[0]
    decreases Left(e, from) + if from <= e.length then 1 else 0
  {
    if from <= e.length {
      RuleAtPos(e, ps, from);
      if RuleAt(e, ps, from).None? {
        RuleMatchIsHit(e, ps, from + 1);
      }
    }
  }

  // ---------- The groups tell the rule ----------

  lemma {:induction false} OutsideIsUndefined(caps: Caps, lo: nat, hi: nat, group: nat)
    requires Within(caps, lo, hi) && !(lo < group <= hi)
    ensures Lookup(caps, group).None?
  {
    if caps.Bind? {
      OutsideIsUndefined(caps.older, lo, hi, group);
    }
  }

  lemma {:induction false} UpWithin(caps: Caps, lo: nat, hi: nat, s: nat)
    requires Within(caps, lo, hi)
    ensures Within(UpCaps(caps, s), lo + s, hi + s)
  {
    if caps.Bind? {
      UpWithin(caps.older, lo, hi, s);
    }
  }

  /** In the joined match only the groups of the matching rule are defined: its outer group holds the
      whole match, and the groups after it are the rule's own. */
  lemma OuterLookup(hit: Hit, t: nat, groups: nat, k: nat)
    requires Within(hit.state.caps, 0, groups)
    ensures k < t || k > t + groups ==> Lookup(Outer(hit, t).caps, k).None?
    ensures k == t ==> Lookup(Outer(hit, t).caps, k) == Some(Span(hit.pos, hit.state.pos))
    ensures k > t ==> Lookup(Outer(hit, t).caps, k) == Lookup(hit.state.caps, k - t)
  {
    UpWithin(hit.state.caps, 0, groups, t);
    if k < t || k > t + groups {
      OutsideIsUndefined(UpCaps(hit.state.caps, t), t, groups + t, k);
    }
    if k > t {
      UpLookup(hit.state.caps, t, k - t);
    }
  }

  lemma {:induction false} OuterGroupFits(ps: seq<Pattern>, i: nat, g: nat)
    requires i < |ps|
    ensures g < OuterGroup(ps, i, g) && OuterGroup(ps, i, g) + Groups(ps[i]) <= g + Groups(Joined(ps, g))
    decreases |ps|
  {
    ShiftKeepsGroups(ps[0], g + 1);
    if i > 0 {
      OuterGroupFits(ps[1..], i - 1, g + 1 + Groups(ps[0]));
    } else if |ps| > 1 {
      assert Groups(Joined(ps, g)) == 1 + Groups(ps[0]) + Groups(Joined(ps[1..], g + 1 + Groups(ps[0])));
    }
  }

  /** The array of a joined match, from the rule's outer group on, is the rule's own array and then
      nothing; before, apart from the whole match, there is nothing. */
  lemma JoinedArray(ps: seq<Pattern>, hit: Hit)
    requires hit.rule < |ps| && Within(hit.state.caps, 0, Groups(ps[hit.rule]))
    ensures var t, slots := OuterGroup(ps, hit.rule, 0), MatchArray(Joined(ps, 0), hit.pos, Outer(hit, OuterGroup(ps, hit.rule, 0)));
            var own := MatchArray(ps[hit.rule], hit.pos, hit.state);
            && 0 < t && t + |own| <= |slots|
            && (forall k :: 0 < k < t ==> slots[k].None?)
            && slots[t..t + |own|] == own
            && (forall k :: t + |own| <= k < |slots| ==> slots[k].None?)
  {
    var t, groups := OuterGroup(ps, hit.rule, 0), Groups(ps[hit.rule]);
    var slots, own := MatchArray(Joined(ps, 0), hit.pos, Outer(hit, t)), MatchArray(ps[hit.rule], hit.pos, hit.state);
    OuterGroupFits(ps, hit.rule, 0);
    forall k | 0 < k < |slots| ensures slots[k] == Lookup(Outer(hit, t).caps, k) {
    }
    forall k | 0 < k < |slots|
      ensures k < t || k > t + groups ==> slots[k].None?
      ensures t <= k <= t + groups ==> slots[k] == own[k - t]
    {
      OuterLookup(hit, t, groups, k);
    }
    forall k | 0 <= k < |own| ensures slots[t..t + |own|][k] == own[k] {
      assert slots[t + k] == own[t + k - t];
    }
  }

  // ---------- The class ----------

  /** A rule object: every matcher that contains it writes its position there. */
  class Rule {
    const pattern: Pattern
    var position: nat

    constructor (pattern: Pattern)
      ensures this.pattern == pattern && position == 0
    {
      this.pattern, position := pattern, 0;
    }
  }

  function Patterns(rules: seq<Rule>): seq<Pattern> {
    seq(|rules|, i requires 0 <= i < |rules| => rules[i].pattern)
  }

  /** A match, as the combiner reports it: where the rule matches, and its array. */
  datatype Report = Report(index: nat, groups: seq<Option<Span>>)

  predicate IsMatch(e: Engine, ps: seq<Pattern>, from: nat, hit: Option<Hit>) {
    RuleMatch(e, ps, from) == hit
  }

  /** The report of a match: the rule's own array, then undefined groups only. */
  ghost predicate Reports(ps: seq<Pattern>, hit: Hit, r: Option<Report>)
    requires hit.rule < |ps|
  {
    var own := MatchArray(ps[hit.rule], hit.pos, hit.state);
    && r.Some? && r.value.index == hit.pos && own <= r.value.groups
    && (forall k :: |own| <= k < |r.value.groups| ==> r.value.groups[k].None?)
  }

  /** The answer of a matcher with these rules: the first rule that matches leftmost, and its report. */
  ghost predicate Answers(e: Engine, rules: seq<Rule>, from: nat, rule: Option<Rule>, r: Option<Report>) {
    forall hit :: IsMatch(e, Patterns(rules), from, hit) ==>
      if hit.None? then rule.None? && r.None?
      else hit.value.rule < |rules| && rule == Some(rules[hit.value.rule]) && Reports(Patterns(rules), hit.value, r)
  }

  lemma {:induction false} OuterGroupSnoc(ps: seq<Pattern>, p: Pattern, i: nat, g: nat)
    requires i <= |ps|
    ensures i < |ps| ==> OuterGroup(ps + [p], i, g) == OuterGroup(ps, i, g) < NextGroup(ps, g)
    ensures i == |ps| ==> OuterGroup(ps + [p], i, g) == NextGroup(ps, g)
    decreases |ps|
  {
    if ps != [] {
      assert (ps + [p])[1..] == ps[1..] + [p];
      NextGroupGrows(ps[1..], g + 1 + Groups(ps[0]));
      if i > 0 {
        OuterGroupSnoc(ps[1..], p, i - 1, g + 1 + Groups(ps[0]));
      }
    }
  }

  /** `matchAt` after some rules. */
  function NextGroup(ps: seq<Pattern>, g: nat): nat {
    if ps == [] then g + 1 else NextGroup(ps[1..], g + 1 + Groups(ps[0]))
  }

  lemma {:induction false} NextGroupGrows(ps: seq<Pattern>, g: nat)
    ensures g < NextGroup(ps, g)
  {
    if ps != [] {
      NextGroupGrows(ps[1..], g + 1 + Groups(ps[0]));
    }
  }

  lemma {:induction false} NextGroupSnoc(ps: seq<Pattern>, p: Pattern, g: nat)
    ensures NextGroup(ps + [p], g) == NextGroup(ps, g) + Groups(p) + 1
    decreases |ps|
  {
    if ps != [] {
      assert (ps + [p])[1..] == ps[1..] + [p];
      NextGroupSnoc(ps[1..], p, g + 1 + Groups(ps[0]));
    } else {
      assert [] + [p] == [p] && [p][1..] == [];
    }
  }

  class MultiRegex {
    var matchIndexes: map<nat, Rule>
    var regexes: seq<Rule>
    var matchAt: nat
    var position: nat
    var matcher: Option<Pattern>
    var lastIndex: nat

    /** `matchIndexes` has, at the number of each rule's outer group, that rule. */
    ghost predicate Valid()
      reads `matchIndexes, `regexes, `matchAt, `position
    {
      && matchAt == NextGroup(Patterns(regexes), 0) && position == |regexes|
      && (forall i :: 0 <= i < |regexes| ==>
            OuterGroup(Patterns(regexes), i, 0) in matchIndexes &&
            matchIndexes[OuterGroup(Patterns(regexes), i, 0)] == regexes[i])
    }

    predicate Compiled()
      reads `matcher, `regexes
    {
      matcher == if regexes == [] then None else Some(Joined(Patterns(regexes), 0))
    }

    constructor ()
      ensures Valid() && regexes == [] && matcher == None && position == 0
    {
      matchIndexes, regexes, matchAt, position, matcher, lastIndex := map[], [], 1, 0, None, 0;
    }

    method AddRule(rule: Rule)
      requires Valid()
      modifies this, rule`position
      ensures Valid() && regexes == old(regexes) + [rule] && matcher == old(matcher) && lastIndex == old(lastIndex)
      ensures rule.position == old(position) == |old(regexes)|
    {
      ghost var before := regexes;
      rule.position := position;
      position := position + 1;
      matchIndexes := matchIndexes[matchAt := rule];
      regexes := regexes + [rule];
      matchAt := matchAt + Groups(rule.pattern) + 1;
      assert Patterns(regexes) == Patterns(before) + [rule.pattern];
      NextGroupSnoc(Patterns(before), rule.pattern, 0);
      forall i | 0 <= i < |regexes|
        ensures OuterGroup(Patterns(regexes), i, 0) in matchIndexes
        ensures matchIndexes[OuterGroup(Patterns(regexes), i, 0)] == regexes[i]
      {
        OuterGroupSnoc(Patterns(before), rule.pattern, i, 0);
      }
    }

    method Compile()
      requires Valid()
      modifies this`matcher, this`lastIndex
      ensures Valid() && Compiled() && lastIndex == 0
    {
      if regexes == [] {
        matcher := None;
      } else {
        matcher := Some(Joined(Patterns(regexes), 0));
      }
      lastIndex := 0;
    }

    /** The first defined group tells the rule. */
    method Exec(e: Engine) returns (rule: Option<Rule>, r: Option<Report>)
      requires Sound(e) && Valid() && Compiled()
      ensures Answers(e, regexes, lastIndex, rule, r)
    {
      ghost var ps := Patterns(regexes);
      if matcher.None? {
        assert ps == [];
        NoRules(e, lastIndex);
        return None, None;
      }
      JoinedSearches(e, ps, lastIndex);
      var found := FirstMatch(e, matcher.value, lastIndex);
      if found.None? {
        return None, None;
      }
      ghost var hit := RuleMatch(e, ps, lastIndex).value;
      var n := MatchArray(matcher.value, found.value.0, found.value.1);
      MatchedArray(e, ps, lastIndex);
      var t := FirstDefined(n, OuterGroup(ps, hit.rule, 0));
      rule, r := Some(matchIndexes[t]), Some(Report(found.value.0, n[t..]));
      TailOf(n, t, MatchArray(ps[hit.rule], hit.pos, hit.state));
    }

    // `n.findIndex((e, i) => i > 0 && e !== undefined)`
    method FirstDefined(n: seq<Option<Span>>, ghost outer: nat) returns (t: nat)
      requires 0 < outer < |n| && n[outer].Some? && forall k :: 0 < k < outer ==> n[k].None?
      ensures t == outer
    {
      t := 1;
      while n[t].None?
        invariant 0 < t <= outer
        decreases outer - t
      {
        t := t + 1;
      }
    }
  }

  lemma TailOf(n: seq<Option<Span>>, t: nat, own: seq<Option<Span>>)
    requires t + |own| <= |n| && n[t..t + |own|] == own
    requires forall k :: t + |own| <= k < |n| ==> n[k].None?
    ensures own <= n[t..]
    ensures forall k :: |own| <= k < |n[t..]| ==> n[t..][k].None?
  {
    assert n[t..][..|own|] == n[t..t + |own|];
  }

  // What the array of the joined match looks like.
  lemma MatchedArray(e: Engine, ps: seq<Pattern>, from: nat)
    requires Sound(e) && ps != [] && RuleMatch(e, ps, from).Some?
    ensures var hit := RuleMatch(e, ps, from).value;
            var t := OuterGroup(ps, hit.rule, 0);
            var slots, own := MatchArray(Joined(ps, 0), hit.pos, Outer(hit, t)), MatchArray(ps[hit.rule], hit.pos, hit.state);
            && 0 < t && t + |own| <= |slots| && own != [] && slots[t].Some?
            && (forall k :: 0 < k < t ==> slots[k].None?)
            && slots[t..t + |own|] == own
            && (forall k :: t + |own| <= k < |slots| ==> slots[k].None?)
  {
    var hit := RuleMatch(e, ps, from).value;
    RuleMatchIsHit(e, ps, from);
    HitsFit(e, ps[hit.rule], hit.pos);
    JoinedArray(ps, hit);
    var t := OuterGroup(ps, hit.rule, 0);
    var slots, own := MatchArray(Joined(ps, 0), hit.pos, Outer(hit, t)), MatchArray(ps[hit.rule], hit.pos, hit.state);
    assert slots[t] == slots[t..t + |own|][0] == own[0];
  }

  lemma {:induction false} NoRules(e: Engine, from: nat)
    ensures RuleMatch(e, [], from).None?
    decreases Left(e, from) + if from <= e.length then 1 else 0
  {
    if from <= e.length {
      NoRules(e, from + 1);
    }
  }

  lemma HitsFit(e: Engine, p: Pattern, pos: nat)
    requires Sound(e) && pos <= e.length && Hits(e, p, pos) != []
    ensures Within(Hits(e, p, pos)[0].caps, 0, Groups(p)) && pos <= Hits(e, p, pos)[0].pos <= e.length
  {
    OutcomesFit(e, p, 0, State(pos, Nothing), 0, Groups(p), pos);
  }
}
