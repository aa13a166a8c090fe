/**
 Regular expressions with numbered groups, matched by backtracking as section 22.2.2 of ECMA-262
 has it. What single characters, classes and assertions accept is left to the engine.
 */
module RegexPatterns {
  import opened Wrappers

  /** A piece of a pattern's text, as the joiner cuts it. */
  datatype Token =
    | Plain(c: char)
    | Escape(c: char)
    | Class(text: string)
    | Open
    | OpenSpecial
    | Reference(n: nat)

  datatype Kind = Uncaptured | Ahead | NotAhead

  datatype Pattern =
    | Empty
    | Atom(token: Token)
    | Backreference(n: nat)
    | Capture(body: Pattern)
    | Special(kind: Kind, body: Pattern)
    | Both(first: Pattern, second: Pattern)
    | Either(first: Pattern, second: Pattern)
    | Repeat(body: Pattern, min: nat, max: Option<nat>, greedy: bool, quantifier: string)

  datatype Span = Span(from: nat, to: nat)

  /** The groups captured so far, the latest first. */
  datatype Caps = Nothing | Bind(group: nat, span: Span, older: Caps)

  /** A position in the input and the captured groups. */
  datatype State = State(pos: nat, caps: Caps)

  /** The input, of the given length: where a token's match ends, and the match of the same text again. */
  datatype Engine = Engine(length: nat, accept: (Token, nat) -> Option<nat>, again: (Span, nat) -> Option<nat>)

  function Groups(p: Pattern): nat {
    match p
    case Capture(body) => 1 + Groups(body)
    case Special(_, body) => Groups(body)
    case Both(first, second) => Groups(first) + Groups(second)
    case Either(first, second) => Groups(first) + Groups(second)
    case Repeat(body, _, _, _, _) => Groups(body)
    case _ => 0
  }

  function Lookup(caps: Caps, group: nat): Option<Span> {
    if caps.Nothing? then None else if caps.group == group then Some(caps.span) else Lookup(caps.older, group)
  }

  /** The captures without the groups from `g + 1` to `g + count`. */
  function Forgotten(caps: Caps, g: nat, count: nat): Caps {
    if caps.Nothing? then Nothing
    else if g < caps.group <= g + count then Forgotten(caps.older, g, count)
    else Bind(caps.group, caps.span, Forgotten(caps.older, g, count))
  }

  function Moved(st: State, to: Option<nat>): seq<State> {
    if to.Some? then [st.(pos := to.value)] else []
  }

  function Captured(outcomes: seq<State>, group: nat, from: nat): seq<State> {
    if outcomes == [] then []
    else [outcomes[0].(caps := Bind(group, Span(from, outcomes[0].pos), outcomes[0].caps))] + Captured(outcomes[1..], group, from)
  }

  function OrElse(outcomes: seq<State>, others: seq<State>): seq<State> {
    outcomes + others
  }

  /** A repetition forgets the groups of the round before. */
  function Cleared(st: State, g: nat, count: nat): State {
    st.(caps := Forgotten(st.caps, g, count))
  }

  function Left(e: Engine, pos: nat): nat {
    if pos <= e.length then e.length - pos else 0
  }

  /** Every way in which the pattern matches from a state, in the order in which backtracking finds
      them. The groups of the pattern are numbered from `g + 1` on. */
  function Outcomes(e: Engine, p: Pattern, g: nat, st: State): seq<State>
    decreases p, 0, 0, 0, 0, 0
  {
    match p
    case Empty => [st]
    case Atom(token) => Moved(st, e.accept(token, st.pos))
    case Backreference(n) => if Lookup(st.caps, n).Some? then Moved(st, e.again(Lookup(st.caps, n).value, st.pos)) else [st]
    case Capture(body) => Captured(Outcomes(e, body, g + 1, st), g + 1, st.pos)
    case Special(Uncaptured, body) => Outcomes(e, body, g, st)
    case Special(Ahead, body) =>
      var outcomes := Outcomes(e, body, g, st);
      if outcomes == [] then [] else [outcomes[0].(pos := st.pos)]
    case Special(NotAhead, body) => if Outcomes(e, body, g, st) == [] then [st] else []
    case Both(first, second) => OutcomesAll(e, second, g + Groups(first), Outcomes(e, first, g, st))
    case Either(first, second) => OrElse(Outcomes(e, first, g, st), Outcomes(e, second, g + Groups(first), st))
    case Repeat(body, min, max, greedy, _) => Repeated(e, body, g, min, max, greedy, st)
  }

  function OutcomesAll(e: Engine, p: Pattern, g: nat, states: seq<State>): seq<State>
    decreases p, 1, 0, 0, 0, |states|
  {
    if states == [] then [] else Outcomes(e, p, g, states[0]) + OutcomesAll(e, p, g, states[1..])
  }

  function Repeated(e: Engine, p: Pattern, g: nat, min: nat, max: Option<nat>, greedy: bool, st: State): seq<State>
    decreases p, 2, min, Left(e, st.pos), 1, 0
  {
    if max == Some(0) then [st]
    else
      var more := RepeatedAll(e, p, g, min, max, greedy, st.pos, Outcomes(e, p, g, Cleared(st, g, Groups(p))));
      if min > 0 then more else if greedy then more + [st] else [st] + more
  }

  /** The rounds after one round that started at `from`; a further round must not be empty. */
  function RepeatedAll(
    e: Engine, p: Pattern, g: nat, min: nat, max: Option<nat>, greedy: bool, from: nat, states: seq<State>): seq<State>
    decreases p, 2, min, Left(e, from), 0, |states|
  {
    if states == [] then []
    else
      var rest := RepeatedAll(e, p, g, min, max, greedy, from, states[1..]);
      var max' := if max.Some? && max.value > 0 then Some(max.value - 1) else max;
      if min > 0 then Repeated(e, p, g, min - 1, max', greedy, states[0]) + rest
      else if from < states[0].pos <= e.length then Repeated(e, p, g, 0, max', greedy, states[0]) + rest
      else rest
  }

  // ---------- Renumbering ----------

  /** Every backreference moved up. */
  function Shift(p: Pattern, s: nat): Pattern {
    match p
    case Backreference(n) => Backreference(n + s)
    case Capture(body) => Capture(Shift(body, s))
    case Special(kind, body) => Special(kind, Shift(body, s))
    case Both(first, second) => Both(Shift(first, s), Shift(second, s))
    case Either(first, second) => Either(Shift(first, s), Shift(second, s))
    case Repeat(body, min, max, greedy, quantifier) => Repeat(Shift(body, s), min, max, greedy, quantifier)
    case _ => p
  }

  /** Rule patterns as the alternatives of one pattern, each in a group of its own. `g` groups come
      before the first. */
  function Joined(ps: seq<Pattern>, g: nat): Pattern
    requires ps != []
  {
    var head := Capture(Shift(ps[0], g + 1));
    if |ps| == 1 then head else Either(head, Joined(ps[1..], g + 1 + Groups(ps[0])))
  }

  function UpCaps(caps: Caps, s: nat): Caps {
    if caps.Nothing? then Nothing else Bind(caps.group + s, caps.span, UpCaps(caps.older, s))
  }

  function Up(st: State, s: nat): State {
    st.(caps := UpCaps(st.caps, s))
  }

  function UpAll(states: seq<State>, s: nat): seq<State> {
    if states == [] then [] else [Up(states[0], s)] + UpAll(states[1..], s)
  }

  lemma {:induction false} ShiftKeepsGroups(p: Pattern, s: nat)
    ensures Groups(Shift(p, s)) == Groups(p)
  {
    match p
    case Capture(body) => ShiftKeepsGroups(body, s);
    case Special(_, body) => ShiftKeepsGroups(body, s);
    case Both(first, second) => ShiftKeepsGroups(first, s); ShiftKeepsGroups(second, s);
    case Either(first, second) => ShiftKeepsGroups(first, s); ShiftKeepsGroups(second, s);
    case Repeat(body, _, _, _, _) => ShiftKeepsGroups(body, s);
    case _ =>
  }

  lemma UpCons(st: State, rest: seq<State>, s: nat)
    ensures UpAll([st] + rest, s) == [Up(st, s)] + UpAll(rest, s)
  {
    assert ([st] + rest)[1..] == rest;
  }

  lemma {:induction false} UpAppend(a: seq<State>, b: seq<State>, s: nat)
    ensures UpAll(a + b, s) == UpAll(a, s) + UpAll(b, s)
  {
    if a == [] {
      assert a + b == b;
    } else {
      UpAppend(a[1..], b, s);
      assert (a + b)[1..] == a[1..] + b;
    }
  }

  lemma UpOne(st: State, s: nat)
    ensures UpAll([st], s) == [Up(st, s)]
  {
    UpCons(st, [], s);
  }

  lemma {:induction false} UpForgotten(caps: Caps, s: nat, g: nat, count: nat)
    ensures UpCaps(Forgotten(caps, g, count), s) == Forgotten(UpCaps(caps, s), g + s, count)
  {
    if caps.Bind? {
      UpForgotten(caps.older, s, g, count);
    }
  }

  lemma {:induction false} UpCaptured(outcomes: seq<State>, s: nat, group: nat, from: nat)
    ensures UpAll(Captured(outcomes, group, from), s) == Captured(UpAll(outcomes, s), group + s, from)
  {
    if outcomes != [] {
      var span := Span(from, outcomes[0].pos);
      UpCaptured(outcomes[1..], s, group, from);
      UpCons(outcomes[0].(caps := Bind(group, span, outcomes[0].caps)), Captured(outcomes[1..], group, from), s);
      var up := UpAll(outcomes, s);
      assert up[0] == Up(outcomes[0], s) && up[1..] == UpAll(outcomes[1..], s);
    }
  }

  lemma {:induction false} UpLookup(caps: Caps, s: nat, group: nat)
    ensures Lookup(UpCaps(caps, s), group + s) == Lookup(caps, group)
  {
    if caps.Bind? {
      UpLookup(caps.older, s, group);
    }
  }

  /** A pattern whose backreferences and groups are moved up together matches exactly as before, in the
      same order, with its captures moved up. */
  lemma {:induction false} ShiftPreserves(e: Engine, p: Pattern, g: nat, st: State, s: nat)
    ensures Preserved(e, p, g, st, s)
    decreases p, 0, 0, 0, 0, 1
  {
    match p {
      case Empty => UpOne(st, s);
      case Atom(token) => UpMoved(st, e.accept(token, st.pos), s);
      case Backreference(n) => ReferenceShifts(e, n, g, st, s);
      case Capture(body) =>
        ShiftPreserves(e, body, g + 1, st, s);
        CaptureShifts(e, body, g, st, s);
      case Special(kind, body) =>
        ShiftPreserves(e, body, g, st, s);
        SpecialShifts(e, kind, body, g, st, s);
      case Both(_, _) => BothShifts(e, p, g, st, s);
      case Either(_, _) => EitherShifts(e, p, g, st, s);
      case Repeat(body, min, max, greedy, _) => ShiftPreservesRepeated(e, body, g, min, max, greedy, st, s);
    }
  }

  ghost predicate Preserved(e: Engine, p: Pattern, g: nat, st: State, s: nat) {
    Outcomes(e, Shift(p, s), g + s, Up(st, s)) == UpAll(Outcomes(e, p, g, st), s)
  }

  ghost predicate PreservedAll(e: Engine, p: Pattern, g: nat, states: seq<State>, s: nat) {
    OutcomesAll(e, Shift(p, s), g + s, UpAll(states, s)) == UpAll(OutcomesAll(e, p, g, states), s)
  }

  lemma ReferenceShifts(e: Engine, n: nat, g: nat, st: State, s: nat)
    ensures Preserved(e, Backreference(n), g, st, s)
  {
    UpLookup(st.caps, s, n);
    UpOne(st, s);
    if Lookup(st.caps, n).Some? {
      UpMoved(st, e.again(Lookup(st.caps, n).value, st.pos), s);
    }
  }

  lemma CaptureShifts(e: Engine, body: Pattern, g: nat, st: State, s: nat)
    requires Preserved(e, body, g + 1, st, s)
    ensures Preserved(e, Capture(body), g, st, s)
  {
    UpCaptured(Outcomes(e, body, g + 1, st), s, g + 1, st.pos);
    assert g + 1 + s == g + s + 1;
  }

  lemma SpecialShifts(e: Engine, kind: Kind, body: Pattern, g: nat, st: State, s: nat)
    requires Preserved(e, body, g, st, s)
    ensures Preserved(e, Special(kind, body), g, st, s)
  {
    UpSpecial(kind, Outcomes(e, body, g, st), st, s);
  }

  lemma EitherOutcomes(e: Engine, p: Pattern, g: nat, st: State)
    requires p.Either?
    ensures Outcomes(e, p, g, st) == OrElse(Outcomes(e, p.first, g, st), Outcomes(e, p.second, g + Groups(p.first), st))
  {
  }

  lemma UpOrElse(a: seq<State>, b: seq<State>, s: nat)
    ensures UpAll(OrElse(a, b), s) == OrElse(UpAll(a, s), UpAll(b, s))
  {
    UpAppend(a, b, s);
  }

  lemma BothOutcomes(e: Engine, p: Pattern, g: nat, st: State)
    requires p.Both?
    ensures Outcomes(e, p, g, st) == OutcomesAll(e, p.second, g + Groups(p.first), Outcomes(e, p.first, g, st))
  {
  }

  // The outcomes of two patterns in a row, from those of each.
  lemma GroupsAfter(first: Pattern, g: nat, s: nat)
    ensures g + Groups(first) + s == g + s + Groups(Shift(first, s))
  {
    ShiftKeepsGroups(first, s);
  }

  // The outcomes of a pair, from those of its parts.
  lemma BothGlue(e: Engine, p: Pattern, p': Pattern, g: nat, g': nat, st: State, st': State, s: nat)
    requires p.Both? && p'.Both?
    requires Outcomes(e, p'.first, g', st') == UpAll(Outcomes(e, p.first, g, st), s)
    requires OutcomesAll(e, p'.second, g' + Groups(p'.first), UpAll(Outcomes(e, p.first, g, st), s)) ==
             UpAll(OutcomesAll(e, p.second, g + Groups(p.first), Outcomes(e, p.first, g, st)), s)
    ensures Outcomes(e, p', g', st') == UpAll(Outcomes(e, p, g, st), s)
  {
    BothOutcomes(e, p, g, st);
    BothOutcomes(e, p', g', st');
  }

  lemma EitherGlue(e: Engine, p: Pattern, p': Pattern, g: nat, g': nat, st: State, st': State, s: nat)
    requires p.Either? && p'.Either?
    requires Outcomes(e, p'.first, g', st') == UpAll(Outcomes(e, p.first, g, st), s)
    requires Outcomes(e, p'.second, g' + Groups(p'.first), st') == UpAll(Outcomes(e, p.second, g + Groups(p.first), st), s)
    ensures Outcomes(e, p', g', st') == UpAll(Outcomes(e, p, g, st), s)
  {
    EitherOutcomes(e, p, g, st);
    EitherOutcomes(e, p', g', st');
    UpOrElse(Outcomes(e, p.first, g, st), Outcomes(e, p.second, g + Groups(p.first), st), s);
  }

  lemma {:induction false} BothShifts(e: Engine, p: Pattern, g: nat, st: State, s: nat)
    requires p.Both?
    ensures Preserved(e, p, g, st, s)
    decreases p, 0, 0, 0, 0, 0
  {
    ShiftPreserves(e, p.first, g, st, s);
    ShiftPreservesAll(e, p.second, g + Groups(p.first), Outcomes(e, p.first, g, st), s);
    PairParts(p, s);
    GroupsAfter(p.first, g, s);
    BothGlue(e, p, Shift(p, s), g, g + s, st, Up(st, s), s);
  }

  lemma {:induction false} EitherShifts(e: Engine, p: Pattern, g: nat, st: State, s: nat)
    requires p.Either?
    ensures Preserved(e, p, g, st, s)
    decreases p, 0, 0, 0, 0, 0
  {
    PairParts(p, s);
    GroupsAfter(p.first, g, s);
    ShiftPreserves(e, p.first, g, st, s);
    ShiftPreserves(e, p.second, g + Groups(p.first), st, s);
    EitherGlue(e, p, Shift(p, s), g, g + s, st, Up(st, s), s);
  }

  lemma PairParts(p: Pattern, s: nat)
    requires p.Both? || p.Either?
    ensures p.Both? ==> Shift(p, s).Both?
    ensures p.Either? ==> Shift(p, s).Either?
    ensures Shift(p, s).first == Shift(p.first, s) && Shift(p, s).second == Shift(p.second, s)
  {
  }

  lemma UpMoved(st: State, to: Option<nat>, s: nat)
    ensures UpAll(Moved(st, to), s) == Moved(Up(st, s), to)
  {
    if to.Some? {
      UpOne(st.(pos := to.value), s);
    }
  }

  lemma UpSpecial(kind: Kind, outcomes: seq<State>, st: State, s: nat)
    ensures outcomes == [] <==> UpAll(outcomes, s) == []
    ensures outcomes != [] ==>
              UpAll([outcomes[0].(pos := st.pos)], s) == [UpAll(outcomes, s)[0].(pos := Up(st, s).pos)]
    ensures UpAll([st], s) == [Up(st, s)]
  {
    UpOne(st, s);
    if outcomes != [] {
      UpOne(outcomes[0].(pos := st.pos), s);
    }
  }

  lemma {:induction false} ShiftPreservesAll(e: Engine, p: Pattern, g: nat, states: seq<State>, s: nat)
    ensures PreservedAll(e, p, g, states, s)
    decreases p, 1, 0, 0, 0, |states|
  {
    if states != [] {
      ShiftPreserves(e, p, g, states[0], s);
      ShiftPreservesAll(e, p, g, states[1..], s);
      UpAppend(Outcomes(e, p, g, states[0]), OutcomesAll(e, p, g, states[1..]), s);
      var up := UpAll(states, s);
      assert up[0] == Up(states[0], s) && up[1..] == UpAll(states[1..], s);
    }
  }

  lemma {:induction false} ShiftPreservesRepeated(
    e: Engine, p: Pattern, g: nat, min: nat, max: Option<nat>, greedy: bool, st: State, s: nat)
    ensures Repeated(e, Shift(p, s), g + s, min, max, greedy, Up(st, s)) == UpAll(Repeated(e, p, g, min, max, greedy, st), s)
    decreases p, 2, min, Left(e, st.pos), 1, 0
  {
    UpOne(st, s);
    if max != Some(0) {
      var cleared := Cleared(st, g, Groups(p));
      var round := Outcomes(e, p, g, cleared);
      UpForgotten(st.caps, s, g, Groups(p));
      ShiftKeepsGroups(p, s);
      ShiftPreserves(e, p, g, cleared, s);
      ShiftPreservesRepeatedAll(e, p, g, min, max, greedy, st.pos, round, s);
      var more := RepeatedAll(e, p, g, min, max, greedy, st.pos, round);
      UpAppend(more, [st], s);
      UpAppend([st], more, s);
    }
  }

  lemma {:induction false} ShiftPreservesRepeatedAll(
    e: Engine, p: Pattern, g: nat, min: nat, max: Option<nat>, greedy: bool, from: nat, states: seq<State>, s: nat)
    ensures RepeatedAll(e, Shift(p, s), g + s, min, max, greedy, from, UpAll(states, s)) ==
            UpAll(RepeatedAll(e, p, g, min, max, greedy, from, states), s)
    decreases p, 2, min, Left(e, from), 0, |states|
  {
    if states != [] {
      var rest := RepeatedAll(e, p, g, min, max, greedy, from, states[1..]);
      var max' := if max.Some? && max.value > 0 then Some(max.value - 1) else max;
      ShiftPreservesRepeatedAll(e, p, g, min, max, greedy, from, states[1..], s);
      var up := UpAll(states, s);
      assert up[0] == Up(states[0], s) && up[1..] == UpAll(states[1..], s);
      if min > 0 {
        ShiftPreservesRepeated(e, p, g, min - 1, max', greedy, states[0], s);
        UpAppend(Repeated(e, p, g, min - 1, max', greedy, states[0]), rest, s);
      } else if from < states[0].pos <= e.length {
        ShiftPreservesRepeated(e, p, g, 0, max', greedy, states[0], s);
        UpAppend(Repeated(e, p, g, 0, max', greedy, states[0]), rest, s);
      }
    }
  }

  // ---------- What an outcome can be ----------

  predicate Within(caps: Caps, lo: nat, hi: nat) {
    caps.Nothing? || (lo < caps.group <= hi && Within(caps.older, lo, hi))
  }

  /** Captures of the groups after `lo` up to `hi`, and a position between `from` and the end. */
  predicate Fits(e: Engine, st: State, lo: nat, hi: nat, from: nat) {
    Within(st.caps, lo, hi) && from <= st.pos <= e.length
  }

  predicate AllFit(e: Engine, states: seq<State>, lo: nat, hi: nat, from: nat) {
    states == [] || (Fits(e, states[0], lo, hi, from) && AllFit(e, states[1..], lo, hi, from))
  }

  /** A token matches inside the input and forwards. */
  ghost predicate Sound(e: Engine) {
    && (forall token: Token, pos: nat :: pos <= e.length && e.accept(token, pos).Some? ==> pos <= e.accept(token, pos).value <= e.length)
    && (forall span: Span, pos: nat :: pos <= e.length && e.again(span, pos).Some? ==> pos <= e.again(span, pos).value <= e.length)
  }

  lemma FitCons(e: Engine, st: State, rest: seq<State>, lo: nat, hi: nat, from: nat)
    ensures AllFit(e, [st] + rest, lo, hi, from) <==> Fits(e, st, lo, hi, from) && AllFit(e, rest, lo, hi, from)
  {
    assert ([st] + rest)[1..] == rest;
  }

  lemma FitOne(e: Engine, st: State, lo: nat, hi: nat, from: nat)
    ensures AllFit(e, [st], lo, hi, from) <==> Fits(e, st, lo, hi, from)
  {
    FitCons(e, st, [], lo, hi, from);
  }

  lemma {:induction false} FitAppend(e: Engine, a: seq<State>, b: seq<State>, lo: nat, hi: nat, from: nat)
    requires AllFit(e, a, lo, hi, from) && AllFit(e, b, lo, hi, from)
    ensures AllFit(e, a + b, lo, hi, from) && AllFit(e, OrElse(a, b), lo, hi, from)
  {
    if a == [] {
      assert a + b == b;
    } else {
      FitAppend(e, a[1..], b, lo, hi, from);
      assert (a + b)[1..] == a[1..] + b;
    }
  }

  lemma {:induction false} FitCaptured(e: Engine, outcomes: seq<State>, group: nat, start: nat, lo: nat, hi: nat, from: nat)
    requires AllFit(e, outcomes, lo, hi, from) && lo < group <= hi
    ensures AllFit(e, Captured(outcomes, group, start), lo, hi, from)
  {
    if outcomes != [] {
      var head := outcomes[0].(caps := Bind(group, Span(start, outcomes[0].pos), outcomes[0].caps));
      FitCaptured(e, outcomes[1..], group, start, lo, hi, from);
      FitCons(e, head, Captured(outcomes[1..], group, start), lo, hi, from);
    }
  }

  lemma {:induction false} WithinForgotten(caps: Caps, g: nat, count: nat, lo: nat, hi: nat)
    requires Within(caps, lo, hi)
    ensures Within(Forgotten(caps, g, count), lo, hi)
  {
    if caps.Bind? {
      WithinForgotten(caps.older, g, count, lo, hi);
    }
  }

  /** A pattern captures only its own groups and never goes back: the test that ends an empty round of
      a repetition, `from < pos`, is the same as `pos != from`. */
  lemma {:induction false} OutcomesFit(e: Engine, p: Pattern, g: nat, st: State, lo: nat, hi: nat, from: nat)
    requires Sound(e) && lo <= g && g + Groups(p) <= hi && Fits(e, st, lo, hi, from)
    ensures AllFit(e, Outcomes(e, p, g, st), lo, hi, from)
    decreases p, 0, 0, 0, 0, 1
  {
    match p {
      case Capture(body) =>
        OutcomesFit(e, body, g + 1, st, lo, hi, from);
        FitCaptured(e, Outcomes(e, body, g + 1, st), g + 1, st.pos, lo, hi, from);
      case Special(kind, body) =>
        OutcomesFit(e, body, g, st, lo, hi, from);
        FitOne(e, st, lo, hi, from);
        var outcomes := Outcomes(e, body, g, st);
        if outcomes != [] {
          FitOne(e, outcomes[0].(pos := st.pos), lo, hi, from);
        }
      case Both(_, _) => PairFits(e, p, g, st, lo, hi, from);
      case Either(_, _) => PairFits(e, p, g, st, lo, hi, from);
      case Repeat(body, min, max, greedy, _) => RepeatedFit(e, body, g, min, max, greedy, st, lo, hi, from);
      case _ => LeafFits(e, p, g, st, lo, hi, from);
    }
  }

  lemma {:induction false} PairFits(e: Engine, p: Pattern, g: nat, st: State, lo: nat, hi: nat, from: nat)
    requires Sound(e) && lo <= g && g + Groups(p) <= hi && Fits(e, st, lo, hi, from) && (p.Both? || p.Either?)
    ensures AllFit(e, Outcomes(e, p, g, st), lo, hi, from)
    decreases p, 0, 0, 0, 0, 0
  {
    var g' := g + Groups(p.first);
    OutcomesFit(e, p.first, g, st, lo, hi, from);
    if p.Both? {
      OutcomesAllFit(e, p.second, g', Outcomes(e, p.first, g, st), lo, hi, from);
      BothOutcomes(e, p, g, st);
    } else {
      OutcomesFit(e, p.second, g', st, lo, hi, from);
      FitAppend(e, Outcomes(e, p.first, g, st), Outcomes(e, p.second, g', st), lo, hi, from);
      EitherOutcomes(e, p, g, st);
    }
  }

  lemma LeafFits(e: Engine, p: Pattern, g: nat, st: State, lo: nat, hi: nat, from: nat)
    requires Sound(e) && Fits(e, st, lo, hi, from) && (p.Empty? || p.Atom? || p.Backreference?)
    ensures AllFit(e, Outcomes(e, p, g, st), lo, hi, from)
  {
    FitOne(e, st, lo, hi, from);
    if p.Atom? && e.accept(p.token, st.pos).Some? {
      FitOne(e, st.(pos := e.accept(p.token, st.pos).value), lo, hi, from);
    } else if p.Backreference? && Lookup(st.caps, p.n).Some? && e.again(Lookup(st.caps, p.n).value, st.pos).Some? {
      FitOne(e, st.(pos := e.again(Lookup(st.caps, p.n).value, st.pos).value), lo, hi, from);
    }
  }

  lemma {:induction false} OutcomesAllFit(e: Engine, p: Pattern, g: nat, states: seq<State>, lo: nat, hi: nat, from: nat)
    requires Sound(e) && lo <= g && g + Groups(p) <= hi && AllFit(e, states, lo, hi, from)
    ensures AllFit(e, OutcomesAll(e, p, g, states), lo, hi, from)
    decreases p, 1, 0, 0, 0, |states|
  {
    if states != [] {
      OutcomesFit(e, p, g, states[0], lo, hi, from);
      OutcomesAllFit(e, p, g, states[1..], lo, hi, from);
      FitAppend(e, Outcomes(e, p, g, states[0]), OutcomesAll(e, p, g, states[1..]), lo, hi, from);
    }
  }

  lemma {:induction false} RepeatedFit(
    e: Engine, p: Pattern, g: nat, min: nat, max: Option<nat>, greedy: bool, st: State, lo: nat, hi: nat, from: nat)
    requires Sound(e) && lo <= g && g + Groups(p) <= hi && Fits(e, st, lo, hi, from)
    ensures AllFit(e, Repeated(e, p, g, min, max, greedy, st), lo, hi, from)
    decreases p, 2, min, Left(e, st.pos), 1, 0
  {
    FitOne(e, st, lo, hi, from);
    if max != Some(0) {
      var cleared := Cleared(st, g, Groups(p));
      WithinForgotten(st.caps, g, Groups(p), lo, hi);
      OutcomesFit(e, p, g, cleared, lo, hi, from);
      RepeatedAllFit(e, p, g, min, max, greedy, st.pos, Outcomes(e, p, g, cleared), lo, hi, from);
      var more := RepeatedAll(e, p, g, min, max, greedy, st.pos, Outcomes(e, p, g, cleared));
      FitAppend(e, more, [st], lo, hi, from);
      FitAppend(e, [st], more, lo, hi, from);
    }
  }

  lemma {:induction false} RepeatedAllFit(
    e: Engine, p: Pattern, g: nat, min: nat, max: Option<nat>, greedy: bool, start: nat, states: seq<State>,
    lo: nat, hi: nat, from: nat)
    requires Sound(e) && lo <= g && g + Groups(p) <= hi && AllFit(e, states, lo, hi, from)
    ensures AllFit(e, RepeatedAll(e, p, g, min, max, greedy, start, states), lo, hi, from)
    decreases p, 2, min, Left(e, start), 0, |states|
  {
    if states != [] {
      var rest := RepeatedAll(e, p, g, min, max, greedy, start, states[1..]);
      var max' := if max.Some? && max.value > 0 then Some(max.value - 1) else max;
      RepeatedAllFit(e, p, g, min, max, greedy, start, states[1..], lo, hi, from);
      if min > 0 {
        RepeatedFit(e, p, g, min - 1, max', greedy, states[0], lo, hi, from);
        FitAppend(e, Repeated(e, p, g, min - 1, max', greedy, states[0]), rest, lo, hi, from);
      } else if start < states[0].pos <= e.length {
        RepeatedFit(e, p, g, 0, max', greedy, states[0], lo, hi, from);
        FitAppend(e, Repeated(e, p, g, 0, max', greedy, states[0]), rest, lo, hi, from);
      }
    }
  }
}
