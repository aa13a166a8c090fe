/**
 The tokenizer loop of highlight.js: regular-expression matches drive a stack of modes, a buffer of
 pending text and the token-tree emitter. Languages with `subLanguage` are not part of this model.

 Regular expressions and the callbacks of a language definition are oracles; what is assumed of
 them is `Oracle.Valid`.
 */
module HighlightTokenizer {
  import opened Wrappers
  import opened Runs
  import opened TokenTree
  import Html

  /** A compiled mode. `id` tells apart modes with the same settings; `begins` is the number of
      begin rules of its matcher. */
  datatype Mode = Mode(
    id: nat, className: string, keywords: bool, begins: nat,
    skip: bool, excludeBegin: bool, returnBegin: bool, excludeEnd: bool, returnEnd: bool,
    endsWithParent: bool, endsParent: bool, starts: Option<Mode>)

  datatype Rule = Begin(mode: Mode) | End | Illegal

  /** A match of a mode's matcher. */
  datatype Match = Match(rule: Rule, index: nat, lexeme: string)

  /** A match of the keyword pattern, with the keyword's kind if the language lists it. */
  datatype Word = Word(index: nat, text: string, kind: Option<string>)

  datatype Oracle = Oracle(
    // matcher.exec with its lastIndex and regexIndex
    exec: (Mode, nat, nat) -> Option<Match>,
    // the recorded position of the rule that matched, by the number of the round: `ResumableRules`
    // says how it comes about
    position: (nat, Match) -> nat,
    // the begin callbacks, and the end test with its callback, which may keep state: they are
    // given the number of the round
    ignores: (nat, Match) -> bool,
    ends: (nat, Mode, Match) -> bool,
    word: (Mode, string, nat) -> Option<Word>)
  {
    /** A match lies in the text, from the starting index on, and is what the text says; trying
        fewer rules never finds an earlier match. */
    ghost predicate Valid(code: string) {
      && (forall m, from, r :: exec(m, from, r).Some? ==> InText(code, from, exec(m, from, r).value))
      && (forall m, from, r, r' :: r <= r' && exec(m, from, r').Some? ==>
            exec(m, from, r).Some? && exec(m, from, r).value.index <= exec(m, from, r').value.index)
    }
  }

  predicate InText(code: string, from: nat, m: Match) {
    from <= m.index && m.index + |m.lexeme| <= |code| && code[m.index..m.index + |m.lexeme|] == m.lexeme
  }

  predicate WordInText(buffer: string, from: nat, w: Word) {
    from <= w.index && w.text != "" && w.index + |w.text| <= |buffer| && buffer[w.index..w.index + |w.text|] == w.text
  }

  /** What a run is given. */
  datatype Config = Config(oracle: Oracle, code: string, safeMode: bool, ignoreIllegals: bool)

  /** The variables of the loop: the mode stack `y` (outermost first), the buffer `A`, the position
      `S`, the round `B`, whether the matcher resumes `L`, its two indices, the last match `b`, and
      the emitter's stack. */
  datatype State = State(
    modes: seq<Mode>, buffer: string, at: nat, round: nat,
    resume: bool, regexIndex: nat, lastIndex: nat, last: Option<Match>, frames: seq<Frame>)

  // ---------- Specification: one lexeme ----------

  function Top(s: State): Mode
    requires s.modes != []
  {
    s.modes[|s.modes| - 1]
  }

  /** What the keyword loop emits at a time: text, and then perhaps a keyword in a node of its own. */
  datatype Piece = Rest(text: string) | Keyword(before: string, text: string, kind: string)

  /** The next word: the keyword pattern finds what is in the text, and never an empty word. */
  function WordAt(o: Oracle, m: Mode, buffer: string, from: nat): (w: Option<Word>)
    ensures w.Some? ==> WordInText(buffer, from, w.value)
  {
    var w := o.word(m, buffer, from);
    if w.Some? && WordInText(buffer, from, w.value) then w else None
  }

  /** The text not yet emitted before a word. */
  function BeforeWord(buffer: string, from: nat, pending: string, w: Word): string
    requires WordInText(buffer, from, w)
  {
    pending + buffer[from..w.index]
  }

  /** The pieces of the buffer from `from` on, with the text `pending` not yet emitted. */
  function Pieces(o: Oracle, m: Mode, buffer: string, from: nat, pending: string): seq<Piece>
    requires from <= |buffer|
    decreases |buffer| - from
  {
    match WordAt(o, m, buffer, from)
    case None => [Rest(pending + buffer[from..])]
    case Some(w) =>
      var before := BeforeWord(buffer, from, pending, w);
      var next := w.index + |w.text|;
      if w.kind.Some? then [Keyword(before, w.text, w.kind.value)] + Pieces(o, m, buffer, next, "")
      else Pieces(o, m, buffer, next, before + w.text)
  }

  function PieceAdded(frames: seq<Frame>, p: Piece): (r: seq<Frame>)
    requires frames != []
    ensures r != []
  {
    match p
    case Rest(text) => TextAdded(frames, text)
    case Keyword(before, text, kind) =>
      KeywordAddedAppends(TextAdded(frames, before), text, kind);
      KeywordAdded(TextAdded(frames, before), text, kind)
  }

  function PiecesAdded(frames: seq<Frame>, pieces: seq<Piece>): (r: seq<Frame>)
    requires frames != []
    ensures r != []
    decreases |pieces|
  {
    if pieces == [] then frames else PiecesAdded(PieceAdded(frames, pieces[0]), pieces[1..])
  }

  lemma PiecesAddedCons(frames: seq<Frame>, p: Piece, rest: seq<Piece>)
    requires frames != []
    ensures PiecesAdded(frames, [p] + rest) == PiecesAdded(PieceAdded(frames, p), rest)
  {
    assert ([p] + rest)[1..] == rest;
  }

  /** `u`: emit the buffer. */
  function Flushed(o: Oracle, s: State): (f: State)
    requires s.modes != [] && s.frames != []
    ensures f.frames != [] && f.modes == s.modes && f.resume == s.resume
  {
    var frames' :=
      if Top(s).keywords then PiecesAdded(s.frames, Pieces(o, Top(s), s.buffer, 0, ""))
      else TextAdded(s.frames, s.buffer);
    s.(frames := frames', buffer := "")
  }

  /** `h`: enter a mode. */
  function Entered(s: State, m: Mode): State {
    s.(modes := s.modes + [m], frames := if m.className != "" then Opened(s.frames, m.className) else s.frames)
  }

  /** `p`: a begin match that its callback refuses. JavaScript reads "undefined" past the end. */
  function Ignored(s: State, m: Match): (State, nat) {
    if s.regexIndex == 0 then (s.(buffer := s.buffer + if m.lexeme == "" then "undefined" else [m.lexeme[0]]), 1)
    else (s.(resume := true), 0)
  }

  // The buffer and the emitter at a begin match, before its mode is entered.
  function BeginText(o: Oracle, s: State, m: Match): (s': State)
    requires m.rule.Begin? && s.modes != [] && s.frames != []
    ensures s'.frames != [] && s'.modes == s.modes && s'.resume == s.resume
  {
    var r := m.rule.mode;
    if r.skip then s.(buffer := s.buffer + m.lexeme)
    else
      var f := Flushed(o, if r.excludeBegin then s.(buffer := s.buffer + m.lexeme) else s);
      if r.returnBegin || r.excludeBegin then f else f.(buffer := m.lexeme)
  }

  function Begun(o: Oracle, s: State, m: Match): (State, nat)
    requires m.rule.Begin? && s.modes != [] && s.frames != []
  {
    (Entered(BeginText(o, s, m), m.rule.mode), if m.rule.mode.returnBegin then 0 else |m.lexeme|)
  }

  /** Where an end match leads: the depth of the mode that ends, none, or a crash of the search. */
  datatype Target = At(depth: nat) | NoTarget | Crash

  function ParentTarget(modes: seq<Mode>, depth: nat): nat
    requires depth < |modes|
  {
    if modes[depth].endsParent && depth > 0 then ParentTarget(modes, depth - 1) else depth
  }

  function EndTarget(o: Oracle, s: State, m: Match, depth: nat): Target
    requires depth < |s.modes|
  {
    if o.ends(s.round, s.modes[depth], m) then At(ParentTarget(s.modes, depth))
    else if s.modes[depth].endsWithParent then if depth == 0 then Crash else EndTarget(o, s, m, depth - 1)
    else NoTarget
  }

  /** One mode is left, and its node closed if it has one. */
  function LeftOne(s: State): (out: State)
    requires s.modes != [] && s.frames != []
    ensures out.frames != [] && out.buffer == s.buffer && out.resume == s.resume
    ensures out.modes == s.modes[..|s.modes| - 1]
  {
    s.(frames := if Top(s).className != "" then Closed(s.frames) else s.frames, modes := s.modes[..|s.modes| - 1])
  }

  /** Leave modes down to `depth`, that one included. */
  function Left(s: State, depth: nat): (out: State)
    requires s.frames != []
    ensures out.frames != [] && out.buffer == s.buffer && out.resume == s.resume
    ensures out.modes == if depth < |s.modes| then s.modes[..depth] else s.modes
    decreases |s.modes|
  {
    if depth >= |s.modes| then s else Left(LeftOne(s), depth)
  }

  // The buffer and the emitter at an end match, before any mode is left.
  function EndText(o: Oracle, s: State, m: Match): (s': State)
    requires s.modes != [] && s.frames != []
    ensures s'.frames != [] && s'.modes == s.modes && s'.resume == s.resume
  {
    var y := Top(s);
    if y.skip then s.(buffer := s.buffer + m.lexeme)
    else
      var f := Flushed(o, if y.returnEnd || y.excludeEnd then s else s.(buffer := s.buffer + m.lexeme));
      if y.excludeEnd then f.(buffer := m.lexeme) else f
  }

  /** The modes left, and the one started in place of the last of them. */
  function LeftFor(s: State, depth: nat): State
    requires depth < |s.modes| && s.frames != []
  {
    var starts := s.modes[depth].starts;
    if starts.Some? then Entered(Left(s, depth), starts.value) else Left(s, depth)
  }

  function Ended(o: Oracle, s: State, m: Match, depth: nat): (State, nat)
    requires depth < |s.modes| && s.frames != []
  {
    (LeftFor(EndText(o, s, m), depth), if Top(s).returnEnd then 0 else |m.lexeme|)
  }

  /** The ways a match is handled. */
  datatype Branch = ZeroWidthEnd | Refused | Beginning | Ending(depth: nat) | SkippedIllegal | Kept | Throws(illegal: bool)

  function BranchOf(c: Config, s: State, m: Match): (branch: Branch)
    requires s.modes != []
    ensures !branch.Throws? ==> Fits(s, m, branch)
  {
    if s.last.Some? && s.last.value.rule.Begin? && m.rule.End? && s.last.value.index == m.index && m.lexeme == "" then
      if c.safeMode then ZeroWidthEnd else Throws(false)
    else if m.rule.Begin? then
      if c.oracle.ignores(s.round, m) then Refused else Beginning
    else if m.rule.Illegal? && !c.ignoreIllegals then Throws(true)
    else
      var target := if m.rule.End? then EndTarget(c.oracle, s, m, |s.modes| - 1) else NoTarget;
      EndTargetInRange(c.oracle, s, m, |s.modes| - 1);
      match target
      case At(depth) => Ending(depth)
      case Crash => Throws(false)
      case NoTarget =>
        if m.rule.Illegal? && m.lexeme == "" then SkippedIllegal
        else if s.round > 100_000 && s.round > 3 * m.index then Throws(false)
        else Kept
  }

  /** A way in which a match can be handled at all. */
  predicate Fits(s: State, m: Match, branch: Branch) {
    match branch
    case Throws(_) => false
    case Beginning => m.rule.Begin?
    case Ending(depth) => depth < |s.modes|
    case _ => true
  }

  lemma {:induction false} EndTargetInRange(o: Oracle, s: State, m: Match, depth: nat)
    requires depth < |s.modes|
    ensures EndTarget(o, s, m, depth).At? ==> EndTarget(o, s, m, depth).depth < |s.modes|
  {
    if o.ends(s.round, s.modes[depth], m) {
      ParentTargetInRange(s.modes, depth);
    } else if depth > 0 {
      EndTargetInRange(o, s, m, depth - 1);
    }
  }

  lemma {:induction false} ParentTargetInRange(modes: seq<Mode>, depth: nat)
    requires depth < |modes|
    ensures ParentTarget(modes, depth) <= depth
  {
    if modes[depth].endsParent && depth > 0 {
      ParentTargetInRange(modes, depth - 1);
    }
  }

  function Slice(s: string, from: nat, to: nat): string {
    if from <= to <= |s| then s[from..to] else if from <= |s| then s[from..] else ""
  }

  /** `x` with a match: the state, and how far past the match's index to go on. The text before the
      match is already in the buffer. */
  function Handled(c: Config, s: State, m: Match, branch: Branch): (State, nat)
    requires s.modes != [] && s.frames != [] && Fits(s, m, branch)
  {
    match branch
    case ZeroWidthEnd => (s.(buffer := s.buffer + Slice(c.code, m.index, m.index + 1)), 1)
    case Refused => Ignored(s.(last := Some(m)), m)
    case Beginning => Begun(c.oracle, s.(last := Some(m)), m)
    case Ending(depth) => Ended(c.oracle, s.(last := Some(m)), m, depth)
    case SkippedIllegal => (s.(last := Some(m)), 1)
    case Kept => (s.(last := Some(m), buffer := s.buffer + m.lexeme), |m.lexeme|)
  }

  // ---------- Specification: one round ----------

  datatype End = Finished | Thrown(illegal: bool)

  /** The matcher's indices at the start of a round. */
  function Started(s: State): State {
    if s.resume then s.(round := s.round + 1, resume := false)
    else s.(round := s.round + 1, lastIndex := s.at, regexIndex := 0)
  }

  function Found(c: Config, s: State): Option<Match>
    requires s.modes != []
  {
    c.oracle.exec(Top(s), Started(s).lastIndex, Started(s).regexIndex)
  }

  /** The matcher has moved on to the rules after the one that matched, and the text before the match
      is in the buffer. */
  function MovedTo(c: Config, s: State, m: Match): State
    requires s.modes != []
  {
    var next := s.regexIndex + c.oracle.position(s.round, m) + 1;
    s.(regexIndex := if next == Top(s).begins then 0 else next,
       buffer := s.buffer + if s.at <= m.index then Slice(c.code, s.at, m.index) else Slice(c.code, m.index, s.at))
  }

  /** The state in which the match is handled. */
  function Ready(c: Config, s: State, m: Match): State
    requires s.modes != []
  {
    MovedTo(c, Started(s), m)
  }

  /** The rest of a round, once its match is found. */
  function HandledRound(c: Config, ready: State, m: Match): Step<State, End>
    requires ready.modes != [] && ready.frames != []
  {
    var branch := BranchOf(c, ready, m);
    if branch.Throws? then Stop(Thrown(branch.illegal))
    else
      var (s', n) := Handled(c, ready, m, branch);
      Go(s'.(at := m.index + n))
  }

  lemma HandledRoundGoes(c: Config, ready: State, m: Match, branch: Branch, s: State, n: nat)
    requires ready.modes != [] && ready.frames != [] && branch == BranchOf(c, ready, m)
    requires !branch.Throws? && (s, n) == Handled(c, ready, m, branch)
    ensures HandledRound(c, ready, m) == Go(s.(at := m.index + n))
  {
  }

  /** One round of the loop. (There is always a root node, so the frames are never empty.) */
  function Round(c: Config, s: State): Step<State, End> {
    if s.modes == [] || s.frames == [] then Stop(Thrown(false))
    else
      match Found(c, s)
      case None => Stop(Finished)
      case Some(m) => HandledRound(c, Ready(c, s, m), m)
  }

  function RoundOf(c: Config): State -> Step<State, End> {
    s => Round(c, s)
  }

  function Rounds(c: Config, s: State, n: nat): Step<State, End> {
    Run(RoundOf(c), s, n)
  }

  lemma NextRound(c: Config, s: State, n: nat)
    requires Rounds(c, s, n).Go?
    ensures Rounds(c, s, n + 1) == Round(c, Rounds(c, s, n).state)
  {
    RunAdds(RoundOf(c), s, n, 1);
    OneStep(RoundOf(c), Rounds(c, s, n).state);
  }

  lemma StopsFor(c: Config, s: State, n: nat, limit: nat)
    requires n <= limit && (Rounds(c, s, n).Go? ==> n == limit)
    ensures Rounds(c, s, limit) == Rounds(c, s, n)
  {
    RunStops(RoundOf(c), s, n, limit);
  }

  /** An empty end match where the last match began a mode. */
  predicate IsZeroWidth(s: State, m: Match) {
    match s.last
    case None => false
    case Some(last) => last.rule.Begin? && m.rule.End? && m.lexeme == "" && m.index == last.index
  }

  predicate IsLooping(s: State, m: Match) {
    s.round > 100_000 && s.round > 3 * m.index
  }

  /** When a match is handled in which way. */
  lemma BranchExactly(c: Config, s: State, m: Match)
    requires s.modes != []
    ensures var branch, target := BranchOf(c, s, m), EndTarget(c.oracle, s, m, |s.modes| - 1);
            && (branch == ZeroWidthEnd <==> IsZeroWidth(s, m) && c.safeMode)
            && (branch == Refused <==> m.rule.Begin? && c.oracle.ignores(s.round, m))
            && (branch == Beginning <==> m.rule.Begin? && !c.oracle.ignores(s.round, m))
            && (forall depth :: branch == Ending(depth) <==> m.rule.End? && !IsZeroWidth(s, m) && target == At(depth))
            && (branch == Throws(true) <==> m.rule.Illegal? && !c.ignoreIllegals)
            && (branch == SkippedIllegal <==> m.rule.Illegal? && c.ignoreIllegals && m.lexeme == "")
            && (branch == Kept <==>
                  && (|| (m.rule.Illegal? && c.ignoreIllegals && m.lexeme != "")
                      || (m.rule.End? && !IsZeroWidth(s, m) && target == NoTarget))
                  && !IsLooping(s, m))
  {
  }

  /** Where the next round searches: after a refused match among the rules after the refused one, from where
      this round searched, unless these were all the begin rules; otherwise afresh, with all rules, from
      where this round has come to. A refused match that was the last of them is passed by one character. */
  lemma NextSearch(c: Config, s: State, m: Match)
    requires s.modes != [] && s.frames != [] && Found(c, s) == Some(m) && Round(c, s).Go?
    ensures var next, branch := Round(c, s).state, BranchOf(c, Ready(c, s, m), m);
            var from := if s.resume then s.lastIndex else s.at;
            var tried := (if s.resume then s.regexIndex else 0) + c.oracle.position(s.round + 1, m) + 1;
            && next.round == s.round + 1
            && (branch.Refused? ==> next.modes == s.modes)
            && (branch.Refused? && tried != Top(s).begins ==>
                  next.at == m.index && Found(c, next) == c.oracle.exec(Top(s), from, tried))
            && (branch.Refused? && tried == Top(s).begins ==>
                  next.at == m.index + 1 && Found(c, next) == c.oracle.exec(Top(s), m.index + 1, 0))
            && (!branch.Refused? && next.modes != [] ==> Found(c, next) == c.oracle.exec(Top(next), next.at, 0))
  {
    var ready := Ready(c, s, m);
    var branch := BranchOf(c, ready, m);
    var (t, n) := Handled(c, ready, m, branch);
    HandledRoundGoes(c, ready, m, branch, t, n);
    HandledSearch(c, ready, m, branch);
  }

  lemma HandledSearch(c: Config, s: State, m: Match, branch: Branch)
    requires s.modes != [] && s.frames != [] && Fits(s, m, branch) && !s.resume
    ensures var (t, n) := Handled(c, s, m, branch);
            && t.round == s.round
            && (branch.Refused? ==>
                  && t.modes == s.modes && t.lastIndex == s.lastIndex && t.regexIndex == s.regexIndex
                  && n == (if s.regexIndex == 0 then 1 else 0) && (t.resume <==> s.regexIndex != 0))
            && (!branch.Refused? ==> !t.resume)
  {
    if branch.Ending? {
      LeftKeepsRound(EndText(c.oracle, s.(last := Some(m)), m), branch.depth);
    }
  }

  lemma {:induction false} LeftKeepsRound(s: State, depth: nat)
    requires s.frames != []
    ensures Left(s, depth).round == s.round
    decreases |s.modes|
  {
    if depth < |s.modes| {
      LeftKeepsRound(LeftOne(s), depth);
    }
  }

  /** States in which the same text has been handled in the same way. */
  predicate Agree(s: State, t: State) {
    s.modes == t.modes && s.frames == t.frames && s.buffer == t.buffer && s.at == t.at
  }

  // ---------- Text conservation ----------

  function Seen(code: string, at: nat): string {
    if at <= |code| then code[..at] else code
  }

  /** All text emitted or pending. */
  function Written(s: State): string {
    TextOfFrames(s.frames) + s.buffer
  }

  /** What holds between rounds: the root is never closed, and a resumed matcher finds nothing
      before the current position. */
  ghost predicate Sound(c: Config, s: State) {
    && s.frames != []
    && (s.resume ==>
          s.modes != [] &&
          forall r :: s.regexIndex <= r && c.oracle.exec(Top(s), s.lastIndex, r).Some? ==>
            s.at <= c.oracle.exec(Top(s), s.lastIndex, r).value.index)
  }

  /** Emitted text and buffer are exactly the code consumed so far. */
  ghost predicate Conserves(c: Config, s: State) {
    Sound(c, s) && Written(s) == Seen(c.code, s.at)
  }

  function PieceText(p: Piece): string {
    if p.Rest? then p.text else p.before + p.text
  }

  function PiecesText(pieces: seq<Piece>): string {
    if pieces == [] then "" else PieceText(pieces[0]) + PiecesText(pieces[1..])
  }

  lemma PiecesAtWord(o: Oracle, m: Mode, buffer: string, from: nat, pending: string, w: Word)
    requires from <= |buffer| && WordAt(o, m, buffer, from) == Some(w)
    ensures from < w.index + |w.text| <= |buffer| && from <= w.index
    ensures var before, next := BeforeWord(buffer, from, pending, w), w.index + |w.text|;
            Pieces(o, m, buffer, from, pending) ==
            if w.kind.Some? then [Keyword(before, w.text, w.kind.value)] + Pieces(o, m, buffer, next, "")
            else Pieces(o, m, buffer, next, before + w.text)
  {
  }

  lemma KeywordPieces(o: Oracle, m: Mode, buffer: string, from: nat, pending: string, w: Word, frames: seq<Frame>)
    requires from <= |buffer| && WordAt(o, m, buffer, from) == Some(w) && w.kind.Some? && frames != []
    ensures w.index + |w.text| <= |buffer|
    ensures PiecesAdded(frames, Pieces(o, m, buffer, from, pending)) ==
            PiecesAdded(PieceAdded(frames, Keyword(BeforeWord(buffer, from, pending, w), w.text, w.kind.value)),
                        Pieces(o, m, buffer, w.index + |w.text|, ""))
  {
    PiecesAtWord(o, m, buffer, from, pending, w);
    PiecesAddedCons(frames, Keyword(BeforeWord(buffer, from, pending, w), w.text, w.kind.value),
                    Pieces(o, m, buffer, w.index + |w.text|, ""));
  }

  ghost predicate ArePieces(o: Oracle, m: Mode, buffer: string, from: nat, pending: string, pieces: seq<Piece>)
    requires from <= |buffer|
  {
    pieces == Pieces(o, m, buffer, from, pending)
  }

  /** What the rest of the buffer still has to add. */
  ghost predicate WordsLeft(o: Oracle, m: Mode, buffer: string, from: nat, pending: string, frames: seq<Frame>, total: seq<Frame>) {
    && from <= |buffer| && frames != []
    && forall pieces :: ArePieces(o, m, buffer, from, pending, pieces) ==> total == PiecesAdded(frames, pieces)
  }

  lemma WordsLeftAre(o: Oracle, m: Mode, buffer: string, from: nat, pending: string, frames: seq<Frame>, total: seq<Frame>)
    requires from <= |buffer| && frames != []
    ensures WordsLeft(o, m, buffer, from, pending, frames, total) <==> total == PiecesAdded(frames, Pieces(o, m, buffer, from, pending))
  {
    assert ArePieces(o, m, buffer, from, pending, Pieces(o, m, buffer, from, pending));
  }

  lemma KeywordLeft(o: Oracle, m: Mode, buffer: string, from: nat, pending: string, w: Word, frames: seq<Frame>, total: seq<Frame>)
    requires WordsLeft(o, m, buffer, from, pending, frames, total) && WordAt(o, m, buffer, from) == Some(w) && w.kind.Some?
    ensures WordsLeft(o, m, buffer, w.index + |w.text|, "",
                      PieceAdded(frames, Keyword(BeforeWord(buffer, from, pending, w), w.text, w.kind.value)), total)
  {
    KeywordPieces(o, m, buffer, from, pending, w, frames);
    WordsLeftAre(o, m, buffer, from, pending, frames, total);
    WordsLeftAre(o, m, buffer, w.index + |w.text|, "",
                 PieceAdded(frames, Keyword(BeforeWord(buffer, from, pending, w), w.text, w.kind.value)), total);
  }

  lemma WordPutOff(o: Oracle, m: Mode, buffer: string, from: nat, pending: string, w: Word, frames: seq<Frame>, total: seq<Frame>)
    requires WordsLeft(o, m, buffer, from, pending, frames, total) && WordAt(o, m, buffer, from) == Some(w) && w.kind.None?
    ensures WordsLeft(o, m, buffer, w.index + |w.text|, BeforeWord(buffer, from, pending, w) + w.text, frames, total)
  {
    PiecesAtWord(o, m, buffer, from, pending, w);
    WordsLeftAre(o, m, buffer, from, pending, frames, total);
    WordsLeftAre(o, m, buffer, w.index + |w.text|, BeforeWord(buffer, from, pending, w) + w.text, frames, total);
  }

  lemma RestLeft(o: Oracle, m: Mode, buffer: string, from: nat, pending: string, frames: seq<Frame>, total: seq<Frame>)
    requires WordsLeft(o, m, buffer, from, pending, frames, total) && WordAt(o, m, buffer, from).None?
    ensures total == TextAdded(frames, pending + buffer[from..])
  {
    PiecesAddedCons(frames, Rest(pending + buffer[from..]), []);
    assert [Rest(pending + buffer[from..])] + [] == Pieces(o, m, buffer, from, pending);
    WordsLeftAre(o, m, buffer, from, pending, frames, total);
  }

  lemma RestText(text: string)
    ensures PiecesText([Rest(text)]) == text
  {
    assert [Rest(text)][1..] == [];
    assert text + "" == text;
  }

  /** The pieces are the buffer, cut up. */
  lemma {:induction false} PiecesAreTheBuffer(o: Oracle, m: Mode, buffer: string, from: nat, pending: string)
    requires from <= |buffer|
    ensures PiecesText(Pieces(o, m, buffer, from, pending)) == pending + buffer[from..]
    decreases |buffer| - from, 1
  {
    match WordAt(o, m, buffer, from) {
      case None => RestText(pending + buffer[from..]);
      case Some(w) =>
        PiecesAtWord(o, m, buffer, from, pending, w);
        WordInBuffer(pending, buffer, from, w);
        PiecesFromWord(o, m, buffer, from, w, BeforeWord(buffer, from, pending, w));
    }
  }

  lemma {:induction false} PiecesFromWord(o: Oracle, m: Mode, buffer: string, from: nat, w: Word, before: string)
    requires from < w.index + |w.text| <= |buffer|
    ensures var next := w.index + |w.text|;
            PiecesText(if w.kind.Some? then [Keyword(before, w.text, w.kind.value)] + Pieces(o, m, buffer, next, "")
                       else Pieces(o, m, buffer, next, before + w.text)) == (before + w.text) + buffer[next..]
    decreases |buffer| - from, 0
  {
    var next := w.index + |w.text|;
    if w.kind.Some? {
      PiecesAreTheBuffer(o, m, buffer, next, "");
      KeywordInFront(before, w.text, w.kind.value, Pieces(o, m, buffer, next, ""), buffer[next..]);
    } else {
      PiecesAreTheBuffer(o, m, buffer, next, before + w.text);
    }
  }

  lemma WordInBuffer(pending: string, buffer: string, from: nat, w: Word)
    requires WordInText(buffer, from, w)
    ensures var rest := buffer[w.index + |w.text|..];
            (BeforeWord(buffer, from, pending, w) + w.text) + rest == pending + buffer[from..] && "" + rest == rest
  {
    SplitAtWord(buffer, from, w);
    Regroup(pending, buffer[from..w.index], w.text, buffer[w.index + |w.text|..]);
  }

  lemma KeywordInFront(before: string, text: string, kind: string, pieces: seq<Piece>, rest: string)
    requires PiecesText(pieces) == "" + rest
    ensures PiecesText([Keyword(before, text, kind)] + pieces) == (before + text) + rest
  {
    PiecesTextCons(Keyword(before, text, kind), pieces);
    assert "" + rest == rest;
  }

  lemma PiecesTextCons(p: Piece, rest: seq<Piece>)
    ensures PiecesText([p] + rest) == PieceText(p) + PiecesText(rest)
  {
    assert ([p] + rest)[1..] == rest;
  }

  lemma PieceAddedAppends(frames: seq<Frame>, p: Piece)
    requires frames != []
    ensures var r := PieceAdded(frames, p); TextOfFrames(r) == TextOfFrames(frames) + PieceText(p) && Kinds(r) == Kinds(frames)
  {
    if p.Rest? {
      TextAddedAppends(frames, p.text);
    } else {
      TextAddedAppends(frames, p.before);
      KeywordAddedAppends(TextAdded(frames, p.before), p.text, p.kind);
      Associates(TextOfFrames(frames), p.before, p.text);
    }
  }

  lemma Associates(a: string, b: string, c: string)
    ensures (a + b) + c == a + (b + c)
  {
  }

  lemma {:induction false} PiecesAddedAppend(frames: seq<Frame>, pieces: seq<Piece>)
    requires frames != []
    ensures var r := PiecesAdded(frames, pieces);
            TextOfFrames(r) == TextOfFrames(frames) + PiecesText(pieces) && Kinds(r) == Kinds(frames)
    decreases |pieces|
  {
    if pieces != [] {
      PieceAddedAppends(frames, pieces[0]);
      PiecesAddedAppend(PieceAdded(frames, pieces[0]), pieces[1..]);
      Associates(TextOfFrames(frames), PieceText(pieces[0]), PiecesText(pieces[1..]));
    }
  }

  lemma SplitAtWord(buffer: string, from: nat, w: Word)
    requires WordInText(buffer, from, w)
    ensures buffer[from..] == buffer[from..w.index] + (w.text + buffer[w.index + |w.text|..])
  {}

  lemma Regroup(pending: string, before: string, word: string, rest: string)
    ensures pending + (before + (word + rest)) == ((pending + before) + word) + rest
    ensures "" + rest == rest
  {
  }

  lemma FlushedConserves(c: Config, s: State)
    requires s.modes != [] && s.frames != []
    ensures var f := Flushed(c.oracle, s);
            f.frames != [] && Written(f) == Written(s) && Kinds(f.frames) == Kinds(s.frames) && f.buffer == ""
  {
    if Top(s).keywords {
      PiecesAreTheBuffer(c.oracle, Top(s), s.buffer, 0, "");
      PiecesAddedAppend(s.frames, Pieces(c.oracle, Top(s), s.buffer, 0, ""));
      assert "" + s.buffer[0..] == s.buffer;
    } else {
      TextAddedAppends(s.frames, s.buffer);
    }
    assert Written(Flushed(c.oracle, s)) == TextOfFrames(Flushed(c.oracle, s).frames);
  }

  lemma EnteredConserves(s: State, m: Mode)
    requires s.frames != []
    ensures Written(Entered(s, m)) == Written(s) && Entered(s, m).frames != []
    ensures Kinds(Entered(s, m).frames) == Kinds(s.frames) + if m.className != "" then [m.className] else []
  {
    OpenedAppendsNothing(s.frames, m.className);
  }

  lemma {:induction false} LeftConserves(s: State, depth: nat)
    requires s.frames != []
    ensures Written(Left(s, depth)) == Written(s) && Left(s, depth).frames != []
    decreases |s.modes|
  {
    if depth < |s.modes| {
      ClosedAppendsNothing(s.frames);
      LeftConserves(LeftOne(s), depth);
    }
  }

  /** Exactly when one match leaves nothing out and repeats nothing. */
  predicate Faithful(c: Config, s: State, m: Match, branch: Branch)
    requires s.modes != [] && Fits(s, m, branch)
  {
    match branch
    case Refused => s.regexIndex == 0 ==> m.lexeme != ""
    case Beginning => m.rule.mode.returnBegin && (m.rule.mode.skip || m.rule.mode.excludeBegin) ==> m.lexeme == ""
    case Ending(_) => Top(s).returnEnd && (Top(s).skip || Top(s).excludeEnd) ==> m.lexeme == ""
    case SkippedIllegal => m.index == |c.code|
    case _ => true
  }

  /** The text a handled match adds. */
  function Contribution(c: Config, s: State, m: Match, branch: Branch): string
    requires s.modes != [] && Fits(s, m, branch)
  {
    match branch
    case ZeroWidthEnd => Slice(c.code, m.index, m.index + 1)
    case Refused => if s.regexIndex != 0 then "" else if m.lexeme == "" then "undefined" else [m.lexeme[0]]
    case Beginning =>
      var r := m.rule.mode;
      if r.returnBegin && !r.skip && !r.excludeBegin then "" else m.lexeme
    case Ending(_) => EndContribution(Top(s), m)
    case SkippedIllegal => ""
    case _ => m.lexeme
  }

  function EndContribution(y: Mode, m: Match): string {
    if y.returnEnd && !y.skip && !y.excludeEnd then "" else m.lexeme
  }

  lemma BufferGrows(s: State, text: string)
    ensures Written(s.(buffer := s.buffer + text)) == Written(s) + text
    ensures s.buffer == "" ==> Written(s.(buffer := text)) == Written(s) + text
  {}

  lemma BeginTextWrites(c: Config, s: State, m: Match)
    requires s.modes != [] && s.frames != [] && m.rule.Begin?
    ensures var r := m.rule.mode;
            Written(BeginText(c.oracle, s, m)) ==
            Written(s) + (if r.returnBegin && !r.skip && !r.excludeBegin then "" else m.lexeme)
    ensures Kinds(BeginText(c.oracle, s, m).frames) == Kinds(s.frames)
  {
    var r := m.rule.mode;
    BufferGrows(s, m.lexeme);
    if !r.skip {
      var before := if r.excludeBegin then s.(buffer := s.buffer + m.lexeme) else s;
      FlushedConserves(c, before);
      BufferGrows(Flushed(c.oracle, before), m.lexeme);
    }
  }

  lemma EndTextWrites(c: Config, s: State, m: Match)
    requires s.modes != [] && s.frames != []
    ensures Written(EndText(c.oracle, s, m)) == Written(s) + EndContribution(Top(s), m)
    ensures Kinds(EndText(c.oracle, s, m).frames) == Kinds(s.frames)
  {
    var y := Top(s);
    BufferGrows(s, m.lexeme);
    if !y.skip {
      var before := if y.returnEnd || y.excludeEnd then s else s.(buffer := s.buffer + m.lexeme);
      FlushedConserves(c, before);
      BufferGrows(Flushed(c.oracle, before), m.lexeme);
    }
  }

  lemma BeginningWrites(c: Config, s: State, m: Match)
    requires s.modes != [] && s.frames != [] && m.rule.Begin?
    ensures Handled(c, s, m, Beginning).0.frames != []
    ensures Written(Handled(c, s, m, Beginning).0) == Written(s) + Contribution(c, s, m, Beginning)
  {
    var s1 := s.(last := Some(m));
    assert Written(s1) == Written(s);
    BeginTextWrites(c, s1, m);
    EnteredConserves(BeginText(c.oracle, s1, m), m.rule.mode);
  }

  lemma EndedWrites(c: Config, s: State, m: Match, depth: nat)
    requires depth < |s.modes| && s.frames != []
    ensures Ended(c.oracle, s, m, depth).0.frames != []
    ensures Written(Ended(c.oracle, s, m, depth).0) == Written(s) + EndContribution(Top(s), m)
  {
    EndTextWrites(c, s, m);
    var out := Left(EndText(c.oracle, s, m), depth);
    LeftConserves(EndText(c.oracle, s, m), depth);
    if s.modes[depth].starts.Some? {
      EnteredConserves(out, s.modes[depth].starts.value);
    }
  }

  lemma EndingWrites(c: Config, s: State, m: Match, depth: nat)
    requires depth < |s.modes| && s.frames != []
    ensures Handled(c, s, m, Ending(depth)).0.frames != []
    ensures Written(Handled(c, s, m, Ending(depth)).0) == Written(s) + Contribution(c, s, m, Ending(depth))
  {
    var s1 := s.(last := Some(m));
    assert Written(s1) == Written(s) && Top(s1) == Top(s);
    EndedWrites(c, s1, m, depth);
  }

  lemma HandledWrites(c: Config, s: State, m: Match, branch: Branch)
    requires s.modes != [] && s.frames != [] && Fits(s, m, branch)
    ensures Handled(c, s, m, branch).0.frames != []
    ensures Written(Handled(c, s, m, branch).0) == Written(s) + Contribution(c, s, m, branch)
  {
    match branch {
      case Beginning => BeginningWrites(c, s, m);
      case Ending(depth) => EndingWrites(c, s, m, depth);
      case ZeroWidthEnd | Refused | SkippedIllegal | Kept => BufferGrows(s, Contribution(c, s, m, branch));
    }
  }

  lemma SeenGrows(code: string, at: nat, text: string)
    requires at + |text| <= |code| && code[at..at + |text|] == text
    ensures Seen(code, at) + text == Seen(code, at + |text|)
  {}

  // Up to the match, everything is accounted for.
  lemma ReadyConserves(c: Config, s: State, m: Match)
    requires c.oracle.Valid(c.code) && Conserves(c, s) && s.modes != [] && Found(c, s) == Some(m)
    ensures s.at <= m.index && InText(c.code, s.at, m)
    ensures Written(Ready(c, s, m)) == Seen(c.code, m.index)
  {
    var before := c.code[s.at..m.index];
    SeenGrows(c.code, s.at, before);
    BufferGrows(s, before);
  }

  /** How far past its index a handled match moves on. */
  function Progress(s: State, m: Match, branch: Branch): nat
    requires s.modes != [] && Fits(s, m, branch)
  {
    match branch
    case Refused => if s.regexIndex == 0 then 1 else 0
    case Beginning => if m.rule.mode.returnBegin then 0 else |m.lexeme|
    case Ending(_) => if Top(s).returnEnd then 0 else |m.lexeme|
    case Kept => |m.lexeme|
    case _ => 1
  }

  lemma HandledProgress(c: Config, s: State, m: Match, branch: Branch)
    requires s.modes != [] && s.frames != [] && Fits(s, m, branch)
    ensures Handled(c, s, m, branch).1 == Progress(s, m, branch)
  {
  }

  /** What a match adds is what it moves past, exactly when it is handled faithfully. */
  lemma FaithfulContribution(c: Config, s: State, m: Match, branch: Branch)
    requires s.modes != [] && Fits(s, m, branch)
    requires m.index <= |c.code| && InText(c.code, m.index, m)
    ensures Seen(c.code, m.index) + Contribution(c, s, m, branch) == Seen(c.code, m.index + Progress(s, m, branch)) <==>
            Faithful(c, s, m, branch)
  {
    var seen, text, n := Seen(c.code, m.index), Contribution(c, s, m, branch), Progress(s, m, branch);
    assert |seen| == m.index;
    assert |seen + text| == m.index + |text|;
    if m.index + n <= |c.code| && |text| == n {
      assert text == c.code[m.index..m.index + n] ==> seen + text == Seen(c.code, m.index + n);
    }
    if m.lexeme != "" {
      assert m.lexeme[0] == c.code[m.index];
    }
  }

  /** A match of a conserving state leaves a conserving state exactly when it is handled faithfully. */
  lemma HandledConserves(c: Config, s: State, m: Match, branch: Branch)
    requires s.modes != [] && s.frames != [] && Fits(s, m, branch)
    requires m.index <= |c.code| && InText(c.code, m.index, m) && Written(s) == Seen(c.code, m.index)
    ensures var (s', n) := Handled(c, s, m, branch);
            s'.frames != [] && (Written(s') == Seen(c.code, m.index + n) <==> Faithful(c, s, m, branch))
  {
    HandledWrites(c, s, m, branch);
    HandledProgress(c, s, m, branch);
    FaithfulContribution(c, s, m, branch);
  }

  // Only a refused match makes the matcher resume.
  lemma HandledResumes(c: Config, s: State, m: Match, branch: Branch)
    requires s.modes != [] && s.frames != [] && Fits(s, m, branch) && !s.resume
    ensures var (s', n) := Handled(c, s, m, branch);
            s'.resume ==> branch.Refused? && s.regexIndex != 0 && n == 0 && s' == s.(last := Some(m), resume := true)
  {
  }

  /** The rules tried after a refused match find nothing before it. */
  ghost predicate NothingBefore(c: Config, ready: State, m: Match)
    requires ready.modes != []
  {
    ready.regexIndex != 0 ==>
      forall r :: ready.regexIndex <= r && c.oracle.exec(Top(ready), ready.lastIndex, r).Some? ==>
        m.index <= c.oracle.exec(Top(ready), ready.lastIndex, r).value.index
  }

  lemma NothingBeforeReady(c: Config, s: State, m: Match)
    requires c.oracle.Valid(c.code) && s.modes != [] && Found(c, s) == Some(m)
    ensures NothingBefore(c, Ready(c, s, m), m)
  {
    assert Ready(c, s, m).regexIndex != 0 ==> Started(s).regexIndex < Ready(c, s, m).regexIndex;
  }

  lemma HandledRoundConserves(c: Config, ready: State, m: Match)
    requires ready.modes != [] && ready.frames != []
    requires var branch := BranchOf(c, ready, m); !branch.Throws? && Fits(ready, m, branch)
    requires !ready.resume && NothingBefore(c, ready, m)
    requires m.index <= |c.code| && InText(c.code, m.index, m) && Written(ready) == Seen(c.code, m.index)
    ensures var next := HandledRound(c, ready, m).state;
            Sound(c, next) && (Written(next) == Seen(c.code, next.at) <==> Faithful(c, ready, m, BranchOf(c, ready, m)))
  {
    var branch := BranchOf(c, ready, m);
    HandledConserves(c, ready, m, branch);
    HandledResumes(c, ready, m, branch);
    var (s', n) := Handled(c, ready, m, branch);
    var next := s'.(at := m.index + n);
    assert Written(next) == Written(s');
    if next.resume {
      assert Top(next) == Top(ready) && next.lastIndex == ready.lastIndex && next.regexIndex == ready.regexIndex;
    }
  }

  /** The match of a round, in the way in which it is handled, is handled faithfully. */
  predicate FaithfulRound(c: Config, ready: State, m: Match)
    requires ready.modes != []
  {
    var branch := BranchOf(c, ready, m);
    !branch.Throws? && Faithful(c, ready, m, branch)
  }

  /** One round keeps emitted text and buffer equal to the code consumed, exactly when its match is
      handled faithfully. */
  lemma RoundConserves(c: Config, s: State, m: Match)
    requires c.oracle.Valid(c.code) && Conserves(c, s) && s.modes != [] && Found(c, s) == Some(m)
    requires Round(c, s).Go?
    ensures Sound(c, Round(c, s).state)
    ensures Conserves(c, Round(c, s).state) <==> FaithfulRound(c, Ready(c, s, m), m)
  {
    ReadyConserves(c, s, m);
    NothingBeforeReady(c, s, m);
    HandledRoundConserves(c, Ready(c, s, m), m);
  }

  // ---------- Whole runs ----------

  /** A mode that never both returns a lexeme to the text and keeps it. */
  predicate GoodMode(m: Mode) {
    && !(m.returnBegin && (m.skip || m.excludeBegin))
    && !(m.returnEnd && (m.skip || m.excludeEnd))
    && (m.starts.Some? ==> GoodMode(m.starts.value))
  }

  predicate GoodModes(modes: seq<Mode>) {
    modes == [] || (GoodMode(modes[|modes| - 1]) && GoodModes(modes[..|modes| - 1]))
  }

  /** A language whose modes are good, whose refused matches are not empty, and whose illegal
      matches, if they are ignored, are not empty except at the end. */
  ghost predicate GoodLanguage(c: Config) {
    forall m, from, r :: c.oracle.exec(m, from, r).Some? ==>
      var x := c.oracle.exec(m, from, r).value;
      match x.rule
      case Begin(mode) => GoodMode(mode) && ((exists n :: c.oracle.ignores(n, x)) ==> x.lexeme != "")
      case End => true
      case Illegal => c.ignoreIllegals && x.lexeme == "" ==> x.index == |c.code|
  }

  lemma {:induction false} GoodModesPrefix(modes: seq<Mode>, depth: nat)
    requires GoodModes(modes) && depth <= |modes|
    ensures GoodModes(modes[..depth])
    ensures depth < |modes| ==> GoodMode(modes[depth])
    decreases |modes|
  {
    if depth < |modes| {
      GoodModesPrefix(modes[..|modes| - 1], depth);
      assert modes[..|modes| - 1][..depth] == modes[..depth];
    } else {
      assert modes[..depth] == modes;
    }
  }

  lemma GoodModesSnoc(modes: seq<Mode>, m: Mode)
    requires GoodModes(modes) && GoodMode(m)
    ensures GoodModes(modes + [m])
  {
    assert (modes + [m])[..|modes|] == modes;
  }

  lemma BegunModes(o: Oracle, s: State, m: Match)
    requires m.rule.Begin? && s.modes != [] && s.frames != []
    requires GoodModes(s.modes) && GoodMode(m.rule.mode)
    ensures GoodModes(Begun(o, s, m).0.modes)
  {
    GoodModesSnoc(s.modes, m.rule.mode);
  }

  lemma EndedModes(o: Oracle, s: State, m: Match, depth: nat)
    requires depth < |s.modes| && s.frames != [] && GoodModes(s.modes)
    ensures GoodModes(Ended(o, s, m, depth).0.modes)
  {
    GoodModesPrefix(s.modes, depth);
    if s.modes[depth].starts.Some? {
      GoodModesSnoc(s.modes[..depth], s.modes[depth].starts.value);
    }
  }

  lemma HandledModes(c: Config, s: State, m: Match, branch: Branch)
    requires s.modes != [] && s.frames != [] && Fits(s, m, branch)
    requires GoodModes(s.modes) && (m.rule.Begin? ==> GoodMode(m.rule.mode))
    ensures GoodModes(Handled(c, s, m, branch).0.modes)
  {
    var s1 := s.(last := Some(m));
    match branch {
      case Beginning => BegunModes(c.oracle, s1, m);
      case Ending(depth) => EndedModes(c.oracle, s1, m, depth);
      case ZeroWidthEnd | Refused | SkippedIllegal | Kept =>
    }
  }

  lemma GoodMatch(c: Config, s: State, m: Match)
    requires GoodLanguage(c) && s.modes != [] && GoodModes(s.modes) && Found(c, s) == Some(m)
    ensures m.rule.Begin? ==> GoodMode(m.rule.mode)
    ensures !BranchOf(c, Ready(c, s, m), m).Throws? ==> FaithfulRound(c, Ready(c, s, m), m)
  {
    var ready := Ready(c, s, m);
    assert GoodMode(Top(ready));
  }

  /** What a run of a good language keeps. */
  ghost predicate Keeps(c: Config, s: State) {
    Conserves(c, s) && GoodModes(s.modes)
  }

  /** A round of a good language conserves the text. */
  lemma GoodRoundConserves(c: Config, s: State)
    requires c.oracle.Valid(c.code) && GoodLanguage(c) && Keeps(c, s)
    requires Round(c, s).Go?
    ensures Keeps(c, Round(c, s).state)
  {
    var m := Found(c, s).value;
    GoodMatch(c, s, m);
    RoundConserves(c, s, m);
    HandledModes(c, Ready(c, s, m), m, BranchOf(c, Ready(c, s, m), m));
  }

  /** Every round of every run of a good language conserves the text. */
  lemma RunConserves(c: Config, s: State, n: nat)
    requires c.oracle.Valid(c.code) && GoodLanguage(c) && Keeps(c, s)
    ensures Rounds(c, s, n).Go? ==> Keeps(c, Rounds(c, s, n).state)
  {
    var step, keeps := RoundOf(c), x => Keeps(c, x);
    forall x | keeps(x) && step(x).Go? ensures keeps(step(x).state) {
      GoodRoundConserves(c, x);
    }
    RunKeeps(step, keeps, s, n);
  }

  /** The last step: the rest of the code goes through the buffer. */
  function Last(c: Config, s: State): State
    requires s.modes != [] && s.frames != []
  {
    Flushed(c.oracle, s.(buffer := s.buffer + Slice(c.code, s.at, |c.code|)))
  }

  lemma SeenToEnd(code: string, at: nat)
    ensures Seen(code, at) + Slice(code, at, |code|) == code
  {
    if at <= |code| {
      assert code[..at] + code[at..|code|] == code;
    } else {
      assert code + "" == code;
    }
  }

  lemma LastConserves(c: Config, s: State)
    requires s.modes != [] && s.frames != [] && Written(s) == Seen(c.code, s.at)
    ensures TextOfFrames(Last(c, s).frames) == c.code
  {
    var rest := Slice(c.code, s.at, |c.code|);
    FlushedConserves(c, s.(buffer := s.buffer + rest));
    BufferGrows(s, rest);
    SeenToEnd(c.code, s.at);
    assert TextOfFrames(Last(c, s).frames) + "" == TextOfFrames(Last(c, s).frames);
  }

  /** The tree of a loop that finds no match in `s`. */
  function FinishedTree(c: Config, s: State): seq<TokenNode>
    requires s.modes != [] && s.frames != []
  {
    AllClosed(Last(c, s).frames)[0].children
  }

  /** After `n` rounds there is no further match. */
  ghost predicate Finishes(c: Config, s: State, n: nat) {
    && Rounds(c, s, n).Go?
    && Rounds(c, s, n).state.modes != [] && Rounds(c, s, n).state.frames != []
    && Round(c, Rounds(c, s, n).state) == Stop(Finished)
  }

  lemma AgreeingTrees(c: Config, s: State, t: State)
    requires Agree(s, t) && s.modes != [] && s.frames != []
    ensures FinishedTree(c, s) == FinishedTree(c, t)
  {
  }

  // ---------- The open nodes ----------

  /** The class names of the modes above the language itself. */
  function ClassNames(modes: seq<Mode>): seq<string> {
    if |modes| <= 1 then []
    else
      var name := modes[|modes| - 1].className;
      ClassNames(modes[..|modes| - 1]) + if name != "" then [name] else []
  }

  /** The open nodes of the tree are those of the active modes. */
  predicate Aligned(s: State) {
    s.modes != [] && s.frames != [] && Kinds(s.frames) == ClassNames(s.modes)
  }

  lemma EnteredAligned(s: State, m: Mode)
    requires Aligned(s)
    ensures Aligned(Entered(s, m))
  {
    EnteredConserves(s, m);
    assert (s.modes + [m])[..|s.modes|] == s.modes;
  }

  lemma {:induction false} LeftAligned(s: State, depth: nat)
    requires Aligned(s) && 0 < depth
    ensures Aligned(Left(s, depth))
    decreases |s.modes|
  {
    if depth < |s.modes| {
      ClosedAppendsNothing(s.frames);
      LeftAligned(LeftOne(s), depth);
    }
  }

  lemma BegunAligned(c: Config, s: State, m: Match)
    requires Aligned(s) && m.rule.Begin?
    ensures Aligned(Begun(c.oracle, s, m).0)
  {
    BeginTextWrites(c, s, m);
    EnteredAligned(BeginText(c.oracle, s, m), m.rule.mode);
  }

  lemma EndedAligned(c: Config, s: State, m: Match, depth: nat)
    requires Aligned(s) && 0 < depth < |s.modes|
    ensures Aligned(Ended(c.oracle, s, m, depth).0)
  {
    EndTextWrites(c, s, m);
    LeftAligned(EndText(c.oracle, s, m), depth);
    if s.modes[depth].starts.Some? {
      EnteredAligned(Left(EndText(c.oracle, s, m), depth), s.modes[depth].starts.value);
    }
  }

  lemma HandledAligned(c: Config, s: State, m: Match, branch: Branch)
    requires Aligned(s) && Fits(s, m, branch) && branch != Ending(0)
    ensures Aligned(Handled(c, s, m, branch).0)
  {
    var s1 := s.(last := Some(m));
    match branch {
      case Beginning => BegunAligned(c, s1, m);
      case Ending(depth) => EndedAligned(c, s1, m, depth);
      case ZeroWidthEnd | Refused | SkippedIllegal | Kept =>
    }
  }

  /** Every round keeps the open nodes and the active modes in step, unless it ends the language. */
  lemma RoundAligned(c: Config, s: State, m: Match)
    requires Aligned(s) && Found(c, s) == Some(m)
    requires Round(c, s).Go? && BranchOf(c, Ready(c, s, m), m) != Ending(0)
    ensures Aligned(Round(c, s).state)
  {
    HandledAligned(c, Ready(c, s, m), m, BranchOf(c, Ready(c, s, m), m));
  }

  // ---------- The loop ----------

  datatype Outcome =
    | Highlighted(tree: seq<TokenNode>, html: string)
    | Unhighlighted(illegal: bool, html: string)
    | Rethrown
    | StillRunning

  class Highlighter {
    var modes: seq<Mode>
    var buffer: string
    var at: nat
    var round: nat
    var resume: bool
    var regexIndex: nat
    var lastIndex: nat
    var last: Option<Match>
    const emitter: Emitter

    ghost function View(): State
      reads this, emitter
    {
      State(modes, buffer, at, round, resume, regexIndex, lastIndex, last, emitter.stack)
    }

    constructor (language: Mode)
      ensures fresh(emitter)
      ensures View() == State([language], "", 0, 0, false, 0, 0, None, [Frame("", [])])
    {
      modes, buffer, at, round := [language], "", 0, 0;
      resume, regexIndex, lastIndex, last := false, 0, 0, None;
      emitter := new Emitter();
    }

    // One keyword.
    method EmitWord(o: Oracle, top: Mode, from: nat, pending: string, w: Word, ghost total: seq<Frame>)
      requires WordsLeft(o, top, buffer, from, pending, emitter.stack, total)
      requires WordAt(o, top, buffer, from) == Some(w) && w.kind.Some?
      modifies emitter
      ensures WordsLeft(o, top, buffer, w.index + |w.text|, "", emitter.stack, total)
    {
      KeywordLeft(o, top, buffer, from, pending, w, emitter.stack, total);
      EmitKeyword(BeforeWord(buffer, from, pending, w), w.text, w.kind.value);
    }

    // One word: a keyword is emitted with the text before it, any other word is put off with it.
    method PassWord(o: Oracle, top: Mode, from: nat, pending: string, w: Word, ghost total: seq<Frame>)
      returns (next: nat, left: string)
      requires WordsLeft(o, top, buffer, from, pending, emitter.stack, total) && WordAt(o, top, buffer, from) == Some(w)
      modifies emitter
      ensures from < next && WordsLeft(o, top, buffer, next, left, emitter.stack, total)
    {
      next := w.index + |w.text|;
      if w.kind.Some? {
        left := "";
        EmitWord(o, top, from, pending, w, total);
      } else {
        left := BeforeWord(buffer, from, pending, w) + w.text;
        WordPutOff(o, top, buffer, from, pending, w, emitter.stack, total);
      }
    }

    // After the last word.
    method EmitRest(o: Oracle, top: Mode, from: nat, pending: string, ghost total: seq<Frame>)
      requires WordsLeft(o, top, buffer, from, pending, emitter.stack, total) && WordAt(o, top, buffer, from).None?
      modifies emitter
      ensures emitter.stack == total
    {
      RestLeft(o, top, buffer, from, pending, emitter.stack, total);
      emitter.AddText(pending + buffer[from..]);
    }

    // The keyword loop of `u`.
    method EmitWords(o: Oracle, top: Mode)
      requires emitter.stack != []
      modifies emitter
      ensures emitter.stack == PiecesAdded(old(emitter.stack), Pieces(o, top, buffer, 0, ""))
    {
      ghost var total := PiecesAdded(emitter.stack, Pieces(o, top, buffer, 0, ""));
      WordsLeftAre(o, top, buffer, 0, "", emitter.stack, total);
      EmitWordsLeft(o, top, total);
    }

    method EmitWordsLeft(o: Oracle, top: Mode, ghost total: seq<Frame>)
      requires WordsLeft(o, top, buffer, 0, "", emitter.stack, total)
      modifies emitter
      ensures emitter.stack == total
    {
      var from: nat, pending := 0, "";
      var word := WordAt(o, top, buffer, from);
      while word.Some?
        invariant WordsLeft(o, top, buffer, from, pending, emitter.stack, total) && word == WordAt(o, top, buffer, from)
        decreases |buffer| - from
      {
        from, pending := PassWord(o, top, from, pending, word.value, total);
        word := WordAt(o, top, buffer, from);
      }
      EmitRest(o, top, from, pending, total);
    }

    method EmitKeyword(before: string, text: string, kind: string)
      requires emitter.stack != []
      modifies emitter
      ensures emitter.stack == PieceAdded(old(emitter.stack), Keyword(before, text, kind)) != []
    {
      emitter.AddText(before);
      KeywordAddedAppends(emitter.stack, text, kind);
      emitter.AddKeyword(text, kind);
    }

    // `u`
    method Flush(c: Config)
      requires modes != [] && emitter.stack != []
      modifies this`buffer, emitter
      ensures View() == Flushed(c.oracle, old(View()))
    {
      if !modes[|modes| - 1].keywords {
        emitter.AddText(buffer);
      } else {
        EmitWords(c.oracle, modes[|modes| - 1]);
      }
      buffer := "";
    }

    // `h`
    method Enter(m: Mode)
      modifies this`modes, emitter
      ensures View() == Entered(old(View()), m)
    {
      if m.className != "" {
        emitter.OpenNode(m.className);
      }
      modes := modes + [m];
    }

    // `p`
    method Refuse(m: Match) returns (n: nat)
      modifies this`buffer, this`resume
      ensures (View(), n) == Ignored(old(View()), m)
    {
      if regexIndex == 0 {
        buffer := buffer + if m.lexeme == "" then "undefined" else [m.lexeme[0]];
        n := 1;
      } else {
        resume := true;
        n := 0;
      }
    }

    method BeginMatch(c: Config, m: Match) returns (n: nat)
      requires modes != [] && emitter.stack != [] && m.rule.Begin?
      modifies this`buffer, this`modes, emitter
      ensures (View(), n) == Begun(c.oracle, old(View()), m)
    {
      BeginBuffer(c, m);
      Enter(m.rule.mode);
      n := if m.rule.mode.returnBegin then 0 else |m.lexeme|;
    }

    method BeginBuffer(c: Config, m: Match)
      requires modes != [] && emitter.stack != [] && m.rule.Begin?
      modifies this`buffer, emitter
      ensures View() == BeginText(c.oracle, old(View()), m)
    {
      var r := m.rule.mode;
      if r.skip {
        buffer := buffer + m.lexeme;
      } else {
        if r.excludeBegin {
          buffer := buffer + m.lexeme;
        }
        Flush(c);
        if !r.returnBegin && !r.excludeBegin {
          buffer := m.lexeme;
        }
      }
    }

    method EndBuffer(c: Config, m: Match)
      requires modes != [] && emitter.stack != []
      modifies this`buffer, emitter
      ensures View() == EndText(c.oracle, old(View()), m)
    {
      var y := modes[|modes| - 1];
      if y.skip {
        buffer := buffer + m.lexeme;
      } else {
        if !y.returnEnd && !y.excludeEnd {
          buffer := buffer + m.lexeme;
        }
        Flush(c);
        if y.excludeEnd {
          buffer := m.lexeme;
        }
      }
    }

    method LeaveOne()
      requires modes != [] && emitter.stack != []
      modifies this`modes, emitter
      ensures View() == LeftOne(old(View()))
    {
      if modes[|modes| - 1].className != "" {
        ClosedAppendsNothing(emitter.stack);
        var _ := emitter.CloseNode();
      }
      modes := modes[..|modes| - 1];
    }

    // `do { ... } while (y !== a.parent)`
    method Leave(depth: nat)
      requires depth < |modes| && emitter.stack != []
      modifies this`modes, emitter
      ensures View() == Left(old(View()), depth)
    {
      ghost var expected := Left(View(), depth);
      while |modes| > depth
        invariant emitter.stack != []
        invariant Left(View(), depth) == expected
        decreases |modes|
      {
        LeaveOne();
      }
    }

    method LeaveFor(depth: nat)
      requires depth < |modes| && emitter.stack != []
      modifies this`modes, emitter
      ensures View() == LeftFor(old(View()), depth)
    {
      var starts := modes[depth].starts;
      Leave(depth);
      if starts.Some? {
        Enter(starts.value);
      }
    }

    method EndModes(c: Config, m: Match, depth: nat)
      requires depth < |modes| && emitter.stack != []
      modifies this`buffer, this`modes, emitter
      ensures View() == LeftFor(EndText(c.oracle, old(View()), m), depth)
    {
      EndBuffer(c, m);
      LeaveFor(depth);
    }

    method EndMatch(c: Config, m: Match, depth: nat) returns (n: nat)
      requires depth < |modes| && emitter.stack != []
      modifies this`buffer, this`modes, emitter
      ensures (View(), n) == Ended(c.oracle, old(View()), m, depth)
    {
      n := if modes[|modes| - 1].returnEnd then 0 else |m.lexeme|;
      EndModes(c, m, depth);
    }

    /** `x` with a match: `Throws` is the exception it ends in, if any. */
    method Handle(c: Config, m: Match) returns (branch: Branch, n: nat)
      requires modes != [] && emitter.stack != []
      modifies this, emitter
      ensures branch == BranchOf(c, old(View()), m)
      ensures !branch.Throws? ==> (View(), n) == Handled(c, old(View()), m, branch)
      ensures emitter.stack != []
    {
      branch, n := BranchOf(c, State(modes, buffer, at, round, resume, regexIndex, lastIndex, last, emitter.stack), m), 0;
      if branch.ZeroWidthEnd? {
        buffer := buffer + Slice(c.code, m.index, m.index + 1);
        n := 1;
      } else if !branch.Throws? {
        last := Some(m);
        match branch {
          case Refused => n := Refuse(m);
          case Beginning => n := BeginMatch(c, m);
          case Ending(depth) => n := EndMatch(c, m, depth);
          case SkippedIllegal => n := 1;
          case Kept =>
            buffer := buffer + m.lexeme;
            n := |m.lexeme|;
        }
      }
    }

    method Start()
      requires modes != []
      modifies this`round, this`resume, this`lastIndex, this`regexIndex
      ensures View() == Started(old(View()))
    {
      round := round + 1;
      if resume {
        resume := false;
      } else {
        lastIndex, regexIndex := at, 0;
      }
    }

    // The text before a match, and the matcher's move past its rule.
    method MoveTo(c: Config, m: Match)
      requires modes != []
      modifies this`regexIndex, this`buffer
      ensures View() == MovedTo(c, old(View()), m)
    {
      var next := regexIndex + c.oracle.position(round, m) + 1;
      regexIndex := if next == modes[|modes| - 1].begins then 0 else next;
      buffer := buffer + if at <= m.index then Slice(c.code, at, m.index) else Slice(c.code, m.index, at);
    }

    /** The search for the next match, up to the text before it. */
    method Seek(c: Config) returns (found: Option<Match>)
      requires modes != []
      modifies this
      ensures found == Found(c, old(View()))
      ensures found.Some? ==> View() == Ready(c, old(View()), found.value)
      ensures found.None? ==> unchanged(`modes, `buffer, `at)
    {
      Start();
      found := c.oracle.exec(modes[|modes| - 1], lastIndex, regexIndex);
      if found.Some? {
        MoveTo(c, found.value);
      }
    }

    // The rest of a round.
    method AdvanceTo(c: Config, m: Match) returns (step: Step<State, End>)
      requires modes != [] && emitter.stack != []
      modifies this, emitter
      ensures step == HandledRound(c, old(View()), m)
      ensures step.Go? ==> step.state == View()
      ensures step.Go? || step.end.Thrown?
      ensures emitter.stack != []
    {
      ghost var ready := View();
      var branch, n := Handle(c, m);
      if branch.Throws? {
        return Stop(Thrown(branch.illegal));
      }
      HandledRoundGoes(c, ready, m, branch, View(), n);
      at := m.index + n;
      step := Now();
    }

    /** One round: the result says how the loop goes on. */
    method Advance(c: Config) returns (step: Step<State, End>)
      requires emitter.stack != []
      modifies this, emitter
      ensures step == Round(c, old(View()))
      ensures step.Go? ==> step.state == View()
      ensures emitter.stack != []
      ensures step == Stop(Finished) ==> unchanged(`modes, `buffer, `at, emitter) && modes != []
    {
      if modes == [] {
        return Stop(Thrown(false));
      }
      var found := Seek(c);
      if found.None? {
        return Stop(Finished);
      }
      step := AdvanceTo(c, found.value);
    }

    /** After the last match. */
    method Finish(c: Config)
      requires modes != [] && emitter.stack != []
      requires Written(View()) == Seen(c.code, at)
      modifies this, emitter
      ensures |emitter.stack| == 1 && TextOfNodes(emitter.stack[0].children) == c.code
      ensures emitter.stack[0].children == FinishedTree(c, old(View()))
    {
      LastConserves(c, View());
      buffer := buffer + Slice(c.code, at, |c.code|);
      Flush(c);
      emitter.CloseAllNodes();
    }

    method Now() returns (step: Step<State, End>)
      ensures step == Go(View())
    {
      step := Go(State(modes, buffer, at, round, resume, regexIndex, lastIndex, last, emitter.stack));
    }

    /** The loop, for at most `limit` rounds: the source sets no limit. Where it finds no match, it has
        come, in `n` rounds, to a state with the modes, the text and the tree that are there now. */
    method Loop(c: Config, limit: nat) returns (step: Step<State, End>, ghost n: nat)
      requires emitter.stack != []
      modifies this, emitter
      ensures step == Rounds(c, old(View()), limit)
      ensures step.Go? ==> step.state == View()
      ensures step == Stop(Finished) ==> modes != [] && emitter.stack != []
      ensures step == Stop(Finished) ==> Finishes(c, old(View()), n) && Agree(Rounds(c, old(View()), n).state, View())
    {
      ghost var start := View();
      step := Now();
      n := 0;
      var done := 0;
      while step.Go? && done < limit
        invariant done <= limit && step == Rounds(c, start, done) && emitter.stack != []
        invariant step.Go? ==> step.state == View()
        invariant step == Stop(Finished) ==> modes != [] && Finishes(c, start, n) && Agree(Rounds(c, start, n).state, View())
        decreases limit - done
      {
        NextRound(c, start, done);
        n := done;
        step := Advance(c);
        done := done + 1;
      }
      StopsFor(c, start, done, limit);
    }

    /** The highlighter. In every outcome the text shown is the code; with safe mode off, an error that is
        not an illegal lexeme is thrown again. */
    method Highlight(c: Config, prefix: string, limit: nat) returns (r: Outcome)
      requires c.oracle.Valid(c.code) && GoodLanguage(c) && Keeps(c, View())
      modifies this, emitter
      ensures r.Highlighted? ==> TextOfNodes(r.tree) == c.code && r.html == ToHtml(r.tree, prefix)
      ensures r.Highlighted? ==>
                exists n :: Finishes(c, old(View()), n) && r.tree == FinishedTree(c, Rounds(c, old(View()), n).state)
      ensures r.Unhighlighted? ==> r.html == Html.Escape(c.code)
      ensures r.Highlighted? <==> Rounds(c, old(View()), limit) == Stop(Finished)
      ensures r.Unhighlighted? <==>
                (exists illegal :: Rounds(c, old(View()), limit) == Stop(Thrown(illegal)) && (illegal || c.safeMode))
      ensures r.Rethrown? <==> Rounds(c, old(View()), limit) == Stop(Thrown(false)) && !c.safeMode
      ensures r.StillRunning? <==> Rounds(c, old(View()), limit).Go?
    {
      ghost var start := View();
      var step, n := Loop(c, limit);
      match step {
        case Go(_) => r := StillRunning;
        case Stop(Finished) =>
          RunConserves(c, start, n);
          AgreeingTrees(c, Rounds(c, start, n).state, View());
          Finish(c);
          r := Highlighted(emitter.stack[0].children, ToHtml(emitter.stack[0].children, prefix));
        case Stop(Thrown(illegal)) =>
          r := if illegal || c.safeMode then Unhighlighted(illegal, Html.Escape(c.code)) else Rethrown;
      }
    }
  }
}
