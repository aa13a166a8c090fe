/**
 Which nodes of the token tree hold each character of the code: match by match, and over whole runs.
 */
module HighlightPlacement {
  import opened Wrappers
  import opened Runs
  import opened TokenTree
  import opened HighlightTokenizer

  // ---------- What is emitted at a time ----------

  /** The characters of a text from `from` on: a word that the language lists as a keyword is in a node of
      its kind, everything else is in the nodes `outer`. */
  function Colored(o: Oracle, m: Mode, text: string, from: nat, outer: seq<string>): seq<Mark>
    requires from <= |text|
    decreases |text| - from
  {
    match WordAt(o, m, text, from)
    case None => Marked(text[from..], outer)
    case Some(w) =>
      Marked(text[from..w.index], outer) +
      (Marked(w.text, if w.kind.Some? then outer + [w.kind.value] else outer) +
       Colored(o, m, text, w.index + |w.text|, outer))
  }

  /** The characters of a text that is emitted in a mode. */
  function Emitted(o: Oracle, m: Mode, text: string, outer: seq<string>): seq<Mark> {
    if m.keywords then Colored(o, m, text, 0, outer) else Marked(text, outer)
  }

  function PieceMarks(p: Piece, outer: seq<string>): seq<Mark> {
    match p
    case Rest(text) => Marked(text, outer)
    case Keyword(before, text, kind) => Marked(before, outer) + Marked(text, outer + [kind])
  }

  function PiecesMarks(pieces: seq<Piece>, outer: seq<string>): seq<Mark> {
    if pieces == [] then [] else PieceMarks(pieces[0], outer) + PiecesMarks(pieces[1..], outer)
  }

  lemma PiecesMarksCons(p: Piece, rest: seq<Piece>, outer: seq<string>)
    ensures PiecesMarks([p] + rest, outer) == PieceMarks(p, outer) + PiecesMarks(rest, outer)
  {
    assert ([p] + rest)[1..] == rest;
  }

  lemma PieceAddedMarks(frames: seq<Frame>, p: Piece)
    requires frames != []
    ensures MarksOfFrames(PieceAdded(frames, p)) == MarksOfFrames(frames) + PieceMarks(p, Kinds(frames))
  {
    if p.Rest? {
      TextAddedMarks(frames, p.text);
    } else {
      TextAddedMarks(frames, p.before);
      TextAddedAppends(frames, p.before);
      KeywordAddedMarks(TextAdded(frames, p.before), p.text, p.kind);
      MarksAssociate(MarksOfFrames(frames), Marked(p.before, Kinds(frames)), Marked(p.text, Kinds(frames) + [p.kind]));
    }
  }

  lemma {:induction false} PiecesAddedMarks(frames: seq<Frame>, pieces: seq<Piece>)
    requires frames != []
    ensures MarksOfFrames(PiecesAdded(frames, pieces)) == MarksOfFrames(frames) + PiecesMarks(pieces, Kinds(frames))
    decreases |pieces|
  {
    if pieces != [] {
      PieceAddedMarks(frames, pieces[0]);
      PieceAddedAppends(frames, pieces[0]);
      PiecesAddedMarks(PieceAdded(frames, pieces[0]), pieces[1..]);
      MarksAssociate(MarksOfFrames(frames), PieceMarks(pieces[0], Kinds(frames)), PiecesMarks(pieces[1..], Kinds(frames)));
    }
  }

  lemma RestMarks(text: string, outer: seq<string>)
    ensures PiecesMarks([Rest(text)], outer) == Marked(text, outer)
  {
    assert [Rest(text)][1..] == [];
  }

  // A word that is no keyword is put off with the text before it.
  lemma PutOff(pending: string, before: string, word: string, later: seq<Mark>, outer: seq<string>)
    ensures Marked((pending + before) + word, outer) + later ==
            Marked(pending, outer) + (Marked(before, outer) + (Marked(word, outer) + later))
  {
    MarkedConcat(pending + before, word, outer);
    MarkedConcat(pending, before, outer);
  }

  // A keyword is emitted with the text before it.
  lemma KeywordFirst(
      pending: string, before: string, word: string, kind: string, pieces: seq<Piece>, later: seq<Mark>, outer: seq<string>)
    requires PiecesMarks(pieces, outer) == Marked("", outer) + later
    ensures PiecesMarks([Keyword(pending + before, word, kind)] + pieces, outer) ==
            Marked(pending, outer) + (Marked(before, outer) + (Marked(word, outer + [kind]) + later))
  {
    PiecesMarksCons(Keyword(pending + before, word, kind), pieces, outer);
    MarkedConcat(pending, before, outer);
    NothingPending(later, outer);
  }

  lemma ColoredAtWord(o: Oracle, m: Mode, text: string, from: nat, w: Word, outer: seq<string>)
    requires from <= |text| && WordAt(o, m, text, from) == Some(w)
    ensures Colored(o, m, text, from, outer) ==
            Marked(text[from..w.index], outer) +
            (Marked(w.text, if w.kind.Some? then outer + [w.kind.value] else outer) +
             Colored(o, m, text, w.index + |w.text|, outer))
  {
  }

  /** The pieces put every character where it belongs. */
  lemma {:induction false} PiecesColor(o: Oracle, m: Mode, text: string, from: nat, pending: string, outer: seq<string>)
    requires from <= |text|
    ensures PiecesMarks(Pieces(o, m, text, from, pending), outer) == Marked(pending, outer) + Colored(o, m, text, from, outer)
    decreases |text| - from, 1
  {
    match WordAt(o, m, text, from) {
      case None =>
        RestMarks(pending + text[from..], outer);
        MarkedConcat(pending, text[from..], outer);
      case Some(w) =>
        PiecesAtWord(o, m, text, from, pending, w);
        ColoredAtWord(o, m, text, from, w, outer);
        PiecesColorAtWord(o, m, text, from, pending, w, text[from..w.index], outer);
    }
  }

  lemma {:induction false} PiecesColorAtWord(
      o: Oracle, m: Mode, text: string, from: nat, pending: string, w: Word, before: string, outer: seq<string>)
    requires from < w.index + |w.text| <= |text|
    ensures var next := w.index + |w.text|;
            (if w.kind.Some?
             then PiecesMarks([Keyword(pending + before, w.text, w.kind.value)] + Pieces(o, m, text, next, ""), outer)
             else PiecesMarks(Pieces(o, m, text, next, (pending + before) + w.text), outer)) ==
            Marked(pending, outer) +
            (Marked(before, outer) +
             (Marked(w.text, if w.kind.Some? then outer + [w.kind.value] else outer) + Colored(o, m, text, next, outer)))
    decreases |text| - from, 0
  {
    var next := w.index + |w.text|;
    if w.kind.Some? {
      PiecesColor(o, m, text, next, "", outer);
      KeywordFirst(pending, before, w.text, w.kind.value, Pieces(o, m, text, next, ""), Colored(o, m, text, next, outer),
                   outer);
    } else {
      PiecesColor(o, m, text, next, (pending + before) + w.text, outer);
      PutOff(pending, before, w.text, Colored(o, m, text, next, outer), outer);
    }
  }

  lemma NothingPending(marks: seq<Mark>, outer: seq<string>)
    ensures Marked("", outer) + marks == marks
  {
  }

  /** Emitting the buffer puts its characters in the open nodes, keywords in nodes of their own. */
  lemma FlushedMarks(c: Config, s: State)
    requires s.modes != [] && s.frames != []
    ensures var f := Flushed(c.oracle, s);
            && MarksOfFrames(f.frames) == MarksOfFrames(s.frames) + Emitted(c.oracle, Top(s), s.buffer, Kinds(s.frames))
            && Kinds(f.frames) == Kinds(s.frames) && f.buffer == ""
  {
    FlushedConserves(c, s);
    if Top(s).keywords {
      PiecesAddedMarks(s.frames, Pieces(c.oracle, Top(s), s.buffer, 0, ""));
      PiecesColor(c.oracle, Top(s), s.buffer, 0, "", Kinds(s.frames));
      NothingPending(Colored(c.oracle, Top(s), s.buffer, 0, Kinds(s.frames)), Kinds(s.frames));
    } else {
      TextAddedMarks(s.frames, s.buffer);
    }
  }

  // ---------- One match ----------

  /** From `s` to `t`, `text` has been emitted into the nodes that were open in `s`, in the mode that was
      active there. */
  ghost predicate Emits(c: Config, s: State, t: State, text: string)
    requires s.modes != []
  {
    MarksOfFrames(t.frames) == MarksOfFrames(s.frames) + Emitted(c.oracle, Top(s), text, Kinds(s.frames))
  }

  /** No character has been emitted. */
  ghost predicate EmitsNothing(s: State, t: State) {
    MarksOfFrames(t.frames) == MarksOfFrames(s.frames)
  }

  lemma EnteredMarks(s: State, m: Mode)
    requires s.frames != []
    ensures EmitsNothing(s, Entered(s, m)) && Entered(s, m).buffer == s.buffer
    ensures m.className != "" ==> Entered(s, m).frames == s.frames + [Frame(m.className, [])]
    ensures m.className == "" ==> Entered(s, m).frames == s.frames
  {
    OpenedMarks(s.frames, m.className);
  }

  lemma {:induction false} LeftMarks(s: State, depth: nat)
    requires s.frames != []
    ensures EmitsNothing(s, Left(s, depth)) && Left(s, depth).buffer == s.buffer
    decreases |s.modes|
  {
    if depth < |s.modes| {
      ClosedMarks(s.frames);
      LeftMarks(LeftOne(s), depth);
    }
  }

  lemma BeginTextMarks(c: Config, s: State, m: Match)
    requires s.modes != [] && s.frames != [] && m.rule.Begin?
    ensures var r, t := m.rule.mode, BeginText(c.oracle, s, m);
            && Kinds(t.frames) == Kinds(s.frames)
            && (r.skip ==> EmitsNothing(s, t) && t.buffer == s.buffer + m.lexeme)
            && (!r.skip && r.excludeBegin ==> Emits(c, s, t, s.buffer + m.lexeme) && t.buffer == "")
            && (!r.skip && !r.excludeBegin && r.returnBegin ==> Emits(c, s, t, s.buffer) && t.buffer == "")
            && (!r.skip && !r.excludeBegin && !r.returnBegin ==> Emits(c, s, t, s.buffer) && t.buffer == m.lexeme)
  {
    var r := m.rule.mode;
    if r.skip {
    } else if r.excludeBegin {
      FlushedMarks(c, s.(buffer := s.buffer + m.lexeme));
    } else {
      FlushedMarks(c, s);
    }
  }

  /** Where a begin match puts the text. Without flags, all text before the match is in the nodes that were
      open, and the lexeme is the first text of the new node, which is innermost and still empty; with
      `excludeBegin` the lexeme is still in the nodes that were open, with `returnBegin` it comes again.
      `skip` puts nothing anywhere yet. */
  lemma BeginPlaces(c: Config, s: State, m: Match)
    requires s.modes != [] && s.frames != [] && m.rule.Begin?
    ensures var r, t := m.rule.mode, Begun(c.oracle, s, m).0;
            && t.modes == s.modes + [r]
            && Kinds(t.frames) == Kinds(s.frames) + (if r.className != "" then [r.className] else [])
            && (r.className != "" ==> t.frames != [] && t.frames[|t.frames| - 1] == Frame(r.className, []))
            && (r.skip ==> EmitsNothing(s, t) && t.buffer == s.buffer + m.lexeme)
            && (!r.skip && r.excludeBegin ==> Emits(c, s, t, s.buffer + m.lexeme) && t.buffer == "")
            && (!r.skip && !r.excludeBegin && r.returnBegin ==> Emits(c, s, t, s.buffer) && t.buffer == "")
            && (!r.skip && !r.excludeBegin && !r.returnBegin ==> Emits(c, s, t, s.buffer) && t.buffer == m.lexeme)
  {
    BeginTextMarks(c, s, m);
    EnteredMarks(BeginText(c.oracle, s, m), m.rule.mode);
    EnteredConserves(BeginText(c.oracle, s, m), m.rule.mode);
  }

  lemma EndTextMarks(c: Config, s: State, m: Match)
    requires s.modes != [] && s.frames != []
    ensures var y, t := Top(s), EndText(c.oracle, s, m);
            && Kinds(t.frames) == Kinds(s.frames)
            && (y.skip ==> EmitsNothing(s, t) && t.buffer == s.buffer + m.lexeme)
            && (!y.skip && y.excludeEnd ==> Emits(c, s, t, s.buffer) && t.buffer == m.lexeme)
            && (!y.skip && !y.excludeEnd && y.returnEnd ==> Emits(c, s, t, s.buffer) && t.buffer == "")
            && (!y.skip && !y.excludeEnd && !y.returnEnd ==> Emits(c, s, t, s.buffer + m.lexeme) && t.buffer == "")
  {
    var y := Top(s);
    if y.skip {
    } else if y.returnEnd || y.excludeEnd {
      FlushedMarks(c, s);
    } else {
      FlushedMarks(c, s.(buffer := s.buffer + m.lexeme));
    }
  }

  lemma LeftForMarks(s: State, depth: nat)
    requires depth < |s.modes| && s.frames != []
    ensures EmitsNothing(s, LeftFor(s, depth)) && LeftFor(s, depth).buffer == s.buffer
    ensures LeftFor(s, depth).modes == After(s.modes, depth)
  {
    LeftMarks(s, depth);
    if s.modes[depth].starts.Some? {
      EnteredMarks(Left(s, depth), s.modes[depth].starts.value);
    }
  }

  /** The modes after an end match: those outside the one that ends, and the one that it starts. */
  function After(modes: seq<Mode>, depth: nat): seq<Mode>
    requires depth < |modes|
  {
    modes[..depth] + if modes[depth].starts.Some? then [modes[depth].starts.value] else []
  }

  /** Where an end match puts the text. Without flags, all text up to the end of the lexeme is in the nodes
      that were open, before any of them is closed; with `excludeEnd` the lexeme is the first text after
      them, with `returnEnd` it comes again. `skip` puts nothing anywhere yet. */
  lemma EndPlaces(c: Config, s: State, m: Match, depth: nat)
    requires depth < |s.modes| && s.frames != []
    ensures var y, t := Top(s), Ended(c.oracle, s, m, depth).0;
            && t.modes == After(s.modes, depth)
            && (Aligned(s) && 0 < depth ==> Kinds(t.frames) == ClassNames(After(s.modes, depth)))
            && (y.skip ==> EmitsNothing(s, t) && t.buffer == s.buffer + m.lexeme)
            && (!y.skip && y.excludeEnd ==> Emits(c, s, t, s.buffer) && t.buffer == m.lexeme)
            && (!y.skip && !y.excludeEnd && y.returnEnd ==> Emits(c, s, t, s.buffer) && t.buffer == "")
            && (!y.skip && !y.excludeEnd && !y.returnEnd ==> Emits(c, s, t, s.buffer + m.lexeme) && t.buffer == "")
  {
    EndTextMarks(c, s, m);
    LeftForMarks(EndText(c.oracle, s, m), depth);
    if Aligned(s) && 0 < depth {
      EndedAligned(c, s, m, depth);
    }
  }

  /** Every other match only adds to the buffer. */
  lemma OthersEmitNothing(c: Config, s: State, m: Match, branch: Branch)
    requires s.modes != [] && s.frames != [] && Fits(s, m, branch) && !branch.Beginning? && !branch.Ending?
    ensures var t := Handled(c, s, m, branch).0;
            t.modes == s.modes && t.frames == s.frames && t.buffer == s.buffer + Contribution(c, s, m, branch)
  {
  }

  /** Which mode an end match ends: the innermost that the match ends at all, as long as every mode inside
      it ends with its parent, and with it its parents as long as each ends its parent. */
  lemma {:induction false} EndTargetExactly(o: Oracle, s: State, m: Match, depth: nat)
    requires depth < |s.modes|
    ensures match EndTarget(o, s, m, depth)
            case At(d) => exists e: nat :: EndsUpTo(o, s, m, e, depth) && EndsParents(s.modes, d, e)
            case NoTarget => exists e: nat :: EndsAbove(o, s, m, e, depth)
            case Crash => PassesTo(o, s, m, 0, depth) && !o.ends(s.round, s.modes[0], m) && s.modes[0].endsWithParent
  {
    if o.ends(s.round, s.modes[depth], m) {
      ParentTargetExactly(s.modes, depth);
      assert EndsUpTo(o, s, m, depth, depth);
    } else if s.modes[depth].endsWithParent && depth > 0 {
      EndTargetExactly(o, s, m, depth - 1);
      match EndTarget(o, s, m, depth - 1) {
        case At(d) =>
          var e: nat :| EndsUpTo(o, s, m, e, depth - 1) && EndsParents(s.modes, d, e);
          assert EndsUpTo(o, s, m, e, depth);
        case NoTarget =>
          var e: nat :| EndsAbove(o, s, m, e, depth - 1);
          assert EndsAbove(o, s, m, e, depth);
        case Crash =>
      }
    } else if !s.modes[depth].endsWithParent {
      assert EndsAbove(o, s, m, depth, depth);
    }
  }

  /** The match ends no mode inside the `e`th, and these end with their parents. */
  ghost predicate PassesTo(o: Oracle, s: State, m: Match, e: nat, depth: nat)
    requires depth < |s.modes|
  {
    e <= depth && forall k :: e < k <= depth ==> !o.ends(s.round, s.modes[k], m) && s.modes[k].endsWithParent
  }

  ghost predicate EndsAbove(o: Oracle, s: State, m: Match, e: nat, depth: nat)
    requires depth < |s.modes|
  {
    PassesTo(o, s, m, e, depth) && !o.ends(s.round, s.modes[e], m) && !s.modes[e].endsWithParent
  }

  ghost predicate EndsUpTo(o: Oracle, s: State, m: Match, e: nat, depth: nat)
    requires depth < |s.modes|
  {
    PassesTo(o, s, m, e, depth) && o.ends(s.round, s.modes[e], m)
  }

  /** The modes from the `d`th on are ended by the one inside each of them, and the `d`th does not end its
      parent or has none. */
  ghost predicate EndsParents(modes: seq<Mode>, d: nat, e: nat)
    requires e < |modes|
  {
    d <= e && (forall k :: d < k <= e ==> modes[k].endsParent) && (0 < d ==> !modes[d].endsParent)
  }

  lemma {:induction false} ParentTargetExactly(modes: seq<Mode>, depth: nat)
    requires depth < |modes|
    ensures EndsParents(modes, ParentTarget(modes, depth), depth)
  {
    if modes[depth].endsParent && depth > 0 {
      ParentTargetExactly(modes, depth - 1);
    }
  }

  // ---------- Whole runs ----------

  ghost predicate IsKeywordKind(o: Oracle, kind: string) {
    exists m, text, from :: o.word(m, text, from).Some? && o.word(m, text, from).value.kind == Some(kind)
  }

  /** A character is in the nodes it ought to be in, or in a keyword in them. */
  ghost predicate Within(o: Oracle, mark: Mark, ideal: Mark) {
    && mark.c == ideal.c
    && (|| mark.nodes == ideal.nodes
        || exists kind :: IsKeywordKind(o, kind) && mark.nodes == ideal.nodes + [kind])
  }

  ghost predicate AllWithin(o: Oracle, marks: seq<Mark>, ideal: seq<Mark>) {
    |marks| == |ideal| && forall i :: 0 <= i < |ideal| ==> Within(o, marks[i], ideal[i])
  }

  lemma WithinConcat(o: Oracle, a: seq<Mark>, x: seq<Mark>, b: seq<Mark>, y: seq<Mark>)
    requires AllWithin(o, a, x) && AllWithin(o, b, y)
    ensures AllWithin(o, a + b, x + y)
  {
  }

  lemma WithinItself(o: Oracle, marks: seq<Mark>)
    ensures AllWithin(o, marks, marks)
  {
  }

  lemma WordWithin(o: Oracle, m: Mode, text: string, from: nat, outer: seq<string>)
    requires from <= |text| && WordAt(o, m, text, from).Some?
    ensures var w := WordAt(o, m, text, from).value;
            AllWithin(o, Marked(w.text, if w.kind.Some? then outer + [w.kind.value] else outer), Marked(w.text, outer))
  {
    var w := WordAt(o, m, text, from).value;
    if w.kind.Some? {
      assert o.word(m, text, from).value.kind == Some(w.kind.value);
      assert IsKeywordKind(o, w.kind.value);
    }
  }

  lemma {:induction false} ColoredWithin(o: Oracle, m: Mode, text: string, from: nat, outer: seq<string>)
    requires from <= |text|
    ensures AllWithin(o, Colored(o, m, text, from, outer), Marked(text[from..], outer))
    decreases |text| - from
  {
    match WordAt(o, m, text, from) {
      case None => WithinItself(o, Marked(text[from..], outer));
      case Some(w) =>
        var next := w.index + |w.text|;
        ColoredWithin(o, m, text, next, outer);
        WordWithin(o, m, text, from, outer);
        WithinItself(o, Marked(text[from..w.index], outer));
        var word := Marked(w.text, if w.kind.Some? then outer + [w.kind.value] else outer);
        WithinConcat(o, word, Marked(w.text, outer), Colored(o, m, text, next, outer), Marked(text[next..], outer));
        WithinConcat(o, Marked(text[from..w.index], outer), Marked(text[from..w.index], outer),
                     word + Colored(o, m, text, next, outer), Marked(w.text, outer) + Marked(text[next..], outer));
        SplitAtWord(text, from, w);
        MarkedConcat(w.text, text[next..], outer);
        MarkedConcat(text[from..w.index], w.text + text[next..], outer);
    }
  }

  lemma EmittedWithin(o: Oracle, m: Mode, text: string, outer: seq<string>)
    ensures AllWithin(o, Emitted(o, m, text, outer), Marked(text, outer))
  {
    if m.keywords {
      ColoredWithin(o, m, text, 0, outer);
      assert text[0..] == text;
    } else {
      WithinItself(o, Marked(text, outer));
    }
  }

  /** The emitted text is where `done` says, and the text in the buffer belongs to the active modes. */
  ghost predicate PlacedUpTo(c: Config, s: State, done: seq<Mark>) {
    Aligned(s) && AllWithin(c.oracle, MarksOfFrames(s.frames), done)
  }

  function WithPending(s: State, done: seq<Mark>): seq<Mark> {
    done + Marked(s.buffer, ClassNames(s.modes))
  }

  ghost predicate Placed(c: Config, s: State, ideal: seq<Mark>) {
    exists done :: PlacedUpTo(c, s, done) && WithPending(s, done) == ideal
  }

  /** The class names of the modes in whose nodes the lexeme of a match belongs: a begin lexeme in the new
      mode, or with `excludeBegin` outside it; an end lexeme in the mode it ends, or with `excludeEnd` in
      what is active afterwards; any other in the active modes. */
  function Holders(s: State, m: Match, branch: Branch): seq<string>
    requires s.modes != [] && Fits(s, m, branch)
  {
    match branch
    case Beginning => ClassNames(if m.rule.mode.excludeBegin then s.modes else s.modes + [m.rule.mode])
    case Ending(depth) => ClassNames(if Top(s).excludeEnd then After(s.modes, depth) else s.modes)
    case _ => ClassNames(s.modes)
  }

  /** A match of a mode that puts off emitting leaves the pending text where it belongs exactly if the
      active class names stay the same for all of it. */
  predicate KeepsPlaces(s: State, m: Match, branch: Branch)
    requires s.modes != [] && Fits(s, m, branch)
  {
    match branch
    case Beginning =>
      m.rule.mode.skip && m.rule.mode.className != "" ==>
        s.buffer == "" && (m.rule.mode.excludeBegin ==> m.lexeme == "")
    case Ending(depth) =>
      Top(s).skip && ClassNames(After(s.modes, depth)) != ClassNames(s.modes) ==>
        s.buffer == "" && (!Top(s).excludeEnd ==> m.lexeme == "")
    case _ => true
  }

  lemma OneMoreName(modes: seq<Mode>, m: Mode)
    requires modes != []
    ensures ClassNames(modes + [m]) == ClassNames(modes) + if m.className != "" then [m.className] else []
  {
    assert (modes + [m])[..|modes|] == modes;
  }

  /** Once `text` is emitted into the nodes of `s`, what is done is what was pending, and the text. */
  lemma EmitsWithin(c: Config, s: State, t: State, text: string, more: string, done: seq<Mark>)
    requires PlacedUpTo(c, s, done) && Emits(c, s, t, text) && text == s.buffer + more && Aligned(t)
    ensures PlacedUpTo(c, t, WithPending(s, done) + Marked(more, ClassNames(s.modes)))
  {
    EmittedWithin(c.oracle, Top(s), text, Kinds(s.frames));
    MarkedConcat(s.buffer, more, Kinds(s.frames));
    WithinConcat(c.oracle, MarksOfFrames(s.frames), done,
                 Emitted(c.oracle, Top(s), text, Kinds(s.frames)), Marked(text, Kinds(s.frames)));
    MarksAssociate(done, Marked(s.buffer, ClassNames(s.modes)), Marked(more, ClassNames(s.modes)));
  }

  /** What is emitted stays placed, with `kept` in the buffer. */
  lemma EmittedIsPlaced(c: Config, s: State, t: State, text: string, more: string, done: seq<Mark>)
    requires PlacedUpTo(c, s, done) && Emits(c, s, t, text) && text == s.buffer + more && Aligned(t)
    ensures Placed(c, t, (WithPending(s, done) + Marked(more, ClassNames(s.modes))) + Marked(t.buffer, ClassNames(t.modes)))
  {
    EmitsWithin(c, s, t, text, more, done);
    var done' := WithPending(s, done) + Marked(more, ClassNames(s.modes));
    assert PlacedUpTo(c, t, done') && WithPending(t, done') == done' + Marked(t.buffer, ClassNames(t.modes));
  }

  lemma SameMarks(a: string, nodes: seq<string>, others: seq<string>)
    ensures Marked(a, nodes) == Marked(a, others) <==> a == "" || nodes == others
  {
    if a != "" {
      assert Marked(a, nodes)[0].nodes == nodes && Marked(a, others)[0].nodes == others;
    }
  }

  lemma SamePending(
      done: seq<Mark>, done': seq<Mark>, a: string, b: string, nodes: seq<string>, others: seq<string>, all: seq<string>)
    requires |done| == |done'| && (done + Marked(a, nodes)) + Marked(b, others) == done' + Marked(a + b, all)
    ensures Marked(a, nodes) == Marked(a, all) && Marked(b, others) == Marked(b, all)
  {
    var left, right := (done + Marked(a, nodes)) + Marked(b, others), done' + Marked(a + b, all);
    forall i | 0 <= i < |a| ensures Marked(a, nodes)[i] == Marked(a, all)[i] {
      assert left[|done| + i] == right[|done| + i];
    }
    forall i | 0 <= i < |b| ensures Marked(b, others)[i] == Marked(b, all)[i] {
      assert left[|done| + |a| + i] == right[|done| + |a| + i];
    }
  }

  /** What is put off stays placed exactly if its nodes are open afterwards, and no others. */
  lemma PutOffIsPlaced(c: Config, s: State, t: State, more: string, holders: seq<string>, done: seq<Mark>)
    requires PlacedUpTo(c, s, done) && EmitsNothing(s, t) && t.buffer == s.buffer + more && Aligned(t)
    ensures Placed(c, t, WithPending(s, done) + Marked(more, holders)) <==>
            (s.buffer == "" || ClassNames(s.modes) == ClassNames(t.modes)) && (more == "" || holders == ClassNames(t.modes))
  {
    var ideal := WithPending(s, done) + Marked(more, holders);
    SameMarks(s.buffer, ClassNames(s.modes), ClassNames(t.modes));
    SameMarks(more, holders, ClassNames(t.modes));
    if (s.buffer == "" || ClassNames(s.modes) == ClassNames(t.modes)) && (more == "" || holders == ClassNames(t.modes)) {
      MarkedConcat(s.buffer, more, ClassNames(t.modes));
      MarksAssociate(done, Marked(s.buffer, ClassNames(t.modes)), Marked(more, ClassNames(t.modes)));
      assert PlacedUpTo(c, t, done) && WithPending(t, done) == ideal;
    }
    if Placed(c, t, ideal) {
      var done' :| PlacedUpTo(c, t, done') && WithPending(t, done') == ideal;
      SamePending(done, done', s.buffer, more, ClassNames(s.modes), holders, ClassNames(t.modes));
    }
  }

  lemma NothingMore(marks: seq<Mark>, nodes: seq<string>)
    ensures marks + Marked("", nodes) == marks
  {
  }

  /** `t` has what a match adds where it belongs exactly if the match keeps places. */
  ghost predicate PlacedBy(c: Config, s: State, m: Match, branch: Branch, t: State, done: seq<Mark>)
    requires s.modes != [] && Fits(s, m, branch)
  {
    Placed(c, t, WithPending(s, done) + Marked(Contribution(c, s, m, branch), Holders(s, m, branch))) <==>
    KeepsPlaces(s, m, branch)
  }

  lemma BeginningPlaced(c: Config, s: State, m: Match, done: seq<Mark>)
    requires m.rule.Begin? && PlacedUpTo(c, s, done)
    ensures PlacedBy(c, s, m, Beginning, Begun(c.oracle, s, m).0, done)
  {
    var r, t, all := m.rule.mode, Begun(c.oracle, s, m).0, WithPending(s, done);
    BeginPlaces(c, s, m);
    BegunAligned(c, s, m);
    OneMoreName(s.modes, r);
    if r.skip {
      PutOffIsPlaced(c, s, t, m.lexeme, Holders(s, m, Beginning), done);
    } else if r.excludeBegin {
      EmittedIsPlaced(c, s, t, s.buffer + m.lexeme, m.lexeme, done);
      NothingMore(all + Marked(m.lexeme, ClassNames(s.modes)), ClassNames(t.modes));
    } else {
      assert s.buffer == s.buffer + "";
      EmittedIsPlaced(c, s, t, s.buffer, "", done);
      NothingMore(all, ClassNames(s.modes));
    }
  }

  lemma EndingPlaced(c: Config, s: State, m: Match, depth: nat, done: seq<Mark>)
    requires 0 < depth < |s.modes| && PlacedUpTo(c, s, done)
    ensures PlacedBy(c, s, m, Ending(depth), Ended(c.oracle, s, m, depth).0, done)
  {
    var y, t, all := Top(s), Ended(c.oracle, s, m, depth).0, WithPending(s, done);
    EndPlaces(c, s, m, depth);
    EndedAligned(c, s, m, depth);
    if y.skip {
      PutOffIsPlaced(c, s, t, m.lexeme, Holders(s, m, Ending(depth)), done);
    } else if y.excludeEnd || y.returnEnd {
      assert s.buffer == s.buffer + "";
      EmittedIsPlaced(c, s, t, s.buffer, "", done);
      NothingMore(all, ClassNames(s.modes));
    } else {
      EmittedIsPlaced(c, s, t, s.buffer + m.lexeme, m.lexeme, done);
      NothingMore(all + Marked(m.lexeme, ClassNames(s.modes)), ClassNames(t.modes));
    }
  }

  // The last match is no part of all this.
  lemma LastPlaced(c: Config, s: State, m: Match, branch: Branch, done: seq<Mark>)
    requires PlacedUpTo(c, s, done) && Fits(s, m, branch)
    ensures var s1 := s.(last := Some(m));
            && PlacedUpTo(c, s1, done) && WithPending(s1, done) == WithPending(s, done) && Fits(s1, m, branch)
            && Contribution(c, s1, m, branch) == Contribution(c, s, m, branch)
            && Holders(s1, m, branch) == Holders(s, m, branch)
            && (KeepsPlaces(s1, m, branch) <==> KeepsPlaces(s, m, branch))
  {
  }

  lemma OtherPlaced(c: Config, s: State, m: Match, branch: Branch, done: seq<Mark>)
    requires Fits(s, m, branch) && !branch.Beginning? && !branch.Ending? && PlacedUpTo(c, s, done)
    ensures PlacedBy(c, s, m, branch, Handled(c, s, m, branch).0, done)
  {
    OthersEmitNothing(c, s, m, branch);
    PutOffIsPlaced(c, s, Handled(c, s, m, branch).0, Contribution(c, s, m, branch), ClassNames(s.modes), done);
  }

  /** A handled match puts what it adds where it belongs, and leaves everything else in place, exactly
      when it keeps places. */
  lemma HandledPlaced(c: Config, s: State, m: Match, branch: Branch, done: seq<Mark>)
    requires PlacedUpTo(c, s, done) && Fits(s, m, branch) && branch != Ending(0)
    ensures PlacedBy(c, s, m, branch, Handled(c, s, m, branch).0, done)
  {
    var s1 := s.(last := Some(m));
    LastPlaced(c, s, m, branch, done);
    match branch {
      case Beginning => BeginningPlaced(c, s1, m, done);
      case Ending(depth) => EndingPlaced(c, s1, m, depth, done);
      case ZeroWidthEnd | Refused | SkippedIllegal | Kept => OtherPlaced(c, s, m, branch, done);
    }
  }

  /** What a faithfully handled match adds is what the code says up to where it goes on. */
  lemma ContributionIsCode(c: Config, s: State, m: Match, branch: Branch)
    requires s.modes != [] && Fits(s, m, branch) && Faithful(c, s, m, branch)
    requires m.index <= |c.code| && InText(c.code, m.index, m)
    ensures Contribution(c, s, m, branch) == Slice(c.code, m.index, m.index + Progress(s, m, branch))
  {
    var text, to := Contribution(c, s, m, branch), m.index + Progress(s, m, branch);
    FaithfulContribution(c, s, m, branch);
    assert (Seen(c.code, m.index) + text)[m.index..] == text;
    assert Seen(c.code, to)[m.index..] == Slice(c.code, m.index, to);
  }

  /** Where the characters belong that a round goes over: up to its match to the active modes, and from
      there on to the holders of the match. */
  function RoundMarks(c: Config, s: State): seq<Mark> {
    if !Round(c, s).Go? then []
    else
      var m := Found(c, s).value;
      var ready := Ready(c, s, m);
      Marked(Slice(c.code, s.at, m.index), ClassNames(s.modes)) +
      Marked(Slice(c.code, m.index, Round(c, s).state.at), Holders(ready, m, BranchOf(c, ready, m)))
  }

  function RunMarks(c: Config, s: State, n: nat): seq<Mark>
    decreases n
  {
    if n == 0 || !Round(c, s).Go? then [] else RoundMarks(c, s) + RunMarks(c, Round(c, s).state, n - 1)
  }

  /** A round that neither ends the language itself nor puts text off into other nodes. */
  ghost predicate KeepsPlacesInRound(c: Config, s: State) {
    Round(c, s).Go? ==>
      var ready := Ready(c, s, Found(c, s).value);
      var branch := BranchOf(c, ready, Found(c, s).value);
      branch != Ending(0) && KeepsPlaces(ready, Found(c, s).value, branch)
  }

  lemma ReadyPlaced(c: Config, s: State, m: Match, done: seq<Mark>)
    requires PlacedUpTo(c, s, done) && Found(c, s) == Some(m) && s.at <= m.index
    ensures var ready := Ready(c, s, m);
            && PlacedUpTo(c, ready, done)
            && WithPending(ready, done) == WithPending(s, done) + Marked(Slice(c.code, s.at, m.index), ClassNames(s.modes))
  {
    var gap := Slice(c.code, s.at, m.index);
    MarkedConcat(s.buffer, gap, ClassNames(s.modes));
    MarksAssociate(done, Marked(s.buffer, ClassNames(s.modes)), Marked(gap, ClassNames(s.modes)));
  }

  lemma MovedPlaced(c: Config, s: State, at: nat, ideal: seq<Mark>)
    ensures Placed(c, s.(at := at), ideal) <==> Placed(c, s, ideal)
  {
    var t := s.(at := at);
    if done :| PlacedUpTo(c, s, done) && WithPending(s, done) == ideal {
      assert PlacedUpTo(c, t, done) && WithPending(t, done) == ideal;
    }
    if done :| PlacedUpTo(c, t, done) && WithPending(t, done) == ideal {
      assert PlacedUpTo(c, s, done) && WithPending(s, done) == ideal;
    }
  }

  lemma PlacedByMoves(c: Config, s: State, m: Match, branch: Branch, t: State, n: nat, done: seq<Mark>)
    requires s.modes != [] && Fits(s, m, branch) && PlacedBy(c, s, m, branch, t, done)
    requires Contribution(c, s, m, branch) == Slice(c.code, m.index, m.index + n)
    ensures Placed(c, t.(at := m.index + n),
                   WithPending(s, done) + Marked(Slice(c.code, m.index, m.index + n), Holders(s, m, branch)))
            <==> KeepsPlaces(s, m, branch)
  {
    MovedPlaced(c, t, m.index + n, WithPending(s, done) + Marked(Slice(c.code, m.index, m.index + n), Holders(s, m, branch)));
  }

  lemma HandledRoundPlaces(c: Config, ready: State, m: Match, branch: Branch, t: State, n: nat, done: seq<Mark>)
    requires PlacedUpTo(c, ready, done) && Fits(ready, m, branch) && branch != Ending(0)
    requires (t, n) == Handled(c, ready, m, branch)
    requires Faithful(c, ready, m, branch) && m.index <= |c.code| && InText(c.code, m.index, m)
    ensures Placed(c, t.(at := m.index + n),
                   WithPending(ready, done) + Marked(Slice(c.code, m.index, m.index + n), Holders(ready, m, branch)))
            <==> KeepsPlaces(ready, m, branch)
  {
    HandledPlaced(c, ready, m, branch, done);
    HandledProgress(c, ready, m, branch);
    ContributionIsCode(c, ready, m, branch);
    PlacedByMoves(c, ready, m, branch, t, n, done);
  }

  lemma RoundHandles(c: Config, s: State, m: Match, ready: State, branch: Branch, t: State, n: nat)
    requires s.modes != [] && s.frames != [] && Found(c, s) == Some(m) && ready == Ready(c, s, m)
    requires branch == BranchOf(c, ready, m) && !branch.Throws? && (t, n) == Handled(c, ready, m, branch)
    ensures Round(c, s) == Go(t.(at := m.index + n))
    ensures RoundMarks(c, s) == Marked(Slice(c.code, s.at, m.index), ClassNames(s.modes)) +
                                Marked(Slice(c.code, m.index, m.index + n), Holders(ready, m, branch))
  {
    HandledRoundGoes(c, ready, m, branch, t, n);
  }

  /** A round keeps every character in the nodes it belongs to exactly when its match keeps places. */
  lemma RoundPlaces(c: Config, s: State, m: Match, done: seq<Mark>)
    requires c.oracle.Valid(c.code) && Conserves(c, s) && PlacedUpTo(c, s, done) && Found(c, s) == Some(m)
    requires Round(c, s).Go? && FaithfulRound(c, Ready(c, s, m), m) && BranchOf(c, Ready(c, s, m), m) != Ending(0)
    ensures Placed(c, Round(c, s).state, WithPending(s, done) + RoundMarks(c, s)) <==>
            KeepsPlaces(Ready(c, s, m), m, BranchOf(c, Ready(c, s, m), m))
  {
    var ready := Ready(c, s, m);
    var branch := BranchOf(c, ready, m);
    ReadyConserves(c, s, m);
    RoundPlacesFrom(c, s, m, ready, branch, done);
  }

  lemma RoundPlacesFrom(c: Config, s: State, m: Match, ready: State, branch: Branch, done: seq<Mark>)
    requires PlacedUpTo(c, s, done) && Found(c, s) == Some(m) && ready == Ready(c, s, m)
    requires branch == BranchOf(c, ready, m) && !branch.Throws? && branch != Ending(0)
    requires Faithful(c, ready, m, branch) && s.at <= m.index <= |c.code| && InText(c.code, m.index, m)
    ensures Round(c, s).Go?
    ensures Placed(c, Round(c, s).state, WithPending(s, done) + RoundMarks(c, s)) <==> KeepsPlaces(ready, m, branch)
  {
    var (t, n) := Handled(c, ready, m, branch);
    RoundHandles(c, s, m, ready, branch, t, n);
    ReadyPlaced(c, s, m, done);
    HandledRoundPlaces(c, ready, m, branch, t, n, done);
    MarksAssociate(WithPending(s, done), Marked(Slice(c.code, s.at, m.index), ClassNames(s.modes)),
                   Marked(Slice(c.code, m.index, m.index + n), Holders(ready, m, branch)));
  }

  /** In a run of a good language whose rounds keep places, every character is in the nodes it belongs to. */
  lemma {:induction false} RunPlaces(c: Config, s: State, n: nat, done: seq<Mark>)
    requires c.oracle.Valid(c.code) && GoodLanguage(c) && Keeps(c, s) && PlacedUpTo(c, s, done)
    requires Rounds(c, s, n).Go?
    requires forall k: nat :: k < n && Rounds(c, s, k).Go? ==> KeepsPlacesInRound(c, Rounds(c, s, k).state)
    ensures Placed(c, Rounds(c, s, n).state, WithPending(s, done) + RunMarks(c, s, n))
    decreases n
  {
    if n == 0 {
      assert WithPending(s, done) + [] == WithPending(s, done);
    } else {
      var next, m := Round(c, s).state, Found(c, s).value;
      assert Rounds(c, s, 0).Go? && KeepsPlacesInRound(c, Rounds(c, s, 0).state);
      GoodMatch(c, s, m);
      GoodRoundConserves(c, s);
      RoundPlaces(c, s, m, done);
      var done' :| PlacedUpTo(c, next, done') && WithPending(next, done') == WithPending(s, done) + RoundMarks(c, s);
      forall k: nat | k < n - 1 && Rounds(c, next, k).Go? ensures KeepsPlacesInRound(c, Rounds(c, next, k).state) {
        assert Rounds(c, s, k + 1) == Rounds(c, next, k);
      }
      RunPlaces(c, next, n - 1, done');
      MarksAssociate(WithPending(s, done), RoundMarks(c, s), RunMarks(c, next, n - 1));
    }
  }

  /** Where the last step puts the rest of the code, and everything before it. */
  lemma FinishedPlaces(c: Config, s: State, done: seq<Mark>)
    requires PlacedUpTo(c, s, done)
    ensures AllWithin(c.oracle, MarksOfNodes(FinishedTree(c, s), []),
                      WithPending(s, done) + Marked(Slice(c.code, s.at, |c.code|), ClassNames(s.modes)))
  {
    var rest := Slice(c.code, s.at, |c.code|);
    var full := s.(buffer := s.buffer + rest);
    FlushedMarks(c, full);
    EmittedWithin(c.oracle, Top(s), s.buffer + rest, Kinds(s.frames));
    MarkedConcat(s.buffer, rest, Kinds(s.frames));
    WithinConcat(c.oracle, MarksOfFrames(s.frames), done,
                 Emitted(c.oracle, Top(s), s.buffer + rest, Kinds(s.frames)), Marked(s.buffer + rest, Kinds(s.frames)));
    MarksAssociate(done, Marked(s.buffer, Kinds(s.frames)), Marked(rest, Kinds(s.frames)));
    AllClosedMarks(Last(c, s).frames);
  }

  /** The highlighter as it is constructed. */
  function Initial(language: Mode): State {
    State([language], "", 0, 0, false, 0, 0, None, [Frame("", [])])
  }

  lemma InitialIsPlaced(c: Config, language: Mode)
    ensures PlacedUpTo(c, Initial(language), []) && WithPending(Initial(language), []) == []
    ensures GoodMode(language) ==> Keeps(c, Initial(language))
  {
    assert [language][..0] == [];
    assert [Frame("", [])][..0] == [];
  }

  lemma {:induction false} MarksSpell(nodes: seq<TokenNode>, outer: seq<string>)
    ensures |MarksOfNodes(nodes, outer)| == |TextOfNodes(nodes)|
    ensures forall i :: 0 <= i < |TextOfNodes(nodes)| ==> MarksOfNodes(nodes, outer)[i].c == TextOfNodes(nodes)[i]
    decreases nodes, 1
  {
    if nodes != [] {
      MarksSpell(nodes[..|nodes| - 1], outer);
      MarksSpellNode(nodes[|nodes| - 1], outer);
    }
  }

  lemma {:induction false} MarksSpellNode(node: TokenNode, outer: seq<string>)
    ensures |MarksOfNode(node, outer)| == |TextOfNode(node)|
    ensures forall i :: 0 <= i < |TextOfNode(node)| ==> MarksOfNode(node, outer)[i].c == TextOfNode(node)[i]
    decreases node, 0
  {
    if node.Branch? {
      MarksSpell(node.children, outer + [node.kind]);
    }
  }

  /** The finished tree of a good language whose rounds keep places: its characters are those of the code, and
      every one is in exactly the nodes of the modes it belongs to, and perhaps in a keyword inside them. */
  lemma TreePlaces(c: Config, language: Mode, n: nat)
    requires c.oracle.Valid(c.code) && GoodLanguage(c) && GoodMode(language) && Finishes(c, Initial(language), n)
    requires forall k: nat :: k < n && Rounds(c, Initial(language), k).Go? ==>
               KeepsPlacesInRound(c, Rounds(c, Initial(language), k).state)
    ensures var end := Rounds(c, Initial(language), n).state;
            var marks := MarksOfNodes(FinishedTree(c, end), []);
            && AllWithin(c.oracle, marks,
                         RunMarks(c, Initial(language), n) + Marked(Slice(c.code, end.at, |c.code|), ClassNames(end.modes)))
            && |marks| == |c.code| && forall i :: 0 <= i < |c.code| ==> marks[i].c == c.code[i]
  {
    var s, end := Initial(language), Rounds(c, Initial(language), n).state;
    InitialIsPlaced(c, language);
    RunConserves(c, s, n);
    RunPlaces(c, s, n, []);
    assert [] + RunMarks(c, s, n) == RunMarks(c, s, n);
    var done :| PlacedUpTo(c, end, done) && WithPending(end, done) == RunMarks(c, s, n);
    FinishedPlaces(c, end, done);
    MarksSpell(FinishedTree(c, end), []);
    FinishedText(c, end);
  }

  lemma FinishedText(c: Config, s: State)
    requires s.modes != [] && Conserves(c, s)
    ensures TextOfNodes(FinishedTree(c, s)) == c.code
  {
    LastConserves(c, s);
    AllClosedText(Last(c, s).frames);
  }

  lemma {:induction false} AllClosedText(frames: seq<Frame>)
    requires frames != []
    ensures TextOfNodes(AllClosed(frames)[0].children) == TextOfFrames(frames)
    decreases |frames|
  {
    ClosedAppendsNothing(frames);
    if |frames| == 1 {
      assert frames[..0] == [];
    } else {
      AllClosedText(Closed(frames));
    }
  }
}
