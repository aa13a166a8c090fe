/**
 `mergeStreams` of highlight.js: the tags of the original markup and those of the highlighter are
 interleaved, closing and reopening the highlighter's tags around the original ones.
 */
module HighlightStreams {
  import opened Html

  datatype Event =
    | Start(offset: nat, tag: Tag)
    | Stop(offset: nat, tag: Tag)

  // ---------- Specification: streams ----------

  /** The elements open after one more event, outermost first. A void element is never open, and its end
      tag is ignored. */
  function After(open: seq<Tag>, event: Event): seq<Tag> {
    match event
    case Start(_, tag) => if IsVoid(tag) then open else open + [tag]
    case Stop(_, tag) => if IsVoid(tag) || open == [] then open else open[..|open| - 1]
  }

  function AfterAll(open: seq<Tag>, events: seq<Event>): seq<Tag>
    decreases |events|
  {
    if events == [] then open else AfterAll(After(open, events[0]), events[1..])
  }

  /** An end matches the innermost open element. */
  predicate Matches(open: seq<Tag>, event: Event) {
    event.Stop? && !IsVoid(event.tag) ==> open != [] && open[|open| - 1] == event.tag
  }

  /** Every end matches the innermost open element, and none is left open. */
  predicate WellNested(events: seq<Event>, open: seq<Tag>) {
    if events == [] then open == [] else Matches(open, events[0]) && WellNested(events[1..], After(open, events[0]))
  }

  predicate Ordered(events: seq<Event>, low: nat, high: nat) {
    if events == [] then low <= high
    else low <= events[0].offset <= high && Ordered(events[1..], events[0].offset, high)
  }

  predicate NoVoids(events: seq<Event>) {
    forall e <- events :: !IsVoid(e.tag)
  }

  /** The elements over the character at index `i`: those started, and not ended, at or before it. */
  function Cover(events: seq<Event>, open: seq<Tag>, i: nat): seq<Tag> {
    if events == [] || events[0].offset > i then open
    else Cover(events[1..], After(open, events[0]), i)
  }

  // ---------- Specification: output ----------

  /** A character with the elements around it. */
  type Marked = (char, seq<Tag>)

  function Mark(text: string, open: seq<Tag>): seq<Marked> {
    seq(|text|, i requires 0 <= i < |text| => (text[i], open))
  }

  datatype Scan = Broken | Scan(open: seq<Tag>, marked: seq<Marked>)

  /** Reads tokens as HTML: what is open at the end, and every character with the elements around it.
      Broken by an end tag that does not match; the end tag of a void element is ignored. */
  function Read(tokens: seq<Token>, from: Scan): Scan {
    if tokens == [] || from.Broken? then from
    else
      var s := Read(tokens[..|tokens| - 1], from);
      if s.Broken? then s else ReadOne(tokens[|tokens| - 1], s)
  }

  function ReadOne(t: Token, s: Scan): Scan
    requires s.Scan?
  {
    match t
    case Chars(text) => s.(marked := s.marked + Mark(text, s.open))
    case Open(tag) => if IsVoid(tag) then s else s.(open := s.open + [tag])
    case Close(tag) =>
      if IsVoid(tag) then s
      else if s.open != [] && s.open[|s.open| - 1] == tag then s.(open := s.open[..|s.open| - 1]) else Broken
  }

  const EMPTY := Scan([], [])

  /** `tokens` is well nested and puts exactly the elements of `first`, then those of `second`,
      around each character of `text`. */
  ghost predicate Merges(tokens: seq<Token>, first: seq<Event>, second: seq<Event>, text: string) {
    var s := Read(tokens, EMPTY);
    && s.Scan?
    && s.open == []
    && |s.marked| == |text|
    && forall i :: 0 <= i < |text| ==> s.marked[i] == (text[i], Cover(first, [], i) + Cover(second, [], i))
  }

  function Closes(open: seq<Tag>): seq<Token> {
    if open == [] then [] else [Close(open[|open| - 1])] + Closes(open[..|open| - 1])
  }

  function Opens(open: seq<Tag>): seq<Token> {
    if open == [] then [] else Opens(open[..|open| - 1]) + [Open(open[|open| - 1])]
  }

  function TokenOf(event: Event): Token {
    if event.Start? then Open(event.tag) else Close(event.tag)
  }

  // ---------- Lemmas about reading ----------

  lemma ReadSnoc(tokens: seq<Token>, t: Token, from: Scan)
    ensures var s := Read(tokens, from); Read(tokens + [t], from) == if s.Broken? then s else ReadOne(t, s)
  {
    assert (tokens + [t])[..|tokens|] == tokens;
  }

  lemma {:induction false} ReadConcat(a: seq<Token>, b: seq<Token>, from: Scan)
    ensures Read(a + b, from) == Read(b, Read(a, from))
  {
    if b == [] {
      assert a + b == a;
    } else {
      var last := b[|b| - 1];
      ReadConcat(a, b[..|b| - 1], from);
      assert a + b == (a + b[..|b| - 1]) + [last];
      ReadSnoc(a + b[..|b| - 1], last, from);
    }
  }

  /** Closing a stack of elements leaves what was below it. */
  lemma {:induction false} ReadCloses(below: seq<Tag>, open: seq<Tag>, marked: seq<Marked>)
    requires forall t <- open :: !IsVoid(t)
    ensures Read(Closes(open), Scan(below + open, marked)) == Scan(below, marked)
  {
    if open == [] {
      assert below + open == below;
    } else {
      var top := open[|open| - 1];
      var all := below + open;
      assert all[..|all| - 1] == below + open[..|open| - 1];
      ReadConcat([Close(top)], Closes(open[..|open| - 1]), Scan(all, marked));
      assert [Close(top)][..0] == [];
      assert Read([Close(top)], Scan(all, marked)) == Scan(all[..|all| - 1], marked);
      ReadCloses(below, open[..|open| - 1], marked);
    }
  }

  /** Reopening them brings them back. */
  lemma {:induction false} ReadOpens(below: seq<Tag>, open: seq<Tag>, marked: seq<Marked>)
    requires forall t <- open :: !IsVoid(t)
    ensures Read(Opens(open), Scan(below, marked)) == Scan(below + open, marked)
  {
    if open == [] {
      assert below + open == below;
    } else {
      var top := open[|open| - 1];
      ReadOpens(below, open[..|open| - 1], marked);
      ReadSnoc(Opens(open[..|open| - 1]), Open(top), Scan(below, marked));
      assert (below + open[..|open| - 1]) + [top] == below + open;
    }
  }

  // ---------- mergeStreams ----------

  /** Which of the two streams goes next: ends of the second before everything of the first, and
      that before starts of the second, at one offset. */
  predicate FirstIsNext(first: seq<Event>, second: seq<Event>) {
    if first != [] && second != [] then
      if first[0].offset != second[0].offset then first[0].offset < second[0].offset else second[0].Start?
    else first != []
  }

  lemma RenderSnoc(tokens: seq<Token>, t: Token)
    ensures Render(tokens + [t]) == Render(tokens) + RenderToken(t)
  {
    RenderConcat(tokens, [t]);
    assert Render([t]) == RenderToken(t) + Render([t][1..]);
  }

  lemma RenderCons(t: Token, rest: seq<Token>)
    ensures Render([t] + rest) == RenderToken(t) + Render(rest)
  {
    assert ([t] + rest)[1..] == rest;
  }

  lemma StringConcat(a: string, b: string, c: string)
    ensures (a + b) + c == a + (b + c)
  {}

  predicate PlainEvents(events: seq<Event>) {
    events == [] || (PlainNames(events[0].tag) && PlainEvents(events[1..]))
  }

  predicate PlainStack(open: seq<Tag>) {
    open == [] || (PlainNames(open[|open| - 1]) && PlainStack(open[..|open| - 1]))
  }

  lemma {:induction false} PlainClosesAndOpens(open: seq<Tag>)
    ensures PlainStack(open) ==> PlainTokens(Closes(open)) && PlainTokens(Opens(open))
  {
    if open != [] && PlainStack(open) {
      var top, below := open[|open| - 1], open[..|open| - 1];
      PlainClosesAndOpens(below);
      PlainTokensConcat([Close(top)], Closes(below));
      PlainTokensSnoc([], Close(top));
      PlainTokensSnoc(Opens(below), Open(top));
      assert [] + [Close(top)] == [Close(top)];
    }
  }

  // `o.reverse().forEach(u)`
  method EmitCloses(open: seq<Tag>, s: string) returns (s': string)
    ensures s' == s + Render(Closes(open))
  {
    s' := s;
    var k := |open|;
    assert open[..k] == open;
    assert s + Render(Closes(open)) == s' + Render(Closes(open[..k]));
    while k > 0
      invariant 0 <= k <= |open|
      invariant s + Render(Closes(open)) == s' + Render(Closes(open[..k]))
    {
      var tag := open[k - 1];
      assert open[..k][..k - 1] == open[..k - 1];
      RenderCons(Close(tag), Closes(open[..k - 1]));
      StringConcat(s', RenderToken(Close(tag)), Render(Closes(open[..k - 1])));
      s' := s' + RenderToken(Close(tag));
      k := k - 1;
    }
    assert s' + Render(Closes(open[..0])) == s';
  }

  // `o.reverse().forEach(c)`
  method EmitOpens(open: seq<Tag>, s: string) returns (s': string)
    ensures s' == s + Render(Opens(open))
  {
    s' := s;
    var k := 0;
    while k < |open|
      invariant 0 <= k <= |open|
      invariant s' == s + Render(Opens(open[..k]))
    {
      assert open[..k + 1][..k] == open[..k];
      RenderSnoc(Opens(open[..k]), Open(open[k]));
      StringConcat(s, Render(Opens(open[..k])), RenderToken(Open(open[k])));
      s' := s' + RenderToken(Open(open[k]));
      k := k + 1;
    }
    assert open[..k] == open;
  }

  /** What the loop of `mergeStreams` keeps: the open elements of the output are those of the first
      stream followed by the highlighted stack, and the text so far is marked as it should be. */
  ghost predicate Invariant(
    tokens: seq<Token>, firstOpen: seq<Tag>, secondOpen: seq<Tag>, at: nat,
    first: seq<Event>, second: seq<Event>, first0: seq<Event>, second0: seq<Event>, text: string)
  {
    && at <= |text|
    && Follows(first, firstOpen, first0, at, text) && Follows(second, secondOpen, second0, at, text)
    && NoVoids(second) && NoVoidTags(secondOpen)
    && ReadsTo(tokens, firstOpen + secondOpen, at, first0, second0, text)
  }

  predicate Coming(events: seq<Event>, open: seq<Tag>, at: nat, text: string) {
    WellNested(events, open) && Ordered(events, at, |text|)
  }

  /** The rest of a stream covers the text from here on as the whole does. */
  ghost predicate Follows(events: seq<Event>, open: seq<Tag>, all: seq<Event>, at: nat, text: string) {
    Coming(events, open, at, text) && forall i :: at <= i < |text| ==> Cover(all, [], i) == Cover(events, open, i)
  }

  predicate NoVoidTags(open: seq<Tag>) {
    forall t <- open :: !IsVoid(t)
  }

  /** The tokens so far are read with these elements open, and mark the text so far as they should. */
  ghost predicate ReadsTo(tokens: seq<Token>, open: seq<Tag>, at: nat, first0: seq<Event>, second0: seq<Event>, text: string)
    requires at <= |text|
  {
    Read(tokens, EMPTY).Scan? && Read(tokens, EMPTY).open == open && MarksTo(Read(tokens, EMPTY).marked, at, first0, second0, text)
  }

  ghost predicate MarksTo(marked: seq<Marked>, at: nat, first0: seq<Event>, second0: seq<Event>, text: string)
    requires at <= |text|
  {
    |marked| == at && forall i :: 0 <= i < at ==> marked[i] == (text[i], Cover(first0, [], i) + Cover(second0, [], i))
  }

  // Text up to the next event of either stream.
  lemma EmitText(
    tokens: seq<Token>, firstOpen: seq<Tag>, secondOpen: seq<Tag>, at: nat, next: nat,
    first: seq<Event>, second: seq<Event>, first0: seq<Event>, second0: seq<Event>, text: string)
    requires Invariant(tokens, firstOpen, secondOpen, at, first, second, first0, second0, text)
    requires at <= next <= |text|
    requires first != [] ==> next <= first[0].offset
    requires second != [] ==> next <= second[0].offset
    ensures Invariant(tokens + [Chars(text[at..next])], firstOpen, secondOpen, next, first, second, first0, second0, text)
  {
    var s := Read(tokens, EMPTY);
    ReadSnoc(tokens, Chars(text[at..next]), EMPTY);
    forall i | at <= i < next ensures Cover(first0, [], i) + Cover(second0, [], i) == s.open {
      assert Cover(first, firstOpen, i) == firstOpen && Cover(second, secondOpen, i) == secondOpen;
    }
    MarksMore(s.marked, s.open, at, next, first0, second0, text);
    FollowsLater(first, firstOpen, first0, at, next, text);
    FollowsLater(second, secondOpen, second0, at, next, text);
  }

  lemma MarksMore(
    marked: seq<Marked>, open: seq<Tag>, at: nat, next: nat, first0: seq<Event>, second0: seq<Event>, text: string)
    requires at <= next <= |text| && MarksTo(marked, at, first0, second0, text)
    requires forall i :: at <= i < next ==> Cover(first0, [], i) + Cover(second0, [], i) == open
    ensures MarksTo(marked + Mark(text[at..next], open), next, first0, second0, text)
  {
    var more := Mark(text[at..next], open);
    forall i | at <= i < next ensures (marked + more)[i] == (text[i], open) {
      assert more[i - at] == (text[i], open);
    }
  }

  lemma FollowsLater(events: seq<Event>, open: seq<Tag>, all: seq<Event>, at: nat, next: nat, text: string)
    requires Follows(events, open, all, at, text)
    requires at <= next <= |text| && (events != [] ==> next <= events[0].offset)
    ensures Follows(events, open, all, next, text)
  {}

  // One event of a stream, at the current position.
  lemma FollowsEvent(events: seq<Event>, open: seq<Tag>, all: seq<Event>, at: nat, text: string)
    requires Follows(events, open, all, at, text) && events != [] && events[0].offset == at
    ensures Follows(events[1..], After(open, events[0]), all, at, text)
    ensures Matches(open, events[0])
  {}

  lemma ReadEvent(open: seq<Tag>, event: Event, marked: seq<Marked>)
    requires Matches(open, event)
    ensures ReadOne(TokenOf(event), Scan(open, marked)) == Scan(After(open, event), marked)
  {}

  lemma AfterOnTop(below: seq<Tag>, open: seq<Tag>, event: Event)
    requires Matches(open, event) && !IsVoid(event.tag) && NoVoidTags(open)
    ensures Matches(below + open, event) && After(below + open, event) == below + After(open, event)
    ensures NoVoidTags(After(open, event))
  {
    if event.Start? {
      assert (below + open) + [event.tag] == below + (open + [event.tag]);
    } else {
      assert (below + open)[..|below + open| - 1] == below + open[..|open| - 1];
    }
  }

  // One event of the second stream, at the current position.
  lemma EmitSecond(
    tokens: seq<Token>, firstOpen: seq<Tag>, secondOpen: seq<Tag>, at: nat,
    first: seq<Event>, second: seq<Event>, first0: seq<Event>, second0: seq<Event>, text: string)
    requires Invariant(tokens, firstOpen, secondOpen, at, first, second, first0, second0, text)
    requires second != [] && second[0].offset == at
    ensures Invariant(tokens + [TokenOf(second[0])], firstOpen, After(secondOpen, second[0]), at,
                      first, second[1..], first0, second0, text)
  {
    assert second[0] in second;
    FollowsEvent(second, secondOpen, second0, at, text);
    ReadSnoc(tokens, TokenOf(second[0]), EMPTY);
    AfterOnTop(firstOpen, secondOpen, second[0]);
    ReadEvent(firstOpen + secondOpen, second[0], Read(tokens, EMPTY).marked);
  }

  // One event of the first stream, at the current position, while the second stack is closed.
  lemma EmitFirst(
    tokens: seq<Token>, firstOpen: seq<Tag>, secondOpen: seq<Tag>, at: nat,
    first: seq<Event>, second: seq<Event>, first0: seq<Event>, second0: seq<Event>, text: string)
    requires Invariant(tokens + Opens(secondOpen), firstOpen, secondOpen, at, first, second, first0, second0, text)
    requires Read(tokens, EMPTY).Scan? && Read(tokens, EMPTY).open == firstOpen
    requires first != [] && first[0].offset == at
    ensures Invariant(tokens + [TokenOf(first[0])] + Opens(secondOpen), After(firstOpen, first[0]), secondOpen, at,
                      first[1..], second, first0, second0, text)
    ensures var s := Read(tokens + [TokenOf(first[0])], EMPTY); s.Scan? && s.open == After(firstOpen, first[0])
  {
    FollowsEvent(first, firstOpen, first0, at, text);
    ReopenedLater(tokens, firstOpen, secondOpen, first[0]);
  }

  // The second stack reopened after an event of the first stream instead of before it.
  lemma ReopenedLater(tokens: seq<Token>, firstOpen: seq<Tag>, secondOpen: seq<Tag>, event: Event)
    requires Read(tokens, EMPTY).Scan? && Read(tokens, EMPTY).open == firstOpen && NoVoidTags(secondOpen)
    requires Matches(firstOpen, event)
    ensures var marked := Read(tokens, EMPTY).marked;
            && Read(tokens + Opens(secondOpen), EMPTY) == Scan(firstOpen + secondOpen, marked)
            && Read(tokens + [TokenOf(event)], EMPTY) == Scan(After(firstOpen, event), marked)
            && Read(tokens + [TokenOf(event)] + Opens(secondOpen), EMPTY) == Scan(After(firstOpen, event) + secondOpen, marked)
  {
    var marked := Read(tokens, EMPTY).marked;
    ReadConcat(tokens, Opens(secondOpen), EMPTY);
    ReadOpens(firstOpen, secondOpen, marked);
    ReadSnoc(tokens, TokenOf(event), EMPTY);
    ReadEvent(firstOpen, event, marked);
    ReadConcat(tokens + [TokenOf(event)], Opens(secondOpen), EMPTY);
    ReadOpens(After(firstOpen, event), secondOpen, marked);
  }

  // Closing the second stack and reopening it changes nothing.
  lemma CloseThenOpen(tokens: seq<Token>, firstOpen: seq<Tag>, secondOpen: seq<Tag>)
    requires forall t <- secondOpen :: !IsVoid(t)
    requires Read(tokens, EMPTY).Scan? && Read(tokens, EMPTY).open == firstOpen + secondOpen
    ensures Read(tokens + Closes(secondOpen), EMPTY) == Scan(firstOpen, Read(tokens, EMPTY).marked)
    ensures Read(tokens + Closes(secondOpen) + Opens(secondOpen), EMPTY) == Read(tokens, EMPTY)
  {
    var s := Read(tokens, EMPTY);
    ReadConcat(tokens, Closes(secondOpen), EMPTY);
    ReadCloses(firstOpen, secondOpen, s.marked);
    ReadConcat(tokens + Closes(secondOpen), Opens(secondOpen), EMPTY);
    ReadOpens(firstOpen, secondOpen, s.marked);
  }

  // ---------- The merge as a function ----------

  /** The stack of the merge: it knows no void elements. */
  function Pushed(stack: seq<Tag>, event: Event): seq<Tag> {
    if event.Start? then stack + [event.tag] else if stack == [] then [] else stack[..|stack| - 1]
  }

  /** Whether the inner loop takes one more event of the first stream. */
  predicate Again(first: seq<Event>, second: seq<Event>, at: nat) {
    FirstIsNext(first, second) && first != [] && first[0].offset == at
  }

  /** How many events of the first stream are taken at one offset: `do { ... } while`. */
  function RunLength(first: seq<Event>, second: seq<Event>, at: nat): (n: nat)
    requires first != []
    ensures 0 < n <= |first|
  {
    if Again(first[1..], second, at) then 1 + RunLength(first[1..], second, at) else 1
  }

  function TokensOf(events: seq<Event>): seq<Token> {
    if events == [] then [] else [TokenOf(events[0])] + TokensOf(events[1..])
  }

  function NextOffset(first: seq<Event>, second: seq<Event>): nat
    requires first != [] || second != []
  {
    if FirstIsNext(first, second) then first[0].offset else second[0].offset
  }

  /** The first `n` events are at one offset. */
  predicate AllAt(events: seq<Event>, at: nat, n: nat) {
    n <= |events| && forall i :: 0 <= i < n ==> events[i].offset == at
  }

  lemma LaterAt(events: seq<Event>, at: nat, n: nat)
    requires 0 < n && AllAt(events, at, n)
    ensures AllAt(events[1..], at, n - 1)
  {
  }

  lemma {:induction false} RunIsAtOffset(first: seq<Event>, second: seq<Event>, at: nat, high: nat)
    requires Ordered(first, at, high) && first != [] && first[0].offset == at
    ensures var n := RunLength(first, second, at);
            Ordered(first[n..], at, high) && AllAt(first, at, n)
  {
    if Again(first[1..], second, at) {
      RunIsAtOffset(first[1..], second, at, high);
      var n := RunLength(first[1..], second, at);
      assert first[1..][n..] == first[n + 1..];
      forall i | 0 <= i < n + 1 ensures first[i].offset == at {
        assert i > 0 ==> first[i] == first[1..][i - 1];
      }
    }
  }

  /** The tokens that the merge writes from here on. */
  function Merged(first: seq<Event>, second: seq<Event>, stack: seq<Tag>, at: nat, text: string): seq<Token>
    requires Ordered(first, at, |text|) && Ordered(second, at, |text|)
    decreases |first| + |second|
  {
    if first == [] && second == [] then [Chars(text[at..])]
    else
      var next := NextOffset(first, second);
      var chars := Chars(text[at..next]);
      if FirstIsNext(first, second) then
        RunIsAtOffset(first, second, next, |text|);
        var n := RunLength(first, second, next);
        [chars] + (Closes(stack) + (TokensOf(first[..n]) + (Opens(stack) + Merged(first[n..], second, stack, next, text))))
      else
        [chars] + ([TokenOf(second[0])] + Merged(first, second[1..], Pushed(stack, second[0]), next, text))
  }

  lemma TokensOfSnoc(events: seq<Event>, event: Event)
    ensures TokensOf(events + [event]) == TokensOf(events) + [TokenOf(event)]
  {
    if events == [] {
      assert events + [event] == [event] && [event][1..] == [];
    } else {
      TokensOfSnoc(events[1..], event);
      assert (events + [event])[1..] == events[1..] + [event];
    }
  }

  // ---------- mergeStreams ----------

  /** `taken` events of a run of the first stream are written, and `again` says whether there are more. */
  predicate Taking(first: seq<Event>, second: seq<Event>, at: nat, taken: nat, again: bool)
    requires first != []
  {
    var n := RunLength(first, second, at);
    taken <= n && if again then taken < n && n == taken + RunLength(first[taken..], second, at) else taken == n
  }

  lemma TakingOne(first: seq<Event>, second: seq<Event>, at: nat, taken: nat)
    requires first != [] && Taking(first, second, at, taken, true)
    ensures first[taken..] != [] && first[taken..][1..] == first[taken + 1..]
    ensures Taking(first, second, at, taken + 1, Again(first[taken + 1..], second, at))
  {
    assert first[taken..][1..] == first[taken + 1..];
  }

  /** A run of events of the first stream at one offset, between closing and reopening the stack. */
  method TakeFirst(first: seq<Event>, second: seq<Event>, stack: seq<Tag>, at: nat, s: string)
    returns (s': string, first': seq<Event>)
    requires first != []
    ensures var n := RunLength(first, second, at);
            && first' == first[n..]
            && s' == ((s + Render(Closes(stack))) + Render(TokensOf(first[..n]))) + Render(Opens(stack))
  {
    s' := EmitCloses(stack, s);
    first' := first;
    ghost var start, taken: nat := s', 0;
    // do { ... } while: the first round is unconditional
    var again := true;
    TakenNone(start, first);
    while again
      invariant Taking(first, second, at, taken, again) && first' == first[taken..]
      invariant s' == start + Render(TokensOf(first[..taken]))
      decreases |first'|, again
    {
      TakenMore(start, first, taken);
      TakingOne(first, second, at, taken);
      s' := s' + RenderToken(TokenOf(first'[0]));
      first' := first'[1..];
      again := Again(first', second, at);
      taken := taken + 1;
    }
    s' := EmitOpens(stack, s');
  }

  lemma TakenNone(start: string, first: seq<Event>)
    ensures first[0..] == first && start + Render(TokensOf(first[..0])) == start
  {
  }

  lemma TakenMore(start: string, first: seq<Event>, taken: nat)
    requires taken < |first|
    ensures start + Render(TokensOf(first[..taken + 1])) ==
            (start + Render(TokensOf(first[..taken]))) + RenderToken(TokenOf(first[taken]))
    ensures first[taken..][0] == first[taken] && first[taken..][1..] == first[taken + 1..]
  {
    assert first[..taken + 1] == first[..taken] + [first[taken]];
    TokensOfSnoc(first[..taken], first[taken]);
    RenderSnoc(TokensOf(first[..taken]), TokenOf(first[taken]));
    StringConcat(start, Render(TokensOf(first[..taken])), RenderToken(TokenOf(first[taken])));
  }

  lemma RenderParts(s: string, chars: Token, closes: seq<Token>, run: seq<Token>, opens: seq<Token>, rest: seq<Token>)
    ensures s + Render([chars] + (closes + (run + (opens + rest)))) ==
            ((((s + RenderToken(chars)) + Render(closes)) + Render(run)) + Render(opens)) + Render(rest)
  {
    RenderConcat(opens, rest);
    RenderConcat(run, opens + rest);
    RenderConcat(closes, run + (opens + rest));
    RenderCons(chars, closes + (run + (opens + rest)));
    Flatten(s, RenderToken(chars), Render(closes), Render(run), Render(opens), Render(rest));
  }

  lemma Flatten(s: string, a: string, b: string, c: string, d: string, e: string)
    ensures s + (a + (b + (c + (d + e)))) == ((((s + a) + b) + c) + d) + e
  {
    StringConcat(c, d, e);
    StringConcat(b, c + d, e);
    StringConcat(b, c, d);
    StringConcat(s, a, b);
    StringConcat(s + a, b, c);
    StringConcat(s + a, b + c, d);
    StringConcat(s + a, (b + c) + d, e);
    StringConcat(s, a, b + (c + (d + e)));
  }

  /** The merge of two streams in offset order: it writes the tokens of `Merged`. */
  method MergeStreams(first0: seq<Event>, second0: seq<Event>, text: string) returns (s: string)
    requires Ordered(first0, 0, |text|) && Ordered(second0, 0, |text|)
    ensures s == Render(Merged(first0, second0, [], 0, text))
  {
    var first, second := first0, second0;
    var at: nat := 0;
    var stack: seq<Tag> := [];
    s := "";
    while first != [] || second != []
      invariant Ordered(first, at, |text|) && Ordered(second, at, |text|)
      invariant s + Render(Merged(first, second, stack, at, text)) == Render(Merged(first0, second0, [], 0, text))
      decreases |first| + |second|
    {
      var next := NextOffset(first, second);
      var chars := Chars(text[at..next]);
      if FirstIsNext(first, second) {
        RunIsAtOffset(first, second, next, |text|);
        ghost var n := RunLength(first, second, next);
        RenderParts(s, chars, Closes(stack), TokensOf(first[..n]), Opens(stack), Merged(first[n..], second, stack, next, text));
        s, first := TakeFirst(first, second, stack, next, s + RenderToken(chars));
      } else {
        RenderEvent(s, chars, TokenOf(second[0]), Merged(first, second[1..], Pushed(stack, second[0]), next, text));
        s := (s + RenderToken(chars)) + RenderToken(TokenOf(second[0]));
        stack := Pushed(stack, second[0]);
        second := second[1..];
      }
      at := next;
    }
    LastRendered(s, Chars(text[at..]));
    s := s + RenderToken(Chars(text[at..]));
  }

  lemma RenderEvent(s: string, chars: Token, event: Token, rest: seq<Token>)
    ensures s + Render([chars] + ([event] + rest)) == ((s + RenderToken(chars)) + RenderToken(event)) + Render(rest)
  {
    RenderCons(event, rest);
    RenderCons(chars, [event] + rest);
    StringConcat(s, RenderToken(chars), RenderToken(event) + Render(rest));
    StringConcat(s + RenderToken(chars), RenderToken(event), Render(rest));
  }

  lemma LastRendered(s: string, chars: Token)
    ensures s + Render([chars]) == s + RenderToken(chars)
  {
    RenderCons(chars, []);
    assert [chars] + [] == [chars];
    assert Render([]) == "" && RenderToken(chars) + "" == RenderToken(chars);
  }

  // ---------- What the merged tokens mean ----------

  lemma RunStep(tokens: seq<Token>, open: seq<Tag>, events: seq<Event>, n: nat)
    requires 0 < n <= |events|
    ensures (tokens + [TokenOf(events[0])]) + TokensOf(events[1..][..n - 1]) == tokens + TokensOf(events[..n])
    ensures AfterAll(After(open, events[0]), events[1..][..n - 1]) == AfterAll(open, events[..n])
    ensures events[1..][n - 1..] == events[n..]
  {
    assert events[..n][1..] == events[1..][..n - 1];
    var more := TokensOf(events[1..][..n - 1]);
    assert TokensOf(events[..n]) == [TokenOf(events[0])] + more;
    assert (tokens + [TokenOf(events[0])]) + more == tokens + ([TokenOf(events[0])] + more);
  }

  lemma RunEnds(tokens: seq<Token>, open: seq<Tag>, events: seq<Event>)
    ensures tokens + TokensOf(events[..0]) == tokens && AfterAll(open, events[..0]) == open && events[0..] == events
  {
  }

  // A run of events of the first stream, between closing and reopening the second.
  lemma {:induction false} RunKeeps(
    tokens: seq<Token>, firstOpen: seq<Tag>, stack: seq<Tag>, at: nat,
    first: seq<Event>, second: seq<Event>, first0: seq<Event>, second0: seq<Event>, text: string, n: nat)
    requires Invariant(tokens + Opens(stack), firstOpen, stack, at, first, second, first0, second0, text)
    requires Read(tokens, EMPTY).Scan? && Read(tokens, EMPTY).open == firstOpen
    requires AllAt(first, at, n)
    ensures Invariant((tokens + TokensOf(first[..n])) + Opens(stack), AfterAll(firstOpen, first[..n]), stack, at,
                      first[n..], second, first0, second0, text)
    decreases n
  {
    if n == 0 {
      RunEnds(tokens, firstOpen, first);
    } else {
      var tokens', rest := tokens + [TokenOf(first[0])], first[1..];
      EmitFirst(tokens, firstOpen, stack, at, first, second, first0, second0, text);
      LaterAt(first, at, n);
      RunKeeps(tokens', After(firstOpen, first[0]), stack, at, rest, second, first0, second0, text, n - 1);
      RunStep(tokens, firstOpen, first, n);
    }
  }

  // The text up to the next event, and the whole run of the first stream.
  lemma FirstKeeps(
    tokens: seq<Token>, firstOpen: seq<Tag>, stack: seq<Tag>, at: nat,
    first: seq<Event>, second: seq<Event>, first0: seq<Event>, second0: seq<Event>, text: string, n: nat)
    requires Invariant(tokens, firstOpen, stack, at, first, second, first0, second0, text)
    requires AllAt(first, at, n)
    ensures Invariant(((tokens + Closes(stack)) + TokensOf(first[..n])) + Opens(stack), AfterAll(firstOpen, first[..n]),
                      stack, at, first[n..], second, first0, second0, text)
  {
    CloseThenOpen(tokens, firstOpen, stack);
    RunKeeps(tokens + Closes(stack), firstOpen, stack, at, first, second, first0, second0, text, n);
  }

  lemma Regroup5<T>(s: seq<T>, a: seq<T>, b: seq<T>, c: seq<T>, d: seq<T>, e: seq<T>)
    ensures s + (a + (b + (c + (d + e)))) == ((((s + a) + b) + c) + d) + e
  {
  }

  lemma Regroup2<T>(s: seq<T>, a: seq<T>, b: seq<T>, c: seq<T>)
    ensures s + (a + (b + c)) == ((s + a) + b) + c
  {
  }

  lemma {:induction false} MergedKeeps(
    tokens: seq<Token>, firstOpen: seq<Tag>, stack: seq<Tag>, at: nat,
    first: seq<Event>, second: seq<Event>, first0: seq<Event>, second0: seq<Event>, text: string)
    requires Invariant(tokens, firstOpen, stack, at, first, second, first0, second0, text)
    ensures Merges(tokens + Merged(first, second, stack, at, text), first0, second0, text)
    decreases |first| + |second|
  {
    if first == [] && second == [] {
      EmitText(tokens, firstOpen, stack, at, |text|, first, second, first0, second0, text);
      assert text[at..|text|] == text[at..];
    } else {
      var next := NextOffset(first, second);
      var chars := Chars(text[at..next]);
      EmitText(tokens, firstOpen, stack, at, next, first, second, first0, second0, text);
      if FirstIsNext(first, second) {
        RunIsAtOffset(first, second, next, |text|);
        var n := RunLength(first, second, next);
        var rest := Merged(first[n..], second, stack, next, text);
        FirstKeeps(tokens + [chars], firstOpen, stack, next, first, second, first0, second0, text, n);
        Regroup5(tokens, [chars], Closes(stack), TokensOf(first[..n]), Opens(stack), rest);
        MergedKeeps((((tokens + [chars]) + Closes(stack)) + TokensOf(first[..n])) + Opens(stack),
                    AfterAll(firstOpen, first[..n]), stack, next, first[n..], second, first0, second0, text);
      } else {
        EmitSecond(tokens + [chars], firstOpen, stack, next, first, second, first0, second0, text);
        assert second[0] in second && Pushed(stack, second[0]) == After(stack, second[0]);
        Regroup2(tokens, [chars], [TokenOf(second[0])], Merged(first, second[1..], Pushed(stack, second[0]), next, text));
        MergedKeeps((tokens + [chars]) + [TokenOf(second[0])], firstOpen, Pushed(stack, second[0]), next,
                    first, second[1..], first0, second0, text);
      }
    }
  }

  // ---------- Balance ----------

  /** Elements opened, less elements closed. */
  function Balance(tokens: seq<Token>): int {
    if tokens == [] then 0 else Balance(tokens[..|tokens| - 1]) + Weight(tokens[|tokens| - 1])
  }

  function Weight(t: Token): int {
    match t
    case Chars(_) => 0
    case Open(tag) => if IsVoid(tag) then 0 else 1
    case Close(tag) => if IsVoid(tag) then 0 else -1
  }

  function EventBalance(events: seq<Event>): int {
    if events == [] then 0 else Weight(TokenOf(events[0])) + EventBalance(events[1..])
  }

  lemma {:induction false} BalanceConcat(a: seq<Token>, b: seq<Token>)
    ensures Balance(a + b) == Balance(a) + Balance(b)
  {
    if b == [] {
      assert a + b == a;
    } else {
      assert (a + b)[..|a + b| - 1] == a + b[..|b| - 1];
      BalanceConcat(a, b[..|b| - 1]);
    }
  }

  lemma OneWeight(t: Token)
    ensures Balance([t]) == Weight(t)
  {
    assert [t][..0] == [];
  }

  lemma {:induction false} ReadBalance(tokens: seq<Token>)
    ensures Read(tokens, EMPTY).Scan? ==> |Read(tokens, EMPTY).open| == Balance(tokens)
  {
    if tokens != [] {
      ReadBalance(tokens[..|tokens| - 1]);
    }
  }

  lemma {:induction false} ClosesOpensBalance(stack: seq<Tag>)
    ensures Balance(Closes(stack)) + Balance(Opens(stack)) == 0
  {
    if stack != [] {
      var top, below := stack[|stack| - 1], stack[..|stack| - 1];
      ClosesOpensBalance(below);
      BalanceConcat([Close(top)], Closes(below));
      BalanceConcat(Opens(below), [Open(top)]);
      OneWeight(Close(top));
      OneWeight(Open(top));
    }
  }

  lemma {:induction false} TokensOfBalance(events: seq<Event>)
    ensures Balance(TokensOf(events)) == EventBalance(events)
  {
    if events != [] {
      TokensOfBalance(events[1..]);
      BalanceConcat([TokenOf(events[0])], TokensOf(events[1..]));
      OneWeight(TokenOf(events[0]));
    }
  }

  lemma {:induction false} EventBalanceSplit(events: seq<Event>, n: nat)
    requires n <= |events|
    ensures EventBalance(events) == EventBalance(events[..n]) + EventBalance(events[n..])
    decreases n
  {
    if n == 0 {
      assert events[0..] == events;
    } else {
      EventBalanceSplit(events[1..], n - 1);
      assert events[..n][1..] == events[1..][..n - 1] && events[1..][n - 1..] == events[n..];
    }
  }

  lemma BalanceParts(chars: Token, closes: seq<Token>, run: seq<Token>, opens: seq<Token>, rest: seq<Token>)
    requires chars.Chars? && Balance(closes) + Balance(opens) == 0
    ensures Balance([chars] + (closes + (run + (opens + rest)))) == Balance(run) + Balance(rest)
  {
    BalanceConcat(opens, rest);
    BalanceConcat(run, opens + rest);
    BalanceConcat(closes, run + (opens + rest));
    BalanceConcat([chars], closes + (run + (opens + rest)));
    OneWeight(chars);
  }

  /** The merge opens and closes as much as its streams do. */
  lemma {:induction false} MergedBalance(first: seq<Event>, second: seq<Event>, stack: seq<Tag>, at: nat, text: string)
    requires Ordered(first, at, |text|) && Ordered(second, at, |text|)
    ensures Balance(Merged(first, second, stack, at, text)) == EventBalance(first) + EventBalance(second)
    decreases |first| + |second|
  {
    if first == [] && second == [] {
      OneWeight(Chars(text[at..]));
    } else {
      var next := NextOffset(first, second);
      var chars := Chars(text[at..next]);
      if FirstIsNext(first, second) {
        RunIsAtOffset(first, second, next, |text|);
        var n := RunLength(first, second, next);
        MergedBalance(first[n..], second, stack, next, text);
        ClosesOpensBalance(stack);
        TokensOfBalance(first[..n]);
        EventBalanceSplit(first, n);
        BalanceParts(chars, Closes(stack), TokensOf(first[..n]), Opens(stack), Merged(first[n..], second, stack, next, text));
      } else {
        var stack' := Pushed(stack, second[0]);
        MergedBalance(first, second[1..], stack', next, text);
        BalanceConcat([TokenOf(second[0])], Merged(first, second[1..], stack', next, text));
        BalanceConcat([chars], [TokenOf(second[0])] + Merged(first, second[1..], stack', next, text));
        OneWeight(chars);
        OneWeight(TokenOf(second[0]));
      }
    }
  }

  lemma {:induction false} NestedBalance(events: seq<Event>, open: seq<Tag>)
    requires WellNested(events, open)
    ensures |open| + EventBalance(events) == 0
  {
    if events != [] {
      NestedBalance(events[1..], After(open, events[0]));
    }
  }

  /** The merge of a well-nested second stream is well nested and covers as its streams do if the first is
      well nested, and not well nested if the first is not balanced. */
  lemma MergedExactly(first: seq<Event>, second: seq<Event>, text: string)
    requires Ordered(first, 0, |text|) && Ordered(second, 0, |text|)
    requires WellNested(second, []) && NoVoids(second)
    ensures WellNested(first, []) ==> Merges(Merged(first, second, [], 0, text), first, second, text)
    ensures var s := Read(Merged(first, second, [], 0, text), EMPTY); s.Scan? && s.open == [] ==> EventBalance(first) == 0
  {
    var tokens := Merged(first, second, [], 0, text);
    if WellNested(first, []) {
      MergedKeeps([], [], [], 0, first, second, first, second, text);
      assert [] + tokens == tokens;
    }
    MergedBalance(first, second, [], 0, text);
    ReadBalance(tokens);
    NestedBalance(second, []);
  }

  // ---------- The text of the merge ----------

  lemma {:induction false} TextOfTokensConcat(a: seq<Token>, b: seq<Token>)
    ensures TextOfTokens(a + b) == TextOfTokens(a) + TextOfTokens(b)
  {
    if a == [] {
      assert a + b == b;
    } else {
      TextOfTokensConcat(a[1..], b);
      assert (a + b)[1..] == a[1..] + b;
    }
  }

  lemma {:induction false} TagsHaveNoText(stack: seq<Tag>)
    ensures TextOfTokens(Closes(stack)) == "" && TextOfTokens(Opens(stack)) == ""
  {
    if stack != [] {
      var top, below := stack[|stack| - 1], stack[..|stack| - 1];
      TagsHaveNoText(below);
      TextOfTokensConcat([Close(top)], Closes(below));
      TextOfTokensConcat(Opens(below), [Open(top)]);
      OneText(Close(top));
      OneText(Open(top));
    }
  }

  lemma OneText(t: Token)
    ensures TextOfTokens([t]) == if t.Chars? then t.text else ""
  {
    assert [t][1..] == [] && TextOfTokens([t][1..]) == "";
  }

  lemma {:induction false} EventsHaveNoText(events: seq<Event>)
    ensures TextOfTokens(TokensOf(events)) == ""
  {
    if events != [] {
      EventsHaveNoText(events[1..]);
      TextOfTokensConcat([TokenOf(events[0])], TokensOf(events[1..]));
      OneText(TokenOf(events[0]));
    }
  }

  lemma TextParts(chars: Token, closes: seq<Token>, run: seq<Token>, opens: seq<Token>, rest: seq<Token>)
    requires chars.Chars? && TextOfTokens(closes) == "" && TextOfTokens(run) == "" && TextOfTokens(opens) == ""
    ensures TextOfTokens([chars] + (closes + (run + (opens + rest)))) == chars.text + TextOfTokens(rest)
  {
    TextOfTokensConcat(opens, rest);
    TextOfTokensConcat(run, opens + rest);
    TextOfTokensConcat(closes, run + (opens + rest));
    TextOfTokensConcat([chars], closes + (run + (opens + rest)));
    OneText(chars);
    assert "" + TextOfTokens(rest) == TextOfTokens(rest);
  }

  /** The text of the merge is the text, whatever the streams. */
  lemma {:induction false} MergedText(first: seq<Event>, second: seq<Event>, stack: seq<Tag>, at: nat, text: string)
    requires Ordered(first, at, |text|) && Ordered(second, at, |text|)
    ensures TextOfTokens(Merged(first, second, stack, at, text)) == text[at..]
    decreases |first| + |second|
  {
    if first == [] && second == [] {
      OneText(Chars(text[at..]));
    } else {
      var next := NextOffset(first, second);
      var chars := Chars(text[at..next]);
      assert text[at..next] + text[next..] == text[at..];
      if FirstIsNext(first, second) {
        RunIsAtOffset(first, second, next, |text|);
        var n := RunLength(first, second, next);
        MergedText(first[n..], second, stack, next, text);
        TagsHaveNoText(stack);
        EventsHaveNoText(first[..n]);
        TextParts(chars, Closes(stack), TokensOf(first[..n]), Opens(stack), Merged(first[n..], second, stack, next, text));
      } else {
        var stack' := Pushed(stack, second[0]);
        MergedText(first, second[1..], stack', next, text);
        OneText(TokenOf(second[0]));
        TextParts(chars, [], [TokenOf(second[0])], [], Merged(first, second[1..], stack', next, text));
        DropEmpty([TokenOf(second[0])], Merged(first, second[1..], stack', next, text));
      }
    }
  }

  lemma DropEmpty<T>(a: seq<T>, b: seq<T>)
    ensures [] + (a + ([] + b)) == a + b
  {
  }

  lemma {:induction false} PlainTaken(events: seq<Event>, n: nat)
    requires PlainEvents(events) && n <= |events|
    ensures PlainTokens(TokensOf(events[..n])) && PlainEvents(events[n..])
    decreases n
  {
    if n == 0 {
      assert events[0..] == events;
    } else {
      PlainTaken(events[1..], n - 1);
      assert events[..n][1..] == events[1..][..n - 1] && events[1..][n - 1..] == events[n..];
      PlainTokensConcat([TokenOf(events[0])], TokensOf(events[1..][..n - 1]));
      OnePlain(TokenOf(events[0]));
    }
  }

  lemma OnePlain(t: Token)
    requires PlainToken(t)
    ensures PlainTokens([t])
  {
    PlainTokensSnoc([], t);
    assert [] + [t] == [t];
  }

  lemma PlainPushed(stack: seq<Tag>, event: Event)
    requires PlainStack(stack) && PlainNames(event.tag)
    ensures PlainStack(Pushed(stack, event))
  {
    assert (stack + [event.tag])[..|stack|] == stack;
  }

  /** The merge writes plain names if its streams have only such. */
  lemma {:induction false} MergedPlain(first: seq<Event>, second: seq<Event>, stack: seq<Tag>, at: nat, text: string)
    requires Ordered(first, at, |text|) && Ordered(second, at, |text|)
    requires PlainEvents(first) && PlainEvents(second) && PlainStack(stack)
    ensures PlainTokens(Merged(first, second, stack, at, text))
    decreases |first| + |second|
  {
    if first == [] && second == [] {
      OnePlain(Chars(text[at..]));
    } else {
      var next := NextOffset(first, second);
      var chars := Chars(text[at..next]);
      OnePlain(chars);
      if FirstIsNext(first, second) {
        RunIsAtOffset(first, second, next, |text|);
        var n := RunLength(first, second, next);
        var rest := Merged(first[n..], second, stack, next, text);
        PlainTaken(first, n);
        MergedPlain(first[n..], second, stack, next, text);
        PlainClosesAndOpens(stack);
        PlainTokensConcat(Opens(stack), rest);
        PlainTokensConcat(TokensOf(first[..n]), Opens(stack) + rest);
        PlainTokensConcat(Closes(stack), TokensOf(first[..n]) + (Opens(stack) + rest));
        PlainTokensConcat([chars], Closes(stack) + (TokensOf(first[..n]) + (Opens(stack) + rest)));
      } else {
        var stack' := Pushed(stack, second[0]);
        var rest := Merged(first, second[1..], stack', next, text);
        PlainPushed(stack, second[0]);
        MergedPlain(first, second[1..], stack', next, text);
        OnePlain(TokenOf(second[0]));
        PlainTokensConcat([TokenOf(second[0])], rest);
        PlainTokensConcat([chars], [TokenOf(second[0])] + rest);
      }
    }
  }

  /** Removing all tags from the merged output leaves the escaped text, and decoding it the text: for any
      two streams, nested or not. */
  lemma MergedTextIsTheText(first: seq<Event>, second: seq<Event>, text: string)
    requires Ordered(first, 0, |text|) && Ordered(second, 0, |text|) && PlainEvents(first) && PlainEvents(second)
    ensures var s := Render(Merged(first, second, [], 0, text));
            Strip(s, false) == Escape(text) && Decode(Strip(s, false)) == text
  {
    MergedText(first, second, [], 0, text);
    MergedPlain(first, second, [], 0, text);
    assert text[0..] == text;
    StripRender(Merged(first, second, [], 0, text));
    DecodeEscape(text);
  }

  // ---------- No empty elements ----------

  /** After tokens, whether an element has just been opened, with no text or element in it yet. */
  function JustOpened(tokens: seq<Token>, before: bool): bool {
    if tokens == [] then before
    else
      match tokens[0]
      case Chars(text) => JustOpened(tokens[1..], before && text == "")
      case Open(tag) => JustOpened(tokens[1..], !IsVoid(tag))
      case Close(_) => JustOpened(tokens[1..], false)
  }

  /** No element is closed that has just been opened. */
  predicate NoneEmpty(tokens: seq<Token>, before: bool) {
    tokens == [] ||
    match tokens[0]
    case Chars(text) => NoneEmpty(tokens[1..], before && text == "")
    case Open(tag) => NoneEmpty(tokens[1..], !IsVoid(tag))
    case Close(_) => !before && NoneEmpty(tokens[1..], false)
  }

  /** No element of a stream ends where it starts, with nothing in it. */
  predicate Solid(events: seq<Event>) {
    events == [] || (SolidStart(events[0], events[1..]) && Solid(events[1..]))
  }

  predicate SolidStart(event: Event, rest: seq<Event>) {
    event.Start? && !IsVoid(event.tag) && rest != [] && rest[0].Stop? ==> event.offset != rest[0].offset
  }

  lemma {:induction false} NoneEmptyConcat(a: seq<Token>, b: seq<Token>, before: bool)
    ensures NoneEmpty(a + b, before) == (NoneEmpty(a, before) && NoneEmpty(b, JustOpened(a, before)))
    ensures JustOpened(a + b, before) == JustOpened(b, JustOpened(a, before))
  {
    if a == [] {
      assert a + b == b;
    } else {
      assert (a + b)[1..] == a[1..] + b;
      match a[0] {
        case Chars(text) => NoneEmptyConcat(a[1..], b, before && text == "");
        case Open(tag) => NoneEmptyConcat(a[1..], b, !IsVoid(tag));
        case Close(_) => NoneEmptyConcat(a[1..], b, false);
      }
    }
  }

  lemma OneNoneEmpty(t: Token, before: bool)
    ensures NoneEmpty([t], before) == (t.Close? ==> !before)
    ensures JustOpened([t], before) ==
            match t { case Chars(text) => before && text == "" case Open(tag) => !IsVoid(tag) case Close(_) => false }
  {
    assert [t][1..] == [];
  }

  lemma {:induction false} ClosesOpensNoneEmpty(stack: seq<Tag>, before: bool)
    ensures NoneEmpty(Closes(stack), false) && !JustOpened(Closes(stack), false)
    ensures NoneEmpty(Opens(stack), before) && (stack == [] ==> JustOpened(Opens(stack), before) == before)
  {
    if stack != [] {
      var below, top := stack[..|stack| - 1], stack[|stack| - 1];
      ClosesOpensNoneEmpty(below, before);
      assert Closes(stack)[1..] == Closes(below);
      OneNoneEmpty(Open(top), JustOpened(Opens(below), before));
      NoneEmptyConcat(Opens(below), [Open(top)], before);
    }
  }

  /** What is open and empty, if anything, is not about to be closed at `at`. */
  predicate Unhurried(first: seq<Event>, second: seq<Event>, at: nat, before: bool) {
    before ==>
      && (first != [] ==> first[0].offset != at)
      && (second != [] && second[0].Stop? ==> second[0].offset != at)
  }

  // A run of the first stream at one offset: ends before starts.
  lemma {:induction false} RunNoneEmpty(events: seq<Event>, at: nat, n: nat, before: bool)
    requires Solid(events) && AllAt(events, at, n)
    requires before ==> 0 < n ==> events[0].Start?
    ensures NoneEmpty(TokensOf(events[..n]), before)
  {
    if n > 0 {
      LaterAt(events, at, n);
      assert events[..n][1..] == events[1..][..n - 1];
      var now := events[0].Start? && !IsVoid(events[0].tag);
      RunNoneEmpty(events[1..], at, n - 1, now);
      OneNoneEmpty(TokenOf(events[0]), before);
      NoneEmptyConcat([TokenOf(events[0])], TokensOf(events[1..][..n - 1]), before);
    }
  }

  lemma {:induction false} SolidRest(events: seq<Event>, n: nat)
    requires Solid(events) && n <= |events|
    ensures Solid(events[n..])
  {
    if n > 0 {
      SolidRest(events[1..], n - 1);
      assert events[1..][n - 1..] == events[n..];
    }
  }

  lemma {:induction false} RunTakesAll(first: seq<Event>, second: seq<Event>, at: nat)
    requires first != [] && FirstIsNext(first, second) && first[0].offset == at
    ensures var n := RunLength(first, second, at); n < |first| ==> first[n].offset != at
    ensures second != [] && second[0].Stop? ==> second[0].offset != at
  {
    if Again(first[1..], second, at) {
      RunTakesAll(first[1..], second, at);
    }
  }

  lemma PartsNoneEmpty(chars: Token, closes: seq<Token>, run: seq<Token>, opens: seq<Token>, rest: seq<Token>, before: bool)
    requires chars.Chars? && !(before && chars.text == "")
    requires NoneEmpty(closes, false) && !JustOpened(closes, false) && NoneEmpty(run, false)
    requires forall b :: NoneEmpty(opens, b)
    requires forall b :: NoneEmpty(rest, b)
    ensures NoneEmpty([chars] + (closes + (run + (opens + rest))), before)
  {
    var b := JustOpened(run, false);
    NoneEmptyConcat(opens, rest, b);
    NoneEmptyConcat(run, opens + rest, false);
    NoneEmptyConcat(closes, run + (opens + rest), false);
    OneNoneEmpty(chars, before);
    NoneEmptyConcat([chars], closes + (run + (opens + rest)), before);
  }

  /** The merge makes no empty elements: where neither stream has one, neither has the markup. The order of
      ends and starts at one offset is what keeps it so. */
  lemma {:induction false} MergedNoneEmpty(
      first: seq<Event>, second: seq<Event>, stack: seq<Tag>, at: nat, text: string, before: bool)
    requires Ordered(first, at, |text|) && Ordered(second, at, |text|) && Solid(first) && Solid(second)
    requires Unhurried(first, second, at, before)
    ensures NoneEmpty(Merged(first, second, stack, at, text), before)
    decreases |first| + |second|
  {
    if first == [] && second == [] {
      OneNoneEmpty(Chars(text[at..]), before);
    } else {
      var next := NextOffset(first, second);
      var chars := Chars(text[at..next]);
      if FirstIsNext(first, second) {
        RunIsAtOffset(first, second, next, |text|);
        var n := RunLength(first, second, next);
        RunTakesAll(first, second, next);
        SolidRest(first, n);
        RunNoneEmpty(first, next, n, false);
        var rest := Merged(first[n..], second, stack, next, text);
        forall b ensures NoneEmpty(rest, b) {
          MergedNoneEmpty(first[n..], second, stack, next, text, b);
        }
        forall b ensures NoneEmpty(Opens(stack), b) {
          ClosesOpensNoneEmpty(stack, b);
        }
        ClosesOpensNoneEmpty(stack, false);
        PartsNoneEmpty(chars, Closes(stack), TokensOf(first[..n]), Opens(stack), rest, before);
      } else {
        var event, stack' := second[0], Pushed(stack, second[0]);
        var now := event.Start? && !IsVoid(event.tag);
        var rest := Merged(first, second[1..], stack', next, text);
        MergedNoneEmpty(first, second[1..], stack', next, text, now);
        OneNoneEmpty(chars, before);
        OneNoneEmpty(TokenOf(event), before && chars.text == "");
        NoneEmptyConcat([TokenOf(event)], rest, before && chars.text == "");
        NoneEmptyConcat([chars], [TokenOf(event)] + rest, before);
      }
    }
  }
}
