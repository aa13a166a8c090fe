/**
 `nodeStream` of highlight.js, and what the merge makes of a document and its highlighted text: every
 character comes out under its original elements and, inside them, its highlighted ones, exactly if
 every element that the walk leaves without an end is a void element of HTML.
 */
module HighlightDocuments {
  import opened Html
  import opened HighlightStreams

  // ---------- nodeStream ----------

  function TextOf(nodes: seq<Node>): string {
    if nodes == [] then "" else TextOfNode(nodes[0]) + TextOf(nodes[1..])
  }

  function TextOfNode(node: Node): string {
    match node
    case Text(text) => text
    case Element(_, children) => TextOf(children)
    case OtherNode => ""
  }

  function Events(nodes: seq<Node>, at: nat): seq<Event> {
    if nodes == [] then [] else EventsOfNode(nodes[0], at) + Events(nodes[1..], at + |TextOfNode(nodes[0])|)
  }

  function EventsOfNode(node: Node, at: nat): seq<Event> {
    match node
    case Element(tag, children) =>
      [Start(at, tag)] + Events(children, at) + if LooksVoid(tag) then [] else [Stop(at + |TextOf(children)|, tag)]
    case _ => []
  }

  /** Every character of a document with the elements it is inside of. */
  function Inside(nodes: seq<Node>, open: seq<Tag>): seq<Marked> {
    if nodes == [] then [] else InsideNode(nodes[0], open) + Inside(nodes[1..], open)
  }

  function InsideNode(node: Node, open: seq<Tag>): seq<Marked> {
    match node
    case Text(text) => Mark(text, open)
    case Element(tag, children) => Inside(children, open + [tag])
    case OtherNode => []
  }

  /** `nodeStream`: the walk over the children, pushing events. */
  method NodeStream(nodes: seq<Node>, at: nat, events: seq<Event>) returns (events': seq<Event>, at': nat)
    ensures events' == events + Events(nodes, at)
    ensures at' == at + |TextOf(nodes)|
    decreases nodes, 1
  {
    events', at' := events, at;
    var k := 0;
    assert nodes[0..] == nodes;
    while k < |nodes|
      invariant 0 <= k <= |nodes|
      invariant events' + Events(nodes[k..], at') == events + Events(nodes, at)
      invariant at' + |TextOf(nodes[k..])| == at + |TextOf(nodes)|
    {
      FirstNodeEvents(nodes[k..], at', events');
      assert nodes[k..][1..] == nodes[k + 1..];
      events', at' := NodeEventStream(nodes[k], at', events');
      k := k + 1;
    }
    assert nodes[k..] == [];
  }

  lemma FirstNodeEvents(nodes: seq<Node>, at: nat, events: seq<Event>)
    requires nodes != []
    ensures var next := at + |TextOfNode(nodes[0])|;
            && events + Events(nodes, at) == (events + EventsOfNode(nodes[0], at)) + Events(nodes[1..], next)
            && at + |TextOf(nodes)| == next + |TextOf(nodes[1..])|
  {
  }

  // One node of the walk.
  method NodeEventStream(node: Node, at: nat, events: seq<Event>) returns (events': seq<Event>, at': nat)
    ensures events' == events + EventsOfNode(node, at)
    ensures at' == at + |TextOfNode(node)|
    decreases node, 0
  {
    events', at' := events, at;
    match node {
      case Text(text) => at' := at' + |text|;
      case Element(tag, children) =>
        events' := events' + [Start(at', tag)];
        events', at' := NodeStream(children, at', events');
        if !LooksVoid(tag) {
          events' := events' + [Stop(at', tag)];
        }
      case OtherNode =>
    }
  }

  // The stream of a document in front of `rest`, built from the back.
  function EventsThen(nodes: seq<Node>, at: nat, rest: seq<Event>): seq<Event>
    decreases nodes, 1
  {
    if nodes == [] then rest
    else NodeEventsThen(nodes[0], at, EventsThen(nodes[1..], at + |TextOfNode(nodes[0])|, rest))
  }

  function NodeEventsThen(node: Node, at: nat, rest: seq<Event>): seq<Event>
    decreases node, 0
  {
    match node
    case Element(tag, children) =>
      [Start(at, tag)] +
      EventsThen(children, at, if LooksVoid(tag) then rest else [Stop(at + |TextOf(children)|, tag)] + rest)
    case _ => rest
  }

  lemma {:induction false} EventsThenIsEvents(nodes: seq<Node>, at: nat, rest: seq<Event>)
    ensures EventsThen(nodes, at, rest) == Events(nodes, at) + rest
    decreases nodes, 1
  {
    if nodes != [] {
      var next := at + |TextOfNode(nodes[0])|;
      EventsThenIsEvents(nodes[1..], next, rest);
      NodeEventsThenIsEvents(nodes[0], at, Events(nodes[1..], next) + rest);
    }
  }

  lemma {:induction false} NodeEventsThenIsEvents(node: Node, at: nat, rest: seq<Event>)
    ensures NodeEventsThen(node, at, rest) == EventsOfNode(node, at) + rest
    decreases node, 0
  {
    if node.Element? {
      var end := if LooksVoid(node.tag) then rest else [Stop(at + |TextOf(node.children)|, node.tag)] + rest;
      EventsThenIsEvents(node.children, at, end);
    }
  }

  // ---------- Elements that are ended ----------

  /** Every element that the walk leaves without an end is a void element. */
  predicate Ended(nodes: seq<Node>) {
    nodes == [] || (EndedNode(nodes[0]) && Ended(nodes[1..]))
  }

  predicate EndedNode(node: Node) {
    node.Element? ==> (LooksVoid(node.tag) ==> IsVoid(node.tag)) && Ended(node.children)
  }

  /** No void element holds any text. */
  predicate VoidsEmpty(nodes: seq<Node>) {
    nodes == [] || (VoidsEmptyNode(nodes[0]) && VoidsEmpty(nodes[1..]))
  }

  predicate VoidsEmptyNode(node: Node) {
    node.Element? ==> if IsVoid(node.tag) then TextOf(node.children) == "" else VoidsEmpty(node.children)
  }

  /** No element is void or looks so. */
  predicate Ordinary(nodes: seq<Node>) {
    nodes == [] || (OrdinaryNode(nodes[0]) && Ordinary(nodes[1..]))
  }

  predicate OrdinaryNode(node: Node) {
    node.Element? ==> !LooksVoid(node.tag) && !IsVoid(node.tag) && Ordinary(node.children)
  }

  lemma {:induction false} OrdinaryIsRegular(nodes: seq<Node>, at: nat)
    requires Ordinary(nodes)
    ensures Ended(nodes) && VoidsEmpty(nodes) && NoVoids(Events(nodes, at))
    decreases nodes, 1
  {
    if nodes != [] {
      OrdinaryNodeIsRegular(nodes[0], at);
      OrdinaryIsRegular(nodes[1..], at + |TextOfNode(nodes[0])|);
    }
  }

  lemma {:induction false} OrdinaryNodeIsRegular(node: Node, at: nat)
    requires OrdinaryNode(node)
    ensures EndedNode(node) && VoidsEmptyNode(node) && NoVoids(EventsOfNode(node, at))
    decreases node, 0
  {
    if node.Element? {
      OrdinaryIsRegular(node.children, at);
    }
  }

  // ---------- Nesting ----------

  /** The stream of a document whose elements are ended, followed by any stream, is nested if and only if
      that stream is. */
  lemma {:induction false} EventsNest(nodes: seq<Node>, at: nat, rest: seq<Event>, open: seq<Tag>)
    requires Ended(nodes)
    ensures WellNested(EventsThen(nodes, at, rest), open) == WellNested(rest, open)
    decreases nodes, 1
  {
    if nodes != [] {
      var next := at + |TextOfNode(nodes[0])|;
      NodeEventsNest(nodes[0], at, EventsThen(nodes[1..], next, rest), open);
      EventsNest(nodes[1..], next, rest, open);
    }
  }

  lemma {:induction false} NodeEventsNest(node: Node, at: nat, rest: seq<Event>, open: seq<Tag>)
    requires EndedNode(node)
    ensures WellNested(NodeEventsThen(node, at, rest), open) == WellNested(rest, open)
    decreases node, 0
  {
    if node.Element? {
      var to := at + |TextOf(node.children)|;
      var end := if LooksVoid(node.tag) then rest else [Stop(to, node.tag)] + rest;
      EventsNest(node.children, at, end, After(open, Start(at, node.tag)));
      NestedCons(Start(at, node.tag), EventsThen(node.children, at, end), open);
      if !LooksVoid(node.tag) {
        NestedStop(node.tag, at, to, rest, open);
      }
    }
  }

  lemma NestedStop(tag: Tag, at: nat, to: nat, rest: seq<Event>, open: seq<Tag>)
    ensures WellNested([Stop(to, tag)] + rest, After(open, Start(at, tag))) == WellNested(rest, open)
  {
    NestedCons(Stop(to, tag), rest, After(open, Start(at, tag)));
    EndsWhatStarted(open, at, Stop(to, tag));
  }

  lemma EndsWhatStarted(open: seq<Tag>, at: nat, stop: Event)
    requires stop.Stop?
    ensures After(After(open, Start(at, stop.tag)), stop) == open
    ensures Matches(After(open, Start(at, stop.tag)), stop)
  {
    assert (open + [stop.tag])[..|open|] == open;
  }

  lemma NestedCons(event: Event, rest: seq<Event>, open: seq<Tag>)
    ensures WellNested([event] + rest, open) ==
            (Matches(open, event) &&
             WellNested(rest, After(open, event)))
  {
    assert ([event] + rest)[1..] == rest;
  }

  lemma {:induction false} OrderedFromLower(events: seq<Event>, low: nat, mid: nat, high: nat)
    requires low <= mid && Ordered(events, mid, high)
    ensures Ordered(events, low, high)
  {}

  /** ... and ordered. */
  lemma {:induction false} EventsOrdered(nodes: seq<Node>, at: nat, rest: seq<Event>, high: nat)
    requires Ordered(rest, at + |TextOf(nodes)|, high)
    ensures Ordered(EventsThen(nodes, at, rest), at, high)
    decreases nodes, 1
  {
    if nodes != [] {
      var next := at + |TextOfNode(nodes[0])|;
      EventsOrdered(nodes[1..], next, rest, high);
      NodeEventsOrdered(nodes[0], at, EventsThen(nodes[1..], next, rest), high);
    }
  }

  lemma {:induction false} NodeEventsOrdered(node: Node, at: nat, rest: seq<Event>, high: nat)
    requires Ordered(rest, at + |TextOfNode(node)|, high)
    ensures Ordered(NodeEventsThen(node, at, rest), at, high)
    decreases node, 0
  {
    if node.Element? {
      var stop := Stop(at + |TextOf(node.children)|, node.tag);
      var end := if LooksVoid(node.tag) then rest else [stop] + rest;
      OrderedBounds(rest, stop.offset, high);
      OrderedCons(stop, rest, high);
      EventsOrdered(node.children, at, end, high);
      OrderedBounds(EventsThen(node.children, at, end), at, high);
      OrderedCons(Start(at, node.tag), EventsThen(node.children, at, end), high);
    } else {
      OrderedFromLower(rest, at, at + |TextOfNode(node)|, high);
    }
  }

  lemma OrderedCons(event: Event, rest: seq<Event>, high: nat)
    requires event.offset <= high
    ensures Ordered([event] + rest, event.offset, high) == Ordered(rest, event.offset, high)
  {
    assert ([event] + rest)[1..] == rest;
  }

  lemma {:induction false} OrderedBounds(events: seq<Event>, low: nat, high: nat)
    requires Ordered(events, low, high)
    ensures low <= high
  {}

  // ---------- Balance ----------

  /** The elements that are left without an end and are not void. */
  function Unended(nodes: seq<Node>): nat {
    if nodes == [] then 0 else UnendedNode(nodes[0]) + Unended(nodes[1..])
  }

  function UnendedNode(node: Node): nat {
    if node.Element? then (if LooksVoid(node.tag) && !IsVoid(node.tag) then 1 else 0) + Unended(node.children) else 0
  }

  lemma {:induction false} UnendedMeans(nodes: seq<Node>)
    ensures Unended(nodes) == 0 <==> Ended(nodes)
    decreases nodes, 1
  {
    if nodes != [] {
      UnendedNodeMeans(nodes[0]);
      UnendedMeans(nodes[1..]);
    }
  }

  lemma {:induction false} UnendedNodeMeans(node: Node)
    ensures UnendedNode(node) == 0 <==> EndedNode(node)
    decreases node, 0
  {
    if node.Element? {
      UnendedMeans(node.children);
    }
  }

  lemma BalanceCons(event: Event, rest: seq<Event>)
    ensures EventBalance([event] + rest) == Weight(TokenOf(event)) + EventBalance(rest)
  {
    assert ([event] + rest)[1..] == rest;
  }

  /** A stream opens more than it closes by its elements that are left without an end. */
  lemma {:induction false} EventsBalance(nodes: seq<Node>, at: nat, rest: seq<Event>)
    ensures EventBalance(EventsThen(nodes, at, rest)) == Unended(nodes) + EventBalance(rest)
    decreases nodes, 1
  {
    if nodes != [] {
      var next := at + |TextOfNode(nodes[0])|;
      EventsBalance(nodes[1..], next, rest);
      NodeEventsBalance(nodes[0], at, EventsThen(nodes[1..], next, rest));
    }
  }

  lemma {:induction false} NodeEventsBalance(node: Node, at: nat, rest: seq<Event>)
    ensures EventBalance(NodeEventsThen(node, at, rest)) == UnendedNode(node) + EventBalance(rest)
    decreases node, 0
  {
    if node.Element? {
      var stop := Stop(at + |TextOf(node.children)|, node.tag);
      var end := if LooksVoid(node.tag) then rest else [stop] + rest;
      EventsBalance(node.children, at, end);
      ElementBalance(node, at, end);
      BalanceCons(stop, rest);
    }
  }

  lemma ElementBalance(node: Node, at: nat, end: seq<Event>)
    requires node.Element?
    requires EventBalance(EventsThen(node.children, at, end)) == Unended(node.children) + EventBalance(end)
    ensures EventBalance([Start(at, node.tag)] + EventsThen(node.children, at, end)) ==
            (if IsVoid(node.tag) then 0 else 1) + Unended(node.children) + EventBalance(end)
  {
    BalanceCons(Start(at, node.tag), EventsThen(node.children, at, end));
  }

  // ---------- Covers ----------

  /** Every character with the elements it is inside of, without the void ones. */
  function Visible(nodes: seq<Node>, open: seq<Tag>): seq<Marked> {
    if nodes == [] then [] else VisibleNode(nodes[0], open) + Visible(nodes[1..], open)
  }

  function VisibleNode(node: Node, open: seq<Tag>): seq<Marked> {
    match node
    case Text(text) => Mark(text, open)
    case Element(tag, children) => Visible(children, if IsVoid(tag) then open else open + [tag])
    case OtherNode => []
  }

  lemma {:induction false} VisibleSize(nodes: seq<Node>, open: seq<Tag>)
    ensures |Visible(nodes, open)| == |TextOf(nodes)|
    decreases nodes, 1
  {
    if nodes != [] {
      VisibleNodeSize(nodes[0], open);
      VisibleSize(nodes[1..], open);
    }
  }

  lemma {:induction false} VisibleNodeSize(node: Node, open: seq<Tag>)
    ensures |VisibleNode(node, open)| == |TextOfNode(node)|
    decreases node, 0
  {
    if node.Element? {
      VisibleSize(node.children, if IsVoid(node.tag) then open else open + [node.tag]);
    }
  }

  lemma {:induction false} InsideSize(nodes: seq<Node>, open: seq<Tag>)
    ensures |Inside(nodes, open)| == |TextOf(nodes)|
    decreases nodes, 1
  {
    if nodes != [] {
      InsideNodeSize(nodes[0], open);
      InsideSize(nodes[1..], open);
    }
  }

  lemma {:induction false} InsideNodeSize(node: Node, open: seq<Tag>)
    ensures |InsideNode(node, open)| == |TextOfNode(node)|
    decreases node, 0
  {
    if node.Element? {
      InsideSize(node.children, open + [node.tag]);
    }
  }

  lemma {:induction false} VisibleKeepsText(nodes: seq<Node>, open: seq<Tag>, k: nat)
    requires k < |TextOf(nodes)|
    ensures |Visible(nodes, open)| == |TextOf(nodes)| && Visible(nodes, open)[k].0 == TextOf(nodes)[k]
    decreases nodes, 1
  {
    var size := |TextOfNode(nodes[0])|;
    VisibleSize(nodes, open);
    VisibleNodeSize(nodes[0], open);
    if k >= size {
      VisibleKeepsText(nodes[1..], open, k - size);
      assert Visible(nodes, open)[k] == Visible(nodes[1..], open)[k - size];
    } else {
      assert Visible(nodes, open)[k] == VisibleNode(nodes[0], open)[k];
      if nodes[0].Element? {
        VisibleKeepsText(nodes[0].children, if IsVoid(nodes[0].tag) then open else open + [nodes[0].tag], k);
      }
    }
  }

  /** The cover of a character by the stream of a document is where it is visible in the document. */
  lemma {:induction false} CoverIsVisible(nodes: seq<Node>, at: nat, rest: seq<Event>, open: seq<Tag>, i: nat)
    requires Ended(nodes) && at <= i
    requires rest == [] || at + |Visible(nodes, open)| <= rest[0].offset
    ensures Cover(EventsThen(nodes, at, rest), open, i) == MarkAt(Visible(nodes, open), i - at, Cover(rest, open, i))
    decreases nodes, 2
  {
    if nodes != [] {
      var next := at + |VisibleNode(nodes[0], open)|;
      EventsOfTwo(nodes, at, rest, open);
      FirstEvent(nodes[1..], next, rest, open);
      CoverIsVisibleNode(nodes[0], at, EventsThen(nodes[1..], next, rest), open, i);
      if next <= i {
        CoverIsVisible(nodes[1..], next, rest, open, i);
      }
      MarkOfTwo(VisibleNode(nodes[0], open), Visible(nodes[1..], open), i - at, Cover(rest, open, i),
                Cover(EventsThen(nodes[1..], next, rest), open, i));
    }
  }

  /** Where the character at `k` is marked to be, or else. */
  function MarkAt(marked: seq<Marked>, k: nat, otherwise: seq<Tag>): seq<Tag> {
    if k < |marked| then marked[k].1 else otherwise
  }

  lemma MarkOfTwo(a: seq<Marked>, b: seq<Marked>, k: nat, otherwise: seq<Tag>, later: seq<Tag>)
    requires k >= |a| ==> later == MarkAt(b, k - |a|, otherwise)
    ensures MarkAt(a, k, later) == MarkAt(a + b, k, otherwise)
  {}

  lemma EventsOfTwo(nodes: seq<Node>, at: nat, rest: seq<Event>, open: seq<Tag>)
    requires nodes != []
    ensures var a := VisibleNode(nodes[0], open);
            && Visible(nodes, open) == a + Visible(nodes[1..], open)
            && EventsThen(nodes, at, rest) == NodeEventsThen(nodes[0], at, EventsThen(nodes[1..], at + |a|, rest))
  {
    VisibleNodeSize(nodes[0], open);
  }

  lemma {:induction false} FirstEvent(nodes: seq<Node>, at: nat, rest: seq<Event>, open: seq<Tag>)
    requires rest == [] || at + |Visible(nodes, open)| <= rest[0].offset
    ensures var events := EventsThen(nodes, at, rest); events != [] ==> at <= events[0].offset
  {
    if nodes != [] && !nodes[0].Element? {
      FirstEvent(nodes[1..], at + |TextOfNode(nodes[0])|, rest, open);
    }
  }

  lemma CoverCons(event: Event, rest: seq<Event>, open: seq<Tag>, i: nat)
    ensures Cover([event] + rest, open, i) == if event.offset > i then open else Cover(rest, After(open, event), i)
  {
    assert ([event] + rest)[1..] == rest;
  }

  lemma {:induction false} CoverIsVisibleNode(node: Node, at: nat, rest: seq<Event>, open: seq<Tag>, i: nat)
    requires EndedNode(node) && at <= i
    requires rest == [] || at + |VisibleNode(node, open)| <= rest[0].offset
    ensures Cover(NodeEventsThen(node, at, rest), open, i) == MarkAt(VisibleNode(node, open), i - at, Cover(rest, open, i))
    decreases node, 1
  {
    if node.Element? {
      if LooksVoid(node.tag) {
        CoverIsVisibleInVoid(node, at, rest, open, i);
      } else {
        CoverIsVisibleInElement(node, at, rest, open, i);
      }
    }
  }

  lemma {:induction false} CoverIsVisibleInVoid(node: Node, at: nat, rest: seq<Event>, open: seq<Tag>, i: nat)
    requires node.Element? && LooksVoid(node.tag) && EndedNode(node) && at <= i
    requires rest == [] || at + |VisibleNode(node, open)| <= rest[0].offset
    ensures Cover(NodeEventsThen(node, at, rest), open, i) == MarkAt(VisibleNode(node, open), i - at, Cover(rest, open, i))
    decreases node, 0
  {
    CoverOfVoid(node, at, rest, open, i);
    CoverIsVisible(node.children, at, rest, open, i);
  }

  lemma {:induction false} CoverIsVisibleInElement(node: Node, at: nat, rest: seq<Event>, open: seq<Tag>, i: nat)
    requires node.Element? && !LooksVoid(node.tag) && EndedNode(node) && at <= i
    requires rest == [] || at + |VisibleNode(node, open)| <= rest[0].offset
    ensures Cover(NodeEventsThen(node, at, rest), open, i) == MarkAt(VisibleNode(node, open), i - at, Cover(rest, open, i))
    decreases node, 0
  {
    var inner, to := After(open, Start(at, node.tag)), at + |TextOf(node.children)|;
    VisibleSize(node.children, inner);
    CoverOfElement(node, at, rest, open, i);
    CoverIsVisible(node.children, at, [Stop(to, node.tag)] + rest, inner, i);
    MarkBeforeStop(Visible(node.children, inner), node.tag, at, to, rest, open, i);
  }

  // What comes after the end of an element does not matter inside it.
  lemma MarkBeforeStop(marks: seq<Marked>, tag: Tag, at: nat, to: nat, rest: seq<Event>, open: seq<Tag>, i: nat)
    requires !LooksVoid(tag) && at <= i && to == at + |marks|
    ensures MarkAt(marks, i - at, Cover([Stop(to, tag)] + rest, After(open, Start(at, tag)), i)) ==
            MarkAt(marks, i - at, Cover(rest, open, i))
  {
    CoverOfStop(tag, at, to, rest, open, i);
  }

  lemma CoverOfVoid(node: Node, at: nat, rest: seq<Event>, open: seq<Tag>, i: nat)
    requires node.Element? && LooksVoid(node.tag) && EndedNode(node) && at <= i
    ensures var inner := After(open, Start(at, node.tag));
            && inner == open && VisibleNode(node, open) == Visible(node.children, inner)
            && Cover(NodeEventsThen(node, at, rest), open, i) == Cover(EventsThen(node.children, at, rest), inner, i)
  {
    CoverCons(Start(at, node.tag), EventsThen(node.children, at, rest), open, i);
  }

  lemma CoverOfElement(node: Node, at: nat, rest: seq<Event>, open: seq<Tag>, i: nat)
    requires node.Element? && !LooksVoid(node.tag) && at <= i
    ensures var inner, stop := After(open, Start(at, node.tag)), Stop(at + |TextOf(node.children)|, node.tag);
            && VisibleNode(node, open) == Visible(node.children, inner)
            && Cover(NodeEventsThen(node, at, rest), open, i) == Cover(EventsThen(node.children, at, [stop] + rest), inner, i)
  {
    var stop := Stop(at + |TextOf(node.children)|, node.tag);
    CoverCons(Start(at, node.tag), EventsThen(node.children, at, [stop] + rest), open, i);
  }

  // The end of an element, at `to`.
  lemma CoverOfStop(tag: Tag, at: nat, to: nat, rest: seq<Event>, open: seq<Tag>, i: nat)
    ensures Cover([Stop(to, tag)] + rest, After(open, Start(at, tag)), i) ==
            if to > i then After(open, Start(at, tag)) else Cover(rest, open, i)
  {
    CoverCons(Stop(to, tag), rest, After(open, Start(at, tag)), i);
    EndsWhatStarted(open, at, Stop(to, tag));
  }

  // ---------- Visible or not ----------

  /** A character is inside at least as many elements as it is visibly inside of. */
  lemma {:induction false} InsideIsDeeper(nodes: seq<Node>, visible: seq<Tag>, open: seq<Tag>, k: nat)
    requires k < |TextOf(nodes)|
    ensures |Visible(nodes, visible)| == |Inside(nodes, open)| == |TextOf(nodes)|
    ensures |Visible(nodes, visible)[k].1| + |open| <= |Inside(nodes, open)[k].1| + |visible|
    decreases nodes, 1
  {
    var size := |TextOfNode(nodes[0])|;
    VisibleSize(nodes, visible);
    InsideSize(nodes, open);
    VisibleNodeSize(nodes[0], visible);
    InsideNodeSize(nodes[0], open);
    if k >= size {
      InsideIsDeeper(nodes[1..], visible, open, k - size);
      assert Visible(nodes, visible)[k] == Visible(nodes[1..], visible)[k - size];
      assert Inside(nodes, open)[k] == Inside(nodes[1..], open)[k - size];
    } else {
      assert Visible(nodes, visible)[k] == VisibleNode(nodes[0], visible)[k];
      assert Inside(nodes, open)[k] == InsideNode(nodes[0], open)[k];
      if nodes[0].Element? {
        var tag := nodes[0].tag;
        InsideIsDeeper(nodes[0].children, if IsVoid(tag) then visible else visible + [tag], open + [tag], k);
      }
    }
  }

  lemma SameParts<T>(a: seq<T>, b: seq<T>, a': seq<T>, b': seq<T>)
    requires |a| == |a'|
    ensures a + b == a' + b' <==> a == a' && b == b'
  {
    assert (a + b)[..|a|] == a && (a + b)[|a|..] == b;
    assert (a' + b')[..|a'|] == a' && (a' + b')[|a'|..] == b';
  }

  /** All elements are visible exactly if no void element holds text. */
  lemma {:induction false} VisibleExactly(nodes: seq<Node>, open: seq<Tag>)
    ensures Visible(nodes, open) == Inside(nodes, open) <==> VoidsEmpty(nodes)
    decreases nodes, 1
  {
    if nodes != [] {
      VisibleNodeExactly(nodes[0], open);
      VisibleExactly(nodes[1..], open);
      VisibleNodeSize(nodes[0], open);
      InsideNodeSize(nodes[0], open);
      SameParts(VisibleNode(nodes[0], open), Visible(nodes[1..], open), InsideNode(nodes[0], open), Inside(nodes[1..], open));
    }
  }

  lemma {:induction false} VisibleNodeExactly(node: Node, open: seq<Tag>)
    ensures VisibleNode(node, open) == InsideNode(node, open) <==> VoidsEmptyNode(node)
    decreases node, 0
  {
    if node.Element? {
      if !IsVoid(node.tag) {
        VisibleExactly(node.children, open + [node.tag]);
      } else if TextOf(node.children) != "" {
        InsideIsDeeper(node.children, open, open + [node.tag], 0);
      } else {
        VisibleSize(node.children, open);
        InsideSize(node.children, open + [node.tag]);
      }
    }
  }

  // ---------- Main results ----------

  /** The stream of a document is in order; if every element is ended it is well nested and covers every
      character as it is visible in the document. */
  lemma NodeStreamIsFaithful(nodes: seq<Node>)
    ensures Ordered(Events(nodes, 0), 0, |TextOf(nodes)|)
    ensures |Visible(nodes, [])| == |TextOf(nodes)|
    ensures EventBalance(Events(nodes, 0)) == 0 <==> Ended(nodes)
    ensures Ended(nodes) ==>
              && WellNested(Events(nodes, 0), [])
              && forall i :: 0 <= i < |TextOf(nodes)| ==>
                   Visible(nodes, [])[i] == (TextOf(nodes)[i], Cover(Events(nodes, 0), [], i))
  {
    EventsThenIsEvents(nodes, 0, []);
    assert Events(nodes, 0) + [] == Events(nodes, 0);
    EventsOrdered(nodes, 0, [], |TextOf(nodes)|);
    EventsBalance(nodes, 0, []);
    UnendedMeans(nodes);
    VisibleSize(nodes, []);
    if Ended(nodes) {
      EndedStreamIsFaithful(nodes);
    }
  }

  lemma EndedStreamIsFaithful(nodes: seq<Node>)
    requires Ended(nodes)
    ensures WellNested(EventsThen(nodes, 0, []), [])
    ensures |Visible(nodes, [])| == |TextOf(nodes)|
    ensures forall i :: 0 <= i < |TextOf(nodes)| ==>
              Visible(nodes, [])[i] == (TextOf(nodes)[i], Cover(EventsThen(nodes, 0, []), [], i))
  {
    EventsNest(nodes, 0, [], []);
    VisibleSize(nodes, []);
    forall i | 0 <= i < |TextOf(nodes)|
      ensures Visible(nodes, [])[i] == (TextOf(nodes)[i], Cover(EventsThen(nodes, 0, []), [], i))
    {
      CoverIsVisible(nodes, 0, [], [], i);
      VisibleKeepsText(nodes, [], i);
    }
  }

  /** The tokens written for a document and its highlighted text. */
  function MarkupTokens(block: seq<Node>, result: seq<Node>): seq<Token>
    requires TextOf(block) == TextOf(result)
  {
    NodeStreamIsFaithful(block);
    NodeStreamIsFaithful(result);
    Merged(Events(block, 0), Events(result, 0), [], 0, TextOf(block))
  }

  /** Read as HTML, every character is inside exactly its elements in `block` and then its elements in
      `result`. */
  ghost predicate Combines(tokens: seq<Token>, block: seq<Node>, result: seq<Node>) {
    var s := Read(tokens, EMPTY);
    && s.Scan? && s.open == []
    && |s.marked| == |Inside(block, [])| == |Inside(result, [])|
    && forall i :: 0 <= i < |s.marked| ==>
         s.marked[i] == (Inside(block, [])[i].0, Inside(block, [])[i].1 + Inside(result, [])[i].1)
  }

  /** As `Combines`, for the elements that are visible in `block`. */
  ghost predicate CombinesVisible(tokens: seq<Token>, block: seq<Node>, result: seq<Node>) {
    var s := Read(tokens, EMPTY);
    && s.Scan? && s.open == []
    && |s.marked| == |Visible(block, [])| == |Inside(result, [])|
    && forall i :: 0 <= i < |s.marked| ==>
         s.marked[i] == (Visible(block, [])[i].0, Visible(block, [])[i].1 + Inside(result, [])[i].1)
  }

  lemma MarkupIsVisible(block: seq<Node>, result: seq<Node>)
    requires TextOf(block) == TextOf(result) && Ordinary(result)
    ensures Ended(block) ==> CombinesVisible(MarkupTokens(block, result), block, result)
    ensures Combines(MarkupTokens(block, result), block, result) ==> Ended(block)
  {
    NodeStreamIsFaithful(block);
    NodeStreamIsFaithful(result);
    OrdinaryIsRegular(result, 0);
    VisibleExactly(result, []);
    MergedExactly(Events(block, 0), Events(result, 0), TextOf(block));
  }

  lemma {:induction false} InsideText(nodes: seq<Node>, open: seq<Tag>, k: nat)
    requires k < |TextOf(nodes)|
    ensures |Inside(nodes, open)| == |TextOf(nodes)| && Inside(nodes, open)[k].0 == TextOf(nodes)[k]
    decreases nodes, 1
  {
    var size := |TextOfNode(nodes[0])|;
    InsideSize(nodes, open);
    InsideNodeSize(nodes[0], open);
    if k >= size {
      InsideText(nodes[1..], open, k - size);
      assert Inside(nodes, open)[k] == Inside(nodes[1..], open)[k - size];
    } else {
      assert Inside(nodes, open)[k] == InsideNode(nodes[0], open)[k];
      if nodes[0].Element? {
        InsideText(nodes[0].children, open + [nodes[0].tag], k);
      }
    }
  }

  lemma SameCovers(tokens: seq<Token>, block: seq<Node>, result: seq<Node>)
    requires Combines(tokens, block, result) && CombinesVisible(tokens, block, result)
    ensures Visible(block, []) == Inside(block, [])
  {
    var s := Read(tokens, EMPTY);
    forall i | 0 <= i < |s.marked| ensures Visible(block, [])[i] == Inside(block, [])[i] {
      var r := Inside(result, [])[i].1;
      assert |Visible(block, [])[i].1 + r| == |Inside(block, [])[i].1 + r|;
      SameParts(Visible(block, [])[i].1, r, Inside(block, [])[i].1, r);
    }
  }

  /** The markup written for a document is well nested and puts every character under exactly its original
      elements and then its highlighted ones, if and only if every element that the walk leaves without an
      end is a void element, and no void element holds text. */
  lemma CombinesExactly(block: seq<Node>, result: seq<Node>)
    requires TextOf(block) == TextOf(result) && Ordinary(result)
    ensures Combines(MarkupTokens(block, result), block, result) <==> Ended(block) && VoidsEmpty(block)
  {
    MarkupIsVisible(block, result);
    VisibleExactly(block, []);
    if Combines(MarkupTokens(block, result), block, result) {
      SameCovers(MarkupTokens(block, result), block, result);
    }
  }

  /** An `abbr` element is written without its end tag. */
  lemma AbbreviationStaysOpen(text: string, after: string)
    ensures var block := [Element(Tag("abbr", []), [Text(text)]), Text(after)];
            var result := [Text(TextOf(block))];
            TextOf(result) == TextOf(block) && !Combines(MarkupTokens(block, result), block, result)
  {
    var abbr := Tag("abbr", []);
    var block := [Element(abbr, [Text(text)]), Text(after)];
    var result := [Text(TextOf(block))];
    assert result[1..] == [] && TextOf(result) == TextOf(block) + TextOf([]);
    assert OrdinaryNode(result[0]) && Ordinary(result[1..]) && Ordinary(result);
    AbbreviationLooksVoid();
    assert !EndedNode(block[0]);
    CombinesExactly(block, result);
  }

  lemma AbbreviationLooksVoid()
    ensures var abbr := Tag("abbr", []); LooksVoid(abbr) && !IsVoid(abbr)
  {
    var name := "abbr";
    assert name[1..][1..] == "br" && Contains(name[1..][1..], "br");
    assert Contains(name[1..], "br");
    forall i | 0 <= i < |VOID_NAMES| ensures VOID_NAMES[i] != name {
      assert |VOID_NAMES[i]| == 4 ==> VOID_NAMES[i][1] != 'b' || VOID_NAMES[i][0] != 'a';
    }
  }

  /** The markup of `highlightBlock`: `block` is the original document, `html` the highlighter's
      output and `result` that output as a document. */
  method HighlightBlock(block: seq<Node>, html: string, result: seq<Node>) returns (s: string)
    requires TextOf(block) == TextOf(result)
    ensures s == if Events(block, 0) == [] then html else Render(MarkupTokens(block, result))
  {
    var original, _ := NodeStream(block, 0, []);
    if |original| > 0 {
      var highlighted, _ := NodeStream(result, 0, []);
      assert original == Events(block, 0) && highlighted == Events(result, 0);
      NodeStreamIsFaithful(block);
      NodeStreamIsFaithful(result);
      s := MergeStreams(original, highlighted, TextOf(block));
    } else {
      s := html;
    }
  }
}
